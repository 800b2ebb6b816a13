/**
  Colours as the game hands them to the canvas host: four bytes r, g, b, a
  packed big-end-first into the low 32 bits of a 64-bit word.
 */
module Colour {

  type Byte = bv8

  /** `Color(u64)`: the packed word itself. */
  datatype Color = Color(packed: bv64)

  /** `From<(u8, u8, u8, u8)>`: shift each byte into place and OR them together. */
  function FromRgba(r: Byte, g: Byte, b: Byte, a: Byte): (c: Color)
    ensures c.packed < 0x1_0000_0000
  {
    Color(((r as bv64) << 24) | ((g as bv64) << 16) | ((b as bv64) << 8) | (a as bv64))
  }

  /** `From<(u8, u8, u8)>`: the same packing with the alpha byte fixed at 255. */
  function FromRgb(r: Byte, g: Byte, b: Byte): (c: Color)
    ensures c.packed & 0xFF == 0xFF
  {
    Color(((r as bv64) << 24) | ((g as bv64) << 16) | ((b as bv64) << 8) | (255 as bv64))
  }

  /** `From<u64>`: a packed word is taken as it is. */
  function FromPacked(v: bv64): Color
  {
    Color(v)
  }

  /** `Color::to_bytes`: shift each byte down and mask it off; bits above 31 are ignored. */
  function ToBytes(c: Color): (Byte, Byte, Byte, Byte)
  {
    (((c.packed >> 24) & 0xFF) as Byte,
     ((c.packed >> 16) & 0xFF) as Byte,
     ((c.packed >> 8) & 0xFF) as Byte,
     (c.packed & 0xFF) as Byte)
  }

  /** Unpacking a colour built from four bytes gives those bytes back. */
  lemma RgbaRoundTrip(r: Byte, g: Byte, b: Byte, a: Byte)
    ensures ToBytes(FromRgba(r, g, b, a)) == (r, g, b, a)
  {
  }

  /** A colour built from three bytes is the four-byte colour with alpha 255. */
  lemma RgbIsOpaque(r: Byte, g: Byte, b: Byte)
    ensures FromRgb(r, g, b) == FromRgba(r, g, b, 255)
    ensures ToBytes(FromRgb(r, g, b)) == (r, g, b, 255)
  {
    RgbaRoundTrip(r, g, b, 255);
  }

  /**
    The other direction: repacking the bytes of any word keeps exactly its low
    32 bits, so the round trip is the identity precisely on words below 2^32.
   */
  lemma RepackKeepsLowWord(c: Color)
    ensures FromRgba(ToBytes(c).0, ToBytes(c).1, ToBytes(c).2, ToBytes(c).3).packed
            == c.packed & 0xFFFF_FFFF
    ensures FromRgba(ToBytes(c).0, ToBytes(c).1, ToBytes(c).2, ToBytes(c).3) == c
            <==> c.packed < 0x1_0000_0000
  {
  }

  /**
    The packed literals the turn indicator is stroked with are the same colours
    as the byte triples the board's marks are stroked with: opaque black for X
    and opaque red for O.
   */
  lemma PackedLiteralsAreOpaque()
    ensures FromPacked(0x0000_00FF) == FromRgb(0, 0, 0)
    ensures FromPacked(0xFF00_00FF) == FromRgb(255, 0, 0)
  {
  }

  /** The grid's packed literal is black at a quarter of full opacity. */
  lemma GridColourIsTranslucent()
    ensures ToBytes(FromPacked(0x0000_0040)) == (0, 0, 0, 0x40)
  {
  }
}
