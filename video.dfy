/**
 * The ULA's display decoding: the interleaved bitmap at 0x4000-0x57FF, the
 * attribute cells at 0x5800-0x5AFF, the 16-entry palette, and the colour of each
 * of the 256 x 192 pixels. These are the specifications the rasterizer loops of
 * both program variants are proved against.
 *
 * The rasterizers compute addresses on C `int` coordinates with masks and shifts;
 * for the non-negative values involved a mask of low bits is a remainder and a shift
 * is a multiplication or division by a power of two, and that is how the addresses
 * are written here (`LineOffsetBits` checks the one non-obvious case).
 */
module Video {
  import opened Bits
  import opened MemoryImage

  const SCREEN_W: nat := 256
  const SCREEN_H: nat := 192
  const SCREEN_PIXELS: nat := 49152

  const BITMAP_BASE: nat := 0x4000
  const ATTR_BASE: nat := 0x5800
  /** One past the last attribute byte: video memory is 0x4000-0x5AFF. */
  const VIDEO_END: nat := 0x5B00

  /** Pixel coordinates on the 256 x 192 screen. */
  predicate OnScreen(y: int, x: int)
  {
    0 <= y < SCREEN_H && 0 <= x < SCREEN_W
  }

  lemma Div8(n: int, q: int, r: int)
    requires 0 <= r < 8 && n == 8 * q + r
    ensures n / 8 == q && n % 8 == r
  {
  }

  lemma Div32(n: int, q: int, r: int)
    requires 0 <= r < 32 && n == 32 * q + r
    ensures n / 32 == q && n % 32 == r
  {
  }

  /**
   * Offset of scanline `y` within the bitmap: the screen is split into three
   * 64-line thirds (bits 6-7 of y), and within a third the pixel line inside a
   * character row (bits 0-2) varies slowest and the character row (bits 3-5) fastest.
   */
  function LineOffset(y: int): int
    requires 0 <= y < SCREEN_H
  {
    (y / 8 / 8) * 2048 + (y % 8) * 256 + (y / 8 % 8) * 32
  }

  /** The rasterizer's masks and shifts of y compute exactly `LineOffset`'s three fields. */
  lemma LineOffsetBits(y: bv16)
    requires y < 192
    ensures ((y & 0xC0) << 5) | ((y & 0x07) << 8) | ((y & 0x38) << 2)
            == (y / 8 / 8) * 2048 + (y % 8) * 256 + (y / 8 % 8) * 32
  {
  }

  /** Address of the bitmap byte holding pixel (x, y). */
  function BitmapAddr(y: int, x: int): (a: Addr)
    requires OnScreen(y, x)
    ensures BITMAP_BASE <= a < ATTR_BASE
  {
    BITMAP_BASE + LineOffset(y) + x / 8
  }

  /** The scanline a bitmap byte belongs to: the interleaving undone. */
  function BitmapLine(a: int): int
    requires BITMAP_BASE <= a < ATTR_BASE
  {
    var m := (a - BITMAP_BASE) / 32;
    (m / 8 / 8) * 64 + (m % 8) * 8 + m / 8 % 8
  }

  /** The 8-pixel column a bitmap byte belongs to. */
  function BitmapColumn(a: int): int
    requires BITMAP_BASE <= a < ATTR_BASE
  {
    (a - BITMAP_BASE) % 32
  }

  /** Each bitmap byte is read for one scanline and one 8-pixel column, recovered above. */
  lemma BitmapAddrDecodes(y: int, x: int)
    requires OnScreen(y, x)
    ensures BitmapLine(BitmapAddr(y, x)) == y && BitmapColumn(BitmapAddr(y, x)) == x / 8
  {
    var t, r, l, c := y / 8 / 8, y / 8 % 8, y % 8, x / 8;
    Div8(y, y / 8, l);
    Div8(y / 8, t, r);
    var m := (t * 8 + l) * 8 + r;
    assert BitmapAddr(y, x) - BITMAP_BASE == 32 * m + c;
    Div32(BitmapAddr(y, x) - BITMAP_BASE, m, c);
    Div8(m, t * 8 + l, r);
    Div8(t * 8 + l, t, l);
  }

  /** Two pixels share a bitmap byte exactly when they are on one scanline and in one 8-pixel column. */
  lemma BitmapAddrInjective(y1: int, x1: int, y2: int, x2: int)
    requires OnScreen(y1, x1) && OnScreen(y2, x2)
    ensures BitmapAddr(y1, x1) == BitmapAddr(y2, x2) <==> y1 == y2 && x1 / 8 == x2 / 8
  {
    BitmapAddrDecodes(y1, x1);
    BitmapAddrDecodes(y2, x2);
  }

  /** Every byte of the bitmap area is read by the rasterizer, for the scanline and column computed above. */
  lemma BitmapAddrOnto(a: int)
    requires BITMAP_BASE <= a < ATTR_BASE
    ensures OnScreen(BitmapLine(a), BitmapColumn(a) * 8)
    ensures BitmapAddr(BitmapLine(a), BitmapColumn(a) * 8) == a
  {
    var m, c := (a - BITMAP_BASE) / 32, (a - BITMAP_BASE) % 32;
    var t, l, r := m / 8 / 8, m / 8 % 8, m % 8;
    var y := BitmapLine(a);
    assert y == (t * 8 + r) * 8 + l;
    Div8(y, t * 8 + r, l);
    Div8(t * 8 + r, t, r);
    Div8(c * 8, c, 0);
  }

  /** Address of the attribute byte of the 8 x 8 cell holding pixel (x, y). */
  function AttrAddr(y: int, x: int): (a: Addr)
    requires OnScreen(y, x)
    ensures ATTR_BASE <= a < VIDEO_END
  {
    ATTR_BASE + (y / 8) * 32 + x / 8
  }

  /** Two pixels share an attribute byte exactly when they lie in the same 8 x 8 cell. */
  lemma AttrAddrCell(y1: int, x1: int, y2: int, x2: int)
    requires OnScreen(y1, x1) && OnScreen(y2, x2)
    ensures AttrAddr(y1, x1) == AttrAddr(y2, x2) <==> y1 / 8 == y2 / 8 && x1 / 8 == x2 / 8
  {
    Div32(AttrAddr(y1, x1) - ATTR_BASE, y1 / 8, x1 / 8);
    Div32(AttrAddr(y2, x2) - ATTR_BASE, y2 / 8, x2 / 8);
  }

  /** The bit of its bitmap byte that holds pixel x: the leftmost pixel is bit 7. */
  function PixelBit(x: int): (k: nat)
    ensures k < 8
  {
    7 - x % 8
  }

  /** The rasterizer's mask `0x80 >> (x & 7)` is the mask of `PixelBit(x)`. */
  lemma PixelMaskBits(x: bv16)
    ensures (0x80 as bv8) >> (x & 7) == Mask(7 - (x % 8) as int)
  {
  }

  /** A decoded attribute byte. */
  datatype Attribute = Attribute(ink: bv8, paper: bv8, bright: bool, flash: bool)
  {
    predicate Valid()
    {
      ink < 8 && paper < 8
    }
  }

  /** Ink in bits 0-2, paper in bits 3-5, bright in bit 6, flash in bit 7. */
  function DecodeAttribute(a: bv8): (r: Attribute)
    ensures r.Valid()
    ensures EncodeAttribute(r) == a
  {
    Attribute(a & 0x07, (a >> 3) & 0x07, a & 0x40 != 0, a & 0x80 != 0)
  }

  /** The attribute byte that decodes to `r`. */
  function EncodeAttribute(r: Attribute): bv8
    requires r.Valid()
  {
    r.ink | (r.paper << 3) | (if r.bright then 0x40 else 0) | (if r.flash then 0x80 else 0)
  }

  lemma DecodeEncode(r: Attribute)
    requires r.Valid()
    ensures DecodeAttribute(EncodeAttribute(r)) == r
  {
  }

  /** Eight normal colours, then the eight bright ones; black is black in both halves. */
  const PALETTE: seq<bv32> := [
    0xFF000000, 0xFF0000D7, 0xFFD70000, 0xFFD700D7,
    0xFF00D700, 0xFF00D7D7, 0xFFD7D700, 0xFFD7D7D7,
    0xFF000000, 0xFF0000FF, 0xFFFF0000, 0xFFFF00FF,
    0xFF00FF00, 0xFF00FFFF, 0xFFFFFF00, 0xFFFFFFFF]

  /** Every palette entry is fully opaque, and bright black is plain black. */
  lemma PaletteFacts()
    ensures |PALETTE| == 16
    ensures forall i :: 0 <= i < 16 ==> PALETTE[i] & 0xFF000000 == 0xFF000000
    ensures PALETTE[0] == PALETTE[8] == 0xFF000000
    ensures forall i :: 1 <= i < 8 ==> PALETTE[i] != PALETTE[i + 8]
  {
  }

  /**
   * main.c's palette index for one pixel: ink for a set bitmap bit, paper for a clear
   * one, with ink and paper exchanged while a flashing cell is in its inverted phase;
   * the bright bit selects the upper half of the palette.
   */
  function ColourIndex(attr: Attribute, ink: bool, flashPhase: bool): (c: bv8)
    requires attr.Valid()
    ensures c < 16
    ensures (c & 8 != 0) == attr.bright
    ensures c & 7 == if ink != (attr.flash && flashPhase) then attr.ink else attr.paper
  {
    var (i, p) := if attr.flash && flashPhase then (attr.paper, attr.ink) else (attr.ink, attr.paper);
    (if ink then i else p) + (if attr.bright then 8 else 0)
  }

  /** In the inverted phase a flashing cell shows each pixel in the colour of the opposite bit. */
  lemma FlashSwapsInkAndPaper(attr: Attribute, ink: bool)
    requires attr.Valid()
    ensures attr.flash ==> ColourIndex(attr, ink, true) == ColourIndex(attr, !ink, false)
    ensures !attr.flash ==> ColourIndex(attr, ink, true) == ColourIndex(attr, ink, false)
  {
  }

  /** old_main.c's palette index: the same selection without any flash handling. */
  function PlainColourIndex(attr: Attribute, ink: bool): (c: bv8)
    requires attr.Valid()
    ensures c < 16
    ensures c == ColourIndex(attr, ink, false)
  {
    (if ink then attr.ink else attr.paper) + (if attr.bright then 8 else 0)
  }

  /** The bitmap bit of pixel (x, y) is set: the pixel shows ink. */
  predicate PixelOn(mem: seq<bv8>, y: int, x: int)
    requires |mem| == MEMORY_SIZE && OnScreen(y, x)
  {
    BitSet(mem[BitmapAddr(y, x)], PixelBit(x))
  }

  /** The decoded attribute cell of pixel (x, y). */
  function PixelAttribute(mem: seq<bv8>, y: int, x: int): (r: Attribute)
    requires |mem| == MEMORY_SIZE && OnScreen(y, x)
    ensures r.Valid()
  {
    DecodeAttribute(mem[AttrAddr(y, x)])
  }

  /** main.c's colour of pixel (x, y). */
  function PixelColour(mem: seq<bv8>, flashPhase: bool, y: int, x: int): bv32
    requires |mem| == MEMORY_SIZE && OnScreen(y, x)
  {
    PALETTE[ColourIndex(PixelAttribute(mem, y, x), PixelOn(mem, y, x), flashPhase) as int]
  }

  /** old_main.c's colour of pixel (x, y). */
  function PlainPixelColour(mem: seq<bv8>, y: int, x: int): bv32
    requires |mem| == MEMORY_SIZE && OnScreen(y, x)
  {
    PALETTE[PlainColourIndex(PixelAttribute(mem, y, x), PixelOn(mem, y, x)) as int]
  }

  /** A pixel reads nothing but its bitmap byte and its attribute byte, both in video memory. */
  lemma PixelReadsVideoRamOnly(mem: seq<bv8>, mem': seq<bv8>, y: int, x: int)
    requires |mem| == MEMORY_SIZE && |mem'| == MEMORY_SIZE && OnScreen(y, x)
    requires forall a :: BITMAP_BASE <= a < VIDEO_END ==> mem[a] == mem'[a]
    ensures PixelOn(mem, y, x) == PixelOn(mem', y, x)
    ensures PixelAttribute(mem, y, x) == PixelAttribute(mem', y, x)
  {
    var b, t := BitmapAddr(y, x), AttrAddr(y, x);
    assert mem[b] == mem'[b] && mem[t] == mem'[t];
  }

  /** Pixel (x, y) is stored at index y * 256 + x of a frame, and that index maps back to (x, y). */
  lemma RowMajor(y: int, x: int)
    requires OnScreen(y, x)
    ensures 0 <= y * SCREEN_W + x < SCREEN_PIXELS
    ensures (y * SCREEN_W + x) / SCREEN_W == y && (y * SCREEN_W + x) % SCREEN_W == x
  {
  }

  /** main.c's frame: pixel (x, y) at index y * 256 + x. */
  function Screen(mem: seq<bv8>, flashPhase: bool): (s: seq<bv32>)
    requires |mem| == MEMORY_SIZE
    ensures |s| == SCREEN_PIXELS
  {
    seq(SCREEN_PIXELS, i requires 0 <= i < SCREEN_PIXELS =>
      PixelColour(mem, flashPhase, i / SCREEN_W, i % SCREEN_W))
  }

  /** A frame buffer is main.c's frame exactly when each pixel (x, y) has its colour at index y * 256 + x. */
  lemma ScreenByPixels(fb: seq<bv32>, mem: seq<bv8>, flashPhase: bool)
    requires |fb| == SCREEN_PIXELS && |mem| == MEMORY_SIZE
    ensures fb == Screen(mem, flashPhase) <==>
            forall y, x :: OnScreen(y, x) ==> fb[y * SCREEN_W + x] == PixelColour(mem, flashPhase, y, x)
  {
    if forall y, x :: OnScreen(y, x) ==> fb[y * SCREEN_W + x] == PixelColour(mem, flashPhase, y, x) {
      PixelsMakeScreen(fb, mem, flashPhase);
    }
    if fb == Screen(mem, flashPhase) {
      ScreenHasPixels(mem, flashPhase);
    }
  }

  /** Every index of a frame is some pixel's, so per-pixel colours determine the whole frame. */
  lemma PixelsMakeScreen(fb: seq<bv32>, mem: seq<bv8>, flashPhase: bool)
    requires |fb| == SCREEN_PIXELS && |mem| == MEMORY_SIZE
    requires forall y, x :: OnScreen(y, x) ==> fb[y * SCREEN_W + x] == PixelColour(mem, flashPhase, y, x)
    ensures fb == Screen(mem, flashPhase)
  {
    var s := Screen(mem, flashPhase);
    forall i | 0 <= i < SCREEN_PIXELS
      ensures fb[i] == s[i]
    {
      var y, x := i / SCREEN_W, i % SCREEN_W;
      assert i == y * SCREEN_W + x;
      assert OnScreen(y, x);
    }
  }

  /** Pixel (x, y) of main.c's frame sits at index y * 256 + x. */
  lemma ScreenHasPixels(mem: seq<bv8>, flashPhase: bool)
    requires |mem| == MEMORY_SIZE
    ensures forall y, x :: OnScreen(y, x) ==> Screen(mem, flashPhase)[y * SCREEN_W + x] == PixelColour(mem, flashPhase, y, x)
  {
    var s := Screen(mem, flashPhase);
    forall y, x | OnScreen(y, x)
      ensures s[y * SCREEN_W + x] == PixelColour(mem, flashPhase, y, x)
    {
      RowMajor(y, x);
    }
  }

  /** A frame agreeing with main.c's frame on rows 0..y-1 and holding row y's colours agrees on rows 0..y. */
  lemma ScreenRowsGrow(fb: seq<bv32>, mem: seq<bv8>, flashPhase: bool, y: int)
    requires |fb| == SCREEN_PIXELS && |mem| == MEMORY_SIZE && 0 <= y < SCREEN_H
    requires fb[..y * SCREEN_W] == Screen(mem, flashPhase)[..y * SCREEN_W]
    requires forall x :: 0 <= x < SCREEN_W ==> fb[y * SCREEN_W + x] == PixelColour(mem, flashPhase, y, x)
    ensures fb[..(y + 1) * SCREEN_W] == Screen(mem, flashPhase)[..(y + 1) * SCREEN_W]
  {
    var s := Screen(mem, flashPhase);
    forall i | 0 <= i < (y + 1) * SCREEN_W
      ensures fb[i] == s[i]
    {
      if i < y * SCREEN_W {
        assert fb[..y * SCREEN_W][i] == s[..y * SCREEN_W][i];
      } else {
        var x := i - y * SCREEN_W;
        RowMajor(y, x);
      }
    }
  }

  /** old_main.c's frame. */
  function PlainScreen(mem: seq<bv8>): (s: seq<bv32>)
    requires |mem| == MEMORY_SIZE
    ensures |s| == SCREEN_PIXELS
  {
    seq(SCREEN_PIXELS, i requires 0 <= i < SCREEN_PIXELS =>
      PlainPixelColour(mem, i / SCREEN_W, i % SCREEN_W))
  }

  /** The same for old_main.c's frame. */
  lemma PlainScreenRowsGrow(fb: seq<bv32>, mem: seq<bv8>, y: int)
    requires |fb| == SCREEN_PIXELS && |mem| == MEMORY_SIZE && 0 <= y < SCREEN_H
    requires fb[..y * SCREEN_W] == PlainScreen(mem)[..y * SCREEN_W]
    requires forall x :: 0 <= x < SCREEN_W ==> fb[y * SCREEN_W + x] == PlainPixelColour(mem, y, x)
    ensures fb[..(y + 1) * SCREEN_W] == PlainScreen(mem)[..(y + 1) * SCREEN_W]
  {
    var s := PlainScreen(mem);
    forall i | 0 <= i < (y + 1) * SCREEN_W
      ensures fb[i] == s[i]
    {
      if i < y * SCREEN_W {
        assert fb[..y * SCREEN_W][i] == s[..y * SCREEN_W][i];
      } else {
        var x := i - y * SCREEN_W;
        RowMajor(y, x);
      }
    }
  }

  /** The flash-less variant draws what main.c draws in the non-inverted flash phase. */
  lemma PlainScreenIsUnflashed(mem: seq<bv8>)
    requires |mem| == MEMORY_SIZE
    ensures PlainScreen(mem) == Screen(mem, false)
  {
    var s, s' := PlainScreen(mem), Screen(mem, false);
    assert forall i :: 0 <= i < SCREEN_PIXELS ==> s[i] == s'[i];
  }

  /** Both variants of the frame depend only on the 6912 bytes of video memory. */
  lemma ScreenReadsVideoRamOnly(mem: seq<bv8>, mem': seq<bv8>, flashPhase: bool)
    requires |mem| == MEMORY_SIZE && |mem'| == MEMORY_SIZE
    requires forall a :: BITMAP_BASE <= a < VIDEO_END ==> mem[a] == mem'[a]
    ensures Screen(mem, flashPhase) == Screen(mem', flashPhase)
    ensures PlainScreen(mem) == PlainScreen(mem')
  {
    var s, s' := Screen(mem, flashPhase), Screen(mem', flashPhase);
    var p, p' := PlainScreen(mem), PlainScreen(mem');
    forall i | 0 <= i < SCREEN_PIXELS
      ensures s[i] == s'[i] && p[i] == p'[i]
    {
      PixelReadsVideoRamOnly(mem, mem', i / SCREEN_W, i % SCREEN_W);
    }
  }

  /** A pixel whose bitmap byte and attribute byte are zero is paper colour 0, not bright. */
  lemma BlankPixelIsBlack(mem: seq<bv8>, flashPhase: bool, y: int, x: int)
    requires |mem| == MEMORY_SIZE && OnScreen(y, x)
    requires forall a :: BITMAP_BASE <= a < VIDEO_END ==> mem[a] == 0
    ensures PixelColour(mem, flashPhase, y, x) == PALETTE[0]
  {
    var b, t := BitmapAddr(y, x), AttrAddr(y, x);
    assert mem[b] == 0 && mem[t] == 0;
    assert !PixelOn(mem, y, x);
    assert PixelAttribute(mem, y, x) == Attribute(0, 0, false, false);
  }

  /** Video memory that is all zero (as after the RAM is cleared) shows a black screen. */
  lemma BlankVideoRamIsBlack(mem: seq<bv8>, flashPhase: bool)
    requires |mem| == MEMORY_SIZE
    requires forall a :: BITMAP_BASE <= a < VIDEO_END ==> mem[a] == 0
    ensures Screen(mem, flashPhase) == seq(SCREEN_PIXELS, _ => PALETTE[0])
    ensures PALETTE[0] == 0xFF000000
  {
    var s := Screen(mem, flashPhase);
    forall i | 0 <= i < SCREEN_PIXELS
      ensures s[i] == PALETTE[0]
    {
      BlankPixelIsBlack(mem, flashPhase, i / SCREEN_W, i % SCREEN_W);
    }
  }

  /**
   * Attribute 0x07 is white ink on black paper; 0x47 is the same cell with the bright
   * bit (bit 6) set, so its ink is bright white and its paper still black.
   */
  lemma WhiteOnBlack(flashPhase: bool)
    ensures DecodeAttribute(0x07) == Attribute(7, 0, false, false)
    ensures PALETTE[ColourIndex(DecodeAttribute(0x07), true, flashPhase) as int] == 0xFFD7D7D7
    ensures PALETTE[ColourIndex(DecodeAttribute(0x07), false, flashPhase) as int] == 0xFF000000
    ensures DecodeAttribute(0x47) == Attribute(7, 0, true, false)
    ensures PALETTE[ColourIndex(DecodeAttribute(0x47), true, flashPhase) as int] == 0xFFFFFFFF
    ensures PALETTE[ColourIndex(DecodeAttribute(0x47), false, flashPhase) as int] == 0xFF000000
  {
  }
}
