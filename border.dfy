/**
 * old_main.c: the earlier variant of the machine, without keyboard, beeper or flash.
 * It latches a border colour from the ULA port and paints it over the whole frame
 * buffer before drawing the bitmap, which then covers every one of those pixels.
 */
module SpectrumBorder {
  import opened MemoryImage
  import opened Keyboard
  import opened Ports
  import opened Video

  /**
   * `port_in` without a keyboard: every port reads 0xFF whatever the CPU's B register
   * holds, which is what main.c's port reads with no key held down.
   */
  function PortIn(portLo: bv8, b: bv8): (r: bv8)
    ensures r == KeyboardPortIn(AllReleased, portLo, b)
  {
    ReleasedReadsAllOnes(portLo, b);
    0xFF
  }

  class Machine {
    /** `memory[65536]`: ROM then RAM. */
    var memory: array<bv8>
    /** `border_color`: the palette index last latched by `port_out`. */
    var borderColor: bv8

    ghost predicate Valid()
      reads this
    {
      memory.Length == MEMORY_SIZE && borderColor < 8
    }

    /** The globals as the program starts: zero-filled memory, black border. */
    constructor ()
      ensures Valid() && fresh(memory)
      ensures forall a :: 0 <= a < MEMORY_SIZE ==> memory[a] == 0
      ensures borderColor == 0
    {
      memory := new bv8[MEMORY_SIZE](_ => 0);
      borderColor := 0;
    }

    /** `port_out`: an even port latches bits 1-3 of the value as the border colour; an odd one is ignored. */
    method PortOut(portLo: bv8, val: bv8)
      requires Valid()
      modifies this`borderColor
      ensures Valid()
      ensures borderColor == if IsUlaPort(portLo) then BorderColour(val) else old(borderColor)
    {
      if portLo & 1 == 0 {
        borderColor := (val >> 1) & 0x07;
      }
    }

    /** The border fill: every entry of the frame buffer gets the border's palette colour. */
    method FillBorder(fb: array<bv32>)
      requires Valid() && fb.Length == SCREEN_PIXELS
      modifies fb
      ensures forall i :: 0 <= i < SCREEN_PIXELS ==> fb[i] == PALETTE[borderColor]
    {
      var bc := PALETTE[borderColor];
      for i := 0 to SCREEN_PIXELS
        invariant forall j :: 0 <= j < i ==> fb[j] == bc
      {
        fb[i] := bc;
      }
    }

    /**
     * The rasterizer's inner-loop body: pixel (x, y)'s bitmap bit and attribute byte are
     * read from video memory and turned into a palette colour, with no flash handling.
     */
    method DecodePixel(y: int, y0: int, x: int) returns (c: bv32)
      requires memory.Length == MEMORY_SIZE && OnScreen(y, x) && y0 == LineOffset(y)
      ensures c == PlainPixelColour(memory[..], y, x)
    {
      var bit := memory[BITMAP_BASE + y0 + x / 8] & Bits.Mask(7 - x % 8);
      var attr := memory[ATTR_BASE + (y / 8) * 32 + x / 8];
      assert (bit != 0) == PixelOn(memory[..], y, x);
      assert DecodeAttribute(attr) == PixelAttribute(memory[..], y, x);
      var col := PlainCellColour(attr, bit != 0);
      c := PALETTE[col as int];
    }

    /** One scanline of the rasterizer: row y of the frame buffer is drawn and the rows above it keep their colours. */
    method RenderLine(fb: array<bv32>, y: int)
      requires memory.Length == MEMORY_SIZE && fb.Length == SCREEN_PIXELS && 0 <= y < SCREEN_H
      modifies fb
      ensures fb[..y * SCREEN_W] == old(fb[..y * SCREEN_W])
      ensures forall x :: 0 <= x < SCREEN_W ==> fb[y * SCREEN_W + x] == PlainPixelColour(memory[..], y, x)
    {
      var y0 := LineOffset(y);
      for x := 0 to SCREEN_W
        invariant fb[..y * SCREEN_W] == old(fb[..y * SCREEN_W])
        invariant forall x' :: 0 <= x' < x ==> fb[y * SCREEN_W + x'] == PlainPixelColour(memory[..], y, x')
      {
        var c := DecodePixel(y, y0, x);
        fb[y * SCREEN_W + x] := c;
      }
    }

    /** The rasterizer: every pixel of the frame buffer gets its colour, whatever the buffer held before. */
    method RenderFrame(fb: array<bv32>)
      requires Valid() && fb.Length == SCREEN_PIXELS
      modifies fb
      ensures fb[..] == PlainScreen(memory[..])
    {
      for y := 0 to SCREEN_H
        invariant fb[..y * SCREEN_W] == PlainScreen(memory[..])[..y * SCREEN_W]
      {
        RenderLine(fb, y);
        PlainScreenRowsGrow(fb[..], memory[..], y);
      }
      assert fb[..] == fb[..SCREEN_H * SCREEN_W];
    }

    /**
     * One iteration of the main loop, without the CPU's frame of execution: drain the
     * host events (only a quit request matters; it ends the loop after this iteration),
     * paint the border, draw the frame. The frame that results is the picture in video
     * memory alone: the border colour does not reach it.
     */
    method RunFrame(events: seq<HostEvent>, fb: array<bv32>) returns (running: bool)
      requires Valid() && fb.Length == SCREEN_PIXELS
      modifies fb
      ensures running <==> Quit !in events
      ensures fb[..] == PlainScreen(memory[..])
    {
      running := true;
      for i := 0 to |events|
        invariant running <==> Quit !in events[..i]
      {
        if events[i] == Quit {
          running := false;
        }
        assert events[..i + 1] == events[..i] + [events[i]];
      }
      assert events[..|events|] == events;
      FillBorder(fb);
      RenderFrame(fb);
    }
  }

  /**
   * The colour arithmetic of old_main.c's rasterizer for one pixel: split the attribute
   * byte, pick ink or paper by the bitmap bit and add 8 for bright, giving the palette index.
   */
  method PlainCellColour(attr: bv8, bit: bool) returns (col: bv8)
    ensures col == PlainColourIndex(DecodeAttribute(attr), bit)
  {
    var bright := attr & 0x40 != 0;
    var ink, paper := attr & 0x07, (attr >> 3) & 0x07;
    col := (if bit then ink else paper) + (if bright then 8 else 0);
  }
}
