/**
 * main.c: the 48K machine with keyboard, beeper latch and flashing attributes.
 * The file's globals become the fields of `Machine`; the CPU hooks and the
 * per-frame work become its methods.
 */
module Spectrum48 {
  import opened Wrappers
  import opened MemoryImage
  import opened Keyboard
  import opened Ports
  import opened Video
  import opened Flash

  class Machine {
    /** `memory[65536]`: ROM then RAM. */
    var memory: array<bv8>
    /** `key_matrix[8]`: one active-low byte per half-row. */
    var keyMatrix: array<bv8>
    var flashCounter: int
    var flashState: bool
    /** Main-loop iterations so far; determines the two flash variables. */
    ghost var frames: nat
    /** The beeper level last written to the port. */
    var speakerOn: bool
    /** The edge detector's copy of the beeper level. */
    var lastSpeakerState: bool
    /** The audio oscillator's phase; here only its resets to 0 are modelled. */
    var phase: real

    ghost predicate Valid()
      reads this
    {
      memory.Length == MEMORY_SIZE && keyMatrix.Length == ROWS && memory != keyMatrix
      && 0 <= flashCounter < FLASH_PERIOD
      && FlashTimer(flashCounter, flashState) == FlashAfter(frames)
      && lastSpeakerState == speakerOn
    }

    /** The globals as the program starts: zero-filled memory and matrix, flash and beeper off. */
    constructor ()
      ensures Valid() && fresh(memory) && fresh(keyMatrix)
      ensures forall a :: 0 <= a < MEMORY_SIZE ==> memory[a] == 0
      ensures forall r :: 0 <= r < ROWS ==> keyMatrix[r] == 0
      ensures frames == 0 && !flashState
      ensures !speakerOn && phase == 0.0
    {
      memory := new bv8[MEMORY_SIZE](_ => 0);
      keyMatrix := new bv8[ROWS](_ => 0);
      flashCounter, flashState, frames := 0, false, 0;
      speakerOn, lastSpeakerState, phase := false, false, 0.0;
    }

    /** `init_keyboard`: every key released. */
    method InitKeyboard()
      requires Valid()
      modifies keyMatrix
      ensures Valid()
      ensures keyMatrix[..] == AllReleased
      ensures RowsInRange(keyMatrix[..])
    {
      for i := 0 to ROWS
        invariant forall r :: 0 <= r < i ==> keyMatrix[r] == ROW_RELEASED
      {
        keyMatrix[i] := ROW_RELEASED;
      }
    }

    /** The start of `main`: `load_rom` (the process stops if it fails), then `init_keyboard`. */
    method Start(file: Option<seq<bv8>>) returns (ok: bool)
      requires Valid()
      modifies memory, keyMatrix
      ensures Valid()
      ensures ok == RomAccepted(file)
      ensures memory[..] == AfterLoad(old(memory[..]), file)
      ensures ok ==> keyMatrix[..] == AllReleased
      ensures !ok ==> keyMatrix[..] == old(keyMatrix[..])
    {
      ok := LoadRom(memory, file);
      if ok {
        InitKeyboard();
      }
    }

    /** `update_key`: press clears bit `bit` of row `row`, release sets it; nothing else changes. */
    method UpdateKey(row: nat, bit: nat, pressed: bool)
      requires Valid() && row < ROWS && bit < 8
      modifies keyMatrix
      ensures Valid()
      ensures keyMatrix[..] == old(keyMatrix[..])[row := UpdateRow(old(keyMatrix[row]), bit, pressed)]
      ensures bit < KEYS_PER_ROW && old(RowsInRange(keyMatrix[..])) ==> RowsInRange(keyMatrix[..])
    {
      if pressed {
        keyMatrix[row] := keyMatrix[row] & !Bits.Mask(bit);
      } else {
        keyMatrix[row] := keyMatrix[row] | Bits.Mask(bit);
      }
    }

    /** `handle_sdl_key`: a mapped scancode updates its key, any other is ignored. */
    method HandleSdlKey(sc: Scancode, pressed: bool)
      requires Valid()
      modifies keyMatrix
      ensures Valid()
      ensures keyMatrix[..] == ApplyKey(old(keyMatrix[..]), sc, pressed)
    {
      match KeyPosition(sc)
      case None =>
      case Some(p) =>
        UpdateKey(p.row, p.bit, pressed);
    }

    /** `port_in`: the wired-AND of the half-rows that B selects, top three bits high. */
    method PortIn(portLo: bv8, b: bv8) returns (r: bv8)
      requires Valid()
      ensures r == KeyboardPortIn(keyMatrix[..], portLo, b)
    {
      if portLo & 1 != 0 {
        return 0xFF;
      }
      var res := ScanRows(!b);
      r := res | 0xE0;
    }

    /** The loop of `port_in`: AND together the rows whose bit is set in `sel`. */
    method ScanRows(sel: bv8) returns (res: bv8)
      requires Valid()
      ensures res == SelectedAnd(keyMatrix[..], sel, ROWS)
    {
      res := 0xFF;
      for i := 0 to ROWS
        invariant res == SelectedAnd(keyMatrix[..], sel, i)
      {
        if sel & Bits.Mask(i) != 0 {
          res := res & keyMatrix[i];
        }
      }
    }

    /**
     * `port_out`: an even port latches bit 4 as the beeper level and restarts the
     * oscillator phase exactly when that level changes; an odd port is ignored.
     */
    method PortOut(portLo: bv8, val: bv8)
      requires Valid()
      modifies this`speakerOn, this`lastSpeakerState, this`phase
      ensures Valid()
      ensures !IsUlaPort(portLo) ==> speakerOn == old(speakerOn) && phase == old(phase)
      ensures IsUlaPort(portLo) ==> speakerOn == SpeakerBit(val)
      ensures IsUlaPort(portLo) ==> phase == if speakerOn != old(speakerOn) then 0.0 else old(phase)
    {
      if portLo & 1 == 0 {
        var newState := val & 0x10 != 0;
        if newState != lastSpeakerState {
          phase := 0.0;
          lastSpeakerState := newState;
        }
        speakerOn := newState;
      }
    }

    /** The first statement of each main-loop iteration. */
    method FlashTick()
      requires Valid()
      modifies this`flashCounter, this`flashState, this`frames
      ensures Valid() && frames == old(frames) + 1
      ensures FlashTimer(flashCounter, flashState) == FlashStep(FlashTimer(old(flashCounter), old(flashState)))
    {
      flashCounter := flashCounter + 1;
      if flashCounter >= FLASH_PERIOD {
        flashCounter := 0;
        flashState := !flashState;
      }
      frames := frames + 1;
    }

    /**
     * The rasterizer's inner-loop body: pixel (x, y)'s bitmap bit and attribute byte
     * are read from video memory and turned into a palette colour; `y0` is the
     * scanline's bitmap offset, computed once per line.
     */
    method DecodePixel(y: int, y0: int, x: int) returns (c: bv32)
      requires memory.Length == MEMORY_SIZE && OnScreen(y, x) && y0 == LineOffset(y)
      ensures c == PixelColour(memory[..], flashState, y, x)
    {
      var bit := memory[BITMAP_BASE + y0 + x / 8] & Bits.Mask(7 - x % 8);
      var attr := memory[ATTR_BASE + (y / 8) * 32 + x / 8];
      assert (bit != 0) == PixelOn(memory[..], y, x);
      assert DecodeAttribute(attr) == PixelAttribute(memory[..], y, x);
      var col := CellColour(attr, bit != 0, flashState);
      c := PALETTE[col as int];
    }

    /** One scanline of the rasterizer: row y of the frame buffer is drawn and the rows above it keep their colours. */
    method RenderLine(fb: array<bv32>, y: int)
      requires memory.Length == MEMORY_SIZE && fb.Length == SCREEN_PIXELS && 0 <= y < SCREEN_H
      modifies fb
      ensures fb[..y * SCREEN_W] == old(fb[..y * SCREEN_W])
      ensures forall x :: 0 <= x < SCREEN_W ==> fb[y * SCREEN_W + x] == PixelColour(memory[..], flashState, y, x)
    {
      var y0 := LineOffset(y);
      for x := 0 to SCREEN_W
        invariant fb[..y * SCREEN_W] == old(fb[..y * SCREEN_W])
        invariant forall x' :: 0 <= x' < x ==> fb[y * SCREEN_W + x'] == PixelColour(memory[..], flashState, y, x')
      {
        var c := DecodePixel(y, y0, x);
        fb[y * SCREEN_W + x] := c;
      }
    }

    /** The rasterizer: every pixel of the frame buffer gets its colour. */
    method RenderFrame(fb: array<bv32>)
      requires Valid() && fb.Length == SCREEN_PIXELS
      modifies fb
      ensures fb[..] == Screen(memory[..], flashState)
    {
      for y := 0 to SCREEN_H
        invariant fb[..y * SCREEN_W] == Screen(memory[..], flashState)[..y * SCREEN_W]
      {
        RenderLine(fb, y);
        ScreenRowsGrow(fb[..], memory[..], flashState, y);
      }
      assert fb[..] == fb[..SCREEN_H * SCREEN_W];
    }

    /**
     * One iteration of the main loop, without the CPU's frame of execution: tick the
     * flash timer, drain the host events into the key matrix (a quit request ends the
     * loop after this iteration), and draw the frame.
     */
    method RunFrame(events: seq<HostEvent>, fb: array<bv32>) returns (running: bool)
      requires Valid() && fb.Length == SCREEN_PIXELS
      modifies this`flashCounter, this`flashState, this`frames, keyMatrix, fb
      ensures Valid() && frames == old(frames) + 1
      ensures keyMatrix[..] == ApplyEvents(old(keyMatrix[..]), events)
      ensures running <==> Quit !in events
      ensures fb[..] == Screen(memory[..], flashState)
    {
      FlashTick();
      running := true;
      for i := 0 to |events|
        modifies keyMatrix
        invariant keyMatrix[..] == ApplyEvents(old(keyMatrix[..]), events[..i])
        invariant running <==> Quit !in events[..i]
      {
        match events[i] {
          case Quit => running := false;
          case KeyDown(sc) => HandleSdlKey(sc, true);
          case KeyUp(sc) => HandleSdlKey(sc, false);
          case OtherEvent =>
        }
        assert events[..i + 1][..i] == events[..i];
      }
      assert events[..|events|] == events;
      RenderFrame(fb);
    }
  }

  /**
   * The colour arithmetic of main.c's rasterizer for one pixel: split the attribute
   * byte, exchange ink and paper in a flashing cell's inverted phase, pick ink or
   * paper by the bitmap bit and add 8 for bright, giving the palette index.
   */
  method CellColour(attr: bv8, bit: bool, flashState: bool) returns (col: bv8)
    ensures col == ColourIndex(DecodeAttribute(attr), bit, flashState)
  {
    var br, fl := attr & 0x40 != 0, attr & 0x80 != 0;
    var ink, pap := attr & 0x07, (attr >> 3) & 0x07;
    if fl && flashState {
      ink, pap := pap, ink;
    }
    col := (if bit then ink else pap) + (if br then 8 else 0);
  }
}
