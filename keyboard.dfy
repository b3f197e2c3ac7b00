/**
 * The 8 x 5 keyboard matrix of main.c: one byte per half-row, active low
 * (a 0 bit is a pressed key, a 1 bit a released one), and the fixed table that
 * turns host (SDL) scancodes into matrix positions.
 */
module Keyboard {
  import opened Wrappers
  import opened Bits

  const ROWS: nat := 8
  /** Keys per half-row: only bits 0-4 of a row byte carry keys. */
  const KEYS_PER_ROW: nat := 5
  /** A row with none of its five keys pressed. */
  const ROW_RELEASED: bv8 := 0x1F

  /** The matrix after `init_keyboard`. */
  const AllReleased: seq<bv8> := [ROW_RELEASED, ROW_RELEASED, ROW_RELEASED, ROW_RELEASED,
                                  ROW_RELEASED, ROW_RELEASED, ROW_RELEASED, ROW_RELEASED]

  /** Every row byte stays within 0x00..0x1F: the three high bits never get set. */
  predicate RowsInRange(rows: seq<bv8>)
  {
    |rows| == ROWS && forall r :: 0 <= r < ROWS ==> rows[r] <= ROW_RELEASED
  }

  /** The SDL scancodes `handle_sdl_key` names; `KeyOther` stands for every other scancode. */
  datatype Scancode =
    | KeyRShift | KeyLCtrl | KeyRCtrl | KeySpace | KeyM | KeyN | KeyB
    | KeyReturn | KeyL | KeyK | KeyJ | KeyH
    | KeyP | KeyO | KeyI | KeyU | KeyY
    | Key0 | Key9 | Key8 | Key7 | Key6
    | Key1 | Key2 | Key3 | Key4 | Key5
    | KeyQ | KeyW | KeyE | KeyR | KeyT
    | KeyA | KeyS | KeyD | KeyF | KeyG
    | KeyLShift | KeyZ | KeyX | KeyC | KeyV
    | KeyOther

  /** A key's place in the matrix: the row byte and the bit within it. */
  datatype KeyPos = KeyPos(row: nat, bit: nat)

  /** The table in `handle_sdl_key`; `None` for a scancode it ignores. */
  function KeyPosition(sc: Scancode): (p: Option<KeyPos>)
    ensures p.Some? ==> p.value.row < ROWS && p.value.bit < KEYS_PER_ROW
    ensures p.None? <==> sc == KeyOther
  {
    match sc
    case KeyRShift | KeyLCtrl | KeyRCtrl => Some(KeyPos(7, 1))
    case KeySpace => Some(KeyPos(7, 0))
    case KeyM => Some(KeyPos(7, 2))
    case KeyN => Some(KeyPos(7, 3))
    case KeyB => Some(KeyPos(7, 4))
    case KeyReturn => Some(KeyPos(6, 0))
    case KeyL => Some(KeyPos(6, 1))
    case KeyK => Some(KeyPos(6, 2))
    case KeyJ => Some(KeyPos(6, 3))
    case KeyH => Some(KeyPos(6, 4))
    case KeyP => Some(KeyPos(5, 0))
    case KeyO => Some(KeyPos(5, 1))
    case KeyI => Some(KeyPos(5, 2))
    case KeyU => Some(KeyPos(5, 3))
    case KeyY => Some(KeyPos(5, 4))
    case Key0 => Some(KeyPos(4, 0))
    case Key9 => Some(KeyPos(4, 1))
    case Key8 => Some(KeyPos(4, 2))
    case Key7 => Some(KeyPos(4, 3))
    case Key6 => Some(KeyPos(4, 4))
    case Key1 => Some(KeyPos(3, 0))
    case Key2 => Some(KeyPos(3, 1))
    case Key3 => Some(KeyPos(3, 2))
    case Key4 => Some(KeyPos(3, 3))
    case Key5 => Some(KeyPos(3, 4))
    case KeyQ => Some(KeyPos(2, 0))
    case KeyW => Some(KeyPos(2, 1))
    case KeyE => Some(KeyPos(2, 2))
    case KeyR => Some(KeyPos(2, 3))
    case KeyT => Some(KeyPos(2, 4))
    case KeyA => Some(KeyPos(1, 0))
    case KeyS => Some(KeyPos(1, 1))
    case KeyD => Some(KeyPos(1, 2))
    case KeyF => Some(KeyPos(1, 3))
    case KeyG => Some(KeyPos(1, 4))
    case KeyLShift => Some(KeyPos(0, 0))
    case KeyZ => Some(KeyPos(0, 1))
    case KeyX => Some(KeyPos(0, 2))
    case KeyC => Some(KeyPos(0, 3))
    case KeyV => Some(KeyPos(0, 4))
    case KeyOther => None
  }

  /**
   * The reverse reading of the table: the host key that reaches each of the 40
   * matrix positions, so every physical key of the matrix can be pressed.
   */
  function KeyAt(row: nat, bit: nat): (sc: Scancode)
    requires row < ROWS && bit < KEYS_PER_ROW
    ensures KeyPosition(sc) == Some(KeyPos(row, bit))
  {
    match row
    case 0 => [KeyLShift, KeyZ, KeyX, KeyC, KeyV][bit]
    case 1 => [KeyA, KeyS, KeyD, KeyF, KeyG][bit]
    case 2 => [KeyQ, KeyW, KeyE, KeyR, KeyT][bit]
    case 3 => [Key1, Key2, Key3, Key4, Key5][bit]
    case 4 => [Key0, Key9, Key8, Key7, Key6][bit]
    case 5 => [KeyP, KeyO, KeyI, KeyU, KeyY][bit]
    case 6 => [KeyReturn, KeyL, KeyK, KeyJ, KeyH][bit]
    case _ => [KeySpace, KeyRShift, KeyM, KeyN, KeyB][bit]
  }

  /** Apart from the two Ctrl keys, which alias right Shift, each position has one host key. */
  lemma KeyPositionDetermines(sc: Scancode)
    requires KeyPosition(sc).Some?
    ensures sc == KeyAt(KeyPosition(sc).value.row, KeyPosition(sc).value.bit)
            || ((sc == KeyLCtrl || sc == KeyRCtrl) && KeyPosition(sc) == Some(KeyPos(7, 1)) && KeyAt(7, 1) == KeyRShift)
  {
    match sc {
      case KeyRShift | KeyLCtrl | KeyRCtrl | KeySpace | KeyM | KeyN | KeyB =>
      case KeyReturn | KeyL | KeyK | KeyJ | KeyH =>
      case KeyP | KeyO | KeyI | KeyU | KeyY =>
      case Key0 | Key9 | Key8 | Key7 | Key6 =>
      case Key1 | Key2 | Key3 | Key4 | Key5 =>
      case KeyQ | KeyW | KeyE | KeyR | KeyT =>
      case KeyA | KeyS | KeyD | KeyF | KeyG =>
      case KeyLShift | KeyZ | KeyX | KeyC | KeyV =>
    }
  }

  /** Two host keys that reach the same matrix position are the same key or are Shift/Ctrl aliases. */
  lemma KeyPositionInjective(a: Scancode, b: Scancode)
    requires KeyPosition(a).Some? && KeyPosition(a) == KeyPosition(b)
    ensures a == b || (a in {KeyRShift, KeyLCtrl, KeyRCtrl} && b in {KeyRShift, KeyLCtrl, KeyRCtrl})
  {
    KeyPositionDetermines(a);
    KeyPositionDetermines(b);
  }

  /** `update_key` on one row byte: pressing clears bit `bit`, releasing sets it; the other seven bits stay. */
  function UpdateRow(v: bv8, bit: nat, pressed: bool): (r: bv8)
    requires bit < 8
    ensures r & Mask(bit) == if pressed then 0 else Mask(bit)
    ensures r & !Mask(bit) == v & !Mask(bit)
  {
    if pressed then v & !Mask(bit) else v | Mask(bit)
  }

  /** Pressing a released key and releasing it again restores the row exactly. */
  lemma PressReleaseRoundTrip(v: bv8, bit: nat)
    requires bit < 8 && BitSet(v, bit)
    ensures UpdateRow(UpdateRow(v, bit, true), bit, false) == v
  {
  }

  /** Releasing a pressed key and pressing it again restores the row exactly. */
  lemma ReleasePressRoundTrip(v: bv8, bit: nat)
    requires bit < 8 && !BitSet(v, bit)
    ensures UpdateRow(UpdateRow(v, bit, false), bit, true) == v
  {
  }

  /** `handle_sdl_key` on the whole matrix. */
  function ApplyKey(rows: seq<bv8>, sc: Scancode, pressed: bool): (r: seq<bv8>)
    requires |rows| == ROWS
    ensures |r| == ROWS
    ensures KeyPosition(sc).None? ==> r == rows
    ensures KeyPosition(sc).Some? ==>
      var p := KeyPosition(sc).value;
      (forall i :: 0 <= i < ROWS && i != p.row ==> r[i] == rows[i]) &&
      r[p.row] & Mask(p.bit) == (if pressed then 0 else Mask(p.bit)) &&
      r[p.row] & !Mask(p.bit) == rows[p.row] & !Mask(p.bit)
    ensures RowsInRange(rows) ==> RowsInRange(r)
  {
    match KeyPosition(sc)
    case None => rows
    case Some(p) => rows[p.row := UpdateRow(rows[p.row], p.bit, pressed)]
  }

  /** The host events the main loop reacts to. */
  datatype HostEvent = Quit | KeyDown(sc: Scancode) | KeyUp(sc: Scancode) | OtherEvent

  /** One event's effect on the matrix: key-down presses, key-up releases, others do nothing. */
  function ApplyEvent(rows: seq<bv8>, e: HostEvent): (r: seq<bv8>)
    requires |rows| == ROWS
    ensures |r| == ROWS
  {
    match e
    case KeyDown(sc) => ApplyKey(rows, sc, true)
    case KeyUp(sc) => ApplyKey(rows, sc, false)
    case _ => rows
  }

  /** The matrix after draining a queue of host events in order. */
  function ApplyEvents(rows: seq<bv8>, events: seq<HostEvent>): (r: seq<bv8>)
    requires |rows| == ROWS
    ensures |r| == ROWS
    decreases |events|
  {
    if events == [] then rows
    else ApplyEvent(ApplyEvents(rows, events[..|events| - 1]), events[|events| - 1])
  }

  /** However many events arrive, no row byte ever leaves 0x00..0x1F. */
  lemma {:induction false} ApplyEventsInRange(rows: seq<bv8>, events: seq<HostEvent>)
    requires RowsInRange(rows)
    ensures RowsInRange(ApplyEvents(rows, events))
    decreases |events|
  {
    if events != [] {
      ApplyEventsInRange(rows, events[..|events| - 1]);
    }
  }

  /** A key that goes down and comes up again, with nothing in between, leaves a released matrix as it was. */
  lemma KeyTapRestores(rows: seq<bv8>, sc: Scancode)
    requires |rows| == ROWS
    requires KeyPosition(sc).Some? ==> BitSet(rows[KeyPosition(sc).value.row], KeyPosition(sc).value.bit)
    ensures ApplyEvents(rows, [KeyDown(sc), KeyUp(sc)]) == rows
  {
    var down := [KeyDown(sc)];
    assert [KeyDown(sc), KeyUp(sc)][..1] == down && down[..0] == [];
    assert ApplyEvents(rows, down[..0]) == rows;
    var pressed := ApplyEvents(rows, down);
    assert pressed == ApplyKey(rows, sc, true);
    assert ApplyEvents(rows, [KeyDown(sc), KeyUp(sc)]) == ApplyKey(pressed, sc, false);
    match KeyPosition(sc)
    case None =>
    case Some(p) =>
      PressReleaseRoundTrip(rows[p.row], p.bit);
  }
}
