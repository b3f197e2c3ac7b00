/**
 * What the ULA's I/O port answers and latches. Only even port addresses reach
 * the device; an odd address reads as 0xFF ("no device") and ignores writes.
 */
module Ports {
  import opened Bits
  import opened Keyboard

  /** The port's low address byte selects the device exactly when bit 0 is clear. */
  predicate IsUlaPort(portLo: bv8)
  {
    portLo & 1 == 0
  }

  /**
   * The accumulator of `port_in`'s loop after rows 0..n-1: starting from 0xFF, each
   * row whose bit is set in `sel` is ANDed in.
   */
  function SelectedAnd(rows: seq<bv8>, sel: bv8, n: nat): bv8
    requires n <= |rows| && n <= 8
  {
    if n == 0 then 0xFF
    else SelectedAnd(rows, sel, n - 1) & (if BitSet(sel, n - 1) then rows[n - 1] else 0xFF)
  }

  /** Wired-AND: a bit of the accumulator is 1 exactly when it is 1 in every selected row. */
  lemma {:induction false} SelectedAndBit(rows: seq<bv8>, sel: bv8, n: nat, k: nat)
    requires n <= |rows| && n <= 8 && k < 8
    ensures BitSet(SelectedAnd(rows, sel, n), k) <==>
            forall r :: 0 <= r < n && BitSet(sel, r) ==> BitSet(rows[r], k)
  {
    if n > 0 {
      SelectedAndBit(rows, sel, n - 1, k);
      var m := if BitSet(sel, n - 1) then rows[n - 1] else 0xFF;
      BitSetAnd(SelectedAnd(rows, sel, n - 1), m, k);
      assert BitSet(m, k) <==> (BitSet(sel, n - 1) ==> BitSet(rows[n - 1], k));
    }
  }

  /**
   * `port_in` with the keyboard: `b` is the CPU's B register (the high address byte),
   * whose clear bits select half-rows; the top three bits always read as 1.
   */
  function KeyboardPortIn(rows: seq<bv8>, portLo: bv8, b: bv8): (r: bv8)
    requires |rows| == ROWS
    ensures r & 0xE0 == 0xE0
    ensures !IsUlaPort(portLo) ==> r == 0xFF
  {
    if !IsUlaPort(portLo) then 0xFF
    else SelectedAnd(rows, !b, ROWS) | 0xE0
  }

  /**
   * A key reads as pressed (bit clear) exactly when it is pressed in at least one
   * of the half-rows that B selects.
   */
  lemma KeyVisible(rows: seq<bv8>, portLo: bv8, b: bv8, k: nat)
    requires |rows| == ROWS && IsUlaPort(portLo) && k < KEYS_PER_ROW
    ensures !BitSet(KeyboardPortIn(rows, portLo, b), k) <==>
            exists r :: 0 <= r < ROWS && !BitSet(b, r) && !BitSet(rows[r], k)
  {
    SelectedAndBit(rows, !b, ROWS, k);
    forall r | 0 <= r < ROWS
      ensures BitSet(!b, r) == !BitSet(b, r)
    {
      BitSetNot(b, r);
    }
    var acc := SelectedAnd(rows, !b, ROWS);
    assert (acc | 0xE0) & Mask(k) == acc & Mask(k);
  }

  /** With no half-row selected (B = 0xFF) nothing is pressed, whatever the matrix holds. */
  lemma NoRowSelected(rows: seq<bv8>, portLo: bv8)
    requires |rows| == ROWS
    ensures KeyboardPortIn(rows, portLo, 0xFF) == 0xFF
  {
    assert forall n :: 0 <= n <= ROWS ==> SelectedAnd(rows, 0x00, n) == 0xFF by {
      forall n | 0 <= n <= ROWS
        ensures SelectedAnd(rows, 0x00, n) == 0xFF
      {
        SelectedAndAllOnes(rows, 0x00, n);
      }
    }
  }

  /** The accumulator never loses a bit that every selected row has. */
  lemma {:induction false} SelectedAndAllOnes(rows: seq<bv8>, sel: bv8, n: nat)
    requires n <= |rows| && n <= 8
    requires forall r :: 0 <= r < n && BitSet(sel, r) ==> rows[r] == 0xFF
    ensures SelectedAnd(rows, sel, n) == 0xFF
  {
    if n > 0 {
      SelectedAndAllOnes(rows, sel, n - 1);
    }
  }

  /** With every key released, every port reads 0xFF, for every value of B. */
  lemma ReleasedReadsAllOnes(portLo: bv8, b: bv8)
    ensures KeyboardPortIn(AllReleased, portLo, b) == 0xFF
  {
    if IsUlaPort(portLo) {
      var acc := SelectedAnd(AllReleased, !b, ROWS);
      forall k | 0 <= k < KEYS_PER_ROW
        ensures BitSet(acc, k)
      {
        SelectedAndBit(AllReleased, !b, ROWS, k);
      }
      assert BitSet(acc, 0) && BitSet(acc, 1) && BitSet(acc, 2) && BitSet(acc, 3) && BitSet(acc, 4);
    }
  }

  /** The border colour latched by old_main.c's `port_out`: bits 1-3 of the value written. */
  function BorderColour(val: bv8): (c: bv8)
    ensures c < 8
    ensures forall k :: 0 <= k < 3 ==> BitSet(c, k) == BitSet(val, k + 1)
  {
    (val >> 1) & 0x07
  }

  /** The speaker drive bit of a value written to the port (bit 4). */
  predicate SpeakerBit(val: bv8)
  {
    val & 0x10 != 0
  }
}
