/**
 * The frame counter behind the attribute flash of main.c: once per main-loop
 * iteration the counter is pre-incremented, and on reaching 16 it wraps to 0
 * and the flash phase inverts.
 */
module Flash {
  /** Frames between two flash-phase changes. */
  const FLASH_PERIOD: nat := 16

  /** `flash_counter` and `flash_state`. */
  datatype FlashTimer = FlashTimer(counter: int, phase: bool)

  /** The values both variables start the program with. */
  const FLASH_START := FlashTimer(0, false)

  /** One main-loop iteration's update of the counter and the phase. */
  function FlashStep(t: FlashTimer): (u: FlashTimer)
    ensures 0 <= t.counter < FLASH_PERIOD ==> 0 <= u.counter < FLASH_PERIOD
    ensures u.phase != t.phase <==> t.counter + 1 >= FLASH_PERIOD
  {
    if t.counter + 1 >= FLASH_PERIOD then FlashTimer(0, !t.phase) else FlashTimer(t.counter + 1, t.phase)
  }

  /** The timer after `frames` iterations of the main loop. */
  function FlashAfter(frames: nat): (t: FlashTimer)
    ensures 0 <= t.counter < FLASH_PERIOD
  {
    if frames == 0 then FLASH_START else FlashStep(FlashAfter(frames - 1))
  }

  /** The counter is the frame count modulo 16; the phase is on in every odd block of 16 frames. */
  lemma {:induction false} FlashAfterClosedForm(frames: nat)
    ensures FlashAfter(frames) == FlashTimer(frames % FLASH_PERIOD, (frames / FLASH_PERIOD) % 2 == 1)
  {
    if frames > 0 {
      FlashAfterClosedForm(frames - 1);
      SuccessorDivMod(frames - 1);
    }
  }

  /** How `n % 16` and `n / 16` move when n grows by one. */
  lemma SuccessorDivMod(n: nat)
    ensures n % FLASH_PERIOD + 1 < FLASH_PERIOD ==>
      (n + 1) % FLASH_PERIOD == n % FLASH_PERIOD + 1 && (n + 1) / FLASH_PERIOD == n / FLASH_PERIOD
    ensures n % FLASH_PERIOD + 1 == FLASH_PERIOD ==>
      (n + 1) % FLASH_PERIOD == 0 && (n + 1) / FLASH_PERIOD == n / FLASH_PERIOD + 1
  {
    var q, r := n / FLASH_PERIOD, n % FLASH_PERIOD;
    assert n == FLASH_PERIOD * q + r;
    if r + 1 < FLASH_PERIOD {
      assert n + 1 == FLASH_PERIOD * q + (r + 1);
    } else {
      assert n + 1 == FLASH_PERIOD * (q + 1);
    }
  }

  /** The phase changes exactly on every 16th iteration, and the counter stays within 0..15. */
  lemma FlashTogglesEvery16th(frames: nat)
    ensures 0 <= FlashAfter(frames).counter < FLASH_PERIOD
    ensures FlashAfter(frames + 1).phase != FlashAfter(frames).phase <==> (frames + 1) % FLASH_PERIOD == 0
  {
    FlashAfterClosedForm(frames);
    FlashAfterClosedForm(frames + 1);
  }
}
