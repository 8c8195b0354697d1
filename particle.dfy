// The timing rules of one particle (Particle.py): its age splits into cycles
// of a fixed length; a particle with a finite cycle count expires once its
// cycle number passes that count; otherwise an optional custom update runs and
// may veto the default move.
module ParticleCycle {
  import opened PyInt
  import opened Wrappers

  /** Default settings of a new particle. */
  const DEFAULT_SPEED := 10.0
  const DEFAULT_CYCLE_COUNT := 1
  const DEFAULT_CYCLE_LENGTH_MS := 1000

  /**
   * What a custom update returned, as far as Python's `== False` can tell.
   * Every numeric zero (0, 0.0, -0.0) compares equal to False and is
   * represented as ReturnedInt(0); a non-zero float is ReturnedOther.
   */
  datatype HookResult = ReturnedBool(b: bool) | ReturnedInt(i: int) | ReturnedNone | ReturnedOther

  /** Python `r == False`: holds for False itself and for the number 0. */
  predicate EqualsFalse(r: HookResult) {
    r == ReturnedBool(false) || r == ReturnedInt(0)
  }

  /** A custom update, called with (normalised cycle time, cycle time, cycle number). */
  type CustomUpdate = (real, int, int) -> HookResult

  /** What one `update` does: remove the particle, stop after the custom update, or also move it. */
  datatype Tick = Expire | Stop | Advance

  /** The cycle the particle is in: `elapsed // cycleLength`. */
  function CycleNumber(elapsed: int, cycleLength: int): int
    requires cycleLength != 0
  {
    FloorDiv(elapsed, cycleLength)
  }

  /** Time since the current cycle began: `elapsed % cycleLength`. */
  function CycleTime(elapsed: int, cycleLength: int): int
    requires cycleLength != 0
  {
    FloorMod(elapsed, cycleLength)
  }

  /** Cycle time as a fraction of the cycle length. */
  function Normalised(elapsed: int, cycleLength: int): (r: real)
    requires cycleLength != 0
    ensures cycleLength > 0 ==> 0.0 <= r < 1.0
  {
    CycleTime(elapsed, cycleLength) as real / cycleLength as real
  }

  /** The expiry rule: a finite cycle count (non-zero) that the cycle number has passed. */
  predicate Expired(cycleCount: int, cycleLength: int, elapsed: int)
    requires cycleLength != 0
  {
    cycleCount != 0 && CycleNumber(elapsed, cycleLength) > cycleCount
  }

  /**
   * The decision `update` takes at age `elapsed`: expiry comes first and
   * skips everything else; otherwise the custom update, if any, is asked and
   * a result equal to False stops there; in all other cases the particle moves.
   */
  function Decide(cycleCount: int, cycleLength: int, elapsed: int, hook: Option<CustomUpdate>): (t: Tick)
    requires cycleLength != 0
    ensures t == Expire <==> Expired(cycleCount, cycleLength, elapsed)
    ensures hook.None? ==> t != Stop
    ensures t == Stop ==>
              EqualsFalse(hook.value(Normalised(elapsed, cycleLength), CycleTime(elapsed, cycleLength),
                                     CycleNumber(elapsed, cycleLength)))
  {
    if Expired(cycleCount, cycleLength, elapsed) then Expire
    else if hook.Some? &&
            EqualsFalse(hook.value(Normalised(elapsed, cycleLength), CycleTime(elapsed, cycleLength),
                                   CycleNumber(elapsed, cycleLength)))
    then Stop
    else Advance
  }

  /**
   * A particle with N > 0 cycles of positive length lives through cycle N
   * itself: it expires exactly when elapsed >= (N + 1) * cycleLength.
   */
  lemma ExpiresAfterLastCycle(cycleCount: int, cycleLength: int, elapsed: int)
    requires cycleCount > 0 && cycleLength > 0
    ensures Expired(cycleCount, cycleLength, elapsed) <==> elapsed >= (cycleCount + 1) * cycleLength
  {
    var q := CycleNumber(elapsed, cycleLength);
    assert q * cycleLength <= elapsed < q * cycleLength + cycleLength;
    if q > cycleCount {
      MulMonotone(cycleCount + 1, q, cycleLength);
    } else {
      MulMonotone(q + 1, cycleCount + 1, cycleLength);
      assert (q + 1) * cycleLength == q * cycleLength + cycleLength;
    }
  }

  /** Two cycles of one second: alive at 2.5 s, gone at 3 s and after. */
  lemma TwoSecondCycleExample()
    ensures !Expired(2, 1000, 2500)
    ensures Expired(2, 1000, 3000) && Expired(2, 1000, 3001)
  {
    ExpiresAfterLastCycle(2, 1000, 2500);
    ExpiresAfterLastCycle(2, 1000, 3000);
    ExpiresAfterLastCycle(2, 1000, 3001);
  }

  /** Cycle count 0 means endless: the expiry rule never fires. */
  lemma EndlessNeverExpires(cycleLength: int, elapsed: int)
    requires cycleLength != 0
    ensures Decide(0, cycleLength, elapsed, None) == Advance
  {
  }

  /** Only a result equal to False vetoes the default move; True, None or anything else lets it run. */
  lemma CustomUpdateProtocol(cycleCount: int, cycleLength: int, elapsed: int, hook: CustomUpdate)
    requires cycleLength != 0 && !Expired(cycleCount, cycleLength, elapsed)
    ensures var r := hook(Normalised(elapsed, cycleLength), CycleTime(elapsed, cycleLength),
                          CycleNumber(elapsed, cycleLength));
            Decide(cycleCount, cycleLength, elapsed, Some(hook)) == (if EqualsFalse(r) then Stop else Advance)
  {
  }
}
