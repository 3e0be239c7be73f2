/** `SingleLoopClipEnvelope`: the envelope of a clip played once, either because its cycle
    count is 1 or because its cycle duration is indefinite. */
module SingleLoopClipEnvelopes {
  import opened JavaLang
  import opened ClipEnvelopes

  /** What a configuration setter hands back: the envelope itself, or a replacement of the
      variant the factory picks for the animation. */
  datatype Reconfiguration = KeepThis | Replace(variant: Variant)

  /** `Utils.clamp(min, value, max)`. */
  function Clamp(min: int, value: int, max: int): (r: int)
    ensures min <= max ==> min <= r <= max
    ensures min <= value <= max ==> r == value
    ensures value < min ==> r == min
    ensures min <= max < value ==> r == max
  {
    if value < min then min else if value > max then max else value
  }

  /** Whether a play head at `ticks` is at the end of a cycle of `cycleTicks` ticks, travelling
      in the direction of `rate`. */
  predicate ReachedEnd(rate: real, ticks: int, cycleTicks: int) {
    if rate > 0.0 then ticks == cycleTicks else ticks == 0
  }

  /** Clamping a candidate play head lands on the end of the cycle exactly when the candidate
      reaches or overshoots that end in the direction of travel. */
  lemma ClampedPlayHeadReachesEnd(rate: real, candidate: int, cycleTicks: int)
    requires rate != 0.0 && 0 < cycleTicks
    ensures ReachedEnd(rate, Clamp(0, candidate, cycleTicks), cycleTicks)
        <==> (if rate > 0.0 then candidate >= cycleTicks else candidate <= 0)
  {
  }

  /** Moving the play head from `ticks` to `newTicks` and the delta by the same amount, in `long`
      arithmetic, keeps the `long` difference of the two; without overflow, the exact one. */
  lemma ShiftKeepsOffset(ticks: int, deltaTicks: int, newTicks: int)
    ensures WrapLong(newTicks - WrapLong(deltaTicks + (newTicks - ticks))) == WrapLong(ticks - deltaTicks)
    ensures IsLong(deltaTicks + (newTicks - ticks)) ==>
      newTicks - WrapLong(deltaTicks + (newTicks - ticks)) == ticks - deltaTicks
  {
    var sum := deltaTicks + (newTicks - ticks);
    var k := (sum - LONG_MIN) / LONG_MODULUS;
    WrapLongSubtractsMultiple(sum);
    assert newTicks - WrapLong(sum) == (ticks - deltaTicks) + k * LONG_MODULUS;
    WrapLongPeriodic(ticks - deltaTicks, k);
  }

  class SingleLoopClipEnvelope {
    /** The state inherited from `ClipEnvelope`. */
    const envelope: ClipEnvelope
    var cycleCount: int

    ghost predicate Valid()
      reads this, envelope
    {
      envelope.Valid() && IsInt(cycleCount)
    }

    /** The protected constructor: the base state, and the cycle count of a non-null animation. */
    constructor (animation: Option<AnimationConfig>)
      requires animation.Some? ==> ValidConfig(animation.value)
      ensures Valid() && fresh(envelope) && envelope.PlayHeadInCycle()
      ensures animation.Some? ==>
        && cycleCount == animation.value.cycleCount
        && envelope.State() == EnvelopeState(animation.value.rate, animation.value.cycleDuration.ticks, 0, 0, 0, false, false, [])
      ensures animation.None? ==>
        cycleCount == 0 && envelope.State() == EnvelopeState(1.0, 0, 0, 0, 0, false, false, [])
    {
      envelope := new ClipEnvelope(animation);
      cycleCount := if animation.Some? then animation.value.cycleCount else 0;
    }

    /** `setAutoReverse`: a single cycle has nothing to reverse into, so the flag is ignored. */
    method SetAutoReverse(autoReverse: bool)
      ensures unchanged(this, envelope)
    {
    }

    /** `setCycleDuration`: with a cycle count other than 1 and a finite duration this variant no
        longer applies and the factory's choice for `animation` replaces it; otherwise only the
        cycle length changes. `animation` is the animation as it is at the call. */
    method SetCycleDuration(cycleDuration: Duration, animation: AnimationConfig) returns (r: Reconfiguration)
      requires Valid() && 0 <= cycleDuration.ticks <= LONG_MAX
      modifies envelope`cycleTicks
      ensures Valid() && cycleCount == old(cycleCount)
      ensures r.Replace? <==> cycleCount != 1 && !cycleDuration.indefinite
      ensures r.Replace? ==> r.variant == Create(animation) && envelope.State() == old(envelope.State())
      ensures r.KeepThis? ==> envelope.State() == old(envelope.State()).(cycleTicks := cycleDuration.ticks)
      ensures animation.cycleCount == cycleCount && animation.cycleDuration == cycleDuration ==>
        (r.KeepThis? <==> Create(animation) == SingleLoop)
    {
      if cycleCount != 1 && !cycleDuration.indefinite {
        return Replace(Create(animation));
      }
      envelope.UpdateCycleTicks(cycleDuration);
      r := KeepThis;
    }

    /** `setCycleCount`: a count other than 1 with a finite cycle makes this variant inapplicable
        and the factory's choice for `animation` replaces it; otherwise the count is stored. A
        finite cycle is one whose tick count is not `INDEFINITE`. */
    method SetCycleCount(count: int, animation: AnimationConfig) returns (r: Reconfiguration)
      requires Valid() && IsInt(count)
      modifies this`cycleCount
      ensures Valid() && envelope.State() == old(envelope.State())
      ensures r.Replace? <==> count != 1 && envelope.cycleTicks != INDEFINITE
      ensures r.Replace? ==> r.variant == Create(animation) && cycleCount == old(cycleCount)
      ensures r.KeepThis? ==> cycleCount == count
      ensures animation.cycleCount == count && (animation.cycleDuration.indefinite <==> envelope.cycleTicks == INDEFINITE) ==>
        (r.KeepThis? <==> Create(animation) == SingleLoop)
    {
      if count != 1 && envelope.cycleTicks != INDEFINITE {
        return Replace(Create(animation));
      }
      cycleCount := count;
      r := KeepThis;
    }

    /** `getCycleNum`: a single loop is always in its first cycle. */
    function GetCycleNum(): (r: nat)
      ensures r == 0
    {
      0
    }

    /** `calculateCurrentRunningRate`: the raw rate, which is what the base class documents for
        cycle 0 whether or not auto-reverse is on. */
    function CalculateCurrentRunningRate(): (r: real)
      reads envelope
      ensures r == DocumentedRunningRate(envelope.rate, false, GetCycleNum())
      ensures r == DocumentedRunningRate(envelope.rate, true, GetCycleNum())
    {
      envelope.rate
    }

    /** `wasSynched`: the base condition, and a cycle count other than 0. */
    function WasSynched(): (r: bool)
      reads this, envelope
      ensures r <==> envelope.cycleTicks != 0 && cycleCount != 0
    {
      envelope.WasSynched() && cycleCount != 0
    }

    /** `hasReachedEnd`: the play head is at the end of the cycle when playing forwards, at its
        start when playing backwards. */
    function HasReachedEnd(): (r: bool)
      reads this, envelope
      requires Valid()
      ensures envelope.rate > 0.0 ==> (r <==> envelope.ticks == envelope.cycleTicks)
      ensures envelope.rate < 0.0 ==> (r <==> envelope.ticks == 0)
    {
      ReachedEnd(envelope.rate, envelope.ticks, envelope.cycleTicks)
    }

    /** `calculateNewTicks`: the candidate play head `deltaTicks + newDest`, computed in `long`
        arithmetic and clamped into the cycle. */
    function CalculateNewTicks(newDest: int): (r: int)
      reads this, envelope
      requires Valid() && IsLong(newDest)
      ensures 0 <= r <= envelope.cycleTicks
      ensures IsLong(envelope.deltaTicks + newDest) ==> r == Clamp(0, envelope.deltaTicks + newDest, envelope.cycleTicks)
    {
      Clamp(0, WrapLong(envelope.deltaTicks + newDest), envelope.cycleTicks)
    }

    /** `doPlayTo`: hands the play head and the cycle length to the animation. */
    method DoPlayTo(currentRate: real, overallDelta: int, reachedEnd: bool)
      modifies envelope`events
      ensures envelope.State() == old(envelope.State()).(events := old(envelope.events) + [PlayTo(envelope.ticks, envelope.cycleTicks)])
    {
      envelope.events := envelope.events + [PlayTo(envelope.ticks, envelope.cycleTicks)];
    }

    /** `jumpTo`: moves the play head to `newTicks`, clamped into the cycle, and moves the delta
        by the same amount. A jump that does not move the play head, or any jump while the cycle
        is empty, does nothing; a jump that moves it tells the animation and aborts the pulse in
        progress. */
    method JumpTo(newTicks: int)
      requires Valid() && IsLong(newTicks)
      modifies envelope`ticks, envelope`deltaTicks, envelope`events, envelope`inTimePulse, envelope`aborted
      ensures Valid()
      ensures old(envelope.cycleTicks) == 0 ==> envelope.State() == old(envelope.State())
      ensures old(envelope.cycleTicks) != 0 ==>
        envelope.ticks == Clamp(0, newTicks, envelope.cycleTicks) && envelope.PlayHeadInCycle()
      ensures envelope.ticks == old(envelope.ticks) ==> envelope.State() == old(envelope.State())
      ensures envelope.ticks != old(envelope.ticks) ==>
        envelope.State() == old(envelope.State()).(
          ticks := envelope.ticks,
          deltaTicks := WrapLong(old(envelope.deltaTicks) + (envelope.ticks - old(envelope.ticks))),
          events := old(envelope.events) + [AccessorEvent.JumpTo(envelope.ticks, envelope.cycleTicks, false)],
          inTimePulse := false,
          aborted := old(envelope.aborted || envelope.inTimePulse))
      ensures WrapLong(envelope.ticks - envelope.deltaTicks) == old(WrapLong(envelope.ticks - envelope.deltaTicks))
      ensures IsLong(old(envelope.deltaTicks) + (envelope.ticks - old(envelope.ticks))) ==>
        envelope.ticks - envelope.deltaTicks == old(envelope.ticks - envelope.deltaTicks)
    {
      if envelope.cycleTicks == 0 {
        return;
      }
      var oldTicks := envelope.ticks;
      envelope.ticks := Clamp(0, newTicks, envelope.cycleTicks);
      var delta := envelope.ticks - oldTicks;
      if delta == 0 {
        return;
      }
      ghost var d := envelope.deltaTicks;
      envelope.deltaTicks := WrapLong(envelope.deltaTicks + delta);
      ShiftKeepsOffset(oldTicks, d, envelope.ticks);
      envelope.events := envelope.events + [AccessorEvent.JumpTo(envelope.ticks, envelope.cycleTicks, false)];
      envelope.AbortCurrentPulse();
    }
  }
}
