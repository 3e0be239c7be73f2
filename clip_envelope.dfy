/** The loop part of an animation clip (class `ClipEnvelope`): the state shared by every
    envelope variant, the factory that picks a variant, and the operations the base class
    implements itself. */
module ClipEnvelopes {
  import opened JavaLang

  /** `ClipEnvelope.INDEFINITE`: the tick count of an indefinite cycle duration. */
  const INDEFINITE: int := LONG_MAX

  /** `Animation.INDEFINITE`: the cycle count of an animation that repeats forever. */
  const INDEFINITE_CYCLES: int := -1

  /** A cycle duration as the envelope sees it: the tick count `TickCalculation.fromDuration`
      gives for it, and whether it is `Duration.INDEFINITE`. */
  datatype Duration = Duration(ticks: int, indefinite: bool)

  /** The configuration an envelope reads from its `Animation`. */
  datatype AnimationConfig = AnimationConfig(cycleCount: int, cycleDuration: Duration, rate: real)

  /** What the animation may hand to an envelope: an `int` cycle count, a tick count
      between 0 and `Long.MAX_VALUE`, and a rate that is not 0. */
  predicate ValidConfig(animation: AnimationConfig) {
    && IsInt(animation.cycleCount)
    && 0 <= animation.cycleDuration.ticks <= LONG_MAX
    && animation.rate != 0.0
  }

  /** The three concrete envelope classes. */
  datatype Variant = SingleLoop | InfiniteLoop | FiniteLoop

  /** The variant that can play `animation`. A single loop serves one cycle or a cycle of
      indefinite length; an infinite loop serves an indefinite count of finite cycles; a finite
      loop serves every other count. */
  predicate Applies(variant: Variant, animation: AnimationConfig) {
    var single := animation.cycleCount == 1 || animation.cycleDuration.indefinite;
    match variant
    case SingleLoop => single
    case InfiniteLoop => !single && animation.cycleCount == INDEFINITE_CYCLES
    case FiniteLoop => !single && animation.cycleCount != INDEFINITE_CYCLES
  }

  /** `ClipEnvelope.create`: picks the one variant that applies to the animation. */
  function Create(animation: AnimationConfig): (v: Variant)
    ensures Applies(v, animation)
    ensures forall w :: Applies(w, animation) ==> w == v
  {
    if animation.cycleCount == 1 || animation.cycleDuration.indefinite then SingleLoop
    else if animation.cycleCount == INDEFINITE_CYCLES then InfiniteLoop
    else FiniteLoop
  }

  /** The current rate the documentation of `calculateCurrentRunningRate` promises: `+rate`
      without auto-reverse; with auto-reverse, `+rate` on even cycles and `-rate` on odd ones. */
  function DocumentedRunningRate(rate: real, autoReverse: bool, cycleNum: nat): (r: real)
    ensures r == rate || r == -rate
  {
    if autoReverse && cycleNum % 2 == 1 then -rate else rate
  }

  /** A call the envelope makes into its animation through `AnimationAccessor`. */
  datatype AccessorEvent =
    | PlayTo(ticks: int, cycleTicks: int)
    | JumpTo(ticks: int, cycleTicks: int, forceJump: bool)
    | SetCurrentRate(currentRate: real)

  /** A snapshot of every field of an envelope, used to say what an operation changes. */
  datatype EnvelopeState = EnvelopeState(
    rate: real,
    cycleTicks: int,
    currentCycle: int,
    deltaTicks: int,
    ticks: int,
    inTimePulse: bool,
    aborted: bool,
    events: seq<AccessorEvent>)

  /** The fields of `ClipEnvelope` and the methods it implements. The variant-specific members
      live in the variant classes. */
  class ClipEnvelope {
    /** The rate of the animation; never 0. */
    var rate: real
    /** The number of ticks in one cycle. */
    var cycleTicks: int
    /** The number of the current cycle. */
    var currentCycle: int
    var deltaTicks: int
    /** The position of the play head. */
    var ticks: int
    /** Set while a pulse is being applied, so that a nested call can abort it. */
    var inTimePulse: bool
    var aborted: bool
    /** The calls made into the animation, oldest first. */
    ghost var events: seq<AccessorEvent>

    /** The invariants the field comments state, except the upper bound of the play head,
        which `PlayHeadInCycle` states on its own. */
    ghost predicate Valid()
      reads this
    {
      && rate != 0.0
      && 0 <= cycleTicks <= LONG_MAX
      && 0 <= currentCycle <= INT_MAX
      && IsLong(deltaTicks)
      && 0 <= ticks <= LONG_MAX
    }

    /** `ticks <= cycleTicks`: the play head lies inside the cycle. */
    ghost predicate PlayHeadInCycle()
      reads this
    {
      ticks <= cycleTicks
    }

    ghost function State(): EnvelopeState
      reads this
    {
      EnvelopeState(rate, cycleTicks, currentCycle, deltaTicks, ticks, inTimePulse, aborted, events)
    }

    /** The protected constructor: reads the cycle duration and the rate of a non-null animation. */
    constructor (animation: Option<AnimationConfig>)
      requires animation.Some? ==> ValidConfig(animation.value)
      ensures Valid() && PlayHeadInCycle()
      ensures animation.Some? ==>
        State() == EnvelopeState(animation.value.rate, animation.value.cycleDuration.ticks, 0, 0, 0, false, false, [])
      ensures animation.None? ==> State() == EnvelopeState(1.0, 0, 0, 0, 0, false, false, [])
    {
      rate := 1.0;
      cycleTicks := 0;
      currentCycle := 0;
      deltaTicks := 0;
      ticks := 0;
      inTimePulse := false;
      aborted := false;
      events := [];
      if animation.Some? {
        cycleTicks := animation.value.cycleDuration.ticks;
        rate := animation.value.rate;
      }
    }

    /** `wasSynched`: the envelope has been given a cycle of non-zero length. */
    function WasSynched(): (r: bool)
      reads this
      ensures r <==> cycleTicks != 0
    {
      cycleTicks != 0
    }

    /** `setCurrentRate`: passes the rate on to the animation. */
    method SetCurrentRate(currentRate: real)
      modifies this`events
      ensures State() == old(State()).(events := old(events) + [AccessorEvent.SetCurrentRate(currentRate)])
    {
      events := events + [AccessorEvent.SetCurrentRate(currentRate)];
    }

    /** `updateCycleTicks`: takes the tick count of a new cycle duration. The play head is not
        moved, so it stays inside the cycle only if the cycle does not shrink below it. */
    method UpdateCycleTicks(cycleDuration: Duration)
      requires Valid() && 0 <= cycleDuration.ticks <= LONG_MAX
      modifies this`cycleTicks
      ensures Valid()
      ensures State() == old(State()).(cycleTicks := cycleDuration.ticks)
      ensures PlayHeadInCycle() <==> ticks <= cycleDuration.ticks
    {
      cycleTicks := cycleDuration.ticks;
    }

    /** `start`: makes later deltas relative to the current play head. */
    method Start()
      requires Valid()
      modifies this`deltaTicks
      ensures Valid()
      ensures State() == old(State()).(deltaTicks := old(ticks))
      ensures PlayHeadInCycle() == old(PlayHeadInCycle())
    {
      deltaTicks := ticks;
    }

    /** `stop`: resets the play head and the delta to 0. */
    method Stop()
      requires Valid()
      modifies this`ticks, this`deltaTicks
      ensures Valid() && PlayHeadInCycle()
      ensures State() == old(State()).(ticks := 0, deltaTicks := 0)
    {
      ticks := 0;
      deltaTicks := 0;
    }

    /** `abortCurrentPulse`: inside a pulse, marks it aborted and leaves it; outside a pulse,
        does nothing. */
    method AbortCurrentPulse()
      modifies this`inTimePulse, this`aborted
      ensures !inTimePulse
      ensures old(inTimePulse) ==> State() == old(State()).(inTimePulse := false, aborted := true)
      ensures !old(inTimePulse) ==> State() == old(State())
    {
      if inTimePulse {
        aborted := true;
        inTimePulse := false;
      }
    }
  }

  /** A stop followed by a start leaves both the play head and the delta at 0. */
  method StopThenStart(e: ClipEnvelope)
    requires e.Valid()
    modifies e
    ensures e.Valid() && e.PlayHeadInCycle()
    ensures e.State() == old(e.State()).(ticks := 0, deltaTicks := 0)
  {
    e.Stop();
    e.Start();
  }

  /** Aborting twice has the effect of aborting once. */
  method AbortTwice(e: ClipEnvelope)
    modifies e
    ensures !e.inTimePulse
    ensures e.State() == old(e.State()).(inTimePulse := false, aborted := old(e.aborted || e.inTimePulse))
  {
    e.AbortCurrentPulse();
    e.AbortCurrentPulse();
  }
}
