/**
 * `FaultState`: the fault effects installed on one channel. Each of the
 * four effects (delay, fragment, drop, corrupt) lives in its own slot and
 * carries a scope: a DURATION scope is active until an expiry instant, a
 * NEXT scope while its counter of remaining uses is positive. The clock
 * is an explicit `nowMs` argument.
 */
module FaultStates {
  import opened Wrappers
  import opened JavaText
  import opened ScenarioSteps

  /** A DURATION scope: active strictly before `expiresAtMs`. */
  datatype DurationPolicy = DurationPolicy(expiresAtMs: int)

  /** A NEXT scope: a counter of remaining uses, shared by everyone holding the effect. */
  class NextPolicy {
    var remaining: int

    constructor(remaining: int)
      ensures this.remaining == remaining
    {
      this.remaining := remaining;
    }

    predicate Active()
      reads this
    {
      remaining > 0
    }

    /**
     * `tryConsumeOne`: a use is taken exactly when the scope was active;
     * an exhausted counter is left as it is, so it never goes below zero
     * once it has reached it.
     */
    method TryConsumeOne() returns (consumed: bool)
      modifies this
      ensures consumed == old(Active())
      ensures consumed ==> remaining == old(remaining) - 1
      ensures !consumed ==> remaining == old(remaining)
      ensures old(remaining) >= 0 ==> remaining >= 0
    {
      var v := remaining;
      if v <= 0 {
        return false;
      }
      remaining := v - 1;
      return true;
    }
  }

  /**
   * The scope of an installed effect. `applyFault` fills exactly the
   * policy its mode needs, so the Java triple (mode, duration, next) is
   * a union here.
   */
  datatype Scope = ByDuration(duration: DurationPolicy) | ByNext(next: NextPolicy)
  {
    function Mode(): ScopeMode {
      if ByDuration? then DURATION else NEXT
    }
  }

  datatype Delay = Delay(delayMs: int, jitterMs: int, scope: Scope)
  datatype Fragment = Fragment(minParts: int, maxParts: int, scope: Scope)
  /** `rate` stays the text of the configured probability. */
  datatype Drop = Drop(rate: string, scope: Scope)
  datatype Corrupt = Corrupt(rate: string, protectFraming: bool, scope: Scope)

  /** The counter a scope may change, if any. */
  function Counter(s: Option<Scope>): set<NextPolicy> {
    if s.Some? && s.value.ByNext? then {s.value.next} else {}
  }

  /** `isActive`: an absent effect is inactive; otherwise its mode decides. */
  predicate IsActive(s: Option<Scope>, nowMs: int)
    reads Counter(s)
  {
    match s
    case None => false
    case Some(ByDuration(d)) => nowMs < d.expiresAtMs
    case Some(ByNext(n)) => n.remaining > 0
  }

  /**
   * The scope `applyFault` builds for a step at `nowMs`: the expiry is the
   * 64-bit sum of the clock and the duration, the counter starts at
   * `nextCount`.
   */
  predicate ScopeFor(s: Scope, step: Fault, nowMs: int)
    reads if s.ByNext? then {s.next} else {}
  {
    match step.scopeMode
    case DURATION => step.durationMs.Some? && s == ByDuration(DurationPolicy(Wrap64(nowMs + step.durationMs.value)))
    case NEXT => step.nextCount.Some? && s.ByNext? && s.next.remaining == step.nextCount.value
  }

  /**
   * The steps on which `applyFault` unboxes a null: the scope value its
   * mode needs, or a value the effect's constructor takes as a primitive.
   */
  predicate Unboxable(step: Fault) {
    && (step.scopeMode == DURATION ==> step.durationMs.Some?)
    && (step.scopeMode == NEXT ==> step.nextCount.Some?)
    && (step.faultType == DELAY ==> step.delayMs.Some?)
    && (step.faultType == FRAGMENT ==> step.minParts.Some? && step.maxParts.Some?)
    && (step.faultType in {DROP, CORRUPT} ==> step.rate.Some?)
  }

  function JitterOrZero(jitterMs: Option<int>): (r: int)
    ensures jitterMs.None? ==> r == 0
    ensures jitterMs.Some? ==> r == jitterMs.value
  {
    if jitterMs.None? then 0 else jitterMs.value
  }

  function ProtectOrTrue(protectFraming: Option<bool>): (r: bool)
    ensures protectFraming.None? ==> r
    ensures protectFraming.Some? ==> r == protectFraming.value
  {
    if protectFraming.None? then true else protectFraming.value
  }

  /** `new DurationPolicy(...)` or `new NextPolicy(...)`, as `applyFault` does first. */
  method NewScope(step: Fault, nowMs: int) returns (r: Option<Scope>)
    ensures r.Some? <==> (step.scopeMode == DURATION ==> step.durationMs.Some?) && (step.scopeMode == NEXT ==> step.nextCount.Some?)
    ensures r.Some? ==> ScopeFor(r.value, step, nowMs)
    ensures r.Some? && r.value.ByNext? ==> fresh(r.value.next)
  {
    if step.scopeMode == DURATION {
      if step.durationMs.None? {
        return None;
      }
      return Some(ByDuration(DurationPolicy(Wrap64(nowMs + step.durationMs.value))));
    }
    if step.nextCount.None? {
      return None;
    }
    var next := new NextPolicy(step.nextCount.value);
    return Some(ByNext(next));
  }

  /** The four slots of a fault state, as values. */
  datatype SlotView = SlotView(delay: Option<Delay>, fragment: Option<Fragment>, drop: Option<Drop>, corrupt: Option<Corrupt>)

  function DelayCounter(d: Option<Delay>): set<NextPolicy> {
    if d.Some? then Counter(Some(d.value.scope)) else {}
  }

  function FragmentCounter(f: Option<Fragment>): set<NextPolicy> {
    if f.Some? then Counter(Some(f.value.scope)) else {}
  }

  function DropCounter(d: Option<Drop>): set<NextPolicy> {
    if d.Some? then Counter(Some(d.value.scope)) else {}
  }

  function CorruptCounter(c: Option<Corrupt>): set<NextPolicy> {
    if c.Some? then Counter(Some(c.value.scope)) else {}
  }

  /** The counters the slots of `v` hold. */
  function SlotCounters(v: SlotView): set<NextPolicy> {
    DelayCounter(v.delay) + FragmentCounter(v.fragment) + DropCounter(v.drop) + CorruptCounter(v.corrupt)
  }

  /** The delay slot as a DELAY fault `f` sets it at `nowMs`. */
  predicate DelaySetBy(d: Option<Delay>, f: Fault, nowMs: int)
    reads DelayCounter(d)
  {
    d.Some? && f.delayMs == Some(d.value.delayMs) && d.value.jitterMs == JitterOrZero(f.jitterMs)
    && ScopeFor(d.value.scope, f, nowMs)
  }

  /** The fragment slot as a FRAGMENT fault `f` sets it at `nowMs`. */
  predicate FragmentSetBy(g: Option<Fragment>, f: Fault, nowMs: int)
    reads FragmentCounter(g)
  {
    g.Some? && f.minParts == Some(g.value.minParts) && f.maxParts == Some(g.value.maxParts)
    && ScopeFor(g.value.scope, f, nowMs)
  }

  /** The drop slot as a DROP fault `f` sets it at `nowMs`. */
  predicate DropSetBy(d: Option<Drop>, f: Fault, nowMs: int)
    reads DropCounter(d)
  {
    d.Some? && f.rate == Some(d.value.rate) && ScopeFor(d.value.scope, f, nowMs)
  }

  /** The corrupt slot as a CORRUPT fault `f` sets it at `nowMs`. */
  predicate CorruptSetBy(c: Option<Corrupt>, f: Fault, nowMs: int)
    reads CorruptCounter(c)
  {
    c.Some? && f.rate == Some(c.value.rate) && c.value.protectFraming == ProtectOrTrue(f.protectFraming)
    && ScopeFor(c.value.scope, f, nowMs)
  }

  /**
   * `v` is what applying the fault `f` at `nowMs` makes of the slots `v0`:
   * DELAY, FRAGMENT, DROP and CORRUPT set their own slot and keep the
   * other three, CLEAR empties all four, DISCONNECT changes none.
   */
  predicate Installs(v0: SlotView, f: Fault, nowMs: int, v: SlotView)
    reads SlotCounters(v)
  {
    match f.faultType
    case DELAY => DelaySetBy(v.delay, f, nowMs) && v.(delay := v0.delay) == v0
    case FRAGMENT => FragmentSetBy(v.fragment, f, nowMs) && v.(fragment := v0.fragment) == v0
    case DROP => DropSetBy(v.drop, f, nowMs) && v.(drop := v0.drop) == v0
    case CORRUPT => CorruptSetBy(v.corrupt, f, nowMs) && v.(corrupt := v0.corrupt) == v0
    case CLEAR => v == SlotView(None, None, None, None)
    case DISCONNECT => v == v0
  }

  class FaultState {
    var delay: Option<Delay>
    var fragment: Option<Fragment>
    var drop: Option<Drop>
    var corrupt: Option<Corrupt>

    constructor()
      ensures delay.None? && fragment.None? && drop.None? && corrupt.None?
      ensures Valid()
    {
      delay := None;
      fragment := None;
      drop := None;
      corrupt := None;
    }

    function View(): SlotView
      reads this
    {
      SlotView(delay, fragment, drop, corrupt)
    }

    function DelayScope(): Option<Scope>
      reads this
    {
      if delay.Some? then Some(delay.value.scope) else None
    }

    function FragmentScope(): Option<Scope>
      reads this
    {
      if fragment.Some? then Some(fragment.value.scope) else None
    }

    function DropScope(): Option<Scope>
      reads this
    {
      if drop.Some? then Some(drop.value.scope) else None
    }

    function CorruptScope(): Option<Scope>
      reads this
    {
      if corrupt.Some? then Some(corrupt.value.scope) else None
    }

    /** Every counter an installed effect holds. */
    function Counters(): set<NextPolicy>
      reads this
    {
      Counter(DelayScope()) + Counter(FragmentScope()) + Counter(DropScope()) + Counter(CorruptScope())
    }

    /** Different slots never share a NEXT counter: each effect gets a fresh one. */
    ghost predicate Valid()
      reads this
    {
      && Counter(DelayScope()) !! Counter(FragmentScope())
      && Counter(DelayScope()) !! Counter(DropScope())
      && Counter(DelayScope()) !! Counter(CorruptScope())
      && Counter(FragmentScope()) !! Counter(DropScope())
      && Counter(FragmentScope()) !! Counter(CorruptScope())
      && Counter(DropScope()) !! Counter(CorruptScope())
    }

    /** `clearAll`: no effect is installed afterwards. */
    method ClearAll()
      modifies this
      ensures delay.None? && fragment.None? && drop.None? && corrupt.None?
      ensures Valid()
    {
      delay := None;
      fragment := None;
      drop := None;
      corrupt := None;
    }

    /**
     * `applyFault(step)` at `nowMs`. A null the step would have to unbox
     * raises a NullPointerException before any slot is written. Otherwise
     * DELAY, FRAGMENT, DROP and CORRUPT each replace their own slot with a
     * fresh effect and leave the other three alone, CLEAR empties all four
     * and DISCONNECT changes nothing (the runner closes the channel).
     */
    method ApplyFault(step: Fault, nowMs: int) returns (thrown: Option<Failure>)
      requires Valid()
      modifies this
      ensures Valid()
      ensures thrown.Some? <==> !Unboxable(step)
      ensures thrown.Some? ==> thrown.value == NullPointer
      ensures thrown.Some? || step.faultType == DISCONNECT ==>
        delay == old(delay) && fragment == old(fragment) && drop == old(drop) && corrupt == old(corrupt)
      ensures thrown.None? && step.faultType == CLEAR ==>
        delay.None? && fragment.None? && drop.None? && corrupt.None?
      ensures thrown.None? && step.faultType == DELAY ==>
        && delay.Some? && delay.value.delayMs == step.delayMs.value
        && delay.value.jitterMs == JitterOrZero(step.jitterMs)
        && ScopeFor(delay.value.scope, step, nowMs)
        && (step.scopeMode == NEXT ==> fresh(delay.value.scope.next))
        && fragment == old(fragment) && drop == old(drop) && corrupt == old(corrupt)
      ensures thrown.None? && step.faultType == FRAGMENT ==>
        && fragment.Some? && fragment.value.minParts == step.minParts.value
        && fragment.value.maxParts == step.maxParts.value
        && ScopeFor(fragment.value.scope, step, nowMs)
        && (step.scopeMode == NEXT ==> fresh(fragment.value.scope.next))
        && delay == old(delay) && drop == old(drop) && corrupt == old(corrupt)
      ensures thrown.None? && step.faultType == DROP ==>
        && drop.Some? && drop.value.rate == step.rate.value
        && ScopeFor(drop.value.scope, step, nowMs)
        && (step.scopeMode == NEXT ==> fresh(drop.value.scope.next))
        && delay == old(delay) && fragment == old(fragment) && corrupt == old(corrupt)
      ensures thrown.None? && step.faultType == CORRUPT ==>
        && corrupt.Some? && corrupt.value.rate == step.rate.value
        && corrupt.value.protectFraming == ProtectOrTrue(step.protectFraming)
        && ScopeFor(corrupt.value.scope, step, nowMs)
        && (step.scopeMode == NEXT ==> fresh(corrupt.value.scope.next))
        && delay == old(delay) && fragment == old(fragment) && drop == old(drop)
      ensures thrown.None? ==> Installs(old(View()), step, nowMs, View())
    {
      var scope := NewScope(step, nowMs);
      if scope.None? {
        return Some(NullPointer);
      }
      var s := scope.value;
      match step.faultType {
        case DELAY =>
          if step.delayMs.None? {
            return Some(NullPointer);
          }
          delay := Some(Delay(step.delayMs.value, JitterOrZero(step.jitterMs), s));
        case FRAGMENT =>
          if step.minParts.None? || step.maxParts.None? {
            return Some(NullPointer);
          }
          fragment := Some(Fragment(step.minParts.value, step.maxParts.value, s));
        case DROP =>
          if step.rate.None? {
            return Some(NullPointer);
          }
          drop := Some(Drop(step.rate.value, s));
        case CORRUPT =>
          if step.rate.None? {
            return Some(NullPointer);
          }
          corrupt := Some(Corrupt(step.rate.value, ProtectOrTrue(step.protectFraming), s));
        case CLEAR =>
          ClearAll();
        case DISCONNECT =>
      }
      return None;
    }
  }

  // ---------------------------------------------------------------------
  // Properties

  /**
   * A DURATION effect installed at `nowMs` for `d` milliseconds (no long
   * overflow) is active at `t` exactly when `t < nowMs + d`; in particular
   * a positive duration is active at the instant it is installed.
   */
  lemma DurationWindow(step: Fault, s: Scope, nowMs: int, t: int)
    requires step.scopeMode == DURATION && ScopeFor(s, step, nowMs)
    requires LONG_MIN <= nowMs + step.durationMs.value <= LONG_MAX
    ensures IsActive(Some(s), t) <==> t < nowMs + step.durationMs.value
    ensures step.durationMs.value > 0 ==> IsActive(Some(s), nowMs)
  {
  }

  /** A NEXT effect installed with count `n` is active exactly when `n > 0`. */
  lemma NextFreshActive(step: Fault, s: Scope, nowMs: int, t: int)
    requires step.scopeMode == NEXT && ScopeFor(s, step, nowMs)
    ensures IsActive(Some(s), t) <==> step.nextCount.value > 0
  {
  }
}
