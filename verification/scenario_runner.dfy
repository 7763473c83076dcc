/**
 * `ScenarioRunnerHandler`: runs a compiled scenario on one connection.
 * `advance` walks the steps synchronously (SEND, LABEL, GOTO, LOOP and the
 * non-DISCONNECT FAULTs) and stops at the first asynchronous one (WAIT,
 * EMIT, SLEEP, a DISCONNECT fault) or at the end of the plan.
 *
 * The Netty context becomes explicit state. `closed` records that
 * `ctx.close()` was called. `pending` holds the tasks scheduled on the
 * event loop; `RunTask` runs any one of them, so every property proved
 * here holds whatever order the executor picks. `sent` lists the payloads
 * handed to `OutboundFrameSender.send` and `faultsApplied` the steps given
 * to `FaultState.applyFault`. Each emit gets an id, and its
 * `AtomicInteger` lives in `emits` under that id. The channel's EQP
 * attribute, its fault state, whether it is active, the clock and the
 * random draws are arguments.
 */
module ScenarioRunner {
  import opened Wrappers
  import opened JavaText
  import opened Config
  import opened EqpRuntimes
  import opened ScenarioSteps
  import opened FaultStates
  import opened ScenarioCompletion
  import opened TemplateResolver
  import FrameTokenParser
  import OutboundFrameSender
  import Handshake
  import ByteBufSearch

  /** The delay between an ACTIVE scenario's completion and its close. */
  const CLOSE_GRACE_MS := 100

  /** The wait timeout used when neither the step nor the EQP gives a positive one. */
  const DEFAULT_WAIT_TIMEOUT_SEC := 60

  /**
   * `resolveWaitTimeout`: the step's override when positive, else the
   * EQP's wait timeout when positive, else 60 seconds.
   */
  function WaitTimeoutSec(w: Step, eqp: EqpRuntime): (r: int)
    requires w.WaitCmd?
    ensures r > 0
    ensures w.timeoutOverrideSec.Some? && w.timeoutOverrideSec.value > 0 ==> r == w.timeoutOverrideSec.value
    ensures !(w.timeoutOverrideSec.Some? && w.timeoutOverrideSec.value > 0) && eqp.waitTimeoutSec > 0 ==>
      r == eqp.waitTimeoutSec
    ensures !(w.timeoutOverrideSec.Some? && w.timeoutOverrideSec.value > 0) && eqp.waitTimeoutSec <= 0 ==>
      r == DEFAULT_WAIT_TIMEOUT_SEC
  {
    if w.timeoutOverrideSec.Some? && w.timeoutOverrideSec.value > 0 then w.timeoutOverrideSec.value
    else if eqp.waitTimeoutSec > 0 then eqp.waitTimeoutSec
    else DEFAULT_WAIT_TIMEOUT_SEC
  }

  // ---------------------------------------------------------------------
  // The synchronous part of advance

  /** What the synchronous walk does on the way: a SEND's template, or a fault applied. */
  datatype Action = DoSend(template: string) | DoFault(fault: Fault)

  /**
   * Where the walk stops: the end of the plan, an asynchronous step, a
   * missing label (the connection is closed), an exception escaping
   * `advance`, or `Spun` when the fuel ran out (a GOTO cycle with no
   * asynchronous step spins forever on the event loop).
   */
  datatype Halt =
    | Completed
    | AtWait(wait: Step)
    | AtEmit(emit: Step)
    | AtSleep(sleepMs: int)
    | AtDisconnect(fault: Fault)
    | GotoMissing(target: string)
    | LoopMissing(gotoLabel: string)
    | Threw(error: Failure)
    | Spun

  /** The result of a walk: the final step index and loop counters, the actions in order, the stop. */
  datatype Run = Run(stepIndex: int, loops: map<string, int>, actions: seq<Action>, halt: Halt)

  function Then(done: seq<Action>, r: Run): Run {
    r.(actions := done + r.actions)
  }

  /** `loopIterationCount.getOrDefault(label, 0)`. */
  function LoopCount(loops: map<string, int>, l: string): int {
    if l in loops then loops[l] else 0
  }

  /** One turn of the loop: carry on at `next`, or stop there. */
  datatype Turn =
    | Go(next: int, loops: map<string, int>, acts: seq<Action>)
    | Stop(loops: map<string, int>, halt: Halt)

  /**
   * One pass of the loop of `advance` on step `i`: the SEND, LABEL,
   * GOTO, LOOP and non-DISCONNECT FAULT steps carry on, the others stop.
   * `hasFs` says whether the channel carries a fault state.
   */
  function TurnAt(plan: Plan, hasFs: bool, i: nat, loops: map<string, int>): Turn
    requires i < |plan.steps|
  {
    match plan.steps[i]
    case WaitCmd(_, _) => Stop(loops, AtWait(plan.steps[i]))
    case Send(t) => Go(i + 1, loops, [DoSend(t)])
    case Emit(_, _, _, _, _) => Stop(loops, AtEmit(plan.steps[i]))
    case Sleep(ms) => Stop(loops, AtSleep(ms))
    case Label(_) => Go(i + 1, loops, [])
    case Goto(l) =>
      if l in plan.labelIndex then Go(plan.labelIndex[l], loops, [])
      else Stop(loops, GotoMissing(l))
    case Loop(n, l) =>
      var c := LoopCount(loops, l);
      if c < n then
        if l in plan.labelIndex then Go(plan.labelIndex[l], loops[l := c + 1], [])
        else Stop(loops[l := c + 1], LoopMissing(l))
      else Go(i + 1, loops - {l}, [])
    case FaultStep(f) =>
      if f.faultType == DISCONNECT then Stop(loops, AtDisconnect(f))
      else if !hasFs then Go(i + 1, loops, [])
      else if !Unboxable(f) then Stop(loops, Threw(NullPointer))
      else Go(i + 1, loops, [DoFault(f)])
  }

  /**
   * The `while (true)` loop of `advance` from step `i`, with `fuel` turns
   * at most.
   */
  function Exec(plan: Plan, hasFs: bool, i: int, loops: map<string, int>, fuel: nat): Run
    decreases fuel
  {
    if fuel == 0 then Run(i, loops, [], Spun)
    else if i >= |plan.steps| then Run(i, loops, [], Completed)
    else if i < 0 then Run(i, loops, [], Threw(IndexOutOfBounds))
    else match TurnAt(plan, hasFs, i, loops)
      case Stop(ls, h) => Run(i, ls, [], h)
      case Go(j, ls, acts) => Then(acts, Exec(plan, hasFs, j, ls, fuel - 1))
  }

  /** Where a payload handed to the sender came from: a SEND step, or the emit with that id. */
  datatype Origin = ByStep | ByEmit(emitId: nat)

  datatype Sent = Sent(payload: string, origin: Origin)

  /** The payloads the SEND actions hand to the sender, resolved against `eqp`. */
  function Outbox(actions: seq<Action>, eqp: EqpRuntime): (r: seq<Sent>)
    ensures |r| <= |actions|
    ensures forall k :: 0 <= k < |r| ==> r[k].origin == ByStep
  {
    if actions == [] then []
    else
      var rest := Outbox(actions[1..], eqp);
      if actions[0].DoSend? then [Sent(Resolve(Some(actions[0].template), eqp).value, ByStep)] + rest else rest
  }

  /** The faults the FAULT actions apply, in order. */
  function FaultsOf(actions: seq<Action>): (r: seq<Fault>)
    ensures |r| <= |actions|
  {
    if actions == [] then []
    else
      var rest := FaultsOf(actions[1..]);
      if actions[0].DoFault? then [actions[0].fault] + rest else rest
  }

  lemma {:induction false} OutboxAppend(a: seq<Action>, b: seq<Action>, eqp: EqpRuntime)
    ensures Outbox(a + b, eqp) == Outbox(a, eqp) + Outbox(b, eqp)
    decreases |a|
  {
    if a != [] {
      assert (a + b)[1..] == a[1..] + b;
      OutboxAppend(a[1..], b, eqp);
    } else {
      assert a + b == b;
    }
  }

  lemma {:induction false} FaultsAppend(a: seq<Action>, b: seq<Action>)
    ensures FaultsOf(a + b) == FaultsOf(a) + FaultsOf(b)
    decreases |a|
  {
    if a != [] {
      assert (a + b)[1..] == a[1..] + b;
      FaultsAppend(a[1..], b);
    } else {
      assert a + b == b;
    }
  }

  // ---------------------------------------------------------------------
  // Properties of the walk

  /**
   * Where a walk that stopped with `h` stands: an asynchronous step is
   * left for later with the index pointing at it, a missing label leaves
   * the index on the GOTO or LOOP, and completion means the index has
   * passed the last step.
   */
  predicate HaltedOn(plan: Plan, idx: int, h: Halt) {
    && (h.Completed? ==> idx >= |plan.steps|)
    && (h.AtWait? ==> 0 <= idx < |plan.steps| && plan.steps[idx] == h.wait && h.wait.WaitCmd?)
    && (h.AtEmit? ==> 0 <= idx < |plan.steps| && plan.steps[idx] == h.emit && h.emit.Emit?)
    && (h.AtSleep? ==> 0 <= idx < |plan.steps| && plan.steps[idx] == Sleep(h.sleepMs))
    && (h.AtDisconnect? ==>
          0 <= idx < |plan.steps| && plan.steps[idx] == FaultStep(h.fault) && h.fault.faultType == DISCONNECT)
    && (h.GotoMissing? ==> 0 <= idx < |plan.steps| && plan.steps[idx] == Goto(h.target) && h.target !in plan.labelIndex)
    && (h.LoopMissing? ==>
          0 <= idx < |plan.steps| && plan.steps[idx].Loop? && plan.steps[idx].gotoLabel == h.gotoLabel
          && h.gotoLabel !in plan.labelIndex)
  }

  /** A turn that stops does so on its own step. */
  lemma TurnStopsOnStep(plan: Plan, hasFs: bool, i: nat, loops: map<string, int>)
    requires i < |plan.steps|
    ensures TurnAt(plan, hasFs, i, loops).Stop? ==> HaltedOn(plan, i, TurnAt(plan, hasFs, i, loops).halt)
  {
  }

  /** Whatever the walk does on the way, it stops on the step that stopped it. */
  lemma {:induction false} HaltsOnItsStep(plan: Plan, hasFs: bool, i: int, loops: map<string, int>, fuel: nat)
    ensures HaltedOn(plan, Exec(plan, hasFs, i, loops, fuel).stepIndex, Exec(plan, hasFs, i, loops, fuel).halt)
    decreases fuel
  {
    if fuel > 0 && 0 <= i < |plan.steps| {
      var t := TurnAt(plan, hasFs, i, loops);
      TurnStopsOnStep(plan, hasFs, i, loops);
      if t.Go? {
        HaltsOnItsStep(plan, hasFs, t.next, t.loops, fuel - 1);
      }
    }
  }

  /** Steps `i` to `j` are SEND and LABEL steps only. */
  predicate Straight(steps: seq<Step>, i: nat, j: nat)
    requires i <= j <= |steps|
  {
    forall k :: i <= k < j ==> steps[k].Send? || steps[k].Label?
  }

  /** The templates of the SEND steps among `steps`, in order. */
  function SendsIn(steps: seq<Step>): seq<Action> {
    if steps == [] then []
    else SendOf(steps[0]) + SendsIn(steps[1..])
  }

  /**
   * A run of SEND and LABEL steps from `i` to `j` is crossed in one go:
   * the walk sends each template in order and carries on at `j` with the
   * loop counters untouched.
   */
  lemma {:induction false} StraightRun(plan: Plan, hasFs: bool, i: nat, j: nat, loops: map<string, int>, fuel: nat, after: nat)
    requires i <= j <= |plan.steps| && Straight(plan.steps, i, j)
    requires fuel == after + (j - i)
    ensures Exec(plan, hasFs, i, loops, fuel) == Then(SendsIn(plan.steps[i..j]), Exec(plan, hasFs, j, loops, after))
    decreases j - i
  {
    if i < j {
      StraightRun(plan, hasFs, i + 1, j, loops, fuel - 1, after);
      StraightLink(plan, hasFs, i, j, loops, fuel, after);
    } else {
      assert SendsIn(plan.steps[i..j]) == [];
    }
  }

  /** One SEND or LABEL step in front of a straight run that is already crossed. */
  lemma StraightLink(plan: Plan, hasFs: bool, i: nat, j: nat, loops: map<string, int>, fuel: nat, after: nat)
    requires i < j <= |plan.steps| && (plan.steps[i].Send? || plan.steps[i].Label?)
    requires fuel == after + (j - i)
    requires Exec(plan, hasFs, i + 1, loops, fuel - 1) ==
      Then(SendsIn(plan.steps[i + 1..j]), Exec(plan, hasFs, j, loops, after))
    ensures Exec(plan, hasFs, i, loops, fuel) == Then(SendsIn(plan.steps[i..j]), Exec(plan, hasFs, j, loops, after))
  {
    StraightStep(plan, hasFs, i, loops, fuel);
    SendsInCons(plan.steps, i, j);
    ThenThen(SendOf(plan.steps[i]), SendsIn(plan.steps[i + 1..j]), Exec(plan, hasFs, j, loops, after));
  }

  lemma ThenThen(a: seq<Action>, b: seq<Action>, r: Run)
    ensures Then(a, Then(b, r)) == Then(a + b, r)
  {
    ByteBufSearch.ConcatAssoc(a, b, r.actions);
  }

  /** The action a SEND or LABEL step contributes. */
  function SendOf(s: Step): seq<Action> {
    if s.Send? then [DoSend(s.payloadTemplate)] else []
  }

  lemma StraightStep(plan: Plan, hasFs: bool, i: nat, loops: map<string, int>, fuel: nat)
    requires i < |plan.steps| && (plan.steps[i].Send? || plan.steps[i].Label?) && fuel > 0
    ensures Exec(plan, hasFs, i, loops, fuel) == Then(SendOf(plan.steps[i]), Exec(plan, hasFs, i + 1, loops, fuel - 1))
  {
    assert TurnAt(plan, hasFs, i, loops) == Go(i + 1, loops, SendOf(plan.steps[i]));
  }

  lemma SendsInCons(steps: seq<Step>, i: nat, j: nat)
    requires i < j <= |steps|
    ensures SendsIn(steps[i..j]) == SendOf(steps[i]) + SendsIn(steps[i + 1..j])
  {
    assert steps[i..j][1..] == steps[i + 1..j];
  }

  /** `n` copies of an action. */
  function Repeat(a: Action, n: nat): (r: seq<Action>)
    ensures |r| == n && forall k :: 0 <= k < n ==> r[k] == a
  {
    if n == 0 then [] else [a] + Repeat(a, n - 1)
  }

  /** The smallest loop: a label, one SEND, and a LOOP back to the label `count` times. */
  function LoopPlan(l: string, t: string, count: int): Plan {
    Plan("loop.md", [Label(l), Send(t), Loop(count, l)], map[l := 0])
  }

  /**
   * One pass through the loop body: from the label with the counter at
   * `c`, the walk sends the template once and reaches the LOOP step.
   */
  lemma LoopPass(l: string, t: string, count: int, hasFs: bool, loops: map<string, int>, fuel: nat)
    requires fuel >= 2
    ensures Exec(LoopPlan(l, t, count), hasFs, 0, loops, fuel)
         == Then([DoSend(t)], Exec(LoopPlan(l, t, count), hasFs, 2, loops, fuel - 2))
  {
    var p := LoopPlan(l, t, count);
    assert Exec(p, hasFs, 0, loops, fuel) == Exec(p, hasFs, 1, loops, fuel - 1);
  }

  /**
   * The loop counter is keyed by the GOTO label and the LOOP jumps back
   * `count` times before falling through: starting at the label with the
   * counter at `c <= count`, the body runs `count - c + 1` more times,
   * then the plan completes and the counter is gone, so the loop could be
   * entered afresh.
   */
  lemma {:induction false} LoopRunsBody(l: string, t: string, count: int, hasFs: bool, c: nat,
                                        loops: map<string, int>, fuel: nat)
    requires 0 < count && c <= count && LoopCount(loops, l) == c
    requires fuel >= 3 * (count - c + 1) + 1
    ensures Exec(LoopPlan(l, t, count), hasFs, 0, loops, fuel)
         == Run(3, loops - {l}, Repeat(DoSend(t), count - c + 1), Completed)
    decreases count - c
  {
    var p := LoopPlan(l, t, count);
    var rest := Exec(p, hasFs, 2, loops, fuel - 2);
    assert Exec(p, hasFs, 0, loops, fuel) == Then([DoSend(t)], rest) by {
      LoopPass(l, t, count, hasFs, loops, fuel);
    }
    if c < count {
      assert rest == Run(3, loops - {l}, Repeat(DoSend(t), count - c), Completed) by {
        LoopJumpsBack(l, t, count, hasFs, loops, fuel - 2);
        LoopRunsBody(l, t, count, hasFs, c + 1, loops[l := c + 1], fuel - 3);
        assert loops[l := c + 1] - {l} == loops - {l};
      }
      assert [DoSend(t)] + Repeat(DoSend(t), count - c) == Repeat(DoSend(t), count - c + 1);
    } else {
      assert rest == Run(3, loops - {l}, [], Completed) by {
        LoopFallsThrough(l, t, count, hasFs, loops, fuel - 2);
      }
      assert [DoSend(t)] + [] == Repeat(DoSend(t), 1);
    }
  }

  /** Below its count, the LOOP step raises the counter and jumps back to the label. */
  lemma LoopJumpsBack(l: string, t: string, count: int, hasFs: bool, loops: map<string, int>, fuel: nat)
    requires LoopCount(loops, l) < count && fuel >= 1
    ensures Exec(LoopPlan(l, t, count), hasFs, 2, loops, fuel)
         == Exec(LoopPlan(l, t, count), hasFs, 0, loops[l := LoopCount(loops, l) + 1], fuel - 1)
  {
  }

  /** At its count, the LOOP step drops the counter and the plan completes. */
  lemma LoopFallsThrough(l: string, t: string, count: int, hasFs: bool, loops: map<string, int>, fuel: nat)
    requires LoopCount(loops, l) >= count && fuel >= 2
    ensures Exec(LoopPlan(l, t, count), hasFs, 2, loops, fuel) == Run(3, loops - {l}, [], Completed)
  {
    var p := LoopPlan(l, t, count);
    assert Exec(p, hasFs, 2, loops, fuel) == Exec(p, hasFs, 3, loops - {l}, fuel - 1);
  }

  /** A label followed by a GOTO back to it. */
  function SpinPlan(l: string): Plan {
    Plan("spin.md", [Label(l), Goto(l)], map[l := 0])
  }

  /**
   * A GOTO cycle with no asynchronous step never leaves `advance`: however
   * much fuel the walk is given, it runs out without halting and without
   * doing anything.
   */
  lemma {:induction false} GotoCycleSpins(l: string, hasFs: bool, loops: map<string, int>, fuel: nat)
    ensures Exec(SpinPlan(l), hasFs, 0, loops, fuel).halt == Spun
    ensures Exec(SpinPlan(l), hasFs, 0, loops, fuel).actions == []
    decreases fuel
  {
    var p := SpinPlan(l);
    if fuel >= 2 {
      assert Exec(p, hasFs, 0, loops, fuel) == Exec(p, hasFs, 1, loops, fuel - 1);
      assert Exec(p, hasFs, 1, loops, fuel - 1) == Exec(p, hasFs, 0, loops, fuel - 2);
      GotoCycleSpins(l, hasFs, loops, fuel - 2);
    } else if fuel == 1 {
      assert Exec(p, hasFs, 0, loops, 1) == Exec(p, hasFs, 1, loops, 0);
    }
  }

  // ---------------------------------------------------------------------
  // The event loop and the emit counters

  /** Why the runner asked for the close (the channel's close-reason attribute). */
  datatype CloseReason = SCENARIO_COMPLETED

  /**
   * A task scheduled on the event loop. An emit task carries the id of
   * its emit and the EQP it captured when it was scheduled.
   */
  datatype Task =
    | StartTask
    | WaitTimeout(future: Handshake.TimeoutFuture)
    | SleepDone(delayMs: int)
    | EmitForeverTick(emitId: nat, eqp: EqpRuntime, emit: Step, delayMs: int)
    | EmitFiniteTick(emitId: nat, eqp: EqpRuntime, emit: Step, delayMs: int)
    | EmitWindowShot(emitId: nat, eqp: EqpRuntime, emit: Step, delayMs: int)
    | DisconnectTask(afterMs: int)
    | CloseTask(delayMs: int)

  /**
   * The `AtomicInteger` of a finite emit: the sends still to make
   * (`remaining`, INTERVAL) or the sends made so far (`doneCount`, WINDOW),
   * with the emit's total.
   */
  datatype EmitCounter = FiniteLeft(remaining: int, total: int) | WindowDone(done: int, total: int)

  /** The random draws one event may use: the jitter of a delay and the window offsets. */
  datatype Dice = Dice(jitter: int, offset: nat -> int)

  /** A task that holds a finite emit's counter. */
  predicate Counted(t: Task, id: nat) {
    (t.EmitFiniteTick? || t.EmitWindowShot?) && t.emitId == id
  }

  /** How many pending tasks hold the counter of emit `id`. */
  function CountPending(ts: seq<Task>, id: nat): nat {
    if ts == [] then 0
    else CountPending(ts[..|ts| - 1], id) + (if Counted(ts[|ts| - 1], id) then 1 else 0)
  }

  /** How many payloads emit `id` has handed to the sender. */
  function CountSent(ss: seq<Sent>, id: nat): nat {
    if ss == [] then 0
    else CountSent(ss[..|ss| - 1], id) + (if ss[|ss| - 1].origin == ByEmit(id) then 1 else 0)
  }

  /** How many completion closes are pending. */
  function CountCloses(ts: seq<Task>): nat {
    if ts == [] then 0
    else CountCloses(ts[..|ts| - 1]) + (if ts[|ts| - 1].CloseTask? then 1 else 0)
  }

  lemma {:induction false} CountPendingAppend(a: seq<Task>, b: seq<Task>, id: nat)
    ensures CountPending(a + b, id) == CountPending(a, id) + CountPending(b, id)
    decreases |b|
  {
    if b == [] {
      assert a + b == a;
    } else {
      assert (a + b)[..|a + b| - 1] == a + b[..|b| - 1];
      CountPendingAppend(a, b[..|b| - 1], id);
    }
  }

  lemma {:induction false} CountSentAppend(a: seq<Sent>, b: seq<Sent>, id: nat)
    ensures CountSent(a + b, id) == CountSent(a, id) + CountSent(b, id)
    decreases |b|
  {
    if b == [] {
      assert a + b == a;
    } else {
      assert (a + b)[..|a + b| - 1] == a + b[..|b| - 1];
      CountSentAppend(a, b[..|b| - 1], id);
    }
  }

  lemma {:induction false} CountClosesAppend(a: seq<Task>, b: seq<Task>)
    ensures CountCloses(a + b) == CountCloses(a) + CountCloses(b)
    decreases |b|
  {
    if b == [] {
      assert a + b == a;
    } else {
      assert (a + b)[..|a + b| - 1] == a + b[..|b| - 1];
      CountClosesAppend(a, b[..|b| - 1]);
    }
  }

  /** The SEND steps' payloads count for no emit. */
  lemma {:induction false} OutboxUncounted(actions: seq<Action>, eqp: EqpRuntime, id: nat)
    ensures CountSent(Outbox(actions, eqp), id) == 0
    decreases |actions|
  {
    var o := Outbox(actions, eqp);
    if o != [] {
      assert o[..|o| - 1] + [o[|o| - 1]] == o;
      CountSentAppend(o[..|o| - 1], [o[|o| - 1]], id);
      assert CountSent(o[..|o| - 1], id) == 0 by {
        ByStepUncounted(o[..|o| - 1], id);
      }
    }
  }

  lemma {:induction false} ByStepUncounted(ss: seq<Sent>, id: nat)
    requires forall k :: 0 <= k < |ss| ==> ss[k].origin == ByStep
    ensures CountSent(ss, id) == 0
    decreases |ss|
  {
    if ss != [] {
      ByStepUncounted(ss[..|ss| - 1], id);
    }
  }

  /**
   * What each finite emit's counter says, given the tasks of that emit
   * still pending and the payloads it has sent. INTERVAL: the remaining
   * count plus the sends is the total, and at most one tick is pending,
   * only while a send remains. WINDOW: the done count is the number of
   * sends, and the pending shots cannot push it past the total.
   */
  predicate Budget(c: EmitCounter, pend: nat, sends: nat) {
    match c
    case FiniteLeft(r, n) => r + sends == n && pend <= 1 && (pend == 1 ==> r >= 1)
    case WindowDone(d, n) => d == sends && d + pend <= n
  }

  /** The window shots of emit `id`: one per offset drawn in `[0, window]`. */
  function WindowShots(id: nat, eqp: EqpRuntime, e: Step, k: nat, offset: nat -> int): (r: seq<Task>)
    requires e.Emit? && 0 <= e.intervalOrWindowMs < LONG_MAX
    ensures |r| == k
    ensures forall j :: 0 <= j < k ==> r[j].EmitWindowShot? && r[j].emitId == id && r[j].eqp == eqp && r[j].emit == e
    ensures forall j :: 0 <= j < k ==> 0 <= r[j].delayMs <= e.intervalOrWindowMs
  {
    if k == 0 then []
    else WindowShots(id, eqp, e, k - 1, offset) + [WindowShot(id, eqp, e, k - 1, offset)]
  }

  /** The shot of the `j`-th offset: `nextLong(0, windowMs + 1)`. */
  function WindowShot(id: nat, eqp: EqpRuntime, e: Step, j: nat, offset: nat -> int): Task
    requires e.Emit? && 0 <= e.intervalOrWindowMs < LONG_MAX
  {
    EmitWindowShot(id, eqp, e, OutboundFrameSender.Draw(offset(j), 0, e.intervalOrWindowMs + 1))
  }

  lemma {:induction false} WindowShotsCount(id: nat, eqp: EqpRuntime, e: Step, k: nat, offset: nat -> int, x: nat)
    requires e.Emit? && 0 <= e.intervalOrWindowMs < LONG_MAX
    ensures CountPending(WindowShots(id, eqp, e, k, offset), x) == if x == id then k else 0
    ensures CountCloses(WindowShots(id, eqp, e, k, offset)) == 0
    decreases k
  {
    if k > 0 {
      assert WindowShots(id, eqp, e, k, offset)[..k - 1] == WindowShots(id, eqp, e, k - 1, offset);
      WindowShotsCount(id, eqp, e, k - 1, offset, x);
    }
  }

  /** The counters a snapshot of the runner leaves untouched for emit `id`. */
  predicate Untouched(id: nat, e0: map<nat, EmitCounter>, p0: seq<Task>, s0: seq<Sent>,
                      e1: map<nat, EmitCounter>, p1: seq<Task>, s1: seq<Sent>) {
    && (id in e0 ==> id in e1 && e1[id] == e0[id])
    && CountPending(p1, id) == CountPending(p0, id)
    && CountSent(s1, id) == CountSent(s0, id)
  }

  /** A pending task's emit is known: a finite emit's counter has the right kind. */
  predicate TaskOk(t: Task, emits: map<nat, EmitCounter>, nextEmitId: nat) {
    && (t.EmitForeverTick? ==> t.emitId < nextEmitId && t.emitId !in emits)
    && (t.EmitFiniteTick? ==> t.emitId in emits && emits[t.emitId].FiniteLeft? && t.emit.Emit?)
    && (t.EmitWindowShot? ==> t.emitId in emits && emits[t.emitId].WindowDone? && t.emit.Emit?)
    && (t.EmitForeverTick? ==> t.emit.Emit?)
  }

  /**
   * The runner's invariant, on the values of its fields: the plan's steps
   * are as their constructors build them, a waiting step is a WAIT, every
   * emit id in use has been handed out, every finite emit's counter
   * agrees with its pending tasks and its sends, and at most one
   * completion close is pending, and only once it has been scheduled.
   */
  ghost predicate Inv(steps: seq<Step>, waiting: Option<Step>, emits: map<nat, EmitCounter>, next: nat,
                      pending: seq<Task>, sent: seq<Sent>, closeScheduled: bool) {
    && (forall k :: 0 <= k < |steps| ==> ValidStep(steps[k]))
    && (waiting.Some? ==> waiting.value.WaitCmd?)
    && (forall id :: id in emits ==> id < next && Budget(emits[id], CountPending(pending, id), CountSent(sent, id)))
    && (forall k :: 0 <= k < |pending| ==> TaskOk(pending[k], emits, next))
    && (forall k :: 0 <= k < |sent| && sent[k].origin.ByEmit? ==> sent[k].origin.emitId < next)
    && CountCloses(pending) <= 1
    && (CountCloses(pending) == 1 ==> closeScheduled)
  }

  lemma PushTask(p: seq<Task>, t: Task, id: nat)
    ensures CountPending(p + [t], id) == CountPending(p, id) + (if Counted(t, id) then 1 else 0)
    ensures CountCloses(p + [t]) == CountCloses(p) + (if t.CloseTask? then 1 else 0)
  {
    assert (p + [t])[..|p|] == p;
  }

  lemma PushSent(ss: seq<Sent>, x: Sent, id: nat)
    ensures CountSent(ss + [x], id) == CountSent(ss, id) + (if x.origin == ByEmit(id) then 1 else 0)
  {
    assert (ss + [x])[..|ss|] == ss;
  }

  /** No pending task and no sent payload belongs to an id not handed out yet. */
  lemma {:induction false} FreshIdUnused(pending: seq<Task>, sent: seq<Sent>, emits: map<nat, EmitCounter>, next: nat, id: nat)
    requires forall k :: 0 <= k < |pending| ==> TaskOk(pending[k], emits, next)
    requires forall id :: id in emits ==> id < next
    requires forall k :: 0 <= k < |sent| && sent[k].origin.ByEmit? ==> sent[k].origin.emitId < next
    requires id >= next
    ensures CountPending(pending, id) == 0 && CountSent(sent, id) == 0
    decreases |pending| + |sent|
  {
    if pending != [] {
      FreshIdUnused(pending[..|pending| - 1], sent, emits, next, id);
    } else if sent != [] {
      FreshIdUnused(pending, sent[..|sent| - 1], emits, next, id);
    }
  }

  /** Scheduling a task that holds no emit counter and is no completion close keeps the invariant. */
  lemma PushQuiet(steps: seq<Step>, waiting: Option<Step>, emits: map<nat, EmitCounter>, next: nat,
                  pending: seq<Task>, sent: seq<Sent>, closeScheduled: bool, t: Task)
    requires Inv(steps, waiting, emits, next, pending, sent, closeScheduled)
    requires !t.EmitFiniteTick? && !t.EmitWindowShot? && !t.CloseTask? && TaskOk(t, emits, next)
    ensures Inv(steps, waiting, emits, next, pending + [t], sent, closeScheduled)
  {
    forall id | id in emits
      ensures CountPending(pending + [t], id) == CountPending(pending, id)
    {
      PushTask(pending, t, id);
    }
    PushTask(pending, t, 0);
  }

  /** Scheduling the completion close, the first time, keeps the invariant. */
  lemma PushClose(steps: seq<Step>, waiting: Option<Step>, emits: map<nat, EmitCounter>, next: nat,
                  pending: seq<Task>, sent: seq<Sent>, delayMs: int)
    requires Inv(steps, waiting, emits, next, pending, sent, false)
    ensures Inv(steps, waiting, emits, next, pending + [CloseTask(delayMs)], sent, true)
  {
    forall id | id in emits
      ensures CountPending(pending + [CloseTask(delayMs)], id) == CountPending(pending, id)
    {
      PushTask(pending, CloseTask(delayMs), id);
    }
    PushTask(pending, CloseTask(delayMs), 0);
  }

  /** Payloads of SEND steps count for no emit, so they keep the invariant. */
  lemma SendStepsKeep(steps: seq<Step>, waiting: Option<Step>, emits: map<nat, EmitCounter>, next: nat,
                      pending: seq<Task>, sent: seq<Sent>, closeScheduled: bool, actions: seq<Action>, eqp: EqpRuntime)
    requires Inv(steps, waiting, emits, next, pending, sent, closeScheduled)
    ensures Inv(steps, waiting, emits, next, pending, sent + Outbox(actions, eqp), closeScheduled)
  {
    forall id | id in emits
      ensures CountSent(sent + Outbox(actions, eqp), id) == CountSent(sent, id)
    {
      CountSentAppend(sent, Outbox(actions, eqp), id);
      OutboxUncounted(actions, eqp, id);
    }
  }

  /** Tasks of the emit `id`, which holds the counter `c` if it is a finite one. */
  predicate EmitTasks(added: seq<Task>, id: nat, c: Option<EmitCounter>) {
    forall j :: 0 <= j < |added| ==>
      && (added[j].EmitForeverTick? || added[j].EmitFiniteTick? || added[j].EmitWindowShot?)
      && added[j].emitId == id && added[j].emit.Emit?
      && (added[j].EmitForeverTick? ==> c.None?)
      && (added[j].EmitFiniteTick? ==> c.Some? && c.value.FiniteLeft?)
      && (added[j].EmitWindowShot? ==> c.Some? && c.value.WindowDone?)
  }

  lemma {:induction false} EmitTasksCount(added: seq<Task>, id: nat, c: Option<EmitCounter>, x: nat)
    requires EmitTasks(added, id, c)
    ensures x != id ==> CountPending(added, x) == 0
    ensures CountCloses(added) == 0
    decreases |added|
  {
    if added != [] {
      EmitTasksCount(added[..|added| - 1], id, c, x);
    }
  }

  /**
   * Handing out the next emit id, with its counter (if finite) and the
   * tasks scheduled for it, keeps the invariant when the counter agrees
   * with those tasks.
   */
  lemma NewEmitKeeps(steps: seq<Step>, waiting: Option<Step>, emits: map<nat, EmitCounter>, next: nat,
                     pending: seq<Task>, sent: seq<Sent>, closeScheduled: bool, c: Option<EmitCounter>, added: seq<Task>)
    requires Inv(steps, waiting, emits, next, pending, sent, closeScheduled)
    requires EmitTasks(added, next, c)
    requires c.Some? ==> Budget(c.value, CountPending(added, next), 0)
    ensures Inv(steps, waiting, if c.Some? then emits[next := c.value] else emits, next + 1, pending + added, sent, closeScheduled)
  {
    var emits' := if c.Some? then emits[next := c.value] else emits;
    FreshIdUnused(pending, sent, emits, next, next);
    forall id | id in emits'
      ensures id < next + 1 && Budget(emits'[id], CountPending(pending + added, id), CountSent(sent, id))
    {
      CountPendingAppend(pending, added, id);
      EmitTasksCount(added, next, c, id);
      if id != next {
        assert emits'[id] == emits[id];
      }
    }
    EmitTasksCount(added, next, c, next);
    CountClosesAppend(pending, added);
    assert next !in emits;
    KindsKeep(pending, emits, next, emits', next + 1);
    EmitTasksOk(added, next, c, emits', next + 1);
    TasksAppendOk(pending, added, emits', next + 1);
  }

  lemma RemoveCounts(p: seq<Task>, k: nat, id: nat)
    requires k < |p|
    ensures CountPending(p[..k] + p[k + 1..], id) + (if Counted(p[k], id) then 1 else 0) == CountPending(p, id)
    ensures CountCloses(p[..k] + p[k + 1..]) + (if p[k].CloseTask? then 1 else 0) == CountCloses(p)
  {
    assert p == (p[..k] + [p[k]]) + p[k + 1..];
    CountPendingAppend(p[..k] + [p[k]], p[k + 1..], id);
    CountPendingAppend(p[..k], p[k + 1..], id);
    PushTask(p[..k], p[k], id);
    CountClosesAppend(p[..k] + [p[k]], p[k + 1..]);
    CountClosesAppend(p[..k], p[k + 1..]);
  }

  /** Taking a task off the queue keeps the invariant. */
  lemma RemoveKeeps(steps: seq<Step>, waiting: Option<Step>, emits: map<nat, EmitCounter>, next: nat,
                    pending: seq<Task>, sent: seq<Sent>, closeScheduled: bool, k: nat)
    requires Inv(steps, waiting, emits, next, pending, sent, closeScheduled) && k < |pending|
    ensures Inv(steps, waiting, emits, next, pending[..k] + pending[k + 1..], sent, closeScheduled)
  {
    var p' := pending[..k] + pending[k + 1..];
    forall id | id in emits
      ensures Budget(emits[id], CountPending(p', id), CountSent(sent, id))
    {
      RemoveCounts(pending, k, id);
    }
    RemoveCounts(pending, k, 0);
    forall j | 0 <= j < |p'|
      ensures TaskOk(p'[j], emits, next)
    {
      if j < k {
        assert p'[j] == pending[j];
      } else {
        assert p'[j] == pending[j + 1];
      }
    }
  }

  /** A payload sent by emit `id` changes only that emit's count of sends. */
  lemma SentByEmit(sent: seq<Sent>, x: string, id: nat, other: nat)
    ensures CountSent(sent + [Sent(x, ByEmit(id))], other) == CountSent(sent, other) + (if other == id then 1 else 0)
  {
    PushSent(sent, Sent(x, ByEmit(id)), other);
  }

  /** Tasks stay well-formed when ids are added and no counter changes its kind. */
  lemma KindsKeep(pending: seq<Task>, emits: map<nat, EmitCounter>, next: nat, emits': map<nat, EmitCounter>, next': nat)
    requires forall k :: 0 <= k < |pending| ==> TaskOk(pending[k], emits, next)
    requires next <= next'
    requires forall id :: id in emits ==> id in emits' && emits'[id].FiniteLeft? == emits[id].FiniteLeft?
    requires forall id :: id in emits' ==> id in emits || id >= next
    ensures forall k :: 0 <= k < |pending| ==> TaskOk(pending[k], emits', next')
  {
    forall k | 0 <= k < |pending| ensures TaskOk(pending[k], emits', next') {
      assert TaskOk(pending[k], emits, next);
    }
  }

  lemma TasksAppendOk(pending: seq<Task>, added: seq<Task>, emits: map<nat, EmitCounter>, next: nat)
    requires forall k :: 0 <= k < |pending| ==> TaskOk(pending[k], emits, next)
    requires forall k :: 0 <= k < |added| ==> TaskOk(added[k], emits, next)
    ensures forall k :: 0 <= k < |pending + added| ==> TaskOk((pending + added)[k], emits, next)
  {
    forall k | 0 <= k < |pending + added| ensures TaskOk((pending + added)[k], emits, next) {
      if k < |pending| {
        assert (pending + added)[k] == pending[k];
      } else {
        assert (pending + added)[k] == added[k - |pending|];
      }
    }
  }

  /** The tasks of emit `id` are well-formed once its counter, if any, is in place. */
  lemma EmitTasksOk(added: seq<Task>, id: nat, c: Option<EmitCounter>, emits: map<nat, EmitCounter>, next: nat)
    requires EmitTasks(added, id, c) && id < next
    requires c.Some? ==> id in emits && emits[id] == c.value
    requires c.None? ==> id !in emits
    ensures forall k :: 0 <= k < |added| ==> TaskOk(added[k], emits, next)
  {
    forall k | 0 <= k < |added| ensures TaskOk(added[k], emits, next) {
      assert added[k].emitId == id;
    }
  }

  lemma SentIdsBelow(sent: seq<Sent>, x: string, id: nat, next: nat)
    requires forall k :: 0 <= k < |sent| && sent[k].origin.ByEmit? ==> sent[k].origin.emitId < next
    requires id < next
    ensures var sent' := sent + [Sent(x, ByEmit(id))];
      forall k :: 0 <= k < |sent'| && sent'[k].origin.ByEmit? ==> sent'[k].origin.emitId < next
  {
    var sent' := sent + [Sent(x, ByEmit(id))];
    forall k | 0 <= k < |sent'| && sent'[k].origin.ByEmit? ensures sent'[k].origin.emitId < next {
      if k < |sent| {
        assert sent'[k] == sent[k];
      }
    }
  }

  /** A window shot's send with its done count raised keeps the invariant while a shot was still owed. */
  lemma WindowRunKeeps(steps: seq<Step>, waiting: Option<Step>, emits: map<nat, EmitCounter>, next: nat,
                       pending: seq<Task>, sent: seq<Sent>, closeScheduled: bool, id: nat, x: string)
    requires Inv(steps, waiting, emits, next, pending, sent, closeScheduled)
    requires id in emits && emits[id].WindowDone? && emits[id].done + CountPending(pending, id) < emits[id].total
    ensures Inv(steps, waiting, emits[id := WindowDone(emits[id].done + 1, emits[id].total)], next, pending,
                sent + [Sent(x, ByEmit(id))], closeScheduled)
  {
    var c := WindowDone(emits[id].done + 1, emits[id].total);
    assert Budget(c, CountPending(pending, id), CountSent(sent, id) + 1) by {
      assert Budget(emits[id], CountPending(pending, id), CountSent(sent, id));
    }
    SendKeeps(steps, waiting, emits, next, pending, sent, closeScheduled, id, x, c);
  }

  /** An INTERVAL tick's send with its remaining count lowered keeps the invariant. */
  lemma FiniteSendKeeps(steps: seq<Step>, waiting: Option<Step>, emits: map<nat, EmitCounter>, next: nat,
                        pending: seq<Task>, sent: seq<Sent>, closeScheduled: bool, id: nat, x: string)
    requires Inv(steps, waiting, emits, next, pending, sent, closeScheduled)
    requires id in emits && emits[id].FiniteLeft? && CountPending(pending, id) == 0
    ensures Inv(steps, waiting, emits[id := FiniteLeft(emits[id].remaining - 1, emits[id].total)], next, pending,
                sent + [Sent(x, ByEmit(id))], closeScheduled)
  {
    var c := FiniteLeft(emits[id].remaining - 1, emits[id].total);
    assert Budget(c, CountPending(pending, id), CountSent(sent, id) + 1) by {
      assert Budget(emits[id], CountPending(pending, id), CountSent(sent, id));
    }
    SendKeeps(steps, waiting, emits, next, pending, sent, closeScheduled, id, x, c);
  }

  /** A send by emit `id`, whose counter becomes `c` of the same kind within budget, keeps the invariant. */
  lemma SendKeeps(steps: seq<Step>, waiting: Option<Step>, emits: map<nat, EmitCounter>, next: nat,
                  pending: seq<Task>, sent: seq<Sent>, closeScheduled: bool, id: nat, x: string, c: EmitCounter)
    requires Inv(steps, waiting, emits, next, pending, sent, closeScheduled)
    requires id in emits && c.FiniteLeft? == emits[id].FiniteLeft?
    requires Budget(c, CountPending(pending, id), CountSent(sent, id) + 1)
    ensures Inv(steps, waiting, emits[id := c], next, pending, sent + [Sent(x, ByEmit(id))], closeScheduled)
  {
    SendBudgets(emits, next, pending, sent, id, x, c);
    SentIdsBelow(sent, x, id, next);
    TasksOkAfterUpdate(pending, emits, next, id, c);
  }

  /** Pending tasks stay well-formed when one counter is replaced by another of the same kind. */
  lemma TasksOkAfterUpdate(pending: seq<Task>, emits: map<nat, EmitCounter>, next: nat, id: nat, c: EmitCounter)
    requires forall k :: 0 <= k < |pending| ==> TaskOk(pending[k], emits, next)
    requires id in emits && c.FiniteLeft? == emits[id].FiniteLeft?
    ensures forall k :: 0 <= k < |pending| ==> TaskOk(pending[k], emits[id := c], next)
  {
    forall k | 0 <= k < |pending| ensures TaskOk(pending[k], emits[id := c], next) {
      assert TaskOk(pending[k], emits, next);
    }
  }

  /** A send by emit `id`, whose counter becomes `c`, keeps every emit's budget. */
  lemma SendBudgets(emits: map<nat, EmitCounter>, next: nat, pending: seq<Task>, sent: seq<Sent>,
                    id: nat, x: string, c: EmitCounter)
    requires forall o :: o in emits ==> o < next && Budget(emits[o], CountPending(pending, o), CountSent(sent, o))
    requires id in emits && Budget(c, CountPending(pending, id), CountSent(sent, id) + 1)
    ensures var emits', sent' := emits[id := c], sent + [Sent(x, ByEmit(id))];
      forall o :: o in emits' ==> o < next && Budget(emits'[o], CountPending(pending, o), CountSent(sent', o))
  {
    var emits', sent' := emits[id := c], sent + [Sent(x, ByEmit(id))];
    forall o | o in emits'
      ensures o < next && Budget(emits'[o], CountPending(pending, o), CountSent(sent', o))
    {
      SentByEmit(sent, x, id, o);
      if o != id {
        assert emits'[o] == emits[o];
      }
    }
  }

  /** The next INTERVAL tick keeps the invariant when none is pending and a send remains. */
  lemma FiniteTickKeeps(steps: seq<Step>, waiting: Option<Step>, emits: map<nat, EmitCounter>, next: nat,
                        pending: seq<Task>, sent: seq<Sent>, closeScheduled: bool, t: Task)
    requires Inv(steps, waiting, emits, next, pending, sent, closeScheduled)
    requires t.EmitFiniteTick? && t.emit.Emit? && t.emitId in emits && emits[t.emitId].FiniteLeft?
    requires emits[t.emitId].remaining >= 1 && CountPending(pending, t.emitId) == 0
    ensures Inv(steps, waiting, emits, next, pending + [t], sent, closeScheduled)
  {
    forall other | other in emits
      ensures CountPending(pending + [t], other) == CountPending(pending, other) + (if other == t.emitId then 1 else 0)
    {
      PushTask(pending, t, other);
    }
    PushTask(pending, t, 0);
    TasksAppendOk(pending, [t], emits, next);
  }

  /** The shots of a fresh WINDOW counter, scheduled all together, keep the invariant. */
  lemma WindowShotsKeep(steps: seq<Step>, waiting: Option<Step>, emits: map<nat, EmitCounter>, next: nat,
                        pending: seq<Task>, sent: seq<Sent>, closeScheduled: bool,
                        id: nat, eqp: EqpRuntime, e: Step, n: nat, offset: nat -> int)
    requires Inv(steps, waiting, emits, next, pending, sent, closeScheduled)
    requires e.Emit? && 0 <= e.intervalOrWindowMs < LONG_MAX
    requires id in emits && emits[id] == WindowDone(0, n) && CountPending(pending, id) == 0
    ensures Inv(steps, waiting, emits, next, pending + WindowShots(id, eqp, e, n, offset), sent, closeScheduled)
  {
    var shots := WindowShots(id, eqp, e, n, offset);
    forall other | other in emits
      ensures CountPending(pending + shots, other) == CountPending(pending, other) + (if other == id then n else 0)
    {
      CountPendingAppend(pending, shots, other);
      WindowShotsCount(id, eqp, e, n, offset, other);
    }
    CountClosesAppend(pending, shots);
    WindowShotsCount(id, eqp, e, n, offset, id);
    EmitTasksOk(shots, id, Some(WindowDone(0, n)), emits, next);
    TasksAppendOk(pending, shots, emits, next);
  }

  /** A forever tick's send, and the next tick if any, keep the invariant. */
  lemma ForeverRunKeeps(steps: seq<Step>, waiting: Option<Step>, emits: map<nat, EmitCounter>, next: nat,
                        pending: seq<Task>, sent: seq<Sent>, closeScheduled: bool, id: nat, x: string, added: seq<Task>)
    requires Inv(steps, waiting, emits, next, pending, sent, closeScheduled)
    requires id < next && id !in emits
    requires EmitTasks(added, id, None) && forall j :: 0 <= j < |added| ==> added[j].EmitForeverTick?
    ensures Inv(steps, waiting, emits, next, pending + added, sent + [Sent(x, ByEmit(id))], closeScheduled)
  {
    forall other | other in emits
      ensures CountSent(sent + [Sent(x, ByEmit(id))], other) == CountSent(sent, other)
      ensures CountPending(pending + added, other) == CountPending(pending, other)
    {
      SentByEmit(sent, x, id, other);
      CountPendingAppend(pending, added, other);
      EmitTasksCount(added, id, None, other);
    }
    EmitTasksCount(added, id, None, id);
    CountClosesAppend(pending, added);
    SentIdsBelow(sent, x, id, next);
    EmitTasksOk(added, id, None, emits, next);
    TasksAppendOk(pending, added, emits, next);
  }

  /** Every emit id below `n` keeps its counter, its pending tasks and its sends. */
  ghost predicate AllUntouched(n: nat, e0: map<nat, EmitCounter>, p0: seq<Task>, s0: seq<Sent>,
                               e1: map<nat, EmitCounter>, p1: seq<Task>, s1: seq<Sent>) {
    forall id: nat :: id < n ==> Untouched(id, e0, p0, s0, e1, p1, s1)
  }

  lemma UntouchedTrans(n: nat, e0: map<nat, EmitCounter>, p0: seq<Task>, s0: seq<Sent>,
                       e1: map<nat, EmitCounter>, p1: seq<Task>, s1: seq<Sent>,
                       e2: map<nat, EmitCounter>, p2: seq<Task>, s2: seq<Sent>)
    requires AllUntouched(n, e0, p0, s0, e1, p1, s1) && AllUntouched(n, e1, p1, s1, e2, p2, s2)
    ensures AllUntouched(n, e0, p0, s0, e2, p2, s2)
  {
    forall id: nat | id < n ensures Untouched(id, e0, p0, s0, e2, p2, s2) {
      assert Untouched(id, e0, p0, s0, e1, p1, s1) && Untouched(id, e1, p1, s1, e2, p2, s2);
    }
  }

  /** A task that holds no counter leaves every emit untouched. */
  lemma QuietUntouched(n: nat, e: map<nat, EmitCounter>, p: seq<Task>, s: seq<Sent>, t: Task)
    requires !t.EmitFiniteTick? && !t.EmitWindowShot?
    ensures AllUntouched(n, e, p, s, e, p + [t], s)
  {
    forall id: nat | id < n ensures CountPending(p + [t], id) == CountPending(p, id) {
      PushTask(p, t, id);
    }
  }

  /** The SEND steps' payloads leave every emit untouched. */
  lemma StepSendsUntouched(n: nat, e: map<nat, EmitCounter>, p: seq<Task>, s: seq<Sent>, actions: seq<Action>, eqp: EqpRuntime)
    ensures AllUntouched(n, e, p, s, e, p, s + Outbox(actions, eqp))
  {
    forall id: nat | id < n ensures CountSent(s + Outbox(actions, eqp), id) == CountSent(s, id) {
      CountSentAppend(s, Outbox(actions, eqp), id);
      OutboxUncounted(actions, eqp, id);
    }
  }

  /** A new emit, numbered `n`, leaves the emits before it untouched. */
  lemma FreshEmitUntouched(n: nat, e: map<nat, EmitCounter>, p: seq<Task>, s: seq<Sent>, c: Option<EmitCounter>, added: seq<Task>)
    requires EmitTasks(added, n, c)
    ensures AllUntouched(n, e, p, s, if c.Some? then e[n := c.value] else e, p + added, s)
  {
    forall id: nat | id < n ensures CountPending(p + added, id) == CountPending(p, id) {
      CountPendingAppend(p, added, id);
      EmitTasksCount(added, n, c, id);
    }
  }

  /** The delay before an interval emit's next tick. */
  function TickDelay(e: Step, dice: Dice): Result<int>
    requires e.Emit?
  {
    OutboundFrameSender.DelayOf(e.intervalOrWindowMs, JitterOrZero(e.emitJitterMs), dice.jitter)
  }

  /** The payload an emit sends. */
  function EmitPayload(e: Step, eqp: EqpRuntime): string
    requires e.Emit?
  {
    Resolve(Some(e.template), eqp).value
  }

  /** The delay of a DISCONNECT fault: `afterMs`, or 0 when absent. */
  function AfterMsOf(f: Fault): (r: int)
    ensures f.afterMs.Some? ==> r == f.afterMs.value
    ensures f.afterMs.None? ==> r == 0
  {
    if f.afterMs.Some? then f.afterMs.value else 0
  }

  function FsSet(fs: Option<FaultState>): set<FaultState> {
    if fs.Some? then {fs.value} else {}
  }

  ghost predicate FsOk(fs: Option<FaultState>)
    reads FsSet(fs)
  {
    fs.Some? ==> fs.value.Valid()
  }

  /** The fields the walk over the plan changes. */
  datatype WalkView = WalkView(stepIndex: int, loops: map<string, int>, sent: seq<Sent>, faultsApplied: seq<Fault>)

  datatype RestView = RestView(started: bool, closeScheduled: bool, emitStopped: bool, waitingStep: Option<Step>,
                               waitTimeoutFuture: Option<Handshake.TimeoutFuture>, closed: bool,
                               closeReason: Option<CloseReason>, pending: seq<Task>,
                               emits: map<nat, EmitCounter>, nextEmitId: nat)

  class ScenarioRunnerHandler {
    const plan: Plan
    /** The completion tracker; `None` is the no-op tracker. */
    const tracker: Option<ScenarioCompletionCoordinator>
    var started: bool
    var closeScheduled: bool
    var stepIndex: int
    var emitStopped: bool
    var waitingStep: Option<Step>
    var waitTimeoutFuture: Option<Handshake.TimeoutFuture>
    var loopIterationCount: map<string, int>
    /** `ctx.close()` has been called. */
    var closed: bool
    var closeReason: Option<CloseReason>
    /** The tasks scheduled on the event loop and not yet run. */
    var pending: seq<Task>
    /** The payloads handed to the outbound sender, in order. */
    var sent: seq<Sent>
    /** The steps given to `applyFault`, in order. */
    var faultsApplied: seq<Fault>
    /** The counter of each finite emit. */
    var emits: map<nat, EmitCounter>
    var nextEmitId: nat

    /**
     * The plan's steps are as their constructors build them, a waiting
     * step is a WAIT, every emit id in use has been handed out, every
     * finite emit's counter agrees with its pending tasks and its sends,
     * and at most one completion close is pending, only once scheduled.
     */
    ghost predicate Valid()
      reads this
    {
      Inv(plan.steps, waitingStep, emits, nextEmitId, pending, sent, closeScheduled)
    }

    constructor(plan: Plan, tracker: Option<ScenarioCompletionCoordinator>)
      requires forall k :: 0 <= k < |plan.steps| ==> ValidStep(plan.steps[k])
      ensures this.plan == plan && this.tracker == tracker
      ensures !started && !closeScheduled && stepIndex == 0 && !emitStopped
      ensures waitingStep.None? && waitTimeoutFuture.None? && loopIterationCount == map[]
      ensures !closed && closeReason.None? && pending == [] && sent == [] && faultsApplied == []
      ensures emits == map[] && nextEmitId == 0
      ensures Valid()
    {
      this.plan := plan;
      this.tracker := tracker;
      started := false;
      closeScheduled := false;
      stepIndex := 0;
      emitStopped := false;
      waitingStep := None;
      waitTimeoutFuture := None;
      loopIterationCount := map[];
      closed := false;
      closeReason := None;
      pending := [];
      sent := [];
      faultsApplied := [];
      emits := map[];
      nextEmitId := 0;
    }

    /** Everything the synchronous walk leaves alone. */
    function Rest(): RestView
      reads this
    {
      RestView(started, closeScheduled, emitStopped, waitingStep, waitTimeoutFuture, closed, closeReason,
               pending, emits, nextEmitId)
    }

    function Walk(): WalkView
      reads this
    {
      WalkView(stepIndex, loopIterationCount, sent, faultsApplied)
    }

    function Timer(): set<Handshake.TimeoutFuture>
      reads this
    {
      if waitTimeoutFuture.Some? then {waitTimeoutFuture.value} else {}
    }

    function Tracked(): set<ScenarioCompletionCoordinator> {
      if tracker.Some? then {tracker.value} else {}
    }

    ghost predicate TrackerValid()
      reads Tracked()
    {
      tracker.Some? ==> tracker.value.Valid()
    }
  
    /**
     * One pass of the loop of `advance` on a step inside the plan: a SEND
     * resolves its template and hands it to the sender, a non-DISCONNECT
     * fault goes to the channel's fault state when it has one (and may
     * throw there), the jumps move `stepIndex`; a stop leaves `stepIndex`
     * where it is. Nothing else changes.
     */
    method Pass(eqp: EqpRuntime, fs: Option<FaultState>, nowMs: int) returns (stop: Option<Halt>)
      requires 0 <= stepIndex < |plan.steps|
      requires fs.Some? ==> fs.value.Valid()
      modifies this, if fs.Some? then {fs.value} else {}
      ensures var t := TurnAt(plan, fs.Some?, old(stepIndex), old(loopIterationCount));
        && loopIterationCount == t.loops
        && (t.Stop? ==> stop == Some(t.halt) && stepIndex == old(stepIndex)
                        && sent == old(sent) && faultsApplied == old(faultsApplied))
        && (t.Go? ==> stop.None? && stepIndex == t.next
                      && sent == old(sent) + Outbox(t.acts, eqp) && faultsApplied == old(faultsApplied) + FaultsOf(t.acts))
      ensures fs.Some? ==> fs.value.Valid()
      ensures fs.Some? ==> var st := plan.steps[old(stepIndex)];
        if stop.None? && st.FaultStep? then Installs(old(fs.value.View()), st.fault, nowMs, fs.value.View())
        else fs.value.View() == old(fs.value.View())
      ensures Rest() == old(Rest())
    {
      var step := plan.steps[stepIndex];
      if step.Send? {
        stop := PassSend(eqp, fs);
      } else if step.Label? || step.Goto? || step.Loop? {
        stop := PassJump(eqp, fs);
      } else if step.FaultStep? {
        stop := PassFault(eqp, fs, nowMs);
      } else if step.WaitCmd? {
        stop := Some(AtWait(step));
      } else if step.Emit? {
        stop := Some(AtEmit(step));
      } else {
        stop := Some(AtSleep(step.sleepMs));
      }
    }

    method PassSend(eqp: EqpRuntime, fs: Option<FaultState>) returns (stop: Option<Halt>)
      requires 0 <= stepIndex < |plan.steps| && plan.steps[stepIndex].Send?
      requires fs.Some? ==> fs.value.Valid()
      modifies this
      ensures var t := TurnAt(plan, fs.Some?, old(stepIndex), old(loopIterationCount));
        && loopIterationCount == t.loops
        && (t.Stop? ==> stop == Some(t.halt) && stepIndex == old(stepIndex)
                        && sent == old(sent) && faultsApplied == old(faultsApplied))
        && (t.Go? ==> stop.None? && stepIndex == t.next
                      && sent == old(sent) + Outbox(t.acts, eqp) && faultsApplied == old(faultsApplied) + FaultsOf(t.acts))
      ensures fs.Some? ==> fs.value.Valid()
      ensures Rest() == old(Rest())
    {
      var resolved := ResolveTemplate(Some(plan.steps[stepIndex].payloadTemplate), eqp);
      sent := sent + [Sent(resolved.value, ByStep)];
      stepIndex := stepIndex + 1;
      return None;
    }

    method PassJump(eqp: EqpRuntime, fs: Option<FaultState>) returns (stop: Option<Halt>)
      requires 0 <= stepIndex < |plan.steps| && (plan.steps[stepIndex].Label? || plan.steps[stepIndex].Goto? || plan.steps[stepIndex].Loop?)
      requires fs.Some? ==> fs.value.Valid()
      modifies this
      ensures var t := TurnAt(plan, fs.Some?, old(stepIndex), old(loopIterationCount));
        && loopIterationCount == t.loops
        && (t.Stop? ==> stop == Some(t.halt) && stepIndex == old(stepIndex)
                        && sent == old(sent) && faultsApplied == old(faultsApplied))
        && (t.Go? ==> stop.None? && stepIndex == t.next
                      && sent == old(sent) + Outbox(t.acts, eqp) && faultsApplied == old(faultsApplied) + FaultsOf(t.acts))
      ensures fs.Some? ==> fs.value.Valid()
      ensures Rest() == old(Rest())
    {
      match plan.steps[stepIndex] {
        case Label(_) =>
          stepIndex := stepIndex + 1;
          return None;
        case Goto(l) =>
          if l !in plan.labelIndex {
            return Some(GotoMissing(l));
          }
          stepIndex := plan.labelIndex[l];
          return None;
        case Loop(n, l) =>
          var c := LoopCount(loopIterationCount, l);
          if c < n {
            loopIterationCount := loopIterationCount[l := c + 1];
            if l !in plan.labelIndex {
              return Some(LoopMissing(l));
            }
            stepIndex := plan.labelIndex[l];
          } else {
            loopIterationCount := loopIterationCount - {l};
            stepIndex := stepIndex + 1;
          }
          return None;
      }
    }

    method PassFault(eqp: EqpRuntime, fs: Option<FaultState>, nowMs: int) returns (stop: Option<Halt>)
      requires 0 <= stepIndex < |plan.steps| && plan.steps[stepIndex].FaultStep?
      requires fs.Some? ==> fs.value.Valid()
      modifies this, if fs.Some? then {fs.value} else {}
      ensures var t := TurnAt(plan, fs.Some?, old(stepIndex), old(loopIterationCount));
        && loopIterationCount == t.loops
        && (t.Stop? ==> stop == Some(t.halt) && stepIndex == old(stepIndex)
                        && sent == old(sent) && faultsApplied == old(faultsApplied))
        && (t.Go? ==> stop.None? && stepIndex == t.next
                      && sent == old(sent) + Outbox(t.acts, eqp) && faultsApplied == old(faultsApplied) + FaultsOf(t.acts))
      ensures fs.Some? ==> fs.value.Valid()
      ensures fs.Some? ==> var st := plan.steps[old(stepIndex)];
        if stop.None? && st.FaultStep? then Installs(old(fs.value.View()), st.fault, nowMs, fs.value.View())
        else fs.value.View() == old(fs.value.View())
      ensures Rest() == old(Rest())
    {
      var fl := plan.steps[stepIndex].fault;
      if fl.faultType == DISCONNECT {
        return Some(AtDisconnect(fl));
      }
      if fs.Some? {
        var thrown := fs.value.ApplyFault(fl, nowMs);
        if thrown.Some? {
          return Some(Threw(thrown.value));
        }
        faultsApplied := faultsApplied + [fl];
      }
      stepIndex := stepIndex + 1;
      return None;
    }

    /**
     * The `while (true)` loop of `advance` for an EQP that is present,
     * with `fuel` turns at most: it walks as `Exec` says. Nothing else
     * changes.
     */
    method RunSteps(eqp: EqpRuntime, fs: Option<FaultState>, nowMs: int, fuel: nat) returns (halt: Halt)
      requires fs.Some? ==> fs.value.Valid()
      modifies this, if fs.Some? then {fs.value} else {}
      ensures var r := Exec(plan, fs.Some?, old(stepIndex), old(loopIterationCount), fuel);
        && halt == r.halt && stepIndex == r.stepIndex && loopIterationCount == r.loops
        && sent == old(sent) + Outbox(r.actions, eqp)
        && faultsApplied == old(faultsApplied) + FaultsOf(r.actions)
      ensures fs.Some? ==> fs.value.Valid()
      ensures Rest() == old(Rest())
    {
      ghost var target := Exec(plan, fs.Some?, stepIndex, loopIterationCount, fuel);
      ghost var done: seq<Action> := [];
      var f := fuel;
      while true
        invariant target == Then(done, Exec(plan, fs.Some?, stepIndex, loopIterationCount, f))
        invariant sent == old(sent) + Outbox(done, eqp)
        invariant faultsApplied == old(faultsApplied) + FaultsOf(done)
        invariant fs.Some? ==> fs.value.Valid()
        invariant Rest() == old(Rest())
        decreases f
      {
        if f == 0 || stepIndex >= |plan.steps| || stepIndex < 0 {
          assert done + [] == done;
          return Exec(plan, fs.Some?, stepIndex, loopIterationCount, f).halt;
        }
        ghost var t := TurnAt(plan, fs.Some?, stepIndex, loopIterationCount);
        var stop := Pass(eqp, fs, nowMs);
        if stop.Some? {
          assert done + [] == done;
          return stop.value;
        }
        ghost var rest := Exec(plan, fs.Some?, stepIndex, loopIterationCount, f - 1);
        OutboxAppend(done, t.acts, eqp);
        FaultsAppend(done, t.acts);
        ghost var s0 := old(sent);
        ghost var f0 := old(faultsApplied);
        ByteBufSearch.ConcatAssoc(s0, Outbox(done, eqp), Outbox(t.acts, eqp));
        ByteBufSearch.ConcatAssoc(f0, FaultsOf(done), FaultsOf(t.acts));
        ByteBufSearch.ConcatAssoc(done, t.acts, rest.actions);
        done := done + t.acts;
        f := f - 1;
      }
    }

    /**
     * A WAIT step: it becomes the waiting step and a timer of the
     * resolved timeout is started; when it fires it closes the channel.
     */
    method HandleWaitStep(w: Step, eqp: EqpRuntime) returns (timer: Handshake.TimeoutFuture)
      requires Valid() && w.WaitCmd?
      modifies this
      ensures Valid()
      ensures fresh(timer) && !timer.cancelled && timer.delaySec == WaitTimeoutSec(w, eqp)
      ensures Rest() == old(Rest()).(waitingStep := Some(w), waitTimeoutFuture := Some(timer),
                                     pending := old(pending) + [WaitTimeout(timer)])
      ensures Walk() == old(Walk())
      ensures AllUntouched(old(nextEmitId), old(emits), old(pending), old(sent), emits, pending, sent)
    {
      waitingStep := Some(w);
      timer := new Handshake.TimeoutFuture(WaitTimeoutSec(w, eqp));
      waitTimeoutFuture := Some(timer);
      PushQuiet(plan.steps, waitingStep, emits, nextEmitId, pending, sent, closeScheduled, WaitTimeout(timer));
      QuietUntouched(nextEmitId, emits, pending, sent, WaitTimeout(timer));
      pending := pending + [WaitTimeout(timer)];
    }

    /** A SLEEP step: a task that moves past it after `sleepMs`. */
    method HandleSleepStep(sleepMs: int)
      requires Valid()
      modifies this
      ensures Valid()
      ensures Rest() == old(Rest()).(pending := old(pending) + [SleepDone(sleepMs)])
      ensures Walk() == old(Walk())
      ensures AllUntouched(old(nextEmitId), old(emits), old(pending), old(sent), emits, pending, sent)
    {
      PushQuiet(plan.steps, waitingStep, emits, nextEmitId, pending, sent, closeScheduled, SleepDone(sleepMs));
      QuietUntouched(nextEmitId, emits, pending, sent, SleepDone(sleepMs));
      pending := pending + [SleepDone(sleepMs)];
    }

    /** A DISCONNECT fault: a task that closes the channel after `afterMs` (0 when absent). */
    method ScheduleDisconnect(f: Fault)
      requires Valid()
      modifies this
      ensures Valid()
      ensures Rest() == old(Rest()).(pending := old(pending) + [DisconnectTask(AfterMsOf(f))])
      ensures Walk() == old(Walk())
      ensures AllUntouched(old(nextEmitId), old(emits), old(pending), old(sent), emits, pending, sent)
    {
      var t := DisconnectTask(AfterMsOf(f));
      PushQuiet(plan.steps, waitingStep, emits, nextEmitId, pending, sent, closeScheduled, t);
      QuietUntouched(nextEmitId, emits, pending, sent, t);
      pending := pending + [t];
    }

    /**
     * The close after an ACTIVE scenario completes: scheduled once only,
     * with the close reason set to SCENARIO_COMPLETED.
     */
    method ScheduleCloseAfterCompletion()
      requires Valid()
      modifies this
      ensures Valid() && closeScheduled
      ensures old(closeScheduled) ==> Rest() == old(Rest())
      ensures !old(closeScheduled) ==>
        Rest() == old(Rest()).(closeScheduled := true, closeReason := Some(SCENARIO_COMPLETED),
                               pending := old(pending) + [CloseTask(CLOSE_GRACE_MS)])
      ensures Walk() == old(Walk())
      ensures AllUntouched(old(nextEmitId), old(emits), old(pending), old(sent), emits, pending, sent)
    {
      if closeScheduled {
        return;
      }
      PushClose(plan.steps, waitingStep, emits, nextEmitId, pending, sent, CLOSE_GRACE_MS);
      QuietUntouched(nextEmitId, emits, pending, sent, CloseTask(CLOSE_GRACE_MS));
      closeScheduled := true;
      closeReason := Some(SCENARIO_COMPLETED);
      pending := pending + [CloseTask(CLOSE_GRACE_MS)];
    }

    /**
     * The end of the plan: the tracker hears of the equipment's
     * completion; an ACTIVE channel is then closed after a grace period,
     * a PASSIVE one stays open.
     */
    method HandleScenarioCompleted(eqp: EqpRuntime)
      requires Valid() && TrackerValid()
      modifies this, Tracked()
      ensures Valid() && TrackerValid()
      ensures tracker.Some? ==> tracker.value.passiveOpen == old(tracker.value.passiveOpen)
      ensures tracker.Some? && tracker.value.totalEqpCount > 0 && Usable(Some(eqp.eqpId)) ==>
        tracker.value.completed == old(tracker.value.completed) + {eqp.eqpId}
      ensures tracker.Some? && (tracker.value.totalEqpCount <= 0 || !Usable(Some(eqp.eqpId))) ==>
        && tracker.value.completed == old(tracker.value.completed)
        && tracker.value.exitTriggered == old(tracker.value.exitTriggered)
        && tracker.value.exitsScheduled == old(tracker.value.exitsScheduled)
      ensures tracker.Some? ==>
        tracker.value.exitTriggered ==
          (old(tracker.value.exitTriggered)
           || (tracker.value.totalEqpCount > 0 && Usable(Some(eqp.eqpId))
               && ExitCondition(tracker.value.totalEqpCount, tracker.value.completed, tracker.value.passiveOpen)))
      ensures tracker.Some? ==>
        tracker.value.exitsScheduled ==
          old(tracker.value.exitsScheduled) + (if !old(tracker.value.exitTriggered) && tracker.value.exitTriggered then 1 else 0)
      ensures eqp.mode == ACTIVE ==> closeScheduled
      ensures eqp.mode == ACTIVE && !old(closeScheduled) ==>
        Rest() == old(Rest()).(closeScheduled := true, closeReason := Some(SCENARIO_COMPLETED),
                               pending := old(pending) + [CloseTask(CLOSE_GRACE_MS)])
      ensures eqp.mode == PASSIVE || old(closeScheduled) ==> Rest() == old(Rest())
      ensures Walk() == old(Walk())
      ensures AllUntouched(old(nextEmitId), old(emits), old(pending), old(sent), emits, pending, sent)
    {
      if tracker.Some? {
        var _, _ := tracker.value.MarkScenarioCompleted(Some(eqp.eqpId));
      }
      if eqp.mode == ACTIVE {
        ScheduleCloseAfterCompletion();
      }
    }

    /**
     * An EMIT step: the emit gets the next id. A forever emit schedules
     * its first tick; a finite INTERVAL emit creates its remaining counter
     * and then schedules its first tick; a WINDOW emit draws one offset in
     * `[0, window]` per send, then creates its done counter and schedules
     * one shot per offset. A jitter or window bound that overflows throws
     * before the tick or the shots are scheduled.
     */
    method HandleEmitStep(e: Step, eqp: EqpRuntime, dice: Dice) returns (thrown: Option<Failure>)
      requires Valid() && e.Emit? && ValidStep(e)
      modifies this
      ensures Valid()
      ensures nextEmitId == old(nextEmitId) + 1
      ensures var id := old(nextEmitId); var d := TickDelay(e, dice);
        && (e.count.Forever? ==>
              && emits == old(emits)
              && (d.Err? ==> thrown == Some(d.error) && pending == old(pending))
              && (d.Ok? ==> thrown.None? && pending == old(pending) + [EmitForeverTick(id, eqp, e, d.value)]))
        && (e.count.Fixed? && e.mode == INTERVAL ==>
              && emits == old(emits)[id := FiniteLeft(e.count.value, e.count.value)]
              && (d.Err? ==> thrown == Some(d.error) && pending == old(pending))
              && (d.Ok? ==> thrown.None? && pending == old(pending) + [EmitFiniteTick(id, eqp, e, d.value)]))
        && (e.count.Fixed? && e.mode == WINDOW && e.intervalOrWindowMs >= LONG_MAX ==>
              thrown == Some(IllegalArgument) && emits == old(emits) && pending == old(pending))
        && (e.count.Fixed? && e.mode == WINDOW && e.intervalOrWindowMs < LONG_MAX ==>
              && thrown.None?
              && emits == old(emits)[id := WindowDone(0, e.count.value)]
              && pending == old(pending) + WindowShots(id, eqp, e, e.count.value, dice.offset))
      ensures Rest().(pending := old(pending), emits := old(emits), nextEmitId := old(nextEmitId)) == old(Rest())
      ensures Walk() == old(Walk())
      ensures AllUntouched(old(nextEmitId), old(emits), old(pending), old(sent), emits, pending, sent)
    {
      if e.count.Forever? {
        thrown := StartForeverEmit(e, eqp, dice);
      } else if e.mode == INTERVAL {
        thrown := StartIntervalEmit(e, eqp, dice);
      } else {
        thrown := StartWindowEmit(e, eqp, dice);
      }
    }

    method StartForeverEmit(e: Step, eqp: EqpRuntime, dice: Dice) returns (thrown: Option<Failure>)
      requires Valid() && e.Emit? && e.count.Forever?
      modifies this
      ensures Valid()
      ensures nextEmitId == old(nextEmitId) + 1 && emits == old(emits)
      ensures var d := TickDelay(e, dice);
        && (d.Err? ==> thrown == Some(d.error) && pending == old(pending))
        && (d.Ok? ==> thrown.None? && pending == old(pending) + [EmitForeverTick(old(nextEmitId), eqp, e, d.value)])
      ensures Rest().(pending := old(pending), nextEmitId := old(nextEmitId)) == old(Rest())
      ensures Walk() == old(Walk())
      ensures AllUntouched(old(nextEmitId), old(emits), old(pending), old(sent), emits, pending, sent)
    {
      var id := nextEmitId;
      var d := TickDelay(e, dice);
      var added := if d.Ok? then [EmitForeverTick(id, eqp, e, d.value)] else [];
      NewEmitKeeps(plan.steps, waitingStep, emits, id, pending, sent, closeScheduled, None, added);
      FreshEmitUntouched(id, emits, pending, sent, None, added);
      nextEmitId := id + 1;
      pending := pending + added;
      thrown := if d.Err? then Some(d.error) else None;
    }

    method StartIntervalEmit(e: Step, eqp: EqpRuntime, dice: Dice) returns (thrown: Option<Failure>)
      requires Valid() && e.Emit? && e.count.Fixed? && ValidStep(e)
      modifies this
      ensures Valid()
      ensures nextEmitId == old(nextEmitId) + 1
      ensures emits == old(emits)[old(nextEmitId) := FiniteLeft(e.count.value, e.count.value)]
      ensures var d := TickDelay(e, dice);
        && (d.Err? ==> thrown == Some(d.error) && pending == old(pending))
        && (d.Ok? ==> thrown.None? && pending == old(pending) + [EmitFiniteTick(old(nextEmitId), eqp, e, d.value)])
      ensures Rest().(pending := old(pending), emits := old(emits), nextEmitId := old(nextEmitId)) == old(Rest())
      ensures Walk() == old(Walk())
      ensures AllUntouched(old(nextEmitId), old(emits), old(pending), old(sent), emits, pending, sent)
    {
      var id := nextEmitId;
      NewCounter(FiniteLeft(e.count.value, e.count.value));
      ghost var e1, p1, s1 := emits, pending, sent;
      thrown := ScheduleFiniteTick(id, eqp, e, dice);
      UntouchedTrans(id, old(emits), old(pending), old(sent), e1, p1, s1, emits, pending, sent);
    }

    /** A new emit's counter, under the next id, before any of its tasks is scheduled. */
    method NewCounter(c: EmitCounter)
      requires Valid() && Budget(c, 0, 0)
      modifies this
      ensures Valid()
      ensures nextEmitId == old(nextEmitId) + 1 && emits == old(emits)[old(nextEmitId) := c]
      ensures CountPending(pending, old(nextEmitId)) == 0
      ensures Rest().(emits := old(emits), nextEmitId := old(nextEmitId)) == old(Rest())
      ensures Walk() == old(Walk())
      ensures AllUntouched(old(nextEmitId), old(emits), old(pending), old(sent), emits, pending, sent)
    {
      var id := nextEmitId;
      NewEmitKeeps(plan.steps, waitingStep, emits, id, pending, sent, closeScheduled, Some(c), []);
      FreshEmitUntouched(id, emits, pending, sent, Some(c), []);
      FreshIdUnused(pending, sent, emits, id, id);
      assert pending + [] == pending;
      emits := emits[id := c];
      nextEmitId := id + 1;
    }

    /** An emit id used up by an emit that throws before scheduling anything. */
    method ReserveEmitId()
      requires Valid()
      modifies this
      ensures Valid()
      ensures nextEmitId == old(nextEmitId) + 1
      ensures Rest().(nextEmitId := old(nextEmitId)) == old(Rest()) && Walk() == old(Walk())
      ensures AllUntouched(old(nextEmitId), old(emits), old(pending), old(sent), emits, pending, sent)
    {
      var id := nextEmitId;
      NewEmitKeeps(plan.steps, waitingStep, emits, id, pending, sent, closeScheduled, None, []);
      FreshEmitUntouched(id, emits, pending, sent, None, []);
      assert pending + [] == pending;
      nextEmitId := id + 1;
    }

    method StartWindowEmit(e: Step, eqp: EqpRuntime, dice: Dice) returns (thrown: Option<Failure>)
      requires Valid() && e.Emit? && e.count.Fixed? && ValidStep(e)
      modifies this
      ensures Valid()
      ensures nextEmitId == old(nextEmitId) + 1
      ensures e.intervalOrWindowMs >= LONG_MAX ==>
        thrown == Some(IllegalArgument) && emits == old(emits) && pending == old(pending)
      ensures e.intervalOrWindowMs < LONG_MAX ==>
        && thrown.None?
        && emits == old(emits)[old(nextEmitId) := WindowDone(0, e.count.value)]
        && pending == old(pending) + WindowShots(old(nextEmitId), eqp, e, e.count.value, dice.offset)
      ensures Rest().(pending := old(pending), emits := old(emits), nextEmitId := old(nextEmitId)) == old(Rest())
      ensures Walk() == old(Walk())
      ensures AllUntouched(old(nextEmitId), old(emits), old(pending), old(sent), emits, pending, sent)
    {
      if e.intervalOrWindowMs >= LONG_MAX {
        ReserveEmitId();
        return Some(IllegalArgument);
      }
      var id := nextEmitId;
      NewCounter(WindowDone(0, e.count.value));
      ghost var e1, p1, s1 := emits, pending, sent;
      ScheduleWindowShots(id, eqp, e, e.count.value, dice.offset);
      UntouchedTrans(id, old(emits), old(pending), old(sent), e1, p1, s1, emits, pending, sent);
      thrown := None;
    }

    /** Schedules one shot per drawn offset, in the order drawn. */
    method ScheduleWindowShots(id: nat, eqp: EqpRuntime, e: Step, n: nat, offset: nat -> int)
      requires Valid() && e.Emit? && 0 <= e.intervalOrWindowMs < LONG_MAX
      requires id in emits && emits[id] == WindowDone(0, n) && CountPending(pending, id) == 0
      modifies this`pending
      ensures Valid()
      ensures pending == old(pending) + WindowShots(id, eqp, e, n, offset)
      ensures AllUntouched(id, emits, old(pending), sent, emits, pending, sent)
    {
      WindowShotsKeep(plan.steps, waitingStep, emits, nextEmitId, pending, sent, closeScheduled, id, eqp, e, n, offset);
      assert emits[id := WindowDone(0, n)] == emits;
      FreshEmitUntouched(id, emits, pending, sent, Some(WindowDone(0, n)), WindowShots(id, eqp, e, n, offset));
      for j := 0 to n
        invariant pending == old(pending) + WindowShots(id, eqp, e, j, offset)
      {
        ByteBufSearch.ConcatAssoc(old(pending), WindowShots(id, eqp, e, j, offset), [WindowShot(id, eqp, e, j, offset)]);
        pending := pending + [WindowShot(id, eqp, e, j, offset)];
      }
    }

    /**
     * `advance`: with no equipment on the channel it closes the channel;
     * otherwise it walks the plan and hands the step it stopped on to its
     * handler. A missing label closes the channel, a fault state that
     * throws ends the walk with the exception.
     */
    method Advance(eqp: Option<EqpRuntime>, fs: Option<FaultState>, nowMs: int, dice: Dice, fuel: nat)
      returns (halt: Option<Halt>, thrown: Option<Failure>)
      requires Valid() && TrackerValid() && FsOk(fs)
      modifies this, Tracked(), FsSet(fs)
      ensures Valid() && TrackerValid() && FsOk(fs)
      ensures eqp.None? ==> halt.None? && thrown.None? && Walk() == old(Walk()) && Rest() == old(Rest()).(closed := true)
      ensures eqp.Some? ==> var r := Exec(plan, fs.Some?, old(stepIndex), old(loopIterationCount), fuel);
        && halt == Some(r.halt)
        && Walk() == WalkView(r.stepIndex, r.loops, old(sent) + Outbox(r.actions, eqp.value),
                              old(faultsApplied) + FaultsOf(r.actions))
        && (r.halt.Threw? ==> thrown == Some(r.halt.error))
        && (thrown.Some? ==> r.halt.Threw? || r.halt.AtEmit?)
        && (r.halt.GotoMissing? || r.halt.LoopMissing? ==> Rest() == old(Rest()).(closed := true))
        && (r.halt.Threw? || r.halt.Spun? ==> Rest() == old(Rest()))
        && (r.halt.AtWait? ==>
              && waitingStep == Some(r.halt.wait) && waitTimeoutFuture.Some? && fresh(waitTimeoutFuture.value)
              && !waitTimeoutFuture.value.cancelled
              && waitTimeoutFuture.value.delaySec == WaitTimeoutSec(r.halt.wait, eqp.value))
        && (r.halt.AtSleep? ==> Rest() == old(Rest()).(pending := old(pending) + [SleepDone(r.halt.sleepMs)]))
        && (r.halt.AtDisconnect? ==>
              Rest() == old(Rest()).(pending := old(pending) + [DisconnectTask(AfterMsOf(r.halt.fault))]))
        && (r.halt.AtEmit? ==> nextEmitId == old(nextEmitId) + 1)
        && (r.halt.Completed? && eqp.value.mode == ACTIVE ==> closeScheduled)
        && (r.halt.Completed? && eqp.value.mode == PASSIVE ==> Rest() == old(Rest()))
        && (!r.halt.AtWait? ==> waitingStep == old(waitingStep) && waitTimeoutFuture == old(waitTimeoutFuture))
        && (!r.halt.GotoMissing? && !r.halt.LoopMissing? ==> closed == old(closed))
      ensures started == old(started) && emitStopped == old(emitStopped) && old(nextEmitId) <= nextEmitId
      ensures AllUntouched(old(nextEmitId), old(emits), old(pending), old(sent), emits, pending, sent)
    {
      if eqp.None? {
        closed := true;
        return None, None;
      }
      var q := eqp.value;
      ghost var r := Exec(plan, fs.Some?, stepIndex, loopIterationCount, fuel);
      HaltsOnItsStep(plan, fs.Some?, stepIndex, loopIterationCount, fuel);
      SendStepsKeep(plan.steps, waitingStep, emits, nextEmitId, pending, sent, closeScheduled, r.actions, q);
      StepSendsUntouched(nextEmitId, emits, pending, sent, r.actions, q);
      assert HaltedOn(plan, r.stepIndex, r.halt);
      var h := RunSteps(q, fs, nowMs, fuel);
      halt := Some(h);
      ghost var e1, p1, s1 := emits, pending, sent;
      thrown := HandleStop(h, q, dice);
      UntouchedTrans(old(nextEmitId), old(emits), old(pending), old(sent), e1, p1, s1, emits, pending, sent);
    }

    /** What `advance` does with the step its walk stopped on. */
    method HandleStop(h: Halt, eqp: EqpRuntime, dice: Dice) returns (thrown: Option<Failure>)
      requires Valid() && TrackerValid() && HaltedOn(plan, stepIndex, h)
      modifies this, Tracked()
      ensures Valid() && TrackerValid()
      ensures Walk() == old(Walk())
      ensures h.Threw? ==> thrown == Some(h.error)
      ensures thrown.Some? ==> h.Threw? || h.AtEmit?
      ensures h.GotoMissing? || h.LoopMissing? ==> Rest() == old(Rest()).(closed := true)
      ensures h.Threw? || h.Spun? ==> Rest() == old(Rest())
      ensures h.AtWait? ==>
        && waitingStep == Some(h.wait) && waitTimeoutFuture.Some? && fresh(waitTimeoutFuture.value)
        && !waitTimeoutFuture.value.cancelled && waitTimeoutFuture.value.delaySec == WaitTimeoutSec(h.wait, eqp)
      ensures h.AtSleep? ==> Rest() == old(Rest()).(pending := old(pending) + [SleepDone(h.sleepMs)])
      ensures h.AtDisconnect? ==> Rest() == old(Rest()).(pending := old(pending) + [DisconnectTask(AfterMsOf(h.fault))])
      ensures h.AtEmit? ==> nextEmitId == old(nextEmitId) + 1
      ensures h.Completed? && eqp.mode == ACTIVE ==> closeScheduled
      ensures h.Completed? && eqp.mode == PASSIVE ==> Rest() == old(Rest())
      ensures !h.AtWait? ==> waitingStep == old(waitingStep) && waitTimeoutFuture == old(waitTimeoutFuture)
      ensures !h.GotoMissing? && !h.LoopMissing? ==> closed == old(closed)
      ensures started == old(started) && emitStopped == old(emitStopped) && old(nextEmitId) <= nextEmitId
      ensures AllUntouched(old(nextEmitId), old(emits), old(pending), old(sent), emits, pending, sent)
    {
      thrown := None;
      match h {
        case Completed =>
          HandleScenarioCompleted(eqp);
        case AtWait(w) =>
          var _ := HandleWaitStep(w, eqp);
        case AtEmit(e) =>
          assert ValidStep(plan.steps[stepIndex]);
          thrown := HandleEmitStep(e, eqp, dice);
        case AtSleep(ms) =>
          HandleSleepStep(ms);
        case AtDisconnect(f) =>
          ScheduleDisconnect(f);
        case GotoMissing(_) =>
          closed := true;
        case LoopMissing(_) =>
          closed := true;
        case Threw(err) =>
          thrown := Some(err);
        case Spun =>
      }
    }

    /** Moves past the step the handler was parked on and advances. */
    method Resume(eqp: Option<EqpRuntime>, fs: Option<FaultState>, nowMs: int, dice: Dice, fuel: nat)
      returns (halt: Option<Halt>, thrown: Option<Failure>)
      requires Valid() && TrackerValid() && FsOk(fs)
      modifies this, Tracked(), FsSet(fs)
      ensures Valid() && TrackerValid() && FsOk(fs)
      ensures eqp.None? ==>
        && halt.None? && thrown.None? && Walk() == old(Walk()).(stepIndex := old(stepIndex) + 1)
        && Rest() == old(Rest()).(closed := true)
      ensures eqp.Some? ==> var r := Exec(plan, fs.Some?, old(stepIndex) + 1, old(loopIterationCount), fuel);
        && halt == Some(r.halt)
        && Walk() == WalkView(r.stepIndex, r.loops, old(sent) + Outbox(r.actions, eqp.value),
                              old(faultsApplied) + FaultsOf(r.actions))
        && (r.halt.Threw? ==> thrown == Some(r.halt.error))
        && (thrown.Some? ==> r.halt.Threw? || r.halt.AtEmit?)
        && (r.halt.AtWait? ==> waitingStep == Some(r.halt.wait))
        && (!r.halt.AtWait? ==> waitingStep == old(waitingStep))
      ensures started == old(started) && emitStopped == old(emitStopped) && old(nextEmitId) <= nextEmitId
      ensures AllUntouched(old(nextEmitId), old(emits), old(pending), old(sent), emits, pending, sent)
    {
      stepIndex := stepIndex + 1;
      halt, thrown := Advance(eqp, fs, nowMs, dice, fuel);
    }

    /** Cancels the WAIT timer, if one is running, and forgets it. */
    method CancelWaitTimeout()
      modifies this, Timer()
      ensures old(waitTimeoutFuture).Some? ==> old(waitTimeoutFuture).value.cancelled
      ensures Rest() == old(Rest()).(waitTimeoutFuture := None)
      ensures Walk() == old(Walk())
    {
      if waitTimeoutFuture.Some? {
        waitTimeoutFuture.value.cancelled := true;
        waitTimeoutFuture := None;
      }
    }

    /**
     * The scenario starts once, from whichever of `handlerAdded` and
     * `channelActive` comes first; later calls change nothing.
     */
    method StartIfNeeded(eqp: Option<EqpRuntime>, fs: Option<FaultState>, nowMs: int, dice: Dice, fuel: nat)
      returns (halt: Option<Halt>, thrown: Option<Failure>)
      requires Valid() && TrackerValid() && FsOk(fs)
      modifies this, Tracked(), FsSet(fs)
      ensures Valid() && TrackerValid() && FsOk(fs)
      ensures started
      ensures old(started) ==> halt.None? && thrown.None? && Walk() == old(Walk()) && Rest() == old(Rest())
      ensures !old(started) && eqp.None? ==> closed && Walk() == old(Walk())
      ensures !old(started) && eqp.Some? ==> var r := Exec(plan, fs.Some?, old(stepIndex), old(loopIterationCount), fuel);
        && halt == Some(r.halt)
        && Walk() == WalkView(r.stepIndex, r.loops, old(sent) + Outbox(r.actions, eqp.value),
                              old(faultsApplied) + FaultsOf(r.actions))
      ensures emitStopped == old(emitStopped)
    {
      if started {
        return None, None;
      }
      started := true;
      halt, thrown := Advance(eqp, fs, nowMs, dice, fuel);
    }

    /** The channel became active: the scenario starts if it has not yet. */
    method ChannelActive(eqp: Option<EqpRuntime>, fs: Option<FaultState>, nowMs: int, dice: Dice, fuel: nat)
      returns (thrown: Option<Failure>)
      requires Valid() && TrackerValid() && FsOk(fs)
      modifies this, Tracked(), FsSet(fs)
      ensures Valid() && TrackerValid() && FsOk(fs)
      ensures started
      ensures old(started) ==> thrown.None? && Walk() == old(Walk()) && Rest() == old(Rest())
      ensures !old(started) && eqp.Some? ==>
        stepIndex == Exec(plan, fs.Some?, old(stepIndex), old(loopIterationCount), fuel).stepIndex
    {
      var _, th := StartIfNeeded(eqp, fs, nowMs, dice, fuel);
      thrown := th;
    }

    /** Added to a channel that is already active: the start is queued on the event loop. */
    method HandlerAdded(active: bool)
      requires Valid()
      modifies this
      ensures Valid()
      ensures active ==> Rest() == old(Rest()).(pending := old(pending) + [StartTask])
      ensures !active ==> Rest() == old(Rest())
      ensures Walk() == old(Walk())
    {
      if active {
        PushQuiet(plan.steps, waitingStep, emits, nextEmitId, pending, sent, closeScheduled, StartTask);
        pending := pending + [StartTask];
      }
    }

    /**
     * A frame arrives. Only while a WAIT is pending, and only when the
     * frame's command word is the expected one, the timer is cancelled,
     * the WAIT is done and the scenario moves on; any other frame
     * changes nothing.
     */
    method ChannelRead0(frame: string, eqp: Option<EqpRuntime>, fs: Option<FaultState>, nowMs: int, dice: Dice, fuel: nat)
      returns (matched: bool, halt: Option<Halt>, thrown: Option<Failure>)
      requires Valid() && TrackerValid() && FsOk(fs)
      modifies this, Timer(), Tracked(), FsSet(fs)
      ensures Valid() && TrackerValid() && FsOk(fs)
      ensures matched <==> old(waitingStep).Some?
                           && FrameTokenParser.ExtractCmdUpper(Some(frame)) == Some(old(waitingStep).value.expectedCmdUpper)
      ensures !matched ==> halt.None? && thrown.None? && Walk() == old(Walk()) && Rest() == old(Rest())
      ensures matched && old(waitTimeoutFuture).Some? ==> old(waitTimeoutFuture).value.cancelled
      ensures matched && eqp.None? ==>
        closed && stepIndex == old(stepIndex) + 1 && waitingStep.None? && waitTimeoutFuture.None?
      ensures matched && eqp.Some? ==> var r := Exec(plan, fs.Some?, old(stepIndex) + 1, old(loopIterationCount), fuel);
        && halt == Some(r.halt) && stepIndex == r.stepIndex && sent == old(sent) + Outbox(r.actions, eqp.value)
        && (waitingStep.Some? <==> r.halt.AtWait?)
    {
      var cmd := FrameTokenParser.ExtractCmdUpperScan(Some(frame));
      if waitingStep.None? {
        return false, None, None;
      }
      matched := cmd.Some? && waitingStep.value.expectedCmdUpper == cmd.value;
      if !matched {
        return false, None, None;
      }
      halt, thrown := CompleteWait(eqp, fs, nowMs, dice, fuel);
    }

    /** A matched WAIT: its timer is cancelled, it is no longer waited on, and the scenario moves on. */
    method CompleteWait(eqp: Option<EqpRuntime>, fs: Option<FaultState>, nowMs: int, dice: Dice, fuel: nat)
      returns (halt: Option<Halt>, thrown: Option<Failure>)
      requires Valid() && TrackerValid() && FsOk(fs)
      modifies this, Timer(), Tracked(), FsSet(fs)
      ensures Valid() && TrackerValid() && FsOk(fs)
      ensures old(waitTimeoutFuture).Some? ==> old(waitTimeoutFuture).value.cancelled
      ensures eqp.None? ==> closed && stepIndex == old(stepIndex) + 1 && waitingStep.None? && waitTimeoutFuture.None?
      ensures eqp.Some? ==> var r := Exec(plan, fs.Some?, old(stepIndex) + 1, old(loopIterationCount), fuel);
        && halt == Some(r.halt) && stepIndex == r.stepIndex && sent == old(sent) + Outbox(r.actions, eqp.value)
        && (waitingStep.Some? <==> r.halt.AtWait?)
    {
      LeaveWait();
      halt, thrown := Advance(eqp, fs, nowMs, dice, fuel);
    }

    /** The WAIT is over: its timer is cancelled, nothing is awaited and the scenario moves past it. */
    method LeaveWait()
      requires Valid()
      modifies this, Timer()
      ensures Valid()
      ensures old(waitTimeoutFuture).Some? ==> old(waitTimeoutFuture).value.cancelled
      ensures Rest() == old(Rest()).(waitingStep := None, waitTimeoutFuture := None)
      ensures Walk() == old(Walk()).(stepIndex := old(stepIndex) + 1)
    {
      CancelWaitTimeout();
      waitingStep := None;
      stepIndex := stepIndex + 1;
    }

    /** The channel went inactive: every emit and sleep callback stops, and the WAIT timer is cancelled. */
    method ChannelInactive()
      requires Valid()
      modifies this, Timer()
      ensures Valid()
      ensures old(waitTimeoutFuture).Some? ==> old(waitTimeoutFuture).value.cancelled
      ensures Rest() == old(Rest()).(emitStopped := true, waitTimeoutFuture := None)
      ensures Walk() == old(Walk())
    {
      emitStopped := true;
      CancelWaitTimeout();
    }

    /** An emit's send: the resolved payload goes to the sender, tagged with the emit. */
    method SendEmitPayload(id: nat, q: EqpRuntime, e: Step)
      requires e.Emit?
      modifies this`sent
      ensures sent == old(sent) + [Sent(EmitPayload(e, q), ByEmit(id))]
      ensures Walk() == old(Walk()).(sent := old(sent) + [Sent(EmitPayload(e, q), ByEmit(id))])
      ensures Rest() == old(Rest())
    {
      var resolved := ResolveTemplate(Some(e.template), q);
      sent := sent + [Sent(resolved.value, ByEmit(id))];
    }

    /**
     * A tick of a forever emit: unless emits are stopped or the channel is
     * inactive, it sends and schedules the next tick; the scenario never
     * moves past a forever emit.
     */
    method RunEmitForever(id: nat, q: EqpRuntime, e: Step, active: bool, dice: Dice) returns (thrown: Option<Failure>)
      requires Valid() && e.Emit? && id < nextEmitId && id !in emits
      modifies this
      ensures Valid()
      ensures old(emitStopped) || !active ==> thrown.None? && Walk() == old(Walk()) && Rest() == old(Rest())
      ensures !old(emitStopped) && active ==>
        && Walk() == old(Walk()).(sent := old(sent) + [Sent(EmitPayload(e, q), ByEmit(id))])
        && var d := TickDelay(e, dice);
          && (d.Ok? ==> thrown.None? && Rest() == old(Rest()).(pending := old(pending) + [EmitForeverTick(id, q, e, d.value)]))
          && (d.Err? ==> thrown == Some(d.error) && Rest() == old(Rest()))
    {
      if emitStopped || !active {
        return None;
      }
      ghost var p0, s0 := pending, sent;
      SendEmitPayload(id, q, e);
      var d := TickDelay(e, dice);
      var added := if d.Ok? then [EmitForeverTick(id, q, e, d.value)] else [];
      pending := pending + added;
      ForeverRunKeeps(plan.steps, waitingStep, emits, nextEmitId, p0, s0, closeScheduled, id, EmitPayload(e, q), added);
      thrown := if d.Err? then Some(d.error) else None;
      if d.Err? {
        assert pending == p0;
      }
    }

    /**
     * A tick of a finite INTERVAL emit: unless stopped, it sends and
     * lowers the remaining count; while sends remain it schedules the next
     * tick, and the tick that makes the last send moves the scenario on.
     */
    method RunEmitFinite(id: nat, q: EqpRuntime, e: Step, active: bool, eqp: Option<EqpRuntime>,
                         fs: Option<FaultState>, nowMs: int, dice: Dice, fuel: nat)
      returns (advanced: bool, thrown: Option<Failure>)
      requires Valid() && TrackerValid() && FsOk(fs) && e.Emit?
      requires id in emits && emits[id].FiniteLeft? && emits[id].remaining >= 1 && CountPending(pending, id) == 0
      modifies this, Tracked(), FsSet(fs)
      ensures Valid() && TrackerValid() && FsOk(fs)
      ensures old(emitStopped) || !active ==> !advanced && thrown.None? && Walk() == old(Walk()) && Rest() == old(Rest())
      ensures !old(emitStopped) && active ==>
        && (advanced <==> old(emits[id].remaining) - 1 <= 0)
        && (advanced ==> id in emits && CountSent(sent, id) == emits[id].total && CountPending(pending, id) == 0)
        && (advanced && eqp.Some? ==>
              stepIndex == Exec(plan, fs.Some?, old(stepIndex) + 1, old(loopIterationCount), fuel).stepIndex)
        && (!advanced ==>
              && emits == old(emits)[id := FiniteLeft(old(emits[id].remaining) - 1, old(emits[id].total))]
              && Walk() == old(Walk()).(sent := old(sent) + [Sent(EmitPayload(e, q), ByEmit(id))])
              && var d := TickDelay(e, dice);
                && (d.Ok? ==> thrown.None? && pending == old(pending) + [EmitFiniteTick(id, q, e, d.value)])
                && (d.Err? ==> thrown == Some(d.error) && pending == old(pending)))
      ensures started == old(started) && emitStopped == old(emitStopped)
    {
      if emitStopped || !active {
        return false, None;
      }
      var last;
      last, thrown := FiniteTick(id, q, e, dice);
      if !last {
        return false, thrown;
      }
      thrown := FinishEmit(id, eqp, fs, nowMs, dice, fuel);
      return true, thrown;
    }

    /** The send and count of an INTERVAL tick, with the next tick scheduled while sends remain. */
    method FiniteTick(id: nat, q: EqpRuntime, e: Step, dice: Dice) returns (last: bool, thrown: Option<Failure>)
      requires Valid() && e.Emit?
      requires id in emits && emits[id].FiniteLeft? && emits[id].remaining >= 1 && CountPending(pending, id) == 0
      modifies this
      ensures Valid()
      ensures last <==> old(emits[id].remaining) - 1 <= 0
      ensures last ==> thrown.None? && id in emits && CountSent(sent, id) == emits[id].total && CountPending(pending, id) == 0
      ensures emits == old(emits)[id := FiniteLeft(old(emits[id].remaining) - 1, old(emits[id].total))]
      ensures Walk() == old(Walk()).(sent := old(sent) + [Sent(EmitPayload(e, q), ByEmit(id))])
      ensures Rest().(pending := old(pending), emits := old(emits)) == old(Rest())
      ensures last ==> pending == old(pending)
      ensures !last ==> var d := TickDelay(e, dice);
        && (d.Ok? ==> thrown.None? && pending == old(pending) + [EmitFiniteTick(id, q, e, d.value)])
        && (d.Err? ==> thrown == Some(d.error) && pending == old(pending))
    {
      last := CountDown(id, q, e);
      if last {
        return true, None;
      }
      thrown := ScheduleFiniteTick(id, q, e, dice);
    }

    /** Sends for an INTERVAL emit and lowers its remaining count; `last` when none remain. */
    method CountDown(id: nat, q: EqpRuntime, e: Step) returns (last: bool)
      requires Valid() && e.Emit?
      requires id in emits && emits[id].FiniteLeft? && emits[id].remaining >= 1 && CountPending(pending, id) == 0
      modifies this
      ensures Valid()
      ensures last <==> old(emits[id].remaining) - 1 <= 0
      ensures last ==> id in emits && CountSent(sent, id) == emits[id].total
      ensures emits == old(emits)[id := FiniteLeft(old(emits[id].remaining) - 1, old(emits[id].total))]
      ensures Walk() == old(Walk()).(sent := old(sent) + [Sent(EmitPayload(e, q), ByEmit(id))])
      ensures Rest().(emits := old(emits)) == old(Rest())
    {
      ghost var s0 := sent;
      SendEmitPayload(id, q, e);
      last := LowerCount(id, s0, EmitPayload(e, q));
    }

    /** Lowers emit `id`'s remaining count once its send `x` is recorded after `s0`; `last` when none remain. */
    method LowerCount(id: nat, ghost s0: seq<Sent>, ghost x: string) returns (last: bool)
      requires Inv(plan.steps, waitingStep, emits, nextEmitId, pending, s0, closeScheduled)
      requires id in emits && emits[id].FiniteLeft? && emits[id].remaining >= 1 && CountPending(pending, id) == 0
      requires sent == s0 + [Sent(x, ByEmit(id))]
      modifies this`emits
      ensures Valid()
      ensures last <==> old(emits[id].remaining) - 1 <= 0
      ensures last ==> id in emits && CountSent(sent, id) == emits[id].total
      ensures emits == old(emits)[id := FiniteLeft(old(emits[id].remaining) - 1, old(emits[id].total))]
    {
      FiniteSendKeeps(plan.steps, waitingStep, emits, nextEmitId, pending, s0, closeScheduled, id, x);
      SentByEmit(s0, x, id, id);
      var left := emits[id].remaining - 1;
      emits := emits[id := FiniteLeft(left, emits[id].total)];
      last := left <= 0;
    }

    /** Schedules an INTERVAL emit's next tick, unless the jitter draw throws. */
    method ScheduleFiniteTick(id: nat, q: EqpRuntime, e: Step, dice: Dice) returns (thrown: Option<Failure>)
      requires Valid() && e.Emit?
      requires id in emits && emits[id].FiniteLeft? && emits[id].remaining >= 1 && CountPending(pending, id) == 0
      modifies this`pending
      ensures Valid()
      ensures var d := TickDelay(e, dice);
        && (d.Ok? ==> thrown.None? && pending == old(pending) + [EmitFiniteTick(id, q, e, d.value)])
        && (d.Err? ==> thrown == Some(d.error) && pending == old(pending))
      ensures Rest().(pending := old(pending)) == old(Rest())
      ensures Walk() == old(Walk())
      ensures AllUntouched(id, emits, old(pending), sent, emits, pending, sent)
    {
      var d := TickDelay(e, dice);
      if d.Err? {
        return Some(d.error);
      }
      var t := EmitFiniteTick(id, q, e, d.value);
      FiniteTickKeeps(plan.steps, waitingStep, emits, nextEmitId, pending, sent, closeScheduled, t);
      assert emits[id := emits[id]] == emits;
      FreshEmitUntouched(id, emits, pending, sent, Some(emits[id]), [t]);
      pending := pending + [t];
      return None;
    }

    /**
     * A shot of a WINDOW emit: unless stopped, it sends and raises the
     * done count; only the shot whose count reaches the total moves the
     * scenario on, so the scenario moves on at most once per emit.
     */
    method RunEmitWindow(id: nat, q: EqpRuntime, e: Step, active: bool, eqp: Option<EqpRuntime>,
                         fs: Option<FaultState>, nowMs: int, dice: Dice, fuel: nat)
      returns (advanced: bool, thrown: Option<Failure>)
      requires Valid() && TrackerValid() && FsOk(fs) && e.Emit?
      requires id in emits && emits[id].WindowDone? && emits[id].done + CountPending(pending, id) < emits[id].total
      modifies this, Tracked(), FsSet(fs)
      ensures Valid() && TrackerValid() && FsOk(fs)
      ensures old(emitStopped) || !active ==> !advanced && thrown.None? && Walk() == old(Walk()) && Rest() == old(Rest())
      ensures !old(emitStopped) && active ==>
        && (advanced <==> old(emits[id].done) + 1 == old(emits[id].total))
        && (advanced ==> id in emits && CountSent(sent, id) == emits[id].total && CountPending(pending, id) == 0)
        && (advanced && eqp.Some? ==>
              stepIndex == Exec(plan, fs.Some?, old(stepIndex) + 1, old(loopIterationCount), fuel).stepIndex)
        && (!advanced ==>
              && thrown.None?
              && Walk() == old(Walk()).(sent := old(sent) + [Sent(EmitPayload(e, q), ByEmit(id))])
              && Rest() == old(Rest()).(emits := old(emits)[id := WindowDone(old(emits[id].done) + 1, old(emits[id].total))]))
      ensures started == old(started) && emitStopped == old(emitStopped)
    {
      if emitStopped || !active {
        return false, None;
      }
      var last := WindowTick(id, q, e);
      if !last {
        return false, None;
      }
      thrown := FinishEmit(id, eqp, fs, nowMs, dice, fuel);
      return true, thrown;
    }

    /** After an emit's last send the walk resumes past the emit; the emit's counts stay as they were. */
    method FinishEmit(id: nat, eqp: Option<EqpRuntime>, fs: Option<FaultState>, nowMs: int, dice: Dice, fuel: nat)
      returns (thrown: Option<Failure>)
      requires Valid() && TrackerValid() && FsOk(fs)
      requires id in emits && CountSent(sent, id) == emits[id].total && CountPending(pending, id) == 0
      modifies this, Tracked(), FsSet(fs)
      ensures Valid() && TrackerValid() && FsOk(fs)
      ensures id in emits && CountSent(sent, id) == emits[id].total && CountPending(pending, id) == 0
      ensures eqp.Some? ==>
        stepIndex == Exec(plan, fs.Some?, old(stepIndex) + 1, old(loopIterationCount), fuel).stepIndex
      ensures started == old(started) && emitStopped == old(emitStopped)
    {
      var _, th := Resume(eqp, fs, nowMs, dice, fuel);
      assert Untouched(id, old(emits), old(pending), old(sent), emits, pending, sent);
      thrown := th;
    }

    /** The send and count of a WINDOW shot; `last` when the count reaches the total. */
    method WindowTick(id: nat, q: EqpRuntime, e: Step) returns (last: bool)
      requires Valid() && e.Emit?
      requires id in emits && emits[id].WindowDone? && emits[id].done + CountPending(pending, id) < emits[id].total
      modifies this
      ensures Valid()
      ensures last <==> old(emits[id].done) + 1 == old(emits[id].total)
      ensures last ==> id in emits && CountSent(sent, id) == emits[id].total && CountPending(pending, id) == 0
      ensures Walk() == old(Walk()).(sent := old(sent) + [Sent(EmitPayload(e, q), ByEmit(id))])
      ensures Rest() == old(Rest()).(emits := old(emits)[id := WindowDone(old(emits[id].done) + 1, old(emits[id].total))])
    {
      ghost var s0 := sent;
      SendEmitPayload(id, q, e);
      last := RaiseDone(id, s0, EmitPayload(e, q));
    }

    /** Raises WINDOW emit `id`'s done count once its send `x` is recorded after `s0`; `last` at the total. */
    method RaiseDone(id: nat, ghost s0: seq<Sent>, ghost x: string) returns (last: bool)
      requires Inv(plan.steps, waitingStep, emits, nextEmitId, pending, s0, closeScheduled)
      requires id in emits && emits[id].WindowDone? && emits[id].done + CountPending(pending, id) < emits[id].total
      requires sent == s0 + [Sent(x, ByEmit(id))]
      modifies this`emits
      ensures Valid()
      ensures last <==> old(emits[id].done) + 1 == old(emits[id].total)
      ensures last ==> id in emits && CountSent(sent, id) == emits[id].total && CountPending(pending, id) == 0
      ensures emits == old(emits)[id := WindowDone(old(emits[id].done) + 1, old(emits[id].total))]
    {
      WindowRunKeeps(plan.steps, waitingStep, emits, nextEmitId, pending, s0, closeScheduled, id, x);
      SentByEmit(s0, x, id, id);
      var done := emits[id].done + 1;
      emits := emits[id := WindowDone(done, emits[id].total)];
      last := done == emits[id].total;
    }

    /** The end of a SLEEP: unless stopped, the scenario moves past it. */
    method RunSleep(active: bool, eqp: Option<EqpRuntime>, fs: Option<FaultState>, nowMs: int, dice: Dice, fuel: nat)
      returns (advanced: bool, thrown: Option<Failure>)
      requires Valid() && TrackerValid() && FsOk(fs)
      modifies this, Tracked(), FsSet(fs)
      ensures Valid() && TrackerValid() && FsOk(fs)
      ensures advanced <==> !old(emitStopped) && active
      ensures !advanced ==> thrown.None? && Walk() == old(Walk()) && Rest() == old(Rest())
      ensures advanced && eqp.None? ==> closed && stepIndex == old(stepIndex) + 1
      ensures advanced && eqp.Some? ==> var r := Exec(plan, fs.Some?, old(stepIndex) + 1, old(loopIterationCount), fuel);
        stepIndex == r.stepIndex && sent == old(sent) + Outbox(r.actions, eqp.value)
    {
      if emitStopped || !active {
        return false, None;
      }
      var _, th := Resume(eqp, fs, nowMs, dice, fuel);
      return true, th;
    }

    /**
     * Takes the `k`-th scheduled task off the queue. A finite emit's task
     * leaves its counter with a send still owed.
     */
    method TakeTask(k: nat) returns (t: Task)
      requires Valid() && k < |pending|
      modifies this
      ensures Valid()
      ensures t == old(pending[k]) && Rest() == old(Rest()).(pending := old(pending[..k] + pending[k + 1..]))
      ensures Walk() == old(Walk())
      ensures t.EmitForeverTick? ==> t.emitId < nextEmitId && t.emitId !in emits && t.emit.Emit?
      ensures t.EmitFiniteTick? ==>
        && t.emit.Emit? && t.emitId in emits && emits[t.emitId].FiniteLeft?
        && emits[t.emitId].remaining >= 1 && CountPending(pending, t.emitId) == 0
      ensures t.EmitWindowShot? ==>
        && t.emit.Emit? && t.emitId in emits && emits[t.emitId].WindowDone?
        && emits[t.emitId].done + CountPending(pending, t.emitId) < emits[t.emitId].total
    {
      t := pending[k];
      assert TaskOk(t, emits, nextEmitId);
      RemoveKeeps(plan.steps, waitingStep, emits, nextEmitId, pending, sent, closeScheduled, k);
      if t.EmitFiniteTick? || t.EmitWindowShot? {
        RemoveCounts(pending, k, t.emitId);
        assert Budget(emits[t.emitId], CountPending(pending, t.emitId), CountSent(sent, t.emitId));
      }
      pending := pending[..k] + pending[k + 1..];
    }

    /**
     * The event loop runs the `k`-th scheduled task, with the channel
     * `active` or not. A WAIT timer closes the channel unless it was
     * cancelled; a disconnect or completion close closes it if it is
     * still active; emit and sleep callbacks do nothing once emits are
     * stopped or the channel is inactive. A finite emit moves the
     * scenario on only with its last send, after which none of its tasks
     * remain; a forever emit never does.
     */
    method RunTask(k: nat, active: bool, eqp: Option<EqpRuntime>, fs: Option<FaultState>, nowMs: int, dice: Dice, fuel: nat)
      returns (advanced: bool, thrown: Option<Failure>)
      requires Valid() && TrackerValid() && FsOk(fs) && k < |pending|
      modifies this, Tracked(), FsSet(fs)
      ensures Valid() && TrackerValid() && FsOk(fs)
      ensures var t := old(pending[k]);
        && ((t.EmitFiniteTick? || t.EmitWindowShot?) && advanced ==>
              t.emitId in emits && CountSent(sent, t.emitId) == emits[t.emitId].total
              && CountPending(pending, t.emitId) == 0)
        && (advanced ==> t.SleepDone? || t.EmitFiniteTick? || t.EmitWindowShot?)
        && (t.WaitTimeout? ==> Walk() == old(Walk()) && (closed <==> old(closed) || !t.future.cancelled))
        && (t.DisconnectTask? || t.CloseTask? ==> Walk() == old(Walk()) && (closed <==> old(closed) || active))
        && (t.EmitForeverTick? ==> stepIndex == old(stepIndex))
        && ((t.SleepDone? || t.EmitForeverTick? || t.EmitFiniteTick? || t.EmitWindowShot?) && (old(emitStopped) || !active) ==>
              !advanced && Walk() == old(Walk()))
        && (advanced && eqp.Some? ==>
              stepIndex == Exec(plan, fs.Some?, old(stepIndex) + 1, old(loopIterationCount), fuel).stepIndex)
    {
      var t := TakeTask(k);
      advanced, thrown := RunTaken(t, active, eqp, fs, nowMs, dice, fuel);
    }

    /** Runs task `t` once it is off the queue. */
    method RunTaken(t: Task, active: bool, eqp: Option<EqpRuntime>, fs: Option<FaultState>, nowMs: int, dice: Dice, fuel: nat)
      returns (advanced: bool, thrown: Option<Failure>)
      requires Valid() && TrackerValid() && FsOk(fs)
      requires t.EmitForeverTick? ==> t.emitId < nextEmitId && t.emitId !in emits && t.emit.Emit?
      requires t.EmitFiniteTick? ==>
        && t.emit.Emit? && t.emitId in emits && emits[t.emitId].FiniteLeft?
        && emits[t.emitId].remaining >= 1 && CountPending(pending, t.emitId) == 0
      requires t.EmitWindowShot? ==>
        && t.emit.Emit? && t.emitId in emits && emits[t.emitId].WindowDone?
        && emits[t.emitId].done + CountPending(pending, t.emitId) < emits[t.emitId].total
      modifies this, Tracked(), FsSet(fs)
      ensures Valid() && TrackerValid() && FsOk(fs)
      ensures (t.EmitFiniteTick? || t.EmitWindowShot?) && advanced ==>
        t.emitId in emits && CountSent(sent, t.emitId) == emits[t.emitId].total && CountPending(pending, t.emitId) == 0
      ensures advanced ==> t.SleepDone? || t.EmitFiniteTick? || t.EmitWindowShot?
      ensures t.WaitTimeout? ==> Walk() == old(Walk()) && (closed <==> old(closed) || !t.future.cancelled)
      ensures t.DisconnectTask? || t.CloseTask? ==> Walk() == old(Walk()) && (closed <==> old(closed) || active)
      ensures t.EmitForeverTick? ==> stepIndex == old(stepIndex)
      ensures (t.SleepDone? || t.EmitForeverTick? || t.EmitFiniteTick? || t.EmitWindowShot?) && (old(emitStopped) || !active) ==>
        !advanced && Walk() == old(Walk())
      ensures advanced && eqp.Some? ==>
        stepIndex == Exec(plan, fs.Some?, old(stepIndex) + 1, old(loopIterationCount), fuel).stepIndex
    {
      advanced, thrown := false, None;
      if t.WaitTimeout? || t.DisconnectTask? || t.CloseTask? {
        RunCloser(t, active);
      } else if t.StartTask? {
        var _, th := StartIfNeeded(eqp, fs, nowMs, dice, fuel);
        thrown := th;
      } else if t.SleepDone? {
        advanced, thrown := RunSleep(active, eqp, fs, nowMs, dice, fuel);
      } else {
        advanced, thrown := RunEmitTask(t, active, eqp, fs, nowMs, dice, fuel);
      }
    }

    /**
     * A task that closes the channel: the WAIT timer unless it was
     * cancelled, a disconnect or a completion close only while the
     * channel is active.
     */
    method RunCloser(t: Task, active: bool)
      requires Valid() && (t.WaitTimeout? || t.DisconnectTask? || t.CloseTask?)
      modifies this
      ensures Valid()
      ensures t.WaitTimeout? ==> (closed <==> old(closed) || !t.future.cancelled)
      ensures !t.WaitTimeout? ==> (closed <==> old(closed) || active)
      ensures Rest() == old(Rest()).(closed := closed) && Walk() == old(Walk())
    {
      if t.WaitTimeout? && !t.future.cancelled {
        closed := true;
      } else if !t.WaitTimeout? && active {
        closed := true;
      }
    }

    /** An emit's task, as taken off the queue. */
    method RunEmitTask(t: Task, active: bool, eqp: Option<EqpRuntime>, fs: Option<FaultState>, nowMs: int, dice: Dice, fuel: nat)
      returns (advanced: bool, thrown: Option<Failure>)
      requires Valid() && TrackerValid() && FsOk(fs)
      requires t.EmitForeverTick? || t.EmitFiniteTick? || t.EmitWindowShot?
      requires t.EmitForeverTick? ==> t.emitId < nextEmitId && t.emitId !in emits && t.emit.Emit?
      requires t.EmitFiniteTick? ==>
        && t.emit.Emit? && t.emitId in emits && emits[t.emitId].FiniteLeft?
        && emits[t.emitId].remaining >= 1 && CountPending(pending, t.emitId) == 0
      requires t.EmitWindowShot? ==>
        && t.emit.Emit? && t.emitId in emits && emits[t.emitId].WindowDone?
        && emits[t.emitId].done + CountPending(pending, t.emitId) < emits[t.emitId].total
      modifies this, Tracked(), FsSet(fs)
      ensures Valid() && TrackerValid() && FsOk(fs)
      ensures advanced ==>
        && !t.EmitForeverTick?
        && t.emitId in emits && CountSent(sent, t.emitId) == emits[t.emitId].total
        && CountPending(pending, t.emitId) == 0
      ensures t.EmitForeverTick? ==> stepIndex == old(stepIndex)
      ensures old(emitStopped) || !active ==> !advanced && Walk() == old(Walk())
      ensures advanced && eqp.Some? ==>
        stepIndex == Exec(plan, fs.Some?, old(stepIndex) + 1, old(loopIterationCount), fuel).stepIndex
    {
      advanced := false;
      if t.EmitForeverTick? {
        thrown := RunEmitForever(t.emitId, t.eqp, t.emit, active, dice);
      } else if t.EmitFiniteTick? {
        advanced, thrown := RunEmitFinite(t.emitId, t.eqp, t.emit, active, eqp, fs, nowMs, dice, fuel);
      } else {
        advanced, thrown := RunEmitWindow(t.emitId, t.eqp, t.emit, active, eqp, fs, nowMs, dice, fuel);
      }
    }
  }
}
