/**
 * The compiled scenario: the sealed family of `ScenarioStep` classes as
 * one datatype, and `ScenarioPlan`. Each Java constructor becomes a
 * function returning the step or the exception it throws; `ValidStep`
 * collects the invariants the constructors establish. Java's nullable
 * boxed fields (`Long`, `Integer`, `Boolean`) are `Option`s.
 */
module ScenarioSteps {
  import opened Wrappers
  import opened JavaText

  datatype EmitMode = INTERVAL | WINDOW

  /** `EmitStep.Count`: a fixed number of emissions, or the `CountForever` singleton. */
  datatype Count = Fixed(value: int) | Forever

  datatype FaultType = DELAY | FRAGMENT | DROP | CORRUPT | DISCONNECT | CLEAR

  datatype ScopeMode = DURATION | NEXT

  /**
   * The parameters of a `FaultStep`. `rate` is kept as the text given to
   * `Double.parseDouble`.
   */
  datatype Fault = Fault(
    faultType: FaultType,
    scopeMode: ScopeMode,
    durationMs: Option<int>,
    nextCount: Option<int>,
    delayMs: Option<int>,
    jitterMs: Option<int>,
    minParts: Option<int>,
    maxParts: Option<int>,
    rate: Option<string>,
    protectFraming: Option<bool>,
    afterMs: Option<int>,
    downMs: Option<int>)

  datatype Step =
    | WaitCmd(expectedCmdUpper: string, timeoutOverrideSec: Option<int>)
    | Send(payloadTemplate: string)
    | Emit(mode: EmitMode, intervalOrWindowMs: int, count: Count, template: string, emitJitterMs: Option<int>)
    | Sleep(sleepMs: int)
    | Label(name: string)
    | Goto(target: string)
    | Loop(loopCount: int, gotoLabel: string)
    | FaultStep(fault: Fault)

  /** A label as the label constructors store it: trimmed and not empty. */
  predicate ValidLabel(l: string) {
    l != [] && Trim(l) == l
  }

  /** What the constructors guarantee about a step. */
  predicate ValidStep(s: Step) {
    match s
    case Emit(_, ms, count, _, _) => ms > 0 && (count.Fixed? ==> count.value > 0)
    case Sleep(ms) => ms >= 0
    case Label(l) => ValidLabel(l)
    case Goto(l) => ValidLabel(l)
    case Loop(n, l) => n > 0 && ValidLabel(l)
    case _ => true
  }

  // ---------------------------------------------------------------------
  // Constructors

  /** `new CountFixed(value)`. */
  function NewCountFixed(value: int): (r: Result<Count>)
    ensures r.Ok? <==> value > 0
    ensures r.Ok? ==> r.value == Fixed(value)
    ensures r.Err? ==> r.error == IllegalArgument
  {
    if value <= 0 then Err(IllegalArgument) else Ok(Fixed(value))
  }

  /** `new EmitStep(mode, intervalOrWindowMs, count, payloadTemplate, jitterMs)`. */
  function NewEmit(mode: Option<EmitMode>, intervalOrWindowMs: int, count: Option<Count>,
                   payloadTemplate: Option<string>, jitterMs: Option<int>): (r: Result<Step>)
    ensures r.Ok? <==> mode.Some? && intervalOrWindowMs > 0 && count.Some? && payloadTemplate.Some?
    ensures r.Ok? ==> r.value == Emit(mode.value, intervalOrWindowMs, count.value, payloadTemplate.value, jitterMs)
    ensures mode.None? ==> r == Err(NullPointer)
    ensures mode.Some? && intervalOrWindowMs <= 0 ==> r == Err(IllegalArgument)
  {
    if mode.None? then Err(NullPointer)
    else if intervalOrWindowMs <= 0 then Err(IllegalArgument)
    else if count.None? || payloadTemplate.None? then Err(NullPointer)
    else Ok(Emit(mode.value, intervalOrWindowMs, count.value, payloadTemplate.value, jitterMs))
  }

  /** `new SleepStep(sleepMs)`: zero is accepted. */
  function NewSleep(sleepMs: int): (r: Result<Step>)
    ensures r.Ok? <==> sleepMs >= 0
    ensures r.Ok? ==> r.value == Sleep(sleepMs)
    ensures r.Err? ==> r.error == IllegalArgument
  {
    if sleepMs < 0 then Err(IllegalArgument) else Ok(Sleep(sleepMs))
  }

  /** The shared check of `LabelStep`, `GotoStep` and `LoopStep`: non-null, stored trimmed, not blank. */
  function TrimmedLabel(l: Option<string>): (r: Result<string>)
    ensures l.None? ==> r == Err(NullPointer)
    ensures l.Some? ==> (r.Ok? <==> Trim(l.value) != [])
    ensures r.Ok? ==> r.value == Trim(l.value) && ValidLabel(r.value)
    ensures r.Err? ==> r.error in {NullPointer, IllegalArgument}
  {
    if l.None? then Err(NullPointer)
    else
      var t := Trim(l.value);
      TrimIdempotent(l.value);
      if t == [] then Err(IllegalArgument) else Ok(t)
  }

  /** `new LabelStep(label)`. */
  function NewLabel(l: Option<string>): (r: Result<Step>)
    ensures r.Ok? <==> l.Some? && Trim(l.value) != []
    ensures r.Ok? ==> r.value == Label(Trim(l.value)) && ValidStep(r.value)
  {
    var t := TrimmedLabel(l);
    if t.Err? then Err(t.error) else Ok(Label(t.value))
  }

  /** `new GotoStep(label)`. */
  function NewGoto(l: Option<string>): (r: Result<Step>)
    ensures r.Ok? <==> l.Some? && Trim(l.value) != []
    ensures r.Ok? ==> r.value == Goto(Trim(l.value)) && ValidStep(r.value)
  {
    var t := TrimmedLabel(l);
    if t.Err? then Err(t.error) else Ok(Goto(t.value))
  }

  /** `new LoopStep(count, gotoLabel)`: the count is checked before the label. */
  function NewLoop(count: int, gotoLabel: Option<string>): (r: Result<Step>)
    ensures r.Ok? <==> count > 0 && gotoLabel.Some? && Trim(gotoLabel.value) != []
    ensures r.Ok? ==> r.value == Loop(count, Trim(gotoLabel.value)) && ValidStep(r.value)
    ensures count <= 0 ==> r == Err(IllegalArgument)
  {
    if count <= 0 then Err(IllegalArgument)
    else
      var t := TrimmedLabel(gotoLabel);
      if t.Err? then Err(t.error) else Ok(Loop(count, t.value))
  }

  /** `new WaitCmdStep(expectedCmdUpper, timeoutOverrideSec)`: stored as given. */
  function NewWaitCmd(expectedCmdUpper: Option<string>, timeoutOverrideSec: Option<int>): (r: Result<Step>)
    ensures r.Ok? <==> expectedCmdUpper.Some?
    ensures r.Ok? ==> r.value == WaitCmd(expectedCmdUpper.value, timeoutOverrideSec)
  {
    if expectedCmdUpper.None? then Err(NullPointer) else Ok(WaitCmd(expectedCmdUpper.value, timeoutOverrideSec))
  }

  /** `new SendStep(payloadTemplate)`: stored verbatim, even when empty. */
  function NewSend(payloadTemplate: Option<string>): (r: Result<Step>)
    ensures r.Ok? <==> payloadTemplate.Some?
    ensures r.Ok? ==> r.value == Send(payloadTemplate.value)
  {
    if payloadTemplate.None? then Err(NullPointer) else Ok(Send(payloadTemplate.value))
  }

  /** `new FaultStep(type, scopeMode, ...)`: only type and scope are checked. */
  function NewFault(faultType: Option<FaultType>, scopeMode: Option<ScopeMode>, durationMs: Option<int>,
                    nextCount: Option<int>, delayMs: Option<int>, jitterMs: Option<int>,
                    minParts: Option<int>, maxParts: Option<int>, rate: Option<string>,
                    protectFraming: Option<bool>, afterMs: Option<int>, downMs: Option<int>): (r: Result<Step>)
    ensures r.Ok? <==> faultType.Some? && scopeMode.Some?
    ensures r.Ok? ==> r.value == FaultStep(Fault(faultType.value, scopeMode.value, durationMs, nextCount,
      delayMs, jitterMs, minParts, maxParts, rate, protectFraming, afterMs, downMs))
  {
    if faultType.None? || scopeMode.None? then Err(NullPointer)
    else Ok(FaultStep(Fault(faultType.value, scopeMode.value, durationMs, nextCount,
      delayMs, jitterMs, minParts, maxParts, rate, protectFraming, afterMs, downMs)))
  }

  // ---------------------------------------------------------------------
  // ScenarioPlan

  /** An immutable plan: the lists and map are values, so no caller can change them. */
  datatype Plan = Plan(sourceFile: string, steps: seq<Step>, labelIndex: map<string, int>)

  /** `new ScenarioPlan(sourceFile, steps, labelIndex)`. */
  function NewPlan(sourceFile: Option<string>, steps: Option<seq<Step>>, labelIndex: Option<map<string, int>>): (r: Result<Plan>)
    ensures r.Ok? <==> sourceFile.Some? && steps.Some? && labelIndex.Some?
    ensures r.Ok? ==> r.value == Plan(sourceFile.value, steps.value, labelIndex.value)
  {
    if sourceFile.None? || steps.None? || labelIndex.None? then Err(NullPointer)
    else Ok(Plan(sourceFile.value, steps.value, labelIndex.value))
  }
}
