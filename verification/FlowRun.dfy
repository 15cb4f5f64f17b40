/** A run of a flow as values: what one step can end as, the scheduler's variables, how
    recording and launching change them, and what every such change keeps
    (internal/flow/schedule.go, with runStep of run.go as an abstract ending). */
module FlowRun {
  import opened Wrappers
  import opened FlowNeeds
  import opened FlowGraph
  import opened FlowValidation

  // ---------------------------------------------------------------- one step's ending

  datatype Status = StatusOK | StatusFailed | StatusUnresolved | StatusTimeout

  function StatusRank(s: Status): nat {
    match s
    case StatusOK => 0
    case StatusFailed => 1
    case StatusUnresolved => 2
    case StatusTimeout => 3
  }

  datatype Reason = Started | BlockedBy(dependency: string) | RunStopped | NeedFailed(error: NeedError) | NoCommand

  datatype StepResult = StepResult(
    name: string, exitCode: int, timedOut: bool, notStarted: bool, skipped: bool, reason: Reason)

  /** A step's result together with its raw output. */
  datatype Outcome = Outcome(name: string, result: StepResult, raw: Output)

  /** How a launched step's process ended; NoProcess when its command could not be built. */
  datatype Ending = Ended(raw: Output, timedOut: bool) | NoProcess

  /** What running a step with its resolved values gives, when nothing cuts it short. */
  type Runner = (Step, map<string, string>) -> Ending

  datatype Plan = Plan(flow: seq<Step>, run: Runner)

  function RunOutcome(step: Step, e: Ending): Outcome {
    match e
    case Ended(raw, timedOut) =>
      Outcome(step.name, StepResult(step.name, raw.exitCode, timedOut, false, false, Started), raw)
    case NoProcess => Outcome(step.name, StepResult(step.name, -1, false, true, false, NoCommand), NO_OUTPUT)
  }

  function SkippedOutcome(step: Step, reason: Reason): Outcome {
    Outcome(step.name, StepResult(step.name, -1, false, true, true, reason), NO_OUTPUT)
  }

  function UnresolvedOutcome(step: Step, error: NeedError): Outcome {
    Outcome(step.name, StepResult(step.name, -1, false, true, false, NeedFailed(error)), NO_OUTPUT)
  }

  /** The status a step's ending asks for. */
  function Severity(step: Step, r: StepResult): Status {
    if r.timedOut then StatusTimeout
    else if r.notStarted && !r.skipped then StatusUnresolved
    else if r.skipped then StatusOK
    else if r.exitCode != 0 && !step.allowFailure then StatusFailed
    else StatusOK
  }

  /** Whether a step's ending stops the steps that depend on it. A timeout does not: it
      stops the run instead. */
  predicate Blocks(step: Step, r: StepResult) {
    !r.timedOut && (r.notStarted || r.skipped || (r.exitCode != 0 && !step.allowFailure))
  }

  /** The step of that name, the first in file order. */
  function Find(flow: seq<Step>, name: string): (step: Step)
    requires name in Names(flow)
    ensures step in flow && step.name == name
  {
    if flow[0].name == name then flow[0]
    else
      assert Names(flow) == {flow[0].name} + Names(flow[1..]) by { NamesOfTail(flow); }
      Find(flow[1..], name)
  }

  lemma NamesOfTail(flow: seq<Step>)
    requires flow != []
    ensures Names(flow) == {flow[0].name} + Names(flow[1..])
  {
    forall n | n in Names(flow) ensures n in {flow[0].name} + Names(flow[1..]) {
      var i :| 0 <= i < |flow| && flow[i].name == n;
      if i > 0 { assert flow[1..][i - 1].name == n; }
    }
  }

  lemma FindIsExact(flow: seq<Step>, i: nat)
    requires UniqueNames(flow) && i < |flow|
    ensures flow[i].name in Names(flow) && Find(flow, flow[i].name) == flow[i]
  {
    var step := Find(flow, flow[i].name);
    var j :| 0 <= j < |flow| && flow[j] == step;
    assert j == i;
  }

  // ---------------------------------------------------------------- what a step must end as

  function Deps(flow: seq<Step>, name: string): seq<string> {
    Edges(DependenciesOf(flow), name)
  }

  /** The steps whose output some step asks for. */
  function Referenced(flow: seq<Step>): set<string> {
    set i, n | 0 <= i < |flow| && n in NeededSteps(flow[i]) :: n
  }

  function OutputsOf(flow: seq<Step>, settled: map<string, Outcome>): map<string, Output> {
    map n | n in settled && n in Referenced(flow) :: settled[n].raw
  }

  predicate BlockedIn(flow: seq<Step>, settled: map<string, Outcome>, name: string) {
    name in settled && name in Names(flow) && Blocks(Find(flow, name), settled[name].result)
  }

  /** The first of the names that blocks. */
  function FirstBlocked(flow: seq<Step>, names: seq<string>, settled: map<string, Outcome>): (d: Option<string>)
    ensures d.Some? ==> d.value in names && BlockedIn(flow, settled, d.value)
    ensures d.None? ==> forall n :: n in names ==> !BlockedIn(flow, settled, n)
  {
    if names == [] then None
    else if BlockedIn(flow, settled, names[0]) then Some(names[0])
    else FirstBlocked(flow, names[1..], settled)
  }

  /** What a step ends as, given only how the steps it depends on ended: skipped under
      the first that blocks, unresolved when a value cannot be read, or else run. */
  function Expected(p: Plan, settled: map<string, Outcome>, name: string): Outcome
    requires name in Names(p.flow)
  {
    var step := Find(p.flow, name);
    match FirstBlocked(p.flow, Deps(p.flow, name), settled)
    case Some(d) => SkippedOutcome(step, BlockedBy(d))
    case None =>
      match ResolveNeeds(step, OutputsOf(p.flow, settled))
      case Err(e) => UnresolvedOutcome(step, e)
      case Ok(values) => RunOutcome(step, p.run(step, values))
  }

  ghost predicate AgreeOn(names: seq<string>, a: map<string, Outcome>, b: map<string, Outcome>) {
    forall n :: n in names ==> (n in a <==> n in b) && (n in a ==> a[n] == b[n])
  }

  lemma {:induction false} SameFirstBlocked(
    flow: seq<Step>, names: seq<string>, a: map<string, Outcome>, b: map<string, Outcome>)
    requires AgreeOn(names, a, b)
    ensures FirstBlocked(flow, names, a) == FirstBlocked(flow, names, b)
  {
    if names != [] {
      assert names[0] in names;
      assert forall n :: n in names[1..] ==> n in names;
      SameFirstBlocked(flow, names[1..], a, b);
    }
  }

  /** What blocks a step and what its values are is settled by its own dependencies. */
  lemma ReadsOnlyDeps(flow: seq<Step>, a: map<string, Outcome>, b: map<string, Outcome>, name: string)
    requires Accepted(flow) && name in Names(flow)
    requires AgreeOn(Deps(flow, name), a, b)
    ensures FirstBlocked(flow, Deps(flow, name), a) == FirstBlocked(flow, Deps(flow, name), b)
    ensures ResolveNeeds(Find(flow, name), OutputsOf(flow, a)) == ResolveNeeds(Find(flow, name), OutputsOf(flow, b))
  {
    hide ResolveNeeds;
    hide NeededSteps;
    hide Accepted;
    hide DependenciesOf;
    NeedsAreDeps(flow, name);
    SameFirstBlocked(flow, Deps(flow, name), a, b);
    ResolveReadsOnlyNeededSteps(Find(flow, name), OutputsOf(flow, a), OutputsOf(flow, b));
  }

  /** How a step ends is settled by its own dependencies and by nothing else in the run. */
  lemma ExpectedReadsOnlyDeps(p: Plan, a: map<string, Outcome>, b: map<string, Outcome>, name: string)
    requires Accepted(p.flow) && name in Names(p.flow)
    requires AgreeOn(Deps(p.flow, name), a, b)
    ensures Expected(p, a, name) == Expected(p, b, name)
  {
    hide ResolveNeeds;
    hide Accepted;
    hide Deps;
    hide FirstBlocked;
    hide Find;
    ReadsOnlyDeps(p.flow, a, b, name);
  }

  lemma NeedsAreDeps(flow: seq<Step>, name: string)
    requires Accepted(flow) && name in Names(flow)
    ensures forall d :: d in NeededSteps(Find(flow, name)) ==> d in Deps(flow, name)
    ensures NeededSteps(Find(flow, name)) <= Referenced(flow)
    ensures forall d :: d in Deps(flow, name) ==> d in Names(flow)
  {
    hide NeededSteps;
    hide DependenciesOf;
    hide Acyclic;
    var i :| 0 <= i < |flow| && flow[i].name == name;
    FindIsExact(flow, i);
    EdgesStayInside(flow, i);
  }

  // ---------------------------------------------------------------- the scheduler's variables

  /** The scheduler's fields, the goroutines it has in flight with the values they were
      given, and two records the proofs keep: every outcome so far and the most steps
      that were ever in flight at once. */
  datatype State = State(
    status: Status,
    steps: seq<StepResult>,
    outputs: map<string, Output>,
    done: set<string>,
    blocked: set<string>,
    started: set<string>,
    inflight: int,
    stopped: bool,
    running: map<string, map<string, string>>,
    settled: map<string, Outcome>,
    peak: int)

  const INITIAL := State(StatusOK, [], map[], {}, {}, {}, 0, false, map[], map[], 0)

  /** The one of two statuses that ranks higher. */
  function Worse(a: Status, b: Status): (s: Status)
    ensures s == a || s == b
    ensures StatusRank(s) >= StatusRank(a) && StatusRank(s) >= StatusRank(b)
  {
    if StatusRank(b) > StatusRank(a) then b else a
  }

  /** A status after a run of endings, each worsening it in turn. */
  function Worsened(status: Status, severities: seq<Status>): Status
    decreases |severities|
  {
    if severities == [] then status else Worsened(Worse(status, severities[0]), severities[1..])
  }

  lemma {:induction false} WorsenedIsWorst(status: Status, severities: seq<Status>)
    ensures var w := Worsened(status, severities);
            && (w == status || w in severities)
            && StatusRank(w) >= StatusRank(status)
            && forall s :: s in severities ==> StatusRank(w) >= StatusRank(s)
    decreases |severities|
  {
    if severities != [] {
      WorsenedIsWorst(Worse(status, severities[0]), severities[1..]);
      assert severities == [severities[0]] + severities[1..];
    }
  }

  /** A status that only worsens forgets the order: whatever order the same endings come
      in, and however often each, the run ends with one status. */
  lemma WorseningInAnyOrder(status: Status, a: seq<Status>, b: seq<Status>)
    requires forall s :: s in a <==> s in b
    ensures Worsened(status, a) == Worsened(status, b)
  {
    WorsenedIsWorst(status, a);
    WorsenedIsWorst(status, b);
  }

  /** record and judge. */
  function AfterRecord(flow: seq<Step>, s: State, out: Outcome): State
    requires out.name in Names(flow)
  {
    var step := Find(flow, out.name);
    State(
      Worse(s.status, Severity(step, out.result)),
      s.steps + [out.result],
      if out.name in Referenced(flow) then s.outputs[out.name := out.raw] else s.outputs,
      s.done + {out.name},
      if Blocks(step, out.result) then s.blocked + {out.name} else s.blocked,
      s.started + {out.name},
      s.inflight,
      s.stopped || out.result.timedOut,
      s.running,
      s.settled[out.name := out],
      s.peak)
  }

  /** launch, once the step's values are resolved. */
  function AfterStart(s: State, name: string, values: map<string, string>): State {
    s.(started := s.started + {name},
       inflight := s.inflight + 1,
       running := s.running[name := values],
       peak := if s.inflight + 1 > s.peak then s.inflight + 1 else s.peak)
  }

  /** collect, before the outcome is recorded. */
  function AfterArrival(s: State, name: string): State {
    s.(inflight := s.inflight - 1, running := s.running - {name})
  }

  predicate Ready(flow: seq<Step>, done: set<string>, name: string) {
    forall d :: d in Deps(flow, name) ==> d in done
  }

  // ---------------------------------------------------------------- what every change keeps

  /** Started steps are the finished ones and the ones in flight, which never overlap,
      and none started before what it depends on had finished. */
  ghost predicate Books(flow: seq<Step>, started: set<string>, done: set<string>, running: set<string>) {
    && started <= Names(flow)
    && started == done + running
    && done !! running
    && (forall n :: n in started ==> Ready(flow, done, n))
  }

  ghost predicate NamedApart(steps: seq<StepResult>) {
    forall i, j :: 0 <= i < j < |steps| ==> steps[i].name != steps[j].name
  }

  ghost predicate Has(steps: seq<StepResult>, name: string) {
    exists i :: 0 <= i < |steps| && steps[i].name == name
  }

  ghost predicate SelfNamed(settled: map<string, Outcome>) {
    forall n :: n in settled ==> settled[n].name == n && settled[n].result.name == n
  }

  ghost predicate Transcribes(steps: seq<StepResult>, settled: map<string, Outcome>) {
    forall i :: 0 <= i < |steps| ==> steps[i].name in settled && settled[steps[i].name].result == steps[i]
  }

  /** Every finished step is recorded once, with the result it ended with. */
  ghost predicate Recorded(steps: seq<StepResult>, settled: map<string, Outcome>) {
    && |steps| == |settled|
    && NamedApart(steps)
    && Transcribes(steps, settled)
    && SelfNamed(settled)
    && (forall n :: n in settled ==> Has(steps, n))
  }

  /** The status is the worst severity recorded. */
  ghost predicate IsWorst(flow: seq<Step>, settled: map<string, Outcome>, status: Status) {
    && (forall n :: n in settled && n in Names(flow) ==>
          StatusRank(Severity(Find(flow, n), settled[n].result)) <= StatusRank(status))
    && (status != StatusOK ==>
          exists n :: n in settled && n in Names(flow) && Severity(Find(flow, n), settled[n].result) == status)
  }

  ghost predicate AnyTimedOut(settled: map<string, Outcome>) {
    exists n :: n in settled && settled[n].result.timedOut
  }

  /** A step in flight was started with the values its dependencies left, and until a
      step times out every finished step ended as its dependencies made it. */
  ghost predicate Faithful(p: Plan, settled: map<string, Outcome>, running: map<string, map<string, string>>,
                           stopped: bool) {
    && (forall n :: n in running && n in Names(p.flow) ==>
          Expected(p, settled, n) == RunOutcome(Find(p.flow, n), p.run(Find(p.flow, n), running[n])))
    && (!stopped ==> forall n :: n in settled && n in Names(p.flow) ==> settled[n] == Expected(p, settled, n))
  }

  /** Every step a step depends on has ended without timing out or blocking it. */
  ghost predicate Clear(flow: seq<Step>, settled: map<string, Outcome>, name: string) {
    forall d :: d in Deps(flow, name) ==>
      d in settled && !settled[d].result.timedOut && !BlockedIn(flow, settled, d)
  }

  /** What a recorded outcome says of how it came about is so: a step that ran, or whose
      command could not be built, was clear and had its values; one under a blocker names
      the first; one refused because the run stopped is skipped under no blocker, and
      something timed out;
      one without its values was clear and names what is wrong with them. */
  ghost predicate Accounted(flow: seq<Step>, settled: map<string, Outcome>, name: string, out: Outcome)
    requires name in Names(flow)
  {
    var step := Find(flow, name);
    var values := ResolveNeeds(step, OutputsOf(flow, settled));
    match out.result.reason
    case Started => Clear(flow, settled, name) && values.Ok? && exists e :: out == RunOutcome(step, e)
    case NoCommand => Clear(flow, settled, name) && values.Ok? && out == RunOutcome(step, NoProcess)
    case BlockedBy(d) =>
      FirstBlocked(flow, Deps(flow, name), settled) == Some(d) && out == SkippedOutcome(step, BlockedBy(d))
    case RunStopped =>
      && FirstBlocked(flow, Deps(flow, name), settled).None? && AnyTimedOut(settled)
      && out == SkippedOutcome(step, RunStopped)
    case NeedFailed(e) => Clear(flow, settled, name) && values == Err(e) && out == UnresolvedOutcome(step, e)
  }

  /** Every recorded outcome is accounted for, timeouts or not, and every step in flight
      was clear and has the values its dependencies left. */
  ghost predicate Told(flow: seq<Step>, settled: map<string, Outcome>, running: map<string, map<string, string>>) {
    && (forall n :: n in settled && n in Names(flow) ==> Accounted(flow, settled, n, settled[n]))
    && (forall n :: n in running && n in Names(flow) ==>
          Clear(flow, settled, n) && ResolveNeeds(Find(flow, n), OutputsOf(flow, settled)) == Ok(running[n]))
  }

  /** No step writes depends_on. */
  predicate Serial(flow: seq<Step>) {
    forall i :: 0 <= i < |flow| ==> flow[i].dependsOn.None?
  }

  /** Steps finish in file order and at most the next one is in flight. */
  ghost predicate InFileOrder(flow: seq<Step>, steps: seq<StepResult>, running: set<string>) {
    && |steps| <= |flow|
    && (forall i :: 0 <= i < |steps| ==> steps[i].name == flow[i].name)
    && (forall n :: n in running ==> |steps| < |flow| && n == flow[|steps|].name)
  }

  /** The counters and sets agree with one another, and the limit holds. */
  ghost predicate Counted(flow: seq<Step>, limit: int, s: State) {
    && s.done == s.settled.Keys
    && s.inflight == |s.running|
    && s.inflight <= s.peak <= limit
    && Books(flow, s.started, s.done, s.running.Keys)
  }

  /** The outputs kept, the steps that block and the verdict on the run are what the
      outcomes so far call for. */
  ghost predicate Judged(flow: seq<Step>, s: State) {
    && s.outputs == OutputsOf(flow, s.settled)
    && (forall n :: n in s.blocked <==> BlockedIn(flow, s.settled, n))
    && (s.stopped <==> AnyTimedOut(s.settled))
    && IsWorst(flow, s.settled, s.status)
  }

  ghost predicate Filed(flow: seq<Step>, s: State) {
    Serial(flow) ==> InFileOrder(flow, s.steps, s.running.Keys) && s.peak <= 1
  }

  ghost predicate Inv(p: Plan, limit: int, s: State) {
    && Counted(p.flow, limit, s)
    && Recorded(s.steps, s.settled)
    && Judged(p.flow, s)
    && Faithful(p, s.settled, s.running, s.stopped)
    && Told(p.flow, s.settled, s.running)
    && Filed(p.flow, s)
  }

  lemma InitialInv(p: Plan, limit: nat)
    ensures Inv(p, limit, INITIAL)
  {
  }

  /** The state in which an outcome is recorded: out of flight, if it was in flight. */
  function Landed(s: State, name: string): State {
    if name in s.running then AfterArrival(s, name) else s
  }

  lemma RecordingCounts(flow: seq<Step>, limit: int, s: State, out: Outcome)
    requires Counted(flow, limit, s)
    requires out.name in Names(flow) && out.name !in s.done && Ready(flow, s.done, out.name)
    ensures Counted(flow, limit, AfterRecord(flow, Landed(s, out.name), out))
  {
    hide Deps;
    hide Names;
    hide Find;
    hide Blocks;
    hide Severity;
    hide Referenced;
    hide Books;
    hide Landed;
    var t := Landed(s, out.name);
    LandingCounts(s, out.name);
    FinishingKeepsBooks(flow, s.started, s.done, s.running.Keys, out.name);
    var u := AfterRecord(flow, t, out);
    assert u.settled.Keys == s.settled.Keys + {out.name};
  }

  lemma LandingCounts(s: State, name: string)
    requires s.inflight == |s.running|
    ensures var t := Landed(s, name);
            && t.running.Keys == s.running.Keys - {name}
            && t.inflight == |t.running| <= s.inflight
            && t.done == s.done && t.started == s.started && t.settled == s.settled && t.peak == s.peak
  {
    if name in s.running {
      OneFewer(s.running, name);
    }
  }

  lemma OneFewer(running: map<string, map<string, string>>, name: string)
    requires name in running
    ensures (running - {name}).Keys == running.Keys - {name}
    ensures |running - {name}| == |running| - 1
  {
    var fewer := running - {name};
    assert fewer.Keys == running.Keys - {name};
    assert |fewer| == |fewer.Keys|;
    assert |running| == |running.Keys|;
  }

  lemma FinishingKeepsBooks(
    flow: seq<Step>, started: set<string>, done: set<string>, running: set<string>, name: string)
    requires Books(flow, started, done, running)
    requires name in Names(flow) && name !in done && Ready(flow, done, name)
    ensures Books(flow, started + {name}, done + {name}, running - {name})
  {
    hide Deps;
    hide Names;
    forall n | n in started + {name} ensures Ready(flow, done + {name}, n) {
      assert Ready(flow, done, n);
    }
  }

  lemma RecordingLogs(steps: seq<StepResult>, settled: map<string, Outcome>, out: Outcome)
    requires Recorded(steps, settled) && out.name !in settled && out.result.name == out.name
    ensures Recorded(steps + [out.result], settled[out.name := out])
  {
    var steps', settled' := steps + [out.result], settled[out.name := out];
    assert settled'.Keys == settled.Keys + {out.name};
    assert |settled'| == |settled'.Keys| && |settled| == |settled.Keys|;
    RecordingTranscribes(steps, settled, out);
    assert SelfNamed(settled');
    forall n | n in settled' ensures Has(steps', n) {
      if n == out.name {
        assert steps'[|steps|].name == n;
      } else {
        var i :| 0 <= i < |steps| && steps[i].name == n;
        assert steps'[i].name == n;
      }
    }
  }

  lemma RecordingTranscribes(steps: seq<StepResult>, settled: map<string, Outcome>, out: Outcome)
    requires NamedApart(steps) && Transcribes(steps, settled)
    requires out.name !in settled && out.result.name == out.name
    ensures NamedApart(steps + [out.result])
    ensures Transcribes(steps + [out.result], settled[out.name := out])
  {
    var steps', settled' := steps + [out.result], settled[out.name := out];
    forall i | 0 <= i < |steps'|
      ensures steps'[i].name in settled' && settled'[steps'[i].name].result == steps'[i]
      ensures i < |steps| ==> steps'[i].name != out.name
    {
      if i < |steps| { assert steps[i].name in settled; }
    }
  }

  lemma RecordingWorsens(flow: seq<Step>, settled: map<string, Outcome>, status: Status, out: Outcome)
    requires IsWorst(flow, settled, status) && out.name in Names(flow) && out.name !in settled
    ensures IsWorst(flow, settled[out.name := out], Worse(status, Severity(Find(flow, out.name), out.result)))
  {
    hide Severity;
    hide Find;
    hide Names;
    var settled' := settled[out.name := out];
    var status' := Worse(status, Severity(Find(flow, out.name), out.result));
    if status' != StatusOK {
      if status' == status {
        var n :| n in settled && n in Names(flow) && Severity(Find(flow, n), settled[n].result) == status;
        assert n in settled' && Severity(Find(flow, n), settled'[n].result) == status';
      } else {
        assert Severity(Find(flow, out.name), settled'[out.name].result) == status';
      }
    }
  }

  lemma RecordingStops(settled: map<string, Outcome>, out: Outcome)
    requires out.name !in settled
    ensures AnyTimedOut(settled[out.name := out]) <==> AnyTimedOut(settled) || out.result.timedOut
  {
    var settled' := settled[out.name := out];
    if AnyTimedOut(settled) {
      var n :| n in settled && settled[n].result.timedOut;
      assert settled'[n].result.timedOut;
    }
    if out.result.timedOut {
      assert settled'[out.name].result.timedOut;
    }
  }

  lemma RecordingIsFaithful(
    p: Plan, settled: map<string, Outcome>, running: map<string, map<string, string>>, stopped: bool, out: Outcome)
    requires Accepted(p.flow) && Faithful(p, settled, running, stopped)
    requires out.name in Names(p.flow) && out.name !in settled
    requires forall n :: n in settled || n in running || n == out.name ==> Ready(p.flow, settled.Keys, n)
    requires !stopped && !out.result.timedOut ==> out == Expected(p, settled, out.name)
    ensures Faithful(p, settled[out.name := out], running - {out.name}, stopped || out.result.timedOut)
  {
    hide Accepted;
    hide Expected;
    hide Find;
    hide Names;
    hide Deps;
    var settled' := settled[out.name := out];
    forall n | n in Names(p.flow) && (n in settled || n in running || n == out.name)
      ensures Expected(p, settled', n) == Expected(p, settled, n)
    {
      assert Ready(p.flow, settled.Keys, n);
      ExpectedReadsOnlyDeps(p, settled, settled', n);
    }
  }

  /** Skipping a step under its first blocker, or because the run stopped, accounts for it. */
  lemma SkippingIsSound(p: Plan, settled: map<string, Outcome>, stopped: bool, step: Step, reason: Reason)
    requires step.name in Names(p.flow) && Find(p.flow, step.name) == step && (stopped <==> AnyTimedOut(settled))
    requires reason.BlockedBy? || (reason.RunStopped? && stopped)
    requires FirstBlocked(p.flow, Deps(p.flow, step.name), settled)
             == if reason.BlockedBy? then Some(reason.dependency) else None
    ensures var out := SkippedOutcome(step, reason);
            && out.name == step.name == out.result.name && !out.result.timedOut
            && Accounted(p.flow, settled, step.name, out)
            && (!stopped ==> out == Expected(p, settled, step.name))
  {
    hide Find;
    hide Names;
    hide Deps;
    hide AnyTimedOut;
    hide OutputsOf;
    hide FirstBlocked;
    hide ResolveNeeds;
    hide Clear;
  }

  /** An account stays true as more outcomes come in. */
  lemma AccountStays(flow: seq<Step>, a: map<string, Outcome>, b: map<string, Outcome>, name: string, out: Outcome)
    requires Accepted(flow) && name in Names(flow) && Accounted(flow, a, name, out)
    requires AgreeOn(Deps(flow, name), a, b) && (AnyTimedOut(a) ==> AnyTimedOut(b))
    ensures Accounted(flow, b, name, out)
  {
    hide Accepted;
    hide Find;
    hide Names;
    hide Deps;
    hide ResolveNeeds;
    hide FirstBlocked;
    hide AnyTimedOut;
    hide OutputsOf;
    ReadsOnlyDeps(flow, a, b, name);
    ClearStays(flow, a, b, name);
    hide Clear;
  }

  lemma ClearStays(flow: seq<Step>, a: map<string, Outcome>, b: map<string, Outcome>, name: string)
    requires AgreeOn(Deps(flow, name), a, b)
    ensures Clear(flow, a, name) <==> Clear(flow, b, name)
  {
    hide Find;
    hide Names;
    hide Deps;
    hide Blocks;
  }

  lemma RecordingTells(
    flow: seq<Step>, settled: map<string, Outcome>, running: map<string, map<string, string>>, out: Outcome)
    requires Accepted(flow) && Told(flow, settled, running)
    requires out.name in Names(flow) && out.name !in settled && Accounted(flow, settled, out.name, out)
    requires forall n :: n in settled || n in running || n == out.name ==> Ready(flow, settled.Keys, n)
    ensures Told(flow, settled[out.name := out], running - {out.name})
  {
    hide Accepted;
    hide Find;
    hide Names;
    hide Deps;
    hide Accounted;
    hide Clear;
    hide ResolveNeeds;
    hide OutputsOf;
    hide AnyTimedOut;
    var settled' := settled[out.name := out];
    RecordingStops(settled, out);
    forall n | n in Names(flow) && (n in settled || n in running || n == out.name)
      ensures AgreeOn(Deps(flow, n), settled, settled')
    {
      assert Ready(flow, settled.Keys, n);
    }
    forall n | n in settled' && n in Names(flow) ensures Accounted(flow, settled', n, settled'[n]) {
      AccountStays(flow, settled, settled', n, settled'[n]);
    }
    forall n | n in running && n in Names(flow)
      ensures Clear(flow, settled', n)
      ensures ResolveNeeds(Find(flow, n), OutputsOf(flow, settled')) == Ok(running[n])
    {
      ReadsOnlyDeps(flow, settled, settled', n);
      ClearStays(flow, settled, settled', n);
    }
  }

  lemma NextInFileOrder(
    flow: seq<Step>, steps: seq<StepResult>, settled: map<string, Outcome>, running: set<string>, name: string)
    requires Accepted(flow) && Serial(flow) && InFileOrder(flow, steps, running) && Recorded(steps, settled)
    requires name in Names(flow) && name !in settled && Ready(flow, settled.Keys, name)
    ensures |steps| < |flow| && name == flow[|steps|].name
  {
    hide NeededSteps;
    hide Acyclic;
    hide DependenciesOf;
    hide Recorded;
    var i :| 0 <= i < |flow| && flow[i].name == name;
    if i > 0 {
      EdgesStayInside(flow, i);
      assert flow[i - 1].name in settled;
      FiledSoFar(flow, steps, settled, running, i - 1);
    }
    FiledSoFar(flow, steps, settled, running, i);
  }

  /** The finished steps are the first ones of the file. */
  lemma FiledSoFar(
    flow: seq<Step>, steps: seq<StepResult>, settled: map<string, Outcome>, running: set<string>, i: nat)
    requires UniqueNames(flow) && InFileOrder(flow, steps, running) && Recorded(steps, settled) && i < |flow|
    ensures flow[i].name in settled <==> i < |steps|
  {
    if flow[i].name in settled {
      assert Has(steps, flow[i].name);
      var j :| 0 <= j < |steps| && steps[j].name == flow[i].name;
      assert flow[j].name == flow[i].name && j == i;
    }
  }

  lemma RecordingKeepsEffects(flow: seq<Step>, settled: map<string, Outcome>, blocked: set<string>, out: Outcome)
    requires out.name in Names(flow) && out.name !in settled
    requires forall n :: n in blocked <==> BlockedIn(flow, settled, n)
    ensures var blocks := Blocks(Find(flow, out.name), out.result);
            forall n :: (n in blocked || (blocks && n == out.name))
              <==> BlockedIn(flow, settled[out.name := out], n)
    ensures OutputsOf(flow, settled[out.name := out])
              == if out.name in Referenced(flow) then OutputsOf(flow, settled)[out.name := out.raw]
                 else OutputsOf(flow, settled)
  {
    hide Blocks;
    hide Find;
    hide Names;
    hide Referenced;
    assert !BlockedIn(flow, settled, out.name);
  }

  lemma FinishingKeepsFileOrder(
    flow: seq<Step>, steps: seq<StepResult>, settled: map<string, Outcome>, running: set<string>, result: StepResult)
    requires Accepted(flow) && Serial(flow) && InFileOrder(flow, steps, running) && Recorded(steps, settled)
    requires result.name in Names(flow) && result.name !in settled && Ready(flow, settled.Keys, result.name)
    ensures InFileOrder(flow, steps + [result], running - {result.name})
  {
    hide Accepted;
    hide Recorded;
    hide Names;
    hide Deps;
    NextInFileOrder(flow, steps, settled, running, result.name);
  }

  lemma RecordingJudges(flow: seq<Step>, s: State, out: Outcome)
    requires Judged(flow, s) && out.name in Names(flow) && out.name !in s.settled
    ensures Judged(flow, AfterRecord(flow, Landed(s, out.name), out))
  {
    hide IsWorst;
    hide AnyTimedOut;
    hide Blocks;
    hide Severity;
    hide Find;
    hide Names;
    hide Referenced;
    hide OutputsOf;
    hide BlockedIn;
    RecordingWorsens(flow, s.settled, s.status, out);
    RecordingStops(s.settled, out);
    RecordingKeepsEffects(flow, s.settled, s.blocked, out);
  }

  lemma RecordingFiles(flow: seq<Step>, s: State, out: Outcome)
    requires Accepted(flow) && Filed(flow, s) && Recorded(s.steps, s.settled)
    requires out.name in Names(flow) && out.name !in s.settled && Ready(flow, s.settled.Keys, out.name)
    requires out.result.name == out.name
    ensures Filed(flow, AfterRecord(flow, Landed(s, out.name), out))
  {
    hide Accepted;
    hide Recorded;
    hide InFileOrder;
    hide Blocks;
    hide Severity;
    hide Find;
    hide Names;
    hide Referenced;
    hide Ready;
    if Serial(flow) {
      assert Landed(s, out.name).running.Keys == s.running.Keys - {out.name};
      FinishingKeepsFileOrder(flow, s.steps, s.settled, s.running.Keys, out.result);
    }
  }

  /** Recording one more step keeps the invariant, whether it comes out of flight or
      never started, provided a step that ended on its own ended as its dependencies
      made it. */
  lemma RecordKeepsInv(p: Plan, limit: int, s: State, out: Outcome)
    requires Accepted(p.flow) && Inv(p, limit, s)
    requires out.name in Names(p.flow) && out.name !in s.done && Ready(p.flow, s.done, out.name)
    requires out.result.name == out.name
    requires !s.stopped && !out.result.timedOut ==> out == Expected(p, s.settled, out.name)
    requires Accounted(p.flow, s.settled, out.name, out)
    ensures Inv(p, limit, AfterRecord(p.flow, Landed(s, out.name), out))
  {
    hide Accepted;
    hide Recorded;
    hide Judged;
    hide Faithful;
    hide Told;
    hide Accounted;
    hide Filed;
    hide Books;
    hide Expected;
    hide Blocks;
    hide Severity;
    hide Find;
    hide Names;
    hide Ready;
    hide Referenced;
    hide Landed;
    RecordingCounts(p.flow, limit, s, out);
    RecordingLogs(s.steps, s.settled, out);
    RecordingJudges(p.flow, s, out);
    RecordingFiles(p.flow, s, out);
    StartedStepsAreReady(p.flow, s);
    RecordingIsFaithful(p, s.settled, s.running, s.stopped, out);
    RecordingTells(p.flow, s.settled, s.running, out);
    LandingLeavesFlight(s, out.name);
  }

  lemma LandingLeavesFlight(s: State, name: string)
    ensures Landed(s, name).running == s.running - {name}
    ensures Landed(s, name).(running := s.running, inflight := s.inflight) == s
  {
  }

  lemma StartedStepsAreReady(flow: seq<Step>, s: State)
    requires Books(flow, s.started, s.done, s.running.Keys)
    ensures forall n :: n in s.done || n in s.running ==> Ready(flow, s.done, n)
    ensures s.running.Keys <= s.started && s.done <= s.started <= Names(flow)
    ensures s.done !! s.running.Keys
  {
    hide Deps;
    hide Names;
  }

  lemma StartingCounts(flow: seq<Step>, limit: int, s: State, name: string, values: map<string, string>)
    requires Counted(flow, limit, s) && s.inflight < limit
    requires name in Names(flow) && name !in s.started && Ready(flow, s.done, name)
    ensures Counted(flow, limit, AfterStart(s, name, values))
  {
    hide Ready;
    hide Books;
    hide Names;
    StartedStepsAreReady(flow, s);
    var t := AfterStart(s, name, values);
    assert t.running.Keys == s.running.Keys + {name};
    assert |t.running| == |t.running.Keys|;
    assert |s.running| == |s.running.Keys|;
    StartingKeepsBooks(flow, s.started, s.done, s.running.Keys, name);
  }

  lemma StartingKeepsBooks(
    flow: seq<Step>, started: set<string>, done: set<string>, running: set<string>, name: string)
    requires Books(flow, started, done, running)
    requires name in Names(flow) && name !in started && Ready(flow, done, name)
    ensures Books(flow, started + {name}, done, running + {name})
  {
    hide Ready;
    hide Names;
  }

  lemma StartingFiles(flow: seq<Step>, limit: int, s: State, name: string, values: map<string, string>)
    requires Accepted(flow) && Filed(flow, s) && Recorded(s.steps, s.settled)
    requires name in Names(flow) && name !in s.settled && name !in s.running && Ready(flow, s.settled.Keys, name)
    requires s.inflight == |s.running|
    ensures Filed(flow, AfterStart(s, name, values))
  {
    hide Accepted;
    hide Recorded;
    hide Names;
    hide Ready;
    if Serial(flow) {
      NextInFileOrder(flow, s.steps, s.settled, s.running.Keys, name);
      assert s.running.Keys == {};
      assert |s.running| == |s.running.Keys|;
    }
  }

  lemma ClearMeansUnblocked(p: Plan, settled: map<string, Outcome>, name: string, values: map<string, string>)
    requires name in Names(p.flow) && Clear(p.flow, settled, name)
    requires ResolveNeeds(Find(p.flow, name), OutputsOf(p.flow, settled)) == Ok(values)
    ensures Expected(p, settled, name) == RunOutcome(Find(p.flow, name), p.run(Find(p.flow, name), values))
  {
    hide Find;
    hide Names;
    hide Deps;
    hide ResolveNeeds;
    hide OutputsOf;
    hide BlockedIn;
    hide FirstBlocked;
  }

  /** Launching a ready, clear step with the values its dependencies left keeps the
      invariant. */
  lemma StartKeepsInv(p: Plan, limit: int, s: State, name: string, values: map<string, string>)
    requires Accepted(p.flow) && Inv(p, limit, s) && s.inflight < limit
    requires name in Names(p.flow) && name !in s.started && Ready(p.flow, s.done, name)
    requires Clear(p.flow, s.settled, name)
    requires ResolveNeeds(Find(p.flow, name), OutputsOf(p.flow, s.settled)) == Ok(values)
    ensures Inv(p, limit, AfterStart(s, name, values))
  {
    hide Accepted;
    hide Recorded;
    hide Filed;
    hide Judged;
    hide Faithful;
    hide Told;
    hide Books;
    hide Find;
    hide Names;
    hide Ready;
    hide Clear;
    hide ResolveNeeds;
    hide OutputsOf;
    StartedStepsAreReady(p.flow, s);
    StartingCounts(p.flow, limit, s, name, values);
    StartingFiles(p.flow, limit, s, name, values);
    StartingTells(p, s, name, values);
    StartingJudges(p.flow, s, name, values);
  }

  lemma StartingTells(p: Plan, s: State, name: string, values: map<string, string>)
    requires name in Names(p.flow) && Clear(p.flow, s.settled, name)
    requires ResolveNeeds(Find(p.flow, name), OutputsOf(p.flow, s.settled)) == Ok(values)
    requires Faithful(p, s.settled, s.running, s.stopped) && Told(p.flow, s.settled, s.running)
    ensures Faithful(p, s.settled, s.running[name := values], s.stopped)
    ensures Told(p.flow, s.settled, s.running[name := values])
  {
    hide *;
    ClearMeansUnblocked(p, s.settled, name, values);
    FaithfulWithOne(p, s.settled, s.running, s.stopped, name, values);
    ToldWithOne(p.flow, s.settled, s.running, name, values);
  }

  lemma FaithfulWithOne(p: Plan, settled: map<string, Outcome>, running: map<string, map<string, string>>,
                        stopped: bool, name: string, values: map<string, string>)
    requires Faithful(p, settled, running, stopped) && name in Names(p.flow)
    requires Expected(p, settled, name) == RunOutcome(Find(p.flow, name), p.run(Find(p.flow, name), values))
    ensures Faithful(p, settled, running[name := values], stopped)
  {
    hide Find;
    hide Names;
    hide Expected;
    hide RunOutcome;
  }

  lemma ToldWithOne(flow: seq<Step>, settled: map<string, Outcome>, running: map<string, map<string, string>>,
                    name: string, values: map<string, string>)
    requires Told(flow, settled, running) && name in Names(flow) && Clear(flow, settled, name)
    requires ResolveNeeds(Find(flow, name), OutputsOf(flow, settled)) == Ok(values)
    ensures Told(flow, settled, running[name := values])
  {
    hide Find;
    hide Names;
    hide Accounted;
    hide Clear;
    hide ResolveNeeds;
    hide OutputsOf;
  }

  lemma StartingJudges(flow: seq<Step>, s: State, name: string, values: map<string, string>)
    requires Judged(flow, s)
    ensures Judged(flow, AfterStart(s, name, values))
  {
    hide IsWorst;
    hide AnyTimedOut;
    hide OutputsOf;
    hide BlockedIn;
  }

  /** The count of steps in flight is that of the started but unfinished ones, and never
      passes the limit. */
  lemma InFlightCountsTheUnfinished(p: Plan, limit: int, s: State)
    requires Inv(p, limit, s)
    ensures s.inflight == |s.started - s.done| <= limit
  {
    hide Recorded;
    hide Judged;
    hide Faithful;
    hide Told;
    hide Filed;
    hide Ready;
    assert s.started - s.done == s.running.Keys;
    assert |s.running| == |s.running.Keys|;
  }
}
