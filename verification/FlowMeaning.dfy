/** What a flow means, apart from any schedule, and that every finished run of it means
    that: confluence, the account of what is skipped, and what a step that runs may rely
    on. */
module FlowMeaning {
  import opened Wrappers
  import opened FlowNeeds
  import opened FlowGraph
  import opened FlowValidation
  import opened FlowRun
  import opened FlowSchedule

  /** An outcome for every step, each following from its own dependencies'. No schedule,
      limit or arrival order is mentioned. */
  ghost predicate Meaning(p: Plan, m: map<string, Outcome>) {
    m.Keys == Names(p.flow) && forall n :: n in Names(p.flow) ==> m[n] == Expected(p, m, n)
  }

  /** A finished run: nothing is left to start or in flight. */
  ghost predicate Finished(p: Plan, limit: int, s: State) {
    Inv(p, limit, s) && s.done == Names(p.flow)
  }

  /** Validates a flow and runs it. Every accepted flow runs to completion. */
  method Run(flow: seq<Step>, run: Runner, parallel: int) returns (r: Result<Scheduler, FlowError>)
    ensures r.Ok? <==> Accepted(flow)
    ensures r.Ok? ==>
              && r.value.plan == Plan(flow, run)
              && r.value.limit == (if parallel <= 0 then 4 else parallel)
              && Finished(r.value.plan, r.value.limit, r.value.Snapshot())
  {
    hide Accepted;
    hide Inv;
    hide DependenciesOf;
    var checked := ValidateSteps(flow);
    if checked.Err? {
      return Err(checked.error);
    }
    var s := new Scheduler(Plan(flow, run), parallel);
    s.Drive();
    r := Ok(s);
  }

  /** A finished run records every step exactly once, has nothing in flight and never had
      more than the limit, and its status is the worst severity recorded, timeouts or
      not. */
  lemma FinishedRunIsComplete(p: Plan, limit: int, s: State)
    requires Accepted(p.flow) && Finished(p, limit, s)
    ensures |s.steps| == |p.flow| && NamedApart(s.steps)
    ensures forall n :: n in Names(p.flow) ==> Has(s.steps, n)
    ensures s.running == map[] && s.inflight == 0 && s.peak <= limit
    ensures IsWorst(p.flow, s.settled, s.status)
    ensures Transcribes(s.steps, s.settled)
  {
    hide IsWorst;
    hide Faithful;
    hide Told;
    hide Filed;
    hide OutputsOf;
    hide Accepted;
    hide NamedApart;
    hide Transcribes;
    hide SelfNamed;
    hide Has;
    hide Ready;
    assert |s.settled| == |s.settled.Keys|;
    NamesApart(p.flow);
    EveryNameOnce(p.flow);
    hide Names;
    NothingLeft(p.flow, s);
  }

  lemma NamesApart(flow: seq<Step>)
    requires Accepted(flow)
    ensures UniqueNames(flow)
  {
  }

  lemma NothingLeft(flow: seq<Step>, s: State)
    requires s.done == Names(flow) && s.inflight == |s.running|
    requires Books(flow, s.started, s.done, s.running.Keys)
    ensures s.running == map[] && s.inflight == 0
  {
    hide Ready;
    hide Names;
    assert s.running.Keys == {};
    assert |s.running| == |s.running.Keys|;
  }

  /** In a flow where no step writes depends_on, the steps are recorded in file order and
      at most one is ever in flight, whatever the limit. */
  lemma SerialFlowsRunInFileOrder(p: Plan, limit: int, s: State)
    requires Accepted(p.flow) && Finished(p, limit, s) && Serial(p.flow)
    ensures s.peak <= 1
    ensures |s.steps| == |p.flow| && forall i :: 0 <= i < |p.flow| ==> s.steps[i].name == p.flow[i].name
  {
    FinishedRunIsComplete(p, limit, s);
    hide Inv;
    FiledInOrder(p, limit, s);
  }

  lemma FiledInOrder(p: Plan, limit: int, s: State)
    requires Inv(p, limit, s) && Serial(p.flow)
    ensures InFileOrder(p.flow, s.steps, s.running.Keys) && s.peak <= 1
  {
  }

  /** A finished run in which nothing timed out has the meaning of its flow. */
  lemma RunsHaveTheMeaning(p: Plan, limit: int, s: State)
    requires Accepted(p.flow) && Finished(p, limit, s) && !s.stopped
    ensures Meaning(p, s.settled)
  {
    hide IsWorst;
    hide InFileOrder;
    hide Recorded;
    hide Accepted;
    hide Expected;
  }

  lemma {:induction false} SameUpTo(p: Plan, order: seq<string>, a: map<string, Outcome>, b: map<string, Outcome>,
                                    i: nat)
    requires Accepted(p.flow) && IsOrder(DependenciesOf(p.flow), order) && Meaning(p, a) && Meaning(p, b)
    requires i <= |order|
    ensures forall k :: 0 <= k < i && order[k] in Names(p.flow) ==> a[order[k]] == b[order[k]]
  {
    hide Accepted;
    hide Expected;
    hide Names;
    hide DependenciesOf;
    if i > 0 {
      SameUpTo(p, order, a, b, i - 1);
      var n := order[i - 1];
      if n in Names(p.flow) {
        StepEdgesStayInside(p.flow, n);
        forall d | d in Deps(p.flow, n) ensures d in a && d in b && a[d] == b[d] {
          assert d in order[..i - 1];
        }
        ExpectedReadsOnlyDeps(p, a, b, n);
      }
    }
  }

  /** An acyclic flow has one meaning. */
  lemma MeaningIsUnique(p: Plan, a: map<string, Outcome>, b: map<string, Outcome>)
    requires Accepted(p.flow) && Meaning(p, a) && Meaning(p, b)
    ensures a == b
  {
    hide Accepted;
    hide Expected;
    var order := OrderOf(p.flow);
    SameUpTo(p, order, a, b, |order|);
    forall n | n in a ensures a[n] == b[n] {
      var k :| 0 <= k < |order| && order[k] == n;
    }
  }

  /** The meaning of the steps that come first in an order of the graph. */
  ghost predicate MeaningSoFar(p: Plan, order: seq<string>, i: nat, m: map<string, Outcome>) {
    && i <= |order|
    && (forall n :: n in m <==> n in Names(p.flow) && n in order[..i])
    && (forall n :: n in m ==> m[n] == Expected(p, m, n))
  }

  lemma {:induction false} MeaningUpTo(p: Plan, order: seq<string>, i: nat) returns (m: map<string, Outcome>)
    requires Accepted(p.flow) && IsOrder(DependenciesOf(p.flow), order) && i <= |order|
    ensures MeaningSoFar(p, order, i, m)
  {
    hide Accepted;
    hide Expected;
    hide Names;
    hide DependenciesOf;
    if i == 0 {
      m := map[];
    } else {
      var before := MeaningUpTo(p, order, i - 1);
      assert order[..i] == order[..i - 1] + [order[i - 1]];
      if order[i - 1] in Names(p.flow) {
        m := before[order[i - 1] := Expected(p, before, order[i - 1])];
        MeaningGrows(p, order, i - 1, before, m);
      } else {
        m := before;
      }
    }
  }

  lemma MeaningGrows(p: Plan, order: seq<string>, i: nat, before: map<string, Outcome>, m: map<string, Outcome>)
    requires Accepted(p.flow) && IsOrder(DependenciesOf(p.flow), order) && i < |order|
    requires MeaningSoFar(p, order, i, before) && order[i] in Names(p.flow)
    requires m == before[order[i] := Expected(p, before, order[i])]
    ensures forall n :: n in m ==> m[n] == Expected(p, m, n)
  {
    hide Accepted;
    hide Expected;
    hide Names;
    hide DependenciesOf;
    forall n | n in m ensures n in Names(p.flow) && Expected(p, m, n) == Expected(p, before, n) {
      var j :| 0 <= j <= i && order[j] == n;
      forall d | d in Deps(p.flow, n) ensures d != order[i] {
        assert d in order[..j];
      }
      ExpectedReadsOnlyDeps(p, before, m, n);
    }
  }

  /** Every accepted flow has a meaning. */
  lemma MeaningExists(p: Plan) returns (m: map<string, Outcome>)
    requires Accepted(p.flow)
    ensures Meaning(p, m)
  {
    hide Accepted;
    hide Expected;
    var order := OrderOf(p.flow);
    m := MeaningUpTo(p, order, |order|);
    assert order[..|order|] == order;
  }

  lemma WorstIsUnique(flow: seq<Step>, m: map<string, Outcome>, a: Status, b: Status)
    requires IsWorst(flow, m, a) && IsWorst(flow, m, b)
    ensures a == b
  {
    if a != StatusOK {
      var n :| n in m && n in Names(flow) && Severity(Find(flow, n), m[n].result) == a;
      assert StatusRank(a) <= StatusRank(b);
    }
    if b != StatusOK {
      var n :| n in m && n in Names(flow) && Severity(Find(flow, n), m[n].result) == b;
      assert StatusRank(b) <= StatusRank(a);
    }
  }

  /** Confluence: whatever the limits and whatever order results came back in, two
      finished runs without a timeout end every step the same way, with the same result
      and output, record the same results and carry the same status. */
  lemma Confluence(p: Plan, limit1: int, s1: State, limit2: int, s2: State)
    requires Accepted(p.flow)
    requires Finished(p, limit1, s1) && Finished(p, limit2, s2)
    requires !s1.stopped && !s2.stopped
    ensures s1.settled == s2.settled
    ensures s1.status == s2.status
    ensures forall r :: r in s1.steps <==> r in s2.steps
  {
    hide Inv;
    hide Accepted;
    RunsHaveTheMeaning(p, limit1, s1);
    RunsHaveTheMeaning(p, limit2, s2);
    MeaningIsUnique(p, s1.settled, s2.settled);
    FinishedRunIsComplete(p, limit1, s1);
    FinishedRunIsComplete(p, limit2, s2);
    WorstIsUnique(p.flow, s1.settled, s1.status, s2.status);
    SameRecords(s1, s2);
    SameRecords(s2, s1);
  }

  lemma SameRecords(s1: State, s2: State)
    requires s1.settled == s2.settled
    requires Transcribes(s1.steps, s1.settled) && Transcribes(s2.steps, s2.settled)
    requires forall n :: n in s1.settled ==> Has(s2.steps, n)
    ensures forall r :: r in s1.steps ==> r in s2.steps
  {
    forall r | r in s1.steps ensures r in s2.steps {
      var i :| 0 <= i < |s1.steps| && s1.steps[i] == r;
      assert Has(s2.steps, r.name);
      var j :| 0 <= j < |s2.steps| && s2.steps[j].name == r.name;
      assert s2.steps[j] == r;
    }
  }

  // ---------------------------------------------------------------- the account of what is skipped

  /** A step that itself failed, and was not allowed to, or could not be given its values
      or its process. */
  ghost predicate Culprit(p: Plan, m: map<string, Outcome>, n: string) {
    && n in m && n in Names(p.flow)
    && var r := m[n].result;
       !r.skipped && (r.notStarted || (r.exitCode != 0 && !Find(p.flow, n).allowFailure))
  }

  /** A chain of dependencies from a step to a culprit. */
  ghost predicate LeadsToCulprit(p: Plan, m: map<string, Outcome>, w: seq<string>, name: string) {
    |w| >= 2 && IsWalk(DependenciesOf(p.flow), w) && w[0] == name && Culprit(p, m, w[|w| - 1])
  }

  ghost predicate NoTimeouts(m: map<string, Outcome>) {
    forall n :: n in m ==> !m[n].result.timedOut
  }

  lemma SkippedMeansBlocked(p: Plan, m: map<string, Outcome>, name: string)
    requires Meaning(p, m) && name in Names(p.flow)
    ensures m[name].result.skipped <==> exists d :: d in Deps(p.flow, name) && BlockedIn(p.flow, m, d)
    ensures m[name].result.skipped ==> m[name].result.notStarted
  {
    hide Find;
    hide Names;
    hide DependenciesOf;
    hide ResolveNeeds;
    hide Blocks;
    assert m[name] == Expected(p, m, name);
  }

  lemma {:induction false} SkippedHasCulprit(p: Plan, order: seq<string>, m: map<string, Outcome>, i: nat)
    returns (w: seq<string>)
    requires Accepted(p.flow) && IsOrder(DependenciesOf(p.flow), order) && Meaning(p, m)
    requires i < |order| && order[i] in Names(p.flow) && m[order[i]].result.skipped
    ensures LeadsToCulprit(p, m, w, order[i])
    decreases i
  {
    hide Accepted;
    hide Expected;
    hide Find;
    hide Names;
    hide DependenciesOf;
    var name := order[i];
    SkippedMeansBlocked(p, m, name);
    var d :| d in Deps(p.flow, name) && BlockedIn(p.flow, m, d);
    if m[d].result.skipped {
      var j :| 0 <= j < i && order[j] == d;
      var rest := SkippedHasCulprit(p, order, m, j);
      w := [name] + rest;
      WalkBefore(DependenciesOf(p.flow), name, rest);
    } else {
      w := [name, d];
    }
  }

  lemma {:induction false} CulpritMeansSkipped(p: Plan, m: map<string, Outcome>, w: seq<string>, name: string)
    requires Accepted(p.flow) && Meaning(p, m) && NoTimeouts(m)
    requires name in Names(p.flow) && LeadsToCulprit(p, m, w, name)
    ensures m[name].result.skipped
    decreases |w|
  {
    hide Accepted;
    hide Expected;
    hide Find;
    hide Names;
    hide DependenciesOf;
    assert w[1] in Edges(DependenciesOf(p.flow), w[0]);
    var d := w[1];
    StepEdgesStayInside(p.flow, name);
    if |w| > 2 {
      WalkTail(DependenciesOf(p.flow), w);
      CulpritMeansSkipped(p, m, w[1..], d);
      SkippedMeansBlocked(p, m, d);
    }
    assert BlockedIn(p.flow, m, d);
    SkippedMeansBlocked(p, m, name);
  }

  /** Without a timeout a step is skipped exactly when some step it depends on, however
      far up, failed without being allowed to or was unresolved. */
  lemma SkippedExactlyBelowACulprit(p: Plan, m: map<string, Outcome>, name: string)
    requires Accepted(p.flow) && Meaning(p, m) && NoTimeouts(m)
    requires name in Names(p.flow)
    ensures m[name].result.skipped <==> exists w :: LeadsToCulprit(p, m, w, name)
  {
    hide Accepted;
    hide Expected;
    hide Names;
    hide LeadsToCulprit;
    if m[name].result.skipped {
      var order := OrderOf(p.flow);
      var i :| 0 <= i < |order| && order[i] == name;
      var w := SkippedHasCulprit(p, order, m, i);
      assert LeadsToCulprit(p, m, w, name);
    }
    if exists w :: LeadsToCulprit(p, m, w, name) {
      var w :| LeadsToCulprit(p, m, w, name);
      CulpritMeansSkipped(p, m, w, name);
    }
  }

  // ---------------------------------------------------------------- whatever happens in a run

  /** In any state of any run, timeouts or not, a step that was started was so after every
      dependency had run and ended acceptably, with a value for everything it needs; and
      until something times out it ended as running it with those values does. */
  lemma StepsThatRunHaveWhatTheyNeed(p: Plan, limit: int, s: State, name: string)
    requires Accepted(p.flow) && Inv(p, limit, s)
    requires name in s.settled && (s.settled[name].result.reason.Started? || s.settled[name].result.reason.NoCommand?)
    ensures name in Names(p.flow)
    ensures forall d :: d in Deps(p.flow, name) ==>
              && d in s.settled && d in Names(p.flow)
              && !s.settled[d].result.timedOut && !s.settled[d].result.notStarted
              && (s.settled[d].result.exitCode == 0 || Find(p.flow, d).allowFailure)
    ensures var step := Find(p.flow, name);
            var r := ResolveNeeds(step, s.outputs);
            r.Ok? && (!s.stopped ==> s.settled[name] == RunOutcome(step, p.run(step, r.value)))
  {
    hide Inv;
    hide Accepted;
    hide Find;
    hide Names;
    hide DependenciesOf;
    hide ResolveNeeds;
    hide FirstBlocked;
    hide Expected;
    hide OutputsOf;
    SettledIsTold(p, limit, s, name);
    StepEdgesStayInside(p.flow, name);
    if !s.stopped {
      ClearMeansUnblocked(p, s.settled, name, ResolveNeeds(Find(p.flow, name), s.outputs).value);
    }
  }

  lemma SettledIsTold(p: Plan, limit: int, s: State, name: string)
    requires Inv(p, limit, s) && name in s.settled
    ensures name in Names(p.flow) && Accounted(p.flow, s.settled, name, s.settled[name])
    ensures s.outputs == OutputsOf(p.flow, s.settled)
    ensures !s.stopped ==> s.settled[name] == Expected(p, s.settled, name)
  {
    hide Expected;
    hide Accounted;
    hide Recorded;
    hide Filed;
    hide IsWorst;
    hide Ready;
    hide OutputsOf;
    hide Names;
  }

  /** In any state of any run, timeouts or not, no step of a validated flow has been told
      that one it needs did not run. */
  lemma DidNotRunIsUnreachable(p: Plan, limit: int, s: State, name: string)
    requires Accepted(p.flow) && Inv(p, limit, s) && name in s.settled
    ensures var r := s.settled[name].result.reason; r.NeedFailed? ==> !r.error.DidNotRun?
  {
    hide Inv;
    hide Accepted;
    hide Find;
    hide Names;
    hide DependenciesOf;
    hide ResolveNeeds;
    hide NeededSteps;
    hide FirstBlocked;
    hide Expected;
    hide BlockedIn;
    SettledIsTold(p, limit, s, name);
    var step := Find(p.flow, name);
    NeedsAreDeps(p.flow, name);
    if s.settled[name].result.reason.NeedFailed? {
      assert NeededSteps(step) <= OutputsOf(p.flow, s.settled).Keys;
      PresentOutputsDidRun(step, OutputsOf(p.flow, s.settled));
    }
  }

  /** In any state of any run, a step recorded as skipped is under a dependency that
      blocks, and then names the first, or was refused because something timed out; and
      nothing else is recorded as skipped. */
  lemma SkippedForAReason(p: Plan, limit: int, s: State, name: string)
    requires Inv(p, limit, s) && name in s.settled
    ensures name in Names(p.flow)
    ensures var r := s.settled[name].result;
            r.skipped <==> r.reason.BlockedBy? || r.reason.RunStopped?
    ensures var r := s.settled[name].result;
            r.reason.BlockedBy? ==>
              FirstBlocked(p.flow, Deps(p.flow, name), s.settled) == Some(r.reason.dependency)
    ensures s.settled[name].result.reason.RunStopped? ==> s.stopped
  {
    hide Inv;
    hide Find;
    hide Names;
    hide Deps;
    hide ResolveNeeds;
    hide FirstBlocked;
    hide Clear;
    hide Expected;
    hide AnyTimedOut;
    hide OutputsOf;
    SettledIsTold(p, limit, s, name);
    StoppedByATimeout(p, limit, s);
  }

  lemma StoppedByATimeout(p: Plan, limit: int, s: State)
    requires Inv(p, limit, s)
    ensures s.stopped <==> AnyTimedOut(s.settled)
  {
  }
}
