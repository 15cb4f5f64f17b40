/** What a run's artifact says, read against the flow file: the status, each recorded result
    and the outputs kept, none of it in the scheduler's own terms
    (internal/flow/schedule.go, run.go). */
module FlowAccount {
  import opened Wrappers
  import opened FlowNeeds
  import opened FlowGraph
  import opened FlowValidation
  import opened FlowRun
  import opened FlowSchedule
  import opened FlowMeaning
  import Order

  // ---------------------------------------------------------------- the status

  ghost predicate SomeTimedOut(steps: seq<StepResult>) {
    exists i :: 0 <= i < |steps| && steps[i].timedOut
  }

  ghost predicate SomeUnresolved(steps: seq<StepResult>) {
    exists i :: 0 <= i < |steps| && steps[i].notStarted && !steps[i].skipped
  }

  /** Some step that ran has an exit code it was not allowed. */
  ghost predicate SomeFailed(flow: seq<Step>, steps: seq<StepResult>) {
    exists i, k :: 0 <= i < |steps| && 0 <= k < |flow| && FailedAt(flow, steps, i, k)
  }

  ghost predicate FailedAt(flow: seq<Step>, steps: seq<StepResult>, i: nat, k: nat)
    requires i < |steps| && k < |flow|
  {
    flow[k].name == steps[i].name && !steps[i].notStarted && steps[i].exitCode != 0 && !flow[k].allowFailure
  }

  /** In every state of every run the status is what the recorded results call for: timeout
      if one timed out, else unresolved if one was never started and not for being skipped,
      else failed if one ran and exited with a code it was not allowed, else OK. */
  lemma StatusIsExact(p: Plan, limit: int, s: State)
    requires Accepted(p.flow) && Inv(p, limit, s)
    ensures s.status == (if SomeTimedOut(s.steps) then StatusTimeout
                         else if SomeUnresolved(s.steps) then StatusUnresolved
                         else if SomeFailed(p.flow, s.steps) then StatusFailed
                         else StatusOK)
  {
    hide *;
    RanksAreOrdered(s.status);
    ShownIsSevere(p, limit, s);
    if s.status != StatusOK {
      var i, step := WorstIsRecorded(p, limit, s);
      SeverityShows(p.flow, s.steps, i, step);
    }
  }

  lemma RanksAreOrdered(a: Status)
    ensures StatusRank(a) >= 3 <==> a == StatusTimeout
    ensures StatusRank(a) >= 2 <==> a == StatusTimeout || a == StatusUnresolved
    ensures StatusRank(a) >= 1 <==> a != StatusOK
  {
  }

  lemma WhatIsRecorded(p: Plan, limit: int, s: State)
    requires Inv(p, limit, s)
    ensures IsWorst(p.flow, s.settled, s.status)
    ensures Recorded(s.steps, s.settled) && s.settled.Keys <= Names(p.flow)
  {
    hide Names;
    hide IsWorst;
    hide Ready;
  }

  /** A recorded result, the step it is of, and that what was settled for the step is it. */
  lemma ResultIsSettled(p: Plan, limit: int, s: State, i: nat)
    requires Inv(p, limit, s) && i < |s.steps|
    ensures var n := s.steps[i].name;
            n in s.settled && n in Names(p.flow) && s.settled[n].result == s.steps[i]
  {
    WhatIsRecorded(p, limit, s);
    hide Inv;
    hide Names;
    hide IsWorst;
  }

  lemma SettledIsRecorded(p: Plan, limit: int, s: State, n: string) returns (i: nat)
    requires Inv(p, limit, s) && n in s.settled
    ensures i < |s.steps| && s.steps[i] == s.settled[n].result && s.steps[i].name == n && n in Names(p.flow)
  {
    hide *;
    WhatIsRecorded(p, limit, s);
    i := RecordedAt(s.steps, s.settled, n);
  }

  lemma RecordedAt(steps: seq<StepResult>, settled: map<string, Outcome>, n: string) returns (i: nat)
    requires Recorded(steps, settled) && n in settled
    ensures i < |steps| && steps[i] == settled[n].result && steps[i].name == n
  {
    assert Has(steps, n);
    hide Recorded;
    i :| 0 <= i < |steps| && steps[i].name == n;
    TranscribedAt(steps, settled, i);
  }

  lemma TranscribedAt(steps: seq<StepResult>, settled: map<string, Outcome>, i: nat)
    requires Recorded(steps, settled) && i < |steps|
    ensures steps[i].name in settled && settled[steps[i].name].result == steps[i]
  {
  }

  /** A status other than OK is the severity of some recorded result. */
  lemma WorstIsRecorded(p: Plan, limit: int, s: State) returns (i: nat, step: Step)
    requires Inv(p, limit, s) && s.status != StatusOK
    ensures i < |s.steps| && step in p.flow && step.name == s.steps[i].name
    ensures Severity(step, s.steps[i]) == s.status
  {
    WhatIsRecorded(p, limit, s);
    hide Inv;
    hide Names;
    hide Severity;
    hide Recorded;
    var n :| n in s.settled && n in Names(p.flow) && Severity(Find(p.flow, n), s.settled[n].result) == s.status;
    i := SettledIsRecorded(p, limit, s, n);
    step := Find(p.flow, n);
  }

  /** A severity other than OK comes from what the result shows. */
  lemma SeverityShows(flow: seq<Step>, steps: seq<StepResult>, i: nat, step: Step)
    requires i < |steps| && step in flow && step.name == steps[i].name
    ensures match Severity(step, steps[i])
            case StatusTimeout => SomeTimedOut(steps)
            case StatusUnresolved => SomeUnresolved(steps)
            case StatusFailed => SomeFailed(flow, steps)
            case StatusOK => true
  {
    if Severity(step, steps[i]) == StatusFailed {
      var k :| 0 <= k < |flow| && flow[k] == step;
      assert FailedAt(flow, steps, i, k);
    }
  }

  /** What a recorded result shows, the status is at least as bad as. */
  lemma ResultIsSevere(p: Plan, limit: int, s: State, i: nat, k: nat)
    requires Accepted(p.flow) && Inv(p, limit, s) && i < |s.steps| && k < |p.flow| && p.flow[k].name == s.steps[i].name
    ensures StatusRank(Severity(p.flow[k], s.steps[i])) <= StatusRank(s.status)
  {
    WhatIsRecorded(p, limit, s);
    ResultIsSettled(p, limit, s, i);
    NamesApart(p.flow);
    FindIsExact(p.flow, k);
    hide Inv;
    hide Names;
    hide Severity;
    hide StatusRank;
    hide Recorded;
    hide Accepted;
  }

  lemma StepOf(flow: seq<Step>, name: string) returns (k: nat)
    requires name in Names(flow)
    ensures k < |flow| && flow[k].name == name
  {
    k :| 0 <= k < |flow| && flow[k].name == name;
  }

  lemma ShownIsSevere(p: Plan, limit: int, s: State)
    requires Accepted(p.flow) && Inv(p, limit, s)
    ensures SomeTimedOut(s.steps) ==> StatusRank(s.status) >= 3
    ensures SomeUnresolved(s.steps) ==> StatusRank(s.status) >= 2
    ensures SomeFailed(p.flow, s.steps) ==> StatusRank(s.status) >= 1
  {
    hide Inv;
    hide Accepted;
    hide Names;
    forall i, k | 0 <= i < |s.steps| && 0 <= k < |p.flow| && p.flow[k].name == s.steps[i].name
      ensures StatusRank(Severity(p.flow[k], s.steps[i])) <= StatusRank(s.status)
    {
      ResultIsSevere(p, limit, s, i, k);
    }
    forall i | 0 <= i < |s.steps| ensures exists k :: 0 <= k < |p.flow| && p.flow[k].name == s.steps[i].name {
      ResultIsSettled(p, limit, s, i);
      var k := StepOf(p.flow, s.steps[i].name);
    }
    forall i, k | 0 <= i < |s.steps| && 0 <= k < |p.flow| && FailedAt(p.flow, s.steps, i, k)
      ensures StatusRank(Severity(p.flow[k], s.steps[i])) >= 1
    {
      ResultIsSettled(p, limit, s, i);
      ShapeOfResults(p, limit, s, s.steps[i].name);
    }
    hide FailedAt;
  }

  // ---------------------------------------------------------------- each result

  /** A result of a step that was started has its output's exit code; one of a step that was
      not has neither output nor exit code, and is skipped under a blocker or a stopped run
      and not otherwise. */
  lemma ShapeOfResults(p: Plan, limit: int, s: State, name: string)
    requires Inv(p, limit, s) && name in s.settled
    ensures var r, raw := s.settled[name].result, s.settled[name].raw;
            && r.name == name && r in s.steps
            && (r.reason.Started? ==> !r.notStarted && !r.skipped && r.exitCode == raw.exitCode)
            && (!r.reason.Started? ==>
                  r.notStarted && !r.timedOut && r.exitCode == -1 && raw == Output("", "", 0, false, false))
            && (r.skipped <==> r.reason.BlockedBy? || r.reason.RunStopped?)
  {
    hide *;
    SettledIsTold(p, limit, s, name);
    AccountedShape(p.flow, s.settled, name, s.settled[name]);
    var i := SettledIsRecorded(p, limit, s, name);
  }

  lemma AccountedShape(flow: seq<Step>, settled: map<string, Outcome>, name: string, out: Outcome)
    requires name in Names(flow) && Accounted(flow, settled, name, out)
    ensures var r, raw := out.result, out.raw;
            && (r.reason.Started? ==> !r.notStarted && !r.skipped && r.exitCode == raw.exitCode)
            && (!r.reason.Started? ==>
                  r.notStarted && !r.timedOut && r.exitCode == -1 && raw == Output("", "", 0, false, false))
            && (r.skipped <==> r.reason.BlockedBy? || r.reason.RunStopped?)
  {
    hide Names;
    hide Find;
    hide Clear;
    hide ResolveNeeds;
    hide FirstBlocked;
    hide OutputsOf;
    hide AnyTimedOut;
  }

  /** An ending that stops the steps waiting on it: not a timeout, and a step that never
      started or that ran and exited with a code it was not allowed. */
  ghost predicate Stops(flow: seq<Step>, r: StepResult) {
    && !r.timedOut
    && (r.notStarted
        || (r.exitCode != 0 && exists k :: 0 <= k < |flow| && flow[k].name == r.name && !flow[k].allowFailure))
  }

  lemma StoppingIsBlocking(p: Plan, limit: int, s: State, d: string)
    requires Accepted(p.flow) && Inv(p, limit, s) && d in s.settled
    ensures BlockedIn(p.flow, s.settled, d) <==> Stops(p.flow, s.settled[d].result)
  {
    hide Inv;
    hide Accepted;
    hide Names;
    ShapeOfResults(p, limit, s, d);
    var i := SettledIsRecorded(p, limit, s, d);
    NamesApart(p.flow);
    var k := StepOf(p.flow, d);
    FindIsExact(p.flow, k);
    hide Find;
    assert forall j :: 0 <= j < |p.flow| && p.flow[j].name == d ==> j == k;
  }

  lemma {:induction false} FirstBlockedIsFirst(
    flow: seq<Step>, names: seq<string>, settled: map<string, Outcome>, e: string)
    requires Order.Ascending(names) && FirstBlocked(flow, names, settled).Some?
    requires e in names && Order.Less(e, FirstBlocked(flow, names, settled).value)
    ensures !BlockedIn(flow, settled, e)
  {
    hide BlockedIn;
    var d := FirstBlocked(flow, names, settled).value;
    if BlockedIn(flow, settled, names[0]) {
      var k :| 0 <= k < |names| && names[k] == e;
      Order.LessIsAsymmetric(e, d);
    } else if e != names[0] {
      Order.AscendingTail(names);
      FirstBlockedIsFirst(flow, names[1..], settled, e);
    }
  }

  lemma SettledWaited(p: Plan, limit: int, s: State, name: string)
    requires Inv(p, limit, s) && name in s.settled
    ensures forall d :: d in Deps(p.flow, name) ==> d in s.settled
  {
    hide Names;
    hide Deps;
    hide Recorded;
    hide Judged;
    hide Faithful;
    hide Told;
    hide Filed;
    assert Ready(p.flow, s.done, name);
  }

  lemma WaitsAscend(flow: seq<Step>, name: string)
    requires Accepted(flow) && name in Names(flow)
    ensures Order.Ascending(Deps(flow, name))
  {
    hide Accepted;
    NamesApart(flow);
    var k := StepOf(flow, name);
    EdgesAreExact(flow, k, name);
    hide DependenciesOf;
  }

  /** Why each step ended as recorded, in every state of every run, timeouts or not. All it
      waits on had ended. One under a blocker names the ascending first of those that stop
      it. One refused because the run stopped had none, and something had timed out. Any
      other had none either, nor one that timed out; it was given its values, or is recorded
      with what is wrong with them. */
  lemma ReasonsAreExact(p: Plan, limit: int, s: State, name: string)
    requires Accepted(p.flow) && Inv(p, limit, s) && name in s.settled
    ensures name in Names(p.flow) && forall d :: d in Deps(p.flow, name) ==> d in s.settled
    ensures match s.settled[name].result.reason
            case BlockedBy(d) =>
              && d in Deps(p.flow, name) && Stops(p.flow, s.settled[d].result)
              && forall e :: e in Deps(p.flow, name) && Order.Precedes(e, d) ==> !Stops(p.flow, s.settled[e].result)
            case RunStopped =>
              && (forall e :: e in Deps(p.flow, name) ==> !Stops(p.flow, s.settled[e].result))
              && SomeTimedOut(s.steps)
            case NeedFailed(error) =>
              AllEndedWell(p.flow, s.settled, name) && ResolveNeeds(Find(p.flow, name), s.outputs) == Err(error)
            case _ => AllEndedWell(p.flow, s.settled, name) && ResolveNeeds(Find(p.flow, name), s.outputs).Ok?
  {
    hide *;
    SettledIsTold(p, limit, s, name);
    SettledWaited(p, limit, s, name);
    WaitsAscend(p.flow, name);
    forall d | d in s.settled
      ensures BlockedIn(p.flow, s.settled, d) <==> Stops(p.flow, s.settled[d].result)
    {
      StoppingIsBlocking(p, limit, s, d);
    }
    TimedOutIsRecorded(p, limit, s);
    ReasonIsExact(p.flow, s, name, s.settled[name]);
  }

  lemma TimedOutIsRecorded(p: Plan, limit: int, s: State)
    requires Inv(p, limit, s)
    ensures AnyTimedOut(s.settled) ==> SomeTimedOut(s.steps)
  {
    hide Inv;
    if AnyTimedOut(s.settled) {
      var n :| n in s.settled && s.settled[n].result.timedOut;
      var i := SettledIsRecorded(p, limit, s, n);
    }
  }

  /** Every step it waits on ended without stopping it or timing out. */
  ghost predicate AllEndedWell(flow: seq<Step>, settled: map<string, Outcome>, name: string) {
    forall d :: d in Deps(flow, name) ==>
      d in settled && !settled[d].result.timedOut && !Stops(flow, settled[d].result)
  }

  lemma ReasonIsExact(flow: seq<Step>, s: State, name: string, out: Outcome)
    requires name in Names(flow) && Accounted(flow, s.settled, name, out)
    requires s.outputs == OutputsOf(flow, s.settled) && Order.Ascending(Deps(flow, name))
    requires forall d :: d in Deps(flow, name) ==> d in s.settled
    requires forall d :: d in s.settled ==> (BlockedIn(flow, s.settled, d) <==> Stops(flow, s.settled[d].result))
    requires AnyTimedOut(s.settled) ==> SomeTimedOut(s.steps)
    ensures match out.result.reason
            case BlockedBy(d) =>
              && d in Deps(flow, name) && Stops(flow, s.settled[d].result)
              && forall e :: e in Deps(flow, name) && Order.Precedes(e, d) ==> !Stops(flow, s.settled[e].result)
            case RunStopped =>
              (forall e :: e in Deps(flow, name) ==> !Stops(flow, s.settled[e].result)) && SomeTimedOut(s.steps)
            case NeedFailed(error) =>
              AllEndedWell(flow, s.settled, name) && ResolveNeeds(Find(flow, name), s.outputs) == Err(error)
            case _ => AllEndedWell(flow, s.settled, name) && ResolveNeeds(Find(flow, name), s.outputs).Ok?
  {
    hide Names;
    hide Find;
    hide Deps;
    hide ResolveNeeds;
    hide FirstBlocked;
    hide OutputsOf;
    hide AnyTimedOut;
    hide SomeTimedOut;
    hide BlockedIn;
    hide Stops;
    hide Order.Precedes;
    hide Order.Ascending;
    if out.result.reason.BlockedBy? {
      var d := out.result.reason.dependency;
      forall e | e in Deps(flow, name) && Order.Precedes(e, d) ensures !Stops(flow, s.settled[e].result) {
        Order.LessIsLexicographic(e, d);
        FirstBlockedIsFirst(flow, Deps(flow, name), s.settled, e);
      }
    }
  }

  // ---------------------------------------------------------------- the outputs kept

  /** The outputs kept are the raw ones of the finished steps that some reference of the flow
      names, and no others. */
  lemma OutputsAreExact(p: Plan, limit: int, s: State, n: string)
    requires Inv(p, limit, s)
    ensures n in s.outputs <==> n in s.settled && exists i, v :: ReferredToAt(p.flow, i, v, n)
    ensures n in s.outputs ==> s.outputs[n] == s.settled[n].raw
  {
    hide *;
    OutputsAreJudged(p, limit, s);
    OutputsAt(p.flow, s.settled, n);
    ReferencedIsNamed(p.flow, n);
  }

  lemma OutputsAt(flow: seq<Step>, settled: map<string, Outcome>, n: string)
    ensures n in OutputsOf(flow, settled) <==> n in settled && n in Referenced(flow)
    ensures n in OutputsOf(flow, settled) ==> OutputsOf(flow, settled)[n] == settled[n].raw
  {
    hide Referenced;
  }

  lemma ReferencedIsNamed(flow: seq<Step>, n: string)
    ensures n in Referenced(flow) <==> exists i, v :: ReferredToAt(flow, i, v, n)
  {
    hide NeededSteps;
    hide RefersTo;
    if n in Referenced(flow) {
      var i :| 0 <= i < |flow| && n in NeededSteps(flow[i]);
      NeededStepsAreNamed(flow[i], n);
      var v :| v in flow[i].needs && RefersTo(flow[i].needs[v], n);
      assert ReferredToAt(flow, i, v, n);
    }
    if i, v :| ReferredToAt(flow, i, v, n) {
      NeededStepsAreNamed(flow[i], n);
    }
  }

  ghost predicate ReferredToAt(flow: seq<Step>, i: int, v: string, n: string) {
    0 <= i < |flow| && v in flow[i].needs && RefersTo(flow[i].needs[v], n)
  }

  lemma OutputsAreJudged(p: Plan, limit: int, s: State)
    requires Inv(p, limit, s)
    ensures s.outputs == OutputsOf(p.flow, s.settled)
  {
  }
}
