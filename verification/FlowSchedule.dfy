/** The scheduler (internal/flow/schedule.go) and the part of Execute that drives it
    (internal/flow/run.go). A goroutine in flight is an entry of `running`; which one
    reports next, and whether it timed out, is not determined. */
module FlowSchedule {
  import opened Wrappers
  import opened FlowNeeds
  import opened FlowGraph
  import opened FlowValidation
  import opened FlowRun

  const DEFAULT_PARALLEL := 4

  method ReferencedSteps(flow: seq<Step>) returns (names: set<string>)
    ensures names == Referenced(flow)
  {
    hide NeededSteps;
    names := {};
    for i := 0 to |flow|
      invariant names == set k, n | 0 <= k < i && n in NeededSteps(flow[k]) :: n
    {
      var needed := ReferencesOf(flow[i]);
      names := names + needed;
    }
  }

  class Scheduler {
    const plan: Plan
    const deps: Graph
    const retain: set<string>
    const limit: nat
    var status: Status
    var steps: seq<StepResult>
    var outputs: map<string, Output>
    var done: set<string>
    var blocked: set<string>
    var started: set<string>
    var inflight: int
    var stopped: bool
    var running: map<string, map<string, string>>
    /** Every outcome recorded so far, and the most steps ever in flight at once. */
    ghost var settled: map<string, Outcome>
    ghost var peak: int

    ghost function Snapshot(): State
      reads this
    {
      State(status, steps, outputs, done, blocked, started, inflight, stopped, running, settled, peak)
    }

    ghost predicate Fixed() {
      Accepted(plan.flow) && deps == DependenciesOf(plan.flow) && retain == Referenced(plan.flow) && limit >= 1
    }

    ghost predicate Valid()
      reads this
    {
      Fixed() && Inv(plan, limit, Snapshot())
    }

    constructor (plan: Plan, parallel: int)
      requires Accepted(plan.flow)
      ensures Valid() && this.plan == plan
      ensures limit == if parallel <= 0 then DEFAULT_PARALLEL else parallel
      ensures Snapshot() == INITIAL
    {
      var graph := Dependencies(plan.flow);
      var referenced := ReferencedSteps(plan.flow);
      this.plan, deps, retain := plan, graph, referenced;
      limit := if parallel <= 0 then DEFAULT_PARALLEL else parallel;
      status, steps, outputs := StatusOK, [], map[];
      done, blocked, started := {}, {}, {};
      inflight, stopped, running := 0, false, map[];
      settled, peak := map[], 0;
      new;
      InitialInv(plan, limit);
    }

    /** Keeps the higher ranked of the status so far and the one asked for. */
    method Worsen(s: Status)
      modifies this`status
      ensures status == Worse(old(status), s)
    {
      if StatusRank(s) > StatusRank(status) {
        status := s;
      }
    }

    /** What an ending does to the status, to the steps that block and to the stop flag. */
    method Judge(out: Outcome)
      requires out.name in Names(plan.flow)
      modifies this`status, this`stopped, this`blocked
      ensures var step := Find(plan.flow, out.name);
              && stopped == (old(stopped) || out.result.timedOut)
              && blocked == (if Blocks(step, out.result) then old(blocked) + {out.name} else old(blocked))
              && status == Worse(old(status), Severity(step, out.result))
    {
      hide Find;
      var res := out.result;
      var step := Find(plan.flow, out.name);
      if res.timedOut {
        Worsen(StatusTimeout);
        stopped := true;
      } else if res.notStarted && !res.skipped {
        blocked := blocked + {out.name};
        Worsen(StatusUnresolved);
      } else if res.skipped {
        blocked := blocked + {out.name};
      } else if res.exitCode != 0 && !step.allowFailure {
        blocked := blocked + {out.name};
        Worsen(StatusFailed);
      }
    }

    /** Appends a result, keeps its output if some step refers to it, and judges it. */
    method Record(out: Outcome)
      requires Fixed() && out.name in Names(plan.flow)
      modifies this
      ensures Snapshot() == AfterRecord(plan.flow, old(Snapshot()), out)
    {
      hide Blocks;
      hide Severity;
      hide Find;
      hide Names;
      hide Accepted;
      hide Referenced;
      hide DependenciesOf;
      started := started + {out.name};
      done := done + {out.name};
      if out.name in retain {
        outputs := outputs[out.name := out.raw];
      }
      steps := steps + [out.result];
      settled := settled[out.name := out];
      Judge(out);
    }

    method IsReady(name: string) returns (r: bool)
      requires Fixed()
      ensures r == Ready(plan.flow, done, name)
    {
      hide Accepted;
      hide DependenciesOf;
      hide Referenced;
      var names := Edges(deps, name);
      for k := 0 to |names|
        invariant forall d :: d in names[..k] ==> d in done
      {
        if names[k] !in done {
          assert names[k] in Deps(plan.flow, name);
          return false;
        }
      }
      assert names[..|names|] == names;
      r := true;
    }

    /** The first dependency, in the order of the edges, whose ending blocks. */
    method FindBlocker(name: string) returns (d: Option<string>)
      requires Valid()
      ensures d == FirstBlocked(plan.flow, Deps(plan.flow, name), settled)
    {
      hide BlockedIn;
      hide IsWorst;
      hide Faithful;
      hide Recorded;
      hide Accepted;
      hide InFileOrder;
      var names := Edges(deps, name);
      for k := 0 to |names|
        invariant FirstBlocked(plan.flow, names, settled) == FirstBlocked(plan.flow, names[k..], settled)
      {
        assert names[k..][0] == names[k] && names[k..][1..] == names[k + 1..];
        if names[k] in blocked {
          return Some(names[k]);
        }
      }
      d := None;
    }

    /** Files a step that will not run: what it depends on stopped it, the run stopped,
        or its values could not be read. */
    method Refuse(out: Outcome)
      requires Valid()
      requires out.name in Names(plan.flow) && out.name !in started && Ready(plan.flow, done, out.name)
      requires out.result.name == out.name && !out.result.timedOut
      requires !stopped ==> out == Expected(plan, settled, out.name)
      requires Accounted(plan.flow, settled, out.name, out)
      modifies this
      ensures Valid() && started == old(started) + {out.name}
      ensures old(done) <= done && running == old(running) && settled == old(settled)[out.name := out]
    {
      hide Inv;
      hide Accounted;
      hide Expected;
      hide Accepted;
      hide Referenced;
      hide Names;
      hide Ready;
      NotStarted(out.name);
      RecordKeepsInv(plan, limit, Snapshot(), out);
      Record(out);
    }

    lemma NotStarted(name: string)
      requires Valid() && name !in started
      ensures name !in done && name !in running && name !in settled
    {
    }

    method Skip(step: Step, reason: Reason)
      requires Valid()
      requires step in plan.flow && step.name !in started && Ready(plan.flow, done, step.name)
      requires reason.BlockedBy? || (reason.RunStopped? && stopped)
      requires FirstBlocked(plan.flow, Deps(plan.flow, step.name), settled)
               == if reason.BlockedBy? then Some(reason.dependency) else None
      modifies this
      ensures Valid() && started == old(started) + {step.name}
      ensures old(done) <= done && running == old(running)
      ensures settled == old(settled)[step.name := SkippedOutcome(step, reason)]
    {
      hide *;
      FindIsStep(step);
      StoppedMeansTimedOut();
      SkippingIsSound(plan, settled, stopped, step, reason);
      Refuse(SkippedOutcome(step, reason));
    }

    lemma StoppedMeansTimedOut()
      requires Valid()
      ensures stopped <==> AnyTimedOut(settled)
    {
    }

    lemma FindIsStep(step: Step)
      requires Valid() && step in plan.flow
      ensures step.name in Names(plan.flow) && Find(plan.flow, step.name) == step
    {
      hide Inv;
      hide Acyclic;
      var i :| 0 <= i < |plan.flow| && plan.flow[i] == step;
      FindIsExact(plan.flow, i);
    }

    /** Starts a step with the values its dependencies left, or files it unresolved when
        one of them cannot be read. */
    method Launch(step: Step)
      requires Valid() && !stopped && inflight < limit
      requires step in plan.flow && step.name !in started && Ready(plan.flow, done, step.name)
      requires FirstBlocked(plan.flow, Deps(plan.flow, step.name), settled).None?
      modifies this
      ensures Valid() && started == old(started) + {step.name}
      ensures old(done) <= done && old(running.Keys) <= running.Keys
      ensures match ResolveNeeds(step, old(outputs))
              case Ok(values) => running == old(running)[step.name := values] && settled == old(settled)
              case Err(e) => running == old(running) && settled == old(settled)[step.name := UnresolvedOutcome(step, e)]
    {
      hide Inv;
      hide Deps;
      hide Ready;
      hide ResolveNeeds;
      hide Accepted;
      hide Find;
      hide Names;
      hide Clear;
      hide FirstBlocked;
      FindIsStep(step);
      OutputsAreKept();
      NothingInTheWay(step.name);
      var r := Resolve(step, outputs);
      if r.Err? {
        Refuse(UnresolvedOutcome(step, r.error));
        return;
      }
      StartKeepsInv(plan, limit, Snapshot(), step.name, r.value);
      started := started + {step.name};
      peak := if inflight + 1 > peak then inflight + 1 else peak;
      inflight := inflight + 1;
      running := running[step.name := r.value];
    }

    lemma NothingInTheWay(name: string)
      requires Valid() && !stopped && Ready(plan.flow, done, name)
      requires FirstBlocked(plan.flow, Deps(plan.flow, name), settled).None?
      ensures Clear(plan.flow, settled, name)
    {
      StoppedMeansTimedOut();
      hide Accepted;
      hide Find;
      hide Names;
      hide Deps;
      hide FirstBlocked;
      hide BlockedIn;
      hide Faithful;
      hide Told;
      hide Filed;
      hide Recorded;
    }

    lemma OutputsAreKept()
      requires Valid()
      ensures outputs == OutputsOf(plan.flow, settled)
    {
    }

    /** Takes one result, from whichever step in flight reports first. A step that did
        not time out, in a run nothing stopped, reports what running it gives. */
    method Collect()
      requires Valid() && running.Keys != {}
      modifies this
      ensures Valid() && started == old(started)
      ensures old(done) < done
    {
      hide Inv;
      hide Accepted;
      hide Referenced;
      hide Expected;
      hide Accounted;
      hide Find;
      hide Names;
      hide Ready;
      hide DependenciesOf;
      hide RunOutcome;
      var name :| name in running.Keys;
      InFlightIsStarted(name);
      var step := Find(plan.flow, name);
      var e: Ending := *;
      if !stopped && !(e.Ended? && e.timedOut) {
        e := plan.run(step, running[name]);
      }
      var out := RunOutcome(step, e);
      RunOutcomeIsTold(name, e);
      RecordKeepsInv(plan, limit, Snapshot(), out);
      ghost var landed := Landed(Snapshot(), name);
      inflight := inflight - 1;
      running := running - {name};
      assert Snapshot() == landed;
      Record(out);
    }

    lemma InFlightIsStarted(name: string)
      requires Valid() && name in running
      ensures name in Names(plan.flow) && name in started && name !in done && Ready(plan.flow, done, name)
      ensures Expected(plan, settled, name)
                == RunOutcome(Find(plan.flow, name), plan.run(Find(plan.flow, name), running[name]))
    {
    }

    /** Whatever a step in flight reports, it was started as it should have been. */
    lemma RunOutcomeIsTold(name: string, e: Ending)
      requires Valid() && name in running && name in Names(plan.flow)
      ensures var out := RunOutcome(Find(plan.flow, name), e);
              && Accounted(plan.flow, settled, name, out) && out.name == name && out.result.name == name
              && (out.result.timedOut <==> e.Ended? && e.timedOut)
    {
      hide Accepted;
      hide Counted;
      hide Recorded;
      hide Judged;
      hide Faithful;
      hide Filed;
      hide Clear;
      hide ResolveNeeds;
      hide OutputsOf;
      hide Names;
    }

    /** One pass in file order: a ready step is skipped, launched, or left for want of room.
        True when any of them was started or filed. */
    method Sweep() returns (changed: bool)
      requires Valid()
      modifies this
      ensures Valid() && old(done) <= done && old(running.Keys) <= running.Keys
      ensures changed ==> old(started) < started
      ensures !changed ==> started == old(started) && done == old(done)
      ensures !changed && running.Keys == {} ==>
                forall n :: n in Names(plan.flow) ==> n in started || !Ready(plan.flow, done, n)
      ensures inflight < limit ==>
                forall n :: n in Names(plan.flow) && Ready(plan.flow, old(done), n) ==> n in started
    {
      hide Inv;
      hide Accepted;
      hide Deps;
      hide Referenced;
      hide Ready;
      hide FirstBlocked;
      hide DependenciesOf;
      changed := false;
      for i := 0 to |plan.flow|
        invariant Valid() && old(done) <= done && old(running.Keys) <= running.Keys
        invariant changed ==> old(started) < started
        invariant !changed ==> started == old(started) && done == old(done)
        invariant !changed ==>
                    forall k :: 0 <= k < i ==>
                      plan.flow[k].name in started || !Ready(plan.flow, done, plan.flow[k].name)
        invariant forall k :: 0 <= k < i && Ready(plan.flow, old(done), plan.flow[k].name) ==>
                    plan.flow[k].name in started
      {
        var step := plan.flow[i];
        DoneIsStarted();
        if step.name in started || step.name in done {
          continue;
        }
        var ready := IsReady(step.name);
        if !ready {
          ReadyStays(plan.flow, old(done), done, step.name);
          continue;
        }
        var blocker := FindBlocker(step.name);
        if blocker.Some? {
          Skip(step, BlockedBy(blocker.value));
          changed := true;
          continue;
        }
        if stopped {
          Skip(step, RunStopped);
          changed := true;
          continue;
        }
        if inflight >= limit {
          SomethingInFlight();
          break;
        }
        Launch(step);
        changed := true;
      }
    }

    lemma SomethingInFlight()
      requires Valid() && inflight >= limit
      ensures running.Keys != {}
    {
    }

    lemma DoneIsStarted()
      requires Valid()
      ensures done <= started && done <= Names(plan.flow)
      ensures started == done + running.Keys
    {
    }

    /** Runs the flow to completion: it never waits with nothing in flight, never gives
        up early, and every step is recorded. */
    method Drive()
      requires Valid()
      modifies this
      ensures Valid() && done == Names(plan.flow)
    {
      hide Inv;
      hide Accepted;
      hide Referenced;
      hide Names;
      hide Ready;
      hide DependenciesOf;
      NamesAreApart();
      EveryNameOnce(plan.flow);
      while |done| < |plan.flow|
        invariant Valid()
        decreases Names(plan.flow) - done
      {
        DoneIsStarted();
        assert |done| < |Names(plan.flow)|;
        assert done <= Names(plan.flow) && done != Names(plan.flow);
        var progressed := Sweep();
        DoneIsStarted();
        InFlightAreRunning();
        if inflight > 0 {
          Collect();
          DoneIsStarted();
          continue;
        }
        if !progressed {
          SomeStepIsReady(plan.flow, done);
          return;
        }
      }
      DoneIsStarted();
      SameSizeIsSame(done, Names(plan.flow));
    }

    lemma NamesAreApart()
      requires Valid()
      ensures UniqueNames(plan.flow)
    {
    }

    lemma InFlightAreRunning()
      requires Valid()
      ensures inflight > 0 <==> running.Keys != {}
    {
      assert |running| == |running.Keys|;
    }
  }

  lemma ReadyStays(flow: seq<Step>, done: set<string>, more: set<string>, name: string)
    requires done <= more
    ensures Ready(flow, done, name) ==> Ready(flow, more, name)
  {
    hide Deps;
  }

  lemma SameSizeIsSame(a: set<string>, b: set<string>)
    requires a <= b && |a| >= |b|
    ensures a == b
  {
    assert b == a + (b - a);
  }

  lemma {:induction false} EveryNameOnce(flow: seq<Step>)
    requires UniqueNames(flow)
    ensures |Names(flow)| == |flow|
  {
    if flow != [] {
      NamesOfTail(flow);
      EveryNameOnce(flow[1..]);
      assert flow[0].name !in Names(flow[1..]);
    }
  }

  /** Deadlock freedom: while a step is unfinished, one of the unfinished steps waits on
      nothing. */
  lemma SomeStepIsReady(flow: seq<Step>, done: set<string>)
    requires Accepted(flow) && done < Names(flow)
    ensures exists n :: n in Names(flow) && n !in done && Ready(flow, done, n)
  {
    hide Accepted;
    hide DependenciesOf;
    hide IsOrder;
    hide Names;
    var order := OrderOf(flow);
    var i := FirstUndone(order, Names(flow), done);
    StepEdgesStayInside(flow, order[i]);
    DepsComeFirst(flow, order, i);
    forall d | d in Deps(flow, order[i]) ensures d in done {
      var k :| 0 <= k < i && order[k] == d;
    }
    assert Ready(flow, done, order[i]);
  }

  lemma DepsComeFirst(flow: seq<Step>, order: seq<string>, i: nat)
    requires IsOrder(DependenciesOf(flow), order) && i < |order|
    ensures forall d :: d in Deps(flow, order[i]) ==> d in order[..i]
  {
    hide DependenciesOf;
  }

  lemma FirstUndone(order: seq<string>, names: set<string>, done: set<string>) returns (i: nat)
    requires done < names && forall n :: n in names ==> n in order
    ensures i < |order| && order[i] in names && order[i] !in done
    ensures forall k :: 0 <= k < i ==> order[k] in done || order[k] !in names
  {
    var missing :| missing in names && missing !in done;
    var at :| 0 <= at < |order| && order[at] == missing;
    i := 0;
    while order[i] in done || order[i] !in names
      invariant 0 <= i <= at
      invariant forall k :: 0 <= k < i ==> order[k] in done || order[k] !in names
      decreases at - i
    {
      i := i + 1;
    }
  }

  /** Some order of the flow's graph, which reaches every step. */
  lemma OrderOf(flow: seq<Step>) returns (order: seq<string>)
    requires Accepted(flow)
    ensures IsOrder(DependenciesOf(flow), order)
    ensures forall n :: n in Names(flow) ==> n in order
  {
    hide Acyclic;
    AcyclicMeansOrdered(DependenciesOf(flow));
    order :| Orders(DependenciesOf(flow), order);
    KeysAreNames(flow, |flow|);
  }

  lemma StepEdgesStayInside(flow: seq<Step>, name: string)
    requires Accepted(flow) && name in Names(flow)
    ensures forall d :: d in Deps(flow, name) ==> d in Names(flow)
  {
    NeedsAreDeps(flow, name);
  }
}
