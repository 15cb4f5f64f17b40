/** What makes a flow acceptable (internal/flow/flow.go, validateSteps, and the
    per-step checks it calls that bear on ordering). */
module FlowValidation {
  import opened Wrappers
  import opened FlowNeeds
  import opened FlowGraph
  import Order

  datatype FlowError =
    | Unnamed(position: nat)
    | DeclaredTwice(name: string)
    | BadNeed(step: string)
    | DependsOnItself(step: string)
    | DependsOnUnknown(step: string, name: string)
    | Cycle(loop: seq<string>)

  /** Every reference parses, and names another step of the flow. */
  predicate NeedsAreSound(step: Step, known: set<string>) {
    forall n :: n in step.needs ==>
      var parsed := ParseReference(step.needs[n]);
      parsed.Ok? && parsed.value.step != step.name && parsed.value.step in known
  }

  predicate DependsOnAreSound(step: Step, known: set<string>) {
    step.dependsOn.Some? ==> forall d :: d in step.dependsOn.value ==> d != step.name && d in known
  }

  ghost predicate Accepted(flow: seq<Step>) {
    && (forall i :: 0 <= i < |flow| ==> flow[i].name != "")
    && UniqueNames(flow)
    && (forall i :: 0 <= i < |flow| ==> NeedsAreSound(flow[i], Names(flow)))
    && (forall i :: 0 <= i < |flow| ==> DependsOnAreSound(flow[i], Names(flow)))
    && Acyclic(DependenciesOf(flow))
  }

  /** Acceptance spelled out: names are given and distinct, references and depends_on name
      other steps of the flow, and no chain of waiting comes back to where it started. */
  lemma AcceptedExactly(flow: seq<Step>)
    ensures Accepted(flow) <==>
              && (forall i :: 0 <= i < |flow| ==> flow[i].name != "")
              && (forall i, j :: 0 <= i < j < |flow| ==> flow[i].name != flow[j].name)
              && (forall i, n :: 0 <= i < |flow| && n in flow[i].needs ==> NamesAnother(flow, i, flow[i].needs[n]))
              && (forall i, d :: 0 <= i < |flow| && flow[i].dependsOn.Some? && d in flow[i].dependsOn.value ==>
                    IsAnother(flow, i, d))
              && Acyclic(DependenciesOf(flow))
  {
    hide DependenciesOf;
    forall i, n | 0 <= i < |flow| && n in flow[i].needs
      ensures NamesAnother(flow, i, flow[i].needs[n]) <==>
                var parsed := ParseReference(flow[i].needs[n]);
                parsed.Ok? && parsed.value.step != flow[i].name && parsed.value.step in Names(flow)
    {
      NamingIsParsing(flow, i, flow[i].needs[n]);
    }
    hide ParseReference;
    hide NamesAnother;
  }

  /** The name is that of a step, and not this one's. */
  ghost predicate IsAnother(flow: seq<Step>, i: nat, d: string)
    requires i < |flow|
  {
    d != flow[i].name && exists j :: 0 <= j < |flow| && flow[j].name == d
  }

  /** The text refers to an output of another step of the flow. */
  ghost predicate NamesAnother(flow: seq<Step>, i: nat, text: string)
    requires i < |flow|
  {
    exists d :: RefersTo(text, d) && IsAnother(flow, i, d)
  }

  lemma NamingIsParsing(flow: seq<Step>, i: nat, text: string)
    requires i < |flow|
    ensures NamesAnother(flow, i, text) <==>
              var parsed := ParseReference(text);
              parsed.Ok? && parsed.value.step != flow[i].name && parsed.value.step in Names(flow)
  {
    forall d ensures RefersTo(text, d) <==> ParseReference(text).Ok? && ParseReference(text).value.step == d {
      RefersExactly(text, d);
    }
    hide ParseReference;
    hide RefersTo;
    if ParseReference(text).Ok? {
      var d := ParseReference(text).value.step;
      assert RefersTo(text, d);
    }
  }

  /** What a refusal says of the flow is so. */
  ghost predicate Tells(flow: seq<Step>, e: FlowError) {
    match e
    case Unnamed(position) => 1 <= position <= |flow| && flow[position - 1].name == ""
    case DeclaredTwice(name) => exists i, j :: 0 <= i < j < |flow| && flow[i].name == name == flow[j].name
    case BadNeed(step) =>
      exists i, n :: 0 <= i < |flow| && flow[i].name == step && n in flow[i].needs
                     && !NamesAnother(flow, i, flow[i].needs[n])
    case DependsOnItself(step) =>
      exists i :: 0 <= i < |flow| && flow[i].name == step && flow[i].dependsOn.Some? && step in flow[i].dependsOn.value
    case DependsOnUnknown(step, name) =>
      name !in Names(flow)
      && exists i :: 0 <= i < |flow| && flow[i].name == step && flow[i].dependsOn.Some?
                     && name in flow[i].dependsOn.value
    case Cycle(loop) => IsCycle(DependenciesOf(flow), loop)
  }

  method ValidateNeeds(step: Step, known: set<string>) returns (ok: bool)
    ensures ok == NeedsAreSound(step, known)
  {
    hide ParseReference;
    var keys := step.needs.Keys;
    while keys != {}
      invariant keys <= step.needs.Keys
      invariant forall n :: n in step.needs && n !in keys ==>
                  var parsed := ParseReference(step.needs[n]);
                  parsed.Ok? && parsed.value.step != step.name && parsed.value.step in known
    {
      var name :| name in keys;
      var parsed := ParseReference(step.needs[name]);
      if parsed.Err? || parsed.value.step == step.name || parsed.value.step !in known {
        return false;
      }
      keys := keys - {name};
    }
    ok := true;
  }

  method ValidateDependsOn(step: Step, known: set<string>) returns (r: Option<FlowError>)
    ensures r.None? <==> DependsOnAreSound(step, known)
    ensures r.Some? ==>
              || (r.value == DependsOnItself(step.name) && step.dependsOn.Some? && step.name in step.dependsOn.value)
              || (r.value.DependsOnUnknown? && r.value.step == step.name && r.value.name !in known
                  && step.dependsOn.Some? && r.value.name in step.dependsOn.value)
  {
    if step.dependsOn.Some? {
      var names := step.dependsOn.value;
      for k := 0 to |names|
        invariant forall d :: d in names[..k] ==> d != step.name && d in known
      {
        assert names[k] in names && names[..k + 1] == names[..k] + [names[k]];
        if names[k] == step.name {
          return Some(DependsOnItself(step.name));
        }
        if names[k] !in known {
          return Some(DependsOnUnknown(step.name, names[k]));
        }
      }
      assert names[..|names|] == names;
    }
    r := None;
  }

  method CollectNames(flow: seq<Step>) returns (r: Result<set<string>, FlowError>)
    ensures r.Ok? <==> UniqueNames(flow) && forall i :: 0 <= i < |flow| ==> flow[i].name != ""
    ensures r.Ok? ==> r.value == Names(flow)
    ensures r.Err? ==> Tells(flow, r.error)
  {
    var known: set<string> := {};
    for i := 0 to |flow|
      invariant known == set k | 0 <= k < i :: flow[k].name
      invariant forall k :: 0 <= k < i ==> flow[k].name != ""
      invariant forall j, k :: 0 <= j < k < i ==> flow[j].name != flow[k].name
    {
      if flow[i].name == "" {
        return Err(Unnamed(i + 1));
      }
      if flow[i].name in known {
        return Err(DeclaredTwice(flow[i].name));
      }
      known := known + {flow[i].name};
    }
    r := Ok(known);
  }

  /** Refuses a flow exactly when it is not acceptable, and for a reason that is so. */
  method ValidateSteps(flow: seq<Step>) returns (r: Result<(), FlowError>)
    ensures r.Ok? <==> Accepted(flow)
    ensures r.Err? ==> Tells(flow, r.error)
  {
    hide NeedsAreSound;
    hide DependsOnAreSound;
    hide DependenciesOf;
    var names := CollectNames(flow);
    if names.Err? {
      return Err(names.error);
    }
    for i := 0 to |flow|
      invariant forall k :: 0 <= k < i ==> NeedsAreSound(flow[k], Names(flow))
    {
      var ok := ValidateNeeds(flow[i], names.value);
      if !ok {
        BadNeedIsTold(flow, i);
        return Err(BadNeed(flow[i].name));
      }
    }
    for i := 0 to |flow|
      invariant forall k :: 0 <= k < i ==> DependsOnAreSound(flow[k], Names(flow))
    {
      var bad := ValidateDependsOn(flow[i], names.value);
      if bad.Some? {
        return Err(bad.value);
      }
    }
    var cycle := FindCycle(flow);
    if cycle.Some? {
      return Err(Cycle(cycle.value));
    }
    r := Ok(());
  }

  lemma BadNeedIsTold(flow: seq<Step>, i: nat)
    requires i < |flow| && !NeedsAreSound(flow[i], Names(flow))
    ensures Tells(flow, BadNeed(flow[i].name))
  {
    var n :| n in flow[i].needs
             && var parsed := ParseReference(flow[i].needs[n]);
                !(parsed.Ok? && parsed.value.step != flow[i].name && parsed.value.step in Names(flow));
    NamingIsParsing(flow, i, flow[i].needs[n]);
  }

  /** In an accepted flow every edge leads from one step to another of the same flow,
      and every value a step needs comes along an edge. */
  lemma EdgesStayInside(flow: seq<Step>, i: nat)
    requires Accepted(flow) && i < |flow|
    ensures forall d :: d in Edges(DependenciesOf(flow), flow[i].name) ==> d in Names(flow)
    ensures forall d :: d in NeededSteps(flow[i]) ==> d in Edges(DependenciesOf(flow), flow[i].name)
    ensures flow[i].dependsOn.None? && i > 0 ==> flow[i - 1].name in Edges(DependenciesOf(flow), flow[i].name)
  {
    hide ParseReference;
    hide Acyclic;
    hide DependenciesOfFirst;
    hide Order.Sorted;
    EveryStepHasItsEdges(flow, |flow|);
    assert Edges(DependenciesOf(flow), flow[i].name) == Order.Sorted(WaitsOn(flow, i));
    WaitsStayInside(flow, i);
  }

  lemma WaitsStayInside(flow: seq<Step>, i: nat)
    requires Accepted(flow) && i < |flow|
    ensures WaitsOn(flow, i) <= Names(flow)
    ensures NeededSteps(flow[i]) <= WaitsOn(flow, i)
    ensures flow[i].dependsOn.None? && i > 0 ==> flow[i - 1].name in WaitsOn(flow, i)
  {
    hide ParseReference;
    hide Acyclic;
    hide DependenciesOf;
    assert NeedsAreSound(flow[i], Names(flow)) && DependsOnAreSound(flow[i], Names(flow));
  }
}
