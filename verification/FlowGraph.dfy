/** The dependency graph of a flow and the depth-first search that accepts or refuses
    it (internal/flow/graph.go, and the references part of flow.go's validation). */
module FlowGraph {
  import opened Wrappers
  import opened FlowNeeds
  import Order

  /** Edges from a step to those that must end first. A name that is no key has none. */
  type Graph = map<string, seq<string>>

  function Edges(g: Graph, name: string): seq<string> {
    if name in g then g[name] else []
  }

  predicate UniqueNames(flow: seq<Step>) {
    forall i, j :: 0 <= i < j < |flow| ==> flow[i].name != flow[j].name
  }

  function Names(flow: seq<Step>): set<string> {
    set i | 0 <= i < |flow| :: flow[i].name
  }

  // ---------------------------------------------------------------- dependencies

  /** The edges a step's position and its depends_on give it. */
  function WrittenWaits(flow: seq<Step>, i: nat): set<string>
    requires i < |flow|
  {
    match flow[i].dependsOn
    case None => if i > 0 then {flow[i - 1].name} else {}
    case Some(names) => set n | n in names
  }

  /** What a step waits on: its position's predecessor unless it writes depends_on,
      what it writes there, and every step it needs a value from; never itself. */
  function WaitsOn(flow: seq<Step>, i: nat): set<string>
    requires i < |flow|
  {
    WrittenWaits(flow, i) + NeededSteps(flow[i]) - {flow[i].name}
  }

  /** The graph of the first n steps; a name declared twice keeps its last edges. */
  function DependenciesOfFirst(flow: seq<Step>, n: nat): Graph
    requires n <= |flow|
  {
    if n == 0 then map[]
    else DependenciesOfFirst(flow, n - 1)[flow[n - 1].name := Order.Sorted(WaitsOn(flow, n - 1))]
  }

  function DependenciesOf(flow: seq<Step>): Graph {
    DependenciesOfFirst(flow, |flow|)
  }

  /** The steps named by the references of one step, in whatever order the map gives
      them. */
  method ReferencesOf(step: Step) returns (names: set<string>)
    ensures names == NeededSteps(step)
  {
    hide ParseReference;
    names := {};
    var keys := step.needs.Keys;
    while keys != {}
      invariant keys <= step.needs.Keys
      invariant names == set n | n in step.needs && n !in keys && ParseReference(step.needs[n]).Ok?
                             :: ParseReference(step.needs[n]).value.step
    {
      var name :| name in keys;
      var parsed := ParseReference(step.needs[name]);
      if parsed.Ok? {
        names := names + {parsed.value.step};
      }
      keys := keys - {name};
    }
  }

  method Dependencies(flow: seq<Step>) returns (deps: Graph)
    ensures deps == DependenciesOf(flow)
  {
    hide NeededSteps;
    hide Order.Sorted;
    deps := map[];
    for i := 0 to |flow|
      invariant deps == DependenciesOfFirst(flow, i)
    {
      var step := flow[i];
      var waits := WrittenWaits(flow, i);
      var needed := ReferencesOf(step);
      waits := waits + needed - {step.name};
      deps := deps[step.name := Order.Sorted(waits)];
    }
  }

  /** With distinct names the graph has one entry per step, holding what that step
      waits on and nothing else. */
  lemma {:induction false} EveryStepHasItsEdges(flow: seq<Step>, n: nat)
    requires n <= |flow| && UniqueNames(flow)
    ensures DependenciesOfFirst(flow, n).Keys == set i | 0 <= i < n :: flow[i].name
    ensures forall i :: 0 <= i < n ==>
              flow[i].name in DependenciesOfFirst(flow, n)
              && DependenciesOfFirst(flow, n)[flow[i].name] == Order.Sorted(WaitsOn(flow, i))
  {
    hide WaitsOn;
    hide Order.Sorted;
    if n > 0 {
      EveryStepHasItsEdges(flow, n - 1);
    }
  }

  /** With distinct names, a step waits on exactly: the names it writes under depends_on;
      its predecessor in the file when it does not write that; and the steps its references
      name; never on itself. The names are in ascending order. */
  lemma EdgesAreExact(flow: seq<Step>, i: nat, d: string)
    requires UniqueNames(flow) && i < |flow|
    ensures d in Edges(DependenciesOf(flow), flow[i].name) <==>
              d != flow[i].name
              && (|| (flow[i].dependsOn.Some? && d in flow[i].dependsOn.value)
                  || (flow[i].dependsOn.None? && i > 0 && d == flow[i - 1].name)
                  || exists n :: n in flow[i].needs && RefersTo(flow[i].needs[n], d))
    ensures Order.Ascending(Edges(DependenciesOf(flow), flow[i].name))
  {
    EveryStepHasItsEdges(flow, |flow|);
    NeededStepsAreNamed(flow[i], d);
    hide DependenciesOfFirst;
    hide NeededSteps;
    hide RefersTo;
  }

  // ---------------------------------------------------------------- walks and orders

  ghost predicate IsWalk(g: Graph, w: seq<string>) {
    w != [] && forall i :: 0 <= i < |w| - 1 ==> w[i + 1] in Edges(g, w[i])
  }

  /** A walk along the edges that comes back to where it started. */
  ghost predicate IsCycle(g: Graph, w: seq<string>) {
    IsWalk(g, w) && |w| >= 2 && w[0] == w[|w| - 1]
  }

  ghost predicate Acyclic(g: Graph) {
    forall w :: !IsCycle(g, w)
  }

  /** An order in which every name comes after everything it waits on. */
  ghost predicate IsOrder(g: Graph, order: seq<string>) {
    && (forall i, j :: 0 <= i < j < |order| ==> order[i] != order[j])
    && (forall i :: 0 <= i < |order| ==> forall d :: d in Edges(g, order[i]) ==> d in order[..i])
  }

  lemma SettlingKeepsOrder(g: Graph, order: seq<string>, name: string)
    requires IsOrder(g, order) && name !in order
    requires forall d :: d in Edges(g, name) ==> d in order
    ensures IsOrder(g, order + [name])
  {
    var longer := order + [name];
    forall i | 0 <= i < |longer| ensures forall d :: d in Edges(g, longer[i]) ==> d in longer[..i] {
      assert longer[..i] == order[..i];
      if i == |order| { assert order[..i] == order; }
    }
  }

  lemma {:induction false} WalksDescend(g: Graph, order: seq<string>, w: seq<string>, i: nat)
    requires IsOrder(g, order) && IsWalk(g, w)
    requires i < |order| && w[0] == order[i]
    ensures forall k :: 1 <= k < |w| ==> w[k] in order[..i]
  {
    if |w| > 1 {
      assert w[1] in Edges(g, w[0]);
      var j :| 0 <= j < i && order[j] == w[1];
      WalkTail(g, w);
      WalksDescend(g, order, w[1..], j);
      forall k | 1 <= k < |w| ensures w[k] in order[..i] {
        if k > 1 { assert w[k] == w[1..][k - 1]; }
      }
    }
  }

  lemma WalkTail(g: Graph, w: seq<string>)
    requires IsWalk(g, w) && |w| > 1
    ensures IsWalk(g, w[1..])
  {
    forall i | 0 <= i < |w[1..]| - 1 ensures w[1..][i + 1] in Edges(g, w[1..][i]) {
      assert w[i + 2] in Edges(g, w[i + 1]);
    }
  }

  /** A graph whose names can be put in order has no cycle. */
  lemma OrderRulesOutCycles(g: Graph, order: seq<string>)
    requires IsOrder(g, order)
    requires forall n :: n in g ==> n in order
    ensures Acyclic(g)
  {
    forall w | IsCycle(g, w) ensures false {
      assert w[1] in Edges(g, w[0]);
      var i :| 0 <= i < |order| && order[i] == w[0];
      WalksDescend(g, order, w, i);
      assert false;
    }
  }

  /** Every name a graph mentions. */
  function Nodes(g: Graph): set<string> {
    g.Keys + set n, d | n in g && d in g[n] :: d
  }

  /** An order that reaches every name of the graph. */
  ghost predicate Orders(g: Graph, order: seq<string>) {
    IsOrder(g, order) && forall n :: n in g ==> n in order
  }

  lemma {:induction false} LongWalksRepeat(w: seq<string>, names: set<string>)
    requires forall x :: x in w ==> x in names
    requires |w| > |names|
    ensures exists i, j :: 0 <= i < j < |w| && w[i] == w[j]
  {
    var n := |w| - 1;
    if exists i :: 0 <= i < n && w[i] == w[n] {
    } else {
      assert w[n] in names;
      forall x | x in w[..n] ensures x in names - {w[n]} {
        assert x in w;
      }
      LongWalksRepeat(w[..n], names - {w[n]});
      var i, j :| 0 <= i < j < n && w[..n][i] == w[..n][j];
      assert w[i] == w[j];
    }
  }

  ghost predicate WaitsInside(g: Graph, n: string, names: set<string>) {
    exists d :: d in Edges(g, n) && d in names
  }

  lemma OneInside(g: Graph, n: string, names: set<string>) returns (d: string)
    requires WaitsInside(g, n, names)
    ensures d in Edges(g, n) && d in names
  {
    d :| d in Edges(g, n) && d in names;
  }

  /** Among names that all wait on one of their own there is a walk of any length. */
  lemma {:induction false} WalkAmong(g: Graph, names: set<string>, start: string, k: nat)
    returns (w: seq<string>)
    requires start in names
    requires forall n :: n in names ==> WaitsInside(g, n, names)
    ensures |w| == k + 1 && w[0] == start && IsWalk(g, w)
    ensures forall x :: x in w ==> x in names
    decreases k
  {
    hide WaitsInside;
    if k == 0 {
      w := [start];
    } else {
      var d := OneInside(g, start, names);
      var rest := WalkAmong(g, names, d, k - 1);
      w := [start] + rest;
      WalkBefore(g, start, rest);
    }
  }

  lemma WalkBefore(g: Graph, name: string, rest: seq<string>)
    requires IsWalk(g, rest) && rest[0] in Edges(g, name)
    ensures IsWalk(g, [name] + rest)
  {
    var w := [name] + rest;
    forall i | 0 <= i < |w| - 1 ensures w[i + 1] in Edges(g, w[i]) {
      if i > 0 { assert rest[i] in Edges(g, rest[i - 1]); }
    }
  }

  /** Without a cycle, some name of any set waits on none of that set. */
  lemma SomeNameIsFree(g: Graph, names: set<string>)
    requires Acyclic(g) && names != {}
    ensures exists n :: n in names && !WaitsInside(g, n, names)
  {
    hide WaitsInside;
    if forall n :: n in names ==> WaitsInside(g, n, names) {
      var start :| start in names;
      var w := WalkAmong(g, names, start, |names|);
      LongWalksRepeat(w, names);
      var i, j :| 0 <= i < j < |w| && w[i] == w[j];
      WalksCutIntoCycles(g, w, i, j);
    }
  }

  lemma WalksCutIntoCycles(g: Graph, w: seq<string>, i: nat, j: nat)
    requires IsWalk(g, w) && i < j < |w| && w[i] == w[j]
    ensures IsCycle(g, w[i..j + 1])
  {
    var loop := w[i..j + 1];
    forall k | 0 <= k < |loop| - 1 ensures loop[k + 1] in Edges(g, loop[k]) {
      assert w[i + k + 1] in Edges(g, w[i + k]);
    }
  }

  lemma {:induction false} OrderExtends(g: Graph, order: seq<string>)
    requires Acyclic(g) && IsOrder(g, order)
    ensures exists longer :: Orders(g, longer)
    decreases Nodes(g) - set n | n in order
  {
    hide Acyclic;
    var rest := Nodes(g) - set n | n in order;
    if rest == {} {
      assert forall n :: n in g ==> n in Nodes(g) && n !in rest;
      assert Orders(g, order);
    } else {
      SomeNameIsFree(g, rest);
      var n :| n in rest && !WaitsInside(g, n, rest);
      forall d | d in Edges(g, n) ensures d in order {
        assert d in Nodes(g);
      }
      SettlingKeepsOrder(g, order, n);
      OrderExtends(g, order + [n]);
    }
  }

  /** A graph can be put in order exactly when it has no cycle. */
  lemma AcyclicMeansOrdered(g: Graph)
    ensures Acyclic(g) <==> exists order :: Orders(g, order)
  {
    if Acyclic(g) {
      OrderExtends(g, []);
    }
    if exists order :: Orders(g, order) {
      var order :| Orders(g, order);
      OrderRulesOutCycles(g, order);
    }
  }

  // ---------------------------------------------------------------- findCycle

  datatype Colour = OnStack | Settled

  /** The part of the path from the first visit of `start` on, closed with `start`. */
  method CycleFrom(path: seq<string>, start: string) returns (loop: seq<string>)
    ensures start in path ==>
              exists i :: 0 <= i < |path| && path[i] == start && start !in path[..i] && loop == path[i..] + [start]
  {
    var from := 0;
    for i := 0 to |path|
      invariant from == 0
      invariant start !in path[..i]
    {
      if path[i] == start {
        from := i;
        break;
      }
    }
    loop := path[from..] + [start];
  }

  /** The search's variables: what findCycle's closure captures. A name without a
      colour is unvisited. */
  class CycleSearch {
    const deps: Graph
    var state: map<string, Colour>
    var path: seq<string>
    /** The settled names in the order they settled. */
    ghost var order: seq<string>

    ghost predicate Valid()
      reads this
    {
      && state.Keys <= Nodes(deps)
      && (forall n :: n in path <==> n in state && state[n] == OnStack)
      && (forall n :: n in order <==> n in state && state[n] == Settled)
      && (path != [] ==> IsWalk(deps, path))
      && IsOrder(deps, order)
    }

    constructor (deps: Graph)
      ensures Valid() && this.deps == deps && state == map[] && path == [] && order == []
    {
      this.deps, this.state, this.path, this.order := deps, map[], [], [];
    }

    /** Puts an unvisited name on the stack. */
    method Enter(name: string)
      requires Valid()
      requires name in Nodes(deps) && name !in state
      requires path != [] ==> name in Edges(deps, path[|path| - 1])
      modifies this
      ensures Valid() && path == old(path) + [name] && order == old(order)
      ensures state == old(state)[name := OnStack]
    {
      state := state[name := OnStack];
      path := path + [name];
    }

    /** Takes the name on top of the stack off it, all it waits on having settled. */
    method Leave(name: string)
      requires Valid()
      requires path != [] && path[|path| - 1] == name && name !in path[..|path| - 1]
      requires forall d :: d in Edges(deps, name) ==> d in order
      modifies this
      ensures Valid() && path == old(path)[..|old(path)| - 1] && order == old(order) + [name]
      ensures state == old(state)[name := Settled]
    {
      assert path == path[..|path| - 1] + [name];
      assert state[name] == OnStack;
      SettlingKeepsOrder(deps, order, name);
      path := path[..|path| - 1];
      state := state[name := Settled];
      order := order + [name];
    }

    /** Explores one unvisited name. Either it and all it waits on settle, with the
        path as it was, or the loop that was met is returned. */
    method Walk(name: string) returns (cycle: Option<seq<string>>)
      requires Valid()
      requires name in Nodes(deps) && name !in state
      requires path != [] ==> name in Edges(deps, path[|path| - 1])
      modifies this
      ensures cycle.None? ==> Valid() && path == old(path) && old(order) <= order && name in order
      ensures cycle.None? ==> old(state.Keys) <= state.Keys
      ensures cycle.Some? ==> IsCycle(deps, cycle.value)
      decreases Nodes(deps) - state.Keys
    {
      hide IsOrder;
      hide IsWalk;
      Enter(name);
      ghost var stack := path;
      var next := Edges(deps, name);
      for k := 0 to |next|
        invariant Valid() && path == stack
        invariant old(order) <= order
        invariant forall d :: d in next[..k] ==> d in order
        invariant old(state.Keys) + {name} <= state.Keys
      {
        assert name in deps && next[k] in deps[name];
        if next[k] in state && state[next[k]] == OnStack {
          var loop := CycleFrom(path, next[k]);
          LoopIsACycle(deps, path, next[k], loop);
          return Some(loop);
        }
        if next[k] !in state {
          var c := Walk(next[k]);
          if c.Some? {
            return c;
          }
        }
      }
      assert next[..|next|] == next;
      assert stack[..|stack| - 1] == old(path);
      Leave(name);
      cycle := None;
    }
  }

  lemma LoopIsACycle(g: Graph, path: seq<string>, start: string, loop: seq<string>)
    requires IsWalk(g, path) && start in Edges(g, path[|path| - 1])
    requires exists i :: 0 <= i < |path| && path[i] == start && start !in path[..i] && loop == path[i..] + [start]
    ensures IsCycle(g, loop)
  {
    var i :| 0 <= i < |path| && path[i] == start && start !in path[..i] && loop == path[i..] + [start];
    forall k | 0 <= k < |loop| - 1 ensures loop[k + 1] in Edges(g, loop[k]) {
      assert loop[k] == path[i + k];
      if k + 1 < |loop| - 1 { assert loop[k + 1] == path[i + k + 1]; }
    }
  }

  /** Nothing is returned exactly when the graph has no cycle; what is returned otherwise
      is a cycle of the graph. */
  method FindCycle(flow: seq<Step>) returns (cycle: Option<seq<string>>)
    ensures cycle.None? <==> Acyclic(DependenciesOf(flow))
    ensures cycle.Some? ==> IsCycle(DependenciesOf(flow), cycle.value)
  {
    hide DependenciesOfFirst;
    var deps := Dependencies(flow);
    var search := new CycleSearch(deps);
    KeysAreNames(flow, |flow|);
    for i := 0 to |flow|
      invariant search.Valid() && search.path == [] && search.deps == deps
      invariant forall j :: 0 <= j < i ==> flow[j].name in search.order
    {
      if flow[i].name !in search.state {
        var c := search.Walk(flow[i].name);
        if c.Some? {
          return c;
        }
      }
    }
    OrderRulesOutCycles(deps, search.order);
    cycle := None;
  }

  lemma {:induction false} KeysAreNames(flow: seq<Step>, n: nat)
    requires n <= |flow|
    ensures DependenciesOfFirst(flow, n).Keys == set i | 0 <= i < n :: flow[i].name
  {
    hide WaitsOn;
    hide Order.Sorted;
    if n > 0 {
      KeysAreNames(flow, n - 1);
    }
  }
}
