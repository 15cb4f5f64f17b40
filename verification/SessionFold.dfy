/** Folding timed events into open and sealed work blocks (internal/sessions/sessions.go).
    Times are nanoseconds. Blocks of different keys never meet, so the meaning of a fold
    is given key by key and the order a map is walked in cannot matter. */
module SessionFold {
  import opened Wrappers

  const SECOND := 1000000000
  const MINUTE := 60 * SECOND
  const GAP_TIMEOUT := 900 * SECOND
  const SEAL_TIMEOUT := 1800 * SECOND

  /** What events and blocks add up; costs are left out. */
  datatype Totals = Totals(events: int, tokensIn: int, tokensOut: int, cacheRead: int, cacheWrite: int)

  const ZERO := Totals(0, 0, 0, 0, 0)

  function Plus(a: Totals, b: Totals): Totals {
    Totals(a.events + b.events, a.tokensIn + b.tokensIn, a.tokensOut + b.tokensOut,
           a.cacheRead + b.cacheRead, a.cacheWrite + b.cacheWrite)
  }

  datatype Event = Event(
    time: int, agent: string, project: string, branch: string, model: string,
    tokensIn: int, tokensOut: int, cacheRead: int, cacheWrite: int)

  datatype Block = Block(
    project: string, machine: string, agent: string, branch: string, model: string,
    startedAt: int, endedAt: int, totals: Totals)

  /** What the block's ID is a hash of: the machine, agent and project, and the second the
      block started in. The hash is taken to be injective. */
  datatype BlockId = BlockId(owner: string, second: int)

  function IdOf(b: Block): BlockId {
    BlockId(b.machine + "|" + b.agent + "|" + b.project, b.startedAt / SECOND)
  }

  function Lower(s: string): string {
    if s == "" then ""
    else [if 'A' <= s[0] <= 'Z' then (s[0] as int + 32) as char else s[0]] + Lower(s[1..])
  }

  function KeyOf(project: string, agent: string): string {
    Lower(project) + "|" + agent
  }

  function KeyOfEvent(ev: Event): string { KeyOf(ev.project, ev.agent) }

  function KeyOfBlock(b: Block): string { KeyOf(b.project, b.agent) }

  function TotalsOf(ev: Event): Totals {
    Totals(1, ev.tokensIn, ev.tokensOut, ev.cacheRead, ev.cacheWrite)
  }

  // ---------------------------------------------------------------- sorting

  predicate Chronological(events: seq<Event>) {
    forall i, j :: 0 <= i < j < |events| ==> events[i].time <= events[j].time
  }

  /** Puts an event after every event no later than it. */
  function InsertLate(sorted: seq<Event>, ev: Event): seq<Event>
    decreases |sorted|
  {
    var n := |sorted|;
    if n == 0 || sorted[n - 1].time <= ev.time then sorted + [ev]
    else InsertLate(sorted[..n - 1], ev) + [sorted[n - 1]]
  }

  lemma {:induction false} InsertLateAddsOne(sorted: seq<Event>, ev: Event)
    ensures multiset(InsertLate(sorted, ev)) == multiset(sorted) + multiset{ev}
    decreases |sorted|
  {
    var n := |sorted|;
    if n > 0 && sorted[n - 1].time > ev.time {
      InsertLateAddsOne(sorted[..n - 1], ev);
      assert sorted == sorted[..n - 1] + [sorted[n - 1]];
    }
  }

  lemma {:induction false} InsertLateKeepsOrder(sorted: seq<Event>, ev: Event)
    requires Chronological(sorted)
    ensures Chronological(InsertLate(sorted, ev))
    decreases |sorted|
  {
    var n := |sorted|;
    if n > 0 && sorted[n - 1].time > ev.time {
      var rest := InsertLate(sorted[..n - 1], ev);
      InsertLateKeepsOrder(sorted[..n - 1], ev);
      InsertLateAddsOne(sorted[..n - 1], ev);
      forall i | 0 <= i < |rest| ensures rest[i].time <= sorted[n - 1].time {
        assert rest[i] in multiset(rest);
        assert rest[i] == ev || rest[i] in sorted[..n - 1];
      }
    }
  }

  /** A stable sort by time. */
  function SortByTime(events: seq<Event>): (r: seq<Event>)
    ensures Chronological(r)
    ensures multiset(r) == multiset(events)
    decreases |events|
  {
    var n := |events|;
    if n == 0 then []
    else
      assert events == events[..n - 1] + [events[n - 1]];
      InsertLateKeepsOrder(SortByTime(events[..n - 1]), events[n - 1]);
      InsertLateAddsOne(SortByTime(events[..n - 1]), events[n - 1]);
      InsertLate(SortByTime(events[..n - 1]), events[n - 1])
  }

  ghost predicate AllBefore(a: seq<Event>, b: seq<Event>) {
    forall x, y :: x in a && y in b ==> x.time < y.time
  }

  lemma InsertLateBefore(earlier: seq<Event>, last: Event, ev: Event)
    ensures InsertLate(earlier + [last], ev)
              == if last.time <= ev.time then earlier + [last] + [ev] else InsertLate(earlier, ev) + [last]
  {
    assert (earlier + [last])[..|earlier|] == earlier;
  }

  lemma InsertLateAtEnd(a: seq<Event>, ev: Event)
    requires forall x :: x in a ==> x.time < ev.time
    ensures InsertLate(a, ev) == a + [ev] && InsertLate([], ev) == [ev]
  {
    assert a == [] || a[|a| - 1] in a;
  }

  lemma {:induction false} InsertLateIgnoresEarlier(a: seq<Event>, b: seq<Event>, ev: Event)
    requires forall x :: x in a ==> x.time < ev.time
    ensures InsertLate(a + b, ev) == a + InsertLate(b, ev)
    decreases |b|
  {
    hide InsertLate;
    if b == [] {
      assert a + b == a;
      InsertLateAtEnd(a, ev);
    } else {
      var rest, last := b[..|b| - 1], b[|b| - 1];
      assert b == rest + [last];
      Regroups(a, rest, [last]);
      InsertLateBefore(rest, last, ev);
      InsertLateBefore(a + rest, last, ev);
      if last.time > ev.time {
        InsertLateIgnoresEarlier(a, rest, ev);
        Regroups(a, InsertLate(rest, ev), [last]);
      } else {
        Regroups(a, rest + [last], [ev]);
      }
    }
  }

  lemma Regroups(a: seq<Event>, b: seq<Event>, c: seq<Event>)
    ensures a + (b + c) == a + b + c
  {
  }

  /** A batch later than another sorts after it, whole. */
  lemma {:induction false} LaterBatchesSortApart(a: seq<Event>, b: seq<Event>)
    requires AllBefore(a, b)
    ensures SortByTime(a + b) == SortByTime(a) + SortByTime(b)
    decreases |b|
  {
    var n := |b|;
    if n == 0 {
      assert a + b == a;
    } else {
      var ev := b[n - 1];
      assert ev in b;
      assert (a + b)[..|a + b| - 1] == a + b[..n - 1] && (a + b)[|a + b| - 1] == ev;
      LaterBatchesSortApart(a, b[..n - 1]);
      SortedMembers(a);
      InsertLateIgnoresEarlier(SortByTime(a), SortByTime(b[..n - 1]), ev);
    }
  }

  lemma SortedMembers(a: seq<Event>)
    ensures forall x :: x in SortByTime(a) <==> x in a
  {
    forall x ensures x in SortByTime(a) <==> x in a {
      assert x in SortByTime(a) <==> x in multiset(SortByTime(a));
      assert x in a <==> x in multiset(a);
    }
  }

  // ---------------------------------------------------------------- one key

  /** One key's part of the state: its open block and what it has sealed so far. */
  datatype Line = Line(open: Option<Block>, sealed: seq<Block>)

  /** Widens the block to cover the event, in either direction, and adds its counters. */
  function ApplyEvent(b: Block, ev: Event): Block {
    b.(startedAt := if ev.time < b.startedAt then ev.time else b.startedAt,
       endedAt := if ev.time > b.endedAt then ev.time else b.endedAt,
       branch := if ev.branch != "" then ev.branch else b.branch,
       model := if ev.model != "" then ev.model else b.model,
       totals := Plus(b.totals, TotalsOf(ev)))
  }

  function NewBlock(machine: string, ev: Event): Block {
    Block(ev.project, machine, ev.agent, "", "", ev.time, ev.time, ZERO)
  }

  predicate GapBefore(b: Block, ev: Event) {
    ev.time > b.endedAt + GAP_TIMEOUT
  }

  predicate Stale(b: Block, now: int) {
    now - b.endedAt > SEAL_TIMEOUT
  }

  function StepLine(machine: string, l: Line, ev: Event): Line {
    match l.open
    case Some(b) =>
      if GapBefore(b, ev) then Line(Some(ApplyEvent(NewBlock(machine, ev), ev)), l.sealed + [b])
      else Line(Some(ApplyEvent(b, ev)), l.sealed)
    case None => Line(Some(ApplyEvent(NewBlock(machine, ev), ev)), l.sealed)
  }

  function FoldLine(machine: string, l: Line, events: seq<Event>): Line
    decreases |events|
  {
    if events == [] then l else FoldLine(machine, StepLine(machine, l, events[0]), events[1..])
  }

  function SealStale(l: Line, now: int): Line {
    if l.open.Some? && Stale(l.open.value, now) then Line(None, l.sealed + [l.open.value]) else l
  }

  /** What one scan does to one key. */
  function ScanLine(machine: string, l: Line, events: seq<Event>, now: int): Line {
    SealStale(FoldLine(machine, l, events), now)
  }

  function EventsOf(events: seq<Event>, key: string): seq<Event> {
    if events == [] then []
    else
      var rest := EventsOf(events[1..], key);
      if KeyOfEvent(events[0]) == key then [events[0]] + rest else rest
  }

  function BlocksOf(blocks: seq<Block>, key: string): seq<Block> {
    if blocks == [] then []
    else
      var rest := BlocksOf(blocks[1..], key);
      if KeyOfBlock(blocks[0]) == key then [blocks[0]] + rest else rest
  }

  function OpenAt(open: map<string, Block>, key: string): Option<Block> {
    if key in open then Some(open[key]) else None
  }

  lemma {:induction false} EventsOfJoin(a: seq<Event>, b: seq<Event>, key: string)
    ensures EventsOf(a + b, key) == EventsOf(a, key) + EventsOf(b, key)
  {
    hide KeyOf;
    if a == [] {
      assert a + b == b;
    } else {
      EventsOfJoin(a[1..], b, key);
      assert (a + b)[1..] == a[1..] + b;
    }
  }

  lemma {:induction false} BlocksOfJoin(a: seq<Block>, b: seq<Block>, key: string)
    ensures BlocksOf(a + b, key) == BlocksOf(a, key) + BlocksOf(b, key)
  {
    if a == [] {
      assert a + b == b;
    } else {
      var rest := a[1..] + b;
      assert a + b == [a[0]] + rest && a == [a[0]] + a[1..];
      hide *;
      BlocksOfJoin(a[1..], b, key);
      BlocksOfFirst(a[0], rest, key);
      BlocksOfFirst(a[0], a[1..], key);
    }
  }

  lemma BlocksOfFirst(x: Block, rest: seq<Block>, key: string)
    ensures BlocksOf([x] + rest, key)
            == (if KeyOfBlock(x) == key then [x] + BlocksOf(rest, key) else BlocksOf(rest, key))
  {
    hide KeyOf;
    assert ([x] + rest)[1..] == rest;
  }

  lemma BlocksOfOne(b: Block, key: string)
    ensures BlocksOf([b], key) == if KeyOfBlock(b) == key then [b] else []
  {
    assert [b][1..] == [];
  }

  lemma {:induction false} MembersByKey(blocks: seq<Block>, b: Block)
    ensures b in blocks <==> b in BlocksOf(blocks, KeyOfBlock(b))
  {
    if blocks != [] {
      MembersByKey(blocks[1..], b);
      assert blocks == [blocks[0]] + blocks[1..];
    }
  }

  // ---------------------------------------------------------------- the fold

  /** Every open block is filed under its own key. */
  ghost predicate Filed(open: map<string, Block>) {
    forall k :: k in open ==> KeyOfBlock(open[k]) == k
  }

  /** The state after part of a fold, read key by key. */
  ghost predicate Follows(machine: string, before: map<string, Block>, events: seq<Event>,
                          open: map<string, Block>, sealed: seq<Block>) {
    forall k :: Line(OpenAt(open, k), BlocksOf(sealed, k))
                == FoldLine(machine, Line(OpenAt(before, k), []), EventsOf(events, k))
  }

  /** What a whole fold does: each key's line takes its own events in time order, and is
      then sealed if it has gone quiet. */
  ghost predicate Folded(machine: string, before: map<string, Block>, events: seq<Event>, now: int,
                         open: map<string, Block>, sealed: seq<Block>) {
    forall k :: Line(OpenAt(open, k), BlocksOf(sealed, k))
                == ScanLine(machine, Line(OpenAt(before, k), []), EventsOf(SortByTime(events), k), now)
  }

  lemma {:induction false} FoldLineJoins(machine: string, l: Line, a: seq<Event>, b: seq<Event>)
    ensures FoldLine(machine, l, a + b) == FoldLine(machine, FoldLine(machine, l, a), b)
    decreases |a|
  {
    if a == [] {
      assert a + b == b;
    } else {
      FoldLineJoins(machine, StepLine(machine, l, a[0]), a[1..], b);
      assert (a + b)[0] == a[0] && (a + b)[1..] == a[1..] + b;
    }
  }

  lemma FollowsStep(machine: string, before: map<string, Block>, events: seq<Event>, ev: Event,
                    open: map<string, Block>, sealed: seq<Block>, open': map<string, Block>, sealed': seq<Block>)
    requires Follows(machine, before, events, open, sealed)
    requires Filed(open)
    requires var k := KeyOfEvent(ev);
             var l := StepLine(machine, Line(OpenAt(open, k), []), ev);
             l.open.Some? && open' == open[k := l.open.value] && sealed' == sealed + l.sealed
    ensures Follows(machine, before, events + [ev], open', sealed') && Filed(open')
  {
    hide KeyOf;
    forall k
      ensures Line(OpenAt(open', k), BlocksOf(sealed', k))
              == FoldLine(machine, Line(OpenAt(before, k), []), EventsOf(events + [ev], k))
    {
      FollowsStepAt(machine, before, events, ev, open, sealed, open', sealed', k);
    }
  }

  lemma FollowsStepAt(machine: string, before: map<string, Block>, events: seq<Event>, ev: Event,
                      open: map<string, Block>, sealed: seq<Block>,
                      open': map<string, Block>, sealed': seq<Block>, k: string)
    requires Filed(open)
    requires Line(OpenAt(open, k), BlocksOf(sealed, k))
             == FoldLine(machine, Line(OpenAt(before, k), []), EventsOf(events, k))
    requires var k := KeyOfEvent(ev);
             var l := StepLine(machine, Line(OpenAt(open, k), []), ev);
             l.open.Some? && open' == open[k := l.open.value] && sealed' == sealed + l.sealed
    ensures Line(OpenAt(open', k), BlocksOf(sealed', k))
            == FoldLine(machine, Line(OpenAt(before, k), []), EventsOf(events + [ev], k))
  {
    hide KeyOf;
    EventsOfJoin(events, [ev], k);
    assert [ev][1..] == [];
    var key := KeyOfEvent(ev);
    var start := Line(OpenAt(before, k), []);
    FoldLineJoins(machine, start, EventsOf(events, k), EventsOf([ev], k));
    var mine := StepLine(machine, Line(OpenAt(open, key), []), ev);
    BlocksOfJoin(sealed, mine.sealed, k);
    if mine.sealed != [] {
      BlocksOfOne(mine.sealed[0], k);
    }
  }

  /** The keys of `left` have not been looked at for staleness yet, all others have. */
  ghost predicate SealedBut(machine: string, before: map<string, Block>, events: seq<Event>, now: int,
                            left: set<string>, open: map<string, Block>, sealed: seq<Block>) {
    forall k :: Line(OpenAt(open, k), BlocksOf(sealed, k))
                == var l := FoldLine(machine, Line(OpenAt(before, k), []), EventsOf(events, k));
                   if k in left then l else SealStale(l, now)
  }

  lemma SealOne(machine: string, before: map<string, Block>, events: seq<Event>, now: int, left: set<string>,
                open: map<string, Block>, sealed: seq<Block>, key: string)
    requires SealedBut(machine, before, events, now, left, open, sealed) && Filed(open)
    requires key in open && key in left
    ensures Stale(open[key], now) ==>
              SealedBut(machine, before, events, now, left - {key}, open - {key}, sealed + [open[key]])
    ensures !Stale(open[key], now) ==>
              SealedBut(machine, before, events, now, left - {key}, open, sealed)
  {
    hide KeyOf;
    hide FoldLine;
    hide SortByTime;
    if Stale(open[key], now) {
      forall k
        ensures Line(OpenAt(open - {key}, k), BlocksOf(sealed + [open[key]], k))
                == var l := FoldLine(machine, Line(OpenAt(before, k), []), EventsOf(events, k));
                   if k in left - {key} then l else SealStale(l, now)
      {
        BlocksOfJoin(sealed, [open[key]], k);
        BlocksOfOne(open[key], k);
      }
    }
  }

  /** The scanner's open blocks, which fold updates in place. */
  class ScanState {
    var open: map<string, Block>

    constructor (open: map<string, Block>)
      ensures this.open == open
    {
      this.open := open;
    }

    /** Merges events into the open blocks and returns every block sealed on the way, by
        a gap or by silence. */
    method Fold(machine: string, events: seq<Event>, now: int) returns (sealed: seq<Block>)
      requires Filed(open)
      modifies this
      ensures Filed(open)
      ensures Folded(machine, old(open), events, now, open, sealed)
    {
      hide KeyOf;
      hide Follows;
      hide SealedBut;
      var sorted := SortByTime(events);
      sealed := [];
      FollowsNothing(machine, open);
      for i := 0 to |sorted|
        invariant Filed(open)
        invariant Follows(machine, old(open), sorted[..i], open, sealed)
      {
        var ev := sorted[i];
        var key := KeyOfEvent(ev);
        ghost var was, had := open, sealed;
        var block := if key in open then Some(open[key]) else None;
        if block.Some? && GapBefore(block.value, ev) {
          sealed := sealed + [block.value];
          block := None;
        }
        if block.None? {
          block := Some(NewBlock(machine, ev));
        }
        open := open[key := ApplyEvent(block.value, ev)];
        assert sorted[..i + 1] == sorted[..i] + [ev];
        FollowsStep(machine, old(open), sorted[..i], ev, was, had, open, sealed);
      }
      assert sorted[..|sorted|] == sorted;
      SealingStarts(machine, old(open), sorted, now, open, sealed);
      var keys := open.Keys;
      while keys != {}
        invariant Filed(open)
        invariant keys <= open.Keys
        invariant SealedBut(machine, old(open), sorted, now, keys, open, sealed)
      {
        var key :| key in keys;
        SealOne(machine, old(open), sorted, now, keys, open, sealed, key);
        if Stale(open[key], now) {
          sealed := sealed + [open[key]];
          open := open - {key};
        }
        keys := keys - {key};
      }
      SealingEnds(machine, old(open), events, now, open, sealed);
    }
  }

  lemma FollowsNothing(machine: string, open: map<string, Block>)
    ensures Follows(machine, open, [], open, [])
  {
  }

  lemma SealingStarts(machine: string, before: map<string, Block>, events: seq<Event>, now: int,
                      open: map<string, Block>, sealed: seq<Block>)
    requires Follows(machine, before, events, open, sealed)
    ensures SealedBut(machine, before, events, now, open.Keys, open, sealed)
  {
    hide FoldLine;
  }

  lemma SealingEnds(machine: string, before: map<string, Block>, events: seq<Event>, now: int,
                    open: map<string, Block>, sealed: seq<Block>)
    requires SealedBut(machine, before, SortByTime(events), now, {}, open, sealed)
    ensures Folded(machine, before, events, now, open, sealed)
  {
    hide FoldLine;
    hide SortByTime;
    hide KeyOf;
  }
}
