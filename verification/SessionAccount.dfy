/** What blocks say, read against the events themselves: each counter's sum, each block's
    span, names and counters, which events share a key and which blocks an ID
    (internal/sessions/sessions.go). */
module SessionAccount {
  import opened Wrappers
  import opened SessionFold
  import opened SessionHistory
  import opened SessionTotals
  import Order

  // ---------------------------------------------------------------- each counter

  datatype Counter = EventCount | TokensIn | TokensOut | CacheRead | CacheWrite

  function OfEvent(c: Counter, ev: Event): int {
    match c
    case EventCount => 1
    case TokensIn => ev.tokensIn
    case TokensOut => ev.tokensOut
    case CacheRead => ev.cacheRead
    case CacheWrite => ev.cacheWrite
  }

  function OfBlock(c: Counter, b: Block): int {
    match c
    case EventCount => b.totals.events
    case TokensIn => b.totals.tokensIn
    case TokensOut => b.totals.tokensOut
    case CacheRead => b.totals.cacheRead
    case CacheWrite => b.totals.cacheWrite
  }

  function SumOfEvents(c: Counter, events: seq<Event>): int {
    if events == [] then 0 else OfEvent(c, events[0]) + SumOfEvents(c, events[1..])
  }

  function SumOfBlocks(c: Counter, blocks: seq<Block>): int {
    if blocks == [] then 0 else OfBlock(c, blocks[0]) + SumOfBlocks(c, blocks[1..])
  }

  function BlocksAt(open: map<string, Block>, keys: seq<string>): seq<Block>
    requires forall k :: k in keys ==> k in open
  {
    if keys == [] then [] else [open[keys[0]]] + BlocksAt(open, keys[1..])
  }

  /** The open blocks, in the order of their keys. */
  function OpenBlocks(open: map<string, Block>): seq<Block> {
    BlocksAt(open, Order.Sorted(open.Keys))
  }

  function Part(c: Counter, t: Totals): int {
    match c
    case EventCount => t.events
    case TokensIn => t.tokensIn
    case TokensOut => t.tokensOut
    case CacheRead => t.cacheRead
    case CacheWrite => t.cacheWrite
  }

  lemma {:induction false} SumsAreParts(c: Counter, events: seq<Event>)
    ensures SumOfEvents(c, events) == Part(c, TotalOfEvents(events))
  {
    if events != [] { SumsAreParts(c, events[1..]); }
  }

  lemma {:induction false} BlockSumsAreParts(c: Counter, blocks: seq<Block>)
    ensures SumOfBlocks(c, blocks) == Part(c, TotalOfBlocks(blocks))
  {
    if blocks != [] { BlockSumsAreParts(c, blocks[1..]); }
  }

  lemma {:induction false} BlocksAtTotal(open: map<string, Block>, keys: seq<string>)
    requires Order.Ascending(keys) && forall k :: k in keys <==> k in open
    ensures TotalOfBlocks(BlocksAt(open, keys)) == TotalOfOpen(open)
  {
    if keys == [] {
      assert open == map[];
    } else {
      var k := keys[0];
      Order.AscendingTail(keys);
      SameBlocksAt(open, open - {k}, keys[1..]);
      BlocksAtTotal(open - {k}, keys[1..]);
      TotalWithoutOne(open, k);
      assert ([open[k]] + BlocksAt(open, keys[1..]))[1..] == BlocksAt(open, keys[1..]);
    }
  }

  lemma {:induction false} SameBlocksAt(a: map<string, Block>, b: map<string, Block>, keys: seq<string>)
    requires forall k :: k in keys ==> k in a && k in b && a[k] == b[k]
    ensures BlocksAt(a, keys) == BlocksAt(b, keys)
  {
    if keys != [] { SameBlocksAt(a, b, keys[1..]); }
  }

  lemma SumOfOpenBlocks(c: Counter, open: map<string, Block>)
    ensures SumOfBlocks(c, OpenBlocks(open)) == Part(c, TotalOfOpen(open))
  {
    hide TotalOfOpen;
    BlocksAtTotal(open, Order.Sorted(open.Keys));
    BlockSumsAreParts(c, OpenBlocks(open));
  }

  /** Counter by counter, what a scan sealed and left open over all keys is what was open
      before and what the events it read give; the events themselves are counted once each. */
  lemma CountersAreConserved(machine: string, before: map<string, Block>, events: seq<Event>, now: int,
                             open: map<string, Block>, sealed: seq<Block>, c: Counter)
    requires Folded(machine, before, events, now, open, sealed)
    ensures SumOfBlocks(c, sealed) + SumOfBlocks(c, OpenBlocks(open))
            == SumOfBlocks(c, OpenBlocks(before)) + SumOfEvents(c, events)
    ensures SumOfEvents(EventCount, events) == |events|
  {
    hide *;
    FoldingAllKeysConserves(machine, before, events, now, open, sealed);
    SumOfOpenBlocks(c, open);
    SumOfOpenBlocks(c, before);
    BlockSumsAreParts(c, sealed);
    SumsAreParts(c, events);
    PartsAdd(c, TotalOfBlocks(sealed), TotalOfOpen(open));
    PartsAdd(c, TotalOfOpen(before), TotalOfEvents(events));
    EventsCountOne(events);
  }

  lemma {:induction false} EventsCountOne(events: seq<Event>)
    ensures SumOfEvents(EventCount, events) == |events|
  {
    if events != [] { EventsCountOne(events[1..]); }
  }

  /** So it is over any run of scans. */
  lemma HistoriesConserveCounters(machine: string, scans: seq<Scan>, states: seq<map<string, Block>>,
                                  sealed: seq<seq<Block>>, n: nat, c: Counter)
    requires n <= |scans| && IsHistory(machine, scans, states, sealed)
    ensures SumOfBlocks(c, SealedBy(sealed, n)) + SumOfBlocks(c, OpenBlocks(states[n]))
            == SumOfBlocks(c, OpenBlocks(states[0])) + SumOfEvents(c, ReadBy(scans, n))
  {
    assert |states| == |scans| + 1 && |sealed| == |scans|;
    hide *;
    HistoriesConserve(machine, scans, states, sealed, n);
    SumOfOpenBlocks(c, states[n]);
    SumOfOpenBlocks(c, states[0]);
    BlockSumsAreParts(c, SealedBy(sealed, n));
    SumsAreParts(c, ReadBy(scans, n));
    PartsAdd(c, TotalOfBlocks(SealedBy(sealed, n)), TotalOfOpen(states[n]));
    PartsAdd(c, TotalOfOpen(states[0]), TotalOfEvents(ReadBy(scans, n)));
  }

  lemma PartsAdd(c: Counter, a: Totals, b: Totals)
    ensures Part(c, Plus(a, b)) == Part(c, a) + Part(c, b)
  {
  }

  lemma {:induction false} SumOneMore(c: Counter, events: seq<Event>, ev: Event)
    ensures SumOfEvents(c, events + [ev]) == SumOfEvents(c, events) + OfEvent(c, ev)
  {
    if events == [] {
      assert [ev][1..] == [];
    } else {
      SumOneMore(c, events[1..], ev);
      assert (events + [ev])[1..] == events[1..] + [ev];
    }
  }

  // ---------------------------------------------------------------- each block

  datatype Label = Branch | Model

  function Given(l: Label, ev: Event): string {
    if l == Branch then ev.branch else ev.model
  }

  function Shown(l: Label, b: Block): string {
    if l == Branch then b.branch else b.model
  }

  /** The last name the events give, or the one there was when they give none. */
  ghost predicate LastGiven(l: Label, was: string, events: seq<Event>, word: string) {
    || ((forall j :: 0 <= j < |events| ==> Given(l, events[j]) == "") && word == was)
    || exists i :: 0 <= i < |events| && word == Given(l, events[i]) != "" && SilentAfter(l, events, i)
  }

  ghost predicate SilentAfter(l: Label, events: seq<Event>, i: nat) {
    forall j :: i < j < |events| ==> Given(l, events[j]) == ""
  }

  /** Bounded by the events and the block there was, and reaching both bounds. */
  ghost predicate Spans(was: Option<Block>, events: seq<Event>, b: Block) {
    && (forall j :: 0 <= j < |events| ==> b.startedAt <= events[j].time <= b.endedAt)
    && (was.Some? ==> b.startedAt <= was.value.startedAt && was.value.endedAt <= b.endedAt)
    && ((was.Some? && b.startedAt == was.value.startedAt)
        || exists j :: 0 <= j < |events| && b.startedAt == events[j].time)
    && ((was.Some? && b.endedAt == was.value.endedAt)
        || exists j :: 0 <= j < |events| && b.endedAt == events[j].time)
  }

  /** The block is the one there was, or a new one of the first event's, and holds all of
      the events: span, names and counters. */
  ghost predicate Covers(machine: string, was: Option<Block>, events: seq<Event>, b: Block) {
    && Spans(was, events, b)
    && (was.Some? ==> b.machine == was.value.machine && b.project == was.value.project && b.agent == was.value.agent)
    && (was.None? ==>
          events != [] && b.machine == machine && b.project == events[0].project && b.agent == events[0].agent)
    && (forall l :: LastGiven(l, if was.Some? then Shown(l, was.value) else "", events, Shown(l, b)))
    && (forall c :: OfBlock(c, b) == (if was.Some? then OfBlock(c, was.value) else 0) + SumOfEvents(c, events))
  }

  lemma LabelOneMore(l: Label, was: string, events: seq<Event>, word: string, ev: Event)
    requires LastGiven(l, was, events, word)
    ensures LastGiven(l, was, events + [ev], if Given(l, ev) != "" then Given(l, ev) else word)
  {
    var more := events + [ev];
    if Given(l, ev) != "" {
      assert more[|events|] == ev && SilentAfter(l, more, |events|);
    } else if i :| 0 <= i < |events| && word == Given(l, events[i]) != "" && SilentAfter(l, events, i) {
      assert more[i] == events[i] && SilentAfter(l, more, i);
    }
  }

  lemma SpanOneMore(was: Option<Block>, events: seq<Event>, b: Block, ev: Event)
    requires Spans(was, events, b)
    ensures Spans(was, events + [ev], ApplyEvent(b, ev))
  {
    var more, a := events + [ev], ApplyEvent(b, ev);
    assert more[|events|] == ev;
    assert forall j :: 0 <= j < |events| ==> more[j] == events[j];
    if j :| 0 <= j < |events| && b.startedAt == events[j].time { assert more[j].time == b.startedAt; }
    if j :| 0 <= j < |events| && b.endedAt == events[j].time { assert more[j].time == b.endedAt; }
  }

  lemma CoversOneMore(machine: string, was: Option<Block>, events: seq<Event>, b: Block, ev: Event)
    requires Covers(machine, was, events, b)
    ensures Covers(machine, was, events + [ev], ApplyEvent(b, ev))
  {
    SpanOneMore(was, events, b, ev);
    var a := ApplyEvent(b, ev);
    forall l ensures LastGiven(l, if was.Some? then Shown(l, was.value) else "", events + [ev], Shown(l, a)) {
      LabelOneMore(l, if was.Some? then Shown(l, was.value) else "", events, Shown(l, b), ev);
    }
    hide Spans;
    hide LastGiven;
    forall c ensures OfBlock(c, a) == OfBlock(c, b) + OfEvent(c, ev) {
    }
    forall c ensures SumOfEvents(c, events + [ev]) == SumOfEvents(c, events) + OfEvent(c, ev) {
      SumOneMore(c, events, ev);
    }
  }

  lemma CoversFirst(machine: string, ev: Event)
    ensures Covers(machine, None, [ev], ApplyEvent(NewBlock(machine, ev), ev))
  {
    var b := ApplyEvent(NewBlock(machine, ev), ev);
    assert [ev][0] == ev && [ev][1..] == [];
    forall l ensures LastGiven(l, "", [ev], Shown(l, b)) {
      if Given(l, ev) != "" { assert SilentAfter(l, [ev], 0); }
    }
  }

  lemma CoversItself(machine: string, b: Block)
    ensures Covers(machine, Some(b), [], b)
  {
  }

  // ---------------------------------------------------------------- a whole scan

  /** No event comes more than fifteen minutes after all before it. */
  ghost predicate Steady(was: Option<Block>, events: seq<Event>) {
    forall j :: 0 <= j < |events| ==>
      || (was.None? && j == 0)
      || (was.Some? && events[j].time <= was.value.endedAt + 15 * MINUTE)
      || (j > 0 && events[j].time <= events[j - 1].time + 15 * MINUTE)
  }

  function First(was: Option<Block>, i: nat): Option<Block> {
    if i == 0 then was else None
  }

  ghost predicate Holds(machine: string, from: Option<Block>, group: seq<Event>, b: Block) {
    Steady(from, group) && Covers(machine, from, group, b)
  }

  ghost predicate Later(b: Block, group: seq<Event>) {
    group != [] && group[0].time > b.endedAt + 15 * MINUTE
  }

  /** One block for each group of events, the first going on from the block there was, and
      each new one starting more than fifteen minutes after the one before had ended. */
  ghost predicate Describe(machine: string, was: Option<Block>, groups: seq<seq<Event>>, blocks: seq<Block>) {
    && |groups| == |blocks|
    && (forall i :: 0 <= i < |groups| ==> Holds(machine, First(was, i), groups[i], blocks[i]))
    && (forall i :: 0 < i < |groups| ==> Later(blocks[i - 1], groups[i]))
  }

  lemma DescribesOneMore(machine: string, was: Option<Block>, groups: seq<seq<Event>>, blocks: seq<Block>,
                         group: seq<Event>, b: Block)
    requires Describe(machine, was, groups, blocks) && Holds(machine, First(was, |groups|), group, b)
    requires groups != [] ==> Later(blocks[|groups| - 1], group)
    ensures Describe(machine, was, groups + [group], blocks + [b])
  {
    hide Holds;
    hide Later;
  }

  lemma DescribesAllButLast(machine: string, was: Option<Block>, groups: seq<seq<Event>>, blocks: seq<Block>)
    requires Describe(machine, was, groups, blocks) && groups != []
    ensures var n := |groups| - 1;
            && |blocks| == |groups| && Describe(machine, was, groups[..n], blocks[..n])
            && Holds(machine, First(was, n), groups[n], blocks[n]) && (n > 0 ==> Later(blocks[n - 1], groups[n]))
  {
    hide Holds;
    hide Later;
  }

  lemma GapStartsABlock(machine: string, was: Option<Block>, groups: seq<seq<Event>>, blocks: seq<Block>, ev: Event)
    requires Describe(machine, was, groups, blocks)
    requires if blocks == [] then was.None? else GapBefore(blocks[|blocks| - 1], ev)
    ensures Describe(machine, was, groups + [[ev]], blocks + [ApplyEvent(NewBlock(machine, ev), ev)])
  {
    var b := ApplyEvent(NewBlock(machine, ev), ev);
    CoversFirst(machine, ev);
    hide Covers;
    hide ApplyEvent;
    SameLength(machine, was, groups, blocks);
    hide Describe;
    assert Steady(None, [ev]) && First(was, |groups|) == None;
    DescribesOneMore(machine, was, groups, blocks, [ev], b);
  }

  /** The block's end is that of the block there was, or no later than the group's last. */
  lemma EndIsReached(machine: string, was: Option<Block>, group: seq<Event>, b: Block)
    requires Covers(machine, was, group, b) && Chronological(group)
    ensures (was.Some? && b.endedAt == was.value.endedAt) || (group != [] && b.endedAt <= group[|group| - 1].time)
  {
    assert Spans(was, group, b);
    hide Covers;
  }

  lemma BlockGrows(machine: string, was: Option<Block>, groups: seq<seq<Event>>, blocks: seq<Block>, ev: Event)
    requires Describe(machine, was, groups, blocks) && blocks != [] && !GapBefore(blocks[|blocks| - 1], ev)
    requires groups != [] && Chronological(groups[|groups| - 1])
    ensures var n := |groups| - 1;
            |blocks| == |groups|
            && Describe(machine, was, groups[..n] + [groups[n] + [ev]], blocks[..n] + [ApplyEvent(blocks[n], ev)])
  {
    hide *;
    DescribesAllButLast(machine, was, groups, blocks);
    var n := |groups| - 1;
    HoldsOneMore(machine, First(was, n), groups[n], blocks[n], ev);
    if n > 0 { StillLater(blocks[n - 1], groups[n], ev); }
    assert n > 0 ==> blocks[..n][n - 1] == blocks[n - 1];
    DescribesOneMore(machine, was, groups[..n], blocks[..n], groups[n] + [ev], ApplyEvent(blocks[n], ev));
  }

  lemma StillLater(b: Block, group: seq<Event>, ev: Event)
    requires Later(b, group)
    ensures Later(b, group + [ev])
  {
  }

  lemma HoldsOneMore(machine: string, was: Option<Block>, group: seq<Event>, b: Block, ev: Event)
    requires Holds(machine, was, group, b) && Chronological(group) && !GapBefore(b, ev)
    ensures Holds(machine, was, group + [ev], ApplyEvent(b, ev))
  {
    CoversOneMore(machine, was, group, b, ev);
    EndIsReached(machine, was, group, b);
    hide Covers;
    hide ApplyEvent;
    var more := group + [ev];
    forall j | 0 <= j < |more|
      ensures || (was.None? && j == 0)
              || (was.Some? && more[j].time <= was.value.endedAt + 15 * MINUTE)
              || (j > 0 && more[j].time <= more[j - 1].time + 15 * MINUTE)
    {
      if j < |group| {
        assert more[j] == group[j] && (j > 0 ==> more[j - 1] == group[j - 1]);
      }
    }
  }

  /** Folding a key's events, in time order, on top of the block it had open. */
  lemma {:induction false} FoldDescribes(machine: string, was: Option<Block>, events: seq<Event>)
    returns (groups: seq<seq<Event>>)
    requires Chronological(events)
    ensures var l := FoldLine(machine, Line(was, []), events);
            && Joined(groups) == events && Describe(machine, was, groups, AllBlocks(l))
            && (l.open.None? ==> was.None? && AllBlocks(l) == [])
    decreases |events|
  {
    hide *;
    if events == [] {
      groups := NothingFolded(machine, was);
    } else {
      var n := |events| - 1;
      assert events == events[..n] + [events[n]];
      PrefixIsChronological(events);
      var before := FoldDescribes(machine, was, events[..n]);
      groups := OneMoreFolded(machine, was, events[..n], events[n], before);
    }
  }

  lemma NothingFolded(machine: string, was: Option<Block>) returns (groups: seq<seq<Event>>)
    ensures var l := FoldLine(machine, Line(was, []), []);
            && Joined(groups) == [] && Describe(machine, was, groups, AllBlocks(l))
            && (l.open.None? ==> was.None? && AllBlocks(l) == [])
  {
    if was.Some? {
      groups := [[]];
      CoversItself(machine, was.value);
      assert groups[..0] == [];
    } else {
      groups := [];
    }
    hide Covers;
  }

  lemma OneMoreFolded(machine: string, was: Option<Block>, events: seq<Event>, ev: Event, before: seq<seq<Event>>)
    returns (groups: seq<seq<Event>>)
    requires Chronological(events + [ev])
    requires var l := FoldLine(machine, Line(was, []), events);
             && Joined(before) == events && Describe(machine, was, before, AllBlocks(l))
             && (l.open.None? ==> was.None? && AllBlocks(l) == [])
    ensures var l := FoldLine(machine, Line(was, []), events + [ev]);
            && Joined(groups) == events + [ev] && Describe(machine, was, groups, AllBlocks(l)) && l.open.Some?
  {
    var l := FoldLine(machine, Line(was, []), events);
    var blocks := AllBlocks(l);
    FoldingOneMore(machine, Line(was, []), events, ev);
    hide FoldLine;
    hide Describe;
    hide ApplyEvent;
    hide NewBlock;
    SameLength(machine, was, before, blocks);
    if blocks == [] || GapBefore(blocks[|blocks| - 1], ev) {
      groups := before + [[ev]];
      GapStartsABlock(machine, was, before, blocks, ev);
      assert groups[..|before|] == before;
      assert AllBlocks(StepLine(machine, l, ev)) == blocks + [ApplyEvent(NewBlock(machine, ev), ev)];
    } else {
      var n := |before| - 1;
      groups := before[..n] + [before[n] + [ev]];
      LastGroupIsChronological(before, events, ev);
      BlockGrows(machine, was, before, blocks, ev);
      assert groups[..n] == before[..n];
      assert Joined(before[..n]) + (before[n] + [ev]) == Joined(before) + [ev];
      assert AllBlocks(StepLine(machine, l, ev)) == blocks[..n] + [ApplyEvent(blocks[n], ev)];
    }
  }

  lemma SameLength(machine: string, was: Option<Block>, groups: seq<seq<Event>>, blocks: seq<Block>)
    requires Describe(machine, was, groups, blocks)
    ensures |groups| == |blocks|
  {
  }

  lemma LastGroupIsChronological(groups: seq<seq<Event>>, events: seq<Event>, ev: Event)
    requires groups != [] && Joined(groups) == events && Chronological(events + [ev])
    ensures Chronological(groups[|groups| - 1])
  {
    var n := |groups| - 1;
    MiddleIsChronological(Joined(groups[..n]), groups[n], [ev]);
  }

  lemma MiddleIsChronological(a: seq<Event>, b: seq<Event>, c: seq<Event>)
    requires Chronological(a + b + c)
    ensures Chronological(b)
  {
    var all := a + b + c;
    forall i, j | 0 <= i < j < |b| ensures b[i].time <= b[j].time {
      assert all[|a| + i] == b[i] && all[|a| + j] == b[j];
    }
  }

  lemma {:induction false} CountsOfKey(events: seq<Event>, k: string, x: Event)
    ensures multiset(EventsOf(events, k))[x] == if KeyOfEvent(x) == k then multiset(events)[x] else 0
  {
    hide KeyOf;
    if events != [] {
      CountsOfKey(events[1..], k, x);
      assert events == [events[0]] + events[1..];
    }
  }

  /** What a whole scan makes of one key. `mine` is the key's events in time order. Its
      blocks, the sealed ones and then the open one, describe them group by group, the
      first going on from the block the key had open. What is left open ended within half
      an hour of the scan, and a last block that is sealed did not. */
  lemma ScansDescribeTheirEvents(machine: string, before: map<string, Block>, events: seq<Event>, now: int,
                                 open: map<string, Block>, sealed: seq<Block>, k: string)
    returns (mine: seq<Event>, groups: seq<seq<Event>>)
    requires Folded(machine, before, events, now, open, sealed)
    ensures Chronological(mine)
    ensures forall x :: multiset(mine)[x] == if KeyOfEvent(x) == k then multiset(events)[x] else 0
    ensures var was := OpenAt(before, k);
            var blocks := BlocksOf(sealed, k) + if k in open then [open[k]] else [];
            && Joined(groups) == mine && Describe(machine, was, groups, blocks)
            && (k in open ==> now - open[k].endedAt <= 30 * MINUTE)
            && (k !in open && blocks != [] ==> now - blocks[|blocks| - 1].endedAt > 30 * MINUTE)
  {
    hide Describe;
    hide SortByTime;
    hide KeyOf;
    var sorted := SortByTime(events);
    mine := EventsOf(sorted, k);
    KeyEventsStayInOrder(sorted, k);
    forall x ensures multiset(mine)[x] == if KeyOfEvent(x) == k then multiset(events)[x] else 0 {
      CountsOfKey(sorted, k, x);
    }
    var was := OpenAt(before, k);
    groups := FoldDescribes(machine, was, mine);
    assert Line(OpenAt(open, k), BlocksOf(sealed, k)) == ScanLine(machine, Line(was, []), mine, now);
    var l := FoldLine(machine, Line(was, []), mine);
    hide FoldLine;
    hide Folded;
    assert AllBlocks(l) == BlocksOf(sealed, k) + if k in open then [open[k]] else [];
  }

  // ---------------------------------------------------------------- keys and IDs

  /** The same letter, or the two cases of one ASCII letter. */
  predicate SameLetter(a: char, b: char) {
    || a == b
    || ('A' <= a <= 'Z' && b as int == a as int + 32)
    || ('A' <= b <= 'Z' && a as int == b as int + 32)
  }

  predicate SameButCase(a: string, b: string) {
    |a| == |b| && forall i :: 0 <= i < |a| ==> SameLetter(a[i], b[i])
  }

  function LowerChar(c: char): char {
    if 'A' <= c <= 'Z' then (c as int + 32) as char else c
  }

  lemma LowerCharIsExact(a: char, b: char)
    ensures LowerChar(a) == LowerChar(b) <==> SameLetter(a, b)
  {
  }

  lemma {:induction false} LowerAt(a: string, i: nat)
    requires i < |a|
    ensures |Lower(a)| == |a| && Lower(a)[i] == LowerChar(a[i])
  {
    if i > 0 {
      LowerAt(a[1..], i - 1);
    } else {
      LowerLength(a);
    }
  }

  lemma {:induction false} LowerLength(a: string)
    ensures |Lower(a)| == |a|
  {
    if a != "" { LowerLength(a[1..]); }
  }

  lemma LowerIsExact(a: string, b: string)
    ensures Lower(a) == Lower(b) <==> SameButCase(a, b)
  {
    LowerLength(a);
    LowerLength(b);
    if |a| == |b| {
      forall i | 0 <= i < |a| ensures Lower(a)[i] == Lower(b)[i] <==> SameLetter(a[i], b[i]) {
        LowerAt(a, i);
        LowerAt(b, i);
        LowerCharIsExact(a[i], b[i]);
      }
      hide Lower;
      hide SameLetter;
      if SameButCase(a, b) {
        assert Lower(a) == Lower(b);
      }
    }
  }

  lemma {:induction false} LoweringKeepsBars(a: string)
    requires '|' !in a
    ensures '|' !in Lower(a)
  {
    if a != "" { LoweringKeepsBars(a[1..]); }
  }

  lemma BarSplitsOnce(a: string, restA: string, b: string, restB: string)
    requires '|' !in a && '|' !in b && a + "|" + restA == b + "|" + restB
    ensures a == b && restA == restB
  {
    var whole := a + "|" + restA;
    assert whole[|a|] == '|' && whole[|b|] == '|';
    assert forall i :: 0 <= i < |a| ==> whole[i] == a[i] != '|';
    assert forall i :: 0 <= i < |b| ==> whole[i] == b[i] != '|';
    assert a == whole[..|a|] && b == whole[..|b|];
    assert restA == whole[|a| + 1..] && restB == whole[|b| + 1..];
  }

  /** Two events go to one open block's key if they are of one agent and of projects that
      differ at most in the case of letters, and, when the projects hold no separator, only
      then. */
  lemma KeysAreExact(x: Event, y: Event)
    ensures x.agent == y.agent && SameButCase(x.project, y.project) ==> KeyOfEvent(x) == KeyOfEvent(y)
    ensures '|' !in x.project && '|' !in y.project ==>
              (KeyOfEvent(x) == KeyOfEvent(y) <==> x.agent == y.agent && SameButCase(x.project, y.project))
  {
    LowerIsExact(x.project, y.project);
    if '|' !in x.project && '|' !in y.project && KeyOfEvent(x) == KeyOfEvent(y) {
      LoweringKeepsBars(x.project);
      LoweringKeepsBars(y.project);
      BarSplitsOnce(Lower(x.project), x.agent, Lower(y.project), y.agent);
    }
  }

  /** The input: with a separator in a project, two agents share a key. */
  lemma SeparatorsShareAKey(x: Event, y: Event)
    requires x.project == "a|b" && x.agent == "c" && y.project == "a" && y.agent == "b|c"
    ensures KeyOfEvent(x) == KeyOfEvent(y) && x.agent != y.agent
  {
    assert "a|b"[1..] == "|b" && "|b"[1..] == "b" && "b"[1..] == "" && "a"[1..] == "";
    assert Lower("b") == "b" && Lower("|b") == "|b";
    assert Lower("a|b") == "a|b" && Lower("a") == "a";
    assert "a|b" + "|" + "c" == "a" + "|" + "b|c";
  }

  /** The second a time falls in. */
  predicate InSecond(t: int, second: int) {
    second * SECOND <= t < (second + 1) * SECOND
  }

  /** An ID tells the machine, the agent, the project and the second the block started in,
      and nothing else, when machines' and agents' names hold no separator. */
  lemma IdsAreExact(x: Block, y: Block)
    requires '|' !in x.machine && '|' !in y.machine && '|' !in x.agent && '|' !in y.agent
    ensures IdOf(x) == IdOf(y) <==>
              && x.machine == y.machine && x.agent == y.agent && x.project == y.project
              && exists s :: InSecond(x.startedAt, s) && InSecond(y.startedAt, s)
  {
    var sx, sy := x.startedAt / SECOND, y.startedAt / SECOND;
    assert InSecond(x.startedAt, sx) && InSecond(y.startedAt, sy);
    if s :| InSecond(x.startedAt, s) && InSecond(y.startedAt, s) {
      assert s == sx && s == sy;
    }
    if IdOf(x) == IdOf(y) {
      assert x.machine + "|" + x.agent + "|" + x.project == x.machine + "|" + (x.agent + "|" + x.project);
      assert y.machine + "|" + y.agent + "|" + y.project == y.machine + "|" + (y.agent + "|" + y.project);
      BarSplitsOnce(x.machine, x.agent + "|" + x.project, y.machine, y.agent + "|" + y.project);
      BarSplitsOnce(x.agent, x.project, y.agent, y.project);
    }
  }
}
