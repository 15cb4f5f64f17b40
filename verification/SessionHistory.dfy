/** What folding promises over a history of scans: that batches add up to one fold, that
    nothing is counted twice or dropped, what a block is, and that a crash between the
    append and the save is harmless (internal/sessions/sessions.go, scan.go, store.go). */
module SessionHistory {
  import opened Wrappers
  import opened SessionFold

  // ---------------------------------------------------------------- batches

  /** One scan: what it read and when it ran. */
  datatype Scan = Scan(events: seq<Event>, now: int)

  /** Nothing in a later batch is older than the gap allows at an earlier scan. */
  predicate Recent(events: seq<Event>, now: int) {
    forall ev :: ev in events ==> ev.time >= now - (SEAL_TIMEOUT - GAP_TIMEOUT)
  }

  /** Sealing early and going on is going on and sealing late, when what comes next is
      recent enough. */
  lemma SealingEarlyIsHarmless(machine: string, l: Line, events: seq<Event>, now1: int, now2: int)
    requires now1 <= now2 && Recent(events, now1)
    ensures ScanLine(machine, SealStale(l, now1), events, now2) == ScanLine(machine, l, events, now2)
  {
    hide ScanLine;
    if events != [] {
      assert events[0] in events;
    }
    SealingEarlyIsHarmlessExactlyWhen(machine, l, events, now1, now2);
  }

  /** Two scans of one key are one scan of both batches. */
  lemma TwoScansAreOne(machine: string, l: Line, a: seq<Event>, now1: int, b: seq<Event>, now2: int)
    requires now1 <= now2 && Recent(b, now1)
    ensures ScanLine(machine, ScanLine(machine, l, a, now1), b, now2) == ScanLine(machine, l, a + b, now2)
  {
    FoldLineJoins(machine, l, a, b);
    SealingEarlyIsHarmless(machine, FoldLine(machine, l, a), b, now1, now2);
  }

  /** What was sealed before a fold stays in front of what it seals. */
  lemma {:induction false} SealedOnlyGrows(machine: string, l: Line, events: seq<Event>)
    ensures FoldLine(machine, l, events)
            == (var m := FoldLine(machine, Line(l.open, []), events); Line(m.open, l.sealed + m.sealed))
    decreases |events|
  {
    if events != [] {
      var bare := Line(l.open, []);
      var s, t := StepLine(machine, l, events[0]), StepLine(machine, bare, events[0]);
      SealedOnlyGrows(machine, s, events[1..]);
      SealedOnlyGrows(machine, t, events[1..]);
      assert s.open == t.open && s.sealed == l.sealed + t.sealed;
    }
  }

  lemma ScanOnlyGrows(machine: string, l: Line, events: seq<Event>, now: int)
    ensures ScanLine(machine, l, events, now)
            == (var m := ScanLine(machine, Line(l.open, []), events, now); Line(m.open, l.sealed + m.sealed))
  {
    SealedOnlyGrows(machine, l, events);
  }

  lemma EventsOfMembers(events: seq<Event>, key: string)
    ensures forall ev :: ev in EventsOf(events, key) ==> ev in events
  {
    if events != [] {
      EventsOfMembers(events[1..], key);
    }
  }

  /** A batch that may follow: strictly later than what came before, and no older than the
      previous scan allows. */
  ghost predicate Timely(earlier: seq<Event>, now: int, later: seq<Event>, next: int) {
    AllBefore(earlier, later) && Recent(later, now) && now <= next
  }

  /** Batch splitting: two scans in a row leave the same open blocks as one scan of all
      the events, and seal the same blocks, key by key and in the same order. */
  lemma SplitScansAgree(machine: string, start: map<string, Block>, a: seq<Event>, now1: int, b: seq<Event>, now2: int,
                        mid: map<string, Block>, sealedA: seq<Block>, end: map<string, Block>, sealedB: seq<Block>,
                        whole: map<string, Block>, sealedAll: seq<Block>)
    requires Timely(a, now1, b, now2)
    requires Folded(machine, start, a, now1, mid, sealedA)
    requires Folded(machine, mid, b, now2, end, sealedB)
    requires Folded(machine, start, a + b, now2, whole, sealedAll)
    ensures end == whole
    ensures forall k :: BlocksOf(sealedAll, k) == BlocksOf(sealedA, k) + BlocksOf(sealedB, k)
    ensures forall x :: x in sealedAll <==> x in sealedA || x in sealedB
  {
    hide ScanLine;
    hide SortByTime;
    hide KeyOf;
    LaterBatchesSortApart(a, b);
    SortedMembers(b);
    forall k
      ensures OpenAt(end, k) == OpenAt(whole, k)
      ensures BlocksOf(sealedAll, k) == BlocksOf(sealedA, k) + BlocksOf(sealedB, k)
    {
      EventsOfJoin(SortByTime(a), SortByTime(b), k);
      EventsOfMembers(SortByTime(b), k);
      var l := Line(OpenAt(start, k), []);
      var ea, eb := EventsOf(SortByTime(a), k), EventsOf(SortByTime(b), k);
      TwoScansAreOne(machine, l, ea, now1, eb, now2);
      ScanOnlyGrows(machine, ScanLine(machine, l, ea, now1), eb, now2);
    }
    SameOpen(end, whole);
    forall x ensures x in sealedAll <==> x in sealedA || x in sealedB {
      MembersByKey(sealedAll, x);
      MembersByKey(sealedA, x);
      MembersByKey(sealedB, x);
    }
  }

  lemma SameOpen(a: map<string, Block>, b: map<string, Block>)
    requires forall k :: OpenAt(a, k) == OpenAt(b, k)
    ensures a == b
  {
    forall k ensures k in a <==> k in b {
      assert OpenAt(a, k) == OpenAt(b, k);
    }
    forall k | k in a ensures a[k] == b[k] {
      assert OpenAt(a, k) == OpenAt(b, k);
    }
  }

  /** A run of scans: the state each leaves and what each sealed. */
  ghost predicate IsHistory(machine: string, scans: seq<Scan>, states: seq<map<string, Block>>,
                            sealed: seq<seq<Block>>) {
    && |states| == |scans| + 1 && |sealed| == |scans|
    && forall i :: 0 <= i < |scans| ==>
         Folded(machine, states[i], scans[i].events, scans[i].now, states[i + 1], sealed[i])
  }

  /** Everything the first n scans read, in the order it was read. */
  function ReadBy(scans: seq<Scan>, n: nat): seq<Event>
    requires n <= |scans|
  {
    if n == 0 then [] else ReadBy(scans, n - 1) + scans[n - 1].events
  }

  function SealedBy(sealed: seq<seq<Block>>, n: nat): seq<Block>
    requires n <= |sealed|
  {
    if n == 0 then [] else SealedBy(sealed, n - 1) + sealed[n - 1]
  }

  /** Every batch after the first is timely after all that was read before it. */
  ghost predicate TimelyHistory(scans: seq<Scan>) {
    forall i :: 1 <= i < |scans| ==> Timely(ReadBy(scans, i), scans[i - 1].now, scans[i].events, scans[i].now)
  }

  /** Any number of timely scans leave, key by key, what one scan of everything at the
      last one's time would: the same open blocks and the same sealed blocks. */
  lemma {:induction false} ManyScansAreOne(machine: string, scans: seq<Scan>, states: seq<map<string, Block>>,
                                           sealed: seq<seq<Block>>, n: nat)
    requires 1 <= n <= |scans| && IsHistory(machine, scans, states, sealed) && TimelyHistory(scans)
    ensures Folded(machine, states[0], ReadBy(scans, n), scans[n - 1].now, states[n], SealedBy(sealed, n))
  {
    hide Folded;
    hide Timely;
    assert Folded(machine, states[n - 1], scans[n - 1].events, scans[n - 1].now, states[n], sealed[n - 1]);
    if n == 1 {
      assert ReadBy(scans, 1) == scans[0].events by { assert ReadBy(scans, 0) == []; }
      assert SealedBy(sealed, 1) == sealed[0] by { assert SealedBy(sealed, 0) == []; }
    } else {
      hide ReadBy;
      hide SealedBy;
      assert ReadBy(scans, n) == ReadBy(scans, n - 1) + scans[n - 1].events by { ReadByGrows(scans, n); }
      assert SealedBy(sealed, n) == SealedBy(sealed, n - 1) + sealed[n - 1] by { SealedByGrows(sealed, n); }
      ManyScansAreOne(machine, scans, states, sealed, n - 1);
      ScansCompose(machine, states[0], ReadBy(scans, n - 1), scans[n - 2].now, scans[n - 1].events, scans[n - 1].now,
                   states[n - 1], SealedBy(sealed, n - 1), states[n], sealed[n - 1]);
    }
  }

  lemma ReadByGrows(scans: seq<Scan>, n: nat)
    requires 1 <= n <= |scans|
    ensures ReadBy(scans, n) == ReadBy(scans, n - 1) + scans[n - 1].events
  {
  }

  lemma SealedByGrows(sealed: seq<seq<Block>>, n: nat)
    requires 1 <= n <= |sealed|
    ensures SealedBy(sealed, n) == SealedBy(sealed, n - 1) + sealed[n - 1]
  {
  }

  /** A timely scan on top of another is a scan of both batches. */
  lemma ScansCompose(machine: string, start: map<string, Block>, a: seq<Event>, now1: int, b: seq<Event>, now2: int,
                     mid: map<string, Block>, sealedA: seq<Block>, end: map<string, Block>, sealedB: seq<Block>)
    requires Timely(a, now1, b, now2)
    requires Folded(machine, start, a, now1, mid, sealedA) && Folded(machine, mid, b, now2, end, sealedB)
    ensures Folded(machine, start, a + b, now2, end, sealedA + sealedB)
  {
    hide ScanLine;
    hide SortByTime;
    hide KeyOf;
    LaterBatchesSortApart(a, b);
    SortedMembers(b);
    forall k
      ensures Line(OpenAt(end, k), BlocksOf(sealedA + sealedB, k))
              == ScanLine(machine, Line(OpenAt(start, k), []), EventsOf(SortByTime(a + b), k), now2)
    {
      EventsOfJoin(SortByTime(a), SortByTime(b), k);
      EventsOfMembers(SortByTime(b), k);
      BlocksOfJoin(sealedA, sealedB, k);
      var l := Line(OpenAt(start, k), []);
      var ea, eb := EventsOf(SortByTime(a), k), EventsOf(SortByTime(b), k);
      TwoScansAreOne(machine, l, ea, now1, eb, now2);
      ScanOnlyGrows(machine, ScanLine(machine, l, ea, now1), eb, now2);
    }
  }

  // ---------------------------------------------------------------- exactly when batches add up

  /** A key whose block an early scan would seal for silence gets no event close enough to
      have gone into that block. */
  ghost predicate NotRevived(l: Line, now: int, later: seq<Event>) {
    l.open.Some? && Stale(l.open.value, now) && later != [] ==> GapBefore(l.open.value, later[0])
  }

  lemma {:induction false} FirstBlockOnlyGrows(machine: string, l: Line, events: seq<Event>)
    ensures var all := AllBlocks(FoldLine(machine, l, events));
            && l.sealed <= all
            && (l.open.Some? ==> |all| > |l.sealed| && all[|l.sealed|].totals.events >= l.open.value.totals.events)
    decreases |events|
  {
    if events != [] {
      hide FoldLine;
      var s := StepLine(machine, l, events[0]);
      FirstBlockOnlyGrows(machine, s, events[1..]);
      var all := AllBlocks(FoldLine(machine, s, events[1..]));
      FoldingStarts(machine, l, events);
      if l.open.Some? && GapBefore(l.open.value, events[0]) {
        assert all[|l.sealed|] == s.sealed[|l.sealed|] == l.open.value;
      }
    }
  }

  lemma FoldingStarts(machine: string, l: Line, events: seq<Event>)
    requires events != []
    ensures FoldLine(machine, l, events) == FoldLine(machine, StepLine(machine, l, events[0]), events[1..])
  {
  }

  lemma SealingKeepsBlocks(l: Line, now: int)
    ensures AllBlocks(SealStale(l, now)) == AllBlocks(l)
  {
  }

  /** Sealing early changes the outcome exactly when it splits a block that the next
      events would have continued. */
  lemma SealingEarlyIsHarmlessExactlyWhen(machine: string, l: Line, events: seq<Event>, now1: int, now2: int)
    requires now1 <= now2
    ensures ScanLine(machine, SealStale(l, now1), events, now2) == ScanLine(machine, l, events, now2)
            <==> NotRevived(l, now1, events)
  {
    if l.open.Some? && Stale(l.open.value, now1) && events != [] {
      var s := SealStale(l, now1);
      FoldingStarts(machine, s, events);
      FoldingStarts(machine, l, events);
      hide FoldLine;
      if GapBefore(l.open.value, events[0]) {
        assert StepLine(machine, s, events[0]) == StepLine(machine, l, events[0]);
      } else {
        FirstBlockOnlyGrows(machine, s, events);
        FirstBlockOnlyGrows(machine, StepLine(machine, l, events[0]), events[1..]);
        SealingKeepsBlocks(FoldLine(machine, s, events), now2);
        SealingKeepsBlocks(FoldLine(machine, l, events), now2);
        assert AllBlocks(FoldLine(machine, s, events))[|l.sealed|] == s.sealed[|l.sealed|] == l.open.value;
      }
    }
  }

  /** Two scans of one key are one scan of both batches exactly when the second brings no
      event close enough to a block the first sealed for silence. */
  lemma TwoScansAreOneExactlyWhen(machine: string, l: Line, a: seq<Event>, now1: int, b: seq<Event>, now2: int)
    requires now1 <= now2
    ensures ScanLine(machine, ScanLine(machine, l, a, now1), b, now2) == ScanLine(machine, l, a + b, now2)
            <==> NotRevived(FoldLine(machine, l, a), now1, b)
  {
    FoldLineJoins(machine, l, a, b);
    SealingEarlyIsHarmlessExactlyWhen(machine, FoldLine(machine, l, a), b, now1, now2);
  }

  /** Batch splitting, exactly: when the second batch is strictly later than the first, two
      scans leave and seal what one scan of all the events does, key by key, if and only
      if no key whose block the first scan sealed for silence has its next event within
      the gap of it. */
  lemma SplitScansAgreeExactlyWhen(machine: string, start: map<string, Block>, a: seq<Event>, now1: int,
                                   b: seq<Event>, now2: int, mid: map<string, Block>, sealedA: seq<Block>,
                                   end: map<string, Block>, sealedB: seq<Block>,
                                   whole: map<string, Block>, sealedAll: seq<Block>, k: string)
    requires AllBefore(a, b) && now1 <= now2
    requires Folded(machine, start, a, now1, mid, sealedA)
    requires Folded(machine, mid, b, now2, end, sealedB)
    requires Folded(machine, start, a + b, now2, whole, sealedAll)
    ensures OpenAt(end, k) == OpenAt(whole, k) && BlocksOf(sealedAll, k) == BlocksOf(sealedA, k) + BlocksOf(sealedB, k)
            <==> NotRevived(FoldLine(machine, Line(OpenAt(start, k), []), EventsOf(SortByTime(a), k)), now1,
                            EventsOf(SortByTime(b), k))
  {
    hide ScanLine;
    hide SortByTime;
    hide NotRevived;
    hide FoldLine;
    LaterBatchesSortApart(a, b);
    EventsOfJoin(SortByTime(a), SortByTime(b), k);
    var l := Line(OpenAt(start, k), []);
    var ea, eb := EventsOf(SortByTime(a), k), EventsOf(SortByTime(b), k);
    TwoScansAreOneExactlyWhen(machine, l, ea, now1, eb, now2);
    ScanOnlyGrows(machine, ScanLine(machine, l, ea, now1), eb, now2);
  }

  /** Why later batches must be later: an event that comes in a scan too late widens the
      open block backwards across a gap that one scan of both would have cut at. */
  lemma LateEventsFoldDifferently(machine: string, ev: Event)
    ensures var late := ev.(time := ev.time - GAP_TIMEOUT - 1);
            var nothing := Line(None, []);
            && SortByTime([ev] + [late]) == [late, ev]
            && |AllBlocks(ScanLine(machine, ScanLine(machine, nothing, [ev], ev.time), [late], ev.time))| == 1
            && |AllBlocks(ScanLine(machine, nothing, [late, ev], ev.time))| == 2
  {
    var late := ev.(time := ev.time - GAP_TIMEOUT - 1);
    var nothing := Line(None, []);
    SortingTwo(ev, late);
    FoldingOne(machine, nothing, ev);
    FoldingOne(machine, nothing, late);
    var first, second := StepLine(machine, nothing, ev), StepLine(machine, nothing, late);
    FoldingOne(machine, first, late);
    FoldingOne(machine, second, ev);
    FoldLineJoins(machine, nothing, [late], [ev]);
    assert [late] + [ev] == [late, ev];
    hide FoldLine;
    assert !Stale(first.open.value, ev.time) && GapBefore(second.open.value, ev);
    SealingKeepsBlocks(FoldLine(machine, first, [late]), ev.time);
    SealingKeepsBlocks(FoldLine(machine, nothing, [late, ev]), ev.time);
  }

  lemma FoldingOne(machine: string, l: Line, ev: Event)
    ensures FoldLine(machine, l, [ev]) == StepLine(machine, l, ev)
  {
    assert [ev][1..] == [];
  }

  lemma SortingTwo(ev: Event, earlier: Event)
    requires earlier.time < ev.time
    ensures SortByTime([ev] + [earlier]) == [earlier, ev]
  {
    var both := [ev] + [earlier];
    assert both[..1] == [ev] && [ev][..0] == [];
    assert InsertLate([], ev) == [ev] && InsertLate([], earlier) == [earlier];
    assert SortByTime([ev]) == [ev];
  }

  // ---------------------------------------------------------------- conservation

  function TotalOfEvents(events: seq<Event>): Totals {
    if events == [] then ZERO else Plus(TotalsOf(events[0]), TotalOfEvents(events[1..]))
  }

  function TotalOfBlocks(blocks: seq<Block>): Totals {
    if blocks == [] then ZERO else Plus(blocks[0].totals, TotalOfBlocks(blocks[1..]))
  }

  function TotalOfLine(l: Line): Totals {
    Plus(TotalOfBlocks(l.sealed), if l.open.Some? then l.open.value.totals else ZERO)
  }

  lemma {:induction false} TotalsJoin(a: seq<Block>, b: Block)
    ensures TotalOfBlocks(a + [b]) == Plus(TotalOfBlocks(a), b.totals)
  {
    if a == [] {
      assert [b][1..] == [];
    } else {
      TotalsJoin(a[1..], b);
      assert (a + [b])[1..] == a[1..] + [b];
    }
  }

  lemma SteppingConserves(machine: string, l: Line, ev: Event)
    ensures TotalOfLine(StepLine(machine, l, ev)) == Plus(TotalOfLine(l), TotalsOf(ev))
  {
    hide ApplyEvent;
    hide TotalOfBlocks;
    ApplyingAdds(NewBlock(machine, ev), ev);
    if l.open.Some? {
      ApplyingAdds(l.open.value, ev);
      TotalsJoin(l.sealed, l.open.value);
    }
  }

  lemma ApplyingAdds(b: Block, ev: Event)
    ensures ApplyEvent(b, ev).totals == Plus(b.totals, TotalsOf(ev))
  {
  }

  /** Every event and token of a batch ends in exactly one block of its key: sealed plus
      open afterwards is sealed plus open before plus the batch. */
  lemma {:induction false} FoldingConserves(machine: string, l: Line, events: seq<Event>)
    ensures TotalOfLine(FoldLine(machine, l, events)) == Plus(TotalOfLine(l), TotalOfEvents(events))
    decreases |events|
  {
    hide StepLine;
    hide TotalOfLine;
    if events != [] {
      SteppingConserves(machine, l, events[0]);
      FoldingConserves(machine, StepLine(machine, l, events[0]), events[1..]);
    }
  }

  lemma ScanningConserves(machine: string, l: Line, events: seq<Event>, now: int)
    ensures TotalOfLine(ScanLine(machine, l, events, now)) == Plus(TotalOfLine(l), TotalOfEvents(events))
  {
    FoldingConserves(machine, l, events);
    var m := FoldLine(machine, l, events);
    if m.open.Some? { TotalsJoin(m.sealed, m.open.value); }
  }

  // ---------------------------------------------------------------- what a block is

  /** A stretch of work: events in order, none more than the gap after the one before. */
  ghost predicate IsStretch(events: seq<Event>) {
    events != [] && forall i :: 0 < i < |events| ==>
      events[i - 1].time <= events[i].time <= events[i - 1].time + GAP_TIMEOUT
  }

  /** The last name a stretch gives that is not empty. */
  function LastNamed(names: seq<string>): string {
    if names == [] then "" else if names[|names| - 1] != "" then names[|names| - 1] else LastNamed(names[..|names| - 1])
  }

  function Branches(events: seq<Event>): seq<string> { seq(|events|, i requires 0 <= i < |events| => events[i].branch) }

  function Models(events: seq<Event>): seq<string> { seq(|events|, i requires 0 <= i < |events| => events[i].model) }

  /** The block that describes a stretch. */
  function BlockFor(machine: string, events: seq<Event>): Block
    requires events != []
  {
    Block(events[0].project, machine, events[0].agent, LastNamed(Branches(events)), LastNamed(Models(events)),
          events[0].time, events[|events| - 1].time, TotalOfEvents(events))
  }

  function Joined(groups: seq<seq<Event>>): seq<Event> {
    if groups == [] then [] else Joined(groups[..|groups| - 1]) + groups[|groups| - 1]
  }

  /** The groups are the events cut exactly where more than the gap passes. */
  ghost predicate IsPartition(groups: seq<seq<Event>>, events: seq<Event>) {
    && Joined(groups) == events
    && (forall i :: 0 <= i < |groups| ==> IsStretch(groups[i]))
    && (forall i :: 0 < i < |groups| ==>
          groups[i][0].time > groups[i - 1][|groups[i - 1]| - 1].time + GAP_TIMEOUT)
  }

  ghost predicate Describes(machine: string, blocks: seq<Block>, groups: seq<seq<Event>>) {
    |blocks| == |groups| && forall i :: 0 <= i < |groups| ==>
        groups[i] != [] && blocks[i] == BlockFor(machine, groups[i])
  }

  /** A key's blocks, the open one last. */
  function AllBlocks(l: Line): seq<Block> {
    if l.open.Some? then l.sealed + [l.open.value] else l.sealed
  }

  lemma {:induction false} TotalsOfEventsJoin(a: seq<Event>, ev: Event)
    ensures TotalOfEvents(a + [ev]) == Plus(TotalOfEvents(a), TotalsOf(ev))
  {
    if a == [] {
      assert [ev][1..] == [];
    } else {
      TotalsOfEventsJoin(a[1..], ev);
      assert (a + [ev])[1..] == a[1..] + [ev];
    }
  }

  lemma ExtendingABlock(machine: string, events: seq<Event>, ev: Event)
    requires events != [] && events[0].time <= events[|events| - 1].time <= ev.time
    ensures ApplyEvent(BlockFor(machine, events), ev) == BlockFor(machine, events + [ev])
  {
    TotalsOfEventsJoin(events, ev);
    assert Branches(events + [ev])[..|events|] == Branches(events);
    assert Models(events + [ev])[..|events|] == Models(events);
  }

  lemma StartingABlock(machine: string, ev: Event)
    ensures ApplyEvent(NewBlock(machine, ev), ev) == BlockFor(machine, [ev])
  {
    assert [ev][1..] == [];
    LastOfOne(Branches([ev]));
    LastOfOne(Models([ev]));
    TotalsOfEventsJoin([], ev);
    assert [] + [ev] == [ev];
  }

  lemma LastOfOne(names: seq<string>)
    requires |names| == 1
    ensures LastNamed(names) == names[0]
  {
    assert names[..|names| - 1] == [];
  }

  lemma {:induction false} StretchesAdvance(events: seq<Event>, i: nat)
    requires IsStretch(events) && i < |events|
    ensures events[0].time <= events[i].time
  {
    if i > 0 { StretchesAdvance(events, i - 1); }
  }

  /** From no open block, a key's blocks are exactly its events, in time order, cut where
      more than GapTimeout passes: one block for each stretch, describing all of it. */
  lemma {:induction false} BlocksAreMaximalStretches(machine: string, events: seq<Event>)
    returns (groups: seq<seq<Event>>)
    requires Chronological(events)
    ensures IsPartition(groups, events)
    ensures Describes(machine, AllBlocks(FoldLine(machine, Line(None, []), events)), groups)
    ensures FoldLine(machine, Line(None, []), events).open.Some? <==> groups != []
    decreases |events|
  {
    hide *;
    if events == [] {
      groups := [];
      NoEventsNoBlocks(machine);
    } else {
      var earlier, ev := events[..|events| - 1], events[|events| - 1];
      PrefixIsChronological(events);
      var before := BlocksAreMaximalStretches(machine, earlier);
      assert events == earlier + [ev];
      groups := OneMoreEvent(machine, earlier, ev, before);
    }
  }

  lemma NoEventsNoBlocks(machine: string)
    ensures IsPartition([], [])
    ensures Describes(machine, AllBlocks(FoldLine(machine, Line(None, []), [])), [])
    ensures FoldLine(machine, Line(None, []), []).open.None?
  {
  }

  lemma PrefixIsChronological(events: seq<Event>)
    requires Chronological(events) && events != []
    ensures Chronological(events[..|events| - 1])
  {
  }

  lemma OneMoreEvent(machine: string, events: seq<Event>, ev: Event, before: seq<seq<Event>>)
    returns (groups: seq<seq<Event>>)
    requires Chronological(events + [ev]) && IsPartition(before, events)
    requires Describes(machine, AllBlocks(FoldLine(machine, Line(None, []), events)), before)
    requires FoldLine(machine, Line(None, []), events).open.Some? <==> before != []
    ensures IsPartition(groups, events + [ev])
    ensures Describes(machine, AllBlocks(FoldLine(machine, Line(None, []), events + [ev])), groups)
    ensures FoldLine(machine, Line(None, []), events + [ev]).open.Some? && groups != []
  {
    hide *;
    var l := FoldLine(machine, Line(None, []), events);
    FoldingOneMore(machine, Line(None, []), events, ev);
    if before == [] {
      groups := [[ev]];
      FirstGroup(machine, events, ev, l);
    } else {
      groups := ExtendPartition(machine, before, events, ev, l);
    }
  }

  lemma FoldingOneMore(machine: string, l: Line, events: seq<Event>, ev: Event)
    ensures FoldLine(machine, l, events + [ev]) == StepLine(machine, FoldLine(machine, l, events), ev)
    ensures StepLine(machine, FoldLine(machine, l, events), ev).open.Some?
  {
    FoldLineJoins(machine, l, events, [ev]);
    assert [ev][1..] == [];
  }

  lemma FirstGroup(machine: string, events: seq<Event>, ev: Event, l: Line)
    requires IsPartition([], events) && Describes(machine, AllBlocks(l), []) && l.open.None?
    ensures IsPartition([[ev]], events + [ev])
    ensures Describes(machine, AllBlocks(StepLine(machine, l, ev)), [[ev]])
  {
    hide BlockFor;
    StartingABlock(machine, ev);
    assert [[ev]][..0] == [];
    assert Joined([[ev]]) == [] + [ev];
  }

  lemma LastOfJoined(groups: seq<seq<Event>>, events: seq<Event>)
    requires Joined(groups) == events && groups != [] && groups[|groups| - 1] != []
    ensures events != [] && events[|events| - 1] == groups[|groups| - 1][|groups[|groups| - 1]| - 1]
  {
  }

  lemma NewGroup(before: seq<seq<Event>>, events: seq<Event>, ev: Event)
    requires before != [] && IsPartition(before, events)
    requires ev.time > before[|before| - 1][|before[|before| - 1]| - 1].time + GAP_TIMEOUT
    ensures IsPartition(before + [[ev]], events + [ev])
  {
    var groups := before + [[ev]];
    assert groups[..|groups| - 1] == before;
    forall i | 0 <= i < |groups| ensures IsStretch(groups[i]) {
      if i < |before| { assert groups[i] == before[i]; }
    }
  }

  lemma GrownGroup(before: seq<seq<Event>>, events: seq<Event>, ev: Event)
    requires before != [] && IsPartition(before, events)
    requires var t := before[|before| - 1][|before[|before| - 1]| - 1].time; t <= ev.time <= t + GAP_TIMEOUT
    ensures var m := |before| - 1; IsPartition(before[..m] + [before[m] + [ev]], events + [ev])
  {
    var m := |before| - 1;
    var last := before[m] + [ev];
    var groups := before[..m] + [last];
    assert groups[..|groups| - 1] == before[..m];
    assert Joined(groups) == Joined(before[..m]) + (before[m] + [ev]);
    StretchGrows(before[m], ev);
    hide IsStretch;
    hide Joined;
    forall i | 0 < i < |groups|
      ensures groups[i][0].time > groups[i - 1][|groups[i - 1]| - 1].time + GAP_TIMEOUT
    {
      assert groups[i - 1] == before[i - 1] && groups[i][0] == before[i][0];
    }
  }

  lemma StretchGrows(events: seq<Event>, ev: Event)
    requires IsStretch(events)
    requires events[|events| - 1].time <= ev.time <= events[|events| - 1].time + GAP_TIMEOUT
    ensures IsStretch(events + [ev])
  {
  }

  lemma ExtendPartition(machine: string, before: seq<seq<Event>>, events: seq<Event>, ev: Event, l: Line)
    returns (groups: seq<seq<Event>>)
    requires before != [] && IsPartition(before, events) && Describes(machine, AllBlocks(l), before) && l.open.Some?
    requires Chronological(events + [ev])
    ensures IsPartition(groups, events + [ev])
    ensures groups != [] && Describes(machine, AllBlocks(StepLine(machine, l, ev)), groups)
  {
    var m := |before| - 1;
    var last := before[m];
    assert IsStretch(last);
    LastOfJoined(before, events);
    assert (events + [ev])[|events| - 1].time <= (events + [ev])[|events|].time;
    assert l.open.value == AllBlocks(l)[m] == BlockFor(machine, last);
    StartingABlock(machine, ev);
    if GapBefore(l.open.value, ev) {
      NewGroup(before, events, ev);
      groups := before + [[ev]];
    } else {
      StretchesAdvance(last, |last| - 1);
      ExtendingABlock(machine, last, ev);
      GrownGroup(before, events, ev);
      groups := before[..m] + [last + [ev]];
    }
    hide IsPartition;
    hide BlockFor;
    hide Chronological;
    GrowingDescribes(machine, before, ev, l, groups);
  }

  lemma GrowingDescribes(machine: string, before: seq<seq<Event>>, ev: Event, l: Line, groups: seq<seq<Event>>)
    requires before != [] && Describes(machine, AllBlocks(l), before) && l.open.Some?
    requires var m := |before| - 1;
             && ApplyEvent(NewBlock(machine, ev), ev) == BlockFor(machine, [ev])
             && (if GapBefore(l.open.value, ev) then groups == before + [[ev]]
                 else groups == before[..m] + [before[m] + [ev]]
                      && ApplyEvent(l.open.value, ev) == BlockFor(machine, before[m] + [ev]))
    ensures Describes(machine, AllBlocks(StepLine(machine, l, ev)), groups)
  {
    hide BlockFor;
    hide ApplyEvent;
    var blocks, grown := AllBlocks(l), AllBlocks(StepLine(machine, l, ev));
    forall i | 0 <= i < |groups| ensures groups[i] != [] && grown[i] == BlockFor(machine, groups[i]) {
      if i < |before| - 1 || (i < |before| && GapBefore(l.open.value, ev)) {
        assert groups[i] == before[i] && grown[i] == blocks[i];
      }
    }
  }

  /** Blocks of one key start more than the gap apart, so their IDs differ. */
  lemma {:induction false} StretchesStartApart(groups: seq<seq<Event>>, events: seq<Event>, i: nat, j: nat)
    requires IsPartition(groups, events) && i < j < |groups|
    ensures groups[j][0].time > groups[i][|groups[i]| - 1].time + GAP_TIMEOUT
    ensures groups[j][0].time > groups[i][0].time + GAP_TIMEOUT
    decreases j
  {
    StretchesAdvance(groups[i], |groups[i]| - 1);
    if i < j - 1 {
      StretchesStartApart(groups, events, i, j - 1);
      StretchesAdvance(groups[j - 1], |groups[j - 1]| - 1);
    }
  }

  lemma IdsOfOneKeyDiffer(machine: string, events: seq<Event>, i: nat, j: nat)
    requires Chronological(events)
    requires i < j < |AllBlocks(FoldLine(machine, Line(None, []), events))|
    ensures var blocks := AllBlocks(FoldLine(machine, Line(None, []), events));
            && blocks[j].startedAt > blocks[i].endedAt + GAP_TIMEOUT
            && IdOf(blocks[i]) != IdOf(blocks[j])
  {
    var groups := BlocksAreMaximalStretches(machine, events);
    StretchesStartApart(groups, events, i, j);
  }

  lemma {:induction false} KeyEventsStayInOrder(events: seq<Event>, key: string)
    requires Chronological(events)
    ensures Chronological(EventsOf(events, key))
  {
    if events != [] {
      KeyEventsStayInOrder(events[1..], key);
      EventsOfMembers(events[1..], key);
      var rest := EventsOf(events[1..], key);
      forall i | 0 <= i < |rest| ensures events[0].time <= rest[i].time {
        assert rest[i] in rest && rest[i] in events[1..];
      }
    }
  }

  /** A first scan of any events: for every key its sealed blocks and its open one are the
      maximal stretches of that key's events, in time order. */
  lemma FirstScanCutsAtTheGaps(machine: string, events: seq<Event>, now: int,
                               open: map<string, Block>, sealed: seq<Block>, key: string)
    returns (groups: seq<seq<Event>>)
    requires Folded(machine, map[], events, now, open, sealed)
    ensures IsPartition(groups, EventsOf(SortByTime(events), key))
    ensures Describes(machine, AllBlocks(Line(OpenAt(open, key), BlocksOf(sealed, key))), groups)
  {
    hide FoldLine;
    hide SortByTime;
    hide IsPartition;
    hide Describes;
    var mine := EventsOf(SortByTime(events), key);
    KeyEventsStayInOrder(SortByTime(events), key);
    groups := BlocksAreMaximalStretches(machine, mine);
    assert Line(OpenAt(open, key), BlocksOf(sealed, key)) == ScanLine(machine, Line(None, []), mine, now);
  }
}
