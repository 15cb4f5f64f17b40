/** What a scan adds up to over all keys at once: nothing read is lost or counted twice
    (internal/sessions/sessions.go). */
module SessionTotals {
  import opened SessionFold
  import opened SessionHistory

  lemma PlusZero(a: Totals)
    ensures Plus(ZERO, a) == a == Plus(a, ZERO)
  {
  }

  lemma PlusRegroups(a: Totals, b: Totals, c: Totals, d: Totals)
    ensures Plus(Plus(a, b), Plus(c, d)) == Plus(Plus(a, c), Plus(b, d))
    ensures Plus(a, Plus(b, c)) == Plus(Plus(a, b), c) == Plus(b, Plus(a, c))
  {
  }

  /** What all open blocks add up to, whatever order they are visited in. */
  ghost function TotalOfOpen(open: map<string, Block>): Totals
    decreases |open|
  {
    if open == map[] then ZERO
    else
      assert open.Keys != {};
      var k :| k in open.Keys;
      FewerOpen(open, k);
      Plus(open[k].totals, TotalOfOpen(open - {k}))
  }

  lemma FewerOpen(open: map<string, Block>, k: string)
    requires k in open
    ensures (open - {k}).Keys == open.Keys - {k} && |open - {k}| < |open|
  {
    var fewer := open - {k};
    assert fewer.Keys == open.Keys - {k};
    assert |fewer| == |fewer.Keys| && |open| == |open.Keys|;
  }

  lemma SomeKeyTaken(open: map<string, Block>) returns (j: string)
    requires open != map[]
    ensures j in open && TotalOfOpen(open) == Plus(open[j].totals, TotalOfOpen(open - {j}))
  {
    hide Plus;
    assert open.Keys != {};
    j :| j in open.Keys && TotalOfOpen(open) == Plus(open[j].totals, TotalOfOpen(open - {j}));
  }

  lemma {:induction false} TotalWithoutOne(open: map<string, Block>, k: string)
    requires k in open
    ensures TotalOfOpen(open) == Plus(open[k].totals, TotalOfOpen(open - {k}))
    decreases |open|
  {
    hide Plus;
    var j := SomeKeyTaken(open);
    if j != k {
      FewerOpen(open, j);
      FewerOpen(open, k);
      hide TotalOfOpen;
      TotalWithoutOne(open - {j}, k);
      TotalWithoutOne(open - {k}, j);
      assert (open - {j}) - {k} == (open - {k}) - {j};
      PlusRegroups(open[j].totals, open[k].totals, TotalOfOpen((open - {j}) - {k}), ZERO);
    }
  }

  function TotalAt(open: map<string, Block>, k: string): Totals {
    if k in open then open[k].totals else ZERO
  }

  lemma TotalSplits(open: map<string, Block>, k: string)
    ensures TotalOfOpen(open) == Plus(TotalAt(open, k), TotalOfOpen(open - {k}))
  {
    if k in open {
      TotalWithoutOne(open, k);
    } else {
      assert open - {k} == open;
    }
  }

  function OtherBlocks(blocks: seq<Block>, key: string): seq<Block> {
    if blocks == [] then []
    else
      var rest := OtherBlocks(blocks[1..], key);
      if KeyOfBlock(blocks[0]) == key then rest else [blocks[0]] + rest
  }

  function OtherEvents(events: seq<Event>, key: string): seq<Event> {
    if events == [] then []
    else
      var rest := OtherEvents(events[1..], key);
      if KeyOfEvent(events[0]) == key then rest else [events[0]] + rest
  }

  lemma {:induction false} BlocksSplit(blocks: seq<Block>, key: string)
    ensures TotalOfBlocks(blocks) == Plus(TotalOfBlocks(BlocksOf(blocks, key)), TotalOfBlocks(OtherBlocks(blocks, key)))
    ensures forall x :: x in OtherBlocks(blocks, key) <==> x in blocks && KeyOfBlock(x) != key
    ensures forall k :: k != key ==> BlocksOf(OtherBlocks(blocks, key), k) == BlocksOf(blocks, k)
  {
    hide KeyOf;
    hide Plus;
    if blocks == [] {
      PlusZero(ZERO);
    } else {
      BlocksSplit(blocks[1..], key);
      PlusRegroups(blocks[0].totals, TotalOfBlocks(BlocksOf(blocks[1..], key)),
                   TotalOfBlocks(OtherBlocks(blocks[1..], key)), ZERO);
      assert blocks == [blocks[0]] + blocks[1..];
      var mine, others := BlocksOf(blocks[1..], key), OtherBlocks(blocks[1..], key);
      assert ([blocks[0]] + mine)[1..] == mine && ([blocks[0]] + others)[1..] == others;
    }
  }

  lemma {:induction false} EventsSplit(events: seq<Event>, key: string)
    ensures TotalOfEvents(events) == Plus(TotalOfEvents(EventsOf(events, key)), TotalOfEvents(OtherEvents(events, key)))
    ensures forall x :: x in OtherEvents(events, key) <==> x in events && KeyOfEvent(x) != key
    ensures forall k :: k != key ==> EventsOf(OtherEvents(events, key), k) == EventsOf(events, k)
  {
    hide KeyOf;
    hide Plus;
    if events == [] {
      PlusZero(ZERO);
    } else {
      EventsSplit(events[1..], key);
      PlusRegroups(TotalsOf(events[0]), TotalOfEvents(EventsOf(events[1..], key)),
                   TotalOfEvents(OtherEvents(events[1..], key)), ZERO);
      assert events == [events[0]] + events[1..];
      var mine, others := EventsOf(events[1..], key), OtherEvents(events[1..], key);
      assert ([events[0]] + mine)[1..] == mine && ([events[0]] + others)[1..] == others;
    }
  }

  /** The books of one key: what it has sealed and open is what it had open and was given. */
  ghost predicate Balances(before: map<string, Block>, events: seq<Event>, open: map<string, Block>, sealed: seq<Block>,
                           k: string) {
    Plus(TotalOfBlocks(BlocksOf(sealed, k)), TotalAt(open, k))
        == Plus(TotalAt(before, k), TotalOfEvents(EventsOf(events, k)))
  }

  lemma FirstOf<T>(s: seq<T>) returns (x: T)
    requires s != []
    ensures x in s
  {
    x := s[0];
  }

  /** Keys whose books all balance balance together. */
  lemma {:induction false} SumOverKeys(keys: set<string>, before: map<string, Block>, events: seq<Event>,
                                       open: map<string, Block>, sealed: seq<Block>)
    requires before.Keys <= keys && open.Keys <= keys
    requires forall x :: x in events ==> KeyOfEvent(x) in keys
    requires forall x :: x in sealed ==> KeyOfBlock(x) in keys
    requires forall k :: k in keys ==> Balances(before, events, open, sealed, k)
    ensures Plus(TotalOfBlocks(sealed), TotalOfOpen(open)) == Plus(TotalOfOpen(before), TotalOfEvents(events))
    decreases keys
  {
    if keys == {} {
      if sealed != [] { var x := FirstOf(sealed); assert false; }
      if events != [] { var x := FirstOf(events); assert false; }
      assert open == map[] && before == map[];
    } else {
      var k :| k in keys;
      OneKeyAside(keys, before, events, open, sealed, k);
      hide KeyOf;
      hide TotalOfOpen;
      hide TotalOfBlocks;
      hide TotalOfEvents;
      BlocksSplit(sealed, k);
      EventsSplit(events, k);
      TotalSplits(open, k);
      TotalSplits(before, k);
      SumOverKeys(keys - {k}, before - {k}, OtherEvents(events, k), open - {k}, OtherBlocks(sealed, k));
      assert Balances(before, events, open, sealed, k);
      hide Plus;
      PlusRegroups(TotalOfBlocks(BlocksOf(sealed, k)), TotalOfBlocks(OtherBlocks(sealed, k)),
                   TotalAt(open, k), TotalOfOpen(open - {k}));
      PlusRegroups(TotalAt(before, k), TotalOfOpen(before - {k}),
                   TotalOfEvents(EventsOf(events, k)), TotalOfEvents(OtherEvents(events, k)));
    }
  }

  lemma OneKeyAside(keys: set<string>, before: map<string, Block>, events: seq<Event>,
                    open: map<string, Block>, sealed: seq<Block>, key: string)
    requires forall x :: x in events ==> KeyOfEvent(x) in keys
    requires forall x :: x in sealed ==> KeyOfBlock(x) in keys
    requires forall k :: k in keys ==> Balances(before, events, open, sealed, k)
    ensures forall x :: x in OtherEvents(events, key) ==> KeyOfEvent(x) in keys - {key}
    ensures forall x :: x in OtherBlocks(sealed, key) ==> KeyOfBlock(x) in keys - {key}
    ensures forall k :: k in keys - {key} ==>
              Balances(before - {key}, OtherEvents(events, key), open - {key}, OtherBlocks(sealed, key), k)
  {
    hide KeyOf;
    hide TotalOfBlocks;
    hide TotalOfEvents;
    BlocksSplit(sealed, key);
    EventsSplit(events, key);
    forall k | k in keys - {key}
      ensures Balances(before - {key}, OtherEvents(events, key), open - {key}, OtherBlocks(sealed, key), k)
    {
      assert Balances(before, events, open, sealed, k);
    }
  }

  lemma {:induction false} SortingKeepsTotals(events: seq<Event>)
    ensures TotalOfEvents(SortByTime(events)) == TotalOfEvents(events)
    decreases |events|
  {
    if events != [] {
      var rest, ev := events[..|events| - 1], events[|events| - 1];
      SortingKeepsTotals(rest);
      InsertingAddsTotals(SortByTime(rest), ev);
      TotalsOfEventsJoin(rest, ev);
      assert events == rest + [ev];
    }
  }

  lemma {:induction false} InsertingAddsTotals(sorted: seq<Event>, ev: Event)
    ensures TotalOfEvents(InsertLate(sorted, ev)) == Plus(TotalOfEvents(sorted), TotalsOf(ev))
    decreases |sorted|
  {
    var n := |sorted|;
    if n > 0 && sorted[n - 1].time > ev.time {
      InsertingAddsTotals(sorted[..n - 1], ev);
      TotalsOfEventsJoin(InsertLate(sorted[..n - 1], ev), sorted[n - 1]);
      TotalsOfEventsJoin(sorted[..n - 1], sorted[n - 1]);
      assert sorted == sorted[..n - 1] + [sorted[n - 1]];
    } else {
      TotalsOfEventsJoin(sorted, ev);
    }
  }

  /** A whole scan over all keys loses and repeats nothing: the events and tokens it
      sealed and left open are those that were open before and those it read. */
  lemma FoldingAllKeysConserves(machine: string, before: map<string, Block>, events: seq<Event>, now: int,
                                open: map<string, Block>, sealed: seq<Block>)
    requires Folded(machine, before, events, now, open, sealed)
    ensures Plus(TotalOfBlocks(sealed), TotalOfOpen(open)) == Plus(TotalOfOpen(before), TotalOfEvents(events))
  {
    hide ScanLine;
    hide SortByTime;
    hide KeyOf;
    hide TotalOfBlocks;
    hide TotalOfOpen;
    hide TotalOfEvents;
    var sorted := SortByTime(events);
    var keys := before.Keys + open.Keys + (set x | x in sorted :: KeyOfEvent(x))
        + (set x | x in sealed :: KeyOfBlock(x));
    forall k ensures Balances(before, sorted, open, sealed, k) {
      KeyBalances(machine, before, sorted, now, open, sealed, k);
    }
    SumOverKeys(keys, before, sorted, open, sealed);
    SortingKeepsTotals(events);
  }

  lemma KeyBalances(machine: string, before: map<string, Block>, sorted: seq<Event>, now: int,
                    open: map<string, Block>, sealed: seq<Block>, k: string)
    requires Line(OpenAt(open, k), BlocksOf(sealed, k))
             == ScanLine(machine, Line(OpenAt(before, k), []), EventsOf(sorted, k), now)
    ensures Balances(before, sorted, open, sealed, k)
  {
    hide ScanLine;
    hide KeyOf;
    hide BlocksOf;
    hide EventsOf;
    hide TotalOfEvents;
    hide Plus;
    ScanningConserves(machine, Line(OpenAt(before, k), []), EventsOf(sorted, k), now);
    PlusZero(TotalAt(before, k));
    PlusZero(TotalOfBlocks(BlocksOf(sealed, k)));
  }

  /** So does any run of scans, timely or not. */
  lemma {:induction false} HistoriesConserve(machine: string, scans: seq<Scan>, states: seq<map<string, Block>>,
                                             sealed: seq<seq<Block>>, n: nat)
    requires n <= |scans| && IsHistory(machine, scans, states, sealed)
    ensures Plus(TotalOfBlocks(SealedBy(sealed, n)), TotalOfOpen(states[n]))
            == Plus(TotalOfOpen(states[0]), TotalOfEvents(ReadBy(scans, n)))
  {
    hide Folded;
    hide TotalOfOpen;
    hide Plus;
    if n == 0 {
      PlusZero(TotalOfOpen(states[0]));
    } else {
      HistoriesConserve(machine, scans, states, sealed, n - 1);
      assert Folded(machine, states[n - 1], scans[n - 1].events, scans[n - 1].now, states[n], sealed[n - 1]);
      FoldingAllKeysConserves(machine, states[n - 1], scans[n - 1].events, scans[n - 1].now, states[n], sealed[n - 1]);
      TotalOfBlocksJoin(SealedBy(sealed, n - 1), sealed[n - 1]);
      TotalOfEventsJoin(ReadBy(scans, n - 1), scans[n - 1].events);
      hide TotalOfBlocks;
      hide TotalOfEvents;
      PlusRegroups(TotalOfBlocks(SealedBy(sealed, n - 1)), TotalOfBlocks(sealed[n - 1]), TotalOfOpen(states[n]), ZERO);
      PlusRegroups(TotalOfBlocks(SealedBy(sealed, n - 1)), TotalOfOpen(states[n - 1]),
                   TotalOfEvents(scans[n - 1].events), ZERO);
      PlusRegroups(TotalOfOpen(states[0]), TotalOfEvents(ReadBy(scans, n - 1)), TotalOfEvents(scans[n - 1].events),
                   ZERO);
    }
  }

  lemma {:induction false} TotalOfBlocksJoin(a: seq<Block>, b: seq<Block>)
    ensures TotalOfBlocks(a + b) == Plus(TotalOfBlocks(a), TotalOfBlocks(b))
  {
    hide Plus;
    if a == [] {
      assert a + b == b;
      PlusZero(TotalOfBlocks(b));
    } else {
      TotalOfBlocksJoin(a[1..], b);
      PlusRegroups(a[0].totals, TotalOfBlocks(a[1..]), TotalOfBlocks(b), ZERO);
      assert (a + b)[1..] == a[1..] + b;
    }
  }

  lemma {:induction false} TotalOfEventsJoin(a: seq<Event>, b: seq<Event>)
    ensures TotalOfEvents(a + b) == Plus(TotalOfEvents(a), TotalOfEvents(b))
  {
    hide Plus;
    if a == [] {
      assert a + b == b;
      PlusZero(TotalOfEvents(b));
    } else {
      TotalOfEventsJoin(a[1..], b);
      PlusRegroups(TotalsOf(a[0]), TotalOfEvents(a[1..]), TotalOfEvents(b), ZERO);
      assert (a + b)[1..] == a[1..] + b;
    }
  }
}
