/** Exactly when two scans add up to one, whatever the times of the second batch: merging
    batches, the stretch of events a block takes in, and what late events change
    (internal/sessions/sessions.go). */
module SessionBatches {
  import opened Wrappers
  import opened SessionFold
  import opened SessionHistory

  // ---------------------------------------------------------------- merging

  /** Two batches, each in time order, as one; the first batch goes first on a tie. */
  function Merge(a: seq<Event>, b: seq<Event>): seq<Event> {
    if a == [] then b
    else if b == [] then a
    else if a[0].time <= b[0].time then [a[0]] + Merge(a[1..], b)
    else [b[0]] + Merge(a, b[1..])
  }

  lemma MergeMembers(a: seq<Event>, b: seq<Event>)
    ensures forall x :: x in Merge(a, b) <==> x in a || x in b
  {
    if a != [] && b != [] {
      if a[0].time <= b[0].time { MergeMembers(a[1..], b); } else { MergeMembers(a, b[1..]); }
    }
  }

  lemma {:induction false} InsertLateAfterFirst(x: Event, s: seq<Event>, ev: Event)
    requires x.time <= ev.time
    ensures InsertLate([x] + s, ev) == [x] + InsertLate(s, ev)
    decreases |s|
  {
    if s == [] {
      assert [x] + s == [x];
    } else {
      hide InsertLate;
      var rest, last := s[..|s| - 1], s[|s| - 1];
      assert s == rest + [last] && [x] + s == ([x] + rest) + [last];
      InsertLateBefore(rest, last, ev);
      InsertLateBefore([x] + rest, last, ev);
      if last.time > ev.time {
        InsertLateAfterFirst(x, rest, ev);
      }
    }
  }

  lemma {:induction false} InsertLateBeforeAll(s: seq<Event>, ev: Event)
    requires forall x :: x in s ==> x.time > ev.time
    ensures InsertLate(s, ev) == [ev] + s
    decreases |s|
  {
    if s != [] {
      InsertLateBeforeAll(s[..|s| - 1], ev);
      assert s == s[..|s| - 1] + [s[|s| - 1]];
    }
  }

  lemma TailIsChronological(s: seq<Event>)
    requires Chronological(s) && s != []
    ensures Chronological(s[1..])
    ensures forall x :: x in s ==> s[0].time <= x.time
  {
  }

  /** Inserting into the second batch is inserting into the merge. */
  lemma {:induction false} MergeInserts(a: seq<Event>, b: seq<Event>, ev: Event)
    requires Chronological(a) && Chronological(b)
    ensures Merge(a, InsertLate(b, ev)) == InsertLate(Merge(a, b), ev)
    decreases |a| + |b|
  {
    hide InsertLate;
    if b != [] { TailIsChronological(b); }
    if a != [] { TailIsChronological(a); }
    hide Chronological;
    if b != [] && b[0].time <= ev.time {
      assert b == [b[0]] + b[1..];
      InsertLateAfterFirst(b[0], b[1..], ev);
      if a != [] && a[0].time <= b[0].time {
        MergeInserts(a[1..], b, ev);
        InsertLateAfterFirst(a[0], Merge(a[1..], b), ev);
      } else {
        MergeInserts(a, b[1..], ev);
        InsertLateAfterFirst(b[0], Merge(a, b[1..]), ev);
        MergeStartsWithSecond(a, b[0], InsertLate(b[1..], ev));
        MergeStartsWithSecond(a, b[0], b[1..]);
      }
    } else {
      InsertLateBeforeAll(b, ev);
      if a != [] && a[0].time <= ev.time {
        MergeInserts(a[1..], b, ev);
        InsertLateAfterFirst(a[0], Merge(a[1..], b), ev);
        assert ([ev] + b)[0] == ev;
        assert a == [a[0]] + a[1..] && (b == [] ==> Merge(a[1..], b) == a[1..]);
      } else {
        MergeMembers(a, b);
        InsertLateBeforeAll(Merge(a, b), ev);
        MergeStartsWithSecond(a, ev, b);
      }
    }
  }

  lemma MergeStartsWithSecond(a: seq<Event>, ev: Event, b: seq<Event>)
    requires a == [] || a[0].time > ev.time
    ensures Merge(a, [ev] + b) == [ev] + Merge(a, b)
  {
    assert ([ev] + b)[1..] == b;
  }

  /** Sorting two batches together is merging them sorted. */
  lemma {:induction false} SortingMerges(a: seq<Event>, b: seq<Event>)
    ensures SortByTime(a + b) == Merge(SortByTime(a), SortByTime(b))
    decreases |b|
  {
    if b == [] {
      assert a + b == a;
    } else {
      var rest, ev := b[..|b| - 1], b[|b| - 1];
      assert (a + b)[..|a + b| - 1] == a + rest && (a + b)[|a + b| - 1] == ev;
      SortingMerges(a, rest);
      MergeInserts(SortByTime(a), SortByTime(rest), ev);
    }
  }

  lemma EventsOfStayInOrder(s: seq<Event>, key: string)
    requires Chronological(s)
    ensures Chronological(EventsOf(s, key))
    ensures forall x :: x in EventsOf(s, key) ==> x in s
  {
    KeyEventsStayInOrder(s, key);
    EventsOfMembers(s, key);
  }

  /** Merging and picking out one key's events can be done in either order. */
  lemma {:induction false} MergingByKey(a: seq<Event>, b: seq<Event>, key: string)
    requires Chronological(a) && Chronological(b)
    ensures EventsOf(Merge(a, b), key) == Merge(EventsOf(a, key), EventsOf(b, key))
    decreases |a| + |b|
  {
    hide KeyOf;
    if a != [] && b != [] {
      TailIsChronological(a);
      TailIsChronological(b);
      EventsOfMembers(a, key);
      EventsOfMembers(b, key);
      var fa, fb := EventsOf(a, key), EventsOf(b, key);
      assert fa != [] ==> fa[0] in a;
      assert fb != [] ==> fb[0] in b;
      hide Chronological;
      if a[0].time <= b[0].time {
        MergingByKey(a[1..], b, key);
        var rest := Merge(a[1..], b);
        assert ([a[0]] + rest)[1..] == rest;
        if KeyOfEvent(a[0]) == key {
          assert fa[1..] == EventsOf(a[1..], key);
        }
      } else {
        MergingByKey(a, b[1..], key);
        var rest := Merge(a, b[1..]);
        assert ([b[0]] + rest)[1..] == rest;
        if KeyOfEvent(b[0]) == key {
          assert fb == [b[0]] + EventsOf(b[1..], key);
          MergeStartsWithSecond(fa, b[0], EventsOf(b[1..], key));
        }
      }
    }
  }

  lemma NothingToMerge(a: seq<Event>)
    ensures Merge(a, []) == a
  {
  }

  lemma MergeStartsWithFirst(ev: Event, a: seq<Event>, b: seq<Event>)
    requires b == [] || ev.time <= b[0].time
    ensures Merge([ev] + a, b) == [ev] + Merge(a, b)
  {
    assert ([ev] + a)[1..] == a;
    if b == [] { NothingToMerge(a); }
  }

  /** A batch after the whole of another is merged at its end. */
  lemma {:induction false} MergeAfterAll(a: seq<Event>, rest: seq<Event>)
    requires rest != [] ==> forall x :: x in a ==> x.time <= rest[0].time
    ensures Merge(a, rest) == a + rest
  {
    if a == [] {
      assert [] + rest == rest;
    } else {
      assert a == [a[0]] + a[1..];
      MergeAfterAll(a[1..], rest);
      MergeStartsWithFirst(a[0], a[1..], rest);
      assert [a[0]] + (a[1..] + rest) == a + rest;
    }
  }

  /** Events that come after the whole first batch stay at the end. */
  lemma {:induction false} MergeKeepsTail(a: seq<Event>, b: seq<Event>, rest: seq<Event>)
    requires rest != [] ==> forall x :: x in a ==> x.time <= rest[0].time
    ensures Merge(a, b + rest) == Merge(a, b) + rest
    decreases |a| + |b|
  {
    hide Merge;
    if b == [] {
      assert b + rest == rest;
      NothingToMerge(a);
      MergeAfterAll(a, rest);
    } else if a != [] && a[0].time <= b[0].time {
      assert a == [a[0]] + a[1..];
      MergeKeepsTail(a[1..], b, rest);
      MergeStartsWithFirst(a[0], a[1..], b);
      MergeStartsWithFirst(a[0], a[1..], b + rest);
      InFront(a[0], Merge(a[1..], b), rest);
    } else {
      InFront(b[0], b[1..], rest);
      assert b == [b[0]] + b[1..];
      MergeKeepsTail(a, b[1..], rest);
      MergeStartsWithSecond(a, b[0], b[1..]);
      MergeStartsWithSecond(a, b[0], b[1..] + rest);
      InFront(b[0], Merge(a, b[1..]), rest);
    }
  }

  lemma InFront(ev: Event, s: seq<Event>, rest: seq<Event>)
    ensures [ev] + (s + rest) == [ev] + s + rest
  {
  }

  // ---------------------------------------------------------------- what one block takes in

  function ApplyAll(b: Block, events: seq<Event>): Block
    decreases |events|
  {
    if events == [] then b else ApplyAll(ApplyEvent(b, events[0]), events[1..])
  }

  function Later(end: int, ev: Event): int {
    if ev.time > end then ev.time else end
  }

  function EndAfter(end: int, events: seq<Event>): int
    decreases |events|
  {
    if events == [] then end else EndAfter(Later(end, events[0]), events[1..])
  }

  /** How many of the events go into a block that ends at `end`, before a gap. */
  function Joining(end: int, events: seq<Event>): (n: nat)
    ensures n <= |events|
    decreases |events|
  {
    if events == [] || events[0].time > end + GAP_TIMEOUT then 0
    else 1 + Joining(Later(end, events[0]), events[1..])
  }

  lemma {:induction false} ApplyAllCounts(b: Block, events: seq<Event>)
    ensures ApplyAll(b, events).totals.events == b.totals.events + |events|
    ensures ApplyAll(b, events).endedAt == EndAfter(b.endedAt, events)
    decreases |events|
  {
    if events != [] { ApplyAllCounts(ApplyEvent(b, events[0]), events[1..]); }
  }

  lemma {:induction false} ApplyAllJoins(b: Block, x: seq<Event>, y: seq<Event>)
    ensures ApplyAll(b, x + y) == ApplyAll(ApplyAll(b, x), y)
    decreases |x|
  {
    hide ApplyEvent;
    if x == [] {
      assert x + y == y;
    } else {
      assert (x + y)[1..] == x[1..] + y;
      ApplyAllJoins(ApplyEvent(b, x[0]), x[1..], y);
    }
  }

  lemma {:induction false} EndNeverFalls(end: int, events: seq<Event>)
    ensures EndAfter(end, events) >= end
    ensures forall x :: x in events ==> x.time <= EndAfter(end, events)
    decreases |events|
  {
    if events != [] {
      EndNeverFalls(Later(end, events[0]), events[1..]);
      assert events == [events[0]] + events[1..];
    }
  }

  lemma {:induction false} LaterEndsTakeMore(e1: int, e2: int, events: seq<Event>)
    requires e1 <= e2
    ensures Joining(e1, events) <= Joining(e2, events)
    ensures EndAfter(e1, events) <= EndAfter(e2, events)
    decreases |events|
  {
    if events != [] { LaterEndsTakeMore(Later(e1, events[0]), Later(e2, events[0]), events[1..]); }
  }

  /** Merging more events in never shortens what a block takes. */
  lemma {:induction false} MergingTakesMore(end: int, a: seq<Event>, b: seq<Event>)
    ensures Joining(end, Merge(a, b)) >= Joining(end, a)
    decreases |a| + |b|
  {
    if a != [] && b != [] {
      if a[0].time <= b[0].time {
        var rest := Merge(a[1..], b);
        assert ([a[0]] + rest)[1..] == rest;
        MergingTakesMore(Later(end, a[0]), a[1..], b);
      } else {
        var rest := Merge(a, b[1..]);
        assert ([b[0]] + rest)[1..] == rest;
        MergingTakesMore(Later(end, b[0]), a, b[1..]);
        LaterEndsTakeMore(end, Later(end, b[0]), a);
      }
    }
  }

  /** An event that comes before the whole first batch and joins is one more. */
  lemma EarlierEventsTakeMore(end: int, a: seq<Event>, b: seq<Event>)
    requires b != [] && (a == [] || b[0].time < a[0].time) && b[0].time <= end + GAP_TIMEOUT
    ensures Joining(end, Merge(a, b)) > Joining(end, a)
  {
    var rest := Merge(a, b[1..]);
    assert b == [b[0]] + b[1..];
    MergeStartsWithSecond(a, b[0], b[1..]);
    assert ([b[0]] + rest)[1..] == rest;
    MergingTakesMore(Later(end, b[0]), a, b[1..]);
    LaterEndsTakeMore(end, Later(end, b[0]), a);
  }

  /** A fold over an open block: what the block takes in, and then the rest. */
  lemma {:induction false} FirstBlockTakes(machine: string, l: Line, events: seq<Event>)
    requires l.open.Some?
    ensures var n := Joining(l.open.value.endedAt, events);
            var b := ApplyAll(l.open.value, events[..n]);
            && FoldLine(machine, l, events) == FoldLine(machine, Line(Some(b), l.sealed), events[n..])
            && (n < |events| ==> GapBefore(b, events[n]))
    decreases |events|
  {
    var n := Joining(l.open.value.endedAt, events);
    hide FoldLine;
    if n == 0 {
      assert events[..n] == [] && events[n..] == events;
    } else {
      FoldingStarts(machine, l, events);
      var s, rest := StepLine(machine, l, events[0]), events[1..];
      assert s == Line(Some(ApplyEvent(l.open.value, events[0])), l.sealed);
      assert s.open.value.endedAt == Later(l.open.value.endedAt, events[0]);
      FirstBlockTakes(machine, s, rest);
      hide StepLine;
      hide ApplyEvent;
      ApplyOneMore(l.open.value, events, n);
      assert rest[n - 1..] == events[n..] && (n < |events| ==> rest[n - 1] == events[n]);
    }
  }

  lemma ApplyOneMore(b: Block, events: seq<Event>, n: nat)
    requires 1 <= n <= |events|
    ensures ApplyAll(b, events[..n]) == ApplyAll(ApplyEvent(b, events[0]), events[1..][..n - 1])
  {
    assert events[..n][1..] == events[1..][..n - 1];
  }

  /** The block that was open comes first among those a fold leaves, holding exactly what
      it takes in, and is sealed exactly when something is left over. */
  lemma FirstBlockIs(machine: string, l: Line, events: seq<Event>)
    requires l.open.Some?
    ensures var n := Joining(l.open.value.endedAt, events);
            var b := ApplyAll(l.open.value, events[..n]);
            var r := FoldLine(machine, l, events);
            && l.sealed + [b] <= AllBlocks(r)
            && l.sealed <= r.sealed
            && (n == |events| ==> r == Line(Some(b), l.sealed))
            && (n < |events| ==> l.sealed + [b] <= r.sealed)
  {
    var n := Joining(l.open.value.endedAt, events);
    var b := ApplyAll(l.open.value, events[..n]);
    FirstBlockTakes(machine, l, events);
    if n < |events| {
      var rest := events[n..];
      var s := StepLine(machine, Line(Some(b), l.sealed), rest[0]);
      FoldingStarts(machine, Line(Some(b), l.sealed), rest);
      SealedOnlyGrows(machine, s, rest[1..]);
    }
  }

  // ---------------------------------------------------------------- one block, in either order

  /** A block but for its branch and model, which the last event to name one decides. */
  function Unnamed(b: Block): Block {
    b.(branch := "", model := "")
  }

  lemma {:induction false} SameUnnamed(b: Block, c: Block, events: seq<Event>)
    requires Unnamed(b) == Unnamed(c)
    ensures Unnamed(ApplyAll(b, events)) == Unnamed(ApplyAll(c, events))
    decreases |events|
  {
    if events != [] { SameUnnamed(ApplyEvent(b, events[0]), ApplyEvent(c, events[0]), events[1..]); }
  }

  lemma {:induction false} ApplyingEarlyOrLate(b: Block, ev: Event, events: seq<Event>)
    ensures Unnamed(ApplyAll(ApplyEvent(b, ev), events)) == Unnamed(ApplyEvent(ApplyAll(b, events), ev))
    decreases |events|
  {
    if events != [] {
      var first := events[0];
      SameUnnamed(ApplyEvent(ApplyEvent(b, ev), first), ApplyEvent(ApplyEvent(b, first), ev), events[1..]);
      ApplyingEarlyOrLate(ApplyEvent(b, first), ev, events[1..]);
    }
  }

  /** Names aside, a block is the same whether it takes two batches merged or in turn. */
  lemma {:induction false} MergeApplies(b: Block, a: seq<Event>, c: seq<Event>)
    ensures Unnamed(ApplyAll(b, Merge(a, c))) == Unnamed(ApplyAll(ApplyAll(b, a), c))
    decreases |a| + |c|
  {
    hide ApplyEvent;
    hide Unnamed;
    if a != [] && c != [] {
      if a[0].time <= c[0].time {
        var rest := Merge(a[1..], c);
        assert ([a[0]] + rest)[1..] == rest;
        MergeApplies(ApplyEvent(b, a[0]), a[1..], c);
      } else {
        var rest := Merge(a, c[1..]);
        assert ([c[0]] + rest)[1..] == rest;
        MergeApplies(ApplyEvent(b, c[0]), a, c[1..]);
        ApplyingEarlyOrLate(b, c[0], a);
        SameUnnamed(ApplyAll(ApplyEvent(b, c[0]), a), ApplyEvent(ApplyAll(b, a), c[0]), c[1..]);
      }
    }
  }

  /** What an event names: its branch, or its model. */
  type Naming = Event -> string

  function BranchNamed(ev: Event): string { ev.branch }

  function ModelNamed(ev: Event): string { ev.model }

  function LastWord(word: string, events: seq<Event>, f: Naming): string
    decreases |events|
  {
    if events == [] then word else LastWord(if f(events[0]) != "" then f(events[0]) else word, events[1..], f)
  }

  lemma {:induction false} ApplyAllNames(b: Block, events: seq<Event>)
    ensures ApplyAll(b, events).branch == LastWord(b.branch, events, BranchNamed)
    ensures ApplyAll(b, events).model == LastWord(b.model, events, ModelNamed)
    decreases |events|
  {
    if events != [] { ApplyAllNames(ApplyEvent(b, events[0]), events[1..]); }
  }

  ghost predicate IsLastNamed(events: seq<Event>, i: nat, f: Naming) {
    i < |events| && f(events[i]) != "" && forall j :: i < j < |events| ==> f(events[j]) == ""
  }

  /** No event of the first batch that comes after the second's last word says otherwise. */
  ghost predicate HasLastWord(a: seq<Event>, c: seq<Event>, word: string, f: Naming) {
    forall i: nat, x :: IsLastNamed(c, i, f) && x in a && f(x) != "" && x.time > c[i].time ==> f(c[i]) == word
  }

  ghost predicate Silent(events: seq<Event>, f: Naming) {
    forall x :: x in events ==> f(x) == ""
  }

  lemma {:induction false} WordOf(word: string, other: string, events: seq<Event>, f: Naming)
    ensures Silent(events, f) ==> LastWord(word, events, f) == word
    ensures !Silent(events, f) ==> LastWord(word, events, f) == LastWord(other, events, f)
    decreases |events|
  {
    if events != [] {
      var named := f(events[0]) != "";
      assert events == [events[0]] + events[1..];
      WordOf(if named then f(events[0]) else word, if named then f(events[0]) else other, events[1..], f);
    }
  }

  lemma {:induction false} SomeoneIsLast(events: seq<Event>, f: Naming) returns (i: nat)
    requires !Silent(events, f)
    ensures IsLastNamed(events, i, f)
  {
    var n := |events| - 1;
    assert events == events[..n] + [events[n]];
    if f(events[n]) != "" {
      i := n;
    } else {
      i := SomeoneIsLast(events[..n], f);
    }
  }

  /** Past its first event, a second batch's last word is that of the rest. */
  lemma LastWordOfRest(a: seq<Event>, c: seq<Event>, word: string, f: Naming)
    requires c != [] && (f(c[0]) == "" || !Silent(c[1..], f))
    ensures HasLastWord(a, c, word, f) <==> HasLastWord(a, c[1..], word, f)
  {
    forall i: nat ensures IsLastNamed(c, i + 1, f) <==> IsLastNamed(c[1..], i, f) {
      assert forall j :: 0 <= j < |c| - 1 ==> c[1..][j] == c[j + 1];
      if IsLastNamed(c[1..], i, f) {
        forall j | i + 1 < j < |c| ensures f(c[j]) == "" { assert c[1..][j - 1] == c[j]; }
      }
    }
    if f(c[0]) != "" {
      var k := SomeoneIsLast(c[1..], f);
      assert f(c[k + 1]) != "";
    }
    assert !IsLastNamed(c, 0, f);
    if HasLastWord(a, c, word, f) {
      forall i: nat, x | IsLastNamed(c[1..], i, f) && x in a && f(x) != "" && x.time > c[1..][i].time
        ensures f(c[1..][i]) == word
      {
        assert IsLastNamed(c, i + 1, f);
      }
    }
    if HasLastWord(a, c[1..], word, f) {
      forall i: nat, x | IsLastNamed(c, i, f) && x in a && f(x) != "" && x.time > c[i].time ensures f(c[i]) == word {
        assert i > 0 && IsLastNamed(c[1..], i - 1, f);
      }
    }
  }

  lemma EarlyEventsSayNothing(a: seq<Event>, c: seq<Event>, word: string, f: Naming)
    requires a != [] && c != [] && Chronological(c) && a[0].time <= c[0].time
    ensures HasLastWord(a, c, word, f) <==> HasLastWord(a[1..], c, word, f)
  {
    assert a == [a[0]] + a[1..];
    forall i: nat | i < |c| ensures a[0].time <= c[i].time {
    }
  }

  /** The merge and the two batches in turn end on the same name exactly when the second
      batch has the last word. */
  lemma {:induction false} WordsAgree(word: string, a: seq<Event>, c: seq<Event>, f: Naming)
    requires Chronological(a) && Chronological(c)
    ensures LastWord(word, Merge(a, c), f) == LastWord(LastWord(word, a, f), c, f)
            <==> HasLastWord(a, c, LastWord(word, a, f), f)
    decreases |a| + |c|
  {
    if a != [] { TailIsChronological(a); }
    if c != [] { TailIsChronological(c); }
    if a != [] && c != [] {
      if a[0].time <= c[0].time {
        EarlyEventsSayNothing(a, c, LastWord(word, a, f), f);
        hide HasLastWord;
        hide Chronological;
        var rest := Merge(a[1..], c);
        assert ([a[0]] + rest)[1..] == rest;
        WordsAgree(if f(a[0]) != "" then f(a[0]) else word, a[1..], c, f);
      } else {
        EarlierWord(word, a, c, f);
      }
    }
  }

  /** Where only the second batch's first event names something, everything the first
      batch says comes after it. */
  lemma OnlyFirstNamed(a: seq<Event>, c: seq<Event>, word: string, f: Naming)
    requires c != [] && f(c[0]) != "" && Silent(c[1..], f)
    requires forall x :: x in a ==> x.time > c[0].time
    ensures HasLastWord(a, c, word, f) <==> Silent(a, f) || f(c[0]) == word
  {
    assert forall j :: 0 < j < |c| ==> c[j] == c[1..][j - 1];
    assert IsLastNamed(c, 0, f) && forall i: nat :: IsLastNamed(c, i, f) ==> i == 0;
    if !Silent(a, f) {
      var x :| x in a && f(x) != "";
      assert x.time > c[0].time;
    }
  }

  lemma NothingNamed(a: seq<Event>, c: seq<Event>, word: string, f: Naming)
    requires Silent(c, f)
    ensures HasLastWord(a, c, word, f)
  {
    assert forall i: nat :: !IsLastNamed(c, i, f);
  }

  lemma {:induction false} EarlierWord(word: string, a: seq<Event>, c: seq<Event>, f: Naming)
    requires Chronological(a) && Chronological(c) && a != [] && c != [] && c[0].time < a[0].time
    ensures LastWord(word, Merge(a, c), f) == LastWord(LastWord(word, a, f), c, f)
            <==> HasLastWord(a, c, LastWord(word, a, f), f)
    decreases |a| + |c|, 0
  {
    TailIsChronological(a);
    TailIsChronological(c);
    hide Chronological;
    hide HasLastWord;
    hide Silent;
    var rest := Merge(a, c[1..]);
    assert ([c[0]] + rest)[1..] == rest;
    hide Merge;
    var next := if f(c[0]) != "" then f(c[0]) else word;
    WordsAgree(next, a, c[1..], f);
    WordOf(next, word, a, f);
    if f(c[0]) == "" || !Silent(c[1..], f) {
      WordOf(LastWord(next, a, f), if f(c[0]) != "" then f(c[0]) else LastWord(word, a, f), c[1..], f);
      LastWordOfRest(a, c, LastWord(word, a, f), f);
      if !Silent(c[1..], f) && Silent(a, f) {
        SilenceHasNoWord(a, c[1..], f);
      }
    } else {
      WordOf(LastWord(next, a, f), "", c[1..], f);
      WordOf(f(c[0]), "", c[1..], f);
      OnlyFirstNamed(a, c, LastWord(word, a, f), f);
      NothingNamed(a, c[1..], LastWord(next, a, f), f);
    }
  }

  lemma SilenceHasNoWord(a: seq<Event>, c: seq<Event>, f: Naming)
    requires Silent(a, f)
    ensures forall word :: HasLastWord(a, c, word, f)
  {
  }

  // ---------------------------------------------------------------- when two scans are one

  /** The events lead up to a start without a gap: each that comes before it is close
      enough to the next, the last of them to the start itself. */
  predicate LeadsUpTo(end: int, events: seq<Event>, start: int)
    decreases |events|
  {
    if events == [] || events[0].time >= start then start <= end + GAP_TIMEOUT
    else events[0].time <= end + GAP_TIMEOUT && LeadsUpTo(events[0].time, events[1..], start)
  }

  /** The events that go into a block when it is the one open. */
  function Joined(b: Block, events: seq<Event>): seq<Event> {
    events[..Joining(b.endedAt, events)]
  }

  /** The open block is the one the batch found open, or none was and the batch sealed
      nothing. */
  predicate Continues(l: Line, m: Line) {
    l.open.Some? && |m.sealed| == |l.sealed|
  }

  /** Opening the block earlier opens it as its own first event did. */
  predicate OpensAlike(b: Block, later: seq<Event>)
    requires later != []
  {
    later[0].time < b.startedAt ==>
      && LeadsUpTo(later[0].time, later[1..], b.startedAt)
      && later[0].project == b.project && later[0].agent == b.agent
  }

  /** What the times of a second batch must respect of what scanning a first one left: a
      block sealed for silence is not to be revived; no block sealed by a gap is to be
      reached; and where the open block began in the first batch, earlier events lead up
      to it and share its project and agent. */
  predicate Fits(l: Line, m: Line, now: int, later: seq<Event>)
    requires m.open.Some? && later != []
  {
    var b := m.open.value;
    if Stale(b, now) then GapBefore(b, later[0])
    else
      && (|m.sealed| > |l.sealed| ==> GapBefore(m.sealed[|m.sealed| - 1], later[0]))
      && (Continues(l, m) || OpensAlike(b, later))
  }

  /** The last to name a branch or a model is the last in time. */
  ghost predicate Named(a: seq<Event>, b: Block, later: seq<Event>) {
    && HasLastWord(a, Joined(b, later), b.branch, BranchNamed)
    && HasLastWord(a, Joined(b, later), b.model, ModelNamed)
  }

  /** A second batch that adds up with a first: it fits what the first scan left, and has
      the last word on what the block still open is called. */
  ghost predicate AddsUp(machine: string, l: Line, a: seq<Event>, now: int, later: seq<Event>) {
    var m := FoldLine(machine, l, a);
    m.open.Some? && later != [] ==>
      Fits(l, m, now, later) && (Stale(m.open.value, now) || Named(a, m.open.value, later))
  }

  lemma PrefixIsChronologicalAt(s: seq<Event>, n: nat)
    requires Chronological(s) && n <= |s|
    ensures Chronological(s[..n]) && Chronological(s[n..])
  {
  }

  /** With one block sealed at the same place, two folds agree exactly when it is the
      same block. */
  lemma RestDecides(machine: string, p: Block, q: Block, sealed: seq<Block>, rest: seq<Event>)
    requires rest != [] ==> GapBefore(p, rest[0]) && GapBefore(q, rest[0])
    ensures FoldLine(machine, Line(Some(p), sealed), rest) == FoldLine(machine, Line(Some(q), sealed), rest) <==> p == q
  {
    if rest != [] {
      FirstBlockIs(machine, Line(Some(p), sealed), rest);
      FirstBlockIs(machine, Line(Some(q), sealed), rest);
      assert rest[..0] == [];
      var x, y := FoldLine(machine, Line(Some(p), sealed), rest), FoldLine(machine, Line(Some(q), sealed), rest);
      assert AllBlocks(x)[|sealed|] == p && AllBlocks(y)[|sealed|] == q;
    }
  }

  /** Whatever joins after one batch joins in the merge, with nothing left out. */
  lemma {:induction false} MergedJoin(end: int, a: seq<Event>, c: seq<Event>)
    requires Joining(end, a) == |a| && Joining(EndAfter(end, a), c) == |c|
    ensures Joining(end, Merge(a, c)) == |a| + |c| == |Merge(a, c)|
    decreases |a| + |c|
  {
    if a != [] && c != [] {
      if a[0].time <= c[0].time {
        var rest := Merge(a[1..], c);
        assert ([a[0]] + rest)[1..] == rest;
        MergedJoin(Later(end, a[0]), a[1..], c);
      } else {
        var rest := Merge(a, c[1..]);
        assert ([c[0]] + rest)[1..] == rest;
        var next := Later(end, c[0]);
        LaterEndsTakeMore(end, next, a);
        EndNeverFalls(next, a);
        LaterEndsTakeMore(Later(EndAfter(end, a), c[0]), EndAfter(next, a), c[1..]);
        MergedJoin(next, a, c[1..]);
      }
    }
  }

  lemma JoinedAllJoin(end: int, events: seq<Event>)
    ensures var n := Joining(end, events); Joining(end, events[..n]) == n
    decreases |events|
  {
    var n := Joining(end, events);
    if n > 0 {
      JoinedAllJoin(Later(end, events[0]), events[1..]);
      assert events[..n][1..] == events[1..][..n - 1];
    }
  }

  /** The block a batch leaves open, with what a second batch adds to it, folded either
      way, up to the first event that is left over. */
  lemma TakenInTurn(machine: string, m: Line, later: seq<Event>)
    requires m.open.Some?
    ensures var b := m.open.value;
            var c := Joined(b, later);
            var rest := later[|c|..];
            && FoldLine(machine, m, later) == FoldLine(machine, Line(Some(ApplyAll(b, c)), m.sealed), rest)
            && later == c + rest && Joining(b.endedAt, c) == |c|
            && (rest != [] ==> GapBefore(ApplyAll(b, c), rest[0]) && rest[0].time > b.endedAt)
  {
    var b := m.open.value;
    FirstBlockTakes(machine, m, later);
    JoinedAllJoin(b.endedAt, later);
    ApplyAllCounts(b, Joined(b, later));
    EndNeverFalls(b.endedAt, Joined(b, later));
  }

  /** Merged instead, all of it goes into one block too. */
  lemma TakenMerged(machine: string, l: Line, a: seq<Event>, c: seq<Event>, rest: seq<Event>)
    requires l.open.Some? && Joining(l.open.value.endedAt, a) == |a|
    requires Joining(EndAfter(l.open.value.endedAt, a), c) == |c|
    requires rest != [] ==> rest[0].time > EndAfter(l.open.value.endedAt, a)
    ensures FoldLine(machine, l, Merge(a, c + rest))
            == FoldLine(machine, Line(Some(ApplyAll(l.open.value, Merge(a, c))), l.sealed), rest)
  {
    var end := l.open.value.endedAt;
    EndNeverFalls(end, a);
    MergeKeepsTail(a, c, rest);
    MergedJoin(end, a, c);
    FirstBlockIs(machine, l, Merge(a, c));
    assert Merge(a, c)[..|Merge(a, c)|] == Merge(a, c);
    FoldLineJoins(machine, l, Merge(a, c), rest);
  }

  /** Where the first batch only adds to the block it found open, a second agrees exactly
      when it has the last word. */
  lemma ContinuedBlocksAgree(machine: string, l: Line, a: seq<Event>, later: seq<Event>)
    requires Chronological(a) && Chronological(later)
    requires l.open.Some? && Joining(l.open.value.endedAt, a) == |a|
    ensures var m := FoldLine(machine, l, a);
            var b := ApplyAll(l.open.value, a);
            && m == Line(Some(b), l.sealed)
            && (FoldLine(machine, m, later) == FoldLine(machine, l, Merge(a, later))
                <==> HasLastWord(a, Joined(b, later), b.branch, BranchNamed)
                     && HasLastWord(a, Joined(b, later), b.model, ModelNamed))
  {
    var first := l.open.value;
    FirstBlockIs(machine, l, a);
    assert a[..|a|] == a;
    var b := ApplyAll(first, a);
    var c := Joined(b, later);
    TakenInTurn(machine, Line(Some(b), l.sealed), later);
    ApplyAllCounts(first, a);
    var rest := later[|c|..];
    TakenMerged(machine, l, a, c, rest);
    PrefixIsChronologicalAt(later, |c|);
    NamesDecide(first, a, c);
    var p, q := ApplyAll(first, Merge(a, c)), ApplyAll(b, c);
    RestDecides(machine, p, q, l.sealed, rest);
  }

  /** Two ways of taking two batches in differ at most in the names. */
  lemma NamesDecide(first: Block, a: seq<Event>, c: seq<Event>)
    requires Chronological(a) && Chronological(c)
    ensures var b := ApplyAll(first, a);
            var p, q := ApplyAll(first, Merge(a, c)), ApplyAll(b, c);
            && Unnamed(p) == Unnamed(q)
            && (p.branch == q.branch <==> HasLastWord(a, c, b.branch, BranchNamed))
            && (p.model == q.model <==> HasLastWord(a, c, b.model, ModelNamed))
            && (p == q <==> HasLastWord(a, c, b.branch, BranchNamed) && HasLastWord(a, c, b.model, ModelNamed))
  {
    hide HasLastWord;
    hide Chronological;
    hide ApplyAll;
    hide Merge;
    hide LastWord;
    var b := ApplyAll(first, a);
    MergeApplies(first, a, c);
    ApplyAllNames(first, Merge(a, c));
    ApplyAllNames(first, a);
    ApplyAllNames(b, c);
    WordsAgree(first.branch, a, c, BranchNamed);
    WordsAgree(first.model, a, c, ModelNamed);
  }

  lemma {:induction false} BlocksEndLater(machine: string, l: Line, events: seq<Event>)
    requires l.open.Some?
    ensures var m := FoldLine(machine, l, events);
            && m.open.Some? && m.open.value.endedAt >= l.open.value.endedAt
            && |m.sealed| >= |l.sealed|
            && (|m.sealed| > |l.sealed| ==> m.sealed[|m.sealed| - 1].endedAt >= l.open.value.endedAt)
    decreases |events|
  {
    if events != [] {
      hide FoldLine;
      FoldingStarts(machine, l, events);
      BlocksEndLater(machine, StepLine(machine, l, events[0]), events[1..]);
      var s := StepLine(machine, l, events[0]);
      FirstBlockIs(machine, s, events[1..]);
    }
  }

  /** The block a scan had sealed by then stays where it is in whatever is scanned next. */
  lemma SealedBlockStays(machine: string, l: Line, a: seq<Event>, now: int, later: seq<Event>)
    requires l.open.Some?
    requires var m := FoldLine(machine, l, a); m.open.Some? && (Stale(m.open.value, now) || |m.sealed| > |l.sealed|)
    ensures var n := Joining(l.open.value.endedAt, a);
            var r := FoldLine(machine, SealStale(FoldLine(machine, l, a), now), later);
            l.sealed + [ApplyAll(l.open.value, a[..n])] <= AllBlocks(r)
  {
    var m := FoldLine(machine, l, a);
    FirstBlockIs(machine, l, a);
    SealedOnlyGrows(machine, SealStale(m, now), later);
  }

  /** An event that joins the block found open, when the first scan has sealed that block,
      makes the two scans differ from one. */
  lemma RevivedBlocksDiffer(machine: string, l: Line, a: seq<Event>, now: int, later: seq<Event>)
    requires later != [] && (a == [] || later[0].time < a[0].time)
    requires l.open.Some? && !GapBefore(l.open.value, later[0])
    requires var m := FoldLine(machine, l, a); m.open.Some? && (Stale(m.open.value, now) || |m.sealed| > |l.sealed|)
    ensures FoldLine(machine, SealStale(FoldLine(machine, l, a), now), later) != FoldLine(machine, l, Merge(a, later))
  {
    var b := l.open.value;
    var merged := Merge(a, later);
    SealedBlockStays(machine, l, a, now, later);
    FirstBlockIs(machine, l, merged);
    EarlierEventsTakeMore(b.endedAt, a, later);
    hide FoldLine;
    hide Merge;
    hide SealStale;
    hide Joining;
    hide ApplyAll;
    var n, k := Joining(b.endedAt, a), Joining(b.endedAt, merged);
    ApplyAllCounts(b, a[..n]);
    ApplyAllCounts(b, merged[..k]);
    var x := AllBlocks(FoldLine(machine, SealStale(FoldLine(machine, l, a), now), later));
    var y := AllBlocks(FoldLine(machine, l, merged));
    hide AllBlocks;
    assert x[|l.sealed|] == ApplyAll(b, a[..n]) && y[|l.sealed|] == ApplyAll(b, merged[..k]);
  }

  /** An event within the gap of a block that is sealed does not fit. */
  lemma TooEarlyToFit(l: Line, m: Line, now: int, later: seq<Event>, end: int)
    requires m.open.Some? && later != [] && later[0].time <= end + GAP_TIMEOUT && end <= m.open.value.endedAt
    requires Stale(m.open.value, now)
             || (|m.sealed| > |l.sealed| && end <= m.sealed[|m.sealed| - 1].endedAt)
    ensures !Fits(l, m, now, later)
  {
    hide OpensAlike;
  }

  lemma RevivedBlocksDoNotAddUp(machine: string, l: Line, a: seq<Event>, now: int, later: seq<Event>)
    requires later != [] && l.open.Some? && !GapBefore(l.open.value, later[0])
    requires var m := FoldLine(machine, l, a); m.open.Some? && (Stale(m.open.value, now) || |m.sealed| > |l.sealed|)
    ensures !AddsUp(machine, l, a, now, later)
  {
    BlocksEndLater(machine, l, a);
    TooEarlyToFit(l, FoldLine(machine, l, a), now, later, l.open.value.endedAt);
    UnfoldAddsUp(machine, l, a, now, later);
  }

  function Earliest(start: int, events: seq<Event>): int
    decreases |events|
  {
    if events == [] then start else Earliest(if events[0].time < start then events[0].time else start, events[1..])
  }

  lemma {:induction false} ApplyAllRenamed(b: Block, events: seq<Event>, project: string, agent: string, start: int)
    ensures ApplyAll(b.(project := project, agent := agent, startedAt := start), events)
            == ApplyAll(b, events).(project := project, agent := agent, startedAt := Earliest(start, events))
    ensures ApplyAll(b, events).project == b.project && ApplyAll(b, events).agent == b.agent
    ensures ApplyAll(b, events).startedAt == Earliest(b.startedAt, events)
    decreases |events|
  {
    if events != [] {
      var first := events[0];
      ApplyAllRenamed(ApplyEvent(b, first), events[1..], project, agent,
                      if first.time < start then first.time else start);
    }
  }

  lemma {:induction false} EarliestIsFirst(start: int, events: seq<Event>)
    requires forall x :: x in events ==> x.time >= start
    ensures Earliest(start, events) == start
    decreases |events|
  {
    if events != [] {
      assert events == [events[0]] + events[1..];
      EarliestIsFirst(start, events[1..]);
    }
  }

  /** When the events lead up to the first batch, everything goes into one block. */
  lemma {:induction false} LeadingUpJoins(end: int, a: seq<Event>, c: seq<Event>)
    requires a != [] && Chronological(c) && end < a[0].time && (c != [] ==> end <= c[0].time)
    requires Joining(a[0].time, a[1..]) == |a| - 1 && Joining(EndAfter(a[0].time, a[1..]), c) == |c|
    requires LeadsUpTo(end, c, a[0].time)
    ensures Joining(end, Merge(a, c)) == |a| + |c| == |Merge(a, c)|
    decreases |c|
  {
    if c == [] || c[0].time >= a[0].time {
      MergedJoin(end, a, c);
    } else {
      TailIsChronological(c);
      var rest := Merge(a, c[1..]);
      assert ([c[0]] + rest)[1..] == rest;
      EndNeverFalls(a[0].time, a[1..]);
      LeadingUpJoins(c[0].time, a, c[1..]);
    }
  }

  /** When they do not, the block they open ends before the first batch begins. */
  lemma {:induction false} NotLeadingUpStops(end: int, a: seq<Event>, c: seq<Event>)
    requires a != [] && Chronological(c) && end < a[0].time && (c != [] ==> end <= c[0].time)
    requires !LeadsUpTo(end, c, a[0].time)
    ensures var es := Merge(a, c); EndAfter(end, es[..Joining(end, es)]) < a[0].time
    decreases |c|
  {
    var es := Merge(a, c);
    if c != [] && c[0].time < a[0].time {
      TailIsChronological(c);
      var rest := Merge(a, c[1..]);
      assert es[1..] == rest;
      if c[0].time <= end + GAP_TIMEOUT {
        NotLeadingUpStops(c[0].time, a, c[1..]);
        var n := Joining(c[0].time, rest);
        assert es[..n + 1][1..] == rest[..n];
      }
    } else {
      assert es[0] == a[0];
    }
  }

  lemma {:induction false} LeadingUpNeedsOnlyEarly(end: int, c: seq<Event>, rest: seq<Event>, start: int)
    requires rest != [] ==> rest[0].time >= start
    ensures LeadsUpTo(end, c + rest, start) <==> LeadsUpTo(end, c, start)
    decreases |c|
  {
    if c == [] {
      assert c + rest == rest;
    } else {
      assert (c + rest)[1..] == c[1..] + rest;
      LeadingUpNeedsOnlyEarly(c[0].time, c[1..], rest, start);
    }
  }

  function Opened(machine: string, ev: Event): Block {
    ApplyEvent(NewBlock(machine, ev), ev)
  }

  function AllSealed(l: Line): seq<Block> {
    if l.open.Some? then l.sealed + [l.open.value] else l.sealed
  }

  lemma StartingOver(machine: string, l: Line, events: seq<Event>)
    requires events != [] && (l.open.None? || GapBefore(l.open.value, events[0]))
    ensures FoldLine(machine, l, events)
            == FoldLine(machine, Line(Some(Opened(machine, events[0])), AllSealed(l)), events[1..])
  {
    FoldingStarts(machine, l, events);
  }

  lemma NothingEarlier(machine: string, ev: Event, events: seq<Event>)
    requires forall x :: x in events ==> x.time >= ev.time
    ensures ApplyAll(Opened(machine, ev), events).startedAt == ev.time
    ensures ApplyAll(Opened(machine, ev), events).project == ev.project
    ensures ApplyAll(Opened(machine, ev), events).agent == ev.agent
  {
    EarliestIsFirst(ev.time, events);
    ApplyAllRenamed(Opened(machine, ev), events, "", "", 0);
  }

  /** A first batch that was cut, or a stale block, where the second batch opens earlier. */
  lemma EarlierStartsDiffer(machine: string, l: Line, a: seq<Event>, now: int, later: seq<Event>)
    requires a != [] && later != [] && Chronological(a) && Chronological(later) && later[0].time < a[0].time
    requires l.open.None? || GapBefore(l.open.value, later[0])
    requires var m := FoldLine(machine, Line(Some(Opened(machine, a[0])), AllSealed(l)), a[1..]);
             m.open.Some? && (Stale(m.open.value, now) || |m.sealed| > |AllSealed(l)|)
    ensures FoldLine(machine, SealStale(FoldLine(machine, l, a), now), later) != FoldLine(machine, l, Merge(a, later))
  {
    var x, y := a[0], later[0];
    var merged := Merge(a, later[1..]);
    StartingOver(machine, l, a);
    MergeStartsWithSecond(a, y, later[1..]);
    assert later == [y] + later[1..] && ([y] + merged)[1..] == merged;
    StartingOver(machine, l, [y] + merged);
    TailIsChronological(a);
    TailIsChronological(later);
    MergeMembers(a, later[1..]);
    var la, ly := Line(Some(Opened(machine, x)), AllSealed(l)), Line(Some(Opened(machine, y)), AllSealed(l));
    SealedBlockStays(machine, la, a[1..], now, later);
    FirstBlockIs(machine, ly, merged);
    var n, k := Joining(x.time, a[1..]), Joining(y.time, merged);
    NothingEarlier(machine, x, a[1..][..n]);
    NothingEarlier(machine, y, merged[..k]);
    hide FoldLine;
    hide Merge;
    hide Joining;
    hide ApplyAll;
    var u := AllBlocks(FoldLine(machine, SealStale(FoldLine(machine, l, a), now), later));
    var v := AllBlocks(FoldLine(machine, ly, merged));
    hide AllBlocks;
    assert u[|AllSealed(l)|].startedAt == x.time && v[|AllSealed(l)|].startedAt == y.time;
  }

  lemma EarlierStartsDoNotAddUp(machine: string, l: Line, a: seq<Event>, now: int, later: seq<Event>)
    requires a != [] && later != [] && later[0].time < a[0].time
    requires l.open.None? || GapBefore(l.open.value, later[0])
    requires var m := FoldLine(machine, Line(Some(Opened(machine, a[0])), AllSealed(l)), a[1..]);
             m.open.Some? && (Stale(m.open.value, now) || |m.sealed| > |AllSealed(l)|)
    ensures !AddsUp(machine, l, a, now, later)
  {
    StartingOver(machine, l, a);
    BlocksEndLater(machine, Line(Some(Opened(machine, a[0])), AllSealed(l)), a[1..]);
    UnfoldAddsUp(machine, l, a, now, later);
    assert Opened(machine, a[0]).endedAt == a[0].time && |AllSealed(l)| >= |l.sealed|;
    hide *;
    TooEarlyToFit(l, FoldLine(machine, l, a), now, later, a[0].time);
  }

  /** One block opened by the second batch, taken in merged or in turn. */
  lemma EarlierBlocks(machine: string, a: seq<Event>, c: seq<Event>)
    requires a != [] && c != [] && Chronological(a) && Chronological(c) && c[0].time < a[0].time
    ensures var b := ApplyAll(Opened(machine, a[0]), a[1..]);
            var p, q := ApplyAll(Opened(machine, c[0]), Merge(a, c)[1..]), ApplyAll(b, c);
            && Merge(a, c) != [] && p.endedAt == q.endedAt
            && (p == q <==> c[0].project == b.project && c[0].agent == b.agent
                            && HasLastWord(a, c, b.branch, BranchNamed) && HasLastWord(a, c, b.model, ModelNamed))
  {
    var x, y := a[0], c[0];
    var b := ApplyAll(Opened(machine, x), a[1..]);
    NamesDecide(NewBlock(machine, y), a, c);
    OpenedByEarlier(machine, a, c);
    assert Merge(a, c)[0] == y && ApplyAll(NewBlock(machine, y), Merge(a, c))
        == ApplyAll(Opened(machine, y), Merge(a, c)[1..]);
    hide HasLastWord;
    hide Merge;
    hide ApplyAll;
    hide Chronological;
    hide ApplyEvent;
  }

  /** The first batch's block opened by the second batch's first event instead differs in
      where it starts, its project and its agent; and once it has taken the second batch
      too, in those names alone. */
  lemma OpenedByEarlier(machine: string, a: seq<Event>, c: seq<Event>)
    requires a != [] && c != [] && Chronological(a) && Chronological(c) && c[0].time < a[0].time
    ensures var b := ApplyAll(Opened(machine, a[0]), a[1..]);
            var b' := ApplyAll(NewBlock(machine, c[0]), a);
            && b'.branch == b.branch && b'.model == b.model
            && ApplyAll(b', c) == ApplyAll(b, c).(project := c[0].project, agent := c[0].agent)
            && ApplyAll(b, c).project == b.project && ApplyAll(b, c).agent == b.agent
  {
    var x, y := a[0], c[0];
    TailIsChronological(a);
    TailIsChronological(c);
    var b := ApplyAll(Opened(machine, x), a[1..]);
    assert ApplyEvent(NewBlock(machine, y), x)
        == Opened(machine, x).(project := y.project, agent := y.agent, startedAt := y.time);
    ApplyAllRenamed(Opened(machine, x), a[1..], y.project, y.agent, y.time);
    EarliestIsFirst(y.time, a[1..]);
    assert ApplyAll(NewBlock(machine, y), a) == b.(project := y.project, agent := y.agent, startedAt := y.time);
    ApplyAllRenamed(b, c, y.project, y.agent, y.time);
    EarliestIsFirst(y.time, c);
    EarliestIsFirst(x.time, a[1..]);
    EarliestFinds(x.time, c);
    hide ApplyAll;
    hide ApplyEvent;
    hide Earliest;
  }

  lemma EarliestFinds(start: int, events: seq<Event>)
    requires events != [] && Chronological(events) && events[0].time <= start
    ensures Earliest(start, events) == events[0].time
  {
    TailIsChronological(events);
    EarliestIsFirst(events[0].time, events[1..]);
  }

  /** A first batch in one block, still open, and a second that opens it earlier. */
  lemma EarlierOpeningsAgree(machine: string, l: Line, a: seq<Event>, later: seq<Event>)
    requires a != [] && later != [] && Chronological(a) && Chronological(later) && later[0].time < a[0].time
    requires l.open.None? || GapBefore(l.open.value, later[0])
    requires Joining(a[0].time, a[1..]) == |a| - 1
    ensures var b := ApplyAll(Opened(machine, a[0]), a[1..]);
            var c := Joined(b, later);
            && FoldLine(machine, l, a) == Line(Some(b), AllSealed(l)) && b.startedAt == a[0].time
            && (FoldLine(machine, FoldLine(machine, l, a), later) == FoldLine(machine, l, Merge(a, later))
                <==> && LeadsUpTo(later[0].time, later[1..], b.startedAt)
                     && later[0].project == b.project && later[0].agent == b.agent
                     && HasLastWord(a, c, b.branch, BranchNamed) && HasLastWord(a, c, b.model, ModelNamed))
  {
    var b := ApplyAll(Opened(machine, a[0]), a[1..]);
    OneBlockOpened(machine, l, a);
    if LeadsUpTo(later[0].time, later[1..], b.startedAt) {
      LedUpToAgrees(machine, l, a, later);
    } else {
      NotLedUpToDiffers(machine, l, a, later);
    }
  }

  lemma OneBlockOpened(machine: string, l: Line, a: seq<Event>)
    requires a != [] && Chronological(a) && (l.open.None? || GapBefore(l.open.value, a[0]))
    requires Joining(a[0].time, a[1..]) == |a| - 1
    ensures var b := ApplyAll(Opened(machine, a[0]), a[1..]);
            && FoldLine(machine, l, a) == Line(Some(b), AllSealed(l)) && b.startedAt == a[0].time
            && b.endedAt == EndAfter(a[0].time, a[1..]) >= a[0].time
  {
    StartingOver(machine, l, a);
    TailIsChronological(a);
    NothingEarlier(machine, a[0], a[1..]);
    FirstBlockIs(machine, Line(Some(Opened(machine, a[0])), AllSealed(l)), a[1..]);
    assert a[1..][..|a| - 1] == a[1..];
    ApplyAllCounts(Opened(machine, a[0]), a[1..]);
    EndNeverFalls(a[0].time, a[1..]);
  }

  lemma LedUpToAgrees(machine: string, l: Line, a: seq<Event>, later: seq<Event>)
    requires a != [] && later != [] && Chronological(a) && Chronological(later) && later[0].time < a[0].time
    requires l.open.None? || GapBefore(l.open.value, later[0])
    requires Joining(a[0].time, a[1..]) == |a| - 1 && LeadsUpTo(later[0].time, later[1..], a[0].time)
    ensures var b := ApplyAll(Opened(machine, a[0]), a[1..]);
            var c := Joined(b, later);
            FoldLine(machine, FoldLine(machine, l, a), later) == FoldLine(machine, l, Merge(a, later))
            <==> && later[0].project == b.project && later[0].agent == b.agent
                 && HasLastWord(a, c, b.branch, BranchNamed) && HasLastWord(a, c, b.model, ModelNamed)
  {
    var b := ApplyAll(Opened(machine, a[0]), a[1..]);
    OneBlockOpened(machine, l, a);
    TakenInTurn(machine, Line(Some(b), AllSealed(l)), later);
    LedUpPart(b, a[0].time, later);
    var c := Joined(b, later);
    var rest := later[|c|..];
    LedUpToMerges(machine, l, a, c, rest);
    hide *;
    EarlierBlocks(machine, a, c);
    RestDecides(machine, ApplyAll(Opened(machine, later[0]), Merge(a, c)[1..]), ApplyAll(b, c), AllSealed(l), rest);
  }

  /** The part of a batch that joins leads up to the same start as the batch. */
  lemma LedUpPart(b: Block, start: int, later: seq<Event>)
    requires later != [] && Chronological(later) && later[0].time < start <= b.endedAt
    requires LeadsUpTo(later[0].time, later[1..], start)
    ensures var c := Joined(b, later);
            && c != [] && c[0] == later[0] && Chronological(c)
            && LeadsUpTo(later[0].time, c[1..], start)
  {
    TakenInTurn("", Line(Some(b), []), later);
    var c := Joined(b, later);
    FirstJoins(b.endedAt, later);
    PrefixIsChronologicalAt(later, |c|);
    assert later[1..] == c[1..] + later[|c|..];
    LeadingUpNeedsOnlyEarly(later[0].time, c[1..], later[|c|..], start);
  }

  /** What one scan makes of a batch led up to: one block, up to what is left over. */
  lemma LedUpToMerges(machine: string, l: Line, a: seq<Event>, c: seq<Event>, rest: seq<Event>)
    requires a != [] && c != [] && Chronological(a) && Chronological(c) && c[0].time < a[0].time
    requires l.open.None? || GapBefore(l.open.value, c[0])
    requires Joining(a[0].time, a[1..]) == |a| - 1 && LeadsUpTo(c[0].time, c[1..], a[0].time)
    requires var end := EndAfter(a[0].time, a[1..]); Joining(end, c) == |c| && (rest != [] ==> rest[0].time > end)
    ensures Merge(a, c) != []
    ensures FoldLine(machine, l, Merge(a, c + rest))
            == FoldLine(machine, Line(Some(ApplyAll(Opened(machine, c[0]), Merge(a, c)[1..])), AllSealed(l)), rest)
  {
    var x, y := a[0], c[0];
    assert c == [y] + c[1..] && a == [x] + a[1..];
    TailIsChronological(c);
    EndNeverFalls(x.time, a[1..]);
    RestStillJoins(EndAfter(x.time, a[1..]), c);
    LeadingUpJoins(y.time, a, c[1..]);
    MergeStartsWithSecond(a, y, c[1..]);
    assert ([y] + Merge(a, c[1..]))[1..] == Merge(a, c[1..]);
    hide *;
    MergedFromEarlier(machine, l, a, c, rest);
  }

  lemma RestStillJoins(end: int, c: seq<Event>)
    requires c != [] && c[0].time <= end && Joining(end, c) == |c|
    ensures Joining(end, c[1..]) == |c| - 1
  {
  }

  lemma FirstJoins(end: int, later: seq<Event>)
    requires later != [] && later[0].time <= end && Joining(end, later[..Joining(end, later)]) == Joining(end, later)
    ensures Joining(end, later) >= 1
    ensures Joining(end, later[..Joining(end, later)][1..]) == Joining(end, later) - 1
  {
    var c := later[..Joining(end, later)];
    assert c != [] && c[0] == later[0];
  }

  /** The merge opens with the second batch's first event and goes into one block. */
  lemma MergedFromEarlier(machine: string, l: Line, a: seq<Event>, c: seq<Event>, rest: seq<Event>)
    requires a != [] && c != [] && c[0].time < a[0].time && (l.open.None? || GapBefore(l.open.value, c[0]))
    requires Joining(c[0].time, Merge(a, c[1..])) == |Merge(a, c[1..])|
    requires rest != [] ==> forall z :: z in a ==> z.time <= rest[0].time
    ensures FoldLine(machine, l, Merge(a, c + rest))
            == FoldLine(machine, Line(Some(ApplyAll(Opened(machine, c[0]), Merge(a, c[1..]))), AllSealed(l)), rest)
  {
    var y := c[0];
    var merged := Merge(a, c[1..]);
    assert c == [y] + c[1..];
    MergeKeepsTail(a, c, rest);
    MergeStartsWithSecond(a, y, c[1..]);
    FoldLineJoins(machine, l, [y] + merged, rest);
    assert ([y] + merged)[1..] == merged;
    StartingOver(machine, l, [y] + merged);
    FirstBlockIs(machine, Line(Some(Opened(machine, y)), AllSealed(l)), merged);
    assert merged[..|merged|] == merged;
  }

  lemma NotLedUpToDiffers(machine: string, l: Line, a: seq<Event>, later: seq<Event>)
    requires a != [] && later != [] && Chronological(a) && Chronological(later) && later[0].time < a[0].time
    requires l.open.None? || GapBefore(l.open.value, later[0])
    requires Joining(a[0].time, a[1..]) == |a| - 1 && !LeadsUpTo(later[0].time, later[1..], a[0].time)
    ensures FoldLine(machine, FoldLine(machine, l, a), later) != FoldLine(machine, l, Merge(a, later))
  {
    var x, y := a[0], later[0];
    var merged := Merge(a, later[1..]);
    OneBlockOpened(machine, l, a);
    var b := ApplyAll(Opened(machine, x), a[1..]);
    FirstBlockIs(machine, Line(Some(b), AllSealed(l)), later);
    ApplyAllCounts(b, later[..Joining(b.endedAt, later)]);
    EndNeverFalls(b.endedAt, later[..Joining(b.endedAt, later)]);
    TailIsChronological(later);
    assert later == [y] + later[1..] && ([y] + merged)[1..] == merged;
    MergeStartsWithSecond(a, y, later[1..]);
    StartingOver(machine, l, [y] + merged);
    FirstBlockIs(machine, Line(Some(Opened(machine, y)), AllSealed(l)), merged);
    NotLeadingUpStops(y.time, a, later[1..]);
    ApplyAllCounts(Opened(machine, y), merged[..Joining(y.time, merged)]);
    hide FoldLine;
    hide Merge;
    hide Joining;
    hide ApplyAll;
    var u := AllBlocks(FoldLine(machine, FoldLine(machine, l, a), later));
    var v := AllBlocks(FoldLine(machine, l, [y] + merged));
    hide AllBlocks;
    assert u[|AllSealed(l)|].endedAt >= x.time > v[|AllSealed(l)|].endedAt;
  }

  // ---------------------------------------------------------------- the condition, step by step

  lemma SteppingSeals(machine: string, l: Line, ev: Event)
    ensures var s := StepLine(machine, l, ev);
            && s.open.Some?
            && (s.sealed == l.sealed
                || (l.open.Some? && GapBefore(l.open.value, ev) && s.sealed == l.sealed + [l.open.value]))
  {
  }

  lemma FitsAfterOne(l: Line, s: Line, m: Line, ev: Event, now: int, later: seq<Event>)
    requires m.open.Some? && later != [] && ev.time <= later[0].time
    requires s.open.Some? && s.sealed <= m.sealed
    requires s.sealed == l.sealed
             || (l.open.Some? && GapBefore(l.open.value, ev) && s.sealed == l.sealed + [l.open.value])
    requires Continues(s, m) && !Continues(l, m) ==> m.open.value.startedAt == ev.time
    ensures Fits(l, m, now, later) <==> Fits(s, m, now, later)
  {
    hide LeadsUpTo;
    assert |m.sealed| == |s.sealed| ==> m.sealed == s.sealed;
  }

  /** An event of the first batch that no later event precedes changes nothing in the
      condition. */
  lemma AddingUpAfterOne(machine: string, l: Line, a: seq<Event>, now: int, later: seq<Event>)
    requires a != [] && later != [] && Chronological(a) && Chronological(later) && a[0].time <= later[0].time
    ensures AddsUp(machine, l, a, now, later) <==> AddsUp(machine, StepLine(machine, l, a[0]), a[1..], now, later)
  {
    FoldingStarts(machine, l, a);
    var s := StepLine(machine, l, a[0]);
    SteppingSeals(machine, l, a[0]);
    FirstBlockIs(machine, s, a[1..]);
    BlocksEndLater(machine, s, a[1..]);
    var m := FoldLine(machine, l, a);
    var b := m.open.value;
    if Continues(s, m) && !Continues(l, m) {
      FirstBlockOpened(machine, l, a);
    }
    SameLastWord(a, later, b, b.branch, BranchNamed);
    SameLastWord(a, later, b, b.model, ModelNamed);
    hide *;
    FitsAfterOne(l, s, m, a[0], now, later);
    UnfoldAddsUp(machine, l, a, now, later);
    UnfoldAddsUp(machine, s, a[1..], now, later);
  }

  lemma UnfoldAddsUp(machine: string, l: Line, a: seq<Event>, now: int, later: seq<Event>)
    requires FoldLine(machine, l, a).open.Some? && later != []
    ensures var m := FoldLine(machine, l, a);
            var b := m.open.value;
            AddsUp(machine, l, a, now, later) <==>
              && Fits(l, m, now, later)
              && (Stale(b, now) || (HasLastWord(a, Joined(b, later), b.branch, BranchNamed)
                                    && HasLastWord(a, Joined(b, later), b.model, ModelNamed)))
  {
  }

  lemma SameLastWord(a: seq<Event>, later: seq<Event>, b: Block, word: string, f: Naming)
    requires a != [] && later != [] && Chronological(later) && a[0].time <= later[0].time
    ensures HasLastWord(a, Joined(b, later), word, f) <==> HasLastWord(a[1..], Joined(b, later), word, f)
  {
    var c := Joined(b, later);
    if c == [] {
      NothingNamed(a, c, word, f);
      NothingNamed(a[1..], c, word, f);
    } else {
      PrefixIsChronologicalAt(later, |c|);
      EarlyEventsSayNothing(a, c, word, f);
    }
  }

  lemma FirstBlockOpened(machine: string, l: Line, a: seq<Event>)
    requires a != [] && Chronological(a)
    requires Continues(StepLine(machine, l, a[0]), FoldLine(machine, l, a)) && !Continues(l, FoldLine(machine, l, a))
    ensures FoldLine(machine, l, a).open.Some? && FoldLine(machine, l, a).open.value.startedAt == a[0].time
  {
    FoldingStarts(machine, l, a);
    NotContinuedStartsOver(machine, l, a[0], FoldLine(machine, l, a));
    TailIsChronological(a);
    hide *;
    StretchStartsAtFirst(machine, AllSealed(l), a[0], a[1..]);
  }

  /** A block just opened that nothing seals starts where it was opened. */
  lemma StretchStartsAtFirst(machine: string, sealed: seq<Block>, ev: Event, events: seq<Event>)
    requires forall x :: x in events ==> x.time >= ev.time
    requires |FoldLine(machine, Line(Some(Opened(machine, ev)), sealed), events).sealed| == |sealed|
    ensures var m := FoldLine(machine, Line(Some(Opened(machine, ev)), sealed), events);
            m.open.Some? && m.open.value.startedAt == ev.time
  {
    FirstBlockIs(machine, Line(Some(Opened(machine, ev)), sealed), events);
    NothingEarlier(machine, ev, events);
    assert events[..|events|] == events;
    hide FoldLine;
    hide ApplyAll;
    hide ApplyEvent;
    hide Joining;
    hide AllBlocks;
  }

  lemma NotContinuedStartsOver(machine: string, l: Line, ev: Event, m: Line)
    requires Continues(StepLine(machine, l, ev), m) && !Continues(l, m)
    ensures StepLine(machine, l, ev) == Line(Some(Opened(machine, ev)), AllSealed(l)) && |m.sealed| == |AllSealed(l)|
  {
  }

  // ---------------------------------------------------------------- the theorem

  /** Two folds with an open block differ when their blocks do, and so do the scans. */
  lemma ScansCompareFolds(x: Line, y: Line, now: int)
    requires x.open.Some? && y.open.Some?
    ensures SealStale(x, now) == SealStale(y, now) <==> x == y
  {
    SealingKeepsBlocks(x, now);
    SealingKeepsBlocks(y, now);
    if SealStale(x, now) == SealStale(y, now) {
      var all := AllBlocks(x);
      assert x.sealed == all[..|all| - 1] && y.sealed == all[..|all| - 1];
    }
  }

  lemma StaleBlocksAgree(machine: string, l: Line, now: int, later: seq<Event>)
    requires later != [] && l.open.Some? && Stale(l.open.value, now)
    ensures FoldLine(machine, SealStale(l, now), later) == FoldLine(machine, l, later)
            <==> AddsUp(machine, l, [], now, later)
  {
    if GapBefore(l.open.value, later[0]) {
      StartingOver(machine, l, later);
      StartingOver(machine, SealStale(l, now), later);
    } else {
      RevivedBlocksDiffer(machine, l, [], now, later);
    }
  }

  /** The second batch comes first of all, or the first has nothing: each case by what the
      scan found open. */
  lemma EarlierBatchesAgree(machine: string, l: Line, a: seq<Event>, now: int, later: seq<Event>)
    requires Chronological(a) && Chronological(later) && later != []
    requires a != [] && later[0].time < a[0].time
    requires FoldLine(machine, l, a).open.Some?
    requires !(Continues(l, FoldLine(machine, l, a)) && !Stale(FoldLine(machine, l, a).open.value, now))
    ensures FoldLine(machine, SealStale(FoldLine(machine, l, a), now), later) == FoldLine(machine, l, Merge(a, later))
            <==> AddsUp(machine, l, a, now, later)
  {
    var m := FoldLine(machine, l, a);
    if l.open.Some? && !GapBefore(l.open.value, later[0]) {
      BlocksEndLater(machine, l, a);
      hide *;
      assert Stale(m.open.value, now) || |m.sealed| > |l.sealed| by { ContinuesOrNot(l, m); }
      RevivedBlocksDiffer(machine, l, a, now, later);
      RevivedBlocksDoNotAddUp(machine, l, a, now, later);
    } else {
      StartingOver(machine, l, a);
      var la := Line(Some(Opened(machine, a[0])), AllSealed(l));
      FirstBlockIs(machine, la, a[1..]);
      BlocksEndLater(machine, la, a[1..]);
      if Stale(m.open.value, now) || |m.sealed| > |AllSealed(l)| {
        EarlierStartsDiffer(machine, l, a, now, later);
        EarlierStartsDoNotAddUp(machine, l, a, now, later);
      } else {
        EarlierOpeningsAgree(machine, l, a, later);
        EarlierOpeningsAddUp(machine, l, a, now, later);
      }
    }
  }

  lemma EarlierOpeningsAddUp(machine: string, l: Line, a: seq<Event>, now: int, later: seq<Event>)
    requires later != [] && (l.open.None? || GapBefore(l.open.value, later[0]))
    requires var m := FoldLine(machine, l, a);
             && m.open.Some? && !Stale(m.open.value, now) && m.sealed == AllSealed(l)
             && later[0].time < m.open.value.startedAt
    ensures var b := FoldLine(machine, l, a).open.value;
            AddsUp(machine, l, a, now, later)
            <==> && LeadsUpTo(later[0].time, later[1..], b.startedAt)
                 && later[0].project == b.project && later[0].agent == b.agent
                 && HasLastWord(a, Joined(b, later), b.branch, BranchNamed)
                 && HasLastWord(a, Joined(b, later), b.model, ModelNamed)
  {
    UnfoldAddsUp(machine, l, a, now, later);
    hide HasLastWord;
    hide FoldLine;
    hide LeadsUpTo;
    hide Joined;
  }

  lemma ContinuesOrNot(l: Line, m: Line)
    requires l.open.Some? && |m.sealed| >= |l.sealed|
    ensures Continues(l, m) <==> !(|m.sealed| > |l.sealed|)
  {
  }

  /** A block that continues fits, and agrees by its names alone. */
  lemma ContinuedBatchesAgree(machine: string, l: Line, a: seq<Event>, now: int, later: seq<Event>)
    requires Chronological(a) && Chronological(later) && later != []
    requires var m := FoldLine(machine, l, a); m.open.Some? && Continues(l, m) && !Stale(m.open.value, now)
    ensures FoldLine(machine, SealStale(FoldLine(machine, l, a), now), later) == FoldLine(machine, l, Merge(a, later))
            <==> AddsUp(machine, l, a, now, later)
  {
    FirstBlockIs(machine, l, a);
    ContinuedBlocksAgree(machine, l, a, later);
    UnfoldAddsUp(machine, l, a, now, later);
    hide HasLastWord;
    hide FoldLine;
    hide Merge;
    hide ApplyAll;
    hide Joined;
    hide OpensAlike;
  }

  lemma {:induction false} FoldsAddUp(machine: string, l: Line, a: seq<Event>, now: int, later: seq<Event>)
    requires Chronological(a) && Chronological(later) && later != [] && FoldLine(machine, l, a).open.Some?
    ensures FoldLine(machine, SealStale(FoldLine(machine, l, a), now), later) == FoldLine(machine, l, Merge(a, later))
            <==> AddsUp(machine, l, a, now, later)
    decreases |a|
  {
    var m := FoldLine(machine, l, a);
    if Continues(l, m) && !Stale(m.open.value, now) {
      ContinuedBatchesAgree(machine, l, a, now, later);
    } else if a == [] {
      StaleBlocksAgree(machine, l, now, later);
    } else if a[0].time <= later[0].time {
      var rest := Merge(a[1..], later);
      FoldingStarts(machine, l, a);
      FoldingStarts(machine, l, [a[0]] + rest);
      assert ([a[0]] + rest)[1..] == rest && Merge(a, later) == [a[0]] + rest;
      TailIsChronological(a);
      AddingUpAfterOne(machine, l, a, now, later);
      hide *;
      FoldsAddUp(machine, StepLine(machine, l, a[0]), a[1..], now, later);
    } else {
      EarlierBatchesAgree(machine, l, a, now, later);
    }
  }

  lemma FoldsStayOpen(machine: string, l: Line, events: seq<Event>)
    ensures FoldLine(machine, l, events).open.None? <==> l.open.None? && events == []
  {
    if events != [] {
      FoldingStarts(machine, l, events);
      SteppingSeals(machine, l, events[0]);
      BlocksEndLater(machine, StepLine(machine, l, events[0]), events[1..]);
    } else if l.open.Some? {
      BlocksEndLater(machine, l, events);
    }
  }

  /** Batch splitting of one key, exactly and for any times: two scans leave and seal what
      one scan of both batches does if and only if the second adds up with the first. */
  lemma TwoScansAddUpExactlyWhen(machine: string, l: Line, a: seq<Event>, now1: int, b: seq<Event>, now2: int)
    requires Chronological(a) && Chronological(b) && now1 <= now2
    ensures ScanLine(machine, ScanLine(machine, l, a, now1), b, now2) == ScanLine(machine, l, Merge(a, b), now2)
            <==> AddsUp(machine, l, a, now1, b)
  {
    var m := FoldLine(machine, l, a);
    FoldsStayOpen(machine, l, a);
    if b == [] {
      assert Merge(a, b) == a;
    } else if m.open.Some? {
      FoldsAddUp(machine, l, a, now1, b);
      FoldsStayOpen(machine, SealStale(m, now1), b);
      FoldsStayOpen(machine, l, Merge(a, b));
      MergeMembers(a, b);
      assert b[0] in Merge(a, b);
      ScansCompareFolds(FoldLine(machine, SealStale(m, now1), b), FoldLine(machine, l, Merge(a, b)), now2);
    }
  }

  /** The same of whole scans, key by key: whatever the two scans read, one scan of it all
      agrees with them on a key if and only if that key's second batch adds up. */
  lemma SplitScansAddUpExactlyWhen(machine: string, start: map<string, Block>, a: seq<Event>, now1: int,
                                   b: seq<Event>, now2: int, mid: map<string, Block>, sealedA: seq<Block>,
                                   end: map<string, Block>, sealedB: seq<Block>,
                                   whole: map<string, Block>, sealedAll: seq<Block>, k: string)
    requires now1 <= now2
    requires Folded(machine, start, a, now1, mid, sealedA)
    requires Folded(machine, mid, b, now2, end, sealedB)
    requires Folded(machine, start, a + b, now2, whole, sealedAll)
    ensures OpenAt(end, k) == OpenAt(whole, k) && BlocksOf(sealedAll, k) == BlocksOf(sealedA, k) + BlocksOf(sealedB, k)
            <==> AddsUp(machine, Line(OpenAt(start, k), []), EventsOf(SortByTime(a), k), now1,
                        EventsOf(SortByTime(b), k))
  {
    hide ScanLine;
    hide SortByTime;
    hide AddsUp;
    var sa, sb := SortByTime(a), SortByTime(b);
    SortingMerges(a, b);
    MergingByKey(sa, sb, k);
    EventsOfStayInOrder(sa, k);
    EventsOfStayInOrder(sb, k);
    var l := Line(OpenAt(start, k), []);
    TwoScansAddUpExactlyWhen(machine, l, EventsOf(sa, k), now1, EventsOf(sb, k), now2);
    ScanOnlyGrows(machine, ScanLine(machine, l, EventsOf(sa, k), now1), EventsOf(sb, k), now2);
  }

  /** For a batch strictly later than the first, adding up comes down to not reviving a
      block sealed for silence. */
  lemma LaterBatchesAddUp(machine: string, l: Line, a: seq<Event>, now: int, later: seq<Event>)
    requires Chronological(a) && Chronological(later) && AllBefore(a, later)
    ensures AddsUp(machine, l, a, now, later) <==> NotRevived(FoldLine(machine, l, a), now, later)
  {
    TwoScansAddUpExactlyWhen(machine, l, a, now, later, now);
    TwoScansAreOneExactlyWhen(machine, l, a, now, later, now);
    MergeKeepsTail(a, [], later);
    assert [] + later == later && Merge(a, []) == a;
  }

  /** How late an event may be: one that comes in a scan after the event it belongs before
      adds up if and only if the two lie within the gap. */
  lemma LateByTheGap(machine: string, ev: Event, late: Event)
    requires late.time < ev.time && late == ev.(time := late.time)
    ensures AddsUp(machine, Line(None, []), [ev], ev.time, [late]) <==> ev.time <= late.time + GAP_TIMEOUT
  {
    var l := Line(None, []);
    FoldingOne(machine, l, ev);
    UnfoldAddsUp(machine, l, [ev], ev.time, [late]);
    assert [late][1..] == [];
    var b := FoldLine(machine, l, [ev]).open.value;
    assert b.startedAt == ev.time && b.endedAt == ev.time && b.branch == ev.branch && b.model == ev.model;
    assert forall i: nat, f: Naming :: IsLastNamed(Joined(b, [late]), i, f) ==> Joined(b, [late])[i] == late;
  }
}
