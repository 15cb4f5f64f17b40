/** Whole runs of scans with crashes among them: whatever each crash had written, what is
    read back after a scan that saves is what one scan of everything gives
    (internal/sessions/scan.go, store.go). */
module SessionCrashes {
  import opened Wrappers
  import opened SessionFold
  import opened SessionHistory
  import opened SessionBatches
  import opened SessionStore

  /** One scan: the events that have come since the last one, when it ran, and whether it
      lived to save its resume point. */
  datatype Attempt = Attempt(events: seq<Event>, now: int, saved: bool)

  /** What a machine has on disk: the saved open blocks, the events past the saved offset,
      and the blocks in its shards. */
  datatype Disk = Disk(open: map<string, Block>, unread: seq<Event>, stored: set<Block>)

  /** A scan reads everything past the saved offset. When it saves, all it sealed is stored
      and it starts from there; when it crashes, some part of it is stored and the resume
      point is the old one. */
  ghost predicate AttemptStep(machine: string, d: Disk, attempt: Attempt, e: Disk) {
    exists reached, sealed ::
      Folded(machine, d.open, d.unread + attempt.events, attempt.now, reached, sealed)
      && Leaves(d, attempt, reached, sealed, e)
  }

  ghost predicate Leaves(d: Disk, attempt: Attempt, reached: map<string, Block>, sealed: seq<Block>, e: Disk) {
    if attempt.saved then e == Disk(reached, [], d.stored + Members(sealed))
    else e.open == d.open && e.unread == d.unread + attempt.events && d.stored <= e.stored <= d.stored + Members(sealed)
  }

  ghost predicate IsRun(machine: string, attempts: seq<Attempt>, disks: seq<Disk>) {
    && |disks| == |attempts| + 1
    && disks[0].unread == []
    && forall i :: 0 <= i < |attempts| ==> AttemptStep(machine, disks[i], attempts[i], disks[i + 1])
  }

  function Arrived(attempts: seq<Attempt>, n: nat): seq<Event>
    requires n <= |attempts|
  {
    if n == 0 then [] else Arrived(attempts, n - 1) + attempts[n - 1].events
  }

  /** What arrives between two scans is later than all before it and recent enough for the
      scan before, whether that one saved or crashed. */
  ghost predicate TimelyRun(attempts: seq<Attempt>) {
    forall i :: 1 <= i < |attempts| ==>
      Timely(Arrived(attempts, i), attempts[i - 1].now, attempts[i].events, attempts[i].now)
  }

  /** The transcript grows and the scanner runs: one attempt, however it ends. */
  method TryScan(j: Journal, events: seq<Event>, now: int) returns (saved: bool)
    requires j.Valid()
    modifies j
    ensures j.Valid() && j.transcript == old(j.transcript) + events
    ensures AttemptStep(j.machine, old(DiskOf(j)), Attempt(events, now, saved), DiskOf(j))
  {
    hide Folded;
    hide Stored;
    hide Filed;
    ghost var d := DiskOf(j);
    j.transcript := j.transcript + events;
    assert j.transcript[j.offset..] == d.unread + events;
    ghost var sealed, reached;
    saved, sealed, reached := j.ScanLocked(now);
    assert j.transcript[j.offset..] == if saved then [] else d.unread + events;
    assert Leaves(d, Attempt(events, now, saved), reached, sealed, DiskOf(j));
  }

  ghost function DiskOf(j: Journal): Disk
    requires j.Valid()
    reads j
  {
    Disk(j.open, j.transcript[j.offset..], Stored(j.shards))
  }

  // ---------------------------------------------------------------- what every attempt keeps

  /** The first saves have consumed `done`, the last of them at time `at`, and sealed
      `whole`; before any, they have consumed nothing. */
  datatype Saves = Saves(any: bool, done: seq<Event>, at: int, whole: seq<Block>)

  /** The saved blocks are those of one scan of what the saves have consumed. */
  ghost predicate Saved(machine: string, start: Disk, d: Disk, saves: Saves) {
    if saves.any then Folded(machine, start.open, saves.done, saves.at, d.open, saves.whole)
    else d.open == start.open && saves.done == [] && saves.whole == []
  }

  /** What is unread may follow what the saves have consumed. */
  ghost predicate MayFollow(saves: Saves, unread: seq<Event>, now: int) {
    saves.any ==> AllBefore(saves.done, unread) && Recent(unread, saves.at) && saves.at <= now
  }

  /** After any number of attempts: all that arrived is consumed or unread; the shards hold
      what the saves sealed, and besides only what one scan of everything so far, which
      leaves `open` and seals `all`, would seal. */
  ghost predicate Tracks(machine: string, start: Disk, d: Disk, saves: Saves, arrived: seq<Event>, now: int,
                         open: map<string, Block>, all: seq<Block>) {
    && arrived == saves.done + d.unread
    && Saved(machine, start, d, saves) && MayFollow(saves, d.unread, now)
    && Folded(machine, start.open, arrived, now, open, all)
    && start.stored + Members(saves.whole) <= d.stored <= start.stored + Members(all)
  }

  /** Folding what is unread on top of what is saved is folding everything. */
  lemma UnreadCompletes(machine: string, start: Disk, d: Disk, saves: Saves, events: seq<Event>, now: int,
                        reached: map<string, Block>, sealed: seq<Block>)
    requires Saved(machine, start, d, saves) && MayFollow(saves, d.unread + events, now)
    requires Folded(machine, d.open, d.unread + events, now, reached, sealed)
    ensures Folded(machine, start.open, saves.done + d.unread + events, now, reached, saves.whole + sealed)
  {
    hide Folded;
    assert saves.done + (d.unread + events) == saves.done + d.unread + events;
    if saves.any {
      ScansCompose(machine, start.open, saves.done, saves.at, d.unread + events, now,
                   d.open, saves.whole, reached, sealed);
    } else {
      assert [] + d.unread + events == d.unread + events && [] + sealed == sealed;
    }
  }

  lemma FollowingMore(saves: Saves, unread: seq<Event>, arrived: seq<Event>, now: int, events: seq<Event>, next: int)
    requires MayFollow(saves, unread, now) && arrived == saves.done + unread && Timely(arrived, now, events, next)
    ensures MayFollow(saves, unread + events, next)
  {
  }

  lemma MembersJoin(a: seq<Block>, b: seq<Block>)
    ensures Members(a + b) == Members(a) + Members(b)
  {
  }

  /** One more attempt. `before` is what the shards may hold already. */
  lemma AttemptTracks(machine: string, start: Disk, d: Disk, saves: Saves, arrived: seq<Event>, attempt: Attempt,
                      e: Disk, before: seq<Block>)
    returns (after: Saves, open: map<string, Block>, all: seq<Block>)
    requires AttemptStep(machine, d, attempt, e)
    requires Saved(machine, start, d, saves) && arrived == saves.done + d.unread
    requires MayFollow(saves, d.unread + attempt.events, attempt.now)
    requires start.stored + Members(saves.whole) <= d.stored <= start.stored + Members(before)
    requires forall open, all :: Folded(machine, start.open, arrived + attempt.events, attempt.now, open, all) ==>
               Members(before) <= Members(all)
    ensures Tracks(machine, start, e, after, arrived + attempt.events, attempt.now, open, all)
    ensures attempt.saved ==> e.open == open && e.unread == [] && e.stored == start.stored + Members(all)
  {
    hide Folded;
    hide Members;
    hide Recent;
    hide AllBefore;
    var reached, sealed :| Folded(machine, d.open, d.unread + attempt.events, attempt.now, reached, sealed)
                           && Leaves(d, attempt, reached, sealed, e);
    UnreadCompletes(machine, start, d, saves, attempt.events, attempt.now, reached, sealed);
    open, all := reached, saves.whole + sealed;
    MembersJoin(saves.whole, sealed);
    if attempt.saved {
      after := Saves(true, arrived + attempt.events, attempt.now, all);
      assert arrived + attempt.events + [] == arrived + attempt.events;
      NothingFollows(after.done, attempt.now);
    } else {
      after := saves;
      assert saves.done + (d.unread + attempt.events) == arrived + attempt.events;
    }
  }

  lemma NothingFollows(done: seq<Event>, now: int)
    ensures AllBefore(done, []) && Recent([], now)
  {
  }

  lemma {:induction false} RunTracks(machine: string, attempts: seq<Attempt>, disks: seq<Disk>, n: nat)
    returns (saves: Saves, open: map<string, Block>, all: seq<Block>)
    requires IsRun(machine, attempts, disks) && TimelyRun(attempts) && 1 <= n <= |attempts|
    ensures Tracks(machine, disks[0], disks[n], saves, Arrived(attempts, n), attempts[n - 1].now, open, all)
    ensures attempts[n - 1].saved ==>
              && disks[n].open == open && disks[n].unread == []
              && disks[n].stored == disks[0].stored + Members(all)
  {
    hide Folded;
    hide Timely;
    hide Members;
    var attempt := attempts[n - 1];
    assert AttemptStep(machine, disks[n - 1], attempt, disks[n]);
    hide AttemptStep;
    var arrived := Arrived(attempts, n - 1);
    if n == 1 {
      NoMembers();
      assert [] + disks[0].unread == [];
      saves, open, all := AttemptTracks(machine, disks[0], disks[0], Saves(false, [], 0, []), [],
                                        attempt, disks[1], []);
    } else {
      var earlier := attempts[n - 2].now;
      var had, was, sealed := RunTracks(machine, attempts, disks, n - 1);
      assert Timely(arrived, earlier, attempt.events, attempt.now);
      FollowingMore(had, disks[n - 1].unread, arrived, earlier, attempt.events, attempt.now);
      forall o, s | Folded(machine, disks[0].open, arrived + attempt.events, attempt.now, o, s)
        ensures Members(sealed) <= Members(s)
      {
        CrashedScansSealNothingNew(machine, disks[0].open, arrived, earlier, attempt.events, attempt.now,
                                   was, sealed, o, s);
      }
      saves, open, all := AttemptTracks(machine, disks[0], disks[n - 1], had, arrived, attempt, disks[n], sealed);
    }
  }

  lemma NoMembers()
    ensures Members([]) == {}
  {
  }

  /** Any number of crashes, anywhere in a timely run, are harmless: once a scan saves,
      the open blocks are those one scan of everything leaves, and the shards hold what
      they held at first and exactly what that scan seals. */
  lemma CrashesAreHarmless(machine: string, attempts: seq<Attempt>, disks: seq<Disk>) returns (sealed: seq<Block>)
    requires IsRun(machine, attempts, disks) && TimelyRun(attempts)
    requires attempts != [] && attempts[|attempts| - 1].saved
    ensures var last := disks[|attempts|];
            && Folded(machine, disks[0].open, Arrived(attempts, |attempts|), attempts[|attempts| - 1].now, last.open,
                      sealed)
            && last.stored == disks[0].stored + Members(sealed)
  {
    hide Folded;
    hide Members;
    hide AttemptStep;
    var saves, open, all := RunTracks(machine, attempts, disks, |attempts|);
    sealed := all;
  }

  // ---------------------------------------------------------------- exactly when a crash is harmless

  ghost predicate EndsAscend(blocks: seq<Block>) {
    forall i, j :: 0 <= i < j < |blocks| ==> blocks[i].endedAt < blocks[j].endedAt
  }

  lemma SteppingEndsInTurn(machine: string, l: Line, ev: Event)
    requires EndsAscend(AllBlocks(l)) && (l.open.None? ==> l.sealed == [])
    ensures EndsAscend(AllBlocks(StepLine(machine, l, ev)))
  {
    var blocks, after := AllBlocks(l), AllBlocks(StepLine(machine, l, ev));
    if l.open.Some? {
      var n := |l.sealed|;
      assert blocks[n] == l.open.value && after[n].endedAt >= blocks[n].endedAt;
      forall i, j | 0 <= i < j < |after| ensures after[i].endedAt < after[j].endedAt {
        if i < n { assert after[i] == blocks[i]; }
        if j < n { assert after[j] == blocks[j]; }
        if j > n { assert after[j].endedAt > after[n].endedAt; }
      }
    }
  }

  /** Each block of a key ends after the ones before it. */
  lemma {:induction false} BlocksEndInTurn(machine: string, l: Line, events: seq<Event>)
    requires EndsAscend(AllBlocks(l)) && (l.open.None? ==> l.sealed == [])
    ensures EndsAscend(AllBlocks(FoldLine(machine, l, events)))
    decreases |events|
  {
    if events != [] {
      FoldingStarts(machine, l, events);
      SteppingEndsInTurn(machine, l, events[0]);
      hide FoldLine;
      BlocksEndInTurn(machine, StepLine(machine, l, events[0]), events[1..]);
    }
  }

  /** A block sealed for silence, and then revived, is none of those one scan leaves. */
  lemma RevivedIsGone(machine: string, l: Line, a: seq<Event>, now: int, b: seq<Event>)
    requires l.sealed == [] && !NotRevived(FoldLine(machine, l, a), now, b)
    ensures var m := FoldLine(machine, l, a);
            m.open.Some? && m.open.value !in AllBlocks(FoldLine(machine, l, a + b))
  {
    var m := FoldLine(machine, l, a);
    BlocksEndInTurn(machine, l, a);
    FoldsStayOpen(machine, l, a);
    FoldLineJoins(machine, l, a, b);
    BlocksEndInTurn(machine, m, b);
    FirstBlockIs(machine, m, b);
    var x, n := m.open.value, Joining(m.open.value.endedAt, b);
    ApplyAllCounts(x, b[..n]);
    EndNeverFalls(x.endedAt, b[..n]);
    NoneIs(x, m.sealed, ApplyAll(x, b[..n]), AllBlocks(FoldLine(machine, m, b)));
  }

  lemma NoneIs(x: Block, sealed: seq<Block>, grown: Block, all: seq<Block>)
    requires EndsAscend(sealed + [x]) && EndsAscend(all) && sealed + [grown] <= all
    requires grown.endedAt >= x.endedAt && grown.totals.events != x.totals.events
    ensures x !in all
  {
    var n := |sealed|;
    assert (sealed + [x])[n] == x && all[n] == grown;
    forall i | 0 <= i < |all| ensures all[i] != x {
      if i < n { assert all[i] == sealed[i] == (sealed + [x])[i]; }
    }
  }

  /** What the shards hold after a crash that had written some blocks and a scan that then
      saved. */
  ghost function AfterCrash(written: set<Block>, sealedAll: seq<Block>): set<Block> {
    written + Members(sealedAll)
  }

  /** Whatever part of what the first scan sealed was written, the next scan makes up for
      the crash. */
  ghost predicate Harmless(sealedA: seq<Block>, end: map<string, Block>, sealedB: seq<Block>,
                           whole: map<string, Block>, sealedAll: seq<Block>) {
    && end == whole
    && forall written :: written <= Members(sealedA) ==>
         AfterCrash(written, sealedAll) == Members(sealedA) + Members(sealedB)
  }

  /** A crash between the append and the save is harmless, with events strictly later coming
      after it, if and only if no block that scan sealed for silence is revived by them. */
  lemma CrashIsHarmlessExactlyWhen(machine: string, start: map<string, Block>, a: seq<Event>, now1: int,
                                   b: seq<Event>, now2: int, mid: map<string, Block>, sealedA: seq<Block>,
                                   end: map<string, Block>, sealedB: seq<Block>,
                                   whole: map<string, Block>, sealedAll: seq<Block>)
    requires AllBefore(a, b) && now1 <= now2
    requires Folded(machine, start, a, now1, mid, sealedA)
    requires Folded(machine, mid, b, now2, end, sealedB)
    requires Folded(machine, start, a + b, now2, whole, sealedAll)
    ensures Harmless(sealedA, end, sealedB, whole, sealedAll) <==>
            forall k :: NotRevived(LineAfter(machine, start, a, k), now1, EventsOf(SortByTime(b), k))
  {
    hide Folded;
    hide AllBefore;
    hide NotRevived;
    hide LineAfter;
    hide SortByTime;
    hide EventsOf;
    hide Members;
    if forall k :: NotRevived(LineAfter(machine, start, a, k), now1, EventsOf(SortByTime(b), k)) {
      UnrevivedAgree(machine, start, a, now1, b, now2, mid, sealedA, end, sealedB, whole, sealedAll);
    } else {
      var k :| !NotRevived(LineAfter(machine, start, a, k), now1, EventsOf(SortByTime(b), k));
      RevivedIsMissing(machine, start, a, now1, b, now2, mid, sealedA, whole, sealedAll, k);
      assert {} <= Members(sealedA) && AfterCrash({}, sealedAll) == Members(sealedAll);
    }
  }

  /** What folding a first batch leaves of one key, before anything is sealed for silence. */
  function LineAfter(machine: string, start: map<string, Block>, a: seq<Event>, k: string): Line {
    FoldLine(machine, Line(OpenAt(start, k), []), EventsOf(SortByTime(a), k))
  }

  lemma UnrevivedAgree(machine: string, start: map<string, Block>, a: seq<Event>, now1: int,
                       b: seq<Event>, now2: int, mid: map<string, Block>, sealedA: seq<Block>,
                       end: map<string, Block>, sealedB: seq<Block>, whole: map<string, Block>, sealedAll: seq<Block>)
    requires AllBefore(a, b) && now1 <= now2
    requires Folded(machine, start, a, now1, mid, sealedA)
    requires Folded(machine, mid, b, now2, end, sealedB)
    requires Folded(machine, start, a + b, now2, whole, sealedAll)
    requires forall k :: NotRevived(LineAfter(machine, start, a, k), now1, EventsOf(SortByTime(b), k))
    ensures Harmless(sealedA, end, sealedB, whole, sealedAll)
  {
    hide Folded;
    hide FoldLine;
    hide SortByTime;
    hide NotRevived;
    hide KeyOf;
    hide AllBefore;
    forall k
      ensures OpenAt(end, k) == OpenAt(whole, k)
      ensures BlocksOf(sealedAll, k) == BlocksOf(sealedA, k) + BlocksOf(sealedB, k)
    {
      assert NotRevived(LineAfter(machine, start, a, k), now1, EventsOf(SortByTime(b), k));
      SplitScansAgreeExactlyWhen(machine, start, a, now1, b, now2, mid, sealedA, end, sealedB, whole, sealedAll, k);
    }
    SameOpen(end, whole);
    forall x ensures x in sealedAll <==> x in sealedA || x in sealedB {
      MembersByKey(sealedAll, x);
      MembersByKey(sealedA, x);
      MembersByKey(sealedB, x);
    }
  }

  lemma RevivedIsMissing(machine: string, start: map<string, Block>, a: seq<Event>, now1: int,
                         b: seq<Event>, now2: int, mid: map<string, Block>, sealedA: seq<Block>,
                         whole: map<string, Block>, sealedAll: seq<Block>, k: string)
    requires AllBefore(a, b)
    requires Folded(machine, start, a, now1, mid, sealedA)
    requires Folded(machine, start, a + b, now2, whole, sealedAll)
    requires !NotRevived(LineAfter(machine, start, a, k), now1, EventsOf(SortByTime(b), k))
    ensures exists x :: x in Members(sealedA) && x !in Members(sealedAll)
  {
    var l := Line(OpenAt(start, k), []);
    var sa, sb := SortByTime(a), SortByTime(b);
    var m := LineAfter(machine, start, a, k);
    LaterBatchesSortApart(a, b);
    EventsOfJoin(sa, sb, k);
    RevivedIsGone(machine, l, EventsOf(sa, k), now1, EventsOf(sb, k));
    SealingKeepsBlocks(FoldLine(machine, l, EventsOf(sa, k) + EventsOf(sb, k)), now2);
    hide FoldLine;
    hide SortByTime;
    hide KeyOf;
    var x := m.open.value;
    assert Line(OpenAt(mid, k), BlocksOf(sealedA, k)) == SealStale(m, now1);
    assert BlocksOf(sealedA, k)[|m.sealed|] == x && x in BlocksOf(sealedA, k);
    KeyMembers(sealedA, k, x);
    MembersByKey(sealedAll, x);
    assert Line(OpenAt(whole, k), BlocksOf(sealedAll, k))
        == ScanLine(machine, l, EventsOf(sa, k) + EventsOf(sb, k), now2);
    assert x !in BlocksOf(sealedAll, k);
    assert x in Members(sealedA) && x !in Members(sealedAll);
  }

  lemma {:induction false} KeyMembers(blocks: seq<Block>, k: string, x: Block)
    requires x in BlocksOf(blocks, k)
    ensures x in blocks && KeyOfBlock(x) == k
  {
    hide KeyOf;
    if x in BlocksOf(blocks[1..], k) { KeyMembers(blocks[1..], k, x); }
  }

  /** The input: a block sealed for silence by a scan that crashed, and an event within its
      gap. Without the crash it has a block and an ID of its own; after the crash its block
      has the ID of the one already written, which is read in its place. */
  lemma CrashLosesAnEvent(machine: string, ev: Event, late: Event)
    requires late == ev.(time := ev.time + 14 * MINUTE)
    ensures var nothing := Line(None, []);
            var now1, now2 := ev.time + 31 * MINUTE, late.time + 31 * MINUTE;
            var x, y, z := Opened(machine, ev), ApplyEvent(Opened(machine, ev), late), Opened(machine, late);
            && ScanLine(machine, nothing, [ev], now1) == Line(None, [x])
            && ScanLine(machine, nothing, [late], now2) == Line(None, [z]) && IdOf(z) != IdOf(x)
            && ScanLine(machine, nothing, [ev, late], now2) == Line(None, [y]) && IdOf(y) == IdOf(x)
            && !NotRevived(FoldLine(machine, nothing, [ev]), now1, [late])
            && IsFirst([x, y], x) && !IsFirst([x, y], y)
  {
    var nothing := Line(None, []);
    FoldingOne(machine, nothing, ev);
    FoldingOne(machine, nothing, late);
    FoldingOne(machine, Line(Some(Opened(machine, ev)), []), late);
    FoldLineJoins(machine, nothing, [ev], [late]);
    assert [ev] + [late] == [ev, late];
    hide FoldLine;
    var x, y := Opened(machine, ev), ApplyEvent(Opened(machine, ev), late);
    assert y.endedAt == late.time && y.totals.events == x.totals.events + 1;
    assert (ev.time + 14 * MINUTE) / SECOND == ev.time / SECOND + 840;
    assert [x, y][0] == x && [x, y][1] == y;
  }

  // ---------------------------------------------------------------- reading it all back

  /** No agent's name holds the separator. */
  predicate PlainAgents(events: seq<Event>) {
    forall ev :: ev in events ==> '|' !in ev.agent
  }

  lemma {:induction false} GroupsHoldEvents(groups: seq<seq<Event>>, i: nat)
    requires i < |groups|
    ensures forall x :: x in groups[i] ==> x in SessionHistory.Joined(groups)
  {
    var n := |groups| - 1;
    if i < n {
      GroupsHoldEvents(groups[..n], i);
    }
  }

  /** The blocks a first scan seals of one key, among all that key's stretches. */
  lemma SealedOfKey(machine: string, events: seq<Event>, now: int, open: map<string, Block>, sealed: seq<Block>,
                    k: string)
    requires Folded(machine, map[], events, now, open, sealed)
    ensures var mine := EventsOf(SortByTime(events), k);
            Chronological(mine) && BlocksOf(sealed, k) <= AllBlocks(FoldLine(machine, Line(None, []), mine))
  {
    hide FoldLine;
    hide SortByTime;
    var mine := EventsOf(SortByTime(events), k);
    KeyEventsStayInOrder(SortByTime(events), k);
    SealingKeepsBlocks(FoldLine(machine, Line(None, []), mine), now);
    assert Line(OpenAt(open, k), BlocksOf(sealed, k)) == ScanLine(machine, Line(None, []), mine, now);
  }

  lemma SealedBlocksAreNamed(machine: string, events: seq<Event>, now: int, open: map<string, Block>,
                             sealed: seq<Block>, x: Block)
    requires Folded(machine, map[], events, now, open, sealed) && x in sealed && PlainAgents(events)
    ensures x.machine == machine && '|' !in x.agent
  {
    hide Folded;
    hide FoldLine;
    hide SortByTime;
    hide KeyOf;
    var k := KeyOfBlock(x);
    SealedOfKey(machine, events, now, open, sealed, k);
    MembersByKey(sealed, x);
    var mine := EventsOf(SortByTime(events), k);
    EventsOfMembers(SortByTime(events), k);
    SortedMembers(events);
    var groups := BlocksAreMaximalStretches(machine, mine);
    var blocks := AllBlocks(FoldLine(machine, Line(None, []), mine));
    assert x in BlocksOf(sealed, k);
    var i :| 0 <= i < |BlocksOf(sealed, k)| && BlocksOf(sealed, k)[i] == x;
    assert blocks[i] == x == BlockFor(machine, groups[i]);
    GroupsHoldEvents(groups, i);
    assert groups[i][0] in mine;
  }

  lemma OwnersTellKeys(machine: string, x: Block, y: Block)
    requires x.machine == machine == y.machine && '|' !in x.agent && '|' !in y.agent
    requires IdOf(x).owner == IdOf(y).owner
    ensures KeyOfBlock(x) == KeyOfBlock(y)
  {
    hide Lower;
    var head := machine + "|";
    var tx, ty := x.agent + "|" + x.project, y.agent + "|" + y.project;
    assert IdOf(x).owner == head + tx && IdOf(y).owner == head + ty;
    assert tx == (head + tx)[|head|..] && ty == (head + ty)[|head|..];
    assert tx[|x.agent|] == '|' && ty[|y.agent|] == '|';
    assert forall i :: 0 <= i < |x.agent| ==> tx[i] == x.agent[i] != '|';
    assert forall i :: 0 <= i < |y.agent| ==> ty[i] == y.agent[i] != '|';
    assert |x.agent| == |y.agent|;
    assert x.agent == tx[..|x.agent|] && y.agent == ty[..|y.agent|];
    assert x.project == tx[|x.agent| + 1..] && y.project == ty[|y.agent| + 1..];
  }

  /** No two blocks a machine ever seals share an ID, when agents' names hold no '|'. */
  lemma SealedIdsDiffer(machine: string, events: seq<Event>, now: int, open: map<string, Block>, sealed: seq<Block>)
    requires Folded(machine, map[], events, now, open, sealed) && PlainAgents(events)
    ensures CollisionFree(Members(sealed))
  {
    hide Folded;
    hide FoldLine;
    hide SortByTime;
    hide PlainAgents;
    forall x, y | x in Members(sealed) && y in Members(sealed) && IdOf(x) == IdOf(y) ensures x == y {
      SealedBlocksAreNamed(machine, events, now, open, sealed, x);
      SealedBlocksAreNamed(machine, events, now, open, sealed, y);
      OwnersTellKeys(machine, x, y);
      SameKeySameId(machine, events, now, open, sealed, x, y);
    }
  }

  lemma SameKeySameId(machine: string, events: seq<Event>, now: int, open: map<string, Block>, sealed: seq<Block>,
                      x: Block, y: Block)
    requires Folded(machine, map[], events, now, open, sealed) && x in sealed && y in sealed
    requires KeyOfBlock(x) == KeyOfBlock(y) && IdOf(x) == IdOf(y)
    ensures x == y
  {
    hide Folded;
    hide FoldLine;
    hide SortByTime;
    hide KeyOf;
    hide IdOf;
    var k := KeyOfBlock(x);
    SealedOfKey(machine, events, now, open, sealed, k);
    MembersByKey(sealed, x);
    MembersByKey(sealed, y);
    var mine := EventsOf(SortByTime(events), k);
    var blocks := AllBlocks(FoldLine(machine, Line(None, []), mine));
    var i :| 0 <= i < |BlocksOf(sealed, k)| && BlocksOf(sealed, k)[i] == x;
    var j :| 0 <= j < |BlocksOf(sealed, k)| && BlocksOf(sealed, k)[j] == y;
    assert blocks[i] == x && blocks[j] == y;
    if i < j {
      IdsOfOneKeyDiffer(machine, mine, i, j);
    } else if j < i {
      IdsOfOneKeyDiffer(machine, mine, j, i);
    }
  }

  /** After any timely run from an empty disk that ends in a save, whatever crashed on the
      way, reading the shards gives exactly the blocks one scan of everything seals. */
  method ReadAfterCrashes(j: Journal, ghost attempts: seq<Attempt>, ghost disks: seq<Disk>)
    returns (blocks: seq<Block>, ghost sealed: seq<Block>)
    requires IsRun(j.machine, attempts, disks) && TimelyRun(attempts)
    requires attempts != [] && attempts[|attempts| - 1].saved
    requires disks[0] == Disk(map[], [], {}) && Stored(j.shards) == disks[|attempts|].stored
    requires PlainAgents(Arrived(attempts, |attempts|))
    ensures Folded(j.machine, map[], Arrived(attempts, |attempts|), attempts[|attempts| - 1].now,
                   disks[|attempts|].open, sealed)
    ensures Members(blocks) == Members(sealed)
    ensures forall a, b :: 0 <= a < b < |blocks| ==> IdOf(blocks[a]) != IdOf(blocks[b])
  {
    hide Folded;
    hide AttemptStep;
    hide TimelyRun;
    hide Stored;
    hide CollisionFree;
    hide IdOf;
    sealed := CrashesAreHarmless(j.machine, attempts, disks);
    SealedIdsDiffer(j.machine, Arrived(attempts, |attempts|), attempts[|attempts| - 1].now, disks[|attempts|].open,
                    sealed);
    assert Stored(j.shards) == Members(sealed);
    blocks := j.ReadBlocks();
  }
}
