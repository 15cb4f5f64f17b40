/** What syncing promises over whole runs: that nothing is lost, that the delete guard
    guards what is deleted, that stopping and starting again changes nothing, and that a
    fleet of machines converges. */
module SyncFleet {
  import opened Wrappers
  import opened SyncRules
  import opened SyncClient
  import Order

  // ---------------------------------------------------------------- after one sync

  /** Wherever it started, a sync leaves the machine, its base and the server equal. */
  lemma SyncLeavesAllEqual(w: World, v: World)
    requires Synced(w, v)
    ensures Contents(v.local) == v.base == Contents(v.remote)
  {
    hide Settled;
    hide ParkedAfter;
    forall p ensures p in v.local <==> p in v.remote {
      assert SidesSettle(CellAt(w, p), CellAt(v, p));
    }
    forall p | p in v.local ensures v.local[p].checksum == v.remote[p].checksum {
      assert SidesSettle(CellAt(w, p), CellAt(v, p));
    }
  }

  /** One side of a settled pair of trees: what it already held, or the settled content
      newly written. */
  function SettledSide(w: World, side: Tree): Tree {
    map p | p in w.local.Keys + w.remote.Keys && Settled(CellAt(w, p)) != "" ::
      if EntryAt(side, p).checksum == Settled(CellAt(w, p)) then side[p] else FileEntry(Settled(CellAt(w, p)), None)
  }

  /** The copies kept once everything is settled. */
  function SettledCopies(w: World): map<Path, string> {
    map p | p in w.local.Keys + w.remote.Keys + w.conflicts.Keys
            && !SingleWriter(p) && ParkedAfter(p, CellAt(w, p)).Some? :: ParkedAfter(p, CellAt(w, p)).value
  }

  /** Where a sync that nothing interrupts may end. */
  function SettledWorld(w: World): World {
    var local := SettledSide(w, w.local);
    World(local, SettledSide(w, w.remote), Contents(local), SettledCopies(w),
          map p | p in w.legacy && !SingleWriter(p) :: w.legacy[p])
  }

  /** Every pair of trees, whatever the base, has a way to be settled. */
  lemma EverythingCanBeSettled(w: World)
    requires RealTree(w.local) && RealTree(w.remote)
    ensures Synced(w, SettledWorld(w))
  {
    var v := SettledWorld(w);
    SidesAreReal(w, w.local);
    SidesAreReal(w, w.remote);
    assert v.base == Contents(v.local) && RealTree(v.local) && RealTree(v.remote);
    hide Settled;
    hide SidesSettle;
    hide SingleWriter;
    hide ParkedAfter;
    hide SettledWorld;
    hide CellAt;
    hide CopyAt;
    hide RealTree;
    hide Contents;
    forall p
      ensures SidesSettle(CellAt(w, p), CellAt(v, p))
      ensures CopyAt(v.conflicts, p) == if SingleWriter(p) then None else ParkedAfter(p, CellAt(w, p))
      ensures CopyAt(v.legacy, p) == if SingleWriter(p) then None else CopyAt(w.legacy, p)
    {
      PathIsSettled(w, p);
    }
  }

  lemma PathIsSettled(w: World, p: Path)
    requires RealTree(w.local) && RealTree(w.remote)
    ensures var v := SettledWorld(w);
            && SidesSettle(CellAt(w, p), CellAt(v, p))
            && CopyAt(v.conflicts, p) == (if SingleWriter(p) then None else ParkedAfter(p, CellAt(w, p)))
            && CopyAt(v.legacy, p) == (if SingleWriter(p) then None else CopyAt(w.legacy, p))
  {
    hide SingleWriter;
    hide ParkedAfter;
    hide Settled;
    hide SettledSide;
    hide SettledCopies;
    SideIsSettled(w, w.local, p);
    SideIsSettled(w, w.remote, p);
    CopiesAreSettled(w, p);
  }

  lemma SidesAreReal(w: World, side: Tree)
    requires RealTree(side)
    ensures RealTree(SettledSide(w, side))
  {
    hide Settled;
    hide CellAt;
  }

  lemma CopiesAreSettled(w: World, p: Path)
    ensures CopyAt(SettledCopies(w), p) == if SingleWriter(p) then None else ParkedAfter(p, CellAt(w, p))
  {
    hide SingleWriter;
    hide LocalWins;
  }

  lemma SideIsSettled(w: World, side: Tree, p: Path)
    requires RealTree(w.local) && RealTree(w.remote) && (side == w.local || side == w.remote)
    ensures EntryAt(SettledSide(w, side), p).checksum == Settled(CellAt(w, p))
    ensures EntryAt(side, p).checksum == Settled(CellAt(w, p)) ==> EntryAt(SettledSide(w, side), p) == EntryAt(side, p)
  {
    hide LocalWins;
  }

  /** Whatever content a sync overwrites or removes on a side is what that path held at
      the last sync, or is now kept under .conflicts/ — except, and only then, the losing
      one of two edits on a single-writer path. */
  lemma NothingIsLostSilently(w: World, v: World, p: Path, content: string)
    requires Synced(w, v) && content != ""
    requires || (content == EntryAt(w.local, p).checksum && content != EntryAt(v.local, p).checksum)
             || (content == EntryAt(w.remote, p).checksum && content != EntryAt(v.remote, p).checksum)
    ensures content == SumAt(w.base, p) || CopyAt(v.conflicts, p) == Some(content)
            <==> !(SingleWriter(p) && Contested(CellAt(w, p)))
  {
    hide SingleWriter;
    hide LocalWins;
    assert SidesSettle(CellAt(w, p), CellAt(v, p));
  }

  /** A machine and the server that have both edited the same single-writer path, the
      server last. */
  function TwoEdits(p: Path): World {
    World(map[p := FileEntry("l", Some(1))], map[p := FileEntry("r", Some(2))], map[p := "b"], map[], map[])
  }

  /** On every single-writer path an edit can be lost: wherever a sync of the two edits
      ends, the local one is in neither tree, is not the base's and is in no copy kept, at
      that path or any other. */
  lemma SingleWritersLoseEdits(p: Path, v: World, q: Path)
    requires SingleWriter(p) && Synced(TwoEdits(p), v)
    ensures EntryAt(v.local, q).checksum != "l" && EntryAt(v.remote, q).checksum != "l"
    ensures SumAt(v.base, q) != "l" && SumAt(TwoEdits(p).base, q) != "l"
    ensures CopyAt(v.conflicts, q) != Some("l") && CopyAt(v.legacy, q) != Some("l")
  {
    hide SingleWriter;
    hide LocalWins;
    hide Synced;
    SettledElsewhere(TwoEdits(p), v, q);
    LaterEditWins(p);
    assert q != p ==> Settled(CellAt(TwoEdits(p), q)) == "";
  }

  lemma LaterEditWins(p: Path)
    ensures !LocalWins(TwoEdits(p).local[p], TwoEdits(p).remote[p])
    ensures Settled(CellAt(TwoEdits(p), p)) == "r"
  {
  }

  /** The input: such a path, both sides of it real, and a way for its sync to end. */
  lemma SuchEditsExist()
    ensures SingleWriter("usage/m/x")
    ensures RealTree(TwoEdits("usage/m/x").local) && RealTree(TwoEdits("usage/m/x").remote)
    ensures Synced(TwoEdits("usage/m/x"), SettledWorld(TwoEdits("usage/m/x")))
  {
    var p := "usage/m/x";
    assert p[..6] == "usage/" && p[6..] == "m/x" && p[6..][1] == '/';
    assert SingleWriter(p);
    hide SettledWorld;
    hide SingleWriter;
    hide Synced;
    EverythingCanBeSettled(TwoEdits(p));
  }

  lemma SettledElsewhere(w: World, v: World, q: Path)
    requires Synced(w, v)
    ensures EntryAt(v.local, q).checksum == Settled(CellAt(w, q)) == EntryAt(v.remote, q).checksum == SumAt(v.base, q)
    ensures CopyAt(v.conflicts, q) == if SingleWriter(q) then None else ParkedAfter(q, CellAt(w, q))
    ensures CopyAt(v.legacy, q) == if SingleWriter(q) then None else CopyAt(w.legacy, q)
  {
    hide Settled;
    hide ParkedAfter;
    hide SingleWriter;
    assert SidesSettle(CellAt(w, q), CellAt(v, q));
  }

  // ---------------------------------------------------------------- the delete guard

  lemma DeletionIsDecidedOnce(c: Cell)
    ensures DeletesLocal(c.local, c.remote, c.base) <==> c.local.checksum != Settled(c) && Settled(c) == ""
    ensures DeletesRemote(c.local, c.remote, c.base) <==> c.remote.checksum != Settled(c) && Settled(c) == ""
    ensures !(DeletesLocal(c.local, c.remote, c.base) && DeletesRemote(c.local, c.remote, c.base))
  {
  }

  /** The plan is exact: what the guard counts is, in order, what the sync deletes. */
  lemma {:induction false} PlanIsExact(w: World, paths: seq<Path>)
    ensures PlanOf(w, paths).local == ReportOf(w, paths).deletedLocal
    ensures PlanOf(w, paths).remote == ReportOf(w, paths).deletedRemote
  {
    hide Settled;
    hide CellAt;
    if paths != [] {
      PlanIsExact(w, paths[..|paths| - 1]);
      DeletionIsDecidedOnce(CellAt(w, paths[|paths| - 1]));
    }
  }

  lemma {:induction false} WhatIsReportedDeleted(w: World, paths: seq<Path>, p: Path)
    ensures p in ReportOf(w, paths).deletedLocal <==>
              p in paths && var c := CellAt(w, p); c.local.checksum != Settled(c) && Settled(c) == ""
    ensures p in ReportOf(w, paths).deletedRemote <==>
              p in paths && var c := CellAt(w, p); c.remote.checksum != Settled(c) && Settled(c) == ""
  {
    hide Settled;
    hide CellAt;
    if paths != [] {
      var n := |paths| - 1;
      WhatIsReportedDeleted(w, paths[..n], p);
      assert paths == paths[..n] + [paths[n]];
    }
  }

  /** What a successful sync reports deleted is exactly the files each side had and has no
      longer; without the override there are at most MaxSilentDeletes of them over both
      sides, and from an empty base there are none. */
  lemma DeletionsAreGuarded(w: World, v: World)
    requires RealTree(w.local) && RealTree(w.remote) && Synced(w, v)
    ensures var rep := ReportOf(w, AllPaths(w));
            && (forall p :: p in rep.deletedLocal <==> p in w.local && p !in v.local)
            && (forall p :: p in rep.deletedRemote <==> p in w.remote && p !in v.remote)
            && PlanTotal(PlanOf(w, AllPaths(w))) == |rep.deletedLocal| + |rep.deletedRemote|
            && (w.base == map[] ==> rep.deletedLocal == [] && rep.deletedRemote == [])
  {
    hide Settled;
    hide ReportOf;
    hide PlanOf;
    hide ParkedAfter;
    var rep := ReportOf(w, AllPaths(w));
    PlanIsExact(w, AllPaths(w));
    forall p
      ensures p in rep.deletedLocal <==> p in w.local && p !in v.local
      ensures p in rep.deletedRemote <==> p in w.remote && p !in v.remote
    {
      WhatIsReportedDeleted(w, AllPaths(w), p);
      assert SidesSettle(CellAt(w, p), CellAt(v, p));
      DeletionIsDecidedOnce(CellAt(w, p));
    }
    if w.base == map[] {
      EmptyBaseDeletesNothing(w, AllPaths(w));
    }
  }

  lemma {:induction false} WhatIsReportedWritten(w: World, paths: seq<Path>, p: Path)
    ensures p in ReportOf(w, paths).uploaded <==>
              p in paths && var c := CellAt(w, p); c.remote.checksum != Settled(c) && Settled(c) != ""
    ensures p in ReportOf(w, paths).downloaded <==>
              p in paths && var c := CellAt(w, p); c.local.checksum != Settled(c) && Settled(c) != ""
    ensures EditedOnBoth(p) in ReportOf(w, paths).conflicts <==> p in paths && Parks(p, CellAt(w, p))
  {
    hide Settled;
    hide CellAt;
    hide SingleWriter;
    if paths != [] {
      var n := |paths| - 1;
      WhatIsReportedWritten(w, paths[..n], p);
      assert paths == paths[..n] + [paths[n]];
    }
  }

  /** What a successful sync reports uploaded and downloaded is exactly the files whose
      content on that side is new, and it reports an edit on both sides exactly where it
      kept the loser. */
  lemma ReportIsExact(w: World, v: World, p: Path)
    requires RealTree(w.local) && RealTree(w.remote) && Synced(w, v)
    ensures var rep := ReportOf(w, AllPaths(w));
            && (p in rep.uploaded <==> p in v.remote && EntryAt(w.remote, p).checksum != v.remote[p].checksum)
            && (p in rep.downloaded <==> p in v.local && EntryAt(w.local, p).checksum != v.local[p].checksum)
            && (EditedOnBoth(p) in rep.conflicts <==> Parks(p, CellAt(w, p)))
  {
    hide Settled;
    hide ReportOf;
    hide ParkedAfter;
    hide SingleWriter;
    WhatIsReportedWritten(w, AllPaths(w), p);
    assert SidesSettle(CellAt(w, p), CellAt(v, p));
    if p !in AllPaths(w) {
      UnknownPathsAreSettled(w, p);
    }
  }

  lemma {:induction false} EmptyBaseDeletesNothing(w: World, paths: seq<Path>)
    requires w.base == map[]
    ensures ReportOf(w, paths).deletedLocal == [] && ReportOf(w, paths).deletedRemote == []
  {
    if paths != [] {
      EmptyBaseDeletesNothing(w, paths[..|paths| - 1]);
    }
  }

  // ---------------------------------------------------------------- stopping and starting again

  lemma PartialSettlesAlike(p: Path, c: Cell, d: Cell)
    requires Partial(p, c, d)
    ensures Settled(d) == Settled(c)
    ensures ParkedAfter(p, d) == ParkedAfter(p, c)
    ensures d.base == c.base
  {
    hide SingleWriter;
    hide LocalWins;
  }

  lemma StoppedSettlesAlike(p: Path, c: Cell, d: Cell)
    requires StoppedAt(p, c, d)
    ensures Settled(d) == Settled(c)
    ensures !SingleWriter(p) ==> ParkedAfter(p, d) == ParkedAfter(p, c)
  {
    hide SingleWriter;
    hide LocalWins;
    hide Partial;
    if Partial(p, c, d) {
      PartialSettlesAlike(p, c, d);
    } else {
      PartialSettlesAlike(p, c, d.(parked := c.parked));
    }
  }

  /** Crash safety: a sync stopped at any file operation and run again reaches the same
      trees, base and conflict copies as one that was never stopped. */
  lemma RerunningReachesTheSame(w: World, stopped: World, rerun: World, straight: World)
    requires Stopped(w, stopped) && Synced(stopped, rerun) && Synced(w, straight)
    ensures Contents(rerun.local) == Contents(straight.local)
    ensures Contents(rerun.remote) == Contents(straight.remote)
    ensures rerun.base == straight.base
    ensures rerun.conflicts == straight.conflicts
    ensures rerun.legacy == straight.legacy
  {
    hide Settled;
    hide SingleWriter;
    hide ParkedAfter;
    hide StoppedAt;
    forall p
      ensures EntryAt(rerun.local, p).checksum == EntryAt(straight.local, p).checksum
      ensures CopyAt(rerun.conflicts, p) == CopyAt(straight.conflicts, p)
      ensures CopyAt(rerun.legacy, p) == CopyAt(straight.legacy, p)
    {
      StoppedSettlesAlike(p, CellAt(w, p), CellAt(stopped, p));
      assert SidesSettle(CellAt(stopped, p), CellAt(rerun, p));
      assert SidesSettle(CellAt(w, p), CellAt(straight, p));
    }
    SameContents(rerun.local, straight.local);
    SameCopies(rerun.conflicts, straight.conflicts);
    SameCopies(rerun.legacy, straight.legacy);
    SyncLeavesAllEqual(stopped, rerun);
    SyncLeavesAllEqual(w, straight);
  }

  lemma SameContents(a: Tree, b: Tree)
    requires RealTree(a) && RealTree(b)
    requires forall p :: EntryAt(a, p).checksum == EntryAt(b, p).checksum
    ensures Contents(a) == Contents(b)
  {
    forall p ensures p in a <==> p in b {
      assert EntryAt(a, p).checksum == EntryAt(b, p).checksum;
    }
    forall p | p in a ensures a[p].checksum == b[p].checksum {
      assert EntryAt(a, p).checksum == EntryAt(b, p).checksum;
    }
  }

  lemma SameCopies(a: map<Path, string>, b: map<Path, string>)
    requires forall p :: CopyAt(a, p) == CopyAt(b, p)
    ensures a == b
  {
    forall p ensures p in a <==> p in b {
      assert CopyAt(a, p) == CopyAt(b, p);
    }
    forall p | p in a ensures a[p] == b[p] {
      assert CopyAt(a, p) == CopyAt(b, p);
    }
  }

  /** A sync stopped, tried again and stopped again is a sync stopped once, so any number
      of interrupted attempts may come before the one that finishes. */
  lemma StoppingComposes(w: World, v: World, u: World)
    requires Stopped(w, v) && Stopped(v, u)
    ensures Stopped(w, u)
  {
    hide SingleWriter;
    hide StoppedAt;
    forall p ensures StoppedAt(p, CellAt(w, p), CellAt(u, p)) {
      StoppedAtComposes(p, CellAt(w, p), CellAt(v, p), CellAt(u, p));
    }
    forall p ensures CopyAt(u.legacy, p) == CopyAt(w.legacy, p) || (SingleWriter(p) && p !in u.legacy) {
      assert CopyAt(v.legacy, p) == CopyAt(w.legacy, p) || (SingleWriter(p) && p !in v.legacy);
      assert CopyAt(u.legacy, p) == CopyAt(v.legacy, p) || (SingleWriter(p) && p !in u.legacy);
    }
  }

  lemma PartialComposes(p: Path, c: Cell, d: Cell, e: Cell)
    requires Partial(p, c, d) && Partial(p, d, e)
    ensures Partial(p, c, e)
  {
    hide SingleWriter;
    hide LocalWins;
    PartialSettlesAlike(p, c, d);
  }

  lemma StoppedAtComposes(p: Path, c: Cell, d: Cell, e: Cell)
    requires StoppedAt(p, c, d) && StoppedAt(p, d, e)
    ensures StoppedAt(p, c, e)
  {
    hide SingleWriter;
    hide LocalWins;
    if !SingleWriter(p) {
      PartialComposes(p, c, d, e);
    } else {
      // Nothing is ever parked on such a path, so only the copy differs.
      ParkingAside(p, c, d);
      ParkingAside(p, d, e);
    }
  }

  lemma ParkingAside(p: Path, c: Cell, d: Cell)
    requires StoppedAt(p, c, d) && SingleWriter(p)
    ensures d.parked == c.parked || d.parked == None
    ensures d.base == c.base && ((d.local == c.local && d.remote == c.remote) || SidesSettle(c, d))
    ensures Settled(d) == Settled(c)
  {
    hide SingleWriter;
    hide LocalWins;
    StoppedSettlesAlike(p, c, d);
  }

  /** The rerun deletes nothing the first attempt was not going to delete on that side,
      so a sync the guard let through is let through again. */
  lemma RerunPlansNoMore(w: World, v: World)
    requires Stopped(w, v)
    ensures forall p :: p in PlanOf(v, AllPaths(v)).local ==> p in PlanOf(w, AllPaths(w)).local
    ensures forall p :: p in PlanOf(v, AllPaths(v)).remote ==> p in PlanOf(w, AllPaths(w)).remote
    ensures PlanTotal(PlanOf(v, AllPaths(v))) <= PlanTotal(PlanOf(w, AllPaths(w)))
  {
    hide Settled;
    hide SingleWriter;
    hide StoppedAt;
    hide PlanOf;
    hide ReportOf;
    var before, after := ReportOf(w, AllPaths(w)), ReportOf(v, AllPaths(v));
    PlanIsExact(w, AllPaths(w));
    PlanIsExact(v, AllPaths(v));
    forall p
      ensures p in after.deletedLocal ==> p in before.deletedLocal
      ensures p in after.deletedRemote ==> p in before.deletedRemote
    {
      WhatIsReportedDeleted(v, AllPaths(v), p);
      WhatIsReportedDeleted(w, AllPaths(w), p);
      StoppedDeletesNoMore(p, CellAt(w, p), CellAt(v, p));
      if p !in AllPaths(w) {
        UnknownPathsAreSettled(w, p);
      }
    }
    DeletedOnce(v, AllPaths(v));
    SmallerList(after.deletedLocal, before.deletedLocal);
    SmallerList(after.deletedRemote, before.deletedRemote);
  }

  lemma StoppedDeletesNoMore(p: Path, c: Cell, d: Cell)
    requires StoppedAt(p, c, d)
    ensures Settled(d) == Settled(c)
    ensures d.local.checksum != Settled(d) ==> c.local.checksum != Settled(c)
    ensures d.remote.checksum != Settled(d) ==> c.remote.checksum != Settled(c)
  {
    hide SingleWriter;
    StoppedSettlesAlike(p, c, d);
  }

  predicate NoRepeats(s: seq<Path>) {
    forall i, j :: 0 <= i < j < |s| ==> s[i] != s[j]
  }

  lemma DeletedOnce(w: World, paths: seq<Path>)
    requires Order.Ascending(paths)
    ensures NoRepeats(ReportOf(w, paths).deletedLocal) && NoRepeats(ReportOf(w, paths).deletedRemote)
  {
    hide Settled;
    hide CellAt;
    if paths != [] {
      var n := |paths| - 1;
      DeletedOnce(w, paths[..n]);
      NotYetSettled(paths, n);
      WhatIsReportedDeleted(w, paths[..n], paths[n]);
    }
  }

  lemma {:induction false} SmallerList(a: seq<Path>, b: seq<Path>)
    requires NoRepeats(a) && forall p :: p in a ==> p in b
    ensures |a| <= |b|
  {
    if a != [] {
      var n := |a| - 1;
      assert a[n] in a;
      var k :| 0 <= k < |b| && b[k] == a[n];
      var rest := b[..k] + b[k + 1..];
      forall p | p in a[..n] ensures p in rest {
        var i :| 0 <= i < n && a[i] == p;
        assert a[i] in a;
        var j :| 0 <= j < |b| && b[j] == p;
        assert j != k;
        assert rest[if j < k then j else j - 1] == p;
      }
      SmallerList(a[..n], rest);
    }
  }

  // ---------------------------------------------------------------- the guard over several tries

  /** Every file is still what it was, or is settled. */
  ghost predicate Toward(w: World, v: World) {
    forall p ::
      && (EntryAt(v.local, p) == EntryAt(w.local, p) || EntryAt(v.local, p).checksum == Settled(CellAt(w, p)))
      && (EntryAt(v.remote, p) == EntryAt(w.remote, p) || EntryAt(v.remote, p).checksum == Settled(CellAt(w, p)))
  }

  lemma StoppedIsToward(w: World, v: World)
    requires Stopped(w, v)
    ensures Toward(w, v) && RealTree(v.local) && RealTree(v.remote)
  {
    hide Settled;
    hide SingleWriter;
    hide ParkedAfter;
    forall p
      ensures EntryAt(v.local, p) == EntryAt(w.local, p) || EntryAt(v.local, p).checksum == Settled(CellAt(w, p))
      ensures EntryAt(v.remote, p) == EntryAt(w.remote, p) || EntryAt(v.remote, p).checksum == Settled(CellAt(w, p))
    {
      assert StoppedAt(p, CellAt(w, p), CellAt(v, p));
    }
  }

  lemma RerunIsToward(w: World, v: World, u: World)
    requires Stopped(w, v) && Synced(v, u)
    ensures Toward(w, u) && RealTree(u.local) && RealTree(u.remote)
  {
    hide Settled;
    hide StoppedAt;
    hide SidesSettle;
    hide ParkedAfter;
    forall p ensures EntryAt(u.local, p).checksum == Settled(CellAt(w, p)) == EntryAt(u.remote, p).checksum {
      StoppedSettlesAlike(p, CellAt(w, p), CellAt(v, p));
      SettledElsewhere(v, u, p);
    }
  }

  /** The files a machine and the server had, and have no longer. */
  function Deleted(w: World, v: World): nat {
    |w.local.Keys - v.local.Keys| + |w.remote.Keys - v.remote.Keys|
  }

  lemma {:induction false} ListedAtMost(s: set<Path>, list: seq<Path>)
    requires forall p :: p in s ==> p in list
    ensures |s| <= |list|
  {
    if list == [] {
      assert s == {};
    } else {
      var n := |list| - 1;
      ListedAtMost(s - {list[n]}, list[..n]);
    }
  }

  /** However far a machine and the server got, no more is deleted than was planned. */
  lemma DeletedWithinPlan(w: World, v: World)
    requires RealTree(w.local) && RealTree(w.remote) && RealTree(v.local) && RealTree(v.remote) && Toward(w, v)
    ensures Deleted(w, v) <= PlanTotal(PlanOf(w, AllPaths(w)))
  {
    hide Settled;
    hide ReportOf;
    hide PlanOf;
    var rep := ReportOf(w, AllPaths(w));
    PlanIsExact(w, AllPaths(w));
    forall p
      ensures p in w.local.Keys - v.local.Keys ==> p in rep.deletedLocal
      ensures p in w.remote.Keys - v.remote.Keys ==> p in rep.deletedRemote
    {
      WhatIsReportedDeleted(w, AllPaths(w), p);
      assert EntryAt(v.local, p) == EntryAt(w.local, p) || EntryAt(v.local, p).checksum == Settled(CellAt(w, p));
    }
    ListedAtMost(w.local.Keys - v.local.Keys, rep.deletedLocal);
    ListedAtMost(w.remote.Keys - v.remote.Keys, rep.deletedRemote);
  }

  /** One call of Sync, as its contract has it: it failed, and changed nothing unless the
      guard let its plan through, or it succeeded with the guard's leave. */
  ghost predicate Tried(w: World, v: World, ok: bool, allowBulkDelete: bool) {
    && (if ok then Synced(w, v) else Stopped(w, v))
    && (ok || v != w ==> Permitted(w, allowBulkDelete))
  }

  /** Tries in a row with nothing edited between them, all but perhaps the last failing. */
  ghost predicate Tries(worlds: seq<World>, lastOk: bool, allowBulkDelete: bool) {
    && worlds != [] && RealTree(worlds[0].local) && RealTree(worlds[0].remote)
    && forall i :: 0 <= i < |worlds| - 1 ==>
         Tried(worlds[i], worlds[i + 1], lastOk && i == |worlds| - 2, allowBulkDelete)
  }

  lemma {:induction false} FailedTriesAreOne(worlds: seq<World>, lastOk: bool, allowBulkDelete: bool, n: nat)
    requires Tries(worlds, lastOk, allowBulkDelete) && n < |worlds| && (lastOk ==> n < |worlds| - 1)
    ensures Stopped(worlds[0], worlds[n])
    ensures worlds[n] == worlds[0] || Permitted(worlds[0], allowBulkDelete)
  {
    hide Stopped;
    hide Synced;
    hide Permitted;
    if n == 0 {
      NothingHappened(worlds[0]);
    } else {
      FailedTriesAreOne(worlds, lastOk, allowBulkDelete, n - 1);
      assert Tried(worlds[n - 1], worlds[n], false, allowBulkDelete);
      StoppingComposes(worlds[0], worlds[n - 1], worlds[n]);
    }
  }

  /** The guard holds over any number of tries: together they delete no more than the first
      one planned, and nothing at all is touched unless the guard let that one plan through;
      so without the override at most MaxSilentDeletes files go, however often a sync is
      stopped and run again. */
  lemma TriesStayGuarded(worlds: seq<World>, lastOk: bool, allowBulkDelete: bool)
    requires Tries(worlds, lastOk, allowBulkDelete)
    ensures var w, v := worlds[0], worlds[|worlds| - 1];
            && Deleted(w, v) <= PlanTotal(PlanOf(w, AllPaths(w)))
            && (v != w ==> Permitted(w, allowBulkDelete))
            && (!allowBulkDelete ==> Deleted(w, v) <= 10)
  {
    hide Stopped;
    hide Synced;
    hide PlanOf;
    hide AllPaths;
    var n := |worlds| - 1;
    var w, v := worlds[0], worlds[n];
    if lastOk && n > 0 {
      FailedTriesAreOne(worlds, lastOk, allowBulkDelete, n - 1);
      assert Tried(worlds[n - 1], v, true, allowBulkDelete);
      RerunIsToward(w, worlds[n - 1], v);
    } else {
      FailedTriesAreOne(worlds, false, allowBulkDelete, n);
      StoppedIsToward(w, v);
    }
    DeletedWithinPlan(w, v);
    if v == w {
      assert Deleted(w, v) == 0;
    }
  }

  // ---------------------------------------------------------------- a fleet

  datatype Machine = Machine(
    local: Tree, base: map<Path, string>, conflicts: map<Path, string>, legacy: map<Path, string>)

  /** Any number of machines around one server. */
  datatype Fleet = Fleet(server: Tree, machines: seq<Machine>)

  function WorldOf(f: Fleet, i: nat): World
    requires i < |f.machines|
  {
    var m := f.machines[i];
    World(m.local, f.server, m.base, m.conflicts, m.legacy)
  }

  ghost predicate RealFleet(f: Fleet) {
    RealTree(f.server) && forall i :: 0 <= i < |f.machines| ==> RealTree(f.machines[i].local)
  }

  /** One machine tries to sync; nobody edits anything. The try succeeds, or it stops at
      some file operation or before the first, as a refusal does. */
  ghost predicate SyncStep(f: Fleet, i: nat, ok: bool, g: Fleet) {
    && i < |f.machines| == |g.machines|
    && (if ok then Synced(WorldOf(f, i), WorldOf(g, i)) else Stopped(WorldOf(f, i), WorldOf(g, i)))
    && forall j :: 0 <= j < |f.machines| && j != i ==> g.machines[j] == f.machines[j]
  }

  /** Tries in any order, who made each and whether it succeeded. */
  ghost predicate IsRun(states: seq<Fleet>, who: seq<nat>, ok: seq<bool>) {
    && |states| == |who| + 1 && |ok| == |who|
    && RealFleet(states[0])
    && forall t :: 0 <= t < |who| ==> SyncStep(states[t], who[t], ok[t], states[t + 1])
  }

  /** The machine's last try before a time was one that succeeded. */
  ghost predicate LastSucceeded(who: seq<nat>, ok: seq<bool>, t: nat, i: nat) {
    exists u :: 0 <= u < t <= |who| == |ok| && who[u] == i && ok[u] && forall v :: u < v < t ==> who[v] != i
  }

  ghost predicate AllLastSucceeded(who: seq<nat>, ok: seq<bool>, t: nat, n: nat) {
    forall i :: 0 <= i < n ==> LastSucceeded(who, ok, t, i)
  }

  ghost predicate SucceededBetween(who: seq<nat>, ok: seq<bool>, t0: nat, t1: nat, i: nat) {
    exists u :: t0 <= u < t1 <= |who| == |ok| && who[u] == i && ok[u]
  }

  /** A machine with nothing of its own to push. */
  ghost predicate AtRest(m: Machine) {
    m.base == Contents(m.local)
  }

  /** A world in which every local file is as it was at the last sync or as the server has
      it: the machine may have stopped while pulling. */
  ghost predicate Quiet(w: World) {
    forall p :: EntryAt(w.local, p).checksum == SumAt(w.base, p)
                || EntryAt(w.local, p).checksum == EntryAt(w.remote, p).checksum
  }

  /** A machine with nothing to push or pull. */
  ghost predicate Level(f: Fleet, i: nat) {
    i < |f.machines| && AtRest(f.machines[i]) && f.machines[i].base == Contents(f.server)
  }

  lemma {:induction false} RunsStayReal(states: seq<Fleet>, who: seq<nat>, ok: seq<bool>, t: nat)
    requires IsRun(states, who, ok) && t <= |who|
    ensures RealFleet(states[t]) && |states[t].machines| == |states[0].machines|
  {
    hide SidesSettle;
    hide ParkedAfter;
    hide StoppedAt;
    if t > 0 {
      RunsStayReal(states, who, ok, t - 1);
      assert SyncStep(states[t - 1], who[t - 1], ok[t - 1], states[t]);
    }
  }

  lemma QuietSettlesRemotely(c: Cell)
    requires c.local.checksum == c.base || c.local.checksum == c.remote.checksum
    ensures Settled(c) == c.remote.checksum && !Contested(c)
  {
    hide LocalWins;
  }

  /** What a try does to a quiet path: nothing on the server, and the local file stays or
      becomes the server's. */
  lemma QuietPathsOnlyPull(p: Path, c: Cell, d: Cell)
    requires c.local.checksum == c.base || c.local.checksum == c.remote.checksum
    requires SidesSettle(c, d) || StoppedAt(p, c, d)
    ensures d.remote == c.remote
    ensures d.local == c.local || d.local.checksum == c.remote.checksum
  {
    hide SingleWriter;
    hide LocalWins;
    QuietSettlesRemotely(c);
    hide Settled;
  }

  /** A quiet machine only pulls: its try, whether it succeeds or stops, leaves the server
      untouched and the machine quiet. */
  lemma QuietMachinesOnlyPull(w: World, v: World)
    requires RealTree(w.local) && RealTree(w.remote) && Quiet(w) && (Synced(w, v) || Stopped(w, v))
    ensures v.remote == w.remote && Quiet(v)
  {
    hide ParkedAfter;
    hide StoppedAt;
    hide SidesSettle;
    hide SingleWriter;
    forall p
      ensures EntryAt(v.remote, p) == EntryAt(w.remote, p)
      ensures EntryAt(v.local, p) == EntryAt(w.local, p)
              || EntryAt(v.local, p).checksum == EntryAt(w.remote, p).checksum
    {
      QuietPathsOnlyPull(p, CellAt(w, p), CellAt(v, p));
    }
    SameEntries(v.remote, w.remote);
    if Synced(w, v) {
      RestIsQuiet(v);
    }
  }

  lemma RestIsQuiet(w: World)
    requires w.base == Contents(w.local)
    ensures Quiet(w)
  {
    forall p ensures EntryAt(w.local, p).checksum == SumAt(w.base, p) {
      assert p in w.base <==> p in w.local;
    }
  }

  /** A machine at rest only pulls. */
  lemma RestedMachinesOnlyPull(w: World, v: World)
    requires RealTree(w.local) && RealTree(w.remote)
    requires w.base == Contents(w.local) && (Synced(w, v) || Stopped(w, v))
    ensures v.remote == w.remote
  {
    RestIsQuiet(w);
    hide Quiet;
    hide Synced;
    hide Stopped;
    QuietMachinesOnlyPull(w, v);
  }

  lemma SameEntries(a: Tree, b: Tree)
    requires RealTree(a) && RealTree(b)
    requires forall p :: EntryAt(a, p) == EntryAt(b, p)
    ensures a == b
  {
    forall p ensures p in a <==> p in b {
      assert EntryAt(a, p) == EntryAt(b, p);
    }
    forall p | p in a ensures a[p] == b[p] {
      assert EntryAt(a, p) == EntryAt(b, p);
    }
  }

  /** Between its tries a machine stays as its last success left it. */
  lemma {:induction false} SuccessRests(states: seq<Fleet>, who: seq<nat>, ok: seq<bool>, u: nat, t: nat, i: nat)
    requires IsRun(states, who, ok) && u < t <= |who| && who[u] == i && ok[u]
    requires forall v :: u < v < t ==> who[v] != i
    ensures i < |states[t].machines| && AtRest(states[t].machines[i])
  {
    hide Synced;
    hide Stopped;
    assert SyncStep(states[t - 1], who[t - 1], ok[t - 1], states[t]);
    if t == u + 1 {
      SyncLeavesAllEqual(WorldOf(states[u], i), WorldOf(states[t], i));
    } else {
      SuccessRests(states, who, ok, u, t - 1, i);
    }
  }

  ghost predicate AllQuiet(f: Fleet) {
    forall i :: 0 <= i < |f.machines| ==> Quiet(WorldOf(f, i))
  }

  lemma SettledFleetsAreQuiet(states: seq<Fleet>, who: seq<nat>, ok: seq<bool>, t: nat)
    requires IsRun(states, who, ok) && t <= |who| && AllLastSucceeded(who, ok, t, |states[0].machines|)
    ensures AllQuiet(states[t])
  {
    hide SyncStep;
    hide Quiet;
    RunsStayReal(states, who, ok, t);
    forall i | 0 <= i < |states[t].machines| ensures Quiet(WorldOf(states[t], i)) {
      assert LastSucceeded(who, ok, t, i);
      var u :| 0 <= u < t && who[u] == i && ok[u] && forall v :: u < v < t ==> who[v] != i;
      SuccessRests(states, who, ok, u, t, i);
      RestIsQuiet(WorldOf(states[t], i));
    }
  }

  /** Once every machine's last try has succeeded, the server never changes again, however
      many tries stop from then on. */
  lemma {:induction false} ServerIsFrozen(states: seq<Fleet>, who: seq<nat>, ok: seq<bool>, t0: nat, t: nat)
    requires IsRun(states, who, ok) && t0 <= t <= |who|
    requires AllLastSucceeded(who, ok, t0, |states[0].machines|)
    ensures states[t].server == states[t0].server && AllQuiet(states[t])
  {
    hide Synced;
    hide Stopped;
    hide Quiet;
    hide AllLastSucceeded;
    if t == t0 {
      SettledFleetsAreQuiet(states, who, ok, t0);
    } else {
      ServerIsFrozen(states, who, ok, t0, t - 1);
      var f, g, k := states[t - 1], states[t], who[t - 1];
      assert SyncStep(f, k, ok[t - 1], g);
      RunsStayReal(states, who, ok, t - 1);
      QuietMachinesOnlyPull(WorldOf(f, k), WorldOf(g, k));
      assert forall j :: 0 <= j < |g.machines| && j != k ==> WorldOf(g, j) == WorldOf(f, j);
    }
  }

  /** A try of a machine that is level changes none of its files and leaves it level. */
  lemma LevelMachinesStayLevel(w: World, v: World)
    requires RealTree(w.local) && RealTree(w.remote)
    requires w.base == Contents(w.local) == Contents(w.remote) && (Synced(w, v) || Stopped(w, v))
    ensures v.base == Contents(v.local) == Contents(v.remote)
  {
    hide StoppedAt;
    hide Settled;
    hide SingleWriter;
    hide ParkedAfter;
    if Synced(w, v) {
      SyncLeavesAllEqual(w, v);
    } else {
      RestIsQuiet(w);
      QuietMachinesOnlyPull(w, v);
      forall p ensures EntryAt(v.local, p).checksum == EntryAt(w.local, p).checksum {
        assert p in Contents(w.local) <==> p in w.local;
        assert p in Contents(w.remote) <==> p in w.remote;
        QuietPathsOnlyPull(p, CellAt(w, p), CellAt(v, p));
      }
      SameContents(v.local, w.local);
    }
  }

  /** A machine that succeeds after that is level, and stays so. */
  lemma {:induction false} PulledMachinesAreLevel(
    states: seq<Fleet>, who: seq<nat>, ok: seq<bool>, t0: nat, u: nat, t: nat)
    requires IsRun(states, who, ok) && t0 <= u < t <= |who| && ok[u]
    requires AllLastSucceeded(who, ok, t0, |states[0].machines|)
    ensures Level(states[t], who[u])
  {
    hide Synced;
    hide Stopped;
    hide AllLastSucceeded;
    var f, g, i, k := states[t - 1], states[t], who[u], who[t - 1];
    assert SyncStep(f, k, ok[t - 1], g);
    ServerIsFrozen(states, who, ok, t0, t - 1);
    ServerIsFrozen(states, who, ok, t0, t);
    RunsStayReal(states, who, ok, t - 1);
    if t == u + 1 {
      SyncLeavesAllEqual(WorldOf(f, k), WorldOf(g, k));
    } else {
      PulledMachinesAreLevel(states, who, ok, t0, u, t - 1);
      if k == i {
        LevelMachinesStayLevel(WorldOf(f, k), WorldOf(g, k));
      }
    }
  }

  /** Every tree and every base equals the server's, and no sync would report a thing. */
  ghost predicate Converged(f: Fleet) {
    forall i :: 0 <= i < |f.machines| ==>
      && Contents(f.machines[i].local) == f.machines[i].base == Contents(f.server)
      && ReportOf(WorldOf(f, i), AllPaths(WorldOf(f, i))) == NOTHING
  }

  lemma AllLevelMeansConverged(f: Fleet)
    requires RealFleet(f) && forall i :: 0 <= i < |f.machines| ==> Level(f, i)
    ensures Converged(f)
  {
    hide ReportOf;
    hide AllPaths;
    forall i | 0 <= i < |f.machines|
      ensures AtRest(f.machines[i]) && f.machines[i].base == Contents(f.server)
      ensures ReportOf(WorldOf(f, i), AllPaths(WorldOf(f, i))) == NOTHING
    {
      assert Level(f, i);
      LevelReportsNothing(WorldOf(f, i), AllPaths(WorldOf(f, i)));
    }
  }

  /** Convergence: from any trees and bases, in any run of tries by any machines, failed
      ones among them, once every machine's last try has succeeded the server never
      changes again; and once every machine has succeeded again, every tree and every base
      equals the server's, and no sync reports anything. */
  lemma FleetConverges(states: seq<Fleet>, who: seq<nat>, ok: seq<bool>, t0: nat, t1: nat, t: nat)
    requires IsRun(states, who, ok) && t0 <= t1 <= t <= |who|
    requires AllLastSucceeded(who, ok, t0, |states[0].machines|)
    ensures states[t].server == states[t0].server
    ensures (forall i :: 0 <= i < |states[0].machines| ==> SucceededBetween(who, ok, t0, t1, i)) ==>
              Converged(states[t])
  {
    hide SyncStep;
    hide Level;
    hide RealFleet;
    hide Converged;
    hide AllLastSucceeded;
    hide AllQuiet;
    ServerIsFrozen(states, who, ok, t0, t);
    RunsStayReal(states, who, ok, t);
    if forall i :: 0 <= i < |states[0].machines| ==> SucceededBetween(who, ok, t0, t1, i) {
      forall i | 0 <= i < |states[t].machines| ensures Level(states[t], i) {
        assert SucceededBetween(who, ok, t0, t1, i);
        var u :| t0 <= u < t1 && who[u] == i && ok[u];
        PulledMachinesAreLevel(states, who, ok, t0, u, t);
      }
      AllLevelMeansConverged(states[t]);
    }
  }

  lemma {:induction false} LevelReportsNothing(w: World, paths: seq<Path>)
    requires w.base == Contents(w.local) == Contents(w.remote)
    requires RealTree(w.local) && RealTree(w.remote)
    ensures ReportOf(w, paths) == NOTHING
  {
    if paths != [] {
      var p := paths[|paths| - 1];
      LevelReportsNothing(w, paths[..|paths| - 1]);
      assert p in w.local <==> p in Contents(w.local);
      assert p in w.remote <==> p in Contents(w.remote);
      assert EntryAt(w.local, p).checksum == SumAt(w.base, p) == EntryAt(w.remote, p).checksum;
      NothingReported(NOTHING, p, CellAt(w, p));
    }
  }
}
