/** What a sync settles on, said of the contents alone: which side's edit stays, where the
    other goes, what is reported and what is planned (internal/sync/sync.go, conflict.go,
    singlewriter.go). */
module SyncSettling {
  import opened Wrappers
  import opened SyncRules
  import opened SyncClient
  import opened SyncFleet
  import Order

  /** A path's contents before a sync, "" being none: here, on the server, and at the last
      sync. */
  datatype Sides = Sides(local: string, remote: string, base: string)

  function SidesAt(w: World, p: Path): Sides {
    Sides(EntryAt(w.local, p).checksum, EntryAt(w.remote, p).checksum, SumAt(w.base, p))
  }

  /** Both sides were edited, each to something of its own. */
  ghost predicate EditedApart(c: Sides) {
    c.local != c.base && c.remote != c.base && c.local != c.remote && c.local != "" && c.remote != ""
  }

  /** Both sides hold it. */
  ghost predicate EndsAs(v: World, p: Path, content: string) {
    EntryAt(v.local, p).checksum == content && EntryAt(v.remote, p).checksum == content
  }

  /** A side that did not move takes the other's content, a deletion included; of two sides
      that moved, a deletion yields to content; two that moved alike stay. */
  lemma OneSidedChangesSpread(w: World, v: World, p: Path)
    requires Synced(w, v)
    ensures var c := SidesAt(w, p);
            && (c.local == c.base ==> EndsAs(v, p, c.remote))
            && (c.remote == c.base ==> EndsAs(v, p, c.local))
            && (c.local == c.remote ==> EndsAs(v, p, c.local))
            && (c.local != c.base && c.remote != c.base && c.local == "" ==> EndsAs(v, p, c.remote))
            && (c.local != c.base && c.remote != c.base && c.remote == "" ==> EndsAs(v, p, c.local))
  {
    SettledElsewhere(w, v, p);
    hide Synced;
    hide LocalWins;
    var c := CellAt(w, p);
    if c.local.checksum == c.remote.checksum != "" && c.local.checksum != c.base {
      assert Settled(c) == c.local.checksum;
    }
  }

  /** Of two edits the later one stays on both sides; when their times are equal or cannot
      be read, the one with the larger checksum. */
  lemma LaterEditStays(w: World, v: World, p: Path)
    requires Synced(w, v) && EditedApart(SidesAt(w, p))
    ensures var l, r := EntryAt(w.local, p), EntryAt(w.remote, p);
            if l.modTime.Some? && r.modTime.Some? && l.modTime != r.modTime then
              EndsAs(v, p, if l.modTime.value > r.modTime.value then l.checksum else r.checksum)
            else
              EndsAs(v, p, if Order.Precedes(r.checksum, l.checksum) then l.checksum else r.checksum)
  {
    SettledElsewhere(w, v, p);
    var l, r := EntryAt(w.local, p).checksum, EntryAt(w.remote, p).checksum;
    Order.LessIsLexicographic(r, l);
    Order.LessIsTotal(l, r);
    if Order.Less(l, r) { Order.LessIsAsymmetric(l, r); }
    hide Synced;
    hide Order.Less;
    hide Order.Precedes;
  }

  /** The two sides exchanged. */
  function Exchanged(w: World): World {
    w.(local := w.remote, remote := w.local)
  }

  /** Every machine makes the same choice: which side is called local does not matter to
      what a path ends with. */
  lemma EitherSideChoosesAlike(w: World, v: World, u: World, p: Path)
    requires Synced(w, v) && Synced(Exchanged(w), u)
    ensures EntryAt(u.local, p).checksum == EntryAt(v.local, p).checksum
  {
    SettledElsewhere(w, v, p);
    SettledElsewhere(Exchanged(w), u, p);
    var l, r := EntryAt(w.local, p).checksum, EntryAt(w.remote, p).checksum;
    Order.LessIsTotal(l, r);
    if Order.Less(l, r) { Order.LessIsAsymmetric(l, r); }
    if Order.Less(r, l) { Order.LessIsAsymmetric(r, l); }
    hide Synced;
    hide Order.Less;
  }

  /** A path some machine alone writes: usage/, that machine's directory, and something in
      it. */
  ghost predicate UnderUsage(p: Path) {
    exists machine: string, rest: string :: p == "usage/" + machine + "/" + rest
  }

  lemma SingleWriterIsExact(p: Path)
    ensures SingleWriter(p) <==> UnderUsage(p)
  {
    if SingleWriter(p) {
      var k :| 0 <= k < |p[6..]| && p[6..][k] == '/';
      var machine, rest := p[6..][..k], p[6..][k + 1..];
      assert p == p[..6] + p[6..] && p[6..] == machine + "/" + rest;
      assert p == "usage/" + machine + "/" + rest;
    }
    if UnderUsage(p) {
      var machine: string, rest: string :| p == "usage/" + machine + "/" + rest;
      assert p[..6] == "usage/" && p[6..] == machine + "/" + rest;
      assert p[6..][|machine|] == '/';
    }
  }

  /** The edit that does not stay is kept under .conflicts/, unless one machine alone writes
      the path; and no other copy comes or goes, but those of such paths go. */
  lemma LosingEditIsParked(w: World, v: World, p: Path)
    requires Synced(w, v)
    ensures var c := SidesAt(w, p);
            CopyAt(v.conflicts, p)
            == (if UnderUsage(p) then None
                else if EditedApart(c) then Some(if EndsAs(v, p, c.local) then c.remote else c.local)
                else CopyAt(w.conflicts, p))
    ensures CopyAt(v.legacy, p) == if UnderUsage(p) then None else CopyAt(w.legacy, p)
  {
    SettledElsewhere(w, v, p);
    SingleWriterIsExact(p);
    hide Synced;
    hide SingleWriter;
    hide UnderUsage;
    hide LocalWins;
  }

  /** The notes of a sync: an edit on both sides where one was parked, and which copy was
      kept where an edit met a deletion. */
  lemma NotesAreExact(w: World, p: Path)
    ensures var c, notes := SidesAt(w, p), ReportOf(w, AllPaths(w)).conflicts;
            && (EditedOnBoth(p) in notes <==> EditedApart(c) && !UnderUsage(p))
            && (KeptServerCopy(p) in notes <==> c.local == "" && c.base != "" && c.remote != "" && c.remote != c.base)
            && (KeptLocalCopy(p) in notes <==> c.remote == "" && c.base != "" && c.local != "" && c.local != c.base)
  {
    SingleWriterIsExact(p);
    WhatIsNoted(w, AllPaths(w), p);
    if p !in AllPaths(w) {
      UnknownPathsAreSettled(w, p);
    }
    hide ReportOf;
    hide AllPaths;
    hide SingleWriter;
    hide UnderUsage;
  }

  lemma {:induction false} WhatIsNoted(w: World, paths: seq<Path>, p: Path)
    ensures var c, notes := CellAt(w, p), ReportOf(w, paths).conflicts;
            && (EditedOnBoth(p) in notes <==> p in paths && Contested(c) && !SingleWriter(p))
            && (KeptServerCopy(p) in notes <==> p in paths && Diverged(c) && c.local.checksum == "")
            && (KeptLocalCopy(p) in notes <==> p in paths && Diverged(c) && c.remote.checksum == "")
  {
    hide Settled;
    hide CellAt;
    hide SingleWriter;
    if paths != [] {
      var n := |paths| - 1;
      WhatIsNoted(w, paths[..n], p);
      assert paths == paths[..n] + [paths[n]];
    }
  }

  /** What is planned for deletion here: what this side has as it was at the last sync and
      the server has dropped; on the server, the same the other way round; each list in
      ascending order, with the size of each side. */
  lemma PlansAreExact(w: World, p: Path)
    ensures var c, plan := SidesAt(w, p), PlanOf(w, AllPaths(w));
            && (p in plan.local <==> c.local == c.base && c.base != "" && c.remote == "")
            && (p in plan.remote <==> c.remote == c.base && c.base != "" && c.local == "")
            && Order.Ascending(plan.local) && Order.Ascending(plan.remote)
            && plan.localFiles == |w.local| && plan.remoteFiles == |w.remote|
  {
    WhatIsPlanned(w, AllPaths(w), p);
    PlansAscend(w, AllPaths(w));
    if p !in AllPaths(w) {
      UnknownPathsAreSettled(w, p);
    }
    hide PlanOf;
    hide AllPaths;
    hide Order.Ascending;
  }

  lemma {:induction false} WhatIsPlanned(w: World, paths: seq<Path>, p: Path)
    ensures var c, plan := SidesAt(w, p), PlanOf(w, paths);
            && (p in plan.local <==> p in paths && c.local == c.base && c.base != "" && c.remote == "")
            && (p in plan.remote <==> p in paths && c.remote == c.base && c.base != "" && c.local == "")
            && plan.localFiles == |w.local| && plan.remoteFiles == |w.remote|
  {
    if paths != [] {
      var n := |paths| - 1;
      WhatIsPlanned(w, paths[..n], p);
      assert paths == paths[..n] + [paths[n]];
    }
  }

  lemma {:induction false} PlansAscend(w: World, paths: seq<Path>)
    requires Order.Ascending(paths)
    ensures Order.Ascending(PlanOf(w, paths).local) && Order.Ascending(PlanOf(w, paths).remote)
    ensures forall p :: p in PlanOf(w, paths).local || p in PlanOf(w, paths).remote ==> p in paths
  {
    hide Order.Less;
    hide DeletesLocal;
    hide DeletesRemote;
    hide CellAt;
    if paths != [] {
      var n := |paths| - 1;
      PlansAscend(w, paths[..n]);
      var plan := PlanOf(w, paths[..n]);
      forall q | q in paths[..n] ensures Order.Less(q, paths[n]) {
        var k :| 0 <= k < n && paths[k] == q;
      }
      assert forall i :: 0 <= i < |plan.local| ==> plan.local[i] in plan.local;
      assert forall i :: 0 <= i < |plan.remote| ==> plan.remote[i] in plan.remote;
    }
  }
}
