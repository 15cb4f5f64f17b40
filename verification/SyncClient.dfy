/** The client's sync, step by step (internal/sync/sync.go, conflict.go, singlewriter.go,
    transfer.go). Each file operation is one step and may fail; a sync that fails or is
    killed at any of them stops there. */
module SyncClient {
  import opened Wrappers
  import opened SyncRules
  import Order

  class Server {
    var tree: Tree
    constructor (tree: Tree)
      ensures this.tree == tree
    {
      this.tree := tree;
    }
  }

  /** The deletions a sync is about to make, in order, and how big each side is. */
  datatype Plan = Plan(local: seq<Path>, remote: seq<Path>, localFiles: nat, remoteFiles: nat)

  datatype Outcome = Succeeded(report: Report) | Refused(plan: Plan) | Failed

  function PlanTotal(plan: Plan): nat {
    |plan.local| + |plan.remote|
  }

  /** plannedDeletes over the first paths. */
  function PlanOf(w: World, paths: seq<Path>): Plan {
    if paths == [] then Plan([], [], |w.local|, |w.remote|)
    else
      var plan := PlanOf(w, paths[..|paths| - 1]);
      var p := paths[|paths| - 1];
      var c := CellAt(w, p);
      if DeletesLocal(c.local, c.remote, c.base) then plan.(local := plan.local + [p])
      else if DeletesRemote(c.local, c.remote, c.base) then plan.(remote := plan.remote + [p])
      else plan
  }

  /** The guard's leave: few deletions planned, or the override. */
  predicate Permitted(w: World, allowBulkDelete: bool) {
    allowBulkDelete || PlanTotal(PlanOf(w, AllPaths(w))) <= MAX_SILENT_DELETES
  }

  class Client {
    const server: Server
    const allowBulkDelete: bool
    var local: Tree
    var base: map<Path, string>
    var conflicts: map<Path, string>
    var legacy: map<Path, string>
    /** The new base and the report of a sync in progress. */
    var next: map<Path, string>
    var res: Report

    ghost function Now(): World
      reads this, server
    {
      World(local, server.tree, base, conflicts, legacy)
    }

    ghost predicate Valid()
      reads this, server
    {
      RealTree(local) && RealTree(server.tree)
    }

    constructor (server: Server, allowBulkDelete: bool, local: Tree, base: map<Path, string>,
                 conflicts: map<Path, string>, legacy: map<Path, string>)
      requires RealTree(local) && RealTree(server.tree)
      ensures Valid() && this.server == server && this.allowBulkDelete == allowBulkDelete
      ensures Now() == World(local, server.tree, base, conflicts, legacy)
    {
      this.server, this.allowBulkDelete := server, allowBulkDelete;
      this.local, this.base, this.conflicts, this.legacy := local, base, conflicts, legacy;
      next, res := map[], NOTHING;
    }

    // -------------------------------------------------------------- file operations

    /** Sends the local file; the server stamps it with a time of its own. */
    method UploadFile(p: Path) returns (ok: bool)
      requires Valid() && p in local
      modifies server
      ensures !ok ==> server.tree == old(server.tree)
      ensures ok ==> Valid() && RemoteWritten(old(Now()), Now(), p, local[p].checksum)
    {
      var t: Option<int> := *;
      ok := *;
      if ok {
        server.tree := server.tree[p := FileEntry(local[p].checksum, t)];
      }
    }

    method DownloadFile(p: Path) returns (ok: bool)
      requires Valid() && p in server.tree
      modifies this`local
      ensures !ok ==> local == old(local)
      ensures ok ==> Valid() && LocalWritten(old(Now()), Now(), p, server.tree[p].checksum)
    {
      var t: Option<int> := *;
      ok := *;
      if ok {
        local := local[p := FileEntry(server.tree[p].checksum, t)];
      }
    }

    method DeleteOnServer(p: Path) returns (ok: bool)
      requires Valid()
      modifies server
      ensures !ok ==> server.tree == old(server.tree)
      ensures ok ==> Valid() && RemoteWritten(old(Now()), Now(), p, "")
    {
      ok := *;
      if ok {
        server.tree := server.tree - {p};
      }
    }

    method RemoveLocal(p: Path) returns (ok: bool)
      requires Valid()
      modifies this`local
      ensures !ok ==> local == old(local)
      ensures ok ==> Valid() && LocalWritten(old(Now()), Now(), p, "")
    {
      ok := *;
      if ok {
        local := local - {p};
      }
    }

    method WriteConflictCopy(p: Path, checksum: string) returns (ok: bool)
      modifies this`conflicts
      ensures !ok ==> conflicts == old(conflicts)
      ensures ok ==> CopyWritten(old(Now()), Now(), p, checksum)
    {
      ok := *;
      if ok {
        conflicts := conflicts[p := checksum];
      }
    }

    // -------------------------------------------------------------- one path

    ghost function Here(): Pass
      reads this, server
    {
      Pass(Now(), next, res)
    }

    /** The change a step made. */
    twostate predicate Settles(p: Path, ok: bool)
      reads this, server
    {
      Valid() && Stepped(old(Here()), Here(), p, ok)
    }

    method SetBase(p: Path, checksum: string)
      modifies this`next
      ensures SetTo(old(next), next, p, checksum)
    {
      if checksum == "" {
        next := next - {p};
      } else {
        next := next[p := checksum];
      }
    }

    /** Takes one path to its settled content, whichever sides moved since the base. */
    method ReconcilePath(p: Path) returns (ok: bool)
      requires Valid()
      modifies this, server
      ensures Settles(p, ok)
    {
      hide SingleWriter;
      hide LocalWins;
      var c := Cell(EntryAt(local, p), EntryAt(server.tree, p), SumAt(base, p), CopyAt(conflicts, p));
      var localMod := c.local.checksum != c.base;
      var remoteMod := c.remote.checksum != c.base;
      if !localMod && !remoteMod {
        SetBase(p, c.local.checksum);
        NothingReported(res, p, c);
        return true;
      }
      if localMod && !remoteMod {
        ok := ApplyLocalChange(p, c);
        return;
      }
      if !localMod && remoteMod {
        ok := ApplyRemoteChange(p, c);
        return;
      }
      if c.local.checksum == c.remote.checksum {
        SetBase(p, c.local.checksum);
        NothingReported(res, p, c);
        return true;
      }
      ok := ResolveConflict(p, c);
    }

    /** The server's side takes the local one, which alone moved. */
    method ApplyLocalChange(p: Path, c: Cell) returns (ok: bool)
      requires Valid() && c == CellAt(Now(), p)
      requires c.local.checksum != c.base && c.remote.checksum == c.base
      modifies this, server
      ensures Settles(p, ok)
    {
      hide SingleWriter;
      hide LocalWins;
      ghost var before := Here();
      if DeletesRemote(c.local, c.remote, c.base) {
        ok := DeleteOnServer(p);
        if ok {
          res := res.(deletedRemote := res.deletedRemote + [p]);
          next := next - {p};
        }
        return;
      }
      ok := UploadFile(p);
      if ok {
        res := res.(uploaded := res.uploaded + [p]);
        next := next[p := c.local.checksum];
        Pushed(before, before.world, Here(), p);
      }
    }

    /** The local side takes the server's, which alone moved. */
    method ApplyRemoteChange(p: Path, c: Cell) returns (ok: bool)
      requires Valid() && c == CellAt(Now(), p)
      requires c.local.checksum == c.base && c.remote.checksum != c.base
      modifies this, server
      ensures Settles(p, ok)
    {
      hide SingleWriter;
      hide LocalWins;
      ghost var before := Here();
      if DeletesLocal(c.local, c.remote, c.base) {
        ok := RemoveLocal(p);
        if ok {
          res := res.(deletedLocal := res.deletedLocal + [p]);
          next := next - {p};
        }
        return;
      }
      ok := DownloadFile(p);
      if ok {
        res := res.(downloaded := res.downloaded + [p]);
        next := next[p := c.remote.checksum];
        Pulled(before, before.world, Here(), p);
      }
    }

    /** Settles a path both sides changed: content beats a deletion, the newer copy wins
        on a single-writer path, and between two edits the winner is kept and the loser
        parked. */
    method ResolveConflict(p: Path, c: Cell) returns (ok: bool)
      requires Valid() && c == CellAt(Now(), p) && Diverged(c)
      modifies this, server
      ensures Settles(p, ok)
    {
      hide SingleWriter;
      hide LocalWins;
      if c.local.checksum == "" {
        ok := KeepServerCopy(p, c);
        return;
      }
      if c.remote.checksum == "" {
        ok := KeepLocalCopy(p, c);
        return;
      }
      if SingleWriter(p) {
        ok := ResolveSingleWriter(p, c);
        return;
      }
      if LocalWins(c.local, c.remote) {
        ok := BackupRemoteAndPushLocal(p, c);
      } else {
        ok := BackupLocalAndPullRemote(p, c);
      }
    }

    method KeepServerCopy(p: Path, c: Cell) returns (ok: bool)
      requires Valid() && c == CellAt(Now(), p) && Diverged(c) && c.local.checksum == ""
      modifies this, server
      ensures Settles(p, ok)
    {
      hide SingleWriter;
      hide LocalWins;
      ghost var before := Here();
      ok := DownloadFile(p);
      if ok {
        res := res.(downloaded := res.downloaded + [p]);
        next := next[p := c.remote.checksum];
        res := res.(conflicts := res.conflicts + [KeptServerCopy(p)]);
        Pulled(before, before.world, Here(), p);
      }
    }

    method KeepLocalCopy(p: Path, c: Cell) returns (ok: bool)
      requires Valid() && c == CellAt(Now(), p) && Diverged(c) && c.remote.checksum == ""
      modifies this, server
      ensures Settles(p, ok)
    {
      hide SingleWriter;
      hide LocalWins;
      ghost var before := Here();
      ok := UploadFile(p);
      if ok {
        res := res.(uploaded := res.uploaded + [p]);
        next := next[p := c.local.checksum];
        res := res.(conflicts := res.conflicts + [KeptLocalCopy(p)]);
        Pushed(before, before.world, Here(), p);
      }
    }

    method ResolveSingleWriter(p: Path, c: Cell) returns (ok: bool)
      requires Valid() && c == CellAt(Now(), p) && Contested(c) && SingleWriter(p)
      modifies this, server
      ensures Settles(p, ok)
    {
      hide SingleWriter;
      hide LocalWins;
      ghost var before := Here();
      if LocalWins(c.local, c.remote) {
        ok := UploadFile(p);
        if ok {
          res := res.(uploaded := res.uploaded + [p]);
          next := next[p := c.local.checksum];
          Pushed(before, before.world, Here(), p);
        }
        return;
      }
      ok := DownloadFile(p);
      if ok {
        res := res.(downloaded := res.downloaded + [p]);
        next := next[p := c.remote.checksum];
        Pulled(before, before.world, Here(), p);
      }
    }

    method BackupRemoteAndPushLocal(p: Path, c: Cell) returns (ok: bool)
      requires Valid() && c == CellAt(Now(), p) && Parks(p, c) && LocalWins(c.local, c.remote)
      modifies this, server
      ensures Settles(p, ok)
    {
      hide SingleWriter;
      hide LocalWins;
      ghost var before := Here();
      ok := WriteConflictCopy(p, server.tree[p].checksum);
      if !ok {
        return;
      }
      ghost var parked := Now();
      ok := UploadFile(p);
      if ok {
        res := res.(uploaded := res.uploaded + [p]);
        next := next[p := c.local.checksum];
        res := res.(conflicts := res.conflicts + [EditedOnBoth(p)]);
        Pushed(before, parked, Here(), p);
      }
    }

    method BackupLocalAndPullRemote(p: Path, c: Cell) returns (ok: bool)
      requires Valid() && c == CellAt(Now(), p) && Parks(p, c) && !LocalWins(c.local, c.remote)
      modifies this, server
      ensures Settles(p, ok)
    {
      hide SingleWriter;
      hide LocalWins;
      ghost var before := Here();
      ok := WriteConflictCopy(p, local[p].checksum);
      if !ok {
        return;
      }
      ghost var parked := Now();
      ok := DownloadFile(p);
      if ok {
        res := res.(downloaded := res.downloaded + [p]);
        next := next[p := c.remote.checksum];
        res := res.(conflicts := res.conflicts + [EditedOnBoth(p)]);
        Pulled(before, parked, Here(), p);
      }
    }

    // -------------------------------------------------------------- a whole sync

    /** Lists every file the sync would destroy, before the first is touched. */
    method PlannedDeletes(paths: seq<Path>) returns (plan: Plan)
      ensures plan == PlanOf(Now(), paths)
    {
      hide CellAt;
      var gone: seq<Path>, dropped: seq<Path> := [], [];
      for i := 0 to |paths|
        invariant Plan(gone, dropped, |local|, |server.tree|) == PlanOf(Now(), paths[..i])
      {
        var p := paths[i];
        assert paths[..i + 1][..i] == paths[..i];
        var l, r, b := EntryAt(local, p), EntryAt(server.tree, p), SumAt(base, p);
        assert CellAt(Now(), p).(parked := None) == Cell(l, r, b, None) by { CellParts(Now(), p); }
        if DeletesLocal(l, r, b) {
          gone := gone + [p];
        } else if DeletesRemote(l, r, b) {
          dropped := dropped + [p];
        }
      }
      assert paths[..|paths|] == paths;
      plan := Plan(gone, dropped, |local|, |server.tree|);
    }

    /** Removes the copies kept for single-writer paths, in either layout. */
    method PruneSingleWriterConflicts() returns (ok: bool)
      modifies this`conflicts, this`legacy
      ensures Pruned(old(conflicts), conflicts, ok) && Pruned(old(legacy), legacy, ok)
    {
      hide SingleWriter;
      hide Pruned;
      hide Order.Sorted;
      NothingPruned(conflicts);
      NothingPruned(legacy);
      var pages := Order.Sorted(conflicts.Keys + legacy.Keys);
      for i := 0 to |pages|
        invariant Pruned(old(conflicts), conflicts, false) && Pruned(old(legacy), legacy, false)
        invariant forall k :: 0 <= k < i && SingleWriter(pages[k]) ==> pages[k] !in conflicts && pages[k] !in legacy
      {
        if !SingleWriter(pages[i]) {
          continue;
        }
        var removed := *;
        if !removed {
          return false;
        }
        PruningOneMore(old(conflicts), conflicts, pages[i]);
        conflicts := conflicts - {pages[i]};
        removed := *;
        if !removed {
          return false;
        }
        PruningOneMore(old(legacy), legacy, pages[i]);
        legacy := legacy - {pages[i]};
      }
      AllPruned(old(conflicts), conflicts, pages);
      AllPruned(old(legacy), legacy, pages);
      ok := true;
    }

    /** Takes every path to its settled content, in order, until a file operation fails. */
    method ReconcileAll(paths: seq<Path>) returns (ok: bool)
      requires Valid() && paths == AllPaths(Now()) && next == base && res == NOTHING
      modifies this, server
      ensures Valid()
      ensures ok ==> Progress(old(Now()), Here(), paths, |paths|)
      ensures !ok ==> Stopped(old(Now()), Now())
    {
      hide Progress;
      hide Stepped;
      hide Stopped;
      hide Order.Sorted;
      hide Order.Ascending;
      ghost var w := Now();
      ProgressStarts(w, Here(), paths);
      for i := 0 to |paths|
        invariant Valid() && Progress(w, Here(), paths, i)
      {
        ghost var before := Here();
        ok := ReconcilePath(paths[i]);
        if !ok {
          ProgressStops(w, before, Here(), paths, i);
          return;
        }
        ProgressSteps(w, before, Here(), paths, i);
      }
      ok := true;
    }

    /** Once every path is settled: prunes, and saves the new base. */
    method PruneAndSave(ghost w: World, ghost paths: seq<Path>) returns (ok: bool)
      requires Valid() && paths == AllPaths(w) && Progress(w, Here(), paths, |paths|)
      modifies this
      ensures Valid() && res == old(res)
      ensures ok ==> Synced(w, Now()) && res == ReportOf(w, paths)
      ensures !ok ==> Stopped(w, Now())
    {
      hide Progress;
      hide Pruned;
      hide Stopped;
      hide Synced;
      hide ReportOf;
      hide AllPaths;
      ghost var settled := Here();
      BaseIsKept(w, settled, paths, |paths|);
      ok := PruneSingleWriterConflicts();
      if !ok {
        PruningStops(w, settled, Now(), paths, ok);
        return;
      }
      ok := *;
      if !ok {
        PruningStops(w, settled, Now(), paths, true);
        return;
      }
      base := next;
      Finishes(w, settled, Now(), paths);
    }

    /** Reconciles this machine with the server. Either nothing happened and the planned
        deletions are the reason; or it stopped at some file operation, with the base
        unsaved; or it succeeded, and both trees, the base and the report are settled. If
        anything changed, the guard had let the whole plan through. */
    method Sync() returns (r: Outcome)
      requires Valid()
      modifies this, server
      ensures Valid()
      ensures r.Refused? ==>
                && Now() == old(Now())
                && r.plan == PlanOf(old(Now()), AllPaths(old(Now())))
                && PlanTotal(r.plan) > 10 && !allowBulkDelete
      ensures r.Succeeded? ==>
                && Synced(old(Now()), Now())
                && r.report == ReportOf(old(Now()), AllPaths(old(Now())))
      ensures r.Failed? ==> Stopped(old(Now()), Now())
      ensures r.Succeeded? || Now() != old(Now()) ==> Permitted(old(Now()), allowBulkDelete)
    {
      hide AllPaths;
      hide PlanOf;
      hide RealTree;
      hide ReportOf;
      hide Stopped;
      hide Progress;
      hide Synced;
      hide PlanTotal;
      hide Order.Sorted;
      ghost var w := Now();
      var fetched := *;
      if !fetched {
        NothingHappened(w);
        return Failed;
      }
      var paths := Order.Sorted(local.Keys + server.tree.Keys + base.Keys);
      PathsOf(w);
      var plan := PlannedDeletes(paths);
      if PlanTotal(plan) > MAX_SILENT_DELETES && !allowBulkDelete {
        return Refused(plan);
      }
      next := base;
      res := NOTHING;
      assert Now() == w;
      var ok := ReconcileAll(paths);
      if !ok {
        return Failed;
      }
      ok := PruneAndSave(w, paths);
      r := if ok then Succeeded(res) else Failed;
    }
  }

  /** A sync in progress: the world, the base being rebuilt and the report. */
  datatype Pass = Pass(world: World, next: map<Path, string>, res: Report)

  /** Settling one path changed nothing but its cell, and when it succeeded the path is
      done and the new base and the report say so. */
  ghost predicate Stepped(a: Pass, b: Pass, p: Path, ok: bool) {
    var c, d := CellAt(a.world, p), CellAt(b.world, p);
    && OnlyAt(a.world, b.world, p)
    && Partial(p, c, d)
    && (ok ==> Done(p, c, d) && SetTo(a.next, b.next, p, Settled(c)) && b.res == Reported(a.res, p, c))
  }

  /** Nothing but one path's cell differs, and there only as said. */
  ghost predicate OnlyAt(w: World, v: World, p: Path) {
    && v.base == w.base && v.legacy == w.legacy
    && forall q :: q != p ==> CellAt(v, q) == CellAt(w, q)
  }

  ghost predicate RemoteWritten(w: World, v: World, p: Path, checksum: string) {
    && OnlyAt(w, v, p)
    && CellAt(v, p) == CellAt(w, p).(remote := EntryAt(v.remote, p))
    && EntryAt(v.remote, p).checksum == checksum
  }

  ghost predicate LocalWritten(w: World, v: World, p: Path, checksum: string) {
    && OnlyAt(w, v, p)
    && CellAt(v, p) == CellAt(w, p).(local := EntryAt(v.local, p))
    && EntryAt(v.local, p).checksum == checksum
  }

  ghost predicate CopyWritten(w: World, v: World, p: Path, checksum: string) {
    OnlyAt(w, v, p) && CellAt(v, p) == CellAt(w, p).(parked := Some(checksum))
  }

  /** Looked up again, one path of a base gives a checksum, "" being no entry at all, and
      every other path gives what it did. */
  ghost predicate SetTo(before: map<Path, string>, after: map<Path, string>, p: Path, checksum: string) {
    && SumAt(after, p) == checksum && (p in after <==> checksum != "")
    && forall q :: q != p ==> CopyAt(after, q) == CopyAt(before, q)
  }

  /** Nothing has changed but that a losing edit, if there is one, is parked. */
  ghost predicate ParkedFirst(w: World, u: World, p: Path) {
    OnlyAt(w, u, p) && CellAt(u, p) == CellAt(w, p).(parked := ParkedAfter(p, CellAt(w, p)))
  }

  function WithNote(rep: Report, p: Path, c: Cell): Report {
    rep.(conflicts := AddIf(rep.conflicts, NoteOf(p, c), Diverged(c) && (Contested(c) ==> !SingleWriter(p))))
  }

  /** The local content was settled on, and has been sent. */
  lemma Pushed(a: Pass, u: World, b: Pass, p: Path)
    requires var c := CellAt(a.world, p);
             && ParkedFirst(a.world, u, p) && RemoteWritten(u, b.world, p, c.local.checksum)
             && Settled(c) == c.local.checksum && c.local.checksum != c.remote.checksum && c.local.checksum != ""
             && b.next == a.next[p := c.local.checksum]
             && b.res == WithNote(a.res.(uploaded := a.res.uploaded + [p]), p, c)
    ensures Stepped(a, b, p, true)
  {
    hide SingleWriter;
    hide Settled;
    hide Parks;
    hide Contested;
    hide Diverged;
  }

  /** The server's content was settled on, and has been fetched. */
  lemma Pulled(a: Pass, u: World, b: Pass, p: Path)
    requires var c := CellAt(a.world, p);
             && ParkedFirst(a.world, u, p) && LocalWritten(u, b.world, p, c.remote.checksum)
             && Settled(c) == c.remote.checksum && c.remote.checksum != c.local.checksum && c.remote.checksum != ""
             && b.next == a.next[p := c.remote.checksum]
             && b.res == WithNote(a.res.(downloaded := a.res.downloaded + [p]), p, c)
    ensures Stepped(a, b, p, true)
  {
    hide SingleWriter;
    hide Settled;
    hide Parks;
    hide Contested;
    hide Diverged;
  }

  lemma NothingReported(rep: Report, p: Path, c: Cell)
    requires c.local.checksum == c.remote.checksum
    ensures Reported(rep, p, c) == rep
  {
  }

  lemma CellParts(w: World, p: Path)
    ensures CellAt(w, p) == Cell(EntryAt(w.local, p), EntryAt(w.remote, p), SumAt(w.base, p), CopyAt(w.conflicts, p))
  {
  }

  /** Copies are gone only for single-writer paths, and for all of those once done. */
  ghost predicate Pruned(before: map<Path, string>, after: map<Path, string>, ok: bool) {
    forall p :: (CopyAt(after, p) == CopyAt(before, p) || (SingleWriter(p) && p !in after))
                && (ok && SingleWriter(p) ==> p !in after)
  }

  lemma NothingPruned(m: map<Path, string>)
    ensures Pruned(m, m, false)
  {
  }

  lemma PruningOneMore(before: map<Path, string>, m: map<Path, string>, page: Path)
    requires Pruned(before, m, false) && SingleWriter(page)
    ensures Pruned(before, m - {page}, false)
  {
    hide SingleWriter;
  }

  lemma AllPruned(before: map<Path, string>, m: map<Path, string>, pages: seq<Path>)
    requires Pruned(before, m, false)
    requires forall p :: p in before ==> p in pages
    requires forall k :: 0 <= k < |pages| && SingleWriter(pages[k]) ==> pages[k] !in m
    ensures Pruned(before, m, true)
  {
    hide SingleWriter;
    forall p | SingleWriter(p) ensures p !in m {
      if p in pages {
        var k :| 0 <= k < |pages| && pages[k] == p;
      } else {
        assert CopyAt(before, p) == None;
      }
    }
  }

  /** A checksum as a map's entry; no file is no entry. */
  function Held(checksum: string): Option<string> {
    if checksum == "" then None else Some(checksum)
  }

  /** The first i paths are done, the others are as they were. */
  ghost predicate Progress(w: World, at: Pass, paths: seq<Path>, i: nat) {
    && i <= |paths|
    && at.world.base == w.base && at.world.legacy == w.legacy
    && (forall p :: p in paths[..i] ==>
          Done(p, CellAt(w, p), CellAt(at.world, p))
          && CopyAt(at.next, p) == Held(Settled(CellAt(w, p))))
    && (forall p :: p !in paths[..i] ==>
          CellAt(at.world, p) == CellAt(w, p) && CopyAt(at.next, p) == CopyAt(w.base, p))
    && at.res == ReportOf(w, paths[..i])
  }

  lemma PathsOf(w: World)
    ensures AllPaths(w) == Order.Sorted(w.local.Keys + w.remote.Keys + w.base.Keys)
  {
    hide Order.Sorted;
  }

  lemma NothingHappened(w: World)
    requires RealTree(w.local) && RealTree(w.remote)
    ensures Stopped(w, w)
  {
  }

  lemma ProgressStarts(w: World, at: Pass, paths: seq<Path>)
    requires at == Pass(w, w.base, NOTHING)
    ensures Progress(w, at, paths, 0)
  {
  }

  lemma BaseIsKept(w: World, at: Pass, paths: seq<Path>, i: nat)
    requires Progress(w, at, paths, i)
    ensures at.world.base == w.base
  {
  }

  lemma ProgressSteps(w: World, a: Pass, b: Pass, paths: seq<Path>, i: nat)
    requires Order.Ascending(paths) && i < |paths|
    requires Progress(w, a, paths, i) && Stepped(a, b, paths[i], true)
    ensures Progress(w, b, paths, i + 1)
  {
    hide Settled;
    hide Done;
    hide CellAt;
    hide Reported;
    hide Order.Less;
    var p := paths[i];
    NotYetSettled(paths, i);
    assert paths[..i + 1] == paths[..i] + [p];
    assert paths[..i + 1][..i] == paths[..i];
    assert CellAt(a.world, p) == CellAt(w, p);
    NewBaseSteps(a.next, b.next, p, Settled(CellAt(w, p)));
    forall q | q != p ensures CellAt(b.world, q) == CellAt(a.world, q) {
    }
  }

  lemma NewBaseSteps(before: map<Path, string>, after: map<Path, string>, p: Path, checksum: string)
    requires SetTo(before, after, p, checksum)
    ensures CopyAt(after, p) == Held(checksum)
    ensures forall q :: q != p ==> CopyAt(after, q) == CopyAt(before, q)
  {
  }

  lemma NotYetSettled(paths: seq<Path>, i: nat)
    requires Order.Ascending(paths) && i < |paths|
    ensures paths[i] !in paths[..i]
  {
    if paths[i] in paths[..i] {
      var k :| 0 <= k < i && paths[k] == paths[i];
      Order.LessIsAsymmetric(paths[k], paths[i]);
    }
  }

  lemma ProgressStops(w: World, a: Pass, b: Pass, paths: seq<Path>, i: nat)
    requires Order.Ascending(paths) && i < |paths|
    requires Progress(w, a, paths, i) && Stepped(a, b, paths[i], false)
    requires RealTree(b.world.local) && RealTree(b.world.remote)
    ensures Stopped(w, b.world)
  {
    hide Settled;
    hide Done;
    hide CellAt;
    hide ReportOf;
    NotYetSettled(paths, i);
    forall p ensures StoppedAt(p, CellAt(w, p), CellAt(b.world, p)) {
      if p != paths[i] {
        assert CellAt(b.world, p) == CellAt(a.world, p);
      }
    }
  }

  /** Pruning, all or part of it, after every path is done. */
  ghost predicate PrunedFrom(a: World, b: World, ok: bool) {
    && b.local == a.local && b.remote == a.remote
    && Pruned(a.conflicts, b.conflicts, ok) && Pruned(a.legacy, b.legacy, ok)
  }

  lemma PruningStops(w: World, at: Pass, v: World, paths: seq<Path>, ok: bool)
    requires paths == AllPaths(w) && Progress(w, at, paths, |paths|)
    requires RealTree(v.local) && RealTree(v.remote)
    requires v.base == w.base && PrunedFrom(at.world, v, ok)
    ensures Stopped(w, v)
  {
    hide Settled;
    hide SidesSettle;
    hide ReportOf;
    hide SingleWriter;
    hide AllPaths;
    hide Contested;
    hide Loser;
    assert paths[..|paths|] == paths;
    forall p ensures StoppedAt(p, CellAt(w, p), CellAt(v, p)) {
      assert Partial(p, CellAt(w, p), CellAt(at.world, p));
      PrunedCell(at.world, v, p, ok);
    }
  }

  lemma PrunedCell(a: World, b: World, p: Path, ok: bool)
    requires PrunedFrom(a, b, ok) && b.base == a.base
    ensures CellAt(b, p) == CellAt(a, p) || (SingleWriter(p) && CellAt(b, p) == CellAt(a, p).(parked := None))
    ensures CopyAt(b.legacy, p) == CopyAt(a.legacy, p) || (SingleWriter(p) && p !in b.legacy)
    ensures ok && SingleWriter(p) ==> p !in b.conflicts && p !in b.legacy
  {
    hide SingleWriter;
  }

  lemma Finishes(w: World, at: Pass, v: World, paths: seq<Path>)
    requires paths == AllPaths(w) && Progress(w, at, paths, |paths|)
    requires RealTree(v.local) && RealTree(v.remote)
    requires v.base == at.next && PrunedFrom(at.world, v, true)
    ensures Synced(w, v) && at.res == ReportOf(w, paths)
  {
    hide Settled;
    hide SidesSettle;
    hide ReportOf;
    hide SingleWriter;
    hide AllPaths;
    hide Parks;
    hide Pruned;
    assert paths[..|paths|] == paths;
    var u := v.(base := w.base);
    forall p
      ensures SidesSettle(CellAt(w, p), CellAt(v, p))
      ensures CopyAt(v.conflicts, p) == if SingleWriter(p) then None else ParkedAfter(p, CellAt(w, p))
      ensures CopyAt(v.legacy, p) == if SingleWriter(p) then None else CopyAt(w.legacy, p)
      ensures CopyAt(v.base, p) == Held(EntryAt(v.local, p).checksum)
    {
      PrunedCell(at.world, u, p, true);
      if p !in paths {
        UnknownPathsAreSettled(w, p);
      }
      SidesOnly(w, at.world, v, p);
    }
    BaseIsContents(v.base, v.local);
  }

  /** Whether a path's sides are settled is read off the two trees alone. */
  lemma SidesOnly(w: World, a: World, b: World, p: Path)
    requires SidesSettle(CellAt(w, p), CellAt(a, p))
    requires a.local == b.local && a.remote == b.remote
    ensures SidesSettle(CellAt(w, p), CellAt(b, p)) && EntryAt(b.local, p).checksum == Settled(CellAt(w, p))
  {
    hide Settled;
  }

  lemma BaseIsContents(base: map<Path, string>, local: Tree)
    requires RealTree(local)
    requires forall p :: CopyAt(base, p) == Held(EntryAt(local, p).checksum)
    ensures base == Contents(local)
  {
    forall p ensures p in base <==> p in local {
      assert CopyAt(base, p) == Held(EntryAt(local, p).checksum);
    }
    forall p | p in base ensures base[p] == local[p].checksum {
      assert CopyAt(base, p) == Held(EntryAt(local, p).checksum);
    }
  }
}
