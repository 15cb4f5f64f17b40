/** What one sync does to one path, and to a whole pair of trees (internal/sync/sync.go,
    conflict.go, singlewriter.go). A file is its checksum and time; "" is no file. */
module SyncRules {
  import opened Wrappers
  import Order

  type Path = string

  /** A time that does not parse is None. */
  datatype FileEntry = FileEntry(checksum: string, modTime: Option<int>)

  type Tree = map<Path, FileEntry>

  const NO_FILE := FileEntry("", None)

  const MAX_SILENT_DELETES := 10

  /** Looking a path up in a map of entries, or of checksums, that may lack it. */
  function EntryAt(t: Tree, p: Path): FileEntry {
    if p in t then t[p] else NO_FILE
  }

  function SumAt(m: map<Path, string>, p: Path): string {
    if p in m then m[p] else ""
  }

  function CopyAt(m: map<Path, string>, p: Path): Option<string> {
    if p in m then Some(m[p]) else None
  }

  /** Every file in a tree has a checksum. */
  ghost predicate RealTree(t: Tree) {
    forall p :: p in t ==> t[p].checksum != ""
  }

  /** A tree as its contents, times left out. */
  function Contents(t: Tree): map<Path, string> {
    map p | p in t :: t[p].checksum
  }

  // ---------------------------------------------------------------- the source's questions

  /** A path under usage/<machine>/, which only that machine writes. */
  predicate SingleWriter(p: Path) {
    |p| > 6 && p[..6] == "usage/" && '/' in p[6..]
  }

  /** The newer copy wins; with times equal or unreadable, the larger checksum. */
  predicate LocalWins(local: FileEntry, remote: FileEntry) {
    if local.modTime.Some? && remote.modTime.Some? && local.modTime.value != remote.modTime.value then
      local.modTime.value > remote.modTime.value
    else
      !Order.Less(local.checksum, remote.checksum)
  }

  predicate DeletesLocal(local: FileEntry, remote: FileEntry, base: string) {
    local.checksum == base && remote.checksum != base && remote.checksum == ""
  }

  predicate DeletesRemote(local: FileEntry, remote: FileEntry, base: string) {
    remote.checksum == base && local.checksum != base && local.checksum == ""
  }

  // ---------------------------------------------------------------- one path

  /** All one path is to a sync: both sides, the checksum of the last sync, and the
      losing copy kept under .conflicts/, if any. */
  datatype Cell = Cell(local: FileEntry, remote: FileEntry, base: string, parked: Option<string>)

  /** The checksum both sides end with: the side that moved; of two that moved apart,
      the one with content; of two edits, the winner. */
  function Settled(c: Cell): string {
    var l, r := c.local.checksum, c.remote.checksum;
    if l == c.base then r
    else if r == c.base then l
    else if l == "" then r
    else if r == "" then l
    else if LocalWins(c.local, c.remote) then l
    else r
  }

  /** Both sides moved, and not to the same content. */
  predicate Diverged(c: Cell) {
    c.local.checksum != c.base && c.remote.checksum != c.base && c.local.checksum != c.remote.checksum
  }

  /** An edit against an edit. */
  predicate Contested(c: Cell) {
    Diverged(c) && c.local.checksum != "" && c.remote.checksum != ""
  }

  predicate Parks(p: Path, c: Cell) {
    Contested(c) && !SingleWriter(p)
  }

  function Loser(c: Cell): string {
    if LocalWins(c.local, c.remote) then c.remote.checksum else c.local.checksum
  }

  /** The copy kept of a path once it is settled. */
  function ParkedAfter(p: Path, c: Cell): Option<string> {
    if Parks(p, c) then Some(Loser(c)) else c.parked
  }

  /** Both sides hold the settled content, and a side that already held it was not
      written. */
  ghost predicate SidesSettle(c: Cell, d: Cell) {
    && d.local.checksum == Settled(c) == d.remote.checksum
    && (c.local.checksum == Settled(c) ==> d.local == c.local)
    && (c.remote.checksum == Settled(c) ==> d.remote == c.remote)
  }

  /** The path is settled and the losing edit, if there was one, is parked. */
  ghost predicate Done(p: Path, c: Cell, d: Cell) {
    SidesSettle(c, d) && d.base == c.base && d.parked == ParkedAfter(p, c)
  }

  /** Where settling one path can be stopped: before anything, once the losing edit is
      parked, or at the end. */
  ghost predicate Partial(p: Path, c: Cell, d: Cell) {
    d == c || d == c.(parked := ParkedAfter(p, c)) || Done(p, c, d)
  }

  // ---------------------------------------------------------------- what is reported

  datatype Note = EditedOnBoth(path: Path) | KeptServerCopy(path: Path) | KeptLocalCopy(path: Path)

  datatype Report = Report(
    uploaded: seq<Path>,
    downloaded: seq<Path>,
    deletedLocal: seq<Path>,
    deletedRemote: seq<Path>,
    conflicts: seq<Note>)

  const NOTHING := Report([], [], [], [], [])

  function AddIf<T>(list: seq<T>, x: T, holds: bool): seq<T> {
    if holds then list + [x] else list
  }

  /** The note a path that diverged calls for; none for a single-writer path with a copy
      on both sides. */
  function NoteOf(p: Path, c: Cell): Note {
    if c.local.checksum == "" then KeptServerCopy(p)
    else if c.remote.checksum == "" then KeptLocalCopy(p)
    else EditedOnBoth(p)
  }

  /** What settling one path adds to the report: a write to each side that does not yet
      hold the settled content, and a note when the sides diverged. */
  function Reported(rep: Report, p: Path, c: Cell): Report {
    var s := Settled(c);
    Report(
      AddIf(rep.uploaded, p, c.remote.checksum != s && s != ""),
      AddIf(rep.downloaded, p, c.local.checksum != s && s != ""),
      AddIf(rep.deletedLocal, p, c.local.checksum != s && s == ""),
      AddIf(rep.deletedRemote, p, c.remote.checksum != s && s == ""),
      AddIf(rep.conflicts, NoteOf(p, c), Diverged(c) && (Contested(c) ==> !SingleWriter(p))))
  }

  // ---------------------------------------------------------------- a machine and the server

  /** One machine's data directory and the server's tree. `conflicts` is the copies under
      .conflicts/, `legacy` those in the older sibling layout. */
  datatype World = World(
    local: Tree,
    remote: Tree,
    base: map<Path, string>,
    conflicts: map<Path, string>,
    legacy: map<Path, string>)

  function CellAt(w: World, p: Path): Cell {
    Cell(EntryAt(w.local, p), EntryAt(w.remote, p), SumAt(w.base, p), CopyAt(w.conflicts, p))
  }

  function AllPaths(w: World): seq<Path> {
    Order.Sorted(w.local.Keys + w.remote.Keys + w.base.Keys)
  }

  function ReportOf(w: World, paths: seq<Path>): Report {
    if paths == [] then NOTHING
    else Reported(ReportOf(w, paths[..|paths| - 1]), paths[|paths| - 1], CellAt(w, paths[|paths| - 1]))
  }

  /** A path no side and no base knows has nothing to settle. */
  lemma UnknownPathsAreSettled(w: World, p: Path)
    requires p !in AllPaths(w)
    ensures var c := CellAt(w, p); Settled(c) == "" && SidesSettle(c, c) && !Parks(p, c)
    ensures p !in w.local && p !in w.remote && p !in w.base
  {
  }

  /** A successful sync took one world to another: on every path both sides and the base
      hold the settled content, the losing edit of a contested path is parked, and the
      copies kept for single-writer paths are gone. */
  ghost predicate Synced(w: World, v: World) {
    && RealTree(v.local) && RealTree(v.remote)
    && (forall p :: SidesSettle(CellAt(w, p), CellAt(v, p)))
    && v.base == Contents(v.local)
    && (forall p :: CopyAt(v.conflicts, p) == if SingleWriter(p) then None else ParkedAfter(p, CellAt(w, p)))
    && (forall p :: CopyAt(v.legacy, p) == if SingleWriter(p) then None else CopyAt(w.legacy, p))
  }

  /** How a sync that stopped part way left one path; a copy kept for a single-writer
      path may be gone. */
  ghost predicate StoppedAt(p: Path, c: Cell, d: Cell) {
    Partial(p, c, d) || (SingleWriter(p) && d.parked == None && Partial(p, c, d.(parked := c.parked)))
  }

  /** A sync that stopped part way, before the base was saved. */
  ghost predicate Stopped(w: World, v: World) {
    && RealTree(v.local) && RealTree(v.remote)
    && v.base == w.base
    && (forall p :: StoppedAt(p, CellAt(w, p), CellAt(v, p)))
    && (forall p :: CopyAt(v.legacy, p) == CopyAt(w.legacy, p) || (SingleWriter(p) && p !in v.legacy))
  }
}
