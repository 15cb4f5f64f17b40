/** Re-embedding one page, and deciding whether a page needs it
    (internal/server/embed_worker.go, embed_reconcile.go). Embedding is a function of the
    text that may fail; the content hash is taken to be injective and never empty. */
module IndexWorker {
  import opened MemoryChunks
  import opened MemoryPages
  import opened MemoryStore
  import Decimal
  import Lines

  datatype Backend = Backend(rd: Reading, hash: string -> string, embed: string -> Vector)

  ghost predicate GoodHash(bk: Backend) {
    && (forall a, b :: bk.hash(a) == bk.hash(b) ==> a == b)
    && (forall a :: bk.hash(a) != "")
  }

  /** What reading the page's file gives. */
  datatype FileRead = Missing | Unreadable | Found(page: Page)

  function ScopedKey(scope: string, key: string): string {
    scope + "|" + key
  }

  function ChunkHash(bk: Backend, c: Chunk): string {
    bk.hash(Text(bk.rd, c))
  }

  function KeyIn(scope: string, c: Chunk): string {
    ScopedKey(scope, ChunkKey(c))
  }

  function HashAt(hashes: map<string, string>, key: string): string {
    if key in hashes then hashes[key] else ""
  }

  /** The entry a chunk is stored as. */
  function FreshEntry(bk: Backend, scope: string, c: Chunk): Entry {
    Entry(KeyIn(scope, c), ScopedKey(scope, c.path), c.heading, c.line, ChunkHash(bk, c), bk.embed(Text(bk.rd, c)))
  }

  function FreshEntries(bk: Backend, scope: string, chunks: seq<Chunk>): (r: seq<Entry>)
    ensures |r| == |chunks|
    ensures forall i :: 0 <= i < |chunks| ==> r[i] == FreshEntry(bk, scope, chunks[i])
  {
    seq(|chunks|, i requires 0 <= i < |chunks| => FreshEntry(bk, scope, chunks[i]))
  }

  /** The reference: drop the page and index all of its chunks afresh. */
  function Rebuilt(bk: Backend, view: View, scope: string, path: string, chunks: seq<Chunk>): View {
    Upserted(WithoutPaths(view, {ScopedKey(scope, path)}), FreshEntries(bk, scope, chunks))
  }

  // ---------------------------------------------------------------- what a store may hold

  /** An entry is filed under its path and line, and its vector belongs to the text its
      hash is of. */
  ghost predicate SoundEntry(bk: Backend, e: Entry) {
    && e.key == e.path + "#" + Decimal.Digits(e.line)
    && exists text :: e.hash == bk.hash(text) && e.vector == bk.embed(text)
  }

  ghost predicate Sound(bk: Backend, view: View) {
    forall k :: k in view ==> view[k].key == k && SoundEntry(bk, view[k])
  }

  lemma FreshEntriesAreSound(bk: Backend, scope: string, c: Chunk)
    ensures SoundEntry(bk, FreshEntry(bk, scope, c))
  {
    var e := FreshEntry(bk, scope, c);
    assert e.hash == bk.hash(Text(bk.rd, c)) && e.vector == bk.embed(Text(bk.rd, c));
    assert e.key == e.path + "#" + Decimal.Digits(e.line);
  }

  // ---------------------------------------------------------------- changed chunks

  function ChangedOf(bk: Backend, scope: string, chunks: seq<Chunk>, hashes: map<string, string>): seq<Chunk> {
    if chunks == [] then []
    else
      var n := |chunks| - 1;
      var before := ChangedOf(bk, scope, chunks[..n], hashes);
      if HashAt(hashes, KeyIn(scope, chunks[n])) != ChunkHash(bk, chunks[n]) then before + [chunks[n]] else before
  }

  /** A stored key of the page that none of its chunks has any more. */
  ghost predicate HasLeftover(scope: string, path: string, chunks: seq<Chunk>, hashes: map<string, string>) {
    exists k :: k in hashes && HasPrefix(k, ScopedKey(scope, path) + "#")
                && forall i :: 0 <= i < |chunks| ==> KeyIn(scope, chunks[i]) != k
  }

  /** The chunks whose stored hash differs, unless a leftover key calls for a rebuild. */
  method ChangedChunks(bk: Backend, chunks: seq<Chunk>, hashes: map<string, string>, scope: string, path: string)
    returns (changed: seq<Chunk>, rebuild: bool)
    ensures rebuild <==> HasLeftover(scope, path, chunks, hashes)
    ensures !rebuild ==> changed == ChangedOf(bk, scope, chunks, hashes)
  {
    hide ChunkHash;
    hide KeyIn;
    hide HasPrefix;
    var live: set<string> := {};
    changed := [];
    for i := 0 to |chunks|
      invariant live == set j | 0 <= j < i :: KeyIn(scope, chunks[j])
      invariant changed == ChangedOf(bk, scope, chunks[..i], hashes)
    {
      var c := chunks[i];
      assert chunks[..i + 1][..i] == chunks[..i];
      var key := KeyIn(scope, c);
      live := live + {key};
      if HashAt(hashes, key) != ChunkHash(bk, c) {
        changed := changed + [c];
      }
    }
    assert chunks[..|chunks|] == chunks;
    var prefix := ScopedKey(scope, path) + "#";
    var keys := hashes.Keys;
    while keys != {}
      invariant keys <= hashes.Keys
      invariant forall k :: k in hashes && k !in keys && HasPrefix(k, prefix) ==> k in live
    {
      var key :| key in keys;
      if HasPrefix(key, prefix) && key !in live {
        return [], true;
      }
      keys := keys - {key};
    }
    rebuild := false;
  }

  /** Some chunk's stored hash is absent or not the chunk's own. */
  ghost predicate Outdated(bk: Backend, scope: string, chunks: seq<Chunk>, hashes: map<string, string>) {
    exists i :: 0 <= i < |chunks| && HashAt(hashes, KeyIn(scope, chunks[i])) != ChunkHash(bk, chunks[i])
  }

  method PageNeedsIndexing(bk: Backend, scope: string, read: FileRead, hashes: map<string, string>)
    returns (needed: bool)
    ensures needed <==> read.Found? && Outdated(bk, scope, ChunksOf(bk.rd, read.page), hashes)
  {
    hide ChunkHash;
    hide KeyIn;
    hide ChunksOf;
    if !read.Found? {
      return false;
    }
    var chunks := Chunks(bk.rd, read.page);
    for i := 0 to |chunks|
      invariant forall j :: 0 <= j < i ==> HashAt(hashes, KeyIn(scope, chunks[j])) == ChunkHash(bk, chunks[j])
    {
      if HashAt(hashes, KeyIn(scope, chunks[i])) != ChunkHash(bk, chunks[i]) {
        return true;
      }
    }
    needed := false;
  }

  // ---------------------------------------------------------------- process

  /** Asks the model for every text at once; it may fail or answer short. */
  method EmbedAndUpsert(bk: Backend, store: FlatStore, scope: string, chunks: seq<Chunk>) returns (ok: bool)
    requires store.Valid()
    modifies store
    ensures store.Valid()
    ensures store.View() == Upserted(old(store.View()), FreshEntries(bk, scope, chunks))
            || (!ok && store.View() == old(store.View()))
  {
    hide ChunkHash;
    hide KeyIn;
    var answered := *;
    if !answered {
      return false;
    }
    var vectors := seq(|chunks|, i requires 0 <= i < |chunks| => bk.embed(Text(bk.rd, chunks[i])));
    var short := *;
    if short || |vectors| != |chunks| {
      return false;
    }
    var entries: seq<Entry> := [];
    for i := 0 to |chunks|
      invariant |entries| == i
      invariant forall j :: 0 <= j < i ==> entries[j] == FreshEntry(bk, scope, chunks[j])
      invariant store.Valid() && store.View() == old(store.View())
    {
      var c := chunks[i];
      entries := entries + [Entry(KeyIn(scope, c), ScopedKey(scope, c.path), c.heading, c.line, ChunkHash(bk, c),
                                  vectors[i])];
    }
    assert entries == FreshEntries(bk, scope, chunks);
    ok := store.Upsert(entries);
  }

  /** What re-embedding a page leaves: the page rebuilt when a stored key of it is left
      over, and otherwise what was there with the changed chunks put in. */
  ghost function Processed(bk: Backend, view: View, scope: string, path: string, chunks: seq<Chunk>): View {
    if HasLeftover(scope, path, chunks, HashesOf(view)) then Rebuilt(bk, view, scope, path, chunks)
    else Upserted(view, FreshEntries(bk, scope, ChangedOf(bk, scope, chunks, HashesOf(view))))
  }

  /** The same keys, each with the same path, line, hash and vector. */
  ghost predicate AgreeButForHeadings(a: View, b: View) {
    a.Keys == b.Keys && forall k :: k in a ==> a[k].(heading := "") == b[k].(heading := "")
  }

  /** The entry a chunk leaves in place, if it leaves one, has the chunk's heading. */
  ghost predicate HeadingKept(bk: Backend, view: View, scope: string, c: Chunk) {
    var k := KeyIn(scope, c);
    k in view && view[k].hash == ChunkHash(bk, c) ==> view[k].heading == c.heading
  }

  ghost predicate HeadingsKept(bk: Backend, view: View, scope: string, chunks: seq<Chunk>) {
    forall i :: 0 <= i < |chunks| ==> HeadingKept(bk, view, scope, chunks[i])
  }

  /** Every entry outside one path is as it was, and no other has appeared there. */
  ghost predicate OthersUntouched(before: View, after: View, scoped: string) {
    && (forall k :: k in before && before[k].path != scoped ==> k in after && after[k] == before[k])
    && (forall k :: k in after && after[k].path != scoped ==> k in before && before[k].path != scoped)
  }

  /** The path begins with the tree's name and the separator. */
  predicate InTree(tree: string, path: string) {
    tree + "|" <= path
  }

  /** Every entry of a tree is as it was, and none has appeared. */
  ghost predicate TreeUntouched(before: View, after: View, tree: string) {
    && (forall k :: k in before && InTree(tree, before[k].path) ==> k in after && after[k] == before[k])
    && (forall k :: k in after && InTree(tree, after[k].path) ==> k in before && before[k] == after[k])
  }

  /** Trees whose names hold no separator never share a key, whatever their pages' paths. */
  lemma TreesNeverMeet(s: string, a: string, t: string, b: string)
    requires '|' !in s && '|' !in t && ScopedKey(s, a) == ScopedKey(t, b)
    ensures s == t && a == b
  {
    var key := ScopedKey(s, a);
    assert key[|s|] == '|' && key[|t|] == '|';
    assert forall i :: 0 <= i < |s| ==> key[i] == s[i] != '|';
    assert forall i :: 0 <= i < |t| ==> key[i] == t[i] != '|';
    assert s == key[..|s|] && t == key[..|t|];
    assert a == key[|s| + 1..] && b == key[|t| + 1..];
  }

  /** The input: with a separator in a tree's name, two trees share a key. */
  lemma SeparatorsShareAKey()
    ensures ScopedKey("a", "b|c") == ScopedKey("a|b", "c")
  {
    assert "a" + "|" + "b|c" == "a|b" + "|" + "c";
  }

  lemma OtherTreeUntouched(before: View, after: View, scope: string, path: string, tree: string)
    requires OthersUntouched(before, after, ScopedKey(scope, path))
    requires tree != scope && '|' !in tree && '|' !in scope
    ensures TreeUntouched(before, after, tree)
  {
    forall p | InTree(tree, p) ensures p != ScopedKey(scope, path) {
      var rest := p[|tree| + 1..];
      assert p == tree + "|" + rest;
      if ScopedKey(tree, rest) == ScopedKey(scope, path) {
        TreesNeverMeet(tree, rest, scope, path);
      }
    }
    hide ScopedKey;
  }

  lemma OtherTreesUntouched(before: View, scope: string, path: string)
    ensures forall after, tree ::
              OthersUntouched(before, after, ScopedKey(scope, path)) && tree != scope && '|' !in tree && '|' !in scope
              ==> TreeUntouched(before, after, tree)
  {
    hide OthersUntouched;
    hide TreeUntouched;
    forall after, tree | OthersUntouched(before, after, ScopedKey(scope, path))
                         && tree != scope && '|' !in tree && '|' !in scope
      ensures TreeUntouched(before, after, tree)
    {
      OtherTreeUntouched(before, after, scope, path, tree);
    }
  }

  /** Re-embeds one page. On success the store is what dropping the page and indexing it
      again would give, headings aside, and to the last field when no unchanged chunk has
      come under another heading; whatever happens, other pages' entries stay and the
      store stays sound. */
  method Process(bk: Backend, store: FlatStore, scope: string, path: string, read: FileRead) returns (ok: bool)
    requires GoodHash(bk) && store.Valid() && Sound(bk, store.View())
    requires read.Found? ==> read.page.path == path
    modifies store
    ensures store.Valid() && Sound(bk, store.View())
    ensures OthersUntouched(old(store.View()), store.View(), ScopedKey(scope, path))
    ensures forall tree :: tree != scope && '|' !in tree && '|' !in scope ==>
              TreeUntouched(old(store.View()), store.View(), tree)
    ensures ok && read.Found? ==>
              AgreeButForHeadings(store.View(), Rebuilt(bk, old(store.View()), scope, path, ChunksOf(bk.rd, read.page)))
    ensures ok && read.Found? && HeadingsKept(bk, old(store.View()), scope, ChunksOf(bk.rd, read.page)) ==>
              store.View() == Rebuilt(bk, old(store.View()), scope, path, ChunksOf(bk.rd, read.page))
    ensures ok && read.Found? ==>
              store.View() == Processed(bk, old(store.View()), scope, path, ChunksOf(bk.rd, read.page))
    ensures !ok && read.Found? ==>
              || Outdated(bk, scope, ChunksOf(bk.rd, read.page), HashesOf(store.View()))
              || AgreeButForHeadings(store.View(),
                                     Rebuilt(bk, old(store.View()), scope, path, ChunksOf(bk.rd, read.page)))
    ensures ok && read.Missing? ==> store.View() == WithoutPaths(old(store.View()), {ScopedKey(scope, path)})
    ensures read.Unreadable? ==> !ok && store.View() == old(store.View())
  {
    hide ChunksOf;
    hide Sound;
    hide GoodHash;
    hide HasLeftover;
    hide OthersUntouched;
    hide TreeUntouched;
    hide ScopedKey;
    hide AgreeButForHeadings;
    hide HeadingsKept;
    hide Outdated;
    hide Upserted;
    hide WithoutPaths;
    ghost var view := store.View();
    ghost var scoped := ScopedKey(scope, path);
    OtherTreesUntouched(view, scope, path);
    NothingTouched(view, scoped);
    DroppingTouchesOnePath(bk, view, scoped);
    assert (set p | p in [scoped]) == {scoped};
    if read.Unreadable? {
      return false;
    }
    if read.Missing? {
      ok := store.DeletePaths([ScopedKey(scope, path)]);
      return;
    }
    var chunks := Chunks(bk.rd, read.page);
    FreshKeysApart(bk, scope, read.page);
    RebuildingTouchesOnePath(bk, view, scope, path, chunks);
    var hashes := store.Hashes();
    var changed, rebuild := ChangedChunks(bk, chunks, hashes, scope, path);
    if rebuild {
      DroppedPagesAreOutdated(bk, view, scope, path, chunks);
      var dropped := store.DeletePaths([ScopedKey(scope, path)]);
      if !dropped {
        return false;
      }
      changed := chunks;
      if |changed| == 0 {
        UpsertingNothing(WithoutPaths(view, {scoped}), bk, scope);
        ItselfAgrees(store.View());
        return true;
      }
      ItselfAgrees(Rebuilt(bk, view, scope, path, chunks));
      ok := EmbedAndUpsert(bk, store, scope, changed);
      return;
    }
    IncrementalRefinesRebuild(bk, view, scope, path, chunks);
    HeadingsDecideExactness(bk, view, scope, path, chunks);
    if |changed| == 0 {
      UpsertingNothing(view, bk, scope);
      return true;
    }
    ChangedPagesAreOutdated(bk, scope, chunks, hashes);
    ok := EmbedAndUpsert(bk, store, scope, changed);
  }

  /** A page dropped and not indexed again is missed, unless it has nothing to index. */
  lemma DroppedPagesAreOutdated(bk: Backend, view: View, scope: string, path: string, chunks: seq<Chunk>)
    requires GoodHash(bk) && Sound(bk, view) && PageChunks(scope, path, chunks)
    ensures var left := WithoutPaths(view, {ScopedKey(scope, path)});
            || Outdated(bk, scope, chunks, HashesOf(left))
            || AgreeButForHeadings(left, Rebuilt(bk, view, scope, path, chunks))
  {
    hide KeyIn;
    if chunks == [] {
      UpsertingNothing(WithoutPaths(view, {ScopedKey(scope, path)}), bk, scope);
    } else {
      hide Sound;
      var left := WithoutPaths(view, {ScopedKey(scope, path)});
      if KeyIn(scope, chunks[0]) in view {
        KeysTellPaths(bk, view, scope, chunks[0]);
      }
      assert KeyIn(scope, chunks[0]) !in left;
      assert bk.hash(Text(bk.rd, chunks[0])) != "";
      assert HashAt(HashesOf(left), KeyIn(scope, chunks[0])) != ChunkHash(bk, chunks[0]);
    }
  }

  /** A page with something to embed is missed until it has been. */
  lemma ChangedPagesAreOutdated(bk: Backend, scope: string, chunks: seq<Chunk>, hashes: map<string, string>)
    requires ChangedOf(bk, scope, chunks, hashes) != []
    ensures Outdated(bk, scope, chunks, hashes)
  {
    ChangedAreChunks(bk, scope, chunks, hashes);
    hide KeyIn;
    hide ChunkHash;
    hide ChangedOf;
    var c := ChangedOf(bk, scope, chunks, hashes)[0];
    assert c in chunks;
    var i :| 0 <= i < |chunks| && chunks[i] == c;
  }

  lemma NothingTouched(view: View, scoped: string)
    ensures OthersUntouched(view, view, scoped)
  {
  }

  lemma ItselfAgrees(view: View)
    ensures AgreeButForHeadings(view, view)
  {
  }

  lemma UpsertingNothing(view: View, bk: Backend, scope: string)
    ensures Upserted(view, FreshEntries(bk, scope, [])) == view
  {
  }

  lemma DroppingTouchesOnePath(bk: Backend, view: View, scoped: string)
    requires Sound(bk, view)
    ensures Sound(bk, WithoutPaths(view, {scoped})) && OthersUntouched(view, WithoutPaths(view, {scoped}), scoped)
  {
    hide SoundEntry;
  }

  /** Chunks all of one path, no two with the same key. */
  ghost predicate PageChunks(scope: string, path: string, chunks: seq<Chunk>) {
    && (forall i :: 0 <= i < |chunks| ==> chunks[i].path == path)
    && (forall i, j :: 0 <= i < j < |chunks| ==> KeyIn(scope, chunks[i]) != KeyIn(scope, chunks[j]))
  }

  lemma FreshKeysApart(bk: Backend, scope: string, page: Page)
    ensures PageChunks(scope, page.path, ChunksOf(bk.rd, page))
  {
    hide ChunksFrom;
    hide ChunkKey;
    var chunks := ChunksOf(bk.rd, page);
    ChunkLinesAscend(bk.rd, page);
    forall i, j | 0 <= i < j < |chunks| ensures KeyIn(scope, chunks[i]) != KeyIn(scope, chunks[j]) {
      ChunkKeysNeverCollide(bk.rd, page, i, j);
      ScopingKeepsApart(scope, ChunkKey(chunks[i]), ChunkKey(chunks[j]));
    }
  }

  lemma ScopingKeepsApart(scope: string, a: string, b: string)
    requires a != b
    ensures ScopedKey(scope, a) != ScopedKey(scope, b)
  {
    var prefix := scope + "|";
    assert (prefix + a)[|prefix|..] == a && (prefix + b)[|prefix|..] == b;
  }

  lemma FreshApart(bk: Backend, scope: string, path: string, chunks: seq<Chunk>)
    requires PageChunks(scope, path, chunks)
    ensures KeysApart(FreshEntries(bk, scope, chunks))
    ensures forall k :: HasKey(FreshEntries(bk, scope, chunks), k) <==>
              exists i :: 0 <= i < |chunks| && KeyIn(scope, chunks[i]) == k
  {
    hide KeyIn;
    hide ChunkHash;
    var es := FreshEntries(bk, scope, chunks);
    forall k | exists i :: 0 <= i < |chunks| && KeyIn(scope, chunks[i]) == k ensures HasKey(es, k) {
      var i :| 0 <= i < |chunks| && KeyIn(scope, chunks[i]) == k;
      assert es[i].key == k;
    }
  }

  /** An entry under one of the page's keys is at the page's path. */
  lemma KeysTellPaths(bk: Backend, view: View, scope: string, c: Chunk)
    requires Sound(bk, view) && KeyIn(scope, c) in view
    ensures view[KeyIn(scope, c)].path == ScopedKey(scope, c.path) && view[KeyIn(scope, c)].line == c.line
  {
    var e := view[KeyIn(scope, c)];
    assert e.key == e.path + "#" + Decimal.Digits(e.line);
    assert KeyIn(scope, c) == ScopedKey(scope, c.path) + "#" + Decimal.Digits(c.line);
    KeysAreExact(e.path, e.line, ScopedKey(scope, c.path), c.line);
  }

  lemma UpsertingTouchesOnePath(bk: Backend, view: View, scope: string, path: string, chunks: seq<Chunk>)
    requires Sound(bk, view) && PageChunks(scope, path, chunks)
    ensures var after := Upserted(view, FreshEntries(bk, scope, chunks));
            Sound(bk, after) && OthersUntouched(view, after, ScopedKey(scope, path))
  {
    hide SoundEntry;
    hide Upserted;
    hide KeyIn;
    hide ChunkHash;
    var es := FreshEntries(bk, scope, chunks);
    var after := Upserted(view, es);
    FreshApart(bk, scope, path, chunks);
    UpsertedExactly(view, es);
    forall i | 0 <= i < |es|
      ensures SoundEntry(bk, es[i]) && es[i].path == ScopedKey(scope, path)
      ensures es[i].key in view ==> view[es[i].key].path == ScopedKey(scope, path)
    {
      FreshEntriesAreSound(bk, scope, chunks[i]);
      if es[i].key in view { KeysTellPaths(bk, view, scope, chunks[i]); }
    }
    forall k | k in after
      ensures after[k].key == k && SoundEntry(bk, after[k])
      ensures after[k].path != ScopedKey(scope, path) ==> k in view && view[k] == after[k]
    {
      if HasKey(es, k) {
        var i :| 0 <= i < |es| && es[i].key == k;
        assert after[k] == es[i];
      }
    }
    forall k | k in view && view[k].path != ScopedKey(scope, path) ensures k in after && after[k] == view[k] {
      assert !HasKey(es, k);
    }
  }

  lemma OthersCompose(a: View, b: View, c: View, scoped: string)
    requires OthersUntouched(a, b, scoped) && OthersUntouched(b, c, scoped)
    ensures OthersUntouched(a, c, scoped)
  {
  }

  lemma RebuildingTouchesOnePath(bk: Backend, view: View, scope: string, path: string, chunks: seq<Chunk>)
    requires Sound(bk, view) && PageChunks(scope, path, chunks)
    ensures var after := Rebuilt(bk, view, scope, path, chunks);
            Sound(bk, after) && OthersUntouched(view, after, ScopedKey(scope, path))
  {
    hide Sound;
    hide PageChunks;
    hide OthersUntouched;
    var scoped := ScopedKey(scope, path);
    DroppingTouchesOnePath(bk, view, scoped);
    UpsertingTouchesOnePath(bk, WithoutPaths(view, {scoped}), scope, path, chunks);
    OthersCompose(view, WithoutPaths(view, {scoped}), Rebuilt(bk, view, scope, path, chunks), scoped);
  }

  lemma {:induction false} ChangedAreChunks(bk: Backend, scope: string, chunks: seq<Chunk>, hashes: map<string, string>)
    ensures forall c :: c in ChangedOf(bk, scope, chunks, hashes) <==>
              c in chunks && HashAt(hashes, KeyIn(scope, c)) != ChunkHash(bk, c)
  {
    hide KeyIn;
    hide ChunkHash;
    if chunks != [] {
      var n := |chunks| - 1;
      ChangedAreChunks(bk, scope, chunks[..n], hashes);
      assert chunks == chunks[..n] + [chunks[n]];
    }
  }

  lemma {:induction false} ChangedStayApart(bk: Backend, scope: string, path: string, chunks: seq<Chunk>,
                                            hashes: map<string, string>)
    requires PageChunks(scope, path, chunks)
    ensures PageChunks(scope, path, ChangedOf(bk, scope, chunks, hashes))
  {
    if chunks != [] {
      hide ChunkHash;
      var n := |chunks| - 1;
      LastChunkIsApart(scope, path, chunks);
      hide PageChunks;
      ChangedStayApart(bk, scope, path, chunks[..n], hashes);
      ChangedAreChunks(bk, scope, chunks[..n], hashes);
      OneMoreApart(scope, path, ChangedOf(bk, scope, chunks[..n], hashes), chunks[n]);
    }
  }

  lemma LastChunkIsApart(scope: string, path: string, chunks: seq<Chunk>)
    requires PageChunks(scope, path, chunks) && chunks != []
    ensures var n := |chunks| - 1;
            && PageChunks(scope, path, chunks[..n]) && chunks[n].path == path
            && forall c :: c in chunks[..n] ==> KeyIn(scope, c) != KeyIn(scope, chunks[n])
  {
    hide KeyIn;
  }

  lemma OneMoreApart(scope: string, path: string, chunks: seq<Chunk>, last: Chunk)
    requires PageChunks(scope, path, chunks) && last.path == path
    requires forall c :: c in chunks ==> KeyIn(scope, c) != KeyIn(scope, last)
    ensures PageChunks(scope, path, chunks + [last])
  {
    hide KeyIn;
    forall i | 0 <= i < |chunks| ensures KeyIn(scope, chunks[i]) != KeyIn(scope, last) {
      assert chunks[i] in chunks;
    }
  }

  /** When nothing is left over, upserting only what changed gives what a rebuild gives. */
  lemma IncrementalRefinesRebuild(bk: Backend, view: View, scope: string, path: string, chunks: seq<Chunk>)
    requires GoodHash(bk) && Sound(bk, view) && PageChunks(scope, path, chunks)
    requires !HasLeftover(scope, path, chunks, HashesOf(view))
    ensures var changed := ChangedOf(bk, scope, chunks, HashesOf(view));
            var after := Upserted(view, FreshEntries(bk, scope, changed));
            && Sound(bk, after) && OthersUntouched(view, after, ScopedKey(scope, path))
            && AgreeButForHeadings(after, Rebuilt(bk, view, scope, path, chunks))
  {
    var changed := ChangedOf(bk, scope, chunks, HashesOf(view));
    ChangedStayApart(bk, scope, path, chunks, HashesOf(view));
    hide Sound;
    hide GoodHash;
    hide PageChunks;
    hide OthersUntouched;
    hide Upserted;
    hide HasLeftover;
    hide KeyIn;
    hide ChangedOf;
    hide Rebuilt;
    UpsertingTouchesOnePath(bk, view, scope, path, changed);
    var after, target := Upserted(view, FreshEntries(bk, scope, changed)), Rebuilt(bk, view, scope, path, chunks);
    forall k
      ensures k in after <==> k in target
      ensures k in after ==> after[k].(heading := "") == target[k].(heading := "")
    {
      KeyAgrees(bk, view, scope, path, chunks, k);
    }
  }

  lemma KeyAgrees(bk: Backend, view: View, scope: string, path: string, chunks: seq<Chunk>, k: string)
    requires GoodHash(bk) && Sound(bk, view) && PageChunks(scope, path, chunks)
    requires !HasLeftover(scope, path, chunks, HashesOf(view))
    ensures var after := Upserted(view, FreshEntries(bk, scope, ChangedOf(bk, scope, chunks, HashesOf(view))));
            var target := Rebuilt(bk, view, scope, path, chunks);
            (k in after <==> k in target) && (k in after ==> after[k].(heading := "") == target[k].(heading := ""))
  {
    hide *;
    if exists i :: 0 <= i < |chunks| && KeyIn(scope, chunks[i]) == k {
      var i :| 0 <= i < |chunks| && KeyIn(scope, chunks[i]) == k;
      ChunkIsIndexed(bk, view, scope, path, chunks, i);
    } else {
      OtherKeysAgree(bk, view, scope, path, chunks, k);
    }
  }

  /** Selective upserting is a rebuild to the last field exactly when no chunk it leaves
      alone has come under another heading. */
  lemma HeadingsDecideExactness(bk: Backend, view: View, scope: string, path: string, chunks: seq<Chunk>)
    requires GoodHash(bk) && Sound(bk, view) && PageChunks(scope, path, chunks)
    requires !HasLeftover(scope, path, chunks, HashesOf(view))
    ensures var changed := ChangedOf(bk, scope, chunks, HashesOf(view));
            Upserted(view, FreshEntries(bk, scope, changed)) == Rebuilt(bk, view, scope, path, chunks)
            <==> HeadingsKept(bk, view, scope, chunks)
  {
    hide Sound;
    hide GoodHash;
    hide PageChunks;
    hide Upserted;
    hide HasLeftover;
    hide HeadingKept;
    hide KeyIn;
    var changed := ChangedOf(bk, scope, chunks, HashesOf(view));
    hide ChangedOf;
    hide Rebuilt;
    var after, target := Upserted(view, FreshEntries(bk, scope, changed)), Rebuilt(bk, view, scope, path, chunks);
    forall i | 0 <= i < |chunks|
      ensures KeyIn(scope, chunks[i]) in after && KeyIn(scope, chunks[i]) in target
      ensures after[KeyIn(scope, chunks[i])] == target[KeyIn(scope, chunks[i])]
              <==> HeadingKept(bk, view, scope, chunks[i])
    {
      ChunkIsIndexed(bk, view, scope, path, chunks, i);
    }
    if HeadingsKept(bk, view, scope, chunks) {
      forall k
        ensures k in after <==> k in target
        ensures k in after ==> after[k] == target[k]
      {
        if !exists i :: 0 <= i < |chunks| && KeyIn(scope, chunks[i]) == k {
          OtherKeysAgree(bk, view, scope, path, chunks, k);
        }
      }
      assert after == target;
    }
  }

  /** Where a title ends and a heading begins is not told by the text: the block headed
      "y" under a title ending in "x" and the one headed "x / y" under that title without
      it have one key and one hash. */
  lemma HeadingsMayDiffer(bk: Backend, c: Chunk, x: string, y: string, body: seq<string>)
    requires y != ""
    requires var header := c.header + " / " + x + " / " + y;
             var trimmed := Lines.TrimSpace(Lines.Join(TakeMeta(bk.rd, body).1));
             |Text(bk.rd, c.(header := header, body := trimmed))| <= MAX_CHUNK_CHARS
    ensures var a := ChunksFor(bk.rd, c.(header := c.header + " / " + x, heading := y), body);
            var b := ChunksFor(bk.rd, c.(heading := x + " / " + y), body);
            && |a| == |b| == 1 && ChunkKey(a[0]) == ChunkKey(b[0]) && ChunkHash(bk, a[0]) == ChunkHash(bk, b[0])
            && a[0].heading == y && b[0].heading == x + " / " + y && a[0].heading != b[0].heading
  {
    hide TakeMeta;
    hide Lines.TrimSpace;
    hide Lines.Join;
    hide Lines.Split;
    hide SplitFrom;
    hide Decimal.Digits;
    assert c.header + " / " + x + " / " + y == c.header + " / " + (x + " / " + y);
    assert |x + " / " + y| > |y|;
  }

  lemma TrimmingTheHead(title: string)
    requires title != "" && !Lines.IsSpace(title[0]) && !Lines.IsSpace(title[|title| - 1])
    ensures Lines.TrimSpace(" " + title) == title
  {
    var text := " " + title;
    assert text[1..] == title && Lines.IsSpace(text[0]);
    assert Lines.TrimLeft(title) == title && Lines.TrimRight(title) == title;
    assert Lines.TrimLeft(text) == Lines.TrimLeft(text[1..]);
  }

  /** A page of one heading and nothing under it. */
  function HeadingPage(path: string, header: string, title: string, offset: nat): Page {
    Page(path, header, "", "### " + title, offset)
  }

  lemma HeadingPageHasOneChunk(rd: Reading, path: string, header: string, title: string, offset: nat)
    requires '\n' !in title && Lines.TrimSpace(" " + title) == title
    ensures ChunksOf(rd, HeadingPage(path, header, title, offset))
            == ChunksFor(rd, Chunk(path, title, offset + 1, header, "", "", NO_META), [])
  {
    var page := HeadingPage(path, header, title, offset);
    var text := page.text;
    hide Lines.TrimSpace;
    hide ChunksOf;
    hide ChunksFor;
    assert text[..4] == "### " && text[..3] == "###" && text[3..] == " " + title;
    OneHeadingPage(rd, page);
  }

  /** The two pages of HeadingsMayDiffer, one after the other, in an empty store: what the
      second leaves is the first's entry, under the first's heading. */
  lemma OldHeadingStays(bk: Backend, scope: string, path: string, header: string, x: string, y: string, offset: nat)
    requires GoodHash(bk)
    requires '\n' !in x && x != "" && !Lines.IsSpace(x[0])
    requires '\n' !in y && y != "" && !Lines.IsSpace(y[0]) && !Lines.IsSpace(y[|y| - 1])
    requires |header + " / " + x + " / " + y| + 2 + |bk.rd.dropStruck("")| <= MAX_CHUNK_CHARS
    ensures var first := ChunksOf(bk.rd, HeadingPage(path, header + " / " + x, y, offset));
            var second := ChunksOf(bk.rd, HeadingPage(path, header, x + " / " + y, offset));
            var before := Processed(bk, map[], scope, path, first);
            var after := Processed(bk, before, scope, path, second);
            && |second| == 1 && second[0].heading == x + " / " + y
            && KeyIn(scope, second[0]) in after && after[KeyIn(scope, second[0])].heading == y != second[0].heading
  {
    hide ChunksOf;
    hide ChunksFor;
    hide TakeMeta;
    hide Lines.TrimSpace;
    hide Lines.Join;
    hide HeadingPage;
    hide Processed;
    hide GoodHash;
    hide ChunkKey;
    hide ChunkHash;
    var c := Chunk(path, "", offset + 1, header, "", "", NO_META);
    TrimmingTheHead(y);
    TrimmingTheHead(x + " / " + y);
    HeadingPageHasOneChunk(bk.rd, path, header + " / " + x, y, offset);
    HeadingPageHasOneChunk(bk.rd, path, header, x + " / " + y, offset);
    NothingUnderNothing(bk.rd, c);
    HeadingsMayDiffer(bk, c, x, y, []);
    var first := ChunksOf(bk.rd, HeadingPage(path, header + " / " + x, y, offset));
    var second := ChunksOf(bk.rd, HeadingPage(path, header, x + " / " + y, offset));
    TwoChunksOneEntry(bk, scope, path, first, second);
  }

  lemma TwoChunksOneEntry(bk: Backend, scope: string, path: string, first: seq<Chunk>, second: seq<Chunk>)
    requires GoodHash(bk) && |first| == |second| == 1
    requires ChunkKey(first[0]) == ChunkKey(second[0]) && ChunkHash(bk, first[0]) == ChunkHash(bk, second[0])
    ensures var before := Processed(bk, map[], scope, path, first);
            var k := KeyIn(scope, second[0]);
            var after := Processed(bk, before, scope, path, second);
            k in after && after[k].heading == first[0].heading
  {
    hide ChunkKey;
    hide HasPrefix;
    var before := Processed(bk, map[], scope, path, first);
    var k := KeyIn(scope, second[0]);
    assert bk.hash(Text(bk.rd, first[0])) != "";
    assert first[..0] == [] && second[..0] == [] && first == [first[0]];
    hide ChunkHash;
    var nothing: View := map[];
    assert HashesOf(nothing) == map[] && !HasLeftover(scope, path, first, HashesOf(nothing));
    assert ChangedOf(bk, scope, first, HashesOf(nothing)) == first;
    var entries := FreshEntries(bk, scope, first);
    assert entries[..0] == [] && Upserted(nothing, []) == nothing;
    assert Upserted(nothing, entries) == nothing[k := entries[0]];
    assert before == map[k := entries[0]];
    assert !HasLeftover(scope, path, second, HashesOf(before));
    assert ChangedOf(bk, scope, second, HashesOf(before)) == [];
    UpsertingNothing(before, bk, scope);
  }

  lemma ChunkIsIndexed(bk: Backend, view: View, scope: string, path: string, chunks: seq<Chunk>, i: nat)
    requires GoodHash(bk) && Sound(bk, view) && PageChunks(scope, path, chunks) && i < |chunks|
    ensures var k := KeyIn(scope, chunks[i]);
            var after := Upserted(view, FreshEntries(bk, scope, ChangedOf(bk, scope, chunks, HashesOf(view))));
            var target := Rebuilt(bk, view, scope, path, chunks);
            && k in after && k in target && after[k].(heading := "") == target[k].(heading := "")
            && (after[k] == target[k] <==> HeadingKept(bk, view, scope, chunks[i]))
  {
    var c := chunks[i];
    var k := KeyIn(scope, c);
    var hashes := HashesOf(view);
    var changed := ChangedOf(bk, scope, chunks, hashes);
    FreshApart(bk, scope, path, chunks);
    UpsertedExactly(WithoutPaths(view, {ScopedKey(scope, path)}), FreshEntries(bk, scope, chunks));
    assert FreshEntries(bk, scope, chunks)[i].key == k;
    ChangedStayApart(bk, scope, path, chunks, hashes);
    FreshApart(bk, scope, path, changed);
    UpsertedExactly(view, FreshEntries(bk, scope, changed));
    ChangedAreChunks(bk, scope, chunks, hashes);
    hide Upserted;
    hide ChunkKey;
    hide ChangedOf;
    hide KeyIn;
    if c in changed {
      var j :| 0 <= j < |changed| && changed[j] == c;
      assert FreshEntries(bk, scope, changed)[j].key == k;
    } else {
      forall j | 0 <= j < |changed| ensures KeyIn(scope, changed[j]) != k {
        assert changed[j] in changed && changed[j] in chunks;
        var n :| 0 <= n < |chunks| && chunks[n] == changed[j];
        assert n != i;
      }
      assert !HasKey(FreshEntries(bk, scope, changed), k);
      assert bk.hash(Text(bk.rd, c)) != "";
      KeysTellPaths(bk, view, scope, c);
      SameHashSameVector(bk, view[k], Text(bk.rd, c));
    }
  }

  lemma SameHashSameVector(bk: Backend, e: Entry, text: string)
    requires GoodHash(bk) && SoundEntry(bk, e) && e.hash == bk.hash(text)
    ensures e.vector == bk.embed(text)
  {
  }

  lemma OtherKeysAgree(bk: Backend, view: View, scope: string, path: string, chunks: seq<Chunk>, k: string)
    requires Sound(bk, view) && PageChunks(scope, path, chunks)
    requires !HasLeftover(scope, path, chunks, HashesOf(view))
    requires !exists i :: 0 <= i < |chunks| && KeyIn(scope, chunks[i]) == k
    ensures var after := Upserted(view, FreshEntries(bk, scope, ChangedOf(bk, scope, chunks, HashesOf(view))));
            var target := Rebuilt(bk, view, scope, path, chunks);
            (k in after <==> k in target) && (k in after ==> after[k] == target[k])
  {
    var hashes := HashesOf(view);
    var scoped := ScopedKey(scope, path);
    var changed := ChangedOf(bk, scope, chunks, hashes);
    FreshApart(bk, scope, path, chunks);
    UpsertedExactly(WithoutPaths(view, {scoped}), FreshEntries(bk, scope, chunks));
    ChangedStayApart(bk, scope, path, chunks, hashes);
    FreshApart(bk, scope, path, changed);
    UpsertedExactly(view, FreshEntries(bk, scope, changed));
    ChangedAreChunks(bk, scope, chunks, hashes);
    hide Upserted;
    hide KeyIn;
    hide ChangedOf;
    forall j | 0 <= j < |changed| ensures KeyIn(scope, changed[j]) != k {
      assert changed[j] in changed && changed[j] in chunks;
    }
    assert k in view ==> k in hashes;
    if k in view && view[k].path == scoped {
      PathGivesPrefix(bk, view, k, scoped);
      assert false;
    }
  }

  lemma PathGivesPrefix(bk: Backend, view: View, k: string, scoped: string)
    requires Sound(bk, view) && k in view && view[k].path == scoped
    ensures HasPrefix(k, scoped + "#")
  {
    var e := view[k];
    assert k == (scoped + "#") + Decimal.Digits(e.line);
  }

  /** After a page has been processed, reconciling does not queue it again. */
  lemma ProcessedPagesAreNotQueued(bk: Backend, before: View, after: View, scope: string, page: Page)
    requires AgreeButForHeadings(after, Rebuilt(bk, before, scope, page.path, ChunksOf(bk.rd, page)))
    ensures !Outdated(bk, scope, ChunksOf(bk.rd, page), HashesOf(after))
  {
    hide ChunksOf;
    var chunks := ChunksOf(bk.rd, page);
    FreshKeysApart(bk, scope, page);
    FreshApart(bk, scope, page.path, chunks);
    UpsertedExactly(WithoutPaths(before, {ScopedKey(scope, page.path)}), FreshEntries(bk, scope, chunks));
    hide Upserted;
    hide KeyIn;
    forall i | 0 <= i < |chunks| ensures HashAt(HashesOf(after), KeyIn(scope, chunks[i])) == ChunkHash(bk, chunks[i]) {
      var e := FreshEntries(bk, scope, chunks)[i];
      assert e.key in after && after[e.key].(heading := "").hash == e.hash;
    }
  }

  /** After a page has been processed, the page's entries are exactly its chunks: each
      under its key with its own line, hash and vector, and no other at its path. */
  lemma ProcessedPagesHoldTheirChunks(bk: Backend, before: View, after: View, scope: string, page: Page)
    requires Sound(bk, before)
    requires AgreeButForHeadings(after, Rebuilt(bk, before, scope, page.path, ChunksOf(bk.rd, page)))
    ensures var chunks := ChunksOf(bk.rd, page);
            forall i :: 0 <= i < |chunks| ==>
              KeyIn(scope, chunks[i]) in after
              && after[KeyIn(scope, chunks[i])].(heading := "") == FreshEntry(bk, scope, chunks[i]).(heading := "")
    ensures forall k :: k in after && after[k].path == ScopedKey(scope, page.path) ==>
              exists i :: 0 <= i < |ChunksOf(bk.rd, page)| && KeyIn(scope, ChunksOf(bk.rd, page)[i]) == k
  {
    hide ChunksOf;
    var chunks := ChunksOf(bk.rd, page);
    var scoped := ScopedKey(scope, page.path);
    FreshKeysApart(bk, scope, page);
    FreshApart(bk, scope, page.path, chunks);
    var es := FreshEntries(bk, scope, chunks);
    UpsertedExactly(WithoutPaths(before, {scoped}), es);
    hide Upserted;
    hide KeyIn;
    forall i | 0 <= i < |chunks|
      ensures KeyIn(scope, chunks[i]) in after
      ensures after[KeyIn(scope, chunks[i])].(heading := "") == FreshEntry(bk, scope, chunks[i]).(heading := "")
    {
      assert es[i].key in after;
    }
    forall k | k in after && after[k].path == scoped ensures HasKey(es, k) {
      var target := Rebuilt(bk, before, scope, page.path, chunks);
      assert after[k].(heading := "").path == target[k].(heading := "").path;
    }
  }

  /** After a page has been processed, each chunk's entry is filed under the tree's name, the
      page's path and the chunk's line, and holds the hash and the vector of its text. */
  lemma ProcessedPagesAreFiled(bk: Backend, before: View, after: View, scope: string, page: Page, c: Chunk)
    requires Sound(bk, before) && c in ChunksOf(bk.rd, page)
    requires AgreeButForHeadings(after, Rebuilt(bk, before, scope, page.path, ChunksOf(bk.rd, page)))
    ensures exists n :: Decimal.IsPlainNumeral(n, c.line) && EntryIs(bk, after, scope + "|" + page.path, n, c)
  {
    hide ChunksOf;
    hide Sound;
    hide AgreeButForHeadings;
    hide Rebuilt;
    ProcessedPagesHoldTheirChunks(bk, before, after, scope, page);
    FreshKeysApart(bk, scope, page);
    var i :| 0 <= i < |ChunksOf(bk.rd, page)| && ChunksOf(bk.rd, page)[i] == c;
    var n := Decimal.Digits(c.line);
    Decimal.NumeralsAreDigits(n, c.line);
    hide Decimal.Digits;
    assert scope + "|" + (c.path + "#" + n) == scope + "|" + c.path + "#" + n;
    var e := after[KeyIn(scope, c)];
    assert e.(heading := "").path == e.path && e.(heading := "").line == e.line;
    assert EntryIs(bk, after, scope + "|" + page.path, n, c);
  }

  ghost predicate EntryIs(bk: Backend, view: View, path: string, n: string, c: Chunk) {
    var key := path + "#" + n;
    && key in view && view[key].key == key && view[key].path == path && view[key].line == c.line
    && view[key].hash == bk.hash(Text(bk.rd, c)) && view[key].vector == bk.embed(Text(bk.rd, c))
  }

  /** A chunk whose body was edited under the header it had, but for what is struck through,
      is found by the next sweep. */
  lemma EditedBodiesAreOutdated(bk: Backend, view: View, scope: string, chunks: seq<Chunk>, i: nat, was: Chunk)
    requires GoodHash(bk) && i < |chunks| && KeyIn(scope, chunks[i]) in view
    requires view[KeyIn(scope, chunks[i])].hash == bk.hash(Text(bk.rd, was)) && was.header == chunks[i].header
    requires bk.rd.dropStruck(was.body) != bk.rd.dropStruck(chunks[i].body)
    ensures Outdated(bk, scope, chunks, HashesOf(view))
  {
    TextsTellChunksApart(bk.rd, was, chunks[i]);
    hide Text;
    hide KeyIn;
    assert HashAt(HashesOf(view), KeyIn(scope, chunks[i])) != ChunkHash(bk, chunks[i]);
  }

  /** A page is rebuilt for what is left over of it alone: when no path holds the mark that
      ends a path in a key, exactly when some entry at its path stands at a line that is none
      of its chunks'. */
  lemma LeftoversAreItsOwn(bk: Backend, view: View, scope: string, path: string, chunks: seq<Chunk>)
    requires Sound(bk, view) && PageChunks(scope, path, chunks)
    requires '#' !in scope && '#' !in path && forall k :: k in view ==> '#' !in view[k].path
    ensures HasLeftover(scope, path, chunks, HashesOf(view)) <==>
              exists k :: k in view && view[k].path == scope + "|" + path
                          && forall i :: 0 <= i < |chunks| ==> chunks[i].line != view[k].line
  {
    forall k | k in view
      ensures HasPrefix(k, ScopedKey(scope, path) + "#") <==> view[k].path == scope + "|" + path
      ensures view[k].path == scope + "|" + path ==>
                forall i :: 0 <= i < |chunks| ==> (KeyIn(scope, chunks[i]) == k <==> chunks[i].line == view[k].line)
    {
      PrefixTellsPath(view[k].path, Decimal.Digits(view[k].line), ScopedKey(scope, path));
      if view[k].path == scope + "|" + path {
        forall i | 0 <= i < |chunks| ensures KeyIn(scope, chunks[i]) == k <==> chunks[i].line == view[k].line {
          LinesTellKeys(scope, path, chunks[i], view[k].line);
        }
      }
    }
    hide KeyIn;
    hide HasPrefix;
    hide ScopedKey;
    hide SoundEntry;
  }

  lemma LinesTellKeys(scope: string, path: string, c: Chunk, line: nat)
    requires c.path == path
    ensures KeyIn(scope, c) == scope + "|" + path + "#" + Decimal.Digits(line) <==> c.line == line
  {
    var scoped := scope + "|" + path;
    assert KeyIn(scope, c) == scoped + "#" + Decimal.Digits(c.line);
    hide Decimal.Digits;
    if KeyIn(scope, c) == scoped + "#" + Decimal.Digits(line) {
      KeysAreExact(scoped, c.line, scoped, line);
    }
  }

  lemma PrefixTellsPath(path: string, n: string, scoped: string)
    requires '#' !in path && '#' !in scoped
    ensures HasPrefix(path + "#" + n, scoped + "#") <==> path == scoped
  {
    var key, prefix := path + "#" + n, scoped + "#";
    if HasPrefix(key, prefix) {
      assert key[..|prefix|][|scoped|] == '#' && key[|path|] == '#';
      assert forall i :: 0 <= i < |path| ==> key[i] == path[i] != '#';
      assert forall i :: 0 <= i < |scoped| ==> key[..|prefix|][i] == scoped[i] != '#';
      assert |path| == |scoped|;
      assert path == key[..|path|] && scoped == key[..|prefix|][..|scoped|];
    }
  }

  /** The input: a page whose name goes on behind the mark. Its keys count as left over of the
      shorter-named page, which is rebuilt for them. */
  lemma LongerNamesAreLeftOver(scope: string, path: string, rest: string, n: string)
    ensures HasPrefix(ScopedKey(scope, path + "#" + rest) + "#" + n, ScopedKey(scope, path) + "#")
  {
    var prefix := ScopedKey(scope, path) + "#";
    assert ScopedKey(scope, path + "#" + rest) + "#" + n == prefix + (rest + "#" + n);
  }
}
