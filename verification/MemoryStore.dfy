/** The flat vector store: a list of entries and a map from key to place
    (internal/memory/store_flat.go). */
module MemoryStore {

  /** A vector as the bits of its components. */
  type Vector = seq<int>

  datatype Entry = Entry(key: string, path: string, heading: string, line: nat, hash: string, vector: Vector)

  /** What a store holds, key by key. */
  type View = map<string, Entry>

  /** Each entry put under its key, later ones over earlier ones. */
  function Upserted(view: View, entries: seq<Entry>): View {
    if entries == [] then view
    else Upserted(view, entries[..|entries| - 1])[entries[|entries| - 1].key := entries[|entries| - 1]]
  }

  function WithoutPaths(view: View, paths: set<string>): View {
    map k | k in view && view[k].path !in paths :: view[k]
  }

  function HashesOf(view: View): map<string, string> {
    map k | k in view :: view[k].hash
  }

  ghost predicate KeysApart(entries: seq<Entry>) {
    forall i, j :: 0 <= i < j < |entries| ==> entries[i].key != entries[j].key
  }

  ghost predicate HasKey(entries: seq<Entry>, k: string) {
    exists i :: 0 <= i < |entries| && entries[i].key == k
  }

  /** After an upsert of entries with distinct keys, each of them is held under its own
      key and every other key is as it was. */
  lemma {:induction false} UpsertedExactly(view: View, entries: seq<Entry>)
    requires KeysApart(entries)
    ensures forall i :: 0 <= i < |entries| ==>
              entries[i].key in Upserted(view, entries) && Upserted(view, entries)[entries[i].key] == entries[i]
    ensures forall k :: !HasKey(entries, k) ==>
              (k in Upserted(view, entries) <==> k in view) && (k in view ==> Upserted(view, entries)[k] == view[k])
    ensures forall k :: k in Upserted(view, entries) ==> k in view || HasKey(entries, k)
  {
    if entries != [] {
      var rest, e := entries[..|entries| - 1], entries[|entries| - 1];
      LastIsApart(entries);
      LastKey(entries);
      assert !HasKey(rest, e.key);
      UpsertedOneMore(view, rest, e);
      assert entries == rest + [e];
      hide *;
      UpsertedExactly(view, rest);
    }
  }

  lemma UpsertedOneMore(view: View, rest: seq<Entry>, e: Entry)
    ensures Upserted(view, rest + [e]) == Upserted(view, rest)[e.key := e]
  {
    assert (rest + [e])[..|rest|] == rest;
  }

  lemma LastKey(entries: seq<Entry>)
    requires entries != []
    ensures var n := |entries| - 1;
            forall k :: HasKey(entries, k) <==> HasKey(entries[..n], k) || k == entries[n].key
  {
    var n := |entries| - 1;
    forall k | HasKey(entries[..n], k) || k == entries[n].key ensures HasKey(entries, k) {
      if k != entries[n].key {
        var i :| 0 <= i < n && entries[..n][i].key == k;
        assert entries[i].key == k;
      }
    }
    forall k | HasKey(entries, k) ensures HasKey(entries[..n], k) || k == entries[n].key {
      var i :| 0 <= i < |entries| && entries[i].key == k;
      assert i < n ==> entries[..n][i].key == k;
    }
  }

  /** The entries not at any of the paths, in order. */
  function Kept(entries: seq<Entry>, doomed: set<string>): (r: seq<Entry>)
    ensures |r| <= |entries|
    ensures forall e :: e in r <==> e in entries && e.path !in doomed
  {
    if entries == [] then []
    else
      var rest := Kept(entries[..|entries| - 1], doomed);
      var e := entries[|entries| - 1];
      assert entries == entries[..|entries| - 1] + [e];
      if e.path in doomed then rest else rest + [e]
  }

  lemma {:induction false} KeptStaysApart(entries: seq<Entry>, doomed: set<string>)
    requires KeysApart(entries)
    ensures KeysApart(Kept(entries, doomed))
    ensures |Kept(entries, doomed)| == |entries| ==> Kept(entries, doomed) == entries
  {
    if entries == [] {
      assert Kept(entries, doomed) == [];
    } else {
      hide *;
      var rest, e := entries[..|entries| - 1], entries[|entries| - 1];
      LastIsApart(entries);
      KeptStaysApart(rest, doomed);
      assert rest + [e] == entries;
      KeptWithLast(rest, e, doomed);
    }
  }

  lemma KeptWithLast(rest: seq<Entry>, e: Entry, doomed: set<string>)
    requires KeysApart(Kept(rest, doomed)) && forall x :: x in rest ==> x.key != e.key
    requires |Kept(rest, doomed)| == |rest| ==> Kept(rest, doomed) == rest
    ensures var all := Kept(rest + [e], doomed);
            KeysApart(all) && (|all| == |rest + [e]| ==> all == rest + [e])
  {
    hide *;
    KeptOneMore(rest, e, doomed);
    AppendApart(Kept(rest, doomed), e);
  }

  lemma LastIsApart(entries: seq<Entry>)
    requires KeysApart(entries) && entries != []
    ensures var n := |entries| - 1; KeysApart(entries[..n]) && forall x :: x in entries[..n] ==> x.key != entries[n].key
  {
  }

  lemma AppendApart(rest: seq<Entry>, e: Entry)
    requires KeysApart(rest) && forall x :: x in rest ==> x.key != e.key
    ensures KeysApart(rest + [e])
  {
    forall i | 0 <= i < |rest| ensures rest[i].key != e.key {
      assert rest[i] in rest;
    }
  }

  lemma KeptOneMore(rest: seq<Entry>, e: Entry, doomed: set<string>)
    ensures Kept(rest + [e], doomed) == if e.path in doomed then Kept(rest, doomed) else Kept(rest, doomed) + [e]
  {
    assert (rest + [e])[..|rest|] == rest;
  }

  /** The index names the place of every entry and nothing else. */
  ghost predicate Indexes(byKey: map<string, nat>, entries: seq<Entry>) {
    && (forall i :: 0 <= i < |entries| ==> entries[i].key in byKey && byKey[entries[i].key] == i)
    && (forall k :: k in byKey ==> byKey[k] < |entries| && entries[byKey[k]].key == k)
  }

  function ViewOf(byKey: map<string, nat>, entries: seq<Entry>): View
    requires Indexes(byKey, entries)
  {
    map k | k in byKey :: entries[byKey[k]]
  }

  lemma ReplacedInPlace(byKey: map<string, nat>, entries: seq<Entry>, entry: Entry)
    requires Indexes(byKey, entries) && entry.key in byKey
    ensures var after := entries[byKey[entry.key] := entry];
            Indexes(byKey, after) && ViewOf(byKey, after) == ViewOf(byKey, entries)[entry.key := entry]
  {
  }

  lemma AppendedAtEnd(byKey: map<string, nat>, entries: seq<Entry>, entry: Entry)
    requires Indexes(byKey, entries) && entry.key !in byKey
    ensures var places := byKey[entry.key := |entries|];
            && Indexes(places, entries + [entry])
            && ViewOf(places, entries + [entry]) == ViewOf(byKey, entries)[entry.key := entry]
  {
  }

  class FlatStore {
    var entries: seq<Entry>
    var byKey: map<string, nat>

    ghost predicate Valid()
      reads this
    {
      Indexes(byKey, entries)
    }

    ghost function View(): View
      requires Valid()
      reads this
    {
      ViewOf(byKey, entries)
    }

    constructor ()
      ensures Valid() && entries == [] && View() == map[]
    {
      entries, byKey := [], map[];
    }

    method Hashes() returns (hashes: map<string, string>)
      requires Valid()
      ensures hashes == HashesOf(View())
    {
      hashes := map[];
      for i := 0 to |entries|
        invariant hashes.Keys == set j | 0 <= j < i :: entries[j].key
        invariant forall j :: 0 <= j < i ==> hashes[entries[j].key] == entries[j].hash
      {
        assert forall j :: 0 <= j < i ==> byKey[entries[j].key] == j;
        hashes := hashes[entries[i].key := entries[i].hash];
      }
      forall k ensures k in hashes <==> k in View() {
        if k in View() { assert entries[byKey[k]].key in hashes; }
      }
    }

    /** Replaces entries sharing a key, in place, and appends the rest. Writing the index
        out may fail after the memory is updated. */
    method Upsert(news: seq<Entry>) returns (ok: bool)
      requires Valid()
      modifies this
      ensures Valid() && View() == Upserted(old(View()), news)
      ensures |entries| >= |old(entries)|
      ensures forall i :: 0 <= i < |old(entries)| ==> entries[i].key == old(entries)[i].key
    {
      for n := 0 to |news|
        invariant Valid() && View() == Upserted(old(View()), news[..n])
        invariant |entries| >= |old(entries)|
        invariant forall i :: 0 <= i < |old(entries)| ==> entries[i].key == old(entries)[i].key
      {
        assert news[..n + 1][..n] == news[..n];
        Put(news[n]);
      }
      assert news[..|news|] == news;
      ok := *;
    }

    method Put(entry: Entry)
      requires Valid()
      modifies this
      ensures Valid() && View() == old(View())[entry.key := entry]
      ensures |entries| >= |old(entries)|
      ensures forall i :: 0 <= i < |old(entries)| ==> entries[i].key == old(entries)[i].key
    {
      hide ViewOf;
      if entry.key in byKey {
        ReplacedInPlace(byKey, entries, entry);
        entries := entries[byKey[entry.key] := entry];
        return;
      }
      AppendedAtEnd(byKey, entries, entry);
      byKey := byKey[entry.key := |entries|];
      entries := entries + [entry];
    }

    method Reindex()
      requires KeysApart(entries)
      modifies this`byKey
      ensures Valid()
    {
      byKey := map[];
      for at := 0 to |entries|
        invariant byKey.Keys == set j | 0 <= j < at :: entries[j].key
        invariant forall j :: 0 <= j < at ==> byKey[entries[j].key] == j
      {
        byKey := byKey[entries[at].key := at];
      }
    }

    /** Drops every entry at one of the paths and keeps the others, in order. */
    method DeletePaths(paths: seq<string>) returns (ok: bool)
      requires Valid()
      modifies this
      ensures Valid() && View() == WithoutPaths(old(View()), set p | p in paths)
      ensures entries == Kept(old(entries), set p | p in paths)
    {
      var doomed := set p | p in paths;
      var kept: seq<Entry> := [];
      for i := 0 to |entries|
        invariant kept == Kept(entries[..i], doomed)
        invariant Valid() && View() == old(View()) && entries == old(entries)
      {
        assert entries[..i + 1][..i] == entries[..i];
        if entries[i].path !in doomed {
          kept := kept + [entries[i]];
        }
      }
      assert entries[..|entries|] == entries;
      PlacesApart();
      KeptStaysApart(entries, doomed);
      if |kept| == |entries| {
        ViewIsEntries();
        KeptView(entries, View(), kept, View(), doomed);
        return true;
      }
      ghost var before, had := entries, View();
      ViewIsEntries();
      entries := kept;
      Reindex();
      ViewIsEntries();
      KeptView(before, had, entries, View(), doomed);
      ok := *;
    }

    lemma PlacesApart()
      requires Valid()
      ensures KeysApart(entries)
    {
      forall i, j | 0 <= i < j < |entries| ensures entries[i].key != entries[j].key {
        assert byKey[entries[i].key] == i && byKey[entries[j].key] == j;
      }
    }

    lemma ViewIsEntries()
      requires Valid()
      ensures Shows(entries, View())
    {
    }
  }

  /** The view holds each entry of the list under its key, and nothing else. */
  ghost predicate Shows(entries: seq<Entry>, view: View) {
    && (forall e :: e in entries ==> e.key in view && view[e.key] == e)
    && (forall k :: k in view ==> view[k] in entries && view[k].key == k)
  }

  lemma KeptView(before: seq<Entry>, was: View, after: seq<Entry>, left: View, doomed: set<string>)
    requires Shows(before, was) && Shows(after, left) && after == Kept(before, doomed)
    ensures left == WithoutPaths(was, doomed)
  {
    forall k ensures k in left <==> k in WithoutPaths(was, doomed) {
      if k in WithoutPaths(was, doomed) {
        assert was[k] in after;
      }
      if k in left {
        assert left[k] in before;
      }
    }
    forall k | k in left ensures left[k] == was[k] {
      assert left[k] in before;
    }
  }
}
