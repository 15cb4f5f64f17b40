/** The files a model runs, and the byte stream that pins them
    (internal/flow/modelsource.go). A file is named by its path under the models root. */
module FlowSources {
  import opened Wrappers
  import Order
  import Decimal

  /** One file of the tree, with the in-tree files its import statements resolve to.
      `escapes` marks one with an import that resolves outside the root. */
  datatype File = File(data: string, imports: seq<string>, escapes: bool)

  type Disk = map<string, File>

  datatype Source = Source(rel: string, data: string)

  datatype SourceError = Unreadable(path: string) | OutsideRoot(path: string)

  /** A chain of imports from the entry. */
  ghost predicate IsChain(disk: Disk, entry: string, chain: seq<string>) {
    && chain != [] && chain[0] == entry
    && forall i :: 0 <= i < |chain| - 1 ==> chain[i] in disk && chain[i + 1] in disk[chain[i]].imports
  }

  ghost predicate Reaches(disk: Disk, entry: string, path: string) {
    exists chain :: IsChain(disk, entry, chain) && chain[|chain| - 1] == path
  }

  predicate Readable(disk: Disk, path: string) {
    path in disk && !disk[path].escapes
  }

  lemma ReachesEntry(disk: Disk, entry: string)
    ensures Reaches(disk, entry, entry)
  {
    assert IsChain(disk, entry, [entry]);
  }

  lemma ReachesImport(disk: Disk, entry: string, path: string, next: string)
    requires Reaches(disk, entry, path) && path in disk && next in disk[path].imports
    ensures Reaches(disk, entry, next)
  {
    var chain :| IsChain(disk, entry, chain) && chain[|chain| - 1] == path;
    var longer := chain + [next];
    forall i | 0 <= i < |longer| - 1 ensures longer[i] in disk && longer[i + 1] in disk[longer[i]].imports {
      if i < |chain| - 1 { assert chain[i + 1] in disk[chain[i]].imports; }
    }
    assert IsChain(disk, entry, longer) && longer[|longer| - 1] == next;
  }

  /** A set that holds the entry and every import of its members holds all that is
      reached. */
  lemma {:induction false} ClosedSetsHoldTheReached(disk: Disk, entry: string, closed: set<string>, chain: seq<string>)
    requires entry in closed
    requires forall p :: p in closed ==> p in disk && forall q :: q in disk[p].imports ==> q in closed
    requires IsChain(disk, entry, chain)
    ensures chain[|chain| - 1] in closed
  {
    if |chain| > 1 {
      var n := |chain| - 1;
      assert chain[..n][n - 1] == chain[n - 1];
      assert IsChain(disk, entry, chain[..n]);
      ClosedSetsHoldTheReached(disk, entry, closed, chain[..n]);
      assert chain[n] in disk[chain[n - 1]].imports;
    }
  }

  predicate AscendingByRel(sources: seq<Source>) {
    forall i, j :: 0 <= i < j < |sources| ==> Order.Less(sources[i].rel, sources[j].rel)
  }

  /** The entry first, then in ascending order every other file the entry reaches, each
      with its own bytes. */
  ghost predicate IsClosure(disk: Disk, entry: string, sources: seq<Source>) {
    && sources != [] && sources[0].rel == entry
    && AscendingByRel(sources[1..])
    && (forall i :: 1 <= i < |sources| ==> sources[i].rel != entry)
    && (forall i :: 0 <= i < |sources| ==>
          sources[i].rel in disk && sources[i].data == disk[sources[i].rel].data
          && Reaches(disk, entry, sources[i].rel))
    && (forall p :: Reaches(disk, entry, p) ==> exists i :: 0 <= i < |sources| && sources[i].rel == p)
  }

  /** No two entries name the same file. */
  predicate Apart(sources: seq<Source>) {
    forall i, j :: 0 <= i < j < |sources| ==> sources[i].rel != sources[j].rel
  }

  function InsertByRel(s: Source, sorted: seq<Source>): (r: seq<Source>)
    requires AscendingByRel(sorted) && forall x :: x in sorted ==> x.rel != s.rel
    ensures forall x :: x in r <==> x == s || x in sorted
    ensures AscendingByRel(r)
  {
    if sorted == [] then [s]
    else
      assert sorted == [sorted[0]] + sorted[1..] && forall x :: x in sorted[1..] ==> x in sorted;
      if Order.Less(s.rel, sorted[0].rel) then
        assert AscendingByRel([s] + sorted) by { BeforeTheRest(s, sorted); }
        [s] + sorted
      else
        var rest := InsertByRel(s, sorted[1..]);
        assert AscendingByRel([sorted[0]] + rest) by {
          assert sorted[0] in sorted;
          Order.LessIsTotal(s.rel, sorted[0].rel);
          FirstBeforeAll(sorted);
          AheadOfAll(sorted[0], rest);
        }
        [sorted[0]] + rest
  }

  lemma BeforeTheRest(s: Source, sorted: seq<Source>)
    requires AscendingByRel(sorted) && sorted != [] && Order.Less(s.rel, sorted[0].rel)
    ensures AscendingByRel([s] + sorted)
  {
    forall j | 0 <= j < |sorted| ensures Order.Less(s.rel, sorted[j].rel) {
      if j > 0 { Order.LessIsTransitive(s.rel, sorted[0].rel, sorted[j].rel); }
    }
    AheadOfAll(s, sorted);
  }

  lemma FirstBeforeAll(sorted: seq<Source>)
    requires AscendingByRel(sorted) && sorted != []
    ensures forall x :: x in sorted[1..] ==> Order.Less(sorted[0].rel, x.rel)
  {
  }

  lemma AheadOfAll(s: Source, rest: seq<Source>)
    requires AscendingByRel(rest) && forall x :: x in rest ==> Order.Less(s.rel, x.rel)
    ensures AscendingByRel([s] + rest)
  {
    var all := [s] + rest;
    forall i, j | 0 <= i < j < |all| ensures Order.Less(all[i].rel, all[j].rel) {
      assert all[j] == rest[j - 1] && rest[j - 1] in rest;
      if i > 0 { assert all[i] == rest[i - 1]; }
    }
  }

  /** sort.Slice by path. */
  function SortByRel(sources: seq<Source>): (r: seq<Source>)
    requires Apart(sources)
    ensures forall x :: x in r <==> x in sources
    ensures AscendingByRel(r)
  {
    if sources == [] then []
    else
      assert sources == [sources[0]] + sources[1..];
      InsertByRel(sources[0], SortByRel(sources[1..]))
  }

  /** Collects the closure of the entry, or fails exactly when some file it reaches
      cannot be read or imports from outside the root. */
  method ModelSources(disk: Disk, entry: string) returns (r: Result<seq<Source>, SourceError>)
    ensures r.Ok? <==> forall p :: Reaches(disk, entry, p) ==> Readable(disk, p)
    ensures r.Ok? ==> IsClosure(disk, entry, r.value)
  {
    hide Reaches;
    var seen: set<string> := {};
    var queue := [entry];
    var out: seq<Source> := [];
    ReachesEntry(disk, entry);
    while queue != []
      invariant seen <= disk.Keys
      invariant forall p :: p in seen || p in queue ==> Reaches(disk, entry, p)
      invariant entry in seen || entry in queue
      invariant forall p :: p in seen ==>
                  Readable(disk, p) && forall q :: q in disk[p].imports ==> q in seen || q in queue
      invariant Lists(disk, out, seen)
      invariant if out == [] then queue == [entry] else out[0].rel == entry
      decreases disk.Keys - seen, |queue|
    {
      var path := queue[0];
      assert queue == [path] + queue[1..] && path in queue;
      queue := queue[1..];
      if path in seen {
        continue;
      }
      if path !in disk {
        return Err(Unreadable(path));
      }
      if disk[path].escapes {
        return Err(OutsideRoot(path));
      }
      ListingOneMore(disk, out, seen, path);
      seen := seen + {path};
      out := out + [Source(path, disk[path].data)];
      forall q | q in disk[path].imports ensures Reaches(disk, entry, q) {
        ReachesImport(disk, entry, path, q);
      }
      queue := queue + disk[path].imports;
    }
    SeenIsReached(disk, entry, seen);
    assert out != [] && Apart(out[1..]) by { assert Lists(disk, out, seen); }
    SortedClosure(disk, entry, seen, out);
    r := Ok([out[0]] + SortByRel(out[1..]));
  }

  /** The list holds each file of the set once, with its bytes. */
  ghost predicate Lists(disk: Disk, out: seq<Source>, seen: set<string>) {
    && Apart(out)
    && (forall x :: x in out ==> x.rel in seen && x.rel in disk && x.data == disk[x.rel].data)
    && (forall p :: p in seen ==> p in disk && Source(p, disk[p].data) in out)
  }

  lemma ListingOneMore(disk: Disk, out: seq<Source>, seen: set<string>, path: string)
    requires Lists(disk, out, seen) && path in disk && path !in seen
    ensures Lists(disk, out + [Source(path, disk[path].data)], seen + {path})
  {
    forall i | 0 <= i < |out| ensures out[i].rel != path {
      assert out[i] in out;
    }
  }

  lemma SeenIsReached(disk: Disk, entry: string, seen: set<string>)
    requires entry in seen
    requires forall p :: p in seen ==> p in disk && forall q :: q in disk[p].imports ==> q in seen
    ensures forall p :: Reaches(disk, entry, p) ==> p in seen
  {
    forall p | Reaches(disk, entry, p) ensures p in seen {
      var chain :| IsChain(disk, entry, chain) && chain[|chain| - 1] == p;
      ClosedSetsHoldTheReached(disk, entry, seen, chain);
    }
  }

  lemma SortedClosure(disk: Disk, entry: string, seen: set<string>, out: seq<Source>)
    requires Lists(disk, out, seen) && out != [] && out[0].rel == entry && Apart(out[1..])
    requires forall p :: p in seen <==> Reaches(disk, entry, p)
    ensures IsClosure(disk, entry, [out[0]] + SortByRel(out[1..]))
  {
    hide Reaches;
    hide AscendingByRel;
    hide SortByRel;
    var rest := SortByRel(out[1..]);
    var sources := [out[0]] + rest;
    assert sources[1..] == rest;
    assert forall x :: x in out <==> x == out[0] || x in out[1..];
    forall i | 0 <= i < |sources|
      ensures sources[i] in out && (i > 0 ==> sources[i].rel != entry)
    {
      if i > 0 {
        assert sources[i] in out[1..];
        var k :| 0 <= k < |out[1..]| && out[1..][k] == sources[i];
        assert out[k + 1] == sources[i];
      }
    }
    forall p | Reaches(disk, entry, p) ensures exists i :: 0 <= i < |sources| && sources[i].rel == p {
      assert Source(p, disk[p].data) in sources;
    }
  }

  // ---------------------------------------------------------------- checksumSources

  const NUL := 0 as char

  /** What one file writes into the hash: its path, its length and its bytes. */
  function EncodeOne(s: Source): string {
    s.rel + [NUL] + Decimal.Digits(|s.data|) + [NUL] + s.data
  }

  function Encode(sources: seq<Source>): string {
    if sources == [] then "" else EncodeOne(sources[0]) + Encode(sources[1..])
  }

  /** The stream the running hash receives, file by file. */
  method ChecksumSources(sources: seq<Source>) returns (stream: string)
    ensures stream == Encode(sources)
  {
    stream := "";
    for i := 0 to |sources|
      invariant stream + Encode(sources[i..]) == Encode(sources)
    {
      var s := sources[i];
      assert sources[i..][1..] == sources[i + 1..];
      assert stream + (EncodeOne(s) + Encode(sources[i + 1..])) == stream + EncodeOne(s) + Encode(sources[i + 1..]);
      stream := stream + (s.rel + [NUL] + Decimal.Digits(|s.data|) + [NUL] + s.data);
    }
    assert stream + "" == stream;
  }

  /** A field that ends at the first NUL can be cut off in one way. */
  lemma FieldsSplitOnce(a: string, restA: string, b: string, restB: string)
    requires NUL !in a && NUL !in b
    requires a + [NUL] + restA == b + [NUL] + restB
    ensures a == b && restA == restB
  {
    var whole := a + [NUL] + restA;
    assert whole[|a|] == NUL && whole[|b|] == NUL;
    assert forall i :: 0 <= i < |a| ==> whole[i] == a[i] != NUL;
    assert forall i :: 0 <= i < |b| ==> whole[i] == b[i] != NUL;
    assert a == whole[..|a|] && b == whole[..|b|];
    assert restA == whole[|a| + 1..] && restB == whole[|b| + 1..];
  }

  lemma DigitsHoldNoNul(n: nat)
    ensures NUL !in Decimal.Digits(n)
  {
    forall i | 0 <= i < |Decimal.Digits(n)| ensures Decimal.Digits(n)[i] != NUL {
      assert Decimal.IsDigit(Decimal.Digits(n)[i]);
    }
  }

  lemma OneSplitsOnce(a: Source, restA: string, b: Source, restB: string)
    requires NUL !in a.rel && NUL !in b.rel
    requires EncodeOne(a) + restA == EncodeOne(b) + restB
    ensures a == b && restA == restB
  {
    var da, db := Decimal.Digits(|a.data|), Decimal.Digits(|b.data|);
    hide Decimal.Digits;
    var bodyA, bodyB := a.data + restA, b.data + restB;
    assert EncodeOne(a) + restA == a.rel + [NUL] + (da + [NUL] + bodyA);
    assert EncodeOne(b) + restB == b.rel + [NUL] + (db + [NUL] + bodyB);
    FieldsSplitOnce(a.rel, da + [NUL] + bodyA, b.rel, db + [NUL] + bodyB);
    DigitsHoldNoNul(|a.data|);
    DigitsHoldNoNul(|b.data|);
    FieldsSplitOnce(da, bodyA, db, bodyB);
    Decimal.DigitsAreInjective(|a.data|, |b.data|);
    assert a.data == bodyA[..|a.data|] && b.data == bodyB[..|b.data|];
    assert restA == bodyA[|a.data|..] && restB == bodyB[|b.data|..];
  }

  /** Two lists of files write the same bytes only if they are the same list, so no file
      can be renamed, edited, moved or dropped without the stream changing. */
  lemma {:induction false} EncodingIsInjective(a: seq<Source>, b: seq<Source>)
    requires forall i :: 0 <= i < |a| ==> NUL !in a[i].rel
    requires forall i :: 0 <= i < |b| ==> NUL !in b[i].rel
    requires Encode(a) == Encode(b)
    ensures a == b
  {
    hide EncodeOne;
    if a == [] && b != [] {
      EncodedIsNotEmpty(b[0]);
    } else if a != [] && b == [] {
      EncodedIsNotEmpty(a[0]);
    } else if a != [] {
      OneSplitsOnce(a[0], Encode(a[1..]), b[0], Encode(b[1..]));
      EncodingIsInjective(a[1..], b[1..]);
      assert a == [a[0]] + a[1..] && b == [b[0]] + b[1..];
    }
  }

  lemma EncodedIsNotEmpty(s: Source)
    ensures |EncodeOne(s)| > 0
  {
  }

  /** The list is the same on every machine: a disk and an entry have one closure. */
  lemma ClosureIsDetermined(disk: Disk, entry: string, a: seq<Source>, b: seq<Source>)
    requires IsClosure(disk, entry, a) && IsClosure(disk, entry, b)
    ensures a == b
  {
    hide Reaches;
    var ra, rb := Rels(a[1..]), Rels(b[1..]);
    RestAscends(a[1..], ra);
    RestAscends(b[1..], rb);
    RestIsTheSame(disk, entry, a, ra, b, rb);
    RestIsTheSame(disk, entry, b, rb, a, ra);
    hide IsClosure;
    hide AscendingByRel;
    Order.AscendingIsUnique(ra, rb);
    forall i | 0 <= i < |a| ensures a[i].rel == b[i].rel {
      assert i > 0 ==> a[1..][i - 1].rel == ra[i - 1] && b[1..][i - 1].rel == rb[i - 1];
    }
    SameFilesSameSources(disk, entry, a, b);
  }

  ghost function Rels(sources: seq<Source>): seq<string> {
    seq(|sources|, i requires 0 <= i < |sources| => sources[i].rel)
  }

  lemma SameFilesSameSources(disk: Disk, entry: string, a: seq<Source>, b: seq<Source>)
    requires IsClosure(disk, entry, a) && IsClosure(disk, entry, b)
    requires |a| == |b| && forall i :: 0 <= i < |a| ==> a[i].rel == b[i].rel
    ensures a == b
  {
    hide Reaches;
    hide AscendingByRel;
    forall i | 0 <= i < |a| ensures a[i] == b[i] {
      assert a[i] in a && b[i] in b;
    }
  }

  lemma RestAscends(rest: seq<Source>, rels: seq<string>)
    requires AscendingByRel(rest) && rels == Rels(rest)
    ensures Order.Ascending(rels)
  {
  }

  lemma RestIsTheSame(disk: Disk, entry: string, a: seq<Source>, ra: seq<string>, b: seq<Source>, rb: seq<string>)
    requires IsClosure(disk, entry, a) && IsClosure(disk, entry, b)
    requires ra == Rels(a[1..]) && rb == Rels(b[1..])
    ensures forall x :: x in ra ==> x in rb
  {
    hide Reaches;
    forall x | x in ra ensures x in rb {
      var i :| 0 <= i < |ra| && ra[i] == x;
      assert a[1..][i] == a[i + 1] && Reaches(disk, entry, a[i + 1].rel);
      var j :| 0 <= j < |b| && b[j].rel == x;
      assert b[1..][j - 1].rel == rb[j - 1] == x;
    }
  }
}
