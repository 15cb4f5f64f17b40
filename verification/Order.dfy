/** Strings in the order sort.Strings puts them in, and a set of them as the one
    ascending sequence it has. */
module Order {

  /** Byte-wise lexicographic order. */
  predicate Less(a: string, b: string) {
    b != [] && (a == [] || a[0] < b[0] || (a[0] == b[0] && Less(a[1..], b[1..])))
  }

  lemma {:induction false} LessIsTotal(a: string, b: string)
    ensures Less(a, b) || a == b || Less(b, a)
  {
    if a != [] && b != [] && a[0] == b[0] {
      LessIsTotal(a[1..], b[1..]);
      assert a == [a[0]] + a[1..] && b == [b[0]] + b[1..];
    }
  }

  lemma {:induction false} LessIsTransitive(a: string, b: string, c: string)
    requires Less(a, b) && Less(b, c)
    ensures Less(a, c)
  {
    if a != [] && a[0] == b[0] == c[0] {
      LessIsTransitive(a[1..], b[1..], c[1..]);
    }
  }

  lemma {:induction false} LessIsAsymmetric(a: string, b: string)
    requires Less(a, b)
    ensures !Less(b, a) && a != b
  {
    if a != [] && a[0] == b[0] {
      LessIsAsymmetric(a[1..], b[1..]);
    }
  }

  /** A name comes before another that it starts, or that has the larger character where
      the two first differ. */
  ghost predicate Precedes(a: string, b: string) {
    exists n: nat ::
      && n <= |a| && n < |b| && a[..n] == b[..n]
      && (n == |a| || (a[n] < b[n]))
  }

  lemma {:induction false} LessIsLexicographic(a: string, b: string)
    ensures Less(a, b) <==> Precedes(a, b)
  {
    if a == [] || b == [] || a[0] != b[0] {
      if Less(a, b) { assert a[..0] == b[..0]; }
      if Precedes(a, b) {
        var n: nat :| n <= |a| && n < |b| && a[..n] == b[..n] && (n == |a| || a[n] < b[n]);
        if n > 0 { assert a[..n][0] == b[..n][0]; }
      }
    } else {
      LessIsLexicographic(a[1..], b[1..]);
      if Less(a, b) {
        var n: nat :| n <= |a[1..]| && n < |b[1..]| && a[1..][..n] == b[1..][..n]
                      && (n == |a[1..]| || a[1..][n] < b[1..][n]);
        assert a[..n + 1] == [a[0]] + a[1..][..n] && b[..n + 1] == [b[0]] + b[1..][..n];
      }
      if Precedes(a, b) {
        var n: nat :| n <= |a| && n < |b| && a[..n] == b[..n] && (n == |a| || a[n] < b[n]);
        assert n > 0 && a[1..][..n - 1] == a[..n][1..] && b[1..][..n - 1] == b[..n][1..];
        assert n - 1 == |a[1..]| || a[1..][n - 1] < b[1..][n - 1];
      }
    }
  }

  predicate Ascending(s: seq<string>) {
    forall i, j :: 0 <= i < j < |s| ==> Less(s[i], s[j])
  }

  predicate IsLeast(x: string, names: set<string>) {
    x in names && forall y :: y in names && y != x ==> Less(x, y)
  }

  lemma {:induction false} LeastExists(names: set<string>)
    requires names != {}
    ensures exists x :: IsLeast(x, names)
  {
    var n :| n in names;
    var rest := names - {n};
    if rest == {} {
      assert forall y :: y in names && y != n ==> y in rest;
      assert IsLeast(n, names);
    } else {
      LeastExists(rest);
      var y :| IsLeast(y, rest);
      LessIsTotal(n, y);
      if Less(n, y) {
        forall z | z in names && z != n ensures Less(n, z) {
          if z != y { LessIsTransitive(n, y, z); }
        }
        assert IsLeast(n, names);
      } else {
        assert IsLeast(y, names);
      }
    }
  }

  lemma LeastIsUnique(x: string, y: string, names: set<string>)
    requires IsLeast(x, names) && IsLeast(y, names)
    ensures x == y
  {
    if x != y { LessIsAsymmetric(x, y); }
  }

  function Least(names: set<string>): (x: string)
    requires names != {}
    ensures IsLeast(x, names)
  {
    LeastExists(names);
    assert forall a, b :: IsLeast(a, names) && IsLeast(b, names) ==> a == b by {
      forall a, b | IsLeast(a, names) && IsLeast(b, names) ensures a == b {
        LeastIsUnique(a, b, names);
      }
    }
    var x :| x in names && IsLeast(x, names);
    x
  }

  /** The names in ascending order, each once. */
  function Sorted(names: set<string>): (s: seq<string>)
    ensures Ascending(s)
    ensures forall x :: x in s <==> x in names
    ensures |s| == |names|
  {
    if names == {} then []
    else
      var x := Least(names);
      var rest := Sorted(names - {x});
      assert forall i :: 0 <= i < |rest| ==> rest[i] in rest;
      [x] + rest
  }

  /** The ascending sequence of a set is the only one, so an order that several
      machines compute separately is the same order. */
  lemma {:induction false} AscendingIsUnique(a: seq<string>, b: seq<string>)
    requires Ascending(a) && Ascending(b)
    requires forall x :: x in a <==> x in b
    ensures a == b
  {
    if b != [] { assert b[0] in b; }
    if a != [] { assert a[0] in a; }
    if a != [] && b != [] {
      assert a[0] in b && b[0] in a;
      if a[0] != b[0] {
        LessIsAsymmetric(a[0], b[0]);
      }
      AscendingTail(a);
      AscendingTail(b);
      AscendingIsUnique(a[1..], b[1..]);
    }
  }

  lemma AscendingTail(a: seq<string>)
    requires Ascending(a) && a != []
    ensures Ascending(a[1..])
    ensures forall x :: x in a[1..] <==> x in a && x != a[0]
  {
    forall x | x in a[1..] ensures x in a && x != a[0] {
      var i :| 0 <= i < |a[1..]| && a[1..][i] == x;
      assert a[i + 1] == x;
      LessIsAsymmetric(a[0], a[i + 1]);
    }
  }
}
