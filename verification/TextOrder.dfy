/** The order of Rust's `str`: lexicographic by scalar value, which is what UTF-8 byte order
    amounts to. `BTreeMap` and `BTreeSet` iterate their keys in it. */
module TextOrder {

  /** A configured name: a category, an entity, a chain or an endpoint type. */
  datatype Name = Name(text: string)

  predicate TextLess(a: string, b: string) {
    b != [] && (a == [] || a[0] < b[0] || (a[0] == b[0] && TextLess(a[1..], b[1..])))
  }

  predicate Less(a: Name, b: Name) {
    TextLess(a.text, b.text)
  }

  lemma {:induction false} TextTotal(a: string, b: string)
    ensures TextLess(a, b) || a == b || TextLess(b, a)
  {
    if a != [] && b != [] && a[0] == b[0] {
      TextTotal(a[1..], b[1..]);
      assert a == [a[0]] + a[1..] && b == [b[0]] + b[1..];
    }
  }

  lemma {:induction false} TextAsymmetric(a: string, b: string)
    requires TextLess(a, b)
    ensures a != b && !TextLess(b, a)
  {
    if a != [] && a[0] == b[0] {
      TextAsymmetric(a[1..], b[1..]);
    }
  }

  /** The texts agree up to `n`, where `a` ends or has the smaller character. */
  ghost predicate SmallerAt(a: string, b: string, n: nat) {
    n <= |a| && n < |b| && a[..n] == b[..n] && (n == |a| || a[n] < b[n])
  }

  /** Where the texts first differ the smaller character decides, and a proper prefix comes first. */
  lemma {:induction false} TextLessMeans(a: string, b: string)
    ensures TextLess(a, b) <==> exists n :: SmallerAt(a, b, n)
  {
    forall n: nat | SmallerAt(a, b, n) ensures n == 0 || (a != [] && b != [] && a[0] == b[0]) {
      if n > 0 { assert a[..n][0] == b[..n][0]; }
    }
    if a != [] && b != [] && a[0] == b[0] {
      TextLessMeans(a[1..], b[1..]);
      if n: nat :| SmallerAt(a[1..], b[1..], n) {
        assert a[..n + 1] == [a[0]] + a[1..][..n] && b[..n + 1] == [b[0]] + b[1..][..n];
        assert SmallerAt(a, b, n + 1);
      }
      if n: nat :| SmallerAt(a, b, n) {
        assert a[1..][..n - 1] == a[..n][1..] && b[1..][..n - 1] == b[..n][1..];
        assert SmallerAt(a[1..], b[1..], n - 1);
      }
    } else {
      assert SmallerAt(a, b, 0) <==> TextLess(a, b);
    }
  }

  lemma {:induction false} TextTransitive(a: string, b: string, c: string)
    requires TextLess(a, b) && TextLess(b, c)
    ensures TextLess(a, c)
  {
    if a != [] && a[0] == b[0] == c[0] {
      TextTransitive(a[1..], b[1..], c[1..]);
    }
  }

  predicate IsLeast(x: Name, s: set<Name>) {
    x in s && forall y :: y in s && y != x ==> Less(x, y)
  }

  lemma {:induction false} LeastExists(s: set<Name>)
    requires s != {}
    ensures exists x :: IsLeast(x, s)
  {
    hide TextLess;
    var z :| z in s;
    var rest := s - {z};
    if rest == {} {
      assert s == {z} + rest;
      assert IsLeast(z, s);
    } else {
      LeastExists(rest);
      var x :| IsLeast(x, rest);
      TextTotal(x.text, z.text);
      if Less(x, z) {
        assert IsLeast(x, s);
      } else {
        forall y | y in s && y != z ensures Less(z, y) {
          if y != x {
            assert y in rest;
            TextTransitive(z.text, x.text, y.text);
          }
        }
        assert IsLeast(z, s);
      }
    }
  }

  lemma LeastUnique(x: Name, y: Name, s: set<Name>)
    requires IsLeast(x, s) && IsLeast(y, s)
    ensures x == y
  {
    if x != y { TextAsymmetric(x.text, y.text); }
  }

  ghost predicate Sorted(r: seq<Name>) {
    forall i, j :: 0 <= i < j < |r| ==> Less(r[i], r[j])
  }

  /** The iteration order of a `BTreeSet` (or of the keys of a `BTreeMap`). */
  function Ascending(s: set<Name>): (r: seq<Name>)
    ensures |r| == |s|
    ensures forall x :: x in r <==> x in s
    decreases |s|
  {
    if s == {} then []
    else
      LeastExists(s);
      assert forall x, y :: IsLeast(x, s) && IsLeast(y, s) ==> x == y by {
        forall x, y | IsLeast(x, s) && IsLeast(y, s) ensures x == y { LeastUnique(x, y, s); }
      }
      var x :| x in s && IsLeast(x, s);
      [x] + Ascending(s - {x})
  }

  lemma {:induction false} AscendingSorted(s: set<Name>)
    ensures Sorted(Ascending(s))
    decreases |s|
  {
    if s != {} {
      var r := Ascending(s);
      assert IsLeast(r[0], s);
      AscendingSorted(s - {r[0]});
      forall i, j | 0 <= i < j < |r| ensures Less(r[i], r[j]) {
        if i == 0 { assert r[j] in s - {r[0]}; }
      }
    }
  }

  ghost predicate Distinct<T>(r: seq<T>) {
    forall i, j :: 0 <= i < j < |r| ==> r[i] != r[j]
  }

  /** Strictly ascending text lists no element twice. */
  lemma AscendingDistinct(s: set<Name>)
    ensures Distinct(Ascending(s))
  {
    var r := Ascending(s);
    AscendingSorted(s);
    forall i, j | 0 <= i < j < |r| ensures r[i] != r[j] { TextAsymmetric(r[i].text, r[j].text); }
  }
}
