/**
  Orders and the sorted listing of a finite set.

  The conformance scripts print every collection through `sorted`, and the spawn
  graph through `ORDER BY`.  A sorted listing without repetition is determined by
  its elements, so both are one function of a set and a strict total order.
 */
module Ordering {

  ghost predicate StrictTotal<T(!new)>(less: (T, T) -> bool) {
    && (forall x :: !less(x, x))
    && (forall x, y, z :: less(x, y) && less(y, z) ==> less(x, z))
    && (forall x, y :: x != y ==> less(x, y) || less(y, x))
  }

  ghost predicate Ascending<T>(s: seq<T>, less: (T, T) -> bool) {
    forall i, j :: 0 <= i < j < |s| ==> less(s[i], s[j])
  }

  lemma {:induction false} LeastExists<T(!new)>(s: set<T>, less: (T, T) -> bool) returns (m: T)
    requires StrictTotal(less)
    requires s != {}
    ensures m in s && forall y :: y in s ==> y == m || less(m, y)
  {
    m :| m in s;
    var first := m;
    if s - {first} == {} {
      forall y | y in s ensures y == m { assert y !in s - {m}; }
    } else {
      var n := LeastExists(s - {first}, less);
      if less(n, first) { m := n; }
      forall y | y in s ensures y == m || less(m, y) { if y != first { assert y in s - {first}; } }
    }
  }

  // The elements of `s`, each once, in ascending order.
  function Sorted<T(!new)>(s: set<T>, less: (T, T) -> bool): (r: seq<T>)
    requires StrictTotal(less)
    ensures Ascending(r, less)
    ensures forall x :: x in r <==> x in s
    ensures |r| == |s|
  {
    if s == {} then []
    else
      assert exists m :: m in s && forall y :: y in s ==> y == m || less(m, y) by {
        var m := LeastExists(s, less);
      }
      var m :| m in s && forall y :: y in s ==> y == m || less(m, y);
      [m] + Sorted(s - {m}, less)
  }

  // An ascending listing is determined by its elements.
  lemma {:induction false} AscendingUnique<T(!new)>(a: seq<T>, b: seq<T>, less: (T, T) -> bool)
    requires StrictTotal(less)
    requires Ascending(a, less) && Ascending(b, less)
    requires forall x :: x in a <==> x in b
    ensures a == b
  {
    assert |b| > 0 ==> b[0] in b;
    if a != [] {
      assert a[0] in b;
      assert b != [];
      assert b[0] in a;
      assert a[0] == b[0];
      forall x ensures x in a[1..] <==> x in b[1..] {
        assert x in a <==> x == a[0] || x in a[1..];
        assert x in b <==> x == b[0] || x in b[1..];
        assert a[0] !in a[1..];
        assert b[0] !in b[1..];
      }
      AscendingUnique(a[1..], b[1..], less);
    }
  }

  // The part of `keys` that lies in `chosen`, in order: what a loop over the keys appends.
  function Among<T(==)>(keys: seq<T>, chosen: set<T>): seq<T> {
    if keys == [] then [] else
      var rest := Among(keys[..|keys| - 1], chosen);
      if keys[|keys| - 1] in chosen then rest + [keys[|keys| - 1]] else rest
  }

  lemma {:induction false} AmongMeaning<T(!new)>(keys: seq<T>, chosen: set<T>, less: (T, T) -> bool)
    requires Ascending(keys, less)
    ensures Ascending(Among(keys, chosen), less)
    ensures forall x :: x in Among(keys, chosen) <==> x in keys && x in chosen
  {
    if keys != [] {
      var last := keys[|keys| - 1];
      AmongMeaning(keys[..|keys| - 1], chosen, less);
      assert keys == keys[..|keys| - 1] + [last];
      forall x | x in keys[..|keys| - 1] ensures less(x, last) {
        var i :| 0 <= i < |keys| - 1 && keys[i] == x;
      }
    }
  }

  // Selecting from a sorted listing gives the sorted listing of the selection.
  lemma AmongSorted<T(!new)>(keys: seq<T>, chosen: set<T>, less: (T, T) -> bool)
    requires StrictTotal(less) && Ascending(keys, less)
    requires forall x :: x in chosen ==> x in keys
    ensures Among(keys, chosen) == Sorted(chosen, less)
  {
    AmongMeaning(keys, chosen, less);
    AscendingUnique(Among(keys, chosen), Sorted(chosen, less), less);
  }

  // Code-point order on strings.
  predicate StringLess(a: string, b: string) {
    b != [] && (a == [] || a[0] < b[0] || (a[0] == b[0] && StringLess(a[1..], b[1..])))
  }

  lemma {:induction false} StringLessIrreflexive(a: string)
    ensures !StringLess(a, a)
  {
    if a != [] { StringLessIrreflexive(a[1..]); }
  }

  lemma {:induction false} StringLessTransitive(a: string, b: string, c: string)
    requires StringLess(a, b) && StringLess(b, c)
    ensures StringLess(a, c)
  {
    if a != [] && a[0] == b[0] == c[0] { StringLessTransitive(a[1..], b[1..], c[1..]); }
  }

  lemma {:induction false} StringLessConnected(a: string, b: string)
    requires a != b
    ensures StringLess(a, b) || StringLess(b, a)
  {
    if a != [] && b != [] && a[0] == b[0] {
      assert a == [a[0]] + a[1..] && b == [b[0]] + b[1..];
      StringLessConnected(a[1..], b[1..]);
    }
  }

  lemma StringLessIsOrder()
    ensures StrictTotal(StringLess)
  {
    forall x ensures !StringLess(x, x) { StringLessIrreflexive(x); }
    forall x, y, z | StringLess(x, y) && StringLess(y, z) ensures StringLess(x, z) {
      StringLessTransitive(x, y, z);
    }
    forall x, y | x != y ensures StringLess(x, y) || StringLess(y, x) { StringLessConnected(x, y); }
  }
}
