/**
  Values shared by all parts of the model.
 */
module Common {
  datatype Option<+T> = None | Some(value: T)

  // A JSON value read under a type guard: absent and of another type are the same.
  datatype Typed<+T> = Wrong | Is(value: T)

  lemma Associative<T>(a: seq<T>, b: seq<T>, c: seq<T>)
    ensures (a + b) + c == a + (b + c)
  {}

  // A stretch of `a` and one of `b` behind it.
  lemma Stretches<T>(s: seq<T>, a: nat, b: nat)
    requires a + b <= |s|
    ensures s[..a + b] == s[..a] + s[a..][..b] && s[a..][b..] == s[a + b..]
  {
    assert s[a..][..b] == s[a..a + b];
    assert s[..a + b] == s[..a] + s[a..a + b];
  }

  // A property of some or of all elements, by the last one.
  lemma SomeExtends<T>(s: seq<T>, p: T -> bool)
    requires s != []
    ensures var n := |s| - 1;
            (exists i :: 0 <= i < |s| && p(s[i])) <==> (exists i :: 0 <= i < n && p(s[..n][i])) || p(s[n])
  {
    var n := |s| - 1;
    forall i | 0 <= i < n ensures s[..n][i] == s[i] {}
  }

  lemma AllExtends<T>(s: seq<T>, p: T -> bool)
    requires s != []
    ensures var n := |s| - 1;
            (forall i :: 0 <= i < |s| ==> p(s[i])) <==> (forall i :: 0 <= i < n ==> p(s[..n][i])) && p(s[n])
  {
    var n := |s| - 1;
    forall i | 0 <= i < n ensures s[..n][i] == s[i] {}
  }
}
