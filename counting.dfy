/** Counting the positions of a sequence that hold a given value. */
module Counting {
  /** The number of positions of `s` that hold `x`. It is defined from the back,
      so that a loop scanning a prefix extends it one element at a time. */
  function Count<T(==)>(s: seq<T>, x: T): (c: nat)
    ensures c <= |s|
  {
    if s == [] then 0
    else Count(s[..|s| - 1], x) + (if s[|s| - 1] == x then 1 else 0)
  }

  /** Extending a prefix by one element adds one to the count exactly when that element is `x`. */
  lemma CountPrefix<T>(s: seq<T>, k: nat, x: T)
    requires k < |s|
    ensures Count(s[..k + 1], x) == Count(s[..k], x) + (if s[k] == x then 1 else 0)
  {
    assert s[..k + 1][..k] == s[..k];
  }

  /** If every position holding `x` in `b` also holds `x` in `a`, then `b` has no more `x`
      than `a`, and strictly fewer when some position holds `x` in `a` but not in `b`. */
  lemma {:induction false} CountPointwise<T>(a: seq<T>, b: seq<T>, x: T)
    requires |a| == |b|
    requires forall i :: 0 <= i < |b| && b[i] == x ==> a[i] == x
    ensures Count(b, x) <= Count(a, x)
    ensures (exists i :: 0 <= i < |a| && a[i] == x && b[i] != x) ==> Count(b, x) < Count(a, x)
  {
    if a != [] {
      var n := |a| - 1;
      CountPointwise(a[..n], b[..n], x);
      if exists i :: 0 <= i < |a| && a[i] == x && b[i] != x {
        var i :| 0 <= i < |a| && a[i] == x && b[i] != x;
        if i < n {
          assert a[..n][i] == x && b[..n][i] != x;
        }
      }
    }
  }

  /** A value occurs zero times exactly when it does not occur. */
  lemma {:induction false} CountZero<T>(s: seq<T>, x: T)
    ensures Count(s, x) == 0 <==> x !in s
  {
    if s != [] {
      CountZero(s[..|s| - 1], x);
      assert s == s[..|s| - 1] + [s[|s| - 1]];
    }
  }
}
