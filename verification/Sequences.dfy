/** Searching a sequence, and slices of slices. */
module Sequences {
  // The first index of x, or -1.
  function IndexOf<T(==)>(s: seq<T>, x: T): (i: int)
    ensures -1 <= i < |s|
  {
    if s == [] then -1
    else if s[0] == x then 0
    else var i := IndexOf(s[1..], x); if i == -1 then -1 else i + 1
  }

  lemma {:induction false} IndexOfIsFirst<T>(s: seq<T>, x: T)
    ensures var i := IndexOf(s, x);
            && (i == -1 <==> forall k :: 0 <= k < |s| ==> s[k] != x)
            && (i >= 0 ==> s[i] == x && forall k :: 0 <= k < i ==> s[k] != x)
  {
    if s != [] && s[0] != x {
      IndexOfIsFirst(s[1..], x);
      assert forall k :: 0 < k < |s| ==> s[k] == s[1..][k - 1];
    }
  }

  // Slices of what follows a.
  lemma SliceAfter<T>(a: seq<T>, rest: seq<T>, from: nat, to: nat)
    requires from <= to <= |rest|
    ensures (a + rest)[|a| + from..|a| + to] == rest[from..to]
  {
    var x, y := (a + rest)[|a| + from..|a| + to], rest[from..to];
    forall k | 0 <= k < |x|
      ensures x[k] == y[k]
    {
      assert (a + rest)[|a| + (from + k)] == rest[from + k];
    }
  }

  lemma SliceBefore<T>(a: seq<T>, rest: seq<T>)
    ensures (a + rest)[..|a|] == a && (a + rest)[0..|a|] == a
  {
  }

  lemma SliceOfSlice<T>(s: seq<T>, base: nat, n: nat, from: nat, to: nat)
    requires from <= to <= n && base + n <= |s|
    ensures s[base..base + n][from..to] == s[base + from..base + to]
  {
    var a, b := s[base..base + n][from..to], s[base + from..base + to];
    forall k | 0 <= k < |a|
      ensures a[k] == b[k]
    {
      assert s[base..base + n][from + k] == s[base + (from + k)];
    }
  }
}
