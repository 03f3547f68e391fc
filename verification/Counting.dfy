/** How many flags of a sequence are set. */
module Counting {
  function Count(f: seq<bool>): (n: nat)
    ensures n <= |f|
  {
    if f == [] then 0 else Count(f[..|f| - 1]) + if f[|f| - 1] then 1 else 0
  }

  lemma {:induction false} CountSet(f: seq<bool>, k: nat)
    requires k < |f| && !f[k]
    ensures Count(f[k := true]) == Count(f) + 1
  {
    var n := |f| - 1;
    if k < n {
      CountSet(f[..n], k);
      assert f[k := true][..n] == f[..n][k := true];
    } else {
      assert f[k := true][..n] == f[..n];
    }
  }

  lemma {:induction false} CountNone(f: seq<bool>)
    requires forall k :: 0 <= k < |f| ==> !f[k]
    ensures Count(f) == 0
  {
    if f != [] { CountNone(f[..|f| - 1]); }
  }

  lemma {:induction false} CountPos(f: seq<bool>, k: nat)
    requires k < |f| && f[k]
    ensures Count(f) > 0
  {
    if k < |f| - 1 { CountPos(f[..|f| - 1], k); }
  }

  ghost predicate Within(f: seq<bool>, g: seq<bool>) {
    |f| == |g| && forall k :: 0 <= k < |f| && f[k] ==> g[k]
  }

  /** A subset is no larger, and equal in size only when it is everything. */
  lemma {:induction false} CountWithin(f: seq<bool>, g: seq<bool>)
    requires Within(f, g)
    ensures Count(f) <= Count(g) && (Count(f) == Count(g) ==> f == g)
  {
    if f != [] {
      var n := |f| - 1;
      CountWithin(f[..n], g[..n]);
      assert f == f[..n] + [f[n]] && g == g[..n] + [g[n]];
    }
  }

  /** Two disjoint parts count up to the whole. */
  lemma {:induction false} CountSplit(whole: seq<bool>, a: seq<bool>, b: seq<bool>)
    requires |whole| == |a| == |b|
    requires forall k :: 0 <= k < |whole| ==> (whole[k] <==> a[k] || b[k]) && !(a[k] && b[k])
    ensures Count(whole) == Count(a) + Count(b)
  {
    if whole != [] {
      var n := |whole| - 1;
      CountSplit(whole[..n], a[..n], b[..n]);
    }
  }

  /** Clearing one flag takes one off the count. */
  lemma CountClear(f: seq<bool>, k: nat)
    requires k < |f| && f[k]
    ensures Count(f) == Count(f[k := false]) + 1
  {
    CountSet(f[k := false], k);
    assert f[k := false][k := true] == f;
  }

  lemma {:induction false} CountAll(f: seq<bool>)
    requires forall k :: 0 <= k < |f| ==> f[k]
    ensures Count(f) == |f|
  {
    if f != [] { CountAll(f[..|f| - 1]); }
  }
}
