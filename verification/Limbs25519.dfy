/** Sixteen signed limbs of 16 bits (common/rd_secure.c:25-78) as numbers: weights,
    carries and convolutions. */
module Limbs25519 {
  import opened Bytes
  import Arith

  /** 2^255 - 19 */
  const P := 0x7fff_ffff_ffff_ffff_ffff_ffff_ffff_ffff_ffff_ffff_ffff_ffff_ffff_ffff_ffff_ffed
  const BASE := 0x1_0000

  /** BASE^n */
  function W(n: nat): (w: nat)
    ensures w > 0
  {
    if n == 0 then 1 else BASE * W(n - 1)
  }

  lemma WeightTop()
    ensures W(16) == 2 * P + 38
  {
    assert W(4) == 0x1_0000_0000_0000_0000;
    assert W(8) == 0x1_0000_0000_0000_0000_0000_0000_0000_0000;
    assert W(12) == 0x1_0000_0000_0000_0000_0000_0000_0000_0000_0000_0000_0000_0000;
  }

  lemma {:induction false} WeightSum(i: nat, j: nat)
    ensures W(i + j) == W(i) * W(j)
  {
    if i != 0 {
      WeightSum(i - 1, j);
      Arith.MulAssocInt(BASE, W(i - 1), W(j));
    }
  }

  /** The number the first `n` limbs denote. */
  function Num(s: seq<int>, n: nat): int
    requires n <= |s|
  {
    if n == 0 then 0 else Num(s, n - 1) + s[n - 1] * W(n - 1)
  }

  lemma {:induction false} NumSame(s: seq<int>, t: seq<int>, n: nat)
    requires n <= |s| && n <= |t| && forall k :: 0 <= k < n ==> s[k] == t[k]
    ensures Num(s, n) == Num(t, n)
  {
    if n != 0 { NumSame(s, t, n - 1); }
  }

  /** Changing one limb changes the number by the change times its weight. */
  lemma {:induction false} NumUpdate(s: seq<int>, k: nat, v: int, n: nat)
    requires k < n <= |s|
    ensures Num(s[k := s[k] + v], n) == Num(s, n) + v * W(k)
  {
    var t := s[k := s[k] + v];
    if k == n - 1 {
      NumSame(s, t, n - 1);
      Arith.Distributes(s[k], v, W(k));
    } else {
      NumUpdate(s, k, v, n - 1);
    }
  }

  lemma {:induction false} NumAdd(s: seq<int>, t: seq<int>, u: seq<int>, n: nat)
    requires n <= |s| && n <= |t| && n <= |u| && forall k :: 0 <= k < n ==> u[k] == s[k] + t[k]
    ensures Num(u, n) == Num(s, n) + Num(t, n)
  {
    if n != 0 {
      NumAdd(s, t, u, n - 1);
      Arith.Distributes(s[n - 1], t[n - 1], W(n - 1));
    }
  }

  lemma {:induction false} NumZero(s: seq<int>, n: nat)
    requires n <= |s| && forall k :: 0 <= k < n ==> s[k] == 0
    ensures Num(s, n) == 0
  {
    if n != 0 { NumZero(s, n - 1); }
  }

  lemma {:induction false} NumSplit(s: seq<int>, m: nat, n: nat)
    requires m <= n <= |s|
    ensures Num(s, n) == Num(s, m) + W(m) * Num(s[m..], n - m)
  {
    if n == m {
    } else {
      NumSplit(s, m, n - 1);
      WeightSum(m, n - 1 - m);
      var v := s[n - 1];
      assert s[m..][n - 1 - m] == v;
      Arith.MulDist(W(m), Num(s[m..], n - 1 - m), v * W(n - 1 - m));
      Arith.MulSwap(v, W(m), W(n - 1 - m));
    }
  }

  // -------------------------------------------------------------- carries

  /** The carry into limb `i` of a carry pass from the bottom (floor division). */
  function CarryInto(s: seq<int>, i: nat): int
    requires i <= |s|
  {
    if i == 0 then 0 else (s[i - 1] + CarryInto(s, i - 1)) / BASE
  }

  function Digit(s: seq<int>, i: nat): (d: int)
    requires i < |s|
    ensures 0 <= d < BASE
  {
    (s[i] + CarryInto(s, i)) % BASE
  }

  function Digits(s: seq<int>): (d: seq<int>)
    ensures |d| == |s|
  {
    seq(|s|, i requires 0 <= i < |s| => Digit(s, i))
  }

  lemma {:induction false} CarryKeepsNumber(s: seq<int>, n: nat)
    requires n <= |s|
    ensures Num(Digits(s), n) + CarryInto(s, n) * W(n) == Num(s, n)
  {
    if n != 0 {
      CarryKeepsNumber(s, n - 1);
      var x := s[n - 1] + CarryInto(s, n - 1);
      var w := W(n - 1);
      assert x == BASE * (x / BASE) + x % BASE;
      Arith.Distributes(BASE * (x / BASE), x % BASE, w);
      Arith.Distributes(s[n - 1], CarryInto(s, n - 1), w);
      Arith.MulAssocInt(BASE, x / BASE, w);
      Arith.MulSwap(x / BASE, BASE, w);
    }
  }

  /** A bound on every limb bounds every carry. */
  lemma {:induction false} CarryBound(s: seq<int>, m: int, n: nat)
    requires n <= |s| && m >= 0 && forall k :: 0 <= k < n ==> -m * 0xFFFF <= s[k] <= m * 0xFFFF
    ensures -m <= CarryInto(s, n) <= m
  {
    if n != 0 { CarryBound(s, m, n - 1); }
  }

  /** A wild lowest limb is absorbed by the clean limbs above it. */
  lemma {:induction false} CarrySettles(s: seq<int>, n: nat)
    requires 4 <= n <= |s| && -0x4_0000_0000_0000 <= s[0] <= 0x4_0000_0000_0000
    requires forall k :: 1 <= k < n ==> 0 <= s[k] < BASE
    ensures -1 <= CarryInto(s, n) <= 1
  {
    if n == 4 {
      assert CarryInto(s, 1) == s[0] / BASE;
      assert -0x4_0000_0000 <= CarryInto(s, 1) <= 0x4_0000_0000;
      assert -0x4_0001 <= CarryInto(s, 2) <= 0x4_0001;
      assert -5 <= CarryInto(s, 3) <= 5;
    } else {
      CarrySettles(s, n - 1);
    }
  }
}
