/** Field arithmetic modulo 2^255 - 19 on arrays of sixteen 64-bit limbs
    (common/rd_secure.c:25-90): no operation overflows int64 and each denotes the
    field operation. */
module Field25519 {
  import opened Bytes
  import opened Limbs25519
  import Arith

  /** The residue modulo P, in 0 .. P - 1. */
  function Res(x: int): (r: nat)
    ensures r < P
  {
    x % P
  }

  /** The residue an element denotes. */
  ghost function Fe(o: array<i64>): (r: nat)
    requires o.Length == 16
    reads o
    ensures r < P
  {
    Res(Num(o[..], o.Length))
  }

  /** What a multiplication leaves: every limb clean but the lowest, which is off by
      at most 38. */
  predicate Tight(o: array<i64>)
    reads o
  {
    o.Length == 16 && -38 <= o[0] <= 0xFFFF + 38 && forall k :: 1 <= k < 16 ==> 0 <= o[k] <= 0xFFFF
  }

  /** A sum or difference of two tight elements, fit for multiplication. */
  predicate Loose(o: array<i64>)
    reads o
  {
    o.Length == 16 && forall k :: 0 <= k < 16 ==> -0x4_0000 <= o[k] <= 0x4_0000
  }

  lemma ResMultiple(x: int, k: int)
    ensures Res(x + P * k) == Res(x)
  {
    Arith.ModAdd(x, P, k);
  }

  lemma ResParts(x: int) returns (k: int)
    ensures x == Res(x) + P * k
  {
    k := x / P;
  }

  lemma ResSum(x: int, y: int)
    ensures Res(Res(x) + Res(y)) == Res(x + y)
    ensures Res(Res(x) - Res(y)) == Res(x - y)
  {
    hide Res;
    var a := ResParts(x);
    var b := ResParts(y);
    Arith.MulDist(P, a, b);
    Arith.MulDist(P, a, -b);
    ResMultiple(Res(x) + Res(y), a + b);
    ResMultiple(Res(x) - Res(y), a - b);
  }

  lemma ResProduct(x: int, y: int)
    ensures Res(x * y) == Res(Res(x) * Res(y))
    ensures Res(x * y) == Res(Res(x) * y)
  {
    hide Res;
    var a := ResParts(x);
    var b := ResParts(y);
    var u, v := Res(x), Res(y);
    ResMultiple(u * y, a * y);
    Arith.Distributes(u, P * a, y);
    Arith.MulDist(u, v, P * b);
    Arith.MulSwap(u, P, b);
    Arith.MulAssocInt(P, a, y);
    Arith.MulDist(P, u * b, a * y);
    ResMultiple(u * v, u * b + a * y);
  }

  method Add(o: array<i64>, a: array<i64>, b: array<i64>)
    requires o.Length == 16 && Tight(a) && Tight(b)
    modifies o
    ensures Loose(o) && Fe(o) == Res(old(Fe(a)) + old(Fe(b)))
  {
    hide Num, Res;
    ghost var x: seq<int>, y: seq<int> := a[..], b[..];
    for i := 0 to 16
      invariant forall k :: 0 <= k < i ==> o[k] == x[k] + y[k]
      invariant forall k :: i <= k < 16 ==> a[k] == x[k] && b[k] == y[k]
    {
      o[i] := a[i] + b[i];
    }
    NumAdd(x, y, o[..], |x|);
    ResSum(Num(x, |x|), Num(y, |y|));
  }

  method Sub(o: array<i64>, a: array<i64>, b: array<i64>)
    requires o.Length == 16 && Tight(a) && Tight(b)
    modifies o
    ensures Loose(o) && Fe(o) == Res(old(Fe(a)) - old(Fe(b)))
  {
    hide Num, Res;
    ghost var x: seq<int>, y: seq<int> := a[..], b[..];
    for i := 0 to 16
      invariant forall k :: 0 <= k < i ==> o[k] == x[k] - y[k]
      invariant forall k :: i <= k < 16 ==> a[k] == x[k] && b[k] == y[k]
    {
      o[i] := a[i] - b[i];
    }
    NumAdd(o[..], y, x, |x|);
    ResSum(Num(x, |x|), Num(y, |y|));
  }

  // ------------------------------------------------------------- car25519

  function FoldTop(d: seq<int>, c: int): (t: seq<int>)
    requires |d| == 16
    ensures |t| == 16
  {
    d[0 := d[0] + 38 * c]
  }

  /** One carry pass: every limb becomes a digit, and the carry out of the top comes
      back into the lowest limb times 38. */
  function Carried(s: seq<int>): (t: seq<int>)
    requires |s| == 16
    ensures |t| == 16
  {
    FoldTop(Digits(s), CarryInto(s, |s|))
  }

  lemma CarriedNumber(s: seq<int>)
    requires |s| == 16
    ensures Num(Carried(s), |s|) == Num(s, |s|) - 2 * P * CarryInto(s, |s|)
    ensures Res(Num(Carried(s), |s|)) == Res(Num(s, |s|))
  {
    hide Num, Digits, CarryInto, Res, FoldTop;
    FoldTopNumber(Digits(s), CarryInto(s, |s|));
    CarryOut(s);
    FoldBack(Num(Digits(s), |s|), Num(s, |s|), Num(Carried(s), |s|), CarryInto(s, |s|));
  }

  lemma FoldTopNumber(d: seq<int>, c: int)
    requires |d| == 16
    ensures Num(FoldTop(d, c), |d|) == Num(d, |d|) + 38 * c
  {
    hide Num;
    LowLimb(d, 38 * c);
  }

  lemma FoldBack(digits: int, before: int, after: int, c: int)
    requires digits + (2 * P + 38) * c == before && after == digits + 38 * c
    ensures after == before - 2 * P * c && Res(after) == Res(before)
  {
    ResMultiple(before, -2 * c);
  }

  lemma CarryOut(s: seq<int>)
    requires |s| == 16
    ensures Num(Digits(s), |s|) + (2 * P + 38) * CarryInto(s, |s|) == Num(s, |s|)
  {
    hide Num, Digits, CarryInto, W;
    CarryKeepsNumber(s, |s|);
    WeightTop();
  }

  lemma LowLimb(s: seq<int>, v: int)
    requires |s| == 16
    ensures Num(s[0 := s[0] + v], |s|) == Num(s, |s|) + v
  {
    hide Num;
    NumUpdate(s, 0, v, |s|);
    assert W(0) == 1;
  }

  const CARRY_MAX := 0x1000_0000_0000

  ghost predicate Bounded(s: seq<int>) {
    |s| == 16 && forall k :: 0 <= k < 16 ==> -CARRY_MAX * 0xFFFF <= s[k] <= CARRY_MAX * 0xFFFF
  }

  ghost predicate CarryDone(t: seq<int>, s: seq<int>, i: nat) {
    && |s| == |t| == 16 && i < 16
    && (forall k :: 0 <= k < i ==> t[k] == Digit(s, k))
    && t[i] == s[i] + CarryInto(s, i)
    && (forall k :: i < k < 16 ==> t[k] == s[k])
  }

  lemma CarryStep(t: seq<int>, s: seq<int>, i: nat)
    requires Bounded(s) && CarryDone(t, s, i)
    ensures -0x1FFFF_FFFF_FFFF_FFFF / 4 <= t[i] <= 0x1FFFF_FFFF_FFFF_FFFF / 4
    ensures (t[i] + BASE) / BASE - 1 == CarryInto(s, i + 1) && t[i] + BASE - (t[i] + BASE) / BASE * BASE == Digit(s, i)
    ensures -CARRY_MAX <= CarryInto(s, i + 1) <= CARRY_MAX
  {
    CarryBound(s, CARRY_MAX, i);
    CarryBound(s, CARRY_MAX, i + 1);
  }

  /** car25519: the loop in place, with the shift by 2^16 that keeps it non-negative. */
  method Carry(o: array<i64>)
    requires o.Length == 16 && Bounded(o[..])
    modifies o
    ensures o[..] == Carried(old(o[..])) && Fe(o) == old(Fe(o))
  {
    hide Digit, CarryInto, Num, Res;
    ghost var s: seq<int> := o[..];
    CarryStart(s);
    for i := 0 to 16
      invariant if i < 16 then CarryDone(o[..], s, i) else o[..] == Carried(s)
    {
      CarryStep(o[..], s, i);
      o[i] := o[i] + BASE;
      var c: i64 := o[i] / BASE;
      if i < 15 {
        o[i + 1] := o[i + 1] + (c - 1);
      } else {
        o[0] := o[0] + (c - 1 + 37 * (c - 1));
      }
      o[i] := o[i] - c * BASE;
    }
    CarriedNumber(s);
  }

  lemma CarryStart(s: seq<int>)
    requires |s| == 16
    ensures CarryDone(s, s, 0)
  {
  }

  // ----------------------------------------------------------------- fmul

  const LIMB := 0x4_0000
  /** Bound of one limb product. */
  const LIMB2 := 0x10_0000_0000

  ghost predicate LooseSeq(s: seq<int>) {
    |s| == 16 && forall k :: 0 <= k < 16 ==> -LIMB <= s[k] <= LIMB
  }

  /** The convolution up to row `i` and, in that row, column `j`. */
  ghost predicate Convolved(t: seq<int>, x: seq<int>, y: seq<int>, i: nat, j: nat) {
    && |t| == 31 && LooseSeq(x) && LooseSeq(y) && i <= 16 && j <= 16
    && Num(t, |t|) == Num(x, i) * Num(y, |y|) + (if i < 16 then x[i] * (W(i) * Num(y, j)) else 0)
    && forall k :: 0 <= k < 31 ==> var rows := if k < i + j then i + 1 else i; -rows * LIMB2 <= t[k] <= rows * LIMB2
  }

  lemma ConvolveStart(t: seq<int>, x: seq<int>, y: seq<int>)
    requires |t| == 31 && LooseSeq(x) && LooseSeq(y) && forall k :: 0 <= k < 31 ==> t[k] == 0
    ensures Convolved(t, x, y, 0, 0)
  {
    hide W;
    NumZero(t, |t|);
  }

  lemma ProductRange(a: int, b: int)
    requires -LIMB <= a <= LIMB && -LIMB <= b <= LIMB
    ensures -LIMB2 <= a * b <= LIMB2
  {
    Arith.MulRange(a, b, LIMB, LIMB);
  }

  lemma ConvolveStep(t: seq<int>, x: seq<int>, y: seq<int>, i: nat, j: nat)
    requires Convolved(t, x, y, i, j) && i < 16 && j < 16
    ensures -LIMB2 <= x[i] * y[j] <= LIMB2 && -32 * LIMB2 <= t[i + j] + x[i] * y[j] <= 32 * LIMB2
    ensures Convolved(t[i + j := t[i + j] + x[i] * y[j]], x, y, i, j + 1)
  {
    hide Num, W;
    ProductRange(x[i], y[j]);
    NumUpdate(t, i + j, x[i] * y[j], |t|);
    ConvolveTerm(x, y, i, j);
  }

  lemma ConvolveTerm(x: seq<int>, y: seq<int>, i: nat, j: nat)
    requires i < |x| && j < |y|
    ensures x[i] * (W(i) * Num(y, j + 1)) == x[i] * (W(i) * Num(y, j)) + x[i] * y[j] * W(i + j)
  {
    hide W;
    var a, b, w, v := x[i], y[j], W(i), W(j);
    WeightSum(i, j);
    Arith.MulDist(w, Num(y, j), b * v);
    Arith.MulDist(a, w * Num(y, j), w * (b * v));
    Arith.MulSwap(w, b, v);
    Arith.MulAssocInt(a, b, w * v);
  }

  lemma ConvolveRow(t: seq<int>, x: seq<int>, y: seq<int>, i: nat)
    requires Convolved(t, x, y, i, 16) && i < 16
    ensures Convolved(t, x, y, i + 1, 0)
  {
    hide W;
    Arith.Distributes(Num(x, i), x[i] * W(i), Num(y, |y|));
    Arith.MulAssocInt(x[i], W(i), Num(y, |y|));
    assert Num(y, 0) == 0;
  }

  /** t[i + j] += a[i] * b[j] */
  method AddProduct(t: array<i64>, ai: i64, bj: i64, ghost x: seq<int>, ghost y: seq<int>, i: nat, j: nat)
    requires t.Length == 31 && i < 16 && j < 16 && |x| == |y| == 16 && ai == x[i] && bj == y[j]
    requires Convolved(t[..], x, y, i, j)
    modifies t
    ensures Convolved(t[..], x, y, i, j + 1)
  {
    hide Convolved;
    ghost var before: seq<int> := t[..];
    ConvolveStep(before, x, y, i, j);
    var product: i64 := ai * bj;
    t[i + j] := t[i + j] + product;
    assert t[..] == before[i + j := before[i + j] + x[i] * y[j]];
  }

  /** The schoolbook product into 31 limbs. */
  method Products(a: array<i64>, b: array<i64>) returns (t: array<i64>)
    requires Loose(a) && Loose(b)
    ensures fresh(t) && t.Length == 31
    ensures Convolved(t[..], a[..], b[..], 16, 0)
  {
    hide Convolved, Num, W, Loose;
    ghost var x: seq<int>, y: seq<int> := a[..], b[..];
    LooseBoth(a, b);
    t := new i64[31](_ => 0);
    ConvolveStart(t[..], x, y);
    for i := 0 to 16
      invariant Convolved(t[..], x, y, i, 0)
    {
      for j := 0 to 16
        invariant Convolved(t[..], x, y, i, j)
      {
        AddProduct(t, a[i], b[j], x, y, i, j);
      }
      ConvolveRow(t[..], x, y, i);
    }
  }

  lemma LooseBoth(a: array<i64>, b: array<i64>)
    requires Loose(a) && Loose(b)
    ensures a.Length == b.Length == 16 && LooseSeq(a[..]) && LooseSeq(b[..])
  {
  }

  /** The first `i` high limbs have been folded into the low ones. */
  ghost predicate Folded(t: seq<int>, s: seq<int>, i: nat) {
    && |t| == |s| == 31 && i <= 15
    && (forall k :: 0 <= k < i ==> t[k] == s[k] + 38 * s[k + 16])
    && (forall k :: i <= k < 31 ==> t[k] == s[k])
  }

  lemma {:induction false} FoldedNumber(t: seq<int>, s: seq<int>, n: nat)
    requires Folded(t, s, 15) && n <= 15
    ensures Num(t, n) == Num(s, n) + 38 * Num(s[16..], n)
  {
    if n != 0 {
      FoldedNumber(t, s, n - 1);
      var w := W(n - 1);
      Arith.Distributes(s[n - 1], 38 * s[n - 1 + 16], w);
      Arith.MulAssocInt(38, s[n - 1 + 16], w);
    }
  }

  lemma FoldedResidue(t: seq<int>, s: seq<int>, low: seq<int>)
    requires Folded(t, s, 15) && |low| == 16 && low == t[..16]
    ensures Res(Num(low, |low|)) == Res(Num(s, |s|))
  {
    hide Num, W, Res;
    var high := s[16..];
    FoldedNumber(t, s, 15);
    NumSplit(s, 16, |s|);
    NumLast(low, 16);
    NumLast(s, 16);
    NumSame(low, t, 15);
    WeightTop();
    FoldWide(Num(s, |s|), Num(s, 16), W(16), Num(high, 15), Num(low, 16));
  }

  lemma FoldWide(whole: int, low: int, w: int, high: int, folded: int)
    requires w == 2 * P + 38 && whole == low + w * high && folded == low + 38 * high
    ensures Res(folded) == Res(whole)
  {
    Arith.Distributes(2 * P, 38, high);
    ResMultiple(whole, -2 * high);
  }

  lemma NumLast(s: seq<int>, n: nat)
    requires 0 < n <= |s|
    ensures Num(s, n) == Num(s, n - 1) + s[n - 1] * W(n - 1)
  {
  }

  /** After folding, two carry passes leave a tight element. */
  lemma TwoCarries(s: seq<int>)
    requires |s| == 16 && forall k :: 0 <= k < 16 ==> -0x4000_0000_0000 <= s[k] <= 0x4000_0000_0000
    ensures Bounded(s) && Bounded(Carried(s))
    ensures var u := Carried(Carried(s));
      -38 <= u[0] <= 0xFFFF + 38 && forall k :: 1 <= k < 16 ==> 0 <= u[k] <= 0xFFFF
  {
    hide CarryInto, Num;
    CarryBound(s, 0x8000_0000, |s|);
    var t := Carried(s);
    CarrySettles(t, |t|);
  }

  /** fmul: o = a * b in the field; the operands may be the target itself. */
  method Mul(o: array<i64>, a: array<i64>, b: array<i64>)
    requires o.Length == 16 && Loose(a) && Loose(b)
    modifies o
    ensures Tight(o) && Fe(o) == Res(old(Fe(a)) * old(Fe(b)))
  {
    hide Convolved, Num, W, Res, Folded, Loose;
    ghost var x: seq<int>, y: seq<int> := a[..], b[..];
    var t := Products(a, b);
    ghost var s: seq<int> := t[..];
    ConvolvedFacts(s, x, y);
    FoldStart(s);
    for i := 0 to 15
      invariant Folded(t[..], s, i)
    {
      FoldStep(t[..], s, i);
      var high: int := t[i + 16];
      t[i] := t[i] + 38 * high;
    }
    ghost var u: seq<int> := t[..];
    FoldRange(u, s);
    for i := 0 to 16
      invariant t[..] == u && forall k :: 0 <= k < i ==> o[k] == u[k]
    {
      o[i] := t[i];
    }
    FoldedResidue(u, s, o[..]);
    TwoCarries(o[..]);
    Carry(o);
    Carry(o);
    ResProduct(Num(x, |x|), Num(y, |y|));
  }

  lemma ConvolvedFacts(s: seq<int>, x: seq<int>, y: seq<int>)
    requires Convolved(s, x, y, 16, 0)
    ensures |s| == 31 && |x| == |y| == 16 && Num(s, |s|) == Num(x, |x|) * Num(y, |y|)
    ensures forall k :: 0 <= k < 31 ==> -17 * LIMB2 <= s[k] <= 17 * LIMB2
  {
  }

  lemma FoldStart(s: seq<int>)
    requires |s| == 31
    ensures Folded(s, s, 0)
  {
  }

  lemma FoldStep(t: seq<int>, s: seq<int>, i: nat)
    requires Folded(t, s, i) && i < 15 && forall k :: 0 <= k < 31 ==> -17 * LIMB2 <= s[k] <= 17 * LIMB2
    ensures |t| == 31 && -0x4000_0000_0000 <= t[i] + 38 * t[i + 16] <= 0x4000_0000_0000
    ensures Folded(t[i := t[i] + 38 * t[i + 16]], s, i + 1)
  {
  }

  lemma FoldRange(t: seq<int>, s: seq<int>)
    requires Folded(t, s, 15) && forall k :: 0 <= k < 31 ==> -17 * LIMB2 <= s[k] <= 17 * LIMB2
    ensures |t| == 31 && forall k :: 0 <= k < 31 ==> -0x4000_0000_0000 <= t[k] <= 0x4000_0000_0000
  {
    forall k | 0 <= k < 31
      ensures -0x4000_0000_0000 <= t[k] <= 0x4000_0000_0000
    {
      if k < 15 { assert -17 * LIMB2 <= s[k + 16] <= 17 * LIMB2; }
    }
  }
}
