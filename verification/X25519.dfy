/** rd_x25519 (common/rd_secure.c:92-146) refines the Montgomery ladder of section 5
    of RFC 7748, field element by field element and bit by bit. */
module X25519 {
  import opened Bytes
  import opened Limbs25519
  import opened Field25519
  import opened Pack25519
  import Arith

  // ---------------------------------------------------- the RFC, on numbers

  function FAdd(a: int, b: int): nat { Res(a + b) }

  function FSub(a: int, b: int): nat { Res(a - b) }

  function FMul(a: int, b: int): nat { Res(a * b) }

  function Power(x: int, e: nat): int {
    if e == 0 then 1 else x * Power(x, e - 1)
  }

  function FPow(x: int, e: nat): nat { Res(Power(x, e)) }

  datatype Rungs = Rungs(x2: nat, z2: nat, x3: nat, z3: nat)

  const A24 := 121665

  function CSwap(swap: int, s: Rungs): Rungs {
    if swap == 1 then Rungs(s.x3, s.z3, s.x2, s.z2) else s
  }

  /** The arithmetic of one ladder iteration. */
  function Rung(x1: nat, s: Rungs): Rungs {
    var a := FAdd(s.x2, s.z2);
    var aa := FMul(a, a);
    var b := FSub(s.x2, s.z2);
    var bb := FMul(b, b);
    var e := FSub(aa, bb);
    var c := FAdd(s.x3, s.z3);
    var d := FSub(s.x3, s.z3);
    var da := FMul(d, a);
    var cb := FMul(c, b);
    var sum := FAdd(da, cb);
    var diff := FSub(da, cb);
    Rungs(FMul(aa, bb), FMul(e, FAdd(aa, FMul(A24, e))), FMul(sum, sum), FMul(x1, FMul(diff, diff)))
  }

  /** Bit `t` of the scalar. */
  function Bit(k: nat, t: nat): int {
    k / Pow2(t) % 2
  }

  /** The RFC's loop over t = n - 1 .. 0 around a ladder step; it carries the pending
      swap along. */
  function RfcLoop(k: nat, step: Rungs -> Rungs, s: Rungs, swap: int, n: nat): (Rungs, int)
    decreases n
  {
    if n == 0 then (s, swap)
    else
      var kt := Bit(k, n - 1);
      RfcLoop(k, step, step(CSwap(if swap != kt then 1 else 0, s)), kt, n - 1)
  }

  /** The ladder step for a fixed base coordinate. */
  function StepOf(x1: nat): Rungs -> Rungs {
    s => Rung(x1, s)
  }

  /** x_2 * z_2^(p - 2) after the last conditional swap. */
  function RfcX25519(k: nat, u: nat): nat {
    var r := RfcLoop(k, StepOf(u), Rungs(1, 0, u, 1), 0, 255);
    var s := CSwap(r.1, r.0);
    FMul(s.x2, FPow(s.z2, P - 2))
  }

  function DecodeScalar(n: seq<byte>): (z: seq<byte>)
    requires |n| == 32
    ensures |z| == 32
  {
    n[31 := n[31] % 128 % 64 + 64][0 := n[0] - n[0] % 8]
  }

  /** 2^254 */
  const TOP := 0x4000_0000_0000_0000_0000_0000_0000_0000_0000_0000_0000_0000_0000_0000_0000_0000

  /** The scalar that is multiplied by, whatever its bytes were: a multiple of 8 between
      2^254 and 2^255, with the bits 3 to 253 of what was given. */
  lemma DecodedScalar(n: seq<byte>)
    requires |n| == 32
    ensures LeValue(DecodeScalar(n)) == TOP + 8 * (LeValue(n) % TOP / 8)
    ensures TOP <= LeValue(DecodeScalar(n)) < 2 * TOP && LeValue(DecodeScalar(n)) % 8 == 0
  {
    hide LeValue, Pow256, DecodeScalar;
    TopPower();
    DecodedOver(n, Pow256(30));
  }

  lemma DecodedOver(n: seq<byte>, q: nat)
    requires |n| == 32 && q == Pow256(30)
    ensures var z, v := LeValue(DecodeScalar(n)), LeValue(n);
      q > 0 && z == 0x4000 * q + 8 * (v % (0x4000 * q) / 8) && 0x4000 * q <= z < 0x8000 * q && z % 8 == 0
  {
    hide LeValue, Pow256, DecodeScalar;
    var low, middle, high := n[0], LeValue(n[1..31]), n[31];
    var kept := Times(q, high as int % 64);
    LeValueBound(n[1..31]);
    ModOver(n, q);
    DecodedParts(n, q);
    KeptBound(q, high);
    ClampDiv(low, middle, kept, q);
  }

  function Times(q: nat, k: int): int {
    q * k
  }

  lemma KeptBound(q: nat, high: byte)
    ensures 0 <= Times(q, high as int % 64) <= 63 * q
  {
    Arith.MulMono(q, high as int % 64, 63);
    Arith.MulMono(q, 0, high as int % 64);
  }

  lemma ModOver(n: seq<byte>, q: nat)
    requires |n| == 32 && q == Pow256(30)
    ensures LeValue(n) % (0x4000 * q) == n[0] as int + 0x100 * (LeValue(n[1..31]) + Times(q, n[31] as int % 64))
  {
    hide LeValue, Pow256;
    EndsAndMiddle(n);
    LeValueBound(n[1..31]);
    ClampMod(n[0], LeValue(n[1..31]), n[31], q);
  }

  lemma DecodedParts(n: seq<byte>, q: nat)
    requires |n| == 32 && q == Pow256(30)
    ensures LeValue(DecodeScalar(n))
         == n[0] as int - n[0] as int % 8 + 0x100 * (LeValue(n[1..31]) + (Times(q, n[31] as int % 64) + 64 * q))
  {
    hide LeValue, Pow256;
    var z := DecodeScalar(n);
    EndsAndMiddle(z);
    assert z[1..31] == n[1..31];
    var top: int := z[31];
    assert top == n[31] as int % 64 + 64;
    Arith.MulDist(q, n[31] as int % 64, 64);
  }

  lemma EndsAndMiddle(n: seq<byte>)
    requires |n| == 32
    ensures LeValue(n) == n[0] as int + 0x100 * (LeValue(n[1..31]) + Pow256(30) * n[31] as int)
  {
    hide Pow256;
    LeValueAppend(n[1..31], n[31..]);
    assert n[1..] == n[1..31] + n[31..];
    LastByte(n[31..]);
  }

  lemma LastByte(b: seq<byte>)
    requires |b| == 1
    ensures LeValue(b) == b[0]
  {
  }

  lemma TopPower()
    ensures TOP == 0x4000 * Pow256(30)
  {
    hide W, Pow256;
    WeightTop();
    var n := 16;
    WeightNext(n);
    WeightBytes(n - 1);
  }

  lemma {:induction false} WeightBytes(n: nat)
    ensures W(n) == Pow256(2 * n)
  {
    if n != 0 { WeightBytes(n - 1); }
  }

  lemma ClampMod(low: byte, middle: nat, high: byte, q: nat)
    requires middle < q
    ensures (low as int + 0x100 * (middle + q * high as int)) % (0x4000 * q)
         == low as int + 0x100 * (middle + q * (high as int % 64))
  {
    var top, kept := high as int / 64, high as int % 64;
    Arith.MulDist(q, 64 * top, kept);
    Arith.MulSwap(q, 64, top);
    Arith.MulMono(q, kept, 63);
    Arith.MulMono(q, 0, kept);
    Arith.MulAssocInt(0x4000, q, top);
    Arith.DivUnique(low as int + 0x100 * (middle + q * high as int), 0x4000 * q, top, low as int + 0x100 * (middle + q * kept));
  }

  lemma ClampDiv(low: byte, middle: nat, kept: nat, q: nat)
    requires middle < q && kept <= 63 * q
    ensures var z := low as int - low as int % 8 + 0x100 * (middle + (kept + 64 * q));
      && z == 0x4000 * q + 8 * ((low as int + 0x100 * (middle + kept)) / 8)
      && 0x4000 * q <= z < 0x8000 * q && z % 8 == 0
  {
    var d, r := low as int / 8, low as int % 8;
    ByteParts(low);
    Arith.DivUnique(8 * (d + 0x20 * (middle + kept)) + r, 8, d + 0x20 * (middle + kept), r);
    Arith.DivUnique(8 * (d + 0x20 * (middle + kept) + 0x800 * q), 8, d + 0x20 * (middle + kept) + 0x800 * q, 0);
  }

  lemma ByteParts(low: byte)
    ensures low as int == 8 * (low as int / 8) + low as int % 8 && 0 <= low as int % 8 < 8
  {
  }

  /** Two secrets are the same scalar exactly when they agree in bits 3 to 253; then the
      multiplication gives the same. */
  lemma SameScalar(m: seq<byte>, n: seq<byte>)
    requires |m| == |n| == 32
    ensures LeValue(DecodeScalar(m)) == LeValue(DecodeScalar(n))
       <==> LeValue(m) % TOP / 8 == LeValue(n) % TOP / 8
    ensures DecodeScalar(m) == DecodeScalar(n) <==> LeValue(DecodeScalar(m)) == LeValue(DecodeScalar(n))
  {
    hide LeValue, DecodeScalar, LeBytes;
    DecodedScalar(m);
    DecodedScalar(n);
    LeBytesOfValue(DecodeScalar(m));
    LeBytesOfValue(DecodeScalar(n));
  }

  function DecodeU(p: seq<byte>): nat
    requires |p| == 32
  {
    Res(LeValue(p) % (P + 19))
  }

  /** Swapping before and after every iteration is the same as carrying the swap. */
  function SwapBackLoop(k: nat, step: Rungs -> Rungs, s: Rungs, n: nat): Rungs
    decreases n
  {
    if n == 0 then s
    else
      var kt := Bit(k, n - 1);
      SwapBackLoop(k, step, CSwap(kt, step(CSwap(kt, s))), n - 1)
  }

  lemma {:induction false} SwapBack(k: nat, step: Rungs -> Rungs, s: Rungs, swap: int, n: nat)
    requires swap == 0 || swap == 1
    ensures var r := RfcLoop(k, step, s, swap, n); SwapBackLoop(k, step, CSwap(swap, s), n) == CSwap(r.1, r.0)
    decreases n
  {
    if n != 0 {
      hide Bit;
      var kt := Bit(k, n - 1);
      BitIs01(k, n - 1);
      var turned := CSwap(if swap != kt then 1 else 0, s);
      assert CSwap(kt, CSwap(swap, s)) == turned;
      SwapBack(k, step, step(turned), kt, n - 1);
    }
  }

  lemma BitIs01(k: nat, t: nat)
    ensures Bit(k, t) == 0 || Bit(k, t) == 1
  {
  }

  // ------------------------------------------------------------ inversion

  lemma {:induction false} PowerSum(x: int, d: nat, e: nat)
    ensures Power(x, d + e) == Power(x, d) * Power(x, e)
  {
    if d != 0 {
      PowerSum(x, d - 1, e);
      Arith.MulAssocInt(x, Power(x, d - 1), Power(x, e));
    }
  }

  lemma SquareStep(x: nat, e: nat)
    ensures FMul(FPow(x, e), FPow(x, e)) == FPow(x, 2 * e)
  {
    hide Res, Power;
    PowerSum(x, e, e);
    ResProduct(Power(x, e), Power(x, e));
  }

  lemma MultiplyByBase(x: nat, e: nat)
    requires x < P
    ensures FMul(FPow(x, e), x) == FPow(x, e + 1)
  {
    hide Power;
    PowerOnce(x, e);
    ResProduct(Power(x, e), x);
    SmallRes(x);
  }

  lemma PowerOnce(x: int, e: nat)
    ensures Power(x, e + 1) == Power(x, e) * x && Power(x, 1) == x
  {
    PowerSum(x, e, 1);
    assert Power(x, 1) == x * Power(x, 0);
  }

  lemma SmallRes(x: nat)
    requires x < P
    ensures Res(x) == x
  {
    Arith.DivUnique(x, P, 0, x);
  }

  /** What the exponent 2^255 - 21 falls short of a power of two, seen from bit `a` up. */
  function Short(a: nat): nat {
    if a >= 5 then 1 else if a == 4 then 2 else if a == 3 then 3 else if a == 2 then 6 else if a == 1 then 11 else 21
  }

  /** The leading bits of 2^255 - 21 down to bit `a`. */
  function Exponent(a: nat): int
    requires a <= 255
  {
    Pow2(255 - a) - Short(a)
  }

  lemma ExponentStep(a: nat)
    requires a < 254
    ensures Exponent(a) == 2 * Exponent(a + 1) + if a != 2 && a != 4 then 1 else 0
  {
    assert Pow2(255 - a) == 2 * Pow2(255 - (a + 1));
  }

  lemma {:induction false} Pow2Weight(n: nat)
    ensures Pow2(16 * n) == W(n)
  {
    if n != 0 {
      Pow2Weight(n - 1);
      hide Pow2, W;
      Pow2Base();
      var low, high := 16, 16 * (n - 1);
      Pow2Sum(low, high);
      WeightNext(n);
    }
  }

  lemma Pow2Base()
    ensures Pow2(16) == BASE
  {
    assert Pow2(8) == 0x100;
    Pow2Sum(8, 8);
  }

  lemma WeightNext(n: nat)
    requires n > 0
    ensures W(n) == BASE * W(n - 1)
  {
  }

  lemma ExponentEnds()
    ensures Exponent(254) == 1 && Exponent(0) == P - 2
  {
    hide W;
    var n := 16;
    Pow2Weight(n);
    WeightTop();
    var top := 255;
    assert Pow2(top + 1) == 2 * Pow2(top);
  }

  /** inv25519: square at every bit of the exponent, multiply except at bits 2 and 4. */
  method Invert(o: array<i64>, a: array<i64>)
    requires o.Length == 16 && Tight(a)
    modifies o
    ensures Tight(o) && Fe(o) == FPow(old(Fe(a)), P - 2)
  {
    hide Res, Power, Exponent, Num;
    ghost var x := Fe(a);
    var c := new i64[16](_ => 0);
    Copy(c, a);
    ExponentEnds();
    FirstPower(x);
    var bit := 254;
    while bit > 0
      invariant 0 <= bit <= 254 && Tight(c) && Fe(a) == x && Tight(a)
      invariant Exponent(bit) >= 0 && Fe(c) == FPow(x, Exponent(bit))
    {
      bit := bit - 1;
      ExponentStep(bit);
      SquareStep(x, Exponent(bit + 1));
      TightIsLoose(c);
      Mul(c, c, c);
      if bit != 2 && bit != 4 {
        MultiplyByBase(x, 2 * Exponent(bit + 1));
        TightIsLoose(c);
        TightIsLoose(a);
        Mul(c, c, a);
      }
    }
    Copy(o, c);
  }

  method Copy(o: array<i64>, a: array<i64>)
    requires o.Length == a.Length == 16 && o != a
    modifies o
    ensures o[..] == a[..] && Fe(o) == Fe(a)
  {
    for i := 0 to 16
      invariant forall k :: 0 <= k < i ==> o[k] == a[k]
    {
      o[i] := a[i];
    }
    assert o[..] == a[..];
  }

  lemma FirstPower(x: nat)
    requires x < P
    ensures FPow(x, 1) == x
  {
    PowerOnce(x, 0);
    SmallRes(x);
  }

  lemma TightIsLoose(a: array<i64>)
    requires Tight(a)
    ensures Loose(a) && a.Length == 16
  {
  }

  // ----------------------------------------------------------- the scalar

  lemma {:induction false} BitOfBytes(z: seq<byte>, i: nat, j: nat)
    requires i < |z| && j < 8
    ensures Bit(LeValue(z), 8 * i + j) == z[i] as int / Pow2(j) % 2
  {
    hide Pow2, LeValue;
    if i == 0 {
      LeHead(z);
      LowBits(z[0], LeValue(z[1..]), j);
    } else {
      BitOfBytes(z[1..], i - 1, j);
      LeHead(z);
      HighBits(z[0], LeValue(z[1..]), 8 * (i - 1) + j);
    }
  }

  lemma LeHead(z: seq<byte>)
    requires |z| > 0
    ensures LeValue(z) == z[0] as int + 0x100 * LeValue(z[1..])
  {
  }

  lemma LowBits(b: int, rest: nat, j: nat)
    requires 0 <= b < 0x100 && j < 8
    ensures (b + 0x100 * rest) / Pow2(j) % 2 == b / Pow2(j) % 2
  {
    hide Pow2;
    var w, k := Pow2(j), Pow2(7 - j);
    Pow2Sum(j, 7 - j);
    assert w * k == 0x80 by { Pow2At7(); }
    Arith.MulAssocInt(w, k, 2 * rest);
    assert 0x100 * rest == w * (k * (2 * rest));
    Arith.DivUnique(b + 0x100 * rest, w, b / w + k * (2 * rest), b % w);
    Arith.MulSwap(k, 2, rest);
    Arith.ModAdd(b / w, 2, k * rest);
  }

  lemma Pow2At7()
    ensures Pow2(7) == 0x80 && Pow2(8) == 0x100
  {
  }

  lemma HighBits(b: int, rest: nat, t: nat)
    requires 0 <= b < 0x100
    ensures (b + 0x100 * rest) / Pow2(t + 8) == rest / Pow2(t)
  {
    hide Pow2;
    Pow2Sum(8, t);
    Pow2At7();
    Arith.DivDiv(b + 0x100 * rest, 0x100, Pow2(t));
  }

  /** The bit the C loop looks at: (z[i >> 3] >> (i & 7)) & 1. */
  method ScalarBit(z: seq<byte>, i: nat) returns (r: int)
    requires |z| == 32 && i < 256
    ensures r == Bit(LeValue(z), i) && (r == 0 || r == 1)
  {
    hide Pow2, LeValue;
    BitOfBytes(z, i / 8, i % 8);
    var b: int := z[i / 8];
    r := b / Pow2(i % 8) % 2;
  }

  // ----------------------------------------------------------- the ladder

  /** x_2, z_2, x_3, z_3 live in a, c, b, d. */
  ghost function State(a: array<i64>, b: array<i64>, c: array<i64>, d: array<i64>): Rungs
    requires a.Length == b.Length == c.Length == d.Length == 16
    reads a, b, c, d
  {
    Rungs(Fe(a), Fe(c), Fe(b), Fe(d))
  }

  predicate Apart(a: array<i64>, b: array<i64>, c: array<i64>, d: array<i64>, e: array<i64>, f: array<i64>) {
    && a != b && a != c && a != d && a != e && a != f && b != c && b != d && b != e && b != f
    && c != d && c != e && c != f && d != e && d != f && e != f
    && a.Length == b.Length == c.Length == d.Length == e.Length == f.Length == 16
  }

  /** First half of an iteration: A, AA, BB, CB and DA. */
  method FirstHalf(a: array<i64>, b: array<i64>, c: array<i64>, d: array<i64>, e: array<i64>, f: array<i64>)
    requires Apart(a, b, c, d, e, f) && Tight(a) && Tight(b) && Tight(c) && Tight(d)
    modifies a, b, c, d, e, f
    ensures Loose(e) && Tight(d) && Tight(f) && Tight(a) && Tight(c)
    ensures Fe(e) == FAdd(old(Fe(a)), old(Fe(c)))
    ensures Fe(d) == FMul(Fe(e), Fe(e))
    ensures Fe(f) == var t := FSub(old(Fe(a)), old(Fe(c))); FMul(t, t)
    ensures Fe(a) == FMul(FAdd(old(Fe(b)), old(Fe(d))), FSub(old(Fe(a)), old(Fe(c))))
    ensures Fe(c) == FMul(FSub(old(Fe(b)), old(Fe(d))), Fe(e))
  {
    hide Tight, Loose, Fe, Res;
    Add(e, a, c);
    Sub(a, a, c);
    Add(c, b, d);
    Sub(b, b, d);
    Mul(d, e, e);
    Mul(f, a, a);
    Mul(a, c, a);
    Mul(c, b, e);
  }

  /** Second half: the new x_2, z_2, x_3, z_3 from A (e), AA (d), BB (f), CB (a), DA (c). */
  method SecondHalf(x: array<i64>, k: array<i64>, a: array<i64>, b: array<i64>, c: array<i64>, d: array<i64>,
          e: array<i64>, f: array<i64>)
    requires Apart(a, b, c, d, e, f) && x !in {a, b, c, d, e, f} && k !in {a, b, c, d, e, f}
    requires Tight(x) && Tight(k) && Fe(k) == A24
    requires Loose(e) && Tight(d) && Tight(f) && Tight(a) && Tight(c)
    modifies a, b, c, d, e, f
    ensures Tight(a) && Tight(b) && Tight(c) && Tight(d)
    ensures Fe(a) == FMul(old(Fe(d)), old(Fe(f)))
    ensures Fe(c) == var t := FSub(old(Fe(d)), old(Fe(f))); FMul(t, FAdd(FMul(t, A24), old(Fe(d))))
    ensures Fe(b) == var t := FAdd(old(Fe(a)), old(Fe(c))); FMul(t, t)
    ensures Fe(d) == var t := FSub(old(Fe(a)), old(Fe(c))); FMul(FMul(t, t), Fe(x))
  {
    hide Tight, Loose, Fe, Res;
    Add(e, a, c);
    Sub(a, a, c);
    Mul(b, a, a);
    Sub(c, d, f);
    TightIsLoose(k);
    Mul(a, c, k);
    Add(a, a, d);
    Mul(c, c, a);
    TightIsLoose(d);
    TightIsLoose(f);
    Mul(a, d, f);
    TightIsLoose(b);
    TightIsLoose(x);
    Mul(d, b, x);
    Mul(b, e, e);
  }

  lemma SquareOfDifference(u: int, v: int)
    ensures FMul(FSub(u, v), FSub(u, v)) == FMul(FSub(v, u), FSub(v, u))
  {
    hide Res;
    ResProduct(u - v, u - v);
    ResProduct(v - u, v - u);
    assert (u - v) * (u - v) == (v - u) * (v - u);
  }

  lemma FMulComm(u: int, v: int)
    ensures FMul(u, v) == FMul(v, u)
  {
    Arith.MulComm(u, v);
  }

  /** What the two halves compute is the RFC's ladder step. */
  lemma HalvesAreRung(x1: nat, s: Rungs)
    ensures var a, b := FAdd(s.x2, s.z2), FSub(s.x2, s.z2);
      var aa, bb := FMul(a, a), FMul(b, b);
      var cb, da := FMul(FAdd(s.x3, s.z3), b), FMul(FSub(s.x3, s.z3), a);
      var e, sum, diff := FSub(aa, bb), FAdd(cb, da), FSub(cb, da);
      Rung(x1, s) == Rungs(FMul(aa, bb), FMul(e, FAdd(FMul(e, A24), aa)), FMul(sum, sum), FMul(FMul(diff, diff), x1))
  {
    hide Res, FMul, FSub;
    var a, b := FAdd(s.x2, s.z2), FSub(s.x2, s.z2);
    var cb, da := FMul(FAdd(s.x3, s.z3), b), FMul(FSub(s.x3, s.z3), a);
    SquareOfDifference(cb, da);
    FMulComm(A24, FSub(FMul(a, a), FMul(b, b)));
    FMulComm(x1, FMul(FSub(cb, da), FSub(cb, da)));
  }

  /** One iteration of the loop in rd_x25519: swap, step, swap back. */
  method Iteration(r: int, x: array<i64>, k: array<i64>, a: array<i64>, b: array<i64>, c: array<i64>, d: array<i64>,
          e: array<i64>, f: array<i64>)
    requires Apart(a, b, c, d, e, f) && x !in {a, b, c, d, e, f} && k !in {a, b, c, d, e, f}
    requires Tight(x) && Tight(k) && Fe(k) == A24 && (r == 0 || r == 1)
    requires Tight(a) && Tight(b) && Tight(c) && Tight(d)
    modifies a, b, c, d, e, f
    ensures Tight(a) && Tight(b) && Tight(c) && Tight(d)
    ensures State(a, b, c, d) == CSwap(r, Rung(Fe(x), CSwap(r, old(State(a, b, c, d)))))
  {
    hide Tight, Loose, Fe, Res, FMul, FAdd, FSub, Rung;
    TightIsLoose(x);
    ghost var s := CSwap(r, State(a, b, c, d));
    SwapFe(a, b, r);
    SwapFe(c, d, r);
    assert State(a, b, c, d) == s;
    HalvesAreRung(Fe(x), s);
    FirstHalf(a, b, c, d, e, f);
    SecondHalf(x, k, a, b, c, d, e, f);
    assert State(a, b, c, d) == Rung(Fe(x), s);
    SwapFe(a, b, r);
    SwapFe(c, d, r);
  }

  method SwapFe(p: array<i64>, q: array<i64>, b: int)
    requires p != q && Tight(p) && Tight(q) && (b == 0 || b == 1)
    modifies p, q
    ensures Tight(p) && Tight(q)
    ensures Fe(p) == (if b == 1 then old(Fe(q)) else old(Fe(p))) && Fe(q) == (if b == 1 then old(Fe(p)) else old(Fe(q)))
  {
    hide Res, Num;
    Select(p, q, b);
  }

  /** A field element from its limbs. */
  method Constant(low: i64, next: i64) returns (o: array<i64>)
    requires 0 <= low <= 0xFFFF && 0 <= next <= 0xFFFF
    ensures fresh(o) && Tight(o) && Fe(o) == Res(low + BASE * next)
  {
    hide Res;
    o := new i64[16](_ => 0);
    ghost var zero: seq<int> := o[..];
    NumZero(zero, |zero|);
    NumUpdate(zero, 0, low, |zero|);
    o[0] := low;
    ghost var one: seq<int> := o[..];
    assert one == zero[0 := zero[0] + low];
    NumUpdate(one, 1, next, |one|);
    o[1] := next;
    assert o[..] == one[1 := one[1] + next];
    FirstWeights();
  }

  lemma FirstWeights()
    ensures W(0) == 1 && W(1) == BASE
  {
  }

  /** The 255 iterations. */
  method Ladder(z: seq<byte>, x: array<i64>, k: array<i64>, a: array<i64>, b: array<i64>, c: array<i64>, d: array<i64>)
    requires |z| == 32 && Tight(x) && Tight(k) && Fe(k) == A24
    requires a != b && a != c && a != d && b != c && b != d && c != d && x !in {a, b, c, d} && k !in {a, b, c, d}
    requires Tight(a) && Tight(b) && Tight(c) && Tight(d)
    modifies a, b, c, d
    ensures Tight(a) && Tight(b) && Tight(c) && Tight(d)
    ensures var u := old(Fe(x));
      State(a, b, c, d) == SwapBackLoop(LeValue(z), StepOf(u), old(State(a, b, c, d)), 255)
  {
    hide Tight, Loose, Fe, Res, Rung, SwapBackLoop, LeValue, Bit;
    ghost var u := XValue(x);
    ghost var step := StepOf(u);
    ghost var goal := LadderGoal(z, step, a, b, c, d);
    TightIsLoose(a); TightIsLoose(b); TightIsLoose(c); TightIsLoose(d);
    TightIsLoose(x);
    TightIsLoose(k);
    var e := new i64[16](_ => 0);
    var f := new i64[16](_ => 0);
    var i: int := 254;
    while i >= 0
      invariant -1 <= i <= 254 && Tight(x) && x.Length == 16 && Fe(x) == u && Tight(k) && k.Length == 16 && Fe(k) == A24
      invariant Tight(a) && Tight(b) && Tight(c) && Tight(d)
      invariant SwapBackLoop(LeValue(z), step, State(a, b, c, d), i + 1) == goal
      decreases i
    {
      var r := ScalarBit(z, i);
      LoopStep(LeValue(z), step, State(a, b, c, d), i + 1);
      Iteration(r, x, k, a, b, c, d, e, f);
      i := i - 1;
    }
    LoopEnd(LeValue(z), step, State(a, b, c, d));
  }

  ghost function XValue(x: array<i64>): nat
    requires Tight(x)
    reads x
  {
    Fe(x)
  }

  ghost function LadderGoal(z: seq<byte>, step: Rungs -> Rungs, a: array<i64>, b: array<i64>, c: array<i64>,
          d: array<i64>): Rungs
    requires Tight(a) && Tight(b) && Tight(c) && Tight(d)
    reads a, b, c, d
  {
    SwapBackLoop(LeValue(z), step, State(a, b, c, d), 255)
  }

  lemma LoopStep(k: nat, step: Rungs -> Rungs, s: Rungs, n: nat)
    requires n > 0
    ensures SwapBackLoop(k, step, s, n) == SwapBackLoop(k, step, CSwap(Bit(k, n - 1), step(CSwap(Bit(k, n - 1), s))), n - 1)
  {
  }

  lemma LoopEnd(k: nat, step: Rungs -> Rungs, s: Rungs)
    ensures SwapBackLoop(k, step, s, 0) == s
  {
  }

  /** The ladder from its start state: the projective result x_2, z_2. */
  method RunLadder(z: seq<byte>, p: seq<byte>) returns (a: array<i64>, c: array<i64>)
    requires |z| == |p| == 32
    ensures fresh(a) && fresh(c) && a != c && Tight(a) && Tight(c)
    ensures var s := SwapBackLoop(LeValue(z), StepOf(DecodeU(p)), Rungs(1, 0, DecodeU(p), 1), 255);
      Fe(a) == s.x2 && Fe(c) == s.z2
  {
    hide Tight, Loose, Fe, Res, SwapBackLoop, LeValue, StepOf;
    var x := Unpack(p);
    var k := Constant(0xDB41, 1);
    a := Constant(1, 0);
    var d := Constant(1, 0);
    c := Constant(0, 0);
    var b := NewCopy(x);
    SmallConstants();
    LengthsAgree(a, b, c, d);
    assert State(a, b, c, d) == Rungs(1, 0, DecodeU(p), 1);
    Ladder(z, x, k, a, b, c, d);
    LengthsAgree(a, b, c, d);
  }

  /** rd_x25519: the RFC's function of the clamped scalar and the masked coordinate,
      as 32 bytes, and -1 exactly when they are all zero. */
  method Multiply(n: seq<byte>, p: seq<byte>) returns (q: seq<byte>, rc: int)
    requires |n| == 32 && |p| == 32
    ensures var k := TOP + 8 * (LeValue(n) % TOP / 8);
      q == LeBytes(RfcX25519(k, DecodeU(p)), 32) && rc == if RfcX25519(k, DecodeU(p)) == 0 then -1 else 0
  {
    hide Tight, Loose, Fe, Res, SwapBackLoop, LeValue, LeBytes, StepOf, FPow, RfcX25519, DecodeU, DecodeScalar;
    var z := DecodeScalar(n);
    DecodedScalar(n);
    var a, c := RunLadder(z, p);
    LadderMeans(LeValue(z), DecodeU(p));
    TightIsLoose(c);
    Invert(c, c);
    TightIsLoose(a);
    TightIsLoose(c);
    Mul(a, a, c);
    TightIsLoose(a);
    assert Fe(a) == RfcX25519(LeValue(z), DecodeU(p));
    q := Pack(a);
    ResidueBytes(Fe(a), q);
    var zero := AllZero(q);
    rc := if zero then -1 else 0;
  }

  lemma LengthsAgree(a: array<i64>, b: array<i64>, c: array<i64>, d: array<i64>)
    requires Tight(a) && Tight(b) && Tight(c) && Tight(d)
    ensures a.Length == b.Length == c.Length == d.Length == 16
  {
  }

  method NewCopy(x: array<i64>) returns (b: array<i64>)
    requires Tight(x)
    ensures fresh(b) && Tight(b) && Fe(b) == Fe(x)
  {
    b := new i64[16](_ => 0);
    Copy(b, x);
  }

  lemma SmallConstants()
    ensures Res(0xDB41 + BASE * 1) == A24 && Res(1 + BASE * 0) == 1 && Res(0 + BASE * 0) == 0
  {
    SmallRes(A24);
    SmallRes(1);
    SmallRes(0);
  }

  /** The swap-back loop from the start state, then the inversion, is the RFC's function. */
  lemma LadderMeans(k: nat, u: nat)
    ensures var s := SwapBackLoop(k, StepOf(u), Rungs(1, 0, u, 1), 255);
      RfcX25519(k, u) == FMul(s.x2, FPow(s.z2, P - 2))
  {
    hide SwapBackLoop, RfcLoop, StepOf, FMul, FPow;
    var n := 255;
    SwapBack(k, StepOf(u), Rungs(1, 0, u, 1), 0, n);
  }

  /** The check for a low-order point: whether every byte is zero. */
  method AllZero(q: seq<byte>) returns (zero: bool)
    ensures zero <==> LeValue(q) == 0
  {
    zero := true;
    for i := 0 to |q|
      invariant zero <==> forall k :: 0 <= k < i ==> q[k] == 0
    {
      if q[i] != 0 { zero := false; }
    }
    ZeroValue(q);
  }

  lemma {:induction false} ZeroValue(q: seq<byte>)
    ensures LeValue(q) == 0 <==> forall k :: 0 <= k < |q| ==> q[k] == 0
  {
    if q != [] {
      ZeroValue(q[1..]);
      assert forall k :: 1 <= k < |q| ==> q[k] == q[1..][k - 1];
    }
  }

  lemma ResidueBytes(v: nat, q: seq<byte>)
    requires v < P && q == LeBytes(v, 32)
    ensures LeValue(q) == v
  {
    hide LeBytes, LeValue, Pow256;
    var n := 16;
    WeightTop();
    var zeros := seq(32, _ => 0 as byte);
    PairsValue(zeros, n);
    LeRoundTrip(v, 2 * n);
  }
}
