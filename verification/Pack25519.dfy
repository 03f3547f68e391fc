/** Bytes to field elements and back (common/rd_secure.c:44-80). */
module Pack25519 {
  import opened Bytes
  import opened Limbs25519
  import opened Field25519
  import Arith

  // ---------------------------------------------- bytes and 16-bit digits

  function Pairs(b: seq<byte>, n: nat): (s: seq<int>)
    requires 2 * n <= |b|
    ensures |s| == n
  {
    seq(n, i requires 0 <= i < n => b[2 * i] as int + 0x100 * b[2 * i + 1] as int)
  }

  lemma {:induction false} PairsValue(b: seq<byte>, n: nat)
    requires 2 * n <= |b|
    ensures LeValue(b[..2 * n]) == Num(Pairs(b, n), n) && Pow256(2 * n) == W(n)
  {
    if n != 0 {
      PairsValue(b, n - 1);
      NumSame(Pairs(b, n), Pairs(b, n - 1), n - 1);
      var last := b[2 * n - 2..2 * n];
      assert b[..2 * n] == b[..2 * (n - 1)] + last;
      LeValueAppend(b[..2 * (n - 1)], last);
      assert last[1..][1..] == [];
      assert LeValue(last[1..]) == last[1];
      assert LeValue(last) == Pairs(b, n)[n - 1];
      Arith.MulComm(Pow256(2 * (n - 1)), LeValue(last));
    }
  }

  predicate Clean(s: seq<int>) {
    |s| == 16 && forall k :: 0 <= k < 16 ==> 0 <= s[k] <= 0xFFFF
  }

  lemma {:induction false} CleanBound(s: seq<int>, n: nat)
    requires Clean(s) && n <= 16
    ensures 0 <= Num(s, n) < W(n)
  {
    if n != 0 {
      CleanBound(s, n - 1);
      Arith.MulMono(W(n - 1), s[n - 1], 0xFFFF);
      Arith.MulMono(W(n - 1), 0, s[n - 1]);
    }
  }

  // ------------------------------------------------------------ third carry

  lemma {:induction false} CarryOrigin(s: seq<int>, n: nat)
    requires 1 <= n <= |s| && -38 <= s[0] <= 0xFFFF + 38 && forall k :: 1 <= k < |s| ==> 0 <= s[k] <= 0xFFFF
    ensures CarryInto(s, 1) == s[0] / BASE
    ensures -1 <= CarryInto(s, n) <= 1
    ensures CarryInto(s, n) == 1 ==> s[0] >= BASE
    ensures CarryInto(s, n) == -1 ==> s[0] < 0
  {
    assert CarryInto(s, 0) == 0;
    if n > 1 { CarryOrigin(s, n - 1); }
  }

  lemma ThirdCarry(s: seq<int>)
    requires |s| == 16 && -38 <= s[0] <= 0xFFFF + 38 && forall k :: 1 <= k < 16 ==> 0 <= s[k] <= 0xFFFF
    ensures Bounded(s) && Clean(Carried(s))
  {
    CarryOrigin(s, |s|);
    var d := Digits(s);
    assert CarryInto(s, 0) == 0;
    assert d[0] == s[0] % BASE;
  }

  // ------------------------------------------- the conditional subtraction

  /** The digits of P. */
  function PDigit(k: nat): int {
    if k == 0 then 0xFFED else if k == 15 then 0x7FFF else 0xFFFF
  }

  function LessP(s: seq<int>): (d: seq<int>)
    requires |s| == 16
    ensures |d| == 16
  {
    seq(16, k requires 0 <= k < 16 => s[k] - PDigit(k))
  }

  function PDigits(): (p: seq<int>)
    ensures |p| == 16
  {
    seq(16, k requires 0 <= k < 16 => PDigit(k))
  }

  lemma {:induction false} PDigitsPrefix(n: nat)
    requires 0 < n <= 15
    ensures Num(PDigits(), n) == W(n) - 19
  {
    if n == 1 {
      assert Num(PDigits(), 0) == 0 && W(0) == 1;
    } else {
      PDigitsPrefix(n - 1);
    }
  }

  lemma PDigitsNumber()
    ensures var p := PDigits(); Num(p, |p|) == P
  {
    hide W, PDigits;
    var p := PDigits();
    PDigitsPrefix(15);
    NumLast(p, |p|);
    WeightTop();
    WeightTopStep();
    assert p[15] == 0x7FFF by { LastPDigit(); }
  }

  lemma LastPDigit()
    ensures PDigits()[15] == 0x7FFF
  {
  }

  lemma WeightTopStep()
    ensures W(16) == BASE * W(15)
  {
  }

  lemma LessPNumber(s: seq<int>)
    requires |s| == 16
    ensures Num(LessP(s), |s|) == Num(s, |s|) - P
  {
    hide Num;
    NumAdd(LessP(s), PDigits(), s, |s|);
    PDigitsNumber();
  }

  lemma {:induction false} BorrowRange(s: seq<int>, n: nat)
    requires Clean(s) && n <= 16
    ensures -1 <= CarryInto(LessP(s), n) <= 0
  {
    if n != 0 { BorrowRange(s, n - 1); }
  }

  /** The borrow chain: limbs before `i - 1` are masked digits of the difference,
      limb `i - 1` still holds its borrow. */
  ghost predicate Borrowed(m: seq<int>, d: seq<int>, i: nat) {
    && |m| == |d| == 16 && 1 <= i <= 16
    && (forall k :: 0 <= k < i - 1 ==> m[k] == Digit(d, k))
    && m[i - 1] == d[i - 1] + CarryInto(d, i - 1)
  }

  lemma BorrowStart(m: seq<int>, s: seq<int>)
    requires |m| == |s| == 16 && m[0] == s[0] - 0xFFED
    ensures Borrowed(m, LessP(s), 1)
  {
  }

  lemma BorrowStep(m: seq<int>, s: seq<int>, i: nat)
    requires Clean(s) && Borrowed(m, LessP(s), i) && i < 16
    ensures m[i - 1] / BASE % 2 == -CarryInto(LessP(s), i)
    ensures Borrowed(m[i - 1 := m[i - 1] % BASE][i := s[i] - PDigit(i) - m[i - 1] / BASE % 2], LessP(s), i + 1)
  {
    hide CarryInto, Digit, LessP, PDigit;
    BorrowRange(s, i);
    CarryDef(LessP(s), i);
    LessPAt(s, i);
  }

  lemma CarryDef(d: seq<int>, i: nat)
    requires 0 < i <= |d|
    ensures CarryInto(d, i) == (d[i - 1] + CarryInto(d, i - 1)) / BASE
    ensures Digit(d, i - 1) == (d[i - 1] + CarryInto(d, i - 1)) % BASE
  {
  }

  lemma LessPAt(s: seq<int>, i: nat)
    requires i < |s| == 16
    ensures LessP(s)[i] == s[i] - PDigit(i)
  {
  }

  lemma BorrowEnd(m: seq<int>, s: seq<int>)
    requires Clean(s) && Borrowed(m, LessP(s), 16)
    ensures m[15] / BASE % 2 == -CarryInto(LessP(s), 16)
    ensures m[15] / BASE % 2 == 0 || m[15] / BASE % 2 == 1
    ensures m[15] / BASE % 2 == 0 ==> m == Digits(LessP(s))
  {
    BorrowRange(s, 16);
    BorrowRange(s, 15);
  }

  /** The borrow out of the top says whether the number is below P; if not, the
      digits of the difference denote the number less P. */
  lemma BorrowMeans(s: seq<int>)
    requires Clean(s)
    ensures var d := LessP(s);
      && (CarryInto(d, |d|) == 0 <==> Num(s, |s|) >= P)
      && (CarryInto(d, |d|) == 0 ==> Clean(Digits(d)) && Num(Digits(d), |d|) == Num(s, |s|) - P)
      && -1 <= CarryInto(d, |d|) <= 0
  {
    hide Num, LessP, CarryInto, W;
    var d := LessP(s);
    LessPNumber(s);
    BorrowRange(s, 16);
    CarryOut(d);
    assert Clean(Digits(d));
    CleanBound(Digits(d), 16);
    WeightTop();
  }

  /** One round of pack25519: t less P when that is not negative. */
  method SubtractOnce(t: array<i64>)
    requires t.Length == 16 && Clean(t[..])
    modifies t
    ensures Clean(t[..])
    ensures Num(t[..], t.Length) == var v := old(Num(t[..], t.Length)); if v >= P then v - P else v
  {
    hide Borrowed, Num, Digits, CarryInto, LessP;
    ghost var s: seq<int> := t[..];
    var m := new i64[16](_ => 0);
    m[0] := t[0] - 0xFFED;
    BorrowStart(m[..], s);
    for i := 1 to 16
      invariant t[..] == s && Borrowed(m[..], LessP(s), i)
    {
      ghost var before: seq<int> := m[..];
      BorrowStep(before, s, i);
      var borrow: i64 := m[i - 1] / BASE % 2;
      m[i] := t[i] - PDigit(i) - borrow;
      m[i - 1] := m[i - 1] % BASE;
      assert m[..] == before[i - 1 := before[i - 1] % BASE][i := s[i] - PDigit(i) - before[i - 1] / BASE % 2];
    }
    BorrowEnd(m[..], s);
    BorrowMeans(s);
    var b := m[15] / BASE % 2;
    ghost var r: seq<int> := m[..];
    Select(t, m, 1 - b);
  }

  /** sel25519: swaps the two arrays when b is 1.  The source's branch-free mask of the
      bits that differ is the conditional here. */
  method Select(p: array<i64>, q: array<i64>, b: int)
    requires p.Length == q.Length == 16 && p != q && (b == 0 || b == 1)
    modifies p, q
    ensures b == 1 ==> p[..] == old(q[..]) && q[..] == old(p[..])
    ensures b == 0 ==> p[..] == old(p[..]) && q[..] == old(q[..])
  {
    for i := 0 to 16
      invariant forall k :: 0 <= k < i ==> p[k] == (if b == 1 then old(q[k]) else old(p[k]))
      invariant forall k :: 0 <= k < i ==> q[k] == (if b == 1 then old(p[k]) else old(q[k]))
      invariant forall k :: i <= k < 16 ==> p[k] == old(p[k]) && q[k] == old(q[k])
    {
      if b == 1 {
        p[i], q[i] := q[i], p[i];
      }
    }
  }

  /** pack25519: the little-endian bytes of the residue in 0 .. P - 1. */
  method Pack(n: array<i64>) returns (q: seq<byte>)
    requires Loose(n)
    ensures q == LeBytes(Fe(n), 32)
  {
    hide Num, Res, Carried, LeBytes, LeValue;
    var t := new i64[16](_ => 0);
    for i := 0 to 16
      invariant forall k :: 0 <= k < i ==> t[k] == n[k]
    {
      t[i] := n[i];
    }
    assert t[..] == n[..];
    TwoCarries(t[..]);
    Carry(t);
    Carry(t);
    ThirdCarry(t[..]);
    Carry(t);
    assert Fe(t) == Fe(n);
    CleanBound(t[..], t.Length);
    WeightTop();
    ghost var v := Num(t[..], t.Length);
    SubtractOnce(t);
    SubtractOnce(t);
    SmallResidue(v, Num(t[..], t.Length));
    q := StoreLimbs(t);
    LeBytesOfValue(q);
  }

  /** Each limb as two bytes, low byte first. */
  method StoreLimbs(t: array<i64>) returns (q: seq<byte>)
    requires t.Length == 16 && Clean(t[..])
    ensures |q| == 32 && LeValue(q) == Num(t[..], t.Length)
  {
    hide Num, LeValue;
    var out := new byte[32](_ => 0);
    ghost var s: seq<int> := t[..];
    for i := 0 to 16
      invariant t[..] == s
      invariant forall k :: 0 <= k < i ==> out[2 * k] as int == s[k] % 0x100 && out[2 * k + 1] as int == s[k] / 0x100
    {
      assert 0 <= s[i] <= 0xFFFF;
      out[2 * i] := t[i] % 0x100;
      out[2 * i + 1] := t[i] / 0x100;
    }
    q := out[..];
    assert Pairs(q, 16) == s;
    PairsWhole(q);
  }

  lemma PairsWhole(q: seq<byte>)
    requires |q| == 32
    ensures var s := Pairs(q, 16); LeValue(q) == Num(s, |s|)
  {
    hide LeValue, Num, W;
    PairsValue(q, |Pairs(q, 16)|);
    assert q[..32] == q;
  }

  lemma SmallResidue(v: int, r: int)
    requires 0 <= v < 2 * P + 38
    requires r == (if v < P then v else if v < 2 * P then v - P else v - 2 * P)
    ensures r == Res(v)
  {
    if v < P {
      Arith.DivUnique(v, P, 0, v);
    } else if v < 2 * P {
      Arith.DivUnique(v, P, 1, v - P);
    } else {
      Arith.DivUnique(v, P, 2, v - 2 * P);
    }
  }

  /** unpack25519: reads 32 bytes, dropping the top bit. */
  method Unpack(n: seq<byte>) returns (o: array<i64>)
    requires |n| == 32
    ensures fresh(o) && Tight(o) && Fe(o) == Res(LeValue(n) % (P + 19))
  {
    hide Num, Res, LeValue;
    o := LoadLimbs(n);
    ghost var s: seq<int> := o[..];
    o[15] := o[15] % 0x8000;
    assert o[..] == s[15 := s[15] % 0x8000];
    TopBitDropped(s);
  }

  method LoadLimbs(n: seq<byte>) returns (o: array<i64>)
    requires |n| == 32
    ensures fresh(o) && o.Length == 16 && Clean(o[..]) && Num(o[..], o.Length) == LeValue(n)
  {
    hide Num, LeValue;
    o := new i64[16](_ => 0);
    for i := 0 to 16
      invariant forall k :: 0 <= k < i ==> o[k] == n[2 * k] as int + 0x100 * n[2 * k + 1] as int
    {
      o[i] := n[2 * i] as int + 0x100 * n[2 * i + 1] as int;
    }
    assert o[..] == Pairs(n, 16);
    PairsWhole(n);
  }

  lemma TopBitDropped(s: seq<int>)
    requires Clean(s)
    ensures var t := s[15 := s[15] % 0x8000];
      Num(t, |t|) == Num(s, |s|) % (P + 19)
  {
    hide Num, W;
    var t := s[15 := s[15] % 0x8000];
    NumLast(s, 16);
    NumLast(t, 16);
    NumSame(s, t, 15);
    CleanBound(s, 15);
    WeightTop();
    WeightTopStep();
    TopBitArith(Num(s, 15), s[15], W(15));
  }

  lemma TopBitArith(low: int, top: int, w: int)
    requires 0 <= low < w && 0 <= top <= 0xFFFF && 0x8000 * w == P + 19
    ensures low + top % 0x8000 * w == (low + top * w) % (P + 19)
  {
    var q, r := top / 0x8000, top % 0x8000;
    Arith.Distributes(0x8000 * q, r, w);
    Arith.MulSwap(q, 0x8000, w);
    assert (0x8000 * q) * w == (P + 19) * q;
    Arith.MulMono(w, r, 0x7FFF);
    Arith.MulMono(w, 0, r);
    Arith.DivUnique(low + top * w, P + 19, q, low + r * w);
  }
}
