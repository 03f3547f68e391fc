/** The Poly1305 state machine of common/rd_secure.c: poly_init, poly_blocks,
    poly_finish, and the one-shot rd_poly1305. */
module Poly1305Mac {
  import opened Bytes
  import opened PolyField
  import opened Poly1305
  import Arith

  lemma EvalSnoc(blocks: seq<nat>, b: nat, r: nat)
    ensures Eval(blocks + [b], r) == (Eval(blocks, r) + b) * r
  {
    assert (blocks + [b])[..|blocks|] == blocks;
  }

  lemma EvalNone(r: nat)
    ensures Eval([], r) == 0
  {
  }

  lemma StepCongruent(x: int, y: int, b: int, r: int)
    requires x % P == y % P
    ensures ((x + b) * r) % P == ((y + b) * r) % P
  {
    var k := x / P - y / P;
    assert x == y + P * k;
    Arith.Distributes(y + b, P * k, r);
    Arith.MulAssocInt(P, k, r);
    Arith.ModAdd((y + b) * r, P, k * r);
  }

  function BlockNumber(m: seq<byte>, k: nat, hibit: nat): nat
    requires 16 * k + 16 <= |m|
  {
    LeValue(m[16 * k..16 * k + 16]) + B4 * hibit
  }

  /** The whole 16-byte blocks of `m`, each with `hibit` in its top limb. */
  function FullBlocks(m: seq<byte>, n: nat, hibit: nat): (b: seq<nat>)
    requires 16 * n <= |m|
    ensures |b| == n
  {
    seq(n, k requires 0 <= k < n => BlockNumber(m, k, hibit))
  }

  class PolyState {
    const r: array<u32>
    const h: array<u32>
    const pad: array<u32>
    ghost const key: seq<byte>
    /** The numbers absorbed so far. */
    ghost var blocks: seq<nat>

    ghost predicate Valid()
      reads this, r, h, pad
    {
      && r.Length == 5 && h.Length == 5 && pad.Length == 4 && r != h && pad != h && |key| == 32
      && RLimbs().Reduced() && RLimbs().Num() == LeValue(Clamp(key))
      && HLimbs().Partial()
      && HLimbs().Num() % P == Eval(blocks, LeValue(Clamp(key))) % P
      && forall i :: 0 <= i < 4 ==> pad[i] == Le32At(key, 16 + 4 * i)
    }

    function RLimbs(): Limbs
      requires r.Length == 5
      reads r
    {
      Limbs(r[0], r[1], r[2], r[3], r[4])
    }

    function HLimbs(): Limbs
      requires h.Length == 5
      reads h
    {
      Limbs(h[0], h[1], h[2], h[3], h[4])
    }

    constructor (key: seq<byte>)
      requires |key| == 32
      ensures Valid() && this.key == key && blocks == [] && fresh(h)
    {
      hide KeyLimbs, Clamp, LeValue, Le32At, Eval;
      EvalNone(LeValue(Clamp(key)));
      KeyLimbsClamp(key);
      var rl := KeyLimbs(key);
      r := new u32[] [rl.h0, rl.h1, rl.h2, rl.h3, rl.h4];
      h := new u32[] [0, 0, 0, 0, 0];
      pad := new u32[] [Le32At(key, 16), Le32At(key, 20), Le32At(key, 24), Le32At(key, 28)];
      this.key := key;
      blocks := [];
      new;
      assert RLimbs() == KeyLimbs(key);
      assert HLimbs() == Limbs(0, 0, 0, 0, 0);
    }

    /** Absorbs the whole blocks of `m`; the limbs are loaded once and stored once. */
    method Absorb(m: seq<byte>, hibit: u32)
      requires Valid() && (hibit == 0 || hibit == 0x100_0000)
      modifies this, h
      ensures Valid() && blocks == old(blocks) + FullBlocks(m, |m| / 16, hibit)
    {
      hide Value, KeyLimbs, Eval, BlockLimbs, Clamp, LeValue;
      ghost var rv := LeValue(Clamp(key));
      var rl := RLimbs();
      var hl := HLimbs();
      var at: nat, left: nat := 0, |m|;
      ghost var k := 0;
      ghost var before := blocks;
      ghost var done := blocks;
      assert before + FullBlocks(m, 0, hibit) == before;
      while left >= 16
        invariant at == 16 * k && at + left == |m|
        invariant done == before + FullBlocks(m, k, hibit)
        invariant hl.Partial() && hl.Num() % P == Eval(done, rv) % P
        decreases left
      {
        hl := AddBlock(hl, m, at, hibit, k, done, rl, rv);
        done := done + [BlockNumber(m, k, hibit)];
        assert FullBlocks(m, k + 1, hibit) == FullBlocks(m, k, hibit) + [BlockNumber(m, k, hibit)];
        at, left, k := at + 16, left - 16, k + 1;
      }
      assert k == |m| / 16;
      h[0], h[1], h[2], h[3], h[4] := hl.h0, hl.h1, hl.h2, hl.h3, hl.h4;
      blocks := done;
      assert HLimbs() == hl;
    }

    /** Finishes the carries, reduces, adds the second half of the key: the tag of
        everything absorbed. */
    method Finish() returns (tag: seq<byte>)
      requires Valid()
      ensures tag == Tag(blocks, key)
    {
      hide Value, KeyLimbs, Eval, Clamp, LeValue, LeBytes, Words, Le32At;
      var g := FullCarry(HLimbs());
      g := Canonical(g);
      var w0, w1, w2, w3 := ToWords(g);
      var t0, t1, t2, t3 := AddPad(w0, w1, w2, w3, pad[0], pad[1], pad[2], pad[3]);
      tag := LeBytes(t0, 4) + LeBytes(t1, 4) + LeBytes(t2, 4) + LeBytes(t3, 4);
      PadValue(key);
      TagBytes(t0, t1, t2, t3);
      TagSum(g.Num(), Words(pad[0], pad[1], pad[2], pad[3]));
    }
  }

  /** One block of the absorbing loop. */
  method AddBlock(h: Limbs, m: seq<byte>, at: nat, hibit: u32, ghost k: nat, ghost done: seq<nat>, r: Limbs, ghost rv: nat)
    returns (h': Limbs)
    requires h.Partial() && r.Reduced() && r.Num() == rv && (hibit == 0 || hibit == 0x100_0000)
    requires at == 16 * k && at + 16 <= |m| && h.Num() % P == Eval(done, rv) % P
    ensures h'.Partial()
    ensures h'.Num() % P == Eval(done + [BlockNumber(m, k, hibit)], rv) % P
  {
    hide BlockLimbs, Eval, LeValue;
    BlockValue(m, at);
    var b := BlockLimbs(m, at);
    var h0: u32 := h.h0 + b.h0;
    var h1: u32 := h.h1 + b.h1;
    var h2: u32 := h.h2 + b.h2;
    var h3: u32 := h.h3 + b.h3;
    var top: u32 := b.h4 + hibit;
    var h4: u32 := h.h4 + top;
    var sum := Limbs(h0, h1, h2, h3, h4);
    ghost var n := BlockNumber(m, k, hibit);
    assert sum.Num() == h.Num() + n;
    h' := MultiplyStep(sum, r);
    EvalSnoc(done, n, rv);
    StepCongruent(h.Num(), Eval(done, rv), n, rv);
  }

  // ---------------------------------------------------------- poly_finish

  /** The second carry pass: every limb below 2^26, same residue. */
  method FullCarry(h: Limbs) returns (g: Limbs)
    requires h.Partial()
    ensures g.Reduced() && g.Num() % P == h.Num() % P
  {
    var c: u32 := h.h1 / B1;
    var h1: u32 := h.h1 % B1;
    var h2: u32 := h.h2 + c;
    c := h2 / B1;
    h2 := h2 % B1;
    assert B1 * h1 + B2 * h2 + B3 * c == B1 * h.h1 + B2 * h.h2;
    var h3: u32 := h.h3 + c;
    c := h3 / B1;
    h3 := h3 % B1;
    var h4: u32 := h.h4 + c;
    c := h4 / B1;
    h4 := h4 % B1;
    ghost var top: int := c;
    assert h.h0 + B1 * h1 + B2 * h2 + B3 * h3 + B4 * h4 + (P + 5) * top == h.Num();
    assert top <= 1 && (top == 1 ==> h1 < 64);
    var h0: u32 := h.h0 + c * 5;
    c := h0 / B1;
    h0 := h0 % B1;
    h1 := h1 + c;
    g := Limbs(h0, h1, h2, h3, h4);
    assert g.Num() == h.Num() - P * top;
    Arith.ModAdd(h.Num(), P, -top);
  }

  /** (a & mask) | (b & ~mask) for an all-ones or all-zeros mask. */
  function Select(mask: u32, a: u32, b: u32): u32
    requires mask == 0 || mask == 0xFFFF_FFFF
  {
    if mask == 0 then b else a
  }

  /** h + 5 with its carries; the top limb keeps its carry separate. */
  method AddFive(h: Limbs) returns (g0: u32, g1: u32, g2: u32, g3: u32, c: u32)
    requires h.Reduced()
    ensures g0 < B1 && g1 < B1 && g2 < B1 && g3 < B1 && c <= 1
    ensures Value(g0, g1, g2, g3, h.h4 + c) == h.Num() + 5
  {
    g0 := h.h0 + 5;
    c := g0 / B1;
    g0 := g0 % B1;
    g1 := h.h1 + c;
    c := g1 / B1;
    g1 := g1 % B1;
    g2 := h.h2 + c;
    c := g2 / B1;
    g2 := g2 % B1;
    g3 := h.h3 + c;
    c := g3 / B1;
    g3 := g3 % B1;
  }

  /** Whether the top limb reaches 2^26 decides whether the whole number reaches 2^130. */
  lemma TopLimb(g0: int, g1: int, g2: int, g3: int, g4: int)
    requires 0 <= g0 < B1 && 0 <= g1 < B1 && 0 <= g2 < B1 && 0 <= g3 < B1
    ensures g4 < B1 <==> Value(g0, g1, g2, g3, g4) < P + 5
    ensures Value(g0, g1, g2, g3, g4 - B1) == Value(g0, g1, g2, g3, g4) - (P + 5)
  {
  }

  /** Subtracts P when h is at least P, by adding 5 and looking at the top bit. */
  method Canonical(h: Limbs) returns (r: Limbs)
    requires h.Reduced()
    ensures r.Reduced() && r.Num() == h.Num() % P
  {
    hide Value;
    var g0, g1, g2, g3, c := AddFive(h);
    var g4: u32 := (h.h4 + c - B1) % 0x1_0000_0000;
    var mask: u32 := (g4 / 0x8000_0000 - 1) % 0x1_0000_0000;
    TopLimb(g0, g1, g2, g3, h.h4 + c);
    ReducedBound(h);
    assert mask == if h.h4 + c < B1 then 0 else 0xFFFF_FFFF;
    r := Limbs(Select(mask, g0, h.h0), Select(mask, g1, h.h1), Select(mask, g2, h.h2),
               Select(mask, g3, h.h3), Select(mask, g4, h.h4));
    if mask != 0 {
      assert r == Limbs(g0, g1, g2, g3, h.h4 + c - B1);
      Arith.DivUnique(h.Num(), P, 1, h.Num() - P);
    } else {
      assert r == h;
      Arith.DivUnique(h.Num(), P, 0, h.Num());
    }
  }

  lemma ReducedBound(h: Limbs)
    requires h.Reduced()
    ensures 0 <= h.Num() < P + 5
  {
  }

  function Words(w0: int, w1: int, w2: int, w3: int): int {
    w0 + 0x1_0000_0000 * w1 + 0x1_0000_0000_0000_0000 * w2 + 0x1_0000_0000_0000_0000_0000_0000 * w3
  }

  /** Five 26-bit limbs to four 32-bit words; the two bits past 2^128 fall off. */
  method ToWords(h: Limbs) returns (w0: u32, w1: u32, w2: u32, w3: u32)
    requires h.Reduced()
    ensures Words(w0, w1, w2, w3) == h.Num() % TWO128
  {
    hide Words, Value;
    Shl(h.h1, B1, 0x40);
    Shl(h.h2, 0x10_0000, 0x1000);
    Shl(h.h3, 0x4000, 0x4_0000);
    Shl(h.h4, 0x100, 0x100_0000);
    w0 := h.h0 + h.h1 * B1 % 0x1_0000_0000;
    w1 := h.h1 / 0x40 + h.h2 * 0x10_0000 % 0x1_0000_0000;
    w2 := h.h2 / 0x1000 + h.h3 * 0x4000 % 0x1_0000_0000;
    w3 := h.h3 / 0x4_0000 + h.h4 * 0x100 % 0x1_0000_0000;
    WordSum(h.h0, h.h1 / 0x40, h.h1 % 0x40, h.h2 / 0x1000, h.h2 % 0x1000, h.h3 / 0x4_0000, h.h3 % 0x4_0000,
            h.h4 / 0x100_0000, h.h4 % 0x100_0000);
    WordsBound(w0, w1, w2, w3);
    Arith.DivUnique(h.Num(), TWO128, h.h4 / 0x100_0000, Words(w0, w1, w2, w3));
  }

  lemma WordSum(h0: int, q1: int, t1: int, q2: int, t2: int, q3: int, t3: int, q4: int, t4: int)
    ensures Value(h0, 0x40 * q1 + t1, 0x1000 * q2 + t2, 0x4_0000 * q3 + t3, 0x100_0000 * q4 + t4)
         == TWO128 * q4 + Words(h0 + t1 * B1, q1 + t2 * 0x10_0000, q2 + t3 * 0x4000, q3 + t4 * 0x100)
  {
  }

  lemma WordsBound(w0: u32, w1: u32, w2: u32, w3: u32)
    ensures 0 <= Words(w0, w1, w2, w3) < TWO128
  {
  }

  /** A left shift that loses the bits above 2^32 keeps the low part of the operand. */
  lemma Shl(x: int, unit: int, room: int)
    requires 0 <= x && 0 < unit && 0 < room && unit * room == 0x1_0000_0000
    ensures x * unit % 0x1_0000_0000 == x % room * unit && x == room * (x / room) + x % room
    ensures x % room * unit <= 0x1_0000_0000 - unit
  {
    var q, t := x / room, x % room;
    assert x * unit == (room * q) * unit + t * unit;
    assert (room * q) * unit == 0x1_0000_0000 * q;
    Arith.MulMono(unit, t, room - 1);
    Arith.DivUnique(x * unit, 0x1_0000_0000, q, t * unit);
  }

  /** Adds the second half of the key with carries, modulo 2^128. */
  method AddPad(h0: u32, h1: u32, h2: u32, h3: u32, p0: u32, p1: u32, p2: u32, p3: u32)
    returns (t0: u32, t1: u32, t2: u32, t3: u32)
    ensures Words(t0, t1, t2, t3) == (Words(h0, h1, h2, h3) + Words(p0, p1, p2, p3)) % TWO128
  {
    var f: u64 := h0 + p0;
    t0 := f % 0x1_0000_0000;
    f := h1 + p1 + f / 0x1_0000_0000;
    t1 := f % 0x1_0000_0000;
    f := h2 + p2 + f / 0x1_0000_0000;
    t2 := f % 0x1_0000_0000;
    f := h3 + p3 + f / 0x1_0000_0000;
    t3 := f % 0x1_0000_0000;
    Arith.DivUnique(Words(h0, h1, h2, h3) + Words(p0, p1, p2, p3), TWO128, f / 0x1_0000_0000, Words(t0, t1, t2, t3));
  }

  lemma PadValue(key: seq<byte>)
    requires |key| == 32
    ensures Words(Le32At(key, 16), Le32At(key, 20), Le32At(key, 24), Le32At(key, 28)) == LeValue(key[16..])
  {
    Value16(key[16..]);
  }

  lemma TagSum(x: int, p: int)
    ensures (x % TWO128 + p) % TWO128 == (x + p) % TWO128
  {
    Arith.ModAdd(x % TWO128 + p, TWO128, x / TWO128);
  }

  lemma TagBytes(t0: u32, t1: u32, t2: u32, t3: u32)
    ensures LeBytes(t0, 4) + LeBytes(t1, 4) + LeBytes(t2, 4) + LeBytes(t3, 4) == LeBytes(Words(t0, t1, t2, t3), 16)
  {
    hide LeBytes, LeValue, Le32At;
    var s := LeBytes(t0, 4) + LeBytes(t1, 4) + LeBytes(t2, 4) + LeBytes(t3, 4);
    assert s[..4] == LeBytes(t0, 4) && s[4..8] == LeBytes(t1, 4) && s[8..12] == LeBytes(t2, 4) && s[12..16] == LeBytes(t3, 4);
    WordBytes(t0);
    WordBytes(t1);
    WordBytes(t2);
    WordBytes(t3);
    LoadSlice(s, 0);
    LoadSlice(s, 4);
    LoadSlice(s, 8);
    LoadSlice(s, 12);
    Value16(s);
    LeBytesOfValue(s);
  }

  lemma WordBytes(t: u32)
    ensures Le32At(LeBytes(t, 4), 0) == t
  {
    assert Pow256(4) == 0x1_0000_0000;
    LeRoundTrip(t, 4);
    LeValueOf4(LeBytes(t, 4));
  }

  lemma LoadSlice(s: seq<byte>, i: nat)
    requires i + 4 <= |s|
    ensures Le32At(s, i) == Le32At(s[i..i + 4], 0)
  {
  }

  // -------------------------------------------------------- rd_poly1305

  lemma One()
    ensures LeValue([1]) == 1
  {
    assert [1][1..] == [];
  }

  lemma AppendOne(m: seq<byte>)
    ensures LeValue(m + [1]) == LeValue(m) + Pow256(|m|)
  {
    hide LeValue, Pow256;
    LeValueAppend(m, [1]);
    One();
  }

  lemma {:induction false} Zeros(n: nat)
    ensures LeValue(ZeroBytes(n)) == 0
  {
    if n != 0 {
      assert ZeroBytes(n)[1..] == ZeroBytes(n - 1);
      Zeros(n - 1);
    }
  }

  lemma TopBit()
    ensures Pow256(16) == TWO128 == B4 * 0x100_0000
  {
    assert Pow256(4) == 0x1_0000_0000;
    assert Pow256(8) == 0x1_0000_0000_0000_0000;
    assert Pow256(12) == 0x1_0000_0000_0000_0000_0000_0000;
  }

  lemma FullBlocksHead(msg: seq<byte>, n: nat)
    requires |msg| >= 16 && 0 < n && 16 * n <= |msg|
    ensures FullBlocks(msg, n, 0x100_0000) == [LeValue(msg[..16] + [1])] + FullBlocks(msg[16..], n - 1, 0x100_0000)
  {
    hide LeValue, Pow256;
    var tail := msg[16..];
    TopBit();
    AppendOne(msg[..16]);
    assert msg[16 * 0..16 * 0 + 16] == msg[..16];
    forall k | 0 <= k < n - 1
      ensures BlockNumber(tail, k, 0x100_0000) == BlockNumber(msg, k + 1, 0x100_0000)
    {
      assert tail[16 * k..16 * k + 16] == msg[16 * (k + 1)..16 * (k + 1) + 16];
    }
  }

  function Tail(rest: seq<byte>): seq<nat> {
    if rest == [] then [] else [LeValue(rest + [1])]
  }

  /** The whole blocks and the zero-padded tail are the RFC's blocks. */
  lemma {:induction false} BlocksSplit(msg: seq<byte>)
    ensures var n := |msg| / 16;
      Blocks(msg) == FullBlocks(msg, n, 0x100_0000) + Tail(msg[16 * n..])
  {
    hide LeValue, FullBlocks;
    var n := |msg| / 16;
    if |msg| >= 16 {
      FullBlocksHead(msg, n);
      var tail := msg[16..];
      assert tail[16 * (n - 1)..] == msg[16 * n..];
      NoBlocks(tail);
      if |msg| == 16 {
        assert msg[..16] == msg;
      } else {
        BlocksSplit(tail);
      }
    } else {
      NoBlocks(msg);
      assert msg[16 * n..] == msg;
    }
  }

  lemma NoBlocks(msg: seq<byte>)
    ensures FullBlocks(msg, 0, 0x100_0000) == []
  {
  }

  /** The last block of a message whose length is not a multiple of 16. */
  function LastBlock(rest: seq<byte>): (last: seq<byte>)
    requires |rest| < 16
    ensures |last| == 16
  {
    rest + [1] + ZeroBytes(15 - |rest|)
  }

  lemma LastBlockNumber(rest: seq<byte>)
    requires |rest| < 16
    ensures rest != [] ==> FullBlocks(LastBlock(rest), 1, 0) == Tail(rest)
  {
    hide LeValue, FullBlocks, LastBlock;
    LastBlockValue(rest);
    FirstBlock(LastBlock(rest));
  }

  lemma LastBlockValue(rest: seq<byte>)
    requires |rest| < 16
    ensures LeValue(LastBlock(rest)) == LeValue(rest + [1])
  {
    hide LeValue;
    PadValueZero(rest + [1], 15 - |rest|);
  }

  lemma {:induction false} PadValueZero(a: seq<byte>, n: nat)
    ensures LeValue(a + ZeroBytes(n)) == LeValue(a)
  {
    if a == [] {
      Zeros(n);
      assert a + ZeroBytes(n) == ZeroBytes(n);
    } else {
      assert (a + ZeroBytes(n))[1..] == a[1..] + ZeroBytes(n);
      PadValueZero(a[1..], n);
    }
  }

  lemma FirstBlock(last: seq<byte>)
    requires |last| == 16
    ensures FullBlocks(last, 1, 0) == [LeValue(last)]
  {
    hide LeValue;
    assert last[16 * 0..16 * 0 + 16] == last;
    assert BlockNumber(last, 0, 0) == LeValue(last);
  }

  /** Poly1305 of a whole message: section 2.5 of RFC 8439. */
  method Mac(msg: seq<byte>, key: seq<byte>) returns (tag: seq<byte>)
    requires |key| == 32
    ensures tag == Tag(Blocks(msg), key)
  {
    hide Tag, Blocks, FullBlocks, LastBlock, Tail, Eval, Clamp, LeValue, Value, KeyLimbs, Le32At;
    var st := new PolyState(key);
    var full := |msg| - |msg| % 16;
    BlocksSplit(msg);
    FullPrefix(msg, full);
    st.Absorb(msg[..full], 0x100_0000);
    ghost var whole := FullBlocks(msg, |msg| / 16, 0x100_0000);
    assert st.blocks == whole by { assert [] + whole == whole; }
    if |msg| > full {
      LastBlockNumber(msg[full..]);
      var last := LastBlock(msg[full..]);
      st.Absorb(last, 0);
    } else {
      assert msg[full..] == [] && whole + [] == whole;
    }
    assert st.blocks == Blocks(msg);
    tag := st.Finish();
  }

  lemma FullPrefix(msg: seq<byte>, full: nat)
    requires full == |msg| - |msg| % 16
    ensures full / 16 == |msg| / 16 && 16 * (|msg| / 16) == full && |msg| - full < 16
    ensures Tail([]) == []
    ensures FullBlocks(msg[..full], full / 16, 0x100_0000) == FullBlocks(msg, |msg| / 16, 0x100_0000)
  {
    hide LeValue;
    forall k | 0 <= k < full / 16
      ensures BlockNumber(msg[..full], k, 0x100_0000) == BlockNumber(msg, k, 0x100_0000)
    {
      assert msg[..full][16 * k..16 * k + 16] == msg[16 * k..16 * k + 16];
    }
  }
}
