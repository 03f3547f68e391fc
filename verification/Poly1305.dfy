/** Poly1305 of common/rd_secure.c:204-296: five 26-bit limbs in 32-bit words,
    proved equal to section 2.5 of RFC 8439 for every key and message. */
module Poly1305 {
  import opened Bytes
  import opened PolyField
  import Arith

  // ------------------------------------------------- the RFC, on numbers

  /** r with the bits section 2.5 requires to be zero cleared: the top four of bytes
      3, 7, 11, 15 and the low two of bytes 4, 8, 12. */
  function Clamp(key: seq<byte>): (c: seq<byte>)
    requires |key| >= 16
    ensures |c| == 16
  {
    seq(16, i requires 0 <= i < 16 => ClampByte(i, key[i]))
  }

  function ClampByte(i: nat, b: byte): byte {
    if i == 3 || i == 7 || i == 11 || i == 15 then b % 16
    else if i == 4 || i == 8 || i == 12 then b - b % 4
    else b
  }

  /** The polynomial with the given coefficients, highest power first, no constant term. */
  function Eval(blocks: seq<nat>, r: nat): nat {
    if blocks == [] then 0
    else (Eval(blocks[..|blocks| - 1], r) + blocks[|blocks| - 1]) * r
  }

  /** The message cut into 16-byte blocks, each read as a number with a one bit
      (byte 1) added beyond its last byte. */
  function Blocks(msg: seq<byte>): seq<nat> {
    if |msg| == 0 then []
    else if |msg| <= 16 then [LeValue(msg + [1])]
    else [LeValue(msg[..16] + [1])] + Blocks(msg[16..])
  }

  function Tag(blocks: seq<nat>, key: seq<byte>): seq<byte>
    requires |key| == 32
  {
    LeBytes((Eval(blocks, LeValue(Clamp(key))) % P + LeValue(key[16..])) % TWO128, 16)
  }

  // ------------------------------------------------------- one block step

  datatype Limbs = Limbs(h0: u32, h1: u32, h2: u32, h3: u32, h4: u32) {
    function Num(): int {
      Value(h0, h1, h2, h3, h4)
    }

    /** The form between blocks: the second limb may carry a little extra. */
    predicate Partial() {
      h0 < B1 && h1 < B1 + 64 && h2 < B1 && h3 < B1 && h4 < B1
    }

    predicate Reduced() {
      h0 < B1 && h1 < B1 && h2 < B1 && h3 < B1 && h4 < B1
    }
  }

  lemma ProductBound(a: int, b: int, amax: int, bmax: int)
    requires 0 <= a <= amax && 0 <= b <= bmax
    ensures 0 <= a * b <= amax * bmax
  {
    Arith.MulMono(a, b, bmax);
    Arith.MulMono(bmax, a, amax);
  }

  const HMAX := 2 * B1 + 64
  const RMAX := B1 - 1

  lemma RowBound(h0: int, h1: int, h2: int, h3: int, h4: int, a0: int, a1: int, a2: int, a3: int, a4: int, amax: int)
    requires 0 <= h0 <= HMAX && 0 <= h1 <= HMAX && 0 <= h2 <= HMAX && 0 <= h3 <= HMAX && 0 <= h4 <= HMAX
    requires 0 <= a0 <= RMAX && 0 <= a1 <= amax && 0 <= a2 <= amax && 0 <= a3 <= amax && 0 <= a4 <= amax
    ensures 0 <= Row(h0, h1, h2, h3, h4, a0, a1, a2, a3, a4) <= HMAX * RMAX + 4 * (HMAX * amax)
  {
    ProductBound(h0, a0, HMAX, RMAX);
    ProductBound(h1, a1, HMAX, amax);
    ProductBound(h2, a2, HMAX, amax);
    ProductBound(h3, a3, HMAX, amax);
    ProductBound(h4, a4, HMAX, amax);
  }

  /** The carry chain at the end of a block step, on sums below `top`. */
  method CarryChain(d0: u64, d1: u64, d2: u64, d3: u64, d4: u64) returns (h: Limbs, ghost top: nat)
    requires d0 <= 21 * (HMAX * RMAX) && d1 <= 21 * (HMAX * RMAX) && d2 <= 21 * (HMAX * RMAX)
    requires d3 <= 21 * (HMAX * RMAX) && d4 <= 5 * (HMAX * RMAX)
    ensures h.Partial()
    ensures h.Num() == Value(d0, d1, d2, d3, d4) - P * top
  {
    var c: u32 := d0 / B1;
    var h0: u32 := d0 % B1;
    var e1: u64 := d1 + c;
    c := e1 / B1;
    var h1: u32 := e1 % B1;
    assert B1 * c + h1 == d1 + d0 / B1 && d0 == B1 * (d0 / B1) + h0;
    var e2: u64 := d2 + c;
    c := e2 / B1;
    var h2: u32 := e2 % B1;
    assert h0 + B1 * h1 + B2 * h2 + B3 * c == d0 + B1 * d1 + B2 * d2;
    var e3: u64 := d3 + c;
    c := e3 / B1;
    var h3: u32 := e3 % B1;
    assert h0 + B1 * h1 + B2 * h2 + B3 * h3 + B4 * c == d0 + B1 * d1 + B2 * d2 + B3 * d3;
    var e4: u64 := d4 + c;
    c := e4 / B1;
    top := c;
    var h4: u32 := e4 % B1;
    assert h0 + B1 * h1 + B2 * h2 + B3 * h3 + B4 * h4 + (P + 5) * top == Value(d0, d1, d2, d3, d4);
    var c5: u32 := c * 5;
    h0 := h0 + c5;
    c := h0 / B1;
    h0 := h0 % B1;
    h1 := h1 + c;
    h := Limbs(h0, h1, h2, h3, h4);
  }

  /** One block: multiply by r after the block has been added, reduce partially. */
  method MultiplyStep(h: Limbs, r: Limbs) returns (h': Limbs)
    requires h.h0 <= HMAX && h.h1 <= HMAX && h.h2 <= HMAX && h.h3 <= HMAX && h.h4 <= HMAX
    requires r.Reduced()
    ensures h'.Partial()
    ensures h'.Num() % P == (h.Num() * r.Num()) % P
  {
    hide Value, Overflow, Row;
    var s1: u32 := r.h1 * 5;
    var s2: u32 := r.h2 * 5;
    var s3: u32 := r.h3 * 5;
    var s4: u32 := r.h4 * 5;
    RowBound(h.h0, h.h1, h.h2, h.h3, h.h4, r.h0, s4, s3, s2, s1, 5 * RMAX);
    RowBound(h.h0, h.h1, h.h2, h.h3, h.h4, r.h1, r.h0, s4, s3, s2, 5 * RMAX);
    RowBound(h.h0, h.h1, h.h2, h.h3, h.h4, r.h2, r.h1, r.h0, s4, s3, 5 * RMAX);
    RowBound(h.h0, h.h1, h.h2, h.h3, h.h4, r.h3, r.h2, r.h1, r.h0, s4, 5 * RMAX);
    RowBound(h.h0, h.h1, h.h2, h.h3, h.h4, r.h4, r.h3, r.h2, r.h1, r.h0, RMAX);
    var d0: u64 := Row(h.h0, h.h1, h.h2, h.h3, h.h4, r.h0, s4, s3, s2, s1);
    var d1: u64 := Row(h.h0, h.h1, h.h2, h.h3, h.h4, r.h1, r.h0, s4, s3, s2);
    var d2: u64 := Row(h.h0, h.h1, h.h2, h.h3, h.h4, r.h2, r.h1, r.h0, s4, s3);
    var d3: u64 := Row(h.h0, h.h1, h.h2, h.h3, h.h4, r.h3, r.h2, r.h1, r.h0, s4);
    var d4: u64 := Row(h.h0, h.h1, h.h2, h.h3, h.h4, r.h4, r.h3, r.h2, r.h1, r.h0);
    FoldedProduct(h.h0, h.h1, h.h2, h.h3, h.h4, r.h0, r.h1, r.h2, r.h3, r.h4);
    ghost var top;
    h', top := CarryChain(d0, d1, d2, d3, d4);
    SubMultiples(h.Num() * r.Num(), Overflow(h.h1, h.h2, h.h3, h.h4, r.h1, r.h2, r.h3, r.h4), top);
  }

  lemma SubMultiples(x: int, a: int, b: int)
    ensures (x - P * a - P * b) % P == x % P
  {
    Arith.MulDist(P, a, b);
    Arith.ModAdd(x, P, -(a + b));
  }

  // ------------------------------------------------------ bytes to limbs

  lemma Value16(s: seq<byte>)
    requires |s| == 16
    ensures LeValue(s) == Le32At(s, 0) + 0x1_0000_0000 * Le32At(s, 4)
                          + 0x1_0000_0000_0000_0000 * Le32At(s, 8) + 0x1_0000_0000_0000_0000_0000_0000 * Le32At(s, 12)
  {
    var a, b, c, d := s[..4], s[4..8], s[8..12], s[12..];
    assert Pow256(4) == 0x1_0000_0000;
    assert s == a + (b + (c + d));
    LeValueAppend(a, b + (c + d));
    LeValueAppend(b, c + d);
    LeValueAppend(c, d);
    LeValueOf4(a); LeValueOf4(b); LeValueOf4(c); LeValueOf4(d);
  }

  /** The limbs of sixteen bytes; overlapping loads shifted by two bits more each time. */
  function BlockLimbs(m: seq<byte>, at: nat): Limbs
    requires at + 16 <= |m|
  {
    Limbs(Le32At(m, at) % B1, Le32At(m, at + 3) / 4 % B1, Le32At(m, at + 6) / 16 % B1,
          Le32At(m, at + 9) / 64 % B1, Le32At(m, at + 12) / 256)
  }

  /** A 32-bit load, shifted right by 0, 2, 4, 6 or 8 bits and cut to 26. */
  lemma Load0(b0: int, b1: int, b2: int, b3: int)
    requires 0 <= b0 < 256 && 0 <= b1 < 256 && 0 <= b2 < 256 && 0 <= b3 < 256
    ensures (b0 + 0x100 * b1 + 0x1_0000 * b2 + 0x100_0000 * b3) % B1
         == b0 + 0x100 * b1 + 0x1_0000 * b2 + 0x100_0000 * (b3 % 4)
  {
    Arith.DivUnique(b0 + 0x100 * b1 + 0x1_0000 * b2 + 0x100_0000 * b3, B1, b3 / 4,
                    b0 + 0x100 * b1 + 0x1_0000 * b2 + 0x100_0000 * (b3 % 4));
  }

  lemma Load2(b0: int, b1: int, b2: int, b3: int)
    requires 0 <= b0 < 256 && 0 <= b1 < 256 && 0 <= b2 < 256 && 0 <= b3 < 256
    ensures (b0 + 0x100 * b1 + 0x1_0000 * b2 + 0x100_0000 * b3) / 4 % B1
         == b0 / 4 + 0x40 * b1 + 0x4000 * b2 + 0x400000 * (b3 % 16)
  {
    var q := b0 / 4 + 0x40 * b1 + 0x4000 * b2 + 0x400000 * b3;
    Arith.DivUnique(b0 + 0x100 * b1 + 0x1_0000 * b2 + 0x100_0000 * b3, 4, q, b0 % 4);
    Arith.DivUnique(q, B1, b3 / 16, b0 / 4 + 0x40 * b1 + 0x4000 * b2 + 0x400000 * (b3 % 16));
  }

  lemma Load4(b0: int, b1: int, b2: int, b3: int)
    requires 0 <= b0 < 256 && 0 <= b1 < 256 && 0 <= b2 < 256 && 0 <= b3 < 256
    ensures (b0 + 0x100 * b1 + 0x1_0000 * b2 + 0x100_0000 * b3) / 16 % B1
         == b0 / 16 + 0x10 * b1 + 0x1000 * b2 + 0x100000 * (b3 % 64)
  {
    var q := b0 / 16 + 0x10 * b1 + 0x1000 * b2 + 0x100000 * b3;
    Arith.DivUnique(b0 + 0x100 * b1 + 0x1_0000 * b2 + 0x100_0000 * b3, 16, q, b0 % 16);
    Arith.DivUnique(q, B1, b3 / 64, b0 / 16 + 0x10 * b1 + 0x1000 * b2 + 0x100000 * (b3 % 64));
  }

  lemma Load6(b0: int, b1: int, b2: int, b3: int)
    requires 0 <= b0 < 256 && 0 <= b1 < 256 && 0 <= b2 < 256 && 0 <= b3 < 256
    ensures (b0 + 0x100 * b1 + 0x1_0000 * b2 + 0x100_0000 * b3) / 64 % B1
         == b0 / 64 + 0x4 * b1 + 0x400 * b2 + 0x40000 * (b3 % 256)
  {
    var q := b0 / 64 + 0x4 * b1 + 0x400 * b2 + 0x40000 * b3;
    Arith.DivUnique(b0 + 0x100 * b1 + 0x1_0000 * b2 + 0x100_0000 * b3, 64, q, b0 % 64);
    Arith.DivUnique(q, B1, b3 / 256, b0 / 64 + 0x4 * b1 + 0x400 * b2 + 0x40000 * (b3 % 256));
  }

  lemma Load8(b0: int, b1: int, b2: int, b3: int)
    requires 0 <= b0 < 256 && 0 <= b1 < 256 && 0 <= b2 < 256 && 0 <= b3 < 256
    ensures (b0 + 0x100 * b1 + 0x1_0000 * b2 + 0x100_0000 * b3) / 256 == b1 + 0x100 * b2 + 0x1_0000 * b3
  {
    Arith.DivUnique(b0 + 0x100 * b1 + 0x1_0000 * b2 + 0x100_0000 * b3, 256, b1 + 0x100 * b2 + 0x1_0000 * b3, b0);
  }

  lemma Load0At(s: seq<byte>, i: nat)
    requires i + 4 <= |s|
    ensures Le32At(s, i) % B1 == s[i] as int + 0x100 * s[i + 1] as int + 0x1_0000 * s[i + 2] as int
            + 0x100_0000 * (s[i + 3] as int % 4)
  {
    Load0(s[i], s[i + 1], s[i + 2], s[i + 3]);
  }

  lemma Load2At(s: seq<byte>, i: nat)
    requires i + 4 <= |s|
    ensures Le32At(s, i) / 4 % B1 == s[i] as int / 4 + 0x40 * s[i + 1] as int + 0x4000 * s[i + 2] as int
            + 0x400000 * (s[i + 3] as int % 16)
  {
    Load2(s[i], s[i + 1], s[i + 2], s[i + 3]);
  }

  lemma Load4At(s: seq<byte>, i: nat)
    requires i + 4 <= |s|
    ensures Le32At(s, i) / 16 % B1 == s[i] as int / 16 + 0x10 * s[i + 1] as int + 0x1000 * s[i + 2] as int
            + 0x100000 * (s[i + 3] as int % 64)
  {
    Load4(s[i], s[i + 1], s[i + 2], s[i + 3]);
  }

  lemma Load6At(s: seq<byte>, i: nat)
    requires i + 4 <= |s|
    ensures Le32At(s, i) / 64 % B1 == s[i] as int / 64 + 0x4 * s[i + 1] as int + 0x400 * s[i + 2] as int
            + 0x40000 * (s[i + 3] as int % 256)
  {
    Load6(s[i], s[i + 1], s[i + 2], s[i + 3]);
  }

  lemma Load8At(s: seq<byte>, i: nat)
    requires i + 4 <= |s|
    ensures Le32At(s, i) / 256 == s[i + 1] as int + 0x100 * s[i + 2] as int + 0x1_0000 * s[i + 3] as int
  {
    Load8(s[i], s[i + 1], s[i + 2], s[i + 3]);
  }

  /** The limbs of sixteen given bytes, as sums of byte parts. */
  lemma BlockLimbSums(s: seq<byte>)
    requires |s| == 16
    ensures BlockLimbs(s, 0).h0 == s[0] as int + 0x100 * s[1] as int + 0x1_0000 * s[2] as int + 0x100_0000 * (s[3] as int % 4)
    ensures BlockLimbs(s, 0).h1 == s[3] as int / 4 + 0x40 * s[4] as int + 0x4000 * s[5] as int
            + 0x40_0000 * (s[6] as int % 16)
    ensures BlockLimbs(s, 0).h2 == s[6] as int / 16 + 0x10 * s[7] as int + 0x1000 * s[8] as int
            + 0x10_0000 * (s[9] as int % 64)
    ensures BlockLimbs(s, 0).h3 == s[9] as int / 64 + 4 * s[10] as int + 0x400 * s[11] as int + 0x4_0000 * s[12] as int
    ensures BlockLimbs(s, 0).h4 == s[13] as int + 0x100 * s[14] as int + 0x1_0000 * s[15] as int
  {
    hide Le32At;
    Load0At(s, 0);
    Load2At(s, 3);
    Load4At(s, 6);
    Load6At(s, 9);
    Load8At(s, 12);
    assert 0x100_0000 / 64 * (s[12] as int % 256) == 0x4_0000 * s[12] as int;
  }

  lemma BlockValue(m: seq<byte>, at: nat)
    requires at + 16 <= |m|
    ensures BlockLimbs(m, at).Num() == LeValue(m[at..at + 16])
    ensures BlockLimbs(m, at).Reduced() && BlockLimbs(m, at).h4 < 0x100_0000
  {
    var s := m[at..at + 16];
    assert BlockLimbs(m, at) == BlockLimbs(s, 0);
    SixteenValue(s);
  }

  lemma SixteenValue(s: seq<byte>)
    requires |s| == 16
    ensures BlockLimbs(s, 0).Num() == LeValue(s)
    ensures BlockLimbs(s, 0).Reduced() && BlockLimbs(s, 0).h4 < 0x100_0000
  {
    hide Value, LeValue, BlockLimbs;
    BlockLimbSums(s);
    Value16(s);
    LimbSum(s[0], s[1], s[2], s[3], s[4], s[5], s[6], s[7], s[8], s[9], s[10], s[11], s[12], s[13], s[14], s[15]);
  }

  lemma LimbSum(b0: int, b1: int, b2: int, b3: int, b4: int, b5: int, b6: int, b7: int,
                b8: int, b9: int, b10: int, b11: int, b12: int, b13: int, b14: int, b15: int)
    ensures Value(b0 + 0x100 * b1 + 0x1_0000 * b2 + 0x100_0000 * (b3 % 4),
                  b3 / 4 + 0x40 * b4 + 0x4000 * b5 + 0x40_0000 * (b6 % 16),
                  b6 / 16 + 0x10 * b7 + 0x1000 * b8 + 0x10_0000 * (b9 % 64),
                  b9 / 64 + 4 * b10 + 0x400 * b11 + 0x4_0000 * b12,
                  b13 + 0x100 * b14 + 0x1_0000 * b15)
         == b0 + 0x100 * b1 + 0x1_0000 * b2 + 0x100_0000 * b3
            + 0x1_0000_0000 * (b4 + 0x100 * b5 + 0x1_0000 * b6 + 0x100_0000 * b7)
            + 0x1_0000_0000_0000_0000 * (b8 + 0x100 * b9 + 0x1_0000 * b10 + 0x100_0000 * b11)
            + 0x1_0000_0000_0000_0000_0000_0000 * (b12 + 0x100 * b13 + 0x1_0000 * b14 + 0x100_0000 * b15)
  {
  }

  // The masks 0x3ffff03, 0x3ffc0ff, 0x3f03fff and 0x00fffff, as the bit ranges they keep.

  function Keep3ffff03(x: nat): nat { x % 4 + x / 0x100 % 0x4_0000 * 0x100 }

  function Keep3ffc0ff(x: nat): nat { x % 0x100 + x / 0x4000 % 0x1000 * 0x4000 }

  function Keep3f03fff(x: nat): nat { x % 0x4000 + x / 0x10_0000 % 0x40 * 0x10_0000 }

  /** The limbs of r as poly_init cuts them from the key. */
  function KeyLimbs(key: seq<byte>): Limbs
    requires |key| >= 16
  {
    Limbs(Le32At(key, 0) % B1, Keep3ffff03(Le32At(key, 3) / 4), Keep3ffc0ff(Le32At(key, 6) / 16),
          Keep3f03fff(Le32At(key, 9) / 64), Le32At(key, 12) / 256 % 0x10_0000)
  }

  lemma Key1(b0: int, b1: int, b2: int, b3: int)
    requires 0 <= b0 < 256 && 0 <= b1 < 256 && 0 <= b2 < 256 && 0 <= b3 < 256
    ensures Keep3ffff03((b0 + 0x100 * b1 + 0x1_0000 * b2 + 0x100_0000 * b3) / 4)
         == (b0 % 16) / 4 + 0x40 * (b1 - b1 % 4) + 0x4000 * b2 + 0x40_0000 * (b3 % 16)
  {
    var x := b0 / 4 + 0x40 * b1 + 0x4000 * b2 + 0x40_0000 * b3;
    Arith.DivUnique(b0 + 0x100 * b1 + 0x1_0000 * b2 + 0x100_0000 * b3, 4, x, b0 % 4);
    Arith.DivUnique(x, 0x100, b1 / 4 + 0x40 * b2 + 0x4000 * b3, b0 / 4 + 0x40 * (b1 % 4));
    Arith.DivUnique(b1 / 4 + 0x40 * b2 + 0x4000 * b3, 0x4_0000, b3 / 16, b1 / 4 + 0x40 * b2 + 0x4000 * (b3 % 16));
    Arith.DivUnique(x, 4, b0 / 16 + 0x10 * b1 + 0x1000 * b2 + 0x10_0000 * b3, b0 / 4 % 4);
  }

  lemma Key2(b0: int, b1: int, b2: int, b3: int)
    requires 0 <= b0 < 256 && 0 <= b1 < 256 && 0 <= b2 < 256 && 0 <= b3 < 256
    ensures Keep3ffc0ff((b0 + 0x100 * b1 + 0x1_0000 * b2 + 0x100_0000 * b3) / 16)
         == b0 / 16 + 0x10 * (b1 % 16) + 0x1000 * (b2 - b2 % 4) + 0x10_0000 * (b3 % 64)
  {
    var x := b0 / 16 + 0x10 * b1 + 0x1000 * b2 + 0x10_0000 * b3;
    Arith.DivUnique(b0 + 0x100 * b1 + 0x1_0000 * b2 + 0x100_0000 * b3, 16, x, b0 % 16);
    Arith.DivUnique(x, 0x4000, b2 / 4 + 0x40 * b3, b0 / 16 + 0x10 * b1 + 0x1000 * (b2 % 4));
    Arith.DivUnique(b2 / 4 + 0x40 * b3, 0x1000, b3 / 64, b2 / 4 + 0x40 * (b3 % 64));
    Arith.DivUnique(x, 0x100, b1 / 16 + 0x10 * b2 + 0x1000 * b3, b0 / 16 + 0x10 * (b1 % 16));
  }

  lemma Key3(b0: int, b1: int, b2: int, b3: int)
    requires 0 <= b0 < 256 && 0 <= b1 < 256 && 0 <= b2 < 256 && 0 <= b3 < 256
    ensures Keep3f03fff((b0 + 0x100 * b1 + 0x1_0000 * b2 + 0x100_0000 * b3) / 64)
         == b0 / 64 + 4 * b1 + 0x400 * (b2 % 16) + 0x4_0000 * (b3 - b3 % 4)
  {
    var x := b0 / 64 + 4 * b1 + 0x400 * b2 + 0x4_0000 * b3;
    Arith.DivUnique(b0 + 0x100 * b1 + 0x1_0000 * b2 + 0x100_0000 * b3, 64, x, b0 % 64);
    Arith.DivUnique(x, 0x10_0000, b3 / 4, b0 / 64 + 4 * b1 + 0x400 * b2 + 0x4_0000 * (b3 % 4));
    Arith.DivUnique(x, 0x4000, b2 / 16 + 0x10 * b3, b0 / 64 + 4 * b1 + 0x400 * (b2 % 16));
  }

  lemma Key4(b0: int, b1: int, b2: int, b3: int)
    requires 0 <= b0 < 256 && 0 <= b1 < 256 && 0 <= b2 < 256 && 0 <= b3 < 256
    ensures (b0 + 0x100 * b1 + 0x1_0000 * b2 + 0x100_0000 * b3) / 256 % 0x10_0000
         == b1 + 0x100 * b2 + 0x1_0000 * (b3 % 16)
  {
    Load8(b0, b1, b2, b3);
    Arith.DivUnique(b1 + 0x100 * b2 + 0x1_0000 * b3, 0x10_0000, b3 / 16, b1 + 0x100 * b2 + 0x1_0000 * (b3 % 16));
  }

  /** The limb masks of poly_init are exactly the clamp of the RFC. */
  lemma KeyLimbsClamp(key: seq<byte>)
    requires |key| >= 16
    ensures KeyLimbs(key).Num() == LeValue(Clamp(key))
    ensures KeyLimbs(key).Reduced()
  {
    hide Clamp, BlockLimbs, KeyLimbs, Value;
    var c := Clamp(key);
    SixteenValue(c);
    BlockLimbSums(c);
    LowKeyLimbs(key);
    HighKeyLimbs(key);
    assert KeyLimbs(key) == BlockLimbs(c, 0);
  }

  lemma LowKeyLimbs(key: seq<byte>)
    requires |key| >= 16
    ensures var c := Clamp(key);
      && KeyLimbs(key).h0 == c[0] as int + 0x100 * c[1] as int + 0x1_0000 * c[2] as int + 0x100_0000 * (c[3] as int % 4)
      && KeyLimbs(key).h1 == c[3] as int / 4 + 0x40 * c[4] as int + 0x4000 * c[5] as int + 0x40_0000 * (c[6] as int % 16)
      && KeyLimbs(key).h2 == c[6] as int / 16 + 0x10 * c[7] as int + 0x1000 * c[8] as int + 0x10_0000 * (c[9] as int % 64)
  {
    hide Keep3ffff03, Keep3ffc0ff, Keep3f03fff;
    Load0(key[0], key[1], key[2], key[3]);
    Key1(key[3], key[4], key[5], key[6]);
    Key2(key[6], key[7], key[8], key[9]);
  }

  lemma HighKeyLimbs(key: seq<byte>)
    requires |key| >= 16
    ensures var c := Clamp(key);
      && KeyLimbs(key).h4 == c[13] as int + 0x100 * c[14] as int + 0x1_0000 * c[15] as int
      && KeyLimbs(key).h3 == c[9] as int / 64 + 4 * c[10] as int + 0x400 * c[11] as int + 0x4_0000 * c[12] as int
  {
    hide Keep3ffff03, Keep3ffc0ff, Keep3f03fff;
    Key3(key[9], key[10], key[11], key[12]);
    Key4(key[12], key[13], key[14], key[15]);
  }
}
