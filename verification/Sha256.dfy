/** Streaming SHA-256, one-shot SHA-1 and HMAC (common/rd_crypto.c:44-156) over any
    block function: whatever the split into updates, the digest is the fold of the
    padded message (section 5.1.1 of FIPS 180-4). */
module Sha256 {
  import opened Bytes
  import Arith

  type Words8 = s: seq<u32> | |s| == 8 witness [0, 0, 0, 0, 0, 0, 0, 0]
  type Words5 = s: seq<u32> | |s| == 5 witness [0, 0, 0, 0, 0]

  /** A block function: chaining value and 64 bytes to chaining value. */
  type Block<!C> = (C, seq<byte>) -> C

  /** The block function folded over whole blocks. */
  function Fold<C>(f: Block<C>, iv: C, b: seq<byte>): C {
    if |b| < 64 then iv else f(Fold(f, iv, b[..|b| - 64]), b[|b| - 64..])
  }

  /** Zero bytes between the end mark and the length field. */
  function Gap(n: nat): (k: nat)
    ensures k < 64 && (n + 1 + k + 8) % 64 == 0
  {
    (55 - n) % 64
  }

  const TWO64 := 0x1_0000_0000_0000_0000

  /** The message, a one bit, zeros, and the length in bits as 64-bit big endian. */
  function Padded(msg: seq<byte>): (p: seq<byte>)
    ensures |p| % 64 == 0
  {
    msg + [0x80] + ZeroBytes(Gap(|msg|)) + BeBytes(8 * |msg| % TWO64, 8)
  }

  function BeWords(h: seq<u32>): (s: seq<byte>)
    ensures |s| == 4 * |h|
  {
    if h == [] then [] else BeWords(h[..|h| - 1]) + BeBytes(h[|h| - 1], 4)
  }

  /** The SHA-256 digest of a message. */
  function Digest(f: Block<Words8>, msg: seq<byte>): (d: seq<byte>)
    ensures |d| == 32
  {
    BeWords(Fold(f, IV256, Padded(msg)))
  }

  function Sha1Digest(f: Block<Words5>, msg: seq<byte>): (d: seq<byte>)
    ensures |d| == 20
  {
    BeWords(Fold(f, IV1, Padded(msg)))
  }

  lemma FoldStep<C>(f: Block<C>, iv: C, b: seq<byte>, block: seq<byte>)
    requires |block| == 64
    ensures Fold(f, iv, b + block) == f(Fold(f, iv, b), block)
  {
    assert (b + block)[..|b|] == b && (b + block)[|b|..] == block;
  }

  const IV256: Words8 := [0x6a09e667, 0xbb67ae85, 0x3c6ef372, 0xa54ff53a, 0x510e527f, 0x9b05688c, 0x1f83d9ab, 0x5be0cd19]
  const IV1: Words5 := [0x67452301, 0xEFCDAB89, 0x98BADCFE, 0x10325476, 0xC3D2E1F0]

  /** The initial words are the first 32 bits behind the point of the square roots of the
      first eight primes (section 5.3.3 of FIPS 180-4). */
  lemma InitialWords(i: nat)
    requires i < 8
    ensures var p, r := [2, 3, 5, 7, 11, 13, 17, 19][i], IV256[i] as int + 0x1_0000_0000 * [1, 1, 2, 2, 3, 3, 4, 4][i];
      r * r <= p * TWO64 < (r + 1) * (r + 1)
  {
    assert i == 0 || i == 1 || i == 2 || i == 3 || i == 4 || i == 5 || i == 6 || i == 7;
  }

  /** Those of SHA-1 are the counting pattern of bytes of section 5.3.1. */
  lemma InitialBytes()
    ensures IV1[0] == LeValue([0x01, 0x23, 0x45, 0x67]) && IV1[1] == LeValue([0x89, 0xab, 0xcd, 0xef])
    ensures IV1[2] == LeValue([0xfe, 0xdc, 0xba, 0x98]) && IV1[3] == LeValue([0x76, 0x54, 0x32, 0x10])
    ensures IV1[4] == LeValue([0xf0, 0xe1, 0xd2, 0xc3])
  {
    hide LeValue;
    LeValueOf4([0x01, 0x23, 0x45, 0x67]);
    LeValueOf4([0x89, 0xab, 0xcd, 0xef]);
    LeValueOf4([0xfe, 0xdc, 0xba, 0x98]);
    LeValueOf4([0x76, 0x54, 0x32, 0x10]);
    LeValueOf4([0xf0, 0xe1, 0xd2, 0xc3]);
  }

  lemma {:induction false} BeWordsAt(h: seq<u32>, i: nat)
    requires i < |h|
    ensures BeValue(BeWords(h)[4 * i..4 * i + 4]) == h[i]
  {
    hide BeValue, BeBytes;
    var n := |h| - 1;
    if i < n {
      BeWordsAt(h[..n], i);
      assert BeWords(h)[4 * i..4 * i + 4] == BeWords(h[..n])[4 * i..4 * i + 4];
    } else {
      assert BeWords(h)[4 * i..4 * i + 4] == BeBytes(h[n], 4);
      assert Pow256(4) == 0x1_0000_0000;
      BeRoundTrip(h[n], 4);
    }
  }

  /** Each four bytes of a digest, most significant first, are one word of the fold. */
  lemma DigestWords(f: Block<Words8>, g: Block<Words5>, msg: seq<byte>, i: nat)
    ensures i < 8 ==> BeValue(Digest(f, msg)[4 * i..4 * i + 4]) == Fold(f, IV256, Padded(msg))[i]
    ensures i < 5 ==> BeValue(Sha1Digest(g, msg)[4 * i..4 * i + 4]) == Fold(g, IV1, Padded(msg))[i]
  {
    hide BeWords, Fold, Padded, BeValue;
    if i < 8 { BeWordsAt(Fold(f, IV256, Padded(msg)), i); }
    if i < 5 { BeWordsAt(Fold(g, IV1, Padded(msg)), i); }
  }

  class Context {
    const f: Block<Words8>
    var h: Words8
    var total: u64
    const block: array<byte>
    var fill: nat
    /** Everything fed so far. */
    ghost var fed: seq<byte>

    ghost predicate Valid()
      reads this, block
    {
      && block.Length == 64 && fill < 64 && fill <= |fed| && (|fed| - fill) % 64 == 0
      && block[..fill] == fed[|fed| - fill..]
      && h == Fold(f, IV256, fed[..|fed| - fill])
      && total == |fed| % TWO64
    }

    constructor (f: Block<Words8>)
      ensures Valid() && this.f == f && fed == [] && fresh(block)
    {
      this.f := f;
      h := IV256;
      total := 0;
      fill := 0;
      block := new byte[64](_ => 0);
      fed := [];
    }

    /** Appends `data` to the message. */
    method Update(data: seq<byte>)
      requires Valid()
      modifies this, block
      ensures Valid() && fed == old(fed) + data
    {
      hide Fold;
      TotalAdds(|fed|, |data|);
      total := (total + |data|) % TWO64;
      Absorb(data);
    }

    /** The loop of Update: fills the block buffer, compressing whenever it is full. */
    method Absorb(data: seq<byte>)
      requires Filled(fed)
      modifies this`h, this`fill, this`fed, block
      ensures Filled(fed) && fed == old(fed) + data
    {
      hide Fold;
      ghost var start := fed;
      var p := data;
      while |p| > 0
        invariant Filled(fed) && fed + p == start + data
        decreases |p|
      {
        var take := Min(64 - fill, |p|);
        ghost var before := fed;
        FillBlock(p[..take]);
        assert p == p[..take] + p[take..];
        p := p[take..];
        if fill == 64 {
          assert block[..64] == block[..];
          Flush();
        }
      }
    }

    /** Valid but for the running total. */
    ghost predicate Filled(m: seq<byte>)
      reads this, block
    {
      && block.Length == 64 && fill < 64 && fill <= |m| && (|m| - fill) % 64 == 0
      && block[..fill] == m[|m| - fill..] && h == Fold(f, IV256, m[..|m| - fill])
    }

    method FillBlock(part: seq<byte>)
      requires Filled(fed) && fill + |part| <= 64
      modifies this`fill, this`fed, block
      ensures fed == old(fed) + part && fill == old(fill) + |part| && block.Length == 64
      ensures fill <= |fed| && (|fed| - fill) % 64 == 0 && block[..fill] == fed[|fed| - fill..]
      ensures h == Fold(f, IV256, fed[..|fed| - fill])
    {
      hide Fold;
      forall i | 0 <= i < |part| { block[fill + i] := part[i]; }
      assert block[..fill] == old(block[..fill]);
      assert block[fill..fill + |part|] == part;
      fed := fed + part;
      fill := fill + |part|;
      assert fed[..|fed| - fill] == old(fed)[..|old(fed)| - old(fill)];
      assert block[..fill] == block[..old(fill)] + part;
    }

    method Flush()
      requires fill == 64 == block.Length && fill <= |fed| && (|fed| - fill) % 64 == 0
      requires block[..] == fed[|fed| - fill..] && h == Fold(f, IV256, fed[..|fed| - fill])
      modifies this`h, this`fill
      ensures Filled(fed) && fill == 0
    {
      hide Fold;
      FoldStep(f, IV256, fed[..|fed| - 64], block[..]);
      assert fed == fed[..|fed| - 64] + fed[|fed| - 64..];
      h := f(h, block[..]);
      fill := 0;
      assert fed[..|fed|] == fed;
    }

    /** Feeds the padding: end mark, zeros, length in bits. */
    method Pad()
      requires Valid()
      modifies this, block
      ensures Valid() && fed == Padded(old(fed)) && fill == 0
    {
      hide Fold, Padded, Gap, ZeroBytes;
      ghost var msg := fed;
      var bits: u64 := total * 8 % TWO64;
      BitCount(|msg|);
      Update([0x80]);
      PadZeros(msg);
      var len := LengthField(bits);
      Update(len);
      PaddedParts(msg, len);
      NothingLeft(|fed|, fill);
    }

    /** Pads and returns the digest of everything fed; the block buffer ends empty. */
    method Final() returns (out: seq<byte>)
      requires Valid()
      modifies this, block
      ensures out == Digest(f, old(fed)) && fill == 0
    {
      hide Fold, BeWords, Padded;
      Pad();
      assert fed[..|fed|] == fed;
      out := BeWords(h);
    }

    /** Zeros one at a time until only the length field is missing from the block. */
    method PadZeros(ghost msg: seq<byte>)
      requires Valid() && fed == msg + [0x80]
      modifies this, block
      ensures Valid() && fed == msg + [0x80] + ZeroBytes(Gap(|msg|)) && fill == 56
    {
      hide Fold;
      ghost var k := 0;
      assert fed == fed + ZeroBytes(0);
      while fill != 56
        invariant Valid() && fed == msg + [0x80] + ZeroBytes(k)
        invariant k <= Gap(|msg|)
        decreases Gap(|msg|) - k
      {
        GapNotReached(|msg|, k, fill);
        assert ZeroBytes(k + 1) == ZeroBytes(k) + [0];
        Update([0]);
        k := k + 1;
      }
      GapReached(|msg|, k);
    }
  }

  function LengthField(bits: u64): (s: seq<byte>)
    ensures |s| == 8
  {
    BeBytes(bits, 8)
  }

  lemma PaddedParts(msg: seq<byte>, len: seq<byte>)
    requires len == LengthField(8 * |msg| % TWO64)
    ensures Padded(msg) == msg + [0x80] + ZeroBytes(Gap(|msg|)) + len
  {
  }

  lemma NothingLeft(n: nat, fill: nat)
    requires n % 64 == 0 && (n - fill) % 64 == 0 && fill < 64
    ensures fill == 0
  {
  }

  lemma TotalAdds(a: nat, b: nat)
    ensures (a % TWO64 + b) % TWO64 == (a + b) % TWO64
  {
    Arith.ModAdd(a % TWO64 + b, TWO64, a / TWO64);
  }

  lemma BitCount(n: nat)
    ensures n % TWO64 * 8 % TWO64 == 8 * n % TWO64
  {
    Arith.ModAdd(n % TWO64 * 8, TWO64, 8 * (n / TWO64));
  }

  lemma GapNotReached(n: nat, k: nat, fill: nat)
    requires fill < 64 && fill != 56 && (n + 1 + k - fill) % 64 == 0 && k <= Gap(n)
    ensures k < Gap(n)
  {
  }

  lemma GapReached(n: nat, k: nat)
    requires (n + 1 + k - 56) % 64 == 0 && k <= Gap(n)
    ensures k == Gap(n)
  {
  }

  /** One-shot SHA-256. */
  method Hash(f: Block<Words8>, data: seq<byte>) returns (out: seq<byte>)
    ensures out == Digest(f, data)
  {
    var c := new Context(f);
    c.Update(data);
    assert [] + data == data;
    out := c.Final();
  }

  // ------------------------------------------------------------------ SHA-1

  /** One-shot SHA-1: whole blocks from the input, then one or two padded blocks. */
  method Sha1(f: Block<Words5>, data: seq<byte>) returns (out: seq<byte>)
    ensures out == Sha1Digest(f, data)
  {
    hide Fold, BeWords;
    var h := IV1;
    var p := data;
    FoldNothing(f, IV1);
    assert data[..0] == [];
    while |p| >= 64
      invariant |p| <= |data| && (|data| - |p|) % 64 == 0 && p == data[|data| - |p|..]
      invariant h == Fold(f, IV1, data[..|data| - |p|])
      decreases |p|
    {
      FoldStep(f, IV1, data[..|data| - |p|], p[..64]);
      assert data[..|data| - |p|] + p[..64] == data[..|data| - |p| + 64];
      h := f(h, p[..64]);
      p := p[64..];
    }
    var tail := TailBlocks(p, |data|);
    assert Padded(data) == data[..|data| - |p|] + tail;
    FoldStep(f, IV1, data[..|data| - |p|], tail[..64]);
    h := f(h, tail[..64]);
    if |tail| == 128 {
      FoldStep(f, IV1, data[..|data| - |p|] + tail[..64], tail[64..]);
      assert data[..|data| - |p|] + tail == data[..|data| - |p|] + tail[..64] + tail[64..];
      h := f(h, tail[64..]);
    } else {
      assert tail[..64] == tail;
    }
    out := BeWords(h);
  }

  lemma FoldNothing<C>(f: Block<C>, iv: C)
    ensures Fold(f, iv, []) == iv
  {
  }

  /** The last one or two blocks: rest, 0x80, zeros, and the bit length from the end. */
  method TailBlocks(rest: seq<byte>, total: nat) returns (tail: seq<byte>)
    requires |rest| < 64 && (total - |rest|) % 64 == 0 && |rest| <= total
    ensures |tail| == 64 || |tail| == 128
    ensures tail == rest + [0x80] + ZeroBytes(Gap(total)) + BeBytes(8 * total % TWO64, 8)
  {
    hide BeBytes;
    var n := |rest|;
    var buf := new byte[128](_ => 0);
    forall i | 0 <= i < n { buf[i] := rest[i]; }
    buf[n] := 0x80;
    var tl := if n + 9 <= 64 then 64 else 128;
    var bits := 8 * total % TWO64;
    ghost var len := BeBytes(bits, 8);
    for i := 0 to 8
      invariant forall k :: 0 <= k < tl - 8 ==> buf[k] == (if k < n then rest[k] else if k == n then 0x80 else 0)
      invariant forall k :: tl - i <= k < tl ==> buf[k] == len[k - (tl - 8)]
    {
      BeByteAt(bits, 8, 7 - i);
      buf[tl - 1 - i] := Shr8(bits, i) % 0x100;
    }
    tail := buf[..tl];
    GapOfTail(n, total, tl);
    assert tail == rest + [0x80] + ZeroBytes(Gap(total)) + len;
  }

  /** v >> (8 * i) */
  function Shr8(v: nat, i: nat): nat {
    if i == 0 then v else Shr8(v / 0x100, i - 1)
  }

  lemma {:induction false} BeByteAt(v: nat, n: nat, k: nat)
    requires k < n
    ensures BeBytes(v, n)[k] == Shr8(v, n - 1 - k) % 0x100
  {
    if k < n - 1 { BeByteAt(v / 0x100, n - 1, k); }
  }

  lemma GapOfTail(n: nat, total: nat, tl: nat)
    requires n < 64 && n <= total && (total - n) % 64 == 0 && tl == if n + 9 <= 64 then 64 else 128
    ensures n + 1 + Gap(total) + 8 == tl
  {
  }

  // ------------------------------------------------------------------- HMAC

  function HmacKey(f: Block<Words8>, key: seq<byte>): (k: seq<byte>)
    ensures |k| == 64
  {
    var k := if |key| > 64 then Digest(f, key) else key;
    k + ZeroBytes(64 - |k|)
  }

  function XorAll(k: seq<byte>, b: byte): seq<byte> {
    seq(|k|, i requires 0 <= i < |k| => Xor(k[i], b))
  }

  /** HMAC-SHA-256 (RFC 2104): H(K ^ opad, H(K ^ ipad, text)). */
  function HmacOf(f: Block<Words8>, key: seq<byte>, msg: seq<byte>): (m: seq<byte>)
    ensures |m| == 32
  {
    var k := HmacKey(f, key);
    Digest(f, XorAll(k, 0x5c) + Digest(f, XorAll(k, 0x36) + msg))
  }

  method Hmac(f: Block<Words8>, key: seq<byte>, msg: seq<byte>) returns (out: seq<byte>)
    ensures out == HmacOf(f, key, msg)
  {
    hide Digest, Xor;
    var k := new byte[64](_ => 0);
    var start := key;
    if |key| > 64 { start := Hash(f, key); }
    forall i | 0 <= i < |start| { k[i] := start[i]; }
    assert k[..] == HmacKey(f, key);
    var ipad, opad := new byte[64](_ => 0), new byte[64](_ => 0);
    for i := 0 to 64
      invariant k[..] == HmacKey(f, key)
      invariant forall j :: 0 <= j < i ==> ipad[j] == Xor(k[j], 0x36) && opad[j] == Xor(k[j], 0x5c)
    {
      ipad[i] := Xor(k[i], 0x36);
      opad[i] := Xor(k[i], 0x5c);
    }
    assert ipad[..] == XorAll(k[..], 0x36) && opad[..] == XorAll(k[..], 0x5c);
    var inner := TwoParts(f, ipad[..], msg);
    out := TwoParts(f, opad[..], inner);
  }

  method TwoParts(f: Block<Words8>, a: seq<byte>, b: seq<byte>) returns (out: seq<byte>)
    ensures out == Digest(f, a + b)
  {
    hide Digest;
    var c := new Context(f);
    c.Update(a);
    assert [] + a == a;
    c.Update(b);
    out := c.Final();
  }
}
