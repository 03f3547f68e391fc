/** ChaCha20 and the AEAD of common/rd_secure.c:171-342 over any block function:
    sealing is section 2.8 of RFC 8439, and a text opens exactly when it is what
    sealing produces. */
module Aead {
  import opened Bytes
  import opened Poly1305
  import opened Poly1305Mac
  import Arith

  const TAG_LEN := 16

  type Block64 = s: seq<byte> | |s| == 64 witness seq(64, _ => 0)
  type Bytes32 = s: seq<byte> | |s| == 32 witness seq(32, _ => 0)
  type Bytes12 = s: seq<byte> | |s| == 12 witness seq(12, _ => 0)

  /** The keystream block of a sixteen-word state. */
  type ChaCha = seq<u32> -> Block64

  // -------------------------------------------------------------- ChaCha20

  function Words(key: Bytes32, nonce: Bytes12, counter: u32): seq<u32> {
    [0x61707865, 0x3320646e, 0x79622d32, 0x6b206574]
    + seq(8, i requires 0 <= i < 8 => Le32At(key, 4 * i))
    + [counter, Le32At(nonce, 0), Le32At(nonce, 4), Le32At(nonce, 8)]
  }

  const SIGMA := "expand 32-byte k"

  /** The state of section 2.3 of RFC 8439: the constant, the key, the block counter and
      the nonce, as little-endian words. */
  ghost predicate IsState(w: seq<u32>, key: Bytes32, nonce: Bytes12, counter: u32) {
    && |w| == 16 && w[12] == counter
    && (forall i :: 0 <= i < 4 ==> LeBytes(w[i], 4) == Ascii(SIGMA)[4 * i..4 * i + 4])
    && (forall i :: 4 <= i < 12 ==> LeBytes(w[i], 4) == key[4 * (i - 4)..4 * (i - 4) + 4])
    && (forall i :: 13 <= i < 16 ==> LeBytes(w[i], 4) == nonce[4 * (i - 13)..4 * (i - 13) + 4])
  }

  /** The words are that state, and no others are. */
  lemma WordsAreState(w: seq<u32>, key: Bytes32, nonce: Bytes12, counter: u32)
    ensures IsState(w, key, nonce, counter) <==> w == Words(key, nonce, counter)
  {
    hide LeBytes, Le32At;
    var v := Words(key, nonce, counter);
    SigmaWords();
    forall i | 4 <= i < 12 ensures LeBytes(v[i], 4) == key[4 * (i - 4)..4 * (i - 4) + 4] { LoadedWord(key, 4 * (i - 4)); }
    forall i | 13 <= i < 16 ensures LeBytes(v[i], 4) == nonce[4 * (i - 13)..4 * (i - 13) + 4] {
      LoadedWord(nonce, 4 * (i - 13));
    }
    if IsState(w, key, nonce, counter) {
      forall i | 0 <= i < 16 ensures w[i] == v[i] { if i != 12 { SameWord(w[i], v[i]); } }
    }
  }

  lemma SigmaWords()
    ensures LeBytes(0x61707865, 4) == Ascii(SIGMA)[0..4] && LeBytes(0x3320646e, 4) == Ascii(SIGMA)[4..8]
    ensures LeBytes(0x79622d32, 4) == Ascii(SIGMA)[8..12] && LeBytes(0x6b206574, 4) == Ascii(SIGMA)[12..16]
  {
    hide LeBytes;
    var t := Ascii(SIGMA);
    assert t == [0x65, 0x78, 0x70, 0x61, 0x6e, 0x64, 0x20, 0x33, 0x32, 0x2d, 0x62, 0x79, 0x74, 0x65, 0x20, 0x6b];
    LoadedWord(t, 0);
    LoadedWord(t, 4);
    LoadedWord(t, 8);
    LoadedWord(t, 12);
  }

  lemma LoadedWord(s: seq<byte>, i: nat)
    requires i + 4 <= |s|
    ensures LeBytes(Le32At(s, i), 4) == s[i..i + 4]
  {
    hide LeBytes, LeValue;
    var b := s[i..i + 4];
    LeValueOf4(b);
    LeBytesOfValue(b);
    assert Le32At(s, i) == Le32At(b, 0);
  }

  lemma SameWord(a: u32, b: u32)
    ensures LeBytes(a, 4) == LeBytes(b, 4) ==> a == b
  {
    assert Pow256(4) == 0x1_0000_0000;
    LeRoundTrip(a, 4);
    LeRoundTrip(b, 4);
  }

  /** Two blocks of keystream have the same input exactly when key, nonce and counter are
      the same. */
  lemma WordsInjective(k: Bytes32, n: Bytes12, c: u32, k': Bytes32, n': Bytes12, c': u32)
    ensures Words(k, n, c) == Words(k', n', c') <==> k == k' && n == n' && c == c'
  {
    hide LeBytes, Words;
    WordsAreState(Words(k, n, c), k, n, c);
    WordsAreState(Words(k', n', c'), k', n', c');
    if Words(k, n, c) == Words(k', n', c') {
      var w := Words(k, n, c);
      forall i | 0 <= i < 32 ensures k[i] == k'[i] {
        assert LeBytes(w[4 + i / 4], 4) == k[4 * (i / 4)..4 * (i / 4) + 4];
        assert LeBytes(w[4 + i / 4], 4) == k'[4 * (i / 4)..4 * (i / 4) + 4];
        assert k[4 * (i / 4)..4 * (i / 4) + 4][i % 4] == k'[4 * (i / 4)..4 * (i / 4) + 4][i % 4];
      }
      forall i | 0 <= i < 12 ensures n[i] == n'[i] {
        assert LeBytes(w[13 + i / 4], 4) == n[4 * (i / 4)..4 * (i / 4) + 4];
        assert LeBytes(w[13 + i / 4], 4) == n'[4 * (i / 4)..4 * (i / 4) + 4];
        assert n[4 * (i / 4)..4 * (i / 4) + 4][i % 4] == n'[4 * (i / 4)..4 * (i / 4) + 4][i % 4];
      }
    }
  }

  /** Byte `i` of the keystream that starts at block `counter`; the block counter is a
      32-bit word. */
  function KeyByte(f: ChaCha, key: Bytes32, nonce: Bytes12, counter: nat, i: nat): byte {
    f(Words(key, nonce, (counter + i / 64) % 0x1_0000_0000))[i % 64]
  }

  function Stream(f: ChaCha, key: Bytes32, nonce: Bytes12, counter: nat, data: seq<byte>): (out: seq<byte>)
    ensures |out| == |data|
  {
    seq(|data|, i requires 0 <= i < |data| => Xor(data[i], KeyByte(f, key, nonce, counter, i)))
  }

  lemma StreamInvolutive(f: ChaCha, key: Bytes32, nonce: Bytes12, counter: nat, data: seq<byte>)
    ensures Stream(f, key, nonce, counter, Stream(f, key, nonce, counter, data)) == data
  {
    hide Xor, KeyByte;
    var c := Stream(f, key, nonce, counter, data);
    forall i | 0 <= i < |data|
      ensures Stream(f, key, nonce, counter, c)[i] == data[i]
    {
      XorInvolutive(data[i], KeyByte(f, key, nonce, counter, i));
    }
  }

  /** rd_chacha20: block by block, the counter word stepped after each. */
  method ChaCha20(f: ChaCha, data: seq<byte>, key: Bytes32, nonce: Bytes12, counter: u32) returns (out: seq<byte>)
    ensures out == Stream(f, key, nonce, counter, data)
  {
    hide Xor, Words;
    var buf := new byte[|data|](_ => 0);
    var st12 := counter;
    var at := 0;
    ghost var block := 0;
    while at < |data|
      invariant at == Min(64 * block, |data|) && st12 == (counter + block) % 0x1_0000_0000
      invariant forall k :: 0 <= k < at ==> buf[k] == Xor(data[k], KeyByte(f, key, nonce, counter, k))
      decreases |data| - at
    {
      var ks := f(Words(key, nonce, st12));
      NextCounter(counter, block);
      var next: int := st12;
      st12 := (next + 1) % 0x1_0000_0000;
      var n := Min(|data| - at, 64);
      for i := 0 to n
        invariant forall k :: 0 <= k < at + i ==> buf[k] == Xor(data[k], KeyByte(f, key, nonce, counter, k))
      {
        BlockOf(block, i);
        buf[at + i] := Xor(data[at + i], ks[i]);
      }
      at := at + n;
      block := block + 1;
    }
    out := buf[..];
  }

  lemma NextCounter(counter: nat, block: nat)
    ensures ((counter + block) % 0x1_0000_0000 + 1) % 0x1_0000_0000 == (counter + (block + 1)) % 0x1_0000_0000
  {
    Arith.ModAdd((counter + block) % 0x1_0000_0000 + 1, 0x1_0000_0000, (counter + block) / 0x1_0000_0000);
  }

  lemma BlockOf(block: nat, i: nat)
    requires i < 64
    ensures (64 * block + i) / 64 == block && (64 * block + i) % 64 == i
  {
  }

  // ------------------------------------------------------------------- tag

  function PadTo16(n: nat): (z: seq<byte>)
    ensures (n + |z|) % 16 == 0 && |z| < 16
  {
    ZeroBytes((16 - n % 16) % 16)
  }

  function Padded(p: seq<byte>): (q: seq<byte>)
    ensures |q| % 16 == 0
  {
    p + PadTo16(|p|)
  }

  function Lengths(ad: seq<byte>, text: seq<byte>): (l: seq<byte>)
    ensures |l| == 16
  {
    LeBytes(|ad|, 8) + LeBytes(|text|, 8)
  }

  /** What is authenticated: data and text, each zero-padded to 16, and both lengths. */
  function MacData(ad: seq<byte>, text: seq<byte>): seq<byte> {
    Padded(ad) + Padded(text) + Lengths(ad, text)
  }

  function OneTimeKey(f: ChaCha, key: Bytes32, nonce: Bytes12): Bytes32 {
    Stream(f, key, nonce, 0, ZeroBytes(64))[..32]
  }

  function AeadTag(f: ChaCha, text: seq<byte>, ad: seq<byte>, key: Bytes32, nonce: Bytes12): (t: seq<byte>)
    ensures |t| == 16
  {
    Tag(Blocks(MacData(ad, text)), OneTimeKey(f, key, nonce))
  }

  /** The RFC's blocks of a text that is a whole number of them. */
  function Whole(m: seq<byte>): seq<nat>
    requires |m| % 16 == 0
  {
    FullBlocks(m, |m| / 16, 0x100_0000)
  }

  lemma WholeAppend(a: seq<byte>, b: seq<byte>)
    requires |a| % 16 == 0 && |b| % 16 == 0
    ensures |a + b| % 16 == 0 && Whole(a + b) == Whole(a) + Whole(b)
  {
    hide LeValue;
    var n, m := |a| / 16, |b| / 16;
    assert |a + b| / 16 == n + m;
    forall k | 0 <= k < n + m
      ensures BlockNumber(a + b, k, 0x100_0000)
           == if k < n then BlockNumber(a, k, 0x100_0000) else BlockNumber(b, k - n, 0x100_0000)
    {
      if k < n {
        assert (a + b)[16 * k..16 * k + 16] == a[16 * k..16 * k + 16];
      } else {
        assert (a + b)[16 * k..16 * k + 16] == b[16 * (k - n)..16 * (k - n) + 16];
      }
    }
  }

  lemma WholeBlocks(m: seq<byte>)
    requires |m| % 16 == 0
    ensures Blocks(m) == Whole(m)
  {
    hide Blocks, FullBlocks;
    BlocksSplit(m);
    assert m[16 * (|m| / 16)..] == [];
  }

  method AbsorbWhole(st: PolyState, m: seq<byte>)
    requires st.Valid() && |m| % 16 == 0
    modifies st, st.h
    ensures st.Valid() && st.blocks == old(st.blocks) + Whole(m)
  {
    hide FullBlocks, Eval, Clamp, KeyLimbs;
    st.Absorb(m, 0x100_0000);
  }

  /** poly_padded: whole blocks, then the rest zero-filled to a whole block. */
  method AbsorbPadded(st: PolyState, p: seq<byte>)
    requires st.Valid()
    modifies st, st.h
    ensures st.Valid() && st.blocks == old(st.blocks) + Whole(Padded(p))
  {
    hide Whole, ZeroBytes, Padded, Eval, Clamp, KeyLimbs;
    var full := |p| - |p| % 16;
    PaddedParts(p, full);
    AbsorbWhole(st, p[..full]);
    if |p| > full {
      var last := p[full..] + ZeroBytes(16 - (|p| - full));
      Associate(st.blocks, Whole(last), []);
      Associate(old(st.blocks), Whole(p[..full]), Whole(last));
      AbsorbWhole(st, last);
    }
  }

  lemma PaddedParts(p: seq<byte>, full: nat)
    requires full == |p| - |p| % 16
    ensures full % 16 == 0 && |p| - full < 16
    ensures |p| > full ==>
      var last := p[full..] + ZeroBytes(16 - (|p| - full));
      |last| == 16 && Whole(Padded(p)) == Whole(p[..full]) + Whole(last)
    ensures |p| == full ==> Padded(p) == p[..full]
  {
    hide Whole, ZeroBytes;
    if |p| > full {
      var last := p[full..] + ZeroBytes(16 - (|p| - full));
      WholeAppend(p[..full], last);
      assert Padded(p) == p[..full] + last;
    }
  }

  lemma Associate(a: seq<nat>, b: seq<nat>, c: seq<nat>)
    ensures a + b + c == a + (b + c) && [] + a == a
  {
  }

  /** aead_tag: the one-time key, the data and the text padded, both lengths. */
  method ComputeTag(f: ChaCha, text: seq<byte>, ad: seq<byte>, key: Bytes32, nonce: Bytes12) returns (tag: seq<byte>)
    requires |text| < 0x1_0000_0000_0000_0000 && |ad| < 0x1_0000_0000_0000_0000
    ensures tag == AeadTag(f, text, ad, key, nonce)
  {
    hide Whole, Tag, Blocks, Stream, Lengths, MacData, Padded, Eval, Clamp, KeyLimbs;
    var otk := ChaCha20(f, ZeroBytes(64), key, nonce, 0);
    var st := new PolyState(otk[..32]);
    AbsorbPadded(st, ad);
    AbsorbPadded(st, text);
    AbsorbWhole(st, Lengths(ad, text));
    MacBlocks(ad, text);
    tag := st.Finish();
  }

  lemma MacBlocks(ad: seq<byte>, text: seq<byte>)
    ensures Blocks(MacData(ad, text)) == [] + Whole(Padded(ad)) + Whole(Padded(text)) + Whole(Lengths(ad, text))
  {
    hide Whole, Blocks, Lengths, Padded;
    WholeAppend(Padded(ad), Padded(text));
    WholeAppend(Padded(ad) + Padded(text), Lengths(ad, text));
    WholeBlocks(MacData(ad, text));
    Associate(Whole(Padded(ad)), [], []);
  }

  function AeadSeal(f: ChaCha, msg: seq<byte>, ad: seq<byte>, key: Bytes32, nonce: Bytes12): (c: seq<byte>)
    ensures |c| == |msg| + TAG_LEN
  {
    var ct := Stream(f, key, nonce, 1, msg);
    ct + AeadTag(f, ct, ad, key, nonce)
  }

  function AeadOpen(f: ChaCha, c: seq<byte>, ad: seq<byte>, key: Bytes32, nonce: Bytes12): (m: Option<seq<byte>>)
    ensures m.Some? ==> |m.value| == |c| - TAG_LEN
  {
    if |c| < TAG_LEN then None
    else
      var n := |c| - TAG_LEN;
      if AeadTag(f, c[..n], ad, key, nonce) != c[n..] then None
      else Some(Stream(f, key, nonce, 1, c[..n]))
  }

  /** A text opens to a message exactly when it is that message sealed. */
  lemma OpensIffSealed(f: ChaCha, c: seq<byte>, m: seq<byte>, ad: seq<byte>, key: Bytes32, nonce: Bytes12)
    ensures AeadOpen(f, c, ad, key, nonce) == Some(m) <==> c == AeadSeal(f, m, ad, key, nonce)
  {
    hide Stream, AeadTag;
    StreamInvolutive(f, key, nonce, 1, m);
    if c == AeadSeal(f, m, ad, key, nonce) {
      assert c[..|m|] == Stream(f, key, nonce, 1, m);
    }
    if |c| >= TAG_LEN {
      var ct := c[..|c| - TAG_LEN];
      StreamInvolutive(f, key, nonce, 1, ct);
      assert c == ct + c[|c| - TAG_LEN..];
    }
  }

  /** Byte by byte, what sealing puts out: the message's byte against byte i % 64 of the
      block at counter 1 + i / 64 of this key and nonce, and then the tag under the first
      half of the block at counter 0. */
  lemma SealedBytes(f: ChaCha, m: seq<byte>, ad: seq<byte>, key: Bytes32, nonce: Bytes12)
    ensures forall i, w :: 0 <= i < |m| && IsState(w, key, nonce, (1 + i / 64) % 0x1_0000_0000) ==>
      AeadSeal(f, m, ad, key, nonce)[i] == Xor(m[i], f(w)[i % 64])
    ensures forall w :: IsState(w, key, nonce, 0) ==>
      var c := AeadSeal(f, m, ad, key, nonce);
      c[|m|..] == Tag(Blocks(MacData(ad, c[..|m|])), f(w)[..32])
  {
    hide Xor, Words, IsState, Blocks, Tag, MacData;
    var c := AeadSeal(f, m, ad, key, nonce);
    forall i, w | 0 <= i < |m| && IsState(w, key, nonce, (1 + i / 64) % 0x1_0000_0000)
      ensures c[i] == Xor(m[i], f(w)[i % 64])
    {
      WordsAreState(w, key, nonce, (1 + i / 64) % 0x1_0000_0000);
    }
    forall w | IsState(w, key, nonce, 0) ensures OneTimeKey(f, key, nonce) == f(w)[..32] {
      WordsAreState(w, key, nonce, 0);
      OneTimeKeyBlock(f, key, nonce);
    }
    assert c[..|m|] == Stream(f, key, nonce, 1, m);
  }

  lemma OneTimeKeyBlock(f: ChaCha, key: Bytes32, nonce: Bytes12)
    ensures OneTimeKey(f, key, nonce) == f(Words(key, nonce, 0))[..32]
  {
    hide Xor, Words;
    var block := f(Words(key, nonce, 0));
    forall i | 0 <= i < 32 ensures OneTimeKey(f, key, nonce)[i] == block[i] {
      XorZero(block[i]);
      BlockOf(0, i);
    }
  }

  /** The last sixteen authenticated bytes are the lengths of the data and of the text. */
  lemma LengthsLast(ad: seq<byte>, text: seq<byte>)
    requires |ad| < 0x1_0000_0000_0000_0000 && |text| < 0x1_0000_0000_0000_0000
    ensures var d := MacData(ad, text);
      && |d| >= 16 && LeValue(d[|d| - 16..|d| - 8]) == |ad| && LeValue(d[|d| - 8..]) == |text|
      && ad <= d && |d| == (|ad| + 15) / 16 * 16 + (|text| + 15) / 16 * 16 + 16
      && d[(|ad| + 15) / 16 * 16..][..|text|] == text
  {
    hide LeBytes, LeValue;
    assert Pow256(8) == 0x1_0000_0000_0000_0000;
    LeRoundTrip(|ad|, 8);
    LeRoundTrip(|text|, 8);
    var d := MacData(ad, text);
    var n := |Padded(ad)| + |Padded(text)|;
    assert d[n..n + 8] == LeBytes(|ad|, 8) && d[n + 8..] == LeBytes(|text|, 8);
    PaddedSize(ad);
    PaddedSize(text);
    assert d[|Padded(ad)|..] == Padded(text) + Lengths(ad, text);
  }

  lemma PaddedSize(p: seq<byte>)
    ensures |Padded(p)| == (|p| + 15) / 16 * 16 && p <= Padded(p)
  {
  }

  method Seal(f: ChaCha, msg: seq<byte>, ad: seq<byte>, key: Bytes32, nonce: Bytes12) returns (out: seq<byte>)
    requires |msg| < 0x1_0000_0000_0000_0000 && |ad| < 0x1_0000_0000_0000_0000
    ensures out == AeadSeal(f, msg, ad, key, nonce)
  {
    hide Stream, AeadTag;
    var ct := ChaCha20(f, msg, key, nonce, 1);
    var tag := ComputeTag(f, ct, ad, key, nonce);
    out := ct + tag;
  }

  /** rd_ct_equal: looks at every byte. */
  method Equal(a: seq<byte>, b: seq<byte>) returns (same: bool)
    requires |a| == |b|
    ensures same <==> a == b
  {
    var differ := false;
    for i := 0 to |a|
      invariant differ <==> exists k :: 0 <= k < i && a[k] != b[k]
    {
      differ := differ || a[i] != b[i];
    }
    same := !differ;
  }

  method Open(f: ChaCha, c: seq<byte>, ad: seq<byte>, key: Bytes32, nonce: Bytes12) returns (out: Option<seq<byte>>)
    requires |c| < 0x1_0000_0000_0000_0000 && |ad| < 0x1_0000_0000_0000_0000
    ensures out == AeadOpen(f, c, ad, key, nonce)
  {
    hide Stream, AeadTag;
    if |c| < TAG_LEN { return None; }
    var n := |c| - TAG_LEN;
    var tag := ComputeTag(f, c[..n], ad, key, nonce);
    var same := Equal(tag, c[n..]);
    if !same { return None; }
    var m := ChaCha20(f, c[..n], key, nonce, 1);
    out := Some(m);
  }
}
