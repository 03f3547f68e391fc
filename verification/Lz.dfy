/** The LZ77 byte compressor of common/rd_codec.c (LZ4 block layout): the block
    format as a decoder on sequences, the bounds-checked decompressor, and the
    hash-table compressor, with the exact round trip and the size bound. */
module Lz {
  import opened Bytes

  const HASH_SIZE := 8192
  const MIN_MATCH := 4
  const LAST_LITERALS := 5
  const MF_LIMIT := 12

  function Bound(n: nat): nat {
    n + n / 255 + 16
  }

  // ------------------------------------------------------------ the format

  /** A 255-run length: bytes are added up to and including the first that is not 255. */
  function ReadLen(src: seq<byte>, ip: nat, len: nat): (r: Option<(nat, nat)>)
    ensures r.Some? ==> ip < r.value.0 <= |src| && len <= r.value.1
    decreases |src| - ip
  {
    if ip >= |src| then None
    else if src[ip] == 255 then ReadLen(src, ip + 1, len + 255)
    else Some((ip + 1, len + src[ip]))
  }

  function NibbleLen(src: seq<byte>, ip: nat, nibble: nat): (r: Option<(nat, nat)>)
    requires ip <= |src|
    ensures r.Some? ==> ip <= r.value.0 <= |src|
  {
    if nibble == 15 then ReadLen(src, ip, 15) else Some((ip, nibble))
  }

  /** `ml` bytes copied one by one from `off` bytes back, so a copy may overlap itself. */
  function CopyMatch(out: seq<byte>, off: nat, ml: nat): (r: seq<byte>)
    requires 0 < off <= |out|
    ensures |r| == |out| + ml
  {
    if ml == 0 then out
    else
      var r := CopyMatch(out, off, ml - 1);
      r + [r[|r| - off]]
  }

  function Offset(src: seq<byte>, ip: nat): nat
    requires ip + 2 <= |src|
  {
    var lo: int, hi: int := src[ip], src[ip + 1];
    lo + 0x100 * hi
  }

  /** What remains to be written when `src` is read from `ip` and `out` is already there. */
  function DecodeFrom(src: seq<byte>, ip: nat, out: seq<byte>, cap: nat): (r: Option<seq<byte>>)
    requires ip <= |src| && |out| <= cap
    ensures r.Some? ==> |r.value| <= cap
    decreases |src| - ip
  {
    if ip == |src| then Some(out)
    else
      var t := src[ip];
      var l := NibbleLen(src, ip + 1, t / 16);
      if l.None? then None
      else
        var (lp, lit) := l.value;
        if lit > |src| - lp || lit > cap - |out| then None
        else DecodeMatch(src, lp + lit, t % 16, out + src[lp..lp + lit], cap)
  }

  /** The part of a sequence that follows its literals. */
  function DecodeMatch(src: seq<byte>, ip: nat, nibble: nat, out: seq<byte>, cap: nat): (r: Option<seq<byte>>)
    requires ip <= |src| && |out| <= cap
    ensures r.Some? ==> |r.value| <= cap
    decreases |src| - ip
  {
    if ip == |src| then Some(out)
    else if |src| - ip < 2 then None
    else
      var off := Offset(src, ip);
      if off == 0 || off > |out| then None
      else
        var m := NibbleLen(src, ip + 2, nibble);
        if m.None? then None
        else
          var (mp, ml) := m.value;
          if ml + MIN_MATCH > cap - |out| then None
          else DecodeFrom(src, mp, CopyMatch(out, off, ml + MIN_MATCH), cap)
  }

  function Decode(src: seq<byte>, cap: nat): Option<seq<byte>> {
    DecodeFrom(src, 0, [], cap)
  }

  lemma DecodeAtEnd(src: seq<byte>, nibble: nat, out: seq<byte>, cap: nat)
    requires |out| <= cap
    ensures DecodeFrom(src, |src|, out, cap) == Some(out) == DecodeMatch(src, |src|, nibble, out, cap)
  {
  }

  lemma CopyMatchStep(out: seq<byte>, off: nat, ml: nat)
    requires 0 < off <= |out|
    ensures ml == 0 ==> CopyMatch(out, off, ml) == out
    ensures ml > 0 ==> var r := CopyMatch(out, off, ml - 1); CopyMatch(out, off, ml) == r + [r[|r| - off]]
  {
  }

  lemma {:induction false} CopyMatchApart(out: seq<byte>, off: nat, ml: nat)
    requires 0 < off <= |out| && ml <= off
    ensures CopyMatch(out, off, ml) == out + out[|out| - off..|out| - off + ml]
  {
    if ml != 0 {
      CopyMatchApart(out, off, ml - 1);
    }
  }

  /** Copying from a true earlier occurrence extends the text itself, overlap or not. */
  lemma {:induction false} CopyMatchOfText(text: seq<byte>, ip: nat, ref: nat, m: nat)
    requires ref < ip && ip + m <= |text|
    requires text[ref..ref + m] == text[ip..ip + m]
    ensures CopyMatch(text[..ip], ip - ref, m) == text[..ip + m]
  {
    if m != 0 {
      assert text[ref..ref + m - 1] == text[ref..ref + m][..m - 1] == text[ip..ip + m - 1];
      CopyMatchOfText(text, ip, ref, m - 1);
      assert text[ref + m - 1] == text[ref..ref + m][m - 1] == text[ip + m - 1];
      assert text[..ip + m] == text[..ip + m - 1] + [text[ip + m - 1]];
    }
  }

  // ----------------------------------------------------------- decompressor

  method ReadLenRun(src: seq<byte>, start: nat, acc: nat) returns (ok: bool, ip: nat, len: nat)
    requires start <= |src|
    ensures ok <==> ReadLen(src, start, acc).Some?
    ensures ok ==> ReadLen(src, start, acc).value == (ip, len)
  {
    ip, len := start, acc;
    while true
      invariant start <= ip <= |src|
      invariant ReadLen(src, ip, len) == ReadLen(src, start, acc)
      decreases |src| - ip
    {
      if ip >= |src| { return false, ip, len; }
      var b := src[ip];
      ip := ip + 1;
      len := len + b;
      if b != 255 { return true, ip, len; }
    }
  }

  /** The copy of one match into `dst`, as one block move or byte by byte. */
  method CopyWithin(dst: array<byte>, op: nat, off: nat, ml: nat)
    requires 0 < off <= op && op + ml <= dst.Length
    modifies dst
    ensures dst[..op + ml] == CopyMatch(old(dst[..op]), off, ml)
    ensures forall k :: op + ml <= k < dst.Length ==> dst[k] == old(dst[k])
  {
    hide CopyMatch;
    ghost var text := dst[..op];
    if off >= ml {
      CopyMatchApart(text, off, ml);
      forall i | 0 <= i < ml { dst[op + i] := dst[op - off + i]; }
      assert dst[..op + ml] == text + text[op - off..op - off + ml];
    } else {
      CopyMatchStep(text, off, 0);
      var i := 0;
      while i < ml
        invariant 0 <= i <= ml
        invariant dst[..op + i] == CopyMatch(text, off, i)
        invariant forall k :: op + ml <= k < dst.Length ==> dst[k] == old(dst[k])
      {
        ghost var before := dst[..op + i];
        dst[op + i] := dst[op + i - off];
        i := i + 1;
        assert dst[..op + i] == before + [before[|before| - off]];
        CopyMatchStep(text, off, i);
      }
    }
  }

  /** Literals of one sequence: `src[lp..lp + lit]` appended at `op`. */
  method CopyLiterals(dst: array<byte>, op: nat, src: seq<byte>, lp: nat, lit: nat)
    requires lp + lit <= |src| && op + lit <= dst.Length
    modifies dst
    ensures dst[..op + lit] == old(dst[..op]) + src[lp..lp + lit]
    ensures forall k :: op + lit <= k < dst.Length ==> dst[k] == old(dst[k])
  {
    forall i | 0 <= i < lit { dst[op + i] := src[lp + i]; }
  }

  method NibbleRun(src: seq<byte>, start: nat, nibble: nat) returns (ok: bool, ip: nat, len: nat)
    requires start <= |src|
    ensures ok <==> NibbleLen(src, start, nibble).Some?
    ensures ok ==> NibbleLen(src, start, nibble).value == (ip, len) && ip <= |src|
  {
    if nibble != 15 { return true, start, nibble; }
    ok, ip, len := ReadLenRun(src, start, 15);
  }

  /** Token and literal length of the sequence at `start`, checked against input and room. */
  method ReadToken(src: seq<byte>, start: nat, op: nat, cap: nat, ghost out: seq<byte>)
    returns (ok: bool, nibble: nat, lp: nat, lit: nat)
    requires start < |src| && |out| == op <= cap
    ensures ok ==> start < lp && lp + lit <= |src| && op + lit <= cap && nibble == src[start] % 16
    ensures ok ==> DecodeFrom(src, start, out, cap) == DecodeMatch(src, lp + lit, nibble, out + src[lp..lp + lit], cap)
    ensures !ok ==> DecodeFrom(src, start, out, cap) == None
  {
    var t: nat := src[start];
    nibble := t % 16;
    ok, lp, lit := NibbleRun(src, start + 1, t / 16);
    if ok && (lit > |src| - lp || lit > cap - op) { ok := false; }
  }

  /** Offset and length of the match that follows the literals. */
  method ReadMatch(src: seq<byte>, start: nat, nibble: nat, op: nat, cap: nat, ghost out: seq<byte>)
    returns (ok: bool, mp: nat, off: nat, ml: nat)
    requires start < |src| && |out| == op <= cap
    ensures ok ==> start < mp <= |src| && 0 < off <= op && op + ml <= cap
    ensures ok ==> DecodeMatch(src, start, nibble, out, cap) == DecodeFrom(src, mp, CopyMatch(out, off, ml), cap)
    ensures !ok ==> DecodeMatch(src, start, nibble, out, cap) == None
  {
    mp, off, ml := start, 0, 0;
    if |src| - start < 2 { return false, mp, off, ml; }
    off := Offset(src, start);
    if off == 0 || off > op { return false, mp, off, ml; }
    ok, mp, ml := NibbleRun(src, start + 2, nibble);
    ml := ml + MIN_MATCH;
    if ok && ml > cap - op { ok := false; }
  }

  /** Returns the length of the text, or -1 when the block is malformed or the
      text does not fit in `cap` bytes; nothing past `cap` is written. */
  method Decompress(src: seq<byte>, dst: array<byte>, cap: nat) returns (r: int)
    requires cap <= dst.Length
    modifies dst
    ensures Decode(src, cap).None? ==> r == -1
    ensures Decode(src, cap).Some? ==> r == |Decode(src, cap).value| && dst[..r] == Decode(src, cap).value
    ensures forall k :: cap <= k < dst.Length ==> dst[k] == old(dst[k])
  {
    hide DecodeFrom, DecodeMatch, CopyMatch;
    var ip: nat, op: nat := 0, 0;
    assert dst[..0] == [];
    while ip < |src|
      invariant ip <= |src| && op <= cap
      invariant DecodeFrom(src, ip, dst[..op], cap) == Decode(src, cap)
      invariant forall k :: cap <= k < dst.Length ==> dst[k] == old(dst[k])
      decreases |src| - ip
    {
      var ok, nibble, lp, lit := ReadToken(src, ip, op, cap, dst[..op]);
      if !ok { return -1; }
      CopyLiterals(dst, op, src, lp, lit);
      ip := lp + lit;
      op := op + lit;
      if ip == |src| {
        DecodeAtEnd(src, nibble, dst[..op], cap);
        return op;
      }
      var off, ml;
      ok, ip, off, ml := ReadMatch(src, ip, nibble, op, cap, dst[..op]);
      if !ok { return -1; }
      CopyWithin(dst, op, off, ml);
      op := op + ml;
    }
    DecodeAtEnd(src, 0, dst[..op], cap);
    return op;
  }

  // ------------------------------------------------------------- compressor

  function LenBytes(len: nat): (r: seq<byte>)
    ensures |r| == len / 255 + 1
  {
    if len >= 255 then [255] + LenBytes(len - 255) else [len]
  }

  function Nibble(v: nat): (r: nat)
    ensures r <= 15
  {
    if v >= 15 then 15 else v
  }

  function Extension(v: nat): seq<byte> {
    if v >= 15 then LenBytes(v - 15) else []
  }

  function SequenceBytes(lits: seq<byte>, off: nat, ml: nat): seq<byte>
    requires off < 0x1_0000
  {
    [Nibble(|lits|) * 16 + Nibble(ml)] + Extension(|lits|) + lits + [off % 0x100, off / 0x100] + Extension(ml)
  }

  function FinalBytes(lits: seq<byte>): seq<byte> {
    [Nibble(|lits|) * 16] + Extension(|lits|) + lits
  }

  lemma {:induction false} ReadLenOfBytes(src: seq<byte>, ip: nat, v: nat, acc: nat)
    requires At(src, ip, LenBytes(v))
    ensures ReadLen(src, ip, acc) == Some((ip + |LenBytes(v)|, acc + v))
    decreases v
  {
    var n := |LenBytes(v)|;
    assert src[ip] == src[ip..ip + n][0];
    if v >= 255 {
      assert src[ip + 1..ip + n] == src[ip..ip + n][1..];
      ReadLenOfBytes(src, ip + 1, v - 255, acc + 255);
    }
  }

  lemma NibbleLenOfBytes(src: seq<byte>, ip: nat, v: nat)
    requires At(src, ip, Extension(v))
    ensures NibbleLen(src, ip, Nibble(v)) == Some((ip + |Extension(v)|, v))
  {
    if v >= 15 { ReadLenOfBytes(src, ip, v - 15, 15); }
  }

  /** `pre` is a run of whole sequences that produce `out`, whatever follows it. */
  ghost predicate Produces(pre: seq<byte>, out: seq<byte>, cap: nat) {
    |out| <= cap && forall rest :: DecodeFrom(pre + rest, |pre|, out, cap) == Decode(pre + rest, cap)
  }

  ghost predicate At<T>(src: seq<T>, ip: nat, part: seq<T>) {
    ip + |part| <= |src| && src[ip..ip + |part|] == part
  }

  lemma AtSplit<T>(src: seq<T>, ip: nat, a: seq<T>, b: seq<T>)
    requires At(src, ip, a + b)
    ensures At(src, ip, a) && At(src, ip + |a|, b)
  {
    var all := src[ip..ip + |a + b|];
    assert src[ip..ip + |a|] == all[..|a|] == a;
    assert src[ip + |a|..ip + |a| + |b|] == all[|a|..] == b;
  }

  lemma LiteralsAt(src: seq<byte>, ip: nat, lits: seq<byte>, nibble: nat, out: seq<byte>, cap: nat)
    requires nibble <= 15 && |out| + |lits| <= cap
    requires At(src, ip, [Nibble(|lits|) * 16 + nibble] + Extension(|lits|) + lits)
    ensures ip + 1 + |Extension(|lits|)| + |lits| <= |src|
    ensures DecodeFrom(src, ip, out, cap)
         == DecodeMatch(src, ip + 1 + |Extension(|lits|)| + |lits|, nibble, out + lits, cap)
  {
    hide DecodeMatch;
    var t := [Nibble(|lits|) * 16 + nibble];
    AtSplit(src, ip, t + Extension(|lits|), lits);
    AtSplit(src, ip, t, Extension(|lits|));
    assert src[ip] == src[ip..ip + 1][0] == t[0];
    NibbleLenOfBytes(src, ip + 1, |lits|);
  }

  lemma MatchAt(src: seq<byte>, ip: nat, off: nat, ml: nat, out: seq<byte>, cap: nat)
    requires 0 < off < 0x1_0000 && off <= |out| && |out| + ml + MIN_MATCH <= cap
    requires At(src, ip, [off % 0x100, off / 0x100] + Extension(ml))
    ensures DecodeMatch(src, ip, Nibble(ml), out, cap)
         == DecodeFrom(src, ip + 2 + |Extension(ml)|, CopyMatch(out, off, ml + MIN_MATCH), cap)
  {
    hide DecodeFrom, CopyMatch;
    var o := [off % 0x100, off / 0x100];
    AtSplit(src, ip, o, Extension(ml));
    assert src[ip] == src[ip..ip + 2][0] == o[0];
    assert src[ip + 1] == src[ip..ip + 2][1] == o[1];
    NibbleLenOfBytes(src, ip + 2, ml);
  }

  lemma SequenceAt(src: seq<byte>, ip: nat, lits: seq<byte>, off: nat, ml: nat, out: seq<byte>, cap: nat)
    requires 0 < off < 0x1_0000 && off <= |out| + |lits| && |out| + |lits| + ml + MIN_MATCH <= cap
    requires At(src, ip, SequenceBytes(lits, off, ml))
    ensures DecodeFrom(src, ip, out, cap)
         == DecodeFrom(src, ip + |SequenceBytes(lits, off, ml)|, CopyMatch(out + lits, off, ml + MIN_MATCH), cap)
  {
    hide DecodeFrom, DecodeMatch, CopyMatch, Extension;
    var head := [Nibble(|lits|) * 16 + Nibble(ml)] + Extension(|lits|) + lits;
    var tail := [off % 0x100, off / 0x100] + Extension(ml);
    assert SequenceBytes(lits, off, ml) == head + tail;
    AtSplit(src, ip, head, tail);
    LiteralsAt(src, ip, lits, Nibble(ml), out, cap);
    MatchAt(src, ip + |head|, off, ml, out + lits, cap);
  }

  lemma ProducesSequence(pre: seq<byte>, out: seq<byte>, lits: seq<byte>, off: nat, ml: nat, cap: nat)
    requires Produces(pre, out, cap)
    requires 0 < off < 0x1_0000 && off <= |out| + |lits| && |out| + |lits| + ml + MIN_MATCH <= cap
    ensures Produces(pre + SequenceBytes(lits, off, ml), CopyMatch(out + lits, off, ml + MIN_MATCH), cap)
  {
    hide DecodeFrom, SequenceBytes, CopyMatch;
    var s := SequenceBytes(lits, off, ml);
    var out' := CopyMatch(out + lits, off, ml + MIN_MATCH);
    forall rest
      ensures DecodeFrom(pre + s + rest, |pre + s|, out', cap) == Decode(pre + s + rest, cap)
    {
      var src := pre + s + rest;
      assert src == pre + (s + rest);
      assert At(src, |pre|, s);
      SequenceAt(src, |pre|, lits, off, ml, out, cap);
    }
  }

  lemma ProducesFinal(pre: seq<byte>, out: seq<byte>, lits: seq<byte>, cap: nat)
    requires Produces(pre, out, cap) && |out| + |lits| <= cap
    ensures Decode(pre + FinalBytes(lits), cap) == Some(out + lits)
  {
    hide DecodeFrom;
    var src := pre + FinalBytes(lits);
    assert FinalBytes(lits) == [Nibble(|lits|) * 16 + 0] + Extension(|lits|) + lits;
    assert At(src, |pre|, FinalBytes(lits));
    LiteralsAt(src, |pre|, lits, 0, out, cap);
  }

  // The cost of a sequence is paid by the text it covers.

  lemma SequenceCost(lits: seq<byte>, off: nat, ml: nat)
    requires off < 0x1_0000
    ensures |SequenceBytes(lits, off, ml)| <= |lits| + ml + MIN_MATCH + (|lits| + ml + MIN_MATCH) / 255
  {
  }

  lemma FinalCost(lits: seq<byte>)
    ensures |FinalBytes(lits)| <= |lits| + |lits| / 255 + 2
  {
  }

  method PutLen(dst: array<byte>, start: nat, len: nat) returns (op: nat)
    requires start + |LenBytes(len)| <= dst.Length
    modifies dst
    ensures op == start + |LenBytes(len)|
    ensures dst[..op] == old(dst[..start]) + LenBytes(len)
    ensures forall k :: op <= k < dst.Length ==> dst[k] == old(dst[k])
  {
    op := start;
    var rest := len;
    while rest >= 255
      invariant start <= op && op + |LenBytes(rest)| == start + |LenBytes(len)|
      invariant dst[..op] + LenBytes(rest) == old(dst[..start]) + LenBytes(len)
      invariant forall k :: start + |LenBytes(len)| <= k < dst.Length ==> dst[k] == old(dst[k])
    {
      ghost var before := dst[..op];
      dst[op] := 255;
      op := op + 1;
      rest := rest - 255;
      assert dst[..op] + LenBytes(rest) == before + ([255] + LenBytes(rest));
    }
    ghost var before := dst[..op];
    dst[op] := rest;
    op := op + 1;
    assert dst[..op] == before + [rest];
  }

  method PutExtension(dst: array<byte>, start: nat, v: nat) returns (op: nat)
    requires start + |Extension(v)| <= dst.Length
    modifies dst
    ensures op == start + |Extension(v)|
    ensures dst[..op] == old(dst[..start]) + Extension(v)
    ensures forall k :: op <= k < dst.Length ==> dst[k] == old(dst[k])
  {
    op := start;
    if v >= 15 { op := PutLen(dst, op, v - 15); }
  }

  /** Token (low nibble still 0), literal length and literals, starting at `start`. */
  method EmitLiterals(dst: array<byte>, start: nat, src: seq<byte>, anchor: nat, n: nat) returns (op: nat)
    requires anchor + n <= |src|
    requires start + |FinalBytes(src[anchor..anchor + n])| <= dst.Length
    modifies dst
    ensures op == start + |FinalBytes(src[anchor..anchor + n])|
    ensures dst[..op] == old(dst[..start]) + FinalBytes(src[anchor..anchor + n])
    ensures forall k :: op <= k < dst.Length ==> dst[k] == old(dst[k])
  {
    hide LenBytes, Extension, Nibble;
    ghost var pre, lits := dst[..start], src[anchor..anchor + n];
    ghost var t := [Nibble(n) * 16];
    dst[start] := Nibble(n) * 16;
    assert dst[..start + 1] == pre + t;
    op := PutExtension(dst, start + 1, n);
    CopyLiterals(dst, op, src, anchor, n);
    op := op + n;
    Concat4(pre, t, Extension(n), lits);
  }

  lemma Concat4<T>(a: seq<T>, b: seq<T>, c: seq<T>, d: seq<T>)
    ensures a + b + c + d == a + (b + c + d)
  {
  }

  /** One whole sequence; the token's low nibble is filled in after the offset. */
  method EmitSequence(dst: array<byte>, start: nat, src: seq<byte>, anchor: nat, ip: nat, off: nat, ml: nat)
    returns (op: nat)
    requires anchor <= ip <= |src| && 0 < off < 0x1_0000
    requires start + |SequenceBytes(src[anchor..ip], off, ml)| <= dst.Length
    modifies dst
    ensures op == start + |SequenceBytes(src[anchor..ip], off, ml)|
    ensures dst[..op] == old(dst[..start]) + SequenceBytes(src[anchor..ip], off, ml)
    ensures forall k :: op <= k < dst.Length ==> dst[k] == old(dst[k])
  {
    hide LenBytes, Extension, Nibble, FinalBytes;
    ghost var pre := dst[..start];
    ghost var lits := src[anchor..ip];
    SequenceLen(lits, off, ml);
    assert src[anchor..anchor + (ip - anchor)] == lits;
    op := EmitLiterals(dst, start, src, anchor, ip - anchor);
    ghost var head := dst[..op];
    dst[op] := off % 0x100;
    dst[op + 1] := off / 0x100;
    op := op + 2;
    assert dst[..op] == head + [off % 0x100, off / 0x100];
    FinalHead(pre, lits, head);
    ghost var full := dst[..op];
    dst[start] := dst[start] + Nibble(ml);
    assert dst[..op] == full[start := dst[start]];
    op := PutExtension(dst, op, ml);
    SequenceParts(pre, lits, off, ml, head);
  }

  lemma SequenceLen(lits: seq<byte>, off: nat, ml: nat)
    requires off < 0x1_0000
    ensures |SequenceBytes(lits, off, ml)| == |FinalBytes(lits)| + 2 + |Extension(ml)|
  {
  }

  lemma FinalHead(pre: seq<byte>, lits: seq<byte>, head: seq<byte>)
    requires head == pre + FinalBytes(lits)
    ensures |head| > |pre| && head[|pre|] == Nibble(|lits|) * 16
  {
  }

  lemma SequenceParts(pre: seq<byte>, lits: seq<byte>, off: nat, ml: nat, head: seq<byte>)
    requires off < 0x1_0000 && head == pre + FinalBytes(lits)
    ensures |head| > |pre|
    ensures (head + [off % 0x100, off / 0x100])[|pre| := Nibble(|lits|) * 16 + Nibble(ml)] + Extension(ml)
         == pre + SequenceBytes(lits, off, ml)
  {
    hide Extension, Nibble;
    var o := [off % 0x100, off / 0x100];
    var e := Extension(|lits|);
    var t0, t := [Nibble(|lits|) * 16], [Nibble(|lits|) * 16 + Nibble(ml)];
    Concat4(pre, t0, e, lits);
    assert (pre + t0 + e + lits + o)[|pre| := t[0]] == pre + t + e + lits + o;
    Concat4(pre, t, e, lits);
    Concat4(pre, t + e + lits, o, Extension(ml));
  }

  // The match search.

  function Hash(quad: u32): (h: nat)
    ensures h < HASH_SIZE
  {
    (quad * 2654435761) % 0x1_0000_0000 / 0x8_0000
  }

  lemma QuadDigits(a0: int, a1: int, a2: int, a3: int, b0: int, b1: int, b2: int, b3: int)
    requires 0 <= a0 < 256 && 0 <= a1 < 256 && 0 <= a2 < 256 && 0 <= a3 < 256
    requires 0 <= b0 < 256 && 0 <= b1 < 256 && 0 <= b2 < 256 && 0 <= b3 < 256
    requires a0 + 0x100 * a1 + 0x1_0000 * a2 + 0x100_0000 * a3 == b0 + 0x100 * b1 + 0x1_0000 * b2 + 0x100_0000 * b3
    ensures a0 == b0 && a1 == b1 && a2 == b2 && a3 == b3
  {
  }

  lemma SameQuad(src: seq<byte>, i: nat, j: nat)
    requires i + 4 <= |src| && j + 4 <= |src| && Le32At(src, i) == Le32At(src, j)
    ensures src[i..i + 4] == src[j..j + 4]
  {
    QuadDigits(src[i], src[i + 1], src[i + 2], src[i + 3], src[j], src[j + 1], src[j + 2], src[j + 3]);
  }

  lemma QuadOf(src: seq<byte>, i: nat, j: nat)
    requires i + 4 <= |src| && j + 4 <= |src| && src[i..i + 4] == src[j..j + 4]
    ensures Le32At(src, i) == Le32At(src, j)
  {
    var a, b := src[i..i + 4], src[j..j + 4];
    assert a[0] == b[0] && a[1] == b[1] && a[2] == b[2] && a[3] == b[3];
  }

  /** Every table entry is empty or one more than a position already passed. */
  ghost predicate Passed(table: seq<u32>, ip: nat) {
    |table| == HASH_SIZE && forall h :: 0 <= h < HASH_SIZE ==> table[h] <= ip
  }

  method NewTable() returns (table: array<u32>)
    ensures fresh(table) && Passed(table[..], 0) && forall h :: 0 <= h < HASH_SIZE ==> table[h] == 0
  {
    table := new u32[HASH_SIZE](_ => 0);
  }

  lemma PassedLater(table: seq<u32>, ip: nat)
    requires Passed(table, ip)
    ensures forall later :: ip <= later ==> Passed(table, later)
  {
  }

  /** Looks up and replaces the table entry for `ip`; a hit is a position
      strictly before `ip`, at most 65535 back, with the same four bytes. */
  method Candidate(src: seq<byte>, table: array<u32>, ip: nat) returns (hit: bool, ref: nat)
    requires ip + 4 <= |src| && Passed(table[..], ip)
    modifies table
    ensures Passed(table[..], ip + 1)
    ensures table[..] == old(table[..])[Hash(Le32At(src, ip)) := (ip % 0x1_0000_0000 + 1) % 0x1_0000_0000]
    ensures hit ==> ref < ip && ip - ref <= 65535 && src[ref..ref + 4] == src[ip..ip + 4]
    ensures var cand: nat := old(table[..])[Hash(Le32At(src, ip))];
      hit <==> cand != 0 && ip - (cand - 1) <= 65535 && src[cand - 1..cand + 3] == src[ip..ip + 4]
    ensures hit ==> ref + 1 == old(table[..])[Hash(Le32At(src, ip))]
  {
    var quad := Le32At(src, ip);
    var h := Hash(quad);
    var cand: nat := table[..][h];
    table[h] := (ip % 0x1_0000_0000 + 1) % 0x1_0000_0000;
    hit, ref := false, 0;
    if cand != 0 && src[cand - 1..cand + 3] == src[ip..ip + 4] { QuadOf(src, cand - 1, ip); }
    if cand != 0 && ip - (cand - 1) <= 65535 && Le32At(src, cand - 1) == quad {
      SameQuad(src, cand - 1, ip);
      return true, cand - 1;
    }
  }

  method ExtendForward(src: seq<byte>, ip: nat, ref: nat) returns (m: nat)
    requires ref < ip && ip + MF_LIMIT <= |src| && src[ref..ref + 4] == src[ip..ip + 4]
    ensures MIN_MATCH <= m && ip + m <= |src| - LAST_LITERALS
    ensures src[ref..ref + m] == src[ip..ip + m]
    ensures ip + m == |src| - LAST_LITERALS || src[ref + m] != src[ip + m]
  {
    m := MIN_MATCH;
    var maxm := |src| - LAST_LITERALS - ip;
    while m < maxm && src[ref + m] == src[ip + m]
      invariant MIN_MATCH <= m <= maxm
      invariant src[ref..ref + m] == src[ip..ip + m]
    {
      assert src[ref..ref + m + 1] == src[ref..ref + m] + [src[ref + m]];
      assert src[ip..ip + m + 1] == src[ip..ip + m] + [src[ip + m]];
      m := m + 1;
    }
  }

  lemma SlicePrepend<T>(s: seq<T>, i: nat, j: nat, m: nat)
    requires 0 < i && 0 < j && i + m <= |s| && j + m <= |s|
    requires s[i - 1] == s[j - 1] && s[i..i + m] == s[j..j + m]
    ensures s[i - 1..i + m] == s[j - 1..j + m]
  {
    assert s[i - 1..i + m] == [s[i - 1]] + s[i..i + m];
    assert s[j - 1..j + m] == [s[j - 1]] + s[j..j + m];
  }

  method ExtendBackward(src: seq<byte>, anchor: nat, ip0: nat, ref0: nat, m0: nat) returns (ip: nat, ref: nat, m: nat)
    requires anchor <= ip0 && ref0 < ip0 && ip0 + m0 <= |src| && src[ref0..ref0 + m0] == src[ip0..ip0 + m0]
    ensures anchor <= ip && ref < ip && ip - ref == ip0 - ref0 && ip + m == ip0 + m0 && m0 <= m
    ensures src[ref..ref + m] == src[ip..ip + m]
    ensures ip == anchor || ref == 0 || src[ip - 1] != src[ref - 1]
  {
    ip, ref, m := ip0, ref0, m0;
    while ip > anchor && ref > 0 && src[ip - 1] == src[ref - 1]
      invariant anchor <= ip <= ip0 && ref < ip && ip - ref == ip0 - ref0 && ip + m == ip0 + m0
      invariant src[ref..ref + m] == src[ip..ip + m]
    {
      SlicePrepend(src, ip, ref, m);
      ip, ref, m := ip - 1, ref - 1, m + 1;
    }
  }

  /** What holds of the output between two sequences: it produces the text up to
      `anchor` and its size is paid by that text. */
  ghost predicate Progress(bytes: seq<byte>, src: seq<byte>, anchor: nat) {
    && anchor <= |src|
    && |bytes| <= anchor + anchor / 255
    && Produces(bytes, src[..anchor], |src|)
  }

  lemma ProgressStart(src: seq<byte>)
    ensures Progress([], src, 0)
  {
    assert src[..0] == [];
  }

  lemma ProgressStep(pre: seq<byte>, src: seq<byte>, anchor: nat, ip: nat, ref: nat, m: nat)
    requires Progress(pre, src, anchor) && anchor <= ip && ref < ip && ip - ref < 0x1_0000
    requires MIN_MATCH <= m && ip + m <= |src| && src[ref..ref + m] == src[ip..ip + m]
    ensures Progress(pre + SequenceBytes(src[anchor..ip], ip - ref, m - MIN_MATCH), src, ip + m)
  {
    hide DecodeFrom, SequenceBytes, CopyMatch;
    assert src[..anchor] + src[anchor..ip] == src[..ip];
    SequenceCost(src[anchor..ip], ip - ref, m - MIN_MATCH);
    CopyMatchOfText(src, ip, ref, m);
    ProducesSequence(pre, src[..anchor], src[anchor..ip], ip - ref, m - MIN_MATCH, |src|);
  }

  lemma ProgressEnd(pre: seq<byte>, src: seq<byte>, anchor: nat)
    requires Progress(pre, src, anchor)
    ensures Decode(pre + FinalBytes(src[anchor..]), |src|) == Some(src)
    ensures |pre + FinalBytes(src[anchor..])| <= |src| + |src| / 255 + 2
  {
    hide DecodeFrom, FinalBytes;
    assert src[..anchor] + src[anchor..] == src;
    FinalCost(src[anchor..]);
    ProducesFinal(pre, src[..anchor], src[anchor..], |src|);
  }

  /** One emitted match, with the room for it. */
  method EmitMatch(src: seq<byte>, dst: array<byte>, start: nat, anchor: nat, ip: nat, ref: nat, m: nat)
    returns (op: nat)
    requires start <= dst.Length && Bound(|src|) <= dst.Length && Progress(dst[..start], src, anchor)
    requires anchor <= ip && ref < ip && ip - ref < 0x1_0000
    requires MIN_MATCH <= m && ip + m <= |src| && src[ref..ref + m] == src[ip..ip + m]
    modifies dst
    ensures op <= dst.Length && op <= Bound(|src|) && Progress(dst[..op], src, ip + m)
    ensures op == start + |SequenceBytes(src[anchor..ip], ip - ref, m - MIN_MATCH)|
    ensures forall k :: op <= k < dst.Length ==> dst[k] == old(dst[k])
  {
    hide DecodeFrom, SequenceBytes, Produces;
    SequenceCost(src[anchor..ip], ip - ref, m - MIN_MATCH);
    ProgressStep(dst[..start], src, anchor, ip, ref, m);
    op := EmitSequence(dst, start, src, anchor, ip, ip - ref, m - MIN_MATCH);
  }

  /** The literals after the last match. */
  method EmitFinal(src: seq<byte>, dst: array<byte>, start: nat, anchor: nat) returns (op: nat)
    requires start <= dst.Length && Bound(|src|) <= dst.Length && Progress(dst[..start], src, anchor)
    modifies dst
    ensures 0 < op <= dst.Length && op <= Bound(|src|)
    ensures dst[..op] == old(dst[..start]) + FinalBytes(src[anchor..]) && op == start + |FinalBytes(src[anchor..])|
    ensures forall k :: Bound(|src|) <= k < dst.Length ==> dst[k] == old(dst[k])
  {
    hide Produces;
    FinalCost(src[anchor..]);
    assert src[anchor..anchor + (|src| - anchor)] == src[anchor..];
    op := EmitLiterals(dst, start, src, anchor, |src| - anchor);
  }

  /** The match found at `ip`, grown both ways and emitted; returns the new
      output and input positions. */
  method TakeMatch(src: seq<byte>, dst: array<byte>, start: nat, anchor: nat, at: nat, from: nat)
    returns (op: nat, ip: nat)
    requires anchor <= at && from < at && at - from < 0x1_0000 && at + MF_LIMIT <= |src|
    requires src[from..from + 4] == src[at..at + 4]
    requires start <= dst.Length && Bound(|src|) <= dst.Length && Progress(dst[..start], src, anchor)
    modifies dst
    ensures at + MIN_MATCH <= ip && op <= dst.Length && Progress(dst[..op], src, ip)
    ensures Uniform(src) && anchor == from == 0 && at == 1 ==>
      ip == |src| - LAST_LITERALS && op == start + 4 + |Extension(|src| - 10)|
    ensures forall k :: Bound(|src|) <= k < dst.Length ==> dst[k] == old(dst[k])
  {
    hide Produces, SequenceBytes;
    var m := ExtendForward(src, at, from);
    var ref;
    ip, ref, m := ExtendBackward(src, anchor, at, from, m);
    op := EmitMatch(src, dst, start, anchor, ip, ref, m);
    OneLiteral(src[anchor..ip], ip - ref, m - MIN_MATCH);
    ip := ip + m;
  }

  lemma OneLiteral(lits: seq<byte>, off: nat, ml: nat)
    requires off < 0x1_0000
    ensures |lits| == 1 ==> |SequenceBytes(lits, off, ml)| == 4 + |Extension(ml)|
  {
  }

  // A run of one byte, which must cost next to nothing.

  ghost predicate Uniform(src: seq<byte>) {
    forall i :: 0 <= i < |src| ==> src[i] == src[0]
  }

  /** Where the search stands in such a run: at the start, with the first position entered,
      or behind one match that reaches to the last literals. */
  ghost predicate RunStage(src: seq<byte>, table: seq<u32>, op: nat, ip: nat, anchor: nat) {
    |table| == HASH_SIZE && (Uniform(src) && |src| > MF_LIMIT ==>
      || (ip == op == anchor == 0 && forall h :: 0 <= h < HASH_SIZE ==> table[h] == 0)
      || (ip == 1 && op == anchor == 0 && table[Hash(Le32At(src, 0))] == 1)
      || (ip == anchor == |src| - LAST_LITERALS && op == 4 + |Extension(|src| - 10)|))
  }

  lemma UniformQuads(src: seq<byte>)
    requires Uniform(src) && |src| > MF_LIMIT
    ensures Le32At(src, 0) == Le32At(src, 1) && src[0..4] == src[1..5]
  {
  }

  /** The size of a run's block: ten bytes, and one for every 255 of the run. */
  lemma RunCost(src: seq<byte>, op: nat)
    requires Uniform(src) && |src| > MF_LIMIT && op == 4 + |Extension(|src| - 10)|
    ensures op + |FinalBytes(src[|src| - LAST_LITERALS..])|
         == 10 + if |src| < 25 then 0 else 1 + (|src| - 25) / 255
  {
  }

  /** Enters position `ip` in the table. */
  method Remember(src: seq<byte>, table: array<u32>, ip: nat)
    requires ip + 4 <= |src| && Passed(table[..], ip + 1)
    modifies table
    ensures Passed(table[..], ip + 1)
  {
    var quad := Le32At(src, ip);
    table[Hash(quad)] := (ip % 0x1_0000_0000 + 1) % 0x1_0000_0000;
  }

  /** Compresses `src` into `dst`; 0 when `cap` is below the bound.  Otherwise
      every write is below the bound and the block decompresses to `src` with a
      capacity of exactly its length; a run of one byte takes ten bytes and one more for
      every 255. */
  method Compress(src: seq<byte>, dst: array<byte>, cap: nat) returns (len: nat)
    requires cap <= dst.Length
    modifies dst
    ensures cap < |src| + |src| / 255 + 16 <==> len == 0
    ensures len <= |src| + |src| / 255 + 2
    ensures len != 0 ==> len <= dst.Length && Decode(dst[..len], |src|) == Some(src)
    ensures len != 0 && |src| > 12 && (forall i :: 0 <= i < |src| ==> src[i] == src[0]) ==>
      len == 10 + if |src| < 25 then 0 else 1 + (|src| - 25) / 255
    ensures forall k :: (if len == 0 then 0 else Bound(|src|)) <= k < dst.Length ==> dst[k] == old(dst[k])
  {
    hide Progress, DecodeFrom, FinalBytes, Passed;
    var n := |src|;
    if cap < Bound(n) { return 0; }
    var table := NewTable();
    var op: nat, ip: nat, anchor: nat := 0, 0, 0;
    ProgressStart(src);
    assert dst[..0] == [];
    if n >= MF_LIMIT {
      var limit := n - MF_LIMIT;
      while ip <= limit
        invariant anchor <= ip && op <= dst.Length
        invariant Passed(table[..], ip)
        invariant Progress(dst[..op], src, anchor)
        invariant RunStage(src, table[..], op, ip, anchor)
        invariant forall k :: Bound(n) <= k < dst.Length ==> dst[k] == old(dst[k])
        decreases n - ip
      {
        if Uniform(src) && n > MF_LIMIT { UniformQuads(src); }
        var hit, ref := Candidate(src, table, ip);
        PassedLater(table[..], ip + 1);
        if !hit {
          ip := ip + 1 + (ip - anchor) / 64;
          continue;
        }
        op, ip := TakeMatch(src, dst, op, anchor, ip, ref);
        anchor := ip;
        if ip - 2 <= limit {
          Remember(src, table, ip - 2);
          PassedLater(table[..], ip - 1);
        }
      }
    }
    ProgressEnd(dst[..op], src, anchor);
    if Uniform(src) && n > MF_LIMIT { RunCost(src, op); }
    op := EmitFinal(src, dst, op, anchor);
    return op;
  }
}
