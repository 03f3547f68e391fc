/** The FRAME message: built with a tile count patched in last (host/server.cpp:873-890),
    and taken apart tile by tile into the framebuffer (client/app.cpp:553-577). */
module FrameMessage {
  import opened Bytes
  import opened Buffers
  import opened TileFormat
  import opened TileDecode
  import opened TileEncode
  import opened FrameEncode
  import opened EncodeJob
  import Arith

  const S_FRAME := 67
  const FRAME_FULL := 1

  function Head(id: u32, flags: byte, count: nat): (h: seq<byte>)
    ensures |h| == 8
  {
    [S_FRAME] + LeBytes(id, 4) + [flags] + LeBytes(count, 2)
  }

  function FrameBytes(id: u32, flags: byte, rs: seq<Record>): seq<byte> {
    Head(id, flags, |rs|) + Flat(rs)
  }

  /** The header goes in with a zero count. */
  method BeginFrame(msg: RdBuf, id: u32, flags: byte) returns (countAt: nat)
    requires msg.Valid()
    modifies msg, msg.data
    ensures msg.Valid() && (msg.data == old(msg.data) || fresh(msg.data))
    ensures msg.Contents() == Head(id, flags, 0) && countAt == 6
  {
    hide LeBytes;
    msg.Clear();
    msg.PutU8(S_FRAME);
    msg.PutU32(id);
    msg.PutU8(flags);
    countAt := msg.len;
    msg.PutU16(0);
    assert msg.Contents() == Head(id, flags, 0);
  }

  /** rd_buf_patch_u16 of the tile count, a 16-bit field. */
  method PatchCount(msg: RdBuf, countAt: nat, tiles: nat, ghost id: u32, ghost flags: byte, ghost rs: seq<Record>)
    requires msg.Valid() && countAt == 6 && tiles == |rs|
    requires msg.Contents() == Head(id, flags, 0) + Flat(rs)
    modifies msg.data
    ensures msg.Valid() && msg.Contents() == FrameBytes(id, flags, rs)
  {
    hide LeBytes, Flat;
    LeTruncates(tiles);
    ghost var c := msg.Contents();
    assert c[..6] == [S_FRAME] + LeBytes(id, 4) + [flags] && c[8..] == Flat(rs);
    msg.Patch(countAt, LeBytes(tiles % 0x1_0000, 2));
    assert msg.Contents() == c[..6] + LeBytes(tiles, 2) + c[8..];
  }

  // ---------------------------------------------------------------- parsing

  /** The next record, and what follows it. */
  function ParseRecord(p: seq<byte>): Option<(Record, seq<byte>)> {
    if |p| < 13 then None
    else
      var n := LeValue(p[9..13]);
      if |p| < 13 + n then None
      else
        Some((Record(LeValue(p[..2]), LeValue(p[2..4]), LeValue(p[4..6]), LeValue(p[6..8]), p[8], p[13..13 + n]),
                p[13 + n..]))
  }

  /** The first `n` records of `p`, and what follows them. */
  function ParseRecords(p: seq<byte>, n: nat): (out: Option<(seq<Record>, seq<byte>)>)
    ensures out.Some? ==> |out.value.0| == n
  {
    if n == 0 then Some(([], p))
    else match ParseRecords(p, n - 1)
      case None => None
      case Some((rs, rest)) =>
        match ParseRecord(rest)
        case None => None
        case Some((r, more)) => Some((rs + [r], more))
  }

  datatype Message = Message(id: nat, flags: byte, records: seq<Record>)

  /** What a viewer reads of a FRAME message, when nothing is missing. */
  function ParseFrame(p: seq<byte>): Option<Message> {
    if |p| < 8 then None
    else match ParseRecords(p[8..], LeValue(p[6..8]))
      case None => None
      case Some((rs, _)) => Some(Message(LeValue(p[1..5]), p[5], rs))
  }

  predicate Small(r: Record) {
    r.x < 0x1_0000 && r.y < 0x1_0000 && r.w < 0x1_0000 && r.h < 0x1_0000 && |r.payload| < 0x1_0000_0000
  }

  lemma TwoByteValue(v: nat)
    ensures LeValue(LeBytes(v, 2)) == v % 0x1_0000
  {
    assert Pow256(2) == 0x1_0000;
    LeTruncates(v);
    LeRoundTrip(v % 0x1_0000, 2);
  }

  lemma FourByteValue(v: nat)
    requires v < 0x1_0000_0000
    ensures LeValue(LeBytes(v, 4)) == v
  {
    assert Pow256(4) == 0x1_0000_0000;
    LeRoundTrip(v, 4);
  }

  /** A record is read back as it was put. */
  lemma RecordParses(r: Record, rest: seq<byte>)
    requires Small(r)
    ensures ParseRecord(RecordBytes(r) + rest) == Some((r, rest))
  {
    hide LeBytes, LeValue;
    var p := RecordBytes(r) + rest;
    TwoByteValue(r.x);
    TwoByteValue(r.y);
    TwoByteValue(r.w);
    TwoByteValue(r.h);
    FourByteValue(|r.payload|);
    assert p[..2] == LeBytes(r.x, 2) && p[2..4] == LeBytes(r.y, 2) && p[4..6] == LeBytes(r.w, 2)
            && p[6..8] == LeBytes(r.h, 2);
    assert p[9..13] == LeBytes(|r.payload|, 4);
    assert p[13..13 + |r.payload|] == r.payload && p[13 + |r.payload|..] == rest;
  }

  lemma {:induction false} FlatHead(rs: seq<Record>)
    requires rs != []
    ensures Flat(rs) == RecordBytes(rs[0]) + Flat(rs[1..])
  {
    hide RecordBytes;
    var n := |rs| - 1;
    if n > 0 {
      FlatHead(rs[..n]);
      assert rs[..n][1..] == rs[1..][..n - 1];
      assert Flat(rs[1..]) == Flat(rs[1..][..n - 1]) + RecordBytes(rs[n]);
      Glue(RecordBytes(rs[0]), Flat(rs[1..][..n - 1]), RecordBytes(rs[n]));
    } else {
      assert rs[..0] == [] && rs[1..] == [];
    }
  }

  lemma Glue(a: seq<byte>, b: seq<byte>, c: seq<byte>)
    ensures a + b + c == a + (b + c) && [] + a == a + []
  {
  }

  lemma {:induction false} RecordsParse(rs: seq<Record>, n: nat)
    requires n <= |rs| && forall r :: r in rs ==> Small(r)
    ensures ParseRecords(Flat(rs), n) == Some((rs[..n], Flat(rs[n..])))
  {
    hide RecordBytes, ParseRecord, Flat;
    if n == 0 {
      assert rs[0..] == rs;
    } else {
      RecordsParse(rs, n - 1);
      var rest := rs[n - 1..];
      FlatHead(rest);
      assert rest[1..] == rs[n..];
      RecordParses(rs[n - 1], Flat(rs[n..]));
      assert rs[..n] == rs[..n - 1] + [rs[n - 1]];
    }
  }

  /** The message parses to the first `|rs|` modulo 2^16 of the records it was built from:
      to exactly those records if and only if there are fewer than 65536. */
  lemma FrameParses(id: u32, flags: byte, rs: seq<Record>)
    requires forall r :: r in rs ==> Small(r)
    ensures ParseFrame(FrameBytes(id, flags, rs)) == Some(Message(id, flags, rs[..|rs| % 0x1_0000]))
    ensures ParseFrame(FrameBytes(id, flags, rs)) == Some(Message(id, flags, rs)) <==> |rs| < 0x1_0000
  {
    hide LeBytes, LeValue, Flat, ParseRecords;
    var p := FrameBytes(id, flags, rs);
    FourByteValue(id);
    TwoByteValue(|rs|);
    assert p[1..5] == LeBytes(id, 4) && p[6..8] == LeBytes(|rs|, 2) && p[8..] == Flat(rs);
    RecordsParse(rs, |rs| % 0x1_0000);
    if |rs| < 0x1_0000 { assert rs[..|rs|] == rs; }
  }

  // --------------------------------------------------------------- painting

  /** A record that a viewer of a rw x rh screen can draw. */
  ghost predicate Drawable(r: Record, rw: nat, rh: nat) {
    r.x + r.w <= rw && r.y + r.h <= rh && DecodeTile(r.enc, r.payload, r.w, r.h).Some?
  }

  function Place(r: Record, rw: nat): nat {
    r.y * rw + r.x
  }

  lemma PlaceFits(x: nat, y: nat, w: nat, h: nat, rw: nat, rh: nat)
    requires x + w <= rw && y + h <= rh
    ensures Fits(rw * rh, y * rw + x, rw, w, h)
  {
    var at := y * rw + x;
    forall j | 0 <= j < h ensures Start(at, rw, j) + w <= rw * rh {
      Arith.Distributes(y, j, rw);
      Arith.MulMono(rw, y + j + 1, rh);
      Arith.MulDist(rw, y + j, 1);
    }
  }

  ghost function Draw(fb: seq<u32>, rw: nat, rh: nat, r: Record): (out: seq<u32>)
    requires |fb| == rw * rh && Drawable(r, rw, rh)
    ensures |out| == |fb|
  {
    hide DecodePalette, DecodeZrgb;
    PlaceFits(r.x, r.y, r.w, r.h, rw, rh);
    Blit(fb, Place(r, rw), rw, Opaque(DecodeTile(r.enc, r.payload, r.w, r.h).value), r.w, r.h)
  }

  /** The screen after the records, when every one of them can be drawn. */
  ghost function Paint(fb: seq<u32>, rw: nat, rh: nat, rs: seq<Record>): (out: Option<seq<u32>>)
    requires |fb| == rw * rh
    ensures out.Some? ==> |out.value| == |fb|
  {
    if rs == [] then Some(fb)
    else
      var before := Paint(fb, rw, rh, rs[..|rs| - 1]);
      var r := rs[|rs| - 1];
      if before.None? || !Drawable(r, rw, rh) then None else Some(Draw(before.value, rw, rh, r))
  }

  lemma PaintMore(fb: seq<u32>, rw: nat, rh: nat, rs: seq<Record>, r: Record)
    requires |fb| == rw * rh
    ensures Paint(fb, rw, rh, rs + [r])
         == if Paint(fb, rw, rh, rs).None? || !Drawable(r, rw, rh) then None
            else Some(Draw(Paint(fb, rw, rh, rs).value, rw, rh, r))
  {
    hide Drawable, Draw;
    assert (rs + [r])[..|rs|] == rs;
  }

  lemma {:induction false} PaintPrefix(fb: seq<u32>, rw: nat, rh: nat, rs: seq<Record>, m: nat)
    requires |fb| == rw * rh && m <= |rs| && Paint(fb, rw, rh, rs[..m]).None?
    ensures Paint(fb, rw, rh, rs).None?
    decreases |rs|
  {
    hide Drawable, Draw;
    if m < |rs| {
      var all := rs[..|rs| - 1];
      assert all[..m] == rs[..m];
      PaintPrefix(fb, rw, rh, all, m);
    } else {
      assert rs[..m] == rs;
    }
  }

  lemma {:induction false} ParsePrefix(p: seq<byte>, n: nat, m: nat)
    requires m <= n && ParseRecords(p, n).Some?
    ensures ParseRecords(p, m).Some? && ParseRecords(p, m).value.0 == ParseRecords(p, n).value.0[..m]
    decreases n
  {
    hide ParseRecord;
    if m < n {
      ParsePrefix(p, n - 1, m);
    } else {
      assert ParseRecords(p, n).value.0[..m] == ParseRecords(p, n).value.0;
    }
  }

  /** What `n` records at the start of `p` make of the screen. */
  ghost function PaintBytes(fb: seq<u32>, rw: nat, rh: nat, p: seq<byte>, n: nat): (out: Option<seq<u32>>)
    requires |fb| == rw * rh
    ensures out.Some? ==> |out.value| == |fb|
  {
    match ParseRecords(p, n)
    case None => None
    case Some((rs, _)) => Paint(fb, rw, rh, rs)
  }

  lemma PaintBytesNone(fb: seq<u32>, rw: nat, rh: nat, p: seq<byte>, m: nat, n: nat)
    requires |fb| == rw * rh && m <= n && PaintBytes(fb, rw, rh, p, m).None?
    ensures PaintBytes(fb, rw, rh, p, n).None?
  {
    hide ParseRecords, Paint;
    if ParseRecords(p, n).Some? {
      ParsePrefix(p, n, m);
      PaintPrefix(fb, rw, rh, ParseRecords(p, n).value.0, m);
    }
  }

  /** One record off the reader: Some exactly when none of its fields is cut short. */
  method ReadRecord(r: RdReader) returns (rec: Option<Record>)
    requires r.Valid() && !r.err
    modifies r
    ensures r.Valid() && (rec.Some? ==> !r.err)
    ensures rec == match ParseRecord(old(r.p[r.pos..])) case None => None case Some((x, _)) => Some(x)
    ensures rec.Some? ==> ParseRecord(old(r.p[r.pos..])).value.1 == r.p[r.pos..]
  {
    hide LeValue;
    ghost var o := r.pos;
    if |r.p| - o >= 13 { FieldsOf(r.p, o); }
    var x := r.GetLe(2);
    var y := r.GetLe(2);
    var w := r.GetLe(2);
    var h := r.GetLe(2);
    var enc := r.GetBytes(1);
    var len := r.GetLe(4);
    var p := r.GetBytes(len);
    if r.err { return None; }
    assert r.p[o..][13..13 + len] == p.value && r.p[o..][13 + len..] == r.p[r.pos..];
    rec := Some(Record(x, y, w, h, enc.value[0], p.value));
  }

  /** The fields of a record that starts at `o`. */
  lemma FieldsOf(p: seq<byte>, o: nat)
    requires o + 13 <= |p|
    ensures var q := p[o..];
      && q[..2] == p[o..o + 2] && q[2..4] == p[o + 2..o + 4] && q[4..6] == p[o + 4..o + 6] && q[6..8] == p[o + 6..o + 8]
      && q[8] == p[o + 8] && q[9..13] == p[o + 9..o + 13]
  {
  }

  /** One tile record into the framebuffer; false when it is out of bounds or malformed. */
  method DrawRecord(rec: Record, fb: array<u32>, rw: nat, rh: nat) returns (ok: bool)
    requires fb.Length == rw * rh
    modifies fb
    ensures ok <==> Drawable(rec, rw, rh)
    ensures ok ==> fb[..] == Draw(old(fb[..]), rw, rh, rec)
  {
    hide DecodeTile, Blit;
    if rec.x + rec.w > rw || rec.y + rec.h > rh { return false; }
    PlaceFits(rec.x, rec.y, rec.w, rec.h, rw, rh);
    var rc := Decode(rec.enc, rec.payload, rec.w, rec.h, fb, rec.y * rw + rec.x, rw);
    ok := rc == 0;
  }

  /** App::on_frame after the type byte: every frame whose header is whole is acknowledged
      by its id, and it is drawn exactly when all its records parse and can be drawn. */
  method OnFrame(r: RdReader, fb: array<u32>, rw: nat, rh: nat, texture: bool) returns (ack: Option<nat>, bad: bool)
    requires r.Valid() && !r.err && r.pos == 1 && fb.Length == rw * rh
    modifies r, fb
    ensures ack.Some? <==> texture && |r.p| >= 8
    ensures ack.Some? ==> ack.value == LeValue(r.p[1..5])
    ensures ack.None? ==> !bad && fb[..] == old(fb[..])
    ensures ack.Some? ==>
      (!bad <==> PaintBytes(old(fb[..]), rw, rh, r.p[8..], LeValue(r.p[6..8])).Some?)
    ensures ack.Some? && !bad ==> Some(fb[..]) == PaintBytes(old(fb[..]), rw, rh, r.p[8..], LeValue(r.p[6..8]))
  {
    hide LeValue, ParseRecord, Drawable, Draw, Paint;
    bad := false;
    var id := r.GetLe(4);
    var flags := r.GetBytes(1);
    var n := r.GetLe(2);
    if r.err || !texture { return None, false; }
    ack := Some(id);
    ghost var was := fb[..];
    ghost var q := r.p[8..];
    var i := 0;
    ghost var rs: seq<Record> := [];
    PaintNone(was, rw, rh);
    while i < n
      invariant i <= n && r.Valid() && !r.err
      invariant ParseRecords(q, i) == Some((rs, r.p[r.pos..]))
      invariant Paint(was, rw, rh, rs) == Some(fb[..])
    {
      ghost var more := r.p[r.pos..];
      var rec := ReadRecord(r);
      if rec.None? {
        bad := true;
        PaintBytesNone(was, rw, rh, q, i + 1, n);
        return;
      }
      PaintMore(was, rw, rh, rs, rec.value);
      var ok := DrawRecord(rec.value, fb, rw, rh);
      if !ok {
        bad := true;
        PaintBytesNone(was, rw, rh, q, i + 1, n);
        return;
      }
      rs := rs + [rec.value];
      i := i + 1;
    }
  }

  lemma PaintNone(fb: seq<u32>, rw: nat, rh: nat)
    requires |fb| == rw * rh
    ensures Paint(fb, rw, rh, []) == Some(fb)
  {
  }
}
