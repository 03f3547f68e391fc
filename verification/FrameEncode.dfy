/** What a worker does with one tile (host/encoder.cpp:81-115): compare it with the
    shadow, copy it there, and append its record, whose length is patched in last. */
module FrameEncode {
  import opened Bytes
  import opened Buffers
  import opened TileFormat
  import opened TileGrid
  import opened TileEncode
  import Arith

  // ---------------------------------------------------------- tile contents

  function QuantRow(row: seq<byte>, q: int): (px: seq<Colour>)
    ensures |px| == |row| / 4
  {
    seq(|row| / 4, x requires 0 <= x < |row| / 4 => PixelAt(row, 4 * x, q))
  }

  /** The colours a viewer must see of a tile with these rows. */
  function QuantRows(rows: seq<seq<byte>>, q: int): seq<Colour> {
    if rows == [] then [] else QuantRows(rows[..|rows| - 1], q) + QuantRow(rows[|rows| - 1], q)
  }

  /** Byte offset of a tile in the frame. */
  function Offset(g: Grid, stride: nat, k: nat): nat {
    At(stride, Ty(g, k)) + Left(g, 4, k)
  }

  ghost predicate HasRows(src: seq<byte>, off: nat, stride: nat, w: nat, h: nat) {
    forall j :: 0 <= j < h ==> off + RowStart(stride, j) + 4 * w <= |src|
  }

  function RowOf(src: seq<byte>, off: nat, stride: nat, w: nat, j: nat): (r: seq<byte>)
    requires off + RowStart(stride, j) + 4 * w <= |src|
    ensures |r| == 4 * w
  {
    src[off + RowStart(stride, j)..off + RowStart(stride, j) + 4 * w]
  }

  /** The codec's reading through a stride is the reading of the rows. */
  lemma {:induction false} QuantisedRows(src: seq<byte>, off: nat, stride: nat, w: nat, h: nat, q: int, rows: seq<seq<byte>>)
    requires off <= |src| && HasRows(src, off, stride, w, h) && |rows| == h
    requires forall j :: 0 <= j < h ==> rows[j] == RowOf(src, off, stride, w, j)
    ensures Source(src[off..], stride, w, h) && Quantised(src[off..], stride, w, h, q) == QuantRows(rows, q)
  {
    hide RowStart, PixelAt, QuantiseChannel;
    if h != 0 {
      QuantisedRows(src, off, stride, w, h - 1, q, rows[..h - 1]);
      RowQuantised(src, off, stride, w, h - 1, q);
    }
  }

  lemma RowQuantised(src: seq<byte>, off: nat, stride: nat, w: nat, j: nat, q: int)
    requires off + RowStart(stride, j) + 4 * w <= |src|
    ensures QuantisedRow(src[off..], RowStart(stride, j), w, q) == QuantRow(RowOf(src, off, stride, w, j), q)
  {
    hide RowStart, PixelAt;
    var at := RowStart(stride, j);
    forall x | 0 <= x < w ensures PixelAt(src[off..], at + 4 * x, q) == PixelAt(RowOf(src, off, stride, w, j), 4 * x, q) {
      PixelMoved(src, off, at, w, x, q);
    }
  }

  lemma PixelMoved(src: seq<byte>, off: nat, at: nat, w: nat, x: nat, q: int)
    requires off + at + 4 * w <= |src| && x < w
    ensures PixelAt(src[off..], at + 4 * x, q) == PixelAt(src[off + at..off + at + 4 * w], 4 * x, q)
  {
    hide QuantiseChannel;
  }

  /** A tile's rows are the stretches the encoder reads from its offset on. */
  lemma RowsFromOffset(g: Grid, src: seq<byte>, stride: nat, k: nat)
    requires Holds(g, |src|, stride, 4) && k < Total(g)
    ensures 0 < Tw(g, k) <= TILE && 0 < Th(g, k) <= TILE && Offset(g, stride, k) <= |src|
    ensures HasRows(src, Offset(g, stride, k), stride, Tw(g, k), Th(g, k))
    ensures forall j :: 0 <= j < Th(g, k) ==>
      Rows(g, src, stride, 4, k)[j] == RowOf(src, Offset(g, stride, k), stride, Tw(g, k), j)
  {
    hide Tx, Ty, Tw, Th, Total;
    TileInside(g, k);
    TileRow(g, |src|, stride, 4, k, 0);
    forall j | 0 <= j < Th(g, k)
      ensures Offset(g, stride, k) + RowStart(stride, j) + 4 * Tw(g, k) <= |src|
      ensures Rows(g, src, stride, 4, k)[j] == RowOf(src, Offset(g, stride, k), stride, Tw(g, k), j)
    {
      TileRow(g, |src|, stride, 4, k, j);
      Arith.Distributes(Ty(g, k), j, stride);
    }
  }

  /** What the payload of tile `k` must decode to. */
  function Wanted(g: Grid, src: seq<byte>, stride: nat, k: nat, q: int): seq<Colour>
    requires Holds(g, |src|, stride, 4) && k < Total(g)
  {
    QuantRows(Rows(g, src, stride, 4, k), q)
  }

  // ---------------------------------------------------------------- records

  datatype Record = Record(x: nat, y: nat, w: nat, h: nat, enc: byte, payload: seq<byte>)

  function RecordHead(r: Record): (b: seq<byte>)
    ensures |b| == 8
  {
    LeBytes(r.x, 2) + LeBytes(r.y, 2) + LeBytes(r.w, 2) + LeBytes(r.h, 2)
  }

  function RecordBytes(r: Record): seq<byte> {
    RecordHead(r) + [r.enc] + LeBytes(|r.payload|, 4) + r.payload
  }

  /** A record of tile `k` at quality `q`. */
  ghost predicate RecordOf(r: Record, g: Grid, src: seq<byte>, stride: nat, k: nat, q: int)
    requires Holds(g, |src|, stride, 4) && k < Total(g)
  {
    && r.x == Tx(g, k) && r.y == Ty(g, k) && r.w == Tw(g, k) && r.h == Th(g, k)
    && Encodes(r.enc, r.payload, Wanted(g, src, stride, k, q), r.w, r.h)
  }

  method PutHead(buf: RdBuf, x: nat, y: nat, w: nat, h: nat)
    requires buf.Valid()
    modifies buf, buf.data
    ensures buf.Valid() && (buf.data == old(buf.data) || fresh(buf.data))
    ensures buf.Contents() == old(buf.Contents()) + RecordHead(Record(x, y, w, h, 0, []))
  {
    hide LeBytes;
    LeTruncates(x);
    LeTruncates(y);
    LeTruncates(w);
    LeTruncates(h);
    ghost var before := buf.Contents();
    buf.PutU16(x % 0x1_0000);
    buf.PutU16(y % 0x1_0000);
    buf.PutU16(w % 0x1_0000);
    buf.PutU16(h % 0x1_0000);
    Four(before, LeBytes(x, 2), LeBytes(y, 2), LeBytes(w, 2), LeBytes(h, 2));
  }

  lemma LeTruncates(v: nat)
    ensures LeBytes(v % 0x1_0000, 2) == LeBytes(v, 2)
  {
    var t := v % 0x1_0000;
    TwoLow(v);
    LeTwo(v);
    LeTwo(t);
  }

  lemma LeTwo(v: nat)
    ensures LeBytes(v, 2) == [v % 0x100, v / 0x100 % 0x100]
  {
    assert LeBytes(v / 0x100, 1) == [v / 0x100 % 0x100] + LeBytes(v / 0x100 / 0x100, 0);
  }

  lemma TwoLow(v: nat)
    ensures v % 0x1_0000 % 0x100 == v % 0x100 && v % 0x1_0000 / 0x100 % 0x100 == v / 0x100 % 0x100
  {
  }

  lemma Four(s: seq<byte>, a: seq<byte>, b: seq<byte>, c: seq<byte>, d: seq<byte>)
    ensures s + a + b + c + d == s + (a + b + c + d)
  {
  }

  /** The encoding and the length go in once the payload is there. */
  method FinishRecord(buf: RdBuf, encAt: nat, enc: byte, ghost before: seq<byte>, ghost head: seq<byte>,
          ghost payload: seq<byte>)
    requires buf.Valid() && encAt == |before| + |head| && |payload| < 0x1_0000_0000
    requires buf.Contents() == before + head + [0] + LeBytes(0, 4) + payload
    modifies buf, buf.data
    ensures buf.Valid() && buf.data == old(buf.data)
    ensures buf.Contents() == before + (head + [enc] + LeBytes(|payload|, 4) + payload)
  {
    hide LeBytes;
    buf.data[encAt] := enc;
    assert buf.Contents() == before + head + [enc] + LeBytes(0, 4) + payload;
    ghost var at := encAt + 1;
    ghost var mid := buf.Contents();
    assert mid[..at] == before + head + [enc] && mid[at + 4..] == payload;
    var n := buf.len - (encAt + 5);
    buf.Patch(encAt + 1, LeBytes(n, 4));
    Four(before, head, [enc], LeBytes(n, 4), payload);
  }

  /** Appends the record of tile `k`. */
  method AppendRecord(g: Grid, src: seq<byte>, stride: nat, k: nat, q: int, buf: RdBuf) returns (ghost r: Record)
    requires Holds(g, |src|, stride, 4) && k < Total(g) && buf.Valid()
    modifies buf, buf.data
    ensures buf.Valid() && (buf.data == old(buf.data) || fresh(buf.data))
    ensures buf.Contents() == old(buf.Contents()) + RecordBytes(r) && RecordOf(r, g, src, stride, k, q)
  {
    hide Tx, Ty, Tw, Th, Total, Rows, Encodes, LeBytes, Quantised, QuantRows, RecordHead, HasRows, Source, Holds;
    RowsFromOffset(g, src, stride, k);
    ghost var before := buf.Contents();
    PutHead(buf, Tx(g, k), Ty(g, k), Tw(g, k), Th(g, k));
    ghost var head := buf.Contents()[|before|..];
    var encAt := buf.len;
    buf.PutU8(0);
    buf.PutU32(0);
    var start := buf.len;
    ghost var fixed := buf.Contents();
    QuantisedRows(src, Offset(g, stride, k), stride, Tw(g, k), Th(g, k), q, Rows(g, src, stride, 4, k));
    var enc := EncodeTile(src[Offset(g, stride, k)..], stride, Tw(g, k), Th(g, k), q, buf);
    ghost var payload := buf.Contents()[start..];
    assert buf.Contents() == fixed + payload;
    PayloadSmall(enc, payload, Wanted(g, src, stride, k, q), Tw(g, k), Th(g, k));
    FinishRecord(buf, encAt, enc, before, head, payload);
    r := Record(Tx(g, k), Ty(g, k), Tw(g, k), Th(g, k), enc, payload);
    HeadOf(r);
  }

  lemma HeadOf(r: Record)
    ensures RecordHead(r) == RecordHead(Record(r.x, r.y, r.w, r.h, 0, []))
  {
  }

  lemma PayloadSmall(enc: int, p: seq<byte>, px: seq<Colour>, w: nat, h: nat)
    requires 0 < w <= TILE && 0 < h <= TILE && Encodes(enc, p, px, w, h)
    ensures |p| < 0x1_0000_0000
  {
    hide DecodeTile;
    Area(w, h);
  }

  // ------------------------------------------------------------- the shadow

  /** memcmp row by row, until one differs. */
  method Differs(g: Grid, src: seq<byte>, stride: nat, shadow: array<byte>, k: nat, full: bool) returns (dirty: bool)
    requires Holds(g, |src|, stride, 4) && Holds(g, shadow.Length, 4 * g.width, 4) && k < Total(g)
    ensures dirty <==> full || Rows(g, src, stride, 4, k) != Rows(g, shadow[..], 4 * g.width, 4, k)
  {
    hide Tx, Ty, Tw, Th, Total, Left, Wide, At, Holds;
    dirty := full;
    var y := 0;
    ghost var a, b := Rows(g, src, stride, 4, k), Rows(g, shadow[..], 4 * g.width, 4, k);
    while y < Th(g, k) && !dirty
      invariant 0 <= y && (y <= Th(g, k) || y == 0)
      invariant !dirty ==> !full && a[..y] == b[..y]
      invariant dirty ==> full || a != b
    {
      TileRow(g, |src|, stride, 4, k, y);
      TileRow(g, shadow.Length, 4 * g.width, 4, k, y);
      dirty := Row(src, stride, Left(g, 4, k), Wide(g, 4, k), Ty(g, k) + y)
            != Row(shadow[..], 4 * g.width, Left(g, 4, k), Wide(g, 4, k), Ty(g, k) + y);
      assert dirty <==> a[y] != b[y];
      y := y + 1;
    }
    if !dirty { SameRows(a, b, y); }
  }

  lemma SameRows(a: seq<seq<byte>>, b: seq<seq<byte>>, y: nat)
    requires |a| == |b| <= y <= |a| && a[..y] == b[..y]
    ensures a == b
  {
    assert a[..y] == a && b[..y] == b;
  }

  /** memcpy row by row: the tile's rows become the frame's, and no other tile's change. */
  method CopyTile(g: Grid, src: seq<byte>, stride: nat, shadow: array<byte>, k: nat)
    requires Holds(g, |src|, stride, 4) && Holds(g, shadow.Length, 4 * g.width, 4) && k < Total(g)
    modifies shadow
    ensures Rows(g, shadow[..], 4 * g.width, 4, k) == Rows(g, src, stride, 4, k)
    ensures forall m :: 0 <= m < Total(g) && m != k ==>
      Rows(g, shadow[..], 4 * g.width, 4, m) == old(Rows(g, shadow[..], 4 * g.width, 4, m))
  {
    hide Tx, Ty, Tw, Th, Total, Left, Wide, At, Holds, Rows, InRow;
    ghost var before := shadow[..];
    TileInside(g, k);
    for y := 0 to Th(g, k)
      invariant forall j :: 0 <= j < y ==> TileRowOf(g, shadow[..], 4 * g.width, 4, k, j) == TileRowOf(g, src,
              stride, 4, k, j)
      invariant Untouched(g, before, shadow[..], k)
    {
      ghost var now := shadow[..];
      CopyRow(g, src, stride, shadow, k, y);
      forall j | 0 <= j < y
        ensures TileRowOf(g, shadow[..], 4 * g.width, 4, k, j) == TileRowOf(g, src, stride, 4, k, j)
      {
        RowKept(g, now, shadow[..], k, y, k, j);
      }
      UntouchedStep(g, before, now, shadow[..], k, y);
    }
    RowsSame(g, src, stride, shadow[..], k);
    forall m | 0 <= m < Total(g) && m != k
      ensures Rows(g, shadow[..], 4 * g.width, 4, m) == Rows(g, before, 4 * g.width, 4, m)
    {
      TileKept(g, before, shadow[..], k, m);
    }
  }

  method CopyRow(g: Grid, src: seq<byte>, stride: nat, shadow: array<byte>, k: nat, y: nat)
    requires Holds(g, |src|, stride, 4) && Holds(g, shadow.Length, 4 * g.width, 4) && k < Total(g) && y < Th(g, k)
    modifies shadow
    ensures TileRowOf(g, shadow[..], 4 * g.width, 4, k, y) == TileRowOf(g, src, stride, 4, k, y)
    ensures ChangedIn(g, old(shadow[..]), shadow[..], k, y)
  {
    hide Tx, Ty, Tw, Th, Total, Left, Wide, At, Holds;
    TileRow(g, |src|, stride, 4, k, y);
    TileRow(g, shadow.Length, 4 * g.width, 4, k, y);
    var n := Wide(g, 4, k);
    var from := At(stride, Ty(g, k) + y) + Left(g, 4, k);
    var to := At(4 * g.width, Ty(g, k) + y) + Left(g, 4, k);
    forall i | 0 <= i < n { shadow[to + i] := src[from + i]; }
  }

  /** Only row `y` of tile `k` differs. */
  ghost predicate ChangedIn(g: Grid, a: seq<byte>, b: seq<byte>, k: nat, y: nat) {
    |a| == |b| && forall i :: 0 <= i < |a| && !InRow(g, 4 * g.width, 4, k, y, i) ==> a[i] == b[i]
  }

  /** Only rows of tile `k` differ. */
  ghost predicate Untouched(g: Grid, a: seq<byte>, b: seq<byte>, k: nat) {
    |a| == |b| && forall i :: 0 <= i < |a| && !InTile(g, k, i) ==> a[i] == b[i]
  }

  ghost predicate InTile(g: Grid, k: nat, i: int) {
    exists y :: 0 <= y < Th(g, k) && InRow(g, 4 * g.width, 4, k, y, i)
  }

  lemma UntouchedStep(g: Grid, a: seq<byte>, b: seq<byte>, c: seq<byte>, k: nat, y: nat)
    requires Untouched(g, a, b, k) && ChangedIn(g, b, c, k, y) && y < Th(g, k)
    ensures Untouched(g, a, c, k)
  {
    hide Th, InRow;
    forall i | 0 <= i < |a| && !InTile(g, k, i) ensures a[i] == c[i] {
      assert !InRow(g, 4 * g.width, 4, k, y, i);
    }
  }

  lemma RowKept(g: Grid, a: seq<byte>, b: seq<byte>, k: nat, y: nat, m: nat, j: nat)
    requires Holds(g, |a|, 4 * g.width, 4) && k < Total(g) && m < Total(g) && y < Th(g, k) && j < Th(g, m)
    requires ChangedIn(g, a, b, k, y) && (k != m || y != j)
    ensures |a| == |b| && TileRowOf(g, a, 4 * g.width, 4, m, j) == TileRowOf(g, b, 4 * g.width, 4, m, j)
  {
    hide Tx, Ty, Tw, Th, Total, Left, Wide, At;
    TileRow(g, |a|, 4 * g.width, 4, m, j);
    var start := At(4 * g.width, Ty(g, m) + j) + Left(g, 4, m);
    forall i | start <= i < start + Wide(g, 4, m) ensures a[i] == b[i] {
      if InRow(g, 4 * g.width, 4, k, y, i) { TilesApart(g, 4 * g.width, 4, k, y, m, j, i); }
    }
  }

  lemma TileKept(g: Grid, a: seq<byte>, b: seq<byte>, k: nat, m: nat)
    requires Holds(g, |a|, 4 * g.width, 4) && k < Total(g) && m < Total(g) && k != m && Untouched(g, a, b, k)
    ensures |a| == |b| && Rows(g, a, 4 * g.width, 4, m) == Rows(g, b, 4 * g.width, 4, m)
  {
    hide Tx, Ty, Tw, Th, Total, Left, Wide, At, Holds;
    forall j | 0 <= j < Th(g, m)
      ensures TileRowOf(g, a, 4 * g.width, 4, m, j) == TileRowOf(g, b, 4 * g.width, 4, m, j)
    {
      TileRow(g, |a|, 4 * g.width, 4, m, j);
      var start := At(4 * g.width, Ty(g, m) + j) + Left(g, 4, m);
      forall i | start <= i < start + Wide(g, 4, m) ensures a[i] == b[i] {
        NotInOther(g, k, m, j, i, |a|);
      }
    }
  }

  lemma NotInOther(g: Grid, k: nat, m: nat, j: nat, i: int, size: nat)
    requires Holds(g, size, 4 * g.width, 4) && k < Total(g) && m < Total(g) && k != m && j < Th(g, m)
    requires InRow(g, 4 * g.width, 4, m, j, i)
    ensures !InTile(g, k, i)
  {
    hide Tx, Ty, Tw, Th, Total, InRow;
    forall y | 0 <= y < Th(g, k) ensures !InRow(g, 4 * g.width, 4, k, y, i) {
      if InRow(g, 4 * g.width, 4, k, y, i) { TilesApart(g, 4 * g.width, 4, k, y, m, j, i); }
    }
  }

  lemma RowsSame(g: Grid, src: seq<byte>, stride: nat, shadow: seq<byte>, k: nat)
    requires Holds(g, |src|, stride, 4) && Holds(g, |shadow|, 4 * g.width, 4) && k < Total(g)
    requires forall j :: 0 <= j < Th(g, k) ==>
      TileRowOf(g, shadow, 4 * g.width, 4, k, j) == TileRowOf(g, src, stride, 4, k, j)
    ensures Rows(g, shadow, 4 * g.width, 4, k) == Rows(g, src, stride, 4, k)
  {
    hide Th, Total, TileRowOf, Holds;
  }
}
