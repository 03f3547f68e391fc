/** What a viewer sees is what the host believes it sees: the framebuffer tile is the
    shadow tile quantised at the recorded quality (host/encoder.cpp:64-126,
    host/server.cpp:845-891, client/app.cpp:539-577). */
module Agreement {
  import opened Bytes
  import opened TileFormat
  import opened TileDecode
  import opened TileEncode
  import opened TileGrid
  import opened FrameEncode
  import opened EncodeJob
  import opened FrameMessage
  import opened Arith
  import C = Claiming
  import Counting

  // ----------------------------------------------------------- one tile drawn

  /** A picture whose rows are `n` wide, as rows. */
  function Picture<T>(px: seq<T>, n: nat, h: nat): (rows: seq<seq<T>>)
    requires |px| == n * h
    ensures |rows| == h
  {
    seq(h, j requires 0 <= j < h => Slice(px, n, h, j))
  }

  function Slice<T>(px: seq<T>, n: nat, h: nat, j: nat): (r: seq<T>)
    requires |px| == n * h && j < h
    ensures |r| == n
  {
    MulMono(n, j + 1, h);
    MulDist(n, j, 1);
    px[n * j..n * j + n]
  }

  /** What the viewer must see of a tile. */
  function Shown(tile: Tile, q: int): (rows: seq<seq<u32>>)
    ensures |rows| == |tile|
  {
    seq(|tile|, j requires 0 <= j < |tile| => Opaque(QuantRow(tile[j], q)))
  }

  /** The flat quantised tile, row by row. */
  lemma {:induction false} QuantRowsAt(tile: Tile, q: int, n: nat, j: nat)
    requires (forall i :: 0 <= i < |tile| ==> |tile[i]| == 4 * n) && j < |tile|
    ensures |QuantRows(tile, q)| == n * |tile| && n * j + n <= n * |tile|
    ensures QuantRows(tile, q)[n * j..n * j + n] == QuantRow(tile[j], q)
  {
    hide QuantRow;
    var m := |tile| - 1;
    QuantRowsSize(tile, q, n);
    QuantRowsSize(tile[..m], q, n);
    MulDist(n, m, 1);
    if j < m {
      MulMono(n, j + 1, m);
      MulDist(n, j, 1);
      QuantRowsAt(tile[..m], q, n, j);
      assert QuantRows(tile, q)[n * j..n * j + n] == QuantRows(tile[..m], q)[n * j..n * j + n];
    }
  }

  lemma {:induction false} QuantRowsSize(tile: Tile, q: int, n: nat)
    requires forall i :: 0 <= i < |tile| ==> |tile[i]| == 4 * n
    ensures |QuantRows(tile, q)| == n * |tile|
  {
    if tile != [] {
      QuantRowsSize(tile[..|tile| - 1], q, n);
      MulDist(n, |tile| - 1, 1);
    }
  }

  /** The screen as tiles. */
  function ScreenTile(g: Grid, fb: seq<u32>, k: nat): seq<seq<u32>>
    requires Holds(g, |fb|, g.width, 1) && k < Total(g)
  {
    Rows(g, fb, g.width, 1, k)
  }

  lemma ScreenHolds(g: Grid)
    ensures Holds(g, g.width * g.height, g.width, 1)
  {
    Distributes(g.height - 1, 1, g.width);
  }

  function Area(g: Grid, k: nat): int {
    Tw(g, k) * Th(g, k)
  }

  function Origin(g: Grid, k: nat): nat {
    Ty(g, k) * g.width + Tx(g, k)
  }

  lemma TileFits(g: Grid, k: nat)
    requires k < Total(g)
    ensures 0 < Tw(g, k) && 0 < Th(g, k) && Fits(g.width * g.height, Origin(g, k), g.width, Tw(g, k), Th(g, k))
  {
    hide Tx, Ty, Tw, Th, Total, Fits;
    TileInside(g, k);
    PlaceFits(Tx(g, k), Ty(g, k), Tw(g, k), Th(g, k), g.width, g.height);
  }

  /** A picture drawn over tile `k`. */
  ghost function Drawn<T>(g: Grid, fb: seq<T>, k: nat, px: seq<T>): (out: seq<T>)
    requires k < Total(g) && |fb| == g.width * g.height && |px| == Area(g, k)
    ensures |out| == |fb|
  {
    hide Tx, Ty, Tw, Th, Total, Origin;
    TileFits(g, k);
    Blit(fb, Origin(g, k), g.width, px, Tw(g, k), Th(g, k))
  }

  /** The tile becomes the picture, and no other tile changes. */
  lemma DrawTile(g: Grid, fb: seq<u32>, k: nat, px: seq<u32>)
    requires Holds(g, |fb|, g.width, 1) && k < Total(g) && |fb| == g.width * g.height && |px| == Area(g, k)
    ensures ScreenTile(g, Drawn(g, fb, k, px), k) == TilePicture(g, k, px)
    ensures forall m :: 0 <= m < Total(g) && m != k ==> ScreenTile(g, Drawn(g, fb, k, px), m) == ScreenTile(g, fb, m)
  {
    hide Total, Drawn, Holds, Rows, Area;
    DrawnTile(g, fb, k, px);
    forall m | 0 <= m < Total(g) && m != k ensures ScreenTile(g, Drawn(g, fb, k, px), m) == ScreenTile(g, fb, m) {
      OtherTile(g, fb, k, px, m);
    }
  }

  function TilePicture<T>(g: Grid, k: nat, px: seq<T>): seq<seq<T>>
    requires k < Total(g) && |px| == Area(g, k)
  {
    hide Tw, Th, Total;
    TileInside(g, k);
    Picture(px, Tw(g, k), Th(g, k))
  }

  lemma RowStartOf(g: Grid, k: nat, j: nat)
    ensures Start(Origin(g, k), g.width, j) == At(g.width, Ty(g, k) + j) + Left(g, 1, k)
    ensures Wide(g, 1, k) == Tw(g, k)
  {
    hide Tx, Ty, Tw;
    Distributes(Ty(g, k), j, g.width);
  }

  lemma DrawnTile(g: Grid, fb: seq<u32>, k: nat, px: seq<u32>)
    requires Holds(g, |fb|, g.width, 1) && k < Total(g) && |fb| == g.width * g.height && |px| == Area(g, k)
    ensures ScreenTile(g, Drawn(g, fb, k, px), k) == TilePicture(g, k, px)
  {
    hide Tx, Ty, Tw, Th, Total, Drawn, Holds, At, Left, Wide, Area, Slice, TileRowOf;
    TileFits(g, k);
    forall j | 0 <= j < Th(g, k)
      ensures |px| == Tw(g, k) * Th(g, k)
      ensures TileRowOf(g, Drawn(g, fb, k, px), g.width, 1, k, j) == Slice(px, Tw(g, k), Th(g, k), j)
    {
      DrawnRow(g, fb, k, px, j);
    }
  }

  lemma DrawnRow(g: Grid, fb: seq<u32>, k: nat, px: seq<u32>, j: nat)
    requires Holds(g, |fb|, g.width, 1) && k < Total(g) && |fb| == g.width * g.height && |px| == Area(g, k) && j < Th(g, k)
    ensures |px| == Tw(g, k) * Th(g, k) && 0 < Tw(g, k) && 0 < Th(g, k)
    ensures TileRowOf(g, Drawn(g, fb, k, px), g.width, 1, k, j) == Slice(px, Tw(g, k), Th(g, k), j)
  {
    hide Tx, Ty, Tw, Th, Total, Blit, Holds, Start, At, Left, Wide, Fits, Origin;
    TileFits(g, k);
    var w, h := Tw(g, k), Th(g, k);
    var out := Drawn(g, fb, k, px);
    TileInside(g, k);
    TileRow(g, |out|, g.width, 1, k, j);
    RowStartOf(g, k, j);
    MulMono(w, j + 1, h);
    MulDist(w, j, 1);
    forall x | 0 <= x < w ensures TileRowOf(g, out, g.width, 1, k, j)[x] == px[w * j + x] {
      BlitInside(fb, Origin(g, k), g.width, px, w, h, x, j);
    }
  }

  lemma OtherTile(g: Grid, fb: seq<u32>, k: nat, px: seq<u32>, m: nat)
    requires Holds(g, |fb|, g.width, 1) && k < Total(g) && m < Total(g) && m != k
    requires |fb| == g.width * g.height && |px| == Area(g, k)
    ensures ScreenTile(g, Drawn(g, fb, k, px), m) == ScreenTile(g, fb, m)
  {
    hide Tx, Ty, Tw, Th, Total, Blit, Holds, At, Left, Wide, Fits, InWindow, Origin;
    TileFits(g, k);
    var out := Drawn(g, fb, k, px);
    forall j | 0 <= j < Th(g, m) ensures TileRowOf(g, out, g.width, 1, m, j) == TileRowOf(g, fb, g.width, 1, m, j) {
      TileRow(g, |out|, g.width, 1, m, j);
      var start := At(g.width, Ty(g, m) + j) + Left(g, 1, m);
      forall i | start <= i < start + Wide(g, 1, m) ensures out[i] == fb[i] {
        NotInWindow(g, k, m, j, i);
        BlitOutside(fb, Origin(g, k), g.width, px, Tw(g, k), Th(g, k), i);
      }
    }
  }

  lemma NotInWindow(g: Grid, k: nat, m: nat, j: nat, i: int)
    requires k < Total(g) && m < Total(g) && m != k && j < Th(g, m) && InRow(g, g.width, 1, m, j, i)
    ensures 0 < Tw(g, k) && 0 < Th(g, k) && !InWindow(i, Origin(g, k), g.width, Tw(g, k), Th(g, k))
  {
    hide Tx, Ty, Tw, Th, Total, Start, At, Left, Wide, Origin;
    TileInside(g, k);
    forall y | 0 <= y < Th(g, k)
      ensures !(Start(Origin(g, k), g.width, y) <= i < Start(Origin(g, k), g.width, y) + Tw(g, k))
    {
      RowStartOf(g, k, y);
      if InRow(g, g.width, 1, k, y, i) { TilesApart(g, g.width, 1, k, y, m, j, i); }
    }
  }

  // ------------------------------------------------------------ one frame

  /** The screen shows every tile as the host has it recorded. */
  ghost predicate Agree(g: Grid, fb: seq<u32>, shadow: seq<Tile>, tq: seq<byte>) {
    && Holds(g, |fb|, g.width, 1) && |fb| == g.width * g.height
    && |shadow| == |tq| == Total(g)
    && forall k :: 0 <= k < Total(g) ==> ScreenTile(g, fb, k) == Shown(shadow[k], tq[k])
  }

  /** A record of tile `k` can be drawn, and draws the tile. */
  lemma RecordDraws(g: Grid, fb: seq<u32>, src: seq<byte>, stride: nat, r: Record, k: nat, q: int)
    requires Holds(g, |src|, stride, 4) && k < Total(g) && RecordOf(r, g, src, stride, k, q)
    requires Holds(g, |fb|, g.width, 1) && |fb| == g.width * g.height
    ensures Drawable(r, g.width, g.height)
    ensures var out := Draw(fb, g.width, g.height, r);
      && ScreenTile(g, out, k) == Shown(Rows(g, src, stride, 4, k), q)
      && forall m :: 0 <= m < Total(g) && m != k ==> ScreenTile(g, out, m) == ScreenTile(g, fb, m)
  {
    hide Tx, Ty, Tw, Th, Total, DecodeTile, Blit, Holds, Rows, ScreenTile, QuantRows, Shown;
    TileInside(g, k);
    var px := Opaque(Wanted(g, src, stride, k, q));
    WantedSize(g, src, stride, k, q);
    DrawTile(g, fb, k, px);
    WantedPicture(g, src, stride, k, q);
  }

  lemma WantedSize(g: Grid, src: seq<byte>, stride: nat, k: nat, q: int)
    requires Holds(g, |src|, stride, 4) && k < Total(g)
    ensures |Wanted(g, src, stride, k, q)| == Area(g, k)
    ensures 0 < Tw(g, k) && forall j :: 0 <= j < Th(g, k) ==> |Rows(g, src, stride, 4, k)[j]| == 4 * Tw(g, k)
  {
    hide Tx, Ty, Tw, Th, Total, Holds, QuantRows;
    TileInside(g, k);
    QuantRowsSize(Rows(g, src, stride, 4, k), q, Tw(g, k));
  }

  lemma WantedPicture(g: Grid, src: seq<byte>, stride: nat, k: nat, q: int)
    requires Holds(g, |src|, stride, 4) && k < Total(g)
    ensures |Opaque(Wanted(g, src, stride, k, q))| == Area(g, k)
    ensures TilePicture(g, k, Opaque(Wanted(g, src, stride, k, q))) == Shown(Rows(g, src, stride, 4, k), q)
  {
    hide Tx, Ty, Tw, Th, Total, Holds, QuantRows, QuantRow, Argb, Rows;
    WantedSize(g, src, stride, k, q);
    TileInside(g, k);
    var tile, w, h := Rows(g, src, stride, 4, k), Tw(g, k), Th(g, k);
    var px := Opaque(Wanted(g, src, stride, k, q));
    forall j | 0 <= j < h ensures Slice(px, w, h, j) == Opaque(QuantRow(tile[j], q)) {
      QuantRowsAt(tile, q, w, j);
      OpaqueSlice(QuantRows(tile, q), w * j, w);
    }
  }

  lemma OpaqueSlice(px: seq<Colour>, at: nat, n: nat)
    requires at + n <= |px|
    ensures Opaque(px)[at..at + n] == Opaque(px[at..at + n])
  {
    hide Argb;
  }

  /** All the records of a frame can be drawn; a tile they name shows the frame at its
      recorded quality, and every other tile stays. */
  lemma {:induction false} PaintDraws(g: Grid, fb: seq<u32>, src: seq<byte>, stride: nat, rs: seq<Record>,
          es: seq<C.Emit>, tq: seq<byte>)
    requires Holds(g, |fb|, g.width, 1) && |fb| == g.width * g.height && Match(g, src, stride, rs, es)
    requires |tq| == Total(g) && forall e :: e in es ==> e.k < |tq| && tq[e.k] == e.q
    ensures Paint(fb, g.width, g.height, rs).Some?
    ensures var out := Paint(fb, g.width, g.height, rs).value;
      forall k :: 0 <= k < Total(g) ==>
        ScreenTile(g, out, k) == if C.Has(es, k) then Shown(Tiles(g, src, stride)[k], tq[k]) else ScreenTile(g, fb, k)
  {
    hide Total, Holds, Rows, ScreenTile, Shown, Drawable, Draw, RecordOf;
    if rs != [] {
      var n := |rs| - 1;
      var e := es[n];
      MatchLess(g, src, stride, rs, es);
      PaintDraws(g, fb, src, stride, rs[..n], es[..n], tq);
      RecordDraws(g, Paint(fb, g.width, g.height, rs[..n]).value, src, stride, rs[n], e.k, e.q);
      TilesAt(g, src, stride, e.k);
      assert es == es[..n] + [e];
      forall k | 0 <= k < Total(g) ensures C.Has(es, k) <==> C.Has(es[..n], k) || k == e.k {
        C.HasBoth(es[..n], [e], k);
        HasOne(e, k);
      }
    }
  }

  lemma HasOne(e: C.Emit, k: nat)
    ensures C.Has([e], k) <==> e.k == k
  {
    assert [e][0] == e;
  }

  lemma MatchLess(g: Grid, src: seq<byte>, stride: nat, rs: seq<Record>, es: seq<C.Emit>)
    requires Match(g, src, stride, rs, es) && rs != []
    ensures Match(g, src, stride, rs[..|rs| - 1], es[..|rs| - 1])
    ensures es[|rs| - 1].k < Total(g) && RecordOf(rs[|rs| - 1], g, src, stride, es[|rs| - 1].k, es[|rs| - 1].q)
  {
    hide Total, Holds, RecordOf;
  }

  /** An encode, delivered, keeps the agreement; a full one restores it from anything. */
  lemma FrameKeepsAgreement(g: Grid, fb: seq<u32>, src: seq<byte>, stride: nat, j: C.Job<Tile>, b: C.State<Tile>,
                            s: C.State<Tile>, rs: seq<Record>)
    requires Holds(g, |src|, stride, 4) && Holds(g, |fb|, g.width, 1) && |fb| == g.width * g.height
    requires j.src == Tiles(g, src, stride) && C.Encoded(j, b, s) && Match(g, src, stride, rs, C.Concat(s.out))
    requires j.full || Agree(g, fb, b.shadow, b.tq)
    ensures Paint(fb, g.width, g.height, rs).Some?
    ensures Agree(g, Paint(fb, g.width, g.height, rs).value, s.shadow, s.tq)
  {
    hide Total, Holds, Rows, ScreenTile, Shown, Match, Paint, C.Has, C.OutOnce, Counting.Count, C.Ascending, Tiles;
    C.EncodedConcat(j, b, s);
    PaintDraws(g, fb, src, stride, rs, C.Concat(s.out), s.tq);
    var out := Paint(fb, g.width, g.height, rs).value;
    forall k | 0 <= k < Total(g) ensures ScreenTile(g, out, k) == Shown(s.shadow[k], s.tq[k]) {
      assert C.SentAs(j, b, s, k);
    }
  }
}
