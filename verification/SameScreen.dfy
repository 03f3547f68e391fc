/** The workers' interleaving does not reach the screen: where the qualities do not depend
    on it, neither does one pixel (host/encoder.cpp:68-126, client/app.cpp:539-577). */
module SameScreen {
  import opened Bytes
  import opened Arith
  import opened TileGrid
  import opened FrameEncode
  import opened EncodeJob
  import opened FrameMessage
  import opened Agreement
  import opened ScreenRuns
  import opened Schedules
  import C = Claiming
  import Counting

  /** What the host has recorded decides every pixel. */
  lemma AgreeOnce(g: Grid, a: seq<u32>, b: seq<u32>, shadow: seq<Tile>, tq: seq<byte>)
    requires Agree(g, a, shadow, tq) && Agree(g, b, shadow, tq)
    ensures a == b
  {
    hide Tx, Ty, Tw, Th, Total, TileAt, Holds, Shown, ScreenTile, At;
    forall p | 0 <= p < |a| ensures a[p] == b[p] {
      var x, y := p % g.width, p / g.width;
      RowOf(g, p);
      TileAtInside(g, x, y);
      var k := TileAt(g, x, y);
      Partition(g, x, y, k);
      var j, i := y - Ty(g, k), x - Tx(g, k);
      ScreenCell(g, a, k, j, i);
      ScreenCell(g, b, k, j, i);
      assert ScreenTile(g, a, k) == ScreenTile(g, b, k);
    }
  }

  lemma RowOf(g: Grid, p: nat)
    requires p < g.width * g.height
    ensures p / g.width < g.height && At(g.width, p / g.width) + p % g.width == p
  {
    var y := p / g.width;
    if y >= g.height { MulMono(g.width, g.height, y); }
    MulComm(g.width, y);
  }

  /** Two complete interleavings of one encode, drawn over screens that agree with the
      host, or over any two screens if the frame is full: when the budget is for none of
      the lossy tiles or for all, or there is one worker, or one chunk has them all, every
      pixel comes out the same. */
  lemma SchedulesShowTheSame(g: Grid, a: seq<u32>, z: seq<u32>, src: seq<byte>, stride: nat, j: C.Job<Tile>,
                             b: C.State<Tile>, x: seq<nat>, y: seq<nat>, rs: seq<Record>, ts: seq<Record>)
    requires Holds(g, |src|, stride, 4) && |a| == |z| == g.width * g.height
    requires j.src == Tiles(g, src, stride) && C.Begun(j, b)
    requires C.Finished(C.Run(j, b, x)) && Match(g, src, stride, rs, C.Concat(C.Run(j, b, x).out))
    requires C.Finished(C.Run(j, b, y)) && Match(g, src, stride, ts, C.Concat(C.Run(j, b, y).out))
    requires j.full || (Agree(g, a, b.shadow, b.tq) && Agree(g, z, b.shadow, b.tq))
    requires j.budget <= 0 || j.budget >= Counting.Count(C.Lossy(j, b)) || |b.pos| == 1 || OneChunk(j, b)
    ensures Paint(a, g.width, g.height, rs).Some? && Paint(z, g.width, g.height, ts).Some?
    ensures Paint(a, g.width, g.height, rs).value == Paint(z, g.width, g.height, ts).value
  {
    hide Total, Holds, Match, C.Run, C.Finished, Agree, Tiles, Paint, OneChunk, C.Encoded;
    var s, t := C.Run(j, b, x), C.Run(j, b, y);
    C.EveryScheduleEncodes(j, b, x);
    C.EveryScheduleEncodes(j, b, y);
    EncodedTiles(j, b, s);
    EncodedTiles(j, b, t);
    ScheduleMatters(j, b);
    HoldsScreen(g, |a|);
    FrameKeepsAgreement(g, a, src, stride, j, b, s, rs);
    FrameKeepsAgreement(g, z, src, stride, j, b, t, ts);
    AgreeOnce(g, Paint(a, g.width, g.height, rs).value, Paint(z, g.width, g.height, ts).value, s.shadow, s.tq);
  }
}
