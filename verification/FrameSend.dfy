/** maybe_send_frame with the encode inside it (host/server.cpp:845-891): the pacing
    fields, the shadow and the qualities change in place, and the message is built. */
module FrameSend {
  import opened Bytes
  import opened Buffers
  import opened TileGrid
  import opened FrameEncode
  import opened EncodeJob
  import opened FrameMessage
  import opened FramePipeline
  import opened Counting
  import C = Claiming
  import P = Pacing
  import S = ScreenRuns

  predicate SameSize(p: P.Pace, g: Grid) {
    p.width == g.width && p.height == g.height
  }

  /** The shadow the encode starts from: cleared when the size is new. */
  function ShadowFor(p: P.Pace, g: Grid, shadow: seq<byte>): seq<byte> {
    if SameSize(p, g) then shadow else ZeroBytes(4 * g.width * g.height)
  }

  /** The qualities it starts from: all lossless when the size is new or none are kept. */
  function QualitiesFor(p: P.Pace, g: Grid, tq: seq<byte>): (q: seq<byte>)
    ensures |q| == Total(g)
  {
    if SameSize(p, g) && |tq| == Total(g) then tq else ZeroBytes(Total(g))
  }

  ghost predicate Kept(p: P.Pace, shadow: seq<byte>) {
    |shadow| == 4 * p.width * p.height
  }

  lemma ShadowHolds(p: P.Pace, g: Grid, shadow: seq<byte>)
    requires Kept(p, shadow)
    ensures |ShadowFor(p, g, shadow)| == 4 * g.width * g.height
    ensures Holds(g, |ShadowFor(p, g, shadow)|, 4 * g.width, 4)
  {
    S.ShadowHolds(g);
  }

  ghost function From(p: P.Pace, g: Grid, shadow: seq<byte>, tq: seq<byte>, workers: nat): (b: C.State<Tile>)
    requires Kept(p, shadow)
    ensures |b.shadow| == |b.tq| == Total(g) && |b.pos| == |b.out| == workers
  {
    hide Total, Holds, Tiles;
    ShadowHolds(p, g, shadow);
    C.Start(Tiles(g, ShadowFor(p, g, shadow), 4 * g.width), QualitiesFor(p, g, tq), workers)
  }

  function Picture(g: Grid, seqNo: nat): P.Frame {
    P.Frame(g.width, g.height, seqNo)
  }

  /** The encode the pacing asks for. */
  ghost function Ask(p: P.Pace, g: Grid, src: seq<byte>, stride: nat, seqNo: nat, now: nat): (j: C.Job<Tile>)
    requires Holds(g, |src|, stride, 4)
    ensures |j.src| == Total(g)
  {
    hide Total, Holds, Tiles;
    var q := P.Noticed(p, Picture(g, seqNo), now);
    Asks(g, src, stride, q.needFull, q.quality % 0x100, P.Budget(q, now))
  }

  /** The buffers are valid, empty and not shared. */
  ghost predicate Separate(shadow: array<byte>, tileQ: array<byte>, scratch: seq<RdBuf>, msg: RdBuf)
    reads scratch, msg
  {
    && shadow != tileQ && |scratch| > 0
    && msg !in scratch && msg.data != shadow && msg.data != tileQ && msg.Valid()
    && (forall i :: 0 <= i < |scratch| ==> scratch[i].Valid() && scratch[i].len == 0)
    && (forall i :: 0 <= i < |scratch| ==>
          scratch[i].data != shadow && scratch[i].data != tileQ && scratch[i].data != msg.data)
    && (forall i, m :: 0 <= i < m < |scratch| ==> scratch[i] != scratch[m] && scratch[i].data != scratch[m].data)
  }

  /** The shadow and the qualities sized for the frame. */
  method Fit(conn: P.ServerConn, g: Grid, seqNo: nat, now: nat, shadow: array<byte>, tileQ: array<byte>)
    returns (changed: bool, sh: array<byte>, tq: array<byte>)
    requires Kept(conn.View(), shadow[..])
    modifies conn
    ensures conn.View() == P.Noticed(old(conn.View()), Picture(g, seqNo), now)
    ensures changed == (seqNo != old(conn.lastSeq))
    ensures sh[..] == ShadowFor(old(conn.View()), g, old(shadow[..]))
    ensures tq[..] == if SameSize(old(conn.View()), g) then old(tileQ[..]) else []
    ensures (sh == shadow && tq == tileQ) || (fresh(sh) && fresh(tq) && sh != tq)
  {
    hide P.Noticed;
    sh, tq := shadow, tileQ;
    if g.width != conn.width || g.height != conn.height {
      Area(g);
      sh := new byte[4 * g.width * g.height](_ => 0);
      tq := new byte[0];
      assert sh[..] == ZeroBytes(4 * g.width * g.height);
    }
    changed := conn.Notice(Picture(g, seqNo), now);
  }

  lemma Area(g: Grid)
    ensures 0 <= 4 * g.width * g.height
  {
  }

  /** The qualities the encode starts from, given room for every tile. */
  method Room(g: Grid, tileQ: array<byte>) returns (tq: array<byte>)
    ensures tq[..] == if tileQ.Length == Total(g) then tileQ[..] else ZeroBytes(Total(g))
    ensures tq == tileQ || fresh(tq)
  {
    hide Total;
    tq := tileQ;
    if tileQ.Length != Total(g) {
      tq := new byte[Total(g)](_ => 0);
      assert tq[..] == ZeroBytes(Total(g));
    }
  }

  /** The number of tiles still lossy. */
  method CountLossy(tileQ: array<byte>) returns (n: nat)
    ensures n == Count(C.LossyTiles(tileQ[..]))
  {
    n := 0;
    for k := 0 to tileQ.Length
      invariant n == Count(C.LossyTiles(tileQ[..k]))
    {
      assert tileQ[..k + 1][..k] == tileQ[..k];
      ghost var f := C.LossyTiles(tileQ[..k + 1]);
      assert f[..k] == C.LossyTiles(tileQ[..k]);
      if tileQ[k] != 0 { n := n + 1; }
    }
    assert tileQ[..tileQ.Length] == tileQ[..];
  }

  function HeldBack(q: P.Pace, changed: bool, now: nat, pending: nat): P.Pace {
    if P.Due(q, changed, now) && pending > 0 && changed then q.(stalls := q.stalls + 1) else q
  }

  /** The decision of maybe_send_frame, after the size check: the encode's budget, if it is
      time for a frame and there is room for one. */
  method Decide(conn: P.ServerConn, changed: bool, now: nat, pending: nat) returns (budget: Option<nat>)
    modifies conn`stalls
    ensures var q := old(conn.View());
      && budget.Some? == (P.Due(q, changed, now) && !P.Blocked(q, pending))
      && (budget.Some? ==> budget.value == P.Budget(q, now) && conn.View() == q)
      && (budget.None? ==> conn.View() == HeldBack(q, changed, now, pending))
  {
    var refine := conn.setting == P.AUTO && conn.lossy > 0;
    var settled := now - conn.lastChange > 250000;
    if !changed && !conn.needFull && !(refine && settled) { return None; }
    var rate := Max(1, Min(conn.fps, conn.effFps));
    if now - conn.lastFrame < P.SECOND / rate { return None; }
    if (conn.frameId - conn.acked) % P.WRAP >= P.MAX_FRAMES_IN_FLIGHT || pending > P.MAX_PENDING_OUT {
      if pending > 0 && changed { conn.stalls := conn.stalls + 1; }
      return None;
    }
    budget := Some(if !refine then 0 else if settled then 400 else 12);
  }

  lemma Skips(p: P.Pace, f: P.Frame, now: nat, pending: nat, tiles: nat, lossy: nat)
    requires var q := P.Noticed(p, f, now); !P.Due(q, f.seqNo != p.lastSeq, now) || P.Blocked(q, pending)
    ensures P.OnFrame(p, f, now, pending, tiles, lossy)
         == (HeldBack(P.Noticed(p, f, now), f.seqNo != p.lastSeq, now, pending), P.Skipped)
  {
  }

  lemma Goes(p: P.Pace, f: P.Frame, now: nat, pending: nat, tiles: nat, lossy: nat)
    requires var q := P.Noticed(p, f, now); P.Due(q, f.seqNo != p.lastSeq, now) && !P.Blocked(q, pending)
    ensures var q := P.Noticed(p, f, now);
      var (e, sent) := P.Issued(q, f, now, f.seqNo != p.lastSeq, tiles, lossy);
      && P.OnFrame(p, f, now, pending, tiles, lossy) == (e, P.Encoded(q.needFull, P.Budget(q, now), sent))
      && sent == (if tiles == 0 then None else Some((q.frameId as int + 1) % P.WRAP))
      && e.width == q.width && e.height == q.height
  {
  }

  /** The encode itself, over qualities that may first have to be made. */
  method EncodeInto(g: Grid, src: seq<byte>, stride: nat, ghost j: C.Job<Tile>, ghost b: C.State<Tile>, full: bool,
                    quality: byte, budget: nat, sh: array<byte>, t: array<byte>, scratch: seq<RdBuf>, msg: RdBuf, id: u32,
                    schedule: seq<nat>)
    returns (tq: array<byte>, ghost rs: seq<Record>, ghost s: C.State<Tile>, tiles: nat, still: nat)
    requires Holds(g, |src|, stride, 4) && Holds(g, sh.Length, 4 * g.width, 4) && Separate(sh, t, scratch, msg)
    requires j == Asks(g, src, stride, full, quality, budget) && C.Shaped(j, b)
    requires b == C.Start(Tiles(g, sh[..], 4 * g.width), if t.Length == Total(g) then t[..] else ZeroBytes(Total(g)), |scratch|)
    requires C.Finished(C.Run(j, b, schedule))
    modifies sh, t, msg, msg.data, Bufs(scratch), Datas(scratch)
    ensures tiles == |rs| && still == Count(C.LossyTiles(tq[..])) && (tq == t || fresh(tq))
    ensures msg.Valid() && msg.Contents() == FrameBytes(id, FlagsOf(full), rs)
    ensures C.Encoded(j, b, s) && Tiles(g, sh[..], 4 * g.width) == s.shadow && tq[..] == s.tq
    ensures Match(g, src, stride, rs, C.Concat(s.out))
  {
    hide Total, Holds, Match, C.Run, C.Encoded, Tiles, C.Finished, C.LossyTiles, Count, FrameBytes, C.Start, Asks;
    tq := Room(g, t);
    tiles, rs, s := BuildFrame(g, src, stride, full, quality, budget, sh, tq, scratch, msg, id, schedule);
    still := CountLossy(tq);
  }

  /** What follows the decision to go: the encode, then the fields. */
  method Proceed(conn: P.ServerConn, ghost p: P.Pace, g: Grid, src: seq<byte>, stride: nat, seqNo: nat, now: nat,
                 ghost pending: nat, changed: bool, budget: nat, ghost shadow: seq<byte>, ghost tileQ: seq<byte>,
                 sh: array<byte>, t: array<byte>, scratch: seq<RdBuf>, msg: RdBuf, schedule: seq<nat>)
    returns (o: P.Outcome, tq: array<byte>, ghost rs: seq<Record>, ghost s: C.State<Tile>)
    requires P.Inv(p) && Kept(p, shadow) && Holds(g, |src|, stride, 4) && Separate(sh, t, scratch, msg)
    requires var q := P.Noticed(p, Picture(g, seqNo), now);
      && conn.View() == q && changed == (seqNo != p.lastSeq) && budget == P.Budget(q, now)
      && P.Due(q, changed, now) && !P.Blocked(q, pending)
    requires sh[..] == ShadowFor(p, g, shadow) && t[..] == if SameSize(p, g) then tileQ else []
    requires C.Finished(C.Run(Ask(p, g, src, stride, seqNo, now), From(p, g, shadow, tileQ, |scratch|), schedule))
    modifies conn, sh, t, msg, msg.data, Bufs(scratch), Datas(scratch)
    ensures P.Inv(conn.View()) && conn.width == g.width && conn.height == g.height
    ensures (conn.View(), o) == P.OnFrame(p, Picture(g, seqNo), now, pending, |rs|, Count(C.LossyTiles(tq[..])))
    ensures o.Encoded? && (o.sent.Some? <==> rs != [])
    ensures C.Encoded(Ask(p, g, src, stride, seqNo, now), From(p, g, shadow, tileQ, |scratch|), s)
    ensures Holds(g, sh.Length, 4 * g.width, 4) && Tiles(g, sh[..], 4 * g.width) == s.shadow && tq[..] == s.tq
    ensures Match(g, src, stride, rs, C.Concat(s.out))
    ensures o.sent.Some? ==> msg.Valid() && msg.Contents() == FrameBytes(o.sent.value, FlagsOf(o.full), rs)
  {
    hide P.Inv, P.Noticed, P.OnFrame, P.Issued, P.Due, P.Blocked, P.Budget, Total, Holds, Match, C.Run, C.Encoded,
         Tiles, C.Finished, C.LossyTiles, Count, FrameBytes, ZeroBytes;
    ghost var f := Picture(g, seqNo);
    ghost var job, b := Ask(p, g, src, stride, seqNo, now), From(p, g, shadow, tileQ, |scratch|);
    ShadowHolds(p, g, shadow);
    NoticedSize(p, f, now);
    var full := conn.needFull;
    var tiles, still;
    tq, rs, s, tiles, still := EncodeInto(g, src, stride, job, b, full, conn.quality % 0x100, budget, sh, t, scratch,
                                          msg, (conn.frameId as int + 1) % P.WRAP, schedule);
    Goes(p, f, now, pending, tiles, still);
    P.PumpKeeps(p, f, now, pending, tiles, still);
    var sent := conn.Issue(Picture(g, seqNo), now, changed, tiles, still);
    o := P.Encoded(full, budget, sent);
  }

  /** maybe_send_frame: the fields follow the pacing step with the counts of this encode;
      the encode is a complete one, with the budget and the quality the pacing gives; and
      a message is sent exactly when a tile was, holding one record for each. */
  method MaybeSendFrame(conn: P.ServerConn, g: Grid, src: seq<byte>, stride: nat, seqNo: nat, now: nat, pending: nat,
                        shadow: array<byte>, tileQ: array<byte>, scratch: seq<RdBuf>, msg: RdBuf, schedule: seq<nat>)
    returns (o: P.Outcome, sh: array<byte>, tq: array<byte>, ghost rs: seq<Record>, ghost s: C.State<Tile>)
    requires P.Inv(conn.View()) && Kept(conn.View(), shadow[..]) && Holds(g, |src|, stride, 4)
    requires Separate(shadow, tileQ, scratch, msg)
    requires C.Finished(C.Run(Ask(conn.View(), g, src, stride, seqNo, now),
                              From(conn.View(), g, shadow[..], tileQ[..], |scratch|), schedule))
    modifies conn, shadow, tileQ, msg, msg.data, Bufs(scratch), Datas(scratch)
    ensures P.Inv(conn.View()) && Kept(conn.View(), sh[..])
    ensures (conn.View(), o)
         == P.OnFrame(old(conn.View()), Picture(g, seqNo), now, pending, |rs|, Count(C.LossyTiles(tq[..])))
    ensures o.Encoded? ==>
      && C.Encoded(Ask(old(conn.View()), g, src, stride, seqNo, now),
                   From(old(conn.View()), g, old(shadow[..]), old(tileQ[..]), |scratch|), s)
      && Holds(g, sh.Length, 4 * g.width, 4) && Tiles(g, sh[..], 4 * g.width) == s.shadow && tq[..] == s.tq
      && Match(g, src, stride, rs, C.Concat(s.out))
      && (o.sent.Some? <==> rs != [])
      && (o.sent.Some? ==> msg.Valid() && msg.Contents() == FrameBytes(o.sent.value, FlagsOf(o.full), rs))
    ensures o == P.Skipped ==> sh[..] == ShadowFor(old(conn.View()), g, old(shadow[..]))
  {
    hide P.Inv, P.Noticed, P.OnFrame, P.Issued, P.Due, P.Blocked, P.Budget, HeldBack, Total, Holds, Match, C.Run, C.Encoded,
         Tiles, C.Finished, C.LossyTiles, Count, FrameBytes, ZeroBytes, Ask, From;
    ghost var p, f := conn.View(), Picture(g, seqNo);
    ShadowHolds(p, g, shadow[..]);
    NoticedSize(p, f, now);
    var changed; var t;
    changed, sh, t := Fit(conn, g, seqNo, now, shadow, tileQ);
    ghost var q := conn.View();
    var budget := Decide(conn, changed, now, pending);
    if budget.None? {
      rs, s := [], From(p, g, old(shadow[..]), old(tileQ[..]), |scratch|);
      Skips(p, f, now, pending, 0, Count(C.LossyTiles(t[..])));
      P.PumpKeeps(p, f, now, pending, 0, Count(C.LossyTiles(t[..])));
      HeldSize(q, changed, now, pending);
      return P.Skipped, sh, t, rs, s;
    }
    o, tq, rs, s := Proceed(conn, p, g, src, stride, seqNo, now, pending, changed, budget.value, old(shadow[..]),
                            old(tileQ[..]), sh, t, scratch, msg, schedule);
  }

  lemma HeldSize(q: P.Pace, changed: bool, now: nat, pending: nat)
    ensures HeldBack(q, changed, now, pending).width == q.width && HeldBack(q, changed, now, pending).height == q.height
  {
  }

  lemma NoticedSize(p: P.Pace, f: P.Frame, now: nat)
    ensures var q := P.Noticed(p, f, now);
      && q.width == f.width && q.height == f.height && q.lastSeq == p.lastSeq
      && q == p.(width := q.width, height := q.height, lossy := q.lossy, needFull := q.needFull, lastChange := q.lastChange)
  {
  }
}
