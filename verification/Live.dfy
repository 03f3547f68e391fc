/** One viewer's session as the host drives it: the pacing decides when a frame is encoded,
    how it is and with what budget, the encode decides how many tiles are still lossy, and
    that decides the pacing (host/server.cpp:665-708, 835-916).  On a picture that stands
    still, automatic quality ends in the exact picture. */
module Live {
  import opened Bytes
  import opened Counting
  import opened TileGrid
  import opened FrameEncode
  import opened EncodeJob
  import opened FrameMessage
  import opened FramePipeline
  import opened Agreement
  import C = Claiming
  import P = Pacing
  import S = ScreenRuns

  /** The pacing fields, and the pictures at both ends with the link between. */
  datatype State = State(p: P.Pace, s: S.State)

  /** A pump offers a captured frame; the schedule and the records are what the encode,
      if there is one, does with it. */
  datatype Event =
    | Pump(g: Grid, frame: S.Source, seqNo: nat, now: nat, pending: nat, workers: nat, schedule: seq<nat>,
           records: seq<Record>)
    | Ack(id: u32)
    | Window(now: nat)
    | Settings(q: byte, fps: byte)
    | Refresh
    | Resend
    | Deliver

  function Init(maxFps: int, start: nat): State {
    State(P.Start(maxFps, start), S.Init())
  }

  function Offered(e: Event): P.Frame
    requires e.Pump?
  {
    P.Frame(e.g.width, e.g.height, e.seqNo)
  }

  /** The pacing after the size check. */
  function Before(x: State, e: Event): P.Pace
    requires e.Pump?
  {
    P.Noticed(x.p, Offered(e), e.now)
  }

  /** The pictures after the size check. */
  ghost function Sized(x: State, e: Event): S.State
    requires e.Pump?
  {
    S.Step(x.s, S.Resize(e.g))
  }

  predicate Goes(x: State, e: Event)
    requires e.Pump?
  {
    var q := Before(x, e);
    P.Due(q, e.seqNo != x.p.lastSeq, e.now) && !P.Blocked(q, e.pending)
  }

  /** The encode that the pacing asks for. */
  function Asked(x: State, e: Event): S.Event
    requires e.Pump?
  {
    var q := Before(x, e);
    S.Encode(e.frame, q.quality % 0x100, P.Budget(q, e.now), e.workers, e.schedule, e.records, (q.frameId as int + 1) % P.WRAP)
  }

  /** A frame is encoded, and its records are those of a complete interleaving. */
  ghost predicate Encodes(x: State, e: Event) {
    e.Pump? && Goes(x, e) && S.Possible(Sized(x, e), Asked(x, e))
  }

  ghost function StillLossy(x: State, e: Event): nat
    requires Encodes(x, e)
  {
    Count(C.LossyTiles(S.Step(Sized(x, e), Asked(x, e)).tq))
  }

  ghost function Pumped(x: State, e: Event): State
    requires e.Pump?
  {
    if Encodes(x, e) then
      State(P.OnFrame(x.p, Offered(e), e.now, e.pending, |e.records|, StillLossy(x, e)).0, S.Step(Sized(x, e), Asked(x, e)))
    else if Goes(x, e) then x
    else State(P.OnFrame(x.p, Offered(e), e.now, e.pending, 0, 0).0, Sized(x, e))
  }

  ghost function Step(x: State, e: Event, maxFps: int): State {
    match e
    case Pump(_, _, _, _, _, _, _, _) => Pumped(x, e)
    case Ack(id) => x.(p := P.OnAck(x.p, id))
    case Window(now) => x.(p := P.Adapt(x.p, now))
    case Settings(q, fps) => x.(p := P.OnSettings(x.p, q, fps, maxFps))
    case Refresh => State(x.p.(needFull := true), S.Step(x.s, S.Refresh))
    case Resend => x.(s := S.Step(x.s, S.Resend))
    case Deliver => x.(s := S.Step(x.s, S.Deliver))
  }

  ghost function Run(x: State, es: seq<Event>, maxFps: int): State {
    if es == [] then x else Step(Run(x, es[..|es| - 1], maxFps), es[|es| - 1], maxFps)
  }

  // -------------------------------------------------------------- invariant

  ghost predicate SameSize(p: P.Pace, s: S.State) {
    match s.g
    case None => p.width == 0 && p.height == 0 && p.needFull
    case Some(g) => p.width == g.width && p.height == g.height && p.needFull == s.needFull && S.Carried(g)
  }

  /** The pacing's fields say what the pictures are: size, debt of a full frame, lossy tiles. */
  ghost predicate Tied(x: State) {
    P.Inv(x.p) && S.Inv(x.s) && SameSize(x.p, x.s) && x.p.lossy == Count(C.LossyTiles(x.s.tq))
  }

  lemma NoneLossy()
    ensures Count(C.LossyTiles([])) == 0
  {
  }

  lemma SizedTied(x: State, e: Event)
    requires Tied(x) && e.Pump? && S.Carried(e.g)
    ensures Tied(State(Before(x, e), Sized(x, e))) && Sized(x, e).g == Some(e.g)
    ensures x.s.g == Some(e.g) ==> Sized(x, e) == x.s
  {
    hide S.Inv, Count, Total, S.Blank;
    S.StepKeeps(x.s, S.Resize(e.g));
    NoneLossy();
  }

  lemma PumpTied(x: State, e: Event)
    requires Tied(x) && e.Pump? && S.Carried(e.g)
    ensures Tied(Pumped(x, e))
  {
    hide S.Inv, Count, Total, S.Possible, Sized, S.Step, P.Inv, C.LossyTiles;
    SizedTied(x, e);
    P.PumpKeeps(x.p, Offered(e), e.now, e.pending, 0, 0);
    if Encodes(x, e) {
      P.PumpKeeps(x.p, Offered(e), e.now, e.pending, |e.records|, StillLossy(x, e));
      S.StepKeeps(Sized(x, e), Asked(x, e));
      S.StepGrid(Sized(x, e), Asked(x, e));
      Paid(Sized(x, e), Asked(x, e));
    }
  }

  lemma Paid(s: S.State, e: S.Event)
    requires e.Encode? && S.Possible(s, e)
    ensures !S.Step(s, e).needFull
  {
  }

  lemma StepTied(x: State, e: Event, maxFps: int)
    requires Tied(x) && maxFps >= 1 && (e.Pump? ==> S.Carried(e.g))
    ensures Tied(Step(x, e, maxFps))
  {
    hide S.Inv, Count, Pumped, S.Show, P.Inv;
    match e
    case Pump(_, _, _, _, _, _, _, _) => PumpTied(x, e);
    case Ack(id) => P.AckKeeps(x.p, id);
    case Window(now) => P.AdaptKeeps(x.p, now);
    case Settings(q, fps) => P.SettingsKeep(x.p, q, fps, maxFps);
    case Refresh => P.RefreshKeeps(x.p); S.StepKeeps(x.s, S.Refresh);
    case Resend => S.StepKeeps(x.s, S.Resend);
    case Deliver => S.StepKeeps(x.s, S.Deliver);
  }

  ghost predicate AllCarried(es: seq<Event>) {
    forall e :: e in es && e.Pump? ==> S.Carried(e.g)
  }

  /** In every run the pacing's record of size, debt and lossy tiles is the truth. */
  lemma {:induction false} RunTied(x: State, es: seq<Event>, maxFps: int)
    requires Tied(x) && maxFps >= 1 && AllCarried(es)
    ensures Tied(Run(x, es, maxFps))
  {
    hide Step, Tied;
    if es != [] {
      RunTied(x, es[..|es| - 1], maxFps);
      StepTied(Run(x, es[..|es| - 1], maxFps), es[|es| - 1], maxFps);
    }
  }

  lemma StartTied(maxFps: int, start: nat)
    requires maxFps >= 1
    ensures Tied(Init(maxFps, start))
  {
    NoneLossy();
  }

  /** A pump that encodes, in any state of any run, has fewer than two frames in flight, and
      a budget exactly in automatic mode with lossy tiles left and the size unchanged.  A
      message goes on the link exactly when some tile is sent, with one record for each tile
      sent, under the next id, full exactly when a full frame was owed or the size changed;
      then none is owed, the frame is what is recorded, each tile that changed at the quality
      in force, and the lossy tiles are counted off the qualities the encode left. */
  lemma PumpSends(x: State, e: Event)
    requires Tied(x) && Encodes(x, e) && S.Carried(e.g)
    ensures var z, u, a := Pumped(x, e), Sized(x, e), Asked(x, e);
      var sent := Count(C.ChangedTiles(S.JobOf(u, a), S.From(u, a), S.After(u, a)));
      && x.p.issued - x.p.confirmed < P.MAX_FRAMES_IN_FLIGHT && e.pending <= P.MAX_PENDING_OUT
      && (a.budget > 0 <==> x.p.setting == P.AUTO && x.p.lossy > 0 && x.s.g == Some(e.g))
      && |e.records| == sent && z.p.issued == x.p.issued + (if sent == 0 then 0 else 1)
      && u.needFull == (x.p.needFull || x.s.g != Some(e.g))
      && z.s.link == u.link + (if sent == 0 then []
                               else [S.Frame(FrameBytes(z.p.frameId, FlagsOf(u.needFull), e.records))])
      && z.p.frameId == z.p.issued % P.WRAP && !z.p.needFull && !z.s.needFull
      && S.IsFrame(e.g, e.frame, z.s.shadow) && |z.s.tq| == |u.shadow| == Total(e.g)
      && (forall k :: 0 <= k < Total(e.g) ==>
            (u.needFull || u.shadow[k] != z.s.shadow[k] ==> z.s.tq[k] as int == x.p.quality))
      && z.p.lossy == Count(C.LossyTiles(z.s.tq))
  {
    hide S.Inv, Count, Total, C.Run, C.Finished, Match, C.LossyTiles, C.ChangedTiles, Tiles, Holds, P.Inv, FrameBytes;
    var u, a := Sized(x, e), Asked(x, e);
    SizedTied(x, e);
    PumpTied(x, e);
    C.EveryScheduleEncodes(S.JobOf(u, a), S.From(u, a), a.schedule);
    C.ConcatCount(S.JobOf(u, a), S.From(u, a), S.After(u, a));
    QualityKept(x, e);
    SentAtQuality(u, a, x.p.quality);
    OneRecordEach(e.g, a.frame, e.records, C.Concat(S.After(u, a).out));
    P.PumpKeeps(x.p, Offered(e), e.now, e.pending, |e.records|, StillLossy(x, e));
    P.FrameSent(x.p, Offered(e), e.now, e.pending, |e.records|, StillLossy(x, e));
    WhenEncoded(x, e);
    Numbered(Pumped(x, e).p);
    DebtOf(x, e);
  }

  /** The tiles that changed went at the quality in force. */
  lemma SentAtQuality(u: S.State, a: S.Event, quality: int)
    requires a.Encode? && S.Possible(u, a) && 0 <= quality <= 3 && a.quality as int == quality
    requires C.Encoded(S.JobOf(u, a), S.From(u, a), S.After(u, a))
    ensures var z, g := S.Step(u, a), u.g.value;
      && S.IsFrame(g, a.frame, z.shadow) && |z.tq| == |u.shadow| == |z.shadow| == Total(g)
      && forall k :: 0 <= k < Total(g) ==> (u.needFull || u.shadow[k] != z.shadow[k] ==> z.tq[k] as int == quality)
  {
    hide Total, Holds, C.Run, C.Finished, Match, C.OutOnce, Count, Tiles;
    var j, b, s := S.JobOf(u, a), S.From(u, a), S.After(u, a);
    forall k | 0 <= k < Total(u.g.value) && (u.needFull || u.shadow[k] != s.shadow[k]) ensures s.tq[k] as int == quality {
      assert C.SentAs(j, b, s, k);
    }
  }

  lemma QualityKept(x: State, e: Event)
    requires Tied(x) && e.Pump?
    ensures 0 <= x.p.quality <= 3 && Asked(x, e).quality as int == x.p.quality
  {
    hide S.Inv, Count;
  }

  lemma WhenEncoded(x: State, e: Event)
    requires Encodes(x, e) && SameSize(x.p, x.s)
    ensures var o := P.OnFrame(x.p, Offered(e), e.now, e.pending, |e.records|, StillLossy(x, e)).1;
      o.Encoded? && o.budget == Asked(x, e).budget
    ensures e.g.width == x.p.width && e.g.height == x.p.height <==> x.s.g == Some(e.g)
  {
    hide S.Possible, S.Step, Count;
  }

  lemma OneRecordEach(g: Grid, f: S.Source, rs: seq<Record>, es: seq<C.Emit>)
    requires Match(g, f.src, f.stride, rs, es)
    ensures |rs| == |es|
  {
    hide Total, Holds;
  }

  lemma Numbered(p: P.Pace)
    requires P.Inv(p)
    ensures p.frameId == p.issued % P.WRAP
  {
  }

  lemma DebtOf(x: State, e: Event)
    requires Tied(x) && e.Pump?
    ensures Before(x, e).needFull == (x.p.needFull || x.s.g != Some(e.g))
  {
    hide S.Inv, Count, P.Inv;
  }

  /** After a refresh the next frame encoded is full: a record for every tile, in a message
      flagged so. */
  lemma RefreshRepaints(x: State, y: State, maxFps: int, e: Event)
    requires Tied(x) && maxFps >= 1 && y == Step(x, Refresh, maxFps)
    requires x.s.g.Some? && e.Pump? && e.g == x.s.g.value && Encodes(y, e)
    ensures Tied(y) && |e.records| == Total(e.g)
    ensures Pumped(y, e).s.link
         == x.s.link + [S.Frame(FrameBytes(Pumped(y, e).p.frameId, FlagsOf(true), e.records))]
  {
    hide S.Inv, P.Inv, Pumped, Encodes, Total, C.LossyTiles, Count, FrameBytes;
    StepTied(x, Refresh, maxFps);
    SizedTied(y, e);
    PumpSends(y, e);
    FullEncode(y, e);
  }

  lemma FullEncode(y: State, e: Event)
    requires Encodes(y, e) && Sized(y, e).needFull
    ensures var u, a := Sized(y, e), Asked(y, e);
      Count(C.ChangedTiles(S.JobOf(u, a), S.From(u, a), S.After(u, a))) == Total(u.g.value) > 0
  {
    hide C.Run, C.Finished, Match, Tiles, Holds, Count, Goes, Sized, Total;
    var u, a := Sized(y, e), Asked(y, e);
    C.FullSendsAll(S.JobOf(u, a), S.From(u, a), S.After(u, a));
    SomeTile(u.g.value);
  }

  lemma SomeTile(g: Grid)
    ensures Total(g) > 0
  {
    TileAtInside(g, 0, 0);
  }

  // ------------------------------------------------------- a picture at rest

  /** The picture does not change and no one asks for anything: captured frames hold the
      tiles `tiles`, whatever their sequence numbers. */
  ghost predicate Still(e: Event, g: Grid, tiles: seq<Tile>) {
    && !e.Settings? && !e.Refresh?
    && (e.Pump? ==> e.g == g && S.IsFrame(g, e.frame, tiles))
  }

  ghost predicate AllStill(es: seq<Event>, g: Grid, tiles: seq<Tile>) {
    forall e :: e in es ==> Still(e, g, tiles)
  }

  /** How many frames were encoded. */
  ghost function Encoded(x: State, es: seq<Event>, maxFps: int): nat {
    if es == [] then 0
    else
      var before := es[..|es| - 1];
      Encoded(x, before, maxFps) + if Encodes(Run(x, before, maxFps), es[|es| - 1]) then 1 else 0
  }

  /** The host has recorded the picture `tiles`, and owes no full frame. */
  ghost predicate Resting(x: State, g: Grid, tiles: seq<Tile>) {
    Tied(x) && x.s.g == Some(g) && !x.p.needFull && x.s.shadow == tiles
  }

  /** One encode at rest takes its budget off the lossy tiles, sends just those, and changes
      nothing else. */
  lemma RestingEncode(x: State, e: Event, g: Grid, tiles: seq<Tile>)
    requires Resting(x, g, tiles) && Still(e, g, tiles) && Encodes(x, e)
    ensures var z := Pumped(x, e);
      && z.s.shadow == tiles && z.p.setting == x.p.setting && !z.p.needFull
      && z.p.lossy == x.p.lossy - Min(x.p.lossy, P.Budget(Before(x, e), e.now))
      && |e.records| == Min(x.p.lossy, P.Budget(Before(x, e), e.now))
      && (P.Budget(Before(x, e), e.now) == 0 ==> z.s.tq == x.s.tq)
  {
    hide S.Inv, Count, Total, C.Run, C.Finished, Match, C.LossyTiles, C.ChangedTiles, Tiles, Holds;
    SizedTied(x, e);
    PumpSends(x, e);
    var a := Asked(x, e);
    OwesNothing(x.s, g);
    C.EveryScheduleEncodes(S.JobOf(x.s, a), S.From(x.s, a), a.schedule);
    C.StillEncode(S.JobOf(x.s, a), S.From(x.s, a), S.After(x.s, a));
    S.EncodedTiles(S.JobOf(x.s, a), S.From(x.s, a), S.After(x.s, a));
  }

  lemma OwesNothing(s: S.State, g: Grid)
    requires S.Inv(s) && s.g == Some(g) && !s.needFull
    ensures S.Qualities(g, s.tq) == s.tq
  {
    hide Agree, S.IsFrame, Total;
  }

  lemma BudgetAtLeast(p: P.Pace, now: nat)
    ensures P.Budget(p, now) == 0 <==> p.setting != P.AUTO || p.lossy == 0
    ensures P.Budget(p, now) != 0 ==> P.Budget(p, now) >= 12
  {
  }

  lemma SameBefore(x: State, e: Event)
    requires e.Pump? && SameSize(x.p, x.s) && x.s.g == Some(e.g)
    ensures Before(x, e).lossy == x.p.lossy && Before(x, e).setting == x.p.setting
  {
  }

  lemma NoEncode(x: State, e: Event)
    requires e.Pump? && !Encodes(x, e)
    requires Before(x, e).lossy == x.p.lossy && Before(x, e).setting == x.p.setting
    ensures Pumped(x, e).p.lossy == x.p.lossy && Pumped(x, e).p.setting == x.p.setting
  {
    hide S.Step, S.Possible, Encodes;
  }

  lemma RestingStep(x: State, e: Event, maxFps: int, g: Grid, tiles: seq<Tile>)
    requires Resting(x, g, tiles) && Still(e, g, tiles) && maxFps >= 1
    ensures var z := Step(x, e, maxFps);
      && Resting(z, g, tiles) && z.p.setting == x.p.setting
      && (x.p.setting == P.AUTO ==> z.p.lossy <= Max(0, x.p.lossy - if Encodes(x, e) then 12 else 0))
      && (x.p.setting != P.AUTO ==> z.s.tq == x.s.tq)
  {
    hide S.Inv, P.Inv, Count, Total, Encodes, C.LossyTiles, S.IsFrame, S.Carried, S.Show;
    StepTied(x, e, maxFps);
    if e.Pump? {
      SizedTied(x, e);
      SameBefore(x, e);
      if Encodes(x, e) {
        RestingEncode(x, e, g, tiles);
        BudgetAtLeast(Before(x, e), e.now);
        S.StepGrid(Sized(x, e), Asked(x, e));
      } else {
        NoEncode(x, e);
      }
    } else {
      OnlyPumps(x, e);
    }
  }

  lemma OnlyPumps(x: State, e: Event)
    ensures Encodes(x, e) ==> e.Pump?
  {
    hide S.Possible;
  }

  /** On a picture at rest, whatever else happens, n encoded frames leave at most L - 12 n
      of the L lossy tiles in automatic mode; at a fixed quality they leave all as it was. */
  lemma {:induction false} RestingRun(x: State, es: seq<Event>, maxFps: int, g: Grid, tiles: seq<Tile>)
    requires Resting(x, g, tiles) && AllStill(es, g, tiles) && maxFps >= 1
    ensures var z := Run(x, es, maxFps);
      && Resting(z, g, tiles) && z.p.setting == x.p.setting
      && (x.p.setting == P.AUTO ==> z.p.lossy <= Max(0, x.p.lossy - 12 * Encoded(x, es, maxFps)))
      && (x.p.setting != P.AUTO ==> z.s.tq == x.s.tq)
  {
    hide Resting, Step, Encodes, Still;
    if es != [] {
      RestingRun(x, es[..|es| - 1], maxFps, g, tiles);
      RestingStep(Run(x, es[..|es| - 1], maxFps), es[|es| - 1], maxFps, g, tiles);
    }
  }

  ghost predicate Exact(x: State, f: S.Source) {
    x.s.g.Some? && x.s.screen.On? &&
    forall i: nat, k: nat :: i < x.s.g.value.width && k < x.s.g.value.height ==>
      S.PixelExact(x.s.g.value, x.s.screen.fb, f, i, k)
  }

  /** From any state of any run in which a full frame is no longer owed, with L lossy
      tiles: once the picture rests, ceil(L / 12) encoded frames make every tile lossless
      exactly in automatic mode or when none was lossy; and when those frames have been
      delivered, every pixel of the viewer's screen is the captured one. */
  lemma {:induction false} Converges(maxFps: int, start: nat, before: seq<Event>, es: seq<Event>, g: Grid, f: S.Source)
    requires maxFps >= 1 && AllCarried(before)
    requires var x := Run(Init(maxFps, start), before, maxFps);
      && x.s.g == Some(g) && !x.p.needFull && S.IsFrame(g, f, x.s.shadow) && AllStill(es, g, x.s.shadow)
      && 12 * Encoded(x, es, maxFps) >= Count(C.LossyTiles(x.s.tq))
    ensures var x := Run(Init(maxFps, start), before, maxFps);
      var z := Run(x, es, maxFps);
      && (C.Lossless(z.s.tq) <==> x.p.setting == P.AUTO || C.Lossless(x.s.tq))
      && (x.p.setting == P.AUTO && z.s.link == [] ==> Exact(z, f))
  {
    hide Run, Step, S.IsFrame, Count, Encoded, AllStill, C.LossyTiles, S.Inv, P.Inv;
    StartTied(maxFps, start);
    RunTied(Init(maxFps, start), before, maxFps);
    var x := Run(Init(maxFps, start), before, maxFps);
    RestingRun(x, es, maxFps, g, x.s.shadow);
    var z := Run(x, es, maxFps);
    C.AllLossless(z.s.tq);
    if x.p.setting == P.AUTO && z.s.link == [] { ExactWhenLossless(z, g, f); }
  }

  lemma ExactWhenLossless(z: State, g: Grid, f: S.Source)
    requires S.Inv(z.s) && z.s.g == Some(g) && !z.s.needFull && z.s.link == [] && C.Lossless(z.s.tq)
    requires S.IsFrame(g, f, z.s.shadow)
    ensures Exact(z, f)
  {
    hide Agree, Tiles, S.PixelExact, Total;
    Drained(z.s, g);
    forall i: nat, k: nat | i < g.width && k < g.height ensures S.PixelExact(g, z.s.screen.fb, f, i, k) {
      S.LosslessIsExact(g, z.s.screen.fb, f, z.s.tq, i, k);
    }
  }

  lemma Drained(s: S.State, g: Grid)
    requires S.Inv(s) && s.g == Some(g) && !s.needFull && s.link == []
    ensures s.screen.On? && Agree(g, s.screen.fb, s.shadow, s.tq)
  {
    hide Agree, S.IsFrame, Total;
  }
}
