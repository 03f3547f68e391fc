/** Every run of frames, size changes, quality changes and refreshes from one host to one
    viewer over a FIFO link (host/server.cpp:845-891, client/app.cpp:539-577): once all is
    delivered, the screen is what the host has recorded. */
module ScreenRuns {
  import opened Bytes
  import opened TileFormat
  import opened TileGrid
  import opened TileEncode
  import opened FrameEncode
  import opened EncodeJob
  import opened FrameMessage
  import opened FramePipeline
  import opened Agreement
  import opened Arith
  import C = Claiming
  import Counting

  datatype Msg = Display(g: Grid) | Frame(bytes: seq<byte>)

  datatype Screen = Off | On(g: Grid, fb: seq<u32>)

  function Black(g: Grid): (fb: seq<u32>)
    ensures |fb| == g.width * g.height
  {
    seq(g.width * g.height, _ => 0xFF00_0000)
  }

  /** The sizes the 16-bit fields of the protocol can carry. */
  predicate Carried(g: Grid) {
    g.width < 0x1_0000 && g.height < 0x1_0000 && Total(g) < 0x1_0000
  }

  ghost predicate Sized(v: Screen) {
    v.On? ==> |v.fb| == v.g.width * v.g.height
  }

  /** resize_remote and on_frame; None when a record is rejected. */
  ghost function Show(v: Screen, m: Msg): (out: Option<Screen>)
    requires Sized(v)
    ensures out.Some? ==> Sized(out.value)
  {
    match m
    case Display(g) => if v.On? && v.g == g then Some(v) else Some(On(g, Black(g)))
    case Frame(p) =>
      if v.Off? || |p| < 8 then Some(v)
      else
        match PaintBytes(v.fb, v.g.width, v.g.height, p[8..], LeValue(p[6..8]))
        case None => None
        case Some(fb) => Some(On(v.g, fb))
  }

  ghost function ShowAll(v: Screen, link: seq<Msg>): (out: Option<Screen>)
    requires Sized(v)
    ensures out.Some? ==> Sized(out.value)
  {
    if link == [] then Some(v)
    else
      var before := ShowAll(v, link[..|link| - 1]);
      if before.None? then None else Show(before.value, link[|link| - 1])
  }

  lemma ShowMore(v: Screen, link: seq<Msg>, m: Msg)
    requires Sized(v)
    ensures ShowAll(v, link + [m])
         == if ShowAll(v, link).None? then None else Show(ShowAll(v, link).value, m)
  {
    hide Show;
    assert (link + [m])[..|link|] == link;
  }

  lemma {:induction false} ShowFirst(v: Screen, link: seq<Msg>)
    requires Sized(v) && link != [] && ShowAll(v, link).Some?
    ensures Show(v, link[0]).Some? && ShowAll(Show(v, link[0]).value, link[1..]) == ShowAll(v, link)
  {
    hide Show;
    var n := |link| - 1;
    if n == 0 {
      assert link[..0] == [] && link[1..] == [];
    } else {
      ShowFirst(v, link[..n]);
      assert link[..n][1..] == link[1..][..n - 1];
    }
  }

  // ------------------------------------------------------------------ state

  datatype Source = Source(src: seq<byte>, stride: nat)

  /** The host's record of one viewer, the link, and the viewer's screen; `last` is the
      frame encoded last. */
  datatype State = State(g: Option<Grid>, shadow: seq<Tile>, tq: seq<byte>, needFull: bool, last: Source,
                         link: seq<Msg>, screen: Screen, broken: bool)

  datatype Event =
    | Resize(g: Grid)
    | Encode(frame: Source, quality: byte, budget: int, workers: nat, schedule: seq<nat>, records: seq<Record>, id: u32)
    | Refresh
    | Resend
    | Deliver

  function Init(): State {
    State(None, [], [], false, Source([], 0), [], Off, false)
  }

  lemma ShadowHolds(g: Grid)
    ensures Holds(g, 4 * g.width * g.height, 4 * g.width, 4)
  {
    Distributes(g.height - 1, 1, 4 * g.width);
  }

  function Blank(g: Grid): (ts: seq<Tile>)
    ensures |ts| == Total(g)
  {
    hide Total, Holds, Tiles;
    ShadowHolds(g);
    var zeros: seq<byte> := seq(4 * g.width * g.height, _ => 0);
    Tiles(g, zeros, 4 * g.width)
  }

  /** tile_q as the encoder starts from it. */
  function Qualities(g: Grid, tq: seq<byte>): (q: seq<byte>)
    ensures |q| == Total(g)
  {
    if |tq| == Total(g) then tq else seq(Total(g), _ => 0)
  }

  ghost predicate FrameOk(s: State, e: Event)
    requires e.Encode?
  {
    && s.g.Some? && |s.shadow| == Total(s.g.value) && e.workers > 0
    && Holds(s.g.value, |e.frame.src|, e.frame.stride, 4)
  }

  ghost function JobOf(s: State, e: Event): C.Job<Tile>
    requires e.Encode? && FrameOk(s, e)
  {
    C.Job(Tiles(s.g.value, e.frame.src, e.frame.stride), s.needFull, e.quality, e.budget)
  }

  ghost function From(s: State, e: Event): C.State<Tile>
    requires e.Encode? && FrameOk(s, e)
  {
    C.Start(s.shadow, Qualities(s.g.value, s.tq), e.workers)
  }

  ghost function After(s: State, e: Event): C.State<Tile>
    requires e.Encode? && FrameOk(s, e)
  {
    C.Run(JobOf(s, e), From(s, e), e.schedule)
  }

  /** An encode's interleaving is complete, and its records are of what was put out. */
  ghost predicate Possible(s: State, e: Event) {
    match e
    case Resize(g) => s.g != Some(g)
    case Encode(_, _, _, _, _, rs, _) =>
      && FrameOk(s, e) && C.Finished(After(s, e))
      && Match(s.g.value, e.frame.src, e.frame.stride, rs, C.Concat(After(s, e).out))
    case Refresh => true
    case Resend => s.g.Some?
    case Deliver => s.link != [] && Sized(s.screen)
  }

  ghost function Step(s: State, e: Event): State {
    if !Possible(s, e) then s
    else match e
      case Resize(g) =>
        s.(g := Some(g), shadow := Blank(g), tq := [], needFull := true, link := s.link + [Display(g)])
      case Encode(frame, _, _, _, _, rs, id) =>
        var t := After(s, e);
        s.(shadow := t.shadow, tq := t.tq, needFull := false, last := frame,
           link := s.link + if rs == [] then [] else [Frame(FrameBytes(id, FlagsOf(s.needFull), rs))])
      case Refresh => s.(needFull := true)
      case Resend => s.(link := s.link + [Display(s.g.value)])
      case Deliver =>
        match Show(s.screen, s.link[0])
        case None => s.(link := s.link[1..], broken := true)
        case Some(v) => s.(link := s.link[1..], screen := v)
  }

  ghost function Run(es: seq<Event>): State {
    if es == [] then Init() else Step(Run(es[..|es| - 1]), es[|es| - 1])
  }

  // -------------------------------------------------------------- invariant

  /** Once the link is drained the screen has the host's size; and unless a full frame is
      owed, it shows the shadow at the recorded qualities, the shadow being the last frame. */
  ghost predicate Inv(s: State) {
    && !s.broken && Sized(s.screen) && ShowAll(s.screen, s.link).Some?
    && (s.g.None? ==> s.link == [] && s.screen == Off)
    && (s.g.Some? ==> Synced(s, s.g.value, ShowAll(s.screen, s.link).value))
  }

  ghost predicate Synced(s: State, g: Grid, v: Screen) {
    && v.On? && v.g == g && |v.fb| == g.width * g.height
    && |s.shadow| == Total(g) && (s.needFull || |s.tq| == Total(g))
    && (!s.needFull ==> Agree(g, v.fb, s.shadow, s.tq) && IsFrame(g, s.last, s.shadow))
  }

  ghost predicate IsFrame(g: Grid, f: Source, shadow: seq<Tile>) {
    Holds(g, |f.src|, f.stride, 4) && shadow == Tiles(g, f.src, f.stride)
  }

  lemma RecordsSmall(g: Grid, src: seq<byte>, stride: nat, rs: seq<Record>, es: seq<C.Emit>)
    requires Match(g, src, stride, rs, es) && g.width < 0x1_0000 && g.height < 0x1_0000
    ensures forall r :: r in rs ==> Small(r)
  {
    hide Total, Tx, Ty, Tw, Th, Holds, Encodes, QuantRows, Rows;
    forall m | 0 <= m < |rs| ensures Small(rs[m]) {
      TileInside(g, es[m].k);
      PayloadSmall(rs[m].enc, rs[m].payload, Wanted(g, src, stride, es[m].k, es[m].q), rs[m].w, rs[m].h);
    }
  }

  /** A delivered message paints its records. */
  lemma FrameShows(g: Grid, fb: seq<u32>, id: u32, flags: byte, rs: seq<Record>)
    requires |fb| == g.width * g.height && |rs| < 0x1_0000 && forall r :: r in rs ==> Small(r)
    ensures Show(On(g, fb), Frame(FrameBytes(id, flags, rs)))
         == match Paint(fb, g.width, g.height, rs) case None => None case Some(out) => Some(On(g, out))
  {
    hide LeBytes, LeValue, Flat, ParseRecords, Paint, Small, FrameBytes;
    FrameParts(id, flags, rs);
    TwoByteValue(|rs|);
    RecordsParse(rs, |rs|);
    assert rs[..|rs|] == rs;
  }

  lemma FrameParts(id: u32, flags: byte, rs: seq<Record>)
    ensures var p := FrameBytes(id, flags, rs);
      |p| >= 8 && p[6..8] == LeBytes(|rs|, 2) && p[8..] == Flat(rs)
  {
    hide LeBytes, Flat;
  }

  lemma EncodeKeeps(s: State, e: Event)
    requires Inv(s) && e.Encode? && Possible(s, e) && Carried(s.g.value)
    ensures Inv(Step(s, e))
  {
    hide Total, Holds, Match, C.Run, C.Finished, Agree, Tiles, Show, FrameBytes, Small, Paint;
    var g, v := s.g.value, ShowAll(s.screen, s.link).value;
    var t := After(s, e);
    C.EveryScheduleEncodes(JobOf(s, e), From(s, e), e.schedule);
    EncodedTiles(JobOf(s, e), From(s, e), t);
    HoldsScreen(g, |v.fb|);
    FrameKeepsAgreement(g, v.fb, e.frame.src, e.frame.stride, JobOf(s, e), From(s, e), t, e.records);
    RecordsSmall(g, e.frame.src, e.frame.stride, e.records, C.Concat(t.out));
    RecordsFew(g, e.frame.src, e.frame.stride, JobOf(s, e), From(s, e), t, e.records);
    if e.records == [] {
      PaintNone(v.fb, g.width, g.height);
      assert s.link + [] == s.link;
    } else {
      FrameShows(g, v.fb, e.id, FlagsOf(s.needFull), e.records);
      ShowMore(s.screen, s.link, Frame(FrameBytes(e.id, FlagsOf(s.needFull), e.records)));
    }
  }

  lemma HoldsScreen(g: Grid, size: nat)
    requires size == g.width * g.height
    ensures Holds(g, size, g.width, 1)
  {
    ScreenHolds(g);
  }

  lemma EncodedTiles(j: C.Job<Tile>, b: C.State<Tile>, s: C.State<Tile>)
    requires C.Encoded(j, b, s)
    ensures s.shadow == j.src && |s.tq| == |j.src|
  {
  }

  // ------------------------------------------------------ how many records

  /** No more records than tiles. */
  lemma RecordsFew(g: Grid, src: seq<byte>, stride: nat, j: C.Job<Tile>, b: C.State<Tile>, s: C.State<Tile>, rs: seq<Record>)
    requires C.Encoded(j, b, s) && Match(g, src, stride, rs, C.Concat(s.out)) && |j.src| == Total(g)
    ensures |rs| <= Total(g)
  {
    hide Total, Holds, RecordOf, Counting.Count;
    C.ConcatFew(j, b, s);
  }

  // ------------------------------------------------------------- every run

  lemma ResizeKeeps(s: State, g: Grid)
    requires Inv(s) && s.g != Some(g)
    ensures Inv(Step(s, Resize(g)))
  {
    hide Total, Holds, Agree, IsFrame, Blank;
    ShowMore(s.screen, s.link, Display(g));
    if s.g.None? { assert ShowAll(s.screen, []) == Some(Off); }
  }

  lemma OtherKeeps(s: State, e: Event)
    requires Inv(s) && (e.Refresh? || e.Resend?) && Possible(s, e)
    ensures Inv(Step(s, e))
  {
    hide Total, Holds, Agree, IsFrame;
    if e.Resend? { ShowMore(s.screen, s.link, Display(s.g.value)); }
  }

  /** A repeated DISPLAY_INFO goes out, and changes nothing of what the viewer will see. */
  lemma ResendHarmless(s: State)
    requires Inv(s) && s.g.Some?
    ensures var t := Step(s, Resend);
      |t.link| == |s.link| + 1 && s.link <= t.link && ShowAll(t.screen, t.link) == ShowAll(s.screen, s.link)
  {
    hide Total, Holds, Agree, IsFrame;
    ShowMore(s.screen, s.link, Display(s.g.value));
  }

  lemma DeliverKeeps(s: State)
    requires Inv(s) && s.link != []
    ensures Inv(Step(s, Deliver))
  {
    hide Show, Agree, IsFrame, ShowAll, Total;
    ShowFirst(s.screen, s.link);
  }

  lemma StepKeeps(s: State, e: Event)
    requires Inv(s) && (s.g.Some? ==> Carried(s.g.value))
    ensures Inv(Step(s, e))
  {
    hide Inv, Show, ShowAll, Holds, Total, C.Run, Match, C.Finished;
    if Possible(s, e) {
      match e
      case Resize(g) => ResizeKeeps(s, g);
      case Encode(_, _, _, _, _, _, _) => EncodeKeeps(s, e);
      case Refresh => OtherKeeps(s, e);
      case Resend => OtherKeeps(s, e);
      case Deliver => DeliverKeeps(s);
    }
  }

  lemma StepGrid(s: State, e: Event)
    ensures Step(s, e).g == if e.Resize? then Some(e.g) else s.g
  {
    hide Show, FrameOk, C.Run, Match, C.Finished;
  }

  ghost predicate AllCarried(es: seq<Event>) {
    forall e :: e in es && e.Resize? ==> Carried(e.g)
  }

  lemma {:induction false} RunKeeps(es: seq<Event>)
    requires AllCarried(es)
    ensures Inv(Run(es)) && (Run(es).g.Some? ==> Carried(Run(es).g.value))
  {
    hide Step, Carried, Inv;
    if es == [] {
      StartKeeps();
    } else {
      var before := es[..|es| - 1];
      assert AllCarried(before);
      RunKeeps(before);
      StepKeeps(Run(before), es[|es| - 1]);
      StepGrid(Run(before), es[|es| - 1]);
    }
  }

  lemma StartKeeps()
    ensures Inv(Init())
  {
  }

  /** In every run no record is ever rejected, and whenever everything is delivered and no
      full frame is owed, each tile of the screen is the last frame's tile quantised at
      the quality the host has recorded for it. */
  lemma {:induction false} ViewerAgrees(es: seq<Event>)
    requires AllCarried(es)
    ensures var s := Run(es);
      && !s.broken
      && (s.g.Some? && s.link == [] && !s.needFull ==>
            s.screen.On? && s.screen.g == s.g.value
            && Agree(s.g.value, s.screen.fb, s.shadow, s.tq) && IsFrame(s.g.value, s.last, s.shadow))
  {
    hide Agree, IsFrame, Total, AllCarried, Run;
    RunKeeps(es);
  }

  /** What the viewer must see at (x, y). */
  ghost predicate PixelIs(g: Grid, fb: seq<u32>, f: Source, x: nat, y: nat, q: byte) {
    var to, from := At(g.width, y) + x, At(f.stride, y) + 4 * x;
    to < |fb| && from + 4 <= |f.src| && fb[to] == Argb(PixelAt(f.src, from, q))
  }

  /** Pixel by pixel: each is the frame's pixel, quantised as its tile was last sent. */
  lemma PixelShown(g: Grid, fb: seq<u32>, f: Source, tq: seq<byte>, x: nat, y: nat)
    requires Holds(g, |f.src|, f.stride, 4) && Agree(g, fb, Tiles(g, f.src, f.stride), tq) && x < g.width && y < g.height
    ensures TileAt(g, x, y) < |tq| && PixelIs(g, fb, f, x, y, tq[TileAt(g, x, y)])
  {
    hide Tx, Ty, Tw, Th, Total, TileAt, Holds, PixelAt, Argb, QuantRow, Opaque;
    TileAtInside(g, x, y);
    var k := TileAt(g, x, y);
    Partition(g, x, y, k);
    var j, i := y - Ty(g, k), x - Tx(g, k);
    ScreenCell(g, fb, k, j, i);
    SourceCell(g, f, k, j, i, tq[k]);
    TilesAt(g, f.src, f.stride, k);
    assert ScreenTile(g, fb, k) == Shown(Tiles(g, f.src, f.stride)[k], tq[k]);
  }

  lemma ScreenCell(g: Grid, fb: seq<u32>, k: nat, j: nat, i: nat)
    requires Holds(g, |fb|, g.width, 1) && k < Total(g) && j < Th(g, k) && i < Tw(g, k)
    ensures var at := At(g.width, Ty(g, k) + j) + Tx(g, k) + i;
      at < |fb| && i < |ScreenTile(g, fb, k)[j]| && ScreenTile(g, fb, k)[j][i] == fb[at]
  {
    hide Tx, Ty, Tw, Th, Total, Holds, At;
    TileRow(g, |fb|, g.width, 1, k, j);
  }

  lemma SourceCell(g: Grid, f: Source, k: nat, j: nat, i: nat, q: byte)
    requires Holds(g, |f.src|, f.stride, 4) && k < Total(g) && j < Th(g, k) && i < Tw(g, k)
    ensures var at := At(f.stride, Ty(g, k) + j) + 4 * (Tx(g, k) + i);
      && at + 4 <= |f.src| && i < |Shown(Rows(g, f.src, f.stride, 4, k), q)[j]|
      && Shown(Rows(g, f.src, f.stride, 4, k), q)[j][i] == Argb(PixelAt(f.src, at, q))
  {
    hide Tx, Ty, Tw, Th, Total, Holds, QuantiseChannel, Argb, At;
    TileRow(g, |f.src|, f.stride, 4, k, j);
  }

  /** The frame's own colour at (x, y). */
  ghost predicate PixelExact(g: Grid, fb: seq<u32>, f: Source, x: nat, y: nat) {
    var to, from := At(g.width, y) + x, At(f.stride, y) + 4 * x;
    to < |fb| && from + 4 <= |f.src| && fb[to] == Argb(Rgb(f.src[from + 2], f.src[from + 1], f.src[from]))
  }

  /** Where every tile is recorded lossless, the screen is the frame itself. */
  lemma LosslessIsExact(g: Grid, fb: seq<u32>, f: Source, tq: seq<byte>, x: nat, y: nat)
    requires Holds(g, |f.src|, f.stride, 4) && Agree(g, fb, Tiles(g, f.src, f.stride), tq) && x < g.width && y < g.height
    requires C.Lossless(tq)
    ensures PixelExact(g, fb, f, x, y)
  {
    hide Holds, Agree, Tiles, TileAt, Argb, At;
    PixelShown(g, fb, f, tq, x, y);
    var at := At(f.stride, y) + 4 * x;
    QuantiseNearest(f.src[at], 0, 0);
    QuantiseNearest(f.src[at + 1], 0, 0);
    QuantiseNearest(f.src[at + 2], 0, 0);
  }
}
