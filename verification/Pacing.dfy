/** Frame pacing, acknowledgements and automatic quality of one viewer
    (host/server.cpp:665-708, 845-916): the fields are changed in place by the messages
    and by the frame pump; runs of those changes keep the flow control exact. */
module Pacing {
  import opened Bytes
  import Arith

  const WRAP := 0x1_0000_0000
  const HALF := 0x8000_0000
  const SECOND := 1000000
  const MAX_FRAMES_IN_FLIGHT := 2
  const MAX_PENDING_OUT := 0x80_0000
  const AUTO := 255

  /** The pacing fields of a connection.  `issued` and `confirmed` count frames and
      acknowledged frames without wrapping. */
  datatype Pace = Pace(setting: int, quality: int, fps: int, effFps: int, lossy: nat, lastChange: nat, lastSeq: nat,
                       lastFrame: nat, needFull: bool, width: nat, height: nat, frameId: u32, acked: u32,
                       stalls: nat, sends: nat, clean: nat, window: nat, issued: nat, confirmed: nat)

  // -------------------------------------------------------- acknowledgements

  /** int32_t of a 32-bit difference. */
  function Signed(d: int): int {
    var u := d % WRAP;
    if u < HALF then u else u - WRAP
  }

  predicate Accepts(p: Pace, id: u32) {
    Signed(id - p.acked) > 0 && Signed(id - p.frameId) <= 0
  }

  function OnAck(p: Pace, id: u32): Pace {
    if Accepts(p, id) then p.(acked := id, confirmed := p.confirmed + (id - p.acked) % WRAP) else p
  }

  function InFlight(p: Pace): nat {
    (p.frameId - p.acked) % WRAP
  }

  // ------------------------------------------------------------------ frames

  datatype Frame = Frame(width: nat, height: nat, seqNo: nat)

  /** What came of a captured frame: nothing yet, or an encode and perhaps a message. */
  datatype Outcome = Skipped | Encoded(full: bool, budget: nat, sent: Option<u32>)

  /** The size check, and when the picture last changed. */
  function Noticed(p: Pace, f: Frame, now: nat): Pace {
    var q := if f.width != p.width || f.height != p.height
             then p.(width := f.width, height := f.height, lossy := 0, needFull := true) else p;
    if f.seqNo != p.lastSeq then q.(lastChange := now) else q
  }

  predicate Refines(p: Pace) {
    p.setting == AUTO && p.lossy > 0
  }

  predicate Settled(p: Pace, now: nat) {
    now - p.lastChange > 250000
  }

  predicate Due(p: Pace, changed: bool, now: nat) {
    && (changed || p.needFull || (Refines(p) && Settled(p, now)))
    && now - p.lastFrame >= SECOND / Max(1, Min(p.fps, p.effFps))
  }

  predicate Blocked(p: Pace, pending: nat) {
    InFlight(p) >= MAX_FRAMES_IN_FLIGHT || pending > MAX_PENDING_OUT
  }

  function Budget(p: Pace, now: nat): nat {
    if !Refines(p) then 0 else if Settled(p, now) then 400 else 12
  }

  /** maybe_send_frame; `tiles` and `lossy` are what the encode gives. */
  function OnFrame(p: Pace, f: Frame, now: nat, pending: nat, tiles: nat, lossy: nat): (Pace, Outcome) {
    var changed := f.seqNo != p.lastSeq;
    var q := Noticed(p, f, now);
    if !Due(q, changed, now) then (q, Skipped)
    else if Blocked(q, pending) then
      (if pending > 0 && changed then q.(stalls := q.stalls + 1) else q, Skipped)
    else
      var (e, sent) := Issued(q, f, now, changed, tiles, lossy);
      (e, Encoded(q.needFull, Budget(q, now), sent))
  }

  /** The state after an encode, and the id of the message if there is one. */
  function Issued(q: Pace, f: Frame, now: nat, changed: bool, tiles: nat, lossy: nat): (Pace, Option<u32>) {
    var e := q.(lastSeq := f.seqNo, needFull := false, lossy := lossy);
    if tiles == 0 then (e, None)
    else (Sent(e, now, changed), Some(Sent(e, now, changed).frameId))
  }

  function Sent(e: Pace, now: nat, changed: bool): Pace {
    e.(frameId := (e.frameId + 1) % WRAP, issued := e.issued + 1, lastFrame := now,
       sends := if changed then e.sends + 1 else e.sends)
  }

  // ------------------------------------------------------- automatic quality

  predicate Congested(p: Pace) {
    p.stalls > 2 && p.stalls * 2 > p.sends
  }

  function Slower(p: Pace): Pace {
    if p.effFps > 10 then p.(effFps := Max(10, p.effFps / 2))
    else if p.setting == AUTO && p.quality < 2 then p.(quality := p.quality + 1)
    else p
  }

  function Better(p: Pace): Pace {
    if p.setting == AUTO && p.quality > 0 then p.(quality := p.quality - 1)
    else if p.effFps < p.fps then p.(effFps := Min(p.fps, p.effFps * 2))
    else p
  }

  /** adapt_quality. */
  function Adapt(p: Pace, now: nat): Pace {
    if now - p.window < SECOND then p
    else
      Adjusted(p).(stalls := 0, sends := 0, window := now)
  }

  function Adjusted(p: Pace): Pace {
    if Congested(p) then Slower(p.(clean := 0))
    else if p.stalls != 0 then p.(clean := 0)
    else if p.clean + 1 >= 2 then Better(p.(clean := 0))
    else p.(clean := p.clean + 1)
  }

  function OnSettings(p: Pace, q: byte, fps: byte, maxFps: int): Pace {
    var setting := if q <= 3 || q == AUTO then q as int else AUTO;
    var rate := Max(1, Min(maxFps, fps));
    p.(setting := setting, quality := if setting != AUTO then setting else p.quality, fps := rate, effFps := rate)
  }

  function Start(maxFps: int, now: nat): Pace {
    Pace(AUTO, 0, maxFps, maxFps, 0, 0, 0, 0, true, 0, 0, 0, 0, 0, 0, 0, now, 0, 0)
  }

  // -------------------------------------------------------------------- runs

  datatype Event =
    | Ack(id: u32)
    | Pump(f: Frame, now: nat, pending: nat, tiles: nat, lossy: nat)
    | Window(now: nat)
    | Settings(q: byte, fps: byte)
    | Refresh

  function Step(p: Pace, e: Event, maxFps: int): Pace {
    match e
    case Ack(id) => OnAck(p, id)
    case Pump(f, now, pending, tiles, lossy) => OnFrame(p, f, now, pending, tiles, lossy).0
    case Window(now) => Adapt(p, now)
    case Settings(q, fps) => OnSettings(p, q, fps, maxFps)
    case Refresh => p.(needFull := true)
  }

  function Run(maxFps: int, start: nat, es: seq<Event>): Pace {
    if es == [] then Start(maxFps, start) else Step(Run(maxFps, start, es[..|es| - 1]), es[|es| - 1], maxFps)
  }

  ghost predicate Inv(p: Pace) {
    && p.frameId == p.issued % WRAP && p.acked == p.confirmed % WRAP
    && p.confirmed <= p.issued <= p.confirmed + MAX_FRAMES_IN_FLIGHT
    && 0 <= p.quality <= 3 && 1 <= p.effFps <= p.fps && p.clean <= 1
  }

  /** The wrapped difference of two counters at most two apart. */
  lemma WrappedGap(a: nat, b: nat)
    requires b <= a <= b + MAX_FRAMES_IN_FLIGHT
    ensures (a % WRAP - b % WRAP) % WRAP == a - b
  {
    var qa, qb := a / WRAP, b / WRAP;
    assert a == WRAP * qa + a % WRAP && b == WRAP * qb + b % WRAP;
    assert qa == qb || qa == qb + 1;
  }

  /** Of arbitrary, stale, doubled or invented ids, exactly those of frames in flight are
      taken. */
  lemma AcceptsInFlight(p: Pace, id: u32)
    requires Inv(p)
    ensures InFlight(p) == p.issued - p.confirmed <= MAX_FRAMES_IN_FLIGHT
    ensures Accepts(p, id) <==> 1 <= (id - p.acked) % WRAP <= InFlight(p)
    ensures Accepts(p, id) <==> exists n :: p.confirmed < n <= p.issued && id == n % WRAP
  {
    WrappedGap(p.issued, p.confirmed);
    var d := (id - p.acked) % WRAP;
    SignedGaps(id, p.acked, p.frameId);
    if Accepts(p, id) {
      Named(p.confirmed, d, id);
      assert p.confirmed < p.confirmed + d <= p.issued;
    }
    if n :| p.confirmed < n <= p.issued && id == n % WRAP {
      WrappedGap(n, p.confirmed);
    }
  }

  lemma SignedGaps(id: u32, acked: u32, frame: u32)
    requires (frame - acked) % WRAP <= MAX_FRAMES_IN_FLIGHT
    ensures Signed(id - acked) > 0 && Signed(id - frame) <= 0 <==> 1 <= (id - acked) % WRAP <= (frame - acked) % WRAP
  {
  }

  lemma Named(confirmed: nat, d: nat, id: u32)
    requires d == (id - confirmed % WRAP) % WRAP
    ensures (confirmed + d) % WRAP == id
  {
  }

  lemma AckKeeps(p: Pace, id: u32)
    requires Inv(p)
    ensures Inv(OnAck(p, id)) && OnAck(p, id).confirmed >= p.confirmed && OnAck(p, id).issued == p.issued
  {
    AcceptsInFlight(p, id);
    if Accepts(p, id) { Named(p.confirmed, (id - p.acked) % WRAP, id); }
  }

  lemma PumpKeeps(p: Pace, f: Frame, now: nat, pending: nat, tiles: nat, lossy: nat)
    requires Inv(p)
    ensures var q := OnFrame(p, f, now, pending, tiles, lossy).0; Inv(q) && q.confirmed == p.confirmed && q.issued >= p.issued
  {
    WrappedGap(p.issued, p.confirmed);
    NextId(p.issued);
  }

  lemma NextId(n: nat)
    ensures (n % WRAP + 1) % WRAP == (n + 1) % WRAP
  {
  }

  lemma StepKeeps(p: Pace, e: Event, maxFps: int)
    requires Inv(p) && maxFps >= 1
    ensures Inv(Step(p, e, maxFps)) && p.confirmed <= Step(p, e, maxFps).confirmed && p.issued <= Step(p, e, maxFps).issued
  {
    hide Inv, OnAck, OnFrame, Adapt, OnSettings;
    match e
    case Ack(id) => AckKeeps(p, id);
    case Pump(f, now, pending, tiles, lossy) => PumpKeeps(p, f, now, pending, tiles, lossy);
    case Window(now) => AdaptKeeps(p, now);
    case Settings(q, fps) => SettingsKeep(p, q, fps, maxFps);
    case Refresh => RefreshKeeps(p);
  }

  lemma AdaptKeeps(p: Pace, now: nat)
    requires Inv(p)
    ensures Inv(Adapt(p, now)) && Adapt(p, now).confirmed == p.confirmed && Adapt(p, now).issued == p.issued
  {
  }

  lemma SettingsKeep(p: Pace, q: byte, fps: byte, maxFps: int)
    requires Inv(p) && maxFps >= 1
    ensures var n := OnSettings(p, q, fps, maxFps); Inv(n) && n.confirmed == p.confirmed && n.issued == p.issued
  {
  }

  lemma RefreshKeeps(p: Pace)
    requires Inv(p)
    ensures Inv(p.(needFull := true))
  {
  }

  /** In every run the frames in flight, modulo 2^32, are never more than two, and the
      acknowledged count never falls and never passes the sent count. */
  lemma {:induction false} FlowControlled(maxFps: int, start: nat, es: seq<Event>)
    requires maxFps >= 1
    ensures Inv(Run(maxFps, start, es)) && InFlight(Run(maxFps, start, es)) <= 2
    ensures es != [] ==> Run(maxFps, start, es[..|es| - 1]).confirmed <= Run(maxFps, start, es).confirmed
  {
    hide Step;
    if es != [] {
      FlowControlled(maxFps, start, es[..|es| - 1]);
      StepKeeps(Run(maxFps, start, es[..|es| - 1]), es[|es| - 1], maxFps);
    }
    var p := Run(maxFps, start, es);
    WrappedGap(p.issued, p.confirmed);
  }

  /** A frame goes out only with fewer than two in flight, under the next id; it is full
      exactly when one was owed, and then none is; lossy tiles are refined exactly in
      automatic mode, never at a fixed quality. */
  lemma FrameSent(p: Pace, f: Frame, now: nat, pending: nat, tiles: nat, lossy: nat)
    requires Inv(p)
    ensures var (q, o) := OnFrame(p, f, now, pending, tiles, lossy);
      && (o.Encoded? ==> p.issued - p.confirmed < MAX_FRAMES_IN_FLIGHT && pending <= MAX_PENDING_OUT && !q.needFull)
      && (o.Encoded? ==> (o.full <==> p.needFull || f.width != p.width || f.height != p.height))
      && (o.Encoded? && o.sent.Some? <==> q.issued == p.issued + 1)
      && (o.Encoded? && o.sent.Some? ==> o.sent.value == (p.issued + 1) % WRAP && InFlight(q) == InFlight(p) + 1)
      && (o.Encoded? ==>
            (o.budget > 0 <==> p.setting == AUTO && p.lossy > 0 && f.width == p.width && f.height == p.height))
      && (o == Skipped ==> q.issued == p.issued && (p.needFull ==> q.needFull))
  {
    WrappedGap(p.issued, p.confirmed);
    NextId(p.issued);
    var q := OnFrame(p, f, now, pending, tiles, lossy).0;
    PumpKeeps(p, f, now, pending, tiles, lossy);
    WrappedGap(q.issued, q.confirmed);
  }

  // ----------------------------------------------------------------- spacing

  /** The frames a second in force. */
  function Rate(p: Pace): nat {
    Max(1, Min(p.fps, p.effFps))
  }

  /** A message sent: when, and at what rate. */
  datatype Sending = Sending(at: nat, rate: nat)

  /** All messages of a run, in order. */
  function Sendings(maxFps: int, start: nat, es: seq<Event>): seq<Sending> {
    if es == [] then []
    else
      var before, e := es[..|es| - 1], es[|es| - 1];
      Sendings(maxFps, start, before) + SendingOf(Run(maxFps, start, before), e)
  }

  function SendingOf(p: Pace, e: Event): seq<Sending> {
    match e
    case Pump(f, now, pending, tiles, lossy) =>
      var o := OnFrame(p, f, now, pending, tiles, lossy).1;
      if o.Encoded? && o.sent.Some? then [Sending(now, Rate(p))] else []
    case _ => []
  }

  /** A message goes out only a whole period after the last one, and is the last one then. */
  lemma SendingStep(p: Pace, e: Event, maxFps: int)
    requires p.fps <= maxFps && maxFps >= 1
    ensures var q, s := Step(p, e, maxFps), SendingOf(p, e);
      && q.fps <= maxFps && |s| <= 1
      && (s == [] ==> q.lastFrame == p.lastFrame)
      && (s != [] ==> q.lastFrame == s[0].at && s[0].at - p.lastFrame >= SECOND / s[0].rate && 1 <= s[0].rate <= maxFps)
  {
  }

  /** The times of the messages of a run: each is at least the period of its own rate after
      the one before, and no rate is above the host's maximum. */
  ghost predicate Apart(s: seq<Sending>, maxFps: int) {
    && (forall k :: 0 <= k < |s| ==> 1 <= s[k].rate <= maxFps)
    && forall k :: 0 < k < |s| ==> s[k].at - s[k - 1].at >= SECOND / s[k].rate
  }

  lemma ApartMore(s: seq<Sending>, more: seq<Sending>, maxFps: int)
    requires Apart(s, maxFps) && |more| <= 1
    requires more != [] ==> 1 <= more[0].rate <= maxFps
    requires more != [] && s != [] ==> more[0].at - s[|s| - 1].at >= SECOND / more[0].rate
    ensures Apart(s + more, maxFps)
  {
    var t := s + more;
    forall k | 0 < k < |t| ensures t[k].at - t[k - 1].at >= SECOND / t[k].rate {
      if k < |s| { assert s[k].at - s[k - 1].at >= SECOND / s[k].rate; }
    }
  }

  lemma NoSendings(maxFps: int)
    ensures Apart([], maxFps)
  {
  }

  lemma {:induction false} SendsApart(maxFps: int, start: nat, es: seq<Event>)
    requires maxFps >= 1
    ensures var s, p := Sendings(maxFps, start, es), Run(maxFps, start, es);
      Apart(s, maxFps) && p.fps <= maxFps && (s != [] ==> p.lastFrame == s[|s| - 1].at)
  {
    hide Step, SendingOf, Apart;
    if es == [] {
      NoSendings(maxFps);
    } else {
      var before, e := es[..|es| - 1], es[|es| - 1];
      SendsApart(maxFps, start, before);
      SendingStep(Run(maxFps, start, before), e, maxFps);
      ApartMore(Sendings(maxFps, start, before), SendingOf(Run(maxFps, start, before), e), maxFps);
    }
  }

  /** In every run, whatever is asked for and acknowledged: from one message to the n-th
      after it pass at least n times one second / max_fps. */
  lemma {:induction false} SendsSpan(maxFps: int, start: nat, es: seq<Event>, i: nat, j: nat)
    requires maxFps >= 1 && i <= j < |Sendings(maxFps, start, es)|
    ensures var s := Sendings(maxFps, start, es);
      s[j].at - s[i].at >= (j - i) * (SECOND / maxFps)
    decreases j - i
  {
    hide Sendings;
    if i < j {
      SendsApart(maxFps, start, es);
      SendsSpan(maxFps, start, es, i, j - 1);
      var s := Sendings(maxFps, start, es);
      PeriodAtLeast(s[j].rate, maxFps);
      assert (j - i) * (SECOND / maxFps) == (j - 1 - i) * (SECOND / maxFps) + SECOND / maxFps;
    }
  }

  lemma PeriodAtLeast(rate: nat, maxFps: int)
    requires 1 <= rate <= maxFps
    ensures SECOND / rate >= SECOND / maxFps
  {
    var a, b := SECOND / rate, SECOND / maxFps;
    if a < b { Arith.MulMono(rate, a + 1, b); Arith.MulMono(b, rate, maxFps); Arith.MulDist(rate, a, 1); }
  }

  // -------------------------------------------------------------- congestion

  /** A congested window costs frame rate first, by half but not below 10 a second, and
      colour only when the rate is that low already, and then only in automatic mode and
      not beyond the second level. */
  lemma CongestionSlowsFirst(p: Pace, now: nat)
    requires Inv(p) && now - p.window >= SECOND && Congested(p)
    ensures var q := Adapt(p, now);
      && Inv(q) && q.clean == 0
      && (p.effFps > 10 ==> q.quality == p.quality && 10 <= q.effFps < p.effFps && p.effFps <= 2 * q.effFps + 1)
      && (p.effFps <= 10 ==> q.effFps == p.effFps)
      && (q.quality != p.quality <==> p.effFps <= 10 && p.setting == AUTO && p.quality < 2)
      && (q.quality != p.quality ==> q.quality == p.quality + 1)
  {
  }

  /** Halvings of the rate until it is 10 a second or less. */
  function Halvings(e: int): nat {
    if e <= 10 then 0 else 1 + Halvings(Max(10, e / 2))
  }

  /** What a window counted: frames held back, and frames sent. */
  datatype Jam = Jam(stalls: nat, sends: nat)

  predicate Jams(j: Jam) {
    j.stalls > 2 && j.stalls * 2 > j.sends
  }

  /** Congested windows in a row. */
  function Jammed(p: Pace, jams: seq<Jam>): Pace {
    if jams == [] then p
    else
      var q, j := Jammed(p, jams[..|jams| - 1]), jams[|jams| - 1];
      Adapt(q.(stalls := j.stalls, sends := j.sends), q.window + SECOND)
  }

  lemma JamStep(p: Pace, j: Jam)
    requires Inv(p) && Jams(j)
    ensures var q := Adapt(p.(stalls := j.stalls, sends := j.sends), p.window + SECOND);
      && Inv(q) && q.setting == p.setting
      && Halvings(q.effFps) == Max(0, Halvings(p.effFps) - 1)
      && (p.effFps > 10 ==> q.quality == p.quality)
      && (p.effFps <= 10 ==> q.quality == if p.setting == AUTO && p.quality < 2 then p.quality + 1 else p.quality)
  {
    CongestionSlowsFirst(p.(stalls := j.stalls, sends := j.sends), p.window + SECOND);
  }

  /** However long the congestion lasts: each window halves the rate until it is at the
      floor, and only the windows after that cost colour, one level each up to the second,
      in automatic mode alone. */
  lemma {:induction false} JamsSlowFirst(p: Pace, jams: seq<Jam>)
    requires Inv(p) && forall i :: 0 <= i < |jams| ==> Jams(jams[i])
    ensures var q := Jammed(p, jams);
      && Inv(q) && q.setting == p.setting
      && Halvings(q.effFps) == Max(0, Halvings(p.effFps) - |jams|)
      && q.quality == if p.setting == AUTO && p.quality < 2
                      then Min(2, p.quality + Max(0, |jams| - Halvings(p.effFps))) else p.quality
  {
    hide Adapt, Inv;
    if jams != [] {
      var n := |jams| - 1;
      JamsSlowFirst(p, jams[..n]);
      JamStep(Jammed(p, jams[..n]), jams[n]);
    }
  }

  // ------------------------------------------------------------- convergence

  /** Doublings from `e` frames a second to `f`. */
  function Doublings(e: int, f: int): nat
    requires e >= 1
    decreases f - e
  {
    if e >= f then 0 else 1 + Doublings(Min(f, 2 * e), f)
  }

  /** Colour steps first, then doublings: what is still missing. */
  function Missing(p: Pace): nat
    requires Inv(p)
  {
    (if p.setting == AUTO then p.quality else 0) + Doublings(p.effFps, p.fps)
  }

  predicate Restored(p: Pace) {
    (p.setting == AUTO ==> p.quality == 0) && p.effFps == p.fps
  }

  /** `n` windows in a row in which nothing stalled; `sends` may be anything. */
  function Smooth(p: Pace, sends: seq<nat>): Pace {
    if sends == [] then p
    else
      var q := Smooth(p, sends[..|sends| - 1]);
      Adapt(q.(stalls := 0, sends := sends[|sends| - 1]), q.window + SECOND)
  }

  /** Every second smooth window puts one thing right, colour before frame rate. */
  lemma SmoothWindow(p: Pace, sends: nat)
    requires Inv(p)
    ensures var q := Adapt(p.(stalls := 0, sends := sends), p.window + SECOND);
      && Inv(q) && q.setting == p.setting && q.fps == p.fps
      && 2 * Missing(q) - q.clean == (if Missing(p) == 0 && p.clean == 1 then 0 else 2 * Missing(p) - p.clean - 1)
      && q.quality <= p.quality && q.effFps >= p.effFps
      && (p.setting == AUTO && p.quality > 0 ==> q.effFps == p.effFps)
  {
  }

  /** Smooth windows still needed: two for each missing step, less one already seen. */
  function Needed(p: Pace): int
    requires Inv(p)
  {
    2 * Missing(p) - p.clean
  }

  lemma NothingNeeded(p: Pace)
    requires Inv(p)
    ensures Needed(p) <= 0 <==> Restored(p)
  {
  }

  /** After that many windows without a stall the viewer is lossless, when automatic, and
      at its full rate, and it stays so. */
  lemma {:induction false} SmoothRestores(p: Pace, sends: seq<nat>)
    requires Inv(p)
    ensures Inv(Smooth(p, sends)) && Needed(Smooth(p, sends)) <= Max(0, Needed(p) - |sends|)
    ensures |sends| >= Needed(p) ==> Restored(Smooth(p, sends))
  {
    hide Adapt, Inv;
    if sends != [] {
      var n := |sends| - 1;
      SmoothRestores(p, sends[..n]);
      SmoothWindow(Smooth(p, sends[..n]), sends[n]);
      MissingNone(Smooth(p, sends[..n]));
    }
    NothingNeeded(Smooth(p, sends));
  }

  lemma MissingNone(p: Pace)
    requires Inv(p)
    ensures p.clean <= 1
  {
  }

  lemma {:induction false} DoublingsBound(e: int, f: int, n: nat)
    requires e >= 1 && f <= e * Pow2(n)
    ensures Doublings(e, f) <= n
    decreases n
  {
    if n > 0 && e < f {
      assert 2 * e * Pow2(n - 1) == e * Pow2(n);
      if f <= 2 * e {
        assert Doublings(f, f) == 0;
      } else {
        DoublingsBound(2 * e, f, n - 1);
      }
    }
  }

  /** At up to 60 frames a second, eighteen smooth windows are always enough. */
  lemma EighteenSuffice(p: Pace, sends: seq<nat>)
    requires Inv(p) && p.fps <= 60 && |sends| >= 18
    ensures Restored(Smooth(p, sends))
  {
    assert Pow2(6) == 64;
    DoublingsBound(p.effFps, p.fps, 6);
    SmoothRestores(p, sends);
  }

  // ------------------------------------------------------- the fields in place

  class ServerConn {
    var setting: int
    var quality: int
    var fps: int
    var effFps: int
    var lossy: nat
    var lastChange: nat
    var lastSeq: nat
    var lastFrame: nat
    var needFull: bool
    var width: nat
    var height: nat
    var frameId: u32
    var acked: u32
    var stalls: nat
    var sends: nat
    var clean: nat
    var window: nat
    ghost var issued: nat
    ghost var confirmed: nat

    ghost function View(): Pace
      reads this
    {
      Pace(setting, quality, fps, effFps, lossy, lastChange, lastSeq, lastFrame, needFull, width, height, frameId, acked,
           stalls, sends, clean, window, issued, confirmed)
    }

    /** on_authenticated. */
    constructor (maxFps: int, now: nat)
      requires maxFps >= 1
      ensures View() == Start(maxFps, now) && Inv(View())
    {
      setting, quality, fps, effFps, lossy := AUTO, 0, maxFps, maxFps, 0;
      lastChange, lastSeq, lastFrame, needFull, width, height := 0, 0, 0, true, 0, 0;
      frameId, acked, stalls, sends, clean, window := 0, 0, 0, 0, 0, now;
      issued, confirmed := 0, 0;
    }

    method HandleAck(id: u32)
      requires Inv(View())
      modifies this`acked, this`confirmed
      ensures View() == OnAck(old(View()), id) && Inv(View())
    {
      AckKeeps(View(), id);
      if Signed(id - acked) > 0 && Signed(id - frameId) <= 0 {
        confirmed := confirmed + (id - acked) % WRAP;
        acked := id;
      }
    }

    method HandleSettings(q: byte, rate: byte, maxFps: int)
      requires Inv(View()) && maxFps >= 1
      modifies this`setting, this`quality, this`fps, this`effFps
      ensures View() == OnSettings(old(View()), q, rate, maxFps) && Inv(View())
    {
      setting := if q <= 3 || q == AUTO then q as int else AUTO;
      if setting != AUTO { quality := setting; }
      fps := Max(1, Min(maxFps, rate));
      effFps := fps;
    }

    /** The size check of maybe_send_frame, and when the picture changed. */
    method Notice(f: Frame, now: nat) returns (changed: bool)
      modifies this`width, this`height, this`lossy, this`needFull, this`lastChange
      ensures View() == Noticed(old(View()), f, now) && changed == (f.seqNo != lastSeq)
    {
      if f.width != width || f.height != height {
        width, height, lossy, needFull := f.width, f.height, 0, true;
      }
      changed := f.seqNo != lastSeq;
      if changed { lastChange := now; }
    }

    /** What follows an encode that gave `tiles` records. */
    method Issue(f: Frame, now: nat, changed: bool, tiles: nat, stillLossy: nat) returns (sent: Option<u32>)
      modifies this`lastSeq, this`needFull, this`lossy, this`frameId, this`issued, this`lastFrame, this`sends
      ensures (View(), sent) == Issued(old(View()), f, now, changed, tiles, stillLossy)
    {
      lastSeq, needFull, lossy := f.seqNo, false, stillLossy;
      if tiles == 0 { return None; }
      Send(now, changed);
      sent := Some(frameId);
    }

    method Send(now: nat, changed: bool)
      modifies this`frameId, this`issued, this`lastFrame, this`sends
      ensures View() == Sent(old(View()), now, changed)
    {
      frameId := (frameId as int + 1) % WRAP;
      issued := issued + 1;
      lastFrame := now;
      if changed { sends := sends + 1; }
    }

    /** adapt_quality. */
    method AdaptQuality(now: nat)
      requires Inv(View())
      modifies this`quality, this`effFps, this`stalls, this`sends, this`clean, this`window
      ensures View() == Adapt(old(View()), now) && Inv(View())
    {
      hide Inv;
      AdaptKeeps(View(), now);
      if now - window < SECOND { return; }
      Adjust();
      stalls, sends, window := 0, 0, now;
    }

    method Adjust()
      modifies this`quality, this`effFps, this`clean
      ensures View() == Adjusted(old(View()))
    {
      if stalls > 2 && stalls * 2 > sends {
        clean := 0;
        if effFps > 10 {
          effFps := Max(10, effFps / 2);
        } else if setting == AUTO && quality < 2 {
          quality := quality + 1;
        }
      } else if stalls == 0 {
        clean := clean + 1;
        if clean >= 2 {
          clean := 0;
          Improve();
        }
      } else {
        clean := 0;
      }
    }

    method Improve()
      modifies this`quality, this`effFps
      ensures View() == Better(old(View()))
    {
      if setting == AUTO && quality > 0 {
        quality := quality - 1;
      } else if effFps < fps {
        effFps := Min(fps, effFps * 2);
      }
    }
  }
}
