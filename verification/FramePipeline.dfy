/** One frame from pixels to message (host/server.cpp:873-890 with
    host/encoder.cpp:64-126), and every run of frames, size changes, quality changes and
    refreshes between one host and one viewer. */
module FramePipeline {
  import opened Bytes
  import opened Buffers
  import opened TileGrid
  import opened FrameEncode
  import opened EncodeJob
  import opened FrameMessage
  import opened Agreement
  import C = Claiming

  ghost function Datas(scratch: seq<RdBuf>): set<object>
    reads scratch
  {
    set i | 0 <= i < |scratch| :: scratch[i].data
  }

  ghost function Bufs(scratch: seq<RdBuf>): set<object> {
    set i | 0 <= i < |scratch| :: scratch[i]
  }

  /** The frame's sizes fit, the scratch buffers are empty, and nothing is shared. */
  ghost predicate Ready(g: Grid, src: seq<byte>, stride: nat, shadow: array<byte>, tileQ: array<byte>,
          scratch: seq<RdBuf>, msg: RdBuf)
    reads scratch, msg
  {
    && Holds(g, |src|, stride, 4) && Holds(g, shadow.Length, 4 * g.width, 4)
    && tileQ.Length == Total(g) && shadow != tileQ && |scratch| > 0
    && msg !in scratch && msg.data != shadow && msg.data != tileQ && msg.Valid()
    && (forall i :: 0 <= i < |scratch| ==> scratch[i].Valid() && scratch[i].len == 0)
    && (forall i :: 0 <= i < |scratch| ==>
          scratch[i].data != shadow && scratch[i].data != tileQ && scratch[i].data != msg.data)
    && (forall i, m :: 0 <= i < m < |scratch| ==> scratch[i] != scratch[m] && scratch[i].data != scratch[m].data)
  }

  ghost function Before(g: Grid, shadow: array<byte>, tileQ: array<byte>, workers: nat): C.State<Tile>
    requires Holds(g, shadow.Length, 4 * g.width, 4)
    reads shadow, tileQ
  {
    C.Start(Tiles(g, shadow[..], 4 * g.width), tileQ[..], workers)
  }

  ghost function Asks(g: Grid, src: seq<byte>, stride: nat, full: bool, quality: byte, budget: int): C.Job<Tile>
    requires Holds(g, |src|, stride, 4)
  {
    C.Job(Tiles(g, src, stride), full, quality, budget)
  }

  /** FrameEncoder::encode under any interleaving that lets all workers finish: appends the
      records, and leaves the shadow and the qualities as that encode leaves them. */
  method Encode(g: Grid, src: seq<byte>, stride: nat, full: bool, quality: byte, budget: int,
                shadow: array<byte>, tileQ: array<byte>, scratch: seq<RdBuf>, msg: RdBuf, schedule: seq<nat>)
    returns (tiles: nat, ghost rs: seq<Record>, ghost s: C.State<Tile>)
    requires Ready(g, src, stride, shadow, tileQ, scratch, msg)
    requires C.Shaped(Asks(g, src, stride, full, quality, budget), Before(g, shadow, tileQ, |scratch|))
    requires C.Finished(C.Run(Asks(g, src, stride, full, quality, budget), Before(g, shadow, tileQ, |scratch|), schedule))
    modifies shadow, tileQ, msg, msg.data, Bufs(scratch), Datas(scratch)
    ensures tiles == |rs| && msg.Valid() && msg.Contents() == old(msg.Contents()) + Flat(rs)
    ensures msg.data == old(msg.data) || fresh(msg.data)
    ensures C.Encoded(Asks(g, src, stride, full, quality, budget), old(Before(g, shadow, tileQ, |scratch|)), s)
    ensures Tiles(g, shadow[..], 4 * g.width) == s.shadow && tileQ[..] == s.tq
    ensures Match(g, src, stride, rs, C.Concat(s.out))
  {
    hide Total, Holds, Flat, Match, C.Run, C.Encoded, Tiles, C.Finished;
    var job := new Job(g, src, stride, full, quality, budget, shadow, tileQ, scratch);
    tiles, rs, s := Work(job, msg, schedule);
  }

  /** The pool runs the job, and the scratch buffers are gathered. */
  method Work(job: Job, msg: RdBuf, schedule: seq<nat>) returns (tiles: nat, ghost rs: seq<Record>, ghost s: C.State<Tile>)
    requires job.Valid() && C.Begun(job.Spec(), job.View()) && C.Finished(C.Run(job.Spec(), job.View(), schedule))
    requires msg.Valid() && msg !in job.scratch && msg.data !in job.Datas() && msg.data != job.shadow && msg.data != job.tileQ
    modifies job.Footprint(), msg, msg.data
    ensures tiles == |rs| && msg.Valid() && msg.Contents() == old(msg.Contents()) + Flat(rs)
    ensures msg.data == old(msg.data) || fresh(msg.data)
    ensures C.Encoded(job.Spec(), old(job.View()), s)
    ensures job.Shapes() && Tiles(job.g, job.shadow[..], 4 * job.g.width) == s.shadow && job.tileQ[..] == s.tq
    ensures Match(job.g, job.src, job.stride, rs, C.Concat(s.out))
  {
    hide Total, Holds, Flat, Match, C.Run, C.Encoded, Tiles, Filled;
    ghost var b := job.View();
    job.RunSchedule(schedule);
    s := job.View();
    C.EveryScheduleEncodes(job.Spec(), b, schedule);
    tiles, rs := job.Collect(msg);
  }

  /** The FRAME message of one encode: header, records, and the count patched in last. */
  method BuildFrame(g: Grid, src: seq<byte>, stride: nat, full: bool, quality: byte, budget: int,
                    shadow: array<byte>, tileQ: array<byte>, scratch: seq<RdBuf>, msg: RdBuf, id: u32, schedule: seq<nat>)
    returns (tiles: nat, ghost rs: seq<Record>, ghost s: C.State<Tile>)
    requires Ready(g, src, stride, shadow, tileQ, scratch, msg)
    requires C.Shaped(Asks(g, src, stride, full, quality, budget), Before(g, shadow, tileQ, |scratch|))
    requires C.Finished(C.Run(Asks(g, src, stride, full, quality, budget), Before(g, shadow, tileQ, |scratch|), schedule))
    modifies shadow, tileQ, msg, msg.data, Bufs(scratch), Datas(scratch)
    ensures tiles == |rs| && msg.Valid() && msg.Contents() == FrameBytes(id, FlagsOf(full), rs)
    ensures C.Encoded(Asks(g, src, stride, full, quality, budget), old(Before(g, shadow, tileQ, |scratch|)), s)
    ensures Tiles(g, shadow[..], 4 * g.width) == s.shadow && tileQ[..] == s.tq
    ensures Match(g, src, stride, rs, C.Concat(s.out))
  {
    hide Total, Holds, Flat, Match, C.Run, C.Encoded, Tiles, C.Finished, Head, Asks, Before, C.Shaped;
    var countAt := BeginFrame(msg, id, FlagsOf(full));
    tiles, rs, s := Encode(g, src, stride, full, quality, budget, shadow, tileQ, scratch, msg, schedule);
    PatchCount(msg, countAt, tiles, id, FlagsOf(full), rs);
  }

  function FlagsOf(full: bool): byte {
    if full then FRAME_FULL else 0
  }

  /** The flag of a message is 1 for a full frame and 0 for any other. */
  lemma FullIsFlagged(id: u32, full: bool, rs: seq<Record>)
    ensures FrameBytes(id, FlagsOf(full), rs)[0] == 67 && FrameBytes(id, FlagsOf(full), rs)[5] == if full then 1 else 0
  {
    hide LeBytes, Flat;
  }
}
