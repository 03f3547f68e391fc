/** FrameEncoder::encode (host/encoder.cpp:64-126): workers over shared counters, each
    with its own scratch buffer.  A step of a worker is one claim or one tile, so any
    order of calls to Step is an interleaving; the steps are those of Claiming. */
module EncodeJob {
  import opened Bytes
  import opened Buffers
  import opened TileGrid
  import opened FrameEncode
  import C = Claiming

  type Tile = seq<seq<byte>>

  function Tiles(g: Grid, img: seq<byte>, stride: nat): (ts: seq<Tile>)
    requires Holds(g, |img|, stride, 4)
    ensures |ts| == Total(g)
  {
    hide *;
    seq(Total(g), k requires 0 <= k < Total(g) => Rows(g, img, stride, 4, k))
  }

  function Flat(rs: seq<Record>): seq<byte> {
    if rs == [] then [] else Flat(rs[..|rs| - 1]) + RecordBytes(rs[|rs| - 1])
  }

  lemma FlatMore(rs: seq<Record>, r: Record)
    ensures Flat(rs + [r]) == Flat(rs) + RecordBytes(r)
  {
    hide RecordBytes;
    assert (rs + [r])[..|rs|] == rs;
  }

  /** Records, one for each emission. */
  ghost predicate Match(g: Grid, src: seq<byte>, stride: nat, rs: seq<Record>, es: seq<C.Emit>) {
    && Holds(g, |src|, stride, 4)
    && |rs| == |es|
    && forall m :: 0 <= m < |rs| ==> es[m].k < Total(g) && RecordOf(rs[m], g, src, stride, es[m].k, es[m].q)
  }

  /** A worker's buffer holds its records. */
  ghost predicate Filled(b: RdBuf, g: Grid, src: seq<byte>, stride: nat, rs: seq<Record>, es: seq<C.Emit>)
    reads b, b.data
  {
    b.Valid() && b.Contents() == Flat(rs) && Match(g, src, stride, rs, es)
  }

  method AppendTile(g: Grid, src: seq<byte>, stride: nat, k: nat, q: byte, b: RdBuf, ghost rs: seq<Record>,
          ghost es: seq<C.Emit>)
    returns (ghost r: Record)
    requires Filled(b, g, src, stride, rs, es) && k < Total(g)
    modifies b, b.data
    ensures Filled(b, g, src, stride, rs + [r], es + [C.Emit(k, q)])
    ensures b.data == old(b.data) || fresh(b.data)
  {
    hide Holds, Total, Match, Flat, RecordOf, RecordBytes;
    MatchHolds(g, src, stride, rs, es);
    r := AppendRecord(g, src, stride, k, q, b);
    MatchMore(g, src, stride, rs, es, r, C.Emit(k, q));
    FlatMore(rs, r);
  }

  lemma MatchHolds(g: Grid, src: seq<byte>, stride: nat, rs: seq<Record>, es: seq<C.Emit>)
    requires Match(g, src, stride, rs, es)
    ensures Holds(g, |src|, stride, 4)
  {
  }

  class Job {
    const g: Grid
    const src: seq<byte>
    const stride: nat
    const full: bool
    const quality: byte
    const budget: int
    const shadow: array<byte>
    const tileQ: array<byte>
    const scratch: seq<RdBuf>
    /** The two atomic counters, where each worker is, and how many tiles it has put out. */
    var next: nat
    var asked: nat
    var pos: seq<C.Pos>
    var tiles: seq<nat>
    ghost var claims: seq<nat>
    ghost var out: seq<seq<C.Emit>>
    ghost var records: seq<seq<Record>>

    ghost predicate Shapes()
    {
      && Holds(g, |src|, stride, 4) && Holds(g, shadow.Length, 4 * g.width, 4)
      && tileQ.Length == Total(g) && shadow != tileQ && |scratch| > 0
    }

    /** No two workers share a buffer. */
    ghost predicate Apart()
      reads scratch
    {
      && (forall i :: 0 <= i < |scratch| ==> scratch[i].data != shadow && scratch[i].data != tileQ)
      && (forall i, m :: 0 <= i < m < |scratch| ==> scratch[i] != scratch[m] && scratch[i].data != scratch[m].data)
    }

    ghost function Datas(): set<object>
      reads scratch
    {
      set i | 0 <= i < |scratch| :: scratch[i].data
    }

    ghost predicate Valid()
      reads this, shadow, tileQ, scratch, Datas()
    {
      && Shapes() && Apart()
      && |pos| == |scratch| == |records| == |out| == |tiles|
      && (forall i :: 0 <= i < |tiles| ==> tiles[i] == |records[i]|)
      && forall i :: 0 <= i < |scratch| ==> Filled(scratch[i], g, src, stride, records[i], out[i])
    }

    ghost function Spec(): C.Job<Tile>
      requires Shapes()
    {
      C.Job(Tiles(g, src, stride), full, quality, budget)
    }

    ghost function View(): C.State<Tile>
      requires Shapes()
      reads this, shadow, tileQ
    {
      C.State(next, asked, Tiles(g, shadow[..], 4 * g.width), tileQ[..], pos, out, claims)
    }

    constructor (g: Grid, src: seq<byte>, stride: nat, full: bool, quality: byte, budget: int,
                 shadow: array<byte>, tileQ: array<byte>, scratch: seq<RdBuf>)
      requires Holds(g, |src|, stride, 4) && Holds(g, shadow.Length, 4 * g.width, 4)
      requires tileQ.Length == Total(g) && shadow != tileQ && |scratch| > 0
      requires forall i :: 0 <= i < |scratch| ==> scratch[i].Valid() && scratch[i].len == 0
      requires forall i :: 0 <= i < |scratch| ==> scratch[i].data != shadow && scratch[i].data != tileQ
      requires forall i, m :: 0 <= i < m < |scratch| ==> scratch[i] != scratch[m] && scratch[i].data != scratch[m].data
      ensures Valid() && View() == C.Start(Tiles(g, shadow[..], 4 * g.width), tileQ[..], |scratch|)
      ensures Spec() == C.Job(Tiles(g, src, stride), full, quality, budget)
      ensures this.scratch == scratch && this.shadow == shadow && this.tileQ == tileQ
      ensures this.g == g && this.src == src && this.stride == stride
    {
      this.g, this.src, this.stride, this.full, this.quality, this.budget := g, src, stride, full, quality, budget;
      this.shadow, this.tileQ, this.scratch := shadow, tileQ, scratch;
      next, asked, claims := 0, 0, [];
      pos := seq(|scratch|, _ => C.Idle);
      out, records, tiles := seq(|scratch|, _ => []), seq(|scratch|, _ => []), seq(|scratch|, _ => 0);
      new;
      assert forall i :: 0 <= i < |scratch| ==> Filled(scratch[i], g, src, stride, records[i], out[i]);
    }

    /** Appends a record to worker `i`'s buffer; no other worker's is touched. */
    method Emit(i: nat, k: nat, q: byte)
      requires Valid() && i < |scratch| && k < Total(g)
      modifies this`out, this`records, this`tiles, scratch[i], scratch[i].data
      ensures Valid() && out == old(out)[i := old(out)[i] + [C.Emit(k, q)]]
      ensures scratch[i].data == old(scratch[i].data) || fresh(scratch[i].data)
    {
      hide Holds, Total, Filled;
      ghost var r := AppendTile(g, src, stride, k, q, scratch[i], records[i], out[i]);
      out := out[i := out[i] + [C.Emit(k, q)]];
      records := records[i := records[i] + [r]];
      tiles := tiles[i := tiles[i] + 1];
    }

    /** The loop body for one tile. */
    method VisitTile(i: nat, k: nat)
      requires Valid() && i < |scratch| && k < Total(g)
      modifies this`asked, this`out, this`records, this`tiles, shadow, tileQ, scratch[i], scratch[i].data
      ensures Valid() && View() == C.Visit(Spec(), old(View()), i, k)
      ensures scratch[i].data == old(scratch[i].data) || fresh(scratch[i].data)
    {
      hide Holds, Total, Filled, Rows;
      ghost var v := View();
      TilesAt(g, src, stride, k);
      TilesAt(g, shadow[..], 4 * g.width, k);
      var dirty := Differs(g, src, stride, shadow, k, full);
      if dirty {
        Copy(k);
        tileQ[k] := quality;
        Emit(i, k, quality);
      } else if tileQ[k] != 0 {
        var r := asked;
        asked := asked + 1;
        if r < budget {
          tileQ[k] := 0;
          Emit(i, k, 0);
        }
      }
    }

    method Copy(k: nat)
      requires Valid() && k < Total(g)
      modifies shadow
      ensures Valid() && Tiles(g, shadow[..], 4 * g.width) == old(Tiles(g, shadow[..], 4 * g.width))[k := Tiles(g,
              src, stride)[k]]
    {
      hide Holds, Total, Filled, Rows;
      ghost var before := Tiles(g, shadow[..], 4 * g.width);
      ghost var was := shadow[..];
      CopyTile(g, src, stride, shadow, k);
      ghost var after := Tiles(g, shadow[..], 4 * g.width);
      forall m | 0 <= m < Total(g) ensures after[m] == before[k := Tiles(g, src, stride)[k]][m] {
        TilesAt(g, shadow[..], 4 * g.width, m);
        TilesAt(g, was, 4 * g.width, m);
        TilesAt(g, src, stride, m);
      }
    }

    /** Worker `i` runs to its next shared action: a claim of four tiles, or a tile. */
    method Step(i: nat)
      requires Valid() && i < |scratch|
      modifies this`next, this`asked, this`pos, this`claims, this`out, this`records, this`tiles
      modifies shadow, tileQ, scratch[i], scratch[i].data
      ensures Valid() && View() == C.Step(Spec(), old(View()), i)
      ensures scratch[i].data == old(scratch[i].data) || fresh(scratch[i].data)
    {
      hide Holds, Total, Filled, Tiles, C.Visit;
      var total := Total(g);
      match pos[i] {
        case Idle =>
          var t := next;
          next := next + C.CHUNK;
          if t < total {
            pos := pos[i := C.At(t, Min(t + C.CHUNK, total))];
            claims := claims + [i];
          } else {
            pos := pos[i := C.Done];
          }
        case At(k, end) =>
          if k >= total { return; }
          VisitTile(i, k);
          pos := pos[i := if k + 1 < end then C.At(k + 1, end) else C.Idle];
        case Done =>
      }
    }

    ghost function Footprint(): set<object>
      reads scratch
    {
      {this, shadow, tileQ} + (set i | 0 <= i < |scratch| :: scratch[i]) + Datas()
    }

    /** Any interleaving at all. */
    method RunSchedule(schedule: seq<nat>)
      requires Valid()
      modifies Footprint()
      ensures Valid() && View() == C.Run(Spec(), old(View()), schedule)
      ensures forall i :: 0 <= i < |scratch| ==> scratch[i].data in old(Datas()) || fresh(scratch[i].data)
    {
      hide Holds, Total, Filled, Tiles, C.Step, Apart;
      ghost var v := View();
      assert C.Shaped(Spec(), v);
      var n := 0;
      while n < |schedule|
        invariant n <= |schedule| && Valid() && View() == C.Run(Spec(), v, schedule[..n])
        invariant forall i :: 0 <= i < |scratch| ==> scratch[i].data in old(Datas()) || fresh(scratch[i].data)
      {
        assert schedule[..n + 1][..n] == schedule[..n];
        if schedule[n] < |scratch| { Step(schedule[n]); }
        n := n + 1;
      }
      assert schedule[..|schedule|] == schedule;
    }

    /** The scratch buffers go to the message one after the other. */
    method Collect(msg: RdBuf) returns (total: nat, ghost rs: seq<Record>)
      requires Valid() && msg.Valid() && msg !in scratch
      requires forall i :: 0 <= i < |scratch| ==> scratch[i].data != msg.data
      modifies msg, msg.data
      ensures msg.Valid() && msg.Contents() == old(msg.Contents()) + Flat(rs)
      ensures msg.data == old(msg.data) || fresh(msg.data)
      ensures total == |rs| && Match(g, src, stride, rs, C.Concat(out))
    {
      hide Holds, Total, Flat, Match;
      total, rs := 0, [];
      ghost var es: seq<C.Emit> := [];
      ghost var before := msg.Contents();
      FlatNone(before, g, src, stride);
      var i := 0;
      while i < |scratch|
        invariant 0 <= i <= |scratch| && msg.Valid() && (msg.data == old(msg.data) || fresh(msg.data))
        invariant es == C.Concat(out[..i]) && total == |rs| && Match(g, src, stride, rs, es)
        invariant msg.Contents() == before + Flat(rs)
      {
        assert Filled(scratch[i], g, src, stride, records[i], out[i]);
        assert out[..i + 1][..i] == out[..i];
        FlatJoin(rs, records[i]);
        MatchJoin(g, src, stride, rs, es, records[i], out[i]);
        Glued(before, Flat(rs), Flat(records[i]));
        msg.Put(scratch[i].data[..scratch[i].len]);
        total := total + tiles[i];
        rs := rs + records[i];
        es := es + out[i];
        i := i + 1;
      }
      assert out[..|out|] == out;
    }
  }

  lemma FlatNone(before: seq<byte>, g: Grid, src: seq<byte>, stride: nat)
    requires Holds(g, |src|, stride, 4)
    ensures before + Flat([]) == before && Match(g, src, stride, [], [])
  {
  }

  lemma Glued(a: seq<byte>, b: seq<byte>, c: seq<byte>)
    ensures a + b + c == a + (b + c)
  {
  }

  lemma {:induction false} FlatJoin(a: seq<Record>, b: seq<Record>)
    ensures Flat(a + b) == Flat(a) + Flat(b)
  {
    hide RecordBytes;
    if b == [] {
      assert a + b == a;
    } else {
      var n := |b| - 1;
      FlatJoin(a, b[..n]);
      assert (a + b)[..|a| + n] == a + b[..n];
      Glued(Flat(a), Flat(b[..n]), RecordBytes(b[n]));
    }
  }

  lemma MatchJoin(g: Grid, src: seq<byte>, stride: nat, a: seq<Record>, ea: seq<C.Emit>, b: seq<Record>, eb: seq<C.Emit>)
    requires Match(g, src, stride, a, ea) && Match(g, src, stride, b, eb)
    ensures Match(g, src, stride, a + b, ea + eb)
  {
    hide Holds, Total, RecordOf;
  }

  lemma TilesAt(g: Grid, img: seq<byte>, stride: nat, k: nat)
    requires Holds(g, |img|, stride, 4) && k < Total(g)
    ensures Tiles(g, img, stride)[k] == Rows(g, img, stride, 4, k)
  {
  }

  lemma MatchMore(g: Grid, src: seq<byte>, stride: nat, rs: seq<Record>, es: seq<C.Emit>, r: Record, e: C.Emit)
    requires Match(g, src, stride, rs, es) && e.k < Total(g) && RecordOf(r, g, src, stride, e.k, e.q)
    ensures Match(g, src, stride, rs + [r], es + [e])
  {
    hide Holds, Total, RecordOf;
  }
}
