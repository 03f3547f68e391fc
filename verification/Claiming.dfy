/** Tile claiming by an atomic counter (host/encoder.cpp:68-119) as a machine over the
    workers' interleaved steps: claiming four tiles is one step, handling one tile another. */
module Claiming {
  import opened Bytes
  import opened Counting

  const CHUNK := 4

  // ----------------------------------------------------------------- machine

  /** One encode: the frame's tiles, and the arguments. */
  datatype Job<T> = Job(src: seq<T>, full: bool, quality: byte, budget: int)

  /** A worker between chunks, at tile `k` of one that ends before `end`, or finished. */
  datatype Pos = Idle | At(k: nat, end: nat) | Done

  datatype Emit = Emit(k: nat, q: byte)

  /** Shared state, each worker's position and output; `claims` says who took each chunk. */
  datatype State<T> = State(next: nat, asked: nat, shadow: seq<T>, tq: seq<byte>, pos: seq<Pos>, out: seq<seq<Emit>>,
                            claims: seq<nat>)

  function Start<T>(shadow: seq<T>, tq: seq<byte>, workers: nat): State<T> {
    State(0, 0, shadow, tq, seq(workers, _ => Idle), seq(workers, _ => []), [])
  }

  predicate Dirty<T(==)>(j: Job<T>, shadow: seq<T>, k: nat)
    requires k < |shadow| == |j.src|
  {
    j.full || shadow[k] != j.src[k]
  }

  predicate Shaped<T>(j: Job<T>, s: State<T>) {
    |s.shadow| == |j.src| && |s.tq| == |j.src| && |s.pos| == |s.out|
  }

  /** One tile: sent when it differs, refined when lossy and the budget lasts, or left. */
  function Visit<T(==)>(j: Job<T>, s: State<T>, i: nat, k: nat): (t: State<T>)
    requires Shaped(j, s) && i < |s.pos| && k < |j.src|
    ensures Shaped(j, t) && t.pos == s.pos && t.next == s.next && t.claims == s.claims
  {
    if Dirty(j, s.shadow, k) then
      s.(shadow := s.shadow[k := j.src[k]], tq := s.tq[k := j.quality], out := s.out[i := s.out[i] + [Emit(k, j.quality)]])
    else if s.tq[k] == 0 then s
    else
      var t := s.(asked := s.asked + 1);
      if s.asked < j.budget then t.(tq := s.tq[k := 0], out := s.out[i := s.out[i] + [Emit(k, 0)]]) else t
  }

  /** Worker `i` takes its next step. */
  function Step<T(==)>(j: Job<T>, s: State<T>, i: nat): (t: State<T>)
    requires Shaped(j, s) && i < |s.pos|
    ensures Shaped(j, t) && |t.pos| == |s.pos|
  {
    match s.pos[i]
    case Idle =>
      if s.next < |j.src| then
        s.(next := s.next + CHUNK, pos := s.pos[i := At(s.next, Min(s.next + CHUNK, |j.src|))], claims := s.claims + [i])
      else s.(next := s.next + CHUNK, pos := s.pos[i := Done])
    case At(k, end) =>
      if k >= |j.src| then s
      else Visit(j, s, i, k).(pos := s.pos[i := if k + 1 < end then At(k + 1, end) else Idle])
    case Done => s
  }

  /** A schedule says whose step is next. */
  function Run<T(==)>(j: Job<T>, s: State<T>, schedule: seq<nat>): (t: State<T>)
    requires Shaped(j, s)
    ensures Shaped(j, t) && |t.pos| == |s.pos|
  {
    if schedule == [] then s
    else
      var u := Run(j, s, schedule[..|schedule| - 1]);
      var i := schedule[|schedule| - 1];
      if i < |u.pos| then Step(j, u, i) else u
  }

  ghost predicate Finished<T>(s: State<T>) {
    forall i :: 0 <= i < |s.pos| ==> s.pos[i] == Done
  }

  // --------------------------------------------------------------- invariant

  /** Tile `k` is claimed and no worker still has it before itself. */
  predicate Visited<T>(s: State<T>, k: nat) {
    && k / CHUNK < |s.claims|
    && var i := s.claims[k / CHUNK];
    && i < |s.pos| && !(s.pos[i].At? && s.pos[i].k / CHUNK == k / CHUNK && s.pos[i].k <= k)
  }

  ghost predicate PosOk<T>(j: Job<T>, s: State<T>, i: nat)
    requires i < |s.pos|
  {
    match s.pos[i]
    case At(k, end) =>
      && k < end == Min(k / CHUNK * CHUNK + CHUNK, |j.src|)
      && k / CHUNK < |s.claims| && s.claims[k / CHUNK] == i
    case Idle => true
    case Done => |j.src| <= s.next
  }

  /** Every chunk before `next` is claimed, by the worker that has it if any does. */
  ghost predicate ClaimsOk<T>(j: Job<T>, s: State<T>) {
    && (forall i :: 0 <= i < |s.pos| ==> PosOk(j, s, i))
    && (forall c :: 0 <= c < |s.claims| ==> s.claims[c] < |s.pos|)
    && CHUNK * |s.claims| <= s.next
    && (|s.claims| == 0 || CHUNK * (|s.claims| - 1) < |j.src|)
    && (s.next == CHUNK * |s.claims| || |j.src| <= CHUNK * |s.claims|)
  }

  /** Worker `i` may visit tile `k`: it holds it, and no one has visited it. */
  lemma StepClaims<T>(j: Job<T>, s: State<T>, i: nat)
    requires Shaped(j, s) && i < |s.pos| && ClaimsOk(j, s)
    ensures ClaimsOk(j, Step(j, s, i))
    ensures s.pos[i].At? ==>
      s.pos[i].k < |j.src| && !Visited(s, s.pos[i].k) && Visited(Step(j, s, i), s.pos[i].k)
    ensures forall k :: 0 <= k < |j.src| && !(s.pos[i].At? && k == s.pos[i].k) ==>
      (Visited(Step(j, s, i), k) <==> Visited(s, k))
  {
    hide Visit;
    assert PosOk(j, s, i);
    var t := Step(j, s, i);
    forall m | 0 <= m < |t.pos| ensures PosOk(j, t, m) { assert PosOk(j, s, m); }
    forall k | 0 <= k < |j.src| && !(s.pos[i].At? && k == s.pos[i].k)
      ensures Visited(t, k) <==> Visited(s, k)
    {
      if k / CHUNK < |s.claims| { assert PosOk(j, s, s.claims[k / CHUNK]); }
    }
  }

  /** When all workers are done, every tile has been visited. */
  lemma AllVisited<T>(j: Job<T>, s: State<T>, k: nat)
    requires Shaped(j, s) && ClaimsOk(j, s) && Finished(s) && k < |j.src| && 0 < |s.pos|
    ensures Visited(s, k)
  {
    assert PosOk(j, s, 0);
  }

  // ----------------------------------------------------------------- effects

  /** The tiles the budget is for: unchanged and last sent lossy. */
  predicate Refinable<T(==)>(j: Job<T>, b: State<T>, k: nat)
    requires Shaped(j, b) && k < |j.src|
  {
    !Dirty(j, b.shadow, k) && b.tq[k] != 0
  }

  /** What tile `k` has become since `b`. */
  ghost predicate TileOk<T>(j: Job<T>, b: State<T>, s: State<T>, k: nat)
    requires Shaped(j, b) && Shaped(j, s) && k < |j.src|
  {
    if !Visited(s, k) then s.shadow[k] == b.shadow[k] && s.tq[k] == b.tq[k]
    else
      && s.shadow[k] == j.src[k]
      && (Dirty(j, b.shadow, k) ==> s.tq[k] == j.quality)
      && (!Dirty(j, b.shadow, k) ==> s.tq[k] == b.tq[k] || s.tq[k] == 0)
  }

  /** Whether tile `k` has been sent. */
  predicate Went<T(==)>(j: Job<T>, b: State<T>, s: State<T>, k: nat)
    requires Shaped(j, b) && Shaped(j, s) && k < |j.src|
  {
    Visited(s, k) && (Dirty(j, b.shadow, k) || s.tq[k] != b.tq[k])
  }

  predicate OwnedBy<T>(s: State<T>, k: nat, i: nat) {
    k / CHUNK < |s.claims| && s.claims[k / CHUNK] == i
  }

  ghost predicate Has(es: seq<Emit>, k: nat) {
    exists m :: 0 <= m < |es| && es[m].k == k
  }

  /** Worker `i` put out tiles of its own chunks, in order, each as it now is recorded;
      and all of those that went. */
  ghost predicate OutOk<T>(j: Job<T>, b: State<T>, s: State<T>, i: nat)
    requires Shaped(j, b) && Shaped(j, s) && i < |s.pos|
  {
    && (forall m :: 0 <= m < |s.out[i]| ==> EmitOk(j, b, s, i, s.out[i][m]))
    && (forall m, n :: 0 <= m < n < |s.out[i]| ==> s.out[i][m].k < s.out[i][n].k)
    && (forall k :: 0 <= k < |j.src| && Went(j, b, s, k) && OwnedBy(s, k, i) ==> Has(s.out[i], k))
  }

  ghost predicate EmitOk<T>(j: Job<T>, b: State<T>, s: State<T>, i: nat, e: Emit)
    requires Shaped(j, b) && Shaped(j, s) && i < |s.pos|
  {
    && e.k < |j.src| && Went(j, b, s, e.k) && OwnedBy(s, e.k, i) && s.tq[e.k] == e.q
    && (s.pos[i].At? ==> e.k < s.pos[i].k)
  }

  ghost function Asked<T>(j: Job<T>, b: State<T>, s: State<T>): (f: seq<bool>)
    requires Shaped(j, b) && Shaped(j, s)
    ensures |f| == |j.src|
  {
    seq(|j.src|, k requires 0 <= k < |j.src| => Visited(s, k) && Refinable(j, b, k))
  }

  ghost function Refined<T>(j: Job<T>, b: State<T>, s: State<T>): (f: seq<bool>)
    requires Shaped(j, b) && Shaped(j, s)
    ensures |f| == |j.src|
  {
    seq(|j.src|, k requires 0 <= k < |j.src| => Visited(s, k) && Refinable(j, b, k) && s.tq[k] == 0)
  }

  ghost predicate CountsOk<T>(j: Job<T>, b: State<T>, s: State<T>)
    requires Shaped(j, b) && Shaped(j, s)
  {
    s.asked == Count(Asked(j, b, s)) && Count(Refined(j, b, s)) == Min(s.asked, Max(0, j.budget))
  }

  ghost predicate TilesOk<T>(j: Job<T>, b: State<T>, s: State<T>)
    requires Shaped(j, b) && Shaped(j, s)
  {
    forall k :: 0 <= k < |j.src| ==> TileOk(j, b, s, k)
  }

  ghost predicate OutsOk<T>(j: Job<T>, b: State<T>, s: State<T>)
    requires Shaped(j, b) && Shaped(j, s)
  {
    forall i :: 0 <= i < |s.pos| ==> OutOk(j, b, s, i)
  }

  ghost predicate Inv<T>(j: Job<T>, b: State<T>, s: State<T>) {
    Shaped(j, b) && Shaped(j, s) && ClaimsOk(j, s) && TilesOk(j, b, s) && OutsOk(j, b, s) && CountsOk(j, b, s)
  }

  lemma StepTiles<T>(j: Job<T>, b: State<T>, s: State<T>, i: nat)
    requires Shaped(j, b) && Shaped(j, s) && i < |s.pos| && ClaimsOk(j, s) && TilesOk(j, b, s)
    ensures TilesOk(j, b, Step(j, s, i))
  {
    hide Visited, ClaimsOk;
    StepClaims(j, s, i);
    var t := Step(j, s, i);
    forall k | 0 <= k < |j.src| ensures TileOk(j, b, t, k) { assert TileOk(j, b, s, k); }
  }

  lemma StepCounts<T>(j: Job<T>, b: State<T>, s: State<T>, i: nat)
    requires Shaped(j, b) && Shaped(j, s) && i < |s.pos| && ClaimsOk(j, s) && TilesOk(j, b, s) && CountsOk(j, b, s)
    ensures CountsOk(j, b, Step(j, s, i))
  {
    hide Visited, ClaimsOk, Count;
    StepClaims(j, s, i);
    var t := Step(j, s, i);
    var a, a', r, r' := Asked(j, b, s), Asked(j, b, t), Refined(j, b, s), Refined(j, b, t);
    if s.pos[i].At? {
      var k := s.pos[i].k;
      assert TileOk(j, b, s, k);
      if Refinable(j, b, k) {
        assert a' == a[k := true];
        CountSet(a, k);
        if s.asked < j.budget {
          assert r' == r[k := true];
          CountSet(r, k);
        } else {
          assert r' == r;
        }
      } else {
        assert a' == a && r' == r;
      }
    } else {
      assert a' == a && r' == r;
    }
  }

  lemma StepOuts<T>(j: Job<T>, b: State<T>, s: State<T>, i: nat)
    requires Shaped(j, b) && Shaped(j, s) && i < |s.pos| && ClaimsOk(j, s) && TilesOk(j, b, s) && OutsOk(j, b, s)
    ensures OutsOk(j, b, Step(j, s, i))
  {
    hide Visited, ClaimsOk, TilesOk, OutOk;
    StepClaims(j, s, i);
    var t := Step(j, s, i);
    forall m | 0 <= m < |t.pos| ensures OutOk(j, b, t, m) {
      assert OutOk(j, b, s, m);
      StepOther(j, b, s, i, m);
    }
  }

  /** What a step leaves of the tiles another tile stands for. */
  lemma StepWent<T>(j: Job<T>, b: State<T>, s: State<T>, i: nat, k: nat)
    requires Shaped(j, b) && Shaped(j, s) && i < |s.pos| && ClaimsOk(j, s) && k < |j.src|
    requires !(s.pos[i].At? && k == s.pos[i].k)
    ensures var t := Step(j, s, i);
      (Went(j, b, t, k) <==> Went(j, b, s, k)) && t.tq[k] == s.tq[k]
      && (Went(j, b, s, k) ==> k / CHUNK < |s.claims| && t.claims[k / CHUNK] == s.claims[k / CHUNK] && k < CHUNK * |s.claims|)
  {
    StepClaims(j, s, i);
  }

  lemma StepOther<T>(j: Job<T>, b: State<T>, s: State<T>, i: nat, m: nat)
    requires Shaped(j, b) && Shaped(j, s) && i < |s.pos| && ClaimsOk(j, s) && TilesOk(j, b, s) && m < |s.pos|
    requires OutOk(j, b, s, m)
    ensures OutOk(j, b, Step(j, s, i), m)
  {
    hide Went;
    var t := Step(j, s, i);
    assert PosOk(j, s, i);
    if s.pos[i].At? {
      VisitOut(j, b, s, i, m);
    } else {
      forall e | e in t.out[m] ensures EmitOk(j, b, t, m, e) {
        assert EmitOk(j, b, s, m, e);
        StepWent(j, b, s, i, e.k);
      }
      forall k | 0 <= k < |j.src| && Went(j, b, t, k) && OwnedBy(t, k, m) ensures Has(t.out[m], k) {
        StepWent(j, b, s, i, k);
      }
    }
  }

  lemma VisitOut<T>(j: Job<T>, b: State<T>, s: State<T>, i: nat, m: nat)
    requires Shaped(j, b) && Shaped(j, s) && i < |s.pos| && ClaimsOk(j, s) && TilesOk(j, b, s) && m < |s.pos|
    requires OutOk(j, b, s, m) && s.pos[i].At?
    ensures OutOk(j, b, Step(j, s, i), m)
  {
    hide Went, ClaimsOk;
    var t := Step(j, s, i);
    var k0 := s.pos[i].k;
    StepClaims(j, s, i);
    VisitOne(j, b, s, i);
    forall e | e in t.out[m] ensures EmitOk(j, b, t, m, e) {
      if e in s.out[m] {
        assert EmitOk(j, b, s, m, e);
        if e.k == k0 { NotYet(j, b, s, i); }
        StepWent(j, b, s, i, e.k);
      }
    }
    forall k | 0 <= k < |j.src| && Went(j, b, t, k) && OwnedBy(t, k, m) ensures Has(t.out[m], k) {
      if k != k0 {
        StepWent(j, b, s, i, k);
        assert Has(s.out[m], k);
        var n :| 0 <= n < |s.out[m]| && s.out[m][n].k == k;
        assert t.out[m][n].k == k;
      } else {
        assert t.out[m][|s.out[m]|].k == k;
      }
    }
  }

  lemma NotYet<T>(j: Job<T>, b: State<T>, s: State<T>, i: nat)
    requires Shaped(j, b) && Shaped(j, s) && i < |s.pos| && ClaimsOk(j, s) && s.pos[i].At?
    ensures s.pos[i].k < |j.src| && !Went(j, b, s, s.pos[i].k)
  {
    StepClaims(j, s, i);
  }

  /** The visit itself: worker `i` puts out its tile exactly when the tile went. */
  lemma VisitOne<T>(j: Job<T>, b: State<T>, s: State<T>, i: nat)
    requires Shaped(j, b) && Shaped(j, s) && i < |s.pos| && ClaimsOk(j, s) && TilesOk(j, b, s) && s.pos[i].At?
    ensures var t, k := Step(j, s, i), s.pos[i].k;
      && k < |j.src| && k / CHUNK < |s.claims| && t.claims == s.claims && s.claims[k / CHUNK] == i
      && (forall m :: 0 <= m < |s.out| && m != i ==> t.out[m] == s.out[m] && t.pos[m] == s.pos[m])
      && (t.pos[i].At? ==> t.pos[i].k == k + 1)
      && t.out[i] == s.out[i] + (if Went(j, b, t, k) then [Emit(k, t.tq[k])] else [])
  {
    assert PosOk(j, s, i);
    StepClaims(j, s, i);
    assert TileOk(j, b, s, s.pos[i].k);
  }

  lemma StepKeeps<T>(j: Job<T>, b: State<T>, s: State<T>, i: nat)
    requires Inv(j, b, s) && i < |s.pos|
    ensures Inv(j, b, Step(j, s, i))
  {
    hide Step, ClaimsOk, TilesOk, OutsOk, CountsOk;
    StepClaims(j, s, i);
    StepTiles(j, b, s, i);
    StepOuts(j, b, s, i);
    StepCounts(j, b, s, i);
  }

  ghost predicate Begun<T>(j: Job<T>, b: State<T>) {
    Shaped(j, b) && b == Start(b.shadow, b.tq, |b.pos|) && |b.pos| > 0
  }

  lemma StartInv<T>(j: Job<T>, b: State<T>)
    requires Begun(j, b)
    ensures Inv(j, b, b)
  {
    CountNone(Asked(j, b, b));
    CountNone(Refined(j, b, b));
  }

  lemma {:induction false} RunInv<T>(j: Job<T>, b: State<T>, schedule: seq<nat>)
    requires Begun(j, b)
    ensures Inv(j, b, Run(j, b, schedule))
  {
    hide Step, Inv;
    if schedule == [] {
      StartInv(j, b);
    } else {
      var u, i := Run(j, b, schedule[..|schedule| - 1]), schedule[|schedule| - 1];
      RunInv(j, b, schedule[..|schedule| - 1]);
      if i < |u.pos| { StepKeeps(j, b, u, i); }
    }
  }

  // --------------------------------------------------------------- theorems

  /** The tiles the budget is for. */
  ghost function Lossy<T>(j: Job<T>, b: State<T>): (f: seq<bool>)
    requires Shaped(j, b)
    ensures |f| == |j.src|
  {
    seq(|j.src|, k requires 0 <= k < |j.src| => Refinable(j, b, k))
  }

  /** What a finished encode has done, whatever the interleaving: the shadow is the frame;
      each tile that differed went at the asked quality, and of the others exactly as many
      lossy ones as the budget allows went, lossless; every tile that went was put out
      once, by one worker, and no other tile was. */
  ghost predicate Encoded<T>(j: Job<T>, b: State<T>, s: State<T>) {
    && Shaped(j, b) && Shaped(j, s)
    && s.shadow == j.src
    && (forall k :: 0 <= k < |j.src| ==> SentAs(j, b, s, k))
    && Count(FinalRefined(j, b, s)) == Min(Count(Lossy(j, b)), Max(0, j.budget))
    && (forall k :: 0 <= k < |j.src| ==> OutOnce(j, b, s, k))
    && (forall i :: 0 <= i < |s.out| ==> Ascending(s.out[i]) && forall m :: 0 <= m < |s.out[i]| ==> Recorded(s, s.out[i][m]))
  }

  ghost predicate SentAs<T>(j: Job<T>, b: State<T>, s: State<T>, k: nat)
    requires Shaped(j, b) && Shaped(j, s) && k < |j.src|
  {
    if Dirty(j, b.shadow, k) then s.tq[k] == j.quality else s.tq[k] == b.tq[k] || s.tq[k] == 0
  }

  /** Whether a finished encode sent tile `k`. */
  predicate Changed<T(==)>(j: Job<T>, b: State<T>, s: State<T>, k: nat)
    requires Shaped(j, b) && Shaped(j, s) && k < |j.src|
  {
    Dirty(j, b.shadow, k) || s.tq[k] != b.tq[k]
  }

  ghost predicate OutOnce<T>(j: Job<T>, b: State<T>, s: State<T>, k: nat)
    requires Shaped(j, b) && Shaped(j, s) && k < |j.src|
  {
    && (Changed(j, b, s, k) ==> exists i :: 0 <= i < |s.out| && Has(s.out[i], k))
    && (forall i :: 0 <= i < |s.out| && Has(s.out[i], k) ==>
          Changed(j, b, s, k) && forall m :: 0 <= m < |s.out| && Has(s.out[m], k) ==> m == i)
  }

  ghost predicate Ascending(es: seq<Emit>) {
    forall m, n :: 0 <= m < n < |es| ==> es[m].k < es[n].k
  }

  predicate Recorded<T>(s: State<T>, e: Emit) {
    e.k < |s.tq| && s.tq[e.k] == e.q
  }

  /** Every tile is handled exactly once, by exactly one worker, in every schedule. */
  lemma EveryScheduleEncodes<T>(j: Job<T>, b: State<T>, schedule: seq<nat>)
    requires Begun(j, b) && Finished(Run(j, b, schedule))
    ensures Encoded(j, b, Run(j, b, schedule))
  {
    hide Run, Visited, ClaimsOk, TileOk, Count, Has;
    var s := Run(j, b, schedule);
    RunInv(j, b, schedule);
    forall k | 0 <= k < |j.src| ensures Visited(s, k) { AllVisited(j, s, k); }
    assert Asked(j, b, s) == Lossy(j, b) && Refined(j, b, s) == FinalRefined(j, b, s);
    forall k | 0 <= k < |j.src| ensures s.shadow[k] == j.src[k] && SentAs(j, b, s, k) {
      assert TileOk(j, b, s, k);
      FinalTile(j, b, s, k);
    }
    forall k | 0 <= k < |j.src| ensures OutOnce(j, b, s, k) { FinalOut(j, b, s, k); }
    forall i | 0 <= i < |s.out| ensures Ascending(s.out[i]) { assert OutOk(j, b, s, i); }
    forall i, m | 0 <= i < |s.out| && 0 <= m < |s.out[i]| ensures Recorded(s, s.out[i][m]) {
      assert OutOk(j, b, s, i) && EmitOk(j, b, s, i, s.out[i][m]);
    }
  }

  lemma FinalTile<T>(j: Job<T>, b: State<T>, s: State<T>, k: nat)
    requires Shaped(j, b) && Shaped(j, s) && k < |j.src| && Visited(s, k) && TileOk(j, b, s, k)
    ensures s.shadow[k] == j.src[k] && SentAs(j, b, s, k)
  {
  }

  lemma FinalOut<T>(j: Job<T>, b: State<T>, s: State<T>, k: nat)
    requires Inv(j, b, s) && k < |j.src| && Visited(s, k)
    ensures OutOnce(j, b, s, k)
  {
    hide ClaimsOk, TilesOk, CountsOk, Has;
    var owner := s.claims[k / CHUNK];
    assert OutOk(j, b, s, owner);
    forall i | 0 <= i < |s.out| && Has(s.out[i], k) ensures i == owner && Changed(j, b, s, k) {
      assert OutOk(j, b, s, i);
      HasEmit(j, b, s, i, k);
    }
    if Changed(j, b, s, k) { assert Has(s.out[owner], k); }
  }

  lemma HasEmit<T>(j: Job<T>, b: State<T>, s: State<T>, i: nat, k: nat)
    requires Shaped(j, b) && Shaped(j, s) && i < |s.pos| && OutOk(j, b, s, i) && Has(s.out[i], k)
    ensures k < |j.src| && Went(j, b, s, k) && OwnedBy(s, k, i)
  {
    var m :| 0 <= m < |s.out[i]| && s.out[i][m].k == k;
    assert EmitOk(j, b, s, i, s.out[i][m]);
  }

  /** When no lossy tile may be refined, or all may, every schedule of any number of
      workers leaves the same shadow and the same qualities, and sends the same tiles. */
  lemma SchedulesAgree<T>(j: Job<T>, b: State<T>, s: State<T>, t: State<T>)
    requires Encoded(j, b, s) && Encoded(j, b, t)
    requires j.budget <= 0 || j.budget >= Count(Lossy(j, b))
    ensures s.shadow == t.shadow && s.tq == t.tq
    ensures forall k :: 0 <= k < |j.src| ==> (Changed(j, b, s, k) <==> Changed(j, b, t, k))
  {
    hide OutOnce, Ascending, Recorded, Count;
    RefinedAllOrNone(j, b, s);
    RefinedAllOrNone(j, b, t);
    forall k | 0 <= k < |j.src| ensures s.tq[k] == t.tq[k] {
      QualityOf(j, b, s, k);
      QualityOf(j, b, t, k);
    }
  }

  /** All of the lossy tiles were refined, or none. */
  lemma RefinedAllOrNone<T>(j: Job<T>, b: State<T>, s: State<T>)
    requires Encoded(j, b, s) && (j.budget <= 0 || j.budget >= Count(Lossy(j, b)))
    ensures forall k :: 0 <= k < |j.src| && Refinable(j, b, k) ==> (s.tq[k] == 0 <==> j.budget > 0)
  {
    hide OutOnce, Ascending, Recorded, Count;
    var f, g := FinalRefined(j, b, s), Lossy(j, b);
    CountWithin(f, g);
    forall k | 0 <= k < |j.src| && Refinable(j, b, k) ensures s.tq[k] == 0 <==> j.budget > 0 {
      assert g[k];
      if j.budget <= 0 {
        if f[k] { CountPos(f, k); }
      } else {
        assert f == g;
      }
    }
  }

  /** In a finished state, the refined tiles by their qualities alone. */
  ghost function FinalRefined<T>(j: Job<T>, b: State<T>, s: State<T>): (f: seq<bool>)
    requires Shaped(j, b) && Shaped(j, s)
    ensures |f| == |j.src|
  {
    seq(|j.src|, k requires 0 <= k < |j.src| => Refinable(j, b, k) && s.tq[k] == 0)
  }

  lemma QualityOf<T>(j: Job<T>, b: State<T>, s: State<T>, k: nat)
    requires Shaped(j, b) && Shaped(j, s) && k < |j.src| && SentAs(j, b, s, k)
    ensures s.tq[k] == if Dirty(j, b.shadow, k) then j.quality
                       else if Refinable(j, b, k) && s.tq[k] == 0 then 0 else b.tq[k]
  {
  }

  /** On unchanged content one encode refines exactly as many of the lossy tiles as the
      budget allows: what is left is the rest, and nothing else went. */
  lemma StillFrameRefines<T>(j: Job<T>, b: State<T>, s: State<T>)
    requires Encoded(j, b, s) && !j.full && b.shadow == j.src
    ensures Count(Lossy(j, b)) - Count(Lossy(j, s)) == Min(Count(Lossy(j, b)), Max(0, j.budget))
    ensures forall k :: 0 <= k < |j.src| && Changed(j, b, s, k) ==> b.tq[k] != 0 && s.tq[k] == 0
  {
    hide OutOnce, Ascending, Recorded, Count;
    forall k | 0 <= k < |j.src|
      ensures Lossy(j, b)[k] <==> FinalRefined(j, b, s)[k] || Lossy(j, s)[k]
      ensures !(FinalRefined(j, b, s)[k] && Lossy(j, s)[k])
    {
      assert SentAs(j, b, s, k);
    }
    CountSplit(Lossy(j, b), FinalRefined(j, b, s), Lossy(j, s));
    forall k | 0 <= k < |j.src| && Changed(j, b, s, k) ensures b.tq[k] != 0 && s.tq[k] == 0 {
      assert SentAs(j, b, s, k);
    }
  }

  // ------------------------------------------------------------ all outputs

  /** The workers' buffers one after the other. */
  function Concat<X>(xs: seq<seq<X>>): seq<X> {
    if xs == [] then [] else Concat(xs[..|xs| - 1]) + xs[|xs| - 1]
  }

  lemma {:induction false} ConcatHas(outs: seq<seq<Emit>>, k: nat)
    ensures Has(Concat(outs), k) <==> exists i :: 0 <= i < |outs| && Has(outs[i], k)
  {
    if outs != [] {
      var n := |outs| - 1;
      ConcatHas(outs[..n], k);
      HasBoth(Concat(outs[..n]), outs[n], k);
      if i :| 0 <= i < n && Has(outs[i], k) { assert Has(outs[..n][i], k); }
    }
  }

  lemma HasBoth(a: seq<Emit>, b: seq<Emit>, k: nat)
    ensures Has(a + b, k) <==> Has(a, k) || Has(b, k)
  {
    if Has(a, k) {
      var m :| 0 <= m < |a| && a[m].k == k;
      assert (a + b)[m].k == k;
    }
    if Has(b, k) {
      var m :| 0 <= m < |b| && b[m].k == k;
      assert (a + b)[|a| + m].k == k;
    }
  }

  lemma {:induction false} ConcatRecorded<T>(s: State<T>, outs: seq<seq<Emit>>)
    requires forall i, m :: 0 <= i < |outs| && 0 <= m < |outs[i]| ==> Recorded(s, outs[i][m])
    ensures forall e :: e in Concat(outs) ==> Recorded(s, e)
  {
    if outs != [] { ConcatRecorded(s, outs[..|outs| - 1]); }
  }

  /** Taken together, the workers put out exactly the tiles that changed, as recorded. */
  lemma EncodedConcat<T>(j: Job<T>, b: State<T>, s: State<T>)
    requires Encoded(j, b, s)
    ensures forall k :: 0 <= k < |j.src| ==> (Has(Concat(s.out), k) <==> Changed(j, b, s, k))
    ensures forall e :: e in Concat(s.out) ==> Recorded(s, e)
  {
    hide Has, Recorded, Changed, Count, SentAs;
    forall k | 0 <= k < |j.src| ensures Has(Concat(s.out), k) <==> Changed(j, b, s, k) {
      ConcatHas(s.out, k);
      assert OutOnce(j, b, s, k);
    }
    ConcatRecorded(s, s.out);
  }

  ghost predicate Distinct(es: seq<Emit>) {
    forall m, n :: 0 <= m < n < |es| ==> es[m].k != es[n].k
  }

  lemma {:induction false} ConcatDistinct(outs: seq<seq<Emit>>)
    requires forall i :: 0 <= i < |outs| ==> Ascending(outs[i])
    requires forall k, i, m :: 0 <= i < |outs| && 0 <= m < |outs| && Has(outs[i], k) && Has(outs[m], k) ==> i == m
    ensures Distinct(Concat(outs))
  {
    hide Has;
    if outs != [] {
      var n := |outs| - 1;
      var before, last := Concat(outs[..n]), outs[n];
      forall k, i, m | 0 <= i < n && 0 <= m < n && Has(outs[..n][i], k) && Has(outs[..n][m], k) ensures i == m {
        assert Has(outs[i], k) && Has(outs[m], k);
      }
      ConcatDistinct(outs[..n]);
      forall a, b | 0 <= a < |before| && 0 <= b < |last| ensures before[a].k != last[b].k {
        HasAt(before, a);
        HasAt(last, b);
        ConcatHas(outs[..n], before[a].k);
        var i :| 0 <= i < n && Has(outs[..n][i], before[a].k);
        NotLast(outs, i, before[a].k);
      }
    }
  }

  lemma NotLast(outs: seq<seq<Emit>>, i: nat, k: nat)
    requires i < |outs| - 1 && Has(outs[i], k)
    requires forall k, i, m :: 0 <= i < |outs| && 0 <= m < |outs| && Has(outs[i], k) && Has(outs[m], k) ==> i == m
    ensures !Has(outs[|outs| - 1], k)
  {
  }

  lemma HasAt(es: seq<Emit>, m: nat)
    requires m < |es|
    ensures Has(es, es[m].k)
  {
  }

  /** Distinct numbers below `n`: no more than `n`. */
  lemma {:induction false} DistinctFew(es: seq<Emit>, n: nat)
    requires Distinct(es) && forall m :: 0 <= m < |es| ==> es[m].k < n
    ensures |es| <= n
    decreases n
  {
    if es != [] {
      assert es[0].k < n;
      if m :| 0 <= m < |es| && es[m].k == n - 1 {
        DistinctFew(es[..m] + es[m + 1..], n - 1);
      } else {
        DistinctFew(es, n - 1);
      }
    }
  }

  /** The workers together put out no more tiles than there are, each at most once. */
  lemma ConcatFew<T>(j: Job<T>, b: State<T>, s: State<T>)
    requires Encoded(j, b, s)
    ensures Distinct(Concat(s.out)) && |Concat(s.out)| <= |j.src|
  {
    hide Has, Count, SentAs, Changed, Ascending;
    EncodedConcat(j, b, s);
    forall k, i, m | 0 <= i < |s.out| && 0 <= m < |s.out| && Has(s.out[i], k) && Has(s.out[m], k) ensures i == m {
      HasRecorded(j, b, s, i, k);
      assert OutOnce(j, b, s, k);
    }
    ConcatDistinct(s.out);
    assert forall m :: 0 <= m < |Concat(s.out)| ==> Concat(s.out)[m] in Concat(s.out);
    DistinctFew(Concat(s.out), |j.src|);
  }

  /** Which tiles a finished encode sent. */
  ghost function ChangedTiles<T>(j: Job<T>, b: State<T>, s: State<T>): (f: seq<bool>)
    requires Shaped(j, b) && Shaped(j, s)
    ensures |f| == |j.src|
  {
    seq(|j.src|, k requires 0 <= k < |j.src| => Changed(j, b, s, k))
  }

  /** The workers together put out as many records as tiles changed. */
  lemma ConcatCount<T>(j: Job<T>, b: State<T>, s: State<T>)
    requires Encoded(j, b, s)
    ensures |Concat(s.out)| == Count(ChangedTiles(j, b, s))
  {
    hide Has, Count, SentAs, Changed, Ascending, OutOnce;
    EncodedConcat(j, b, s);
    ConcatFew(j, b, s);
    assert forall m :: 0 <= m < |Concat(s.out)| ==> Concat(s.out)[m] in Concat(s.out);
    DistinctCount(Concat(s.out), ChangedTiles(j, b, s));
  }

  lemma {:induction false} DistinctCount(es: seq<Emit>, f: seq<bool>)
    requires Distinct(es) && (forall m :: 0 <= m < |es| ==> es[m].k < |f|)
    requires forall k :: 0 <= k < |f| ==> (f[k] <==> Has(es, k))
    ensures |es| == Count(f)
    decreases |f|
  {
    if es == [] {
      CountNone(f);
    } else {
      assert es[0].k < |f|;
      var n := |f| - 1;
      if m :| 0 <= m < |es| && es[m].k == n {
        var rest := es[..m] + es[m + 1..];
        assert es == es[..m] + [es[m]] + es[m + 1..];
        HasAt(es, m);
        forall k | 0 <= k < n ensures f[..n][k] <==> Has(rest, k) {
          HasBoth(es[..m], [es[m]], k);
          HasBoth(es[..m] + [es[m]], es[m + 1..], k);
          HasBoth(es[..m], es[m + 1..], k);
        }
        DistinctCount(rest, f[..n]);
      } else {
        forall k | 0 <= k < n ensures f[..n][k] <==> Has(es, k) { assert f[k] <==> Has(es, k); }
        DistinctCount(es, f[..n]);
      }
    }
  }

  lemma HasRecorded<T>(j: Job<T>, b: State<T>, s: State<T>, i: nat, k: nat)
    requires Encoded(j, b, s) && i < |s.out| && Has(s.out[i], k)
    ensures k < |j.src|
  {
    hide OutOnce, SentAs, Count;
    var m :| 0 <= m < |s.out[i]| && s.out[i][m].k == k;
    assert Recorded(s, s.out[i][m]);
  }

  /** A full encode sends every tile. */
  lemma FullSendsAll<T>(j: Job<T>, b: State<T>, s: State<T>)
    requires Shaped(j, b) && Shaped(j, s) && j.full
    ensures Count(ChangedTiles(j, b, s)) == |j.src|
  {
    CountAll(ChangedTiles(j, b, s));
  }

  // ------------------------------------------------------------ convergence

  ghost function LossyTiles(tq: seq<byte>): seq<bool> {
    seq(|tq|, k requires 0 <= k < |tq| => tq[k] != 0)
  }

  ghost predicate Lossless(tq: seq<byte>) {
    forall k :: 0 <= k < |tq| ==> tq[k] == 0
  }

  lemma AllLossless(tq: seq<byte>)
    ensures Count(LossyTiles(tq)) == 0 ==> Lossless(tq)
  {
    forall k | 0 <= k < |tq| && tq[k] != 0 ensures Count(LossyTiles(tq)) > 0 {
      CountPos(LossyTiles(tq), k);
    }
  }

  /** An encode of unchanged content takes exactly its budget off the lossy tiles, and sends
      no other tile. */
  lemma StillEncode<T>(j: Job<T>, b: State<T>, s: State<T>)
    requires !j.full && Encoded(j, b, s) && b.shadow == j.src
    ensures Count(LossyTiles(s.tq)) == Count(LossyTiles(b.tq)) - Min(Count(LossyTiles(b.tq)), Max(0, j.budget))
    ensures Count(ChangedTiles(j, b, s)) == Min(Count(LossyTiles(b.tq)), Max(0, j.budget))
    ensures j.budget <= 0 ==> s.tq == b.tq
  {
    hide Count, OutOnce, Ascending, Recorded;
    StillFrameRefines(j, b, s);
    forall k | 0 <= k < |j.src| ensures ChangedTiles(j, b, s)[k] == FinalRefined(j, b, s)[k] {
      assert SentAs(j, b, s, k);
    }
    assert ChangedTiles(j, b, s) == FinalRefined(j, b, s);
    assert Lossy(j, b) == LossyTiles(b.tq);
    assert Lossy(j, s) == LossyTiles(s.tq);
    if j.budget <= 0 {
      RefinedAllOrNone(j, b, s);
      forall k | 0 <= k < |j.src| ensures s.tq[k] == b.tq[k] { assert SentAs(j, b, s, k); }
    }
  }
}
