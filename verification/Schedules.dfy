/** When the result of an encode depends on how its workers interleave
    (host/encoder.cpp:68-119): exactly when the refinement budget runs out half way
    and the tiles it is for are spread over several chunks and several workers. */
module Schedules {
  import opened Bytes
  import opened Counting
  import opened Claiming

  ghost predicate AlwaysSame<T(!new)>(j: Job<T>, b: State<T>)
    requires Shaped(j, b)
  {
    forall x, y :: Finished(Run(j, b, x)) && Finished(Run(j, b, y)) ==> Run(j, b, x).tq == Run(j, b, y).tq
  }

  /** All the tiles the budget is for are claimed together. */
  ghost predicate OneChunk<T>(j: Job<T>, b: State<T>)
    requires Shaped(j, b)
  {
    forall k, m :: 0 <= k < |j.src| && 0 <= m < |j.src| && Refinable(j, b, k) && Refinable(j, b, m) ==>
      k / CHUNK == m / CHUNK
  }

  // ------------------------------------------- one order: the results agree

  /** A worker at a tile the budget is for has all smaller such tiles behind it and all
      greater ones before it, whoever may have them. */
  ghost predicate InOrder<T>(j: Job<T>, b: State<T>, s: State<T>, i: nat)
    requires Shaped(j, b) && i < |s.pos|
  {
    s.pos[i].At? && s.pos[i].k < |j.src| && Refinable(j, b, s.pos[i].k) ==>
      forall m :: 0 <= m < |j.src| && Refinable(j, b, m) ==> (Visited(s, m) <==> m < s.pos[i].k)
  }

  lemma OneChunkInOrder<T>(j: Job<T>, b: State<T>, s: State<T>, i: nat)
    requires Inv(j, b, s) && OneChunk(j, b) && i < |s.pos|
    ensures InOrder(j, b, s, i)
  {
    hide TilesOk, OutsOk, CountsOk, Refinable;
    assert PosOk(j, s, i);
  }

  /** A worker on its own is in the chunk claimed last. */
  ghost predicate InLast<T>(s: State<T>) {
    |s.pos| == 1 && (s.pos[0].At? ==> |s.claims| == s.pos[0].k / CHUNK + 1)
  }

  lemma StepInLast<T>(j: Job<T>, s: State<T>)
    requires Shaped(j, s) && ClaimsOk(j, s) && InLast(s)
    ensures InLast(Step(j, s, 0))
  {
    assert PosOk(j, s, 0);
  }

  lemma {:induction false} RunInLast<T>(j: Job<T>, b: State<T>, x: seq<nat>)
    requires Begun(j, b) && |b.pos| == 1
    ensures InLast(Run(j, b, x))
  {
    hide Step, ClaimsOk;
    if x != [] {
      RunInLast(j, b, x[..|x| - 1]);
      RunInv(j, b, x[..|x| - 1]);
      StepInLast(j, Run(j, b, x[..|x| - 1]));
    }
  }

  lemma AloneInOrder<T>(j: Job<T>, b: State<T>, s: State<T>)
    requires Inv(j, b, s) && InLast(s)
    ensures InOrder(j, b, s, 0)
  {
    hide TilesOk, OutsOk, CountsOk, Refinable;
    assert PosOk(j, s, 0);
    if s.pos[0].At? && s.pos[0].k < |j.src| && Refinable(j, b, s.pos[0].k) {
      forall m | 0 <= m < |j.src| && Refinable(j, b, m) ensures Visited(s, m) <==> m < s.pos[0].k {
        if m / CHUNK < |s.claims| { assert s.claims[m / CHUNK] == 0; }
      }
    }
  }

  /** The tiles the budget is for that come before tile `k`. */
  ghost function Before<T>(j: Job<T>, b: State<T>, k: nat): (f: seq<bool>)
    requires Shaped(j, b)
    ensures |f| == |j.src|
  {
    seq(|j.src|, m requires 0 <= m < |j.src| => m < k && Refinable(j, b, m))
  }

  /** The refined tiles are the first ones of the frame. */
  ghost predicate FirstRefined<T>(j: Job<T>, b: State<T>, s: State<T>)
    requires Shaped(j, b) && Shaped(j, s)
  {
    forall k :: 0 <= k < |j.src| && Visited(s, k) && Refinable(j, b, k) ==>
      (s.tq[k] == 0 <==> Count(Before(j, b, k)) < j.budget)
  }

  lemma StepFirstRefined<T>(j: Job<T>, b: State<T>, s: State<T>, i: nat)
    requires Inv(j, b, s) && i < |s.pos| && InOrder(j, b, s, i) && FirstRefined(j, b, s)
    ensures FirstRefined(j, b, Step(j, s, i))
  {
    hide ClaimsOk, OutsOk, Visited, Count;
    StepClaims(j, s, i);
    var t := Step(j, s, i);
    if s.pos[i].At? && Refinable(j, b, s.pos[i].k) {
      assert TileOk(j, b, s, s.pos[i].k);
      assert Asked(j, b, s) == Before(j, b, s.pos[i].k);
    }
    forall k | 0 <= k < |j.src| && Visited(t, k) && Refinable(j, b, k)
      ensures t.tq[k] == 0 <==> Count(Before(j, b, k)) < j.budget
    {
      assert TileOk(j, b, s, k);
    }
  }

  lemma {:induction false} RunFirstRefined<T>(j: Job<T>, b: State<T>, x: seq<nat>)
    requires Begun(j, b) && (|b.pos| == 1 || OneChunk(j, b))
    ensures FirstRefined(j, b, Run(j, b, x))
  {
    hide Step, ClaimsOk, TilesOk, OutsOk, CountsOk, OneChunk, InOrder, FirstRefined;
    if x == [] {
      NoneVisited(j, b);
    } else {
      var y, i := x[..|x| - 1], x[|x| - 1];
      RunFirstRefined(j, b, y);
      RunInv(j, b, y);
      var u := Run(j, b, y);
      if i < |u.pos| {
        if |b.pos| == 1 {
          RunInLast(j, b, y);
          AloneInOrder(j, b, u);
        } else {
          OneChunkInOrder(j, b, u, i);
        }
        StepFirstRefined(j, b, u, i);
      }
    }
  }

  lemma NoneVisited<T>(j: Job<T>, b: State<T>)
    requires Begun(j, b)
    ensures FirstRefined(j, b, b)
  {
  }

  lemma OrderedSame<T>(j: Job<T>, b: State<T>, x: seq<nat>, y: seq<nat>)
    requires Begun(j, b) && (|b.pos| == 1 || OneChunk(j, b))
    requires Finished(Run(j, b, x)) && Finished(Run(j, b, y))
    ensures Run(j, b, x).tq == Run(j, b, y).tq
  {
    hide Run, Visited, ClaimsOk, OneChunk, Count, OutOnce, Ascending, Recorded;
    var s, t := Run(j, b, x), Run(j, b, y);
    EveryScheduleEncodes(j, b, x);
    EveryScheduleEncodes(j, b, y);
    RunFirstRefined(j, b, x);
    RunFirstRefined(j, b, y);
    RunInv(j, b, x);
    RunInv(j, b, y);
    forall k | 0 <= k < |j.src| ensures s.tq[k] == t.tq[k] {
      AllVisited(j, s, k);
      AllVisited(j, t, k);
      QualityOf(j, b, s, k);
      QualityOf(j, b, t, k);
    }
  }

  // ----------------------------------------------------- driving the workers

  lemma {:induction false} RunJoin<T>(j: Job<T>, b: State<T>, x: seq<nat>, y: seq<nat>)
    requires Shaped(j, b)
    ensures Run(j, b, x + y) == Run(j, Run(j, b, x), y)
  {
    hide Step;
    if y == [] {
      assert x + y == x;
    } else {
      RunJoin(j, b, x, y[..|y| - 1]);
      assert (x + y)[..|x + y| - 1] == x + y[..|y| - 1];
    }
  }

  lemma RunOne<T>(j: Job<T>, s: State<T>, i: nat)
    requires Shaped(j, s) && i < |s.pos|
    ensures Run(j, s, [i]) == Step(j, s, i)
  {
    hide Step;
    assert [i][..0] == [];
    assert Run(j, s, []) == s;
  }

  /** A worker at a tile goes on to the end of its chunk. */
  lemma {:induction false} FinishChunk<T>(j: Job<T>, s: State<T>, i: nat) returns (x: seq<nat>)
    requires Shaped(j, s) && i < |s.pos| && s.pos[i].At? && s.pos[i].k < s.pos[i].end <= |j.src|
    ensures var t := Run(j, s, x);
      t.pos == s.pos[i := Idle] && t.claims == s.claims && t.next == s.next
    decreases s.pos[i].end - s.pos[i].k
  {
    hide Visit, Run;
    var t := Step(j, s, i);
    RunOne(j, s, i);
    x := [i];
    if t.pos[i].At? {
      var y := FinishChunk(j, t, i);
      RunJoin(j, s, [i], y);
      x := [i] + y;
    }
  }

  /** A worker goes on until it is done. */
  lemma {:induction false} FinishWorker<T>(j: Job<T>, s: State<T>, i: nat) returns (x: seq<nat>)
    requires Shaped(j, s) && i < |s.pos| && ClaimsOk(j, s)
    ensures var t := Run(j, s, x);
      t.pos == s.pos[i := Done] && s.claims <= t.claims && ClaimsOk(j, t)
    decreases Max(0, |j.src| - s.next), if s.pos[i].At? then 2 else if s.pos[i].Idle? then 1 else 0
  {
    hide Visit, Run, ClaimsOk;
    if s.pos[i].Done? {
      x := [];
      RunNone(j, s);
    } else if s.pos[i].At? {
      HeldChunk(j, s, i);
      var y := FinishChunk(j, s, i);
      RunClaims(j, s, y);
      var z := FinishWorker(j, Run(j, s, y), i);
      RunJoin(j, s, y, z);
      x := y + z;
    } else {
      RunOne(j, s, i);
      StepClaims(j, s, i);
      var z := FinishWorker(j, Step(j, s, i), i);
      RunJoin(j, s, [i], z);
      x := [i] + z;
    }
  }

  lemma RunNone<T>(j: Job<T>, b: State<T>)
    requires Shaped(j, b)
    ensures Run(j, b, []) == b
  {
  }

  lemma HeldChunk<T>(j: Job<T>, s: State<T>, i: nat)
    requires ClaimsOk(j, s) && i < |s.pos| && s.pos[i].At?
    ensures s.pos[i].k < s.pos[i].end <= |j.src|
  {
    assert PosOk(j, s, i);
  }

  lemma {:induction false} RunClaims<T>(j: Job<T>, s: State<T>, x: seq<nat>)
    requires Shaped(j, s) && ClaimsOk(j, s)
    ensures ClaimsOk(j, Run(j, s, x))
  {
    hide ClaimsOk, Step;
    if x != [] {
      RunClaims(j, s, x[..|x| - 1]);
      var u := Run(j, s, x[..|x| - 1]);
      if x[|x| - 1] < |u.pos| { StepClaims(j, u, x[|x| - 1]); }
    }
  }

  /** The first `n` workers go on, one after the other, until they are done. */
  lemma {:induction false} FinishAll<T>(j: Job<T>, s: State<T>, n: nat) returns (x: seq<nat>)
    requires Shaped(j, s) && ClaimsOk(j, s) && n <= |s.pos|
    ensures forall i :: 0 <= i < n ==> Run(j, s, x).pos[i] == Done
    ensures ClaimsOk(j, Run(j, s, x))
  {
    hide ClaimsOk, Run;
    if n == 0 {
      x := [];
      RunNone(j, s);
    } else {
      var y := FinishAll(j, s, n - 1);
      var z := FinishWorker(j, Run(j, s, y), n - 1);
      RunJoin(j, s, y, z);
      x := y + z;
    }
  }

  /** Worker 0 alone handles the first `c` chunks, to the end of the last. */
  lemma {:induction false} HandleChunks<T>(j: Job<T>, b: State<T>, c: nat) returns (x: seq<nat>)
    requires Begun(j, b) && (c > 0 ==> CHUNK * (c - 1) < |j.src|)
    ensures var s := Run(j, b, x); s.pos == b.pos && |s.claims| == c && s.next == CHUNK * c
  {
    hide Run, Visit;
    if c == 0 {
      x := [];
      RunNone(j, b);
    } else {
      var y := HandleChunks(j, b, c - 1);
      var s := Run(j, b, y);
      assert s.pos[0] == Idle;
      RunOne(j, s, 0);
      var t := Step(j, s, 0);
      var z := FinishChunk(j, t, 0);
      RunJoin(j, s, [0], z);
      RunJoin(j, b, y, [0] + z);
      x := y + ([0] + z);
    }
  }

  /** What is handled stays as it is. */
  lemma {:induction false} VisitedStays<T>(j: Job<T>, s: State<T>, x: seq<nat>, k: nat)
    requires Shaped(j, s) && ClaimsOk(j, s) && k < |j.src| && Visited(s, k)
    ensures Visited(Run(j, s, x), k) && Run(j, s, x).tq[k] == s.tq[k]
  {
    hide ClaimsOk, Visited;
    if x != [] {
      var y, i := x[..|x| - 1], x[|x| - 1];
      VisitedStays(j, s, y, k);
      RunClaims(j, s, y);
      var u := Run(j, s, y);
      if i < |u.pos| { StepClaims(j, u, i); }
    }
  }

  // --------------------------------- several chunks: the results may differ

  /** After `x`, exactly the tiles of `part` among those the budget is for are handled. */
  ghost predicate Handled<T>(j: Job<T>, b: State<T>, x: seq<nat>, part: seq<bool>)
    requires Shaped(j, b)
  {
    Asked(j, b, Run(j, b, x)) == part
  }

  /** Worker 0 takes the chunks up to `c`, of which only the last has tiles to refine. */
  lemma ChunkFirst<T>(j: Job<T>, b: State<T>, c: nat) returns (x: seq<nat>)
    requires Begun(j, b) && CHUNK * c < |j.src|
    requires forall k :: 0 <= k < |j.src| && Refinable(j, b, k) ==> k / CHUNK >= c
    ensures Handled(j, b, x, InChunk(j, b, c, true))
  {
    hide Run, Refinable;
    x := HandleChunks(j, b, c + 1);
    RunInv(j, b, x);
    var s := Run(j, b, x);
    assert forall k :: 0 <= k < |j.src| ==> (Visited(s, k) <==> k / CHUNK <= c);
  }

  /** Worker 0 takes the chunks before `c`, and claims `c`; worker 1 does all the rest. */
  lemma ChunkLast<T>(j: Job<T>, b: State<T>, c: nat) returns (x: seq<nat>)
    requires Begun(j, b) && CHUNK * c < |j.src| && |b.pos| >= 2
    ensures Handled(j, b, x, InChunk(j, b, c, false))
  {
    hide Run, Refinable, ClaimsOk, Visit;
    var y := HandleChunks(j, b, c);
    RunInv(j, b, y);
    var s := Run(j, b, y);
    assert s.pos[0] == Idle && s.pos[1] == Idle;
    RunOne(j, s, 0);
    StepClaims(j, s, 0);
    var u := Step(j, s, 0);
    var z := FinishWorker(j, u, 1);
    RunJoin(j, s, [0], z);
    RunJoin(j, b, y, [0] + z);
    x := y + ([0] + z);
    RestVisited(j, Run(j, u, z), c);
    var t := Run(j, b, x);
    assert forall k :: 0 <= k < |j.src| ==> (Visited(t, k) <==> k / CHUNK != c);
  }

  lemma RestVisited<T>(j: Job<T>, s: State<T>, c: nat)
    requires ClaimsOk(j, s) && |s.pos| >= 2 && c < |s.claims|
    requires s.pos[0].At? && s.pos[0].k == CHUNK * c && s.pos[1] == Done
    requires forall i :: 2 <= i < |s.pos| ==> s.pos[i] == Idle
    ensures forall k :: 0 <= k < |j.src| ==> (Visited(s, k) <==> k / CHUNK != c)
  {
    assert PosOk(j, s, 0) && PosOk(j, s, 1);
  }

  /** The tiles the budget is for in chunk `c`, or outside it. */
  ghost function InChunk<T>(j: Job<T>, b: State<T>, c: nat, inside: bool): (f: seq<bool>)
    requires Shaped(j, b)
    ensures |f| == |j.src|
  {
    seq(|j.src|, k requires 0 <= k < |j.src| => Refinable(j, b, k) && (k / CHUNK == c <==> inside))
  }

  /** However the rest is scheduled, the budget goes to the part handled first. */
  lemma PartRefined<T>(j: Job<T>, b: State<T>, x: seq<nat>, c: nat, inside: bool) returns (y: seq<nat>)
    requires Begun(j, b) && Handled(j, b, x, InChunk(j, b, c, inside))
    ensures Finished(Run(j, b, y))
    ensures Count(RefinedPart(j, b, Run(j, b, y), c, inside)) >= Min(Count(InChunk(j, b, c, inside)), Max(0, j.budget))
  {
    hide Run, Refinable, ClaimsOk, Visited, Count;
    RunInv(j, b, x);
    var s := Run(j, b, x);
    var z := FinishAll(j, s, |s.pos|);
    RunJoin(j, b, x, z);
    y := x + z;
    var t := Run(j, b, y);
    var f, g := Refined(j, b, s), RefinedPart(j, b, t, c, inside);
    forall k | 0 <= k < |j.src| && f[k] ensures g[k] {
      assert Asked(j, b, s)[k];
      assert InChunk(j, b, c, inside)[k];
      VisitedStays(j, s, z, k);
    }
    CountWithin(f, g);
  }

  ghost function RefinedPart<T>(j: Job<T>, b: State<T>, s: State<T>, c: nat, inside: bool): (f: seq<bool>)
    requires Shaped(j, b) && Shaped(j, s)
    ensures |f| == |j.src|
  {
    seq(|j.src|, k requires 0 <= k < |j.src| => InChunk(j, b, c, inside)[k] && s.tq[k] == 0)
  }

  /** If the two results were the same, more tiles would be refined than the budget allows. */
  lemma PartsDiffer<T>(j: Job<T>, b: State<T>, x: seq<nat>, y: seq<nat>, c: nat)
    requires Begun(j, b) && Finished(Run(j, b, x)) && Finished(Run(j, b, y))
    requires 0 < j.budget < Count(Lossy(j, b))
    requires Count(InChunk(j, b, c, true)) > 0 && Count(InChunk(j, b, c, false)) > 0
    requires Count(RefinedPart(j, b, Run(j, b, x), c, true)) >= Min(Count(InChunk(j, b, c, true)), Max(0, j.budget))
    requires Count(RefinedPart(j, b, Run(j, b, y), c, false)) >= Min(Count(InChunk(j, b, c, false)), Max(0, j.budget))
    ensures Run(j, b, x).tq != Run(j, b, y).tq
  {
    hide Run, Refinable, Count, OutOnce, SentAs, Ascending, Recorded;
    EveryScheduleEncodes(j, b, x);
    var s, t := Run(j, b, x), Run(j, b, y);
    CountSplit(Lossy(j, b), InChunk(j, b, c, true), InChunk(j, b, c, false));
    CountSplit(FinalRefined(j, b, s), RefinedPart(j, b, s, c, true), RefinedPart(j, b, s, c, false));
    PartOf(j, b, s, t, c);
  }

  lemma PartOf<T>(j: Job<T>, b: State<T>, s: State<T>, t: State<T>, c: nat)
    requires Shaped(j, b) && Shaped(j, s) && Shaped(j, t)
    ensures s.tq == t.tq ==> RefinedPart(j, b, s, c, false) == RefinedPart(j, b, t, c, false)
  {
  }

  /** The first tile the budget is for. */
  lemma {:induction false} FirstOf<T>(j: Job<T>, b: State<T>, k: nat) returns (m: nat)
    requires Shaped(j, b) && k < |j.src| && Refinable(j, b, k)
    ensures m < |j.src| && Refinable(j, b, m)
    ensures forall n :: 0 <= n < |j.src| && Refinable(j, b, n) ==> m <= n
    decreases k
  {
    if n :| 0 <= n < k && Refinable(j, b, n) {
      m := FirstOf(j, b, n);
    } else {
      m := k;
    }
  }

  lemma SpreadDiffers<T>(j: Job<T>, b: State<T>) returns (x: seq<nat>, y: seq<nat>)
    requires Begun(j, b) && 0 < j.budget < Count(Lossy(j, b)) && |b.pos| >= 2 && !OneChunk(j, b)
    ensures Finished(Run(j, b, x)) && Finished(Run(j, b, y)) && Run(j, b, x).tq != Run(j, b, y).tq
  {
    hide Run, Refinable, Count, Handled;
    var k, m :| 0 <= k < |j.src| && 0 <= m < |j.src| && Refinable(j, b, k) && Refinable(j, b, m)
                && k / CHUNK != m / CHUNK;
    var first := FirstOf(j, b, k);
    var c := first / CHUNK;
    var inside, outside := InChunk(j, b, c, true), InChunk(j, b, c, false);
    CountPos(inside, first);
    CountPos(outside, if k / CHUNK != c then k else m);
    var x0 := ChunkFirst(j, b, c);
    var y0 := ChunkLast(j, b, c);
    x := PartRefined(j, b, x0, c, true);
    y := PartRefined(j, b, y0, c, false);
    PartsDiffer(j, b, x, y, c);
  }

  /** For every job and every number of workers: all complete interleavings leave the same
      qualities, and so send the same tiles, exactly when the budget is for none of the
      lossy tiles or for all of them, or there is one worker, or one chunk has all the
      tiles the budget is for. */
  lemma ScheduleMatters<T(!new)>(j: Job<T>, b: State<T>)
    requires Begun(j, b)
    ensures AlwaysSame(j, b)
       <==> j.budget <= 0 || j.budget >= Count(Lossy(j, b)) || |b.pos| == 1 || OneChunk(j, b)
  {
    hide Run, Count, OneChunk, Encoded;
    if j.budget <= 0 || j.budget >= Count(Lossy(j, b)) || |b.pos| == 1 || OneChunk(j, b) {
      forall x, y | Finished(Run(j, b, x)) && Finished(Run(j, b, y)) ensures Run(j, b, x).tq == Run(j, b, y).tq {
        if j.budget <= 0 || j.budget >= Count(Lossy(j, b)) {
          EveryScheduleEncodes(j, b, x);
          EveryScheduleEncodes(j, b, y);
          SchedulesAgree(j, b, Run(j, b, x), Run(j, b, y));
        } else {
          OrderedSame(j, b, x, y);
        }
      }
    } else {
      var x, y := SpreadDiffers(j, b);
    }
  }
}
