/** run_all around the encode (host/encoder.cpp:34-54, 79-119): the pool's critical sections
    and the workers' steps in any order.  A worker steps only while it runs the job, and
    its job returns only when it finds no more tiles. */
module EncodeRound {
  import opened Bytes
  import opened Counting
  import C = Claiming
  import P = WorkerPool

  /** The pool, the encode, and the order in which its steps came; the caller of run_all is
      the encode's worker 0, worker i of the pool its worker i + 1. */
  datatype State<T> = State(pool: P.State, work: C.State<T>, schedule: seq<nat>)

  datatype Event = Pool(e: P.Event) | Work(i: nat)

  predicate Runs(p: P.State, i: nat) {
    if i == 0 then p.caller == P.Own else i <= |p.workers| && p.workers[i - 1].phase.Running?
  }

  /** A job returns when its worker is done; run_all is called once. */
  predicate Enabled<T(==)>(s: State<T>, e: Event) {
    s.pool.caller != P.Idle && |s.work.pos| == |s.pool.workers| + 1 &&
    match e
    case Work(i) => i < |s.work.pos| && Runs(s.pool, i) && s.work.pos[i] != C.Done
    case Pool(OwnShare) => P.Enabled(s.pool, P.OwnShare) && s.work.pos[0] == C.Done
    case Pool(Finish(i)) => P.Enabled(s.pool, P.Finish(i)) && s.work.pos[i + 1] == C.Done
    case Pool(p) => P.Enabled(s.pool, p)
  }

  function Step<T(==)>(j: C.Job<T>, s: State<T>, e: Event): (t: State<T>)
    requires C.Shaped(j, s.work)
    ensures C.Shaped(j, t.work)
  {
    if !Enabled(s, e) then s
    else match e
      case Work(i) => s.(work := C.Step(j, s.work, i), schedule := s.schedule + [i])
      case Pool(p) => s.(pool := P.Step(s.pool, p))
  }

  /** From the moment run_all publishes the job. */
  function Begin<T>(p: P.State, b: C.State<T>): State<T> {
    State(P.Step(p, P.Publish), b, [])
  }

  function Run<T(==)>(j: C.Job<T>, p: P.State, b: C.State<T>, es: seq<Event>): (s: State<T>)
    requires C.Shaped(j, b)
    ensures C.Shaped(j, s.work)
  {
    if es == [] then Begin(p, b) else Step(j, Run(j, p, b, es[..|es| - 1]), es[|es| - 1])
  }

  // -------------------------------------------------------------- invariant

  /** Worker i + 1 of the encode has nothing left once the pool's worker i has run the job. */
  ghost predicate ShareDone<T>(s: State<T>, i: nat)
    requires i < |s.pool.workers| && |s.work.pos| == |s.pool.workers| + 1
  {
    |s.pool.workers[i].runs| == s.pool.rounds ==> s.work.pos[i + 1] == C.Done
  }

  ghost predicate Inv<T>(j: C.Job<T>, b: C.State<T>, s: State<T>) {
    && P.Inv(s.pool) && C.Begun(j, b) && |b.pos| == |s.pool.workers| + 1
    && s.work == C.Run(j, b, s.schedule)
    && (s.pool.caller != P.Own ==> s.work.pos[0] == C.Done)
    && forall i :: 0 <= i < |s.pool.workers| ==> ShareDone(s, i)
  }

  lemma WorkKeeps<T>(j: C.Job<T>, b: C.State<T>, s: State<T>, i: nat)
    requires Inv(j, b, s) && Enabled(s, Work(i))
    ensures Inv(j, b, Step(j, s, Work(i)))
  {
    hide P.Inv, C.Visit;
    var t := Step(j, s, Work(i));
    assert t.schedule[..|t.schedule| - 1] == s.schedule;
    forall m | 0 <= m < |t.pool.workers| ensures ShareDone(t, m) { assert ShareDone(s, m); }
  }

  lemma PoolKeeps<T>(j: C.Job<T>, b: C.State<T>, s: State<T>, p: P.Event)
    requires Inv(j, b, s) && Enabled(s, Pool(p))
    ensures Inv(j, b, Step(j, s, Pool(p)))
  {
    hide C.Run, P.UpTo, Count;
    P.StepKeeps(s.pool, p);
    var t := Step(j, s, Pool(p));
    forall m | 0 <= m < |t.pool.workers| ensures ShareDone(t, m) {
      assert ShareDone(s, m) && P.WorkerOk(s.pool, s.pool.workers[m]);
    }
  }

  lemma BeginKeeps<T>(j: C.Job<T>, b: C.State<T>, p: P.State)
    requires P.Inv(p) && P.Enabled(p, P.Publish) && C.Begun(j, b) && |b.pos| == |p.workers| + 1
    ensures Inv(j, b, Begin(p, b))
  {
    hide P.UpTo, Count;
    P.StepKeeps(p, P.Publish);
    var s := Begin(p, b);
    forall i | 0 <= i < |s.pool.workers| ensures ShareDone(s, i) { assert P.WorkerOk(p, p.workers[i]); }
  }

  lemma {:induction false} RunKeeps<T>(j: C.Job<T>, b: C.State<T>, p: P.State, es: seq<Event>)
    requires P.Inv(p) && P.Enabled(p, P.Publish) && C.Begun(j, b) && |b.pos| == |p.workers| + 1
    ensures Inv(j, b, Run(j, p, b, es))
  {
    hide Step, Inv, P.Inv;
    if es == [] {
      BeginKeeps(j, b, p);
    } else {
      var s, e := Run(j, p, b, es[..|es| - 1]), es[|es| - 1];
      RunKeeps(j, b, p, es[..|es| - 1]);
      Same(j, s, e);
      if Enabled(s, e) {
        match e
        case Work(i) => WorkKeeps(j, b, s, i);
        case Pool(q) => PoolKeeps(j, b, s, q);
      }
    }
  }

  lemma Same<T>(j: C.Job<T>, s: State<T>, e: Event)
    requires C.Shaped(j, s.work)
    ensures !Enabled(s, e) ==> Step(j, s, e) == s
  {
  }

  // --------------------------------------------------------------- theorems

  /** Whatever the pool has done before and however the threads interleave: when run_all
      has returned, all workers of the encode are done, and so the encode is complete. */
  lemma {:induction false} ReturnedMeansEncoded<T>(n: nat, before: seq<P.Event>, j: C.Job<T>, b: C.State<T>, es: seq<Event>)
    requires P.Enabled(P.Run(n, before), P.Publish) && C.Begun(j, b) && |b.pos| == |P.Run(n, before).workers| + 1
    ensures var s := Run(j, P.Run(n, before), b, es);
      s.pool.caller == P.Idle ==> C.Finished(s.work) && C.Encoded(j, b, s.work)
  {
    hide Run, P.Run, C.Run, C.Encoded, Count, P.UpTo;
    P.RunKeeps(n, before);
    RunKeeps(j, b, P.Run(n, before), es);
    var s := Run(j, P.Run(n, before), b, es);
    if s.pool.caller == P.Idle {
      forall i | 0 <= i < |s.work.pos| ensures s.work.pos[i] == C.Done {
        if i > 0 { assert P.WorkerOk(s.pool, s.pool.workers[i - 1]) && ShareDone(s, i - 1); }
      }
      C.EveryScheduleEncodes(j, b, s.schedule);
    }
  }

  // --------------------------------------------------------------- progress

  /** Steps a worker still has with what it holds. */
  function Holding(p: C.Pos): nat {
    match p case Idle => 1 case At(k, end) => if k < end then end - k + 1 else 1 case Done => 0
  }

  function AllHolding(ps: seq<C.Pos>): nat {
    if ps == [] then 0 else AllHolding(ps[..|ps| - 1]) + Holding(ps[|ps| - 1])
  }

  lemma {:induction false} HoldingUpdate(ps: seq<C.Pos>, i: nat, p: C.Pos)
    requires i < |ps|
    ensures AllHolding(ps[i := p]) + Holding(ps[i]) == AllHolding(ps) + Holding(p)
  {
    hide Holding;
    var n := |ps| - 1;
    if i < n {
      HoldingUpdate(ps[..n], i, p);
      assert ps[i := p][..n] == ps[..n][i := p];
    } else {
      assert ps[i := p][..n] == ps[..n];
    }
  }

  function Measure<T>(j: C.Job<T>, s: State<T>): nat {
    P.Measure(s.pool) + 2 * Max(0, |j.src| - s.work.next) + AllHolding(s.work.pos)
  }

  lemma WorkLowers<T>(j: C.Job<T>, s: C.State<T>, i: nat)
    requires C.Shaped(j, s) && C.ClaimsOk(j, s) && i < |s.pos| && s.pos[i] != C.Done
    ensures var t := C.Step(j, s, i);
      2 * Max(0, |j.src| - t.next) + AllHolding(t.pos) < 2 * Max(0, |j.src| - s.next) + AllHolding(s.pos)
  {
    hide C.Visit, AllHolding;
    assert C.PosOk(j, s, i);
    HoldingUpdate(s.pos, i, C.Step(j, s, i).pos[i]);
    assert C.Step(j, s, i).pos == s.pos[i := C.Step(j, s, i).pos[i]];
  }

  /** While run_all is in progress every step, of the pool or of a worker, brings its return
      nearer, and some step is possible: however it is scheduled, the encode ends. */
  lemma RoundEnds<T>(j: C.Job<T>, b: C.State<T>, s: State<T>, e: Event)
    requires Inv(j, b, s) && Enabled(s, e)
    ensures Measure(j, Step(j, s, e)) < Measure(j, s)
  {
    hide P.Inv, P.Measure, C.Run, AllHolding, C.Step, C.ClaimsOk, P.Step;
    match e
    case Work(i) =>
      C.RunInv(j, b, s.schedule);
      WorkLowers(j, s.work, i);
    case Pool(p) =>
      P.RoundEnds(s.pool, p);
  }

  lemma NeverStuck<T>(j: C.Job<T>, b: C.State<T>, s: State<T>)
    requires Inv(j, b, s) && s.pool.caller != P.Idle
    ensures exists e :: Enabled(s, e)
  {
    hide P.Inv, C.Run;
    P.NeverStuck(s.pool);
    var p :| P.Enabled(s.pool, p);
    if p.OwnShare? {
      assert Enabled(s, Pool(p)) || Enabled(s, Work(0));
    } else if p.Finish? {
      assert Enabled(s, Pool(p)) || Enabled(s, Work(p.i + 1));
    } else {
      assert Enabled(s, Pool(p));
    }
  }
}
