/** WorkerPool (host/encoder.cpp:24-54) as a machine: the caller and the workers take
    their critical sections and their jobs in any order; waiting is a guard. */
module WorkerPool {
  import opened Counting

  const TWO64 := 0x1_0000_0000_0000_0000

  /** A worker waits for a generation it has not seen, runs the job it picked up, and then
      still has to report itself done.  `runs` lists the jobs it has run, by number. */
  datatype Phase = Waiting | Running(job: nat) | Reporting | Gone

  datatype Worker = Worker(phase: Phase, seen: nat, runs: seq<nat>)

  /** run_all: idle, running its own share, or waiting for the others. */
  datatype Caller = Idle | Own | Awaiting

  /** `rounds` counts the calls of run_all; the generation is that number in 64 bits. */
  datatype State = State(rounds: nat, generation: nat, job: nat, pending: nat, quit: bool,
                         caller: Caller, own: seq<nat>, workers: seq<Worker>)

  datatype Event = Publish | OwnShare | Return | Quit | Wake(i: nat) | Finish(i: nat) | Report(i: nat)

  function Init(n: nat): State {
    State(0, 0, 0, 0, false, Idle, [], seq(n, _ => Worker(Waiting, 0, [])))
  }

  predicate Enabled(s: State, e: Event) {
    match e
    case Publish => s.caller == Idle && !s.quit
    case OwnShare => s.caller == Own
    case Return => s.caller == Awaiting && s.pending == 0
    case Quit => s.caller == Idle
    case Wake(i) => i < |s.workers| && s.workers[i].phase == Waiting && (s.quit || s.generation != s.workers[i].seen)
    case Finish(i) => i < |s.workers| && s.workers[i].phase.Running?
    case Report(i) => i < |s.workers| && s.workers[i].phase == Reporting && s.pending > 0
  }

  function Step(s: State, e: Event): State {
    if !Enabled(s, e) then s
    else match e
      case Publish =>
        s.(rounds := s.rounds + 1, generation := (s.generation + 1) % TWO64, job := s.rounds + 1,
           pending := |s.workers|, caller := Own)
      case OwnShare => s.(caller := Awaiting, own := s.own + [s.job])
      case Return => s.(caller := Idle)
      case Quit => s.(quit := true)
      case Wake(i) =>
        var w := s.workers[i];
        if s.quit then s.(workers := s.workers[i := w.(phase := Gone)])
        else s.(workers := s.workers[i := w.(phase := Running(s.job), seen := s.generation)])
      case Finish(i) =>
        var w := s.workers[i];
        s.(workers := s.workers[i := w.(phase := Reporting, runs := w.runs + [w.phase.job])])
      case Report(i) =>
        s.(workers := s.workers[i := s.workers[i].(phase := Waiting)], pending := s.pending - 1)
  }

  function Run(n: nat, es: seq<Event>): State {
    if es == [] then Init(n) else Step(Run(n, es[..|es| - 1]), es[|es| - 1])
  }

  // -------------------------------------------------------------- invariant

  /** 1, 2, ..., k */
  function UpTo(k: nat): (s: seq<nat>)
    ensures |s| == k
  {
    seq(k, i requires 0 <= i < k => i + 1)
  }

  /** Whether worker `w` has not yet reported the current round. */
  predicate Busy(w: Worker, rounds: nat) {
    |w.runs| != rounds || w.phase.Running? || w.phase == Reporting
  }

  ghost predicate WorkerOk(s: State, w: Worker) {
    && w.runs == UpTo(|w.runs|)
    && (Busy(w, s.rounds) ==> s.caller != Idle)
    && match w.phase
       case Waiting => (|w.runs| == s.rounds || |w.runs| + 1 == s.rounds) && w.seen == |w.runs| % TWO64
       case Running(job) => |w.runs| + 1 == s.rounds == job && w.seen == s.generation
       case Reporting => |w.runs| == s.rounds && w.seen == s.generation
       case Gone => |w.runs| == s.rounds && s.quit
  }

  ghost function BusyFlags(s: State): (f: seq<bool>)
    ensures |f| == |s.workers|
  {
    seq(|s.workers|, i requires 0 <= i < |s.workers| => Busy(s.workers[i], s.rounds))
  }

  ghost predicate Inv(s: State) {
    && s.generation == s.rounds % TWO64 && s.job == s.rounds
    && (s.quit ==> s.caller == Idle)
    && (s.caller == Own ==> s.rounds > 0)
    && s.own == UpTo(if s.caller == Own then s.rounds - 1 else s.rounds)
    && (forall i :: 0 <= i < |s.workers| ==> WorkerOk(s, s.workers[i]))
    && s.pending == Count(BusyFlags(s))
  }

  lemma UpToMore(k: nat)
    ensures UpTo(k) + [k + 1] == UpTo(k + 1)
  {
  }

  lemma PublishKeeps(s: State)
    requires Inv(s) && Enabled(s, Publish)
    ensures Inv(Step(s, Publish))
  {
    hide Count;
    var t := Step(s, Publish);
    forall i | 0 <= i < |t.workers| ensures WorkerOk(t, t.workers[i]) && BusyFlags(t)[i] {
      assert WorkerOk(s, s.workers[i]);
    }
    CountAll(BusyFlags(t));
  }

  lemma ReturnKeeps(s: State)
    requires Inv(s) && Enabled(s, Return)
    ensures Inv(Step(s, Return))
  {
    hide Count;
    var t := Step(s, Return);
    assert BusyFlags(t) == BusyFlags(s);
    forall i | 0 <= i < |t.workers| ensures WorkerOk(t, t.workers[i]) {
      assert WorkerOk(s, s.workers[i]);
      if BusyFlags(s)[i] { CountPos(BusyFlags(s), i); }
    }
  }

  lemma WorkerKeeps(s: State, e: Event)
    requires Inv(s) && Enabled(s, e) && (e.Wake? || e.Finish? || e.Report?)
    ensures Inv(Step(s, e))
  {
    hide Count;
    var t, i := Step(s, e), e.i;
    var w := s.workers[i];
    assert WorkerOk(s, w);
    UpToMore(|w.runs|);
    assert WorkerOk(t, t.workers[i]);
    forall m | 0 <= m < |t.workers| && m != i ensures WorkerOk(t, t.workers[m]) {
      assert WorkerOk(s, s.workers[m]);
    }
    if e.Report? {
      CountClear(BusyFlags(s), i);
      assert BusyFlags(t) == BusyFlags(s)[i := false];
    } else {
      assert BusyFlags(t) == BusyFlags(s);
    }
  }

  lemma StepKeeps(s: State, e: Event)
    requires Inv(s)
    ensures Inv(Step(s, e))
  {
    hide Count, UpTo;
    if Enabled(s, e) {
      match e
      case Publish => PublishKeeps(s);
      case OwnShare =>
        UpToMore(s.rounds - 1);
        SameWorkers(s, Step(s, e));
      case Return => ReturnKeeps(s);
      case Quit => SameWorkers(s, Step(s, e));
      case Wake(i) => WorkerKeeps(s, e);
      case Finish(i) => WorkerKeeps(s, e);
      case Report(i) => WorkerKeeps(s, e);
    }
  }

  lemma SameWorkers(s: State, t: State)
    requires s.workers == t.workers && s.rounds == t.rounds && s.generation == t.generation
    requires (s.caller == Idle <==> t.caller == Idle) && (s.quit ==> t.quit)
    requires forall i :: 0 <= i < |s.workers| ==> WorkerOk(s, s.workers[i])
    ensures BusyFlags(s) == BusyFlags(t) && forall i :: 0 <= i < |t.workers| ==> WorkerOk(t, t.workers[i])
  {
    forall i | 0 <= i < |t.workers| ensures WorkerOk(t, t.workers[i]) { assert WorkerOk(s, s.workers[i]); }
  }

  lemma {:induction false} RunKeeps(n: nat, es: seq<Event>)
    ensures Inv(Run(n, es))
  {
    hide Step, Inv;
    if es == [] {
      InitKeeps(n);
    } else {
      RunKeeps(n, es[..|es| - 1]);
      StepKeeps(Run(n, es[..|es| - 1]), es[|es| - 1]);
    }
  }

  lemma InitKeeps(n: nat)
    ensures Inv(Init(n))
  {
    CountNone(BusyFlags(Init(n)));
  }

  // --------------------------------------------------------------- theorems

  /** In every interleaving each worker has run jobs 1, 2, 3, ... once each and in order,
      at most the current one still missing. */
  lemma EachJobOnce(n: nat, es: seq<Event>, i: nat)
    requires i < |Run(n, es).workers|
    ensures var s := Run(n, es);
      var runs := s.workers[i].runs;
      runs == UpTo(|runs|) && (|runs| == s.rounds || |runs| + 1 == s.rounds)
  {
    hide Run, UpTo, Count;
    RunKeeps(n, es);
    assert WorkerOk(Run(n, es), Run(n, es).workers[i]);
  }

  /** run_all returns only when every worker, and the caller, has run every job, and none
      still holds one. */
  lemma ReturnedMeansDone(n: nat, es: seq<Event>, i: nat)
    requires Run(n, es).caller == Idle && i < |Run(n, es).workers|
    ensures var s := Run(n, es);
      && s.workers[i].runs == UpTo(s.rounds) && s.own == UpTo(s.rounds)
      && !s.workers[i].phase.Running? && s.workers[i].phase != Reporting
  {
    hide Run, UpTo, Count;
    RunKeeps(n, es);
    assert WorkerOk(Run(n, es), Run(n, es).workers[i]);
  }

  // --------------------------------------------------------------- progress

  /** The steps a worker still has in this round. */
  function Left(w: Worker, rounds: nat): nat {
    match w.phase
    case Waiting => if |w.runs| == rounds then 0 else 3
    case Running(_) => 2
    case Reporting => 1
    case Gone => 0
  }

  function AllLeft(ws: seq<Worker>, rounds: nat): nat {
    if ws == [] then 0 else AllLeft(ws[..|ws| - 1], rounds) + Left(ws[|ws| - 1], rounds)
  }

  function Measure(s: State): nat {
    AllLeft(s.workers, s.rounds) + match s.caller case Idle => 0 case Awaiting => 1 case Own => 2
  }

  lemma {:induction false} LeftUpdate(ws: seq<Worker>, i: nat, w: Worker, rounds: nat)
    requires i < |ws|
    ensures AllLeft(ws[i := w], rounds) + Left(ws[i], rounds) == AllLeft(ws, rounds) + Left(w, rounds)
  {
    hide Left;
    var n := |ws| - 1;
    if i < n {
      LeftUpdate(ws[..n], i, w, rounds);
      assert ws[i := w][..n] == ws[..n][i := w];
    } else {
      assert ws[i := w][..n] == ws[..n];
    }
  }

  /** While run_all is in progress every step brings it nearer its return, and some step
      is always possible: it cannot get stuck. */
  lemma RoundEnds(s: State, e: Event)
    requires Inv(s) && s.caller != Idle && Enabled(s, e)
    ensures Measure(Step(s, e)) < Measure(s)
  {
    hide Count, UpTo;
    if e.Wake? || e.Finish? || e.Report? {
      assert WorkerOk(s, s.workers[e.i]);
      LeftUpdate(s.workers, e.i, Step(s, e).workers[e.i], s.rounds);
      NextDiffers(s.rounds);
    }
  }

  lemma NextDiffers(rounds: nat)
    ensures rounds > 0 ==> (rounds - 1) % TWO64 != rounds % TWO64
  {
  }

  lemma NeverStuck(s: State)
    requires Inv(s) && s.caller != Idle
    ensures exists e :: Enabled(s, e)
  {
    hide Count, UpTo;
    if s.caller == Own {
      assert Enabled(s, OwnShare);
    } else if s.pending == 0 {
      assert Enabled(s, Return);
    } else {
      SomeBusy(s);
      var i :| 0 <= i < |s.workers| && BusyFlags(s)[i];
      assert WorkerOk(s, s.workers[i]);
      NextDiffers(s.rounds);
      assert Enabled(s, Wake(i)) || Enabled(s, Finish(i)) || Enabled(s, Report(i));
    }
  }

  lemma SomeBusy(s: State)
    requires Inv(s) && s.pending > 0
    ensures exists i :: 0 <= i < |s.workers| && BusyFlags(s)[i]
  {
    hide Count, WorkerOk;
    if forall i :: 0 <= i < |s.workers| ==> !BusyFlags(s)[i] {
      CountNone(BusyFlags(s));
    }
  }

  /** Once the pool is told to quit, no worker takes a job again: each that is not gone is
      waiting, can wake, and is gone then. */
  lemma QuitEnds(n: nat, es: seq<Event>, i: nat)
    requires i < |Step(Run(n, es), Quit).workers| && Run(n, es).caller == Idle
    ensures var s := Step(Run(n, es), Quit);
      && s.quit && !Enabled(s, Publish) && (s.workers[i].phase == Waiting || s.workers[i].phase == Gone)
      && (s.workers[i].phase == Waiting ==> Enabled(s, Wake(i)) && Step(s, Wake(i)).workers[i].phase == Gone)
  {
    hide Run, UpTo, Count;
    RunKeeps(n, es);
    assert WorkerOk(Run(n, es), Run(n, es).workers[i]);
  }
}
