/** Brute-force protection (host/server.cpp:631-666, 1123-1151): a pause for everyone after
    30 recent failures, and a growing pause for an address after its fifth in a row. */
module Limiter {
  import opened Bytes

  const SECOND := 1000000
  const MINUTE := 60 * SECOND
  const MAX_RECENT := 30

  datatype Failures = Failures(count: nat, until: nat)

  datatype State = State(recent: seq<nat>, failures: map<string, Failures>)

  /** 30 s doubling with each failure from the fifth on, at most 15 minutes. */
  function LockSeconds(count: nat): nat
    requires count >= 5
  {
    Min(900, 30 * Pow2(Min(count - 5, 5)))
  }

  /** The pause grows with each further failure exactly up to the tenth in a row. */
  lemma PauseGrows(count: nat)
    requires count >= 5
    ensures LockSeconds(count) < LockSeconds(count + 1) <==> count < 10
    ensures LockSeconds(count) <= LockSeconds(count + 1) <= 900
  {
    assert Pow2(0) == 1 && Pow2(1) == 2 && Pow2(2) == 4 && Pow2(3) == 8 && Pow2(4) == 16 && Pow2(5) == 32;
    assert count == 5 || count == 6 || count == 7 || count == 8 || count == 9 || count >= 10;
  }

  predicate Old(t: nat, now: nat) {
    now - t > MINUTE
  }

  /** The failures of the last minute. */
  function Recent(ts: seq<nat>, now: nat): seq<nat> {
    if ts == [] then []
    else Recent(ts[..|ts| - 1], now) + if Old(ts[|ts| - 1], now) then [] else [ts[|ts| - 1]]
  }

  /** Whether `addr` must wait, by two readings of the clock. */
  predicate Locked(s: State, addr: string, now: nat, later: nat) {
    |Recent(s.recent, now)| >= MAX_RECENT || (addr in s.failures && s.failures[addr].until > later)
  }

  function Recorded(s: State, addr: string, now: nat, later: nat): State {
    var n := if addr in s.failures then s.failures[addr].count + 1 else 1;
    var until := if n >= 5 then later + LockSeconds(n) * SECOND
                 else if addr in s.failures then s.failures[addr].until else 0;
    State(s.recent + [now], s.failures[addr := Failures(n, until)])
  }

  class LoginLimiter {
    var failures: map<string, Failures>
    var recent: seq<nat>

    ghost function View(): State
      reads this
    {
      State(recent, failures)
    }

    constructor ()
      ensures View() == State([], map[])
    {
      failures, recent := map[], [];
    }

    /** locked_out: forgets failures over a minute old, then tells how many seconds to
        wait; waiting them is long enough. */
    method LockedOut(addr: string, now: nat, later: nat) returns (wait: Option<nat>)
      requires now <= later && forall t :: t in recent ==> t <= now
      modifies this`recent
      ensures recent == Recent(old(recent), now)
      ensures wait.Some? <==> Locked(old(View()), addr, now, later)
      ensures wait.Some? && |recent| >= MAX_RECENT ==> Old(recent[0], now + wait.value * SECOND)
      ensures wait.Some? && |recent| < MAX_RECENT ==> failures[addr].until <= later + wait.value * SECOND
    {
      Prune(now);
      if |recent| >= MAX_RECENT {
        Kept(old(recent), now);
        assert recent[0] in recent;
        return Some((recent[0] + MINUTE - now) / SECOND + 1);
      }
      if addr !in failures || failures[addr].until <= later { return None; }
      wait := Some((failures[addr].until - later) / SECOND + 1);
    }

    /** The erase/remove_if of old entries. */
    method Prune(now: nat)
      modifies this`recent
      ensures recent == Recent(old(recent), now)
    {
      var kept: seq<nat> := [];
      var i := 0;
      while i < |recent|
        invariant 0 <= i <= |recent| && kept == Recent(recent[..i], now)
      {
        assert recent[..i + 1][..i] == recent[..i];
        if !Old(recent[i], now) { kept := kept + [recent[i]]; }
        i := i + 1;
      }
      assert recent[..|recent|] == recent;
      recent := kept;
    }

    method RecordFailure(addr: string, now: nat, later: nat)
      modifies this
      ensures View() == Recorded(old(View()), addr, now, later)
    {
      recent := recent + [now];
      var f := if addr in failures then failures[addr] else Failures(0, 0);
      f := f.(count := f.count + 1);
      if f.count >= 5 {
        var secs := Min(900, 30 * Pow2(Min(f.count - 5, 5)));
        f := f.(until := later + secs * SECOND);
      }
      failures := failures[addr := f];
    }

    /** The Auth branch of handle_message: refused, wrong, full, or let in. */
    method Authenticate(a: Attempt) returns (entered: Option<Entry>)
      requires a.check <= a.check2 && forall t :: t in recent ==> t <= a.check
      modifies this
      ensures var t := Try(Trace(old(View()), [], 0), a);
        View() == t.state && (if entered.Some? then [entered.value] else []) == t.entries
    {
      var wait := LockedOut(a.addr, a.check, a.check2);
      if wait.Some? { return None; }
      if !a.macOk {
        RecordFailure(a.addr, a.record, a.record2);
        return Some(Fail(a.addr, a.record, a.record2));
      }
      if a.full { return None; }
      failures := failures - {a.addr};
      entered := Some(Success(a.addr));
    }
  }

  lemma {:induction false} Kept(ts: seq<nat>, now: nat)
    ensures forall t :: t in Recent(ts, now) <==> t in ts && !Old(t, now)
  {
    if ts != [] { Kept(ts[..|ts| - 1], now); }
  }

  // ------------------------------------------------------------------ traces

  /** An authentication message: the clock readings of its checks, and what they find. */
  datatype Attempt = Attempt(addr: string, check: nat, check2: nat, record: nat, record2: nat, macOk: bool, full: bool)

  /** What became of the attempts that got past the limiter; a failure is recorded by two
      readings of the clock. */
  datatype Entry = Fail(addr: string, at: nat, done: nat) | Success(addr: string)

  datatype Trace = Trace(state: State, entries: seq<Entry>, now: nat)

  predicate InOrder(t: Trace, a: Attempt) {
    t.now <= a.check <= a.check2 <= a.record <= a.record2
  }

  /** The Auth branch of handle_message. */
  function Try(t: Trace, a: Attempt): Trace {
    var s := t.state.(recent := Recent(t.state.recent, a.check));
    if Locked(t.state, a.addr, a.check, a.check2) then Trace(s, t.entries, a.record2)
    else if !a.macOk then
      Trace(Recorded(s, a.addr, a.record, a.record2), t.entries + [Fail(a.addr, a.record, a.record2)], a.record2)
    else if a.full then Trace(s, t.entries, a.record2)
    else Trace(s.(failures := s.failures - {a.addr}), t.entries + [Success(a.addr)], a.record2)
  }

  function Run(attempts: seq<Attempt>): Trace {
    if attempts == [] then Trace(State([], map[]), [], 0)
    else
      var t, a := Run(attempts[..|attempts| - 1]), attempts[|attempts| - 1];
      if InOrder(t, a) then Try(t, a) else t
  }

  /** The times of all recorded failures. */
  function Times(es: seq<Entry>): seq<nat> {
    if es == [] then []
    else
      var e := es[|es| - 1];
      Times(es[..|es| - 1]) + if e.Fail? then [e.at] else []
  }

  /** Failures of `addr` in a row, and when the last of them was. */
  function Streak(es: seq<Entry>, addr: string): nat {
    if es == [] then 0
    else
      var e := es[|es| - 1];
      var n := Streak(es[..|es| - 1], addr);
      if e.addr != addr then n else if e.Fail? then n + 1 else 0
  }

  function LastFail(es: seq<Entry>, addr: string): nat {
    if es == [] then 0
    else
      var e := es[|es| - 1];
      if e.Fail? && e.addr == addr then e.at else LastFail(es[..|es| - 1], addr)
  }

  function LastDone(es: seq<Entry>, addr: string): nat {
    if es == [] then 0
    else
      var e := es[|es| - 1];
      if e.Fail? && e.addr == addr then e.done else LastDone(es[..|es| - 1], addr)
  }

  // -------------------------------------------------------------- invariants

  ghost predicate Sorted(ts: seq<nat>, now: nat) {
    (forall i, j :: 0 <= i < j < |ts| ==> ts[i] <= ts[j]) && forall i :: 0 <= i < |ts| ==> ts[i] <= now
  }

  /** What is remembered is the end of the list of failures; the rest is over a minute old. */
  ghost predicate Remembers(t: Trace) {
    var ts := Times(t.entries);
    && Sorted(ts, t.now)
    && |t.state.recent| <= |ts|
    && t.state.recent == ts[|ts| - |t.state.recent|..]
    && forall i :: 0 <= i < |ts| - |t.state.recent| ==> Old(ts[i], t.now)
  }

  /** Any 31 failures in a row span more than a minute. */
  ghost predicate Spread(ts: seq<nat>) {
    forall i, j :: 0 <= i && j == i + MAX_RECENT && j < |ts| ==> ts[j] - ts[i] > MINUTE
  }

  /** Each address's count is its streak, and a long streak locks it from its last failure. */
  ghost predicate CountsFailures(t: Trace) {
    forall a :: CountOk(t, a)
  }

  ghost predicate CountOk(t: Trace, a: string) {
    var n := Streak(t.entries, a);
    && (n > 0 <==> a in t.state.failures)
    && (n > 0 ==> t.state.failures[a].count == n)
    && (n > 0 ==> t.state.failures[a].until == if n >= 5 then LastDone(t.entries, a) + LockSeconds(n) * SECOND else 0)
    && LastFail(t.entries, a) <= LastDone(t.entries, a)
  }

  /** Every failure comes as long after the address's previous one as its streak then
      demanded. */
  ghost predicate Spaced(es: seq<Entry>) {
    forall j :: 0 <= j < |es| && es[j].Fail? ==> SpacedAt(es, j)
  }

  ghost predicate SpacedAt(es: seq<Entry>, j: nat)
    requires j < |es| && es[j].Fail?
  {
    var n := Streak(es[..j], es[j].addr);
    n >= 5 ==> es[j].at - LastFail(es[..j], es[j].addr) >= LockSeconds(n) * SECOND
  }

  ghost predicate Inv(t: Trace) {
    Remembers(t) && Spread(Times(t.entries)) && CountsFailures(t) && Spaced(t.entries)
  }

  /** Forgetting drops a prefix of a sorted list. */
  lemma {:induction false} RecentIsSuffix(ts: seq<nat>, now: nat)
    requires Sorted(ts, now)
    ensures var r := Recent(ts, now);
      |r| <= |ts| && r == ts[|ts| - |r|..] && forall i :: 0 <= i < |ts| - |r| ==> Old(ts[i], now)
  {
    if ts != [] {
      var n := |ts| - 1;
      RecentIsSuffix(ts[..n], now);
      if Old(ts[n], now) {
        assert forall t :: t in ts[..n] ==> Old(t, now);
        Kept(ts[..n], now);
        RecentNone(ts[..n], now);
      }
    }
  }

  lemma RecentNone(ts: seq<nat>, now: nat)
    requires forall t :: t in ts ==> Old(t, now)
    ensures Recent(ts, now) == []
  {
    Kept(ts, now);
    if Recent(ts, now) != [] { assert Recent(ts, now)[0] in Recent(ts, now); }
  }

  lemma TimesMore(es: seq<Entry>, e: Entry)
    ensures Times(es + [e]) == Times(es) + if e.Fail? then [e.at] else []
    ensures forall a :: Streak(es + [e], a) == if e.addr != a then Streak(es, a) else if e.Fail? then Streak(es, a) + 1 else 0
    ensures forall a :: LastFail(es + [e], a) == if e.Fail? && e.addr == a then e.at else LastFail(es, a)
    ensures forall a :: LastDone(es + [e], a) == if e.Fail? && e.addr == a then e.done else LastDone(es, a)
  {
    assert (es + [e])[..|es|] == es;
  }

  /** After the check nothing older than a minute is remembered. */
  lemma CheckRemembers(t: Trace, now: nat)
    requires Remembers(t) && t.now <= now
    ensures Remembers(Trace(t.state.(recent := Recent(t.state.recent, now)), t.entries, now))
  {
    hide Times, Recent;
    TailForgets(Times(t.entries), t.state.recent, t.now, now);
  }

  lemma TailForgets(ts: seq<nat>, r: seq<nat>, before: nat, now: nat)
    requires Sorted(ts, before) && before <= now && |r| <= |ts| && r == ts[|ts| - |r|..]
    requires forall i :: 0 <= i < |ts| - |r| ==> Old(ts[i], before)
    ensures var k := Recent(r, now);
      |k| <= |ts| && k == ts[|ts| - |k|..] && forall i :: 0 <= i < |ts| - |k| ==> Old(ts[i], now)
  {
    hide Recent;
    var d := |ts| - |r|;
    RecentIsSuffix(r, now);
    var k := Recent(r, now);
    forall i | 0 <= i < |ts| - |k| ensures Old(ts[i], now) {
      if i >= d { assert ts[i] == r[i - d]; }
    }
  }

  /** A failure recorded with fewer than 30 remembered. */
  lemma RecordKeeps(t: Trace, a: Attempt)
    requires Inv(t) && InOrder(t, a) && !Locked(t.state, a.addr, a.check, a.check2) && !a.macOk
    ensures Inv(Try(t, a))
  {
    hide Times, Streak, LastFail, LastDone, LockSeconds;
    CheckRemembers(t, a.check);
    var c := Trace(t.state.(recent := Recent(t.state.recent, a.check)), t.entries, a.check);
    var ts, u := Times(t.entries), Try(t, a);
    TimesMore(t.entries, Fail(a.addr, a.record, a.record2));
    assert Times(u.entries) == ts + [a.record];
    RecordRemembers(c, a.record, a.record2, u);
    RecordSpreads(c, a.record);
    forall b ensures CountOk(u, b) { assert CountOk(t, b); }
    RecordSpaces(t, a);
  }

  lemma RecordRemembers(c: Trace, record: nat, record2: nat, u: Trace)
    requires Remembers(c) && c.now <= record <= record2 && u.now == record2
    requires Times(u.entries) == Times(c.entries) + [record] && u.state.recent == c.state.recent + [record]
    ensures Remembers(u)
  {
    hide Times;
  }

  lemma RecordSpreads(c: Trace, record: nat)
    requires Remembers(c) && Spread(Times(c.entries)) && |c.state.recent| < MAX_RECENT && c.now <= record
    ensures Spread(Times(c.entries) + [record])
  {
    hide Times;
    var ts := Times(c.entries) + [record];
    forall i, j | 0 <= i && j == i + MAX_RECENT && j < |ts| ensures ts[j] - ts[i] > MINUTE {
      if j == |ts| - 1 { assert Old(ts[i], c.now); }
    }
  }

  lemma RecordSpaces(t: Trace, a: Attempt)
    requires CountsFailures(t) && Spaced(t.entries) && InOrder(t, a) && !Locked(t.state, a.addr, a.check, a.check2)
    ensures Spaced(t.entries + [Fail(a.addr, a.record, a.record2)])
  {
    hide Streak, LastFail, LastDone, LockSeconds, Recent;
    var es := t.entries + [Fail(a.addr, a.record, a.record2)];
    assert CountOk(t, a.addr);
    forall j | 0 <= j < |es| && es[j].Fail? ensures SpacedAt(es, j) {
      assert es[..j] == t.entries[..j];
      if j < |t.entries| { assert SpacedAt(t.entries, j); } else { assert t.entries[..j] == t.entries; }
    }
  }

  lemma SuccessKeeps(t: Trace, a: Attempt)
    requires Inv(t) && InOrder(t, a) && !Locked(t.state, a.addr, a.check, a.check2) && a.macOk && !a.full
    ensures Inv(Try(t, a))
  {
    hide Times, Streak, LastFail, LastDone, LockSeconds;
    CheckRemembers(t, a.check);
    var u := Try(t, a);
    TimesMore(t.entries, Success(a.addr));
    assert Times(t.entries) + [] == Times(t.entries);
    forall b ensures CountOk(u, b) { assert CountOk(t, b); }
    forall j | 0 <= j < |u.entries| && u.entries[j].Fail? ensures SpacedAt(u.entries, j) {
      assert u.entries[..j] == t.entries[..j];
      assert SpacedAt(t.entries, j);
    }
  }

  lemma RefusedKeeps(t: Trace, a: Attempt)
    requires Inv(t) && InOrder(t, a) && (Locked(t.state, a.addr, a.check, a.check2) || (a.macOk && a.full))
    ensures Inv(Try(t, a))
  {
    hide Times, Streak, LastFail, LastDone, LockSeconds, Spaced;
    CheckRemembers(t, a.check);
    forall b ensures CountOk(Try(t, a), b) { assert CountOk(t, b); }
  }

  lemma {:induction false} RunKeeps(attempts: seq<Attempt>)
    ensures Inv(Run(attempts))
  {
    hide Inv, Try, Locked;
    if attempts == [] {
      NothingYet();
    } else {
      var t, a := Run(attempts[..|attempts| - 1]), attempts[|attempts| - 1];
      RunKeeps(attempts[..|attempts| - 1]);
      if InOrder(t, a) {
        if !Locked(t.state, a.addr, a.check, a.check2) && !a.macOk { RecordKeeps(t, a); }
        else if !Locked(t.state, a.addr, a.check, a.check2) && !a.full { SuccessKeeps(t, a); }
        else { RefusedKeeps(t, a); }
      }
    }
  }

  lemma NothingYet()
    ensures Inv(Trace(State([], map[]), [], 0))
  {
    hide LockSeconds;
    var t := Trace(State([], map[]), [], 0);
    assert Times(t.entries) == [];
    forall a ensures CountOk(t, a) { assert Streak(t.entries, a) == 0; }
  }

  /** Over whole traces, from any mix of addresses: 31 recorded failures in a row span more
      than 60 s. */
  lemma ThirtyOneSpanAMinute(attempts: seq<Attempt>, i: nat)
    requires i + MAX_RECENT < |Times(Run(attempts).entries)|
    ensures Times(Run(attempts).entries)[i + MAX_RECENT] - Times(Run(attempts).entries)[i] > MINUTE
  {
    hide Run, Times, Remembers, CountsFailures, Spaced;
    RunKeeps(attempts);
  }

  /** Over whole traces: after an address's k-th failure in a row, k >= 5, its next recorded
      failure comes at least min(900, 30 * 2^min(k-5, 5)) seconds later. */
  lemma LongStreaksWait(attempts: seq<Attempt>, j: nat)
    requires j < |Run(attempts).entries| && Run(attempts).entries[j].Fail?
    ensures var es := Run(attempts).entries;
      var k := Streak(es[..j], es[j].addr);
      k >= 5 ==> es[j].at - LastFail(es[..j], es[j].addr) >= Min(900, 30 * Pow2(Min(k - 5, 5))) * SECOND
  {
    hide Run, Times, Remembers, CountsFailures, Spread;
    RunKeeps(attempts);
    assert SpacedAt(Run(attempts).entries, j);
  }

  /** Over whole traces, exactly when an address must wait: while the thirtieth failure from
      the end, from any address, is at most a minute old, or, after k >= 5 failures of its
      own in a row, until min(900, 30 * 2^min(k-5, 5)) seconds after the last of them. */
  lemma LockedExactly(attempts: seq<Attempt>, addr: string, now: nat, later: nat)
    requires Run(attempts).now <= now <= later
    ensures var t := Run(attempts);
      var ts, k := Times(t.entries), Streak(t.entries, addr);
      Locked(t.state, addr, now, later) <==>
        (|ts| >= 30 && now - ts[|ts| - 30] <= 60 * SECOND)
        || (k >= 5 && later < LastDone(t.entries, addr) + Min(900, 30 * Pow2(Min(k - 5, 5))) * SECOND)
  {
    hide Run, Times, Spread, Spaced, Streak, LastDone, LastFail, Recent;
    RunKeeps(attempts);
    var t := Run(attempts);
    assert CountOk(t, addr);
    ThirtyRecent(Times(t.entries), t.state.recent, t.now, now);
  }

  lemma ThirtyRecent(ts: seq<nat>, r: seq<nat>, before: nat, now: nat)
    requires Sorted(ts, before) && before <= now && |r| <= |ts| && r == ts[|ts| - |r|..]
    requires forall i :: 0 <= i < |ts| - |r| ==> Old(ts[i], before)
    ensures |Recent(r, now)| >= MAX_RECENT <==> |ts| >= MAX_RECENT && !Old(ts[|ts| - MAX_RECENT], now)
  {
    hide Recent;
    TailForgets(ts, r, before, now);
    Kept(r, now);
    var k := Recent(r, now);
    if |k| >= MAX_RECENT {
      assert k[|k| - MAX_RECENT] == ts[|ts| - MAX_RECENT] && k[|k| - MAX_RECENT] in k;
    }
  }

  /** Once both waits are over, an attempt is judged: recorded as a failure, or let in when
      the MAC is right and there is room. */
  lemma JudgedAfterWait(attempts: seq<Attempt>, a: Attempt)
    requires InOrder(Run(attempts), a)
    requires var ts := Times(Run(attempts).entries); |ts| >= 30 ==> a.check - ts[|ts| - 30] > 60 * SECOND
    requires var k := Streak(Run(attempts).entries, a.addr);
      k >= 5 ==> a.check2 >= LastDone(Run(attempts).entries, a.addr) + Min(900, 30 * Pow2(Min(k - 5, 5))) * SECOND
    ensures var es := Run(attempts).entries;
      Run(attempts + [a]).entries == es + (if !a.macOk then [Fail(a.addr, a.record, a.record2)]
                                           else if a.full then [] else [Success(a.addr)])
  {
    hide Run, Times, Streak, LastDone, Locked;
    LockedExactly(attempts, a.addr, a.check, a.check2);
    RunMore(attempts, a);
  }

  lemma RunMore(attempts: seq<Attempt>, a: Attempt)
    ensures Run(attempts + [a]) == if InOrder(Run(attempts), a) then Try(Run(attempts), a) else Run(attempts)
  {
    hide Try;
    assert (attempts + [a])[..|attempts|] == attempts;
  }
}
