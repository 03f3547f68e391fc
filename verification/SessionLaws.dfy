/** What every run of the session machine keeps: both ends agree which messages are
    sealed and under which counter, and each end receives what the other sent. */
module SessionLaws {
  import opened Bytes
  import opened Arith
  import opened Aead
  import opened Poly1305
  import opened Channel
  import opened Session

  // ------------------------------------------------------------ single sends

  lemma ViewerSendKeeps(e: Env, s: State, msg: Msg)
    requires Lockstep(e, s) && s.v.active
    ensures Lockstep(e, SendV(e, s, msg))
  {
    hide Sealed, HostKeys;
    NextOf(|s.up.sent| - 1);
    PushInStep(e.chacha, s.h.recvKey, s.up, Wire(e.chacha, s.v, msg), msg);
    HostKeysSame(e, s, SendV(e, s, msg));
  }

  lemma NextOf(n: nat)
    ensures Next(n % TWO64) == (n + 1) % TWO64
  {
  }

  lemma ConnectKeeps(e: Env, s: State)
    requires Lockstep(e, s) && s.vp == Connecting
    ensures Lockstep(e, SendV(e, s, CHello(e.viewerName, e.pub(e.cePriv))).(vp := Hello))
  {
    hide Sealed, HostKeys, CHello;
    var msg := CHello(e.viewerName, e.pub(e.cePriv));
    PushInStep(e.chacha, s.h.recvKey, s.up, msg, msg);
  }

  lemma HostSendKeeps(e: Env, s: State, msg: Msg)
    requires Lockstep(e, s) && s.h.active
    ensures Lockstep(e, SendH(e, s, msg)) && SendH(e, s, msg).h.active
    ensures SendH(e, s, msg).vp == s.vp && SendH(e, s, msg).hs == s.hs
  {
    hide Sealed, SHello, SessionKeys, Transcript;
    NextOf(|s.down.sent| - 1);
    PushInStep(e.chacha, s.h.sendKey, s.down, Wire(e.chacha, s.h, msg), msg);
  }

  // -------------------------------------------------------- the host receives

  lemma HostOpens(e: Env, s: State)
    requires Lockstep(e, s) && s.up.queue != [] && s.h.active
    ensures |s.up.got| < |s.up.sent|
    ensures Opened(e.chacha, s.h.recvKey, s.h.recvCtr, s.up.queue[0]) == Some(s.up.sent[|s.up.got|])
  {
    hide Sealed, Opened, HostKeys;
    PopInStep(e.chacha, s.h.recvKey, s.up);
    OpensWhatWasSealed(e.chacha, s.h.recvKey, s.h.recvCtr, s.up.sent[|s.up.got|]);
  }

  function Popped(s: State, p: Msg): State
    requires s.up.queue != []
  {
    s.(up := Pop(s.up, p), h := if s.h.active then s.h.(recvCtr := Next(s.h.recvCtr)) else s.h)
  }

  lemma PoppedKeeps(e: Env, s: State)
    requires Lockstep(e, s) && s.up.queue != []
    ensures |s.up.got| < |s.up.sent| && Lockstep(e, Popped(s, s.up.sent[|s.up.got|]))
  {
    hide Sealed, SHello, SessionKeys, Transcript, AuthResult;
    PopInStep(e.chacha, s.h.recvKey, s.up);
    if s.h.active { NextOf(|s.up.got| - 1); }
  }

  lemma HostOnAuthKeeps(e: Env, s: State, p: Msg, i: HostInput)
    requires Lockstep(e, s) && s.hs == HAuth
    ensures Lockstep(e, HostOnAuth(e, s, p, i))
  {
    hide InStep, HostKeys, AuthResult, SendH, AuthMac;
    HostSendKeeps(e, s, AuthResult(false, false, i.text));
    HostSendKeeps(e, s, AuthResult(true, i.viewOnly, i.text));
    StateKeeps(e, s, HClosed);
    StateKeeps(e, SendH(e, s, AuthResult(false, false, i.text)), HClosed);
    StateKeeps(e, SendH(e, s, AuthResult(true, i.viewOnly, i.text)), HActive);
  }

  lemma StateKeeps(e: Env, s: State, hs: HostState)
    requires Lockstep(e, s) && hs != HHello && (hs == HClosed || s.h.active)
    ensures Lockstep(e, s.(hs := hs))
  {
    hide InStep, SHello, SessionKeys, Transcript, AuthResult;
  }

  /** The first message: the host has sent nothing yet, and afterwards either still is
      unkeyed with one refusal sent, or is keyed with its hello sent in plain. */
  lemma HostOnHelloKeeps(e: Env, s: State, p: Msg, i: HostInput)
    requires Lockstep(e, s) && s.hs == HHello && |s.up.got| == 1 && s.down.sent == []
    requires p == CHello(e.viewerName, e.pub(e.cePriv)) && |i.nonce| == NONCE_LEN
    ensures Lockstep(e, HostOnHello(e, s, p, i))
  {
    hide Sealed, SHello, CHello, ParseCHello, SessionKeys, Transcript;
    var ce := e.pub(e.cePriv);
    CHelloParses(e.viewerName, ce);
    var t := HostOnHello(e, s, p, i);
    assert s.up.queue == [];
    if e.dh(i.sePriv, ce).None? || e.dh(e.staticPriv, ce).None? {
      assert t == s.(hs := HClosed);
    } else {
      var m := SHello(i.nonce, e.hostName, e.os, e.pub(e.staticPriv), e.pub(i.sePriv));
      assert t.down == Push(s.down, m, m);
      PushInStep(e.chacha, t.h.sendKey, s.down, m, m);
    }
  }

  lemma HostStepKeeps(e: Env, s: State, i: HostInput)
    requires Lockstep(e, s) && Enabled(s, HostRecv(i))
    ensures Lockstep(e, HostStep(e, s, i))
  {
    hide Sealed, Opened, InStep, HostKeys, AuthResult, HostOnAuth, HostOnHello, CHello;
    PopHead(e, s);
    PoppedKeeps(e, s);
    var p := s.up.sent[|s.up.got|];
    var t := Popped(s, p);
    if s.h.active {
      HostOpens(e, s);
      if s.hs == HAuth { HostOnAuthKeeps(e, t, p, i); }
    } else {
      FirstUp(e, s);
      HostOnHelloKeeps(e, t, p, i);
    }
  }

  lemma PopHead(e: Env, s: State)
    requires Lockstep(e, s) && s.up.queue != []
    ensures !s.h.active ==> |s.up.sent| == 1 && s.up.queue[0] == s.up.sent[0] && s.up.got == []
  {
    hide Sealed, HostKeys, AuthResult, CHello;
    PopInStep(e.chacha, s.h.recvKey, s.up);
  }

  lemma FirstUp(e: Env, s: State)
    requires Lockstep(e, s) && s.up.queue != [] && !s.h.active
    ensures s.up.got == [] && s.down.sent == [] && s.up.sent[0] == CHello(e.viewerName, e.pub(e.cePriv))
    ensures Pop(s.up, s.up.sent[0]).got == [s.up.sent[0]]
  {
    hide Sealed, HostKeys, AuthResult, CHello, InStep;
    PopHead(e, s);
  }

  // ------------------------------------------------------ the viewer receives

  lemma DownHead(e: Env, s: State)
    requires Lockstep(e, s) && s.down.queue != []
    ensures |s.down.got| < |s.down.sent|
    ensures s.v.active ==>
      Opened(e.chacha, s.v.recvKey, s.v.recvCtr, s.down.queue[0]) == Some(s.down.sent[|s.down.got|])
    ensures !s.v.active && s.vp != Gone ==> s.down.got == [] && s.down.queue[0] == s.down.sent[0]
  {
    hide Sealed, Opened, HostKeys;
    PopInStep(e.chacha, s.h.sendKey, s.down);
    OpensWhatWasSealed(e.chacha, s.h.sendKey, s.v.recvCtr, s.down.sent[|s.down.got|]);
  }

  function Read(s: State, p: Msg): State
    requires s.down.queue != []
  {
    s.(down := Pop(s.down, p), v := if s.v.active then s.v.(recvCtr := Next(s.v.recvCtr)) else s.v)
  }

  lemma ReadKeeps(e: Env, s: State)
    requires Lockstep(e, s) && s.down.queue != [] && s.v.active
    ensures |s.down.got| < |s.down.sent| && Lockstep(e, Read(s, s.down.sent[|s.down.got|]))
  {
    hide Sealed, HostKeys;
    PopInStep(e.chacha, s.h.sendKey, s.down);
    NextOf(|s.down.got| - 1);
    HostKeysSame(e, s, Read(s, s.down.sent[|s.down.got|]));
  }

  lemma HostKeysSame(e: Env, s: State, t: State)
    requires s.h == t.h && s.down.sent == t.down.sent && s.ht == t.ht && s.sePriv == t.sePriv && s.nonce == t.nonce
    ensures HostKeys(e, s) == HostKeys(e, t)
  {
  }

  lemma GoneKeeps(e: Env, s: State)
    requires Lockstep(e, s)
    ensures Lockstep(e, s.(vp := Gone))
  {
    hide InStep, SHello, SessionKeys, Transcript, AuthResult;
  }

  lemma PhaseKeeps(e: Env, s: State, vp: ViewerPhase)
    requires Lockstep(e, s) && s.v.active && vp != Connecting && vp != Hello
    ensures Lockstep(e, s.(vp := vp))
  {
    hide InStep, SHello, SessionKeys, Transcript, AuthResult;
  }

  lemma SendAuthKeeps(e: Env, s: State)
    requires Lockstep(e, s) && s.v.active
    ensures Lockstep(e, SendAuth(e, s))
  {
    hide Lockstep, CAuth, AuthMac;
    var msg := CAuth(AuthMac(e.sha, e.viewerPassword, s.vt));
    ViewerSendKeeps(e, s, msg);
    PhaseKeeps(e, SendV(e, s, msg), Auth);
  }

  /** Messages after the first, when the viewer is keyed. */
  lemma KeyedViewerKeeps(e: Env, s: State, p: Msg, trusted: bool, settings: Msg)
    requires Lockstep(e, s) && s.v.active
    ensures Lockstep(e, ViewerHandle(e, s, p, trusted, settings))
  {
    hide InStep, HostOk, ParseSHello, SendV, Crossed;
    GoneKeeps(e, s);
    ViewerSendKeeps(e, s, settings);
    KeyedAfterSend(e, s, settings);
    PhaseKeeps(e, SendV(e, s, settings), Live);
  }

  lemma KeyedAfterSend(e: Env, s: State, msg: Msg)
    ensures SendV(e, s, msg).v.active == s.v.active
  {
  }

  /** The viewer with both exchanges done, before it answers. */
  function KeyedViewer(e: Env, s: State, m: HostHello, dh1: Bytes32, dh2: Bytes32): State {
    var t := Transcript(e.sha, e.pub(e.cePriv), m.ss, m.se, m.nonce);
    s.(v := Keyed(SessionKeys(e.sha, dh1, dh2, t), false), vt := t, vp := Verify)
  }

  lemma KeyingKeeps(e: Env, s: State)
    requires Lockstep(e, s) && Agrees(e) && s.down.queue != [] && s.vp == Hello && s.h.active
    ensures |s.down.got| < |s.down.sent|
    ensures var p := s.down.sent[0];
      && ParseSHello(p) == Some(HostHello(s.nonce, e.pub(e.staticPriv), e.pub(s.sePriv)))
      && TypeOf(p) == S_HELLO
      && var m := ParseSHello(p).value;
      && var dh1, dh2 := e.dh(e.cePriv, m.se), e.dh(e.cePriv, m.ss);
      && dh1.Some? && dh2.Some?
      && Lockstep(e, KeyedViewer(e, Read(s, p), m, dh1.value, dh2.value))
  {
    hide Sealed, SHello, SessionKeys, Transcript, ParseSHello, CHello;
    PopInStep(e.chacha, s.h.sendKey, s.down);
    var ss, se := e.pub(e.staticPriv), e.pub(s.sePriv);
    SHelloParses(s.nonce, e.hostName, e.os, ss, se);
    assert e.dh(e.cePriv, se) == e.dh(s.sePriv, e.pub(e.cePriv));
    assert e.dh(e.cePriv, ss) == e.dh(e.staticPriv, e.pub(e.cePriv));
  }

  lemma FirstMessageKeeps(e: Env, s: State, trusted: bool, settings: Msg)
    requires Lockstep(e, s) && Agrees(e) && Enabled(s, ViewerRecv(trusted, settings)) && !s.v.active
    ensures Lockstep(e, ViewerStep(e, s, trusted, settings))
  {
    hide Lockstep, ParseSHello, SessionKeys, Transcript, SendAuth, AuthResult;
    DownHead(e, s);
    var p := s.down.sent[0];
    HelloPhase(e, s);
    if s.h.active {
      KeyingKeeps(e, s);
      var m := ParseSHello(p).value;
      var k := KeyedViewer(e, Read(s, p), m, e.dh(e.cePriv, m.se).value, e.dh(e.cePriv, m.ss).value);
      SendAuthKeeps(e, k);
      PhaseIrrelevant(e, k, s.vp);
    } else {
      RefusalRead(e, s);
    }
  }

  lemma HelloPhase(e: Env, s: State)
    requires Lockstep(e, s) && !s.v.active && s.vp != Gone && s.vp != Connecting
    ensures s.vp == Hello
  {
  }

  lemma PhaseIrrelevant(e: Env, s: State, vp: ViewerPhase)
    ensures SendAuth(e, s) == SendAuth(e, s.(vp := vp))
  {
  }

  /** An unkeyed host has sent nothing but a refusal, and that ends the session. */
  lemma RefusalRead(e: Env, s: State)
    requires Lockstep(e, s) && s.down.queue != [] && !s.v.active && s.vp == Hello && !s.h.active
    ensures |s.down.sent| > 0 && TypeOf(s.down.sent[0]) == S_AUTH_RESULT
    ensures |s.down.sent[0]| >= 2 && s.down.sent[0][1] == 0
    ensures Lockstep(e, Read(s, s.down.sent[0]).(vp := Gone))
  {
    hide Sealed, Str, CHello, AuthResult;
    PopInStep(e.chacha, s.h.sendKey, s.down);
    assert s.down.sent[0] in s.down.sent;
    RefusalShape(s.down.sent[0]);
  }

  lemma RefusalShape(m: Msg)
    requires exists t :: m == AuthResult(false, false, t)
    ensures TypeOf(m) == S_AUTH_RESULT && |m| >= 2 && m[1] == 0
  {
    hide Str;
    var t :| m == AuthResult(false, false, t);
  }

  lemma ViewerStepKeeps(e: Env, s: State, trusted: bool, settings: Msg)
    requires Lockstep(e, s) && Agrees(e) && Enabled(s, ViewerRecv(trusted, settings))
    ensures Lockstep(e, ViewerStep(e, s, trusted, settings))
  {
    hide Lockstep, ViewerHandle, Opened;
    if s.v.active {
      DownHead(e, s);
      ReadKeeps(e, s);
      var p := s.down.sent[|s.down.got|];
      KeyedViewerKeeps(e, Read(s, p), p, trusted, settings);
    } else {
      FirstMessageKeeps(e, s, trusted, settings);
    }
  }

  // ---------------------------------------------------- what each side touches

  /** At most more was put on the link. */
  ghost predicate Grew(a: Link, b: Link) {
    && a.got == b.got && a.sent <= b.sent && a.wire <= b.wire
    && |b.wire| - |a.wire| == |b.sent| - |a.sent|
    && b.queue == a.queue + b.wire[|a.wire|..]
  }

  ghost predicate HostUntouched(s: State, t: State) {
    && t.h == s.h && t.hs == s.hs && t.ht == s.ht && t.hBroken == s.hBroken && t.early == s.early
    && t.down.sent == s.down.sent && Grew(s.up, t.up)
  }

  lemma SendVTouches(e: Env, s: State, msg: Msg)
    ensures HostUntouched(s, SendV(e, s, msg))
  {
    hide Wire;
    var l := Push(s.up, Wire(e.chacha, s.v, msg), msg);
    assert l.wire[|s.up.wire|..] == [Wire(e.chacha, s.v, msg)];
  }

  lemma SameLinkGrew(l: Link)
    ensures Grew(l, l)
  {
  }

  lemma ViewerHelloTouches(e: Env, s: State, p: Msg, trusted: bool)
    ensures HostUntouched(s, ViewerOnHello(e, s, p, trusted))
  {
    hide ParseSHello, Transcript, SessionKeys, SendV, CAuth, AuthMac;
    SameLinkGrew(s.up);
    var m := ParseSHello(p);
    if m.Some? && e.dh(e.cePriv, m.value.se).Some? && e.dh(e.cePriv, m.value.ss).Some? {
      var t := Transcript(e.sha, e.pub(e.cePriv), m.value.ss, m.value.se, m.value.nonce);
      var keys := SessionKeys(e.sha, e.dh(e.cePriv, m.value.se).value, e.dh(e.cePriv, m.value.ss).value, t);
      SendVTouches(e, s.(v := Keyed(keys, false), vt := t), CAuth(AuthMac(e.sha, e.viewerPassword, t)));
    }
  }

  lemma ViewerHandleTouches(e: Env, s: State, p: Msg, trusted: bool, settings: Msg)
    ensures HostUntouched(s, ViewerHandle(e, s, p, trusted, settings))
  {
    hide ViewerOnHello, SendV;
    SameLinkGrew(s.up);
    ViewerHelloTouches(e, s, p, trusted);
    SendVTouches(e, s, settings);
  }

  lemma ViewerTouches(e: Env, s: State, trusted: bool, settings: Msg)
    requires s.down.queue != []
    ensures HostUntouched(s, ViewerStep(e, s, trusted, settings))
  {
    hide ViewerHandle, Opened;
    SameLinkGrew(s.up);
    var w := s.down.queue[0];
    if s.v.active {
      var m := Opened(e.chacha, s.v.recvKey, s.v.recvCtr, w);
      if m.Some? { ViewerHandleTouches(e, Read(s, m.value), m.value, trusted, settings); }
    } else {
      ViewerHandleTouches(e, Read(s, w), w, trusted, settings);
    }
  }

  ghost predicate ViewerKept(s: State, t: State) {
    t.v == s.v && t.vp == s.vp && t.vt == s.vt && t.down.got == s.down.got
  }

  lemma SendHTouches(e: Env, s: State, msg: Msg)
    ensures var t := SendH(e, s, msg);
      t.up == s.up && t.early == s.early && t.ht == s.ht && t.hs == s.hs && t.hBroken == s.hBroken && ViewerKept(s, t)
      && t.h == s.h.(sendCtr := t.h.sendCtr)
  {
    hide Wire;
  }

  lemma HostHelloTouches(e: Env, s: State, p: Msg, i: HostInput)
    requires s.hs == HHello
    ensures var t := HostOnHello(e, s, p, i); t.up == s.up && t.early == s.early && t.hs != HActive && ViewerKept(s, t)
  {
    hide ParseCHello, Transcript, SessionKeys, SendH, SHello, AuthResult;
    var ce := ParseCHello(p);
    SendHTouches(e, s, AuthResult(false, false, i.text));
    if ce.Some? {
      SendHTouches(e, s, SHello(i.nonce, e.hostName, e.os, e.pub(e.staticPriv), e.pub(i.sePriv)));
    }
  }

  lemma HostAuthTouches(e: Env, s: State, p: Msg, i: HostInput)
    ensures var t := HostOnAuth(e, s, p, i);
      && t.up == s.up && t.early == s.early && t.ht == s.ht && t.hBroken == s.hBroken
      && t.h == s.h.(sendCtr := t.h.sendCtr) && t.hs in {HClosed, HActive}
      && (t.hs == HActive ==> Proof(e, s, p)) && ViewerKept(s, t)
  {
    hide SendH, AuthResult, AuthMac;
    SendHTouches(e, s, AuthResult(false, false, i.text));
    SendHTouches(e, s, AuthResult(true, i.viewOnly, i.text));
  }

  /** The host reads at most one message, and admits no one but by a proof. */
  ghost predicate HostRead(e: Env, s: State, t: State) {
    && ViewerKept(s, t) && t.early == s.early && t.up.sent == s.up.sent && t.up.wire == s.up.wire && s.up.got <= t.up.got
    && (s.hs == HActive ==> t.ht == s.ht)
    && (s.hs != HActive && t.hs == HActive ==>
          t.ht == s.ht && t.up.got != [] && Proof(e, s, t.up.got[|t.up.got| - 1]))
  }

  lemma HostHandleTouches(e: Env, s: State, p: Msg, i: HostInput)
    requires s.up.got != [] && s.up.got[|s.up.got| - 1] == p
    ensures HostRead(e, s, HostHandle(e, s, p, i))
  {
    hide HostOnHello, HostOnAuth, Proof;
    if s.hs == HHello { HostHelloTouches(e, s, p, i); }
    HostAuthTouches(e, s, p, i);
  }

  lemma HostTouches(e: Env, s: State, i: HostInput)
    requires s.up.queue != []
    ensures HostRead(e, s, HostStep(e, s, i))
  {
    hide HostHandle, Opened, AuthMac;
    var w := s.up.queue[0];
    if s.h.active {
      var m := Opened(e.chacha, s.h.recvKey, s.h.recvCtr, w);
      if m.Some? { HostHandleTouches(e, Popped(s, m.value), m.value, i); }
    } else {
      HostHandleTouches(e, Popped(s, w), w, i);
    }
  }

  /** Whatever happens: what is sent stays sent, what is got stays got, and a viewer that
      spoke early did so while its hello was unanswered. */
  lemma StepGrows(e: Env, s: State, ev: Event)
    ensures var t := Step(e, s, ev);
      && s.up.sent <= t.up.sent && s.up.got <= t.up.got
      && (t.early <==> s.early || (ev.ViewerSend? && s.vp == Hello))
      && (!ev.HostRecv? ==> t.ht == s.ht && t.hs in {s.hs, HClosed})
      && (ev.HostRecv? ==> HostRead(e, s, t))
  {
    hide HostStep, ViewerStep, SendV, SendH, SendAuth, Proof, CHello, CAuth, AuthMac;
    if Enabled(s, ev) {
      match ev
      case Connect => SendVTouches(e, s, CHello(e.viewerName, e.pub(e.cePriv)));
      case HostRecv(i) => HostTouches(e, s, i);
      case ViewerRecv(t, settings) => ViewerTouches(e, s, t, settings);
      case TrustKey => AuthTouches(e, s);
      case ViewerSend(msg) => SendVTouches(e, s, msg);
      case HostSend(msg) => SendHTouches(e, s, msg);
      case ViewerGone =>
      case HostGone =>
    }
  }

  lemma AuthTouches(e: Env, s: State)
    ensures HostUntouched(s, SendAuth(e, s))
  {
    hide SendV, CAuth, AuthMac;
    SendVTouches(e, s, CAuth(AuthMac(e.sha, e.viewerPassword, s.vt)));
  }

  /** A C_AUTH message with the MAC of the host's password over the host's transcript. */
  predicate Proof(e: Env, s: State, p: Msg) {
    TypeOf(p) == C_AUTH && |p| >= 1 + MAC_LEN && p[1..1 + MAC_LEN] == AuthMac(e.sha, e.hostPassword, s.ht)
  }

  // --------------------------------------------------------------- every run

  /** One step keeps the lockstep, unless the viewer speaks before it is keyed. */
  lemma StepKeeps(e: Env, s: State, ev: Event)
    requires Lockstep(e, s) && Agrees(e) && !s.early && !Step(e, s, ev).early
    ensures Lockstep(e, Step(e, s, ev))
  {
    hide Lockstep, HostStep, ViewerStep, SendH, SendAuth;
    if Enabled(s, ev) {
      match ev
      case Connect => ConnectKeeps(e, s);
      case HostRecv(i) => HostStepKeeps(e, s, i);
      case ViewerRecv(t, settings) => ViewerStepKeeps(e, s, t, settings);
      case TrustKey => KeyedPast(e, s); SendAuthKeeps(e, s);
      case ViewerSend(msg) => KeyedPast(e, s); ViewerSendKeeps(e, s, msg);
      case HostSend(msg) => ActiveHost(e, s); HostSendKeeps(e, s, msg);
      case ViewerGone => GoneKeeps(e, s);
      case HostGone => StateKeeps(e, s, HClosed);
    }
  }

  lemma KeyedPast(e: Env, s: State)
    requires Lockstep(e, s) && s.vp != Gone && s.vp != Connecting && s.vp != Hello
    ensures s.v.active
  {
  }

  lemma ActiveHost(e: Env, s: State)
    requires Lockstep(e, s) && s.hs == HActive
    ensures s.h.active
  {
  }

  lemma {:induction false} RunKeeps(e: Env, evs: seq<Event>)
    requires Agrees(e) && !Run(e, evs).early
    ensures Lockstep(e, Run(e, evs))
  {
    hide Step;
    if evs == [] {
      Begin(e);
    } else {
      var s := Run(e, evs[..|evs| - 1]);
      StepGrows(e, s, evs[|evs| - 1]);
      RunKeeps(e, evs[..|evs| - 1]);
      StepKeeps(e, s, evs[|evs| - 1]);
    }
  }

  lemma Begin(e: Env)
    ensures Lockstep(e, Init())
  {
  }

  /** In every run in which the viewer keeps quiet until it is keyed: each end has got
      exactly the first messages the other sent; no end ever failed to open one; a keyed
      viewer faces a keyed host with crossed keys and the same transcript; and the
      viewer's message n + 1 travels sealed under counter n of the host's receive key. */
  lemma {:induction false} SessionLockstep(e: Env, evs: seq<Event>)
    requires Agrees(e) && !Run(e, evs).early
    ensures var s := Run(e, evs);
      && s.up.got <= s.up.sent && s.down.got <= s.down.sent
      && !s.vBroken && !s.hBroken
      && (s.v.active ==> s.h.active && s.v.sendKey == s.h.recvKey && s.v.recvKey == s.h.sendKey && s.vt == s.ht)
      && |s.up.got| + |s.up.queue| == |s.up.sent| && |s.down.got| + |s.down.queue| == |s.down.sent|
      && (forall i :: 0 <= i < |s.up.queue| ==>
            s.up.queue[i] == WireAt(e.chacha, s.h.recvKey, s.up.sent, |s.up.got| + i))
      && (forall i :: 0 <= i < |s.down.queue| ==>
            s.down.queue[i] == WireAt(e.chacha, s.h.sendKey, s.down.sent, |s.down.got| + i))
  {
    hide Run, WireAt, HostOk;
    RunKeeps(e, evs);
    var s := Run(e, evs);
    QueueWires(e.chacha, s.h.recvKey, s.up);
    QueueWires(e.chacha, s.h.sendKey, s.down);
  }

  lemma QueueWires(f: ChaCha, key: Bytes32, l: Link)
    requires InStep(f, key, l)
    ensures forall i :: 0 <= i < |l.queue| ==> l.queue[i] == WireAt(f, key, l.sent, |l.got| + i)
  {
    hide WireAt;
    forall i | 0 <= i < |l.queue| ensures l.queue[i] == WireAt(f, key, l.sent, |l.got| + i) {
      assert l.queue[i] == l.wire[|l.got| + i];
    }
  }

  // -------------------------------------------------------------- admission

  ghost predicate Proved(e: Env, s: State) {
    s.hs == HActive ==> exists k :: 0 <= k < |s.up.got| && Proof(e, s, s.up.got[k])
  }

  lemma AdmissionStep(e: Env, s: State, ev: Event)
    requires Proved(e, s)
    ensures Proved(e, Step(e, s, ev))
  {
    hide Proof, Step;
    var t := Step(e, s, ev);
    StepGrows(e, s, ev);
    if t.hs == HActive {
      var k := if s.hs == HActive then var k :| 0 <= k < |s.up.got| && Proof(e, s, s.up.got[k]); k else |t.up.got| - 1;
      SameProof(e, s, t, t.up.got[k]);
    }
  }

  lemma SameProof(e: Env, s: State, t: State, p: Msg)
    requires s.ht == t.ht
    ensures Proof(e, s, p) == Proof(e, t, p)
  {
  }

  /** In every run, whatever the viewer sends and when, the host is active only if some
      message it got carries the MAC of its password over this very handshake. */
  lemma {:induction false} AdmittedMeansProved(e: Env, evs: seq<Event>)
    ensures Run(e, evs).hs == HActive ==>
      exists k :: 0 <= k < |Run(e, evs).up.got| && Proof(e, Run(e, evs), Run(e, evs).up.got[k])
  {
    hide Step, Proof;
    if evs != [] {
      AdmittedMeansProved(e, evs[..|evs| - 1]);
      AdmissionStep(e, Run(e, evs[..|evs| - 1]), evs[|evs| - 1]);
    }
  }

  /** What the viewer reads of an answer: whether it is let in, and whether only to look. */
  lemma AnswerRead(ok: bool, viewOnly: bool, text: Msg)
    ensures var p := AuthResult(ok, viewOnly, text);
      && IsAnswer(p) && (Admits(p) <==> ok) && (p[2] != 0 <==> viewOnly)
      && SkipStr(p[3..]) == Some([]) && p[5..] == text[..Min(|text|, 0xFFFF)]
  {
    hide LeBytes, SkipStr, LeValue;
    var p := AuthResult(ok, viewOnly, text);
    assert p[3..] == Str(text) + [];
    SkipsStr(text, []);
  }

  predicate IsAnswer(p: Msg) {
    |p| >= 3 && TypeOf(p) == S_AUTH_RESULT
  }

  predicate Admits(p: Msg) {
    |p| >= 2 && p[1] != 0
  }

  /** The host's decision: the viewer is in exactly when the message opens to a C_AUTH with
      the MAC of the host's password over the host's transcript and the host has room; all
      else closes the session, and a C_AUTH that fails is told so. */
  lemma HostDecides(e: Env, s: State, i: HostInput)
    requires s.h.active && s.hs == HAuth && s.up.queue != []
    ensures var t := HostStep(e, s, i);
      var m := Opened(e.chacha, s.h.recvKey, s.h.recvCtr, s.up.queue[0]);
      && (t.hs == HActive <==> m.Some? && i.admit && Proof(e, s, m.value)) && t.hs in {HActive, HClosed}
      && t.up.got == s.up.got + (if m.Some? then [m.value] else []) && t.ht == s.ht
      && t.down.sent == s.down.sent +
           (if t.hs == HActive then [AuthResult(true, i.viewOnly, i.text)]
            else if m.Some? && TypeOf(m.value) == C_AUTH then [AuthResult(false, false, i.text)]
            else [])
  {
    hide Opened, AuthMac, AuthResult, Wire;
  }

  /** Once the host has answered a C_AUTH: the answer admits only after a proof, and a
      refusal closes the session. */
  ghost predicate Decided(e: Env, s: State) {
    && (s.hs == HAuth ==> s.h.active && |s.up.got| == 1 && |s.down.sent| == 1)
    && (s.hs == HActive ==> |s.down.sent| >= 2)
    && (|s.down.sent| >= 2 ==>
          |s.up.got| >= 2 && IsAnswer(s.down.sent[1])
          && if Admits(s.down.sent[1]) then Proof(e, s, s.up.got[1]) else s.hs == HClosed)
  }

  /** The host's decision on the first message: it is keyed, with its hello sent in plain,
      exactly when that is a hello it understands and both exchanges give a key; one it does
      not understand is told so, anything else ends the session. */
  lemma HelloAccepted(e: Env, s: State, i: HostInput)
    requires !s.h.active && s.hs == HHello && s.up.queue != []
    ensures var t, p := HostStep(e, s, i), s.up.queue[0];
      var m := if TypeOf(p) == C_HELLO then ParseCHello(p) else None;
      && (t.hs == HAuth <==> m.Some? && e.dh(i.sePriv, m.value).Some? && e.dh(e.staticPriv, m.value).Some?)
      && (t.hs == HAuth <==> t.h.active) && t.up.got == s.up.got + [p]
      && (t.hs == HAuth ==>
            t.down.sent == s.down.sent + [SHello(i.nonce, e.hostName, e.os, e.pub(e.staticPriv), e.pub(i.sePriv))]
            && t.down.wire == s.down.wire + [t.down.sent[|s.down.sent|]])
      && (TypeOf(p) == C_HELLO && m.None? ==> t.down.sent == s.down.sent + [AuthResult(false, false, i.text)])
      && (t.hs != HAuth && (m.Some? || TypeOf(p) != C_HELLO) ==> t.hs == HClosed && t.down == s.down)
  {
    hide ParseCHello, Transcript, SessionKeys, SHello, AuthResult;
  }

  lemma HelloDecides(e: Env, s: State, p: Msg, i: HostInput)
    requires s.hs == HHello && s.down.sent == []
    ensures var t := HostOnHello(e, s, p, i);
      && t.up == s.up && |t.down.sent| <= 1 && t.hs != HActive
      && (t.hs == HAuth ==> t.h.active && |t.down.sent| == 1)
  {
    hide ParseCHello, Transcript, SessionKeys, SHello, AuthResult, Wire;
  }

  lemma DecidedHost(e: Env, s: State, i: HostInput)
    requires Lockstep(e, s) && Decided(e, s) && Enabled(s, HostRecv(i))
    ensures Decided(e, HostStep(e, s, i))
  {
    hide Opened, HostOnHello, HostOnAuth, HostKeys, AuthResult, CHello, InStep, Proof, Lockstep, IsAnswer, Admits;
    match s.hs
    case HHello =>
      Unanswered(e, s);
      HelloDecides(e, Popped(s, s.up.queue[0]), s.up.queue[0], i);
    case HAuth =>
      HostDecides(e, s, i);
      AnswerRead(true, i.viewOnly, i.text);
      AnswerRead(false, false, i.text);
      DecidedAuth(e, s, i);
    case HActive =>
      ActiveHost(e, s);
      HostOpens(e, s);
      var p := s.up.sent[|s.up.got|];
      assert HostStep(e, s, i) == Popped(s, p);
      SameProof(e, s, HostStep(e, s, i), s.up.got[1]);
    case HClosed =>
  }

  lemma Unanswered(e: Env, s: State)
    requires Lockstep(e, s) && s.hs == HHello && s.up.queue != []
    ensures !s.h.active && s.up.got == [] && s.down.sent == []
  {
    hide Sealed, HostKeys, AuthResult, CHello, InStep;
    FirstUp(e, s);
  }

  lemma DecidedAuth(e: Env, s: State, i: HostInput)
    requires Lockstep(e, s) && Decided(e, s) && Enabled(s, HostRecv(i)) && s.hs == HAuth
    ensures Decided(e, HostStep(e, s, i))
  {
    hide Opened, HostStep, AuthResult, Proof, IsAnswer, Admits;
    HostOpens(e, s);
    HostDecides(e, s, i);
    var t := HostStep(e, s, i);
    AnswerRead(true, i.viewOnly, i.text);
    AnswerRead(false, false, i.text);
    SameProof(e, s, t, s.up.sent[1]);
  }

  lemma DecidedStep(e: Env, s: State, ev: Event)
    requires Lockstep(e, s) && Decided(e, s)
    ensures Decided(e, Step(e, s, ev))
  {
    hide HostStep, ViewerStep, SendV, SendH, SendAuth, Decided, CHello, CAuth, AuthMac, Lockstep;
    if Enabled(s, ev) {
      match ev
      case Connect => SendVTouches(e, s, CHello(e.viewerName, e.pub(e.cePriv))); DecidedSame(e, s, Step(e, s, ev));
      case HostRecv(i) => DecidedHost(e, s, i);
      case ViewerRecv(t, settings) => ViewerTouches(e, s, t, settings); DecidedSame(e, s, Step(e, s, ev));
      case TrustKey => AuthTouches(e, s); DecidedSame(e, s, Step(e, s, ev));
      case ViewerSend(msg) => SendVTouches(e, s, msg); DecidedSame(e, s, Step(e, s, ev));
      case HostSend(msg) => DecidedMore(e, s, msg);
      case ViewerGone => DecidedSame(e, s, Step(e, s, ev));
      case HostGone => DecidedSame(e, s, Step(e, s, ev));
    }
  }

  lemma DecidedSame(e: Env, s: State, t: State)
    requires Decided(e, s) && t.h == s.h && t.hs in {s.hs, HClosed} && t.ht == s.ht
    requires t.up.got == s.up.got && t.down.sent == s.down.sent
    ensures Decided(e, t)
  {
    hide IsAnswer, Admits, AuthMac;
  }

  lemma DecidedMore(e: Env, s: State, msg: Msg)
    requires Decided(e, s) && s.hs == HActive
    ensures Decided(e, SendH(e, s, msg))
  {
    hide IsAnswer, Admits, Proof, Wire;
    SameProof(e, s, SendH(e, s, msg), s.up.got[1]);
  }

  lemma {:induction false} DecidedRuns(e: Env, evs: seq<Event>)
    requires Agrees(e) && !Run(e, evs).early
    ensures Decided(e, Run(e, evs))
  {
    hide Step, Decided, Lockstep;
    if evs == [] {
      NothingDecided(e);
    } else {
      var s := Run(e, evs[..|evs| - 1]);
      StepGrows(e, s, evs[|evs| - 1]);
      RunKeeps(e, evs[..|evs| - 1]);
      DecidedRuns(e, evs[..|evs| - 1]);
      DecidedStep(e, s, evs[|evs| - 1]);
    }
  }

  lemma NothingDecided(e: Env)
    ensures Decided(e, Init())
  {
  }

  /** In every run in which the viewer keeps quiet until it is keyed: the keyed host that
      reads the viewer's next message lets it in exactly when that message is a C_AUTH with
      the right MAC and there is room, and answers so; otherwise it closes.  The C_AUTH that
      the viewer makes has the right MAC exactly when the passwords' MACs agree, as they do
      when the passwords are equal. */
  lemma {:induction false} AdmissionDecided(e: Env, evs: seq<Event>, i: HostInput)
    requires Agrees(e) && !Run(e, evs).early && Run(e, evs).hs == HAuth && Enabled(Run(e, evs), HostRecv(i))
    ensures var s, t := Run(e, evs), Step(e, Run(e, evs), HostRecv(i));
      && |s.up.sent| >= 2 && s.up.got == [s.up.sent[0]] && t.up.got == s.up.sent[..2]
      && (t.hs == HActive <==> i.admit && Proof(e, s, s.up.sent[1])) && t.hs in {HActive, HClosed}
      && (t.hs == HActive ==> t.down.sent == s.down.sent + [AuthResult(true, i.viewOnly, i.text)])
      && (t.hs == HClosed && TypeOf(s.up.sent[1]) == C_AUTH ==>
            t.down.sent == s.down.sent + [AuthResult(false, false, i.text)])
      && (s.up.sent[1] == CAuth(AuthMac(e.sha, e.viewerPassword, s.vt)) && s.v.active ==>
            (Proof(e, s, s.up.sent[1])
             <==> AuthMac(e.sha, e.viewerPassword, s.ht) == AuthMac(e.sha, e.hostPassword, s.ht)))
  {
    hide Opened, HostStep, AuthResult, AuthMac, HostKeys, InStep, Run;
    RunKeeps(e, evs);
    DecidedRuns(e, evs);
    var s := Run(e, evs);
    HostOpens(e, s);
    HostDecides(e, s, i);
    SessionLockstep(e, evs);
    MacInside(e.sha, e.viewerPassword, s.vt);
  }

  lemma MacInside(f: Sha, password: Msg, th: Bytes32)
    ensures var p := CAuth(AuthMac(f, password, th));
      TypeOf(p) == C_AUTH && |p| == 1 + MAC_LEN && p[1..1 + MAC_LEN] == AuthMac(f, password, th)
  {
    hide Sha256.HmacOf;
  }

  // ------------------------------------------------------------- the answer

  /** A viewer still in the session has read no refusal, and a live one has read the answer. */
  ghost predicate NotRefused(s: State) {
    && (s.v.active && s.vp != Gone && |s.down.got| >= 2 ==> Admits(s.down.got[1]))
    && (s.vp == Live ==> s.v.active && |s.down.got| >= 2)
    && (s.v.active ==> s.down.got != [])
  }

  /** The viewer's decision on a message after the first. */
  lemma ViewerDecides(e: Env, s: State, trusted: bool, settings: Msg)
    requires s.v.active && s.down.queue != []
    ensures var t := ViewerStep(e, s, trusted, settings);
      var m := Opened(e.chacha, s.v.recvKey, s.v.recvCtr, s.down.queue[0]);
      && (m.None? ==> t.vp == Gone && t.down.got == s.down.got)
      && (m.Some? ==> t.down.got == s.down.got + [m.value])
      && (m.Some? && IsAnswer(m.value) ==> t.vp == if !Admits(m.value) then Gone else if s.vp == Auth then Live else s.vp)
      && (m.Some? && TypeOf(m.value) != S_HELLO && TypeOf(m.value) != S_AUTH_RESULT ==> t.vp == s.vp && t.up == s.up)
      && (t.vp == Live && s.vp != Live ==> m.Some? && t.up.sent == s.up.sent + [settings])
      && (t.vp in {s.vp, Gone} || (s.vp == Auth && t.vp == Live) || s.vp == Hello) && (t.vp != Gone ==> t.v.active)
  {
    hide Opened, ParseSHello, Wire, CAuth, AuthMac, SessionKeys, Transcript;
  }

  lemma NotRefusedRead(e: Env, s: State, trusted: bool, settings: Msg)
    requires Lockstep(e, s) && Decided(e, s) && NotRefused(s) && Enabled(s, ViewerRecv(trusted, settings))
    ensures NotRefused(ViewerStep(e, s, trusted, settings))
  {
    hide Opened, ViewerStep, HostKeys, AuthResult, InStep, Proof, IsAnswer, Admits, HostOk;
    DownHead(e, s);
    if s.v.active {
      PopHeads(e, s);
      ViewerDecides(e, s, trusted, settings);
    } else {
      FirstRead(e, s, trusted, settings);
    }
  }

  lemma PopHeads(e: Env, s: State)
    requires Lockstep(e, s) && s.down.queue != []
    ensures |s.down.got| < |s.down.sent| && s.down.got <= s.down.sent
  {
    hide HostKeys, AuthResult, Sealed;
    PopInStep(e.chacha, s.h.sendKey, s.down);
  }

  lemma FirstRead(e: Env, s: State, trusted: bool, settings: Msg)
    requires !s.v.active && s.down.queue != [] && s.down.got == [] && s.vp == Hello
    ensures var t := ViewerStep(e, s, trusted, settings);
      t.vp != Live && |t.down.got| == 1
  {
    hide ParseSHello, SessionKeys, Transcript, CAuth, AuthMac, Wire;
  }

  lemma NotRefusedStep(e: Env, s: State, ev: Event)
    requires Lockstep(e, s) && Decided(e, s) && NotRefused(s)
    ensures NotRefused(Step(e, s, ev))
  {
    hide HostStep, ViewerStep, Decided, CHello, CAuth, AuthMac, Lockstep, Admits, Wire, AuthResult;
    if Enabled(s, ev) {
      match ev
      case Connect => Fresh(e, s);
      case HostRecv(i) => HostTouches(e, s, i);
      case ViewerRecv(t, settings) => NotRefusedRead(e, s, t, settings);
      case _ =>
    }
  }

  lemma Fresh(e: Env, s: State)
    requires Lockstep(e, s) && s.vp == Connecting
    ensures !s.v.active
  {
    hide HostOk, InStep;
  }

  lemma {:induction false} NotRefusedRuns(e: Env, evs: seq<Event>)
    requires Agrees(e) && !Run(e, evs).early
    ensures NotRefused(Run(e, evs))
  {
    hide Step, Decided, Lockstep, NotRefused;
    if evs == [] {
      NoneRefused(e);
    } else {
      var s := Run(e, evs[..|evs| - 1]);
      StepGrows(e, s, evs[|evs| - 1]);
      RunKeeps(e, evs[..|evs| - 1]);
      DecidedRuns(e, evs[..|evs| - 1]);
      NotRefusedRuns(e, evs[..|evs| - 1]);
      NotRefusedStep(e, s, evs[|evs| - 1]);
    }
  }

  lemma NoneRefused(e: Env)
    ensures NotRefused(Init())
  {
  }

  /** In every quiet run the viewer that awaits the answer and reads it goes live, and sends
      its settings, exactly when the host let it in; else it leaves.  A viewer is live only
      after a message of its own proved the host's password. */
  lemma {:induction false} AnswerDecides(e: Env, evs: seq<Event>, trusted: bool, settings: Msg)
    requires Agrees(e) && !Run(e, evs).early
    ensures var s := Run(e, evs);
      && (s.vp == Live ==> |s.up.got| >= 2 && s.up.got <= s.up.sent && Proof(e, s, s.up.got[1]))
      && (s.vp == Auth && |s.down.got| == 1 && s.down.queue != [] ==>
            var t := Step(e, s, ViewerRecv(trusted, settings));
            && |s.down.sent| >= 2 && IsAnswer(s.down.sent[1])
            && t.vp == (if Admits(s.down.sent[1]) then Live else Gone)
            && (t.vp == Live ==> t.up.sent == s.up.sent + [settings])
            && (Admits(s.down.sent[1]) ==> |s.up.got| >= 2 && Proof(e, s, s.up.got[1])))
  {
    hide Opened, ViewerStep, HostKeys, AuthResult, InStep, Proof, IsAnswer, Admits, Run, HostOk;
    RunKeeps(e, evs);
    DecidedRuns(e, evs);
    NotRefusedRuns(e, evs);
    SessionLockstep(e, evs);
    var s := Run(e, evs);
    if s.vp == Auth && |s.down.got| == 1 && s.down.queue != [] {
      AuthKeyed(e, s);
      DownHead(e, s);
      PopHeads(e, s);
      ViewerDecides(e, s, trusted, settings);
    }
  }

  lemma AuthKeyed(e: Env, s: State)
    requires Lockstep(e, s) && s.vp == Auth
    ensures s.v.active
  {
    hide HostOk, InStep;
  }

  /** The viewer reads the host's hello: it is keyed, and answers or asks its user. */
  lemma KeyedAnswer(e: Env, s: State, trusted: bool, settings: Msg)
    requires Lockstep(e, s) && Agrees(e) && s.vp == Hello && s.h.active && s.down.queue != []
    ensures var t := ViewerStep(e, s, trusted, settings);
      && t.v.active && t.hs == s.hs && |t.down.got| == 1 && t.early == s.early
      && t.vp == (if trusted then Auth else Verify)
      && t.up.sent == s.up.sent + (if trusted then [CAuth(AuthMac(e.sha, e.viewerPassword, t.vt))] else [])
  {
    hide Lockstep, ParseSHello, SessionKeys, Transcript, AuthResult, CAuth, AuthMac, Wire;
    HelloUnkeyed(e, s);
    DownHead(e, s);
    KeyingKeeps(e, s);
  }

  lemma HelloUnkeyed(e: Env, s: State)
    requires Lockstep(e, s) && s.vp == Hello
    ensures !s.v.active
  {
    hide HostOk, InStep;
  }

  /** The events of a handshake up to the viewer's C_AUTH; an unknown host is confirmed. */
  function Greeting(i: HostInput, trusted: bool): seq<Event> {
    [Connect, HostRecv(i), ViewerRecv(trusted, [])] + if trusted then [] else [TrustKey]
  }

  lemma GreetingRun(e: Env, i: HostInput, trusted: bool)
    requires Agrees(e) && |i.nonce| == NONCE_LEN
    requires e.dh(i.sePriv, e.pub(e.cePriv)).Some? && e.dh(e.staticPriv, e.pub(e.cePriv)).Some?
    ensures var s := Run(e, Greeting(i, trusted));
      && !s.early && s.hs == HAuth && s.v.active && s.vp == Auth && |s.down.got| == 1
      && |s.up.sent| == 2 && s.up.sent[1] == CAuth(AuthMac(e.sha, e.viewerPassword, s.vt))
  {
    hide Run, Step, CAuth, AuthMac, Lockstep, ViewerStep, SendV;
    ConnectRun(e, i);
    HelloRun(e, i);
    var evs := [Connect, HostRecv(i)];
    RunKeeps(e, evs);
    RunMore(e, evs, ViewerRecv(trusted, []));
    var s := Run(e, evs);
    KeyedAnswer(e, s, trusted, []);
    Reads(e, s, trusted);
    if trusted {
      assert Greeting(i, true) == evs + [ViewerRecv(true, [])];
    } else {
      var t := Run(e, evs + [ViewerRecv(false, [])]);
      RunMore(e, evs + [ViewerRecv(false, [])], TrustKey);
      assert Greeting(i, false) == evs + [ViewerRecv(false, [])] + [TrustKey];
      Confirms(e, t);
    }
  }

  lemma Reads(e: Env, s: State, trusted: bool)
    requires s.vp == Hello && s.down.queue != []
    ensures Step(e, s, ViewerRecv(trusted, [])) == ViewerStep(e, s, trusted, [])
  {
    hide ViewerStep;
  }

  lemma Confirms(e: Env, s: State)
    requires s.vp == Verify
    ensures var t := Step(e, s, TrustKey);
      && t.vp == Auth && t.hs == s.hs && t.early == s.early && t.down == s.down && t.vt == s.vt
      && t.v.active == s.v.active && t.up.sent == s.up.sent + [CAuth(AuthMac(e.sha, e.viewerPassword, s.vt))]
  {
    hide CAuth, AuthMac, Wire;
  }

  lemma HelloRun(e: Env, i: HostInput)
    requires Agrees(e) && |i.nonce| == NONCE_LEN
    requires e.dh(i.sePriv, e.pub(e.cePriv)).Some? && e.dh(e.staticPriv, e.pub(e.cePriv)).Some?
    ensures var s := Run(e, [Connect, HostRecv(i)]);
      s.h.active && s.hs == HAuth && |s.up.sent| == 1 && s.down.queue != []
  {
    hide CHello, Sealed, SHello, ParseCHello, SessionKeys, Transcript, Run;
    CHelloParses(e.viewerName, e.pub(e.cePriv));
    RunMore(e, [], Connect);
    RunMore(e, [Connect], HostRecv(i));
    assert [] + [Connect] == [Connect] && [Connect] + [HostRecv(i)] == [Connect, HostRecv(i)];
    StartRun(e);
  }

  /** The whole handshake, end to end: viewer and host are both in the session afterwards
      exactly when the host had room and the two passwords give one MAC over the transcript,
      as equal passwords do; otherwise both have left it. */
  lemma HandshakeEnds(e: Env, i: HostInput, trusted: bool, j: HostInput, settings: Msg)
    requires Agrees(e) && |i.nonce| == NONCE_LEN && |j.nonce| == NONCE_LEN
    requires e.dh(i.sePriv, e.pub(e.cePriv)).Some? && e.dh(e.staticPriv, e.pub(e.cePriv)).Some?
    ensures var s := Run(e, Greeting(i, trusted));
      var z := Run(e, Greeting(i, trusted) + [HostRecv(j)] + [ViewerRecv(true, settings)]);
      var admitted := j.admit && AuthMac(e.sha, e.viewerPassword, s.ht) == AuthMac(e.sha, e.hostPassword, s.ht);
      && z.hs == (if admitted then HActive else HClosed) && z.vp == (if admitted then Live else Gone)
      && (admitted ==> z.up.sent == s.up.sent + [settings]
                       && z.down.got == s.down.sent + [AuthResult(true, j.viewOnly, j.text)])
  {
    hide Run, Step, CAuth, AuthMac, AuthResult, IsAnswer, Admits, Enabled;
    var evs := Greeting(i, trusted);
    GreetingRun(e, i, trusted);
    DecidedRuns(e, evs);
    SessionLockstep(e, evs);
    var s := Run(e, evs);
    AwaitsHost(e, s, j);
    AdmissionDecided(e, evs, j);
    RunMore(e, evs, HostRecv(j));
    var t := Run(e, evs + [HostRecv(j)]);
    StepGrows(e, s, HostRecv(j));
    RunMore(e, evs + [HostRecv(j)], ViewerRecv(true, settings));
    AnswerRead(true, j.viewOnly, j.text);
    AnswerRead(false, false, j.text);
    SessionLockstep(e, evs + [HostRecv(j)]);
    MacInside(e.sha, e.viewerPassword, s.vt);
    AnswerDecides(e, evs + [HostRecv(j)], true, settings);
    LastRead(e, evs + [HostRecv(j)], settings);
  }

  lemma AwaitsHost(e: Env, s: State, j: HostInput)
    requires s.hs == HAuth && s.up.queue != [] && |j.nonce| == NONCE_LEN
    ensures Enabled(s, HostRecv(j))
  {
  }

  /** What the reading of the answer leaves of the host, and adds to what is got. */
  lemma LastRead(e: Env, evs: seq<Event>, settings: Msg)
    requires Agrees(e) && !Run(e, evs).early && Run(e, evs).vp == Auth && Run(e, evs).down.queue != []
    ensures var t := Run(e, evs);
      var z := Step(e, t, ViewerRecv(true, settings));
      z.hs == t.hs && |t.down.got| < |t.down.sent| && z.down.got == t.down.sent[..|t.down.got| + 1]
  {
    hide Run, Opened, ViewerStep, Lockstep;
    var t := Run(e, evs);
    RunKeeps(e, evs);
    AuthKeyed(e, t);
    DownHead(e, t);
    PopHeads(e, t);
    ViewerDecides(e, t, true, settings);
    ViewerTouches(e, t, true, settings);
  }

  // ----------------------------------------------------------------- nonces

  /** In every run in which the viewer keeps quiet until it is keyed: two messages sealed
      in one direction carry different nonces, until 2^64 of them have been sealed. */
  lemma {:induction false} NoncesDiffer(e: Env, evs: seq<Event>, i: nat, j: nat)
    requires Agrees(e) && !Run(e, evs).early && 1 <= i < j
    ensures var s := Run(e, evs);
      && |s.up.wire| == |s.up.sent| && |s.down.wire| == |s.down.sent|
      && (j < |s.up.sent| ==> SealedApart(e, s.h.recvKey, s.up, i, j))
      && (j < |s.down.sent| ==> SealedApart(e, s.h.sendKey, s.down, i, j))
  {
    hide Sealed, Nonce, HostOk, ViewerOk, Run;
    RunKeeps(e, evs);
    CountersDiffer(i - 1, j - 1);
  }

  /** Messages i and j are sealed under nonces that differ, unless j - i is a multiple of 2^64. */
  ghost predicate SealedApart(e: Env, key: Bytes32, l: Link, i: nat, j: nat)
    requires 1 <= i < j < |l.sent| == |l.wire|
  {
    var a, b := (i - 1) % TWO64, (j - 1) % TWO64;
    && l.wire[i] == Sealed(e.chacha, key, a, l.sent[i])
    && l.wire[j] == Sealed(e.chacha, key, b, l.sent[j])
    && (Nonce(a) != Nonce(b) <==> (j - i) % TWO64 != 0)
  }

  lemma CountersDiffer(a: nat, b: nat)
    requires a < b
    ensures Nonce(a % TWO64) != Nonce(b % TWO64) <==> (b - a) % TWO64 != 0
  {
    hide Nonce;
    if Nonce(a % TWO64) == Nonce(b % TWO64) { NonceInjective(a % TWO64, b % TWO64); }
    SameResidue(a, b);
  }

  lemma SameResidue(a: nat, b: nat)
    requires a < b
    ensures a % TWO64 == b % TWO64 <==> (b - a) % TWO64 == 0
  {
    var q, r := b / TWO64 - a / TWO64, b % TWO64 - a % TWO64;
    assert b - a == TWO64 * q + r;
    if r >= 0 { DivUnique(b - a, TWO64, q, r); } else { DivUnique(b - a, TWO64, q - 1, r + TWO64); }
  }

  /** The block-function input of block `n` of message `i` of a direction: block 0 gives the
      one-time key, block 1 + x / 64 the keystream of byte x. */
  function Input(key: Bytes32, i: nat, n: nat): seq<u32>
    requires i >= 1
  {
    Words(key, Nonce((i - 1) % TWO64), n % 0x1_0000_0000)
  }

  /** Message `i` on the wire: its text against those blocks, and the tag of what came out. */
  ghost predicate KeyedText(e: Env, key: Bytes32, l: Link, i: nat)
    requires 1 <= i < |l.sent| == |l.wire|
  {
    var n, c := |l.sent[i]|, l.wire[i];
    && |c| == n + TAG_LEN
    && (forall x :: 0 <= x < n ==> c[x] == Xor(l.sent[i][x], e.chacha(Input(key, i, 1 + x / 64))[x % 64]))
    && c[n..] == Tag(Blocks(MacData([], c[..n])), e.chacha(Input(key, i, 0))[..32])
  }

  lemma SealedIsKeyed(e: Env, key: Bytes32, l: Link, i: nat)
    requires 1 <= i < |l.sent| == |l.wire| && l.wire[i] == Sealed(e.chacha, key, (i - 1) % TWO64, l.sent[i])
    ensures KeyedText(e, key, l, i)
  {
    hide AeadSeal, Words, Tag, Xor, Nonce, Blocks, MacData, IsState;
    var nonce, m := Nonce((i - 1) % TWO64), l.sent[i];
    SealedBytes(e.chacha, m, [], key, nonce);
    WordsAreState(Input(key, i, 0), key, nonce, 0);
    forall x | 0 <= x < |m| ensures l.wire[i][x] == Xor(m[x], e.chacha(Input(key, i, 1 + x / 64))[x % 64]) {
      WordsAreState(Input(key, i, 1 + x / 64), key, nonce, (1 + x / 64) % 0x1_0000_0000);
    }
  }

  lemma InputsDiffer(key: Bytes32, i: nat, a: nat, j: nat, b: nat)
    requires 1 <= i && 1 <= j
    ensures Input(key, i, a) == Input(key, j, b)
       <==> (i - 1) % TWO64 == (j - 1) % TWO64 && a % 0x1_0000_0000 == b % 0x1_0000_0000
  {
    hide Words, Nonce;
    var c, d := (i - 1) % TWO64, (j - 1) % TWO64;
    WordsInjective(key, Nonce(c), a % 0x1_0000_0000, key, Nonce(d), b % 0x1_0000_0000);
    if Nonce(c) == Nonce(d) { NonceInjective(c, d); }
  }

  /** In every run in which the viewer keeps quiet until it is keyed, for either direction:
      each byte of message i goes out against its own block of keystream, the tag is under
      block 0, and no two blocks, of one message or of two, have the same input, until
      2^64 messages or 2^32 blocks have gone by. */
  lemma {:induction false} KeystreamOnce(e: Env, evs: seq<Event>, up: bool, i: nat, a: nat, j: nat, b: nat)
    requires Agrees(e) && !Run(e, evs).early && 1 <= i && 1 <= j
    ensures var s := Run(e, evs);
      var l, key := if up then s.up else s.down, if up then s.h.recvKey else s.h.sendKey;
      && |l.wire| == |l.sent| && (i < |l.sent| ==> KeyedText(e, key, l, i))
      && (Input(key, i, a) == Input(key, j, b) <==>
            (i - 1) % TWO64 == (j - 1) % TWO64 && a % 0x1_0000_0000 == b % 0x1_0000_0000)
  {
    hide Sealed, Nonce, HostOk, ViewerOk, Run, Input, KeyedText;
    RunKeeps(e, evs);
    var s := Run(e, evs);
    var l, key := if up then s.up else s.down, if up then s.h.recvKey else s.h.sendKey;
    if i < |l.sent| { SealedIsKeyed(e, key, l, i); }
    InputsDiffer(key, i, a, j, b);
  }

  // ----------------------------------------------- speaking before the keying

  /** What the host has read, and what is still to come, of a viewer that spoke early. */
  ghost predicate EarlyOk(e: Env, s: State) {
    && |s.up.wire| == |s.up.sent| >= 2
    && s.up.wire[0] == s.up.sent[0] == CHello(e.viewerName, e.pub(e.cePriv))
    && s.up.wire[1] == s.up.sent[1]
    && |s.up.got| <= |s.up.wire|
    && (s.hs != HClosed ==> s.up.queue == s.up.wire[|s.up.got|..] && !s.hBroken)
    && if s.h.active then
         && s.hs != HHello && s.up.got != [] && (s.hs == HActive ==> |s.up.got| >= 2)
         && s.h.recvCtr == (|s.up.got| - 1) % TWO64
         && (|s.up.got| >= 2 ==> IsSealed(e, s.h.recvKey, s.up.sent[1]))
       else |s.up.got| <= 1 && (s.hs == HClosed || (s.hs == HHello && s.up.got == []))
  }

  ghost predicate IsSealed(e: Env, key: Bytes32, c: Msg) {
    exists m :: c == Sealed(e.chacha, key, 0, m)
  }

  /** The host answers the hello it reads, or closes. */
  lemma HelloAnswered(e: Env, s: State, i: HostInput)
    requires Lockstep(e, s) && Enabled(s, HostRecv(i)) && s.hs == HHello
    ensures HostStep(e, s, i).hs != HHello
  {
    hide Sealed, HostKeys, CHello, AuthResult, SHello, ParseCHello, SessionKeys, Transcript, InStep;
    FirstUp(e, s);
    PopHead(e, s);
    CHelloParses(e.viewerName, e.pub(e.cePriv));
  }

  lemma {:induction false} FreshHost(e: Env, evs: seq<Event>)
    requires Agrees(e) && !Run(e, evs).early && Run(e, evs).hs == HHello
    ensures Run(e, evs).up.got == []
  {
    hide Step, Lockstep, HostStep;
    if evs != [] {
      var s, ev := Run(e, evs[..|evs| - 1]), evs[|evs| - 1];
      StepGrows(e, s, ev);
      RunKeeps(e, evs[..|evs| - 1]);
      StillFresh(e, s, ev);
      FreshHost(e, evs[..|evs| - 1]);
    }
  }

  lemma StillFresh(e: Env, s: State, ev: Event)
    requires Lockstep(e, s) && Step(e, s, ev).hs == HHello
    ensures s.hs == HHello && Step(e, s, ev).up.got == s.up.got
  {
    hide Lockstep, HostStep, ViewerStep, SendV, SendH, SendAuth, CHello;
    if Enabled(s, ev) {
      match ev
      case Connect => SendVTouches(e, s, CHello(e.viewerName, e.pub(e.cePriv)));
      case HostRecv(i) => if s.hs == HHello { HelloAnswered(e, s, i); } else { NotBack(e, s, i); }
      case ViewerRecv(t, settings) => ViewerTouches(e, s, t, settings);
      case TrustKey => AuthTouches(e, s);
      case ViewerSend(msg) => SendVTouches(e, s, msg);
      case HostSend(msg) => SendHTouches(e, s, msg);
      case ViewerGone =>
      case HostGone =>
    }
  }

  lemma NotBack(e: Env, s: State, i: HostInput)
    requires s.up.queue != [] && s.hs != HHello
    ensures HostStep(e, s, i).hs != HHello
  {
    hide HostOnAuth, Opened;
    forall t: State, p { HostAuthTouches(e, t, p, i); }
  }

  /** A viewer that has only said hello has proved nothing yet. */
  lemma {:induction false} NotYetActive(e: Env, evs: seq<Event>)
    requires Agrees(e) && !Run(e, evs).early && Run(e, evs).vp == Hello
    ensures Run(e, evs).hs != HActive
  {
    hide Run, Sealed, HostKeys, AuthResult, CHello;
    RunKeeps(e, evs);
    AdmittedMeansProved(e, evs);
    CHelloParses(e.viewerName, e.pub(e.cePriv));
    var s := Run(e, evs);
    assert s.up.got <= [CHello(e.viewerName, e.pub(e.cePriv))];
  }

  lemma EarlyBegins(e: Env, s: State, msg: Msg)
    requires Lockstep(e, s) && s.vp == Hello && (s.hs == HHello ==> s.up.got == []) && s.hs != HActive
    ensures EarlyOk(e, Step(e, s, ViewerSend(msg)))
    ensures var t := Step(e, s, ViewerSend(msg)); |t.up.sent| == 2 && t.up.sent[1] == msg
  {
    hide Sealed, HostKeys, CHello, AuthResult;
    var hello := CHello(e.viewerName, e.pub(e.cePriv));
    assert !s.v.active && s.up.sent == [hello];
    assert s.up.wire[0] == WireAt(e.chacha, s.h.recvKey, s.up.sent, 0);
    assert s.up.wire == [hello];
    var t := Step(e, s, ViewerSend(msg));
    assert t.up.wire == [hello, msg] && t.up.sent == [hello, msg];
    assert t.up.wire[|t.up.got|..] == s.up.wire[|s.up.got|..] + [msg];
  }

  /** The host reads the hello: it is keyed with counter 0, or the session is over. */
  lemma EarlyHello(e: Env, s: State, i: HostInput)
    requires EarlyOk(e, s) && s.hs == HHello && Enabled(s, HostRecv(i))
    ensures EarlyOk(e, HostStep(e, s, i))
  {
    hide CHello, SHello, ParseCHello, SessionKeys, Transcript, Sealed;
    CHelloParses(e.viewerName, e.pub(e.cePriv));
    assert s.up.queue[0] == s.up.wire[0];
    assert s.up.queue[1..] == s.up.wire[1..];
  }

  /** The keyed host reads on: it breaks exactly when the text is not sealed for it. */
  lemma EarlyRead(e: Env, s: State, i: HostInput)
    requires EarlyOk(e, s) && s.h.active && Enabled(s, HostRecv(i))
    ensures EarlyOk(e, HostStep(e, s, i))
    ensures |s.up.got| == 1 ==> (HostStep(e, s, i).hBroken <==> !IsSealed(e, s.h.recvKey, s.up.sent[1]))
    ensures HostStep(e, s, i).hBroken ==> HostStep(e, s, i).hs == HClosed
  {
    hide CHello, Opened, Sealed, HostOnAuth;
    var n := |s.up.got|;
    assert s.up.queue[0] == s.up.wire[n];
    assert s.up.queue[1..] == s.up.wire[n + 1..];
    AcceptedIffSealed(e.chacha, s.h.recvKey, s.h.recvCtr, s.up.queue[0]);
    NextOf(n - 1);
    var m := Opened(e.chacha, s.h.recvKey, s.h.recvCtr, s.up.queue[0]);
    if m.Some? { HostAuthTouches(e, Popped(s, m.value), m.value, i); }
  }

  /** Nothing but the host's reading changes what it has read. */
  lemma EarlyOther(e: Env, s: State, ev: Event)
    requires EarlyOk(e, s) && Enabled(s, ev) && !ev.HostRecv?
    ensures EarlyOk(e, Step(e, s, ev))
  {
    hide HostStep, ViewerStep, SendV, SendH, SendAuth, EarlyOk, CHello, CAuth, AuthMac, IsSealed;
    match ev
    case Connect => SendVTouches(e, s, CHello(e.viewerName, e.pub(e.cePriv))); EarlyGrew(e, s, Step(e, s, ev));
    case ViewerRecv(t, settings) => ViewerTouches(e, s, t, settings); EarlyGrew(e, s, Step(e, s, ev));
    case TrustKey => AuthTouches(e, s); EarlyGrew(e, s, Step(e, s, ev));
    case ViewerSend(msg) => SendVTouches(e, s, msg); EarlyGrew(e, s, Step(e, s, ev));
    case HostSend(msg) => SendHTouches(e, s, msg); EarlySame(e, s, Step(e, s, ev));
    case ViewerGone => EarlySame(e, s, Step(e, s, ev));
    case HostGone => EarlySame(e, s, Step(e, s, ev));
  }

  lemma EarlyGrew(e: Env, s: State, t: State)
    requires EarlyOk(e, s) && t.h == s.h && t.hs == s.hs && t.hBroken == s.hBroken && Grew(s.up, t.up)
    ensures EarlyOk(e, t)
  {
    hide CHello, IsSealed;
    if s.hs != HClosed { assert t.up.wire[|s.up.got|..] == s.up.wire[|s.up.got|..] + t.up.wire[|s.up.wire|..]; }
  }

  lemma EarlySame(e: Env, s: State, t: State)
    requires EarlyOk(e, s) && t.up == s.up && t.hBroken == s.hBroken
    requires t.h == s.h.(sendCtr := t.h.sendCtr) && t.hs in {s.hs, HClosed}
    ensures EarlyOk(e, t)
  {
    hide CHello, IsSealed;
  }

  lemma EarlyStep(e: Env, s: State, ev: Event)
    requires EarlyOk(e, s)
    ensures EarlyOk(e, Step(e, s, ev))
  {
    hide EarlyOk, HostStep;
    if Enabled(s, ev) {
      if ev.HostRecv? {
        if s.h.active { EarlyRead(e, s, ev.input); } else { Unkeyed(e, s); EarlyHello(e, s, ev.input); }
      } else {
        EarlyOther(e, s, ev);
      }
    }
  }

  lemma Unkeyed(e: Env, s: State)
    requires EarlyOk(e, s) && !s.h.active && s.hs != HClosed
    ensures s.hs == HHello
  {
    hide CHello, Sealed;
  }

  lemma {:induction false} EarlyRuns(e: Env, evs: seq<Event>)
    requires Agrees(e) && Run(e, evs).early
    ensures EarlyOk(e, Run(e, evs))
  {
    hide Step, EarlyOk;
    if evs == [] {
    } else {
      var s, ev := Run(e, evs[..|evs| - 1]), evs[|evs| - 1];
      if s.early {
        EarlyRuns(e, evs[..|evs| - 1]);
        EarlyStep(e, s, ev);
      } else {
        RunKeeps(e, evs[..|evs| - 1]);
        StepGrows(e, s, ev);
        if s.hs == HHello { FreshHost(e, evs[..|evs| - 1]); }
        NotYetActive(e, evs[..|evs| - 1]);
        EarlyBegins(e, s, ev.msg);
      }
    }
  }

  /** For every run: the viewer's messages all travel as the protocol says, the first
      plain and message n + 1 sealed under counter n of the host's receive key, exactly
      when the viewer said nothing between its hello and its own keying. */
  lemma {:induction false} SealedExactlyWhenQuiet(e: Env, evs: seq<Event>)
    requires Agrees(e)
    ensures var s := Run(e, evs);
      && |s.up.wire| == |s.up.sent|
      && (!s.early <==> forall i :: 0 <= i < |s.up.sent| ==>
            s.up.wire[i] == WireAt(e.chacha, s.h.recvKey, s.up.sent, i))
  {
    hide Run, Sealed, HostOk, ViewerOk, CHello;
    var s := Run(e, evs);
    if s.early {
      EarlyRuns(e, evs);
      SealedSize(e.chacha, s.h.recvKey, 0, s.up.sent[1]);
      assert WireAt(e.chacha, s.h.recvKey, s.up.sent, 1) == Sealed(e.chacha, s.h.recvKey, 0, s.up.sent[1]);
    } else {
      RunKeeps(e, evs);
    }
  }

  /** The state after `evs`, the early message, and whatever happens next. */
  function EarlyState(e: Env, evs: seq<Event>, msg: Msg, more: seq<Event>): State {
    Run(e, evs + [ViewerSend(msg)] + more)
  }

  lemma EarlyFacts(e: Env, s: State)
    requires EarlyOk(e, s)
    ensures |s.up.sent| >= 2 && |s.up.wire| == |s.up.sent| && s.up.wire[1] == s.up.sent[1]
    ensures |s.up.got| >= 2 || s.hs == HActive ==> s.h.active && IsSealed(e, s.h.recvKey, s.up.sent[1])
  {
    hide CHello, IsSealed;
  }

  lemma HostReads(e: Env, s: State, j: HostInput)
    requires Enabled(s, HostRecv(j))
    ensures s.up.queue != [] && Step(e, s, HostRecv(j)) == HostStep(e, s, j)
  {
    hide HostStep;
  }

  lemma {:induction false} EarlyKept(e: Env, evs: seq<Event>, msg: Msg, more: seq<Event>)
    requires Agrees(e) && Run(e, evs).vp == Hello && !Run(e, evs).early
    ensures var t := EarlyState(e, evs, msg, more); t.early && |t.up.sent| >= 2 && t.up.sent[1] == msg
  {
    hide Step, Lockstep, EarlyOk;
    var all := evs + [ViewerSend(msg)] + more;
    if more == [] {
      assert all == evs + [ViewerSend(msg)] && all[..|all| - 1] == evs;
      RunKeeps(e, evs);
      if Run(e, evs).hs == HHello { FreshHost(e, evs); }
      NotYetActive(e, evs);
      EarlyBegins(e, Run(e, evs), msg);
      SpeaksEarly(e, Run(e, evs), msg);
    } else {
      var n := |more| - 1;
      assert all[..|all| - 1] == evs + [ViewerSend(msg)] + more[..n];
      EarlyKept(e, evs, msg, more[..n]);
      StepGrows(e, EarlyState(e, evs, msg, more[..n]), all[|all| - 1]);
    }
  }

  lemma SpeaksEarly(e: Env, s: State, msg: Msg)
    requires s.vp == Hello
    ensures Step(e, s, ViewerSend(msg)).early
  {
    hide Wire;
  }

  /** A message the viewer sends while its hello is unanswered, no matter whether the
      host has read that hello or its answer is on the way, goes out plain.  Whatever
      happens next, the answer's delivery included, the keyed host rejects the message
      and closes exactly unless the bytes happen to be some message sealed under its
      first receive counter; and unless they are, it never reads past them. */
  lemma {:induction false} EarlyMessage(e: Env, evs: seq<Event>, msg: Msg, more: seq<Event>, j: HostInput)
    requires Agrees(e) && Run(e, evs).vp == Hello && !Run(e, evs).early
    ensures var t := EarlyState(e, evs, msg, more);
      && |t.up.sent| >= 2 && |t.up.wire| == |t.up.sent| && t.up.sent[1] == msg == t.up.wire[1]
      && (t.h.active && |t.up.got| == 1 && Enabled(t, HostRecv(j)) ==>
            (Step(e, t, HostRecv(j)).hBroken <==> !IsSealed(e, t.h.recvKey, msg))
            && (Step(e, t, HostRecv(j)).hBroken ==> Step(e, t, HostRecv(j)).hs == HClosed))
      && (|t.up.got| >= 2 || t.hs == HActive ==> t.h.active && IsSealed(e, t.h.recvKey, msg))
  {
    hide Run, EarlyOk, Step, HostStep, IsSealed;
    var t := EarlyState(e, evs, msg, more);
    EarlyKept(e, evs, msg, more);
    EarlyRuns(e, evs + [ViewerSend(msg)] + more);
    EarlyFacts(e, t);
    if t.h.active && |t.up.got| == 1 && Enabled(t, HostRecv(j)) {
      EarlyRead(e, t, j);
      HostReads(e, t, j);
    }
  }

  /** A message too short to carry a tag, such as the one byte of the Refresh button, is
      the end of the session: whatever happens next, the host never becomes active. */
  lemma {:induction false} ShortEarlyMessage(e: Env, evs: seq<Event>, msg: Msg, more: seq<Event>)
    requires Agrees(e) && Run(e, evs).vp == Hello && !Run(e, evs).early && |msg| < TAG_LEN
    ensures var t := EarlyState(e, evs, msg, more); t.hs != HActive && |t.up.got| <= 1
  {
    hide Run, Step, Sealed;
    EarlyMessage(e, evs, msg, more, HostInput([], ZeroBytes(32), false, false, []));
    var t := EarlyState(e, evs, msg, more);
    NotSealed(e, t.h.recvKey, msg);
  }

  lemma NotSealed(e: Env, key: Bytes32, msg: Msg)
    requires |msg| < TAG_LEN
    ensures !IsSealed(e, key, msg)
  {
    forall m ensures msg != Sealed(e.chacha, key, 0, m) { SealedSize(e.chacha, key, 0, m); }
  }

  /** The Refresh button pressed between the viewer's hello and the host's answer, before
      or after the host has read the hello: the host drops the session. */
  lemma RefreshBeforeKeyingBreaks(e: Env, i: HostInput, j: HostInput, first: bool)
    requires Agrees(e) && |i.nonce| == NONCE_LEN && |j.nonce| == NONCE_LEN
    requires e.dh(i.sePriv, e.pub(e.cePriv)).Some? && e.dh(e.staticPriv, e.pub(e.cePriv)).Some?
    ensures var two := if first then [ViewerSend([C_REFRESH]), HostRecv(i)] else [HostRecv(i), ViewerSend([C_REFRESH])];
      Run(e, [Connect] + two + [HostRecv(j)]).hBroken
  {
    hide Step, Run;
    var refresh := ViewerSend([C_REFRESH]);
    var two := if first then [refresh, HostRecv(i)] else [HostRecv(i), refresh];
    var evs := if first then [Connect] else [Connect, HostRecv(i)];
    var more := if first then [HostRecv(i)] else [];
    ConnectRun(e, i);
    assert evs + [refresh] + more == [Connect] + two;
    var t := EarlyState(e, evs, [C_REFRESH], more);
    RefreshRun(e, i, first);
    EarlyMessage(e, evs, [C_REFRESH], more, j);
    NotSealed(e, t.h.recvKey, [C_REFRESH]);
    RunMore(e, [Connect] + two, HostRecv(j));
  }

  lemma RunMore(e: Env, evs: seq<Event>, ev: Event)
    ensures Run(e, evs + [ev]) == Step(e, Run(e, evs), ev)
  {
    hide Step;
    assert (evs + [ev])[..|evs|] == evs;
  }

  lemma ConnectRun(e: Env, i: HostInput)
    requires |i.nonce| == NONCE_LEN
    ensures !Run(e, [Connect]).early && Run(e, [Connect]).vp == Hello
    ensures !Run(e, [Connect, HostRecv(i)]).early && Run(e, [Connect, HostRecv(i)]).vp == Hello
  {
    hide CHello, Sealed, SHello, ParseCHello, SessionKeys, Transcript;
    assert [Connect][..0] == [] && [Connect, HostRecv(i)][..1] == [Connect];
  }

  /** Either order leaves the host keyed, with the plain message next. */
  lemma RefreshRun(e: Env, i: HostInput, first: bool)
    requires Agrees(e) && |i.nonce| == NONCE_LEN
    requires e.dh(i.sePriv, e.pub(e.cePriv)).Some? && e.dh(e.staticPriv, e.pub(e.cePriv)).Some?
    ensures var two := if first then [ViewerSend([C_REFRESH]), HostRecv(i)] else [HostRecv(i), ViewerSend([C_REFRESH])];
      var t := Run(e, [Connect] + two);
      t.h.active && |t.up.got| == 1 && t.hs == HAuth && t.up.queue != []
  {
    hide CHello, Sealed, SHello, ParseCHello, SessionKeys, Transcript, Run;
    var a, b := if first then ViewerSend([C_REFRESH]) else HostRecv(i), if first then HostRecv(i) else ViewerSend([C_REFRESH]);
    CHelloParses(e.viewerName, e.pub(e.cePriv));
    RunMore(e, [], Connect);
    RunMore(e, [Connect], a);
    RunMore(e, [Connect] + [a], b);
    assert [] + [Connect] == [Connect] && [Connect] + [a] + [b] == [Connect] + [a, b];
    StartRun(e);
  }

  lemma StartRun(e: Env)
    ensures Run(e, []) == Init()
  {
  }
}
