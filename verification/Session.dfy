/** The handshake and the sealed session between one viewer and one host, as a state
    machine over two FIFO links (host/server.cpp:521-538 and 586-668,
    client/app.cpp:137-156, 240-252, 323-331 and 341-450). */
module Session {
  import opened Bytes
  import opened Aead
  import opened Channel

  const C_HELLO := 1
  const C_AUTH := 2
  const C_REFRESH := 13
  const S_HELLO := 64
  const S_AUTH_RESULT := 65
  const PROTO_VERSION := 2
  const AUTH_METHOD := 2
  const NONCE_LEN := 16
  const MAC_LEN := 32

  type Msg = seq<byte>

  // --------------------------------------------------------------- messages

  function Str(s: Msg): Msg {
    var n := Min(|s|, 0xFFFF);
    LeBytes(n, 2) + s[..n]
  }

  function CHello(name: Msg, ce: Bytes32): Msg {
    [C_HELLO] + LeBytes(PROTO_VERSION, 2) + Str(name) + ce
  }

  function SHello(nonce: Msg, hostName: Msg, os: Msg, ss: Bytes32, se: Bytes32): Msg {
    [S_HELLO] + LeBytes(PROTO_VERSION, 2) + [AUTH_METHOD] + nonce + Str(hostName) + Str(os) + ss + se
  }

  function CAuth(mac: Msg): Msg {
    [C_AUTH] + mac
  }

  function AuthResult(ok: bool, viewOnly: bool, text: Msg): Msg {
    [S_AUTH_RESULT, if ok then 1 else 0, if viewOnly then 1 else 0] + Str(text)
  }

  function TypeOf(p: Msg): byte {
    if p == [] then 0 else p[0]
  }

  /** A length-prefixed text and what follows it. */
  function ReadStr(p: Msg): Option<(Msg, Msg)> {
    if |p| < 2 then None
    else
      var n := LeValue(p[..2]);
      if |p| < 2 + n then None else Some((p[2..2 + n], p[2 + n..]))
  }

  function SkipStr(p: Msg): Option<Msg> {
    match ReadStr(p) case None => None case Some(r) => Some(r.1)
  }

  /** The viewer's ephemeral key, when the version matches and nothing is missing. */
  function ParseCHello(p: Msg): Option<Bytes32> {
    if |p| < 3 || LeValue(p[1..3]) != PROTO_VERSION then None
    else match SkipStr(p[3..])
      case None => None
      case Some(rest) => if |rest| < 32 then None else Some(rest[..32])
  }

  datatype HostHello = HostHello(nonce: Msg, ss: Bytes32, se: Bytes32)

  function ParseSHello(p: Msg): Option<HostHello> {
    if |p| < 20 || LeValue(p[1..3]) != PROTO_VERSION || p[3] != AUTH_METHOD then None
    else match SkipStr(p[20..])
      case None => None
      case Some(q) =>
        match SkipStr(q)
        case None => None
        case Some(rest) =>
          if |rest| < 64 then None else Some(HostHello(p[4..20], rest[..32], rest[32..64]))
  }

  lemma SkipsStr(s: Msg, rest: Msg)
    ensures ReadStr(Str(s) + rest) == Some((s[..Min(|s|, 0xFFFF)], rest)) && SkipStr(Str(s) + rest) == Some(rest)
  {
    hide LeBytes, LeValue;
    var n := Min(|s|, 0xFFFF);
    TwoBytes(n);
    var p := Str(s) + rest;
    assert p[..2] == LeBytes(n, 2) && p[2..2 + n] == s[..n] && p[2 + n..] == rest;
  }

  lemma TwoBytes(n: u16)
    ensures LeValue(LeBytes(n, 2)) == n
  {
    assert Pow256(2) == 0x1_0000;
    LeRoundTrip(n, 2);
  }

  lemma CHelloParses(name: Msg, ce: Bytes32)
    ensures TypeOf(CHello(name, ce)) == C_HELLO && ParseCHello(CHello(name, ce)) == Some(ce)
  {
    hide LeBytes, LeValue, Str, SkipStr;
    var p := CHello(name, ce);
    TwoBytes(PROTO_VERSION);
    assert p[1..3] == LeBytes(PROTO_VERSION, 2);
    assert p[3..] == Str(name) + ce;
    SkipsStr(name, ce);
    assert ce[..32] == ce;
  }

  lemma SHelloParses(nonce: Msg, hostName: Msg, os: Msg, ss: Bytes32, se: Bytes32)
    requires |nonce| == NONCE_LEN
    ensures TypeOf(SHello(nonce, hostName, os, ss, se)) == S_HELLO
    ensures ParseSHello(SHello(nonce, hostName, os, ss, se)) == Some(HostHello(nonce, ss, se))
  {
    hide LeBytes, LeValue, Str, SkipStr;
    var p := SHello(nonce, hostName, os, ss, se);
    TwoBytes(PROTO_VERSION);
    assert p[1..3] == LeBytes(PROTO_VERSION, 2) && p[4..20] == nonce;
    assert p[20..] == Str(hostName) + (Str(os) + (ss + se));
    SkipsStr(hostName, Str(os) + (ss + se));
    SkipsStr(os, ss + se);
    assert (ss + se)[..32] == ss && (ss + se)[32..64] == se;
  }

  /** A hello of another version, or asking for another way of authenticating, is refused. */
  lemma OtherVersions(v: u16, auth: byte, name: Msg, ce: Bytes32, nonce: Msg, hostName: Msg, os: Msg, ss: Bytes32, se: Bytes32)
    requires |nonce| == NONCE_LEN
    ensures ParseCHello([C_HELLO] + LeBytes(v, 2) + Str(name) + ce) == if v == 2 then Some(ce) else None
    ensures ParseSHello([S_HELLO] + LeBytes(v, 2) + [auth] + nonce + Str(hostName) + Str(os) + ss + se)
         == if v == 2 && auth == 2 then Some(HostHello(nonce, ss, se)) else None
  {
    hide LeBytes, LeValue, Str, SkipStr;
    TwoBytes(v);
    var p := [C_HELLO] + LeBytes(v, 2) + Str(name) + ce;
    var q := [S_HELLO] + LeBytes(v, 2) + [auth] + nonce + Str(hostName) + Str(os) + ss + se;
    assert p[1..3] == LeBytes(v, 2) && q[1..3] == LeBytes(v, 2) && q[3] == auth;
    if v == 2 { CHelloParses(name, ce); }
    if v == 2 && auth == 2 { SHelloParses(nonce, hostName, os, ss, se); }
  }

  /** The texts of the two hellos, each where the other side looks for it. */
  lemma HelloTexts(name: Msg, ce: Bytes32, nonce: Msg, hostName: Msg, os: Msg, ss: Bytes32, se: Bytes32)
    requires |nonce| == NONCE_LEN
    ensures ReadStr(CHello(name, ce)[3..]) == Some((name[..Min(|name|, 0xFFFF)], ce))
    ensures ReadStr(SHello(nonce, hostName, os, ss, se)[20..]) == Some((hostName[..Min(|hostName|, 0xFFFF)], Str(os) + ss + se))
    ensures ReadStr(Str(os) + ss + se) == Some((os[..Min(|os|, 0xFFFF)], ss + se))
  {
    hide LeBytes, LeValue, Str, ReadStr;
    assert CHello(name, ce)[3..] == Str(name) + ce;
    SkipsStr(name, ce);
    assert SHello(nonce, hostName, os, ss, se)[20..] == Str(hostName) + (Str(os) + ss + se);
    SkipsStr(hostName, Str(os) + ss + se);
    assert Str(os) + ss + se == Str(os) + (ss + se);
    SkipsStr(os, ss + se);
  }

  // ------------------------------------------------------------------ links

  /** One direction: the messages in flight as they are on the wire, all that was ever
      put on the wire, and the plaintexts sent and got. */
  datatype Link = Link(queue: seq<Msg>, wire: seq<Msg>, sent: seq<Msg>, got: seq<Msg>)

  /** What message `i` of a direction looks like on the wire: the first is plain, and
      message n + 1 is sealed under counter n. */
  function WireAt(f: ChaCha, key: Bytes32, sent: seq<Msg>, i: nat): Msg
    requires i < |sent|
  {
    if i == 0 then sent[0] else Sealed(f, key, (i - 1) % TWO64, sent[i])
  }

  ghost predicate InStep(f: ChaCha, key: Bytes32, l: Link) {
    && l.got <= l.sent
    && |l.wire| == |l.sent| && l.queue == l.wire[|l.got|..]
    && forall i :: 0 <= i < |l.sent| ==> l.wire[i] == WireAt(f, key, l.sent, i)
  }

  function Push(l: Link, wire: Msg, msg: Msg): Link {
    l.(queue := l.queue + [wire], wire := l.wire + [wire], sent := l.sent + [msg])
  }

  function Pop(l: Link, msg: Msg): Link
    requires l.queue != []
  {
    l.(queue := l.queue[1..], got := l.got + [msg])
  }

  lemma PushInStep(f: ChaCha, key: Bytes32, l: Link, wire: Msg, msg: Msg)
    requires InStep(f, key, l) && wire == WireAt(f, key, l.sent + [msg], |l.sent|)
    ensures InStep(f, key, Push(l, wire, msg))
  {
    hide Sealed;
    var m := Push(l, wire, msg);
    assert m.wire[|m.got|..] == l.wire[|l.got|..] + [wire];
    forall i | 0 <= i < |m.sent|
      ensures m.wire[i] == WireAt(f, key, m.sent, i)
    {
      if i < |l.sent| { assert l.wire[i] == WireAt(f, key, l.sent, i); }
    }
  }

  lemma PopInStep(f: ChaCha, key: Bytes32, l: Link)
    requires InStep(f, key, l) && l.queue != []
    ensures |l.got| < |l.sent| && l.queue[0] == WireAt(f, key, l.sent, |l.got|)
    ensures InStep(f, key, Pop(l, l.sent[|l.got|]))
  {
    hide Sealed;
    assert l.queue[0] == l.wire[|l.got|];
    assert l.queue[1..] == l.wire[|l.got| + 1..];
  }

  // ------------------------------------------------------------------ state

  datatype ViewerPhase = Connecting | Hello | Verify | Auth | Live | Gone
  datatype HostState = HHello | HAuth | HActive | HClosed

  /** The fixed inputs: the primitives, the long-term and the viewer's secrets. */
  datatype Env = Env(sha: Sha, chacha: ChaCha, dh: (Bytes32, Bytes32) -> Option<Bytes32>, pub: Bytes32 -> Bytes32,
                     cePriv: Bytes32, staticPriv: Bytes32, viewerName: Msg, hostName: Msg, os: Msg,
                     viewerPassword: Msg, hostPassword: Msg)

  /** What is assumed of the key agreement: both sides of an exchange get one result. */
  ghost predicate Agrees(e: Env) {
    forall a, b :: e.dh(a, e.pub(b)) == e.dh(b, e.pub(a))
  }

  /** `early` records that the viewer sent a message of its own before the channel was
      keyed, `vBroken` and `hBroken` that the viewer or the host rejected a message it
      tried to open. */
  datatype State = State(v: Chan, vp: ViewerPhase, vt: Bytes32, h: Chan, hs: HostState, ht: Bytes32,
                         sePriv: Bytes32, nonce: Msg, up: Link, down: Link, early: bool, vBroken: bool, hBroken: bool)

  datatype HostInput = HostInput(nonce: Msg, sePriv: Bytes32, admit: bool, viewOnly: bool, text: Msg)

  datatype Event =
    | Connect
    | HostRecv(input: HostInput)
    | ViewerRecv(trusted: bool, settings: Msg)
    | TrustKey
    | ViewerSend(msg: Msg)
    | HostSend(msg: Msg)
    | ViewerGone
    | HostGone

  function Idle(): Chan {
    Chan(ZeroBytes(32), ZeroBytes(32), 0, 0, false)
  }

  function Init(): State {
    State(Idle(), Connecting, ZeroBytes(32), Idle(), HHello, ZeroBytes(32), ZeroBytes(32), [],
          Link([], [], [], []), Link([], [], [], []), false, false, false)
  }

  function Advance(c: Chan): Chan {
    if c.active then c.(sendCtr := Next(c.sendCtr)) else c
  }

  function SendV(e: Env, s: State, msg: Msg): State {
    s.(up := Push(s.up, Wire(e.chacha, s.v, msg), msg), v := Advance(s.v))
  }

  function SendH(e: Env, s: State, msg: Msg): State {
    s.(down := Push(s.down, Wire(e.chacha, s.h, msg), msg), h := Advance(s.h))
  }

  function SendAuth(e: Env, s: State): State {
    SendV(e, s, CAuth(AuthMac(e.sha, e.viewerPassword, s.vt))).(vp := Auth)
  }

  function HostOnHello(e: Env, s: State, p: Msg, i: HostInput): State {
    if TypeOf(p) != C_HELLO then s.(hs := HClosed)
    else
      match ParseCHello(p)
      case None => SendH(e, s, AuthResult(false, false, i.text))
      case Some(ce) =>
        var dh1, dh2 := e.dh(i.sePriv, ce), e.dh(e.staticPriv, ce);
        if dh1.None? || dh2.None? then s.(hs := HClosed)
        else
          var ss, se := e.pub(e.staticPriv), e.pub(i.sePriv);
          var t := Transcript(e.sha, ce, ss, se, i.nonce);
          SendH(e, s, SHello(i.nonce, e.hostName, e.os, ss, se))
            .(h := Keyed(SessionKeys(e.sha, dh1.value, dh2.value, t), true),
              ht := t, sePriv := i.sePriv, nonce := i.nonce, hs := HAuth)
  }

  function HostOnAuth(e: Env, s: State, p: Msg, i: HostInput): State {
    if TypeOf(p) != C_AUTH then s.(hs := HClosed)
    else
      var macOk := |p| >= 1 + MAC_LEN && p[1..1 + MAC_LEN] == AuthMac(e.sha, e.hostPassword, s.ht);
      if !i.admit || !macOk then SendH(e, s, AuthResult(false, false, i.text)).(hs := HClosed)
      else SendH(e, s, AuthResult(true, i.viewOnly, i.text)).(hs := HActive)
  }

  function HostHandle(e: Env, s: State, p: Msg, i: HostInput): State {
    match s.hs
    case HHello => HostOnHello(e, s, p, i)
    case HAuth => HostOnAuth(e, s, p, i)
    case _ => s
  }

  /** Server::handle_message on the next message of the link. */
  function HostStep(e: Env, s: State, i: HostInput): State
    requires s.up.queue != []
  {
    var w := s.up.queue[0];
    if s.h.active then
      match Opened(e.chacha, s.h.recvKey, s.h.recvCtr, w)
      case None => s.(up := s.up.(queue := s.up.queue[1..]), hs := HClosed, hBroken := true)
      case Some(p) =>
        HostHandle(e, s.(up := Pop(s.up, p), h := s.h.(recvCtr := Next(s.h.recvCtr))), p, i)
    else
      HostHandle(e, s.(up := Pop(s.up, w)), w, i)
  }

  function ViewerOnHello(e: Env, s: State, p: Msg, trusted: bool): State {
    match ParseSHello(p)
    case None => s.(vp := Gone)
    case Some(m) =>
      var dh1, dh2 := e.dh(e.cePriv, m.se), e.dh(e.cePriv, m.ss);
      if s.vp != Hello || dh1.None? || dh2.None? then s.(vp := Gone)
      else
        var t := Transcript(e.sha, e.pub(e.cePriv), m.ss, m.se, m.nonce);
        var keyed := s.(v := Keyed(SessionKeys(e.sha, dh1.value, dh2.value, t), false), vt := t);
        if trusted then SendAuth(e, keyed) else keyed.(vp := Verify)
  }

  function ViewerHandle(e: Env, s: State, p: Msg, trusted: bool, settings: Msg): State {
    if TypeOf(p) == S_HELLO then ViewerOnHello(e, s, p, trusted)
    else if TypeOf(p) != S_AUTH_RESULT then s
    else if |p| < 2 || p[1] == 0 then s.(vp := Gone)
    else if s.vp == Auth then SendV(e, s, settings).(vp := Live)
    else s
  }

  /** App::handle_message on the next message of the link. */
  function ViewerStep(e: Env, s: State, trusted: bool, settings: Msg): State
    requires s.down.queue != []
  {
    var w := s.down.queue[0];
    if s.v.active then
      match Opened(e.chacha, s.v.recvKey, s.v.recvCtr, w)
      case None => s.(down := s.down.(queue := s.down.queue[1..]), vp := Gone, vBroken := true)
      case Some(p) =>
        ViewerHandle(e, s.(down := Pop(s.down, p), v := s.v.(recvCtr := Next(s.v.recvCtr))), p, trusted, settings)
    else
      ViewerHandle(e, s.(down := Pop(s.down, w)), w, trusted, settings)
  }

  predicate Enabled(s: State, ev: Event) {
    match ev
    case Connect => s.vp == Connecting
    case HostRecv(i) => s.hs != HClosed && s.up.queue != [] && |i.nonce| == NONCE_LEN
    case ViewerRecv(_, _) => s.vp != Gone && s.vp != Connecting && s.down.queue != []
    case TrustKey => s.vp == Verify
    case ViewerSend(_) => s.vp != Gone && s.vp != Connecting
    case HostSend(_) => s.hs == HActive
    case ViewerGone => true
    case HostGone => true
  }

  function Step(e: Env, s: State, ev: Event): State {
    if !Enabled(s, ev) then s
    else match ev
      case Connect => SendV(e, s, CHello(e.viewerName, e.pub(e.cePriv))).(vp := Hello)
      case HostRecv(i) => HostStep(e, s, i)
      case ViewerRecv(t, settings) => ViewerStep(e, s, t, settings)
      case TrustKey => SendAuth(e, s)
      case ViewerSend(msg) => SendV(e, s, msg).(early := s.early || s.vp == Hello)
      case HostSend(msg) => SendH(e, s, msg)
      case ViewerGone => s.(vp := Gone)
      case HostGone => s.(hs := HClosed)
  }

  function Run(e: Env, evs: seq<Event>): State {
    if evs == [] then Init() else Step(e, Run(e, evs[..|evs| - 1]), evs[|evs| - 1])
  }

  // -------------------------------------------------------------- invariant

  ghost predicate HostKeys(e: Env, s: State) {
    var ce, ss, se := e.pub(e.cePriv), e.pub(e.staticPriv), e.pub(s.sePriv);
    var dh1, dh2 := e.dh(s.sePriv, ce), e.dh(e.staticPriv, ce);
    && dh1.Some? && dh2.Some?
    && |s.nonce| == NONCE_LEN
    && s.ht == Transcript(e.sha, ce, ss, se, s.nonce)
    && s.down.sent != [] && s.down.sent[0] == SHello(s.nonce, e.hostName, e.os, ss, se)
    && (s.h.recvKey, s.h.sendKey) == SessionKeys(e.sha, dh1.value, dh2.value, s.ht)
  }

  ghost predicate HostOk(e: Env, s: State) {
    if s.h.active then
      && s.hs != HHello
      && s.up.got != [] && s.down.sent != []
      && s.h.sendCtr == (|s.down.sent| - 1) % TWO64
      && s.h.recvCtr == (|s.up.got| - 1) % TWO64
      && HostKeys(e, s)
    else
      && (s.hs == HHello || s.hs == HClosed)
      && |s.down.sent| <= |s.up.got|
      && forall m :: m in s.down.sent ==> exists t :: m == AuthResult(false, false, t)
  }

  /** Crossed keys, and each end's counters one behind its message counts. */
  ghost predicate Crossed(s: State) {
    && s.h.active
    && s.up.sent != [] && s.down.got != []
    && s.v == Chan(s.h.recvKey, s.h.sendKey, (|s.up.sent| - 1) % TWO64, (|s.down.got| - 1) % TWO64, true)
    && s.vt == s.ht
  }

  ghost predicate ViewerOk(e: Env, s: State) {
    if s.v.active then
      Crossed(s) && s.vp != Connecting && s.vp != Hello
    else
      && (s.vp == Connecting || s.vp == Hello || s.vp == Gone)
      && |s.up.sent| <= 1
      && (s.vp == Connecting ==> s.up.sent == [])
      && (s.vp == Hello ==> s.up.sent != [])
      && (s.up.sent != [] ==> s.up.sent == [CHello(e.viewerName, e.pub(e.cePriv))])
      && (s.vp != Gone ==> s.down.got == [])
  }

  ghost predicate Lockstep(e: Env, s: State) {
    && InStep(e.chacha, s.h.recvKey, s.up)
    && InStep(e.chacha, s.h.sendKey, s.down)
    && HostOk(e, s)
    && ViewerOk(e, s)
    && !s.vBroken && !s.hBroken
  }
}
