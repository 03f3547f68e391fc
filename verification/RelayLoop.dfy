/** The relay's main loop as a machine of events, and what every run of it keeps
    (relay/relay.cpp:230-332, 361-400 and 433-486). */
module RelayLoop {
  import opened Bytes
  import opened WebSocket
  import opened RelayState
  import opened RelayEvents
  import opened RelayUpgrades

  /** The same connections, `c` of the same kind. */
  ghost predicate Alike(w: World, v: World, c: Conn) {
    c in w.all && c in v.all && v.all.Keys == w.all.Keys && v.conns == w.conns && v.all[c].kind == w.all[c].kind
  }

  lemma OnCloseFrame(w: World, c: Conn, p: seq<byte>)
    requires PeerKnown(w, c) && w.all[c].peer != c
    ensures Alike(w, OnClose(w, c, p), c)
  {
    hide Closed, Sent;
    SentKind(w.all[c], Frame(true, 8, p[..Min(|p|, 2)]));
  }

  lemma OnDataFrame(w: World, c: Conn, opcode: Opcode, p: seq<byte>)
    requires PeerKnown(w, c) && w.all[c].peer != c
    ensures Alike(w, OnData(w, c, opcode, p), c)
  {
    hide Sent, Kill;
    if w.all[c].peer == null {
      KilledState(w, c);
    }
  }

  lemma ReceiveFrame(w: World, c: Conn, m: Message)
    requires Inv(w) && c in w.all && w.all[c].kind != Kind.Http && !w.all[c].dead
    ensures PeerKnown(w, c) && Alike(w, Receive(w, c, m), c)
  {
    hide InvBut, Sent, OnClose, OnData;
    ReceiveKeeps(w, c, m);
    if w.all[c].peer != null { PeerOf(w, c, null); }
    OnCloseFrame(w, c, m.data);
    OnDataFrame(w, c, m.opcode, m.data);
    SentKind(w.all[c], Frame(true, 10, m.data));
  }

  lemma SentKind(x: C, f: Frame)
    ensures Sent(x, f).kind == x.kind && Sent(x, f).peer == x.peer
  {
  }

  /** The messages one after the other, until the connection dies or, on an ordinary
      read, is closing. */
  ghost function Handled(w: World, c: Conn, ms: seq<Message>, stop: bool): (v: World)
    requires Inv(w) && c in w.all && w.all[c].kind != Kind.Http
    ensures Inv(v) && c in v.all && v.all.Keys == w.all.Keys && v.conns == w.conns
    decreases |ms|
  {
    if ms == [] || w.all[c].dead || (stop && w.all[c].closing) then w
    else
      ReceiveKeeps(w, c, ms[0]);
      ReceiveFrame(w, c, ms[0]);
      Handled(Receive(w, c, ms[0]), c, ms[1..], stop)
  }

  lemma HandledStep(w: World, c: Conn, ms: seq<Message>, i: nat, stop: bool)
    requires Inv(w) && c in w.all && w.all[c].kind != Kind.Http && i <= |ms|
    ensures i == |ms| || w.all[c].dead || (stop && w.all[c].closing) ==> Handled(w, c, ms[i..], stop) == w
    ensures i < |ms| && !w.all[c].dead && !(stop && w.all[c].closing) ==>
      PeerKnown(w, c) && Inv(Receive(w, c, ms[i])) && Alike(w, Receive(w, c, ms[i]), c)
      && Handled(w, c, ms[i..], stop) == Handled(Receive(w, c, ms[i]), c, ms[i + 1..], stop)
  {
    hide InvBut, Receive;
    if i < |ms| && !w.all[c].dead && !(stop && w.all[c].closing) {
      ReceiveFrame(w, c, ms[i]);
      ReceiveKeeps(w, c, ms[i]);
      assert ms[i..][0] == ms[i] && ms[i..][1..] == ms[i + 1..];
    }
  }

  predicate FreshTicket(w: World, h: Http) {
    h.ticket !in w.tickets && h.ticket != ""
  }

  lemma AnnotatedKeeps(w: World, c: Conn, y: C)
    requires Inv(w) && c in w.all && w.all[c].frames == y.frames
    requires y == w.all[c].(closing := y.closing, greeting := y.greeting, lastRx := y.lastRx, lastPing := y.lastPing)
    ensures Inv(Upd(w, c, y))
  {
    hide InvBut;
    AnnotateKeeps(w, c, y, null);
  }

  predicate MayPair(w: World, id: string, key: string, t: string) {
    && id in w.hosts && w.hosts[id].key == key
    && t in w.tickets && w.tickets[t] in w.all && w.all[w.tickets[t]].id == id
  }

  /** What an accepted upgrade makes of the state, before any pipelined message. */
  ghost function Upgraded(w: World, c: Conn, h: Http): Option<World>
    requires Inv(w) && c in w.all && w.all[c].kind == Kind.Http && !w.all[c].dead && FreshTicket(w, h)
    ensures Upgraded(w, c, h).Some? ==> UpgradeOk(w, Upgraded(w, c, h).value, c)
  {
    hide InvBut, Closed, Pair, Kill;
    match h.request
    case Host(id, key) =>
      if !ValidId(id) || !ValidHex(key, 32) || (HasCtl(w, id) && w.hosts[id].key != key) then None
      else
        UpgradeHostKeeps(w, c, id, key, h.accept);
        Some(OnHost(w, c, id, key, h.accept))
    case Data(id, key, t) =>
      if !MayPair(w, id, key, t) then None
      else
        UpgradeDataKeeps(w, c, t, h.accept);
        Some(Pair(w, c, t, h.accept))
    case View(id) =>
      UpgradeViewKeeps(w, c, id, h);
      Some(OnView(w, c, id, h))
    case _ => None
  }

  ghost predicate UpgradeOk(w: World, v: World, c: Conn) {
    Inv(v) && c in v.all && v.all[c].kind != Kind.Http && v.all.Keys == w.all.Keys && v.conns == w.conns
  }

  ghost function OnHost(w: World, c: Conn, id: string, key: string, accept: seq<byte>): World
    requires Inv(w) && c in w.all && w.all[c].kind == Kind.Http
  {
    if HasCtl(w, id) then
      RetireKeeps(w, id);
      Own(Retire(w, id), c, id, key, accept)
    else Own(w, c, id, key, accept)
  }

  lemma UpgradeHostKeeps(w: World, c: Conn, id: string, key: string, accept: seq<byte>)
    requires Inv(w) && c in w.all && w.all[c].kind == Kind.Http && !w.all[c].dead
    ensures UpgradeOk(w, OnHost(w, c, id, key, accept), c)
  {
    hide InvBut, Retire;
    if HasCtl(w, id) {
      CtlOf(w, id);
      RetireKeeps(w, id);
      OwnKeeps(Retire(w, id), c, id, key, accept);
    } else {
      OwnKeeps(w, c, id, key, accept);
    }
  }

  lemma UpgradeDataKeeps(w: World, c: Conn, t: string, accept: seq<byte>)
    requires Inv(w) && c in w.all && w.all[c].kind == Kind.Http && !w.all[c].dead && t in w.tickets
    ensures w.tickets[t] in w.all && UpgradeOk(w, Pair(w, c, t, accept), c)
  {
    hide InvBut, Replay;
    WaitingViewer(w, t);
    PairKeeps(w, c, t, accept);
  }

  lemma UpgradeViewKeeps(w: World, c: Conn, id: string, h: Http)
    requires Inv(w) && c in w.all && w.all[c].kind == Kind.Http && !w.all[c].dead && FreshTicket(w, h)
    ensures HasCtl(w, id) ==> w.hosts[id].ctl in w.all
    ensures UpgradeOk(w, OnView(w, c, id, h), c)
  {
    hide InvBut, CloseFrame, Ascii;
    OnViewKeeps(w, c, id, h);
    if HasCtl(w, id) { CtlOf(w, id); }
  }

  /** Whether the pipelined messages are handled: not behind an "offline" answer. */
  predicate Goes(w: World, r: Request) {
    match r case View(id) => ValidId(id) && HasCtl(w, id) case _ => true
  }

  /** handle_http. */
  ghost function OnRequest(w: World, c: Conn, h: Http): (v: World)
    requires Inv(w) && c in w.all && w.all[c].kind == Kind.Http && !w.all[c].dead && FreshTicket(w, h)
    ensures Inv(v) && v.all.Keys == w.all.Keys && v.conns == w.conns
  {
    hide InvBut;
    if h.request == Partial(false) then w
    else
      var up := Upgraded(w, c, h);
      if up.None? then
        AnnotatedKeeps(w, c, w.all[c].(greeting := w.all[c].greeting + h.response, closing := true));
        Respond(w, c, h.response)
      else if Goes(w, h.request) then Handled(up.value, c, h.messages, false)
      else up.value
  }

  // ------------------------------------------------------------------ events

  /** What reading a socket gave: new bytes or none, the end of the stream, and the
      request or the messages in the buffer, perhaps followed by a malformed frame. */
  datatype Input = Input(got: bool, closed: bool, http: Http, messages: seq<Message>, bad: bool)

  ghost function Killed(w: World, c: Conn): (v: World)
    requires Inv(w) && c in w.all
    ensures Inv(v) && v.all.Keys == w.all.Keys && v.conns == w.conns
  {
    hide InvBut;
    KillKeeps(w, c, null);
    KillKeys(w, c);
    Kill(w, c)
  }

  lemma KillKeys(w: World, c: Conn)
    requires PeerKnown(w, c)
    ensures Kill(w, c).all.Keys == w.all.Keys && Kill(w, c).conns == w.conns
  {
  }

  /** When bytes arrived, the connection's clock is set. */
  ghost function Heard(w: World, c: Conn, now: nat, got: bool): (v: World)
    requires Inv(w) && c in w.all
    ensures Inv(v) && Alike(w, v, c) && v.tickets == w.tickets && v.all[c].dead == w.all[c].dead
  {
    hide InvBut;
    var x := w.all[c].(lastRx := if got then now else w.all[c].lastRx);
    AnnotatedKeeps(w, c, x);
    Upd(w, c, x)
  }

  ghost function OnMessages(w: World, c: Conn, i: Input): (v: World)
    requires Inv(w) && c in w.all && w.all[c].kind != Kind.Http
    ensures Inv(v) && v.all.Keys == w.all.Keys && v.conns == w.conns
  {
    hide InvBut;
    var d := Handled(w, c, i.messages, true);
    if i.closed || (i.bad && !d.all[c].dead && !d.all[c].closing) then Killed(d, c) else d
  }

  /** read_conn. */
  ghost function OnRead(w: World, c: Conn, now: nat, i: Input): (v: World)
    requires Inv(w) && c in w.all && !w.all[c].dead && FreshTicket(w, i.http)
    ensures Inv(v) && v.all.Keys == w.all.Keys && v.conns == w.conns
  {
    hide InvBut;
    var u := Heard(w, c, now, i.got);
    if u.all[c].kind != Kind.Http then OnMessages(u, c, i)
    else if i.closed then Killed(u, c)
    else OnRequest(u, c, i.http)
  }

  datatype Drain = Broken | Emptied | Left

  /** flush, by how far the socket took the queue. */
  ghost function OnFlush(w: World, c: Conn, drain: Drain): (v: World)
    requires Inv(w) && c in w.all
    ensures Inv(v) && v.all.Keys == w.all.Keys && v.conns == w.conns
  {
    if drain == Broken || (drain == Emptied && w.all[c].closing) then Killed(w, c) else w
  }

  /** The main loop's checks on one connection, before it is flushed. */
  ghost function OnTimer(w: World, c: Conn, now: nat): (v: World)
    requires Inv(w) && c in w.all
    ensures Inv(v) && v.all.Keys == w.all.Keys && v.conns == w.conns
  {
    hide InvBut;
    var x := w.all[c];
    if x.dead then w
    else if x.kind == Kind.Http && now - x.created > 15 * SECOND then Killed(w, c)
    else if x.kind == Viewer && x.peer == null && x.ticket != "" && now - x.created > 20 * SECOND then
      CloseKeeps(w, c, 4408, "host did not answer", null);
      Upd(w, c, Closed(x, 4408, "host did not answer"))
    else if x.kind != Kind.Http && now - x.lastRx > 90 * SECOND then Killed(w, c)
    else if x.kind != Kind.Http && now - x.lastPing > 20 * SECOND then
      PingKeeps(w, c, now);
      Upd(w, c, Sent(x.(lastPing := now), Ping()))
    else w
  }

  lemma PingKeeps(w: World, c: Conn, now: nat)
    requires Inv(w) && c in w.all && w.all[c].kind != Kind.Http
    ensures Inv(Upd(w, c, Sent(w.all[c].(lastPing := now), Ping())))
  {
    hide InvBut, Ascii;
    SentControl(w.all[c].(lastPing := now), Ping());
    AnnotateKeeps(w, c, Sent(w.all[c].(lastPing := now), Ping()), null);
  }

  function Ping(): Frame {
    Frame(true, 9, Ascii("td"))
  }

  ghost function Accepted(w: World, c: Conn, now: nat): (v: World)
    requires Inv(w) && c !in w.all
    ensures Inv(v)
  {
    AcceptKeeps(w, c, now);
    World(w.all[c := Fresh(now)], w.conns + {c}, w.hosts, w.tickets)
  }

  lemma AcceptKeeps(w: World, c: Conn, now: nat)
    requires Inv(w) && c !in w.all
    ensures Inv(World(w.all[c := Fresh(now)], w.conns + {c}, w.hosts, w.tickets))
  {
    hide Local, Linked, Fed;
    var v := World(w.all[c := Fresh(now)], w.conns + {c}, w.hosts, w.tickets);
    FreshLocal(now);
    forall d | d in v.all ensures LocalAt(v, d) { if d != c { assert LocalAt(w, d); } }
    forall d | d in v.all ensures PeerAt(v, d) && FedAt(v, d) { if d != c { assert PeerAt(w, d) && FedAt(w, d); } }
    forall d | d in v.all ensures WaiterAt(v, d) && OwnerAt(v, d) { if d != c { assert WaiterAt(w, d) && OwnerAt(w, d); } }
    forall t | t in v.tickets ensures TicketAt(v, t) { assert TicketAt(w, t); }
    forall i | i in v.hosts ensures EntryAt(v, i) { assert EntryAt(w, i); }
  }

  lemma FreshLocal(now: nat)
    ensures Local(Fresh(now))
  {
  }

  /** The dead connections are freed. */
  ghost function Reaped(w: World): (v: World)
    requires Inv(w)
    ensures Inv(v)
  {
    ReapKeeps(w);
    w.(conns := set c | c in w.conns && !w.all[c].dead)
  }

  lemma ReapKeeps(w: World)
    requires Inv(w)
    ensures Inv(w.(conns := set c | c in w.conns && !w.all[c].dead))
  {
    hide Local, Linked, Fed;
    var v := w.(conns := set c | c in w.conns && !w.all[c].dead);
    forall d | d in v.all ensures LocalAt(v, d) && PeerAt(v, d) && FedAt(v, d) {
      assert LocalAt(w, d) && PeerAt(w, d) && FedAt(w, d);
    }
    forall d | d in v.all ensures WaiterAt(v, d) && OwnerAt(v, d) { assert WaiterAt(w, d) && OwnerAt(w, d); }
    forall t | t in v.tickets ensures TicketAt(v, t) { assert TicketAt(w, t); }
    forall i | i in v.hosts ensures EntryAt(v, i) { assert EntryAt(w, i); }
  }

  /** No connection, ticket or host entry refers to anything outside `conns`. */
  ghost predicate NoDangling(w: World) {
    && (forall c :: c in w.conns ==> c in w.all && !w.all[c].dead && PeerIn(w, c))
    && (forall t :: t in w.tickets ==> w.tickets[t] in w.conns)
    && (forall i :: i in w.hosts && w.hosts[i].ctl != null ==> w.hosts[i].ctl in w.conns)
  }

  ghost predicate PeerIn(w: World, c: Conn)
    requires c in w.all
  {
    w.all[c].peer != null ==> w.all[c].peer in w.conns
  }

  /** Freeing the dead leaves no reference to them. */
  lemma ReapLeavesNoReference(w: World)
    requires Inv(w)
    ensures NoDangling(Reaped(w))
  {
    hide Local, Fed;
    var v := Reaped(w);
    forall c | c in v.conns ensures c in v.all && !v.all[c].dead && PeerIn(v, c) {
      assert PeerAt(v, c);
      if v.all[c].peer != null { assert LocalAt(v, v.all[c].peer); }
    }
    forall t | t in v.tickets ensures v.tickets[t] in v.conns {
      assert TicketAt(v, t);
      assert LocalAt(v, v.tickets[t]);
    }
    forall i | i in v.hosts && v.hosts[i].ctl != null ensures v.hosts[i].ctl in v.conns {
      assert EntryAt(v, i);
      assert LocalAt(v, v.hosts[i].ctl);
    }
  }

  // -------------------------------------------------------------------- runs

  datatype Event =
    | Accept(c: Conn, now: nat)
    | Read(c: Conn, now: nat, input: Input)
    | Flush(c: Conn, drain: Drain)
    | Timer(c: Conn, now: nat)
    | Reap

  /** Events name connections the loop still holds and skip the dead; tickets are fresh. */
  ghost predicate Possible(w: World, e: Event) {
    match e
    case Accept(c, _) => c !in w.all
    case Read(c, _, i) => c in w.conns && c in w.all && !w.all[c].dead && FreshTicket(w, i.http)
    case Flush(c, _) => c in w.conns && c in w.all && !w.all[c].dead
    case Timer(c, _) => c in w.conns && c in w.all
    case Reap => true
  }

  /** The handlers are defined where the invariant holds, which is in every state reached. */
  ghost function Step(w: World, e: Event): World {
    if !Inv(w) || !Possible(w, e) then w
    else match e
      case Accept(c, now) => Accepted(w, c, now)
      case Read(c, now, i) => OnRead(w, c, now, i)
      case Flush(c, d) => OnFlush(w, c, d)
      case Timer(c, now) => OnTimer(w, c, now)
      case Reap => Reaped(w)
  }

  function Start(): World {
    World(map[], {}, map[], map[])
  }

  ghost function Run(es: seq<Event>): World {
    if es == [] then Start() else Step(Run(es[..|es| - 1]), es[|es| - 1])
  }

  lemma StepKeeps(w: World, e: Event)
    requires Inv(w)
    ensures Inv(Step(w, e))
  {
    hide Inv, OnRead, OnFlush, OnTimer, Accepted, Reaped;
  }

  /** Every reachable state satisfies the whole invariant. */
  lemma {:induction false} RunKeeps(es: seq<Event>)
    ensures Inv(Run(es))
  {
    hide Inv, Step;
    if es == [] {
      StartKeeps();
    } else {
      RunKeeps(es[..|es| - 1]);
      StepKeeps(Run(es[..|es| - 1]), es[|es| - 1]);
    }
  }

  lemma StartKeeps()
    ensures Inv(Start())
  {
  }

  /** In every reachable state, peers are mutual: one live viewer and one live data
      connection of the same id. */
  lemma {:induction false} PeersAreMutual(es: seq<Event>, c: Conn)
    requires c in Run(es).all && Run(es).all[c].peer != null
    ensures var w := Run(es);
      var p := w.all[c].peer;
      p in w.all && p in w.conns && c in w.conns && w.all[p].peer == c && w.all[p].id == w.all[c].id
      && {w.all[c].kind, w.all[p].kind} == {Viewer, HostData} && !w.all[c].dead && !w.all[p].dead
  {
    hide RelayedOf, Out, Payloads, SizeOf, Run;
    RunKeeps(es);
    var w := Run(es);
    assert PeerAt(w, c);
    assert LocalAt(w, c) && LocalAt(w, w.all[c].peer);
  }

  /** In every reachable state a ticket stands for exactly the live, unpaired viewer that
      holds it, and every viewer that holds one can be found by it. */
  lemma {:induction false} TicketsNameViewers(es: seq<Event>, t: string, c: Conn)
    requires c in Run(es).all
    ensures var w := Run(es);
      t in w.tickets && w.tickets[t] == c
      <==> w.all[c].kind == Viewer && !w.all[c].dead && w.all[c].ticket == t && t != ""
    ensures var w := Run(es); t in w.tickets && w.tickets[t] == c ==> w.all[c].peer == null && c in w.conns
  {
    hide RelayedOf, Out, Payloads, SizeOf, Run;
    RunKeeps(es);
    var w := Run(es);
    if t in w.tickets && w.tickets[t] == c { assert TicketAt(w, t); }
    assert WaiterAt(w, c) && LocalAt(w, c);
  }

  /** In every reachable state the control connections named by host entries are exactly
      the live ones, each under its own id. */
  lemma {:induction false} OwnersAreUnique(es: seq<Event>, i: string, c: Conn)
    requires c in Run(es).all
    ensures var w := Run(es);
      i in w.hosts && w.hosts[i].ctl == c <==> w.all[c].kind == HostCtl && !w.all[c].dead && w.all[c].id == i
  {
    hide RelayedOf, Out, Payloads, SizeOf, Run;
    RunKeeps(es);
    var w := Run(es);
    if i in w.hosts && w.hosts[i].ctl == c { assert EntryAt(w, i); }
    assert OwnerAt(w, c);
  }

  /** In every reachable state, what was relayed to one end of a pair is what the other
      end sent, from its first message on, in order, none lost or doubled: all of it
      while the two are paired, and the first so many once they are not.  The messages
      that were held for the pairing go out as BINARY, the others with their opcode. */
  lemma {:induction false} ForwardedInOrder(es: seq<Event>, c: Conn)
    requires c in Run(es).all && Run(es).all[c].source != null
    ensures var w := Run(es);
      var x, s := w.all[c], w.all[c].source;
      s in w.all && x.held <= |w.all[s].log| && RelayedOf(x.frames) <= Out(w.all[s].log, x.held)
      && (x.peer != null ==> x.peer == s && RelayedOf(x.frames) == Out(w.all[s].log, x.held))
  {
    hide RelayedOf, Out, Payloads, SizeOf, Run;
    RunKeeps(es);
    assert FedAt(Run(es), c) && LocalAt(Run(es), c);
  }

  /** In every reachable state a waiting viewer holds all of its messages, at most 4 MiB. */
  lemma {:induction false} HeldInFull(es: seq<Event>, c: Conn)
    requires c in Run(es).all && !Run(es).all[c].dead
    ensures var x := Run(es).all[c];
      && x.pendingBytes == SizeOf(x.pending) <= 4 * 1024 * 1024
      && (x.ticket != "" ==> x.pending == Payloads(x.log))
      && (x.ticket == "" ==> x.pending == [])
  {
    hide RelayedOf, Out, Payloads, SizeOf, Run;
    RunKeeps(es);
    assert LocalAt(Run(es), c);
  }

  // ------------------------------------------- when the relay is transparent

  /** What a client calls a data message. */
  predicate IsData(m: Message) {
    m.opcode == TEXT || m.opcode == BINARY
  }

  function DataOf(log: seq<Message>): seq<Message> {
    if log == [] then []
    else
      var last := log[|log| - 1];
      DataOf(log[..|log| - 1]) + if IsData(last) then [last] else []
  }

  function PayloadsOf(frames: seq<Frame>): (ps: seq<seq<byte>>)
    ensures |ps| == |frames|
  {
    seq(|frames|, k requires 0 <= k < |frames| => frames[k].payload)
  }

  function Verbatim(log: seq<Message>): (fs: seq<Frame>)
    ensures |fs| == |log|
  {
    seq(|log|, k requires 0 <= k < |log| => Frame(true, log[k].opcode, log[k].data))
  }

  lemma {:induction false} DataIsAll(log: seq<Message>)
    ensures |DataOf(log)| <= |log|
    ensures |DataOf(log)| == |log| <==> forall k :: 0 <= k < |log| ==> IsData(log[k])
    ensures |DataOf(log)| == |log| ==> DataOf(log) == log
  {
    if log != [] {
      var n := |log| - 1;
      DataIsAll(log[..n]);
      assert log[..n] + [log[n]] == log;
      if forall k :: 0 <= k < |log| ==> IsData(log[k]) {
        forall k | 0 <= k < n ensures IsData(log[..n][k]) { assert IsData(log[k]); }
      }
    }
  }

  /** In every reachable state, for the messages relayed so far, which are all of them
      while the two ends are paired: their payloads are the sender's data messages exactly
      when it sent none under a reserved opcode, and every message went out under its own
      opcode exactly when those held were BINARY. */
  lemma {:induction false} TransparentWhen(es: seq<Event>, c: Conn)
    requires c in Run(es).all && Run(es).all[c].source != null
    ensures var w := Run(es);
      w.all[c].source in w.all &&
      var fs, log, held := RelayedOf(w.all[c].frames), w.all[w.all[c].source].log, w.all[c].held;
      && |fs| <= |log| && (w.all[c].peer != null ==> |fs| == |log|)
      && (PayloadsOf(fs) == Payloads(DataOf(log[..|fs|])) <==> forall k :: 0 <= k < |fs| ==> IsData(log[k]))
      && (fs == Verbatim(log[..|fs|]) <==> forall k :: 0 <= k < |fs| && k < held ==> log[k].opcode == BINARY)
  {
    hide RelayedOf, SizeOf, Run, DataOf, Inv;
    ForwardedInOrder(es, c);
    var w := Run(es);
    var log, held := w.all[w.all[c].source].log, w.all[c].held;
    var fs := RelayedOf(w.all[c].frames);
    var sent := log[..|fs|];
    assert fs == Out(sent, held);
    assert PayloadsOf(fs) == Payloads(sent);
    DataIsAll(sent);
    OpcodesKept(sent, held);
  }

  lemma OpcodesKept(log: seq<Message>, held: nat)
    ensures Out(log, held) == Verbatim(log) <==> forall k :: 0 <= k < |log| && k < held ==> log[k].opcode == BINARY
  {
    if Out(log, held) == Verbatim(log) {
      forall k | 0 <= k < |log| && k < held ensures log[k].opcode == BINARY {
        assert Out(log, held)[k] == Verbatim(log)[k];
      }
    }
  }

  /** Any message to relay that a waiting viewer sends before its host answers reaches
      the host as a BINARY message; sent under a reserved opcode such as 11, it is no
      data message, and what the host gets are not the viewer's data messages. */
  lemma HeldBecomesBinary(w: World, v: Conn, d: Conn, t: string, m: Message, accept: seq<byte>)
    requires Inv(w) && t in w.tickets && w.tickets[t] == v && d in w.all && d != v
    requires w.all[d].kind == Kind.Http && !w.all[d].dead
    requires v in w.all && w.all[v].pendingBytes + |m.data| <= MAX_PENDING && Relayed(m.opcode)
    ensures PeerKnown(w, v) && var u := Receive(w, v, m);
      && t in u.tickets && u.tickets[t] == v && v in u.all && d in u.all
      && var fs := RelayedOf(Pair(u, d, t, accept).all[d].frames);
         fs == Replay(w.all[v].pending) + [Frame(true, BINARY, m.data)]
         && (!IsData(m) ==> PayloadsOf(fs) != Payloads(DataOf(u.all[v].log)))
  {
    hide RelayedOf, SizeOf, Out, InvBut, Replay, DataOf;
    WaitingViewer(w, t);
    ReplayRelayed(w.all[v].pending + [m.data]);
    ReplayMore(w.all[v].pending, m.data);
    var log := w.all[v].log + [m];
    DataIsAll(log);
    assert log[|log| - 1] == m;
  }

  lemma ReplayMore(pending: seq<seq<byte>>, p: seq<byte>)
    ensures Replay(pending + [p]) == Replay(pending) + [Frame(true, BINARY, p)]
  {
  }

  /** A viewer whose host has not answered for 20 s is told so; once its queue is sent it
      is dead, its ticket no longer admits anyone, and what it held is never forwarded. */
  lemma UnansweredViewerLeaves(w: World, c: Conn, now: nat)
    requires Inv(w) && c in w.all && w.all[c].kind == Viewer && !w.all[c].dead && w.all[c].ticket != ""
    requires now - w.all[c].created > 20_000_000
    ensures var v := OnFlush(OnTimer(w, c, now), c, Emptied);
      && v.all[c].dead && v.all[c].frames == w.all[c].frames + [CloseFrame(4408, "host did not answer")]
      && w.all[c].ticket !in v.tickets && v.tickets == w.tickets - {w.all[c].ticket}
  {
    hide InvBut, CloseFrame;
    WaiterUnpaired(w, c);
    KilledState(OnTimer(w, c, now), c);
  }

  lemma WaiterUnpaired(w: World, c: Conn)
    requires Inv(w) && c in w.all && w.all[c].ticket != ""
    ensures w.all[c].peer == null
  {
    hide RelayedOf, Out, Payloads, SizeOf;
    assert LocalAt(w, c);
  }

  /** An id that is online stays with its owner against any other key; with the same key
      the new control connection takes it over and the old one dies. */
  lemma IdNeedsItsKey(w: World, c: Conn, h: Http, id: string, key: string)
    requires Inv(w) && c in w.all && w.all[c].kind == Kind.Http && !w.all[c].dead && FreshTicket(w, h)
    requires h.request == Host(id, key) && ValidId(id) && ValidHex(key, 32) && HasCtl(w, id)
    ensures w.hosts[id].key != key ==> Upgraded(w, c, h).None?
    ensures w.hosts[id].key == key ==>
      var v := Upgraded(w, c, h);
      v.Some? && v.value.hosts[id] == HostEntry(key, c) && v.value.all[w.hosts[id].ctl].dead
  {
    hide InvBut, Closed;
    CtlOf(w, id);
    RetireKeeps(w, id);
    RetiredDies(w, id);
  }

  lemma RetiredDies(w: World, id: string)
    requires Inv(w) && HasCtl(w, id)
    ensures var h := w.hosts[id].ctl;
      h in w.all && w.all[h].peer == null && h in Retire(w, id).all && Retire(w, id).all[h].dead
  {
    hide InvBut, Closed;
    CtlOf(w, id);
    ClosedSame(w.all[w.hosts[id].ctl], 1001, "replaced");
  }
}
