/** The relay's state as a value, and what each event does to it
    (relay/relay.cpp:64-99, 153-184, 281-358, 451-486).  The class in Relay.dfy is
    proved to follow these functions. */
module RelayState {
  import opened Bytes
  import opened WebSocket

  const MAX_PENDING := 0x40_0000
  const SECOND := 1000000

  datatype Kind = Http | HostCtl | HostData | Viewer

  /** The opcodes the relay does not answer itself: data, and the reserved ones. */
  predicate Relayed(opcode: Opcode) {
    opcode != 8 && opcode != 9 && opcode != 10
  }

  /** The relayed frames among `frames`, in order. */
  function RelayedOf(frames: seq<Frame>): seq<Frame> {
    if frames == [] then []
    else
      var last := frames[|frames| - 1];
      RelayedOf(frames[..|frames| - 1]) + if Relayed(last.opcode) then [last] else []
  }

  /** What a log looks like once relayed: its messages in order, each with its opcode,
      but the first `held` of them, which waited for a peer, as BINARY. */
  function Out(log: seq<Message>, held: nat): (fs: seq<Frame>)
    ensures |fs| == |log|
  {
    seq(|log|, k requires 0 <= k < |log| => Frame(true, if k < held then BINARY else log[k].opcode, log[k].data))
  }

  function Payloads(log: seq<Message>): (ps: seq<seq<byte>>)
    ensures |ps| == |log|
  {
    seq(|log|, k requires 0 <= k < |log| => log[k].data)
  }

  lemma OutMore(log: seq<Message>, m: Message, held: nat)
    ensures Out(log, held) <= Out(log + [m], held)
    ensures held <= |log| ==> Out(log + [m], held) == Out(log, held) + [Frame(true, m.opcode, m.data)]
  {
    assert Out(log + [m], held)[..|log|] == Out(log, held);
  }

  /** The bytes of `frames`, one after the other, unmasked. */
  function EncodeAll(frames: seq<Frame>): seq<byte> {
    if frames == [] then []
    else EncodeAll(frames[..|frames| - 1]) + Encode(frames[|frames| - 1], None)
  }

  function SizeOf(pending: seq<seq<byte>>): nat {
    if pending == [] then 0 else SizeOf(pending[..|pending| - 1]) + |pending[|pending| - 1]|
  }

  lemma EncodeMore(frames: seq<Frame>, f: Frame)
    ensures EncodeAll(frames + [f]) == EncodeAll(frames) + Encode(f, None)
  {
    hide Encode;
    assert (frames + [f])[..|frames|] == frames;
  }

  lemma RelayedMore(frames: seq<Frame>, f: Frame)
    ensures RelayedOf(frames + [f]) == RelayedOf(frames) + if Relayed(f.opcode) then [f] else []
  {
    assert (frames + [f])[..|frames|] == frames;
  }

  lemma SizeMore(pending: seq<seq<byte>>, p: seq<byte>)
    ensures SizeOf(pending + [p]) == SizeOf(pending) + |p|
  {
    assert (pending + [p])[..|pending|] == pending;
  }

  /** struct Conn.  The ghost fields say what `out` is made of (HTTP text, then frames),
      what has left it, which messages to relay arrived here, whose are forwarded here,
      and how many of those waited for this connection. */
  class Conn {
    var kind: Kind
    var out: seq<byte>
    var outOff: nat
    var created: nat
    var lastRx: nat
    var lastPing: nat
    var closeAfterFlush: bool
    var dead: bool
    var id: string
    var ticket: string
    var peer: Conn?
    var pending: seq<seq<byte>>
    var pendingBytes: nat
    ghost var greeting: seq<byte>
    ghost var frames: seq<Frame>
    ghost var sent: seq<byte>
    ghost var log: seq<Message>
    ghost var source: Conn?
    ghost var held: nat

    constructor (now: nat)
      ensures Snap() == Fresh(now) && StreamOk() && sent == []
    {
      kind, dead, closeAfterFlush, peer, ticket, id := Http, false, false, null, "", "";
      pending, pendingBytes, out, outOff := [], 0, [], 0;
      greeting, frames, sent, log, source, held := [], [], [], [], null, 0;
      created, lastRx, lastPing := now, now, now;
    }

    ghost function Snap(): C
      reads this
    {
      C(kind, id, ticket, peer, pending, pendingBytes, dead, closeAfterFlush, greeting, frames, log, source, held,
        created, lastRx, lastPing)
    }

    lemma SnapIs()
      ensures Snap() == C(kind, id, ticket, peer, pending, pendingBytes, dead, closeAfterFlush, greeting, frames, log,
                          source, held, created, lastRx, lastPing)
    {
    }

    /** What was sent and what is queued make up everything enqueued. */
    ghost predicate StreamOk()
      reads this
    {
      QueueOk(sent, out, outOff, greeting, frames)
    }
  }

  ghost predicate QueueOk(sent: seq<byte>, out: seq<byte>, off: nat, greeting: seq<byte>, frames: seq<Frame>) {
    off <= |out| && sent + out[off..] == greeting + EncodeAll(frames)
  }

  /** One connection, without its queue positions. */
  datatype C = C(kind: Kind, id: string, ticket: string, peer: Conn?, pending: seq<seq<byte>>, pendingBytes: nat,
                 dead: bool, closing: bool, greeting: seq<byte>, frames: seq<Frame>, log: seq<Message>,
                 source: Conn?, held: nat, created: nat, lastRx: nat, lastPing: nat)

  function Fresh(now: nat): C {
    C(Http, "", "", null, [], 0, false, false, [], [], [], null, 0, now, now, now)
  }

  datatype HostEntry = HostEntry(key: string, ctl: Conn?)

  /** `all` holds every connection ever accepted, `conns` the ones not yet freed. */
  datatype World = World(all: map<Conn, C>, conns: set<Conn>, hosts: map<string, HostEntry>, tickets: map<string, Conn>)

  // ----------------------------------------------------------------- events

  function Upd(w: World, c: Conn, x: C): World {
    w.(all := w.all[c := x])
  }

  function Sent(x: C, f: Frame): C {
    if x.dead then x else x.(frames := x.frames + [f])
  }

  /** The frame ws_close writes: the code, and at most 126 bytes of reason. */
  function CloseFrame(code: u16, reason: string): Frame {
    var c: int := code;
    Frame(true, 8, [c / 0x100, c % 0x100] + Ascii(reason[..Min(|reason|, 126)]))
  }

  function Closed(x: C, code: u16, reason: string): C {
    Sent(x, CloseFrame(code, reason)).(closing := true)
  }

  function Kill(w: World, c: Conn): World
    requires c in w.all && (w.all[c].peer == null || w.all[c].peer in w.all)
  {
    var x := w.all[c];
    if x.dead then w
    else
      var gone := Upd(w, c, x.(dead := true, peer := null));
      var cut := if x.peer == null then gone
                 else Upd(gone, x.peer, Closed(gone.all[x.peer].(peer := null), 1001, "peer disconnected"));
      cut.(tickets := if x.kind == Viewer && x.ticket != "" then w.tickets - {x.ticket} else w.tickets,
           hosts := if x.kind == HostCtl && x.id in w.hosts && w.hosts[x.id].ctl == c
                    then w.hosts[x.id := w.hosts[x.id].(ctl := null)] else w.hosts)
  }

  // -------------------------------------------------------------- invariant

  /** What holds of one connection by itself. */
  ghost predicate Local(x: C) {
    && x.pendingBytes == SizeOf(x.pending) && x.pendingBytes <= MAX_PENDING
    && (x.dead ==> x.peer == null)
    && (x.peer != null ==> x.source == x.peer && x.ticket == "")
    && (x.kind == Http ==> x.frames == [] && x.log == [])
    && (x.kind == Http || x.kind == HostCtl ==> x.peer == null && x.source == null)
    && (x.kind != Viewer ==> x.ticket == "")
    && (x.ticket == "" && !x.dead ==> x.pending == [])
    && (x.ticket != "" && !x.dead ==> Waiting(x))
  }

  /** A viewer before pairing holds all it has received, and was forwarded nothing. */
  ghost predicate Waiting(x: C) {
    x.pending == Payloads(x.log) && x.source == null && RelayedOf(x.frames) == []
  }

  /** Peers are two live ends, viewer and data connection, of the same id. */
  ghost predicate Linked(c: Conn, x: C, p: C) {
    && p.peer == c && !x.dead && !p.dead && x.id == p.id
    && ((x.kind == Viewer && p.kind == HostData) || (x.kind == HostData && p.kind == Viewer))
  }

  /** What was forwarded is a prefix of what its source received, all of it while paired. */
  ghost predicate Fed(x: C, s: C) {
    && x.held <= |s.log| && RelayedOf(x.frames) <= Out(s.log, x.held)
    && (x.peer != null ==> RelayedOf(x.frames) == Out(s.log, x.held))
  }

  ghost predicate LocalAt(w: World, c: Conn)
    requires c in w.all
  {
    Local(w.all[c]) && (!w.all[c].dead ==> c in w.conns)
  }

  ghost predicate PeerAt(w: World, c: Conn)
    requires c in w.all
  {
    var p := w.all[c].peer;
    p != null ==> p in w.all && Linked(c, w.all[c], w.all[p])
  }

  ghost predicate FedAt(w: World, c: Conn)
    requires c in w.all
  {
    var s := w.all[c].source;
    s != null ==> s in w.all && Fed(w.all[c], w.all[s])
  }

  ghost predicate TicketAt(w: World, t: string)
    requires t in w.tickets
  {
    var v := w.tickets[t];
    v in w.all && w.all[v].kind == Viewer && !w.all[v].dead && t != "" && w.all[v].ticket == t
  }

  ghost predicate WaiterAt(w: World, c: Conn)
    requires c in w.all
  {
    var x := w.all[c];
    !x.dead && x.ticket != "" ==> x.ticket in w.tickets && w.tickets[x.ticket] == c
  }

  ghost predicate EntryAt(w: World, i: string)
    requires i in w.hosts
  {
    var h := w.hosts[i].ctl;
    h != null ==> h in w.all && w.all[h].kind == HostCtl && !w.all[h].dead && w.all[h].id == i
  }

  ghost predicate OwnerAt(w: World, c: Conn)
    requires c in w.all
  {
    var x := w.all[c];
    !x.dead && x.kind == HostCtl ==> x.id in w.hosts && w.hosts[x.id].ctl == c
  }

  ghost predicate Locals(w: World) {
    w.conns <= w.all.Keys && forall c :: c in w.all ==> LocalAt(w, c)
  }

  ghost predicate Peers(w: World) {
    forall c :: c in w.all ==> PeerAt(w, c)
  }

  ghost predicate Feeds(w: World) {
    forall c :: c in w.all ==> FedAt(w, c)
  }

  /** Tickets and live waiting viewers are in one-to-one correspondence. */
  ghost predicate Tickets(w: World) {
    (forall t :: t in w.tickets ==> TicketAt(w, t)) && (forall c :: c in w.all ==> WaiterAt(w, c))
  }

  /** Each entry's control connection is live and of that id; and each live control
      connection, but for `but`, is the one its entry names. */
  ghost predicate HostsBut(w: World, but: Conn?) {
    (forall i :: i in w.hosts ==> EntryAt(w, i)) && (forall c :: c in w.all && c != but ==> OwnerAt(w, c))
  }

  ghost predicate InvBut(w: World, but: Conn?) {
    Locals(w) && Peers(w) && Feeds(w) && Tickets(w) && HostsBut(w, but)
  }

  ghost predicate Inv(w: World) {
    InvBut(w, null)
  }

  // ------------------------------------------------------ what events keep

  /** Nothing that tickets and host entries depend on differs, for any connection. */
  ghost predicate SameRoles(w: World, v: World) {
    && w.all.Keys == v.all.Keys && w.tickets == v.tickets && w.hosts == v.hosts
    && forall c :: c in w.all ==> SameRole(w.all[c], v.all[c])
  }

  predicate SameRole(x: C, y: C) {
    x.kind == y.kind && x.id == y.id && x.ticket == y.ticket && x.dead == y.dead
  }

  lemma RolesKeep(w: World, v: World, but: Conn?)
    requires SameRoles(w, v) && Tickets(w) && HostsBut(w, but)
    ensures Tickets(v) && HostsBut(v, but)
  {
    forall t | t in v.tickets ensures TicketAt(v, t) { assert TicketAt(w, t); }
    forall c | c in v.all ensures WaiterAt(v, c) { assert WaiterAt(w, c); }
    forall i | i in v.hosts ensures EntryAt(v, i) { assert EntryAt(w, i); }
    forall c | c in v.all && c != but ensures OwnerAt(v, c) { assert OwnerAt(w, c); }
  }

  /** Control frames, HTTP text, the closing flag and the clocks are all that changed. */
  ghost predicate Annotated(x: C, y: C) {
    && y.(frames := x.frames, closing := x.closing, greeting := x.greeting, lastRx := x.lastRx, lastPing := x.lastPing) == x
    && RelayedOf(y.frames) == RelayedOf(x.frames)
    && (y.frames == x.frames || y.kind != Http)
  }

  lemma SentControl(x: C, f: Frame)
    requires !Relayed(f.opcode) && x.kind != Http
    ensures Annotated(x, Sent(x, f))
  {
    hide RelayedOf;
    RelayedMore(x.frames, f);
  }

  /** Links, data flows and local facts carry over when no connection changes them. */
  ghost predicate SameLinks(w: World, v: World) {
    w.all.Keys == v.all.Keys && forall c :: c in w.all ==> SameLink(w.all[c], v.all[c])
  }

  predicate SameLink(x: C, y: C) {
    x.kind == y.kind && x.id == y.id && x.dead == y.dead && x.peer == y.peer
  }

  lemma LinksKeep(w: World, v: World)
    requires SameLinks(w, v) && Peers(w)
    ensures Peers(v)
  {
    forall c | c in v.all ensures PeerAt(v, c) { assert PeerAt(w, c); }
  }

  /** Sources stay; logs and forwarded frames stay; links may only be cut. */
  ghost predicate SameFlows(w: World, v: World) {
    w.all.Keys == v.all.Keys && forall c :: c in w.all ==> SameFlow(w.all[c], v.all[c])
  }

  ghost predicate SameFlow(x: C, y: C) {
    && x.source == y.source && x.held == y.held && x.log == y.log && (y.peer == x.peer || y.peer == null)
    && (x.source != null ==> RelayedOf(x.frames) == RelayedOf(y.frames))
  }

  lemma FlowsKeep(w: World, v: World)
    requires SameFlows(w, v) && Feeds(w)
    ensures Feeds(v)
  {
    hide RelayedOf;
    forall c | c in v.all ensures FedAt(v, c) { assert FedAt(w, c); }
  }

  lemma LocalsKeep(w: World, c: Conn, y: C)
    requires Locals(w) && c in w.all && Local(y) && (y.dead || c in w.conns)
    ensures Locals(Upd(w, c, y))
  {
    hide Local;
    var v := Upd(w, c, y);
    forall d | d in v.all ensures LocalAt(v, d) { if d != c { assert LocalAt(w, d); } }
  }

  lemma AnnotateKeeps(w: World, c: Conn, y: C, but: Conn?)
    requires InvBut(w, but) && c in w.all && Annotated(w.all[c], y)
    ensures InvBut(Upd(w, c, y), but)
  {
    hide RelayedOf, Out, Payloads, SizeOf, Tickets, HostsBut, Peers, Feeds;
    var v := Upd(w, c, y);
    assert LocalAt(w, c);
    RolesKeep(w, v, but);
    LinksKeep(w, v);
    FlowsKeep(w, v);
    LocalsKeep(w, c, y);
  }

  // ------------------------------------------------------------------- kill

  /** Both ends of a link let go of it. */
  function Unlink(w: World, c: Conn): World
    requires c in w.all && (w.all[c].peer == null || w.all[c].peer in w.all)
  {
    var p := w.all[c].peer;
    if p == null then w
    else
      var cut := Upd(w, c, w.all[c].(peer := null));
      Upd(cut, p, cut.all[p].(peer := null))
  }

  lemma UnlinkKeeps(w: World, c: Conn, but: Conn?)
    requires InvBut(w, but) && c in w.all
    ensures PeerAt(w, c) && InvBut(Unlink(w, c), but)
  {
    hide RelayedOf, Out, Payloads, SizeOf, Tickets, HostsBut;
    assert PeerAt(w, c);
    var p := w.all[c].peer;
    if p != null {
      var v := Unlink(w, c);
      RolesKeep(w, v, but);
      FlowsKeep(w, v);
      UnlinkPeers(w, c, p);
      UnlinkLocals(w, c, p);
    }
  }

  lemma UnlinkPeers(w: World, c: Conn, p: Conn)
    requires Peers(w) && c in w.all && w.all[c].peer == p && p in w.all
    ensures Peers(Unlink(w, c))
  {
    var v := Unlink(w, c);
    assert PeerAt(w, c);
    forall d | d in v.all ensures PeerAt(v, d) { assert PeerAt(w, d); }
  }

  lemma UnlinkLocals(w: World, c: Conn, p: Conn)
    requires Locals(w) && c in w.all && w.all[c].peer == p && p in w.all
    ensures Locals(Unlink(w, c))
  {
    hide RelayedOf, Out, Payloads, SizeOf;
    assert LocalAt(w, c) && LocalAt(w, p);
    var cut := Upd(w, c, w.all[c].(peer := null));
    LocalsKeep(w, c, cut.all[c]);
    LocalsKeep(cut, p, cut.all[p].(peer := null));
  }

  /** A connection without a peer dies: its ticket and its host entry go. */
  function Die(w: World, c: Conn): World
    requires c in w.all
  {
    var x := w.all[c];
    Upd(w, c, x.(dead := true))
      .(tickets := if x.kind == Viewer && x.ticket != "" then w.tickets - {x.ticket} else w.tickets,
        hosts := if x.kind == HostCtl && x.id in w.hosts && w.hosts[x.id].ctl == c
                 then w.hosts[x.id := w.hosts[x.id].(ctl := null)] else w.hosts)
  }

  lemma DieKeeps(w: World, c: Conn, but: Conn?)
    requires InvBut(w, but) && c in w.all && !w.all[c].dead && w.all[c].peer == null && (but == null || but == c)
    ensures Inv(Die(w, c))
  {
    hide Local, Fed, Linked;
    var v := Die(w, c);
    assert v.conns == w.conns;
    assert LocalAt(w, c);
    DeadLocal(w.all[c]);
    forall d | d in v.all ensures LocalAt(v, d) { assert LocalAt(w, d); }
    DieFlows(w, c);
    DieTickets(w, c);
    DieHosts(w, c, but);
  }

  lemma DeadLocal(x: C)
    requires Local(x) && x.peer == null
    ensures Local(x.(dead := true))
  {
    hide SizeOf, RelayedOf;
  }

  lemma DieFlows(w: World, c: Conn)
    requires Peers(w) && Feeds(w) && c in w.all && w.all[c].peer == null
    ensures Peers(Die(w, c)) && Feeds(Die(w, c))
  {
    hide RelayedOf;
    var v := Die(w, c);
    forall d | d in v.all ensures PeerAt(v, d) { assert PeerAt(w, d); }
    forall d | d in v.all ensures FedAt(v, d) { assert FedAt(w, d); }
  }

  lemma DieTickets(w: World, c: Conn)
    requires Tickets(w) && Locals(w) && c in w.all && !w.all[c].dead
    ensures Tickets(Die(w, c))
  {
    hide SizeOf, RelayedOf;
    var v := Die(w, c);
    assert LocalAt(w, c);
    forall t | t in v.tickets ensures TicketAt(v, t) { assert TicketAt(w, t); }
    forall d | d in v.all ensures WaiterAt(v, d) {
      assert WaiterAt(w, d) && WaiterAt(w, c);
    }
  }

  lemma DieHosts(w: World, c: Conn, but: Conn?)
    requires HostsBut(w, but) && c in w.all && (but == null || but == c)
    ensures HostsBut(Die(w, c), null)
  {
    var v := Die(w, c);
    forall i | i in v.hosts ensures EntryAt(v, i) { assert EntryAt(w, i); }
    forall d | d in v.all ensures OwnerAt(v, d) {
      if d != c { assert OwnerAt(w, d); }
    }
  }

  lemma CloseIsControl(code: u16, reason: string)
    ensures CloseFrame(code, reason).opcode == 8
  {
  }

  /** ws_close on a connection keeps everything. */
  lemma CloseKeeps(w: World, c: Conn, code: u16, reason: string, but: Conn?)
    requires InvBut(w, but) && c in w.all && w.all[c].kind != Http
    ensures InvBut(Upd(w, c, Closed(w.all[c], code, reason)), but)
  {
    hide CloseFrame, InvBut, RelayedOf;
    CloseIsControl(code, reason);
    SentControl(w.all[c], CloseFrame(code, reason));
    AnnotateKeeps(w, c, Closed(w.all[c], code, reason), but);
  }

  lemma PeerOf(w: World, c: Conn, but: Conn?)
    requires InvBut(w, but) && c in w.all && w.all[c].peer != null
    ensures w.all[c].peer in w.all && w.all[c].peer != c && w.all[w.all[c].peer].kind != Http
    ensures w.all[w.all[c].peer].peer == c && !w.all[w.all[c].peer].dead && w.all[w.all[c].peer].source == c
  {
    hide RelayedOf, Out, Payloads, SizeOf;
    assert PeerAt(w, c) && LocalAt(w, w.all[c].peer);
  }

  /** The peer is let go and told, then the connection dies. */
  lemma KillInSteps(w: World, c: Conn)
    requires c in w.all && !w.all[c].dead
    requires w.all[c].peer == null || (w.all[c].peer in w.all && w.all[c].peer != c && w.all[w.all[c].peer].peer == c)
    ensures Kill(w, c) == Die(Told(w, c), c)
  {
    hide CloseFrame;
    assert Kill(w, c).all == Die(Told(w, c), c).all;
  }

  function Told(w: World, c: Conn): World
    requires c in w.all && (w.all[c].peer == null || w.all[c].peer in w.all)
  {
    var u := Unlink(w, c);
    var p := w.all[c].peer;
    if p == null then u else Upd(u, p, Closed(u.all[p], 1001, "peer disconnected"))
  }

  lemma KillKeeps(w: World, c: Conn, but: Conn?)
    requires InvBut(w, but) && c in w.all && (but == null || but == c)
    ensures w.all[c].peer == null || w.all[c].peer in w.all
    ensures Inv(Kill(w, c))
  {
    hide InvBut, CloseFrame, Kill, Die;
    var x := w.all[c];
    if x.peer != null { PeerOf(w, c, but); }
    if !x.dead {
      KillInSteps(w, c);
      UnlinkKeeps(w, c, but);
      if x.peer != null { CloseKeeps(Unlink(w, c), x.peer, 1001, "peer disconnected", but); }
      DieKeeps(Told(w, c), c, but);
    } else {
      DeadBut(w, c, but);
      KillDead(w, c);
    }
  }

  lemma KillDead(w: World, c: Conn)
    requires c in w.all && w.all[c].dead && (w.all[c].peer == null || w.all[c].peer in w.all)
    ensures Kill(w, c) == w
  {
  }

  lemma DeadBut(w: World, c: Conn, but: Conn?)
    requires InvBut(w, but) && c in w.all && w.all[c].dead && (but == null || but == c)
    ensures Inv(w)
  {
    hide Local, Fed, Linked;
  }
}
