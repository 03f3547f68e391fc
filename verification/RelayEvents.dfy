/** What each event of the relay does to its state, and that every one of them keeps
    the references consistent and the forwarded data in order
    (relay/relay.cpp:281-383 and 451-486). */
module RelayEvents {
  import opened Bytes
  import opened WebSocket
  import opened RelayState

  // --------------------------------------------------------------- messages

  ghost predicate PeerKnown(w: World, c: Conn) {
    c in w.all && (w.all[c].peer == null || w.all[c].peer in w.all)
  }

  /** A closing handshake: echo the code, tell the peer, let go of it. */
  function OnClose(w: World, c: Conn, p: seq<byte>): World
    requires PeerKnown(w, c)
  {
    var echoed := Upd(w, c, Sent(w.all[c], Frame(true, 8, p[..Min(|p|, 2)])).(closing := true));
    var peer := w.all[c].peer;
    if peer == null then echoed
    else Unlink(Upd(echoed, peer, Closed(echoed.all[peer], 1000, "peer closed")), c)
  }

  /** Anything to relay: forwarded to the peer, or held for it, or dropped when there is no one. */
  function OnData(w: World, c: Conn, opcode: Opcode, p: seq<byte>): World
    requires PeerKnown(w, c)
  {
    var x := w.all[c];
    var y := x.(log := x.log + [Message(opcode, p)]);
    if x.peer != null then
      var got := Upd(w, c, y);
      Upd(got, x.peer, Sent(got.all[x.peer], Frame(true, opcode, p)))
    else if x.kind == Viewer && x.ticket != "" then
      if x.pendingBytes + |p| > MAX_PENDING then
        var k := Kill(w, c);
        Upd(k, c, k.all[c].(log := x.log + [Message(opcode, p)]))
      else Upd(w, c, Held(x, Message(opcode, p)))
    else Upd(w, c, y)
  }

  /** handle_ws_message. */
  function Receive(w: World, c: Conn, m: Message): World
    requires PeerKnown(w, c)
  {
    if m.opcode == 9 then Upd(w, c, Sent(w.all[c], Frame(true, 10, m.data)))
    else if m.opcode == 10 then w
    else if m.opcode == 8 then OnClose(w, c, m.data)
    else if w.all[c].kind == HostCtl then w
    else OnData(w, c, m.opcode, m.data)
  }

  lemma OnCloseKeeps(w: World, c: Conn, p: seq<byte>)
    requires Inv(w) && c in w.all && w.all[c].kind != Http
    ensures PeerKnown(w, c) && Inv(OnClose(w, c, p))
  {
    hide InvBut, Closed, Unlink;
    var x := w.all[c];
    var f := Frame(true, 8, p[..Min(|p|, 2)]);
    if x.peer != null { PeerOf(w, c, null); }
    SentControl(x, f);
    AnnotateKeeps(w, c, Sent(x, f).(closing := true), null);
    var echoed := Upd(w, c, Sent(x, f).(closing := true));
    if x.peer != null {
      CloseKeeps(echoed, x.peer, 1000, "peer closed", null);
      UnlinkKeeps(Upd(echoed, x.peer, Closed(echoed.all[x.peer], 1000, "peer closed")), c, null);
    }
  }

  /** A connection with no peer and nothing held records a message. */
  lemma LogKeeps(w: World, c: Conn, m: Message)
    requires Inv(w) && c in w.all && w.all[c].peer == null && w.all[c].kind != Http
    requires w.all[c].dead || w.all[c].ticket == ""
    ensures Inv(Upd(w, c, w.all[c].(log := w.all[c].log + [m])))
  {
    hide SizeOf, RelayedOf, Out, Tickets, HostsBut, Peers;
    var y := w.all[c].(log := w.all[c].log + [m]);
    var v := Upd(w, c, y);
    RolesKeep(w, v, null);
    LinksKeep(w, v);
    assert LocalAt(w, c);
    LocalsKeep(w, c, y);
    LogFlows(w, c, m);
  }

  lemma LogFlows(w: World, c: Conn, m: Message)
    requires Locals(w) && Peers(w) && Feeds(w) && c in w.all && w.all[c].peer == null
    ensures Feeds(Upd(w, c, w.all[c].(log := w.all[c].log + [m])))
  {
    hide RelayedOf, Out, Payloads, SizeOf;
    var v := Upd(w, c, w.all[c].(log := w.all[c].log + [m]));
    forall d | d in v.all ensures FedAt(v, d) {
      assert FedAt(w, d) && LocalAt(w, d) && PeerAt(w, d);
      OutMore(w.all[c].log, m, w.all[d].held);
    }
  }

  lemma ForwardKeeps(w: World, c: Conn, opcode: Opcode, p: seq<byte>)
    requires Inv(w) && c in w.all && w.all[c].peer != null && Relayed(opcode)
    ensures PeerKnown(w, c) && Inv(OnData(w, c, opcode, p))
  {
    hide SizeOf, RelayedOf, Out, Tickets, HostsBut, Peers, Feeds;
    PeerOf(w, c, null);
    var peer := w.all[c].peer;
    var y := w.all[c].(log := w.all[c].log + [Message(opcode, p)]);
    var z := Sent(w.all[peer], Frame(true, opcode, p));
    var v := Upd(Upd(w, c, y), peer, z);
    RolesKeep(w, v, null);
    LinksKeep(w, v);
    assert LocalAt(w, c) && LocalAt(w, peer);
    LocalsKeep(w, c, y);
    LocalsKeep(Upd(w, c, y), peer, z);
    ForwardFlows(w, c, opcode, p);
  }

  lemma ForwardFlows(w: World, c: Conn, opcode: Opcode, p: seq<byte>)
    requires Locals(w) && Peers(w) && Feeds(w) && c in w.all && Relayed(opcode)
    requires w.all[c].peer != null && w.all[c].peer in w.all && w.all[c].peer != c
    ensures Feeds(OnData(w, c, opcode, p))
  {
    hide RelayedOf, Out, Payloads, SizeOf;
    var peer := w.all[c].peer;
    var v := OnData(w, c, opcode, p);
    RelayedMore(w.all[peer].frames, Frame(true, opcode, p));
    assert PeerAt(w, c) && LocalAt(w, peer);
    forall d | d in v.all ensures FedAt(v, d) {
      assert FedAt(w, d) && LocalAt(w, d) && PeerAt(w, d);
      OutMore(w.all[c].log, Message(opcode, p), w.all[d].held);
    }
  }

  function Held(x: C, m: Message): C {
    x.(log := x.log + [m], pending := x.pending + [m.data], pendingBytes := x.pendingBytes + |m.data|)
  }

  lemma HoldKeeps(w: World, c: Conn, m: Message)
    requires Inv(w) && c in w.all && w.all[c].kind == Viewer && w.all[c].ticket != "" && !w.all[c].dead
    requires w.all[c].pendingBytes + |m.data| <= MAX_PENDING
    ensures Inv(Upd(w, c, Held(w.all[c], m)))
  {
    hide SizeOf, RelayedOf, Out, Tickets, HostsBut, Peers, Feeds, Local;
    var x := w.all[c];
    var v := Upd(w, c, Held(x, m));
    RolesKeep(w, v, null);
    LinksKeep(w, v);
    assert LocalAt(w, c);
    HeldLocal(x, m);
    LocalsKeep(w, c, Held(x, m));
    LogFlows(w, c, m);
    FlowsKeep(Upd(w, c, x.(log := x.log + [m])), v);
  }

  lemma HeldLocal(x: C, m: Message)
    requires Local(x) && x.kind == Viewer && x.ticket != "" && !x.dead && x.pendingBytes + |m.data| <= MAX_PENDING
    ensures Local(Held(x, m)) && x.peer == null
  {
    hide SizeOf, RelayedOf, Out;
    SizeMore(x.pending, m.data);
  }

  lemma OnDataKeeps(w: World, c: Conn, opcode: Opcode, p: seq<byte>)
    requires Inv(w) && c in w.all && w.all[c].kind != Http && !w.all[c].dead && Relayed(opcode)
    ensures PeerKnown(w, c) && Inv(OnData(w, c, opcode, p))
  {
    hide InvBut, Kill;
    var x := w.all[c];
    KillKeeps(w, c, null);
    if x.peer != null {
      ForwardKeeps(w, c, opcode, p);
    } else if x.kind == Viewer && x.ticket != "" {
      if x.pendingBytes + |p| > MAX_PENDING {
        KilledState(w, c);
        LogKeeps(Kill(w, c), c, Message(opcode, p));
      } else {
        HoldKeeps(w, c, Message(opcode, p));
      }
    } else {
      if x.kind != Viewer { TicketKind(w, c); }
      LogKeeps(w, c, Message(opcode, p));
    }
  }

  lemma TicketKind(w: World, c: Conn)
    requires Inv(w) && c in w.all && w.all[c].kind != Viewer
    ensures w.all[c].ticket == ""
  {
    hide SizeOf, RelayedOf, Out;
    assert LocalAt(w, c);
  }

  lemma KilledState(w: World, c: Conn)
    requires PeerKnown(w, c) && (w.all[c].dead ==> w.all[c].peer == null) && w.all[c].peer != c
    ensures c in Kill(w, c).all && Kill(w, c).all[c] == w.all[c].(dead := true, peer := null)
    ensures Kill(w, c).all.Keys == w.all.Keys && Kill(w, c).conns == w.conns
  {
  }

  /** Whatever opcode a message carries. */
  lemma ReceiveKeeps(w: World, c: Conn, m: Message)
    requires Inv(w) && c in w.all && w.all[c].kind != Http && !w.all[c].dead
    ensures PeerKnown(w, c) && Inv(Receive(w, c, m))
  {
    hide InvBut, OnData, OnClose;
    OnDataKeeps(w, c, 1, m.data);
    SentControl(w.all[c], Frame(true, 10, m.data));
    AnnotateKeeps(w, c, Sent(w.all[c], Frame(true, 10, m.data)), null);
    OnCloseKeeps(w, c, m.data);
    if Relayed(m.opcode) && w.all[c].kind != HostCtl { OnDataKeeps(w, c, m.opcode, m.data); }
  }
}
