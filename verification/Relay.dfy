/** The relay itself (relay/relay.cpp:64-486): connections linked to one another, host
    owners and tickets, changed in place by whatever arrives.  Every method is proved to
    do to the state what RelayEvents, RelayUpgrades and RelayLoop say, and so to keep
    their invariant. */
module Relay {
  import opened Bytes
  import opened WebSocket
  import opened RelayState
  import opened RelayEvents
  import opened RelayUpgrades
  import opened RelayLoop

  /** ws_send: nothing happens on a dead connection. */
  method WsSend(c: Conn, opcode: Opcode, p: seq<byte>)
    requires c.StreamOk()
    modifies c`out, c`frames
    ensures c.StreamOk() && c.Snap() == Sent(old(c.Snap()), Frame(true, opcode, p))
  {
    hide Encode, EncodeAll;
    if !c.dead {
      var f := Frame(true, opcode, p);
      EncodeMore(c.frames, f);
      Enqueue(c.sent, c.out, c.outOff, c.greeting + EncodeAll(c.frames), Encode(f, None));
      c.out := c.out + Encode(f, None);
      c.frames := c.frames + [f];
      Associate(c.greeting, EncodeAll(old(c.frames)), Encode(f, None));
    }
  }

  lemma Enqueue(sent: seq<byte>, out: seq<byte>, off: nat, all: seq<byte>, e: seq<byte>)
    requires off <= |out| && sent + out[off..] == all
    ensures sent + (out + e)[off..] == all + e
  {
    assert (out + e)[off..] == out[off..] + e;
  }

  lemma Associate(a: seq<byte>, b: seq<byte>, c: seq<byte>)
    ensures a + b + c == a + (b + c)
  {
  }

  method WsClose(c: Conn, code: u16, reason: string)
    requires c.StreamOk()
    modifies c`out, c`frames, c`closeAfterFlush
    ensures c.StreamOk() && c.Snap() == Closed(old(c.Snap()), code, reason)
  {
    var n := Min(|reason|, 126);
    var hi: int := code;
    WsSend(c, 8, [hi / 0x100, hi % 0x100] + Ascii(reason[..n]));
    c.closeAfterFlush := true;
  }

  /** http_response and accept_upgrade: HTTP text, on a connection without frames. */
  method PutText(c: Conn, text: seq<byte>, close: bool)
    requires c.StreamOk() && c.frames == []
    modifies c`out, c`greeting, c`closeAfterFlush
    ensures c.StreamOk()
    ensures c.Snap() == old(c.Snap()).(greeting := old(c.greeting) + text, closing := old(c.closeAfterFlush) || close)
  {
    ghost var before := c.out[c.outOff..];
    c.out := c.out + text;
    c.greeting := c.greeting + text;
    assert c.out[c.outOff..] == before + text;
    assert c.sent + (before + text) == c.sent + before + text;
    assert c.greeting + EncodeAll([]) == c.greeting && old(c.greeting) + EncodeAll([]) == old(c.greeting);
    c.closeAfterFlush := c.closeAfterFlush || close;
  }

  ghost function PeerSet(c: Conn): set<Conn>
    reads c
  {
    if c.peer == null then {} else {c.peer}
  }

  /** The connection is dead; its peer is let go and told. */
  method Detach(c: Conn)
    requires c.peer != c && c.StreamOk() && (c.peer != null ==> c.peer.StreamOk())
    modifies c`dead, c`peer, PeerSet(c)`peer, PeerSet(c)`out, PeerSet(c)`frames, PeerSet(c)`closeAfterFlush
    ensures c.StreamOk() && c.Snap() == old(c.Snap()).(dead := true, peer := null)
    ensures old(c.peer) != null ==>
      old(c.peer).StreamOk() && old(c.peer).Snap() == Closed(old(c.peer.Snap()).(peer := null), 1001, "peer disconnected")
  {
    hide QueueOk, Closed;
    c.dead := true;
    if c.peer != null {
      var p := c.peer;
      p.peer := null;
      WsClose(p, 1001, "peer disconnected");
      c.peer := null;
    }
  }

  lemma OnCloseIs(w: World, c: Conn, p: seq<byte>)
    requires PeerKnown(w, c) && w.all[c].peer != c && (w.all[c].peer != null ==> w.all[w.all[c].peer].peer == c)
    ensures OnClose(w, c, p) == w.(all := ClosedConns(w, c, p))
  {
    hide Closed, Sent;
    PeerOfSent(w.all[c], Frame(true, 8, p[..Min(|p|, 2)]));
    assert OnClose(w, c, p).all == ClosedConns(w, c, p);
  }

  lemma PeerOfSent(x: C, f: Frame)
    ensures Sent(x, f).peer == x.peer
  {
  }

  ghost function ClosedConns(w: World, c: Conn, p: seq<byte>): map<Conn, C>
    requires PeerKnown(w, c)
  {
    var x := w.all[c];
    var y := Sent(x, Frame(true, 8, p[..Min(|p|, 2)])).(closing := true, peer := null);
    if x.peer == null then w.all[c := y]
    else w.all[c := y][x.peer := Closed(w.all[x.peer], 1000, "peer closed").(peer := null)]
  }

  method Echo(c: Conn, p: seq<byte>)
    requires c.StreamOk()
    modifies c`out, c`frames, c`closeAfterFlush
    ensures c.StreamOk() && c.Snap() == Sent(old(c.Snap()), Frame(true, 8, p[..Min(|p|, 2)])).(closing := true)
  {
    hide QueueOk;
    WsSend(c, 8, p[..Min(|p|, 2)]);
    c.closeAfterFlush := true;
  }

  /** A closing connection tells its peer, and both let go. */
  method Leave(c: Conn)
    requires c.peer != null && c.peer != c && c.peer.StreamOk() && c.StreamOk()
    modifies c`peer, c.peer`peer, c.peer`out, c.peer`frames, c.peer`closeAfterFlush
    ensures c.StreamOk() && c.Snap() == old(c.Snap()).(peer := null)
    ensures old(c.peer).StreamOk()
    ensures old(c.peer).Snap() == Closed(old(c.peer.Snap()), 1000, "peer closed").(peer := null)
  {
    hide QueueOk, Closed;
    WsClose(c.peer, 1000, "peer closed");
    c.peer.peer := null;
    c.peer := null;
  }

  /** A waiting viewer's message is held. */
  method Hold(c: Conn, ghost opcode: Opcode, p: seq<byte>)
    requires c.StreamOk()
    modifies c`pending, c`pendingBytes, c`log
    ensures c.StreamOk() && c.Snap() == Held(old(c.Snap()), Message(opcode, p))
  {
    hide QueueOk;
    c.pending := c.pending + [p];
    c.pendingBytes := c.pendingBytes + |p|;
    c.log := c.log + [Message(opcode, p)];
  }

  ghost method Record(c: Conn, m: Message)
    requires c.StreamOk()
    modifies c`log
    ensures c.StreamOk() && c.Snap() == old(c.Snap()).(log := old(c.log) + [m])
  {
    hide QueueOk;
    c.log := c.log + [m];
  }

  /** The upgrade of a connection without frames. */
  method Turn(c: Conn, kind: Kind, id: string, accept: seq<byte>)
    requires c.StreamOk() && c.frames == []
    modifies c`kind, c`id, c`out, c`greeting, c`closeAfterFlush
    ensures c.StreamOk() && c.Snap() == Become(old(c.Snap()), kind, id, accept)
  {
    hide QueueOk;
    c.kind := kind;
    c.id := id;
    PutText(c, accept, false);
  }

  /** The messages a viewer sent before pairing, each as a binary frame. */
  method SendAll(c: Conn, pending: seq<seq<byte>>)
    requires c.StreamOk() && !c.dead
    modifies c`out, c`frames
    ensures c.StreamOk() && c.Snap() == old(c.Snap()).(frames := old(c.frames) + Replay(pending))
  {
    hide QueueOk;
    for i := 0 to |pending|
      invariant c.StreamOk() && c.Snap() == old(c.Snap()).(frames := old(c.frames) + Replay(pending[..i]))
    {
      assert Replay(pending[..i + 1]) == Replay(pending[..i]) + [Frame(true, 2, pending[i])];
      WsSend(c, 2, pending[i]);
    }
    assert pending[..|pending|] == pending;
  }

  method Ticket(c: Conn, ticket: string)
    requires c.StreamOk()
    modifies c`ticket
    ensures c.StreamOk() && c.Snap() == old(c.Snap()).(ticket := ticket)
  {
    hide QueueOk;
    c.ticket := ticket;
  }

  method Stamp(c: Conn, now: nat)
    requires c.StreamOk()
    modifies c`lastRx
    ensures c.StreamOk() && c.Snap() == old(c.Snap()).(lastRx := now)
  {
    hide QueueOk;
    c.lastRx := now;
  }

  method PingNow(c: Conn, now: nat)
    requires c.StreamOk()
    modifies c`lastPing, c`out, c`frames
    ensures c.StreamOk() && c.Snap() == Sent(old(c.Snap()).(lastPing := now), Ping())
  {
    hide QueueOk, Ascii;
    c.lastPing := now;
    WsSend(c, 9, Ascii("td"));
  }

  /** The send loop of flush and its compaction: bytes leave in the order they were
      enqueued, and what is queued is what has not left. */
  method Push(c: Conn, net: seq<int>) returns (drain: Drain)
    requires c.StreamOk()
    modifies c`out, c`outOff, c`sent
    ensures c.StreamOk() && c.Snap() == old(c.Snap())
    ensures old(c.sent) <= c.sent
    ensures drain == Emptied <==> drain != Broken && c.sent == c.greeting + EncodeAll(c.frames)
  {
    hide EncodeAll;
    var i := 0;
    while c.outOff < |c.out|
      invariant c.StreamOk() && c.Snap() == old(c.Snap()) && old(c.sent) <= c.sent && c.out == old(c.out)
      decreases |c.out| - c.outOff
    {
      var n := if i < |net| then net[i] else 0;
      i := i + 1;
      if n < 0 { return Broken; }
      if n == 0 { break; }
      var k := Min(n, |c.out| - c.outOff);
      Moved(c.sent, c.out, c.outOff, k);
      c.sent := c.sent + c.out[c.outOff..c.outOff + k];
      c.outOff := c.outOff + k;
    }
    if c.outOff == |c.out| {
      c.out, c.outOff := [], 0;
      return Emptied;
    }
    if c.outOff > 0x10_0000 && c.outOff > |c.out| / 2 {
      c.out, c.outOff := c.out[c.outOff..], 0;
    }
    drain := Left;
  }

  lemma Moved(sent: seq<byte>, out: seq<byte>, off: nat, k: nat)
    requires off + k <= |out|
    ensures sent + out[off..off + k] + out[off + k..] == sent + out[off..]
  {
  }

  method Link(c: Conn, viewer: Conn)
    requires c != viewer && c.StreamOk() && viewer.StreamOk()
    modifies c`peer, c`source, c`held, viewer`peer, viewer`source, viewer`held
    ensures c.StreamOk() && viewer.StreamOk()
    ensures c.Snap() == old(c.Snap()).(peer := viewer, source := viewer, held := |viewer.pending|)
    ensures viewer.Snap() == old(viewer.Snap()).(peer := c, source := c, held := 0)
  {
    hide QueueOk;
    c.peer, viewer.peer := viewer, c;
    c.source, c.held := viewer, |viewer.pending|;
    viewer.source, viewer.held := c, 0;
  }

  /** Two connections become peers; what the viewer held is forwarded first. */
  method Join(c: Conn, viewer: Conn, accept: seq<byte>)
    requires c != viewer && c.StreamOk() && viewer.StreamOk() && c.frames == [] && !c.dead
    modifies c`kind, c`id, c`out, c`greeting, c`closeAfterFlush, c`frames, c`peer, c`source, c`held
    modifies viewer`ticket, viewer`peer, viewer`source, viewer`held, viewer`pending, viewer`pendingBytes
    ensures c.StreamOk() && viewer.StreamOk()
    ensures c.Snap() == Become(old(c.Snap()), HostData, viewer.id, accept)
      .(peer := viewer, source := viewer, held := |old(viewer.pending)|, frames := Replay(old(viewer.pending)))
    ensures viewer.Snap()
         == old(viewer.Snap()).(ticket := "", peer := c, source := c, held := 0, pending := [], pendingBytes := 0)
  {
    hide QueueOk, Replay;
    viewer.ticket := "";
    Turn(c, HostData, viewer.id, accept);
    Link(c, viewer);
    SendAll(c, viewer.pending);
    viewer.pending := [];
    viewer.pendingBytes := 0;
    assert [] + Replay(old(viewer.pending)) == Replay(old(viewer.pending));
  }

  /** kill_conn in three parts: the two connections, the tickets and the hosts. */
  lemma KillIs(w: World, c: Conn)
    requires c in w.all && !w.all[c].dead && w.all[c].peer != c && (w.all[c].peer == null || w.all[c].peer in w.all)
    ensures Kill(w, c) == World(KilledConns(w, c), w.conns, KilledHosts(w, c), KilledTickets(w, c))
  {
    hide Closed;
  }

  ghost function KilledConns(w: World, c: Conn): map<Conn, C>
    requires c in w.all && (w.all[c].peer == null || w.all[c].peer in w.all)
  {
    var x := w.all[c];
    var p := x.peer;
    var gone := w.all[c := x.(dead := true, peer := null)];
    if p == null then gone else gone[p := Closed(gone[p].(peer := null), 1001, "peer disconnected")]
  }

  ghost function KilledHosts(w: World, c: Conn): map<string, HostEntry>
    requires c in w.all
  {
    var x := w.all[c];
    if x.kind == HostCtl && x.id in w.hosts && w.hosts[x.id].ctl == c then w.hosts[x.id := w.hosts[x.id].(ctl := null)]
    else w.hosts
  }

  ghost function KilledTickets(w: World, c: Conn): map<string, Conn>
    requires c in w.all
  {
    var x := w.all[c];
    if x.kind == Viewer && x.ticket != "" then w.tickets - {x.ticket} else w.tickets
  }

  class Relay {
    var conns: set<Conn>
    var hosts: map<string, HostEntry>
    var tickets: map<string, Conn>
    /** Every connection ever accepted. */
    ghost var ever: set<Conn>

    ghost function View(): (w: World)
      reads this, ever
      ensures w.conns == conns && w.hosts == hosts && w.tickets == tickets && w.all.Keys == ever
      ensures forall c :: c in ever ==> w.all[c] == c.Snap()
    {
      World(map c | c in ever :: c.Snap(), conns, hosts, tickets)
    }

    /** Every queue is what was enqueued less what was sent. */
    ghost predicate Streams()
      reads this, ever
    {
      forall c :: c in ever ==> c.StreamOk()
    }

    ghost predicate Valid()
      reads this, ever
    {
      Inv(View()) && Streams()
    }

    /** Of the connections, only `c` and `p` differ from `w`. */
    lemma Changed(w: World, c: Conn, p: Conn)
      requires w.all.Keys == ever && c in ever && p in ever
      requires forall d :: d in ever && d != c && d != p ==> d.Snap() == w.all[d]
      ensures View() == World(w.all[c := c.Snap()][p := p.Snap()], conns, hosts, tickets)
    {
      assert View().all == w.all[c := c.Snap()][p := p.Snap()];
    }

    constructor ()
      ensures Valid() && View() == Start()
    {
      conns, hosts, tickets, ever := {}, map[], map[], {};
    }

    /** The ticket and the host entry of a dead connection go. */
    method Unregister(c: Conn)
      modifies this`hosts, this`tickets
      ensures tickets == if c.kind == Viewer && c.ticket != "" then old(tickets) - {c.ticket} else old(tickets)
      ensures hosts == if c.kind == HostCtl && c.id in old(hosts) && old(hosts)[c.id].ctl == c
                       then old(hosts)[c.id := old(hosts)[c.id].(ctl := null)] else old(hosts)
    {
      if c.kind == Viewer && c.ticket != "" {
        tickets := tickets - {c.ticket};
      }
      if c.kind == HostCtl && c.id in hosts && hosts[c.id].ctl == c {
        hosts := hosts[c.id := hosts[c.id].(ctl := null)];
      }
    }

    /** kill_conn. */
    method KillConn(c: Conn)
      requires c in ever && (c.peer == null || (c.peer in ever && c.peer != c)) && Streams()
      modifies this`hosts, this`tickets, ever
      ensures Streams() && View() == Kill(old(View()), c)
    {
      hide CloseFrame, View, QueueOk, Closed, Kill, Conn.StreamOk, Conn.Snap;
      ghost var w := View();
      c.SnapIs();
      if c.dead {
        KillDead(w, c);
        return;
      }
      ghost var q := if c.peer == null then c else c.peer;
      Detach(c);
      c.SnapIs();
      Unregister(c);
      KillIs(w, c);
      Changed(w, c, q);
    }

    /** What a handler may assume of the connection it works on. */
    ghost predicate Handles(c: Conn)
      reads this, ever, c
    {
      c in ever && (c.peer == null || (c.peer in ever && c.peer != c)) && Streams()
    }

    method Send(c: Conn, opcode: Opcode, p: seq<byte>)
      requires c in ever && Streams()
      modifies c
      ensures Streams() && View() == Upd(old(View()), c, Sent(old(View()).all[c], Frame(true, opcode, p)))
    {
      hide View, QueueOk, Sent, Conn.StreamOk, Conn.Snap;
      ghost var w := View();
      WsSend(c, opcode, p);
      Changed(w, c, c);
    }

    method Close(c: Conn, code: u16, reason: string)
      requires c in ever && Streams()
      modifies c
      ensures Streams() && View() == Upd(old(View()), c, Closed(old(View()).all[c], code, reason))
    {
      hide View, QueueOk, Closed, Conn.StreamOk, Conn.Snap;
      ghost var w := View();
      WsClose(c, code, reason);
      Changed(w, c, c);
    }

    /** The closing handshake of a connection. */
    method OnCloseFrame(c: Conn, p: seq<byte>)
      requires Handles(c) && (c.peer != null ==> c.peer.peer == c)
      modifies ever
      ensures Streams() && View() == OnClose(old(View()), c, p)
    {
      hide View, QueueOk, Closed, Sent, OnClose, Conn.StreamOk, Conn.Snap;
      ghost var w := View();
      ghost var q := if c.peer == null then c else c.peer;
      c.SnapIs();
      q.SnapIs();
      Echo(c, p);
      c.SnapIs();
      if c.peer != null { Leave(c); }
      OnCloseIs(w, c, p);
      Changed(w, c, q);
    }

    method Forward(c: Conn, opcode: Opcode, p: seq<byte>)
      requires Handles(c) && c.peer != null
      modifies c`log, c.peer`out, c.peer`frames
      ensures Streams() && View() == OnData(old(View()), c, opcode, p)
    {
      hide View, QueueOk, Sent, Conn.StreamOk, Conn.Snap, OnData;
      ghost var w := View();
      c.SnapIs();
      WsSend(c.peer, opcode, p);
      Record(c, Message(opcode, p));
      ForwardIs(w, c, opcode, p);
      Changed(w, c, c.peer);
    }

    method HoldFor(c: Conn, ghost opcode: Opcode, p: seq<byte>)
      requires c in ever && Streams()
      modifies c`pending, c`pendingBytes, c`log
      ensures Streams() && View() == Upd(old(View()), c, Held(old(View()).all[c], Message(opcode, p)))
    {
      hide View, QueueOk, Conn.StreamOk, Conn.Snap, Held;
      ghost var w := View();
      Hold(c, opcode, p);
      Changed(w, c, c);
    }

    ghost method Drop(c: Conn, m: Message)
      requires c in ever && Streams()
      modifies c`log
      ensures Streams() && View() == Upd(old(View()), c, old(View()).all[c].(log := old(View()).all[c].log + [m]))
    {
      hide View, QueueOk, Conn.StreamOk, Conn.Snap;
      ghost var w := View();
      c.SnapIs();
      Record(c, m);
      Changed(w, c, c);
    }

    /** Anything to relay: forwarded, held, or dropped. */
    method OnDataMessage(c: Conn, opcode: Opcode, p: seq<byte>)
      requires Handles(c) && !c.dead
      modifies this`hosts, this`tickets, ever
      ensures Streams() && View() == OnData(old(View()), c, opcode, p)
    {
      hide View, QueueOk, Sent, Conn.StreamOk, Conn.Snap, Kill, Held, Streams;
      c.SnapIs();
      if c.peer != null {
        Forward(c, opcode, p);
      } else if c.kind == Viewer && c.ticket != "" {
        if c.pendingBytes + |p| > MAX_PENDING {
          Overflow(c, Message(opcode, p));
        } else {
          HoldFor(c, opcode, p);
        }
      } else {
        Drop(c, Message(opcode, p));
      }
    }

    method Overflow(c: Conn, ghost m: Message)
      requires Handles(c) && c.peer == null && !c.dead
      modifies this`hosts, this`tickets, ever
      ensures Streams()
      ensures var k := Kill(old(View()), c); View() == Upd(k, c, k.all[c].(log := old(c.log) + [m]))
    {
      hide View, QueueOk, Kill, Conn.StreamOk, Conn.Snap;
      c.SnapIs();
      KilledState(View(), c);
      KillConn(c);
      ghost var k := View();
      c.SnapIs();
      Record(c, m);
      Changed(k, c, c);
    }

    /** handle_ws_message. */
    method HandleWsMessage(c: Conn, m: Message)
      requires Valid() && c in ever && c.kind != Kind.Http && !c.dead
      modifies this`hosts, this`tickets, ever
      ensures Valid() && View() == Receive(old(View()), c, m)
    {
      hide View, Sent, OnClose, OnData, Conn.StreamOk, InvBut, Streams;
      c.SnapIs();
      ghost var w := View();
      ReceiveKeeps(w, c, m);
      if c.peer != null {
        PeerOf(w, c, null);
        c.peer.SnapIs();
      }
      match m.opcode {
        case 9 => Send(c, 10, m.data);
        case 10 =>
        case 8 => OnCloseFrame(c, m.data);
        case _ =>
          if c.kind == HostCtl { return; }
          OnDataMessage(c, m.opcode, m.data);
      }
    }

    /** The read loop over the messages in the buffer. */
    method DeliverAll(c: Conn, ms: seq<Message>, stop: bool)
      requires Valid() && c in ever && c.kind != Kind.Http
      modifies this`hosts, this`tickets, ever
      ensures Valid() && View() == Handled(old(View()), c, ms, stop)
    {
      hide View, Receive, Conn.StreamOk, Conn.Snap, InvBut, Streams, Handled;
      ghost var w := View();
      var i := 0;
      c.SnapIs();
      assert ms[0..] == ms;
      while i < |ms| && !c.dead && !(stop && c.closeAfterFlush)
        invariant 0 <= i <= |ms| && Valid() && View().all[c] == c.Snap() && View().all[c].kind != Kind.Http
        invariant Handled(View(), c, ms[i..], stop) == Handled(w, c, ms, stop)
        decreases |ms| - i
      {
        c.SnapIs();
        HandledStep(View(), c, ms, i, stop);
        HandleWsMessage(c, ms[i]);
        i := i + 1;
      }
      c.SnapIs();
      HandledStep(View(), c, ms, i, stop);
    }

    // -------------------------------------------------------------- upgrades

    /** A host takes, or takes back, its id. */
    method OwnId(c: Conn, id: string, key: string, accept: seq<byte>)
      requires Valid() && c in ever && c.kind == Kind.Http && !c.dead
      modifies this`hosts, this`tickets, ever
      ensures Valid() && View() == OnHost(old(View()), c, id, key, accept)
    {
      hide View, InvBut, Streams, Conn.StreamOk, Conn.Snap, Own, Retire;
      ghost var w := View();
      c.SnapIs();
      UpgradeHostKeeps(w, c, id, key, accept);
      BlankHttp(w, c);
      if id in hosts && hosts[id].ctl != null {
        CtlOf(w, id);
        RetireKeeps(w, id);
        RetireCtl(id);
      }
      c.SnapIs();
      TakeId(c, id, key, accept);
    }

    method RetireCtl(id: string)
      requires Streams() && HasCtl(View(), id) && hosts[id].ctl in ever && View().all[hosts[id].ctl].peer == null
      modifies this`hosts, this`tickets, ever
      ensures Streams() && View() == Retire(old(View()), id)
    {
      hide View, Conn.StreamOk, Conn.Snap, Kill, Closed;
      ghost var w := View();
      var stale := hosts[id].ctl;
      hosts := hosts[id := hosts[id].(ctl := null)];
      Unchanged(w);
      ClosedSame(w.all[stale], 1001, "replaced");
      Close(stale, 1001, "replaced");
      stale.SnapIs();
      KillConn(stale);
    }

    lemma Unchanged(w: World)
      requires w.all.Keys == ever && forall d :: d in ever ==> d.Snap() == w.all[d]
      ensures View() == World(w.all, conns, hosts, tickets)
    {
      assert View().all == w.all;
    }

    method TakeId(c: Conn, id: string, key: string, accept: seq<byte>)
      requires Streams() && c in ever && c.frames == []
      modifies this`hosts, c
      ensures Streams() && View() == Own(old(View()), c, id, key, accept)
    {
      hide View, Conn.StreamOk, Conn.Snap, Become;
      ghost var w := View();
      Turn(c, HostCtl, id, accept);
      hosts := hosts[id := HostEntry(key, c)];
      Changed(w, c, c);
    }

    /** A data connection answers a ticket. */
    method AnswerTicket(c: Conn, t: string, accept: seq<byte>)
      requires Valid() && c in ever && c.kind == Kind.Http && !c.dead && t in tickets
      modifies this`tickets, ever
      ensures Valid() && View() == Pair(old(View()), c, t, accept)
    {
      hide View, InvBut, Conn.StreamOk, Conn.Snap, Replay, Become;
      ghost var w := View();
      c.SnapIs();
      BlankHttp(w, c);
      WaitingViewer(w, t);
      PairKeeps(w, c, t, accept);
      var viewer := tickets[t];
      viewer.SnapIs();
      tickets := tickets - {t};
      Join(c, viewer, accept);
      Changed(w, c, viewer);
    }

    /** A viewer asks for an id: turned away, or given a ticket its host is told of. */
    method AdmitViewer(c: Conn, id: string, h: Http)
      requires Valid() && c in ever && c.kind == Kind.Http && !c.dead && FreshTicket(View(), h)
      modifies this`tickets, ever
      ensures Valid() && View() == OnView(old(View()), c, id, h)
    {
      hide View, InvBut, Conn.StreamOk, Conn.Snap, Closed, Become, OpenText, Offer, Streams;
      ghost var w := View();
      c.SnapIs();
      BlankHttp(w, c);
      OnViewKeeps(w, c, id, h);
      TurnOne(c, Viewer, id, h.accept);
      if !ValidId(id) || !(id in hosts && hosts[id].ctl != null) {
        Close(c, 4404, "offline");
      } else {
        CtlOf(w, id);
        GiveTicket(c, id, h.ticket, h.ip);
      }
    }

    method TurnOne(c: Conn, kind: Kind, id: string, accept: seq<byte>)
      requires Streams() && c in ever && c.frames == []
      modifies c
      ensures Streams() && View() == Upd(old(View()), c, Become(old(View()).all[c], kind, id, accept))
    {
      hide View, Conn.StreamOk, Conn.Snap, Become;
      ghost var w := View();
      Turn(c, kind, id, accept);
      Changed(w, c, c);
    }

    method IssueTicket(c: Conn, ticket: string)
      requires Streams() && c in ever
      modifies this`tickets, c
      ensures Streams() && tickets == old(tickets)[ticket := c] && hosts == old(hosts)
      ensures View() == Upd(old(View()), c, old(View()).all[c].(ticket := ticket)).(tickets := tickets)
    {
      hide View, Conn.StreamOk, Conn.Snap;
      ghost var w := View();
      Ticket(c, ticket);
      tickets := tickets[ticket := c];
      Changed(w, c, c);
    }

    method GiveTicket(c: Conn, id: string, ticket: string, ip: string)
      requires Streams() && c in ever && HasCtl(View(), id) && hosts[id].ctl in ever
      modifies this`tickets, ever
      ensures Streams() && View() == Offer(old(View()), c, id, ticket, ip)
    {
      hide View, Conn.StreamOk, Conn.Snap, OpenText, Sent, Streams;
      IssueTicket(c, ticket);
      Send(hosts[id].ctl, 1, OpenText(ticket, ip));
    }

    /** The upgrades of handle_http; false when the request gets a plain response. */
    method Upgrade(c: Conn, h: Http) returns (done: bool)
      requires Valid() && c in ever && c.kind == Kind.Http && !c.dead && FreshTicket(View(), h)
      modifies this`hosts, this`tickets, ever
      ensures Valid() && c in ever
      ensures done <==> Upgraded(old(View()), c, h).Some?
      ensures View() == if done then Upgraded(old(View()), c, h).value else old(View())
    {
      hide View, InvBut, Streams, Conn.StreamOk, Conn.Snap, OnHost, Pair, OnView;
      ghost var w := View();
      c.SnapIs();
      match h.request {
        case Host(id, key) =>
          if !ValidId(id) || !ValidHex(key, 32) || (id in hosts && hosts[id].ctl != null && hosts[id].key != key) {
            return false;
          }
          OwnId(c, id, key, h.accept);
        case Data(id, key, t) =>
          if !(id in hosts) || hosts[id].key != key || !(t in tickets) { return false; }
          WaitingViewer(w, t);
          tickets[t].SnapIs();
          if tickets[t].id != id { return false; }
          AnswerTicket(c, t, h.accept);
        case View(id) =>
          AdmitViewer(c, id, h);
        case _ => return false;
      }
      done := true;
    }

    method RespondTo(c: Conn, text: seq<byte>)
      requires Streams() && c in ever && c.frames == []
      modifies c
      ensures Streams() && View() == Respond(old(View()), c, text)
    {
      hide View, Conn.StreamOk, Conn.Snap;
      ghost var w := View();
      c.SnapIs();
      PutText(c, text, true);
      Changed(w, c, c);
    }

    /** handle_http: an upgrade and the messages pipelined behind it, or a response. */
    method HandleHttp(c: Conn, h: Http)
      requires Valid() && c in ever && c.kind == Kind.Http && !c.dead
      requires FreshTicket(View(), h)
      modifies this`hosts, this`tickets, ever
      ensures Valid() && View() == OnRequest(old(View()), c, h)
    {
      hide View, InvBut, Streams, Conn.StreamOk, Conn.Snap, Upgraded, Handled, Respond;
      if h.request == Partial(false) { return; }
      c.SnapIs();
      ghost var w := View();
      BlankHttp(View(), c);
      var goes := match h.request case View(id) => ValidId(id) && id in hosts && hosts[id].ctl != null case _ => true;
      var done := Upgrade(c, h);
      c.SnapIs();
      if !done {
        RespondTo(c, h.response);
        assert Inv(OnRequest(w, c, h));
      } else if goes {
        DeliverAll(c, h.messages, false);
      }
    }

    // ------------------------------------------------------------- main loop

    method Hear(c: Conn, now: nat)
      requires Valid() && c in ever
      modifies c`lastRx
      ensures Valid() && View() == Heard(old(View()), c, now, true)
    {
      hide View, InvBut, Conn.StreamOk, Conn.Snap, QueueOk;
      ghost var w := View();
      Stamp(c, now);
      Changed(w, c, c);
      HeardIs(w, c, now);
      assert View() == Heard(w, c, now, true);
      assert Inv(Heard(w, c, now, true));
    }

    method Destroy(c: Conn)
      requires Valid() && c in ever
      modifies this`hosts, this`tickets, ever
      ensures Valid() && View() == Killed(old(View()), c)
    {
      hide View, InvBut, Streams, Conn.StreamOk, Conn.Snap, Kill;
      ghost var w := View();
      c.SnapIs();
      if c.peer != null { PeerOf(w, c, null); }
      KillKeeps(w, c, null);
      KillConn(c);
    }

    /** read_conn, with what the socket and the parsers gave. */
    method ReadConn(c: Conn, now: nat, i: Input)
      requires Valid() && c in ever && !c.dead && FreshTicket(View(), i.http)
      modifies this`hosts, this`tickets, ever
      ensures Valid() && View() == OnRead(old(View()), c, now, i)
    {
      hide View, InvBut, Streams, Conn.StreamOk, Conn.Snap, Handled, Killed, OnRequest;
      ghost var w := View();
      c.SnapIs();
      if i.got { Hear(c, now); } else { NotHeard(w, c, now); }
      c.SnapIs();
      if c.kind == Kind.Http {
        if i.closed { Destroy(c); } else { HandleHttp(c, i.http); }
        return;
      }
      DeliverAll(c, i.messages, true);
      c.SnapIs();
      if i.closed || (i.bad && !c.dead && !c.closeAfterFlush) { Destroy(c); }
    }

    /** flush: what the socket takes leaves the queue; an error, or an emptied queue of a
        closing connection, ends it. */
    method Flush(c: Conn, net: seq<int>) returns (drain: Drain)
      requires Valid() && c in ever
      modifies this`hosts, this`tickets, ever
      ensures Valid() && View() == OnFlush(old(View()), c, drain)
    {
      hide View, InvBut, QueueOk, Conn.StreamOk, Conn.Snap, Killed;
      ghost var w := View();
      drain := Push(c, net);
      Unchanged(w);
      c.SnapIs();
      if drain == Broken || (drain == Emptied && c.closeAfterFlush) { Destroy(c); }
    }

    /** The main loop's timeouts and keep-alive for one connection. */
    method Timer(c: Conn, now: nat)
      requires Valid() && c in ever
      modifies this`hosts, this`tickets, ever
      ensures Valid() && View() == OnTimer(old(View()), c, now)
    {
      hide View, InvBut, Streams, Conn.StreamOk, Conn.Snap, Killed, Closed, Sent, Ascii;
      ghost var w := View();
      c.SnapIs();
      if c.dead { return; }
      if c.kind == Kind.Http && now - c.created > 15 * SECOND {
        Destroy(c);
      } else if c.kind == Viewer && c.peer == null && c.ticket != "" && now - c.created > 20 * SECOND {
        CloseKeeps(w, c, 4408, "host did not answer", null);
        Close(c, 4408, "host did not answer");
      } else if c.kind != Kind.Http && now - c.lastRx > 90 * SECOND {
        Destroy(c);
      } else if c.kind != Kind.Http && now - c.lastPing > 20 * SECOND {
        PingKeeps(w, c, now);
        KeepAlive(c, now);
      }
    }

    method KeepAlive(c: Conn, now: nat)
      requires c in ever && Streams()
      modifies c
      ensures Streams() && View() == Upd(old(View()), c, Sent(old(View()).all[c].(lastPing := now), Ping()))
    {
      hide View, QueueOk, Conn.StreamOk, Conn.Snap, Sent, Ascii;
      ghost var w := View();
      PingNow(c, now);
      Changed(w, c, c);
    }

    /** A new connection from the listener. */
    method AcceptOne(now: nat) returns (c: Conn)
      requires Valid()
      modifies this
      ensures fresh(c) && Valid() && View() == Accepted(old(View()), c, now)
    {
      hide View, InvBut, QueueOk, Conn.StreamOk, Conn.Snap;
      ghost var w := View();
      c := new Conn(now);
      conns := conns + {c};
      ever := ever + {c};
      AcceptKeeps(w, c, now);
      Added(w, c);
    }

    lemma Added(w: World, c: Conn)
      requires ever == w.all.Keys + {c} && c !in w.all
      requires forall d :: d in w.all ==> d.Snap() == w.all[d]
      ensures View() == World(w.all[c := c.Snap()], conns, hosts, tickets)
    {
      assert View().all == w.all[c := c.Snap()];
    }

    /** The end of each turn of the loop: dead connections are freed, and nothing that is
        kept refers to one. */
    method Reap()
      requires Valid()
      modifies this`conns
      ensures Valid() && View() == Reaped(old(View())) && NoDangling(View())
    {
      hide View, InvBut, QueueOk, Conn.StreamOk, Conn.Snap;
      ghost var w := View();
      ReapLeavesNoReference(w);
      Living();
      conns := set c | c in conns && !c.dead;
      assert conns == Reaped(w).conns;
      Unchanged(w);
      assert View() == Reaped(w) && Inv(Reaped(w));
    }

    lemma Living()
      requires Valid()
      ensures forall c :: c in conns ==> c in ever && View().all[c].dead == c.dead
    {
      hide View, Local, Peers, Feeds, Tickets, HostsBut, LocalAt;
    }
  }

  lemma HeardIs(w: World, c: Conn, now: nat)
    requires Inv(w) && c in w.all
    ensures Heard(w, c, now, true) == Upd(w, c, w.all[c].(lastRx := now))
  {
  }

  lemma NotHeard(w: World, c: Conn, now: nat)
    requires Inv(w) && c in w.all
    ensures Heard(w, c, now, false) == w
  {
    hide InvBut;
    assert w.all[c := w.all[c]] == w.all;
  }

  lemma ForwardIs(w: World, c: Conn, opcode: Opcode, p: seq<byte>)
    requires PeerKnown(w, c) && w.all[c].peer != null && w.all[c].peer != c
    ensures var x := w.all[c];
      OnData(w, c, opcode, p)
      == w.(all := w.all[c := x.(log := x.log + [Message(opcode, p)])][x.peer := Sent(w.all[x.peer], Frame(true, opcode, p))])
  {
    hide Sent;
  }
}
