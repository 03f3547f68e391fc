/** Upgrades, reads, timeouts and freeing of the relay, each keeping its invariant
    (relay/relay.cpp:281-332, 361-383 and 443-485). */
module RelayUpgrades {
  import opened Bytes
  import opened WebSocket
  import opened RelayState
  import opened RelayEvents

  datatype Request =
    | Partial(tooLarge: bool)
    | Page
    | Host(id: string, key: string)
    | Data(id: string, key: string, ticket: string)
    | View(id: string)
    | Unknown

  /** What one request brings: the HTTP response it would get, the upgrade response, a
      fresh ticket, the client's address, and the messages pipelined behind it. */
  datatype Http = HttpIn(request: Request, response: seq<byte>, accept: seq<byte>, ticket: string, ip: string,
                         messages: seq<Message>)

  predicate ValidId(id: string) {
    |id| == 9 && forall i :: 0 <= i < |id| ==> '0' <= id[i] <= '9'
  }

  predicate ValidHex(s: string, n: nat) {
    |s| == n && forall i :: 0 <= i < |s| ==> '0' <= s[i] <= '9' || 'a' <= s[i] <= 'f'
  }

  function Respond(w: World, c: Conn, text: seq<byte>): World
    requires c in w.all
  {
    Upd(w, c, w.all[c].(greeting := w.all[c].greeting + text, closing := true))
  }

  function Become(x: C, kind: Kind, id: string, accept: seq<byte>): C {
    x.(kind := kind, id := id, greeting := x.greeting + accept)
  }

  // ----------------------------------------------------------- host control

  predicate HasCtl(w: World, id: string) {
    id in w.hosts && w.hosts[id].ctl != null
  }

  /** The entry lets go of its control connection, which is closed and killed. */
  function Retire(w: World, id: string): World
    requires HasCtl(w, id) && w.hosts[id].ctl in w.all && w.all[w.hosts[id].ctl].peer == null
  {
    var stale := w.hosts[id].ctl;
    var let := w.(hosts := w.hosts[id := w.hosts[id].(ctl := null)]);
    Kill(Upd(let, stale, Closed(w.all[stale], 1001, "replaced")), stale)
  }

  function Own(w: World, c: Conn, id: string, key: string, accept: seq<byte>): World
    requires c in w.all
  {
    Upd(w, c, Become(w.all[c], HostCtl, id, accept)).(hosts := w.hosts[id := HostEntry(key, c)])
  }

  lemma CtlOf(w: World, id: string)
    requires Inv(w) && HasCtl(w, id)
    ensures var h := w.hosts[id].ctl; h in w.all && w.all[h].kind == HostCtl && !w.all[h].dead && w.all[h].peer == null
  {
    hide RelayedOf, Out, Payloads, SizeOf;
    assert EntryAt(w, id);
    assert LocalAt(w, w.hosts[id].ctl);
  }

  lemma RetireKeeps(w: World, id: string)
    requires Inv(w) && HasCtl(w, id)
    ensures var h := w.hosts[id].ctl; h in w.all && w.all[h].peer == null
    ensures Inv(Retire(w, id)) && !HasCtl(Retire(w, id), id) && Retire(w, id).all.Keys == w.all.Keys
    ensures Retire(w, id).tickets == w.tickets && Retire(w, id).conns == w.conns
    ensures forall d :: d in w.all && d != w.hosts[id].ctl ==> Retire(w, id).all[d] == w.all[d]
  {
    hide InvBut, Closed;
    CtlOf(w, id);
    var stale := w.hosts[id].ctl;
    var let := w.(hosts := w.hosts[id := w.hosts[id].(ctl := null)]);
    LetKeeps(w, id);
    CloseKeeps(let, stale, 1001, "replaced", stale);
    ClosedSame(w.all[stale], 1001, "replaced");
    KillKeeps(Upd(let, stale, Closed(w.all[stale], 1001, "replaced")), stale, stale);
  }

  lemma ClosedSame(x: C, code: u16, reason: string)
    ensures Closed(x, code, reason).(frames := x.frames, closing := x.closing) == x
  {
  }

  lemma LetKeeps(w: World, id: string)
    requires Inv(w) && HasCtl(w, id)
    ensures InvBut(w.(hosts := w.hosts[id := w.hosts[id].(ctl := null)]), w.hosts[id].ctl)
  {
    hide Local, Linked, Fed;
    var v := w.(hosts := w.hosts[id := w.hosts[id].(ctl := null)]);
    RolesFrame(w, v);
    forall i | i in v.hosts ensures EntryAt(v, i) { assert EntryAt(w, i); }
    forall d | d in v.all && d != w.hosts[id].ctl ensures OwnerAt(v, d) { assert OwnerAt(w, d); }
  }

  /** Facts that do not mention host entries. */
  lemma RolesFrame(w: World, v: World)
    requires w.all == v.all && w.tickets == v.tickets && w.conns == v.conns
    requires Locals(w) && Peers(w) && Feeds(w) && Tickets(w)
    ensures Locals(v) && Peers(v) && Feeds(v) && Tickets(v)
  {
    hide Local, Linked, Fed;
    forall d | d in v.all ensures LocalAt(v, d) && PeerAt(v, d) && FedAt(v, d) && WaiterAt(v, d) {
      assert LocalAt(w, d) && PeerAt(w, d) && FedAt(w, d) && WaiterAt(w, d);
    }
    forall t | t in v.tickets ensures TicketAt(v, t) { assert TicketAt(w, t); }
  }

  /** A connection without links, tickets or data takes on another kind. */
  lemma BecomeKeeps(w: World, c: Conn, kind: Kind, id: string, accept: seq<byte>)
    requires Inv(w) && c in w.all && w.all[c].kind == Kind.Http && (kind == Viewer || kind == HostCtl)
    ensures var v := Upd(w, c, Become(w.all[c], kind, id, accept));
      Locals(v) && Peers(v) && Feeds(v) && Tickets(v) && HostsBut(v, if kind == HostCtl then c else null)
  {
    hide SizeOf;
    var y := Become(w.all[c], kind, id, accept);
    var v := Upd(w, c, y);
    assert LocalAt(w, c);
    BecomeLocal(w, c, kind, id, accept);
    BecomeLinks(w, c, y);
    forall t | t in v.tickets ensures TicketAt(v, t) { assert TicketAt(w, t); }
    forall d | d in v.all ensures WaiterAt(v, d) { assert WaiterAt(w, d); }
    forall i | i in v.hosts ensures EntryAt(v, i) { assert EntryAt(w, i); }
    forall d | d in v.all && (kind != HostCtl || d != c) ensures OwnerAt(v, d) { assert OwnerAt(w, d); }
  }

  lemma BecomeLocal(w: World, c: Conn, kind: Kind, id: string, accept: seq<byte>)
    requires Locals(w) && c in w.all && w.all[c].kind == Kind.Http
    ensures Locals(Upd(w, c, Become(w.all[c], kind, id, accept)))
  {
    hide SizeOf;
    assert LocalAt(w, c);
    LocalsKeep(w, c, Become(w.all[c], kind, id, accept));
  }

  lemma BecomeLinks(w: World, c: Conn, y: C)
    requires Peers(w) && Feeds(w) && c in w.all && w.all[c].peer == null == y.peer && w.all[c].source == null == y.source
    requires w.all[c].log == y.log && w.all[c].held == y.held
    ensures Peers(Upd(w, c, y)) && Feeds(Upd(w, c, y))
  {
    hide RelayedOf;
    var v := Upd(w, c, y);
    forall d | d in v.all ensures PeerAt(v, d) { assert PeerAt(w, d); }
    forall d | d in v.all ensures FedAt(v, d) { assert FedAt(w, d); }
  }

  lemma OwnKeeps(w: World, c: Conn, id: string, key: string, accept: seq<byte>)
    requires Inv(w) && c in w.all && w.all[c].kind == Kind.Http && !w.all[c].dead && !HasCtl(w, id)
    ensures Inv(Own(w, c, id, key, accept))
  {
    hide Local, Linked, Fed, Become;
    BecomeKeeps(w, c, HostCtl, id, accept);
    var u := Upd(w, c, Become(w.all[c], HostCtl, id, accept));
    var v := Own(w, c, id, key, accept);
    RolesFrame(u, v);
    BecomeShape(w.all[c], HostCtl, id, accept);
    forall i | i in v.hosts ensures EntryAt(v, i) { if i != id { assert EntryAt(u, i); } }
    forall d | d in v.all ensures OwnerAt(v, d) { if d != c { assert OwnerAt(u, d); } }
  }

  lemma BecomeShape(x: C, kind: Kind, id: string, accept: seq<byte>)
    ensures var y := Become(x, kind, id, accept); y.kind == kind && y.id == id && y.dead == x.dead
  {
  }

  // ---------------------------------------------------------------- viewers

  function OpenText(ticket: string, ip: string): seq<byte> {
    Ascii("open " + ticket + " " + ip)
  }

  function Offer(w: World, c: Conn, id: string, ticket: string, ip: string): World
    requires c in w.all && HasCtl(w, id) && w.hosts[id].ctl in w.all
  {
    var issued := Upd(w, c, w.all[c].(ticket := ticket)).(tickets := w.tickets[ticket := c]);
    var h := w.hosts[id].ctl;
    Upd(issued, h, Sent(issued.all[h], Frame(true, 1, OpenText(ticket, ip))))
  }

  lemma IssueKeeps(w: World, c: Conn, ticket: string)
    requires Inv(w) && c in w.all && w.all[c].kind == Viewer && w.all[c].ticket == "" && !w.all[c].dead
    requires w.all[c].frames == [] && w.all[c].log == [] && w.all[c].peer == null && w.all[c].source == null
    requires ticket !in w.tickets && ticket != ""
    ensures Inv(Upd(w, c, w.all[c].(ticket := ticket)).(tickets := w.tickets[ticket := c]))
  {
    hide SizeOf, HostsBut;
    var y := w.all[c].(ticket := ticket);
    var u := Upd(w, c, y);
    var v := u.(tickets := w.tickets[ticket := c]);
    assert LocalAt(w, c);
    LocalsKeep(w, c, y);
    BecomeLinks(w, c, y);
    IssueTickets(w, c, ticket);
    IssueHosts(w, c, ticket);
    IssueRest(u, v);
  }

  lemma IssueRest(u: World, v: World)
    requires u.all == v.all && u.conns == v.conns && Locals(u) && Peers(u) && Feeds(u)
    ensures Locals(v) && Peers(v) && Feeds(v)
  {
    hide Local, Linked, Fed;
    forall d | d in v.all ensures LocalAt(v, d) && PeerAt(v, d) && FedAt(v, d) {
      assert LocalAt(u, d) && PeerAt(u, d) && FedAt(u, d);
    }
  }

  lemma IssueTickets(w: World, c: Conn, ticket: string)
    requires Tickets(w) && c in w.all && w.all[c].kind == Viewer && w.all[c].ticket == "" && !w.all[c].dead
    requires ticket !in w.tickets && ticket != ""
    ensures Tickets(Upd(w, c, w.all[c].(ticket := ticket)).(tickets := w.tickets[ticket := c]))
  {
    var v := Upd(w, c, w.all[c].(ticket := ticket)).(tickets := w.tickets[ticket := c]);
    forall t | t in v.tickets ensures TicketAt(v, t) { if t != ticket { assert TicketAt(w, t); } }
    forall d | d in v.all ensures WaiterAt(v, d) { assert WaiterAt(w, d); }
  }

  lemma IssueHosts(w: World, c: Conn, ticket: string)
    requires HostsBut(w, null) && c in w.all
    ensures HostsBut(Upd(w, c, w.all[c].(ticket := ticket)).(tickets := w.tickets[ticket := c]), null)
  {
    var v := Upd(w, c, w.all[c].(ticket := ticket)).(tickets := w.tickets[ticket := c]);
    forall i | i in v.hosts ensures EntryAt(v, i) { assert EntryAt(w, i); }
    forall d | d in v.all ensures OwnerAt(v, d) { assert OwnerAt(w, d); }
  }

  /** Text to a control connection: nothing is forwarded to those. */
  lemma TellCtlKeeps(w: World, h: Conn, f: Frame)
    requires Inv(w) && h in w.all && w.all[h].kind == HostCtl
    ensures Inv(Upd(w, h, Sent(w.all[h], f)))
  {
    hide SizeOf, RelayedOf, Out, Tickets, HostsBut, Peers, Feeds;
    var v := Upd(w, h, Sent(w.all[h], f));
    assert LocalAt(w, h);
    RolesKeep(w, v, null);
    LinksKeep(w, v);
    FlowsKeep(w, v);
    LocalsKeep(w, h, v.all[h]);
  }

  function OnView(w: World, c: Conn, id: string, h: Http): World
    requires c in w.all && (HasCtl(w, id) ==> w.hosts[id].ctl in w.all)
  {
    var up := Upd(w, c, Become(w.all[c], Viewer, id, h.accept));
    if !ValidId(id) || !HasCtl(w, id) then Upd(up, c, Closed(up.all[c], 4404, "offline"))
    else Offer(up, c, id, h.ticket, h.ip)
  }

  lemma OnViewKeeps(w: World, c: Conn, id: string, h: Http)
    requires Inv(w) && c in w.all && w.all[c].kind == Kind.Http && !w.all[c].dead
    requires h.ticket !in w.tickets && h.ticket != ""
    ensures HasCtl(w, id) ==> w.hosts[id].ctl in w.all
    ensures Inv(OnView(w, c, id, h))
  {
    hide Closed, Locals, Peers, Feeds, Tickets, HostsBut, Ascii;
    BlankHttp(w, c);
    BecomeKeeps(w, c, Viewer, id, h.accept);
    var up := Upd(w, c, Become(w.all[c], Viewer, id, h.accept));
    if HasCtl(w, id) { CtlOf(w, id); }
    if !ValidId(id) || !HasCtl(w, id) {
      CloseKeeps(up, c, 4404, "offline", null);
    } else {
      IssueKeeps(up, c, h.ticket);
      var issued := Upd(up, c, up.all[c].(ticket := h.ticket)).(tickets := up.tickets[h.ticket := c]);
      TellCtlKeeps(issued, w.hosts[id].ctl, Frame(true, 1, OpenText(h.ticket, h.ip)));
    }
  }

  /** An Http connection carries nothing yet. */
  lemma BlankHttp(w: World, c: Conn)
    requires Inv(w) && c in w.all && w.all[c].kind == Kind.Http
    ensures var x := w.all[c];
      x.ticket == "" && x.peer == null && x.source == null && x.frames == [] && x.log == []
      && (!x.dead ==> x.pending == [])
  {
    hide SizeOf, RelayedOf, Out;
    assert LocalAt(w, c);
  }

  // -------------------------------------------------------- data connections

  function Replay(pending: seq<seq<byte>>): (fs: seq<Frame>)
    ensures |fs| == |pending|
  {
    seq(|pending|, i requires 0 <= i < |pending| => Frame(true, 2, pending[i]))
  }

  lemma {:induction false} ReplayRelayed(pending: seq<seq<byte>>)
    ensures RelayedOf(Replay(pending)) == Replay(pending)
  {
    if pending != [] {
      var n := |pending| - 1;
      ReplayRelayed(pending[..n]);
      assert Replay(pending)[..n] == Replay(pending[..n]);
    }
  }

  /** Everything held goes out as the log says when all of it was held. */
  lemma ReplayIsOut(log: seq<Message>)
    ensures RelayedOf(Replay(Payloads(log))) == Out(log, |log|)
  {
    hide RelayedOf;
    ReplayRelayed(Payloads(log));
  }

  /** The ticket's viewer and the new data connection become peers, and what the viewer
      sent meanwhile is forwarded first. */
  function Pair(w: World, c: Conn, t: string, accept: seq<byte>): World
    requires t in w.tickets && w.tickets[t] in w.all && c in w.all
  {
    var v := w.tickets[t];
    var x, y := w.all[c], w.all[v];
    var data := Become(x, HostData, y.id, accept).(peer := v, source := v, held := |y.pending|, frames := Replay(y.pending));
    var viewer := y.(ticket := "", peer := c, source := c, held := 0, pending := [], pendingBytes := 0);
    Upd(Upd(w, c, data), v, viewer).(tickets := w.tickets - {t})
  }

  lemma WaitingViewer(w: World, t: string)
    requires Inv(w) && t in w.tickets
    ensures var v := w.tickets[t];
      && v in w.all && w.all[v].kind == Viewer && !w.all[v].dead && w.all[v].ticket == t && t != ""
      && w.all[v].peer == null && w.all[v].source == null && v in w.conns
      && w.all[v].pending == Payloads(w.all[v].log) && RelayedOf(w.all[v].frames) == []
  {
    hide RelayedOf, Out, Payloads, SizeOf;
    assert TicketAt(w, t);
    assert LocalAt(w, w.tickets[t]);
  }

  lemma PairKeeps(w: World, c: Conn, t: string, accept: seq<byte>)
    requires Inv(w) && c in w.all && w.all[c].kind == Kind.Http && !w.all[c].dead && t in w.tickets
    ensures w.tickets[t] in w.all && Inv(Pair(w, c, t, accept))
  {
    hide Locals, Peers, Feeds, Tickets, HostsBut, Become;
    WaitingViewer(w, t);
    BlankHttp(w, c);
    PairLocals(w, c, t, accept);
    PairLinks(w, c, t, accept);
    PairTickets(w, c, t, accept);
  }

  lemma PairLocals(w: World, c: Conn, t: string, accept: seq<byte>)
    requires Inv(w) && c in w.all && w.all[c].kind == Kind.Http && !w.all[c].dead && t in w.tickets && w.tickets[t] in w.all
    ensures Locals(Pair(w, c, t, accept))
  {
    hide RelayedOf, Out, Payloads, Replay;
    WaitingViewer(w, t);
    BlankHttp(w, c);
    var v, p := w.tickets[t], Pair(w, c, t, accept);
    assert LocalAt(w, c) && LocalAt(w, v);
    assert Local(p.all[c]) && Local(p.all[v]);
    LocalsKeep(w, c, p.all[c]);
    LocalsKeep(Upd(w, c, p.all[c]), v, p.all[v]);
    TicketsIrrelevant(Upd(Upd(w, c, p.all[c]), v, p.all[v]), p);
  }

  lemma TicketsIrrelevant(u: World, p: World)
    requires u.all == p.all && u.conns == p.conns && Locals(u)
    ensures Locals(p)
  {
    hide Local;
    forall d | d in p.all ensures LocalAt(p, d) { assert LocalAt(u, d); }
  }

  lemma PairLinks(w: World, c: Conn, t: string, accept: seq<byte>)
    requires Inv(w) && c in w.all && w.all[c].kind == Kind.Http && !w.all[c].dead && t in w.tickets && w.tickets[t] in w.all
    ensures Peers(Pair(w, c, t, accept)) && Feeds(Pair(w, c, t, accept))
  {
    hide RelayedOf, Out, Payloads, SizeOf, Replay, Locals, Tickets, HostsBut;
    WaitingViewer(w, t);
    BlankHttp(w, c);
    var v, p := w.tickets[t], Pair(w, c, t, accept);
    ReplayIsOut(w.all[v].log);
    forall d | d in p.all ensures PeerAt(p, d) { assert PeerAt(w, d); }
    forall d | d in p.all ensures FedAt(p, d) { assert FedAt(w, d); }
  }

  lemma PairTickets(w: World, c: Conn, t: string, accept: seq<byte>)
    requires Inv(w) && c in w.all && w.all[c].kind == Kind.Http && !w.all[c].dead && t in w.tickets && w.tickets[t] in w.all
    ensures Tickets(Pair(w, c, t, accept)) && HostsBut(Pair(w, c, t, accept), null)
  {
    hide Locals, Peers, Feeds, Replay;
    WaitingViewer(w, t);
    BlankHttp(w, c);
    var p := Pair(w, c, t, accept);
    forall s | s in p.tickets ensures TicketAt(p, s) { assert TicketAt(w, s); }
    forall d | d in p.all ensures WaiterAt(p, d) { assert WaiterAt(w, d); }
    forall i | i in p.hosts ensures EntryAt(p, i) { assert EntryAt(w, i); }
    forall d | d in p.all ensures OwnerAt(p, d) { assert OwnerAt(w, d); }
  }
}
