/** The two laws of the WebSocket reader: independence of how bytes are split, and
    recovery of every framed stream (sections 5.2 to 5.5 of RFC 6455). */
module WebSocketLaws {
  import opened Bytes
  import opened WebSocket

  // -------------------------------------------------- any split of the bytes

  function Concat(chunks: seq<seq<byte>>): seq<byte> {
    if chunks == [] then [] else chunks[0] + Concat(chunks[1..])
  }

  /** Reads arriving one after another, each followed by draining the reader. */
  function Receive(cfg: Config, end: End, chunks: seq<seq<byte>>): Run
    decreases |chunks|
  {
    if chunks == [] || end.Failed? then Run([], end)
    else
      var r := Drain(cfg, end.st, end.rest + chunks[0]);
      var s := Receive(cfg, r.end, chunks[1..]);
      Run(r.msgs + s.msgs, s.end)
  }

  /** A reader that has been drained has nothing more to give. */
  ghost predicate Settled(cfg: Config, st: State, rest: seq<byte>) {
    Drain(cfg, st, rest) == Run([], Waiting(st, rest))
  }

  lemma DrainSettles(cfg: Config, st: State, b: seq<byte>)
    ensures var r := Drain(cfg, st, b); r.end.Waiting? ==> Settled(cfg, r.end.st, r.end.rest)
  {
    hide Drain;
    var r := Drain(cfg, st, b);
    DrainSplit(cfg, st, b, []);
    assert b + [] == b;
    if r.end.Waiting? {
      assert r.end.rest + [] == r.end.rest;
      var s := Drain(cfg, r.end.st, r.end.rest);
      assert |s.msgs| == |r.msgs + s.msgs| - |r.msgs| == 0;
      assert s.msgs == [];
    }
  }

  /** The messages delivered depend only on the concatenated bytes, never on how they
      were split across reads. */
  lemma {:induction false} SplitIndependence(cfg: Config, st: State, rest: seq<byte>, chunks: seq<seq<byte>>)
    requires Settled(cfg, st, rest)
    ensures Receive(cfg, Waiting(st, rest), chunks) == Drain(cfg, st, rest + Concat(chunks))
    decreases |chunks|
  {
    hide Drain;
    if chunks == [] {
      assert rest + [] == rest;
    } else {
      var b := rest + chunks[0];
      var more := Concat(chunks[1..]);
      assert rest + Concat(chunks) == b + more;
      DrainSplit(cfg, st, b, more);
      DrainSettles(cfg, st, b);
      var r := Drain(cfg, st, b);
      if r.end.Waiting? {
        SplitIndependence(cfg, r.end.st, r.end.rest, chunks[1..]);
      } else {
        assert r.msgs + [] == r.msgs;
      }
    }
  }

  lemma FreshSettled(cfg: Config)
    ensures Settled(cfg, IDLE, [])
  {
  }

  /** From a fresh reader: any two splits of the same bytes give the same run. */
  lemma SameBytesSameMessages(cfg: Config, a: seq<seq<byte>>, b: seq<seq<byte>>)
    requires Concat(a) == Concat(b)
    ensures Receive(cfg, Waiting(IDLE, []), a) == Receive(cfg, Waiting(IDLE, []), b)
  {
    FreshSettled(cfg);
    SplitIndependence(cfg, IDLE, [], a);
    SplitIndependence(cfg, IDLE, [], b);
  }

  // ------------------------------------------------------ parse after write

  ghost predicate Fits(cfg: Config, f: Frame, key: Option<Key>) {
    |f.payload| <= cfg.maxMessage && |f.payload| < Pow256(8) && key.Some? == cfg.masked
  }

  lemma ReadLengthWritten(b: seq<byte>, n: nat, mbit: nat, head: byte, rest: seq<byte>)
    requires (mbit == 0 || mbit == 0x80) && n < Pow256(8)
    requires b == [head] + LengthBytes(n, mbit) + rest
    ensures b[1] as int / 0x80 * 0x80 == mbit
    ensures ReadLength(b) == Some((n, 1 + |LengthBytes(n, mbit)|))
  {
    hide BeValue, BeBytes, Pow256;
    assert b[1] == LengthBytes(n, mbit)[0];
    if 126 <= n <= 0xFFFF {
      assert b[2..4] == BeBytes(n, 2);
      TwoBytes();
      BeRoundTrip(n, 2);
    } else if n > 0xFFFF {
      assert b[2..10] == BeBytes(n, 8);
      BeRoundTrip(n, 8);
    }
  }

  lemma TwoBytes()
    ensures Pow256(2) == 0x1_0000
  {
  }

  /** What Parse needs to see in a buffer to find `f` at its front. */
  lemma ParseLayout(cfg: Config, b: seq<byte>, f: Frame, h: nat, key: Option<Key>)
    requires Fits(cfg, f, key) && |b| >= 2 && b[0] == (if f.fin then 0x80 else 0) + f.opcode
    requires (b[1] >= 0x80) == cfg.masked && ReadLength(b) == Some((|f.payload|, h))
    requires key.Some? ==> h + 4 + |f.payload| <= |b| && b[h..h + 4] == key.value
                           && b[h + 4..h + 4 + |f.payload|] == Mask(f.payload, key.value)
    requires key.None? ==> h + |f.payload| <= |b| && b[h..h + |f.payload|] == f.payload
    ensures Parse(cfg, b) == Got(f, (if key.Some? then h + 4 else h) + |f.payload|)
  {
    hide ReadLength, Mask, Pow256;
    if key.Some? { MaskInvolutive(f.payload, key.value); }
  }

  /** A written frame parses back to itself, whatever follows it. */
  lemma ParseWritten(cfg: Config, f: Frame, key: Option<Key>, rest: seq<byte>)
    requires Fits(cfg, f, key)
    ensures Parse(cfg, Encode(f, key) + rest) == Got(f, |Encode(f, key)|)
  {
    hide ReadLength, LengthBytes, Mask, Pow256, Parse;
    var n, mbit := |f.payload|, if key.Some? then 0x80 else 0;
    var first: byte := (if f.fin then 0x80 else 0) + f.opcode;
    var head := [first] + LengthBytes(n, mbit);
    var body := if key.Some? then key.value + Mask(f.payload, key.value) else f.payload;
    var b := Encode(f, key) + rest;
    assert b == head + (body + rest);
    ReadLengthWritten(b, n, mbit, first, body + rest);
    Tail(head, body + rest, |head|);
    if key.Some? {
      KeyedLayout(b, |head|, key.value, Mask(f.payload, key.value), rest);
    } else {
      Front(b, |head|, f.payload, rest);
    }
    ParseLayout(cfg, b, f, |head|, key);
  }

  lemma KeyedLayout(b: seq<byte>, h: nat, key: seq<byte>, m: seq<byte>, rest: seq<byte>)
    requires h <= |b| && |key| == 4 && b[h..] == key + m + rest
    ensures h + 4 + |m| <= |b| && b[h..h + 4] == key && b[h + 4..h + 4 + |m|] == m
  {
    var t := b[h..];
    assert b[h..h + 4] == t[..4] && t[..4] == key;
    assert b[h + 4..h + 4 + |m|] == t[4..4 + |m|] && t[4..4 + |m|] == m;
  }

  lemma Tail(a: seq<byte>, t: seq<byte>, h: nat)
    requires h == |a|
    ensures (a + t)[h..] == t
  {
  }

  lemma Front(b: seq<byte>, h: nat, x: seq<byte>, y: seq<byte>)
    requires h <= |b| && b[h..] == x + y
    ensures h + |x| <= |b| && b[h..h + |x|] == x
  {
    assert b[h..h + |x|] == b[h..][..|x|];
  }

  // ------------------------------------------------------- streams of frames

  /** A frame and the key it is masked with. */
  datatype Wire = Wire(frame: Frame, key: Option<Key>)

  function EncodeAll(wires: seq<Wire>): seq<byte> {
    if wires == [] then [] else Encode(wires[0].frame, wires[0].key) + EncodeAll(wires[1..])
  }

  function FramesOf(wires: seq<Wire>): (f: seq<Frame>)
    ensures |f| == |wires|
  {
    seq(|wires|, i requires 0 <= i < |wires| => wires[i].frame)
  }

  ghost predicate FitsAll(cfg: Config, wires: seq<Wire>) {
    forall i :: 0 <= i < |wires| ==> Fits(cfg, wires[i].frame, wires[i].key)
  }

  /** What a sequence of frames delivers, frame by frame. */
  function Feed(cfg: Config, st: State, frames: seq<Frame>): Run
    decreases |frames|
  {
    if frames == [] then Run([], Waiting(st, []))
    else
      match Take(cfg, st, frames[0])
      case Fail => Run([], Failed)
      case Continue(st') => Feed(cfg, st', frames[1..])
      case Deliver(st', msg) =>
        var r := Feed(cfg, st', frames[1..]);
        Run([msg] + r.msgs, r.end)
  }

  lemma DrainFrame(cfg: Config, st: State, f: Frame, key: Option<Key>, rest: seq<byte>)
    requires Fits(cfg, f, key)
    ensures match Take(cfg, st, f)
            case Fail => Drain(cfg, st, Encode(f, key) + rest) == Run([], Failed)
            case Continue(st') => Drain(cfg, st, Encode(f, key) + rest) == Drain(cfg, st', rest)
            case Deliver(st', msg) =>
              var r := Drain(cfg, st', rest);
              Drain(cfg, st, Encode(f, key) + rest) == Run([msg] + r.msgs, r.end)
  {
    hide Parse, Encode, Take;
    ParseWritten(cfg, f, key, rest);
    var b := Encode(f, key) + rest;
    assert b[|Encode(f, key)|..] == rest;
  }

  lemma {:induction false} DrainFrames(cfg: Config, st: State, wires: seq<Wire>)
    requires FitsAll(cfg, wires)
    ensures Drain(cfg, st, EncodeAll(wires)) == Feed(cfg, st, FramesOf(wires))
    decreases |wires|
  {
    hide Drain, Encode, Take, Fits;
    if wires == [] {
      DrainNothing(cfg, st);
    } else {
      var w := wires[0];
      DrainFrame(cfg, st, w.frame, w.key, EncodeAll(wires[1..]));
      assert FramesOf(wires)[1..] == FramesOf(wires[1..]);
      var t := Take(cfg, st, w.frame);
      if !t.Fail? { DrainFrames(cfg, t.st, wires[1..]); }
    }
  }

  lemma DrainNothing(cfg: Config, st: State)
    ensures Drain(cfg, st, []) == Run([], Waiting(st, []))
  {
  }

  // ------------------------------------------------------ streams of messages

  /** A fragment of a message and the control messages sent right after it. */
  datatype Piece = Piece(data: seq<byte>, controls: seq<Message>)

  /** A data message cut into fragments. */
  datatype Sent = Sent(opcode: Opcode, pieces: seq<Piece>)

  function ControlFrames(ms: seq<Message>): (f: seq<Frame>)
    ensures |f| == |ms|
  {
    seq(|ms|, i requires 0 <= i < |ms| => Frame(true, ms[i].opcode, ms[i].data))
  }

  ghost predicate GoodControls(ms: seq<Message>) {
    forall i :: 0 <= i < |ms| ==> 8 <= ms[i].opcode && |ms[i].data| <= MAX_CONTROL
  }

  function Join(pieces: seq<Piece>): seq<byte> {
    if pieces == [] then [] else pieces[0].data + Join(pieces[1..])
  }

  ghost predicate GoodPieces(pieces: seq<Piece>) {
    forall i :: 0 <= i < |pieces| ==> GoodControls(pieces[i].controls)
  }

  ghost predicate GoodSent(cfg: Config, s: Sent) {
    && (s.opcode == TEXT || s.opcode == BINARY) && s.pieces != [] && GoodPieces(s.pieces)
    && |Join(s.pieces)| <= cfg.maxMessage
  }

  /** The frames of a fragmented message: the first carries the opcode, the last the
      FIN bit, controls go in between. */
  function PieceFrames(opcode: Opcode, pieces: seq<Piece>): seq<Frame> {
    if pieces == [] then []
    else
      [Frame(|pieces| == 1, opcode, pieces[0].data)] + ControlFrames(pieces[0].controls) + PieceFrames(CONT, pieces[1..])
  }

  /** What must come out: the controls as they pass, the whole message when its last
      fragment arrives. */
  function Expected(opcode: Opcode, before: seq<byte>, pieces: seq<Piece>): seq<Message>
    requires pieces != []
    decreases |pieces|
  {
    var all := before + pieces[0].data;
    if |pieces| == 1 then [Message(opcode, all)] + pieces[0].controls
    else pieces[0].controls + Expected(opcode, all, pieces[1..])
  }

  function StreamFrames(sents: seq<Sent>): seq<Frame> {
    if sents == [] then [] else PieceFrames(sents[0].opcode, sents[0].pieces) + StreamFrames(sents[1..])
  }

  function StreamMessages(sents: seq<Sent>): seq<Message> {
    if sents == [] then [] else Delivery(sents[0]) + StreamMessages(sents[1..])
  }

  function Delivery(s: Sent): seq<Message> {
    if s.pieces == [] then [] else Expected(s.opcode, [], s.pieces)
  }

  lemma {:induction false} FeedSplit(cfg: Config, st: State, a: seq<Frame>, b: seq<Frame>)
    ensures var r := Feed(cfg, st, a);
      r.end.Waiting? ==> var s := Feed(cfg, r.end.st, b); Feed(cfg, st, a + b) == Run(r.msgs + s.msgs, s.end)
    decreases |a|
  {
    hide Take;
    if a == [] {
      assert a + b == b;
    } else {
      assert (a + b)[1..] == a[1..] + b;
      var t := Take(cfg, st, a[0]);
      if !t.Fail? { FeedSplit(cfg, t.st, a[1..], b); }
    }
  }

  lemma {:induction false} FeedControls(cfg: Config, st: State, ms: seq<Message>)
    requires GoodControls(ms)
    ensures Feed(cfg, st, ControlFrames(ms)) == Run(ms, Waiting(st, []))
    decreases |ms|
  {
    if ms != [] {
      assert ControlFrames(ms)[1..] == ControlFrames(ms[1..]);
      FeedControls(cfg, st, ms[1..]);
    }
  }

  /** The fragments of a message, fed from where the message has got to. */
  lemma {:induction false} FeedPieces(cfg: Config, st: State, first: Frame, opcode: Opcode, before: seq<byte>,
          pieces: seq<Piece>, op: Opcode)
    requires pieces != [] && GoodPieces(pieces) && |before| + |Join(pieces)| <= cfg.maxMessage
    requires first == Frame(|pieces| == 1, op, pieces[0].data)
    requires Take(cfg, st, first) == Append(cfg, State(opcode, before), first)
    ensures var r := Feed(cfg, st, PieceFrames(op, pieces));
      r.msgs == Expected(opcode, before, pieces) && r.end.Waiting? && r.end.st.opcode == -1 && r.end.rest == []
    decreases |pieces|
  {
    hide Take;
    var all := before + pieces[0].data;
    var rest := pieces[1..];
    assert |all| <= cfg.maxMessage;
    var cs := ControlFrames(pieces[0].controls);
    var tail := PieceFrames(CONT, rest);
    assert GoodControls(pieces[0].controls);
    assert PieceFrames(op, pieces) == [first] + (cs + tail);
    assert ([first] + (cs + tail))[1..] == cs + tail;
    var st' := if |pieces| == 1 then State(-1, all) else State(opcode, all);
    FeedControls(cfg, st', pieces[0].controls);
    FeedSplit(cfg, st', cs, tail);
    if |pieces| == 1 {
      assert rest == [] && tail == [];
      assert pieces[0].controls + [] == pieces[0].controls;
    } else {
      var next := Frame(|rest| == 1, CONT, rest[0].data);
      TakeContinuation(cfg, st', next);
      FeedPieces(cfg, st', next, opcode, all, rest, CONT);
    }
  }

  lemma TakeContinuation(cfg: Config, st: State, f: Frame)
    requires st.opcode >= 0 && f.opcode == CONT
    ensures Take(cfg, st, f) == Append(cfg, st, f)
  {
  }

  lemma TakeFirst(cfg: Config, st: State, f: Frame)
    requires st.opcode < 0 && (f.opcode == TEXT || f.opcode == BINARY)
    ensures Take(cfg, st, f) == Append(cfg, State(f.opcode, []), f)
  {
  }

  lemma {:induction false} FeedStream(cfg: Config, st: State, sents: seq<Sent>)
    requires st.opcode < 0 && forall i :: 0 <= i < |sents| ==> GoodSent(cfg, sents[i])
    ensures var r := Feed(cfg, st, StreamFrames(sents));
      r.msgs == StreamMessages(sents) && r.end.Waiting? && r.end.st.opcode < 0 && r.end.rest == []
    decreases |sents|
  {
    hide Take, Feed, PieceFrames, Expected;
    if sents == [] {
      FeedNothing(cfg, st);
    } else {
      var s := sents[0];
      assert GoodSent(cfg, s);
      var first := Frame(|s.pieces| == 1, s.opcode, s.pieces[0].data);
      TakeFirst(cfg, st, first);
      FeedPieces(cfg, st, first, s.opcode, [], s.pieces, s.opcode);
      var r := Feed(cfg, st, PieceFrames(s.opcode, s.pieces));
      FeedSplit(cfg, st, PieceFrames(s.opcode, s.pieces), StreamFrames(sents[1..]));
      FeedStream(cfg, r.end.st, sents[1..]);
    }
  }

  function ControlsOf(pieces: seq<Piece>): seq<Message> {
    if pieces == [] then [] else pieces[0].controls + ControlsOf(pieces[1..])
  }

  /** Seen as a whole: controls sent between fragments come out first, then the
      message with all its fragments joined, then the controls sent after it. */
  lemma {:induction false} ExpectedIs(opcode: Opcode, before: seq<byte>, pieces: seq<Piece>)
    requires pieces != []
    ensures Expected(opcode, before, pieces)
         == ControlsOf(pieces[..|pieces| - 1]) + [Message(opcode, before + Join(pieces))] + pieces[|pieces| - 1].controls
    decreases |pieces|
  {
    var n := |pieces|;
    if n == 1 {
      assert Join(pieces) == pieces[0].data + Join(pieces[1..]) && Join(pieces[1..]) == [];
      assert Join(pieces) == pieces[0].data;
      assert ControlsOf(pieces[..0]) == [];
    } else {
      ExpectedIs(opcode, before + pieces[0].data, pieces[1..]);
      assert pieces[1..][..n - 2] == pieces[..n - 1][1..];
      assert before + pieces[0].data + Join(pieces[1..]) == before + Join(pieces);
    }
  }

  lemma FeedNothing(cfg: Config, st: State)
    ensures Feed(cfg, st, []) == Run([], Waiting(st, []))
  {
  }

  /** Every list of messages, fragmented and interleaved with controls in any way and
      masked with any keys, is recovered whole and in order. */
  lemma {:induction false} StreamRecovered(cfg: Config, sents: seq<Sent>, wires: seq<Wire>)
    requires forall i :: 0 <= i < |sents| ==> GoodSent(cfg, sents[i])
    requires FramesOf(wires) == StreamFrames(sents) && FitsAll(cfg, wires)
    ensures var r := Drain(cfg, IDLE, EncodeAll(wires));
      r.msgs == StreamMessages(sents) && r.end.Waiting? && r.end.st.opcode < 0 && r.end.rest == []
  {
    hide Drain, Feed, StreamMessages, StreamFrames;
    DrainFrames(cfg, IDLE, wires);
    FeedStream(cfg, IDLE, sents);
  }

  /** One frame as rd_ws_write_frame makes it, into an idle reader that agrees on
      masking: it is delivered as sent exactly when its opcode and size are legal. */
  lemma WrittenFrameAccepted(cfg: Config, opcode: Opcode, payload: seq<byte>, key: Option<Key>)
    requires |payload| < Pow256(8) && key.Some? == cfg.masked
    ensures Drain(cfg, IDLE, Encode(Frame(true, opcode, payload), key)).msgs == [Message(opcode, payload)]
       <==> |payload| <= cfg.maxMessage && (opcode == TEXT || opcode == BINARY || (opcode >= 8 && |payload| <= MAX_CONTROL))
  {
    hide Encode, Parse, Pow256;
    var f := Frame(true, opcode, payload);
    assert Encode(f, key) + [] == Encode(f, key);
    if |payload| <= cfg.maxMessage {
      DrainFrame(cfg, IDLE, f, key, []);
      DrainNothing(cfg, IDLE);
      DrainNothing(cfg, State(-1, payload));
      assert [] + payload == payload;
    } else {
      TooLong(cfg, f, key);
    }
  }

  lemma TooLong(cfg: Config, f: Frame, key: Option<Key>)
    requires cfg.maxMessage < |f.payload| < Pow256(8) && key.Some? == cfg.masked
    ensures Parse(cfg, Encode(f, key)) == Bad
  {
    hide ReadLength, LengthBytes, Mask, Pow256;
    var n, mbit := |f.payload|, if key.Some? then 0x80 else 0;
    var first: byte := (if f.fin then 0x80 else 0) + f.opcode;
    var body := if key.Some? then key.value + Mask(f.payload, key.value) else f.payload;
    ReadLengthWritten(Encode(f, key), n, mbit, first, body);
  }

  // --------------------------------------------------- the opcodes delivered

  /** TEXT, BINARY, and every control opcode, the reserved ones 11 to 15 included. */
  predicate Deliverable(opcode: Opcode) {
    opcode == TEXT || opcode == BINARY || opcode >= 8
  }

  predicate Assembling(st: State) {
    st.opcode == -1 || st.opcode == TEXT || st.opcode == BINARY
  }

  lemma {:induction false} NextDelivers(cfg: Config, st: State, b: seq<byte>)
    requires Assembling(st)
    ensures match Next(cfg, st, b)
            case Wait(st', _) => Assembling(st')
            case Error => true
            case Ready(st', _, msg) => Assembling(st') && Deliverable(msg.opcode)
    decreases |b|
  {
    hide Parse;
    var p := Parse(cfg, b);
    if p.Got? {
      var t := Take(cfg, st, p.frame);
      if t.Continue? { NextDelivers(cfg, t.st, b[p.size..]); }
    }
  }

  /** Whatever bytes arrive, a reader delivers nothing but these opcodes. */
  lemma {:induction false} DrainDelivers(cfg: Config, st: State, b: seq<byte>)
    requires Assembling(st)
    ensures forall i :: 0 <= i < |Drain(cfg, st, b).msgs| ==> Deliverable(Drain(cfg, st, b).msgs[i].opcode)
    decreases |b|
  {
    hide Next;
    NextDelivers(cfg, st, b);
    var n := Next(cfg, st, b);
    if n.Ready? {
      DrainDelivers(cfg, n.st, n.rest);
      var tail := Drain(cfg, n.st, n.rest).msgs;
      assert Drain(cfg, st, b).msgs == [n.msg] + tail;
    }
  }

  /** An opcode is delivered for some bytes exactly when it is one of these. */
  lemma {:induction false} OpcodesDelivered(cfg: Config, opcode: Opcode)
    ensures Deliverable(opcode)
       <==> exists b: seq<byte>, i: nat ::
              i < |Drain(cfg, IDLE, b).msgs| && Drain(cfg, IDLE, b).msgs[i].opcode == opcode
  {
    hide Drain, Encode, Pow256;
    forall b: seq<byte> { DrainDelivers(cfg, IDLE, b); }
    if Deliverable(opcode) {
      var key := if cfg.masked then Some([0, 0, 0, 0]) else None;
      BigEnough();
      WrittenFrameAccepted(cfg, opcode, [], key);
      var b := Encode(Frame(true, opcode, []), key);
      assert Drain(cfg, IDLE, b).msgs[0].opcode == opcode;
    }
  }

  lemma BigEnough()
    ensures 0 < Pow256(8)
  {
  }
}
