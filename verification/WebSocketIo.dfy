/** rd_ws_write_header, rd_ws_write_frame and rd_ws_next (common/rd_ws.c:20-142) over
    the mutable buffers they work on. */
module WebSocketIo {
  import opened Bytes
  import opened Buffers
  import opened WebSocket

  /** The length field as the writers build it, byte by byte from the top. */
  method PutLength(out: RdBuf, n: u64, mbit: nat)
    requires out.Valid() && (mbit == 0 || mbit == 0x80)
    modifies out, out.data
    ensures out.Valid() && (out.data == old(out.data) || fresh(out.data))
    ensures out.Contents() == old(out.Contents()) + LengthBytes(n, mbit)
  {
    hide BeBytes;
    if n < 126 {
      out.PutU8(mbit + n);
    } else if n <= 0xFFFF {
      out.PutU8(mbit + 126);
      ghost var before := out.Contents();
      PutBig(out, n, 2);
    } else {
      out.PutU8(mbit + 127);
      PutBig(out, n, 8);
    }
  }

  /** Big-endian, most significant byte first: n >> (8 * i) for i from the top. */
  method PutBig(out: RdBuf, n: nat, count: nat)
    requires out.Valid()
    modifies out, out.data
    ensures out.Valid() && (out.data == old(out.data) || fresh(out.data))
    ensures out.Contents() == old(out.Contents()) + BeBytes(n, count)
  {
    var i := count;
    while i > 0
      invariant 0 <= i <= count
      invariant out.Valid() && (out.data == old(out.data) || fresh(out.data))
      invariant out.Contents() == old(out.Contents()) + BeBytes(Shr8(n, i), count - i)
    {
      i := i - 1;
      BeBytesStep(n, i, count);
      out.PutU8(Shr8(n, i) % 0x100);
    }
  }

  /** n >> (8 * i) */
  function Shr8(n: nat, i: nat): nat {
    if i == 0 then n else Shr8(n, i - 1) / 0x100
  }

  lemma BeBytesStep(n: nat, i: nat, count: nat)
    requires i < count
    ensures BeBytes(Shr8(n, i), count - i) == BeBytes(Shr8(n, i + 1), count - i - 1) + [Shr8(n, i) % 0x100]
  {
  }

  /** A server-side header for a payload the caller appends itself. */
  method WriteHeader(out: RdBuf, opcode: nat, len: u64)
    requires out.Valid()
    modifies out, out.data
    ensures out.Valid() && (out.data == old(out.data) || fresh(out.data))
    ensures out.Contents() == old(out.Contents()) + [0x80 + opcode % 16] + LengthBytes(len, 0)
  {
    out.PutU8(0x80 + opcode % 16);
    PutLength(out, len, 0);
  }

  /** dst[i] ^= key[i & 3] over a stretch of the buffer. */
  method MaskInPlace(data: array<byte>, at: nat, n: nat, key: Key)
    requires at + n <= data.Length
    modifies data
    ensures data[at..at + n] == Mask(old(data[at..at + n]), key)
    ensures forall k :: 0 <= k < data.Length && !(at <= k < at + n) ==> data[k] == old(data[k])
  {
    hide Xor;
    for i := 0 to n
      invariant forall k :: at <= k < at + i ==> data[k] == Xor(old(data[k]), key[(k - at) % 4])
      invariant forall k :: 0 <= k < data.Length && !(at <= k < at + i) ==> data[k] == old(data[k])
    {
      data[at + i] := Xor(data[at + i], key[i % 4]);
    }
  }

  /** Appends one whole frame; `key` is the random masking key when masking. */
  method WriteFrame(out: RdBuf, opcode: nat, payload: seq<byte>, mask: bool, key: Key)
    requires out.Valid() && |payload| < 0x1_0000_0000_0000_0000
    modifies out, out.data
    ensures out.Valid() && (out.data == old(out.data) || fresh(out.data))
    ensures out.Contents() == old(out.Contents()) + Encode(Frame(true, opcode % 16, payload),
            if mask then Some(key) else None)
  {
    hide LengthBytes, Mask;
    var mbit := if mask then 0x80 else 0;
    out.PutU8(0x80 + opcode % 16);
    PutLength(out, |payload|, mbit);
    if mask { out.Put(key); }
    PutPayload(out, payload, mask, key);
  }

  /** Copies the payload to the end of the buffer and masks it there. */
  method PutPayload(out: RdBuf, payload: seq<byte>, mask: bool, key: Key)
    requires out.Valid()
    modifies out, out.data
    ensures out.Valid() && (out.data == old(out.data) || fresh(out.data))
    ensures out.Contents() == old(out.Contents()) + if mask then Mask(payload, key) else payload
  {
    hide Mask;
    ghost var head := out.Contents();
    var at := out.Grow(|payload|);
    var end := at + |payload|;
    forall i | 0 <= i < |payload| { out.data[at + i] := payload[i]; }
    assert out.data[..at] == head;
    assert out.data[at..end] == payload;
    if mask {
      MaskInPlace(out.data, at, |payload|, key);
      assert out.data[..at] == head;
    }
    assert out.data[..end] == out.data[..at] + out.data[at..end];
  }

  /** Header plus payload is the same as the whole unmasked frame. */
  lemma HeaderThenPayload(opcode: nat, payload: seq<byte>)
    ensures [0x80 + opcode % 16] + LengthBytes(|payload|, 0) + payload == Encode(Frame(true, opcode % 16, payload), None)
  {
  }

  /** The 64-bit length field: len = (len << 8) | p[i], eight times. */
  method BigValue(b: seq<byte>) returns (v: nat)
    ensures v == BeValue(b)
  {
    v := 0;
    for i := 0 to |b|
      invariant v == BeValue(b[..i])
    {
      assert b[..i + 1][..i] == b[..i];
      v := v * 0x100 + b[i];
    }
    assert b[..|b|] == b;
  }

  function BodyOf(cfg: Config, b: seq<byte>, n: nat, h: nat): seq<byte>
    requires h + n <= |b| && (cfg.masked ==> h >= 4)
  {
    if cfg.masked then Mask(b[h..h + n], b[h - 4..h]) else b[h..h + n]
  }

  lemma SubSlice(s: seq<byte>, len: nat, i: nat, j: nat)
    requires i <= j <= len <= |s|
    ensures s[..len][i..j] == s[i..j]
  {
  }

  lemma ParseShort(cfg: Config, b: seq<byte>)
    requires |b| < 2
    ensures Parse(cfg, b) == NeedMore
  {
  }

  lemma ParseBody(cfg: Config, b: seq<byte>, n: nat, h: nat)
    requires |b| >= 2 && !Parse(cfg, b).Bad? && ReadLength(b).Some? && n <= cfg.maxMessage
    requires h == ReadLength(b).value.1 + (if cfg.masked then 4 else 0) <= |b| && n == ReadLength(b).value.0
    ensures Parse(cfg, b) == if |b| < h + n then NeedMore else Got(Frame(b[0] >= 0x80, b[0] % 0x10, BodyOf(cfg, b, n,
            h)), h + n)
  {
    hide Mask;
  }

  /** The reader: configuration, message in progress, and its buffer. */
  class WsReader {
    const cfg: Config
    const assembly: RdBuf
    var assemblyOpcode: Current

    ghost predicate Valid()
      reads this, assembly
    {
      assembly.Valid()
    }

    ghost function Progress(): State
      requires Valid()
      reads this, assembly, assembly.data
    {
      State(assemblyOpcode, assembly.Contents())
    }

    constructor (cfg: Config)
      ensures Valid() && this.cfg == cfg && Progress() == IDLE && fresh(assembly) && fresh(assembly.data)
    {
      this.cfg := cfg;
      assembly := new RdBuf();
      assemblyOpcode := -1;
    }

    /** Looks at the front of the input: -1 for a violation, 0 for too few bytes, 1
        with the header's fields and where the body starts. */
    method Header(b: seq<byte>) returns (rc: int, n: nat, h: nat)
      requires |b| >= 2
      ensures rc == 0 || rc == -1 || rc == 1
      ensures rc == 1 ==> !Parse(cfg, b).Bad? && ReadLength(b).Some? && n <= cfg.maxMessage
      ensures rc == 1 ==> h == ReadLength(b).value.1 + (if cfg.masked then 4 else 0) <= |b| && n == ReadLength(b).value.0
      ensures rc == 0 ==> Parse(cfg, b).NeedMore?
      ensures rc == -1 ==> Parse(cfg, b).Bad?
    {
      hide Mask, BeValue;
      n, h := 0, 2;
      if b[0] / 0x10 % 8 != 0 { return -1, n, h; }
      if (b[1] >= 0x80) != cfg.masked { return -1, n, h; }
      n := b[1] % 0x80;
      if n == 126 {
        if |b| < 4 { return 0, n, h; }
        n := BigValue(b[2..4]);
        h := 4;
      } else if n == 127 {
        if |b| < 10 { return 0, n, h; }
        n := BigValue(b[2..10]);
        h := 10;
      }
      if n > cfg.maxMessage { return -1, n, h; }
      if cfg.masked {
        if |b| < h + 4 { return 0, n, h; }
        h := h + 4;
      }
      rc := 1;
    }

    ghost predicate Apart(b: RdBuf)
      reads this, assembly, b
    {
      assembly != b && assembly.data != b.data
    }

    /** Takes one frame's payload into the reader: 1 when it completes a message, 2
        when more frames are needed, -1 for a violation. */
    method Accept(fin: bool, opcode: Opcode, payload: seq<byte>) returns (rc: int, msg: Message)
      requires Valid()
      modifies this`assemblyOpcode, assembly, assembly.data
      ensures Valid() && (assembly.data == old(assembly.data) || fresh(assembly.data))
      ensures match Take(cfg, old(Progress()), Frame(fin, opcode, payload))
              case Fail => rc == -1
              case Continue(st) => rc == 2 && Progress() == st
              case Deliver(st, m) => rc == 1 && Progress() == st && msg == m
    {
      msg := Message(opcode, payload);
      if opcode >= 8 {
        rc := if !fin || |payload| > MAX_CONTROL then -1 else 1;
        return;
      }
      if opcode == CONT {
        if assemblyOpcode < 0 { return -1, msg; }
      } else {
        if opcode != BINARY && opcode != TEXT { return -1, msg; }
        if assemblyOpcode >= 0 { return -1, msg; }
        assemblyOpcode := opcode;
        assembly.Clear();
      }
      if assembly.len + |payload| > cfg.maxMessage { return -1, msg; }
      assembly.Put(payload);
      if !fin { return 2, msg; }
      msg := Message(assemblyOpcode, assembly.data[..assembly.len]);
      assemblyOpcode := -1;
      rc := 1;
    }

    /** One frame from the input buffer: 0 when it is not complete, otherwise as Accept;
        the payload is unmasked where it lies and then consumed. */
    method OneFrame(b: RdBuf) returns (rc: int, msg: Message)
      requires Valid() && b.Valid() && Apart(b)
      modifies this`assemblyOpcode, assembly, assembly.data, b, b.data
      ensures Valid() && b.Valid() && Apart(b) && b.data == old(b.data)
      ensures assembly.data == old(assembly.data) || fresh(assembly.data)
      ensures match Parse(cfg, old(b.Contents()))
              case NeedMore => rc == 0 && Progress() == old(Progress()) && b.Contents() == old(b.Contents())
              case Bad => rc == -1
              case Got(f, size) =>
                match Take(cfg, old(Progress()), f)
                case Fail => rc == -1
                case Continue(st) => rc == 2 && Progress() == st && b.Contents() == old(b.Contents())[size..]
                case Deliver(st, m) => rc == 1 && Progress() == st && msg == m && b.Contents() == old(b.Contents())[size..]
    {
      hide Take, Mask, Parse, ReadLength;
      msg := Message(0, []);
      ghost var all := b.Contents();
      if b.len < 2 {
        ParseShort(cfg, all);
        return 0, msg;
      }
      var n, h;
      rc, n, h := Header(b.data[..b.len]);
      if rc != 1 { return; }
      ParseBody(cfg, all, n, h);
      if b.len < h + n { return 0, msg; }
      var fin, opcode := b.data[0] >= 0x80, b.data[0] % 0x10;
      var payload := Payload(b, h, n);
      rc, msg := Accept(fin, opcode, payload);
      assert b.Contents()[h + n..] == all[h + n..];
      b.Consume(h + n);
    }

    /** The body of the frame, unmasked in the buffer itself. */
    method Payload(b: RdBuf, h: nat, n: nat) returns (payload: seq<byte>)
      requires b.Valid() && h + n <= b.len && (cfg.masked ==> h >= 4)
      modifies b.data
      ensures b.Contents()[h + n..] == old(b.Contents())[h + n..]
      ensures payload == BodyOf(cfg, old(b.Contents()), n, h)
    {
      hide Mask;
      ghost var all := b.Contents();
      SubSlice(b.data[..], b.len, h, h + n);
      if cfg.masked {
        SubSlice(b.data[..], b.len, h - 4, h);
        var key: Key := b.data[h - 4..h];
        MaskInPlace(b.data, h, n, key);
        payload := b.data[h..h + n];
      } else {
        payload := b.data[h..h + n];
      }
    }

    /** rd_ws_next: the function Next on the bytes and the message in progress. */
    method NextMessage(b: RdBuf) returns (rc: int, msg: Message)
      requires Valid() && b.Valid() && Apart(b)
      modifies this`assemblyOpcode, assembly, assembly.data, b, b.data
      ensures Valid() && b.Valid() && Apart(b) && b.data == old(b.data)
      ensures assembly.data == old(assembly.data) || fresh(assembly.data)
      ensures match Next(cfg, old(Progress()), old(b.Contents()))
              case Wait(st, rest) => rc == 0 && Progress() == st && b.Contents() == rest
              case Error => rc == -1
              case Ready(st, rest, m) => rc == 1 && msg == m && Progress() == st && b.Contents() == rest
    {
      hide Take, Parse;
      ghost var goal := Next(cfg, Progress(), b.Contents());
      while true
        invariant Valid() && b.Valid() && Apart(b) && b.data == old(b.data)
        invariant assembly.data == old(assembly.data) || fresh(assembly.data)
        invariant Next(cfg, Progress(), b.Contents()) == goal
        decreases b.len
      {
        rc, msg := OneFrame(b);
        if rc != 2 { return; }
      }
    }
  }
}
