/** HKDF, the handshake's key derivation and the sealed message channel of
    common/rd_secure.c:344-436, and the send path of host/server.cpp:521-538. */
module Channel {
  import opened Bytes
  import opened Buffers
  import Sha256
  import opened Aead
  import WebSocket
  import WebSocketIo

  type Sha = Sha256.Block<Sha256.Words8>

  // ------------------------------------------------------------------ HKDF

  /** T(i) of section 2.3 of RFC 5869, with the counter as the byte it is. */
  function HkdfT(f: Sha, prk: seq<byte>, info: seq<byte>, i: nat): (t: seq<byte>)
    ensures |t| == if i == 0 then 0 else 32
  {
    if i == 0 then [] else Sha256.HmacOf(f, prk, HkdfT(f, prk, info, i - 1) + info + [i % 0x100])
  }

  /** T(1) | T(2) | ... | T(n) */
  function Okm(f: Sha, prk: seq<byte>, info: seq<byte>, n: nat): (o: seq<byte>)
    ensures |o| == 32 * n
  {
    if n == 0 then [] else Okm(f, prk, info, n - 1) + HkdfT(f, prk, info, n)
  }

  function Expand(f: Sha, prk: seq<byte>, info: seq<byte>, len: nat): (o: seq<byte>)
    ensures |o| == len
  {
    Okm(f, prk, info, (len + 31) / 32)[..len]
  }

  function HkdfOf(f: Sha, ikm: seq<byte>, salt: seq<byte>, info: seq<byte>, len: nat): (o: seq<byte>)
    ensures |o| == len
  {
    Expand(f, Sha256.HmacOf(f, salt, ikm), info, len)
  }

  /** Each round appends one block of T, the last one cut to what is still wanted. */
  method Hkdf(f: Sha, ikm: seq<byte>, salt: Option<seq<byte>>, info: seq<byte>, len: nat) returns (out: seq<byte>)
    ensures out == HkdfOf(f, ikm, if salt.Some? then salt.value else ZeroBytes(32), info[..Min(|info|, 256)], len)
  {
    hide Sha256.HmacOf;
    var key := if salt.Some? then salt.value else ZeroBytes(32);
    var prk := Sha256.Hmac(f, key, ikm);
    var used := info[..Min(|info|, 256)];
    var t: seq<byte> := [];
    var left, i := len, 1;
    ghost var n := 0;
    out := [];
    while left > 0
      invariant |out| == Min(32 * n, len) && left == len - |out| && i == (n + 1) % 0x100
      invariant t == HkdfT(f, prk, used, n)
      invariant out == Okm(f, prk, used, n)[..|out|]
      invariant left > 0 ==> |out| == 32 * n
      invariant left == 0 ==> n == (len + 31) / 32
      decreases left
    {
      t := Sha256.Hmac(f, prk, t + used + [i]);
      var c := Min(left, 32);
      assert Okm(f, prk, used, n)[..|out|] == Okm(f, prk, used, n);
      out := out + t[..c];
      assert out == Okm(f, prk, used, n + 1)[..|out|];
      left := left - c;
      n := n + 1;
      i := (i as int + 1) % 0x100;
    }
  }

  // -------------------------------------------------------------- handshake

  function TranscriptText(ce: Bytes32, ss: Bytes32, se: Bytes32, nonce: seq<byte>): seq<byte> {
    Ascii("TetherDesk v2") + ce + ss + se + nonce
  }

  function Transcript(f: Sha, ce: Bytes32, ss: Bytes32, se: Bytes32, nonce: seq<byte>): Bytes32 {
    Sha256.Digest(f, TranscriptText(ce, ss, se, nonce))
  }

  /** rd_hs_transcript: one update per field. */
  method HsTranscript(f: Sha, ce: Bytes32, ss: Bytes32, se: Bytes32, nonce: seq<byte>) returns (th: Bytes32)
    ensures th == Transcript(f, ce, ss, se, nonce)
  {
    hide Sha256.Digest, Ascii;
    var c := new Sha256.Context(f);
    c.Update(Ascii("TetherDesk v2"));
    c.Update(ce);
    c.Update(ss);
    c.Update(se);
    c.Update(nonce);
    assert [] + Ascii("TetherDesk v2") == Ascii("TetherDesk v2");
    th := c.Final();
  }

  /** Client-to-server key, then server-to-client key. */
  function SessionKeys(f: Sha, dh1: Bytes32, dh2: Bytes32, th: Bytes32): (Bytes32, Bytes32) {
    var okm := HkdfOf(f, dh1 + dh2, th, Ascii("tetherdesk keys"), 64);
    (okm[..32], okm[32..])
  }

  /** The MAC that proves the password over this handshake's transcript. */
  function AuthMac(f: Sha, password: seq<byte>, th: Bytes32): seq<byte> {
    Sha256.HmacOf(f, password, Ascii("tetherdesk-auth") + th)
  }

  /** rd_hs_auth_mac: label and transcript side by side in one buffer. */
  method HsAuthMac(f: Sha, password: seq<byte>, th: Bytes32) returns (mac: seq<byte>)
    ensures mac == AuthMac(f, password, th)
  {
    hide Sha256.HmacOf;
    var prefix := Ascii("tetherdesk-auth");
    var msg := new byte[47](_ => 0);
    forall i | 0 <= i < 15 { msg[i] := prefix[i]; }
    forall i | 0 <= i < 32 { msg[15 + i] := th[i]; }
    assert msg[..] == prefix + th;
    mac := Sha256.Hmac(f, password, msg[..]);
  }

  // ---------------------------------------------------------------- channel

  /** The state of one end of a channel. */
  datatype Chan = Chan(sendKey: Bytes32, recvKey: Bytes32, sendCtr: u64, recvCtr: u64, active: bool)

  const TWO64 := 0x1_0000_0000_0000_0000

  function Nonce(ctr: u64): Bytes12 {
    [0, 0, 0, 0] + LeBytes(ctr, 8)
  }

  /** Four zero bytes, then the counter in little-endian order. */
  lemma NonceIs(ctr: u64, n: Bytes12)
    ensures n == Nonce(ctr) <==> n[..4] == [0, 0, 0, 0] && LeValue(n[4..]) == ctr
  {
    hide LeValue, LeBytes;
    assert Pow256(8) == TWO64;
    LeRoundTrip(ctr, 8);
    assert Nonce(ctr)[4..] == LeBytes(ctr, 8);
    if n[..4] == [0, 0, 0, 0] && LeValue(n[4..]) == ctr {
      LeBytesOfValue(n[4..]);
      assert n == n[..4] + n[4..];
    }
  }

  /** Below 2^64 messages no nonce repeats. */
  lemma NonceInjective(a: u64, b: u64)
    requires Nonce(a) == Nonce(b)
    ensures a == b
  {
    assert Nonce(a)[4..] == LeBytes(a, 8) && Nonce(b)[4..] == LeBytes(b, 8);
    assert Pow256(8) == TWO64;
    LeRoundTrip(a, 8);
    LeRoundTrip(b, 8);
  }

  function Keyed(keys: (Bytes32, Bytes32), isHost: bool): Chan {
    if isHost then Chan(keys.1, keys.0, 0, 0, true) else Chan(keys.0, keys.1, 0, 0, true)
  }

  function Next(ctr: u64): u64 {
    (ctr as int + 1) % TWO64
  }

  function Sealed(f: ChaCha, key: Bytes32, ctr: u64, msg: seq<byte>): seq<byte> {
    AeadSeal(f, msg, [], key, Nonce(ctr))
  }

  function Opened(f: ChaCha, key: Bytes32, ctr: u64, c: seq<byte>): Option<seq<byte>> {
    AeadOpen(f, c, [], key, Nonce(ctr))
  }

  lemma OpensWhatWasSealed(f: ChaCha, key: Bytes32, ctr: u64, msg: seq<byte>)
    ensures Opened(f, key, ctr, Sealed(f, key, ctr, msg)) == Some(msg)
  {
    OpensIffSealed(f, Sealed(f, key, ctr, msg), msg, [], key, Nonce(ctr));
  }

  /** A received text is accepted exactly when it is some message sealed under this
      key and counter. */
  lemma AcceptedIffSealed(f: ChaCha, key: Bytes32, ctr: u64, c: seq<byte>)
    ensures Opened(f, key, ctr, c).Some? <==> exists m :: c == Sealed(f, key, ctr, m)
  {
    hide AeadOpen, AeadSeal;
    if Opened(f, key, ctr, c).Some? {
      var m := Opened(f, key, ctr, c).value;
      OpensIffSealed(f, c, m, [], key, Nonce(ctr));
      assert c == Sealed(f, key, ctr, m);
    }
    if m :| c == Sealed(f, key, ctr, m) {
      OpensWhatWasSealed(f, key, ctr, m);
    }
  }

  class RdChannel {
    const sha: Sha
    const chacha: ChaCha
    var sendKey: Bytes32
    var recvKey: Bytes32
    var sendCtr: u64
    var recvCtr: u64
    var active: bool

    ghost function View(): Chan
      reads this
    {
      Chan(sendKey, recvKey, sendCtr, recvCtr, active)
    }

    /** A wiped channel: plaintext until keyed. */
    constructor (sha: Sha, chacha: ChaCha)
      ensures !active && this.sha == sha && this.chacha == chacha
    {
      this.sha := sha;
      this.chacha := chacha;
      sendKey, recvKey := ZeroBytes(32), ZeroBytes(32);
      sendCtr, recvCtr, active := 0, 0, false;
    }

    method HsKeys(dh1: Bytes32, dh2: Bytes32, th: Bytes32, isHost: bool)
      modifies this
      ensures View() == Keyed(SessionKeys(sha, dh1, dh2, th), isHost)
    {
      hide HkdfOf;
      var info := Ascii("tetherdesk keys");
      var okm := Hkdf(sha, dh1 + dh2, Some(th), info, 64);
      assert info[..Min(|info|, 256)] == info;
      var c2s, s2c := okm[..32], okm[32..];
      sendKey := if isHost then s2c else c2s;
      recvKey := if isHost then c2s else s2c;
      sendCtr, recvCtr, active := 0, 0, true;
    }

    /** rd_channel_seal: appends the sealed message and uses up one counter value. */
    method Seal(msg: seq<byte>, out: RdBuf)
      requires out.Valid() && |msg| < TWO64
      modifies this`sendCtr, out, out.data
      ensures out.Valid() && (out.data == old(out.data) || fresh(out.data))
      ensures out.Contents() == old(out.Contents()) + Sealed(chacha, old(sendKey), old(sendCtr), msg)
      ensures View() == old(View()).(sendCtr := Next(old(sendCtr)))
    {
      hide AeadSeal;
      var c := Aead.Seal(chacha, msg, [], sendKey, Nonce(sendCtr));
      sendCtr := Next(sendCtr);
      out.Put(c);
    }

    /** rd_channel_open: a rejected message changes nothing. */
    method Open(c: seq<byte>) returns (m: Option<seq<byte>>)
      requires |c| < TWO64
      modifies this`recvCtr
      ensures m == Opened(chacha, old(recvKey), old(recvCtr), c)
      ensures View() == if m.None? then old(View()) else old(View()).(recvCtr := Next(old(recvCtr)))
    {
      hide Stream, AeadTag;
      if |c| < TAG_LEN { return None; }
      m := Aead.Open(chacha, c, [], recvKey, Nonce(recvCtr));
      if m.None? { return; }
      recvCtr := Next(recvCtr);
    }
  }

  /** The bytes a message goes out as: sealed exactly when the channel is active. */
  function Wire(f: ChaCha, c: Chan, msg: seq<byte>): seq<byte> {
    if c.active then Sealed(f, c.sendKey, c.sendCtr, msg) else msg
  }

  function Framed(body: seq<byte>, masked: bool, key: WebSocket.Key): seq<byte> {
    WebSocket.Encode(WebSocket.Frame(true, 2, body), if masked then Some(key) else None)
  }

  /** Server::send_msg.  The direct path seals into the queue behind a header written
      first; the queue ends up as if the message had been sealed and then framed. */
  method SendMsg(ch: RdChannel, out: RdBuf, msg: seq<byte>, clientWs: bool, dead: bool, key: WebSocket.Key)
    requires out.Valid() && |msg| + TAG_LEN < TWO64
    modifies ch`sendCtr, out, out.data
    ensures out.Valid() && (out.data == old(out.data) || fresh(out.data))
    ensures dead ==> out.Contents() == old(out.Contents()) && ch.View() == old(ch.View())
    ensures !dead ==> out.Contents() == old(out.Contents()) + Framed(Wire(ch.chacha, old(ch.View()), msg), clientWs, key)
    ensures !dead ==> ch.View() == if ch.active then old(ch.View()).(sendCtr := Next(old(ch.sendCtr))) else old(ch.View())
  {
    hide Sealed, WebSocket.Encode;
    if dead { return; }
    if !ch.active {
      WebSocketIo.WriteFrame(out, 2, msg, clientWs, key);
      return;
    }
    ghost var sent := Sealed(ch.chacha, ch.sendKey, ch.sendCtr, msg);
    SealedSize(ch.chacha, ch.sendKey, ch.sendCtr, msg);
    if clientWs {
      var sealed := new RdBuf();
      ch.Seal(msg, sealed);
      var body := sealed.data[..sealed.len];
      assert body == [] + sent == sent;
      WebSocketIo.WriteFrame(out, 2, body, true, key);
      return;
    }
    WebSocketIo.WriteHeader(out, 2, |msg| + TAG_LEN);
    ch.Seal(msg, out);
    WebSocketIo.HeaderThenPayload(2, sent);
  }

  lemma SealedSize(f: ChaCha, key: Bytes32, ctr: u64, msg: seq<byte>)
    ensures |Sealed(f, key, ctr, msg)| == |msg| + TAG_LEN
  {
  }
}
