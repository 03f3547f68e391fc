/** The texts that host, relay and viewer write for one another: the "open" order, the
    requests and their parameters, random names (relay/relay.cpp:105-139, 267-328,
    host/server.cpp:334-335, 560-566, host/main.cpp:183-188, client/app.cpp:48-59).
    What one side writes is what the other reads. */
module RelayText {
  import opened Bytes
  import WebSocket
  import opened RelayState
  import opened RelayEvents
  import opened RelayUpgrades
  import opened RelayLoop
  import Arith

  // ---------------------------------------------------------------- searching

  /** The first place of `c` in `s`, or its length. */
  function Find(s: string, c: char): (r: nat)
    ensures r <= |s| && c !in s[..r] && (r < |s| ==> s[r] == c)
  {
    if s == "" || s[0] == c then 0
    else
      var r := Find(s[1..], c);
      assert s[..1 + r] == [s[0]] + s[1..][..r];
      1 + r
  }

  /** A text without `c`, and then `c`, is found to end there. */
  lemma {:induction false} FindAt(a: string, c: char, b: string)
    requires c !in a
    ensures Find(a + [c] + b, c) == |a| && Find(a, c) == |a|
  {
    if a != "" {
      FindAt(a[1..], c, b);
      assert (a + [c] + b)[1..] == a[1..] + [c] + b;
    }
  }

  // ----------------------------------------------------- the order to connect

  /** Bytes as the characters of a std::string. */
  function Chars(b: seq<byte>): (s: string)
    ensures |s| == |b|
  {
    seq(|b|, i requires 0 <= i < |b| => (b[i] as int) as char)
  }

  predicate Plain(s: string) {
    forall c :: c in s ==> c as int < 0x100
  }

  lemma CharsOfAscii(s: string)
    requires Plain(s)
    ensures Chars(Ascii(s)) == s
  {
    forall i | 0 <= i < |s| ensures Chars(Ascii(s))[i] == s[i] { assert s[i] in s; }
  }

  datatype Order = Order(ticket: string, ip: string)

  /** How the host reads a TEXT message on its control connection. */
  function ReadOpen(p: seq<byte>): Option<Order> {
    if !(5 < |p| < 256) || p[..5] != Ascii("open ") then None
    else
      var cmd := Chars(p[5..]);
      var sp := Find(cmd, ' ');
      Some(Order(cmd[..sp], if sp == |cmd| then "" else cmd[sp + 1..]))
  }

  /** The host reads the relay's order back, ticket and address, exactly when it is shorter
      than 256 bytes. */
  lemma OpenIsRead(ticket: string, ip: string)
    requires Plain(ticket) && Plain(ip) && ' ' !in ticket
    ensures ReadOpen(OpenText(ticket, ip)) == if |ticket| + |ip| < 250 then Some(Order(ticket, ip)) else None
  {
    hide Find, Ascii, Chars, OpenText;
    var cmd := ticket + [' '] + ip;
    OpenParts(ticket, ip);
    CharsOfAscii(cmd);
    FindAt(ticket, ' ', ip);
    assert cmd[..|ticket|] == ticket && cmd[|ticket| + 1..] == ip;
  }

  lemma OpenParts(ticket: string, ip: string)
    ensures var p, cmd := OpenText(ticket, ip), ticket + [' '] + ip;
      |p| == 6 + |ticket| + |ip| && p[..5] == Ascii("open ") && p[5..] == Ascii(cmd)
  {
    var cmd := ticket + [' '] + ip;
    assert "open " + ticket + " " + ip == "open " + cmd;
    assert Ascii("open " + cmd) == Ascii("open ") + Ascii(cmd);
  }

  // --------------------------------------------------------------- parameters

  datatype Pair = Pair(name: string, value: string)

  /** name=value, joined by ampersands. */
  function Joined(ps: seq<Pair>): string
    requires ps != []
  {
    ps[0].name + "=" + ps[0].value + if |ps| == 1 then "" else "&" + Joined(ps[1..])
  }

  /** The value of the first pair of that name, or nothing. */
  function Lookup(ps: seq<Pair>, name: string): string {
    if ps == [] then "" else if ps[0].name == name then ps[0].value else Lookup(ps[1..], name)
  }

  /** The parameter as it is looked for in a query string. */
  function Query(qs: string, name: string): string
    decreases |qs|
  {
    var amp := Find(qs, '&');
    var kv := qs[..amp];
    var eq := Find(kv, '=');
    if eq < |kv| && kv[..eq] == name then kv[eq + 1..]
    else if amp == |qs| then ""
    else Query(qs[amp + 1..], name)
  }

  function Param(target: string, name: string): string {
    var q := Find(target, '?');
    if q == |target| then "" else Query(target[q + 1..], name)
  }

  lemma QueryStep(qs: string, name: string)
    ensures var amp := Find(qs, '&');
      var kv := qs[..amp];
      var eq := Find(kv, '=');
      Query(qs, name) == if eq < |kv| && kv[..eq] == name then kv[eq + 1..]
                         else if amp == |qs| then "" else Query(qs[amp + 1..], name)
  {
  }

  /** query_param. */
  method QueryParam(target: string, name: string) returns (v: string)
    ensures v == Param(target, name)
  {
    hide Query, Find;
    var q := Find(target, '?');
    if q == |target| { return ""; }
    var qs := target[q + 1..];
    var pos := 0;
    assert qs[0..] == qs;
    while pos <= |qs|
      invariant 0 <= pos <= |qs| && Query(qs[pos..], name) == Query(qs, name)
      decreases |qs| - pos
    {
      QueryStep(qs[pos..], name);
      var amp := Find(qs[pos..], '&');
      var kv := qs[pos..][..amp];
      var eq := Find(kv, '=');
      if eq < |kv| && kv[..eq] == name { return kv[eq + 1..]; }
      if pos + amp == |qs| { return ""; }
      assert qs[pos..][amp + 1..] == qs[pos + amp + 1..];
      pos := pos + amp + 1;
    }
  }

  predicate Clean(ps: seq<Pair>) {
    forall i :: 0 <= i < |ps| ==> '&' !in ps[i].name && '=' !in ps[i].name && '&' !in ps[i].value
  }

  /** Every parameter of a query made of such pairs is found. */
  lemma {:induction false} JoinedIsRead(ps: seq<Pair>, name: string)
    requires ps != [] && Clean(ps)
    ensures Query(Joined(ps), name) == Lookup(ps, name)
  {
    var kv := ps[0].name + ['='] + ps[0].value;
    assert '&' !in ps[0].name && '=' !in ps[0].name && '&' !in ps[0].value;
    FindAt(ps[0].name, '=', ps[0].value);
    assert kv[..|ps[0].name|] == ps[0].name && kv[|ps[0].name| + 1..] == ps[0].value;
    if |ps| == 1 {
      assert Joined(ps) == kv;
      FindAt(kv, '&', "");
      assert kv[..|kv|] == kv && ps[1..] == [];
    } else {
      var more := Joined(ps[1..]);
      assert Joined(ps) == kv + ['&'] + more;
      FindAt(kv, '&', more);
      assert Joined(ps)[..|kv|] == kv && Joined(ps)[|kv| + 1..] == more;
      JoinedIsRead(ps[1..], name);
    }
  }

  // ----------------------------------------------------------------- requests

  /** The relay's dispatch on the path of a WebSocket request. */
  function RequestOf(target: string): Request {
    var path := target[..Find(target, '?')];
    if path == "/host" then Host(Param(target, "id"), Param(target, "key"))
    else if path == "/data" then Data(Param(target, "id"), Param(target, "key"), Param(target, "ticket"))
    else if "/v/" <= path then View(path[3..])
    else Unknown
  }

  function HostTarget(id: string, key: string): string {
    "/host?id=" + id + "&key=" + key
  }

  function DataTarget(id: string, key: string, ticket: string): string {
    "/data?id=" + id + "&key=" + key + "&ticket=" + ticket
  }

  function ViewTarget(id: string): string {
    "/v/" + id
  }

  /** A target with a path and a query of pairs. */
  lemma TargetIsRead(path: string, ps: seq<Pair>, name: string)
    requires '?' !in path && ps != [] && Clean(ps)
    ensures var t := path + ['?'] + Joined(ps);
      Find(t, '?') == |path| && t[..|path|] == path && Param(t, name) == Lookup(ps, name)
  {
    var t := path + ['?'] + Joined(ps);
    FindAt(path, '?', Joined(ps));
    assert t[|path| + 1..] == Joined(ps);
    JoinedIsRead(ps, name);
  }

  /** The relay reads the host's requests, and the viewer's, as they were meant. */
  lemma RequestsAreRead(id: string, key: string, ticket: string)
    requires '&' !in id && '&' !in key && '&' !in ticket && '?' !in id
    ensures RequestOf(HostTarget(id, key)) == Host(id, key)
    ensures RequestOf(DataTarget(id, key, ticket)) == Data(id, key, ticket)
    ensures RequestOf(ViewTarget(id)) == View(id)
  {
    hide RequestOf, HostTarget, DataTarget, ViewTarget;
    HostIsRead(id, key);
    DataIsRead(id, key, ticket);
    ViewIsRead(id);
  }

  lemma HostIsRead(id: string, key: string)
    requires '&' !in id && '&' !in key
    ensures RequestOf(HostTarget(id, key)) == Host(id, key)
  {
    hide Param, Find, Joined, Lookup;
    var two := [Pair("id", id), Pair("key", key)];
    JoinedTwo(id, key);
    assert HostTarget(id, key) == "/host" + ['?'] + Joined(two);
    TargetIsRead("/host", two, "id");
    TargetIsRead("/host", two, "key");
    Lookups(id, key, "");
  }

  lemma DataIsRead(id: string, key: string, ticket: string)
    requires '&' !in id && '&' !in key && '&' !in ticket
    ensures RequestOf(DataTarget(id, key, ticket)) == Data(id, key, ticket)
  {
    hide Param, Find, Joined, Lookup;
    var three := [Pair("id", id), Pair("key", key)] + [Pair("ticket", ticket)];
    JoinedThree(id, key, ticket);
    assert DataTarget(id, key, ticket) == "/data" + ['?'] + Joined(three);
    TargetIsRead("/data", three, "id");
    TargetIsRead("/data", three, "key");
    TargetIsRead("/data", three, "ticket");
    Lookups(id, key, ticket);
    assert "/data" != "/host" by { assert "/data"[1] != "/host"[1]; }
  }

  lemma ViewIsRead(id: string)
    requires '?' !in id
    ensures RequestOf(ViewTarget(id)) == View(id)
  {
    hide Param, Find;
    NoQuery(id);
    var v := ViewTarget(id);
    assert v[..|v|] == v && v[1] == 'v' && "/host"[1] == 'h' && "/data"[1] == 'd';
  }

  lemma NoQuery(id: string)
    requires '?' !in id
    ensures Find(ViewTarget(id), '?') == |ViewTarget(id)| && ViewTarget(id)[3..] == id && "/v/" <= ViewTarget(id)
  {
    var v := ViewTarget(id);
    assert '?' !in v;
    FindAt(v, '?', "");
  }

  lemma JoinedTwo(id: string, key: string)
    ensures Joined([Pair("id", id), Pair("key", key)]) == "id=" + id + "&key=" + key
  {
    var ps := [Pair("id", id), Pair("key", key)];
    assert ps[1..] == [Pair("key", key)];
    assert Joined([Pair("key", key)]) == "key" + "=" + key + "";
  }

  lemma JoinedThree(id: string, key: string, ticket: string)
    ensures Joined([Pair("id", id), Pair("key", key)] + [Pair("ticket", ticket)])
         == "id=" + id + "&key=" + key + "&ticket=" + ticket
  {
    var ps := [Pair("id", id), Pair("key", key)] + [Pair("ticket", ticket)];
    assert ps[1..] == [Pair("key", key), Pair("ticket", ticket)] && ps[1..][1..] == [Pair("ticket", ticket)];
    assert Joined(ps[1..][1..]) == "ticket" + "=" + ticket + "";
    assert Joined(ps[1..]) == "key" + "=" + key + ("&" + Joined(ps[1..][1..]));
  }

  lemma Lookups(id: string, key: string, ticket: string)
    ensures var two := [Pair("id", id), Pair("key", key)];
      var three := two + [Pair("ticket", ticket)];
      && Lookup(two, "id") == id && Lookup(two, "key") == key
      && Lookup(three, "id") == id && Lookup(three, "key") == key && Lookup(three, "ticket") == ticket
  {
    var two := [Pair("id", id), Pair("key", key)];
    var three := two + [Pair("ticket", ticket)];
    assert two[1..] == [Pair("key", key)];
    assert three[1..] == [Pair("key", key), Pair("ticket", ticket)] && three[1..][1..] == [Pair("ticket", ticket)];
    assert |"id"| == 2 && |"key"| == 3 && |"ticket"| == 6;
    assert Lookup(three[1..][1..], "ticket") == ticket;
    assert Lookup(three[1..], "ticket") == ticket;
  }

  // ------------------------------------------------------------ random names

  function HexDigit(n: nat): (c: char)
    requires n < 16
  {
    if n < 10 then ('0' as int + n) as char else ('a' as int + n - 10) as char
  }

  function TwoDigits(b: byte): (s: string)
    ensures |s| == 2
  {
    [HexDigit(b as int / 16), HexDigit(b as int % 16)]
  }

  function HexOf(r: seq<byte>): (s: string)
    ensures |s| == 2 * |r|
  {
    if r == [] then ""
    else HexOf(r[..|r| - 1]) + TwoDigits(r[|r| - 1])
  }

  /** random_hex on the bytes it drew. */
  method RandomHex(r: seq<byte>) returns (s: string)
    ensures s == HexOf(r)
  {
    s := "";
    for i := 0 to |r|
      invariant s == HexOf(r[..i])
    {
      var b: int := r[i];
      assert r[..i + 1][..i] == r[..i];
      s := s + [HexDigit(b / 16)] + [HexDigit(b % 16)];
      assert TwoDigits(r[i]) == [HexDigit(b / 16)] + [HexDigit(b % 16)];
    }
    assert r[..|r|] == r;
  }

  /** Tickets and keys are valid where the relay asks for it, carry nothing that the texts
      around them use, and are as different as the bytes they were made of. */
  lemma HexIsValid(r: seq<byte>, q: seq<byte>)
    ensures ValidHex(HexOf(r), 2 * |r|) && Plain(HexOf(r)) && ' ' !in HexOf(r) && '&' !in HexOf(r)
    ensures HexOf(r) == HexOf(q) <==> r == q
  {
    hide HexOf;
    HexDigits(r);
    if |r| == |q| { HexDiffers(r, q); } else { HexSizes(r, q); }
  }

  lemma {:induction false} HexDigits(r: seq<byte>)
    ensures forall i :: 0 <= i < |HexOf(r)| ==> '0' <= HexOf(r)[i] <= '9' || 'a' <= HexOf(r)[i] <= 'f'
  {
    if r != [] { HexDigits(r[..|r| - 1]); }
  }

  lemma {:induction false} HexDiffers(r: seq<byte>, q: seq<byte>)
    requires |r| == |q|
    ensures HexOf(r) == HexOf(q) <==> r == q
  {
    hide HexOf;
    if r != [] {
      HexDiffers(r[..|r| - 1], q[..|r| - 1]);
      LastDigits(r, q);
    }
  }

  lemma HexSizes(r: seq<byte>, q: seq<byte>)
    ensures |HexOf(r)| == 2 * |r| && |HexOf(q)| == 2 * |q|
  {
  }

  /** And what the relay takes for a key is what such bytes give. */
  lemma {:induction false} HexIsMade(s: string, n: nat) returns (r: seq<byte>)
    requires ValidHex(s, 2 * n)
    ensures |r| == n && HexOf(r) == s
  {
    hide HexOf;
    if n == 0 {
      HexSizes([], []);
      return [];
    }
    var q := HexIsMade(s[..2 * (n - 1)], n - 1);
    var a, b := HexValue(s[2 * (n - 1)]), HexValue(s[2 * n - 1]);
    var last: byte := 16 * a + b;
    r := q + [last];
    assert last as int / 16 == a && last as int % 16 == b;
    assert r[..n - 1] == q;
    HexStep(r);
    assert s == s[..2 * (n - 1)] + TwoDigits(last);
  }

  function HexValue(c: char): (n: nat)
    requires '0' <= c <= '9' || 'a' <= c <= 'f'
    ensures n < 16 && HexDigit(n) == c
  {
    if c <= '9' then c as int - '0' as int else c as int - 'a' as int + 10
  }

  lemma LastDigits(r: seq<byte>, q: seq<byte>)
    requires r != [] && |q| == |r| && (HexOf(r[..|r| - 1]) == HexOf(q[..|r| - 1]) <==> r[..|r| - 1] == q[..|r| - 1])
    ensures HexOf(r) == HexOf(q) <==> r == q
  {
    hide HexOf, TwoDigits;
    var n := |r| - 1;
    if HexOf(r) == HexOf(q) {
      HexStep(r);
      HexStep(q);
      HexSizes(r[..n], q[..n]);
      SameEnds(HexOf(r[..n]), TwoDigits(r[n]), HexOf(q[..n]), TwoDigits(q[n]));
      DigitsDiffer(r[n], q[n]);
      SameButLast(r, q);
    }
  }

  lemma SameButLast(r: seq<byte>, q: seq<byte>)
    requires |r| == |q| > 0 && r[..|r| - 1] == q[..|r| - 1] && r[|r| - 1] == q[|r| - 1]
    ensures r == q
  {
    assert r == r[..|r| - 1] + [r[|r| - 1]];
  }

  lemma HexStep(r: seq<byte>)
    requires r != []
    ensures var n := |r| - 1; HexOf(r) == HexOf(r[..n]) + TwoDigits(r[n])
  {
  }

  lemma SameEnds<T>(a: seq<T>, x: seq<T>, b: seq<T>, y: seq<T>)
    requires |a| == |b|
    ensures a + x == b + y <==> a == b && x == y
  {
    if a + x == b + y {
      assert a == (a + x)[..|a|] && b == (b + y)[..|a|];
      assert x == (a + x)[|a|..] && y == (b + y)[|a|..];
    }
  }

  lemma DigitsDiffer(a: byte, b: byte)
    ensures TwoDigits(a) == TwoDigits(b) <==> a == b
  {
    assert TwoDigits(a)[0] == HexDigit(a as int / 16) && TwoDigits(b)[0] == HexDigit(b as int / 16);
    assert TwoDigits(a)[1] == HexDigit(a as int % 16) && TwoDigits(b)[1] == HexDigit(b as int % 16);
  }

  /** std::to_string. */
  function Decimal(n: nat): (s: string)
    ensures |s| > 0 && forall i :: 0 <= i < |s| ==> '0' <= s[i] <= '9'
  {
    if n < 10 then [('0' as int + n) as char] else Decimal(n / 10) + [('0' as int + n % 10) as char]
  }

  function Pow10(k: nat): nat {
    if k == 0 then 1 else 10 * Pow10(k - 1)
  }

  lemma {:induction false} DecimalLength(n: nat, k: nat)
    requires k >= 1 && n < Pow10(k) && (k == 1 || n >= Pow10(k - 1))
    ensures |Decimal(n)| == k
  {
    if k > 1 {
      assert Pow10(k) == 10 * Pow10(k - 1) && Pow10(k - 1) == 10 * Pow10(k - 2);
      DecimalLength(n / 10, k - 1);
    }
  }

  /** The id a host makes for itself of four random bytes. */
  function MadeId(r: seq<byte>): string
    requires |r| == 4
  {
    Decimal((r[0] as int * 0x100_0000 + r[1] as int * 0x1_0000 + r[2] as int * 0x100 + r[3] as int) % 900000000 + 100000000)
  }

  /** It is one the relay accepts, and it needs no quoting in a request. */
  lemma MadeIdIsValid(r: seq<byte>)
    requires |r| == 4
    ensures ValidId(MadeId(r)) && '&' !in MadeId(r) && '?' !in MadeId(r)
  {
    assert Pow10(8) == 100000000 && Pow10(9) == 1000000000;
    var n := (r[0] as int * 0x100_0000 + r[1] as int * 0x1_0000 + r[2] as int * 0x100 + r[3] as int) % 900000000 + 100000000;
    DecimalLength(n, 9);
    DigitsClean(MadeId(r));
  }

  lemma DigitsClean(id: string)
    requires forall i :: 0 <= i < |id| ==> '0' <= id[i] <= '9'
    ensures '&' !in id && '?' !in id && ' ' !in id && '-' !in id && Plain(id)
  {
  }

  // -------------------------------------------------------------- typed ids

  function Digits(s: string): string {
    if s == "" then "" else Digits(s[..|s| - 1]) + if '0' <= s[|s| - 1] <= '9' then [s[|s| - 1]] else ""
  }

  predicate Typed(c: char) {
    '0' <= c <= '9' || c == ' ' || c == '-'
  }

  /** relay_id_of: the nine digits of what was typed, with spaces and hyphens anywhere. */
  method RelayIdOf(s: string) returns (id: string)
    ensures id == if (forall i :: 0 <= i < |s| ==> Typed(s[i])) && |Digits(s)| == 9 then Digits(s) else ""
    ensures id == "" || ValidId(id)
  {
    var d := "";
    for i := 0 to |s|
      invariant d == Digits(s[..i]) && (forall k :: 0 <= k < i ==> Typed(s[k]))
      invariant forall k :: 0 <= k < |d| ==> '0' <= d[k] <= '9'
    {
      assert s[..i + 1][..i] == s[..i];
      if '0' <= s[i] <= '9' {
        d := d + [s[i]];
      } else if s[i] != ' ' && s[i] != '-' {
        return "";
      }
    }
    assert s[..|s|] == s;
    id := if |d| == 9 then d else "";
  }

  function PrettyId(id: string): string {
    if |id| == 9 then id[..3] + " " + id[3..6] + " " + id[6..] else id
  }

  /** An id is nine digits and nothing else. */
  lemma IdIsDigits(id: string)
    ensures ValidId(id) <==> Digits(id) == id && |id| == 9
  {
    hide Digits;
    if ValidId(id) { DigitsAll(id); }
    DigitsOnly(id);
  }

  lemma {:induction false} DigitsOnly(s: string)
    ensures forall i :: 0 <= i < |Digits(s)| ==> '0' <= Digits(s)[i] <= '9'
  {
    if s != "" { DigitsOnly(s[..|s| - 1]); }
  }

  /** What is shown can be typed in again. */
  lemma PrettyIsRead(id: string)
    requires ValidId(id)
    ensures Digits(PrettyId(id)) == id && forall i :: 0 <= i < |PrettyId(id)| ==> Typed(PrettyId(id)[i])
  {
    hide Digits;
    DigitsJoin(id[..3] + " " + id[3..6] + " ", id[6..]);
    DigitsJoin(id[..3] + " " + id[3..6], " ");
    DigitsJoin(id[..3] + " ", id[3..6]);
    DigitsJoin(id[..3], " ");
    DigitsAll(id[..3]);
    DigitsAll(id[3..6]);
    DigitsAll(id[6..]);
    DigitsNone();
  }

  lemma {:induction false} DigitsJoin(a: string, b: string)
    ensures Digits(a + b) == Digits(a) + Digits(b)
  {
    if b == "" {
      assert a + b == a;
    } else {
      DigitsJoin(a, b[..|b| - 1]);
      assert (a + b)[..|a + b| - 1] == a + b[..|b| - 1];
    }
  }

  lemma {:induction false} DigitsAll(s: string)
    requires forall i :: 0 <= i < |s| ==> '0' <= s[i] <= '9'
    ensures Digits(s) == s
  {
    if s != "" { DigitsAll(s[..|s| - 1]); }
  }

  lemma DigitsNone()
    ensures Digits(" ") == ""
  {
    assert " "[..0] == "";
  }

  // ------------------------------------------------------ from order to pair

  /** A data request with a ticket pairs with the viewer the ticket stands for, exactly when
      it names that viewer's id and the id's key. */
  lemma PairsByTicket(w: World, d: Conn, h: Http, id: string, key: string, t: string)
    requires Inv(w) && d in w.all && w.all[d].kind == Kind.Http && !w.all[d].dead && FreshTicket(w, h)
    requires h.request == Data(id, key, t)
    ensures Upgraded(w, d, h).Some? <==>
      id in w.hosts && w.hosts[id].key == key && t in w.tickets && w.tickets[t] in w.all && w.all[w.tickets[t]].id == id
    ensures Upgraded(w, d, h).Some? ==>
      var p, v := Upgraded(w, d, h).value, w.tickets[t];
      && d in p.all && v in p.all && p.all[d].peer == v && p.all[v].peer == d && v != d
      && t !in p.tickets && p.all[d].kind == HostData && !p.all[d].dead && !p.all[v].dead
  {
    hide InvBut, Replay;
    if t in w.tickets { WaitingViewer(w, t); }
  }

  /** In every reachable state, when a viewer asks for an id that is online: the last frame
      put on that id's control connection is a TEXT from which the host reads a ticket and
      the viewer's address; the ticket stands for this very viewer; and the data request
      the host then writes pairs with it. */
  lemma {:induction false} OrderReachesViewer(es: seq<Event>, c: Conn, h: Http, id: string, r: seq<byte>)
    requires c in Run(es).all && Run(es).all[c].kind == Kind.Http && !Run(es).all[c].dead && FreshTicket(Run(es), h)
    requires h.request == RequestOf(ViewTarget(id)) && h.ticket == HexOf(r) && |r| == 16
    requires Plain(h.ip) && |h.ip| < 64 && ValidId(id) && HasCtl(Run(es), id)
    ensures Inv(Run(es)) && Upgraded(Run(es), c, h).Some?
    ensures var w, v := Run(es), Upgraded(Run(es), c, h).value;
      var ctl := w.hosts[id].ctl;
      && ctl in w.all && ctl in v.all && !v.all[ctl].dead
      && (exists text :: v.all[ctl].frames == w.all[ctl].frames + [WebSocket.Frame(true, WebSocket.TEXT, text)]
                         && ReadOpen(text) == Some(Order(h.ticket, h.ip)))
      && h.ticket in v.tickets && v.tickets[h.ticket] == c
      && (ValidHex(w.hosts[id].key, 32) ==> AnswersOrder(v, c, DataTarget(id, w.hosts[id].key, h.ticket)))
  {
    hide Run, InvBut, RequestOf, DataTarget, ViewTarget, OpenText, ReadOpen, HexOf, AnswersOrder;
    var w := Run(es);
    RunKeeps(es);
    DigitsClean(id);
    HexIsValid(r, r);
    ViewIsRead(id);
    OpenIsRead(h.ticket, h.ip);
    CtlOf(w, id);
    Announced(w, c, h, id);
    var v := Upgraded(w, c, h).value;
    if ValidHex(w.hosts[id].key, 32) {
      HexClean(w.hosts[id].key);
      DataIsRead(id, w.hosts[id].key, h.ticket);
      OrderAnswered(v, c, id, w.hosts[id].key, h.ticket, DataTarget(id, w.hosts[id].key, h.ticket));
    }
  }

  lemma HexClean(s: string)
    requires ValidHex(s, 32)
    ensures '&' !in s
  {
  }

  /** Any new connection that sends this target becomes the viewer's peer. */
  ghost predicate AnswersOrder(v: World, c: Conn, target: string) {
    Inv(v) && c in v.all &&
    forall d, h :: d in v.all && v.all[d].kind == Kind.Http && !v.all[d].dead && FreshTicket(v, h)
                   && h.request == RequestOf(target) ==>
      Upgraded(v, d, h).Some? && Answered(Upgraded(v, d, h).value, c, d)
  }

  ghost predicate Answered(p: World, c: Conn, d: Conn) {
    c in p.all && d in p.all && p.all[d].peer == c && p.all[c].peer == d
  }

  lemma OrderAnswered(v: World, c: Conn, id: string, key: string, t: string, target: string)
    requires Inv(v) && c in v.all && t in v.tickets && v.tickets[t] == c && v.all[c].id == id
    requires id in v.hosts && v.hosts[id].key == key && RequestOf(target) == Data(id, key, t)
    ensures AnswersOrder(v, c, target)
  {
    hide InvBut, RequestOf;
    forall d, h | d in v.all && v.all[d].kind == Kind.Http && !v.all[d].dead && FreshTicket(v, h)
                  && h.request == RequestOf(target)
      ensures Upgraded(v, d, h).Some? && Answered(Upgraded(v, d, h).value, c, d)
    {
      PairsByTicket(v, d, h, id, key, t);
    }
  }

  /** What an accepted view request does to the state. */
  lemma Announced(w: World, c: Conn, h: Http, id: string)
    requires Inv(w) && c in w.all && w.all[c].kind == Kind.Http && !w.all[c].dead && FreshTicket(w, h)
    requires h.request == View(id) && ValidId(id) && HasCtl(w, id)
    ensures Upgraded(w, c, h).Some?
    ensures var v := Upgraded(w, c, h).value;
      var ctl := w.hosts[id].ctl;
      && Inv(v) && ctl in w.all && ctl in v.all && !v.all[ctl].dead && c in v.all && v.all[c].id == id
      && v.all[ctl].frames == w.all[ctl].frames + [WebSocket.Frame(true, WebSocket.TEXT, OpenText(h.ticket, h.ip))]
      && h.ticket in v.tickets && v.tickets[h.ticket] == c && v.hosts == w.hosts
  {
    hide InvBut, OpenText;
    CtlOf(w, id);
  }
}
