/** Palette building of rd_encode_tile (common/rd_codec.c): an open-addressed
    hash of colour to index.  The palette found has no duplicates, so a tile is
    a palette tile exactly when it has at most 256 colours. */
module Palette {
  import opened Bytes
  import opened TileFormat

  const SLOTS := 1024
  const MAX_COLOURS := 256

  function Home(c: u32): (s: nat)
    ensures s < SLOTS
  {
    c * 2654435761 % 0x1_0000_0000 / 0x40_0000 % SLOTS
  }

  /** The slot `e` steps after `home`, wrapping around. */
  function Probe(home: nat, e: nat): (s: nat)
    ensures s < SLOTS
  {
    (home + e) % SLOTS
  }

  function Distance(home: nat, s: nat): (e: nat)
    requires home < SLOTS && s < SLOTS
    ensures e < SLOTS && Probe(home, e) == s
    ensures forall d :: 0 <= d < SLOTS && Probe(home, d) == s ==> d == e
  {
    (s - home) % SLOTS
  }

  ghost function Colours(px: seq<Colour>): set<Colour> {
    set c | c in px
  }

  ghost predicate Distinct<T>(s: seq<T>) {
    forall i, j :: 0 <= i < j < |s| ==> s[i] != s[j]
  }

  lemma {:induction false} DistinctCount(s: seq<Colour>)
    requires Distinct(s)
    ensures |Colours(s)| == |s|
  {
    if s != [] {
      var last := s[|s| - 1];
      var front := s[..|s| - 1];
      DistinctCount(front);
      assert last !in Colours(front);
      assert Colours(s) == Colours(front) + {last};
    }
  }

  lemma SomeColour(px: seq<Colour>)
    requires |px| > 0
    ensures |Colours(px)| > 0
  {
    assert px[0] in Colours(px);
  }

  lemma {:induction false} CoverLength(where: seq<nat>, n: nat)
    requires forall s :: 0 <= s < n ==> s in where
    ensures n <= |where|
  {
    if n != 0 {
      assert n - 1 in where;
      var i :| 0 <= i < |where| && where[i] == n - 1;
      var rest := where[..i] + where[i + 1..];
      forall s | 0 <= s < n - 1
        ensures s in rest
      {
        assert s in where;
        var j :| 0 <= j < |where| && where[j] == s;
        if j < i { assert rest[j] == s; } else { assert rest[j - 1] == s; }
      }
      CoverLength(rest, n - 1);
    }
  }

  /** Slots and palette entries correspond one to one (`where` is the slot of
      each entry), and every slot between a colour's home and its slot is taken. */
  ghost predicate Table(slotIdx: seq<int>, slotCol: seq<u32>, pal: seq<Colour>, where: seq<nat>) {
    && |slotIdx| == |slotCol| == SLOTS && |where| == |pal| <= MAX_COLOURS
    && (forall s :: 0 <= s < SLOTS ==> slotIdx[s] < |pal|)
    && (forall s :: 0 <= s < SLOTS && slotIdx[s] >= 0 ==> slotCol[s] == pal[slotIdx[s]] && where[slotIdx[s]] == s)
    && (forall j :: 0 <= j < |where| ==> where[j] < SLOTS && slotIdx[where[j]] == j)
    && (forall s, e :: 0 <= s < SLOTS && slotIdx[s] >= 0 && 0 <= e < Distance(Home(slotCol[s]), s)
                       ==> slotIdx[Probe(Home(slotCol[s]), e)] >= 0)
  }

  lemma TableDistinct(slotIdx: seq<int>, slotCol: seq<u32>, pal: seq<Colour>, where: seq<nat>, s: nat, d: nat, c: Colour)
    requires Table(slotIdx, slotCol, pal, where)
    requires d < SLOTS && s == Probe(Home(c), d) && slotIdx[s] < 0
    requires forall e :: 0 <= e < d ==> slotCol[Probe(Home(c), e)] != c
    ensures c !in pal
  {
    forall j | 0 <= j < |pal|
      ensures pal[j] != c
    {
      var at := where[j];
      assert slotIdx[at] == j && slotCol[at] == pal[j];
      var e := Distance(Home(pal[j]), at);
      assert Probe(Home(pal[j]), e) == at;
    }
  }

  lemma TableNotFull(slotIdx: seq<int>, slotCol: seq<u32>, pal: seq<Colour>, where: seq<nat>, home: nat)
    requires Table(slotIdx, slotCol, pal, where) && home < SLOTS
    ensures exists e :: 0 <= e < SLOTS && slotIdx[Probe(home, e)] < 0
  {
    if forall e :: 0 <= e < SLOTS ==> slotIdx[Probe(home, e)] >= 0 {
      forall s: nat | s < SLOTS
        ensures s in where
      {
        var e := Distance(home, s);
        assert slotIdx[Probe(home, e)] >= 0;
        assert where[slotIdx[s]] == s;
      }
      CoverLength(where, SLOTS);
    }
  }

  lemma TableInsert(slotIdx: seq<int>, slotCol: seq<u32>, pal: seq<Colour>, where: seq<nat>, s: nat, d: nat, c: Colour)
    requires Table(slotIdx, slotCol, pal, where) && |pal| < MAX_COLOURS
    requires d < SLOTS && s == Probe(Home(c), d) && slotIdx[s] < 0
    requires forall e :: 0 <= e < d ==> slotIdx[Probe(Home(c), e)] >= 0
    ensures Table(slotIdx[s := |pal|], slotCol[s := c], pal + [c], where + [s])
  {
    assert Distance(Home(c), s) == d;
  }

  /** The first slot on the probe path of `c` that is free or holds `c`. */
  method FindSlot(slotIdx: array<int>, slotCol: array<u32>, ghost pal: seq<Colour>, ghost where: seq<nat>, c: Colour)
    returns (s: nat, ghost d: nat)
    requires Table(slotIdx[..], slotCol[..], pal, where)
    ensures d < SLOTS && s == Probe(Home(c), d)
    ensures slotIdx[s] >= 0 ==> slotCol[s] == c
    ensures forall e :: 0 <= e < d ==> slotIdx[Probe(Home(c), e)] >= 0 && slotCol[Probe(Home(c), e)] != c
  {
    hide Home, Probe;
    s, d := Home(c), 0;
    ProbeStart(s);
    while slotIdx[s] >= 0 && slotCol[s] != c
      invariant d < SLOTS && s == Probe(Home(c), d)
      invariant forall e :: 0 <= e < d ==> slotIdx[Probe(Home(c), e)] >= 0 && slotCol[Probe(Home(c), e)] != c
      decreases SLOTS - d
    {
      TableNotFull(slotIdx[..], slotCol[..], pal, where, Home(c));
      ProbeNext(Home(c), d);
      s := (s + 1) % SLOTS;
      d := d + 1;
    }
  }

  lemma ProbeStart(home: nat)
    requires home < SLOTS
    ensures Probe(home, 0) == home
  {
  }

  lemma ProbeNext(home: nat, d: nat)
    ensures (Probe(home, d) + 1) % SLOTS == Probe(home, d + 1)
  {
  }

  /** The outcome of the palette search over the first `n` pixels: the palette
      lists their colours once each, and `idx` names each pixel's entry. */
  ghost predicate Indexed(px: seq<Colour>, n: nat, pal: seq<Colour>, idx: seq<byte>) {
    && n <= |px| && n <= |idx| && |pal| <= MAX_COLOURS
    && Distinct(pal) && Colours(pal) == Colours(px[..n])
    && forall i :: 0 <= i < n ==> idx[i] < |pal| && pal[idx[i]] == px[i]
  }

  lemma IndexedAgain(px: seq<Colour>, n: nat, pal: seq<Colour>, idx: seq<byte>, i: byte)
    requires Indexed(px, n, pal, idx) && n < |px| && n < |idx| && i < |pal| && pal[i] == px[n]
    ensures Indexed(px, n + 1, pal, idx[n := i])
  {
    assert px[..n + 1] == px[..n] + [px[n]];
    assert px[n] in Colours(pal);
    assert Colours(px[..n + 1]) == Colours(px[..n]) + {px[n]};
  }

  lemma IndexedNew(px: seq<Colour>, n: nat, pal: seq<Colour>, idx: seq<byte>)
    requires Indexed(px, n, pal, idx) && n < |px| && n < |idx| && |pal| < MAX_COLOURS && px[n] !in pal
    ensures Indexed(px, n + 1, pal + [px[n]], idx[n := |pal|])
  {
    assert px[..n + 1] == px[..n] + [px[n]];
    assert Colours(px[..n + 1]) == Colours(px[..n]) + {px[n]};
    assert Colours(pal + [px[n]]) == Colours(pal) + {px[n]};
  }

  lemma TooMany(px: seq<Colour>, n: nat, pal: seq<Colour>, idx: seq<byte>)
    requires Indexed(px, n, pal, idx) && n < |px| && |pal| == MAX_COLOURS && px[n] !in pal
    ensures |Colours(px)| > MAX_COLOURS
  {
    DistinctCount(pal);
    assert px[n] !in Colours(pal);
    assert Colours(pal) + {px[n]} <= Colours(px);
    SubsetCount(Colours(pal) + {px[n]}, Colours(px));
  }

  lemma {:induction false} SubsetCount<T>(a: set<T>, b: set<T>)
    requires a <= b
    ensures |a| <= |b|
    decreases a
  {
    if a != {} {
      var x :| x in a;
      SubsetCount(a - {x}, b - {x});
    }
  }

  /** Adds `c` to the palette in slot `s`. */
  method Insert(slotIdx: array<int>, slotCol: array<u32>, pal: seq<Colour>, ghost where: seq<nat>, s: nat,
          ghost d: nat, c: Colour)
    returns (pal': seq<Colour>, ghost where': seq<nat>)
    requires Table(slotIdx[..], slotCol[..], pal, where) && |pal| < MAX_COLOURS
    requires d < SLOTS && s == Probe(Home(c), d) && slotIdx[s] < 0
    requires forall e :: 0 <= e < d ==> slotIdx[Probe(Home(c), e)] >= 0
    modifies slotIdx, slotCol
    ensures pal' == pal + [c] && Table(slotIdx[..], slotCol[..], pal', where')
    ensures slotIdx[s] == |pal|
  {
    hide Table, Home, Probe;
    TableSizes(slotIdx[..], slotCol[..], pal, where);
    ghost var si, sc := slotIdx[..], slotCol[..];
    TableInsert(si, sc, pal, where, s, d, c);
    slotIdx[s] := |pal|;
    slotCol[s] := c;
    pal' := pal + [c];
    where' := where + [s];
    assert slotIdx[..] == si[s := |pal|];
    assert slotCol[..] == sc[s := c as u32];
  }

  lemma TableSizes(slotIdx: seq<int>, slotCol: seq<u32>, pal: seq<Colour>, where: seq<nat>)
    requires Table(slotIdx, slotCol, pal, where)
    ensures |slotIdx| == |slotCol| == SLOTS
    ensures forall s :: 0 <= s < SLOTS && slotIdx[s] >= 0 ==> slotIdx[s] < |pal| && slotCol[s] == pal[slotIdx[s]]
  {
  }

  method EmptyTable() returns (slotIdx: array<int>, slotCol: array<u32>)
    ensures fresh(slotIdx) && fresh(slotCol) && Table(slotIdx[..], slotCol[..], [], [])
  {
    slotIdx := new int[SLOTS](_ => -1);
    slotCol := new u32[SLOTS](_ => 0);
  }

  /** Finds or adds the colour `c`; `full` when it is new and there are 256 already. */
  method IndexOf(slotIdx: array<int>, slotCol: array<u32>, pal: seq<Colour>, ghost where: seq<nat>, c: Colour)
    returns (full: bool, i: byte, pal': seq<Colour>, ghost where': seq<nat>)
    requires Table(slotIdx[..], slotCol[..], pal, where)
    modifies slotIdx, slotCol
    ensures full ==> c !in pal && |pal| == MAX_COLOURS
    ensures !full ==> Table(slotIdx[..], slotCol[..], pal', where') && i < |pal'| && pal'[i] == c
    ensures !full && c in pal ==> pal' == pal
    ensures !full && c !in pal ==> pal' == pal + [c] && i == |pal| < MAX_COLOURS
  {
    hide Table, Home, Probe;
    TableSizes(slotIdx[..], slotCol[..], pal, where);
    pal', where', i := pal, where, 0;
    var s; ghost var d;
    s, d := FindSlot(slotIdx, slotCol, pal, where, c);
    if slotIdx[s] < 0 {
      TableDistinct(slotIdx[..], slotCol[..], pal, where, s, d, c);
      PaletteSize(slotIdx[..], slotCol[..], pal, where);
      if |pal| == MAX_COLOURS { return true, i, pal', where'; }
      pal', where' := Insert(slotIdx, slotCol, pal, where, s, d, c);
    }
    TableSizes(slotIdx[..], slotCol[..], pal', where');
    PaletteSize(slotIdx[..], slotCol[..], pal', where');
    full, i := false, slotIdx[s];
  }

  lemma PaletteSize(slotIdx: seq<int>, slotCol: seq<u32>, pal: seq<Colour>, where: seq<nat>)
    requires Table(slotIdx, slotCol, pal, where)
    ensures |pal| <= MAX_COLOURS
  {
  }

  /** The whole search, with the last colour remembered between pixels. */
  method BuildPalette(px: seq<Colour>, idx: array<byte>) returns (isPal: bool, pal: seq<Colour>)
    requires 0 < |px| <= idx.Length
    modifies idx
    ensures isPal <==> |Colours(px)| <= MAX_COLOURS
    ensures isPal ==> |pal| == |Colours(px)| && Indexed(px, |px|, pal, idx[..])
  {
    hide Table, Indexed;
    var slotIdx, slotCol := EmptyTable();
    ghost var where: seq<nat> := [];
    var first: int := px[0];
    var last: u32 := 0xFFFF_FFFF - first;
    var lastI: byte := 0;
    isPal, pal := true, [];
    IndexedStart(px, idx[..]);
    for i := 0 to |px|
      invariant Table(slotIdx[..], slotCol[..], pal, where)
      invariant Indexed(px, i, pal, idx[..])
      invariant if i == 0 then last != px[0] else lastI < |pal| && pal[lastI] == last
    {
      ghost var before := idx[..];
      var c := px[i];
      if c == last {
        IndexedAgain(px, i, pal, before, lastI);
      } else {
        var full, found, pal', where' := IndexOf(slotIdx, slotCol, pal, where, c);
        if full {
          TooMany(px, i, pal, before);
          return false, pal;
        }
        ghost var known := c in pal;
        if known {
          IndexedAgain(px, i, pal, before, found);
        } else {
          IndexedNew(px, i, pal, before);
        }
        pal, where, last, lastI := pal', where', c, found;
      }
      idx[i] := lastI;
      assert idx[..] == before[i := lastI];
    }
    IndexedCount(px, pal, idx[..]);
  }

  lemma IndexedStart(px: seq<Colour>, idx: seq<byte>)
    ensures Indexed(px, 0, [], idx)
  {
  }

  lemma IndexedCount(px: seq<Colour>, pal: seq<Colour>, idx: seq<byte>)
    requires Indexed(px, |px|, pal, idx)
    ensures |pal| == |Colours(px)| <= MAX_COLOURS
  {
    assert px[..|px|] == px;
    DistinctCount(pal);
  }
}
