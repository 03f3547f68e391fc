/** rd_decode_tile (common/rd_codec.c:261-332): the payload is checked, decoded
    and written through a stride into the framebuffer. */
module TileDecode {
  import opened Bytes
  import opened TileFormat
  import opened Arith
  import TilePack
  import Lz

  function Splice<T>(s: seq<T>, at: nat, row: seq<T>): (r: seq<T>)
    requires at + |row| <= |s|
    ensures |r| == |s|
  {
    s[..at] + row + s[at + |row|..]
  }

  predicate Fits(size: nat, at: nat, ds: nat, w: nat, h: nat) {
    forall y :: 0 <= y < h ==> Start(at, ds, y) + w <= size
  }

  function Start(at: nat, ds: nat, y: nat): nat {
    at + y * ds
  }

  predicate InWindow(k: int, at: nat, ds: nat, w: nat, h: nat) {
    exists y :: 0 <= y < h && Start(at, ds, y) <= k < Start(at, ds, y) + w
  }

  /** `s` with the rows of a w x h picture written at `at`, `ds` apart. */
  ghost function Blit<T>(s: seq<T>, at: nat, ds: nat, px: seq<T>, w: nat, h: nat): (r: seq<T>)
    requires |px| == w * h && Fits(|s|, at, ds, w, h)
    ensures |r| == |s|
  {
    if h == 0 then s
    else
      TilePack.Strides(w, h - 1, h);
      Splice(Blit(s, at, ds, px[..w * (h - 1)], w, h - 1), Start(at, ds, h - 1), px[w * (h - 1)..])
  }

  lemma BlitNone<T>(s: seq<T>, at: nat, ds: nat, w: nat)
    ensures Blit(s, at, ds, [], w, 0) == s
  {
  }

  lemma BlitSnoc<T>(s: seq<T>, at: nat, ds: nat, px: seq<T>, w: nat, h: nat, y: nat)
    requires |px| == w * h && Fits(|s|, at, ds, w, h) && y < h
    ensures w * y <= w * (y + 1) <= |px| && |px[w * y..w * (y + 1)]| == w
    ensures Blit(s, at, ds, px[..w * (y + 1)], w, y + 1)
         == Splice(Blit(s, at, ds, px[..w * y], w, y), Start(at, ds, y), px[w * y..w * (y + 1)])
  {
    TilePack.Strides(w, y, h);
    assert px[..w * (y + 1)][..w * y] == px[..w * y];
    assert px[..w * (y + 1)][w * y..] == px[w * y..w * (y + 1)];
  }

  /** Nothing outside the window changes. */
  lemma {:induction false} BlitOutside<T>(s: seq<T>, at: nat, ds: nat, px: seq<T>, w: nat, h: nat, k: nat)
    requires |px| == w * h && Fits(|s|, at, ds, w, h) && k < |s| && !InWindow(k, at, ds, w, h)
    ensures Blit(s, at, ds, px, w, h)[k] == s[k]
  {
    if h != 0 {
      TilePack.Strides(w, h - 1, h);
      if InWindow(k, at, ds, w, h - 1) { assert false; }
      BlitOutside(s, at, ds, px[..w * (h - 1)], w, h - 1, k);
      assert !(Start(at, ds, h - 1) <= k < Start(at, ds, h - 1) + w);
    }
  }

  /** Inside the window the picture shows, provided rows do not overlap. */
  lemma {:induction false} BlitInside<T>(s: seq<T>, at: nat, ds: nat, px: seq<T>, w: nat, h: nat, x: nat, y: nat)
    requires |px| == w * h && Fits(|s|, at, ds, w, h) && x < w <= ds && y < h
    ensures w * y + x < w * h
    ensures Blit(s, at, ds, px, w, h)[Start(at, ds, y) + x] == px[w * y + x]
  {
    hide Start, Fits, Blit, Splice;
    TilePack.Strides(w, y, h);
    TilePack.Strides(w, h - 1, h);
    FitsLess(|s|, at, ds, w, h);
    var n := w * (h - 1);
    BlitLast(s, at, ds, px, w, h);
    var above := Blit(s, at, ds, px[..n], w, h - 1);
    if y < h - 1 {
      BlitInside(s, at, ds, px[..n], w, h - 1, x, y);
      StartMono(at, ds, y, h - 1);
    }
    SpliceAt(above, Start(at, ds, h - 1), px[n..], Start(at, ds, y) + x);
  }

  lemma BlitLast<T>(s: seq<T>, at: nat, ds: nat, px: seq<T>, w: nat, h: nat)
    requires |px| == w * h && Fits(|s|, at, ds, w, h) && h > 0
    ensures w * (h - 1) + w == |px| && Start(at, ds, h - 1) + w <= |s|
    ensures Blit(s, at, ds, px, w, h) == Splice(Blit(s, at, ds, px[..w * (h - 1)], w, h - 1), Start(at, ds, h - 1),
            px[w * (h - 1)..])
  {
    TilePack.Strides(w, h - 1, h);
  }

  lemma SpliceAt<T>(s: seq<T>, at: nat, row: seq<T>, k: nat)
    requires at + |row| <= |s| && k < at + |row|
    ensures Splice(s, at, row)[k] == if k < at then s[k] else row[k - at]
  {
  }

  lemma FitsLess(size: nat, at: nat, ds: nat, w: nat, h: nat)
    requires Fits(size, at, ds, w, h) && h > 0
    ensures Fits(size, at, ds, w, h - 1) && Start(at, ds, h - 1) + w <= size
  {
  }

  lemma StartMono(at: nat, ds: nat, y: nat, z: nat)
    requires y < z
    ensures Start(at, ds, y) + ds <= Start(at, ds, z)
  {
    MulMono(ds, y + 1, z);
    MulDist(ds, y, 1);
  }

  /** The nested loops that store a picture pixel by pixel. */
  method WritePixels(dst: array<u32>, at: nat, ds: nat, px: seq<Colour>, w: nat, h: nat)
    requires |px| == w * h && Fits(dst.Length, at, ds, w, h)
    modifies dst
    ensures dst[..] == Blit(old(dst[..]), at, ds, Opaque(px), w, h)
  {
    hide Blit, InWindow, Argb, Start;
    ghost var pic := Opaque(px);
    BlitNone(dst[..], at, ds, w);
    assert pic[..w * 0] == [];
    for y := 0 to h
      invariant w * y <= w * h
      invariant dst[..] == Blit(old(dst[..]), at, ds, pic[..w * y], w, y)
    {
      BlitSnoc(old(dst[..]), at, ds, pic, w, h, y);
      WriteRow(dst, Start(at, ds, y), px[w * y..w * (y + 1)]);
      assert Opaque(px[w * y..w * (y + 1)]) == pic[w * y..w * (y + 1)];
    }
    assert pic[..w * h] == pic;
  }

  method WriteRow(dst: array<u32>, start: nat, row: seq<Colour>)
    requires start + |row| <= dst.Length
    modifies dst
    ensures dst[..] == Splice(old(dst[..]), start, Opaque(row))
  {
    for x := 0 to |row|
      invariant dst[..] == Splice(old(dst[..]), start, Opaque(row[..x]))
    {
      ghost var before := dst[..];
      dst[start + x] := Argb(row[x]);
      assert Opaque(row[..x + 1]) == Opaque(row[..x]) + [Argb(row[x])];
      assert dst[..] == before[start + x := Argb(row[x])];
    }
    assert row[..|row|] == row;
  }

  predicate AllBelow(idx: seq<byte>, np: nat) {
    forall x :: 0 <= x < |idx| ==> idx[x] < np
  }

  /** One row of a palette tile; stops at the first index outside the palette. */
  method WritePaletteRow(dst: array<u32>, start: nat, row: seq<byte>, w: nat, bpp: nat, pal: seq<Colour>)
    returns (ok: bool)
    requires IsBpp(bpp) && |row| == RowBytes(w, bpp) && start + w <= dst.Length
    modifies dst
    ensures ok <==> AllBelow(UnpackRow(row, w, bpp), |pal|)
    ensures ok ==> dst[..] == Splice(old(dst[..]), start, Opaque(Looked(UnpackRow(row, w, bpp), pal)))
    ensures forall k :: 0 <= k < dst.Length && !(start <= k < start + w) ==> dst[k] == old(dst[k])
  {
    hide RowBytes, Slot, ByteNo, SlotNo, Argb, Splice, UnpackRow, Looked;
    ghost var idx := UnpackRow(row, w, bpp);
    ghost var s := dst[..];
    assert Splice(s, start, []) == s by { SpliceNone(s, start); }
    assert Opaque(Looked(idx[..0], pal)) == [];
    for x := 0 to w
      invariant AllBelow(idx[..x], |pal|)
      invariant dst[..] == Splice(s, start, Opaque(Looked(idx[..x], pal)))
      invariant forall k :: 0 <= k < dst.Length && !(start <= k < start + w) ==> dst[k] == s[k]
    {
      SlotInRow(x, w, bpp);
      var i := Slot(row[ByteNo(x, bpp)], bpp, SlotNo(x, bpp));
      UnpackRowIndex(row, w, bpp, x);
      if i >= |pal| {
        assert idx[x] == i;
        return false;
      }
      PixelStep(s, dst[..], start, idx, pal, x);
      ghost var before := dst[..];
      dst[start + x] := Argb(pal[i]);
      assert dst[..] == before[start + x := Argb(pal[i])];
    }
    assert idx[..w] == idx;
    ok := true;
  }

  lemma SpliceNone<T>(s: seq<T>, at: nat)
    requires at <= |s|
    ensures Splice(s, at, []) == s
  {
  }

  lemma UnpackRowIndex(row: seq<byte>, w: nat, bpp: nat, x: nat)
    requires IsBpp(bpp) && |row| == RowBytes(w, bpp) && x < w
    ensures ByteNo(x, bpp) < |row| && UnpackRow(row, w, bpp)[x] == Slot(row[ByteNo(x, bpp)], bpp, SlotNo(x, bpp))
  {
    SlotInRow(x, w, bpp);
  }

  lemma PixelStep(s: seq<u32>, dst: seq<u32>, start: nat, idx: seq<byte>, pal: seq<Colour>, x: nat)
    requires x < |idx| && start + |idx| <= |s| && AllBelow(idx[..x], |pal|) && idx[x] < |pal|
    requires dst == Splice(s, start, Opaque(Looked(idx[..x], pal)))
    ensures AllBelow(idx[..x + 1], |pal|)
    ensures dst[start + x := Argb(pal[idx[x]])] == Splice(s, start, Opaque(Looked(idx[..x + 1], pal)))
  {
    hide Argb;
    assert idx[..x + 1] == idx[..x] + [idx[x]];
    assert Opaque(Looked(idx[..x + 1], pal)) == Opaque(Looked(idx[..x], pal)) + [Argb(pal[idx[x]])];
  }

  /** The colours a run of in-range indices stands for. */
  function Looked(idx: seq<byte>, pal: seq<Colour>): (px: seq<Colour>)
    requires forall i :: 0 <= i < |idx| ==> idx[i] < |pal|
    ensures |px| == |idx|
  {
    seq(|idx|, i requires 0 <= i < |idx| => pal[idx[i]])
  }

  /** The first `n` indices are in range and shown in the first `y` rows. */
  ghost predicate Shown(dst: seq<u32>, s: seq<u32>, at: nat, ds: nat, all: seq<byte>, pal: seq<Colour>, w: nat,
          h: nat, y: nat) {
    && y <= h && w * y <= w * h == |all| && Fits(|s|, at, ds, w, h)
    && (forall i :: 0 <= i < w * y ==> all[i] < |pal|)
    && dst == Blit(s, at, ds, Opaque(Looked(all[..w * y], pal)), w, y)
  }

  lemma ShownStart(s: seq<u32>, at: nat, ds: nat, all: seq<byte>, pal: seq<Colour>, w: nat, h: nat)
    requires |all| == w * h && Fits(|s|, at, ds, w, h)
    ensures Shown(s, s, at, ds, all, pal, w, h, 0)
  {
    BlitNone(s, at, ds, w);
    assert Opaque(Looked(all[..w * 0], pal)) == [];
  }

  lemma ShownStep(dst: seq<u32>, s: seq<u32>, at: nat, ds: nat, all: seq<byte>, pal: seq<Colour>, w: nat, h: nat, y: nat)
    requires Shown(dst, s, at, ds, all, pal, w, h, y) && y < h
    ensures w * y + w == w * (y + 1) <= |all| && Start(at, ds, y) + w <= |s| == |dst|
    ensures if AllBelow(all[w * y..w * (y + 1)], |pal|)
            then Shown(Splice(dst, Start(at, ds, y), Opaque(Looked(all[w * y..w * (y + 1)], pal))), s, at, ds, all,
                    pal, w, h, y + 1)
            else exists i :: 0 <= i < |all| && all[i] >= |pal|
  {
    hide Blit, Splice, Start, Argb;
    TilePack.Strides(w, y, h);
    var row := all[w * y..w * (y + 1)];
    if AllBelow(row, |pal|) {
      forall i | 0 <= i < w * (y + 1)
        ensures all[i] < |pal|
      {
        if i >= w * y { assert all[i] == row[i - w * y]; }
      }
      LookedJoin(s, at, ds, all, pal, w, h, y);
    } else {
      var x :| 0 <= x < |row| && row[x] >= |pal|;
      assert all[w * y + x] >= |pal|;
    }
  }

  lemma ShownEnd(dst: seq<u32>, s: seq<u32>, at: nat, ds: nat, all: seq<byte>, pal: seq<Colour>, w: nat, h: nat)
    requires Shown(dst, s, at, ds, all, pal, w, h, h)
    ensures forall i :: 0 <= i < |all| ==> all[i] < |pal|
    ensures dst == Blit(s, at, ds, Opaque(Looked(all, pal)), w, h)
  {
    assert all[..w * h] == all;
  }

  /** The rows of a palette tile, top down, until an index is out of range. */
  method WritePalette(dst: array<u32>, at: nat, ds: nat, packed: seq<byte>, w: nat, h: nat, bpp: nat, pal: seq<Colour>)
    returns (ok: bool)
    requires IsBpp(bpp) && |packed| == RowBytes(w, bpp) * h && Fits(dst.Length, at, ds, w, h)
    modifies dst
    ensures ok <==> forall i :: 0 <= i < w * h ==> Unpack(packed, w, h, bpp)[i] < |pal|
    ensures ok ==> dst[..] == Blit(old(dst[..]), at, ds, Opaque(Looked(Unpack(packed, w, h, bpp), pal)), w, h)
    ensures forall k :: 0 <= k < dst.Length && !InWindow(k, at, ds, w, h) ==> dst[k] == old(dst[k])
  {
    hide RowBytes, UnpackRow, Unpack, Blit, Start, Splice, InWindow, Shown, Argb;
    var rb := RowBytes(w, bpp);
    ghost var all := Unpack(packed, w, h, bpp);
    ghost var s := dst[..];
    ShownStart(s, at, ds, all, pal, w, h);
    for y := 0 to h
      invariant Shown(dst[..], s, at, ds, all, pal, w, h, y)
      invariant forall k :: 0 <= k < dst.Length && !InWindow(k, at, ds, w, h) ==> dst[k] == s[k]
    {
      UnpackRowAt(packed, w, h, bpp, y);
      RowInWindow(at, ds, w, h, y);
      ShownStep(dst[..], s, at, ds, all, pal, w, h, y);
      ok := WritePaletteRow(dst, Start(at, ds, y), packed[rb * y..rb * (y + 1)], w, bpp, pal);
      if !ok { return; }
    }
    ShownEnd(dst[..], s, at, ds, all, pal, w, h);
    ok := true;
  }

  lemma RowInWindow(at: nat, ds: nat, w: nat, h: nat, y: nat)
    requires y < h
    ensures forall k :: Start(at, ds, y) <= k < Start(at, ds, y) + w ==> InWindow(k, at, ds, w, h)
  {
  }

  lemma LookedJoin(s: seq<u32>, at: nat, ds: nat, all: seq<byte>, pal: seq<Colour>, w: nat, h: nat, y: nat)
    requires y < h && |all| == w * h && Fits(|s|, at, ds, w, h) && w * (y + 1) <= w * h
    requires forall i :: 0 <= i < w * (y + 1) ==> all[i] < |pal|
    ensures w * y <= w * (y + 1) && |all[w * y..w * (y + 1)]| == w
    ensures Blit(s, at, ds, Opaque(Looked(all[..w * (y + 1)], pal)), w, y + 1)
         == Splice(Blit(s, at, ds, Opaque(Looked(all[..w * y], pal)), w, y), Start(at, ds, y),
                   Opaque(Looked(all[w * y..w * (y + 1)], pal)))
  {
    hide Splice, Blit, Start;
    TilePack.Strides(w, y, h);
    var px := Opaque(Looked(all[..w * (y + 1)], pal));
    BlitSnoc(s, at, ds, px, w, y + 1, y);
    assert px[..w * (y + 1)] == px;
    assert px[..w * y] == Opaque(Looked(all[..w * y], pal));
    assert px[w * y..w * (y + 1)] == Opaque(Looked(all[w * y..w * (y + 1)], pal));
  }

  lemma {:induction false} UnpackRowAt(packed: seq<byte>, w: nat, h: nat, bpp: nat, y: nat)
    requires IsBpp(bpp) && |packed| == RowBytes(w, bpp) * h && y < h
    ensures w * y + w == w * (y + 1) <= w * h
    ensures RowBytes(w, bpp) * y + RowBytes(w, bpp) == RowBytes(w, bpp) * (y + 1) <= |packed|
    ensures Unpack(packed, w, h, bpp)[w * y..w * (y + 1)]
         == UnpackRow(packed[RowBytes(w, bpp) * y..RowBytes(w, bpp) * (y + 1)], w, bpp)
  {
    hide RowBytes, UnpackRow, Unpack;
    var rb := RowBytes(w, bpp);
    TilePack.Strides(w, y, h);
    TilePack.Strides(w, h - 1, h);
    TilePack.Strides(rb, y, h);
    TilePack.Strides(rb, h - 1, h);
    TilePack.UnpackSnoc(packed, w, h, bpp);
    var front := packed[..rb * (h - 1)];
    if y < h - 1 {
      UnpackRowAt(front, w, h - 1, bpp, y);
      assert front[rb * y..rb * (y + 1)] == packed[rb * y..rb * (y + 1)];
      assert Unpack(packed, w, h, bpp)[w * y..w * (y + 1)] == Unpack(front, w, h - 1, bpp)[w * y..w * (y + 1)];
    } else {
      assert packed[rb * y..] == packed[rb * y..rb * (y + 1)];
    }
  }

  lemma SampleIndex(w: nat, x: nat, y: nat, ch: nat)
    requires x < w && ch < 3
    ensures (3 * (w * y + x) + ch) / 3 == w * y + x && (w * y + x) % w == x && (w * y + x) / w == y
  {
    DivUnique(w * y + x, w, y, x);
  }

  ghost predicate Undone(t: seq<byte>, r: seq<byte>, w: nat, i: nat) {
    w > 0 && i <= |t| == |r| && t[..i] == Undo(r[..i], w) && t[i..] == r[i..]
  }

  lemma UndoStep(t: seq<byte>, r: seq<byte>, w: nat, x: nat, y: nat, ch: nat, i: nat)
    requires x < w && ch < 3 && i == 3 * (w * y + x) + ch && i < |t| && Undone(t, r, w, i)
    ensures (x > 0 ==> i >= 3) && (y > 0 ==> i >= 3 * w) && (x > 0 && y > 0 ==> i >= 3 * w + 3)
    ensures Undone(t[i := AddByte(t[i], PredictAt(t, w, x, y, i))], r, w, i + 1)
  {
    SampleIndex(w, x, y, ch);
    PredictorIndices(w, i);
    PredictLocal(t, w, i);
    assert t[i] == t[i..][0] == r[i];
    assert r[..i + 1][..i] == r[..i] && r[..i + 1][i] == r[i];
    var t' := t[i := AddByte(t[i], PredictAt(t, w, x, y, i))];
    assert t'[..i + 1] == t[..i] + [t'[i]];
    assert t'[i + 1..] == t[i..][1..] && r[i + 1..] == r[i..][1..];
  }

  /** Undoes the prediction in place, sample by sample: each depends only on earlier ones. */
  method UndoInPlace(t: array<byte>, w: nat, h: nat)
    requires w > 0 && t.Length == 3 * (w * h)
    modifies t
    ensures t[..] == Undo(old(t[..]), w)
  {
    hide Undone, Undo, PredictAt, AddByte;
    ghost var r := t[..];
    UndoneStart(r, w);
    var i := 0;
    for y := 0 to h
      invariant i == 3 * (w * y) && w * y <= w * h
      invariant Undone(t[..], r, w, i)
    {
      TilePack.Strides(w, y, h);
      for x := 0 to w
        invariant i == 3 * (w * y + x)
        invariant Undone(t[..], r, w, i)
      {
        for ch := 0 to 3
          invariant i == 3 * (w * y + x) + ch
          invariant Undone(t[..], r, w, i)
        {
          ghost var before := t[..];
          UndoStep(before, r, w, x, y, ch, i);
          t[i] := AddByte(t[i], PredictAt(t[..], w, x, y, i));
          assert t[..] == before[i := t[i]];
          i := i + 1;
        }
      }
    }
    UndoneEnd(t[..], r, w);
  }

  lemma UndoneStart(r: seq<byte>, w: nat)
    requires w > 0
    ensures Undone(r, r, w, 0)
  {
  }

  lemma UndoneEnd(t: seq<byte>, r: seq<byte>, w: nat)
    requires Undone(t, r, w, |t|)
    ensures t == Undo(r, w)
  {
    assert t[..|t|] == t && r[..|t|] == r;
  }

  method DecodePaletteTile(p: seq<byte>, w: nat, h: nat, dst: array<u32>, at: nat, ds: nat) returns (r: int)
    requires Fits(dst.Length, at, ds, w, h)
    modifies dst
    ensures r == if DecodePalette(p, w, h).Some? then 0 else -1
    ensures r == 0 ==> dst[..] == Blit(old(dst[..]), at, ds, Opaque(DecodePalette(p, w, h).value), w, h)
    ensures forall k :: 0 <= k < dst.Length && !InWindow(k, at, ds, w, h) ==> dst[k] == old(dst[k])
  {
    hide RowBytes, PaletteBits, Unpack, Blit, InWindow, Lz.Decode;
    if |p| < 1 { return -1; }
    var np: nat := p[0] as int + 1;
    var hdr := 1 + 3 * np;
    if |p| < hdr { return -1; }
    var pal := PaletteOf(p, np);
    var bpp := PaletteBits(np);
    var want := RowBytes(w, bpp) * h;
    var packed := new byte[want];
    var got := Lz.Decompress(p[hdr..], packed, want);
    if got != want { return -1; }
    assert packed[..want] == packed[..];
    ghost var idx := Unpack(packed[..], w, h, bpp);
    var ok := WritePalette(dst, at, ds, packed[..], w, h, bpp, pal);
    if !ok { return -1; }
    r := 0;
    assert Looked(idx, pal) == DecodePalette(p, w, h).value;
  }

  method DecodeZrgbTile(p: seq<byte>, w: nat, h: nat, dst: array<u32>, at: nat, ds: nat) returns (r: int)
    requires w > 0 && Fits(dst.Length, at, ds, w, h)
    modifies dst
    ensures r == if DecodeZrgb(p, w, h).Some? then 0 else -1
    ensures r == 0 ==> dst[..] == Blit(old(dst[..]), at, ds, Opaque(DecodeZrgb(p, w, h).value), w, h)
    ensures r != 0 ==> dst[..] == old(dst[..])
  {
    hide Undo, Blit, Lz.Decode, Recorrelate;
    var n := w * h;
    var t := new byte[3 * n];
    var got := Lz.Decompress(p, t, 3 * n);
    if got != 3 * n { return -1; }
    assert t[..3 * n] == t[..];
    UndoInPlace(t, w, h);
    var samples := t[..];
    var px := seq(n, i requires 0 <= i < n => Recorrelate(samples, i));
    assert px == DecodeZrgb(p, w, h).value;
    WritePixels(dst, at, ds, px, w, h);
    r := 0;
  }

  /** Decodes one payload into the window of `dst` at `at`: 0 and exactly the
      payload's pixels, or -1 for a payload that is rejected.  Nothing outside the
      window changes either way. */
  method Decode(enc: int, p: seq<byte>, w: int, h: int, dst: array<u32>, at: nat, ds: nat) returns (r: int)
    requires 0 < w <= TILE && 0 < h <= TILE ==> Fits(dst.Length, at, ds, w, h)
    modifies dst
    ensures r == if DecodeTile(enc, p, w, h).Some? then 0 else -1
    ensures r == 0 ==> dst[..] == Blit(old(dst[..]), at, ds, Opaque(DecodeTile(enc, p, w, h).value), w, h)
    ensures forall k :: 0 <= k < dst.Length && !(w > 0 && h > 0 && InWindow(k, at, ds, w, h)) ==> dst[k] == old(dst[k])
  {
    hide Blit, DecodePalette, DecodeZrgb, Fits;
    if w <= 0 || h <= 0 || w > TILE || h > TILE { return -1; }
    var n := w * h;
    ghost var before := dst[..];
    if enc == SOLID {
      if |p| != 3 { return -1; }
      WritePixels(dst, at, ds, seq(n, _ => RgbAt(p, 0)), w, h);
      assert seq(n, _ => RgbAt(p, 0)) == DecodeTile(enc, p, w, h).value;
    } else if enc == RAW {
      if |p| != 3 * n { return -1; }
      var px := seq(n, i requires 0 <= i < n => RgbAt(p, 3 * i));
      WritePixels(dst, at, ds, px, w, h);
      assert px == DecodeTile(enc, p, w, h).value;
    } else if enc == PALETTE {
      r := DecodePaletteTile(p, w, h, dst, at, ds);
      return r;
    } else if enc == ZRGB {
      r := DecodeZrgbTile(p, w, h, dst, at, ds);
      if r != 0 { return r; }
    } else {
      return -1;
    }
    BlitFrame(before, at, ds, Opaque(DecodeTile(enc, p, w, h).value), w, h);
    assert forall k :: 0 <= k < dst.Length ==> dst[k] == dst[..][k];
    r := 0;
  }

  lemma BlitFrame<T>(s: seq<T>, at: nat, ds: nat, px: seq<T>, w: nat, h: nat)
    requires |px| == w * h && Fits(|s|, at, ds, w, h)
    ensures forall k :: 0 <= k < |s| && !InWindow(k, at, ds, w, h) ==> Blit(s, at, ds, px, w, h)[k] == s[k]
  {
    forall k | 0 <= k < |s| && !InWindow(k, at, ds, w, h)
      ensures Blit(s, at, ds, px, w, h)[k] == s[k]
    {
      BlitOutside(s, at, ds, px, w, h, k);
    }
  }
}
