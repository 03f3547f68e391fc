/** rd_encode_tile (common/rd_codec.c:146-259): quantise, look for a palette,
    and append whichever of the four payloads applies. */
module TileEncode {
  import opened Bytes
  import opened TileFormat
  import opened Buffers
  import Palette
  import Arith
  import TilePack
  import Lz

  /** The 256-entry quantiser table. */
  method QuantTable(quality: int) returns (q: array<byte>)
    ensures fresh(q) && q.Length == 256
    ensures forall v: byte :: q[v] == QuantiseChannel(v, quality)
  {
    var step := Step(quality);
    var half := (step - 1) / 2;
    q := new byte[256];
    for v := 0 to 256
      invariant forall u: byte :: u < v ==> q[u] == QuantiseChannel(u, quality)
    {
      var s: int := if v + half > 255 then 255 else v + half;
      q[v] := s - s % step;
    }
  }

  method QuantiseRow(bgra: seq<byte>, at: nat, w: nat, q: seq<byte>, ghost quality: int, px: array<Colour>, start: nat)
    requires at + 4 * w <= |bgra| && start + w <= px.Length
    requires |q| == 256 && forall v: byte :: q[v] == QuantiseChannel(v, quality)
    modifies px
    ensures px[..start + w] == old(px[..start]) + QuantisedRow(bgra, at, w, quality)
  {
    hide QuantiseChannel;
    ghost var row := QuantisedRow(bgra, at, w, quality);
    for x := 0 to w
      invariant px[..start + x] == old(px[..start]) + row[..x]
    {
      ghost var before := px[..start + x];
      var b := at + 4 * x;
      px[start + x] := Rgb(q[bgra[b + 2]], q[bgra[b + 1]], q[bgra[b]]);
      assert px[..start + x + 1] == before + [row[x]];
    }
  }

  /** Reads a w x h window of BGRA bytes into quantised colours. */
  method QuantiseTile(bgra: seq<byte>, stride: nat, w: nat, h: nat, quality: int) returns (px: array<Colour>)
    requires Source(bgra, stride, w, h)
    ensures fresh(px) && px[..] == Quantised(bgra, stride, w, h, quality)
  {
    hide QuantiseChannel, RowStart, Quantised, QuantisedRow;
    var table := QuantTable(quality);
    var q := table[..];
    px := new Colour[w * h];
    QuantisedNone(bgra, stride, w, quality);
    assert px[..w * 0] == [];
    for y := 0 to h
      invariant w * y <= w * h && fresh(px)
      invariant px[..w * y] == Quantised(bgra, stride, w, y, quality)
    {
      TilePack.Strides(w, y, h);
      QuantiseRow(bgra, RowStart(stride, y), w, q, quality, px, w * y);
      QuantisedSnoc(bgra, stride, w, y + 1, quality);
    }
    assert px[..w * h] == px[..];
  }

  lemma QuantisedNone(bgra: seq<byte>, stride: nat, w: nat, quality: int)
    ensures Quantised(bgra, stride, w, 0, quality) == []
  {
  }

  lemma QuantisedSnoc(bgra: seq<byte>, stride: nat, w: nat, h: nat, quality: int)
    requires h > 0 && Source(bgra, stride, w, h)
    ensures Quantised(bgra, stride, w, h, quality)
         == Quantised(bgra, stride, w, h - 1, quality) + QuantisedRow(bgra, RowStart(stride, h - 1), w, quality)
  {
  }

  /** Green, red - green, blue - green. */
  method Decorrelate(px: seq<Colour>) returns (t: array<byte>)
    ensures fresh(t) && t[..] == Samples(px)
  {
    t := new byte[3 * |px|];
    for i := 0 to |px|
      invariant forall j :: 0 <= j < 3 * i ==> t[j] == Samples(px)[j]
    {
      var c := px[i];
      t[3 * i] := Green(c);
      t[3 * i + 1] := SubByte(Red(c), Green(c));
      t[3 * i + 2] := SubByte(Blue(c), Green(c));
    }
  }

  /** The residual of every sample against its prediction. */
  method PredictTile(t: seq<byte>, w: nat) returns (r: array<byte>)
    requires w > 0
    ensures fresh(r) && r[..] == Residuals(t, w)
  {
    hide Predict;
    r := new byte[|t|];
    for i := 0 to |t|
      invariant forall j :: 0 <= j < i ==> r[j] == Residuals(t, w)[j]
    {
      r[i] := SubByte(t[i], Predict(t, w, i));
    }
  }

  /** A payload that decodes to the wanted pixels within the size of raw RGB. */
  ghost predicate Encodes(enc: int, p: seq<byte>, px: seq<Colour>, w: nat, h: nat) {
    DecodeTile(enc, p, w, h) == Some(px) && |p| <= 3 * (w * h)
  }

  lemma SolidEncodes(px: seq<Colour>, c: Colour, w: nat, h: nat)
    requires 0 < w <= TILE && 0 < h <= TILE && |px| == w * h && forall i :: 0 <= i < |px| ==> px[i] == c
    ensures Encodes(SOLID, RgbBytes(c), px, w, h)
  {
    RgbOfParts(c);
    AreaPositive(w, h);
    assert seq(w * h, i => RgbAt(RgbBytes(c), 0)) == px;
    assert DecodeTile(SOLID, RgbBytes(c), w, h).value == px;
  }

  lemma AreaPositive(w: nat, h: nat)
    requires w > 0 && h > 0
    ensures w * h >= 1
  {
  }

  lemma RawEncodes(px: seq<Colour>, w: nat, h: nat)
    requires 0 < w <= TILE && 0 < h <= TILE && |px| == w * h
    ensures Encodes(RAW, RawBytes(px), px, w, h)
  {
    hide RawBytes, RgbAt;
    var p := RawBytes(px);
    forall i | 0 <= i < |px|
      ensures RgbAt(p, 3 * i) == px[i]
    {
      RawBytesAt(px, [], i);
      assert p + [] == p;
    }
    RawDecodes(px, p, w, h);
  }

  lemma RawDecodes(px: seq<Colour>, p: seq<byte>, w: nat, h: nat)
    requires 0 < w <= TILE && 0 < h <= TILE && |px| == w * h && |p| == 3 * |px|
    requires forall i :: 0 <= i < |px| ==> RgbAt(p, 3 * i) == px[i]
    ensures DecodeTile(RAW, p, w, h) == Some(px)
  {
    hide RgbAt;
    assert DecodeTile(RAW, p, w, h).value == px;
  }

  lemma ZrgbEncodes(px: seq<Colour>, z: seq<byte>, w: nat, h: nat)
    requires 0 < w <= TILE && 0 < h <= TILE && |px| == w * h
    requires Lz.Decode(z, 3 * |px|) == Some(Residuals(Samples(px), w)) && |z| <= 3 * |px|
    ensures Encodes(ZRGB, z, px, w, h)
  {
    hide Residuals, Samples, Recorrelate, Lz.Decode, Undo;
    var t := Samples(px);
    UndoResiduals(t, w, |t|);
    assert Residuals(t, w)[..|t|] == Residuals(t, w) && t[..|t|] == t;
    forall i | 0 <= i < |px|
      ensures Recorrelate(t, i) == px[i]
    {
      RecorrelateSamples(px, i);
    }
    assert Undo(Residuals(t, w), w) == t;
    assert DecodeZrgb(z, w, h).value == px;
  }

  function PalettePayload(pal: seq<Colour>, z: seq<byte>): seq<byte>
    requires 0 < |pal| <= 256
  {
    [|pal| - 1] + RawBytes(pal) + z
  }

  lemma PaletteEncodes(px: seq<Colour>, pal: seq<Colour>, idx: seq<byte>, packed: seq<byte>, z: seq<byte>, w: nat, h: nat)
    requires 0 < w <= TILE && 0 < h <= TILE && |px| == w * h == |idx| && 0 < |pal| <= 256
    requires forall i :: 0 <= i < |px| ==> idx[i] < |pal| && pal[idx[i]] == px[i]
    requires |packed| == RowBytes(w, PaletteBits(|pal|)) * h && Unpack(packed, w, h, PaletteBits(|pal|)) == idx
    requires Lz.Decode(z, |packed|) == Some(packed) && 1 + 3 * |pal| + |z| <= 3 * |px|
    ensures Encodes(PALETTE, PalettePayload(pal, z), px, w, h)
  {
    hide RowBytes, PaletteBits, Unpack, Lz.Decode, RgbAt, RawBytes;
    var p := PalettePayload(pal, z);
    assert p[0] == |pal| - 1;
    assert p[1 + 3 * |pal|..] == z;
    forall j | 0 <= j < |pal|
      ensures RgbAt(p, 1 + 3 * j) == pal[j]
    {
      RawBytesAt(pal, z, j);
      RgbShift(p, [|pal| - 1], RawBytes(pal) + z, 3 * j);
    }
    assert PaletteOf(p, |pal|) == pal;
    assert DecodePalette(p, w, h).value == px;
  }

  lemma RgbShift(p: seq<byte>, a: seq<byte>, b: seq<byte>, at: nat)
    requires p == a + b && at + 3 <= |b|
    ensures RgbAt(p, |a| + at) == RgbAt(b, at)
  {
  }

  const LZ_CAP := 3 * TILE * TILE + 3 * TILE * TILE / 255 + 16

  method PutRgb(out: RdBuf, c: Colour)
    requires out.Valid()
    modifies out, out.data
    ensures out.Valid() && out.Contents() == old(out.Contents()) + RgbBytes(c)
    ensures out.data == old(out.data) || fresh(out.data)
  {
    out.Put([Red(c), Green(c), Blue(c)]);
  }

  /** Appends colours as r, g, b; used for palettes and for the RAW fallback. */
  method PutColours(out: RdBuf, px: seq<Colour>)
    requires out.Valid()
    modifies out, out.data
    ensures out.Valid() && out.Contents() == old(out.Contents()) + RawBytes(px)
    ensures out.data == old(out.data) || fresh(out.data)
  {
    hide RgbBytes;
    RawBytesNone();
    for i := 0 to |px|
      invariant out.Valid() && out.Contents() == old(out.Contents()) + RawBytes(px[..i])
      invariant out.data == old(out.data) || fresh(out.data)
    {
      PutRgb(out, px[i]);
      assert px[..i + 1][..i] == px[..i] && px[..i + 1][i] == px[i];
    }
    assert px[..|px|] == px;
  }

  lemma RawBytesNone()
    ensures RawBytes([]) == []
  {
  }

  /** Compresses a scratch buffer; the capacity is always enough for a tile. */
  method Squeeze(work: seq<byte>) returns (z: seq<byte>)
    requires |work| <= 3 * TILE * TILE
    ensures Lz.Decode(z, |work|) == Some(work)
  {
    var lz := new byte[LZ_CAP];
    var n := Lz.Compress(work, lz, LZ_CAP);
    z := lz[..n];
  }

  lemma Area(w: nat, h: nat)
    requires 0 < w <= TILE && 0 < h <= TILE
    ensures 1 <= w * h <= TILE * TILE
    ensures forall bpp: nat :: IsBpp(bpp) ==> RowBytes(w, bpp) * h <= TILE * TILE
  {
    Arith.MulMono(w, h, TILE);
    Arith.MulMono(TILE, w, TILE);
    AreaPositive(w, h);
    forall bpp: nat | IsBpp(bpp)
      ensures RowBytes(w, bpp) * h <= TILE * TILE
    {
      assert RowBytes(w, bpp) <= TILE;
      Arith.MulMono(RowBytes(w, bpp), h, TILE);
      Arith.MulMono(TILE, RowBytes(w, bpp), TILE);
    }
  }

  /** Packs and compresses the indices; `ok` when the palette payload beats raw RGB. */
  method TryPalette(px: seq<Colour>, pal: seq<Colour>, idx: seq<byte>, w: nat, h: nat, out: RdBuf) returns (ok: bool)
    requires 0 < w <= TILE && 0 < h <= TILE && |px| == w * h <= |idx| && 0 < |pal| <= 256
    requires forall i :: 0 <= i < |px| ==> idx[i] < |pal| && pal[idx[i]] == px[i]
    requires out.Valid()
    modifies out, out.data
    ensures out.Valid() && (out.data == old(out.data) || fresh(out.data))
    ensures !ok ==> out.Contents() == old(out.Contents())
    ensures ok ==> old(out.len) <= out.len && out.Contents()[..old(out.len)] == old(out.Contents())
    ensures ok ==> Encodes(PALETTE, out.Contents()[old(out.len)..], px, w, h)
  {
    hide RowBytes, Unpack, RawBytes, Encodes, Lz.Decode, Levels;
    var bpp := PaletteBits(|pal|);
    var used := idx[..|px|];
    var work := TilePack.Pack(used, w, h, bpp);
    Area(w, h);
    var z := Squeeze(work[..]);
    if 1 + 3 * |pal| + |z| < 3 * |px| {
      PaletteEncodes(px, pal, used, work[..], z, w, h);
      ghost var before := out.Contents();
      out.PutU8(|pal| - 1);
      PutColours(out, pal);
      out.Put(z);
      assert out.Contents() == before + PalettePayload(pal, z);
      return true;
    }
    ok := false;
  }

  /** Decorrelates, predicts and compresses; `ok` when that beats raw RGB. */
  method TryZrgb(px: seq<Colour>, w: nat, h: nat, out: RdBuf) returns (ok: bool)
    requires 0 < w <= TILE && 0 < h <= TILE && |px| == w * h
    requires out.Valid()
    modifies out, out.data
    ensures out.Valid() && (out.data == old(out.data) || fresh(out.data))
    ensures !ok ==> out.Contents() == old(out.Contents())
    ensures ok ==> old(out.len) <= out.len && out.Contents()[..old(out.len)] == old(out.Contents())
    ensures ok ==> Encodes(ZRGB, out.Contents()[old(out.len)..], px, w, h)
  {
    hide Residuals, Samples, Encodes, Lz.Decode;
    var t := Decorrelate(px);
    var r := PredictTile(t[..], w);
    Area(w, h);
    var z := Squeeze(r[..]);
    if |z| < 3 * |px| {
      ZrgbEncodes(px, z, w, h);
      out.Put(z);
      return true;
    }
    ok := false;
  }

  /** Appends one tile's payload and returns its encoding: the payload decodes to
      exactly the quantised window and is never larger than raw RGB. */
  method EncodeTile(bgra: seq<byte>, stride: nat, w: nat, h: nat, quality: int, out: RdBuf) returns (enc: byte)
    requires 0 < w <= TILE && 0 < h <= TILE && Source(bgra, stride, w, h)
    requires out.Valid()
    modifies out, out.data
    ensures out.Valid() && (out.data == old(out.data) || fresh(out.data))
    ensures old(out.len) <= out.len && out.Contents()[..old(out.len)] == old(out.Contents())
    ensures Encodes(enc, out.Contents()[old(out.len)..], Quantised(bgra, stride, w, h, quality), w, h)
    ensures enc == SOLID <==> |Palette.Colours(Quantised(bgra, stride, w, h, quality))| == 1
    ensures enc == PALETTE ==> |Palette.Colours(Quantised(bgra, stride, w, h, quality))| <= 256
    ensures enc == ZRGB ==> |Palette.Colours(Quantised(bgra, stride, w, h, quality))| > 256
    ensures enc <= RAW
  {
    hide Source, Quantised, Encodes, RawBytes, RgbBytes, Palette.Colours;
    var table := QuantiseTile(bgra, stride, w, h, quality);
    var px := table[..];
    AreaPositive(w, h);
    var idx := new byte[w * h];
    var isPal, pal := Palette.BuildPalette(px, idx);
    Palette.SomeColour(px);
    if isPal && |pal| == 1 {
      SolidEncodes(px, pal[0], w, h);
      PutRgb(out, pal[0]);
      return SOLID;
    }
    if isPal {
      var ok := TryPalette(px, pal, idx[..], w, h, out);
      if ok { return PALETTE; }
    } else {
      var ok := TryZrgb(px, w, h, out);
      if ok { return ZRGB; }
    }
    RawEncodes(px, w, h);
    PutColours(out, px);
    return RAW;
  }
}
