/** The tile payload formats of common/rd_codec.h as functions on values:
    quantisation, bit packing, MED prediction, decorrelation, and the decoder
    that says which pixels a payload stands for. */
module TileFormat {
  import opened Bytes
  import Lz

  const TILE := 64
  const SOLID := 0
  const PALETTE := 1
  const ZRGB := 2
  const RAW := 3

  type Colour = c: int | 0 <= c < 0x100_0000

  function Rgb(r: int, g: int, b: int): Colour
    requires 0 <= r < 256 && 0 <= g < 256 && 0 <= b < 256
  {
    r * 0x1_0000 + g * 0x100 + b
  }

  function Red(c: Colour): byte { c / 0x1_0000 }

  function Green(c: Colour): byte { c / 0x100 % 0x100 }

  function Blue(c: Colour): byte { c % 0x100 }

  lemma RgbOfParts(c: Colour)
    ensures Rgb(Red(c), Green(c), Blue(c)) == c
  {
  }

  /** An opaque SDL ARGB8888 pixel. */
  function Argb(c: Colour): u32 {
    0xFF00_0000 + c
  }

  function Opaque(px: seq<Colour>): seq<u32> {
    seq(|px|, i requires 0 <= i < |px| => Argb(px[i]))
  }

  // ----------------------------------------------------------- quantisation

  /** Distance between representable channel values at a quality level; levels
      outside 0..3 are clamped. */
  function Step(quality: int): (s: nat)
    ensures s == 1 || s == 4 || s == 8 || s == 16
  {
    if quality <= 0 then 1 else if quality == 1 then 4 else if quality == 2 then 8 else 16
  }

  /** The quantiser table: add half of the cleared bits, saturate, clear the low bits. */
  function QuantiseChannel(v: byte, quality: int): (q: byte)
  {
    var step := Step(quality);
    var s := Min(v + (step - 1) / 2, 255);
    s - s % step
  }

  lemma NearestMultiple(v: int, step: int, j: int, k: int)
    requires 0 <= v <= 255 && (step == 1 || step == 4 || step == 8 || step == 16)
    requires step * j <= Min(v + (step - 1) / 2, 255) < step * j + step && 0 <= step * k <= 255
    ensures Abs(step * j - v) <= Abs(step * k - v)
    ensures Abs(step * j - v) == Abs(step * k - v) ==> step * j <= step * k
  {
    if step == 1 {
    } else if step == 4 {
      assert j <= k || k < j;
    } else if step == 8 {
      assert j <= k || k < j;
    } else {
      assert j <= k || k < j;
    }
  }

  /** It rounds to the nearest representable value, to the lower of two as near, and a
      lossless level changes nothing. */
  lemma QuantiseNearest(v: byte, quality: int, other: byte)
    requires other % Step(quality) == 0
    ensures QuantiseChannel(v, quality) % Step(quality) == 0
    ensures Abs(QuantiseChannel(v, quality) - v) <= Abs(other - v)
    ensures Abs(QuantiseChannel(v, quality) - v) == Abs(other - v) ==> QuantiseChannel(v, quality) <= other
    ensures quality <= 0 ==> QuantiseChannel(v, quality) == v
  {
    var step := Step(quality);
    var s := Min(v + (step - 1) / 2, 255);
    DivModParts(s, step);
    DivModParts(other, step);
    assert QuantiseChannel(v, quality) == step * (s / step);
    MultipleMod(s / step, step);
    NearestMultiple(v, step, s / step, other / step);
  }

  lemma DivModParts(s: int, step: int)
    requires step > 0
    ensures s == step * (s / step) + s % step && 0 <= s % step < step
  {
  }

  lemma MultipleMod(k: int, step: int)
    requires step == 1 || step == 4 || step == 8 || step == 16
    ensures step * k % step == 0
  {
    if step == 1 {
    } else if step == 4 {
    } else if step == 8 {
    } else {
    }
  }

  function Abs(x: int): nat {
    if x < 0 then -x else x
  }

  lemma QuantiseIdempotent(v: byte, quality: int)
    ensures QuantiseChannel(QuantiseChannel(v, quality), quality) == QuantiseChannel(v, quality)
  {
    QuantiseNearest(v, quality, 0);
    QuantiseNearest(QuantiseChannel(v, quality), quality, QuantiseChannel(v, quality));
  }

  /** The quantised colour of the BGRA pixel at byte `at`. */
  function PixelAt(bgra: seq<byte>, at: nat, quality: int): Colour
    requires at + 4 <= |bgra|
  {
    Rgb(QuantiseChannel(bgra[at + 2], quality), QuantiseChannel(bgra[at + 1], quality), QuantiseChannel(bgra[at], quality))
  }

  ghost predicate Source(bgra: seq<byte>, stride: nat, w: nat, h: nat) {
    forall y :: 0 <= y < h ==> RowStart(stride, y) + 4 * w <= |bgra|
  }

  function RowStart(stride: nat, y: nat): nat {
    y * stride
  }

  function QuantisedRow(bgra: seq<byte>, at: nat, w: nat, quality: int): (px: seq<Colour>)
    requires at + 4 * w <= |bgra|
    ensures |px| == w
  {
    seq(w, x requires 0 <= x < w => PixelAt(bgra, at + 4 * x, quality))
  }

  /** What a viewer must see of a tile: its rows, quantised, from the top. */
  ghost function Quantised(bgra: seq<byte>, stride: nat, w: nat, h: nat, quality: int): (px: seq<Colour>)
    requires Source(bgra, stride, w, h)
    ensures |px| == w * h
  {
    if h == 0 then []
    else Quantised(bgra, stride, w, h - 1, quality) + QuantisedRow(bgra, RowStart(stride, h - 1), w, quality)
  }

  // ------------------------------------------------------------ bit packing

  function PaletteBits(np: nat): (bpp: nat)
    ensures bpp == 1 || bpp == 2 || bpp == 4 || bpp == 8
    ensures np <= 256 ==> np <= Levels(bpp)
  {
    if np <= 2 then 1 else if np <= 4 then 2 else if np <= 16 then 4 else 8
  }

  ghost predicate IsBpp(bpp: nat) {
    bpp == 1 || bpp == 2 || bpp == 4 || bpp == 8
  }

  /** 2^bpp */
  function Levels(bpp: nat): (n: nat)
    ensures n > 0
  {
    if bpp == 1 then 2 else if bpp == 2 then 4 else if bpp == 4 then 16 else 256
  }

  function RowBytes(w: nat, bpp: nat): nat {
    (w * bpp + 7) / 8
  }

  function PerByte(bpp: nat): nat
    requires IsBpp(bpp)
  {
    8 / bpp
  }

  /** 2^n for n up to 8 */
  function Bit(n: nat): (p: nat)
    ensures p > 0
  {
    if n == 0 then 1 else if n == 1 then 2 else if n == 2 then 4 else if n == 3 then 8
    else if n == 4 then 16 else if n == 5 then 32 else if n == 6 then 64 else if n == 7 then 128 else 256
  }

  /** Number of values left for the indices from the k-th on: 2^(8 - bpp k). */
  function Room(bpp: nat, k: nat): (p: nat)
    requires IsBpp(bpp) && k <= PerByte(bpp)
    ensures p > 0
  {
    Bit(8 - bpp * k)
  }

  /** The weight 2^(8 - bpp (k + 1)) of the k-th index in a byte, first index highest. */
  function Weight(bpp: nat, k: nat): (p: nat)
    requires IsBpp(bpp) && k < PerByte(bpp)
    ensures p > 0
  {
    Room(bpp, k + 1)
  }

  function Slot(b: byte, bpp: nat, k: nat): (v: byte)
    requires IsBpp(bpp) && k < PerByte(bpp)
  {
    b / Weight(bpp, k) % Levels(bpp)
  }

  /** Byte and slot of the x-th index of a row. */
  function ByteNo(x: nat, bpp: nat): nat
    requires IsBpp(bpp)
  {
    x / PerByte(bpp)
  }

  function SlotNo(x: nat, bpp: nat): (k: nat)
    requires IsBpp(bpp)
    ensures k < PerByte(bpp)
  {
    x % PerByte(bpp)
  }

  lemma SlotInRow(x: nat, w: nat, bpp: nat)
    requires IsBpp(bpp) && x < w
    ensures ByteNo(x, bpp) < RowBytes(w, bpp)
  {
    if bpp == 1 {
    } else if bpp == 2 {
    } else if bpp == 4 {
    } else {
    }
  }

  function UnpackRow(row: seq<byte>, w: nat, bpp: nat): (idx: seq<byte>)
    requires IsBpp(bpp) && |row| == RowBytes(w, bpp)
    ensures |idx| == w
  {
    seq(w, x requires 0 <= x < w => SlotInRow(x, w, bpp); Slot(row[ByteNo(x, bpp)], bpp, SlotNo(x, bpp)))
  }

  function Unpack(packed: seq<byte>, w: nat, h: nat, bpp: nat): (idx: seq<byte>)
    requires IsBpp(bpp) && |packed| == RowBytes(w, bpp) * h
    ensures |idx| == w * h
  {
    if h == 0 then []
    else
      var rb := RowBytes(w, bpp);
      assert rb * h == rb * (h - 1) + rb;
      Unpack(packed[..rb * (h - 1)], w, h - 1, bpp) + UnpackRow(packed[rb * (h - 1)..], w, bpp)
  }

  // ------------------------------------------- prediction and decorrelation

  /** Addition and subtraction truncated to a byte, as the uint8_t casts do. */
  function AddByte(a: int, b: int): byte {
    (a + b) % 0x100
  }

  function SubByte(a: int, b: int): byte {
    (a - b) % 0x100
  }

  lemma SubAdd(a: byte, b: int)
    ensures AddByte(SubByte(a, b), b) == a
  {
  }

  /** Median edge detector: the LOCO-I predictor. */
  function Med(a: int, b: int, c: int): (m: int)
    ensures Min(a, b) <= m <= Max(a, b)
  {
    if c >= Max(a, b) then Min(a, b)
    else if c <= Min(a, b) then Max(a, b)
    else a + b - c
  }

  lemma PredictorIndices(w: nat, i: nat)
    requires w > 0
    ensures i / 3 / w > 0 ==> i >= 3 * w
    ensures i / 3 / w > 0 && i / 3 % w > 0 ==> i >= 3 * w + 3
    ensures i / 3 % w > 0 ==> i >= 3
  {
    assert i / 3 == i / 3 / w * w + i / 3 % w;
    if i / 3 / w > 0 { assert i / 3 / w * w >= w; }
  }

  /** The prediction for sample `i` of pixel (x, y): from the samples to its left,
      above and diagonal, as far as they exist. */
  function PredictAt(t: seq<byte>, w: nat, x: nat, y: nat, i: nat): (p: int)
    requires i <= |t| && (x > 0 ==> i >= 3) && (y > 0 ==> i >= 3 * w) && (x > 0 && y > 0 ==> i >= 3 * w + 3) && w > 0
  {
    var a: int := if x > 0 then t[i - 3] else if y > 0 then t[i - 3 * w] else 0;
    var b: int := if y > 0 then t[i - 3 * w] else a;
    var c: int := if x > 0 && y > 0 then t[i - 3 * w - 3] else b;
    Med(a, b, c)
  }

  function Predict(t: seq<byte>, w: nat, i: nat): (p: int)
    requires w > 0 && i <= |t|
  {
    PredictorIndices(w, i);
    PredictAt(t, w, i / 3 % w, i / 3 / w, i)
  }

  lemma PredictLocal(t: seq<byte>, w: nat, i: nat)
    requires w > 0 && i <= |t|
    ensures Predict(t[..i], w, i) == Predict(t, w, i)
  {
    PredictorIndices(w, i);
  }

  function Residuals(t: seq<byte>, w: nat): (r: seq<byte>)
    requires w > 0
    ensures |r| == |t|
  {
    seq(|t|, i requires 0 <= i < |t| => SubByte(t[i], Predict(t, w, i)))
  }

  function Undo(r: seq<byte>, w: nat): (t: seq<byte>)
    requires w > 0
    ensures |t| == |r|
  {
    if r == [] then []
    else
      var t := Undo(r[..|r| - 1], w);
      t + [AddByte(r[|r| - 1], Predict(t, w, |r| - 1))]
  }

  lemma {:induction false} UndoResiduals(t: seq<byte>, w: nat, n: nat)
    requires w > 0 && n <= |t|
    ensures Undo(Residuals(t, w)[..n], w) == t[..n]
  {
    if n != 0 {
      var r := Residuals(t, w);
      assert r[..n][..n - 1] == r[..n - 1];
      UndoResiduals(t, w, n - 1);
      PredictLocal(t, w, n - 1);
      SubAdd(t[n - 1], Predict(t, w, n - 1));
      assert t[..n] == t[..n - 1] + [t[n - 1]];
    }
  }

  /** Green, red - green, blue - green, modulo 256. */
  function Sample(c: Colour, ch: nat): byte
    requires ch < 3
  {
    if ch == 0 then Green(c) else if ch == 1 then SubByte(Red(c), Green(c)) else SubByte(Blue(c), Green(c))
  }

  function Samples(px: seq<Colour>): (t: seq<byte>)
    ensures |t| == 3 * |px|
  {
    seq(3 * |px|, j requires 0 <= j < 3 * |px| => Sample(px[j / 3], j % 3))
  }

  function Recorrelate(t: seq<byte>, i: nat): Colour
    requires 3 * i + 3 <= |t|
  {
    Rgb(AddByte(t[3 * i + 1], t[3 * i]), t[3 * i], AddByte(t[3 * i + 2], t[3 * i]))
  }

  lemma RecorrelateSamples(px: seq<Colour>, i: nat)
    requires i < |px|
    ensures Recorrelate(Samples(px), i) == px[i]
  {
    var c := px[i];
    assert Samples(px)[3 * i] == Green(c);
    assert Samples(px)[3 * i + 1] == SubByte(Red(c), Green(c));
    assert Samples(px)[3 * i + 2] == SubByte(Blue(c), Green(c));
    SubAdd(Red(c), Green(c));
    SubAdd(Blue(c), Green(c));
    RgbOfParts(c);
  }

  // ---------------------------------------------------------------- decoder

  function RgbAt(p: seq<byte>, at: nat): Colour
    requires at + 3 <= |p|
  {
    Rgb(p[at], p[at + 1], p[at + 2])
  }

  function RgbBytes(c: Colour): seq<byte> {
    [Red(c), Green(c), Blue(c)]
  }

  function RawBytes(px: seq<Colour>): (s: seq<byte>)
    ensures |s| == 3 * |px|
  {
    if px == [] then [] else RawBytes(px[..|px| - 1]) + RgbBytes(px[|px| - 1])
  }

  lemma {:induction false} RawBytesAt(px: seq<Colour>, rest: seq<byte>, i: nat)
    requires i < |px|
    ensures RgbAt(RawBytes(px) + rest, 3 * i) == px[i]
  {
    var last := px[|px| - 1];
    if i == |px| - 1 {
      RgbOfParts(last);
    } else {
      RawBytesAt(px[..|px| - 1], RgbBytes(last) + rest, i);
      assert RawBytes(px) + rest == RawBytes(px[..|px| - 1]) + (RgbBytes(last) + rest);
    }
  }

  function PaletteOf(p: seq<byte>, np: nat): seq<Colour>
    requires 1 + 3 * np <= |p|
  {
    seq(np, i requires 0 <= i < np => RgbAt(p, 1 + 3 * i))
  }

  ghost function DecodePalette(p: seq<byte>, w: nat, h: nat): (px: Option<seq<Colour>>)
    ensures px.Some? ==> |px.value| == w * h
  {
    if |p| < 1 || |p| < 1 + 3 * (p[0] as int + 1) then None
    else
      var np := p[0] as int + 1;
      var bpp := PaletteBits(np);
      var want := RowBytes(w, bpp) * h;
      var packed := Lz.Decode(p[1 + 3 * np..], want);
      if packed.None? || |packed.value| != want then None
      else
        var idx := Unpack(packed.value, w, h, bpp);
        if exists i :: 0 <= i < |idx| && idx[i] >= np then None
        else Some(seq(|idx|, i requires 0 <= i < |idx| => PaletteOf(p, np)[idx[i]]))
  }

  ghost function DecodeZrgb(p: seq<byte>, w: nat, h: nat): (px: Option<seq<Colour>>)
    ensures px.Some? ==> |px.value| == w * h
  {
    var n := w * h;
    var r := Lz.Decode(p, 3 * n);
    if w == 0 || r.None? || |r.value| != 3 * n then None
    else Some(seq(n, i requires 0 <= i < n => Recorrelate(Undo(r.value, w), i)))
  }

  /** The pixels, row by row, that a payload stands for; None when it is rejected. */
  ghost function DecodeTile(enc: int, p: seq<byte>, w: int, h: int): (px: Option<seq<Colour>>)
    ensures px.Some? ==> w > 0 && h > 0 && |px.value| == w * h
  {
    if w <= 0 || h <= 0 || w > TILE || h > TILE then None
    else if enc == SOLID then
      if |p| != 3 then None else Some(seq(w * h, i => RgbAt(p, 0)))
    else if enc == RAW then
      if |p| != 3 * (w * h) then None else Some(seq(w * h, i requires 0 <= i < w * h => RgbAt(p, 3 * i)))
    else if enc == PALETTE then DecodePalette(p, w, h)
    else if enc == ZRGB then DecodeZrgb(p, w, h)
    else None
  }
}
