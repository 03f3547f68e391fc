/** What the bits of a tile mean (common/rd_codec.c:136-142, 204-216, 264-325), said without
    the functions that encoder and decoder share: the median predictor, the packing order of
    palette indices, the encodings' numbers, the levels of quality. */
module TileMeaning {
  import opened Bytes
  import opened Arith
  import opened TileFormat
  import Lz

  // ------------------------------------------------------------ the predictor

  predicate TwoOf(p: bool, q: bool, r: bool) {
    (p && q) || (p && r) || (q && r)
  }

  /** `m` is the middle one of the three. */
  predicate IsMedian(m: int, x: int, y: int, z: int) {
    && (m == x || m == y || m == z)
    && TwoOf(x <= m, y <= m, z <= m) && TwoOf(x >= m, y >= m, z >= m)
  }

  lemma MedIsMedian(a: int, b: int, c: int, m: int)
    ensures IsMedian(m, a, b, a + b - c) <==> m == Med(a, b, c)
  {
  }

  /** Sample `ch` of pixel (x, y) in a picture `w` wide. */
  function Index(w: nat, x: nat, y: nat, ch: nat): nat {
    3 * (y * w + x) + ch
  }

  /** `p` is the prediction of that sample from those to its left, above it and diagonally
      between: nothing at the corner, the one neighbour on the edges, the median within. */
  predicate Predicts(p: int, t: seq<byte>, w: nat, x: nat, y: nat, ch: nat)
    requires x < w && ch < 3 && Index(w, x, y, ch) <= |t|
  {
    var i := Index(w, x, y, ch);
    Neighbours(w, x, y, ch);
    if x == 0 && y == 0 then p == 0
    else if y == 0 then p == t[i - 3]
    else if x == 0 then p == t[i - 3 * w]
    else IsMedian(p, t[i - 3], t[i - 3 * w], t[i - 3] as int + t[i - 3 * w] as int - t[i - 3 * w - 3] as int)
  }

  lemma Neighbours(w: nat, x: nat, y: nat, ch: nat)
    requires x < w
    ensures var i := Index(w, x, y, ch);
      && (x > 0 ==> i >= 3) && (y > 0 ==> i >= 3 * w) && (x > 0 && y > 0 ==> i >= 3 * w + 3)
  {
    if y > 0 { MulMono(w, 1, y); }
  }

  lemma IndexParts(w: nat, x: nat, y: nat, ch: nat)
    requires x < w && ch < 3
    ensures Index(w, x, y, ch) / 3 / w == y && Index(w, x, y, ch) / 3 % w == x && Index(w, x, y, ch) % 3 == ch
  {
    MulComm(w, y);
    DivUnique(y * w + x, w, y, x);
  }

  lemma PredictIs(p: int, t: seq<byte>, w: nat, x: nat, y: nat, ch: nat)
    requires x < w && ch < 3 && Index(w, x, y, ch) <= |t|
    ensures Predicts(p, t, w, x, y, ch) <==> p == Predict(t, w, Index(w, x, y, ch))
  {
    hide Index;
    var i := Index(w, x, y, ch);
    Neighbours(w, x, y, ch);
    IndexParts(w, x, y, ch);
    if x > 0 && y > 0 { MedIsMedian(t[i - 3], t[i - 3 * w], t[i - 3 * w - 3], p); }
  }

  /** Each sample of `t` is its residual in `r` plus its prediction, modulo 256. */
  ghost predicate Restores(t: seq<byte>, r: seq<byte>, w: nat)
    requires |t| == |r|
  {
    forall x, y, ch :: 0 <= x < w && 0 <= y && 0 <= ch < 3 && Index(w, x, y, ch) < |t| ==> Restored(t, r, w, x, y, ch)
  }

  ghost predicate Restored(t: seq<byte>, r: seq<byte>, w: nat, x: nat, y: nat, ch: nat)
    requires |t| == |r| && x < w && ch < 3 && Index(w, x, y, ch) < |t|
  {
    forall p :: Predicts(p, t, w, x, y, ch) ==> t[Index(w, x, y, ch)] as int == (r[Index(w, x, y, ch)] as int + p) % 0x100
  }

  lemma {:induction false} UndoPrefix(r: seq<byte>, w: nat, n: nat)
    requires w > 0 && n <= |r|
    ensures Undo(r[..n], w) == Undo(r, w)[..n]
    decreases |r|
  {
    if n < |r| {
      var k := |r| - 1;
      UndoPrefix(r[..k], w, n);
      assert r[..k][..n] == r[..n];
    } else {
      assert r[..n] == r;
    }
  }

  lemma UndoAt(r: seq<byte>, w: nat, i: nat)
    requires w > 0 && i < |r|
    ensures Undo(r, w)[i] == AddByte(r[i], Predict(Undo(r, w), w, i))
  {
    hide Predict, AddByte;
    var u := r[..i + 1];
    UndoPrefix(r, w, i + 1);
    UndoPrefix(r, w, i);
    assert u[..i] == r[..i] && Undo(u, w)[i] == Undo(r, w)[i];
    PredictLocal(Undo(r, w), w, i);
  }

  /** What the decoder restores: every sample is its residual plus the median of left, above
      and left + above - diagonal. */
  lemma UndoRestores(r: seq<byte>, w: nat)
    requires w > 0
    ensures Restores(Undo(r, w), r, w)
  {
    hide Undo, Predict, Predicts, Index;
    var t := Undo(r, w);
    forall x: nat, y: nat, ch: nat | x < w && ch < 3 && Index(w, x, y, ch) < |t| ensures Restored(t, r, w, x, y, ch) {
      UndoAt(r, w, Index(w, x, y, ch));
      forall p | Predicts(p, t, w, x, y, ch)
        ensures t[Index(w, x, y, ch)] as int == (r[Index(w, x, y, ch)] as int + p) % 0x100
      {
        PredictIs(p, t, w, x, y, ch);
      }
    }
  }

  /** Where a sample equals the one above it and so does the one to its left, or the other
      way round, the residual is zero: flat areas and straight edges cost nothing. */
  lemma EdgesVanish(t: seq<byte>, w: nat, x: nat, y: nat, ch: nat)
    requires 0 < x < w && y > 0 && ch < 3 && Index(w, x, y, ch) < |t|
    ensures var i := Index(w, x, y, ch);
      && i >= 3 * w + 3
      && (t[i] == t[i - 3 * w] && t[i - 3] == t[i - 3 * w - 3] ==> Residuals(t, w)[i] == 0)
      && (t[i] == t[i - 3] && t[i - 3 * w] == t[i - 3 * w - 3] ==> Residuals(t, w)[i] == 0)
  {
    hide Index, Predict;
    var i := Index(w, x, y, ch);
    Neighbours(w, x, y, ch);
    var p := Predict(t, w, i);
    PredictIs(p, t, w, x, y, ch);
    assert Residuals(t, w)[i] == SubByte(t[i], p);
  }

  // ------------------------------------------------------- payloads by number

  /** Red, green and blue from the top byte down. */
  function Weighed(r: int, g: int, b: int): int {
    0x1_0000 * r + 0x100 * g + b
  }

  /** The four encodings, by the number that is sent: one colour, colours as they are,
      indexed colours, predicted samples of green, red - green and blue - green. */
  lemma PayloadsMean(p: seq<byte>, w: int, h: int)
    requires 0 < w <= 64 && 0 < h <= 64
    ensures DecodeTile(0, p, w, h).Some? <==> |p| == 3
    ensures DecodeTile(3, p, w, h).Some? <==> |p| == 3 * (w * h)
    ensures forall i :: 0 <= i < w * h ==>
      && (DecodeTile(0, p, w, h).Some? ==> DecodeTile(0, p, w, h).value[i] == Weighed(p[0], p[1], p[2]))
      && (DecodeTile(3, p, w, h).Some? ==>
            DecodeTile(3, p, w, h).value[i] == Weighed(p[3 * i], p[3 * i + 1], p[3 * i + 2]))
    ensures forall e :: !(0 <= e <= 3) ==> DecodeTile(e, p, w, h).None?
    ensures DecodeTile(1, p, w, h) == DecodePalette(p, w, h) && DecodeTile(2, p, w, h) == DecodeZrgb(p, w, h)
  {
    hide DecodePalette, DecodeZrgb;
  }

  /** A predicted tile, pixel by pixel. */
  lemma ZrgbMeans(p: seq<byte>, w: nat, h: nat)
    requires DecodeZrgb(p, w, h).Some?
    ensures var r := Lz.Decode(p, 3 * (w * h));
      && r.Some? && |r.value| == 3 * (w * h) && w > 0
      && var t, px := Undo(r.value, w), DecodeZrgb(p, w, h).value;
      && Restores(t, r.value, w)
      && forall i :: 0 <= i < w * h ==>
           px[i] == Weighed((t[3 * i + 1] as int + t[3 * i] as int) % 0x100, t[3 * i],
                            (t[3 * i + 2] as int + t[3 * i] as int) % 0x100)
  {
    hide Undo, Lz.Decode, Restores;
    UndoRestores(Lz.Decode(p, 3 * (w * h)).value, w);
  }

  // ---------------------------------------------------------- indexed colours

  /** The indices take the fewest bits of 1, 2, 4 and 8 that tell the colours apart. */
  lemma FewestBits(np: nat, bpp: nat)
    requires IsBpp(bpp) && np <= 256
    ensures np <= Pow2(bpp) <==> PaletteBits(np) <= bpp
    ensures Levels(bpp) == Pow2(bpp)
  {
    assert Pow2(1) == 2 && Pow2(2) == 4 && Pow2(4) == 16 && Pow2(8) == 256;
  }

  /** Rows start on whole bytes, none of them unused. */
  lemma RowIsTight(w: nat, bpp: nat)
    ensures w * bpp <= 8 * RowBytes(w, bpp) < w * bpp + 8
  {
  }

  lemma {:induction false} BeByte(row: seq<byte>, j: nat)
    requires j < |row|
    ensures BeValue(row) / Pow256(|row| - 1 - j) % 0x100 == row[j]
  {
    hide BeValue, Pow256;
    var n := |row| - 1;
    BeStep(row);
    PowerStep(n - j);
    if j < n {
      BeByte(row[..n], j);
      DivDiv(BeValue(row), 0x100, Pow256(n - 1 - j));
    }
  }

  lemma BeStep(row: seq<byte>)
    requires row != []
    ensures var n := |row| - 1; BeValue(row) / 0x100 == BeValue(row[..n]) && BeValue(row) % 0x100 == row[n]
  {
  }

  lemma PowerStep(n: nat)
    ensures n == 0 ==> Pow256(n) == 1
    ensures n > 0 ==> Pow256(n) == 0x100 * Pow256(n - 1)
  {
  }

  /** The weight of slot `k` is a power of two, and what is above it a multiple of the
      levels. */
  lemma SlotWeight(bpp: nat, k: nat)
    requires IsBpp(bpp) && k < PerByte(bpp)
    ensures bpp * (k + 1) <= 8 && Weight(bpp, k) == Pow2(8 - bpp * (k + 1))
    ensures Weight(bpp, k) * Levels(bpp) * Pow2(bpp * k) == 0x100
  {
    hide Pow2, Levels, Bit;
    SlotFits(bpp, k);
    BitIsPower(8 - bpp * (k + 1));
    FewestBits(0, bpp);
    Pow2Sum(8 - bpp * (k + 1), bpp);
    Pow2Sum(8 - bpp * k, bpp * k);
    assert 8 - bpp * (k + 1) + bpp == 8 - bpp * k;
    TopBit();
  }

  lemma SlotFits(bpp: nat, k: nat)
    requires IsBpp(bpp) && k < PerByte(bpp)
    ensures bpp * (k + 1) <= 8 && bpp * (k + 1) == bpp * k + bpp
  {
    if bpp == 1 {} else if bpp == 2 {} else if bpp == 4 {} else {}
  }

  lemma BitIsPower(n: nat)
    requires n <= 8
    ensures Bit(n) == Pow2(n)
  {
    assert n == 0 || n == 1 || n == 2 || n == 3 || n == 4 || n == 5 || n == 6 || n == 7 || n == 8;
    assert Pow2(0) == 1 && Pow2(1) == 2 && Pow2(2) == 4 && Pow2(3) == 8 && Pow2(4) == 16 && Pow2(5) == 32
        && Pow2(6) == 64 && Pow2(7) == 128 && Pow2(8) == 256;
  }

  lemma TopBit()
    ensures Pow2(8) == 0x100
  {
  }

  /** A digit of a number is that digit of its low part. */
  lemma LowDigit(v: nat, w: nat, l: nat, m: nat)
    requires w > 0 && l > 0 && m > 0 && w * l * m == 0x100
    ensures v / w % l == v % 0x100 / w % l
  {
    var q, b := v / 0x100, v % 0x100;
    MulAssocInt(w, l, m);
    MulAssocInt(w, l * m, q);
    MulDist(w, l * m * q, b / w);
    DivUnique(v, w, l * m * q + b / w, b % w);
    MulAssocInt(l, m, q);
    ModAdd(b / w, l, m * q);
  }

  /** The row as one big-endian number: index x is its digit of `bpp` bits, counted from
      the top. */
  lemma IndexBits(row: seq<byte>, w: nat, bpp: nat, x: nat)
    requires IsBpp(bpp) && |row| == RowBytes(w, bpp) && x < w
    ensures bpp * (x + 1) <= 8 * |row|
    ensures UnpackRow(row, w, bpp)[x] == BeValue(row) / Pow2(8 * |row| - bpp * (x + 1)) % Pow2(bpp)
  {
    hide UnpackRow, RowBytes, BeValue, Pow256, Pow2, Levels, Weight, ByteNo, SlotNo;
    var j, k := ByteNo(x, bpp), SlotNo(x, bpp);
    UnpackedAt(row, w, bpp, x);
    Position(x, bpp);
    FewestBits(0, bpp);
    RowDigit(row, bpp, j, k);
  }

  /** Slot `k` of byte `j` as a digit of the whole row. */
  lemma RowDigit(row: seq<byte>, bpp: nat, j: nat, k: nat)
    requires IsBpp(bpp) && j < |row| && k < PerByte(bpp)
    ensures bpp * (k + 1) <= 8
    ensures row[j] as int / Weight(bpp, k) % Levels(bpp)
         == BeValue(row) / Pow2(8 * (|row| - 1 - j) + (8 - bpp * (k + 1))) % Levels(bpp)
  {
    hide BeValue, Pow256, Pow2, Levels, Weight, PerByte;
    SlotWeight(bpp, k);
    BeByte(row, j);
    var rest := |row| - 1 - j;
    PowerOfBytes(rest);
    Pow2Sum(8 * rest, 8 - bpp * (k + 1));
    DigitChain(BeValue(row), Pow256(rest), Weight(bpp, k), Levels(bpp), Pow2(bpp * k));
  }

  lemma DigitChain(v: nat, u: nat, w: nat, l: nat, m: nat)
    requires u > 0 && w > 0 && l > 0 && m > 0 && w * l * m == 0x100
    ensures u * w > 0 && v / u % 0x100 / w % l == v / (u * w) % l
  {
    DivDiv(v, u, w);
    LowDigit(v / u, w, l, m);
  }

  lemma UnpackedAt(row: seq<byte>, w: nat, bpp: nat, x: nat)
    requires IsBpp(bpp) && |row| == RowBytes(w, bpp) && x < w
    ensures ByteNo(x, bpp) < |row|
    ensures UnpackRow(row, w, bpp)[x] == row[ByteNo(x, bpp)] as int / Weight(bpp, SlotNo(x, bpp)) % Levels(bpp)
  {
    SlotInRow(x, w, bpp);
  }

  lemma Position(x: nat, bpp: nat)
    requires IsBpp(bpp)
    ensures bpp * (x + 1) == 8 * ByteNo(x, bpp) + bpp * (SlotNo(x, bpp) + 1)
  {
    if bpp == 1 {
    } else if bpp == 2 {
    } else if bpp == 4 {
    } else {
    }
  }

  lemma {:induction false} PowerOfBytes(n: nat)
    ensures Pow256(n) == Pow2(8 * n)
  {
    if n != 0 {
      PowerOfBytes(n - 1);
      Pow2Sum(8, 8 * (n - 1));
      assert Pow2(8) == 0x100;
    }
  }

  // ------------------------------------------------------------------ quality

  /** The quality levels keep 8, 6, 5 and 4 bits of each channel. */
  lemma BitsKept(quality: int)
    ensures var bits := [8, 6, 5, 4][Min(Max(quality, 0), 3)]; Step(quality) * Pow2(bits) == 0x100
  {
    assert Pow2(8) == 256 && Pow2(6) == 64 && Pow2(5) == 32 && Pow2(4) == 16;
  }

  /** Every pixel drawn is opaque. */
  lemma OpaqueIs(px: seq<Colour>, i: nat)
    requires i < |px|
    ensures Opaque(px)[i] == 0xFF00_0000 + Weighed(Red(px[i]), Green(px[i]), Blue(px[i]))
  {
  }
}
