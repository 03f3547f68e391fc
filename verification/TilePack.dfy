/** Bit packing of palette indices (common/rd_codec.c:204-216, 289-305). */
module TilePack {
  import opened Bytes
  import opened TileFormat
  import opened Arith

  /** The bits of slots `k` and later are still zero. */
  predicate FreeFrom(b: byte, bpp: nat, k: nat)
    requires IsBpp(bpp) && k <= PerByte(bpp)
  {
    b % Room(bpp, k) == 0
  }

  lemma RoomStep(bpp: nat, k: nat)
    requires IsBpp(bpp) && k < PerByte(bpp)
    ensures Room(bpp, k) == Room(bpp, k + 1) * Levels(bpp)
  {
    if bpp == 8 {
    } else if bpp == 4 {
      if k == 0 {} else {}
    } else if bpp == 2 {
      if k == 0 {} else if k == 1 {} else if k == 2 {} else {}
    } else {
      if k == 0 {} else if k == 1 {} else if k == 2 {} else if k == 3 {}
      else if k == 4 {} else if k == 5 {} else if k == 6 {} else {}
    }
  }

  lemma {:induction false} RoomRatio(bpp: nat, j: nat, k: nat) returns (m: nat)
    requires IsBpp(bpp) && j <= k <= PerByte(bpp)
    ensures m > 0 && Room(bpp, j) == Room(bpp, k) * m
    decreases k - j
  {
    if j == k { return 1; }
    var m' := RoomRatio(bpp, j, k - 1);
    RoomStep(bpp, k - 1);
    MulAssoc(Room(bpp, k), Levels(bpp), m');
    MulMono(Levels(bpp), 1, m');
    return Levels(bpp) * m';
  }

  lemma SetDigit(b: int, w: int, l: int, v: int)
    requires w > 0 && l > 0 && 0 <= v < l && b % (w * l) == 0
    ensures (b + v * w) / w % l == v && (b + v * w) % w == 0
  {
    var q := b / (w * l);
    assert b == w * l * q;
    MulAssoc(w, l, q);
    MulDist(w, l * q, v);
    DivUnique(b + v * w, w, l * q + v, 0);
    DivUnique(l * q + v, l, q, v);
  }

  lemma DigitStable(b: int, s: int, unit: int, m: int)
    requires unit > 0 && m > 0 && 0 <= s < unit && b % unit == 0
    ensures unit * m > 0 && (b + s) / (unit * m) == b / (unit * m)
  {
    DivDiv(b, unit, m);
    DivDiv(b + s, unit, m);
    DivUnique(b + s, unit, b / unit, s);
  }

  lemma DigitFits(bpp: nat, k: nat, v: nat)
    requires IsBpp(bpp) && k < PerByte(bpp) && v < Levels(bpp)
    ensures v * Weight(bpp, k) <= Room(bpp, k) - Weight(bpp, k)
  {
    RoomStep(bpp, k);
    var w := Weight(bpp, k);
    MulMono(w, v, Levels(bpp) - 1);
    MulDist(w, Levels(bpp), -1);
  }

  /** The byte after `v` is set in slot `k`: the slot is still zero, so `|` is `+`. */
  function WithSlot(b: nat, bpp: nat, k: nat, v: nat): nat
    requires IsBpp(bpp) && k < PerByte(bpp)
  {
    b + v * Weight(bpp, k)
  }

  /** Setting slot `k` of a byte whose slots from `k` on are free: no carry out of
      the byte, the slot reads back, later slots stay free. */
  lemma PackSlot(b: byte, bpp: nat, k: nat, v: nat)
    requires IsBpp(bpp) && k < PerByte(bpp) && v < Levels(bpp) && FreeFrom(b, bpp, k)
    ensures WithSlot(b, bpp, k, v) < 256
    ensures FreeFrom(WithSlot(b, bpp, k, v), bpp, k + 1)
    ensures Slot(WithSlot(b, bpp, k, v), bpp, k) == v
  {
    hide Bit, Levels;
    RoomStep(bpp, k);
    DigitFits(bpp, k, v);
    SetDigit(b, Weight(bpp, k), Levels(bpp), v);
    var m := RoomRatio(bpp, 0, k);
    TopRoom(bpp);
    MultipleGap(b, Room(bpp, k), m);
  }

  lemma TopRoom(bpp: nat)
    requires IsBpp(bpp)
    ensures Room(bpp, 0) == 256
  {
  }

  lemma MultipleGap(b: int, unit: int, m: int)
    requires unit > 0 && 0 <= b < unit * m && b % unit == 0
    ensures b + unit <= unit * m
  {
    var q := b / unit;
    assert b == unit * q;
    if q >= m { MulMono(unit, m, q); }
    MulMono(unit, q + 1, m);
    MulDist(unit, q, 1);
  }

  /** ... and the slots before `k` keep their values. */
  lemma PackKeeps(b: byte, bpp: nat, k: nat, v: nat, j: nat)
    requires IsBpp(bpp) && j < k < PerByte(bpp) && v < Levels(bpp) && FreeFrom(b, bpp, k)
    requires WithSlot(b, bpp, k, v) < 256
    ensures Slot(WithSlot(b, bpp, k, v), bpp, j) == Slot(b, bpp, j)
  {
    hide Bit, Levels;
    var m := RoomRatio(bpp, j + 1, k);
    DigitFits(bpp, k, v);
    DigitStable(b, v * Weight(bpp, k), Room(bpp, k), m);
  }

  /** The first `x` indices of a row are in place and the rest of it is clear. */
  ghost predicate RowDone(row: seq<byte>, idx: seq<byte>, bpp: nat, x: nat)
    requires IsBpp(bpp) && |row| == RowBytes(|idx|, bpp) && x <= |idx|
  {
    && (forall j :: 0 <= j < x ==> ByteNo(j, bpp) < |row| && Slot(row[ByteNo(j, bpp)], bpp, SlotNo(j, bpp)) == idx[j])
    && (x < |idx| ==> ByteNo(x, bpp) < |row| && FreeFrom(row[ByteNo(x, bpp)], bpp, SlotNo(x, bpp)))
    && (forall b :: ByteNo(x, bpp) < b < |row| ==> row[b] == 0)
  }

  lemma RowStep(row: seq<byte>, idx: seq<byte>, bpp: nat, x: nat)
    requires IsBpp(bpp) && |row| == RowBytes(|idx|, bpp) && x < |idx| && RowDone(row, idx, bpp, x)
    requires idx[x] < Levels(bpp)
    ensures ByteNo(x, bpp) < |row|
    ensures WithSlot(row[ByteNo(x, bpp)], bpp, SlotNo(x, bpp), idx[x]) < 256
    ensures RowDone(row[ByteNo(x, bpp) := WithSlot(row[ByteNo(x, bpp)], bpp, SlotNo(x, bpp), idx[x])], idx, bpp, x + 1)
  {
    hide Bit, Levels, Room, Weight, Slot, FreeFrom, WithSlot, RowBytes;
    var at, k := ByteNo(x, bpp), SlotNo(x, bpp);
    SlotInRow(x, |idx|, bpp);
    var b := row[at];
    PackSlot(b, bpp, k, idx[x]);
    var b' := WithSlot(b, bpp, k, idx[x]);
    var row' := row[at := b'];
    forall j | 0 <= j <= x
      ensures ByteNo(j, bpp) < |row| && Slot(row'[ByteNo(j, bpp)], bpp, SlotNo(j, bpp)) == idx[j]
    {
      SlotInRow(j, |idx|, bpp);
      if j < x && ByteNo(j, bpp) == at {
        SameByte(j, x, PerByte(bpp));
        PackKeeps(b, bpp, k, idx[x], SlotNo(j, bpp));
      } else if j < x {
        SameByte(j, x, PerByte(bpp));
      }
    }
    NextSlot(x, PerByte(bpp));
    if x + 1 < |idx| {
      SlotInRow(x + 1, |idx|, bpp);
      if ByteNo(x + 1, bpp) != at { FreeZero(bpp); }
    }
  }

  lemma SameByte(j: nat, x: nat, per: nat)
    requires per > 0 && j < x
    ensures j / per == x / per ==> j % per < x % per
    ensures j / per <= x / per
  {
    assert j == per * (j / per) + j % per && x == per * (x / per) + x % per;
    if j / per > x / per { MulMono(per, x / per + 1, j / per); MulDist(per, x / per, 1); }
  }

  lemma NextSlot(x: nat, per: nat)
    requires per > 0
    ensures if x % per + 1 < per then (x + 1) / per == x / per && (x + 1) % per == x % per + 1
            else (x + 1) / per == x / per + 1 && (x + 1) % per == 0
  {
    assert x == per * (x / per) + x % per;
    if x % per + 1 < per {
      DivUnique(x + 1, per, x / per, x % per + 1);
    } else {
      MulDist(per, x / per, 1);
      DivUnique(x + 1, per, x / per + 1, 0);
    }
  }

  lemma FreeZero(bpp: nat)
    requires IsBpp(bpp)
    ensures FreeFrom(0, bpp, 0)
  {
  }

  lemma RowUnpacks(row: seq<byte>, idx: seq<byte>, bpp: nat)
    requires IsBpp(bpp) && |row| == RowBytes(|idx|, bpp) && RowDone(row, idx, bpp, |idx|)
    ensures UnpackRow(row, |idx|, bpp) == idx
  {
    hide RowBytes, Slot;
    assert forall j :: 0 <= j < |idx| ==> UnpackRow(row, |idx|, bpp)[j] == idx[j];
  }

  lemma RowClear(row: seq<byte>, idx: seq<byte>, bpp: nat)
    requires IsBpp(bpp) && |row| == RowBytes(|idx|, bpp) && forall b :: 0 <= b < |row| ==> row[b] == 0
    ensures RowDone(row, idx, bpp, 0)
  {
    if |idx| > 0 {
      SlotInRow(0, |idx|, bpp);
      FreeZero(bpp);
    }
  }

  /** Packs one row of indices into the cleared bytes at `base`. */
  method PackRow(work: array<byte>, base: nat, idx: seq<byte>, bpp: nat)
    requires IsBpp(bpp) && base + RowBytes(|idx|, bpp) <= work.Length
    requires forall b :: base <= b < base + RowBytes(|idx|, bpp) ==> work[b] == 0
    requires forall x :: 0 <= x < |idx| ==> idx[x] < Levels(bpp)
    modifies work
    ensures UnpackRow(work[base..base + RowBytes(|idx|, bpp)], |idx|, bpp) == idx
    ensures forall b :: 0 <= b < work.Length && !(base <= b < base + RowBytes(|idx|, bpp)) ==> work[b] == old(work[b])
  {
    hide RowDone, RowBytes, Levels, WithSlot, ByteNo, SlotNo;
    ghost var end := base + RowBytes(|idx|, bpp);
    RowClear(work[base..end], idx, bpp);
    for x := 0 to |idx|
      invariant RowDone(work[base..end], idx, bpp, x)
      invariant forall b :: 0 <= b < work.Length && !(base <= b < end) ==> work[b] == old(work[b])
    {
      ghost var row := work[base..end];
      RowStep(row, idx, bpp, x);
      var at := base + ByteNo(x, bpp);
      work[at] := WithSlot(work[at], bpp, SlotNo(x, bpp), idx[x]);
      assert work[base..end] == row[ByteNo(x, bpp) := work[at]];
    }
    RowUnpacks(work[base..end], idx, bpp);
  }

  /** Packs a tile's indices, rows byte-aligned. */
  method Pack(idx: seq<byte>, w: nat, h: nat, bpp: nat) returns (work: array<byte>)
    requires IsBpp(bpp) && |idx| == w * h
    requires forall i :: 0 <= i < |idx| ==> idx[i] < Levels(bpp)
    ensures fresh(work) && work.Length == RowBytes(w, bpp) * h
    ensures Unpack(work[..], w, h, bpp) == idx
  {
    hide RowBytes, Levels, UnpackRow, Unpack, Times;
    var rb := RowBytes(w, bpp);
    work := new byte[rb * h](_ => 0);
    UnpackNone(work[..0], w, bpp);
    TimesStart(rb, h);
    TimesStart(w, h);
    var at, from := 0, 0;
    for y := 0 to h
      invariant at == Times(rb, y) <= work.Length && from == Times(w, y) <= |idx|
      invariant Unpacked(work[..at], w, y, bpp, idx[..from])
      invariant forall b :: at <= b < work.Length ==> work[b] == 0
    {
      TimesNext(rb, y, h);
      TimesNext(w, y, h);
      ghost var above := work[..at];
      PackRow(work, at, idx[from..from + w], bpp);
      assert work[..at] == above;
      assert work[..at + rb] == above + work[at..at + rb];
      assert idx[..from + w] == idx[..from] + idx[from..from + w];
      UnpackJoin(above, work[at..at + rb], idx[..from], idx[from..from + w], w, bpp, y);
      at, from := at + rb, from + w;
    }
    assert work[..at] == work[..] && idx[..from] == idx;
  }

  ghost predicate Unpacked(packed: seq<byte>, w: nat, h: nat, bpp: nat, idx: seq<byte>)
    requires IsBpp(bpp)
  {
    |packed| == RowBytes(w, bpp) * h && Unpack(packed, w, h, bpp) == idx
  }

  lemma UnpackJoin(above: seq<byte>, row: seq<byte>, done: seq<byte>, idx: seq<byte>, w: nat, bpp: nat, y: nat)
    requires IsBpp(bpp) && Unpacked(above, w, y, bpp, done)
    requires |row| == RowBytes(w, bpp) && UnpackRow(row, w, bpp) == idx
    ensures Unpacked(above + row, w, y + 1, bpp, done + idx)
  {
    hide RowBytes, UnpackRow, Unpack;
    var packed := above + row;
    Strides(RowBytes(w, bpp), y, y + 1);
    UnpackSnoc(packed, w, y + 1, bpp);
    assert packed[..|above|] == above && packed[|above|..] == row;
  }

  lemma Strides(d: nat, y: nat, h: nat)
    requires y < h
    ensures d * (y + 1) == d * y + d && d * (y + 1) <= d * h
  {
    MulDist(d, y, 1);
    MulMono(d, y + 1, h);
  }

  lemma UnpackNone(packed: seq<byte>, w: nat, bpp: nat)
    requires IsBpp(bpp) && packed == []
    ensures Unpack(packed, w, 0, bpp) == []
  {
  }

  lemma UnpackSnoc(packed: seq<byte>, w: nat, h: nat, bpp: nat)
    requires IsBpp(bpp) && h > 0 && |packed| == RowBytes(w, bpp) * h
    ensures RowBytes(w, bpp) * (h - 1) + RowBytes(w, bpp) == |packed|
    ensures Unpack(packed, w, h, bpp)
         == Unpack(packed[..RowBytes(w, bpp) * (h - 1)], w, h - 1, bpp) + UnpackRow(packed[RowBytes(w,
                 bpp) * (h - 1)..], w, bpp)
  {
    hide RowBytes, UnpackRow;
    Strides(RowBytes(w, bpp), h - 1, h);
  }
}
