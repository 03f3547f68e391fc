/** Growable byte buffers and bounds-checked readers (common/rd_bytes.c). */
module Buffers {
  import opened Bytes

  class RdBuf {
    var data: array<byte>
    var len: nat

    ghost predicate Valid()
      reads this
    {
      len <= data.Length
    }

    ghost function Contents(): (s: seq<byte>)
      requires Valid()
      reads this, data
      ensures |s| == len
    {
      data[..len]
    }

    constructor ()
      ensures Valid() && fresh(data) && Contents() == []
    {
      data := new byte[0];
      len := 0;
    }

    method Clear()
      requires Valid()
      modifies this
      ensures Valid() && data == old(data) && Contents() == []
    {
      len := 0;
    }

    /** Makes room for `extra` more bytes by doubling. */
    method Reserve(extra: nat)
      requires Valid()
      modifies this
      ensures Valid() && Contents() == old(Contents()) && len + extra <= data.Length
      ensures data == old(data) || fresh(data)
      ensures data == old(data) || data.Length < 2 * Max(256, old(len) + extra)
    {
      var need := len + extra;
      if need <= data.Length { return; }
      var ncap := if data.Length != 0 then data.Length else 256;
      while ncap < need
        invariant 0 < ncap
        invariant ncap == 256 || ncap < 2 * need
      {
        ncap := ncap * 2;
      }
      var nd := new byte[ncap];
      forall i | 0 <= i < len { nd[i] := data[i]; }
      data := nd;
      assert data[..len] == old(data[..len]);
    }

    /** Appends `n` bytes of unknown value and returns where they start. */
    method Grow(n: nat) returns (at: nat)
      requires Valid()
      modifies this
      ensures Valid() && at == old(len) && len == at + n && Contents()[..at] == old(Contents())
      ensures data == old(data) || fresh(data)
    {
      Reserve(n);
      at := len;
      ghost var before := Contents();
      len := len + n;
      assert Contents()[..at] == before;
    }

    method Put(p: seq<byte>)
      requires Valid()
      modifies this, data
      ensures Valid() && Contents() == old(Contents()) + p
      ensures data == old(data) || fresh(data)
    {
      if |p| == 0 { return; }
      var at := Grow(|p|);
      ghost var before := Contents()[..at];
      forall i | 0 <= i < |p| { data[at + i] := p[i]; }
      assert data[..at] == before;
      assert data[at..len] == p;
      assert data[..len] == data[..at] + data[at..len];
    }

    /** Drops the first `n` bytes by moving the rest down. */
    method Consume(n: nat)
      requires Valid()
      modifies this, data
      ensures Valid() && data == old(data)
      ensures Contents() == if n <= old(len) then old(Contents())[n..] else []
    {
      if n >= len {
        len := 0;
        return;
      }
      forall i | 0 <= i < len - n { data[i] := data[n + i]; }
      len := len - n;
      assert data[..len] == old(data[n..len]);
    }

    /** Overwrites `p` at `off` when it lies inside the contents. */
    method Patch(off: nat, p: seq<byte>)
      requires Valid()
      modifies data
      ensures Valid() && len == old(len)
      ensures Contents() == if off + |p| <= old(len)
                            then old(Contents())[..off] + p + old(Contents())[off + |p|..]
                            else old(Contents())
    {
      if off + |p| <= len {
        forall i | 0 <= i < |p| { data[off + i] := p[i]; }
        assert data[..off] == old(data[..off]);
        assert data[off..off + |p|] == p;
        assert data[off + |p|..len] == old(data[off + |p|..len]);
        assert data[..len] == data[..off] + data[off..off + |p|] + data[off + |p|..len];
        assert old(data[..len])[off + |p|..] == old(data[off + |p|..len]);
        assert old(data[..len])[..off] == old(data[..off]);
      }
    }

    method PutU8(v: byte)
      requires Valid()
      modifies this, data
      ensures Valid() && Contents() == old(Contents()) + [v]
      ensures data == old(data) || fresh(data)
    {
      Put([v]);
    }

    method PutU16(v: u16)
      requires Valid()
      modifies this, data
      ensures Valid() && Contents() == old(Contents()) + LeBytes(v, 2)
      ensures data == old(data) || fresh(data)
    {
      Put(LeBytes(v, 2));
    }

    method PutU32(v: u32)
      requires Valid()
      modifies this, data
      ensures Valid() && Contents() == old(Contents()) + LeBytes(v, 4)
      ensures data == old(data) || fresh(data)
    {
      Put(LeBytes(v, 4));
    }
  }

  /** A reader over fixed input with a sticky error flag: after the first
      underflow every read fails and yields zeros. */
  class RdReader {
    const p: seq<byte>
    var pos: nat
    var err: bool

    ghost predicate Valid()
      reads this
    {
      pos <= |p|
    }

    constructor (p: seq<byte>)
      ensures Valid() && this.p == p && pos == 0 && !err
    {
      this.p := p;
      pos := 0;
      err := false;
    }

    method GetBytes(n: nat) returns (s: Option<seq<byte>>)
      requires Valid()
      modifies this
      ensures Valid()
      ensures s == if old(err) || |p| - old(pos) < n then None else Some(p[old(pos)..old(pos) + n])
      ensures err == s.None? && pos == if s.None? then old(pos) else old(pos) + n
    {
      if err || |p| - pos < n {
        err := true;
        return None;
      }
      s := Some(p[pos..pos + n]);
      pos := pos + n;
    }

    /** The little-endian value of the next `n` bytes, 0 on underflow. */
    method GetLe(n: nat) returns (v: nat)
      requires Valid()
      modifies this
      ensures Valid() && v < Pow256(n)
      ensures err == (old(err) || |p| - old(pos) < n) && pos == if err then old(pos) else old(pos) + n
      ensures v == if err then 0 else LeValue(p[old(pos)..old(pos) + n])
    {
      var s := GetBytes(n);
      if s.None? { return 0; }
      LeValueBound(s.value);
      v := LeValue(s.value);
    }
  }
}
