/** Growable byte buffers (src/internal/rv_buf.c). */
module Buffers {
  import opened Types
  import opened Endian

  const SIZE_MAX: int := TWO64 - 1

  /** Doubling until `need` fits, or no result when that leaves `size_t`. */
  function Grown(cap: nat, need: nat): (r: Option<nat>)
    requires 0 < cap <= SIZE_MAX && need <= SIZE_MAX
    ensures r.Some? ==> cap <= r.value <= SIZE_MAX && need <= r.value
    ensures r.None? ==> SIZE_MAX / 2 < need
    decreases need - cap
  {
    if need <= cap then Some(cap) else if cap > SIZE_MAX / 2 then None else Grown(2 * cap, need)
  }

  /** The first power-of-two multiple of the capacity that suffices, when it can be represented. */
  lemma {:induction false} GrownIsFirst(cap: nat, need: nat, k: nat)
    requires 0 < cap <= SIZE_MAX && need <= SIZE_MAX
    requires need <= cap * Pow2(k) && forall j | 0 <= j < k :: cap * Pow2(j) < need
    ensures Grown(cap, need) == if cap * Pow2(k) <= SIZE_MAX then Some(cap * Pow2(k)) else None
    decreases k
  {
    hide Pow2;
    Once(cap);
    if k > 0 {
      assert cap * Pow2(0) < need;
      Twice(cap, k - 1);
      if cap <= SIZE_MAX / 2 {
        forall j | 0 <= j < k - 1 ensures 2 * cap * Pow2(j) < need {
          Twice(cap, j);
          assert cap * Pow2(j + 1) < need;
        }
        GrownIsFirst(2 * cap, need, k - 1);
      }
    }
  }

  lemma Twice(cap: nat, j: nat)
    ensures cap * Pow2(j + 1) == 2 * cap * Pow2(j) >= 2 * cap
  {
    if j > 0 {
      Twice(cap, j - 1);
      assert 2 * cap * Pow2(j) == 2 * (cap * Pow2(j));
    }
  }

  lemma Once(cap: nat)
    ensures cap * Pow2(0) == cap
  {
  }

  class Buf {
    var data: array<u8>
    var size: nat
    /** Wrapped memory can belong to the caller; it is never replaced. */
    const owned: bool

    ghost predicate Valid()
      reads this
    {
      size <= data.Length <= SIZE_MAX
    }

    ghost function Contents(): bytes
      reads this, data
      requires Valid()
    {
      data[..size]
    }

    /** `rv_buf_init`: a capacity of zero becomes 64. */
    constructor (cap: nat)
      requires cap <= SIZE_MAX
      ensures Valid() && Contents() == [] && fresh(data) && owned
      ensures data.Length == if cap == 0 then 64 else cap
    {
      data := new u8[if cap == 0 then 64 else cap];
      size, owned := 0, true;
    }

    /** `rv_buf_wrap`: the buffer is full with the bytes that it is given. */
    constructor Wrap(data: array<u8>, takeOwnership: bool)
      requires data.Length <= SIZE_MAX
      ensures Valid() && this.data == data && Contents() == data[..] && owned == takeOwnership
    {
      this.data, size, owned := data, data.Length, takeOwnership;
    }

    /** `rv_buf_reserve`: doubles the capacity until it suffices, from 64 for an empty buffer; fails only when a
        doubling would overflow or the memory is not the buffer's own. */
    method Reserve(need: nat) returns (st: Status)
      requires Valid() && need <= SIZE_MAX
      modifies this`data
      ensures Valid() && Contents() == old(Contents()) && (data == old(data) || fresh(data))
      ensures var start := if old(data.Length) == 0 then 64 else old(data.Length);
              if need <= old(data.Length) then st.Ok? && data == old(data)
              else if owned && Grown(start, need).Some? then st.Ok? && data.Length == Grown(start, need).value
              else st.Failed? && data == old(data)
    {
      if need <= data.Length {
        return Ok;
      }
      if !owned {
        return Failed;
      }
      var ncap := if data.Length == 0 then 64 else data.Length;
      ghost var start := ncap;
      while ncap < need
        invariant data.Length <= start <= ncap <= SIZE_MAX && Grown(start, need) == Grown(ncap, need)
        decreases need - ncap
      {
        if ncap > SIZE_MAX / 2 {
          return Failed;
        }
        ncap := ncap * 2;
      }
      var grown := new u8[ncap];
      forall i | 0 <= i < size {
        grown[i] := data[i];
      }
      assert grown[..size] == data[..size];
      data := grown;
      return Ok;
    }

    /** `rv_buf_append` */
    method Append(src: bytes) returns (st: Status)
      requires Valid()
      modifies this, data
      ensures Valid() && (data == old(data) || fresh(data))
      ensures Contents() == if st.Ok? then old(Contents()) + src else old(Contents())
      ensures st.Failed? ==> !owned || SIZE_MAX / 2 < |old(Contents())| + |src|
    {
      hide Grown;
      if |src| == 0 {
        return Ok;
      }
      if size + |src| > SIZE_MAX {
        return Failed;
      }
      :- Reserve(size + |src|);
      ghost var before := Contents();
      forall i | 0 <= i < |src| {
        data[size + i] := src[i];
      }
      size := size + |src|;
      assert Contents()[..|before|] == before;
      return Ok;
    }

    method AppendU32(v: u32) returns (st: Status)
      requires Valid()
      modifies this, data
      ensures Valid() && (data == old(data) || fresh(data))
      ensures st.Ok? ==> Contents() == old(Contents()) + Le32(v)
      ensures st.Failed? ==> !owned || SIZE_MAX / 2 < |old(Contents())| + 4
    {
      st := Append(Le32(v));
    }
  }

  /** `rv_slice_sub`: a checked sub-range. */
  function SliceSub(base: bytes, off: nat, len: nat): Option<bytes> {
    if off > |base| || len > |base| - off then None else Some(base[off..off + len])
  }
}
