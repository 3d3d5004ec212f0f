/** Little-endian integers (src/internal/rv_endian.h).

    The C code joins bytes with shifts and ors.  The bytes fill disjoint bits, so the value is the positional sum. */
module Endian {
  import opened Types

  function Le16(v: u16): (b: bytes)
    ensures |b| == 2
  {
    [v % 0x100, v / 0x100]
  }

  function Le32(v: u32): (b: bytes)
    ensures |b| == 4
  {
    Le16(v % TWO16) + Le16(v / TWO16)
  }

  function Le64(v: u64): (b: bytes)
    ensures |b| == 8
  {
    Le32(v % TWO32) + Le32(v / TWO32)
  }

  function U16At(p: bytes, i: nat): u16
    requires i + 2 <= |p|
  {
    p[i] as int + 0x100 * p[i + 1] as int
  }

  function U32At(p: bytes, i: nat): u32
    requires i + 4 <= |p|
  {
    U16At(p, i) + TWO16 * U16At(p, i + 2)
  }

  function U64At(p: bytes, i: nat): u64
    requires i + 8 <= |p|
  {
    U32At(p, i) + TWO32 * U32At(p, i + 4)
  }

  // Reading and writing are inverse, at every width and offset.

  lemma Inverse16(p: bytes, i: nat, v: u16)
    requires i + 2 <= |p|
    ensures U16At(p, i) == v <==> p[i..i + 2] == Le16(v)
  {
    assert p[i..i + 2] == [p[i], p[i + 1]];
  }

  lemma Inverse32(p: bytes, i: nat, v: u32)
    requires i + 4 <= |p|
    ensures U32At(p, i) == v <==> p[i..i + 4] == Le32(v)
  {
    Inverse16(p, i, v % TWO16);
    Inverse16(p, i + 2, v / TWO16);
    assert p[i..i + 4] == p[i..i + 2] + p[i + 2..i + 4];
    assert p[i..i + 4] == Le32(v) <==> p[i..i + 2] == Le16(v % TWO16) && p[i + 2..i + 4] == Le16(v / TWO16) by {
      if p[i..i + 4] == Le32(v) {
        assert p[i..i + 4][..2] == p[i..i + 2] && p[i..i + 4][2..] == p[i + 2..i + 4];
      }
    }
  }

  lemma Inverse64(p: bytes, i: nat, v: u64)
    requires i + 8 <= |p|
    ensures U64At(p, i) == v <==> p[i..i + 8] == Le64(v)
  {
    Inverse32(p, i, v % TWO32);
    Inverse32(p, i + 4, v / TWO32);
    assert p[i..i + 8] == p[i..i + 4] + p[i + 4..i + 8];
    assert p[i..i + 8] == Le64(v) <==> p[i..i + 4] == Le32(v % TWO32) && p[i + 4..i + 8] == Le32(v / TWO32) by {
      if p[i..i + 8] == Le64(v) {
        assert p[i..i + 8][..4] == p[i..i + 4] && p[i..i + 8][4..] == p[i + 4..i + 8];
      }
    }
  }
}
