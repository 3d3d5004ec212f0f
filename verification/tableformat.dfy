/** A section payload in general: a magic word, a record count and the records.

    A format says how one record is written (`enc`), how the record at a position is read (`one`, which also gives
    the position after it) and which records a reader accepts (`ok`).  The results hold for every format whose
    reader undoes its writer: decoding gives back exactly the records that were written, and fails on any payload
    cut short. */
module TableFormat {
  import opened Types
  import opened Endian

  datatype Format<!T> = Format(magic: u32, limit: u32, enc: T -> bytes, ok: T -> bool,
                               one: (bytes, nat) -> Option<(T, nat)>)

  function EncodeAll<T>(enc: T -> bytes, xs: seq<T>): bytes {
    if xs == [] then [] else EncodeAll(enc, xs[..|xs| - 1]) + enc(xs[|xs| - 1])
  }

  function EncodeTable<T>(f: Format<T>, xs: seq<T>): bytes
    requires |xs| < TWO32
  {
    Le32(f.magic) + Le32(|xs|) + EncodeAll(f.enc, xs)
  }

  /** The first `i` records and the position after them. */
  function Scan<T>(f: Format<T>, p: bytes, i: nat): Option<(seq<T>, nat)> {
    if i == 0 then Some(([], 8))
    else
      var (xs, pos) :- Scan(f, p, i - 1);
      var (x, next) :- f.one(p, pos);
      Some((xs + [x], next))
  }

  function DecodeTable<T>(f: Format<T>, p: bytes): Option<seq<T>> {
    if |p| < 8 || U32At(p, 0) != f.magic || U32At(p, 4) > f.limit then None
    else
      var (xs, _) :- Scan(f, p, U32At(p, 4));
      Some(xs)
  }

  // ----- what a format must satisfy

  /** Reading a written record gives it back. */
  ghost predicate Inverts<T>(f: Format<T>, x: T, p: bytes, pos: nat) {
    pos <= |p| && f.enc(x) <= p[pos..] ==>
      f.one(p, pos) == if f.ok(x) then Some((x, pos + |f.enc(x)|)) else None
  }

  /** A record cut short is not read. */
  ghost predicate NeedsAll<T>(f: Format<T>, x: T, p: bytes, pos: nat) {
    pos <= |p| && p[pos..] < f.enc(x) ==> f.one(p, pos).None?
  }

  /** What is read is an acceptable record, it lies in the payload and it takes as many bytes as it is written in. */
  ghost predicate Fits<T>(f: Format<T>, p: bytes, pos: nat) {
    f.one(p, pos).Some? ==>
      var (x, next) := f.one(p, pos).value;
      f.ok(x) && next == pos + |f.enc(x)| <= |p|
  }

  ghost predicate Valid<T(!new)>(f: Format<T>) {
    && (forall x, p, pos :: Inverts(f, x, p, pos))
    && (forall x, p, pos :: NeedsAll(f, x, p, pos))
    && (forall p, pos :: Fits(f, p, pos))
  }

  /** The bytes read are the bytes the record is written in: the format has no slack. */
  ghost predicate ReadsBytes<T>(f: Format<T>, p: bytes, pos: nat) {
    f.one(p, pos).Some? ==>
      var (x, next) := f.one(p, pos).value;
      pos <= next <= |p| && p[pos..next] == f.enc(x)
  }

  ghost predicate Exact<T(!new)>(f: Format<T>) {
    Valid(f) && forall p, pos :: ReadsBytes(f, p, pos)
  }

  ghost predicate AllOk<T>(f: Format<T>, xs: seq<T>) {
    forall i | 0 <= i < |xs| :: f.ok(xs[i])
  }

  // ----- consequences for whole payloads

  lemma {:induction false} EncodeAllAt<T>(enc: T -> bytes, xs: seq<T>, i: nat)
    requires i < |xs|
    ensures EncodeAll(enc, xs[..i + 1]) == EncodeAll(enc, xs[..i]) + enc(xs[i])
    ensures EncodeAll(enc, xs[..i + 1]) <= EncodeAll(enc, xs)
    decreases |xs| - i
  {
    assert xs[..i + 1][..i] == xs[..i];
    if i + 1 == |xs| {
      assert xs[..i + 1] == xs;
    } else {
      EncodeAllAt(enc, xs, i + 1);
      assert xs[..i + 2][..i + 1] == xs[..i + 1];
    }
  }

  /** Where record `i` of a written payload stands. */
  lemma RecordAt<T>(f: Format<T>, xs: seq<T>, i: nat)
    requires i < |xs| < TWO32
    ensures var pos := 8 + |EncodeAll(f.enc, xs[..i])|;
            && pos + |f.enc(xs[i])| == 8 + |EncodeAll(f.enc, xs[..i + 1])| <= |EncodeTable(f, xs)|
            && EncodeTable(f, xs)[pos..pos + |f.enc(xs[i])|] == f.enc(xs[i])
  {
    EncodeAllAt(f.enc, xs, i);
    var pos := 8 + |EncodeAll(f.enc, xs[..i])|;
    var body, head := EncodeAll(f.enc, xs), EncodeAll(f.enc, xs[..i + 1]);
    assert body[..|head|] == head;
    assert EncodeTable(f, xs)[8..] == body;
    assert EncodeTable(f, xs)[pos..pos + |f.enc(xs[i])|] == body[pos - 8..|head|] == head[pos - 8..];
  }

  /** `p` holds the written payload and maybe more, or only its beginning. */
  ghost predicate Comparable(p: bytes, e: bytes) {
    p <= e || e <= p
  }

  lemma OneWritten<T(!new)>(f: Format<T>, x: T, p: bytes, e: bytes, pos: nat)
    requires Valid(f) && Comparable(p, e) && pos <= |p|
    requires pos + |f.enc(x)| <= |e| && e[pos..pos + |f.enc(x)|] == f.enc(x)
    ensures f.one(p, pos) ==
            if f.ok(x) && pos + |f.enc(x)| <= |p| then Some((x, pos + |f.enc(x)|)) else None
  {
    if pos + |f.enc(x)| <= |p| {
      assert p[pos..pos + |f.enc(x)|] == e[pos..pos + |f.enc(x)|];
      assert f.enc(x) <= p[pos..];
      assert Inverts(f, x, p, pos);
    } else {
      assert p[pos..] == e[pos..|p|] == f.enc(x)[..|p| - pos];
      assert NeedsAll(f, x, p, pos);
    }
  }

  lemma {:induction false} ScanWritten<T(!new)>(f: Format<T>, xs: seq<T>, p: bytes, i: nat)
    requires Valid(f) && i <= |xs| < TWO32 && 8 <= |p|
    requires Comparable(p, EncodeTable(f, xs))
    ensures var end := 8 + |EncodeAll(f.enc, xs[..i])|;
            Scan(f, p, i) == if AllOk(f, xs[..i]) && end <= |p| then Some((xs[..i], end)) else None
  {
    if i > 0 {
      ScanWritten(f, xs, p, i - 1);
      RecordAt(f, xs, i - 1);
      assert xs[..i] == xs[..i - 1] + [xs[i - 1]];
      var pos := 8 + |EncodeAll(f.enc, xs[..i - 1])|;
      if AllOk(f, xs[..i - 1]) && pos <= |p| {
        OneWritten(f, xs[i - 1], p, EncodeTable(f, xs), pos);
      }
    }
  }

  /** Decoding undoes encoding.  It accepts a payload that begins with the encoding, unless there are too many records
      or one of them is unacceptable, and rejects every proper prefix of the encoding. */
  lemma DecodeWritten<T(!new)>(f: Format<T>, xs: seq<T>, p: bytes)
    requires Valid(f) && |xs| < TWO32
    requires Comparable(p, EncodeTable(f, xs))
    ensures DecodeTable(f, p) ==
            if |xs| <= f.limit && AllOk(f, xs) && EncodeTable(f, xs) <= p then Some(xs) else None
  {
    if 8 <= |p| {
      var e := EncodeTable(f, xs);
      assert p[0..4] == e[0..4] == Le32(f.magic);
      assert p[4..8] == e[4..8] == Le32(|xs|);
      Inverse32(p, 0, f.magic);
      Inverse32(p, 4, |xs|);
      ScanWritten(f, xs, p, |xs|);
      assert xs[..|xs|] == xs;
    }
  }

  lemma {:induction false} ScanFits<T(!new)>(f: Format<T>, p: bytes, i: nat)
    requires Valid(f) && 8 <= |p| && Scan(f, p, i).Some?
    ensures var (xs, pos) := Scan(f, p, i).value;
            |xs| == i && AllOk(f, xs) && pos == 8 + |EncodeAll(f.enc, xs)| <= |p|
  {
    if i > 0 {
      ScanFits(f, p, i - 1);
      var (xs, pos) := Scan(f, p, i - 1).value;
      assert Fits(f, p, pos);
      var (x, _) := f.one(p, pos).value;
      assert (xs + [x])[..|xs|] == xs;
    }
  }

  /** Decoded tables are within the limits and, written out again, are no longer than the payload they came from. */
  lemma DecodedFits<T(!new)>(f: Format<T>, p: bytes)
    requires Valid(f) && DecodeTable(f, p).Some?
    ensures var xs := DecodeTable(f, p).value;
            |xs| <= f.limit && AllOk(f, xs) && |EncodeTable(f, xs)| <= |p|
  {
    ScanFits(f, p, U32At(p, 4));
  }

  lemma {:induction false} ScanExact<T(!new)>(f: Format<T>, p: bytes, i: nat)
    requires Exact(f) && 8 <= |p| && Scan(f, p, i).Some?
    ensures var (xs, pos) := Scan(f, p, i).value;
            8 <= pos <= |p| && EncodeAll(f.enc, xs) == p[8..pos]
  {
    if i > 0 {
      ScanExact(f, p, i - 1);
      var (xs, pos) := Scan(f, p, i - 1).value;
      assert ReadsBytes(f, p, pos);
      var (x, next) := f.one(p, pos).value;
      assert (xs + [x])[..|xs|] == xs;
      assert p[8..next] == p[8..pos] + p[pos..next];
    }
  }

  /** For a format without slack the decoder accepts exactly the payloads that begin with an encoding. */
  lemma DecodeExactly<T(!new)>(f: Format<T>, p: bytes, xs: seq<T>)
    requires Exact(f)
    ensures DecodeTable(f, p) == Some(xs) <==>
            |xs| <= f.limit && AllOk(f, xs) && EncodeTable(f, xs) <= p
  {
    if DecodeTable(f, p) == Some(xs) {
      DecodedFits(f, p);
      ScanFits(f, p, U32At(p, 4));
      ScanExact(f, p, U32At(p, 4));
      Inverse32(p, 0, f.magic);
      Inverse32(p, 4, |xs|);
      assert p[..|EncodeTable(f, xs)|] == p[0..4] + p[4..8] + p[8..|EncodeTable(f, xs)|];
    } else if |xs| <= f.limit && AllOk(f, xs) && EncodeTable(f, xs) <= p {
      DecodeWritten(f, xs, p);
    }
  }

  // ----- formats whose records all have one size

  ghost predicate SizeIs<T>(f: Format<T>, size: nat, x: T) {
    |f.enc(x)| == size && f.ok(x)
  }

  /** A record is read exactly when `size` bytes are left, and those are its bytes. */
  ghost predicate StepsBy<T>(f: Format<T>, size: nat, p: bytes, pos: nat) {
    && (f.one(p, pos).Some? <==> pos + size <= |p|)
    && (f.one(p, pos).Some? ==>
          f.one(p, pos).value.1 == pos + size && p[pos..pos + size] == f.enc(f.one(p, pos).value.0))
  }

  ghost predicate ReadsBack<T>(f: Format<T>, size: nat, p: bytes, pos: nat, x: T) {
    pos + size <= |p| && p[pos..pos + size] == f.enc(x) ==> f.one(p, pos) == Some((x, pos + size))
  }

  ghost predicate FixedSize<T(!new)>(f: Format<T>, size: nat) {
    && size > 0
    && (forall x :: SizeIs(f, size, x))
    && (forall p, pos :: StepsBy(f, size, p, pos))
    && (forall p, pos, x :: ReadsBack(f, size, p, pos, x))
  }

  lemma FixedIsExact<T(!new)>(f: Format<T>, size: nat)
    requires FixedSize(f, size)
    ensures Exact(f)
  {
    forall x, p, pos ensures Inverts(f, x, p, pos) && NeedsAll(f, x, p, pos) {
      assert SizeIs(f, size, x) && StepsBy(f, size, p, pos) && ReadsBack(f, size, p, pos, x);
    }
    forall p, pos ensures Fits(f, p, pos) && ReadsBytes(f, p, pos) {
      assert StepsBy(f, size, p, pos);
      if f.one(p, pos).Some? {
        assert SizeIs(f, size, f.one(p, pos).value.0);
      }
    }
  }
}
