/** The section writers and decoders as they run: cursors over a payload and appends to a buffer
    (src/internal/rv_section.c, rv_export.c, rv_builder.c), proved against the formats of module Records. */
module Sections {
  import opened Types
  import opened Endian
  import opened Buffers
  import opened TableFormat
  import opened Records
  import Dict

  // ----- decoders

  /** The decoders of ROUT, INST, CLBR, WIND, MARK, LINK and NOTE: the length is checked once, then the cursor `p`
      steps over records of one size. */
  method DecodeFixed<T(!new)>(f: Format<T>, size: nat, payload: bytes) returns (r: Option<seq<T>>)
    requires FixedSize(f, size)
    ensures r == DecodeTable(f, payload)
  {
    if |payload| < 8 || U32At(payload, 0) != f.magic {
      return None;
    }
    var count := U32At(payload, 4);
    if count > f.limit {
      return None;
    }
    FixedScan(f, size, payload, count);
    if |payload| < 8 + count * size {
      return None;
    }
    var items := [];
    var p := 8;
    for i := 0 to count
      invariant p == 8 + i * size
      invariant Scan(f, payload, i) == Some((items, p))
    {
      FixedStepFits(f, size, payload, i, count);
      items := items + [f.one(payload, p).value.0];
      p := p + size;
    }
    return Some(items);
  }

  lemma FixedStepFits<T(!new)>(f: Format<T>, size: nat, payload: bytes, i: nat, count: nat)
    requires FixedSize(f, size) && i < count && 8 + count * size <= |payload|
    ensures f.one(payload, 8 + i * size).Some?
    ensures f.one(payload, 8 + i * size).value.1 == 8 + (i + 1) * size
  {
    assert (i + 1) * size <= count * size by {
      assert count * size == (i + 1) * size + (count - i - 1) * size;
    }
    assert StepsBy(f, size, payload, 8 + i * size);
  }

  /** Records of one size are all there exactly when the payload is long enough. */
  lemma {:induction false} FixedScan<T(!new)>(f: Format<T>, size: nat, p: bytes, n: nat)
    requires FixedSize(f, size)
    ensures Scan(f, p, n).Some? <==> n == 0 || 8 + n * size <= |p|
    ensures Scan(f, p, n).Some? ==> Scan(f, p, n).value.1 == 8 + n * size
  {
    if n > 0 {
      FixedScan(f, size, p, n - 1);
      assert n * size == (n - 1) * size + size;
      assert StepsBy(f, size, p, 8 + (n - 1) * size);
    }
  }

  lemma {:induction false} ScanStaysNone<T>(f: Format<T>, p: bytes, i: nat, n: nat)
    requires i <= n && Scan(f, p, i).None?
    ensures Scan(f, p, n).None?
  {
    if i < n {
      ScanStaysNone(f, p, i, n - 1);
    }
  }

  /** The decoders of SNAM and WAVE: each record checks the bytes that remain and says where the next one starts. */
  method DecodeVariable<T>(f: Format<T>, payload: bytes) returns (r: Option<seq<T>>)
    ensures r == DecodeTable(f, payload)
  {
    if |payload| < 8 || U32At(payload, 0) != f.magic {
      return None;
    }
    var count := U32At(payload, 4);
    if count > f.limit {
      return None;
    }
    var items := [];
    var p := 8;
    for i := 0 to count
      invariant Scan(f, payload, i) == Some((items, p))
    {
      var next := f.one(payload, p);
      if next.None? {
        ScanStaysNone(f, payload, i + 1, count);
        return None;
      }
      items := items + [next.value.0];
      p := next.value.1;
    }
    return Some(items);
  }

  /** `rv_decode_snam`: the names, and the hash table over them. */
  method DecodeSnam(hash: Dict.Hash, payload: bytes) returns (r: Option<seq<Name>>, bucket: array<u32>)
    ensures r == DecodeTable(NAME_FORMAT, payload)
    ensures r.Some? ==> Dict.Indexed(hash, r.value, bucket[..])
  {
    r := DecodeVariable(NAME_FORMAT, payload);
    if r.None? {
      bucket := new u32[0];
    } else {
      NameFormatValid();
      DecodedFits(NAME_FORMAT, payload);
      bucket := Dict.BuildBuckets(hash, r.value);
    }
  }

  // ----- writers

  /** Appends one field; `goal` is what the buffer must hold once the fields in `rest` follow. */
  method Field(body: Buf, field: bytes, ghost rest: bytes, ghost goal: bytes) returns (st: Status)
    requires body.Valid() && body.Contents() + (field + rest) == goal
    modifies body, body.data
    ensures body.Valid() && (body.data == old(body.data) || fresh(body.data))
    ensures st.Ok? ==> body.Contents() + rest == goal
    ensures st.Failed? ==> !body.owned || SIZE_MAX / 2 < |goal|
  {
    st := body.Append(field);
    assert body.Contents() + rest == goal || st.Failed? by {
      assert old(body.Contents()) + (field + rest) == (old(body.Contents()) + field) + rest;
    }
  }

  method WriteNameRecord(n: Name, body: Buf) returns (st: Status)
    requires body.Valid()
    modifies body, body.data
    ensures body.Valid() && (body.data == old(body.data) || fresh(body.data))
    ensures st.Ok? ==> body.Contents() == old(body.Contents()) + WriteName(n)
    ensures st.Failed? ==> !body.owned || SIZE_MAX / 2 < |old(body.Contents())| + |WriteName(n)|
  {
    ghost var goal := body.Contents() + WriteName(n);
    ghost var t2 := n.str + Pad(|n.str|);
    ghost var t1 := Put16(|n.str|, t2);
    :- Field(body, Le32(n.id), t1, goal);
    :- Field(body, Le16(|n.str|), t2, goal);
    :- Field(body, n.str, Pad(|n.str|), goal);
    if |n.str| % 2 == 1 {
      :- Field(body, [0], [], goal);
    }
    return Ok;
  }

  method WriteWaveHead(h: WaveHead, body: Buf, ghost rest: bytes, ghost goal: bytes) returns (st: Status)
    requires body.Valid() && body.Contents() + WriteHead(h, rest) == goal
    modifies body, body.data
    ensures body.Valid() && (body.data == old(body.data) || fresh(body.data))
    ensures st.Ok? ==> body.Contents() + rest == goal
    ensures st.Failed? ==> !body.owned || SIZE_MAX / 2 < |goal|
  {
    hide Le32, Le16;
    ghost var t6 := Put16(h.crc, rest);
    ghost var t5 := Put16(h.flags, t6);
    ghost var t4 := Put32(h.stepM, t5);
    ghost var t3 := Put32(h.startM, t4);
    ghost var t2 := Put32(h.count, t3);
    :- Field(body, Le32(h.blockId), Put32(h.windowId, t2), goal);
    :- Field(body, Le32(h.windowId), t2, goal);
    :- Field(body, Le32(h.count), t3, goal);
    :- Field(body, Le32(h.startM), t4, goal);
    :- Field(body, Le32(h.stepM), t5, goal);
    :- Field(body, Le16(h.flags), t6, goal);
    :- Field(body, Le16(h.crc), rest, goal);
    return Ok;
  }

  method WriteWaveRecord(w: Wave, body: Buf) returns (st: Status)
    requires body.Valid()
    modifies body, body.data
    ensures body.Valid() && (body.data == old(body.data) || fresh(body.data))
    ensures st.Ok? ==> body.Contents() == old(body.Contents()) + WriteWave(w)
    ensures st.Failed? ==> !body.owned || SIZE_MAX / 2 < |old(body.Contents())| + |WriteWave(w)|
  {
    ghost var goal := body.Contents() + WriteWave(w);
    var samples := WriteSamples(w.samples);
    :- WriteWaveHead(HeadOf(w), body, samples, goal);
    :- Field(body, samples, [], goal);
    return Ok;
  }

  method WriteTableHead(magic: u32, count: u32, body: Buf) returns (st: Status)
    requires body.Valid()
    modifies body, body.data
    ensures body.Valid() && (body.data == old(body.data) || fresh(body.data))
    ensures st.Ok? ==> body.Contents() == old(body.Contents()) + (Le32(magic) + Le32(count))
    ensures st.Failed? ==> !body.owned || SIZE_MAX / 2 < |old(body.Contents())| + 8
  {
    ghost var goal := body.Contents() + (Le32(magic) + Le32(count));
    :- Field(body, Le32(magic), Le32(count), goal);
    :- body.AppendU32(count);
    return Ok;
  }

  /** What the buffer holds after `i` records. */
  ghost function Written<T>(before: bytes, f: Format<T>, xs: seq<T>, i: nat): bytes
    requires i <= |xs| < TWO32
  {
    before + (Le32(f.magic) + Le32(|xs|)) + EncodeAll(f.enc, xs[..i])
  }

  lemma WrittenNext<T>(before: bytes, f: Format<T>, xs: seq<T>, i: nat)
    requires i < |xs| < TWO32
    ensures Written(before, f, xs, i) + f.enc(xs[i]) == Written(before, f, xs, i + 1)
    ensures |Written(before, f, xs, i + 1)| <= |before| + |EncodeTable(f, xs)|
  {
    EncodeAllAt(f.enc, xs, i);
  }

  lemma WrittenAll<T>(before: bytes, f: Format<T>, xs: seq<T>)
    requires |xs| < TWO32
    ensures Written(before, f, xs, |xs|) == before + EncodeTable(f, xs)
  {
    assert xs[..|xs|] == xs;
  }

  /** The writers of the sections with records of one size. */
  method WriteFixed<T>(f: Format<T>, xs: seq<T>, body: Buf) returns (st: Status)
    requires |xs| < TWO32 && body.Valid()
    modifies body, body.data
    ensures body.Valid() && (body.data == old(body.data) || fresh(body.data))
    ensures st.Ok? ==> body.Contents() == old(body.Contents()) + EncodeTable(f, xs)
    ensures st.Failed? ==> !body.owned || SIZE_MAX / 2 < |old(body.Contents())| + |EncodeTable(f, xs)|
  {
    ghost var before := body.Contents();
    :- WriteTableHead(f.magic, |xs|, body);
    for i := 0 to |xs|
      invariant body.Valid() && (body.data == old(body.data) || fresh(body.data))
      invariant body.Contents() == Written(before, f, xs, i)
    {
      WrittenNext(before, f, xs, i);
      :- body.Append(f.enc(xs[i]));
    }
    WrittenAll(before, f, xs);
    return Ok;
  }

  method WriteNames(xs: seq<Name>, body: Buf) returns (st: Status)
    requires |xs| < TWO32 && body.Valid()
    modifies body, body.data
    ensures body.Valid() && (body.data == old(body.data) || fresh(body.data))
    ensures st.Ok? ==> body.Contents() == old(body.Contents()) + EncodeTable(NAME_FORMAT, xs)
    ensures st.Failed? ==> !body.owned || SIZE_MAX / 2 < |old(body.Contents())| + |EncodeTable(NAME_FORMAT, xs)|
  {
    ghost var before := body.Contents();
    :- WriteTableHead(NAME_FORMAT.magic, |xs|, body);
    for i := 0 to |xs|
      invariant body.Valid() && (body.data == old(body.data) || fresh(body.data))
      invariant body.Contents() == Written(before, NAME_FORMAT, xs, i)
    {
      WrittenNext(before, NAME_FORMAT, xs, i);
      :- WriteNameRecord(xs[i], body);
    }
    WrittenAll(before, NAME_FORMAT, xs);
    return Ok;
  }

  /** `rv_export_wave` and `rv_b_append_wave`.  A compact export may leave the samples out: then the table is empty. */
  method WriteWaves(ws: seq<StoredWave>, body: Buf, withSamples: bool) returns (st: Status)
    requires |ws| < TWO32 && body.Valid()
    modifies body, body.data
    ensures body.Valid() && (body.data == old(body.data) || fresh(body.data))
    ensures var table := if withSamples then ws else [];
            && (st.Ok? ==> body.Contents() == old(body.Contents()) + EncodeTable(WAVE_FORMAT, table))
            && (st.Failed? ==> !body.owned || SIZE_MAX / 2 < |old(body.Contents())| + |EncodeTable(WAVE_FORMAT, table)|)
  {
    ghost var table := if withSamples then ws else [];
    :- WriteTableHead(WAVE_FORMAT.magic, if withSamples then |ws| else 0, body);
    if !withSamples {
      return Ok;
    }
    for i := 0 to |ws|
      invariant body.Valid() && (body.data == old(body.data) || fresh(body.data))
      invariant body.Contents() == Written(old(body.Contents()), WAVE_FORMAT, ws, i)
    {
      WrittenNext(old(body.Contents()), WAVE_FORMAT, ws, i);
      :- WriteWaveRecord(ws[i], body);
    }
    WrittenAll(old(body.Contents()), WAVE_FORMAT, ws);
    return Ok;
  }

  method WriteSummary(s: Summ, body: Buf) returns (st: Status)
    requires body.Valid()
    modifies body, body.data
    ensures body.Valid() && (body.data == old(body.data) || fresh(body.data))
    ensures st.Ok? ==> body.Contents() == old(body.Contents()) + WriteSumm(s)
    ensures st.Failed? ==> !body.owned || SIZE_MAX / 2 < |old(body.Contents())| + |WriteSumm(s)|
  {
    st := body.Append(WriteSumm(s));
  }
}
