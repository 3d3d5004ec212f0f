/** The file image: header, section directory and section bodies
    (src/internal/rv_format.c and the common tail of rv_export_build and rv_builder_serialize). */
module Image {
  import opened Types
  import opened Endian
  import opened Buffers
  import opened TableFormat
  import opened Records
  import opened Crc

  const HEADER_SIZE := 64
  const ENTRY_SIZE := 24
  const MAX_SECTIONS := 64
  /** The bytes `RVPK`. */
  const MAGIC: u32 := 0x4B50_5652

  datatype FileHeader = FileHeader(verMajor: u16, verMinor: u16, flags: u32, headerCrc: u32, createdUnix: u64,
                                   sectionCount: u32, dirOffset: u32, totalSize: u64, featureBits: u32,
                                   reserved0: u32, reserved1: u64)

  function WriteHeaderFront(h: FileHeader, rest: bytes): bytes {
    Put32(MAGIC, Put16(h.verMajor, Put16(h.verMinor, Put32(h.flags, Put32(h.headerCrc, rest)))))
  }

  function WriteHeader(h: FileHeader): bytes {
    WriteHeaderFront(h, WriteHeaderRest(h))
  }

  function WriteHeaderRest(h: FileHeader): bytes {
    Put64(h.createdUnix, Put32(h.sectionCount, Put32(h.dirOffset, Put64(h.totalSize, Put32(h.featureBits,
    Put32(h.reserved0, Put64(h.reserved1, Put64(0, []))))))))
  }

  function HeaderAt(p: bytes): FileHeader
    requires HEADER_SIZE <= |p|
  {
    FileHeader(U16At(p, 4), U16At(p, 6), U32At(p, 8), U32At(p, 12), U64At(p, 16), U32At(p, 24), U32At(p, 28),
               U64At(p, 32), U32At(p, 40), U32At(p, 44), U64At(p, 48))
  }

  lemma HeaderRestReadBack(h: FileHeader, p: bytes, i: nat)
    ensures |WriteHeaderRest(h)| == 48
    ensures i + 48 <= |p| ==>
              (p[i..i + 48] == WriteHeaderRest(h) <==>
               && U64At(p, i) == h.createdUnix && U32At(p, i + 8) == h.sectionCount && U32At(p, i + 12) == h.dirOffset
               && U64At(p, i + 16) == h.totalSize && U32At(p, i + 24) == h.featureBits
               && U32At(p, i + 28) == h.reserved0 && U64At(p, i + 32) == h.reserved1 && U64At(p, i + 40) == 0)
  {
    var t7 := Put64(0, []);
    var t6 := Put64(h.reserved1, t7);
    var t5 := Put32(h.reserved0, t6);
    var t4 := Put32(h.featureBits, t5);
    var t3 := Put64(h.totalSize, t4);
    var t2 := Put32(h.dirOffset, t3);
    var t1 := Put32(h.sectionCount, t2);
    if i + 48 <= |p| {
      Take64(p, i, h.createdUnix, t1);
      Take32(p, i + 8, h.sectionCount, t2);
      Take32(p, i + 12, h.dirOffset, t3);
      Take64(p, i + 16, h.totalSize, t4);
      Take32(p, i + 24, h.featureBits, t5);
      Take32(p, i + 28, h.reserved0, t6);
      Take64(p, i + 32, h.reserved1, t7);
      Take64(p, i + 40, 0, []);
    }
  }

  lemma HeaderFrontReadBack(h: FileHeader, p: bytes, i: nat, rest: bytes)
    ensures |WriteHeaderFront(h, rest)| == 16 + |rest|
    ensures i + 16 + |rest| <= |p| ==>
              (p[i..i + 16 + |rest|] == WriteHeaderFront(h, rest) <==>
               && U32At(p, i) == MAGIC && U16At(p, i + 4) == h.verMajor && U16At(p, i + 6) == h.verMinor
               && U32At(p, i + 8) == h.flags && U32At(p, i + 12) == h.headerCrc
               && p[i + 16..i + 16 + |rest|] == rest)
  {
    var t4 := Put32(h.headerCrc, rest);
    var t3 := Put32(h.flags, t4);
    var t2 := Put16(h.verMinor, t3);
    var t1 := Put16(h.verMajor, t2);
    if i + 16 + |rest| <= |p| {
      Take32(p, i, MAGIC, t1);
      Take16(p, i + 4, h.verMajor, t2);
      Take16(p, i + 6, h.verMinor, t3);
      Take32(p, i + 8, h.flags, t4);
      Take32(p, i + 12, h.headerCrc, rest);
    }
  }

  lemma HeaderReadBack(h: FileHeader, p: bytes)
    ensures |WriteHeader(h)| == HEADER_SIZE
    ensures |p| >= HEADER_SIZE ==>
              (WriteHeader(h) <= p <==> U32At(p, 0) == MAGIC && HeaderAt(p) == h && U64At(p, 56) == 0)
    ensures WriteHeader(h) <= p ==> |p| >= HEADER_SIZE
  {
    hide WriteHeaderFront, WriteHeaderRest, U16At, U32At, U64At;
    var rest := WriteHeaderRest(h);
    HeaderRestReadBack(h, p, 16);
    HeaderFrontReadBack(h, p, 0, rest);
    if |p| >= HEADER_SIZE {
      assert p[0..64] == p[..64];
    }
  }

  /** `rv_header_crc_compute`: the checksum of the header with its own field zeroed. */
  function HeaderCrc(h: FileHeader): u32 {
    Crc32(WriteHeader(h.(headerCrc := 0)))
  }

  // ----- directory entries

  datatype DirEntry = DirEntry(tag: u32, flags: u32, offset: u64, length: u32, crc: u32)

  function WriteEntry(e: DirEntry): bytes {
    Put32(e.tag, Put32(e.flags, Put64(e.offset, Put32(e.length, Put32(e.crc, [])))))
  }

  /** `rv_parse_dir_entry` */
  function EntryAt(p: bytes, i: nat): DirEntry
    requires i + ENTRY_SIZE <= |p|
  {
    DirEntry(U32At(p, i), U32At(p, i + 4), U64At(p, i + 8), U32At(p, i + 16), U32At(p, i + 20))
  }

  lemma EntryInverse(p: bytes, i: nat, e: DirEntry)
    ensures |WriteEntry(e)| == ENTRY_SIZE
    ensures i + ENTRY_SIZE <= |p| ==> (EntryAt(p, i) == e <==> p[i..i + ENTRY_SIZE] == WriteEntry(e))
  {
    var t4 := Put32(e.crc, []);
    var t3 := Put32(e.length, t4);
    var t2 := Put64(e.offset, t3);
    var t1 := Put32(e.flags, t2);
    if i + ENTRY_SIZE <= |p| {
      Take32(p, i, e.tag, t1);
      Take32(p, i + 4, e.flags, t2);
      Take64(p, i + 8, e.offset, t3);
      Take32(p, i + 16, e.length, t4);
      Take32(p, i + 20, e.crc, []);
    }
  }

  // ----- the image of a list of sections

  datatype Section = Section(tag: u32, body: bytes)

  function Body(s: Section): bytes {
    s.body
  }

  /** All bodies, one after the other. */
  function Bodies(secs: seq<Section>): bytes {
    EncodeAll(Body, secs)
  }

  function BodiesStart(secs: seq<Section>): nat {
    HEADER_SIZE + ENTRY_SIZE * |secs|
  }

  /** Where body `i` starts (the running `payload_off`). */
  function OffsetOf(secs: seq<Section>, i: nat): nat
    requires i <= |secs|
  {
    BodiesStart(secs) + |Bodies(secs[..i])|
  }

  function ImageSize(secs: seq<Section>): nat {
    BodiesStart(secs) + |Bodies(secs)|
  }

  /** The image can be addressed with a 64-bit size. */
  predicate Addressable(secs: seq<Section>) {
    |secs| <= MAX_SECTIONS && ImageSize(secs) < TWO64
  }

  lemma OffsetBound(secs: seq<Section>, i: nat)
    requires i < |secs|
    ensures OffsetOf(secs, i) + |secs[i].body| == OffsetOf(secs, i + 1) <= ImageSize(secs)
  {
    EncodeAllAt(Body, secs, i);
  }

  /** The directory entry of section `i`: the length is stored in 32 bits. */
  function EntryFor(secs: seq<Section>, i: nat): DirEntry
    requires i < |secs| && Addressable(secs)
  {
    OffsetBound(secs, i);
    DirEntry(secs[i].tag, 0, OffsetOf(secs, i), |secs[i].body| % TWO32, Crc32(secs[i].body))
  }

  function Directory(secs: seq<Section>): seq<DirEntry>
    requires Addressable(secs)
  {
    seq(|secs|, i requires 0 <= i < |secs| => EntryFor(secs, i))
  }

  /** The header fields a writer chooses. */
  datatype Stamp = Stamp(verMajor: u16, verMinor: u16, createdUnix: u64, featureBits: u32)

  function HeaderFor(stamp: Stamp, secs: seq<Section>): FileHeader
    requires Addressable(secs)
  {
    var h := FileHeader(stamp.verMajor, stamp.verMinor, 0, 0, stamp.createdUnix, |secs|, HEADER_SIZE, ImageSize(secs),
                        stamp.featureBits, 0, 0);
    h.(headerCrc := HeaderCrc(h))
  }

  function ImageOf(stamp: Stamp, secs: seq<Section>): bytes
    requires Addressable(secs)
  {
    WriteHeader(HeaderFor(stamp, secs)) + EncodeAll(WriteEntry, Directory(secs)) + Bodies(secs)
  }

  lemma {:induction false} EntriesLength(es: seq<DirEntry>)
    ensures |EncodeAll(WriteEntry, es)| == ENTRY_SIZE * |es|
  {
    if es != [] {
      EntriesLength(es[..|es| - 1]);
      EntryInverse([], 0, es[|es| - 1]);
    }
  }

  lemma ImageParts(stamp: Stamp, secs: seq<Section>)
    requires Addressable(secs)
    ensures var img := ImageOf(stamp, secs);
            && |img| == ImageSize(secs)
            && img[..HEADER_SIZE] == WriteHeader(HeaderFor(stamp, secs))
            && img[HEADER_SIZE..BodiesStart(secs)] == EncodeAll(WriteEntry, Directory(secs))
            && img[BodiesStart(secs)..] == Bodies(secs)
  {
    HeaderReadBack(HeaderFor(stamp, secs), []);
    EntriesLength(Directory(secs));
  }

  lemma EncodedEntryAt(es: seq<DirEntry>, i: nat)
    requires i < |es|
    ensures ENTRY_SIZE * (i + 1) <= |EncodeAll(WriteEntry, es)|
    ensures EncodeAll(WriteEntry, es)[ENTRY_SIZE * i..ENTRY_SIZE * (i + 1)] == WriteEntry(es[i])
  {
    EntriesLength(es);
    EntriesLength(es[..i]);
    EntriesLength(es[..i + 1]);
    EncodeAllAt(WriteEntry, es, i);
    var head := EncodeAll(WriteEntry, es[..i + 1]);
    assert EncodeAll(WriteEntry, es)[..|head|] == head;
    assert EncodeAll(WriteEntry, es)[ENTRY_SIZE * i..|head|] == head[ENTRY_SIZE * i..];
  }

  lemma SubSlice(p: bytes, from: nat, to: nat, i: nat, j: nat)
    requires from <= to <= |p| && i <= j <= to - from
    ensures p[from..to][i..j] == p[from + i..from + j]
  {
    var l, r := p[from..to][i..j], p[from + i..from + j];
    assert forall k | 0 <= k < |l| :: l[k] == r[k];
  }

  lemma TailSlice(p: bytes, start: nat, tail: bytes, i: nat, j: nat)
    requires start <= |p| && p[start..] == tail && i <= j <= |tail|
    ensures p[start + i..start + j] == tail[i..j]
  {
    assert p[start..|p|] == tail;
    SubSlice(p, start, |p|, i, j);
  }

  lemma PrefixSlice(head: bytes, whole: bytes, from: nat)
    requires head <= whole && from <= |head|
    ensures whole[from..|head|] == head[from..]
  {
  }

  /** Entry `i` stands where the reader looks for it. */
  lemma EntryInImage(stamp: Stamp, secs: seq<Section>, i: nat)
    requires Addressable(secs) && i < |secs|
    ensures HEADER_SIZE + ENTRY_SIZE * i + ENTRY_SIZE <= |ImageOf(stamp, secs)|
    ensures EntryAt(ImageOf(stamp, secs), HEADER_SIZE + ENTRY_SIZE * i) == EntryFor(secs, i)
  {
    hide Crc32, ImageOf, WriteEntry, EntryAt, EncodeAll;
    var img := ImageOf(stamp, secs);
    ImageParts(stamp, secs);
    EncodedEntryAt(Directory(secs), i);
    SubSlice(img, HEADER_SIZE, BodiesStart(secs), ENTRY_SIZE * i, ENTRY_SIZE * (i + 1));
    EntryInverse(img, HEADER_SIZE + ENTRY_SIZE * i, EntryFor(secs, i));
  }

  /** Body `i` stands at its offset: the bodies tile the image after the directory. */
  lemma BodyInImage(stamp: Stamp, secs: seq<Section>, i: nat)
    requires Addressable(secs) && i < |secs|
    ensures OffsetOf(secs, i + 1) == OffsetOf(secs, i) + |secs[i].body| <= |ImageOf(stamp, secs)|
    ensures ImageOf(stamp, secs)[OffsetOf(secs, i)..OffsetOf(secs, i + 1)] == secs[i].body
  {
    ImageParts(stamp, secs);
    OffsetBound(secs, i);
    EncodeAllAt(Body, secs, i);
    var before, upTo := Bodies(secs[..i]), Bodies(secs[..i + 1]);
    PrefixSlice(upTo, Bodies(secs), |before|);
    TailSlice(ImageOf(stamp, secs), BodiesStart(secs), Bodies(secs), |before|, |upTo|);
  }

  /** The directory is small, so building it cannot fail. */
  method BuildDirectory(secs: seq<Section>) returns (dir: Buf)
    requires Addressable(secs)
    ensures fresh(dir) && fresh(dir.data) && dir.Valid()
    ensures dir.Contents() == EncodeAll(WriteEntry, Directory(secs))
  {
    hide Crc32, WriteEntry;
    dir := new Buf(256);
    var payloadOff := BodiesStart(secs);
    ghost var es := Directory(secs);
    for i := 0 to |secs|
      invariant dir.Valid() && fresh(dir) && fresh(dir.data)
      invariant payloadOff == OffsetOf(secs, i)
      invariant dir.Contents() == EncodeAll(WriteEntry, es[..i])
    {
      OffsetBound(secs, i);
      EncodeAllAt(WriteEntry, es, i);
      EntriesLength(es[..i]);
      var e := DirEntry(secs[i].tag, 0, payloadOff, |secs[i].body| % TWO32, Crc32(secs[i].body));
      EntryInverse([], 0, e);
      var st := dir.Append(WriteEntry(e));
      payloadOff := payloadOff + |secs[i].body|;
    }
    assert es[..|secs|] == es;
  }

  method AppendBodies(secs: seq<Section>, out: Buf) returns (st: Status)
    requires out.Valid()
    modifies out, out.data
    ensures out.Valid() && (out.data == old(out.data) || fresh(out.data))
    ensures st.Ok? ==> out.Contents() == old(out.Contents()) + Bodies(secs)
    ensures st.Failed? ==> !out.owned || SIZE_MAX / 2 < |old(out.Contents())| + |Bodies(secs)|
  {
    hide Bodies;
    ghost var before := out.Contents();
    BodiesNone(before, secs);
    for i := 0 to |secs|
      invariant out.Valid() && (out.data == old(out.data) || fresh(out.data))
      invariant out.Contents() == before + Bodies(secs[..i])
    {
      BodiesNext(before, secs, i);
      :- out.Append(secs[i].body);
    }
    assert secs[..|secs|] == secs;
    return Ok;
  }

  lemma BodiesNone(before: bytes, secs: seq<Section>)
    ensures before == before + Bodies(secs[..0])
  {
  }

  lemma BodiesNext(before: bytes, secs: seq<Section>, i: nat)
    requires i < |secs|
    ensures before + Bodies(secs[..i]) + secs[i].body == before + Bodies(secs[..i + 1])
    ensures |before + Bodies(secs[..i])| + |secs[i].body| <= |before| + |Bodies(secs)|
  {
    EncodeAllAt(Body, secs, i);
  }

  /** The common tail of the two writers: directory, header, and everything into one buffer. */
  method Assemble(stamp: Stamp, secs: seq<Section>) returns (st: Status, out: Buf)
    requires Addressable(secs)
    ensures fresh(out) && fresh(out.data) && out.Valid()
    ensures st.Ok? ==> out.Contents() == ImageOf(stamp, secs)
    ensures st.Failed? ==> SIZE_MAX / 2 < ImageSize(secs)
  {
    hide WriteHeader, HeaderFor, EncodeAll, Directory, Bodies, ImageSize, ImageOf, Addressable, WriteEntry;
    var dir := BuildDirectory(secs);
    ghost var head, entries := WriteHeader(HeaderFor(stamp, secs)), EncodeAll(WriteEntry, Directory(secs));
    AssembledLength(stamp, secs);
    out := new Buf(ImageSize(secs));
    st := out.Append(WriteHeader(HeaderFor(stamp, secs)));
    assert st.Ok? && out.Contents() == head;
    st := out.Append(dir.data[..dir.size]);
    assert st.Ok? && out.Contents() == head + entries;
    st := AppendBodies(secs, out);
  }

  lemma AssembledLength(stamp: Stamp, secs: seq<Section>)
    requires Addressable(secs)
    ensures var head, entries := WriteHeader(HeaderFor(stamp, secs)), EncodeAll(WriteEntry, Directory(secs));
            && |head| + |entries| < 0x1000 && |head| + |entries| + |Bodies(secs)| == ImageSize(secs) <= SIZE_MAX
            && ImageOf(stamp, secs) == head + entries + Bodies(secs)
  {
    HeaderReadBack(HeaderFor(stamp, secs), []);
    EntriesLength(Directory(secs));
  }
}
