/** What the parser makes of an image that one of the writers assembled from its sections. */
module RoundTrip {
  import opened Types
  import opened TableFormat
  import opened Records
  import opened Crc
  import opened Image
  import opened Reader
  import opened Parser

  ghost predicate DistinctTags(secs: seq<Section>) {
    forall i, j | 0 <= i < j < |secs| :: secs[i].tag != secs[j].tag
  }

  lemma HeaderParses(stamp: Stamp, secs: seq<Section>)
    requires Addressable(secs)
    ensures ParseFileHeader(ImageOf(stamp, secs)) == Some(HeaderFor(stamp, secs))
    ensures HeaderFor(stamp, secs).totalSize == |ImageOf(stamp, secs)|
  {
    hide Crc32, ImageOf, WriteHeader, HeaderAt;
    var img, h := ImageOf(stamp, secs), HeaderFor(stamp, secs);
    ImageParts(stamp, secs);
    HeaderReadBack(h, img);
    assert WriteHeader(h) <= img;
    assert HeaderCrc(h) == HeaderCrc(h.(headerCrc := 0));
  }

  lemma EntryInRange(stamp: Stamp, secs: seq<Section>, i: nat)
    requires Addressable(secs) && i < |secs|
    ensures RangeChecked(ImageOf(stamp, secs), Directory(secs)[i])
  {
    hide Crc32, ImageOf, Bodies;
    ImageParts(stamp, secs);
    OffsetBound(secs, i);
    Truncated(OffsetOf(secs, i), |secs[i].body|, |ImageOf(stamp, secs)|);
  }

  lemma Truncated(off: nat, len: nat, size: nat)
    requires off + len <= size < TWO64
    ensures (off + len % TWO32) % TWO64 <= size
  {
    assert off + len % TWO32 < TWO64;
  }

  /** The reader accepts the directory of every assembled image of a supported major version: the header checksum
      verifies, the total size is the image's length, and the directory is the one written. */
  lemma AssembledLoads(stamp: Stamp, secs: seq<Section>)
    requires Addressable(secs)
    ensures ReloadDir(ImageOf(stamp, secs)) == Some((HeaderFor(stamp, secs), Directory(secs)))
    ensures LoadDir(ImageOf(stamp, secs)) ==
            if 1 <= stamp.verMajor <= 2 then Some((HeaderFor(stamp, secs), Directory(secs))) else None
    ensures HeaderFor(stamp, secs).totalSize == |ImageOf(stamp, secs)|
  {
    hide Crc32, ImageOf, WriteHeader, HeaderAt, EntryAt;
    var img, h := ImageOf(stamp, secs), HeaderFor(stamp, secs);
    HeaderParses(stamp, secs);
    var es := EntriesAt(img, h);
    forall i | 0 <= i < |secs| ensures es[i] == Directory(secs)[i] && RangeChecked(img, es[i]) {
      EntryInImage(stamp, secs, i);
      EntryInRange(stamp, secs, i);
    }
    assert es == Directory(secs);
  }

  lemma FindsSection(secs: seq<Section>, i: nat)
    requires Addressable(secs) && DistinctTags(secs) && i < |secs|
    ensures FindEntry(Directory(secs), secs[i].tag) == Some(EntryFor(secs, i))
  {
    FindEntryAt(Directory(secs), secs[i].tag, i);
  }

  /** The part of a body that its stored length covers. */
  function StoredPart(body: bytes): (r: bytes)
    ensures r <= body && (|body| < TWO32 <==> r == body)
  {
    body[..|body| % TWO32]
  }

  /** A section is mapped whole, with its checksum verified, when its length fits the 32 bits it is stored in;
      otherwise only the beginning of it can be mapped. */
  lemma LocatesSection(stamp: Stamp, secs: seq<Section>, i: nat, strict: bool)
    requires Addressable(secs) && DistinctTags(secs) && i < |secs|
    ensures var l := Locate(ImageOf(stamp, secs), Directory(secs), secs[i].tag, strict);
            (l == At(StoredPart(secs[i].body)) || (l == Bad && strict && |secs[i].body| >= TWO32))
  {
    hide Crc32, ImageOf;
    var img, e, body := ImageOf(stamp, secs), EntryFor(secs, i), secs[i].body;
    FindsSection(secs, i);
    BodyInImage(stamp, secs, i);
    PrefixOfSlice(img, e.offset, OffsetOf(secs, i + 1), e.length);
    assert SectionSlice(img, e) == Some(StoredPart(body));
  }

  lemma PrefixOfSlice(p: bytes, from: nat, to: nat, n: nat)
    requires from <= to <= |p| && n <= to - from
    ensures p[from..to][..n] == p[from..from + n]
  {
    SubSlice(p, from, to, 0, n);
  }

  /** A table that a reader can take back: within the record limits and short enough for its stored length. */
  ghost predicate Storable<T>(f: Format<T>, xs: seq<T>) {
    |xs| <= f.limit && AllOk(f, xs) && |EncodeTable(f, xs)| < TWO32
  }

  /** A written table is read back exactly when it is storable; otherwise the image is rejected. */
  lemma SectionReadBack<T(!new)>(f: Format<T>, xs: seq<T>, stamp: Stamp, secs: seq<Section>, i: nat, strict: bool)
    requires Addressable(secs) && DistinctTags(secs) && i < |secs|
    requires Valid(f) && |xs| < TWO32 && secs[i].body == EncodeTable(f, xs)
    ensures ParseTable(f, ImageOf(stamp, secs), Directory(secs), secs[i].tag, strict) ==
            if Storable(f, xs) then Some(xs) else None
  {
    hide Crc32, ImageOf, Locate, Directory, EncodeTable;
    var body := EncodeTable(f, xs);
    LocatesSection(stamp, secs, i, strict);
    DecodeWritten(f, xs, StoredPart(body));
  }

  lemma MissingSection(secs: seq<Section>, tag: u32)
    requires Addressable(secs) && forall i | 0 <= i < |secs| :: secs[i].tag != tag
    ensures FindEntry(Directory(secs), tag).None?
  {
  }

  /** SUMM is read back in every mode. */
  lemma SummReadBack(s: Summ, stamp: Stamp, secs: seq<Section>, i: nat)
    requires Addressable(secs) && DistinctTags(secs) && i < |secs|
    requires secs[i] == Section(TAG_SUMM, WriteSumm(s))
    ensures ParseSumm(ImageOf(stamp, secs), Directory(secs)) == Some(Some(s))
  {
    hide Crc32, ImageOf, WriteSumm, DecodeSumm;
    FindsSection(secs, i);
    SummInverse(WriteSumm(s), s);
    LocatesSection(stamp, secs, i, false);
  }

  lemma EntrySlice(stamp: Stamp, secs: seq<Section>, i: nat)
    requires Addressable(secs) && i < |secs| && |secs[i].body| < TWO32
    ensures var e := EntryFor(secs, i);
            && e.offset == OffsetOf(secs, i)
            && e.offset + e.length == OffsetOf(secs, i + 1)
            && SectionSlice(ImageOf(stamp, secs), e) == Some(secs[i].body)
  {
    hide Crc32, ImageOf, OffsetOf;
    BodyInImage(stamp, secs, i);
  }

  /** The bodies tile the image after the directory, without gap or overlap, and every directory checksum verifies,
      for sections that fit their stored length. */
  lemma LayoutVerifies(stamp: Stamp, secs: seq<Section>, i: nat)
    requires Addressable(secs) && i < |secs| && |secs[i].body| < TWO32
    ensures var img, e := ImageOf(stamp, secs), EntryFor(secs, i);
            && CrcVerifies(img, e)
            && (i == 0 ==> e.offset == BodiesStart(secs))
            && (i + 1 < |secs| ==> e.offset + e.length == EntryFor(secs, i + 1).offset)
            && (i + 1 == |secs| ==> e.offset + e.length == |img|)
  {
    EntrySlice(stamp, secs, i);
    ImageParts(stamp, secs);
    hide Crc32, ImageOf, Bodies;
    assert secs[..0] == [] && secs[..|secs|] == secs;
  }
}
