/** The reader: header and directory of a backing image, and access to its sections
    (src/internal/rv_reader.c, rv_parse_file_header in src/internal/rv_format.c). */
module Reader {
  import opened Types
  import opened Endian
  import opened Buffers
  import opened Crc
  import opened Image

  /** `rv_parse_file_header` */
  function ParseFileHeader(data: bytes): Option<FileHeader> {
    if |data| < HEADER_SIZE || U32At(data, 0) != MAGIC then None
    else
      var h := HeaderAt(data);
      if h.sectionCount > MAX_SECTIONS || h.dirOffset < HEADER_SIZE then None
      else if h.dirOffset + h.sectionCount * ENTRY_SIZE > |data| then None
      else if h.headerCrc != 0 && h.headerCrc != HeaderCrc(h) then None
      else Some(h)
  }

  function EntriesAt(data: bytes, h: FileHeader): seq<DirEntry>
    requires h.dirOffset + h.sectionCount * ENTRY_SIZE <= |data|
  {
    seq(h.sectionCount, i requires 0 <= i < h.sectionCount => EntryAt(data, h.dirOffset + ENTRY_SIZE * i))
  }

  /** The directory's range check: the sum is computed in 64 bits and wraps around. */
  predicate RangeChecked(data: bytes, e: DirEntry) {
    (e.offset + e.length) % TWO64 <= |data|
  }

  /** `rv_legacy_reload_directory`: no version and no range checks. */
  function ReloadDir(data: bytes): Option<(FileHeader, seq<DirEntry>)> {
    var h :- ParseFileHeader(data);
    Some((h, EntriesAt(data, h)))
  }

  /** What `rv_reader_load_directory` accepts, and what it loads. */
  function LoadDir(data: bytes): Option<(FileHeader, seq<DirEntry>)> {
    var (h, es) :- ReloadDir(data);
    if 1 <= h.verMajor <= 2 && forall i | 0 <= i < |es| :: RangeChecked(data, es[i]) then Some((h, es)) else None
  }

  function SectionSlice(data: bytes, e: DirEntry): Option<bytes> {
    SliceSub(data, e.offset, e.length)
  }

  /** The wrap-around is the only gap in the range check: a loaded entry can be mapped unless its end passes 2^64. */
  lemma LoadedEntryMaps(data: bytes, e: DirEntry)
    requires RangeChecked(data, e) && |data| < TWO64
    ensures SectionSlice(data, e).Some? <==> e.offset + e.length < TWO64
  {
  }

  /** An image in which it is met: its directory loads, and the one section in it cannot be mapped. */
  lemma LoadedEntryDoesNotMap() returns (data: bytes, e: DirEntry)
    ensures LoadDir(data).Some? && LoadDir(data).value.1 == [e] && SectionSlice(data, e).None?
  {
    hide WriteHeader, WriteEntry, HeaderAt, EntryAt;
    var h := FileHeader(1, 0, 0, 0, 0, 1, HEADER_SIZE, 0, 0, 0, 0);
    e := DirEntry(0, 0, TWO64 - 1, 1, 0);
    data := WriteHeader(h) + WriteEntry(e);
    HeaderReadBack(h, data);
    EntryInverse(data, HEADER_SIZE, e);
    assert data[HEADER_SIZE..HEADER_SIZE + ENTRY_SIZE] == WriteEntry(e);
    assert EntriesAt(data, h) == [e];
  }

  /** `rv_reader_verify_section_crc`: a stored checksum of zero means there is none. */
  predicate CrcVerifies(data: bytes, e: DirEntry) {
    e.crc == 0 || (SectionSlice(data, e).Some? && Crc32(SectionSlice(data, e).value) == e.crc)
  }

  /** The first entry with a tag. */
  function FindEntry(es: seq<DirEntry>, tag: u32): (r: Option<DirEntry>)
    ensures r.None? <==> forall i | 0 <= i < |es| :: es[i].tag != tag
  {
    if es == [] then None else if es[0].tag == tag then Some(es[0]) else FindEntry(es[1..], tag)
  }

  lemma {:induction false} FindEntryAt(es: seq<DirEntry>, tag: u32, i: nat)
    requires i < |es| && es[i].tag == tag && forall j | 0 <= j < i :: es[j].tag != tag
    ensures FindEntry(es, tag) == Some(es[i])
  {
    if i > 0 {
      FindEntryAt(es[1..], tag, i - 1);
    }
  }

  class PackageReader {
    var backing: bytes
    var header: FileHeader
    /** `rv_dir_entry dir[RV_MAX_SECTIONS]` */
    const dir: array<DirEntry>
    var dirCount: nat

    ghost predicate Valid()
      reads this
    {
      dir.Length == MAX_SECTIONS && dirCount <= MAX_SECTIONS
    }

    function Entries(): seq<DirEntry>
      reads this, dir
      requires Valid()
    {
      dir[..dirCount]
    }

    constructor (data: bytes)
      ensures Valid() && fresh(dir) && backing == data
    {
      backing := data;
      dir := new DirEntry[MAX_SECTIONS];
      dirCount := 0;
    }

    /** Never writes past the directory array, because the header check bounds the section count. */
    method LoadDirectory() returns (st: Status)
      requires Valid()
      modifies this`header, this`dirCount, dir
      ensures Valid()
      ensures st.Ok? <==> LoadDir(backing).Some?
      ensures st.Ok? ==> LoadDir(backing) == Some((header, Entries()))
    {
      hide EntryAt, HeaderCrc;
      var parsed := ParseFileHeader(backing);
      if parsed.None? {
        return Failed;
      }
      header := parsed.value;
      if header.verMajor > 2 || header.verMajor < 1 {
        return Failed;
      }
      dirCount := header.sectionCount;
      var off := header.dirOffset;
      ghost var es := EntriesAt(backing, header);
      for i := 0 to dirCount
        invariant Valid() && header == parsed.value && dirCount == header.sectionCount
        invariant off == header.dirOffset + ENTRY_SIZE * i
        invariant forall k | 0 <= k < i :: dir[k] == es[k] && RangeChecked(backing, es[k])
      {
        dir[i] := EntryAt(backing, off);
        if (dir[i].offset + dir[i].length) % TWO64 > |backing| {
          assert !RangeChecked(backing, es[i]);
          return Failed;
        }
        off := off + ENTRY_SIZE;
      }
      assert Entries() == es;
      return Ok;
    }

    /** `rv_legacy_reload_directory` */
    method ReloadDirectory() returns (st: Status)
      requires Valid()
      modifies this`header, this`dirCount, dir
      ensures Valid()
      ensures st.Ok? <==> ReloadDir(backing).Some?
      ensures st.Ok? ==> ReloadDir(backing) == Some((header, Entries()))
    {
      var parsed := ParseFileHeader(backing);
      if parsed.None? {
        return Failed;
      }
      header := parsed.value;
      dirCount := header.sectionCount;
      var off := header.dirOffset;
      ghost var es := EntriesAt(backing, header);
      for i := 0 to dirCount
        invariant Valid() && header == parsed.value && dirCount == header.sectionCount
        invariant off == header.dirOffset + ENTRY_SIZE * i
        invariant forall k | 0 <= k < i :: dir[k] == es[k]
      {
        dir[i] := EntryAt(backing, off);
        off := off + ENTRY_SIZE;
      }
      assert Entries() == es;
      return Ok;
    }

    /** `rv_reader_find_section` for the first section with the tag */
    method FindSection(tag: u32) returns (r: Option<DirEntry>)
      requires Valid()
      ensures r == FindEntry(Entries(), tag)
    {
      for i := 0 to dirCount
        invariant forall k | 0 <= k < i :: dir[k].tag != tag
      {
        if dir[i].tag == tag {
          FindEntryAt(Entries(), tag, i);
          return Some(dir[i]);
        }
      }
      return None;
    }
  }
}
