/** The in-memory package builder (src/internal/rv_builder.c): adding records, writing the image, and the image's round
    trip through the parser. */
module Builder {
  import opened Types
  import opened Buffers
  import opened TableFormat
  import opened Records
  import opened Crc
  import opened Image
  import opened Reader
  import opened Parser
  import opened RoundTrip
  import opened Export

  /** A wave block to be written: its checksum is computed from the samples when it is. */
  datatype BuilderWave = BuilderWave(blockId: u32, windowId: u32, startM: f32, stepM: f32, samples: seq<i16>,
                                     flags: u16)
  type BWave = w: BuilderWave | |w.samples| < TWO32 witness BuilderWave(0, 0, 0, 0, [], 0)

  function WithChecksum(w: BWave): StoredWave {
    Wave(w.blockId, w.windowId, w.startM, w.stepM, w.samples, w.flags, Crc32(WriteSamples(w.samples)) % TWO16)
  }

  function WithChecksums(ws: seq<BWave>): (r: seq<StoredWave>)
    ensures |r| == |ws|
  {
    seq(|ws|, i requires 0 <= i < |ws| => WithChecksum(ws[i]))
  }

  /** The builder's tables. */
  datatype Tables = Tables(names: seq<Name>, routes: seq<Route>, insts: seq<Inst>, calibs: seq<Calib>,
                           windows: seq<Window>, waves: seq<BWave>, markers: seq<Marker>, links: seq<Link>,
                           notes: seq<Note>)

  const NO_TABLES := Tables([], [], [], [], [], [], [], [], [])

  // ----- names

  /** The bytes before the first NUL: what `strlen` measures. */
  function CString(s: bytes): (r: bytes)
    ensures 0 !in r && r <= s
    ensures 0 !in s ==> r == s
  {
    if s == [] || s[0] == 0 then [] else [s[0]] + CString(s[1..])
  }

  const MAX_NAME := 127

  /** The form in which a name is pooled: cut at the first NUL, then at 127 bytes. */
  function Key(s: bytes): (r: bytes)
    ensures |r| <= MAX_NAME && 0 !in r
    ensures r == s <==> |s| <= MAX_NAME && 0 !in s
  {
    var c := CString(s);
    if |c| > MAX_NAME then c[..MAX_NAME] else c
  }

  /** The builder's name pool: ids count from one, and strings are pooled keys without repetition. */
  ghost predicate Pool(names: seq<Name>) {
    && (forall i | 0 <= i < |names| :: names[i].id == i + 1 && Key(names[i].str) == names[i].str)
    && (forall i, j | 0 <= i < j < |names| :: names[i].str != names[j].str)
  }

  /** The id under which a pool holds a key, zero when it does not. */
  function IdOf(names: seq<Name>, key: bytes): (id: nat)
    ensures id <= |names|
    ensures id == 0 <==> forall i | 0 <= i < |names| :: names[i].str != key
    ensures id > 0 ==> names[id - 1].str == key
  {
    if names == [] then 0
    else if names[|names| - 1].str == key then
      (var before := IdOf(names[..|names| - 1], key); if before > 0 then before else |names|)
    else IdOf(names[..|names| - 1], key)
  }

  /** The pool after `rv_builder_add_name`. */
  function AddKey(names: seq<Name>, key: bytes): (r: seq<Name>)
    requires |key| <= MAX_NAME && |names| + 1 < TWO32
    ensures names <= r && |r| <= |names| + 1
  {
    if IdOf(names, key) > 0 then names else names + [Name(|names| + 1, key)]
  }

  lemma AddKeyPools(names: seq<Name>, key: bytes)
    requires Pool(names) && Key(key) == key && |names| + 1 < TWO32
    ensures Pool(AddKey(names, key)) && IdOf(AddKey(names, key), key) > 0
  {
    hide IdOf, Key;
    var r := AddKey(names, key);
    if IdOf(names, key) == 0 {
      assert r[..|names|] == names && r[|names|].str == key;
    }
  }

  class PackageBuilder {
    var names: seq<Name>
    var routes: seq<Route>
    var insts: seq<Inst>
    var calibs: seq<Calib>
    var windows: seq<Window>
    var waves: seq<BWave>
    var markers: seq<Marker>
    var links: seq<Link>
    var notes: seq<Note>
    var nextNameId: nat
    var verMajor: u16
    var verMinor: u16
    var featureBits: u32
    var createdUnix: u64
    var includeSumm: bool
    var includeNotes: bool

    ghost predicate Valid()
      reads this
    {
      Pool(names) && nextNameId == |names| + 1
    }

    function Built(): Tables
      reads this
    {
      Tables(names, routes, insts, calibs, windows, waves, markers, links, notes)
    }

    constructor ()
      ensures Valid() && Built() == NO_TABLES
      ensures verMajor == 2 && verMinor == 3 && includeSumm && includeNotes && featureBits == 0
    {
      names, routes, insts, calibs, windows := [], [], [], [], [];
      waves, markers, links, notes := [], [], [], [];
      nextNameId := 1;
      verMajor, verMinor, featureBits, createdUnix := 2, 3, 0, 0;
      includeSumm, includeNotes := true, true;
    }

    /** `rv_builder_add_name`: pooling a string twice gives the same id and changes nothing. */
    method AddName(str: bytes) returns (id: u32)
      requires Valid() && |names| + 2 < TWO32
      modifies this`names, this`nextNameId
      ensures Valid()
      ensures names == AddKey(old(names), Key(str))
      ensures id == IdOf(names, Key(str)) > 0
    {
      hide IdOf, Key;
      var key := Key(str);
      AddKeyPools(names, key);
      for i := 0 to |names|
        invariant forall k | 0 <= k < i :: names[k].str != key
      {
        if names[i].str == key {
          return names[i].id;
        }
      }
      names := names + [Name(nextNameId, key)];
      id := nextNameId;
      nextNameId := nextNameId + 1;
    }

    method AddRoute(r: Route)
      modifies this`routes
      ensures routes == old(routes) + [r]
    {
      routes := routes + [r];
    }

    method AddInst(r: Inst)
      modifies this`insts
      ensures insts == old(insts) + [r]
    {
      insts := insts + [r];
    }

    method AddCalib(r: Calib)
      modifies this`calibs
      ensures calibs == old(calibs) + [r]
    {
      calibs := calibs + [r];
    }

    method AddWindow(r: Window)
      modifies this`windows
      ensures windows == old(windows) + [r]
    {
      windows := windows + [r];
    }

    method AddMarker(r: Marker)
      modifies this`markers
      ensures markers == old(markers) + [r]
    {
      markers := markers + [r];
    }

    method AddLink(r: Link)
      modifies this`links
      ensures links == old(links) + [r]
    {
      links := links + [r];
    }

    method AddNote(r: Note)
      modifies this`notes
      ensures notes == old(notes) + [r]
    {
      notes := notes + [r];
    }

    /** `rv_builder_add_wave_copy`: an empty block is refused, and the copy has no flags. */
    method AddWaveCopy(blockId: u32, windowId: u32, samples: seq<i16>, startM: f32, stepM: f32) returns (st: Status)
      requires |samples| < TWO32
      modifies this`waves
      ensures st.Failed? <==> samples == []
      ensures waves == if samples == [] then old(waves)
                       else old(waves) + [BuilderWave(blockId, windowId, startM, stepM, samples, 0)]
    {
      if |samples| == 0 {
        return Failed;
      }
      waves := waves + [BuilderWave(blockId, windowId, startM, stepM, samples, 0)];
      return Ok;
    }

    function Options(): WriteOptions
      reads this
    {
      WriteOptions(Stamp(verMajor, verMinor, createdUnix, featureBits), includeNotes, includeSumm)
    }

    method SerializeSections() returns (st: Status, secs: seq<Section>)
      requires Countable(AsParsed(Built(), Options()))
      ensures st.Ok? ==> secs == BuilderSections(Built(), Options())
      ensures st.Failed? ==> SIZE_MAX / 2 < ImageSize(BuilderSections(Built(), Options()))
    {
      hide EncodeTable, WithChecksums, SummOf, WriteSumm, ImageSize, CoreSections;
      var p := AsParsed(Built(), Options());
      ghost var all := BuilderSections(Built(), Options());
      st, secs := BuildCore(p, true);
      if st.Failed? {
        return;
      }
      if includeNotes {
        var s;
        OffsetBound(all, |secs|);
        st, s := FixedSection(TAG_NOTE, NOTE_FORMAT, notes);
        if st.Failed? {
          return;
        }
        secs := secs + [s];
      }
      if includeSumm {
        var summary := SummaryBody(TableCounts(p));
        secs := secs + [summary];
      }
    }

    /** `rv_builder_serialize`: writes exactly the builder's image, and fails only when it would exceed 2^63 bytes. */
    method Serialize() returns (st: Status, out: Buf)
      requires Serializable(Built(), Options())
      ensures fresh(out) && fresh(out.data) && out.Valid()
      ensures st.Ok? ==> out.Contents() == BuilderImage(Built(), Options())
      ensures st.Failed? ==> SIZE_MAX / 2 < |BuilderImage(Built(), Options())|
    {
      hide ImageOf, ImageSize, BuilderSections, Countable;
      out := new Buf(0);
      ImageParts(Options().stamp, BuilderSections(Built(), Options()));
      var secs;
      st, secs := SerializeSections();
      if st.Failed? {
        return;
      }
      st, out := Assemble(Options().stamp, secs);
    }
  }

  // ----- the image

  datatype WriteOptions = WriteOptions(stamp: Stamp, includeNotes: bool, includeSumm: bool)

  /** The tables as a reader will see them: wave blocks carry the checksum of their samples. */
  function AsParsed(t: Tables, o: WriteOptions): Parsed {
    Parsed(t.names, t.routes, t.insts, t.calibs, t.windows, WithChecksums(t.waves), t.markers, t.links,
           if o.includeNotes then t.notes else [], EMPTY_SUMM, false, o.stamp.featureBits)
  }

  function BuilderSections(t: Tables, o: WriteOptions): seq<Section>
    requires Countable(AsParsed(t, o))
  {
    CoreSections(AsParsed(t, o), true)
    + (if o.includeNotes then [Section(TAG_NOTE, EncodeTable(NOTE_FORMAT, t.notes))] else [])
    + (if o.includeSumm then [SummSection(TableCounts(AsParsed(t, o)))] else [])
  }

  predicate Serializable(t: Tables, o: WriteOptions) {
    Countable(AsParsed(t, o)) && Addressable(BuilderSections(t, o))
  }

  function BuilderImage(t: Tables, o: WriteOptions): bytes
    requires Serializable(t, o)
  {
    ImageOf(o.stamp, BuilderSections(t, o))
  }

  /** What a reader gets back: the builder's tables, and the table sizes as summary. */
  function ReadBack(t: Tables, o: WriteOptions): Parsed
    requires Countable(AsParsed(t, o))
  {
    var p := AsParsed(t, o);
    if o.includeSumm then p.(summ := SummOf(TableCounts(p)), hasSumm := true) else p
  }

  lemma ChecksumsStored(ws: seq<BWave>)
    ensures StoredWaves(WithChecksums(ws), true) == WithChecksums(ws)
  {
    hide Crc32, WriteSamples;
  }

  lemma BuilderTagsDistinct(t: Tables, o: WriteOptions)
    requires Serializable(t, o)
    ensures DistinctTags(BuilderSections(t, o))
  {
    hide EncodeTable, WriteSumm, StoredWaves, WithChecksums, SummOf;
  }

  lemma BuilderTablesReadBack(t: Tables, o: WriteOptions, strict: bool)
    requires Serializable(t, o)
    ensures var p, secs := AsParsed(t, o), BuilderSections(t, o);
            var img, es := ImageOf(o.stamp, secs), Directory(secs);
            && CoreReads(p, true, img, es, strict)
            && (if o.includeNotes then ReadsTable(NOTE_FORMAT, t.notes, img, es, TAG_NOTE, strict)
                else ParseTable(NOTE_FORMAT, img, es, TAG_NOTE, strict) == if strict then None else Some([]))
            && ParseSumm(img, es) == Some(if o.includeSumm then Some(SummOf(TableCounts(p))) else None)
  {
    hide ImageOf, Directory, EncodeTable, StoredWaves, WithChecksums, Storable, ParseSumm, FindEntry, WriteSumm;
    var p, secs := AsParsed(t, o), BuilderSections(t, o);
    BuilderTagsDistinct(t, o);
    CoreReadBack(p, true, o.stamp, secs, strict);
    if o.includeNotes {
      NoteFormatExact();
      SectionReadBack(NOTE_FORMAT, t.notes, o.stamp, secs, 8, strict);
    } else {
      MissingSection(secs, TAG_NOTE);
    }
    if o.includeSumm {
      SummReadBack(SummOf(TableCounts(p)), o.stamp, secs, if o.includeNotes then 9 else 8);
    } else {
      MissingSection(secs, TAG_SUMM);
      NoSumm(ImageOf(o.stamp, secs), Directory(secs));
    }
  }

  lemma NoSumm(img: bytes, es: seq<DirEntry>)
    requires FindEntry(es, TAG_SUMM).None?
    ensures ParseSumm(img, es) == Some(None)
  {
  }

  /** The limits a reader puts on the builder's tables. */
  ghost predicate WithinLimits(t: Tables, o: WriteOptions) {
    Decodable(AsParsed(t, o), true) && (o.includeNotes ==> Storable(NOTE_FORMAT, t.notes))
  }

  /** The builder round trip, for all tables and options: the image of a builder is parsed exactly when its major
      version is supported, its tables are within the reader's limits and, in the strict mode, notes are included; the
      result is the builder's tables. */
  lemma BuilderRoundTrip(t: Tables, o: WriteOptions, strict: bool)
    requires Serializable(t, o)
    ensures ParseImage(BuilderImage(t, o), strict) ==
            if 1 <= o.stamp.verMajor <= 2 && WithinLimits(t, o) && (strict ==> o.includeNotes)
            then Some(ReadBack(t, o)) else None
  {
    hide ImageOf, Directory, HeaderCrc, BuilderSections, ParseTable, ParseSumm, EncodeTable, StoredWaves, Storable,
         LoadDir, ParseTables, Addressable, WithChecksums;
    var secs := BuilderSections(t, o);
    var img, h, es := ImageOf(o.stamp, secs), HeaderFor(o.stamp, secs), Directory(secs);
    AssembledLoads(o.stamp, secs);
    BuilderTablesReadBack(t, o, strict);
    ChecksumsStored(t.waves);
    if WithinLimits(t, o) && (strict ==> o.includeNotes) {
      ParsesAll(img, h, es, strict, ReadBack(t, o));
    } else {
      ParsesNone(img, h, es, strict);
    }
  }
}
