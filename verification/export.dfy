/** The exporter (src/internal/rv_export.c) and its round trip through the parser. */
module Export {
  import opened Types
  import opened Buffers
  import opened TableFormat
  import opened Records
  import opened Sections
  import opened Image
  import opened Reader
  import opened Parser
  import opened RoundTrip

  /** The counts of a derived summary, which an export prefers over the tables' own. */
  datatype Counts = Counts(routes: u32, windows: u32, markers: u32, waves: u32, names: u32)

  /** Every table's length fits the 32-bit count it is stored with. */
  predicate Countable(p: Parsed) {
    && |p.names| < TWO32 && |p.routes| < TWO32 && |p.insts| < TWO32 && |p.calibs| < TWO32 && |p.windows| < TWO32
    && |p.waves| < TWO32 && |p.markers| < TWO32 && |p.links| < TWO32 && |p.notes| < TWO32
  }

  function TableCounts(p: Parsed): Counts
    requires Countable(p)
  {
    Counts(|p.routes|, |p.windows|, |p.markers|, |p.waves|, |p.names|)
  }

  function SummOf(c: Counts): Summ {
    Summ(c.routes, c.windows, c.markers, c.waves, c.names, 0, 0, 0)
  }

  /** The blocks with flags and checksum cut to 16 bits, or none in an export without samples. */
  function StoredWaves(ws: seq<Wave>, withSamples: bool): (r: seq<StoredWave>)
    ensures |r| == if withSamples then |ws| else 0
  {
    if withSamples then seq(|ws|, i requires 0 <= i < |ws| => Stored(ws[i])) else []
  }

  /** Samples are always written, except that a compact export without the include flag leaves them out. */
  predicate WithSamples(includeWave: bool, compact: bool) {
    !compact || includeWave
  }

  /** The eight sections that both writers emit first. */
  function CoreSections(p: Parsed, withSamples: bool): seq<Section>
    requires Countable(p)
  {
    [Section(TAG_SNAM, EncodeTable(NAME_FORMAT, p.names)),
     Section(TAG_ROUT, EncodeTable(ROUTE_FORMAT, p.routes)),
     Section(TAG_INST, EncodeTable(INST_FORMAT, p.insts)),
     Section(TAG_CLBR, EncodeTable(CALIB_FORMAT, p.calibs)),
     Section(TAG_WIND, EncodeTable(WINDOW_FORMAT, p.windows)),
     Section(TAG_WAVE, EncodeTable(WAVE_FORMAT, StoredWaves(p.waves, withSamples))),
     Section(TAG_MARK, EncodeTable(MARKER_FORMAT, p.markers)),
     Section(TAG_LINK, EncodeTable(LINK_FORMAT, p.links))]
  }

  function SummSection(c: Counts): Section {
    Section(TAG_SUMM, WriteSumm(SummOf(c)))
  }

  function ExportSections(p: Parsed, c: Counts, withSamples: bool): seq<Section>
    requires Countable(p)
  {
    CoreSections(p, withSamples) + [SummSection(c)]
  }

  function ExportStamp(p: Parsed): Stamp {
    Stamp(2, 3, 0, p.featureBits)
  }

  /** The tables can be written to an image that a 64-bit size can address. */
  predicate Writable(p: Parsed, c: Counts, withSamples: bool) {
    Countable(p) && Addressable(ExportSections(p, c, withSamples))
  }

  function ExportImage(p: Parsed, c: Counts, withSamples: bool): bytes
    requires Writable(p, c, withSamples)
  {
    ImageOf(ExportStamp(p), ExportSections(p, c, withSamples))
  }

  /** The limits a reader puts on a package: record counts, samples per block, and section lengths below 2^32. */
  ghost predicate Decodable(p: Parsed, withSamples: bool) {
    && Countable(p)
    && Storable(NAME_FORMAT, p.names) && Storable(ROUTE_FORMAT, p.routes) && Storable(INST_FORMAT, p.insts)
    && Storable(CALIB_FORMAT, p.calibs) && Storable(WINDOW_FORMAT, p.windows)
    && Storable(WAVE_FORMAT, StoredWaves(p.waves, withSamples))
    && Storable(MARKER_FORMAT, p.markers) && Storable(LINK_FORMAT, p.links)
  }

  /** What an exported package is read back as: the same tables, with wave flags and checksums cut to 16 bits, no notes,
      and the exported counts as summary. */
  function Exported(p: Parsed, c: Counts, withSamples: bool): Parsed {
    p.(waves := StoredWaves(p.waves, withSamples), notes := [], summ := SummOf(c), hasSumm := true)
  }

  /** The export round trip, for all tables: parsing an export in the non-strict mode gives back the tables exactly when
      they are within the reader's limits, and fails otherwise; in the strict mode it always fails, because an export
      has no NOTE section. */
  lemma ExportRoundTrip(p: Parsed, c: Counts, withSamples: bool, strict: bool)
    requires Writable(p, c, withSamples)
    ensures ParseImage(ExportImage(p, c, withSamples), strict) ==
            if !strict && Decodable(p, withSamples) then Some(Exported(p, c, withSamples)) else None
  {
    hide ImageOf, Directory, HeaderCrc, ExportSections, ParseTable, ParseSumm, EncodeTable, StoredWaves, Storable,
         LoadDir, ParseTables, Addressable;
    var stamp, secs := ExportStamp(p), ExportSections(p, c, withSamples);
    var img, h, es := ImageOf(stamp, secs), HeaderFor(stamp, secs), Directory(secs);
    AssembledLoads(stamp, secs);
    ExportTablesReadBack(p, c, withSamples, strict);
    if !strict && Decodable(p, withSamples) {
      ParsesAll(img, h, es, strict, Exported(p, c, withSamples));
    } else {
      ParsesNone(img, h, es, strict);
    }
  }

  lemma ExportTablesReadBack(p: Parsed, c: Counts, withSamples: bool, strict: bool)
    requires Writable(p, c, withSamples)
    ensures var secs := ExportSections(p, c, withSamples);
            var img, es := ImageOf(ExportStamp(p), secs), Directory(secs);
            && CoreReads(p, withSamples, img, es, strict)
            && ParseTable(NOTE_FORMAT, img, es, TAG_NOTE, strict) == (if strict then None else Some([]))
            && ParseSumm(img, es) == Some(Some(SummOf(c)))
  {
    hide ImageOf, Directory, EncodeTable, StoredWaves, Storable, ParseSumm, FindEntry, WriteSumm;
    var stamp, secs := ExportStamp(p), ExportSections(p, c, withSamples);
    CoreReadBack(p, withSamples, stamp, secs, strict);
    SummReadBack(SummOf(c), stamp, secs, 8);
    MissingSection(secs, TAG_NOTE);
  }

  /** Each of the first eight tables is read back when it is storable, and is an error otherwise. */
  ghost predicate CoreReads(p: Parsed, withSamples: bool, img: bytes, es: seq<DirEntry>, strict: bool)
    requires Countable(p)
  {
    && ReadsTable(NAME_FORMAT, p.names, img, es, TAG_SNAM, strict)
    && ReadsTable(ROUTE_FORMAT, p.routes, img, es, TAG_ROUT, strict)
    && ReadsTable(INST_FORMAT, p.insts, img, es, TAG_INST, strict)
    && ReadsTable(CALIB_FORMAT, p.calibs, img, es, TAG_CLBR, strict)
    && ReadsTable(WINDOW_FORMAT, p.windows, img, es, TAG_WIND, strict)
    && ReadsTable(WAVE_FORMAT, StoredWaves(p.waves, withSamples), img, es, TAG_WAVE, strict)
    && ReadsTable(MARKER_FORMAT, p.markers, img, es, TAG_MARK, strict)
    && ReadsTable(LINK_FORMAT, p.links, img, es, TAG_LINK, strict)
  }

  lemma CoreReadBack(p: Parsed, withSamples: bool, stamp: Stamp, secs: seq<Section>, strict: bool)
    requires Countable(p) && Addressable(secs) && DistinctTags(secs)
    requires CoreSections(p, withSamples) <= secs
    ensures CoreReads(p, withSamples, ImageOf(stamp, secs), Directory(secs), strict)
  {
    hide ImageOf, Directory, EncodeTable, StoredWaves, Storable, Addressable, ParseTable, DistinctTags, Valid;
    NameFormatValid();
    RouteFormatExact();
    InstFormatExact();
    CalibFormatExact();
    WindowFormatExact();
    WaveFormatExact();
    MarkerFormatExact();
    LinkFormatExact();
    SectionReadBack(NAME_FORMAT, p.names, stamp, secs, 0, strict);
    SectionReadBack(ROUTE_FORMAT, p.routes, stamp, secs, 1, strict);
    SectionReadBack(INST_FORMAT, p.insts, stamp, secs, 2, strict);
    SectionReadBack(CALIB_FORMAT, p.calibs, stamp, secs, 3, strict);
    SectionReadBack(WINDOW_FORMAT, p.windows, stamp, secs, 4, strict);
    SectionReadBack(WAVE_FORMAT, StoredWaves(p.waves, withSamples), stamp, secs, 5, strict);
    SectionReadBack(MARKER_FORMAT, p.markers, stamp, secs, 6, strict);
    SectionReadBack(LINK_FORMAT, p.links, stamp, secs, 7, strict);
  }

  /** The table is read back when it is storable, and is an error otherwise. */
  ghost predicate ReadsTable<T>(f: Format<T>, xs: seq<T>, img: bytes, es: seq<DirEntry>, tag: u32, strict: bool)
    requires |xs| < TWO32
  {
    ParseTable(f, img, es, tag, strict) == if Storable(f, xs) then Some(xs) else None
  }

  // ----- the exporter as it runs

  /** One section body in a buffer of its own. */
  method FixedSection<T>(tag: u32, f: Format<T>, xs: seq<T>) returns (st: Status, sec: Section)
    requires |xs| < TWO32
    ensures st.Ok? ==> sec == Section(tag, EncodeTable(f, xs))
    ensures st.Failed? ==> SIZE_MAX / 2 < |EncodeTable(f, xs)|
  {
    var body := new Buf(128);
    st := WriteFixed(f, xs, body);
    sec := Section(tag, body.data[..body.size]);
  }

  method NameSection(xs: seq<Name>) returns (st: Status, sec: Section)
    requires |xs| < TWO32
    ensures st.Ok? ==> sec == Section(TAG_SNAM, EncodeTable(NAME_FORMAT, xs))
    ensures st.Failed? ==> SIZE_MAX / 2 < |EncodeTable(NAME_FORMAT, xs)|
  {
    var body := new Buf(256);
    st := WriteNames(xs, body);
    sec := Section(TAG_SNAM, body.data[..body.size]);
  }

  method WaveSection(ws: seq<StoredWave>, withSamples: bool) returns (st: Status, sec: Section)
    requires |ws| < TWO32
    ensures var table := if withSamples then ws else [];
            && (st.Ok? ==> sec == Section(TAG_WAVE, EncodeTable(WAVE_FORMAT, table)))
            && (st.Failed? ==> SIZE_MAX / 2 < |EncodeTable(WAVE_FORMAT, table)|)
  {
    var body := new Buf(512);
    st := WriteWaves(ws, body, withSamples);
    sec := Section(TAG_WAVE, body.data[..body.size]);
  }

  method SummaryBody(c: Counts) returns (sec: Section)
    ensures sec == SummSection(c)
  {
    hide WriteSumm;
    SummInverse([], SummOf(c));
    var body := new Buf(128);
    var st := WriteSummary(SummOf(c), body);
    sec := Section(TAG_SUMM, body.data[..body.size]);
  }

  /** No section body is longer than the image. */
  lemma CoreSizes(p: Parsed, withSamples: bool, secs: seq<Section>)
    requires Countable(p) && CoreSections(p, withSamples) <= secs
    ensures var n := ImageSize(secs);
            CoreBounded(p, withSamples, n)
  {
    hide EncodeTable, StoredWaves, ImageSize, Bodies;
    OffsetBound(secs, 0);
    OffsetBound(secs, 1);
    OffsetBound(secs, 2);
    OffsetBound(secs, 3);
    OffsetBound(secs, 4);
    OffsetBound(secs, 5);
    OffsetBound(secs, 6);
    OffsetBound(secs, 7);
  }

  /** The first eight sections, each in a buffer of its own. */
  method BuildCore(p: Parsed, withSamples: bool) returns (st: Status, secs: seq<Section>)
    requires Countable(p)
    ensures st.Ok? ==> secs == CoreSections(p, withSamples)
    ensures st.Failed? ==>
              forall all | CoreSections(p, withSamples) <= all :: SIZE_MAX / 2 < ImageSize(all)
  {
    hide EncodeTable, StoredWaves, ImageSize;
    forall all | CoreSections(p, withSamples) <= all ensures CoreBounded(p, withSamples, ImageSize(all)) {
      CoreSizes(p, withSamples, all);
    }
    secs := [];
    var s0, s1, s2, s3, s4, s5, s6, s7;
    st, s0 := NameSection(p.names);
    if st.Failed? { return; }
    st, s1 := FixedSection(TAG_ROUT, ROUTE_FORMAT, p.routes);
    if st.Failed? { return; }
    st, s2 := FixedSection(TAG_INST, INST_FORMAT, p.insts);
    if st.Failed? { return; }
    st, s3 := FixedSection(TAG_CLBR, CALIB_FORMAT, p.calibs);
    if st.Failed? { return; }
    st, s4 := FixedSection(TAG_WIND, WINDOW_FORMAT, p.windows);
    if st.Failed? { return; }
    st, s5 := WaveSection(StoredWaves(p.waves, withSamples), withSamples);
    if st.Failed? { return; }
    st, s6 := FixedSection(TAG_MARK, MARKER_FORMAT, p.markers);
    if st.Failed? { return; }
    st, s7 := FixedSection(TAG_LINK, LINK_FORMAT, p.links);
    if st.Failed? { return; }
    secs := [s0, s1, s2, s3, s4, s5, s6, s7];
  }

  ghost predicate CoreBounded(p: Parsed, withSamples: bool, n: nat)
    requires Countable(p)
  {
    && |EncodeTable(NAME_FORMAT, p.names)| <= n && |EncodeTable(ROUTE_FORMAT, p.routes)| <= n
    && |EncodeTable(INST_FORMAT, p.insts)| <= n && |EncodeTable(CALIB_FORMAT, p.calibs)| <= n
    && |EncodeTable(WINDOW_FORMAT, p.windows)| <= n
    && |EncodeTable(WAVE_FORMAT, StoredWaves(p.waves, withSamples))| <= n
    && |EncodeTable(MARKER_FORMAT, p.markers)| <= n && |EncodeTable(LINK_FORMAT, p.links)| <= n
  }

  /** `rv_export_build`: writes exactly the export image, and fails only when the image would exceed 2^63 bytes. */
  method ExportBuild(p: Parsed, derived: Option<Counts>, includeWave: bool, compact: bool)
    returns (st: Status, out: Buf)
    requires Countable(p)
    requires var c := if derived.Some? then derived.value else TableCounts(p);
             Writable(p, c, WithSamples(includeWave, compact))
    ensures fresh(out) && fresh(out.data) && out.Valid()
    ensures var c := if derived.Some? then derived.value else TableCounts(p);
            var image := ExportImage(p, c, WithSamples(includeWave, compact));
            (st.Ok? ==> out.Contents() == image) && (st.Failed? ==> SIZE_MAX / 2 < |image|)
  {
    hide EncodeTable, ImageOf, StoredWaves, WriteSumm, ImageSize, CoreSections;
    out := new Buf(0);
    var c := if derived.Some? then derived.value else TableCounts(p);
    var withSamples := if compact then includeWave else true;
    ImageParts(ExportStamp(p), ExportSections(p, c, withSamples));
    var secs;
    st, secs := BuildCore(p, withSamples);
    if st.Failed? { return; }
    var summary := SummaryBody(c);
    st, out := Assemble(ExportStamp(p), secs + [summary]);
  }
}
