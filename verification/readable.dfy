/** What the parser returns can always be written again, before and after normalisation and repair. */
module Readable {
  import opened Types
  import opened Buffers
  import opened TableFormat
  import opened Records
  import opened Image
  import opened Reader
  import opened Parser
  import opened RoundTrip
  import opened Export
  import opened Normalize
  import opened Repair

  /** Tables that a reader accepts back unchanged: within its limits, wave flags and checksums in 16 bits. */
  ghost predicate Rewritable(p: Parsed) {
    Decodable(p, true) && StoredWaves(p.waves, true) == p.waves
  }

  // ----- parsed tables are rewritable

  lemma ParsedStorable<T(!new)>(f: Format<T>, data: bytes, es: seq<DirEntry>, tag: u32, strict: bool)
    requires Valid(f) && ParseTable(f, data, es, tag, strict).Some?
    ensures Storable(f, ParseTable(f, data, es, tag, strict).value)
  {
    hide EncodeTable, Valid, DecodeTable, CrcVerifies;
    EmptyLength(f);
    match Locate(data, es, tag, strict)
    case At(p) => DecodedFits(f, p);
    case _ =>
  }

  lemma EmptyLength<T>(f: Format<T>)
    ensures |EncodeTable(f, [])| == 8
  {
  }

  lemma StoredFixpoint(ws: seq<StoredWave>)
    ensures StoredWaves(ws, true) == ws
  {
  }

  lemma EmptyRewritable()
    ensures Rewritable(EMPTY_PARSED)
  {
    EmptyLength(NAME_FORMAT);
    EmptyLength(ROUTE_FORMAT);
    EmptyLength(INST_FORMAT);
    EmptyLength(CALIB_FORMAT);
    EmptyLength(WINDOW_FORMAT);
    EmptyLength(WAVE_FORMAT);
    EmptyLength(MARKER_FORMAT);
    EmptyLength(LINK_FORMAT);
  }

  /** One step of the parser replaces one table by a storable one. */
  lemma StepRewritable(data: bytes, h: FileHeader, es: seq<DirEntry>, strict: bool, k: nat, p: Parsed)
    requires Rewritable(p) && StepTables(data, h, es, strict, k, p).Some?
    ensures Rewritable(StepTables(data, h, es, strict, k, p).value)
  {
    hide ParseTable, Storable, StoredWaves, ParseSumm, Valid;
    match k
    case 2 => NameFormatValid(); TableStorable(NAME_FORMAT, data, es, TAG_SNAM, strict);
    case 3 => RouteFormatExact(); TableStorable(ROUTE_FORMAT, data, es, TAG_ROUT, strict);
    case 4 => InstFormatExact(); TableStorable(INST_FORMAT, data, es, TAG_INST, strict);
    case 5 => CalibFormatExact(); TableStorable(CALIB_FORMAT, data, es, TAG_CLBR, strict);
    case 6 => WindowFormatExact(); TableStorable(WINDOW_FORMAT, data, es, TAG_WIND, strict);
    case 7 =>
      WaveFormatExact();
      TableStorable(WAVE_FORMAT, data, es, TAG_WAVE, strict);
      StoredFixpoint(ParseTable(WAVE_FORMAT, data, es, TAG_WAVE, strict).value);
    case 8 => MarkerFormatExact(); TableStorable(MARKER_FORMAT, data, es, TAG_MARK, strict);
    case 9 => LinkFormatExact(); TableStorable(LINK_FORMAT, data, es, TAG_LINK, strict);
    case 10 => NoteFormatExact(); TableStorable(NOTE_FORMAT, data, es, TAG_NOTE, strict);
    case _ =>
  }

  lemma TableStorable<T(!new)>(f: Format<T>, data: bytes, es: seq<DirEntry>, tag: u32, strict: bool)
    requires Valid(f) && ParseTable(f, data, es, tag, strict).Some?
    ensures var xs := ParseTable(f, data, es, tag, strict).value; Storable(f, xs) && |xs| < TWO32
  {
    ParsedStorable(f, data, es, tag, strict);
    StorableCount(f, ParseTable(f, data, es, tag, strict).value);
  }

  /** Whatever the parser has decoded at any point of its run, a writer can write and the parser accepts again. */
  lemma {:induction false} PartlyParsedRewritable(data: bytes, h: FileHeader, es: seq<DirEntry>, strict: bool, k: nat)
    requires AfterSteps(data, h, es, strict, k).Some?
    ensures Rewritable(AfterSteps(data, h, es, strict, k).value)
  {
    hide Rewritable, StepTables;
    if k == 0 {
      EmptyRewritable();
    } else {
      PartlyParsedRewritable(data, h, es, strict, k - 1);
      StepRewritable(data, h, es, strict, k - 1, AfterSteps(data, h, es, strict, k - 1).value);
    }
  }

  lemma ParsedIsRewritable(data: bytes, h: FileHeader, es: seq<DirEntry>, strict: bool)
    requires ParseTables(data, h, es, strict).Some?
    ensures Rewritable(ParseTables(data, h, es, strict).value)
  {
    hide ParseTables, AfterSteps, Rewritable;
    StepsParseAll(data, h, es, strict);
    PartlyParsedRewritable(data, h, es, strict, 12);
  }

  lemma StorableCount<T>(f: Format<T>, xs: seq<T>)
    requires Storable(f, xs)
    ensures |xs| < TWO32
  {
  }

  // ----- and stay so

  /** Tables of equally long records are equally long. */
  lemma {:induction false} SameLength<T>(enc: T -> bytes, xs: seq<T>, ys: seq<T>)
    requires |xs| == |ys| && forall i | 0 <= i < |xs| :: |enc(xs[i])| == |enc(ys[i])|
    ensures |EncodeAll(enc, xs)| == |EncodeAll(enc, ys)|
  {
    if xs != [] {
      var n := |xs| - 1;
      assert |enc(xs[n])| == |enc(ys[n])|;
      SameLength(enc, xs[..n], ys[..n]);
    }
  }

  lemma {:induction false} FixedLength<T(!new)>(f: Format<T>, size: nat, xs: seq<T>)
    requires FixedSize(f, size)
    ensures |EncodeAll(f.enc, xs)| == size * |xs|
  {
    if xs != [] {
      FixedLength(f, size, xs[..|xs| - 1]);
      assert SizeIs(f, size, xs[|xs| - 1]);
    }
  }

  /** For a fixed record size the count decides alone. */
  lemma FixedStorable<T(!new)>(f: Format<T>, size: nat, xs: seq<T>)
    requires FixedSize(f, size) && 8 + size * f.limit < TWO32
    ensures Storable(f, xs) <==> |xs| <= f.limit
  {
    if |xs| <= f.limit {
      FixedLength(f, size, xs);
      assert size * |xs| <= size * f.limit;
      forall i | 0 <= i < |xs| ensures f.ok(xs[i]) {
        assert SizeIs(f, size, xs[i]);
      }
    }
  }

  lemma FilledStorable(ws: seq<StoredWave>, vs: seq<StoredWave>)
    requires Storable(WAVE_FORMAT, ws) && |ws| == |vs|
    requires forall i | 0 <= i < |ws| :: vs[i].samples == ws[i].samples
    ensures Storable(WAVE_FORMAT, vs)
  {
    hide WriteWave;
    forall i | 0 <= i < |ws| ensures |WriteStoredWave(ws[i])| == |WriteStoredWave(vs[i])| {
      WaveLength(ws[i]);
      WaveLength(vs[i]);
    }
    SameLength(WriteStoredWave, ws, vs);
    assert forall i | 0 <= i < |ws| :: WAVE_FORMAT.ok(ws[i]) ==> WAVE_FORMAT.ok(vs[i]);
  }

  lemma FilledAreStored(bs: seq<Wave>, ws: seq<Window>)
    requires StoredWaves(bs, true) == bs
    ensures StoredWaves(FillAll(bs, ws), true) == FillAll(bs, ws)
    ensures forall i | 0 <= i < |bs| ::
              StoredWaves(FillAll(bs, ws), true)[i].samples == StoredWaves(bs, true)[i].samples
  {
    forall i | 0 <= i < |bs| ensures Stored(FillAll(bs, ws)[i]) == FillAll(bs, ws)[i] {
      assert StoredWaves(bs, true)[i] == Stored(bs[i]) == bs[i];
    }
  }

  lemma NormalizedRewritable(p: Parsed)
    requires Rewritable(p)
    ensures Rewritable(Normalized(p))
  {
    hide Storable, StoredWaves, SortedById, ClampAll, FillAll, FixedSize;
    WindowFormatExact();
    MarkerFormatExact();
    FixedStorable(WINDOW_FORMAT, WINDOW_SIZE, p.windows);
    FixedStorable(WINDOW_FORMAT, WINDOW_SIZE, SortedById(p.windows));
    FixedStorable(MARKER_FORMAT, MARKER_SIZE, p.markers);
    FixedStorable(MARKER_FORMAT, MARKER_SIZE, ClampAll(p.markers));
    FilledAreStored(p.waves, SortedById(p.windows));
    FilledStorable(StoredWaves(p.waves, true), StoredWaves(FillAll(p.waves, SortedById(p.windows)), true));
  }

  lemma RepairedRewritable(p: Parsed, o: RepairOptions, size: u64)
    requires Rewritable(p)
    ensures Rewritable(Repaired(p, o, size))
  {
    hide Storable, StoredWaves, Normalized, KeptLinks, FixedSize;
    NormalizedRewritable(p);
    NormalizedSizes(p);
    var q := AfterClamp(p, o);
    LinkFormatExact();
    FixedStorable(LINK_FORMAT, LINK_SIZE, q.links);
    FixedStorable(LINK_FORMAT, LINK_SIZE, KeptLinks(q.markers, q.links));
  }

  /** A rewritable package is normal when normalising it would change nothing. */
  ghost predicate Settled(p: Parsed) {
    Rewritable(p) && Normalized(p) == p
  }

  /** A repair leaves a settled package settled. */
  lemma RepairedSettled(p: Parsed, o: RepairOptions, size: u64)
    requires Settled(p)
    ensures Settled(Repaired(p, o, size))
  {
    hide Rewritable, Normalized, KeptLinks;
    RewritableCounts(p);
    RepairedRewritable(p, o, size);
    NormalizeIdempotent(p);
    var r := Repaired(p, o, size);
    NormalizeFrame(AfterClamp(p, o), r.links, r.summ, r.hasSumm);
  }

  lemma RewritableCounts(p: Parsed)
    requires Rewritable(p)
    ensures Countable(p)
  {
  }

  // ----- the image of a rewritable package

  lemma {:induction false} BodiesBound(secs: seq<Section>, bound: nat)
    requires forall i | 0 <= i < |secs| :: |secs[i].body| <= bound
    ensures |Bodies(secs)| <= |secs| * bound
  {
    if secs != [] {
      BodiesBound(secs[..|secs| - 1], bound);
    }
  }

  /** The image is short enough for every size computation of the exporter. */
  lemma ImageFits(p: Parsed)
    requires Rewritable(p)
    ensures Writable(p, TableCounts(p), true)
    ensures |ExportImage(p, TableCounts(p), true)| <= SIZE_MAX / 2
  {
    hide EncodeTable, StoredWaves, Bodies, ImageOf, AllOk;
    var secs := ExportSections(p, TableCounts(p), true);
    SummInverse([], SummOf(TableCounts(p)));
    forall i | 0 <= i < |secs| ensures |secs[i].body| <= TWO32 {
    }
    BodiesBound(secs, TWO32);
    ImageParts(ExportStamp(p), secs);
  }
}
