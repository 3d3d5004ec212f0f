/** What the two writers put where, in plain positions. */
module WrittenLayout {
  import opened Types
  import opened TableFormat
  import opened Records
  import opened Layout
  import opened Crc
  import opened Image
  import opened Reader
  import opened Parser
  import opened RoundTrip
  import opened Export
  import opened Builder
  import opened ImageLayout

  // ----- any list of sections

  function BodyStart(secs: seq<Section>, i: nat): nat
    requires i <= |secs|
  {
    if i == 0 then 64 + 24 * |secs| else BodyStart(secs, i - 1) + |secs[i - 1].body|
  }

  lemma {:induction false} BodyStartIs(secs: seq<Section>, i: nat)
    requires i <= |secs|
    ensures BodyStart(secs, i) == OffsetOf(secs, i)
  {
    if i > 0 {
      BodyStartIs(secs, i - 1);
      OffsetBound(secs, i - 1);
    }
  }

  /** Directory entry `i` has these characters and leads to this body. */
  ghost predicate Stands(img: bytes, i: nat, word: string, body: bytes) {
    var k := 64 + 24 * i;
    && k + 24 <= |img| && Chars(img, k, word) && Num4(img, k + 4) == 0
    && Num8(img, k + 8) + |body| <= |img| && img[Num8(img, k + 8)..Num8(img, k + 8) + |body|] == body
    && Num4(img, k + 16) == |body| % 0x1_0000_0000 && Num4(img, k + 20) == Crc32(body)
  }

  /** The header names the directory's place, the image's size and the writer's stamp, and its checksum is right. */
  ghost predicate Headed(img: bytes, stamp: Stamp, sections: nat) {
    && |img| >= 64 && Chars(img, 0, "RVPK")
    && Num2(img, 4) == stamp.verMajor && Num2(img, 6) == stamp.verMinor && Num4(img, 8) == 0
    && Num4(img, 12) == Crc32(Checksummed(img)) && Num8(img, 16) == stamp.createdUnix
    && Num4(img, 24) == sections && Num4(img, 28) == 64 && Num8(img, 32) == |img|
    && Num4(img, 40) == stamp.featureBits && Num4(img, 44) == 0 && Num8(img, 48) == 0 && Num8(img, 56) == 0
  }

  lemma HeaderWritten(stamp: Stamp, secs: seq<Section>)
    requires Addressable(secs)
    ensures Headed(ImageOf(stamp, secs), stamp, |secs|)
  {
    hide ImageOf, WriteHeader, HeaderAt, Crc32, Chars, Num2, Num4, Num8, Checksummed;
    var img, h := ImageOf(stamp, secs), HeaderFor(stamp, secs);
    ImageParts(stamp, secs);
    HeaderParses(stamp, secs);
    HeaderReadExactly(img, h);
    HeaderReadBack(h, img);
    assert WriteHeader(h) <= img;
    NumsRead(img, 56);
    ChecksummedHeader(img);
    assert HeaderCrc(h) == HeaderCrc(h.(headerCrc := 0)) == Crc32(Checksummed(img));
  }

  lemma SectionWritten(stamp: Stamp, secs: seq<Section>, i: nat, word: string)
    requires Addressable(secs) && i < |secs| && Spells(word, secs[i].tag)
    ensures Stands(ImageOf(stamp, secs), i, word, secs[i].body)
    ensures Num8(ImageOf(stamp, secs), 64 + 24 * i + 8) == BodyStart(secs, i)
  {
    hide ImageOf, EntryAt, Crc32, Chars, Num4, Num8, Spells;
    var img, k := ImageOf(stamp, secs), 64 + 24 * i;
    EntryInImage(stamp, secs, i);
    EntryBytesRead(img, k, EntryFor(secs, i));
    WordTag(img, k, EntryFor(secs, i), word);
    BodyInImage(stamp, secs, i);
    BodyStartIs(secs, i);
  }

  ghost predicate TableStands<T>(img: bytes, i: nat, word: string, rows: (bytes, seq<T>) -> bool, xs: seq<T>) {
    exists body :: Stands(img, i, word, body) && rows(body, xs)
  }

  // ----- the sections of both writers

  /** The blocks as they are written: flags and checksum keep 16 bits. */
  ghost predicate Cut(ws: seq<Wave>, from: seq<Wave>) {
    && |ws| == |from|
    && forall i | 0 <= i < |ws| ::
         ws[i] == from[i].(flags := from[i].flags % 0x1_0000, payloadCrc := from[i].payloadCrc % 0x1_0000)
  }

  ghost predicate CoreStands(img: bytes, p: Parsed, waves: seq<Wave>) {
    && TableStands(img, 0, "SNAM", NameRows, p.names)
    && TableStands(img, 1, "ROUT", RouteRows, p.routes)
    && TableStands(img, 2, "INST", InstRows, p.insts)
    && TableStands(img, 3, "CLBR", CalibRows, p.calibs)
    && TableStands(img, 4, "WIND", WindowRows, p.windows)
    && TableStands(img, 5, "WAVE", WaveRows, waves)
    && TableStands(img, 6, "MARK", MarkerRows, p.markers)
    && TableStands(img, 7, "LINK", LinkRows, p.links)
  }

  lemma CoreWritten(stamp: Stamp, secs: seq<Section>, p: Parsed, withSamples: bool)
    requires Addressable(secs) && Countable(p) && |secs| >= 8 && secs[..8] == CoreSections(p, withSamples)
    ensures CoreStands(ImageOf(stamp, secs), p, StoredWaves(p.waves, withSamples))
  {
    hide ImageOf, EncodeTable, StoredWaves, Stands, NameRows, RouteRows, InstRows, CalibRows, WindowRows, WaveRows,
         MarkerRows, LinkRows, Spells;
    TagsSpell();
    var core, img := CoreSections(p, withSamples), ImageOf(stamp, secs);
    assert forall i | 0 <= i < 8 :: secs[i] == core[i];
    NamesWritten(p.names);
    RoutesWritten(p.routes);
    InstsWritten(p.insts);
    CalibsWritten(p.calibs);
    WindowsWritten(p.windows);
    WavesWritten(StoredWaves(p.waves, withSamples));
    MarkersWritten(p.markers);
    LinksWritten(p.links);
    SectionWritten(stamp, secs, 0, "SNAM");
    SectionWritten(stamp, secs, 1, "ROUT");
    SectionWritten(stamp, secs, 2, "INST");
    SectionWritten(stamp, secs, 3, "CLBR");
    SectionWritten(stamp, secs, 4, "WIND");
    SectionWritten(stamp, secs, 5, "WAVE");
    SectionWritten(stamp, secs, 6, "MARK");
    SectionWritten(stamp, secs, 7, "LINK");
  }

  ghost predicate SummStands(img: bytes, i: nat, s: Summ) {
    exists body :: Stands(img, i, "SUMM", body) && |body| == 40 && Chars(body, 0, "UMM1") && SummBytes(body, s)
  }

  lemma SummWrittenAt(stamp: Stamp, secs: seq<Section>, i: nat, s: Summ)
    requires Addressable(secs) && i < |secs| && secs[i] == Section(TAG_SUMM, WriteSumm(s))
    ensures SummStands(ImageOf(stamp, secs), i, s)
  {
    hide ImageOf, WriteSumm, Stands, Chars, SummBytes, Spells;
    SummSpells();
    SummWritten(s);
    SectionWritten(stamp, secs, i, "SUMM");
  }

  // ----- the exporter

  /** An export is a version 2.3 image of nine sections in this order; a summary holds the counts. */
  lemma ExportWritten(p: Parsed, c: Counts, withSamples: bool, ws: seq<Wave>)
    requires Writable(p, c, withSamples) && Cut(ws, if withSamples then p.waves else [])
    ensures var img := ExportImage(p, c, withSamples);
            && Headed(img, Stamp(2, 3, 0, p.featureBits), 9) && CoreStands(img, p, ws)
            && SummStands(img, 8, Summ(c.routes, c.windows, c.markers, c.waves, c.names, 0, 0, 0))
  {
    hide ImageOf, EncodeTable, CoreStands, Headed, SummStands, WriteSumm, CoreSections;
    var secs := ExportSections(p, c, withSamples);
    assert |CoreSections(p, withSamples)| == 8 by {
      CoreCount(p, withSamples);
    }
    assert ws == StoredWaves(p.waves, withSamples);
    assert secs[..8] == CoreSections(p, withSamples);
    HeaderWritten(ExportStamp(p), secs);
    CoreWritten(ExportStamp(p), secs, p, withSamples);
    SummWrittenAt(ExportStamp(p), secs, 8, SummOf(c));
  }

  lemma CoreCount(p: Parsed, withSamples: bool)
    requires Countable(p)
    ensures |CoreSections(p, withSamples)| == 8
  {
  }

  // ----- the serializer

  /** The blocks of a builder as they are written: the checksum is that of the sample bytes, cut to 16 bits. */
  ghost predicate Sealed(ws: seq<Wave>, from: seq<BWave>, body: bytes) {
    && |ws| == |from|
    && forall i | 0 <= i < |ws| ::
         && ws[i].blockId == from[i].blockId && ws[i].windowId == from[i].windowId && ws[i].startM == from[i].startM
         && ws[i].stepM == from[i].stepM && ws[i].samples == from[i].samples && ws[i].flags == from[i].flags
         && var k := WaveStart(ws, i) + 24;
            k + 2 * |ws[i].samples| <= |body| && ws[i].payloadCrc == Crc32(body[k..k + 2 * |ws[i].samples|]) % 0x1_0000
  }

  ghost predicate SealedStands(img: bytes, from: seq<BWave>) {
    exists body, ws :: Stands(img, 5, "WAVE", body) && WaveRows(body, ws) && Sealed(ws, from, body)
  }

  lemma SealedWritten(from: seq<BWave>)
    requires |from| < TWO32
    ensures Sealed(WithChecksums(from), from, EncodeTable(WAVE_FORMAT, WithChecksums(from)))
  {
    hide EncodeTable, Takes, WriteSamples, Crc32, WaveStart, Start;
    var ws := WithChecksums(from);
    var body := EncodeTable(WAVE_FORMAT, ws);
    WaveTakes();
    forall i | 0 <= i < |ws|
      ensures var k := WaveStart(ws, i) + 24;
              k + 2 * |ws[i].samples| <= |body| && body[k..k + 2 * |ws[i].samples|] == WriteSamples(ws[i].samples)
    {
      TableWritten(WAVE_FORMAT, StoredLength, ws, i);
      StoredStart(ws, i);
      SamplesStand(body, WaveStart(ws, i), ws[i]);
    }
  }

  lemma SamplesStand(body: bytes, k: nat, w: Wave)
    requires k + 24 + 2 * |w.samples| <= |body| && body[k..k + 24 + 2 * |w.samples|] == WriteWave(w)
    ensures body[k + 24..k + 24 + 2 * |w.samples|] == WriteSamples(w.samples)
  {
    hide WriteHead, WriteSamples, HeadAt;
    SamplesLength(w.samples);
    HeadInverse(body, k, HeadOf(w), WriteSamples(w.samples));
  }

  /** A builder's image has the version and time it was given, eight sections in the same order, and the notes and the
      summary that the options ask for; blocks carry the checksum of their samples. */
  ghost predicate BuilderStands(t: Tables, o: WriteOptions, img: bytes) {
    var notes, summs := if o.includeNotes then 1 else 0, if o.includeSumm then 1 else 0;
    && Headed(img, o.stamp, 8 + notes + summs)
    && TableStands(img, 0, "SNAM", NameRows, t.names) && TableStands(img, 1, "ROUT", RouteRows, t.routes)
    && TableStands(img, 2, "INST", InstRows, t.insts) && TableStands(img, 3, "CLBR", CalibRows, t.calibs)
    && TableStands(img, 4, "WIND", WindowRows, t.windows) && SealedStands(img, t.waves)
    && TableStands(img, 6, "MARK", MarkerRows, t.markers) && TableStands(img, 7, "LINK", LinkRows, t.links)
    && (o.includeNotes ==> TableStands(img, 8, "NOTE", NoteRows, t.notes))
    && (o.includeSumm ==> CountsStand(img, 8 + notes, t))
  }

  /** The summary holds the numbers of rows. */
  ghost predicate CountsStand(img: bytes, i: nat, t: Tables) {
    && |t.routes| < TWO32 && |t.windows| < TWO32 && |t.markers| < TWO32 && |t.waves| < TWO32 && |t.names| < TWO32
    && SummStands(img, i, Summ(|t.routes|, |t.windows|, |t.markers|, |t.waves|, |t.names|, 0, 0, 0))
  }

  lemma BuilderWritten(t: Tables, o: WriteOptions)
    requires Serializable(t, o)
    ensures BuilderStands(t, o, BuilderImage(t, o))
  {
    hide ImageOf, EncodeTable, Headed, SummStands, WriteSumm, CoreSections, Stands, Sealed, WithChecksums, Spells,
         NameRows, RouteRows, InstRows, CalibRows, WindowRows, WaveRows, MarkerRows, LinkRows, NoteRows;
    var p, secs := AsParsed(t, o), BuilderSections(t, o);
    var img := ImageOf(o.stamp, secs);
    CoreCount(p, true);
    assert secs[..8] == CoreSections(p, true);
    HeaderWritten(o.stamp, secs);
    CoreWritten(o.stamp, secs, p, true);
    WaveSectionWritten(t, o);
    if o.includeNotes {
      TagsSpell();
      NotesWritten(t.notes);
      assert secs[8] == Section(TAG_NOTE, EncodeTable(NOTE_FORMAT, t.notes));
      SectionWritten(o.stamp, secs, 8, "NOTE");
    }
    if o.includeSumm {
      SummWrittenAt(o.stamp, secs, if o.includeNotes then 9 else 8, SummOf(TableCounts(p)));
    }
  }

  lemma WaveSectionWritten(t: Tables, o: WriteOptions)
    requires Serializable(t, o)
    ensures SealedStands(BuilderImage(t, o), t.waves)
  {
    hide ImageOf, EncodeTable, Stands, Sealed, WithChecksums, WaveRows, Spells;
    var p, secs := AsParsed(t, o), BuilderSections(t, o);
    var ws := WithChecksums(t.waves);
    ChecksumsStored(t.waves);
    TagsSpell();
    WavesWritten(ws);
    SealedWritten(t.waves);
    assert secs[5] == Section(TAG_WAVE, EncodeTable(WAVE_FORMAT, ws));
    SectionWritten(o.stamp, secs, 5, "WAVE");
  }
}
