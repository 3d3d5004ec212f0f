/** The image in plain positions: what a parser must find to accept it, and what the writers put where. */
module ImageLayout {
  import opened Types
  import opened Endian
  import opened TableFormat
  import opened Records
  import opened Layout
  import opened Crc
  import opened Image
  import opened Reader
  import opened Parser

  // ----- the header

  /** The first 64 bytes as they are checksummed: without the checksum itself and without the last eight bytes. */
  function Checksummed(data: bytes): bytes
    requires |data| >= 64
  {
    data[..12] + [0, 0, 0, 0] + data[16..56] + [0, 0, 0, 0, 0, 0, 0, 0]
  }

  function EntryPos(data: bytes, i: nat): nat
    requires |data| >= 64
  {
    Num4(data, 28) + 24 * i
  }

  ghost predicate HeaderOk(data: bytes) {
    && |data| >= 64 && Chars(data, 0, "RVPK")
    && Num4(data, 24) <= 64 <= Num4(data, 28) && EntryPos(data, Num4(data, 24)) <= |data|
    && (Num4(data, 12) == 0 || Num4(data, 12) == Crc32(Checksummed(data)))
  }

  ghost predicate HeaderBytes(data: bytes, h: FileHeader) {
    && |data| >= 64
    && h.verMajor == Num2(data, 4) && h.verMinor == Num2(data, 6) && h.flags == Num4(data, 8)
    && h.headerCrc == Num4(data, 12) && h.createdUnix == Num8(data, 16) && h.sectionCount == Num4(data, 24)
    && h.dirOffset == Num4(data, 28) && h.totalSize == Num8(data, 32) && h.featureBits == Num4(data, 40)
    && h.reserved0 == Num4(data, 44) && h.reserved1 == Num8(data, 48)
  }

  lemma HeaderBytesRead(data: bytes, h: FileHeader)
    requires |data| >= 64
    ensures HeaderAt(data) == h <==> HeaderBytes(data, h)
  {
    hide U16At, U32At, U64At, Num2, Num4, Num8;
    NumsRead(data, 4);
    NumsRead(data, 6);
    NumsRead(data, 8);
    NumsRead(data, 12);
    NumsRead(data, 16);
    NumsRead(data, 24);
    NumsRead(data, 28);
    NumsRead(data, 32);
    NumsRead(data, 40);
    NumsRead(data, 44);
    NumsRead(data, 48);
  }

  /** Numbers are the same where the bytes are. */
  lemma SameNums(p: bytes, q: bytes, k: nat, n: nat)
    requires k + n <= |p| && k + n <= |q| && p[k..k + n] == q[k..k + n]
    ensures n == 2 ==> Num2(p, k) == Num2(q, k)
    ensures n == 4 ==> Num4(p, k) == Num4(q, k)
    ensures n == 8 ==> Num8(p, k) == Num8(q, k)
  {
    forall i | k <= i < k + n ensures p[i] == q[i] {
      assert p[k..k + n][i - k] == q[k..k + n][i - k];
    }
  }

  lemma ChecksummedHeader(data: bytes)
    requires |data| >= 64 && U32At(data, 0) == MAGIC
    ensures WriteHeader(HeaderAt(data).(headerCrc := 0)) == Checksummed(data)
  {
    hide U32At, U16At, U64At, Num2, Num4, Num8, WriteHeader, Crc32;
    var q, h := Checksummed(data), HeaderAt(data).(headerCrc := 0);
    assert q[0..4] == data[0..4] && q[4..6] == data[4..6] && q[6..8] == data[6..8] && q[8..12] == data[8..12];
    assert q[16..56] == data[16..56];
    KeepsNums(data, q);
    HeaderBytesRead(data, HeaderAt(data));
    HeaderBytesRead(q, h);
    NumsRead(data, 0);
    NumsRead(q, 0);
    NumsRead(q, 56);
    HeaderReadBack(h, q);
    assert WriteHeader(h) <= q && |WriteHeader(h)| == |q|;
  }

  lemma KeepsNums(data: bytes, q: bytes)
    requires |data| >= 64 && q == Checksummed(data)
    ensures Num4(q, 0) == Num4(data, 0) && Num2(q, 4) == Num2(data, 4) && Num2(q, 6) == Num2(data, 6)
    ensures Num4(q, 8) == Num4(data, 8) && Num4(q, 12) == 0 && Num8(q, 56) == 0
    ensures Num8(q, 16) == Num8(data, 16) && Num4(q, 24) == Num4(data, 24) && Num4(q, 28) == Num4(data, 28)
    ensures Num8(q, 32) == Num8(data, 32) && Num4(q, 40) == Num4(data, 40) && Num4(q, 44) == Num4(data, 44)
    ensures Num8(q, 48) == Num8(data, 48)
  {
    forall j | 0 <= j < 12 || 16 <= j < 56 ensures q[j] == data[j] {
    }
  }

  lemma HeaderReadExactly(data: bytes, h: FileHeader)
    ensures ParseFileHeader(data) == Some(h) <==> HeaderOk(data) && HeaderBytes(data, h)
  {
    hide U32At, U16At, U64At, Num2, Num4, Num8, WriteHeader, Crc32, Checksummed, HeaderAt, Chars;
    if |data| >= 64 {
      WordIs(data, 0, "RVPK", 0x4B50_5652);
      if U32At(data, 0) == MAGIC {
        ChecksummedHeader(data);
        var g := HeaderAt(data);
        HeaderBytesRead(data, g);
        HeaderBytesRead(data, h);
      }
    }
  }

  // ----- the directory

  ghost predicate EntryBytes(p: bytes, k: nat, e: DirEntry) {
    && k + 24 <= |p|
    && e.tag == Num4(p, k) && e.flags == Num4(p, k + 4) && e.offset == Num8(p, k + 8)
    && e.length == Num4(p, k + 16) && e.crc == Num4(p, k + 20)
  }

  lemma EntryBytesRead(p: bytes, k: nat, e: DirEntry)
    requires k + 24 <= |p|
    ensures EntryAt(p, k) == e <==> EntryBytes(p, k, e)
  {
    hide U32At, U64At, Num4, Num8;
    NumsRead(p, k);
    NumsRead(p, k + 4);
    NumsRead(p, k + 8);
    NumsRead(p, k + 16);
    NumsRead(p, k + 20);
  }

  /** Offset plus length, which wraps around at 2^64, of an entry. */
  ghost predicate InRange(data: bytes, k: nat) {
    k + 24 <= |data| && (Num8(data, k + 8) + Num4(data, k + 16)) % 0x1_0000_0000_0000_0000 <= |data|
  }

  ghost predicate LoadOk(data: bytes) {
    && HeaderOk(data) && 1 <= Num2(data, 4) <= 2
    && forall i | 0 <= i < Num4(data, 24) :: InRange(data, EntryPos(data, i))
  }

  lemma LoadExactly(data: bytes)
    ensures LoadDir(data).Some? <==> LoadOk(data)
    ensures LoadDir(data).Some? ==>
              var (h, es) := LoadDir(data).value;
              && HeaderBytes(data, h) && |es| == Num4(data, 24)
              && forall i | 0 <= i < |es| :: EntryBytes(data, EntryPos(data, i), es[i])
  {
    hide Num2, Num4, Num8, Chars, ParseFileHeader, EntryAt, Crc32, Checksummed;
    if ParseFileHeader(data).Some? {
      var h := ParseFileHeader(data).value;
      HeaderReadExactly(data, h);
      var es := EntriesAt(data, h);
      forall i | 0 <= i < |es|
        ensures EntryBytes(data, EntryPos(data, i), es[i])
        ensures RangeChecked(data, es[i]) <==> InRange(data, EntryPos(data, i))
      {
        EntryBytesRead(data, EntryPos(data, i), es[i]);
      }
    } else if HeaderOk(data) {
      HeaderBytesRead(data, HeaderAt(data));
      HeaderReadExactly(data, HeaderAt(data));
    }
  }

  // ----- a section under its word

  /** Of `n` entries from position `dir` on, entry `i` is the first one with these four characters. */
  ghost predicate FirstAt(data: bytes, dir: nat, n: nat, word: string, i: nat) {
    i < n && Chars(data, dir + 24 * i, word) && forall j: nat | j < i :: !Chars(data, dir + 24 * j, word)
  }

  ghost predicate NoEntry(data: bytes, dir: nat, n: nat, word: string) {
    forall j: nat | j < n :: !Chars(data, dir + 24 * j, word)
  }

  /** The entry at position `k` leads to bytes of the image. */
  ghost predicate Mapped(data: bytes, k: nat) {
    k + 24 <= |data| && Num8(data, k + 8) + Num4(data, k + 16) <= |data|
  }

  function PayloadAt(data: bytes, k: nat): bytes
    requires Mapped(data, k)
  {
    data[Num8(data, k + 8)..Num8(data, k + 8) + Num4(data, k + 16)]
  }

  /** The stored checksum is zero or that of the bytes. */
  ghost predicate Checked(data: bytes, k: nat) {
    Mapped(data, k) && (Num4(data, k + 20) == 0 || Num4(data, k + 20) == Crc32(PayloadAt(data, k)))
  }

  /** The table under a word: the payload of the first entry, which a strict reader also wants to be checked; or
      nothing, which a strict reader does not accept. */
  ghost predicate SectionIs<T>(data: bytes, dir: nat, n: nat, word: string, strict: bool, rows: (bytes, seq<T>) -> bool,
                               xs: seq<T>)
  {
    && (NoEntry(data, dir, n, word) ==> !strict && xs == [])
    && forall i: nat | FirstAt(data, dir, n, word, i) ::
         var k := dir + 24 * i;
         Mapped(data, k) && (strict ==> Checked(data, k)) && rows(PayloadAt(data, k), xs)
  }

  ghost predicate DirectoryBytes(data: bytes, dir: nat, es: seq<DirEntry>) {
    forall i | 0 <= i < |es| :: EntryBytes(data, dir + 24 * i, es[i])
  }

  lemma WordTag(data: bytes, k: nat, e: DirEntry, word: string)
    requires EntryBytes(data, k, e)
    ensures forall tag | Spells(word, tag) :: e.tag == tag <==> Chars(data, k, word)
  {
    hide U32At, Num4, Num8, Chars, Spells;
    NumsRead(data, k);
    forall tag | Spells(word, tag) ensures e.tag == tag <==> Chars(data, k, word) {
      WordIs(data, k, word, tag);
    }
  }

  /** Finding by tag is finding by word. */
  lemma FindsFirst(data: bytes, dir: nat, es: seq<DirEntry>, word: string, tag: u32) returns (i: nat)
    requires DirectoryBytes(data, dir, es) && Spells(word, tag)
    ensures FindEntry(es, tag).None? <==> NoEntry(data, dir, |es|, word)
    ensures FindEntry(es, tag).Some? ==>
              FirstAt(data, dir, |es|, word, i) && i < |es| && FindEntry(es, tag) == Some(es[i])
  {
    hide Chars, FindEntry, EntryBytes, Spells;
    forall j | 0 <= j < |es| ensures es[j].tag == tag <==> Chars(data, dir + 24 * j, word) {
      WordTag(data, dir + 24 * j, es[j], word);
    }
    i := 0;
    while i < |es| && es[i].tag != tag
      invariant i <= |es| && (forall j | 0 <= j < i :: es[j].tag != tag)
      invariant forall j: nat | j < i :: !Chars(data, dir + 24 * j, word)
    {
      assert es[i].tag == tag <==> Chars(data, dir + 24 * i, word);
      i := i + 1;
    }
    if i < |es| {
      assert Chars(data, dir + 24 * i, word);
      FindEntryAt(es, tag, i);
    }
  }

  lemma EntrySlices(data: bytes, k: nat, e: DirEntry)
    requires EntryBytes(data, k, e)
    ensures SectionSlice(data, e) == if Mapped(data, k) then Some(PayloadAt(data, k)) else None
    ensures SectionSlice(data, e).Some? ==> (CrcVerifies(data, e) <==> Checked(data, k))
    ensures SectionSlice(data, e).None? ==> !Checked(data, k)
  {
    hide Num4, Num8, Crc32;
  }

  /** A table is read under its word exactly when it stands there. */
  lemma SectionExactly<T(!new)>(f: Format<T>, rows: (bytes, seq<T>) -> bool, data: bytes, dir: nat, es: seq<DirEntry>,
                                word: string, tag: u32, strict: bool, xs: seq<T>)
    requires DirectoryBytes(data, dir, es) && Spells(word, tag)
    requires forall p :: DecodeTable(f, p) == Some(xs) <==> rows(p, xs)
    ensures ParseTable(f, data, es, tag, strict) == Some(xs) <==>
            SectionIs(data, dir, |es|, word, strict, rows, xs)
  {
    hide Num4, Num8, Chars, FindEntry, EntryBytes, DecodeTable, CrcVerifies, SectionSlice, Mapped, PayloadAt, Checked,
         FirstAt, NoEntry, Spells;
    var i := FindsFirst(data, dir, es, word, tag);
    forall j, k | FirstAt(data, dir, |es|, word, j) && FirstAt(data, dir, |es|, word, k) ensures j == k {
      OneFirst(data, dir, |es|, word, j, k);
    }
    if FindEntry(es, tag).Some? {
      assert EntryBytes(data, dir + 24 * i, es[i]);
      EntrySlices(data, dir + 24 * i, es[i]);
    } else {
      forall j | FirstAt(data, dir, |es|, word, j) ensures false {
        NotFirst(data, dir, |es|, word, j);
      }
    }
  }

  lemma NotFirst(data: bytes, dir: nat, n: nat, word: string, j: nat)
    requires FirstAt(data, dir, n, word, j)
    ensures !NoEntry(data, dir, n, word)
  {
    hide Chars;
  }

  lemma OneFirst(data: bytes, dir: nat, n: nat, word: string, i: nat, j: nat)
    requires FirstAt(data, dir, n, word, i) && FirstAt(data, dir, n, word, j)
    ensures i == j
  {
    hide Chars;
  }

  // ----- the whole image, as it is read

  ghost predicate SummIs(data: bytes, dir: nat, n: nat, q: Parsed) {
    && (NoEntry(data, dir, n, "SUMM") ==> !q.hasSumm && q.summ == Summ(0, 0, 0, 0, 0, 0, 0, 0))
    && forall i: nat | FirstAt(data, dir, n, "SUMM", i) ::
         var k := dir + 24 * i;
         Mapped(data, k) && q.hasSumm && Chars(PayloadAt(data, k), 0, "UMM1") && SummBytes(PayloadAt(data, k), q.summ)
  }

  ghost predicate CoreIs(data: bytes, dir: nat, n: nat, strict: bool, q: Parsed) {
    && SectionIs(data, dir, n, "SNAM", strict, NameTable, q.names)
    && SectionIs(data, dir, n, "ROUT", strict, RouteTable, q.routes)
    && SectionIs(data, dir, n, "INST", strict, InstTable, q.insts)
    && SectionIs(data, dir, n, "CLBR", strict, CalibTable, q.calibs)
    && SectionIs(data, dir, n, "WIND", strict, WindowTable, q.windows)
    && SectionIs(data, dir, n, "WAVE", strict, WaveTable, q.waves)
    && SectionIs(data, dir, n, "MARK", strict, MarkerTable, q.markers)
    && SectionIs(data, dir, n, "LINK", strict, LinkTable, q.links)
    && SectionIs(data, dir, n, "NOTE", strict, NoteTable, q.notes)
  }

  /** The image holds this package: header, directory, and every section under its word. */
  ghost predicate ImageIs(data: bytes, strict: bool, q: Parsed) {
    && LoadOk(data)
    && var dir, n := Num4(data, 28), Num4(data, 24);
       CoreIs(data, dir, n, strict, q) && SummIs(data, dir, n, q) && q.featureBits == Num4(data, 40)
  }

  lemma SummExactly(data: bytes, dir: nat, es: seq<DirEntry>, q: Parsed)
    requires DirectoryBytes(data, dir, es)
    ensures (ParseSumm(data, es) == Some(if q.hasSumm then Some(q.summ) else None)
             && (!q.hasSumm ==> q.summ == EMPTY_SUMM)) <==>
            SummIs(data, dir, |es|, q)
  {
    hide Num4, Num8, Chars, FindEntry, EntryBytes, DecodeSumm, SectionSlice, Mapped, PayloadAt, FirstAt, NoEntry,
         Spells, SummBytes;
    SummSpells();
    var i := FindsFirst(data, dir, es, "SUMM", TAG_SUMM);
    forall j, k | FirstAt(data, dir, |es|, "SUMM", j) && FirstAt(data, dir, |es|, "SUMM", k) ensures j == k {
      OneFirst(data, dir, |es|, "SUMM", j, k);
    }
    if FindEntry(es, TAG_SUMM).Some? {
      assert EntryBytes(data, dir + 24 * i, es[i]);
      EntrySlices(data, dir + 24 * i, es[i]);
      if Mapped(data, dir + 24 * i) {
        SummRead(PayloadAt(data, dir + 24 * i), q.summ);
      }
    } else {
      forall j | FirstAt(data, dir, |es|, "SUMM", j) ensures false {
        NotFirst(data, dir, |es|, "SUMM", j);
      }
    }
  }

  lemma SummSpells()
    ensures Spells("SUMM", TAG_SUMM)
  {
  }

  lemma TagsSpell()
    ensures Spells("SNAM", TAG_SNAM) && Spells("ROUT", TAG_ROUT) && Spells("INST", TAG_INST)
    ensures Spells("CLBR", TAG_CLBR) && Spells("WIND", TAG_WIND) && Spells("WAVE", TAG_WAVE)
    ensures Spells("MARK", TAG_MARK) && Spells("LINK", TAG_LINK) && Spells("NOTE", TAG_NOTE)
  {
  }

  /** The blocks that a reader returns have flags and checksums of 16 bits. */
  lemma WavesExactly(data: bytes, dir: nat, es: seq<DirEntry>, strict: bool, ws: seq<Wave>)
    requires DirectoryBytes(data, dir, es)
    ensures (var t := ParseTable(WAVE_FORMAT, data, es, TAG_WAVE, strict); t.Some? && t.value == ws) <==>
            SectionIs(data, dir, |es|, "WAVE", strict, WaveTable, ws)
  {
    hide Num4, Num8, Num2, Chars, ParseTable, EntryBytes, Mapped, PayloadAt, Checked, Spells, WaveStart, NoEntry,
         FirstAt;
    TagsSpell();
    if forall i | 0 <= i < |ws| :: ws[i].flags < TWO16 && ws[i].payloadCrc < TWO16 {
      var stored: seq<StoredWave> := ws;
      forall p: bytes ensures DecodeTable(WAVE_FORMAT, p) == Some(stored) <==> StoredTable(p, stored) {
        WavesRead(p, stored);
      }
      SectionExactly(WAVE_FORMAT, StoredTable, data, dir, es, "WAVE", TAG_WAVE, strict, stored);
    } else if SectionIs(data, dir, |es|, "WAVE", strict, WaveTable, ws) {
      WordOrNot(data, dir, |es|, "WAVE");
      var i: nat :| FirstAt(data, dir, |es|, "WAVE", i);
      CutWaves(PayloadAt(data, dir + 24 * i), ws);
    }
  }

  ghost predicate StoredTable(p: bytes, ws: seq<StoredWave>) {
    WaveTable(p, ws)
  }

  lemma CutWaves(p: bytes, ws: seq<Wave>)
    requires WaveTable(p, ws)
    ensures forall i | 0 <= i < |ws| :: ws[i].flags < TWO16 && ws[i].payloadCrc < TWO16
  {
    hide Num4, WaveStart;
  }

  lemma WordOrNot(data: bytes, dir: nat, n: nat, word: string)
    ensures NoEntry(data, dir, n, word) || exists i: nat :: FirstAt(data, dir, n, word, i)
  {
    hide Chars;
    var i: nat := 0;
    while i < n && !Chars(data, dir + 24 * i, word)
      invariant i <= n && forall j: nat | j < i :: !Chars(data, dir + 24 * j, word)
    {
      i := i + 1;
    }
    if i < n {
      assert FirstAt(data, dir, n, word, i);
    }
  }

  /** Each of the other tables. */
  lemma TablesExactly(data: bytes, dir: nat, es: seq<DirEntry>, strict: bool, q: Parsed)
    requires DirectoryBytes(data, dir, es)
    ensures CoreIs(data, dir, |es|, strict, q) <==>
            && ParseTable(NAME_FORMAT, data, es, TAG_SNAM, strict) == Some(q.names)
            && ParseTable(ROUTE_FORMAT, data, es, TAG_ROUT, strict) == Some(q.routes)
            && ParseTable(INST_FORMAT, data, es, TAG_INST, strict) == Some(q.insts)
            && ParseTable(CALIB_FORMAT, data, es, TAG_CLBR, strict) == Some(q.calibs)
            && ParseTable(WINDOW_FORMAT, data, es, TAG_WIND, strict) == Some(q.windows)
            && (var t := ParseTable(WAVE_FORMAT, data, es, TAG_WAVE, strict); t.Some? && t.value == q.waves)
            && ParseTable(MARKER_FORMAT, data, es, TAG_MARK, strict) == Some(q.markers)
            && ParseTable(LINK_FORMAT, data, es, TAG_LINK, strict) == Some(q.links)
            && ParseTable(NOTE_FORMAT, data, es, TAG_NOTE, strict) == Some(q.notes)
  {
    hide ParseTable, SectionIs, DecodeTable, DirectoryBytes, Spells, NameTable, RouteTable, InstTable, CalibTable,
         WindowTable, WaveTable, MarkerTable, LinkTable, NoteTable;
    TagsSpell();
    forall p: bytes ensures DecodeTable(NAME_FORMAT, p) == Some(q.names) <==> NameTable(p, q.names) {
      NamesRead(p, q.names);
    }
    SectionExactly(NAME_FORMAT, NameTable, data, dir, es, "SNAM", TAG_SNAM, strict, q.names);
    forall p: bytes ensures DecodeTable(ROUTE_FORMAT, p) == Some(q.routes) <==> RouteTable(p, q.routes) {
      RoutesRead(p, q.routes);
    }
    SectionExactly(ROUTE_FORMAT, RouteTable, data, dir, es, "ROUT", TAG_ROUT, strict, q.routes);
    forall p: bytes ensures DecodeTable(INST_FORMAT, p) == Some(q.insts) <==> InstTable(p, q.insts) {
      InstsRead(p, q.insts);
    }
    SectionExactly(INST_FORMAT, InstTable, data, dir, es, "INST", TAG_INST, strict, q.insts);
    forall p: bytes ensures DecodeTable(CALIB_FORMAT, p) == Some(q.calibs) <==> CalibTable(p, q.calibs) {
      CalibsRead(p, q.calibs);
    }
    SectionExactly(CALIB_FORMAT, CalibTable, data, dir, es, "CLBR", TAG_CLBR, strict, q.calibs);
    forall p: bytes ensures DecodeTable(WINDOW_FORMAT, p) == Some(q.windows) <==> WindowTable(p, q.windows) {
      WindowsRead(p, q.windows);
    }
    SectionExactly(WINDOW_FORMAT, WindowTable, data, dir, es, "WIND", TAG_WIND, strict, q.windows);
    WavesExactly(data, dir, es, strict, q.waves);
    forall p: bytes ensures DecodeTable(MARKER_FORMAT, p) == Some(q.markers) <==> MarkerTable(p, q.markers) {
      MarkersRead(p, q.markers);
    }
    SectionExactly(MARKER_FORMAT, MarkerTable, data, dir, es, "MARK", TAG_MARK, strict, q.markers);
    forall p: bytes ensures DecodeTable(LINK_FORMAT, p) == Some(q.links) <==> LinkTable(p, q.links) {
      LinksRead(p, q.links);
    }
    SectionExactly(LINK_FORMAT, LinkTable, data, dir, es, "LINK", TAG_LINK, strict, q.links);
    forall p: bytes ensures DecodeTable(NOTE_FORMAT, p) == Some(q.notes) <==> NoteTable(p, q.notes) {
      NotesRead(p, q.notes);
    }
    SectionExactly(NOTE_FORMAT, NoteTable, data, dir, es, "NOTE", TAG_NOTE, strict, q.notes);
  }

  /** A parse gives exactly the package that the image holds, and fails exactly when it holds none. */
  lemma ImageReadExactly(data: bytes, strict: bool, q: Parsed)
    ensures ParseImage(data, strict) == Some(q) <==> ImageIs(data, strict, q)
  {
    hide ParseTable, ParseSumm, CoreIs, SummIs, LoadDir, LoadOk, Num4, Num8, Num2;
    LoadExactly(data);
    if LoadDir(data).Some? {
      var (h, es) := LoadDir(data).value;
      assert DirectoryBytes(data, Num4(data, 28), es);
      TablesExactly(data, Num4(data, 28), es, strict, q);
      SummExactly(data, Num4(data, 28), es, q);
      TablesJoin(data, h, es, strict, q);
    }
  }

  lemma TablesJoin(data: bytes, h: FileHeader, es: seq<DirEntry>, strict: bool, q: Parsed)
    ensures ParseTables(data, h, es, strict) == Some(q) <==>
            && ParseTable(NAME_FORMAT, data, es, TAG_SNAM, strict) == Some(q.names)
            && ParseTable(ROUTE_FORMAT, data, es, TAG_ROUT, strict) == Some(q.routes)
            && ParseTable(INST_FORMAT, data, es, TAG_INST, strict) == Some(q.insts)
            && ParseTable(CALIB_FORMAT, data, es, TAG_CLBR, strict) == Some(q.calibs)
            && ParseTable(WINDOW_FORMAT, data, es, TAG_WIND, strict) == Some(q.windows)
            && (var t := ParseTable(WAVE_FORMAT, data, es, TAG_WAVE, strict); t.Some? && t.value == q.waves)
            && ParseTable(MARKER_FORMAT, data, es, TAG_MARK, strict) == Some(q.markers)
            && ParseTable(LINK_FORMAT, data, es, TAG_LINK, strict) == Some(q.links)
            && ParseTable(NOTE_FORMAT, data, es, TAG_NOTE, strict) == Some(q.notes)
            && ParseSumm(data, es) == Some(if q.hasSumm then Some(q.summ) else None)
            && (!q.hasSumm ==> q.summ == EMPTY_SUMM) && q.featureBits == h.featureBits
  {
    hide ParseTable, ParseSumm;
  }
}
