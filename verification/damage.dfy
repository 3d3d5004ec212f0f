/** What the checksums are for: a stored checksum that does not match is refused, and one changed byte never matches. */
module Damage {
  import opened Types
  import opened Endian
  import opened TableFormat
  import opened Records
  import opened Layout
  import opened Crc
  import opened Image
  import opened Reader
  import opened Parser
  import opened RoundTrip
  import opened ImageLayout
  import opened Validate

  // ----- one changed byte changes the checksum

  lemma XorCancels(a: nat, b: nat, c: nat)
    requires Xor(a, c) == Xor(b, c)
    ensures a == b
  {
    hide Xor;
    XorAssociative(a, c, c);
    XorAssociative(b, c, c);
    XorSelf(c);
    XorZero(a);
    XorZero(b);
  }

  lemma {:induction false} ShrSmall(x: nat, k: nat)
    requires x < Pow2(k)
    ensures Shr(x, k) == 0
  {
    if k > 0 {
      ShrSmall(x / 2, k - 1);
    }
  }

  lemma {:induction false} ShrTop(x: nat, k: nat)
    requires Pow2(k) <= x < 2 * Pow2(k)
    ensures Shr(x, k) == 1
  {
    if k > 0 {
      ShrTop(x / 2, k - 1);
    }
  }

  lemma TopBit()
    ensures Shr(POLY, 31) == 1 && Pow2(31) == 0x8000_0000
  {
    Pow2Values();
    assert Pow2(32) == 2 * Pow2(31);
    hide Pow2, Shr;
    ShrTop(POLY, 31);
  }

  /** Each bit step can be undone: the top bit tells whether the generator was fed back. */
  lemma BitStepInjective(a: u32, b: u32)
    requires BitStep(a) == BitStep(b)
    ensures a == b
  {
    hide Xor, Shr, Pow2;
    TopBit();
    ShrSmall(a / 2, 31);
    ShrSmall(b / 2, 31);
    XorLow(POLY, a / 2, 31);
    XorLow(POLY, b / 2, 31);
    if a % 2 == 1 && b % 2 == 1 {
      XorCommutes(POLY, a / 2);
      XorCommutes(POLY, b / 2);
      XorCancels(a / 2, b / 2, POLY);
    }
  }

  lemma {:induction false} BitStepsInjective(a: u32, b: u32, n: nat)
    requires BitSteps(a, n) == BitSteps(b, n)
    ensures a == b
  {
    hide BitStep;
    if n > 0 {
      BitStepsBound(a, n - 1);
      BitStepsBound(b, n - 1);
      BitStepInjective(BitSteps(a, n - 1), BitSteps(b, n - 1));
      BitStepsInjective(a, b, n - 1);
    }
  }

  /** Registers that differ stay different over the same bytes. */
  lemma {:induction false} RegistersDiffer(c: u32, d: u32, data: bytes)
    requires c != d
    ensures Register(c, data) != Register(d, data)
  {
    hide Xor, BitSteps;
    if data != [] {
      var rest, b := data[..|data| - 1], data[|data| - 1];
      RegistersDiffer(c, d, rest);
      RegisterBound(c, rest);
      RegisterBound(d, rest);
      XorU32(Register(c, rest), b);
      XorU32(Register(d, rest), b);
      if Xor(Register(c, rest), b) == Xor(Register(d, rest), b) {
        XorCancels(Register(c, rest), Register(d, rest), b);
      }
      if ByteSteps(Xor(Register(c, rest), b)) == ByteSteps(Xor(Register(d, rest), b)) {
        BitStepsInjective(Xor(Register(c, rest), b), Xor(Register(d, rest), b), 8);
      }
    }
  }

  lemma OneByteRegister(c: u32, before: bytes, x: u8, y: u8, after: bytes)
    requires x != y
    ensures Register(c, before + [x] + after) != Register(c, before + [y] + after)
  {
    hide Xor, BitSteps, Register;
    var r := Register(c, before);
    RegisterBound(c, before);
    RegisterSnoc(c, before, x);
    RegisterSnoc(c, before, y);
    XorU32(r, x);
    XorU32(r, y);
    if Xor(r, x) == Xor(r, y) {
      XorCommutes(r, x);
      XorCommutes(r, y);
      XorCancels(x, y, r);
    }
    if ByteSteps(Xor(r, x)) == ByteSteps(Xor(r, y)) {
      BitStepsInjective(Xor(r, x), Xor(r, y), 8);
    }
    RegisterBound(c, before + [x]);
    RegisterBound(c, before + [y]);
    RegistersDiffer(Register(c, before + [x]), Register(c, before + [y]), after);
    RegisterConcat(c, before + [x], after);
    RegisterConcat(c, before + [y], after);
  }

  lemma RegisterSnoc(c: nat, before: bytes, x: u8)
    ensures Register(c, before + [x]) == ByteSteps(Xor(Register(c, before), x))
  {
    hide Xor, BitSteps;
    assert (before + [x])[..|before|] == before;
  }

  /** Two byte strings that differ in exactly one byte have different checksums. */
  lemma OneByteCounts(data: bytes, k: nat, v: u8)
    requires k < |data| && v != data[k]
    ensures Crc32(data[k := v]) != Crc32(data)
  {
    hide Register;
    assert data == data[..k] + [data[k]] + data[k + 1..];
    assert data[k := v] == data[..k] + [v] + data[k + 1..];
    OneByteRegister(Complement(0), data[..k], data[k], v, data[k + 1..]);
    RegisterBound(Complement(0), data);
    RegisterBound(Complement(0), data[k := v]);
  }

  // ----- what a strict reader and the validator refuse

  ghost predicate TableTag(tag: u32) {
    tag in [TAG_SNAM, TAG_ROUT, TAG_INST, TAG_CLBR, TAG_WIND, TAG_WAVE, TAG_MARK, TAG_LINK, TAG_NOTE]
  }

  ghost predicate TableWord(word: string) {
    word in ["SNAM", "ROUT", "INST", "CLBR", "WIND", "WAVE", "MARK", "LINK", "NOTE"]
  }

  /** The bytes that the directory entry at position `k` leads to are there, and their checksum is the stored one unless
      that is zero. */
  ghost predicate Intact(data: bytes, k: nat) {
    && k + 24 <= |data| && Num8(data, k + 8) + Num4(data, k + 16) <= |data|
    && (Num4(data, k + 20) == 0
        || Crc32(data[Num8(data, k + 8)..Num8(data, k + 8) + Num4(data, k + 16)]) == Num4(data, k + 20))
  }

  /** A strict parse succeeds only when the first entry of each of the nine table words is intact. */
  lemma StrictParseIntact(data: bytes, word: string, i: nat)
    requires ParseImage(data, true).Some? && |data| >= 64 && TableWord(word)
    requires FirstAt(data, Num4(data, 28), Num4(data, 24), word, i)
    ensures Intact(data, Num4(data, 28) + 24 * i)
  {
    hide ParseImage, Num4, Num8, FirstAt, LoadOk, Crc32, NameTable, RouteTable, InstTable, CalibTable, WindowTable,
         WaveTable, MarkerTable, LinkTable, NoteTable;
    var q := ParseImage(data, true).value;
    ImageReadExactly(data, true, q);
  }

  /** The same for the tables of a loaded image, which is what a parser's run is decided by: with an entry that is first
      of its tag, has a checksum, and whose bytes are not there or have another one, a strict run fails. */
  lemma StrictRunRefuses(data: bytes, h: FileHeader, es: seq<DirEntry>, i: nat)
    requires i < |es| && forall j | 0 <= j < i :: es[j].tag != es[i].tag
    requires TableTag(es[i].tag)
    requires var e := es[i];
             e.crc != 0 && (e.offset + e.length <= |data| ==> Crc32(data[e.offset..e.offset + e.length]) != e.crc)
    ensures ParseTables(data, h, es, true).None?
  {
    hide Crc32, DecodeTable, ParseSumm;
    FindEntryAt(es, es[i].tag, i);
    assert Locate(data, es, es[i].tag, true) == Bad;
    hide Locate;
    ParsesNone(data, h, es, true);
  }

  /** A strict run, as it is: no entry that is first of its tag may have a checksum that is not that of its bytes. */
  method RunStrict(parser: StepParser) returns (st: Status)
    requires parser.Valid() && parser.strict && parser.result == EMPTY_PARSED
    modifies parser
    ensures parser.Valid()
    ensures st.Ok? ==> forall i: nat | FirstOfTable(parser.reader.Entries(), i) ::
                         var data, e := parser.reader.backing, parser.reader.Entries()[i];
                         e.crc == 0 || (e.offset + e.length <= |data|
                                        && Crc32(data[e.offset..e.offset + e.length]) == e.crc)
  {
    hide Crc32, ParseTables, FirstOfTable, StopsAt;
    ghost var data, h, es := parser.reader.backing, parser.reader.header, parser.reader.Entries();
    st := parser.Run();
    forall i: nat | FirstOfTable(es, i)
      ensures i < |es|
      ensures var e := es[i];
              e.crc == 0 || (e.offset + e.length <= |data| && Crc32(data[e.offset..e.offset + e.length]) == e.crc)
              || ParseTables(data, h, es, true).None?
    {
      EntryRefuses(data, h, es, i);
    }
  }

  /** Entry `i` is the first with its tag, and that is one of the nine of tables. */
  ghost predicate FirstOfTable(es: seq<DirEntry>, i: nat) {
    && i < |es| && (forall j | 0 <= j < i :: es[j].tag != es[i].tag)
    && TableTag(es[i].tag)
  }

  lemma EntryRefuses(data: bytes, h: FileHeader, es: seq<DirEntry>, i: nat)
    requires FirstOfTable(es, i)
    ensures i < |es|
    ensures var e := es[i];
            e.crc == 0 || (e.offset + e.length <= |data| && Crc32(data[e.offset..e.offset + e.length]) == e.crc)
            || ParseTables(data, h, es, true).None?
  {
    hide Crc32, ParseTables;
    var e := es[i];
    if e.crc != 0 && (e.offset + e.length <= |data| ==> Crc32(data[e.offset..e.offset + e.length]) != e.crc) {
      StrictRunRefuses(data, h, es, i);
    }
  }

  /** ... and so does a validation that checks checksums, wherever the entry stands. */
  lemma ValidationRefuses(data: bytes, h: FileHeader, es: seq<DirEntry>, p: Parsed, o: ValidateOptions, i: nat)
    requires i < |es| && o.checkCrc
    requires var e := es[i];
             e.crc != 0 && (e.offset + e.length <= |data| ==> Crc32(data[e.offset..e.offset + e.length]) != e.crc)
    ensures !Passes(data, h, es, p, o)
  {
    hide Crc32, TablesPass;
    assert !CrcVerifies(data, es[i]);
  }

  // ----- a damaged image

  lemma SameReads(data: bytes, other: bytes, n: nat, k: nat)
    requires n <= |data| && n <= |other| && data[..n] == other[..n]
    ensures k + 2 <= n ==> U16At(data, k) == U16At(other, k)
    ensures k + 4 <= n ==> U32At(data, k) == U32At(other, k)
    ensures k + 8 <= n ==> U64At(data, k) == U64At(other, k)
  {
    forall j | 0 <= j < n ensures data[j] == other[j] {
      assert data[..n][j] == other[..n][j];
    }
  }

  /** Loading looks at the header and the directory only. */
  lemma SameFront(data: bytes, other: bytes, n: nat)
    requires 64 <= n <= |data| == |other| && data[..n] == other[..n]
    requires U32At(data, 28) + ENTRY_SIZE * U32At(data, 24) <= n
    ensures LoadDir(other) == LoadDir(data)
  {
    hide U16At, U32At, U64At, Crc32, WriteHeader;
    SameReads(data, other, n, 0);
    SameHeader(data, other, n);
    if ParseFileHeader(data).Some? {
      var h := ParseFileHeader(data).value;
      forall i | 0 <= i < h.sectionCount
        ensures EntryAt(data, h.dirOffset + ENTRY_SIZE * i) == EntryAt(other, h.dirOffset + ENTRY_SIZE * i)
      {
        SameEntry(data, other, n, h.dirOffset + ENTRY_SIZE * i);
      }
      assert EntriesAt(data, h) == EntriesAt(other, h);
    }
  }

  lemma SameHeader(data: bytes, other: bytes, n: nat)
    requires 64 <= n <= |data| == |other| && data[..n] == other[..n]
    ensures HeaderAt(data) == HeaderAt(other)
  {
    hide U16At, U32At, U64At;
    SameReads(data, other, n, 4);
    SameReads(data, other, n, 6);
    SameReads(data, other, n, 8);
    SameReads(data, other, n, 12);
    SameReads(data, other, n, 16);
    SameReads(data, other, n, 24);
    SameReads(data, other, n, 28);
    SameReads(data, other, n, 32);
    SameReads(data, other, n, 40);
    SameReads(data, other, n, 44);
    SameReads(data, other, n, 48);
  }

  lemma SameEntry(data: bytes, other: bytes, n: nat, k: nat)
    requires k + 24 <= n <= |data| == |other| && data[..n] == other[..n]
    ensures EntryAt(data, k) == EntryAt(other, k)
  {
    hide U32At, U64At;
    SameReads(data, other, n, k);
    SameReads(data, other, n, k + 4);
    SameReads(data, other, n, k + 8);
    SameReads(data, other, n, k + 16);
    SameReads(data, other, n, k + 20);
  }

  /** A changed byte is in the bytes that the section's entry leads to, and their checksum is no longer the stored
      one. */
  lemma DamagedBody(stamp: Stamp, secs: seq<Section>, i: nat, k: nat, v: u8)
    requires Addressable(secs) && i < |secs| && |secs[i].body| < TWO32
    requires k < |secs[i].body| && v != secs[i].body[k]
    ensures var img, e := ImageOf(stamp, secs), EntryFor(secs, i);
            && e.offset == OffsetOf(secs, i) && e.crc == Crc32(secs[i].body)
            && e.length == |secs[i].body| && e.offset + e.length <= |img|
            && BodiesStart(secs) <= e.offset && img[e.offset + k] == secs[i].body[k]
            && Crc32(img[e.offset + k := v][e.offset..e.offset + e.length]) != e.crc
  {
    hide ImageOf, Crc32, Bodies;
    BodyInImage(stamp, secs, i);
    EntryIs(secs, i);
    hide OffsetOf, Addressable, BodiesStart, EntryFor;
    SliceChanged(ImageOf(stamp, secs), OffsetOf(secs, i), secs[i].body, k, v);
    OneByteCounts(secs[i].body, k, v);
  }

  lemma EntryIs(secs: seq<Section>, i: nat)
    requires Addressable(secs) && i < |secs| && |secs[i].body| < TWO32
    ensures var e := EntryFor(secs, i);
            && e.offset == OffsetOf(secs, i) >= BodiesStart(secs)
            && e.length == |secs[i].body| && e.crc == Crc32(secs[i].body)
  {
    hide Crc32;
  }

  lemma SliceChanged(data: bytes, off: nat, body: bytes, k: nat, v: u8)
    requires off + |body| <= |data| && data[off..off + |body|] == body && k < |body|
    ensures data[off + k] == body[k] && data[off + k := v][off..off + |body|] == body[k := v]
  {
    assert data[off + k] == data[off..off + |body|][k];
  }

  /** Every change of one byte in a section body of a written image, if the body's checksum is not zero: the image still
      loads with the same directory, but a strict parse refuses it when the section is one of the nine tables, and a
      validation of the checksums refuses it in any case. */
  lemma DamageRefused(stamp: Stamp, secs: seq<Section>, i: nat, k: nat, v: u8)
    requires Addressable(secs) && DistinctTags(secs) && i < |secs| && |secs[i].body| < TWO32
    requires k < |secs[i].body| && v != secs[i].body[k] && Crc32(secs[i].body) != 0
    ensures var img, pos := ImageOf(stamp, secs), OffsetOf(secs, i) + k;
            pos < |img| && img[pos] == secs[i].body[k] && LoadDir(img[pos := v]) == LoadDir(img)
    ensures var damaged := ImageOf(stamp, secs)[OffsetOf(secs, i) + k := v];
            && (TableTag(secs[i].tag) ==> ParseImage(damaged, true).None?)
            && forall p, o: ValidateOptions | o.checkCrc ::
                 !Passes(damaged, HeaderFor(stamp, secs), Directory(secs), p, o)
  {
    hide ImageOf, Crc32, ParseTables, WriteHeader, Passes, LoadDir, Bodies, EntryFor, OffsetOf;
    var img, pos := ImageOf(stamp, secs), OffsetOf(secs, i) + k;
    DamagedBody(stamp, secs, i, k, v);
    DamagedFront(stamp, secs, pos, v);
    AssembledLoads(stamp, secs);
    if TableTag(secs[i].tag) {
      EntryTags(secs);
      StrictRunRefuses(img[pos := v], HeaderFor(stamp, secs), Directory(secs), i);
    }
    var damaged := img[pos := v];
    forall p, o: ValidateOptions | o.checkCrc ensures !Passes(damaged, HeaderFor(stamp, secs), Directory(secs), p, o) {
      ValidationRefuses(damaged, HeaderFor(stamp, secs), Directory(secs), p, o, i);
    }
  }

  lemma EntryTags(secs: seq<Section>)
    requires Addressable(secs)
    ensures forall i | 0 <= i < |secs| :: EntryFor(secs, i).tag == secs[i].tag
  {
  }

  lemma DamagedFront(stamp: Stamp, secs: seq<Section>, pos: nat, v: u8)
    requires Addressable(secs) && BodiesStart(secs) <= pos < |ImageOf(stamp, secs)|
    ensures LoadDir(ImageOf(stamp, secs)[pos := v]) == LoadDir(ImageOf(stamp, secs))
  {
    hide ImageOf, Crc32, WriteHeader, HeaderAt, U32At, Bodies;
    var img, n := ImageOf(stamp, secs), BodiesStart(secs);
    ImageParts(stamp, secs);
    HeaderReadBack(HeaderFor(stamp, secs), img);
    assert WriteHeader(HeaderFor(stamp, secs)) <= img;
    assert img[..n] == img[pos := v][..n];
    HeaderPlace(img);
    SameFront(img, img[pos := v], n);
  }

  lemma HeaderPlace(data: bytes)
    requires |data| >= 64
    ensures HeaderAt(data).sectionCount == U32At(data, 24) && HeaderAt(data).dirOffset == U32At(data, 28)
  {
    hide U16At, U32At, U64At;
  }

  /** The same for the header: a change of one byte that its checksum covers, if that is not zero, and the image does
      not load. */
  lemma HeaderDamageRefused(data: bytes, k: nat, v: u8)
    requires LoadDir(data).Some? && Num4(data, 12) != 0
    requires (k < 12 || 16 <= k < 56) && v != data[k]
    ensures ParseFileHeader(data[k := v]).None? && LoadDir(data[k := v]).None?
  {
    hide Crc32, Num4, Num8, Num2, ParseFileHeader, Chars;
    LoadExactly(data);
    var other := data[k := v];
    assert Checksummed(other) == Checksummed(data)[k := v];
    OneByteCounts(Checksummed(data), k, v);
    SameNums(data, other, 12, 4);
    if ParseFileHeader(other).Some? {
      HeaderReadExactly(other, ParseFileHeader(other).value);
    }
  }
}
