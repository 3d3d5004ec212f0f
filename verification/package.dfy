/** The life of a package: open, reset, repair and migrate (src/rayvault.c, src/internal/rv_legacy.c). */
module Packages {
  import opened Types
  import opened TableFormat
  import opened Records
  import opened Image
  import opened Reader
  import opened Parser
  import opened RoundTrip
  import opened Export
  import opened Normalize
  import opened Repair
  import opened Readable
  import opened Validate
  import Dict

  const MIGRATED_BIT: u32 := 0x100

  /** `feature_bits | 0x100` */
  function WithMigratedBit(bits: u32): (r: u32)
    ensures r % 0x100 == bits % 0x100 && r / 0x200 == bits / 0x200 && r / 0x100 % 2 == 1
  {
    if bits / MIGRATED_BIT % 2 == 1 then bits else bits + MIGRATED_BIT
  }

  predicate Migratable(p: Parsed) {
    Countable(p) && Writable(p, TableCounts(p), true)
  }

  /** The image a migration writes: all samples, no derived counts. */
  function MigratedImage(p: Parsed): bytes
    requires Migratable(p)
  {
    ExportImage(p, TableCounts(p), true)
  }

  /** What remains of the tables after a migration and a reset: everything but the notes, which an export does not
      carry, and the old summary, which is replaced by the table counts. */
  function Migrated(p: Parsed): Parsed
    requires Countable(p)
  {
    p.(notes := [], summ := SummOf(TableCounts(p)), hasSumm := true)
  }

  class Package {
    const reader: PackageReader
    const hash: Dict.Hash
    const strict: bool
    /** The legacy bit of the reader's open flags. */
    var allowLegacy: bool
    var tables: Parsed
    var legacy: bool
    var isOpen: bool
    /** The samples in the tables can be read.  They are views of the image that was parsed, and a migration releases
        that image: until the next parse the tables then hold what the views showed, but nothing may read it. */
    ghost var viewsCurrent: bool

    ghost predicate Valid()
      reads this, reader, reader.dir
    {
      && reader.Valid()
      && (isOpen ==> LoadDir(reader.backing) == Some((reader.header, reader.Entries())))
      && (isOpen ==> Rewritable(tables))
    }

    constructor (data: bytes, hash: Dict.Hash, strict: bool, allowLegacy: bool)
      ensures Valid() && fresh(reader) && fresh(reader.dir) && !isOpen
      ensures reader.backing == data && this.strict == strict && this.allowLegacy == allowLegacy
    {
      reader := new PackageReader(data);
      this.hash, this.strict, this.allowLegacy := hash, strict, allowLegacy;
      tables, legacy, isOpen, viewsCurrent := EMPTY_PARSED, false, false, false;
    }

    /** `rv_package_finish_open`: parse and normalise.  A parse that fails leaves the tables of the sections before the
        failing one. */
    method FinishOpen() returns (st: Status)
      requires reader.Valid() && LoadDir(reader.backing) == Some((reader.header, reader.Entries()))
      modifies this`tables, this`legacy, this`isOpen, this`viewsCurrent
      ensures Valid() && viewsCurrent && (isOpen <==> old(isOpen) || st.Ok?)
      ensures var q := ParseImage(reader.backing, strict);
              (st.Ok? <==> q.Some?) && (st.Ok? ==> tables == Normalized(q.value) && Settled(tables))
      ensures st.Failed? ==> exists k: nat ::
                StopsAt(reader.backing, reader.header, reader.Entries(), strict, k, tables)
      ensures legacy == if st.Ok? then reader.header.verMajor == 1 else old(legacy)
    {
      hide LoadDir, ParseTables, Normalized, Rewritable, StepTables, AfterSteps;
      var parser := new StepParser(reader, hash, strict);
      st := parser.Run();
      tables, viewsCurrent := parser.result, true;
      if st.Failed? {
        ghost var k: nat :| StopsAt(reader.backing, reader.header, reader.Entries(), strict, k, tables);
        PartlyParsedRewritable(reader.backing, reader.header, reader.Entries(), strict, k);
        return;
      }
      ParsedIsRewritable(reader.backing, reader.header, reader.Entries(), strict);
      NormalizedRewritable(tables);
      NormalizeIdempotent(tables);
      tables := NormalizeParsed(tables);
      legacy := reader.header.verMajor == 1;
      isOpen := true;
    }

    /** `rv_package_open_memory`: it succeeds exactly when the image parses, and holds the normalised tables. */
    method Open() returns (st: Status)
      requires Valid() && !isOpen
      modifies this`tables, this`legacy, this`isOpen, this`viewsCurrent, reader`header, reader`dirCount, reader.dir
      ensures Valid() && (isOpen <==> st.Ok?) && (isOpen ==> viewsCurrent)
      ensures var q := ParseImage(reader.backing, strict);
              (st.Ok? <==> q.Some?) && (st.Ok? ==> tables == Normalized(q.value) && Settled(tables))
    {
      hide LoadDir, ParseTables, Normalized, Rewritable;
      if |reader.backing| < HEADER_SIZE {
        TooShort(reader.backing);
        return Failed;
      }
      st := reader.LoadDirectory();
      if st.Failed? {
        return;
      }
      st := FinishOpen();
    }

    /** `rv_package_reset`: parses the current image again.  When that fails the package stays open, with the tables of
        the sections before the failing one. */
    method Reset() returns (st: Status)
      requires Valid()
      modifies this`tables, this`legacy, this`isOpen, this`viewsCurrent
      ensures Valid() && isOpen == old(isOpen) && (if isOpen then viewsCurrent else viewsCurrent == old(viewsCurrent))
      ensures var q := ParseImage(reader.backing, strict);
              (st.Ok? <==> isOpen && q.Some?) && (st.Ok? ==> tables == Normalized(q.value) && Settled(tables))
      ensures st.Failed? ==>
                if isOpen then
                  exists k: nat :: StopsAt(reader.backing, reader.header, reader.Entries(), strict, k, tables)
                else tables == old(tables)
    {
      hide LoadDir, ParseTables, Normalized, Rewritable, Settled, StopsAt;
      if !isOpen {
        return Failed;
      }
      st := FinishOpen();
    }

    /** `rv_package_repair` with the default options, on any open package */
    method RepairInPlace() returns (st: Status)
      requires Valid() && |reader.backing| < TWO64
      modifies this`tables
      ensures Valid() && (st.Ok? <==> isOpen)
      ensures st.Failed? ==> tables == old(tables)
      ensures st.Ok? ==>
                && Countable(old(tables))
                && tables == Repaired(old(tables), RepairOptions(true, true, true), |reader.backing|)
                && (Settled(old(tables)) ==> Settled(tables))
    {
      hide LoadDir, Rewritable, Repaired, Settled;
      if !isOpen {
        return Failed;
      }
      ghost var before := tables;
      RewritableCounts(tables);
      RepairedRewritable(tables, RepairOptions(true, true, true), |reader.backing|);
      tables := RepairPackage(tables, RepairOptions(true, true, true), |reader.backing|);
      if Settled(before) {
        RepairedSettled(before, RepairOptions(true, true, true), |reader.backing|);
      }
      return Ok;
    }

    /** `rv_package_migrate_legacy`: the backing image becomes a current one; the tables stay, with a feature bit set
        that the image does not have.  It is refused unless the package is open and an old one or legacy packages are
        allowed; nothing else can fail.  It reads the samples, so it may not follow another migration without a reset,
        and it leaves views of an image that is gone. */
    method MigrateLegacy() returns (st: Status)
      requires Valid() && (isOpen ==> viewsCurrent)
      modifies this`allowLegacy, this`tables, this`legacy, this`viewsCurrent, reader, reader.dir
      ensures Valid() && isOpen == old(isOpen) && viewsCurrent == (st.Failed? && old(viewsCurrent))
      ensures st.Ok? <==> isOpen && (old(reader.header.verMajor) == 1 || old(allowLegacy))
      ensures st.Failed? ==> tables == old(tables) && reader.backing == old(reader.backing) && legacy == old(legacy)
                             && allowLegacy == old(allowLegacy)
      ensures st.Ok? ==> Migratable(old(tables)) && reader.backing == MigratedImage(old(tables))
      ensures st.Ok? ==> allowLegacy && !legacy
      ensures st.Ok? ==> tables == old(tables).(featureBits := WithMigratedBit(old(tables).featureBits))
    {
      hide LoadDir, ReloadDir, Rewritable, Writable, ExportImage;
      if !isOpen {
        return Failed;
      }
      ghost var before := tables;
      RewritableCounts(tables);
      ImageFits(tables);
      BitsStayRewritable(tables);
      if reader.header.verMajor != 1 && !allowLegacy {
        return Failed;
      }
      var exported;
      st, exported := ExportBuild(tables, None, true, false);
      if st.Failed? {
        assert false;
      }
      reader.backing := exported.data[..exported.size];
      allowLegacy := true;
      MigratedLoads(before);
      st := reader.ReloadDirectory();
      if st.Failed? {
        assert false;
      }
      tables := tables.(featureBits := WithMigratedBit(tables.featureBits));
      reader.header := reader.header.(verMajor := 2, verMinor := 3);
      legacy, viewsCurrent := false, false;
    }
  }

  lemma TooShort(data: bytes)
    requires |data| < HEADER_SIZE
    ensures LoadDir(data).None?
  {
  }

  /** The feature bits play no part in storing tables. */
  lemma BitsStayRewritable(p: Parsed)
    requires Rewritable(p)
    ensures Rewritable(p.(featureBits := WithMigratedBit(p.featureBits)))
  {
    hide Storable, StoredWaves;
  }

  /** A migrated image loads, with and without the range and version checks, and its header says version 2.3. */
  lemma MigratedLoads(p: Parsed)
    requires Migratable(p)
    ensures var img := MigratedImage(p);
            && ReloadDir(img).Some? && LoadDir(img) == ReloadDir(img)
            && ReloadDir(img).value.0.verMajor == 2 && ReloadDir(img).value.0.verMinor == 3
  {
    hide ImageOf, ReloadDir, LoadDir, Directory, ExportSections, HeaderCrc, Addressable;
    AssembledLoads(ExportStamp(p), ExportSections(p, TableCounts(p), true));
  }

  /** Migrate, then reset, while the samples can be read: the tables are what they were, but for the notes and the
      summary, and normalised.  It works exactly for an open package that may be migrated, and never in the strict mode,
      because an export has no NOTE section. */
  method MigrateThenReset(pkg: Package) returns (st: Status)
    requires pkg.Valid() && (pkg.isOpen ==> pkg.viewsCurrent)
    modifies pkg, pkg.reader, pkg.reader.dir
    ensures pkg.Valid() && (pkg.isOpen ==> pkg.viewsCurrent)
    ensures st.Ok? <==> !pkg.strict && old(pkg.isOpen) && (old(pkg.reader.header.verMajor) == 1 || old(pkg.allowLegacy))
    ensures st.Ok? ==> Countable(old(pkg.tables)) && pkg.tables == Normalized(Migrated(old(pkg.tables)))
    ensures st.Ok? && Settled(old(pkg.tables)) ==> pkg.tables == Migrated(old(pkg.tables))
  {
    hide LoadDir, ParseImage, Normalized, Rewritable, ExportImage, Writable, StopsAt;
    ghost var before := pkg.tables;
    st := pkg.MigrateLegacy();
    if st.Failed? {
      return;
    }
    MigratedReadsBack(before, pkg.strict);
    if Settled(before) {
      MigratedNormal(before);
    }
    st := pkg.Reset();
  }

  /** The round trip behind it. */
  lemma MigratedReadsBack(p: Parsed, strict: bool)
    requires Rewritable(p) && Migratable(p)
    ensures ParseImage(MigratedImage(p), strict) == if strict then None else Some(Migrated(p))
  {
    hide ExportImage, ParseImage, StoredWaves, Storable, Writable;
    ExportRoundTrip(p, TableCounts(p), true, strict);
  }

  /** Normal tables stay normal. */
  lemma MigratedNormal(p: Parsed)
    requires Normalized(p) == p && Countable(p)
    ensures Normalized(Migrated(p)) == Migrated(p)
  {
    hide SortedById, ClampAll, FillAll;
  }

  // ----- validation

  /** Every assembled image is consistent with its header, and all its checksums verify. */
  lemma AssembledVerifies(stamp: Stamp, secs: seq<Section>)
    requires Addressable(secs) && forall i | 0 <= i < |secs| :: |secs[i].body| < TWO32
    ensures var img, h, es := ImageOf(stamp, secs), HeaderFor(stamp, secs), Directory(secs);
            HeaderConsistent(h, |img|, |es|) && CrcsVerify(img, es)
  {
    hide ImageOf, HeaderCrc, Bodies, CrcVerifies;
    ImageParts(stamp, secs);
    forall i | 0 <= i < |secs| ensures CrcVerifies(ImageOf(stamp, secs), Directory(secs)[i]) {
      LayoutVerifies(stamp, secs, i);
    }
  }

  /** Validate, export, reopen, validate: a package whose tables pass the validator's checks is exported to an image
      that passes all of them, checksums and summary counts included. */
  lemma ExportValidates(p: Parsed)
    requires Rewritable(p) && Migratable(p)
    requires TablesPass(p, ALL_CHECKS.(checkSumm := false))
    ensures var img := MigratedImage(p);
            LoadDir(img).Some?
            && var (h, es) := LoadDir(img).value;
               ParseTables(img, h, es, false) == Some(Migrated(p)) && Passes(img, h, es, Migrated(p), ALL_CHECKS)
  {
    hide ImageOf, ReloadDir, LoadDir, Directory, ExportSections, HeaderCrc, Addressable, Normalized, ParseTables,
         HeaderConsistent, CrcsVerify, StoredWaves, Storable;
    var secs := ExportSections(p, TableCounts(p), true);
    AssembledLoads(ExportStamp(p), secs);
    ExportBodies(p);
    AssembledVerifies(ExportStamp(p), secs);
    MigratedReadsBack(p, false);
    MigratedPasses(p);
  }

  lemma MigratedPasses(p: Parsed)
    requires Countable(p) && TablesPass(p, ALL_CHECKS.(checkSumm := false))
    ensures TablesPass(Migrated(p), ALL_CHECKS)
  {
    assert SummCountsOk(Migrated(p));
    hide SummCountsOk;
  }

  lemma ExportBodies(p: Parsed)
    requires Rewritable(p)
    ensures var secs := ExportSections(p, TableCounts(p), true);
            forall i | 0 <= i < |secs| :: |secs[i].body| < TWO32
  {
    hide EncodeTable, StoredWaves, AllOk;
    SummInverse([], SummOf(TableCounts(p)));
  }

  /** An exported summary agrees with the exported tables, except for a compact export that leaves samples out. */
  lemma ExportedCounts(p: Parsed, withSamples: bool)
    requires Countable(p)
    ensures SummCountsOk(Exported(p, TableCounts(p), withSamples)) <==> withSamples || p.waves == []
  {
  }
}
