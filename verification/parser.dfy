/** The phased parser (src/internal/rv_parser.c): a step machine over the sections of a loaded image. */
module Parser {
  import opened Types
  import opened TableFormat
  import opened Records
  import opened Sections
  import opened Image
  import opened Reader
  import Dict

  const TAG_SNAM: u32 := 0x4D41_4E53
  const TAG_ROUT: u32 := 0x5455_4F52
  const TAG_INST: u32 := 0x5453_4E49
  const TAG_CLBR: u32 := 0x5242_4C43
  const TAG_WIND: u32 := 0x444E_4957
  const TAG_WAVE: u32 := 0x4556_4157
  const TAG_MARK: u32 := 0x4B52_414D
  const TAG_LINK: u32 := 0x4B4E_494C
  const TAG_NOTE: u32 := 0x4554_4F4E
  const TAG_SUMM: u32 := 0x4D4D_5553

  /** What the parser finds for a tag: nothing (its table stays empty), an error, or a payload to decode. */
  datatype Located = Missing | Bad | At(payload: bytes)

  function Locate(data: bytes, es: seq<DirEntry>, tag: u32, strict: bool): Located {
    match FindEntry(es, tag)
    case None => if strict then Bad else Missing
    case Some(e) =>
      if strict && !CrcVerifies(data, e) then Bad
      else match SectionSlice(data, e) case None => Bad case Some(p) => At(p)
  }

  function ParseTable<T>(f: Format<T>, data: bytes, es: seq<DirEntry>, tag: u32, strict: bool): Option<seq<T>> {
    match Locate(data, es, tag, strict)
    case Missing => Some([])
    case Bad => None
    case At(p) => DecodeTable(f, p)
  }

  /** SUMM is always optional and its checksum is never verified. */
  function ParseSumm(data: bytes, es: seq<DirEntry>): Option<Option<Summ>> {
    match FindEntry(es, TAG_SUMM)
    case None => Some(None)
    case Some(e) =>
      var p :- SectionSlice(data, e);
      var s :- DecodeSumm(p);
      Some(Some(s))
  }

  /** All tables of a loaded image, or no result when any section is in error. */
  function ParseTables(data: bytes, h: FileHeader, es: seq<DirEntry>, strict: bool): Option<Parsed> {
    var names :- ParseTable(NAME_FORMAT, data, es, TAG_SNAM, strict);
    var routes :- ParseTable(ROUTE_FORMAT, data, es, TAG_ROUT, strict);
    var insts :- ParseTable(INST_FORMAT, data, es, TAG_INST, strict);
    var calibs :- ParseTable(CALIB_FORMAT, data, es, TAG_CLBR, strict);
    var windows :- ParseTable(WINDOW_FORMAT, data, es, TAG_WIND, strict);
    var waves :- ParseTable(WAVE_FORMAT, data, es, TAG_WAVE, strict);
    var markers :- ParseTable(MARKER_FORMAT, data, es, TAG_MARK, strict);
    var links :- ParseTable(LINK_FORMAT, data, es, TAG_LINK, strict);
    var notes :- ParseTable(NOTE_FORMAT, data, es, TAG_NOTE, strict);
    var summ :- ParseSumm(data, es);
    Some(Parsed(names, routes, insts, calibs, windows, waves, markers, links, notes,
                if summ.Some? then summ.value else EMPTY_SUMM, summ.Some?, h.featureBits))
  }

  lemma ParsesAll(data: bytes, h: FileHeader, es: seq<DirEntry>, strict: bool, q: Parsed)
    requires ParseTable(NAME_FORMAT, data, es, TAG_SNAM, strict) == Some(q.names)
    requires ParseTable(ROUTE_FORMAT, data, es, TAG_ROUT, strict) == Some(q.routes)
    requires ParseTable(INST_FORMAT, data, es, TAG_INST, strict) == Some(q.insts)
    requires ParseTable(CALIB_FORMAT, data, es, TAG_CLBR, strict) == Some(q.calibs)
    requires ParseTable(WINDOW_FORMAT, data, es, TAG_WIND, strict) == Some(q.windows)
    requires var t := ParseTable(WAVE_FORMAT, data, es, TAG_WAVE, strict); t.Some? && t.value == q.waves
    requires ParseTable(MARKER_FORMAT, data, es, TAG_MARK, strict) == Some(q.markers)
    requires ParseTable(LINK_FORMAT, data, es, TAG_LINK, strict) == Some(q.links)
    requires ParseTable(NOTE_FORMAT, data, es, TAG_NOTE, strict) == Some(q.notes)
    requires ParseSumm(data, es) == Some(if q.hasSumm then Some(q.summ) else None)
    requires (!q.hasSumm ==> q.summ == EMPTY_SUMM) && q.featureBits == h.featureBits
    ensures ParseTables(data, h, es, strict) == Some(q)
  {
    hide ParseTable, ParseSumm;
  }

  lemma ParsesNone(data: bytes, h: FileHeader, es: seq<DirEntry>, strict: bool)
    requires || ParseTable(NAME_FORMAT, data, es, TAG_SNAM, strict).None?
             || ParseTable(ROUTE_FORMAT, data, es, TAG_ROUT, strict).None?
             || ParseTable(INST_FORMAT, data, es, TAG_INST, strict).None?
             || ParseTable(CALIB_FORMAT, data, es, TAG_CLBR, strict).None?
             || ParseTable(WINDOW_FORMAT, data, es, TAG_WIND, strict).None?
             || ParseTable(WAVE_FORMAT, data, es, TAG_WAVE, strict).None?
             || ParseTable(MARKER_FORMAT, data, es, TAG_MARK, strict).None?
             || ParseTable(LINK_FORMAT, data, es, TAG_LINK, strict).None?
             || ParseTable(NOTE_FORMAT, data, es, TAG_NOTE, strict).None?
    ensures ParseTables(data, h, es, strict).None?
  {
    hide ParseTable, ParseSumm;
  }

  /** Opening an image: load the directory, then parse. */
  function ParseImage(data: bytes, strict: bool): Option<Parsed> {
    var (h, es) :- LoadDir(data);
    ParseTables(data, h, es, strict)
  }

  // ----- the step machine

  datatype Phase = Init | InHeader | InDir | InSnam | InRout | InInst | InClbr | InWind | InWave | InMark | InLink
                 | InNote | InSumm | Done | Error

  datatype StepResult = Failure | More | Finished

  /** The phase that step `k` reaches. */
  function PhaseAfter(k: nat): Phase
    requires k <= 12
  {
    [InHeader, InDir, InSnam, InRout, InInst, InClbr, InWind, InWave, InMark, InLink, InNote, InSumm, Done][k]
  }

  /** What step `k` adds to the tables. */
  function StepTables(data: bytes, h: FileHeader, es: seq<DirEntry>, strict: bool, k: nat, p: Parsed): Option<Parsed> {
    match k
    case 0 => Some(p.(featureBits := h.featureBits))
    case 2 => var t :- ParseTable(NAME_FORMAT, data, es, TAG_SNAM, strict); Some(p.(names := t))
    case 3 => var t :- ParseTable(ROUTE_FORMAT, data, es, TAG_ROUT, strict); Some(p.(routes := t))
    case 4 => var t :- ParseTable(INST_FORMAT, data, es, TAG_INST, strict); Some(p.(insts := t))
    case 5 => var t :- ParseTable(CALIB_FORMAT, data, es, TAG_CLBR, strict); Some(p.(calibs := t))
    case 6 => var t :- ParseTable(WINDOW_FORMAT, data, es, TAG_WIND, strict); Some(p.(windows := t))
    case 7 => var t :- ParseTable(WAVE_FORMAT, data, es, TAG_WAVE, strict); Some(p.(waves := t))
    case 8 => var t :- ParseTable(MARKER_FORMAT, data, es, TAG_MARK, strict); Some(p.(markers := t))
    case 9 => var t :- ParseTable(LINK_FORMAT, data, es, TAG_LINK, strict); Some(p.(links := t))
    case 10 => var t :- ParseTable(NOTE_FORMAT, data, es, TAG_NOTE, strict); Some(p.(notes := t))
    case 11 =>
      var s :- ParseSumm(data, es);
      Some(if s.Some? then p.(summ := s.value, hasSumm := true) else p)
    case _ => Some(p)
  }

  function AfterSteps(data: bytes, h: FileHeader, es: seq<DirEntry>, strict: bool, k: nat): Option<Parsed> {
    if k == 0 then Some(EMPTY_PARSED)
    else
      var p :- AfterSteps(data, h, es, strict, k - 1);
      StepTables(data, h, es, strict, k - 1, p)
  }

  lemma {:induction false} FailureStays(data: bytes, h: FileHeader, es: seq<DirEntry>, strict: bool, k: nat, n: nat)
    requires k <= n && AfterSteps(data, h, es, strict, k).None?
    ensures AfterSteps(data, h, es, strict, n).None?
  {
    if k < n {
      FailureStays(data, h, es, strict, k, n - 1);
    }
  }

  lemma NextStep(data: bytes, h: FileHeader, es: seq<DirEntry>, strict: bool, k: nat, p: Parsed)
    requires AfterSteps(data, h, es, strict, k) == Some(p)
    ensures AfterSteps(data, h, es, strict, k + 1) == StepTables(data, h, es, strict, k, p)
    ensures k < 12 && StepTables(data, h, es, strict, k, p).None? ==> AfterSteps(data, h, es, strict, 12).None?
  {
    if k < 12 && StepTables(data, h, es, strict, k, p).None? {
      FailureStays(data, h, es, strict, k + 1, 12);
    }
  }

  /** The twelve steps together parse the whole image. */
  lemma StepsParseAll(data: bytes, h: FileHeader, es: seq<DirEntry>, strict: bool)
    ensures AfterSteps(data, h, es, strict, 12) == ParseTables(data, h, es, strict)
  {
    hide ParseTable, ParseSumm;
    var p := EMPTY_PARSED;
    var k := 0;
    while k < 12
      invariant k <= 12 && AfterSteps(data, h, es, strict, k) == Some(p)
      invariant k >= 1 ==> p.featureBits == h.featureBits
      invariant k >= 3 ==> ParseTable(NAME_FORMAT, data, es, TAG_SNAM, strict) == Some(p.names)
      invariant k >= 4 ==> ParseTable(ROUTE_FORMAT, data, es, TAG_ROUT, strict) == Some(p.routes)
      invariant k >= 5 ==> ParseTable(INST_FORMAT, data, es, TAG_INST, strict) == Some(p.insts)
      invariant k >= 6 ==> ParseTable(CALIB_FORMAT, data, es, TAG_CLBR, strict) == Some(p.calibs)
      invariant k >= 7 ==> ParseTable(WINDOW_FORMAT, data, es, TAG_WIND, strict) == Some(p.windows)
      invariant k >= 8 ==> (var t := ParseTable(WAVE_FORMAT, data, es, TAG_WAVE, strict); t.Some? && t.value == p.waves)
      invariant k >= 9 ==> ParseTable(MARKER_FORMAT, data, es, TAG_MARK, strict) == Some(p.markers)
      invariant k >= 10 ==> ParseTable(LINK_FORMAT, data, es, TAG_LINK, strict) == Some(p.links)
      invariant k >= 11 ==> ParseTable(NOTE_FORMAT, data, es, TAG_NOTE, strict) == Some(p.notes)
      invariant k < 12 ==> p.summ == EMPTY_SUMM && !p.hasSumm
      invariant k == 12 ==> ParseSumm(data, es) == Some(if p.hasSumm then Some(p.summ) else None)
                            && (!p.hasSumm ==> p.summ == EMPTY_SUMM)
    {
      NextStep(data, h, es, strict, k, p);
      var q := StepTables(data, h, es, strict, k, p);
      if q.None? {
        return;
      }
      p := q.value;
      k := k + 1;
    }
  }

  /** One step of a run: an error decides the whole parse, and step 12 has all tables. */
  lemma RunStep(data: bytes, h: FileHeader, es: seq<DirEntry>, strict: bool, k: nat, p: Parsed)
    requires k <= 12 && AfterSteps(data, h, es, strict, k) == Some(p)
    ensures k == 12 ==> ParseTables(data, h, es, strict) == Some(p)
    ensures k < 12 && StepTables(data, h, es, strict, k, p).None? ==> ParseTables(data, h, es, strict).None?
    ensures AfterSteps(data, h, es, strict, k + 1) == StepTables(data, h, es, strict, k, p)
  {
    StepsParseAll(data, h, es, strict);
    NextStep(data, h, es, strict, k, p);
  }

  /** The run stops at step `k`, with the tables of the steps before it. */
  ghost predicate StopsAt(data: bytes, h: FileHeader, es: seq<DirEntry>, strict: bool, k: nat, p: Parsed) {
    k < 12 && AfterSteps(data, h, es, strict, k) == Some(p) && StepTables(data, h, es, strict, k, p).None?
  }

  class StepParser {
    const reader: PackageReader
    const hash: Dict.Hash
    const strict: bool
    var result: Parsed
    /** The hash table of the name dictionary. */
    var bucket: array<u32>
    var phase: Phase
    var stepIndex: nat

    /** The name dictionary, once decoded, is indexed. */
    ghost predicate Valid()
      reads this, reader, bucket
    {
      reader.Valid() && (result.names != [] ==> Dict.Indexed(hash, result.names, bucket[..]))
    }

    constructor (reader: PackageReader, hash: Dict.Hash, strict: bool)
      requires reader.Valid()
      ensures this.reader == reader && this.hash == hash && this.strict == strict
      ensures fresh(bucket) && Valid() && result == EMPTY_PARSED && stepIndex == 0
    {
      this.reader, this.hash, this.strict := reader, hash, strict;
      result := EMPTY_PARSED;
      bucket := new u32[0];
      phase := Init;
      stepIndex := 0;
    }

    /** The part of `rv_parser_one_section` before the decoder. */
    method LocateSection(tag: u32) returns (r: Located)
      requires reader.Valid()
      ensures r == Locate(reader.backing, reader.Entries(), tag, strict)
    {
      var e := reader.FindSection(tag);
      if e.None? {
        return if strict then Bad else Missing;
      }
      if !CrcVerifies(reader.backing, e.value) && strict {
        return Bad;
      }
      var p := SectionSlice(reader.backing, e.value);
      return if p.None? then Bad else At(p.value);
    }

    method OneSection<T(!new)>(f: Format<T>, size: nat, tag: u32) returns (r: Option<seq<T>>)
      requires reader.Valid() && FixedSize(f, size)
      ensures r == ParseTable(f, reader.backing, reader.Entries(), tag, strict)
    {
      var l := LocateSection(tag);
      match l
      case Missing => r := Some([]);
      case Bad => r := None;
      case At(p) => r := DecodeFixed(f, size, p);
    }

    method SnamSection() returns (r: Option<seq<Name>>, b: array<u32>)
      requires reader.Valid()
      ensures r == ParseTable(NAME_FORMAT, reader.backing, reader.Entries(), TAG_SNAM, strict)
      ensures r.Some? && r.value != [] ==> Dict.Indexed(hash, r.value, b[..])
    {
      var l := LocateSection(TAG_SNAM);
      match l
      case Missing => r := Some([]); b := new u32[0];
      case Bad => r := None; b := new u32[0];
      case At(p) => r, b := DecodeSnam(hash, p);
    }

    method WaveSection() returns (r: Option<seq<StoredWave>>)
      requires reader.Valid()
      ensures r == ParseTable(WAVE_FORMAT, reader.backing, reader.Entries(), TAG_WAVE, strict)
    {
      var l := LocateSection(TAG_WAVE);
      match l
      case Missing => r := Some([]);
      case Bad => r := None;
      case At(p) => r := DecodeVariable(WAVE_FORMAT, p);
    }

    method SummSection() returns (r: Option<Option<Summ>>)
      requires reader.Valid()
      ensures r == ParseSumm(reader.backing, reader.Entries())
    {
      var e := reader.FindSection(TAG_SUMM);
      if e.None? {
        return Some(None);
      }
      var p := SectionSlice(reader.backing, e.value);
      if p.None? {
        return None;
      }
      var s := DecodeSumm(p.value);
      return if s.None? then None else Some(s);
    }

    /** `rv_parser_step`, steps 2 to 11 */
    method SectionStep() returns (next: Option<Parsed>, b: array<u32>)
      requires Valid() && 2 <= stepIndex <= 11
      ensures next == StepTables(reader.backing, reader.header, reader.Entries(), strict, stepIndex, result)
      ensures next.Some? && next.value.names != [] ==> Dict.Indexed(hash, next.value.names, b[..])
    {
      b := bucket;
      match stepIndex
      case 2 =>
        var t;
        t, b := SnamSection();
        next := if t.Some? then Some(result.(names := t.value)) else None;
      case 3 =>
        RouteFormatExact();
        var t := OneSection(ROUTE_FORMAT, ROUTE_SIZE, TAG_ROUT);
        next := if t.Some? then Some(result.(routes := t.value)) else None;
      case 4 =>
        InstFormatExact();
        var t := OneSection(INST_FORMAT, INST_SIZE, TAG_INST);
        next := if t.Some? then Some(result.(insts := t.value)) else None;
      case 5 =>
        CalibFormatExact();
        var t := OneSection(CALIB_FORMAT, CALIB_SIZE, TAG_CLBR);
        next := if t.Some? then Some(result.(calibs := t.value)) else None;
      case 6 =>
        WindowFormatExact();
        var t := OneSection(WINDOW_FORMAT, WINDOW_SIZE, TAG_WIND);
        next := if t.Some? then Some(result.(windows := t.value)) else None;
      case 7 =>
        var t := WaveSection();
        next := if t.Some? then Some(result.(waves := t.value)) else None;
      case 8 =>
        MarkerFormatExact();
        var t := OneSection(MARKER_FORMAT, MARKER_SIZE, TAG_MARK);
        next := if t.Some? then Some(result.(markers := t.value)) else None;
      case 9 =>
        LinkFormatExact();
        var t := OneSection(LINK_FORMAT, LINK_SIZE, TAG_LINK);
        next := if t.Some? then Some(result.(links := t.value)) else None;
      case 10 =>
        NoteFormatExact();
        var t := OneSection(NOTE_FORMAT, NOTE_SIZE, TAG_NOTE);
        next := if t.Some? then Some(result.(notes := t.value)) else None;
      case _ =>
        var t := SummSection();
        next := if t.None? then None
                else Some(if t.value.Some? then result.(summ := t.value.value, hasSumm := true) else result);
    }

    /** `rv_parser_step`: one phase; a failed section is an error, and step 12 is the end. */
    method Step() returns (r: StepResult)
      requires Valid()
      modifies this
      ensures Valid()
      ensures r.Finished? <==> old(stepIndex) >= 12
      ensures r.Finished? ==> result == old(result) && phase == if old(stepIndex) == 12 then Done else old(phase)
      ensures r.More? ==> phase == PhaseAfter(old(stepIndex))
      ensures r.Failure? ==> phase == if old(stepIndex) == 11 then old(phase) else Error
      ensures var k := old(stepIndex);
              var next := StepTables(reader.backing, reader.header, reader.Entries(), strict, k, old(result));
              && (r.More? ==> next == Some(result) && stepIndex == old(stepIndex) + 1)
              && (r.Failure? ==> next.None? && result == old(result) && stepIndex == old(stepIndex))
    {
      if stepIndex == 0 {
        phase := InHeader;
        result := result.(featureBits := reader.header.featureBits);
      } else if stepIndex == 1 {
        phase := InDir;
      } else if stepIndex < 12 {
        var next, b := SectionStep();
        if next.None? {
          if stepIndex != 11 {
            phase := Error;
          }
          return Failure;
        }
        result, bucket, phase := next.value, b, PhaseAfter(stepIndex);
      } else {
        if stepIndex == 12 {
          phase := Done;
        }
        return Finished;
      }
      stepIndex := stepIndex + 1;
      return More;
    }

    /** `rv_parser_run` on a fresh parser: it succeeds exactly when the tables parse, and then holds all of them; else
        it holds those of the sections before the failing one. */
    method Run() returns (st: Status)
      requires Valid() && result == EMPTY_PARSED
      modifies this
      ensures Valid()
      ensures var all := ParseTables(reader.backing, reader.header, reader.Entries(), strict);
              (st.Ok? <==> all.Some?) && (st.Ok? ==> all == Some(result) && phase == Done)
      ensures st.Failed? ==> exists k: nat ::
                StopsAt(reader.backing, reader.header, reader.Entries(), strict, k, result)
    {
      ghost var data, h, es := reader.backing, reader.header, reader.Entries();
      stepIndex := 0;
      while true
        invariant Valid() && stepIndex <= 12
        invariant AfterSteps(data, h, es, strict, stepIndex) == Some(result)
        decreases 12 - stepIndex
      {
        RunStep(data, h, es, strict, stepIndex, result);
        var r := Step();
        if r.Failure? {
          assert StopsAt(data, h, es, strict, stepIndex, result);
          return Failed;
        }
        if r.Finished? {
          return Ok;
        }
      }
    }
  }
}
