/** Package validation (src/internal/rv_validate.c). */
module Validate {
  import opened Types
  import opened Floats
  import opened Image
  import opened Reader
  import opened Index
  import opened Xref

  /** `rv_validate_header_consistency`: a stored size of zero is not checked. */
  predicate HeaderConsistent(h: FileHeader, size: nat, dirCount: nat) {
    (h.totalSize == 0 || h.totalSize == size) && h.sectionCount == dirCount
  }

  predicate CountOk(stored: u32, actual: nat) {
    stored == 0 || stored == actual
  }

  /** The counts of a summary, where it has any, are those of the tables. */
  predicate SummCountsOk(p: Parsed) {
    p.hasSumm ==>
      && CountOk(p.summ.routeCount, |p.routes|) && CountOk(p.summ.windowCount, |p.windows|)
      && CountOk(p.summ.markerCount, |p.markers|) && CountOk(p.summ.waveCount, |p.waves|)
      && CountOk(p.summ.nameCount, |p.names|)
  }

  /** 500.0f */
  const MAX_LENGTH_KM: f32 := 0x43FA_0000

  predicate RouteInRange(r: Route) {
    !Lt(r.lengthKm, ZERO) && !Lt(MAX_LENGTH_KM, r.lengthKm)
  }

  predicate WindowInRange(w: Window) {
    !Lt(w.pulseNs, ZERO) && !Lt(w.rangeKm, ZERO)
  }

  /** `!(step_m <= 0.0f)`: true of a NaN */
  predicate WaveInRange(b: Wave) {
    !Lt(b.stepM, ZERO) && NonZero(b.stepM)
  }

  predicate MarkerInRange(m: Marker) {
    !Lt(m.distanceM, ZERO)
  }

  predicate RangesOk(p: Parsed) {
    && (forall i | 0 <= i < |p.routes| :: RouteInRange(p.routes[i]))
    && (forall i | 0 <= i < |p.windows| :: WindowInRange(p.windows[i]))
    && (forall i | 0 <= i < |p.waves| :: WaveInRange(p.waves[i]))
    && (forall i | 0 <= i < |p.markers| :: MarkerInRange(p.markers[i]))
  }

  datatype ValidateOptions = ValidateOptions(checkCrc: bool, checkXref: bool, checkSumm: bool, checkRanges: bool,
                                             checkNames: bool)

  const ALL_CHECKS := ValidateOptions(true, true, true, true, true)

  ghost predicate CrcsVerify(data: bytes, es: seq<DirEntry>) {
    forall i | 0 <= i < |es| :: CrcVerifies(data, es[i])
  }

  /** What a package has to satisfy to pass. */
  ghost predicate Passes(data: bytes, h: FileHeader, es: seq<DirEntry>, p: Parsed, o: ValidateOptions) {
    HeaderConsistent(h, |data|, |es|) && (o.checkCrc ==> CrcsVerify(data, es)) && TablesPass(p, o)
  }

  predicate TablesPass(p: Parsed, o: ValidateOptions) {
    && (o.checkNames ==> NamesOk(p))
    && (o.checkXref ==> XrefOk(p))
    && (o.checkSumm ==> SummCountsOk(p))
    && (o.checkRanges ==> RangesOk(p))
  }

  method CheckSummCounts(p: Parsed) returns (st: Status)
    ensures st.Ok? <==> SummCountsOk(p)
  {
    if !p.hasSumm {
      return Ok;
    }
    if p.summ.routeCount != 0 && p.summ.routeCount != |p.routes| {
      return Failed;
    }
    if p.summ.windowCount != 0 && p.summ.windowCount != |p.windows| {
      return Failed;
    }
    if p.summ.markerCount != 0 && p.summ.markerCount != |p.markers| {
      return Failed;
    }
    if p.summ.waveCount != 0 && p.summ.waveCount != |p.waves| {
      return Failed;
    }
    if p.summ.nameCount != 0 && p.summ.nameCount != |p.names| {
      return Failed;
    }
    return Ok;
  }

  /** `rv_validate_physical_ranges` */
  method CheckRanges(p: Parsed) returns (st: Status)
    ensures st.Ok? <==> RangesOk(p)
  {
    hide Lt, NonZero;
    for i := 0 to |p.routes|
      invariant forall k | 0 <= k < i :: RouteInRange(p.routes[k])
    {
      if Lt(p.routes[i].lengthKm, ZERO) || Lt(MAX_LENGTH_KM, p.routes[i].lengthKm) {
        assert !RouteInRange(p.routes[i]);
        return Failed;
      }
    }
    for i := 0 to |p.windows|
      invariant forall k | 0 <= k < i :: WindowInRange(p.windows[k])
    {
      if Lt(p.windows[i].pulseNs, ZERO) || Lt(p.windows[i].rangeKm, ZERO) {
        assert !WindowInRange(p.windows[i]);
        return Failed;
      }
    }
    for i := 0 to |p.waves|
      invariant forall k | 0 <= k < i :: WaveInRange(p.waves[k])
    {
      if Lt(p.waves[i].stepM, ZERO) || !NonZero(p.waves[i].stepM) {
        assert !WaveInRange(p.waves[i]);
        return Failed;
      }
    }
    for i := 0 to |p.markers|
      invariant forall k | 0 <= k < i :: MarkerInRange(p.markers[k])
    {
      if Lt(p.markers[i].distanceM, ZERO) {
        assert !MarkerInRange(p.markers[i]);
        return Failed;
      }
    }
    return Ok;
  }

  /** The loop over the directory's checksums. */
  method CheckCrcs(r: PackageReader) returns (st: Status)
    requires r.Valid()
    ensures st.Ok? <==> CrcsVerify(r.backing, r.Entries())
  {
    hide CrcVerifies;
    st := Ok;
    for i := 0 to r.dirCount
      invariant st.Ok? <==> forall k | 0 <= k < i :: CrcVerifies(r.backing, r.Entries()[k])
    {
      if !CrcVerifies(r.backing, r.dir[i]) {
        st := Failed;
      }
      assert r.dir[i] == r.Entries()[i];
    }
  }

  /** `rv_validate_package` with a built index */
  method ValidatePackage(r: PackageReader, p: Parsed, idx: PackageIndex, o: ValidateOptions) returns (rc: Status)
    requires r.Valid() && idx.Describes(p)
    ensures rc.Ok? <==> Passes(r.backing, r.header, r.Entries(), p, o)
  {
    hide CrcsVerify, TablesPass, Maps, NodesOf;
    rc := Ok;
    if r.header.totalSize != 0 && r.header.totalSize != |r.backing| {
      rc := Failed;
    } else if r.header.sectionCount != r.dirCount {
      rc := Failed;
    }
    if o.checkCrc {
      var crcs := CheckCrcs(r);
      if crcs.Failed? {
        rc := Failed;
      }
    }
    var tables := CheckTables(p, idx, o);
    if tables.Failed? {
      rc := Failed;
    }
  }

  /** Its checks of the tables. */
  method CheckTables(p: Parsed, idx: PackageIndex, o: ValidateOptions) returns (rc: Status)
    requires idx.Describes(p)
    ensures rc.Ok? <==> TablesPass(p, o)
  {
    hide NamesOk, XrefOk, SummCountsOk, RangesOk, Maps, NodesOf, Xref.Failures;
    rc := Ok;
    var st;
    if o.checkNames {
      st := CheckNames(p);
      if st.Failed? {
        rc := Failed;
      }
    }
    if o.checkXref {
      var checked, failures;
      st, checked, failures := Xref.Validate(p, idx);
      if st.Failed? {
        rc := Failed;
      }
    }
    if o.checkSumm {
      st := CheckSummCounts(p);
      if st.Failed? {
        rc := Failed;
      }
    }
    if o.checkRanges {
      st := CheckRanges(p);
      if st.Failed? {
        rc := Failed;
      }
    }
  }

  method CheckNames(p: Parsed) returns (st: Status)
    ensures st.Ok? <==> NamesOk(p)
  {
    hide RouteNamed, InstNamed, NameKnown;
    var bad;
    st, bad := CheckRoutes(p.names, p.routes);
    if st.Failed? {
      return;
    }
    st, bad := CheckInsts(p.names, p.insts);
    if st.Failed? {
      return;
    }
    st, bad := CheckMarkers(p.names, p.markers);
  }
}
