/** What the checks of references, names, counts and ranges accept, in the fields of the tables and in reals. */
module ValidMeans {
  import opened Types
  import opened Floats
  import opened Index
  import opened Xref
  import opened Crc
  import opened Image
  import opened Reader
  import opened Validate

  // ----- references

  ghost predicate RouteExists(p: Parsed, id: u32) {
    id != 0 && exists i :: 0 <= i < |p.routes| && p.routes[i].routeId == id
  }

  ghost predicate WindowExists(p: Parsed, id: u32) {
    id != 0 && exists i :: 0 <= i < |p.windows| && p.windows[i].windowId == id
  }

  /** Instrument zero may exist. */
  ghost predicate InstExists(p: Parsed, id: u32) {
    exists i :: 0 <= i < |p.insts| && p.insts[i].instId == id
  }

  /** Zero stands for no calibration, no block and no name. */
  ghost predicate CalibFine(p: Parsed, id: u32) {
    id == 0 || exists i :: 0 <= i < |p.calibs| && p.calibs[i].calibId == id
  }

  ghost predicate WaveFine(p: Parsed, id: u32) {
    id == 0 || exists i :: 0 <= i < |p.waves| && p.waves[i].blockId == id
  }

  ghost predicate NameFine(p: Parsed, id: u32) {
    id == 0 || exists i :: 0 <= i < |p.names| && p.names[i].id == id
  }

  ghost predicate NamesFine(p: Parsed) {
    && (forall i | 0 <= i < |p.routes| :: NameFine(p, p.routes[i].siteNameId) && NameFine(p, p.routes[i].farNameId))
    && (forall i | 0 <= i < |p.insts| :: NameFine(p, p.insts[i].modelNameId) && NameFine(p, p.insts[i].serialNameId))
    && (forall i | 0 <= i < |p.markers| :: NameFine(p, p.markers[i].labelNameId))
  }

  /** Of links only those from routes and to windows are checked. */
  ghost predicate ReferencesFine(p: Parsed) {
    && (forall i | 0 <= i < |p.windows| ::
          && RouteExists(p, p.windows[i].routeId) && InstExists(p, p.windows[i].instId)
          && CalibFine(p, p.windows[i].calibId) && WaveFine(p, p.windows[i].waveBlockId))
    && (forall i | 0 <= i < |p.markers| :: WindowExists(p, p.markers[i].windowId))
    && (forall i | 0 <= i < |p.waves| :: p.waves[i].windowId == 0 || WindowExists(p, p.waves[i].windowId))
    && (forall i | 0 <= i < |p.links| :: p.links[i].fromKind == 1 ==> RouteExists(p, p.links[i].fromId))
    && (forall i | 0 <= i < |p.links| :: p.links[i].toKind == 2 ==> WindowExists(p, p.links[i].toId))
    && NamesFine(p)
  }

  lemma IdsMean(p: Parsed, id: u32)
    ensures Known(RouteIds(p.routes), id) <==> RouteExists(p, id)
    ensures Known(WindowIds(p.windows), id) <==> WindowExists(p, id)
    ensures id in WindowIds(p.windows) && id != 0 <==> WindowExists(p, id)
    ensures id in InstIds(p.insts) <==> InstExists(p, id)
    ensures id == 0 || id in CalibIds(p.calibs) <==> CalibFine(p, id)
    ensures id == 0 || id in WaveIds(p.waves) <==> WaveFine(p, id)
    ensures NameKnown(p.names, id) <==> NameFine(p, id)
  {
    RoutesMean(p, id);
    WindowsMean(p, id);
    InstsMean(p, id);
    CalibsMean(p, id);
    WavesMean(p, id);
  }

  lemma RoutesMean(p: Parsed, id: u32)
    ensures Known(RouteIds(p.routes), id) <==> RouteExists(p, id)
  {
    var ids := RouteIds(p.routes);
    assert forall i | 0 <= i < |ids| :: ids[i] == p.routes[i].routeId;
  }

  lemma WindowsMean(p: Parsed, id: u32)
    ensures Known(WindowIds(p.windows), id) <==> WindowExists(p, id)
  {
    var ids := WindowIds(p.windows);
    assert forall i | 0 <= i < |ids| :: ids[i] == p.windows[i].windowId;
  }

  lemma InstsMean(p: Parsed, id: u32)
    ensures id in InstIds(p.insts) <==> InstExists(p, id)
  {
    var ids := InstIds(p.insts);
    assert forall i | 0 <= i < |ids| :: ids[i] == p.insts[i].instId;
  }

  lemma CalibsMean(p: Parsed, id: u32)
    ensures id == 0 || id in CalibIds(p.calibs) <==> CalibFine(p, id)
  {
    var ids := CalibIds(p.calibs);
    assert forall i | 0 <= i < |ids| :: ids[i] == p.calibs[i].calibId;
  }

  lemma WavesMean(p: Parsed, id: u32)
    ensures id == 0 || id in WaveIds(p.waves) <==> WaveFine(p, id)
  {
    var ids := WaveIds(p.waves);
    assert forall i | 0 <= i < |ids| :: ids[i] == p.waves[i].blockId;
  }

  lemma NamesMean(p: Parsed)
    ensures NamesOk(p) <==> NamesFine(p)
  {
    forall id ensures NameKnown(p.names, id) <==> NameFine(p, id) {
      IdsMean(p, id);
    }
    hide NameKnown, NameFine;
  }

  /** Every reference resolves. */
  lemma ReferencesMean(p: Parsed)
    ensures XrefOk(p) <==> ReferencesFine(p)
  {
    forall id
      ensures Known(RouteIds(p.routes), id) <==> RouteExists(p, id)
      ensures Known(WindowIds(p.windows), id) <==> WindowExists(p, id)
      ensures id in WindowIds(p.windows) && id != 0 <==> WindowExists(p, id)
      ensures id in InstIds(p.insts) <==> InstExists(p, id)
      ensures id == 0 || id in CalibIds(p.calibs) <==> CalibFine(p, id)
      ensures id == 0 || id in WaveIds(p.waves) <==> WaveFine(p, id)
    {
      IdsMean(p, id);
    }
    NamesMean(p);
    hide RouteExists, WindowExists, InstExists, CalibFine, WaveFine, NamesFine, NamesOk, Known, RouteIds, WindowIds,
         InstIds, CalibIds, WaveIds;
    forall w ensures WindowOk(p, w) <==>
                     && RouteExists(p, w.routeId) && InstExists(p, w.instId) && CalibFine(p, w.calibId)
                     && WaveFine(p, w.waveBlockId)
    {
    }
    forall m ensures MarkerOk(p, m) <==> WindowExists(p, m.windowId) {
    }
    forall b ensures WaveOk(p, b) <==> b.windowId == 0 || WindowExists(p, b.windowId) {
    }
    forall l ensures LinkOk(p, l) <==> (l.fromKind == 1 ==> RouteExists(p, l.fromId))
                                       && (l.toKind == 2 ==> WindowExists(p, l.toId))
    {
    }
    hide WindowOk, MarkerOk, WaveOk, LinkOk;
  }

  // ----- how many failures

  ghost function BadRoutes(p: Parsed, n: nat): set<int>
    requires n <= |p.windows|
  {
    set i | 0 <= i < n && !RouteExists(p, p.windows[i].routeId)
  }

  ghost function BadInsts(p: Parsed, n: nat): set<int>
    requires n <= |p.windows|
  {
    set i | 0 <= i < n && !InstExists(p, p.windows[i].instId)
  }

  ghost function BadCalibs(p: Parsed, n: nat): set<int>
    requires n <= |p.windows|
  {
    set i | 0 <= i < n && !CalibFine(p, p.windows[i].calibId)
  }

  ghost function BadWaves(p: Parsed, n: nat): set<int>
    requires n <= |p.windows|
  {
    set i | 0 <= i < n && !WaveFine(p, p.windows[i].waveBlockId)
  }

  ghost function BadMarkers(p: Parsed, n: nat): set<int>
    requires n <= |p.markers|
  {
    set i | 0 <= i < n && !WindowExists(p, p.markers[i].windowId)
  }

  ghost function BadBlocks(p: Parsed, n: nat): set<int>
    requires n <= |p.waves|
  {
    set i | 0 <= i < n && p.waves[i].windowId != 0 && !WindowExists(p, p.waves[i].windowId)
  }

  ghost function BadFroms(p: Parsed, n: nat): set<int>
    requires n <= |p.links|
  {
    set i | 0 <= i < n && p.links[i].fromKind == 1 && !RouteExists(p, p.links[i].fromId)
  }

  ghost function BadTos(p: Parsed, n: nat): set<int>
    requires n <= |p.links|
  {
    set i | 0 <= i < n && p.links[i].toKind == 2 && !WindowExists(p, p.links[i].toId)
  }

  /** A set of positions below `n`, and what position `n` adds to its size. */
  lemma OneMore(before: set<int>, after: set<int>, n: nat, bad: bool)
    requires n !in before && after == before + if bad then {n} else {}
    ensures |after| == |before| + Unless(!bad)
  {
  }

  lemma BadRoutesNext(p: Parsed, n: nat)
    requires n < |p.windows|
    ensures |BadRoutes(p, n + 1)| == |BadRoutes(p, n)| + Unless(RouteExists(p, p.windows[n].routeId))
  {
    hide RouteExists, WindowExists, InstExists, CalibFine, WaveFine;
    OneMore(BadRoutes(p, n), BadRoutes(p, n + 1), n, !RouteExists(p, p.windows[n].routeId));
  }

  lemma BadInstsNext(p: Parsed, n: nat)
    requires n < |p.windows|
    ensures |BadInsts(p, n + 1)| == |BadInsts(p, n)| + Unless(InstExists(p, p.windows[n].instId))
  {
    hide RouteExists, WindowExists, InstExists, CalibFine, WaveFine;
    OneMore(BadInsts(p, n), BadInsts(p, n + 1), n, !InstExists(p, p.windows[n].instId));
  }

  lemma BadCalibsNext(p: Parsed, n: nat)
    requires n < |p.windows|
    ensures |BadCalibs(p, n + 1)| == |BadCalibs(p, n)| + Unless(CalibFine(p, p.windows[n].calibId))
  {
    hide RouteExists, WindowExists, InstExists, CalibFine, WaveFine;
    OneMore(BadCalibs(p, n), BadCalibs(p, n + 1), n, !CalibFine(p, p.windows[n].calibId));
  }

  lemma BadWavesNext(p: Parsed, n: nat)
    requires n < |p.windows|
    ensures |BadWaves(p, n + 1)| == |BadWaves(p, n)| + Unless(WaveFine(p, p.windows[n].waveBlockId))
  {
    hide RouteExists, WindowExists, InstExists, CalibFine, WaveFine;
    OneMore(BadWaves(p, n), BadWaves(p, n + 1), n, !WaveFine(p, p.windows[n].waveBlockId));
  }

  lemma BadMarkersNext(p: Parsed, n: nat)
    requires n < |p.markers|
    ensures |BadMarkers(p, n + 1)| == |BadMarkers(p, n)| + Unless(WindowExists(p, p.markers[n].windowId))
  {
    hide RouteExists, WindowExists, InstExists, CalibFine, WaveFine;
    OneMore(BadMarkers(p, n), BadMarkers(p, n + 1), n, !WindowExists(p, p.markers[n].windowId));
  }

  lemma BadBlocksNext(p: Parsed, n: nat)
    requires n < |p.waves|
    ensures |BadBlocks(p, n + 1)| ==
            |BadBlocks(p, n)| + Unless(p.waves[n].windowId == 0 || WindowExists(p, p.waves[n].windowId))
  {
    hide RouteExists, WindowExists, InstExists, CalibFine, WaveFine;
    OneMore(BadBlocks(p, n), BadBlocks(p, n + 1), n, p.waves[n].windowId != 0 && !WindowExists(p, p.waves[n].windowId));
  }

  lemma BadFromsNext(p: Parsed, n: nat)
    requires n < |p.links|
    ensures |BadFroms(p, n + 1)| ==
            |BadFroms(p, n)| + Unless(p.links[n].fromKind == 1 ==> RouteExists(p, p.links[n].fromId))
  {
    hide RouteExists, WindowExists, InstExists, CalibFine, WaveFine;
    OneMore(BadFroms(p, n), BadFroms(p, n + 1), n, p.links[n].fromKind == 1 && !RouteExists(p, p.links[n].fromId));
  }

  lemma BadTosNext(p: Parsed, n: nat)
    requires n < |p.links|
    ensures |BadTos(p, n + 1)| ==
            |BadTos(p, n)| + Unless(p.links[n].toKind == 2 ==> WindowExists(p, p.links[n].toId))
  {
    hide RouteExists, WindowExists, InstExists, CalibFine, WaveFine;
    OneMore(BadTos(p, n), BadTos(p, n + 1), n, p.links[n].toKind == 2 && !WindowExists(p, p.links[n].toId));
  }

  lemma WindowsNext(p: Parsed, n: nat)
    requires n < |p.windows|
    ensures |BadRoutes(p, n + 1)| + |BadInsts(p, n + 1)| + |BadCalibs(p, n + 1)| + |BadWaves(p, n + 1)| ==
            |BadRoutes(p, n)| + |BadInsts(p, n)| + |BadCalibs(p, n)| + |BadWaves(p, n)|
            + WindowFailures(p, p.windows[n])
  {
    hide RouteExists, InstExists, CalibFine, WaveFine, Known, RouteIds, InstIds, CalibIds, WaveIds, BadRoutes, BadInsts,
         BadCalibs, BadWaves;
    var w := p.windows[n];
    IdsMean(p, w.routeId);
    IdsMean(p, w.instId);
    IdsMean(p, w.calibId);
    IdsMean(p, w.waveBlockId);
    BadRoutesNext(p, n);
    BadInstsNext(p, n);
    BadCalibsNext(p, n);
    BadWavesNext(p, n);
  }

  lemma {:induction false} WindowsCount(p: Parsed, n: nat)
    requires n <= |p.windows|
    ensures WindowTotal(p, p.windows[..n]) ==
            |BadRoutes(p, n)| + |BadInsts(p, n)| + |BadCalibs(p, n)| + |BadWaves(p, n)|
  {
    hide WindowFailures;
    if n == 0 {
      assert BadRoutes(p, 0) == {} && BadInsts(p, 0) == {} && BadCalibs(p, 0) == {} && BadWaves(p, 0) == {};
    } else {
      hide BadRoutes, BadInsts, BadCalibs, BadWaves;
      WindowsCount(p, n - 1);
      WindowsNext(p, n - 1);
      assert p.windows[..n][..n - 1] == p.windows[..n - 1];
    }
  }

  lemma NoneBad(p: Parsed)
    ensures BadMarkers(p, 0) == {} && BadBlocks(p, 0) == {} && BadFroms(p, 0) == {} && BadTos(p, 0) == {}
  {
  }

  lemma {:induction false} MarkersCount(p: Parsed, n: nat)
    requires n <= |p.markers|
    ensures MarkerTotal(p, p.markers[..n]) == |BadMarkers(p, n)|
  {
    hide WindowExists, Known, WindowIds, BadMarkers;
    NoneBad(p);
    if n > 0 {
      MarkersCount(p, n - 1);
      IdsMean(p, p.markers[n - 1].windowId);
      assert p.markers[..n][..n - 1] == p.markers[..n - 1];
      BadMarkersNext(p, n - 1);
    }
  }

  lemma {:induction false} BlocksCount(p: Parsed, n: nat)
    requires n <= |p.waves|
    ensures WaveTotal(p, p.waves[..n]) == |BadBlocks(p, n)|
  {
    hide WindowExists, WindowIds, BadBlocks;
    NoneBad(p);
    if n > 0 {
      BlocksCount(p, n - 1);
      var id := p.waves[n - 1].windowId;
      IdsMean(p, id);
      assert p.waves[..n][..n - 1] == p.waves[..n - 1];
      BadBlocksNext(p, n - 1);
    }
  }

  lemma {:induction false} LinksCount(p: Parsed, n: nat)
    requires n <= |p.links|
    ensures LinkTotal(p, p.links[..n]) == |BadFroms(p, n)| + |BadTos(p, n)|
  {
    hide RouteExists, WindowExists, Known, RouteIds, WindowIds, BadFroms, BadTos;
    NoneBad(p);
    if n > 0 {
      LinksCount(p, n - 1);
      var l := p.links[n - 1];
      IdsMean(p, l.fromId);
      IdsMean(p, l.toId);
      assert p.links[..n][..n - 1] == p.links[..n - 1];
      BadFromsNext(p, n - 1);
      BadTosNext(p, n - 1);
    }
  }

  /** Each of the three kinds of named records counts once when one of its names does not exist. */
  ghost function BadNames(p: Parsed): nat {
    (if forall i | 0 <= i < |p.routes| :: NameFine(p, p.routes[i].siteNameId) && NameFine(p, p.routes[i].farNameId)
     then 0 else 1)
    + (if forall i | 0 <= i < |p.insts| :: NameFine(p, p.insts[i].modelNameId) && NameFine(p, p.insts[i].serialNameId)
       then 0 else 1)
    + if forall i | 0 <= i < |p.markers| :: NameFine(p, p.markers[i].labelNameId) then 0 else 1
  }

  lemma NamesCount(p: Parsed)
    ensures NameTotal(p) == BadNames(p)
  {
    forall id ensures NameKnown(p.names, id) <==> NameFine(p, id) {
      IdsMean(p, id);
    }
    hide NameKnown, NameFine;
  }

  /** The failures counted: each reference that leads nowhere is one. */
  lemma FailuresMean(p: Parsed)
    ensures Failures(p) ==
            var w, m, b, l := |p.windows|, |p.markers|, |p.waves|, |p.links|;
            |BadRoutes(p, w)| + |BadInsts(p, w)| + |BadCalibs(p, w)| + |BadWaves(p, w)| + |BadMarkers(p, m)|
            + |BadBlocks(p, b)| + |BadFroms(p, l)| + |BadTos(p, l)| + BadNames(p)
  {
    hide WindowTotal, MarkerTotal, WaveTotal, LinkTotal, NameTotal, BadRoutes, BadInsts, BadCalibs, BadWaves,
         BadMarkers, BadBlocks, BadFroms, BadTos, BadNames;
    WindowsCount(p, |p.windows|);
    MarkersCount(p, |p.markers|);
    BlocksCount(p, |p.waves|);
    LinksCount(p, |p.links|);
    NamesCount(p);
    assert p.windows[..|p.windows|] == p.windows && p.markers[..|p.markers|] == p.markers;
    assert p.waves[..|p.waves|] == p.waves && p.links[..|p.links|] == p.links;
  }

  // ----- counts and ranges

  /** A stored count of zero is not checked. */
  ghost predicate CountsFine(p: Parsed) {
    p.hasSumm ==>
      && (p.summ.routeCount != 0 ==> p.summ.routeCount == |p.routes|)
      && (p.summ.windowCount != 0 ==> p.summ.windowCount == |p.windows|)
      && (p.summ.markerCount != 0 ==> p.summ.markerCount == |p.markers|)
      && (p.summ.waveCount != 0 ==> p.summ.waveCount == |p.waves|)
      && (p.summ.nameCount != 0 ==> p.summ.nameCount == |p.names|)
  }

  /** Not negative.  A NaN passes. */
  ghost predicate NotNegative(v: Value) {
    v.NaN? || v.PosInf? || (v.Finite? && v.r >= 0.0)
  }

  ghost predicate RangesFine(p: Parsed) {
    && (forall i | 0 <= i < |p.routes| ::
          var v := ValueOf(p.routes[i].lengthKm); v.NaN? || (v.Finite? && 0.0 <= v.r <= 500.0))
    && (forall i | 0 <= i < |p.windows| ::
          NotNegative(ValueOf(p.windows[i].pulseNs)) && NotNegative(ValueOf(p.windows[i].rangeKm)))
    && (forall i | 0 <= i < |p.waves| ::
          var v := ValueOf(p.waves[i].stepM); v.NaN? || v.PosInf? || (v.Finite? && v.r > 0.0))
    && (forall i | 0 <= i < |p.markers| :: NotNegative(ValueOf(p.markers[i].distanceM)))
  }

  lemma RangesMean(p: Parsed)
    ensures RangesOk(p) <==> RangesFine(p)
  {
    FloatConstants();
    hide ValueOf;
    forall r ensures RouteInRange(r) <==>
                     var v := ValueOf(r.lengthKm); v.NaN? || (v.Finite? && 0.0 <= v.r <= 500.0)
    {
    }
    forall w ensures WindowInRange(w) <==> NotNegative(ValueOf(w.pulseNs)) && NotNegative(ValueOf(w.rangeKm)) {
    }
    forall b ensures WaveInRange(b) <==>
                     var v := ValueOf(b.stepM); v.NaN? || v.PosInf? || (v.Finite? && v.r > 0.0)
    {
    }
    forall m ensures MarkerInRange(m) <==> NotNegative(ValueOf(m.distanceM)) {
    }
    hide RouteInRange, WindowInRange, WaveInRange, MarkerInRange, NotNegative;
  }

  // ----- the whole validation

  /** A section's bytes are there and have the stored checksum; a checksum of zero is not compared. */
  ghost predicate EntryIntact(data: bytes, e: DirEntry) {
    e.crc == 0 || (e.offset + e.length <= |data| && Crc32(data[e.offset..e.offset + e.length]) == e.crc)
  }

  ghost predicate ChecksPass(data: bytes, h: FileHeader, es: seq<DirEntry>, p: Parsed, o: ValidateOptions) {
    && (h.totalSize != 0 ==> h.totalSize == |data|) && h.sectionCount == |es|
    && (o.checkCrc ==> forall i | 0 <= i < |es| :: EntryIntact(data, es[i]))
    && (o.checkNames ==> NamesFine(p))
    && (o.checkXref ==> ReferencesFine(p))
    && (o.checkSumm ==> CountsFine(p))
    && (o.checkRanges ==> RangesFine(p))
  }

  lemma IntactMeans(data: bytes, e: DirEntry)
    ensures CrcVerifies(data, e) <==> EntryIntact(data, e)
  {
    hide Crc32;
  }

  lemma ChecksMean(data: bytes, h: FileHeader, es: seq<DirEntry>, p: Parsed, o: ValidateOptions)
    ensures Passes(data, h, es, p, o) <==> ChecksPass(data, h, es, p, o)
  {
    NamesMean(p);
    ReferencesMean(p);
    RangesMean(p);
    forall i | 0 <= i < |es| ensures CrcVerifies(data, es[i]) <==> EntryIntact(data, es[i]) {
      IntactMeans(data, es[i]);
    }
    hide CrcVerifies, EntryIntact, NamesOk, NamesFine, XrefOk, ReferencesFine, RangesOk, RangesFine;
  }

  /** `rv_validate_package`, check by check. */
  method ValidateTables(r: PackageReader, p: Parsed, idx: PackageIndex, o: ValidateOptions) returns (rc: Status)
    requires r.Valid() && idx.Describes(p)
    ensures rc.Ok? <==> ChecksPass(r.backing, r.header, r.Entries(), p, o)
  {
    hide Passes, ChecksPass, Maps, NodesOf;
    ChecksMean(r.backing, r.header, r.Entries(), p, o);
    rc := ValidatePackage(r, p, idx, o);
  }
}
