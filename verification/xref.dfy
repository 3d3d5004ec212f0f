/** The cross-reference check (src/internal/rv_xref.c) and the dictionary checks it uses (src/internal/rv_dict.c). */
module Xref {
  import opened Types
  import opened Index
  import Dict

  function InstIds(rs: seq<Inst>): (ids: seq<u32>)
    ensures |ids| == |rs|
  {
    seq(|rs|, i requires 0 <= i < |rs| => rs[i].instId)
  }

  function CalibIds(rs: seq<Calib>): (ids: seq<u32>)
    ensures |ids| == |rs|
  {
    seq(|rs|, i requires 0 <= i < |rs| => rs[i].calibId)
  }

  /** The instruments that calibrations are for. */
  function CalibInstIds(rs: seq<Calib>): (ids: seq<u32>)
    ensures |ids| == |rs|
  {
    seq(|rs|, i requires 0 <= i < |rs| => rs[i].instId)
  }

  // ----- what a table's references must satisfy

  /** An id that an index lookup finds. */
  predicate Known(ids: seq<u32>, id: u32) {
    id != 0 && id in ids
  }

  /** Zero means "no name". */
  predicate NameKnown(names: seq<Name>, id: u32) {
    id == 0 || exists i :: 0 <= i < |names| && names[i].id == id
  }

  /** Calibration and wave are optional, route and instrument are not; instrument zero may exist. */
  predicate WindowOk(p: Parsed, w: Window) {
    && Known(RouteIds(p.routes), w.routeId)
    && w.instId in InstIds(p.insts)
    && (w.calibId == 0 || w.calibId in CalibIds(p.calibs))
    && (w.waveBlockId == 0 || w.waveBlockId in WaveIds(p.waves))
  }

  predicate MarkerOk(p: Parsed, m: Marker) {
    Known(WindowIds(p.windows), m.windowId)
  }

  predicate WaveOk(p: Parsed, b: Wave) {
    b.windowId == 0 || b.windowId in WindowIds(p.windows)
  }

  const FROM_ROUTE: u32 := 1
  const TO_WINDOW: u32 := 2

  predicate LinkOk(p: Parsed, l: Link) {
    && (l.fromKind == FROM_ROUTE ==> Known(RouteIds(p.routes), l.fromId))
    && (l.toKind == TO_WINDOW ==> Known(WindowIds(p.windows), l.toId))
  }

  predicate RouteNamed(names: seq<Name>, r: Route) {
    NameKnown(names, r.siteNameId) && NameKnown(names, r.farNameId)
  }

  predicate InstNamed(names: seq<Name>, r: Inst) {
    NameKnown(names, r.modelNameId) && NameKnown(names, r.serialNameId)
  }

  predicate NamesOk(p: Parsed) {
    && (forall i | 0 <= i < |p.routes| :: RouteNamed(p.names, p.routes[i]))
    && (forall i | 0 <= i < |p.insts| :: InstNamed(p.names, p.insts[i]))
    && (forall i | 0 <= i < |p.markers| :: NameKnown(p.names, p.markers[i].labelNameId))
  }

  /** Every reference of the package resolves. */
  predicate XrefOk(p: Parsed) {
    && (forall i | 0 <= i < |p.windows| :: WindowOk(p, p.windows[i]))
    && (forall i | 0 <= i < |p.markers| :: MarkerOk(p, p.markers[i]))
    && (forall i | 0 <= i < |p.waves| :: WaveOk(p, p.waves[i]))
    && (forall i | 0 <= i < |p.links| :: LinkOk(p, p.links[i]))
    && NamesOk(p)
  }

  // ----- the number of failures

  function Unless(ok: bool): nat {
    if ok then 0 else 1
  }

  function WindowFailures(p: Parsed, w: Window): nat {
    Unless(Known(RouteIds(p.routes), w.routeId)) + Unless(w.instId in InstIds(p.insts))
    + Unless(w.calibId == 0 || w.calibId in CalibIds(p.calibs))
    + Unless(w.waveBlockId == 0 || w.waveBlockId in WaveIds(p.waves))
  }

  function LinkFailures(p: Parsed, l: Link): nat {
    Unless(l.fromKind == FROM_ROUTE ==> Known(RouteIds(p.routes), l.fromId))
    + Unless(l.toKind == TO_WINDOW ==> Known(WindowIds(p.windows), l.toId))
  }

  function WindowTotal(p: Parsed, ws: seq<Window>): nat {
    if ws == [] then 0 else WindowTotal(p, ws[..|ws| - 1]) + WindowFailures(p, ws[|ws| - 1])
  }

  function MarkerTotal(p: Parsed, ms: seq<Marker>): nat {
    if ms == [] then 0 else MarkerTotal(p, ms[..|ms| - 1]) + Unless(MarkerOk(p, ms[|ms| - 1]))
  }

  function WaveTotal(p: Parsed, bs: seq<Wave>): nat {
    if bs == [] then 0 else WaveTotal(p, bs[..|bs| - 1]) + Unless(WaveOk(p, bs[|bs| - 1]))
  }

  function LinkTotal(p: Parsed, ls: seq<Link>): nat {
    if ls == [] then 0 else LinkTotal(p, ls[..|ls| - 1]) + LinkFailures(p, ls[|ls| - 1])
  }

  /** Each dictionary check counts at most once. */
  function NameTotal(p: Parsed): nat {
    Unless(forall i | 0 <= i < |p.routes| :: RouteNamed(p.names, p.routes[i]))
    + Unless(forall i | 0 <= i < |p.insts| :: InstNamed(p.names, p.insts[i]))
    + Unless(forall i | 0 <= i < |p.markers| :: NameKnown(p.names, p.markers[i].labelNameId))
  }

  function Failures(p: Parsed): nat {
    WindowTotal(p, p.windows) + MarkerTotal(p, p.markers) + WaveTotal(p, p.waves) + LinkTotal(p, p.links) + NameTotal(p)
  }

  lemma {:induction false} WindowsCounted(p: Parsed, ws: seq<Window>)
    ensures WindowTotal(p, ws) == 0 <==> forall i | 0 <= i < |ws| :: WindowOk(p, ws[i])
  {
    if ws != [] {
      WindowsCounted(p, ws[..|ws| - 1]);
      assert forall i | 0 <= i < |ws| - 1 :: ws[..|ws| - 1][i] == ws[i];
    }
  }

  lemma {:induction false} MarkersCounted(p: Parsed, ms: seq<Marker>)
    ensures MarkerTotal(p, ms) == 0 <==> forall i | 0 <= i < |ms| :: MarkerOk(p, ms[i])
  {
    if ms != [] {
      MarkersCounted(p, ms[..|ms| - 1]);
      assert forall i | 0 <= i < |ms| - 1 :: ms[..|ms| - 1][i] == ms[i];
    }
  }

  lemma {:induction false} WavesCounted(p: Parsed, bs: seq<Wave>)
    ensures WaveTotal(p, bs) == 0 <==> forall i | 0 <= i < |bs| :: WaveOk(p, bs[i])
  {
    if bs != [] {
      WavesCounted(p, bs[..|bs| - 1]);
      assert forall i | 0 <= i < |bs| - 1 :: bs[..|bs| - 1][i] == bs[i];
    }
  }

  lemma {:induction false} LinksCounted(p: Parsed, ls: seq<Link>)
    ensures LinkTotal(p, ls) == 0 <==> forall i | 0 <= i < |ls| :: LinkOk(p, ls[i])
  {
    if ls != [] {
      LinksCounted(p, ls[..|ls| - 1]);
      assert forall i | 0 <= i < |ls| - 1 :: ls[..|ls| - 1][i] == ls[i];
    }
  }

  /** No failure is counted exactly when every reference resolves. */
  lemma FailuresZero(p: Parsed)
    ensures Failures(p) == 0 <==> XrefOk(p)
  {
    hide WindowOk, MarkerOk, WaveOk, LinkOk, RouteNamed, InstNamed, NameKnown;
    WindowsCounted(p, p.windows);
    MarkersCounted(p, p.markers);
    WavesCounted(p, p.waves);
    LinksCounted(p, p.links);
  }

  // ----- the checks as they run

  /** `rv_dict_by_id` */
  method ById(names: seq<Name>, id: u32) returns (r: Option<nat>)
    ensures r == Dict.FirstById(names, id)
    ensures r.Some? <==> exists i :: 0 <= i < |names| && names[i].id == id
  {
    for i := 0 to |names|
      invariant forall j | 0 <= j < i :: names[j].id != id
    {
      if names[i].id == id {
        Dict.FirstByIdIs(names, id, i);
        return Some(i);
      }
    }
    return None;
  }

  method NameMissing(names: seq<Name>, id: u32) returns (missing: bool)
    ensures missing <==> !NameKnown(names, id)
  {
    if id == 0 {
      return false;
    }
    var e := ById(names, id);
    return e.None?;
  }

  /** `rv_dict_check_routes`: on failure `bad` is a missing name of the first route that has one. */
  method CheckRoutes(names: seq<Name>, rs: seq<Route>) returns (st: Status, bad: u32)
    ensures st.Ok? <==> forall i | 0 <= i < |rs| :: RouteNamed(names, rs[i])
    ensures st.Failed? ==> !NameKnown(names, bad)
    ensures st.Failed? ==> exists i :: 0 <= i < |rs| && (bad == rs[i].siteNameId || bad == rs[i].farNameId)
                                       && forall j | 0 <= j < i :: RouteNamed(names, rs[j])
  {
    hide NameKnown;
    bad := 0;
    for i := 0 to |rs|
      invariant forall j | 0 <= j < i :: RouteNamed(names, rs[j])
    {
      var missing := NameMissing(names, rs[i].siteNameId);
      if missing {
        assert !RouteNamed(names, rs[i]);
        return Failed, rs[i].siteNameId;
      }
      missing := NameMissing(names, rs[i].farNameId);
      if missing {
        assert !RouteNamed(names, rs[i]);
        return Failed, rs[i].farNameId;
      }
    }
    st := Ok;
  }

  /** `rv_dict_check_instruments` */
  method CheckInsts(names: seq<Name>, rs: seq<Inst>) returns (st: Status, bad: u32)
    ensures st.Ok? <==> forall i | 0 <= i < |rs| :: InstNamed(names, rs[i])
    ensures st.Failed? ==> !NameKnown(names, bad)
    ensures st.Failed? ==> exists i :: 0 <= i < |rs| && (bad == rs[i].modelNameId || bad == rs[i].serialNameId)
                                       && forall j | 0 <= j < i :: InstNamed(names, rs[j])
  {
    hide NameKnown;
    bad := 0;
    for i := 0 to |rs|
      invariant forall j | 0 <= j < i :: InstNamed(names, rs[j])
    {
      var missing := NameMissing(names, rs[i].modelNameId);
      if missing {
        assert !InstNamed(names, rs[i]);
        return Failed, rs[i].modelNameId;
      }
      missing := NameMissing(names, rs[i].serialNameId);
      if missing {
        assert !InstNamed(names, rs[i]);
        return Failed, rs[i].serialNameId;
      }
    }
    st := Ok;
  }

  /** `rv_dict_check_markers` */
  method CheckMarkers(names: seq<Name>, ms: seq<Marker>) returns (st: Status, bad: u32)
    ensures st.Ok? <==> forall i | 0 <= i < |ms| :: NameKnown(names, ms[i].labelNameId)
    ensures st.Failed? ==> !NameKnown(names, bad)
    ensures st.Failed? ==> exists i :: 0 <= i < |ms| && bad == ms[i].labelNameId
                                       && forall j | 0 <= j < i :: NameKnown(names, ms[j].labelNameId)
  {
    hide NameKnown;
    bad := 0;
    for i := 0 to |ms|
      invariant forall j | 0 <= j < i :: NameKnown(names, ms[j].labelNameId)
    {
      var missing := NameMissing(names, ms[i].labelNameId);
      if missing {
        return Failed, ms[i].labelNameId;
      }
    }
    st := Ok;
  }

  /** `rv_find_inst` */
  method FindInst(rs: seq<Inst>, id: u32) returns (r: Option<nat>)
    ensures r == FirstPos(InstIds(rs), id)
  {
    for i := 0 to |rs|
      invariant forall k | 0 <= k < i :: rs[k].instId != id
    {
      if rs[i].instId == id {
        FirstPosIs(InstIds(rs), id, i);
        return Some(i);
      }
    }
    return None;
  }

  /** `rv_find_calib` */
  method FindCalib(rs: seq<Calib>, id: u32) returns (r: Option<nat>)
    ensures r == FirstPos(CalibIds(rs), id)
  {
    for i := 0 to |rs|
      invariant forall k | 0 <= k < i :: rs[k].calibId != id
    {
      if rs[i].calibId == id {
        FirstPosIs(CalibIds(rs), id, i);
        return Some(i);
      }
    }
    return None;
  }

  /** `rv_xref_resolve_calib_for_inst` */
  method ResolveCalibForInst(p: Parsed, instId: u32) returns (r: Option<nat>)
    ensures r == FirstPos(CalibInstIds(p.calibs), instId)
  {
    for i := 0 to |p.calibs|
      invariant forall k | 0 <= k < i :: p.calibs[k].instId != instId
    {
      if p.calibs[i].instId == instId {
        FirstPosIs(CalibInstIds(p.calibs), instId, i);
        return Some(i);
      }
    }
    return None;
  }

  /** The body of the window loop. */
  method CheckWindow(p: Parsed, idx: PackageIndex, w: Window) returns (failures: nat)
    requires idx.Describes(p)
    ensures failures == WindowFailures(p, w)
  {
    hide Maps, NodesOf, RouteIds, WaveIds, InstIds, CalibIds;
    failures := 0;
    var r := idx.FindRoute(w.routeId, p);
    if r.None? {
      failures := failures + 1;
    }
    var found := FindInst(p.insts, w.instId);
    if found.None? {
      failures := failures + 1;
    }
    if w.calibId != 0 {
      found := FindCalib(p.calibs, w.calibId);
      if found.None? {
        failures := failures + 1;
      }
    }
    if w.waveBlockId != 0 {
      r := idx.FindWave(w.waveBlockId, p);
      if r.None? {
        failures := failures + 1;
      }
    }
  }

  /** The body of the link loop. */
  method CheckLink(p: Parsed, idx: PackageIndex, l: Link) returns (failures: nat)
    requires idx.Describes(p)
    ensures failures == LinkFailures(p, l)
  {
    hide Maps, NodesOf, RouteIds, WindowIds;
    failures := 0;
    if l.fromKind == FROM_ROUTE {
      var r := idx.FindRoute(l.fromId, p);
      if r.None? {
        failures := failures + 1;
      }
    }
    if l.toKind == TO_WINDOW {
      var r := idx.FindWindow(l.toId, p);
      if r.None? {
        failures := failures + 1;
      }
    }
  }

  /** The four table loops. */
  method CheckTables(p: Parsed, idx: PackageIndex) returns (failures: nat)
    requires idx.Describes(p)
    ensures failures == WindowTotal(p, p.windows) + MarkerTotal(p, p.markers) + WaveTotal(p, p.waves)
                        + LinkTotal(p, p.links)
  {
    hide Maps, NodesOf, WindowFailures, LinkFailures, WindowIds;
    failures := 0;
    for i := 0 to |p.windows|
      invariant failures == WindowTotal(p, p.windows[..i])
    {
      assert p.windows[..i + 1][..i] == p.windows[..i];
      var n := CheckWindow(p, idx, p.windows[i]);
      failures := failures + n;
    }
    assert p.windows[..|p.windows|] == p.windows;
    for i := 0 to |p.markers|
      invariant failures == WindowTotal(p, p.windows) + MarkerTotal(p, p.markers[..i])
    {
      assert p.markers[..i + 1][..i] == p.markers[..i];
      var w := idx.FindWindow(p.markers[i].windowId, p);
      if w.None? {
        failures := failures + 1;
      }
    }
    assert p.markers[..|p.markers|] == p.markers;
    for i := 0 to |p.waves|
      invariant failures == WindowTotal(p, p.windows) + MarkerTotal(p, p.markers) + WaveTotal(p, p.waves[..i])
    {
      assert p.waves[..i + 1][..i] == p.waves[..i];
      if p.waves[i].windowId != 0 {
        var w := idx.FindWindow(p.waves[i].windowId, p);
        if w.None? {
          failures := failures + 1;
        }
      }
    }
    assert p.waves[..|p.waves|] == p.waves;
    for i := 0 to |p.links|
      invariant failures == WindowTotal(p, p.windows) + MarkerTotal(p, p.markers) + WaveTotal(p, p.waves)
                            + LinkTotal(p, p.links[..i])
    {
      assert p.links[..i + 1][..i] == p.links[..i];
      var n := CheckLink(p, idx, p.links[i]);
      failures := failures + n;
    }
    assert p.links[..|p.links|] == p.links;
  }

  /** `rv_xref_validate`: counts the failures, and succeeds exactly when every reference resolves. */
  method Validate(p: Parsed, idx: PackageIndex) returns (st: Status, checked: nat, failures: nat)
    requires idx.Describes(p)
    ensures failures == Failures(p) && (st.Ok? <==> XrefOk(p))
    ensures checked == |p.windows| + |p.markers| + |p.waves| + |p.links|
  {
    hide Maps, NodesOf, XrefOk, RouteNamed, InstNamed, NameKnown, WindowTotal, MarkerTotal, WaveTotal, LinkTotal;
    failures := CheckTables(p, idx);
    checked := |p.windows| + |p.markers| + |p.waves| + |p.links|;
    var bad;
    st, bad := CheckRoutes(p.names, p.routes);
    if st.Failed? {
      failures := failures + 1;
    }
    st, bad := CheckInsts(p.names, p.insts);
    if st.Failed? {
      failures := failures + 1;
    }
    st, bad := CheckMarkers(p.names, p.markers);
    if st.Failed? {
      failures := failures + 1;
    }
    FailuresZero(p);
    st := if failures == 0 then Ok else Failed;
  }
}
