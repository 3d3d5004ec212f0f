/** What the entries of a difference report say, in the fields of the two packages and in reals. */
module DiffMeans {
  import opened Types
  import opened Floats
  import opened Index
  import opened Xref
  import opened Diff
  import opened Positions

  // ----- markers

  /** `d` is right minus left, rounded; infinities and NaN as in IEEE 754. */
  ghost predicate IsGap(rnd: Rounding, right: Value, left: Value, d: Value) {
    && (right.Finite? && left.Finite? ==> d == rnd(right.r - left.r))
    && (right.NaN? || left.NaN? || (!right.Finite? && right == left) ==> d.NaN?)
    && (right.PosInf? && (left.Finite? || left.NegInf?) ==> d.PosInf?)
    && (right.NegInf? && (left.Finite? || left.PosInf?) ==> d.NegInf?)
    && (right.Finite? && left.PosInf? ==> d.NegInf?)
    && (right.Finite? && left.NegInf? ==> d.PosInf?)
  }

  /** In magnitude above a bound: never so for NaN. */
  ghost predicate Beyond(d: Value, bound: real) {
    d.PosInf? || d.NegInf? || (d.Finite? && (d.r > bound || d.r < -bound))
  }

  /** Position `j` is the first with the id. */
  ghost predicate FirstMatch(ms: seq<Marker>, id: u32, j: nat) {
    j < |ms| && ms[j].markerId == id && forall i | 0 <= i < j :: ms[i].markerId != id
  }

  ghost predicate Absent(ms: seq<Marker>, id: u32) {
    forall j | 0 <= j < |ms| :: ms[j].markerId != id
  }

  /** The deltas of a left and a right marker. */
  ghost predicate Deltas(rnd: Rounding, m: Marker, r: Marker, loss: Value, distance: Value) {
    && IsGap(rnd, ValueOf(r.lossDb), ValueOf(m.lossDb), loss)
    && IsGap(rnd, ValueOf(r.distanceM), ValueOf(m.distanceM), distance)
  }

  /** 0.05 as a 32-bit float, one metre, or another severity. */
  ghost predicate Apart(m: Marker, r: Marker, loss: Value, distance: Value) {
    Beyond(loss, 0.0500000007450580596923828125) || Beyond(distance, 1.0) || m.severity != r.severity
  }

  /** A left marker is reported when no right marker has its id, or when the first one that has it is apart. */
  ghost predicate Listed(rnd: Rounding, m: Marker, rs: seq<Marker>) {
    forall j: nat, loss, distance | FirstMatch(rs, m.markerId, j) && Deltas(rnd, m, rs[j], loss, distance) ::
      Apart(m, rs[j], loss, distance)
  }

  /** The entry of a left marker that is reported. */
  ghost predicate IsLine(rnd: Rounding, m: Marker, rs: seq<Marker>, e: DiffEntry) {
    && e.id == m.markerId && e.entityKind == 3
    && if Absent(rs, m.markerId) then e.kind.Removed? && e.deltaLoss == Finite(0.0) && e.deltaDistance == Finite(0.0)
       else
         && e.kind.Changed?
         && exists j: nat :: FirstMatch(rs, m.markerId, j) && Deltas(rnd, m, rs[j], e.deltaLoss, e.deltaDistance)
  }

  lemma MinusIsGap(rnd: Rounding, y: f32, x: f32)
    ensures forall d :: IsGap(rnd, ValueOf(y), ValueOf(x), d) <==> d == Minus(rnd, y, x)
  {
    hide ValueOf;
  }

  lemma BeyondIs(d: Value, bound: real)
    requires bound > 0.0
    ensures Below(Finite(bound), Magnitude(d)) <==> Beyond(d, bound)
  {
  }

  lemma FirstMatchIs(ms: seq<Marker>, id: u32)
    ensures Absent(ms, id) <==> FirstMarker(ms, id).None?
    ensures !Absent(ms, id) ==> exists j: nat :: FirstMatch(ms, id, j)
    ensures forall j: nat :: FirstMatch(ms, id, j) ==> FirstMarker(ms, id) == Some(ms[j])
  {
    hide FirstMarker;
    forall j: nat | FirstMatch(ms, id, j) ensures FirstMarker(ms, id) == Some(ms[j]) {
      FirstMarkerIs(ms, id, j);
    }
    if !Absent(ms, id) {
      var ids := MarkerIds(ms);
      assert forall k | 0 <= k < |ms| :: ms[k].markerId == ids[k];
      var j := FirstPos(ids, id).value;
      assert FirstMatch(ms, id, j);
    }
  }

  /** What the report says of a left marker. */
  lemma LineMeans(rnd: Rounding, m: Marker, rs: seq<Marker>)
    ensures MarkerEntry(rnd, m, rs).Some? <==> Listed(rnd, m, rs)
    ensures MarkerEntry(rnd, m, rs).Some? ==> IsLine(rnd, m, rs, MarkerEntry(rnd, m, rs).value)
  {
    FirstMatchIs(rs, m.markerId);
    hide FirstMarker, FirstMatch, Absent, Minus, IsGap, Beyond, Magnitude, Below, ValueOf;
    var found := FirstMarker(rs, m.markerId);
    if found.Some? {
      var r := found.value;
      MinusIsGap(rnd, r.lossDb, m.lossDb);
      MinusIsGap(rnd, r.distanceM, m.distanceM);
      var loss, distance := Minus(rnd, r.lossDb, m.lossDb), Minus(rnd, r.distanceM, m.distanceM);
      BeyondIs(loss, LOSS_STEP);
      BeyondIs(distance, DISTANCE_STEP);
      assert Deltas(rnd, m, r, loss, distance);
    }
  }

  // ----- the four parts

  /** The parts of a report: an entry for each listed position, in order. */
  ghost predicate LeftLines(rnd: Rounding, ls: seq<Marker>, rs: seq<Marker>, es: seq<DiffEntry>, ks: seq<nat>) {
    && |es| == |ks| && Ascending(ks, |ls|)
    && (forall k: nat | k < |ls| :: k in ks <==> Listed(rnd, ls[k], rs))
    && (forall i | 0 <= i < |ks| :: IsLine(rnd, ls[ks[i]], rs, es[i]))
  }

  /** The markers of one side that the other does not have. */
  ghost predicate NewLines(ls: seq<Marker>, rs: seq<Marker>, es: seq<DiffEntry>, ks: seq<nat>) {
    && |es| == |ks| && Ascending(ks, |rs|)
    && (forall k: nat | k < |rs| :: k in ks <==> Absent(ls, rs[k].markerId))
    && (forall i | 0 <= i < |ks| :: es[i] == DiffEntry(Added, 3, rs[ks[i]].markerId, Finite(0.0), Finite(0.0)))
  }

  /** Id zero is never found. */
  ghost predicate NoRoute(rs: seq<Route>, id: u32) {
    id == 0 || forall j | 0 <= j < |rs| :: rs[j].routeId != id
  }

  ghost predicate RouteLines(rs: seq<Route>, others: seq<Route>, kind: DiffKind, es: seq<DiffEntry>, ks: seq<nat>) {
    && |es| == |ks| && Ascending(ks, |rs|)
    && (forall k: nat | k < |rs| :: k in ks <==> NoRoute(others, rs[k].routeId))
    && (forall i | 0 <= i < |ks| :: es[i] == DiffEntry(kind, 1, rs[ks[i]].routeId, Finite(0.0), Finite(0.0)))
  }

  lemma {:induction false} LeftLinesAre(rnd: Rounding, ls: seq<Marker>, rs: seq<Marker>) returns (ks: seq<nat>)
    ensures LeftLines(rnd, ls, rs, LeftMarkers(rnd, ls, rs), ks)
  {
    hide MarkerEntry, Listed, IsLine;
    ks := [];
    if ls != [] {
      var n := |ls| - 1;
      var before := LeftLinesAre(rnd, ls[..n], rs);
      LineMeans(rnd, ls[n], rs);
      AscendingMore(before, n);
      ks := if Listed(rnd, ls[n], rs) then before + [n] else before;
    }
  }

  lemma NewLinesNext(ls: seq<Marker>, rs: seq<Marker>, es: seq<DiffEntry>, ks: seq<nat>)
    requires rs != [] && NewLines(ls, rs[..|rs| - 1], es, ks)
    ensures var m := rs[|rs| - 1];
            if Absent(ls, m.markerId)
            then NewLines(ls, rs, es + [DiffEntry(Added, 3, m.markerId, Finite(0.0), Finite(0.0))], ks + [|rs| - 1])
            else NewLines(ls, rs, es, ks)
  {
    hide Absent;
    AscendingMore(ks, |rs| - 1);
  }

  lemma {:induction false} NewLinesAre(ls: seq<Marker>, rs: seq<Marker>) returns (ks: seq<nat>)
    ensures NewLines(ls, rs, NewMarkers(ls, rs), ks)
  {
    ks := [];
    if rs == [] {
      NoNew(ls);
    } else {
      hide FirstMarker, Absent, NewLines, NewMarkers;
      var n := |rs| - 1;
      var before := NewLinesAre(ls, rs[..n]);
      NewSnoc(ls, rs, n);
      assert rs[..n + 1] == rs;
      FirstMatchIs(ls, rs[n].markerId);
      NewLinesNext(ls, rs, NewMarkers(ls, rs[..n]), before);
      ks := if Absent(ls, rs[n].markerId) then before + [n] else before;
    }
  }

  lemma NoRouteIs(rs: seq<Route>, id: u32)
    ensures NoRoute(rs, id) <==> !Known(RouteIds(rs), id)
  {
    var ids := RouteIds(rs);
    assert forall j | 0 <= j < |rs| :: ids[j] == rs[j].routeId;
  }

  lemma RouteLinesNext(rs: seq<Route>, others: seq<Route>, kind: DiffKind, es: seq<DiffEntry>, ks: seq<nat>)
    requires rs != [] && RouteLines(rs[..|rs| - 1], others, kind, es, ks)
    ensures var id := rs[|rs| - 1].routeId;
            if NoRoute(others, id)
            then RouteLines(rs, others, kind, es + [DiffEntry(kind, 1, id, Finite(0.0), Finite(0.0))], ks + [|rs| - 1])
            else RouteLines(rs, others, kind, es, ks)
  {
    hide NoRoute;
    AscendingMore(ks, |rs| - 1);
  }

  lemma {:induction false} RouteLinesAre(rs: seq<Route>, others: seq<Route>, kind: DiffKind) returns (ks: seq<nat>)
    ensures RouteLines(rs, others, kind, RouteEntries(rs, RouteIds(others), kind), ks)
  {
    ks := [];
    if rs == [] {
      NoRoutes(RouteIds(others), kind);
    } else {
      hide Known, NoRoute, RouteIds, RouteLines, RouteEntries;
      var n := |rs| - 1;
      var before := RouteLinesAre(rs[..n], others, kind);
      RouteSnoc(rs, RouteIds(others), kind, n);
      assert rs[..n + 1] == rs;
      NoRouteIs(others, rs[n].routeId);
      RouteLinesNext(rs, others, kind, RouteEntries(rs[..n], RouteIds(others), kind), before);
      ks := if NoRoute(others, rs[n].routeId) then before + [n] else before;
    }
  }

  // ----- the report

  /** The parts of a report, one after the other. */
  ghost predicate IsReport(rnd: Rounding, l: Parsed, r: Parsed, es: seq<DiffEntry>, removed: seq<DiffEntry>,
                           added: seq<DiffEntry>, left: seq<DiffEntry>, right: seq<DiffEntry>) {
    && es == removed + added + left + right
    && (exists ks :: RouteLines(l.routes, r.routes, Removed, removed, ks))
    && (exists ks :: RouteLines(r.routes, l.routes, Added, added, ks))
    && (exists ks :: LeftLines(rnd, l.markers, r.markers, left, ks))
    && (exists ks :: NewLines(l.markers, r.markers, right, ks))
  }

  /** The number of entries of a sort. */
  ghost function Sort(es: seq<DiffEntry>, kind: DiffKind, entityKind: u32): set<int> {
    set i | 0 <= i < |es| && es[i].kind == kind && es[i].entityKind == entityKind
  }

  lemma SortMore(es: seq<DiffEntry>, e: DiffEntry, kind: DiffKind, entityKind: u32)
    ensures Sort(es + [e], kind, entityKind) ==
            Sort(es, kind, entityKind) + if e.kind == kind && e.entityKind == entityKind then {|es|} else {}
  {
  }

  lemma {:induction false} TallySorts(es: seq<DiffEntry>, kind: DiffKind, entityKind: u32)
    ensures Tally(es, kind, entityKind) == |Sort(es, kind, entityKind)|
  {
    if es != [] {
      var n := |es| - 1;
      TallySorts(es[..n], kind, entityKind);
      assert es[..n] + [es[n]] == es;
      SortMore(es[..n], es[n], kind, entityKind);
    }
  }

  /** The report of two packages: the removed routes, the added routes, the left markers that are gone or changed, and
      the new right markers, each in table order. */
  lemma ReportMeans(rnd: Rounding, l: Parsed, r: Parsed)
    ensures exists removed, added, left, right ::
              IsReport(rnd, l, r, DiffEntries(rnd, l, r), removed, added, left, right)
  {
    hide RouteEntries, LeftMarkers, NewMarkers, RouteLines, LeftLines, NewLines;
    var k0 := RouteLinesAre(l.routes, r.routes, Removed);
    var k1 := RouteLinesAre(r.routes, l.routes, Added);
    var k2 := LeftLinesAre(rnd, l.markers, r.markers);
    var k3 := NewLinesAre(l.markers, r.markers);
    assert IsReport(rnd, l, r, DiffEntries(rnd, l, r), RouteEntries(l.routes, RouteIds(r.routes), Removed),
                    RouteEntries(r.routes, RouteIds(l.routes), Added), LeftMarkers(rnd, l.markers, r.markers),
                    NewMarkers(l.markers, r.markers));
  }

  // ----- finite values

  /** Losses and distances are numbers. */
  ghost predicate FiniteMarkers(ms: seq<Marker>) {
    forall i | 0 <= i < |ms| :: ValueOf(ms[i].lossDb).Finite? && ValueOf(ms[i].distanceM).Finite?
  }

  /** The left marker became the right one, and `e` says so. */
  ghost predicate Became(rnd: Rounding, m: Marker, r: Marker, e: DiffEntry)
    requires ValueOf(m.lossDb).Finite? && ValueOf(m.distanceM).Finite?
    requires ValueOf(r.lossDb).Finite? && ValueOf(r.distanceM).Finite?
  {
    var loss := rnd(ValueOf(r.lossDb).r - ValueOf(m.lossDb).r);
    var distance := rnd(ValueOf(r.distanceM).r - ValueOf(m.distanceM).r);
    && e == DiffEntry(Changed, 3, m.markerId, loss, distance)
    && (Beyond(loss, 0.0500000007450580596923828125) || Beyond(distance, 1.0) || m.severity != r.severity)
  }

  /** The same of left marker `i` and its first match, right marker `j`. */
  ghost predicate ChangedTo(rnd: Rounding, ls: seq<Marker>, rs: seq<Marker>, i: nat, j: nat, e: DiffEntry)
    requires FiniteMarkers(ls) && FiniteMarkers(rs)
  {
    i < |ls| && FirstMatch(rs, ls[i].markerId, j) && Became(rnd, ls[i], rs[j], e)
  }

  lemma BecameIs(rnd: Rounding, m: Marker, r: Marker, e: DiffEntry)
    requires ValueOf(m.lossDb).Finite? && ValueOf(m.distanceM).Finite?
    requires ValueOf(r.lossDb).Finite? && ValueOf(r.distanceM).Finite?
    ensures Became(rnd, m, r, e) <==>
            && Differs(rnd, m, r)
            && e == DiffEntry(Changed, 3, m.markerId, Minus(rnd, r.lossDb, m.lossDb),
                              Minus(rnd, r.distanceM, m.distanceM))
  {
    hide ValueOf, Beyond, Below, Magnitude;
    BeyondIs(Minus(rnd, r.lossDb, m.lossDb), LOSS_STEP);
    BeyondIs(Minus(rnd, r.distanceM, m.distanceM), DISTANCE_STEP);
  }

  lemma ChangeMeans(rnd: Rounding, ls: seq<Marker>, rs: seq<Marker>, i: nat, e: DiffEntry)
    requires FiniteMarkers(ls) && FiniteMarkers(rs) && i < |ls| && e.kind.Changed?
    ensures MarkerEntry(rnd, ls[i], rs) == Some(e) <==> exists j: nat :: ChangedTo(rnd, ls, rs, i, j, e)
  {
    FirstMatchIs(rs, ls[i].markerId);
    hide FirstMarker, Absent, Minus, Differs, ValueOf, Became;
    if j: nat :| FirstMatch(rs, ls[i].markerId, j) {
      BecameIs(rnd, ls[i], rs[j], e);
      assert FirstMarker(rs, ls[i].markerId) == Some(rs[j]);
      if MarkerEntry(rnd, ls[i], rs) == Some(e) {
        assert ChangedTo(rnd, ls, rs, i, j, e);
      }
      forall k: nat | ChangedTo(rnd, ls, rs, i, k, e) ensures k == j {
        OneMatch(rs, ls[i].markerId, j, k);
      }
    }
  }

  lemma OneMatch(ms: seq<Marker>, id: u32, j: nat, k: nat)
    requires FirstMatch(ms, id, j) && FirstMatch(ms, id, k)
    ensures j == k
  {
  }

  /** Between finite values, the changes reported are exactly these. */
  lemma ChangesExactly(rnd: Rounding, l: Parsed, r: Parsed)
    requires FiniteMarkers(l.markers) && FiniteMarkers(r.markers)
    ensures forall e: DiffEntry | e.kind.Changed? ::
              e in DiffEntries(rnd, l, r) <==> exists i: nat, j: nat :: ChangedTo(rnd, l.markers, r.markers, i, j, e)
  {
    hide DiffEntries, LeftMarkers, ChangedTo, FiniteMarkers, MarkerEntry;
    LeftIn(rnd, l.markers, r.markers);
    forall e: DiffEntry | e.kind.Changed?
      ensures e in DiffEntries(rnd, l, r) <==> exists i: nat, j: nat :: ChangedTo(rnd, l.markers, r.markers, i, j, e)
    {
      PartOf(rnd, l, r, e);
      if i :| 0 <= i < |l.markers| && MarkerEntry(rnd, l.markers[i], r.markers) == Some(e) {
        ChangeMeans(rnd, l.markers, r.markers, i, e);
      }
      if i: nat, j: nat :| ChangedTo(rnd, l.markers, r.markers, i, j, e) {
        ChangedInside(rnd, l.markers, r.markers, i, j, e);
        ChangeMeans(rnd, l.markers, r.markers, i, e);
      }
    }
  }

  lemma ChangedInside(rnd: Rounding, ls: seq<Marker>, rs: seq<Marker>, i: nat, j: nat, e: DiffEntry)
    requires FiniteMarkers(ls) && FiniteMarkers(rs) && ChangedTo(rnd, ls, rs, i, j, e)
    ensures i < |ls|
  {
  }

  /** The part of the report in which an entry stands. */
  lemma PartOf(rnd: Rounding, l: Parsed, r: Parsed, e: DiffEntry)
    ensures e in DiffEntries(rnd, l, r) <==>
            || e in RouteEntries(l.routes, RouteIds(r.routes), Removed)
            || e in RouteEntries(r.routes, RouteIds(l.routes), Added)
            || e in LeftMarkers(rnd, l.markers, r.markers) || e in NewMarkers(l.markers, r.markers)
    ensures e in RouteEntries(l.routes, RouteIds(r.routes), Removed) ==> e.kind == Removed && e.entityKind == 1
    ensures e in RouteEntries(r.routes, RouteIds(l.routes), Added) ==> e.kind == Added && e.entityKind == 1
    ensures e in LeftMarkers(rnd, l.markers, r.markers) ==> e.kind != Added && e.entityKind == 3
    ensures e in NewMarkers(l.markers, r.markers) ==> e.kind == Added && e.entityKind == 3
  {
    hide RouteEntries, LeftMarkers, NewMarkers, RouteIds;
    PartSorts(rnd, l, r);
  }

  // ----- what only one side has

  ghost predicate HasRoute(rs: seq<Route>, id: u32) {
    exists i :: 0 <= i < |rs| && rs[i].routeId == id
  }

  ghost predicate HasMarker(ms: seq<Marker>, id: u32) {
    exists i :: 0 <= i < |ms| && ms[i].markerId == id
  }

  /** An entry without deltas. */
  ghost predicate IsBare(e: DiffEntry, kind: DiffKind, entityKind: u32) {
    e == DiffEntry(kind, entityKind, e.id, Finite(0.0), Finite(0.0))
  }

  lemma RouteIn(rs: seq<Route>, others: seq<Route>, kind: DiffKind, e: DiffEntry)
    ensures e in RouteEntries(rs, RouteIds(others), kind) <==>
            IsBare(e, kind, 1) && HasRoute(rs, e.id) && (e.id == 0 || !HasRoute(others, e.id))
  {
    hide Known, RouteIds;
    NoRouteIs(others, e.id);
  }

  lemma NewIn(ls: seq<Marker>, rs: seq<Marker>, e: DiffEntry)
    ensures e in NewMarkers(ls, rs) <==> IsBare(e, Added, 3) && HasMarker(rs, e.id) && !HasMarker(ls, e.id)
  {
    FirstMatchIs(ls, e.id);
    hide FirstMarker;
  }

  lemma GoneIn(rnd: Rounding, ls: seq<Marker>, rs: seq<Marker>, e: DiffEntry)
    ensures e in LeftMarkers(rnd, ls, rs) && e.kind != Changed <==>
            IsBare(e, Removed, 3) && HasMarker(ls, e.id) && !HasMarker(rs, e.id)
  {
    hide FirstMarker, LeftMarkers, Differs, Minus;
    LeftIn(rnd, ls, rs);
    FirstMatchIs(rs, e.id);
  }

  /** The entry of an id that one side has and the other does not; a route id zero is never found. */
  ghost predicate OneSided(l: Parsed, r: Parsed, e: DiffEntry) {
    || (IsBare(e, Removed, 1) && HasRoute(l.routes, e.id) && (e.id == 0 || !HasRoute(r.routes, e.id)))
    || (IsBare(e, Added, 1) && HasRoute(r.routes, e.id) && (e.id == 0 || !HasRoute(l.routes, e.id)))
    || (IsBare(e, Removed, 3) && HasMarker(l.markers, e.id) && !HasMarker(r.markers, e.id))
    || (IsBare(e, Added, 3) && HasMarker(r.markers, e.id) && !HasMarker(l.markers, e.id))
  }

  /** The removals and additions reported are exactly these. */
  lemma OneSidedExactly(rnd: Rounding, l: Parsed, r: Parsed, e: DiffEntry)
    requires e.kind != Changed
    ensures e in DiffEntries(rnd, l, r) <==> OneSided(l, r, e)
  {
    hide DiffEntries, LeftMarkers, NewMarkers, RouteEntries, RouteIds, HasRoute, HasMarker;
    PartOf(rnd, l, r, e);
    RouteIn(l.routes, r.routes, Removed, e);
    RouteIn(r.routes, l.routes, Added, e);
    GoneIn(rnd, l.markers, r.markers, e);
    NewIn(l.markers, r.markers, e);
  }

  // ----- the comparison as it runs

  /** `rv_diff_packages`, entry by entry. */
  method ReportPackages(rnd: Rounding, lidx: PackageIndex, ridx: PackageIndex, ghost l: Parsed, ghost r: Parsed)
    returns (rep: DiffReport)
    requires lidx.Describes(l) && ridx.Describes(r)
    ensures exists removed, added, left, right :: IsReport(rnd, l, r, rep.entries, removed, added, left, right)
    ensures rep.routesRemoved == |Sort(rep.entries, Removed, 1)| && rep.routesAdded == |Sort(rep.entries, Added, 1)|
    ensures rep.markersRemoved == |Sort(rep.entries, Removed, 3)| && rep.markersAdded == |Sort(rep.entries, Added, 3)|
    ensures rep.markersChanged == |Sort(rep.entries, Changed, 3)|
    ensures forall e: DiffEntry | !e.kind.Changed? :: e in rep.entries <==> OneSided(l, r, e)
    ensures FiniteMarkers(l.markers) && FiniteMarkers(r.markers) ==>
              forall e: DiffEntry | e.kind.Changed? ::
                e in rep.entries <==> exists i: nat, j: nat :: ChangedTo(rnd, l.markers, r.markers, i, j, e)
  {
    hide Sort, Tally, IsReport, DiffEntries, Maps, OneSided, FiniteMarkers, ChangedTo;
    rep := DiffPackages(rnd, lidx, ridx, l, r);
    ReportMeans(rnd, l, r);
    forall kind, entity: u32 ensures Tally(rep.entries, kind, entity) == |Sort(rep.entries, kind, entity)| {
      TallySorts(rep.entries, kind, entity);
    }
    forall e: DiffEntry | !e.kind.Changed? ensures e in rep.entries <==> OneSided(l, r, e) {
      OneSidedExactly(rnd, l, r, e);
    }
    if FiniteMarkers(l.markers) && FiniteMarkers(r.markers) {
      ChangesExactly(rnd, l, r);
    }
  }
}
