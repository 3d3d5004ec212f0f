/** Comparing two packages (src/internal/rv_diff.c). */
module Diff {
  import opened Types
  import opened Floats
  import opened Index
  import opened Xref

  // ----- float subtraction

  /** How a difference of two finite floats is rounded; everything below holds for every odd rounding. */
  type Rounding = real -> Value

  function Neg(v: Value): Value {
    match v
    case NaN => NaN
    case NegInf => PosInf
    case PosInf => NegInf
    case Finite(r) => Finite(-r)
  }

  /** Rounding to nearest is odd, and never gives NaN. */
  ghost predicate Odd(rnd: Rounding) {
    forall x: real :: rnd(-x) == Neg(rnd(x)) && rnd(x) != NaN
  }

  /** `y - x` */
  function Minus(rnd: Rounding, y: f32, x: f32): Value {
    match (ValueOf(y), ValueOf(x))
    case (NaN, _) => NaN
    case (_, NaN) => NaN
    case (Finite(a), Finite(b)) => rnd(a - b)
    case (PosInf, PosInf) => NaN
    case (NegInf, NegInf) => NaN
    case (PosInf, _) => PosInf
    case (NegInf, _) => NegInf
    case (_, PosInf) => NegInf
    case (_, NegInf) => PosInf
  }

  /** `if (d < 0) d = -d` */
  function Magnitude(v: Value): Value {
    if Below(v, Finite(0.0)) then Neg(v) else v
  }

  lemma MinusFlips(rnd: Rounding, y: f32, x: f32)
    requires Odd(rnd)
    ensures Minus(rnd, x, y) == Neg(Minus(rnd, y, x))
    ensures Magnitude(Minus(rnd, x, y)) == Magnitude(Minus(rnd, y, x))
  {
    hide ValueOf;
    match (ValueOf(y), ValueOf(x))
    case (Finite(a), Finite(b)) => assert b - a == -(a - b); assert rnd(-(a - b)) == Neg(rnd(a - b));
    case _ =>
  }

  lemma MinusSelf(rnd: Rounding, x: f32)
    requires Odd(rnd)
    ensures Minus(rnd, x, x) == NaN || Minus(rnd, x, x) == Finite(0.0)
  {
    hide ValueOf;
    assert rnd(-0.0) == Neg(rnd(0.0)) && rnd(0.0) != NaN;
    match ValueOf(x)
    case Finite(a) => assert a - a == 0.0 == -0.0;
    case _ =>
  }

  // ----- the report

  datatype DiffKind = Added | Removed | Changed

  datatype DiffEntry = DiffEntry(kind: DiffKind, entityKind: u32, id: u32, deltaLoss: Value, deltaDistance: Value)

  const ROUTE: u32 := 1
  const MARKER: u32 := 3

  /** An entry without deltas. */
  function Plain(kind: DiffKind, entityKind: u32, id: u32): DiffEntry {
    DiffEntry(kind, entityKind, id, Finite(0.0), Finite(0.0))
  }

  /** 0.05f */
  const LOSS_STEP := 0.0500000007450580596923828125
  const DISTANCE_STEP := 1.0

  /** The first marker with an id. */
  function FirstMarker(ms: seq<Marker>, id: u32): (r: Option<Marker>)
    ensures r.Some? ==> r.value in ms && r.value.markerId == id
    ensures r.None? ==> forall m | m in ms :: m.markerId != id
  {
    var ids := MarkerIds(ms);
    assert forall k | 0 <= k < |ms| :: ms[k].markerId == ids[k];
    var k :- FirstPos(ids, id);
    Some(ms[k])
  }

  lemma FirstMarkerIs(ms: seq<Marker>, id: u32, k: nat)
    requires k < |ms| && ms[k].markerId == id && forall j | 0 <= j < k :: ms[j].markerId != id
    ensures FirstMarker(ms, id) == Some(ms[k])
  {
    FirstPosIs(MarkerIds(ms), id, k);
  }

  predicate Differs(rnd: Rounding, a: Marker, b: Marker) {
    || Below(Finite(LOSS_STEP), Magnitude(Minus(rnd, b.lossDb, a.lossDb)))
    || Below(Finite(DISTANCE_STEP), Magnitude(Minus(rnd, b.distanceM, a.distanceM)))
    || b.severity != a.severity
  }

  /** What the report says of one left-hand marker. */
  function MarkerEntry(rnd: Rounding, m: Marker, rs: seq<Marker>): (e: Option<DiffEntry>)
    ensures e.Some? ==> e.value.id == m.markerId && e.value.entityKind == MARKER && e.value.kind != Added
  {
    match FirstMarker(rs, m.markerId)
    case None => Some(Plain(Removed, MARKER, m.markerId))
    case Some(r) =>
      if Differs(rnd, m, r) then
        Some(DiffEntry(Changed, MARKER, m.markerId, Minus(rnd, r.lossDb, m.lossDb),
                       Minus(rnd, r.distanceM, m.distanceM)))
      else None
  }

  /** The routes that the other side's index does not find. */
  function RouteEntries(rs: seq<Route>, others: seq<u32>, kind: DiffKind): (es: seq<DiffEntry>)
    ensures |es| <= |rs|
    ensures forall e :: e in es <==> exists i :: 0 <= i < |rs| && !Known(others, rs[i].routeId)
                                                 && e == Plain(kind, ROUTE, rs[i].routeId)
  {
    if rs == [] then []
    else
      var r := rs[|rs| - 1];
      RouteEntries(rs[..|rs| - 1], others, kind)
      + if Known(others, r.routeId) then [] else [Plain(kind, ROUTE, r.routeId)]
  }

  function LeftMarkers(rnd: Rounding, ls: seq<Marker>, rs: seq<Marker>): seq<DiffEntry> {
    if ls == [] then []
    else
      var e := MarkerEntry(rnd, ls[|ls| - 1], rs);
      LeftMarkers(rnd, ls[..|ls| - 1], rs) + if e.Some? then [e.value] else []
  }

  lemma {:induction false} LeftIn(rnd: Rounding, ls: seq<Marker>, rs: seq<Marker>)
    ensures forall e :: e in LeftMarkers(rnd, ls, rs) <==>
              exists i :: 0 <= i < |ls| && MarkerEntry(rnd, ls[i], rs) == Some(e)
  {
    hide MarkerEntry;
    if ls != [] {
      var n := |ls| - 1;
      LeftIn(rnd, ls[..n], rs);
      assert forall i | 0 <= i < n :: ls[..n][i] == ls[i];
    }
  }

  function NewMarkers(ls: seq<Marker>, rs: seq<Marker>): (es: seq<DiffEntry>)
    ensures |es| <= |rs|
    ensures forall e :: e in es <==> exists i :: 0 <= i < |rs| && FirstMarker(ls, rs[i].markerId).None?
                                                 && e == Plain(Added, MARKER, rs[i].markerId)
  {
    if rs == [] then []
    else
      var m := rs[|rs| - 1];
      NewMarkers(ls, rs[..|rs| - 1])
      + if FirstMarker(ls, m.markerId).None? then [Plain(Added, MARKER, m.markerId)] else []
  }

  /** The whole report, in order. */
  function DiffEntries(rnd: Rounding, l: Parsed, r: Parsed): seq<DiffEntry> {
    RouteEntries(l.routes, RouteIds(r.routes), Removed) + RouteEntries(r.routes, RouteIds(l.routes), Added)
    + LeftMarkers(rnd, l.markers, r.markers) + NewMarkers(l.markers, r.markers)
  }

  /** The number of entries of one sort. */
  function Tally(es: seq<DiffEntry>, kind: DiffKind, entityKind: u32): nat {
    if es == [] then 0
    else
      var e := es[|es| - 1];
      Tally(es[..|es| - 1], kind, entityKind) + if e.kind == kind && e.entityKind == entityKind then 1 else 0
  }

  lemma {:induction false} TallyAppend(xs: seq<DiffEntry>, ys: seq<DiffEntry>, kind: DiffKind, entityKind: u32)
    ensures Tally(xs + ys, kind, entityKind) == Tally(xs, kind, entityKind) + Tally(ys, kind, entityKind)
  {
    if ys == [] {
      assert xs + ys == xs;
    } else {
      assert (xs + ys)[..|xs + ys| - 1] == xs + ys[..|ys| - 1];
      TallyAppend(xs, ys[..|ys| - 1], kind, entityKind);
    }
  }

  // ----- the comparison as it runs

  method HasRoute(idx: PackageIndex, id: u32, ghost p: Parsed) returns (found: bool)
    requires idx.Describes(p)
    ensures found <==> Known(RouteIds(p.routes), id)
  {
    hide Maps, NodesOf, RouteIds;
    var pos := idx.FindRoute(id, p);
    return pos.Some?;
  }

  /** `rv_diff_find_marker` */
  method FindMarker(idx: PackageIndex, id: u32, ghost p: Parsed) returns (r: Option<Marker>)
    requires idx.Describes(p)
    ensures r == FirstMarker(p.markers, id)
  {
    hide Maps;
    for i := 0 to |idx.markers|
      invariant forall k | 0 <= k < i :: p.markers[k].markerId != id
    {
      if idx.markers[i].markerId == id {
        FirstMarkerIs(p.markers, id, i);
        return Some(idx.markers[i].rec);
      }
    }
    return None;
  }

  /** One of the two route loops. */
  method DiffRoutes(out: array<DiffEntry>, start: nat, a: PackageIndex, b: PackageIndex, kind: DiffKind,
                    ghost p: Parsed, ghost q: Parsed)
    returns (n: nat, count: nat)
    requires a.Describes(p) && b.Describes(q) && start + |p.routes| <= out.Length
    modifies out
    ensures n == start + count <= start + |p.routes|
    ensures out[start..n] == RouteEntries(p.routes, RouteIds(q.routes), kind) && out[..start] == old(out[..start])
  {
    hide Maps, Known, RouteIds, RouteEntries;
    n, count := start, 0;
    NoRoutes(RouteIds(q.routes), kind);
    assert p.routes[..0] == [];
    ghost var done: seq<DiffEntry> := [];
    for i := 0 to |a.routes|
      invariant a.Describes(p) && b.Describes(q) && n == start + count <= start + i
      invariant out[start..n] == done == RouteEntries(p.routes[..i], RouteIds(q.routes), kind)
      invariant out[..start] == old(out[..start])
    {
      RouteSnoc(p.routes, RouteIds(q.routes), kind, i);
      var id := a.routes[i].routeId;
      var found := HasRoute(b, id, q);
      if !found {
        done := done + [Plain(kind, ROUTE, id)];
        if n < out.Length {
          out[n] := Plain(kind, ROUTE, id);
          n := n + 1;
        }
        count := count + 1;
      }
    }
    assert p.routes[..|p.routes|] == p.routes;
  }

  lemma NoRoutes(others: seq<u32>, kind: DiffKind)
    ensures RouteEntries([], others, kind) == []
  {
  }

  lemma RouteSnoc(rs: seq<Route>, others: seq<u32>, kind: DiffKind, i: nat)
    requires i < |rs|
    ensures RouteEntries(rs[..i + 1], others, kind) ==
            if Known(others, rs[i].routeId) then RouteEntries(rs[..i], others, kind)
            else RouteEntries(rs[..i], others, kind) + [Plain(kind, ROUTE, rs[i].routeId)]
  {
    hide Known;
    assert rs[..i + 1][..i] == rs[..i];
  }

  /** The comparison of one left marker. */
  method CompareMarker(rnd: Rounding, m: Marker, b: PackageIndex, ghost q: Parsed) returns (e: Option<DiffEntry>)
    requires b.Describes(q)
    ensures e == MarkerEntry(rnd, m, q.markers)
  {
    hide Maps, NodesOf, Differs, Minus;
    var r := FindMarker(b, m.markerId, q);
    if r.None? {
      return Some(Plain(Removed, MARKER, m.markerId));
    }
    if Differs(rnd, m, r.value) {
      return Some(DiffEntry(Changed, MARKER, m.markerId, Minus(rnd, r.value.lossDb, m.lossDb),
                            Minus(rnd, r.value.distanceM, m.distanceM)));
    }
    return None;
  }

  lemma LeftSnoc(rnd: Rounding, ls: seq<Marker>, rs: seq<Marker>, i: nat)
    requires i < |ls|
    ensures var e := MarkerEntry(rnd, ls[i], rs);
            LeftMarkers(rnd, ls[..i + 1], rs) ==
            if e.Some? then LeftMarkers(rnd, ls[..i], rs) + [e.value] else LeftMarkers(rnd, ls[..i], rs)
  {
    hide MarkerEntry;
    assert ls[..i + 1][..i] == ls[..i];
  }

  lemma TallySnoc(es: seq<DiffEntry>, e: DiffEntry)
    ensures forall kind, entity ::
              Tally(es + [e], kind, entity) ==
              Tally(es, kind, entity) + if e.kind == kind && e.entityKind == entity then 1 else 0
  {
    assert (es + [e])[..|es|] == es;
  }

  /** The loop over the left markers. */
  method DiffMarkers(rnd: Rounding, out: array<DiffEntry>, start: nat, a: PackageIndex, b: PackageIndex,
                     ghost p: Parsed, ghost q: Parsed)
    returns (n: nat, removed: nat, changed: nat)
    requires a.Describes(p) && b.Describes(q) && start + |p.markers| <= out.Length
    modifies out
    ensures n == start + removed + changed <= start + |p.markers|
    ensures out[start..n] == LeftMarkers(rnd, p.markers, q.markers) && out[..start] == old(out[..start])
    ensures removed == Tally(out[start..n], Removed, MARKER) && changed == Tally(out[start..n], Changed, MARKER)
  {
    hide Maps, MarkerEntry, LeftMarkers, Tally;
    n, removed, changed := start, 0, 0;
    NoTally();
    NoLeft(rnd, q.markers);
    assert p.markers[..0] == [];
    ghost var done: seq<DiffEntry> := [];
    for i := 0 to |a.markers|
      invariant a.Describes(p) && b.Describes(q) && n == start + removed + changed <= start + i
      invariant out[start..n] == done == LeftMarkers(rnd, p.markers[..i], q.markers)
      invariant out[..start] == old(out[..start])
      invariant removed == Tally(done, Removed, MARKER) && changed == Tally(done, Changed, MARKER)
    {
      LeftSnoc(rnd, p.markers, q.markers, i);
      var e := CompareMarker(rnd, a.markers[i].rec, b, q);
      if e.Some? {
        TallySnoc(done, e.value);
        done := done + [e.value];
        if n < out.Length {
          out[n] := e.value;
          n := n + 1;
        }
        if e.value.kind == Removed {
          removed := removed + 1;
        } else {
          changed := changed + 1;
        }
      }
    }
    assert p.markers[..|p.markers|] == p.markers;
  }

  lemma NoTally()
    ensures forall kind, entity :: Tally([], kind, entity) == 0
  {
  }

  lemma NoLeft(rnd: Rounding, rs: seq<Marker>)
    ensures LeftMarkers(rnd, [], rs) == []
  {
  }

  lemma NewSnoc(ls: seq<Marker>, rs: seq<Marker>, i: nat)
    requires i < |rs|
    ensures NewMarkers(ls, rs[..i + 1]) ==
            if FirstMarker(ls, rs[i].markerId).None?
            then NewMarkers(ls, rs[..i]) + [Plain(Added, MARKER, rs[i].markerId)]
            else NewMarkers(ls, rs[..i])
  {
    assert rs[..i + 1][..i] == rs[..i];
  }

  lemma NoNew(ls: seq<Marker>)
    ensures NewMarkers(ls, []) == []
  {
  }

  /** The loop over the right markers. */
  method DiffNew(out: array<DiffEntry>, start: nat, a: PackageIndex, b: PackageIndex, ghost p: Parsed, ghost q: Parsed)
    returns (n: nat, count: nat)
    requires a.Describes(p) && b.Describes(q) && start + |q.markers| <= out.Length
    modifies out
    ensures n == start + count <= start + |q.markers|
    ensures out[start..n] == NewMarkers(p.markers, q.markers) && out[..start] == old(out[..start])
  {
    hide Maps, NewMarkers;
    n, count := start, 0;
    NoNew(p.markers);
    assert q.markers[..0] == [];
    ghost var done: seq<DiffEntry> := [];
    for i := 0 to |b.markers|
      invariant a.Describes(p) && b.Describes(q) && n == start + count <= start + i
      invariant out[start..n] == done == NewMarkers(p.markers, q.markers[..i])
      invariant out[..start] == old(out[..start])
    {
      NewSnoc(p.markers, q.markers, i);
      var id := b.markers[i].markerId;
      var m := FindMarker(a, id, p);
      if m.None? {
        done := done + [Plain(Added, MARKER, id)];
        if n < out.Length {
          out[n] := Plain(Added, MARKER, id);
          n := n + 1;
        }
        count := count + 1;
      }
    }
    assert q.markers[..|q.markers|] == q.markers;
  }

  datatype DiffReport = DiffReport(entries: seq<DiffEntry>, routesAdded: nat, routesRemoved: nat, markersAdded: nat,
                                   markersRemoved: nat, markersChanged: nat)

  /** The counters are those of the entries, and together count them all. */
  ghost predicate Counted(rep: DiffReport) {
    && rep.routesAdded == Tally(rep.entries, Added, ROUTE) && rep.routesRemoved == Tally(rep.entries, Removed, ROUTE)
    && rep.markersAdded == Tally(rep.entries, Added, MARKER)
    && rep.markersRemoved == Tally(rep.entries, Removed, MARKER)
    && rep.markersChanged == Tally(rep.entries, Changed, MARKER)
    && |rep.entries| == rep.routesAdded + rep.routesRemoved + rep.markersAdded + rep.markersRemoved + rep.markersChanged
  }

  lemma {:induction false} TallyAll(es: seq<DiffEntry>, kind: DiffKind, entityKind: u32)
    requires forall e | e in es :: e.kind == kind && e.entityKind == entityKind
    ensures Tally(es, kind, entityKind) == |es|
  {
    if es != [] {
      TallyAll(es[..|es| - 1], kind, entityKind);
    }
  }

  lemma {:induction false} TallyNone(es: seq<DiffEntry>, kind: DiffKind, entityKind: u32)
    requires forall e | e in es :: e.kind != kind || e.entityKind != entityKind
    ensures Tally(es, kind, entityKind) == 0
  {
    if es != [] {
      TallyNone(es[..|es| - 1], kind, entityKind);
    }
  }

  /** The four parts of a report, sort by sort. */
  ghost predicate OfSort(es: seq<DiffEntry>, kind: DiffKind, entityKind: u32) {
    forall e | e in es :: e.kind == kind && e.entityKind == entityKind
  }

  lemma PartTallies(rr: seq<DiffEntry>, ra: seq<DiffEntry>, ml: seq<DiffEntry>, ma: seq<DiffEntry>)
    requires OfSort(rr, Removed, ROUTE) && OfSort(ra, Added, ROUTE) && OfSort(ma, Added, MARKER)
    requires forall e | e in ml :: e.kind != Added && e.entityKind == MARKER
    ensures var es := rr + ra + ml + ma;
            && Tally(es, Removed, ROUTE) == |rr| && Tally(es, Added, ROUTE) == |ra| && Tally(es, Added, MARKER) == |ma|
            && Tally(es, Removed, MARKER) == Tally(ml, Removed, MARKER)
            && Tally(es, Changed, MARKER) == Tally(ml, Changed, MARKER)
  {
    hide Tally;
    forall kind, entity
      ensures Tally(rr + ra + ml + ma, kind, entity) ==
              Tally(rr, kind, entity) + Tally(ra, kind, entity) + Tally(ml, kind, entity) + Tally(ma, kind, entity)
    {
      TallyAppend(rr, ra, kind, entity);
      TallyAppend(rr + ra, ml, kind, entity);
      TallyAppend(rr + ra + ml, ma, kind, entity);
    }
    TallyAll(rr, Removed, ROUTE);
    TallyAll(ra, Added, ROUTE);
    TallyAll(ma, Added, MARKER);
    TallyNone(ra, Removed, ROUTE);
    TallyNone(ml, Removed, ROUTE);
    TallyNone(ma, Removed, ROUTE);
    TallyNone(rr, Added, ROUTE);
    TallyNone(ml, Added, ROUTE);
    TallyNone(ma, Added, ROUTE);
    TallyNone(rr, Added, MARKER);
    TallyNone(ra, Added, MARKER);
    TallyNone(ml, Added, MARKER);
    TallyNone(rr, Removed, MARKER);
    TallyNone(ra, Removed, MARKER);
    TallyNone(ma, Removed, MARKER);
    TallyNone(rr, Changed, MARKER);
    TallyNone(ra, Changed, MARKER);
    TallyNone(ma, Changed, MARKER);
  }

  lemma PartSorts(rnd: Rounding, l: Parsed, r: Parsed)
    ensures OfSort(RouteEntries(l.routes, RouteIds(r.routes), Removed), Removed, ROUTE)
    ensures OfSort(RouteEntries(r.routes, RouteIds(l.routes), Added), Added, ROUTE)
    ensures OfSort(NewMarkers(l.markers, r.markers), Added, MARKER)
    ensures forall e | e in LeftMarkers(rnd, l.markers, r.markers) :: e.kind != Added && e.entityKind == MARKER
  {
    hide RouteEntries, NewMarkers, LeftMarkers, RouteIds, MarkerEntry, Known;
    LeftIn(rnd, l.markers, r.markers);
  }

  /** `rv_diff_packages`: the capacity guard drops no entry, so the report is complete and its counters add up. */
  method DiffPackages(rnd: Rounding, lidx: PackageIndex, ridx: PackageIndex, ghost l: Parsed, ghost r: Parsed)
    returns (rep: DiffReport)
    requires lidx.Describes(l) && ridx.Describes(r)
    ensures rep.entries == DiffEntries(rnd, l, r) && Counted(rep)
  {
    hide Maps, NodesOf, RouteEntries, LeftMarkers, NewMarkers, RouteIds, Tally;
    NodeCounts(lidx, l);
    NodeCounts(ridx, r);
    var cap := |lidx.routes| + |ridx.routes| + |lidx.markers| + |ridx.markers| + 8;
    var out := new DiffEntry[cap](_ => Plain(Added, 0, 0));
    var n0, routesRemoved := DiffRoutes(out, 0, lidx, ridx, Removed, l, r);
    var n1, routesAdded := DiffRoutes(out, n0, ridx, lidx, Added, r, l);
    assert out[..n1] == out[..n0] + out[n0..n1];
    var n2, removed, changed := DiffMarkers(rnd, out, n1, lidx, ridx, l, r);
    assert out[..n2] == out[..n1] + out[n1..n2];
    var n, markersAdded := DiffNew(out, n2, lidx, ridx, l, r);
    assert out[..n] == out[..n2] + out[n2..n];
    rep := DiffReport(out[..n], routesAdded, routesRemoved, markersAdded, removed, changed);
    PartsCounted(rnd, l, r);
  }

  /** The tallies of a report are the lengths of its parts. */
  lemma PartsCounted(rnd: Rounding, l: Parsed, r: Parsed)
    ensures var es, ml := DiffEntries(rnd, l, r), LeftMarkers(rnd, l.markers, r.markers);
            && Tally(es, Removed, ROUTE) == |RouteEntries(l.routes, RouteIds(r.routes), Removed)|
            && Tally(es, Added, ROUTE) == |RouteEntries(r.routes, RouteIds(l.routes), Added)|
            && Tally(es, Added, MARKER) == |NewMarkers(l.markers, r.markers)|
            && Tally(es, Removed, MARKER) == Tally(ml, Removed, MARKER)
            && Tally(es, Changed, MARKER) == Tally(ml, Changed, MARKER)
  {
    hide RouteEntries, LeftMarkers, NewMarkers, RouteIds, Tally;
    PartSorts(rnd, l, r);
    PartTallies(RouteEntries(l.routes, RouteIds(r.routes), Removed), RouteEntries(r.routes, RouteIds(l.routes), Added),
                LeftMarkers(rnd, l.markers, r.markers), NewMarkers(l.markers, r.markers));
  }

  lemma NodeCounts(idx: PackageIndex, p: Parsed)
    requires idx.Describes(p)
    ensures |idx.routes| == |p.routes| && |idx.markers| == |p.markers|
  {
  }

  // ----- self-comparison

  lemma SameMarker(rnd: Rounding, m: Marker)
    requires Odd(rnd)
    ensures !Differs(rnd, m, m)
  {
    hide ValueOf, Minus, Odd;
    MinusSelf(rnd, m.lossDb);
    MinusSelf(rnd, m.distanceM);
  }

  /** No marker differs from the first one with its id. */
  ghost predicate SelfConsistent(rnd: Rounding, ms: seq<Marker>) {
    forall i | 0 <= i < |ms| ::
      var first := FirstMarker(ms, ms[i].markerId); first.Some? && !Differs(rnd, ms[i], first.value)
  }

  /** Exactly when comparing a package with itself gives an empty report: no route has id zero, which the index never
      finds, so that such a route counts as removed and as added; and no marker differs from the first one with its
      id. */
  lemma SelfDiff(rnd: Rounding, p: Parsed)
    ensures DiffEntries(rnd, p, p) == [] <==>
            (forall i | 0 <= i < |p.routes| :: p.routes[i].routeId != 0) && SelfConsistent(rnd, p.markers)
  {
    hide Differs, RouteEntries, LeftMarkers, NewMarkers;
    var ids := RouteIds(p.routes);
    LeftIn(rnd, p.markers, p.markers);
    forall i | 0 <= i < |p.markers| ensures FirstMarker(p.markers, p.markers[i].markerId).Some? {
      assert p.markers[i] in p.markers;
    }
    EmptySeq(LeftMarkers(rnd, p.markers, p.markers));
    EmptySeq(NewMarkers(p.markers, p.markers));
    forall i | 0 <= i < |p.routes| ensures Known(ids, p.routes[i].routeId) <==> p.routes[i].routeId != 0 {
      assert ids[i] == p.routes[i].routeId;
    }
    EmptySeq(RouteEntries(p.routes, ids, Removed));
    EmptySeq(RouteEntries(p.routes, ids, Added));
    if i :| 0 <= i < |p.routes| && p.routes[i].routeId == 0 {
      assert Plain(Removed, ROUTE, 0) in RouteEntries(p.routes, ids, Removed);
      assert DiffEntries(rnd, p, p) != [];
    } else {
      assert RouteEntries(p.routes, ids, Removed) == [] && RouteEntries(p.routes, ids, Added) == [];
      SelfMarkers(rnd, p.markers);
    }
  }

  lemma SelfMarkers(rnd: Rounding, ms: seq<Marker>)
    ensures LeftMarkers(rnd, ms, ms) == [] <==> SelfConsistent(rnd, ms)
  {
    hide Differs, LeftMarkers, FirstMarker;
    LeftIn(rnd, ms, ms);
    EmptySeq(LeftMarkers(rnd, ms, ms));
    forall i | 0 <= i < |ms| ensures FirstMarker(ms, ms[i].markerId).Some? {
      assert ms[i] in ms;
    }
    forall i | 0 <= i < |ms| && MarkerEntry(rnd, ms[i], ms).Some?
      ensures MarkerEntry(rnd, ms[i], ms).value in LeftMarkers(rnd, ms, ms)
    {
    }
  }

  /** With distinct marker ids only the routes matter. */
  lemma DistinctSelfDiff(rnd: Rounding, p: Parsed)
    requires Odd(rnd) && DistinctMarkers(p.markers)
    ensures DiffEntries(rnd, p, p) == [] <==> forall i | 0 <= i < |p.routes| :: p.routes[i].routeId != 0
  {
    hide Differs, Odd, FirstMarker, DiffEntries;
    SelfDiff(rnd, p);
    forall i | 0 <= i < |p.markers|
      ensures FirstMarker(p.markers, p.markers[i].markerId) == Some(p.markers[i])
      ensures !Differs(rnd, p.markers[i], p.markers[i])
    {
      FirstMarkerIs(p.markers, p.markers[i].markerId, i);
      SameMarker(rnd, p.markers[i]);
    }
  }

  /** A package that differs from itself: its one route has id zero. */
  lemma SelfDiffReports(rnd: Rounding)
    ensures var p := EMPTY_PARSED.(routes := [Route(0, 0, 0, 0, 0, 0)]); DiffEntries(rnd, p, p) != []
  {
    hide DiffEntries;
    var p := EMPTY_PARSED.(routes := [Route(0, 0, 0, 0, 0, 0)]);
    SelfDiff(rnd, p);
    assert p.routes[0].routeId == 0;
  }

  lemma EmptySeq(es: seq<DiffEntry>)
    ensures es == [] <==> forall e :: e !in es
  {
    if es != [] {
      assert es[0] in es;
    }
  }

  // ----- swapping the sides

  function FlipKind(k: DiffKind): DiffKind {
    match k case Added => Removed case Removed => Added case Changed => Changed
  }

  /** The entry that the opposite comparison has for it. */
  function Flip(e: DiffEntry): DiffEntry {
    DiffEntry(FlipKind(e.kind), e.entityKind, e.id, Neg(e.deltaLoss), Neg(e.deltaDistance))
  }

  lemma FlipTwice(e: DiffEntry)
    ensures Flip(Flip(e)) == e
  {
    NegTwice(e.deltaLoss);
    NegTwice(e.deltaDistance);
  }

  lemma NegTwice(v: Value)
    ensures Neg(Neg(v)) == v
  {
  }

  lemma FlipPlain(kind: DiffKind, entityKind: u32, id: u32)
    ensures Flip(Plain(kind, entityKind, id)) == Plain(FlipKind(kind), entityKind, id)
  {
  }

  function Flipped(es: seq<DiffEntry>): (r: seq<DiffEntry>)
    ensures |r| == |es| && forall i | 0 <= i < |es| :: r[i] == Flip(es[i])
  {
    seq(|es|, i requires 0 <= i < |es| => Flip(es[i]))
  }

  /** A flipped route part is the other route part of the opposite report, in order. */
  lemma {:induction false} RoutesFlip(rs: seq<Route>, others: seq<u32>, kind: DiffKind)
    ensures Flipped(RouteEntries(rs, others, kind)) == RouteEntries(rs, others, FlipKind(kind))
  {
    hide Known, Flip, RouteEntries;
    if rs == [] {
      NoRoutes(others, kind);
      NoRoutes(others, FlipKind(kind));
    } else {
      var n := |rs| - 1;
      assert rs[..n + 1] == rs;
      RoutesFlip(rs[..n], others, kind);
      RouteSnoc(rs, others, kind, n);
      RouteSnoc(rs, others, FlipKind(kind), n);
      FlipPlain(kind, ROUTE, rs[n].routeId);
    }
  }

  lemma FlippedSnoc(es: seq<DiffEntry>, e: DiffEntry)
    ensures Flipped(es + [e]) == Flipped(es) + [Flip(e)]
  {
    hide Flip;
  }

  /** The changed markers of a report. */
  function ChangedMarkers(rnd: Rounding, ls: seq<Marker>, rs: seq<Marker>): seq<DiffEntry> {
    if ls == [] then []
    else
      var m := ls[|ls| - 1];
      var e := MarkerEntry(rnd, m, rs);
      ChangedMarkers(rnd, ls[..|ls| - 1], rs) + if FirstMarker(rs, m.markerId).Some? && e.Some? then [e.value] else []
  }

  lemma NoChanged(rnd: Rounding, rs: seq<Marker>)
    ensures ChangedMarkers(rnd, [], rs) == []
  {
  }

  lemma ChangedSnoc(rnd: Rounding, ls: seq<Marker>, rs: seq<Marker>, i: nat)
    requires i < |ls|
    ensures var e := MarkerEntry(rnd, ls[i], rs);
            ChangedMarkers(rnd, ls[..i + 1], rs) ==
            if FirstMarker(rs, ls[i].markerId).Some? && e.Some? then ChangedMarkers(rnd, ls[..i], rs) + [e.value]
            else ChangedMarkers(rnd, ls[..i], rs)
  {
    hide MarkerEntry, FirstMarker;
    assert ls[..i + 1][..i] == ls[..i];
  }

  lemma {:induction false} ChangedIn(rnd: Rounding, ls: seq<Marker>, rs: seq<Marker>, e: DiffEntry)
    ensures e in ChangedMarkers(rnd, ls, rs) <==>
            exists i :: 0 <= i < |ls| && FirstMarker(rs, ls[i].markerId).Some? && MarkerEntry(rnd, ls[i], rs) == Some(e)
  {
    hide MarkerEntry, FirstMarker, ChangedMarkers;
    if ls == [] {
      NoChanged(rnd, rs);
    } else {
      var n := |ls| - 1;
      assert ls[..n + 1] == ls;
      ChangedIn(rnd, ls[..n], rs, e);
      ChangedSnoc(rnd, ls, rs, n);
      assert forall i | 0 <= i < n :: ls[..n][i] == ls[i];
    }
  }

  /** What a report says of the left markers: the changed ones and, flipped, what is new for the opposite comparison. */
  lemma {:induction false} LeftSplits(rnd: Rounding, ls: seq<Marker>, rs: seq<Marker>)
    ensures multiset(LeftMarkers(rnd, ls, rs)) ==
            multiset(Flipped(NewMarkers(rs, ls))) + multiset(ChangedMarkers(rnd, ls, rs))
    ensures multiset(Flipped(LeftMarkers(rnd, ls, rs))) ==
            multiset(NewMarkers(rs, ls)) + multiset(Flipped(ChangedMarkers(rnd, ls, rs)))
  {
    hide LeftMarkers, NewMarkers, ChangedMarkers, FirstMarker, Flip, Differs;
    if ls == [] {
      NoLeft(rnd, rs);
      NoNew(rs);
      NoChanged(rnd, rs);
    } else {
      var n := |ls| - 1;
      assert ls[..n + 1] == ls;
      LeftSplits(rnd, ls[..n], rs);
      LeftSnoc(rnd, ls, rs, n);
      NewSnoc(rs, ls, n);
      ChangedSnoc(rnd, ls, rs, n);
      var e := MarkerEntry(rnd, ls[n], rs);
      if e.Some? {
        FlippedSnoc(LeftMarkers(rnd, ls[..n], rs), e.value);
        FlippedSnoc(NewMarkers(rs, ls[..n]), Plain(Added, MARKER, ls[n].markerId));
        FlippedSnoc(ChangedMarkers(rnd, ls[..n], rs), e.value);
        FlipPlain(Added, MARKER, ls[n].markerId);
        FlipPlain(Removed, MARKER, ls[n].markerId);
      }
    }
  }

  /** The report of the swapped comparison, for all tables: it is the flipped report exactly when the changed markers of
      one are the flipped changed markers of the other. */
  lemma DualExactly(rnd: Rounding, l: Parsed, r: Parsed)
    ensures multiset(Flipped(DiffEntries(rnd, l, r))) == multiset(DiffEntries(rnd, r, l)) <==>
            multiset(Flipped(ChangedMarkers(rnd, l.markers, r.markers))) ==
            multiset(ChangedMarkers(rnd, r.markers, l.markers))
  {
    hide Flip, Flipped, RouteEntries, LeftMarkers, NewMarkers, ChangedMarkers, RouteIds, MarkerEntry;
    var gone := RouteEntries(l.routes, RouteIds(r.routes), Removed);
    var come := RouteEntries(r.routes, RouteIds(l.routes), Added);
    var left, added := LeftMarkers(rnd, l.markers, r.markers), NewMarkers(l.markers, r.markers);
    var left', added' := LeftMarkers(rnd, r.markers, l.markers), NewMarkers(r.markers, l.markers);
    RoutesFlip(l.routes, RouteIds(r.routes), Removed);
    RoutesFlip(r.routes, RouteIds(l.routes), Added);
    LeftSplits(rnd, l.markers, r.markers);
    LeftSplits(rnd, r.markers, l.markers);
    assert DiffEntries(rnd, l, r) == gone + come + left + added;
    assert DiffEntries(rnd, r, l) == Flipped(come) + Flipped(gone) + left' + added';
    FourFlipped(gone, come, left, added);
    var x := multiset(Flipped(ChangedMarkers(rnd, l.markers, r.markers)));
    var y := multiset(ChangedMarkers(rnd, r.markers, l.markers));
    var common := multiset(Flipped(gone)) + multiset(Flipped(come)) + multiset(added') + multiset(Flipped(added));
    assert multiset(Flipped(DiffEntries(rnd, l, r))) == common + x;
    assert multiset(DiffEntries(rnd, r, l)) == common + y;
    Cancel(common, x, y);
  }

  lemma FourFlipped(a: seq<DiffEntry>, b: seq<DiffEntry>, c: seq<DiffEntry>, d: seq<DiffEntry>)
    ensures Flipped(a + b + c + d) == Flipped(a) + Flipped(b) + Flipped(c) + Flipped(d)
  {
    hide Flip;
  }

  lemma Cancel(common: multiset<DiffEntry>, x: multiset<DiffEntry>, y: multiset<DiffEntry>)
    ensures common + x == common + y <==> x == y
  {
    if common + x == common + y {
      forall e ensures x[e] == y[e] {
        assert (common + x)[e] == (common + y)[e];
      }
    }
  }

  ghost predicate NoRepeats(es: seq<DiffEntry>) {
    forall i, j | 0 <= i < j < |es| :: es[i] != es[j]
  }

  lemma {:induction false} OnceEach(es: seq<DiffEntry>, e: DiffEntry)
    requires NoRepeats(es)
    ensures multiset(es)[e] == if e in es then 1 else 0
  {
    if es != [] {
      var n := |es| - 1;
      OnceEach(es[..n], e);
      assert es == es[..n] + [es[n]];
    }
  }

  /** Two sequences without repeats and with the same entries are permutations of one another. */
  lemma SameEntries(xs: seq<DiffEntry>, ys: seq<DiffEntry>)
    requires NoRepeats(xs) && NoRepeats(ys) && forall e :: e in xs <==> e in ys
    ensures multiset(xs) == multiset(ys)
  {
    forall e ensures multiset(xs)[e] == multiset(ys)[e] {
      OnceEach(xs, e);
      OnceEach(ys, e);
    }
  }

  /** An id that the left side repeats is not one of the right side. */
  ghost predicate RepeatsApart(ls: seq<Marker>, rs: seq<Marker>) {
    forall i, j | 0 <= i < j < |ls| && ls[i].markerId == ls[j].markerId :: FirstMarker(rs, ls[i].markerId).None?
  }

  lemma {:induction false} ChangedNoRepeats(rnd: Rounding, ls: seq<Marker>, rs: seq<Marker>)
    requires RepeatsApart(ls, rs)
    ensures NoRepeats(ChangedMarkers(rnd, ls, rs))
  {
    hide ChangedMarkers, MarkerEntry, FirstMarker;
    if ls == [] {
      NoChanged(rnd, rs);
    } else {
      var n := |ls| - 1;
      assert ls[..n + 1] == ls;
      ChangedNoRepeats(rnd, ls[..n], rs);
      ChangedSnoc(rnd, ls, rs, n);
      if FirstMarker(rs, ls[n].markerId).Some? && MarkerEntry(rnd, ls[n], rs).Some? {
        ChangedIn(rnd, ls[..n], rs, MarkerEntry(rnd, ls[n], rs).value);
      }
    }
  }

  /** What the right side says of a changed left marker, the left side says of the right one, flipped. */
  lemma ChangedFlips(rnd: Rounding, ls: seq<Marker>, rs: seq<Marker>, e: DiffEntry)
    requires Odd(rnd) && RepeatsApart(ls, rs) && e in ChangedMarkers(rnd, ls, rs)
    ensures Flip(e) in ChangedMarkers(rnd, rs, ls)
  {
    hide ValueOf, Minus, Odd, Magnitude, ChangedMarkers, FirstMarker;
    ChangedIn(rnd, ls, rs, e);
    ChangedIn(rnd, rs, ls, Flip(e));
    var i :| 0 <= i < |ls| && FirstMarker(rs, ls[i].markerId).Some? && MarkerEntry(rnd, ls[i], rs) == Some(e);
    var a, b := ls[i], FirstMarker(rs, ls[i].markerId).value;
    FirstMarkerIs(ls, a.markerId, i);
    MinusFlips(rnd, b.lossDb, a.lossDb);
    MinusFlips(rnd, b.distanceM, a.distanceM);
    var j :| 0 <= j < |rs| && rs[j] == b;
    assert MarkerEntry(rnd, rs[j], ls) == Some(Flip(e));
  }

  lemma ChangedDual(rnd: Rounding, ls: seq<Marker>, rs: seq<Marker>)
    requires Odd(rnd) && RepeatsApart(ls, rs) && RepeatsApart(rs, ls)
    ensures multiset(Flipped(ChangedMarkers(rnd, ls, rs))) == multiset(ChangedMarkers(rnd, rs, ls))
  {
    hide ChangedMarkers, Flip, RepeatsApart, Odd;
    var part, opposite := ChangedMarkers(rnd, ls, rs), ChangedMarkers(rnd, rs, ls);
    ChangedNoRepeats(rnd, ls, rs);
    ChangedNoRepeats(rnd, rs, ls);
    forall e ensures Flip(Flip(e)) == e { FlipTwice(e); }
    forall i, j | 0 <= i < j < |part| ensures Flip(part[i]) != Flip(part[j]) {
      assert Flip(Flip(part[i])) != Flip(Flip(part[j]));
    }
    forall e | e in Flipped(part) ensures e in opposite {
      var i :| 0 <= i < |part| && Flip(part[i]) == e;
      ChangedFlips(rnd, ls, rs, part[i]);
    }
    forall e | e in opposite ensures e in Flipped(part) {
      ChangedFlips(rnd, rs, ls, e);
      var i :| 0 <= i < |part| && part[i] == Flip(e);
      assert Flipped(part)[i] == e;
    }
    SameEntries(Flipped(part), opposite);
  }

  /** Duality, when no id that both sides have is repeated: swapping the sides swaps added with removed and negates the
      deltas; the flipped entries are, with their multiplicities, the entries of the opposite report. */
  lemma DiffDual(rnd: Rounding, l: Parsed, r: Parsed)
    requires Odd(rnd) && RepeatsApart(l.markers, r.markers) && RepeatsApart(r.markers, l.markers)
    ensures multiset(Flipped(DiffEntries(rnd, l, r))) == multiset(DiffEntries(rnd, r, l))
  {
    DualExactly(rnd, l, r);
    ChangedDual(rnd, l.markers, r.markers);
  }

  // ----- the counters of the opposite comparison

  lemma {:induction false} RouteCounts(rs: seq<Route>, others: seq<u32>, k1: DiffKind, k2: DiffKind)
    ensures |RouteEntries(rs, others, k1)| == |RouteEntries(rs, others, k2)|
  {
    hide Known;
    if rs != [] {
      RouteCounts(rs[..|rs| - 1], others, k1, k2);
    }
  }

  lemma {:induction false} NewAreMissing(rnd: Rounding, ls: seq<Marker>, rs: seq<Marker>)
    ensures |NewMarkers(ls, rs)| == Tally(LeftMarkers(rnd, rs, ls), Removed, MARKER)
  {
    hide Tally, LeftMarkers, NewMarkers, Differs, Minus, FirstMarker;
    NoTally();
    if rs == [] {
      NoNew(ls);
      NoLeft(rnd, ls);
    } else {
      var n := |rs| - 1;
      NewAreMissing(rnd, ls, rs[..n]);
      assert rs[..n + 1] == rs;
      NewSnoc(ls, rs, n);
      LeftSnoc(rnd, rs, ls, n);
      var e := MarkerEntry(rnd, rs[n], ls);
      if e.Some? {
        TallySnoc(LeftMarkers(rnd, rs[..n], ls), e.value);
      }
    }
  }

  lemma {:induction false} ChangedTally(rnd: Rounding, ls: seq<Marker>, rs: seq<Marker>)
    ensures Tally(LeftMarkers(rnd, ls, rs), Changed, MARKER) == |ChangedMarkers(rnd, ls, rs)|
  {
    hide Tally, LeftMarkers, ChangedMarkers, Differs, Minus, FirstMarker;
    NoTally();
    if ls == [] {
      NoLeft(rnd, rs);
      NoChanged(rnd, rs);
    } else {
      var n := |ls| - 1;
      ChangedTally(rnd, ls[..n], rs);
      assert ls[..n + 1] == ls;
      LeftSnoc(rnd, ls, rs, n);
      ChangedSnoc(rnd, ls, rs, n);
      var e := MarkerEntry(rnd, ls[n], rs);
      if e.Some? {
        TallySnoc(LeftMarkers(rnd, ls[..n], rs), e.value);
      }
    }
  }

  /** Swapping the sides swaps the counters of added and removed entries, for all tables; it keeps the number of changed
      markers when no id that both sides have is repeated. */
  lemma CountersDual(rnd: Rounding, l: Parsed, r: Parsed)
    ensures var there, back := DiffEntries(rnd, l, r), DiffEntries(rnd, r, l);
            && Tally(there, Added, ROUTE) == Tally(back, Removed, ROUTE)
            && Tally(there, Removed, ROUTE) == Tally(back, Added, ROUTE)
            && Tally(there, Added, MARKER) == Tally(back, Removed, MARKER)
            && Tally(there, Removed, MARKER) == Tally(back, Added, MARKER)
            && (Odd(rnd) && RepeatsApart(l.markers, r.markers) && RepeatsApart(r.markers, l.markers) ==>
                  Tally(there, Changed, MARKER) == Tally(back, Changed, MARKER))
  {
    hide RouteEntries, LeftMarkers, NewMarkers, RouteIds, Tally, Odd, RepeatsApart, ChangedMarkers, DiffEntries;
    PartsCounted(rnd, l, r);
    PartsCounted(rnd, r, l);
    RouteCounts(l.routes, RouteIds(r.routes), Removed, Added);
    RouteCounts(r.routes, RouteIds(l.routes), Removed, Added);
    NewAreMissing(rnd, l.markers, r.markers);
    NewAreMissing(rnd, r.markers, l.markers);
    ChangedTally(rnd, l.markers, r.markers);
    ChangedTally(rnd, r.markers, l.markers);
    if Odd(rnd) && RepeatsApart(l.markers, r.markers) && RepeatsApart(r.markers, l.markers) {
      var there, back := ChangedMarkers(rnd, l.markers, r.markers), ChangedMarkers(rnd, r.markers, l.markers);
      ChangedDual(rnd, l.markers, r.markers);
      assert |there| == |multiset(Flipped(there))| == |multiset(back)| == |back|;
    }
  }

  /** A repeated id that both sides have can break it: the second left marker is compared with the first right one, but
      no right marker with it. */
  lemma RepeatsMislead(rnd: Rounding)
    requires Odd(rnd)
    ensures var a, b := Marker(7, 0, 0, 0, 0, 0, 0, 1, 0), Marker(7, 0, 0, 0, 0, 0, 0, 2, 0);
            Tally(LeftMarkers(rnd, [a, b], [a]), Changed, MARKER) == 1
            && Tally(LeftMarkers(rnd, [a], [a, b]), Changed, MARKER) == 0
  {
    hide Odd, ValueOf, Minus, Magnitude, Tally, LeftMarkers, ChangedMarkers;
    var a, b := Marker(7, 0, 0, 0, 0, 0, 0, 1, 0), Marker(7, 0, 0, 0, 0, 0, 0, 2, 0);
    SameMarker(rnd, a);
    FirstMarkerIs([a], 7, 0);
    FirstMarkerIs([a, b], 7, 0);
    ChangedTally(rnd, [a, b], [a]);
    ChangedTally(rnd, [a], [a, b]);
    assert [a, b][..0] == [] && [a, b][..1] == [a] && [a, b][..2] == [a, b] && [a][..1] == [a] && [a][..0] == [];
    NoChanged(rnd, [a]);
    NoChanged(rnd, [a, b]);
    ChangedSnoc(rnd, [a, b], [a], 0);
    ChangedSnoc(rnd, [a, b], [a], 1);
    ChangedSnoc(rnd, [a], [a, b], 0);
  }
}
