/** What queries deliver, in the fields of the tables and in reals. */
module QueryMeans {
  import opened Types
  import opened Floats
  import opened Index
  import opened Positions
  import opened Traces
  import Session

  // ----- the selection

  /** The id leads to window `k`: the last one that has it. */
  ghost predicate LeadsToWindow(ws: seq<Window>, id: u32, k: nat) {
    id != 0 && k < |ws| && ws[k].windowId == id && forall j | k < j < |ws| :: ws[j].windowId != id
  }

  ghost predicate IsZero(x: f32) {
    ValueOf(x).Finite? && ValueOf(x).r == 0.0
  }

  /** The distance bounds ask nothing when both are zero, and the upper one also when it is not positive. */
  ghost predicate WithinBounds(f: Filter, m: Marker) {
    || (IsZero(f.minDistanceM) && IsZero(f.maxDistanceM))
    || (&& !IsLess(ValueOf(m.distanceM), ValueOf(f.minDistanceM))
        && (IsLess(Finite(0.0), ValueOf(f.maxDistanceM)) ==> !IsLess(ValueOf(f.maxDistanceM), ValueOf(m.distanceM))))
  }

  /** The conditions of a filter, where zero asks nothing. */
  ghost predicate Wanted(ws: seq<Window>, f: Filter, m: Marker) {
    && (f.markerKind != 0 ==> m.kind == f.markerKind)
    && m.severity >= f.minSeverity
    && WithinBounds(f, m)
    && (f.routeId != 0 ==> exists k: nat :: LeadsToWindow(ws, m.windowId, k) && ws[k].routeId == f.routeId)
    && (f.instrumentId != 0 ==> exists k: nat :: LeadsToWindow(ws, m.windowId, k) && ws[k].instId == f.instrumentId)
  }

  /** `all` are the positions of the wanted markers. */
  ghost predicate Selects(p: Parsed, f: Filter, all: seq<nat>) {
    Ascending(all, |p.markers|) && forall k: nat | k < |p.markers| :: k in all <==> Wanted(p.windows, f, p.markers[k])
  }

  ghost predicate InfoFrom(i: MarkerInfo, m: Marker) {
    && i.markerId == m.markerId && i.windowId == m.windowId && i.distanceM == m.distanceM
    && i.kind == m.kind && i.severity == m.severity && i.labelNameId == m.labelNameId
  }

  lemma WindowIsLast(p: Parsed, id: u32)
    ensures WindowOf(p, id).Some? <==> exists k: nat :: LeadsToWindow(p.windows, id, k)
    ensures forall k: nat :: LeadsToWindow(p.windows, id, k) ==> WindowOf(p, id) == Some(p.windows[k])
  {
    hide LastPos;
    forall k: nat ensures LeadsToWindow(p.windows, id, k) <==> LastPos(WindowIds(p.windows), id) == Some(k) {
      WindowLast(p, id, k);
    }
    if WindowOf(p, id).Some? {
      assert LeadsToWindow(p.windows, id, LastPos(WindowIds(p.windows), id).value);
    }
  }

  lemma BoundsMean(f: Filter, m: Marker)
    ensures WithinBounds(f, m) <==>
            (NonZero(f.minDistanceM) || NonZero(f.maxDistanceM) ==>
               && !Lt(m.distanceM, f.minDistanceM)
               && !(Lt(ZERO, f.maxDistanceM) && Lt(f.maxDistanceM, m.distanceM)))
  {
    FloatConstants();
    hide ValueOf, Below;
    BelowExactly(ValueOf(m.distanceM), ValueOf(f.minDistanceM));
    BelowExactly(ValueOf(f.maxDistanceM), ValueOf(m.distanceM));
    BelowExactly(Finite(0.0), ValueOf(f.maxDistanceM));
  }

  lemma WantedExactly(p: Parsed, f: Filter, m: Marker)
    ensures Wanted(p.windows, f, m) <==> Matches(p, Some(f), m)
  {
    hide LeadsToWindow, WindowOf, WithinBounds, NonZero, Lt;
    BoundsMean(f, m);
    WindowIsLast(p, m.windowId);
    if WindowOf(p, m.windowId).Some? {
      var k: nat :| LeadsToWindow(p.windows, m.windowId, k);
      WindowInside(p.windows, m.windowId, k);
      forall j: nat | LeadsToWindow(p.windows, m.windowId, j) ensures j < |p.windows| {
        WindowInside(p.windows, m.windowId, j);
      }
    }
  }

  lemma WindowInside(ws: seq<Window>, id: u32, k: nat)
    requires LeadsToWindow(ws, id, k)
    ensures k < |ws|
  {
  }

  /** `ks` are the wanted ones among the first `n` positions. */
  ghost predicate WantedBelow(p: Parsed, f: Filter, n: nat, ks: seq<nat>)
    requires n <= |p.markers|
  {
    forall k: nat | k < n :: k in ks <==> Wanted(p.windows, f, p.markers[k])
  }

  lemma WantedMore(p: Parsed, f: Filter, n: nat, ks: seq<nat>)
    requires n < |p.markers| && WantedBelow(p, f, n, ks) && n !in ks
    ensures WantedBelow(p, f, n + 1, if Wanted(p.windows, f, p.markers[n]) then ks + [n] else ks)
  {
    hide Wanted;
  }

  /** The markers selected from the first `n`. */
  lemma {:induction false} SelectedAt(p: Parsed, f: Filter, n: nat) returns (ks: seq<nat>)
    requires n <= |p.markers|
    ensures TakenAt(p.markers[..n], ks, Selected(p, Some(f), n)) && WantedBelow(p, f, n, ks)
  {
    ks := [];
    if n > 0 {
      var before := SelectedAt(p, f, n - 1);
      SelectedNext(p, f, n);
      hide TakenAt, Wanted, Selected, WantedBelow;
      TakenNext(p.markers, n - 1, before, Selected(p, Some(f), n - 1));
      WantedMore(p, f, n - 1, before);
      ks := if Wanted(p.windows, f, p.markers[n - 1]) then before + [n - 1] else before;
    }
  }

  lemma SelectedNext(p: Parsed, f: Filter, n: nat)
    requires 0 < n <= |p.markers|
    ensures Selected(p, Some(f), n) ==
            if Wanted(p.windows, f, p.markers[n - 1]) then Selected(p, Some(f), n - 1) + [p.markers[n - 1]]
            else Selected(p, Some(f), n - 1)
  {
    hide Wanted, Matches;
    WantedExactly(p, f, p.markers[n - 1]);
  }

  // ----- what a query finds

  /** The window id leads to a window whose block id leads to a block. */
  ghost predicate HasWave(p: Parsed, id: u32) {
    exists w: nat, k: nat :: Resolves(p, id, w, k)
  }

  /** `ks` are the positions found: the first `limit` wanted ones, 1024 when no limit is given, and of them those whose
      wave exists when that is asked for. */
  ghost predicate Finds(p: Parsed, f: Filter, requireWave: bool, limit: u32, ks: seq<nat>) {
    exists all ::
      && Selects(p, f, all)
      && Ascending(ks, |p.markers|)
      && forall k: nat :: k in ks <==>
           && k in all[..if limit == 0 && |all| > 1024 then 1024 else if 0 < limit < |all| then limit else |all|]
           && k < |p.markers| && (requireWave ==> HasWave(p, p.markers[k].windowId))
  }

  /** The rows for these positions. */
  ghost predicate RowsAt(p: Parsed, ks: seq<nat>, infos: seq<MarkerInfo>) {
    |infos| == |ks| && forall i | 0 <= i < |ks| :: ks[i] < |p.markers| && InfoFrom(infos[i], p.markers[ks[i]])
  }

  lemma ResolvingNext(p: Parsed, infos: seq<MarkerInfo>)
    requires infos != []
    ensures Resolving(p, infos) ==
            if HasWave(p, infos[|infos| - 1].windowId) then Resolving(p, infos[..|infos| - 1]) + [infos[|infos| - 1]]
            else Resolving(p, infos[..|infos| - 1])
  {
    hide HasWave, WaveResolves;
    WaveIs(p, infos[|infos| - 1].windowId);
  }

  lemma WaveIs(p: Parsed, id: u32)
    ensures HasWave(p, id) <==> WaveResolves(p, id)
  {
    SoughtMoves(p, Session.Position(0, 0), id);
  }

  lemma RowsSnoc(p: Parsed, ks: seq<nat>, infos: seq<MarkerInfo>, k: nat, i: MarkerInfo)
    requires RowsAt(p, ks, infos) && k < |p.markers| && InfoFrom(i, p.markers[k])
    ensures RowsAt(p, ks + [k], infos + [i])
  {
    hide InfoFrom;
  }

  lemma RowsPrefix(p: Parsed, ks: seq<nat>, infos: seq<MarkerInfo>, n: nat)
    requires RowsAt(p, ks, infos) && n <= |ks|
    ensures RowsAt(p, ks[..n], infos[..n])
  {
    hide InfoFrom;
  }

  lemma RowAt(p: Parsed, ks: seq<nat>, infos: seq<MarkerInfo>, i: nat)
    requires RowsAt(p, ks, infos) && i < |ks|
    ensures |infos| == |ks| && ks[i] < |p.markers| && InfoFrom(infos[i], p.markers[ks[i]])
    ensures infos[i].windowId == p.markers[ks[i]].windowId
  {
  }

  /** `kept` are those of the positions whose windows have waves. */
  ghost predicate WithWaves(p: Parsed, ks: seq<nat>, kept: seq<nat>) {
    && Ascending(kept, |p.markers|)
    && forall k: nat :: k in kept <==> k in ks && k < |p.markers| && HasWave(p, p.markers[k].windowId)
  }

  lemma WithWavesMore(p: Parsed, ks: seq<nat>, kept: seq<nat>)
    requires ks != [] && Ascending(ks, |p.markers|) && WithWaves(p, ks[..|ks| - 1], kept)
    ensures var k := ks[|ks| - 1];
            WithWaves(p, ks, if HasWave(p, p.markers[k].windowId) then kept + [k] else kept)
  {
    hide HasWave;
    var n := |ks| - 1;
    assert ks == ks[..n] + [ks[n]];
    forall i | 0 <= i < |kept| ensures kept[i] < ks[n] {
      assert kept[i] in ks[..n];
    }
  }

  /** Which of some rows stay when their waves have to exist. */
  lemma {:induction false} ResolvingAt(p: Parsed, ks: seq<nat>, infos: seq<MarkerInfo>) returns (kept: seq<nat>)
    requires Ascending(ks, |p.markers|) && RowsAt(p, ks, infos)
    ensures WithWaves(p, ks, kept) && RowsAt(p, kept, Resolving(p, infos))
    decreases |ks|
  {
    kept := [];
    if ks != [] {
      var n := |ks| - 1;
      RowAt(p, ks, infos, n);
      RowsPrefix(p, ks, infos, n);
      ResolvingNext(p, infos);
      hide HasWave, RowsAt, InfoFrom, Resolving, WithWaves;
      var before := ResolvingAt(p, ks[..n], infos[..n]);
      WithWavesMore(p, ks, before);
      if HasWave(p, infos[n].windowId) {
        RowsSnoc(p, before, Resolving(p, infos[..n]), ks[n], infos[n]);
        kept := before + [ks[n]];
      } else {
        kept := before;
      }
    }
  }

  lemma InfosAt(p: Parsed, ks: seq<nat>, found: seq<Marker>)
    requires TakenAt(p.markers, ks, found)
    ensures RowsAt(p, ks, InfosOf(found))
  {
  }

  lemma TakenPrefix<T>(xs: seq<T>, ks: seq<nat>, r: seq<T>, n: nat)
    requires TakenAt(xs, ks, r) && n <= |ks|
    ensures |r| == |ks| && TakenAt(xs, ks[..n], r[..n])
  {
  }

  /** What a query finds before it sorts. */
  lemma FoundMeans(p: Parsed, f: Filter, requireWave: bool, limit: u32) returns (ks: seq<nat>)
    ensures Finds(p, f, requireWave, limit, ks) && RowsAt(p, ks, Found(p, f, requireWave, limit))
  {
    hide TakenAt, RowsAt, Wanted, Selected, HasWave, InfosOf, Resolving;
    var all := SelectedAt(p, f, |p.markers|);
    assert p.markers[..|p.markers|] == p.markers;
    var found := Selected(p, Some(f), |p.markers|);
    TakenPrefix(p.markers, all, found, 0);
    var c := if limit == 0 && |all| > 1024 then 1024 else if 0 < limit < |all| then limit else |all|;
    TakenPrefix(p.markers, all, found, c);
    PositionsOf(p.markers, all, found);
    PositionsOf(p.markers, all[..c], found[..c]);
    InfosAt(p, all[..c], found[..c]);
    assert found[..|found|] == found;
    if requireWave {
      ks := ResolvingAt(p, all[..c], InfosOf(found[..c]));
    } else {
      ks := all[..c];
    }
    assert Selects(p, f, all);
  }

  lemma PositionsOf<T>(xs: seq<T>, ks: seq<nat>, r: seq<T>)
    requires TakenAt(xs, ks, r)
    ensures Ascending(ks, |xs|) && forall k: nat :: k in ks ==> k < |xs|
  {
  }

  // ----- what it delivers

  /** No distance is NaN, or all others are equal. */
  ghost predicate Sortable(infos: seq<MarkerInfo>) {
    || (forall i | 0 <= i < |infos| :: !ValueOf(infos[i].distanceM).NaN?)
    || forall i, j | 0 <= i < |infos| && 0 <= j < |infos| && !ValueOf(infos[i].distanceM).NaN?
                     && !ValueOf(infos[j].distanceM).NaN? ::
         ValueOf(infos[i].distanceM) == ValueOf(infos[j].distanceM)
  }

  ghost predicate DistancesAscend(out: seq<MarkerInfo>) {
    forall i, j | 0 <= i < j < |out| :: !IsLess(ValueOf(out[j].distanceM), ValueOf(out[i].distanceM))
  }

  ghost predicate SeveritiesDescend(out: seq<MarkerInfo>) {
    forall i, j | 0 <= i < j < |out| :: out[i].severity >= out[j].severity
  }

  /** The rows as they were, in ascending distance, or the most severe first. */
  ghost predicate Arranged(infos: seq<MarkerInfo>, out: seq<MarkerInfo>, byDistance: bool, bySeverity: bool) {
    if byDistance then Sortable(infos) ==> multiset(out) == multiset(infos) && DistancesAscend(out)
    else if bySeverity then multiset(out) == multiset(infos) && SeveritiesDescend(out)
    else out == infos
  }

  lemma SortedMeans(infos: seq<MarkerInfo>)
    ensures SortedBy(CompareSeverity, infos) <==> SeveritiesDescend(infos)
    ensures SortedBy(CompareDistance, infos) <==> DistancesAscend(infos)
  {
    hide ValueOf, Below, IsLess;
    forall i, j | 0 <= i < |infos| && 0 <= j < |infos|
      ensures CompareDistance(infos[i], infos[j]) <= 0 <==>
              !IsLess(ValueOf(infos[j].distanceM), ValueOf(infos[i].distanceM))
    {
      ComparedDistance(infos[i], infos[j]);
    }
    hide CompareDistance;
  }

  lemma ComparedDistance(a: MarkerInfo, b: MarkerInfo)
    ensures CompareDistance(a, b) <= 0 <==> !IsLess(ValueOf(b.distanceM), ValueOf(a.distanceM))
  {
    hide ValueOf;
    BelowExactly(ValueOf(b.distanceM), ValueOf(a.distanceM));
    BelowExactly(ValueOf(a.distanceM), ValueOf(b.distanceM));
  }

  lemma SortableMeans(infos: seq<MarkerInfo>)
    ensures Sortable(infos) <==> !HasNaN(infos) || OneDistance(infos)
  {
    hide ValueOf;
    if Sortable(infos) && HasNaN(infos) {
      forall a, b | a in infos && b in infos && ValueOf(a.distanceM) != NaN && ValueOf(b.distanceM) != NaN
        ensures ValueOf(a.distanceM) == ValueOf(b.distanceM)
      {
      }
    }
  }

  lemma DeliveredMeans(found: seq<MarkerInfo>, out: seq<MarkerInfo>, byDistance: bool, bySeverity: bool)
    ensures Delivered(found, out, byDistance, bySeverity) <==> Arranged(found, out, byDistance, bySeverity)
  {
    SortedMeans(out);
    SortableMeans(found);
    hide Sortable, HasNaN, OneDistance, SortedBy, DistancesAscend, SeveritiesDescend, CompareDistance, CompareSeverity;
  }

  /** A query's rows. */
  ghost predicate Answers(p: Parsed, f: Filter, requireWave: bool, limit: u32, byDistance: bool, bySeverity: bool,
                          out: seq<MarkerInfo>) {
    exists ks, infos ::
      && Finds(p, f, requireWave, limit, ks) && RowsAt(p, ks, infos) && |out| == |infos|
      && Arranged(infos, out, byDistance, bySeverity)
  }

  /** The ids of the windows at these positions: all windows of the route, or of every route for route zero. */
  ghost predicate WindowsOf(p: Parsed, routeId: u32, ids: seq<u32>, ks: seq<nat>) {
    && Ascending(ks, |p.windows|)
    && (forall k: nat | k < |p.windows| :: k in ks <==> routeId == 0 || p.windows[k].routeId == routeId)
    && |ids| == |ks| && forall i | 0 <= i < |ks| :: ids[i] == p.windows[ks[i]].windowId
  }

  /** `rv_query_execute`, row by row. */
  method Query(idx: PackageIndex, f: Filter, requireWave: bool, limit: u32, byDistance: bool, bySeverity: bool,
               qsort: Sorter, ghost p: Parsed)
    returns (rows: array<MarkerInfo>, count: nat, ids: array<u32>, windowCount: nat)
    requires idx.Describes(p) && SortsOrdered(qsort)
    ensures count <= rows.Length && Answers(p, f, requireWave, limit, byDistance, bySeverity, rows[..count])
    ensures windowCount <= ids.Length && exists ks :: WindowsOf(p, f.routeId, ids[..windowCount], ks)
  {
    hide Maps, NodesOf, SortsOrdered, Found, Delivered, Arranged, Finds, RowsAt;
    rows, count, ids, windowCount := Execute(idx, f, requireWave, limit, byDistance, bySeverity, qsort, p);
    var ks := FoundMeans(p, f, requireWave, limit);
    DeliveredMeans(Found(p, f, requireWave, limit), rows[..count], byDistance, bySeverity);
    WindowsMean(p, f.routeId, ids[..windowCount]);
  }

  lemma WindowsMean(p: Parsed, routeId: u32, ids: seq<u32>)
    requires var order := OrderOf(p.windows, routeId, |p.windows|);
             |ids| == |order| && forall k | 0 <= k < |order| :: ids[k] == p.windows[order[k]].windowId
    ensures exists ks :: WindowsOf(p, routeId, ids, ks)
  {
    hide OrderOf;
    OrderExactly(p.windows, routeId, |p.windows|);
    assert WindowsOf(p, routeId, ids, OrderOf(p.windows, routeId, |p.windows|));
  }
}
