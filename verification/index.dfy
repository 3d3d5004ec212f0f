/** The secondary indexes and the queries over them (src/internal/rv_index.c, src/internal/rv_query.c). */
module Index {
  import opened Types
  import opened Floats

  // ----- the reference: a scan of the table

  /** The last position of a non-zero id, as one scan of the ids finds it. */
  function LastPos(ids: seq<u32>, id: u32): (r: Option<nat>)
    ensures r.Some? ==> r.value < |ids| && ids[r.value] == id != 0
    ensures r.Some? ==> forall k | r.value < k < |ids| :: ids[k] != id
    ensures r.None? ==> id == 0 || id !in ids
  {
    if id == 0 || ids == [] then None
    else if ids[|ids| - 1] == id then Some(|ids| - 1)
    else LastPos(ids[..|ids| - 1], id)
  }

  /** The first position of an id, zero included: what a scan that stops at the first row finds. */
  function FirstPos(ids: seq<u32>, id: u32): (r: Option<nat>)
    ensures r.Some? ==> r.value < |ids| && ids[r.value] == id
    ensures r.Some? ==> forall k | 0 <= k < r.value :: ids[k] != id
    ensures r.None? ==> id !in ids
    decreases |ids|
  {
    if ids == [] then None
    else if ids[0] == id then Some(0)
    else
      var k :- FirstPos(ids[1..], id);
      Some(k + 1)
  }

  lemma {:induction false} FirstPosIs(ids: seq<u32>, id: u32, k: nat)
    requires k < |ids| && ids[k] == id && forall j | 0 <= j < k :: ids[j] != id
    ensures FirstPos(ids, id) == Some(k)
  {
    var r := FirstPos(ids, id);
    assert !(r.value < k) && !(k < r.value);
  }

  function RouteIds(rs: seq<Route>): (ids: seq<u32>)
    ensures |ids| == |rs|
  {
    seq(|rs|, i requires 0 <= i < |rs| => rs[i].routeId)
  }

  function WindowIds(ws: seq<Window>): (ids: seq<u32>)
    ensures |ids| == |ws|
  {
    seq(|ws|, i requires 0 <= i < |ws| => ws[i].windowId)
  }

  function WaveIds(ws: seq<Wave>): (ids: seq<u32>)
    ensures |ids| == |ws|
  {
    seq(|ws|, i requires 0 <= i < |ws| => ws[i].blockId)
  }

  function MarkerIds(ms: seq<Marker>): (ids: seq<u32>)
    ensures |ids| == |ms|
  {
    seq(|ms|, i requires 0 <= i < |ms| => ms[i].markerId)
  }

  ghost predicate DistinctMarkers(ms: seq<Marker>) {
    forall i, j | 0 <= i < j < |ms| :: ms[i].markerId != ms[j].markerId
  }

  // ----- id maps

  const MAX_ID_MAP: int := 0x4000_0000

  lemma {:induction false} Pow2Monotone(a: nat, b: nat)
    requires a < b
    ensures 2 * Pow2(a) <= Pow2(b)
  {
    if a + 1 < b {
      Pow2Monotone(a, b - 1);
    }
  }

  ghost predicate CapOk(cap: nat) {
    cap == 0 || exists k: nat :: k <= 30 && cap == Pow2(k)
  }

  /** `map[id]`, zero outside the map */
  function Lookup(m: seq<u32>, id: u32): u32 {
    if id < |m| then m[id] else 0
  }

  /** The map agrees with a scan of the ids entered so far. */
  ghost predicate Maps(m: seq<u32>, ids: seq<u32>) {
    CapOk(|m|) && forall id: u32 :: Lookup(m, id) == (if LastPos(ids, id).Some? then LastPos(ids, id).value + 1 else 0)
  }

  lemma CapBound(cap: nat)
    requires CapOk(cap)
    ensures cap <= MAX_ID_MAP
  {
    Pow2Values();
    if cap > 0 {
      var k: nat :| k <= 30 && cap == Pow2(k);
      if k < 30 {
        Pow2Monotone(k, 30);
      }
    }
  }

  lemma CapDoubles(cap: nat)
    requires CapOk(cap) && 0 < cap < MAX_ID_MAP
    ensures CapOk(2 * cap)
  {
    Pow2Values();
    var k: nat :| k <= 30 && cap == Pow2(k);
    assert 2 * cap == Pow2(k + 1);
  }

  /** The map doubled until it holds `need` slots, which works exactly up to 2^30 slots. */
  method Grow(m: array<u32>, need: nat) returns (st: Status, r: array<u32>)
    requires m.Length < need && CapOk(m.Length)
    ensures st.Ok? <==> need <= MAX_ID_MAP
    ensures st.Failed? ==> r == m
    ensures st.Ok? ==> fresh(r) && need <= r.Length && CapOk(r.Length)
    ensures st.Ok? ==> forall i: u32 :: Lookup(r[..], i) == Lookup(m[..], i)
  {
    Pow2Values();
    assert CapOk(32);
    var ncap := if m.Length != 0 then m.Length else 32;
    CapBound(ncap);
    while ncap < need
      invariant CapOk(ncap) && m.Length <= ncap <= MAX_ID_MAP && ncap > 0
      decreases need - ncap
    {
      if ncap > 0x7fff_ffff / 2 {
        return Failed, m;
      }
      CapDoubles(ncap);
      ncap := ncap * 2;
      CapBound(ncap);
    }
    r := new u32[ncap](_ => 0);
    forall i | 0 <= i < m.Length {
      r[i] := m[i];
    }
    return Ok, r;
  }

  /** `rv_idmap_put`: enters an id, growing the map when needed.  It fails exactly for ids of 2^30 and above.  The
      largest 32-bit id is excluded because `id + 1` would wrap to zero. */
  method IdMapPut(m: array<u32>, id: u32, posPlus: u32, ghost ids: seq<u32>) returns (st: Status, r: array<u32>)
    requires id + 1 < TWO32 && posPlus == |ids| + 1 && Maps(m[..], ids)
    modifies m
    ensures r == m || fresh(r)
    ensures st.Ok? <==> id < MAX_ID_MAP
    ensures st.Ok? ==> Maps(r[..], ids + [id])
  {
    r := m;
    CapBound(m.Length);
    if id == 0 {
      ZeroId(m[..], ids);
      return Ok, m;
    }
    var need := id + 1;
    if need > m.Length {
      st, r := Grow(m, need);
      if st.Failed? {
        return;
      }
    }
    ghost var before := r[..];
    assert Maps(before, ids);
    r[id] := posPlus;
    Entered(before, ids, id);
    assert r[..] == before[id := posPlus];
    return Ok, r;
  }

  lemma ZeroId(m: seq<u32>, ids: seq<u32>)
    requires Maps(m, ids)
    ensures Maps(m, ids + [0])
  {
    forall id: u32 ensures LastPos(ids + [0], id) == LastPos(ids, id) {
      assert (ids + [0])[..|ids|] == ids;
    }
  }

  lemma Entered(m: seq<u32>, ids: seq<u32>, id: u32)
    requires Maps(m, ids) && 0 < id < |m| && |ids| + 1 < TWO32
    ensures Maps(m[id := |ids| + 1], ids + [id])
  {
    forall i: u32 ensures LastPos(ids + [id], i) == (if i == id then Some(|ids|) else LastPos(ids, i)) {
      assert (ids + [id])[..|ids|] == ids;
    }
  }

  // ----- the index

  datatype RouteNode = RouteNode(routeId: u32, rec: Route)
  datatype WindowNode = WindowNode(windowId: u32, routeId: u32, instId: u32, rec: Window)
  datatype WaveNode = WaveNode(blockId: u32, windowId: u32, block: Wave)
  datatype MarkerNode = MarkerNode(markerId: u32, windowId: u32, kind: u16, severity: u16, distanceM: f32, rec: Marker)

  function RouteNodeOf(r: Route): RouteNode {
    RouteNode(r.routeId, r)
  }

  function WindowNodeOf(w: Window): WindowNode {
    WindowNode(w.windowId, w.routeId, w.instId, w)
  }

  function WaveNodeOf(w: Wave): WaveNode {
    WaveNode(w.blockId, w.windowId, w)
  }

  function MarkerNodeOf(m: Marker): MarkerNode {
    MarkerNode(m.markerId, m.windowId, m.kind, m.severity, m.distanceM, m)
  }

  /** The nodes of a table, in table order. */
  ghost predicate NodesOf<R, N>(node: R -> N, nodes: seq<N>, table: seq<R>) {
    |nodes| == |table| && forall i | 0 <= i < |table| :: nodes[i] == node(table[i])
  }

  /** Ids that `id + 1` does not wrap. */
  predicate NoWrap(ids: seq<u32>) {
    forall i | 0 <= i < |ids| :: ids[i] + 1 < TWO32
  }

  predicate Small(ids: seq<u32>) {
    forall i | 0 <= i < |ids| :: ids[i] < MAX_ID_MAP
  }

  /** The node part of one table's loop in `rv_index_build`. */
  method FillNodes<R, N>(node: R -> N, table: seq<R>) returns (nodes: seq<N>)
    ensures NodesOf(node, nodes, table)
  {
    nodes := [];
    for i := 0 to |table|
      invariant NodesOf(node, nodes, table[..i])
    {
      nodes := nodes + [node(table[i])];
    }
  }

  /** The map part of one table's loop in `rv_index_build`. */
  method MapIds(ids: seq<u32>) returns (st: Status, m: array<u32>)
    requires NoWrap(ids) && |ids| + 1 < TWO32
    ensures fresh(m)
    ensures st.Ok? <==> Small(ids)
    ensures st.Ok? ==> Maps(m[..], ids)
  {
    m := new u32[0];
    for i := 0 to |ids|
      invariant fresh(m) && Maps(m[..], ids[..i]) && Small(ids[..i])
    {
      st, m := IdMapPut(m, ids[i], i + 1, ids[..i]);
      assert ids[..i] + [ids[i]] == ids[..i + 1];
      if st.Failed? {
        return;
      }
    }
    assert ids[..|ids|] == ids;
    st := Ok;
  }

  predicate Indexable(p: Parsed) {
    && |p.routes| + 1 < TWO32 && |p.windows| + 1 < TWO32 && |p.waves| + 1 < TWO32
    && NoWrap(RouteIds(p.routes)) && NoWrap(WindowIds(p.windows)) && NoWrap(WaveIds(p.waves))
  }

  class PackageIndex {
    var routes: seq<RouteNode>
    var windows: seq<WindowNode>
    var waves: seq<WaveNode>
    var markers: seq<MarkerNode>
    var routeById: array<u32>
    var windowById: array<u32>
    var waveById: array<u32>

    /** The index describes these tables. */
    ghost predicate Describes(p: Parsed)
      reads this, routeById, windowById, waveById
    {
      && NodesOf(RouteNodeOf, routes, p.routes) && Maps(routeById[..], RouteIds(p.routes))
      && NodesOf(WindowNodeOf, windows, p.windows) && Maps(windowById[..], WindowIds(p.windows))
      && NodesOf(WaveNodeOf, waves, p.waves) && Maps(waveById[..], WaveIds(p.waves))
      && NodesOf(MarkerNodeOf, markers, p.markers)
    }

    constructor ()
      ensures fresh(routeById) && fresh(windowById) && fresh(waveById)
      ensures routes == [] && windows == [] && waves == [] && markers == []
    {
      routes, windows, waves, markers := [], [], [], [];
      routeById, windowById, waveById := new u32[0], new u32[0], new u32[0];
    }

    /** `rv_index_build`: succeeds exactly when all route, window and wave ids are below 2^30. */
    method Build(p: Parsed) returns (st: Status)
      requires Indexable(p)
      modifies this
      ensures fresh(routeById) && fresh(windowById) && fresh(waveById)
      ensures st.Ok? <==> Small(RouteIds(p.routes)) && Small(WindowIds(p.windows)) && Small(WaveIds(p.waves))
      ensures st.Ok? ==> Describes(p)
    {
      hide Maps, NodesOf, Small, RouteIds, WindowIds, WaveIds;
      var st', routeMap, windowMap, waveMap := BuildMaps(p);
      st, routeById, windowById, waveById := st', routeMap, windowMap, waveMap;
      if st.Failed? {
        return;
      }
      routes := FillNodes(RouteNodeOf, p.routes);
      windows := FillNodes(WindowNodeOf, p.windows);
      waves := FillNodes(WaveNodeOf, p.waves);
      markers := FillNodes(MarkerNodeOf, p.markers);
    }

    static method BuildMaps(p: Parsed) returns (st: Status, rm: array<u32>, wm: array<u32>, vm: array<u32>)
      requires Indexable(p)
      ensures fresh(rm) && fresh(wm) && fresh(vm)
      ensures st.Ok? <==> Small(RouteIds(p.routes)) && Small(WindowIds(p.windows)) && Small(WaveIds(p.waves))
      ensures st.Ok? ==> Maps(rm[..], RouteIds(p.routes)) && Maps(wm[..], WindowIds(p.windows))
                         && Maps(vm[..], WaveIds(p.waves))
    {
      hide Maps, Small, RouteIds, WindowIds, WaveIds;
      wm, vm := new u32[0], new u32[0];
      st, rm := MapIds(RouteIds(p.routes));
      if st.Failed? {
        return;
      }
      st, wm := MapIds(WindowIds(p.windows));
      if st.Failed? {
        return;
      }
      st, vm := MapIds(WaveIds(p.waves));
    }

    /** The three find functions agree with a scan of the table. */
    method FindWindow(id: u32, ghost p: Parsed) returns (r: Option<nat>)
      requires Describes(p)
      ensures r == LastPos(WindowIds(p.windows), id)
      ensures r.Some? ==> r.value < |windows| && windows[r.value] == WindowNodeOf(p.windows[r.value])
    {
      r := if id >= windowById.Length || windowById[id] == 0 then None else Some(windowById[id] - 1);
      assert Lookup(windowById[..], id) == if id < windowById.Length then windowById[id] else 0;
    }

    method FindWave(id: u32, ghost p: Parsed) returns (r: Option<nat>)
      requires Describes(p)
      ensures r == LastPos(WaveIds(p.waves), id)
      ensures r.Some? ==> r.value < |waves| && waves[r.value] == WaveNodeOf(p.waves[r.value])
    {
      r := if id >= waveById.Length || waveById[id] == 0 then None else Some(waveById[id] - 1);
      assert Lookup(waveById[..], id) == if id < waveById.Length then waveById[id] else 0;
    }

    method FindRoute(id: u32, ghost p: Parsed) returns (r: Option<nat>)
      requires Describes(p)
      ensures r == LastPos(RouteIds(p.routes), id)
      ensures r.Some? ==> r.value < |routes| && routes[r.value] == RouteNodeOf(p.routes[r.value])
    {
      r := if id >= routeById.Length || routeById[id] == 0 then None else Some(routeById[id] - 1);
      assert Lookup(routeById[..], id) == if id < routeById.Length then routeById[id] else 0;
    }

    /** `rv_index_query_markers`: counts the markers that a scan of the tables selects, and writes the first `|out|` of
        them in table order. */
    method QueryMarkers(flt: Option<Filter>, out: array<MarkerInfo>, ghost p: Parsed) returns (written: nat)
      requires Describes(p)
      modifies out
      ensures var found := Selected(p, flt, |p.markers|);
              && written == |found|
              && (forall k | 0 <= k < |found| && k < out.Length :: out[k] == InfoOf(found[k]))
              && (forall k | |found| <= k < out.Length :: out[k] == old(out[k]))
    {
      hide Maps, Matches, InfoOf;
      var n := 0;
      for i := 0 to |markers|
        invariant Describes(p) && n == |Selected(p, flt, i)|
        invariant forall k | 0 <= k < n && k < out.Length :: out[k] == InfoOf(Selected(p, flt, i)[k])
        invariant forall k | n <= k < out.Length :: out[k] == old(out[k])
      {
        var keep := Passes(flt, markers[i], p);
        if keep {
          if n < out.Length {
            out[n] := InfoOf(markers[i].rec);
          }
          n := n + 1;
        }
      }
      return n;
    }

    /** The filter conditions, in the order in which the query loop checks them. */
    method Passes(flt: Option<Filter>, m: MarkerNode, ghost p: Parsed) returns (keep: bool)
      requires Describes(p) && m == MarkerNodeOf(m.rec)
      ensures keep == Matches(p, flt, m.rec)
    {
      if flt.None? {
        return true;
      }
      var f := flt.value;
      if f.markerKind != 0 && m.kind != f.markerKind {
        return false;
      }
      if m.severity < f.minSeverity {
        return false;
      }
      if NonZero(f.minDistanceM) || NonZero(f.maxDistanceM) {
        if Lt(m.distanceM, f.minDistanceM) {
          return false;
        }
        if Lt(ZERO, f.maxDistanceM) && Lt(f.maxDistanceM, m.distanceM) {
          return false;
        }
      }
      if f.routeId != 0 {
        var w := FindWindow(m.windowId, p);
        if w.None? || windows[w.value].routeId != f.routeId {
          return false;
        }
      }
      if f.instrumentId != 0 {
        var w := FindWindow(m.windowId, p);
        if w.None? || windows[w.value].instId != f.instrumentId {
          return false;
        }
      }
      return true;
    }
  }

  // ----- queries

  datatype Filter = Filter(routeId: u32, instrumentId: u32, markerKind: u16, minSeverity: u16, minDistanceM: f32,
                           maxDistanceM: f32)

  datatype MarkerInfo = MarkerInfo(markerId: u32, windowId: u32, distanceM: f32, kind: u16, severity: u16,
                                   labelNameId: u32)

  function InfoOf(m: Marker): MarkerInfo {
    MarkerInfo(m.markerId, m.windowId, m.distanceM, m.kind, m.severity, m.labelNameId)
  }

  /** The window a marker refers to, by a scan of the window table. */
  function WindowOf(p: Parsed, windowId: u32): Option<Window> {
    var i :- LastPos(WindowIds(p.windows), windowId);
    Some(p.windows[i])
  }

  /** What a filter asks of a marker; zero fields ask nothing. */
  predicate Matches(p: Parsed, flt: Option<Filter>, m: Marker) {
    flt.Some? ==>
      var f, w := flt.value, WindowOf(p, m.windowId);
      && (f.markerKind == 0 || m.kind == f.markerKind)
      && m.severity >= f.minSeverity
      && (NonZero(f.minDistanceM) || NonZero(f.maxDistanceM) ==>
            && !Lt(m.distanceM, f.minDistanceM)
            && !(Lt(ZERO, f.maxDistanceM) && Lt(f.maxDistanceM, m.distanceM)))
      && (f.routeId == 0 || (w.Some? && w.value.routeId == f.routeId))
      && (f.instrumentId == 0 || (w.Some? && w.value.instId == f.instrumentId))
  }

  /** The selected ones of the first `n` markers, in order. */
  function Selected(p: Parsed, flt: Option<Filter>, n: nat): (r: seq<Marker>)
    requires n <= |p.markers|
    ensures |r| <= n
  {
    if n == 0 then []
    else Selected(p, flt, n - 1) + if Matches(p, flt, p.markers[n - 1]) then [p.markers[n - 1]] else []
  }

  // ----- rv_query_execute

  function InfosOf(ms: seq<Marker>): (r: seq<MarkerInfo>)
    ensures |r| == |ms|
  {
    seq(|ms|, i requires 0 <= i < |ms| => InfoOf(ms[i]))
  }

  /** The window with this id exists and so does its wave block. */
  predicate WaveResolves(p: Parsed, windowId: u32) {
    var w := WindowOf(p, windowId);
    w.Some? && LastPos(WaveIds(p.waves), w.value.waveBlockId).Some?
  }

  function Resolving(p: Parsed, infos: seq<MarkerInfo>): (r: seq<MarkerInfo>)
    ensures |r| <= |infos|
  {
    if infos == [] then []
    else
      var i := infos[|infos| - 1];
      Resolving(p, infos[..|infos| - 1]) + if WaveResolves(p, i.windowId) then [i] else []
  }

  /** `rv_xref_resolve_wave_for_window` */
  method ResolveWave(idx: PackageIndex, windowId: u32, ghost p: Parsed) returns (r: Option<nat>)
    requires idx.Describes(p)
    ensures r.Some? <==> WaveResolves(p, windowId)
    ensures r.Some? ==> r == LastPos(WaveIds(p.waves), WindowOf(p, windowId).value.waveBlockId)
  {
    var w := idx.FindWindow(windowId, p);
    if w.None? {
      return None;
    }
    r := idx.FindWave(idx.windows[w.value].rec.waveBlockId, p);
  }

  /** The in-place compaction of the `require_wave` option. */
  method KeepResolving(idx: PackageIndex, tmp: array<MarkerInfo>, written: nat, ghost p: Parsed) returns (w: nat)
    requires idx.Describes(p) && written <= tmp.Length
    modifies tmp
    ensures w <= written && tmp[..w] == Resolving(p, old(tmp[..written]))
  {
    hide Maps, NodesOf, WaveResolves;
    ghost var before := tmp[..];
    w := 0;
    for i := 0 to written
      invariant idx.Describes(p) && w <= i
      invariant forall k | i <= k < tmp.Length :: tmp[k] == before[k]
      invariant tmp[..w] == Resolving(p, before[..i])
    {
      assert before[..i + 1][..i] == before[..i] && tmp[i] == before[i];
      var wave := ResolveWave(idx, tmp[i].windowId, p);
      if wave.Some? {
        if w != i {
          tmp[w] := tmp[i];
        }
        w := w + 1;
      }
    }
    assert before[..written] == old(tmp[..written]);
  }

  /** What a query finds, before it is sorted. */
  ghost function Found(p: Parsed, flt: Filter, requireWave: bool, limit: u32): seq<MarkerInfo> {
    var cap := if limit == 0 then 1024 else limit;
    var found := Selected(p, Some(flt), |p.markers|);
    var first := InfosOf(if |found| > cap then found[..cap] else found);
    if requireWave then Resolving(p, first) else first
  }

  /** The markers of `rv_query_execute`: the first `limit` that match, and with `requireWave` those of them whose wave
      resolves. */
  method MatchMarkers(idx: PackageIndex, flt: Filter, requireWave: bool, limit: u32, ghost p: Parsed)
    returns (tmp: array<MarkerInfo>, count: nat)
    requires idx.Describes(p)
    ensures fresh(tmp) && count <= tmp.Length && tmp[..count] == Found(p, flt, requireWave, limit)
  {
    var cap := if limit != 0 then limit else 1024;
    tmp := new MarkerInfo[cap];
    var written := idx.QueryMarkers(Some(flt), tmp, p);
    ghost var found := Selected(p, Some(flt), |p.markers|);
    if written > cap {
      written := cap;
    }
    ghost var first := InfosOf(if |found| > cap then found[..cap] else found);
    assert tmp[..written] == first;
    count := written;
    if requireWave {
      count := KeepResolving(idx, tmp, written, p);
    }
  }

  /** The positions of a route's windows, in table order; route zero stands for all routes. */
  function OrderOf(ws: seq<Window>, routeId: u32, n: nat): (r: seq<nat>)
    requires n <= |ws|
    ensures |r| <= n && forall i | 0 <= i < |r| :: r[i] < n
  {
    if n == 0 then []
    else OrderOf(ws, routeId, n - 1) + if routeId == 0 || ws[n - 1].routeId == routeId then [n - 1] else []
  }

  /** `rv_query_windows_for_route`: counts the route's windows and writes the ids of the first ones. */
  method WindowsForRoute(idx: PackageIndex, routeId: u32, out: array<u32>, ghost p: Parsed) returns (written: nat)
    requires idx.Describes(p) && out != idx.routeById && out != idx.windowById && out != idx.waveById
    modifies out
    ensures var order := OrderOf(p.windows, routeId, |p.windows|);
            && written == |order|
            && (forall k | 0 <= k < |order| && k < out.Length :: out[k] == p.windows[order[k]].windowId)
            && (forall k | |order| <= k < out.Length :: out[k] == old(out[k]))
  {
    hide Maps, OrderOf, NodesOf;
    ghost var ws, order := p.windows, [];
    OrderNext(ws, routeId, 0);
    RowIs(idx.windows, ws, 0);
    var n := 0;
    for i := 0 to |idx.windows|
      invariant idx.Describes(p) && n == |order| && order == OrderOf(ws, routeId, i)
      invariant forall k | 0 <= k < n && k < out.Length :: out[k] == ws[order[k]].windowId
      invariant forall k | n <= k < out.Length :: out[k] == old(out[k])
    {
      OrderNext(ws, routeId, i);
      RowIs(idx.windows, ws, i);
      if routeId == 0 || idx.windows[i].routeId == routeId {
        if n < out.Length {
          out[n] := idx.windows[i].windowId;
        }
        order := order + [i];
        n := n + 1;
      }
    }
    written := n;
  }

  lemma RowIs(nodes: seq<WindowNode>, ws: seq<Window>, i: nat)
    requires NodesOf(WindowNodeOf, nodes, ws)
    ensures |nodes| == |ws|
    ensures i < |ws| ==> nodes[i].windowId == ws[i].windowId && nodes[i].routeId == ws[i].routeId
  {
  }

  lemma OrderNext(ws: seq<Window>, routeId: u32, i: nat)
    requires i <= |ws|
    ensures OrderOf(ws, routeId, 0) == []
    ensures i < |ws| ==>
              OrderOf(ws, routeId, i + 1) ==
              if routeId == 0 || ws[i].routeId == routeId then OrderOf(ws, routeId, i) + [i]
              else OrderOf(ws, routeId, i)
  {
  }

  // ----- the order of the sorted results

  /** `rv_marker_info_cmp_dist` */
  function CompareDistance(a: MarkerInfo, b: MarkerInfo): int {
    if Lt(a.distanceM, b.distanceM) then -1 else if Lt(b.distanceM, a.distanceM) then 1 else 0
  }

  /** `rv_marker_info_cmp_sev`: the most severe first */
  function CompareSeverity(a: MarkerInfo, b: MarkerInfo): int {
    if a.severity > b.severity then -1 else if a.severity < b.severity then 1 else 0
  }

  /** A comparison as a sort needs it: antisymmetric and transitive. */
  ghost predicate Orders(cmp: (MarkerInfo, MarkerInfo) -> int, a: MarkerInfo, b: MarkerInfo, c: MarkerInfo) {
    cmp(a, b) == -cmp(b, a) && (cmp(a, b) <= 0 && cmp(b, c) <= 0 ==> cmp(a, c) <= 0)
  }

  /** The severity comparison orders all markers.  The distance comparison orders three markers exactly when no NaN
      stands between two distances that decrease: a NaN compares equal to everything. */
  lemma ComparisonsOrder(a: MarkerInfo, b: MarkerInfo, c: MarkerInfo)
    ensures Orders(CompareSeverity, a, b, c)
    ensures Orders(CompareDistance, a, b, c) <==> !(ValueOf(b.distanceM) == NaN && Lt(c.distanceM, a.distanceM))
  {
    hide ValueOf;
    var x, y, z := ValueOf(a.distanceM), ValueOf(b.distanceM), ValueOf(c.distanceM);
    BelowIsOrder(x, y, z);
    BelowIsOrder(z, y, x);
    BelowIsOrder(x, y, x);
    BelowIsOrder(z, x, z);
  }

  /** A comparison orders a whole result. */
  ghost predicate OrdersAll(cmp: (MarkerInfo, MarkerInfo) -> int, infos: seq<MarkerInfo>) {
    forall a, b, c | a in infos && b in infos && c in infos :: Orders(cmp, a, b, c)
  }

  ghost predicate HasNaN(infos: seq<MarkerInfo>) {
    exists m :: m in infos && ValueOf(m.distanceM) == NaN
  }

  /** All distances that are numbers are the same number. */
  ghost predicate OneDistance(infos: seq<MarkerInfo>) {
    forall a, b | a in infos && b in infos && ValueOf(a.distanceM) != NaN && ValueOf(b.distanceM) != NaN ::
      ValueOf(a.distanceM) == ValueOf(b.distanceM)
  }

  /** A result can be sorted by severity always, and by distance exactly when it holds no NaN or only one number. */
  lemma ResultsOrder(infos: seq<MarkerInfo>)
    ensures OrdersAll(CompareSeverity, infos)
    ensures OrdersAll(CompareDistance, infos) <==> !HasNaN(infos) || OneDistance(infos)
  {
    hide ValueOf, Orders;
    forall a, b, c | a in infos && b in infos && c in infos
      ensures Orders(CompareSeverity, a, b, c)
      ensures Orders(CompareDistance, a, b, c) <==> !(ValueOf(b.distanceM) == NaN && Lt(c.distanceM, a.distanceM))
    {
      ComparisonsOrder(a, b, c);
    }
    if HasNaN(infos) && !OneDistance(infos) {
      var n :| n in infos && ValueOf(n.distanceM) == NaN;
      var a, b :| a in infos && b in infos && ValueOf(a.distanceM) != NaN && ValueOf(b.distanceM) != NaN
                  && ValueOf(a.distanceM) != ValueOf(b.distanceM);
      assert Lt(a.distanceM, b.distanceM) || Lt(b.distanceM, a.distanceM);
      assert !Orders(CompareDistance, a, n, b) || !Orders(CompareDistance, b, n, a);
    } else if OneDistance(infos) {
      forall a, c | a in infos && c in infos ensures !Lt(c.distanceM, a.distanceM) {
        BelowIsOrder(ValueOf(a.distanceM), ValueOf(c.distanceM), ValueOf(a.distanceM));
      }
    }
  }

  /** A NaN between the distances 8388609 and 8388608. */
  function NanBetween(): seq<MarkerInfo> {
    [MarkerInfo(1, 1, 0x4B00_0001, 0, 0, 0), MarkerInfo(2, 1, NAN, 0, 0, 0), MarkerInfo(3, 1, 0x4B00_0000, 0, 0, 0)]
  }

  /** A result that cannot be sorted by distance. */
  lemma NanMisleads()
    ensures !OrdersAll(CompareDistance, NanBetween())
  {
    hide ValueOf, OrdersAll;
    var infos := NanBetween();
    SampleFloats();
    ResultsOrder(infos);
    assert infos[0] in infos && infos[1] in infos && infos[2] in infos;
  }

  lemma SampleFloats()
    ensures ValueOf(0x4B00_0001) == Finite(8388609.0) && ValueOf(0x4B00_0000) == Finite(8388608.0)
    ensures ValueOf(NAN) == NaN
  {
    hide ValueOf;
    NanFloat();
    BigFloat(0);
    BigFloat(1);
  }

  // ----- the whole query

  ghost predicate SortedBy(cmp: (MarkerInfo, MarkerInfo) -> int, infos: seq<MarkerInfo>) {
    forall i, j | 0 <= i < j < |infos| :: cmp(infos[i], infos[j]) <= 0
  }

  ghost predicate SortOf(cmp: (MarkerInfo, MarkerInfo) -> int, out: seq<MarkerInfo>, found: seq<MarkerInfo>) {
    multiset(out) == multiset(found) && SortedBy(cmp, out)
  }

  type Sorter = (seq<MarkerInfo>, (MarkerInfo, MarkerInfo) -> int) -> seq<MarkerInfo>

  /** The C library's `qsort`: it sorts what the comparison orders; of other inputs only the length is known to stay. */
  ghost predicate SortsOrdered(qsort: Sorter) {
    forall infos, cmp ::
      && |qsort(infos, cmp)| == |infos|
      && (OrdersAll(cmp, infos) ==> SortOf(cmp, qsort(infos, cmp), infos))
  }

  /** What a query delivers of what it found: sorted by distance when that is possible, or by severity, or as it is. */
  ghost predicate Delivered(found: seq<MarkerInfo>, out: seq<MarkerInfo>, byDistance: bool, bySeverity: bool) {
    if byDistance then !HasNaN(found) || OneDistance(found) ==> SortOf(CompareDistance, out, found)
    else if bySeverity then SortOf(CompareSeverity, out, found)
    else out == found
  }

  /** The final sort of a query, by distance before severity. */
  method SortMarkers(tmp: array<MarkerInfo>, count: nat, byDistance: bool, bySeverity: bool, qsort: Sorter)
    requires count <= tmp.Length && SortsOrdered(qsort)
    modifies tmp
    ensures Delivered(old(tmp[..count]), tmp[..count], byDistance, bySeverity)
  {
    hide OrdersAll, HasNaN, OneDistance, CompareDistance, CompareSeverity;
    ResultsOrder(tmp[..count]);
    if count > 1 && (byDistance || bySeverity) {
      var out := qsort(tmp[..count], if byDistance then CompareDistance else CompareSeverity);
      forall i | 0 <= i < count {
        tmp[i] := out[i];
      }
      assert tmp[..count] == out;
    }
  }

  /** `rv_query_execute`: the markers found, sorted as asked for, and the ids of all windows of the filter's route. */
  method Execute(idx: PackageIndex, flt: Filter, requireWave: bool, limit: u32, byDistance: bool, bySeverity: bool,
                 qsort: Sorter, ghost p: Parsed)
    returns (tmp: array<MarkerInfo>, count: nat, windowIds: array<u32>, windowCount: nat)
    requires idx.Describes(p) && SortsOrdered(qsort)
    ensures count == |Found(p, flt, requireWave, limit)| <= tmp.Length && windowCount <= windowIds.Length
    ensures Delivered(Found(p, flt, requireWave, limit), tmp[..count], byDistance, bySeverity)
    ensures var order := OrderOf(p.windows, flt.routeId, |p.windows|);
            windowCount == |order| && forall k | 0 <= k < |order| :: windowIds[k] == p.windows[order[k]].windowId
  {
    hide Maps, Found, SortsOrdered, Delivered;
    tmp, count := MatchMarkers(idx, flt, requireWave, limit, p);
    SortMarkers(tmp, count, byDistance, bySeverity, qsort);
    windowIds := new u32[if |idx.windows| != 0 then |idx.windows| else 1](_ => 0);
    windowCount := WindowsForRoute(idx, flt.routeId, windowIds, p);
  }
}
