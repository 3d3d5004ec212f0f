/** What a merge preserves: names, references, and the separation of the two sides. */
module MergeRefs {
  import opened Types
  import opened Index
  import opened Builder
  import opened Image
  import opened Parser
  import opened Xref
  import opened Merge
  import Dict

  // ----- names

  /** Every id is its position plus one, so the dictionary finds a pooled id at once. */
  lemma PoolFinds(names: seq<Name>, id: nat)
    requires Pool(names) && 0 < id <= |names| && id < TWO32
    ensures Dict.FirstById(names, id) == Some(id - 1)
  {
    hide Key, Dict.FirstById;
    Dict.FirstByIdIs(names, id, id - 1);
  }

  /** Name remapping.  Every id that a side's name table knows becomes an id of the merged table that resolves to the
      pooled form of the same string: to the same bytes exactly when these are at most 127 without a NUL.  Names added
      later do not disturb it, and the merged table never holds two entries with the same string or the same id. */
  lemma MergedNameResolves(t: Tables, p: Parsed, bias: u32, later: seq<Name>, id: u32)
    requires Pool(t.names) && |t.names| + |p.names| + |later| + 1 < TWO32
    requires id != 0 && Dict.FirstById(p.names, id).Some?
    ensures var s := SideOf(t, p, bias);
            var names, str := PoolAll(s.pool, later), p.names[Dict.FirstById(p.names, id).value].str;
            var nid := MapName(s, id);
            && Pool(names)
            && Dict.FirstById(names, nid).Some?
            && var got := names[Dict.FirstById(names, nid).value].str;
               got == Key(str) && (got == str <==> |str| <= MAX_NAME && 0 !in str)
  {
    hide Key, IdOf, PoolAll, HoldsAll, Dict.FirstById;
    var s := SideOf(t, p, bias);
    HoldsAt(PoolAll(t.names, p.names), p.names, id);
    PoolAllKeeps(t.names, p.names);
    PoolAllKeeps(s.pool, later);
    var names := PoolAll(s.pool, later);
    var nid := MapName(s, id);
    assert names[nid - 1] == s.pool[nid - 1];
    PoolFinds(names, nid);
    KeyMeans(p.names[Dict.FirstById(p.names, id).value].str);
  }

  lemma HoldsAt(pool: seq<Name>, snam: seq<Name>, id: u32)
    requires Dict.FirstById(snam, id).Some?
    ensures HoldsAll(pool, snam) ==> IdOf(pool, Key(snam[Dict.FirstById(snam, id).value].str)) > 0
  {
  }

  lemma KeyMeans(s: bytes)
    ensures Key(s) == s <==> |s| <= MAX_NAME && 0 !in s
  {
    hide CString;
  }

  /** Zero and ids that the side does not know become zero; no name reference of a merged table dangles. */
  lemma MappedNameKnown(s: Side, names: seq<Name>, id: u32)
    requires Pool(s.pool) && s.pool <= names && HoldsAll(s.pool, s.snam)
    ensures NameKnown(names, MapName(s, id))
    ensures MapName(s, id) == 0 <==> id == 0 || Dict.FirstById(s.snam, id).None?
  {
    hide Key;
    var nid := MapName(s, id);
    if nid != 0 {
      assert names[nid - 1] == s.pool[nid - 1];
    }
  }

  // ----- ids

  function Shift(ids: seq<u32>, bias: u32): (r: seq<u32>)
    ensures |r| == |ids|
  {
    Mapped(x => Biased(x, bias), ids)
  }

  /** No id of the right side wraps when it is shifted. */
  predicate Shiftable(ids: seq<u32>, bias: u32) {
    forall i | 0 <= i < |ids| :: ids[i] + bias < TWO32
  }

  predicate AllBelow(ids: seq<u32>, bound: u32) {
    forall i | 0 <= i < |ids| :: ids[i] < bound
  }

  /** Below the bias, a left id is found in a merged id table exactly when it was in the left table, ... */
  lemma LeftIn(xs: seq<u32>, ys: seq<u32>, bias: u32, x: u32)
    requires Shiftable(ys, bias) && x < bias
    ensures x in xs + Shift(ys, bias) <==> x in xs
  {
  }

  /** ... and a shifted right id exactly when it was in the right table. */
  lemma RightIn(xs: seq<u32>, ys: seq<u32>, bias: u32, y: u32)
    requires AllBelow(xs, bias) && y + bias < TWO32
    ensures Biased(y, bias) in xs + Shift(ys, bias) <==> y in ys
  {
    ShiftedIn(ys, bias, y);
    assert Biased(y, bias) == y + bias;
  }

  /** Shifting is injective, wrap-around included. */
  lemma BiasedInjective(x: u32, y: u32, bias: u32)
    ensures Biased(x, bias) == Biased(y, bias) <==> x == y
  {
  }

  lemma ShiftedIn(ys: seq<u32>, bias: u32, y: u32)
    ensures Biased(y, bias) in Shift(ys, bias) <==> y in ys
  {
    hide Biased;
    if y in ys {
      var k :| 0 <= k < |ys| && ys[k] == y;
      assert Shift(ys, bias)[k] == Biased(y, bias);
    }
    if Biased(y, bias) in Shift(ys, bias) {
      var k :| 0 <= k < |ys| && Shift(ys, bias)[k] == Biased(y, bias);
      BiasedInjective(ys[k], y, bias);
    }
  }

  // ----- the merged package

  /** The merged tables as a package; the write options do not matter for references. */
  function TablesRead(t: Tables): Parsed {
    AsParsed(t, WriteOptions(Stamp(2, 3, 0, 0), true, true))
  }

  function BothMerged(l: Parsed, r: Parsed, o: MergeOptions): Parsed
    requires |l.names| + |r.names| + 1 < TWO32
  {
    TablesRead(Merged(NO_TABLES, l, r, o))
  }

  function LeftSide(l: Parsed): Side
    requires |l.names| + 1 < TWO32
  {
    SideOf(NO_TABLES, l, 0)
  }

  function RightSide(l: Parsed, r: Parsed, o: MergeOptions): Side
    requires |l.names| + |r.names| + 1 < TWO32
  {
    SideOf(MergeSide(NO_TABLES, l, o, 0), r, BiasOf(o))
  }

  function KeptIds(ws: seq<Wave>): (ids: seq<u32>) {
    WaveIds(Kept(ws))
  }

  /** Each merged table is the left one followed by the shifted right one. */
  lemma MergedIds(l: Parsed, r: Parsed, o: MergeOptions)
    requires |l.names| + |r.names| + 1 < TWO32
    ensures var m, b := BothMerged(l, r, o), BiasOf(o);
            && RouteIds(m.routes) == RouteIds(l.routes) + Shift(RouteIds(r.routes), b)
            && InstIds(m.insts) == InstIds(l.insts) + Shift(InstIds(r.insts), b)
            && CalibIds(m.calibs) == CalibIds(l.calibs) + Shift(CalibIds(r.calibs), b)
  {
    hide PoolAll, Kept, KeptMarkers, MapName, Mapped, WithChecksums;
  }

  lemma MergedTraceIds(l: Parsed, r: Parsed, o: MergeOptions)
    requires |l.names| + |r.names| + 1 < TWO32
    ensures var m, b := BothMerged(l, r, o), BiasOf(o);
            && WindowIds(m.windows) == WindowIds(l.windows) + Shift(WindowIds(r.windows), b)
            && WaveIds(m.waves) == KeptIds(l.waves) + Shift(KeptIds(r.waves), b)
  {
    hide PoolAll, Kept, KeptMarkers, MapName, Mapped;
  }

  // ----- references

  /** The ids of a package that a reference can name. */
  ghost predicate IdsBelow(p: Parsed, bound: u32) {
    && AllBelow(RouteIds(p.routes), bound) && AllBelow(InstIds(p.insts), bound) && AllBelow(CalibIds(p.calibs), bound)
    && AllBelow(WindowIds(p.windows), bound) && AllBelow(WaveIds(p.waves), bound)
  }

  ghost predicate IdsShiftable(p: Parsed, bias: u32) {
    && Shiftable(RouteIds(p.routes), bias) && Shiftable(InstIds(p.insts), bias) && Shiftable(CalibIds(p.calibs), bias)
    && Shiftable(WindowIds(p.windows), bias) && Shiftable(WaveIds(p.waves), bias)
  }

  /** An optional reference of a record that is merged with a bias: unset, or set to an id of the merged table. */
  predicate OptionalFits(xs: seq<u32>, ys: seq<u32>, bias: u32, id: u32) {
    id == 0 || id in xs + Shift(ys, bias)
  }

  /** A left window's block is not dropped as empty, or the right side has one of that id. */
  predicate LeftWindowFits(l: Parsed, r: Parsed, o: MergeOptions, w: Window) {
    OptionalFits(KeptIds(l.waves), KeptIds(r.waves), BiasOf(o), w.waveBlockId)
  }

  /** A right window's shifted ids: the route is not zero, calibration and block are unset or present. */
  predicate RightWindowFits(l: Parsed, r: Parsed, o: MergeOptions, w: Window) {
    var b := BiasOf(o);
    && Biased(w.routeId, b) != 0
    && OptionalFits(CalibIds(l.calibs), CalibIds(r.calibs), b, Biased(w.calibId, b))
    && OptionalFits(KeptIds(l.waves), KeptIds(r.waves), b, Biased(w.waveBlockId, b))
  }

  predicate RightWaveFits(l: Parsed, r: Parsed, o: MergeOptions, w: Wave) {
    w.samples != [] ==>
      OptionalFits(WindowIds(l.windows), WindowIds(r.windows), BiasOf(o), Biased(w.windowId, BiasOf(o)))
  }

  predicate RightMarkerFits(o: MergeOptions, m: Marker) {
    Biased(m.windowId, BiasOf(o)) != 0
  }

  predicate RightLinkFits(o: MergeOptions, l: Link) {
    && (l.fromKind == FROM_ROUTE ==> Biased(l.fromId, BiasOf(o)) != 0)
    && (l.toKind == TO_WINDOW ==> Biased(l.toId, BiasOf(o)) != 0)
  }

  /** What a caller has to check of two packages before a merge, for all options and all ids. */
  predicate MergeFits(l: Parsed, r: Parsed, o: MergeOptions) {
    && (forall w | w in l.windows :: LeftWindowFits(l, r, o, w))
    && (forall w | w in r.windows :: RightWindowFits(l, r, o, w))
    && (forall w | w in r.waves :: RightWaveFits(l, r, o, w))
    && (forall m | m in r.markers :: RightMarkerFits(o, m))
    && (forall k | k in r.links :: RightLinkFits(o, k))
  }

  lemma LeftSideBias(l: Parsed)
    requires |l.names| + 1 < TWO32
    ensures LeftSide(l).bias == 0 && LeftSide(l).snam == l.names
  {
    hide PoolAll;
  }

  lemma RightSideBias(l: Parsed, r: Parsed, o: MergeOptions)
    requires |l.names| + |r.names| + 1 < TWO32
    ensures RightSide(l, r, o).bias == BiasOf(o) && RightSide(l, r, o).snam == r.names
  {
    hide PoolAll;
  }

  /** What was in the left table and, shifted, what was in the right one is in the merged one. */
  lemma StillIn(xs: seq<u32>, ys: seq<u32>, bias: u32)
    ensures forall x | x in xs :: Biased(x, 0) in xs + Shift(ys, bias)
    ensures forall y | y in ys :: Biased(y, bias) in xs + Shift(ys, bias)
  {
    forall y | y in ys ensures Biased(y, bias) in xs + Shift(ys, bias) {
      ShiftedIn(ys, bias, y);
    }
  }

  lemma ZeroBias(x: u32)
    ensures Biased(x, 0) == x
  {
  }

  /** One record of each kind in the merged package. */
  lemma WindowFits(l: Parsed, r: Parsed, o: MergeOptions, w: Window)
    requires |l.names| + |r.names| + 1 < TWO32
    ensures var m := BothMerged(l, r, o);
            && (WindowOk(l, w) ==> (WindowOk(m, MergeWindow(LeftSide(l), w)) <==> LeftWindowFits(l, r, o, w)))
            && (WindowOk(r, w) ==> (WindowOk(m, MergeWindow(RightSide(l, r, o), w)) <==> RightWindowFits(l, r, o, w)))
  {
    hide BothMerged, LeftSide, RightSide, RouteIds, InstIds, CalibIds, WindowIds, WaveIds, KeptIds, Shift, Biased;
    var b := BiasOf(o);
    MergedIds(l, r, o);
    MergedTraceIds(l, r, o);
    LeftSideBias(l);
    RightSideBias(l, r, o);
    StillIn(RouteIds(l.routes), RouteIds(r.routes), b);
    StillIn(InstIds(l.insts), InstIds(r.insts), b);
    StillIn(CalibIds(l.calibs), CalibIds(r.calibs), b);
    forall x: u32 ensures Biased(x, 0) == x { ZeroBias(x); }
  }

  lemma WaveFits(l: Parsed, r: Parsed, o: MergeOptions, w: Wave)
    requires |l.names| + |r.names| + 1 < TWO32 && w.samples != []
    ensures var m := BothMerged(l, r, o);
            && (WaveOk(l, w) ==> WaveOk(m, WithChecksum(MergeWave(LeftSide(l), w))))
            && (WaveOk(r, w) ==>
                  (WaveOk(m, WithChecksum(MergeWave(RightSide(l, r, o), w))) <==> RightWaveFits(l, r, o, w)))
  {
    hide BothMerged, LeftSide, RightSide, WindowIds, WaveIds, KeptIds, Shift, Biased;
    MergedTraceIds(l, r, o);
    LeftSideBias(l);
    RightSideBias(l, r, o);
    StillIn(WindowIds(l.windows), WindowIds(r.windows), BiasOf(o));
    ZeroBias(w.windowId);
  }

  lemma MarkerFits(l: Parsed, r: Parsed, o: MergeOptions, x: Marker)
    requires |l.names| + |r.names| + 1 < TWO32
    ensures var m := BothMerged(l, r, o);
            && (x.windowId in WindowIds(l.windows) ==>
                  (MarkerOk(m, MergeMarker(LeftSide(l), x)) <==> x.windowId != 0))
            && (x.windowId in WindowIds(r.windows) ==>
                  (MarkerOk(m, MergeMarker(RightSide(l, r, o), x)) <==> RightMarkerFits(o, x)))
  {
    hide BothMerged, LeftSide, RightSide, WindowIds, WaveIds, KeptIds, Shift, Biased, MapName;
    MergedTraceIds(l, r, o);
    LeftSideBias(l);
    RightSideBias(l, r, o);
    StillIn(WindowIds(l.windows), WindowIds(r.windows), BiasOf(o));
    ZeroBias(x.windowId);
  }

  lemma LinkFits(l: Parsed, r: Parsed, o: MergeOptions, x: Link)
    requires |l.names| + |r.names| + 1 < TWO32
    ensures var m := BothMerged(l, r, o);
            && (LinkOk(l, x) ==> LinkOk(m, MergeLink(LeftSide(l), x)))
            && (LinkOk(r, x) ==> (LinkOk(m, MergeLink(RightSide(l, r, o), x)) <==> RightLinkFits(o, x)))
  {
    hide BothMerged, LeftSide, RightSide, RouteIds, InstIds, CalibIds, WindowIds, WaveIds, KeptIds, Shift, Biased;
    MergedIds(l, r, o);
    MergedTraceIds(l, r, o);
    LeftSideBias(l);
    RightSideBias(l, r, o);
    StillIn(RouteIds(l.routes), RouteIds(r.routes), BiasOf(o));
    StillIn(WindowIds(l.windows), WindowIds(r.windows), BiasOf(o));
    ZeroBias(x.fromId);
    ZeroBias(x.toId);
  }

  /** Row by row: each merged table is the image of the left one followed by the image of the right one. */
  lemma MergedRows(l: Parsed, r: Parsed, o: MergeOptions)
    requires |l.names| + |r.names| + 1 < TWO32
    ensures var m, sl, sr := BothMerged(l, r, o), LeftSide(l), RightSide(l, r, o);
            && m.names == sr.pool && sl.pool <= sr.pool
            && m.routes == Mapped(RouteMap(sl), l.routes) + Mapped(RouteMap(sr), r.routes)
            && m.insts == Mapped(InstMap(sl), l.insts) + Mapped(InstMap(sr), r.insts)
            && m.windows == Mapped(WindowMap(sl), l.windows) + Mapped(WindowMap(sr), r.windows)
            && m.waves == WithChecksums(Mapped(WaveMap(sl), Kept(l.waves)) + Mapped(WaveMap(sr), Kept(r.waves)))
            && m.markers == Mapped(MarkerMap(sl), KeptMarkers(o, l.windows, l.markers))
                            + Mapped(MarkerMap(sr), KeptMarkers(o, r.windows, r.markers))
            && m.links == Mapped(LinkMap(sl), l.links) + Mapped(LinkMap(sr), r.links)
  {
    hide PoolAll, Kept, KeptMarkers, Mapped, RouteMap, InstMap, WindowMap, WaveMap, MarkerMap, LinkMap, WithChecksums;
    assert Merged(NO_TABLES, l, r, o).waves ==
           Mapped(WaveMap(LeftSide(l)), Kept(l.waves)) + Mapped(WaveMap(RightSide(l, r, o)), Kept(r.waves));
  }

  lemma MergedNamesOk(l: Parsed, r: Parsed, o: MergeOptions)
    requires |l.names| + |r.names| + 1 < TWO32
    ensures NamesOk(BothMerged(l, r, o))
  {
    hide PoolAll, BothMerged, LeftSide, RightSide, MapName, Pool, HoldsAll, NameKnown, Kept, KeptMarkers, Biased;
    var m, sl, sr := BothMerged(l, r, o), LeftSide(l), RightSide(l, r, o);
    MergedRows(l, r, o);
    SidesPool(l, r, o);
    forall id ensures NameKnown(m.names, MapName(sl, id)) && NameKnown(m.names, MapName(sr, id)) {
      MappedNameKnown(sl, m.names, id);
      MappedNameKnown(sr, m.names, id);
    }
    forall i | 0 <= i < |m.routes| ensures RouteNamed(m.names, m.routes[i]) {
      var k := i - |l.routes|;
      assert m.routes[i] == if k < 0 then MergeRoute(sl, l.routes[i]) else MergeRoute(sr, r.routes[k]);
    }
    forall i | 0 <= i < |m.insts| ensures InstNamed(m.names, m.insts[i]) {
      var k := i - |l.insts|;
      assert m.insts[i] == if k < 0 then MergeInst(sl, l.insts[i]) else MergeInst(sr, r.insts[k]);
    }
    var ml, mr := KeptMarkers(o, l.windows, l.markers), KeptMarkers(o, r.windows, r.markers);
    forall i | 0 <= i < |m.markers| ensures NameKnown(m.names, m.markers[i].labelNameId) {
      var k := i - |ml|;
      assert m.markers[i] == if k < 0 then MergeMarker(sl, ml[i]) else MergeMarker(sr, mr[k]);
    }
  }

  lemma SidesPool(l: Parsed, r: Parsed, o: MergeOptions)
    requires |l.names| + |r.names| + 1 < TWO32
    ensures var sl, sr := LeftSide(l), RightSide(l, r, o);
            Pool(sl.pool) && HoldsAll(sl.pool, sl.snam) && Pool(sr.pool) && HoldsAll(sr.pool, sr.snam)
  {
    hide HoldsAll, Pool, PoolAll;
    PoolStart();
    PoolAllKeeps([], l.names);
    PoolAllKeeps(LeftSide(l).pool, r.names);
  }

  lemma PoolStart()
    ensures Pool([])
  {
  }

  /** Table by table. */
  lemma WindowsFit(l: Parsed, r: Parsed, o: MergeOptions)
    requires |l.names| + |r.names| + 1 < TWO32
    requires forall i | 0 <= i < |l.windows| :: WindowOk(l, l.windows[i])
    requires forall i | 0 <= i < |r.windows| :: WindowOk(r, r.windows[i])
    ensures var m := BothMerged(l, r, o);
            (forall i | 0 <= i < |m.windows| :: WindowOk(m, m.windows[i])) <==>
              (forall w | w in l.windows :: LeftWindowFits(l, r, o, w))
              && (forall w | w in r.windows :: RightWindowFits(l, r, o, w))
  {
    hide BothMerged, LeftSide, RightSide, WindowOk, LeftWindowFits, RightWindowFits, MergeWindow, Kept, KeptMarkers;
    var m, sl, sr, n := BothMerged(l, r, o), LeftSide(l), RightSide(l, r, o), |l.windows|;
    MergedRows(l, r, o);
    forall i | 0 <= i < |m.windows|
      ensures WindowOk(m, m.windows[i]) <==>
              if i < n then LeftWindowFits(l, r, o, l.windows[i]) else RightWindowFits(l, r, o, r.windows[i - n])
    {
      var w := if i < n then l.windows[i] else r.windows[i - n];
      assert m.windows[i] == MergeWindow(if i < n then sl else sr, w);
      WindowFits(l, r, o, w);
    }
    if forall i | 0 <= i < |m.windows| :: WindowOk(m, m.windows[i]) {
      forall j: nat | j < |r.windows| ensures RightWindowFits(l, r, o, r.windows[j]) {
        assert WindowOk(m, m.windows[n + j]);
      }
    }
  }

  lemma WavesFit(l: Parsed, r: Parsed, o: MergeOptions)
    requires |l.names| + |r.names| + 1 < TWO32
    requires forall i | 0 <= i < |l.waves| :: WaveOk(l, l.waves[i])
    requires forall i | 0 <= i < |r.waves| :: WaveOk(r, r.waves[i])
    ensures var m := BothMerged(l, r, o);
            (forall i | 0 <= i < |m.waves| :: WaveOk(m, m.waves[i])) <==>
              (forall w | w in r.waves :: RightWaveFits(l, r, o, w))
  {
    hide BothMerged, LeftSide, RightSide, WaveOk, RightWaveFits, MergeWave, Kept, KeptMarkers, WithChecksum;
    var m, sl, sr := BothMerged(l, r, o), LeftSide(l), RightSide(l, r, o);
    var kl, kr := Kept(l.waves), Kept(r.waves);
    var n := |kl|;
    MergedRows(l, r, o);
    forall i | 0 <= i < |m.waves|
      ensures WaveOk(m, m.waves[i]) <==> (i < n || RightWaveFits(l, r, o, kr[i - n]))
    {
      var w := if i < n then kl[i] else kr[i - n];
      assert w in (if i < n then kl else kr);
      assert m.waves[i] == WithChecksum(MergeWave(if i < n then sl else sr, w));
      WaveFits(l, r, o, w);
    }
    if forall i | 0 <= i < |m.waves| :: WaveOk(m, m.waves[i]) {
      forall j: nat | j < |kr| ensures RightWaveFits(l, r, o, kr[j]) {
        assert WaveOk(m, m.waves[n + j]);
      }
    }
    OnlyKeptMatter(l, r, o);
  }

  lemma OnlyKeptMatter(l: Parsed, r: Parsed, o: MergeOptions)
    ensures (forall w | w in r.waves :: RightWaveFits(l, r, o, w)) <==>
            (forall w | w in Kept(r.waves) :: RightWaveFits(l, r, o, w))
  {
    hide Kept, WindowIds, Shift, OptionalFits;
  }

  lemma MarkersFit(l: Parsed, r: Parsed, o: MergeOptions)
    requires |l.names| + |r.names| + 1 < TWO32
    requires forall i | 0 <= i < |l.markers| :: MarkerOk(l, l.markers[i])
    requires forall i | 0 <= i < |r.markers| :: MarkerOk(r, r.markers[i])
    ensures var m := BothMerged(l, r, o);
            (forall i | 0 <= i < |m.markers| :: MarkerOk(m, m.markers[i])) <==>
              (forall x | x in r.markers :: RightMarkerFits(o, x))
  {
    hide BothMerged, LeftSide, RightSide, MarkerOk, RightMarkerFits, MergeMarker, Kept, KeptMarkers, WindowIds;
    var m, sl, sr := BothMerged(l, r, o), LeftSide(l), RightSide(l, r, o);
    var ml, mr := KeptMarkers(o, l.windows, l.markers), KeptMarkers(o, r.windows, r.markers);
    var n := |ml|;
    MergedRows(l, r, o);
    forall i | 0 <= i < |m.markers|
      ensures MarkerOk(m, m.markers[i]) <==> (i < n || RightMarkerFits(o, mr[i - n]))
    {
      var x := if i < n then ml[i] else mr[i - n];
      assert x in (if i < n then ml else mr);
      assert m.markers[i] == MergeMarker(if i < n then sl else sr, x);
      MarkerFits(l, r, o, x);
      LinkedMarker(if i < n then l else r, x);
    }
    if forall i | 0 <= i < |m.markers| :: MarkerOk(m, m.markers[i]) {
      forall j: nat | j < |mr| ensures RightMarkerFits(o, mr[j]) {
        assert MarkerOk(m, m.markers[n + j]);
      }
    }
    LinkedAreKept(r, o);
  }

  /** Dropping unlinked markers mends all but one kind of marker reference, in any two packages: the merged markers all
      resolve exactly when no marker that is kept names window zero, after the shift on the right side. */
  lemma DroppingMends(l: Parsed, r: Parsed, o: MergeOptions)
    requires |l.names| + |r.names| + 1 < TWO32 && o.dropUnlinked
    ensures var m := BothMerged(l, r, o);
            (forall i | 0 <= i < |m.markers| :: MarkerOk(m, m.markers[i])) <==>
              (forall x | x in l.markers && x.windowId in WindowIds(l.windows) :: x.windowId != 0)
              && (forall x | x in r.markers && x.windowId in WindowIds(r.windows) :: RightMarkerFits(o, x))
  {
    hide BothMerged, LeftSide, RightSide, MarkerOk, RightMarkerFits, MergeMarker, Kept, KeptMarkers, WindowIds;
    var m, sl, sr := BothMerged(l, r, o), LeftSide(l), RightSide(l, r, o);
    var ml, mr := KeptMarkers(o, l.windows, l.markers), KeptMarkers(o, r.windows, r.markers);
    var n := |ml|;
    MergedRows(l, r, o);
    forall i | 0 <= i < |m.markers|
      ensures MarkerOk(m, m.markers[i]) <==> if i < n then ml[i].windowId != 0 else RightMarkerFits(o, mr[i - n])
    {
      var x := if i < n then ml[i] else mr[i - n];
      assert x in (if i < n then ml else mr);
      assert m.markers[i] == MergeMarker(if i < n then sl else sr, x);
      MarkerFits(l, r, o, x);
    }
    if forall i | 0 <= i < |m.markers| :: MarkerOk(m, m.markers[i]) {
      forall j: nat | j < |ml| ensures ml[j].windowId != 0 {
        assert MarkerOk(m, m.markers[j]);
      }
      forall j: nat | j < |mr| ensures RightMarkerFits(o, mr[j]) {
        assert MarkerOk(m, m.markers[n + j]);
      }
    }
  }

  lemma LinkedMarker(p: Parsed, x: Marker)
    ensures MarkerOk(p, x) <==> x.windowId in WindowIds(p.windows) && x.windowId != 0
  {
  }

  /** A marker whose window exists is never dropped. */
  lemma LinkedAreKept(r: Parsed, o: MergeOptions)
    requires forall i | 0 <= i < |r.markers| :: MarkerOk(r, r.markers[i])
    ensures forall x :: x in KeptMarkers(o, r.windows, r.markers) <==> x in r.markers
  {
    hide KeptMarkers, WindowIds;
  }

  lemma LinksFit(l: Parsed, r: Parsed, o: MergeOptions)
    requires |l.names| + |r.names| + 1 < TWO32
    requires forall i | 0 <= i < |l.links| :: LinkOk(l, l.links[i])
    requires forall i | 0 <= i < |r.links| :: LinkOk(r, r.links[i])
    ensures var m := BothMerged(l, r, o);
            (forall i | 0 <= i < |m.links| :: LinkOk(m, m.links[i])) <==>
              (forall x | x in r.links :: RightLinkFits(o, x))
  {
    hide BothMerged, LeftSide, RightSide, LinkOk, RightLinkFits, MergeLink, Kept, KeptMarkers;
    var m, sl, sr, n := BothMerged(l, r, o), LeftSide(l), RightSide(l, r, o), |l.links|;
    MergedRows(l, r, o);
    forall i | 0 <= i < |m.links|
      ensures LinkOk(m, m.links[i]) <==> (i < n || RightLinkFits(o, r.links[i - n]))
    {
      var x := if i < n then l.links[i] else r.links[i - n];
      assert m.links[i] == MergeLink(if i < n then sl else sr, x);
      LinkFits(l, r, o, x);
    }
    if forall i | 0 <= i < |m.links| :: LinkOk(m, m.links[i]) {
      forall j: nat | j < |r.links| ensures RightLinkFits(o, r.links[j]) {
        assert LinkOk(m, m.links[n + j]);
      }
    }
  }

  /** Exactly when merging keeps references intact, for all options and all ids: of two packages whose references all
      resolve, the merged references all resolve if and only if the packages fit. */
  lemma MergeKeepsReferences(l: Parsed, r: Parsed, o: MergeOptions)
    requires |l.names| + |r.names| + 1 < TWO32
    requires XrefOk(l) && XrefOk(r)
    ensures XrefOk(BothMerged(l, r, o)) <==> MergeFits(l, r, o)
  {
    hide BothMerged, WindowOk, MarkerOk, WaveOk, LinkOk, NamesOk, LeftWindowFits, RightWindowFits, RightWaveFits,
         RightMarkerFits, RightLinkFits;
    MergedNamesOk(l, r, o);
    WindowsFit(l, r, o);
    WavesFit(l, r, o);
    MarkersFit(l, r, o);
    LinksFit(l, r, o);
  }

  // ----- the condition with remapping, and without

  /** With remapping and apart ids: left blocks in use are not empty; right windows have a block that is not, and a
      calibration unless id zero is one, because a shifted zero is not zero; right blocks have a window unless id zero
      is one. */
  predicate MergeSafe(l: Parsed, r: Parsed) {
    && (forall w | w in l.windows :: w.waveBlockId == 0 || w.waveBlockId in KeptIds(l.waves))
    && (forall w | w in r.windows ::
          (w.calibId == 0 ==> 0 in CalibIds(r.calibs)) && w.waveBlockId in KeptIds(r.waves))
    && (forall w | w in r.waves :: w.samples != [] && w.windowId == 0 ==> 0 in WindowIds(r.windows))
  }

  /** Without remapping: every block in use is not empty on one side or the other. */
  predicate BlocksKept(l: Parsed, r: Parsed) {
    forall w | w in l.windows + r.windows ::
      w.waveBlockId == 0 || w.waveBlockId in KeptIds(l.waves) || w.waveBlockId in KeptIds(r.waves)
  }

  lemma IdIn(ids: seq<u32>, k: nat)
    requires k < |ids|
    ensures ids[k] in ids
  {
  }

  lemma KeptIn(ws: seq<Wave>, id: u32)
    requires id in KeptIds(ws)
    ensures id in WaveIds(ws)
  {
    hide Kept;
    var k :| 0 <= k < |Kept(ws)| && Kept(ws)[k].blockId == id;
    var j :| 0 <= j < |ws| && ws[j] == Kept(ws)[k];
    assert WaveIds(ws)[j] == id;
  }

  lemma KeptBounds(ws: seq<Wave>, n: u32)
    ensures Shiftable(WaveIds(ws), n) ==> Shiftable(KeptIds(ws), n)
    ensures AllBelow(WaveIds(ws), n) ==> AllBelow(KeptIds(ws), n)
  {
    forall k | 0 <= k < |KeptIds(ws)| ensures KeptIds(ws)[k] in WaveIds(ws) {
      IdIn(KeptIds(ws), k);
      KeptIn(ws, KeptIds(ws)[k]);
    }
  }

  lemma MemberBelow(ids: seq<u32>, bound: u32, id: u32)
    requires AllBelow(ids, bound) && id in ids
    ensures id < bound
  {
  }

  /** An id that is unset or known can be shifted, and only zero is shifted to the bias. */
  lemma MemberShiftable(ids: seq<u32>, bias: u32, id: u32)
    requires Shiftable(ids, bias) && (id == 0 || id in ids)
    ensures id + bias < TWO32 && Biased(id, bias) == id + bias
  {
  }

  lemma LeftWindowSafe(l: Parsed, r: Parsed, o: MergeOptions, w: Window)
    requires o.remap && IdsBelow(l, BIAS) && IdsShiftable(r, BIAS) && WindowOk(l, w)
    ensures LeftWindowFits(l, r, o, w) <==> w.waveBlockId == 0 || w.waveBlockId in KeptIds(l.waves)
  {
    hide RouteIds, InstIds, CalibIds, WindowIds, WaveIds, KeptIds, Shift, Shiftable, AllBelow;
    KeptBounds(r.waves, BIAS);
    if w.waveBlockId != 0 {
      MemberBelow(WaveIds(l.waves), BIAS, w.waveBlockId);
      LeftIn(KeptIds(l.waves), KeptIds(r.waves), BIAS, w.waveBlockId);
    }
  }

  lemma RightWindowSafe(l: Parsed, r: Parsed, o: MergeOptions, w: Window)
    requires o.remap && IdsBelow(l, BIAS) && IdsShiftable(r, BIAS) && WindowOk(r, w)
    ensures RightWindowFits(l, r, o, w) <==>
            (w.calibId == 0 ==> 0 in CalibIds(r.calibs)) && w.waveBlockId in KeptIds(r.waves)
  {
    hide RouteIds, InstIds, CalibIds, WindowIds, WaveIds, KeptIds, Shift, Shiftable, AllBelow, Biased;
    KeptBounds(l.waves, BIAS);
    MemberShiftable(RouteIds(r.routes), BIAS, w.routeId);
    MemberShiftable(CalibIds(r.calibs), BIAS, w.calibId);
    MemberShiftable(WaveIds(r.waves), BIAS, w.waveBlockId);
    RightIn(CalibIds(l.calibs), CalibIds(r.calibs), BIAS, w.calibId);
    RightIn(KeptIds(l.waves), KeptIds(r.waves), BIAS, w.waveBlockId);
  }

  lemma RightWaveSafe(l: Parsed, r: Parsed, o: MergeOptions, b: Wave)
    requires o.remap && IdsBelow(l, BIAS) && IdsShiftable(r, BIAS) && WaveOk(r, b)
    ensures RightWaveFits(l, r, o, b) <==> (b.samples != [] && b.windowId == 0 ==> 0 in WindowIds(r.windows))
  {
    hide RouteIds, InstIds, CalibIds, WindowIds, WaveIds, Shift, Shiftable, AllBelow, Biased;
    MemberShiftable(WindowIds(r.windows), BIAS, b.windowId);
    RightIn(WindowIds(l.windows), WindowIds(r.windows), BIAS, b.windowId);
  }

  /** Markers and links only name ids that are set, which stay so unless they wrap to zero. */
  lemma NamedFit(r: Parsed, o: MergeOptions)
    requires IdsShiftable(r, BiasOf(o))
    ensures forall m | MarkerOk(r, m) :: RightMarkerFits(o, m)
    ensures forall k | LinkOk(r, k) :: RightLinkFits(o, k)
  {
    hide RouteIds, InstIds, CalibIds, WindowIds, WaveIds, Shiftable, Biased;
    forall m | MarkerOk(r, m) ensures RightMarkerFits(o, m) {
      MemberShiftable(WindowIds(r.windows), BiasOf(o), m.windowId);
    }
    forall k | LinkOk(r, k) ensures RightLinkFits(o, k) {
      if k.fromKind == FROM_ROUTE {
        MemberShiftable(RouteIds(r.routes), BiasOf(o), k.fromId);
      }
      if k.toKind == TO_WINDOW {
        MemberShiftable(WindowIds(r.windows), BiasOf(o), k.toId);
      }
    }
  }

  /** The references of a package, record by record. */
  lemma RecordsOk(p: Parsed)
    requires XrefOk(p)
    ensures (forall w | w in p.windows :: WindowOk(p, w)) && (forall b | b in p.waves :: WaveOk(p, b))
    ensures (forall m | m in p.markers :: MarkerOk(p, m)) && (forall k | k in p.links :: LinkOk(p, k))
  {
    hide WindowOk, MarkerOk, WaveOk, LinkOk, NamesOk;
  }

  /** With remapping, left ids below the bias and right ids that do not wrap, to fit is to be merge-safe. */
  lemma RemapKeepsReferences(l: Parsed, r: Parsed, o: MergeOptions)
    requires |l.names| + |r.names| + 1 < TWO32 && o.remap && IdsBelow(l, BIAS) && IdsShiftable(r, BIAS)
    requires XrefOk(l) && XrefOk(r)
    ensures XrefOk(BothMerged(l, r, o)) <==> MergeSafe(l, r)
  {
    MergeKeepsReferences(l, r, o);
    RecordsOk(l);
    RecordsOk(r);
    NamedFit(r, o);
    hide XrefOk, BothMerged, IdsBelow, IdsShiftable, WindowOk, WaveOk, MarkerOk, LinkOk, LeftWindowFits,
         RightWindowFits, RightWaveFits, RightMarkerFits, RightLinkFits, KeptIds, WindowIds, CalibIds;
    forall w | w in l.windows
      ensures LeftWindowFits(l, r, o, w) <==> w.waveBlockId == 0 || w.waveBlockId in KeptIds(l.waves)
    {
      LeftWindowSafe(l, r, o, w);
    }
    forall w | w in r.windows
      ensures RightWindowFits(l, r, o, w) <==>
              (w.calibId == 0 ==> 0 in CalibIds(r.calibs)) && w.waveBlockId in KeptIds(r.waves)
    {
      RightWindowSafe(l, r, o, w);
    }
    forall b | b in r.waves
      ensures RightWaveFits(l, r, o, b) <==> (b.samples != [] && b.windowId == 0 ==> 0 in WindowIds(r.windows))
    {
      RightWaveSafe(l, r, o, b);
    }
  }

  /** Merge-safe packages fit under every option, whatever the left ids are. */
  lemma MergeSafeSuffices(l: Parsed, r: Parsed, o: MergeOptions)
    requires |l.names| + |r.names| + 1 < TWO32 && IdsShiftable(r, BiasOf(o))
    requires XrefOk(l) && XrefOk(r) && MergeSafe(l, r)
    ensures XrefOk(BothMerged(l, r, o))
  {
    MergeKeepsReferences(l, r, o);
    RecordsOk(l);
    RecordsOk(r);
    NamedFit(r, o);
    hide XrefOk, BothMerged, IdsShiftable, WindowOk, WaveOk, LinkOk, MarkerOk, LeftWindowFits, RightWindowFits,
         RightWaveFits, RightMarkerFits, RightLinkFits, KeptIds, WindowIds, CalibIds;
    forall w | w in l.windows ensures LeftWindowFits(l, r, o, w) { SafeLeftWindow(l, r, o, w); }
    forall w | w in r.windows ensures RightWindowFits(l, r, o, w) { SafeRightWindow(l, r, o, w); }
    forall b | b in r.waves ensures RightWaveFits(l, r, o, b) { SafeRightWave(l, r, o, b); }
  }

  lemma SafeLeftWindow(l: Parsed, r: Parsed, o: MergeOptions, w: Window)
    requires w.waveBlockId == 0 || w.waveBlockId in KeptIds(l.waves)
    ensures LeftWindowFits(l, r, o, w)
  {
    hide KeptIds, Shift;
  }

  lemma SafeRightWindow(l: Parsed, r: Parsed, o: MergeOptions, w: Window)
    requires IdsShiftable(r, BiasOf(o)) && WindowOk(r, w)
    requires (w.calibId == 0 ==> 0 in CalibIds(r.calibs)) && w.waveBlockId in KeptIds(r.waves)
    ensures RightWindowFits(l, r, o, w)
  {
    hide RouteIds, InstIds, CalibIds, WaveIds, WindowIds, KeptIds, Shift, Shiftable, Biased;
    MemberShiftable(RouteIds(r.routes), BiasOf(o), w.routeId);
    StillIn(CalibIds(l.calibs), CalibIds(r.calibs), BiasOf(o));
    StillIn(KeptIds(l.waves), KeptIds(r.waves), BiasOf(o));
  }

  lemma SafeRightWave(l: Parsed, r: Parsed, o: MergeOptions, b: Wave)
    requires WaveOk(r, b) && (b.samples != [] && b.windowId == 0 ==> 0 in WindowIds(r.windows))
    ensures RightWaveFits(l, r, o, b)
  {
    hide WindowIds, Shift, Biased;
    StillIn(WindowIds(l.windows), WindowIds(r.windows), BiasOf(o));
  }

  lemma NoShift(ids: seq<u32>)
    ensures Shift(ids, 0) == ids && Shiftable(ids, 0)
  {
  }

  lemma NothingShifts(r: Parsed)
    ensures IdsShiftable(r, 0)
  {
    NoShift(RouteIds(r.routes));
    NoShift(InstIds(r.insts));
    NoShift(CalibIds(r.calibs));
    NoShift(WindowIds(r.windows));
    NoShift(WaveIds(r.waves));
  }

  lemma UnshiftedFit(l: Parsed, r: Parsed, o: MergeOptions)
    requires !o.remap
    ensures forall w | WindowOk(l, w) ::
              LeftWindowFits(l, r, o, w) <==>
              w.waveBlockId == 0 || w.waveBlockId in KeptIds(l.waves) || w.waveBlockId in KeptIds(r.waves)
    ensures forall w | WindowOk(r, w) ::
              RightWindowFits(l, r, o, w) <==>
              w.waveBlockId == 0 || w.waveBlockId in KeptIds(l.waves) || w.waveBlockId in KeptIds(r.waves)
    ensures forall b | WaveOk(r, b) :: RightWaveFits(l, r, o, b)
  {
    hide RouteIds, InstIds, CalibIds, WindowIds, WaveIds, KeptIds, Shift, Biased;
    NoShift(CalibIds(r.calibs));
    NoShift(KeptIds(r.waves));
    NoShift(WindowIds(r.windows));
    forall x: u32 ensures Biased(x, 0) == x { ZeroBias(x); }
  }

  /** Without remapping nothing is shifted, and the references stay intact exactly when no block in use is dropped as
      empty on both sides. */
  lemma UnshiftedKeepsReferences(l: Parsed, r: Parsed, o: MergeOptions)
    requires |l.names| + |r.names| + 1 < TWO32 && !o.remap
    requires XrefOk(l) && XrefOk(r)
    ensures XrefOk(BothMerged(l, r, o)) <==> BlocksKept(l, r)
  {
    MergeKeepsReferences(l, r, o);
    RecordsOk(l);
    RecordsOk(r);
    NothingShifts(r);
    NamedFit(r, o);
    UnshiftedFit(l, r, o);
    hide XrefOk, BothMerged, IdsShiftable, WindowOk, WaveOk, MarkerOk, LinkOk, LeftWindowFits, RightWindowFits,
         RightWaveFits, RightMarkerFits, RightLinkFits, KeptIds;
  }

  /** A package with one route, instrument and window whose calibration is unset, as the checks allow. */
  function NoCalibration(): Parsed {
    EMPTY_PARSED.(routes := [Route(1, 0, 0, 0, 0, 0)], insts := [Inst(1, 0, 0, 0, 0, 0, 0)],
                 windows := [Window(1, 1, 1, 0, 1, 0, 0, 0, 0)], waves := [Wave(1, 1, 0, 0, [5], 0, 0)])
  }

  /** A merge can break references: an unset calibration of a right window becomes id 100000. */
  lemma UnsetCalibrationBreaks(o: MergeOptions)
    requires o.remap
    ensures var p := NoCalibration(); XrefOk(p) && !XrefOk(BothMerged(EMPTY_PARSED, p, o))
  {
    hide XrefOk, BothMerged, MergeFits, NoCalibration;
    NoCalibrationIsFine(o);
    EmptyIsFine();
    MergeKeepsReferences(EMPTY_PARSED, NoCalibration(), o);
  }

  lemma NoCalibrationIsFine(o: MergeOptions)
    requires o.remap
    ensures var p := NoCalibration(); XrefOk(p) && !MergeFits(EMPTY_PARSED, p, o) && p.names == []
  {
    hide KeptIds;
    var p := NoCalibration();
    assert RouteIds(p.routes) == [1] && InstIds(p.insts) == [1] && WindowIds(p.windows) == [1];
    assert WaveIds(p.waves) == [1] && CalibIds(p.calibs) == [];
    assert CalibIds(EMPTY_PARSED.calibs) + Shift(CalibIds(p.calibs), BIAS) == [];
    assert !RightWindowFits(EMPTY_PARSED, p, o, p.windows[0]);
  }

  lemma EmptyIsFine()
    ensures XrefOk(EMPTY_PARSED)
  {
  }

  // ----- merge, write, read

  /** References only depend on the tables that hold them. */
  lemma SameReferences(p: Parsed, q: Parsed)
    requires p.names == q.names && p.routes == q.routes && p.insts == q.insts && p.calibs == q.calibs
    requires p.windows == q.windows && p.waves == q.waves && p.markers == q.markers && p.links == q.links
    ensures XrefOk(p) <==> XrefOk(q)
  {
  }

  /** From two packages to one file: the merged builder's image opens, even in the strict mode, as a package whose
      references all resolve, exactly when the two packages fit. */
  lemma MergedImageOpens(l: Parsed, r: Parsed, o: MergeOptions, w: WriteOptions)
    requires |l.names| + |r.names| + 1 < TWO32
    requires XrefOk(l) && XrefOk(r)
    requires var t := Merged(NO_TABLES, l, r, o); Serializable(t, w) && WithinLimits(t, w)
    requires 1 <= w.stamp.verMajor <= 2 && w.includeNotes
    ensures var q := ParseImage(BuilderImage(Merged(NO_TABLES, l, r, o), w), true);
            q.Some? && (XrefOk(q.value) <==> MergeFits(l, r, o))
  {
    hide Merged, XrefOk, MergeFits, WithinLimits, BuilderImage, ParseImage, WithChecksums, BuilderSections;
    var t := Merged(NO_TABLES, l, r, o);
    BuilderRoundTrip(t, w, true);
    MergeKeepsReferences(l, r, o);
    SameReferences(ReadBack(t, w), TablesRead(t));
  }
}
