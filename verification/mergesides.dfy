/** The two sides of a merge stay apart: what every reference of the merged package leads to.

    The index finds the last row of a route, window or wave id; instruments and calibrations are found by scans that
    stop at the first row.  So left references can be drawn to right rows in the first case, and right references to
    left rows in the second, and each case has its own exact condition. */
module MergeSides {
  import opened Types
  import opened Index
  import opened Builder
  import opened Xref
  import opened Merge
  import opened MergeRefs

  // ----- positions in a joined id table

  lemma LastPosIs(ids: seq<u32>, id: u32, k: nat)
    requires k < |ids| && ids[k] == id != 0 && forall j | k < j < |ids| :: ids[j] != id
    ensures LastPos(ids, id) == Some(k)
  {
  }

  lemma {:induction false} LastOfSecond(xs: seq<u32>, zs: seq<u32>, id: u32)
    requires LastPos(zs, id).Some?
    ensures LastPos(xs + zs, id) == Some(|xs| + LastPos(zs, id).value)
  {
    var n := |zs| - 1;
    if zs[n] != id {
      assert (xs + zs)[..|xs + zs| - 1] == xs + zs[..n];
      LastOfSecond(xs, zs[..n], id);
    }
  }

  /** A last-match look-up stays in the left part exactly when the right part does not have the id. */
  lemma LeftLast(xs: seq<u32>, zs: seq<u32>, x: u32)
    ensures LastPos(xs + zs, x) == LastPos(xs, x) <==> x == 0 || x !in zs
  {
    if x != 0 && x in zs {
      LastOfSecond(xs, zs, x);
    } else if LastPos(xs, x).Some? {
      LastPosIs(xs + zs, x, LastPos(xs, x).value);
    }
  }

  lemma {:induction false} ShiftLast(ys: seq<u32>, bias: u32, y: u32)
    requires LastPos(ys, y).Some? && Biased(y, bias) != 0
    ensures LastPos(Shift(ys, bias), Biased(y, bias)) == LastPos(ys, y)
  {
    hide Biased;
    var n := |ys| - 1;
    BiasedInjective(ys[n], y, bias);
    if ys[n] != y {
      assert Shift(ys, bias)[..n] == Shift(ys[..n], bias);
      ShiftLast(ys[..n], bias, y);
    }
  }

  /** A last-match look-up of a shifted right id always stays right, unless the id wraps to zero. */
  lemma RightLast(xs: seq<u32>, ys: seq<u32>, bias: u32, y: u32)
    requires LastPos(ys, y).Some? && Biased(y, bias) != 0
    ensures LastPos(xs + Shift(ys, bias), Biased(y, bias)) == Some(|xs| + LastPos(ys, y).value)
  {
    hide Shift, LastPos, Biased;
    ShiftLast(ys, bias, y);
    LastOfSecond(xs, Shift(ys, bias), Biased(y, bias));
  }

  /** The position in a joined table, from the positions in its parts. */
  function Joined(first: Option<nat>, length: nat, second: Option<nat>): Option<nat> {
    if first.Some? then first else if second.Some? then Some(length + second.value) else None
  }

  lemma FirstOfJoined(xs: seq<u32>, zs: seq<u32>, id: u32)
    ensures FirstPos(xs + zs, id) == Joined(FirstPos(xs, id), |xs|, FirstPos(zs, id))
  {
    hide FirstPos;
    if FirstPos(xs, id).Some? {
      FirstPosIs(xs + zs, id, FirstPos(xs, id).value);
    } else if FirstPos(zs, id).Some? {
      FirstPosIs(xs + zs, id, |xs| + FirstPos(zs, id).value);
    }
  }

  /** A first-match look-up that succeeds in the left part stays there; one that fails stays failed exactly when the
      right part does not have the id. */
  lemma LeftFirst(xs: seq<u32>, zs: seq<u32>, x: u32)
    ensures FirstPos(xs + zs, x) == FirstPos(xs, x) <==> x in xs || x !in zs
  {
    FirstOfJoined(xs, zs, x);
  }

  lemma {:induction false} ShiftFirst(ys: seq<u32>, bias: u32, y: u32)
    ensures FirstPos(Shift(ys, bias), Biased(y, bias)) == FirstPos(ys, y)
    decreases |ys|
  {
    hide Biased;
    if ys != [] {
      BiasedInjective(ys[0], y, bias);
      assert Shift(ys, bias)[1..] == Shift(ys[1..], bias);
      ShiftFirst(ys[1..], bias, y);
    }
  }

  /** A first-match look-up of a shifted right id stays right exactly when the left part does not have it. */
  lemma RightFirst(xs: seq<u32>, ys: seq<u32>, bias: u32, y: u32)
    ensures FirstPos(xs + Shift(ys, bias), Biased(y, bias)) ==
            Joined(FirstPos(xs, Biased(y, bias)), |xs|, FirstPos(ys, y))
  {
    hide Biased, Shift, FirstPos, Joined;
    FirstOfJoined(xs, Shift(ys, bias), Biased(y, bias));
    ShiftFirst(ys, bias, y);
  }

  // ----- the look-ups

  function RouteAt(p: Parsed, id: u32): Option<Route> {
    var k :- LastPos(RouteIds(p.routes), id);
    Some(p.routes[k])
  }

  function WaveAt(ws: seq<Wave>, id: u32): Option<Wave> {
    var k :- LastPos(WaveIds(ws), id);
    Some(ws[k])
  }

  function InstAt(p: Parsed, id: u32): Option<Inst> {
    var k :- FirstPos(InstIds(p.insts), id);
    Some(p.insts[k])
  }

  function CalibAt(p: Parsed, id: u32): Option<Calib> {
    var k :- FirstPos(CalibIds(p.calibs), id);
    Some(p.calibs[k])
  }

  /** The calibration of an instrument. */
  function CalibFor(p: Parsed, instId: u32): Option<Calib> {
    var k :- FirstPos(CalibInstIds(p.calibs), instId);
    Some(p.calibs[k])
  }

  function OptionMap<A, B>(f: A -> B, x: Option<A>): Option<B> {
    if x.Some? then Some(f(x.value)) else None
  }

  // ----- routes, windows and waves

  /** A left id leads to the image of the left record it led to, or to nothing as before, unless the right side has
      it. */
  lemma LeftStaysLeft(l: Parsed, r: Parsed, o: MergeOptions, id: u32)
    requires |l.names| + |r.names| + 1 < TWO32
    ensures var m, s, b := BothMerged(l, r, o), LeftSide(l), BiasOf(o);
            && (id !in Shift(RouteIds(r.routes), b) ==> RouteAt(m, id) == OptionMap(RouteMap(s), RouteAt(l, id)))
            && (id !in Shift(WindowIds(r.windows), b) ==> WindowOf(m, id) == OptionMap(WindowMap(s), WindowOf(l, id)))
  {
    hide BothMerged, LeftSide, RouteIds, WindowIds, Shift, MergeRoute, MergeWindow, Kept, KeptMarkers, WithChecksums,
         LastPos;
    MergedRows(l, r, o);
    MergedIds(l, r, o);
    MergedTraceIds(l, r, o);
    LeftLast(RouteIds(l.routes), Shift(RouteIds(r.routes), BiasOf(o)), id);
    LeftLast(WindowIds(l.windows), Shift(WindowIds(r.windows), BiasOf(o)), id);
  }

  lemma LeftWavesStayLeft(l: Parsed, r: Parsed, o: MergeOptions, id: u32)
    requires |l.names| + |r.names| + 1 < TWO32 && id !in Shift(KeptIds(r.waves), BiasOf(o))
    ensures var m, s := BothMerged(l, r, o), LeftSide(l);
            WaveAt(m.waves, id) == OptionMap(b => WithChecksum(MergeWave(s, b)), WaveAt(Kept(l.waves), id))
  {
    hide BothMerged, LeftSide, WindowIds, WaveIds, Shift, MergeWave, Kept, KeptMarkers, WithChecksum, LastPos;
    MergedRows(l, r, o);
    MergedTraceIds(l, r, o);
    LeftLast(KeptIds(l.waves), Shift(KeptIds(r.waves), BiasOf(o)), id);
  }

  /** A shifted right id leads to the image of the right record it led to, whatever the left side has. */
  lemma RightStaysRight(l: Parsed, r: Parsed, o: MergeOptions, id: u32)
    requires |l.names| + |r.names| + 1 < TWO32 && Biased(id, BiasOf(o)) != 0
    ensures var m, s, b := BothMerged(l, r, o), RightSide(l, r, o), BiasOf(o);
            && (RouteAt(r, id).Some? ==> RouteAt(m, Biased(id, b)) == Some(MergeRoute(s, RouteAt(r, id).value)))
            && (WindowOf(r, id).Some? ==> WindowOf(m, Biased(id, b)) == Some(MergeWindow(s, WindowOf(r, id).value)))
  {
    hide BothMerged, RightSide, RouteAt, WindowOf, MergeRoute, MergeWindow, Biased;
    RightRouteStays(l, r, o, id);
    RightWindowStays(l, r, o, id);
  }

  lemma RightRouteStays(l: Parsed, r: Parsed, o: MergeOptions, id: u32)
    requires |l.names| + |r.names| + 1 < TWO32 && Biased(id, BiasOf(o)) != 0
    ensures RouteAt(r, id).Some? ==>
              RouteAt(BothMerged(l, r, o), Biased(id, BiasOf(o))) ==
              Some(MergeRoute(RightSide(l, r, o), RouteAt(r, id).value))
  {
    hide BothMerged, RightSide, RouteIds, Shift, MergeRoute, Kept, KeptMarkers, LastPos, Biased, WithChecksums;
    MergedRows(l, r, o);
    MergedIds(l, r, o);
    if RouteAt(r, id).Some? {
      RightLast(RouteIds(l.routes), RouteIds(r.routes), BiasOf(o), id);
    }
  }

  lemma RightWindowStays(l: Parsed, r: Parsed, o: MergeOptions, id: u32)
    requires |l.names| + |r.names| + 1 < TWO32 && Biased(id, BiasOf(o)) != 0
    ensures WindowOf(r, id).Some? ==>
              WindowOf(BothMerged(l, r, o), Biased(id, BiasOf(o))) ==
              Some(MergeWindow(RightSide(l, r, o), WindowOf(r, id).value))
  {
    hide BothMerged, RightSide, WindowIds, Shift, MergeWindow, Kept, KeptMarkers, LastPos, Biased, WithChecksums;
    MergedRows(l, r, o);
    MergedTraceIds(l, r, o);
    if WindowOf(r, id).Some? {
      RightLast(WindowIds(l.windows), WindowIds(r.windows), BiasOf(o), id);
    }
  }

  lemma RightWavesStayRight(l: Parsed, r: Parsed, o: MergeOptions, id: u32)
    requires |l.names| + |r.names| + 1 < TWO32 && Biased(id, BiasOf(o)) != 0
    ensures var m, s := BothMerged(l, r, o), RightSide(l, r, o);
            WaveAt(Kept(r.waves), id).Some? ==>
              WaveAt(m.waves, Biased(id, BiasOf(o))) ==
              Some(WithChecksum(MergeWave(s, WaveAt(Kept(r.waves), id).value)))
  {
    hide BothMerged, RightSide, WindowIds, WaveIds, Shift, MergeWave, Kept, KeptMarkers, WithChecksum, LastPos, Biased;
    MergedRows(l, r, o);
    MergedTraceIds(l, r, o);
    if WaveAt(Kept(r.waves), id).Some? {
      RightLast(KeptIds(l.waves), KeptIds(r.waves), BiasOf(o), id);
    }
  }

  // ----- instruments and calibrations

  lemma MergedCalibRows(l: Parsed, r: Parsed, o: MergeOptions)
    requires |l.names| + |r.names| + 1 < TWO32
    ensures var m, sl, sr, b := BothMerged(l, r, o), LeftSide(l), RightSide(l, r, o), BiasOf(o);
            && m.calibs == Mapped(CalibMap(sl), l.calibs) + Mapped(CalibMap(sr), r.calibs)
            && CalibInstIds(m.calibs) == CalibInstIds(l.calibs) + Shift(CalibInstIds(r.calibs), b)
  {
    hide PoolAll, Kept, KeptMarkers, MapName, Mapped, WithChecksums;
  }

  /** A left instrument reference leads to the image of the left record it led to, always; one that led nowhere still
      does, unless the right side has the id. */
  lemma LeftInstrument(l: Parsed, r: Parsed, o: MergeOptions, id: u32)
    requires |l.names| + |r.names| + 1 < TWO32
    requires id in InstIds(l.insts) || id !in Shift(InstIds(r.insts), BiasOf(o))
    ensures InstAt(BothMerged(l, r, o), id) == OptionMap(InstMap(LeftSide(l)), InstAt(l, id))
  {
    hide BothMerged, LeftSide, InstIds, CalibIds, CalibInstIds, Shift, MergeInst, MergeCalib, Kept, KeptMarkers,
         WithChecksums, FirstPos;
    MergedRows(l, r, o);
    MergedIds(l, r, o);
    LeftFirst(InstIds(l.insts), Shift(InstIds(r.insts), BiasOf(o)), id);
  }

  /** The same for the calibration a window names. */
  lemma LeftCalibration(l: Parsed, r: Parsed, o: MergeOptions, id: u32)
    requires |l.names| + |r.names| + 1 < TWO32
    requires id in CalibIds(l.calibs) || id !in Shift(CalibIds(r.calibs), BiasOf(o))
    ensures CalibAt(BothMerged(l, r, o), id) == OptionMap(CalibMap(LeftSide(l)), CalibAt(l, id))
  {
    hide BothMerged, LeftSide, InstIds, CalibIds, CalibInstIds, Shift, MergeInst, MergeCalib, Kept, KeptMarkers,
         WithChecksums, FirstPos;
    MergedIds(l, r, o);
    MergedCalibRows(l, r, o);
    LeftFirst(CalibIds(l.calibs), Shift(CalibIds(r.calibs), BiasOf(o)), id);
  }

  /** The same for the calibration of an instrument. */
  lemma LeftCalibrationFor(l: Parsed, r: Parsed, o: MergeOptions, id: u32)
    requires |l.names| + |r.names| + 1 < TWO32
    requires id in CalibInstIds(l.calibs) || id !in Shift(CalibInstIds(r.calibs), BiasOf(o))
    ensures CalibFor(BothMerged(l, r, o), id) == OptionMap(CalibMap(LeftSide(l)), CalibFor(l, id))
  {
    hide BothMerged, LeftSide, InstIds, CalibIds, CalibInstIds, Shift, MergeInst, MergeCalib, Kept, KeptMarkers,
         WithChecksums, FirstPos;
    MergedCalibRows(l, r, o);
    LeftFirst(CalibInstIds(l.calibs), Shift(CalibInstIds(r.calibs), BiasOf(o)), id);
  }

  /** Where a right instrument reference leads: to the image of the right instrument, unless the left side has the
      shifted id; then it leads to that left instrument. */
  lemma RightInstrument(l: Parsed, r: Parsed, o: MergeOptions, id: u32)
    requires |l.names| + |r.names| + 1 < TWO32
    ensures var m, sl, sr, shifted := BothMerged(l, r, o), LeftSide(l), RightSide(l, r, o), Biased(id, BiasOf(o));
            InstAt(m, shifted) == if InstAt(l, shifted).Some? then OptionMap(InstMap(sl), InstAt(l, shifted))
                                  else OptionMap(InstMap(sr), InstAt(r, id))
  {
    hide BothMerged, LeftSide, RightSide, InstIds, Shift, MergeInst, MergeCalib, Kept, KeptMarkers, WithChecksums,
         FirstPos, Biased;
    MergedRows(l, r, o);
    MergedIds(l, r, o);
    RightFirst(InstIds(l.insts), InstIds(r.insts), BiasOf(o), id);
  }

  /** The same for the calibration a window names. */
  lemma RightCalibration(l: Parsed, r: Parsed, o: MergeOptions, id: u32)
    requires |l.names| + |r.names| + 1 < TWO32
    ensures var m, sl, sr, shifted := BothMerged(l, r, o), LeftSide(l), RightSide(l, r, o), Biased(id, BiasOf(o));
            CalibAt(m, shifted) == if CalibAt(l, shifted).Some? then OptionMap(CalibMap(sl), CalibAt(l, shifted))
                                  else OptionMap(CalibMap(sr), CalibAt(r, id))
  {
    hide BothMerged, LeftSide, RightSide, CalibIds, Shift, MergeInst, MergeCalib, Kept, KeptMarkers, WithChecksums,
         FirstPos, Biased;
    MergedIds(l, r, o);
    MergedCalibRows(l, r, o);
    RightFirst(CalibIds(l.calibs), CalibIds(r.calibs), BiasOf(o), id);
  }

  /** The same for the calibration of an instrument. */
  lemma RightCalibrationFor(l: Parsed, r: Parsed, o: MergeOptions, id: u32)
    requires |l.names| + |r.names| + 1 < TWO32
    ensures var m, sl, sr, shifted := BothMerged(l, r, o), LeftSide(l), RightSide(l, r, o), Biased(id, BiasOf(o));
            CalibFor(m, shifted) == if CalibFor(l, shifted).Some? then OptionMap(CalibMap(sl), CalibFor(l, shifted))
                                  else OptionMap(CalibMap(sr), CalibFor(r, id))
  {
    hide BothMerged, LeftSide, RightSide, CalibInstIds, Shift, MergeInst, MergeCalib, Kept, KeptMarkers, WithChecksums,
         FirstPos, Biased;
    MergedCalibRows(l, r, o);
    RightFirst(CalibInstIds(l.calibs), CalibInstIds(r.calibs), BiasOf(o), id);
  }

  // ----- apart by remapping

  /** With remapping, left ids below the bias and right ids that do not wrap, no id of one side is one of the other. */
  lemma IdsApart(xs: seq<u32>, ys: seq<u32>, id: u32)
    requires AllBelow(xs, BIAS) && Shiftable(ys, BIAS)
    ensures id < BIAS ==> id !in Shift(ys, BIAS)
    ensures id in ys ==> Biased(id, BIAS) !in xs && Biased(id, BIAS) != 0
  {
    if id in Shift(ys, BIAS) {
      var k :| 0 <= k < |ys| && Shift(ys, BIAS)[k] == id;
      assert id == ys[k] + BIAS;
    }
  }

  /** Dropping the empty blocks leaves a block reference where it was exactly when it led to a block with samples or to
      none. */
  lemma {:induction false} KeptFinds(ws: seq<Wave>, id: u32)
    ensures WaveAt(Kept(ws), id) == WaveAt(ws, id) <==>
            (WaveAt(ws, id).Some? ==> WaveAt(ws, id).value.samples != [])
  {
    hide WaveAt;
    FoundIn(ws, id);
    FoundIn(Kept(ws), id);
    if ws != [] {
      var n := |ws| - 1;
      assert ws == ws[..n] + [ws[n]];
      WaveAtSnoc(ws[..n], ws[n], id);
      WaveAtSnoc(Kept(ws[..n]), ws[n], id);
      assert Kept(ws) == if ws[n].samples != [] then Kept(ws[..n]) + [ws[n]] else Kept(ws[..n]);
      KeptFinds(ws[..n], id);
    }
  }

  lemma FoundIn(ws: seq<Wave>, id: u32)
    ensures WaveAt(ws, id).Some? ==> WaveAt(ws, id).value in ws
  {
  }

  lemma WaveAtSnoc(ws: seq<Wave>, w: Wave, id: u32)
    ensures WaveAt(ws + [w], id) == if id != 0 && w.blockId == id then Some(w) else WaveAt(ws, id)
  {
    assert WaveIds(ws + [w])[..|ws|] == WaveIds(ws);
  }

  /** A route id that leads somewhere leads to the image of the record it led to on its own side. */
  lemma RoutesApart(l: Parsed, r: Parsed, o: MergeOptions, id: u32)
    requires |l.names| + |r.names| + 1 < TWO32 && o.remap
    requires AllBelow(RouteIds(l.routes), BIAS) && Shiftable(RouteIds(r.routes), BIAS)
    ensures var m, sl, sr := BothMerged(l, r, o), LeftSide(l), RightSide(l, r, o);
            && (RouteAt(l, id).Some? ==> RouteAt(m, id) == OptionMap(RouteMap(sl), RouteAt(l, id)))
            && (RouteAt(r, id).Some? ==> RouteAt(m, Biased(id, BIAS)) == OptionMap(RouteMap(sr), RouteAt(r, id)))
  {
    hide BothMerged, LeftSide, RightSide, RouteIds, WindowIds, Shift, AllBelow, Shiftable, Biased, LastPos, MergeRoute,
         MergeWindow;
    IdsApart(RouteIds(l.routes), RouteIds(r.routes), id);
    if RouteAt(l, id).Some? {
      MemberBelow(RouteIds(l.routes), BIAS, id);
      LeftStaysLeft(l, r, o, id);
    }
    if RouteAt(r, id).Some? {
      RightStaysRight(l, r, o, id);
    }
  }

  /** The same for window ids. */
  lemma WindowsApart(l: Parsed, r: Parsed, o: MergeOptions, id: u32)
    requires |l.names| + |r.names| + 1 < TWO32 && o.remap
    requires AllBelow(WindowIds(l.windows), BIAS) && Shiftable(WindowIds(r.windows), BIAS)
    ensures var m, sl, sr := BothMerged(l, r, o), LeftSide(l), RightSide(l, r, o);
            && (WindowOf(l, id).Some? ==> WindowOf(m, id) == OptionMap(WindowMap(sl), WindowOf(l, id)))
            && (WindowOf(r, id).Some? ==> WindowOf(m, Biased(id, BIAS)) == OptionMap(WindowMap(sr), WindowOf(r, id)))
  {
    hide BothMerged, LeftSide, RightSide, RouteIds, WindowIds, Shift, AllBelow, Shiftable, Biased, LastPos, MergeRoute,
         MergeWindow;
    IdsApart(WindowIds(l.windows), WindowIds(r.windows), id);
    if WindowOf(l, id).Some? {
      MemberBelow(WindowIds(l.windows), BIAS, id);
      LeftStaysLeft(l, r, o, id);
    }
    if WindowOf(r, id).Some? {
      RightStaysRight(l, r, o, id);
    }
  }

  /** The same for block ids; a block that its own side drops as empty is not replaced by one of the other side. */
  lemma BlocksApart(l: Parsed, r: Parsed, o: MergeOptions, id: u32)
    requires |l.names| + |r.names| + 1 < TWO32 && o.remap
    requires AllBelow(WaveIds(l.waves), BIAS) && Shiftable(WaveIds(r.waves), BIAS)
    ensures var m, sl, sr := BothMerged(l, r, o), LeftSide(l), RightSide(l, r, o);
            && (id in WaveIds(l.waves) ==>
                  WaveAt(m.waves, id) == OptionMap(b => WithChecksum(MergeWave(sl, b)), WaveAt(Kept(l.waves), id)))
            && (id in WaveIds(r.waves) && id != 0 ==>
                  WaveAt(m.waves, Biased(id, BIAS)) ==
                  OptionMap(b => WithChecksum(MergeWave(sr, b)), WaveAt(Kept(r.waves), id)))
  {
    hide BothMerged, LeftSide, RightSide, WindowIds, WaveIds, KeptIds, Shift, AllBelow, Shiftable, Biased, LastPos,
         Kept, MergeWave, WithChecksum;
    KeptBounds(l.waves, BIAS);
    KeptBounds(r.waves, BIAS);
    IdsApart(KeptIds(l.waves), KeptIds(r.waves), id);
    IdsApart(KeptIds(l.waves), WaveIds(r.waves), id);
    if id in WaveIds(l.waves) {
      MemberBelow(WaveIds(l.waves), BIAS, id);
      LeftWavesStayLeft(l, r, o, id);
    }
    if id in WaveIds(r.waves) && id != 0 {
      if WaveAt(Kept(r.waves), id).Some? {
        RightWavesStayRight(l, r, o, id);
      } else {
        DroppedStaysAway(l, r, o, id);
      }
    }
  }

  lemma DroppedStaysAway(l: Parsed, r: Parsed, o: MergeOptions, id: u32)
    requires |l.names| + |r.names| + 1 < TWO32 && o.remap && id != 0 && WaveAt(Kept(r.waves), id).None?
    requires Biased(id, BIAS) !in KeptIds(l.waves)
    ensures WaveAt(BothMerged(l, r, o).waves, Biased(id, BIAS)).None?
  {
    hide BothMerged, LeftSide, RightSide, WindowIds, WaveIds, Shift, Biased, Kept;
    MergedTraceIds(l, r, o);
    NotFound(KeptIds(r.waves), id);
    ShiftedIn(KeptIds(r.waves), BIAS, id);
  }

  lemma NotFound(ids: seq<u32>, id: u32)
    requires id != 0
    ensures LastPos(ids, id).None? <==> id !in ids
  {
  }

  /** Every instrument id that leads somewhere leads to the image of the record it led to on its own side. */
  lemma InstrumentsApart(l: Parsed, r: Parsed, o: MergeOptions, id: u32)
    requires |l.names| + |r.names| + 1 < TWO32 && o.remap
    requires AllBelow(InstIds(l.insts), BIAS) && Shiftable(InstIds(r.insts), BIAS)
    ensures var m, sl, sr := BothMerged(l, r, o), LeftSide(l), RightSide(l, r, o);
            && (InstAt(l, id).Some? ==> InstAt(m, id) == OptionMap(InstMap(sl), InstAt(l, id)))
            && (InstAt(r, id).Some? ==> InstAt(m, Biased(id, BIAS)) == OptionMap(InstMap(sr), InstAt(r, id)))
  {
    hide BothMerged, LeftSide, RightSide, InstIds, Shift, AllBelow, Shiftable, Biased, FirstPos, InstMap, CalibMap;
    IdsApart(InstIds(l.insts), InstIds(r.insts), id);
    if InstAt(l, id).Some? {
      LeftInstrument(l, r, o, id);
    }
    RightInstrument(l, r, o, id);
  }

  /** The same for calibration ids. */
  lemma CalibrationsApart(l: Parsed, r: Parsed, o: MergeOptions, id: u32)
    requires |l.names| + |r.names| + 1 < TWO32 && o.remap
    requires AllBelow(CalibIds(l.calibs), BIAS) && Shiftable(CalibIds(r.calibs), BIAS)
    ensures var m, sl, sr := BothMerged(l, r, o), LeftSide(l), RightSide(l, r, o);
            && (CalibAt(l, id).Some? ==> CalibAt(m, id) == OptionMap(CalibMap(sl), CalibAt(l, id)))
            && (CalibAt(r, id).Some? ==> CalibAt(m, Biased(id, BIAS)) == OptionMap(CalibMap(sr), CalibAt(r, id)))
  {
    hide BothMerged, LeftSide, RightSide, CalibIds, Shift, AllBelow, Shiftable, Biased, FirstPos, InstMap, CalibMap;
    IdsApart(CalibIds(l.calibs), CalibIds(r.calibs), id);
    if CalibAt(l, id).Some? {
      LeftCalibration(l, r, o, id);
    }
    RightCalibration(l, r, o, id);
  }

  /** The same for the calibration of an instrument. */
  lemma CalibrationsForApart(l: Parsed, r: Parsed, o: MergeOptions, id: u32)
    requires |l.names| + |r.names| + 1 < TWO32 && o.remap
    requires AllBelow(CalibInstIds(l.calibs), BIAS) && Shiftable(CalibInstIds(r.calibs), BIAS)
    ensures var m, sl, sr := BothMerged(l, r, o), LeftSide(l), RightSide(l, r, o);
            && (CalibFor(l, id).Some? ==> CalibFor(m, id) == OptionMap(CalibMap(sl), CalibFor(l, id)))
            && (CalibFor(r, id).Some? ==> CalibFor(m, Biased(id, BIAS)) == OptionMap(CalibMap(sr), CalibFor(r, id)))
  {
    hide BothMerged, LeftSide, RightSide, CalibInstIds, Shift, AllBelow, Shiftable, Biased, FirstPos, InstMap, CalibMap;
    IdsApart(CalibInstIds(l.calibs), CalibInstIds(r.calibs), id);
    if CalibFor(l, id).Some? {
      LeftCalibrationFor(l, r, o, id);
    }
    RightCalibrationFor(l, r, o, id);
  }

  /** No reference of a record crosses between the sides: in the merged package it leads to the image of what it led to
      on the record's own side.  First, the references of a window. */
  lemma NoReferenceCrosses(l: Parsed, r: Parsed, o: MergeOptions, w: Window)
    requires |l.names| + |r.names| + 1 < TWO32 && o.remap && IdsBelow(l, BIAS) && IdsShiftable(r, BIAS)
    ensures var m, s := BothMerged(l, r, o), LeftSide(l);
            WindowOk(l, w) ==>
              && RouteAt(m, w.routeId) == OptionMap(RouteMap(s), RouteAt(l, w.routeId))
              && InstAt(m, w.instId) == OptionMap(InstMap(s), InstAt(l, w.instId))
              && (w.calibId in CalibIds(l.calibs) ==>
                    CalibAt(m, w.calibId) == OptionMap(CalibMap(s), CalibAt(l, w.calibId)))
              && (w.waveBlockId != 0 ==>
                    WaveAt(m.waves, w.waveBlockId) ==
                    OptionMap(b => WithChecksum(MergeWave(s, b)), WaveAt(Kept(l.waves), w.waveBlockId)))
    ensures var m, s := BothMerged(l, r, o), RightSide(l, r, o);
            WindowOk(r, w) ==>
              && RouteAt(m, Biased(w.routeId, BIAS)) == OptionMap(RouteMap(s), RouteAt(r, w.routeId))
              && InstAt(m, Biased(w.instId, BIAS)) == OptionMap(InstMap(s), InstAt(r, w.instId))
              && (w.calibId in CalibIds(r.calibs) ==>
                    CalibAt(m, Biased(w.calibId, BIAS)) == OptionMap(CalibMap(s), CalibAt(r, w.calibId)))
              && (w.waveBlockId != 0 ==>
                    WaveAt(m.waves, Biased(w.waveBlockId, BIAS)) ==
                    OptionMap(b => WithChecksum(MergeWave(s, b)), WaveAt(Kept(r.waves), w.waveBlockId)))
  {
    hide BothMerged, LeftSide, RightSide, RouteIds, InstIds, CalibIds, WindowIds, WaveIds, KeptIds, Shift, AllBelow,
         Shiftable, Biased, Kept, MergeWave, WithChecksum, LastPos, FirstPos;
    RoutesApart(l, r, o, w.routeId);
    InstrumentsApart(l, r, o, w.instId);
    CalibrationsApart(l, r, o, w.calibId);
    BlocksApart(l, r, o, w.waveBlockId);
    if w.routeId != 0 {
      NotFound(RouteIds(l.routes), w.routeId);
      NotFound(RouteIds(r.routes), w.routeId);
    }
  }

  lemma RouteReference(l: Parsed, r: Parsed, o: MergeOptions, id: u32)
    requires |l.names| + |r.names| + 1 < TWO32 && o.remap && IdsBelow(l, BIAS) && IdsShiftable(r, BIAS)
    ensures var m, sl, sr := BothMerged(l, r, o), LeftSide(l), RightSide(l, r, o);
            && (Known(RouteIds(l.routes), id) ==>
                  RouteAt(m, Biased(id, sl.bias)) == OptionMap(RouteMap(sl), RouteAt(l, id)))
            && (Known(RouteIds(r.routes), id) ==>
                  RouteAt(m, Biased(id, sr.bias)) == OptionMap(RouteMap(sr), RouteAt(r, id)))
  {
    hide BothMerged, LeftSide, RightSide, RouteIds, Biased, LastPos, RouteMap;
    LeftSideBias(l);
    RightSideBias(l, r, o);
    ZeroBias(id);
    RoutesApart(l, r, o, id);
    if id != 0 {
      NotFound(RouteIds(l.routes), id);
      NotFound(RouteIds(r.routes), id);
    }
  }

  lemma WindowReference(l: Parsed, r: Parsed, o: MergeOptions, id: u32)
    requires |l.names| + |r.names| + 1 < TWO32 && o.remap && IdsBelow(l, BIAS) && IdsShiftable(r, BIAS)
    ensures var m, sl, sr := BothMerged(l, r, o), LeftSide(l), RightSide(l, r, o);
            && (Known(WindowIds(l.windows), id) ==>
                  WindowOf(m, Biased(id, sl.bias)) == OptionMap(WindowMap(sl), WindowOf(l, id)))
            && (Known(WindowIds(r.windows), id) ==>
                  WindowOf(m, Biased(id, sr.bias)) == OptionMap(WindowMap(sr), WindowOf(r, id)))
  {
    hide BothMerged, LeftSide, RightSide, WindowIds, Biased, LastPos, WindowMap;
    LeftSideBias(l);
    RightSideBias(l, r, o);
    ZeroBias(id);
    WindowsApart(l, r, o, id);
    if id != 0 {
      NotFound(WindowIds(l.windows), id);
      NotFound(WindowIds(r.windows), id);
    }
  }

  /** No marker's and no block's reference to its window crosses. */
  lemma NoWindowReferenceCrosses(l: Parsed, r: Parsed, o: MergeOptions, x: Marker, b: Wave)
    requires |l.names| + |r.names| + 1 < TWO32 && o.remap && IdsBelow(l, BIAS) && IdsShiftable(r, BIAS)
    ensures var m, s := BothMerged(l, r, o), LeftSide(l);
            && (MarkerOk(l, x) ==>
                  WindowOf(m, MergeMarker(s, x).windowId) == OptionMap(WindowMap(s), WindowOf(l, x.windowId)))
            && (WaveOk(l, b) && b.windowId != 0 ==>
                  WindowOf(m, MergeWave(s, b).windowId) == OptionMap(WindowMap(s), WindowOf(l, b.windowId)))
    ensures var m, s := BothMerged(l, r, o), RightSide(l, r, o);
            && (MarkerOk(r, x) ==>
                  WindowOf(m, MergeMarker(s, x).windowId) == OptionMap(WindowMap(s), WindowOf(r, x.windowId)))
            && (WaveOk(r, b) && b.windowId != 0 ==>
                  WindowOf(m, MergeWave(s, b).windowId) == OptionMap(WindowMap(s), WindowOf(r, b.windowId)))
  {
    hide BothMerged, LeftSide, RightSide, WindowIds, WaveIds, IdsBelow, IdsShiftable, Biased, WindowOf, WindowMap,
         MapName;
    WindowReference(l, r, o, x.windowId);
    WindowReference(l, r, o, b.windowId);
  }

  /** No link's reference to a route or window crosses. */
  lemma NoLinkCrosses(l: Parsed, r: Parsed, o: MergeOptions, k: Link)
    requires |l.names| + |r.names| + 1 < TWO32 && o.remap && IdsBelow(l, BIAS) && IdsShiftable(r, BIAS)
    ensures var m, s := BothMerged(l, r, o), LeftSide(l);
            LinkOk(l, k) ==>
              && (k.fromKind == FROM_ROUTE ==>
                    RouteAt(m, MergeLink(s, k).fromId) == OptionMap(RouteMap(s), RouteAt(l, k.fromId)))
              && (k.toKind == TO_WINDOW ==>
                    WindowOf(m, MergeLink(s, k).toId) == OptionMap(WindowMap(s), WindowOf(l, k.toId)))
    ensures var m, s := BothMerged(l, r, o), RightSide(l, r, o);
            LinkOk(r, k) ==>
              && (k.fromKind == FROM_ROUTE ==>
                    RouteAt(m, MergeLink(s, k).fromId) == OptionMap(RouteMap(s), RouteAt(r, k.fromId)))
              && (k.toKind == TO_WINDOW ==>
                    WindowOf(m, MergeLink(s, k).toId) == OptionMap(WindowMap(s), WindowOf(r, k.toId)))
  {
    hide BothMerged, LeftSide, RightSide, RouteIds, WindowIds, IdsBelow, IdsShiftable, Biased, WindowOf, RouteAt,
         WindowMap, RouteMap;
    RouteReference(l, r, o, k.fromId);
    WindowReference(l, r, o, k.toId);
  }

  // ----- a crossing

  /** An instrument of id 100001 for 1310 nm. */
  function HighInstrument(): Parsed {
    EMPTY_PARSED.(insts := [Inst(100001, 0, 0, 1310, 0, 0, 0)])
  }

  /** A window whose instrument has id 1 and is for 1550 nm. */
  function LowInstrument(): Parsed {
    EMPTY_PARSED.(routes := [Route(1, 0, 0, 0, 0, 0)], insts := [Inst(1, 0, 0, 1550, 0, 0, 0)],
                 calibs := [Calib(1, 1, 0, 0, 0, 0, 0)], windows := [Window(1, 1, 1, 1, 1, 0, 0, 0, 0)],
                 waves := [Wave(1, 1, 0, 0, [5], 0, 0)])
  }

  /** A right reference can cross although all references resolve before and after: with a left instrument 100001 the
      merged right window reads 1310 nm instead of 1550 nm. */
  lemma InstrumentCrosses(o: MergeOptions)
    requires o.remap
    ensures var l, r := HighInstrument(), LowInstrument();
            var m, id := BothMerged(l, r, o), Biased(r.windows[0].instId, BIAS);
            && XrefOk(l) && XrefOk(r) && XrefOk(m)
            && InstAt(r, r.windows[0].instId).value.wavelengthNm == 1550
            && InstAt(m, id).Some? && InstAt(m, id).value.wavelengthNm == 1310
  {
    var l, r := HighInstrument(), LowInstrument();
    BothFine();
    assert InstIds(l.insts) == [100001] && InstIds(r.insts) == [1];
    hide XrefOk, BothMerged, LeftSide, RightSide, MergeSafe, IdsShiftable;
    MergeSafeSuffices(l, r, o);
    RightInstrument(l, r, o, 1);
  }

  lemma BothFine()
    ensures var l, r := HighInstrument(), LowInstrument();
            XrefOk(l) && XrefOk(r) && MergeSafe(l, r) && IdsShiftable(r, BIAS)
  {
    var r := LowInstrument();
    assert RouteIds(r.routes) == [1] && InstIds(r.insts) == [1] && WindowIds(r.windows) == [1];
    assert WaveIds(r.waves) == [1] && CalibIds(r.calibs) == [1];
    assert Kept(r.waves) == r.waves by {
      assert r.waves[..0] == [] && Kept([]) == [];
    }
    hide RouteIds, InstIds, WindowIds, WaveIds, CalibIds, Kept;
  }
}
