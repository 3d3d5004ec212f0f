/** What merged records hold, in the fields of the two packages they come from. */
module MergeRows {
  import opened Types
  import opened Index
  import opened Builder
  import opened Merge
  import opened Positions
  import Dict

  // ----- names

  /** `c` is the pooled form of `s`: the bytes before its first NUL, at most 127 of them. */
  ghost predicate Cut(s: bytes, c: bytes) {
    && c <= s && |c| <= 127 && 0 !in c
    && (|c| == |s| || |c| == 127 || s[|c|] == 0)
  }

  /** Entry `k` is the first one with the id. */
  ghost predicate FirstNamed(names: seq<Name>, id: u32, k: nat) {
    k < |names| && names[k].id == id && forall j | 0 <= j < k :: names[j].id != id
  }

  /** The id leads to the string. */
  ghost predicate LeadsToString(names: seq<Name>, id: u32, str: bytes) {
    id != 0 && exists k: nat :: FirstNamed(names, id, k) && names[k].str == str
  }

  /** `id` stands in `names` for what `src` stands for in `own`: for the pooled form of the same string, or for
      nothing. */
  ghost predicate NameFrom(names: seq<Name>, id: u32, own: seq<Name>, src: u32) {
    && (id == 0 <==> src == 0 || forall k | 0 <= k < |own| :: own[k].id != src)
    && forall str :: LeadsToString(own, src, str) ==> exists c :: LeadsToString(names, id, c) && Cut(str, c)
  }

  lemma {:induction false} CutString(s: bytes)
    ensures CString(s) == s || s[|CString(s)|] == 0
  {
    if s != [] && s[0] != 0 {
      CutString(s[1..]);
    }
  }

  lemma KeyCut(s: bytes)
    ensures Cut(s, Key(s))
  {
    hide CString;
    CutString(s);
  }

  lemma MappedFrom(names: seq<Name>, s: Side, id: u32)
    requires Pool(names) && s.pool <= names && HoldsAll(s.pool, s.snam)
    ensures NameFrom(names, MapName(s, id), s.snam, id)
  {
    hide Key, Cut;
    var nid := MapName(s, id);
    forall str | LeadsToString(s.snam, id, str) ensures exists c :: LeadsToString(names, nid, c) && Cut(str, c) {
      var k: nat :| FirstNamed(s.snam, id, k) && s.snam[k].str == str;
      Dict.FirstByIdIs(s.snam, id, k);
      KeyCut(str);
      assert nid == IdOf(s.pool, Key(str)) && nid > 0;
      assert names[nid - 1] == s.pool[nid - 1];
      assert FirstNamed(names, nid, nid - 1);
      assert LeadsToString(names, nid, Key(str));
    }
  }

  // ----- records

  /** An id of the merged package: the bias is added in 32 bits. */
  ghost predicate IdFrom(id: u32, src: u32, bias: u32) {
    id == if src + bias < 0x1_0000_0000 then src + bias else src + bias - 0x1_0000_0000
  }

  ghost predicate RouteFrom(names: seq<Name>, m: Route, own: seq<Name>, r: Route, bias: u32) {
    && IdFrom(m.routeId, r.routeId, bias)
    && NameFrom(names, m.siteNameId, own, r.siteNameId)
    && NameFrom(names, m.farNameId, own, r.farNameId)
    && m.lengthKm == r.lengthKm && m.fiberCount == r.fiberCount && m.flags == r.flags
  }

  ghost predicate InstFrom(names: seq<Name>, m: Inst, own: seq<Name>, r: Inst, bias: u32) {
    && IdFrom(m.instId, r.instId, bias)
    && NameFrom(names, m.modelNameId, own, r.modelNameId)
    && NameFrom(names, m.serialNameId, own, r.serialNameId)
    && m.wavelengthNm == r.wavelengthNm && m.pulseDefaultNs == r.pulseDefaultNs
    && m.dynamicRangeDb == r.dynamicRangeDb && m.flags == r.flags
  }

  ghost predicate CalibFrom(m: Calib, r: Calib, bias: u32) {
    && IdFrom(m.calibId, r.calibId, bias) && IdFrom(m.instId, r.instId, bias)
    && m.calibratedUnix == r.calibratedUnix && m.refractiveIndex == r.refractiveIndex
    && m.backscatterCoef == r.backscatterCoef && m.spliceLossDb == r.spliceLossDb && m.flags == r.flags
  }

  ghost predicate WindowFrom(m: Window, r: Window, bias: u32) {
    && IdFrom(m.windowId, r.windowId, bias) && IdFrom(m.routeId, r.routeId, bias)
    && IdFrom(m.instId, r.instId, bias) && IdFrom(m.calibId, r.calibId, bias)
    && IdFrom(m.waveBlockId, r.waveBlockId, bias)
    && m.pulseNs == r.pulseNs && m.rangeKm == r.rangeKm && m.resolutionM == r.resolutionM
    && m.acquiredUnix == r.acquiredUnix
  }

  /** Flags are not kept: a copied block has none. */
  ghost predicate WaveFrom(m: BWave, r: Wave, bias: u32) {
    && IdFrom(m.blockId, r.blockId, bias) && IdFrom(m.windowId, r.windowId, bias)
    && m.startM == r.startM && m.stepM == r.stepM && m.samples == r.samples && m.flags == 0
  }

  ghost predicate MarkerFrom(names: seq<Name>, m: Marker, own: seq<Name>, r: Marker, bias: u32) {
    && IdFrom(m.markerId, r.markerId, bias) && IdFrom(m.windowId, r.windowId, bias)
    && NameFrom(names, m.labelNameId, own, r.labelNameId)
    && m.distanceM == r.distanceM && m.lossDb == r.lossDb && m.reflectanceDb == r.reflectanceDb
    && m.kind == r.kind && m.severity == r.severity && m.flags == r.flags
  }

  ghost predicate LinkFrom(m: Link, r: Link, bias: u32) {
    && IdFrom(m.linkId, r.linkId, bias) && IdFrom(m.fromId, r.fromId, bias) && IdFrom(m.toId, r.toId, bias)
    && m.fromKind == r.fromKind && m.toKind == r.toKind && m.flags == r.flags
  }

  ghost predicate NoteFrom(names: seq<Name>, m: Note, own: seq<Name>, r: Note, bias: u32) {
    && IdFrom(m.noteId, r.noteId, bias) && IdFrom(m.targetId, r.targetId, bias)
    && NameFrom(names, m.textNameId, own, r.textNameId)
    && m.targetKind == r.targetKind && m.flags == r.flags
  }

  // ----- tables

  /** The last rows of a table, and how many there were before them. */
  ghost predicate Extends<T>(before: seq<T>, after: seq<T>, n: nat) {
    before <= after && |after| == |before| + n
  }

  ghost predicate NamedRows(names: seq<Name>, t: Tables, m: Tables, p: Parsed, bias: u32) {
    && Extends(t.routes, m.routes, |p.routes|) && Extends(t.insts, m.insts, |p.insts|)
    && (forall i | 0 <= i < |p.routes| :: RouteFrom(names, m.routes[|t.routes| + i], p.names, p.routes[i], bias))
    && (forall i | 0 <= i < |p.insts| :: InstFrom(names, m.insts[|t.insts| + i], p.names, p.insts[i], bias))
  }

  ghost predicate PlainRows(t: Tables, m: Tables, p: Parsed, bias: u32) {
    && Extends(t.calibs, m.calibs, |p.calibs|) && Extends(t.windows, m.windows, |p.windows|)
    && Extends(t.links, m.links, |p.links|)
    && (forall i | 0 <= i < |p.calibs| :: CalibFrom(m.calibs[|t.calibs| + i], p.calibs[i], bias))
    && (forall i | 0 <= i < |p.windows| :: WindowFrom(m.windows[|t.windows| + i], p.windows[i], bias))
    && (forall i | 0 <= i < |p.links| :: LinkFrom(m.links[|t.links| + i], p.links[i], bias))
  }

  ghost predicate Sampled(w: Wave) {
    |w.samples| > 0
  }

  /** `ks` are the positions of the blocks with samples, and these blocks were appended. */
  ghost predicate WaveRows(t: Tables, m: Tables, p: Parsed, bias: u32, ks: seq<nat>) {
    && Ascending(ks, |p.waves|)
    && (forall k: nat | k < |p.waves| :: k in ks <==> Sampled(p.waves[k]))
    && Extends(t.waves, m.waves, |ks|)
    && (forall i | 0 <= i < |ks| :: WaveFrom(m.waves[|t.waves| + i], p.waves[ks[i]], bias))
  }

  /** A window of the table has the id. */
  ghost predicate HasWindow(ws: seq<Window>, id: u32) {
    exists j :: 0 <= j < |ws| && ws[j].windowId == id
  }

  /** A marker to keep. */
  ghost predicate Wanted(o: MergeOptions, ws: seq<Window>, m: Marker) {
    !o.dropUnlinked || HasWindow(ws, m.windowId)
  }

  /** `ks` are the positions of the markers to keep, and these markers were appended. */
  ghost predicate MarkerRows(names: seq<Name>, t: Tables, m: Tables, p: Parsed, o: MergeOptions, bias: u32,
                             ks: seq<nat>) {
    && Ascending(ks, |p.markers|)
    && (forall k: nat | k < |p.markers| :: k in ks <==> Wanted(o, p.windows, p.markers[k]))
    && Extends(t.markers, m.markers, |ks|)
    && (forall i | 0 <= i < |ks| :: MarkerFrom(names, m.markers[|t.markers| + i], p.names, p.markers[ks[i]], bias))
  }

  ghost predicate NoteRows(names: seq<Name>, t: Tables, m: Tables, p: Parsed, o: MergeOptions, bias: u32) {
    && Extends(t.notes, m.notes, if o.includeNotes then |p.notes| else 0)
    && (o.includeNotes ==>
          forall i | 0 <= i < |p.notes| :: NoteFrom(names, m.notes[|t.notes| + i], p.names, p.notes[i], bias))
  }

  /** Every table of `m` is that of `t` followed by the rows of `p`. */
  ghost predicate RowsOf(names: seq<Name>, t: Tables, m: Tables, p: Parsed, o: MergeOptions, bias: u32) {
    && NamedRows(names, t, m, p, bias) && PlainRows(t, m, p, bias) && NoteRows(names, t, m, p, o, bias)
    && (exists ks :: WaveRows(t, m, p, bias, ks))
    && (exists ks :: MarkerRows(names, t, m, p, o, bias, ks))
  }

  // ----- what one side adds

  lemma KeptLast(ws: seq<Wave>)
    ensures Kept(ws) == if ws == [] then []
                        else
                          var before := Kept(ws[..|ws| - 1]);
                          if Sampled(ws[|ws| - 1]) then before + [ws[|ws| - 1]] else before
  {
    hide Kept;
    KeptSnoc(ws);
  }

  lemma KeptStep(ws: seq<Wave>, before: seq<nat>)
    requires ws != [] && TakenAt(ws[..|ws| - 1], before, Kept(ws[..|ws| - 1]))
    ensures TakenAt(ws, if Sampled(ws[|ws| - 1]) then before + [|ws| - 1] else before, Kept(ws))
    ensures |ws| - 1 !in before
  {
    hide TakenAt, Kept, Sampled;
    var n := |ws| - 1;
    KeptLast(ws);
    TakenMore(ws, before, Kept(ws[..n]));
  }

  /** The positions of the kept blocks, ... */
  lemma {:induction false} KeptAt(ws: seq<Wave>) returns (ks: seq<nat>)
    ensures TakenAt(ws, ks, Kept(ws))
    ensures forall k: nat | k < |ws| :: k in ks <==> Sampled(ws[k])
  {
    hide TakenAt, Kept, Sampled;
    ks := [];
    if ws == [] {
      NoneTaken();
    } else {
      var n := |ws| - 1;
      var before := KeptAt(ws[..n]);
      KeptStep(ws, before);
      ks := if Sampled(ws[n]) then before + [n] else before;
      forall k: nat | k < n ensures k in ks <==> Sampled(ws[k]) {
        assert ws[..n][k] == ws[k];
      }
    }
  }

  lemma NoneTaken()
    ensures TakenAt([], [], Kept([]))
  {
  }

  lemma KeptMarkersSnoc(o: MergeOptions, ws: seq<Window>, ms: seq<Marker>)
    ensures KeptMarkers(o, ws, ms) ==
            if ms == [] then []
            else
              var m := ms[|ms| - 1];
              var before := KeptMarkers(o, ws, ms[..|ms| - 1]);
              if !o.dropUnlinked || HasWindow(ws, m.windowId) then before + [m] else before
  {
    if ms != [] {
      HasWindowId(ws, ms[|ms| - 1].windowId);
    }
  }

  lemma KeptMarkersStep(o: MergeOptions, ws: seq<Window>, ms: seq<Marker>, before: seq<nat>)
    requires ms != [] && TakenAt(ms[..|ms| - 1], before, KeptMarkers(o, ws, ms[..|ms| - 1]))
    ensures TakenAt(ms, if Wanted(o, ws, ms[|ms| - 1]) then before + [|ms| - 1] else before, KeptMarkers(o, ws, ms))
    ensures |ms| - 1 !in before
  {
    hide TakenAt, KeptMarkers, HasWindow;
    KeptMarkersSnoc(o, ws, ms);
    TakenMore(ms, before, KeptMarkers(o, ws, ms[..|ms| - 1]));
  }

  lemma NoneKept(o: MergeOptions, ws: seq<Window>)
    ensures TakenAt([], [], KeptMarkers(o, ws, []))
  {
  }

  /** ... and of the kept markers. */
  lemma {:induction false} KeptMarkersAt(o: MergeOptions, ws: seq<Window>, ms: seq<Marker>) returns (ks: seq<nat>)
    ensures TakenAt(ms, ks, KeptMarkers(o, ws, ms))
    ensures forall k: nat | k < |ms| :: k in ks <==> Wanted(o, ws, ms[k])
  {
    hide TakenAt, KeptMarkers, Wanted;
    ks := [];
    if ms == [] {
      NoneKept(o, ws);
    } else {
      var n := |ms| - 1;
      var before := KeptMarkersAt(o, ws, ms[..n]);
      KeptMarkersStep(o, ws, ms, before);
      ks := if Wanted(o, ws, ms[n]) then before + [n] else before;
      forall k: nat | k < n ensures k in ks <==> Wanted(o, ws, ms[k]) {
        assert ms[..n][k] == ms[k];
      }
    }
  }

  lemma HasWindowId(ws: seq<Window>, id: u32)
    ensures HasWindow(ws, id) <==> id in WindowIds(ws)
  {
    if HasWindow(ws, id) {
      var j :| 0 <= j < |ws| && ws[j].windowId == id;
      assert WindowIds(ws)[j] == id;
    }
  }

  lemma NamedRowsAdded(names: seq<Name>, t: Tables, p: Parsed, o: MergeOptions, bias: u32)
    requires |t.names| + |p.names| + 1 < TWO32
    requires Pool(names) && SideOf(t, p, bias).pool <= names && HoldsAll(SideOf(t, p, bias).pool, p.names)
    ensures NamedRows(names, t, MergeSide(t, p, o, bias), p, bias)
  {
    hide Pool, PoolAll, HoldsAll, MapName, NameFrom, Kept, KeptMarkers;
    var s := SideOf(t, p, bias);
    forall id ensures NameFrom(names, MapName(s, id), p.names, id) {
      MappedFrom(names, s, id);
    }
  }

  lemma PlainRowsAdded(t: Tables, p: Parsed, o: MergeOptions, bias: u32)
    requires |t.names| + |p.names| + 1 < TWO32
    ensures PlainRows(t, MergeSide(t, p, o, bias), p, bias)
  {
    hide PoolAll, MapName, Kept, KeptMarkers, CalibFrom, WindowFrom, LinkFrom, MergeCalib, MergeWindow, MergeLink;
    var s := SideOf(t, p, bias);
    forall r ensures CalibFrom(MergeCalib(s, r), r, bias) {
      CalibMerged(s, r);
    }
    forall r ensures WindowFrom(MergeWindow(s, r), r, bias) {
      WindowMerged(s, r);
    }
    forall r ensures LinkFrom(MergeLink(s, r), r, bias) {
      LinkMerged(s, r);
    }
  }

  lemma CalibMerged(s: Side, r: Calib)
    ensures CalibFrom(MergeCalib(s, r), r, s.bias)
  {
  }

  lemma WindowMerged(s: Side, r: Window)
    ensures WindowFrom(MergeWindow(s, r), r, s.bias)
  {
  }

  lemma LinkMerged(s: Side, r: Link)
    ensures LinkFrom(MergeLink(s, r), r, s.bias)
  {
  }

  lemma WaveMerged(s: Side, r: Wave)
    ensures WaveFrom(MergeWave(s, r), r, s.bias)
  {
  }

  lemma MarkerMerged(names: seq<Name>, s: Side, r: Marker)
    requires Pool(names) && s.pool <= names && HoldsAll(s.pool, s.snam)
    ensures MarkerFrom(names, MergeMarker(s, r), s.snam, r, s.bias)
  {
    hide NameFrom, MapName, Pool, HoldsAll;
    MappedFrom(names, s, r.labelNameId);
  }

  lemma NoteRowsAdded(names: seq<Name>, t: Tables, p: Parsed, o: MergeOptions, bias: u32)
    requires |t.names| + |p.names| + 1 < TWO32
    requires Pool(names) && SideOf(t, p, bias).pool <= names && HoldsAll(SideOf(t, p, bias).pool, p.names)
    ensures NoteRows(names, t, MergeSide(t, p, o, bias), p, o, bias)
  {
    hide Pool, PoolAll, HoldsAll, MapName, NameFrom, Kept, KeptMarkers;
    var s := SideOf(t, p, bias);
    forall id ensures NameFrom(names, MapName(s, id), p.names, id) {
      MappedFrom(names, s, id);
    }
  }

  lemma WaveRowsAdded(t: Tables, p: Parsed, o: MergeOptions, bias: u32)
    requires |t.names| + |p.names| + 1 < TWO32
    ensures exists ks :: WaveRows(t, MergeSide(t, p, o, bias), p, bias, ks)
  {
    hide PoolAll, MapName, Kept, KeptMarkers, Ascending, WaveFrom, MergeWave;
    var s := SideOf(t, p, bias);
    forall r ensures WaveFrom(MergeWave(s, r), r, bias) {
      WaveMerged(s, r);
    }
    var ks := KeptAt(p.waves);
    assert WaveRows(t, MergeSide(t, p, o, bias), p, bias, ks);
  }

  lemma MarkerRowsAdded(names: seq<Name>, t: Tables, p: Parsed, o: MergeOptions, bias: u32)
    requires |t.names| + |p.names| + 1 < TWO32
    requires Pool(names) && SideOf(t, p, bias).pool <= names && HoldsAll(SideOf(t, p, bias).pool, p.names)
    ensures exists ks :: MarkerRows(names, t, MergeSide(t, p, o, bias), p, o, bias, ks)
  {
    hide Pool, PoolAll, HoldsAll, MapName, Wanted, Kept, KeptMarkers, Ascending, MarkerFrom, MergeMarker;
    var s := SideOf(t, p, bias);
    forall r ensures MarkerFrom(names, MergeMarker(s, r), p.names, r, bias) {
      MarkerMerged(names, s, r);
    }
    var ks := KeptMarkersAt(o, p.windows, p.markers);
    assert MarkerRows(names, t, MergeSide(t, p, o, bias), p, o, bias, ks);
  }

  lemma SideAdded(names: seq<Name>, t: Tables, p: Parsed, o: MergeOptions, bias: u32)
    requires |t.names| + |p.names| + 1 < TWO32
    requires Pool(names) && SideOf(t, p, bias).pool <= names && HoldsAll(SideOf(t, p, bias).pool, p.names)
    ensures RowsOf(names, t, MergeSide(t, p, o, bias), p, o, bias)
  {
    hide Pool, PoolAll, HoldsAll, SideOf, MergeSide, NamedRows, PlainRows, NoteRows, WaveRows, MarkerRows;
    NamedRowsAdded(names, t, p, o, bias);
    PlainRowsAdded(t, p, o, bias);
    NoteRowsAdded(names, t, p, o, bias);
    WaveRowsAdded(t, p, o, bias);
    MarkerRowsAdded(names, t, p, o, bias);
  }

  // ----- the merged tables

  /** The names hold the pooled form of every string of the table. */
  ghost predicate AllHeld(names: seq<Name>, snam: seq<Name>) {
    forall i | 0 <= i < |snam| :: Held(names, snam[i].str)
  }

  ghost predicate Held(names: seq<Name>, str: bytes) {
    exists j :: 0 <= j < |names| && Cut(str, names[j].str)
  }

  /** From entry `n` on, the names are pooled forms of strings of the table. */
  ghost predicate AllFrom(n: nat, names: seq<Name>, snam: seq<Name>) {
    forall j | n <= j < |names| :: names[j].id != 0 && Named(snam, names[j].str)
  }

  ghost predicate Named(snam: seq<Name>, c: bytes) {
    exists e :: e in snam && Cut(e.str, c)
  }

  /** The merged names: the old ones first, every string of both sides in its pooled form, and nothing else; no string
      and no id stands twice. */
  ghost predicate NamesMerged(before: seq<Name>, left: seq<Name>, right: seq<Name>, names: seq<Name>) {
    && before <= names
    && (forall i, j | 0 <= i < j < |names| :: names[i].id != names[j].id && names[i].str != names[j].str)
    && AllHeld(names, left) && AllHeld(names, right) && AllFrom(|before|, names, left + right)
  }

  lemma {:induction false} PoolOnly(pool: seq<Name>, snam: seq<Name>)
    requires |pool| + |snam| + 1 < TWO32
    ensures AllFrom(|pool|, PoolAll(pool, snam), snam)
  {
    hide Cut, Key, IdOf;
    if snam != [] {
      var k := |snam| - 1;
      PoolOnly(pool, snam[..k]);
      KeyCut(snam[k].str);
      var rest, r := PoolAll(pool, snam[..k]), PoolAll(pool, snam);
      forall j | |pool| <= j < |r| ensures r[j].id != 0 && Named(snam, r[j].str) {
        if j < |rest| {
          var e :| e in snam[..k] && Cut(e.str, rest[j].str);
          assert e in snam;
        } else {
          assert snam[k] in snam && Cut(snam[k].str, r[j].str);
        }
      }
    }
  }

  lemma HeldCut(pool: seq<Name>, names: seq<Name>, snam: seq<Name>)
    requires HoldsAll(pool, snam) && pool <= names
    ensures AllHeld(names, snam)
  {
    hide Cut, Key, IdOf;
    forall i | 0 <= i < |snam| ensures Held(names, snam[i].str) {
      KeyCut(snam[i].str);
      var k := IdOf(pool, Key(snam[i].str)) - 1;
      assert pool[k].str == Key(snam[i].str) && names[k] == pool[k];
    }
  }

  lemma NamesAre(before: seq<Name>, left: seq<Name>, right: seq<Name>)
    requires Pool(before) && |before| + |left| + |right| + 1 < TWO32
    ensures NamesMerged(before, left, right, PoolAll(PoolAll(before, left), right))
  {
    hide Cut, Key, PoolAll, HoldsAll, AllHeld, AllFrom, Pool;
    var mid := PoolAll(before, left);
    var names := PoolAll(mid, right);
    PoolAllKeeps(before, left);
    PoolAllKeeps(mid, right);
    HeldCut(mid, names, left);
    HeldCut(names, names, right);
    PoolOnly(before, left);
    PoolOnly(mid, right);
    FromBoth(before, mid, names, left, right);
    PoolDistinct(names);
  }

  lemma FromBoth(before: seq<Name>, mid: seq<Name>, names: seq<Name>, left: seq<Name>, right: seq<Name>)
    requires mid <= names && AllFrom(|before|, mid, left) && AllFrom(|mid|, names, right)
    ensures AllFrom(|before|, names, left + right)
  {
    hide Cut;
    forall j | |before| <= j < |names|
      ensures names[j].id != 0 && Named(left + right, names[j].str)
    {
      if j < |mid| {
        assert names[j] == mid[j];
        var n :| n in left && Cut(n.str, mid[j].str);
        assert n in left + right;
      } else {
        var n :| n in right && Cut(n.str, names[j].str);
        assert n in left + right;
      }
    }
  }

  lemma PoolDistinct(names: seq<Name>)
    requires Pool(names)
    ensures forall i, j | 0 <= i < j < |names| :: names[i].id != names[j].id && names[i].str != names[j].str
  {
    hide Key;
  }

  /** Merged rows.  The merged tables are those there before, then the rows of the left package, then those of the right
      one, field by field: references become shifted ids, and name references lead to the same strings. */
  ghost predicate IsMerge(t: Tables, left: Parsed, right: Parsed, o: MergeOptions, out: Tables) {
    && NamesMerged(t.names, left.names, right.names, out.names)
    && exists mid :: RowsOf(out.names, t, mid, left, o, 0)
                     && RowsOf(out.names, mid, out, right, o, if o.remap then 100000 else 0)
  }

  lemma MergedRows(t: Tables, left: Parsed, right: Parsed, o: MergeOptions)
    requires Pool(t.names) && |t.names| + |left.names| + |right.names| + 1 < TWO32
    ensures IsMerge(t, left, right, o, Merged(t, left, right, o))
  {
    hide Pool, PoolAll, HoldsAll, NamesMerged, RowsOf, Mapped, Kept, KeptMarkers;
    var mid := MergeSide(t, left, o, 0);
    var out := MergeSide(mid, right, o, BiasOf(o));
    NamesAre(t.names, left.names, right.names);
    PoolAllKeeps(t.names, left.names);
    PoolAllKeeps(mid.names, right.names);
    SideAdded(out.names, t, left, o, 0);
    SideAdded(out.names, mid, right, o, BiasOf(o));
  }

  /** `rv_merge_into_builder`, row by row. */
  method MergePackages(out: PackageBuilder, left: Parsed, right: Parsed, o: MergeOptions)
    requires out.Valid() && |out.names| + |left.names| + |right.names| + 2 < TWO32
    modifies out
    ensures out.Valid() && IsMerge(old(out.Built()), left, right, o, out.Built())
  {
    hide Pool, IsMerge, Merged;
    MergedRows(out.Built(), left, right, o);
    MergeIntoBuilder(out, left, right, o);
  }
}
