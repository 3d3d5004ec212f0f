/** Merging two packages into a builder (src/internal/rv_merge.c). */
module Merge {
  import opened Types
  import opened Index
  import opened Builder
  import opened Xref
  import Dict

  datatype MergeOptions = MergeOptions(remap: bool, dropUnlinked: bool, includeNotes: bool)

  /** The shift of all ids of the right side. */
  const BIAS: u32 := 100000

  function BiasOf(o: MergeOptions): u32 {
    if o.remap then BIAS else 0
  }

  /** 32-bit addition wraps. */
  function Biased(id: u32, bias: u32): u32 {
    (id + bias) % TWO32
  }

  // ----- names

  type NamePool = ns: seq<Name> | |ns| < TWO32

  /** What one side's records are rewritten with: the pool after its names were added, its own name table, its bias. */
  datatype Side = Side(pool: NamePool, snam: seq<Name>, bias: u32)

  /** `rv_merge_map_name`: the pool's id of the string an id stands for; zero when there is none. */
  function MapName(s: Side, id: u32): u32 {
    if id == 0 then 0
    else match Dict.FirstById(s.snam, id) case None => 0 case Some(i) => IdOf(s.pool, Key(s.snam[i].str))
  }

  /** The pool after all names of a table were added. */
  function PoolAll(pool: seq<Name>, snam: seq<Name>): (r: seq<Name>)
    requires |pool| + |snam| + 1 < TWO32
    ensures pool <= r && |r| <= |pool| + |snam|
  {
    if snam == [] then pool else AddKey(PoolAll(pool, snam[..|snam| - 1]), Key(snam[|snam| - 1].str))
  }

  /** Every string of the table is pooled. */
  ghost predicate HoldsAll(pool: seq<Name>, snam: seq<Name>) {
    forall i | 0 <= i < |snam| :: IdOf(pool, Key(snam[i].str)) > 0
  }

  lemma IdOfKept(pool: seq<Name>, r: seq<Name>, key: bytes)
    requires pool <= r && IdOf(pool, key) > 0
    ensures IdOf(r, key) > 0
  {
    var k := IdOf(pool, key) - 1;
    assert r[k] == pool[k];
  }

  lemma {:induction false} PoolAllKeeps(pool: seq<Name>, snam: seq<Name>)
    requires Pool(pool) && |pool| + |snam| + 1 < TWO32
    ensures Pool(PoolAll(pool, snam)) && HoldsAll(PoolAll(pool, snam), snam)
  {
    hide Key, IdOf, AddKey, Pool, HoldsAll;
    if snam == [] {
      HoldsNone(pool);
    } else {
      var rest, key := snam[..|snam| - 1], Key(snam[|snam| - 1].str);
      PoolAllKeeps(pool, rest);
      KeyIsKey(snam[|snam| - 1].str);
      AddKeyPools(PoolAll(pool, rest), key);
      HoldsMore(PoolAll(pool, rest), PoolAll(pool, snam), snam);
    }
  }

  lemma HoldsNone(pool: seq<Name>)
    ensures HoldsAll(pool, [])
  {
  }

  lemma HoldsMore(before: seq<Name>, after: seq<Name>, snam: seq<Name>)
    requires before <= after && snam != [] && HoldsAll(before, snam[..|snam| - 1])
    requires IdOf(after, Key(snam[|snam| - 1].str)) > 0
    ensures HoldsAll(after, snam)
  {
    hide Key, IdOf;
    var rest := snam[..|snam| - 1];
    forall i | 0 <= i < |rest| ensures IdOf(after, Key(snam[i].str)) > 0 {
      assert rest[i] == snam[i];
      IdOfKept(before, after, Key(snam[i].str));
    }
  }

  lemma KeyIsKey(s: bytes)
    ensures Key(Key(s)) == Key(s)
  {
    hide CString;
  }

  // ----- records

  function MergeRoute(s: Side, r: Route): Route {
    Route(Biased(r.routeId, s.bias), MapName(s, r.siteNameId), MapName(s, r.farNameId), r.lengthKm, r.fiberCount,
          r.flags)
  }

  function MergeInst(s: Side, r: Inst): Inst {
    Inst(Biased(r.instId, s.bias), MapName(s, r.modelNameId), MapName(s, r.serialNameId), r.wavelengthNm,
         r.pulseDefaultNs, r.dynamicRangeDb, r.flags)
  }

  function MergeCalib(s: Side, r: Calib): Calib {
    r.(calibId := Biased(r.calibId, s.bias), instId := Biased(r.instId, s.bias))
  }

  function MergeWindow(s: Side, w: Window): Window {
    Window(Biased(w.windowId, s.bias), Biased(w.routeId, s.bias), Biased(w.instId, s.bias), Biased(w.calibId, s.bias),
           Biased(w.waveBlockId, s.bias), w.pulseNs, w.rangeKm, w.resolutionM, w.acquiredUnix)
  }

  function MergeWave(s: Side, b: Wave): BWave {
    BuilderWave(Biased(b.blockId, s.bias), Biased(b.windowId, s.bias), b.startM, b.stepM, b.samples, 0)
  }

  function MergeMarker(s: Side, m: Marker): Marker {
    m.(markerId := Biased(m.markerId, s.bias), windowId := Biased(m.windowId, s.bias),
       labelNameId := MapName(s, m.labelNameId))
  }

  function MergeLink(s: Side, l: Link): Link {
    l.(linkId := Biased(l.linkId, s.bias), fromId := Biased(l.fromId, s.bias), toId := Biased(l.toId, s.bias))
  }

  function MergeNote(s: Side, n: Note): Note {
    n.(noteId := Biased(n.noteId, s.bias), targetId := Biased(n.targetId, s.bias),
       textNameId := MapName(s, n.textNameId))
  }

  /** A record transformer applied to a table. */
  function Mapped<A, B>(f: A -> B, xs: seq<A>): (r: seq<B>)
    ensures |r| == |xs| && forall i | 0 <= i < |xs| :: r[i] == f(xs[i])
  {
    seq(|xs|, i requires 0 <= i < |xs| => f(xs[i]))
  }

  /** The transformers as function values. */
  function RouteMap(s: Side): Route -> Route { r => MergeRoute(s, r) }
  function InstMap(s: Side): Inst -> Inst { r => MergeInst(s, r) }
  function CalibMap(s: Side): Calib -> Calib { r => MergeCalib(s, r) }
  function WindowMap(s: Side): Window -> Window { w => MergeWindow(s, w) }
  function WaveMap(s: Side): Wave -> BWave { b => MergeWave(s, b) }
  function MarkerMap(s: Side): Marker -> Marker { m => MergeMarker(s, m) }
  function LinkMap(s: Side): Link -> Link { l => MergeLink(s, l) }
  function NoteMap(s: Side): Note -> Note { n => MergeNote(s, n) }

  /** Blocks without samples are dropped. */
  function Kept(ws: seq<Wave>): (r: seq<Wave>)
    ensures forall w :: w in r <==> w in ws && w.samples != []
  {
    if ws == [] then [] else Kept(ws[..|ws| - 1]) + if ws[|ws| - 1].samples != [] then [ws[|ws| - 1]] else []
  }

  /** Markers whose window is in no row of their own side's table are dropped when that is asked for. */
  function KeptMarkers(o: MergeOptions, ws: seq<Window>, ms: seq<Marker>): (r: seq<Marker>)
    ensures forall m :: m in r <==> m in ms && (o.dropUnlinked ==> m.windowId in WindowIds(ws))
  {
    if ms == [] then []
    else
      var m := ms[|ms| - 1];
      KeptMarkers(o, ws, ms[..|ms| - 1]) + if o.dropUnlinked ==> m.windowId in WindowIds(ws) then [m] else []
  }

  /** The builder's tables after one side was merged into it. */
  function MergeSide(t: Tables, p: Parsed, o: MergeOptions, bias: u32): Tables
    requires |t.names| + |p.names| + 1 < TWO32
  {
    var s := SideOf(t, p, bias);
    Tables(s.pool, t.routes + Mapped(RouteMap(s), p.routes), t.insts + Mapped(InstMap(s), p.insts),
           t.calibs + Mapped(CalibMap(s), p.calibs), t.windows + Mapped(WindowMap(s), p.windows),
           t.waves + Mapped(WaveMap(s), Kept(p.waves)),
           t.markers + Mapped(MarkerMap(s), KeptMarkers(o, p.windows, p.markers)),
           t.links + Mapped(LinkMap(s), p.links),
           t.notes + if o.includeNotes then Mapped(NoteMap(s), p.notes) else [])
  }

  function SideOf(t: Tables, p: Parsed, bias: u32): Side
    requires |t.names| + |p.names| + 1 < TWO32
  {
    Side(PoolAll(t.names, p.names), p.names, bias)
  }

  /** The builder's tables after both sides. */
  function Merged(t: Tables, left: Parsed, right: Parsed, o: MergeOptions): Tables
    requires |t.names| + |left.names| + |right.names| + 1 < TWO32
  {
    MergeSide(MergeSide(t, left, o, 0), right, o, BiasOf(o))
  }

  // ----- the merge as it runs

  /** `rv_merge_map_name`: the name is pooled already, so the pool does not change. */
  method MapNameInto(out: PackageBuilder, s: Side, id: u32) returns (nid: u32)
    requires out.Valid() && |out.names| + 2 < TWO32 && out.names == s.pool && HoldsAll(s.pool, s.snam)
    modifies out`names, out`nextNameId
    ensures out.Valid() && out.names == s.pool && nid == MapName(s, id)
  {
    hide Key, Pool;
    if id == 0 {
      return 0;
    }
    var e := ById(s.snam, id);
    if e.None? {
      return 0;
    }
    nid := out.AddName(s.snam[e.value].str);
  }

  method MergeNames(out: PackageBuilder, p: Parsed)
    requires out.Valid() && |out.names| + |p.names| + 2 < TWO32
    modifies out`names, out`nextNameId
    ensures out.Valid() && out.names == PoolAll(old(out.names), p.names)
  {
    hide Key, Pool, AddKey, IdOf;
    for i := 0 to |p.names|
      invariant out.Valid() && out.names == PoolAll(old(out.names), p.names[..i])
    {
      assert p.names[..i + 1][..i] == p.names[..i];
      var nid := out.AddName(p.names[i].str);
    }
    assert p.names[..|p.names|] == p.names;
  }

  method MergeRoutes(out: PackageBuilder, s: Side, rs: seq<Route>)
    requires out.Valid() && |out.names| + 2 < TWO32 && out.names == s.pool && HoldsAll(s.pool, s.snam)
    modifies out`names, out`nextNameId, out`routes
    ensures out.Valid() && out.names == s.pool
    ensures out.routes == old(out.routes) + Mapped(RouteMap(s), rs)
  {
    hide Pool, HoldsAll, MapName;
    for i := 0 to |rs|
      invariant out.Valid() && out.names == s.pool
      invariant out.routes == old(out.routes) + Mapped(RouteMap(s), rs[..i])
    {
      var site := MapNameInto(out, s, rs[i].siteNameId);
      var far := MapNameInto(out, s, rs[i].farNameId);
      out.AddRoute(Route(Biased(rs[i].routeId, s.bias), site, far, rs[i].lengthKm, rs[i].fiberCount, rs[i].flags));
    }
    assert rs[..|rs|] == rs;
  }

  method MergeInsts(out: PackageBuilder, s: Side, rs: seq<Inst>)
    requires out.Valid() && |out.names| + 2 < TWO32 && out.names == s.pool && HoldsAll(s.pool, s.snam)
    modifies out`names, out`nextNameId, out`insts
    ensures out.Valid() && out.names == s.pool
    ensures out.insts == old(out.insts) + Mapped(InstMap(s), rs)
  {
    hide Pool, HoldsAll, MapName;
    for i := 0 to |rs|
      invariant out.Valid() && out.names == s.pool
      invariant out.insts == old(out.insts) + Mapped(InstMap(s), rs[..i])
    {
      var r := rs[i];
      var model := MapNameInto(out, s, r.modelNameId);
      var serial := MapNameInto(out, s, r.serialNameId);
      out.AddInst(Inst(Biased(r.instId, s.bias), model, serial, r.wavelengthNm, r.pulseDefaultNs, r.dynamicRangeDb,
                       r.flags));
    }
    assert rs[..|rs|] == rs;
  }

  method MergeMarkers(out: PackageBuilder, s: Side, o: MergeOptions, ws: seq<Window>, ms: seq<Marker>)
    requires out.Valid() && |out.names| + 2 < TWO32 && out.names == s.pool && HoldsAll(s.pool, s.snam)
    modifies out`names, out`nextNameId, out`markers
    ensures out.Valid() && out.names == s.pool
    ensures out.markers == old(out.markers) + Mapped(MarkerMap(s), KeptMarkers(o, ws, ms))
  {
    hide Pool, HoldsAll, MapName, WindowIds;
    for i := 0 to |ms|
      invariant out.Valid() && out.names == s.pool
      invariant out.markers == old(out.markers) + Mapped(MarkerMap(s), KeptMarkers(o, ws, ms[..i]))
    {
      assert ms[..i + 1][..i] == ms[..i];
      var m := ms[i];
      var name := MapNameInto(out, s, m.labelNameId);
      var linked := true;
      if o.dropUnlinked {
        linked := IsLinked(ws, m);
      }
      if linked {
        out.AddMarker(m.(markerId := Biased(m.markerId, s.bias), windowId := Biased(m.windowId, s.bias),
                         labelNameId := name));
      }
    }
    assert ms[..|ms|] == ms;
  }

  method IsLinked(ws: seq<Window>, m: Marker) returns (linked: bool)
    ensures linked <==> m.windowId in WindowIds(ws)
  {
    for j := 0 to |ws|
      invariant forall k | 0 <= k < j :: ws[k].windowId != m.windowId
    {
      if ws[j].windowId == m.windowId {
        assert WindowIds(ws)[j] == m.windowId;
        return true;
      }
    }
    return false;
  }

  method MergeNotes(out: PackageBuilder, s: Side, ns: seq<Note>)
    requires out.Valid() && |out.names| + 2 < TWO32 && out.names == s.pool && HoldsAll(s.pool, s.snam)
    modifies out`names, out`nextNameId, out`notes
    ensures out.Valid() && out.names == s.pool
    ensures out.notes == old(out.notes) + Mapped(NoteMap(s), ns)
  {
    hide Pool, HoldsAll, MapName;
    for i := 0 to |ns|
      invariant out.Valid() && out.names == s.pool
      invariant out.notes == old(out.notes) + Mapped(NoteMap(s), ns[..i])
    {
      var n := ns[i];
      var text := MapNameInto(out, s, n.textNameId);
      out.AddNote(Note(Biased(n.noteId, s.bias), n.targetKind, Biased(n.targetId, s.bias), text, n.flags));
    }
    assert ns[..|ns|] == ns;
  }

  /** The loops over records without names. */
  method MergeCalibs(out: PackageBuilder, s: Side, cs: seq<Calib>)
    modifies out`calibs
    ensures out.calibs == old(out.calibs) + Mapped(CalibMap(s), cs)
  {
    for i := 0 to |cs|
      invariant out.calibs == old(out.calibs) + Mapped(CalibMap(s), cs[..i])
    {
      out.AddCalib(cs[i].(calibId := Biased(cs[i].calibId, s.bias), instId := Biased(cs[i].instId, s.bias)));
    }
    assert cs[..|cs|] == cs;
  }

  method MergeWindows(out: PackageBuilder, s: Side, ws: seq<Window>)
    modifies out`windows
    ensures out.windows == old(out.windows) + Mapped(WindowMap(s), ws)
  {
    for i := 0 to |ws|
      invariant out.windows == old(out.windows) + Mapped(WindowMap(s), ws[..i])
    {
      var w := ws[i];
      out.AddWindow(w.(windowId := Biased(w.windowId, s.bias), routeId := Biased(w.routeId, s.bias),
                       instId := Biased(w.instId, s.bias), calibId := Biased(w.calibId, s.bias),
                       waveBlockId := Biased(w.waveBlockId, s.bias)));
    }
    assert ws[..|ws|] == ws;
  }

  method MergeWaves(out: PackageBuilder, s: Side, ws: seq<Wave>)
    modifies out`waves
    ensures out.waves == old(out.waves) + Mapped(WaveMap(s), Kept(ws))
  {
    hide Biased, Mapped, Kept, WaveMap, MergeWave;
    ghost var before := out.waves;
    NothingKept(s);
    for i := 0 to |ws|
      invariant out.waves == before + Mapped(WaveMap(s), Kept(ws[..i]))
    {
      var b := ws[i];
      CopyNext(s, before, ws, i);
      CopyIsMerge(s, b);
      if |b.samples| != 0 {
        var st := out.AddWaveCopy(Biased(b.blockId, s.bias), Biased(b.windowId, s.bias), b.samples, b.startM, b.stepM);
      }
    }
    assert ws[..|ws|] == ws;
  }

  /** One step of the loop: a block with samples is appended. */
  lemma CopyNext(s: Side, before: seq<BWave>, ws: seq<Wave>, i: nat)
    requires i < |ws|
    ensures before + Mapped(WaveMap(s), Kept(ws[..i + 1])) ==
            if ws[i].samples == [] then before + Mapped(WaveMap(s), Kept(ws[..i]))
            else before + Mapped(WaveMap(s), Kept(ws[..i])) + [MergeWave(s, ws[i])]
  {
    hide Mapped, Kept, WaveMap, MergeWave;
    KeptSnoc(ws[..i + 1]);
    assert ws[..i + 1][..i] == ws[..i];
    WaveSnoc(s, Kept(ws[..i]), ws[i]);
  }

  lemma NothingKept(s: Side)
    ensures Mapped(WaveMap(s), Kept([])) == []
  {
  }

  lemma CopyIsMerge(s: Side, b: Wave)
    ensures MergeWave(s, b) ==
            BuilderWave(Biased(b.blockId, s.bias), Biased(b.windowId, s.bias), b.startM, b.stepM, b.samples, 0)
  {
  }

  lemma KeptSnoc(ws: seq<Wave>)
    ensures Kept(ws) == if ws == [] then []
                        else
                          var n := |ws| - 1;
                          if ws[n].samples != [] then Kept(ws[..n]) + [ws[n]] else Kept(ws[..n])
  {
  }

  lemma WaveSnoc(s: Side, ws: seq<Wave>, b: Wave)
    ensures Mapped(WaveMap(s), ws + [b]) == Mapped(WaveMap(s), ws) + [MergeWave(s, b)]
  {
  }

  method MergeLinks(out: PackageBuilder, s: Side, ls: seq<Link>)
    modifies out`links
    ensures out.links == old(out.links) + Mapped(LinkMap(s), ls)
  {
    for i := 0 to |ls|
      invariant out.links == old(out.links) + Mapped(LinkMap(s), ls[..i])
    {
      var l := ls[i];
      out.AddLink(l.(linkId := Biased(l.linkId, s.bias), fromId := Biased(l.fromId, s.bias),
                     toId := Biased(l.toId, s.bias)));
    }
    assert ls[..|ls|] == ls;
  }

  /** The first loops of `rv_merge_side`. */
  method MergePlant(out: PackageBuilder, p: Parsed, bias: u32) returns (s: Side)
    requires out.Valid() && |out.names| + |p.names| + 2 < TWO32
    modifies out`names, out`nextNameId, out`routes, out`insts, out`calibs
    ensures out.Valid() && s == SideOf(old(out.Built()), p, bias) && out.names == s.pool && HoldsAll(s.pool, s.snam)
    ensures out.routes == old(out.routes) + Mapped(RouteMap(s), p.routes)
    ensures out.insts == old(out.insts) + Mapped(InstMap(s), p.insts)
    ensures out.calibs == old(out.calibs) + Mapped(CalibMap(s), p.calibs)
  {
    hide Pool, HoldsAll, PoolAll, Mapped, RouteMap, InstMap, CalibMap;
    PoolAllKeeps(out.names, p.names);
    MergeNames(out, p);
    s := Side(out.names, p.names, bias);
    MergeRoutes(out, s, p.routes);
    MergeInsts(out, s, p.insts);
    MergeCalibs(out, s, p.calibs);
  }

  /** Its other loops. */
  method MergeTraces(out: PackageBuilder, s: Side, p: Parsed, o: MergeOptions)
    requires out.Valid() && |out.names| + 2 < TWO32 && out.names == s.pool && HoldsAll(s.pool, s.snam)
    modifies out`names, out`nextNameId, out`windows, out`waves, out`markers, out`links, out`notes
    ensures out.Valid() && out.names == s.pool
    ensures out.windows == old(out.windows) + Mapped(WindowMap(s), p.windows)
    ensures out.waves == old(out.waves) + Mapped(WaveMap(s), Kept(p.waves))
    ensures out.markers == old(out.markers) + Mapped(MarkerMap(s), KeptMarkers(o, p.windows, p.markers))
    ensures out.links == old(out.links) + Mapped(LinkMap(s), p.links)
    ensures out.notes == old(out.notes) + if o.includeNotes then Mapped(NoteMap(s), p.notes) else []
  {
    hide Pool, HoldsAll, Mapped, Kept, KeptMarkers, WindowMap, WaveMap, MarkerMap, LinkMap, NoteMap;
    MergeWindows(out, s, p.windows);
    MergeWaves(out, s, p.waves);
    MergeMarkers(out, s, o, p.windows, p.markers);
    MergeLinks(out, s, p.links);
    if o.includeNotes {
      MergeNotes(out, s, p.notes);
    }
  }

  /** `rv_merge_side` */
  method MergeSideInto(out: PackageBuilder, p: Parsed, o: MergeOptions, bias: u32)
    requires out.Valid() && |out.names| + |p.names| + 2 < TWO32
    modifies out
    ensures out.Valid() && out.Built() == MergeSide(old(out.Built()), p, o, bias)
    ensures out.Options() == old(out.Options())
  {
    hide Pool, HoldsAll, PoolAll, Mapped, Kept, KeptMarkers, RouteMap, InstMap, CalibMap, WindowMap, WaveMap, MarkerMap,
         LinkMap, NoteMap;
    var s := MergePlant(out, p, bias);
    MergeTraces(out, s, p, o);
  }

  /** `rv_merge_into_builder` */
  method MergeIntoBuilder(out: PackageBuilder, left: Parsed, right: Parsed, o: MergeOptions)
    requires out.Valid() && |out.names| + |left.names| + |right.names| + 2 < TWO32
    modifies out
    ensures out.Valid() && out.Built() == Merged(old(out.Built()), left, right, o)
    ensures out.Options() == old(out.Options())
  {
    hide Pool, PoolAll;
    MergeSideInto(out, left, o, 0);
    MergeSideInto(out, right, o, if o.remap then BIAS else 0);
  }
}
