/** What normalisation and repair do to the tables, field by field, and what an opened package therefore holds. */
module RepairMeans {
  import opened Types
  import opened Index
  import opened Normalize
  import opened Repair
  import opened Export
  import opened Positions
  import opened ImageLayout
  import opened Packages
  import opened Readable

  // ----- windows

  /** `ks` arranges the positions of a table: each occurs once. */
  ghost predicate Arrangement(ks: seq<nat>, n: nat) {
    && |ks| == n && (forall k: nat :: k in ks <==> k < n)
    && forall i, j | 0 <= i < j < |ks| :: ks[i] != ks[j]
  }

  /** Ascending ids; windows of one id stay in table order. */
  ghost predicate InOrder(ss: seq<Window>, ks: seq<nat>) {
    |ss| == |ks| &&
    forall i, j | 0 <= i < j < |ss| ::
      ss[i].windowId < ss[j].windowId || (ss[i].windowId == ss[j].windowId && ks[i] < ks[j])
  }

  /** `ss` are the windows in that order. */
  ghost predicate WindowsSorted(ws: seq<Window>, ss: seq<Window>, ks: seq<nat>) {
    && Arrangement(ks, |ws|) && InOrder(ss, ks)
    && forall i | 0 <= i < |ks| :: ks[i] < |ws| && ss[i] == ws[ks[i]]
  }

  ghost function PutAt<T>(s: seq<T>, j: nat, x: T): seq<T>
    requires j <= |s|
  {
    s[..j] + [x] + s[j..]
  }

  lemma PutAtIs<T>(s: seq<T>, j: nat, x: T)
    requires j <= |s|
    ensures var r := PutAt(s, j, x);
            && |r| == |s| + 1 && r[j] == x && (forall i | 0 <= i < j :: r[i] == s[i])
            && forall i | j < i < |r| :: r[i] == s[i - 1]
  {
  }

  /** Where an insertion puts a window: after the ids that are not greater, ... */
  lemma {:induction false} PlaceAmong(s: seq<Window>, id: u32) returns (j: nat)
    requires IsSorted(s)
    ensures j <= |s| && (forall k | 0 <= k < j :: s[k].windowId <= id) && forall k | j <= k < |s| :: id < s[k].windowId
  {
    if s == [] || s[|s| - 1].windowId <= id {
      j := |s|;
    } else {
      j := PlaceAmong(s[..|s| - 1], id);
    }
  }

  /** ... and before the others. */
  lemma InsertPlace(s: seq<Window>, w: Window) returns (j: nat)
    requires IsSorted(s)
    ensures j <= |s| && Insert(s, w) == s[..j] + [w] + s[j..]
    ensures forall k | 0 <= k < j :: s[k].windowId <= w.windowId
    ensures forall k | j <= k < |s| :: w.windowId < s[k].windowId
  {
    hide Insert, IsSorted;
    j := PlaceAmong(s, w.windowId);
    InsertBefore(s, j, w);
    InsertAtEnd(s[..j], w);
  }

  lemma ArrangementMore(ks: seq<nat>, n: nat, j: nat)
    requires Arrangement(ks, n) && j <= |ks|
    ensures Arrangement(PutAt<nat>(ks, j, n), n + 1)
  {
    var r := PutAt<nat>(ks, j, n);
    hide PutAt;
    PutAtIs<nat>(ks, j, n);
    assert r[j] == n && n !in ks;
    forall k: nat | k < n ensures k in r {
      assert k in ks;
      var i :| 0 <= i < |ks| && ks[i] == k;
      assert r[if i < j then i else i + 1] == k;
    }
    forall a | 0 <= a < |r| && a != j ensures r[a] in ks {
    }
    forall a, b | 0 <= a < b < |r| ensures r[a] != r[b] {
    }
  }

  lemma OrderMore(ss: seq<Window>, ks: seq<nat>, j: nat, w: Window, n: nat)
    requires InOrder(ss, ks) && j <= |ss| && forall i | 0 <= i < |ks| :: ks[i] < n
    requires forall k | 0 <= k < j :: ss[k].windowId <= w.windowId
    requires forall k | j <= k < |ss| :: w.windowId < ss[k].windowId
    ensures InOrder(PutAt<Window>(ss, j, w), PutAt<nat>(ks, j, n))
  {
    hide PutAt;
    PutAtIs<Window>(ss, j, w);
    PutAtIs<nat>(ks, j, n);
    var r, at := PutAt<Window>(ss, j, w), PutAt<nat>(ks, j, n);
    forall a, b | 0 <= a < b < |r|
      ensures r[a].windowId < r[b].windowId || (r[a].windowId == r[b].windowId && at[a] < at[b])
    {
    }
  }

  lemma PlacesMore(ws: seq<Window>, ss: seq<Window>, ks: seq<nat>, j: nat)
    requires ws != [] && j <= |ss| == |ks|
    requires forall i | 0 <= i < |ks| :: ks[i] < |ws| - 1 && ss[i] == ws[ks[i]]
    ensures var n := |ws| - 1;
            var r, at := PutAt<Window>(ss, j, ws[n]), PutAt<nat>(ks, j, n);
            forall i | 0 <= i < |at| :: at[i] < |ws| && r[i] == ws[at[i]]
  {
    hide PutAt;
    var n := |ws| - 1;
    PutAtIs<Window>(ss, j, ws[n]);
    PutAtIs<nat>(ks, j, n);
    var r, at := PutAt<Window>(ss, j, ws[n]), PutAt<nat>(ks, j, n);
    forall i | 0 <= i < |at| ensures at[i] < |ws| && r[i] == ws[at[i]] {
    }
  }

  lemma SortedMore(ws: seq<Window>, ss: seq<Window>, ks: seq<nat>, j: nat)
    requires ws != [] && WindowsSorted(ws[..|ws| - 1], ss, ks) && j <= |ss|
    requires forall k | 0 <= k < j :: ss[k].windowId <= ws[|ws| - 1].windowId
    requires forall k | j <= k < |ss| :: ws[|ws| - 1].windowId < ss[k].windowId
    ensures |ks| == |ss| && WindowsSorted(ws, PutAt<Window>(ss, j, ws[|ws| - 1]), PutAt<nat>(ks, j, |ws| - 1))
  {
    hide PutAt, Arrangement, InOrder;
    var n := |ws| - 1;
    Sizes(ss, ks, n);
    assert forall i | 0 <= i < |ks| :: ws[..n][ks[i]] == ws[ks[i]];
    ArrangementMore(ks, n, j);
    OrderMore(ss, ks, j, ws[n], n);
    PlacesMore(ws, ss, ks, j);
  }

  lemma Sizes(ss: seq<Window>, ks: seq<nat>, n: nat)
    requires Arrangement(ks, n) && InOrder(ss, ks)
    ensures |ss| == |ks| == n && forall i | 0 <= i < |ks| :: ks[i] < n
  {
    assert forall i | 0 <= i < |ks| :: ks[i] in ks;
  }

  lemma {:induction false} SortedMeans(ws: seq<Window>) returns (ks: seq<nat>)
    ensures WindowsSorted(ws, SortedById(ws), ks)
  {
    if ws == [] {
      ks := [];
    } else {
      var n := |ws| - 1;
      var before := SortedMeans(ws[..n]);
      SortIsStable(ws[..n], 0);
      ks := SortedStep(ws, SortedById(ws[..n]), before);
    }
  }

  lemma SortedStep(ws: seq<Window>, ss: seq<Window>, before: seq<nat>) returns (ks: seq<nat>)
    requires ws != [] && WindowsSorted(ws[..|ws| - 1], ss, before) && IsSorted(ss)
    ensures WindowsSorted(ws, Insert(ss, ws[|ws| - 1]), ks)
  {
    hide WindowsSorted, Insert;
    var n := |ws| - 1;
    var j := InsertPlace(ss, ws[n]);
    SortedMore(ws, ss, before, j);
    ks := PutAt<nat>(before, j, n);
    assert Insert(ss, ws[n]) == PutAt<Window>(ss, j, ws[n]);
  }

  // ----- markers and blocks

  /** Severities above 100 become 100. */
  ghost predicate MarkerClamped(m: Marker, c: Marker) {
    && c.severity == (if m.severity <= 100 then m.severity else 100)
    && c.markerId == m.markerId && c.windowId == m.windowId && c.labelNameId == m.labelNameId
    && c.distanceM == m.distanceM && c.lossDb == m.lossDb && c.reflectanceDb == m.reflectanceDb
    && c.kind == m.kind && c.flags == m.flags
  }

  /** A block without a window id gets that of the only window, when there is only one. */
  ghost predicate BlockFilled(ws: seq<Window>, b: Wave, c: Wave) {
    && (b.windowId == 0 && |ws| == 1 ==> c.windowId == ws[0].windowId)
    && (b.windowId != 0 || |ws| != 1 ==> c.windowId == b.windowId)
    && c.blockId == b.blockId && c.startM == b.startM && c.stepM == b.stepM && c.samples == b.samples
    && c.flags == b.flags && c.payloadCrc == b.payloadCrc
  }

  /** `q` is the normal form of `p`. */
  ghost predicate NormalForm(p: Parsed, q: Parsed) {
    && (exists ks :: WindowsSorted(p.windows, q.windows, ks))
    && |q.markers| == |p.markers| && |q.waves| == |p.waves|
    && (forall i | 0 <= i < |p.markers| :: MarkerClamped(p.markers[i], q.markers[i]))
    && (forall i | 0 <= i < |p.waves| :: BlockFilled(p.windows, p.waves[i], q.waves[i]))
    && q.names == p.names && q.routes == p.routes && q.insts == p.insts && q.calibs == p.calibs && q.links == p.links
    && q.notes == p.notes && q.summ == p.summ && q.hasSumm == p.hasSumm && q.featureBits == p.featureBits
  }

  /** Normalisation, field by field. */
  lemma NormalFormIs(p: Parsed)
    ensures NormalForm(p, Normalized(p))
  {
    var ks := SortedMeans(p.windows);
    OnlyWindow(p.windows);
    hide WindowsSorted, SortedById;
  }

  lemma OnlyWindow(ws: seq<Window>)
    ensures |ws| == 1 ==> SortedById(ws) == ws
  {
    if |ws| == 1 {
      SortFixpoint(ws);
    }
  }

  // ----- repair

  /** A link from a marker is kept when some marker has the id; all other links are kept. */
  ghost predicate Keepable(ms: seq<Marker>, l: Link) {
    l.fromKind == 3 ==> exists j :: 0 <= j < |ms| && ms[j].markerId == l.fromId
  }

  ghost predicate LinksKept(ms: seq<Marker>, ls: seq<Link>, r: seq<Link>) {
    exists ks :: TakenAt(ls, ks, r) && forall k: nat | k < |ls| :: k in ks <==> Keepable(ms, ls[k])
  }

  lemma KeptLinksStep(ms: seq<Marker>, ls: seq<Link>, before: seq<nat>)
    requires ls != [] && TakenAt(ls[..|ls| - 1], before, KeptLinks(ms, ls[..|ls| - 1]))
    ensures TakenAt(ls, if Keepable(ms, ls[|ls| - 1]) then before + [|ls| - 1] else before, KeptLinks(ms, ls))
    ensures |ls| - 1 !in before
  {
    hide TakenAt, KeptLinks, Keepable, Dangles;
    KeptSnoc(ms, ls);
    KeepableIs(ms, ls[|ls| - 1]);
    TakenMore(ls, before, KeptLinks(ms, ls[..|ls| - 1]));
  }

  lemma {:induction false} KeptLinksAt(ms: seq<Marker>, ls: seq<Link>) returns (ks: seq<nat>)
    ensures TakenAt(ls, ks, KeptLinks(ms, ls)) && forall k: nat | k < |ls| :: k in ks <==> Keepable(ms, ls[k])
  {
    hide Keepable, KeptLinks;
    ks := [];
    if ls == [] {
      NoLinks(ms);
    } else {
      hide TakenAt;
      var n := |ls| - 1;
      var before := KeptLinksAt(ms, ls[..n]);
      KeptLinksStep(ms, ls, before);
      ks := if Keepable(ms, ls[n]) then before + [n] else before;
      forall k: nat | k < n ensures k in ks <==> Keepable(ms, ls[k]) {
        assert ls[..n][k] == ls[k];
      }
    }
  }

  lemma KeepableIs(ms: seq<Marker>, l: Link)
    ensures Keepable(ms, l) <==> !Dangles(ms, l)
  {
  }

  lemma LinksKeptIs(ms: seq<Marker>, ls: seq<Link>)
    ensures LinksKept(ms, ls, KeptLinks(ms, ls))
  {
    hide TakenAt, Keepable, KeptLinks;
    var ks := KeptLinksAt(ms, ls);
  }

  /** The marker ids of a normal form are those of its package. */
  lemma SameKeepable(ms: seq<Marker>, cs: seq<Marker>)
    requires |cs| == |ms| && forall i | 0 <= i < |ms| :: MarkerClamped(ms[i], cs[i])
    ensures forall l :: Keepable(cs, l) <==> Keepable(ms, l)
  {
    forall l ensures Keepable(cs, l) <==> Keepable(ms, l) {
      if Keepable(cs, l) && l.fromKind == 3 {
        var j :| 0 <= j < |cs| && cs[j].markerId == l.fromId;
        assert ms[j].markerId == l.fromId;
      }
      if Keepable(ms, l) && l.fromKind == 3 {
        var j :| 0 <= j < |ms| && ms[j].markerId == l.fromId;
        assert MarkerClamped(ms[j], cs[j]);
      }
    }
  }

  /** The summary counts the tables and is marked as repaired by its lowest flag; the rest of it stays. */
  ghost predicate SummRebuilt(p: Parsed, size: nat, s: Summ) {
    && s.routeCount == |p.routes| && s.windowCount == |p.windows| && s.markerCount == |p.markers|
    && s.waveCount == |p.waves| && s.nameCount == |p.names|
    && s.packageCrc == p.summ.packageCrc && s.payloadBytes == size
    && s.flags % 2 == 1 && s.flags / 2 == p.summ.flags / 2
  }

  /** `r` is `p` repaired with all three options. */
  ghost predicate RepairOf(p: Parsed, size: nat, r: Parsed) {
    && LinksKept(p.markers, p.links, r.links)
    && SummRebuilt(p, size, r.summ) && r.hasSumm
    && NormalForm(p, r.(links := p.links, summ := p.summ, hasSumm := p.hasSumm))
  }

  /** A repair, option by option. */
  lemma RepairedMeans(p: Parsed, o: RepairOptions, size: u64)
    requires Countable(p)
    ensures var r := Repaired(p, o, size);
            && (if o.dropBadLinks then LinksKept(p.markers, p.links, r.links) else r.links == p.links)
            && (if o.rebuildSumm then SummRebuilt(p, size, r.summ) && r.hasSumm
                else r.summ == p.summ && r.hasSumm == p.hasSumm)
            && var q := r.(links := p.links, summ := p.summ, hasSumm := p.hasSumm);
               if o.clampRanges then NormalForm(p, q) else q == p
  {
    NormalFormIs(p);
    NormalizedSizes(p);
    var q := AfterClamp(p, o);
    LinksKeptIs(q.markers, p.links);
    if o.clampRanges {
      SameKeepable(p.markers, q.markers);
      SameLinks(p.markers, q.markers, p.links, KeptLinks(q.markers, p.links));
    }
    hide LinksKept, KeptLinks, Normalized, NormalForm;
    var r := Repaired(p, o, size);
    assert r.(links := p.links, summ := p.summ, hasSumm := p.hasSumm) == q;
  }

  lemma SameLinks(ms: seq<Marker>, cs: seq<Marker>, ls: seq<Link>, r: seq<Link>)
    requires (forall l :: Keepable(cs, l) <==> Keepable(ms, l)) && LinksKept(cs, ls, r)
    ensures LinksKept(ms, ls, r)
  {
    hide Keepable, TakenAt;
  }

  // ----- packages

  /** Opening: it works exactly for the images that the format accepts, and the package then holds the normal form of
      what they say. */
  method OpenPackage(pkg: Package) returns (st: Status)
    requires pkg.Valid() && !pkg.isOpen
    modifies pkg`tables, pkg`legacy, pkg`isOpen, pkg`viewsCurrent
    modifies pkg.reader`header, pkg.reader`dirCount, pkg.reader.dir
    ensures pkg.Valid()
    ensures st.Ok? <==> exists q :: ImageIs(pkg.reader.backing, pkg.strict, q)
    ensures st.Ok? ==> exists q :: ImageIs(pkg.reader.backing, pkg.strict, q) && NormalForm(q, pkg.tables)
  {
    hide ImageIs, NormalForm, Normalized, Settled, Reader.LoadDir, Rewritable;
    forall q ensures Parser.ParseImage(pkg.reader.backing, pkg.strict) == Some(q) <==>
                     ImageIs(pkg.reader.backing, pkg.strict, q)
    {
      ImageReadExactly(pkg.reader.backing, pkg.strict, q);
    }
    st := pkg.Open();
    var parsed := Parser.ParseImage(pkg.reader.backing, pkg.strict);
    if parsed.Some? {
      assert ImageIs(pkg.reader.backing, pkg.strict, parsed.value);
      NormalFormIs(parsed.value);
    }
  }

  /** The repair of an open package. */
  method RepairPackageTables(pkg: Package) returns (st: Status)
    requires pkg.Valid() && |pkg.reader.backing| < TWO64
    modifies pkg`tables
    ensures pkg.Valid() && (st.Ok? <==> pkg.isOpen)
    ensures if st.Ok? then RepairOf(old(pkg.tables), |pkg.reader.backing|, pkg.tables)
            else pkg.tables == old(pkg.tables)
  {
    hide NormalForm, LinksKept, SummRebuilt, Repaired, Settled, Reader.LoadDir, Rewritable;
    ghost var before := pkg.tables;
    st := pkg.RepairInPlace();
    if st.Ok? {
      RepairedMeans(before, RepairOptions(true, true, true), |pkg.reader.backing|);
    }
  }
}
