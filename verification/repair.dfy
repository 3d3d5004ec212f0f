/** Package repair (src/internal/rv_recover.c) and what normalisation and repair do to references. */
module Repair {
  import opened Types
  import opened Index
  import opened Xref
  import opened Export
  import opened Normalize
  import opened Validate

  datatype RepairOptions = RepairOptions(rebuildSumm: bool, dropBadLinks: bool, clampRanges: bool)

  const FROM_MARKER: u32 := 3

  /** A link from a marker that does not exist. */
  predicate Dangles(ms: seq<Marker>, l: Link) {
    l.fromKind == FROM_MARKER && forall j | 0 <= j < |ms| :: ms[j].markerId != l.fromId
  }

  /** The links that do not dangle, in order. */
  function KeptLinks(ms: seq<Marker>, ls: seq<Link>): (r: seq<Link>)
    ensures |r| <= |ls| && forall l :: l in r <==> l in ls && !Dangles(ms, l)
  {
    if ls == [] then []
    else KeptLinks(ms, ls[..|ls| - 1]) + if Dangles(ms, ls[|ls| - 1]) then [] else [ls[|ls| - 1]]
  }

  function WithRepairedFlag(flags: u32): (r: u32)
    ensures r % 2 == 1 && r / 2 == flags / 2
  {
    if flags % 2 == 0 then flags + 1 else flags
  }

  function RebuiltSumm(p: Parsed, size: u64): Summ
    requires Countable(p)
  {
    Summ(|p.routes|, |p.windows|, |p.markers|, |p.waves|, |p.names|, p.summ.packageCrc, size,
         WithRepairedFlag(p.summ.flags))
  }

  function AfterClamp(p: Parsed, o: RepairOptions): Parsed {
    if o.clampRanges then Normalized(p) else p
  }

  function AfterDrop(p: Parsed, o: RepairOptions): Parsed {
    if o.dropBadLinks then p.(links := KeptLinks(p.markers, p.links)) else p
  }

  /** The repaired package; `size` is the length of the image it was read from. */
  function Repaired(p: Parsed, o: RepairOptions, size: u64): Parsed
    requires Countable(p)
  {
    var q := AfterDrop(AfterClamp(p, o), o);
    if o.rebuildSumm then q.(summ := RebuiltSumm(q, size), hasSumm := true) else q
  }

  /** The in-place compaction of the link table. */
  method CompactLinks(links: array<Link>, ms: seq<Marker>) returns (w: nat)
    modifies links
    ensures w <= links.Length && links[..w] == KeptLinks(ms, old(links[..]))
  {
    hide KeptLinks;
    ghost var before := links[..];
    w := 0;
    NoLinks(ms);
    for i := 0 to links.Length
      invariant w <= i && links[..w] == KeptLinks(ms, before[..i])
      invariant forall k | i <= k < links.Length :: links[k] == before[k]
    {
      assert before[..i + 1][..i] == before[..i] && links[i] == before[i];
      KeptSnoc(ms, before[..i + 1]);
      var dangling := false;
      if links[i].fromKind == FROM_MARKER {
        var found := HasMarker(ms, links[i].fromId);
        dangling := !found;
      }
      if !dangling {
        if w != i {
          links[w] := links[i];
        }
        w := w + 1;
      }
    }
    assert before[..links.Length] == before;
  }

  lemma KeptSnoc(ms: seq<Marker>, ls: seq<Link>)
    requires ls != []
    ensures var n := |ls| - 1;
            KeptLinks(ms, ls) == if Dangles(ms, ls[n]) then KeptLinks(ms, ls[..n]) else KeptLinks(ms, ls[..n]) + [ls[n]]
  {
  }

  method HasMarker(ms: seq<Marker>, id: u32) returns (found: bool)
    ensures found <==> exists j :: 0 <= j < |ms| && ms[j].markerId == id
  {
    for j := 0 to |ms|
      invariant forall k | 0 <= k < j :: ms[k].markerId != id
    {
      if ms[j].markerId == id {
        return true;
      }
    }
    return false;
  }

  /** `rv_repair_package` */
  method RepairPackage(p: Parsed, o: RepairOptions, size: u64) returns (q: Parsed)
    requires Countable(p)
    ensures q == Repaired(p, o, size)
  {
    hide Normalized, KeptLinks;
    NormalizedSizes(p);
    q := p;
    if o.clampRanges {
      q := NormalizeParsed(q);
    }
    if o.dropBadLinks && |q.links| > 0 {
      var links := new Link[|q.links|](i requires 0 <= i < |q.links| => q.links[i]);
      assert links[..] == q.links;
      var w := CompactLinks(links, q.markers);
      q := q.(links := links[..w]);
    }
    NoLinks(q.markers);
    if o.rebuildSumm {
      var flags := if q.summ.flags % 2 == 0 then q.summ.flags + 1 else q.summ.flags;
      q := q.(summ := Summ(|q.routes|, |q.windows|, |q.markers|, |q.waves|, |q.names|, q.summ.packageCrc, size, flags),
              hasSumm := true);
    }
  }

  lemma NoLinks(ms: seq<Marker>)
    ensures KeptLinks(ms, []) == []
  {
  }

  lemma NormalizedSizes(p: Parsed)
    ensures var q := Normalized(p);
            && |q.windows| == |p.windows| && |q.markers| == |p.markers| && |q.waves| == |p.waves|
            && q.names == p.names && q.routes == p.routes && q.insts == p.insts && q.calibs == p.calibs
            && q.links == p.links && q.notes == p.notes && q.summ == p.summ
            && (forall i | 0 <= i < |p.markers| :: q.markers[i] == Clamp(p.markers[i]))
  {
    hide SortedById;
  }

  // ----- repairing twice

  lemma {:induction false} KeptTwice(ms: seq<Marker>, ls: seq<Link>)
    ensures KeptLinks(ms, KeptLinks(ms, ls)) == KeptLinks(ms, ls)
  {
    hide Dangles;
    if ls != [] {
      var rest, l := ls[..|ls| - 1], ls[|ls| - 1];
      KeptTwice(ms, rest);
      var kept := KeptLinks(ms, rest);
      if !Dangles(ms, l) {
        assert (kept + [l])[..|kept|] == kept;
      } else {
        assert KeptLinks(ms, ls) == kept;
      }
    }
  }

  /** Normalisation does not look at links or the summary. */
  lemma NormalizeFrame(p: Parsed, links: seq<Link>, summ: Summ, hasSumm: bool)
    ensures Normalized(p.(links := links, summ := summ, hasSumm := hasSumm)) ==
            Normalized(p).(links := links, summ := summ, hasSumm := hasSumm)
  {
  }

  /** Repair is idempotent, for all options. */
  lemma RepairIdempotent(p: Parsed, o: RepairOptions, size: u64)
    requires Countable(p)
    ensures var q := Repaired(p, o, size); Countable(q) && Repaired(q, o, size) == q
  {
    hide Normalized, KeptLinks, WithRepairedFlag;
    NormalizedSizes(p);
    NormalizeIdempotent(p);
    var q := Repaired(p, o, size);
    var c := AfterClamp(p, o);
    NormalizeFrame(c, q.links, q.summ, q.hasSumm);
    KeptTwice(c.markers, c.links);
    FlagTwice(c.summ.flags);
  }

  lemma FlagTwice(flags: u32)
    ensures WithRepairedFlag(WithRepairedFlag(flags)) == WithRepairedFlag(flags)
  {
  }

  /** A rebuilt summary passes the validator's count check. */
  lemma RepairFixesCounts(p: Parsed, o: RepairOptions, size: u64)
    requires Countable(p) && o.rebuildSumm
    ensures SummCountsOk(Repaired(p, o, size))
  {
    hide Normalized, KeptLinks;
    NormalizedSizes(p);
  }

  // ----- references

  /** Sorting permutes the ids. */
  lemma SortedIds(ws: seq<Window>, id: u32)
    ensures id in WindowIds(SortedById(ws)) <==> id in WindowIds(ws)
  {
    hide SortedById;
    SortIsStable(ws, id);
    var sorted := SortedById(ws);
    if id in WindowIds(sorted) {
      var k :| 0 <= k < |sorted| && sorted[k].windowId == id;
      assert sorted[k] in multiset(sorted);
      assert sorted[k] in ws;
      var j :| 0 <= j < |ws| && ws[j] == sorted[k];
      assert WindowIds(ws)[j] == id;
    }
    if id in WindowIds(ws) {
      var k :| 0 <= k < |ws| && ws[k].windowId == id;
      assert ws[k] in multiset(ws);
      assert ws[k] in sorted;
      var j :| 0 <= j < |sorted| && sorted[j] == ws[k];
      assert WindowIds(sorted)[j] == id;
    }
  }

  lemma {:induction false} InsertTotal(p: Parsed, s: seq<Window>, w: Window)
    ensures WindowTotal(p, Insert(s, w)) == WindowTotal(p, s) + WindowFailures(p, w)
  {
    hide WindowFailures;
    if s != [] && s[|s| - 1].windowId > w.windowId {
      InsertTotal(p, s[..|s| - 1], w);
      TotalSnoc(p, Insert(s[..|s| - 1], w), s[|s| - 1]);
    } else {
      TotalSnoc(p, s, w);
    }
  }

  lemma TotalSnoc(p: Parsed, s: seq<Window>, w: Window)
    ensures WindowTotal(p, s + [w]) == WindowTotal(p, s) + WindowFailures(p, w)
  {
    assert (s + [w])[..|s|] == s;
  }

  lemma {:induction false} SortTotal(p: Parsed, ws: seq<Window>)
    ensures WindowTotal(p, SortedById(ws)) == WindowTotal(p, ws)
  {
    hide WindowFailures, Insert;
    if ws != [] {
      SortTotal(p, ws[..|ws| - 1]);
      InsertTotal(p, SortedById(ws[..|ws| - 1]), ws[|ws| - 1]);
    }
  }

  /** The two packages resolve ids alike. */
  ghost predicate SameIds(p: Parsed, q: Parsed) {
    && p.routes == q.routes && p.insts == q.insts && p.calibs == q.calibs && p.names == q.names
    && WaveIds(p.waves) == WaveIds(q.waves)
    && forall id: u32 :: id in WindowIds(p.windows) <==> id in WindowIds(q.windows)
  }

  lemma {:induction false} SameWindowTotal(p: Parsed, q: Parsed, ws: seq<Window>)
    requires SameIds(p, q)
    ensures WindowTotal(p, ws) == WindowTotal(q, ws)
  {
    hide WindowIds, WaveIds, RouteIds, InstIds, CalibIds;
    if ws != [] {
      SameWindowTotal(p, q, ws[..|ws| - 1]);
    }
  }

  lemma {:induction false} SameMarkerTotal(p: Parsed, q: Parsed, ms: seq<Marker>, ns: seq<Marker>)
    requires SameIds(p, q) && |ms| == |ns| && forall i | 0 <= i < |ms| :: ms[i].windowId == ns[i].windowId
    ensures MarkerTotal(p, ms) == MarkerTotal(q, ns)
  {
    hide WindowIds, WaveIds;
    if ms != [] {
      SameMarkerTotal(p, q, ms[..|ms| - 1], ns[..|ns| - 1]);
    }
  }

  lemma {:induction false} SameWaveTotal(p: Parsed, q: Parsed, bs: seq<Wave>, cs: seq<Wave>)
    requires SameIds(p, q) && |bs| == |cs|
    requires forall i | 0 <= i < |bs| ::
               cs[i] == bs[i] || (bs[i].windowId == 0 && cs[i].windowId in WindowIds(q.windows))
    ensures WaveTotal(p, bs) == WaveTotal(q, cs)
  {
    hide WindowIds, WaveIds;
    if bs != [] {
      SameWaveTotal(p, q, bs[..|bs| - 1], cs[..|cs| - 1]);
    }
  }

  lemma {:induction false} SameLinkTotal(p: Parsed, q: Parsed, ls: seq<Link>)
    requires SameIds(p, q)
    ensures LinkTotal(p, ls) == LinkTotal(q, ls)
  {
    hide WindowIds, WaveIds, RouteIds;
    if ls != [] {
      SameLinkTotal(p, q, ls[..|ls| - 1]);
    }
  }

  lemma NormalizeKeepsIds(p: Parsed)
    ensures SameIds(p, Normalized(p))
  {
    hide SortedById;
    forall id: u32 ensures id in WindowIds(p.windows) <==> id in WindowIds(Normalized(p).windows) {
      SortedIds(p.windows, id);
    }
  }

  /** Normalisation neither breaks nor mends a reference. */
  lemma NormalizeKeepsFailures(p: Parsed)
    ensures Failures(Normalized(p)) == Failures(p)
  {
    hide SortedById, WindowTotal, MarkerTotal, WaveTotal, LinkTotal, SameIds, RouteNamed, InstNamed, NameKnown;
    var q := Normalized(p);
    NormalizeKeepsIds(p);
    SortTotal(p, p.windows);
    SameWindowTotal(p, q, q.windows);
    SameMarkerTotal(p, q, p.markers, q.markers);
    FilledFromTable(p);
    SameWaveTotal(p, q, p.waves, q.waves);
    SameLinkTotal(p, q, p.links);
    SameLabels(p);
  }

  lemma SameLabels(p: Parsed)
    ensures NameTotal(Normalized(p)) == NameTotal(p)
  {
    hide SortedById, RouteNamed, InstNamed, NameKnown;
    var q := Normalized(p);
    assert forall i | 0 <= i < |p.markers| :: q.markers[i].labelNameId == p.markers[i].labelNameId;
  }

  lemma FilledFromTable(p: Parsed)
    ensures var q := Normalized(p);
            forall i | 0 <= i < |p.waves| ::
              q.waves[i] == p.waves[i]
              || (p.waves[i].windowId == 0 && q.waves[i].windowId in WindowIds(q.windows))
  {
    hide SortedById;
    var q := Normalized(p);
    if |q.windows| == 1 {
      assert WindowIds(q.windows)[0] == q.windows[0].windowId;
    }
  }

  lemma {:induction false} FewerLinks(p: Parsed, ms: seq<Marker>, ls: seq<Link>)
    ensures LinkTotal(p, KeptLinks(ms, ls)) <= LinkTotal(p, ls)
  {
    hide Dangles, LinkFailures;
    if ls != [] {
      var kept, l := KeptLinks(ms, ls[..|ls| - 1]), ls[|ls| - 1];
      FewerLinks(p, ms, ls[..|ls| - 1]);
      if !Dangles(ms, l) {
        assert (kept + [l])[..|kept|] == kept;
      } else {
        assert KeptLinks(ms, ls) == kept;
      }
    }
  }

  /** Repair never increases the number of failures that the cross-reference check counts. */
  lemma RepairNeverWorse(p: Parsed, o: RepairOptions, size: u64)
    requires Countable(p)
    ensures Failures(Repaired(p, o, size)) <= Failures(p)
    ensures XrefOk(p) ==> XrefOk(Repaired(p, o, size))
  {
    var q, r := AfterClamp(p, o), Repaired(p, o, size);
    FailuresZero(p);
    FailuresZero(r);
    hide Normalized, KeptLinks, WindowTotal, MarkerTotal, WaveTotal, LinkTotal, NameTotal, XrefOk;
    NormalizeKeepsFailures(p);
    FewerLinks(q, q.markers, q.links);
    OnlyLinks(q, r);
  }

  /** The other parts of the count do not look at links or the summary. */
  lemma OnlyLinks(q: Parsed, r: Parsed)
    requires r == q.(links := r.links, summ := r.summ, hasSumm := r.hasSumm)
    ensures WindowTotal(r, q.windows) == WindowTotal(q, q.windows)
    ensures MarkerTotal(r, q.markers) == MarkerTotal(q, q.markers)
    ensures WaveTotal(r, q.waves) == WaveTotal(q, q.waves)
    ensures LinkTotal(r, r.links) == LinkTotal(q, r.links) && NameTotal(r) == NameTotal(q)
  {
    hide WindowTotal, MarkerTotal, WaveTotal, LinkTotal;
    SameWindowTotal(q, r, q.windows);
    SameMarkerTotal(q, r, q.markers, q.markers);
    SameWaveTotal(q, r, q.waves, q.waves);
    SameLinkTotal(q, r, r.links);
  }
}
