/** Normalisation of the decoded tables (src/internal/rv_normalize.c): sorting windows, clamping severities and filling
    in missing window links, all in place. */
module Normalize {
  import opened Types
  import opened Index

  // ----- the sort

  /** Where an insertion step puts a window: after all windows whose id is not greater. */
  function Insert(s: seq<Window>, w: Window): (r: seq<Window>)
    ensures |r| == |s| + 1
  {
    if s == [] || s[|s| - 1].windowId <= w.windowId then s + [w]
    else Insert(s[..|s| - 1], w) + [s[|s| - 1]]
  }

  function SortedById(ws: seq<Window>): (r: seq<Window>)
    ensures |r| == |ws|
  {
    if ws == [] then [] else Insert(SortedById(ws[..|ws| - 1]), ws[|ws| - 1])
  }

  ghost predicate IsSorted(ws: seq<Window>) {
    forall i, j | 0 <= i < j < |ws| :: ws[i].windowId <= ws[j].windowId
  }

  /** The windows with one id, in table order. */
  function WithId(ws: seq<Window>, id: u32): seq<Window> {
    if ws == [] then []
    else WithId(ws[..|ws| - 1], id) + if ws[|ws| - 1].windowId == id then [ws[|ws| - 1]] else []
  }

  lemma WithIdSnoc(ws: seq<Window>, w: Window, id: u32)
    ensures WithId(ws + [w], id) == if w.windowId == id then WithId(ws, id) + [w] else WithId(ws, id)
  {
    assert (ws + [w])[..|ws|] == ws;
  }

  lemma {:induction false} InsertElements(s: seq<Window>, w: Window)
    ensures multiset(Insert(s, w)) == multiset(s) + multiset{w}
  {
    if s != [] && s[|s| - 1].windowId > w.windowId {
      InsertElements(s[..|s| - 1], w);
      assert s == s[..|s| - 1] + [s[|s| - 1]];
    }
  }

  /** An insertion keeps the order, and does not change the order among windows of one id. */
  lemma {:induction false} InsertSorts(s: seq<Window>, w: Window)
    requires IsSorted(s)
    ensures IsSorted(Insert(s, w))
    ensures forall i | 0 <= i < |Insert(s, w)| :: Insert(s, w)[i] in s || Insert(s, w)[i] == w
  {
    if s != [] && s[|s| - 1].windowId > w.windowId {
      var rest := s[..|s| - 1];
      InsertSorts(rest, w);
      var r := Insert(rest, w);
      forall i | 0 <= i < |r| ensures r[i].windowId <= s[|s| - 1].windowId && (r[i] in s || r[i] == w) {
        if r[i] != w {
          var k :| 0 <= k < |rest| && rest[k] == r[i];
          assert s[k] == r[i];
        }
      }
    }
  }

  lemma {:induction false} InsertStable(s: seq<Window>, w: Window, id: u32)
    ensures WithId(Insert(s, w), id) == WithId(s + [w], id)
  {
    WithIdSnoc(s, w, id);
    if s != [] && s[|s| - 1].windowId > w.windowId {
      var rest, last := s[..|s| - 1], s[|s| - 1];
      assert s == rest + [last];
      InsertStable(rest, w, id);
      WithIdSnoc(rest, w, id);
      WithIdSnoc(rest, last, id);
      WithIdSnoc(Insert(rest, w), last, id);
    }
  }

  /** The result is a sorted permutation, and stable: windows with the same id keep their order. */
  lemma {:induction false} SortIsStable(ws: seq<Window>, id: u32)
    ensures IsSorted(SortedById(ws)) && multiset(SortedById(ws)) == multiset(ws)
    ensures WithId(SortedById(ws), id) == WithId(ws, id)
  {
    if ws != [] {
      var rest, w := ws[..|ws| - 1], ws[|ws| - 1];
      assert ws == rest + [w];
      SortIsStable(rest, id);
      InsertElements(SortedById(rest), w);
      InsertSorts(SortedById(rest), w);
      InsertStable(SortedById(rest), w, id);
      WithIdSnoc(SortedById(rest), w, id);
      WithIdSnoc(rest, w, id);
    }
  }

  /** Sorting sorted windows changes nothing. */
  lemma {:induction false} SortFixpoint(ws: seq<Window>)
    requires IsSorted(ws)
    ensures SortedById(ws) == ws
  {
    if ws != [] {
      SortFixpoint(ws[..|ws| - 1]);
    }
  }

  /** The last window with an id is what a lookup finds; so the sort, being stable, changes no lookup. */
  lemma {:induction false} LookupIsLastWithId(p: Parsed, id: u32)
    requires id != 0
    ensures WindowOf(p, id) == (var g := WithId(p.windows, id); if g == [] then None else Some(g[|g| - 1]))
    decreases |p.windows|
  {
    if p.windows != [] {
      var n := |p.windows| - 1;
      var q := p.(windows := p.windows[..n]);
      assert WindowIds(p.windows)[..n] == WindowIds(q.windows);
      LookupIsLastWithId(q, id);
    }
  }

  lemma SortKeepsLookups(p: Parsed, id: u32)
    ensures WindowOf(p.(windows := SortedById(p.windows)), id) == WindowOf(p, id)
  {
    hide WindowOf, SortedById, WithId, IsSorted;
    var q := p.(windows := SortedById(p.windows));
    if id == 0 {
      NoZeroLookup(p);
      NoZeroLookup(q);
    } else {
      SortIsStable(p.windows, id);
      LookupIsLastWithId(p, id);
      LookupIsLastWithId(q, id);
    }
  }

  lemma NoZeroLookup(p: Parsed)
    ensures WindowOf(p, 0).None?
  {
  }

  /** Inserting at the end of a longer sorted prefix happens within its part of greater ids. */
  lemma {:induction false} InsertBefore(s: seq<Window>, j: nat, w: Window)
    requires j <= |s| && forall k | j <= k < |s| :: s[k].windowId > w.windowId
    ensures Insert(s, w) == Insert(s[..j], w) + s[j..]
  {
    if j < |s| {
      var rest := s[..|s| - 1];
      InsertBefore(rest, j, w);
      assert rest[..j] == s[..j];
      assert s[j..] == rest[j..] + [s[|s| - 1]];
    } else {
      assert s[..j] == s && s[j..] == [];
    }
  }

  lemma InsertAtEnd(s: seq<Window>, w: Window)
    requires s == [] || s[|s| - 1].windowId <= w.windowId
    ensures Insert(s, w) == s + [w]
  {
  }

  /** The inner loop of the sort: window `i` moves down to its place by swaps. */
  method SiftDown(t: array<Window>, i: nat)
    requires i < t.Length
    modifies t
    ensures t[..i + 1] == Insert(old(t[..i]), old(t[i])) && t[i + 1..] == old(t[i + 1..])
  {
    hide Insert;
    ghost var s, w := t[..i], t[i];
    var j := i;
    while j > 0 && t[j - 1].windowId > t[j].windowId
      invariant j <= i && t[j] == w
      invariant forall k | 0 <= k < j :: t[k] == s[k]
      invariant forall k | j < k <= i :: t[k] == s[k - 1]
      invariant forall k | i < k < t.Length :: t[k] == old(t[k])
      invariant forall k | j <= k < i :: s[k].windowId > w.windowId
    {
      t[j - 1], t[j] := t[j], t[j - 1];
      j := j - 1;
    }
    InsertBefore(s, j, w);
    InsertAtEnd(s[..j], w);
    assert t[..i + 1] == s[..j] + [w] + s[j..];
  }

  /** `rv_sort_windows_by_id` */
  method SortWindows(t: array<Window>)
    modifies t
    ensures t[..] == SortedById(old(t[..]))
  {
    ghost var ws := t[..];
    if t.Length < 2 {
      SortFixpoint(ws);
      return;
    }
    SortFixpoint(ws[..1]);
    for i := 1 to t.Length
      invariant t[..i] == SortedById(ws[..i]) && t[i..] == ws[i..]
    {
      assert t[i..][0] == ws[i] && t[i..][1..] == t[i + 1..] && ws[i..][1..] == ws[i + 1..];
      assert ws[..i + 1][..i] == ws[..i];
      SiftDown(t, i);
    }
    assert ws[..t.Length] == ws && t[..t.Length] == t[..];
  }

  // ----- the whole normalisation

  const MAX_SEVERITY: u16 := 100

  function Clamp(m: Marker): Marker {
    if m.severity > MAX_SEVERITY then m.(severity := MAX_SEVERITY) else m
  }

  /** A block without window link gets the only window there is. */
  function Fill(b: Wave, ws: seq<Window>): Wave {
    if b.windowId == 0 && |ws| == 1 then b.(windowId := ws[0].windowId) else b
  }

  function ClampAll(ms: seq<Marker>): (r: seq<Marker>)
    ensures |r| == |ms|
  {
    seq(|ms|, i requires 0 <= i < |ms| => Clamp(ms[i]))
  }

  function FillAll(bs: seq<Wave>, ws: seq<Window>): (r: seq<Wave>)
    ensures |r| == |bs|
  {
    seq(|bs|, i requires 0 <= i < |bs| => Fill(bs[i], ws))
  }

  function Normalized(p: Parsed): Parsed {
    var ws := SortedById(p.windows);
    p.(windows := ws, markers := ClampAll(p.markers), waves := FillAll(p.waves, ws))
  }

  method ClampMarkers(markers: array<Marker>)
    modifies markers
    ensures markers[..] == ClampAll(old(markers[..]))
  {
    for i := 0 to markers.Length
      invariant forall k | 0 <= k < markers.Length ::
                  markers[k] == if k < i then Clamp(old(markers[k])) else old(markers[k])
    {
      if markers[i].severity > MAX_SEVERITY {
        markers[i] := markers[i].(severity := MAX_SEVERITY);
      }
    }
  }

  method FillWaves(waves: array<Wave>, windows: array<Window>)
    modifies waves
    ensures waves[..] == FillAll(old(waves[..]), windows[..])
  {
    ghost var ws := windows[..];
    for i := 0 to waves.Length
      invariant forall k | 0 <= k < waves.Length ::
                  waves[k] == if k < i then Fill(old(waves[k]), ws) else old(waves[k])
    {
      if waves[i].windowId == 0 && windows.Length == 1 {
        waves[i] := waves[i].(windowId := windows[0].windowId);
      }
    }
  }

  /** `rv_normalize_parsed` on the tables it changes. */
  method NormalizeTables(windows: array<Window>, markers: array<Marker>, waves: array<Wave>)
    modifies windows, markers, waves
    ensures windows[..] == SortedById(old(windows[..]))
    ensures markers[..] == ClampAll(old(markers[..]))
    ensures waves[..] == FillAll(old(waves[..]), windows[..])
  {
    hide SortedById, ClampAll, FillAll;
    SortWindows(windows);
    ClampMarkers(markers);
    FillWaves(waves, windows);
  }

  /** `rv_normalize_parsed` on a package: its table arrays are sorted, clamped and filled where they are. */
  method NormalizeParsed(p: Parsed) returns (q: Parsed)
    ensures q == Normalized(p)
  {
    hide SortedById, ClampAll, FillAll;
    var windows := new Window[|p.windows|](i requires 0 <= i < |p.windows| => p.windows[i]);
    var markers := new Marker[|p.markers|](i requires 0 <= i < |p.markers| => p.markers[i]);
    var waves := new Wave[|p.waves|](i requires 0 <= i < |p.waves| => p.waves[i]);
    assert windows[..] == p.windows && markers[..] == p.markers && waves[..] == p.waves;
    NormalizeTables(windows, markers, waves);
    q := p.(windows := windows[..], markers := markers[..], waves := waves[..]);
  }

  /** Normalising twice changes nothing more. */
  lemma NormalizeIdempotent(p: Parsed)
    ensures Normalized(Normalized(p)) == Normalized(p)
  {
    hide SortedById;
    SortIsStable(p.windows, 0);
    SortFixpoint(SortedById(p.windows));
  }
}
