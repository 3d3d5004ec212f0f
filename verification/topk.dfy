/** Selection of the markers with the greatest losses (rv_analytics_top_loss_markers in src/internal/rv_analytics.c). */
module TopLoss {
  import opened Types
  import opened Floats
  import opened Index

  /** The loss of the first marker with an id: what the inner scan reads for an output row. */
  function LossOf(ms: seq<Marker>, id: u32): f32 {
    match FirstPos(MarkerIds(ms), id) case None => ZERO case Some(k) => ms[k].lossDb
  }

  /** `x <= y`: false of a NaN */
  predicate Le(x: f32, y: f32) {
    Lt(x, y) || (ValueOf(x) == ValueOf(y) && ValueOf(x) != NaN)
  }

  function RowLoss(ms: seq<Marker>, kept: seq<nat>, k: nat): f32
    requires k < |kept| && kept[k] < |ms|
  {
    LossOf(ms, ms[kept[k]].markerId)
  }

  /** The first of the first `n` rows with the lowest loss. */
  function Worst(ms: seq<Marker>, kept: seq<nat>, n: nat): (w: nat)
    requires 0 < n <= |kept| && forall k | 0 <= k < |kept| :: kept[k] < |ms|
    ensures w < n
  {
    if n == 1 then 0
    else
      var w := Worst(ms, kept, n - 1);
      if Lt(RowLoss(ms, kept, n - 1), RowLoss(ms, kept, w)) then n - 1 else w
  }

  /** The positions of the markers in the output rows after the first `i` markers. */
  function Kept(ms: seq<Marker>, cap: nat, i: nat): (r: seq<nat>)
    requires i <= |ms| && cap > 0
    ensures |r| == if i < cap then i else cap
    ensures forall k | 0 <= k < |r| :: r[k] < i
  {
    if i == 0 then []
    else
      var kept := Kept(ms, cap, i - 1);
      if |kept| < cap then kept + [i - 1]
      else
        var w := Worst(ms, kept, cap);
        if Le(ms[i - 1].lossDb, RowLoss(ms, kept, w)) then kept else kept[w := i - 1]
  }

  lemma KeptNext(ms: seq<Marker>, cap: nat, i: nat)
    requires i <= |ms| && cap > 0
    ensures Kept(ms, cap, 0) == []
    ensures i < |ms| ==>
              var kept := Kept(ms, cap, i);
              Kept(ms, cap, i + 1) ==
              if |kept| < cap then kept + [i]
              else
                var w := Worst(ms, kept, cap);
                if Le(ms[i].lossDb, RowLoss(ms, kept, w)) then kept else kept[w := i]
  {
  }

  lemma NodesAreMarkers(idx: PackageIndex, p: Parsed)
    requires idx.Describes(p)
    ensures |idx.markers| == |p.markers|
    ensures forall k | 0 <= k < |p.markers| :: idx.markers[k].rec == p.markers[k]
  {
    hide Maps;
  }

  /** The selection as it runs, for all inputs. */
  method TopLossMarkers(idx: PackageIndex, out: array<MarkerInfo>, ghost p: Parsed) returns (written: nat)
    requires idx.Describes(p)
    modifies out
    ensures written == if |p.markers| < out.Length then |p.markers| else out.Length
    ensures out.Length > 0 ==>
              var kept := Kept(p.markers, out.Length, |p.markers|);
              forall k | 0 <= k < written :: out[k] == InfoOf(p.markers[kept[k]])
    ensures forall k | written <= k < out.Length :: out[k] == old(out[k])
  {
    hide Maps, NodesOf, Lt, Le, InfoOf, RowLoss, Worst, Kept, RowsShow;
    if out.Length == 0 {
      return 0;
    }
    ghost var cap, ms, kept := out.Length, p.markers, [];
    NodesAreMarkers(idx, p);
    KeptNext(ms, cap, 0);
    NoRows(out[..], ms);
    var n := 0;
    for i := 0 to |idx.markers|
      invariant idx.Describes(p) && n == |kept| && kept == Kept(ms, cap, i)
      invariant RowsShow(out[..], ms, kept)
      invariant forall k | n <= k < cap :: out[k] == old(out[k])
    {
      KeptNext(ms, cap, i);
      n := Consider(idx, out, n, i, p, kept);
      kept := Kept(ms, cap, i + 1);
    }
    RowsAre(out[..], ms, kept);
    written := n;
  }

  lemma NoRows(out: seq<MarkerInfo>, ms: seq<Marker>)
    ensures RowsShow(out, ms, [])
  {
  }

  lemma RowsAre(out: seq<MarkerInfo>, ms: seq<Marker>, kept: seq<nat>)
    requires RowsShow(out, ms, kept)
    ensures |kept| <= |out| && forall k | 0 <= k < |kept| :: kept[k] < |ms| && out[k] == InfoOf(ms[kept[k]])
  {
  }

  ghost predicate RowsShow(out: seq<MarkerInfo>, ms: seq<Marker>, kept: seq<nat>) {
    |kept| <= |out| && forall k | 0 <= k < |kept| :: kept[k] < |ms| && out[k] == InfoOf(ms[kept[k]])
  }

  /** The body of the marker loop: a row is added, replaced or left alone. */
  method Consider(idx: PackageIndex, out: array<MarkerInfo>, n: nat, i: nat, ghost p: Parsed, ghost kept: seq<nat>)
    returns (n': nat)
    requires idx.Describes(p) && i < |p.markers| && n == |kept| && out.Length > 0
    requires RowsShow(out[..], p.markers, kept)
    modifies out
    ensures var ms := p.markers;
            var after := if |kept| < out.Length then kept + [i]
                         else
                           var w := Worst(ms, kept, out.Length);
                           if Le(ms[i].lossDb, RowLoss(ms, kept, w)) then kept else kept[w := i];
            n' == |after| && RowsShow(out[..], ms, after)
    ensures forall k | n' <= k < out.Length :: out[k] == old(out[k])
  {
    hide Maps, Lt, Le, InfoOf, RowLoss, Worst;
    NodesAreMarkers(idx, p);
    var m := idx.markers[i];
    var insert := n;
    var keep := true;
    n' := n;
    if n < out.Length {
      n' := n + 1;
    } else {
      var worst, worstLoss := WorstRow(idx, out, n, p, kept);
      keep := !Le(m.rec.lossDb, worstLoss);
      insert := worst;
    }
    if keep {
      out[insert] := InfoOf(m.rec);
    }
  }

  /** The two inner loops: the row with the lowest loss. */
  method WorstRow(idx: PackageIndex, out: array<MarkerInfo>, n: nat, ghost p: Parsed, ghost kept: seq<nat>)
    returns (worst: nat, worstLoss: f32)
    requires idx.Describes(p) && 0 < n <= out.Length && n == |kept|
    requires forall k | 0 <= k < n :: kept[k] < |p.markers| && out[k] == InfoOf(p.markers[kept[k]])
    ensures worst == Worst(p.markers, kept, n) && worstLoss == RowLoss(p.markers, kept, worst)
  {
    hide Maps, Lt, RowLoss;
    worst, worstLoss := 0, ZERO;
    for k := 0 to n
      invariant k > 0 ==> worst == Worst(p.markers, kept, k) && worstLoss == RowLoss(p.markers, kept, worst)
    {
      var cur := RowValue(idx, out[k].markerId, p);
      RowLossIs(p.markers, kept, k);
      if k == 0 || Lt(cur, worstLoss) {
        worst, worstLoss := k, cur;
      }
    }
  }

  lemma RowLossIs(ms: seq<Marker>, kept: seq<nat>, k: nat)
    requires k < |kept| && kept[k] < |ms|
    ensures RowLoss(ms, kept, k) == LossOf(ms, ms[kept[k]].markerId)
  {
  }

  method RowValue(idx: PackageIndex, id: u32, ghost p: Parsed) returns (cur: f32)
    requires idx.Describes(p)
    ensures cur == LossOf(p.markers, id)
  {
    hide Maps;
    cur := ZERO;
    for j := 0 to |idx.markers|
      invariant cur == ZERO && forall k | 0 <= k < j :: p.markers[k].markerId != id
    {
      if idx.markers[j].markerId == id {
        FirstPosIs(MarkerIds(p.markers), id, j);
        cur := idx.markers[j].rec.lossDb;
        return;
      }
    }
  }

  // ----- what the selection achieves

  ghost predicate Comparable(ms: seq<Marker>) {
    forall i | 0 <= i < |ms| :: ValueOf(ms[i].lossDb) != NaN
  }

  /** Markers that share an id have equal losses; distinct ids are the common case of it. */
  ghost predicate Agreeing(ms: seq<Marker>) {
    forall i, j | 0 <= i < |ms| && 0 <= j < |ms| && ms[i].markerId == ms[j].markerId ::
      ValueOf(ms[i].lossDb) == ValueOf(ms[j].lossDb)
  }

  /** The loss read for an id is that of some marker with the id. */
  lemma ReadFrom(ms: seq<Marker>, j: nat) returns (f: nat)
    requires j < |ms|
    ensures f <= j && ms[f].markerId == ms[j].markerId && LossOf(ms, ms[j].markerId) == ms[f].lossDb
  {
    assert MarkerIds(ms)[j] == ms[j].markerId;
    f := FirstPos(MarkerIds(ms), ms[j].markerId).value;
  }

  /** When markers of one id agree, the loss read for a row is that of its own marker. */
  lemma OwnLoss(ms: seq<Marker>, j: nat)
    requires Agreeing(ms) && j < |ms|
    ensures ValueOf(LossOf(ms, ms[j].markerId)) == ValueOf(ms[j].lossDb)
  {
    hide ValueOf;
    var f := ReadFrom(ms, j);
  }

  /** No marker left out so far has a greater loss than one that is kept. */
  ghost predicate TopOf(ms: seq<Marker>, kept: seq<nat>, i: nat)
    requires i <= |ms| && forall k | 0 <= k < |kept| :: kept[k] < i
  {
    && (forall j, k | 0 <= j < k < |kept| :: kept[j] != kept[k])
    && (forall j, k | 0 <= j < i && j !in kept && 0 <= k < |kept| :: !Lt(ms[kept[k]].lossDb, ms[j].lossDb))
  }

  lemma {:induction false} WorstIsLeast(ms: seq<Marker>, kept: seq<nat>, n: nat, k: nat)
    requires Agreeing(ms) && Comparable(ms)
    requires k < n <= |kept| && forall k | 0 <= k < |kept| :: kept[k] < |ms|
    ensures var w := Worst(ms, kept, n);
            && !Lt(ms[kept[k]].lossDb, ms[kept[w]].lossDb)
            && ValueOf(RowLoss(ms, kept, w)) == ValueOf(ms[kept[w]].lossDb)
  {
    hide ValueOf, Agreeing;
    var w := Worst(ms, kept, n);
    OwnLoss(ms, kept[w]);
    OwnLoss(ms, kept[n - 1]);
    if n > 1 {
      var v := Worst(ms, kept, n - 1);
      OwnLoss(ms, kept[v]);
      if k < n - 1 {
        WorstIsLeast(ms, kept, n - 1, k);
        BelowIsOrder(ValueOf(ms[kept[k]].lossDb), ValueOf(ms[kept[v]].lossDb), ValueOf(ms[kept[w]].lossDb));
        BelowIsOrder(ValueOf(ms[kept[w]].lossDb), ValueOf(ms[kept[k]].lossDb), ValueOf(ms[kept[v]].lossDb));
      }
    }
    BelowIsOrder(ValueOf(ms[kept[w]].lossDb), Finite(0.0), Finite(0.0));
  }

  /** Losses that are numbers compare one way or the other. */
  lemma NotLe(x: f32, y: f32)
    requires ValueOf(x) != NaN && ValueOf(y) != NaN
    ensures !Le(x, y) <==> Lt(y, x)
  {
    hide ValueOf;
  }

  lemma SameLe(x: f32, y: f32, z: f32)
    requires ValueOf(y) == ValueOf(z)
    ensures Le(x, y) <==> Le(x, z)
  {
    hide ValueOf;
  }

  /** One step of the selection. */
  lemma StepKeepsTop(ms: seq<Marker>, cap: nat, i: nat)
    requires Agreeing(ms) && Comparable(ms) && 0 < i <= |ms| && cap > 0
    requires TopOf(ms, Kept(ms, cap, i - 1), i - 1)
    ensures TopOf(ms, Kept(ms, cap, i), i)
  {
    hide ValueOf, Lt, Le, RowLoss, Agreeing, TopOf, Comparable;
    var before := Kept(ms, cap, i - 1);
    if |before| < cap {
      AllAreTop(ms, cap, i);
    } else {
      var w, loss := Worst(ms, before, cap), ms[i - 1].lossDb;
      WorstIsLeast(ms, before, cap, 0);
      forall k | 0 <= k < cap ensures !Lt(ms[before[k]].lossDb, ms[before[w]].lossDb) {
        WorstIsLeast(ms, before, cap, k);
      }
      ComparableAt(ms, i - 1);
      ComparableAt(ms, before[w]);
      NotLe(loss, ms[before[w]].lossDb);
      SameLe(loss, ms[before[w]].lossDb, RowLoss(ms, before, w));
      if Le(loss, ms[before[w]].lossDb) {
        LeftOut(ms, before, w, i);
      } else {
        Replaced(ms, before, w, i);
      }
    }
  }

  lemma ComparableAt(ms: seq<Marker>, i: nat)
    requires Comparable(ms) && i < |ms|
    ensures ValueOf(ms[i].lossDb) != NaN
  {
  }

  /** While there is room nothing is left out. */
  lemma AllAreTop(ms: seq<Marker>, cap: nat, i: nat)
    requires i <= |ms| && i <= cap && cap > 0
    ensures TopOf(ms, Kept(ms, cap, i), i)
  {
    hide Lt;
    var kept := Kept(ms, cap, i);
    AllKept(ms, cap, i);
    forall j: nat | j < i ensures j in kept {
      assert kept[j] == j;
    }
  }

  /** A loss that is not greater than the lowest one kept is left out. */
  lemma LeftOut(ms: seq<Marker>, kept: seq<nat>, w: nat, i: nat)
    requires Comparable(ms) && 0 < i <= |ms| && w < |kept|
    requires forall k | 0 <= k < |kept| :: kept[k] < i - 1
    requires TopOf(ms, kept, i - 1) && !Lt(ms[kept[w]].lossDb, ms[i - 1].lossDb)
    requires forall k | 0 <= k < |kept| :: !Lt(ms[kept[k]].lossDb, ms[kept[w]].lossDb)
    ensures TopOf(ms, kept, i)
  {
    hide ValueOf, Lt;
    forall k | 0 <= k < |kept| ensures !Lt(ms[kept[k]].lossDb, ms[i - 1].lossDb) {
      Order(ms[kept[k]].lossDb, ms[kept[w]].lossDb, ms[i - 1].lossDb);
    }
  }

  /** Until the output is full, the markers are kept in order. */
  lemma {:induction false} AllKept(ms: seq<Marker>, cap: nat, i: nat)
    requires i <= |ms| && cap > 0 && i <= cap
    ensures forall k | 0 <= k < i :: Kept(ms, cap, i)[k] == k
  {
    if i > 0 {
      AllKept(ms, cap, i - 1);
    }
  }

  /** `x >= y >= z` */
  lemma Order(x: f32, y: f32, z: f32)
    requires ValueOf(x) != NaN && ValueOf(y) != NaN && ValueOf(z) != NaN
    requires !Lt(x, y) && !Lt(y, z)
    ensures !Lt(x, z)
  {
    BelowIsOrder(ValueOf(x), ValueOf(y), ValueOf(z));
  }

  lemma LtNotGt(x: f32, y: f32)
    requires Lt(x, y)
    ensures !Lt(y, x)
  {
    BelowIsOrder(ValueOf(x), ValueOf(y), ValueOf(x));
  }

  /** A greater loss takes the place of the lowest one kept. */
  lemma Replaced(ms: seq<Marker>, before: seq<nat>, w: nat, i: nat)
    requires Comparable(ms) && 0 < i <= |ms| && w < |before|
    requires forall k | 0 <= k < |before| :: before[k] < i - 1
    requires TopOf(ms, before, i - 1) && Lt(ms[before[w]].lossDb, ms[i - 1].lossDb)
    requires forall k | 0 <= k < |before| :: !Lt(ms[before[k]].lossDb, ms[before[w]].lossDb)
    ensures TopOf(ms, before[w := i - 1], i)
  {
    hide ValueOf, Lt;
    var after := before[w := i - 1];
    LtNotGt(ms[before[w]].lossDb, ms[i - 1].lossDb);
    assert after[w] == i - 1;
    assert forall q | 0 <= q < |before| && q != w :: after[q] == before[q];
    forall j, k | 0 <= j < i && j !in after && 0 <= k < |after| ensures !Lt(ms[after[k]].lossDb, ms[j].lossDb) {
      assert j !in before || j == before[w];
      if j !in before && k == w {
        Order(ms[i - 1].lossDb, ms[before[w]].lossDb, ms[j].lossDb);
      }
    }
  }

  /** When losses are numbers and agree where ids do, the kept markers are distinct, they number the smaller of the
      capacity and the table size, and no marker left out has a greater loss than any kept one. */
  lemma {:induction false} KeptAreTop(ms: seq<Marker>, cap: nat, i: nat)
    requires Agreeing(ms) && Comparable(ms) && i <= |ms| && cap > 0
    ensures TopOf(ms, Kept(ms, cap, i), i)
  {
    hide TopOf, Kept, Agreeing, Comparable;
    if i == 0 {
      AllAreTop(ms, cap, 0);
    } else {
      KeptAreTop(ms, cap, i - 1);
      StepKeepsTop(ms, cap, i);
    }
  }

  /** Losses 8388608, 8388610 and 8388609; the first two markers share an id. */
  function SharedIds(): seq<Marker> {
    [Marker(7, 0, 0, 0, 0x4B00_0000, 0, 0, 0, 0), Marker(7, 0, 0, 0, 0x4B00_0002, 0, 0, 0, 0),
     Marker(8, 0, 0, 0, 0x4B00_0001, 0, 0, 0, 0)]
  }

  /** Where losses do not agree the selection can keep the wrong marker: a row's loss is read from the first marker with
      its id, so the row with the greatest loss is taken for the lowest and is replaced. */
  lemma DuplicateIdsMislead()
    ensures Comparable(SharedIds()) && Kept(SharedIds(), 1, 3) == [2] && !TopOf(SharedIds(), [2], 3)
  {
    hide Lt, Le, Worst, Kept, TopOf, LossOf, Comparable;
    var ms := SharedIds();
    SharedLosses();
    NotTop();
    OnlyRow(ms, [0]);
    OnlyRow(ms, [1]);
    KeptNext(ms, 1, 0);
    KeptNext(ms, 1, 1);
    KeptNext(ms, 1, 2);
  }

  lemma NotTop()
    ensures !TopOf(SharedIds(), [2], 3)
  {
    hide Lt, Le, SharedIds, LossOf, Comparable;
    SharedLosses();
    LeftOutGreater(SharedIds(), [2], 1);
  }

  lemma LeftOutGreater(ms: seq<Marker>, kept: seq<nat>, j: nat)
    requires |kept| > 0 && forall k | 0 <= k < |kept| :: kept[k] < |ms|
    requires j < |ms| && j !in kept && Lt(ms[kept[0]].lossDb, ms[j].lossDb)
    ensures !TopOf(ms, kept, |ms|)
  {
  }

  lemma OnlyRow(ms: seq<Marker>, kept: seq<nat>)
    requires |kept| == 1 && kept[0] < |ms|
    ensures Worst(ms, kept, 1) == 0
  {
  }

  lemma SharedLosses()
    ensures var ms := SharedIds();
            && |ms| == 3 && Comparable(ms)
            && LossOf(ms, 7) == ms[0].lossDb
            && !Le(ms[1].lossDb, ms[0].lossDb) && !Le(ms[2].lossDb, ms[0].lossDb) && Lt(ms[2].lossDb, ms[1].lossDb)
  {
    hide ValueOf;
    BigFloat(0);
    BigFloat(1);
    BigFloat(2);
  }

  /** From 2^23 on, neighbouring floats are one apart. */}
