/** What the selection of the greatest losses delivers, in the fields of the markers and in reals. */
module TopMeans {
  import opened Types
  import opened Floats
  import opened Index
  import opened QueryMeans
  import opened TopLoss
  import opened TopExact

  /** Losses are not NaN, and markers of one id have the same loss. */
  ghost predicate Consistent(ms: seq<Marker>) {
    && (forall i | 0 <= i < |ms| :: !ValueOf(ms[i].lossDb).NaN?)
    && forall i, j | 0 <= i < |ms| && 0 <= j < |ms| && ms[i].markerId == ms[j].markerId ::
         ValueOf(ms[i].lossDb) == ValueOf(ms[j].lossDb)
  }

  /** The rows are those of different markers, and none that was left out has a greater loss than one of them. */
  ghost predicate Greatest(ms: seq<Marker>, ks: seq<nat>) {
    && (forall i | 0 <= i < |ks| :: ks[i] < |ms|)
    && (forall i, j | 0 <= i < j < |ks| :: ks[i] != ks[j])
    && forall i, j | 0 <= i < |ks| && 0 <= j < |ms| && j !in ks ::
         !IsLess(ValueOf(ms[ks[i]].lossDb), ValueOf(ms[j].lossDb))
  }

  lemma KeptMean(ms: seq<Marker>, cap: nat)
    requires cap > 0
    ensures var ks := Kept(ms, cap, |ms|);
            && (forall i, j | 0 <= i < j < |ks| :: ks[i] != ks[j])
            && (Consistent(ms) ==> Greatest(ms, ks))
  {
    hide ValueOf, Kept;
    KeptDistinct(ms, cap, |ms|);
    var ks := Kept(ms, cap, |ms|);
    if Consistent(ms) {
      KeptAreTop(ms, cap, |ms|);
      forall i, j | 0 <= i < |ks| && 0 <= j < |ms| && j !in ks
        ensures !IsLess(ValueOf(ms[ks[i]].lossDb), ValueOf(ms[j].lossDb))
      {
        BelowExactly(ValueOf(ms[ks[i]].lossDb), ValueOf(ms[j].lossDb));
      }
    }
  }

  // ----- the process, for losses that are numbers

  ghost predicate NoNaN(ms: seq<Marker>) {
    forall i | 0 <= i < |ms| :: !ValueOf(ms[i].lossDb).NaN?
  }

  /** Marker `f` is the first one with the id of marker `j`: the loss read for `j` is its loss. */
  ghost predicate FirstOf(ms: seq<Marker>, j: nat, f: nat) {
    && j < |ms| && f < |ms| && ms[f].markerId == ms[j].markerId
    && forall i | 0 <= i < f :: ms[i].markerId != ms[j].markerId
  }

  /** Row `w`, which reads the loss of marker `f`, is the first of those that read the lowest loss. */
  ghost predicate LowestRow(ms: seq<Marker>, ks: seq<nat>, w: nat, f: nat) {
    && w < |ks| && FirstOf(ms, ks[w], f)
    && forall k, g: nat | 0 <= k < |ks| && FirstOf(ms, ks[k], g) ::
         && !IsLess(ValueOf(ms[g].lossDb), ValueOf(ms[f].lossDb))
         && (k < w ==> IsLess(ValueOf(ms[f].lossDb), ValueOf(ms[g].lossDb)))
  }

  /** The marker before position `i` is considered: it takes a free row, or the lowest row when its loss is greater. */
  ghost predicate Considered(ms: seq<Marker>, cap: nat, i: nat, before: seq<nat>, after: seq<nat>) {
    0 < i <= |ms| &&
    if |before| < cap then after == before + [i - 1]
    else
      exists w: nat, f: nat ::
        && LowestRow(ms, before, w, f)
        && after == if IsLess(ValueOf(ms[f].lossDb), ValueOf(ms[i - 1].lossDb)) then before[w := i - 1] else before
  }

  /** The rows after the first `i` markers. */
  ghost predicate RowsAfter(ms: seq<Marker>, cap: nat, i: nat, ks: seq<nat>) {
    if i == 0 then ks == []
    else exists before :: Considered(ms, cap, i, before, ks) && RowsAfter(ms, cap, i - 1, before)
  }

  lemma ReadsFirst(ms: seq<Marker>, j: nat, f: nat)
    requires FirstOf(ms, j, f)
    ensures LossOf(ms, ms[j].markerId) == ms[f].lossDb
  {
    FirstPosIs(MarkerIds(ms), ms[j].markerId, f);
  }

  lemma WorstIsLowest(ms: seq<Marker>, ks: seq<nat>) returns (f: nat)
    requires NoNaN(ms) && |ks| > 0 && forall k | 0 <= k < |ks| :: ks[k] < |ms|
    ensures LowestRow(ms, ks, Worst(ms, ks, |ks|), f) && RowLoss(ms, ks, Worst(ms, ks, |ks|)) == ms[f].lossDb
  {
    hide ValueOf, Worst, FirstOf, Lt, IsLess;
    var w := Worst(ms, ks, |ks|);
    f := HasFirst(ms, ks[w]);
    RowReads(ms, ks, w, f);
    forall k, g: nat | 0 <= k < |ks| && FirstOf(ms, ks[k], g)
      ensures g < |ms| && !IsLess(ValueOf(ms[g].lossDb), ValueOf(ms[f].lossDb))
      ensures k < w ==> IsLess(ValueOf(ms[f].lossDb), ValueOf(ms[g].lossDb))
    {
      RowReads(ms, ks, k, g);
      WorstReads(ms, ks, |ks|, k);
      LtExactly(ms[g].lossDb, ms[f].lossDb);
      LtExactly(ms[f].lossDb, ms[g].lossDb);
    }
  }

  lemma LtExactly(x: f32, y: f32)
    ensures Lt(x, y) <==> IsLess(ValueOf(x), ValueOf(y))
  {
    BelowExactly(ValueOf(x), ValueOf(y));
  }

  lemma HasFirst(ms: seq<Marker>, j: nat) returns (f: nat)
    requires j < |ms|
    ensures FirstOf(ms, j, f)
  {
    var ids := MarkerIds(ms);
    assert forall i | 0 <= i < |ms| :: ids[i] == ms[i].markerId;
    f := FirstPos(ids, ms[j].markerId).value;
  }

  lemma RowReads(ms: seq<Marker>, ks: seq<nat>, k: nat, f: nat)
    requires k < |ks| && ks[k] < |ms| && FirstOf(ms, ks[k], f)
    ensures f < |ms| && RowLoss(ms, ks, k) == ms[f].lossDb
  {
    ReadsFirst(ms, ks[k], f);
  }

  lemma LeExactly(x: f32, y: f32)
    requires !ValueOf(x).NaN? && !ValueOf(y).NaN?
    ensures Le(x, y) <==> !IsLess(ValueOf(y), ValueOf(x))
  {
    hide ValueOf;
  }

  lemma {:induction false} KeptRowsAfter(ms: seq<Marker>, cap: nat, i: nat)
    requires NoNaN(ms) && i <= |ms| && cap > 0
    ensures RowsAfter(ms, cap, i, Kept(ms, cap, i))
  {
    hide LowestRow, Kept, Worst, ValueOf, Le, IsLess, RowLoss;
    if i == 0 {
      KeptNext(ms, cap, 0);
    } else {
      KeptRowsAfter(ms, cap, i - 1);
      KeptNext(ms, cap, i - 1);
      var before := Kept(ms, cap, i - 1);
      if |before| >= cap {
        var f := WorstIsLowest(ms, before);
        RowInside(ms, before, Worst(ms, before, cap), f);
        LeExactly(ms[i - 1].lossDb, ms[f].lossDb);
      }
      assert Considered(ms, cap, i, before, Kept(ms, cap, i));
    }
  }

  lemma RowInside(ms: seq<Marker>, ks: seq<nat>, w: nat, f: nat)
    requires LowestRow(ms, ks, w, f)
    ensures f < |ms|
  {
  }

  /** `rv_analytics_top_loss_markers`, row by row: the rows are always those of different markers. */
  method TopRows(idx: PackageIndex, out: array<MarkerInfo>, ghost p: Parsed) returns (written: nat, ghost ks: seq<nat>)
    requires idx.Describes(p)
    modifies out
    ensures written == |ks| && |ks| == (if |p.markers| < out.Length then |p.markers| else out.Length)
    ensures forall i | 0 <= i < |ks| :: ks[i] < |p.markers| && InfoFrom(out[i], p.markers[ks[i]])
    ensures forall i, j | 0 <= i < j < |ks| :: ks[i] != ks[j]
    ensures out.Length > 0 && Consistent(p.markers) ==> Greatest(p.markers, ks)
    ensures out.Length > 0 && NoNaN(p.markers) ==> RowsAfter(p.markers, out.Length, |p.markers|, ks)
    ensures forall i | written <= i < out.Length :: out[i] == old(out[i])
  {
    hide Maps, NodesOf, Kept, Consistent, Greatest, NoNaN, RowsAfter;
    written := TopLossMarkers(idx, out, p);
    ks := [];
    if out.Length > 0 {
      ks := Kept(p.markers, out.Length, |p.markers|);
      KeptMean(p.markers, out.Length);
      if NoNaN(p.markers) {
        KeptRowsAfter(p.markers, out.Length, |p.markers|);
      }
    }
  }
}
