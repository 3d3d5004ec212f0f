/** Exactly when the selection of the greatest losses can be relied on: when markers that share an id have equal losses.
    Otherwise there are a capacity and further markers with which it keeps a lesser loss and drops a greater one. */
module TopExact {
  import opened Types
  import opened Floats
  import opened Index
  import opened TopLoss

  // ----- appending a marker

  lemma LossPrefix(ms: seq<Marker>, x: Marker, id: u32)
    ensures LossOf(ms + [x], id) == if (exists m :: m in ms && m.markerId == id) then LossOf(ms, id)
                                    else if x.markerId == id then x.lossDb else LossOf(ms, id)
  {
    var ids, n := MarkerIds(ms), |ms|;
    assert forall k | 0 <= k < n :: ids[k] == ms[k].markerId == MarkerIds(ms + [x])[k];
    if FirstPos(ids, id).Some? {
      assert ms[FirstPos(ids, id).value] in ms;
      FirstPosIs(MarkerIds(ms + [x]), id, FirstPos(ids, id).value);
    } else {
      assert forall m | m in ms :: m.markerId != id by {
        forall m | m in ms ensures m.markerId != id {
          var k :| 0 <= k < n && ms[k] == m;
          assert ids[k] in ids;
        }
      }
      if x.markerId == id {
        FirstPosIs(MarkerIds(ms + [x]), id, n);
      }
    }
  }

  /** Reads of rows that are there already do not change. */
  lemma RowPrefix(ms: seq<Marker>, x: Marker, kept: seq<nat>, k: nat)
    requires k < |kept| && kept[k] < |ms|
    ensures RowLoss(ms + [x], kept, k) == RowLoss(ms, kept, k)
  {
    assert ms[kept[k]] in ms;
    LossPrefix(ms, x, ms[kept[k]].markerId);
  }

  lemma {:induction false} WorstPrefix(ms: seq<Marker>, x: Marker, kept: seq<nat>, n: nat)
    requires 0 < n <= |kept| && forall k | 0 <= k < |kept| :: kept[k] < |ms|
    ensures Worst(ms + [x], kept, n) == Worst(ms, kept, n)
  {
    hide Lt, RowLoss;
    if n > 1 {
      WorstPrefix(ms, x, kept, n - 1);
      RowPrefix(ms, x, kept, n - 1);
      RowPrefix(ms, x, kept, Worst(ms, kept, n - 1));
    }
  }

  lemma {:induction false} KeptPrefix(ms: seq<Marker>, x: Marker, cap: nat, i: nat)
    requires i <= |ms| && cap > 0
    ensures Kept(ms + [x], cap, i) == Kept(ms, cap, i)
  {
    hide Lt, Le, RowLoss, Worst;
    if i > 0 {
      KeptPrefix(ms, x, cap, i - 1);
      var kept := Kept(ms, cap, i - 1);
      if |kept| >= cap {
        WorstPrefix(ms, x, kept, cap);
        RowPrefix(ms, x, kept, Worst(ms, kept, cap));
      }
    }
  }

  /** The selection after one more marker, for an output that is full. */
  lemma KeptSnoc(ms: seq<Marker>, x: Marker, cap: nat)
    requires 0 < cap <= |ms|
    ensures var kept := Kept(ms, cap, |ms|);
            var w := Worst(ms, kept, cap);
            Kept(ms + [x], cap, |ms| + 1) == if Le(x.lossDb, RowLoss(ms, kept, w)) then kept else kept[w := |ms|]
  {
    hide Lt, Le, RowLoss, Worst;
    var kept := Kept(ms, cap, |ms|);
    KeptPrefix(ms, x, cap, |ms|);
    KeptNext(ms + [x], cap, |ms|);
    WorstPrefix(ms, x, kept, cap);
    RowPrefix(ms, x, kept, Worst(ms, kept, cap));
  }

  /** The rows always hold different markers. */
  lemma {:induction false} KeptDistinct(ms: seq<Marker>, cap: nat, i: nat)
    requires i <= |ms| && cap > 0
    ensures var kept := Kept(ms, cap, i); forall j, k | 0 <= j < k < |kept| :: kept[j] != kept[k]
  {
    hide Lt, Le, RowLoss, Kept, Worst;
    if i == 0 {
      KeptNext(ms, cap, 0);
    } else {
      KeptDistinct(ms, cap, i - 1);
      KeptNext(ms, cap, i - 1);
    }
  }

  // ----- the lowest row

  lemma ReadComparable(ms: seq<Marker>, kept: seq<nat>, k: nat)
    requires Comparable(ms) && k < |kept| && kept[k] < |ms|
    ensures ValueOf(RowLoss(ms, kept, k)) != NaN
  {
    hide ValueOf;
    var f := ReadFrom(ms, kept[k]);
  }

  /** No row reads less than the lowest one, and all before it read more. */
  lemma {:induction false} WorstReads(ms: seq<Marker>, kept: seq<nat>, n: nat, k: nat)
    requires Comparable(ms) && k < n <= |kept| && forall k | 0 <= k < |kept| :: kept[k] < |ms|
    ensures var w := Worst(ms, kept, n);
            && !Lt(RowLoss(ms, kept, k), RowLoss(ms, kept, w))
            && (k < w ==> Lt(RowLoss(ms, kept, w), RowLoss(ms, kept, k)))
  {
    hide ValueOf, RowLoss, Comparable;
    var w := Worst(ms, kept, n);
    var a, c := RowLoss(ms, kept, k), RowLoss(ms, kept, w);
    ReadComparable(ms, kept, k);
    ReadComparable(ms, kept, w);
    if n > 1 {
      var v := Worst(ms, kept, n - 1);
      var b := RowLoss(ms, kept, v);
      ReadComparable(ms, kept, v);
      if k < n - 1 {
        WorstReads(ms, kept, n - 1, k);
        BelowIsOrder(ValueOf(a), ValueOf(b), ValueOf(c));
        BelowIsOrder(ValueOf(c), ValueOf(a), ValueOf(b));
        Total(a, b);
        Total(a, c);
      }
    }
    BelowIsOrder(ValueOf(a), ValueOf(c), ValueOf(a));
  }

  /** Numbers are equal or ordered. */
  lemma Total(x: f32, y: f32)
    requires ValueOf(x) != NaN && ValueOf(y) != NaN
    ensures Lt(x, y) || Lt(y, x) || ValueOf(x) == ValueOf(y)
  {
    hide ValueOf;
  }

  // ----- rows that read less than a bound

  function LowRows(ms: seq<Marker>, kept: seq<nat>, n: nat, bound: f32): nat
    requires n <= |kept| && forall k | 0 <= k < |kept| :: kept[k] < |ms|
  {
    if n == 0 then 0 else LowRows(ms, kept, n - 1, bound) + if Lt(RowLoss(ms, kept, n - 1), bound) then 1 else 0
  }

  /** Replacing a low row by a marker that reads the bound leaves one low row less. */
  lemma {:induction false} FewerLowRows(ms: seq<Marker>, x: Marker, kept: seq<nat>, w: nat, n: nat)
    requires w < |kept| && n <= |kept| && forall k | 0 <= k < |kept| :: kept[k] < |ms|
    requires Lt(RowLoss(ms, kept, w), x.lossDb) && LossOf(ms + [x], x.markerId) == x.lossDb
    ensures LowRows(ms + [x], kept[w := |ms|], n, x.lossDb) ==
            LowRows(ms, kept, n, x.lossDb) - if w < n then 1 else 0
  {
    hide Lt, LossOf;
    if n > 0 {
      FewerLowRows(ms, x, kept, w, n - 1);
      var k := n - 1;
      if k == w {
        assert RowLoss(ms + [x], kept[w := |ms|], k) == x.lossDb;
        Irreflexive(x.lossDb);
      } else {
        RowPrefix(ms, x, kept, k);
        assert RowLoss(ms + [x], kept[w := |ms|], k) == RowLoss(ms + [x], kept, k);
      }
    }
  }

  lemma Irreflexive(x: f32)
    ensures !Lt(x, x)
  {
    BelowIsOrder(ValueOf(x), ValueOf(x), ValueOf(x));
  }

  /** A marker whose id is new, or stands for its own loss. */
  ghost predicate ReadsItself(ms: seq<Marker>, x: Marker) {
    (forall m | m in ms :: m.markerId != x.markerId) || LossOf(ms, x.markerId) == x.lossDb
  }

  lemma StillReadsItself(ms: seq<Marker>, x: Marker)
    requires ReadsItself(ms, x)
    ensures LossOf(ms + [x], x.markerId) == x.lossDb && ReadsItself(ms + [x], x)
  {
    LossPrefix(ms, x, x.markerId);
  }

  lemma ComparableSnoc(ms: seq<Marker>, x: Marker)
    requires Comparable(ms) && ValueOf(x.lossDb) != NaN
    ensures Comparable(ms + [x])
  {
    hide ValueOf;
  }

  ghost predicate IsTop(ms: seq<Marker>, cap: nat)
    requires cap > 0
  {
    TopOf(ms, Kept(ms, cap, |ms|), |ms|)
  }

  lemma LeftOutIsGreater(ms: seq<Marker>, kept: seq<nat>, j: nat, k: nat)
    requires k < |kept| && forall q | 0 <= q < |kept| :: kept[q] < |ms|
    requires j < |ms| && j !in kept && Lt(ms[kept[k]].lossDb, ms[j].lossDb)
    ensures !TopOf(ms, kept, |ms|)
  {
    hide Lt;
  }

  // ----- a marker that reads more than its own loss

  /** Row `j` reads the loss of `x`, which is more than its own: after enough copies of `x` the output holds nothing
      that reads less, the next copy is left out, and row `j` stays. */
  lemma {:induction false} NeverReplaced(ms: seq<Marker>, x: Marker, cap: nat, j: nat) returns (ext: seq<Marker>)
    requires Comparable(ms) && ValueOf(x.lossDb) != NaN && ReadsItself(ms, x) && j < cap <= |ms|
    requires var kept := Kept(ms, cap, |ms|);
             ValueOf(RowLoss(ms, kept, j)) == ValueOf(x.lossDb) && Lt(ms[kept[j]].lossDb, x.lossDb)
    ensures (forall e | e in ext :: e == x) && !IsTop(ms + ext, cap)
    decreases LowRows(ms, Kept(ms, cap, |ms|), cap, x.lossDb)
  {
    hide ValueOf, Lt, Le, RowLoss, LossOf, Worst, Kept, TopOf, Comparable, ReadsItself;
    var kept, all := Kept(ms, cap, |ms|), ms + [x];
    var w := Worst(ms, kept, cap);
    KeptSnoc(ms, x, cap);
    StillReadsItself(ms, x);
    ComparableSnoc(ms, x);
    ReadComparable(ms, kept, w);
    NotLe(x.lossDb, RowLoss(ms, kept, w));
    if Le(x.lossDb, RowLoss(ms, kept, w)) {
      ext := [x];
      LeftOutIsGreater(all, kept, |ms|, j);
    } else {
      FewerLowRows(ms, x, kept, w, cap);
      SameLt(RowLoss(ms, kept, j), x.lossDb, x.lossDb);
      Irreflexive(x.lossDb);
      RowPrefix(ms, x, kept, j);
      SameRow(all, kept, kept[w := |ms|], j);
      var rest := NeverReplaced(all, x, cap, j);
      ext := [x] + rest;
      assert ms + ext == all + rest;
    }
  }

  lemma SameLt(x: f32, y: f32, z: f32)
    requires ValueOf(x) == ValueOf(y)
    ensures Lt(x, z) <==> Lt(y, z)
  {
    hide ValueOf;
  }

  lemma SameRow(ms: seq<Marker>, a: seq<nat>, b: seq<nat>, k: nat)
    requires k < |a| && k < |b| && a[k] == b[k] < |ms|
    ensures RowLoss(ms, a, k) == RowLoss(ms, b, k)
  {
  }

  // ----- a marker that reads less than its own loss

  /** Row `j` reads what row `y` after it reads and has, which is less than the own loss of marker `j` and of `x`: after
      enough copies of `x` row `j` is replaced, before row `y` is. */
  lemma {:induction false} ReplacedTooEarly(ms: seq<Marker>, x: Marker, cap: nat, j: nat, y: nat)
    returns (ext: seq<Marker>)
    requires Comparable(ms) && ValueOf(x.lossDb) != NaN && ReadsItself(ms, x) && j < y < cap <= |ms|
    requires var kept := Kept(ms, cap, |ms|);
             && ms[kept[j]].lossDb == x.lossDb
             && RowLoss(ms, kept, j) == RowLoss(ms, kept, y) == ms[kept[y]].lossDb
             && Lt(ms[kept[y]].lossDb, x.lossDb)
    ensures (forall e | e in ext :: e == x) && !IsTop(ms + ext, cap)
    decreases LowRows(ms, Kept(ms, cap, |ms|), cap, x.lossDb)
  {
    hide ValueOf, Lt, Le, RowLoss, LossOf, Worst, Kept, TopOf, Comparable, ReadsItself;
    var kept, all := Kept(ms, cap, |ms|), ms + [x];
    var w := Worst(ms, kept, cap);
    KeptSnoc(ms, x, cap);
    StillReadsItself(ms, x);
    ComparableSnoc(ms, x);
    ReadComparable(ms, kept, w);
    ReadComparable(ms, kept, j);
    NotLe(x.lossDb, RowLoss(ms, kept, w));
    WorstReads(ms, kept, cap, j);
    Irreflexive(RowLoss(ms, kept, j));
    LeThenLt(RowLoss(ms, kept, w), RowLoss(ms, kept, j), x.lossDb);
    var after := kept[w := |ms|];
    if w == j {
      ext := [x];
      KeptDistinct(ms, cap, |ms|);
      LeftOutIsGreater(all, after, kept[j], y);
    } else {
      FewerLowRows(ms, x, kept, w, cap);
      RowPrefix(ms, x, kept, j);
      RowPrefix(ms, x, kept, y);
      SameRow(all, kept, after, j);
      SameRow(all, kept, after, y);
      var rest := ReplacedTooEarly(all, x, cap, j, y);
      ext := [x] + rest;
      assert ms + ext == all + rest;
    }
  }

  lemma LeThenLt(x: f32, y: f32, z: f32)
    requires ValueOf(x) != NaN && ValueOf(y) != NaN && !Lt(y, x) && Lt(y, z)
    ensures Lt(x, z)
  {
    hide ValueOf;
  }

  // ----- further markers

  ghost function Ids(ms: seq<Marker>): set<u32> {
    set m | m in ms :: m.markerId
  }

  lemma {:induction false} FewIds(ms: seq<Marker>)
    ensures |Ids(ms)| <= |ms|
  {
    if ms == [] {
      assert Ids(ms) == {};
    } else {
      FewIds(ms[1..]);
      assert Ids(ms) == Ids(ms[1..]) + {ms[0].markerId};
    }
  }

  lemma {:induction false} FreshBelow(used: set<u32>, n: nat) returns (id: nat)
    requires |used| < n
    ensures id < n && id !in used
  {
    if n - 1 !in used {
      id := n - 1;
    } else {
      id := FreshBelow(used - {n - 1}, n - 1);
    }
  }

  lemma FreshId(used: set<u32>) returns (id: u32)
    requires |used| < TWO32
    ensures id !in used
  {
    var n := FreshBelow(used, TWO32);
    id := n;
  }

  /** Markers that may follow: numbers, agreeing among themselves, with ids of their own. */
  ghost predicate Extends(ms: seq<Marker>, ext: seq<Marker>) {
    Comparable(ext) && Agreeing(ext) && forall m, e | m in ms && e in ext :: m.markerId != e.markerId
  }

  /** The selection is right with every capacity, and stays right whatever markers follow. */
  ghost predicate AlwaysTop(ms: seq<Marker>) {
    forall ext, cap: nat | Extends(ms, ext) && cap > 0 :: IsTop(ms + ext, cap)
  }

  lemma ExtensionAgrees(ms: seq<Marker>, ext: seq<Marker>)
    requires Comparable(ms) && Agreeing(ms) && Extends(ms, ext)
    ensures Comparable(ms + ext) && Agreeing(ms + ext)
  {
    hide ValueOf;
    forall i, j | 0 <= i < |ms + ext| && 0 <= j < |ms + ext| && (ms + ext)[i].markerId == (ms + ext)[j].markerId
      ensures ValueOf((ms + ext)[i].lossDb) == ValueOf((ms + ext)[j].lossDb)
    {
      assert i < |ms| ==> ms[i] in ms;
      assert j < |ms| ==> ms[j] in ms;
      assert i >= |ms| ==> ext[i - |ms|] in ext;
      assert j >= |ms| ==> ext[j - |ms|] in ext;
    }
  }

  /** A marker that reads another loss than its own. */
  lemma Misread(ms: seq<Marker>) returns (j: nat)
    requires Comparable(ms) && !Agreeing(ms)
    ensures j < |ms| && var read, own := LossOf(ms, ms[j].markerId), ms[j].lossDb;
            ValueOf(read) != NaN && (Lt(own, read) || Lt(read, own))
  {
    hide ValueOf, LossOf;
    var a, b :| 0 <= a < |ms| && 0 <= b < |ms| && ms[a].markerId == ms[b].markerId
                && ValueOf(ms[a].lossDb) != ValueOf(ms[b].lossDb);
    var f := ReadFrom(ms, a);
    j := if ValueOf(ms[a].lossDb) != ValueOf(ms[f].lossDb) then a else b;
    Total(ms[f].lossDb, ms[j].lossDb);
  }

  function Loss(id: u32, loss: f32): Marker {
    Marker(id, 0, 0, 0, loss, 0, 0, 0, 0)
  }

  /** The first case: the output has room for all markers of the table, and copies of the loss read follow. */
  lemma BreaksLow(ms: seq<Marker>, j: nat) returns (ext: seq<Marker>)
    requires Comparable(ms) && j < |ms| && |ms| < TWO32
    requires var read := LossOf(ms, ms[j].markerId); ValueOf(read) != NaN && Lt(ms[j].lossDb, read)
    ensures Extends(ms, ext) && !IsTop(ms + ext, |ms|)
  {
    hide ValueOf, Lt, LossOf, TopOf, Kept, Comparable;
    FewIds(ms);
    var id := FreshId(Ids(ms));
    var x := Loss(id, LossOf(ms, ms[j].markerId));
    AllKept(ms, |ms|, |ms|);
    RowLossIs(ms, Kept(ms, |ms|, |ms|), j);
    ext := NeverReplaced(ms, x, |ms|, j);
    CopiesExtend(ms, [], x, ext);
    assert [] + ext == ext;
  }

  /** The second case: with room for one more, a marker with the loss read follows, and then copies of the own loss. */
  lemma BreaksHigh(ms: seq<Marker>, j: nat) returns (ext: seq<Marker>)
    requires Comparable(ms) && j < |ms| && |ms| + 1 < TWO32
    requires var read := LossOf(ms, ms[j].markerId); ValueOf(read) != NaN && Lt(read, ms[j].lossDb)
    ensures Extends(ms, ext) && !IsTop(ms + ext, |ms| + 1)
  {
    hide ValueOf, Lt, LossOf, TopOf, Kept, Comparable, RowLoss;
    FewIds(ms);
    var n := |ms|;
    var first := FreshId(Ids(ms));
    var second := FreshId(Ids(ms) + {first});
    var y, x := Loss(first, LossOf(ms, ms[j].markerId)), Loss(second, ms[j].lossDb);
    var all := ms + [y];
    var kept := Kept(all, n + 1, n + 1);
    ComparableSnoc(ms, y);
    ComparableAt(ms, j);
    AllKept(all, n + 1, n + 1);
    RowLossIs(all, kept, j);
    RowLossIs(all, kept, n);
    LossPrefix(ms, y, ms[j].markerId);
    LossPrefix(ms, y, first);
    assert ms[j] in ms;
    var rest := ReplacedTooEarly(all, x, n + 1, j, n);
    ext := [y] + rest;
    assert ms + ext == all + rest;
    ComparableAt(all, n);
    CopiesExtend(ms, [y], x, rest);
  }

  lemma CopiesExtend(ms: seq<Marker>, head: seq<Marker>, x: Marker, rest: seq<Marker>)
    requires |head| <= 1 && ValueOf(x.lossDb) != NaN && forall e | e in rest :: e == x
    requires forall m | m in ms :: m.markerId != x.markerId
    requires forall h | h in head :: h.markerId != x.markerId && ValueOf(h.lossDb) != NaN
    requires forall h, m | h in head && m in ms :: m.markerId != h.markerId
    ensures Extends(ms, head + rest)
  {
    hide ValueOf;
    var ext := head + rest;
    forall i | 0 <= i < |ext| ensures ext[i] in head || ext[i] == x {
      assert i >= |head| ==> ext[i] in rest;
    }
    forall i, j | 0 <= i < |ext| && 0 <= j < |ext| && ext[i].markerId == ext[j].markerId
      ensures ext[i] == ext[j]
    {
    }
  }

  /** The selection can be relied on, for every capacity and whatever markers follow, exactly when the markers that
      share an id have equal losses. */
  lemma TopExactly(ms: seq<Marker>)
    requires Comparable(ms) && |ms| + 1 < TWO32
    ensures AlwaysTop(ms) <==> Agreeing(ms)
  {
    hide ValueOf, Lt, LossOf, Kept, TopOf, Comparable, Agreeing, Extends;
    if Agreeing(ms) {
      forall ext, cap: nat | Extends(ms, ext) && cap > 0 ensures IsTop(ms + ext, cap) {
        ExtensionAgrees(ms, ext);
        KeptAreTop(ms + ext, cap, |ms + ext|);
      }
    } else {
      var j := Misread(ms);
      if Lt(ms[j].lossDb, LossOf(ms, ms[j].markerId)) {
        var ext := BreaksLow(ms, j);
      } else {
        var ext := BreaksHigh(ms, j);
      }
    }
  }
}
