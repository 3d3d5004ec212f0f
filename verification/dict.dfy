/** The name dictionary: the open-addressing table built by the SNAM decoder and the look-ups over it
    (src/internal/rv_section.c, src/internal/rv_dict.c).

    The hash is a parameter: everything below holds for every hash function.  The table size is a power of two, so
    `hash & mask` is `hash % size`. */
module Dict {
  import opened Types
  import opened Index

  type Hash = bytes -> u32

  /** `(slot + 1) & mask` */
  function Next(slot: nat, size: nat): (s: nat)
    requires slot < size
    ensures s < size
  {
    if slot + 1 == size then 0 else slot + 1
  }

  /** Slot number `d` of the probe sequence that starts at hash value `h`. */
  function Slot(h: nat, d: nat, size: nat): (s: nat)
    requires size > 0
    ensures s < size
  {
    if d == 0 then h % size else Next(Slot(h, d - 1, size), size)
  }

  /** Entry `i` sits `d` steps from its home slot, and only earlier entries are met on the way. */
  ghost predicate HeldAt(hash: Hash, names: seq<Name>, bucket: seq<u32>, i: nat, d: nat)
    requires i < |names| && |bucket| > 0
  {
    var h := hash(names[i].str);
    && d < |bucket|
    && bucket[Slot(h, d, |bucket|)] == i + 1
    && forall e | 0 <= e < d :: 0 < bucket[Slot(h, e, |bucket|)] <= i
  }

  ghost predicate Placed(hash: Hash, names: seq<Name>, bucket: seq<u32>, i: nat)
    requires i < |names| && |bucket| > 0
  {
    exists d: nat :: HeldAt(hash, names, bucket, i, d)
  }

  ghost predicate HasFreeSlot(bucket: seq<u32>) {
    exists s :: 0 <= s < |bucket| && bucket[s] == 0
  }

  /** The table holds the first `n` names, and nothing else. */
  ghost predicate Holds(hash: Hash, names: seq<Name>, bucket: seq<u32>, n: nat)
    requires n <= |names|
  {
    && |bucket| > 0
    && (forall s | 0 <= s < |bucket| :: bucket[s] <= n)
    && (forall i | 0 <= i < n :: Placed(hash, names, bucket, i))
  }

  ghost predicate Indexed(hash: Hash, names: seq<Name>, bucket: seq<u32>) {
    Holds(hash, names, bucket, |names|) && HasFreeSlot(bucket)
  }

  // ----- a free slot exists, and every probe sequence reaches it

  ghost function Below(n: nat): (r: set<int>)
    ensures |r| == n && forall x :: x in r <==> 0 <= x < n
  {
    if n == 0 then {} else Below(n - 1) + {n - 1}
  }

  ghost function Used(bucket: seq<u32>): set<int> {
    set s | 0 <= s < |bucket| && bucket[s] != 0
  }

  lemma FewerThanSlots(bucket: seq<u32>)
    requires |Used(bucket)| < |bucket|
    ensures HasFreeSlot(bucket)
  {
    assert HasFreeSlot(bucket) || Used(bucket) == Below(|bucket|);
  }

  lemma {:induction false} SlotIs(h: nat, d: nat, size: nat)
    requires d < size
    ensures Slot(h, d, size) == if h % size + d < size then h % size + d else h % size + d - size
  {
    if d > 0 {
      SlotIs(h, d - 1, size);
    }
  }

  lemma StepsTo(h: nat, size: nat, s: nat) returns (d: nat)
    requires s < size
    ensures d < size && Slot(h, d, size) == s
  {
    var start := h % size;
    d := if s >= start then s - start else s + size - start;
    SlotIs(h, d, size);
  }

  /** With a free slot no probe sequence runs through the whole table. */
  lemma ProbeFindsFree(bucket: seq<u32>, h: nat, probes: nat)
    requires HasFreeSlot(bucket)
    requires forall e | 0 <= e < probes :: bucket[Slot(h, e, |bucket|)] != 0
    ensures probes < |bucket|
  {
    var s :| 0 <= s < |bucket| && bucket[s] == 0;
    var d := StepsTo(h, |bucket|, s);
  }

  // ----- building the table

  method BuildBuckets(hash: Hash, names: seq<Name>) returns (bucket: array<u32>)
    requires |names| <= 100000
    ensures fresh(bucket) && Indexed(hash, names, bucket[..])
  {
    var size := 1;
    while size < |names| * 2 + 8
      invariant size > 0
      decreases |names| * 2 + 8 - size
    {
      size := size * 2;
    }
    bucket := new u32[size](_ => 0);
    assert Used(bucket[..]) == {};
    for i := 0 to |names|
      invariant Holds(hash, names, bucket[..], i) && |Used(bucket[..])| == i
    {
      FewerThanSlots(bucket[..]);
      var h := hash(names[i].str);
      var slot := h % size;
      var probes := 0;
      while bucket[slot] != 0 && probes < size
        invariant slot == Slot(h, probes, size)
        invariant forall e | 0 <= e < probes :: bucket[..][Slot(h, e, size)] != 0
        decreases size - probes
      {
        slot := Next(slot, size);
        probes := probes + 1;
      }
      ProbeFindsFree(bucket[..], h, probes);
      ghost var before := bucket[..];
      bucket[slot] := i + 1;
      assert bucket[..] == before[slot := i + 1];
      InsertKeeps(hash, names, before, i, probes, slot, bucket[..]);
      UsedGrows(before, slot, i + 1);
    }
    FewerThanSlots(bucket[..]);
  }

  /** Filling a free slot moves nobody. */
  lemma StaysPlaced(hash: Hash, names: seq<Name>, before: seq<u32>, slot: nat, v: u32, j: nat)
    requires slot < |before| && before[slot] == 0
    requires j < |names| && Placed(hash, names, before, j)
    ensures Placed(hash, names, before[slot := v], j)
  {
    var d: nat :| HeldAt(hash, names, before, j, d);
    assert HeldAt(hash, names, before[slot := v], j, d);
  }

  lemma UsedGrows(before: seq<u32>, slot: nat, v: u32)
    requires slot < |before| && before[slot] == 0 && v != 0
    ensures |Used(before[slot := v])| == |Used(before)| + 1
  {
    assert Used(before[slot := v]) == Used(before) + {slot};
  }

  lemma NewlyPlaced(hash: Hash, names: seq<Name>, before: seq<u32>, i: nat, d: nat)
    requires i < |names| && i + 1 < TWO32 && d < |before|
    requires forall s | 0 <= s < |before| :: before[s] <= i
    requires before[Slot(hash(names[i].str), d, |before|)] == 0
    requires forall e | 0 <= e < d :: before[Slot(hash(names[i].str), e, |before|)] != 0
    ensures Placed(hash, names, before[Slot(hash(names[i].str), d, |before|) := i + 1], i)
  {
    assert HeldAt(hash, names, before[Slot(hash(names[i].str), d, |before|) := i + 1], i, d);
  }

  lemma InsertKeeps(hash: Hash, names: seq<Name>, before: seq<u32>, i: nat, d: nat, slot: nat, after: seq<u32>)
    requires i < |names| && Holds(hash, names, before, i) && i + 1 < TWO32
    requires d < |before| && slot == Slot(hash(names[i].str), d, |before|) && before[slot] == 0
    requires forall e | 0 <= e < d :: before[Slot(hash(names[i].str), e, |before|)] != 0
    requires after == before[slot := i + 1]
    ensures Holds(hash, names, after, i + 1)
  {
    NewlyPlaced(hash, names, before, i, d);
    hide Slot, Placed;
    forall j | 0 <= j < i ensures Placed(hash, names, after, j) {
      StaysPlaced(hash, names, before, slot, i + 1, j);
    }
    assert forall s | 0 <= s < |after| :: after[s] <= i + 1;
  }

  // ----- look-ups

  /** `i` is the first name with these bytes, or there is none. */
  ghost predicate IsFirst(names: seq<Name>, s: bytes, r: Option<nat>) {
    match r
    case Some(i) => i < |names| && names[i].str == s && forall j | 0 <= j < i :: names[j].str != s
    case None => forall j | 0 <= j < |names| :: names[j].str != s
  }

  /** A probe that has met only other names so far has not passed the place of any name it is looking for. */
  lemma NotYetPassed(hash: Hash, names: seq<Name>, bucket: seq<u32>, s: bytes, probes: nat, j: nat)
    requires Indexed(hash, names, bucket) && probes < |bucket|
    requires j < |names| && names[j].str == s
    requires forall e | 0 <= e < probes ::
               var b := bucket[Slot(hash(s), e, |bucket|)]; b != 0 && names[b - 1].str != s
    ensures 0 < bucket[Slot(hash(s), probes, |bucket|)] <= j + 1
  {
    assert Placed(hash, names, bucket, j);
    var d: nat :| HeldAt(hash, names, bucket, j, d);
    assert d >= probes;
  }

  method ByStr(hash: Hash, names: seq<Name>, bucket: seq<u32>, s: bytes) returns (r: Option<nat>)
    requires Indexed(hash, names, bucket)
    ensures IsFirst(names, s, r)
  {
    var size := |bucket|;
    var h := hash(s);
    var slot := h % size;
    var probes := 0;
    while bucket[slot] != 0 && probes <= size - 1
      invariant probes <= size && slot == Slot(h, probes, size)
      invariant forall e | 0 <= e < probes ::
                  var b := bucket[Slot(h, e, size)]; b != 0 && names[b - 1].str != s
      decreases size - probes
    {
      var idx := bucket[slot] - 1;
      if hash(names[idx].str) == h && names[idx].str == s {
        forall j | 0 <= j < idx ensures names[j].str != s {
          if names[j].str == s {
            NotYetPassed(hash, names, bucket, s, probes, j);
          }
        }
        return Some(idx);
      }
      slot := Next(slot, size);
      probes := probes + 1;
    }
    ProbeFindsFree(bucket, h, probes);
    forall j | 0 <= j < |names| ensures names[j].str != s {
      if names[j].str == s {
        NotYetPassed(hash, names, bucket, s, probes, j);
      }
    }
    return None;
  }

  /** The first name with an id: what the linear scan `rv_dict_by_id` finds. */
  function FirstById(names: seq<Name>, id: u32): (r: Option<nat>)
    ensures r.Some? ==> r.value < |names| && names[r.value].id == id
    ensures r.Some? ==> forall j | 0 <= j < r.value :: names[j].id != id
    ensures r.None? ==> forall j | 0 <= j < |names| :: names[j].id != id
  {
    var ids := NameIds(names);
    assert forall j | 0 <= j < |names| :: names[j].id == ids[j];
    FirstPos(ids, id)
  }

  function NameIds(names: seq<Name>): (ids: seq<u32>)
    ensures |ids| == |names|
  {
    seq(|names|, i requires 0 <= i < |names| => names[i].id)
  }

  lemma FirstByIdIs(names: seq<Name>, id: u32, k: nat)
    requires k < |names| && names[k].id == id && forall j | 0 <= j < k :: names[j].id != id
    ensures FirstById(names, id) == Some(k)
  {
    FirstPosIs(NameIds(names), id, k);
  }
}
