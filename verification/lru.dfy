/** The wave cache as an abstract machine: a bounded map from block ids to cached views, with the time each entry was
    last touched.  The class in module Cache refines it slot by slot. */
module Lru {
  import opened Types

  /** What a reader sees of a block. */
  datatype View = View(windowId: u32, startM: f32, stepM: f32, samples: seq<i16>)

  function ViewOf(b: Wave): View {
    View(b.windowId, b.startM, b.stepM, b.samples)
  }

  datatype Slot = Slot(view: View, tick: nat, pinned: bool)

  datatype State = State(slots: map<u32, Slot>, capacity: nat, clock: nat)

  /** Bounded, with distinct ticks that are not in the future. */
  ghost predicate Inv(s: State) {
    && |s.slots| <= s.capacity
    && (forall id | id in s.slots :: s.slots[id].tick <= s.clock)
    && (forall a, b | a in s.slots && b in s.slots && a != b :: s.slots[a].tick != s.slots[b].tick)
  }

  // ----- eviction

  /** The least recently touched entry that is not pinned. */
  ghost predicate IsVictim(s: State, v: u32) {
    && v in s.slots && !s.slots[v].pinned
    && forall id | id in s.slots && !s.slots[id].pinned :: s.slots[v].tick <= s.slots[id].tick
  }

  ghost function Victim(s: State): Option<u32> {
    if exists v :: IsVictim(s, v) then
      var v :| IsVictim(s, v);
      Some(v)
    else None
  }

  /** Ticks are distinct, so there is only one victim. */
  lemma VictimIs(s: State, v: u32)
    requires Inv(s) && IsVictim(s, v)
    ensures Victim(s) == Some(v)
  {
  }

  lemma {:induction false} OldestExists(s: State, ids: set<u32>) returns (v: u32)
    requires ids != {} && ids <= s.slots.Keys
    ensures v in ids && forall id | id in ids :: s.slots[v].tick <= s.slots[id].tick
    decreases |ids|
  {
    v :| v in ids;
    if ids != {v} {
      var w := OldestExists(s, ids - {v});
      if s.slots[w].tick < s.slots[v].tick {
        v := w;
      }
    }
  }

  /** There is nothing to evict exactly when every entry is pinned. */
  lemma NoVictim(s: State)
    ensures Victim(s).None? <==> forall id | id in s.slots :: s.slots[id].pinned
  {
    var free := set id | id in s.slots && !s.slots[id].pinned;
    if free != {} {
      var v := OldestExists(s, free);
      assert IsVictim(s, v);
    } else {
      forall id | id in s.slots ensures s.slots[id].pinned {
        assert id !in free;
      }
    }
  }

  ghost function Evict(s: State): State {
    match Victim(s)
    case None => s
    case Some(v) => s.(slots := s.slots - {v})
  }

  // ----- the operations

  ghost function Touch(s: State, id: u32, slot: Slot): State {
    s.(slots := s.slots[id := slot.(tick := s.clock + 1)], clock := s.clock + 1)
  }

  /** A hit touches the entry; a miss changes nothing. */
  ghost function Get(s: State, id: u32): State {
    if id in s.slots then Touch(s, id, s.slots[id]) else s
  }

  /** Room for one more entry is made when needed; there may be none to make. */
  ghost function MakeRoom(s: State): State {
    if |s.slots| >= s.capacity then Evict(s) else s
  }

  ghost predicate PutFails(s: State, id: u32) {
    id !in s.slots && |MakeRoom(s).slots| >= s.capacity
  }

  /** A new or refreshed entry; a refreshed one keeps its pin. */
  ghost function Put(s: State, id: u32, view: View): State {
    if id in s.slots then Touch(s, id, Slot(view, 0, s.slots[id].pinned))
    else if PutFails(s, id) then s
    else Touch(MakeRoom(s), id, Slot(view, 0, false))
  }

  ghost function SetPin(s: State, id: u32, pinned: bool): State {
    if id in s.slots then s.(slots := s.slots[id := s.slots[id].(pinned := pinned)]) else s
  }

  ghost function Invalidate(s: State): State {
    s.(slots := map[])
  }

  // ----- runs

  datatype Op = DoGet(id: u32) | DoPut(id: u32, view: View) | DoPin(id: u32) | DoUnpin(id: u32) | DoEvict
              | DoInvalidate

  ghost function Apply(s: State, op: Op): State {
    match op
    case DoGet(id) => Get(s, id)
    case DoPut(id, view) => Put(s, id, view)
    case DoPin(id) => SetPin(s, id, true)
    case DoUnpin(id) => SetPin(s, id, false)
    case DoEvict => Evict(s)
    case DoInvalidate => Invalidate(s)
  }

  ghost function Run(s: State, ops: seq<Op>): State {
    if ops == [] then s else Apply(Run(s, ops[..|ops| - 1]), ops[|ops| - 1])
  }

  lemma EvictKeeps(s: State)
    requires Inv(s)
    ensures Inv(Evict(s)) && Evict(s).slots.Keys <= s.slots.Keys
    ensures |Evict(s).slots| == |s.slots| - (if Victim(s).Some? then 1 else 0)
  {
    if Victim(s).Some? {
      var v := Victim(s).value;
      assert Evict(s).slots.Keys == s.slots.Keys - {v};
    }
  }

  lemma TouchKeeps(s: State, id: u32, slot: Slot)
    requires Inv(s) && (id in s.slots || |s.slots| < s.capacity)
    ensures Inv(Touch(s, id, slot))
    ensures |Touch(s, id, slot).slots| == |s.slots| + (if id in s.slots then 0 else 1)
  {
    assert Touch(s, id, slot).slots.Keys == s.slots.Keys + {id};
  }

  lemma SetPinKeeps(s: State, id: u32, pinned: bool)
    requires Inv(s)
    ensures Inv(SetPin(s, id, pinned)) && |SetPin(s, id, pinned).slots| == |s.slots|
  {
    assert SetPin(s, id, pinned).slots.Keys == s.slots.Keys;
  }

  lemma StepKeeps(s: State, op: Op)
    requires Inv(s)
    ensures Inv(Apply(s, op)) && Apply(s, op).capacity == s.capacity
  {
    match op
    case DoGet(id) => if id in s.slots { TouchKeeps(s, id, s.slots[id]); }
    case DoPut(id, view) =>
      EvictKeeps(s);
      if id in s.slots {
        TouchKeeps(s, id, Slot(view, 0, s.slots[id].pinned));
      } else if !PutFails(s, id) {
        TouchKeeps(MakeRoom(s), id, Slot(view, 0, false));
      }
    case DoPin(id) => SetPinKeeps(s, id, true);
    case DoUnpin(id) => SetPinKeeps(s, id, false);
    case DoEvict => EvictKeeps(s);
    case DoInvalidate =>
  }

  /** Every run keeps the invariant. */
  lemma {:induction false} RunKeeps(s: State, ops: seq<Op>)
    requires Inv(s)
    ensures Inv(Run(s, ops)) && Run(s, ops).capacity == s.capacity
  {
    if ops != [] {
      RunKeeps(s, ops[..|ops| - 1]);
      StepKeeps(Run(s, ops[..|ops| - 1]), ops[|ops| - 1]);
    }
  }

  /** An op that takes this entry's pin away. */
  predicate Unpins(op: Op, id: u32) {
    op == DoUnpin(id) || op == DoInvalidate
  }

  /** An op that may replace this entry's view. */
  predicate Replaces(op: Op, id: u32) {
    op.DoPut? && op.id == id
  }

  /** Along every run a pinned entry stays cached and pinned until it is unpinned or everything is invalidated, and
      keeps its view until it is put again: no amount of eviction pressure removes it. */
  lemma {:induction false} PinnedSurvives(s: State, ops: seq<Op>, id: u32)
    requires Inv(s) && id in s.slots && s.slots[id].pinned
    requires forall i | 0 <= i < |ops| :: !Unpins(ops[i], id)
    ensures id in Run(s, ops).slots && Run(s, ops).slots[id].pinned
    ensures (forall i | 0 <= i < |ops| :: !Replaces(ops[i], id)) ==> Run(s, ops).slots[id].view == s.slots[id].view
  {
    if ops != [] {
      var before, op := ops[..|ops| - 1], ops[|ops| - 1];
      PinnedSurvives(s, before, id);
      RunKeeps(s, before);
      PinnedStays(Run(s, before), op, id);
    }
  }

  lemma PinnedStays(s: State, op: Op, id: u32)
    requires Inv(s) && id in s.slots && s.slots[id].pinned && !Unpins(op, id)
    ensures id in Apply(s, op).slots && Apply(s, op).slots[id].pinned
    ensures !Replaces(op, id) ==> Apply(s, op).slots[id].view == s.slots[id].view
  {
  }

  /** Eviction removes exactly the least recently touched unpinned entry. */
  lemma EvictionIsLru(s: State, id: u32)
    requires Inv(s)
    ensures id in s.slots && id !in Evict(s).slots <==> IsVictim(s, id)
    ensures id in Evict(s).slots ==> id in s.slots && Evict(s).slots[id] == s.slots[id]
  {
    if IsVictim(s, id) {
      VictimIs(s, id);
    }
  }

  // ----- the operations, entry by entry

  /** The oldest entry without a pin. */
  ghost predicate OldestFree(s: State, v: u32) {
    && v in s.slots && !s.slots[v].pinned
    && forall id | id in s.slots && id != v && !s.slots[id].pinned :: s.slots[v].tick < s.slots[id].tick
  }

  lemma OldestFreeIs(s: State, v: u32)
    requires Inv(s)
    ensures OldestFree(s, v) <==> Victim(s) == Some(v)
  {
    if OldestFree(s, v) {
      assert IsVictim(s, v);
      VictimIs(s, v);
    }
  }

  /** What a put leaves: the entry with this view and the newest time.  A known entry keeps its pin and a new one has
      none.  The others stay, but for the oldest one without a pin when the cache is full; it fails, and changes
      nothing, exactly when all are pinned then. */
  lemma PutExactly(s: State, id: u32, view: View)
    requires Inv(s) && s.capacity > 0
    ensures var t := Put(s, id, view);
            if id in s.slots then
              t == s.(slots := s.slots[id := Slot(view, s.clock + 1, s.slots[id].pinned)], clock := s.clock + 1)
            else if |s.slots| < s.capacity then
              t == s.(slots := s.slots[id := Slot(view, s.clock + 1, false)], clock := s.clock + 1)
            else if AllPinned(s) then t == s
            else
              exists v: u32 :: OldestFree(s, v)
                && t == s.(slots := (s.slots - {v})[id := Slot(view, s.clock + 1, false)], clock := s.clock + 1)
    ensures PutFails(s, id) <==> id !in s.slots && |s.slots| == s.capacity && AllPinned(s)
  {
    hide Victim, Inv, OldestFree;
    NoVictim(s);
    EvictKeeps(s);
    Bounded(s);
    if Victim(s).Some? {
      OldestFreeIs(s, Victim(s).value);
    }
  }

  ghost predicate AllPinned(s: State) {
    forall id | id in s.slots :: s.slots[id].pinned
  }

  lemma Bounded(s: State)
    requires Inv(s)
    ensures |s.slots| <= s.capacity
  {
  }

  /** The other operations: a hit and a pin change one entry, and an eviction removes the oldest one without a pin. */
  lemma OthersExactly(s: State, id: u32, pinned: bool)
    requires Inv(s)
    ensures Get(s, id) == if id in s.slots
                          then s.(slots := s.slots[id := s.slots[id].(tick := s.clock + 1)], clock := s.clock + 1)
                          else s
    ensures SetPin(s, id, pinned) == if id in s.slots
                                     then s.(slots := s.slots[id := s.slots[id].(pinned := pinned)]) else s
    ensures forall v: u32 :: OldestFree(s, v) ==> Evict(s) == s.(slots := s.slots - {v})
    ensures AllPinned(s) ==> Evict(s) == s
    ensures Invalidate(s).slots == map[] && Invalidate(s).capacity == s.capacity
  {
    NoVictim(s);
    forall v: u32 | OldestFree(s, v) ensures Victim(s) == Some(v) {
      OldestFreeIs(s, v);
    }
  }
}
