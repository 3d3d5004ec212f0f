/** The wave cache as it is stored: an array of entries, scanned slot by slot (src/internal/rv_cache.c).

    Every method is proved against the machine of module Lru.  The 64-bit clock is not modelled to wrap around. */
module Cache {
  import opened Types
  import L = Lru

  datatype Entry = Entry(inUse: bool, blockId: u32, view: L.View, generation: u32, lastTick: nat, pinned: bool)

  /** A cleared slot. */
  const CLEARED := Entry(false, 0, L.View(0, 0, 0, []), 0, 0, false)

  function CountUsed(es: seq<Entry>): (n: nat)
    ensures n <= |es|
  {
    if es == [] then 0 else CountUsed(es[..|es| - 1]) + if es[|es| - 1].inUse then 1 else 0
  }

  lemma {:induction false} CountUpdate(es: seq<Entry>, i: nat, e: Entry)
    requires i < |es|
    ensures CountUsed(es[i := e]) + (if es[i].inUse then 1 else 0) == CountUsed(es) + (if e.inUse then 1 else 0)
  {
    var m := |es| - 1;
    if i == m {
      assert es[i := e][..m] == es[..m];
    } else {
      assert es[i := e][..m] == es[..m][i := e];
      CountUpdate(es[..m], i, e);
    }
  }

  lemma {:induction false} CountFull(es: seq<Entry>)
    requires forall i | 0 <= i < |es| :: es[i].inUse
    ensures CountUsed(es) == |es|
  {
    if es != [] {
      CountFull(es[..|es| - 1]);
    }
  }

  lemma {:induction false} CountNone(es: seq<Entry>)
    requires forall i | 0 <= i < |es| :: !es[i].inUse
    ensures CountUsed(es) == 0
  {
    if es != [] {
      CountNone(es[..|es| - 1]);
    }
  }

  function SlotOf(e: Entry): L.Slot {
    L.Slot(e.view, e.lastTick, e.pinned)
  }

  /** The slots in use hold exactly the entries of the map, each once, in the current generation. */
  ghost predicate Stores(es: seq<Entry>, slots: map<u32, L.Slot>, generation: u32) {
    && (forall i | 0 <= i < |es| && es[i].inUse ::
          es[i].blockId in slots && slots[es[i].blockId] == SlotOf(es[i]) && es[i].generation == generation)
    && (forall i, j | 0 <= i < j < |es| && es[i].inUse && es[j].inUse :: es[i].blockId != es[j].blockId)
    && (forall id | id in slots :: exists i :: 0 <= i < |es| && es[i].inUse && es[i].blockId == id)
  }

  lemma StoreInto(es: seq<Entry>, slots: map<u32, L.Slot>, generation: u32, i: nat, e: Entry)
    requires Stores(es, slots, generation) && i < |es| && e.inUse && e.generation == generation
    requires if e.blockId in slots then es[i].inUse && es[i].blockId == e.blockId else !es[i].inUse
    ensures Stores(es[i := e], slots[e.blockId := SlotOf(e)], generation)
  {
    var after, slots' := es[i := e], slots[e.blockId := SlotOf(e)];
    forall id | id in slots' ensures exists k :: 0 <= k < |after| && after[k].inUse && after[k].blockId == id {
      if id == e.blockId {
        assert after[i].blockId == id;
      } else {
        var k :| 0 <= k < |es| && es[k].inUse && es[k].blockId == id;
        assert after[k].blockId == id;
      }
    }
  }

  lemma ClearAt(es: seq<Entry>, slots: map<u32, L.Slot>, generation: u32, i: nat)
    requires Stores(es, slots, generation) && i < |es| && es[i].inUse
    ensures Stores(es[i := CLEARED], slots - {es[i].blockId}, generation)
  {
    var after, slots' := es[i := CLEARED], slots - {es[i].blockId};
    forall id | id in slots' ensures exists k :: 0 <= k < |after| && after[k].inUse && after[k].blockId == id {
      var k :| 0 <= k < |es| && es[k].inUse && es[k].blockId == id;
      assert after[k].blockId == id;
    }
  }

  /** The slots and the counter mirror the abstract state. */
  ghost predicate Mirrors(es: seq<Entry>, s: L.State, count: nat, generation: u32) {
    && |es| == s.capacity
    && count == |s.slots| == CountUsed(es)
    && Stores(es, s.slots, generation)
    && L.Inv(s)
  }

  /** A lookup by slot and a lookup by id agree. */
  lemma SlotHolds(es: seq<Entry>, s: L.State, count: nat, generation: u32, i: nat)
    requires Mirrors(es, s, count, generation) && i < |es| && es[i].inUse
    ensures es[i].blockId in s.slots && s.slots[es[i].blockId] == SlotOf(es[i]) && es[i].generation == generation
  {
  }

  lemma AbsentEverywhere(es: seq<Entry>, s: L.State, count: nat, generation: u32, id: u32)
    requires Mirrors(es, s, count, generation)
    requires forall k | 0 <= k < |es| :: !(es[k].inUse && es[k].blockId == id)
    ensures id !in s.slots
  {
  }

  lemma StoreMirrors(es: seq<Entry>, s: L.State, count: nat, generation: u32, i: nat, e: Entry)
    requires Mirrors(es, s, count, generation) && i < |es|
    requires e.inUse && e.generation == generation && e.lastTick == s.clock + 1
    requires if e.blockId in s.slots then es[i].inUse && es[i].blockId == e.blockId
             else !es[i].inUse && |s.slots| < s.capacity
    ensures Mirrors(es[i := e], L.Touch(s, e.blockId, SlotOf(e)), count + (if es[i].inUse then 0 else 1), generation)
  {
    hide L.Inv, Stores, CountUsed;
    L.TouchKeeps(s, e.blockId, SlotOf(e));
    StoreInto(es, s.slots, generation, i, e);
    CountUpdate(es, i, e);
  }

  lemma PinMirrors(es: seq<Entry>, s: L.State, count: nat, generation: u32, i: nat, pinned: bool)
    requires Mirrors(es, s, count, generation) && i < |es| && es[i].inUse
    ensures Mirrors(es[i := es[i].(pinned := pinned)], L.SetPin(s, es[i].blockId, pinned), count, generation)
  {
    SlotHolds(es, s, count, generation, i);
    hide L.Inv, Stores, CountUsed;
    L.SetPinKeeps(s, es[i].blockId, pinned);
    StoreInto(es, s.slots, generation, i, es[i].(pinned := pinned));
    CountUpdate(es, i, es[i].(pinned := pinned));
  }

  /** The oldest unpinned slot holds the machine's victim, and clearing it is the machine's eviction. */
  lemma ClearMirrors(es: seq<Entry>, s: L.State, count: nat, generation: u32, i: nat)
    requires Mirrors(es, s, count, generation) && i < |es| && es[i].inUse && !es[i].pinned
    requires forall k | 0 <= k < |es| && es[k].inUse && !es[k].pinned :: es[i].lastTick <= es[k].lastTick
    ensures L.Victim(s).Some? && count > 0 && es[i].blockId !in L.Evict(s).slots
    ensures Mirrors(es[i := CLEARED], L.Evict(s), count - 1, generation)
  {
    SlotHolds(es, s, count, generation, i);
    var v := es[i].blockId;
    forall id | id in s.slots && !s.slots[id].pinned ensures s.slots[v].tick <= s.slots[id].tick {
      var k :| 0 <= k < |es| && es[k].inUse && es[k].blockId == id;
      SlotHolds(es, s, count, generation, k);
    }
    L.VictimIs(s, v);
    L.EvictKeeps(s);
    ClearAt(es, s.slots, generation, i);
    CountUpdate(es, i, CLEARED);
  }

  lemma AllPinned(es: seq<Entry>, s: L.State, count: nat, generation: u32)
    requires Mirrors(es, s, count, generation)
    requires forall k | 0 <= k < |es| && es[k].inUse :: es[k].pinned
    ensures L.Victim(s).None?
  {
    forall id | id in s.slots ensures s.slots[id].pinned {
      var k :| 0 <= k < |es| && es[k].inUse && es[k].blockId == id;
      SlotHolds(es, s, count, generation, k);
    }
    L.NoVictim(s);
  }

  lemma EmptyMirrors(es: seq<Entry>, s: L.State, generation: u32)
    requires |es| == s.capacity && s.slots == map[]
    requires forall k | 0 <= k < |es| :: !es[k].inUse
    ensures Mirrors(es, s, 0, generation)
  {
    CountNone(es);
  }

  class WaveCache {
    const entries: array<Entry>
    var count: nat
    var tick: nat
    var generation: u32
    var hits: nat
    var misses: nat
    var evictions: nat
    /** The abstract machine's state. */
    ghost var state: L.State

    ghost predicate Valid()
      reads this, entries
    {
      && entries.Length >= 2
      && state.clock == tick
      && Mirrors(entries[..], state, count, generation)
    }

    /** `rv_cache_init`: the capacity is at least two. */
    constructor (capacity: nat)
      ensures Valid() && fresh(entries) && state.slots == map[]
      ensures state.capacity == if capacity < 2 then 2 else capacity
    {
      var cap := if capacity < 2 then 2 else capacity;
      entries := new Entry[cap](_ => CLEARED);
      count, tick, generation := 0, 0, 1;
      hits, misses, evictions := 0, 0, 0;
      state := L.State(map[], cap, 0);
      new;
      EmptyMirrors(entries[..], state, generation);
    }

    /** `rv_cache_invalidate`: everything goes, pinned or not, and the generation changes, never to zero. */
    method Invalidate()
      requires Valid()
      modifies this, entries
      ensures Valid() && state == L.Invalidate(old(state))
      ensures generation != old(generation) && generation != 0
    {
      for i := 0 to entries.Length
        modifies entries
        invariant forall k | 0 <= k < i :: entries[k] == CLEARED
      {
        entries[i] := CLEARED;
      }
      count := 0;
      generation := (generation + 1) % TWO32;
      if generation == 0 {
        generation := 1;
      }
      state := L.Invalidate(state);
      EmptyMirrors(entries[..], state, generation);
    }

    /** `rv_cache_find` */
    method Find(id: u32) returns (r: Option<nat>)
      requires Valid()
      ensures r.None? <==> id !in state.slots
      ensures r.Some? ==> r.value < entries.Length && entries[r.value].inUse && entries[r.value].blockId == id
      ensures r.Some? ==> state.slots[id] == SlotOf(entries[r.value]) && entries[r.value].generation == generation
    {
      hide Mirrors;
      for i := 0 to entries.Length
        invariant forall k | 0 <= k < i :: !(entries[k].inUse && entries[k].blockId == id)
      {
        if entries[i].inUse && entries[i].blockId == id {
          SlotHolds(entries[..], state, count, generation, i);
          return Some(i);
        }
      }
      AbsentEverywhere(entries[..], state, count, generation, id);
      return None;
    }

    /** `rv_cache_evict_lru` */
    method EvictLru() returns (st: Status)
      requires Valid()
      modifies this`count, this`evictions, this`state, entries
      ensures Valid() && state == L.Evict(old(state))
      ensures st.Ok? <==> L.Victim(old(state)).Some?
      ensures evictions == old(evictions) + (if st.Ok? then 1 else 0)
      ensures forall i | 0 <= i < entries.Length && old(entries[i].inUse) && old(entries[i].blockId) in state.slots ::
                entries[i] == old(entries[i])
    {
      hide Mirrors;
      var victim: Option<nat> := None;
      for i := 0 to entries.Length
        invariant victim.Some? ==> victim.value < i && entries[victim.value].inUse && !entries[victim.value].pinned
        invariant forall k | 0 <= k < i && entries[k].inUse && !entries[k].pinned ::
                    victim.Some? && entries[victim.value].lastTick <= entries[k].lastTick
      {
        if entries[i].inUse && !entries[i].pinned
           && (victim.None? || entries[i].lastTick < entries[victim.value].lastTick) {
          victim := Some(i);
        }
      }
      ghost var es := entries[..];
      if victim.None? {
        AllPinned(es, state, count, generation);
        return Failed;
      }
      ClearMirrors(es, state, count, generation, victim.value);
      entries[victim.value] := CLEARED;
      assert entries[..] == es[victim.value := CLEARED];
      if count != 0 {
        count := count - 1;
      }
      evictions := evictions + 1;
      state := L.Evict(state);
      return Ok;
    }

    /** Overwrites one slot; `e` carries a fresh tick. */
    method Store(i: nat, e: Entry)
      requires Valid() && i < entries.Length
      requires e.inUse && e.generation == generation && e.lastTick == tick + 1
      requires if e.blockId in state.slots then entries[i].inUse && entries[i].blockId == e.blockId
               else !entries[i].inUse && |state.slots| < state.capacity
      modifies this`tick, this`count, this`state, entries
      ensures Valid() && state == L.Touch(old(state), e.blockId, SlotOf(e))
      ensures entries[i] == e
    {
      hide Mirrors;
      ghost var es := entries[..];
      StoreMirrors(es, state, count, generation, i, e);
      if !entries[i].inUse {
        count := count + 1;
      }
      entries[i] := e;
      assert entries[..] == es[i := e];
      tick := tick + 1;
      state := L.Touch(state, e.blockId, SlotOf(e));
    }

    /** `rv_cache_put_from_block` */
    method PutFromBlock(b: Wave) returns (st: Status)
      requires Valid()
      modifies this, entries
      ensures Valid() && state == L.Put(old(state), b.blockId, L.ViewOf(b))
      ensures st.Failed? <==> L.PutFails(old(state), b.blockId)
      ensures generation == old(generation) && hits == old(hits) && misses == old(misses)
    {
      hide L.Inv, Stores;
      var found := Find(b.blockId);
      if found.Some? {
        Store(found.value, Entry(true, b.blockId, L.ViewOf(b), generation, tick + 1, entries[found.value].pinned));
        return Ok;
      }
      L.EvictKeeps(state);
      if count >= entries.Length {
        var evicted := EvictLru();
        if evicted.Failed? {
          return Failed;
        }
      }
      var i := FirstFree();
      Store(i, Entry(true, b.blockId, L.ViewOf(b), generation, tick + 1, false));
      return Ok;
    }

    /** The search for a free slot, which exists because the counter is below the capacity. */
    method FirstFree() returns (i: nat)
      requires Valid() && |state.slots| < state.capacity
      ensures i < entries.Length && !entries[i].inUse
    {
      i := 0;
      while i < entries.Length && entries[i].inUse
        invariant i <= entries.Length
        invariant forall k | 0 <= k < i :: entries[k].inUse
      {
        i := i + 1;
      }
      if i == entries.Length {
        CountFull(entries[..]);
        assert false;
      }
    }

    /** `rv_cache_get`: a hit touches the entry.  No entry in use is ever of an old generation. */
    method Get(id: u32) returns (r: Option<nat>)
      requires Valid()
      modifies this, entries
      ensures Valid() && state == L.Get(old(state), id)
      ensures r.Some? <==> id in old(state).slots
      ensures r.Some? ==> r.value < entries.Length && entries[r.value].inUse && entries[r.value].blockId == id
      ensures generation == old(generation) && evictions == old(evictions)
      ensures hits == old(hits) + (if r.Some? then 1 else 0) && misses == old(misses) + (if r.Some? then 0 else 1)
    {
      hide Mirrors;
      r := Find(id);
      if r.None? || entries[r.value].generation != generation {
        misses := misses + 1;
        return None;
      }
      Store(r.value, entries[r.value].(lastTick := tick + 1));
      hits := hits + 1;
    }

    /** `rv_cache_pin` and `rv_cache_unpin` */
    method SetPin(id: u32, pinned: bool) returns (st: Status)
      requires Valid()
      modifies this`state, entries
      ensures Valid() && state == L.SetPin(old(state), id, pinned)
      ensures st.Ok? <==> id in state.slots
      ensures forall i | 0 <= i < entries.Length ::
                entries[i].inUse == old(entries[i].inUse) && entries[i].blockId == old(entries[i].blockId)
    {
      hide Mirrors;
      var found := Find(id);
      if found.None? {
        return Failed;
      }
      var i := found.value;
      ghost var es := entries[..];
      PinMirrors(es, state, count, generation, i, pinned);
      entries[i] := entries[i].(pinned := pinned);
      assert entries[..] == es[i := es[i].(pinned := pinned)];
      state := L.SetPin(state, id, pinned);
      return Ok;
    }
  }
}
