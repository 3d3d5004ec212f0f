/** The clients of the cache: direct reads, streams and cursors (src/internal/rv_stream.c, src/rayvault.c).

    One stream or cursor is open at a time; a pin is a flag, so pins of several clients would not add up. */
module Stream {
  import opened Types
  import opened Index
  import opened Cache
  import L = Lru

  // ----- what readers may rely on

  /** This view shows some block of the table with this id. */
  ghost predicate Shows(waves: seq<Wave>, id: u32, view: L.View) {
    exists k :: 0 <= k < |waves| && waves[k].blockId == id && L.ViewOf(waves[k]) == view
  }

  /** Every cached view shows a block of the wave table. */
  ghost predicate Coherent(s: L.State, waves: seq<Wave>) {
    forall id | id in s.slots :: Shows(waves, id, s.slots[id].view)
  }

  /** All blocks with this id look alike. */
  ghost predicate OneView(waves: seq<Wave>, id: u32) {
    forall i, j | 0 <= i < |waves| && 0 <= j < |waves| && waves[i].blockId == waves[j].blockId == id ::
      L.ViewOf(waves[i]) == L.ViewOf(waves[j])
  }

  /** Blocks that an id can lead to look alike when their ids are equal; distinct ids are the common case of it. */
  ghost predicate AgreeingBlocks(waves: seq<Wave>) {
    forall id | id != 0 :: OneView(waves, id)
  }

  /** Then there is only one view to show. */
  lemma ShowsTheBlock(waves: seq<Wave>, k: nat, view: L.View)
    requires k < |waves| && OneView(waves, waves[k].blockId) && Shows(waves, waves[k].blockId, view)
    ensures view == L.ViewOf(waves[k])
  {
  }

  // ----- the same, field by field

  /** A slice has everything that a reader sees of this block. */
  ghost predicate IsTrace(v: L.View, b: Wave) {
    v.samples == b.samples && v.startM == b.startM && v.stepM == b.stepM && v.windowId == b.windowId
  }

  /** Block `k` is the one that the id leads to: the last one with it. */
  ghost predicate LeadsTo(waves: seq<Wave>, id: u32, k: nat) {
    id != 0 && k < |waves| && waves[k].blockId == id && forall j | k < j < |waves| :: waves[j].blockId != id
  }

  /** Blocks with this id have equal fields. */
  ghost predicate SameTraces(waves: seq<Wave>, id: u32) {
    forall i, j | 0 <= i < |waves| && 0 <= j < |waves| && waves[i].blockId == waves[j].blockId == id ::
      && waves[i].samples == waves[j].samples && waves[i].startM == waves[j].startM
      && waves[i].stepM == waves[j].stepM && waves[i].windowId == waves[j].windowId
  }

  /** What it means that a view shows a block, and that blocks look alike. */
  lemma TracesMean(waves: seq<Wave>, id: u32, view: L.View)
    ensures Shows(waves, id, view) <==>
            exists k :: 0 <= k < |waves| && waves[k].blockId == id && IsTrace(view, waves[k])
    ensures OneView(waves, id) <==> SameTraces(waves, id)
  {
    if k :| 0 <= k < |waves| && waves[k].blockId == id && IsTrace(view, waves[k]) {
      assert L.ViewOf(waves[k]) == view;
    }
  }

  lemma LeadsExactly(waves: seq<Wave>, id: u32, k: nat)
    ensures LastPos(WaveIds(waves), id) == Some(k) <==> LeadsTo(waves, id, k)
  {
    var ids := WaveIds(waves);
    assert forall j | 0 <= j < |waves| :: ids[j] == waves[j].blockId;
    if LeadsTo(waves, id, k) {
      assert ids[k] in ids;
    }
  }

  /** A view that shows the id is the trace of the block the id leads to, when its blocks have equal fields. */
  lemma TraceShown(waves: seq<Wave>, id: u32, view: L.View)
    requires Shows(waves, id, view)
    ensures SameTraces(waves, id) ==> forall k: nat | k < |waves| && waves[k].blockId == id :: IsTrace(view, waves[k])
  {
    TracesMean(waves, id, view);
  }

  /** No entry is pinned but the one the open client has pinned. */
  ghost predicate PinsAre(s: L.State, pin: Option<u32>) {
    forall id | id in s.slots && s.slots[id].pinned :: pin == Some(id)
  }

  /** With at most one pin and room for two, a block can always be put. */
  lemma PutSucceeds(s: L.State, pin: Option<u32>, id: u32)
    requires L.Inv(s) && s.capacity >= 2 && PinsAre(s, pin)
    ensures !L.PutFails(s, id)
  {
    if |s.slots| >= s.capacity {
      TwoEntries(s, pin);
      L.NoVictim(s);
      L.EvictKeeps(s);
    }
  }

  /** Of two entries, one is not pinned. */
  lemma TwoEntries(s: L.State, pin: Option<u32>)
    requires PinsAre(s, pin) && |s.slots| >= 2
    ensures exists id :: id in s.slots && !s.slots[id].pinned
  {
    var a :| a in s.slots.Keys;
    assert s.slots.Keys != {a};
    var b :| b in s.slots.Keys && b != a;
  }

  lemma TouchKeeps(s: L.State, id: u32, slot: L.Slot, waves: seq<Wave>, pin: Option<u32>)
    requires Coherent(s, waves) && PinsAre(s, pin)
    requires Shows(waves, id, slot.view) && (slot.pinned ==> pin == Some(id))
    ensures Coherent(L.Touch(s, id, slot), waves) && PinsAre(L.Touch(s, id, slot), pin)
  {
    hide Shows;
  }

  lemma GetKeeps(s: L.State, id: u32, waves: seq<Wave>, pin: Option<u32>)
    requires L.Inv(s) && Coherent(s, waves) && PinsAre(s, pin)
    ensures Coherent(L.Get(s, id), waves) && PinsAre(L.Get(s, id), pin)
  {
    if id in s.slots {
      TouchKeeps(s, id, s.slots[id], waves, pin);
    }
  }

  lemma PutKeeps(s: L.State, b: Wave, waves: seq<Wave>, pin: Option<u32>)
    requires L.Inv(s) && Coherent(s, waves) && PinsAre(s, pin) && b in waves
    ensures Coherent(L.Put(s, b.blockId, L.ViewOf(b)), waves) && PinsAre(L.Put(s, b.blockId, L.ViewOf(b)), pin)
  {
    var id, view := b.blockId, L.ViewOf(b);
    assert Shows(waves, id, view);
    EvictKeeps(s, waves, pin);
    hide L.Evict, L.Touch, Shows, Coherent;
    if id in s.slots {
      TouchKeeps(s, id, L.Slot(view, 0, s.slots[id].pinned), waves, pin);
    } else {
      TouchKeeps(L.MakeRoom(s), id, L.Slot(view, 0, false), waves, pin);
    }
  }

  lemma EvictKeeps(s: L.State, waves: seq<Wave>, pin: Option<u32>)
    requires L.Inv(s) && Coherent(s, waves) && PinsAre(s, pin)
    ensures Coherent(L.Evict(s), waves) && PinsAre(L.Evict(s), pin)
  {
  }

  /** What every client call keeps: the cache is coherent with the wave table and only this client's block is pinned. */
  ghost predicate Serving(cache: WaveCache, waves: seq<Wave>, pin: Option<u32>)
    reads cache, cache.entries
  {
    cache.Valid() && Coherent(cache.state, waves) && PinsAre(cache.state, pin)
  }

  /** The cache after get, or put and get. */
  ghost function Fetched(s: L.State, b: Wave): L.State {
    if b.blockId in s.slots then L.Get(s, b.blockId) else L.Get(L.Put(s, b.blockId, L.ViewOf(b)), b.blockId)
  }

  /** The view that get, or put and get, shows. */
  ghost function ShownFor(s: L.State, b: Wave): L.View {
    if b.blockId in s.slots then s.slots[b.blockId].view else L.ViewOf(b)
  }

  /** A cache whose every view shows a block of the table. */
  ghost predicate Usable(s: L.State, waves: seq<Wave>) {
    L.Inv(s) && s.capacity >= 2 && PinsAre(s, None) && Coherent(s, waves)
  }

  /** Every id shows the block that it leads to, whatever such a cache holds. */
  ghost predicate ShowsRight(waves: seq<Wave>) {
    forall s, id | Usable(s, waves) && LastPos(WaveIds(waves), id).Some? ::
      var b := waves[LastPos(WaveIds(waves), id).value]; ShownFor(s, b) == L.ViewOf(b)
  }

  /** Exactly when the cache cannot be told: blocks with equal ids look alike.  Otherwise a cache that holds another
      block of the id answers a read with that one. */
  lemma ShownExactly(waves: seq<Wave>)
    ensures ShowsRight(waves) <==> AgreeingBlocks(waves)
  {
    hide L.Inv;
    if AgreeingBlocks(waves) {
      forall s, id | Usable(s, waves) && LastPos(WaveIds(waves), id).Some?
        ensures var b := waves[LastPos(WaveIds(waves), id).value]; ShownFor(s, b) == L.ViewOf(b)
      {
        var k := LastPos(WaveIds(waves), id).value;
        if id in s.slots {
          ShowsTheBlock(waves, k, s.slots[id].view);
        }
      }
    } else {
      var id :| id != 0 && !OneView(waves, id);
      WrongBlock(waves, id);
    }
  }

  lemma WrongBlock(waves: seq<Wave>, id: u32)
    requires id != 0 && !OneView(waves, id)
    ensures !ShowsRight(waves)
  {
    var i, j :| 0 <= i < |waves| && 0 <= j < |waves| && waves[i].blockId == waves[j].blockId == id
                && L.ViewOf(waves[i]) != L.ViewOf(waves[j]);
    assert WaveIds(waves)[i] == id;
    var k := LastPos(WaveIds(waves), id).value;
    var other := if L.ViewOf(waves[i]) != L.ViewOf(waves[k]) then i else j;
    var s := L.State(map[id := L.Slot(L.ViewOf(waves[other]), 0, false)], 2, 1);
    assert Shows(waves, id, s.slots[id].view);
    assert Usable(s, waves) && ShownFor(s, waves[k]) != L.ViewOf(waves[k]);
  }

  /** The cache after a slice was filled: the pin has moved, and under pressure one entry is gone. */
  ghost function Filled(s: L.State, b: Wave, pin: Option<u32>): L.State {
    var fetched := Fetched(s, b);
    var released := if pin.Some? && pin.value != b.blockId then L.SetPin(fetched, pin.value, false) else fetched;
    var pinned := L.SetPin(released, b.blockId, true);
    if |pinned.slots| + 1 >= pinned.capacity then L.Evict(pinned) else pinned
  }

  /** Get, or put and get: the common beginning of all reads.  It never fails. */
  method Fetch(cache: WaveCache, b: Wave, ghost waves: seq<Wave>, ghost pin: Option<u32>) returns (e: nat)
    requires Serving(cache, waves, pin) && b in waves
    modifies cache, cache.entries
    ensures Serving(cache, waves, pin) && cache.generation == old(cache.generation)
    ensures e < cache.entries.Length && cache.entries[e].inUse && cache.entries[e].blockId == b.blockId
    ensures Shows(waves, b.blockId, cache.entries[e].view) && cache.state == Fetched(old(cache.state), b)
    ensures cache.entries[e].view == ShownFor(old(cache.state), b)
  {
    hide Shows, Mirrors;
    ValidState(cache);
    GetKeeps(cache.state, b.blockId, waves, pin);
    var r := cache.Get(b.blockId);
    if r.None? {
      PutSucceeds(cache.state, pin, b.blockId);
      PutKeeps(cache.state, b, waves, pin);
      var st := cache.PutFromBlock(b);
      ValidState(cache);
      GetKeeps(cache.state, b.blockId, waves, pin);
      r := cache.Get(b.blockId);
    }
    e := r.value;
    SlotHolds(cache.entries[..], cache.state, cache.count, cache.generation, e);
  }

  lemma ValidState(cache: WaveCache)
    requires cache.Valid()
    ensures L.Inv(cache.state) && cache.state.capacity >= 2
  {
  }

  lemma PinKeeps(s: L.State, id: u32, pinned: bool, waves: seq<Wave>, pin: Option<u32>)
    requires L.Inv(s) && Coherent(s, waves)
    requires forall k | k in s.slots && s.slots[k].pinned && k != id :: pin == Some(k)
    requires pinned ==> pin == Some(id)
    ensures Coherent(L.SetPin(s, id, pinned), waves) && PinsAre(L.SetPin(s, id, pinned), pin)
  {
    hide Shows;
  }

  /** After a forced eviction a slot is free. */
  lemma FreeAfterEviction(s: L.State, pin: Option<u32>)
    requires L.Inv(s) && s.capacity >= 2 && PinsAre(s, pin)
    ensures var t := if |s.slots| + 1 >= s.capacity then L.Evict(s) else s;
            |t.slots| < t.capacity
  {
    if |s.slots| + 1 >= s.capacity {
      L.EvictKeeps(s);
      L.NoVictim(s);
      if |s.slots| >= 2 {
        TwoEntries(s, pin);
      }
    }
  }

  /** `rv_fill_slice_from_cache_or_block`: fetch, move the pin, evict under pressure, and only then read the slot.  The
      pin keeps that slot from being the one evicted, and a free slot remains for the next fetch. */
  method FillSlice(cache: WaveCache, b: Wave, pin: Option<u32>, ghost waves: seq<Wave>)
    returns (slice: L.View, newPin: Option<u32>)
    requires Serving(cache, waves, pin) && b in waves
    modifies cache, cache.entries
    ensures Serving(cache, waves, newPin) && cache.generation == old(cache.generation)
    ensures newPin == Some(b.blockId) && b.blockId in cache.state.slots && cache.state.slots[b.blockId].pinned
    ensures |cache.state.slots| < cache.state.capacity
    ensures Shows(waves, b.blockId, slice) && cache.state == Filled(old(cache.state), b, pin)
  {
    hide Shows, Mirrors, L.Evict, L.Inv, Coherent, Fetched;
    var e := Fetch(cache, b, waves, pin);
    var id := b.blockId;
    newPin := pin;
    var st;
    ValidState(cache);
    if newPin.Some? && newPin.value != id {
      PinKeeps(cache.state, newPin.value, false, waves, None);
      st := cache.SetPin(newPin.value, false);
      newPin := None;
    }
    ValidState(cache);
    PinKeeps(cache.state, id, true, waves, Some(id));
    SlotHolds(cache.entries[..], cache.state, cache.count, cache.generation, e);
    st := cache.SetPin(id, true);
    if st.Ok? {
      newPin := Some(id);
    }
    ValidState(cache);
    FreeAfterEviction(cache.state, newPin);
    EvictKeeps(cache.state, waves, newPin);
    PinnedNotEvicted(cache.state, id);
    CountIsSize(cache);
    if cache.count + 1 >= cache.entries.Length {
      st := cache.EvictLru();
    }
    SlotHolds(cache.entries[..], cache.state, cache.count, cache.generation, e);
    CoherentAt(cache.state, waves, id);
    slice := cache.entries[e].view;
  }

  lemma CoherentAt(s: L.State, waves: seq<Wave>, id: u32)
    requires Coherent(s, waves) && id in s.slots
    ensures Shows(waves, id, s.slots[id].view)
  {
  }

  lemma CountIsSize(cache: WaveCache)
    requires cache.Valid()
    ensures cache.count == |cache.state.slots| && cache.entries.Length == cache.state.capacity
  {
  }

  lemma PinnedNotEvicted(s: L.State, id: u32)
    requires L.Inv(s) && id in s.slots && s.slots[id].pinned
    ensures id in L.Evict(s).slots && L.Evict(s).slots[id] == s.slots[id]
  {
    L.EvictionIsLru(s, id);
  }

  /** The cache after a client closed. */
  ghost function Released(s: L.State, pin: Option<u32>): L.State {
    if pin.Some? then L.SetPin(s, pin.value, false) else s
  }

  // ----- streams

  /** The block a window's wave id resolves to. */
  function BlockOf(p: Parsed, w: Window): (r: Option<Wave>)
    ensures r.Some? ==> r.value in p.waves && r.value.blockId == w.waveBlockId
  {
    var k :- LastPos(WaveIds(p.waves), w.waveBlockId);
    Some(p.waves[k])
  }

  /** The id leads to a block, and when its blocks have equal fields the view is that block's trace. */
  ghost predicate ShowsTrace(p: Parsed, id: u32, view: L.View) {
    exists k: nat :: LeadsTo(p.waves, id, k) && (SameTraces(p.waves, id) ==> IsTrace(view, p.waves[k]))
  }

  lemma FoundTrace(p: Parsed, id: u32, view: L.View)
    requires LastPos(WaveIds(p.waves), id).Some? && Shows(p.waves, id, view)
    ensures ShowsTrace(p, id, view)
  {
    hide Shows, SameTraces, IsTrace;
    LeadsExactly(p.waves, id, LastPos(WaveIds(p.waves), id).value);
    TraceShown(p.waves, id, view);
  }

  class WaveStream {
    const idx: PackageIndex
    const cache: WaveCache
    const routeId: u32
    const generationAtOpen: u32
    var windowOrder: seq<nat>
    var orderIndex: nat
    var pin: Option<u32>
    ghost const p: Parsed

    ghost predicate Valid()
      reads this, cache, cache.entries, idx, idx.routeById, idx.windowById, idx.waveById
    {
      && Serving(cache, p.waves, pin)
      && idx.Describes(p)
      && windowOrder == OrderOf(p.windows, routeId, |p.windows|)
      && orderIndex <= |windowOrder|
    }

    /** `rv_stream_impl_open` */
    constructor (idx: PackageIndex, cache: WaveCache, routeId: u32, ghost p: Parsed)
      requires idx.Describes(p) && Serving(cache, p.waves, None)
      ensures Valid() && this.idx == idx && this.cache == cache && this.routeId == routeId && this.p == p
      ensures orderIndex == 0 && pin == None && generationAtOpen == cache.generation
    {
      hide Serving, Maps;
      this.idx, this.cache, this.routeId, this.p := idx, cache, routeId, p;
      generationAtOpen := cache.generation;
      orderIndex, pin := 0, None;
      var order := [];
      for i := 0 to |idx.windows|
        invariant order == OrderOf(p.windows, routeId, i)
      {
        if routeId == 0 || idx.windows[i].routeId == routeId {
          order := order + [i];
        }
      }
      windowOrder := order;
    }

    /** `rv_stream_impl_next_window` */
    method NextWindow() returns (r: Option<nat>)
      requires Valid()
      modifies this`orderIndex
      ensures Valid()
      ensures r == if old(orderIndex) < |windowOrder| then Some(windowOrder[old(orderIndex)]) else None
      ensures orderIndex == old(orderIndex) + (if r.Some? then 1 else 0)
    {
      if orderIndex >= |windowOrder| {
        return None;
      }
      r := Some(windowOrder[orderIndex]);
      orderIndex := orderIndex + 1;
    }

    /** The block of the window the stream stands on. */
    ghost function Current(): Option<Wave>
      reads this
      requires orderIndex <= |windowOrder| && forall i | 0 <= i < |windowOrder| :: windowOrder[i] < |p.windows|
    {
      if orderIndex == 0 then None else BlockOf(p, p.windows[windowOrder[orderIndex - 1]])
    }

    /** `rv_stream_impl_next_wave`: a read succeeds exactly when the window's wave resolves and the cache has not been
        invalidated since the stream was opened; it shows the block, whatever the cache holds. */
    method NextWave() returns (r: Option<L.View>)
      requires Valid()
      modifies this`pin, cache, cache.entries
      ensures Valid() && cache.generation == old(cache.generation)
      ensures r.Some? <==> cache.generation == generationAtOpen && Current().Some?
      ensures r.Some? ==> Shows(p.waves, Current().value.blockId, r.value)
      ensures r.Some? ==> orderIndex > 0 && ShowsTrace(p, p.windows[windowOrder[orderIndex - 1]].waveBlockId, r.value)
      ensures cache.state == if r.Some? then Filled(old(cache.state), Current().value, old(pin)) else old(cache.state)
      ensures pin == if r.Some? then Some(Current().value.blockId) else old(pin)
    {
      hide Shows, ShowsTrace, Maps, NodesOf, Coherent, PinsAre, Mirrors, Filled;
      if cache.generation != generationAtOpen || orderIndex == 0 {
        return None;
      }
      var windex := windowOrder[orderIndex - 1];
      NodeCount(idx, p);
      var w := idx.windows[windex].rec;
      WindowNodeAt(idx, p, windex);
      var pos := idx.FindWave(w.waveBlockId, p);
      if pos.None? {
        return None;
      }
      var slice;
      slice, pin := FillSlice(cache, idx.waves[pos.value].block, pin, p.waves);
      FoundTrace(p, w.waveBlockId, slice);
      return Some(slice);
    }

    /** `rv_stream_impl_close` */
    method Close()
      requires Valid()
      modifies this`pin, cache, cache.entries
      ensures Serving(cache, p.waves, None) && pin == None
      ensures cache.state == Released(old(cache.state), old(pin))
    {
      hide Shows, Mirrors, Coherent;
      ValidState(cache);
      if pin.Some? {
        PinKeeps(cache.state, pin.value, false, p.waves, None);
        var st := cache.SetPin(pin.value, false);
      }
      pin := None;
    }

    /** What a full walk must deliver: the blocks of the route's windows whose waves resolve, in table order. */
    ghost function WalkOf(n: nat): seq<L.View>
      requires n <= |OrderOf(p.windows, routeId, |p.windows|)|
    {
      if n == 0 then []
      else
        var b := BlockOf(p, p.windows[OrderOf(p.windows, routeId, |p.windows|)[n - 1]]);
        WalkOf(n - 1) + if b.Some? then [L.ViewOf(b.value)] else []
    }

    /** The client's loop (tests/test_stream_cache.c:111-114): when blocks with equal ids look alike, a walk of a fresh
        stream delivers exactly the route's blocks, for every capacity and every previous content of the cache. */
    method Walk() returns (out: seq<L.View>)
      requires Valid() && orderIndex == 0 && cache.generation == generationAtOpen && AgreeingBlocks(p.waves)
      modifies this`orderIndex, this`pin, cache, cache.entries
      ensures Valid() && out == WalkOf(|windowOrder|)
    {
      hide Shows, Maps, NodesOf, Coherent, PinsAre, Mirrors, AgreeingBlocks, Filled;
      out := [];
      var more := true;
      while more
        invariant Valid() && cache.generation == generationAtOpen
        invariant out == WalkOf(orderIndex)
        invariant !more ==> orderIndex == |windowOrder|
        decreases more, |windowOrder| - orderIndex
      {
        var w := NextWindow();
        if w.None? {
          more := false;
        } else {
          var slice := NextWave();
          if slice.Some? {
            OnlyView(p, p.windows[windowOrder[orderIndex - 1]], slice.value);
            out := out + [slice.value];
          }
        }
      }
    }
  }

  lemma OnlyView(p: Parsed, w: Window, view: L.View)
    requires AgreeingBlocks(p.waves) && BlockOf(p, w).Some? && Shows(p.waves, BlockOf(p, w).value.blockId, view)
    ensures view == L.ViewOf(BlockOf(p, w).value)
  {
    hide Shows, OneView;
    ShowsTheBlock(p.waves, LastPos(WaveIds(p.waves), w.waveBlockId).value, view);
  }

  lemma NodeCount(idx: PackageIndex, p: Parsed)
    requires idx.Describes(p)
    ensures |idx.windows| == |p.windows| && |idx.waves| == |p.waves|
  {
  }

  lemma WindowNodeAt(idx: PackageIndex, p: Parsed, i: nat)
    requires idx.Describes(p) && i < |p.windows|
    ensures i < |idx.windows| && idx.windows[i] == WindowNodeOf(p.windows[i])
  {
  }
}
