/** Sessions: direct wave reads, cache warming and rebinding (src/rayvault.c, src/internal/rv_session_ops.c), cursors,
    and the result that no run of calls can tell what the cache holds. */
module Session {
  import opened Types
  import opened Index
  import opened Cache
  import opened Stream
  import L = Lru

  // ----- session calls

  /** `rv_wave_get`: found exactly when the id resolves; the slice shows the block.  Reads do not pin. */
  method WaveGet(idx: PackageIndex, cache: WaveCache, id: u32, ghost p: Parsed, ghost pin: Option<u32>)
    returns (r: Option<L.View>)
    requires idx.Describes(p) && Serving(cache, p.waves, pin)
    modifies cache, cache.entries
    ensures Serving(cache, p.waves, pin) && cache.generation == old(cache.generation)
    ensures r.Some? <==> LastPos(WaveIds(p.waves), id).Some?
    ensures r.Some? ==> Shows(p.waves, id, r.value) && ShowsTrace(p, id, r.value)
    ensures r.None? ==> !exists k: nat :: LeadsTo(p.waves, id, k)
    ensures r.Some? ==> r.value == ShownFor(old(cache.state), p.waves[LastPos(WaveIds(p.waves), id).value])
    ensures cache.state == if r.Some? then Fetched(old(cache.state), p.waves[LastPos(WaveIds(p.waves), id).value])
                           else old(cache.state)
  {
    hide Shows, ShowsTrace, LeadsTo, Maps, NodesOf, Coherent, PinsAre, Mirrors, Fetched, ShownFor;
    var pos := idx.FindWave(id, p);
    if pos.None? {
      forall k: nat ensures !LeadsTo(p.waves, id, k) {
        LeadsExactly(p.waves, id, k);
      }
      return None;
    }
    var e := Fetch(cache, idx.waves[pos.value].block, p.waves, pin);
    FoundTrace(p, id, cache.entries[e].view);
    return Some(cache.entries[e].view);
  }

  /** The machine's state after blocks are put in table order until it is full. */
  ghost function Warmed(s: L.State, waves: seq<Wave>): L.State
    decreases |waves|
  {
    if waves == [] then s
    else
      var t := L.Put(s, waves[0].blockId, L.ViewOf(waves[0]));
      if |t.slots| >= t.capacity then t else Warmed(t, waves[1..])
  }

  ghost predicate DistinctBlocks(waves: seq<Wave>) {
    forall i, j | 0 <= i < j < |waves| :: waves[i].blockId != waves[j].blockId
  }

  /** With distinct ids, warming an empty cache evicts nothing: it holds the first blocks of the table, as many as
      fit. */
  lemma {:induction false} WarmHolds(s: L.State, waves: seq<Wave>, i: nat)
    requires L.Inv(s) && DistinctBlocks(waves) && i <= |waves| && i < s.capacity
    requires forall id :: id in s.slots <==> exists k :: 0 <= k < i && waves[k].blockId == id
    requires |s.slots| == i
    ensures var n := if s.capacity < |waves| then s.capacity else |waves|;
            && |Warmed(s, waves[i..]).slots| == n
            && forall id :: id in Warmed(s, waves[i..]).slots <==> exists k :: 0 <= k < n && waves[k].blockId == id
    decreases |waves| - i
  {
    hide DistinctBlocks, L.Evict, L.Inv;
    if i < |waves| {
      var b := waves[i];
      NewBlock(waves, i);
      var t := L.Put(s, b.blockId, L.ViewOf(b));
      assert t == L.Touch(s, b.blockId, L.Slot(L.ViewOf(b), 0, false));
      L.TouchKeeps(s, b.blockId, L.Slot(L.ViewOf(b), 0, false));
      forall id ensures id in t.slots <==> exists k :: 0 <= k < i + 1 && waves[k].blockId == id {
        if id == b.blockId {
          assert waves[i].blockId == id;
        }
      }
      assert waves[i..][1..] == waves[i + 1..];
      if i + 1 < s.capacity {
        WarmHolds(t, waves, i + 1);
      }
    }
  }

  lemma NewBlock(waves: seq<Wave>, i: nat)
    requires DistinctBlocks(waves) && i < |waves|
    ensures forall k | 0 <= k < i :: waves[k].blockId != waves[i].blockId
  {
  }

  /** `rv_session_warm_cache`: puts blocks in table order until the cache is full. */
  method WarmCache(cache: WaveCache, waves: seq<Wave>, ghost pin: Option<u32>)
    requires Serving(cache, waves, pin)
    modifies cache, cache.entries
    ensures Serving(cache, waves, pin) && cache.generation == old(cache.generation)
    ensures cache.state == Warmed(old(cache.state), waves)
  {
    hide Shows, Mirrors, Coherent, PinsAre, L.Put, L.Inv;
    for i := 0 to |waves|
      invariant Serving(cache, waves, pin) && cache.generation == old(cache.generation)
      invariant Warmed(old(cache.state), waves) == Warmed(cache.state, waves[i..])
    {
      assert waves[i..][1..] == waves[i + 1..];
      ValidState(cache);
      PutKeeps(cache.state, waves[i], waves, pin);
      var st := cache.PutFromBlock(waves[i]);
      CountIsSize(cache);
      if cache.count >= cache.entries.Length {
        break;
      }
    }
  }

  /** One forced eviction between calls. */
  method EvictOne(cache: WaveCache, ghost waves: seq<Wave>, ghost pin: Option<u32>)
    requires Serving(cache, waves, pin)
    modifies cache, cache.entries
    ensures Serving(cache, waves, pin) && cache.generation == old(cache.generation)
    ensures cache.state == L.Evict(old(cache.state))
  {
    hide Shows, Mirrors, Coherent, PinsAre;
    ValidState(cache);
    EvictKeeps(cache.state, waves, pin);
    var st := cache.EvictLru();
  }

  /** `rv_session_rebind` on an open package: a new index; unless the cache is retained it is emptied, which any open
      stream notices, and the derived summary of the old tables is dropped. */
  method Rebind<Summary>(idx: PackageIndex, cache: WaveCache, isOpen: bool, p: Parsed, retainCache: bool,
                         derived: Option<Summary>)
    returns (st: Status, kept: Option<Summary>)
    requires Indexable(p) && cache.Valid()
    modifies idx, cache, cache.entries
    ensures isOpen ==> fresh(idx.routeById) && fresh(idx.windowById) && fresh(idx.waveById)
    ensures st.Ok? <==> isOpen && Small(RouteIds(p.routes)) && Small(WindowIds(p.windows)) && Small(WaveIds(p.waves))
    ensures st.Ok? ==> idx.Describes(p)
    ensures !isOpen ==> unchanged(idx)
    ensures if isOpen && !retainCache
            then Serving(cache, p.waves, None) && cache.generation != old(cache.generation) && kept.None?
            else cache.Valid() && cache.state == old(cache.state) && kept == derived
  {
    hide Maps, NodesOf, Mirrors, Small, RouteIds, WindowIds, WaveIds;
    if !isOpen {
      return Failed, derived;
    }
    kept := derived;
    if !retainCache {
      cache.Invalidate();
      kept := None;
    }
    st := idx.Build(p);
  }

  // ----- the cache is invisible

  datatype Request = Warm | Evict | Wave(id: u32) | NextWindow | NextWave

  datatype Reply = Done | WindowIs(window: Option<nat>) | WaveIs(view: Option<L.View>)

  function ViewAt(p: Parsed, id: u32): Option<L.View> {
    var k :- LastPos(WaveIds(p.waves), id);
    Some(L.ViewOf(p.waves[k]))
  }

  /** What a call must answer, from the tables and the stream's position alone, and the position after it. */
  function Answer(p: Parsed, order: seq<nat>, at: nat, req: Request): (Reply, nat)
    requires at <= |order| && forall i | 0 <= i < |order| :: order[i] < |p.windows|
    ensures Answer(p, order, at, req).1 <= |order|
  {
    match req
    case Warm => (Done, at)
    case Evict => (Done, at)
    case Wave(id) => (WaveIs(ViewAt(p, id)), at)
    case NextWindow => if at < |order| then (WindowIs(Some(order[at])), at + 1) else (WindowIs(None), at)
    case NextWave => (WaveIs(if at == 0 then None else ViewAt(p, p.windows[order[at - 1]].waveBlockId)), at)
  }

  function Answers(p: Parsed, order: seq<nat>, reqs: seq<Request>): (r: (seq<Reply>, nat))
    requires forall i | 0 <= i < |order| :: order[i] < |p.windows|
    ensures |r.0| == |reqs| && r.1 <= |order|
  {
    if reqs == [] then ([], 0)
    else
      var (replies, at) := Answers(p, order, reqs[..|reqs| - 1]);
      var (reply, next) := Answer(p, order, at, reqs[|reqs| - 1]);
      (replies + [reply], next)
  }

  lemma AnswersNone(p: Parsed, order: seq<nat>)
    requires forall k | 0 <= k < |order| :: order[k] < |p.windows|
    ensures Answers(p, order, []) == ([], 0)
  {
  }

  lemma AnswersNext(p: Parsed, order: seq<nat>, reqs: seq<Request>, i: nat)
    requires i < |reqs| && forall k | 0 <= k < |order| :: order[k] < |p.windows|
    ensures var (replies, at) := Answers(p, order, reqs[..i]);
            var (reply, next) := Answer(p, order, at, reqs[i]);
            Answers(p, order, reqs[..i + 1]) == (replies + [reply], next)
  {
    assert reqs[..i + 1][..i] == reqs[..i];
  }

  lemma ShownView(p: Parsed, id: u32, view: L.View)
    requires AgreeingBlocks(p.waves) && LastPos(WaveIds(p.waves), id).Some? && Shows(p.waves, id, view)
    ensures ViewAt(p, id) == Some(view)
  {
    hide Shows, OneView;
    var k := LastPos(WaveIds(p.waves), id).value;
    ShowsTheBlock(p.waves, k, view);
  }

  /** One call against the real cache. */
  method Call(st: WaveStream, req: Request) returns (reply: Reply)
    requires st.Valid() && AgreeingBlocks(st.p.waves) && st.cache.generation == st.generationAtOpen
    modifies st`orderIndex, st`pin, st.cache, st.cache.entries
    ensures st.Valid() && st.cache.generation == st.generationAtOpen
    ensures (reply, st.orderIndex) == Answer(st.p, st.windowOrder, old(st.orderIndex), req)
  {
    hide Shows, ShowsTrace, SameTraces, IsTrace, LeadsTo, Maps, NodesOf, Coherent, PinsAre, Mirrors, AgreeingBlocks,
         ShownFor, Filled, Fetched, Warmed;
    NodeCount(st.idx, st.p);
    match req {
      case Warm =>
        var waves := TableOf(st.idx, st.p);
        WarmCache(st.cache, waves, st.pin);
        reply := Done;
      case Evict =>
        EvictOne(st.cache, st.p.waves, st.pin);
        reply := Done;
      case Wave(id) =>
        var r := WaveGet(st.idx, st.cache, id, st.p, st.pin);
        if r.Some? {
          ShownView(st.p, id, r.value);
        }
        reply := WaveIs(r);
      case NextWindow =>
        var r := st.NextWindow();
        reply := WindowIs(r);
      case NextWave =>
        var r := st.NextWave();
        if r.Some? {
          ShownView(st.p, st.Current().value.blockId, r.value);
        }
        reply := WaveIs(r);
    }
  }

  /** The wave table, read through the index. */
  method TableOf(idx: PackageIndex, ghost p: Parsed) returns (waves: seq<Types.Wave>)
    requires idx.Describes(p)
    ensures waves == p.waves
  {
    hide Maps;
    waves := [];
    for i := 0 to |idx.waves|
      invariant waves == p.waves[..i]
    {
      waves := waves + [idx.waves[i].block];
    }
  }

  /** Any run of warming, evicting, direct reads and stream calls on a freshly opened stream is answered from the tables
      alone: no reply depends on what the cache holds, for every capacity. */
  method Serve(st: WaveStream, reqs: seq<Request>) returns (replies: seq<Reply>)
    requires st.Valid() && AgreeingBlocks(st.p.waves)
    requires st.orderIndex == 0 && st.cache.generation == st.generationAtOpen
    modifies st`orderIndex, st`pin, st.cache, st.cache.entries
    ensures st.Valid()
    ensures (replies, st.orderIndex) == Answers(st.p, st.windowOrder, reqs)
  {
    hide Maps, NodesOf, Mirrors, Coherent, PinsAre, Shows, Answer, Answers, AgreeingBlocks;
    AnswersNone(st.p, st.windowOrder);
    replies := [];
    for i := 0 to |reqs|
      invariant st.Valid() && st.cache.generation == st.generationAtOpen
      invariant (replies, st.orderIndex) == Answers(st.p, st.windowOrder, reqs[..i])
    {
      AnswersNext(st.p, st.windowOrder, reqs, i);
      var reply := Call(st, reqs[i]);
      replies := replies + [reply];
    }
    assert reqs[..|reqs|] == reqs;
  }

  // ----- cursors

  class Cursor {
    const idx: PackageIndex
    const cache: WaveCache
    var windowId: u32
    var wavePos: nat
    var pin: Option<u32>
    ghost const p: Parsed

    ghost predicate Valid()
      reads this, cache, cache.entries, idx, idx.routeById, idx.windowById, idx.waveById
    {
      Serving(cache, p.waves, pin) && idx.Describes(p)
    }

    /** `rv_cursor_impl_open` */
    constructor (idx: PackageIndex, cache: WaveCache, ghost p: Parsed)
      requires idx.Describes(p) && Serving(cache, p.waves, None)
      ensures Valid() && this.idx == idx && this.cache == cache && this.p == p && pin == None && wavePos == 0
    {
      hide Serving, Maps, NodesOf;
      this.idx, this.cache, this.p := idx, cache, p;
      windowId, wavePos, pin := 0, 0, None;
    }

    /** Where the cursor stands. */
    ghost function At(): Position
      reads this
    {
      Position(windowId, wavePos)
    }

    /** `rv_cursor_impl_seek`: moves exactly when the window and its wave resolve, and stays otherwise. */
    method Seek(id: u32) returns (st: Status)
      requires Valid()
      modifies this`windowId, this`wavePos
      ensures Valid() && (st.Ok? <==> WaveResolves(p, id)) && At() == Sought(p, old(At()), id)
    {
      hide Serving, Maps, NodesOf;
      var pos := ResolveWave(idx, id, p);
      if pos.None? {
        return Failed;
      }
      windowId, wavePos := id, pos.value;
      return Ok;
    }

    /** `rv_cursor_impl_read`: reads the block the cursor stands on, whatever the cache holds and even after an
        invalidation. */
    method Read() returns (r: Option<L.View>)
      requires Valid()
      modifies this`pin, cache, cache.entries
      ensures Valid()
      ensures r.Some? <==> wavePos < |p.waves|
      ensures r.Some? ==> Shows(p.waves, p.waves[wavePos].blockId, r.value)
      ensures r.Some? && SameTraces(p.waves, p.waves[wavePos].blockId) ==> IsTrace(r.value, p.waves[wavePos])
      ensures cache.state == if r.Some? then Filled(old(cache.state), p.waves[wavePos], old(pin)) else old(cache.state)
    {
      hide Filled, Shows, SameTraces, IsTrace, Maps, Coherent, PinsAre, Mirrors;
      if wavePos >= |idx.waves| {
        return None;
      }
      var slice;
      slice, pin := FillSlice(cache, idx.waves[wavePos].block, pin, p.waves);
      TraceShown(p.waves, p.waves[wavePos].blockId, slice);
      return Some(slice);
    }

    /** `rv_cursor_impl_close` */
    method Close()
      requires Valid()
      modifies this`pin, cache, cache.entries
      ensures Serving(cache, p.waves, None) && pin == None
      ensures cache.state == Released(old(cache.state), old(pin))
    {
      hide Shows, Mirrors, Coherent, Maps, NodesOf;
      ValidState(cache);
      if pin.Some? {
        PinKeeps(cache.state, pin.value, false, p.waves, None);
        var st := cache.SetPin(pin.value, false);
      }
      pin := None;
    }

    /** `rv_cursor_impl_advance`: seeks to the window of the row after the first one with the current id. */
    method Advance() returns (st: Status)
      requires Valid()
      modifies this`windowId, this`wavePos
      ensures Valid() && At() == Advanced(p, old(At()))
      ensures st.Ok? <==> var next := NextWindowId(p, old(windowId)); next.Some? && WaveResolves(p, next.value)
    {
      hide Serving, Maps, WaveResolves, Sought, FirstPos;
      for i := 0 to |idx.windows|
        invariant forall k | 0 <= k < i :: p.windows[k].windowId != windowId
        invariant windowId == old(windowId) && wavePos == old(wavePos)
      {
        if idx.windows[i].windowId == windowId {
          FirstPosIs(WindowIds(p.windows), windowId, i);
          if i + 1 >= |idx.windows| {
            return Failed;
          }
          st := Seek(idx.windows[i + 1].windowId);
          return;
        }
      }
      return Failed;
    }
  }

  // ----- what a cursor's calls answer

  datatype Position = Position(windowId: u32, wavePos: nat)

  /** The block under a cursor is not to be confused with another.  A cursor that was not moved yet stands on the first
      block, whose id may be zero. */
  ghost predicate StandsClear(p: Parsed, at: Position) {
    at.wavePos < |p.waves| ==> OneView(p.waves, p.waves[at.wavePos].blockId)
  }

  function Sought(p: Parsed, at: Position, id: u32): Position {
    if WaveResolves(p, id) then Position(id, LastPos(WaveIds(p.waves), WindowOf(p, id).value.waveBlockId).value) else at
  }

  /** The id in the row after the first one with an id. */
  function NextWindowId(p: Parsed, id: u32): Option<u32> {
    var i :- FirstPos(WindowIds(p.windows), id);
    if i + 1 < |p.windows| then Some(p.windows[i + 1].windowId) else None
  }

  function Advanced(p: Parsed, at: Position): Position {
    var next := NextWindowId(p, at.windowId);
    if next.Some? then Sought(p, at, next.value) else at
  }

  datatype CursorRequest = SeekTo(id: u32) | AdvanceOne | ReadBlock | WarmUp | EvictSome

  datatype CursorReply = Moved(ok: bool) | Slice(view: Option<L.View>) | Nothing

  /** What a call must answer, from the tables and the cursor's position alone, and the position after it. */
  function CursorAnswer(p: Parsed, at: Position, req: CursorRequest): (CursorReply, Position) {
    match req
    case SeekTo(id) => (Moved(WaveResolves(p, id)), Sought(p, at, id))
    case AdvanceOne =>
      var next := NextWindowId(p, at.windowId);
      (Moved(next.Some? && WaveResolves(p, next.value)), Advanced(p, at))
    case ReadBlock => (Slice(if at.wavePos < |p.waves| then Some(L.ViewOf(p.waves[at.wavePos])) else None), at)
    case WarmUp => (Nothing, at)
    case EvictSome => (Nothing, at)
  }

  function CursorAnswers(p: Parsed, at: Position, reqs: seq<CursorRequest>): (r: (seq<CursorReply>, Position))
    ensures |r.0| == |reqs|
  {
    if reqs == [] then ([], at)
    else
      var (replies, mid) := CursorAnswers(p, at, reqs[..|reqs| - 1]);
      var (reply, next) := CursorAnswer(p, mid, reqs[|reqs| - 1]);
      (replies + [reply], next)
  }

  lemma CursorAnswersNone(p: Parsed, at: Position)
    ensures CursorAnswers(p, at, []) == ([], at)
  {
  }

  lemma CursorAnswersNext(p: Parsed, at: Position, reqs: seq<CursorRequest>, i: nat)
    requires i < |reqs|
    ensures var (replies, mid) := CursorAnswers(p, at, reqs[..i]);
            var (reply, next) := CursorAnswer(p, mid, reqs[i]);
            CursorAnswers(p, at, reqs[..i + 1]) == (replies + [reply], next)
  {
    hide CursorAnswer;
    assert reqs[..i + 1][..i] == reqs[..i];
  }

  /** After an advance that succeeds, a read shows the block of the window that was advanced to. */
  lemma AdvanceThenRead(p: Parsed, at: Position, id: u32)
    requires NextWindowId(p, at.windowId) == Some(id) && WaveResolves(p, id)
    ensures BlockOf(p, WindowOf(p, id).value).Some?
    ensures CursorAnswers(p, at, [AdvanceOne, ReadBlock]).0 ==
            [Moved(true), Slice(Some(L.ViewOf(BlockOf(p, WindowOf(p, id).value).value)))]
  {
    hide NextWindowId;
    var reqs := [AdvanceOne, ReadBlock];
    assert reqs[..0] == [] && reqs[..2] == reqs;
    CursorAnswersNone(p, at);
    CursorAnswersNext(p, at, reqs, 0);
    CursorAnswersNext(p, at, reqs, 1);
  }

  lemma SoughtClear(p: Parsed, at: Position, id: u32)
    requires AgreeingBlocks(p.waves) && StandsClear(p, at)
    ensures StandsClear(p, Sought(p, at, id))
  {
    hide OneView;
  }

  lemma AdvancedClear(p: Parsed, at: Position)
    requires AgreeingBlocks(p.waves) && StandsClear(p, at)
    ensures StandsClear(p, Advanced(p, at))
  {
    hide AgreeingBlocks, StandsClear, Sought, NextWindowId;
    if NextWindowId(p, at.windowId).Some? {
      SoughtClear(p, at, NextWindowId(p, at.windowId).value);
    }
  }

  /** One call on a cursor. */
  method CallCursor(cur: Cursor, req: CursorRequest) returns (reply: CursorReply)
    requires cur.Valid() && AgreeingBlocks(cur.p.waves) && StandsClear(cur.p, cur.At())
    modifies cur`windowId, cur`wavePos, cur`pin, cur.cache, cur.cache.entries
    ensures cur.Valid() && (reply, cur.At()) == CursorAnswer(cur.p, old(cur.At()), req)
    ensures StandsClear(cur.p, cur.At())
  {
    hide Shows, SameTraces, IsTrace, Maps, NodesOf, Coherent, PinsAre, Mirrors, WaveResolves, Sought, Filled, Warmed,
         OneView, AgreeingBlocks;
    match req {
      case SeekTo(id) =>
        SoughtClear(cur.p, cur.At(), id);
        var st := cur.Seek(id);
        reply := Moved(st.Ok?);
      case AdvanceOne =>
        AdvancedClear(cur.p, cur.At());
        var st := cur.Advance();
        reply := Moved(st.Ok?);
      case ReadBlock =>
        var r := cur.Read();
        if r.Some? {
          ShowsTheBlock(cur.p.waves, cur.wavePos, r.value);
        }
        reply := Slice(r);
      case WarmUp =>
        var waves := TableOf(cur.idx, cur.p);
        WarmCache(cur.cache, waves, cur.pin);
        reply := Nothing;
      case EvictSome =>
        EvictOne(cur.cache, cur.p.waves, cur.pin);
        reply := Nothing;
    }
  }

  /** Any run of seeks, advances, reads, warming and evicting is answered from the tables and the cursor's position
      alone, for every capacity and every previous content of the cache. */
  method ServeCursor(cur: Cursor, reqs: seq<CursorRequest>) returns (replies: seq<CursorReply>)
    requires cur.Valid() && AgreeingBlocks(cur.p.waves) && StandsClear(cur.p, cur.At())
    modifies cur`windowId, cur`wavePos, cur`pin, cur.cache, cur.cache.entries
    ensures cur.Valid() && (replies, cur.At()) == CursorAnswers(cur.p, old(cur.At()), reqs)
  {
    hide Maps, NodesOf, Mirrors, Coherent, PinsAre, Shows, CursorAnswer, CursorAnswers, AgreeingBlocks, StandsClear;
    ghost var start := cur.At();
    CursorAnswersNone(cur.p, start);
    replies := [];
    for i := 0 to |reqs|
      invariant cur.Valid() && StandsClear(cur.p, cur.At())
      invariant (replies, cur.At()) == CursorAnswers(cur.p, start, reqs[..i])
    {
      CursorAnswersNext(cur.p, start, reqs, i);
      var reply := CallCursor(cur, reqs[i]);
      replies := replies + [reply];
    }
    assert reqs[..|reqs|] == reqs;
  }
}
