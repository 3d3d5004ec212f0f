/** What the replies of streams, cursors and direct reads contain, in the fields of the tables. */
module Traces {
  import opened Types
  import opened Index
  import opened Stream
  import opened Session
  import L = Lru

  // ----- the windows of a route

  /** The order of a stream: the positions of the route's windows, ascending. */
  lemma {:induction false} OrderExactly(ws: seq<Window>, routeId: u32, n: nat)
    requires n <= |ws|
    ensures var order := OrderOf(ws, routeId, n);
            && (forall a, b | 0 <= a < b < |order| :: order[a] < order[b])
            && (forall i: nat :: i in order <==> i < n && (routeId == 0 || ws[i].routeId == routeId))
  {
    if n > 0 {
      hide OrderOf;
      OrderExactly(ws, routeId, n - 1);
      OrderNext(ws, routeId, n - 1);
      var before, order := OrderOf(ws, routeId, n - 1), OrderOf(ws, routeId, n);
      forall a, b | 0 <= a < b < |order| ensures order[a] < order[b] {
        assert before[a] in before;
      }
    } else {
      OrderNext(ws, routeId, 0);
    }
  }

  // ----- a run of session and stream calls

  /** How many windows the calls so far have asked for. */
  function Asked(reqs: seq<Request>): nat {
    if reqs == [] then 0 else Asked(reqs[..|reqs| - 1]) + if reqs[|reqs| - 1].NextWindow? then 1 else 0
  }

  /** The place of a stream in its order after some calls. */
  function Place(order: seq<nat>, reqs: seq<Request>): nat {
    if Asked(reqs) < |order| then Asked(reqs) else |order|
  }

  /** A reply with a trace: there is one exactly when the id leads to a block, and it is that block's. */
  ghost predicate IsReply(p: Parsed, id: u32, reply: Option<L.View>) {
    && (reply.Some? <==> exists k: nat :: LeadsTo(p.waves, id, k))
    && forall k: nat | LeadsTo(p.waves, id, k) :: reply.Some? && IsTrace(reply.value, p.waves[k])
  }

  /** What the reply to a call must be, given the calls before it. */
  ghost predicate Replies(p: Parsed, order: seq<nat>, before: seq<Request>, req: Request, reply: Reply)
    requires forall i | 0 <= i < |order| :: order[i] < |p.windows|
  {
    var at := Place(order, before);
    match req
    case Warm => reply == Done
    case Evict => reply == Done
    case Wave(id) => reply.WaveIs? && IsReply(p, id, reply.view)
    case NextWindow => reply == WindowIs(if at < |order| then Some(order[at]) else None)
    case NextWave =>
      && reply.WaveIs?
      && if at == 0 then reply.view.None? else IsReply(p, p.windows[order[at - 1]].waveBlockId, reply.view)
  }

  lemma ViewIsReply(p: Parsed, id: u32)
    ensures IsReply(p, id, ViewAt(p, id))
  {
    hide LeadsTo, IsTrace, LastPos;
    forall k: nat ensures LastPos(WaveIds(p.waves), id) == Some(k) <==> LeadsTo(p.waves, id, k) {
      LeadsExactly(p.waves, id, k);
    }
    if LastPos(WaveIds(p.waves), id).Some? {
      var k := LastPos(WaveIds(p.waves), id).value;
      assert LeadsTo(p.waves, id, k);
      ViewIsTrace(p.waves[k]);
    }
  }

  lemma ViewIsTrace(b: Types.Wave)
    ensures IsTrace(L.ViewOf(b), b)
  {
  }

  lemma {:induction false} AnswersPlace(p: Parsed, order: seq<nat>, reqs: seq<Request>)
    requires forall i | 0 <= i < |order| :: order[i] < |p.windows|
    ensures Answers(p, order, reqs).1 == Place(order, reqs)
  {
    hide ViewAt;
    if reqs != [] {
      AnswersPlace(p, order, reqs[..|reqs| - 1]);
    }
  }

  /** Every reply of a run of calls is the one that the tables and the calls before it require. */
  lemma {:induction false} AnswersMean(p: Parsed, order: seq<nat>, reqs: seq<Request>)
    requires forall i | 0 <= i < |order| :: order[i] < |p.windows|
    ensures forall i | 0 <= i < |reqs| :: Replies(p, order, reqs[..i], reqs[i], Answers(p, order, reqs).0[i])
  {
    hide ViewAt, Place, IsReply;
    if reqs != [] {
      var n := |reqs| - 1;
      AnswersMean(p, order, reqs[..n]);
      AnswersPlace(p, order, reqs[..n]);
      forall i | 0 <= i < n ensures Replies(p, order, reqs[..i], reqs[i], Answers(p, order, reqs).0[i]) {
        assert reqs[..n][..i] == reqs[..i] && reqs[..n][i] == reqs[i];
        assert Answers(p, order, reqs).0[i] == Answers(p, order, reqs[..n]).0[i];
      }
      LastReply(p, order, reqs[..n], reqs[n]);
      assert Answers(p, order, reqs).0[n] == Answer(p, order, Place(order, reqs[..n]), reqs[n]).0;
    }
  }

  lemma LastReply(p: Parsed, order: seq<nat>, before: seq<Request>, req: Request)
    requires forall i | 0 <= i < |order| :: order[i] < |p.windows|
    ensures Place(order, before) <= |order|
    ensures Replies(p, order, before, req, Answer(p, order, Place(order, before), req).0)
  {
    hide ViewAt, IsReply;
    match req
    case Wave(id) => ViewIsReply(p, id);
    case NextWave =>
      if Place(order, before) > 0 {
        ViewIsReply(p, p.windows[order[Place(order, before) - 1]].waveBlockId);
      }
    case _ =>
  }

  /** Any run on a freshly opened stream, reply by reply. */
  method ServeTraces(st: WaveStream, reqs: seq<Request>) returns (replies: seq<Reply>)
    requires st.Valid() && st.orderIndex == 0 && st.cache.generation == st.generationAtOpen
    requires forall id | id != 0 :: SameTraces(st.p.waves, id)
    modifies st`orderIndex, st`pin, st.cache, st.cache.entries
    ensures st.Valid() && |replies| == |reqs|
    ensures forall i | 0 <= i < |reqs| :: Replies(st.p, st.windowOrder, reqs[..i], reqs[i], replies[i])
  {
    hide Serving, Replies, SameTraces, OneView, WaveStream.Valid;
    SameTracesAgree(st.p.waves);
    StreamOrder(st);
    replies := Serve(st, reqs);
    AnswersMean(st.p, st.windowOrder, reqs);
  }

  lemma SameTracesAgree(waves: seq<Types.Wave>)
    ensures AgreeingBlocks(waves) <==> forall id | id != 0 :: SameTraces(waves, id)
  {
    hide SameTraces, OneView;
    forall id ensures OneView(waves, id) <==> SameTraces(waves, id) {
      TracesMean(waves, id, L.View(0, 0, 0, []));
    }
  }

  lemma StreamOrder(st: WaveStream)
    requires st.Valid()
    ensures st.windowOrder == OrderOf(st.p.windows, st.routeId, |st.p.windows|)
    ensures forall i | 0 <= i < |st.windowOrder| :: st.windowOrder[i] < |st.p.windows|
  {
  }

  // ----- a walk

  /** The blocks of the first `n` windows of an order that lead to one, in order. */
  ghost predicate WalkIs(p: Parsed, order: seq<nat>, n: nat, out: seq<L.View>)
    requires n <= |order| && forall i | 0 <= i < |order| :: order[i] < |p.windows|
  {
    if n == 0 then out == []
    else
      var id := p.windows[order[n - 1]].waveBlockId;
      if exists k: nat :: LeadsTo(p.waves, id, k) then
        out != [] && IsReply(p, id, Some(out[|out| - 1])) && WalkIs(p, order, n - 1, out[..|out| - 1])
      else WalkIs(p, order, n - 1, out)
  }

  lemma {:induction false} WalkMeans(st: WaveStream, n: nat)
    requires n <= |OrderOf(st.p.windows, st.routeId, |st.p.windows|)|
    ensures WalkIs(st.p, OrderOf(st.p.windows, st.routeId, |st.p.windows|), n, st.WalkOf(n))
  {
    hide LeadsTo, IsReply, LastPos;
    if n > 0 {
      WalkMeans(st, n - 1);
      var w := st.p.windows[OrderOf(st.p.windows, st.routeId, |st.p.windows|)[n - 1]];
      BlockIsReply(st.p, w);
      var out := st.WalkOf(n);
      if BlockOf(st.p, w).Some? {
        assert out == st.WalkOf(n - 1) + [L.ViewOf(BlockOf(st.p, w).value)];
        assert out[..|out| - 1] == st.WalkOf(n - 1);
      } else {
        assert out == st.WalkOf(n - 1);
      }
    }
  }

  lemma BlockIsReply(p: Parsed, w: Window)
    ensures BlockOf(p, w).Some? <==> exists k: nat :: LeadsTo(p.waves, w.waveBlockId, k)
    ensures BlockOf(p, w).Some? ==> IsReply(p, w.waveBlockId, Some(L.ViewOf(BlockOf(p, w).value)))
  {
    hide LeadsTo, IsTrace;
    ViewIsReply(p, w.waveBlockId);
  }

  /** A walk of a fresh stream, trace by trace. */
  method WalkTraces(st: WaveStream) returns (out: seq<L.View>)
    requires st.Valid() && st.orderIndex == 0 && st.cache.generation == st.generationAtOpen
    requires forall id | id != 0 :: SameTraces(st.p.waves, id)
    modifies st`orderIndex, st`pin, st.cache, st.cache.entries
    ensures st.Valid() && WalkIs(st.p, st.windowOrder, |st.windowOrder|, out)
  {
    hide Serving, WalkIs, SameTraces, OneView, WaveStream.Valid, WaveStream.WalkOf;
    SameTracesAgree(st.p.waves);
    StreamOrder(st);
    WalkMeans(st, |st.windowOrder|);
    out := st.Walk();
    StreamOrder(st);
  }

  // ----- a run of cursor calls

  /** The window id leads to row `w`, and that row's block id to block `k`. */
  ghost predicate Resolves(p: Parsed, id: u32, w: nat, k: nat) {
    && id != 0 && w < |p.windows| && p.windows[w].windowId == id
    && (forall j | w < j < |p.windows| :: p.windows[j].windowId != id)
    && LeadsTo(p.waves, p.windows[w].waveBlockId, k)
  }

  /** A cursor moves to an id and its block when both resolve, and stays otherwise. */
  ghost predicate Moves(p: Parsed, at: Position, id: u32, ok: bool, next: Position) {
    && (ok <==> exists w: nat, k: nat :: Resolves(p, id, w, k))
    && (!ok ==> next == at)
    && forall w: nat, k: nat | Resolves(p, id, w, k) :: next == Position(id, k)
  }

  /** Row `i` is the first one with the id. */
  ghost predicate FirstRow(p: Parsed, id: u32, i: nat) {
    i < |p.windows| && p.windows[i].windowId == id && forall j | 0 <= j < i :: p.windows[j].windowId != id
  }

  ghost predicate CursorStep(p: Parsed, at: Position, req: CursorRequest, reply: CursorReply, next: Position) {
    match req
    case SeekTo(id) => reply.Moved? && Moves(p, at, id, reply.ok, next)
    case AdvanceOne =>
      && reply.Moved?
      && (reply.ok ==> exists i: nat :: FirstRow(p, at.windowId, i) && i + 1 < |p.windows|)
      && (!reply.ok ==> next == at)
      && forall i: nat | FirstRow(p, at.windowId, i) && i + 1 < |p.windows| ::
           Moves(p, at, p.windows[i + 1].windowId, reply.ok, next)
    case ReadBlock =>
      && reply.Slice? && next == at && (reply.view.Some? <==> at.wavePos < |p.waves|)
      && (reply.view.Some? ==> IsTrace(reply.view.value, p.waves[at.wavePos]))
    case WarmUp => reply == Nothing && next == at
    case EvictSome => reply == Nothing && next == at
  }

  lemma SoughtMoves(p: Parsed, at: Position, id: u32)
    ensures Moves(p, at, id, WaveResolves(p, id), Sought(p, at, id))
  {
    hide LeadsTo;
    forall w: nat, k: nat
      ensures Resolves(p, id, w, k) <==>
              && LastPos(WindowIds(p.windows), id) == Some(w)
              && LastPos(WaveIds(p.waves), p.windows[w].waveBlockId) == Some(k)
    {
      WindowLast(p, id, w);
      if w < |p.windows| {
        LeadsExactly(p.waves, p.windows[w].waveBlockId, k);
      }
    }
    hide LastPos, Resolves;
    if WaveResolves(p, id) {
      var w := LastPos(WindowIds(p.windows), id).value;
      var k := LastPos(WaveIds(p.waves), p.windows[w].waveBlockId).value;
      assert Resolves(p, id, w, k);
    }
  }

  lemma WindowLast(p: Parsed, id: u32, w: nat)
    ensures LastPos(WindowIds(p.windows), id) == Some(w) <==>
            && id != 0 && w < |p.windows| && p.windows[w].windowId == id
            && forall j | w < j < |p.windows| :: p.windows[j].windowId != id
  {
    var ids := WindowIds(p.windows);
    assert forall j | 0 <= j < |p.windows| :: ids[j] == p.windows[j].windowId;
    if id != 0 && w < |p.windows| && p.windows[w].windowId == id {
      assert ids[w] in ids;
    }
  }

  lemma CursorStepMeans(p: Parsed, at: Position, req: CursorRequest)
    ensures var (reply, next) := CursorAnswer(p, at, req); CursorStep(p, at, req, reply, next)
  {
    hide Resolves, Sought, WaveResolves, FirstPos;
    match req
    case SeekTo(id) => SoughtMoves(p, at, id);
    case AdvanceOne =>
      var i := FirstPos(WindowIds(p.windows), at.windowId);
      FirstRowIs(p, at.windowId);
      hide FirstRow;
      if i.Some? {
        assert FirstRow(p, at.windowId, i.value);
      }
      if i.Some? && i.value + 1 < |p.windows| {
        SoughtMoves(p, at, p.windows[i.value + 1].windowId);
      }
    case ReadBlock =>
      if at.wavePos < |p.waves| {
        ViewIsTrace(p.waves[at.wavePos]);
      }
    case _ =>
  }

  lemma FirstRowIs(p: Parsed, id: u32)
    ensures forall i: nat :: FirstRow(p, id, i) <==> FirstPos(WindowIds(p.windows), id) == Some(i)
  {
    var ids := WindowIds(p.windows);
    assert forall j | 0 <= j < |p.windows| :: ids[j] == p.windows[j].windowId;
    forall i: nat ensures FirstRow(p, id, i) <==> FirstPos(ids, id) == Some(i) {
      if FirstRow(p, id, i) {
        FirstPosIs(ids, id, i);
      }
    }
  }

  /** Step by step from a position to another, with these replies. */
  ghost predicate CursorRuns(p: Parsed, at: Position, reqs: seq<CursorRequest>, replies: seq<CursorReply>,
                             end: Position)
  {
    && |replies| == |reqs|
    && if reqs == [] then end == at
       else
         var n := |reqs| - 1;
         exists mid :: CursorRuns(p, at, reqs[..n], replies[..n], mid) && CursorStep(p, mid, reqs[n], replies[n], end)
  }

  lemma {:induction false} CursorAnswersMean(p: Parsed, at: Position, reqs: seq<CursorRequest>)
    ensures var (replies, end) := CursorAnswers(p, at, reqs); CursorRuns(p, at, reqs, replies, end)
  {
    hide CursorStep, CursorAnswer;
    if reqs != [] {
      var n := |reqs| - 1;
      CursorAnswersMean(p, at, reqs[..n]);
      var (before, mid) := CursorAnswers(p, at, reqs[..n]);
      CursorStepMeans(p, mid, reqs[n]);
      var (replies, end) := CursorAnswers(p, at, reqs);
      assert replies[..n] == before;
    }
  }

  /** Any run on a cursor, reply by reply. */
  method ServeCursorTraces(cur: Cursor, reqs: seq<CursorRequest>) returns (replies: seq<CursorReply>)
    requires cur.Valid() && (forall id | id != 0 :: SameTraces(cur.p.waves, id))
    requires cur.wavePos < |cur.p.waves| ==> SameTraces(cur.p.waves, cur.p.waves[cur.wavePos].blockId)
    modifies cur`windowId, cur`wavePos, cur`pin, cur.cache, cur.cache.entries
    ensures cur.Valid() && CursorRuns(cur.p, old(cur.At()), reqs, replies, cur.At())
  {
    hide CursorRuns, SameTraces, OneView, Cursor.Valid;
    SameTracesAgree(cur.p.waves);
    if cur.wavePos < |cur.p.waves| {
      TracesMean(cur.p.waves, cur.p.waves[cur.wavePos].blockId, L.View(0, 0, 0, []));
    }
    CursorAnswersMean(cur.p, cur.At(), reqs);
    replies := ServeCursor(cur, reqs);
  }
}
