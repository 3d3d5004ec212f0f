/** The record formats of the ten sections (src/internal/rv_section.c, rv_export.c, rv_builder.c).

    For every section: the bytes a record is written in, how the decoder reads the record at an offset, and the proof
    that the two fit together. */
module Records {
  import opened Types
  import opened Endian
  import opened TableFormat

  // ----- fields in front of the rest of a record

  function Put16(v: u16, rest: bytes): bytes {
    Le16(v) + rest
  }

  function Put32(v: u32, rest: bytes): bytes {
    Le32(v) + rest
  }

  function Put64(v: u64, rest: bytes): bytes {
    Le64(v) + rest
  }

  lemma SplitAt(p: bytes, i: nat, n: nat, end: nat, field: bytes, rest: bytes)
    requires i + n <= end <= |p| && |field| == n && |rest| == end - i - n
    ensures p[i..end] == field + rest <==> p[i..i + n] == field && p[i + n..end] == rest
  {
    assert p[i..end] == p[i..i + n] + p[i + n..end];
    if p[i..end] == field + rest {
      assert p[i..i + n] == p[i..end][..n] && p[i + n..end] == p[i..end][n..];
    }
  }

  lemma Take16(p: bytes, i: nat, v: u16, rest: bytes)
    requires i + 2 + |rest| <= |p|
    ensures p[i..i + 2 + |rest|] == Put16(v, rest) <==>
            U16At(p, i) == v && p[i + 2..i + 2 + |rest|] == rest
  {
    Inverse16(p, i, v);
    SplitAt(p, i, 2, i + 2 + |rest|, Le16(v), rest);
  }

  lemma Take32(p: bytes, i: nat, v: u32, rest: bytes)
    requires i + 4 + |rest| <= |p|
    ensures p[i..i + 4 + |rest|] == Put32(v, rest) <==>
            U32At(p, i) == v && p[i + 4..i + 4 + |rest|] == rest
  {
    Inverse32(p, i, v);
    SplitAt(p, i, 4, i + 4 + |rest|, Le32(v), rest);
  }

  lemma Take64(p: bytes, i: nat, v: u64, rest: bytes)
    requires i + 8 + |rest| <= |p|
    ensures p[i..i + 8 + |rest|] == Put64(v, rest) <==>
            U64At(p, i) == v && p[i + 8..i + 8 + |rest|] == rest
  {
    Inverse64(p, i, v);
    SplitAt(p, i, 8, i + 8 + |rest|, Le64(v), rest);
  }

  function Always<T>(x: T): bool {
    true
  }

  // ----- ROUT

  const ROUTE_SIZE := 24

  function WriteRoute(r: Route): bytes {
    Put32(r.routeId, Put32(r.siteNameId, Put32(r.farNameId, Put32(r.lengthKm, Put32(r.fiberCount,
    Put32(r.flags, []))))))
  }

  function RouteAt(p: bytes, i: nat): Route
    requires i + ROUTE_SIZE <= |p|
  {
    Route(U32At(p, i), U32At(p, i + 4), U32At(p, i + 8), U32At(p, i + 12), U32At(p, i + 16), U32At(p, i + 20))
  }

  function ReadRoute(p: bytes, i: nat): Option<(Route, nat)> {
    if i + ROUTE_SIZE <= |p| then Some((RouteAt(p, i), i + ROUTE_SIZE)) else None
  }

  const ROUTE_FORMAT: Format<Route> := Format(0x31544F52, 50000, WriteRoute, Always, ReadRoute)

  lemma RouteInverse(p: bytes, i: nat, r: Route)
    ensures |WriteRoute(r)| == ROUTE_SIZE
    ensures i + ROUTE_SIZE <= |p| ==> (RouteAt(p, i) == r <==> p[i..i + ROUTE_SIZE] == WriteRoute(r))
  {
    var t6: bytes := [];
    var t5 := Put32(r.flags, t6);
    var t4 := Put32(r.fiberCount, t5);
    var t3 := Put32(r.lengthKm, t4);
    var t2 := Put32(r.farNameId, t3);
    var t1 := Put32(r.siteNameId, t2);
    if i + ROUTE_SIZE <= |p| {
      Take32(p, i, r.routeId, t1);
      Take32(p, i + 4, r.siteNameId, t2);
      Take32(p, i + 8, r.farNameId, t3);
      Take32(p, i + 12, r.lengthKm, t4);
      Take32(p, i + 16, r.fiberCount, t5);
      Take32(p, i + 20, r.flags, t6);
    }
  }

  lemma RouteFormatExact()
    ensures FixedSize(ROUTE_FORMAT, ROUTE_SIZE) && Exact(ROUTE_FORMAT)
  {
    forall p, i, r ensures SizeIs(ROUTE_FORMAT, ROUTE_SIZE, r) && ReadsBack(ROUTE_FORMAT, ROUTE_SIZE, p, i, r) {
      RouteInverse(p, i, r);
    }
    forall p: bytes, i: nat ensures StepsBy(ROUTE_FORMAT, ROUTE_SIZE, p, i) {
      if i + ROUTE_SIZE <= |p| {
        RouteInverse(p, i, RouteAt(p, i));
      }
    }
    FixedIsExact(ROUTE_FORMAT, ROUTE_SIZE);
  }

  // ----- INST

  const INST_SIZE := 24

  function WriteInst(r: Inst): bytes {
    Put32(r.instId, Put32(r.modelNameId, Put32(r.serialNameId, Put16(r.wavelengthNm, Put16(r.pulseDefaultNs,
    Put32(r.dynamicRangeDb, Put32(r.flags, [])))))))
  }

  function InstAt(p: bytes, i: nat): Inst
    requires i + INST_SIZE <= |p|
  {
    Inst(U32At(p, i), U32At(p, i + 4), U32At(p, i + 8), U16At(p, i + 12), U16At(p, i + 14), U32At(p, i + 16),
         U32At(p, i + 20))
  }

  function ReadInst(p: bytes, i: nat): Option<(Inst, nat)> {
    if i + INST_SIZE <= |p| then Some((InstAt(p, i), i + INST_SIZE)) else None
  }

  const INST_FORMAT: Format<Inst> := Format(0x3154534E, 10000, WriteInst, Always, ReadInst)

  lemma InstInverse(p: bytes, i: nat, r: Inst)
    ensures |WriteInst(r)| == INST_SIZE
    ensures i + INST_SIZE <= |p| ==> (InstAt(p, i) == r <==> p[i..i + INST_SIZE] == WriteInst(r))
  {
    var t7: bytes := [];
    var t6 := Put32(r.flags, t7);
    var t5 := Put32(r.dynamicRangeDb, t6);
    var t4 := Put16(r.pulseDefaultNs, t5);
    var t3 := Put16(r.wavelengthNm, t4);
    var t2 := Put32(r.serialNameId, t3);
    var t1 := Put32(r.modelNameId, t2);
    if i + INST_SIZE <= |p| {
      Take32(p, i, r.instId, t1);
      Take32(p, i + 4, r.modelNameId, t2);
      Take32(p, i + 8, r.serialNameId, t3);
      Take16(p, i + 12, r.wavelengthNm, t4);
      Take16(p, i + 14, r.pulseDefaultNs, t5);
      Take32(p, i + 16, r.dynamicRangeDb, t6);
      Take32(p, i + 20, r.flags, t7);
    }
  }

  lemma InstFormatExact()
    ensures FixedSize(INST_FORMAT, INST_SIZE) && Exact(INST_FORMAT)
  {
    forall p, i, r ensures SizeIs(INST_FORMAT, INST_SIZE, r) && ReadsBack(INST_FORMAT, INST_SIZE, p, i, r) {
      InstInverse(p, i, r);
    }
    forall p: bytes, i: nat ensures StepsBy(INST_FORMAT, INST_SIZE, p, i) {
      if i + INST_SIZE <= |p| {
        InstInverse(p, i, InstAt(p, i));
      }
    }
    FixedIsExact(INST_FORMAT, INST_SIZE);
  }

  // ----- CLBR

  const CALIB_SIZE := 32

  function WriteCalib(r: Calib): bytes {
    Put32(r.calibId, Put32(r.instId, Put64(r.calibratedUnix, Put32(r.refractiveIndex, Put32(r.backscatterCoef,
    Put32(r.spliceLossDb, Put32(r.flags, [])))))))
  }

  function CalibAt(p: bytes, i: nat): Calib
    requires i + CALIB_SIZE <= |p|
  {
    Calib(U32At(p, i), U32At(p, i + 4), U64At(p, i + 8), U32At(p, i + 16), U32At(p, i + 20), U32At(p, i + 24),
          U32At(p, i + 28))
  }

  function ReadCalib(p: bytes, i: nat): Option<(Calib, nat)> {
    if i + CALIB_SIZE <= |p| then Some((CalibAt(p, i), i + CALIB_SIZE)) else None
  }

  const CALIB_FORMAT: Format<Calib> := Format(0x31424C43, 10000, WriteCalib, Always, ReadCalib)

  lemma CalibInverse(p: bytes, i: nat, r: Calib)
    ensures |WriteCalib(r)| == CALIB_SIZE
    ensures i + CALIB_SIZE <= |p| ==> (CalibAt(p, i) == r <==> p[i..i + CALIB_SIZE] == WriteCalib(r))
  {
    var t7: bytes := [];
    var t6 := Put32(r.flags, t7);
    var t5 := Put32(r.spliceLossDb, t6);
    var t4 := Put32(r.backscatterCoef, t5);
    var t3 := Put32(r.refractiveIndex, t4);
    var t2 := Put64(r.calibratedUnix, t3);
    var t1 := Put32(r.instId, t2);
    if i + CALIB_SIZE <= |p| {
      Take32(p, i, r.calibId, t1);
      Take32(p, i + 4, r.instId, t2);
      Take64(p, i + 8, r.calibratedUnix, t3);
      Take32(p, i + 16, r.refractiveIndex, t4);
      Take32(p, i + 20, r.backscatterCoef, t5);
      Take32(p, i + 24, r.spliceLossDb, t6);
      Take32(p, i + 28, r.flags, t7);
    }
  }

  lemma CalibFormatExact()
    ensures FixedSize(CALIB_FORMAT, CALIB_SIZE) && Exact(CALIB_FORMAT)
  {
    forall p, i, r ensures SizeIs(CALIB_FORMAT, CALIB_SIZE, r) && ReadsBack(CALIB_FORMAT, CALIB_SIZE, p, i, r) {
      CalibInverse(p, i, r);
    }
    forall p: bytes, i: nat ensures StepsBy(CALIB_FORMAT, CALIB_SIZE, p, i) {
      if i + CALIB_SIZE <= |p| {
        CalibInverse(p, i, CalibAt(p, i));
      }
    }
    FixedIsExact(CALIB_FORMAT, CALIB_SIZE);
  }

  // ----- WIND

  const WINDOW_SIZE := 40

  function WriteWindow(r: Window): bytes {
    Put32(r.windowId, Put32(r.routeId, Put32(r.instId, Put32(r.calibId, Put32(r.waveBlockId, Put32(r.pulseNs,
    Put32(r.rangeKm, Put32(r.resolutionM, Put64(r.acquiredUnix, [])))))))))
  }

  function WindowAt(p: bytes, i: nat): Window
    requires i + WINDOW_SIZE <= |p|
  {
    Window(U32At(p, i), U32At(p, i + 4), U32At(p, i + 8), U32At(p, i + 12), U32At(p, i + 16), U32At(p, i + 20),
           U32At(p, i + 24), U32At(p, i + 28), U64At(p, i + 32))
  }

  function ReadWindow(p: bytes, i: nat): Option<(Window, nat)> {
    if i + WINDOW_SIZE <= |p| then Some((WindowAt(p, i), i + WINDOW_SIZE)) else None
  }

  const WINDOW_FORMAT: Format<Window> := Format(0x31444E49, 200000, WriteWindow, Always, ReadWindow)

  lemma WindowInverse(p: bytes, i: nat, r: Window)
    ensures |WriteWindow(r)| == WINDOW_SIZE
    ensures i + WINDOW_SIZE <= |p| ==> (WindowAt(p, i) == r <==> p[i..i + WINDOW_SIZE] == WriteWindow(r))
  {
    var t9: bytes := [];
    var t8 := Put64(r.acquiredUnix, t9);
    var t7 := Put32(r.resolutionM, t8);
    var t6 := Put32(r.rangeKm, t7);
    var t5 := Put32(r.pulseNs, t6);
    var t4 := Put32(r.waveBlockId, t5);
    var t3 := Put32(r.calibId, t4);
    var t2 := Put32(r.instId, t3);
    var t1 := Put32(r.routeId, t2);
    if i + WINDOW_SIZE <= |p| {
      Take32(p, i, r.windowId, t1);
      Take32(p, i + 4, r.routeId, t2);
      Take32(p, i + 8, r.instId, t3);
      Take32(p, i + 12, r.calibId, t4);
      Take32(p, i + 16, r.waveBlockId, t5);
      Take32(p, i + 20, r.pulseNs, t6);
      Take32(p, i + 24, r.rangeKm, t7);
      Take32(p, i + 28, r.resolutionM, t8);
      Take64(p, i + 32, r.acquiredUnix, t9);
    }
  }

  lemma WindowFormatExact()
    ensures FixedSize(WINDOW_FORMAT, WINDOW_SIZE) && Exact(WINDOW_FORMAT)
  {
    forall p, i, r ensures SizeIs(WINDOW_FORMAT, WINDOW_SIZE, r) && ReadsBack(WINDOW_FORMAT, WINDOW_SIZE, p, i, r) {
      WindowInverse(p, i, r);
    }
    forall p: bytes, i: nat ensures StepsBy(WINDOW_FORMAT, WINDOW_SIZE, p, i) {
      if i + WINDOW_SIZE <= |p| {
        WindowInverse(p, i, WindowAt(p, i));
      }
    }
    FixedIsExact(WINDOW_FORMAT, WINDOW_SIZE);
  }

  // ----- MARK

  const MARKER_SIZE := 32

  function WriteMarker(r: Marker): bytes {
    Put32(r.markerId, Put32(r.windowId, Put32(r.labelNameId, Put32(r.distanceM, Put32(r.lossDb,
    Put32(r.reflectanceDb, Put16(r.kind, Put16(r.severity, Put32(r.flags, [])))))))))
  }

  function MarkerAt(p: bytes, i: nat): Marker
    requires i + MARKER_SIZE <= |p|
  {
    Marker(U32At(p, i), U32At(p, i + 4), U32At(p, i + 8), U32At(p, i + 12), U32At(p, i + 16), U32At(p, i + 20),
           U16At(p, i + 24), U16At(p, i + 26), U32At(p, i + 28))
  }

  function ReadMarker(p: bytes, i: nat): Option<(Marker, nat)> {
    if i + MARKER_SIZE <= |p| then Some((MarkerAt(p, i), i + MARKER_SIZE)) else None
  }

  const MARKER_FORMAT: Format<Marker> := Format(0x314B524D, 500000, WriteMarker, Always, ReadMarker)

  lemma MarkerInverse(p: bytes, i: nat, r: Marker)
    ensures |WriteMarker(r)| == MARKER_SIZE
    ensures i + MARKER_SIZE <= |p| ==> (MarkerAt(p, i) == r <==> p[i..i + MARKER_SIZE] == WriteMarker(r))
  {
    var t9: bytes := [];
    var t8 := Put32(r.flags, t9);
    var t7 := Put16(r.severity, t8);
    var t6 := Put16(r.kind, t7);
    var t5 := Put32(r.reflectanceDb, t6);
    var t4 := Put32(r.lossDb, t5);
    var t3 := Put32(r.distanceM, t4);
    var t2 := Put32(r.labelNameId, t3);
    var t1 := Put32(r.windowId, t2);
    if i + MARKER_SIZE <= |p| {
      Take32(p, i, r.markerId, t1);
      Take32(p, i + 4, r.windowId, t2);
      Take32(p, i + 8, r.labelNameId, t3);
      Take32(p, i + 12, r.distanceM, t4);
      Take32(p, i + 16, r.lossDb, t5);
      Take32(p, i + 20, r.reflectanceDb, t6);
      Take16(p, i + 24, r.kind, t7);
      Take16(p, i + 26, r.severity, t8);
      Take32(p, i + 28, r.flags, t9);
    }
  }

  lemma MarkerFormatExact()
    ensures FixedSize(MARKER_FORMAT, MARKER_SIZE) && Exact(MARKER_FORMAT)
  {
    forall p, i, r ensures SizeIs(MARKER_FORMAT, MARKER_SIZE, r) && ReadsBack(MARKER_FORMAT, MARKER_SIZE, p, i, r) {
      MarkerInverse(p, i, r);
    }
    forall p: bytes, i: nat ensures StepsBy(MARKER_FORMAT, MARKER_SIZE, p, i) {
      if i + MARKER_SIZE <= |p| {
        MarkerInverse(p, i, MarkerAt(p, i));
      }
    }
    FixedIsExact(MARKER_FORMAT, MARKER_SIZE);
  }

  // ----- LINK

  const LINK_SIZE := 24

  function WriteLink(r: Link): bytes {
    Put32(r.linkId, Put32(r.fromKind, Put32(r.fromId, Put32(r.toKind, Put32(r.toId, Put32(r.flags, []))))))
  }

  function LinkAt(p: bytes, i: nat): Link
    requires i + LINK_SIZE <= |p|
  {
    Link(U32At(p, i), U32At(p, i + 4), U32At(p, i + 8), U32At(p, i + 12), U32At(p, i + 16), U32At(p, i + 20))
  }

  function ReadLink(p: bytes, i: nat): Option<(Link, nat)> {
    if i + LINK_SIZE <= |p| then Some((LinkAt(p, i), i + LINK_SIZE)) else None
  }

  const LINK_FORMAT: Format<Link> := Format(0x314B4E4C, 200000, WriteLink, Always, ReadLink)

  lemma LinkInverse(p: bytes, i: nat, r: Link)
    ensures |WriteLink(r)| == LINK_SIZE
    ensures i + LINK_SIZE <= |p| ==> (LinkAt(p, i) == r <==> p[i..i + LINK_SIZE] == WriteLink(r))
  {
    var t6: bytes := [];
    var t5 := Put32(r.flags, t6);
    var t4 := Put32(r.toId, t5);
    var t3 := Put32(r.toKind, t4);
    var t2 := Put32(r.fromId, t3);
    var t1 := Put32(r.fromKind, t2);
    if i + LINK_SIZE <= |p| {
      Take32(p, i, r.linkId, t1);
      Take32(p, i + 4, r.fromKind, t2);
      Take32(p, i + 8, r.fromId, t3);
      Take32(p, i + 12, r.toKind, t4);
      Take32(p, i + 16, r.toId, t5);
      Take32(p, i + 20, r.flags, t6);
    }
  }

  lemma LinkFormatExact()
    ensures FixedSize(LINK_FORMAT, LINK_SIZE) && Exact(LINK_FORMAT)
  {
    forall p, i, r ensures SizeIs(LINK_FORMAT, LINK_SIZE, r) && ReadsBack(LINK_FORMAT, LINK_SIZE, p, i, r) {
      LinkInverse(p, i, r);
    }
    forall p: bytes, i: nat ensures StepsBy(LINK_FORMAT, LINK_SIZE, p, i) {
      if i + LINK_SIZE <= |p| {
        LinkInverse(p, i, LinkAt(p, i));
      }
    }
    FixedIsExact(LINK_FORMAT, LINK_SIZE);
  }

  // ----- NOTE

  const NOTE_SIZE := 20

  function WriteNote(r: Note): bytes {
    Put32(r.noteId, Put32(r.targetKind, Put32(r.targetId, Put32(r.textNameId, Put32(r.flags, [])))))
  }

  function NoteAt(p: bytes, i: nat): Note
    requires i + NOTE_SIZE <= |p|
  {
    Note(U32At(p, i), U32At(p, i + 4), U32At(p, i + 8), U32At(p, i + 12), U32At(p, i + 16))
  }

  function ReadNote(p: bytes, i: nat): Option<(Note, nat)> {
    if i + NOTE_SIZE <= |p| then Some((NoteAt(p, i), i + NOTE_SIZE)) else None
  }

  const NOTE_FORMAT: Format<Note> := Format(0x3145544E, 50000, WriteNote, Always, ReadNote)

  lemma NoteInverse(p: bytes, i: nat, r: Note)
    ensures |WriteNote(r)| == NOTE_SIZE
    ensures i + NOTE_SIZE <= |p| ==> (NoteAt(p, i) == r <==> p[i..i + NOTE_SIZE] == WriteNote(r))
  {
    var t5: bytes := [];
    var t4 := Put32(r.flags, t5);
    var t3 := Put32(r.textNameId, t4);
    var t2 := Put32(r.targetId, t3);
    var t1 := Put32(r.targetKind, t2);
    if i + NOTE_SIZE <= |p| {
      Take32(p, i, r.noteId, t1);
      Take32(p, i + 4, r.targetKind, t2);
      Take32(p, i + 8, r.targetId, t3);
      Take32(p, i + 12, r.textNameId, t4);
      Take32(p, i + 16, r.flags, t5);
    }
  }

  lemma NoteFormatExact()
    ensures FixedSize(NOTE_FORMAT, NOTE_SIZE) && Exact(NOTE_FORMAT)
  {
    forall p, i, r ensures SizeIs(NOTE_FORMAT, NOTE_SIZE, r) && ReadsBack(NOTE_FORMAT, NOTE_SIZE, p, i, r) {
      NoteInverse(p, i, r);
    }
    forall p: bytes, i: nat ensures StepsBy(NOTE_FORMAT, NOTE_SIZE, p, i) {
      if i + NOTE_SIZE <= |p| {
        NoteInverse(p, i, NoteAt(p, i));
      }
    }
    FixedIsExact(NOTE_FORMAT, NOTE_SIZE);
  }

  // ----- SNAM: an id, a length-prefixed string and a pad byte to an even length

  function Pad(n: nat): bytes {
    if n % 2 == 1 then [0] else []
  }

  function WriteName(n: Name): bytes {
    Put32(n.id, Put16(|n.str|, n.str + Pad(|n.str|)))
  }

  /** `rv_read_lp_string`: the string at `i` and the position after it. */
  function ReadLpString(p: bytes, i: nat): Option<(bytes, nat)> {
    if i + 2 > |p| || i + 2 + U16At(p, i) > |p| then None
    else Some((p[i + 2..i + 2 + U16At(p, i)], i + 2 + U16At(p, i)))
  }

  function ReadName(p: bytes, i: nat): Option<(Name, nat)> {
    if i + 4 > |p| then None
    else
      var (str, end) :- ReadLpString(p, i + 4);
      if |str| % 2 == 0 then Some((Name(U32At(p, i), str), end))
      else if end < |p| then Some((Name(U32At(p, i), str), end + 1))
      else None
  }

  const NAME_FORMAT: Format<Name> := Format(0x314D414E, 100000, WriteName, Always, ReadName)

  lemma NameWritten(n: Name, p: bytes, i: nat)
    requires i <= |p|
    ensures WriteName(n) <= p[i..] ==> ReadName(p, i) == Some((n, i + |WriteName(n)|))
    ensures p[i..] < WriteName(n) ==> ReadName(p, i).None?
  {
    var tail := n.str + Pad(|n.str|);
    var t1 := Put16(|n.str|, tail);
    var w := WriteName(n);
    if w <= p[i..] {
      assert p[i..i + |w|] == p[i..][..|w|];
      Take32(p, i, n.id, t1);
      Take16(p, i + 4, |n.str|, tail);
      SplitAt(p, i + 6, |n.str|, i + |w|, n.str, Pad(|n.str|));
    } else if p[i..] < w && i + 6 <= |p| {
      assert p[i + 4..i + 6] == w[4..6] == Le16(|n.str|);
      Inverse16(p, i + 4, |n.str|);
    }
  }

  lemma NameFormatValid()
    ensures Valid(NAME_FORMAT)
  {
    forall n: Name, p: bytes, i: nat ensures Inverts(NAME_FORMAT, n, p, i) && NeedsAll(NAME_FORMAT, n, p, i) {
      if i <= |p| {
        NameWritten(n, p, i);
      }
    }
  }

  // ----- WAVE: a header and the 16-bit samples

  /** The block as it is stored: flags and payload checksum keep their low 16 bits. */
  function Stored(w: Wave): Wave {
    w.(flags := w.flags % TWO16, payloadCrc := w.payloadCrc % TWO16)
  }

  function Low16(s: i16): u16 {
    if s < 0 then s + TWO16 else s
  }

  function Signed16(v: u16): i16 {
    if v < 0x8000 then v else v - TWO16
  }

  function WriteSamples(s: seq<i16>): bytes {
    if s == [] then [] else WriteSamples(s[..|s| - 1]) + Le16(Low16(s[|s| - 1]))
  }

  function SamplesAt(p: bytes, i: nat, n: nat): (s: seq<i16>)
    requires i + 2 * n <= |p|
    ensures |s| == n
  {
    seq(n, k requires 0 <= k < n => Signed16(U16At(p, i + 2 * k)))
  }

  datatype WaveHead = WaveHead(blockId: u32, windowId: u32, count: u32, startM: f32, stepM: f32, flags: u16, crc: u16)

  function HeadOf(w: Wave): WaveHead {
    WaveHead(w.blockId, w.windowId, |w.samples|, w.startM, w.stepM, w.flags % TWO16, w.payloadCrc % TWO16)
  }

  function WriteHead(h: WaveHead, rest: bytes): bytes {
    Put32(h.blockId, Put32(h.windowId, Put32(h.count, Put32(h.startM, Put32(h.stepM, Put16(h.flags,
    Put16(h.crc, rest)))))))
  }

  function HeadAt(p: bytes, i: nat): WaveHead
    requires i + 24 <= |p|
  {
    WaveHead(U32At(p, i), U32At(p, i + 4), U32At(p, i + 8), U32At(p, i + 12), U32At(p, i + 16), U16At(p, i + 20),
             U16At(p, i + 22))
  }

  function WriteWave(w: Wave): bytes {
    WriteHead(HeadOf(w), WriteSamples(w.samples))
  }

  const MAX_SAMPLES := 2000000

  predicate SamplesAllowed(w: Wave) {
    |w.samples| <= MAX_SAMPLES
  }

  function ReadWave(p: bytes, i: nat): Option<(Wave, nat)> {
    if i + 24 > |p| then None
    else
      var h := HeadAt(p, i);
      if h.count > MAX_SAMPLES || i + 24 + 2 * h.count > |p| then None
      else
        Some((Wave(h.blockId, h.windowId, h.startM, h.stepM, SamplesAt(p, i + 24, h.count), h.flags, h.crc),
              i + 24 + 2 * h.count))
  }

  lemma {:induction false} SamplesLength(s: seq<i16>)
    ensures |WriteSamples(s)| == 2 * |s|
  {
    if s != [] {
      SamplesLength(s[..|s| - 1]);
    }
  }

  lemma {:induction false} SamplesInverse(p: bytes, i: nat, s: seq<i16>)
    requires i + 2 * |s| <= |p|
    ensures SamplesAt(p, i, |s|) == s <==> p[i..i + 2 * |s|] == WriteSamples(s)
  {
    hide Le16, U16At;
    SamplesLength(s);
    if s != [] {
      var m := |s| - 1;
      SamplesInverse(p, i, s[..m]);
      SamplesLength(s[..m]);
      SplitAt(p, i, 2 * m, i + 2 * m + 2, WriteSamples(s[..m]), Le16(Low16(s[m])));
      Inverse16(p, i + 2 * m, Low16(s[m]));
      var t := SamplesAt(p, i, |s|);
      assert t[..m] == SamplesAt(p, i, m);
      assert t == t[..m] + [t[m]] && s == s[..m] + [s[m]];
      assert t == s <==> t[..m] == s[..m] && t[m] == s[m];
    }
  }

  lemma HeadInverse(p: bytes, i: nat, h: WaveHead, rest: bytes)
    ensures |WriteHead(h, rest)| == 24 + |rest|
    ensures i + 24 + |rest| <= |p| ==>
              (p[i..i + 24 + |rest|] == WriteHead(h, rest) <==>
               HeadAt(p, i) == h && p[i + 24..i + 24 + |rest|] == rest)
  {
    var t6 := Put16(h.crc, rest);
    var t5 := Put16(h.flags, t6);
    var t4 := Put32(h.stepM, t5);
    var t3 := Put32(h.startM, t4);
    var t2 := Put32(h.count, t3);
    var t1 := Put32(h.windowId, t2);
    if i + 24 + |rest| <= |p| {
      Take32(p, i, h.blockId, t1);
      Take32(p, i + 4, h.windowId, t2);
      Take32(p, i + 8, h.count, t3);
      Take32(p, i + 12, h.startM, t4);
      Take32(p, i + 16, h.stepM, t5);
      Take16(p, i + 20, h.flags, t6);
      Take16(p, i + 22, h.crc, rest);
    }
  }

  lemma WaveLength(w: Wave)
    ensures |WriteWave(w)| == 24 + 2 * |w.samples|
  {
    SamplesLength(w.samples);
    HeadInverse([], 0, HeadOf(w), WriteSamples(w.samples));
  }

  /** A block and its bytes determine each other, up to the 16 bits kept of flags and checksum. */
  lemma WaveInverse(p: bytes, i: nat, w: Wave)
    requires i + |WriteWave(w)| <= |p|
    ensures |WriteWave(w)| == 24 + 2 * |w.samples|
    ensures p[i..i + |WriteWave(w)|] == WriteWave(w) <==>
            HeadAt(p, i) == HeadOf(w) && SamplesAt(p, i + 24, |w.samples|) == w.samples
  {
    WaveLength(w);
    HeadInverse(p, i, HeadOf(w), WriteSamples(w.samples));
    SamplesLength(w.samples);
    SamplesInverse(p, i + 24, w.samples);
  }

  /** Blocks whose flags and checksum fit the 16 bits they are stored in. */
  type StoredWave = w: Wave | w.flags < TWO16 && w.payloadCrc < TWO16 witness Wave(0, 0, 0, 0, [], 0, 0)

  function WriteStoredWave(w: StoredWave): bytes {
    WriteWave(w)
  }

  function ReadStoredWave(p: bytes, i: nat): Option<(StoredWave, nat)> {
    var (w, next) :- ReadWave(p, i);
    Some((w, next))
  }

  const WAVE_FORMAT: Format<StoredWave> :=
    Format(0x31455641, 50000, WriteStoredWave, w => SamplesAllowed(w), ReadStoredWave)

  lemma WaveReadBack(w: StoredWave, p: bytes, i: nat)
    requires i <= |p| && WriteWave(w) <= p[i..]
    ensures ReadWave(p, i) == if SamplesAllowed(w) then Some((w, i + |WriteWave(w)|)) else None
  {
    hide WriteWave;
    var n := |WriteWave(w)|;
    assert p[i..i + n] == p[i..][..n];
    WaveInverse(p, i, w);
  }

  lemma WaveCutShort(w: StoredWave, p: bytes, i: nat)
    requires i <= |p| && p[i..] < WriteWave(w)
    ensures ReadWave(p, i).None?
  {
    hide WriteWave, U32At;
    var b := WriteWave(w);
    WaveLength(w);
    if i + 24 <= |p| {
      assert b[0..|b|] == b;
      WaveInverse(b, 0, w);
      assert p[i + 8..i + 12] == p[i..][8..12] == b[8..12];
      Inverse32(b, 8, |w.samples|);
      Inverse32(p, i + 8, |w.samples|);
    }
  }

  lemma StoredWaveFits(p: bytes, i: nat)
    requires ReadWave(p, i).Some?
    ensures var (w, next) := ReadWave(p, i).value;
            SamplesAllowed(w) && next == i + |WriteWave(w)| <= |p| && p[i..next] == WriteWave(w)
  {
    hide WriteWave;
    var (w, next) := ReadWave(p, i).value;
    WaveLength(w);
    WaveInverse(p, i, w);
  }

  lemma WaveFormatExact()
    ensures Exact(WAVE_FORMAT)
  {
    hide ReadWave, WriteWave;
    forall w: StoredWave, p: bytes, i: nat ensures Inverts(WAVE_FORMAT, w, p, i) {
      if i <= |p| && WriteWave(w) <= p[i..] {
        WaveReadBack(w, p, i);
      }
    }
    forall w: StoredWave, p: bytes, i: nat ensures NeedsAll(WAVE_FORMAT, w, p, i) {
      if i <= |p| && p[i..] < WriteWave(w) {
        WaveCutShort(w, p, i);
      }
    }
    forall p: bytes, i: nat ensures Fits(WAVE_FORMAT, p, i) && ReadsBytes(WAVE_FORMAT, p, i) {
      if ReadWave(p, i).Some? {
        StoredWaveFits(p, i);
      }
    }
  }

  // ----- SUMM: a single record of forty bytes

  const SUMM_MAGIC: u32 := 0x314D4D55

  function WriteSumm(s: Summ): bytes {
    Put32(SUMM_MAGIC, Put32(s.routeCount, Put32(s.windowCount, Put32(s.markerCount, Put32(s.waveCount,
    Put32(s.nameCount, Put32(s.packageCrc, Put64(s.payloadBytes, Put32(s.flags, [])))))))))
  }

  function SummAt(p: bytes, i: nat): Summ
    requires i + 40 <= |p|
  {
    Summ(U32At(p, i + 4), U32At(p, i + 8), U32At(p, i + 12), U32At(p, i + 16), U32At(p, i + 20), U32At(p, i + 24),
         U64At(p, i + 28), U32At(p, i + 36))
  }

  function DecodeSumm(p: bytes): Option<Summ> {
    if |p| < 40 || U32At(p, 0) != SUMM_MAGIC then None else Some(SummAt(p, 0))
  }

  lemma SummFields(p: bytes, i: nat, s: Summ)
    ensures |WriteSumm(s)| == 40
    ensures i + 40 <= |p| ==>
              (U32At(p, i) == SUMM_MAGIC && SummAt(p, i) == s <==> p[i..i + 40] == WriteSumm(s))
  {
    var t8 := Put32(s.flags, []);
    var t7 := Put64(s.payloadBytes, t8);
    var t6 := Put32(s.packageCrc, t7);
    var t5 := Put32(s.nameCount, t6);
    var t4 := Put32(s.waveCount, t5);
    var t3 := Put32(s.markerCount, t4);
    var t2 := Put32(s.windowCount, t3);
    var t1 := Put32(s.routeCount, t2);
    if i + 40 <= |p| {
      Take32(p, i, SUMM_MAGIC, t1);
      Take32(p, i + 4, s.routeCount, t2);
      Take32(p, i + 8, s.windowCount, t3);
      Take32(p, i + 12, s.markerCount, t4);
      Take32(p, i + 16, s.waveCount, t5);
      Take32(p, i + 20, s.nameCount, t6);
      Take32(p, i + 24, s.packageCrc, t7);
      Take64(p, i + 28, s.payloadBytes, t8);
      Take32(p, i + 36, s.flags, []);
    }
  }

  lemma SummInverse(p: bytes, s: Summ)
    ensures |WriteSumm(s)| == 40
    ensures DecodeSumm(p) == Some(s) <==> WriteSumm(s) <= p
  {
    SummFields(p, 0, s);
    if |p| >= 40 {
      assert p[0..40] == p[..40];
    }
  }
}
