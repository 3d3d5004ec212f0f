/** The byte layout of every section, of the header and of the directory, in plain positions and sums.

    Nothing here refers to how records are written or read: a number at a position is the sum of its bytes, the lowest
    first, and a magic word is its four characters. */
module Layout {
  import opened Types
  import opened Endian
  import opened TableFormat
  import opened Records

  function Num2(p: bytes, k: nat): nat
    requires k + 2 <= |p|
  {
    p[k] as int + 0x100 * p[k + 1] as int
  }

  function Num4(p: bytes, k: nat): nat
    requires k + 4 <= |p|
  {
    p[k] as int + 0x100 * p[k + 1] as int + 0x1_0000 * p[k + 2] as int + 0x100_0000 * p[k + 3] as int
  }

  function Num8(p: bytes, k: nat): nat
    requires k + 8 <= |p|
  {
    p[k] as int + 0x100 * p[k + 1] as int + 0x1_0000 * p[k + 2] as int + 0x100_0000 * p[k + 3] as int
    + 0x1_0000_0000 * p[k + 4] as int + 0x100_0000_0000 * p[k + 5] as int
    + 0x1_0000_0000_0000 * p[k + 6] as int + 0x100_0000_0000_0000 * p[k + 7] as int
  }

  /** Four characters at a position. */
  predicate Chars(p: bytes, k: nat, word: string) {
    k + 4 <= |p| && |word| == 4 && forall j | 0 <= j < 4 :: p[k + j] == word[j] as int
  }

  lemma NumsRead(p: bytes, k: nat)
    ensures k + 2 <= |p| ==> U16At(p, k) == Num2(p, k)
    ensures k + 4 <= |p| ==> U32At(p, k) == Num4(p, k)
    ensures k + 8 <= |p| ==> U64At(p, k) == Num8(p, k)
  {
  }

  predicate Spells(word: string, n: u32) {
    && |word| == 4 && (forall j | 0 <= j < 4 :: word[j] as int < 0x100)
    && n == word[0] as int + 0x100 * word[1] as int + 0x1_0000 * word[2] as int + 0x100_0000 * word[3] as int
  }

  /** The characters of a word are the bytes of its number. */
  lemma WordIs(p: bytes, k: nat, word: string, n: u32)
    requires k + 4 <= |p| && Spells(word, n)
    ensures U32At(p, k) == n <==> Chars(p, k, word)
  {
    NumsRead(p, k);
    if Num4(p, k) == n {
      SameDigits(p[k], p[k + 1], p[k + 2], p[k + 3], word[0] as int, word[1] as int, word[2] as int, word[3] as int);
    }
  }

  lemma SameDigits(a0: u8, a1: u8, a2: u8, a3: u8, b0: u8, b1: u8, b2: u8, b3: u8)
    requires a0 + 0x100 * a1 + 0x1_0000 * a2 + 0x100_0000 * a3 == b0 + 0x100 * b1 + 0x1_0000 * b2 + 0x100_0000 * b3
    ensures a0 == b0 && a1 == b1 && a2 == b2 && a3 == b3
  {
  }

  // ----- tables in general

  /** Where record `i` starts when record `j` takes `len(xs[j])` bytes. */
  function Start<T>(len: T -> nat, xs: seq<T>, i: nat): nat
    requires i <= |xs|
  {
    if i == 0 then 8 else Start(len, xs, i - 1) + len(xs[i - 1])
  }

  /** A record takes `len` bytes, written and read. */
  ghost predicate Takes<T(!new)>(f: Format<T>, len: T -> nat) {
    && (forall x :: |f.enc(x)| == len(x))
    && (forall p, k: nat :: f.one(p, k).Some? ==> f.one(p, k).value.1 == k + len(f.one(p, k).value.0))
  }

  ghost predicate RowAt<T>(f: Format<T>, len: T -> nat, p: bytes, xs: seq<T>, i: nat)
    requires i < |xs|
  {
    f.one(p, Start(len, xs, i)) == Some((xs[i], Start(len, xs, i) + len(xs[i])))
  }

  lemma {:induction false} ScanRows<T(!new)>(f: Format<T>, len: T -> nat, p: bytes, xs: seq<T>, n: nat)
    requires n <= |xs| && forall i | 0 <= i < n :: RowAt(f, len, p, xs, i)
    ensures Scan(f, p, n) == Some((xs[..n], Start(len, xs, n)))
  {
    if n > 0 {
      ScanRows(f, len, p, xs, n - 1);
      assert RowAt(f, len, p, xs, n - 1);
      assert xs[..n] == xs[..n - 1] + [xs[n - 1]];
    }
  }

  lemma {:induction false} RowsScanned<T(!new)>(f: Format<T>, len: T -> nat, p: bytes, xs: seq<T>, n: nat)
    requires Takes(f, len) && n <= |xs| && Scan(f, p, n).Some? && Scan(f, p, n).value.0 == xs[..n]
    ensures Scan(f, p, n).value.1 == Start(len, xs, n)
    ensures forall i | 0 <= i < n :: RowAt(f, len, p, xs, i)
  {
    if n > 0 {
      var (ys, pos) := Scan(f, p, n - 1).value;
      var (y, _) := f.one(p, pos).value;
      ScanCount(f, p, n - 1);
      assert ys + [y] == xs[..n] == xs[..n - 1] + [xs[n - 1]];
      assert ys == (ys + [y])[..n - 1] == xs[..n - 1] && y == (ys + [y])[n - 1] == xs[n - 1];
      RowsScanned(f, len, p, xs, n - 1);
    }
  }

  /** What a payload must hold to be read as these records. */
  lemma TableRead<T(!new)>(f: Format<T>, len: T -> nat, p: bytes, xs: seq<T>)
    requires Takes(f, len)
    ensures DecodeTable(f, p) == Some(xs) <==>
            && |p| >= 8 && U32At(p, 0) == f.magic && Num4(p, 4) == |xs| <= f.limit
            && forall i | 0 <= i < |xs| :: RowAt(f, len, p, xs, i)
  {
    hide Num4, U32At, RowAt;
    if |p| >= 8 {
      NumsRead(p, 4);
      assert xs[..|xs|] == xs;
      if DecodeTable(f, p) == Some(xs) {
        ScanCount(f, p, U32At(p, 4));
        RowsScanned(f, len, p, xs, |xs|);
      } else if Num4(p, 4) == |xs| && forall i | 0 <= i < |xs| :: RowAt(f, len, p, xs, i) {
        ScanRows(f, len, p, xs, |xs|);
      }
    }
  }

  lemma {:induction false} ScanCount<T>(f: Format<T>, p: bytes, n: nat)
    requires Scan(f, p, n).Some?
    ensures |Scan(f, p, n).value.0| == n
  {
    if n > 0 {
      ScanCount(f, p, n - 1);
    }
  }

  lemma {:induction false} EncodedStart<T(!new)>(f: Format<T>, len: T -> nat, xs: seq<T>, i: nat)
    requires Takes(f, len) && i <= |xs|
    ensures 8 + |EncodeAll(f.enc, xs[..i])| == Start(len, xs, i)
  {
    if i > 0 {
      EncodedStart(f, len, xs, i - 1);
      EncodeAllAt(f.enc, xs, i - 1);
    }
  }

  /** What a written table holds: its magic word, its count, and each record at its start. */
  lemma TableWritten<T(!new)>(f: Format<T>, len: T -> nat, xs: seq<T>, i: nat)
    requires Takes(f, len) && i < |xs| < TWO32
    ensures var e := EncodeTable(f, xs);
            var k := Start(len, xs, i);
            k + len(xs[i]) <= |e| && e[k..k + len(xs[i])] == f.enc(xs[i])
  {
    EncodedStart(f, len, xs, i);
    EncodedStart(f, len, xs, i + 1);
    RecordAt(f, xs, i);
  }

  lemma HeadWritten<T(!new)>(f: Format<T>, len: T -> nat, xs: seq<T>)
    requires Takes(f, len) && |xs| < TWO32
    ensures var e := EncodeTable(f, xs);
            |e| == Start(len, xs, |xs|) >= 8 && U32At(e, 0) == f.magic && Num4(e, 4) == |xs|
  {
    var e := EncodeTable(f, xs);
    EncodedStart(f, len, xs, |xs|);
    assert xs[..|xs|] == xs;
    assert e[0..4] == Le32(f.magic) && e[4..8] == Le32(|xs|);
    Inverse32(e, 0, f.magic);
    Inverse32(e, 4, |xs|);
    NumsRead(e, 4);
  }

  lemma {:induction false} FixedStart<T(!new)>(len: T -> nat, size: nat, xs: seq<T>, i: nat)
    requires i <= |xs| && forall x :: len(x) == size
    ensures Start(len, xs, i) == 8 + size * i
  {
    if i > 0 {
      FixedStart(len, size, xs, i - 1);
      assert size * i == size * (i - 1) + size;
    }
  }

  lemma FixedTakes<T(!new)>(f: Format<T>, len: T -> nat, size: nat)
    requires FixedSize(f, size) && forall x :: len(x) == size
    ensures Takes(f, len)
  {
    forall x ensures |f.enc(x)| == len(x) {
      assert SizeIs(f, size, x);
    }
    forall p, k: nat | f.one(p, k).Some? ensures f.one(p, k).value.1 == k + len(f.one(p, k).value.0) {
      assert StepsBy(f, size, p, k);
    }
  }

  /** Both directions for records of one size. */
  lemma FixedRead<T(!new)>(f: Format<T>, size: nat, p: bytes, xs: seq<T>)
    requires FixedSize(f, size)
    ensures DecodeTable(f, p) == Some(xs) <==>
            && |p| >= 8 && U32At(p, 0) == f.magic && Num4(p, 4) == |xs| <= f.limit
            && forall i | 0 <= i < |xs| :: f.one(p, 8 + size * i) == Some((xs[i], 8 + size * i + size))
  {
    hide Num4, U32At;
    var len := (x: T) => size;
    FixedTakes(f, len, size);
    TableRead(f, len, p, xs);
    hide FixedSize, Takes, DecodeTable;
    forall i | 0 <= i < |xs|
      ensures RowAt(f, len, p, xs, i) <==> f.one(p, 8 + size * i) == Some((xs[i], 8 + size * i + size))
    {
      FixedStart(len, size, xs, i);
    }
  }

  lemma FixedWritten<T(!new)>(f: Format<T>, size: nat, xs: seq<T>, i: nat)
    requires FixedSize(f, size) && |xs| < TWO32
    ensures var e := EncodeTable(f, xs);
            && |e| == 8 + size * |xs| && U32At(e, 0) == f.magic && Num4(e, 4) == |xs|
            && (i < |xs| ==> f.one(e, 8 + size * i) == Some((xs[i], 8 + size * i + size)))
  {
    hide Num4, U32At, EncodeTable;
    var len, e := (x: T) => size, EncodeTable(f, xs);
    FixedTakes(f, len, size);
    HeadWritten(f, len, xs);
    FixedStart(len, size, xs, |xs|);
    if i < |xs| {
      TableWritten(f, len, xs, i);
      FixedStart(len, size, xs, i);
      assert ReadsBack(f, size, e, 8 + size * i, xs[i]);
    }
  }

  lemma ShortHasNoWord(p: bytes, word: string)
    ensures Chars(p, 0, word) ==> |p| >= 4
  {
  }

  // ----- ROUT

  ghost predicate RouteBytes(p: bytes, k: nat, r: Route) {
    && k + 24 <= |p|
    && r.routeId == Num4(p, k) && r.siteNameId == Num4(p, k + 4) && r.farNameId == Num4(p, k + 8)
    && r.lengthKm == Num4(p, k + 12) && r.fiberCount == Num4(p, k + 16) && r.flags == Num4(p, k + 20)
  }

  lemma RouteBytesRead(p: bytes, k: nat, r: Route)
    ensures ROUTE_FORMAT.one(p, k) == Some((r, k + 24)) <==> RouteBytes(p, k, r)
  {
    hide U16At, U32At, U64At, Num2, Num4, Num8;
    NumsRead(p, k);
    NumsRead(p, k + 4);
    NumsRead(p, k + 8);
    NumsRead(p, k + 12);
    NumsRead(p, k + 16);
    NumsRead(p, k + 20);
  }

  /** The magic word, the count and every field of every row. */
  ghost predicate RouteRows(p: bytes, rs: seq<Route>) {
    && Chars(p, 0, "ROT1") && |p| >= 8 && Num4(p, 4) == |rs|
    && forall i | 0 <= i < |rs| :: RouteBytes(p, 8 + 24 * i, rs[i])
  }

  /** What a reader accepts. */
  ghost predicate RouteTable(p: bytes, rs: seq<Route>) {
    RouteRows(p, rs) && |rs| <= 50000
  }

  lemma RoutesRead(p: bytes, rs: seq<Route>)
    ensures DecodeTable(ROUTE_FORMAT, p) == Some(rs) <==> RouteTable(p, rs)
  {
    hide RouteBytes, Chars;
    RouteFormatExact();
    FixedRead(ROUTE_FORMAT, 24, p, rs);
    if |p| >= 8 {
      WordIs(p, 0, "ROT1", 0x31544F52);
    }
    ShortHasNoWord(p, "ROT1");
    forall i | 0 <= i < |rs|
      ensures ROUTE_FORMAT.one(p, 8 + 24 * i) == Some((rs[i], 8 + 24 * i + 24)) <==>
              RouteBytes(p, 8 + 24 * i, rs[i])
    {
      RouteBytesRead(p, 8 + 24 * i, rs[i]);
    }
  }

  lemma RoutesWritten(rs: seq<Route>)
    requires |rs| < TWO32
    ensures var e := EncodeTable(ROUTE_FORMAT, rs); |e| == 8 + 24 * |rs| && RouteRows(e, rs)
  {
    hide RouteBytes, Chars, EncodeTable;
    RouteFormatExact();
    var e := EncodeTable(ROUTE_FORMAT, rs);
    FixedWritten(ROUTE_FORMAT, 24, rs, |rs|);
    WordIs(e, 0, "ROT1", 0x31544F52);
    forall i | 0 <= i < |rs| ensures RouteBytes(e, 8 + 24 * i, rs[i]) {
      FixedWritten(ROUTE_FORMAT, 24, rs, i);
      RouteBytesRead(e, 8 + 24 * i, rs[i]);
    }
  }

  // ----- INST

  ghost predicate InstBytes(p: bytes, k: nat, r: Inst) {
    && k + 24 <= |p|
    && r.instId == Num4(p, k) && r.modelNameId == Num4(p, k + 4) && r.serialNameId == Num4(p, k + 8)
    && r.wavelengthNm == Num2(p, k + 12) && r.pulseDefaultNs == Num2(p, k + 14) && r.dynamicRangeDb == Num4(p, k + 16)
    && r.flags == Num4(p, k + 20)
  }

  lemma InstBytesRead(p: bytes, k: nat, r: Inst)
    ensures INST_FORMAT.one(p, k) == Some((r, k + 24)) <==> InstBytes(p, k, r)
  {
    hide U16At, U32At, U64At, Num2, Num4, Num8;
    NumsRead(p, k);
    NumsRead(p, k + 4);
    NumsRead(p, k + 8);
    NumsRead(p, k + 12);
    NumsRead(p, k + 14);
    NumsRead(p, k + 16);
    NumsRead(p, k + 20);
  }

  /** The magic word, the count and every field of every row. */
  ghost predicate InstRows(p: bytes, rs: seq<Inst>) {
    && Chars(p, 0, "NST1") && |p| >= 8 && Num4(p, 4) == |rs|
    && forall i | 0 <= i < |rs| :: InstBytes(p, 8 + 24 * i, rs[i])
  }

  /** What a reader accepts. */
  ghost predicate InstTable(p: bytes, rs: seq<Inst>) {
    InstRows(p, rs) && |rs| <= 10000
  }

  lemma InstsRead(p: bytes, rs: seq<Inst>)
    ensures DecodeTable(INST_FORMAT, p) == Some(rs) <==> InstTable(p, rs)
  {
    hide InstBytes, Chars;
    InstFormatExact();
    FixedRead(INST_FORMAT, 24, p, rs);
    if |p| >= 8 {
      WordIs(p, 0, "NST1", 0x3154534E);
    }
    ShortHasNoWord(p, "NST1");
    forall i | 0 <= i < |rs|
      ensures INST_FORMAT.one(p, 8 + 24 * i) == Some((rs[i], 8 + 24 * i + 24)) <==>
              InstBytes(p, 8 + 24 * i, rs[i])
    {
      InstBytesRead(p, 8 + 24 * i, rs[i]);
    }
  }

  lemma InstsWritten(rs: seq<Inst>)
    requires |rs| < TWO32
    ensures var e := EncodeTable(INST_FORMAT, rs); |e| == 8 + 24 * |rs| && InstRows(e, rs)
  {
    hide InstBytes, Chars, EncodeTable;
    InstFormatExact();
    var e := EncodeTable(INST_FORMAT, rs);
    FixedWritten(INST_FORMAT, 24, rs, |rs|);
    WordIs(e, 0, "NST1", 0x3154534E);
    forall i | 0 <= i < |rs| ensures InstBytes(e, 8 + 24 * i, rs[i]) {
      FixedWritten(INST_FORMAT, 24, rs, i);
      InstBytesRead(e, 8 + 24 * i, rs[i]);
    }
  }

  // ----- CLBR

  ghost predicate CalibBytes(p: bytes, k: nat, r: Calib) {
    && k + 32 <= |p|
    && r.calibId == Num4(p, k) && r.instId == Num4(p, k + 4) && r.calibratedUnix == Num8(p, k + 8)
    && r.refractiveIndex == Num4(p, k + 16) && r.backscatterCoef == Num4(p, k + 20)
    && r.spliceLossDb == Num4(p, k + 24) && r.flags == Num4(p, k + 28)
  }

  lemma CalibBytesRead(p: bytes, k: nat, r: Calib)
    ensures CALIB_FORMAT.one(p, k) == Some((r, k + 32)) <==> CalibBytes(p, k, r)
  {
    hide U16At, U32At, U64At, Num2, Num4, Num8;
    NumsRead(p, k);
    NumsRead(p, k + 4);
    NumsRead(p, k + 8);
    NumsRead(p, k + 16);
    NumsRead(p, k + 20);
    NumsRead(p, k + 24);
    NumsRead(p, k + 28);
  }

  /** The magic word, the count and every field of every row. */
  ghost predicate CalibRows(p: bytes, rs: seq<Calib>) {
    && Chars(p, 0, "CLB1") && |p| >= 8 && Num4(p, 4) == |rs|
    && forall i | 0 <= i < |rs| :: CalibBytes(p, 8 + 32 * i, rs[i])
  }

  /** What a reader accepts. */
  ghost predicate CalibTable(p: bytes, rs: seq<Calib>) {
    CalibRows(p, rs) && |rs| <= 10000
  }

  lemma CalibsRead(p: bytes, rs: seq<Calib>)
    ensures DecodeTable(CALIB_FORMAT, p) == Some(rs) <==> CalibTable(p, rs)
  {
    hide CalibBytes, Chars;
    CalibFormatExact();
    FixedRead(CALIB_FORMAT, 32, p, rs);
    if |p| >= 8 {
      WordIs(p, 0, "CLB1", 0x31424C43);
    }
    ShortHasNoWord(p, "CLB1");
    forall i | 0 <= i < |rs|
      ensures CALIB_FORMAT.one(p, 8 + 32 * i) == Some((rs[i], 8 + 32 * i + 32)) <==>
              CalibBytes(p, 8 + 32 * i, rs[i])
    {
      CalibBytesRead(p, 8 + 32 * i, rs[i]);
    }
  }

  lemma CalibsWritten(rs: seq<Calib>)
    requires |rs| < TWO32
    ensures var e := EncodeTable(CALIB_FORMAT, rs); |e| == 8 + 32 * |rs| && CalibRows(e, rs)
  {
    hide CalibBytes, Chars, EncodeTable;
    CalibFormatExact();
    var e := EncodeTable(CALIB_FORMAT, rs);
    FixedWritten(CALIB_FORMAT, 32, rs, |rs|);
    WordIs(e, 0, "CLB1", 0x31424C43);
    forall i | 0 <= i < |rs| ensures CalibBytes(e, 8 + 32 * i, rs[i]) {
      FixedWritten(CALIB_FORMAT, 32, rs, i);
      CalibBytesRead(e, 8 + 32 * i, rs[i]);
    }
  }

  // ----- WIND

  ghost predicate WindowBytes(p: bytes, k: nat, r: Window) {
    && k + 40 <= |p|
    && r.windowId == Num4(p, k) && r.routeId == Num4(p, k + 4) && r.instId == Num4(p, k + 8)
    && r.calibId == Num4(p, k + 12) && r.waveBlockId == Num4(p, k + 16) && r.pulseNs == Num4(p, k + 20)
    && r.rangeKm == Num4(p, k + 24) && r.resolutionM == Num4(p, k + 28) && r.acquiredUnix == Num8(p, k + 32)
  }

  lemma WindowBytesRead(p: bytes, k: nat, r: Window)
    ensures WINDOW_FORMAT.one(p, k) == Some((r, k + 40)) <==> WindowBytes(p, k, r)
  {
    hide U16At, U32At, U64At, Num2, Num4, Num8;
    NumsRead(p, k);
    NumsRead(p, k + 4);
    NumsRead(p, k + 8);
    NumsRead(p, k + 12);
    NumsRead(p, k + 16);
    NumsRead(p, k + 20);
    NumsRead(p, k + 24);
    NumsRead(p, k + 28);
    NumsRead(p, k + 32);
  }

  /** The magic word, the count and every field of every row. */
  ghost predicate WindowRows(p: bytes, rs: seq<Window>) {
    && Chars(p, 0, "IND1") && |p| >= 8 && Num4(p, 4) == |rs|
    && forall i | 0 <= i < |rs| :: WindowBytes(p, 8 + 40 * i, rs[i])
  }

  /** What a reader accepts. */
  ghost predicate WindowTable(p: bytes, rs: seq<Window>) {
    WindowRows(p, rs) && |rs| <= 200000
  }

  lemma WindowsRead(p: bytes, rs: seq<Window>)
    ensures DecodeTable(WINDOW_FORMAT, p) == Some(rs) <==> WindowTable(p, rs)
  {
    hide WindowBytes, Chars;
    WindowFormatExact();
    FixedRead(WINDOW_FORMAT, 40, p, rs);
    if |p| >= 8 {
      WordIs(p, 0, "IND1", 0x31444E49);
    }
    ShortHasNoWord(p, "IND1");
    forall i | 0 <= i < |rs|
      ensures WINDOW_FORMAT.one(p, 8 + 40 * i) == Some((rs[i], 8 + 40 * i + 40)) <==>
              WindowBytes(p, 8 + 40 * i, rs[i])
    {
      WindowBytesRead(p, 8 + 40 * i, rs[i]);
    }
  }

  lemma WindowsWritten(rs: seq<Window>)
    requires |rs| < TWO32
    ensures var e := EncodeTable(WINDOW_FORMAT, rs); |e| == 8 + 40 * |rs| && WindowRows(e, rs)
  {
    hide WindowBytes, Chars, EncodeTable;
    WindowFormatExact();
    var e := EncodeTable(WINDOW_FORMAT, rs);
    FixedWritten(WINDOW_FORMAT, 40, rs, |rs|);
    WordIs(e, 0, "IND1", 0x31444E49);
    forall i | 0 <= i < |rs| ensures WindowBytes(e, 8 + 40 * i, rs[i]) {
      FixedWritten(WINDOW_FORMAT, 40, rs, i);
      WindowBytesRead(e, 8 + 40 * i, rs[i]);
    }
  }

  // ----- MARK

  ghost predicate MarkerBytes(p: bytes, k: nat, r: Marker) {
    && k + 32 <= |p|
    && r.markerId == Num4(p, k) && r.windowId == Num4(p, k + 4) && r.labelNameId == Num4(p, k + 8)
    && r.distanceM == Num4(p, k + 12) && r.lossDb == Num4(p, k + 16) && r.reflectanceDb == Num4(p, k + 20)
    && r.kind == Num2(p, k + 24) && r.severity == Num2(p, k + 26) && r.flags == Num4(p, k + 28)
  }

  lemma MarkerBytesRead(p: bytes, k: nat, r: Marker)
    ensures MARKER_FORMAT.one(p, k) == Some((r, k + 32)) <==> MarkerBytes(p, k, r)
  {
    hide U16At, U32At, U64At, Num2, Num4, Num8;
    NumsRead(p, k);
    NumsRead(p, k + 4);
    NumsRead(p, k + 8);
    NumsRead(p, k + 12);
    NumsRead(p, k + 16);
    NumsRead(p, k + 20);
    NumsRead(p, k + 24);
    NumsRead(p, k + 26);
    NumsRead(p, k + 28);
  }

  /** The magic word, the count and every field of every row. */
  ghost predicate MarkerRows(p: bytes, rs: seq<Marker>) {
    && Chars(p, 0, "MRK1") && |p| >= 8 && Num4(p, 4) == |rs|
    && forall i | 0 <= i < |rs| :: MarkerBytes(p, 8 + 32 * i, rs[i])
  }

  /** What a reader accepts. */
  ghost predicate MarkerTable(p: bytes, rs: seq<Marker>) {
    MarkerRows(p, rs) && |rs| <= 500000
  }

  lemma MarkersRead(p: bytes, rs: seq<Marker>)
    ensures DecodeTable(MARKER_FORMAT, p) == Some(rs) <==> MarkerTable(p, rs)
  {
    hide MarkerBytes, Chars;
    MarkerFormatExact();
    FixedRead(MARKER_FORMAT, 32, p, rs);
    if |p| >= 8 {
      WordIs(p, 0, "MRK1", 0x314B524D);
    }
    ShortHasNoWord(p, "MRK1");
    forall i | 0 <= i < |rs|
      ensures MARKER_FORMAT.one(p, 8 + 32 * i) == Some((rs[i], 8 + 32 * i + 32)) <==>
              MarkerBytes(p, 8 + 32 * i, rs[i])
    {
      MarkerBytesRead(p, 8 + 32 * i, rs[i]);
    }
  }

  lemma MarkersWritten(rs: seq<Marker>)
    requires |rs| < TWO32
    ensures var e := EncodeTable(MARKER_FORMAT, rs); |e| == 8 + 32 * |rs| && MarkerRows(e, rs)
  {
    hide MarkerBytes, Chars, EncodeTable;
    MarkerFormatExact();
    var e := EncodeTable(MARKER_FORMAT, rs);
    FixedWritten(MARKER_FORMAT, 32, rs, |rs|);
    WordIs(e, 0, "MRK1", 0x314B524D);
    forall i | 0 <= i < |rs| ensures MarkerBytes(e, 8 + 32 * i, rs[i]) {
      FixedWritten(MARKER_FORMAT, 32, rs, i);
      MarkerBytesRead(e, 8 + 32 * i, rs[i]);
    }
  }

  // ----- LINK

  ghost predicate LinkBytes(p: bytes, k: nat, r: Link) {
    && k + 24 <= |p|
    && r.linkId == Num4(p, k) && r.fromKind == Num4(p, k + 4) && r.fromId == Num4(p, k + 8)
    && r.toKind == Num4(p, k + 12) && r.toId == Num4(p, k + 16) && r.flags == Num4(p, k + 20)
  }

  lemma LinkBytesRead(p: bytes, k: nat, r: Link)
    ensures LINK_FORMAT.one(p, k) == Some((r, k + 24)) <==> LinkBytes(p, k, r)
  {
    hide U16At, U32At, U64At, Num2, Num4, Num8;
    NumsRead(p, k);
    NumsRead(p, k + 4);
    NumsRead(p, k + 8);
    NumsRead(p, k + 12);
    NumsRead(p, k + 16);
    NumsRead(p, k + 20);
  }

  /** The magic word, the count and every field of every row. */
  ghost predicate LinkRows(p: bytes, rs: seq<Link>) {
    && Chars(p, 0, "LNK1") && |p| >= 8 && Num4(p, 4) == |rs|
    && forall i | 0 <= i < |rs| :: LinkBytes(p, 8 + 24 * i, rs[i])
  }

  /** What a reader accepts. */
  ghost predicate LinkTable(p: bytes, rs: seq<Link>) {
    LinkRows(p, rs) && |rs| <= 200000
  }

  lemma LinksRead(p: bytes, rs: seq<Link>)
    ensures DecodeTable(LINK_FORMAT, p) == Some(rs) <==> LinkTable(p, rs)
  {
    hide LinkBytes, Chars;
    LinkFormatExact();
    FixedRead(LINK_FORMAT, 24, p, rs);
    if |p| >= 8 {
      WordIs(p, 0, "LNK1", 0x314B4E4C);
    }
    ShortHasNoWord(p, "LNK1");
    forall i | 0 <= i < |rs|
      ensures LINK_FORMAT.one(p, 8 + 24 * i) == Some((rs[i], 8 + 24 * i + 24)) <==>
              LinkBytes(p, 8 + 24 * i, rs[i])
    {
      LinkBytesRead(p, 8 + 24 * i, rs[i]);
    }
  }

  lemma LinksWritten(rs: seq<Link>)
    requires |rs| < TWO32
    ensures var e := EncodeTable(LINK_FORMAT, rs); |e| == 8 + 24 * |rs| && LinkRows(e, rs)
  {
    hide LinkBytes, Chars, EncodeTable;
    LinkFormatExact();
    var e := EncodeTable(LINK_FORMAT, rs);
    FixedWritten(LINK_FORMAT, 24, rs, |rs|);
    WordIs(e, 0, "LNK1", 0x314B4E4C);
    forall i | 0 <= i < |rs| ensures LinkBytes(e, 8 + 24 * i, rs[i]) {
      FixedWritten(LINK_FORMAT, 24, rs, i);
      LinkBytesRead(e, 8 + 24 * i, rs[i]);
    }
  }

  // ----- NOTE

  ghost predicate NoteBytes(p: bytes, k: nat, r: Note) {
    && k + 20 <= |p|
    && r.noteId == Num4(p, k) && r.targetKind == Num4(p, k + 4) && r.targetId == Num4(p, k + 8)
    && r.textNameId == Num4(p, k + 12) && r.flags == Num4(p, k + 16)
  }

  lemma NoteBytesRead(p: bytes, k: nat, r: Note)
    ensures NOTE_FORMAT.one(p, k) == Some((r, k + 20)) <==> NoteBytes(p, k, r)
  {
    hide U16At, U32At, U64At, Num2, Num4, Num8;
    NumsRead(p, k);
    NumsRead(p, k + 4);
    NumsRead(p, k + 8);
    NumsRead(p, k + 12);
    NumsRead(p, k + 16);
  }

  /** The magic word, the count and every field of every row. */
  ghost predicate NoteRows(p: bytes, rs: seq<Note>) {
    && Chars(p, 0, "NTE1") && |p| >= 8 && Num4(p, 4) == |rs|
    && forall i | 0 <= i < |rs| :: NoteBytes(p, 8 + 20 * i, rs[i])
  }

  /** What a reader accepts. */
  ghost predicate NoteTable(p: bytes, rs: seq<Note>) {
    NoteRows(p, rs) && |rs| <= 50000
  }

  lemma NotesRead(p: bytes, rs: seq<Note>)
    ensures DecodeTable(NOTE_FORMAT, p) == Some(rs) <==> NoteTable(p, rs)
  {
    hide NoteBytes, Chars;
    NoteFormatExact();
    FixedRead(NOTE_FORMAT, 20, p, rs);
    if |p| >= 8 {
      WordIs(p, 0, "NTE1", 0x3145544E);
    }
    ShortHasNoWord(p, "NTE1");
    forall i | 0 <= i < |rs|
      ensures NOTE_FORMAT.one(p, 8 + 20 * i) == Some((rs[i], 8 + 20 * i + 20)) <==>
              NoteBytes(p, 8 + 20 * i, rs[i])
    {
      NoteBytesRead(p, 8 + 20 * i, rs[i]);
    }
  }

  lemma NotesWritten(rs: seq<Note>)
    requires |rs| < TWO32
    ensures var e := EncodeTable(NOTE_FORMAT, rs); |e| == 8 + 20 * |rs| && NoteRows(e, rs)
  {
    hide NoteBytes, Chars, EncodeTable;
    NoteFormatExact();
    var e := EncodeTable(NOTE_FORMAT, rs);
    FixedWritten(NOTE_FORMAT, 20, rs, |rs|);
    WordIs(e, 0, "NTE1", 0x3145544E);
    forall i | 0 <= i < |rs| ensures NoteBytes(e, 8 + 20 * i, rs[i]) {
      FixedWritten(NOTE_FORMAT, 20, rs, i);
      NoteBytesRead(e, 8 + 20 * i, rs[i]);
    }
  }

  // ----- SNAM: an id, a length, the string, and a byte to make its length even

  function NameLength(n: Name): nat {
    6 + |n.str| + |n.str| % 2
  }

  ghost predicate NameBytes(p: bytes, k: nat, n: Name) {
    && k + 6 + |n.str| + |n.str| % 2 <= |p|
    && Num4(p, k) == n.id && Num2(p, k + 4) == |n.str| && p[k + 6..k + 6 + |n.str|] == n.str
  }

  lemma NameBytesRead(p: bytes, k: nat, n: Name)
    ensures NAME_FORMAT.one(p, k) == Some((n, k + NameLength(n))) <==> NameBytes(p, k, n)
  {
    hide U16At, U32At, Num2, Num4;
    NumsRead(p, k);
    NumsRead(p, k + 4);
  }

  lemma NameTakes()
    ensures Takes(NAME_FORMAT, NameLength)
  {
    hide U16At, U32At, Le16, Le32;
    forall n: Name ensures |WriteName(n)| == NameLength(n) {
    }
  }

  ghost predicate NameRows(p: bytes, ns: seq<Name>) {
    && Chars(p, 0, "NAM1") && |p| >= 8 && Num4(p, 4) == |ns|
    && forall i | 0 <= i < |ns| :: NameBytes(p, Start(NameLength, ns, i), ns[i])
  }

  ghost predicate NameTable(p: bytes, ns: seq<Name>) {
    NameRows(p, ns) && |ns| <= 100000
  }

  lemma NamesRead(p: bytes, ns: seq<Name>)
    ensures DecodeTable(NAME_FORMAT, p) == Some(ns) <==> NameTable(p, ns)
  {
    hide NameBytes, Chars, U32At, NameLength, Start;
    NameTakes();
    TableRead(NAME_FORMAT, NameLength, p, ns);
    hide Takes, DecodeTable;
    if |p| >= 8 {
      WordIs(p, 0, "NAM1", 0x314D414E);
    }
    ShortHasNoWord(p, "NAM1");
    forall i | 0 <= i < |ns|
      ensures RowAt(NAME_FORMAT, NameLength, p, ns, i) <==> NameBytes(p, Start(NameLength, ns, i), ns[i])
    {
      NameBytesRead(p, Start(NameLength, ns, i), ns[i]);
    }
  }

  lemma NamesWritten(ns: seq<Name>)
    requires |ns| < TWO32
    ensures var e := EncodeTable(NAME_FORMAT, ns);
            && |e| == Start(NameLength, ns, |ns|) && NameRows(e, ns)
            && forall i | 0 <= i < |ns| && |ns[i].str| % 2 == 1 ::
                 PadAt(e, Start(NameLength, ns, i) + 6 + |ns[i].str|)
  {
    hide NameBytes, PadAt, Chars, U32At, EncodeTable, Takes, Start;
    NameTakes();
    HeadWritten(NAME_FORMAT, NameLength, ns);
    var e := EncodeTable(NAME_FORMAT, ns);
    WordIs(e, 0, "NAM1", 0x314D414E);
    forall i | 0 <= i < |ns|
      ensures NameBytes(e, Start(NameLength, ns, i), ns[i])
      ensures |ns[i].str| % 2 == 1 ==> PadAt(e, Start(NameLength, ns, i) + 6 + |ns[i].str|)
    {
      TableWritten(NAME_FORMAT, NameLength, ns, i);
      NameRecord(e, Start(NameLength, ns, i), ns[i]);
    }
  }

  ghost predicate PadAt(p: bytes, k: nat) {
    k < |p| && p[k] == 0
  }

  lemma NameRecord(e: bytes, k: nat, n: Name)
    requires k + NameLength(n) <= |e| && e[k..k + NameLength(n)] == WriteName(n)
    ensures NameBytes(e, k, n) && (|n.str| % 2 == 1 ==> PadAt(e, k + 6 + |n.str|))
  {
    hide U16At, U32At, Num2, Num4;
    var w := WriteName(n);
    assert e[k..][..|w|] == w;
    NameWritten(n, e, k);
    NameBytesRead(e, k, n);
    if |n.str| % 2 == 1 {
      assert w[6 + |n.str|] == 0;
      assert e[k..k + |w|][6 + |n.str|] == e[k + 6 + |n.str|];
    }
  }

  // ----- WAVE: a head of 24 bytes and the samples in two's complement

  function WaveLength(w: Wave): nat {
    24 + 2 * |w.samples|
  }

  ghost predicate WaveBytes(p: bytes, k: nat, w: Wave) {
    && k + 24 + 2 * |w.samples| <= |p|
    && w.blockId == Num4(p, k) && w.windowId == Num4(p, k + 4) && |w.samples| == Num4(p, k + 8)
    && w.startM == Num4(p, k + 12) && w.stepM == Num4(p, k + 16) && w.flags == Num2(p, k + 20)
    && w.payloadCrc == Num2(p, k + 22)
    && SampleBytes(p, k + 24, w.samples)
  }

  ghost predicate SampleBytes(p: bytes, k: nat, s: seq<i16>) {
    && k + 2 * |s| <= |p|
    && forall j | 0 <= j < |s| :: Num2(p, k + 2 * j) == s[j] as int + if s[j] < 0 then 0x1_0000 else 0
  }

  function WaveStart(ws: seq<Wave>, i: nat): nat
    requires i <= |ws|
  {
    if i == 0 then 8 else WaveStart(ws, i - 1) + WaveLength(ws[i - 1])
  }

  function StoredLength(w: StoredWave): nat {
    WaveLength(w)
  }

  lemma {:induction false} StoredStart(ws: seq<StoredWave>, i: nat)
    requires i <= |ws|
    ensures Start(StoredLength, ws, i) == WaveStart(ws, i)
  {
    if i > 0 {
      StoredStart(ws, i - 1);
    }
  }

  lemma HeadRead(p: bytes, k: nat)
    requires k + 24 <= |p|
    ensures U32At(p, k) == Num4(p, k) && U32At(p, k + 4) == Num4(p, k + 4) && U32At(p, k + 8) == Num4(p, k + 8)
    ensures U32At(p, k + 12) == Num4(p, k + 12) && U32At(p, k + 16) == Num4(p, k + 16)
    ensures U16At(p, k + 20) == Num2(p, k + 20) && U16At(p, k + 22) == Num2(p, k + 22)
  {
    hide U16At, U32At, Num2, Num4;
    NumsRead(p, k);
    NumsRead(p, k + 4);
    NumsRead(p, k + 8);
    NumsRead(p, k + 12);
    NumsRead(p, k + 16);
    NumsRead(p, k + 20);
    NumsRead(p, k + 22);
  }

  lemma WaveBytesRead(p: bytes, k: nat, w: StoredWave)
    ensures WAVE_FORMAT.one(p, k) == Some((w, k + WaveLength(w))) <==> WaveBytes(p, k, w) && |w.samples| <= 2000000
  {
    hide U16At, U32At, Num2, Num4, SamplesAt, SampleBytes;
    if k + 24 + 2 * |w.samples| <= |p| {
      HeadRead(p, k);
      SamplesRead(p, k + 24, w.samples);
    }
  }

  lemma SamplesRead(p: bytes, k: nat, s: seq<i16>)
    requires k + 2 * |s| <= |p|
    ensures SamplesAt(p, k, |s|) == s <==> SampleBytes(p, k, s)
  {
    hide U16At, Num2;
    var t := SamplesAt(p, k, |s|);
    forall j | 0 <= j < |s|
      ensures t[j] == s[j] <==> Num2(p, k + 2 * j) == s[j] as int + if s[j] < 0 then 0x1_0000 else 0
    {
      NumsRead(p, k + 2 * j);
    }
  }

  lemma WaveTakes()
    ensures Takes(WAVE_FORMAT, StoredLength)
  {
    hide U16At, U32At, WriteWave;
    forall w: StoredWave ensures |WriteStoredWave(w)| == StoredLength(w) {
      Records.WaveLength(w);
    }
  }

  ghost predicate WaveRows(p: bytes, ws: seq<Wave>) {
    && Chars(p, 0, "AVE1") && |p| >= 8 && Num4(p, 4) == |ws|
    && forall i | 0 <= i < |ws| :: WaveBytes(p, WaveStart(ws, i), ws[i])
  }

  ghost predicate WaveTable(p: bytes, ws: seq<Wave>) {
    WaveRows(p, ws) && |ws| <= 50000 && forall i | 0 <= i < |ws| :: |ws[i].samples| <= 2000000
  }

  lemma WavesRead(p: bytes, ws: seq<StoredWave>)
    ensures DecodeTable(WAVE_FORMAT, p) == Some(ws) <==> WaveTable(p, ws)
  {
    hide WaveBytes, Chars, U32At, Start, WaveStart;
    WaveTakes();
    TableRead(WAVE_FORMAT, StoredLength, p, ws);
    hide Takes, DecodeTable;
    if |p| >= 8 {
      WordIs(p, 0, "AVE1", 0x31455641);
    }
    ShortHasNoWord(p, "AVE1");
    forall i | 0 <= i < |ws|
      ensures RowAt(WAVE_FORMAT, StoredLength, p, ws, i) <==>
              WaveBytes(p, WaveStart(ws, i), ws[i]) && |ws[i].samples| <= 2000000
    {
      StoredStart(ws, i);
      WaveBytesRead(p, WaveStart(ws, i), ws[i]);
    }
  }

  lemma WavesWritten(ws: seq<StoredWave>)
    requires |ws| < TWO32
    ensures var e := EncodeTable(WAVE_FORMAT, ws); |e| == WaveStart(ws, |ws|) && WaveRows(e, ws)
  {
    hide WaveBytes, Chars, U32At, EncodeTable, Takes, Start, WaveStart;
    WaveTakes();
    HeadWritten(WAVE_FORMAT, StoredLength, ws);
    StoredStart(ws, |ws|);
    var e := EncodeTable(WAVE_FORMAT, ws);
    WordIs(e, 0, "AVE1", 0x31455641);
    forall i | 0 <= i < |ws| ensures WaveBytes(e, WaveStart(ws, i), ws[i]) {
      TableWritten(WAVE_FORMAT, StoredLength, ws, i);
      StoredStart(ws, i);
      WaveRecord(e, WaveStart(ws, i), ws[i]);
    }
  }

  lemma WaveRecord(e: bytes, k: nat, w: StoredWave)
    requires k + WaveLength(w) <= |e| && e[k..k + WaveLength(w)] == WriteWave(w)
    ensures WaveBytes(e, k, w)
  {
    hide U16At, U32At, Num2, Num4, WriteWave, SamplesAt, SampleBytes;
    Records.WaveLength(w);
    WaveInverse(e, k, w);
    HeadRead(e, k);
    SamplesRead(e, k + 24, w.samples);
  }

  // ----- SUMM

  ghost predicate SummBytes(p: bytes, s: Summ) {
    && 40 <= |p|
    && s.routeCount == Num4(p, 4) && s.windowCount == Num4(p, 8) && s.markerCount == Num4(p, 12)
    && s.waveCount == Num4(p, 16) && s.nameCount == Num4(p, 20) && s.packageCrc == Num4(p, 24)
    && s.payloadBytes == Num8(p, 28) && s.flags == Num4(p, 36)
  }

  lemma SummRead(p: bytes, s: Summ)
    ensures DecodeSumm(p) == Some(s) <==> Chars(p, 0, "UMM1") && SummBytes(p, s)
  {
    hide Chars, U32At, U64At, Num4, Num8;
    if |p| >= 40 {
      WordIs(p, 0, "UMM1", 0x314D4D55);
      NumsRead(p, 4);
      NumsRead(p, 8);
      NumsRead(p, 12);
      NumsRead(p, 16);
      NumsRead(p, 20);
      NumsRead(p, 24);
      NumsRead(p, 28);
      NumsRead(p, 36);
    }
  }

  lemma SummWritten(s: Summ)
    ensures |WriteSumm(s)| == 40 && Chars(WriteSumm(s), 0, "UMM1") && SummBytes(WriteSumm(s), s)
  {
    hide WriteSumm, DecodeSumm, Chars, SummBytes;
    SummInverse(WriteSumm(s), s);
    SummRead(WriteSumm(s), s);
  }
}
