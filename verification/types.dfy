/** Machine integers, the on-disk records and the bundle of decoded tables.

    A C integer is an `int` with its width's range.  A `float` is its 32-bit pattern: the codec only copies
    the bits, and the Floats module gives them a value where the library compares them. */
module Types {
  const TWO16: int := 0x1_0000
  const TWO32: int := 0x1_0000_0000
  const TWO63: int := 0x8000_0000_0000_0000
  const TWO64: int := 0x1_0000_0000_0000_0000

  function Pow2(k: nat): nat {
    if k == 0 then 1 else 2 * Pow2(k - 1)
  }

  lemma Pow2Values()
    ensures Pow2(5) == 32 && Pow2(8) == 0x100
    ensures Pow2(30) == 0x4000_0000 && Pow2(32) == TWO32 && Pow2(63) == TWO63
  {
    assert Pow2(10) == 0x400;
    assert Pow2(20) == 0x400 * Pow2(10);
    assert Pow2(30) == 0x400 * Pow2(20);
    assert Pow2(40) == 0x400 * Pow2(30);
    assert Pow2(50) == 0x400 * Pow2(40);
    assert Pow2(60) == 0x400 * Pow2(50);
  }

  type u8 = x: int | 0 <= x < 0x100
  type u16 = x: int | 0 <= x < TWO16
  type u32 = x: int | 0 <= x < TWO32
  type u64 = x: int | 0 <= x < TWO64
  type i16 = x: int | -0x8000 <= x < 0x8000
  type f32 = u32
  type bytes = seq<u8>

  datatype Option<+T> = None | Some(value: T) {
    predicate IsFailure() {
      None?
    }
    function PropagateFailure<U>(): Option<U>
      requires None?
    {
      None
    }
    function Extract(): T
      requires Some?
    {
      value
    }
  }

  /** The library's 0 / -1 return code. */
  datatype Status = Ok | Failed {
    predicate IsFailure() {
      Failed?
    }
    function PropagateFailure(): Status
      requires Failed?
    {
      this
    }
  }

  /** A pooled name.  Its length is stored in 16 bits. */
  datatype NameRec = Name(id: u32, str: bytes)
  type Name = n: NameRec | |n.str| < TWO16 witness Name(0, [])

  datatype Route = Route(routeId: u32, siteNameId: u32, farNameId: u32, lengthKm: f32, fiberCount: u32, flags: u32)

  datatype Inst = Inst(instId: u32, modelNameId: u32, serialNameId: u32, wavelengthNm: u16, pulseDefaultNs: u16,
                       dynamicRangeDb: f32, flags: u32)

  datatype Calib = Calib(calibId: u32, instId: u32, calibratedUnix: u64, refractiveIndex: f32, backscatterCoef: f32,
                         spliceLossDb: f32, flags: u32)

  /** The decoder always sets a window's flags to zero and no writer stores them, so they are not kept here. */
  datatype Window = Window(windowId: u32, routeId: u32, instId: u32, calibId: u32, waveBlockId: u32, pulseNs: f32,
                           rangeKm: f32, resolutionM: f32, acquiredUnix: u64)

  /** A wave block: `sample_count` is the length of `samples`. */
  datatype WaveRec = Wave(blockId: u32, windowId: u32, startM: f32, stepM: f32, samples: seq<i16>, flags: u32,
                          payloadCrc: u32)
  type Wave = w: WaveRec | |w.samples| < TWO32 witness Wave(0, 0, 0, 0, [], 0, 0)

  datatype Marker = Marker(markerId: u32, windowId: u32, labelNameId: u32, distanceM: f32, lossDb: f32,
                           reflectanceDb: f32, kind: u16, severity: u16, flags: u32)

  datatype Link = Link(linkId: u32, fromKind: u32, fromId: u32, toKind: u32, toId: u32, flags: u32)

  datatype Note = Note(noteId: u32, targetKind: u32, targetId: u32, textNameId: u32, flags: u32)

  datatype Summ = Summ(routeCount: u32, windowCount: u32, markerCount: u32, waveCount: u32, nameCount: u32,
                       packageCrc: u32, payloadBytes: u64, flags: u32)

  const EMPTY_SUMM := Summ(0, 0, 0, 0, 0, 0, 0, 0)

  /** The decoded tables of one package. */
  datatype Parsed = Parsed(names: seq<Name>, routes: seq<Route>, insts: seq<Inst>, calibs: seq<Calib>,
                           windows: seq<Window>, waves: seq<Wave>, markers: seq<Marker>, links: seq<Link>,
                           notes: seq<Note>, summ: Summ, hasSumm: bool, featureBits: u32)

  const EMPTY_PARSED := Parsed([], [], [], [], [], [], [], [], [], EMPTY_SUMM, false, 0)
}
