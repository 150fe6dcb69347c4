/** The data space of the tusl virtual machine (tusl.c): one byte arena
    in which compiled code grows up from `here` and strings grow down from
    `there`. A cell is an `int` stored as four bytes, least significant
    first, as on the little-endian hosts the VM runs on. */
module TuslSpace {
  import opened Cells

  /** `ts_data_size`. Its value lives in tusl.h, which is not part of this
      model; any multiple of the cell size behaves the same. */
  const DataSize: int := 16384

  /** `sizeof (int)`. */
  const CellSize: int := 4

  type Byte = x: int | 0 <= x < 256

  lemma DataSizeIsCells()
    ensures DataSize % CellSize == 0 && DataSize >= CellSize
  {
  }

  /** `cell_align`: the first cell boundary at or after `n`. The C code adds
      and masks in `size_t` and converts back to `int`, which wraps. */
  function CellAlign(n: i32): (r: i32)
    ensures n <= MaxInt - 3 ==> r % CellSize == 0 && n <= r < n + CellSize
  {
    Wrap((n + 3) / 4 * 4)
  }

  /** The four bytes of a cell, least significant first. */
  function CellBytes(v: i32): (b: seq<Byte>)
    ensures |b| == CellSize
  {
    var u: int := ToUnsigned(v);
    var q1 := u / 256;
    var q2 := q1 / 256;
    var q3 := q2 / 256;
    [u % 256, q1 % 256, q2 % 256, q3 % 256]
  }

  /** The cell that four bytes hold. */
  function CellValue(b: seq<Byte>): i32
    requires |b| == CellSize
  {
    ToSigned(Horner(b[0], b[1], b[2], b[3]))
  }

  /** The unsigned value of four bytes, least significant first. */
  function Horner(b0: Byte, b1: Byte, b2: Byte, b3: Byte): u32 {
    var n: int := b0 + 256 * (b1 + 256 * (b2 + 256 * b3));
    n
  }

  /** Splitting an unsigned value into bytes and putting them together
      again gives it back. */
  lemma {:induction false} BytesRebuild(u: u32)
    ensures u / 256 / 256 / 256 < 256
    ensures Horner(u % 256, u / 256 % 256, u / 256 / 256 % 256, u / 256 / 256 / 256 % 256) == u
  {
    var q1 := u / 256;
    var q2 := q1 / 256;
    var q3 := q2 / 256;
    assert u == u % 256 + 256 * q1;
    assert q1 == q1 % 256 + 256 * q2;
    assert q2 == q2 % 256 + 256 * q3;
  }

  /** Reading back the bytes of a cell gives the cell. */
  lemma {:induction false} CellRoundTrip(v: i32)
    ensures CellValue(CellBytes(v)) == v
  {
    BytesRebuild(ToUnsigned(v));
    SignedUnsignedRoundTrip(v);
  }

  /** `data_cell` as corrected: the whole cell at `i` lies in the arena. */
  predicate CellOk(i: int) {
    0 <= i && i + CellSize <= DataSize
  }

  /** `data_byte`'s check: `ts_data_size <= (unsigned)i` is an error. */
  predicate ByteOk(i: i32) {
    ToUnsigned(i) < DataSize
  }

  /** The check `data_cell` actually performs: it only asks `data_byte`
      about the first byte of the cell. */
  predicate DataCellAsWritten(i: i32) {
    ByteOk(i)
  }

  /** As written, `data_cell` accepts the last three byte offsets of the
      arena, whose cells run one to three bytes past its end. */
  lemma DataCellAsWrittenOverruns()
    ensures DataCellAsWritten(DataSize - 1)
    ensures (DataSize - 1) + CellSize > DataSize
    ensures !CellOk(DataSize - 1)
  {
  }

  /** The corrected check accepts exactly the offsets all four of whose
      bytes `data_byte` accepts. */
  lemma {:induction false} CellOkIsFourBytes(i: i32)
    requires i <= MaxInt - 3
    ensures CellOk(i) <==> ByteOk(i) && ByteOk(i + 1) && ByteOk(i + 2) && ByteOk(i + 3)
  {
    if i < 0 {
      assert !ByteOk(i) by { assert ToUnsigned(i) == i + Two32; }
    }
  }

  /** The cell stored at byte offset `i`. */
  function CellAt(d: seq<Byte>, i: int): i32
    requires 0 <= i && i + CellSize <= |d|
  {
    CellValue(d[i..i + CellSize])
  }

  /** The arena after `*data_cell (vm, i) = v`. */
  function StoreCell(d: seq<Byte>, i: int, v: i32): (r: seq<Byte>)
    requires 0 <= i && i + CellSize <= |d|
    ensures |r| == |d|
    ensures forall k | 0 <= k < |d| && (k < i || i + CellSize <= k) :: r[k] == d[k]
  {
    d[..i] + CellBytes(v) + d[i + CellSize..]
  }

  /** A stored cell reads back as stored. */
  lemma {:induction false} FetchAfterStore(d: seq<Byte>, i: int, v: i32)
    requires 0 <= i && i + CellSize <= |d|
    ensures CellAt(StoreCell(d, i, v), i) == v
  {
    assert StoreCell(d, i, v)[i..i + CellSize] == CellBytes(v);
    CellRoundTrip(v);
  }

  /** Storing a cell leaves every cell that does not overlap it. */
  lemma {:induction false} FetchAfterStoreElsewhere(d: seq<Byte>, i: int, v: i32, j: int)
    requires 0 <= i && i + CellSize <= |d|
    requires 0 <= j && j + CellSize <= |d|
    requires j + CellSize <= i || i + CellSize <= j
    ensures CellAt(StoreCell(d, i, v), j) == CellAt(d, j)
  {
    assert StoreCell(d, i, v)[j..j + CellSize] == d[j..j + CellSize];
  }

  /** The NUL-terminated string at offset `i`, up to the end of the arena. */
  function CString(d: seq<Byte>, i: int): (s: seq<Byte>)
    requires 0 <= i <= |d|
    ensures 0 !in s
    ensures |s| <= |d| - i
    decreases |d| - i
  {
    if i == |d| || d[i] == 0 then [] else [d[i]] + CString(d, i + 1)
  }

  /** A string depends only on the bytes from its start on. */
  lemma {:induction false} CStringOfSuffix(d: seq<Byte>, e: seq<Byte>, i: int)
    requires 0 <= i <= |d| == |e| && d[i..] == e[i..]
    ensures CString(d, i) == CString(e, i)
    decreases |d| - i
  {
    if i < |d| {
      assert d[i] == d[i..][0] == e[i..][0] == e[i];
      assert d[i + 1..] == d[i..][1..] == e[i..][1..] == e[i + 1..];
      CStringOfSuffix(d, e, i + 1);
    }
  }

  /** The arena after `strcpy (data + at, text)`: the text and its NUL. */
  function CopyString(d: seq<Byte>, at: int, text: seq<Byte>): (r: seq<Byte>)
    requires 0 <= at && at + |text| + 1 <= |d|
    ensures |r| == |d|
    ensures forall k | 0 <= k < |d| ::
              r[k] == if at <= k < at + |text| then text[k - at] else if k == at + |text| then 0 else d[k]
  {
    d[..at] + text + [0] + d[at + |text| + 1..]
  }

  /** A copied string reads back as copied, provided it holds no NUL. */
  lemma StringRoundTrip(d: seq<Byte>, at: int, text: seq<Byte>)
    requires 0 <= at && at + |text| + 1 <= |d|
    requires 0 !in text
    ensures CString(CopyString(d, at, text), at) == text
  {
    StringSuffix(CopyString(d, at, text), at, text, |text|);
  }

  lemma {:induction false} StringSuffix(r: seq<Byte>, at: int, text: seq<Byte>, k: nat)
    requires 0 <= at && at + |text| + 1 <= |r|
    requires r[at..at + |text| + 1] == text + [0]
    requires 0 !in text
    requires k <= |text|
    ensures CString(r, at + |text| - k) == text[|text| - k..]
    decreases k
  {
    var i := at + |text| - k;
    assert r[i] == (text + [0])[|text| - k];
    if k > 0 {
      assert r[i] == text[|text| - k] && r[i] != 0;
      StringSuffix(r, at, text, k - 1);
      assert text[|text| - k..] == [text[|text| - k]] + text[|text| - k + 1..];
    }
  }

  /** Copying a string leaves the arena outside `[at, at + |text| + 1)`. */
  lemma {:induction false} CopyStringKeepsOthers(d: seq<Byte>, at: int, text: seq<Byte>)
    requires 0 <= at && at + |text| + 1 <= |d|
    ensures CopyString(d, at, text)[..at] == d[..at]
    ensures CopyString(d, at, text)[at + |text| + 1..] == d[at + |text| + 1..]
  {
  }

  /** `compile` as written: align `here`, refuse when `there <= here`, then
      store through `data_cell` and advance `here` by one cell. The result is
      the new arena and the new `here`, or the error message. */
  function CompileAsWritten(d: seq<Byte>, here: i32, there: int, c: i32): (r: Compiled)
    requires |d| == DataSize && 0 <= there <= DataSize
  {
    var a := CellAlign(here);
    if there <= a then Refused("Out of data space")
    else if !DataCellAsWritten(a) then Refused("Data reference out of range")
    else
      assert a % CellSize == 0 by { AlignedBelowEnd(here, a); }
      Stored(StoreCell(d, a, c), a + CellSize)
  }

  /** The outcome of `CompileAsWritten`. */
  datatype Compiled = Stored(arena: seq<Byte>, here: int) | Refused(message: string)

  lemma AlignedBelowEnd(here: i32, a: i32)
    requires a == CellAlign(here)
    requires 0 <= a < DataSize
    ensures a % CellSize == 0
    ensures a + CellSize <= DataSize
  {
    AlignHigh(here);
  }

  /** Near the top of the `int` range the alignment wraps to the bottom. */
  lemma AlignHigh(here: i32)
    ensures here > MaxInt - 3 ==> CellAlign(here) == MinInt
  {
  }

  /** An arena of zeros. */
  function Zeros(): (d: seq<Byte>)
    ensures |d| == DataSize
  {
    seq(DataSize, k => 0)
  }

  /** With `here` = 4 and a string starting at `there` = 6, the aligned
      `here` passes the check, and the stored cell overwrites the first two
      bytes of that string. */
  lemma CompileAsWrittenOverwritesString()
    ensures CompileAsWritten(Zeros(), 4, 6, -1).Stored?
    ensures CompileAsWritten(Zeros(), 4, 6, -1).arena[6] != Zeros()[6]
  {
    assert CellAlign(4) == 4;
    assert CellBytes(-1) == [255, 255, 255, 255];
    var r := StoreCell(Zeros(), 4, -1);
    assert r[6] == CellBytes(-1)[2];
  }

  /** `compile` as evidently intended: the aligned cell must fit below
      `there`, so the string area is never written. */
  predicate CompileFits(here: i32, there: int) {
    var a := CellAlign(here);
    0 <= a && a + CellSize <= there
  }

  /** Where the corrected check accepts, the store lands below `there` and
      leaves every string byte alone. */
  lemma {:induction false} CompileFitsKeepsStrings(d: seq<Byte>, here: i32, there: int, c: i32)
    requires |d| == DataSize && 0 <= there <= DataSize
    requires CompileFits(here, there)
    ensures StoreCell(d, CellAlign(here), c)[there..] == d[there..]
  {
  }
}
