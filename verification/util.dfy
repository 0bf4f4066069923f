/** The helpers of `impl/util.py` shared by the grid drawers: turning a grid
    of code points into text, the numpy-to-PIL mode table, padding a grid to
    a multiple of the cell shape, and resolving a requested shape into the
    pixel dimensions the buffer is resized to. The terminal size, which the
    code queries with `shutil.get_terminal_size`, is a parameter here. */
module Util {
  import opened Outcomes
  import opened Text
  import opened Pixels
  import opened Shapes
  import opened Rounding

  // ---------------------------------------------------------------------
  // convert_to_str

  /** What `chr` accepts. */
  predicate InChrRange(c: int) {
    0 <= c < 0x11_0000
  }

  /** Code points a Dafny `char` can hold: all of `chr`'s range except the
      surrogates. */
  predicate IsScalar(c: int) {
    0 <= c < 0xD800 || 0xE000 <= c < 0x11_0000
  }

  predicate AllInChrRange(codes: Grid<int>) {
    forall i, j :: 0 <= i < |codes| && 0 <= j < |codes[i]| ==> InChrRange(codes[i][j])
  }

  predicate NoSurrogates(codes: Grid<int>) {
    forall i, j :: 0 <= i < |codes| && 0 <= j < |codes[i]| ==>
      (InChrRange(codes[i][j]) ==> IsScalar(codes[i][j]))
  }

  /** `chr` applied to each code of a row, concatenated. */
  function RowText(row: seq<int>): (s: string)
    requires forall k :: 0 <= k < |row| ==> IsScalar(row[k])
    ensures |s| == |row|
    ensures forall k :: 0 <= k < |row| ==> s[k] as int == row[k]
  {
    seq(|row|, k requires 0 <= k < |row| && IsScalar(row[k]) => row[k] as char)
  }

  /** What CPython's `chr` converts to a C `int` before its range check. */
  predicate InCInt(c: int) {
    -0x8000_0000 <= c < 0x8000_0000
  }

  /** The error `chr` raises for a code outside its range: the range error
      when the code fits a C `int`, and the conversion overflow otherwise. */
  function ChrError(c: int): Error
    requires !InChrRange(c)
  {
    if InCInt(c) then ValueError("chr() arg not in range(0x110000)")
    else OverflowError("Python int too large to convert to C int")
  }

  /** Position (i, j) holds the first code, in row-major order, that `chr`
      refuses: the order in which numpy applies `chr` and stops at the first
      error. */
  predicate FirstRefusedAt(codes: Grid<int>, i: int, j: int) {
    && 0 <= i < |codes| && 0 <= j < |codes[i]|
    && !InChrRange(codes[i][j])
    && (forall m :: 0 <= m < j ==> InChrRange(codes[i][m]))
    && (forall l, m :: 0 <= l < i && 0 <= m < |codes[l]| ==> InChrRange(codes[l][m]))
  }

  /** Index of the first code of `row` outside `chr`'s range, or `|row|`. */
  function FirstRefusedInRow(row: seq<int>): (k: nat)
    ensures k <= |row|
    ensures forall m :: 0 <= m < k ==> InChrRange(row[m])
    ensures k < |row| ==> !InChrRange(row[k])
  {
    if |row| == 0 || !InChrRange(row[0]) then 0 else 1 + FirstRefusedInRow(row[1..])
  }

  /** Row-major position of the first refused code; `|codes|` rows down
      when every code is accepted. */
  function FirstRefused(codes: Grid<int>, from: nat): (p: (nat, nat))
    requires from <= |codes|
    requires forall l, m :: 0 <= l < from && 0 <= m < |codes[l]| ==> InChrRange(codes[l][m])
    ensures from <= p.0 <= |codes|
    ensures p.0 < |codes| ==> FirstRefusedAt(codes, p.0, p.1)
    ensures p.0 == |codes| ==> AllInChrRange(codes)
    decreases |codes| - from
  {
    if from == |codes| then (from, 0)
    else
      var k := FirstRefusedInRow(codes[from]);
      if k < |codes[from]| then (from, k) else FirstRefused(codes, from + 1)
  }

  /** The text of a grid of code points: each row's characters with no
      separator, rows joined by `eol` with none after the last. `chr` fails
      on the first code, in row-major order, outside its range; a grid of
      rows with no columns fails too, because numpy sums an empty row of
      strings to the integer 0, which `join` refuses. */
  function ConvertToStr(codes: Grid<int>, eol: string): (r: Result<string>)
    requires NoSurrogates(codes)
    ensures r.Ok? <==> AllInChrRange(codes) && (|codes| == 0 || Width(codes) > 0)
    ensures forall i, j {:trigger FirstRefusedAt(codes, i, j)} ::
      FirstRefusedAt(codes, i, j) ==> r == Err(ChrError(codes[i][j]))
    ensures r.Err? && (r.error.ValueError? || r.error.OverflowError?) ==> !AllInChrRange(codes)
    ensures r.Ok? && |codes| == 0 ==> r.value == ""
  {
    var p := FirstRefused(codes, 0);
    if p.0 < |codes| then
      FirstRefusedUnique(codes, p.0, p.1);
      Err(ChrError(codes[p.0][p.1]))
    else if 0 < |codes| && Width(codes) == 0 then
      Err(TypeError("sequence item 0: expected str instance, int found"))
    else
      Ok(Join(RowTexts(codes), eol))
  }

  /** At most one position is the first refused one. */
  lemma FirstRefusedUnique(codes: Grid<int>, i: nat, j: nat)
    requires FirstRefusedAt(codes, i, j)
    ensures forall l, m {:trigger FirstRefusedAt(codes, l, m)} :: FirstRefusedAt(codes, l, m) ==> l == i && m == j
  {
  }

  /** `chr` refuses a code past 0x10FFFF with ValueError while it fits a C
      `int`, and with OverflowError beyond. */
  lemma ConvertToStrRefusals(eol: string)
    ensures ConvertToStr([[0x11_0000]], eol) == Err(ValueError("chr() arg not in range(0x110000)"))
    ensures ConvertToStr([[-1]], eol) == Err(ValueError("chr() arg not in range(0x110000)"))
    ensures ConvertToStr([[0x8000_0000]], eol) == Err(OverflowError("Python int too large to convert to C int"))
    ensures ConvertToStr([[-0x8000_0001]], eol) == Err(OverflowError("Python int too large to convert to C int"))
  {
    assert FirstRefusedAt([[0x11_0000]], 0, 0);
    assert FirstRefusedAt([[-1]], 0, 0);
    assert FirstRefusedAt([[0x8000_0000]], 0, 0);
    assert FirstRefusedAt([[-0x8000_0001]], 0, 0);
  }

  /** Of several refused codes, the first in row-major order decides the
      exception class. */
  lemma ConvertToStrFirstDecides(eol: string)
    ensures ConvertToStr([[97, 0x11_0000], [0x8000_0000, 98]], eol) == Err(ValueError("chr() arg not in range(0x110000)"))
    ensures ConvertToStr([[97, 98], [0x8000_0000, -1]], eol) == Err(OverflowError("Python int too large to convert to C int"))
  {
    var g: Grid<int> := [[97, 0x11_0000], [0x8000_0000, 98]];
    assert FirstRefusedAt(g, 0, 1) by {
      assert InChrRange(g[0][0]);
    }
    var h: Grid<int> := [[97, 98], [0x8000_0000, -1]];
    assert FirstRefusedAt(h, 1, 0) by {
      assert InChrRange(h[0][0]) && InChrRange(h[0][1]);
    }
  }

  function RowTexts(codes: Grid<int>): (rows: seq<string>)
    requires AllInChrRange(codes) && NoSurrogates(codes)
    ensures |rows| == |codes|
    ensures forall i :: 0 <= i < |codes| ==> |rows[i]| == |codes[i]|
    ensures forall i, k :: 0 <= i < |codes| && 0 <= k < |codes[i]| ==> rows[i][k] as int == codes[i][k]
  {
    seq(|codes|, i requires 0 <= i < |codes| => RowText(codes[i]))
  }

  /** Splitting the text at a one-character `eol` that is none of the codes
      gives one line per row, holding that row's characters in order. */
  lemma ConvertToStrLines(codes: Grid<int>, eol: char)
    requires NoSurrogates(codes) && AllInChrRange(codes)
    requires 0 < |codes| && 0 < Width(codes)
    requires forall i, j :: 0 <= i < |codes| && 0 <= j < |codes[i]| ==> codes[i][j] != eol as int
    ensures ConvertToStr(codes, [eol]).Ok?
    ensures var lines := Split(ConvertToStr(codes, [eol]).value, eol);
      && |lines| == |codes|
      && (forall i :: 0 <= i < |codes| ==> |lines[i]| == Width(codes))
      && (forall i, j :: 0 <= i < |codes| && 0 <= j < Width(codes) ==> lines[i][j] as int == codes[i][j])
  {
    var rows := RowTexts(codes);
    forall i | 0 <= i < |rows|
      ensures eol !in rows[i]
    {
      forall k | 0 <= k < |rows[i]|
        ensures rows[i][k] != eol
      {
        assert rows[i][k] as int == codes[i][k];
      }
    }
    SplitJoin(rows, eol);
  }

  /** The doc example of `convert_to_str`. */
  lemma ConvertToStrExample()
    ensures ConvertToStr([[97, 98], [99, 100]], "\n") == Ok("ab\ncd")
  {
    var codes: Grid<int> := [[97, 98], [99, 100]];
    var rows := RowTexts(codes);
    assert rows[0][0] == 'a' && rows[0][1] == 'b';
    assert rows[1][0] == 'c' && rows[1][1] == 'd';
    assert rows[0] == "ab";
    assert rows[1] == "cd";
    assert rows == ["ab", "cd"];
    assert rows[1..] == ["cd"];
    assert Join(rows, "\n") == "ab" + "\n" + "cd";
    assert AllInChrRange(codes);
    assert ConvertToStr(codes, "\n") == Ok(Join(rows, "\n"));
    assert "ab" + "\n" + "cd" == "ab\ncd";
  }

  // ---------------------------------------------------------------------
  // The mode table of convert_to_pil_image

  /** The channel count the code reads: 1 for a buffer of fewer than three
      axes, otherwise the length of the last axis. */
  function Channel(shape: seq<nat>): nat {
    if |shape| < 3 then 1 else shape[|shape| - 1]
  }

  /** The lookup key `'{dtype}_{channel}'`. */
  function ModeKey(d: DType, channel: nat): string {
    DTypeName(d) + "_" + NatToDecimal(channel)
  }

  const PilModes: map<string, string> :=
    map["bool_1" := "1", "uint8_1" := "L", "uint8_3" := "RGB", "int32_1" := "I", "float32_1" := "F"]

  /** The PIL image mode chosen for a buffer of element type `dtype` and shape
      `shape`; any other combination is a `KeyError` on the table. */
  function PilMode(dtype: DType, shape: seq<nat>): (r: Result<string>)
    ensures dtype == Bool && Channel(shape) == 1 ==> r == Ok("1")
    ensures dtype == UInt8 && Channel(shape) == 1 ==> r == Ok("L")
    ensures dtype == UInt8 && Channel(shape) == 3 ==> r == Ok("RGB")
    ensures dtype == Int32 && Channel(shape) == 1 ==> r == Ok("I")
    ensures dtype == Float32 && Channel(shape) == 1 ==> r == Ok("F")
    ensures r.Ok? <==> SupportedByPil(dtype, Channel(shape))
    ensures r.Err? ==> r.error == KeyError(ModeKey(dtype, Channel(shape)))
  {
    var key := ModeKey(dtype, Channel(shape));
    ModeKeyDecides(dtype, Channel(shape));
    if key in PilModes then Ok(PilModes[key]) else Err(KeyError(key))
  }

  /** The five element-type/channel pairs the table accepts. */
  predicate SupportedByPil(d: DType, channel: nat) {
    || (d == Bool && channel == 1)
    || (d == UInt8 && (channel == 1 || channel == 3))
    || (d == Int32 && channel == 1)
    || (d == Float32 && channel == 1)
  }

  lemma SplitAtUnderscore(a: string, b: string, x: string, y: string)
    requires '_' !in a && '_' !in x
    requires a + "_" + b == x + "_" + y
    ensures a == x && b == y
  {
    var s := a + "_" + b;
    assert s[|a|] == '_';
    assert s == x + "_" + y;
    assert s[|x|] == '_';
    assert |a| == |x|;
    assert a == s[..|a|] == x;
    assert b == s[|a| + 1..] == y;
  }

  lemma DTypeNameInjective(d: DType, e: DType)
    requires DTypeName(d) == DTypeName(e)
    ensures d == e
  {
  }

  lemma ModeKeyInjective(d: DType, c: nat, e: DType, k: nat)
    requires ModeKey(d, c) == ModeKey(e, k)
    ensures d == e && c == k
  {
    var s := DTypeName(d);
    assert '_' !in s by { assert forall i :: 0 <= i < |s| ==> s[i] != '_'; }
    assert '_' !in DTypeName(e);
    SplitAtUnderscore(DTypeName(d), NatToDecimal(c), DTypeName(e), NatToDecimal(k));
    DTypeNameInjective(d, e);
    DecimalRoundTrip(c);
    DecimalRoundTrip(k);
  }

  lemma ModeKeyDecides(d: DType, c: nat)
    ensures ModeKey(d, c) in PilModes <==> SupportedByPil(d, c)
    ensures d == Bool && c == 1 ==> PilModes[ModeKey(d, c)] == "1"
    ensures d == UInt8 && c == 1 ==> PilModes[ModeKey(d, c)] == "L"
    ensures d == UInt8 && c == 3 ==> PilModes[ModeKey(d, c)] == "RGB"
    ensures d == Int32 && c == 1 ==> PilModes[ModeKey(d, c)] == "I"
    ensures d == Float32 && c == 1 ==> PilModes[ModeKey(d, c)] == "F"
  {
    assert ModeKey(Bool, 1) == "bool_1";
    assert ModeKey(UInt8, 1) == "uint8_1";
    assert ModeKey(UInt8, 3) == "uint8_3";
    assert ModeKey(Int32, 1) == "int32_1";
    assert ModeKey(Float32, 1) == "float32_1";
    if ModeKey(d, c) in PilModes {
      if ModeKey(d, c) == "bool_1" { ModeKeyInjective(d, c, Bool, 1); }
      else if ModeKey(d, c) == "uint8_1" { ModeKeyInjective(d, c, UInt8, 1); }
      else if ModeKey(d, c) == "uint8_3" { ModeKeyInjective(d, c, UInt8, 3); }
      else if ModeKey(d, c) == "int32_1" { ModeKeyInjective(d, c, Int32, 1); }
      else { ModeKeyInjective(d, c, Float32, 1); }
    }
  }

  // ---------------------------------------------------------------------
  // Padding

  /** How far `value` is from the next multiple of `n` at or above it.
      Python's `%` and Dafny's agree for a positive divisor. */
  function DiffToNextMultiple(value: int, n: int): (d: int)
    requires n > 0
    ensures 0 <= d < n
    ensures (value + d) % n == 0
    ensures d == 0 <==> value % n == 0
  {
    var rem := value % n;
    NextMultiple(value, n);
    if rem == 0 then 0 else n - rem
  }

  lemma NextMultiple(value: int, n: int)
    requires n > 0
    ensures value % n != 0 ==> (value + (n - value % n)) % n == 0
  {
    var q := value / n;
    var rem := value % n;
    assert value == n * q + rem;
    assert value + (n - rem) == n * (q + 1) + 0;
    ModUnique(value + (n - rem), n, q + 1, 0);
  }

  lemma MulAtLeast(n: int, k: int)
    requires n > 0 && k >= 1
    ensures n * k >= n
  {
  }

  /** Euclidean remainders are unique. */
  lemma ModUnique(a: int, n: int, q: int, r: int)
    requires n > 0 && 0 <= r < n && a == n * q + r
    ensures a % n == r
  {
    var q0 := a / n;
    var r0 := a % n;
    assert a == n * q0 + r0;
    var k := q - q0;
    assert n * k == r0 - r by { assert n * q - n * q0 == n * (q - q0); }
    if k >= 1 { MulAtLeast(n, k); }
    else if k <= -1 { MulAtLeast(n, -k); }
  }

  lemma DiffToNextMultipleExample()
    ensures DiffToNextMultiple(20, 8) == 4
  {
  }

  /** Pads `g` at the bottom and on the right with `zero` so that each axis
      becomes the smallest multiple of the cell shape at or above its length.
      The caller supplies the zero of the element type: `false` for a boolean
      grid, 0 otherwise. A channel axis lives inside the element type `T`, so
      it is never padded: a padded RGB pixel is all-zero in each channel. */
  function PadToMultipleOfShape<T>(g: Grid<T>, cell: Dims, zero: T): (r: Grid<T>)
    requires cell.height > 0 && cell.width > 0
    ensures |r| % cell.height == 0 && |g| <= |r| < |g| + cell.height
    ensures 0 < |g| ==> Width(r) % cell.width == 0 && Width(g) <= Width(r) < Width(g) + cell.width
    ensures forall i :: 0 <= i < |r| ==> |r[i]| == Width(r)
    ensures forall i, j :: 0 <= i < |g| && 0 <= j < Width(g) ==> r[i][j] == g[i][j]
    ensures forall i, j :: 0 <= i < |r| && 0 <= j < Width(r) && (|g| <= i || Width(g) <= j) ==> r[i][j] == zero
  {
    var h := |g| + DiffToNextMultiple(|g|, cell.height);
    var w := if |g| == 0 then 0 else Width(g) + DiffToNextMultiple(Width(g), cell.width);
    seq(h, i requires 0 <= i < h =>
      seq(w, j requires 0 <= j < w => if i < |g| && j < Width(g) then g[i][j] else zero))
  }

  lemma PadExample(g: Grid<real>)
    requires |g| == 9 && Width(g) == 9
    ensures var r := PadToMultipleOfShape(g, Dims(4, 2), 0.0); |r| == 12 && Width(r) == 10
  {
  }

  // ---------------------------------------------------------------------
  // Shape resolution

  /** `get_termianl_pixels`: the terminal's size in pixels for a drawer whose
      character cell covers `cell` pixels. The code unpacks `(columns, lines)`
      and builds `ShapeByCells(lines, columns)`, so height comes from lines. */
  function TerminalPixels(cell: Dims, term: TermSize): (r: Dims)
    ensures r.height == term.lines * cell.height
    ensures r.width == term.columns * cell.width
  {
    PixelsOfShape(Known(ByCells(term.lines, term.columns)), cell, Dims(0, 0)).value
  }

  /** `get_pixels_of_shape`: the pixel size a shape asks for. Cells scale by
      the cell shape, pixels pass through, a ratio is taken of the terminal's
      pixels and rounded; anything else is refused. */
  function PixelsOfShape(shape: ShapeArg, cell: Dims, termPixels: Dims): (r: Result<Dims>)
    ensures r.Err? <==> !shape.Known?
    ensures r.Err? ==> r.error == ValueError("Unknown shape format.")
    ensures shape.Known? && shape.shape.ByCells? ==>
      r.value.height == cell.height * shape.shape.height && r.value.width == cell.width * shape.shape.width
    ensures shape.Known? && shape.shape.ByPixels? ==>
      r.value.height == shape.shape.height && r.value.width == shape.shape.width
    ensures shape.Known? && shape.shape.ByRatio? ==>
      var h := shape.shape.heightRatio * termPixels.height as real;
      var w := shape.shape.widthRatio * termPixels.width as real;
      && h - 0.5 <= r.value.height as real <= h + 0.5
      && w - 0.5 <= r.value.width as real <= w + 0.5
      && ((r.value.height as real == h - 0.5 || r.value.height as real == h + 0.5) ==> r.value.height % 2 == 0)
      && ((r.value.width as real == w - 0.5 || r.value.width as real == w + 0.5) ==> r.value.width % 2 == 0)
  {
    match shape
    case Known(ByCells(h, w)) => Ok(Dims(cell.height * h, cell.width * w))
    case Known(ByRatio(h, w)) =>
      Ok(Dims(Round(Times(h, termPixels.height)), Round(Times(w, termPixels.width))))
    case Known(ByPixels(h, w)) => Ok(Dims(h, w))
    case _ => Err(ValueError("Unknown shape format."))
  }

  /** The three doc examples of `get_pixels_of_shape`. */
  lemma PixelsOfShapeExamples(tp: Dims)
    ensures PixelsOfShape(Known(ByCells(10, 10)), Dims(4, 2), tp) == Ok(Dims(40, 20))
    ensures PixelsOfShape(Known(ByRatio(0.8, 0.8)), Dims(4, 2), Dims(50, 100)) == Ok(Dims(40, 80))
    ensures PixelsOfShape(Known(ByPixels(80, 200)), Dims(4, 2), tp) == Ok(Dims(80, 200))
  {
    RoundOfInteger(40);
    RoundOfInteger(80);
    assert 0.8 * 50 as real == 40 as real;
    assert 0.8 * 100 as real == 80 as real;
  }

  /** Half of 25 columns is 12.5, which `round` sends to 12, not 13. */
  lemma RatioTieExample(termHeight: nat)
    ensures PixelsOfShape(Known(ByRatio(0.5, 0.5)), Dims(2, 1), Dims(termHeight, 25)).value.width == 12
  {
    var w := PixelsOfShape(Known(ByRatio(0.5, 0.5)), Dims(2, 1), Dims(termHeight, 25)).value.width;
    assert 0.5 * 25 as real == 12.5;
    assert w == 12 || w == 13;
  }

  /** `shrink_to_terminal`: each axis clamped to the terminal on its own. */
  function Shrink(req: Dims, termPixels: Dims): (r: Dims)
    ensures r.height <= req.height && r.height <= termPixels.height
    ensures r.height == req.height || r.height == termPixels.height
    ensures r.width <= req.width && r.width <= termPixels.width
    ensures r.width == req.width || r.width == termPixels.width
  {
    Dims(if req.height <= termPixels.height then req.height else termPixels.height,
         if req.width <= termPixels.width then req.width else termPixels.width)
  }

  /** The uniform scale that fits a `bufH` by `bufW` buffer into `box`: the
      smaller of the two axis ratios. */
  function Scale(box: Dims, bufH: int, bufW: int): real
    requires bufH != 0 && bufW != 0
  {
    var ver := box.height as real / bufH as real;
    var hor := box.width as real / bufW as real;
    if ver <= hor then ver else hor
  }

  /** `preserve_aspect_ratio`: scales the buffer uniformly into `box`. Under
      exact arithmetic the result fits inside the box, meets it on the tighter
      axis, and is within rounding of the buffer scaled by one factor. A
      buffer with an empty axis divides by zero. */
  function PreserveAspect(box: Dims, bufH: nat, bufW: nat): (r: Result<Dims>)
    ensures r.Err? <==> bufH == 0 || bufW == 0
    ensures r.Err? ==> r.error == ZeroDivisionError
    ensures r.Ok? ==> r.value.height <= box.height && r.value.width <= box.width
    ensures r.Ok? ==> r.value.height == box.height || r.value.width == box.width
    ensures r.Ok? ==>
      var s := Scale(box, bufH, bufW);
      && s * bufH as real - 0.5 <= r.value.height as real <= s * bufH as real + 0.5
      && s * bufW as real - 0.5 <= r.value.width as real <= s * bufW as real + 0.5
      && ((r.value.height as real == s * bufH as real - 0.5 || r.value.height as real == s * bufH as real + 0.5)
          ==> r.value.height % 2 == 0)
      && ((r.value.width as real == s * bufW as real - 0.5 || r.value.width as real == s * bufW as real + 0.5)
          ==> r.value.width % 2 == 0)
  {
    if bufH == 0 || bufW == 0 then Err(ZeroDivisionError)
    else
      FitsBox(box, bufH, bufW);
      Ok(Scaled(Scale(box, bufH, bufW), bufH, bufW))
  }

  /** The buffer's size scaled by `s`, each axis rounded. */
  function Scaled(s: real, bufH: nat, bufW: nat): (r: Dims)
    ensures s * bufH as real - 0.5 <= r.height as real <= s * bufH as real + 0.5
    ensures s * bufW as real - 0.5 <= r.width as real <= s * bufW as real + 0.5
    ensures (r.height as real == s * bufH as real - 0.5 || r.height as real == s * bufH as real + 0.5)
            ==> r.height % 2 == 0
    ensures (r.width as real == s * bufW as real - 0.5 || r.width as real == s * bufW as real + 0.5)
            ==> r.width % 2 == 0
  {
    Dims(Round(s * bufH as real), Round(s * bufW as real))
  }

  lemma FitsBox(box: Dims, bufH: nat, bufW: nat)
    requires bufH > 0 && bufW > 0
    ensures var r := Scaled(Scale(box, bufH, bufW), bufH, bufW);
      && r.height <= box.height && r.width <= box.width
      && (r.height == box.height || r.width == box.width)
  {
    var ver := box.height as real / bufH as real;
    var hor := box.width as real / bufW as real;
    if ver <= hor {
      ScaleByHeight(box, bufH, bufW);
    } else {
      ScaleByWidth(box, bufH, bufW);
    }
  }

  lemma ScaleByHeight(box: Dims, bufH: nat, bufW: nat)
    requires bufH > 0 && bufW > 0
    requires box.height as real / bufH as real <= box.width as real / bufW as real
    ensures var r := Scaled(Scale(box, bufH, bufW), bufH, bufW);
      r.height == box.height && r.width <= box.width
  {
    var s := Scale(box, bufH, bufW);
    assert s == box.height as real / bufH as real <= box.width as real / bufW as real;
    TightAxis(box.height, box.width, bufH as real, bufW as real, s);
    ScaledFits(s, bufH, bufW, box);
  }

  lemma ScaleByWidth(box: Dims, bufH: nat, bufW: nat)
    requires bufH > 0 && bufW > 0
    requires !(box.height as real / bufH as real <= box.width as real / bufW as real)
    ensures var r := Scaled(Scale(box, bufH, bufW), bufH, bufW);
      r.width == box.width && r.height <= box.height
  {
    var s := Scale(box, bufH, bufW);
    assert s == box.width as real / bufW as real <= box.height as real / bufH as real;
    TightAxis(box.width, box.height, bufW as real, bufH as real, s);
    ScaledFits(s, bufH, bufW, box);
  }

  lemma ScaledFits(s: real, bufH: nat, bufW: nat, box: Dims)
    requires Round(s * bufH as real) <= box.height && Round(s * bufW as real) <= box.width
    requires Round(s * bufH as real) == box.height || Round(s * bufW as real) == box.width
    ensures var r := Scaled(s, bufH, bufW);
      && r.height <= box.height && r.width <= box.width
      && (r.height == box.height || r.width == box.width)
  {
  }

  /** Scaling by the ratio of the tighter axis meets the box on that axis and
      stays inside it on the other. */
  lemma TightAxis(tight: int, loose: int, tb: real, lb: real, s: real)
    requires tb > 0.0 && lb > 0.0
    requires s == tight as real / tb <= loose as real / lb
    ensures Round(s * tb) == tight
    ensures Round(s * lb) <= loose
  {
    DivMul(tight as real, tb);
    DivMul(loose as real, lb);
    MulMonotone(s, loose as real / lb, lb);
    RoundOfInteger(tight);
    RoundAtMost(s * lb, loose);
  }

  lemma DivMul(x: real, y: real)
    requires y != 0.0
    ensures (x / y) * y == x
  {
  }

  lemma MulMonotone(a: real, b: real, c: real)
    requires a <= b && c > 0.0
    ensures a * c <= b * c
  {
  }

  /** A box of the buffer's own size leaves the buffer's size unchanged. */
  lemma PreserveAspectOwnSize(h: nat, w: nat)
    requires h > 0 && w > 0
    ensures PreserveAspect(Dims(h, w), h, w) == Ok(Dims(h, w))
  {
    assert h as real / h as real == 1.0;
    assert w as real / w as real == 1.0;
    assert Scale(Dims(h, w), h, w) == 1.0;
    assert 1.0 * h as real == h as real && 1.0 * w as real == w as real;
    RoundOfInteger(h);
    RoundOfInteger(w);
  }

  /** `get_resized_shape`: the pixel size the buffer is resized to. */
  function ResizedShape(bufH: nat, bufW: nat, shape: ShapeArg, cell: Dims,
                        preserveAspectRatio: bool, shrinkToTerminal: bool, term: TermSize): (r: Result<Dims>)
    ensures r.Err? <==> !shape.Known? || (preserveAspectRatio && (bufH == 0 || bufW == 0))
    ensures r.Ok? && shrinkToTerminal ==>
      var tp := TerminalPixels(cell, term);
      r.value.height <= tp.height && r.value.width <= tp.width
    ensures r.Ok? && !preserveAspectRatio ==>
      var tp := TerminalPixels(cell, term);
      var req := PixelsOfShape(shape, cell, tp).value;
      r.value == if shrinkToTerminal then Shrink(req, tp) else req
    ensures r.Ok? && preserveAspectRatio ==>
      var tp := TerminalPixels(cell, term);
      var req := PixelsOfShape(shape, cell, tp).value;
      var box := if shrinkToTerminal then Shrink(req, tp) else req;
      && r == PreserveAspect(box, bufH, bufW)
      && r.value.height <= box.height && r.value.width <= box.width
      && (r.value.height == box.height || r.value.width == box.width)
  {
    var tp := TerminalPixels(cell, term);
    var req :- PixelsOfShape(shape, cell, tp);
    var box := if shrinkToTerminal then Shrink(req, tp) else req;
    if preserveAspectRatio then PreserveAspect(box, bufH, bufW) else Ok(box)
  }

  /** Asking for more than the terminal holds, with shrinking on and aspect
      preservation off, yields exactly the terminal's pixel size. */
  lemma ShrinkOversizedRequest(bufH: nat, bufW: nat, shape: Shape, cell: Dims, term: TermSize)
    requires var tp := TerminalPixels(cell, term);
      var req := PixelsOfShape(Known(shape), cell, tp).value;
      req.height >= tp.height && req.width >= tp.width
    ensures ResizedShape(bufH, bufW, Known(shape), cell, false, true, term) == Ok(TerminalPixels(cell, term))
  {
  }

  // ---------------------------------------------------------------------
  // PIL's resize

  /** What PIL's `Image.resize` raises for a target below one pixel. */
  const NonPositiveSize := "height and width must be > 0"

  /** Whether `Image.resize` refuses to take a `bufH` by `bufW` image to
      `target`: an axis below one pixel is refused, unless the target is the
      image's own size, for which PIL returns a copy without resampling. */
  predicate ResizeRefused(bufH: nat, bufW: nat, target: Dims) {
    (target.height < 1 || target.width < 1) && target != Dims(bufH, bufW)
  }

  /** A strip one pixel high and a thousand wide, fitted with its aspect kept
      into an 80 by 24 terminal of 2 by 1 cells, is scaled by 80/1000 and
      rounds to no rows at all, a target PIL refuses. */
  lemma ThinStripCollapses()
    ensures ResizedShape(1, 1000, Known(ByPixels(1, 1000)), Dims(2, 1), true, true, TermSize(80, 24))
         == Ok(Dims(0, 80))
    ensures ResizeRefused(1, 1000, Dims(0, 80))
  {
    var box := Dims(1, 80);
    assert Shrink(Dims(1, 1000), TerminalPixels(Dims(2, 1), TermSize(80, 24))) == box;
    assert 1 as real / 1 as real == 1.0;
    assert 80 as real / 1000 as real == 0.08;
    assert Scale(box, 1, 1000) == 0.08;
    assert 0.08 * 1 as real == 0.08;
    assert 0.08 * 1000 as real == 80 as real;
    RoundNearest(0.08, 0);
    RoundOfInteger(80);
  }
}
