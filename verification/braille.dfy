/** `impl/braille.py`: a single-channel buffer drawn as Unicode Braille
    Patterns, one character per 4-row by 2-column block of pixels. The
    resize and 1-bit conversion done by PIL are a collaborator parameter:
    given the target size, it returns the binarized grid. */
module Braille {
  import opened Outcomes
  import opened Text
  import opened Pixels
  import opened Shapes
  import opened Rounding
  import opened Util

  /** Pixel rows and columns one character covers. */
  const CellShape := Dims(4, 2)

  /** First code point of the Unicode Braille Patterns block. */
  const BrailleBase := 0x2800

  /** The code's weight vector, indexed by the row-major position
      `2 * row + column` of a dot inside its block. */
  const Weights: seq<int> := [0x01, 0x08, 0x02, 0x10, 0x04, 0x20, 0x40, 0x80]

  // ---------------------------------------------------------------------
  // The weight table against the Unicode dot numbering

  /** The number Unicode gives the dot at row `i`, column `j` of a cell:
      dots 1 to 3 run down the left column, 4 to 6 down the right one, and
      7 and 8 sit on the bottom row, left then right. */
  function DotNumber(i: nat, j: nat): (n: nat)
    requires i < 4 && j < 2
    ensures 1 <= n <= 8
  {
    if i < 3 then 1 + i + 3 * j else 7 + j
  }

  function Pow2(n: nat): (p: nat)
    ensures p >= 1
  {
    if n == 0 then 1 else 2 * Pow2(n - 1)
  }

  /** Each position's weight is 2 to the power of its dot number minus one:
      the table is the standard Braille dot numbering. */
  lemma WeightsFollowDotNumbering()
    ensures |Weights| == 8
    ensures forall k :: 0 <= k < 8 ==> Weights[k] == Pow2(DotNumber(k / 2, k % 2) - 1)
  {
    assert Pow2(0) == 1 && Pow2(1) == 2 && Pow2(2) == 4 && Pow2(3) == 8;
    assert Pow2(4) == 16 && Pow2(5) == 32 && Pow2(6) == 64 && Pow2(7) == 128;
  }

  // ---------------------------------------------------------------------
  // Packing one block

  /** Sum of `w[k]` over the set `bits[k]` with `k >= from`: numpy's `dot`
      of a boolean vector with the weights. */
  function WeightedSum(bits: seq<bool>, w: seq<int>, from: nat): int
    requires |bits| == |w| && from <= |bits|
    decreases |bits| - from
  {
    if from == |bits| then 0
    else (if bits[from] then w[from] else 0) + WeightedSum(bits, w, from + 1)
  }

  /** Setting one dot adds exactly that dot's weight. */
  lemma {:induction false} FlipAddsWeight(bits: seq<bool>, w: seq<int>, k: nat, from: nat)
    requires |bits| == |w| && from <= |bits| && k < |bits|
    ensures WeightedSum(bits[k := true], w, from)
         == WeightedSum(bits[k := false], w, from) + (if from <= k then w[k] else 0)
    decreases |bits| - from
  {
    if from < |bits| {
      FlipAddsWeight(bits, w, k, from + 1);
    }
  }

  /** The block's offset from U+2800. */
  function Mask(bits: seq<bool>): (m: int)
    requires |bits| == 8
    ensures 0 <= m < 256
  {
    MaskIsBinary(bits);
    BinBound(ByDotNumber(bits));
    WeightedSum(bits, Weights, 0)
  }

  /** The dots of a block listed by dot number: entry `n - 1` is dot `n`. */
  function ByDotNumber(bits: seq<bool>): (d: seq<bool>)
    requires |bits| == 8
    ensures |d| == 8
    ensures forall i, j :: 0 <= i < 4 && 0 <= j < 2 ==> d[DotNumber(i, j) - 1] == bits[2 * i + j]
  {
    [bits[0], bits[2], bits[4], bits[1], bits[3], bits[5], bits[6], bits[7]]
  }

  function B(b: bool): nat {
    if b then 1 else 0
  }

  /** The value of the little-endian bits `b[from..]`. */
  function BinFrom(b: seq<bool>, from: nat): nat
    requires from <= |b|
    decreases |b| - from
  {
    if from == |b| then 0 else B(b[from]) + 2 * BinFrom(b, from + 1)
  }

  /** The value of a little-endian list of bits. */
  function Bin(b: seq<bool>): nat {
    BinFrom(b, 0)
  }

  /** Bit `n` of `m`. */
  function Bit(m: nat, n: nat): bool
    decreases n
  {
    if n == 0 then m % 2 == 1 else Bit(m / 2, n - 1)
  }

  lemma {:induction false} BinFromBound(b: seq<bool>, from: nat)
    requires from <= |b|
    ensures BinFrom(b, from) < Pow2(|b| - from)
    decreases |b| - from
  {
    if from < |b| {
      BinFromBound(b, from + 1);
    }
  }

  lemma BinBound(b: seq<bool>)
    ensures Bin(b) < Pow2(|b|)
  {
    BinFromBound(b, 0);
  }

  lemma {:induction false} BitOfBinFrom(b: seq<bool>, from: nat, n: nat)
    requires from + n < |b|
    ensures Bit(BinFrom(b, from), n) == b[from + n]
    decreases n
  {
    if n > 0 {
      assert (B(b[from]) + 2 * BinFrom(b, from + 1)) / 2 == BinFrom(b, from + 1);
      BitOfBinFrom(b, from + 1, n - 1);
    }
  }

  lemma BitOfBin(b: seq<bool>, n: nat)
    requires n < |b|
    ensures Bit(Bin(b), n) == b[n]
  {
    BitOfBinFrom(b, 0, n);
  }

  lemma BinFromFour(d: seq<bool>, from: nat)
    requires from + 4 <= |d|
    ensures BinFrom(d, from) == B(d[from]) + 2 * B(d[from + 1]) + 4 * B(d[from + 2]) + 8 * B(d[from + 3])
                              + 16 * BinFrom(d, from + 4)
  {
    assert BinFrom(d, from + 2) == B(d[from + 2]) + 2 * BinFrom(d, from + 3);
    assert BinFrom(d, from + 3) == B(d[from + 3]) + 2 * BinFrom(d, from + 4);
  }

  lemma BinOfEight(d: seq<bool>)
    requires |d| == 8
    ensures Bin(d) == B(d[0]) + 2 * B(d[1]) + 4 * B(d[2]) + 8 * B(d[3])
                    + 16 * B(d[4]) + 32 * B(d[5]) + 64 * B(d[6]) + 128 * B(d[7])
  {
    BinFromFour(d, 0);
    BinFromFour(d, 4);
    assert BinFrom(d, 8) == 0;
  }

  lemma WeightedSumOfEight(bits: seq<bool>)
    requires |bits| == 8
    ensures WeightedSum(bits, Weights, 0)
         == B(bits[0]) + 8 * B(bits[1]) + 2 * B(bits[2]) + 16 * B(bits[3])
          + 4 * B(bits[4]) + 32 * B(bits[5]) + 64 * B(bits[6]) + 128 * B(bits[7])
  {
    var w := Weights;
    assert WeightedSum(bits, w, 7) == 128 * B(bits[7]);
    assert WeightedSum(bits, w, 6) == 64 * B(bits[6]) + WeightedSum(bits, w, 7);
    assert WeightedSum(bits, w, 5) == 32 * B(bits[5]) + WeightedSum(bits, w, 6);
    assert WeightedSum(bits, w, 4) == 4 * B(bits[4]) + WeightedSum(bits, w, 5);
    assert WeightedSum(bits, w, 3) == 16 * B(bits[3]) + WeightedSum(bits, w, 4);
    assert WeightedSum(bits, w, 2) == 2 * B(bits[2]) + WeightedSum(bits, w, 3);
    assert WeightedSum(bits, w, 1) == 8 * B(bits[1]) + WeightedSum(bits, w, 2);
  }

  /** The weighted sum is the binary number whose bits are the dots in
      Unicode order. */
  lemma MaskIsBinary(bits: seq<bool>)
    requires |bits| == 8
    ensures WeightedSum(bits, Weights, 0) == Bin(ByDotNumber(bits))
  {
    BinOfEight(ByDotNumber(bits));
    WeightedSumOfEight(bits);
  }

  /** Dot `DotNumber(i, j)` of a packed block is raised exactly when the
      pixel at row `i`, column `j` of the block is set. */
  lemma MaskDots(bits: seq<bool>, i: nat, j: nat)
    requires |bits| == 8 && i < 4 && j < 2
    ensures Bit(Mask(bits), DotNumber(i, j) - 1) == bits[2 * i + j]
  {
    MaskIsBinary(bits);
    BitOfBin(ByDotNumber(bits), DotNumber(i, j) - 1);
  }

  /** Different blocks pack to different code points. */
  lemma MaskInjective(a: seq<bool>, b: seq<bool>)
    requires |a| == 8 && |b| == 8
    requires Mask(a) == Mask(b)
    ensures a == b
  {
    forall k | 0 <= k < 8
      ensures a[k] == b[k]
    {
      MaskDots(a, k / 2, k % 2);
      MaskDots(b, k / 2, k % 2);
    }
  }

  /** Raising one dot moves the code point up by exactly that dot's weight. */
  lemma MaskFlip(bits: seq<bool>, k: nat)
    requires |bits| == 8 && k < 8
    ensures Mask(bits[k := true]) == Mask(bits[k := false]) + Weights[k]
  {
    FlipAddsWeight(bits, Weights, k, 0);
  }

  /** A block with no dot raised is U+2800, one with every dot raised U+28FF. */
  lemma MaskUniform(bits: seq<bool>, v: bool)
    requires |bits| == 8
    requires forall k :: 0 <= k < 8 ==> bits[k] == v
    ensures BrailleBase + Mask(bits) == if v then 0x28FF else 0x2800
  {
    MaskIsBinary(bits);
    assert ByDotNumber(bits) == seq(8, _ => v);
    BinFromOfAll(8, v, 0);
  }

  lemma {:induction false} BinFromOfAll(n: nat, v: bool, from: nat)
    requires from <= n
    ensures BinFrom(seq(n, _ => v), from) == if v then Pow2(n - from) - 1 else 0
    decreases n - from
  {
    if from < n {
      BinFromOfAll(n, v, from + 1);
    }
  }

  // ---------------------------------------------------------------------
  // Packing a grid

  /** The eight pixels of block (`br`, `bc`) in row-major order, the order
      numpy's reshape and transpose lay them out in. */
  function BlockBits(g: Grid<bool>, br: nat, bc: nat): (bits: seq<bool>)
    requires 4 * br + 3 < |g| && 2 * bc + 1 < Width(g)
    ensures |bits| == 8
    ensures forall k :: 0 <= k < 8 ==> bits[k] == g[4 * br + k / 2][2 * bc + k % 2]
  {
    seq(8, k requires 0 <= k < 8 => g[4 * br + k / 2][2 * bc + k % 2])
  }

  predicate IsBrailleCode(c: int) {
    0x2800 <= c <= 0x28FF
  }

  /** `_pack_2x4_pixel_to_braille_code`: one code point per block. numpy
      refuses the reshape when either axis is empty. */
  function Pack(g: Grid<bool>): (r: Result<Grid<int>>)
    requires |g| % 4 == 0 && Width(g) % 2 == 0
    ensures r.Err? <==> |g| == 0 || Width(g) == 0
    ensures r.Ok? ==> |r.value| == |g| / 4 && Width(r.value) == Width(g) / 2
    ensures r.Ok? ==> forall br, bc :: 0 <= br < |r.value| && 0 <= bc < |r.value[br]| ==> IsBrailleCode(r.value[br][bc])
  {
    if |g| == 0 || Width(g) == 0 then
      Err(ValueError("cannot reshape array of size 0"))
    else
      var rows := |g| / 4;
      var cols := Width(g) / 2;
      Ok(seq(rows, br requires 0 <= br < rows =>
        seq(cols, bc requires 0 <= bc < cols => BrailleBase + Mask(BlockBits(g, br, bc)))))
  }

  /** Reading the packed codes back: dot `DotNumber(i, j)` of the code for
      block (`br`, `bc`) is raised exactly when pixel
      (`4 * br + i`, `2 * bc + j`) is set. So packing loses nothing. */
  lemma PackDots(g: Grid<bool>, br: nat, bc: nat, i: nat, j: nat)
    requires |g| % 4 == 0 && Width(g) % 2 == 0 && 0 < |g| && 0 < Width(g)
    requires br < |g| / 4 && bc < Width(g) / 2 && i < 4 && j < 2
    ensures Bit(Pack(g).value[br][bc] - BrailleBase, DotNumber(i, j) - 1) == g[4 * br + i][2 * bc + j]
  {
    var bits := BlockBits(g, br, bc);
    var k := 2 * i + j;
    assert k / 2 == i && k % 2 == j;
    assert bits[k] == g[4 * br + i][2 * bc + j];
    MaskDots(bits, i, j);
  }

  lemma PackInjective(g: Grid<bool>, h: Grid<bool>)
    requires |g| % 4 == 0 && Width(g) % 2 == 0 && 0 < |g| && 0 < Width(g)
    requires |h| == |g| && Width(h) == Width(g)
    requires Pack(g) == Pack(h)
    ensures g == h
  {
    forall y, x | 0 <= y < |g| && 0 <= x < Width(g)
      ensures g[y][x] == h[y][x]
    {
      PackDots(g, y / 4, x / 2, y % 4, x % 2);
      PackDots(h, y / 4, x / 2, y % 4, x % 2);
    }
    forall y | 0 <= y < |g|
      ensures g[y] == h[y]
    {
    }
  }

  /** `_pad_to_multiple_of_2x4`: pads with `false` to a multiple of four rows
      and two columns. */
  function PadTo2x4(g: Grid<bool>): (r: Grid<bool>)
    ensures |r| % 4 == 0 && |g| <= |r| < |g| + 4
    ensures 0 < |g| ==> Width(r) % 2 == 0 && Width(g) <= Width(r) < Width(g) + 2
    ensures |g| == 0 ==> r == []
    ensures forall y, x :: 0 <= y < |g| && 0 <= x < Width(g) ==> r[y][x] == g[y][x]
    ensures forall y, x :: 0 <= y < |r| && 0 <= x < Width(r) && (|g| <= y || Width(g) <= x) ==> !r[y][x]
  {
    PadToMultipleOfShape(g, CellShape, false)
  }

  lemma PadExample(g: Grid<bool>)
    requires |g| == 9 && Width(g) == 9
    ensures |PadTo2x4(g)| == 12 && Width(PadTo2x4(g)) == 10
  {
  }

  /** `_convert_to_str`: one character per block, lines joined by a newline
      with none after the last. */
  function ToText(codes: Grid<int>): (r: Result<string>)
    requires forall br, bc :: 0 <= br < |codes| && 0 <= bc < |codes[br]| ==> IsBrailleCode(codes[br][bc])
    ensures r.Ok? <==> |codes| == 0 || Width(codes) > 0
  {
    assert NoSurrogates(codes) && AllInChrRange(codes) by {
      forall i, j | 0 <= i < |codes| && 0 <= j < |codes[i]|
        ensures InChrRange(codes[i][j]) && IsScalar(codes[i][j])
      {
        assert IsBrailleCode(codes[i][j]);
      }
    }
    ConvertToStr(codes, "\n")
  }

  /** Splitting the text at newlines gives one line per row of blocks, each
      holding that row's code points in order. */
  lemma ToTextLines(codes: Grid<int>)
    requires forall br, bc :: 0 <= br < |codes| && 0 <= bc < |codes[br]| ==> IsBrailleCode(codes[br][bc])
    requires 0 < |codes| && 0 < Width(codes)
    ensures ToText(codes).Ok?
    ensures var lines := Split(ToText(codes).value, '\n');
      && |lines| == |codes|
      && (forall y :: 0 <= y < |codes| ==> |lines[y]| == Width(codes))
      && (forall y, x :: 0 <= y < |codes| && 0 <= x < Width(codes) ==> lines[y][x] as int == codes[y][x])
  {
    ConvertToStrLines(codes, '\n');
  }

  // ---------------------------------------------------------------------
  // Target size

  /** Pixel size the shape asks for, as `_get_resized_shape` computes it.
      The terminal is `columns * 2` pixels wide and `lines * 4` high. For a
      shape by cells the width is `2 * term_height`, whatever the shape's
      width; an object that is none of the shape classes has no `width`. */
  function RequestedPixels(shape: ShapeArg, term: TermSize): (r: Result<Dims>)
    ensures r.Err? <==> !shape.Known?
    ensures r.Err? ==> r.error == AttributeError("width")
    ensures shape.Known? && !shape.shape.ByCells? ==>
      r == PixelsOfShape(shape, CellShape, TerminalPixels(CellShape, term))
    ensures shape.Known? && shape.shape.ByCells? ==>
      r.value.height == 4 * shape.shape.height && r.value.width == 8 * term.lines
  {
    var termPixels := TerminalPixels(CellShape, term);
    match shape
    case Known(ByCells(h, _)) => Ok(Dims(4 * h, 2 * termPixels.height))
    case Known(ByRatio(h, w)) =>
      Ok(Dims(Round(Times(h, termPixels.height)), Round(Times(w, termPixels.width))))
    case Known(ByPixels(h, w)) => Ok(Dims(h, w))
    case _ => Err(AttributeError("width"))
  }

  /** The request for a shape by cells with its width taken from the shape,
      as the height is. */
  function RequestedPixelsCorrected(shape: ShapeArg, term: TermSize): (r: Result<Dims>)
    ensures r.Err? <==> !shape.Known?
    ensures shape.Known? ==> r == PixelsOfShape(shape, CellShape, TerminalPixels(CellShape, term))
  {
    match shape
    case Known(ByCells(h, w)) => Ok(Dims(4 * h, 2 * w))
    case _ => RequestedPixels(shape, term)
  }

  /** On an 80-column, 24-line terminal, ten cells by ten ask for a width of
      192 pixels instead of 20. */
  lemma CellsWidthIgnored()
    ensures RequestedPixels(Known(ByCells(10, 10)), TermSize(80, 24)) == Ok(Dims(40, 192))
    ensures RequestedPixelsCorrected(Known(ByCells(10, 10)), TermSize(80, 24)) == Ok(Dims(40, 20))
  {
  }

  /** `_get_resized_shape` as written: the request, clamped to the terminal
      on each axis if asked, then fitted to the buffer's aspect ratio if
      asked. For a ratio or a pixel size it agrees with the shared
      `get_resized_shape`; for a shape by cells it behaves as if
      `4 * height` by `2 * term_height` pixels had been asked for. */
  function ResizedShape(bufH: nat, bufW: nat, shape: ShapeArg, preserveAspectRatio: bool,
                        shrinkToTerminal: bool, term: TermSize): (r: Result<Dims>)
    ensures r.Err? <==> !shape.Known? || (preserveAspectRatio && (bufH == 0 || bufW == 0))
    ensures !shape.Known? ==> r == Err(AttributeError("width"))
    ensures shape.Known? && !shape.shape.ByCells? ==>
      r == Util.ResizedShape(bufH, bufW, shape, CellShape, preserveAspectRatio, shrinkToTerminal, term)
    ensures shape.Known? && shape.shape.ByCells? ==>
      r == Util.ResizedShape(bufH, bufW, Known(ByPixels(4 * shape.shape.height, 8 * term.lines)), CellShape,
                             preserveAspectRatio, shrinkToTerminal, term)
    ensures r.Ok? && shrinkToTerminal ==> r.value.height <= 4 * term.lines && r.value.width <= 2 * term.columns
  {
    var termPixels := Dims(term.lines * 4, term.columns * 2);
    var req :- RequestedPixels(shape, term);
    var box := if shrinkToTerminal then Shrink(req, termPixels) else req;
    if preserveAspectRatio then PreserveAspect(box, bufH, bufW) else Ok(box)
  }

  /** `_get_resized_shape` with the width of a shape by cells taken from the
      shape. For every shape class it agrees with the shared
      `get_resized_shape`. */
  function ResizedShapeCorrected(bufH: nat, bufW: nat, shape: ShapeArg, preserveAspectRatio: bool,
                                 shrinkToTerminal: bool, term: TermSize): (r: Result<Dims>)
    ensures r.Err? <==> !shape.Known? || (preserveAspectRatio && (bufH == 0 || bufW == 0))
    ensures !shape.Known? ==> r == Err(AttributeError("width"))
    ensures shape.Known? ==>
      r == Util.ResizedShape(bufH, bufW, shape, CellShape, preserveAspectRatio, shrinkToTerminal, term)
    ensures r.Ok? && shrinkToTerminal ==> r.value.height <= 4 * term.lines && r.value.width <= 2 * term.columns
  {
    var termPixels := Dims(term.lines * 4, term.columns * 2);
    var req :- RequestedPixelsCorrected(shape, term);
    var box := if shrinkToTerminal then Shrink(req, termPixels) else req;
    if preserveAspectRatio then PreserveAspect(box, bufH, bufW) else Ok(box)
  }

  /** Ten cells by ten on an 80-column, 24-line terminal resize to 40 by
      192 pixels as written, or 40 by 160 when clamped to the terminal's 160
      pixel columns, where 40 by 20 is meant. */
  lemma CellsResizeIgnoresWidth(bufH: nat, bufW: nat)
    ensures ResizedShape(bufH, bufW, Known(ByCells(10, 10)), false, false, TermSize(80, 24)) == Ok(Dims(40, 192))
    ensures ResizedShape(bufH, bufW, Known(ByCells(10, 10)), false, true, TermSize(80, 24)) == Ok(Dims(40, 160))
    ensures ResizedShapeCorrected(bufH, bufW, Known(ByCells(10, 10)), false, false, TermSize(80, 24)) == Ok(Dims(40, 20))
    ensures ResizedShapeCorrected(bufH, bufW, Known(ByCells(10, 10)), false, true, TermSize(80, 24)) == Ok(Dims(40, 20))
  {
    CellsWidthIgnored();
  }

  // ---------------------------------------------------------------------
  // draw

  /** `np.squeeze`: drops every axis of length 1. */
  function Squeeze(dims: seq<nat>): (r: seq<nat>)
    ensures 1 !in r
    ensures forall d :: d != 1 ==> multiset(r)[d] == multiset(dims)[d]
    decreases |dims|
  {
    if |dims| == 0 then []
    else
      assert dims == [dims[0]] + dims[1..];
      (if dims[0] == 1 then [] else [dims[0]]) + Squeeze(dims[1..])
  }

  /** The axes from `from` on that `np.squeeze` keeps, in increasing order:
      exactly those whose length is not 1. */
  function KeptAxes(dims: seq<nat>, from: nat): (ks: seq<nat>)
    requires from <= |dims|
    ensures forall k :: 0 <= k < |ks| ==> from <= ks[k] < |dims| && dims[ks[k]] != 1
    ensures forall k, l :: 0 <= k < l < |ks| ==> ks[k] < ks[l]
    ensures forall a :: from <= a < |dims| && dims[a] != 1 ==> a in ks
    decreases |dims| - from
  {
    if from == |dims| then []
    else
      var rest := KeptAxes(dims, from + 1);
      (if dims[from] == 1 then [] else [from]) + rest
  }

  /** Squeezing keeps the order of the axes: entry `k` of the result is the
      length of the `k`-th kept axis. */
  lemma {:induction false} SqueezeKeepsOrder(dims: seq<nat>, from: nat)
    requires from <= |dims|
    ensures var ks := KeptAxes(dims, from);
      && |Squeeze(dims[from..])| == |ks|
      && forall k :: 0 <= k < |ks| ==> Squeeze(dims[from..])[k] == dims[ks[k]]
    decreases |dims| - from
  {
    if from < |dims| {
      var s := dims[from..];
      assert s[0] == dims[from];
      assert s[1..] == dims[from + 1..];
      SqueezeKeepsOrder(dims, from + 1);
    }
  }

  /** A buffer that squeezes to two axes has exactly two axes of length
      other than 1; the squeezed height is the first of them and the width
      the second. */
  lemma SqueezeTwo(dims: seq<nat>)
    requires |Squeeze(dims)| == 2
    ensures var ks := KeptAxes(dims, 0);
      && |ks| == 2 && ks[0] < ks[1]
      && Squeeze(dims) == [dims[ks[0]], dims[ks[1]]]
      && forall a :: 0 <= a < |dims| && a != ks[0] && a != ks[1] ==> dims[a] == 1
  {
    SqueezeFromStart(dims);
    OthersAreOne(dims, KeptAxes(dims, 0));
  }

  lemma SqueezeFromStart(dims: seq<nat>)
    ensures var ks := KeptAxes(dims, 0);
      && |Squeeze(dims)| == |ks|
      && forall k :: 0 <= k < |ks| ==> Squeeze(dims)[k] == dims[ks[k]]
  {
    SqueezeKeepsOrder(dims, 0);
    assert dims[0..] == dims;
  }

  lemma OthersAreOne(dims: seq<nat>, ks: seq<nat>)
    requires |ks| == 2
    requires forall a :: 0 <= a < |dims| && dims[a] != 1 ==> a in ks
    ensures forall a :: 0 <= a < |dims| && a != ks[0] && a != ks[1] ==> dims[a] == 1
  {
  }

  predicate SupportedDType(d: DType) {
    d == Bool || d == UInt8 || d == Int32 || d == Float32
  }

  const NotOneChannel := "draw_with_braille only supports 1 channel image."
  const NotSupportedDType := "draw_with_braille only supports np.bool, np.uin8, np.int32 and np.float32."

  /** Character `x` of line `y` carries, at bit `DotNumber(i, j) - 1` above
      U+2800, pixel (`4 * y + i`, `2 * x + j`) of `p`. */
  predicate DotsAre(lines: seq<string>, p: Grid<bool>) {
    forall y, x, i, j :: 0 <= y < |lines| && 0 <= x < |lines[y]| && 0 <= i < 4 && 0 <= j < 2 ==>
      && 4 * y + i < |p| && 2 * x + j < |p[4 * y + i]|
      && IsBrailleCode(lines[y][x] as int)
      && Bit(lines[y][x] as int - BrailleBase, DotNumber(i, j) - 1) == p[4 * y + i][2 * x + j]
  }

  /** Padding, packing and rendering a binarized grid. Character `x` of line
      `y` carries, at bit `DotNumber(i, j) - 1` above U+2800, pixel
      (`4 * y + i`, `2 * x + j`) of the padded grid. */
  function Render(g: Grid<bool>): (r: Result<string>)
    ensures r.Err? <==> |g| == 0 || Width(g) == 0
    ensures r.Err? ==> r.error == ValueError("cannot reshape array of size 0")
    ensures r.Ok? ==>
      var p := PadTo2x4(g);
      var lines := Split(r.value, '\n');
      && |lines| == (|g| + 3) / 4
      && (forall y :: 0 <= y < |lines| ==> |lines[y]| == (Width(g) + 1) / 2)
      && (forall y, x :: 0 <= y < |lines| && 0 <= x < |lines[y]| ==> IsBrailleCode(lines[y][x] as int))
      && DotsAre(lines, p)
  {
    var padded := PadTo2x4(g);
    var codes :- Pack(padded);
    RenderDots(padded);
    ToText(codes)
  }

  lemma RenderDots(p: Grid<bool>)
    requires |p| % 4 == 0 && Width(p) % 2 == 0 && 0 < |p| && 0 < Width(p)
    ensures var codes := Pack(p).value;
      var lines := Split(ToText(codes).value, '\n');
      && |lines| == |p| / 4
      && (forall y :: 0 <= y < |lines| ==> |lines[y]| == Width(p) / 2)
      && (forall y, x :: 0 <= y < |lines| && 0 <= x < |lines[y]| ==> lines[y][x] as int == codes[y][x])
      && DotsAre(lines, p)
  {
    var codes := Pack(p).value;
    ToTextLines(codes);
    var lines := Split(ToText(codes).value, '\n');
    forall y, x, i, j | 0 <= y < |lines| && 0 <= x < |lines[y]| && 0 <= i < 4 && 0 <= j < 2
      ensures Bit(lines[y][x] as int - BrailleBase, DotNumber(i, j) - 1) == p[4 * y + i][2 * x + j]
    {
      PackDots(p, y, x, i, j);
    }
  }

  /** `draw` as written: validates the buffer before anything else, resolves
      the target size through `_get_resized_shape`, lets the collaborator
      resize and binarize (PIL refusing a target with an empty axis), then
      renders. The buffer is given by its element
      type and shape; its pixels reach the model only through
      `resizeToBinary`. */
  function Draw(dtype: DType, dims: seq<nat>, shape: ShapeArg, preserveAspectRatio: bool,
                shrinkToTerminal: bool, term: TermSize, resizeToBinary: Dims -> Grid<bool>): (r: Result<string>)
    ensures |Squeeze(dims)| != 2 ==> r == Err(ValueError(NotOneChannel))
    ensures |Squeeze(dims)| == 2 && !SupportedDType(dtype) ==> r == Err(ValueError(NotSupportedDType))
    ensures |Squeeze(dims)| == 2 && SupportedDType(dtype) ==>
      var sq := Squeeze(dims);
      var target := ResizedShape(sq[0], sq[1], shape, preserveAspectRatio, shrinkToTerminal, term);
      && (target.Err? ==> r == Err(target.error))
      && (target.Ok? && ResizeRefused(sq[0], sq[1], target.value) ==> r == Err(ValueError(NonPositiveSize)))
      && (target.Ok? && !ResizeRefused(sq[0], sq[1], target.value) ==> r == Render(resizeToBinary(target.value)))
    ensures r.Ok? ==>
      && |Squeeze(dims)| == 2
      && var sq := Squeeze(dims);
         var target := ResizedShape(sq[0], sq[1], shape, preserveAspectRatio, shrinkToTerminal, term);
         && target.Ok?
         && !ResizeRefused(sq[0], sq[1], target.value)
         && var g := resizeToBinary(target.value);
            var p := PadTo2x4(g);
            var lines := Split(r.value, '\n');
            && 0 < |g| && 0 < Width(g)
            && |lines| == (|g| + 3) / 4
            && (forall y :: 0 <= y < |lines| ==> |lines[y]| == (Width(g) + 1) / 2)
            && DotsAre(lines, p)
  {
    var sq := Squeeze(dims);
    if |sq| != 2 then Err(ValueError(NotOneChannel))
    else if !SupportedDType(dtype) then Err(ValueError(NotSupportedDType))
    else
      var target :- ResizedShape(sq[0], sq[1], shape, preserveAspectRatio, shrinkToTerminal, term);
      if ResizeRefused(sq[0], sq[1], target) then Err(ValueError(NonPositiveSize))
      else Render(resizeToBinary(target))
  }

  /** `draw` with the corrected target size: the same checks and rendering,
      with the size a shape by cells asks for taken from the shape. */
  function DrawCorrected(dtype: DType, dims: seq<nat>, shape: ShapeArg, preserveAspectRatio: bool,
                         shrinkToTerminal: bool, term: TermSize, resizeToBinary: Dims -> Grid<bool>): (r: Result<string>)
    ensures |Squeeze(dims)| != 2 ==> r == Err(ValueError(NotOneChannel))
    ensures |Squeeze(dims)| == 2 && !SupportedDType(dtype) ==> r == Err(ValueError(NotSupportedDType))
    ensures |Squeeze(dims)| == 2 && SupportedDType(dtype) ==>
      var sq := Squeeze(dims);
      var target := ResizedShapeCorrected(sq[0], sq[1], shape, preserveAspectRatio, shrinkToTerminal, term);
      && (target.Err? ==> r == Err(target.error))
      && (target.Ok? && ResizeRefused(sq[0], sq[1], target.value) ==> r == Err(ValueError(NonPositiveSize)))
      && (target.Ok? && !ResizeRefused(sq[0], sq[1], target.value) ==> r == Render(resizeToBinary(target.value)))
  {
    var sq := Squeeze(dims);
    if |sq| != 2 then Err(ValueError(NotOneChannel))
    else if !SupportedDType(dtype) then Err(ValueError(NotSupportedDType))
    else
      var target :- ResizedShapeCorrected(sq[0], sq[1], shape, preserveAspectRatio, shrinkToTerminal, term);
      if ResizeRefused(sq[0], sq[1], target) then Err(ValueError(NonPositiveSize))
      else Render(resizeToBinary(target))
  }

  /** The two drawings agree on every shape but one by cells. */
  lemma DrawAgreesOffCells(dtype: DType, dims: seq<nat>, shape: ShapeArg, p: bool, s: bool,
                           term: TermSize, f: Dims -> Grid<bool>)
    requires !(shape.Known? && shape.shape.ByCells?)
    ensures Draw(dtype, dims, shape, p, s, term, f) == DrawCorrected(dtype, dims, shape, p, s, term, f)
  {
  }

  /** Without a shape, `draw` reads `width` of `None` and fails once the
      buffer has passed its checks. */
  lemma DefaultShapeRefused(dtype: DType, dims: seq<nat>, p: bool, s: bool, term: TermSize, f: Dims -> Grid<bool>)
    requires |Squeeze(dims)| == 2 && SupportedDType(dtype)
    ensures Draw(dtype, dims, Absent, p, s, term, f) == Err(AttributeError("width"))
  {
  }

  /** A 1 by 1 buffer squeezes to no axes at all, so it is refused as not
      single-channel before anything is drawn. */
  lemma OneByOneRefused(dtype: DType, shape: ShapeArg, p: bool, s: bool, term: TermSize, f: Dims -> Grid<bool>)
    ensures Draw(dtype, [1, 1], shape, p, s, term, f) == Err(ValueError(NotOneChannel))
  {
    assert Squeeze([1, 1]) == [];
  }

  /** Padding and packing a single unset pixel gives U+2800. */
  lemma OneUnsetPixel()
    ensures Pack(PadTo2x4([[false]])).Ok?
    ensures ToText(Pack(PadTo2x4([[false]])).value) == Ok("\U{2800}")
  {
    var g := PadTo2x4([[false]]);
    assert |g| == 4 && Width(g) == 2;
    var bits := BlockBits(g, 0, 0);
    MaskUniform(bits, false);
    var codes := Pack(g).value;
    assert |codes| == 1 && |codes[0]| == 1;
    assert codes[0][0] == BrailleBase + Mask(bits);
    assert codes[0] == [0x2800];
    assert codes == [[0x2800]];
    var rows := RowTexts(codes);
    assert rows[0][0] == '\U{2800}';
    assert rows[0] == "\U{2800}";
    assert rows == ["\U{2800}"];
  }
}
