/** `impl/block.py`: an 8-bit buffer drawn with 24-bit colour escape
    sequences, one LOWER HALF BLOCK (U+2584) per 2-row by 1-column cell: the
    background colour is the upper pixel, the foreground colour the lower.
    The PIL resize is a collaborator parameter. */
module Block {
  import opened Outcomes
  import opened Text
  import opened Pixels
  import opened Shapes
  import opened Rounding
  import opened Util

  /** Pixel rows and columns one character covers. */
  const CellShape := Dims(2, 1)

  /** SGR prefix setting a 24-bit background colour. */
  const Background := "\U{1b}[48;2;"
  /** SGR prefix setting a 24-bit foreground colour. */
  const Foreground := "\U{1b}[38;2;"
  /** SGR reset, written at the end of every line but the last. */
  const Reset := "\U{1b}[0m"
  const LowerHalfBlock := '▄'

  /** A channel count other than the three of RGB. */
  type OtherChannels = c: nat | c != 3

  /** A `uint8` buffer: two-dimensional (grey), with a trailing channel axis
      of 3 (colour), or with a trailing channel axis of any other length.
      The samples of the last kind never reach the output, so only its
      shape is kept. */
  datatype Image =
    | Gray(gray: Grid<Byte>)
    | Color(rgb: Grid<Rgb>)
    | Channels(height: nat, width: nat, channels: OtherChannels)

  function ImageHeight(img: Image): nat {
    match img
    case Gray(g) => |g|
    case Color(g) => |g|
    case Channels(h, _, _) => h
  }

  function ImageWidth(img: Image): nat {
    match img
    case Gray(g) => Width(g)
    case Color(g) => Width(g)
    case Channels(_, w, _) => w
  }

  predicate IsGray(p: Rgb) {
    p.r == p.g == p.b
  }

  /** `np.repeat(buffer, 3).reshape(*buffer.shape, 3)`: each sample becomes
      a grey pixel. */
  function Replicate(g: Grid<Byte>): (r: Grid<Rgb>)
    ensures |r| == |g| && Width(r) == Width(g)
    ensures forall y, x :: 0 <= y < |r| && 0 <= x < |r[y]| ==> IsGray(r[y][x])
  {
    seq(|g|, y requires 0 <= y < |g| =>
      seq(Width(g), x requires 0 <= x < Width(g) => Rgb(g[y][x], g[y][x], g[y][x])))
  }

  /** Any one channel of a grey image. */
  function Luma(g: Grid<Rgb>): (r: Grid<Byte>)
    ensures |r| == |g| && Width(r) == Width(g)
  {
    seq(|g|, y requires 0 <= y < |g| =>
      seq(Width(g), x requires 0 <= x < Width(g) => g[y][x].r))
  }

  /** Replicating loses nothing: one channel gives the samples back. */
  lemma LumaOfReplicate(g: Grid<Byte>)
    ensures Luma(Replicate(g)) == g
  {
    var l := Luma(Replicate(g));
    forall y | 0 <= y < |g|
      ensures l[y] == g[y]
    {
    }
  }

  /** The buffer as RGB, as `draw` hands it on: a colour buffer unchanged,
      a grey one as grey pixels whose one channel is the input. */
  function AsRgb(img: Image): (r: Grid<Rgb>)
    requires !img.Channels?
    ensures |r| == ImageHeight(img) && Width(r) == ImageWidth(img)
    ensures match img
      case Color(g) => r == g
      case Gray(g) => (forall y, x :: 0 <= y < |r| && 0 <= x < |r[y]| ==> IsGray(r[y][x])) && Luma(r) == g
      case Channels(_, _, _) => false
  {
    match img
    case Gray(g) => LumaOfReplicate(g); Replicate(g)
    case Color(g) => g
  }

  // ---------------------------------------------------------------------
  // Writing cells

  /** `r;g;b` followed by the SGR terminator `m`. */
  function ColorParams(p: Rgb): (s: string)
    ensures '\n' !in s
  {
    NatToDecimal(p.r) + ";" + NatToDecimal(p.g) + ";" + NatToDecimal(p.b) + "m"
  }

  /** One character cell: background from the upper pixel, foreground from
      the lower, then the half block. */
  function Cell(upper: Rgb, lower: Rgb): (s: string)
    ensures '\n' !in s
  {
    Background + ColorParams(upper) + Foreground + ColorParams(lower) + [LowerHalfBlock]
  }

  /** The cells of one pair of pixel rows, concatenated. */
  function Line(upper: seq<Rgb>, lower: seq<Rgb>): (s: string)
    requires |upper| == |lower|
    ensures '\n' !in s
    decreases |upper|
  {
    if |upper| == 0 then "" else Cell(upper[0], lower[0]) + Line(upper[1..], lower[1..])
  }

  /** The line of rows `2 * i` and `2 * i + 1`. */
  function PairLine(g: Grid<Rgb>, i: nat): string
    requires 2 * i + 1 < |g|
  {
    assert |g[2 * i]| == |g[0]| == |g[2 * i + 1]|;
    Line(g[2 * i], g[2 * i + 1])
  }

  /** The lines of a grid, one per pair of rows. */
  function Lines(g: Grid<Rgb>): (lines: seq<string>)
    requires |g| % 2 == 0
    ensures |lines| == |g| / 2
    ensures forall i :: 0 <= i < |lines| ==> lines[i] == Line(g[2 * i], g[2 * i + 1])
  {
    seq(|g| / 2, i requires 0 <= i < |g| / 2 => PairLine(g, i))
  }

  /** `_pack_2x1_by_half_block_code`. numpy refuses the reshape when either
      axis is empty. */
  function Pack(g: Grid<Rgb>): (r: Result<string>)
    requires |g| % 2 == 0
    ensures r.Err? <==> |g| == 0 || Width(g) == 0
  {
    if |g| == 0 || Width(g) == 0 then Err(ValueError("cannot reshape array of size 0"))
    else Ok(Join(Lines(g), Reset + "\n"))
  }

  /** Two pixels, one above the other, make a single cell. */
  lemma PackOneCell(upper: Rgb, lower: Rgb)
    ensures Pack([[upper], [lower]]) == Ok(Cell(upper, lower))
  {
    var g: Grid<Rgb> := [[upper], [lower]];
    assert Line(g[0], g[1]) == Cell(upper, lower) by {
      assert g[0][1..] == [] && g[1][1..] == [];
    }
    assert Lines(g) == [Cell(upper, lower)];
  }

  lemma ColorParamsExamples()
    ensures ColorParams(Rgb(0, 255, 0)) == "0;255;0m"
    ensures ColorParams(Rgb(255, 0, 0)) == "255;0;0m"
    ensures ColorParams(Black) == "0;0;0m"
  {
    assert NatToDecimal(25) == "25";
    assert NatToDecimal(255) == "255";
    assert NatToDecimal(0) == "0";
  }

  lemma CellOf(upper: Rgb, lower: Rgb, u: string, l: string)
    requires ColorParams(upper) == u && ColorParams(lower) == l
    ensures Cell(upper, lower) == Background + u + Foreground + l + [LowerHalfBlock]
  {
  }

  lemma BlackCell()
    ensures Cell(Black, Black) == "\U{1b}[48;2;0;0;0m\U{1b}[38;2;0;0;0m▄"
  {
    ColorParamsExamples();
    CellOf(Black, Black, "0;0;0m", "0;0;0m");
    assert Background + "0;0;0m" + Foreground + "0;0;0m" + [LowerHalfBlock]
        == "\U{1b}[48;2;0;0;0m\U{1b}[38;2;0;0;0m▄";
  }

  /** The example in the source's doc comment. */
  lemma PackExample()
    ensures Pack([[Rgb(0, 255, 0)], [Rgb(255, 0, 0)]])
         == Ok("\U{1b}[48;2;0;255;0m\U{1b}[38;2;255;0;0m▄")
  {
    PackOneCell(Rgb(0, 255, 0), Rgb(255, 0, 0));
    ColorParamsExamples();
    CellOf(Rgb(0, 255, 0), Rgb(255, 0, 0), "0;255;0m", "255;0;0m");
    assert Background + "0;255;0m" + Foreground + "255;0;0m" + [LowerHalfBlock]
        == "\U{1b}[48;2;0;255;0m\U{1b}[38;2;255;0;0m▄";
  }

  // ---------------------------------------------------------------------
  // Reading cells back, as a terminal does

  /** `s` without the prefix `lit`, if `s` starts with it. */
  function Expect(lit: string, s: string): (r: Option<string>)
    ensures r.Some? ==> |r.value| == |s| - |lit|
  {
    if |lit| <= |s| && s[..|lit|] == lit then Some(s[|lit|..]) else None
  }

  lemma ExpectPrefix(lit: string, rest: string)
    ensures Expect(lit, lit + rest) == Some(rest)
  {
    assert (lit + rest)[..|lit|] == lit;
    assert (lit + rest)[|lit|..] == rest;
  }

  /** A decimal channel value, then `sep`. */
  function ReadChannel(s: string, sep: string): (r: Option<(Byte, string)>)
    ensures r.Some? ==> |r.value.1| < |s|
  {
    var (n, rest) :- ReadNat(s);
    if n < 256 then
      var after :- Expect(sep, rest);
      Some((n, after))
    else None
  }

  function ReadColor(s: string): (r: Option<(Rgb, string)>)
    ensures r.Some? ==> |r.value.1| < |s|
  {
    var (red, s1) :- ReadChannel(s, ";");
    var (green, s2) :- ReadChannel(s1, ";");
    var (blue, s3) :- ReadChannel(s2, "m");
    Some((Rgb(red, green, blue), s3))
  }

  function ReadCell(s: string): (r: Option<((Rgb, Rgb), string)>)
    ensures r.Some? ==> |r.value.1| < |s|
  {
    var s1 :- Expect(Background, s);
    var (upper, s2) :- ReadColor(s1);
    var s3 :- Expect(Foreground, s2);
    var (lower, s4) :- ReadColor(s3);
    var s5 :- Expect([LowerHalfBlock], s4);
    Some(((upper, lower), s5))
  }

  /** A whole line of cells. */
  function ReadCells(s: string): Option<seq<(Rgb, Rgb)>>
    decreases |s|
  {
    if |s| == 0 then Some([])
    else
      var (cell, rest) :- ReadCell(s);
      var cells :- ReadCells(rest);
      Some([cell] + cells)
  }

  /** The pixel rows one line stands for: uppers, then lowers. */
  function RowsOfCells(cells: seq<(Rgb, Rgb)>): (rows: seq<seq<Rgb>>)
    ensures |rows| == 2 && |rows[0]| == |cells| && |rows[1]| == |cells|
  {
    [seq(|cells|, j requires 0 <= j < |cells| => cells[j].0),
     seq(|cells|, j requires 0 <= j < |cells| => cells[j].1)]
  }

  /** `line` without the suffix `lit`, if it ends with it. */
  function DropSuffix(line: string, lit: string): Option<string> {
    if |lit| <= |line| && line[|line| - |lit|..] == lit then Some(line[..|line| - |lit|]) else None
  }

  /** The lines after splitting at newlines: every one but the last ends
      with the reset sequence. */
  function ReadLines(lines: seq<string>): Option<seq<seq<Rgb>>>
    decreases |lines|
  {
    if |lines| == 0 then Some([])
    else
      var body :- if |lines| == 1 then Some(lines[0]) else DropSuffix(lines[0], Reset);
      var cells :- ReadCells(body);
      var rest :- ReadLines(lines[1..]);
      Some(RowsOfCells(cells) + rest)
  }

  /** Decodes the half-block text back into pixel rows. */
  function Unpack(text: string): Option<seq<seq<Rgb>>> {
    ReadLines(Split(text, '\n'))
  }

  lemma ReadChannelOf(n: Byte, sep: string, rest: string)
    requires 0 < |sep| && !IsDigit(sep[0])
    ensures ReadChannel(NatToDecimal(n) + sep + rest, sep) == Some((n, rest))
  {
    assert NatToDecimal(n) + sep + rest == NatToDecimal(n) + (sep + rest);
    ReadNatOfDecimal(n, sep + rest);
    ExpectPrefix(sep, rest);
  }

  lemma ReadColorOf(p: Rgb, rest: string)
    ensures ReadColor(ColorParams(p) + rest) == Some((p, rest))
  {
    var r := NatToDecimal(p.r);
    var g := NatToDecimal(p.g);
    var b := NatToDecimal(p.b);
    var s2 := b + "m" + rest;
    var s1 := g + ";" + s2;
    assert ColorParams(p) + rest == r + ";" + s1;
    assert g + ";" + s2 == g + ";" + (b + "m" + rest);
    ReadChannelOf(p.r, ";", s1);
    ReadChannelOf(p.g, ";", s2);
    ReadChannelOf(p.b, "m", rest);
  }

  lemma ReadCellOf(upper: Rgb, lower: Rgb, rest: string)
    ensures ReadCell(Cell(upper, lower) + rest) == Some(((upper, lower), rest))
  {
    var s4 := [LowerHalfBlock] + rest;
    var s3 := ColorParams(lower) + s4;
    var s2 := Foreground + s3;
    var s1 := ColorParams(upper) + s2;
    assert Cell(upper, lower) + rest == Background + s1;
    ExpectPrefix(Background, s1);
    ReadColorOf(upper, s2);
    ExpectPrefix(Foreground, s3);
    ReadColorOf(lower, s4);
    ExpectPrefix([LowerHalfBlock], rest);
  }

  /** The cells of one line, upper and lower pixel paired. */
  function Pairs(upper: seq<Rgb>, lower: seq<Rgb>): (cells: seq<(Rgb, Rgb)>)
    requires |upper| == |lower|
    ensures |cells| == |upper|
    ensures forall j :: 0 <= j < |cells| ==> cells[j] == (upper[j], lower[j])
  {
    seq(|upper|, j requires 0 <= j < |upper| => (upper[j], lower[j]))
  }

  lemma {:induction false} ReadCellsOfLine(upper: seq<Rgb>, lower: seq<Rgb>)
    requires |upper| == |lower|
    ensures ReadCells(Line(upper, lower)) == Some(Pairs(upper, lower))
    decreases |upper|
  {
    if |upper| > 0 {
      var tail := Line(upper[1..], lower[1..]);
      ReadCellOf(upper[0], lower[0], tail);
      ReadCellsOfLine(upper[1..], lower[1..]);
      ReadCellsStep(Line(upper, lower), (upper[0], lower[0]), tail);
      PairsCons(upper, lower);
    }
  }

  lemma ReadCellsStep(s: string, cell: (Rgb, Rgb), rest: string)
    requires |s| > 0 && ReadCell(s) == Some((cell, rest)) && ReadCells(rest).Some?
    ensures ReadCells(s) == Some([cell] + ReadCells(rest).value)
  {
  }

  lemma PairsCons(upper: seq<Rgb>, lower: seq<Rgb>)
    requires |upper| == |lower| > 0
    ensures Pairs(upper, lower) == [(upper[0], lower[0])] + Pairs(upper[1..], lower[1..])
  {
  }

  lemma RowsOfPairs(upper: seq<Rgb>, lower: seq<Rgb>)
    requires |upper| == |lower|
    ensures RowsOfCells(Pairs(upper, lower)) == [upper, lower]
  {
    var rows := RowsOfCells(Pairs(upper, lower));
    assert rows[0] == upper;
    assert rows[1] == lower;
  }

  /** Reading one more line: its cells give two more pixel rows. */
  lemma ReadLinesCons(lines: seq<string>, upper: seq<Rgb>, lower: seq<Rgb>, tail: seq<seq<Rgb>>)
    requires |upper| == |lower| && 1 <= |lines|
    requires lines[0] == if |lines| == 1 then Line(upper, lower) else Line(upper, lower) + Reset
    requires ReadLines(lines[1..]) == Some(tail)
    ensures ReadLines(lines) == Some([upper, lower] + tail)
  {
    var body := Line(upper, lower);
    if |lines| > 1 {
      assert (body + Reset)[|body + Reset| - |Reset|..] == Reset;
      assert (body + Reset)[..|body + Reset| - |Reset|] == body;
      assert DropSuffix(lines[0], Reset) == Some(body);
    }
    ReadCellsOfLine(upper, lower);
    RowsOfPairs(upper, lower);
  }

  lemma LinesTail(g: Grid<Rgb>)
    requires |g| % 2 == 0 && 2 <= |g|
    ensures Lines(g[2..]) == Lines(g)[1..]
  {
    var g2: Grid<Rgb> := g[2..];
    forall i | 0 <= i < |g2| / 2
      ensures Lines(g2)[i] == Lines(g)[i + 1]
    {
      assert g2[2 * i] == g[2 * (i + 1)] && g2[2 * i + 1] == g[2 * (i + 1) + 1];
    }
  }

  lemma SuffixTail(parts: seq<string>, suffix: string)
    requires 1 <= |parts|
    ensures SuffixAllButLast(parts, suffix)[1..] == SuffixAllButLast(parts[1..], suffix)
  {
  }

  lemma FirstTwo<T>(s: seq<T>)
    requires 2 <= |s|
    ensures s == [s[0], s[1]] + s[2..]
  {
  }

  lemma ReadLinesOfPair(g: Grid<Rgb>)
    requires |g| == 2
    ensures ReadLines(SuffixAllButLast(Lines(g), Reset)) == Some(g)
  {
    var q := SuffixAllButLast(Lines(g), Reset);
    assert ReadLines(q[1..]) == Some([]);
    ReadLinesCons(q, g[0], g[1], []);
    FirstTwo(g);
  }

  lemma ReadLinesStep(g: Grid<Rgb>, g2: Grid<Rgb>)
    requires |g| % 2 == 0 && 4 <= |g| && g2 == g[2..]
    requires ReadLines(SuffixAllButLast(Lines(g2), Reset)) == Some(g2)
    ensures ReadLines(SuffixAllButLast(Lines(g), Reset)) == Some(g)
  {
    var lines := Lines(g);
    var q := SuffixAllButLast(lines, Reset);
    SuffixTail(lines, Reset);
    LinesTail(g);
    ReadLinesCons(q, g[0], g[1], g2);
    FirstTwo(g);
  }

  lemma {:induction false} ReadLinesOfGrid(g: Grid<Rgb>)
    requires |g| % 2 == 0 && 2 <= |g|
    ensures ReadLines(SuffixAllButLast(Lines(g), Reset)) == Some(g)
    decreases |g|
  {
    if |g| == 2 {
      ReadLinesOfPair(g);
    } else {
      var g2: Grid<Rgb> := g[2..];
      ReadLinesOfGrid(g2);
      ReadLinesStep(g, g2);
    }
  }

  /** Decoding the escape sequences gives the padded image back, row for
      row: `Pack` loses nothing. */
  lemma UnpackPack(g: Grid<Rgb>)
    requires |g| % 2 == 0 && 0 < |g| && 0 < Width(g)
    ensures Pack(g).Ok?
    ensures Unpack(Pack(g).value) == Some(g)
  {
    var lines := Lines(g);
    assert "\U{1b}[0m\n" == Reset + ['\n'];
    SplitJoinLongSeparator(lines, Reset, '\n');
    ReadLinesOfGrid(g);
  }

  lemma PackInjective(g: Grid<Rgb>, h: Grid<Rgb>)
    requires |g| % 2 == 0 && 0 < |g| && 0 < Width(g)
    requires |h| % 2 == 0 && 0 < |h| && 0 < Width(h)
    requires Pack(g) == Pack(h)
    ensures g == h
  {
    UnpackPack(g);
    UnpackPack(h);
  }

  // ---------------------------------------------------------------------
  // draw

  const NotUInt8 := "draw_with_braille only supports np.uin8."

  /** What PIL's `Image.fromarray` raises for a three-axis array in a
      one-channel mode. */
  const TooManyDimensions := "Too many dimensions: 3 > 2."

  /** The shape `draw` uses when none is given: the buffer's own size. */
  function DefaultShape(img: Image): ShapeArg {
    Known(ByPixels(ImageHeight(img), ImageWidth(img)))
  }

  /** Without a shape the target is the buffer's own size, as long as the
      terminal is large enough and either mode of aspect handling is used. */
  lemma DefaultShapeKeepsSize(img: Image, preserveAspectRatio: bool, term: TermSize)
    requires 0 < ImageHeight(img) && 0 < ImageWidth(img)
    requires ImageHeight(img) <= 2 * term.lines && ImageWidth(img) <= term.columns
    ensures ResizedShape(ImageHeight(img), ImageWidth(img), DefaultShape(img), CellShape,
                         preserveAspectRatio, true, term)
         == Ok(Dims(ImageHeight(img), ImageWidth(img)))
  {
    var h := ImageHeight(img);
    var w := ImageWidth(img);
    var tp := TerminalPixels(CellShape, term);
    assert PixelsOfShape(DefaultShape(img), CellShape, tp) == Ok(Dims(h, w));
    assert Shrink(Dims(h, w), tp) == Dims(h, w);
    if preserveAspectRatio {
      PreserveAspectOwnSize(h, w);
    }
  }

  /** `BlockDrawer.draw`: rejects any element type but `uint8`, defaults the
      shape to the buffer's size, turns grey into RGB, resolves the target
      size, resizes through the collaborator (PIL refusing a target with an
      empty axis), pads with black and packs. */
  function Draw(dtype: DType, img: Image, shape: ShapeArg, preserveAspectRatio: bool,
                shrinkToTerminal: bool, term: TermSize, resize: (Grid<Rgb>, Dims) -> Grid<Rgb>): (r: Result<string>)
    ensures dtype != UInt8 ==> r == Err(ValueError(NotUInt8))
    ensures dtype == UInt8 && shape.Unknown? ==> r == Err(ValueError("Unknown shape format."))
    ensures dtype == UInt8 && img.Channels? ==>
      var shape' := if shape.Absent? then DefaultShape(img) else shape;
      var target := ResizedShape(ImageHeight(img), ImageWidth(img), shape', CellShape,
                                 preserveAspectRatio, shrinkToTerminal, term);
      && (target.Err? ==> r == Err(target.error))
      && (target.Ok? && img.channels != 1 ==> r == Err(KeyError(ModeKey(UInt8, img.channels))))
      && (target.Ok? && img.channels == 1 ==> r == Err(ValueError(TooManyDimensions)))
    ensures dtype == UInt8 && !img.Channels? ==>
      var shape' := if shape.Absent? then DefaultShape(img) else shape;
      var target := ResizedShape(ImageHeight(img), ImageWidth(img), shape', CellShape,
                                 preserveAspectRatio, shrinkToTerminal, term);
      && (target.Err? ==> r == Err(target.error))
      && (target.Ok? && ResizeRefused(ImageHeight(img), ImageWidth(img), target.value)
          ==> r == Err(ValueError(NonPositiveSize)))
    ensures r.Ok? ==>
      var shape' := if shape.Absent? then DefaultShape(img) else shape;
      var target := ResizedShape(ImageHeight(img), ImageWidth(img), shape', CellShape,
                                 preserveAspectRatio, shrinkToTerminal, term);
      && !img.Channels?
      && target.Ok?
      && !ResizeRefused(ImageHeight(img), ImageWidth(img), target.value)
      && Unpack(r.value) == Some(PadToMultipleOfShape(resize(AsRgb(img), target.value), CellShape, Black))
  {
    if dtype != UInt8 then Err(ValueError(NotUInt8))
    else
      var shape' := if shape.Absent? then DefaultShape(img) else shape;
      var target :- ResizedShape(ImageHeight(img), ImageWidth(img), shape', CellShape,
                                 preserveAspectRatio, shrinkToTerminal, term);
      match img
      case Channels(h, w, c) =>
        var mode :- PilMode(UInt8, [h, w, c]);
        Err(ValueError(TooManyDimensions))
      case _ =>
        if ResizeRefused(ImageHeight(img), ImageWidth(img), target) then Err(ValueError(NonPositiveSize))
        else
          var padded := PadToMultipleOfShape(resize(AsRgb(img), target), CellShape, Black);
          var text :- Pack(padded);
          UnpackPack(padded);
          Ok(text)
  }

  /** An RGBA buffer gets past the checks of `draw` and fails on the mode
      table with the key `uint8_4`. */
  lemma RgbaRefused(h: nat, w: nat, term: TermSize, resize: (Grid<Rgb>, Dims) -> Grid<Rgb>)
    ensures Draw(UInt8, Channels(h, w, 4), Known(ByPixels(h, w)), false, false, term, resize)
         == Err(KeyError("uint8_4"))
  {
    assert NatToDecimal(4) == "4";
    assert ModeKey(UInt8, 4) == "uint8_4";
  }

  /** The strip of `Util.ThinStripCollapses`, drawn with the defaults of
      `draw`, is refused by PIL's resize: its target has no rows. */
  lemma ThinStripRefused(resize: (Grid<Rgb>, Dims) -> Grid<Rgb>)
    ensures Draw(UInt8, Gray(seq(1, _ => seq(1000, _ => 0))), Absent, true, true, TermSize(80, 24), resize)
         == Err(ValueError(NonPositiveSize))
  {
    var img := Gray(seq(1, _ => seq(1000, _ => 0)));
    assert ImageHeight(img) == 1 && ImageWidth(img) == 1000;
    ThinStripCollapses();
  }

  /** Once the target size is known, drawing is packing the resized,
      padded buffer. */
  lemma DrawPacks(img: Image, shape: ShapeArg, preserveAspectRatio: bool, shrinkToTerminal: bool,
                  term: TermSize, resize: (Grid<Rgb>, Dims) -> Grid<Rgb>, target: Dims)
    requires !img.Channels?
    requires ResizedShape(ImageHeight(img), ImageWidth(img), if shape.Absent? then DefaultShape(img) else shape,
                          CellShape, preserveAspectRatio, shrinkToTerminal, term) == Ok(target)
    requires !ResizeRefused(ImageHeight(img), ImageWidth(img), target)
    ensures Draw(UInt8, img, shape, preserveAspectRatio, shrinkToTerminal, term, resize)
         == Pack(PadToMultipleOfShape(resize(AsRgb(img), target), CellShape, Black))
  {
  }

  /** A 1 by 1 black buffer, drawn at its own size, is one cell whose
      background and foreground are both black. */
  lemma PadOneBlack()
    ensures PadToMultipleOfShape([[Black]], CellShape, Black) == [[Black], [Black]]
  {
    var padded := PadToMultipleOfShape([[Black]], CellShape, Black);
    assert |padded| == 2 && Width(padded) == 1;
    assert padded[0] == [Black] && padded[1] == [Black];
  }

  lemma OneBlackPixel(term: TermSize, resize: (Grid<Rgb>, Dims) -> Grid<Rgb>)
    requires 1 <= term.lines && 1 <= term.columns
    requires resize([[Black]], Dims(1, 1)) == [[Black]]
    ensures Draw(UInt8, Gray([[0]]), Absent, true, true, term, resize)
         == Ok("\U{1b}[48;2;0;0;0m\U{1b}[38;2;0;0;0m▄")
  {
    var img := Gray([[0]]);
    DefaultShapeKeepsSize(img, true, term);
    var rgb := AsRgb(img);
    assert rgb[0] == [Black];
    assert rgb == [[Black]];
    DrawPacks(img, Absent, true, true, term, resize, Dims(1, 1));
    PadOneBlack();
    PackOneCell(Black, Black);
    BlackCell();
  }
}
