# teimpy core in Dafny

teimpy draws numpy image buffers in a terminal. This project models the
parts of it that turn a buffer into terminal text, and proves properties of
that model:

- the shared helpers of `impl/util.py`:
  - rendering a matrix of character codes as lines;
  - choosing the PIL mode for an element type;
  - padding a buffer to a multiple of a cell shape;
  - resolving a target shape (by cells, by pixels or by ratio) into pixels,
    clamped to the terminal and fitted to the buffer's aspect ratio.
- `impl/braille.py`: a single-channel buffer drawn as Unicode Braille
  Patterns, one character per 4 by 2 block of pixels. The code's weight
  table is proved to follow Unicode's dot numbering, and every dot of every
  character is proved to be its pixel.
- `impl/block.py`: an RGB (or grey) buffer drawn with "lower half block"
  characters. The upper pixel of each cell is the background colour and the
  lower pixel is the foreground colour, both given as 24-bit SGR escapes. A
  reader of that output is proved to recover the padded buffer exactly.
- `impl/iterm2_inline_image.py`: framing compressed image data as an iTerm2
  inline-image escape (`OSC 1337;File=…:data ST`). It is wrapped in a tmux
  passthrough when `TERM` starts with `screen-` or `tmux-` (a bare `screen`
  or `tmux` is not detected). A parser is proved to
  recover the properties and the data, and the tmux frame is proved to be
  the plain frame with the passthrough applied.
- `drawer.py`: the closed `Mode` enumeration, its string values, and the
  registry `get_drawer`.

Modules follow the program:

- `Outcomes`: `Option`, `Result`, and the Python exception classes.
- `Text`: `str(int)`, `join`, `split`.
- `Rounding`: Python's `round`.
- `Pixels` and `Shapes`: element types, grids, shape classes, terminal size.
- `Util`, `Braille`, `Block`, `InlineImage`, `Drawer`.

Every `raise` in the code, and every error numpy, PIL or Python raises on
an input the code does not guard, becomes an `Err` carrying the exception
class. The message is the one the code writes, where it writes one. For an
error raised by a library, the message is the library's, or only its
opening words. "## Left out" names these, and the numpy, Pillow and
CPython releases whose behaviour the model follows.

Collaborators the model cannot see are parameters of the drawing functions:

- the terminal size (`shutil.get_terminal_size`) is a `TermSize` argument;
- `TERM` is an `Option<string>` argument;
- PIL's resize, and its conversion to 1-bit for braille, are function
  arguments;
- the base64 text of the compressed image is a string argument.

Where the code and the tests disagree, the model follows the code:

- `tests/test_draw.py:50` expects a single foreground escape and `▀` for a
  black 1 by 1 buffer in half-block mode. `block.py:32` writes a background
  escape, a foreground escape and `▄`, and `Block.OneBlackPixel` states what
  the code produces.
- The same test names `Mode.HALF_BLOCK`, while `drawer.py:7` spells the
  member `HALD_BLOCK`, so the lookup fails with an `AttributeError` before
  drawing. The model keeps the spelling as `Drawer.HaldBlock`.
- `tests/test_draw.py:51` uses `Mode.SIXEL`, which `drawer.py` does not
  define.
- For braille the test expects `"⠀"` from a 1 by 1 `uint8` buffer.
  `np.squeeze` turns that buffer into a zero-dimensional array, so
  `braille.draw` refuses it as not single-channel (`Braille.OneByOneRefused`).
  A padded 1 by 1 unset pixel does pack to `U+2800` (`Braille.OneUnsetPixel`).

`braille.draw` defaults `shape` to `None` but reads `shape.width` for any
shape that is neither by cells nor by ratio (`braille.py:53`), so a call
without a shape fails with AttributeError (`Braille.DefaultShapeRefused`).
`block.py:43-44` instead defaults to the buffer's own size. Which default
braille meant is not evident, so the model keeps the failure.

Rounding follows the code: Python's `round` sends halves to the even
neighbour, not away from zero.

## Model

| member | source | states |
|---|---|---|
| Rounding.Round | src/teimpy/impl/util.py:96-97 | `int(round(x))` lies within one half of `x`, and a tie goes to the even neighbour |
| Rounding.RoundNearest | src/teimpy/impl/util.py:123-124 | an integer strictly within one half of `x` is its rounding |
| Rounding.RoundOfInteger | src/teimpy/impl/util.py:123-124 | rounding an integral scale product gives that integer back |
| Rounding.RoundAtMost | src/teimpy/impl/util.py:123-124 | rounding never exceeds an integer bound that the argument respects |
| Rounding.RoundHalvesToEven | src/teimpy/impl/util.py:96-97 | 0.5 and -0.5 round to 0, 1.5 and 2.5 to 2 |
| Text.NatToDecimal | src/teimpy/impl/iterm2_inline_image.py:103 | `str(n)` is a non-empty run of digits without a leading zero |
| Text.IntToDecimal | src/teimpy/impl/iterm2_inline_image.py:49-50 | `'{}'.format(i)` is digits, preceded by `-` exactly when `i` is negative |
| Text.DecimalRoundTrip | src/teimpy/impl/iterm2_inline_image.py:103 | reading the digits of `str(n)` gives `n` back |
| Text.IntRoundTrip | src/teimpy/impl/iterm2_inline_image.py:49-50 | parsing `'{}'.format(i)` gives `i` back |
| Text.IntToDecimalInjective | src/teimpy/impl/iterm2_inline_image.py:49-50 | distinct integers render differently |
| Text.ReadNatOfDecimal | src/teimpy/impl/block.py:32 | a terminal reading an SGR parameter stops exactly where the rendered number ends |
| Text.Join | src/teimpy/impl/util.py:17 | `sep.join(parts)` has the parts' total length plus one separator between each pair, and starts with the first part |
| Text.Concat | src/teimpy/impl/iterm2_inline_image.py:90 | `''.join(parts)` is as long as the parts together |
| Text.SplitJoin | src/teimpy/impl/util.py:17 | splitting the join on a one-character separator no part contains gives the parts back |
| Text.SplitJoinLongSeparator | src/teimpy/impl/block.py:34 | splitting a join on the last character of a longer separator gives the parts back, each but the last still carrying the rest of the separator |
| Text.ConcatAppend | src/teimpy/impl/iterm2_inline_image.py:90 | joining one more part appends it |
| Util.RowText | src/teimpy/impl/util.py:16-17 | `chr` on each code of a row gives a string with exactly those code points |
| Util.ConvertToStr | src/teimpy/impl/util.py:10-17 | succeeds exactly when every code is a valid `chr` argument and the matrix is not zero columns wide; otherwise the first refused code in row-major order decides the error (ValueError inside a C `int`, OverflowError beyond); an empty matrix gives "" |
| Util.FirstRefused | src/teimpy/impl/util.py:16 | the position found is the first code, in row-major order, that `chr` refuses, and none is found exactly when every code is accepted |
| Util.ConvertToStrRefusals | src/teimpy/impl/util.py:16 | 0x110000 and -1 raise ValueError; 2^31 and -2^31-1 raise OverflowError |
| Util.ConvertToStrFirstDecides | src/teimpy/impl/util.py:16 | with several refused codes, the first in row-major order gives the exception class |
| Util.RowTexts | src/teimpy/impl/util.py:17 | the row strings keep every code point in place |
| Util.ConvertToStrLines | src/teimpy/impl/util.py:10-17 | splitting the result on the end-of-line character gives one line per row, each exactly the row's characters |
| Util.ConvertToStrExample | src/teimpy/impl/util.py:13-14 | `[[97, 98], [99, 100]]` renders as `"ab\ncd"` |
| Util.PilMode | src/teimpy/impl/util.py:36-44 | bool/1 gives '1', uint8/1 'L', uint8/3 'RGB', int32/1 'I', float32/1 'F'; any other pair raises KeyError on its `dtype_channel` key |
| Util.SplitAtUnderscore | src/teimpy/impl/util.py:37 | a `dtype_channel` key determines both halves when the dtype name has no underscore |
| Util.DTypeNameInjective | src/teimpy/impl/util.py:37 | distinct numpy element types have distinct names |
| Util.ModeKeyInjective | src/teimpy/impl/util.py:37 | distinct (dtype, channel) pairs give distinct keys |
| Util.ModeKeyDecides | src/teimpy/impl/util.py:38-44 | the key is in the mode table exactly for the five supported pairs, each mapped to its PIL mode |
| Util.DiffToNextMultiple | src/teimpy/impl/util.py:48-55 | the padding is below `n`, brings `value` to a multiple of `n`, and is zero exactly when `value` already is one |
| Util.DiffToNextMultipleExample | src/teimpy/impl/util.py:51-52 | 20 needs 4 to reach a multiple of 8 |
| Util.PadToMultipleOfShape | src/teimpy/impl/util.py:58-70 | the padded grid is the least multiple of the cell shape that holds the buffer, keeps every pixel in place, and fills the rest with the zero value |
| Util.PadExample | src/teimpy/impl/util.py:61-62 | 9 by 9 pads to 12 by 10 for a 4 by 2 cell |
| Util.TerminalPixels | src/teimpy/impl/util.py:73-78 | the terminal is `lines * cell height` pixels high and `columns * cell width` wide |
| Util.PixelsOfShape | src/teimpy/impl/util.py:81-103 | by cells multiplies by the cell shape, by pixels is taken as given, by ratio is the fraction of the terminal rounded half to even (within one half, and even at an exact half); anything else raises ValueError('Unknown shape format.') |
| Util.PixelsOfShapeExamples | src/teimpy/impl/util.py:84-89 | the three documented conversions: (40, 20), (40, 80) and (80, 200) |
| Util.RatioTieExample | src/teimpy/impl/util.py:94-97 | half of a 25-column terminal, 12.5, rounds to 12 and not 13 |
| Util.Shrink | src/teimpy/impl/util.py:113-117 | each axis is the smaller of the request and the terminal |
| Util.PreserveAspect | src/teimpy/impl/util.py:119-125 | for a non-empty buffer the result fits the box, meets it on the tighter axis, and is the buffer scaled by one factor on both axes, each axis rounded half to even; an empty axis divides by zero |
| Util.Scaled | src/teimpy/impl/util.py:123-124 | each scaled axis is the exact product rounded half to even: within one half of it, and even at an exact half |
| Util.FitsBox | src/teimpy/impl/util.py:120-124 | scaling by the smaller ratio fits the box and fills it on one axis |
| Util.TightAxis | src/teimpy/impl/util.py:122-124 | the axis that sets the scale comes out exact, the other within its bound |
| Util.PreserveAspectOwnSize | src/teimpy/impl/util.py:119-125 | a box the buffer's own size leaves the size unchanged |
| Util.ResizedShape | src/teimpy/impl/util.py:106-126 | fails exactly on an unknown shape or an empty buffer with aspect preservation; a clamped result fits the terminal; without aspect preservation it is the (clamped) request; with it, it is `PreserveAspect` of the (clamped) request, inside it and meeting it on one axis |
| Util.ShrinkOversizedRequest | src/teimpy/impl/util.py:110-117 | a request at least as large as the terminal, without aspect preservation, becomes the terminal's size |
| Util.ThinStripCollapses | src/teimpy/impl/util.py:106-126 | a 1 by 1000 strip, fitted with its aspect kept into an 80 by 24 terminal of 2 by 1 cells, gets a target of 0 by 80, which PIL's resize refuses |
| Braille.DotNumber | src/teimpy/impl/braille.py:86 | each position of a 4 by 2 block has a Unicode dot number from 1 to 8 |
| Braille.WeightsFollowDotNumbering | src/teimpy/impl/braille.py:86-88 | the weight of the pixel at row `i`, column `j` is bit `dot(i, j) - 1` of the Unicode pattern |
| Braille.FlipAddsWeight | src/teimpy/impl/braille.py:88 | setting one pixel adds exactly its weight to the dot product |
| Braille.Mask | src/teimpy/impl/braille.py:88 | the dot product of a block with the weights is a byte |
| Braille.ByDotNumber | src/teimpy/impl/braille.py:87-88 | reordering a block by dot number puts each pixel at its dot's index |
| Braille.BinBound | src/teimpy/impl/braille.py:88 | a weighted sum of distinct powers of two stays below the next power |
| Braille.BitOfBin | src/teimpy/impl/braille.py:88 | bit `n` of that sum is the `n`-th flag |
| Braille.MaskIsBinary | src/teimpy/impl/braille.py:86-88 | the weighted sum is the binary number whose bits are the dots in Unicode order |
| Braille.MaskDots | src/teimpy/impl/braille.py:86-88 | bit `dot(i, j) - 1` of a block's mask is the pixel at row `i`, column `j` |
| Braille.MaskInjective | src/teimpy/impl/braille.py:86-88 | distinct blocks give distinct masks |
| Braille.MaskFlip | src/teimpy/impl/braille.py:86-88 | turning a pixel on raises the code by its weight |
| Braille.MaskUniform | src/teimpy/impl/braille.py:87 | an all-clear block is U+2800 and an all-set block is U+28FF |
| Braille.Pack | src/teimpy/impl/braille.py:83-89 | one code per 4 by 2 block, every code in the Braille Patterns block; an empty buffer cannot be reshaped |
| Braille.PackDots | src/teimpy/impl/braille.py:83-89 | each dot of each character is the pixel it covers |
| Braille.PackInjective | src/teimpy/impl/braille.py:83-89 | two buffers of one size that pack alike are equal |
| Braille.PadTo2x4 | src/teimpy/impl/braille.py:19-28 | the least multiple of 4 by 2 that holds the buffer, pixels in place, the rest unset |
| Braille.PadExample | src/teimpy/impl/braille.py:22-23 | 9 by 9 pads to 12 by 10 |
| Braille.ToText | src/teimpy/impl/braille.py:92-94 | Braille codes render unless the matrix is zero columns wide |
| Braille.ToTextLines | src/teimpy/impl/braille.py:92-94 | the text has one line per row of cells, each holding that row's characters |
| Braille.RequestedPixels | src/teimpy/impl/braille.py:42-54 | the request as written: a shape by cells gets `4 * height` rows but a width of `8 * lines`; other shapes agree with the shared helper; a non-shape has no `width` |
| Braille.RequestedPixelsCorrected | src/teimpy/impl/braille.py:42-54 | with the width taken from the shape, the request agrees with the shared `get_pixels_of_shape` for every shape |
| Braille.CellsWidthIgnored | src/teimpy/impl/braille.py:46-48 | on an 80 by 24 terminal, ten by ten cells ask for 192 pixels of width as written and 20 as intended |
| Braille.ResizedShape | src/teimpy/impl/braille.py:41-70 | as written: fails on a non-shape (no `width`) or an empty buffer with aspect preservation; a ratio or a pixel size resizes as the shared `get_resized_shape` does; a shape by cells resizes as a request of `4 * height` by `8 * lines` pixels would; a clamped result fits the terminal |
| Braille.ResizedShapeCorrected | src/teimpy/impl/braille.py:41-70 | with the width of a shape by cells taken from the shape, the result agrees with the shared `get_resized_shape` for every shape class |
| Braille.CellsResizeIgnoresWidth | src/teimpy/impl/braille.py:46-62 | ten by ten cells on an 80 by 24 terminal resize to (40, 192), or (40, 160) when clamped, as written, and to (40, 20) when corrected |
| Braille.Squeeze | src/teimpy/impl/braille.py:98 | `np.squeeze` drops every axis of length 1 and keeps all the others |
| Braille.KeptAxes | src/teimpy/impl/braille.py:98 | the axes `np.squeeze` keeps are exactly those of length other than 1, in increasing order |
| Braille.SqueezeKeepsOrder | src/teimpy/impl/braille.py:98 | squeezing keeps the order of the axes: entry `k` is the length of the `k`-th kept axis |
| Braille.SqueezeTwo | src/teimpy/impl/braille.py:98-100 | a buffer that squeezes to two axes has exactly two axes of length other than 1, the height's before the width's |
| Braille.Render | src/teimpy/impl/braille.py:105-107 | an empty binarized image cannot be reshaped; otherwise one line per 4 rows and one character per 2 columns, and dot `DotNumber(i, j)` of character `x` on line `y` is raised exactly when padded pixel `(4y + i, 2x + j)` is set |
| Braille.Draw | src/teimpy/impl/braille.py:97-107 | refuses a buffer that is not two-dimensional after squeezing, then an unsupported dtype, each with its message; then fails with the as-written `_get_resized_shape`'s error, then with PIL's ValueError('height and width must be > 0') for a target with an empty axis (other than the buffer's own size), or renders the binarized image at its target, each character's dots being the padded pixels it covers |
| Braille.DrawCorrected | src/teimpy/impl/braille.py:97-107 | the same checks, the same refusal by PIL's resize, and the same rendering, at the corrected target size |
| Braille.DrawAgreesOffCells | src/teimpy/impl/braille.py:46-54 | the as-written and corrected drawings agree for every shape that is not by cells |
| Braille.DefaultShapeRefused | src/teimpy/impl/braille.py:53 | with no shape, a buffer that passes the checks fails on reading `width` of `None` |
| Braille.OneByOneRefused | src/teimpy/impl/braille.py:98-100 | a 1 by 1 buffer is refused as not single-channel |
| Braille.OneUnsetPixel | src/teimpy/impl/braille.py:19-28 | a single unset pixel, padded and packed, is U+2800 |
| Block.Replicate | src/teimpy/impl/block.py:45-46 | a grey buffer becomes an RGB buffer of the same size with equal channels |
| Block.Luma | src/teimpy/impl/block.py:46 | reading one channel keeps the size |
| Block.LumaOfReplicate | src/teimpy/impl/block.py:46 | replicating a grey buffer loses nothing |
| Block.AsRgb | src/teimpy/impl/block.py:45-46 | a colour buffer is handed on unchanged; a grey one becomes grey pixels whose one channel is the input, with the input's size |
| Block.ColorParams | src/teimpy/impl/block.py:32 | the colour parameters hold no line break |
| Block.Cell | src/teimpy/impl/block.py:31-32 | a cell holds no line break |
| Block.Line | src/teimpy/impl/block.py:33 | a line of cells holds no line break |
| Block.Pack | src/teimpy/impl/block.py:20-34 | fails exactly when the buffer is empty |
| Block.PackOneCell | src/teimpy/impl/block.py:20-34 | a 2 by 1 buffer is a single cell |
| Block.ColorParamsExamples | src/teimpy/impl/block.py:23-24 | green, red and black render as `0;255;0m`, `255;0;0m` and `0;0;0m` |
| Block.BlackCell | src/teimpy/impl/block.py:32 | a black-on-black cell is `ESC[48;2;0;0;0m ESC[38;2;0;0;0m ▄` |
| Block.PackExample | src/teimpy/impl/block.py:23-24 | green over red packs to the documented escape |
| Block.ExpectPrefix | src/teimpy/impl/block.py:32 | a reader matches a literal prefix and returns the rest |
| Block.ReadChannelOf | src/teimpy/impl/block.py:32 | a channel value reads back from its rendering |
| Block.ReadColorOf | src/teimpy/impl/block.py:32 | a colour reads back from its parameters |
| Block.ReadCellOf | src/teimpy/impl/block.py:32 | a cell reads back as its upper and lower pixel |
| Block.ReadCellsOfLine | src/teimpy/impl/block.py:33 | a line reads back as its pixel pairs |
| Block.RowsOfPairs | src/teimpy/impl/block.py:28-29 | the pairs of a line give back its two pixel rows |
| Block.ReadLinesOfGrid | src/teimpy/impl/block.py:26-34 | the lines of a grid, with the reset suffix on all but the last, read back as the grid |
| Block.UnpackPack | src/teimpy/impl/block.py:20-34 | reading the packed text gives back exactly the buffer |
| Block.PackInjective | src/teimpy/impl/block.py:20-34 | distinct buffers pack to distinct text |
| Block.DefaultShapeKeepsSize | src/teimpy/impl/block.py:43-48 | with no shape a buffer that fits the terminal keeps its size, with or without aspect preservation |
| Block.Draw | src/teimpy/impl/block.py:40-51 | a non-`uint8` buffer and an unknown shape are refused with their messages; a three-axis buffer with other than three channels fails after its target is resolved, with KeyError on its `uint8_C` key, or PIL's dimension error for one channel; a two-axis or RGB buffer whose target has an empty axis (other than its own size) fails with PIL's ValueError('height and width must be > 0'); on success the text reads back as the resized, black-padded buffer |
| Block.RgbaRefused | src/teimpy/impl/util.py:36-44 | an RGBA buffer passes `draw`'s checks and fails with KeyError('uint8_4') |
| Block.ThinStripRefused | src/teimpy/impl/block.py:40-49 | a 1 by 1000 grey strip drawn with the defaults fails in PIL's resize with ValueError('height and width must be > 0') |
| Block.DrawPacks | src/teimpy/impl/block.py:48-51 | once the target size is known and PIL accepts it, drawing is packing the resized, padded buffer |
| Block.OneBlackPixel | src/teimpy/impl/block.py:40-51 | a 1 by 1 black `uint8` buffer draws as one black-on-black lower half block |
| InlineImage.FieldText | src/teimpy/impl/iterm2_inline_image.py:49-50 | a field is `auto` exactly when it is absent |
| InlineImage.FieldRoundTrip | src/teimpy/impl/iterm2_inline_image.py:49-50 | a field value and its unit read back from its text |
| InlineImage.ShapeProperty | src/teimpy/impl/iterm2_inline_image.py:38-51 | width comes before height, and no shape means both `auto` |
| InlineImage.ShapePropertyReadsBack | src/teimpy/impl/iterm2_inline_image.py:41-51 | the width and height texts read back as the shape's fields in its unit |
| InlineImage.ShapePropertyExamples | src/teimpy/impl/iterm2_inline_image.py:18-35 | the five documented shape properties |
| InlineImage.IsInTmux | src/teimpy/impl/iterm2_inline_image.py:72-73 | an unset `TERM` raises TypeError; otherwise tmux exactly when `TERM` starts with `screen-` or `tmux-` |
| InlineImage.IsInTmuxNeedsPrefix | src/teimpy/impl/iterm2_inline_image.py:72-73 | the match is anchored and needs the hyphen: `screen`, `tmux` and `xterm-tmux-256` get the plain frame, `screen-256color` the tmux one |
| InlineImage.Message | src/teimpy/impl/iterm2_inline_image.py:88-92 | the message is the opener, `1337;File=` with the properties, `:`, the data, and the terminator |
| InlineImage.CreateMessage | src/teimpy/impl/iterm2_inline_image.py:76-92 | fails exactly when `TERM` is unset, otherwise frames the data for the detected terminal |
| InlineImage.DoubleEsc | src/teimpy/impl/iterm2_inline_image.py:78 | text without ESC passes through a tmux passthrough unchanged |
| InlineImage.DoubleEscAppend | src/teimpy/impl/iterm2_inline_image.py:78 | ESC doubling distributes over concatenation |
| InlineImage.TmuxWrapsPlain | src/teimpy/impl/iterm2_inline_image.py:76-92 | the tmux message is the plain message inside a DCS tmux passthrough, with its ESC doubled |
| InlineImage.TmuxWrapsBody | src/teimpy/impl/iterm2_inline_image.py:76-85 | the tmux opener and terminator are the plain ones wrapped in the passthrough |
| InlineImage.ParsePropertyOf | src/teimpy/impl/iterm2_inline_image.py:90 | a `key=value` item reads back as its pair |
| InlineImage.ParseItemsOf | src/teimpy/impl/iterm2_inline_image.py:90 | well-formed properties read back from their items |
| InlineImage.SplitPropertiesText | src/teimpy/impl/iterm2_inline_image.py:90 | splitting the properties text on `;` gives one item per property |
| InlineImage.PropertiesTextClean | src/teimpy/impl/iterm2_inline_image.py:90 | well-formed properties hold no `:` or ESC |
| InlineImage.ParseBodyOf | src/teimpy/impl/iterm2_inline_image.py:92 | the body reads back as its properties and data |
| InlineImage.TmuxDetected | src/teimpy/impl/iterm2_inline_image.py:76-85 | a reader tells a tmux frame from a plain one by its opener |
| InlineImage.ParseMessageOf | src/teimpy/impl/iterm2_inline_image.py:88-92 | a message reads back as its mode, properties and data |
| InlineImage.Properties | src/teimpy/impl/iterm2_inline_image.py:100-106 | width, height, size as the data's length, `preserveAspectRatio` as 1 or 0, and `inline=1`, in that order |
| InlineImage.DecimalUndelimited | src/teimpy/impl/iterm2_inline_image.py:103 | a rendered number holds no delimiter of the escape |
| InlineImage.FieldUndelimited | src/teimpy/impl/iterm2_inline_image.py:49-50 | a shape field holds no delimiter of the escape |
| InlineImage.PropertiesWellFormed | src/teimpy/impl/iterm2_inline_image.py:100-106 | every key and value the drawer writes is free of delimiters |
| InlineImage.Draw | src/teimpy/impl/iterm2_inline_image.py:97-107 | fails exactly when `TERM` is unset |
| InlineImage.DrawReadsBack | src/teimpy/impl/iterm2_inline_image.py:97-107 | the escape reads back as the detected mode, the five properties and the data |
| InlineImage.PropertiesTextCons | src/teimpy/impl/iterm2_inline_image.py:90 | each property contributes `;key=value` in order |
| InlineImage.DefaultProperties | src/teimpy/impl/iterm2_inline_image.py:100-106 | with no shape and aspect preservation: `auto`, `auto`, the size, 1, 1 |
| InlineImage.DefaultPropertiesText | src/teimpy/impl/iterm2_inline_image.py:90 | the default properties render as `;width=auto;height=auto;size=N;preserveAspectRatio=1;inline=1` |
| InlineImage.DrawDefault | src/teimpy/impl/iterm2_inline_image.py:97-107 | a default draw frames the data after the default properties, for the detected terminal |
| InlineImage.PngMessages | tests/test_draw.py:12-35 | the 92-byte PNG frames as the three expected messages for `tmux-256`, `screen-256` and an empty `TERM` |
| InlineImage.JpegMessage | tests/test_draw.py:36-48 | the 444-byte JPEG frames as the expected plain message |
| Drawer.Value | src/teimpy/drawer.py:4-7 | each member's value string names that member |
| Drawer.ValueOfFromValue | src/teimpy/drawer.py:4-7 | a string that names a member is that member's value |
| Drawer.ToString | src/teimpy/drawer.py:9-10 | `str(mode)` is the member's value |
| Drawer.ValueInjective | src/teimpy/drawer.py:4-7 | no two members share a value |
| Drawer.ExactlyThreeValues | src/teimpy/drawer.py:4-7 | exactly `braille`, `iterm2_inline_image` and `half_block` name members |
| Drawer.GetDrawer | src/teimpy/drawer.py:13-24 | the default is the braille drawer, each member gets the drawer for that mode, and anything else raises ValueError('Given not supported mode.') |
| Drawer.GetDrawerInjective | src/teimpy/drawer.py:14-22 | distinct modes get distinct drawers |
| Drawer.GetDrawerOfModeOf | src/teimpy/drawer.py:14-22 | asking for a drawer's own mode returns that drawer |
| Drawer.GetDrawerAsWritten | src/teimpy/drawer.py:13-24 | as written, the default and the braille mode fail on importing `BrailleDrawer`, half-block and iTerm2 succeed, and anything else raises ValueError |
| Drawer.AsWrittenDiffersOnBraille | src/teimpy/drawer.py:14-16 | the written registry differs from the intended one exactly on the braille mode and the default |

## Left out

- PIL itself is a collaborator given as a function argument:
  - the resize (`block.py:11-17`, `braille.py:73-80`);
  - the 1-bit conversion for braille;
  - `convert_to_pil_image`'s call to `Image.fromarray`.
  No property of PIL's resampling or dithering is stated.
- `_get_diff_to_next_multiple` (`braille.py:9-16`) is the same function as
  `util.py:48-55` and is modelled once, as `Util.DiffToNextMultiple`. Its
  doctest calls a misspelled name (`_get_netx_multiple`) and is not
  modelled.
- `_convert_to_pillow_image` (`braille.py:31-38`): its table covers exactly
  the four element types that `draw` has already admitted, so its KeyError
  cannot be reached from `draw`. It is not modelled separately.
- `_compress_image` (`iterm2_inline_image.py:54-69`): JPEG/PNG encoding and
  base64. The encoded text is an argument of `InlineImage.Draw`, and the two
  test payloads are constants.
- `get_terminal_size` and `os.environ.get('TERM')` are arguments, not reads
  of process state.
- The `print(resized_shape)` at `braille.py:69` is output only; it does not
  change the result.
- Floating point:
  - ratios and scales are exact reals, and the rounding is Python's
    half-to-even `round` on them;
  - double-precision representation error is not modelled.
- Braille.Draw: the model follows the numpy releases in which `np.bool`
  names the boolean type (before 1.24, or 2.0 and later). numpy 1.24 to
  1.26 have no `np.bool`, so there `braille.py:78` and `braille.py:101`
  raise AttributeError for every buffer that squeezes to two axes. The
  same holds for Braille.DrawCorrected.
- Block.Draw: the model follows the same numpy releases. In numpy 1.24 to
  1.26 the padding step raises AttributeError at `util.py:64`.
- Util.PadToMultipleOfShape: under the same numpy releases, for the
  `np.bool` read at `util.py:64`.
- InlineImage.IsInTmux: the TypeError for an unset `TERM` carries only the
  opening words, "expected string or bytes-like object". CPython 3.12
  goes on with ", got 'NoneType'".
- InlineImage.ShapeProperty: shape fields are integers. Python's `format`
  of a float field (such as `0.5%`) is not modelled.
- InlineImage.Draw: its contract states only the error case. The
  round-trip back to the properties and the data is stated by
  `InlineImage.DrawReadsBack`, and the exact text by `InlineImage.DrawDefault`.
- Buffer layouts:
  - Braille.Draw takes the buffer's element type and shape rather than its
    samples, because the samples reach the output only through the resize
    collaborator;
  - buffers with other than two or three axes, and numpy's errors for them,
    are not modelled.
- Block.Draw: for a three-axis buffer with one channel, the outcome is the
  dimension check of PIL's `Image.fromarray` in mode `L` ("Too many
  dimensions: 3 > 2."). That is PIL's behaviour, not the repository's.
- Braille.Pack: numpy's reshape error for an empty grid (`braille.py:87`)
  carries only its opening words, "cannot reshape array of size 0". numpy
  goes on with " into shape (R,newaxis,C,2)", built from the row and column
  cell counts. A grid with no rows has lost its width in this model, so C
  cannot be recovered. The same prefix reaches Braille.Render and
  Braille.Draw.
- Block.Pack: the same prefix for `block.py:28`, where numpy goes on with
  " into shape (R,newaxis,C,1,3)".
- `chr`'s range error and its C `int` overflow in Util.ConvertToStr are
  modelled with their messages, as CPython 3.5 to 3.12 raise them.
- PIL's refusal of a target with an axis below one pixel is modelled as
  `Util.ResizeRefused`, raised before the resize collaborator is called.
  It follows the Pillow releases whose `Image.resize` returns a copy when
  the size is unchanged and otherwise refuses such a target with "height
  and width must be > 0". Other Pillow releases are not modelled.
- Drawer.GetDrawerAsWritten: the ImportError message ends before the
  " (<path>/braille.py)" that Python appends, because the path depends on
  where the package is installed.
- Drawer.GetDrawer returns which implementation is constructed. Whether a
  fresh instance is built on each call is not observable in this model.
- `__init__.py` (an older copy of the iTerm2 path), `impl/sixel.py`,
  `impl/base.py`, `shape.py` and the packaging scripts are not part of this
  model. The shape classes are modelled from their use.
- Util.RowText: a code in 0xD800-0xDFFF, which `chr` accepts as a lone
  surrogate, is outside the model, because a Dafny `char` cannot hold it.
- Util.RowTexts: the same surrogate codes are outside the model.
- Util.ConvertToStr: the same surrogate codes are outside the model; every
  other code `chr` accepts or refuses is modelled, with the exception class
  CPython 3.5 to 3.12 raise.

## Findings

| source | as written | input that shows it | evidently intended | confidence | as-written member | corrected member |
|---|---|---|---|---|---|---|
| src/teimpy/impl/braille.py:46-48 | for a shape by cells the width is `2 * term_height`, the terminal's height in pixels | an 80 by 24 terminal and `ShapeByCells(10, 10)` ask for 192 pixels of width | `w = 2 * shape.width`, 20 pixels, as the shared `get_pixels_of_shape` computes | not executed | Braille.RequestedPixels, Braille.ResizedShape, Braille.Draw, Braille.CellsWidthIgnored, Braille.CellsResizeIgnoresWidth | Braille.RequestedPixelsCorrected, Braille.ResizedShapeCorrected, Braille.DrawCorrected |
| src/teimpy/drawer.py:14-16 | the braille branch imports `BrailleDrawer`, but `impl/braille.py` defines only a module-level `draw` | `get_drawer()` or `get_drawer(Mode.BRAILLE)` raises ImportError | return a braille drawer that wraps `braille.draw` | not executed | Drawer.GetDrawerAsWritten, Drawer.AsWrittenDiffersOnBraille | Drawer.GetDrawer |
