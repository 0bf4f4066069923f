/** Target shapes and terminal geometry. The classes `ShapeByCells`,
    `ShapeByPixels` and `ShapeByRatio` come from `teimpy/shape.py`, which is
    not part of this model; they are modelled from their use: each carries a
    `height` and a `width`. */
module Shapes {

  /** A (height, width) pair, in the order of numpy shapes and of the
      source's `(h, w)` tuples. */
  datatype Dims = Dims(height: int, width: int)

  datatype Shape =
    | ByCells(height: int, width: int)
    | ByPixels(height: int, width: int)
    | ByRatio(heightRatio: real, widthRatio: real)

  /** What a caller can pass as `shape`: `None`, one of the three shape
      classes, or any other object (a plain tuple, say), which has none of
      the attributes the code reads. */
  datatype ShapeArg = Absent | Known(shape: Shape) | Unknown

  /** `shutil.get_terminal_size()`: columns first, then lines. */
  datatype TermSize = TermSize(columns: nat, lines: nat)
}
