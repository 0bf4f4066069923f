/** The pixel buffers the drawers consume: numpy element types, 8-bit
    samples, RGB pixels, and rectangular two-dimensional grids. */
module Pixels {

  /** The numpy element types a caller can hand in. */
  datatype DType =
    | Bool | UInt8 | UInt16 | UInt32 | UInt64
    | Int8 | Int16 | Int32 | Int64
    | Float16 | Float32 | Float64

  /** `str(array.dtype)` for each element type. */
  function DTypeName(d: DType): string {
    match d
    case Bool => "bool"
    case UInt8 => "uint8"
    case UInt16 => "uint16"
    case UInt32 => "uint32"
    case UInt64 => "uint64"
    case Int8 => "int8"
    case Int16 => "int16"
    case Int32 => "int32"
    case Int64 => "int64"
    case Float16 => "float16"
    case Float32 => "float32"
    case Float64 => "float64"
  }

  type Byte = x: int | 0 <= x < 256

  /** One pixel of an `uint8` buffer with a trailing channel axis of 3. */
  datatype Rgb = Rgb(r: Byte, g: Byte, b: Byte)

  const Black := Rgb(0, 0, 0)

  predicate Rectangular<T>(g: seq<seq<T>>) {
    forall i :: 0 <= i < |g| ==> |g[i]| == |g[0]|
  }

  /** A two-dimensional array: every row has the same length. A grid with no
      rows has width 0. */
  type Grid<T> = g: seq<seq<T>> | Rectangular(g) witness []

  function Width<T>(g: Grid<T>): nat {
    if |g| == 0 then 0 else |g[0]|
  }
}
