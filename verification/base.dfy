/** Platform constants and the values exchanged with the host, shared by every part of the codec. */
module Base {

  /** Byte order of a multi-byte field (`BIG` and `LITTLE` in the C code). */
  datatype Endian = Big | Little

  /** The host's byte order; the model fixes a little-endian host. */
  const Native: Endian := Little

  /** `sizeof` of the C types the options name, for an LP64 host. */
  const SizeOfChar: nat := 1
  const SizeOfShort: nat := 2
  const SizeOfInt: nat := 4
  const SizeOfLong: nat := 8
  const SizeOfFloat: nat := 4
  const SizeOfDouble: nat := 8

  /** MAXALIGN: the larger of the padding in `struct { char c; double d; }` (8) and `sizeof(int)` (4). */
  const MaxAlign: nat := 8

  type Byte = x: int | 0 <= x < 256

  /** A value handed to pack, or produced by unpack. */
  datatype Value =
    | Num(number: int)          // a Lua number used as an integer
    | Str(bytes: seq<Byte>)     // a Lua string
    | Real(image: seq<Byte>)    // a float or double, as the bytes of its native in-memory layout

  /** The errors the codec raises, one per message of the C code. */
  datatype Error =
    | InvalidOption(opt: char)               // "invalid format option [%c]"
    | IntegralSizeNotPowerOfTwo(size: nat)   // "integral size %d is not a power of 2"
    | AlignmentNotPowerOfTwo(align: nat)     // "alignment %d is not a power of 2"
    | BadArgument                            // a value is missing or of the wrong kind
    | StringTooShort                         // "string too short"
    | DataTooShort                           // "data string too short"
    | NeedsPreviousSize                      // "format `c0' needs a previous size"
    | UnfinishedString                       // "unfinished string in data"

  datatype Result<T> = Ok(value: T) | Err(error: Error)

  datatype Option<T> = None | Some(value: T)
}
