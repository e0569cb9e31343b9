# struct: a verified model of the Lua binary pack/unpack codec

`struct.c` (struct 1.2) gives Lua two functions. `struct.pack(fmt, ...)` turns values into a
binary string. `struct.unpack(fmt, data [, init])` turns such a string back into values. Both
are driven by the same format language. Each option character names a field: the integers
`b B h H l L i[n] I[n]`, the floating-point `f d`, the strings `c[n]` and `s`, and the padding
byte `x`. The options ` `, `<`, `>` and `![n]` control the layout instead of naming a field.

This project models the codec's core in Dafny and proves properties of it:

- `Bits`: the `isp2` test, via a bitwise AND on naturals, and the mask arithmetic behind it.
- `Format`: the directive parser. `GetNum` reads a digit suffix. `OptionSize` is the pure form
  of `optsize`, and `OptSize` is the method form.
- `Layout`:
  - the per-call header, modelled as the class `Header` with `defaultoptions` as its constructor
    and `commoncases` as its method;
  - its value `Settings`;
  - `GetToAlign`, the alignment rule.
- `ByteOrder`: `correctbytes`. `CorrectBytes` reverses an array in place, and `Corrected` is its
  specification.
- `Integers`: `putinteger` and `getinteger`, as loops over a byte sequence, together with the
  reference arithmetic they compute.
- `Pack` and `Unpack`: the scan loops of `b_pack` and `b_unpack`.
  - Each loop is a method over a `Header` object.
  - Each method is proved equal to a recursive specification: `Packed`/`PackFrom` and
    `Unpacked`/`UnpackFrom`.
  - Each specification is built from a one-iteration function (`PackStep`, `UnpackStep`).
  - A one-iteration function is built from the field step of the C `switch` (`PackField`,
    `UnpackField`).
- `RoundTrip`: unpacking what pack produced, with the same format, returns the packed values.
  This holds whenever every value fits its field (`Fits`).
- `Examples`: concrete calls worked out on the model.

Most of the proof work is in a few places:
- `Bits.MaskIsMod`, `Bits.PowerOfTwoFromMask` and `Bits.IsP2Correct` tie the bit tricks to arithmetic;
- `Integers.LittleBytesValue` proves the byte encoding correct by induction on its length;
- `RoundTrip.RoundTripFrom` proves the round trip by induction over the pack loop.

The platform is fixed to these constants (`Base`):

- a little-endian host;
- `sizeof(short) = 2`, `sizeof(int) = 4`, `sizeof(long) = 8`, `sizeof(float) = 4`,
  `sizeof(double) = 8`;
- `MAXALIGN = 8`.

Values exchanged with Lua are `Num(int)`, `Str(bytes)` and `Real(image)`. `Real` carries the
native in-memory bytes of a float or double. Each error message of the C code is one constructor
of `Error`. A Lua error becomes an `Err` result.

One behaviour is easy to misread. On unpack, `c0` takes its length from the value read just
before it and pops that value (`struct.c:355-356`). So `unpack("Bc0", "\5hello")` returns
`"hello"` and 7, not 5, `"hello"` and 7. The header comment at `struct.c:27-28` says only that
`c0` uses the previous number as the length; the pop means that number is not among the results.
The model follows the code (`Examples.CountedString`).

## Model

| member | source | states |
|---|---|---|
| Bits.IsP2Correct | struct-1.2-3/struct.c:36 | `isp2(x)` holds exactly when x is 2^k for some k |
| Bits.MaskIsMod | struct-1.2-3/struct.c:130 | `x & (2^k - 1)` equals x mod 2^k, the identity `gettoalign`'s mask relies on |
| Format.GetNum | struct-1.2-3/struct.c:64-77 | when no digit follows, returns the default and leaves the position alone; otherwise consumes the maximal digit run and returns its decimal value, stopping at the first non-digit |
| Format.OptionSize | struct-1.2-3/struct.c:81-122 | an unknown option is "invalid format option"; `i`/`I` fail exactly when their size (default `sizeof(int)`) is not a power of two; every other known option succeeds; only `c`, `i` and `I` read a suffix; `x` has size 1; `s` and the control options have size 0; integer sizes are powers of two |
| Format.OptionSizeValues | struct-1.2-3/struct.c:81-122 | the size of each option: `sizeof(char)`, `sizeof(short)`, `sizeof(long)`, `sizeof(float)` and `sizeof(double)` for `b/B`, `h/H`, `l/L`, `f` and `d`; the digit suffix (default 1) for `c`; the digit suffix (default `sizeof(int)`) for `i`/`I`, whose error names that suffix when it is not a power of two |
| Format.OptSize | struct-1.2-3/struct.c:81-122 | the `switch` of `optsize`, calling `GetNum` for the suffix, returns what `OptionSize` specifies |
| Layout.GetToAlign | struct-1.2-3/struct.c:124-131 | no padding for size 0 or for `c` |
| Layout.GetToAlignPads | struct-1.2-3/struct.c:124-131 | with e = min(size, align), the padding is (e - len mod e) mod e: it is below e and len plus it is a multiple of e |
| Layout.AlignMask | struct-1.2-3/struct.c:130 | for a power of two e, the mask expression `(e - (len & (e-1))) & (e-1)` is the least padding to a multiple of e |
| Layout.Control | struct-1.2-3/struct.c:133-156 | ` ` changes nothing; `>` and `<` set the byte order; `![n]` sets the ceiling to n (default MAXALIGN) and fails "alignment %d is not a power of 2" exactly when n is not a power of two; the ceiling stays a power of two; no suffix is read except by `!` |
| Layout.Header.constructor | struct-1.2-3/struct.c:79 | `defaultoptions`: native byte order and ceiling 1, so the header starts valid |
| Layout.Header.CommonCases | struct-1.2-3/struct.c:133-156 | applies a control option to the header as `Control` specifies, leaving it unchanged on error and keeping the ceiling a power of two |
| ByteOrder.CorrectedTwice | struct-1.2-3/struct.c:181-193 | correcting a byte run twice for the same order restores it |
| ByteOrder.CorrectBytes | struct-1.2-3/struct.c:181-193 | leaves the buffer unchanged when the order is native and otherwise reverses it in place |
| Integers.LittleBytesValue | struct-1.2-3/struct.c:167-172 | the n little-endian bytes `putinteger` writes for v have the unsigned value v mod 256^n |
| Integers.BigIsReversedLittle | struct-1.2-3/struct.c:167-178 | the big-endian byte run is the little-endian one reversed |
| Integers.UnsignedRoundTrip | struct-1.2-3/struct.c:271-288 | reading back, unsigned and in the same order, the bytes written for v gives v mod 256^size |
| Integers.SignExtendRange | struct-1.2-3/struct.c:287-295 | sign extension yields a value in the signed range that is congruent to the raw value, and negative exactly when the top bit is set |
| Integers.IntegerRoundTrip | struct-1.2-3/struct.c:271-296 | a value in the field's signed (lower-case option) or unsigned (upper-case option) range is read back unchanged in either byte order |
| Integers.LittleValueBound | struct-1.2-3/struct.c:274-286 | the value of n bytes is below 256^n |
| Integers.PutInteger | struct-1.2-3/struct.c:158-179 | appends the size low bytes of v in the requested order |
| Integers.ReadUnsigned | struct-1.2-3/struct.c:274-286 | the accumulation loops compute the unsigned value of the bytes in the requested order, below 256^size |
| Integers.GetInteger | struct-1.2-3/struct.c:271-296 | returns the unsigned value, or its sign extension for signed options, within the field's range |
| Pack.PackField | struct-1.2-3/struct.c:213-264 | emits exactly `size` bytes; a value option consumes one value, and fails with a bad argument when none is left; other options consume none and keep the size `optsize` gave; the format position moves forward and the ceiling stays a power of two |
| Pack.StringFields | struct-1.2-3/struct.c:246-261 | `cn` with n > 0 fails "string too short" when the string is shorter and otherwise emits its first n bytes; `c0` emits the whole string; `s` emits the string and one zero byte |
| Pack.ControlFields | struct-1.2-3/struct.c:262-263 | a control option emits no bytes, consumes no value and updates the header as `commoncases` does |
| Pack.PackStep | struct-1.2-3/struct.c:205-265 | one iteration advances in the format, keeps the ceiling a power of two and only appends to the buffer |
| Pack.PackExtends | struct-1.2-3/struct.c:205-266 | pack only appends: the buffer at any point is a prefix of the result |
| Pack.PackOption | struct-1.2-3/struct.c:213-264 | the `switch` appends exactly the field bytes `PackField` specifies and leaves the header as it specifies |
| Pack.AddPadding | struct-1.2-3/struct.c:211-212 | the padding loop appends n zero bytes |
| Pack.PackNext | struct-1.2-3/struct.c:207-265 | one loop iteration does what `PackStep` specifies and keeps `totalsize` equal to the buffer length |
| Pack.Pack | struct-1.2-3/struct.c:195-269 | `b_pack` returns `Packed(fmt, args)`, keeping `totalsize` equal to the number of bytes emitted |
| Unpack.FindZero | struct-1.2-3/struct.c:364 | `memchr` finds the first zero byte at or after pos, and finds none exactly when there is none |
| Unpack.UnpackField | struct-1.2-3/struct.c:312-373 | a field that does not fit fails "data string too short"; a field read lies within the data; every option but `s` and `c0` advances by the size `optsize` gave; `c0` advances by the popped count |
| Unpack.UnpackFieldResults | struct-1.2-3/struct.c:313-373 | a value option pushes one result; `c0` instead pops the number it uses as length, pushes the string and advances by that number; other options leave the results alone |
| Unpack.UnpackStrings | struct-1.2-3/struct.c:349-370 | `s` fails "unfinished string" exactly when no zero byte follows; otherwise it returns the zero-free bytes before the first zero and consumes that zero; `cn` with n > 0 returns the n bytes at pos |
| Unpack.CountedStringErrors | struct-1.2-3/struct.c:351-358 | `c0` with no number on top of the results fails "format `c0' needs a previous size"; with a number n it fails "data string too short" exactly when n is negative or runs past the data |
| Unpack.ControlReads | struct-1.2-3/struct.c:371-372 | a control option reads nothing, produces nothing and updates the header as `commoncases` does |
| Unpack.UnpackStep | struct-1.2-3/struct.c:307-375 | one iteration advances in the format, keeps the ceiling a power of two and moves the offset forward, staying within the data |
| Unpack.UnpackAdvances | struct-1.2-3/struct.c:298-378 | the returned position is past the starting offset |
| Unpack.UnpackWithinData | struct-1.2-3/struct.c:298-378 | the returned position is at most one past the end of the data |
| Unpack.UnpackOption | struct-1.2-3/struct.c:312-373 | the size check and `switch` return what `UnpackField` specifies and leave the header as it specifies |
| Unpack.UnpackNext | struct-1.2-3/struct.c:309-374 | one loop iteration does what `UnpackStep` specifies |
| Unpack.Unpack | struct-1.2-3/struct.c:298-378 | `b_unpack` returns `Unpacked(fmt, data, start)`: the values read and `pos + 1` |
| RoundTrip.FindZeroFirst | struct-1.2-3/struct.c:364 | `memchr` stops at the zero byte pack put after a zero-free string |
| RoundTrip.IntegerFieldRoundTrip | struct-1.2-3/struct.c:315-327 | an integer in range, packed and read back at the same offset, gives the same `Num` |
| RoundTrip.RealFieldRoundTrip | struct-1.2-3/struct.c:333-348 | a float or double image, corrected on pack and on unpack, comes back unchanged |
| RoundTrip.CharsFieldRoundTrip | struct-1.2-3/struct.c:349-361 | a `cn` string of exactly n bytes comes back unchanged |
| RoundTrip.ZeroTerminatedFieldRoundTrip | struct-1.2-3/struct.c:362-370 | a zero-free `s` string comes back unchanged and its terminator is consumed |
| RoundTrip.FieldRoundTrip | struct-1.2-3/struct.c:313-373 | unpack's `switch` reads back every field pack's `switch` wrote for a fitting value, consuming the same bytes and leaving the same header |
| RoundTrip.StepRoundTrip | struct-1.2-3/struct.c:309-374 | unpack's iteration at the offset where pack's iteration started reads the value back and ends where pack's ended |
| RoundTrip.PackStepRoundTrip | struct-1.2-3/struct.c:309-374 | the same, stated on the two loops' states |
| RoundTrip.RoundTripFrom | struct-1.2-3/struct.c:298-378 | from any point of the pack loop, unpacking the finished buffer returns all the values and the position one past the end |
| RoundTrip.RoundTrip | struct-1.2-3/struct.c:298-378 | `unpack(fmt, pack(fmt, ...))` returns the packed values and the length of the data plus one, whenever every value fits its field |
| Examples.CountedString | struct-1.2-3/struct.c:349-361 | `unpack("Bc0", "\5hello")` returns only `"hello"` and 7 |
| Examples.CountedStringWithoutCount | struct-1.2-3/struct.c:353-354 | `c0` with no number before it fails "needs a previous size" |
| Examples.SignedAndUnsignedByte | struct-1.2-3/struct.c:287-295 | byte 0xFF unpacks as -1 under `b` and as 255 under `B` |
| Examples.AlignedInt | struct-1.2-3/struct.c:205-265 | under `!4`, an int packed after one byte is preceded by three zero bytes |
| Examples.BigEndianInt | struct-1.2-3/struct.c:173-178 | `pack(">i", 1)` is 0 0 0 1 |
| Examples.LittleEndianInt | struct-1.2-3/struct.c:167-172 | `pack("<i", 1)` is 1 0 0 0 |
| Examples.StrayDigit | struct-1.2-3/struct.c:98-99 | `x` takes no suffix, so the `4` of `x4` is an invalid option |
| Examples.OddIntegerSize | struct-1.2-3/struct.c:108-115 | `i3` fails "integral size 3 is not a power of 2" |
| Examples.ZeroTerminated | struct-1.2-3/struct.c:246-261 | `pack("s", "hi")` is `h i \0` |
| Examples.ShortData | struct-1.2-3/struct.c:312 | unpacking `i` from two bytes fails "data string too short" |

## Left out

- Lua glue is not part of this model. This covers `luaopen_struct`, the function table, `luaL_Buffer`, the Lua stack and argument fetching. Arguments are a list of `Value`s, and pack's output is a byte sequence.
- Lua coercions between numbers and strings are not modelled. A value of the wrong kind, or a missing value, is `BadArgument`.
- Integers.PutInteger: the number is kept exact. The model does not convert it through `lua_Number` and `unsigned long`, with the `LONG_MAX` branch and truncation of fractions. It emits the low bytes of the exact two's complement. This agrees with the C code for integers of magnitude at most 2^53. `luaL_checknumber` returns a double, so the C code rounds larger integers before writing them.
- Integers.GetInteger: the model returns the exact integer. The C code returns it as a `lua_Number`, which loses precision above 2^53.
- Sizes above 8 bytes are not restricted. The model's exact arithmetic keeps working there, while the C shifts are undefined.
- `getnum` overflow on long digit runs is not modelled. The model reads unbounded naturals. It also does not narrow the suffix to `int`, as `optsize` does for `i`/`I` (`struct.c:111`) and `commoncases` does for `!` (`struct.c:147`). So with a 32-bit `int`, C reads `i4294967300` as a 4-byte field, while the model reports `IntegralSizeNotPowerOfTwo(4294967300)`.
- `f`/`d` floating-point conversion is not modelled. A `Real` carries the native bytes of the float or double. Pack requires an image of exactly the field's size, and otherwise reports `BadArgument`.
- Unpack.UnpackField: `c0` accepts only a `Num` result as its length. With no earlier result, the C code tests the data string itself. It also accepts numeric strings and truncates fractional lengths. A negative length is undefined in C. The conversion to `size_t` at `struct.c:355` has no defined result, and the check at `struct.c:357` can itself wrap. The model reports `DataTooShort`.
- Unpack.Unpack: the start offset is a natural number, namely `init - 1`. An `init` of 0 or less, which wraps around in `size_t`, is not modelled.
- The host is fixed to little-endian with LP64 sizes. The union probe and `struct cD` that compute these in C are not modelled.
- `Pack.PackNext` and `Unpack.UnpackNext` are one iteration of the C loops, split out as methods. `Pack.AddPadding` is the whole inner padding loop (`struct.c:211-212`). `Integers.ReadUnsigned` is the loop part of `getinteger`.
- The round trip (`RoundTrip.RoundTrip`) is stated for fitting values only:
  - integers must be in their field's range;
  - `cn` strings must be exactly n > 0 bytes;
  - `s` strings must be zero-free;
  - no value may be left over.
  `c0` is outside this statement, because unpack returns its string in place of the count and the string (`Examples.CountedString`).
