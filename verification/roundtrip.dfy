/** Unpacking what pack produced, with the same format, gives back the packed values. */
module RoundTrip {
  import opened Base
  import opened Bits
  import opened Format
  import opened Layout
  import opened ByteOrder
  import opened Integers
  import opened Pack
  import opened Unpack

  /** v lies in the range of a size-byte field: signed for lower-case options, unsigned otherwise. */
  predicate InRange(v: int, size: nat, signed: bool)
  {
    if signed then size >= 1 && -(Pow256(size) / 2) <= v < Pow256(size) / 2
    else 0 <= v < Pow256(size)
  }

  predicate NoZero(s: seq<Byte>)
  {
    forall i | 0 <= i < |s| :: s[i] != 0
  }

  /**
   * The value for option opt survives the trip: an integer in the field's range, a `cn` string
   * of exactly n > 0 bytes (pack keeps only n bytes, and `c0` reads its length from the previous
   * value instead of returning it), an `s` string without zero bytes.
   */
  predicate ValueFits(opt: char, size: nat, args: seq<Value>, ai: nat)
  {
    && (IsIntegerOption(opt) ==>
          ai < |args| && args[ai].Num? && InRange(args[ai].number, size, IsSigned(opt)))
    && (opt == 'c' ==> size > 0 && ai < |args| && args[ai].Str? && |args[ai].bytes| == size)
    && (opt == 's' ==> ai < |args| && args[ai].Str? && NoZero(args[ai].bytes))
  }

  /** Every value the format consumes from position p on fits its option, and no value is left over. */
  predicate Fits(fmt: string, p: nat, st: Settings, args: seq<Value>, ai: nat, out: seq<Byte>)
    requires p <= |fmt| && IsP2(st.align)
    decreases |fmt| - p
  {
    if p == |fmt| || fmt[p] == '\0' then ai == |args|
    else
      match OptionSize(fmt[p], fmt, p + 1)
      case Err(_) => false
      case Ok(sz) =>
        ValueFits(fmt[p], sz.size, args, ai) &&
        match PackStep(fmt, p, st, args, ai, out)
        case Err(_) => false
        case Ok(s) => Fits(fmt, s.next, s.settings, args, s.arg, s.out)
  }

  /** `memchr` finds the first zero byte. */
  lemma FindZeroFirst(data: seq<Byte>, pos: nat, e: nat)
    requires pos <= e < |data| && data[e] == 0
    requires forall i | pos <= i < e :: data[i] != 0
    ensures FindZero(data, pos) == Some(e)
  {
  }

  /** An integer in the field's range, written and read back in the same byte order. */
  lemma IntegerFieldRoundTrip(opt: char, sz: Sized, fmt: string, p: nat, st: Settings, args: seq<Value>, ai: nat,
                              f: Emitted, data: seq<Byte>, at: nat)
    requires p <= |fmt| && OptionSize(opt, fmt, p) == Ok(sz) && IsP2(st.align) && IsIntegerOption(opt)
    requires PackField(opt, sz, fmt, p, st, args, ai) == Ok(f)
    requires ValueFits(opt, sz.size, args, ai)
    requires at + |f.bytes| <= |data| && data[at..at + |f.bytes|] == f.bytes
    ensures UnpackField(opt, sz, fmt, p, st, data, at, args[..ai]) ==
            Ok(Read(args[..ai + 1], |f.bytes|, f.settings, f.next))
  {
    IntegerRoundTrip(args[ai].number, st.endian, sz.size, IsSigned(opt));
    assert args[..ai] + [args[ai]] == args[..ai + 1];
  }

  /** A float or double image, corrected for the byte order on the way out and on the way back. */
  lemma RealFieldRoundTrip(opt: char, sz: Sized, fmt: string, p: nat, st: Settings, args: seq<Value>, ai: nat,
                           f: Emitted, data: seq<Byte>, at: nat)
    requires p <= |fmt| && OptionSize(opt, fmt, p) == Ok(sz) && IsP2(st.align) && IsRealOption(opt)
    requires PackField(opt, sz, fmt, p, st, args, ai) == Ok(f)
    requires at + |f.bytes| <= |data| && data[at..at + |f.bytes|] == f.bytes
    ensures UnpackField(opt, sz, fmt, p, st, data, at, args[..ai]) ==
            Ok(Read(args[..ai + 1], |f.bytes|, f.settings, f.next))
  {
    CorrectedTwice(args[ai].image, st.endian);
    assert args[..ai] + [args[ai]] == args[..ai + 1];
  }

  /** A `cn` string of exactly n bytes is read back as the same n bytes. */
  lemma CharsFieldRoundTrip(sz: Sized, fmt: string, p: nat, st: Settings, args: seq<Value>, ai: nat,
                            f: Emitted, data: seq<Byte>, at: nat)
    requires p <= |fmt| && OptionSize('c', fmt, p) == Ok(sz) && IsP2(st.align)
    requires PackField('c', sz, fmt, p, st, args, ai) == Ok(f)
    requires ValueFits('c', sz.size, args, ai)
    requires at + |f.bytes| <= |data| && data[at..at + |f.bytes|] == f.bytes
    ensures UnpackField('c', sz, fmt, p, st, data, at, args[..ai]) ==
            Ok(Read(args[..ai + 1], |f.bytes|, f.settings, f.next))
  {
    assert args[ai].bytes[..sz.size] == args[ai].bytes;
    assert args[..ai] + [args[ai]] == args[..ai + 1];
  }

  /** A zero-free `s` string is read back up to the zero byte pack put after it. */
  lemma ZeroTerminatedFieldRoundTrip(sz: Sized, fmt: string, p: nat, st: Settings, args: seq<Value>, ai: nat,
                                     f: Emitted, data: seq<Byte>, at: nat)
    requires p <= |fmt| && OptionSize('s', fmt, p) == Ok(sz) && IsP2(st.align)
    requires PackField('s', sz, fmt, p, st, args, ai) == Ok(f)
    requires ValueFits('s', sz.size, args, ai)
    requires at + |f.bytes| <= |data| && data[at..at + |f.bytes|] == f.bytes
    ensures UnpackField('s', sz, fmt, p, st, data, at, args[..ai]) ==
            Ok(Read(args[..ai + 1], |f.bytes|, f.settings, f.next))
  {
    var s := args[ai].bytes;
    assert s[..|s|] == s;
    assert f.bytes == s + [0];
    assert data[at..at + |s|] == f.bytes[..|s|] == s;
    forall i | at <= i < at + |s|
      ensures data[i] != 0
    {
      assert data[i] == s[i - at];
    }
    assert |f.bytes| == |s| + 1 && f.bytes[|s|] == 0;
    assert data[at + |s|] == f.bytes[|s|];
    FindZeroFirst(data, at, at + |s|);
    assert args[..ai] + [args[ai]] == args[..ai + 1];
  }

  /** One field: the bytes pack emitted for a fitting value, found at `at` in data, unpack to that value. */
  lemma FieldRoundTrip(opt: char, sz: Sized, fmt: string, p: nat, st: Settings, args: seq<Value>, ai: nat,
                       f: Emitted, data: seq<Byte>, at: nat)
    requires p <= |fmt| && OptionSize(opt, fmt, p) == Ok(sz) && IsP2(st.align)
    requires PackField(opt, sz, fmt, p, st, args, ai) == Ok(f)
    requires ValueFits(opt, sz.size, args, ai) && ai <= |args|
    requires at + |f.bytes| <= |data| && data[at..at + |f.bytes|] == f.bytes
    ensures f.arg <= |args|
    ensures UnpackField(opt, sz, fmt, p, st, data, at, args[..ai]) ==
            Ok(Read(args[..f.arg], |f.bytes|, f.settings, f.next))
  {
    if IsIntegerOption(opt) {
      IntegerFieldRoundTrip(opt, sz, fmt, p, st, args, ai, f, data, at);
    } else if IsRealOption(opt) {
      RealFieldRoundTrip(opt, sz, fmt, p, st, args, ai, f, data, at);
    } else if opt == 'c' {
      CharsFieldRoundTrip(sz, fmt, p, st, args, ai, f, data, at);
    } else if opt == 's' {
      ZeroTerminatedFieldRoundTrip(sz, fmt, p, st, args, ai, f, data, at);
    }
  }

  /** The field that follows a prefix and its padding in a buffer sits right after them. */
  lemma FieldInBuffer(out: seq<Byte>, pad: seq<Byte>, field: seq<Byte>, data: seq<Byte>)
    requires out + pad + field <= data
    ensures data[|out| + |pad|..|out| + |pad| + |field|] == field
  {
    assert (out + pad + field)[|out| + |pad|..] == field;
  }

  /** A successful pack step is the padding and the field `PackField` emits, appended to the buffer. */
  lemma PackStepParts(fmt: string, p: nat, st: Settings, args: seq<Value>, ai: nat, out: seq<Byte>)
    requires p < |fmt| && IsP2(st.align)
    requires PackStep(fmt, p, st, args, ai, out).Ok?
    ensures OptionSize(fmt[p], fmt, p + 1).Ok?
    ensures var sz := OptionSize(fmt[p], fmt, p + 1).value;
            var f := PackField(fmt[p], sz, fmt, p + 1, st, args, ai);
            && f.Ok?
            && PackStep(fmt, p, st, args, ai, out).value ==
               Packing(f.value.next, f.value.settings, f.value.arg,
                       out + Zeros(GetToAlign(|out|, st.align, fmt[p], sz.size)) + f.value.bytes)
  {
  }

  /** An unpack step whose field reads successfully at the aligned offset. */
  lemma UnpackStepParts(fmt: string, p: nat, st: Settings, data: seq<Byte>, pos: nat, results: seq<Value>,
                        sz: Sized, at: nat, rd: Read)
    requires p < |fmt| && IsP2(st.align)
    requires OptionSize(fmt[p], fmt, p + 1) == Ok(sz)
    requires at == pos + GetToAlign(pos, st.align, fmt[p], sz.size)
    requires UnpackField(fmt[p], sz, fmt, p + 1, st, data, at, results) == Ok(rd)
    ensures UnpackStep(fmt, p, st, data, pos, results) == Ok(Reading(rd.next, rd.settings, at + rd.size, rd.results))
  {
  }

  /**
   * One iteration: when the buffer pack finishes with holds the padding and the field pack's step
   * appended, unpack's step at the same offset reads the value back and ends where that field ends.
   */
  lemma StepRoundTrip(fmt: string, p: nat, st: Settings, args: seq<Value>, ai: nat, pos: nat, data: seq<Byte>,
                      sz: Sized, f: Emitted, done: seq<Value>, after: seq<Value>)
    requires p < |fmt| && IsP2(st.align) && ai <= |args|
    requires OptionSize(fmt[p], fmt, p + 1) == Ok(sz)
    requires PackField(fmt[p], sz, fmt, p + 1, st, args, ai) == Ok(f)
    requires ValueFits(fmt[p], sz.size, args, ai)
    requires var at := pos + GetToAlign(pos, st.align, fmt[p], sz.size);
             at + |f.bytes| <= |data| && data[at..at + |f.bytes|] == f.bytes
    requires done == args[..ai] && f.arg <= |args| && after == args[..f.arg]
    ensures UnpackStep(fmt, p, st, data, pos, done) ==
            Ok(Reading(f.next, f.settings, pos + GetToAlign(pos, st.align, fmt[p], sz.size) + |f.bytes|, after))
  {
    var at := pos + GetToAlign(pos, st.align, fmt[p], sz.size);
    FieldRoundTrip(fmt[p], sz, fmt, p + 1, st, args, ai, f, data, at);
    UnpackStepParts(fmt, p, st, data, pos, done, sz, at, Read(after, |f.bytes|, f.settings, f.next));
  }

  /**
   * One iteration of both loops: when the buffer pack finishes with extends the buffer after pack's
   * step, unpack's step at the same offset reads the value back and ends where pack's step ended.
   */
  lemma PackStepRoundTrip(fmt: string, p: nat, st: Settings, args: seq<Value>, ai: nat, out: seq<Byte>,
                          data: seq<Byte>)
    requires p < |fmt| && IsP2(st.align) && ai <= |args|
    requires OptionSize(fmt[p], fmt, p + 1).Ok?
    requires ValueFits(fmt[p], OptionSize(fmt[p], fmt, p + 1).value.size, args, ai)
    requires PackStep(fmt, p, st, args, ai, out).Ok?
    requires PackStep(fmt, p, st, args, ai, out).value.out <= data
    ensures var s := PackStep(fmt, p, st, args, ai, out).value;
            s.arg <= |args| &&
            UnpackStep(fmt, p, st, data, |out|, args[..ai]) == Ok(Reading(s.next, s.settings, |s.out|, args[..s.arg]))
  {
    PackStepParts(fmt, p, st, args, ai, out);
    var sz := OptionSize(fmt[p], fmt, p + 1).value;
    var f := PackField(fmt[p], sz, fmt, p + 1, st, args, ai).value;
    FieldInBuffer(out, Zeros(GetToAlign(|out|, st.align, fmt[p], sz.size)), f.bytes, data);
    StepRoundTrip(fmt, p, st, args, ai, |out|, data, sz, f, args[..ai], args[..f.arg]);
  }

  /** A fitting format position that is not the end: its option fits and so does the rest. */
  lemma FitsStep(fmt: string, p: nat, st: Settings, args: seq<Value>, ai: nat, out: seq<Byte>)
    requires p < |fmt| && fmt[p] != '\0' && IsP2(st.align)
    requires Fits(fmt, p, st, args, ai, out)
    ensures OptionSize(fmt[p], fmt, p + 1).Ok?
    ensures ValueFits(fmt[p], OptionSize(fmt[p], fmt, p + 1).value.size, args, ai)
    ensures PackStep(fmt, p, st, args, ai, out).Ok?
    ensures var s := PackStep(fmt, p, st, args, ai, out).value;
            Fits(fmt, s.next, s.settings, args, s.arg, s.out)
  {
  }

  /** Unpack after a successful step continues from the step's state. */
  lemma UnpackFromStep(fmt: string, p: nat, st: Settings, data: seq<Byte>, pos: nat, results: seq<Value>,
                       rd: Reading)
    requires p < |fmt| && fmt[p] != '\0' && IsP2(st.align)
    requires UnpackStep(fmt, p, st, data, pos, results) == Ok(rd)
    ensures UnpackFrom(fmt, p, st, data, pos, results) ==
            UnpackFrom(fmt, rd.next, rd.settings, data, rd.pos, rd.results)
  {
  }

  /**
   * The round trip from any point of the pack loop: unpacking the finished buffer from the
   * current offset, with the values packed so far on the stack, returns all the values and the
   * position one past the end.
   */
  lemma {:induction false} RoundTripFrom(fmt: string, p: nat, st: Settings, args: seq<Value>, ai: nat,
                                         out: seq<Byte>, data: seq<Byte>)
    requires p <= |fmt| && IsP2(st.align) && ai <= |args|
    requires PackFrom(fmt, p, st, args, ai, out) == Ok(data)
    requires Fits(fmt, p, st, args, ai, out)
    ensures UnpackFrom(fmt, p, st, data, |out|, args[..ai]) == Ok(Unpacking(args, |data| + 1))
    decreases |fmt| - p
  {
    if p == |fmt| || fmt[p] == '\0' {
      assert args[..ai] == args;
    } else {
      FitsStep(fmt, p, st, args, ai, out);
      var s := PackStep(fmt, p, st, args, ai, out).value;
      assert PackFrom(fmt, s.next, s.settings, args, s.arg, s.out) == Ok(data);
      PackExtends(fmt, s.next, s.settings, args, s.arg, s.out);
      PackStepRoundTrip(fmt, p, st, args, ai, out, data);
      UnpackFromStep(fmt, p, st, data, |out|, args[..ai], Reading(s.next, s.settings, |s.out|, args[..s.arg]));
      RoundTripFrom(fmt, s.next, s.settings, args, s.arg, s.out, data);
    }
  }

  /**
   * `struct.unpack(fmt, struct.pack(fmt, ...))` returns the packed values, followed by the
   * position one past the end of the data, whenever every value fits its option.
   */
  lemma RoundTrip(fmt: string, args: seq<Value>)
    requires Packed(fmt, args).Ok?
    requires Fits(fmt, 0, Default, args, 0, [])
    ensures Unpacked(fmt, Packed(fmt, args).value, 0) == Ok(Unpacking(args, |Packed(fmt, args).value| + 1))
  {
    RoundTripFrom(fmt, 0, Default, args, 0, [], Packed(fmt, args).value);
  }
}
