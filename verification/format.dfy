/** The directive parser: `getnum` and `optsize`. */
module Format {
  import opened Base
  import opened Bits

  predicate IsDigit(c: char)
  {
    '0' <= c <= '9'
  }

  function DigitValue(c: char): nat
    requires IsDigit(c)
  {
    c as int - '0' as int
  }

  predicate AllDigits(ds: seq<char>)
  {
    forall i | 0 <= i < |ds| :: IsDigit(ds[i])
  }

  /** Decimal value of a digit run, read most significant digit first. */
  function DecimalValue(ds: seq<char>): nat
    requires AllDigits(ds)
  {
    if ds == [] then 0 else 10 * DecimalValue(ds[..|ds| - 1]) + DigitValue(ds[|ds| - 1])
  }

  /** End of the maximal run of digits that starts at position p of the format. */
  function DigitsEnd(fmt: string, p: nat): (e: nat)
    requires p <= |fmt|
    ensures p <= e <= |fmt|
    ensures forall i | p <= i < e :: IsDigit(fmt[i])
    ensures e == |fmt| || !IsDigit(fmt[e])
    decreases |fmt| - p
  {
    if p < |fmt| && IsDigit(fmt[p]) then DigitsEnd(fmt, p + 1) else p
  }

  /** Any digit run ending at a non-digit is the maximal one. */
  lemma {:induction false} DigitsEndUnique(fmt: string, p: nat, e: nat)
    requires p <= e <= |fmt|
    requires forall i | p <= i < e :: IsDigit(fmt[i])
    requires e == |fmt| || !IsDigit(fmt[e])
    ensures DigitsEnd(fmt, p) == e
    decreases e - p
  {
    if p < e {
      DigitsEndUnique(fmt, p + 1, e);
    }
  }

  /** A number read from the format and the position after it. */
  datatype Number = Number(value: nat, next: nat)

  /** What `getnum` reads at position p: the default when no digit follows, else the whole digit run. */
  function NumberAt(fmt: string, p: nat, df: nat): (r: Number)
    requires p <= |fmt|
    ensures p <= r.next <= |fmt|
  {
    var e := DigitsEnd(fmt, p);
    if e == p then Number(df, p) else Number(DecimalValue(fmt[p..e]), e)
  }

  /** `getnum`: reads an optional decimal number, advancing the format position past it. */
  method GetNum(fmt: string, p: nat, df: nat) returns (a: nat, next: nat)
    requires p <= |fmt|
    ensures Number(a, next) == NumberAt(fmt, p, df)
    ensures p == |fmt| || !IsDigit(fmt[p]) ==> a == df && next == p
    ensures p < |fmt| && IsDigit(fmt[p]) ==>
              p < next <= |fmt| && AllDigits(fmt[p..next]) && a == DecimalValue(fmt[p..next]) &&
              (next == |fmt| || !IsDigit(fmt[next]))
  {
    if p == |fmt| || !IsDigit(fmt[p]) {
      return df, p;
    }
    a, next := 0, p;
    // the body of the do/while runs once before the test
    a := a * 10 + DigitValue(fmt[next]);
    next := next + 1;
    assert fmt[p..next][..0] == [];
    while next < |fmt| && IsDigit(fmt[next])
      invariant p < next <= |fmt|
      invariant forall i | p <= i < next :: IsDigit(fmt[i])
      invariant a == DecimalValue(fmt[p..next])
      decreases |fmt| - next
    {
      assert fmt[p..next + 1][..next - p] == fmt[p..next];
      a := a * 10 + DigitValue(fmt[next]);
      next := next + 1;
    }
    DigitsEndUnique(fmt, p, next);
  }

  /** Options that read or write an integer field. */
  predicate IsIntegerOption(opt: char)
  {
    opt == 'b' || opt == 'B' || opt == 'h' || opt == 'H' ||
    opt == 'l' || opt == 'L' || opt == 'i' || opt == 'I'
  }

  /** Lower-case integer options are signed (`islower`). */
  predicate IsSigned(opt: char)
  {
    opt == 'b' || opt == 'h' || opt == 'l' || opt == 'i'
  }

  /** Options that carry a float or double. */
  predicate IsRealOption(opt: char)
  {
    opt == 'f' || opt == 'd'
  }

  /** Options that carry a string. */
  predicate IsStringOption(opt: char)
  {
    opt == 'c' || opt == 's'
  }

  /** Options that only change the header, or nothing at all. */
  predicate IsControlOption(opt: char)
  {
    opt == ' ' || opt == '<' || opt == '>' || opt == '!'
  }

  /** Options that consume one value on pack and produce one on unpack. */
  predicate IsValueOption(opt: char)
  {
    IsIntegerOption(opt) || IsRealOption(opt) || IsStringOption(opt)
  }

  predicate IsKnownOption(opt: char)
  {
    IsValueOption(opt) || opt == 'x' || IsControlOption(opt)
  }

  /** The size `optsize` assigns to an option and the format position after its suffix. */
  datatype Sized = Sized(size: nat, next: nat)

  /** `optsize`: the byte size of one option, reading the digit suffix of `c`, `i` and `I`. */
  function OptionSize(opt: char, fmt: string, p: nat): (r: Result<Sized>)
    requires p <= |fmt|
    ensures !IsKnownOption(opt) ==> r == Err(InvalidOption(opt))
    ensures opt == 'i' || opt == 'I' ==> (r.Ok? <==> IsP2(NumberAt(fmt, p, SizeOfInt).value))
    ensures IsKnownOption(opt) && opt != 'i' && opt != 'I' ==> r.Ok?
    ensures r.Ok? ==> p <= r.value.next <= |fmt|
    ensures r.Ok? && opt != 'c' && opt != 'i' && opt != 'I' ==> r.value.next == p
    ensures r.Ok? && IsIntegerOption(opt) ==> IsP2(r.value.size)
    ensures r.Ok? && opt != 'c' ==> r.value.size == 0 || IsP2(r.value.size)
    ensures opt == 'x' ==> r == Ok(Sized(1, p))
    ensures opt == 's' || IsControlOption(opt) ==> r == Ok(Sized(0, p))
  {
    match opt
    case 'B' | 'b' => Ok(Sized(SizeOfChar, p))
    case 'H' | 'h' => Ok(Sized(SizeOfShort, p))
    case 'L' | 'l' => Ok(Sized(SizeOfLong, p))
    case 'f' => Ok(Sized(SizeOfFloat, p))
    case 'd' => Ok(Sized(SizeOfDouble, p))
    case 'x' => Ok(Sized(1, p))
    case 'c' =>
      var n := NumberAt(fmt, p, 1);
      Ok(Sized(n.value, n.next))
    case 's' | ' ' | '<' | '>' | '!' => Ok(Sized(0, p))
    case 'i' | 'I' =>
      var n := NumberAt(fmt, p, SizeOfInt);
      if IsP2(n.value) then Ok(Sized(n.value, n.next)) else Err(IntegralSizeNotPowerOfTwo(n.value))
    case _ => Err(InvalidOption(opt))
  }

  /**
   * The size `optsize` gives each option: the `sizeof` of the C type for `b h l f d` and their
   * upper-case forms, the digit suffix for `c` (default 1) and for `i`/`I` (default `sizeof(int)`),
   * which for `i`/`I` must be a power of two.
   */
  lemma OptionSizeValues(opt: char, fmt: string, p: nat)
    requires p <= |fmt|
    ensures opt == 'b' || opt == 'B' ==> OptionSize(opt, fmt, p) == Ok(Sized(SizeOfChar, p))
    ensures opt == 'h' || opt == 'H' ==> OptionSize(opt, fmt, p) == Ok(Sized(SizeOfShort, p))
    ensures opt == 'l' || opt == 'L' ==> OptionSize(opt, fmt, p) == Ok(Sized(SizeOfLong, p))
    ensures opt == 'f' ==> OptionSize(opt, fmt, p) == Ok(Sized(SizeOfFloat, p))
    ensures opt == 'd' ==> OptionSize(opt, fmt, p) == Ok(Sized(SizeOfDouble, p))
    ensures opt == 'c' ==>
              OptionSize(opt, fmt, p) == Ok(Sized(NumberAt(fmt, p, 1).value, NumberAt(fmt, p, 1).next))
    ensures (opt == 'i' || opt == 'I') && IsP2(NumberAt(fmt, p, SizeOfInt).value) ==>
              OptionSize(opt, fmt, p) ==
              Ok(Sized(NumberAt(fmt, p, SizeOfInt).value, NumberAt(fmt, p, SizeOfInt).next))
    ensures (opt == 'i' || opt == 'I') && !IsP2(NumberAt(fmt, p, SizeOfInt).value) ==>
              OptionSize(opt, fmt, p) == Err(IntegralSizeNotPowerOfTwo(NumberAt(fmt, p, SizeOfInt).value))
  {
  }

  /** `optsize` as the C code runs it, calling `getnum` for the options that take a suffix. */
  method OptSize(opt: char, fmt: string, p: nat) returns (r: Result<Sized>)
    requires p <= |fmt|
    ensures r == OptionSize(opt, fmt, p)
  {
    match opt {
      case 'B' | 'b' => r := Ok(Sized(SizeOfChar, p));
      case 'H' | 'h' => r := Ok(Sized(SizeOfShort, p));
      case 'L' | 'l' => r := Ok(Sized(SizeOfLong, p));
      case 'f' => r := Ok(Sized(SizeOfFloat, p));
      case 'd' => r := Ok(Sized(SizeOfDouble, p));
      case 'x' => r := Ok(Sized(1, p));
      case 'c' =>
        var n, next := GetNum(fmt, p, 1);
        r := Ok(Sized(n, next));
      case 's' | ' ' | '<' | '>' | '!' => r := Ok(Sized(0, p));
      case 'i' | 'I' =>
        var sz, next := GetNum(fmt, p, SizeOfInt);
        if !IsP2(sz) {
          return Err(IntegralSizeNotPowerOfTwo(sz));
        }
        r := Ok(Sized(sz, next));
      case _ =>
        r := Err(InvalidOption(opt));
    }
  }
}
