/** The per-call header (byte order and alignment ceiling), `gettoalign` and `commoncases`. */
module Layout {
  import opened Base
  import opened Bits
  import opened Format

  /** The value of a `Header`: current byte order and alignment ceiling. */
  datatype Settings = Settings(endian: Endian, align: nat)

  /** `defaultoptions`: native byte order, ceiling 1. */
  const Default: Settings := Settings(Native, 1)

  function Min(a: nat, b: nat): nat
  {
    if a > b then b else a
  }

  /** Padding that brings len + r to a multiple of e. */
  lemma PaddingAligns(len: nat, e: nat)
    requires e > 0
    ensures (e - len % e) % e < e
    ensures (len + (e - len % e) % e) % e == 0
  {
    var q, m := len / e, len % e;
    if m == 0 {
      DivModUnique(e, e, 1, 0);
      DivModUnique(len, e, q, 0);
    } else {
      DivModUnique(e - m, e, 0, e - m);
      DivModUnique(len + (e - m), e, q + 1, 0);
    }
  }

  /** The mask expression of `gettoalign`, for a power of two e, is the padding to the next multiple of e. */
  lemma AlignMask(len: nat, e: nat)
    requires IsP2(e)
    ensures BitAnd(len, e - 1) < e
    ensures var r := BitAnd(e - BitAnd(len, e - 1), e - 1);
            r == (e - len % e) % e && r < e && (len + r) % e == 0
  {
    var k := Log2(e);
    MaskIsMod(len, k);
    MaskIsMod(e - len % e, k);
    PaddingAligns(len, e);
  }

  /**
   * `gettoalign`: the number of padding bytes before a field of the given size at offset len.
   * No padding for size 0 or for `c`; otherwise the field is aligned to min(size, align), as
   * `GetToAlignPads` states.
   */
  function GetToAlign(len: nat, align: nat, opt: char, size: nat): (r: nat)
    requires IsP2(align)
    requires size == 0 || opt == 'c' || IsP2(size)
    ensures size == 0 || opt == 'c' ==> r == 0
  {
    if size == 0 || opt == 'c' then 0
    else
      var e := if size > align then align else size;
      MinIsP2(size, align);
      AlignMask(len, e);
      BitAnd(e - BitAnd(len, e - 1), e - 1)
  }

  /**
   * The padding `gettoalign` computes is the least that brings len to a multiple of
   * min(size, align): it is below that bound and len plus it is a multiple of it.
   */
  lemma GetToAlignPads(len: nat, align: nat, opt: char, size: nat)
    requires IsP2(align)
    requires size != 0 && opt != 'c' && IsP2(size)
    ensures var e := Min(size, align);
            var r := GetToAlign(len, align, opt, size);
            r == (e - len % e) % e && r < e && (len + r) % e == 0
  {
    var e := Min(size, align);
    MinIsP2(size, align);
    AlignMask(len, e);
    assert GetToAlign(len, align, opt, size) == BitAnd(e - BitAnd(len, e - 1), e - 1);
  }

  /** Settings after a control option, and the format position after its suffix. */
  datatype Controlled = Controlled(settings: Settings, next: nat)

  /** `commoncases` on header values: ` ` does nothing, `>`/`<` set the order, `![n]` sets the ceiling. */
  function Control(st: Settings, opt: char, fmt: string, p: nat): (r: Result<Controlled>)
    requires p <= |fmt|
    requires IsControlOption(opt)
    ensures r.Err? <==> opt == '!' && !IsP2(NumberAt(fmt, p, MaxAlign).value)
    ensures r.Err? ==> r.error == AlignmentNotPowerOfTwo(NumberAt(fmt, p, MaxAlign).value)
    ensures r.Ok? ==> p <= r.value.next <= |fmt|
    ensures r.Ok? && IsP2(st.align) ==> IsP2(r.value.settings.align)
    ensures r.Ok? && opt != '!' ==> r.value.next == p && r.value.settings.align == st.align
    ensures r.Ok? && opt == '!' ==>
              r.value.settings == st.(align := NumberAt(fmt, p, MaxAlign).value)
    ensures opt == '>' ==> r == Ok(Controlled(st.(endian := Big), p))
    ensures opt == '<' ==> r == Ok(Controlled(st.(endian := Little), p))
    ensures opt == ' ' ==> r == Ok(Controlled(st, p))
  {
    match opt
    case ' ' => Ok(Controlled(st, p))
    case '>' => Ok(Controlled(st.(endian := Big), p))
    case '<' => Ok(Controlled(st.(endian := Little), p))
    case '!' =>
      var a := NumberAt(fmt, p, MaxAlign);
      if IsP2(a.value) then Ok(Controlled(st.(align := a.value), a.next))
      else Err(AlignmentNotPowerOfTwo(a.value))
  }

  /** `Header`: the byte order and alignment ceiling of one pack or unpack call. */
  class Header {
    var endian: Endian
    var align: nat

    /** The alignment ceiling is always a positive power of two. */
    predicate Valid()
      reads this
    {
      IsP2(align)
    }

    function Current(): Settings
      reads this
    {
      Settings(endian, align)
    }

    /** `defaultoptions`. */
    constructor ()
      ensures Valid()
      ensures Current() == Default
    {
      endian := Native;
      align := 1;
    }

    /** `commoncases`: applies a control option, reading the number after `!`. */
    method CommonCases(opt: char, fmt: string, p: nat) returns (r: Result<nat>)
      requires Valid()
      requires p <= |fmt|
      requires IsControlOption(opt)
      modifies this
      ensures Valid()
      ensures Control(old(Current()), opt, fmt, p).Ok? ==>
                r == Ok(Control(old(Current()), opt, fmt, p).value.next) &&
                Current() == Control(old(Current()), opt, fmt, p).value.settings
      ensures Control(old(Current()), opt, fmt, p).Err? ==>
                r == Err(Control(old(Current()), opt, fmt, p).error) && Current() == old(Current())
    {
      match opt {
        case ' ' =>
          return Ok(p);
        case '>' =>
          endian := Big;
          return Ok(p);
        case '<' =>
          endian := Little;
          return Ok(p);
        case '!' =>
          var a, next := GetNum(fmt, p, MaxAlign);
          if !IsP2(a) {
            return Err(AlignmentNotPowerOfTwo(a));
          }
          align := a;
          return Ok(next);
      }
    }
  }
}
