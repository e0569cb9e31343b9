/** The unpack engine (`b_unpack`): bytes to values, driven by the format. */
module Unpack {
  import opened Base
  import opened Bits
  import opened Format
  import opened Layout
  import opened ByteOrder
  import opened Integers

  /** `memchr`: the position of the first zero byte of data at or after pos, if any. */
  function FindZero(data: seq<Byte>, pos: nat): (r: Option<nat>)
    requires pos <= |data|
    ensures r.Some? ==> pos <= r.value < |data| && data[r.value] == 0
    ensures r.Some? ==> forall i | pos <= i < r.value :: data[i] != 0
    ensures r.None? <==> forall i | pos <= i < |data| :: data[i] != 0
    decreases |data| - pos
  {
    if pos == |data| then None
    else if data[pos] == 0 then Some(pos)
    else FindZero(data, pos + 1)
  }

  /**
   * What one option does after its alignment: the values on the result stack afterwards, the
   * `size` that `b_unpack` adds to `pos`, the header and the format position after it.
   */
  datatype Read = Read(results: seq<Value>, size: nat, settings: Settings, next: nat)

  /** The result of a whole unpack: the values read and the final `pos + 1` that `b_unpack` pushes last. */
  datatype Unpacking = Unpacking(values: seq<Value>, next: nat)

  /**
   * The size check and the `switch` of one iteration of the `b_unpack` loop, for an option whose
   * size `optsize` gave, at the aligned position pos.
   */
  function UnpackField(opt: char, sz: Sized, fmt: string, p: nat, st: Settings,
                       data: seq<Byte>, pos: nat, results: seq<Value>): (r: Result<Read>)
    requires p <= |fmt| && OptionSize(opt, fmt, p) == Ok(sz)
    requires IsP2(st.align)
    ensures pos + sz.size > |data| ==> r == Err(DataTooShort)
    ensures r.Ok? ==> pos + r.value.size <= |data|
    ensures r.Ok? ==> sz.next <= r.value.next <= |fmt| && IsP2(r.value.settings.align)
    ensures r.Ok? && opt != 's' && !(opt == 'c' && sz.size == 0) ==> r.value.size == sz.size
    ensures r.Ok? && opt == 'c' && sz.size == 0 ==>
              |results| >= 1 && results[|results| - 1].Num? &&
              r.value.size == results[|results| - 1].number
  {
    if pos + sz.size > |data| then Err(DataTooShort)
    else if IsIntegerOption(opt) then
      var v := IntegerValue(data[pos..pos + sz.size], st.endian, IsSigned(opt));
      Ok(Read(results + [Num(v)], sz.size, st, sz.next))
    else if opt == 'x' then
      Ok(Read(results, sz.size, st, sz.next))
    else if opt == 'f' || opt == 'd' then
      Ok(Read(results + [Real(Corrected(data[pos..pos + sz.size], st.endian))], sz.size, st, sz.next))
    else if opt == 'c' then
      if sz.size == 0 then
        // `c0`: the length is the number on top of the result stack, which is popped
        if |results| == 0 || !results[|results| - 1].Num? then Err(NeedsPreviousSize)
        else
          var n := results[|results| - 1].number;
          if n < 0 || pos + n > |data| then Err(DataTooShort)
          else Ok(Read(results[..|results| - 1] + [Str(data[pos..pos + n])], n, st, sz.next))
      else
        Ok(Read(results + [Str(data[pos..pos + sz.size])], sz.size, st, sz.next))
    else if opt == 's' then
      match FindZero(data, pos)
      case None => Err(UnfinishedString)
      case Some(e) => Ok(Read(results + [Str(data[pos..e])], e - pos + 1, st, sz.next))
    else
      match Control(st, opt, fmt, p)
      case Err(e) => Err(e)
      case Ok(c) => Ok(Read(results, sz.size, c.settings, c.next))
  }

  /**
   * The effect of one option on the result stack: a value option pushes one value (`c0` first
   * pops the length it reads), every other option leaves the stack alone.
   */
  lemma UnpackFieldResults(opt: char, sz: Sized, fmt: string, p: nat, st: Settings,
                           data: seq<Byte>, pos: nat, results: seq<Value>)
    requires p <= |fmt| && OptionSize(opt, fmt, p) == Ok(sz)
    requires IsP2(st.align)
    requires UnpackField(opt, sz, fmt, p, st, data, pos, results).Ok?
    ensures var r := UnpackField(opt, sz, fmt, p, st, data, pos, results).value;
            && (IsValueOption(opt) && !(opt == 'c' && sz.size == 0) ==>
                  |r.results| == |results| + 1 && r.results[..|results|] == results)
            && (opt == 'c' && sz.size == 0 ==>
                  |results| >= 1 && results[|results| - 1].Num? &&
                  r.results == results[..|results| - 1] + [Str(data[pos..pos + results[|results| - 1].number])] &&
                  r.size == results[|results| - 1].number)
            && (!IsValueOption(opt) ==> r.results == results)
  {
    var r := UnpackField(opt, sz, fmt, p, st, data, pos, results).value;
    if IsValueOption(opt) && !(opt == 'c' && sz.size == 0) {
      assert r.results[..|results|] == results;
    }
  }

  /**
   * The string options on unpack: `s` fails exactly when no zero byte follows pos, and otherwise
   * yields the bytes up to the first zero and consumes that zero too; `cn` with n > 0 yields the
   * n bytes at pos.
   */
  lemma UnpackStrings(opt: char, sz: Sized, fmt: string, p: nat, st: Settings,
                      data: seq<Byte>, pos: nat, results: seq<Value>)
    requires p <= |fmt| && OptionSize(opt, fmt, p) == Ok(sz)
    requires IsP2(st.align)
    requires pos + sz.size <= |data|
    ensures var r := UnpackField(opt, sz, fmt, p, st, data, pos, results);
            && (opt == 's' ==> (r == Err(UnfinishedString) <==> forall i | pos <= i < |data| :: data[i] != 0))
            && (opt == 's' && r.Ok? ==>
                  |r.value.results| == |results| + 1 && r.value.results[|results|].Str? &&
                  var s := r.value.results[|results|].bytes;
                  && pos + |s| < |data| && data[pos..pos + |s|] == s && data[pos + |s|] == 0
                  && (forall i | 0 <= i < |s| :: s[i] != 0)
                  && r.value.size == |s| + 1)
            && (opt == 'c' && sz.size > 0 ==>
                  r.Ok? && r.value.results == results + [Str(data[pos..pos + sz.size])])
  {
    if opt == 's' {
      var r := UnpackField(opt, sz, fmt, p, st, data, pos, results);
      if r.Ok? {
        var e := FindZero(data, pos).value;
        assert r.value.results[|results|] == Str(data[pos..e]);
      }
    }
  }

  /**
   * The errors of `c0` on unpack: without a number on top of the result stack it fails "needs a
   * previous size", and with a length that runs past the data (or is negative) "data string too short".
   */
  lemma CountedStringErrors(sz: Sized, fmt: string, p: nat, st: Settings,
                            data: seq<Byte>, pos: nat, results: seq<Value>)
    requires p <= |fmt| && OptionSize('c', fmt, p) == Ok(sz) && sz.size == 0
    requires IsP2(st.align)
    requires pos <= |data|
    ensures var r := UnpackField('c', sz, fmt, p, st, data, pos, results);
            && (|results| == 0 || !results[|results| - 1].Num? ==> r == Err(NeedsPreviousSize))
            && (|results| > 0 && results[|results| - 1].Num? ==>
                  var n := results[|results| - 1].number;
                  (r == Err(DataTooShort) <==> n < 0 || pos + n > |data|))
  {
  }

  /** A control option reads no bytes, produces no value and only changes the header. */
  lemma ControlReads(opt: char, sz: Sized, fmt: string, p: nat, st: Settings,
                     data: seq<Byte>, pos: nat, results: seq<Value>)
    requires p <= |fmt| && OptionSize(opt, fmt, p) == Ok(sz)
    requires IsP2(st.align)
    requires IsControlOption(opt) && pos <= |data|
    ensures var r := UnpackField(opt, sz, fmt, p, st, data, pos, results);
            var c := Control(st, opt, fmt, p);
            && (r.Ok? <==> c.Ok?)
            && (r.Ok? ==> r.value.size == 0 && r.value.results == results &&
                          r.value.settings == c.value.settings && r.value.next == c.value.next)
  {
  }

  /** The state of the `b_unpack` loop between iterations: format position, header, offset, results. */
  datatype Reading = Reading(next: nat, settings: Settings, pos: nat, results: seq<Value>)

  /**
   * One iteration of the `b_unpack` loop: read an option, align pos, check that the field fits
   * and read it. The offset only grows, and after a field that was read it lies within the data.
   */
  function UnpackStep(fmt: string, p: nat, st: Settings, data: seq<Byte>, pos: nat, results: seq<Value>)
    : (r: Result<Reading>)
    requires p < |fmt| && IsP2(st.align)
    ensures r.Ok? ==> p < r.value.next <= |fmt| && IsP2(r.value.settings.align)
    ensures r.Ok? ==> pos <= r.value.pos <= |data|
  {
    var opt := fmt[p];
    match OptionSize(opt, fmt, p + 1)
    case Err(e) => Err(e)
    case Ok(sz) =>
      var at := pos + GetToAlign(pos, st.align, opt, sz.size);
      match UnpackField(opt, sz, fmt, p + 1, st, data, at, results)
      case Err(e) => Err(e)
      case Ok(f) => Ok(Reading(f.next, f.settings, at + f.size, f.results))
  }

  /**
   * The `b_unpack` loop from format position p, header st and data offset pos, with the values
   * read so far on the result stack.
   */
  function UnpackFrom(fmt: string, p: nat, st: Settings, data: seq<Byte>, pos: nat, results: seq<Value>)
    : (r: Result<Unpacking>)
    requires p <= |fmt| && IsP2(st.align)
    decreases |fmt| - p
  {
    if p == |fmt| || fmt[p] == '\0' then Ok(Unpacking(results, pos + 1))
    else
      match UnpackStep(fmt, p, st, data, pos, results)
      case Err(e) => Err(e)
      case Ok(s) => UnpackFrom(fmt, s.next, s.settings, data, s.pos, s.results)
  }

  /**
   * `struct.unpack(fmt, data [, init])`: start is the 0-based offset `init - 1` at which reading
   * begins (the default `init` 1 gives offset 0).
   */
  function Unpacked(fmt: string, data: seq<Byte>, start: nat): Result<Unpacking>
  {
    UnpackFrom(fmt, 0, Default, data, start, [])
  }

  /** Unpack never moves backwards: the position it returns lies after the starting offset. */
  lemma {:induction false} UnpackAdvances(fmt: string, p: nat, st: Settings, data: seq<Byte>, pos: nat,
                                          results: seq<Value>)
    requires p <= |fmt| && IsP2(st.align)
    requires UnpackFrom(fmt, p, st, data, pos, results).Ok?
    ensures pos + 1 <= UnpackFrom(fmt, p, st, data, pos, results).value.next
    decreases |fmt| - p
  {
    if p < |fmt| && fmt[p] != '\0' {
      var s := UnpackStep(fmt, p, st, data, pos, results).value;
      UnpackAdvances(fmt, s.next, s.settings, data, s.pos, s.results);
    }
  }

  /**
   * Unpack never reads past the data: when reading starts inside the data, or when at least one
   * option is read, the position it returns is at most one past its end.
   */
  lemma {:induction false} UnpackWithinData(fmt: string, p: nat, st: Settings, data: seq<Byte>, pos: nat,
                                            results: seq<Value>)
    requires p <= |fmt| && IsP2(st.align)
    requires UnpackFrom(fmt, p, st, data, pos, results).Ok?
    requires pos <= |data| || (p < |fmt| && fmt[p] != '\0')
    ensures UnpackFrom(fmt, p, st, data, pos, results).value.next <= |data| + 1
    decreases |fmt| - p
  {
    if p < |fmt| && fmt[p] != '\0' {
      var s := UnpackStep(fmt, p, st, data, pos, results).value;
      UnpackWithinData(fmt, s.next, s.settings, data, s.pos, s.results);
    }
  }

  /**
   * The size check and the `switch` of one `b_unpack` iteration: reads the option opt, whose size
   * and suffix `optsize` gave as sz, at offset pos, pushing onto (or, for `c0`, popping from) the
   * results.
   */
  method UnpackOption(h: Header, opt: char, sz: Sized, fmt: string, q: nat,
                      data: seq<Byte>, pos: nat, results: seq<Value>) returns (r: Result<Read>)
    requires h.Valid() && q <= |fmt| && OptionSize(opt, fmt, q) == Ok(sz)
    modifies h
    ensures h.Valid()
    ensures r == UnpackField(opt, sz, fmt, q, old(h.Current()), data, pos, results)
    ensures r.Ok? ==> h.Current() == r.value.settings
  {
    var size := sz.size;
    if pos + size > |data| {
      return Err(DataTooShort);
    }
    // The `switch` of the C code, with its cases grouped as the option predicates group them.
    if IsIntegerOption(opt) {
      var res := GetInteger(data, pos, h.endian, IsSigned(opt), size);
      return Ok(Read(results + [Num(res)], size, h.Current(), sz.next));
    } else if opt == 'x' {
      return Ok(Read(results, size, h.Current(), sz.next));
    } else if opt == 'f' || opt == 'd' {
      var a := new Byte[size](i requires 0 <= i < size => data[pos + i]);
      assert a[..] == data[pos..pos + size];
      CorrectBytes(a, h.endian);
      return Ok(Read(results + [Real(a[..])], size, h.Current(), sz.next));
    } else if opt == 'c' {
      if size == 0 {
        if |results| == 0 || !results[|results| - 1].Num? {
          return Err(NeedsPreviousSize);
        }
        var n := results[|results| - 1].number;
        var stack := results[..|results| - 1];
        if n < 0 || pos + n > |data| {
          return Err(DataTooShort);
        }
        return Ok(Read(stack + [Str(data[pos..pos + n])], n, h.Current(), sz.next));
      }
      return Ok(Read(results + [Str(data[pos..pos + size])], size, h.Current(), sz.next));
    } else if opt == 's' {
      var e := FindZero(data, pos);
      if e.None? {
        return Err(UnfinishedString);
      }
      size := e.value - pos + 1;
      return Ok(Read(results + [Str(data[pos..pos + size - 1])], size, h.Current(), sz.next));
    } else {
      var c := h.CommonCases(opt, fmt, sz.next);
      if c.Err? {
        return Err(c.error);
      }
      return Ok(Read(results, size, h.Current(), c.value));
    }
  }

  /** One iteration of the `b_unpack` loop, on the header h. */
  method UnpackNext(h: Header, fmt: string, p: nat, data: seq<Byte>, pos: nat, results: seq<Value>)
    returns (r: Result<Reading>)
    requires h.Valid() && p < |fmt|
    modifies h
    ensures h.Valid()
    ensures r == UnpackStep(fmt, p, old(h.Current()), data, pos, results)
    ensures r.Ok? ==> h.Current() == r.value.settings
  {
    var opt := fmt[p];
    var sized := OptSize(opt, fmt, p + 1);
    if sized.Err? {
      return Err(sized.error);
    }
    ghost var st := h.Current();
    var at := pos + GetToAlign(pos, h.align, opt, sized.value.size);
    var field := UnpackOption(h, opt, sized.value, fmt, p + 1, data, at, results);
    assert field == UnpackField(opt, sized.value, fmt, p + 1, st, data, at, results);
    if field.Err? {
      return Err(field.error);
    }
    r := Ok(Reading(field.value.next, field.value.settings, at + field.value.size, field.value.results));
  }

  /** `b_unpack`: the scan loop, advancing `pos` through the data and pushing the values read. */
  method Unpack(fmt: string, data: seq<Byte>, start: nat) returns (r: Result<Unpacking>)
    ensures r == Unpacked(fmt, data, start)
  {
    var h := new Header();
    var pos := start;
    var results: seq<Value> := [];
    var p := 0;
    while p < |fmt| && fmt[p] != '\0'
      invariant p <= |fmt| && h.Valid()
      invariant UnpackFrom(fmt, p, h.Current(), data, pos, results) == Unpacked(fmt, data, start)
      decreases |fmt| - p
    {
      var step := UnpackNext(h, fmt, p, data, pos, results);
      if step.Err? {
        return Err(step.error);
      }
      p, pos, results := step.value.next, step.value.pos, step.value.results;
    }
    return Ok(Unpacking(results, pos + 1));
  }
}
