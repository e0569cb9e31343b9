/** The pack engine (`b_pack`): values to bytes, driven by the format. */
module Pack {
  import opened Base
  import opened Bits
  import opened Format
  import opened Layout
  import opened ByteOrder
  import opened Integers

  function Zeros(n: nat): (r: seq<Byte>)
    ensures |r| == n
  {
    seq(n, _ => 0)
  }

  /**
   * What one option adds after its padding: the bytes, the `size` that `b_pack` adds to
   * `totalsize`, the index of the next unused value, the header and the format position after it.
   */
  datatype Emitted = Emitted(bytes: seq<Byte>, size: nat, arg: nat, settings: Settings, next: nat)

  /** The field part of one iteration of the `b_pack` loop, for an option whose size `optsize` gave. */
  function PackField(opt: char, sz: Sized, fmt: string, p: nat, st: Settings, args: seq<Value>, ai: nat)
    : (r: Result<Emitted>)
    requires p <= |fmt| && OptionSize(opt, fmt, p) == Ok(sz)
    requires IsP2(st.align)
    ensures r.Ok? ==> |r.value.bytes| == r.value.size
    ensures r.Ok? ==> sz.next <= r.value.next <= |fmt| && IsP2(r.value.settings.align)
    ensures r.Ok? ==> r.value.arg == if IsValueOption(opt) then ai + 1 else ai
    ensures r.Ok? && IsValueOption(opt) ==> ai < |args|
    ensures IsValueOption(opt) && ai >= |args| ==> r == Err(BadArgument)
    ensures r.Ok? && !IsValueOption(opt) ==> r.value.size == sz.size
  {
    if IsIntegerOption(opt) then
      if ai < |args| && args[ai].Num? then
        Ok(Emitted(IntegerBytes(args[ai].number, st.endian, sz.size), sz.size, ai + 1, st, sz.next))
      else Err(BadArgument)
    else if opt == 'x' then
      Ok(Emitted([0], sz.size, ai, st, sz.next))
    else if opt == 'f' || opt == 'd' then
      if ai < |args| && args[ai].Real? && |args[ai].image| == sz.size then
        Ok(Emitted(Corrected(args[ai].image, st.endian), sz.size, ai + 1, st, sz.next))
      else Err(BadArgument)
    else if opt == 'c' || opt == 's' then
      if ai < |args| && args[ai].Str? then
        var s := args[ai].bytes;
        var n := if sz.size == 0 then |s| else sz.size;
        if |s| < n then Err(StringTooShort)
        else if opt == 's' then Ok(Emitted(s[..n] + [0], n + 1, ai + 1, st, sz.next))
        else Ok(Emitted(s[..n], n, ai + 1, st, sz.next))
      else Err(BadArgument)
    else
      match Control(st, opt, fmt, p)
      case Err(e) => Err(e)
      case Ok(c) => Ok(Emitted([], sz.size, ai, c.settings, c.next))
  }

  /** The state of the `b_pack` loop between iterations: format position, header, next value, buffer. */
  datatype Packing = Packing(next: nat, settings: Settings, arg: nat, out: seq<Byte>)

  /** One iteration of the `b_pack` loop: read an option, pad to its alignment, emit its field. */
  function PackStep(fmt: string, p: nat, st: Settings, args: seq<Value>, ai: nat, out: seq<Byte>)
    : (r: Result<Packing>)
    requires p < |fmt| && IsP2(st.align)
    ensures r.Ok? ==> p < r.value.next <= |fmt| && IsP2(r.value.settings.align)
    ensures r.Ok? ==> out <= r.value.out
  {
    var opt := fmt[p];
    match OptionSize(opt, fmt, p + 1)
    case Err(e) => Err(e)
    case Ok(sz) =>
      var pad := GetToAlign(|out|, st.align, opt, sz.size);
      match PackField(opt, sz, fmt, p + 1, st, args, ai)
      case Err(e) => Err(e)
      case Ok(f) => Ok(Packing(f.next, f.settings, f.arg, out + Zeros(pad) + f.bytes))
  }

  /** The `b_pack` loop from format position p, header st, next value ai and bytes out so far. */
  function PackFrom(fmt: string, p: nat, st: Settings, args: seq<Value>, ai: nat, out: seq<Byte>)
    : (r: Result<seq<Byte>>)
    requires p <= |fmt| && IsP2(st.align)
    decreases |fmt| - p
  {
    if p == |fmt| || fmt[p] == '\0' then Ok(out)
    else
      match PackStep(fmt, p, st, args, ai, out)
      case Err(e) => Err(e)
      case Ok(s) => PackFrom(fmt, s.next, s.settings, args, s.arg, s.out)
  }

  /** `struct.pack(fmt, ...)`: the whole call, from the default header and an empty buffer. */
  function Packed(fmt: string, args: seq<Value>): Result<seq<Byte>>
  {
    PackFrom(fmt, 0, Default, args, 0, [])
  }

  /** Pack only appends: the bytes already in the buffer are a prefix of the result. */
  lemma {:induction false} PackExtends(fmt: string, p: nat, st: Settings, args: seq<Value>, ai: nat, out: seq<Byte>)
    requires p <= |fmt| && IsP2(st.align)
    requires PackFrom(fmt, p, st, args, ai, out).Ok?
    ensures out <= PackFrom(fmt, p, st, args, ai, out).value
    decreases |fmt| - p
  {
    if p < |fmt| && fmt[p] != '\0' {
      var s := PackStep(fmt, p, st, args, ai, out).value;
      PackExtends(fmt, s.next, s.settings, args, s.arg, s.out);
    }
  }

  /**
   * The string options on pack: `cn` with n > 0 fails when the string is shorter than n and
   * otherwise emits exactly its first n bytes; `c0` emits the whole string; `s` emits the whole
   * string and one zero byte.
   */
  lemma StringFields(opt: char, sz: Sized, fmt: string, p: nat, st: Settings, args: seq<Value>, ai: nat)
    requires p <= |fmt| && OptionSize(opt, fmt, p) == Ok(sz)
    requires IsP2(st.align)
    requires opt == 'c' || opt == 's'
    requires ai < |args| && args[ai].Str?
    ensures var r := PackField(opt, sz, fmt, p, st, args, ai);
            var s := args[ai].bytes;
            && (opt == 'c' && sz.size > 0 ==>
                  (|s| < sz.size ==> r == Err(StringTooShort)) &&
                  (|s| >= sz.size ==> r.Ok? && r.value.bytes == s[..sz.size]))
            && (opt == 'c' && sz.size == 0 ==> r.Ok? && r.value.bytes == s)
            && (opt == 's' ==> r.Ok? && r.value.bytes == s + [0] && r.value.size == |s| + 1)
  {
    assert args[ai].bytes[..|args[ai].bytes|] == args[ai].bytes;
  }

  /** A control option emits no bytes, consumes no value and only changes the header. */
  lemma ControlFields(opt: char, sz: Sized, fmt: string, p: nat, st: Settings, args: seq<Value>, ai: nat)
    requires p <= |fmt| && OptionSize(opt, fmt, p) == Ok(sz)
    requires IsP2(st.align)
    requires IsControlOption(opt)
    ensures var r := PackField(opt, sz, fmt, p, st, args, ai);
            var c := Control(st, opt, fmt, p);
            && (r.Ok? <==> c.Ok?)
            && (r.Ok? ==> r.value.bytes == [] && r.value.arg == ai &&
                          r.value.settings == c.value.settings && r.value.next == c.value.next)
  {
  }

  /**
   * The `switch` of one `b_pack` iteration: packs the option opt, whose size and suffix `optsize`
   * gave as sz, appending its bytes to the buffer b.
   */
  method PackOption(h: Header, opt: char, sz: Sized, fmt: string, q: nat, args: seq<Value>, arg: nat, b: seq<Byte>)
    returns (r: Result<Emitted>, b': seq<Byte>)
    requires h.Valid() && q <= |fmt| && OptionSize(opt, fmt, q) == Ok(sz)
    modifies h
    ensures h.Valid()
    ensures r == PackField(opt, sz, fmt, q, old(h.Current()), args, arg)
    ensures r.Ok? ==> b' == b + r.value.bytes && h.Current() == r.value.settings
  {
    var size := sz.size;
    var p := sz.next;
    var arg' := arg;
    b' := b;
    // The `switch` of the C code, with its cases grouped as the option predicates group them.
    if IsIntegerOption(opt) {
      if arg' >= |args| || !args[arg'].Num? {
        return Err(BadArgument), b';
      }
      b' := PutInteger(b', args[arg'].number, h.endian, size);
      arg' := arg' + 1;
    } else if opt == 'x' {
      b' := b' + [0];
    } else if opt == 'f' || opt == 'd' {
      if arg' >= |args| || !args[arg'].Real? || |args[arg'].image| != size {
        return Err(BadArgument), b';
      }
      var image := args[arg'].image;
      arg' := arg' + 1;
      var a := new Byte[size](i requires 0 <= i < size => image[i]);
      assert a[..] == image;
      CorrectBytes(a, h.endian);
      b' := b' + a[..];
    } else if opt == 'c' || opt == 's' {
      if arg' >= |args| || !args[arg'].Str? {
        return Err(BadArgument), b';
      }
      var s := args[arg'].bytes;
      arg' := arg' + 1;
      var l := |s|;
      if size == 0 {
        size := l;
      }
      if l < size {
        return Err(StringTooShort), b';
      }
      b' := b' + s[..size];
      if opt == 's' {
        b' := b' + [0];
        size := size + 1;
        assert b'[|b|..] == s[..size - 1] + [0];
      } else {
        assert b'[|b|..] == s[..size];
      }
    } else {
      var c := h.CommonCases(opt, fmt, p);
      if c.Err? {
        return Err(c.error), b';
      }
      p := c.value;
      assert b'[|b|..] == [];
    }
    assert b' == b + b'[|b|..];
    assert PackField(opt, sz, fmt, q, old(h.Current()), args, arg) == Ok(Emitted(b'[|b|..], size, arg', h.Current(), p));
    r := Ok(Emitted(b'[|b|..], size, arg', h.Current(), p));
  }

  /** The padding loop of `b_pack`: appends n zero bytes. */
  method AddPadding(b: seq<Byte>, n: nat) returns (b': seq<Byte>)
    ensures b' == b + Zeros(n)
  {
    b' := b;
    var toalign := n;
    while toalign > 0
      invariant 0 <= toalign <= n
      invariant b' == b + Zeros(n - toalign)
    {
      b' := b' + [0];
      toalign := toalign - 1;
    }
  }

  /** One iteration of the `b_pack` loop, on the header h, the buffer b and its length totalsize. */
  method PackNext(h: Header, fmt: string, p: nat, args: seq<Value>, arg: nat, b: seq<Byte>, totalsize: nat)
    returns (r: Result<Packing>, totalsize': nat)
    requires h.Valid() && p < |fmt| && totalsize == |b|
    modifies h
    ensures h.Valid()
    ensures r == PackStep(fmt, p, old(h.Current()), args, arg, b)
    ensures r.Ok? ==> h.Current() == r.value.settings && totalsize' == |r.value.out|
  {
    var opt := fmt[p];
    var sized := OptSize(opt, fmt, p + 1);
    if sized.Err? {
      return Err(sized.error), totalsize;
    }
    var toalign := GetToAlign(totalsize, h.align, opt, sized.value.size);
    totalsize' := totalsize + toalign;
    var b' := AddPadding(b, toalign);
    var field;
    field, b' := PackOption(h, opt, sized.value, fmt, p + 1, args, arg, b');
    if field.Err? {
      return Err(field.error), totalsize';
    }
    totalsize' := totalsize' + field.value.size;
    r := Ok(Packing(field.value.next, field.value.settings, field.value.arg, b'));
  }

  /** `b_pack`: the scan loop, appending padding and fields to a buffer and counting `totalsize`. */
  method Pack(fmt: string, args: seq<Value>) returns (r: Result<seq<Byte>>)
    ensures r == Packed(fmt, args)
  {
    var h := new Header();
    var arg := 0;
    var totalsize := 0;
    var b: seq<Byte> := [];
    var p := 0;
    while p < |fmt| && fmt[p] != '\0'
      invariant p <= |fmt| && h.Valid()
      invariant totalsize == |b|
      invariant PackFrom(fmt, p, h.Current(), args, arg, b) == Packed(fmt, args)
      decreases |fmt| - p
    {
      var step;
      step, totalsize := PackNext(h, fmt, p, args, arg, b, totalsize);
      if step.Err? {
        return Err(step.error);
      }
      p, arg, b := step.value.next, step.value.arg, step.value.out;
    }
    return Ok(b);
  }
}
