/** Concrete calls of the codec, worked out on the model. */
module Examples {
  import opened Base
  import opened Format
  import opened Layout
  import opened Integers
  import opened Pack
  import opened Unpack

  lemma LittleValueOne(b: Byte)
    ensures LittleValue([b]) == b
  {
    assert [b][..0] == [];
  }

  /** The `B` of `unpack("Bc0", "\5hello")` reads the count 5. */
  lemma CountedStringCount()
    ensures UnpackStep("Bc0", 0, Default, [5, 104, 101, 108, 108, 111], 0, []) == Ok(Reading(1, Default, 1, [Num(5)]))
  {
    var fmt: string, data: seq<Byte> := "Bc0", [5, 104, 101, 108, 108, 111];
    assert data[0..1] == [5];
    LittleValueOne(5);
    assert IntegerValue(data[0..1], Default.endian, IsSigned('B')) == 5;
    assert [] + [Num(5)] == [Num(5)];
    assert OptionSize('B', fmt, 1) == Ok(Sized(1, 1));
    assert GetToAlign(0, 1, 'B', 1) == 0;
    assert UnpackField('B', Sized(1, 1), fmt, 1, Default, data, 0, []) == Ok(Read([Num(5)], 1, Default, 1));
  }

  /** The `c0` of `unpack("Bc0", "\5hello")` replaces the count with the five bytes after it. */
  lemma CountedStringBytes()
    ensures UnpackStep("Bc0", 1, Default, [5, 104, 101, 108, 108, 111], 1, [Num(5)]) ==
            Ok(Reading(3, Default, 6, [Str([104, 101, 108, 108, 111])]))
  {
    var fmt: string, data: seq<Byte> := "Bc0", [5, 104, 101, 108, 108, 111];
    var hello := Str([104, 101, 108, 108, 111]);
    assert OptionSize('c', fmt, 2) == Ok(Sized(0, 3)) by {
      assert fmt[2..3] == "0" && "0"[..0] == [];
    }
    assert data[1..6] == hello.bytes;
    assert [Num(5)][..0] + [hello] == [hello];
    assert UnpackField('c', Sized(0, 3), fmt, 2, Default, data, 1, [Num(5)]) == Ok(Read([hello], 5, Default, 3));
  }

  /** `unpack("Bc0", "\5hello")`: the count is consumed by `c0`, which returns only the string. */
  lemma CountedString()
    ensures Unpacked("Bc0", [5, 104, 101, 108, 108, 111], 0) == Ok(Unpacking([Str([104, 101, 108, 108, 111])], 7))
  {
    CountedStringCount();
    CountedStringBytes();
  }

  /** `c0` with nothing read before it has no count to use. */
  lemma CountedStringWithoutCount()
    ensures Unpacked("c0", [1, 2], 0) == Err(NeedsPreviousSize)
  {
  }

  /** The byte 0xff is -1 for `b` and 255 for `B`. */
  lemma SignedAndUnsignedByte()
    ensures Unpacked("b", [255], 0) == Ok(Unpacking([Num(-1)], 2))
    ensures Unpacked("B", [255], 0) == Ok(Unpacking([Num(255)], 2))
  {
    var data: seq<Byte> := [255];
    assert data[0..1] == [255];
    LittleValueOne(255);
    assert Pow256(1) == 256;
    assert IntegerValue(data[0..1], Native, true) == -1;
    assert IntegerValue(data[0..1], Native, false) == 255;
    assert [] + [Num(-1)] == [Num(-1)] && [] + [Num(255)] == [Num(255)];
    assert UnpackField('b', Sized(1, 1), "b", 1, Default, data, 0, []) == Ok(Read([Num(-1)], 1, Default, 1));
    assert UnpackField('B', Sized(1, 1), "B", 1, Default, data, 0, []) == Ok(Read([Num(255)], 1, Default, 1));
  }

  /** The `!4` of `pack("!4bi", 1, 2)` sets the alignment ceiling to 4. */
  lemma AlignedIntCeiling()
    ensures PackStep("!4bi", 0, Default, [Num(1), Num(2)], 0, []) == Ok(Packing(2, Settings(Native, 4), 0, []))
  {
    var fmt: string := "!4bi";
    assert NumberAt(fmt, 1, MaxAlign) == Number(4, 2) by {
      assert fmt[1..2] == "4" && "4"[..0] == [];
    }
    assert Control(Default, '!', fmt, 1) == Ok(Controlled(Settings(Native, 4), 2));
  }

  /** The `b` of `pack("!4bi", 1, 2)` writes one byte, unpadded. */
  lemma AlignedIntByte()
    ensures PackStep("!4bi", 2, Settings(Native, 4), [Num(1), Num(2)], 0, []) ==
            Ok(Packing(3, Settings(Native, 4), 1, [1]))
  {
    assert OptionSize('b', "!4bi", 3) == Ok(Sized(1, 3));
    assert GetToAlign(0, 4, 'b', 1) == 0;
    assert IntegerBytes(1, Little, 1) == [1];
    assert [] + Zeros(0) + [1] == [1];
  }

  /** The `i` of `pack("!4bi", 1, 2)` pads the one byte before it to offset 4. */
  lemma AlignedIntInt()
    ensures PackStep("!4bi", 3, Settings(Native, 4), [Num(1), Num(2)], 1, [1]) ==
            Ok(Packing(4, Settings(Native, 4), 2, [1, 0, 0, 0, 2, 0, 0, 0]))
  {
    assert GetToAlign(1, 4, 'i', 4) == 3 by {
      GetToAlignPads(1, 4, 'i', 4);
    }
    assert IntegerBytes(2, Little, 4) == [2, 0, 0, 0];
    assert [1] + Zeros(3) + [2, 0, 0, 0] == [1, 0, 0, 0, 2, 0, 0, 0];
  }

  /** Under `!4` an int after a byte is aligned to offset 4. */
  lemma AlignedInt()
    ensures Packed("!4bi", [Num(1), Num(2)]) == Ok([1, 0, 0, 0, 2, 0, 0, 0])
  {
    AlignedIntCeiling();
    AlignedIntByte();
    AlignedIntInt();
  }

  /** The four bytes of 1, most significant first. */
  lemma BigEndianOne()
    ensures IntegerBytes(1, Big, 4) == [0, 0, 0, 1]
  {
    var bs := IntegerBytes(1, Big, 4);
    assert Pow256(1) == 256 && Pow256(2) == 65536 && Pow256(3) == 16777216;
    assert bs[0] == ByteOf(1, 3) == 0;
    assert bs[1] == ByteOf(1, 2) == 0;
    assert bs[2] == ByteOf(1, 1) == 0;
    assert bs[3] == ByteOf(1, 0) == 1;
  }

  /** The four bytes of 1, least significant first. */
  lemma LittleEndianOne()
    ensures IntegerBytes(1, Little, 4) == [1, 0, 0, 0]
  {
    var bs := IntegerBytes(1, Little, 4);
    assert Pow256(1) == 256 && Pow256(2) == 65536 && Pow256(3) == 16777216;
    assert bs[0] == ByteOf(1, 0) == 1;
    assert bs[1] == ByteOf(1, 1) == 0;
    assert bs[2] == ByteOf(1, 2) == 0;
    assert bs[3] == ByteOf(1, 3) == 0;
  }

  /** `pack(">i", 1)`: big-endian. */
  lemma BigEndianInt()
    ensures Packed(">i", [Num(1)]) == Ok([0, 0, 0, 1])
  {
    BigEndianOne();
    assert OptionSize('i', ">i", 2) == Ok(Sized(4, 2));
    assert GetToAlign(0, 1, 'i', 4) == 0;
    assert [] + Zeros(0) + [0, 0, 0, 1] == [0, 0, 0, 1];
    assert PackStep(">i", 1, Settings(Big, 1), [Num(1)], 0, []) == Ok(Packing(2, Settings(Big, 1), 1, [0, 0, 0, 1]));
  }

  /** `pack("<i", 1)`: little-endian. */
  lemma LittleEndianInt()
    ensures Packed("<i", [Num(1)]) == Ok([1, 0, 0, 0])
  {
    LittleEndianOne();
    assert OptionSize('i', "<i", 2) == Ok(Sized(4, 2));
    assert GetToAlign(0, 1, 'i', 4) == 0;
    assert [] + Zeros(0) + [1, 0, 0, 0] == [1, 0, 0, 0];
    assert PackStep("<i", 1, Settings(Little, 1), [Num(1)], 0, []) == Ok(Packing(2, Settings(Little, 1), 1, [1, 0, 0, 0]));
  }

  /** A digit that no option takes is an invalid option of its own. */
  lemma StrayDigit()
    ensures Packed("x4", []) == Err(InvalidOption('4'))
  {
  }

  /** `i3` names an integral size that is not a power of two. */
  lemma OddIntegerSize()
    ensures Packed("i3", [Num(1)]) == Err(IntegralSizeNotPowerOfTwo(3))
  {
  }

  /** `s` writes the string and a terminating zero. */
  lemma ZeroTerminated()
    ensures Packed("s", [Str([104, 105])]) == Ok([104, 105, 0])
  {
    var s: seq<Byte> := [104, 105];
    assert s[..2] + [0] == [104, 105, 0];
    assert OptionSize('s', "s", 1) == Ok(Sized(0, 1));
    assert GetToAlign(0, 1, 's', 0) == 0;
    assert PackField('s', Sized(0, 1), "s", 1, Default, [Str(s)], 0) == Ok(Emitted([104, 105, 0], 3, 1, Default, 1));
    assert [] + Zeros(0) + [104, 105, 0] == [104, 105, 0];
  }

  /** Two bytes are not enough for an int. */
  lemma ShortData()
    ensures Unpacked("i", [1, 2], 0) == Err(DataTooShort)
  {
  }
}
