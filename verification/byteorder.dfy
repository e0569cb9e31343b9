/** `correctbytes`: reversal of a native-layout byte run when the requested order is not native. */
module ByteOrder {
  import opened Base

  function Reversed<T>(s: seq<T>): seq<T>
  {
    seq(|s|, i requires 0 <= i < |s| => s[|s| - 1 - i])
  }

  lemma ReversedTwice<T>(s: seq<T>)
    ensures Reversed(Reversed(s)) == s
  {
    assert forall i | 0 <= i < |s| :: Reversed(Reversed(s))[i] == s[i];
  }

  /** The bytes `correctbytes` leaves in a buffer holding s. */
  function Corrected(s: seq<Byte>, endian: Endian): seq<Byte>
  {
    if endian != Native then Reversed(s) else s
  }

  /** Correcting twice for the same order restores the original bytes. */
  lemma CorrectedTwice(s: seq<Byte>, endian: Endian)
    ensures Corrected(Corrected(s, endian), endian) == s
  {
    ReversedTwice(s);
  }

  /** `correctbytes`: reverses the buffer in place unless the requested order is the native one. */
  method CorrectBytes(b: array<Byte>, endian: Endian)
    modifies b
    ensures endian == Native ==> b[..] == old(b[..])
    ensures b[..] == Corrected(old(b[..]), endian)
  {
    if endian != Native {
      var i := 0;
      var size := b.Length - 1;   // the first `--size` of the loop test
      while i < size
        invariant 0 <= i && i + size == b.Length - 1
        invariant i <= size + 1
        invariant forall k | 0 <= k < i :: b[k] == old(b[b.Length - 1 - k])
        invariant forall k | size < k < b.Length :: b[k] == old(b[b.Length - 1 - k])
        invariant forall k | i <= k <= size :: b[k] == old(b[k])
        decreases size - i
      {
        b[i], b[size] := b[size], b[i];
        i, size := i + 1, size - 1;
      }
      assert b[..] == Reversed(old(b[..]));
    }
  }
}
