/** `is_zero` of lib/guestfs-internal-all.h: comparing a buffer with itself, shifted. */
module IsZero {
  const PREFIX := 16

  /** `memcmp` of two stretches of one buffer: zero exactly when they hold the same bytes. */
  method EqualStretches(buffer: array<bv8>, start: nat, other: nat, length: nat) returns (equal: bool)
    requires start + length <= buffer.Length && other + length <= buffer.Length
    ensures equal <==> buffer[start..start + length] == buffer[other..other + length]
  {
    for k := 0 to length
      invariant buffer[start..start + k] == buffer[other..other + k]
    {
      if buffer[start + k] != buffer[other + k] {
        assert buffer[start..start + length][k] != buffer[other..other + length][k];
        return false;
      }
      assert buffer[start..start + k + 1] == buffer[start..start + k] + [buffer[start + k]];
      assert buffer[other..other + k + 1] == buffer[other..other + k] + [buffer[other + k]];
    }
    equal := true;
  }

  /** A buffer that starts with zeroes and equals itself shifted by as many bytes is all zero. */
  lemma {:induction false} ShiftSpreadsZeroes(bytes: seq<bv8>, i: nat)
    requires PREFIX <= |bytes| && i < |bytes|
    requires forall k :: 0 <= k < PREFIX ==> bytes[k] == 0
    requires bytes[..|bytes| - PREFIX] == bytes[PREFIX..]
    ensures bytes[i] == 0
    decreases i
  {
    if PREFIX <= i {
      ShiftSpreadsZeroes(bytes, i - PREFIX);
      assert bytes[i] == bytes[PREFIX..][i - PREFIX] == bytes[..|bytes| - PREFIX][i - PREFIX];
    }
  }

  lemma ZeroesEqualShifted(bytes: seq<bv8>)
    requires PREFIX <= |bytes| && forall k :: 0 <= k < |bytes| ==> bytes[k] == 0
    ensures bytes[..|bytes| - PREFIX] == bytes[PREFIX..]
  {
  }

  /** True exactly when every byte of the buffer is zero, for buffers of every length. */
  method AllZero(buffer: array<bv8>) returns (zero: bool)
    ensures zero <==> forall i :: 0 <= i < buffer.Length ==> buffer[i] == 0
  {
    var limit := if buffer.Length < PREFIX then buffer.Length else PREFIX;
    for i := 0 to limit
      invariant forall k :: 0 <= k < i ==> buffer[k] == 0
    {
      if buffer[i] != 0 { return false; }
    }
    zero := true;
    if buffer.Length != limit {
      zero := EqualStretches(buffer, 0, PREFIX, buffer.Length - PREFIX);
      ghost var bytes := buffer[..];
      assert bytes[..|bytes| - PREFIX] == buffer[0..0 + (buffer.Length - PREFIX)];
      assert bytes[PREFIX..] == buffer[PREFIX..PREFIX + (buffer.Length - PREFIX)];
      if zero {
        forall i | 0 <= i < buffer.Length ensures buffer[i] == 0 { ShiftSpreadsZeroes(bytes, i); }
      } else if forall i :: 0 <= i < |bytes| ==> bytes[i] == 0 {
        ZeroesEqualShifted(bytes);
      }
    }
  }
}
