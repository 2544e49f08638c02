/** Byte buffers written piece by piece, as `memcpy` leaves them. */
module Buffers {
  import opened Bytes

  // The bytes of an array with `data` written over them at `at`.
  function Written(s: bytes, at: nat, data: bytes): (r: bytes)
    requires at + |data| <= |s|
    ensures |r| == |s|
  {
    s[..at] + data + s[at + |data|..]
  }

  // `memcpy`
  method CopyTo(output: array<byte>, at: nat, data: bytes)
    requires at + |data| <= output.Length
    modifies output
    ensures output[..] == Written(old(output[..]), at, data)
  {
    forall i | 0 <= i < |data| {
      output[at + i] := data[i];
    }
  }

  lemma WrittenOn(s: bytes, a: bytes, b: bytes)
    requires |a| + |b| <= |s|
    ensures Written(Written(s, 0, a), |a|, b) == Written(s, 0, a + b)
  {
  }

  lemma FrontWritten(s: bytes, a: bytes, b: bytes)
    requires |a| + |b| <= |s|
    ensures Written(Written(s, 0, a), |a|, b)[..|a| + |b|] == a + b
  {
  }

  lemma FrontIs(s: bytes, reply: bytes)
    requires |reply| <= |s|
    ensures Written(s, 0, reply)[..|reply|] == reply
  {
  }

  // A slice of a slice, by the indices of the whole.
  lemma Within(s: bytes, first: nat, last: nat, i: nat, j: nat)
    requires first <= last <= |s| && i <= j <= last - first
    ensures s[first..last][i..j] == s[first + i..first + j]
  {
    var whole, part := s[first..last][i..j], s[first + i..first + j];
    assert |whole| == |part| == j - i;
    forall k | 0 <= k < j - i
      ensures whole[k] == part[k]
    {
      assert whole[k] == s[first..last][i + k];
    }
  }

  // A slice of the front of an array.
  lemma Front(a: array<byte>, length: nat, i: nat, j: nat)
    requires i <= j <= length <= a.Length
    ensures a[..length][i..j] == a[i..j]
  {
    Within(a[..], 0, length, i, j);
    assert a[..][0..length] == a[..length] && a[..][i..j] == a[i..j];
  }
}
