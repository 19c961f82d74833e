/** Bytes, and writing them into a buffer in place. */
module ByteBuffers {
  type Byte = b: int | 0 <= b < 256

  type Bytes = seq<Byte>

  function Zeros(n: nat): (zeros: Bytes)
    ensures |zeros| == n
    ensures forall i :: 0 <= i < n ==> zeros[i] == 0
  {
    seq(n, _ => 0)
  }

  /** `s` with `bytes` written over it from `offset` on. */
  function Splice(s: Bytes, offset: nat, bytes: Bytes): (r: Bytes)
    requires offset + |bytes| <= |s|
    ensures |r| == |s|
    ensures forall i :: 0 <= i < |s| ==>
                          r[i] == if offset <= i < offset + |bytes| then bytes[i - offset] else s[i]
  {
    s[..offset] + bytes + s[offset + |bytes|..]
  }

  /** Buffer.write: at most `length` bytes. */
  function Clipped(bytes: Bytes, length: nat): (r: Bytes)
    ensures |r| <= length && r <= bytes
  {
    if |bytes| <= length then bytes else bytes[..length]
  }

  method Write(buffer: array<Byte>, offset: nat, bytes: Bytes)
    requires offset + |bytes| <= buffer.Length
    modifies buffer
    ensures buffer[..] == Splice(old(buffer[..]), offset, bytes)
  {
    for i := 0 to |bytes|
      invariant forall j :: 0 <= j < buffer.Length ==>
                  buffer[j] == if offset <= j < offset + i then bytes[j - offset] else old(buffer[j])
    {
      buffer[offset + i] := bytes[i];
    }
  }

  function Sum(bytes: Bytes): nat {
    if bytes == [] then 0 else Sum(bytes[..|bytes| - 1]) + bytes[|bytes| - 1]
  }

  lemma {:induction false} SumBound(bytes: Bytes)
    ensures Sum(bytes) <= 255 * |bytes|
  {
    if bytes == [] {
    } else {
      SumBound(bytes[..|bytes| - 1]);
    }
  }
}
