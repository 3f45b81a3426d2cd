// Bytes, 32-bit counters and the additive checksum of the protocol.

module Bytes {
  type Byte = b: int | 0 <= b < 256
  const U32_MOD := 0x1_0000_0000
  type U32 = n: int | 0 <= n < U32_MOD

  /** The C expression `n + 1` on a uint32_t. */
  function Inc32(n: U32): U32 { (n + 1) % U32_MOD }

  /** The size of a whole frame, requests and responses alike: head, length byte, and what the
      length byte counts. */
  function FrameSize(lenByte: Byte): nat { (lenByte as int) + 2 }

  /** The sum of the first n bytes, as a number without wrap-around. */
  function SumTo(s: seq<Byte>, n: nat): nat
    requires n <= |s|
  {
    if n == 0 then 0 else SumTo(s, n - 1) + s[n - 1]
  }

  function Sum(s: seq<Byte>): nat { SumTo(s, |s|) }

  lemma {:induction false} SumToPrefix(s: seq<Byte>, t: seq<Byte>, n: nat)
    requires n <= |s| && n <= |t| && s[..n] == t[..n]
    ensures SumTo(s, n) == SumTo(t, n)
  {
    if n > 0 {
      assert s[..n - 1] == s[..n][..n - 1] && t[..n - 1] == t[..n][..n - 1];
      assert s[n - 1] == s[..n][n - 1] && t[n - 1] == t[..n][n - 1];
      SumToPrefix(s, t, n - 1);
    }
  }

  lemma {:induction false} SumAppendTo(a: seq<Byte>, b: seq<Byte>, n: nat)
    requires n <= |b|
    ensures SumTo(a + b, |a| + n) == Sum(a) + SumTo(b, n)
  {
    if n == 0 {
      SumToPrefix(a + b, a, |a|);
    } else {
      SumAppendTo(a, b, n - 1);
    }
  }

  lemma SumAppend(a: seq<Byte>, b: seq<Byte>)
    ensures Sum(a + b) == Sum(a) + Sum(b)
  {
    SumAppendTo(a, b, |b|);
  }

  lemma SumOne(c: Byte)
    ensures Sum([c]) == c
  {
    assert SumTo([c], 1) == SumTo([c], 0) + c;
  }

  lemma {:induction false} SumBound(s: seq<Byte>, n: nat)
    requires n <= |s|
    ensures SumTo(s, n) <= 255 * n
  {
    if n > 0 {
      SumBound(s, n - 1);
    }
  }

  /** Two's complement of the byte sum: the one byte that brings the total to 0 modulo 256. */
  function Checksum(body: seq<Byte>): (c: Byte)
    ensures (Sum(body) + c) % 256 == 0
  {
    (256 - Sum(body) % 256) % 256
  }

  /** A sealed sequence is one whose last byte is the checksum of the others. */
  predicate Sealed(s: seq<Byte>) { Sum(s) % 256 == 0 }

  lemma SealedByLastByte(body: seq<Byte>, c: Byte)
    ensures Sealed(body + [c]) <==> c == Checksum(body)
  {
    SumAppend(body, [c]);
    SumOne(c);
  }

  lemma SumUpdate(s: seq<Byte>, k: nat, b: Byte)
    requires k < |s|
    ensures Sum(s[k := b]) == Sum(s) - s[k] + b
  {
    var pre, post := s[..k], s[k + 1..];
    assert s == pre + ([s[k]] + post) && s[k := b] == pre + ([b] + post);
    SumAppend(pre, [s[k]] + post);
    SumAppend([s[k]], post);
    SumOne(s[k]);
    SumOne(b);
    SumAppend(pre, [b] + post);
    SumAppend([b], post);
  }

  /** Changing exactly one byte of a sealed sequence always breaks the seal. */
  lemma OneByteChangeBreaksSeal(s: seq<Byte>, k: nat, b: Byte)
    requires k < |s| && Sealed(s) && b != s[k]
    ensures !Sealed(s[k := b])
  {
    SumUpdate(s, k, b);
  }

  /** Complement-plus-one on 32 bits, cut to 8 bits, is negation modulo 256. */
  lemma ComplementIsNegation(sum: U32)
    ensures (U32_MOD - 1 - sum + 1) % U32_MOD % 256 == (256 - sum % 256) % 256
  {
    if sum != 0 {
      assert (U32_MOD - sum) % U32_MOD == U32_MOD - sum;
      assert (U32_MOD - sum) % 256 == (256 - sum % 256) % 256;
    }
  }

  /** The checksum loop over `len - 1` bytes from `off`, in 32-bit arithmetic, cut to one byte. */
  method CalcChecksum(buf: array<Byte>, off: nat, len: Byte) returns (c: Byte)
    requires off + len <= buf.Length
    ensures len == 0 ==> c == 0
    ensures len > 0 ==> c == Checksum(buf[off..off + len - 1])
    ensures len > 0 ==> (c == buf[off + len - 1] <==> Sealed(buf[off..off + len]))
  {
    var sum: U32 := 0;
    var i := 0;
    while i < len - 1
      invariant 0 <= i <= if len == 0 then 0 else len - 1
      invariant sum == SumTo(buf[off..off + len], i)
    {
      SumBound(buf[off..off + len], i);
      assert sum + buf[off + i] < U32_MOD;
      sum := (sum + buf[off + i]) % U32_MOD;
      i := i + 1;
    }
    ComplementIsNegation(sum);
    c := (U32_MOD - 1 - sum + 1) % U32_MOD % 256;
    if len > 0 {
      SumToPrefix(buf[off..off + len], buf[off..off + len - 1], len - 1);
      assert buf[off..off + len] == buf[off..off + len - 1] + [buf[off + len - 1]];
      SealedByLastByte(buf[off..off + len - 1], buf[off + len - 1]);
    }
  }
}
