/** The 8-bit additive checksum `chksum8`. */
module Checksum {
  import opened Types

  /** The exact (unbounded) sum of a byte sequence. */
  function Sum(s: seq<byte>): (r: nat)
    ensures r <= 0xFF * |s|
  {
    if s == [] then 0 else s[0] + Sum(s[1..])
  }

  /** The checksum of a byte sequence: its sum truncated to 8 bits. */
  function Checksum8(s: seq<byte>): (r: byte)
  {
    Sum(s) % 0x100
  }

  lemma {:induction false} SumAppend(a: seq<byte>, b: seq<byte>)
    ensures Sum(a + b) == Sum(a) + Sum(b)
  {
    if a == [] {
      assert a + b == b;
    } else {
      assert (a + b)[1..] == a[1..] + b;
      SumAppend(a[1..], b);
    }
  }

  /** The sum, and hence the checksum, does not depend on the order of the bytes. */
  lemma {:induction false} SumPermutation(a: seq<byte>, b: seq<byte>)
    requires multiset(a) == multiset(b)
    ensures Sum(a) == Sum(b)
    decreases |a|
  {
    if a == [] {
      assert |b| == |multiset(b)| == 0;
    } else {
      assert a[0] in multiset(b);
      var j :| 0 <= j < |b| && b[j] == a[0];
      var rest := b[..j] + b[j + 1..];
      assert b == b[..j] + [b[j]] + b[j + 1..];
      assert a == [a[0]] + a[1..];
      assert multiset(a[1..]) == multiset(rest) by {
        calc {
          multiset(b);
          multiset(b[..j] + [b[j]] + b[j + 1..]);
          multiset(b[..j]) + multiset{b[j]} + multiset(b[j + 1..]);
          multiset(b[..j]) + multiset(b[j + 1..]) + multiset{a[0]};
          { assert multiset(rest) == multiset(b[..j]) + multiset(b[j + 1..]); }
          multiset(rest) + multiset{a[0]};
        }
        assert multiset(a) == multiset([a[0]] + a[1..]) == multiset{a[0]} + multiset(a[1..]);
        forall z ensures multiset(a[1..])[z] == multiset(rest)[z] {
          assert multiset(a)[z] == multiset(b)[z];
        }
      }
      SumPermutation(a[1..], rest);
      SumAppend(b[..j] + [b[j]], b[j + 1..]);
      SumAppend(b[..j], [b[j]]);
      SumAppend(b[..j], b[j + 1..]);
      assert Sum([b[j]]) == b[j];
    }
  }

  lemma ChecksumPermutation(a: seq<byte>, b: seq<byte>)
    requires multiset(a) == multiset(b)
    ensures Checksum8(a) == Checksum8(b)
  {
    SumPermutation(a, b);
  }

  lemma ChecksumEmpty()
    ensures Checksum8([]) == 0
  {
  }

  /** Truncating the 16-bit accumulator to 8 bits gives the same byte as truncating the exact sum. */
  lemma TruncateTwice(x: nat)
    ensures (x % UintModulus) % 0x100 == x % 0x100
  {
    var q := x / UintModulus;
    assert x == q * UintModulus + x % UintModulus;
    assert q * UintModulus == (q * 0x100) * 0x100;
  }

  /** Adding to the wrapped accumulator wraps the same way as adding to the exact sum. */
  lemma WrapAdd(t: nat, x: nat)
    ensures (t % UintModulus + x) % UintModulus == (t + x) % UintModulus
  {
    var q := t / UintModulus;
    assert t + x == q * UintModulus + (t % UintModulus + x);
  }

  /**
   * chksum8(buf, len): adds the first `len` bytes of `buf` into an `unsigned int` accumulator
   * (16 bits on avr-gcc, so it wraps modulo 2^16) and returns the accumulator cast to `uint8_t`.
   */
  method Chksum8(buf: array<byte>, len: nat) returns (r: byte)
    requires len <= buf.Length
    ensures r == Checksum8(buf[..len])
  {
    var sum: nat := 0;
    var p: nat := 0;
    var n := len;
    while n != 0
      invariant p + n == len
      invariant sum < UintModulus
      invariant sum == Sum(buf[..p]) % UintModulus
    {
      SumAppend(buf[..p], [buf[p]]);
      assert buf[..p + 1] == buf[..p] + [buf[p]];
      assert Sum(buf[..p + 1]) == Sum(buf[..p]) + buf[p];
      WrapAdd(Sum(buf[..p]), buf[p]);
      sum := (sum + buf[p]) % UintModulus;
      p := p + 1;
      n := n - 1;
    }
    TruncateTwice(Sum(buf[..len]));
    r := sum % 0x100;
  }
}
