/** Compact signatures: r and s as two 32-byte big-endian integers
    (signing/secp256k1.go; sections 2.3.7 and 2.3.8 of SEC 1). */
module Compact {
  import opened Common

  // ---- Big-endian integers -------------------------------------------------

  /** 256 to the power k. */
  function Pow(k: nat): (p: nat)
    ensures p > 0
  {
    if k == 0 then 1 else 256 * Pow(k - 1)
  }

  /** big.Int.SetBytes. */
  function Value(b: seq<Byte>): nat {
    if b == [] then 0 else Value(b[..|b| - 1]) * 256 + b[|b| - 1]
  }

  /** big.Int.Bytes: no leading zero, nothing at all for 0. */
  function Bytes(n: nat): (b: seq<Byte>) {
    if n == 0 then [] else Bytes(n / 256) + [n % 256]
  }

  function Zeros(n: nat): (z: seq<Byte>)
    ensures |z| == n
  {
    seq(n, _ => 0)
  }

  lemma {:induction false} ValueOfBytes(n: nat)
    ensures Value(Bytes(n)) == n
  {
    if n != 0 {
      ValueOfBytes(n / 256);
      assert Bytes(n)[..|Bytes(n)| - 1] == Bytes(n / 256);
    }
  }

  lemma {:induction false} BytesFit(n: nat, k: nat)
    ensures |Bytes(n)| <= k <==> n < Pow(k)
  {
    if n != 0 && k != 0 {
      BytesFit(n / 256, k - 1);
    }
  }

  lemma {:induction false} ValueBelow(b: seq<Byte>)
    ensures Value(b) < Pow(|b|)
  {
    if b != [] {
      ValueBelow(b[..|b| - 1]);
    }
  }

  /** Leading zeros do not change the value. */
  lemma {:induction false} ValueOfPadded(n: nat, b: seq<Byte>)
    ensures Value(Zeros(n) + b) == Value(b)
    decreases n + |b|
  {
    var z := Zeros(n) + b;
    if b != [] {
      ValueOfPadded(n, b[..|b| - 1]);
      assert z[..|z| - 1] == Zeros(n) + b[..|b| - 1];
    } else if n > 0 {
      ValueOfPadded(n - 1, []);
      assert z[..|z| - 1] == Zeros(n - 1) + [];
    }
  }

  /** At a fixed length the value determines the bytes. */
  lemma {:induction false} ValueIsInjective(a: seq<Byte>, b: seq<Byte>)
    requires |a| == |b| && Value(a) == Value(b)
    ensures a == b
  {
    if a != [] {
      var n := |a| - 1;
      ValueIsInjective(a[..n], b[..n]);
      assert a == a[..n] + [a[n]] && b == b[..n] + [b[n]];
    }
  }

  lemma {:induction false} PowAdd(j: nat, k: nat)
    ensures Pow(j + k) == Pow(j) * Pow(k)
  {
    if j != 0 {
      PowAdd(j - 1, k);
    }
  }

  /** The bound on r and s is 2^256. */
  lemma PowThirtyTwo()
    ensures Pow(32) == 0x1_0000000000000000_0000000000000000_0000000000000000_0000000000000000
  {
    assert Pow(8) == 0x1_0000000000000000 by {
      assert Pow(4) == 0x1_00000000 by {
        assert Pow(2) == 256 * Pow(1) && Pow(1) == 256 * Pow(0);
        PowAdd(2, 2);
      }
      PowAdd(4, 4);
    }
    PowAdd(8, 8);
    PowAdd(16, 16);
  }

  /** A string of bytes is its front part shifted by the length of the rest, and the rest;
      a single byte is its own value. */
  lemma {:induction false} ValueConcat(a: seq<Byte>, b: seq<Byte>)
    ensures Value(a + b) == Value(a) * Pow(|b|) + Value(b)
    ensures |b| == 1 ==> Value(b) == b[0]
    decreases |b|
  {
    if b == [] {
      assert a + b == a;
    } else {
      var n := |b| - 1;
      ValueConcat(a, b[..n]);
      assert (a + b)[..|a + b| - 1] == a + b[..n];
      Shift(Value(a), Pow(n), Value(b[..n]), b[n]);
    }
  }

  lemma Shift(x: nat, p: nat, y: nat, z: nat)
    ensures (x * p + y) * 256 + z == x * (256 * p) + (y * 256 + z)
  {
  }

  /** The i-th byte from the end of a string is the i-th digit of its value to base 256. */
  lemma {:induction false} DigitOfValue(b: seq<Byte>, i: nat)
    requires i < |b|
    ensures b[|b| - 1 - i] as nat == (Value(b) / Pow(i)) % 256
    decreases i
  {
    var n := |b| - 1;
    if i == 0 {
      assert Pow(0) == 1;
    } else {
      DigitOfValue(b[..n], i - 1);
      DivideTwice(Value(b[..n]), b[n], Pow(i - 1));
    }
  }

  lemma DivideTwice(x: nat, d: nat, p: nat)
    requires d < 256 && p > 0
    ensures (x * 256 + d) / (256 * p) == x / p
  {
    var q, r := x / p, x % p;
    assert x == q * p + r;
    var n := x * 256 + d;
    assert n == q * (256 * p) + (r * 256 + d);
    assert 0 <= r * 256 + d < 256 * p;
    QuotientIs(n, 256 * p, q, r * 256 + d);
  }

  lemma TimesIsMonotone(a: nat, b: nat, m: nat)
    requires a <= b
    ensures a * m <= b * m
  {
  }

  lemma QuotientIs(n: nat, m: nat, q: nat, r: nat)
    requires m > 0 && n == q * m + r && r < m
    ensures n / m == q
  {
    var d := n / m;
    assert n == d * m + n % m;
    if d < q {
      TimesIsMonotone(d + 1, q, m);
    } else if q < d {
      TimesIsMonotone(q + 1, d, m);
    }
  }

  /** The bytes of `b` are digits of `n` to base 256, the last byte that of the units. */
  ghost predicate HasDigits(b: seq<Byte>, n: nat) {
    forall i: nat :: i < |b| ==> b[|b| - 1 - i] == (n / Pow(i)) % 256
  }

  lemma DigitsOfValue(b: seq<Byte>)
    ensures Value(b) < Pow(|b|) && HasDigits(b, Value(b))
  {
    ValueBelow(b);
    forall i: nat | i < |b|
      ensures b[|b| - 1 - i] == (Value(b) / Pow(i)) % 256
    {
      DigitOfValue(b, i);
    }
  }

  // ---- The codec -----------------------------------------------------------

  function Padded(buf: seq<Byte>, size: nat): seq<Byte> {
    if |buf| < size then Zeros(size - |buf|) + buf else buf
  }

  method Pad(buf: seq<Byte>, size: nat) returns (newbuf: seq<Byte>)
    ensures newbuf == Padded(buf, size)
    ensures |newbuf| == if |buf| < size then size else |buf|
    ensures forall i :: 0 <= i < |newbuf| - |buf| ==> newbuf[i] == 0
    ensures newbuf[|newbuf| - |buf|..] == buf
  {
    newbuf := [];
    var padLength := size - |buf|;
    var i := 0;
    while i < padLength
      invariant 0 <= i && (i <= padLength || i == 0)
      invariant newbuf == Zeros(i)
    {
      newbuf := newbuf + [0];
      i := i + 1;
    }
    newbuf := newbuf + buf;
  }

  /** serializeCompact; None is the panic on a wrong length. */
  function Serialize(r: nat, s: nat): (b: Option<seq<Byte>>) {
    var b := Padded(Bytes(r), 32) + Padded(Bytes(s), 32);
    if |b| == 64 then Some(b) else None
  }

  /** deserializeCompact; None is the panic on a slice that is too short. */
  function Deserialize(b: seq<Byte>): (rs: Option<(nat, nat)>) {
    if |b| < 32 then None else Some((Value(b[..32]), Value(b[32..])))
  }

  method SerializeCompact(r: nat, s: nat) returns (b: Option<seq<Byte>>)
    ensures b == Serialize(r, s)
    ensures b.Some? <==> r < Pow(32) && s < Pow(32)
    ensures b.Some? ==> IsCompact(b.value, r, s)
  {
    SerializeDigits(r, s);
    var buf := [];
    var rbytes := Pad(Bytes(r), 32);
    var sbytes := Pad(Bytes(s), 32);
    buf := buf + rbytes;
    buf := buf + sbytes;
    if |buf| != 64 {
      return None;
    }
    assert [] + rbytes == rbytes;
    b := Some(buf);
  }

  /** The format byte by byte: 32 bytes of r, and then 32 bytes of s. */
  ghost predicate IsCompact(b: seq<Byte>, r: nat, s: nat) {
    |b| == 64 && HasDigits(b[..32], r) && HasDigits(b[32..], s)
  }

  /** Exactly the pairs below 2^256 are encoded, in that format; every other pair panics. */
  lemma SerializeDigits(r: nat, s: nat)
    ensures Serialize(r, s).Some? <==> r < Pow(32) && s < Pow(32)
    ensures Serialize(r, s).Some? ==> IsCompact(Serialize(r, s).value, r, s)
  {
    PaddedIsExact(r);
    PaddedIsExact(s);
    var a, b := Padded(Bytes(r), 32), Padded(Bytes(s), 32);
    Halves(a, b);
    DigitsOfValue(a);
    DigitsOfValue(b);
  }

  /** What decoding reads: r from the first 32 bytes and s from all the others, with no
      further digits. */
  lemma DeserializeDigits(b: seq<Byte>)
    requires |b| >= 32
    ensures var (r, s) := Deserialize(b).value;
            && r < Pow(32) && HasDigits(b[..32], r)
            && s < Pow(|b| - 32) && HasDigits(b[32..], s)
  {
    DigitsOfValue(b[..32]);
    DigitsOfValue(b[32..]);
  }

  lemma PaddedIsExact(n: nat)
    ensures |Padded(Bytes(n), 32)| == 32 <==> n < Pow(32)
    ensures |Padded(Bytes(n), 32)| >= 32
    ensures Value(Padded(Bytes(n), 32)) == n
  {
    BytesFit(n, 32);
    PaddedKeepsValue(Bytes(n), 32);
    ValueOfBytes(n);
  }

  lemma PaddedKeepsValue(b: seq<Byte>, size: nat)
    ensures Value(Padded(b, size)) == Value(b)
  {
    if |b| < size {
      ValueOfPadded(size - |b|, b);
    }
  }

  /** Exactly the pairs below 2^256 are encoded, in 64 bytes, and decoding
      recovers them; every other pair panics. */
  lemma SerializeRoundTrip(r: nat, s: nat)
    ensures Serialize(r, s).Some? <==> r < Pow(32) && s < Pow(32)
    ensures Serialize(r, s).Some? ==>
              |Serialize(r, s).value| == 64 && Deserialize(Serialize(r, s).value) == Some((r, s))
  {
    PaddedIsExact(r);
    PaddedIsExact(s);
    Halves(Padded(Bytes(r), 32), Padded(Bytes(s), 32));
  }

  lemma Halves(a: seq<Byte>, b: seq<Byte>)
    requires |a| >= 32 && |b| >= 32
    ensures |a + b| == 64 <==> |a| == 32 && |b| == 32
    ensures |a| == 32 ==> (a + b)[..32] == a && (a + b)[32..] == b
  {
  }

  /** Of the strings that decode at all, exactly those of 64 bytes are what
      encoding the decoded pair gives back. */
  lemma DeserializeRoundTrip(b: seq<Byte>)
    requires |b| >= 32
    ensures var (r, s) := Deserialize(b).value; Serialize(r, s) == Some(b) <==> |b| == 64
  {
    if |b| == 64 {
      var (r, s) := Deserialize(b).value;
      ValueBelow(b[..32]);
      ValueBelow(b[32..]);
      PaddedIsExact(r);
      PaddedIsExact(s);
      ValueIsInjective(Padded(Bytes(r), 32), b[..32]);
      ValueIsInjective(Padded(Bytes(s), 32), b[32..]);
      assert b == b[..32] + b[32..];
    }
  }
}
