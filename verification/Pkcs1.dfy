/** The RSAPrivateKey (appendix A.1.2 of RFC 8017) assembled from an OpenSSH file's six integers. */
module Pkcs1 {
  import opened Numbers
  import opened Options
  import opened Der
  import ModReduce

  const MAX_EXPONENT_BITS := 24

  /** A magnitude without its leading zeros. */
  function Strip(b: seq<byte>): (r: seq<byte>)
    ensures Stripped(r) && |r| <= |b|
  {
    if b != [] && b[0] == 0 then Strip(b[1..]) else b
  }

  method StripZeros(b: seq<byte>) returns (r: seq<byte>)
    ensures r == Strip(b)
  {
    r := b;
    while |r| > 0 && r[0] == 0
      invariant Strip(r) == Strip(b)
    {
      r := r[1..];
    }
  }

  lemma {:induction false} StripValue(b: seq<byte>)
    ensures BE(Strip(b)) == BE(b)
  {
    if b == [] || b[0] != 0 {
    } else {
      BEFirst(b);
      StripValue(b[1..]);
    }
  }

  /** Nothing is left exactly when the number is zero. */
  lemma StripEmpty(b: seq<byte>)
    ensures Strip(b) == [] <==> BE(b) == 0
  {
    StripValue(b);
    var r := Strip(b);
    if r != [] {
      BEFirst(r);
      MulAtLeast(r[0], Pow(256, |r| - 1));
    }
  }

  /** The bits of a byte. */
  function Len8(b: byte): nat {
    if b == 0 then 0 else 1 + Len8(b / 2)
  }

  lemma {:induction false} Len8Exact(b: byte)
    requires b > 0
    ensures Len8(b) > 0 && Pow(2, Len8(b) - 1) <= b < Pow(2, Len8(b))
  {
    if b / 2 > 0 {
      Len8Exact(b / 2);
    } else {
      assert Pow(2, 0) == 1 && Pow(2, 1) == 2;
    }
  }

  function BitLen(b: seq<byte>): nat {
    if b == [] then 0 else (|b| - 1) * 8 + Len8(b[0])
  }

  lemma {:induction false} ByteBits(n: nat)
    ensures Pow(256, n) == Pow(2, n * 8)
  {
    if n == 0 {
    } else {
      ByteBits(n - 1);
      PowAdd(2, 8, (n - 1) * 8);
      PowAdd(2, 4, 4);
      PowAdd(2, 2, 2);
      assert Pow(2, 1) == 2;
    }
  }

  /** The bit length is the one with 2^(len-1) <= value < 2^len. */
  lemma BitLenExact(b: seq<byte>)
    requires b != [] && Stripped(b)
    ensures BitLen(b) > 0 && Pow(2, BitLen(b) - 1) <= BE(b) < Pow(2, BitLen(b))
  {
    hide Pow, BE;
    var m := |b| - 1;
    var p, l := Pow(256, m), Len8(b[0]);
    BEFirst(b);
    BEBound(b[1..]);
    Len8Exact(b[0]);
    ByteBits(m);
    PowAdd(2, l, m * 8);
    PowAdd(2, l - 1, m * 8);
    Scale(Pow(2, l - 1), b[0], Pow(2, l), p);
  }

  lemma Scale(a: nat, x: nat, c: nat, p: nat)
    requires a <= x < c
    ensures a * p <= x * p && x * p + p <= c * p
  {
    MulMinus(x, a, p);
    assert (x - a) * p >= 0;
    MulAtLeast(c - x, p);
    MulMinus(c, x, p);
  }

  /** A bound in whole bytes bounds the length. */
  lemma BitLenBytes(b: seq<byte>, k: nat)
    requires Stripped(b) && BitLen(b) <= k * 8
    ensures |b| <= k
  {
    if b != [] {
      Len8Exact(b[0]);
    }
  }

  /** The size rule every key meets. */
  predicate WithinCaps(n: seq<byte>, e: seq<byte>, d: seq<byte>, p: seq<byte>, q: seq<byte>, iqmp: seq<byte>) {
    && BitLen(n) <= ModReduce.MAX_MODULUS_BITS && BitLen(d) <= ModReduce.MAX_MODULUS_BITS
    && BitLen(p) <= ModReduce.MAX_PRIME_BITS && BitLen(q) <= ModReduce.MAX_PRIME_BITS
    && 2 <= BitLen(e) <= MAX_EXPONENT_BITS && e != [] && e[|e| - 1] % 2 == 1
    && BitLen(iqmp) <= ModReduce.MAX_PRIME_BITS
  }

  datatype Rsa = Rsa(n: seq<byte>, e: seq<byte>, d: seq<byte>, p: seq<byte>, q: seq<byte>, iqmp: seq<byte>)

  /** What is accepted, stated of the numbers. */
  ghost predicate Accepted(k: Rsa) {
    && BE(k.n) > 0 && BE(k.e) > 0 && BE(k.d) > 0 && BE(k.p) > 1 && BE(k.q) > 1 && BE(k.iqmp) > 0
    && WithinCaps(Strip(k.n), Strip(k.e), Strip(k.d), Strip(k.p), Strip(k.q), Strip(k.iqmp))
  }

  /** The nine integers of the structure. */
  ghost function Nine(k: Rsa): seq<nat>
    requires BE(k.p) > 1 && BE(k.q) > 1
  {
    [0, BE(k.n), BE(k.e), BE(k.d), BE(k.p), BE(k.q), BE(k.d) % (BE(k.p) - 1), BE(k.d) % (BE(k.q) - 1), BE(k.iqmp)]
  }

  /** d mod (prime - 1), in the prime's width and then stripped; nothing when the prime is below 2. */
  method CrtExponent(d: seq<byte>, prime: seq<byte>) returns (r: Option<seq<byte>>)
    requires Stripped(prime) && prime != [] && |prime| * 8 <= ModReduce.MAX_PRIME_BITS && |d| * 8 <= ModReduce.MAX_MODULUS_BITS
    ensures r.Some? <==> BE(prime) > 1
    ensures r.Some? ==> Stripped(r.value) && |r.value| <= |prime| && BE(r.value) == BE(d) % (BE(prime) - 1)
  {
    hide BE;
    var less := new byte[|prime|](_ => 0);
    var ok := ModReduce.Decrement(less, prime);
    var left := StripZeros(less[..]);
    StripEmpty(less[..]);
    if !ok || left == [] {
      return None;
    }
    var rem := new byte[|prime|](_ => 0);
    ok := ModReduce.ReduceMod(rem, d, less[..]);
    var s := StripZeros(rem[..]);
    StripValue(rem[..]);
    return Some(s);
  }

  /** Nine magnitudes, each at most 2 KiB. */
  ghost predicate Sized(fields: seq<seq<byte>>) {
    |fields| == 9 && forall i :: 0 <= i < |fields| ==> |fields[i]| <= 2048 && Stripped(fields[i])
  }

  lemma {:induction false} SumBound(fields: seq<seq<byte>>)
    requires forall i :: 0 <= i < |fields| ==> |fields[i]| <= 2048
    ensures SumLen(fields) <= |fields| * 4096
  {
    if fields == [] {
    } else {
      SumBound(fields[..|fields| - 1]);
      OctetsOfInt(ContentLen(fields[|fields| - 1]));
    }
  }

  lemma SizedShort(fields: seq<seq<byte>>)
    requires Sized(fields)
    ensures Short(fields) && SumLen(fields) < INT_LIMIT
  {
    SumBound(fields);
  }

  method TotalContent(fields: seq<seq<byte>>) returns (content: nat)
    ensures content == SumLen(fields)
  {
    content := 0;
    for i := 0 to |fields|
      invariant content == SumLen(fields[..i])
    {
      assert fields[..i + 1][..i] == fields[..i];
      content := content + EncodedLen(fields[i]);
    }
    assert fields[..|fields|] == fields;
  }

  method PutIntegers(w: Writer, fields: seq<seq<byte>>)
    requires w.Valid() && Short(fields) && w.off + SumLen(fields) == w.b.Length
    modifies w`off, w.b
    ensures w.off == w.b.Length && w.b[..] == old(w.b[..w.off]) + Integers(fields)
  {
    hide Integer, EncodedLen, Integers, SumLen;
    ghost var was, at := w.b[..w.off], w.off;
    SumNone(fields);
    for i := 0 to |fields|
      invariant w.Valid() && w.off == at + SumLen(fields[..i])
      invariant w.b[..w.off] == was + Integers(fields[..i])
    {
      SumNext(fields, i);
      w.PutInteger(fields[i]);
    }
    assert fields[..|fields|] == fields;
    assert w.b[..w.off] == w.b[..];
  }

  lemma SumNone(fields: seq<seq<byte>>)
    requires Short(fields)
    ensures Integers(fields[..0]) == [] && SumLen(fields[..0]) == 0
  {
  }

  lemma SumNext(fields: seq<seq<byte>>, i: nat)
    requires i < |fields| && Short(fields)
    ensures SumLen(fields[..i + 1]) == SumLen(fields[..i]) + EncodedLen(fields[i]) <= SumLen(fields)
    ensures Integers(fields[..i + 1]) == Integers(fields[..i]) + Integer(fields[i])
  {
    hide Integer, EncodedLen;
    assert fields[..i + 1][..i] == fields[..i];
    SumPrefix(fields, i + 1);
  }

  lemma {:induction false} SumPrefix(fields: seq<seq<byte>>, i: nat)
    requires i <= |fields|
    ensures SumLen(fields[..i]) <= SumLen(fields)
    decreases |fields| - i
  {
    if i < |fields| {
      SumPrefix(fields, i + 1);
      assert fields[..i + 1][..i] == fields[..i];
    } else {
      assert fields[..i] == fields;
    }
  }

  /** The structure written into a buffer of exactly the computed size. */
  method WriteSequence(fields: seq<seq<byte>>) returns (der: array<byte>)
    requires Sized(fields)
    ensures fresh(der) && ReadSequence(der[..], 9) == Some(Values(fields))
  {
    hide Integers, Length, ReadSequence, SumLen, LengthLen, Values;
    SizedShort(fields);
    var content := TotalContent(fields);
    der := new byte[1 + LengthLen(content) + content](_ => 0);
    var w := new Writer(der);
    w.PutByte(0x30);
    w.PutLength(content);
    PutIntegers(w, fields);
    assert der[..] == Sequence(fields);
    SequenceRead(fields);
  }

  lemma FieldsSized(n: seq<byte>, e: seq<byte>, d: seq<byte>, p: seq<byte>, q: seq<byte>, iqmp: seq<byte>, dp: seq<byte>, dq: seq<byte>)
    requires Stripped(n) && Stripped(e) && Stripped(d) && Stripped(p) && Stripped(q) && Stripped(iqmp) && Stripped(dp) && Stripped(dq)
    requires WithinCaps(n, e, d, p, q, iqmp) && |dp| <= |p| && |dq| <= |q|
    ensures |d| * 8 <= ModReduce.MAX_MODULUS_BITS && |p| * 8 <= ModReduce.MAX_PRIME_BITS && |q| * 8 <= ModReduce.MAX_PRIME_BITS
    ensures Sized([[], n, e, d, p, q, dp, dq, iqmp])
  {
    hide BitLen;
    BitLenBytes(n, 2048);
    BitLenBytes(e, 3);
    BitLenBytes(d, 2048);
    BitLenBytes(p, 1024);
    BitLenBytes(q, 1024);
    BitLenBytes(iqmp, 1024);
  }

  /**
   * The whole assembly. The structure decodes to version 0, the file's six
   * integers and the two exponents the file leaves out.
   */
  method Assemble(k: Rsa) returns (der: Option<array<byte>>)
    ensures der.Some? <==> Accepted(k)
    ensures der.Some? ==> ReadSequence(der.value[..], 9) == Some(Nine(k))
  {
    hide BE, ReadSequence, WithinCaps, Sized, Strip;
    var n := StripZeros(k.n);
    var e := StripZeros(k.e);
    var d := StripZeros(k.d);
    var p := StripZeros(k.p);
    var q := StripZeros(k.q);
    var iqmp := StripZeros(k.iqmp);
    AllStripped(k);
    if n == [] || e == [] || d == [] || p == [] || q == [] || iqmp == [] {
      return None;
    }
    if !WithinCaps(n, e, d, p, q, iqmp) {
      return None;
    }
    FieldsSized(n, e, d, p, q, iqmp, [], []);
    var dp := CrtExponent(d, p);
    var dq := CrtExponent(d, q);
    if dp.None? || dq.None? {
      return None;
    }
    FieldsSized(n, e, d, p, q, iqmp, dp.value, dq.value);
    var out := WriteSequence([[], n, e, d, p, q, dp.value, dq.value, iqmp]);
    ZeroIsZero();
    assert Values([[], n, e, d, p, q, dp.value, dq.value, iqmp]) == Nine(k);
    return Some(out);
  }

  lemma ZeroIsZero()
    ensures BE([]) == 0
  {
  }

  lemma AllStripped(k: Rsa)
    ensures BE(Strip(k.n)) == BE(k.n) && BE(Strip(k.e)) == BE(k.e) && BE(Strip(k.d)) == BE(k.d)
    ensures BE(Strip(k.p)) == BE(k.p) && BE(Strip(k.q)) == BE(k.q) && BE(Strip(k.iqmp)) == BE(k.iqmp)
    ensures (Strip(k.n) == [] <==> BE(k.n) == 0) && (Strip(k.e) == [] <==> BE(k.e) == 0)
    ensures (Strip(k.d) == [] <==> BE(k.d) == 0) && (Strip(k.p) == [] <==> BE(k.p) == 0)
    ensures (Strip(k.q) == [] <==> BE(k.q) == 0) && (Strip(k.iqmp) == [] <==> BE(k.iqmp) == 0)
  {
    hide BE, Strip;
    StripValue(k.n);
    StripValue(k.e);
    StripValue(k.d);
    StripValue(k.p);
    StripValue(k.q);
    StripValue(k.iqmp);
    StripEmpty(k.n);
    StripEmpty(k.e);
    StripEmpty(k.d);
    StripEmpty(k.p);
    StripEmpty(k.q);
    StripEmpty(k.iqmp);
  }

  /** The number has a bit length in this range exactly when it lies between these powers of two. */
  lemma BitLenBelow(b: seq<byte>, k: nat)
    requires Stripped(b)
    ensures BitLen(b) <= k <==> BE(b) < Pow(2, k)
  {
    hide Pow, BE, BitLen;
    if b == [] {
      ZeroIsZero();
      NoBits();
      PowMonotone(2, 0, k);
      PowZero();
    } else {
      BitLenExact(b);
      if BitLen(b) <= k {
        PowMonotone(2, BitLen(b), k);
      } else {
        PowMonotone(2, k, BitLen(b) - 1);
      }
    }
  }

  lemma NoBits()
    ensures BitLen([]) == 0
  {
  }

  lemma PowZero()
    ensures Pow(2, 0) == 1 && Pow(2, 1) == 2
  {
  }

  lemma LastBit(b: seq<byte>)
    requires b != []
    ensures BE(b) % 2 == b[|b| - 1] % 2
  {
  }

  lemma StripStripped(b: seq<byte>)
    ensures Stripped(Strip(b))
  {
  }

  /** What is accepted, with no byte string in it: every number non-zero, the modulus and d of at most 16384 bits, the
      primes and the inverse of at most 8192, the primes above one, and an odd exponent above one and below 2^24. */
  lemma AcceptedExactly(k: Rsa)
    ensures Accepted(k) <==>
      && 0 < BE(k.n) < Pow(2, 16384) && 0 < BE(k.d) < Pow(2, 16384)
      && 1 < BE(k.p) < Pow(2, 8192) && 1 < BE(k.q) < Pow(2, 8192) && 0 < BE(k.iqmp) < Pow(2, 8192)
      && 1 < BE(k.e) < Pow(2, 24) && BE(k.e) % 2 == 1
  {
    hide Pow, BE, BitLen, Strip, Stripped;
    AllStripped(k);
    Bounded(k.n, 16384);
    Bounded(k.d, 16384);
    Bounded(k.p, 8192);
    Bounded(k.q, 8192);
    Bounded(k.iqmp, 8192);
    Bounded(k.e, 24);
    Bounded(k.e, 1);
    PowZero();
    if Strip(k.e) != [] {
      LastBit(Strip(k.e));
    }
  }

  lemma Bounded(b: seq<byte>, bits: nat)
    ensures BitLen(Strip(b)) <= bits <==> BE(b) < Pow(2, bits)
  {
    hide Pow, BE, BitLen, Strip;
    StripStripped(b);
    StripValue(b);
    BitLenBelow(Strip(b), bits);
  }
}
