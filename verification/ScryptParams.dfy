/**
 * The bounds a file's scrypt parameters must meet before anything is
 * derived. The checks are computed in 64-bit words, and the proofs show that
 * no evaluated product wraps.
 */
module ScryptParams {
  import opened Numbers
  import H = Hmac
  import Scrypt

  const MAX_MEMORY := 0x400_0000
  const MAX_WORK := 0x40_0000
  const MAX_SALT := 1024
  const MAX_INT32 := 0x7fff_ffff

  datatype Count = Malformed | Over | Value(n: nat)

  /** Minimal two's complement contents of a non-negative INTEGER. */
  predicate IsCount(raw: seq<byte>) {
    && |raw| > 0 && raw[0] < 0x80
    && !(|raw| > 1 && raw[0] == 0 && raw[1] < 0x80)
  }

  lemma {:induction false} BELeading(b: seq<byte>)
    requires |b| > 4 && b[0] > 0
    ensures BE(b) > 0xffff_ffff
  {
    BEFirst(b);
    PowMonotone(256, 4, |b| - 1);
    PowAdd(256, 2, 2);
    PowAdd(256, 1, 1);
    assert Pow(256, 1) == 256;
    MulAtLeast(b[0], Pow(256, |b| - 1));
  }

  /** Reads an INTEGER's contents as a count: exactly its value up to 31 bits, and an overflow report past them. */
  method ReadCount(raw: seq<byte>) returns (c: Count)
    ensures c.Malformed? <==> !IsCount(raw)
    ensures c.Over? <==> IsCount(raw) && BE(raw) > MAX_INT32
    ensures c.Value? ==> c.n == BE(raw)
  {
    if |raw| == 0 || raw[0] >= 0x80 {
      return Malformed;
    }
    if |raw| > 1 && raw[0] == 0 && raw[1] < 0x80 {
      return Malformed;
    }
    var rest := raw;
    if raw[0] == 0 {
      BEFirst(raw);
      rest := raw[1..];
    }
    assert BE(rest) == BE(raw);
    if |rest| > 4 {
      BELeading(rest);
      return Over;
    }
    var v := 0;
    assert rest[..0] == [];
    for i := 0 to |rest|
      invariant v == BE(rest[..i])
    {
      BEPrefix(rest, i);
      v := v * 256 + rest[i];
    }
    assert rest[..|rest|] == rest;
    if v > MAX_INT32 {
      return Over;
    }
    return Value(v);
  }

  // The power-of-two test.

  lemma {:induction false} AndSame(a: nat, w: nat)
    requires a < Pow(2, w)
    ensures Scrypt.And(a, a, w) == a
  {
    if w == 0 {
    } else {
      AndSame(a / 2, w - 1);
    }
  }

  ghost predicate PowerOfTwo(n: nat) {
    exists k: nat :: n == Pow(2, k)
  }

  lemma HalfOfPower(n: nat)
    requires n > 0 && n % 2 == 0
    ensures PowerOfTwo(n) <==> PowerOfTwo(n / 2)
  {
    if PowerOfTwo(n) {
      var k: nat :| n == Pow(2, k);
      assert n == 2 * Pow(2, k - 1);
    }
    if PowerOfTwo(n / 2) {
      var k: nat :| n / 2 == Pow(2, k);
      assert n == Pow(2, k + 1);
    }
  }

  lemma OddPower(n: nat)
    requires n % 2 == 1
    ensures PowerOfTwo(n) <==> n == 1
  {
    if PowerOfTwo(n) {
      var k: nat :| n == Pow(2, k);
      PowerParity(k);
    }
    PowerParity(0);
  }

  lemma PowerParity(k: nat)
    ensures if k == 0 then Pow(2, k) == 1 else Pow(2, k) % 2 == 0
  {
    if k > 0 {
      assert Pow(2, k) == 2 * Pow(2, k - 1);
    }
  }

  /** n & (n - 1) is zero exactly for the powers of two. */
  lemma {:induction false} PowerTest(n: nat, w: nat)
    requires 0 < n < Pow(2, w)
    ensures Scrypt.And(n, n - 1, w) == 0 <==> PowerOfTwo(n)
  {
    var m := n / 2;
    if n % 2 == 1 {
      AndSame(m, w - 1);
      assert (n - 1) / 2 == m;
      OddPower(n);
    } else {
      assert (n - 1) / 2 == m - 1;
      PowerTest(m, w - 1);
      HalfOfPower(n);
    }
  }

  // The checks.

  const WORD: nat := 0x1_0000_0000_0000_0000

  function Mul64(a: nat, b: nat): nat {
    a * b % WORD
  }

  function Add64(a: nat, b: nat): nat {
    (a + b) % WORD
  }

  datatype Verdict = BadShape | Unsupported | Accept(n: nat, r: nat, p: nat)

  /** What scrypt is defined for, and what this parser will run. */
  ghost predicate Admissible(n: nat, r: nat, p: nat) {
    && r > 0 && p > 0
    && n > 1 && PowerOfTwo(n) && (r == 1 ==> n < 0x1_0000)
    && 128 * r * (n + 2 * p + 2) <= MAX_MEMORY
    && n * r * p <= MAX_WORK
  }

  /** The memory demand is at least each of its parts. */
  lemma MemoryParts(n: nat, r: nat, p: nat)
    requires r > 0
    ensures r * (n + 2 * p + 2) == r * n + 2 * (r * p) + 2 * r
    ensures r * n >= n && r * p >= p
  {
    MulAtLeast(r, n);
    MulAtLeast(r, p);
  }

  /** No step of the memory check wraps, once r is bounded. */
  lemma MemoryExact(n: nat, r: nat, p: nat)
    requires n <= MAX_INT32 && p <= MAX_INT32 && r <= MAX_MEMORY / 128
    ensures Add64(Add64(n, Mul64(2, p)), 2) == n + 2 * p + 2
    ensures Mul64(Mul64(128, r), n + 2 * p + 2) == 128 * r * (n + 2 * p + 2)
  {
    var d, a := n + 2 * p + 2, 128 * r;
    Wrapless(2 * p);
    Wrapless(n + 2 * p);
    Wrapless(d);
    Wrapless(a);
    ProductBelow(a, d, MAX_MEMORY, 0x2_0000_0000);
    Wrapless(a * d);
  }

  lemma Wrapless(x: nat)
    requires x < WORD
    ensures x % WORD == x
  {
  }

  /** Nor any of the work check, past the memory check. */
  lemma WorkExact(n: nat, r: nat, p: nat)
    requires r > 0 && 128 * r * (n + 2 * p + 2) <= MAX_MEMORY
    ensures n < 0x10_0000 && r < 0x10_0000 && p < 0x10_0000
    ensures Mul64(Mul64(n, r), p) == n * r * p
  {
    PartsBelow(n, r, p);
    var a := n * r;
    ProductBelow(n, r, 0x10_0000, 0x10_0000);
    ProductBelow(a, p, 0x100_0000_0000, 0x10_0000);
    Wrapless(a);
    Wrapless(a * p);
  }

  lemma PartsBelow(n: nat, r: nat, p: nat)
    requires r > 0 && 128 * r * (n + 2 * p + 2) <= MAX_MEMORY
    ensures n < 0x10_0000 && r < 0x10_0000 && p < 0x10_0000
  {
    MemoryParts(n, r, p);
    Associate(128, r, n + 2 * p + 2);
  }

  /** Decides a file's N, r and p. */
  method Check(cn: Count, cr: Count, cp: Count) returns (v: Verdict)
    requires cn.Value? ==> cn.n <= MAX_INT32
    requires cr.Value? ==> cr.n <= MAX_INT32
    requires cp.Value? ==> cp.n <= MAX_INT32
    ensures v.Accept? <==> cn.Value? && cr.Value? && cp.Value? && Admissible(cn.n, cr.n, cp.n)
    ensures v.Accept? ==> v == Accept(cn.n, cr.n, cp.n)
    ensures v.BadShape? <==>
      || cn.Malformed? || cr.Malformed? || cp.Malformed? || cn == Value(0) || cr == Value(0) || cp == Value(0)
      || (cn.Value? && !(cn.n > 1 && PowerOfTwo(cn.n)))
      || (cn.Value? && cr == Value(1) && cn.n >= 0x1_0000)
  {
    hide Mul64, Add64, PowerOfTwo, Pow, Scrypt.And;
    if cn.Malformed? || cr.Malformed? || cp.Malformed? || cn == Value(0) || cr == Value(0) || cp == Value(0) {
      return BadShape;
    }
    if cn.Value? {
      PowerWidth();
      PowerTest(cn.n, 64);
      if cn.n == 1 || Scrypt.And(cn.n, cn.n - 1, 64) != 0 {
        return BadShape;
      }
    }
    if cn.Value? && cr == Value(1) && cn.n >= 0x1_0000 {
      return BadShape;
    }
    if cn.Over? || cr.Over? || cp.Over? {
      return Unsupported;
    }
    var n, r, p := cn.n, cr.n, cp.n;
    if r > MAX_MEMORY / 128 {
      LargeR(n, r, p);
      return Unsupported;
    }
    MemoryExact(n, r, p);
    if Mul64(Mul64(128, r), Add64(Add64(n, Mul64(2, p)), 2)) > MAX_MEMORY {
      return Unsupported;
    }
    WorkExact(n, r, p);
    if Mul64(Mul64(n, r), p) > MAX_WORK {
      return Unsupported;
    }
    return Accept(n, r, p);
  }

  lemma PowerWidth()
    ensures Pow(2, 64) > MAX_INT32
  {
    hide Pow;
    PowTwo();
    PowAdd(2, 4, 4);
    assert Pow(2, 8) == 0x100;
    PowAdd(2, 8, 8);
    assert Pow(2, 16) == 0x1_0000;
    PowAdd(2, 16, 16);
    assert Pow(2, 32) == 0x1_0000_0000;
    PowMonotone(2, 32, 64);
  }

  lemma PowTwo()
    ensures Pow(2, 4) == 16
  {
    PowAdd(2, 2, 2);
    PowAdd(2, 1, 1);
    assert Pow(2, 1) == 2;
  }

  lemma LargeR(n: nat, r: nat, p: nat)
    requires r > MAX_MEMORY / 128
    ensures 128 * r * (n + 2 * p + 2) > MAX_MEMORY
  {
    MulAtLeast(n + 2 * p + 2, 128 * r);
  }

  /** What the caps promise of a parameter set that is run: a bounded region. */
  lemma AcceptedFits(h: H.Hash, n: nat, r: nat, p: nat, salt: nat)
    requires h.size == 32 && h.block == 64 && Admissible(n, r, p) && salt <= MAX_SALT
    ensures Scrypt.RegionSize(h, salt, n, r, p) < MAX_MEMORY + 2048
  {
    hide PowerOfTwo;
    MemoryParts(n, r, p);
    Regroup(n, r, p);
  }

  lemma Regroup(n: nat, r: nat, p: nat)
    ensures 128 * r * (n + 2 * p + 2) == 128 * (r * (n + 2 * p + 2))
    ensures 128 * r * n == 128 * (r * n)
    ensures p * (128 * r) == 128 * (r * p)
  {
  }

  /** And a cost the memory-hard step is defined for. */
  lemma AcceptedIsPower(n: nat)
    requires 1 < n <= MAX_INT32 && PowerOfTwo(n)
    ensures exists k: nat :: 0 < k <= 64 && n == Pow(2, k)
  {
    var k: nat :| n == Pow(2, k);
    assert k > 0;
    if k > 64 {
      PowMonotone(2, 64, k);
      PowerWidth();
    }
  }
}
