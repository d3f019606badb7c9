/** Positional notation: bytes big-endian and little-endian, and 64-bit limbs. */
module Numbers {

  type byte = b: int | 0 <= b < 256
  type u64 = w: int | 0 <= w < LIMB

  const LIMB: int := 0x1_0000_0000_0000_0000

  function Zeros(n: nat): (r: seq<byte>)
    ensures |r| == n && forall i :: 0 <= i < n ==> r[i] == 0
  {
    seq(n, _ => 0)
  }

  /** A text in ASCII. */
  function Ascii(text: string): (b: seq<byte>)
    ensures |b| == |text|
  {
    seq(|text|, i requires 0 <= i < |text| => text[i] as int % 256)
  }

  function Pow(base: nat, n: nat): (p: nat)
    ensures base > 0 ==> p > 0
  {
    if n == 0 then 1
    else
      var q := Pow(base, n - 1);
      assert base > 0 ==> base * q > 0 by { if base > 0 { Positive(base, q); } }
      base * q
  }

  lemma Positive(a: nat, b: nat)
    requires a > 0 && b > 0
    ensures a * b > 0
  {
  }

  lemma {:induction false} PowAdd(base: nat, m: nat, n: nat)
    ensures Pow(base, m + n) == Pow(base, m) * Pow(base, n)
  {
    if m == 0 {
    } else {
      PowAdd(base, m - 1, n);
      assert Pow(base, m) == base * Pow(base, m - 1);
      Associate(base, Pow(base, m - 1), Pow(base, n));
    }
  }

  lemma Associate(a: int, b: int, c: int)
    ensures a * (b * c) == (a * b) * c
  {
  }

  lemma MulAtLeast(a: nat, b: nat)
    requires a > 0
    ensures a * b >= b
  {
  }

  lemma MulMinus(a: int, b: int, c: int)
    ensures (a - b) * c == a * c - b * c
  {
  }

  lemma MulOrder(a: nat, b: nat, c: nat)
    requires a <= b
    ensures a * c <= b * c
  {
    MulMinus(b, a, c);
    assert (b - a) * c >= 0;
  }

  lemma {:induction false} PowMonotone(base: nat, m: nat, n: nat)
    requires base > 0 && m <= n
    ensures Pow(base, m) <= Pow(base, n)
    decreases n - m
  {
    if m >= n {
    } else {
      PowMonotone(base, m, n - 1);
      assert Pow(base, n) == base * Pow(base, n - 1);
      assert base * Pow(base, n - 1) >= 1 * Pow(base, n - 1);
    }
  }

  /** A big-endian magnitude. */
  function BE(b: seq<byte>): nat {
    if b == [] then 0 else BE(b[..|b| - 1]) * 256 + b[|b| - 1]
  }

  /** A little-endian number of bytes. */
  function LE(b: seq<byte>): nat {
    if b == [] then 0 else b[0] + 256 * LE(b[1..])
  }

  /** The leading byte carries the greatest power. */
  lemma {:induction false} BEFirst(b: seq<byte>)
    requires b != []
    ensures BE(b) == b[0] * Pow(256, |b| - 1) + BE(b[1..])
  {
    if |b| == 1 {
      assert b[..0] == [] && b[1..] == [];
    } else {
      var front := b[..|b| - 1];
      BEFirst(front);
      assert front[1..] == b[1..][..|b| - 2];
      assert b[1..][|b| - 2] == b[|b| - 1];
      calc {
        BE(b);
        BE(front) * 256 + b[|b| - 1];
        (b[0] * Pow(256, |b| - 2) + BE(front[1..])) * 256 + b[|b| - 1];
        b[0] * Pow(256, |b| - 2) * 256 + (BE(front[1..]) * 256 + b[|b| - 1]);
        { Associate(b[0], Pow(256, |b| - 2), 256); assert Pow(256, |b| - 1) == 256 * Pow(256, |b| - 2); }
        b[0] * Pow(256, |b| - 1) + BE(b[1..]);
      }
    }
  }

  lemma BEPrefix(b: seq<byte>, i: nat)
    requires i < |b|
    ensures BE(b[..i + 1]) == BE(b[..i]) * 256 + b[i]
  {
    assert b[..i + 1][..i] == b[..i];
  }

  lemma {:induction false} BEBound(b: seq<byte>)
    ensures BE(b) < Pow(256, |b|)
  {
    if b == [] {
    } else {
      BEBound(b[..|b| - 1]);
      assert Pow(256, |b|) == 256 * Pow(256, |b| - 1);
    }
  }

  /** Splitting a little-endian number at any byte. */
  lemma {:induction false} LESplit(b: seq<byte>, n: nat)
    requires n <= |b|
    ensures LE(b) == LE(b[..n]) + Pow(256, n) * LE(b[n..])
  {
    if n == 0 {
      assert b[0..] == b;
    } else {
      LESplit(b[1..], n - 1);
      assert b[1..][..n - 1] == b[..n][1..] && b[1..][n - 1..] == b[n..];
      calc {
        LE(b);
        b[0] + 256 * (LE(b[..n][1..]) + Pow(256, n - 1) * LE(b[n..]));
        b[0] + 256 * LE(b[..n][1..]) + 256 * (Pow(256, n - 1) * LE(b[n..]));
        { Associate(256, Pow(256, n - 1), LE(b[n..])); }
        LE(b[..n]) + Pow(256, n) * LE(b[n..]);
      }
    }
  }

  function Reversed(b: seq<byte>): (r: seq<byte>)
    ensures |r| == |b| && forall i :: 0 <= i < |b| ==> r[i] == b[|b| - 1 - i]
  {
    seq(|b|, i requires 0 <= i < |b| => b[|b| - 1 - i])
  }

  /** Big-endian is little-endian backwards. */
  lemma {:induction false} BEReversed(b: seq<byte>)
    ensures BE(b) == LE(Reversed(b))
  {
    if b == [] {
    } else {
      BEReversed(b[..|b| - 1]);
      assert Reversed(b)[1..] == Reversed(b[..|b| - 1]);
    }
  }

  /** The low n bytes of v, big-endian. */
  function ToBE(v: nat, n: nat): (b: seq<byte>)
    ensures |b| == n
  {
    if n == 0 then [] else ToBE(v / 256, n - 1) + [v % 256]
  }

  lemma {:induction false} ToBEValue(v: nat, n: nat)
    ensures BE(ToBE(v, n)) == v % Pow(256, n)
  {
    if n == 0 {
    } else {
      ToBEValue(v / 256, n - 1);
      ToBELast(v, n);
      LastByte(v, Pow(256, n - 1));
    }
  }

  lemma ToBELast(v: nat, n: nat)
    requires n > 0
    ensures BE(ToBE(v, n)) == BE(ToBE(v / 256, n - 1)) * 256 + v % 256
  {
    assert ToBE(v, n)[..n - 1] == ToBE(v / 256, n - 1);
  }

  lemma LastByte(v: nat, p: nat)
    requires p > 0
    ensures v % (256 * p) == v / 256 % p * 256 + v % 256
  {
    var q, r := v / 256 / p, v / 256 % p;
    assert v / 256 == p * q + r;
    Associate(256, p, q);
    Remainder(v, 256 * p, q, r * 256 + v % 256);
  }

  lemma Quotient(x: nat, m: nat)
    requires m > 0
    ensures x == m * (x / m) + x % m && x % m < m
  {
  }

  lemma MulSwap(a: int, b: int)
    ensures a * b == b * a
  {
  }

  /** How far i pieces of a size reach. */
  ghost predicate Reaches(off: nat, i: nat, size: nat) {
    off == i * size
  }

  lemma ReachNext(off: nat, i: nat, size: nat)
    requires Reaches(off, i, size)
    ensures Reaches(off + size, i + 1, size)
  {
  }

  lemma ReachNone(size: nat)
    ensures Reaches(0, 0, size)
  {
  }

  lemma MulTwice(a: int, b: int)
    ensures a * (2 * b) == 2 * (a * b) && a * (2 * b + 1) == 2 * (a * b) + a
  {
  }

  /** A product is bounded by the product of its factors' bounds. */
  lemma ProductBelow(a: nat, b: nat, x: nat, y: nat)
    requires a <= x && b <= y
    ensures 0 <= a * b <= x * y
  {
    MulOrder(a, x, b);
    MulOrder(b, y, x);
    MulSwap(x, b);
    MulSwap(x, y);
  }

  /** A prefix's slice is a slice's prefix. */
  lemma SliceInPrefix(s: seq<byte>, len: nat, off: nat, n: nat, block: nat)
    requires n <= block && off + block <= |s| && off + n <= len <= |s|
    ensures s[..len][off..off + n] == s[off..off + block][..n]
  {
  }

  lemma Remainder(x: nat, m: nat, q: nat, r: nat)
    requires m > 0 && r < m && x == m * q + r
    ensures x % m == r
  {
    var q', r' := x / m, x % m;
    assert x == m * q' + r';
    if q' > q {
      MulAtLeast(q' - q, m);
      MulMinus(q', q, m);
    } else if q' < q {
      MulAtLeast(q - q', m);
      MulMinus(q, q', m);
    }
  }

  lemma {:induction false} ToBEOfBE(b: seq<byte>)
    ensures ToBE(BE(b), |b|) == b
  {
    if b == [] {
    } else {
      ToBEOfBE(b[..|b| - 1]);
      assert b == b[..|b| - 1] + [b[|b| - 1]];
    }
  }
}
