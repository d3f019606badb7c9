/**
 * Reduction of a wide big-endian magnitude modulo another, by shift and
 * conditional subtraction over 64-bit limbs.
 */
module ModReduce {
  import opened Numbers

  const MAX_PRIME_BITS := 8192
  const MAX_MODULUS_BITS := 16384

  /** The working width: a modulus of MAX_PRIME_BITS and one limb more. */
  const LIMBS := MAX_PRIME_BITS / 64 + 1

  /** The number a little-endian limb sequence stands for. */
  function Value(w: seq<u64>): nat {
    if w == [] then 0 else w[0] + LIMB * Value(w[1..])
  }

  lemma {:induction false} ValueAppend(w: seq<u64>, x: u64)
    ensures Value(w + [x]) == Value(w) + Pow(LIMB, |w|) * x
  {
    if w == [] {
      assert [] + [x] == [x];
      assert [x][1..] == [];
    } else {
      ValueAppend(w[1..], x);
      assert (w + [x])[1..] == w[1..] + [x];
      Associate(LIMB, Pow(LIMB, |w| - 1), x);
    }
  }

  /** Prefixes grow one limb at a time. */
  lemma ValuePrefix(w: seq<u64>, i: nat)
    requires i < |w|
    ensures Value(w[..i + 1]) == Value(w[..i]) + Pow(LIMB, i) * w[i]
  {
    assert w[..i + 1] == w[..i] + [w[i]];
    ValueAppend(w[..i], w[i]);
  }

  lemma {:induction false} ValueBound(w: seq<u64>)
    ensures Value(w) < Pow(LIMB, |w|)
  {
    if w == [] {
    } else {
      ValueBound(w[1..]);
      assert Pow(LIMB, |w|) == LIMB * Pow(LIMB, |w| - 1);
    }
  }

  lemma {:induction false} ValueZero(w: seq<u64>)
    requires forall i :: 0 <= i < |w| ==> w[i] == 0
    ensures Value(w) == 0
  {
    if w == [] {
    } else {
      ValueZero(w[1..]);
    }
  }

  lemma {:induction false} ValueNonZero(w: seq<u64>, i: nat)
    requires i < |w| && w[i] != 0
    ensures Value(w) != 0
  {
    if i == 0 {
    } else {
      ValueNonZero(w[1..], i - 1);
    }
  }

  /** Limbs that are all zero above the first n do not count. */
  lemma {:induction false} ValueTrim(w: seq<u64>, n: nat)
    requires n <= |w| && forall i :: n <= i < |w| ==> w[i] == 0
    ensures Value(w) == Value(w[..n])
  {
    if n == 0 {
      ValueZero(w);
    } else {
      ValueTrim(w[1..], n - 1);
      assert w[..n][1..] == w[1..][..n - 1];
    }
  }

  /** Adding to one limb adds that many of its place value. */
  lemma {:induction false} ValueUpdate(w: seq<u64>, i: nat, d: nat)
    requires i < |w| && w[i] + d < LIMB
    ensures Value(w[i := w[i] + d]) == Value(w) + Pow(LIMB, i) * d
  {
    if i == 0 {
      assert w[0 := w[0] + d][1..] == w[1..];
    } else {
      ValueUpdate(w[1..], i - 1, d);
      assert w[i := w[i] + d][1..] == w[1..][i - 1 := w[1..][i - 1] + d];
      Associate(LIMB, Pow(LIMB, i - 1), d);
    }
  }

  lemma LimbIsEightBytes()
    ensures Pow(256, 8) == LIMB
  {
    assert Pow(256, 1) == 256;
    assert Pow(256, 2) == 65536;
    PowAdd(256, 2, 2);
    PowAdd(256, 4, 4);
  }

  lemma {:induction false} LimbPower(j: nat)
    ensures Pow(LIMB, j) == Pow(256, 8 * j)
  {
    LimbIsEightBytes();
    if j == 0 {
    } else {
      LimbPower(j - 1);
      PowAdd(256, 8, 8 * (j - 1));
    }
  }

  // The word operations of the source, on integers.

  /** The masked select, the or-ed carry and the or-ed byte, as bit-vector identities. */
  lemma WordForms(t: bv64, r: bv64, b: bv64)
    ensures (t & (0 - 1)) | (r & !(0 - 1)) == t
    ensures (t & 0) | (r & !0) == r
    ensures (r << 1) | (b & 1) == (r << 1) + (b & 1)
  {
  }

  /** r, 2 r + bit over nl limbs: the bit shifted out is the carry. */
  method ShiftIn(r: array<u64>, nl: nat, bit: nat) returns (carry: nat)
    requires nl <= r.Length && bit <= 1
    modifies r
    ensures carry <= 1
    ensures Value(r[..nl]) + carry * Pow(LIMB, nl) == 2 * old(Value(r[..nl])) + bit
    ensures r[nl..] == old(r[nl..])
  {
    carry := bit;
    ghost var was := r[..];
    for i := 0 to nl
      invariant carry <= 1
      invariant r[i..] == was[i..]
      invariant Value(r[..i]) + carry * Pow(LIMB, i) == 2 * Value(was[..i]) + bit
    {
      ghost var low, c := r[..i], carry;
      var next := r[i] / 0x8000_0000_0000_0000;
      r[i] := (2 * r[i]) % LIMB + carry;
      carry := next;
      assert r[..i] == low;
      assert r[..][..i + 1] == r[..i + 1] && r[..][..i] == r[..i];
      ValuePrefix(r[..], i);
      ValuePrefix(was, i);
      ShiftPlace(Pow(LIMB, i), was[i], c, r[i], carry);
      assert forall k :: i + 1 <= k < r.Length ==> r[k] == was[k];
    }
    assert was[..nl] == old(r[..nl]);
  }

  lemma ShiftPlace(p: nat, w: u64, c: nat, w': u64, c': nat)
    requires c <= 1 && c' == w / 0x8000_0000_0000_0000 && w' == (2 * w) % LIMB + c
    ensures p * w' + c' * (LIMB * p) == 2 * (p * w) + c * p
  {
    assert w' + c' * LIMB == 2 * w + c;
    calc {
      p * w' + c' * (LIMB * p);
      p * (w' + c' * LIMB);
      p * (2 * w + c);
    }
  }

  /** t = r - m over nl limbs, with the borrow out of the top one. */
  method Subtract(t: array<u64>, r: array<u64>, m: array<u64>, nl: nat) returns (borrow: nat)
    requires nl <= t.Length && nl <= r.Length && nl <= m.Length && t != r && t != m
    modifies t
    ensures borrow <= 1
    ensures Value(t[..nl]) == Value(r[..nl]) - Value(m[..nl]) + borrow * Pow(LIMB, nl)
  {
    borrow := 0;
    for i := 0 to nl
      invariant borrow <= 1
      invariant Value(t[..i]) == Value(r[..i]) - Value(m[..i]) + borrow * Pow(LIMB, i)
    {
      ghost var low, b := t[..i], borrow;
      var d := r[i] - m[i] - borrow;
      t[i], borrow := if d < 0 then d + LIMB else d, if d < 0 then 1 else 0;
      assert t[..i] == low;
      assert t[..][..i + 1] == t[..i + 1] && t[..][..i] == t[..i];
      assert r[..][..i + 1] == r[..i + 1] && r[..][..i] == r[..i];
      assert m[..][..i + 1] == m[..i + 1] && m[..][..i] == m[..i];
      ValuePrefix(t[..], i);
      ValuePrefix(r[..], i);
      ValuePrefix(m[..], i);
      SubtractPlace(Pow(LIMB, i), r[i], m[i], b, t[i], borrow);
    }
  }

  lemma SubtractPlace(p: nat, r: u64, m: u64, b: nat, t: u64, b': nat)
    requires t == r - m - b + b' * LIMB
    ensures p * t + b * p == p * r - p * m + b' * (LIMB * p)
  {
    calc {
      p * t + b * p;
      p * (t + b);
      p * (r - m + b' * LIMB);
      p * r - p * m + p * (b' * LIMB);
      { Associate(p, b', LIMB); Associate(b', LIMB, p); Associate(b', p, LIMB); }
      p * r - p * m + b' * (LIMB * p);
    }
  }

  /** The last i bytes of b are in the limbs, and nothing else is. */
  ghost predicate Loaded(w: seq<u64>, b: seq<byte>, i: nat) {
    && i <= |b| <= 8 * |w|
    && Value(w) == BE(b[|b| - i..])
    && (i / 8 < |w| ==> w[i / 8] < Pow(256, i % 8))
    && forall j :: i / 8 < j < |w| ==> w[j] == 0
  }

  lemma LoadByte(w: seq<u64>, b: seq<byte>, i: nat)
    requires Loaded(w, b, i) && i < |b|
    ensures 0 <= w[i / 8] + b[|b| - 1 - i] * Pow(256, i % 8) < LIMB
    ensures Loaded(w[i / 8 := w[i / 8] + b[|b| - 1 - i] * Pow(256, i % 8)], b, i + 1)
  {
    hide Pow, BE, Value;
    var k, j := |b| - 1 - i, i / 8;
    var d := b[k] * Pow(256, i % 8);
    ByteFits(w[j], i % 8, b[k]);
    ValueUpdate(w, j, d);
    BytePlace(i, b[k]);
    BEFirst(b[k..]);
    assert b[k..][1..] == b[|b| - i..];
    var w' := w[j := w[j] + d];
    assert Value(w') == BE(b[|b| - (i + 1)..]);
    NextPlace(i);
    PowNone(256);
  }

  lemma NextPlace(i: nat)
    ensures if i % 8 == 7 then (i + 1) / 8 == i / 8 + 1 && (i + 1) % 8 == 0 else (i + 1) / 8 == i / 8 && (i + 1) % 8 == i % 8 + 1
  {
  }

  lemma PowNone(base: nat)
    ensures Pow(base, 0) == 1
  {
  }

  /** A big-endian magnitude, loaded into limbs; false leaves the limbs alone. */
  method SetLimbs(w: array<u64>, b: seq<byte>) returns (ok: bool)
    modifies w
    ensures ok <==> (|b| + 7) / 8 <= w.Length
    ensures ok ==> Value(w[..]) == BE(b)
    ensures ok ==> forall j :: (|b| + 7) / 8 <= j < w.Length ==> w[j] == 0
    ensures !ok ==> w[..] == old(w[..])
  {
    hide Pow, Value, BE, Loaded;
    if (|b| + 7) / 8 > w.Length {
      return false;
    }
    for i := 0 to w.Length
      invariant forall j :: 0 <= j < i ==> w[j] == 0
    {
      w[i] := 0;
    }
    LoadedNone(w[..], b);
    for i := 0 to |b|
      invariant Loaded(w[..], b, i)
    {
      LoadByte(w[..], b, i);
      ghost var next := w[..][i / 8 := w[i / 8] + b[|b| - 1 - i] * Pow(256, i % 8)];
      w[i / 8] := w[i / 8] + b[|b| - 1 - i] * Pow(256, i % 8);
      assert w[..] == next;
    }
    LoadedHigh(w[..], b);
    ok := true;
  }

  lemma LoadedNone(w: seq<u64>, b: seq<byte>)
    requires (|b| + 7) / 8 <= |w| && forall j :: 0 <= j < |w| ==> w[j] == 0
    ensures Loaded(w, b, 0)
  {
    ValueZero(w);
    assert b[|b|..] == [];
  }

  lemma LoadedHigh(w: seq<u64>, b: seq<byte>)
    requires Loaded(w, b, |b|)
    ensures Value(w) == BE(b)
    ensures forall j :: (|b| + 7) / 8 <= j < |w| ==> w[j] == 0
  {
    assert b[0..] == b;
    if |b| % 8 == 0 {
      assert (|b| + 7) / 8 == |b| / 8;
    } else {
      assert (|b| + 7) / 8 == |b| / 8 + 1;
    }
  }

  lemma ByteFits(w: nat, k: nat, b: byte)
    requires k < 8 && w < Pow(256, k)
    ensures b * Pow(256, k) >= 0
    ensures w + b * Pow(256, k) < Pow(256, k + 1) <= LIMB
  {
    LimbIsEightBytes();
    PowMonotone(256, k + 1, 8);
    assert b * Pow(256, k) <= 255 * Pow(256, k);
  }

  lemma BytePlace(i: nat, b: byte)
    ensures Pow(LIMB, i / 8) * (b * Pow(256, i % 8)) == b * Pow(256, i)
  {
    LimbPower(i / 8);
    PowAdd(256, 8 * (i / 8), i % 8);
    Associate(Pow(256, 8 * (i / 8)), b, Pow(256, i % 8));
    Associate(b, Pow(256, 8 * (i / 8)), Pow(256, i % 8));
  }

  /** Byte k of a word, the low byte of the word shifted right by 8 k. */
  function ByteOf(w: nat, k: nat): byte {
    if k == 0 then w % 256 else ByteOf(w / 256, k - 1)
  }

  ghost function WordBytes(w: nat, n: nat): (b: seq<byte>)
    ensures |b| == n && forall k :: 0 <= k < n ==> b[k] == ByteOf(w, k)
  {
    if n == 0 then [] else [ByteOf(w, 0)] + WordBytes(w / 256, n - 1)
  }

  lemma {:induction false} WordBytesValue(w: nat, n: nat)
    requires w < Pow(256, n)
    ensures LE(WordBytes(w, n)) == w
  {
    if n == 0 {
    } else {
      assert Pow(256, n) == 256 * Pow(256, n - 1);
      WordBytesValue(w / 256, n - 1);
      assert WordBytes(w, n)[1..] == WordBytes(w / 256, n - 1);
    }
  }

  /** All bytes of a limb sequence, least significant first. */
  ghost function AllBytes(w: seq<u64>): seq<byte> {
    seq(8 * |w|, i requires 0 <= i < 8 * |w| => ByteOf(w[i / 8], i % 8))
  }

  lemma {:induction false} AllBytesValue(w: seq<u64>)
    ensures LE(AllBytes(w)) == Value(w)
  {
    if w == [] {
    } else {
      AllBytesValue(w[1..]);
      LimbIsEightBytes();
      WordBytesValue(w[0], 8);
      AllBytesSplit(w);
      LESplit(AllBytes(w), 8);
    }
  }

  lemma AllBytesSplit(w: seq<u64>)
    requires w != []
    ensures AllBytes(w)[..8] == WordBytes(w[0], 8) && AllBytes(w)[8..] == AllBytes(w[1..])
  {
    hide ByteOf;
    var b, rest := AllBytes(w), AllBytes(w[1..]);
    forall i | 0 <= i < |rest|
      ensures b[8..][i] == rest[i]
    {
      assert (i + 8) / 8 == i / 8 + 1 && (i + 8) % 8 == i % 8;
    }
  }

  /** The low bytes of a number that fits in them are the number. */
  lemma LowBytes(b: seq<byte>, n: nat)
    requires n <= |b| && LE(b) < Pow(256, n)
    ensures LE(b[..n]) == LE(b)
  {
    LESplit(b, n);
    NoHigh(LE(b), LE(b[..n]), Pow(256, n), LE(b[n..]));
  }

  lemma NoHigh(x: nat, low: nat, p: nat, high: nat)
    requires x == low + p * high && x < p
    ensures x == low
  {
    if high > 0 {
      MulAtLeast(high, p);
    }
  }

  /** The limbs of a value that fits, written big-endian over the destination. */
  method LimbsToBE(dst: array<byte>, w: array<u64>)
    requires dst.Length <= 8 * w.Length && Value(w[..]) < Pow(256, dst.Length)
    modifies dst
    ensures BE(dst[..]) == Value(w[..])
  {
    var n := dst.Length;
    for i := 0 to n
      invariant forall k :: n - i <= k < n ==> dst[k] == ByteOf(w[(n - 1 - k) / 8], (n - 1 - k) % 8)
    {
      dst[n - 1 - i] := ByteOf(w[i / 8], i % 8);
    }
    AllBytesValue(w[..]);
    LowBytes(AllBytes(w[..]), n);
    BEReversed(dst[..]);
    assert Reversed(dst[..]) == AllBytes(w[..])[..n];
  }

  /** One bit of the dividend. */
  lemma ModStep(acc: nat, bit: nat, m: nat, r: nat)
    requires m > 0 && bit <= 1 && r == acc % m
    ensures (2 * acc + bit) % m == if 2 * r + bit >= m then 2 * r + bit - m else 2 * r + bit
  {
    Quotient(acc, m);
    ModDouble(acc, bit, m, acc / m, r);
  }

  lemma ModDouble(acc: nat, bit: nat, m: nat, q: nat, r: nat)
    requires bit <= 1 && r < m && acc == m * q + r
    ensures (2 * acc + bit) % m == if 2 * r + bit >= m then 2 * r + bit - m else 2 * r + bit
  {
    var s := 2 * r + bit;
    MulTwice(m, q);
    if s >= m {
      Remainder(2 * acc + bit, m, 2 * q + 1, s - m);
    } else {
      Remainder(2 * acc + bit, m, 2 * q, s);
    }
  }

  /** A byte shifted right. */
  function Shr(b: nat, k: nat): nat {
    if k == 0 then b else Shr(b, k - 1) / 2
  }

  /** What has been shifted in once the lowest k bits of b are still to come. */
  ghost function Joined(acc: nat, b: byte, k: nat): nat
    requires k <= 8
    decreases 8 - k
  {
    if k == 8 then acc else 2 * Joined(acc, b, k + 1) + Shr(b, k) % 2
  }

  /** Eight bits in, the accumulator has taken one more byte. */
  lemma JoinedByte(acc: nat, b: byte)
    ensures Joined(acc, b, 0) == acc * 256 + b
  {
    assert Shr(b, 1) <= 127;
    assert Shr(b, 2) == Shr(b, 1) / 2;
    assert Shr(b, 3) == Shr(b, 2) / 2;
    assert Shr(b, 4) == Shr(b, 3) / 2;
    assert Shr(b, 5) == Shr(b, 4) / 2;
    assert Shr(b, 6) == Shr(b, 5) / 2;
    assert Shr(b, 7) == Shr(b, 6) / 2;
    assert Shr(b, 8) == Shr(b, 7) / 2 == 0;
    JoinedBit(acc, b, 7);
    JoinedBit(acc, b, 6);
    JoinedBit(acc, b, 5);
    JoinedBit(acc, b, 4);
    JoinedBit(acc, b, 3);
    JoinedBit(acc, b, 2);
    JoinedBit(acc, b, 1);
    JoinedBit(acc, b, 0);
  }

  lemma JoinedBit(acc: nat, b: byte, k: nat)
    requires k < 8
    ensures Joined(acc, b, k) - Shr(b, k) == 2 * (Joined(acc, b, k + 1) - Shr(b, k + 1))
  {
    assert Shr(b, k + 1) == Shr(b, k) / 2;
  }

  /**
   * One bit through the accumulator: double, subtract, keep the difference
   * unless it borrowed. The doubling never carries out of the nl limbs.
   */
  method ReduceBit(r: array<u64>, t: array<u64>, m: array<u64>, nl: nat, bit: nat, ghost acc: nat)
    requires r.Length == t.Length == m.Length && 0 < nl <= r.Length && r != t && r != m && t != m
    requires bit <= 1 && 0 < Value(m[..nl]) < Pow(LIMB, nl - 1)
    requires Value(r[..nl]) == acc % Value(m[..nl])
    modifies r, t
    ensures Value(r[..nl]) == (2 * acc + bit) % Value(m[..nl])
    ensures r[nl..] == old(r[nl..])
  {
    ghost var r0, mv := Value(r[..nl]), Value(m[..nl]);
    ModStep(acc, bit, mv, r0);
    var carry := ShiftIn(r, nl, bit);
    NoCarry(Pow(LIMB, nl - 1), mv, r0, bit, carry, Value(r[..nl]));
    var borrow := Subtract(t, r, m, nl);
    ValueBound(t[..nl]);
    BorrowDecides(Pow(LIMB, nl), Value(r[..nl]), mv, borrow, Value(t[..nl]));
    Select(r, t, nl, borrow);
  }

  lemma NoCarry(p: nat, m: nat, r: nat, bit: nat, carry: nat, v: nat)
    requires r < m < p && bit <= 1 && carry <= 1 && v + carry * (LIMB * p) == 2 * r + bit
    ensures carry == 0 && v == 2 * r + bit
  {
  }

  lemma BorrowDecides(p: nat, v: nat, m: nat, borrow: nat, t: nat)
    requires borrow <= 1 && t < p && t == v - m + borrow * p
    ensures borrow == 0 <==> v >= m
    ensures borrow == 0 ==> t == v - m
  {
  }

  /** Keeps the difference when it did not borrow. */
  method Select(r: array<u64>, t: array<u64>, nl: nat, borrow: nat)
    requires nl <= r.Length && nl <= t.Length && r != t
    modifies r
    ensures r[..nl] == if borrow == 0 then t[..nl] else old(r[..nl])
    ensures r[nl..] == old(r[nl..])
  {
    ghost var was := r[..];
    for i := 0 to nl
      invariant forall j :: 0 <= j < i ==> r[j] == if borrow == 0 then t[j] else was[j]
      invariant forall j :: i <= j < r.Length ==> r[j] == was[j]
    {
      r[i] := if borrow == 0 then t[i] else r[i];
    }
  }

  /** One byte of the dividend, most significant bit first. */
  method ReduceByte(r: array<u64>, t: array<u64>, m: array<u64>, nl: nat, b: byte, ghost acc: nat)
    requires r.Length == t.Length == m.Length && 0 < nl <= r.Length && r != t && r != m && t != m
    requires 0 < Value(m[..nl]) < Pow(LIMB, nl - 1)
    requires Value(r[..nl]) == acc % Value(m[..nl])
    modifies r, t
    ensures Value(r[..nl]) == (acc * 256 + b) % Value(m[..nl])
    ensures r[nl..] == old(r[nl..])
  {
    ghost var high := r[nl..];
    var bit := 7;
    while bit >= 0
      invariant -1 <= bit <= 7
      invariant Value(r[..nl]) == Joined(acc, b, bit + 1) % Value(m[..nl])
      invariant r[nl..] == high
    {
      ReduceBit(r, t, m, nl, Shr(b, bit) % 2, Joined(acc, b, bit + 1));
      bit := bit - 1;
    }
    JoinedByte(acc, b);
  }

  /** All bytes of the dividend into a cleared accumulator. */
  method ReduceBytes(r: array<u64>, t: array<u64>, m: array<u64>, nl: nat, x: seq<byte>)
    requires r.Length == t.Length == m.Length && 0 < nl <= r.Length && r != t && r != m && t != m
    requires 0 < Value(m[..nl]) < Pow(LIMB, nl - 1)
    requires forall i :: 0 <= i < r.Length ==> r[i] == 0
    modifies r, t
    ensures Value(r[..]) == BE(x) % Value(m[..nl])
  {
    ghost var high, modulus := r[nl..], m[..nl];
    ValueZero(r[..nl]);
    ghost var acc := 0;
    for i := 0 to |x|
      invariant acc == BE(x[..i])
      invariant m[..nl] == modulus && r[nl..] == high
      invariant Value(r[..nl]) == acc % Value(modulus)
    {
      ReduceByte(r, t, m, nl, x[i], acc);
      BEPrefix(x, i);
      acc := acc * 256 + x[i];
    }
    assert x[..|x|] == x;
    ZeroAbove(r[..], nl, high);
  }

  lemma ZeroAbove(w: seq<u64>, nl: nat, high: seq<u64>)
    requires nl <= |w| && w[nl..] == high && forall i :: 0 <= i < |high| ==> high[i] == 0
    ensures Value(w) == Value(w[..nl])
  {
    assert forall j :: nl <= j < |w| ==> w[j] == high[j - nl];
    ValueTrim(w, nl);
  }

  /** Whether any of the first nl limbs has a bit set. */
  method NonZero(m: array<u64>, nl: nat) returns (nonzero: bool)
    requires nl <= m.Length
    ensures nonzero <==> Value(m[..nl]) != 0
  {
    nonzero := false;
    for i := 0 to nl
      invariant nonzero ==> Value(m[..nl]) != 0
      invariant !nonzero ==> forall j :: 0 <= j < i ==> m[j] == 0
    {
      if m[i] != 0 {
        ValueNonZero(m[..nl], i);
        nonzero := true;
      }
    }
    if !nonzero {
      ValueZero(m[..nl]);
    }
  }

  predicate Admissible(dst: nat, x: seq<byte>, m: seq<byte>) {
    0 < |m| && |m| * 8 <= MAX_PRIME_BITS && |x| * 8 <= MAX_MODULUS_BITS && dst == |m| && BE(m) != 0
  }

  /** x mod m, in m's width; anything inadmissible leaves the destination untouched. */
  method ReduceMod(dst: array<byte>, x: seq<byte>, m: seq<byte>) returns (ok: bool)
    modifies dst
    ensures ok <==> Admissible(dst.Length, x, m)
    ensures ok ==> BE(dst[..]) == BE(x) % BE(m)
    ensures !ok ==> dst[..] == old(dst[..])
  {
    if |m| == 0 || |m| * 8 > MAX_PRIME_BITS || |x| * 8 > MAX_MODULUS_BITS || dst.Length != |m| {
      return false;
    }
    var mw := new u64[LIMBS](_ => 0);
    var r := new u64[LIMBS](_ => 0);
    var t := new u64[LIMBS](_ => 0);
    var loaded := SetLimbs(mw, m);
    var nl := (|m| + 7) / 8 + 1;
    ValueTrim(mw[..], nl);
    assert mw[..][..nl] == mw[..nl];
    var nonzero := NonZero(mw, nl);
    if !nonzero {
      return false;
    }
    ModulusFits(m, nl);
    ReduceBytes(r, t, mw, nl, x);
    BEBound(m);
    LimbsToBE(dst, r);
    ok := true;
  }

  lemma ModulusFits(m: seq<byte>, nl: nat)
    requires nl == (|m| + 7) / 8 + 1
    ensures BE(m) < Pow(LIMB, nl - 1)
  {
    BEBound(m);
    LimbPower(nl - 1);
    PowMonotone(256, |m|, 8 * (nl - 1));
  }

  /** p - 1, borrow running from the last byte; true exactly when p is at least 1. */
  method Decrement(dst: array<byte>, p: seq<byte>) returns (ok: bool)
    modifies dst
    ensures ok <==> dst.Length == |p| && BE(p) >= 1
    ensures ok ==> BE(dst[..]) == BE(p) - 1
    ensures dst.Length != |p| ==> dst[..] == old(dst[..])
    ensures dst.Length == |p| && BE(p) == 0 ==> BE(dst[..]) == Pow(256, |p|) - 1
  {
    hide BE, Pow, Lowered;
    if dst.Length != |p| {
      return false;
    }
    var borrow := 1;
    var i := |p|;
    assert p[i..] == [] && dst[i..] == [];
    LowerNothing();
    while i > 0
      invariant 0 <= i <= |p| && 0 <= borrow <= 1
      invariant Lowered(dst[i..], p[i..], borrow)
    {
      i := i - 1;
      ghost var low, was := dst[i + 1..], borrow;
      var v: int := if p[i] >= borrow then p[i] - borrow else p[i] - borrow + 65536;
      dst[i] := v % 256;
      borrow := v / 32768;
      assert dst[i..] == [dst[i]] + low && p[i..] == [p[i]] + p[i + 1..];
      LowerByte(low, p[i + 1..], was, dst[i], p[i], borrow);
    }
    assert dst[0..] == dst[..] && p[0..] == p;
    LoweredAll(dst[..], p, borrow);
    ok := borrow == 0;
  }

  lemma LowerNothing()
    ensures Lowered([], [], 1)
  {
  }

  /** The last borrow says whether there was anything to take one from. */
  lemma LoweredAll(d: seq<byte>, p: seq<byte>, borrow: nat)
    requires Lowered(d, p, borrow)
    ensures borrow == 0 <==> BE(p) >= 1
    ensures borrow == 0 ==> BE(d) == BE(p) - 1
    ensures borrow == 1 ==> BE(d) == Pow(256, |p|) - 1 && BE(p) == 0
  {
    hide BE, Pow;
    BEBound(d);
    BEBound(p);
  }

  ghost predicate Lowered(d: seq<byte>, p: seq<byte>, borrow: nat) {
    |d| == |p| && borrow <= 1 && BE(d) == BE(p) - 1 + borrow * Pow(256, |p|)
  }

  lemma LowerByte(d: seq<byte>, p: seq<byte>, b: nat, d0: byte, p0: byte, b': nat)
    requires Lowered(d, p, b) && b' <= 1 && d0 == p0 - b + 256 * b'
    ensures Lowered([d0] + d, [p0] + p, b')
  {
    assert |[d0] + d| == |d| + 1;
    BEFirst([d0] + d);
    BEFirst([p0] + p);
    assert ([d0] + d)[1..] == d && ([p0] + p)[1..] == p;
    DecrementPlace(p0, b, d0, b', Pow(256, |p|));
  }

  lemma DecrementPlace(p: byte, b: nat, d: byte, b': nat, place: nat)
    requires b <= 1 && b' <= 1 && d == p - b + 256 * b'
    ensures d * place == p * place - b * place + b' * (256 * place)
  {
    Associate(b', 256, place);
    assert (p - b + 256 * b') * place == p * place - b * place + (256 * b') * place;
  }
}
