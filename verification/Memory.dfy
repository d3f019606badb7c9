/**
 * One byte memory that every slice is a window of, so that two slices may
 * overlap, and the block copies the in-place code is made of.
 */
module Memory {
  import opened Numbers

  /** Exclusive or of the lowest n bits. */
  function XorBits(a: nat, b: nat, n: nat): (x: nat)
    ensures x < Pow(2, n)
  {
    if n == 0 then 0 else (a % 2 + b % 2) % 2 + 2 * XorBits(a / 2, b / 2, n - 1)
  }

  function Xor(a: byte, b: byte): byte {
    TwoToTheEighth();
    XorBits(a, b, 8)
  }

  lemma TwoToTheEighth()
    ensures Pow(2, 8) == 256
  {
    PowAdd(2, 4, 4);
    PowAdd(2, 2, 2);
    assert Pow(2, 1) == 2;
  }

  lemma {:induction false} XorBitsTwice(a: nat, b: nat, n: nat)
    requires a < Pow(2, n)
    ensures XorBits(XorBits(a, b, n), b, n) == a
  {
    if n == 0 {
    } else {
      HalfBelow(a, Pow(2, n - 1));
      XorBitsTwice(a / 2, b / 2, n - 1);
      TopTwice(a, b, n, XorBits(a / 2, b / 2, n - 1));
    }
  }

  /** The lowest bit, and the rest as it is. */
  lemma TopTwice(a: nat, b: nat, n: nat, rest: nat)
    requires n > 0 && rest == XorBits(a / 2, b / 2, n - 1) && XorBits(rest, b / 2, n - 1) == a / 2
    ensures XorBits(XorBits(a, b, n), b, n) == a
  {
    hide XorBits;
    var bit := (a % 2 + b % 2) % 2;
    var x := bit + 2 * rest;
    BitTwice(a, b, bit, rest);
    XorBitsNext(a, b, n);
    XorBitsNext(x, b, n);
  }

  lemma XorBitsNext(a: nat, b: nat, n: nat)
    requires n > 0
    ensures XorBits(a, b, n) == (a % 2 + b % 2) % 2 + 2 * XorBits(a / 2, b / 2, n - 1)
  {
  }

  lemma HalfBelow(a: nat, p: nat)
    requires a < 2 * p
    ensures a / 2 < p
  {
  }

  lemma BitTwice(a: nat, b: nat, bit: nat, rest: nat)
    requires bit == (a % 2 + b % 2) % 2
    ensures (bit + 2 * rest) / 2 == rest
    ensures ((bit + 2 * rest) % 2 + b % 2) % 2 == a % 2
  {
  }

  /** The i-th bit, from the lowest. */
  function Bit(a: nat, i: nat): nat { if i == 0 then a % 2 else Bit(a / 2, i - 1) }

  /** A bit of the exclusive or is set exactly when one of the two is. */
  lemma XorBit(a: byte, b: byte, i: nat)
    requires i < 8
    ensures Bit(Xor(a, b), i) == if Bit(a, i) != Bit(b, i) then 1 else 0
  {
    XorBitsBit(a, b, 8, i);
  }

  lemma {:induction false} XorBitsBit(a: nat, b: nat, n: nat, i: nat)
    requires i < n
    ensures Bit(XorBits(a, b, n), i) == if Bit(a, i) != Bit(b, i) then 1 else 0
  {
    var rest := XorBits(a / 2, b / 2, n - 1);
    BitTwice(a, b, (a % 2 + b % 2) % 2, rest);
    if i > 0 {
      XorBitsBit(a / 2, b / 2, n - 1, i - 1);
    }
  }

  /** A mask applied twice is gone. */
  lemma XorTwice(a: byte, b: byte)
    ensures Xor(Xor(a, b), b) == a
  {
    TwoToTheEighth();
    XorBitsTwice(a, b, 8);
  }

  function XorEach(s: seq<byte>, c: byte): (r: seq<byte>)
    ensures |r| == |s| && forall i :: 0 <= i < |s| ==> r[i] == Xor(s[i], c)
  {
    seq(|s|, i requires 0 <= i < |s| => Xor(s[i], c))
  }

  function XorSeq(a: seq<byte>, b: seq<byte>): (r: seq<byte>)
    requires |a| == |b|
    ensures |r| == |a| && forall i :: 0 <= i < |a| ==> r[i] == Xor(a[i], b[i])
  {
    seq(|a|, i requires 0 <= i < |a| => Xor(a[i], b[i]))
  }

  /** A window of the memory. */
  datatype Span = Span(lo: nat, len: nat) {
    function hi(): nat {
      lo + len
    }

    predicate Disjoint(other: Span) {
      hi() <= other.lo || other.hi() <= lo
    }
  }

  /** Bytes handed to a routine: its own copy, or a window of the memory. */
  datatype View = Ext(bytes: seq<byte>) | In(span: Span) {
    predicate Fits(n: nat) {
      In? ==> span.hi() <= n
    }

    /** Nothing written inside the window w is seen through this view. */
    predicate Apart(w: Span) {
      In? ==> span.Disjoint(w)
    }

    function Bytes(m: seq<byte>): (b: seq<byte>)
      requires Fits(|m|)
    {
      if Ext? then bytes else m[span.lo..span.hi()]
    }
  }

  /** The memory with data laid down at `at`. */
  function Write(m: seq<byte>, at: nat, data: seq<byte>): (r: seq<byte>)
    requires at + |data| <= |m|
    ensures |r| == |m|
  {
    m[..at] + data + m[at + |data|..]
  }

  lemma WriteAt(m: seq<byte>, at: nat, data: seq<byte>, i: nat)
    requires at + |data| <= |m| && i < |m|
    ensures Write(m, at, data)[i] == if at <= i < at + |data| then data[i - at] else m[i]
  {
  }

  lemma SubSlice(m: seq<byte>, lo: nat, len: nat, off: nat, n: nat)
    requires lo + len <= |m| && off + n <= len
    ensures m[lo..lo + len][off..off + n] == m[lo + off..lo + off + n]
  {
    var a, b := m[lo..lo + len][off..off + n], m[lo + off..lo + off + n];
    forall i | 0 <= i < n
      ensures a[i] == b[i]
    {
      assert m[lo..lo + len][off + i] == m[lo + off + i];
    }
    assert a == b;
  }

  lemma WriteNothing(m: seq<byte>, at: nat)
    requires at <= |m|
    ensures Write(m, at, []) == m
  {
  }

  lemma WriteSelf(m: seq<byte>, w: Span)
    requires w.hi() <= |m|
    ensures Write(m, w.lo, m[w.lo..w.hi()]) == m
  {
  }

  lemma WriteRead(m: seq<byte>, at: nat, data: seq<byte>)
    requires at + |data| <= |m|
    ensures Write(m, at, data)[at..at + |data|] == data
  {
  }

  /** A view apart from what was written still shows the same bytes. */
  lemma ViewApart(m: seq<byte>, at: nat, data: seq<byte>, v: View, w: Span)
    requires at + |data| <= |m| && v.Fits(|m|) && v.Apart(w) && w.lo <= at && at + |data| <= w.hi()
    ensures v.Bytes(Write(m, at, data)) == v.Bytes(m)
  {
  }

  /** Data laid down right behind data. */
  lemma WriteOn(m: seq<byte>, at: nat, a: seq<byte>, b: seq<byte>)
    requires at + |a| + |b| <= |m|
    ensures Write(Write(m, at, a), at + |a|, b) == Write(m, at, a + b)
  {
  }

  /** Data laid down over the front of data. */
  lemma WriteFront(m: seq<byte>, at: nat, a: seq<byte>, b: seq<byte>)
    requires at + |a| <= |m| && |b| <= |a|
    ensures Write(Write(m, at, a), at, b) == Write(m, at, b + a[|b|..])
  {
  }

  lemma WriteOver(m: seq<byte>, at: nat, a: seq<byte>, b: seq<byte>)
    requires at + |a| <= |m| && |b| == |a|
    ensures Write(Write(m, at, a), at, b) == Write(m, at, b)
  {
  }

  /** What a later write covers does not show. */
  lemma WriteInside(m: seq<byte>, at: nat, data: seq<byte>, lo: nat, cover: seq<byte>)
    requires lo <= at && at + |data| <= lo + |cover| <= |m|
    ensures Write(Write(m, at, data), lo, cover) == Write(m, lo, cover)
  {
  }

  lemma WriteCommute(m: seq<byte>, a: nat, x: seq<byte>, b: nat, y: seq<byte>)
    requires a + |x| <= |m| && b + |y| <= |m| && Span(a, |x|).Disjoint(Span(b, |y|))
    ensures Write(Write(m, a, x), b, y) == Write(Write(m, b, y), a, x)
  {
    var l, r := Write(Write(m, a, x), b, y), Write(Write(m, b, y), a, x);
    assert forall i :: 0 <= i < |m| ==> l[i] == r[i];
  }

  /** A write inside a window is a write to the window's own contents. */
  lemma WriteNested(m: seq<byte>, lo: nat, window: seq<byte>, at: nat, data: seq<byte>)
    requires lo + |window| <= |m| && at + |data| <= |window|
    ensures Write(Write(m, lo, window), lo + at, data) == Write(m, lo, Write(window, at, data))
  {
  }

  lemma WriteNestedTwice(m: seq<byte>, lo: nat, window: seq<byte>, a: nat, x: seq<byte>, b: nat, y: seq<byte>)
    requires lo + |window| <= |m| && a + |x| <= |window| && b + |y| <= |window|
    ensures Write(Write(Write(m, lo, window), lo + a, x), lo + b, y)
         == Write(m, lo, Write(Write(window, a, x), b, y))
  {
    hide Write;
    WriteNested(m, lo, window, a, x);
    WriteNested(m, lo, Write(window, a, x), b, y);
  }

  lemma ReadNested(m: seq<byte>, lo: nat, window: seq<byte>, at: nat, n: nat)
    requires lo + |window| <= |m| && at + n <= |window|
    ensures Write(m, lo, window)[lo + at..lo + at + n] == window[at..at + n]
  {
  }

  lemma ReadApart(m: seq<byte>, at: nat, data: seq<byte>, lo: nat, n: nat)
    requires at + |data| <= |m| && lo + n <= |m| && Span(at, |data|).Disjoint(Span(lo, n))
    ensures Write(m, at, data)[lo..lo + n] == m[lo..lo + n]
  {
    hide Write;
    forall i | lo <= i < lo + n
      ensures Write(m, at, data)[i] == m[i]
    {
      WriteAt(m, at, data, i);
    }
  }

  lemma ReadBehind(m: seq<byte>, at: nat, a: seq<byte>, b: seq<byte>)
    requires at + |a| + |b| <= |m| && m[at..at + |a|] == a
    ensures Write(m, at + |a|, b)[at..at + |a| + |b|] == a + b
  {
  }

  /** Output grown by one piece, beside a window. */
  lemma WriteGrow(m: seq<byte>, at: nat, out: seq<byte>, x: seq<byte>, lo: nat, window: seq<byte>)
    requires at + |out| + |x| <= |m| && lo + |window| <= |m|
    requires Span(at, |out| + |x|).Disjoint(Span(lo, |window|))
    ensures Write(Write(Write(m, at, out), lo, window), at + |out|, x) == Write(Write(m, at, out + x), lo, window)
  {
    hide Write;
    WriteCommute(Write(m, at, out), lo, window, at + |out|, x);
    WriteOn(m, at, out, x);
  }

  /** The source's copy: data laid down at `at`, nothing else touched. */
  method Copy(mem: array<byte>, at: nat, data: seq<byte>)
    requires at + |data| <= mem.Length
    modifies mem
    ensures mem[..] == Write(old(mem[..]), at, data)
  {
    for i := 0 to |data|
      invariant forall k :: 0 <= k < i ==> mem[at + k] == data[k]
      invariant forall k :: 0 <= k < mem.Length && !(at <= k < at + i) ==> mem[k] == old(mem[k])
    {
      mem[at + i] := data[i];
    }
  }

  /** Every byte of a window masked with one constant. */
  method XorConst(mem: array<byte>, w: Span, c: byte)
    requires w.hi() <= mem.Length
    modifies mem
    ensures mem[..] == Write(old(mem[..]), w.lo, XorEach(old(mem[..])[w.lo..w.hi()], c))
  {
    hide Xor;
    ghost var was := mem[..];
    for i := 0 to w.len
      invariant forall k :: w.lo <= k < w.lo + i ==> mem[k] == Xor(was[k], c)
      invariant forall k :: 0 <= k < mem.Length && !(w.lo <= k < w.lo + i) ==> mem[k] == was[k]
    {
      mem[w.lo + i] := Xor(mem[w.lo + i], c);
    }
  }
}
