/** Counter mode over an open block cipher, in place. */
module Ctr {
  import opened Numbers
  import opened Memory

  const BLOCK := 16

  /** The carry stops at the first byte that does not turn over. */
  function Inc(b: seq<byte>): (r: seq<byte>)
    ensures |r| == |b|
  {
    if b == [] then []
    else if b[|b| - 1] == 255 then Inc(b[..|b| - 1]) + [0]
    else b[..|b| - 1] + [b[|b| - 1] + 1]
  }

  lemma {:induction false} IncToBE(v: nat, n: nat)
    ensures Inc(ToBE(v, n)) == ToBE(v + 1, n)
  {
    if n == 0 {
    } else {
      assert ToBE(v, n)[..n - 1] == ToBE(v / 256, n - 1);
      IncToBE(v / 256, n - 1);
      CarryNext(v);
    }
  }

  lemma CarryNext(v: nat)
    ensures if v % 256 == 255 then (v + 1) / 256 == v / 256 + 1 && (v + 1) % 256 == 0
            else (v + 1) / 256 == v / 256 && (v + 1) % 256 == v % 256 + 1
  {
  }

  lemma {:induction false} IncTail(b: seq<byte>, k: nat)
    requires k <= |b| && forall j :: k <= j < |b| ==> b[j] == 255
    ensures Inc(b) == Inc(b[..k]) + Zeros(|b| - k)
  {
    if k < |b| {
      IncTail(b[..|b| - 1], k);
      assert b[..|b| - 1][..k] == b[..k];
      assert Zeros(|b| - k) == Zeros(|b| - 1 - k) + [0];
    } else {
      assert b[..k] == b;
    }
  }

  /** One more, from the last byte up. */
  method Increment(ctr: array<byte>, n: nat)
    requires n <= ctr.Length
    modifies ctr
    ensures ctr[..n] == Inc(old(ctr[..n]))
    ensures ctr[n..] == old(ctr[n..])
  {
    ghost var was := ctr[..];
    var i := n;
    while i > 0
      invariant 0 <= i <= n
      invariant forall j :: i <= j < n ==> was[j] == 255 && ctr[j] == 0
      invariant forall j :: 0 <= j < i || n <= j < ctr.Length ==> ctr[j] == was[j]
    {
      i := i - 1;
      if ctr[i] != 255 {
        ctr[i] := ctr[i] + 1;
        IncTail(was[..n], i + 1);
        assert was[..n][..i + 1] == was[..i + 1];
        assert ctr[..n] == was[..i] + [was[i] + 1] + Zeros(n - i - 1);
        assert was[..n] == old(ctr[..n]);
        return;
      }
      ctr[i] := 0;
    }
    IncTail(was[..n], 0);
    assert was[..n][..0] == [];
    assert ctr[..n] == [] + Zeros(n);
    assert was[..n] == old(ctr[..n]);
  }

  // The mode.

  type Cipher = seq<byte> -> seq<byte>

  ghost predicate Lawful(enc: Cipher) {
    forall b :: |enc(b)| == BLOCK
  }

  /** The i-th counter block: iv + i, modulo 2^128. */
  function Counter(iv: seq<byte>, i: nat): (b: seq<byte>)
    ensures |b| == BLOCK
  {
    ToBE(BE(iv) + i, BLOCK)
  }

  /** The first n blocks of key stream. */
  function Stream(enc: Cipher, iv: seq<byte>, n: nat): (s: seq<byte>)
    requires Lawful(enc)
    ensures |s| == n * BLOCK
  {
    if n == 0 then [] else Stream(enc, iv, n - 1) + enc(Counter(iv, n - 1))
  }

  function Apply(enc: Cipher, iv: seq<byte>, data: seq<byte>): (r: seq<byte>)
    requires Lawful(enc)
    ensures |r| == |data|
  {
    var n := (|data| + BLOCK - 1) / BLOCK;
    XorSeq(data, Stream(enc, iv, n)[..|data|])
  }

  /** Byte by byte: the data's byte with that of the encrypted counter iv + i, taken modulo 2^128, of its block i. */
  lemma ApplyAt(enc: Cipher, iv: seq<byte>, data: seq<byte>, j: nat)
    requires Lawful(enc) && j < |data|
    ensures Apply(enc, iv, data)[j] == Xor(data[j], enc(ToBE(BE(iv) + j / 16, 16))[j % 16])
  {
    hide Xor, Stream;
    var n, i := (|data| + BLOCK - 1) / BLOCK, j / 16;
    BlockOf(|data|, j);
    StreamBlock(enc, iv, n, i);
    var ks := Stream(enc, iv, n);
    assert ks[i * BLOCK..i * BLOCK + BLOCK][j % 16] == ks[j];
  }

  lemma BlockOf(len: nat, j: nat)
    requires j < len
    ensures j / 16 < (len + BLOCK - 1) / BLOCK && j == j / 16 * BLOCK + j % 16 && len <= (len + BLOCK - 1) / BLOCK * BLOCK
  {
  }

  /** Applied twice, the data is back. */
  lemma ApplyTwice(enc: Cipher, iv: seq<byte>, data: seq<byte>)
    requires Lawful(enc)
    ensures Apply(enc, iv, Apply(enc, iv, data)) == data
  {
    hide Xor;
    var n := (|data| + BLOCK - 1) / BLOCK;
    var ks := Stream(enc, iv, n)[..|data|];
    forall i | 0 <= i < |data|
      ensures Apply(enc, iv, Apply(enc, iv, data))[i] == data[i]
    {
      XorTwice(data[i], ks[i]);
    }
  }

  /** dst[i] = src[i] ^ ks[i]; the two windows are the same or apart. */
  method XorBlock(mem: array<byte>, dst: nat, src: nat, n: nat, ks: seq<byte>)
    requires n <= |ks| && dst + n <= mem.Length && src + n <= mem.Length
    requires dst == src || Span(dst, n).Disjoint(Span(src, n))
    modifies mem
    ensures mem[..] == Write(old(mem[..]), dst, XorSeq(old(mem[..])[src..src + n], ks[..n]))
  {
    hide Write, Xor, XorSeq;
    ghost var m0 := mem[..];
    ghost var x := XorSeq(m0[src..src + n], ks[..n]);
    WriteNothing(m0, dst);
    assert x[..0] == [];
    for i := 0 to n
      invariant mem[..] == Write(m0, dst, x[..i])
    {
      ghost var m := mem[..];
      WriteAt(m0, dst, x[..i], src + i);
      XorAt(m0, src, n, ks, i);
      mem[dst + i] := Xor(mem[src + i], ks[i]);
      WriteOne(m, mem[..], dst + i);
      WriteOn(m0, dst, x[..i], [mem[dst + i]]);
      assert x[..i + 1] == x[..i] + [x[i]];
    }
    assert x[..n] == x;
  }

  lemma XorAt(m: seq<byte>, src: nat, n: nat, ks: seq<byte>, i: nat)
    requires src + n <= |m| && i < n <= |ks|
    ensures XorSeq(m[src..src + n], ks[..n])[i] == Xor(m[src + i], ks[i])
  {
    hide Xor;
  }

  lemma WriteOne(m: seq<byte>, m': seq<byte>, at: nat)
    requires at < |m| == |m'| && m' == m[at := m'[at]]
    ensures m' == Write(m, at, [m'[at]])
  {
  }

  lemma XorSplit(a: seq<byte>, b: seq<byte>, p: nat, q: nat)
    requires |a| == |b| && p <= q <= |a|
    ensures XorSeq(a, b)[..q] == XorSeq(a, b)[..p] + XorSeq(a[p..q], b[p..q])
  {
    hide Xor;
  }

  lemma StreamNext(enc: Cipher, iv: seq<byte>, data: seq<byte>, i: nat, n: nat)
    requires Lawful(enc) && |iv| == BLOCK && i * BLOCK + n <= |data| && 0 < n <= BLOCK
    ensures Apply(enc, iv, data)[..i * BLOCK + n]
         == Apply(enc, iv, data)[..i * BLOCK] + XorSeq(data[i * BLOCK..i * BLOCK + n], enc(Counter(iv, i))[..n])
  {
    hide Xor, XorSeq, Counter, Stream;
    var blocks, off := (|data| + BLOCK - 1) / BLOCK, i * BLOCK;
    StreamBlock(enc, iv, blocks, i);
    var ks := Stream(enc, iv, blocks);
    XorSplit(data, ks[..|data|], off, off + n);
    SliceInPrefix(ks, |data|, off, n, BLOCK);
  }

  lemma {:induction false} StreamBlock(enc: Cipher, iv: seq<byte>, n: nat, i: nat)
    requires Lawful(enc) && i < n
    ensures Stream(enc, iv, n)[i * BLOCK..i * BLOCK + BLOCK] == enc(Counter(iv, i))
  {
    if i >= n - 1 {
    } else {
      StreamBlock(enc, iv, n - 1, i);
    }
  }

  /** One block: the key stream behind the counter, folded in, and the counter moved on. */
  method Block(enc: Cipher, iv: seq<byte>, mem: array<byte>, dst: nat, src: nat, n: nat, scratch: array<byte>, ghost i: nat)
    requires Lawful(enc) && scratch.Length >= 2 * BLOCK && scratch != mem && n <= BLOCK
    requires dst + n <= mem.Length && src + n <= mem.Length
    requires dst == src || Span(dst, n).Disjoint(Span(src, n))
    requires scratch[..BLOCK] == Counter(iv, i)
    modifies mem, scratch
    ensures mem[..] == Write(old(mem[..]), dst, XorSeq(old(mem[..])[src..src + n], enc(Counter(iv, i))[..n]))
    ensures scratch[..BLOCK] == Counter(iv, i + 1)
  {
    hide Write, XorSeq, Counter, Inc;
    ghost var s0 := scratch[..];
    var ks := enc(scratch[..BLOCK]);
    Copy(scratch, BLOCK, ks);
    ReadApart(s0, BLOCK, ks, 0, BLOCK);
    assert scratch[..BLOCK] == scratch[..][0..0 + BLOCK];
    assert s0[0..0 + BLOCK] == s0[..BLOCK];
    XorBlock(mem, dst, src, n, ks);
    CounterNext(iv, i);
    Increment(scratch, BLOCK);
  }

  lemma CounterNext(iv: seq<byte>, i: nat)
    ensures Inc(Counter(iv, i)) == Counter(iv, i + 1)
  {
    IncToBE(BE(iv) + i, BLOCK);
  }

  /**
   * The source's loop: encrypt the counter, fold it in, count up; the scratch
   * is wiped. dst may be src.
   */
  method Xor128(enc: Cipher, iv: seq<byte>, mem: array<byte>, dst: nat, src: nat, len: nat, scratch: array<byte>)
    requires Lawful(enc) && |iv| == BLOCK && scratch.Length >= 2 * BLOCK && scratch != mem
    requires dst + len <= mem.Length && src + len <= mem.Length
    requires dst == src || Span(dst, len).Disjoint(Span(src, len))
    modifies mem, scratch
    ensures mem[..] == Write(old(mem[..]), dst, Apply(enc, iv, old(mem[..])[src..src + len]))
    ensures scratch[..2 * BLOCK] == Zeros(2 * BLOCK)
  {
    hide Write, Apply, XorSeq, Stream, Counter, Zeros;
    ghost var m0 := mem[..];
    ghost var data := m0[src..src + len];
    ghost var out := Apply(enc, iv, data);
    WriteRead(scratch[..], 0, iv);
    Copy(scratch, 0, iv);
    FirstCounter(iv);
    var off, i := 0, 0;
    WriteNothing(m0, dst);
    while off < len
      invariant off == (if i * BLOCK < len then i * BLOCK else len)
      invariant scratch[..BLOCK] == Counter(iv, i)
      invariant mem[..] == Write(m0, dst, out[..off])
    {
      var n := if len - off < BLOCK then len - off else BLOCK;
      BlockStep(enc, iv, m0, dst, src, len, off, i, n);
      Block(enc, iv, mem, dst + off, src + off, n, scratch, i);
      off, i := off + n, i + 1;
    }
    assert out[..len] == out;
    WriteRead(scratch[..], 0, Zeros(2 * BLOCK));
    Copy(scratch, 0, Zeros(2 * BLOCK));
  }

  /** What one block reads and leaves, with the blocks before it done. */
  lemma BlockStep(enc: Cipher, iv: seq<byte>, m0: seq<byte>, dst: nat, src: nat, len: nat, off: nat, i: nat, n: nat)
    requires Lawful(enc) && |iv| == BLOCK && dst + len <= |m0| && src + len <= |m0|
    requires dst == src || Span(dst, len).Disjoint(Span(src, len))
    requires off == i * BLOCK && off + n <= len && 0 < n <= BLOCK
    ensures
      var data := m0[src..src + len];
      var out := Apply(enc, iv, data);
      var m := Write(m0, dst, out[..off]);
      Write(m, dst + off, XorSeq(m[src + off..src + off + n], enc(Counter(iv, i))[..n])) == Write(m0, dst, out[..off + n])
  {
    hide Write, Apply, XorSeq, Counter;
    var data := m0[src..src + len];
    var out := Apply(enc, iv, data);
    ReadApart(m0, dst, out[..off], src + off, n);
    SubSlice(m0, src, len, off, n);
    StreamNext(enc, iv, data, i, n);
    WriteOn(m0, dst, out[..off], XorSeq(data[off..off + n], enc(Counter(iv, i))[..n]));
  }

  lemma FirstCounter(iv: seq<byte>)
    requires |iv| == BLOCK
    ensures Counter(iv, 0) == iv
  {
    ToBEOfBE(iv);
  }
}
