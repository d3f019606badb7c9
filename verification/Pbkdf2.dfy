/**
 * PBKDF2 in one region whose padded keys are laid down once, against section
 * 5.2 of RFC 8018.
 */
module Pbkdf2 {
  import opened Numbers
  import opened Memory
  import opened Hmac

  // The definition.

  /** INT (i): a four-octet big-endian counter. */
  function Int4(i: nat): (b: seq<byte>)
    ensures |b| == 4
  {
    [i / 0x100_0000 % 256, i / 0x1_0000 % 256, i / 0x100 % 256, i % 256]
  }

  /** The most significant byte comes first, and the value is the counter's. */
  lemma Int4IsBigEndian(i: nat)
    ensures Int4(i) == ToBE(i, 4)
    ensures i < 0x1_0000_0000 ==> BE(Int4(i)) == i
  {
    var b := ToBE(i, 4);
    var b3 := ToBE(i / 256, 3);
    var b2 := ToBE(i / 256 / 256, 2);
    var b1 := ToBE(i / 256 / 256 / 256, 1);
    assert ToBE(i / 256 / 256 / 256 / 256, 0) == [];
    assert b == b3 + [i % 256] && b3 == b2 + [i / 256 % 256] && b2 == b1 + [i / 256 / 256 % 256];
    Shifted(i);
    ToBEValue(i, 4);
    PowAdd(256, 2, 2);
    assert Pow(256, 2) == 256 * Pow(256, 1);
  }

  lemma Shifted(i: nat)
    ensures i / 256 / 256 == i / 0x1_0000 && i / 256 / 256 / 256 == i / 0x100_0000
  {
  }

  function U(h: Hash, password: seq<byte>, salt: seq<byte>, i: nat, j: nat): (u: seq<byte>)
    requires h.Lawful() && j > 0
    ensures |u| == h.size
  {
    if j == 1 then Mac(h, password, salt + Int4(i)) else Mac(h, password, U(h, password, salt, i, j - 1))
  }

  /** F (P, S, c, i): the exclusive or of U_1 to U_c. */
  function F(h: Hash, password: seq<byte>, salt: seq<byte>, c: nat, i: nat): (t: seq<byte>)
    requires h.Lawful() && c > 0
    ensures |t| == h.size
    decreases c
  {
    if c == 1 then U(h, password, salt, i, 1)
    else XorSeq(F(h, password, salt, c - 1, i), U(h, password, salt, i, c))
  }

  /** T_1 || ... || T_n. */
  function Blocks(h: Hash, password: seq<byte>, salt: seq<byte>, c: nat, n: nat): (s: seq<byte>)
    requires h.Lawful() && c > 0
    ensures |s| == n * h.size
    decreases n
  {
    if n == 0 then [] else
      assert n * h.size == (n - 1) * h.size + h.size;
      Blocks(h, password, salt, c, n - 1) + F(h, password, salt, c, n)
  }

  function Derived(h: Hash, password: seq<byte>, salt: seq<byte>, c: nat, n: nat): (s: seq<byte>)
    requires h.Lawful() && c > 0
    ensures |s| == n
  {
    CeilingCovers(n, h.size);
    Blocks(h, password, salt, c, Ceiling(n, h.size))[..n]
  }

  /** One iteration, as the standard writes it out: every whole block is the two keyed hashes of the salt followed by the
      block's number in four bytes, most significant first. */
  lemma SingleIteration(h: Hash, password: seq<byte>, salt: seq<byte>, n: nat, i: nat, ipad: seq<byte>, opad: seq<byte>)
    requires h.Lawful() && IsPad(h, password, 0x36, ipad) && IsPad(h, password, 0x5c, opad)
    requires i * h.size + h.size <= n
    ensures Derived(h, password, salt, 1, n)[i * h.size..i * h.size + h.size]
         == h.digest(opad + h.digest(ipad + (salt + ToBE(i + 1, 4))))
  {
    hide Mac, Int4, IsPad, Derived;
    BlockOfDerived(h, password, salt, 1, n, i, i * h.size);
    Int4IsBigEndian(i + 1);
    MacIs(h, password, salt + Int4(i + 1), ipad, opad);
  }

  /** The i-th whole block of the key is F of i + 1. */
  lemma BlockOfDerived(h: Hash, password: seq<byte>, salt: seq<byte>, c: nat, n: nat, i: nat, off: nat)
    requires h.Lawful() && c > 0 && Reaches(off, i, h.size) && off + h.size <= n
    ensures Derived(h, password, salt, c, n)[off..off + h.size] == F(h, password, salt, c, i + 1)
  {
    hide Blocks, F, Reaches;
    CeilingCovers(n, h.size);
    var blocks := Ceiling(n, h.size);
    EnoughBlocks(off, i, h.size, blocks, n);
    BlockAt(h, password, salt, c, blocks, i, off);
    PrefixSlice(Blocks(h, password, salt, c, blocks), n, off, off + h.size);
  }

  lemma EnoughBlocks(off: nat, i: nat, size: nat, blocks: nat, n: nat)
    requires size > 0 && Reaches(off, i, size) && off + size <= n <= blocks * size
    ensures i < blocks
  {
    if i >= blocks {
      MulOrder(blocks, i, size);
    }
  }

  lemma PrefixSlice(s: seq<byte>, n: nat, lo: nat, hi: nat)
    requires lo <= hi <= n <= |s|
    ensures s[..n][lo..hi] == s[lo..hi]
  {
  }

  lemma {:induction false} BlockAt(h: Hash, password: seq<byte>, salt: seq<byte>, c: nat, n: nat, i: nat, off: nat)
    requires h.Lawful() && c > 0 && i < n && Reaches(off, i, h.size)
    ensures off + h.size <= |Blocks(h, password, salt, c, n)|
    ensures Blocks(h, password, salt, c, n)[off..off + h.size] == F(h, password, salt, c, i + 1)
    decreases n
  {
    hide F;
    if i < n - 1 {
      BlockAt(h, password, salt, c, n - 1, i, off);
    } else {
      assert i == n - 1;
    }
  }

  // What the code computes: the same, from whatever pads it has.

  datatype Pads = Pads(inner: seq<byte>, outer: seq<byte>)

  function Step(h: Hash, pads: Pads, u: seq<byte>): (d: seq<byte>)
    requires h.Lawful()
    ensures |d| == h.size
  {
    h.digest(pads.outer + h.digest(pads.inner + u))
  }

  function Chain(h: Hash, pads: Pads, u: seq<byte>, j: nat): (d: seq<byte>)
    requires h.Lawful() && j > 0 && |u| == h.size
    ensures |d| == h.size
    decreases j
  {
    if j == 1 then u else Step(h, pads, Chain(h, pads, u, j - 1))
  }

  function Fold(h: Hash, pads: Pads, u: seq<byte>, c: nat): (d: seq<byte>)
    requires h.Lawful() && c > 0 && |u| == h.size
    ensures |d| == h.size
    decreases c
  {
    if c == 1 then u else XorSeq(Fold(h, pads, u, c - 1), Chain(h, pads, u, c))
  }

  function Run(h: Hash, pads: Pads, key: seq<byte>, salt: seq<byte>, c: nat, n: nat): (s: seq<byte>)
    requires h.Lawful() && c > 0
    ensures |s| == n * h.size
    decreases n
  {
    if n == 0 then [] else
      assert n * h.size == (n - 1) * h.size + h.size;
      Run(h, pads, key, salt, c, n - 1) + Fold(h, pads, Mac(h, key, salt + Int4(n)), c)
  }

  function Output(h: Hash, pads: Pads, key: seq<byte>, salt: seq<byte>, c: nat, n: nat): (s: seq<byte>)
    requires h.Lawful() && c > 0
    ensures |s| == n
  {
    CeilingCovers(n, h.size);
    Run(h, pads, key, salt, c, Ceiling(n, h.size))[..n]
  }

  /** The key copied over what the pad held, then masked. */
  function Laid(key: seq<byte>, was: seq<byte>, c: byte): (p: seq<byte>)
    requires |key| <= |was|
    ensures |p| == |was|
  {
    XorEach(key + was[|key|..], c)
  }

  ghost predicate ZeroFrom(s: seq<byte>, n: nat) {
    forall i :: n <= i < |s| ==> s[i] == 0
  }

  lemma LaidOnZeros(h: Hash, password: seq<byte>, was: seq<byte>, c: byte)
    requires h.Lawful() && |was| == h.block && ZeroFrom(was, |ShortKey(h, password)|)
    ensures |ShortKey(h, password)| <= h.block
    ensures Laid(ShortKey(h, password), was, c) == XorEach(PadKey(h, password), c)
  {
    var k := ShortKey(h, password);
    assert was[|k|..] == Zeros(h.block - |k|);
  }

  /** A key already shortened pads to the same block. */
  lemma ShortKeySame(h: Hash, password: seq<byte>, text: seq<byte>)
    requires h.Lawful()
    ensures Mac(h, ShortKey(h, password), text) == Mac(h, password, text)
  {
    assert PadKey(h, ShortKey(h, password)) == PadKey(h, password);
  }

  ghost predicate Clean(h: Hash, pads: Pads, password: seq<byte>)
    requires h.Lawful()
  {
    pads == Pads(XorEach(PadKey(h, password), 0x36), XorEach(PadKey(h, password), 0x5c))
  }

  lemma {:induction false} ChainIsU(h: Hash, pads: Pads, password: seq<byte>, salt: seq<byte>, i: nat, j: nat)
    requires h.Lawful() && j > 0 && (Clean(h, pads, password) || j == 1)
    ensures Chain(h, pads, Mac(h, password, salt + Int4(i)), j) == U(h, password, salt, i, j)
  {
    if j <= 1 {
    } else {
      ChainIsU(h, pads, password, salt, i, j - 1);
    }
  }

  lemma {:induction false} FoldIsF(h: Hash, pads: Pads, password: seq<byte>, salt: seq<byte>, c: nat, i: nat)
    requires h.Lawful() && c > 0 && (Clean(h, pads, password) || c == 1)
    ensures Fold(h, pads, Mac(h, password, salt + Int4(i)), c) == F(h, password, salt, c, i)
    decreases c
  {
    hide Step, Mac, Int4, Clean, XorSeq;
    if c <= 1 {
    } else {
      FoldIsF(h, pads, password, salt, c - 1, i);
      ChainIsU(h, pads, password, salt, i, c);
    }
  }

  lemma {:induction false} RunIsBlocks(h: Hash, pads: Pads, password: seq<byte>, salt: seq<byte>, c: nat, n: nat)
    requires h.Lawful() && c > 0 && (Clean(h, pads, password) || c == 1)
    ensures Run(h, pads, ShortKey(h, password), salt, c, n) == Blocks(h, password, salt, c, n)
    decreases n
  {
    hide F, Fold, Mac, ShortKey, Clean;
    if n == 0 {
    } else {
      RunIsBlocks(h, pads, password, salt, c, n - 1);
      ShortKeySame(h, password, salt + Int4(n));
      FoldIsF(h, pads, password, salt, c, n);
    }
  }

  /** Clean pads, or a single iteration, give the standard's key. */
  lemma OutputIsDerived(h: Hash, pads: Pads, password: seq<byte>, salt: seq<byte>, c: nat, n: nat)
    requires h.Lawful() && c > 0 && (Clean(h, pads, password) || c == 1)
    ensures Output(h, pads, ShortKey(h, password), salt, c, n) == Derived(h, password, salt, c, n)
  {
    RunIsBlocks(h, pads, password, salt, c, Ceiling(n, h.size));
  }

  // The region: T at 0, U, the hashed password, ipad || U, opad || inner, HMAC scratch.

  const U_AT := MAX_SIZE
  const HASHED_AT := 2 * MAX_SIZE
  const IN_AT := 3 * MAX_SIZE

  function OutAt(h: Hash): nat {
    IN_AT + h.block + MAX_SIZE
  }

  function ScratchAt(h: Hash): nat {
    OutAt(h) + h.block + MAX_SIZE
  }

  function RegionSize(h: Hash, salt: nat): nat {
    3 * MAX_SIZE + 2 * (h.block + MAX_SIZE) + h.block + if salt + 4 > h.size then salt + 4 else h.size
  }

  /** The two pads and the hashed password stay where they are. */
  ghost predicate Kept(h: Hash, r: seq<byte>, pads: Pads, hashed: seq<byte>)
    requires h.Lawful()
  {
    && |r| >= ScratchAt(h)
    && r[IN_AT..IN_AT + h.block] == pads.inner
    && r[OutAt(h)..OutAt(h) + h.block] == pads.outer
    && r[HASHED_AT..HASHED_AT + h.size] == hashed
  }

  lemma KeptBy(h: Hash, r: seq<byte>, pads: Pads, hashed: seq<byte>, at: nat, data: seq<byte>)
    requires h.Lawful() && Kept(h, r, pads, hashed) && at + |data| <= |r|
    requires
      || at + |data| <= HASHED_AT
      || (at == IN_AT + h.block && |data| <= MAX_SIZE)
      || (at == OutAt(h) + h.block && |data| <= MAX_SIZE)
      || at >= ScratchAt(h)
    ensures Kept(h, Write(r, at, data), pads, hashed)
  {
    hide Write;
    ReadApart(r, at, data, IN_AT, h.block);
    ReadApart(r, at, data, OutAt(h), h.block);
    ReadApart(r, at, data, HASHED_AT, h.size);
  }

  /** U := HMAC(password, U) by way of the two message buffers; T ^= U. */
  ghost function Iterated(h: Hash, r: seq<byte>, pads: Pads): (r': seq<byte>)
    requires h.Lawful() && |r| >= ScratchAt(h)
    ensures |r'| == |r|
  {
    var u := r[U_AT..U_AT + h.size];
    var r1 := Write(r, IN_AT + h.block, u);
    var r2 := Write(r1, OutAt(h) + h.block, h.digest(pads.inner + u));
    var r3 := Write(r2, U_AT, Step(h, pads, u));
    Write(r3, 0, XorSeq(r[..h.size], Step(h, pads, u)))
  }

  lemma IteratedSlots(h: Hash, r: seq<byte>, pads: Pads, hashed: seq<byte>)
    requires h.Lawful() && Kept(h, r, pads, hashed)
    ensures
      var u, r' := r[U_AT..U_AT + h.size], Iterated(h, r, pads);
      && Kept(h, r', pads, hashed)
      && r'[U_AT..U_AT + h.size] == Step(h, pads, u)
      && r'[..h.size] == XorSeq(r[..h.size], Step(h, pads, u))
  {
    hide Write, Kept, Step;
    KeptLength(h, r, pads, hashed);
    var u := r[U_AT..U_AT + h.size];
    var d := h.digest(pads.inner + u);
    var r1 := Write(r, IN_AT + h.block, u);
    var r2 := Write(r1, OutAt(h) + h.block, d);
    var r3 := Write(r2, U_AT, Step(h, pads, u));
    var t := XorSeq(r[..h.size], Step(h, pads, u));
    KeptBy(h, r, pads, hashed, IN_AT + h.block, u);
    KeptBy(h, r1, pads, hashed, OutAt(h) + h.block, d);
    KeptBy(h, r2, pads, hashed, U_AT, Step(h, pads, u));
    KeptBy(h, r3, pads, hashed, 0, t);
    WriteRead(r2, U_AT, Step(h, pads, u));
    ReadApart(r3, 0, t, U_AT, h.size);
    WriteRead(r3, 0, t);
  }

  lemma KeptLength(h: Hash, r: seq<byte>, pads: Pads, hashed: seq<byte>)
    requires h.Lawful() && Kept(h, r, pads, hashed)
    ensures |r| >= ScratchAt(h) && |hashed| == h.size && |pads.inner| == |pads.outer| == h.block
  {
  }

  /** inMsg and outMsg, as each is hashed. */
  lemma Messages(h: Hash, r: seq<byte>, pads: Pads, hashed: seq<byte>)
    requires h.Lawful() && Kept(h, r, pads, hashed)
    ensures
      var u := r[U_AT..U_AT + h.size];
      var r1 := Write(r, IN_AT + h.block, u);
      var d := h.digest(pads.inner + u);
      var r2 := Write(r1, OutAt(h) + h.block, d);
      && r1[IN_AT..IN_AT + h.block + h.size] == pads.inner + u
      && r2[OutAt(h)..OutAt(h) + h.block + h.size] == pads.outer + d
      && r2[..h.size] == r[..h.size]
  {
    hide Write, Kept;
    KeptLength(h, r, pads, hashed);
    var u := r[U_AT..U_AT + h.size];
    var d := h.digest(pads.inner + u);
    var r1 := Write(r, IN_AT + h.block, u);
    InMessage(h, r, pads, hashed, u);
    KeptBy(h, r, pads, hashed, IN_AT + h.block, u);
    OutMessage(h, r1, pads, hashed, d);
    ReadApart(r, IN_AT + h.block, u, 0, h.size);
    ReadApart(r1, OutAt(h) + h.block, d, 0, h.size);
  }

  lemma InMessage(h: Hash, r: seq<byte>, pads: Pads, hashed: seq<byte>, u: seq<byte>)
    requires h.Lawful() && Kept(h, r, pads, hashed) && |u| == h.size
    ensures |r| >= ScratchAt(h)
    ensures Write(r, IN_AT + h.block, u)[IN_AT..IN_AT + h.block + h.size] == pads.inner + u
  {
    hide Write;
    ReadBehind(r, IN_AT, pads.inner, u);
  }

  lemma OutMessage(h: Hash, r: seq<byte>, pads: Pads, hashed: seq<byte>, d: seq<byte>)
    requires h.Lawful() && Kept(h, r, pads, hashed) && |d| == h.size
    ensures |r| >= ScratchAt(h)
    ensures Write(r, OutAt(h) + h.block, d)[OutAt(h)..OutAt(h) + h.block + h.size] == pads.outer + d
  {
    hide Write;
    ReadBehind(r, OutAt(h), pads.outer, d);
  }

  /** Copies bytes to an offset of the region. */
  method Put(mem: array<byte>, lo: nat, at: nat, data: seq<byte>, ghost base: seq<byte>, ghost r: seq<byte>)
      returns (ghost r': seq<byte>)
    requires lo + |r| <= mem.Length == |base| && at + |data| <= |r| && mem[..] == Write(base, lo, r)
    modifies mem
    ensures r' == Write(r, at, data) && mem[..] == Write(base, lo, r')
  {
    hide Write;
    Copy(mem, lo + at, data);
    WriteNested(base, lo, r, at, data);
    r' := Write(r, at, data);
  }

  /** Reads bytes at an offset of the region. */
  method Get(mem: array<byte>, lo: nat, at: nat, n: nat, ghost base: seq<byte>, ghost r: seq<byte>)
      returns (data: seq<byte>)
    requires lo + |r| <= mem.Length == |base| && at + n <= |r| && mem[..] == Write(base, lo, r)
    ensures data == r[at..at + n]
  {
    hide Write;
    ReadNested(base, lo, r, at, n);
    data := mem[..][lo + at..lo + at + n];
  }

  method Iterate(h: Hash, mem: array<byte>, lo: nat, ghost base: seq<byte>, ghost r: seq<byte>,
                 ghost pads: Pads, ghost hashed: seq<byte>)
      returns (ghost r': seq<byte>)
    requires h.Lawful() && Kept(h, r, pads, hashed)
    requires lo + |r| <= mem.Length == |base| && mem[..] == Write(base, lo, r)
    modifies mem
    ensures |r'| == |r| && r' == Iterated(h, r, pads) && mem[..] == Write(base, lo, r')
  {
    hide Write, Kept;
    KeptLength(h, r, pads, hashed);
    Messages(h, r, pads, hashed);
    var size, block := h.size, h.block;
    var u := Get(mem, lo, U_AT, size, base, r);
    r' := Put(mem, lo, IN_AT + block, u, base, r);
    var inMsg := Get(mem, lo, IN_AT, block + size, base, r');
    r' := Put(mem, lo, OutAt(h) + block, h.digest(inMsg), base, r');
    var outMsg := Get(mem, lo, OutAt(h), block + size, base, r');
    ghost var r2 := r';
    r' := Put(mem, lo, U_AT, h.digest(outMsg), base, r');
    ReadApart(r2, U_AT, h.digest(outMsg), 0, size);
    var t := Get(mem, lo, 0, size, base, r');
    r' := Put(mem, lo, 0, XorSeq(t, h.digest(outMsg)), base, r');
  }

  /** Masks n bytes at an offset of the region. */
  method Mask(mem: array<byte>, lo: nat, at: nat, n: nat, c: byte, ghost base: seq<byte>, ghost r: seq<byte>)
      returns (ghost r': seq<byte>)
    requires lo + |r| <= mem.Length == |base| && at + n <= |r| && mem[..] == Write(base, lo, r)
    modifies mem
    ensures r' == Write(r, at, XorEach(r[at..at + n], c)) && mem[..] == Write(base, lo, r')
  {
    hide Write, XorEach;
    XorConst(mem, Span(lo + at, n), c);
    ReadNested(base, lo, r, at, n);
    WriteNested(base, lo, r, at, XorEach(r[at..at + n], c));
    r' := Write(r, at, XorEach(r[at..at + n], c));
  }

  /** The pads of a region that held r, once the key is laid over them. */
  function PadsOver(h: Hash, r: seq<byte>, key: seq<byte>): Pads
    requires |r| >= ScratchAt(h) && |key| <= h.block
  {
    Pads(Laid(key, r[IN_AT..IN_AT + h.block], 0x36), Laid(key, r[OutAt(h)..OutAt(h) + h.block], 0x5c))
  }

  ghost function Keyed(h: Hash, r: seq<byte>, key: seq<byte>): (r': seq<byte>)
    requires |r| >= ScratchAt(h) && |key| <= h.block
    ensures |r'| == |r|
  {
    var r2 := Write(Write(r, IN_AT, key), OutAt(h), key);
    var r3 := Write(r2, IN_AT, XorEach(r2[IN_AT..IN_AT + h.block], 0x36));
    Write(r3, OutAt(h), XorEach(r3[OutAt(h)..OutAt(h) + h.block], 0x5c))
  }

  lemma KeyedKept(h: Hash, r: seq<byte>, key: seq<byte>)
    requires h.Lawful() && |r| >= ScratchAt(h) && |key| <= h.block
    ensures Kept(h, Keyed(h, r, key), PadsOver(h, r, key), r[HASHED_AT..HASHED_AT + h.size])
  {
    hide Write, XorEach, PadsOver, Keyed;
    KeyedMasks(h, r, key);
    KeyedHashed(h, r, key);
  }

  lemma KeyedHashed(h: Hash, r: seq<byte>, key: seq<byte>)
    requires h.Lawful() && |r| >= ScratchAt(h) && |key| <= h.block
    ensures Keyed(h, r, key)[HASHED_AT..HASHED_AT + h.size] == r[HASHED_AT..HASHED_AT + h.size]
  {
    hide Write, XorEach;
    var r2 := Write(Write(r, IN_AT, key), OutAt(h), key);
    var ipad := XorEach(r2[IN_AT..IN_AT + h.block], 0x36);
    HashedStays(h, r, key, key, ipad, XorEach(Write(r2, IN_AT, ipad)[OutAt(h)..OutAt(h) + h.block], 0x5c));
  }

  lemma KeyedMasks(h: Hash, r: seq<byte>, key: seq<byte>)
    requires h.Lawful() && |r| >= ScratchAt(h) && |key| <= h.block
    ensures Keyed(h, r, key)[IN_AT..IN_AT + h.block] == PadsOver(h, r, key).inner
    ensures Keyed(h, r, key)[OutAt(h)..OutAt(h) + h.block] == PadsOver(h, r, key).outer
  {
    hide Write, XorEach;
    var r2 := Write(Write(r, IN_AT, key), OutAt(h), key);
    var ipad := XorEach(r2[IN_AT..IN_AT + h.block], 0x36);
    var r3 := Write(r2, IN_AT, ipad);
    var opad := XorEach(r3[OutAt(h)..OutAt(h) + h.block], 0x5c);
    KeyedPads(h, r, key);
    WriteRead(r2, IN_AT, ipad);
    ReadApart(r3, OutAt(h), opad, IN_AT, h.block);
    WriteRead(r3, OutAt(h), opad);
  }

  lemma HashedStays(h: Hash, r: seq<byte>, a: seq<byte>, b: seq<byte>, ipad: seq<byte>, opad: seq<byte>)
    requires h.Lawful() && |r| >= ScratchAt(h) && |a| <= h.block && |b| <= h.block && |ipad| <= h.block && |opad| <= h.block
    ensures
      var r' := Write(Write(Write(Write(r, IN_AT, a), OutAt(h), b), IN_AT, ipad), OutAt(h), opad);
      r'[HASHED_AT..HASHED_AT + h.size] == r[HASHED_AT..HASHED_AT + h.size]
  {
    hide Write;
    var r1 := Write(r, IN_AT, a);
    var r2 := Write(r1, OutAt(h), b);
    var r3 := Write(r2, IN_AT, ipad);
    ReadApart(r, IN_AT, a, HASHED_AT, h.size);
    ReadApart(r1, OutAt(h), b, HASHED_AT, h.size);
    ReadApart(r2, IN_AT, ipad, HASHED_AT, h.size);
    ReadApart(r3, OutAt(h), opad, HASHED_AT, h.size);
  }

  /** What the masks are applied to: the key over what the pads held. */
  lemma KeyedPads(h: Hash, r: seq<byte>, key: seq<byte>)
    requires h.Lawful() && |r| >= ScratchAt(h) && |key| <= h.block
    ensures
      var r2 := Write(Write(r, IN_AT, key), OutAt(h), key);
      var r3 := Write(r2, IN_AT, XorEach(r2[IN_AT..IN_AT + h.block], 0x36));
      && r2[IN_AT..IN_AT + h.block] == key + r[IN_AT..IN_AT + h.block][|key|..]
      && r3[OutAt(h)..OutAt(h) + h.block] == key + r[OutAt(h)..OutAt(h) + h.block][|key|..]
  {
    hide Write, XorEach;
    var block := h.block;
    var r1 := Write(r, IN_AT, key);
    var r2 := Write(r1, OutAt(h), key);
    ReadFront(r, IN_AT, key, block);
    ReadApart(r1, OutAt(h), key, IN_AT, block);
    ReadApart(r, IN_AT, key, OutAt(h), block);
    ReadFront(r1, OutAt(h), key, block);
    ReadApart(r2, IN_AT, XorEach(r2[IN_AT..IN_AT + block], 0x36), OutAt(h), block);
  }

  lemma ReadFront(m: seq<byte>, at: nat, a: seq<byte>, n: nat)
    requires |a| <= n && at + n <= |m|
    ensures Write(m, at, a)[at..at + n] == a + m[at..at + n][|a|..]
  {
  }

  /** Where the key is read from: the caller's password, or the region's hash of it. */
  ghost predicate KeyFrom(h: Hash, key: View, region: Span, base: seq<byte>, k: seq<byte>, hashed: seq<byte>) {
    || (key == In(Span(region.lo + HASHED_AT, h.size)) && k == hashed)
    || (key.Fits(|base|) && key.Apart(region) && key.Bytes(base) == k)
  }

  lemma KeyReads(h: Hash, key: View, region: Span, base: seq<byte>, k: seq<byte>, r: seq<byte>, pads: Pads, hashed: seq<byte>)
    requires h.Lawful() && KeyFrom(h, key, region, base, k, hashed) && Kept(h, r, pads, hashed)
    requires region.hi() <= |base| && |r| == region.len
    ensures key.Fits(|base|) && key.Bytes(Write(base, region.lo, r)) == k
    ensures key.Apart(Span(region.lo + ScratchAt(h), region.len - ScratchAt(h)))
  {
    hide Write;
    if key == In(Span(region.lo + HASHED_AT, h.size)) && k == hashed {
      ReadNested(base, region.lo, r, HASHED_AT, h.size);
    } else {
      ViewApart(base, region.lo, r, key, region);
    }
  }

  /** A long password is hashed, and the pads are laid down. */
  method LayKeys(h: Hash, mem: array<byte>, region: Span, password: View)
      returns (key: View, ghost r: seq<byte>, ghost hashed: seq<byte>)
    requires h.Lawful() && region.hi() <= mem.Length && region.len >= ScratchAt(h)
    requires password.Fits(mem.Length) && password.Apart(region)
    modifies mem
    ensures |r| == region.len && mem[..] == Write(old(mem[..]), region.lo, r)
    ensures
      var k := ShortKey(h, old(password.Bytes(mem[..])));
      && |k| <= h.block
      && Kept(h, r, PadsOver(h, old(mem[..])[region.lo..region.hi()], k), hashed)
      && KeyFrom(h, key, region, old(mem[..]), k, hashed)
    ensures key == password || key == In(Span(region.lo + HASHED_AT, h.size))
  {
    hide Write, Kept, PadsOver;
    ghost var m0 := mem[..];
    var lo := region.lo;
    var p := password.Bytes(mem[..]);
    key := password;
    ghost var was := m0[lo..region.hi()];
    r := was;
    WriteSelf(m0, region);
    var k := p;
    if |p| > h.block {
      k := h.digest(p);
      r := Put(mem, lo, HASHED_AT, k, m0, r);
      key := In(Span(lo + HASHED_AT, h.size));
      WriteRead(was, HASHED_AT, k);
      SamePads(h, was, k);
    }
    hashed := r[HASHED_AT..HASHED_AT + h.size];
    KeyedKept(h, r, k);
    r := Put(mem, lo, IN_AT, k, m0, r);
    r := Put(mem, lo, OutAt(h), k, m0, r);
    r := Mask(mem, lo, IN_AT, h.block, 0x36, m0, r);
    r := Mask(mem, lo, OutAt(h), h.block, 0x5c, m0, r);
  }

  lemma SamePads(h: Hash, r: seq<byte>, k: seq<byte>)
    requires h.Lawful() && |r| >= ScratchAt(h) && |k| == h.size
    ensures PadsOver(h, Write(r, HASHED_AT, k), k) == PadsOver(h, r, k)
  {
    hide Write;
    ReadApart(r, HASHED_AT, k, IN_AT, h.block);
    ReadApart(r, HASHED_AT, k, OutAt(h), h.block);
  }

  lemma SaltJoined(m: seq<byte>, salt: View, ctr: View, w: Span)
    requires salt.Fits(|m|) && ctr.Fits(|m|) && salt.Apart(w) && ctr.Apart(w)
    ensures AllFit([salt] + [ctr], |m|) && AllApart([salt] + [ctr], w)
    ensures Joined(m, [salt] + [ctr]) == salt.Bytes(m) + ctr.Bytes(m)
  {
    hide Joined, AllFit, AllApart;
    AllFitOne(salt, |m|);
    AllApartOne(salt, w);
    JoinedOne(m, salt);
    JoinedLast(m, [salt], ctr);
    AllApartLast([salt], ctr, w);
  }

  /** U_1 into U and T, once HMAC has used and wiped its scratch. */
  ghost function Started(h: Hash, r: seq<byte>, used: nat, mac: seq<byte>): (r': seq<byte>)
    requires h.Lawful() && ScratchAt(h) + used <= |r| && |mac| == h.size
    ensures |r'| == |r|
  {
    Write(Write(Write(r, ScratchAt(h), Zeros(used)), U_AT, mac), 0, mac)
  }

  lemma StartedSlots(h: Hash, r: seq<byte>, used: nat, mac: seq<byte>, pads: Pads, hashed: seq<byte>)
    requires h.Lawful() && Kept(h, r, pads, hashed) && ScratchAt(h) + used <= |r| && |mac| == h.size
    ensures
      var r' := Started(h, r, used, mac);
      Kept(h, r', pads, hashed) && r'[U_AT..U_AT + h.size] == mac && r'[..h.size] == mac
  {
    hide Write, Kept, Zeros;
    var r1 := Write(r, ScratchAt(h), Zeros(used));
    var r2 := Write(r1, U_AT, mac);
    KeptBy(h, r, pads, hashed, ScratchAt(h), Zeros(used));
    KeptBy(h, r1, pads, hashed, U_AT, mac);
    KeptBy(h, r2, pads, hashed, 0, mac);
    WriteRead(r1, U_AT, mac);
    ReadApart(r2, 0, mac, U_AT, h.size);
    WriteRead(r2, 0, mac);
  }

  method FirstU(h: Hash, mem: array<byte>, region: Span, key: View, salt: View, i: nat,
                ghost base: seq<byte>, ghost r: seq<byte>, ghost pads: Pads, ghost hashed: seq<byte>, ghost k: seq<byte>)
      returns (ghost r': seq<byte>)
    requires h.Lawful() && region.hi() <= mem.Length == |base| && |r| == region.len
    requires salt.Fits(mem.Length) && salt.Apart(region) && region.len >= RegionSize(h, |salt.Bytes(base)|)
    requires Kept(h, r, pads, hashed) && KeyFrom(h, key, region, base, k, hashed)
    requires mem[..] == Write(base, region.lo, r)
    modifies mem
    ensures |r'| == |r| && mem[..] == Write(base, region.lo, r') && Kept(h, r', pads, hashed)
    ensures
      var u := Mac(h, k, salt.Bytes(base) + Int4(i));
      r'[U_AT..U_AT + h.size] == u && r'[..h.size] == u
  {
    hide Write, Kept, Mac, Zeros, Joined, AllFit, AllApart, Int4, KeyFrom;
    var lo := region.lo;
    var scratch := Span(lo + ScratchAt(h), region.len - ScratchAt(h));
    var ctr := Ext(Int4(i));
    ghost var text := salt.Bytes(base) + Int4(i);
    ghost var used := ScratchSize(h, |text|);
    KeyReads(h, key, region, base, k, r, pads, hashed);
    ViewApart(base, lo, r, salt, region);
    SaltJoined(mem[..], salt, ctr, scratch);
    var ok := InPlace(h, mem, lo + U_AT, scratch, key, [salt] + [ctr]);
    ghost var mac := Mac(h, k, text);
    WriteNestedTwice(base, lo, r, ScratchAt(h), Zeros(used), U_AT, mac);
    r' := Write(Write(r, ScratchAt(h), Zeros(used)), U_AT, mac);
    WriteRead(Write(r, ScratchAt(h), Zeros(used)), U_AT, mac);
    var u := Get(mem, lo, U_AT, h.size, base, r');
    r' := Put(mem, lo, 0, u, base, r');
    StartedSlots(h, r, used, mac, pads, hashed);
  }

  /** T_i, left at the head of the region. */
  method DeriveBlock(h: Hash, mem: array<byte>, region: Span, key: View, salt: View, iter: nat, i: nat,
                     ghost base: seq<byte>, ghost r: seq<byte>, ghost pads: Pads, ghost hashed: seq<byte>, ghost k: seq<byte>)
      returns (ghost r': seq<byte>, block: seq<byte>)
    requires h.Lawful() && region.hi() <= mem.Length == |base| && |r| == region.len && iter > 0
    requires salt.Fits(mem.Length) && salt.Apart(region) && region.len >= RegionSize(h, |salt.Bytes(base)|)
    requires Kept(h, r, pads, hashed) && KeyFrom(h, key, region, base, k, hashed)
    requires mem[..] == Write(base, region.lo, r)
    modifies mem
    ensures |r'| == |r| && mem[..] == Write(base, region.lo, r') && Kept(h, r', pads, hashed)
    ensures block == Fold(h, pads, Mac(h, k, salt.Bytes(base) + Int4(i)), iter)
  {
    hide Write, Kept, Mac, Int4, KeyFrom, Step, Iterated;
    ghost var u := Mac(h, k, salt.Bytes(base) + Int4(i));
    r' := FirstU(h, mem, region, key, salt, i, base, r, pads, hashed, k);
    for j := 1 to iter
      invariant |r'| == region.len && mem[..] == Write(base, region.lo, r') && Kept(h, r', pads, hashed)
      invariant r'[U_AT..U_AT + h.size] == Chain(h, pads, u, j)
      invariant r'[..h.size] == Fold(h, pads, u, j)
    {
      IteratedSlots(h, r', pads, hashed);
      r' := Iterate(h, mem, region.lo, base, r', pads, hashed);
    }
    block := Get(mem, region.lo, 0, h.size, base, r');
  }

  /** T_{i+1}, or as much of it as dst still has room for. */
  method EmitBlock(h: Hash, mem: array<byte>, dst: Span, region: Span, key: View, salt: View, iter: nat, i: nat, off: nat,
                   ghost m0: seq<byte>, ghost out: seq<byte>, ghost r: seq<byte>, ghost pads: Pads, ghost hashed: seq<byte>,
                   ghost k: seq<byte>)
      returns (ghost r': seq<byte>, ghost out': seq<byte>)
    requires h.Lawful() && region.hi() <= mem.Length && dst.hi() <= mem.Length == |m0| && dst.Disjoint(region) && iter > 0
    requires |out| == off < dst.len && |r| == region.len
    requires salt.Fits(mem.Length) && salt.Apart(region) && salt.Apart(dst) && region.len >= RegionSize(h, |salt.Bytes(m0)|)
    requires Kept(h, r, pads, hashed) && KeyFrom(h, key, region, Write(m0, dst.lo, out), k, hashed)
    requires mem[..] == Write(Write(m0, dst.lo, out), region.lo, r)
    modifies mem
    ensures |r'| == region.len && Kept(h, r', pads, hashed)
    ensures
      var n := if dst.len - off < h.size then dst.len - off else h.size;
      && |out'| == off + n && mem[..] == Write(Write(m0, dst.lo, out'), region.lo, r')
      && out' == out + Fold(h, pads, Mac(h, k, salt.Bytes(m0) + Int4(i + 1)), iter)[..n]
  {
    hide Write, Kept, Mac, Int4, Fold, KeyFrom;
    ghost var base := Write(m0, dst.lo, out);
    ViewApart(m0, dst.lo, out, salt, dst);
    var block;
    r', block := DeriveBlock(h, mem, region, key, salt, iter, i + 1, base, r, pads, hashed, k);
    var n := if dst.len - off < h.size then dst.len - off else h.size;
    Copy(mem, dst.lo + off, block[..n]);
    WriteGrow(m0, dst.lo, out, block[..n], region.lo, r');
    out' := out + block[..n];
  }

  /** The key derived into dst; the working state is left in the region. */
  method RunInto(h: Hash, mem: array<byte>, dst: Span, region: Span, password: View, salt: View, iter: nat)
      returns (ghost r: seq<byte>)
    requires h.Lawful() && region.hi() <= mem.Length && dst.hi() <= mem.Length && dst.Disjoint(region) && iter > 0
    requires password.Fits(mem.Length) && password.Apart(region) && password.Apart(dst)
    requires salt.Fits(mem.Length) && salt.Apart(region) && salt.Apart(dst)
    requires region.len >= RegionSize(h, |salt.Bytes(mem[..])|)
    modifies mem
    ensures
      var m := old(mem[..]);
      var k := ShortKey(h, password.Bytes(m));
      && |k| <= h.block && |r| == region.len
      && mem[..] == Write(Write(m, dst.lo, Output(h, PadsOver(h, m[region.lo..region.hi()], k), k, salt.Bytes(m), iter, dst.len)),
                          region.lo, r)
  {
    hide Write, Kept, Mac, Int4, Fold, PadsOver, ShortKey, KeyFrom, Run;
    ghost var m0 := mem[..];
    ghost var k, s := ShortKey(h, password.Bytes(m0)), salt.Bytes(m0);
    var key;
    ghost var hashed;
    key, r, hashed := LayKeys(h, mem, region, password);
    ghost var pads := PadsOver(h, m0[region.lo..region.hi()], k);
    r := Blockwise(h, mem, dst, region, password, key, salt, iter, m0, r, pads, hashed, k);
  }

  /** One block after another, until dst is full. */
  method Blockwise(h: Hash, mem: array<byte>, dst: Span, region: Span, ghost password: View, key: View, salt: View, iter: nat,
                   ghost m0: seq<byte>, ghost r0: seq<byte>, ghost pads: Pads, ghost hashed: seq<byte>, ghost k: seq<byte>)
      returns (ghost r: seq<byte>)
    requires h.Lawful() && region.hi() <= mem.Length && dst.hi() <= mem.Length == |m0| && dst.Disjoint(region) && iter > 0
    requires password.Apart(dst) && (key == password || key == In(Span(region.lo + HASHED_AT, h.size)))
    requires salt.Fits(mem.Length) && salt.Apart(region) && salt.Apart(dst) && region.len >= RegionSize(h, |salt.Bytes(m0)|)
    requires |r0| == region.len && Kept(h, r0, pads, hashed) && KeyFrom(h, key, region, m0, k, hashed)
    requires mem[..] == Write(m0, region.lo, r0)
    modifies mem
    ensures |r| == region.len
    ensures mem[..] == Write(Write(m0, dst.lo, Output(h, pads, k, salt.Bytes(m0), iter, dst.len)), region.lo, r)
  {
    hide Write, Kept, Mac, Int4, Fold, KeyFrom, Run, Reaches, View.Apart, View.Bytes, Span.Disjoint;
    r := r0;
    ghost var s := salt.Bytes(m0);
    var i, off := 0, 0;
    ReachNone(h.size);
    ghost var out: seq<byte> := [];
    WriteNothing(m0, dst.lo);
    while off < dst.len
      invariant Reaches(off, i, h.size) && off < dst.len + h.size && |out| == (if off < dst.len then off else dst.len)
      invariant |r| == region.len && mem[..] == Write(Write(m0, dst.lo, out), region.lo, r)
      invariant Kept(h, r, pads, hashed)
      invariant |out| <= |Run(h, pads, k, s, iter, i)| && out == Run(h, pads, k, s, iter, i)[..|out|]
      decreases dst.len - off
    {
      KeyStays(h, key, password, region, m0, dst, out, k, hashed);
      RunPrefix(h, pads, k, s, iter, i, off, if dst.len - off < h.size then dst.len - off else h.size);
      ReachNext(off, i, h.size);
      r, out := EmitBlock(h, mem, dst, region, key, salt, iter, i, off, m0, out, r, pads, hashed, k);
      i, off := i + 1, off + h.size;
    }
    FullAt(dst.len, h.size, i, off);
  }

  lemma RunPrefix(h: Hash, pads: Pads, k: seq<byte>, s: seq<byte>, c: nat, i: nat, off: nat, n: nat)
    requires h.Lawful() && c > 0 && n <= h.size && Reaches(off, i, h.size)
    ensures |Run(h, pads, k, s, c, i)| == off && off + n <= |Run(h, pads, k, s, c, i + 1)|
    ensures Run(h, pads, k, s, c, i + 1)[..off + n]
         == Run(h, pads, k, s, c, i) + Fold(h, pads, Mac(h, k, s + Int4(i + 1)), c)[..n]
  {
  }

  lemma KeyStays(h: Hash, key: View, password: View, region: Span, m: seq<byte>, dst: Span, out: seq<byte>,
                 k: seq<byte>, hashed: seq<byte>)
    requires KeyFrom(h, key, region, m, k, hashed) && password.Apart(dst) && |out| <= dst.len && dst.hi() <= |m|
    requires key == password || key == In(Span(region.lo + HASHED_AT, h.size))
    requires region.hi() <= |m| && region.len >= ScratchAt(h) && h.size <= MAX_SIZE && dst.Disjoint(region)
    ensures KeyFrom(h, key, region, Write(m, dst.lo, out), k, hashed)
  {
    if !(key == In(Span(region.lo + HASHED_AT, h.size)) && k == hashed) {
      ViewApart(m, dst.lo, out, key, dst);
    }
  }

  /** Both pads of the region are zero behind the key. */
  ghost predicate PadsAreZero(h: Hash, r: seq<byte>, key: nat)
    requires |r| >= ScratchAt(h)
  {
    ZeroFrom(r[IN_AT..IN_AT + h.block], key) && ZeroFrom(r[OutAt(h)..OutAt(h) + h.block], key)
  }

  lemma ZeroPadsAreClean(h: Hash, r: seq<byte>, password: seq<byte>)
    requires h.Lawful() && |r| >= ScratchAt(h) && PadsAreZero(h, r, |ShortKey(h, password)|)
    ensures |ShortKey(h, password)| <= h.block && Clean(h, PadsOver(h, r, ShortKey(h, password)), password)
  {
    hide ShortKey, PadKey, Laid, XorEach, ZeroFrom;
    LaidOnZeros(h, password, r[IN_AT..IN_AT + h.block], 0x36);
    LaidOnZeros(h, password, r[OutAt(h)..OutAt(h) + h.block], 0x5c);
  }

  /**
   * PBKDF2 into dst, the region wiped: the standard's key whenever the pads
   * were zero behind the key, and for a single iteration always.
   */
  method Compute(h: Hash, mem: array<byte>, dst: Span, region: Span, password: View, salt: View, iter: nat)
    requires h.Lawful() && region.hi() <= mem.Length && dst.hi() <= mem.Length && dst.Disjoint(region) && iter > 0
    requires password.Fits(mem.Length) && password.Apart(region) && password.Apart(dst)
    requires salt.Fits(mem.Length) && salt.Apart(region) && salt.Apart(dst)
    requires region.len >= RegionSize(h, |salt.Bytes(mem[..])|)
    modifies mem
    ensures
      var m := old(mem[..]);
      var p := password.Bytes(m);
      iter == 1 || PadsAreZero(h, m[region.lo..region.hi()], |ShortKey(h, p)|)
      ==> mem[..] == Write(Write(m, dst.lo, Derived(h, p, salt.Bytes(m), iter, dst.len)), region.lo, Zeros(region.len))
    ensures exists out :: |out| == dst.len && mem[..] == Write(Write(old(mem[..]), dst.lo, out), region.lo, Zeros(region.len))
  {
    hide Write, Zeros, Output, Derived, PadsOver, PadsAreZero;
    ghost var m0 := mem[..];
    ghost var r0, p, s := m0[region.lo..region.hi()], password.Bytes(m0), salt.Bytes(m0);
    ghost var r := RunInto(h, mem, dst, region, password, salt, iter);
    ghost var k := ShortKey(h, p);
    ghost var out := Output(h, PadsOver(h, r0, k), k, s, iter, dst.len);
    Copy(mem, region.lo, Zeros(region.len));
    WriteOver(Write(m0, dst.lo, out), region.lo, r, Zeros(region.len));
    if PadsAreZero(h, r0, |k|) {
      ZeroPadsAreClean(h, r0, p);
    }
    if iter == 1 || PadsAreZero(h, r0, |k|) {
      OutputIsDerived(h, PadsOver(h, r0, k), p, s, iter, dst.len);
    }
  }
}
