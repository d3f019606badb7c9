/**
 * scrypt in one region, against sections 5 and 6 of RFC 7914: the unrolled
 * memory-hard step, and PBKDF2 either side of it.
 */
module Scrypt {
  import opened Numbers
  import opened Memory
  import opened Hmac
  import P = Pbkdf2

  type Block = seq<byte>

  /** The length of Salsa20/8's chaining block. */
  const CHAIN := 64

  /** The parts of the memory-hard step that stay open: its block mix, what that leaves in the chaining block, its
      exclusive or, its integer. */
  datatype Core = Core(mix: Block -> Block, chain: Block -> Block, xor: (Block, Block) -> Block, integer: Block -> nat) {
    /** Blocks keep their length. */
    ghost predicate Lawful() {
      && (forall b :: |mix(b)| == |b| && |chain(b)| == CHAIN)
      && forall a, b :: |a| == |b| ==> |xor(a, b)| == |a|
    }
  }

  // The definition, section 5.

  function Mixed(c: Core, x: Block, i: nat): Block {
    if i == 0 then x else c.mix(Mixed(c, x, i - 1))
  }

  /** X after i steps of the second loop, over the vector v. */
  function Walked(c: Core, v: seq<Block>, x: Block, i: nat): Block
    requires |v| > 0
  {
    if i == 0 then x
    else
      var y := Walked(c, v, x, i - 1);
      c.mix(c.xor(y, v[c.integer(y) % |v|]))
  }

  function Vector(c: Core, x: Block, n: nat): seq<Block> {
    seq(n, i requires 0 <= i < n => Mixed(c, x, i))
  }

  function RoMix(c: Core, x: Block, n: nat): Block
    requires n > 0
  {
    Walked(c, Vector(c, x, n), Mixed(c, x, n), n)
  }

  // The code.

  /** Bitwise and of the lowest n bits. */
  function And(a: nat, b: nat, n: nat): nat {
    if n == 0 then 0 else (if a % 2 == 1 && b % 2 == 1 then 1 else 0) + 2 * And(a / 2, b / 2, n - 1)
  }

  /** Masking with a power of two less one is taking the remainder. */
  lemma {:induction false} MaskIsRemainder(a: nat, k: nat, n: nat)
    requires k <= n
    ensures And(a, Pow(2, k) - 1, n) == a % Pow(2, k)
  {
    hide Pow;
    if k == 0 {
      MaskNothing(a, n);
    } else {
      var p := Pow(2, k - 1);
      MaskIsRemainder(a / 2, k - 1, n - 1);
      DoublePower(k);
      HalvesOfMask(p);
      RemainderByHalves(a, p);
    }
  }

  lemma {:induction false} MaskNothing(a: nat, n: nat)
    ensures Pow(2, 0) == 1 && And(a, 0, n) == 0 && a % 1 == 0
  {
    if n == 0 {
    } else {
      MaskNothing(a / 2, n - 1);
    }
  }

  lemma DoublePower(k: nat)
    requires k > 0
    ensures Pow(2, k) == 2 * Pow(2, k - 1) && Pow(2, k - 1) > 0
  {
  }

  lemma HalvesOfMask(p: nat)
    requires p > 0
    ensures (2 * p - 1) % 2 == 1 && (2 * p - 1) / 2 == p - 1
  {
  }

  lemma RemainderByHalves(a: nat, p: nat)
    requires p > 0
    ensures a % (2 * p) == a % 2 + 2 * (a / 2 % p)
  {
    var q, r := a / 2 / p, a / 2 % p;
    assert a / 2 == q * p + r;
    assert (2 * p) * q == 2 * (q * p);
    var x := a % 2 + 2 * r;
    assert a == (2 * p) * q + x;
    Remainder(a, 2 * p, q, x);
  }

  lemma EvenPower(k: nat)
    requires k > 0
    ensures Pow(2, k) > 0 && Pow(2, k) == 2 * (Pow(2, k) / 2)
  {
    assert Pow(2, k) == 2 * Pow(2, k - 1);
    HalfDouble(Pow(2, k), Pow(2, k - 1));
  }

  lemma HalfDouble(x: nat, y: nat)
    requires x == 2 * y
    ensures x == 2 * (x / 2)
  {
  }

  lemma RoMixIs(c: Core, x: Block, n: nat)
    requires n > 0
    ensures |Vector(c, x, n)| == n && RoMix(c, x, n) == Walked(c, Vector(c, x, n), Mixed(c, x, n), n)
  {
    hide Walked, Mixed;
  }

  lemma WalkedNone(c: Core, v: seq<Block>, x: Block)
    requires |v| > 0
    ensures Walked(c, v, x, 0) == x
  {
  }

  lemma MixedNext(c: Core, x: Block, i: nat)
    ensures Mixed(c, x, i + 1) == c.mix(Mixed(c, x, i))
  {
  }

  lemma WalkedNext(c: Core, v: seq<Block>, x: Block, i: nat)
    requires |v| > 0
    ensures var y := Walked(c, v, x, i); Walked(c, v, x, i + 1) == c.mix(c.xor(y, v[c.integer(y) % |v|]))
  {
  }

  lemma VectorNext(c: Core, x: Block, i: nat)
    ensures Vector(c, x, i + 1) == Vector(c, x, i) + [Mixed(c, x, i)] && |Vector(c, x, i)| == i
  {
  }

  function BlockSize(r: nat): nat {
    128 * r
  }

  function WorkSize(n: nat, r: nat): nat {
    128 * r * n + 256 * r + 64
  }

  /** The working size is what V, X, Y and the chaining block take, exactly. */
  lemma WorkFits(n: nat, r: nat)
    ensures Layout(0, BlockSize(r), n).End() == WorkSize(n, r)
  {
    MulSwap(128 * r, n);
  }

  function RegionSize(h: Hash, salt: nat, n: nat, r: nat, p: nat): nat {
    var b := p * BlockSize(r);
    WorkSize(n, r) + b + P.RegionSize(h, if salt > b then salt else b)
  }

  /** Section 6, step 2: each block of B through the mix. */
  ghost function MixAll(c: Core, b: seq<byte>, len: nat, n: nat): (m: seq<byte>)
    requires n > 0 && len > 0 && c.Lawful()
    ensures |m| == |b|
    decreases |b|
  {
    if |b| < len then b else
      var front := |b| - len;
      RoMixLength(c, b[front..], n);
      MixAll(c, b[..front], len, n) + RoMix(c, b[front..], n)
  }

  lemma {:induction false} MixedLength(c: Core, x: Block, i: nat)
    requires c.Lawful()
    ensures |Mixed(c, x, i)| == |x|
  {
    if i == 0 {
    } else {
      MixedLength(c, x, i - 1);
    }
  }

  lemma {:induction false} WalkedLength(c: Core, v: seq<Block>, x: Block, i: nat)
    requires c.Lawful() && |v| > 0 && forall j :: 0 <= j < |v| ==> |v[j]| == |x|
    ensures |Walked(c, v, x, i)| == |x|
  {
    if i == 0 {
    } else {
      WalkedLength(c, v, x, i - 1);
    }
  }

  lemma RoMixLength(c: Core, x: Block, n: nat)
    requires c.Lawful() && n > 0
    ensures |RoMix(c, x, n)| == |x|
  {
    forall i | 0 <= i <= n
      ensures |Mixed(c, x, i)| == |x|
    {
      MixedLength(c, x, i);
    }
    WalkedLength(c, Vector(c, x, n), Mixed(c, x, n), n);
  }

  /** Section 6: PBKDF2, the mix, PBKDF2. */
  ghost function Definition(h: Hash, c: Core, password: seq<byte>, salt: seq<byte>, n: nat, r: nat, p: nat, dk: nat): (d: seq<byte>)
    requires h.Lawful() && n > 0 && r > 0 && c.Lawful()
    ensures |d| == dk
  {
    var b := P.Derived(h, password, salt, 1, p * BlockSize(r));
    P.Derived(h, password, MixAll(c, b, BlockSize(r), n), 1, dk)
  }

  lemma MixNext(c: Core, b: seq<byte>, len: nat, n: nat, at: nat)
    requires n > 0 && len > 0 && c.Lawful() && at + len <= |b|
    ensures MixAll(c, b[..at + len], len, n) == MixAll(c, b[..at], len, n) + RoMix(c, b[at..at + len], n)
  {
    assert b[..at + len][..at] == b[..at] && b[..at + len][at..] == b[at..at + len];
  }

  // In place.

  /** The working memory from `at` on: V, then X, Y and the chaining block, side by side. */
  datatype Layout = Layout(at: nat, len: nat, n: nat) {
    function V(j: nat): nat { at + j * len }
    function X(): nat { at + n * len }
    function Y(): nat { X() + len }
    function T(): nat { Y() + len }
    function End(): nat { T() + CHAIN }
  }

  lemma SlotBelow(j: nat, n: nat, len: nat)
    requires j < n
    ensures j * len + len <= n * len
  {
    MulOrder(j + 1, n, len);
    MulMinus(j + 1, 1, len);
  }

  /** The blocks of v stand one behind the other. */
  ghost predicate Stored(m: seq<byte>, at: nat, len: nat, v: seq<Block>) {
    forall j :: 0 <= j < |v| ==> Spot(at, len, j) + len <= |m| && m[Spot(at, len, j)..Spot(at, len, j) + len] == v[j]
  }

  function Spot(at: nat, len: nat, j: nat): nat { at + j * len }

  /** Only the window has changed. */
  ghost predicate Only(m: seq<byte>, m0: seq<byte>, lo: nat, hi: nat) {
    |m| == |m0| && lo <= hi <= |m| && m == Write(m0, lo, m[lo..hi])
  }

  lemma StoredApart(m: seq<byte>, at: nat, len: nat, v: seq<Block>, w: nat, d: seq<byte>)
    requires Stored(m, at, len, v) && at + |v| * len <= w && w + |d| <= |m|
    ensures Stored(Write(m, w, d), at, len, v)
  {
    hide Write;
    forall j | 0 <= j < |v|
      ensures Spot(at, len, j) + len <= |m| && Write(m, w, d)[Spot(at, len, j)..Spot(at, len, j) + len] == v[j]
    {
      SlotBelow(j, |v|, len);
      ReadApart(m, w, d, at + j * len, len);
    }
  }

  lemma StoredMore(m: seq<byte>, at: nat, len: nat, v: seq<Block>, d: Block)
    requires Stored(m, at, len, v) && |d| == len && at + |v| * len + len <= |m|
    ensures Stored(Write(m, at + |v| * len, d), at, len, v + [d])
  {
    hide Write, Spot;
    var w, v' := Spot(at, len, |v|), v + [d];
    SpotIs(at, len, |v|);
    StoredApart(m, at, len, v, w, d);
    WriteRead(m, w, d);
    forall j | 0 <= j < |v'|
      ensures Spot(at, len, j) + len <= |m| && Write(m, w, d)[Spot(at, len, j)..Spot(at, len, j) + len] == v'[j]
    {
      if j < |v| {
        assert v'[j] == v[j];
      }
    }
  }

  lemma SpotIs(at: nat, len: nat, j: nat)
    ensures Spot(at, len, j) == at + j * len
  {
  }

  lemma OnlyNone(m: seq<byte>, lo: nat, hi: nat)
    requires lo <= hi <= |m|
    ensures Only(m, m, lo, hi)
  {
    hide Write;
    WriteSelf(m, Span(lo, hi - lo));
  }

  lemma OnlyStep(m: seq<byte>, m0: seq<byte>, lo: nat, hi: nat, at: nat, d: seq<byte>)
    requires Only(m, m0, lo, hi) && lo <= at && at + |d| <= hi
    ensures Only(Write(m, at, d), m0, lo, hi)
  {
    hide Write;
    WriteNested(m0, lo, m[lo..hi], at - lo, d);
    WriteRead(m0, lo, Write(m[lo..hi], at - lo, d));
  }

  /** One block mixed into another, through the chaining block. */
  method MixInto(c: Core, mem: array<byte>, src: nat, dst: nat, t: nat, len: nat)
    requires c.Lawful() && src + len <= mem.Length && dst + len <= mem.Length && t + CHAIN <= mem.Length
    modifies mem
    ensures
      var b := old(mem[..])[src..src + len];
      mem[..] == Write(Write(old(mem[..]), dst, c.mix(b)), t, c.chain(b))
  {
    hide Write;
    var b := mem[..][src..src + len];
    Copy(mem, dst, c.mix(b));
    Copy(mem, t, c.chain(b));
  }

  /** X and Y in one of their two orders. */
  predicate Pair(l: Layout, src: nat, dst: nat) {
    (src == l.X() && dst == l.Y()) || (src == l.Y() && dst == l.X())
  }

  /** After i steps of the first loop: the first i blocks of V, and the next at src. */
  ghost predicate Filling(c: Core, m: seq<byte>, m0: seq<byte>, l: Layout, b: Block, i: nat, src: nat) {
    && Only(m, m0, l.at, l.End()) && Stored(m, l.at, l.len, Vector(c, b, i))
    && src + l.len <= |m| && m[src..src + l.len] == Mixed(c, b, i)
  }

  /** A mix into dst, with V in front of it and the chaining block behind it, keeps V, stays inside the window, and
      leaves its result at dst. */
  lemma MixingKeeps(c: Core, m: seq<byte>, m0: seq<byte>, lo: nat, hi: nat, v: seq<Block>, vLen: nat, dst: nat, t: nat, x: Block)
    requires c.Lawful() && Only(m, m0, lo, hi) && Stored(m, lo, |x|, v) && vLen == |v| * |x|
    requires lo + vLen <= dst && dst + |x| <= t && t + CHAIN <= hi <= |m|
    ensures var m' := Write(Write(m, dst, c.mix(x)), t, c.chain(x));
      Only(m', m0, lo, hi) && Stored(m', lo, |x|, v) && m'[dst..dst + |x|] == c.mix(x)
  {
    hide Write, Only, Stored;
    var m1 := Write(m, dst, c.mix(x));
    OnlyStep(m, m0, lo, hi, dst, c.mix(x));
    OnlyStep(m1, m0, lo, hi, t, c.chain(x));
    StoredApart(m, lo, |x|, v, dst, c.mix(x));
    StoredApart(m1, lo, |x|, v, t, c.chain(x));
    WriteRead(m, dst, c.mix(x));
    ReadApart(m1, t, c.chain(x), dst, |x|);
  }

  /** Where things are: V in front of X and Y, the chaining block behind them. */
  lemma Spots(l: Layout, src: nat, dst: nat, i: nat)
    requires Pair(l, src, dst) && i < l.n
    ensures l.V(i) == l.at + i * l.len && l.at <= l.V(i) && l.V(i) + l.len == l.at + (i + 1) * l.len
    ensures l.V(i) + l.len <= l.at + l.n * l.len <= src && l.at + l.n * l.len <= dst
    ensures src + l.len <= l.T() && dst + l.len <= l.T() && l.T() + CHAIN == l.End()
    ensures src + l.len <= dst || dst + l.len <= src
  {
    SlotBelow(i, l.n, l.len);
    MulMinus(i + 1, 1, l.len);
  }

  /** One step of the first loop, on the memory's contents. */
  lemma FillKeeps(c: Core, m: seq<byte>, m0: seq<byte>, lo: nat, hi: nat, v: seq<Block>, slot: nat, src: nat, dst: nat, t: nat, x: Block)
    requires c.Lawful() && Only(m, m0, lo, hi) && Stored(m, lo, |x|, v) && slot == lo + |v| * |x| && slot + |x| == lo + (|v| + 1) * |x|
    requires slot + |x| <= src && slot + |x| <= dst && src + |x| <= t && dst + |x| <= t && t + CHAIN <= hi <= |m|
    requires m[src..src + |x|] == x
    ensures var m1 := Write(m, slot, x);
      && m1[src..src + |x|] == x
      && var m' := Write(Write(m1, dst, c.mix(x)), t, c.chain(x));
         Only(m', m0, lo, hi) && Stored(m', lo, |x|, v + [x]) && m'[dst..dst + |x|] == c.mix(x)
  {
    hide Write, Only, Stored, Core.Lawful;
    var m1 := Write(m, slot, x);
    StoredMore(m, lo, |x|, v, x);
    OnlyStep(m, m0, lo, hi, slot, x);
    ReadApart(m, slot, x, src, |x|);
    MixingKeeps(c, m1, m0, lo, hi, v + [x], (|v| + 1) * |x|, dst, t, x);
  }

  /** One step of the first loop. */
  method FillStep(c: Core, mem: array<byte>, l: Layout, i: nat, src: nat, dst: nat, ghost b: Block, ghost m0: seq<byte>)
    requires c.Lawful() && |b| == l.len && i < l.n && Pair(l, src, dst) && l.End() <= mem.Length
    requires Filling(c, mem[..], m0, l, b, i, src)
    modifies mem
    ensures Filling(c, mem[..], m0, l, b, i + 1, dst)
  {
    hide Write, Only, Stored, Vector, Mixed, Core.Lawful, Pair, Layout.V, Layout.X, Layout.Y, Layout.T, Layout.End;
    ghost var m := mem[..];
    var x := mem[..][src..src + l.len];
    Spots(l, src, dst, i);
    VectorNext(c, b, i);
    MixedNext(c, b, i);
    FillKeeps(c, m, m0, l.at, l.End(), Vector(c, b, i), l.V(i), src, dst, l.T(), x);
    Copy(mem, l.V(i), x);
    MixInto(c, mem, src, dst, l.T(), l.len);
  }

  /** After i steps of the second loop, over V as it was filled. */
  ghost predicate Walking(c: Core, m: seq<byte>, m0: seq<byte>, l: Layout, v: seq<Block>, start: Block, i: nat, src: nat)
    requires |v| > 0
  {
    && Only(m, m0, l.at, l.End()) && Stored(m, l.at, l.len, v)
    && src + l.len <= |m| && m[src..src + l.len] == Walked(c, v, start, i)
  }

  /** Where in V the step looks: a mask, N being a power of two. */
  method Index(c: Core, x: Block, n: nat, ghost k: nat) returns (j: nat)
    requires n == Pow(2, k) && k <= 64
    ensures j == c.integer(x) % n < n
  {
    hide Pow, And;
    MaskIsRemainder(c.integer(x), k, 64);
    j := And(c.integer(x), n - 1, 64);
  }

  /** One step of the second loop. */
  method WalkStep(c: Core, mem: array<byte>, l: Layout, src: nat, dst: nat, ghost v: seq<Block>, ghost start: Block, ghost i: nat,
                  ghost k: nat, ghost m0: seq<byte>)
    requires c.Lawful() && |v| == l.n == Pow(2, k) && k <= 64 && Pair(l, src, dst) && l.End() <= mem.Length
    requires Walking(c, mem[..], m0, l, v, start, i, src)
    modifies mem
    ensures Walking(c, mem[..], m0, l, v, start, i + 1, dst)
  {
    hide Write, Only, Stored, Walked, Pow, Core.Lawful, Pair, Layout.V, Layout.X, Layout.Y, Layout.T, Layout.End;
    ghost var m := mem[..];
    var x := mem[..][src..src + l.len];
    var j := Index(c, x, l.n, k);
    Spots(l, src, dst, j);
    StoredAt(m, l.at, l.len, v, j);
    XorLength(c, x, v[j]);
    var z := c.xor(x, mem[..][l.V(j)..l.V(j) + l.len]);
    WalkedNext(c, v, start, i);
    WalkKeeps(c, m, m0, l.at, l.End(), v, l.n * l.len, src, dst, l.T(), z);
    Copy(mem, src, z);
    MixInto(c, mem, src, dst, l.T(), l.len);
  }

  lemma XorLength(c: Core, a: Block, b: Block)
    requires c.Lawful() && |a| == |b|
    ensures |c.xor(a, b)| == |a|
  {
  }

  /** One step of the second loop, on the memory's contents. */
  lemma WalkKeeps(c: Core, m: seq<byte>, m0: seq<byte>, lo: nat, hi: nat, v: seq<Block>, vLen: nat, src: nat, dst: nat, t: nat, z: Block)
    requires c.Lawful() && Only(m, m0, lo, hi) && Stored(m, lo, |z|, v)
    requires vLen == |v| * |z| && lo + vLen <= src && lo + vLen <= dst && src + |z| <= t && dst + |z| <= t && t + CHAIN <= hi <= |m|
    ensures var m1 := Write(m, src, z);
      && m1[src..src + |z|] == z
      && var m' := Write(Write(m1, dst, c.mix(z)), t, c.chain(z));
         Only(m', m0, lo, hi) && Stored(m', lo, |z|, v) && m'[dst..dst + |z|] == c.mix(z)
  {
    hide Write, Only, Stored, Core.Lawful;
    var m1 := Write(m, src, z);
    OnlyStep(m, m0, lo, hi, src, z);
    StoredApart(m, lo, |z|, v, src, z);
    WriteRead(m, src, z);
    MixingKeeps(c, m1, m0, lo, hi, v, vLen, dst, t, z);
  }

  lemma StoredAt(m: seq<byte>, at: nat, len: nat, v: seq<Block>, j: nat)
    requires Stored(m, at, len, v) && j < |v|
    ensures at + j * len + len <= |m| && m[at + j * len..at + j * len + len] == v[j]
  {
  }

  /** The first loop, two steps a pass, X and Y taking turns. */
  method Fill(c: Core, mem: array<byte>, l: Layout, half: nat, ghost b: Block, ghost m0: seq<byte>)
    requires c.Lawful() && |b| == l.len && l.n == 2 * half && l.End() <= mem.Length && Filling(c, mem[..], m0, l, b, 0, l.X())
    modifies mem
    ensures Filling(c, mem[..], m0, l, b, l.n, l.X())
  {
    hide Filling, Core.Lawful;
    for pass := 0 to half
      invariant Filling(c, mem[..], m0, l, b, 2 * pass, l.X())
    {
      FillStep(c, mem, l, 2 * pass, l.X(), l.Y(), b, m0);
      FillStep(c, mem, l, 2 * pass + 1, l.Y(), l.X(), b, m0);
    }
  }

  method Walk(c: Core, mem: array<byte>, l: Layout, half: nat, ghost v: seq<Block>, ghost start: Block, ghost k: nat, ghost m0: seq<byte>)
    requires c.Lawful() && |v| == l.n == Pow(2, k) == 2 * half && k <= 64 && l.n > 0 && l.End() <= mem.Length
    requires Walking(c, mem[..], m0, l, v, start, 0, l.X())
    modifies mem
    ensures Walking(c, mem[..], m0, l, v, start, l.n, l.X())
  {
    hide Walking, Core.Lawful, Pow;
    for pass := 0 to half
      invariant Walking(c, mem[..], m0, l, v, start, 2 * pass, l.X())
    {
      WalkStep(c, mem, l, l.X(), l.Y(), v, start, 2 * pass, k, m0);
      WalkStep(c, mem, l, l.Y(), l.X(), v, start, 2 * pass + 1, k, m0);
    }
  }

  /**
   * One block of B, in place: two steps a pass reach the block that the
   * definition reaches one step at a time, N being a power of two above 1.
   * Nothing but the block and the working memory changes.
   */
  method Smix(c: Core, mem: array<byte>, at: nat, l: Layout, ghost k: nat)
    requires c.Lawful() && l.n == Pow(2, k) && 0 < k <= 64 && at + l.len <= mem.Length && l.End() <= mem.Length
    requires at + l.len <= l.at || l.End() <= at
    modifies mem
    ensures var m, b := old(mem[..]), old(mem[..])[at..at + l.len];
      && |RoMix(c, b, l.n)| == l.len
      && mem[..] == Write(Write(m, at, RoMix(c, b, l.n)), l.at, mem[..][l.at..l.End()])
  {
    hide Write, Only, Stored, Vector, Mixed, Walked, RoMix, Pow, Core.Lawful;
    ghost var m := mem[..];
    var b := mem[..][at..at + l.len];
    EvenPower(k);
    RoMixIs(c, b, l.n);
    RoMixLength(c, b, l.n);
    FillStarts(c, m, l, b);
    Copy(mem, l.X(), b);
    var half := l.n / 2;
    Fill(c, mem, l, half, b, m);
    ghost var v, start := Vector(c, b, l.n), Mixed(c, b, l.n);
    WalkedNone(c, v, start);
    Walk(c, mem, l, half, v, start, k, m);
    ghost var m2 := mem[..];
    Copy(mem, at, mem[..][l.X()..l.X() + l.len]);
    Finished(m, m2, l.at, l.End(), at, RoMix(c, b, l.n));
  }

  lemma FillStarts(c: Core, m: seq<byte>, l: Layout, b: Block)
    requires l.End() <= |m| && |b| == l.len
    ensures Filling(c, Write(m, l.X(), b), m, l, b, 0, l.X())
  {
    hide Write, Only;
    OnlyNone(m, l.at, l.End());
    OnlyStep(m, m, l.at, l.End(), l.X(), b);
    WriteRead(m, l.X(), b);
  }

  /** The result laid down beside the working memory. */
  lemma Finished(m0: seq<byte>, m: seq<byte>, lo: nat, hi: nat, at: nat, d: seq<byte>)
    requires Only(m, m0, lo, hi) && at + |d| <= |m| && (at + |d| <= lo || hi <= at)
    ensures var m' := Write(m, at, d); m' == Write(Write(m0, at, d), lo, m'[lo..hi])
  {
    hide Write;
    var window := m[lo..hi];
    ReadApart(m, at, d, lo, hi - lo);
    WriteCommute(m0, lo, window, at, d);
  }

  /** scrypt.Mix: every block of B in place, one after the other in one working memory. */
  method Mix(c: Core, mem: array<byte>, b: Span, work: Span, len: nat, n: nat, ghost p: nat, ghost k: nat)
    requires c.Lawful() && n == Pow(2, k) && 0 < k <= 64 && b.len == p * len && len > 0
    requires b.hi() <= mem.Length && work.hi() <= mem.Length && b.Disjoint(work) && Layout(work.lo, len, n).End() <= work.hi()
    modifies mem
    ensures mem[..] == Write(Write(old(mem[..]), b.lo, MixAll(c, old(mem[..])[b.lo..b.hi()], len, n)),
                             work.lo, mem[..][work.lo..work.hi()])
  {
    hide Write, MixAll, RoMix, Pow, Only, Core.Lawful;
    ghost var m0 := mem[..];
    ghost var b0 := m0[b.lo..b.hi()];
    var l := Layout(work.lo, len, n);
    WriteNothing(m0, b.lo);
    MixNone(c, b0, len, n);
    OnlyNone(m0, work.lo, work.hi());
    var at := 0;
    ghost var rest := p;
    while at < b.len
      invariant at <= b.len && b.len - at == rest * len
      invariant Only(mem[..], Write(m0, b.lo, MixAll(c, b0[..at], len, n)), work.lo, work.hi())
    {
      ghost var m := mem[..];
      LastsOne(rest, len);
      MixStep(c, m0, b.lo, b0, len, n, at);
      Smix(c, mem, b.lo + at, l, k);
      MixedOne(c, m, mem[..], Write(m0, b.lo, MixAll(c, b0[..at], len, n)), work, b.lo + at, l);
      at, rest := at + len, rest - 1;
    }
    assert b0[..at] == b0;
    OnlyIs(mem[..], Write(m0, b.lo, MixAll(c, b0, len, n)), work.lo, work.hi());
  }

  lemma OnlyIs(m: seq<byte>, m0: seq<byte>, lo: nat, hi: nat)
    requires Only(m, m0, lo, hi)
    ensures |m| == |m0| && lo <= hi <= |m| && m == Write(m0, lo, m[lo..hi])
  {
  }

  /** A block mixed over memory that differs from `base` only in the working memory. */
  lemma MixedOne(c: Core, m: seq<byte>, m': seq<byte>, base: seq<byte>, work: Span, at: nat, l: Layout)
    requires Only(m, base, work.lo, work.hi()) && c.Lawful() && l.n > 0
    requires l.at == work.lo && l.End() <= work.hi() && at + l.len <= |m| && Span(at, l.len).Disjoint(work)
    requires |RoMix(c, m[at..at + l.len], l.n)| == l.len && |m'| == |m|
    requires m' == Write(Write(m, at, RoMix(c, m[at..at + l.len], l.n)), l.at, m'[l.at..l.End()])
    ensures base[at..at + l.len] == m[at..at + l.len]
    ensures Only(m', Write(base, at, RoMix(c, base[at..at + l.len], l.n)), work.lo, work.hi())
  {
    hide Write, RoMix, Core.Lawful;
    OnlyIs(m, base, work.lo, work.hi());
    ReadApart(base, work.lo, m[work.lo..work.hi()], at, l.len);
    var d := RoMix(c, m[at..at + l.len], l.n);
    var m1 := Write(m, at, d);
    Finished(base, m, work.lo, work.hi(), at, d);
    OnlyStep(m1, Write(base, at, d), work.lo, work.hi(), l.at, m'[l.at..l.End()]);
  }

  lemma MixStep(c: Core, m0: seq<byte>, lo: nat, b: seq<byte>, len: nat, n: nat, at: nat)
    requires n > 0 && len > 0 && c.Lawful() && lo + |b| <= |m0| && b == m0[lo..lo + |b|] && at + len <= |b|
    ensures
      var m, x := Write(m0, lo, MixAll(c, b[..at], len, n)), b[at..at + len];
      && m[lo + at..lo + at + len] == x
      && |RoMix(c, x, n)| == len
      && Write(m, lo + at, RoMix(c, x, n)) == Write(m0, lo, MixAll(c, b[..at + len], len, n))
  {
    hide Write, MixAll, RoMix;
    var done, x := MixAll(c, b[..at], len, n), b[at..at + len];
    RoMixLength(c, x, n);
    MixNext(c, b, len, n, at);
    ReadApart(m0, lo, done, lo + at, len);
    SubSlice(m0, lo, |b|, at, len);
    WriteOn(m0, lo, done, RoMix(c, x, n));
  }

  lemma MixNone(c: Core, b: seq<byte>, len: nat, n: nat)
    requires n > 0 && len > 0 && c.Lawful()
    ensures MixAll(c, b[..0], len, n) == []
  {
  }

  lemma LastsOne(rest: nat, len: nat)
    requires rest * len > 0
    ensures rest > 0 && rest * len >= len && (rest - 1) * len == rest * len - len
  {
    MulAtLeast(rest, len);
    MulMinus(rest, 1, len);
  }

  /** Zeros beside zeros, in one window. */
  lemma ZerosJoin(m: seq<byte>, lo: nat, a: nat, b: nat)
    requires lo + a + b <= |m| && m[lo..lo + a] == Zeros(a) && m[lo + a..lo + a + b] == Zeros(b)
    ensures m[lo..lo + a + b] == Zeros(a + b)
  {
    assert m[lo..lo + a + b] == m[lo..lo + a] + m[lo + a..lo + a + b];
  }

  /** Two wipes of windows with the same start leave the longer one zero. */
  lemma ZerosTwice(m: seq<byte>, m': seq<byte>, lo: nat, a: nat, b: nat)
    requires lo + a <= |m| && lo + b <= |m| && m[lo..lo + a] == Zeros(a)
    requires m' == Write(m, lo, Zeros(b))
    ensures var w := if a > b then a else b; m'[lo..lo + w] == Zeros(w)
  {
    var w := if a > b then a else b;
    forall i | lo <= i < lo + w
      ensures m'[i] == 0
    {
      if i >= lo + b {
        assert m[i] == m[lo..lo + a][i - lo];
      }
    }
  }

  /** The region's writes, in order, around the write to dst. */
  ghost function Steps(m0: seq<byte>, region: Span, dst: nat, dk: seq<byte>, body: nat, z1: nat, z2: nat,
                       b1: seq<byte>, b2: seq<byte>, bAt: nat, left: seq<byte>): (m: seq<byte>)
    requires dst + |dk| <= |m0| && region.hi() <= |m0|
    requires |b1| == |b2| && bAt + |b1| == body && |left| <= bAt && body + z1 <= region.len && body + z2 <= region.len
    ensures |m| == |m0|
  {
    var lo, kdf := region.lo, region.lo + body;
    var m1 := Write(Write(m0, lo + bAt, b1), kdf, Zeros(z1));
    var m2 := Write(Write(m1, lo + bAt, b2), lo, left);
    var m3 := Write(Write(m2, dst, dk), kdf, Zeros(z2));
    Write(m3, lo, Zeros(body))
  }

  lemma StepsTail(m0: seq<byte>, region: Span, dst: nat, dk: seq<byte>, body: nat, z1: nat, z2: nat,
                  b1: seq<byte>, b2: seq<byte>, bAt: nat, left: seq<byte>)
    requires dst + |dk| <= |m0| && region.hi() <= |m0| && Span(dst, |dk|).Disjoint(region)
    requires |b1| == |b2| && bAt + |b1| == body && |left| <= bAt && body + z1 <= region.len && body + z2 <= region.len
    ensures
      var m, z := Steps(m0, region, dst, dk, body, z1, z2, b1, b2, bAt, left), if z1 > z2 then z1 else z2;
      m[region.lo..region.lo + body + z] == Zeros(body + z)
  {
    hide Write, Zeros;
    var lo, kdf := region.lo, region.lo + body;
    var ma := Write(m0, lo + bAt, b1);
    var m1 := Write(ma, kdf, Zeros(z1));
    var mb := Write(m1, lo + bAt, b2);
    var m2 := Write(mb, lo, left);
    var mc := Write(m2, dst, dk);
    var m3 := Write(mc, kdf, Zeros(z2));
    var z := if z1 > z2 then z1 else z2;
    WriteRead(ma, kdf, Zeros(z1));
    TailKept(m1, kdf, z1, lo + bAt, b2, lo, left, dst, dk);
    ZerosTwice(mc, m3, kdf, z1, z2);
    FrontJoins(m3, lo, body, z);
  }

  /** Zeros past everything that is written stay zeros. */
  lemma TailKept(m: seq<byte>, at: nat, z: nat, a: nat, x: seq<byte>, b: nat, y: seq<byte>, d: nat, dk: seq<byte>)
    requires at + z <= |m| && m[at..at + z] == Zeros(z)
    requires a + |x| <= at && b + |y| <= at && d + |dk| <= |m| && (d + |dk| <= at || at + z <= d)
    ensures Write(Write(Write(m, a, x), b, y), d, dk)[at..at + z] == Zeros(z)
  {
    hide Write, Zeros;
    ReadApart(m, a, x, at, z);
    ReadApart(Write(m, a, x), b, y, at, z);
    ReadApart(Write(Write(m, a, x), b, y), d, dk, at, z);
  }

  lemma FrontJoins(m: seq<byte>, lo: nat, body: nat, z: nat)
    requires lo + body + z <= |m| && m[lo + body..lo + body + z] == Zeros(z)
    ensures Write(m, lo, Zeros(body))[lo..lo + body + z] == Zeros(body + z)
  {
    hide Write, Zeros;
    ReadApart(m, lo, Zeros(body), lo + body, z);
    WriteRead(m, lo, Zeros(body));
    ZerosJoin(Write(m, lo, Zeros(body)), lo, body, z);
  }

  lemma StepsCovered(m0: seq<byte>, region: Span, dst: nat, dk: seq<byte>, body: nat, z1: nat, z2: nat,
                     b1: seq<byte>, b2: seq<byte>, bAt: nat, left: seq<byte>)
    requires dst + |dk| <= |m0| && region.hi() <= |m0| && Span(dst, |dk|).Disjoint(region)
    requires |b1| == |b2| && bAt + |b1| == body && |left| <= bAt && body + z1 <= region.len && body + z2 <= region.len
    ensures
      var z := if z1 > z2 then z1 else z2;
      Write(Steps(m0, region, dst, dk, body, z1, z2, b1, b2, bAt, left), region.lo, Zeros(body + z))
        == Write(Write(m0, dst, dk), region.lo, Zeros(body + z))
  {
    hide Write, Zeros;
    var lo, kdf := region.lo, region.lo + body;
    var ma := Write(m0, lo + bAt, b1);
    var m1 := Write(ma, kdf, Zeros(z1));
    var mb := Write(m1, lo + bAt, b2);
    var m2 := Write(mb, lo, left);
    var mc := Write(m2, dst, dk);
    var m3 := Write(mc, kdf, Zeros(z2));
    var used := Zeros(body + if z1 > z2 then z1 else z2);
    WriteInside(m3, lo, Zeros(body), lo, used);
    WriteInside(mc, kdf, Zeros(z2), lo, used);
    WriteCommute(m2, dst, dk, lo, used);
    WriteInside(mb, lo, left, lo, used);
    WriteInside(m1, lo + bAt, b2, lo, used);
    WriteInside(ma, kdf, Zeros(z1), lo, used);
    WriteInside(m0, lo + bAt, b1, lo, used);
    WriteCommute(m0, dst, dk, lo, used);
  }

  /** Everything but dst is inside the region, and ends zero. */
  lemma RegionForgotten(m0: seq<byte>, region: Span, dst: nat, dk: seq<byte>, body: nat, z1: nat, z2: nat,
                        b1: seq<byte>, b2: seq<byte>, bAt: nat, left: seq<byte>)
    requires dst + |dk| <= |m0| && region.hi() <= |m0| && Span(dst, |dk|).Disjoint(region)
    requires |b1| == |b2| && bAt + |b1| == body && |left| <= bAt && body + z1 <= region.len && body + z2 <= region.len
    ensures
      var z := if z1 > z2 then z1 else z2;
      Steps(m0, region, dst, dk, body, z1, z2, b1, b2, bAt, left) == Write(Write(m0, dst, dk), region.lo, Zeros(body + z))
  {
    hide Write, Zeros, Steps;
    var m, z := Steps(m0, region, dst, dk, body, z1, z2, b1, b2, bAt, left), if z1 > z2 then z1 else z2;
    StepsTail(m0, region, dst, dk, body, z1, z2, b1, b2, bAt, left);
    StepsCovered(m0, region, dst, dk, body, z1, z2, b1, b2, bAt, left);
    WriteSelf(m, Span(region.lo, body + z));
  }

  /** The password is still readable after each step inside the region. */
  lemma PasswordStays(m0: seq<byte>, region: Span, body: nat, z1: nat, b1: seq<byte>, b2: seq<byte>, bAt: nat,
                      left: seq<byte>, password: View)
    requires region.hi() <= |m0| && |b1| == |b2| && bAt + |b1| == body && |left| <= bAt && body + z1 <= region.len
    requires password.Fits(|m0|) && password.Apart(region)
    ensures
      var lo, kdf := region.lo, region.lo + body;
      var m1 := Write(Write(m0, lo + bAt, b1), kdf, Zeros(z1));
      var m2 := Write(Write(m1, lo + bAt, b2), lo, left);
      && password.Bytes(m2) == password.Bytes(m0)
      && m2[lo + bAt..lo + body] == b2
  {
    hide Write, Zeros, View.Apart, View.Bytes;
    var lo, kdf := region.lo, region.lo + body;
    var ma := Write(m0, lo + bAt, b1);
    var m1 := Write(ma, kdf, Zeros(z1));
    var mb := Write(m1, lo + bAt, b2);
    ViewApart(m0, lo + bAt, b1, password, region);
    ViewApart(ma, kdf, Zeros(z1), password, region);
    ViewApart(m1, lo + bAt, b2, password, region);
    ViewApart(mb, lo, left, password, region);
    WriteRead(m1, lo + bAt, b2);
    ReadApart(mb, lo, left, lo + bAt, |b2|);
  }

  /** Steps 1 and 2: B = PBKDF2(P, S, 1, p 128 r), then the mix over it. */
  method Expand(h: Hash, c: Core, mem: array<byte>, region: Span, password: View, salt: View,
                workLen: nat, bLen: nat, z1: nat, len: nat, n: nat, ghost p: nat, ghost k: nat)
      returns (ghost b1: seq<byte>, ghost left: seq<byte>)
    requires h.Lawful() && c.Lawful() && n == Pow(2, k) && 0 < k <= 64 && len > 0 && bLen == p * len
    requires region.hi() <= mem.Length && workLen + bLen + z1 <= region.len && Layout(0, len, n).End() <= workLen
    requires password.Fits(mem.Length) && password.Apart(region) && salt.Fits(mem.Length) && salt.Apart(region)
    requires z1 == P.RegionSize(h, |salt.Bytes(mem[..])|)
    modifies mem
    ensures b1 == P.Derived(h, old(password.Bytes(mem[..])), old(salt.Bytes(mem[..])), 1, bLen) && |left| == workLen
    ensures
      var lo := region.lo;
      var m1 := Write(Write(old(mem[..]), lo + workLen, b1), lo + workLen + bLen, Zeros(z1));
      mem[..] == Write(Write(m1, lo + workLen, MixAll(c, b1, len, n)), lo, left)
  {
    hide Write, Zeros, Pow, MixAll, P.Derived, P.RegionSize, Core.Lawful, View.Apart, Span.Disjoint;
    ghost var m0 := mem[..];
    var lo := region.lo;
    var b, kdf := Span(lo + workLen, bLen), Span(lo + workLen + bLen, z1);
    InsideApart(region, b, kdf, Span(lo, workLen), password, salt);
    OneIteration(h, mem, b, kdf, password, salt);
    b1 := P.Derived(h, password.Bytes(m0), salt.Bytes(m0), 1, bLen);
    BehindKept(m0, b.lo, b1, kdf.lo, Zeros(z1));
    Mix(c, mem, b, Span(lo, workLen), len, n, p, k);
    left := mem[..][lo..lo + workLen];
  }

  /** Parts of the region are apart from whatever the region is apart from, and from each other. */
  lemma InsideApart(region: Span, b: Span, kdf: Span, work: Span, password: View, salt: View)
    requires region.lo <= work.lo && work.hi() <= b.lo && b.hi() <= kdf.lo && kdf.hi() <= region.hi()
    requires password.Apart(region) && salt.Apart(region)
    ensures b.Disjoint(kdf) && b.Disjoint(work)
    ensures password.Apart(b) && password.Apart(kdf) && salt.Apart(b) && salt.Apart(kdf)
  {
  }

  lemma BehindKept(m: seq<byte>, at: nat, a: seq<byte>, w: nat, z: seq<byte>)
    requires at + |a| <= w && w + |z| <= |m|
    ensures Write(Write(m, at, a), w, z)[at..at + |a|] == a
  {
    hide Write;
    WriteRead(m, at, a);
    ReadApart(Write(m, at, a), w, z, at, |a|);
  }

  /**
   * scrypt into dst, the region wiped. Both PBKDF2 calls make one iteration,
   * so neither depends on what its pads held.
   */
  method Compute(h: Hash, c: Core, mem: array<byte>, dst: Span, region: Span, password: View, salt: View,
                 n: nat, r: nat, p: nat, ghost k: nat)
    requires h.Lawful() && c.Lawful() && n == Pow(2, k) && 0 < k <= 64 && r > 0 && p > 0
    requires region.hi() <= mem.Length && dst.hi() <= mem.Length && dst.Disjoint(region)
    requires password.Fits(mem.Length) && password.Apart(region) && password.Apart(dst)
    requires salt.Fits(mem.Length) && salt.Apart(region)
    requires region.len >= RegionSize(h, |salt.Bytes(mem[..])|, n, r, p)
    modifies mem
    ensures
      var m := old(mem[..]);
      var s := salt.Bytes(m);
      mem[..] == Write(Write(m, dst.lo, Definition(h, c, password.Bytes(m), s, n, r, p, dst.len)),
                       region.lo, Zeros(RegionSize(h, |s|, n, r, p)))
  {
    hide Write, Zeros, Pow, MixAll, P.Derived, P.RegionSize, P.PadsAreZero, Core.Lawful, WorkSize;
    ghost var m0 := mem[..];
    var workLen, len := WorkSize(n, r), BlockSize(r);
    var bLen := p * len;
    var lo, body := region.lo, workLen + bLen;
    var saltLen := |salt.Bytes(mem[..])|;
    RegionMonotone(h, saltLen, bLen);
    var z1, z2 := P.RegionSize(h, saltLen), P.RegionSize(h, bLen);
    WorkFits(n, r);
    ghost var b1, left := Expand(h, c, mem, region, password, salt, workLen, bLen, z1, len, n, p, k);
    Finish(h, mem, dst, region, password, workLen, bLen, z1, z2, m0, b1, MixAll(c, b1, len, n), left);
  }

  /** Step 3: DK = PBKDF2(P, B, 1, dkLen), and the wipe of everything but PBKDF2's own region, which it wiped itself. */
  method Finish(h: Hash, mem: array<byte>, dst: Span, region: Span, password: View, workLen: nat, bLen: nat, z1: nat, z2: nat,
                ghost m0: seq<byte>, ghost b1: seq<byte>, ghost b2: seq<byte>, ghost left: seq<byte>)
    requires h.Lawful() && region.hi() <= mem.Length == |m0| && dst.hi() <= mem.Length && dst.Disjoint(region)
    requires password.Fits(mem.Length) && password.Apart(region) && password.Apart(dst)
    requires |b1| == |b2| == bLen && |left| == workLen && z2 == P.RegionSize(h, bLen)
    requires workLen + bLen + z1 <= region.len && workLen + bLen + z2 <= region.len
    requires
      var lo := region.lo;
      var m1 := Write(Write(m0, lo + workLen, b1), lo + workLen + bLen, Zeros(z1));
      mem[..] == Write(Write(m1, lo + workLen, b2), lo, left)
    modifies mem
    ensures mem[..] == Write(Write(m0, dst.lo, P.Derived(h, password.Bytes(m0), b2, 1, dst.len)), region.lo,
                             Zeros(workLen + bLen + if z1 > z2 then z1 else z2))
  {
    hide Write, Zeros, P.Derived, P.RegionSize, Steps, Span.Disjoint, View.Apart;
    var lo, body := region.lo, workLen + bLen;
    PasswordStays(m0, region, body, z1, b1, b2, workLen, left, password);
    Apartness(dst, region, password, Span(lo + workLen, bLen), Span(lo + body, z2));
    OneIteration(h, mem, dst, Span(lo + body, z2), password, In(Span(lo + workLen, bLen)));
    ghost var dk := P.Derived(h, password.Bytes(m0), b2, 1, dst.len);
    Copy(mem, lo, Zeros(body));
    StepsAre(m0, region, dst.lo, dk, body, z1, z2, b1, b2, workLen, left);
    RegionForgotten(m0, region, dst.lo, dk, body, z1, z2, b1, b2, workLen, left);
  }

  /** PBKDF2 with one iteration. */
  method OneIteration(h: Hash, mem: array<byte>, dst: Span, kdf: Span, password: View, salt: View)
    requires h.Lawful() && kdf.hi() <= mem.Length && dst.hi() <= mem.Length && dst.Disjoint(kdf)
    requires password.Fits(mem.Length) && password.Apart(kdf) && password.Apart(dst)
    requires salt.Fits(mem.Length) && salt.Apart(kdf) && salt.Apart(dst)
    requires kdf.len == P.RegionSize(h, |salt.Bytes(mem[..])|)
    modifies mem
    ensures
      var m := old(mem[..]);
      mem[..] == Write(Write(m, dst.lo, P.Derived(h, password.Bytes(m), salt.Bytes(m), 1, dst.len)), kdf.lo, Zeros(kdf.len))
  {
    hide Write, Zeros, P.Derived, P.RegionSize, P.PadsAreZero, Span.Disjoint, View.Apart;
    P.Compute(h, mem, dst, kdf, password, salt, 1);
  }

  lemma Apartness(dst: Span, region: Span, password: View, b: Span, kdf: Span)
    requires dst.Disjoint(region) && password.Apart(region) && b.hi() <= kdf.lo
    requires region.lo <= b.lo && b.hi() <= region.hi() && region.lo <= kdf.lo && kdf.hi() <= region.hi()
    ensures dst.Disjoint(kdf) && password.Apart(kdf) && In(b).Apart(kdf) && In(b).Apart(dst)
  {
  }

  lemma StepsAre(m0: seq<byte>, region: Span, dst: nat, dk: seq<byte>, body: nat, z1: nat, z2: nat,
                 b1: seq<byte>, b2: seq<byte>, bAt: nat, left: seq<byte>)
    requires dst + |dk| <= |m0| && region.hi() <= |m0|
    requires |b1| == |b2| && bAt + |b1| == body && |left| <= bAt && body + z1 <= region.len && body + z2 <= region.len
    ensures
      var lo, kdf := region.lo, region.lo + body;
      var m1 := Write(Write(m0, lo + bAt, b1), kdf, Zeros(z1));
      var m2 := Write(Write(m1, lo + bAt, b2), lo, left);
      Steps(m0, region, dst, dk, body, z1, z2, b1, b2, bAt, left)
        == Write(Write(Write(m2, dst, dk), kdf, Zeros(z2)), lo, Zeros(body))
  {
    hide Write, Zeros;
  }

  /** The longer salt has the larger region. */
  lemma RegionMonotone(h: Hash, a: nat, b: nat)
    ensures P.RegionSize(h, if a > b then a else b)
         == if P.RegionSize(h, a) > P.RegionSize(h, b) then P.RegionSize(h, a) else P.RegionSize(h, b)
  {
  }
}
