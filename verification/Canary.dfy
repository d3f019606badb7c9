/** The canary layout of canary.go: which bytes of a mapping are guards, arming them and checking them. */
module Canary {
  import opened Numbers
  import opened Options

  const LEN := 16

  /** Strips behind every slot, and one trailing zone; a buffer has the trailing zone only. */
  datatype Layout = Layout(stride: nat, slotSize: nat, count: nat, tailLo: nat, tailHi: nat)

  function BufferLayout(usable: nat, innerLen: nat): Layout {
    if usable >= innerLen then Layout(0, 0, 0, 0, 0) else Layout(0, 0, 0, usable, innerLen)
  }

  function ArenaLayout(stride: nat, slotSize: nat, count: nat, innerLen: nat): Layout {
    var used := count * stride;
    if used < innerLen then Layout(stride, slotSize, count, used, innerLen) else Layout(stride, slotSize, count, 0, 0)
  }

  /** The strips are inside the mapping, and the tail is behind them. */
  ghost predicate Regular(l: Layout, innerLen: nat) {
    && l.slotSize <= l.stride && l.count * l.stride <= innerLen
    && (l.tailLo < l.tailHi ==> l.count * l.stride <= l.tailLo && l.tailHi <= innerLen)
  }

  /** What an arena and a buffer are given. */
  lemma LayoutsRegular(slotSize: nat, count: nat, usable: nat, innerLen: nat)
    ensures Regular(BufferLayout(usable, innerLen), innerLen)
    ensures count * (slotSize + LEN) <= innerLen
        ==> Regular(ArenaLayout(slotSize + LEN, slotSize, count, innerLen), innerLen)
  {
  }

  // Where every byte belongs.

  /** Slot k's usable bytes. */
  ghost predicate InWindow(l: Layout, k: nat, i: nat) {
    k < l.count && k * l.stride <= i < k * l.stride + l.slotSize
  }

  ghost predicate InTail(l: Layout, i: nat) {
    l.tailLo <= i < l.tailHi
  }

  /** How far into its guard zone byte i is, if it is in one. */
  ghost function Guard(l: Layout, i: nat): Option<nat> {
    if l.stride > 0 && i / l.stride < l.count then
      if i % l.stride >= l.slotSize then Some(i % l.stride - l.slotSize) else None
    else if InTail(l, i) then Some(i - l.tailLo)
    else None
  }

  lemma Quotient(i: nat, k: nat, s: nat)
    requires k * s <= i < k * s + s
    ensures s > 0 && i / s == k && i % s == i - k * s
  {
    Remainder(i, s, k, i - k * s);
    var q := i / s;
    assert i == s * q + i % s;
    assert s * q == s * k;
    if q > k {
      MulMinus(q, k, s);
      MulAtLeast(q - k, s);
    } else if q < k {
      MulMinus(k, q, s);
      MulAtLeast(k - q, s);
    }
  }

  lemma Behind(l: Layout, i: nat)
    requires l.count * l.stride <= i
    ensures !(l.stride > 0 && i / l.stride < l.count)
  {
    if l.stride > 0 {
      var q := i / l.stride;
      assert i == l.stride * q + i % l.stride;
      if q < l.count {
        SlotEnds(l, q);
      }
    }
  }

  lemma SlotEnds(l: Layout, k: nat)
    requires k < l.count
    ensures k * l.stride + l.stride <= l.count * l.stride
  {
    MulMinus(l.count, k, l.stride);
    MulAtLeast(l.count - k, l.stride);
  }

  /**
   * Windows, strips and tail partition an arena's slab: every byte is in
   * exactly one window or in a guard zone, and never in both.
   */
  lemma Partition(slotSize: nat, count: nat, innerLen: nat, i: nat)
    requires count * (slotSize + LEN) <= innerLen && i < innerLen
    ensures
      var l := ArenaLayout(slotSize + LEN, slotSize, count, innerLen);
      && (Guard(l, i).None? <==> exists k: nat :: InWindow(l, k, i))
      && forall k: nat, m: nat :: InWindow(l, k, i) && InWindow(l, m, i) ==> k == m
  {
    hide Guard, InWindow;
    LayoutsRegular(slotSize, count, 0, innerLen);
    var l := ArenaLayout(slotSize + LEN, slotSize, count, innerLen);
    forall k: nat | InWindow(l, k, i)
      ensures Guard(l, i).None? && forall m: nat :: m != k ==> !InWindow(l, m, i)
    {
      WindowsApart(l, innerLen, k, i);
    }
    if Guard(l, i).None? {
      var k := WindowOf(slotSize, count, innerLen, i);
    }
  }

  /** In a buffer's mapping the guards are exactly the bytes behind the usable ones, in order. */
  lemma BufferGuards(usable: nat, innerLen: nat, i: nat)
    requires i < innerLen
    ensures Guard(BufferLayout(usable, innerLen), i) == if i < usable then None else Some(i - usable)
  {
  }

  /** A byte that is no guard has its slot. */
  lemma WindowOf(slotSize: nat, count: nat, innerLen: nat, i: nat) returns (k: nat)
    requires count * (slotSize + LEN) <= innerLen && i < innerLen
    requires Guard(ArenaLayout(slotSize + LEN, slotSize, count, innerLen), i).None?
    ensures InWindow(ArenaLayout(slotSize + LEN, slotSize, count, innerLen), k, i)
  {
    var l := ArenaLayout(slotSize + LEN, slotSize, count, innerLen);
    if count * l.stride <= i {
      Behind(l, i);
    }
    k := i / l.stride;
    assert i == l.stride * k + i % l.stride;
    if k >= count {
      MulOrder(count, k, l.stride);
    }
  }

  /** A slot's bytes are never guards, and no two slots share one. */
  lemma WindowsApart(l: Layout, innerLen: nat, k: nat, i: nat)
    requires Regular(l, innerLen) && InWindow(l, k, i)
    ensures Guard(l, i).None? && i < innerLen
    ensures forall m: nat :: m != k ==> !InWindow(l, m, i)
  {
    Quotient(i, k, l.stride);
    SlotEnds(l, k);
    forall m: nat | InWindow(l, m, i)
      ensures m == k
    {
      Quotient(i, m, l.stride);
    }
  }

  /** Byte i of slot k's stride is a guard exactly past the window. */
  lemma GuardInSlot(l: Layout, innerLen: nat, k: nat, i: nat)
    requires Regular(l, innerLen) && k < l.count && k * l.stride <= i < k * l.stride + l.stride
    ensures
      var off := i - k * l.stride;
      Guard(l, i) == if off >= l.slotSize then Some(off - l.slotSize) else None
  {
    Quotient(i, k, l.stride);
  }

  lemma GuardBehind(l: Layout, innerLen: nat, i: nat)
    requires Regular(l, innerLen) && l.count * l.stride <= i
    ensures Guard(l, i) == if InTail(l, i) then Some(i - l.tailLo) else None
  {
    Behind(l, i);
  }

  // Arming.

  /** What byte i holds once the guards are armed: the pattern from the start of its zone. */
  ghost function Armed(l: Layout, pattern: seq<bv8>, m: seq<bv8>, i: nat): bv8
    requires |pattern| == LEN && i < |m|
  {
    if Guard(l, i).Some? then pattern[Guard(l, i).value % LEN] else m[i]
  }

  /** The repeating pattern over one zone. */
  method Fill(mem: array<bv8>, lo: nat, hi: nat, pattern: seq<bv8>)
    requires lo <= hi <= mem.Length && |pattern| == LEN
    modifies mem
    ensures forall i :: 0 <= i < mem.Length ==> mem[i] == if lo <= i < hi then pattern[(i - lo) % LEN] else old(mem[i])
  {
    for j := lo to hi
      invariant forall i :: 0 <= i < mem.Length ==> mem[i] == if lo <= i < j then pattern[(i - lo) % LEN] else old(mem[i])
    {
      mem[j] := pattern[(j - lo) % LEN];
    }
  }

  lemma StripBytes(l: Layout, pattern: seq<bv8>, m: seq<bv8>, k: nat, at: nat)
    requires Regular(l, |m|) && k < l.count && at == k * l.stride && |pattern| == LEN
    ensures at + l.stride <= |m|
    ensures forall i :: at <= i < at + l.stride ==>
      Armed(l, pattern, m, i) == if i >= at + l.slotSize then pattern[(i - (at + l.slotSize)) % LEN] else m[i]
  {
    hide Guard;
    SlotEnds(l, k);
    forall i | at <= i < at + l.stride
      ensures Armed(l, pattern, m, i) == if i >= at + l.slotSize then pattern[(i - (at + l.slotSize)) % LEN] else m[i]
    {
      GuardInSlot(l, |m|, k, i);
    }
  }

  lemma TailBytes(l: Layout, pattern: seq<bv8>, m: seq<bv8>, at: nat)
    requires Regular(l, |m|) && at == l.count * l.stride && |pattern| == LEN
    ensures forall i :: at <= i < |m| ==>
      Armed(l, pattern, m, i) == if InTail(l, i) then pattern[(i - l.tailLo) % LEN] else m[i]
  {
    hide Guard;
    forall i | at <= i < |m|
      ensures Armed(l, pattern, m, i) == if InTail(l, i) then pattern[(i - l.tailLo) % LEN] else m[i]
    {
      GuardBehind(l, |m|, i);
    }
  }

  /** Every guard armed, and nothing else touched. */
  method Arm(l: Layout, mem: array<bv8>, pattern: seq<bv8>)
    requires Regular(l, mem.Length) && |pattern| == LEN
    modifies mem
    ensures forall i :: 0 <= i < mem.Length ==> mem[i] == Armed(l, pattern, old(mem[..]), i)
  {
    hide Armed;
    ghost var was := mem[..];
    var at := 0;
    for k := 0 to l.count
      invariant at == k * l.stride <= mem.Length
      invariant forall i :: 0 <= i < mem.Length ==> mem[i] == if i < at then Armed(l, pattern, was, i) else was[i]
    {
      StripBytes(l, pattern, was, k, at);
      var lo, hi := at + l.slotSize, at + l.stride;
      if lo < hi {
        Fill(mem, lo, hi, pattern);
      }
      at := hi;
    }
    TailBytes(l, pattern, was, at);
    if l.tailLo < l.tailHi {
      Fill(mem, l.tailLo, l.tailHi, pattern);
    }
  }

  // Checking.

  /** The comparison that does not stop at the first difference. */
  method ZoneIntact(mem: array<bv8>, lo: nat, hi: nat, pattern: seq<bv8>) returns (ok: bool, ghost bad: nat)
    requires lo <= hi <= mem.Length && |pattern| == LEN
    ensures ok ==> forall i :: lo <= i < hi ==> mem[i] == pattern[(i - lo) % LEN]
    ensures !ok ==> lo <= bad < hi && mem[bad] != pattern[(bad - lo) % LEN]
  {
    var acc: bv8 := 0;
    bad := lo;
    for j := lo to hi
      invariant acc == 0 ==> forall i :: lo <= i < j ==> mem[i] == pattern[(i - lo) % LEN]
      invariant acc != 0 ==> lo <= bad < j && mem[bad] != pattern[(bad - lo) % LEN]
    {
      Accumulates(acc, mem[j], pattern[(j - lo) % LEN]);
      if acc == 0 {
        bad := j;
      }
      acc := acc | (mem[j] ^ pattern[(j - lo) % LEN]);
    }
    ok := acc == 0;
  }

  lemma Accumulates(acc: bv8, x: bv8, y: bv8)
    ensures acc | (x ^ y) == 0 <==> acc == 0 && x == y
  {
  }

  /** True exactly when every guard still holds what arming put there. */
  method Intact(l: Layout, mem: array<bv8>, pattern: seq<bv8>) returns (ok: bool)
    requires Regular(l, mem.Length) && |pattern| == LEN
    ensures ok <==> forall i :: 0 <= i < mem.Length ==> mem[i] == Armed(l, pattern, mem[..], i)
  {
    hide Armed;
    ghost var m := mem[..];
    var at := 0;
    for k := 0 to l.count
      invariant at == k * l.stride <= mem.Length
      invariant forall i :: 0 <= i < at ==> m[i] == Armed(l, pattern, m, i)
    {
      StripBytes(l, pattern, m, k, at);
      var lo, hi := at + l.slotSize, at + l.stride;
      if lo < hi {
        ghost var bad;
        ok, bad := ZoneIntact(mem, lo, hi, pattern);
        if !ok {
          assert m[bad] != Armed(l, pattern, m, bad);
          return;
        }
      }
      at := hi;
    }
    TailBytes(l, pattern, m, at);
    ok := true;
    if l.tailLo < l.tailHi {
      ghost var bad;
      ok, bad := ZoneIntact(mem, l.tailLo, l.tailHi, pattern);
      if !ok {
        assert m[bad] != Armed(l, pattern, m, bad);
      }
    }
  }

  ghost predicate AllIntact(l: Layout, pattern: seq<bv8>, m: seq<bv8>)
    requires |pattern| == LEN
  {
    forall i :: 0 <= i < |m| ==> m[i] == Armed(l, pattern, m, i)
  }

  /** Arming leaves the guards intact, and what an owner writes inside a window keeps them so. */
  lemma OwnerKeepsIntact(l: Layout, pattern: seq<bv8>, m: seq<bv8>, m': seq<bv8>, k: nat)
    requires Regular(l, |m|) && |pattern| == LEN && |m'| == |m| && AllIntact(l, pattern, m)
    requires forall i :: 0 <= i < |m| && !InWindow(l, k, i) ==> m'[i] == m[i]
    ensures AllIntact(l, pattern, m')
  {
    forall i | 0 <= i < |m|
      ensures m'[i] == Armed(l, pattern, m', i)
    {
      if InWindow(l, k, i) {
        WindowsApart(l, |m|, k, i);
      } else {
        assert m[i] == Armed(l, pattern, m, i);
      }
    }
  }

  /** A changed guard byte is always noticed. */
  lemma ChangeIsNoticed(l: Layout, pattern: seq<bv8>, m: seq<bv8>, i: nat, v: bv8)
    requires |pattern| == LEN && i < |m| && AllIntact(l, pattern, m) && Guard(l, i).Some? && v != m[i]
    ensures !AllIntact(l, pattern, m[i := v])
  {
    hide Guard;
    var m' := m[i := v];
    assert m[i] == Armed(l, pattern, m, i);
    assert m'[i] != Armed(l, pattern, m', i);
  }
}
