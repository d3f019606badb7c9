/**
 * HMAC and HKDF computed in a caller's scratch region, against section 2 of
 * RFC 2104 and sections 2.2 and 2.3 of RFC 5869. The hash itself is any
 * function with the right digest length.
 */
module Hmac {
  import opened Numbers
  import opened Memory

  datatype HashId =
    | SHA1
    | SHA224 | SHA256
    | SHA384 | SHA512 | SHA512_224 | SHA512_256
    | SHA3_224 | SHA3_256 | SHA3_384 | SHA3_512
  {
    function Size(): nat {
      match this
      case SHA1 => 20
      case SHA224 | SHA512_224 | SHA3_224 => 28
      case SHA256 | SHA512_256 | SHA3_256 => 32
      case SHA384 | SHA3_384 => 48
      case SHA512 | SHA3_512 => 64
    }

    function Block(): nat {
      match this
      case SHA1 | SHA224 | SHA256 => 64
      case SHA384 | SHA512 | SHA512_224 | SHA512_256 => 128
      case SHA3_224 => 144
      case SHA3_256 => 136
      case SHA3_384 => 104
      case SHA3_512 => 72
    }
  }

  const MAX_SIZE := 64

  /** A hash by its sizes; the digest itself is left open. */
  datatype Hash = Hash(size: nat, block: nat, digest: seq<byte> -> seq<byte>) {
    ghost predicate Lawful() {
      && 0 < size <= MAX_SIZE && size < block
      && forall data :: |digest(data)| == size
    }
  }

  /** The sizes of every hash of the table are ones the in-place code can work with. */
  lemma TableIsLawful(id: HashId, digest: seq<byte> -> seq<byte>)
    requires forall data :: |digest(data)| == id.Size()
    ensures Hash(id.Size(), id.Block(), digest).Lawful()
  {
  }

  // The definitions the code is held against.

  function ShortKey(h: Hash, key: seq<byte>): seq<byte> {
    if |key| > h.block then h.digest(key) else key
  }

  function PadKey(h: Hash, key: seq<byte>): (k: seq<byte>)
    requires h.Lawful()
    ensures |k| == h.block
  {
    var k := ShortKey(h, key);
    k + Zeros(h.block - |k|)
  }

  function Mac(h: Hash, key: seq<byte>, text: seq<byte>): (d: seq<byte>)
    requires h.Lawful()
    ensures |d| == h.size
  {
    var k := PadKey(h, key);
    h.digest(XorEach(k, 0x5c) + h.digest(XorEach(k, 0x36) + text))
  }

  /** The key, shortened if it must be, zeros behind it, masked with a constant. */
  ghost predicate IsPad(h: Hash, key: seq<byte>, c: byte, pad: seq<byte>) {
    var k := if |key| > h.block then h.digest(key) else key;
    |pad| == h.block && forall i :: 0 <= i < h.block ==> pad[i] == if i < |k| then Xor(k[i], c) else Xor(0, c)
  }

  /** Section 2 of RFC 2104, byte by byte: H(K xor opad, H(K xor ipad, text)). */
  lemma MacIs(h: Hash, key: seq<byte>, text: seq<byte>, ipad: seq<byte>, opad: seq<byte>)
    requires h.Lawful() && IsPad(h, key, 0x36, ipad) && IsPad(h, key, 0x5c, opad)
    ensures Mac(h, key, text) == h.digest(opad + h.digest(ipad + text))
  {
    hide Xor;
    assert XorEach(PadKey(h, key), 0x36) == ipad;
    assert XorEach(PadKey(h, key), 0x5c) == opad;
  }

  // The in-place computation.

  function ScratchSize(h: Hash, msgLen: nat): nat {
    h.block + if msgLen > h.size then msgLen else h.size
  }

  ghost predicate AllFit(parts: seq<View>, n: nat) {
    forall i :: 0 <= i < |parts| ==> parts[i].Fits(n)
  }

  ghost predicate AllApart(parts: seq<View>, w: Span) {
    forall i :: 0 <= i < |parts| ==> parts[i].Apart(w)
  }

  /** The message: every part in turn. */
  ghost function Joined(m: seq<byte>, parts: seq<View>): seq<byte>
    requires AllFit(parts, |m|)
  {
    if parts == [] then [] else Joined(m, parts[..|parts| - 1]) + parts[|parts| - 1].Bytes(m)
  }

  lemma JoinedNone(m: seq<byte>, parts: seq<View>)
    requires AllFit(parts, |m|)
    ensures Joined(m, parts[..0]) == []
  {
  }

  lemma JoinedNext(m: seq<byte>, parts: seq<View>, i: nat)
    requires i < |parts| && AllFit(parts, |m|)
    ensures Joined(m, parts[..i + 1]) == Joined(m, parts[..i]) + parts[i].Bytes(m)
  {
    assert parts[..i + 1][..i] == parts[..i];
  }

  lemma {:induction false} JoinedPrefix(m: seq<byte>, parts: seq<View>, i: nat)
    requires i <= |parts| && AllFit(parts, |m|)
    ensures |Joined(m, parts[..i])| <= |Joined(m, parts)|
    decreases |parts| - i
  {
    if i < |parts| {
      JoinedPrefix(m, parts, i + 1);
      JoinedNext(m, parts, i);
    } else {
      assert parts[..i] == parts;
    }
  }

  method TotalLength(mem: array<byte>, parts: seq<View>) returns (total: nat)
    requires AllFit(parts, mem.Length)
    ensures total == |Joined(mem[..], parts)|
  {
    total := 0;
    for i := 0 to |parts|
      invariant total == |Joined(mem[..], parts[..i])|
    {
      JoinedNext(mem[..], parts, i);
      total := total + |parts[i].Bytes(mem[..])|;
    }
    assert parts[..|parts|] == parts;
  }

  lemma GatherStep(m0: seq<byte>, m: seq<byte>, at: nat, parts: seq<View>, i: nat, room: nat)
    requires i < |parts| && AllFit(parts, |m0|) && AllApart(parts, Span(at, room))
    requires |Joined(m0, parts)| <= room && at + room <= |m0|
    requires |Joined(m0, parts[..i])| <= room && m == Write(m0, at, Joined(m0, parts[..i]))
    ensures parts[i].Bytes(m) == parts[i].Bytes(m0)
    ensures |Joined(m0, parts[..i])| + |parts[i].Bytes(m0)| == |Joined(m0, parts[..i + 1])| <= room
    ensures Write(m, at + |Joined(m0, parts[..i])|, parts[i].Bytes(m0)) == Write(m0, at, Joined(m0, parts[..i + 1]))
  {
    hide Write, Joined;
    JoinedPrefix(m0, parts, i + 1);
    JoinedNext(m0, parts, i);
    ViewApart(m0, at, Joined(m0, parts[..i]), parts[i], Span(at, room));
    WriteOn(m0, at, Joined(m0, parts[..i]), parts[i].Bytes(m0));
  }

  lemma AllApartSub(parts: seq<View>, w: Span, v: Span)
    requires AllApart(parts, w) && w.lo <= v.lo && v.hi() <= w.hi()
    ensures AllApart(parts, v)
  {
  }

  /** Every part copied behind the pad, before anything else is written. */
  method Gather(mem: array<byte>, at: nat, parts: seq<View>, ghost room: nat) returns (n: nat)
    requires AllFit(parts, mem.Length) && AllApart(parts, Span(at, room))
    requires |Joined(mem[..], parts)| <= room && at + room <= mem.Length
    modifies mem
    ensures n == |old(Joined(mem[..], parts))|
    ensures mem[..] == Write(old(mem[..]), at, old(Joined(mem[..], parts)))
  {
    hide Write, Joined, View.Bytes, View.Apart;
    n := 0;
    ghost var m0 := mem[..];
    WriteNothing(m0, at);
    JoinedNone(m0, parts);
    for i := 0 to |parts|
      invariant n == |Joined(m0, parts[..i])| <= room
      invariant mem[..] == Write(m0, at, Joined(m0, parts[..i]))
    {
      GatherStep(m0, mem[..], at, parts, i, room);
      var p := parts[i].Bytes(mem[..]);
      Copy(mem, at + n, p);
      n := n + |p|;
    }
    assert parts[..|parts|] == parts;
  }

  /** clear(pad); copy(pad, key); pad ^= c. */
  method LayPad(h: Hash, mem: array<byte>, at: nat, key: View, c: byte)
    requires h.Lawful()
    requires at + h.block <= mem.Length && key.Fits(mem.Length) && key.Apart(Span(at, h.block))
    requires |key.Bytes(mem[..])| <= h.block
    modifies mem
    ensures mem[..] == Write(old(mem[..]), at, XorEach(PadKey(h, old(key.Bytes(mem[..]))), c))
  {
    hide Write;
    ghost var m0 := mem[..];
    Copy(mem, at, Zeros(h.block));
    ViewApart(m0, at, Zeros(h.block), key, Span(at, h.block));
    var k := key.Bytes(mem[..]);
    Copy(mem, at, k);
    WriteFront(m0, at, Zeros(h.block), k);
    XorConst(mem, Span(at, h.block), c);
    assert Zeros(h.block)[|k|..] == Zeros(h.block - |k|);
    WriteRead(m0, at, k + Zeros(h.block - |k|));
    WriteOver(m0, at, k + Zeros(h.block - |k|), XorEach(k + Zeros(h.block - |k|), c));
  }

  lemma ScratchForgotten(m0: seq<byte>, s: nat, ipad: seq<byte>, outer: seq<byte>, dst: nat, mac: seq<byte>, used: nat)
    requires |ipad| <= used && |outer| <= used
    requires s + used <= |m0| && dst + |mac| <= |m0| && Span(dst, |mac|).Disjoint(Span(s, used))
    ensures Write(Write(Write(Write(m0, s, ipad), s, outer), dst, mac), s, Zeros(used))
         == Write(Write(m0, s, Zeros(used)), dst, mac)
  {
    hide Write;
    var m1 := Write(m0, s, ipad);
    WriteCommute(Write(m1, s, outer), dst, mac, s, Zeros(used));
    WriteInside(m1, s, outer, s, Zeros(used));
    WriteInside(m0, s, ipad, s, Zeros(used));
  }

  /** The inner hash: ipad in front of the message. */
  method HashInner(h: Hash, mem: array<byte>, s: nat, k: View, n: nat) returns (inner: seq<byte>)
    requires h.Lawful() && k.Fits(mem.Length) && |k.Bytes(mem[..])| <= h.block
    requires s + h.block + n <= mem.Length && k.Apart(Span(s, h.block))
    modifies mem
    ensures
      var ipad := XorEach(PadKey(h, old(k.Bytes(mem[..]))), 0x36);
      && mem[..] == Write(old(mem[..]), s, ipad)
      && inner == h.digest(ipad + old(mem[..])[s + h.block..s + h.block + n])
    ensures k.Bytes(mem[..]) == old(k.Bytes(mem[..]))
  {
    hide Write, PadKey, XorEach, Zeros, View.Bytes, View.Apart;
    ghost var m0 := mem[..];
    LayPad(h, mem, s, k, 0x36);
    ghost var ipad := XorEach(PadKey(h, k.Bytes(m0)), 0x36);
    ReadFrontAndRest(m0, s, ipad, n);
    ViewApart(m0, s, ipad, k, Span(s, h.block));
    inner := h.digest(mem[..][s..s + h.block + n]);
  }

  /** The outer hash: opad in front of the inner digest. */
  method HashOuter(h: Hash, mem: array<byte>, s: nat, k: View, inner: seq<byte>) returns (mac: seq<byte>)
    requires h.Lawful() && k.Fits(mem.Length) && |k.Bytes(mem[..])| <= h.block && |inner| == h.size
    requires s + h.block + h.size <= mem.Length && k.Apart(Span(s, h.block))
    modifies mem
    ensures
      var outer := XorEach(PadKey(h, old(k.Bytes(mem[..]))), 0x5c) + inner;
      mem[..] == Write(old(mem[..]), s, outer) && mac == h.digest(outer)
  {
    hide Write, PadKey, XorEach, Zeros, View.Bytes, View.Apart;
    ghost var m0 := mem[..];
    LayPad(h, mem, s, k, 0x5c);
    ghost var opad := XorEach(PadKey(h, k.Bytes(m0)), 0x5c);
    Copy(mem, s + h.block, inner);
    WriteOn(m0, s, opad, inner);
    WriteRead(m0, s, opad + inner);
    mac := h.digest(mem[..][s..s + h.block + h.size]);
  }

  /** The two hashes, once the message is in place behind the pad; the scratch is wiped after them. */
  method HashTwice(h: Hash, mem: array<byte>, dst: nat, s: nat, k: View, n: nat)
    requires h.Lawful() && k.Fits(mem.Length) && |k.Bytes(mem[..])| <= h.block
    requires s + ScratchSize(h, n) <= mem.Length && k.Apart(Span(s, ScratchSize(h, n)))
    requires dst + h.size <= mem.Length && Span(dst, h.size).Disjoint(Span(s, ScratchSize(h, n)))
    modifies mem
    ensures
      var text := old(mem[..])[s + h.block..s + h.block + n];
      mem[..] == Write(Write(old(mem[..]), s, Zeros(ScratchSize(h, n))), dst, Mac(h, old(k.Bytes(mem[..])), text))
  {
    hide Write, PadKey, XorEach, Zeros;
    ghost var m0 := mem[..];
    ghost var key := PadKey(h, k.Bytes(m0));
    var inner := HashInner(h, mem, s, k, n);
    var mac := HashOuter(h, mem, s, k, inner);
    Copy(mem, dst, mac);
    Copy(mem, s, Zeros(ScratchSize(h, n)));
    ScratchForgotten(m0, s, XorEach(key, 0x36), XorEach(key, 0x5c) + inner, dst, mac, ScratchSize(h, n));
  }

  lemma ReadFrontAndRest(m: seq<byte>, at: nat, a: seq<byte>, n: nat)
    requires at + |a| + n <= |m|
    ensures Write(m, at, a)[at..at + |a| + n] == a + m[at + |a|..at + |a| + n]
  {
  }

  /**
   * HMAC over the parts into dst. Parts and key may be windows of the same
   * memory, and dst may overlap any of them; only the scratch is kept apart.
   * What the scratch held is wiped.
   */
  method InPlace(h: Hash, mem: array<byte>, dst: nat, scratch: Span, key: View, parts: seq<View>) returns (ok: bool)
    requires h.Lawful() && scratch.hi() <= mem.Length && dst + h.size <= mem.Length
    requires Span(dst, h.size).Disjoint(scratch)
    requires key.Fits(mem.Length) && key.Apart(scratch)
    requires AllFit(parts, mem.Length) && AllApart(parts, scratch)
    modifies mem
    ensures ok <==> scratch.len >= ScratchSize(h, |old(Joined(mem[..], parts))|)
    ensures !ok ==> mem[..] == old(mem[..])
    ensures ok ==>
      var text := old(Joined(mem[..], parts));
      mem[..] == Write(Write(old(mem[..]), scratch.lo, Zeros(ScratchSize(h, |text|))), dst,
                       Mac(h, old(key.Bytes(mem[..])), text))
  {
    hide Write, Joined, PadKey, Zeros, AllFit, AllApart;
    ghost var m0 := mem[..];
    ghost var text := Joined(m0, parts);
    var total := TotalLength(mem, parts);
    if scratch.len < ScratchSize(h, total) {
      return false;
    }
    var k := key;
    if |key.Bytes(mem[..])| > h.block {
      k := Ext(h.digest(key.Bytes(mem[..])));
    }
    PadsSame(h, key.Bytes(m0), k.Bytes(m0));
    var s, block, used := scratch.lo, h.block, ScratchSize(h, total);
    AllApartSub(parts, scratch, Span(s + block, scratch.len - block));
    var n := Gather(mem, s + block, parts, scratch.len - block);
    ViewApart(m0, s + block, text, k, scratch);
    WriteRead(m0, s + block, text);
    HashTwice(h, mem, dst, s, k, n);
    WriteInside(m0, s + block, text, s, Zeros(used));
    ok := true;
  }

  /** A key too long is hashed first, and pads as its digest does. */
  lemma PadsSame(h: Hash, key: seq<byte>, k: seq<byte>)
    requires h.Lawful() && k == if |key| > h.block then h.digest(key) else key
    ensures |k| <= h.block && PadKey(h, k) == PadKey(h, key)
  {
  }

  // HKDF.

  /** An absent salt is a digest's length of zeros. */
  function Extract(h: Hash, salt: seq<byte>, secret: seq<byte>): (prk: seq<byte>)
    requires h.Lawful()
    ensures |prk| == h.size
  {
    Mac(h, if salt == [] then Zeros(h.size) else salt, secret)
  }

  lemma EmptySalt(h: Hash, secret: seq<byte>)
    requires h.Lawful()
    ensures Mac(h, [], secret) == Mac(h, Zeros(h.size), secret)
  {
    assert PadKey(h, []) == Zeros(h.block);
    assert PadKey(h, Zeros(h.size)) == Zeros(h.block);
  }

  /** The two hashes of the extraction, over the salt padded and masked; an empty salt pads to zeros. */
  lemma ExtractIs(h: Hash, salt: seq<byte>, secret: seq<byte>, ipad: seq<byte>, opad: seq<byte>)
    requires h.Lawful() && IsPad(h, salt, 0x36, ipad) && IsPad(h, salt, 0x5c, opad)
    ensures Extract(h, salt, secret) == h.digest(opad + h.digest(ipad + secret))
  {
    hide Mac, IsPad;
    MacIs(h, salt, secret, ipad, opad);
    EmptySalt(h, secret);
  }

  /** T(i); the counter is one octet. */
  function T(h: Hash, prk: seq<byte>, info: seq<byte>, i: nat): (t: seq<byte>)
    requires h.Lawful()
    ensures i > 0 ==> |t| == h.size
  {
    if i == 0 then [] else Mac(h, prk, T(h, prk, info, i - 1) + info + [i % 256])
  }

  /** T(1) | ... | T(n). */
  function Expanded(h: Hash, prk: seq<byte>, info: seq<byte>, n: nat): (s: seq<byte>)
    requires h.Lawful()
    ensures |s| == n * h.size
  {
    if n == 0 then [] else
      assert n * h.size == (n - 1) * h.size + h.size;
      Expanded(h, prk, info, n - 1) + T(h, prk, info, n)
  }

  function Ceiling(a: nat, b: nat): nat
    requires b > 0
  {
    (a + b - 1) / b
  }

  lemma CeilingCovers(a: nat, b: nat)
    requires b > 0
    ensures a <= Ceiling(a, b) * b < a + b
  {
    var q, r := (a + b - 1) / b, (a + b - 1) % b;
    assert q * b + r == a + b - 1;
  }

  /** Output keying material of n octets: the first n of T(1) | T(2) | ... */
  function Okm(h: Hash, prk: seq<byte>, info: seq<byte>, n: nat): (s: seq<byte>)
    requires h.Lawful()
    ensures |s| == n
  {
    CeilingCovers(n, h.size);
    Expanded(h, prk, info, Ceiling(n, h.size))[..n]
  }

  /** The region the HKDF works in: the key, the running block, then HMAC scratch. */
  function HkdfRegionSize(h: Hash, secret: nat, info: nat): nat {
    2 * MAX_SIZE + h.block + if secret > h.size + info + 1 then secret else h.size + info + 1
  }

  lemma JoinedOne(m: seq<byte>, a: View)
    requires a.Fits(|m|)
    ensures Joined(m, [a]) == a.Bytes(m)
  {
    assert [a][..0] == [];
  }

  lemma JoinedLast(m: seq<byte>, parts: seq<View>, v: View)
    requires AllFit(parts, |m|) && v.Fits(|m|)
    ensures AllFit(parts + [v], |m|)
    ensures Joined(m, parts + [v]) == Joined(m, parts) + v.Bytes(m)
  {
    assert (parts + [v])[..|parts|] == parts;
  }

  lemma AllApartOne(v: View, w: Span)
    requires v.Apart(w)
    ensures AllApart([v], w)
  {
  }

  lemma AllApartLast(parts: seq<View>, v: View, w: Span)
    requires AllApart(parts, w) && v.Apart(w)
    ensures AllApart(parts + [v], w)
  {
  }

  /** PRK = HMAC(salt, secret), at the head of the region. */
  method ExtractInto(h: Hash, mem: array<byte>, region: Span, secret: View, salt: View)
      returns (ghost r: seq<byte>)
    requires h.Lawful() && region.hi() <= mem.Length
    requires secret.Fits(mem.Length) && secret.Apart(region) && salt.Fits(mem.Length) && salt.Apart(region)
    requires region.len >= HkdfRegionSize(h, |secret.Bytes(mem[..])|, 0)
    modifies mem
    ensures |r| == region.len && mem[..] == Write(old(mem[..]), region.lo, r)
    ensures r[..h.size] == Extract(h, old(salt.Bytes(mem[..])), old(secret.Bytes(mem[..])))
  {
    hide Write, Mac, Zeros, Joined, View.Bytes;
    ghost var m0 := mem[..];
    var scratch := Span(region.lo + 2 * MAX_SIZE, region.len - 2 * MAX_SIZE);
    ghost var ikm, s := secret.Bytes(m0), salt.Bytes(m0);
    JoinedOne(m0, secret);
    EmptySalt(h, ikm);
    var ok := InPlace(h, mem, region.lo, scratch, salt, [secret]);
    ghost var was := m0[region.lo..region.hi()];
    WriteSelf(m0, region);
    ghost var cleared := Write(was, 2 * MAX_SIZE, Zeros(ScratchSize(h, |ikm|)));
    WriteNestedTwice(m0, region.lo, was, 2 * MAX_SIZE, Zeros(ScratchSize(h, |ikm|)), 0, Mac(h, s, ikm));
    r := Write(cleared, 0, Mac(h, s, ikm));
    WriteRead(cleared, 0, Mac(h, s, ikm));
  }

  /** The running block of the region, T(i) once i blocks are done. */
  ghost predicate Running(h: Hash, r: seq<byte>, prk: seq<byte>, info: seq<byte>, i: nat)
    requires h.Lawful()
  {
    && |r| >= 2 * MAX_SIZE
    && r[..h.size] == prk
    && (i > 0 ==> r[MAX_SIZE..MAX_SIZE + h.size] == T(h, prk, info, i))
  }

  lemma StartRunning(h: Hash, r: seq<byte>, prk: seq<byte>, info: seq<byte>)
    requires h.Lawful() && |r| >= 2 * MAX_SIZE && r[..h.size] == prk
    ensures Running(h, r, prk, info, 0)
  {
  }

  lemma NextBlock(h: Hash, r: seq<byte>, prk: seq<byte>, info: seq<byte>, i: nat, used: nat)
    requires h.Lawful() && Running(h, r, prk, info, i) && 2 * MAX_SIZE + used <= |r|
    ensures Running(h, Write(Write(r, 2 * MAX_SIZE, Zeros(used)), MAX_SIZE, T(h, prk, info, i + 1)), prk, info, i + 1)
  {
    hide Write, T;
    var c := Write(r, 2 * MAX_SIZE, Zeros(used));
    var t := T(h, prk, info, i + 1);
    ReadApart(r, 2 * MAX_SIZE, Zeros(used), 0, h.size);
    ReadApart(c, MAX_SIZE, t, 0, h.size);
    WriteRead(c, MAX_SIZE, t);
  }

  function PreviousBlock(h: Hash, lo: nat, i: nat): View {
    In(Span(lo + MAX_SIZE, if i == 0 then 0 else h.size))
  }

  function BlockParts(h: Hash, lo: nat, info: View, i: nat): seq<View> {
    [PreviousBlock(h, lo, i)] + [info] + [Ext([(i + 1) % 256])]
  }

  lemma BlockViews(h: Hash, base: seq<byte>, region: Span, r: seq<byte>, info: View, prk: seq<byte>, i: nat)
    requires h.Lawful() && region.hi() <= |base| && |r| == region.len
    requires info.Fits(|base|) && info.Apart(region) && Running(h, r, prk, info.Bytes(base), i)
    ensures
      var m, p := Write(base, region.lo, r), PreviousBlock(h, region.lo, i);
      && In(Span(region.lo, h.size)).Bytes(m) == prk
      && info.Bytes(m) == info.Bytes(base)
      && p.Fits(|m|) && p.Bytes(m) == T(h, prk, info.Bytes(base), i)
  {
    hide Write, T, Running, PreviousBlock;
    ViewApart(base, region.lo, r, info, region);
    RunningReads(h, base, region.lo, r, prk, info.Bytes(base), i);
  }

  lemma RunningReads(h: Hash, base: seq<byte>, lo: nat, r: seq<byte>, prk: seq<byte>, info: seq<byte>, i: nat)
    requires h.Lawful() && lo + |r| <= |base| && Running(h, r, prk, info, i)
    ensures
      var m, p := Write(base, lo, r), PreviousBlock(h, lo, i);
      && In(Span(lo, h.size)).Bytes(m) == prk
      && p.Fits(|m|) && p.Bytes(m) == T(h, prk, info, i)
  {
    hide Write, T;
    HeadRead(base, lo, r, h.size);
    if i == 0 {
      NoBlockYet(h, prk, info);
    } else {
      ReadNested(base, lo, r, MAX_SIZE, h.size);
    }
  }

  lemma HeadRead(base: seq<byte>, lo: nat, r: seq<byte>, n: nat)
    requires lo + |r| <= |base| && n <= |r|
    ensures Write(base, lo, r)[lo..lo + n] == r[..n]
  {
  }

  lemma BlockJoined(m: seq<byte>, prev: View, info: View, ctr: View)
    requires prev.Fits(|m|) && info.Fits(|m|) && ctr.Fits(|m|)
    ensures AllFit([prev] + [info] + [ctr], |m|)
    ensures Joined(m, [prev] + [info] + [ctr]) == prev.Bytes(m) + info.Bytes(m) + ctr.Bytes(m)
  {
    hide Joined, AllFit;
    AllFitOne(prev, |m|);
    JoinedOne(m, prev);
    JoinedLast(m, [prev], info);
    JoinedLast(m, [prev] + [info], ctr);
  }

  lemma BlockApart(prev: View, info: View, ctr: View, w: Span)
    requires prev.Apart(w) && info.Apart(w) && ctr.Apart(w)
    ensures AllApart([prev] + [info] + [ctr], w)
  {
    hide AllApart;
    AllApartOne(prev, w);
    AllApartLast([prev], info, w);
    AllApartLast([prev] + [info], ctr, w);
  }

  lemma BlockSpan(h: Hash, lo: nat, i: nat)
    requires h.Lawful()
    ensures
      var p := PreviousBlock(h, lo, i);
      p.In? && p.span.lo == lo + MAX_SIZE && p.span.len <= h.size
  {
  }

  lemma TNext(h: Hash, prk: seq<byte>, info: seq<byte>, i: nat)
    requires h.Lawful()
    ensures T(h, prk, info, i + 1) == Mac(h, prk, T(h, prk, info, i) + info + [(i + 1) % 256])
    ensures |T(h, prk, info, i)| <= h.size
  {
  }

  lemma NoBlockYet(h: Hash, prk: seq<byte>, info: seq<byte>)
    requires h.Lawful()
    ensures T(h, prk, info, 0) == []
  {
  }

  lemma AllFitOne(v: View, n: nat)
    requires v.Fits(n)
    ensures AllFit([v], n)
  {
  }

  /** Everything the HMAC of one block asks for. */
  lemma BlockReady(h: Hash, base: seq<byte>, region: Span, r: seq<byte>, info: View, prk: seq<byte>, i: nat)
    requires h.Lawful() && region.hi() <= |base| && |r| == region.len
    requires info.Fits(|base|) && info.Apart(region) && Running(h, r, prk, info.Bytes(base), i)
    requires region.len >= HkdfRegionSize(h, 0, |info.Bytes(base)|)
    ensures
      var m, parts := Write(base, region.lo, r), BlockParts(h, region.lo, info, i);
      var scratch := Span(region.lo + 2 * MAX_SIZE, region.len - 2 * MAX_SIZE);
      var text := T(h, prk, info.Bytes(base), i) + info.Bytes(base) + [(i + 1) % 256];
      && AllFit(parts, |m|) && AllApart(parts, scratch) && Joined(m, parts) == text
      && ScratchSize(h, |text|) <= scratch.len
      && In(Span(region.lo, h.size)).Bytes(m) == prk
  {
    hide Write, T, Running, Joined, AllApart, AllFit, PreviousBlock;
    var lo := region.lo;
    var scratch := Span(lo + 2 * MAX_SIZE, region.len - 2 * MAX_SIZE);
    var prev, ctr := PreviousBlock(h, lo, i), Ext([(i + 1) % 256]);
    BlockViews(h, base, region, r, info, prk, i);
    BlockSpan(h, lo, i);
    TNext(h, prk, info.Bytes(base), i);
    BlockJoined(Write(base, lo, r), prev, info, ctr);
    BlockApart(prev, info, ctr, scratch);
  }

  /** T(i+1) = HMAC(PRK, T(i) | info | i+1), in place of T(i). */
  method ExpandBlock(h: Hash, mem: array<byte>, region: Span, info: View, i: nat,
                     ghost base: seq<byte>, ghost r: seq<byte>, ghost prk: seq<byte>)
      returns (ghost r': seq<byte>, block: seq<byte>)
    requires h.Lawful() && region.hi() <= mem.Length == |base| && |r| == region.len
    requires info.Fits(mem.Length) && info.Apart(region)
    requires region.len >= HkdfRegionSize(h, 0, |info.Bytes(base)|)
    requires mem[..] == Write(base, region.lo, r) && Running(h, r, prk, info.Bytes(base), i)
    modifies mem
    ensures |r'| == region.len && mem[..] == Write(base, region.lo, r')
    ensures Running(h, r', prk, info.Bytes(base), i + 1) && block == T(h, prk, info.Bytes(base), i + 1)
  {
    hide Write, Mac, Zeros, Joined, AllApart, AllFit, Running, T, BlockParts, ScratchSize;
    var lo, size := region.lo, h.size;
    var scratch := Span(lo + 2 * MAX_SIZE, region.len - 2 * MAX_SIZE);
    ghost var ib := info.Bytes(base);
    BlockReady(h, base, region, r, info, prk, i);
    var ok := InPlace(h, mem, lo + MAX_SIZE, scratch, In(Span(lo, size)), BlockParts(h, lo, info, i));
    TNext(h, prk, ib, i);
    ghost var used := ScratchSize(h, |T(h, prk, ib, i) + ib + [(i + 1) % 256]|);
    BlockLaid(h, base, lo, r, used, prk, ib, i);
    r' := Write(Write(r, 2 * MAX_SIZE, Zeros(used)), MAX_SIZE, T(h, prk, ib, i + 1));
    block := mem[..][lo + MAX_SIZE..lo + MAX_SIZE + size];
  }

  /** The region once HMAC has wiped its scratch and left the block. */
  lemma BlockLaid(h: Hash, base: seq<byte>, lo: nat, r: seq<byte>, used: nat, prk: seq<byte>, info: seq<byte>, i: nat)
    requires h.Lawful() && lo + |r| <= |base| && 2 * MAX_SIZE + used <= |r| && Running(h, r, prk, info, i)
    ensures
      var next := T(h, prk, info, i + 1);
      var r' := Write(Write(r, 2 * MAX_SIZE, Zeros(used)), MAX_SIZE, next);
      && Write(Write(Write(base, lo, r), lo + 2 * MAX_SIZE, Zeros(used)), lo + MAX_SIZE, next) == Write(base, lo, r')
      && Running(h, r', prk, info, i + 1)
      && Write(base, lo, r')[lo + MAX_SIZE..lo + MAX_SIZE + h.size] == next
  {
    hide Write, Zeros, T, Running;
    var next := T(h, prk, info, i + 1);
    var cleared := Write(r, 2 * MAX_SIZE, Zeros(used));
    WriteNestedTwice(base, lo, r, 2 * MAX_SIZE, Zeros(used), MAX_SIZE, next);
    NextBlock(h, r, prk, info, i, used);
    WriteRead(cleared, MAX_SIZE, next);
    ReadNested(base, lo, Write(cleared, MAX_SIZE, next), MAX_SIZE, h.size);
  }

  /** T(i+1), or as much of it as dst still has room for. */
  method EmitBlock(h: Hash, mem: array<byte>, dst: Span, region: Span, info: View, i: nat, off: nat,
                   ghost m0: seq<byte>, ghost out: seq<byte>, ghost r: seq<byte>, ghost prk: seq<byte>)
      returns (ghost r': seq<byte>, ghost out': seq<byte>)
    requires h.Lawful() && region.hi() <= mem.Length && dst.hi() <= mem.Length == |m0| && dst.Disjoint(region)
    requires |out| == off < dst.len && |r| == region.len
    requires info.Fits(mem.Length) && info.Apart(region) && info.Apart(dst)
    requires region.len >= HkdfRegionSize(h, 0, |info.Bytes(m0)|)
    requires mem[..] == Write(Write(m0, dst.lo, out), region.lo, r) && Running(h, r, prk, info.Bytes(m0), i)
    modifies mem
    ensures |r'| == region.len && Running(h, r', prk, info.Bytes(m0), i + 1)
    ensures
      var n := if dst.len - off < h.size then dst.len - off else h.size;
      && |out'| == off + n && mem[..] == Write(Write(m0, dst.lo, out'), region.lo, r')
      && out' == out + T(h, prk, info.Bytes(m0), i + 1)[..n]
  {
    hide Write, T, Running;
    ghost var base := Write(m0, dst.lo, out);
    ViewApart(m0, dst.lo, out, info, dst);
    var block;
    r', block := ExpandBlock(h, mem, region, info, i, base, r, prk);
    var n := if dst.len - off < h.size then dst.len - off else h.size;
    Copy(mem, dst.lo + off, block[..n]);
    WriteGrow(m0, dst.lo, out, block[..n], region.lo, r');
    out' := out + block[..n];
  }

  lemma RegionCovers(h: Hash, secret: nat, info: nat)
    ensures HkdfRegionSize(h, secret, info) >= HkdfRegionSize(h, secret, 0)
    ensures HkdfRegionSize(h, secret, info) >= HkdfRegionSize(h, 0, info) >= 2 * MAX_SIZE
  {
  }

  lemma ExpandedPrefix(h: Hash, prk: seq<byte>, info: seq<byte>, i: nat, off: nat, n: nat)
    requires h.Lawful() && n <= h.size && Reaches(off, i, h.size)
    ensures |Expanded(h, prk, info, i)| == off && off + n <= |Expanded(h, prk, info, i + 1)|
    ensures Expanded(h, prk, info, i + 1)[..off + n] == Expanded(h, prk, info, i) + T(h, prk, info, i + 1)[..n]
  {
    hide T;
  }

  /** HKDF into dst; the region is wiped. */
  method Hkdf(h: Hash, mem: array<byte>, dst: Span, region: Span, secret: View, salt: View, info: View)
    requires h.Lawful() && region.hi() <= mem.Length && dst.hi() <= mem.Length && dst.Disjoint(region)
    requires secret.Fits(mem.Length) && secret.Apart(region) && salt.Fits(mem.Length) && salt.Apart(region)
    requires info.Fits(mem.Length) && info.Apart(region) && info.Apart(dst)
    requires region.len >= HkdfRegionSize(h, |secret.Bytes(mem[..])|, |info.Bytes(mem[..])|)
    modifies mem
    ensures
      var m := old(mem[..]);
      var okm := Okm(h, Extract(h, salt.Bytes(m), secret.Bytes(m)), info.Bytes(m), dst.len);
      mem[..] == Write(Write(m, dst.lo, okm), region.lo, Zeros(region.len))
  {
    hide Write, Extract, Zeros, T, Running, HkdfRegionSize, Okm;
    RegionCovers(h, |secret.Bytes(mem[..])|, |info.Bytes(mem[..])|);
    ghost var m0 := mem[..];
    ghost var prk, ib := Extract(h, salt.Bytes(m0), secret.Bytes(m0)), info.Bytes(m0);
    ghost var r := ExtractInto(h, mem, region, secret, salt);
    StartRunning(h, r, prk, ib);
    r := ExpandInto(h, mem, dst, region, info, m0, r, prk);
    Copy(mem, region.lo, Zeros(region.len));
    WriteOver(Write(m0, dst.lo, Okm(h, prk, ib, dst.len)), region.lo, r, Zeros(region.len));
  }

  /** T(1), T(2), ... until dst is full; the running block is left in the region. */
  method ExpandInto(h: Hash, mem: array<byte>, dst: Span, region: Span, info: View, ghost m0: seq<byte>, ghost r0: seq<byte>,
                    ghost prk: seq<byte>)
      returns (ghost r: seq<byte>)
    requires h.Lawful() && region.hi() <= mem.Length && dst.hi() <= mem.Length == |m0| && dst.Disjoint(region)
    requires info.Fits(mem.Length) && info.Apart(region) && info.Apart(dst) && |prk| == h.size
    requires region.len >= HkdfRegionSize(h, 0, |info.Bytes(m0)|)
    requires |r0| == region.len && mem[..] == Write(m0, region.lo, r0) && Running(h, r0, prk, info.Bytes(m0), 0)
    modifies mem
    ensures |r| == region.len && mem[..] == Write(Write(m0, dst.lo, Okm(h, prk, info.Bytes(m0), dst.len)), region.lo, r)
  {
    hide Write, T, Running, HkdfRegionSize, Expanded, Reaches;
    r := r0;
    ghost var ib := info.Bytes(m0);
    var i, off := 0, 0;
    ReachNone(h.size);
    ghost var out: seq<byte> := [];
    WriteNothing(m0, dst.lo);
    while off < dst.len
      invariant Reaches(off, i, h.size) && off < dst.len + h.size && |out| == (if off < dst.len then off else dst.len)
      invariant |r| == region.len && mem[..] == Write(Write(m0, dst.lo, out), region.lo, r)
      invariant Running(h, r, prk, ib, i)
      invariant |out| <= |Expanded(h, prk, ib, i)| && out == Expanded(h, prk, ib, i)[..|out|]
      decreases dst.len - off
    {
      ExpandedPrefix(h, prk, ib, i, off, if dst.len - off < h.size then dst.len - off else h.size);
      ReachNext(off, i, h.size);
      r, out := EmitBlock(h, mem, dst, region, info, i, off, m0, out, r, prk);
      i, off := i + 1, off + h.size;
    }
    FullAt(dst.len, h.size, i, off);
  }

  lemma FullAt(a: nat, b: nat, i: nat, off: nat)
    requires b > 0 && Reaches(off, i, b) && a <= off < a + b
    ensures i == Ceiling(a, b)
  {
    CeilingIs(a, b, i);
  }

  lemma CeilingIs(a: nat, b: nat, i: nat)
    requires b > 0 && a <= i * b < a + b
    ensures i == Ceiling(a, b)
  {
    CeilingCovers(a, b);
    var c := Ceiling(a, b);
    if i < c {
      Spread(i, c, b);
    } else if i > c {
      Spread(c, i, b);
    }
  }

  lemma Spread(x: nat, y: nat, b: nat)
    requires x < y
    ensures x * b + b <= y * b
  {
    MulAtLeast(y - x, b);
    MulMinus(y, x, b);
  }
}
