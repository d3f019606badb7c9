/**
 * Exactly when the in-place PBKDF2 meets its standard for every hash: with a
 * single iteration, or with both pads zero behind the key. For any stray byte
 * there is a hash that tells.
 */
module PadsMatter {
  import opened Numbers
  import opened Memory
  import opened Hmac
  import opened Pbkdf2

  /** The pads the standard asks for, the pads the code has, and a password that is hashed to a key of `kv` bytes. */
  datatype Watch = Watch(block: nat, long: seq<byte>, kv: byte, clean: Pads, pads: Pads) {
    /** A pad is the clean inner one, the clean outer one, or neither. */
    function Role(s: seq<byte>): nat {
      if s == clean.inner then 0 else if s == clean.outer then 1 else 2
    }

    /** One half of an iteration, on one byte. Behind the code's inner pad it opens with 5 or
        6, which the code's outer pad closes with 1 or 2; everything else closes with 0. */
    function Half(role: nat, v: byte): byte {
      if v < 3 then (if role == Role(pads.inner) then (if v == 0 then 5 else 6) else 4)
      else if (v == 5 || v == 6) && role == Role(pads.outer) then v - 4
      else 0
    }

    /** The hash's one byte. */
    function Mark(d: seq<byte>): byte {
      if long != [] && d == long then kv
      else if |d| <= block then 0
      else Half(Role(d[..block]), d[|d| - 1])
    }
  }

  function Same(v: byte, n: nat): (s: seq<byte>)
    ensures |s| == n && forall i :: 0 <= i < n ==> s[i] == v
  {
    seq(n, _ => v)
  }

  function Telltale(size: nat, w: Watch): Hash {
    Hash(size, w.block, d => Same(w.Mark(d), size))
  }

  lemma TelltaleIs(size: nat, w: Watch, d: seq<byte>)
    requires 0 < size <= MAX_SIZE && size < w.block
    ensures
      var h := Telltale(size, w);
      h.Lawful() && h.size == size && h.block == w.block && h.digest(d) == Same(w.Mark(d), size)
  {
  }

  /** One pad and the value hashed behind it. */
  lemma MarkBehind(w: Watch, s: seq<byte>, x: seq<byte>)
    requires |s| == w.block > 0 && x != [] && (w.long != [] ==> s[0] != w.long[0])
    ensures w.Mark(s + x) == w.Half(w.Role(s), x[|x| - 1])
  {
    var d := s + x;
    assert d[..w.block] == s && d[|d| - 1] == x[|x| - 1] && d[0] == s[0];
  }

  // The chains of values.

  /** The value of an iteration over the code's pads. */
  function Value(j: nat): byte
    requires j > 0
  {
    if j == 1 then 0 else if j == 2 then 1 else 2
  }

  function Sum(c: nat): byte
    requires c > 0
  {
    if c == 1 then 0 else Xor(Sum(c - 1), Value(c))
  }

  lemma XorBitsParity(a: nat, b: nat, n: nat)
    requires n > 0
    ensures XorBits(a, b, n) % 2 == (a + b) % 2
  {
    Parity(a, b, XorBits(a / 2, b / 2, n - 1));
  }

  lemma Parity(a: nat, b: nat, rest: nat)
    ensures ((a % 2 + b % 2) % 2 + 2 * rest) % 2 == (a + b) % 2
  {
  }

  lemma XorParity(a: byte, b: byte)
    ensures Xor(a, b) % 2 == (a + b) % 2
  {
    hide XorBits;
    XorBitsParity(a, b, 8);
  }

  /** From the second iteration on, the sum is odd. */
  lemma {:induction false} SumParity(c: nat)
    requires c > 0
    ensures Sum(c) % 2 == if c == 1 then 0 else 1
  {
    hide Xor;
    if c == 1 {
    } else {
      SumParity(c - 1);
      XorParity(Sum(c - 1), Value(c));
    }
  }

  // The telltale hash computes those chains.

  /** The pads and the hash that watches them. */
  ghost predicate Watched(h: Hash, w: Watch) {
    && 0 < h.size <= MAX_SIZE && h.size < w.block && h == Telltale(h.size, w)
    && |w.clean.inner| == |w.clean.outer| == |w.pads.inner| == |w.pads.outer| == w.block
    && w.clean.inner != w.clean.outer && w.pads != w.clean
    && (w.long != [] ==>
          && w.clean.inner[0] != w.long[0] && w.clean.outer[0] != w.long[0]
          && w.pads.inner[0] != w.long[0] && w.pads.outer[0] != w.long[0])
  }

  lemma WatchedLawful(h: Hash, w: Watch)
    requires Watched(h, w)
    ensures h.Lawful() && h.block == w.block
  {
    TelltaleIs(h.size, w, []);
  }

  lemma StepValue(h: Hash, w: Watch, over: Pads, x: seq<byte>)
    requires Watched(h, w) && (over == w.clean || over == w.pads) && x != []
    ensures h.Lawful()
    ensures Step(h, over, x) == Same(w.Half(w.Role(over.outer), w.Half(w.Role(over.inner), x[|x| - 1])), h.size)
  {
    WatchedLawful(h, w);
    TelltaleIs(h.size, w, over.inner + x);
    MarkBehind(w, over.inner, x);
    var y := h.digest(over.inner + x);
    TelltaleIs(h.size, w, over.outer + y);
    MarkBehind(w, over.outer, y);
  }

  /** Over the clean pads a 0 or a 1 gives 0; over the code's pads 0 gives 1, and 1 and 2 give 2. */
  lemma Rounds(h: Hash, w: Watch, v: byte)
    requires Watched(h, w)
    ensures v < 2 ==> w.Half(w.Role(w.clean.outer), w.Half(w.Role(w.clean.inner), v)) == 0
    ensures v < 3 ==> w.Half(w.Role(w.pads.outer), w.Half(w.Role(w.pads.inner), v)) == if v == 0 then 1 else 2
  {
    hide Telltale;
    assert w.Role(w.clean.inner) == 0 && w.Role(w.clean.outer) == 1;
    assert w.Role(w.pads.inner) != 0 || w.Role(w.pads.outer) != 1;
  }

  lemma {:induction false} CleanFold(h: Hash, w: Watch, c: nat)
    requires Watched(h, w) && c > 0
    ensures h.Lawful()
    ensures Chain(h, w.clean, Same(0, h.size), c) == Same(0, h.size)
    ensures Fold(h, w.clean, Same(0, h.size), c)[0] % 2 == 0
  {
    hide Step, Xor, Watched;
    WatchedLawful(h, w);
    Sized(h, w);
    if c == 1 {
    } else {
      CleanFold(h, w, c - 1);
      StepValue(h, w, w.clean, Same(0, h.size));
      Rounds(h, w, 0);
      XorParity(Fold(h, w.clean, Same(0, h.size), c - 1)[0], 0);
    }
  }

  lemma Sized(h: Hash, w: Watch)
    requires Watched(h, w)
    ensures h.size > 0
  {
  }

  lemma {:induction false} StrayChain(h: Hash, w: Watch, j: nat)
    requires Watched(h, w) && j > 0
    ensures h.Lawful()
    ensures Chain(h, w.pads, Same(0, h.size), j) == Same(Value(j), h.size)
  {
    hide Step, Watched;
    WatchedLawful(h, w);
    Sized(h, w);
    if j == 1 {
    } else {
      StrayChain(h, w, j - 1);
      StepValue(h, w, w.pads, Same(Value(j - 1), h.size));
      Rounds(h, w, Value(j - 1));
    }
  }

  lemma {:induction false} StrayFold(h: Hash, w: Watch, c: nat)
    requires Watched(h, w) && c > 0
    ensures h.Lawful()
    ensures Fold(h, w.pads, Same(0, h.size), c) == Same(Sum(c), h.size)
  {
    hide Step, Xor, Chain, Watched, Value;
    WatchedLawful(h, w);
    if c == 1 {
    } else {
      StrayFold(h, w, c - 1);
      StrayChain(h, w, c);
    }
  }

  // Putting it together.

  lemma {:induction false} XorBitsSym(a: nat, b: nat, n: nat)
    ensures XorBits(a, b, n) == XorBits(b, a, n)
  {
    if n == 0 {
    } else {
      XorBitsSym(a / 2, b / 2, n - 1);
    }
  }

  /** Exclusive or tells its operands apart, on either side. */
  lemma XorTells(a: byte, b: byte, x: byte)
    requires a != b
    ensures Xor(a, x) != Xor(b, x) && Xor(x, a) != Xor(x, b)
  {
    XorTwice(a, x);
    XorTwice(b, x);
    XorBitsSym(x, a, 8);
    XorBitsSym(x, b, 8);
  }

  /** A key byte that masks to neither of two values' worth of p. */
  lemma PickKey(p: byte) returns (kv: byte)
    ensures Xor(kv, 0x36) != p && Xor(kv, 0x5c) != p
  {
    hide Xor;
    XorTells(0, 1, 0x36);
    XorTells(0, 2, 0x36);
    XorTells(1, 2, 0x36);
    XorTells(0, 1, 0x5c);
    XorTells(0, 2, 0x5c);
    XorTells(1, 2, 0x5c);
    kv := if Xor(0, 0x36) != p && Xor(0, 0x5c) != p then 0
          else if Xor(1, 0x36) != p && Xor(1, 0x5c) != p then 1
          else 2;
  }

  lemma {:induction false} RunFirst(h: Hash, pads: Pads, key: seq<byte>, salt: seq<byte>, c: nat, n: nat)
    requires h.Lawful() && c > 0 && n > 0
    ensures |Run(h, pads, key, salt, c, n)| > 0
    ensures Run(h, pads, key, salt, c, n)[0] == Fold(h, pads, Mac(h, key, salt + Int4(1)), c)[0]
  {
    hide Fold, Mac;
    if n <= 1 {
    } else {
      RunFirst(h, pads, key, salt, c, n - 1);
    }
  }

  lemma {:induction false} BlocksFirst(h: Hash, password: seq<byte>, salt: seq<byte>, c: nat, n: nat)
    requires h.Lawful() && c > 0 && n > 0
    ensures |Blocks(h, password, salt, c, n)| > 0
    ensures Blocks(h, password, salt, c, n)[0] == F(h, password, salt, c, 1)[0]
  {
    hide F;
    if n <= 1 {
    } else {
      BlocksFirst(h, password, salt, c, n - 1);
    }
  }

  lemma FirstByte(h: Hash, pads: Pads, key: seq<byte>, password: seq<byte>, salt: seq<byte>, c: nat, n: nat)
    requires h.Lawful() && c > 0 && n > 0
    ensures Output(h, pads, key, salt, c, n)[0] == Fold(h, pads, Mac(h, key, salt + Int4(1)), c)[0]
    ensures Derived(h, password, salt, c, n)[0] == F(h, password, salt, c, 1)[0]
  {
    hide Run, Blocks, Fold, F, Mac;
    CeilingCovers(n, h.size);
    RunFirst(h, pads, key, salt, c, Ceiling(n, h.size));
    BlocksFirst(h, password, salt, c, Ceiling(n, h.size));
  }

  /** A stray byte behind the key shows in its pad. */
  lemma StrayPad(key: seq<byte>, was: seq<byte>, c: byte)
    requires |key| <= |was|
    ensures
      var clean := XorEach(key + Zeros(|was| - |key|), c);
      && (key != [] ==> Laid(key, was, c)[0] == clean[0])
      && (Laid(key, was, c) == clean <==> ZeroFrom(was, |key|))
  {
    hide Xor;
    var clean, laid := XorEach(key + Zeros(|was| - |key|), c), Laid(key, was, c);
    if ZeroFrom(was, |key|) {
      assert was[|key|..] == Zeros(|was| - |key|);
    } else {
      var i :| |key| <= i < |was| && was[i] != 0;
      assert (key + was[|key|..])[i] == was[i] && (key + Zeros(|was| - |key|))[i] == 0;
      XorTells(was[i], 0, c);
      assert laid[i] != clean[i];
    }
  }

  /** With the telltale hash, U_1 is all zeros. */
  lemma FirstValue(h: Hash, w: Watch, password: seq<byte>, salt: seq<byte>)
    requires Watched(h, w) && h.Lawful() && Clean(h, w.clean, password)
    ensures Mac(h, password, salt + Int4(1)) == Same(0, h.size)
  {
    hide PadKey, Watched;
    var text := salt + Int4(1);
    assert text[|text| - 1] == 1;
    StepValue(h, w, w.clean, text);
    Rounds(h, w, 1);
    assert Mac(h, password, text) == Step(h, w.clean, text);
  }

  /** The two folds differ, so the keys do. */
  lemma KeysDiffer(h: Hash, w: Watch, password: seq<byte>, salt: seq<byte>, c: nat, n: nat)
    requires Watched(h, w) && h.Lawful() && Clean(h, w.clean, password) && c > 1 && n > 0
    ensures Output(h, w.pads, ShortKey(h, password), salt, c, n) != Derived(h, password, salt, c, n)
  {
    hide Fold, F, Mac, ShortKey, Output, Derived, Clean, Sum, Watched;
    var u := Mac(h, password, salt + Int4(1));
    Sized(h, w);
    FirstValue(h, w, password, salt);
    StrayFold(h, w, c);
    SumParity(c);
    CleanFold(h, w, c);
    FoldIsF(h, w.clean, password, salt, c, 1);
    ShortKeySame(h, password, salt + Int4(1));
    FirstByte(h, w.pads, ShortKey(h, password), password, salt, c, n);
  }

  /** A first byte for the key of a long password, so that no pad starts as the password does. */
  function FirstOf(password: seq<byte>): byte { if password == [] then 0 else password[0] }

  /** From the second iteration on, stray bytes under the pads give some hash of the same sizes another key. */
  lemma StrayShows(sample: Hash, r: seq<byte>, password: seq<byte>, salt: seq<byte>, c: nat, n: nat) returns (h: Hash)
    requires sample.Lawful() && |r| >= ScratchAt(sample) && c > 1 && n > 0
    requires !PadsAreZero(sample, r, |ShortKey(sample, password)|)
    ensures h.Lawful() && h.size == sample.size && h.block == sample.block && !Meets(h, r, password, salt, c, n)
  {
    hide Output, Derived, Xor, XorEach, ShortKey, PadKey, Watched, PadsOver, ZeroFrom, Telltale;
    var size, block := sample.size, sample.block;
    KeyLength(sample, password);
    var kv := PickKey(FirstOf(password));
    var long := if |password| > block then password else [];
    var key := if long != [] then Same(kv, size) else password;
    var padded := key + Zeros(block - |key|);
    var clean := Pads(XorEach(padded, 0x36), XorEach(padded, 0x5c));
    var w := Watch(block, long, kv, clean, PadsOver(sample, r, key));
    h := Telltale(size, w);
    KeyIs(h, w, size, password);
    PadsWatched(sample, h, w, r, key);
    SamePads(sample, h, r, key);
    KeysDiffer(h, w, password, salt, c, n);
  }

  /** Where the pads are depends on a hash's sizes alone. */
  lemma SamePads(g: Hash, h: Hash, r: seq<byte>, key: seq<byte>)
    requires g.size == h.size && g.block == h.block && |r| >= ScratchAt(g) && |key| <= g.block
    ensures |r| >= ScratchAt(h) && PadsOver(h, r, key) == PadsOver(g, r, key)
  {
  }

  /** How many bytes of a pad the key covers is the same for every hash of the same sizes. */
  lemma KeyLength(h: Hash, password: seq<byte>)
    requires h.Lawful()
    ensures |ShortKey(h, password)| == if |password| > h.block then h.size else |password|
  {
  }

  /** The region's pads are under watch, unless they are the clean ones. */
  lemma PadsWatched(sample: Hash, h: Hash, w: Watch, r: seq<byte>, key: seq<byte>)
    requires 0 < h.size <= MAX_SIZE && h.size < w.block == sample.block && |r| >= ScratchAt(sample) && |key| <= w.block
    requires h == Telltale(h.size, w) && w.pads == PadsOver(sample, r, key)
    requires
      var padded := key + Zeros(w.block - |key|);
      w.clean == Pads(XorEach(padded, 0x36), XorEach(padded, 0x5c))
    requires w.long != [] ==> key != [] && Xor(key[0], 0x36) != w.long[0] && Xor(key[0], 0x5c) != w.long[0]
    requires !PadsAreZero(sample, r, |key|)
    ensures Watched(h, w)
  {
    hide Xor, Laid, Telltale;
    StrayPad(key, r[IN_AT..IN_AT + w.block], 0x36);
    StrayPad(key, r[OutAt(sample)..OutAt(sample) + w.block], 0x5c);
    var padded := key + Zeros(w.block - |key|);
    XorTells(0x36, 0x5c, padded[0]);
    assert w.clean.inner[0] != w.clean.outer[0];
  }

  /** The key the telltale hash works under. */
  lemma KeyIs(h: Hash, w: Watch, size: nat, password: seq<byte>)
    requires 0 < size <= MAX_SIZE && size < w.block && h == Telltale(size, w)
    requires w.long == if |password| > w.block then password else []
    ensures h.Lawful() && h.size == size && h.block == w.block
    ensures
      var key := if w.long != [] then Same(w.kv, size) else password;
      |key| <= h.block && ShortKey(h, password) == key && PadKey(h, password) == key + Zeros(h.block - |key|)
  {
    TelltaleIs(size, w, password);
  }

  /**
   * The exact condition: the code's output is the standard's for every hash of
   * the sample's sizes if and only if it makes one iteration, finds its pads
   * zero behind the key, or is asked for no bytes.
   */
  lemma ExactlyWhen(sample: Hash, r: seq<byte>, password: seq<byte>, salt: seq<byte>, c: nat, n: nat)
    requires sample.Lawful() && |r| >= ScratchAt(sample) && c > 0
    ensures
      (forall h: Hash :: h.Lawful() && h.size == sample.size && h.block == sample.block ==> Meets(h, r, password, salt, c, n))
      <==> n == 0 || c == 1 || PadsAreZero(sample, r, |ShortKey(sample, password)|)
  {
    hide ShortKey, Meets, ZeroFrom;
    KeyLength(sample, password);
    if n == 0 || c == 1 || PadsAreZero(sample, r, |ShortKey(sample, password)|) {
      forall h: Hash | h.Lawful() && h.size == sample.size && h.block == sample.block
        ensures Meets(h, r, password, salt, c, n)
      {
        KeyLength(h, password);
        Sufficient(h, r, password, salt, c, n);
      }
    } else {
      var h := StrayShows(sample, r, password, salt, c, n);
    }
  }

  /** What the code computes from the region's contents is the standard's key. */
  ghost predicate Meets(h: Hash, r: seq<byte>, password: seq<byte>, salt: seq<byte>, c: nat, n: nat)
    requires h.Lawful() && |r| >= ScratchAt(h) && c > 0
  {
    var k := ShortKey(h, password);
    |k| <= h.block && Output(h, PadsOver(h, r, k), k, salt, c, n) == Derived(h, password, salt, c, n)
  }

  lemma Sufficient(h: Hash, r: seq<byte>, password: seq<byte>, salt: seq<byte>, c: nat, n: nat)
    requires h.Lawful() && |r| >= ScratchAt(h) && c > 0
    requires n == 0 || c == 1 || PadsAreZero(h, r, |ShortKey(h, password)|)
    ensures Meets(h, r, password, salt, c, n)
  {
    hide Output, Derived, Clean, PadsOver;
    var k := ShortKey(h, password);
    if n == 0 {
      NoBytes(h, PadsOver(h, r, k), k, password, salt, c);
    } else {
      if c > 1 {
        ZeroPadsAreClean(h, r, password);
      }
      OutputIsDerived(h, PadsOver(h, r, k), password, salt, c, n);
    }
  }

  lemma NoBytes(h: Hash, pads: Pads, key: seq<byte>, password: seq<byte>, salt: seq<byte>, c: nat)
    requires h.Lawful() && c > 0
    ensures Output(h, pads, key, salt, c, 0) == [] == Derived(h, password, salt, c, 0)
  {
  }
}
