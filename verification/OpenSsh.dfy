/**
 * The OpenSSH private-key container for Ed25519: its exact layout, written
 * and read back, with and without a passphrase.
 */
module OpenSsh {
  import opened Numbers
  import opened Options
  import opened SshWire

  /** "openssh-key-v1" and a zero byte. */
  function Magic(): (s: seq<byte>)
    ensures |s| == 15 && s[0] == 111
  {
    [111, 112, 101, 110, 115, 115, 104, 45, 107, 101, 121, 45, 118, 49, 0]
  }

  /** "none", both as a cipher and as a KDF. */
  function NoneName(): (s: seq<byte>)
    ensures |s| == 4
  {
    [110, 111, 110, 101]
  }

  /** "aes256-ctr" */
  function CtrName(): (s: seq<byte>)
    ensures |s| == 10
  {
    [97, 101, 115, 50, 53, 54, 45, 99, 116, 114]
  }

  /** "bcrypt" */
  function BcryptName(): (s: seq<byte>)
    ensures |s| == 6
  {
    [98, 99, 114, 121, 112, 116]
  }

  /** "ssh-ed25519" */
  function KeyType(): (s: seq<byte>)
    ensures |s| == 11
  {
    [115, 115, 104, 45, 101, 100, 50, 53, 53, 49, 57]
  }

  /** The names are the format's. */
  lemma Spelling()
    ensures Magic() == Ascii("openssh-key-v1") + [0] && KeyType() == Ascii("ssh-ed25519")
    ensures NoneName() == Ascii("none") && CtrName() == Ascii("aes256-ctr") && BcryptName() == Ascii("bcrypt")
  {
  }

  // The outer container.

  datatype Header = Header(
    cipher: seq<byte>, kdf: seq<byte>, kdfOpts: seq<byte>, numKeys: nat,
    pubBlob: seq<byte>, privBlock: seq<byte>, rest: seq<byte>)
  {
    /** Every field is short enough for its length prefix. */
    ghost predicate Fits() {
      && |cipher| < U32_LIMIT && |kdf| < U32_LIMIT && |kdfOpts| < U32_LIMIT
      && numKeys < U32_LIMIT && |pubBlob| < U32_LIMIT && |privBlock| < U32_LIMIT
    }

    /** Cipher and KDF agree about encryption, and no KDF has no options. */
    predicate Consistent() {
      (cipher == NoneName() <==> kdf == NoneName()) && (kdf == NoneName() ==> kdfOpts == [])
    }

    function Bytes(): seq<byte> {
      Magic() + (Str(cipher) + (Str(kdf) + (Str(kdfOpts) + (U32(numKeys) + (Str(pubBlob) + (Str(privBlock) + rest))))))
    }
  }

  function ReadU32(b: seq<byte>): (r: Option<Word>) {
    if |b| < 4 then None else Some(Word(BE(b[..4]), b[4..]))
  }

  datatype Word = Word(v: nat, rest: seq<byte>)

  lemma ReadU32Is(b: seq<byte>)
    ensures ReadU32(b).Some? <==> |b| >= 4
  {
  }

  lemma ReadU32Exact(b: seq<byte>, v: nat, rest: seq<byte>)
    requires v < U32_LIMIT
    ensures ReadU32(b) == Some(Word(v, rest)) <==> b == U32(v) + rest
  {
    if b == U32(v) + rest {
      assert b[..4] == U32(v) && b[4..] == rest;
      U32Value(v);
    }
    if |b| >= 4 {
      U32Exact(b);
    }
  }

  lemma ReadU32Fits(b: seq<byte>)
    requires ReadU32(b).Some?
    ensures ReadU32(b).value.v < U32_LIMIT && b == U32(ReadU32(b).value.v) + ReadU32(b).value.rest
  {
    U32Exact(b);
  }

  /** The first half: names and options. */
  function ReadNames(b: seq<byte>): (r: Option<Header>) {
    var c := ReadStr(b);
    if c.None? then None else
    var k := ReadStr(c.value.rest);
    if k.None? then None else
    var o := ReadStr(k.value.rest);
    if o.None? then None else
    Some(Header(c.value.field, k.value.field, o.value.field, 0, [], [], o.value.rest))
  }

  /** The second half: the key count and the two blocks. */
  function ReadBlocks(b: seq<byte>): (r: Option<Header>) {
    var n := ReadU32(b);
    if n.None? then None else
    var u := ReadStr(n.value.rest);
    if u.None? then None else
    var p := ReadStr(u.value.rest);
    if p.None? then None else
    Some(Header([], [], [], n.value.v, u.value.field, p.value.field, p.value.rest))
  }

  function ReadHeader(b: seq<byte>): (r: Option<Header>) {
    if !(Magic() <= b) then None else
    var x := ReadNames(b[|Magic()|..]);
    if x.None? then None else
    var y := ReadBlocks(x.value.rest);
    if y.None? then None else
    var h := x.value.(numKeys := y.value.numKeys, pubBlob := y.value.pubBlob, privBlock := y.value.privBlock,
                      rest := y.value.rest);
    if h.Consistent() then Some(h) else None
  }

  lemma NamesExact(b: seq<byte>, c: seq<byte>, k: seq<byte>, o: seq<byte>, rest: seq<byte>)
    requires |c| < U32_LIMIT && |k| < U32_LIMIT && |o| < U32_LIMIT
    ensures ReadNames(b) == Some(Header(c, k, o, 0, [], [], rest)) <==> b == Str(c) + (Str(k) + (Str(o) + rest))
  {
    hide Str, ReadStr;
    if b == Str(c) + (Str(k) + (Str(o) + rest)) {
      ReadStrExact(b, c, Str(k) + (Str(o) + rest));
      ReadStrExact(Str(k) + (Str(o) + rest), k, Str(o) + rest);
      ReadStrExact(Str(o) + rest, o, rest);
    }
    if ReadNames(b).Some? {
      ReadStrFits(b);
      var b1 := ReadStr(b).value.rest;
      ReadStrFits(b1);
      ReadStrFits(ReadStr(b1).value.rest);
    }
  }

  lemma BlocksExact(b: seq<byte>, n: nat, u: seq<byte>, p: seq<byte>, rest: seq<byte>)
    requires n < U32_LIMIT && |u| < U32_LIMIT && |p| < U32_LIMIT
    ensures ReadBlocks(b) == Some(Header([], [], [], n, u, p, rest)) <==> b == U32(n) + (Str(u) + (Str(p) + rest))
  {
    hide Str, ReadStr, U32, ReadU32;
    if b == U32(n) + (Str(u) + (Str(p) + rest)) {
      ReadU32Exact(b, n, Str(u) + (Str(p) + rest));
      ReadStrExact(Str(u) + (Str(p) + rest), u, Str(p) + rest);
      ReadStrExact(Str(p) + rest, p, rest);
    }
    if ReadBlocks(b).Some? {
      ReadU32Fits(b);
      var b1 := ReadU32(b).value.rest;
      ReadStrFits(b1);
      ReadStrFits(ReadStr(b1).value.rest);
    }
  }

  /** The reader accepts exactly the consistent containers, and gives back the fields they were made of. */
  lemma HeaderExact(b: seq<byte>, h: Header)
    requires h.Fits()
    ensures ReadHeader(b) == Some(h) <==> b == h.Bytes() && h.Consistent()
  {
    hide Str, U32, ReadNames, ReadBlocks, Magic, Header.Consistent;
    var tail := U32(h.numKeys) + (Str(h.pubBlob) + (Str(h.privBlock) + h.rest));
    var all := Str(h.cipher) + (Str(h.kdf) + (Str(h.kdfOpts) + tail));
    NamesExact(all, h.cipher, h.kdf, h.kdfOpts, tail);
    BlocksExact(tail, h.numKeys, h.pubBlob, h.privBlock, h.rest);
    if b == h.Bytes() {
      assert Magic() <= b && b[|Magic()|..] == all;
    }
    if Magic() <= b {
      var b1 := b[|Magic()|..];
      assert b == Magic() + b1;
      var x := ReadNames(b1);
      if x.Some? {
        NamesExact(b1, h.cipher, h.kdf, h.kdfOpts, x.value.rest);
        BlocksExact(x.value.rest, h.numKeys, h.pubBlob, h.privBlock, h.rest);
        NamesShape(b1);
        BlocksShape(x.value.rest);
      }
    }
  }

  lemma NamesShape(b: seq<byte>)
    requires ReadNames(b).Some?
    ensures var h := ReadNames(b).value; h == Header(h.cipher, h.kdf, h.kdfOpts, 0, [], [], h.rest)
  {
  }

  lemma BlocksShape(b: seq<byte>)
    ensures ReadBlocks(b).Some? ==> var h := ReadBlocks(b).value; h == Header([], [], [], h.numKeys, h.pubBlob, h.privBlock, h.rest)
  {
  }

  /** The source's reader: one cursor, every field taken in turn, one verdict at the end. */
  method ScanHeader(b: seq<byte>) returns (h: Option<Header>)
    ensures h == ReadHeader(b)
  {
    hide Magic, ReadStr, ReadU32, U32;
    if !(Magic() <= b) {
      return None;
    }
    var r := new Reader(b[|Magic()|..]);
    var cipher, ok1 := r.NextStr();
    var kdf, ok2 := r.NextStr();
    var kdfOpts, ok3 := r.NextStr();
    ghost var b3 := r.b;
    var n, ok4 := r.Uint32();
    ReadU32Is(b3);
    if ok4 {
      ReadU32Exact(b3, n, r.b);
    }
    var pubBlob, ok5 := r.NextStr();
    var privBlock, ok6 := r.NextStr();
    if !ok1 || !ok2 || !ok3 || !ok4 || !ok5 || !ok6 {
      return None;
    }
    var x := Header(cipher, kdf, kdfOpts, n, pubBlob, privBlock, r.b);
    if !x.Consistent() {
      return None;
    }
    return Some(x);
  }

  // The private block.

  datatype Error = Malformed | CheckMismatch | Encrypted | NotEncrypted | Unsupported | Undecryptable
  datatype Parsed = Failed(error: Error) | Key(seed: seq<byte>, pub: seq<byte>)

  /** The pad bytes 1, 2, 3, ... */
  function Padding(n: nat): (p: seq<byte>)
    requires n < 256
    ensures |p| == n && forall i :: 0 <= i < n ==> p[i] == i + 1
  {
    if n == 0 then [] else Padding(n - 1) + [n]
  }

  /** A pad is right when it is shorter than a block and counts up from one. */
  method CheckPadding(pad: seq<byte>, blockSize: nat) returns (ok: bool)
    requires blockSize <= 256
    ensures ok <==> |pad| < blockSize && pad == Padding(|pad|)
  {
    if |pad| >= blockSize {
      return false;
    }
    for i := 0 to |pad|
      invariant forall j :: 0 <= j < i ==> pad[j] == j + 1
    {
      if pad[i] != i + 1 {
        return false;
      }
    }
    return true;
  }

  function PubBlob(pub: seq<byte>): (b: seq<byte>) {
    Str(KeyType()) + Str(pub)
  }

  function PrivBlock(check: seq<byte>, pub: seq<byte>, seed: seq<byte>, comment: seq<byte>, pad: seq<byte>): (b: seq<byte>) {
    check + (check + (Str(KeyType()) + (Str(pub) + (Str(seed + pub) + (Str(comment) + pad)))))
  }

  /** The Ed25519 fields, after the key type. */
  function ReadKey(derive: seq<byte> -> seq<byte>, b: seq<byte>, pub: seq<byte>, blockSize: nat): (r: Parsed)
    requires blockSize <= 256
  {
    var pk := ReadStr(b);
    if pk.None? then Failed(Malformed) else
    var sk := ReadStr(pk.value.rest);
    if sk.None? then Failed(Malformed) else
    var comment := ReadStr(sk.value.rest);
    if comment.None? || |pk.value.field| != 32 || |sk.value.field| != 64 then Failed(Malformed) else
    var pad := comment.value.rest;
    if |pad| >= blockSize || pad != Padding(|pad|) then Failed(Malformed) else
    var named := ReadStr(pub);
    if named.None? || named.value.field != pk.value.field || sk.value.field[32..] != pk.value.field then Failed(Malformed)
    else if derive(sk.value.field[..32]) != pk.value.field then Failed(Malformed)
    else Key(sk.value.field[..32], pk.value.field)
  }

  /** The whole block: the check words first, then the type, which the public half must name too. */
  function ReadPrivate(derive: seq<byte> -> seq<byte>, block: seq<byte>, pubBlob: seq<byte>, blockSize: nat): (r: Parsed)
    requires blockSize <= 256
  {
    if |block| < 8 then Failed(Malformed)
    else if block[..4] != block[4..8] then Failed(CheckMismatch)
    else
      var t, u := ReadStr(block[8..]), ReadStr(pubBlob);
      if t.None? then Failed(Malformed)
      else if u.None? || u.value.field != t.value.field then Failed(Malformed)
      else if t.value.field != KeyType() then Failed(Unsupported)
      else ReadKey(derive, t.value.rest, u.value.rest, blockSize)
  }

  lemma KeyFields(derive: seq<byte> -> seq<byte>, pub: seq<byte>, seed: seq<byte>, comment: seq<byte>, pad: seq<byte>,
                  rest: seq<byte>, blockSize: nat)
    requires |pub| == 32 && |seed| == 32 && |comment| < U32_LIMIT && derive(seed) == pub
    requires |pad| < blockSize <= 256 && pad == Padding(|pad|)
    ensures ReadKey(derive, Str(pub) + (Str(seed + pub) + (Str(comment) + pad)), Str(pub) + rest, blockSize) == Key(seed, pub)
  {
    hide Str, ReadStr, Padding;
    var b2 := Str(comment) + pad;
    var b1 := Str(seed + pub) + b2;
    ReadStrExact(Str(pub) + b1, pub, b1);
    ReadStrExact(b1, seed + pub, b2);
    ReadStrExact(b2, comment, pad);
    ReadStrExact(Str(pub) + rest, pub, rest);
    assert (seed + pub)[..32] == seed && (seed + pub)[32..] == pub;
  }

  lemma BlockParts(check: seq<byte>, rest: seq<byte>)
    requires |check| == 4
    ensures var b := check + (check + rest); |b| == 8 + |rest| && b[..4] == check && b[4..8] == check && b[8..] == rest
  {
  }

  /** A block as it is written reads back as its key. */
  lemma PrivateRead(derive: seq<byte> -> seq<byte>, check: seq<byte>, pub: seq<byte>, seed: seq<byte>, comment: seq<byte>,
                    pad: seq<byte>, blockSize: nat)
    requires |check| == 4 && |pub| == 32 && |seed| == 32 && |comment| < U32_LIMIT && derive(seed) == pub
    requires |pad| < blockSize <= 256 && pad == Padding(|pad|)
    ensures ReadPrivate(derive, PrivBlock(check, pub, seed, comment, pad), PubBlob(pub), blockSize) == Key(seed, pub)
  {
    hide Str, ReadStr, ReadKey, KeyType, Padding;
    var block := PrivBlock(check, pub, seed, comment, pad);
    var fields := Str(pub) + (Str(seed + pub) + (Str(comment) + pad));
    BlockParts(check, Str(KeyType()) + fields);
    ReadStrExact(block[8..], KeyType(), fields);
    ReadStrExact(PubBlob(pub), KeyType(), Str(pub));
    assert Str(pub) + [] == Str(pub);
    KeyFields(derive, pub, seed, comment, pad, [], blockSize);
  }

  /** And nothing else does: a key read is a key written, by its own block and its own public half. */
  lemma PrivateReadOnly(derive: seq<byte> -> seq<byte>, block: seq<byte>, pubBlob: seq<byte>, blockSize: nat)
    requires blockSize <= 256 && ReadPrivate(derive, block, pubBlob, blockSize).Key?
    ensures
      var k := ReadPrivate(derive, block, pubBlob, blockSize);
      && |k.seed| == |k.pub| == 32 && derive(k.seed) == k.pub && PubBlob(k.pub) <= pubBlob
      && exists check, comment, pad: seq<byte> ::
           |check| == 4 && |pad| < blockSize && pad == Padding(|pad|) && block == PrivBlock(check, k.pub, k.seed, comment, pad)
  {
    hide Str, ReadStr, KeyType;
    var k := ReadPrivate(derive, block, pubBlob, blockSize);
    var t, u := ReadStr(block[8..]).value, ReadStr(pubBlob).value;
    ReadStrFits(block[8..]);
    ReadStrFits(pubBlob);
    var pk := ReadStr(t.rest).value;
    ReadStrFits(t.rest);
    var sk := ReadStr(pk.rest).value;
    ReadStrFits(pk.rest);
    var c := ReadStr(sk.rest).value;
    ReadStrFits(sk.rest);
    ReadStrFits(u.rest);
    assert sk.field == k.seed + k.pub;
    var check := block[..4];
    assert block == check + (check + block[8..]);
    assert block == PrivBlock(check, k.pub, k.seed, c.field, c.rest);
    assert pubBlob == PubBlob(k.pub) + ReadStr(u.rest).value.rest;
  }
}
