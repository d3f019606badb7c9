/** A whole key file: marshalled, armoured, encrypted in place, and opened again. */
module KeyFile {
  import opened Numbers
  import opened Memory
  import opened Options
  import opened SshWire
  import opened OpenSsh
  import Ctr
  import Der
  import Pem
  import Base64

  /** "OPENSSH PRIVATE KEY" */
  function PemType(): (s: seq<byte>)
    ensures |s| == 19 && Pem.Label(s)
  {
    [79, 80, 69, 78, 83, 83, 72, 32, 80, 82, 73, 86, 65, 84, 69, 32, 75, 69, 89]
  }

  lemma PemTypeIs()
    ensures PemType() == Ascii("OPENSSH PRIVATE KEY")
  {
  }

  const MAX_ROUNDS := 2048
  const MAX_SALT := 0x10_0000
  const SALT := 16

  /** A cipher the reader knows by name: how long its authenticator is, the granularity of its
      padding, and how it opens a block under passphrase, salt, rounds and authenticator. */
  datatype Mode = Mode(
    tagLen: nat, block: nat, open: (seq<byte>, seq<byte>, nat, seq<byte>, seq<byte>) -> Option<seq<byte>>)

  /** The password KDF, the block cipher and the reader's other ciphers stay open. */
  datatype Suite = Suite(
    kdf: (seq<byte>, seq<byte>, nat) -> seq<byte>, aes: seq<byte> -> Ctr.Cipher, others: seq<byte> -> Option<Mode>)
  {
    ghost predicate Lawful() {
      && (forall pass, salt, rounds :: |kdf(pass, salt, rounds)| == 48)
      && (forall key :: Ctr.Lawful(aes(key)))
      && forall name :: others(name).Some? ==> others(name).value.block in {8, 16}
    }

    /** aes256-ctr carries no authenticator. */
    predicate Knows(name: seq<byte>) { name == CtrName() || others(name).Some? }

    function TagLen(name: seq<byte>): nat
      requires Knows(name)
    {
      if name == CtrName() then 0 else others(name).value.tagLen
    }

    function BlockLen(name: seq<byte>): (n: nat)
      requires Lawful() && Knows(name)
      ensures n == 8 || n == 16
    {
      if name == CtrName() then 16 else others(name).value.block
    }

    function OpenBlock(name: seq<byte>, pass: seq<byte>, salt: seq<byte>, rounds: nat, block: seq<byte>, tag: seq<byte>)
      : Option<seq<byte>>
      requires Lawful() && Knows(name)
    {
      if name == CtrName() then Some(Crypt(pass, salt, rounds, block)) else others(name).value.open(pass, salt, rounds, block, tag)
    }

    /** aes256-ctr under the key and IV the passphrase gives. */
    function Crypt(pass: seq<byte>, salt: seq<byte>, rounds: nat, data: seq<byte>): (r: seq<byte>)
      requires Lawful()
      ensures |r| == |data|
    {
      var kiv := kdf(pass, salt, rounds);
      Ctr.Apply(aes(kiv[..32]), kiv[32..], data)
    }
  }

  /** The j-th byte of an encrypted block, from the 48 bytes of the KDF: a key of 32, and a counter to start from. */
  lemma CryptAt(s: Suite, pass: seq<byte>, salt: seq<byte>, rounds: nat, data: seq<byte>, j: nat)
    requires s.Lawful() && j < |data|
    ensures var kiv := s.kdf(pass, salt, rounds);
      s.Crypt(pass, salt, rounds, data)[j] == Xor(data[j], s.aes(kiv[..32])(ToBE(BE(kiv[32..]) + j / 16, 16))[j % 16])
  {
    hide Ctr.Apply, Xor;
    var kiv := s.kdf(pass, salt, rounds);
    Ctr.ApplyAt(s.aes(kiv[..32]), kiv[32..], data, j);
  }

  lemma CryptTwice(s: Suite, pass: seq<byte>, salt: seq<byte>, rounds: nat, data: seq<byte>)
    requires s.Lawful()
    ensures s.Crypt(pass, salt, rounds, s.Crypt(pass, salt, rounds, data)) == data
  {
    var kiv := s.kdf(pass, salt, rounds);
    Ctr.ApplyTwice(s.aes(kiv[..32]), kiv[32..], data);
  }

  /** The padding of an n byte text to whole blocks. */
  lemma PadTo(n: nat, b: nat)
    requires b == 8 || b == 16
    ensures (b - n % b) % b < b && (n + (b - n % b) % b) % b == 0
  {
    if b == 8 {
      PadTo8(n);
    } else {
      PadTo16(n);
    }
  }

  lemma PadTo8(n: nat)
    ensures (8 - n % 8) % 8 < 8 && (n + (8 - n % 8) % 8) % 8 == 0
  {
  }

  lemma PadTo16(n: nat)
    ensures (16 - n % 16) % 16 < 16 && (n + (16 - n % 16) % 16) % 16 == 0
  {
  }

  /** What is marshalled, and the randomness it takes. */
  datatype Request = Request(
    seed: seq<byte>, pub: seq<byte>, comment: seq<byte>, pass: seq<byte>, rounds: nat, salt: seq<byte>, check: seq<byte>)
  {
    predicate Valid() {
      |seed| == 32 && |pub| == 32 && |salt| == SALT && |check| == 4
    }

    function BlockSize(): (n: nat)
      ensures n == 8 || n == 16
    {
      if pass == [] then 8 else 16
    }

    function PrivLen(): nat {
      4 + 4 + (4 + 11) + (4 + 32) + (4 + 64) + (4 + |comment|)
    }

    function PadLen(): (n: nat)
      ensures n < BlockSize() && (PrivLen() + n) % BlockSize() == 0
    {
      PadTo(PrivLen(), BlockSize());
      (BlockSize() - PrivLen() % BlockSize()) % BlockSize()
    }

    function CipherName(): seq<byte> {
      if pass == [] then NoneName() else CtrName()
    }

    function KdfName(): seq<byte> {
      if pass == [] then NoneName() else BcryptName()
    }

    function KdfOpts(): seq<byte> {
      if pass == [] then [] else Str(salt) + U32(rounds)
    }

    /** The size the source allocates before it writes anything. */
    function Total(): nat {
      15 + (4 + |CipherName()|) + (4 + |KdfName()|) + (4 + |KdfOpts()|) + 4 + (4 + (15 + 36)) + (4 + (PrivLen() + PadLen()))
    }

    function Names(): seq<byte> {
      Magic() + Str(CipherName()) + Str(KdfName()) + Str(KdfOpts())
    }

    /** What stands in front of the private block. */
    function Front(): seq<byte> {
      Names() + U32(1) + U32(15 + 36) + Str(KeyType()) + Str(pub) + U32(PrivLen() + PadLen())
    }

    function Plain(): seq<byte> {
      PrivBlock(check, pub, seed, comment, Padding(PadLen()))
    }

    function Container(s: Suite): seq<byte>
      requires s.Lawful()
    {
      Front() + if pass == [] then Plain() else s.Crypt(pass, salt, rounds, Plain())
    }

    function File(s: Suite): seq<byte>
      requires s.Lawful()
    {
      Pem.Armour(PemType(), Container(s))
    }
  }

  lemma PlainLength(q: Request)
    requires q.Valid()
    ensures |q.Plain()| == q.PrivLen() + q.PadLen()
  {
    hide Padding, Request.PadLen, KeyType;
  }

  lemma FrontLength(q: Request)
    requires q.Valid()
    ensures |q.Front()| + |q.Plain()| == q.Total()
  {
    hide Padding, Request.PadLen, KeyType, Magic, Request.CipherName, Request.KdfName, Request.KdfOpts, Request.Plain, Str, U32;
    PlainLength(q);
  }

  /** The writes of the private block, from check words to pad. */
  method WritePrivate(w: Writer, q: Request)
    requires q.Valid() && w.Valid() && w.n + |q.Plain()| <= w.b.Length
    modifies w`n, w.b
    ensures w.Valid() && w.b[..w.n] == old(w.b[..w.n]) + q.Plain()
  {
    hide Padding, Request.PadLen, KeyType, Str, U32;
    PlainLength(q);
    ghost var was := w.b[..w.n];
    w.Bytes(q.check);
    w.Bytes(q.check);
    w.WriteStr(KeyType());
    w.WriteStr(q.pub);
    WriteSecret(w, q);
    FourJoined(was, q.check, Str(KeyType()), Str(q.pub), Str(q.seed + q.pub) + (Str(q.comment) + Padding(q.PadLen())));
  }

  lemma FourJoined(was: seq<byte>, a: seq<byte>, b: seq<byte>, c: seq<byte>, rest: seq<byte>)
    ensures was + a + a + b + c + rest == was + (a + (a + (b + (c + rest))))
  {
  }

  /** string priv = seed || pub | string comment | pad */
  method WriteSecret(w: Writer, q: Request)
    requires q.Valid() && w.Valid() && w.n + 68 + 4 + |q.comment| + q.PadLen() <= w.b.Length
    modifies w`n, w.b
    ensures w.Valid() && w.b[..w.n] == old(w.b[..w.n]) + (Str(q.seed + q.pub) + (Str(q.comment) + Padding(q.PadLen())))
  {
    hide Padding, Request.PadLen, U32;
    ghost var was := w.b[..w.n];
    w.Uint32(64);
    w.Bytes(q.seed);
    w.Bytes(q.pub);
    SecretJoined(was, q.seed, q.pub);
    w.WriteStr(q.comment);
    WritePadding(w, q.PadLen());
    ThreeJoined(was, Str(q.seed + q.pub), Str(q.comment), Padding(q.PadLen()));
  }

  lemma SecretJoined(was: seq<byte>, seed: seq<byte>, pub: seq<byte>)
    requires |seed| == |pub| == 32
    ensures was + U32(64) + seed + pub == was + Str(seed + pub)
  {
    hide U32;
  }

  lemma ThreeJoined(was: seq<byte>, a: seq<byte>, b: seq<byte>, c: seq<byte>)
    ensures was + a + b + c == was + (a + (b + c))
  {
  }

  method WritePadding(w: Writer, n: nat)
    requires n < 256 && w.Valid() && w.n + n <= w.b.Length
    modifies w`n, w.b
    ensures w.Valid() && w.b[..w.n] == old(w.b[..w.n]) + Padding(n)
  {
    ghost var was, at := w.b[..w.n], w.n;
    for i := 0 to n
      invariant w.n == at + i && w.b[..w.n] == was + Padding(i)
    {
      w.b[w.n] := i + 1;
      ghost var m := w.n;
      w.n := w.n + 1;
      assert w.b[..w.n] == w.b[..m] + [i + 1];
    }
  }

  /** The magic, the two names and the KDF's options. */
  method WriteNames(w: Writer, q: Request)
    requires q.Valid() && w.Valid() && w.n == 0 && |q.Names()| <= w.b.Length
    modifies w`n, w.b
    ensures w.Valid() && w.n == |q.Names()| && w.b[..w.n] == q.Names()
  {
    hide Magic, Str, U32, Request.CipherName, Request.KdfName, Request.KdfOpts;
    w.Bytes(Magic());
    w.WriteStr(q.CipherName());
    w.WriteStr(q.KdfName());
    w.WriteStr(q.KdfOpts());
  }

  /** The header fields, up to the private block's length. */
  method WriteFront(w: Writer, q: Request)
    requires q.Valid() && w.Valid() && w.n == 0 && |q.Front()| <= w.b.Length
    modifies w`n, w.b
    ensures w.Valid() && w.n == |q.Front()| && w.b[..w.n] == q.Front()
  {
    hide KeyType, Str, U32, Request.Names, Request.PadLen;
    WriteNames(w, q);
    w.Uint32(1);
    w.Uint32(15 + 36);
    w.WriteStr(KeyType());
    w.WriteStr(q.pub);
    w.Uint32(q.PrivLen() + q.PadLen());
  }

  lemma SuiteIs(s: Suite, pass: seq<byte>, salt: seq<byte>, rounds: nat)
    requires s.Lawful()
    ensures var kiv := s.kdf(pass, salt, rounds); |kiv| == 48 && Ctr.Lawful(s.aes(kiv[..32]))
  {
  }

  lemma CryptBytes(s: Suite, pass: seq<byte>, salt: seq<byte>, rounds: nat, was: seq<byte>, now: seq<byte>, start: nat)
    requires s.Lawful() && start <= |was| && now == was[..start] + s.Crypt(pass, salt, rounds, was[start..])
    ensures |now| == |was| && now[..start] == was[..start]
    ensures var kiv := s.kdf(pass, salt, rounds);
      forall j :: 0 <= j < |was| - start ==>
        now[start + j] == Xor(was[start + j], s.aes(kiv[..32])(ToBE(BE(kiv[32..]) + j / 16, 16))[j % 16])
  {
    hide Suite.Crypt, Xor;
    var kiv := s.kdf(pass, salt, rounds);
    forall j | 0 <= j < |was| - start
      ensures now[start + j] == Xor(was[start + j], s.aes(kiv[..32])(ToBE(BE(kiv[32..]) + j / 16, 16))[j % 16])
    {
      CryptAt(s, pass, salt, rounds, was[start..], j);
    }
  }

  /** The private block encrypted where it stands. */
  method CryptInPlace(s: Suite, c: array<byte>, start: nat, len: nat, pass: seq<byte>, salt: seq<byte>, rounds: nat)
    requires s.Lawful() && start + len == c.Length
    modifies c
    ensures c[..] == old(c[..start]) + s.Crypt(pass, salt, rounds, old(c[start..]))
    ensures forall j :: 0 <= j < start ==> c[j] == old(c[j])
    ensures var kiv := s.kdf(pass, salt, rounds);
      forall j :: 0 <= j < len ==>
        c[start + j] == Xor(old(c[start + j]), s.aes(kiv[..32])(ToBE(BE(kiv[32..]) + j / 16, 16))[j % 16])
  {
    hide Ctr.Apply, Xor, Suite.Lawful;
    SuiteIs(s, pass, salt, rounds);
    var kiv := s.kdf(pass, salt, rounds);
    var scratch := new byte[2 * Ctr.BLOCK](_ => 0);
    assert c[..][start..start + len] == c[start..];
    Ctr.Xor128(s.aes(kiv[..32]), kiv[32..], c, start, start, len, scratch);
    CryptBytes(s, pass, salt, rounds, old(c[..]), c[..], start);
  }

  /**
   * The file for a key: every buffer is allocated at its computed size and
   * filled exactly. Rounds outside the range are refused before anything is
   * written.
   */
  method Marshal(s: Suite, q: Request) returns (ok: bool, file: array<byte>)
    requires s.Lawful() && q.Valid()
    ensures ok <==> q.pass == [] || 1 <= q.rounds <= MAX_ROUNDS
    ensures ok ==> fresh(file) && file[..] == q.File(s)
  {
    hide Request.Front, Request.Plain, Request.Total, Suite.Crypt, Pem.Armour, Pem.Len, PemType;
    if q.pass != [] && (q.rounds < 1 || q.rounds > MAX_ROUNDS) {
      file := new byte[0];
      return false, file;
    }
    FrontLength(q);
    var c := new byte[q.Total()](_ => 0);
    var w := new Writer(c);
    WriteFront(w, q);
    var start := w.n;
    WritePrivate(w, q);
    assert w.n == q.Total() && c[..] == c[..w.n] == q.Front() + q.Plain();
    if q.pass != [] {
      assert c[..start] == q.Front() && c[start..] == q.Plain();
      CryptInPlace(s, c, start, q.Total() - start, q.pass, q.salt, q.rounds);
    }
    assert c[..] == q.Container(s);
    file := new byte[Pem.Len(|PemType()|, q.Total())](_ => 0);
    var n := Pem.EncodeInto(file, PemType(), c[..]);
    assert file[..n] == file[..];
    ok := true;
  }

  /** The container, byte by byte behind its front: the private block as it is, or under a passphrase each byte with the
      key stream of its counter block. */
  lemma ContainerBytes(s: Suite, q: Request, j: nat)
    requires s.Lawful() && q.Valid() && j < |q.Plain()|
    ensures |q.Container(s)| == |q.Front()| + |q.Plain()| && q.Front() <= q.Container(s)
    ensures var kiv := s.kdf(q.pass, q.salt, q.rounds);
      q.Container(s)[|q.Front()| + j] ==
        if q.pass == [] then q.Plain()[j]
        else Xor(q.Plain()[j], s.aes(kiv[..32])(ToBE(BE(kiv[32..]) + j / 16, 16))[j % 16])
  {
    hide Suite.Crypt, Request.Front, Request.Plain, Xor;
    CryptAt(s, q.pass, q.salt, q.rounds, q.Plain(), j);
  }

  /** The front, field by field and in the format's own words. */
  lemma FrontFields(q: Request)
    ensures q.pass == [] ==>
      q.Front() == Ascii("openssh-key-v1") + [0] + Str(Ascii("none")) + Str(Ascii("none")) + Str([])
                   + U32(1) + U32(51) + Str(Ascii("ssh-ed25519")) + Str(q.pub) + U32(q.PrivLen() + q.PadLen())
    ensures q.pass != [] ==>
      q.Front() == Ascii("openssh-key-v1") + [0] + Str(Ascii("aes256-ctr")) + Str(Ascii("bcrypt")) + Str(Str(q.salt) + U32(q.rounds))
                   + U32(1) + U32(51) + Str(Ascii("ssh-ed25519")) + Str(q.pub) + U32(q.PrivLen() + q.PadLen())
  {
    hide Ascii, Str, U32, Magic, NoneName, CtrName, BcryptName, KeyType, Request.PadLen;
    Spelling();
  }

  // Opening.

  /** A container that is not encrypted. */
  function OpenPlain(derive: seq<byte> -> seq<byte>, b: seq<byte>): (r: Parsed) {
    var h := ReadHeader(b);
    if h.None? then Failed(Malformed)
    else if h.value.cipher != NoneName() then Failed(Encrypted)
    else if h.value.rest != [] then Failed(Malformed)
    else if h.value.numKeys != 1 then Failed(Unsupported)
    else if |h.value.privBlock| == 0 || |h.value.privBlock| % 8 != 0 then Failed(Malformed)
    else ReadPrivate(derive, h.value.privBlock, h.value.pubBlob, 8)
  }

  datatype KdfOptions = BadOptions | KdfOptions(salt: seq<byte>, rounds: nat)

  /** string salt | uint32 rounds, and nothing else. */
  function ReadKdfOptions(b: seq<byte>): (r: KdfOptions) {
    var salt := ReadStr(b);
    if salt.None? then BadOptions else
    var rounds := ReadU32(salt.value.rest);
    if rounds.None? || rounds.value.rest != [] || salt.value.field == [] || rounds.value.v == 0 || |salt.value.field| > MAX_SALT
    then BadOptions
    else KdfOptions(salt.value.field, rounds.value.v)
  }

  /** A container under a passphrase. */
  function OpenSealed(derive: seq<byte> -> seq<byte>, s: Suite, b: seq<byte>, pass: seq<byte>): (r: Parsed)
    requires s.Lawful()
  {
    var h := ReadHeader(b);
    if h.None? then Failed(Malformed)
    else if h.value.cipher == NoneName() then Failed(NotEncrypted)
    else if h.value.kdf != BcryptName() || !s.Knows(h.value.cipher) then Failed(Unsupported)
    else if |h.value.rest| != s.TagLen(h.value.cipher) then Failed(Malformed)
    else if h.value.numKeys != 1 then Failed(Unsupported)
    else
      var o := ReadKdfOptions(h.value.kdfOpts);
      if o.BadOptions? then Failed(Malformed)
      else if o.rounds > MAX_ROUNDS then Failed(Unsupported)
      else if |h.value.privBlock| == 0 || |h.value.privBlock| % s.BlockLen(h.value.cipher) != 0 then Failed(Malformed)
      else
        var t := ReadStr(h.value.pubBlob);
        if t.None? then Failed(Malformed)
        else if t.value.field != KeyType() then Failed(Unsupported)
        else
          var plain := s.OpenBlock(h.value.cipher, pass, o.salt, o.rounds, h.value.privBlock, h.value.rest);
          if plain.None? then Failed(Undecryptable)
          else
            var k := ReadPrivate(derive, plain.value, h.value.pubBlob, s.BlockLen(h.value.cipher));
            if k.Key? then k else Failed(Undecryptable)
  }

  /** The whole input is one DER SEQUENCE, its length in at most four octets. */
  predicate LooksLikeDer(data: seq<byte>) {
    |data| >= 2 && data[0] == 0x30 && data[1] <= 0x84 &&
    var n := Der.ReadLength(data[1..]);
    n.Some? && n.value.value == |n.value.rest|
  }

  /** A file: the bare container, or the first PEM block if it is labelled as one. */
  function Unarmoured(legacy: seq<byte> -> bool, data: seq<byte>): (r: Option<seq<byte>>) {
    if Magic() <= data then Some(data)
    else if LooksLikeDer(data) then None
    else
      match Pem.Locate(legacy, data)
      case Err(_) => None
      case Block(typ, body) => if typ != PemType() then None else Pem.Decoded(body)
  }

  // The round trip.

  lemma NamesDiffer()
    ensures NoneName() != CtrName() && NoneName() != BcryptName()
  {
  }

  ghost function HeaderOf(q: Request, block: seq<byte>): Header {
    Header(q.CipherName(), q.KdfName(), q.KdfOpts(), 1, PubBlob(q.pub), block, [])
  }

  /** The layout written is the header's. */
  lemma ContainerIsHeader(q: Request, block: seq<byte>)
    requires q.Valid() && |block| == q.PrivLen() + q.PadLen()
    ensures q.Front() + block == HeaderOf(q, block).Bytes()
  {
    hide Magic, KeyType, U32, Request.CipherName, Request.KdfName, Request.KdfOpts, Request.PadLen;
    var tail := Str(PubBlob(q.pub)) + (Str(block) + []);
    assert Str(PubBlob(q.pub)) == U32(15 + 36) + Str(KeyType()) + Str(q.pub);
    assert Str(block) == U32(|block|) + block;
  }

  lemma HeaderRead(q: Request, block: seq<byte>)
    requires q.Valid() && |block| == q.PrivLen() + q.PadLen() && q.Total() < U32_LIMIT
    ensures ReadHeader(q.Front() + block) == Some(HeaderOf(q, block))
  {
    ContainerIsHeader(q, block);
    HeaderFits(q, block);
    HeaderExact(q.Front() + block, HeaderOf(q, block));
  }

  lemma HeaderFits(q: Request, block: seq<byte>)
    requires q.Valid() && |block| == q.PrivLen() + q.PadLen() && q.Total() < U32_LIMIT
    ensures HeaderOf(q, block).Fits() && HeaderOf(q, block).Consistent()
  {
    NamesDiffer();
  }

  lemma KdfOptionsRead(salt: seq<byte>, rounds: nat)
    requires |salt| == SALT && 0 < rounds < U32_LIMIT
    ensures ReadKdfOptions(Str(salt) + U32(rounds)) == KdfOptions(salt, rounds)
  {
    hide Str, U32;
    ReadStrExact(Str(salt) + U32(rounds), salt, U32(rounds));
    assert U32(rounds) + [] == U32(rounds);
    ReadU32Exact(U32(rounds), rounds, []);
  }

  /** The options are read exactly when they are a salt of at least one byte and no more than the KDF takes, and a count
      that is not zero, and nothing else. */
  lemma KdfOptionsExactly(b: seq<byte>, salt: seq<byte>, rounds: nat)
    requires |salt| < U32_LIMIT && rounds < U32_LIMIT
    ensures ReadKdfOptions(b) == KdfOptions(salt, rounds) <==>
      b == Str(salt) + U32(rounds) && 0 < |salt| <= 0x10_0000 && rounds > 0
  {
    hide Str, U32, ReadStr, ReadU32;
    assert U32(rounds) + [] == U32(rounds);
    ReadU32Exact(U32(rounds), rounds, []);
    ReadStrExact(b, salt, U32(rounds));
    var s := ReadStr(b);
    if s.Some? {
      ReadStrFits(b);
      ReadU32Exact(s.value.rest, rounds, []);
    }
  }

  lemma TypeRead(pub: seq<byte>)
    ensures ReadStr(PubBlob(pub)) == Some(Cut(KeyType(), Str(pub)))
  {
    hide Str, KeyType;
    ReadStrExact(PubBlob(pub), KeyType(), Str(pub));
  }

  lemma OpenedPlain(derive: seq<byte> -> seq<byte>, s: Suite, q: Request)
    requires s.Lawful() && q.Valid() && q.pass == [] && q.Total() < U32_LIMIT && derive(q.seed) == q.pub
    ensures OpenPlain(derive, q.Container(s)) == Key(q.seed, q.pub)
  {
    hide ReadHeader, ReadPrivate, Request.Plain, Padding, Request.Front;
    PlainLength(q);
    HeaderRead(q, q.Plain());
    PlainIs(derive, q);
  }

  lemma PlainIs(derive: seq<byte> -> seq<byte>, q: Request)
    requires q.Valid() && |q.comment| < U32_LIMIT && derive(q.seed) == q.pub
    ensures ReadPrivate(derive, q.Plain(), PubBlob(q.pub), q.BlockSize()) == Key(q.seed, q.pub)
  {
    hide ReadPrivate, Padding;
    PrivateRead(derive, q.check, q.pub, q.seed, q.comment, Padding(q.PadLen()), q.BlockSize());
  }

  /** A container of this layout and this plaintext opens, whichever known cipher it names. */
  lemma OpenedUnder(derive: seq<byte> -> seq<byte>, s: Suite, h: Header, q: Request, pad: seq<byte>)
    requires s.Lawful() && q.Valid() && 1 <= q.rounds <= MAX_ROUNDS && |q.comment| < U32_LIMIT && derive(q.seed) == q.pub
    requires h.Fits() && h.cipher != NoneName() && s.Knows(h.cipher) && h.kdf == BcryptName()
    requires h.kdfOpts == Str(q.salt) + U32(q.rounds) && h.numKeys == 1 && h.pubBlob == PubBlob(q.pub)
    requires |h.rest| == s.TagLen(h.cipher) && |h.privBlock| > 0 && |h.privBlock| % s.BlockLen(h.cipher) == 0
    requires |pad| < s.BlockLen(h.cipher) && pad == Padding(|pad|)
    requires s.OpenBlock(h.cipher, q.pass, q.salt, q.rounds, h.privBlock, h.rest)
          == Some(PrivBlock(q.check, q.pub, q.seed, q.comment, pad))
    ensures OpenSealed(derive, s, h.Bytes(), q.pass) == Key(q.seed, q.pub)
  {
    hide ReadHeader, ReadPrivate, Padding, Suite.Crypt, Suite.OpenBlock, ReadKdfOptions, ReadStr, Str, U32, PrivBlock, Header.Bytes;
    NamesDiffer();
    HeaderExact(h.Bytes(), h);
    KdfOptionsRead(q.salt, q.rounds);
    TypeRead(q.pub);
    PrivateRead(derive, q.check, q.pub, q.seed, q.comment, pad, s.BlockLen(h.cipher));
  }

  /** What the writer made, in aes256-ctr, opens. */
  lemma OpenedSealed(derive: seq<byte> -> seq<byte>, s: Suite, q: Request)
    requires s.Lawful() && q.Valid() && q.pass != [] && 1 <= q.rounds <= MAX_ROUNDS
    requires q.Total() < U32_LIMIT && derive(q.seed) == q.pub
    ensures OpenSealed(derive, s, q.Container(s), q.pass) == Key(q.seed, q.pub)
  {
    hide OpenSealed, Request.Front, Suite.Crypt, Padding, Str, U32, Header.Bytes;
    var block := s.Crypt(q.pass, q.salt, q.rounds, q.Plain());
    PlainLength(q);
    ContainerIsHeader(q, block);
    HeaderFits(q, block);
    NamesDiffer();
    CryptTwice(s, q.pass, q.salt, q.rounds, q.Plain());
    PaddingLength(q.PadLen());
    OpenedUnder(derive, s, HeaderOf(q, block), q, Padding(q.PadLen()));
  }

  lemma PaddingLength(n: nat)
    requires n < 16
    ensures |Padding(n)| == n
  {
  }

  /** And nothing else opens: a key that comes out was in a plaintext of the format, in a container that names
      a cipher the reader knows, carries that cipher's authenticator and no more, and shows the same public key. */
  lemma OpenedOnly(derive: seq<byte> -> seq<byte>, s: Suite, b: seq<byte>, pass: seq<byte>)
    requires s.Lawful() && OpenSealed(derive, s, b, pass).Key?
    ensures
      var k, h := OpenSealed(derive, s, b, pass), ReadHeader(b);
      && h.Some? && s.Knows(h.value.cipher) && h.value.kdf == BcryptName() && |h.value.rest| == s.TagLen(h.value.cipher)
      && |k.seed| == |k.pub| == 32 && derive(k.seed) == k.pub && PubBlob(k.pub) <= h.value.pubBlob
      && var o := ReadKdfOptions(h.value.kdfOpts);
         && o.KdfOptions? && 1 <= o.rounds <= MAX_ROUNDS
         && exists check, comment, pad: seq<byte> ::
              && |check| == 4 && |pad| < s.BlockLen(h.value.cipher) && pad == Padding(|pad|)
              && s.OpenBlock(h.value.cipher, pass, o.salt, o.rounds, h.value.privBlock, h.value.rest)
                 == Some(PrivBlock(check, k.pub, k.seed, comment, pad))
  {
    hide ReadHeader, ReadPrivate, Padding, Suite.Crypt, Suite.OpenBlock, ReadStr, Str, U32, PrivBlock;
    var h := ReadHeader(b).value;
    var o := ReadKdfOptions(h.kdfOpts);
    var plain := s.OpenBlock(h.cipher, pass, o.salt, o.rounds, h.privBlock, h.rest).value;
    PrivateReadOnly(derive, plain, h.pubBlob, s.BlockLen(h.cipher));
  }

  /** The same of a container that is not encrypted. */
  lemma OpenedPlainOnly(derive: seq<byte> -> seq<byte>, b: seq<byte>)
    requires OpenPlain(derive, b).Key?
    ensures
      var k, h := OpenPlain(derive, b), ReadHeader(b);
      && h.Some? && h.value.cipher == h.value.kdf == NoneName() && h.value.kdfOpts == h.value.rest == [] && h.value.numKeys == 1
      && |k.seed| == |k.pub| == 32 && derive(k.seed) == k.pub && PubBlob(k.pub) <= h.value.pubBlob
      && exists check, comment, pad: seq<byte> ::
           && |check| == 4 && |pad| < 8 && pad == Padding(|pad|)
           && h.value.privBlock == PrivBlock(check, k.pub, k.seed, comment, pad)
  {
    hide ReadPrivate, Padding, PrivBlock, ReadNames, ReadBlocks;
    var h := ReadHeader(b).value;
    PrivateReadOnly(derive, h.privBlock, h.pubBlob, 8);
  }

  /** How a container whose header stands is refused without a passphrase: what is wrong first, in the source's order. */
  lemma PlainVerdict(derive: seq<byte> -> seq<byte>, h: Header)
    requires h.Fits() && h.Consistent()
    ensures h.cipher != NoneName() ==> OpenPlain(derive, h.Bytes()) == Failed(Encrypted)
    ensures h.cipher == NoneName() && h.rest != [] ==> OpenPlain(derive, h.Bytes()) == Failed(Malformed)
    ensures h.cipher == NoneName() && h.rest == [] && h.numKeys != 1 ==> OpenPlain(derive, h.Bytes()) == Failed(Unsupported)
    ensures h.cipher == NoneName() && h.rest == [] && h.numKeys == 1 && |h.privBlock| >= 8 && |h.privBlock| % 8 == 0
              && h.privBlock[..4] != h.privBlock[4..8]
            ==> OpenPlain(derive, h.Bytes()) == Failed(CheckMismatch)
  {
    hide Header.Bytes, ReadHeader, Header.Consistent;
    HeaderExact(h.Bytes(), h);
  }

  /** How it is refused under one. Whatever is wrong with the decrypted block is one and the same error. */
  lemma SealedVerdict(derive: seq<byte> -> seq<byte>, s: Suite, h: Header, pass: seq<byte>)
    requires s.Lawful() && h.Fits() && h.Consistent()
    ensures h.cipher == NoneName() ==> OpenSealed(derive, s, h.Bytes(), pass) == Failed(NotEncrypted)
    ensures h.cipher != NoneName() && (h.kdf != BcryptName() || !s.Knows(h.cipher)) ==>
              OpenSealed(derive, s, h.Bytes(), pass) == Failed(Unsupported)
    ensures h.cipher != NoneName() && h.kdf == BcryptName() && s.Knows(h.cipher) ==>
      var r := OpenSealed(derive, s, h.Bytes(), pass);
      && (|h.rest| != s.TagLen(h.cipher) ==> r == Failed(Malformed))
      && (|h.rest| == s.TagLen(h.cipher) && h.numKeys != 1 ==> r == Failed(Unsupported))
      && (r.Failed? ==> r.error == Malformed || r.error == Unsupported || r.error == Undecryptable)
  {
    hide Header.Bytes, ReadHeader, Header.Consistent, Suite.OpenBlock, ReadPrivate, ReadKdfOptions, ReadStr;
    HeaderExact(h.Bytes(), h);
  }

  /** Rounds out of range are refused before the KDF runs, a wrong passphrase after. */
  lemma RoundsVerdict(derive: seq<byte> -> seq<byte>, s: Suite, h: Header, salt: seq<byte>, rounds: nat, pass: seq<byte>)
    requires s.Lawful() && h.Fits() && h.Consistent() && h.cipher != NoneName() && h.kdf == BcryptName() && s.Knows(h.cipher)
    requires |h.rest| == s.TagLen(h.cipher) && h.numKeys == 1
    requires |salt| == SALT && 0 < rounds < U32_LIMIT && h.kdfOpts == Str(salt) + U32(rounds)
    ensures rounds > MAX_ROUNDS ==> OpenSealed(derive, s, h.Bytes(), pass) == Failed(Unsupported)
    ensures rounds <= MAX_ROUNDS && |h.privBlock| > 0 && |h.privBlock| % s.BlockLen(h.cipher) == 0 ==>
      var t := ReadStr(h.pubBlob);
      && (t.Some? && t.value.field != KeyType() ==> OpenSealed(derive, s, h.Bytes(), pass) == Failed(Unsupported))
      && (t.Some? && t.value.field == KeyType() ==>
            var plain := s.OpenBlock(h.cipher, pass, salt, rounds, h.privBlock, h.rest);
            (plain.None? || ReadPrivate(derive, plain.value, h.pubBlob, s.BlockLen(h.cipher)).Failed?
             <==> OpenSealed(derive, s, h.Bytes(), pass) == Failed(Undecryptable)))
  {
    hide Header.Bytes, ReadHeader, Header.Consistent, Suite.OpenBlock, ReadPrivate, ReadKdfOptions, ReadStr, Str, U32, KeyType;
    HeaderExact(h.Bytes(), h);
    KdfOptionsRead(salt, rounds);
  }

  /** The armour comes off. */
  lemma FileUnarmoured(legacy: seq<byte> -> bool, s: Suite, q: Request)
    requires s.Lawful() && q.Valid()
    ensures Unarmoured(legacy, q.File(s)) == Some(q.Container(s))
  {
    hide Pem.Locate, Pem.Decoded, Pem.Lines, PemType, Request.Plain, Suite.Crypt, Pem.Marker, Pem.Begin;
    var c := q.Container(s);
    FrontStarts(q);
    assert c != [];
    Pem.LocateArmour(legacy, PemType(), c);
    Pem.DecodedLines(c);
    MarkerStarts(PemType());
    assert q.File(s)[0] == Pem.DASH;
  }

  /** What comes out of a file is the file, or what its first PEM block, an OpenSSH one, encodes. */
  lemma UnarmouredOnly(legacy: seq<byte> -> bool, data: seq<byte>)
    requires Unarmoured(legacy, data).Some? && !(Magic() <= data)
    ensures !LooksLikeDer(data)
    ensures var r := Pem.Locate(legacy, data);
      && r.Block? && r.typ == Ascii("OPENSSH PRIVATE KEY")
      && var text := Base64.Stripped(Pem.Trimmed(r.body)); var b := Unarmoured(legacy, data).value;
         && Base64.WellFormed(text) && b != []
         && |Base64.Encode(b)| == |text| && forall i :: 0 <= i < |text| - 4 ==> Base64.Encode(b)[i] == text[i]
  {
    hide Pem.Locate, Pem.Trimmed, Base64.Stripped, Base64.Quanta, Base64.WellFormed, Base64.Encode, PemType, Ascii, LooksLikeDer, Magic;
    PemTypeIs();
    var text := Base64.Stripped(Pem.Trimmed(Pem.Locate(legacy, data).body));
    Base64.QuantaExactly(text);
    Base64.QuantaBack(text);
  }

  lemma MarkerStarts(typ: seq<byte>)
    ensures |Pem.Marker(Pem.Begin(), typ)| > 0 && Pem.Marker(Pem.Begin(), typ)[0] == Pem.DASH
  {
  }

  lemma FrontStarts(q: Request)
    requires q.Valid()
    ensures |q.Front()| > 0
  {
    PlainLength(q);
    FrontLength(q);
  }

  /**
   * What is marshalled opens as the key it was made from: the same seed and
   * public key, through armour, header, decryption and private block.
   */
  lemma RoundTrip(legacy: seq<byte> -> bool, derive: seq<byte> -> seq<byte>, s: Suite, q: Request)
    requires s.Lawful() && q.Valid() && derive(q.seed) == q.pub && q.Total() < U32_LIMIT
    requires q.pass == [] || 1 <= q.rounds <= MAX_ROUNDS
    ensures Unarmoured(legacy, q.File(s)) == Some(q.Container(s))
    ensures q.pass == [] ==> OpenPlain(derive, q.Container(s)) == Key(q.seed, q.pub)
    ensures q.pass != [] ==> OpenSealed(derive, s, q.Container(s), q.pass) == Key(q.seed, q.pub)
  {
    hide OpenPlain, OpenSealed, Unarmoured, Request.File, Request.Container;
    FileUnarmoured(legacy, s, q);
    if q.pass == [] {
      OpenedPlain(derive, s, q);
    } else {
      OpenedSealed(derive, s, q);
    }
  }
}
