/** SecureBuffer under fault injection: securebuf.go, sealauth.go and securebuf_access.go.

Every call that the operating system, the seal cipher or the tag's key can refuse is a
fault the caller of a method chooses, true meaning that the call fails. A call that
fails leaves its own state unchanged. The seal cipher is any reversible map and the tag
any function that tells two contents of the same region apart; neither is otherwise
interpreted. Methods hold the buffer's exclusive lock, so each is one step. */
module SecureBuffer {
  import opened Numbers
  import opened Pages

  datatype Err =
    | NoErr
    | ErrDestroyed | ErrWiped | ErrSealed | ErrReadOnly
    | ErrIntegrity
    | ErrRange
    | ErrFault  // a store through a borrowed slice of a read-only page
    | ErrCall   // a refused system call, cipher call or key allocation

  /** What the prekey's keyring answers: a key generation, or an error. */
  datatype Prekey = Gen(gen: nat) | NoPrekey(err: Err)

  /** The seal cipher and the seal tag. */
  datatype Crypto = Crypto(
    encrypt: (nat, seq<int>) -> seq<int>,     // the first argument is the cipher's own randomness
    decrypt: seq<int> -> seq<int>,
    tag: (nat, nat, seq<int>) -> seq<int>)    // key generation, nonce, bytes

  ghost predicate Lawful(c: Crypto) {
    && (forall salt, b :: c.decrypt(c.encrypt(salt, b)) == b && |c.encrypt(salt, b)| == |b|)
    && (forall b :: |c.decrypt(b)| == |b|)
    && (forall gen, nonce, b, b' :: |b| == |b'| && c.tag(gen, nonce, b) == c.tag(gen, nonce, b') ==> b == b')
  }

  datatype SealFaults = SealFaults(lift: bool, encrypt: bool, protect: bool, rollback: bool, reapply: bool)

  datatype UnsealFaults = UnsealFaults(
    lift: bool, relock: bool, reprotect: bool, decrypt: bool, restore: bool, reencrypt: bool, reseal: bool)

  datatype UseFaults = UseFaults(open: bool, relock: bool, reclose: bool, close: bool)

  datatype DestroyFaults = DestroyFaults(lift: bool, relock: bool, decrypt: bool, restore: bool)

  /** `b` with `src` laid over it at `off`. */
  function Overwrite(b: seq<int>, off: nat, src: seq<int>): (r: seq<int>)
    requires off + |src| <= |b|
    ensures |r| == |b|
  {
    b[..off] + src + b[off + |src|..]
  }

  class Buffer {
    const crypto: Crypto
    const hasCipher: bool      // the platform encrypts on Seal
    const dropsLock: bool      // a no-access page loses its page lock
    const sealAuth: bool
    const closedAtRest: bool

    var bytes: seq<int>        // region.inner, canary slack included
    var size: nat              // len(data)
    var prot: Prot
    var pageLocked: bool
    var sealed: bool
    var readOnly: bool
    var sealCipher: bool
    var wiped: bool
    var destroyed: bool
    var sealTagged: bool
    var sealGen: nat
    var sealNonce: nat
    var sealTag: seq<int>

    ghost var secret: seq<int>   // the value the owner last put there
    ghost var atRest: seq<int>   // the bytes Seal last left at rest

    /** The plaintext of `b`, given whether the cipher is on. */
    ghost function Plain(b: seq<int>, ciphered: bool): seq<int> {
      if ciphered then crypto.decrypt(b) else b
    }

    ghost predicate Valid()
      reads this
    {
      && Lawful(crypto)
      && |bytes| == |secret| == |atRest| && size <= |bytes|
      && (wiped && !destroyed ==> bytes == Zeros(|bytes|) && !sealCipher && prot == ReadWritePage)
      && (!wiped && !destroyed ==>
            // Unsealed: plaintext, equal to what was last written, on a page that allows
            // what the flags allow and that is locked.
            && (!sealed ==>
                  && bytes == secret && !sealCipher && !sealTagged
                  && (!closedAtRest ==> pageLocked && prot != NoAccess && (!readOnly ==> prot == ReadWritePage)))
            // Sealed: what Seal left at rest decodes to the secret, and the tag, if one
            // was taken, is the tag of exactly those bytes.
            && (sealed ==>
                  && Plain(atRest, sealCipher) == secret
                  && (sealCipher ==> hasCipher)
                  && (sealTagged ==> sealTag == crypto.tag(sealGen, sealNonce, atRest))))
    }

    /** No undetected change at rest: a sealed buffer is tagged, or holds what Seal left. */
    ghost predicate Guarded()
      reads this
    {
      sealed && !wiped && !destroyed ==> sealTagged || bytes == atRest
    }

    /** A buffer born unsealed with the given contents. */
    constructor (crypto: Crypto, hasCipher: bool, dropsLock: bool, sealAuth: bool, closedAtRest: bool,
                 contents: seq<int>, size: nat)
      requires Lawful(crypto) && size <= |contents|
      ensures Valid() && !sealed && !readOnly && !wiped && !destroyed
      ensures secret == contents && this.size == size
      ensures this.closedAtRest == closedAtRest && this.sealAuth == sealAuth && this.hasCipher == hasCipher
      ensures prot == (if closedAtRest then NoAccess else ReadWritePage)
    {
      this.crypto, this.hasCipher, this.dropsLock := crypto, hasCipher, dropsLock;
      this.sealAuth, this.closedAtRest := sealAuth, closedAtRest;
      bytes, this.size := contents, size;
      prot := if closedAtRest then NoAccess else ReadWritePage;
      pageLocked := !closedAtRest || !dropsLock;
      sealed, readOnly, sealCipher, wiped, destroyed, sealTagged := false, false, false, false, false, false;
      sealGen, sealNonce, sealTag := 0, 0, [];
      secret, atRest := contents, contents;
    }

    // -------------------------------------------------------------------------
    // Primitives
    // -------------------------------------------------------------------------

    /** mprotectSecretMem. */
    method Protect(p: Prot, fails: bool) returns (ok: bool)
      modifies this`prot, this`pageLocked
      ensures ok == !fails
      ensures prot == (if fails then old(prot) else p)
      ensures pageLocked == (if !fails && p.NoAccess? && dropsLock then false else old(pageLocked))
    {
      if fails {
        return false;
      }
      prot := p;
      if p.NoAccess? && dropsLock {
        pageLocked := false;
      }
      ok := true;
    }

    /** relockSecretMem. */
    method Relock(fails: bool) returns (ok: bool)
      modifies this`pageLocked
      ensures ok == !fails && pageLocked == (ok || old(pageLocked))
    {
      ok := !fails;
      if ok {
        pageLocked := true;
      }
    }

    function RestProtection(): Prot
      reads this
    {
      if closedAtRest then NoAccess else if readOnly then ReadPage else ReadWritePage
    }

    /** reapplyReadOnly: best effort. */
    method Reapply(fails: bool)
      modifies this`prot, this`pageLocked
      ensures closedAtRest || readOnly ==> prot == (if fails then old(prot) else if closedAtRest then NoAccess else ReadPage)
      ensures !closedAtRest && !readOnly ==> prot == old(prot)
      ensures !closedAtRest ==> pageLocked == old(pageLocked)
    {
      var rest := RestProtection();
      if rest != ReadWritePage {
        var _ := Protect(rest, fails);
      }
    }

    /** The cipher in place; the page has to be writable. */
    method EncryptInPlace(salt: nat)
      requires prot == ReadWritePage
      modifies this`bytes, this`sealCipher
      ensures bytes == crypto.encrypt(salt, old(bytes)) && sealCipher
      ensures Lawful(crypto) ==> crypto.decrypt(bytes) == old(bytes) && |bytes| == |old(bytes)|
    {
      bytes := crypto.encrypt(salt, bytes);
      sealCipher := true;
    }

    method DecryptInPlace()
      requires prot == ReadWritePage
      modifies this`bytes, this`sealCipher
      ensures bytes == crypto.decrypt(old(bytes)) && !sealCipher
      ensures Lawful(crypto) ==> |bytes| == |old(bytes)|
    {
      bytes := crypto.decrypt(bytes);
      sealCipher := false;
    }

    /** sealAuthenticate: a fresh nonce, and the tag of the bytes as they are now. */
    method Authenticate(nonce: nat, key: Prekey) returns (ok: bool)
      requires prot != NoAccess
      modifies this`sealNonce, this`sealGen, this`sealTag, this`sealTagged
      ensures ok == key.Gen?
      ensures ok ==> sealTagged && key == Gen(sealGen) && sealTag == crypto.tag(sealGen, sealNonce, bytes)
      ensures !ok ==> sealTagged == old(sealTagged)
    {
      sealNonce := nonce;
      if key.NoPrekey? {
        return false;
      }
      sealGen := key.gen;
      sealTag := crypto.tag(key.gen, nonce, bytes);
      sealTagged := true;
      ok := true;
    }

    /** sealVerify: recompute the tag under the generation it was taken under. For a tagged
        buffer and its own generation the verdict is exactly whether the bytes changed. */
    method Verify(key: Prekey) returns (r: Err)
      requires prot != NoAccess
      ensures Valid() && Refusal() == ErrSealed && sealTagged && key == Gen(sealGen) ==>
                r == if bytes == atRest then NoErr else ErrIntegrity
      ensures r == (if key.NoPrekey? then key.err
                    else if key.gen != sealGen then ErrWiped
                    else if crypto.tag(key.gen, sealNonce, bytes) != sealTag then ErrIntegrity
                    else NoErr)
    {
      match key {
        case NoPrekey(err) => r := err;
        case Gen(gen) =>
          if gen != sealGen {
            return ErrWiped;
          }
          var want := crypto.tag(gen, sealNonce, bytes);
          r := if want != sealTag then ErrIntegrity else NoErr;
      }
    }

    // -------------------------------------------------------------------------
    // ReadOnly and ReadWrite
    // -------------------------------------------------------------------------

    /** Why a state-changing method refuses, before it does anything. */
    function Refusal(): Err
      reads this
    {
      if destroyed then ErrDestroyed else if wiped then ErrWiped else if sealed then ErrSealed else NoErr
    }

    method SetReadOnly(on: bool, fails: bool) returns (r: Err)
      requires Valid()
      modifies this`readOnly, this`prot, this`pageLocked
      ensures Valid()
      ensures r == (if old(Refusal()) != NoErr then old(Refusal()) else if !closedAtRest && fails then ErrCall else NoErr)
      ensures readOnly == (if r == NoErr then on else old(readOnly))
      ensures r == NoErr && !closedAtRest ==> prot == (if on then ReadPage else ReadWritePage)
      ensures r != NoErr ==> prot == old(prot)
    {
      hide Lawful;
      r := Refusal();
      if r != NoErr {
        return;
      }
      if !closedAtRest {
        var ok := Protect(if on then ReadPage else ReadWritePage, fails);
        if !ok {
          return ErrCall;
        }
      }
      readOnly := on;
    }

    // -------------------------------------------------------------------------
    // Seal
    // -------------------------------------------------------------------------

    /** Whatever fails on the way, a buffer that is not sealed afterwards is plaintext
        equal to the secret, and one that is sealed decodes to it. */
    method Seal(f: SealFaults, salt: nat, nonce: nat, key: Prekey) returns (r: Err)
      requires Valid()
      modifies this
      ensures Valid()
      ensures secret == old(secret) && readOnly == old(readOnly) && size == old(size)
      ensures wiped == old(wiped) && destroyed == old(destroyed)
      ensures old(Refusal()) != NoErr ==>
                && r == (if old(Refusal()) == ErrSealed then NoErr else old(Refusal()))
                && sealed == old(sealed) && bytes == old(bytes) && atRest == old(atRest)
                && sealTagged == old(sealTagged) && sealGen == old(sealGen)
      ensures old(Refusal()) == NoErr && r == NoErr ==>
                && sealed && prot == NoAccess && sealTagged == sealAuth && sealCipher == hasCipher && bytes == atRest
                && (sealTagged ==> key == Gen(sealGen))
      ensures old(Guarded()) ==> Guarded()
      ensures r != ErrIntegrity
      ensures old(Refusal()) == NoErr ==>
                r == (if (readOnly || closedAtRest) && f.lift then ErrCall
                      else if f.encrypt || f.protect || (sealAuth && key.NoPrekey?) then ErrCall else NoErr)
      // Once lifted, the protection at rest comes back with the error, if its call goes through.
      ensures old(Refusal()) == NoErr && r != NoErr && !f.reapply && !((readOnly || closedAtRest) && f.lift) ==>
                prot == (if closedAtRest then NoAccess else if readOnly then ReadPage else ReadWritePage)
      // A failed Seal leaves the buffer sealed only over ciphertext it cannot roll back.
      ensures old(Refusal()) == NoErr && r != NoErr ==>
                bytes == (if sealed then atRest else secret) && (sealed ==> sealCipher && f.rollback)
    {
      if destroyed {
        return ErrDestroyed;
      }
      if wiped {
        return ErrWiped;
      }
      if sealed {
        return NoErr;
      }
      r := SealLive(f, salt, nonce, key);
    }

    method SealLive(f: SealFaults, salt: nat, nonce: nat, key: Prekey) returns (r: Err)
      requires Valid() && Refusal() == NoErr
      modifies this`bytes, this`atRest, this`sealed, this`sealCipher, this`prot, this`pageLocked
      modifies this`sealTagged, this`sealGen, this`sealNonce, this`sealTag
      ensures Valid()
      ensures r == NoErr ==>
                && sealed && prot == NoAccess && sealTagged == sealAuth && sealCipher == hasCipher && bytes == atRest
                && (sealTagged ==> key == Gen(sealGen))
      ensures r == (if (readOnly || closedAtRest) && f.lift then ErrCall
                    else if f.encrypt || f.protect || (sealAuth && key.NoPrekey?) then ErrCall else NoErr)
      ensures r != NoErr && !f.reapply && !((readOnly || closedAtRest) && f.lift) ==>
                prot == (if closedAtRest then NoAccess else if readOnly then ReadPage else ReadWritePage)
      ensures r != ErrIntegrity
      ensures r != NoErr ==>
                bytes == (if sealed then atRest else secret) && (sealed ==> sealCipher && f.rollback)
    {
      hide Lawful;
      if sealCipher {
        assert false;   // an unsealed buffer is never ciphertext
      }
      if readOnly || closedAtRest {
        var lifted := Protect(ReadWritePage, f.lift);
        if !lifted {
          return ErrCall;
        }
      }
      r := SealWritable(f, salt, nonce, key);
    }

    /** Seal once the page is writable. */
    method SealWritable(f: SealFaults, salt: nat, nonce: nat, key: Prekey) returns (r: Err)
      requires Valid() && Refusal() == NoErr && prot == ReadWritePage
      modifies this`bytes, this`atRest, this`sealed, this`sealCipher, this`prot, this`pageLocked
      modifies this`sealTagged, this`sealGen, this`sealNonce, this`sealTag
      ensures Valid()
      ensures r == NoErr ==>
                && sealed && prot == NoAccess && sealTagged == sealAuth && sealCipher == hasCipher && bytes == atRest
                && (sealTagged ==> key == Gen(sealGen))
      ensures r == (if f.encrypt || f.protect || (sealAuth && key.NoPrekey?) then ErrCall else NoErr)
      ensures r != NoErr && !f.reapply ==>
                prot == (if closedAtRest then NoAccess else if readOnly then ReadPage else ReadWritePage)
      ensures r != NoErr ==>
                bytes == (if sealed then atRest else secret) && (sealed ==> sealCipher && f.rollback)
    {
      hide Lawful;
      sealTagged := false;
      if f.encrypt {
        Reapply(f.reapply);
        return ErrCall;
      }
      if hasCipher {
        EncryptInPlace(salt);
      }
      atRest := bytes;
      r := FinishSeal(f, nonce, key);
    }

    /** The seal in progress: the bytes are as they will be at rest, on a writable page. */
    ghost predicate Sealing()
      reads this
    {
      && Lawful(crypto) && Refusal() == NoErr && prot == ReadWritePage && (!closedAtRest ==> pageLocked)
      && |bytes| == |secret| && size <= |bytes| && bytes == atRest
      && sealCipher == hasCipher && Plain(bytes, sealCipher) == secret
    }

    /** Seal after the cipher: tag, protect, or roll back. */
    method FinishSeal(f: SealFaults, nonce: nat, key: Prekey) returns (r: Err)
      requires Sealing() && !sealTagged
      modifies this`bytes, this`sealed, this`sealCipher, this`prot, this`pageLocked
      modifies this`sealTagged, this`sealGen, this`sealNonce, this`sealTag
      ensures Valid()
      ensures r == NoErr ==>
                && sealed && prot == NoAccess && sealTagged == sealAuth && sealCipher == hasCipher && bytes == atRest
                && (sealTagged ==> key == Gen(sealGen))
      ensures r == (if f.protect || (sealAuth && key.NoPrekey?) then ErrCall else NoErr)
      ensures r != NoErr && !f.reapply ==>
                prot == (if closedAtRest then NoAccess else if readOnly then ReadPage else ReadWritePage)
      ensures r != ErrIntegrity
      ensures r != NoErr ==>
                bytes == (if sealed then atRest else secret) && (sealed ==> sealCipher && f.rollback)
    {
      if sealAuth {
        var tagged := Authenticate(nonce, key);
        if !tagged {
          RollbackSeal(f);
          return ErrCall;
        }
      }
      var protected := Protect(NoAccess, f.protect);
      if !protected {
        RollbackSeal(f);
        return ErrCall;
      }
      sealed := true;
      r := NoErr;
    }

    /** Undo the cipher after a later step of Seal failed; if that fails too, the buffer is
        left sealed over the ciphertext. */
    method RollbackSeal(f: SealFaults)
      requires Sealing()
      requires sealTagged ==> sealTag == crypto.tag(sealGen, sealNonce, atRest)
      modifies this`bytes, this`sealCipher, this`sealTagged, this`sealed, this`prot, this`pageLocked
      ensures Valid()
      ensures sealed <==> hasCipher && f.rollback
      ensures if sealed then bytes == atRest && sealCipher else bytes == secret
      ensures !f.reapply ==> prot == (if closedAtRest then NoAccess else if readOnly then ReadPage else ReadWritePage)
    {
      if hasCipher {
        if f.rollback {
          sealed := true;
          Reapply(f.reapply);
          return;
        }
        DecryptInPlace();
      }
      sealTagged := false;
      Reapply(f.reapply);
    }

    // -------------------------------------------------------------------------
    // Unseal
    // -------------------------------------------------------------------------

    /** A successful Unseal hands out the secret. Bytes that changed at rest under a tag are
        never handed out, and ErrIntegrity means that they did change. Every failure
        leaves the buffer sealed over the same secret. */
    method Unseal(f: UnsealFaults, key: Prekey, salt: nat, nonce: nat, rekey: Prekey) returns (r: Err)
      requires Valid()
      requires key.NoPrekey? ==> key.err != NoErr && key.err != ErrIntegrity
      modifies this
      ensures Valid()
      ensures readOnly == old(readOnly) && size == old(size) && wiped == old(wiped) && destroyed == old(destroyed)
      ensures |bytes| == |old(bytes)|
      ensures old(Refusal()) != ErrSealed ==>
                r == old(Refusal()) && bytes == old(bytes) && secret == old(secret) && sealed == old(sealed)
      ensures old(Refusal()) == ErrSealed ==>
                && (r == NoErr <==> !sealed)
                && (r == ErrIntegrity ==> old(sealTagged) && old(bytes) != old(atRest))
                && (old(sealTagged) && old(bytes) != old(atRest) ==> r != NoErr)
                && (old(bytes) == old(atRest) || old(sealTagged) ==> secret == old(secret))
                && (r == NoErr ==> bytes == secret)
      ensures old(Guarded()) ==> Guarded() && secret == old(secret)
      ensures old(Refusal()) == ErrSealed && old(bytes) == old(atRest) && sealed ==> bytes == atRest
      // What it answers, in the order of the source's tests.
      ensures old(Refusal()) == ErrSealed ==>
                r == (if f.lift || f.relock then ErrCall
                      else if old(sealTagged) && key.NoPrekey? then key.err
                      else if old(sealTagged) && key.gen != old(sealGen) then ErrWiped
                      else if old(sealTagged) && old(bytes) != old(atRest) then ErrIntegrity
                      else if (old(sealCipher) && f.decrypt) || ((readOnly || closedAtRest) && f.restore) then ErrCall
                      else NoErr)
      // An opened buffer has the protection its flags call for; one that stays sealed is closed again, unless that
      // call is refused too.
      ensures old(Refusal()) == ErrSealed && r == NoErr ==>
                && (closedAtRest ==> prot == NoAccess)
                && (!closedAtRest && readOnly ==> prot == ReadPage)
                && (!closedAtRest && !readOnly ==> prot == ReadWritePage)
      ensures old(Refusal()) == ErrSealed && r != NoErr && !f.reprotect && !f.reseal ==>
                prot == if f.lift then old(prot) else NoAccess
      ensures old(Refusal()) != ErrSealed ==> prot == old(prot)
    {
      if destroyed {
        return ErrDestroyed;
      }
      if wiped {
        return ErrWiped;
      }
      if !sealed {
        return NoErr;
      }
      r := CheckSealed(f, key);
      if r != NoErr {
        return;
      }
      r := OpenSealed(f, salt, nonce, rekey);
    }

    /** Unseal up to the tag check: the page is readable and locked, and tagged bytes are
        the ones Seal left; on any failure nothing but the protection has changed. */
    method CheckSealed(f: UnsealFaults, key: Prekey) returns (r: Err)
      requires Valid() && Refusal() == ErrSealed
      requires key.NoPrekey? ==> key.err != NoErr && key.err != ErrIntegrity
      modifies this`prot, this`pageLocked
      ensures Valid()
      ensures r == NoErr ==> prot == ReadWritePage && pageLocked && (sealTagged ==> bytes == atRest)
      ensures r == (if f.lift || f.relock then ErrCall
                    else if sealTagged && key.NoPrekey? then key.err
                    else if sealTagged && key.gen != sealGen then ErrWiped
                    else if sealTagged && bytes != atRest then ErrIntegrity else NoErr)
      ensures r != NoErr && !f.reprotect ==> prot == if f.lift then old(prot) else NoAccess
    {
      var ok := Protect(ReadWritePage, f.lift);
      if !ok {
        return ErrCall;
      }
      ok := Relock(f.relock);
      if !ok {
        var _ := Protect(NoAccess, f.reprotect);
        return ErrCall;
      }
      r := NoErr;
      if sealTagged {
        r := Verify(key);
        if r != NoErr {
          var _ := Protect(NoAccess, f.reprotect);
        }
      }
    }

    /** Unseal after the tag check: decrypt, and restore the protection at rest. */
    method OpenSealed(f: UnsealFaults, salt: nat, nonce: nat, rekey: Prekey) returns (r: Err)
      requires Valid() && Refusal() == ErrSealed
      requires prot == ReadWritePage && pageLocked && (sealTagged ==> bytes == atRest)
      modifies this`bytes, this`secret, this`atRest, this`sealed, this`sealCipher, this`prot, this`pageLocked
      modifies this`sealTagged, this`sealGen, this`sealNonce, this`sealTag
      ensures Valid() && |bytes| == |old(bytes)|
      ensures r == NoErr || r == ErrCall
      ensures r == NoErr <==> !sealed
      ensures old(bytes) == old(atRest) ==> secret == old(secret)
      ensures r == NoErr ==> bytes == secret
      ensures r != NoErr ==> bytes == atRest || (bytes == old(bytes) && atRest == old(atRest))
      ensures r == if (old(sealCipher) && f.decrypt) || ((readOnly || closedAtRest) && f.restore) then ErrCall else NoErr
      ensures r == NoErr ==>
                && (closedAtRest ==> prot == NoAccess)
                && (!closedAtRest && readOnly ==> prot == ReadPage)
                && (!closedAtRest && !readOnly ==> prot == ReadWritePage)
      ensures r != NoErr && !f.reprotect && !f.reseal ==> prot == NoAccess
    {
      hide Lawful;
      if sealCipher {
        if f.decrypt {
          var _ := Protect(NoAccess, f.reprotect);
          return ErrCall;
        }
        DecryptInPlace();
      }
      secret := bytes;
      r := RestoreRest(f, salt, nonce, rekey);
    }

    /** Unseal over the plaintext: give the page its protection at rest, or seal again. */
    method RestoreRest(f: UnsealFaults, salt: nat, nonce: nat, rekey: Prekey) returns (r: Err)
      requires Lawful(crypto) && Refusal() == ErrSealed && prot == ReadWritePage && pageLocked
      requires bytes == secret && !sealCipher && |bytes| == |atRest| && size <= |bytes|
      modifies this`bytes, this`atRest, this`sealed, this`sealCipher, this`prot, this`pageLocked
      modifies this`sealTagged, this`sealGen, this`sealNonce, this`sealTag
      ensures Valid() && |bytes| == |old(bytes)|
      ensures r == NoErr <==> !sealed
      ensures if r == NoErr then bytes == secret else bytes == atRest
      ensures r == if (readOnly || closedAtRest) && f.restore then ErrCall else NoErr
      ensures r == NoErr ==>
                && (closedAtRest ==> prot == NoAccess)
                && (!closedAtRest && readOnly ==> prot == ReadPage)
                && (!closedAtRest && !readOnly ==> prot == ReadWritePage)
      ensures r != NoErr && !f.reseal ==> prot == NoAccess
    {
      hide Lawful;
      var rest := RestProtection();
      if rest != ReadWritePage {
        var ok := Protect(rest, f.restore);
        if !ok {
          SealAgain(f, salt, nonce, rekey);
          return ErrCall;
        }
      }
      sealed := false;
      sealTagged := false;
      r := NoErr;
    }

    /** The rest protection could not be restored over the plaintext: encrypt where the
        cipher applies, take a fresh tag if one can be had, and protect. */
    method SealAgain(f: UnsealFaults, salt: nat, nonce: nat, key: Prekey)
      requires Lawful(crypto) && sealed && !wiped && !destroyed && prot == ReadWritePage
      requires bytes == secret && !sealCipher && |bytes| == |atRest| && size <= |bytes|
      modifies this`bytes, this`sealCipher, this`sealTagged, this`sealGen, this`sealNonce, this`sealTag
      modifies this`prot, this`pageLocked, this`atRest
      ensures Valid() && bytes == atRest && |bytes| == |old(bytes)|
      ensures sealCipher == (hasCipher && !f.reencrypt) && sealTagged == (sealAuth && key.Gen?)
      ensures !f.reseal ==> prot == NoAccess
    {
      if hasCipher && !f.reencrypt {
        EncryptInPlace(salt);
      }
      atRest := bytes;
      sealTagged := false;
      if sealAuth {
        var _ := Authenticate(nonce, key);
      }
      var _ := Protect(NoAccess, f.reseal);
    }

    // -------------------------------------------------------------------------
    // Access
    // -------------------------------------------------------------------------

    /** open, for a use that holds the lock alone. */
    method Open(f: UseFaults) returns (ok: bool)
      requires Valid() && Refusal() == NoErr
      modifies this`prot, this`pageLocked
      ensures Valid()
      ensures ok == !(closedAtRest && (f.open || f.relock))
      ensures ok ==> pageLocked && prot != NoAccess && (!readOnly ==> prot == ReadWritePage)
      ensures !closedAtRest ==> prot == old(prot)
    {
      if !closedAtRest {
        return true;
      }
      ok := Protect(if readOnly then ReadPage else ReadWritePage, f.open);
      if ok {
        ok := Relock(f.relock);
        if !ok {
          var _ := Protect(NoAccess, f.reclose);
        }
      }
    }

    /** close. */
    method Close(f: UseFaults) returns (ok: bool)
      requires Valid() && Refusal() == NoErr
      modifies this`prot, this`pageLocked
      ensures Valid() && ok == !(closedAtRest && f.close)
      ensures prot == if closedAtRest && ok then NoAccess else old(prot)
    {
      if !closedAtRest {
        return true;
      }
      ok := Protect(NoAccess, f.close);
    }

    /** CopyIn: the bytes land, counted, exactly when nothing refuses them; a refusal to
        close the page afterwards is reported with the count. */
    method CopyIn(src: seq<int>, off: int, f: UseFaults) returns (n: nat, r: Err)
      requires Valid()
      modifies this`bytes, this`secret, this`prot, this`pageLocked
      ensures Valid()
      ensures var refused := if old(Refusal()) != NoErr then old(Refusal()) else if readOnly then ErrReadOnly
                             else if off < 0 || off >= size then ErrRange
                             else if closedAtRest && (f.open || f.relock) then ErrCall else NoErr;
        if refused != NoErr then r == refused && n == 0 && bytes == old(bytes) && secret == old(secret)
        else
          && n == (if |src| <= size - off then |src| else size - off)
          && off + n <= |old(secret)| && secret == Overwrite(old(secret), off, src[..n])
          && r == (if closedAtRest && f.close then ErrCall else NoErr)
      // A page closed at rest is closed again; another keeps its protection.
      ensures closedAtRest && r == NoErr ==> prot == NoAccess
      ensures !closedAtRest ==> prot == old(prot)
    {
      hide Lawful;
      n, r := 0, Refusal();
      if r != NoErr {
        return;
      }
      if readOnly {
        return 0, ErrReadOnly;
      }
      if off < 0 || off >= size {
        return 0, ErrRange;
      }
      var ok := Open(f);
      if !ok {
        return 0, ErrCall;
      }
      n := if |src| <= size - off then |src| else size - off;
      assert prot == ReadWritePage;
      bytes := Overwrite(bytes, off, src[..n]);
      secret := bytes;
      ok := Close(f);
      r := if ok then NoErr else ErrCall;
    }

    /** WithBytes: the callback sees the value and leaves what it makes of it. A store through
        the slice of a read-only buffer faults instead of landing. */
    method WithBytes(fn: seq<int> -> seq<int>, f: UseFaults) returns (seen: seq<int>, r: Err)
      requires Valid() && forall d :: |fn(d)| == |d|
      modifies this`bytes, this`secret, this`prot, this`pageLocked
      ensures Valid()
      ensures var refused := if old(Refusal()) != NoErr then old(Refusal())
                             else if closedAtRest && (f.open || f.relock) then ErrCall else NoErr;
        if refused != NoErr then r == refused && seen == [] && bytes == old(bytes) && secret == old(secret)
        else
          && seen == old(secret)[..size]
          && if readOnly && fn(seen) != seen then r == ErrFault && secret == old(secret)
             else secret == Overwrite(old(secret), 0, fn(seen)) && r == (if closedAtRest && f.close then ErrCall else NoErr)
      ensures closedAtRest && r == NoErr ==> prot == NoAccess
      ensures !closedAtRest ==> prot == old(prot)
    {
      hide Lawful;
      seen, r := [], Refusal();
      if r != NoErr {
        return;
      }
      var ok := Open(f);
      if !ok {
        return [], ErrCall;
      }
      assert prot != NoAccess && pageLocked;
      seen := bytes[..size];
      if readOnly && fn(seen) != seen {
        var _ := Close(f);
        return seen, ErrFault;
      }
      bytes := Overwrite(bytes, 0, fn(seen));
      assert readOnly ==> bytes == old(bytes);
      secret := bytes;
      ok := Close(f);
      r := if ok then NoErr else ErrCall;
    }

    /** CopyOut: the part of the value from an offset on, as much as is asked for and there. */
    method CopyOut(want: nat, off: int, f: UseFaults) returns (out: seq<int>, r: Err)
      requires Valid()
      modifies this`prot, this`pageLocked
      ensures Valid()
      ensures var refused := if old(Refusal()) != NoErr then old(Refusal())
                             else if off < 0 || off >= size then ErrRange
                             else if closedAtRest && (f.open || f.relock) then ErrCall else NoErr;
        if refused != NoErr then r == refused && out == []
        else
          && out == secret[off..if want <= size - off then off + want else size]
          && r == (if closedAtRest && f.close then ErrCall else NoErr)
      ensures closedAtRest && r == NoErr ==> prot == NoAccess
      ensures !closedAtRest ==> prot == old(prot)
    {
      hide Lawful;
      out, r := [], Refusal();
      if r != NoErr {
        return;
      }
      if off < 0 || off >= size {
        return [], ErrRange;
      }
      var ok := Open(f);
      if !ok {
        return [], ErrCall;
      }
      assert prot != NoAccess && pageLocked;
      out := bytes[off..if want <= size - off then off + want else size];
      ok := Close(f);
      r := if ok then NoErr else ErrCall;
    }

    /** Truncate: the tail is zeroed in place and leaves the usable part. */
    method Truncate(n: int, f: UseFaults) returns (r: Err)
      requires Valid()
      modifies this`bytes, this`secret, this`size, this`prot, this`pageLocked
      ensures Valid()
      ensures var refused := if old(Refusal()) != NoErr then old(Refusal()) else if readOnly then ErrReadOnly
                             else if n < 0 || n > old(size) then ErrRange
                             else if n < old(size) && closedAtRest && (f.open || f.relock) then ErrCall else NoErr;
        if refused != NoErr then r == refused && bytes == old(bytes) && secret == old(secret) && size == old(size)
        else
          && secret == Overwrite(old(secret), n, Zeros(old(size) - n))
          && r == (if n < old(size) && closedAtRest && f.close then ErrCall else NoErr)
          && size == (if r == NoErr then n else old(size))
      ensures closedAtRest && r == NoErr && n < old(size) ==> prot == NoAccess
      ensures !closedAtRest ==> prot == old(prot)
    {
      hide Lawful, Overwrite;
      r := Refusal();
      if r != NoErr {
        return;
      }
      if readOnly {
        return ErrReadOnly;
      }
      if n < 0 || n > size {
        return ErrRange;
      }
      if n < size {
        var ok := Open(f);
        if !ok {
          return ErrCall;
        }
        assert prot == ReadWritePage;
        bytes := Overwrite(bytes, n, Zeros(size - n));
        secret := bytes;
        ok := Close(f);
        if !ok {
          return ErrCall;
        }
      } else {
        StoredNothing(bytes, n);
      }
      size := n;
      r := NoErr;
    }

    // -------------------------------------------------------------------------
    // The environment: faults at rest, the emergency wipe, Destroy
    // -------------------------------------------------------------------------

    /** A dormant buffer's memory changes behind its back. */
    method Corrupt(b: seq<int>)
      requires Valid() && sealed && !wiped && |b| == |bytes|
      modifies this`bytes
      ensures Valid() && bytes == b
    {
      bytes := b;
    }

    /** The emergency wipe, under the exclusive lock: all zeros and flagged, or skipped. */
    method EmergencyWipe(fails: bool)
      requires Valid()
      modifies this`bytes, this`prot, this`sealCipher, this`wiped
      ensures Valid()
      ensures if destroyed || fails then bytes == old(bytes) && wiped == old(wiped) && sealCipher == old(sealCipher)
              else wiped && bytes == Zeros(|bytes|)
    {
      hide Lawful;
      if destroyed || fails {
        return;
      }
      prot := ReadWritePage;
      bytes := Zeros(|bytes|);
      sealCipher := false;
      wiped := true;
    }

    /** The part of Destroy before the wipe: look at the tag and take the cipher off, as far as the calls let it. */
    method Inspect(f: DestroyFaults, key: Prekey) returns (integrity: bool)
      requires Valid() && !destroyed
      requires key.NoPrekey? ==> key.err != ErrIntegrity
      modifies this`bytes, this`sealCipher, this`prot, this`pageLocked
      ensures integrity ==> old(sealed && sealTagged && !wiped) && old(bytes) != old(atRest)
      ensures old(sealed && sealTagged && !wiped) && old(bytes) != old(atRest) && !f.lift && key == Gen(old(sealGen)) ==> integrity
    {
      hide Lawful;
      integrity := false;
      var verify := sealed && sealTagged && !wiped;
      if !(verify || sealCipher) {
        return;
      }
      var ok := Protect(ReadWritePage, f.lift);
      if !ok {
        return;
      }
      var _ := Relock(f.relock);
      if verify {
        var verr := Verify(key);
        integrity := verr == ErrIntegrity;
      }
      if sealCipher && !f.decrypt {
        bytes := crypto.decrypt(bytes);
        sealCipher := false;
      }
    }

    /** Destroy reports a change at rest when it can read the bytes under the tag's key,
        never reports one that did not happen, and wipes unless write access is refused. */
    method Destroy(f: DestroyFaults, key: Prekey) returns (integrity: bool)
      requires Valid()
      requires key.NoPrekey? ==> key.err != ErrIntegrity
      modifies this
      ensures Valid() && destroyed
      ensures integrity ==> !old(destroyed) && old(sealed && sealTagged && !wiped) && old(bytes) != old(atRest)
      ensures !old(destroyed) && old(sealed && sealTagged && !wiped) && old(bytes) != old(atRest)
                && !f.lift && key == Gen(old(sealGen))
              ==> integrity
      ensures !old(destroyed) && !f.restore ==> bytes == Zeros(|bytes|)
    {
      hide Lawful;
      integrity := false;
      if destroyed {
        return;
      }
      integrity := Inspect(f, key);
      if !f.restore {
        bytes := Zeros(|bytes|);
        sealCipher := false;
      }
      secret, atRest, size := bytes, bytes, 0;
      destroyed := true;
    }
  }

  // ---------------------------------------------------------------------------
  // Whole runs
  // ---------------------------------------------------------------------------

  datatype Op =
    | OpSeal(sf: SealFaults, salt: nat, nonce: nat, key: Prekey)
    | OpUnseal(uf: UnsealFaults, key: Prekey, salt: nat, nonce: nat, rekey: Prekey)
    | OpReadOnly(on: bool, fails: bool)
    | OpCopyIn(src: seq<int>, off: int, af: UseFaults)
    | OpCopyOut(want: nat, off: int, af: UseFaults)
    | OpWithBytes(fn: seq<int> -> seq<int>, af: UseFaults)
    | OpTruncate(n: int, af: UseFaults)
    | OpDestroy(df: DestroyFaults, key: Prekey)
    | OpWipe(fails: bool)           // the emergency wipe
    | OpFlip(at: nat, value: int)   // a byte of a dormant buffer changes

  /** What an operation answers: its error, how many bytes it stored, what it read. For the
      environment's operations, whether they took effect, and whether under a tag. */
  datatype Answer = Answer(err: Err, n: nat, out: seq<int>, landed: bool, tagged: bool)

  /** The buffer as its owner thinks of it. */
  datatype Ideal = Ideal(value: seq<int>, size: nat)

  /** A use got as far as the contents: it may still have failed to close the page. */
  predicate Reached(err: Err, f: UseFaults) {
    err == NoErr || (err == ErrCall && !f.open && !f.relock)
  }

  /** The value after an operation, given what it answered. */
  function After(i: Ideal, op: Op, a: Answer): (i': Ideal)
    ensures |i'.value| == |i.value|
  {
    match op
    case OpCopyIn(src, off, _) =>
      if a.n <= |src| && 0 <= off && off + a.n <= |i.value| then i.(value := Overwrite(i.value, off, src[..a.n])) else i
    case OpWithBytes(fn, f) =>
      if i.size <= |i.value| && |fn(i.value[..i.size])| == i.size && Reached(a.err, f)
      then i.(value := Overwrite(i.value, 0, fn(i.value[..i.size]))) else i
    case OpTruncate(n, f) =>
      if 0 <= n <= i.size <= |i.value| && Reached(a.err, f)
      then Ideal(Overwrite(i.value, n, Zeros(i.size - n)), if a.err == NoErr then n else i.size) else i
    case _ => i
  }

  /** The value after a whole list of operations. */
  function Replay(i: Ideal, ops: seq<Op>, answers: seq<Answer>): (i': Ideal)
    requires |ops| == |answers|
    ensures |i'.value| == |i.value|
  {
    if ops == [] then i
    else After(Replay(i, ops[..|ops| - 1], answers[..|ops| - 1]), ops[|ops| - 1], answers[|ops| - 1])
  }

  /** What an answer must be for the value before it: reads return the value, stores land
      within it and in full, and the range errors are exact. */
  predicate Right(i: Ideal, op: Op, a: Answer) {
    match op
    case OpCopyOut(want, off, f) =>
      && (Reached(a.err, f) ==>
            0 <= off < i.size <= |i.value| && a.out == i.value[off..if want <= i.size - off then off + want else i.size])
      && (a.err == ErrRange ==> off < 0 || off >= i.size)
    case OpWithBytes(fn, f) =>
      Reached(a.err, f) || a.err == ErrFault ==> i.size <= |i.value| && a.out == i.value[..i.size]
    case OpCopyIn(src, off, f) =>
      && (a.n > 0 ==> 0 <= off < i.size && a.n == if |src| <= i.size - off then |src| else i.size - off)
      && (Reached(a.err, f) && src != [] ==> a.n > 0)
      && (a.err == ErrRange ==> off < 0 || off >= i.size)
    case OpTruncate(n, f) =>
      (Reached(a.err, f) ==> 0 <= n <= i.size) && (a.err == ErrRange ==> n < 0 || n > i.size)
    case _ => true
  }

  /** A byte changed where no tag can tell. */
  predicate Undetectable(op: Op, a: Answer) { op.OpFlip? && a.landed && !a.tagged }

  predicate Flipped(op: Op, a: Answer) { op.OpFlip? && a.landed }

  /** The bytes at rest are given up: what Seal leaves next is new. */
  predicate Reopened(op: Op, a: Answer) { op.OpUnseal? && a.err == NoErr }

  /** The buffer was emptied for good. */
  predicate Ends(op: Op, a: Answer) { op.OpDestroy? || (op.OpWipe? && a.landed) }

  /** The owner's operations but Destroy, which is idempotent. */
  predicate Use(op: Op) { !op.OpDestroy? && !op.OpWipe? && !op.OpFlip? }

  predicate WellKeyed(op: Op) {
    && (op.OpUnseal? && op.key.NoPrekey? ==> op.key.err != NoErr && op.key.err != ErrIntegrity)
    && (op.OpDestroy? && op.key.NoPrekey? ==> op.key.err != ErrIntegrity)
  }

  /** Callbacks do not change the length of what they are lent. */
  ghost predicate WellBehaved(op: Op) {
    op.OpWithBytes? ==> forall d :: |op.fn(d)| == |d|
  }

  /** What has happened so far: no undetectable change, any change at all, a wipe or Destroy. */
  datatype History = History(clean: bool, flipped: bool, ended: bool)

  function Recorded(h: History, op: Op, a: Answer): History {
    History(h.clean && !Undetectable(op, a), (h.flipped && !Reopened(op, a)) || Flipped(op, a), h.ended || Ends(op, a))
  }

  /** How the buffer stands to the owner's idea of it. */
  ghost predicate Tracks(b: Buffer, i: Ideal, h: History)
    reads b
  {
    && b.Valid()
    && (h.ended <==> b.wiped || b.destroyed)
    && (!h.ended && h.clean ==> b.Guarded() && b.secret == i.value && b.size == i.size)
    && (!h.ended && !h.flipped && b.sealed ==> b.bytes == b.atRest)
  }

  /** One operation keeps the buffer in step and answers rightly. */
  ghost predicate Kept(b: Buffer, op: Op, a: Answer, i: Ideal, h: History)
    reads b
  {
    && Tracks(b, After(i, op, a), Recorded(h, op, a))
    && (h.clean ==> Right(i, op, a))
    && (h.ended && Use(op) ==> a.err == ErrWiped || a.err == ErrDestroyed)
    && (a.err == ErrIntegrity ==> h.flipped)
  }

  // What runs without faults answer.

  /** The buffer's whole state as far as its owner can tell, and the one key generation. */
  datatype Machine = Machine(value: seq<int>, size: nat, sealed: bool, readOnly: bool, wiped: bool, destroyed: bool, gen: nat) {
    function Refusal(): Err {
      if destroyed then ErrDestroyed else if wiped then ErrWiped else if sealed then ErrSealed else NoErr
    }
  }

  predicate NoUseFaults(f: UseFaults) { !f.open && !f.relock && !f.close }

  /** No call fails, no byte changes, and every key is of the one generation. */
  predicate FaultFree(op: Op, gen: nat) {
    match op
    case OpSeal(f, _, _, key) => !f.lift && !f.encrypt && !f.protect && key == Gen(gen)
    case OpUnseal(f, key, _, _, _) => !f.lift && !f.relock && !f.decrypt && !f.restore && key == Gen(gen)
    case OpReadOnly(_, fails) => !fails
    case OpCopyIn(_, _, f) => NoUseFaults(f)
    case OpCopyOut(_, _, f) => NoUseFaults(f)
    case OpWithBytes(_, f) => NoUseFaults(f)
    case OpTruncate(_, f) => NoUseFaults(f)
    case OpDestroy(_, key) => true
    case OpWipe(fails) => !fails
    case OpFlip(_, _) => false
  }

  /** How many of the bytes from an offset on a store or a read takes. */
  function Fitting(n: nat, off: int, size: nat): nat
    requires 0 <= off <= size
  {
    if n <= size - off then n else size - off
  }

  /** The answer without faults. */
  function Said(m: Machine, op: Op): Answer {
    var none := Answer(m.Refusal(), 0, [], false, false);
    if op.OpSeal? || op.OpUnseal? then none.(err := if m.Refusal() == ErrSealed then NoErr else m.Refusal())
    else if op.OpDestroy? || op.OpFlip? then none.(err := NoErr)
    else if op.OpWipe? then none.(err := NoErr, landed := !m.destroyed)
    else if m.Refusal() != NoErr then none
    else
      match op
      case OpCopyIn(src, off, _) =>
        if m.readOnly then none.(err := ErrReadOnly)
        else if off < 0 || off >= m.size then none.(err := ErrRange)
        else none.(n := Fitting(|src|, off, m.size))
      case OpCopyOut(want, off, _) =>
        if off < 0 || off >= m.size || m.size > |m.value| then none.(err := ErrRange)
        else none.(out := m.value[off..off + Fitting(want, off, m.size)])
      case OpWithBytes(fn, _) =>
        if m.size > |m.value| then none
        else
          var seen := m.value[..m.size];
          none.(out := seen, err := if m.readOnly && fn(seen) != seen then ErrFault else NoErr)
      case OpTruncate(n, _) =>
        if m.readOnly then none.(err := ErrReadOnly)
        else if n < 0 || n > m.size then none.(err := ErrRange)
        else none
      case _ => none
  }

  /** The state without faults. */
  function Moved(m: Machine, op: Op): Machine {
    match op
    case OpDestroy(_, _) => m.(destroyed := true)
    case OpWipe(_) => if m.destroyed then m else m.(wiped := true)
    case OpSeal(_, _, _, _) => if m.Refusal() == NoErr then m.(sealed := true) else m
    case OpUnseal(_, _, _, _, _) => if m.Refusal() == ErrSealed then m.(sealed := false) else m
    case OpReadOnly(on, _) => if m.Refusal() == NoErr then m.(readOnly := on) else m
    case _ =>
      var i := After(Ideal(m.value, m.size), op, Said(m, op));
      m.(value := i.value, size := i.size)
  }

  ghost predicate Mirrors(b: Buffer, m: Machine)
    reads b
  {
    && b.destroyed == m.destroyed && (!m.destroyed ==> b.wiped == m.wiped)
    && (!m.wiped && !m.destroyed ==>
          && b.sealed == m.sealed && b.readOnly == m.readOnly && b.secret == m.value && b.size == m.size
          && (m.sealed ==> b.bytes == b.atRest && (b.sealTagged ==> b.sealGen == m.gen)))
  }

  /** What the owner does leaves no mark in the history, except for unsealing and destroying. */
  lemma UseRecorded(h: History, op: Op, a: Answer)
    requires Use(op) && !op.OpUnseal?
    ensures Recorded(h, op, a) == h
  {
  }

  lemma UseFaultFree(op: Op, gen: nat)
    ensures FaultFree(op, gen) && op.OpCopyIn? ==> NoUseFaults(op.af)
    ensures FaultFree(op, gen) && op.OpCopyOut? ==> NoUseFaults(op.af)
    ensures FaultFree(op, gen) && op.OpWithBytes? ==> NoUseFaults(op.af)
    ensures FaultFree(op, gen) && op.OpTruncate? ==> NoUseFaults(op.af)
    ensures FaultFree(op, gen) && op.OpReadOnly? ==> !op.fails
    ensures FaultFree(op, gen) && op.OpSeal? ==> !op.sf.lift && !op.sf.encrypt && !op.sf.protect && op.key == Gen(gen)
  {
  }

  method ApplySeal(b: Buffer, op: Op, ghost i: Ideal, ghost h: History, ghost m: Machine) returns (a: Answer)
    requires Tracks(b, i, h) && WellKeyed(op) && WellBehaved(op) && op.OpSeal?
    modifies b
    ensures Kept(b, op, a, i, h) && (old(Mirrors(b, m)) && FaultFree(op, m.gen) ==> a == Said(m, op) && Mirrors(b, Moved(m, op)))
  {
    hide Lawful, Recorded, FaultFree;
    var r := b.Seal(op.sf, op.salt, op.nonce, op.key);
    a := Answer(r, 0, [], false, false);
    UseRecorded(h, op, a);
    UseFaultFree(op, m.gen);
  }

  method ApplyUnseal(b: Buffer, op: Op, ghost i: Ideal, ghost h: History, ghost m: Machine) returns (a: Answer)
    requires Tracks(b, i, h) && WellKeyed(op) && WellBehaved(op) && op.OpUnseal?
    modifies b
    ensures Kept(b, op, a, i, h) && (old(Mirrors(b, m)) && FaultFree(op, m.gen) ==> a == Said(m, op) && Mirrors(b, Moved(m, op)))
  {
    hide Lawful;
    var r := b.Unseal(op.uf, op.key, op.salt, op.nonce, op.rekey);
    a := Answer(r, 0, [], false, false);
  }

  method ApplyReadOnly(b: Buffer, op: Op, ghost i: Ideal, ghost h: History, ghost m: Machine) returns (a: Answer)
    requires Tracks(b, i, h) && WellKeyed(op) && WellBehaved(op) && op.OpReadOnly?
    modifies b
    ensures Kept(b, op, a, i, h) && (old(Mirrors(b, m)) && FaultFree(op, m.gen) ==> a == Said(m, op) && Mirrors(b, Moved(m, op)))
  {
    hide Lawful, Recorded, FaultFree;
    var r := b.SetReadOnly(op.on, op.fails);
    a := Answer(r, 0, [], false, false);
    UseRecorded(h, op, a);
    UseFaultFree(op, m.gen);
  }

  method ApplyCopyIn(b: Buffer, op: Op, ghost i: Ideal, ghost h: History, ghost m: Machine) returns (a: Answer)
    requires Tracks(b, i, h) && WellKeyed(op) && WellBehaved(op) && op.OpCopyIn?
    modifies b
    ensures Kept(b, op, a, i, h) && (old(Mirrors(b, m)) && FaultFree(op, m.gen) ==> a == Said(m, op) && Mirrors(b, Moved(m, op)))
  {
    hide Overwrite, Zeros, Lawful, Recorded, FaultFree;
    var n, r := b.CopyIn(op.src, op.off, op.af);
    a := Answer(r, n, [], false, false);
    UseRecorded(h, op, a);
    UseFaultFree(op, m.gen);
    if n == 0 {
      StoredNothing(i.value, op.off);
      StoredNothing(m.value, op.off);
    }
  }

  lemma StoredNothing(s: seq<int>, off: int)
    ensures 0 <= off <= |s| ==> Overwrite(s, off, []) == s
  {
  }

  method ApplyCopyOut(b: Buffer, op: Op, ghost i: Ideal, ghost h: History, ghost m: Machine) returns (a: Answer)
    requires Tracks(b, i, h) && WellKeyed(op) && WellBehaved(op) && op.OpCopyOut?
    modifies b
    ensures Kept(b, op, a, i, h) && (old(Mirrors(b, m)) && FaultFree(op, m.gen) ==> a == Said(m, op) && Mirrors(b, Moved(m, op)))
  {
    hide Lawful, Recorded, FaultFree;
    var out, r := b.CopyOut(op.want, op.off, op.af);
    a := Answer(r, 0, out, false, false);
    UseRecorded(h, op, a);
    UseFaultFree(op, m.gen);
  }

  method ApplyWithBytes(b: Buffer, op: Op, ghost i: Ideal, ghost h: History, ghost m: Machine) returns (a: Answer)
    requires Tracks(b, i, h) && WellKeyed(op) && WellBehaved(op) && op.OpWithBytes?
    modifies b
    ensures Kept(b, op, a, i, h) && (old(Mirrors(b, m)) && FaultFree(op, m.gen) ==> a == Said(m, op) && Mirrors(b, Moved(m, op)))
  {
    hide Overwrite, Zeros, Lawful, Recorded, FaultFree;
    var seen, r := b.WithBytes(op.fn, op.af);
    a := Answer(r, 0, seen, false, false);
    UseRecorded(h, op, a);
    UseFaultFree(op, m.gen);
  }

  method ApplyTruncate(b: Buffer, op: Op, ghost i: Ideal, ghost h: History, ghost m: Machine) returns (a: Answer)
    requires Tracks(b, i, h) && WellKeyed(op) && WellBehaved(op) && op.OpTruncate?
    modifies b
    ensures Kept(b, op, a, i, h) && (old(Mirrors(b, m)) && FaultFree(op, m.gen) ==> a == Said(m, op) && Mirrors(b, Moved(m, op)))
  {
    hide Overwrite, Zeros, Lawful, Recorded, FaultFree;
    var r := b.Truncate(op.n, op.af);
    a := Answer(r, 0, [], false, false);
    UseRecorded(h, op, a);
    UseFaultFree(op, m.gen);
  }

  method ApplyDestroy(b: Buffer, op: Op, ghost i: Ideal, ghost h: History, ghost m: Machine) returns (a: Answer)
    requires Tracks(b, i, h) && WellKeyed(op) && WellBehaved(op) && op.OpDestroy?
    modifies b
    ensures Kept(b, op, a, i, h) && (old(Mirrors(b, m)) && FaultFree(op, m.gen) ==> a == Said(m, op) && Mirrors(b, Moved(m, op)))
  {
    hide Lawful;
    var integrity := b.Destroy(op.df, op.key);
    a := Answer(if integrity then ErrIntegrity else NoErr, 0, [], false, false);
  }

  method ApplyEnvironment(b: Buffer, op: Op, ghost i: Ideal, ghost h: History, ghost m: Machine) returns (a: Answer)
    requires Tracks(b, i, h) && WellKeyed(op) && WellBehaved(op) && (op.OpWipe? || op.OpFlip?)
    modifies b
    ensures Kept(b, op, a, i, h) && (old(Mirrors(b, m)) && FaultFree(op, m.gen) ==> a == Said(m, op) && Mirrors(b, Moved(m, op)))
  {
    hide Lawful;
    a := Answer(NoErr, 0, [], false, false);
    if op.OpWipe? {
      a := a.(landed := !b.destroyed && !op.fails);
      b.EmergencyWipe(op.fails);
    } else if b.Refusal() == ErrSealed && op.at < |b.bytes| && b.bytes[op.at] != op.value {
      a := a.(landed := true, tagged := b.sealTagged);
      b.Corrupt(b.bytes[op.at := op.value]);
    }
  }

  /** One operation, with what it answers. */
  method Apply(b: Buffer, op: Op, ghost i: Ideal, ghost h: History, ghost m: Machine) returns (a: Answer)
    requires Tracks(b, i, h) && WellKeyed(op) && WellBehaved(op)
    modifies b
    ensures Kept(b, op, a, i, h) && (old(Mirrors(b, m)) && FaultFree(op, m.gen) ==> a == Said(m, op) && Mirrors(b, Moved(m, op)))
  {
    hide Kept, Mirrors, Said, Moved, FaultFree;
    match op {
      case OpSeal(_, _, _, _) => a := ApplySeal(b, op, i, h, m);
      case OpUnseal(_, _, _, _, _) => a := ApplyUnseal(b, op, i, h, m);
      case OpReadOnly(_, _) => a := ApplyReadOnly(b, op, i, h, m);
      case OpCopyIn(_, _, _) => a := ApplyCopyIn(b, op, i, h, m);
      case OpCopyOut(_, _, _) => a := ApplyCopyOut(b, op, i, h, m);
      case OpWithBytes(_, _) => a := ApplyWithBytes(b, op, i, h, m);
      case OpTruncate(_, _) => a := ApplyTruncate(b, op, i, h, m);
      case OpDestroy(_, _) => a := ApplyDestroy(b, op, i, h, m);
      case OpWipe(_) => a := ApplyEnvironment(b, op, i, h, m);
      case OpFlip(_, _) => a := ApplyEnvironment(b, op, i, h, m);
    }
  }

  /** No byte changed undetectably in the run so far. */
  predicate Clean(ops: seq<Op>, answers: seq<Answer>)
    requires |ops| == |answers|
  {
    forall k :: 0 <= k < |ops| ==> !Undetectable(ops[k], answers[k])
  }

  predicate Touched(ops: seq<Op>, answers: seq<Answer>)
    requires |ops| == |answers|
  {
    exists k :: 0 <= k < |ops| && Flipped(ops[k], answers[k]) && Unopened(ops, answers, k)
  }

  /** No later operation has unsealed the buffer. */
  predicate Unopened(ops: seq<Op>, answers: seq<Answer>, k: nat)
    requires |ops| == |answers|
  {
    forall j :: k < j < |ops| ==> !Reopened(ops[j], answers[j])
  }

  predicate Ended(ops: seq<Op>, answers: seq<Answer>)
    requires |ops| == |answers|
  {
    exists k :: 0 <= k < |ops| && Ends(ops[k], answers[k])
  }

  /** The answer at k is what the operations before it, and nothing else, account for. */
  predicate Accounted(start: Ideal, ops: seq<Op>, answers: seq<Answer>, k: nat)
    requires k < |ops| == |answers|
  {
    && (Clean(ops[..k], answers[..k]) ==> Right(Replay(start, ops[..k], answers[..k]), ops[k], answers[k]))
    && (Ended(ops[..k], answers[..k]) && Use(ops[k]) ==> answers[k].err == ErrWiped || answers[k].err == ErrDestroyed)
    && (answers[k].err == ErrIntegrity ==> Touched(ops[..k], answers[..k]))
  }

  function HistoryOf(ops: seq<Op>, answers: seq<Answer>): History
    requires |ops| == |answers|
  {
    History(Clean(ops, answers), Touched(ops, answers), Ended(ops, answers))
  }

  /** The machine's state and answers after operations without faults. */
  function Machinery(m: Machine, ops: seq<Op>): Machine {
    if ops == [] then m else Moved(Machinery(m, ops[..|ops| - 1]), ops[|ops| - 1])
  }

  /** The first n operations have no fault. */
  ghost predicate Faultless(ops: seq<Op>, gen: nat, n: nat)
    requires n <= |ops|
  {
    forall j :: 0 <= j < n ==> FaultFree(ops[j], gen)
  }

  /** As long as there has been no fault, the answers are the machine's. */
  ghost predicate Plainly(m: Machine, ops: seq<Op>, answers: seq<Answer>)
    requires |answers| <= |ops|
  {
    forall k :: 0 <= k < |answers| && Faultless(ops, m.gen, k + 1) ==> answers[k] == Said(Machinery(m, ops[..k]), ops[k])
  }

  /**
   * For every sequence of operations and every pattern of faults. Every answer is
   * accounted for by the operations before it: a read returns exactly the stores that were
   * answered before it, applied in order; an integrity error means that a byte has changed
   * since the buffer was last sealed;
   * and nothing is handed out after a wipe or Destroy. In the end an unsealed buffer holds
   * that value in plaintext. Only a byte that changed while the buffer was sealed without
   * a tag can break this. As long as no call fails and no byte changes, every answer is
   * the one the plain machine gives.
   */
  method Run(b: Buffer, ops: seq<Op>, ghost gen: nat) returns (answers: seq<Answer>)
    requires b.Valid() && b.Refusal() == NoErr
    requires forall k :: 0 <= k < |ops| ==> WellKeyed(ops[k]) && WellBehaved(ops[k])
    modifies b
    ensures |answers| == |ops|
    ensures forall k :: 0 <= k < |ops| ==> Accounted(old(Ideal(b.secret, b.size)), ops, answers, k)
    ensures b.Valid() && (Ended(ops, answers) <==> b.wiped || b.destroyed)
    ensures !Ended(ops, answers) && Clean(ops, answers) ==>
      var i := Replay(old(Ideal(b.secret, b.size)), ops, answers);
      b.secret == i.value && b.size == i.size && (!b.sealed ==> b.bytes == i.value)
    ensures Plainly(old(Machine(b.secret, b.size, false, b.readOnly, false, false, gen)), ops, answers)
  {
    hide Tracks, Mirrors, Accounted, Clean, Touched, Ended, Replay, Machinery, Said, Moved, FaultFree, Faultless, Plainly;
    answers := [];
    ghost var start := Ideal(b.secret, b.size);
    ghost var first := Machine(b.secret, b.size, false, b.readOnly, false, false, gen);
    assert ops[..0] == [];
    Begins(b, start, first);
    PlainlyNone(first, ops);
    for k := 0 to |ops|
      invariant |answers| == k
      invariant forall j :: 0 <= j < k ==> Accounted(start, ops[..k], answers, j)
      invariant Tracks(b, Replay(start, ops[..k], answers), HistoryOf(ops[..k], answers))
      invariant Faultless(ops, gen, k) ==> Mirrors(b, Machinery(first, ops[..k])) && Machinery(first, ops[..k]).gen == gen
      invariant Plainly(first, ops, answers)
    {
      ghost var done, said := ops[..k], answers;
      var a := Apply(b, ops[k], Replay(start, done, said), HistoryOf(done, said), Machinery(first, done));
      answers := answers + [a];
      Extended(start, done, said, ops[k], a);
      assert ops[..k + 1] == done + [ops[k]];
      MachineryNext(first, done, ops[k]);
      FaultlessNext(ops, gen, k);
      PlainlyNext(first, ops, said, a);
    }
    assert ops[..|ops|] == ops;
    Finishes(b, Replay(start, ops, answers), HistoryOf(ops, answers));
  }

  lemma Begins(b: Buffer, i: Ideal, m: Machine)
    requires b.Valid() && b.Refusal() == NoErr && i == Ideal(b.secret, b.size)
    requires m == Machine(b.secret, b.size, false, b.readOnly, false, false, m.gen)
    ensures Tracks(b, Replay(i, [], []), HistoryOf([], [])) && Mirrors(b, Machinery(m, [])) && Machinery(m, []).gen == m.gen
  {
  }

  lemma Finishes(b: Buffer, i: Ideal, h: History)
    requires Tracks(b, i, h)
    ensures b.Valid() && (h.ended <==> b.wiped || b.destroyed)
    ensures !h.ended && h.clean ==> b.secret == i.value && b.size == i.size && (!b.sealed ==> b.bytes == i.value)
  {
  }

  lemma FaultlessNext(ops: seq<Op>, gen: nat, n: nat)
    requires n < |ops|
    ensures Faultless(ops, gen, n + 1) <==> Faultless(ops, gen, n) && FaultFree(ops[n], gen)
  {
    hide FaultFree;
  }

  lemma PlainlyNone(m: Machine, ops: seq<Op>)
    ensures Plainly(m, ops, [])
  {
  }

  lemma PlainlyNext(m: Machine, ops: seq<Op>, answers: seq<Answer>, a: Answer)
    requires |answers| < |ops| && Plainly(m, ops, answers)
    requires Faultless(ops, m.gen, |answers| + 1) ==> a == Said(Machinery(m, ops[..|answers|]), ops[|answers|])
    ensures Plainly(m, ops, answers + [a])
  {
    hide Faultless, Said, Machinery;
    var answers' := answers + [a];
    assert forall k :: 0 <= k < |answers| ==> answers'[k] == answers[k];
  }

  lemma MachineryNext(m: Machine, ops: seq<Op>, op: Op)
    ensures Machinery(m, ops + [op]) == Moved(Machinery(m, ops), op)
    ensures Moved(Machinery(m, ops), op).gen == Machinery(m, ops).gen
  {
    assert (ops + [op])[..|ops|] == ops;
  }

  /** One more operation at the end of the run. */
  lemma Extended(start: Ideal, ops: seq<Op>, answers: seq<Answer>, op: Op, a: Answer)
    requires |ops| == |answers| && forall j :: 0 <= j < |ops| ==> Accounted(start, ops, answers, j)
    requires Clean(ops, answers) ==> Right(Replay(start, ops, answers), op, a)
    requires Ended(ops, answers) && Use(op) ==> a.err == ErrWiped || a.err == ErrDestroyed
    requires a.err == ErrIntegrity ==> Touched(ops, answers)
    ensures Replay(start, ops + [op], answers + [a]) == After(Replay(start, ops, answers), op, a)
    ensures Clean(ops + [op], answers + [a]) <==> Clean(ops, answers) && !Undetectable(op, a)
    ensures Touched(ops + [op], answers + [a]) <==> (Touched(ops, answers) && !Reopened(op, a)) || Flipped(op, a)
    ensures Ended(ops + [op], answers + [a]) <==> Ended(ops, answers) || Ends(op, a)
    ensures forall j :: 0 <= j <= |ops| ==> Accounted(start, ops + [op], answers + [a], j)
  {
    hide After, Right, Accounted, Clean, Touched, Ended, Replay;
    ReplayNext(start, ops, answers, op, a);
    CleanNext(ops, answers, op, a);
    TouchedNext(ops, answers, op, a);
    EndedNext(ops, answers, op, a);
    forall j | 0 <= j <= |ops|
      ensures Accounted(start, ops + [op], answers + [a], j)
    {
      AccountedNext(start, ops, answers, op, a, j);
    }
  }

  lemma ReplayNext(start: Ideal, ops: seq<Op>, answers: seq<Answer>, op: Op, a: Answer)
    requires |ops| == |answers|
    ensures Replay(start, ops + [op], answers + [a]) == After(Replay(start, ops, answers), op, a)
  {
    hide After;
    assert (ops + [op])[..|ops|] == ops && (answers + [a])[..|ops|] == answers;
  }

  lemma AccountedNext(start: Ideal, ops: seq<Op>, answers: seq<Answer>, op: Op, a: Answer, j: nat)
    requires |ops| == |answers| && j <= |ops| && (j < |ops| ==> Accounted(start, ops, answers, j))
    requires Clean(ops, answers) ==> Right(Replay(start, ops, answers), op, a)
    requires Ended(ops, answers) && Use(op) ==> a.err == ErrWiped || a.err == ErrDestroyed
    requires a.err == ErrIntegrity ==> Touched(ops, answers)
    ensures Accounted(start, ops + [op], answers + [a], j)
  {
    hide Right, Clean, Touched, Ended, Replay;
    var ops', answers' := ops + [op], answers + [a];
    assert ops'[..j] == ops[..j] && answers'[..j] == answers[..j];
    if j < |ops| {
      assert ops'[j] == ops[j] && answers'[j] == answers[j];
    } else {
      assert ops[..j] == ops && answers[..j] == answers;
    }
  }

  lemma CleanNext(ops: seq<Op>, answers: seq<Answer>, op: Op, a: Answer)
    requires |ops| == |answers|
    ensures Clean(ops + [op], answers + [a]) <==> Clean(ops, answers) && !Undetectable(op, a)
  {
    hide Undetectable;
    var ops', answers' := ops + [op], answers + [a];
    assert forall k :: 0 <= k < |ops| ==> ops'[k] == ops[k] && answers'[k] == answers[k];
    assert ops'[|ops|] == op && answers'[|ops|] == a;
  }

  lemma EndedNext(ops: seq<Op>, answers: seq<Answer>, op: Op, a: Answer)
    requires |ops| == |answers|
    ensures Ended(ops + [op], answers + [a]) <==> Ended(ops, answers) || Ends(op, a)
  {
    hide Ends;
    var ops', answers' := ops + [op], answers + [a];
    assert forall k :: 0 <= k < |ops| ==> ops'[k] == ops[k] && answers'[k] == answers[k];
    assert ops'[|ops|] == op && answers'[|ops|] == a;
    if Ended(ops, answers) {
      var k :| 0 <= k < |ops| && Ends(ops[k], answers[k]);
      assert Ends(ops'[k], answers'[k]);
    }
  }

  lemma TouchedNext(ops: seq<Op>, answers: seq<Answer>, op: Op, a: Answer)
    requires |ops| == |answers|
    ensures Touched(ops + [op], answers + [a]) <==> (Touched(ops, answers) && !Reopened(op, a)) || Flipped(op, a)
  {
    hide Flipped, Reopened, Unopened;
    var ops', answers' := ops + [op], answers + [a];
    var n := |ops|;
    assert ops'[n] == op && answers'[n] == a;
    if Touched(ops, answers) && !Reopened(op, a) {
      var k :| 0 <= k < n && Flipped(ops[k], answers[k]) && Unopened(ops, answers, k);
      UnopenedNext(ops, answers, op, a, k);
      assert Flipped(ops'[k], answers'[k]);
    }
    if Flipped(op, a) {
      UnopenedLast(ops', answers', n);
    }
    if Touched(ops', answers') {
      var k :| 0 <= k < |ops'| && Flipped(ops'[k], answers'[k]) && Unopened(ops', answers', k);
      if k < n {
        UnopenedNext(ops, answers, op, a, k);
        assert Flipped(ops[k], answers[k]);
      }
    }
  }

  lemma UnopenedLast(ops: seq<Op>, answers: seq<Answer>, k: nat)
    requires |ops| == |answers| == k + 1
    ensures Unopened(ops, answers, k)
  {
  }

  lemma UnopenedNext(ops: seq<Op>, answers: seq<Answer>, op: Op, a: Answer, k: nat)
    requires |ops| == |answers| && k < |ops|
    ensures Unopened(ops + [op], answers + [a], k) <==> Unopened(ops, answers, k) && !Reopened(op, a)
  {
    hide Reopened;
    var ops', answers' := ops + [op], answers + [a];
    assert forall j :: 0 <= j < |ops| ==> ops'[j] == ops[j] && answers'[j] == answers[j];
    assert ops'[|ops|] == op && answers'[|ops|] == a;
  }
}
