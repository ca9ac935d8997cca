/** src/cdf/modules/key_management/km_cryptor.cpp and vault/vault_key_manager.cpp: encryption and decryption through
    either key manager, both of which use the keys of the OpenBao manager. */
module KmCryptor {
  import opened Bytes
  import opened KeyManagerType
  import KM = KeyManager
  import KS = KeyManagerStart
  import KR = KeyManagerRuns
  import KN = KeyNames
  import CE = CipherEnvelope

  /** The codes of CryptionRC in use; a call of the key manager that never returns; and a cast to the wrong class. */
  datatype RC = OK | ERROR | INVALID_PARAM | UNINITED | SELF_DEADLOCK | BAD_DOWNCAST

  /** ParseKeyManagerRC. */
  function Parsed(rc: KM.RC): RC {
    match rc
    case OK => OK
    case INVALID_PARAM => INVALID_PARAM
    case UNINITED => UNINITED
    case SELF_DEADLOCK => SELF_DEADLOCK
    case _ => ERROR
  }

  function Encrypt(asked: KeyManagerTy, ty: Present, s: KM.State, c: CE.Ciphers, alg: CE.SymAlg, d: nat, p: bytes,
                   exportRuns: bool, draw: CE.Draw): (RC, bytes)
    requires CE.Fits(draw, alg, |p|)
  {
    if asked == UNKNOWN then (ERROR, [])
    else if BadDowncast(asked, ty) then (BAD_DOWNCAST, [])
    else
      var (rc, text) := KM.Encrypt(s, c, alg, d, p, exportRuns, draw);
      (Parsed(rc), text)
  }

  function Decrypt(asked: KeyManagerTy, ty: Present, s: KM.State, c: CE.Ciphers, alg: CE.SymAlg, d: nat, text: bytes,
                   exportRuns: bool): (RC, bytes)
  {
    if asked == UNKNOWN then (ERROR, [])
    else if BadDowncast(asked, ty) then (BAD_DOWNCAST, [])
    else
      var (rc, p) := KM.Decrypt(s, c, alg, d, text, exportRuns);
      (Parsed(rc), p)
  }

  /** Without a manager, or with a bad cast, nothing is asked of the key manager; otherwise text and code are its own,
      and codes that CryptionRC does not have become ERROR. */
  lemma AnswersOfKeyManager(asked: KeyManagerTy, ty: Present, s: KM.State, c: CE.Ciphers, alg: CE.SymAlg, d: nat,
                            p: bytes, ex: bool, draw: CE.Draw)
    requires CE.Fits(draw, alg, |p|)
    ensures asked == UNKNOWN ==>
              && Encrypt(asked, ty, s, c, alg, d, p, ex, draw) == (ERROR, [])
              && Decrypt(asked, ty, s, c, alg, d, p, ex) == (ERROR, [])
    ensures asked == OPENBAO && ty == VAULT ==>
              && Encrypt(asked, ty, s, c, alg, d, p, ex, draw) == (BAD_DOWNCAST, [])
              && Decrypt(asked, ty, s, c, alg, d, p, ex) == (BAD_DOWNCAST, [])
    ensures asked == VAULT || (asked == OPENBAO && ty == OPENBAO) ==>
              && Same(KM.Encrypt(s, c, alg, d, p, ex, draw), Encrypt(asked, ty, s, c, alg, d, p, ex, draw))
              && Same(KM.Decrypt(s, c, alg, d, p, ex), Decrypt(asked, ty, s, c, alg, d, p, ex))
  {
    hide KM.Encrypt, KM.Decrypt;
  }

  /** The same text and the corresponding code. */
  predicate Same(theirs: (KM.RC, bytes), ours: (RC, bytes)) {
    && theirs.1 == ours.1
    && (theirs.0 == KM.OK <==> ours.0 == OK) && (theirs.0 == KM.INVALID_PARAM <==> ours.0 == INVALID_PARAM)
    && (theirs.0 == KM.UNINITED <==> ours.0 == UNINITED) && (theirs.0 == KM.SELF_DEADLOCK <==> ours.0 == SELF_DEADLOCK)
    && ours.0 != BAD_DOWNCAST
  }

  /** A text made through either manager decrypts through either, in a state that has its key, unless the cast is
      bad. */
  lemma EitherDecryptsExactly(asked: KeyManagerTy, ty: Present, s: KM.State, c: CE.Ciphers, alg: CE.SymAlg, d: nat,
                              p: bytes, ex: bool, draw: CE.Draw,
                              asked': KeyManagerTy, ty': Present, t: KM.State)
    requires c.Lawful() && CE.Fits(draw, alg, |p|) && Encrypt(asked, ty, s, c, alg, d, p, ex, draw).0 == OK
    requires d < U16_LIMIT && KR.LatestKey(s, d) <= KM.UINT16_MAX
    requires KN.KeyName(d, KR.LatestKey(s, d)) in s.store
    requires KR.Stored(t, d, KR.LatestKey(s, d), s.store[KN.KeyName(d, KR.LatestKey(s, d))].material)
    requires t.inited && d < t.domainCount
    ensures Decrypt(asked', ty', t, c, alg, d, Encrypt(asked, ty, s, c, alg, d, p, ex, draw).1, true) == (OK, p)
       <==> asked' != UNKNOWN && !BadDowncast(asked', ty') && KS.Has(t.keys, d, KR.LatestKey(s, d))
  {
    hide KM.Encrypt, KM.Decrypt, KN.KeyName, KR.LatestKey;
    KR.DecryptsExactly(s, t, c, alg, d, p, ex, draw);
  }

  // ----- The classes -----

  /** Every call goes to the OpenBao manager. */
  class VaultKeyManager {
    const openbao: KM.OpenbaoKeyManager

    constructor (openbao: KM.OpenbaoKeyManager)
      ensures this.openbao == openbao
    {
      this.openbao := openbao;
    }

    method DoInit(count: nat, env: KM.InitEnv) returns (rc: KM.RC)
      modifies openbao
      ensures (openbao.St(), rc) == KM.Init(old(openbao.St()), count, env)
      ensures openbao.ty == AfterInit(VAULT, old(openbao.ty))
    {
      openbao.SetType(VAULT);
      rc := openbao.DoInit(count, env);
    }

    method DoUnInit()
      modifies openbao
      ensures openbao.St() == KM.UnInit(old(openbao.St()))
      ensures openbao.ty == AfterUnInit(VAULT, old(openbao.ty))
    {
      openbao.DoUnInit();
      openbao.SetType(OPENBAO);
    }

    method DoEncrypt(c: CE.Ciphers, alg: CE.SymAlg, d: nat, p: bytes, exportRuns: bool, draw: CE.Draw)
      returns (rc: KM.RC, text: bytes)
      requires c.Lawful() && CE.Fits(draw, alg, |p|)
      modifies openbao.cryptor
      ensures (rc, text) == KM.Encrypt(openbao.St(), c, alg, d, p, exportRuns, draw)
      ensures openbao.St() == old(openbao.St())
    {
      rc, text := openbao.DoEncrypt(c, alg, d, p, exportRuns, draw);
    }

    method DoDecrypt(c: CE.Ciphers, alg: CE.SymAlg, d: nat, text: bytes, exportRuns: bool) returns (rc: KM.RC, p: bytes)
      modifies openbao.cryptor
      ensures (rc, p) == KM.Decrypt(openbao.St(), c, alg, d, text, exportRuns)
      ensures openbao.St() == old(openbao.St())
    {
      rc, p := openbao.DoDecrypt(c, alg, d, text, exportRuns);
    }
  }

  /** The object that KeyManagerFactory::Borrow gives, UNKNOWN for none, and both managers. */
  class Cryptor {
    const borrowed: KeyManagerTy
    const vault: VaultKeyManager

    constructor (borrowed: KeyManagerTy, vault: VaultKeyManager)
      ensures this.borrowed == borrowed && this.vault == vault
    {
      this.borrowed := borrowed;
      this.vault := vault;
    }

    /** Type() of the borrowed object. */
    function Type(): KeyManagerTy
      reads vault.openbao
    {
      if borrowed == OPENBAO then vault.openbao.ty else borrowed
    }

    method DoEncrypt(c: CE.Ciphers, alg: CE.SymAlg, d: nat, p: bytes, exportRuns: bool, draw: CE.Draw)
      returns (rc: RC, text: bytes)
      requires c.Lawful() && CE.Fits(draw, alg, |p|)
      modifies vault.openbao.cryptor
      ensures (rc, text) == Encrypt(borrowed, vault.openbao.ty, vault.openbao.St(), c, alg, d, p, exportRuns, draw)
      ensures vault.openbao.St() == old(vault.openbao.St())
    {
      hide KM.Encrypt;
      if borrowed == UNKNOWN {
        return ERROR, [];
      }
      var code: KM.RC;
      if Type() == OPENBAO {
        code, text := vault.openbao.DoEncrypt(c, alg, d, p, exportRuns, draw);
      } else {
        if borrowed == OPENBAO {
          return BAD_DOWNCAST, [];
        }
        code, text := vault.DoEncrypt(c, alg, d, p, exportRuns, draw);
      }
      rc := Parsed(code);
    }

    method DoDecrypt(c: CE.Ciphers, alg: CE.SymAlg, d: nat, text: bytes, exportRuns: bool) returns (rc: RC, p: bytes)
      modifies vault.openbao.cryptor
      ensures (rc, p) == Decrypt(borrowed, vault.openbao.ty, vault.openbao.St(), c, alg, d, text, exportRuns)
      ensures vault.openbao.St() == old(vault.openbao.St())
    {
      hide KM.Decrypt;
      if borrowed == UNKNOWN {
        return ERROR, [];
      }
      var code: KM.RC;
      if Type() == OPENBAO {
        code, p := vault.openbao.DoDecrypt(c, alg, d, text, exportRuns);
      } else {
        if borrowed == OPENBAO {
          return BAD_DOWNCAST, [];
        }
        code, p := vault.DoDecrypt(c, alg, d, text, exportRuns);
      }
      rc := Parsed(code);
    }
  }
}
