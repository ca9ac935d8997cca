/** The JWT server on top of the key manager: what the server assumes of encryption holds of KmCryptor. */
module JwtCodec {
  import opened Bytes
  import opened KeyManagerType
  import opened JwtServer
  import opened PskCodec
  import KM = KeyManager
  import KmCryptor
  import CE = CipherEnvelope
  import PM = PskManager

  const JWT_DEFAULT_SYM_ENC_ALG := CE.AES256_GCM

  /** Encrypting keys in any states of the key manager, decrypting them in state t. */
  function KmOf(t: KM.State, c: CE.Ciphers, chances: nat -> Chance): Km {
    Km((ref: (KeyManagerTy, int), n: nat, key: bytes) =>
         if ref.1 < 0 then None else Enc(c, RefOf(ref), chances(n), key),
       (ref: (KeyManagerTy, int), text: bytes) => if ref.1 < 0 then None else Dec(t, c, RefOf(ref), text))
  }

  function RefOf(ref: (KeyManagerTy, int)): PM.KeyRef
    requires ref.1 >= 0
  {
    PM.KeyRef(JWT_DEFAULT_SYM_ENC_ALG, ref.0, ref.1)
  }

  /** The law that the results on key rotation rest on, while t has the latest keys of the states that encrypt. */
  lemma KeyManagerIsLawful(t: KM.State, c: CE.Ciphers, chances: nat -> Chance)
    requires c.Lawful() && AllCovered(chances, t)
    ensures KmOf(t, c, chances).Lawful()
  {
    hide Enc, Dec, Covers;
    var km := KmOf(t, c, chances);
    forall ref, n, key | km.enc(ref, n, key).Some?
      ensures km.enc(ref, n, key).value != [] && km.dec(ref, km.enc(ref, n, key).value) == Some(key)
    {
      UnknownNever(c, RefOf(ref), chances(n), key);
      DecInvertsEnc(t, c, RefOf(ref), chances(n), key, RefOf(ref));
    }
  }

  lemma UnknownNever(c: CE.Ciphers, ref: PM.KeyRef, ch: Chance, p: bytes)
    requires Enc(c, ref, ch, p).Some?
    ensures ref.km != UNKNOWN
  {
    hide KmCryptor.Encrypt;
  }
}
