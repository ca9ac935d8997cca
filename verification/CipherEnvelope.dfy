/** src/cdf/modules/cryption/native_cryptor.cpp and native_cryptor_engine.{h,cpp}: the layout of an encrypted message,
    written in place into a buffer, and read back. The ciphers themselves are parameters. */
module CipherEnvelope {
  import opened Bytes

  datatype SymAlg = AES128_GCM | AES256_GCM | SM4_CTR | AES128_CCM | CHACHA20_POLY1305 | UNKNOWN_ALG
  datatype Suite = GCM_128 | GCM_256 | CCM_128 | CHACHA20 | SM4 | UNSPECIFIED
  datatype RC = OK | ERROR | INVALID_PARAM

  const IV_OFFSET := 0
  const AAD_OFFSET := 12
  const TAG_OFFSET := 28
  const CIPHER_OFFSET := 44
  const AAD_LEN := 16
  const TAG_LEN := 16
  const PLAINTEXT_MAX_LENGTH := 0x10_0000
  const CIPHERTEXT_MAX_LENGTH := 0x20_0000

  function CipherSuite(alg: SymAlg): Suite {
    match alg
    case AES128_GCM => GCM_128
    case AES256_GCM => GCM_256
    case SM4_CTR => SM4
    case AES128_CCM => CCM_128
    case CHACHA20_POLY1305 => CHACHA20
    case UNKNOWN_ALG => UNSPECIFIED
  }

  /** GetAlgLen, in bits. */
  function AlgLen(s: Suite): nat {
    match s
    case GCM_128 => 128
    case CCM_128 => 128
    case SM4 => 128
    case GCM_256 => 256
    case CHACHA20 => 256
    case UNSPECIFIED => 0
  }

  /** SM4 in counter mode takes a 16-byte IV, although the next region starts 12 bytes in. */
  function IvLength(s: Suite): nat {
    if s == SM4 then 16 else 12
  }

  /** The OpenSSL calls: authenticated ciphers by suite, key, IV, associated data; the counter-mode cipher by key,
      IV. */
  datatype Ciphers = Ciphers(
    seal: (Suite, bytes, bytes, bytes, bytes) -> (bytes, bytes),
    open: (Suite, bytes, bytes, bytes, bytes, bytes) -> Option<bytes>,
    ctr: (bytes, bytes, bytes) -> bytes,
    unctr: (bytes, bytes, bytes) -> bytes)
  {
    /** Decryption inverts encryption, lengths are kept, tags are 16 bytes. */
    ghost predicate Lawful() {
      && (forall s, k, iv, aad, p ::
            var ct := seal(s, k, iv, aad, p);
            |ct.0| == |p| && |ct.1| == TAG_LEN && open(s, k, iv, aad, ct.0, ct.1) == Some(p))
      && (forall k, iv, p :: |ctr(k, iv, p)| == |p| && unctr(k, iv, ctr(k, iv, p)) == p)
    }

    /** The authenticated ciphers refuse each other's texts. */
    ghost predicate Separates() {
      forall s, s', k, iv, aad, p :: s != s' ==>
        var ct := seal(s, k, iv, aad, p);
        open(s', k, iv, aad, ct.0, ct.1) == None
    }
  }

  // ----- Layout -----

  /** What OpensslEncrypt and OpensslCcmEncrypt leave in the buffer. For SM4 the associated data, written 12 bytes in,
      overwrites the last four bytes of the IV, and the tag region keeps what was in the buffer. */
  function Sealed(c: Ciphers, s: Suite, key: bytes, p: bytes, iv: bytes, aad: bytes, junk: bytes): bytes
    requires |iv| == IvLength(s) && |aad| == AAD_LEN && |junk| >= CIPHER_OFFSET
  {
    if s == SM4 then
      iv[..12] + aad + junk[TAG_OFFSET..CIPHER_OFFSET] + c.ctr(key, iv[..12] + aad[..4], p)
    else
      iv + aad + c.seal(s, key, iv, aad, p).1 + c.seal(s, key, iv, aad, p).0
  }

  /** What OpensslDecrypt and OpensslCcmDecrypt recover. */
  function Opened(c: Ciphers, s: Suite, key: bytes, ct: bytes): Option<bytes>
    requires |ct| > CIPHER_OFFSET
  {
    if s == SM4 then Some(c.unctr(key, ct[..16], ct[CIPHER_OFFSET..]))
    else c.open(s, key, ct[..12], ct[AAD_OFFSET..TAG_OFFSET], ct[CIPHER_OFFSET..], ct[TAG_OFFSET..CIPHER_OFFSET])
  }

  /** Opening inverts sealing for every suite, the overlapping SM4 regions included. */
  lemma OpenSealed(c: Ciphers, s: Suite, key: bytes, p: bytes, iv: bytes, aad: bytes, junk: bytes)
    requires c.Lawful() && p != []
    requires |iv| == IvLength(s) && |aad| == AAD_LEN && |junk| >= CIPHER_OFFSET
    ensures |Sealed(c, s, key, p, iv, aad, junk)| == |p| + CIPHER_OFFSET
    ensures Opened(c, s, key, Sealed(c, s, key, p, iv, aad, junk)) == Some(p)
  {
    var ct := Sealed(c, s, key, p, iv, aad, junk);
    if s == SM4 {
      assert ct[..16] == iv[..12] + aad[..4];
      assert ct[CIPHER_OFFSET..] == c.ctr(key, iv[..12] + aad[..4], p);
    } else {
      assert ct[..12] == iv && ct[AAD_OFFSET..TAG_OFFSET] == aad;
      assert ct[TAG_OFFSET..CIPHER_OFFSET] == c.seal(s, key, iv, aad, p).1;
      assert ct[CIPHER_OFFSET..] == c.seal(s, key, iv, aad, p).0;
    }
  }

  function EstimatedCipherLen(plainTextLen: nat): nat {
    if plainTextLen + CIPHER_OFFSET >= U32_LIMIT then 0 else plainTextLen + CIPHER_OFFSET
  }

  function EstimatedPlainLen(cipherTextLen: nat): nat {
    if cipherTextLen <= CIPHER_OFFSET then 0 else cipherTextLen - CIPHER_OFFSET
  }

  // ----- Whole calls -----

  predicate GoodKey(alg: SymAlg, key: bytes) {
    alg != UNKNOWN_ALG && |key| * 8 == AlgLen(CipherSuite(alg))
  }

  /** The random draws of one encryption (None when GetRand fails) and the buffer's earlier contents. */
  datatype Draw = Draw(iv: Option<bytes>, aad: Option<bytes>, junk: bytes)

  /** GetRand fills what it is asked for; the buffer has the estimated length. */
  predicate Fits(d: Draw, alg: SymAlg, plainLen: nat) {
    && (d.iv.Some? ==> |d.iv.value| == IvLength(CipherSuite(alg)))
    && (d.aad.Some? ==> |d.aad.value| == AAD_LEN)
    && |d.junk| == plainLen + CIPHER_OFFSET
  }

  function EncryptResult(c: Ciphers, alg: SymAlg, p: bytes, key: bytes, d: Draw): (RC, bytes)
    requires Fits(d, alg, |p|)
  {
    if alg == UNKNOWN_ALG || p == [] || |p| >= PLAINTEXT_MAX_LENGTH || key == [] then (INVALID_PARAM, [])
    else if !GoodKey(alg, key) || d.iv == None || d.aad == None then (ERROR, [])
    else (OK, Sealed(c, CipherSuite(alg), key, p, d.iv.value, d.aad.value, d.junk))
  }

  function DecryptResult(c: Ciphers, alg: SymAlg, ct: bytes, key: bytes): (RC, bytes) {
    if alg == UNKNOWN_ALG || ct == [] || |ct| >= CIPHERTEXT_MAX_LENGTH || key == [] then (INVALID_PARAM, [])
    else if |ct| <= CIPHER_OFFSET || !GoodKey(alg, key) then (ERROR, [])
    else match Opened(c, CipherSuite(alg), key, ct) case Some(p) => (OK, p) case None => (ERROR, [])
  }

  /** For all five algorithms, encryption succeeds exactly on 1 to 2^20 - 1 bytes under a key of the right length (given
      random bytes), the result passes the decryption limit, and decrypting it gives the plaintext back. */
  lemma EncryptDecrypt(c: Ciphers, alg: SymAlg, p: bytes, key: bytes, d: Draw)
    requires c.Lawful() && Fits(d, alg, |p|) && d.iv.Some? && d.aad.Some?
    ensures EncryptResult(c, alg, p, key, d).0 == OK <==> 0 < |p| < PLAINTEXT_MAX_LENGTH && GoodKey(alg, key)
    ensures EncryptResult(c, alg, p, key, d).0 == OK ==>
              var ct := EncryptResult(c, alg, p, key, d).1;
              && |ct| == EstimatedCipherLen(|p|) < CIPHERTEXT_MAX_LENGTH && EstimatedPlainLen(|ct|) == |p|
              && DecryptResult(c, alg, ct, key) == (OK, p)
  {
    if EncryptResult(c, alg, p, key, d).0 == OK {
      OpenSealed(c, CipherSuite(alg), key, p, d.iv.value, d.aad.value, d.junk);
    }
  }

  // ----- Algorithm by algorithm -----

  /** What the draws and the buffer fit to, in numbers. */
  lemma FitsByName(d: Draw, alg: SymAlg, n: nat)
    ensures Fits(d, alg, n) <==>
              && (d.iv.Some? ==> |d.iv.value| == if alg == SM4_CTR then 16 else 12)
              && (d.aad.Some? ==> |d.aad.value| == 16) && |d.junk| == n + 44
  {
  }

  /** The length of the keys, in bytes. */
  function KeyBytes(alg: SymAlg): nat {
    match alg
    case AES128_GCM => 16
    case AES256_GCM => 32
    case SM4_CTR => 16
    case AES128_CCM => 16
    case CHACHA20_POLY1305 => 32
    case UNKNOWN_ALG => 0
  }

  /** Each algorithm takes 1 to 2^20 - 1 bytes under keys of its own length, and no others. */
  lemma EncryptsByName(c: Ciphers, alg: SymAlg, p: bytes, key: bytes, d: Draw)
    requires c.Lawful() && Fits(d, alg, |p|) && d.iv.Some? && d.aad.Some?
    ensures EncryptResult(c, alg, p, key, d).0 == OK
       <==> 1 <= |p| < 1048576 && alg != UNKNOWN_ALG && |key| == KeyBytes(alg)
  {
  }

  /** Decryption asks for 1 to 2^21 - 1 bytes, of which 44 stand in front of the text, and a key of the algorithm's own
      length. What it refuses for its length, its empty key or its algorithm is an invalid parameter. */
  lemma DecryptsByName(c: Ciphers, alg: SymAlg, p: bytes, ct: bytes, key: bytes, d: Draw)
    requires Fits(d, alg, |p|)
    ensures EncryptResult(c, alg, p, key, d).0 == INVALID_PARAM
       <==> alg == UNKNOWN_ALG || !(1 <= |p| < 1048576) || |key| == 0
    ensures DecryptResult(c, alg, ct, key).0 == INVALID_PARAM
       <==> alg == UNKNOWN_ALG || !(1 <= |ct| < 2097152) || |key| == 0
    ensures DecryptResult(c, alg, ct, key).0 == OK
        ==> alg != UNKNOWN_ALG && 45 <= |ct| < 2097152 && |key| == KeyBytes(alg)
    ensures DecryptResult(c, SM4_CTR, ct, key).0 == OK <==> 45 <= |ct| < 2097152 && |key| == 16
  {
  }

  /** The estimates undo each other, up to the 32-bit bound behind which the first one is 0. */
  lemma EstimatesInvert(n: nat)
    ensures EstimatedCipherLen(n) == 0 <==> n >= 4294967252
    ensures n < 4294967252 ==> EstimatedPlainLen(EstimatedCipherLen(n)) == n && EstimatedCipherLen(n) == n + 44
    ensures EstimatedPlainLen(n) == 0 <==> n <= 44
  {
  }

  /** IV, associated data, tag and text are where they are, and tag and text are those of the algorithm's own cipher. */
  lemma LayoutByName(c: Ciphers, alg: SymAlg, p: bytes, key: bytes, d: Draw)
    requires c.Lawful() && Fits(d, alg, |p|) && EncryptResult(c, alg, p, key, d).0 == OK
    ensures d.iv.Some? && d.aad.Some?
    ensures var ct, iv, aad := EncryptResult(c, alg, p, key, d).1, d.iv.value, d.aad.value;
            && |ct| == |p| + 44 && ct[..12] == iv[..12] && ct[12..28] == aad
            && (alg == AES128_GCM ==> (ct[44..], ct[28..44]) == c.seal(GCM_128, key, iv, aad, p))
            && (alg == AES256_GCM ==> (ct[44..], ct[28..44]) == c.seal(GCM_256, key, iv, aad, p))
            && (alg == AES128_CCM ==> (ct[44..], ct[28..44]) == c.seal(CCM_128, key, iv, aad, p))
            && (alg == CHACHA20_POLY1305 ==> (ct[44..], ct[28..44]) == c.seal(CHACHA20, key, iv, aad, p))
            && (alg == SM4_CTR ==> ct[44..] == c.ctr(key, iv[..12] + aad[..4], p) && ct[28..44] == d.junk[28..44])
  {
    var ct, iv, aad := EncryptResult(c, alg, p, key, d).1, d.iv.value, d.aad.value;
    OpenSealed(c, CipherSuite(alg), key, p, iv, aad, d.junk);
    if alg == SM4_CTR {
      assert ct[44..] == c.ctr(key, iv[..12] + aad[..4], p) && ct[28..44] == d.junk[28..44];
    } else {
      var sealed := c.seal(CipherSuite(alg), key, iv, aad, p);
      assert ct[28..44] == sealed.1 && ct[44..] == sealed.0;
    }
  }

  /** A text of one authenticated algorithm is refused under any other, if the ciphers refuse each other's texts; under
      SM4_CTR, which authenticates nothing, every such text decrypts if and only if the key has 16 bytes. */
  lemma OtherAlgorithm(c: Ciphers, alg: SymAlg, alg': SymAlg, p: bytes, key: bytes, d: Draw)
    requires c.Lawful() && c.Separates() && Fits(d, alg, |p|) && EncryptResult(c, alg, p, key, d).0 == OK
    requires alg != SM4_CTR && alg' != alg
    ensures DecryptResult(c, alg', EncryptResult(c, alg, p, key, d).1, key).0 == OK <==> alg' == SM4_CTR && |key| == 16
  {
    LayoutByName(c, alg, p, key, d);
    var ct, iv, aad := EncryptResult(c, alg, p, key, d).1, d.iv.value, d.aad.value;
    var sealed := c.seal(CipherSuite(alg), key, iv, aad, p);
    assert ct[..12] == iv && ct[12..28] == aad && (ct[44..], ct[28..44]) == sealed;
    assert CipherSuite(alg') != CipherSuite(alg) && CipherSuite(alg) != SM4;
    assert c.open(CipherSuite(alg'), key, iv, aad, sealed.0, sealed.1) == None;
  }

  // ----- The code -----

  /** memcpy into the buffer. */
  method WriteAt(buf: array<byte>, offset: nat, data: bytes)
    requires offset + |data| <= buf.Length
    modifies buf
    ensures buf[..] == old(buf[..offset]) + data + old(buf[offset + |data|..])
  {
    var i := 0;
    while i < |data|
      invariant 0 <= i <= |data|
      invariant forall k :: offset <= k < offset + i ==> buf[k] == data[k - offset]
      invariant forall k :: 0 <= k < buf.Length && !(offset <= k < offset + i) ==> buf[k] == old(buf[k])
    {
      buf[offset + i] := data[i];
      i := i + 1;
    }
  }

  /** CryptoEngine and NativeCryptor on the one shared engine: its suite is a field every call overwrites. */
  class NativeCryptor {
    var suite: Suite

    constructor ()
      ensures suite == UNSPECIFIED
    {
      suite := UNSPECIFIED;
    }

    /** The two random draws, written one after the other. */
    method PutIvAndAad(iv: Option<bytes>, aad: Option<bytes>, buf: array<byte>) returns (ok: bool)
      requires buf.Length >= CIPHER_OFFSET
      requires iv.Some? ==> |iv.value| == IvLength(suite)
      requires aad.Some? ==> |aad.value| == AAD_LEN
      modifies buf
      ensures ok <==> iv.Some? && aad.Some?
      ensures ok ==> buf[..] == iv.value[..12] + aad.value + old(buf[TAG_OFFSET..])
    {
      if iv == None {
        return false;
      }
      WriteAt(buf, IV_OFFSET, iv.value);
      if aad == None {
        return false;
      }
      assert buf[..AAD_OFFSET] == iv.value[..12] && buf[TAG_OFFSET..] == old(buf[TAG_OFFSET..]);
      WriteAt(buf, AAD_OFFSET, aad.value);
      ok := true;
    }

    /** OpensslEncrypt and OpensslCcmEncrypt: IV, then associated data, then cipher text, then tag, in place. */
    method OpensslEncrypt(c: Ciphers, key: bytes, p: bytes, iv: Option<bytes>, aad: Option<bytes>, buf: array<byte>)
      returns (ok: bool)
      requires c.Lawful() && buf.Length == |p| + CIPHER_OFFSET
      requires iv.Some? ==> |iv.value| == IvLength(suite)
      requires aad.Some? ==> |aad.value| == AAD_LEN
      modifies buf
      ensures ok <==> iv.Some? && aad.Some?
      ensures ok ==> buf[..] == Sealed(c, suite, key, p, iv.value, aad.value, old(buf[..]))
    {
      ghost var junk := buf[..];
      ok := PutIvAndAad(iv, aad, buf);
      if !ok {
        return;
      }
      var usedIv := buf[IV_OFFSET..IV_OFFSET + IvLength(suite)];
      var usedAad := buf[AAD_OFFSET..TAG_OFFSET];
      assert usedAad == aad.value;
      if suite == SM4 {
        assert usedIv == iv.value[..12] + aad.value[..4];
        WriteAt(buf, CIPHER_OFFSET, c.ctr(key, usedIv, p));
      } else {
        assert usedIv == iv.value;
        var (text, tag) := c.seal(suite, key, usedIv, usedAad, p);
        WriteAt(buf, CIPHER_OFFSET, text);
        assert buf[..TAG_OFFSET] == usedIv + usedAad;
        assert buf[CIPHER_OFFSET..] == text;
        WriteAt(buf, TAG_OFFSET, tag);
        assert buf[..] == usedIv + usedAad + tag + text;
      }
    }

    method Encrypt(c: Ciphers, alg: SymAlg, p: bytes, key: bytes, d: Draw) returns (rc: RC, ct: bytes)
      requires c.Lawful() && Fits(d, alg, |p|)
      modifies this
      ensures (rc, ct) == EncryptResult(c, alg, p, key, d)
    {
      rc, ct := INVALID_PARAM, [];
      var s := CipherSuite(alg);
      if s == UNSPECIFIED {
        return;
      }
      suite := s;
      if p == [] || |p| >= PLAINTEXT_MAX_LENGTH || key == [] {
        return;
      }
      rc := ERROR;
      if |key| * 8 != AlgLen(suite) {
        return;
      }
      var buf := new byte[EstimatedCipherLen(|p|)](i requires 0 <= i < |d.junk| => d.junk[i]);
      assert buf[..] == d.junk;
      var ok := OpensslEncrypt(c, key, p, d.iv, d.aad, buf);
      if ok {
        rc, ct := OK, buf[..];
      }
    }

    method OpensslDecrypt(c: Ciphers, key: bytes, ct: bytes) returns (p: Option<bytes>)
      requires |ct| > CIPHER_OFFSET
      ensures p == Opened(c, suite, key, ct)
    {
      var tag := ct[TAG_OFFSET..TAG_OFFSET + TAG_LEN];
      var iv := ct[IV_OFFSET..IV_OFFSET + IvLength(suite)];
      var text := ct[CIPHER_OFFSET..];
      if suite == SM4 {
        p := Some(c.unctr(key, iv, text));
      } else {
        p := c.open(suite, key, iv, ct[AAD_OFFSET..AAD_OFFSET + AAD_LEN], text, tag);
      }
    }

    method Decrypt(c: Ciphers, alg: SymAlg, ct: bytes, key: bytes) returns (rc: RC, p: bytes)
      modifies this
      ensures (rc, p) == DecryptResult(c, alg, ct, key)
    {
      rc, p := INVALID_PARAM, [];
      var s := CipherSuite(alg);
      if s == UNSPECIFIED {
        return;
      }
      suite := s;
      if ct == [] || |ct| >= CIPHERTEXT_MAX_LENGTH || key == [] {
        return;
      }
      rc := ERROR;
      if |ct| <= CIPHER_OFFSET || |key| * 8 != AlgLen(suite) {
        return;
      }
      var r := OpensslDecrypt(c, key, ct);
      if r.Some? {
        rc, p := OK, r.value;
      }
    }
  }
}
