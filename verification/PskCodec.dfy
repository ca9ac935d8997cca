/** The users of the key managers on top of them: what the PSK manager and the JWT server assume of encryption holds of
    KmCryptor, through either manager. */
module PskCodec {
  import opened Bytes
  import opened KeyNames
  import opened KeyStore
  import opened KeyManagerType
  import KM = KeyManager
  import opened KeyManagerStart
  import opened KeyManagerRuns
  import KmCryptor
  import CE = CipherEnvelope
  import PM = PskManager
  import PW = PskWrap
  import Base64

  /** What one encryption meets: the state of the key manager, the random draws and the buffer for a plaintext of a
      length, and whether the export command runs. */
  datatype Chance = Chance(at: KM.State, draw: nat -> CE.Draw, exportRuns: bool)

  /** The text form of the metadata, which the key manager has no part in. */
  datatype Text = Text(show: PM.Meta -> bytes, parse: bytes -> Option<PM.Meta>, survives: PM.Meta -> bool)
  {
    ghost predicate Lawful() {
      forall m :: survives(m) ==> parse(show(m)) == Some(m)
    }
  }

  /** KmCryptor of the manager asked for, whose object is of the class it is cast to. */
  function Enc(c: CE.Ciphers, ref: PM.KeyRef, ch: Chance, p: bytes): Option<bytes> {
    if !CE.Fits(ch.draw(|p|), ref.alg, |p|) || ref.km == UNKNOWN then None
    else
      var (rc, text) :=
        KmCryptor.Encrypt(ref.km, ref.km, ch.at, c, ref.alg, ref.domainId, p, ch.exportRuns, ch.draw(|p|));
      if rc == KmCryptor.OK then Some(text) else None
  }

  function Dec(t: KM.State, c: CE.Ciphers, ref: PM.KeyRef, text: bytes): Option<bytes> {
    if ref.km == UNKNOWN then None
    else
      var (rc, p) := KmCryptor.Decrypt(ref.km, ref.km, t, c, ref.alg, ref.domainId, text, true);
      if rc == KmCryptor.OK then Some(p) else None
  }

  /** Encrypting in any states, decrypting in state t, where export commands run. */
  function CodecOf(t: KM.State, c: CE.Ciphers, chances: nat -> Chance, text: Text): PM.Codec {
    PM.Codec((ref, n, p) => Enc(c, ref, chances(n), p), (ref, x) => Dec(t, c, ref, x),
             text.show, text.parse, text.survives)
  }

  /** State t has the latest key of every domain of s, as far as it is exported, under the same material. */
  ghost predicate Covers(s: KM.State, t: KM.State) {
    && t.inited && s.domainCount <= t.domainCount && s.domainCount <= KM.DOMAINID_MAX
    && forall d: nat :: d < s.domainCount && d in s.keys && s.keys[d] != map[] ==> CoversDomain(s, t, d)
  }

  ghost predicate CoversDomain(s: KM.State, t: KM.State, d: nat) {
    var k := LatestKey(s, d);
    ExportedFrom(s.store, KeyName(d, k)) ==>
      k <= KM.UINT16_MAX && Has(t.keys, d, k) && Stored(t, d, k, s.store[KeyName(d, k)].material)
  }

  predicate ExportedFrom(st: Store, name: bytes) {
    name in st && st[name].exportable
  }

  ghost predicate AllCovered(chances: nat -> Chance, t: KM.State) {
    forall n :: Covers(chances(n).at, t)
  }

  /** The laws that the PSK manager's results rest on: decryption through either manager inverts encryption through
      either, and fails under another algorithm or domain. */
  lemma KeyManagerIsLawful(t: KM.State, c: CE.Ciphers, chances: nat -> Chance, text: Text)
    requires c.Lawful() && text.Lawful() && AllCovered(chances, t)
    ensures CodecOf(t, c, chances, text).Lawful()
  {
    hide Enc, Dec, Covers, PM.SameKey;
    var codec := CodecOf(t, c, chances, text);
    forall ref, n, p | codec.enc(ref, n, p).Some? ensures codec.enc(ref, n, p).value != [] {
      DecInvertsEnc(t, c, ref, chances(n), p, ref.(km := OPENBAO));
    }
    forall ref, n, p, ref' | codec.enc(ref, n, p).Some? && PM.SameKey(ref', ref) && ref'.km != UNKNOWN
      ensures codec.dec(ref', codec.enc(ref, n, p).value) == Some(p)
    {
      DecInvertsEnc(t, c, ref, chances(n), p, ref');
    }
    forall ref, n, p, ref' | codec.enc(ref, n, p).Some? && !PM.SameKey(ref', ref)
      ensures codec.dec(ref', codec.enc(ref, n, p).value) == None
    {
      OtherKeyRefused(t, c, ref, chances(n), p, ref');
    }
  }

  lemma DecInvertsEnc(t: KM.State, c: CE.Ciphers, ref: PM.KeyRef, ch: Chance, p: bytes, ref': PM.KeyRef)
    requires c.Lawful() && Covers(ch.at, t) && Enc(c, ref, ch, p).Some?
    ensures Enc(c, ref, ch, p).value != []
    ensures PM.SameKey(ref', ref) && ref'.km != UNKNOWN ==> Dec(t, c, ref', Enc(c, ref, ch, p).value) == Some(p)
  {
    hide KM.Encrypt, KM.Decrypt, KeyName, LatestKey;
    var d := ref.domainId;
    EncryptUsesLatest(ch.at, c, ref.alg, d, p, ch.exportRuns, ch.draw(|p|));
    assert CoversDomain(ch.at, t, d);
    DecryptsExactly(ch.at, t, c, ref.alg, d, p, ch.exportRuns, ch.draw(|p|));
    EmptyRefused(t, c, ref.alg, d);
  }

  lemma EmptyRefused(t: KM.State, c: CE.Ciphers, alg: CE.SymAlg, d: nat)
    ensures KM.Decrypt(t, c, alg, d, [], true).0 != KM.OK
  {
  }

  lemma OtherKeyRefused(t: KM.State, c: CE.Ciphers, ref: PM.KeyRef, ch: Chance, p: bytes, ref': PM.KeyRef)
    requires c.Lawful() && Covers(ch.at, t) && Enc(c, ref, ch, p).Some? && !PM.SameKey(ref', ref)
    ensures Dec(t, c, ref', Enc(c, ref, ch, p).value) == None
  {
    hide KM.Encrypt, KM.Decrypt;
    OtherAlgOrDomainRefused(ch.at, t, c, ref.alg, ref.domainId, p, ch.exportRuns, ch.draw(|p|), ref'.alg,
                            ref'.domainId, true);
  }

  /** So they hold from a state to the end of any run that spares the latest keys and keeps them known: tokens of the
      PSK manager outlive restarts of the key manager under StaysDecryptable's condition. */
  lemma RunIsLawful(s: KM.State, ops: seq<Op>, c: CE.Ciphers, chances: nat -> Chance, text: Text)
    requires c.Lawful() && text.Lawful() && WellFormed(s) && forall n :: chances(n).at == s
    requires Run(s, ops).inited && s.domainCount <= Run(s, ops).domainCount
    requires forall d: nat :: d < s.domainCount && d in s.keys && s.keys[d] != map[] ==> KeepsLatest(s, ops, d)
    ensures CodecOf(Run(s, ops), c, chances, text).Lawful()
  {
    hide Run, KeepsLatest, CoversDomain;
    forall d: nat | d < s.domainCount && d in s.keys && s.keys[d] != map[] ensures CoversDomain(s, Run(s, ops), d) {
      LatestIsCovered(s, ops, d);
    }
    assert Covers(s, Run(s, ops));
    KeyManagerIsLawful(Run(s, ops), c, chances, text);
  }

  /** The latest key of the domain, if it is exported, is spared by the run and known at its end. */
  ghost predicate KeepsLatest(s: KM.State, ops: seq<Op>, d: nat) {
    var k := LatestKey(s, d);
    ExportedFrom(s.store, KeyName(d, k)) ==> k <= KM.UINT16_MAX && Spares(s, ops, d, k) && Known(s, ops, true, d, k)
  }

  lemma LatestIsCovered(s: KM.State, ops: seq<Op>, d: nat)
    requires WellFormed(s) && d < s.domainCount && d in s.keys && s.keys[d] != map[] && KeepsLatest(s, ops, d)
    ensures CoversDomain(s, Run(s, ops), d)
  {
    hide Run, KeyName, Spares, Known;
    var k := LatestKey(s, d);
    if ExportedFrom(s.store, KeyName(d, k)) {
      RunTracks(s, ops, true, d, k, s.store[KeyName(d, k)].material);
    }
  }

  // ----- What encrypts -----

  /** The state has a latest key for the options that exports and has the right length. */
  predicate Ready(s: KM.State, ref: PM.KeyRef) {
    && ref.km != UNKNOWN && KM.CipherParams(s, ref.domainId, KM.AlgByte(ref.alg)) == KM.OK
    && s.keys[ref.domainId] != map[]
    && Exported(s.store, KeyName(ref.domainId, LatestKey(s, ref.domainId)), true).Some?
    && CE.GoodKey(ref.alg, s.store[KeyName(ref.domainId, LatestKey(s, ref.domainId))].material)
  }

  /** The draws succeed. */
  predicate Drawn(ch: Chance, ref: PM.KeyRef, n: nat) {
    ch.exportRuns && CE.Fits(ch.draw(n), ref.alg, n) && ch.draw(n).iv.Some? && ch.draw(n).aad.Some?
  }

  /** In such a state exactly the texts of 1 to 2^20 - 1 bytes encrypt. */
  lemma EncryptsExactly(c: CE.Ciphers, ref: PM.KeyRef, ch: Chance, p: bytes)
    requires c.Lawful() && Ready(ch.at, ref) && Drawn(ch, ref, |p|)
    ensures Enc(c, ref, ch, p).Some? <==> 0 < |p| < CE.PLAINTEXT_MAX_LENGTH
  {
    hide KeyName, CE.EncryptResult, Base64.Encode, KM.Header, SaysError;
    var material := ch.at.store[KeyName(ref.domainId, LatestKey(ch.at, ref.domainId))].material;
    CE.EncryptDecrypt(c, ref.alg, p, material, ch.draw(|p|));
  }

  /** So what PskWrap asks of the key manager is met, if the metadata texts are short. */
  lemma EncryptsTheRun(t: KM.State, c: CE.Ciphers, chances: nat -> Chance, text: Text, o: PM.Options)
    requires c.Lawful() && Ready(chances(0).at, PM.Ref(o)) && forall n: nat :: Drawn(chances(0), PM.Ref(o), n)
    requires forall m :: |text.show(m)| <= 65536
    ensures PW.Encrypts(CodecOf(t, c, chances, text), o)
  {
    hide Enc, Ready, Drawn, Base64.Encode;
    var codec := CodecOf(t, c, chances, text);
    forall psk | PW.Plain(psk) ensures codec.enc(PM.Ref(o), PW.ENV.nonce, PM.Token(codec, psk)).Some? {
      Base64.EncodeLength(psk.content);
      Base64.EncodeLength(text.show(psk.meta));
      EncryptsExactly(c, PM.Ref(o), chances(0), PM.Token(codec, psk));
    }
  }
}
