/** What the calls accept, in plain numbers. */
module Limits {
  import opened Bytes
  import CE = CipherEnvelope
  import KT = KeyManagerType
  import KN = KeyNames
  import KS = KeyStore
  import KM = KeyManager
  import KMS = KeyManagerStart
  import KR = KeyManagerRuns
  import PM = PskManager
  import PR = PskRuns
  import JT = JwtToken
  import JS = JwtServer
  import JR = JwtRotation
  import Base64

  // ----- Key manager -----

  /** A start that returns OK on a stopped manager had its arguments accepted, for 2 to 1023 domains, and then runs with
      that number; outside of these it leaves everything alone. */
  lemma StartNeeds(s: KM.State, count: nat, env: KM.InitEnv)
    requires !s.inited
    ensures KM.Init(s, count, env).1 == KM.OK ==>
              && env.pathOk && env.tokenOk && env.listOk && 2 <= count <= 1023
              && KM.Init(s, count, env).0.inited && KM.Init(s, count, env).0.domainCount == count
    ensures KM.Init(s, count, env).0.store == s.store
    ensures !env.pathOk ==> KM.Init(s, count, env) == (s, KM.INVALID_PARAM)
    ensures env.pathOk && !(2 <= count <= 1023) ==> KM.Init(s, count, env) == (s, KM.DOMAIN_COUNT_INVALID)
  {
    hide KM.ParseAll, KM.ReadAll;
    KM.StopCodes(env.names);
  }

  /** A removal returns OK if and only if the manager is started, counts the domain, has the key, with an id of at most
      65535, and the command is reported as a success. Then exactly that key leaves the map. */
  lemma RemoveExactly(s: KM.State, d: nat, k: nat, cmd: KS.Cmd)
    ensures KM.RemoveKey(s, d, k, cmd).1 == KM.OK <==>
              && s.inited && d < s.domainCount && KMS.Has(s.keys, d, k) && k <= 65535
              && (cmd == KS.Silent || cmd == KS.Garbled
                  || (cmd == KS.Ran && KN.KeyName(d, k) in s.store && s.store[KN.KeyName(d, k)].deletable))
    ensures KM.RemoveKey(s, d, k, cmd).1 == KM.OK ==>
              forall x: nat, y: nat ::
                KMS.Has(KM.RemoveKey(s, d, k, cmd).0.keys, x, y) <==> KMS.Has(s.keys, x, y) && !(x == d && y == k)
    ensures KM.RemoveKey(s, d, k, cmd).1 != KM.OK ==> KM.RemoveKey(s, d, k, cmd).0.keys == s.keys
  {
    hide KN.KeyName, KM.WithoutKey;
    KMS.MapChanges(s.keys, d, k, 0);
  }

  /** In 32 bits, a key expires 1825 days after its creation, counted from the given number of days ahead. */
  lemma ExpiryInNumbers(time: int, now: nat, lead: nat)
    ensures KM.Expired(time, now, lead) <==> time + 157680000 <= (now % 0x1_0000_0000 + 86400 * lead) % 0x1_0000_0000
  {
  }

  /** The expiry check refuses leads of more than 1825 days, and succeeds if and only if some key of the domain does not
      expire within the lead. */
  lemma CheckExactly(s: KM.State, d: nat, lead: nat, now: nat)
    requires s.inited && s.keys != map[] && d < s.domainCount && d in s.keys
    ensures lead > 1825 ==> KM.CheckDomainKeysExpired(s, d, lead, now) == KM.INVALID_PARAM
    ensures lead <= 1825 && now + 86400 * lead < 0x1_0000_0000 ==>
              KM.CheckDomainKeysExpired(s, d, lead, now) ==
              if exists k: nat :: KMS.Has(s.keys, d, k) && s.keys[d][k] + 157680000 > now + 86400 * lead then KM.OK
              else KM.KEY_EXPIRED
  {
    if exists k: nat :: KMS.Has(s.keys, d, k) && s.keys[d][k] + 157680000 > now + 86400 * lead {
      var k: nat :| KMS.Has(s.keys, d, k) && s.keys[d][k] + 157680000 > now + 86400 * lead;
      assert lead <= 1825 && now + 86400 * lead < 0x1_0000_0000 ==> !KM.Expired(s.keys[d][k], now, lead);
    }
    forall k | k in s.keys[d] ensures KMS.Has(s.keys, d, k) {}
  }

  /** Encryption uses the greatest key of the domain, and takes two algorithms only. */
  lemma EncryptNeeds(s: KM.State, c: CE.Ciphers, alg: CE.SymAlg, d: nat, p: bytes, ex: bool, draw: CE.Draw)
    requires c.Lawful() && CE.Fits(draw, alg, |p|) && KM.Encrypt(s, c, alg, d, p, ex, draw).0 == KM.OK
    ensures s.inited && d < s.domainCount && ex && 1 <= |p| < 1048576
    ensures alg == CE.AES256_GCM || alg == CE.CHACHA20_POLY1305
    ensures KMS.Has(s.keys, d, KR.LatestKey(s, d))
    ensures forall k: nat :: KMS.Has(s.keys, d, k) ==> k <= KR.LatestKey(s, d)
  {
    hide Base64.Encode, KM.Header, KN.KeyName;
    KR.EncryptUsesLatest(s, c, alg, d, p, ex, draw);
    var inner: map<nat, int> := s.keys[d];
    forall k: nat | KMS.Has(s.keys, d, k) ensures k <= KR.LatestKey(s, d) {
      assert k in inner.Keys;
    }
  }

  /** Encryption returns OK if and only if the manager is started and counts the domain, the domain has a key, the
      algorithm is one of the two, the text has 1 to 2^20 - 1 bytes, the export of the greatest key runs and gives 32
      bytes whose print does not contain "Error", and the random bytes were drawn. */
  lemma EncryptExactly(s: KM.State, c: CE.Ciphers, alg: CE.SymAlg, d: nat, p: bytes, ex: bool, draw: CE.Draw)
    requires c.Lawful() && CE.Fits(draw, alg, |p|)
    ensures KM.Encrypt(s, c, alg, d, p, ex, draw).0 == KM.OK <==>
              && s.inited && d < s.domainCount && KMS.Has(s.keys, d, KR.LatestKey(s, d))
              && (alg == CE.AES256_GCM || alg == CE.CHACHA20_POLY1305) && 1 <= |p| < 1048576
              && ex && draw.iv.Some? && draw.aad.Some?
              && var name := KN.KeyName(d, KR.LatestKey(s, d));
                 && name in s.store && s.store[name].exportable && |s.store[name].material| == 32
                 && !KN.SaysError(Base64.Encode(s.store[name].material))
  {
    hide Base64.Encode, KM.Header, KN.KeyName, KN.SaysError, CE.EncryptResult;
    if KMS.Has(s.keys, d, KR.LatestKey(s, d)) && KN.KeyName(d, KR.LatestKey(s, d)) in s.store {
      var material := s.store[KN.KeyName(d, KR.LatestKey(s, d))].material;
      if alg != CE.UNKNOWN_ALG && draw.iv.Some? && draw.aad.Some? {
        CE.EncryptsByName(c, alg, p, material, draw);
      }
    }
    if KM.Encrypt(s, c, alg, d, p, ex, draw).0 == KM.OK {
      KR.EncryptUsesLatest(s, c, alg, d, p, ex, draw);
    }
  }

  /** A stopped manager answers everything alike and changes nothing. */
  lemma StoppedCodes(s: KM.State, d: nat, k: nat, env: KM.CreateEnv, cmd: KS.Cmd, lead: nat, now: nat,
                     regen: nat -> KM.Regen)
    requires !s.inited
    ensures KM.CreateKey(s, d, env) == (s, KM.UNINITED, 0) && KM.RemoveKey(s, d, k, cmd) == (s, KM.UNINITED)
    ensures KM.CheckDomainKeysExpired(s, d, lead, now) == KM.UNINITED
    ensures KM.AutoUpdate(s, d, lead, now, regen) == (s, KM.UNINITED)
  {
  }

  /** A started manager refuses these without changing anything (creation may leave the domain in the map, without
      keys), and with these codes; it does not start again. */
  lemma RefusalCodes(s: KM.State, d: nat, k: nat, env: KM.CreateEnv, cmd: KS.Cmd, lead: nat, now: nat,
                     regen: nat -> KM.Regen)
    requires s.inited
    ensures d >= s.domainCount ==> KM.CreateKey(s, d, env) == (s, KM.INVALID_PARAM, 0)
    ensures KM.CreateKey(s, d, env).1 != KM.OK ==> KM.CreateKey(s, d, env).2 == 0
    ensures s.keys == map[] ==> KM.RemoveKey(s, d, k, cmd) == (s, KM.ERROR)
    ensures s.keys != map[] && !(d < s.domainCount && k <= 65535 && KMS.Has(s.keys, d, k)) ==>
              KM.RemoveKey(s, d, k, cmd) == (s, KM.INVALID_PARAM)
    ensures s.keys == map[] ==>
              && KM.CheckDomainKeysExpired(s, d, lead, now) == KM.ERROR
              && KM.AutoUpdate(s, d, lead, now, regen) == (s, KM.ERROR)
    ensures s.keys != map[] && !(d < s.domainCount && d in s.keys && lead <= 1825) ==>
              && KM.CheckDomainKeysExpired(s, d, lead, now) == KM.INVALID_PARAM
              && KM.AutoUpdate(s, d, lead, now, regen) == (s, KM.INVALID_PARAM)
    ensures forall count: nat, ienv: KM.InitEnv :: KM.Init(s, count, ienv) == (s, KM.OK)
  {
    hide KN.KeyName, KM.UpdateKeys, KM.ParseAll, KM.ReadAll;
  }

  /** Encryption and decryption refuse with these codes, in this order. */
  lemma CipherCodes(s: KM.State, c: CE.Ciphers, alg: CE.SymAlg, d: nat, text: bytes, ex: bool, draw: CE.Draw)
    requires CE.Fits(draw, alg, |text|)
    ensures var given := d < s.domainCount && d in s.keys && (alg == CE.AES256_GCM || alg == CE.CHACHA20_POLY1305);
            var code := if !s.inited then KM.UNINITED else if s.keys == map[] then KM.ERROR else KM.INVALID_PARAM;
            && (!(s.inited && s.keys != map[] && given && 1 <= |text| < 1048576) ==>
                  KM.Encrypt(s, c, alg, d, text, ex, draw) == (code, []))
            && (!(s.inited && s.keys != map[] && given && 1 <= |text| < 2097152) ==>
                  KM.Decrypt(s, c, alg, d, text, ex) == (code, []))
  {
    hide Base64.Encode, Base64.Decode, KN.KeyName, KM.ParseHeader;
  }

  /** Past these checks, decryption refuses as invalid exactly a decoded text that is shorter than 7 bytes, or does not
      begin with version 1, the number of the algorithm and the two bytes of the domain. Of the others it gives back
      what the cipher makes of the rest under the key that the next two bytes name, if the map has it and its export
      gives some material. */
  lemma DecryptExactly(s: KM.State, c: CE.Ciphers, alg: CE.SymAlg, d: nat, text: bytes, ex: bool)
    requires s.inited && d < s.domainCount && d in s.keys && 1 <= |text| < 2097152
    requires alg == CE.AES256_GCM || alg == CE.CHACHA20_POLY1305
    ensures var raw := Base64.Decode(text);
            var named := && |raw| >= 7 && raw[0] == 1 && raw[1] == (if alg == CE.AES256_GCM then 1 else 4)
                         && raw[2] as int * 256 + raw[3] as int == d;
            if !named then KM.Decrypt(s, c, alg, d, text, ex) == (KM.INVALID_PARAM, [])
            else
              var k: nat := raw[4] as int * 256 + raw[5] as int;
              var name := KN.KeyName(d, k);
              var made := if KMS.Has(s.keys, d, k) && name in s.store
                then CE.DecryptResult(c, alg, raw[6..], s.store[name].material) else (CE.ERROR, []);
              KM.Decrypt(s, c, alg, d, text, ex) ==
              if && KMS.Has(s.keys, d, k) && ex && name in s.store && s.store[name].exportable
                 && !KN.SaysError(Base64.Encode(s.store[name].material)) && made.0 == CE.OK && made.1 != []
              then (KM.OK, made.1) else (KM.ERROR, [])
  {
    hide Base64.Encode, Base64.Decode, KN.KeyName, KN.SaysError, CE.Opened;
    var raw := Base64.Decode(text);
    if |raw| >= 7 {
      Be2(raw[2], raw[3]);
      Be2(raw[4], raw[5]);
      assert raw[2..4] == [raw[2], raw[3]] && raw[4..6] == [raw[4], raw[5]];
    }
  }

  /** When every deletion is reported as a success, deleting all keys empties the map, and the store loses exactly the
      keys of the map whose deletion ran. */
  lemma DeleteAllExactly(s: KM.State, cmds: bytes -> KS.Cmd)
    requires KM.AllDeletable(s, cmds)
    ensures !s.inited ==> KM.DeleteAllKey(s, cmds) == (s, KM.UNINITED)
    ensures s.inited ==>
              && KM.DeleteAllKey(s, cmds).1 == KM.OK && KM.DeleteAllKey(s, cmds).0.keys == map[]
              && forall n :: n in s.store ==>
                   (n !in KM.DeleteAllKey(s, cmds).0.store <==>
                     cmds(n) == KS.Ran && exists d, k :: KMS.Has(s.keys, d, k) && n == KN.KeyName(d, k))
  {
    hide KN.KeyName;
    if s.inited {
      forall n ensures n in KM.NamesOf(s.keys) <==> exists d, k :: KMS.Has(s.keys, d, k) && n == KN.KeyName(d, k) {
        if n in KM.NamesOf(s.keys) {
          var d, k :| d in s.keys && k in s.keys[d] && n == KN.KeyName(d, k);
          assert KMS.Has(s.keys, d, k);
        }
      }
    }
  }

  /** The ciphertext before its Base64 encoding: version 1, number of the algorithm, domain and key in two bytes each,
      and what the cipher made. */
  lemma CiphertextBytes(s: KM.State, c: CE.Ciphers, alg: CE.SymAlg, d: nat, p: bytes, ex: bool, draw: CE.Draw)
    requires c.Lawful() && CE.Fits(draw, alg, |p|) && KM.Encrypt(s, c, alg, d, p, ex, draw).0 == KM.OK
    requires d < 65536 && KR.LatestKey(s, d) < 65536 && KN.KeyName(d, KR.LatestKey(s, d)) in s.store
    ensures var raw := Base64.Decode(KM.Encrypt(s, c, alg, d, p, ex, draw).1);
            var made := CE.EncryptResult(c, alg, p, s.store[KN.KeyName(d, KR.LatestKey(s, d))].material, draw);
            && made.0 == CE.OK && |raw| == 6 + |made.1| && raw[6..] == made.1
            && raw[0] == 1 && raw[1] == (if alg == CE.AES256_GCM then 1 else 4)
            && raw[2] as int * 256 + raw[3] as int == d && raw[4] as int * 256 + raw[5] as int == KR.LatestKey(s, d)
  {
    hide Base64.Encode, Base64.Decode, KN.KeyName, CE.EncryptResult;
    EncryptNeeds(s, c, alg, d, p, ex, draw);
    KR.EncryptUsesLatest(s, c, alg, d, p, ex, draw);
    var k := KR.LatestKey(s, d);
    var made := CE.EncryptResult(c, alg, p, s.store[KN.KeyName(d, k)].material, draw);
    var h := KM.Header(KM.AlgByte(alg), d, k);
    Base64.RoundTrip(h + made.1);
    HeaderBytes(KM.AlgByte(alg), d, k);
    assert (h + made.1)[6..] == made.1;
  }

  lemma HeaderBytes(alg: byte, d: nat, k: nat)
    requires d < 65536 && k < 65536
    ensures var h := KM.Header(alg, d, k);
            && |h| == 6 && h[0] == 1 && h[1] == alg
            && h[2] as int * 256 + h[3] as int == d && h[4] as int * 256 + h[5] as int == k
  {
    var h := KM.Header(alg, d, k);
    KM.TwoBytes(d);
    KM.TwoBytes(k);
    assert h[2] == ToBe(d, 2)[0] && h[3] == ToBe(d, 2)[1] && h[4] == ToBe(k, 2)[0] && h[5] == ToBe(k, 2)[1];
  }

  // ----- PSK manager -----

  /** A start of a stopped manager is refused as invalid exactly outside these options, and otherwise answers what the
      key manager does. */
  lemma PskStartExactly(s: PM.State, o: PM.Options, env: PM.InitEnv)
    requires s.initCount <= 0
    ensures PM.Init(s, o, env).1 == PM.INVALID_PARAM <==>
              !(&& (o.alg == CE.AES256_GCM || o.alg == CE.CHACHA20_POLY1305)
                && (o.km == KT.OPENBAO || o.km == KT.VAULT)
                && o.domainId < o.domainCount && 1 <= o.pskMaxCount <= 4294967295 && env.pathOk && env.tokenOk)
    ensures PM.Init(s, o, env).1 == PM.OK ==>
              && env.kmOk && PM.Init(s, o, env).0.opts == o && PM.Init(s, o, env).0.initCount == s.initCount + 1
              && PM.Init(s, o, env).0.ids == s.ids && PM.Init(s, o, env).0.contents == s.contents
    ensures PM.Init(s, o, env).1 in {PM.OK, PM.INVALID_PARAM, PM.INIT_FAILED}
  {
  }

  /** The parameters that a running manager accepts. */
  predicate GoodParams(s: PM.State, p: PM.PskParam) {
    && s.nextId <= s.opts.pskMaxCount && 1 <= |p.issuer| <= 64 && 1 <= |p.subject| <= 64
    && p.pskLength in {256, 384, 512} && 1 <= p.validDays <= 365
  }

  lemma PskParamsExactly(c: PM.Codec, s: PM.State, p: PM.PskParam, content: bytes, env: PM.Env)
    requires s.initCount > 0
    ensures PM.Generate(c, s, p, env).1 == PM.INVALID_PARAM <==> !GoodParams(s, p)
    ensures PM.Import(c, s, p, content, env).1 == PM.INVALID_PARAM <==> !GoodParams(s, p) || |content| != p.pskLength
  {
    hide PM.Token;
  }

  /** A token is loaded if and only if it is not empty, the key manager can be asked and decrypts it, and it has a dot,
      metadata that parses, and values within these limits. */
  lemma PskLoadsExactly(c: PM.Codec, s: PM.State, text: bytes)
    ensures PM.LoadOne(c, s, text).1 == PM.OK <==>
              && text != [] && !PM.Downcasts(s)
              && var read := PM.DecryptAndParse(c, s.opts, text);
                 && read.Parsed? && read.meta.pskId <= s.opts.pskMaxCount
                 && 1 <= |read.meta.issuer| <= 64 && 1 <= |read.meta.subject| <= 64
                 && read.meta.pskLength in {256, 384, 512} && 1 <= read.meta.validDays <= 365
  {
    hide PM.SplitToken;
  }

  /** A deletion takes exactly the credential, and the entry of its content. */
  lemma PskDeleteExactly(s: PM.State, id: nat, cb: PM.Callback)
    ensures PM.Delete(s, id, cb).1 == PM.OK <==> s.initCount > 0 && id in s.ids && (cb.registered ==> cb.ok)
    ensures PM.Delete(s, id, cb).1 == PM.OK ==>
              && PM.Delete(s, id, cb).0.ids == s.ids - {id}
              && PM.Delete(s, id, cb).0.contents == s.contents - {s.ids[id].content}
              && PM.Delete(s, id, cb).0.nextId == s.nextId
  {
  }

  // ----- JWT server -----

  /** A start of a stopped server is refused as invalid exactly outside these options. */
  lemma JwtStartExactly(s: JS.State, o: JS.Options, env: JS.StartEnv, now: nat)
    requires !s.started
    ensures JS.Start(s, o, env, now).1 == JT.PARAM_INVALID <==>
              !(&& o.alg != JT.UNKNOWN_HMAC
                && (o.mode == JS.EXTERNAL_KEY
                    || (&& o.mode == JS.INTERNAL_KEY && 0 <= o.domainId < o.domainCount <= 1023
                        && -1 <= o.tokenExpireMinutes <= 32767
                        && -1 <= o.serverKeyExpiredHours && 60 * o.serverKeyExpiredHours <= 32767
                        && env.pathOk && env.tokenOk)))
    ensures JS.Start(s, o, env, now).1 == JT.OK ==>
              && JS.Start(s, o, env, now).0.started && JS.Start(s, o, env, now).0.opts == o
              && JS.Start(s, o, env, now).0.header == JT.Header(o.alg, o.tokenExpireMinutes, now)
              && (o.mode == JS.INTERNAL_KEY ==>
                    JS.Start(s, o, env, now).0.pass.key == [] && JS.Start(s, o, env, now).0.pass.oldKey == [])
  {
  }

  /** The least length of a server key. */
  function LeastKey(alg: JT.HmacAlg): nat {
    match alg
    case HMAC_SHA256 => 32
    case HMAC_SHA384 => 48
    case HMAC_SHA512 => 64
    case UNKNOWN_HMAC => 0
  }

  /** On a server with its own keys, setting and refreshing refuse exactly keys that are too short for the algorithm or
      1 MiB long or longer; setting also refuses a NUL. */
  lemma JwtKeysExactly(km: JS.Km, s: JS.State, key: bytes, env: JS.KeyEnv)
    requires JR.Running(s) && s.opts.alg != JT.UNKNOWN_HMAC
    ensures JS.SetEncryptionKey(km, s, key, env).1 == JT.PARAM_INVALID <==>
              !(LeastKey(s.opts.alg) <= |key| < 1048576) || 0 in key
    ensures JS.RefreshEncryptionKey(km, s, key, env).1 == JT.PARAM_INVALID <==>
              !(LeastKey(s.opts.alg) <= |key| < 1048576)
  {
  }

  /** A refresh keeps the time of the key that it makes the old one: at now the old key is live if and only if now is at
      most that time plus the hours of the server, and the present one by its own time. */
  lemma OldKeyLifetime(km: JS.Km, s: JS.State, key: bytes, env: JS.KeyEnv, now: nat)
    requires JR.Running(s) && JS.RefreshEncryptionKey(km, s, key, env).1 == JT.OK && km.Lawful()
    ensures s.pass.key != []
    ensures var t := JS.RefreshEncryptionKey(km, s, key, env).0;
            && t.pass.oldKey == s.pass.key && t.pass.hours == s.pass.hours
            && (JR.OldLive(t, now) <==> now <= s.pass.newTime + 3600 * s.pass.hours)
            && (JR.PresentLive(t, now) <==> now <= env.now + 3600 * s.pass.hours)
  {
  }
}
