/** When the calls of the PSK manager and the JWT server succeed, what a success leaves, and the codes of refusals. */
module Answers {
  import opened Bytes
  import opened KeyManagerType
  import PM = PskManager
  import JT = JwtToken
  import JS = JwtServer
  import Str = StrUtils
  import Base64
  import Limits

  // ----- PSK manager -----

  /** The credential that these parameters ask for. */
  function Asked(id: nat, p: PM.PskParam, content: bytes): PM.Psk {
    PM.Psk(PM.Meta(id, p.issuer, p.subject, p.pskLength, p.validDays, p.beginTime,
                   p.beginTime + 86400 * p.validDays), content)
  }

  /** Its token can be encrypted, by an object of the right class, and the callback does not fail. */
  predicate Storable(c: PM.Codec, s: PM.State, psk: PM.Psk, env: PM.Env) {
    && !(s.opts.km == OPENBAO && s.kmType == VAULT)
    && c.enc(PM.KeyRef(s.opts.alg, s.opts.km, s.opts.domainId), env.nonce, PM.Token(c, psk)).Some?
    && (env.cb.registered ==> env.cb.ok)
  }

  /** The code of a credential that cannot be stored. */
  function StoreCode(c: PM.Codec, s: PM.State, psk: PM.Psk, env: PM.Env): PM.RC {
    if s.opts.km == OPENBAO && s.kmType == VAULT then PM.BAD_DOWNCAST
    else if c.enc(PM.KeyRef(s.opts.alg, s.opts.km, s.opts.domainId), env.nonce, PM.Token(c, psk)) == None then
      PM.ENCRYPTO_FAIL
    else PM.CALL_BACK_EXECUTE_FAILED
  }

  /** Generate returns OK if and only if the manager is running, the parameters are good, all random bytes came, and the
      credential can be stored; otherwise it changes nothing and returns the code of the first of these that fails. */
  lemma GenerateOkExactly(c: PM.Codec, s: PM.State, p: PM.PskParam, env: PM.Env)
    ensures var psk := Asked(s.nextId, p, env.random);
            PM.Generate(c, s, p, env).1 == PM.OK <==>
              && s.initCount > 0 && Limits.GoodParams(s, p) && |env.random| == p.pskLength && Storable(c, s, psk, env)
    ensures s.initCount <= 0 ==> PM.Generate(c, s, p, env) == (s, PM.UNINITED, None)
    ensures s.initCount > 0 && !Limits.GoodParams(s, p) ==> PM.Generate(c, s, p, env) == (s, PM.INVALID_PARAM, None)
    ensures s.initCount > 0 && Limits.GoodParams(s, p) && |env.random| != p.pskLength ==>
              PM.Generate(c, s, p, env) == (s, PM.ERROR, None)
    ensures var psk := Asked(s.nextId, p, env.random);
            s.initCount > 0 && Limits.GoodParams(s, p) && |env.random| == p.pskLength && !Storable(c, s, psk, env) ==>
              PM.Generate(c, s, p, env) == (s, StoreCode(c, s, psk, env), None)
  {
    hide PM.Token, PM.Added, PM.Fed;
    assert PM.Built(s, p, env.random) == Asked(s.nextId, p, env.random);
  }

  /** Import likewise, with the length of the given content. */
  lemma ImportOkExactly(c: PM.Codec, s: PM.State, p: PM.PskParam, content: bytes, env: PM.Env)
    ensures var psk := Asked(s.nextId, p, content);
            PM.Import(c, s, p, content, env).1 == PM.OK <==>
              && s.initCount > 0 && Limits.GoodParams(s, p) && |content| == p.pskLength && Storable(c, s, psk, env)
    ensures s.initCount <= 0 ==> PM.Import(c, s, p, content, env) == (s, PM.UNINITED, None)
    ensures s.initCount > 0 && !(Limits.GoodParams(s, p) && |content| == p.pskLength) ==>
              PM.Import(c, s, p, content, env) == (s, PM.INVALID_PARAM, None)
    ensures var psk := Asked(s.nextId, p, content);
            s.initCount > 0 && Limits.GoodParams(s, p) && |content| == p.pskLength && !Storable(c, s, psk, env) ==>
              PM.Import(c, s, p, content, env) == (s, StoreCode(c, s, psk, env), None)
  {
    hide PM.Token, PM.Added, PM.Fed;
    assert PM.Built(s, p, content) == Asked(s.nextId, p, content);
  }

  /** The credential of an update: content and begin are new. */
  function Anew(was: PM.Psk, content: bytes, now: int): PM.Psk {
    PM.Psk(PM.Meta(was.meta.pskId, was.meta.issuer, was.meta.subject, was.meta.pskLength, was.meta.validDays, now,
                   now + 86400 * was.meta.validDays), content)
  }

  /** Update returns OK if and only if the manager is running, a credential is found, as many random bytes came as it is
      long, and the new one can be stored; otherwise it changes nothing. */
  lemma UpdateOkExactly(c: PM.Codec, s: PM.State, id: nat, content: bytes, env: PM.Env)
    ensures s.initCount <= 0 ==> PM.Update(c, s, id, content, env) == (s, PM.UNINITED, None)
    ensures s.initCount > 0 && !PM.UpdateTarget(s, id, content).Found? ==>
              PM.Update(c, s, id, content, env) == (s, PM.INVALID_PARAM, None)
    ensures s.initCount > 0 && PM.UpdateTarget(s, id, content).Found? ==>
              var was := PM.UpdateTarget(s, id, content).psk;
              var psk := Anew(was, env.random, env.now);
              if was.meta.pskLength == 0 then PM.Update(c, s, id, content, env) == (s, PM.INVALID_PARAM, None)
              else if |env.random| != was.meta.pskLength then PM.Update(c, s, id, content, env) == (s, PM.ERROR, None)
              else if Storable(c, s, psk, env) then PM.Update(c, s, id, content, env).1 == PM.OK
              else PM.Update(c, s, id, content, env) == (s, StoreCode(c, s, psk, env), None)
  {
    hide PM.Token, PM.Replaced, PM.Fed;
    if PM.UpdateTarget(s, id, content).Found? {
      var was := PM.UpdateTarget(s, id, content).psk;
      assert PM.Refreshed(was, env.random, env.now) == Anew(was, env.random, env.now);
    }
  }

  /** The remaining refusals of a manager that is not running, or lacks the credential. */
  lemma PskCodes(c: PM.Codec, s: PM.State, id: nat, cb: PM.Callback, env: PM.Env, list: seq<bytes>, now: int)
    ensures s.initCount <= 0 ==>
              && PM.Delete(s, id, cb) == (s, PM.UNINITED) && PM.CheckPskValid(s, id, now) == PM.UNINITED
              && PM.CheckPskValidAndAutoUpdate(c, s, id, env) == (s, PM.UNINITED)
              && PM.LoadAll(c, s, list) == (s, PM.UNINITED)
    ensures s.initCount > 0 && id !in s.ids ==>
              && PM.Delete(s, id, cb) == (s, PM.PSK_NOT_EXIST) && PM.CheckPskValid(s, id, now) == PM.PSK_NOT_EXIST
              && PM.CheckPskValidAndAutoUpdate(c, s, id, env) == (s, PM.PSK_NOT_EXIST)
    ensures s.initCount > 0 && id in s.ids && cb.registered && !cb.ok ==>
              PM.Delete(s, id, cb) == (s, PM.CALL_BACK_EXECUTE_FAILED)
    ensures s.initCount > 0 ==> PM.LoadAll(c, s, []) == (s, PM.INVALID_PARAM)
  {
    hide PM.LoadFrom;
  }

  /** What stops the loading of one token, and its code: no text, the wrong class, no decryption, no dot or metadata
      that do not parse, values out of their limits. */
  lemma LoadCodes(c: PM.Codec, s: PM.State, text: bytes)
    ensures text == [] ==> PM.LoadOne(c, s, text) == (s, PM.INVALID_PARAM)
    ensures text != [] && s.opts.km == OPENBAO && s.kmType == VAULT ==> PM.LoadOne(c, s, text) == (s, PM.BAD_DOWNCAST)
    ensures text != [] && !(s.opts.km == OPENBAO && s.kmType == VAULT) ==>
              match c.dec(PM.KeyRef(s.opts.alg, s.opts.km, s.opts.domainId), text)
              case None => PM.LoadOne(c, s, text) == (s, PM.DECRYPTO_FAIL)
              case Some(token) =>
                match PM.SplitToken(token)
                case None => PM.LoadOne(c, s, text) == (s, PM.ERROR)
                case Some((content, json)) =>
                  match c.parse(json)
                  case None => PM.LoadOne(c, s, text) == (s, PM.ERROR)
                  case Some(meta) =>
                    if meta.pskId <= s.opts.pskMaxCount && InLimits(meta) then
                      PM.LoadOne(c, s, text) == (PM.Added(s, PM.Psk(meta.(pskId := s.nextId), content)), PM.OK)
                    else PM.LoadOne(c, s, text) == (s, PM.INVALID_PARAM)
  {
    hide PM.SplitToken, PM.Added;
  }

  predicate InLimits(m: PM.Meta) {
    && 1 <= |m.issuer| <= 64 && 1 <= |m.subject| <= 64
    && m.pskLength in {256, 384, 512} && 1 <= m.validDays <= 365
  }

  /** A count above one is counted down by UnInit, one and below end at zero; a start counts up. */
  lemma PskCounts(s: PM.State, o: PM.Options, env: PM.InitEnv)
    ensures PM.OptionsValid(o, env) && env.kmOk ==> PM.Init(PM.FRESH, o, env) == (PM.Started(o), PM.OK)
    ensures s.initCount > 0 ==> PM.Init(s, o, env) == (s.(initCount := s.initCount + 1), PM.OK)
    ensures s.initCount > 1 ==> PM.UnInit(s) == (s.(initCount := s.initCount - 1), PM.OK)
    ensures s.initCount <= 0 ==> PM.UnInit(s) == (s.(initCount := 0), PM.OK)
    ensures s.initCount == 1 && s.opts.km != UNKNOWN ==>
              && PM.UnInit(s).1 == PM.OK && PM.UnInit(s).0.initCount == 0 && PM.UnInit(s).0.nextId == 1
              && PM.UnInit(s).0.ids == map[] && PM.UnInit(s).0.contents == map[]
              && PM.UnInit(s).0.opts == PM.DEFAULT_OPTIONS && PM.UnInit(s).0.stored == s.stored
              && PM.UnInit(s).0.kmType == if s.opts.km == VAULT then OPENBAO else s.kmType
  {
  }

  // ----- JWT server -----

  predicate Cast(s: JS.State) {
    s.opts.km == OPENBAO && s.kmType == VAULT
  }

  predicate OwnKeys(s: JS.State) {
    s.started && s.opts.mode == JS.INTERNAL_KEY
  }

  /** The key has an allowed length. */
  predicate GoodKey(s: JS.State, key: bytes) {
    s.opts.alg != JT.UNKNOWN_HMAC && Limits.LeastKey(s.opts.alg) <= |key| < 1048576
  }

  /** A started server does not start again. A start with good options fails only with its own keys: for want of a key
      manager, or when that fails. */
  lemma StartOkExactly(s: JS.State, o: JS.Options, env: JS.StartEnv, now: nat)
    ensures s.started ==> JS.Start(s, o, env, now) == (s, JT.OK)
    ensures !s.started && JS.Start(s, o, env, now).1 != JT.PARAM_INVALID ==>
              var (t, rc) := JS.Start(s, o, env, now);
              && (rc == JT.OK <==> o.mode != JS.INTERNAL_KEY || (o.km != UNKNOWN && env.kmOk))
              && (rc == JT.ERROR <==> o.mode == JS.INTERNAL_KEY && o.km == UNKNOWN)
              && (rc == JT.KEY_MANAGER_INIT_FAIL <==> o.mode == JS.INTERNAL_KEY && o.km != UNKNOWN && !env.kmOk)
              && t.started == (rc == JT.OK)
              && t.kmType == if o.mode == JS.INTERNAL_KEY && o.km == VAULT then VAULT else s.kmType
  {
  }

  /** A stop always leaves the server stopped, with everything else as it was but the type of the key manager; it
      returns OK unless its own keys have no key manager. */
  lemma StopAnswers(s: JS.State)
    ensures JS.Stop(s).0 == s.(started := false, kmType := JS.Stop(s).0.kmType)
    ensures JS.Stop(s).0.kmType == if OwnKeys(s) && s.opts.km == VAULT then OPENBAO else s.kmType
    ensures JS.Stop(s).1 == if OwnKeys(s) && s.opts.km == UNKNOWN then JT.ERROR else JT.OK
  {
  }

  /** Setting a key returns OK if and only if the server runs with its own keys, the key has an allowed length and no
      NUL, and is encrypted by an object of the right class. Then it is the present key, as of now; otherwise nothing
      changes. */
  lemma SetOkExactly(km: JS.Km, s: JS.State, key: bytes, env: JS.KeyEnv)
    ensures var (t, rc) := JS.SetEncryptionKey(km, s, key, env);
            var text := km.enc((s.opts.km, s.opts.domainId), env.nonce, key);
            if !s.started then (t, rc) == (s, JT.ERROR)
            else if !OwnKeys(s) then (t, rc) == (s, JT.NOT_SUPPORTED)
            else if !GoodKey(s, key) || 0 in key then (t, rc) == (s, JT.PARAM_INVALID)
            else if Cast(s) then (t, rc) == (s, JT.BAD_DOWNCAST)
            else if text == None then (t, rc) == (s, JT.ENCRYPT_FAIL)
            else (t, rc) == (s.(pass := s.pass.(key := text.value, newTime := env.now)), JT.OK)
  {
  }

  /** Refreshing likewise, a present key given; its key and time go to the old slot before the new key is encrypted, so
      they are there also after a failure, and without a present key the old slot is emptied. */
  lemma RefreshOkExactly(km: JS.Km, s: JS.State, key: bytes, env: JS.KeyEnv)
    ensures var (t, rc) := JS.RefreshEncryptionKey(km, s, key, env);
            var text := km.enc((s.opts.km, s.opts.domainId), env.nonce, key);
            var moved := s.pass.(oldKey := s.pass.key, oldTime := s.pass.newTime);
            if !s.started then (t, rc) == (s, JT.ERROR)
            else if !OwnKeys(s) || !GoodKey(s, key) then (t, rc) == (s, JT.PARAM_INVALID)
            else if s.pass.key == [] then (t, rc) == (s.(pass := s.pass.(oldKey := [])), JT.REFRESH_KEY_FAIL)
            else if Cast(s) then (t, rc) == (s.(pass := moved), JT.BAD_DOWNCAST)
            else if text == None then (t, rc) == (s.(pass := moved), JT.REFRESH_KEY_FAIL)
            else (t, rc) == (s.(pass := moved.(key := text.value, newTime := env.now)), JT.OK)
  {
  }

  /** A text with a NUL at its end and nowhere before. */
  predicate Terminated(b: bytes) {
    |b| >= 1 && b[|b| - 1] == 0 && forall i :: 0 <= i < |b| - 1 ==> b[i] != 0
  }

  /** CreateToken returns OK if and only if the server is started, the input is a terminated text of at most 100 MiB,
      the buffer has room for the token and its NUL, and the key can be used: one that the caller gives, terminated; or
      the present one of the server, not older than its hours and decrypted by an object of the right class. Either
      must be as long as the algorithm needs. */
  lemma CreateOkExactly(km: JS.Km, hm: JT.Hmac, s: JS.State, key: bytes, input: bytes, room: nat, now: nat)
    requires hm.Lawful() && JT.HeaderFits(s.header)
    ensures var own := km.dec((s.opts.km, s.opts.domainId), s.pass.key);
            var used := if s.opts.mode == JS.EXTERNAL_KEY then key else if own.Some? then own.value else [];
            JS.CreateToken(km, hm, s, key, input, room, now).0 == JT.OK <==>
              && s.started && Terminated(input) && |input| <= 104857600 && s.opts.mode != JS.UNKNOWN_MODE
              && (s.opts.mode == JS.EXTERNAL_KEY ==> Terminated(key))
              && (s.opts.mode == JS.INTERNAL_KEY ==>
                    s.pass.key != [] && now <= s.pass.newTime + 3600 * s.pass.hours && !Cast(s) && own.Some?)
              && |used| >= Limits.LeastKey(s.header.alg) && |JT.TokenOf(hm, s.header, used, input)| < room
  {
    hide JT.ToString, JT.StripPadding;
    SignedIsNotEmpty(s.header, input);
  }

  lemma SignedIsNotEmpty(h: JT.Header, input: bytes)
    ensures JT.Signed(h, input) != []
  {
  }

  /** Its refusals past the checks of input and buffer, in their order. */
  lemma CreateCodes(km: JS.Km, hm: JT.Hmac, s: JS.State, key: bytes, input: bytes, room: nat, now: nat)
    requires s.started && Terminated(input) && |input| <= 104857600 && room > 0
    ensures var rc := JS.CreateToken(km, hm, s, key, input, room, now).0;
            var own := km.dec((s.opts.km, s.opts.domainId), s.pass.key);
            match s.opts.mode
            case UNKNOWN_MODE => rc == JT.PARAM_INVALID
            case EXTERNAL_KEY =>
              (if key == [] then rc == JT.KEY_PASS_INVALID
               else if !Terminated(key) then rc == JT.PARAM_INVALID
               else rc in {JT.OK, JT.CREATE_TOKEN_FAIL})
            case INTERNAL_KEY =>
              (if s.pass.key == [] || now > s.pass.newTime + 3600 * s.pass.hours then rc == JT.KEY_PASS_INVALID
               else if Cast(s) then rc == JT.BAD_DOWNCAST
               else if own == None then rc == JT.DECRYPT_FAIL
               else rc in {JT.OK, JT.CREATE_TOKEN_FAIL})
    ensures JS.CreateToken(km, hm, s, key, input, room, now).0 != JT.OK ==>
              JS.CreateToken(km, hm, s, key, input, room, now).1 == []
  {
    hide JT.Create;
  }

  /** The codes of the other refusals of CreateToken and ValidateToken, in their order. */
  lemma TokenCodes(km: JS.Km, hm: JT.Hmac, s: JS.State, key: bytes, text: bytes, room: nat, now: nat)
    ensures !s.started ==>
              && JS.CreateToken(km, hm, s, key, text, room, now) == (JT.ERROR, [])
              && JS.ValidateToken(km, hm, s, text, key, now) == JT.ERROR
    ensures s.started && !(Terminated(text) && |text| <= 104857600) ==>
              && JS.CreateToken(km, hm, s, key, text, room, now) == (JT.PARAM_INVALID, [])
              && JS.ValidateToken(km, hm, s, text, key, now) == JT.PARAM_INVALID
    ensures s.started && room == 0 ==> JS.CreateToken(km, hm, s, key, text, room, now) == (JT.PARAM_INVALID, [])
    ensures s.started && Terminated(text) && |text| <= 104857600 ==>
              match JT.OpenToken(text[..|text| - 1], now)
              case Refused(rc) => JS.ValidateToken(km, hm, s, text, key, now) == rc
              case Opened(_, _, _) =>
                && (s.opts.mode != JS.INTERNAL_KEY && key == [] ==>
                      JS.ValidateToken(km, hm, s, text, key, now) == JT.KEY_PASS_INVALID)
                && (s.opts.mode != JS.INTERNAL_KEY && key != [] && !Terminated(key) ==>
                      JS.ValidateToken(km, hm, s, text, key, now) == JT.PARAM_INVALID)
  {
    hide JT.OpenToken, JS.CreateText, JS.ValidateInternal, JT.CheckSignature;
  }

  /** A text that is not of three parts, or whose header does not read, is refused before anything else; a header that
      does not even decode has a code of its own. */
  lemma OpenCodes(token: bytes, now: int)
    ensures var parts := Str.Split(token, [JT.DOT]);
            if |parts| != 3 then JT.OpenToken(token, now) == JT.Refused(JT.PARAM_INVALID)
            else
              var header := Base64.Decode(JT.TryFixBase64(parts[0]));
              && (header == [] ==> JT.OpenToken(token, now) == JT.Refused(JT.ERROR))
              && (header != [] && JT.GetInfo(header) == None ==>
                    JT.OpenToken(token, now) == JT.Refused(JT.PARAM_INVALID))
  {
    hide Str.Split, Base64.Decode, JT.TryFixBase64, JT.GetInfo;
  }

  /** The length of a token is estimated if and only if the input has at most 100 MiB and the algorithm is known. */
  lemma EstimateOkExactly(h: JT.Header, n: nat)
    ensures JT.EstimateTokenLength(h, n).0 == JT.OK <==> n <= 104857600 && h.alg != JT.UNKNOWN_HMAC
    ensures JT.EstimateTokenLength(h, n).0 != JT.OK ==> JT.EstimateTokenLength(h, n) == (JT.PARAM_INVALID, 0)
  {
  }
}
