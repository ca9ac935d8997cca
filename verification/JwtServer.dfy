/** The server of jwt_auth_server.cpp and the two key slots of jwt_token.{h,cpp}: starting and stopping, setting and
    refreshing the key, creating and validating tokens. */
module JwtServer {
  import opened Bytes
  import opened JwtToken
  import opened KeyManagerType

  const JWT_KEY_LENGTH_MAX := 1048576
  const DOMAIN_ID_MAX := 1023
  const SECONDS_PER_HOUR := 3600
  const DEFAULT_SERVER_EXPIRE_HOURS := 24
  const MAX_ALLOWED_EXPIRE_HOURS := 65535

  datatype Mode = INTERNAL_KEY | EXTERNAL_KEY | UNKNOWN_MODE

  /** km chooses the key manager. */
  datatype Options = Options(mode: Mode, tokenExpireMinutes: int, alg: HmacAlg, km: KeyManagerTy,
                             serverKeyExpiredHours: int, domainCount: int, domainId: int)

  /** The key slots hold keys as the key manager encrypted them; empty means no key. */
  datatype KeyPass = KeyPass(key: bytes, oldKey: bytes, hours: nat, newTime: nat, oldTime: nat)

  /** The fields of the server, and type_ of the key manager. */
  datatype State = State(started: bool, opts: Options, header: Header, pass: KeyPass, kmType: Present)

  const NEW_SERVER := State(false, Options(INTERNAL_KEY, 480, HMAC_SHA256, OPENBAO, 24, 2, 0),
                            Header(HMAC_SHA256, 0, 0), KeyPass([], [], 24, 0, 0), OPENBAO)

  /** The master key in use: key manager and domain. */
  function Ref(o: Options): (KeyManagerTy, int) {
    (o.km, o.domainId)
  }

  /** The key manager's encryption, with its random draws, and decryption. */
  datatype Km = Km(enc: ((KeyManagerTy, int), nat, bytes) -> Option<bytes>,
                   dec: ((KeyManagerTy, int), bytes) -> Option<bytes>)
  {
    ghost predicate Lawful() {
      forall r, n, p :: enc(r, n, p).Some? ==> enc(r, n, p).value != [] && dec(r, enc(r, n, p).value) == Some(p)
    }
  }

  // ----- Starting and stopping -----

  datatype StartEnv = StartEnv(pathOk: bool, tokenOk: bool, kmOk: bool)

  predicate OptionsValid(o: Options, env: StartEnv) {
    && o.alg != UNKNOWN_HMAC
    && (o.mode == INTERNAL_KEY ==>
          && 0 <= o.domainId < o.domainCount <= DOMAIN_ID_MAX
          && -1 <= o.tokenExpireMinutes <= JWT_EXPIRE_TIME_MAX_MINUTE
          && -1 <= o.serverKeyExpiredHours && 60 * o.serverKeyExpiredHours <= JWT_EXPIRE_TIME_MAX_MINUTE
          && env.pathOk && env.tokenOk)
  }

  /** The constructor of JwtKeyPass, on the hours converted to 64 bits unsigned. */
  function NewPass(hours: int): KeyPass {
    var h := hours % U64_LIMIT;
    KeyPass([], [], if h > MAX_ALLOWED_EXPIRE_HOURS then DEFAULT_SERVER_EXPIRE_HOURS else h, 0, 0)
  }

  function Start(s: State, o: Options, env: StartEnv, now: nat): (State, RC) {
    if s.started then (s, OK)
    else if o.mode == UNKNOWN_MODE || !OptionsValid(o, env) then (s, PARAM_INVALID)
    else
      var t := s.(opts := o, header := Header(o.alg, o.tokenExpireMinutes, now));
      if o.mode != INTERNAL_KEY then (t.(started := true), OK)
      else if o.km == UNKNOWN then (t, ERROR)
      else
        var u := t.(kmType := AfterInit(o.km, s.kmType));
        if !env.kmOk then (u, KEY_MANAGER_INIT_FAIL)
        else (u.(started := true, pass := NewPass(o.serverKeyExpiredHours)), OK)
  }

  function Stop(s: State): (State, RC) {
    if !s.started then (s, OK)
    else if s.opts.mode != INTERNAL_KEY then (s.(started := false), OK)
    else if s.opts.km == UNKNOWN then (s.(started := false), ERROR)
    else (s.(started := false, kmType := AfterUnInit(s.opts.km, s.kmType)), OK)
  }

  // ----- Keys -----

  predicate IsExpired(p: KeyPass, now: nat) {
    p.newTime + p.hours * SECONDS_PER_HOUR < now
  }

  predicate IsOldKeyExpired(p: KeyPass, now: nat) {
    p.oldTime + p.hours * SECONDS_PER_HOUR < now
  }

  /** The outside of a key change: the cipher's draws and the clock. */
  datatype KeyEnv = KeyEnv(nonce: nat, now: nat)

  /** ty is type_ of the key manager. */
  function SetKey(km: Km, o: Options, ty: Present, p: KeyPass, key: bytes, env: KeyEnv): (KeyPass, RC) {
    if BadDowncast(o.km, ty) then (p, BAD_DOWNCAST)
    else match km.enc(Ref(o), env.nonce, key)
    case None => (p, ENCRYPT_FAIL)
    case Some(text) => (p.(key := text, newTime := env.now), OK)
  }

  /** The present key becomes the old one before the new one is set. Without a present key nothing can be copied. */
  function RefreshKey(km: Km, o: Options, ty: Present, p: KeyPass, key: bytes, env: KeyEnv): (KeyPass, RC) {
    if p.key == [] then (p.(oldKey := []), REFRESH_KEY_FAIL)
    else
      var (q, rc) := SetKey(km, o, ty, p.(oldKey := p.key, oldTime := p.newTime), key, env);
      (q, if rc != OK && rc != BAD_DOWNCAST then REFRESH_KEY_FAIL else rc)
  }

  predicate KeyFits(o: Options, key: bytes) {
    key != [] && |key| < JWT_KEY_LENGTH_MAX && o.alg != UNKNOWN_HMAC && |key| >= HmacLen(o.alg)
  }

  function SetEncryptionKey(km: Km, s: State, key: bytes, env: KeyEnv): (State, RC) {
    if !s.started then (s, ERROR)
    else if s.opts.mode != INTERNAL_KEY then (s, NOT_SUPPORTED)
    else if !KeyFits(s.opts, key) || 0 in key then (s, PARAM_INVALID)
    else var (p, rc) := SetKey(km, s.opts, s.kmType, s.pass, key, env); (s.(pass := p), rc)
  }

  function RefreshEncryptionKey(km: Km, s: State, key: bytes, env: KeyEnv): (State, RC) {
    if !s.started then (s, ERROR)
    else if s.opts.mode != INTERNAL_KEY || !KeyFits(s.opts, key) then (s, PARAM_INVALID)
    else var (p, rc) := RefreshKey(km, s.opts, s.kmType, s.pass, key, env); (s.(pass := p), rc)
  }

  // ----- Tokens -----

  /** A buffer that ends in its only NUL. */
  predicate CString(buf: bytes) {
    buf != [] && buf[|buf| - 1] == 0 && forall i :: 0 <= i < |buf| - 1 ==> buf[i] != 0
  }

  function CreateText(km: Km, hm: Hmac, s: State, key: bytes, input: bytes, now: nat): (RC, bytes) {
    match s.opts.mode
    case UNKNOWN_MODE => (PARAM_INVALID, [])
    case EXTERNAL_KEY =>
      if key == [] then (KEY_PASS_INVALID, [])
      else if !CString(key) then (PARAM_INVALID, [])
      else var (rc, text) := Create(hm, s.header, key, input); (if rc != OK then CREATE_TOKEN_FAIL else OK, text)
    case INTERNAL_KEY =>
      if s.pass.key == [] || IsExpired(s.pass, now) then (KEY_PASS_INVALID, [])
      else if BadDowncast(s.opts.km, s.kmType) then (BAD_DOWNCAST, [])
      else match km.dec(Ref(s.opts), s.pass.key)
        case None => (DECRYPT_FAIL, [])
        case Some(plain) =>
          var (rc, text) := Create(hm, s.header, plain, input); (if rc != OK then CREATE_TOKEN_FAIL else OK, text)
  }

  function CreateToken(km: Km, hm: Hmac, s: State, key: bytes, input: bytes, room: nat, now: nat): (RC, bytes) {
    if !s.started then (ERROR, [])
    else if input == [] || room == 0 || !CString(input) || |input| > JWT_INPUT_LENGTH_MAX then (PARAM_INVALID, [])
    else
      var (rc, text) := CreateText(km, hm, s, key, input, now);
      if rc != OK then (rc, [])
      else if room < |text| + 1 then (CREATE_TOKEN_FAIL, [])
      else (OK, text)
  }

  /** A buffer of the estimated length always holds the token: then creating fails only if the token cannot be made. */
  lemma EstimatedBufferSuffices(km: Km, hm: Hmac, s: State, key: bytes, input: bytes, now: nat)
    requires hm.Lawful() && s.started && HeaderFits(s.header) && CString(input) && |input| <= JWT_INPUT_LENGTH_MAX
    ensures EstimateTokenLength(s.header, |input|).0 == OK
    ensures CreateToken(km, hm, s, key, input, EstimateTokenLength(s.header, |input|).1, now)
         == CreateText(km, hm, s, key, input, now)
  {
    hide Create;
    EstimateSuffices(hm, s.header, seq(HmacLen(s.header.alg), _ => 0), input);
    if CreateText(km, hm, s, key, input, now).0 == OK {
      var k := if s.opts.mode == EXTERNAL_KEY then key else km.dec(Ref(s.opts), s.pass.key).value;
      MadeMeansSigned(hm, s.header, k, input);
      EstimateSuffices(hm, s.header, k, input);
    } else {
      FailedIsEmpty(km, hm, s, key, input, now);
    }
  }

  lemma MadeMeansSigned(hm: Hmac, h: Header, key: bytes, input: bytes)
    requires HeaderFits(h) && input != [] && Create(hm, h, key, input).0 == OK
    ensures CanSign(h, key, input)
  {
  }

  lemma FailedIsEmpty(km: Km, hm: Hmac, s: State, key: bytes, input: bytes, now: nat)
    requires CreateText(km, hm, s, key, input, now).0 != OK
    ensures CreateText(km, hm, s, key, input, now).1 == []
  {
    hide CalSignB64, Signed;
  }

  /** CheckCalculateSignature: with a key slot's key. */
  function SlotSignature(km: Km, hm: Hmac, o: Options, ty: Present, slot: bytes, alg: HmacAlg, signed: bytes)
    : (RC, bytes)
  {
    if slot == [] then (KEY_PASS_INVALID, [])
    else if BadDowncast(o.km, ty) then (BAD_DOWNCAST, [])
    else match km.dec(Ref(o), slot)
      case None => (DECRYPT_FAIL, [])
      case Some(key) => CalSignB64(hm, alg, signed, key)
  }

  /** ValidateTokenFromInternalKey: the present key first, whether or not it is the unexpired one of the two. */
  function ValidateInternal(km: Km, hm: Hmac, s: State, alg: HmacAlg, signed: bytes, sign: bytes, now: nat): RC {
    var p := s.pass;
    if (p.key == [] || IsExpired(p, now)) && (p.oldKey == [] || IsOldKeyExpired(p, now)) then KEY_PASS_INVALID
    else
      var (rc, mine) := SlotSignature(km, hm, s.opts, s.kmType, p.key, alg, signed);
      if rc != OK then rc
      else if mine == sign then OK
      else if p.oldKey == [] || IsOldKeyExpired(p, now) then TOKEN_VALIDATE_FAIL
      else
        var (rc', older) := SlotSignature(km, hm, s.opts, s.kmType, p.oldKey, alg, signed);
        if rc' != OK then rc' else if older != sign then TOKEN_VALIDATE_FAIL else OK
  }

  function ValidateToken(km: Km, hm: Hmac, s: State, buf: bytes, key: bytes, now: nat): RC {
    if !s.started then ERROR
    else if buf == [] || !CString(buf) || |buf| > JWT_INPUT_LENGTH_MAX then PARAM_INVALID
    else match OpenToken(buf[..|buf| - 1], now)
      case Refused(rc) => rc
      case Opened(alg, signed, sign) =>
        if s.opts.mode == INTERNAL_KEY then ValidateInternal(km, hm, s, alg, signed, sign, now)
        else if key == [] then KEY_PASS_INVALID
        else if !CString(key) then PARAM_INVALID
        else CheckSignature(hm, Opened(alg, signed, sign), key)
  }

  // ----- The classes -----

  class JwtKeyPass {
    var key: bytes
    var oldKey: bytes
    var serverKeyExpiredHours: nat
    var newKeyCreateTimeSec: nat
    var oldKeyCreateTimeSec: nat

    constructor (hours: int)
      ensures Pass() == NewPass(hours)
    {
      var h := hours % U64_LIMIT;
      key, oldKey, newKeyCreateTimeSec, oldKeyCreateTimeSec := [], [], 0, 0;
      serverKeyExpiredHours := if h > MAX_ALLOWED_EXPIRE_HOURS then DEFAULT_SERVER_EXPIRE_HOURS else h;
    }

    function Pass(): KeyPass
      reads this
    {
      KeyPass(key, oldKey, serverKeyExpiredHours, newKeyCreateTimeSec, oldKeyCreateTimeSec)
    }

    method DoSetKey(km: Km, o: Options, ty: Present, newKey: bytes, env: KeyEnv) returns (rc: RC)
      modifies this
      ensures (Pass(), rc) == SetKey(km, o, ty, old(Pass()), newKey, env)
    {
      if BadDowncast(o.km, ty) {
        return BAD_DOWNCAST;
      }
      var cipher := km.enc(Ref(o), env.nonce, newKey);
      if cipher.None? {
        return ENCRYPT_FAIL;
      }
      key := cipher.value;
      newKeyCreateTimeSec := env.now;
      rc := OK;
    }

    method DoRefreshKey(km: Km, o: Options, ty: Present, newKey: bytes, env: KeyEnv) returns (rc: RC)
      modifies this
      ensures (Pass(), rc) == RefreshKey(km, o, ty, old(Pass()), newKey, env)
    {
      oldKey := [];
      if key == [] {
        return REFRESH_KEY_FAIL;
      }
      oldKey := key;
      oldKeyCreateTimeSec := newKeyCreateTimeSec;
      rc := DoSetKey(km, o, ty, newKey, env);
      if rc != OK && rc != BAD_DOWNCAST {
        rc := REFRESH_KEY_FAIL;
      }
    }
  }

  class JwtAuthServer {
    var started: bool
    var options: Options
    var tokenHeader: Header
    var keyPass: JwtKeyPass
    const km: Km
    const hm: Hmac
    const shared: SharedType

    constructor (km: Km, hm: Hmac, shared: SharedType)
      ensures this.km == km && this.hm == hm && this.shared == shared && fresh(keyPass)
      ensures St() == NEW_SERVER.(kmType := shared.ty)
    {
      started, options, tokenHeader := false, NEW_SERVER.opts, NEW_SERVER.header;
      keyPass := new JwtKeyPass(24);
      this.km := km;
      this.hm := hm;
      this.shared := shared;
    }

    function St(): State
      reads this, keyPass, shared
    {
      State(started, options, tokenHeader, keyPass.Pass(), shared.ty)
    }

    method DoStart(o: Options, env: StartEnv, now: nat) returns (rc: RC)
      modifies this, shared
      ensures (St(), rc) == Start(old(St()), o, env, now)
      ensures keyPass == old(keyPass) || fresh(keyPass)
    {
      if started {
        return OK;
      }
      if o.mode == UNKNOWN_MODE || !OptionsValid(o, env) {
        return PARAM_INVALID;
      }
      options := o;
      tokenHeader := Header(o.alg, o.tokenExpireMinutes, now);
      if o.mode == INTERNAL_KEY {
        if o.km == UNKNOWN {
          return ERROR;
        }
        shared.Start(o.km);
        if !env.kmOk {
          return KEY_MANAGER_INIT_FAIL;
        }
        keyPass := new JwtKeyPass(o.serverKeyExpiredHours);
      }
      started := true;
      rc := OK;
    }

    method DoStop() returns (rc: RC)
      modifies this`started, shared
      ensures (St(), rc) == Stop(old(St()))
    {
      if !started {
        return OK;
      }
      started := false;
      if options.mode == INTERNAL_KEY {
        if options.km == UNKNOWN {
          return ERROR;
        }
        shared.Stop(options.km);
      }
      rc := OK;
    }

    method DoSetEncryptionKey(newKey: bytes, env: KeyEnv) returns (rc: RC)
      modifies keyPass
      ensures (St(), rc) == SetEncryptionKey(km, old(St()), newKey, env)
    {
      if !started {
        return ERROR;
      }
      if options.mode != INTERNAL_KEY {
        return NOT_SUPPORTED;
      }
      if !KeyFits(options, newKey) || 0 in newKey {
        return PARAM_INVALID;
      }
      rc := keyPass.DoSetKey(km, options, shared.ty, newKey, env);
    }

    method DoRefreshEncryptionKey(newKey: bytes, env: KeyEnv) returns (rc: RC)
      modifies keyPass
      ensures (St(), rc) == RefreshEncryptionKey(km, old(St()), newKey, env)
    {
      if !started {
        return ERROR;
      }
      if options.mode != INTERNAL_KEY || !KeyFits(options, newKey) {
        return PARAM_INVALID;
      }
      rc := keyPass.DoRefreshKey(km, options, shared.ty, newKey, env);
    }

    /** Writes the token and a NUL into the caller's buffer, or leaves it alone. */
    method DoCreateToken(key: bytes, input: bytes, token: array<byte>, now: nat) returns (rc: RC, tokenLen: nat)
      modifies token
      ensures rc == CreateToken(km, hm, St(), key, input, token.Length, now).0
      ensures rc == OK ==> tokenLen < token.Length &&
                           token[..tokenLen] == CreateToken(km, hm, St(), key, input, token.Length, now).1 &&
                           token[tokenLen] == 0 && token[tokenLen + 1..] == old(token[tokenLen + 1..])
      ensures rc != OK ==> tokenLen == token.Length && token[..] == old(token[..])
    {
      tokenLen := token.Length;
      if !started {
        return ERROR, tokenLen;
      }
      if input == [] || token.Length == 0 || !CString(input) || |input| > JWT_INPUT_LENGTH_MAX {
        return PARAM_INVALID, tokenLen;
      }
      var (code, text) := CreateText(km, hm, St(), key, input, now);
      if code != OK {
        return code, tokenLen;
      }
      if token.Length < |text| + 1 {
        return CREATE_TOKEN_FAIL, tokenLen;
      }
      rc, tokenLen := OK, |text|;
      forall i | 0 <= i <= tokenLen {
        token[i] := if i < tokenLen then text[i] else 0;
      }
    }

    method DoValidateToken(buf: bytes, key: bytes, now: nat) returns (rc: RC)
      ensures rc == ValidateToken(km, hm, St(), buf, key, now)
    {
      if !started {
        return ERROR;
      }
      if buf == [] || !CString(buf) || |buf| > JWT_INPUT_LENGTH_MAX {
        return PARAM_INVALID;
      }
      var parsed := OpenToken(buf[..|buf| - 1], now);
      if parsed.Refused? {
        return parsed.rc;
      }
      if options.mode == INTERNAL_KEY {
        rc := DoValidateInternal(parsed.alg, parsed.signed, parsed.sign, now);
        return;
      }
      if key == [] {
        return KEY_PASS_INVALID;
      }
      if !CString(key) {
        return PARAM_INVALID;
      }
      var (code, signB64) := CalSignB64(hm, parsed.alg, parsed.signed, key);
      rc := if code == OK && signB64 != parsed.sign then TOKEN_VALIDATE_FAIL else code;
    }

    method DoValidateInternal(alg: HmacAlg, signed: bytes, sign: bytes, now: nat) returns (rc: RC)
      ensures rc == ValidateInternal(km, hm, St(), alg, signed, sign, now)
    {
      var p := keyPass.Pass();
      if (p.key == [] || IsExpired(p, now)) && (p.oldKey == [] || IsOldKeyExpired(p, now)) {
        return KEY_PASS_INVALID;
      }
      var (code, signB64) := SlotSignature(km, hm, options, shared.ty, p.key, alg, signed);
      if code != OK {
        return code;
      }
      if signB64 != sign {
        if p.oldKey == [] || IsOldKeyExpired(p, now) {
          return TOKEN_VALIDATE_FAIL;
        }
        var (oldCode, oldSignB64) := SlotSignature(km, hm, options, shared.ty, p.oldKey, alg, signed);
        if oldCode != OK {
          return oldCode;
        }
        if oldSignB64 != sign {
          return TOKEN_VALIDATE_FAIL;
        }
      }
      rc := OK;
    }
  }
}
