/** src/cdf/modules/psk_management/psk_manager.cpp: pre-shared keys in two maps, one by id and one by content, written
    through to a store by callbacks and loaded back from it. */
module PskManager {
  import opened Bytes
  import Base64
  import Str = StrUtils
  import CE = CipherEnvelope
  import opened KeyManagerType

  const DAY_TO_SECOND_TIME := 86400
  const PSK_MAX_COUNT_LIMIT_MIN := 1
  const PSK_MAX_COUNT_LIMIT_MAX := 4294967295
  const DOT: byte := '.' as int

  /** The codes of PskManagerRC, and BAD_DOWNCAST for a call that casts the key manager's object to a class that it is
      not of. What such a call does is undefined; the state given with it is the one before the cast. */
  datatype RC =
    | OK | ERROR | INVALID_PARAM | UNINITED | INIT_FAILED | PSK_NOT_EXIST | PSK_HAS_EXPIRED
    | ENCRYPTO_FAIL | DECRYPTO_FAIL | CALL_BACK_EXECUTE_FAILED | BAD_DOWNCAST

  datatype Options = Options(alg: CE.SymAlg, km: KeyManagerTy, domainCount: nat, domainId: nat, pskMaxCount: nat)

  const DEFAULT_OPTIONS := Options(CE.AES256_GCM, OPENBAO, 2, 0, 100000)

  datatype Meta = Meta(pskId: nat, issuer: bytes, subject: bytes, pskLength: nat, validDays: nat,
                       beginTime: int, endTime: int)
  datatype Psk = Psk(meta: Meta, content: bytes)
  datatype PskParam = PskParam(issuer: bytes, subject: bytes, pskLength: nat, validDays: nat, beginTime: int)

  type ContentMap = map<bytes, nat>
  type IdMap = map<nat, Psk>
  type Tokens = map<nat, bytes>

  /** The fields of the manager, the tokens that the callbacks have stored outside, and type_ of the key manager. */
  datatype State = State(initCount: int, opts: Options, contents: ContentMap, ids: IdMap, nextId: nat, stored: Tokens,
                         kmType: Present)

  const FRESH := State(0, DEFAULT_OPTIONS, map[], map[], 1, map[], OPENBAO)

  /** A manager after its first Init. */
  function Started(o: Options): State {
    FRESH.(initCount := 1, opts := o, kmType := AfterInit(o.km, OPENBAO))
  }

  /** The next encryption or decryption would cast the key manager's object to a class that it is not of. */
  predicate Downcasts(s: State) {
    BadDowncast(s.opts.km, s.kmType)
  }

  // ----- Tokens -----

  /** The options that a call of the key manager gets. */
  datatype KeyRef = KeyRef(alg: CE.SymAlg, km: KeyManagerTy, domainId: nat)

  function Ref(o: Options): KeyRef {
    KeyRef(o.alg, o.km, o.domainId)
  }

  /** The same master key: algorithm and domain agree, whichever of the two managers is asked. */
  predicate SameKey(a: KeyRef, b: KeyRef) {
    a.alg == b.alg && a.domainId == b.domainId
  }

  /** What the manager calls: the key manager's encryption (with its random draws) and decryption, and the text form of
      the metadata. survives holds of metadata whose text gives it back (no NUL in the names, times that format and
      parse in local time). */
  datatype Codec = Codec(
    enc: (KeyRef, nat, bytes) -> Option<bytes>,
    dec: (KeyRef, bytes) -> Option<bytes>,
    show: Meta -> bytes,
    parse: bytes -> Option<Meta>,
    survives: Meta -> bool)
  {
    /** Decryption under either manager inverts encryption under either, and fails under another algorithm or domain;
        surviving metadata parses back. */
    ghost predicate Lawful() {
      && (forall k, n, p :: enc(k, n, p).Some? ==> enc(k, n, p).value != [])
      && (forall k, n, p, k' :: enc(k, n, p).Some? && SameKey(k', k) && k'.km != UNKNOWN ==>
            dec(k', enc(k, n, p).value) == Some(p))
      && (forall k, n, p, k' :: enc(k, n, p).Some? && !SameKey(k', k) ==> dec(k', enc(k, n, p).value) == None)
      && (forall m :: survives(m) ==> parse(show(m)) == Some(m))
    }
  }

  /** ConcatenatePskToken of the content and the printed metadata. */
  function Token(c: Codec, psk: Psk): bytes {
    Base64.Encode(psk.content) + [DOT] + Base64.Encode(c.show(psk.meta))
  }

  /** SplitPskToken: the two parts around the first dot, decoded. */
  function SplitToken(token: bytes): Option<(bytes, bytes)> {
    var dot := Str.Find(token, [DOT]);
    if dot == -1 then None
    else Some((Base64.Decode(token[..dot]), Base64.Decode(token[dot + 1..])))
  }

  datatype Parsed = Parsed(content: bytes, meta: Meta) | Refused(rc: RC)

  function DecryptAndParse(c: Codec, o: Options, text: bytes): Parsed {
    match c.dec(Ref(o), text)
    case None => Refused(DECRYPTO_FAIL)
    case Some(token) =>
      match SplitToken(token)
      case None => Refused(ERROR)
      case Some((content, json)) =>
        match c.parse(json)
        case None => Refused(ERROR)
        case Some(meta) => Parsed(content, meta)
  }

  // ----- Checks -----

  predicate NamesFit(issuer: bytes, subject: bytes) {
    1 <= |issuer| <= 64 && 1 <= |subject| <= 64
  }

  predicate LengthAllowed(n: nat) {
    n == 256 || n == 384 || n == 512
  }

  predicate ParamsValid(s: State, p: PskParam) {
    && s.nextId <= s.opts.pskMaxCount && NamesFit(p.issuer, p.subject)
    && LengthAllowed(p.pskLength) && 1 <= p.validDays <= 365
  }

  predicate MetaValid(o: Options, m: Meta) {
    m.pskId <= o.pskMaxCount && NamesFit(m.issuer, m.subject) && LengthAllowed(m.pskLength) && 1 <= m.validDays <= 365
  }

  /** The outside of Init: whether executable path and token are accepted, and the key manager's answer. */
  datatype InitEnv = InitEnv(pathOk: bool, tokenOk: bool, kmOk: bool)

  predicate OptionsValid(o: Options, env: InitEnv) {
    && (o.alg == CE.AES256_GCM || o.alg == CE.CHACHA20_POLY1305)
    && o.km != UNKNOWN && env.pathOk && env.tokenOk
    && o.domainId < o.domainCount
    && PSK_MAX_COUNT_LIMIT_MIN <= o.pskMaxCount <= PSK_MAX_COUNT_LIMIT_MAX
  }

  // ----- Operations -----

  /** Options are taken over before the key manager answers. */
  function Init(s: State, o: Options, env: InitEnv): (State, RC) {
    if s.initCount > 0 then (s.(initCount := s.initCount + 1), OK)
    else if !OptionsValid(o, env) then (s, INVALID_PARAM)
    else
      var t := s.(opts := o, kmType := AfterInit(o.km, s.kmType));
      if !env.kmOk then (t, INIT_FAILED) else (t.(initCount := s.initCount + 1), OK)
  }

  function Cleared(s: State): State {
    s.(contents := map[], ids := map[], nextId := 1, opts := DEFAULT_OPTIONS)
  }

  /** UnInit of either key manager always returns OK. */
  function UnInit(s: State): (State, RC) {
    var t := s.(initCount := s.initCount - 1);
    if t.initCount < 0 then (t.(initCount := 0), OK)
    else if t.initCount > 0 then (t, OK)
    else if s.opts.km == UNKNOWN then (t, ERROR)
    else (Cleared(t).(kmType := AfterUnInit(s.opts.km, s.kmType)), OK)
  }

  /** A registered callback runs and may fail; an unregistered one is skipped. */
  datatype Callback = Callback(registered: bool, ok: bool)
  {
    predicate Fails() { registered && !ok }
  }

  /** The outside of one call: what /dev/random gives, the cipher's draws, the clock, the callback. */
  datatype Env = Env(random: bytes, nonce: nat, now: int, cb: Callback)

  function Built(s: State, p: PskParam, content: bytes): Psk {
    Psk(Meta(s.nextId, p.issuer, p.subject, p.pskLength, p.validDays, p.beginTime,
             p.beginTime + p.validDays * DAY_TO_SECOND_TIME), content)
  }

  function Emplaced<K, V>(m: map<K, V>, k: K, v: V): (r: map<K, V>)
    ensures r.Keys == m.Keys + {k}
  {
    if k in m then m else m[k := v]
  }

  /** Into both maps, without overwriting; the counter is 32 bits wide. */
  function Added(s: State, psk: Psk): State {
    s.(contents := Emplaced<bytes, nat>(s.contents, psk.content, psk.meta.pskId),
       ids := Emplaced<nat, Psk>(s.ids, psk.meta.pskId, psk),
       nextId := (s.nextId + 1) % U32_LIMIT)
  }

  function Fed(s: State, id: nat, text: bytes, cb: Callback): State {
    if cb.registered then s.(stored := s.stored[id := text]) else s
  }

  /** What Generate and Import do with the new credential. */
  function Create(c: Codec, s: State, psk: Psk, env: Env): (State, RC, Option<Psk>) {
    if Downcasts(s) then (s, BAD_DOWNCAST, None)
    else match c.enc(Ref(s.opts), env.nonce, Token(c, psk))
    case None => (s, ENCRYPTO_FAIL, None)
    case Some(text) =>
      if env.cb.Fails() then (s, CALL_BACK_EXECUTE_FAILED, None)
      else (Added(Fed(s, psk.meta.pskId, text, env.cb), psk), OK, Some(psk))
  }

  function Generate(c: Codec, s: State, p: PskParam, env: Env): (State, RC, Option<Psk>) {
    if s.initCount <= 0 then (s, UNINITED, None)
    else if !ParamsValid(s, p) then (s, INVALID_PARAM, None)
    else if |env.random| != p.pskLength then (s, ERROR, None)
    else Create(c, s, Built(s, p, env.random), env)
  }

  function Import(c: Codec, s: State, p: PskParam, content: bytes, env: Env): (State, RC, Option<Psk>) {
    if s.initCount <= 0 then (s, UNINITED, None)
    else if !ParamsValid(s, p) || p.pskLength != |content| then (s, INVALID_PARAM, None)
    else Create(c, s, Built(s, p, content), env)
  }

  function Delete(s: State, id: nat, cb: Callback): (State, RC) {
    if s.initCount <= 0 then (s, UNINITED)
    else if id !in s.ids then (s, PSK_NOT_EXIST)
    else if cb.Fails() then (s, CALL_BACK_EXECUTE_FAILED)
    else (s.(contents := s.contents - {s.ids[id].content}, ids := s.ids - {id},
             stored := if cb.registered then s.stored - {id} else s.stored), OK)
  }

  /** The credential an update means. Dangling is the branch for a content entry whose id is not live. */
  datatype Target = Found(psk: Psk) | Inconsistent | Dangling | Neither

  function UpdateTarget(s: State, id: nat, content: bytes): Target {
    if id in s.ids && content in s.contents then
      if s.ids[id].meta.pskId == s.contents[content] then Found(s.ids[id]) else Inconsistent
    else if id in s.ids then Found(s.ids[id])
    else if content in s.contents then
      if s.contents[content] in s.ids then Found(s.ids[s.contents[content]]) else Dangling
    else Neither
  }

  function Refreshed(psk: Psk, content: bytes, now: int): Psk {
    Psk(psk.meta.(beginTime := now, endTime := now + psk.meta.validDays * DAY_TO_SECOND_TIME), content)
  }

  function Replaced(s: State, was: Psk, psk: Psk): State {
    s.(ids := Emplaced<nat, Psk>(s.ids - {was.meta.pskId}, psk.meta.pskId, psk),
       contents := Emplaced<bytes, nat>(s.contents - {was.content}, psk.content, psk.meta.pskId))
  }

  function Update(c: Codec, s: State, id: nat, content: bytes, env: Env): (State, RC, Option<Psk>) {
    if s.initCount <= 0 then (s, UNINITED, None)
    else match UpdateTarget(s, id, content)
      case Inconsistent => (s, INVALID_PARAM, None)
      case Dangling => (s, INVALID_PARAM, None)
      case Neither => (s, INVALID_PARAM, None)
      case Found(was) =>
        if was.meta.pskLength == 0 then (s, INVALID_PARAM, None)
        else if |env.random| != was.meta.pskLength then (s, ERROR, None)
        else if Downcasts(s) then (s, BAD_DOWNCAST, None)
        else
          var psk := Refreshed(was, env.random, env.now);
          match c.enc(Ref(s.opts), env.nonce, Token(c, psk))
          case None => (s, ENCRYPTO_FAIL, None)
          case Some(text) =>
            if env.cb.Fails() then (s, CALL_BACK_EXECUTE_FAILED, None)
            else (Replaced(Fed(s, psk.meta.pskId, text, env.cb), was, psk), OK, Some(psk))
  }

  function CheckPskValid(s: State, id: nat, now: int): RC {
    if s.initCount <= 0 then UNINITED
    else if id !in s.ids then PSK_NOT_EXIST
    else if now > s.ids[id].meta.endTime then PSK_HAS_EXPIRED
    else OK
  }

  /** An expired credential is updated, without a content; whether that worked is not reported. */
  function CheckPskValidAndAutoUpdate(c: Codec, s: State, id: nat, env: Env): (State, RC) {
    if CheckPskValid(s, id, env.now) != PSK_HAS_EXPIRED then (s, CheckPskValid(s, id, env.now))
    else (Update(c, s, id, [], env).0, PSK_HAS_EXPIRED)
  }

  /** One token of the list; the credential gets the counter as its new id. */
  function LoadOne(c: Codec, s: State, text: bytes): (State, RC) {
    if text == [] then (s, INVALID_PARAM)
    else if Downcasts(s) then (s, BAD_DOWNCAST)
    else match DecryptAndParse(c, s.opts, text)
      case Refused(rc) => (s, rc)
      case Parsed(content, meta) =>
        if !MetaValid(s.opts, meta) then (s, INVALID_PARAM)
        else (Added(s, Psk(meta.(pskId := s.nextId), content)), OK)
  }

  function LoadFrom(c: Codec, s: State, list: seq<bytes>): (State, RC) {
    if list == [] then (s, OK)
    else
      var (t, rc) := LoadFrom(c, s, list[..|list| - 1]);
      if rc != OK then (t, rc) else LoadOne(c, t, list[|list| - 1])
  }

  /** Everything is cleared and the options are reset before the first token is read. */
  function LoadAll(c: Codec, s: State, list: seq<bytes>): (State, RC) {
    if s.initCount <= 0 then (s, UNINITED)
    else if list == [] then (s, INVALID_PARAM)
    else LoadFrom(c, Cleared(s), list)
  }

  lemma {:induction false} LoadStops(c: Codec, s: State, list: seq<bytes>, n: nat)
    requires n <= |list| && LoadFrom(c, s, list[..n]).1 != OK
    ensures LoadFrom(c, s, list) == LoadFrom(c, s, list[..n])
    decreases |list|
  {
    hide LoadOne;
    if n < |list| {
      assert list[..|list| - 1][..n] == list[..n];
      LoadStops(c, s, list[..|list| - 1], n);
    } else {
      assert list[..n] == list;
    }
  }

  // ----- The class -----

  /** Where the callbacks put tokens. */
  class TokenStore {
    var tokens: Tokens

    method Put(id: nat, text: bytes, cb: Callback) returns (rc: RC)
      modifies this
      ensures rc == if cb.Fails() then CALL_BACK_EXECUTE_FAILED else OK
      ensures tokens == if cb.registered && cb.ok then old(tokens)[id := text] else old(tokens)
    {
      if !cb.registered {
        return OK;
      }
      if !cb.ok {
        return CALL_BACK_EXECUTE_FAILED;
      }
      tokens := tokens[id := text];
      rc := OK;
    }

    method Drop(id: nat, cb: Callback) returns (rc: RC)
      modifies this
      ensures rc == if cb.Fails() then CALL_BACK_EXECUTE_FAILED else OK
      ensures tokens == if cb.registered && cb.ok then old(tokens) - {id} else old(tokens)
    {
      if !cb.registered {
        return OK;
      }
      if !cb.ok {
        return CALL_BACK_EXECUTE_FAILED;
      }
      tokens := tokens - {id};
      rc := OK;
    }
  }

  class PskManager {
    var initCount: int
    var options: Options
    var pskContentMap: ContentMap
    var pskIdMap: IdMap
    var curPskMaxId: nat
    const codec: Codec
    const store: TokenStore
    const shared: SharedType

    constructor (codec: Codec, store: TokenStore, shared: SharedType)
      ensures this.codec == codec && this.store == store && this.shared == shared
      ensures St() == FRESH.(stored := store.tokens, kmType := shared.ty)
    {
      initCount, options, pskContentMap, pskIdMap, curPskMaxId := 0, DEFAULT_OPTIONS, map[], map[], 1;
      this.codec := codec;
      this.store := store;
      this.shared := shared;
    }

    function St(): State
      reads this, store, shared
    {
      State(initCount, options, pskContentMap, pskIdMap, curPskMaxId, store.tokens, shared.ty)
    }

    method DoInit(o: Options, env: InitEnv) returns (rc: RC)
      modifies this, shared
      ensures (St(), rc) == Init(old(St()), o, env)
    {
      if initCount > 0 {
        initCount := initCount + 1;
        return OK;
      }
      if !OptionsValid(o, env) {
        return INVALID_PARAM;
      }
      options := o;
      shared.Start(o.km);
      if !env.kmOk {
        return INIT_FAILED;
      }
      initCount := initCount + 1;
      rc := OK;
    }

    method ClearAllData()
      modifies this
      ensures St() == Cleared(old(St()))
    {
      pskContentMap, pskIdMap, curPskMaxId, options := map[], map[], 1, DEFAULT_OPTIONS;
    }

    method DoUnInit() returns (rc: RC)
      modifies this, shared
      ensures (St(), rc) == UnInit(old(St()))
    {
      initCount := initCount - 1;
      if initCount < 0 {
        initCount := 0;
        return OK;
      }
      if initCount > 0 {
        return OK;
      }
      if options.km == UNKNOWN {
        return ERROR;
      }
      shared.Stop(options.km);
      ClearAllData();
      rc := OK;
    }

    /** The common tail of GeneratePsk and ImportPsk. */
    method StoreNew(createPsk: Psk, env: Env) returns (rc: RC, psk: Option<Psk>)
      requires createPsk.meta.pskId == curPskMaxId
      modifies this, store
      ensures (St(), rc, psk) == Create(codec, old(St()), createPsk, env)
    {
      hide Token;
      if Downcasts(St()) {
        return BAD_DOWNCAST, None;
      }
      var text := codec.enc(Ref(options), env.nonce, Token(codec, createPsk));
      if text.None? {
        return ENCRYPTO_FAIL, None;
      }
      rc := store.Put(createPsk.meta.pskId, text.value, env.cb);
      if rc != OK {
        return rc, None;
      }
      pskContentMap := Emplaced<bytes, nat>(pskContentMap, createPsk.content, createPsk.meta.pskId);
      pskIdMap := Emplaced<nat, Psk>(pskIdMap, createPsk.meta.pskId, createPsk);
      curPskMaxId := (curPskMaxId + 1) % U32_LIMIT;
      psk := Some(createPsk);
    }

    method GeneratePsk(p: PskParam, env: Env) returns (rc: RC, psk: Option<Psk>)
      modifies this, store
      ensures (St(), rc, psk) == Generate(codec, old(St()), p, env)
    {
      if initCount <= 0 {
        return UNINITED, None;
      }
      if !ParamsValid(St(), p) {
        return INVALID_PARAM, None;
      }
      if |env.random| != p.pskLength {
        return ERROR, None;
      }
      rc, psk := StoreNew(Built(St(), p, env.random), env);
    }

    method ImportPsk(p: PskParam, content: bytes, env: Env) returns (rc: RC, psk: Option<Psk>)
      modifies this, store
      ensures (St(), rc, psk) == Import(codec, old(St()), p, content, env)
    {
      if initCount <= 0 {
        return UNINITED, None;
      }
      if !ParamsValid(St(), p) || p.pskLength != |content| {
        return INVALID_PARAM, None;
      }
      rc, psk := StoreNew(Built(St(), p, content), env);
    }

    method DeletePsk(id: nat, cb: Callback) returns (rc: RC)
      modifies this, store
      ensures (St(), rc) == Delete(old(St()), id, cb)
    {
      if initCount <= 0 {
        return UNINITED;
      }
      if id !in pskIdMap {
        return PSK_NOT_EXIST;
      }
      rc := store.Drop(id, cb);
      if rc != OK {
        return;
      }
      pskContentMap := pskContentMap - {pskIdMap[id].content};
      pskIdMap := pskIdMap - {id};
    }

    method UpdatePsk(id: nat, content: bytes, env: Env) returns (rc: RC, psk: Option<Psk>)
      modifies this, store
      ensures (St(), rc, psk) == Update(codec, old(St()), id, content, env)
    {
      if initCount <= 0 {
        return UNINITED, None;
      }
      var isValidPskId, isValidPskContent := id in pskIdMap, content in pskContentMap;
      var prePsk;
      if isValidPskId && isValidPskContent {
        if pskIdMap[id].meta.pskId != pskContentMap[content] {
          return INVALID_PARAM, None;
        }
        prePsk := pskIdMap[id];
      } else if isValidPskId {
        prePsk := pskIdMap[id];
      } else if isValidPskContent {
        if pskContentMap[content] !in pskIdMap {
          return INVALID_PARAM, None;
        }
        prePsk := pskIdMap[pskContentMap[content]];
      } else {
        return INVALID_PARAM, None;
      }
      if prePsk.meta.pskLength == 0 {
        return INVALID_PARAM, None;
      }
      if |env.random| != prePsk.meta.pskLength {
        return ERROR, None;
      }
      if Downcasts(St()) {
        return BAD_DOWNCAST, None;
      }
      var newPsk := Refreshed(prePsk, env.random, env.now);
      var text := codec.enc(Ref(options), env.nonce, Token(codec, newPsk));
      if text.None? {
        return ENCRYPTO_FAIL, None;
      }
      rc := store.Put(newPsk.meta.pskId, text.value, env.cb);
      if rc != OK {
        return rc, None;
      }
      pskIdMap := pskIdMap - {prePsk.meta.pskId};
      pskContentMap := pskContentMap - {prePsk.content};
      pskIdMap := Emplaced<nat, Psk>(pskIdMap, newPsk.meta.pskId, newPsk);
      pskContentMap := Emplaced<bytes, nat>(pskContentMap, newPsk.content, newPsk.meta.pskId);
      psk := Some(newPsk);
    }

    method DoCheckPskValidAndAutoUpdate(id: nat, env: Env) returns (rc: RC)
      modifies this, store
      ensures (St(), rc) == CheckPskValidAndAutoUpdate(codec, old(St()), id, env)
    {
      rc := CheckPskValid(St(), id, env.now);
      if rc == PSK_HAS_EXPIRED {
        var _, _ := UpdatePsk(id, [], env);
      }
    }

    /** One round of the loop of LoadAllPsk. */
    method LoadNext(text: bytes) returns (rc: RC)
      modifies this
      ensures (St(), rc) == LoadOne(codec, old(St()), text)
    {
      hide DecryptAndParse;
      if text == [] {
        return INVALID_PARAM;
      }
      if Downcasts(St()) {
        return BAD_DOWNCAST;
      }
      var parsed := DecryptAndParse(codec, options, text);
      if parsed.Refused? {
        return parsed.rc;
      }
      if !MetaValid(options, parsed.meta) {
        return INVALID_PARAM;
      }
      var psk := Psk(parsed.meta.(pskId := curPskMaxId), parsed.content);
      pskContentMap := Emplaced<bytes, nat>(pskContentMap, psk.content, psk.meta.pskId);
      pskIdMap := Emplaced<nat, Psk>(pskIdMap, psk.meta.pskId, psk);
      curPskMaxId := (curPskMaxId + 1) % U32_LIMIT;
      rc := OK;
    }

    method LoadAllPsk(list: seq<bytes>) returns (rc: RC)
      modifies this
      ensures (St(), rc) == LoadAll(codec, old(St()), list)
    {
      hide LoadOne;
      if initCount <= 0 {
        return UNINITED;
      }
      if list == [] {
        return INVALID_PARAM;
      }
      ClearAllData();
      ghost var s := St();
      var i := 0;
      assert list[..0] == [];
      while i < |list|
        invariant 0 <= i <= |list|
        invariant LoadFrom(codec, s, list[..i]) == (St(), OK)
      {
        assert list[..i + 1][..i] == list[..i];
        rc := LoadNext(list[i]);
        if rc != OK {
          LoadStops(codec, s, list, i + 1);
          return;
        }
        i := i + 1;
      }
      assert list[..i] == list;
      rc := OK;
    }
  }
}
