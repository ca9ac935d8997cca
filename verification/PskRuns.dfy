/** Whole runs of the PSK manager: the two maps agree, ids are issued in order, sessions are counted. */
module PskRuns {
  import opened Bytes
  import opened PskManager
  import opened KeyManagerType

  datatype Op =
    | OpInit(o: Options, ienv: InitEnv)
    | OpUnInit
    | OpGenerate(p: PskParam, env: Env)
    | OpImport(p: PskParam, content: bytes, env: Env)
    | OpUpdate(id: nat, content: bytes, env: Env)
    | OpDelete(id: nat, cb: Callback)
    | OpCheck(id: nat, env: Env)
    | OpLoad(list: seq<bytes>)

  function Outcome(c: Codec, s: State, op: Op): (State, RC) {
    match op
    case OpInit(o, ienv) => Init(s, o, ienv)
    case OpUnInit => UnInit(s)
    case OpGenerate(p, env) => (Generate(c, s, p, env).0, Generate(c, s, p, env).1)
    case OpImport(p, content, env) => (Import(c, s, p, content, env).0, Import(c, s, p, content, env).1)
    case OpUpdate(id, content, env) => (Update(c, s, id, content, env).0, Update(c, s, id, content, env).1)
    case OpDelete(id, cb) => Delete(s, id, cb)
    case OpCheck(id, env) => CheckPskValidAndAutoUpdate(c, s, id, env)
    case OpLoad(list) => LoadAll(c, s, list)
  }

  function Step(c: Codec, s: State, op: Op): State {
    Outcome(c, s, op).0
  }

  function Run(c: Codec, s: State, ops: seq<Op>): State
    decreases |ops|
  {
    if ops == [] then s else Run(c, Step(c, s, ops[0]), ops[1..])
  }

  lemma {:induction false} RunAppend(c: Codec, s: State, a: seq<Op>, b: seq<Op>)
    ensures Run(c, s, a + b) == Run(c, Run(c, s, a), b)
    decreases |a|
  {
    hide Step;
    if a == [] {
      assert a + b == b;
    } else {
      assert (a + b)[1..] == a[1..] + b;
      RunAppend(c, Step(c, s, a[0]), a[1..], b);
    }
  }

  lemma OneStep(c: Codec, s: State, op: Op)
    ensures Run(c, s, [op]) == Step(c, s, op)
  {
    hide Step;
    assert [op][1..] == [];
    assert Run(c, Step(c, s, op), []) == Step(c, s, op);
  }

  // ----- The index agrees with what it indexes -----

  /** Each content entry names a live credential with exactly that content; each credential is under its own id. */
  ghost predicate Index(s: State) {
    && (forall x :: x in s.contents ==> s.contents[x] in s.ids && s.ids[s.contents[x]].content == x)
    && (forall id :: id in s.ids ==> s.ids[id].meta.pskId == id)
  }

  /** The invariant: also, the counter has passed every live id and cannot wrap. */
  ghost predicate Inv(s: State) {
    && Index(s)
    && s.nextId < U32_LIMIT && s.opts.pskMaxCount < U32_LIMIT - 1
    && forall id :: id in s.ids ==> 1 <= id < s.nextId
  }

  /** The limit leaves one number free, and lists are shorter than the counter is wide. */
  predicate Tame(op: Op) {
    match op
    case OpInit(o, _) => o.pskMaxCount < U32_LIMIT - 1
    case OpLoad(list) => |list| < U32_LIMIT - 1
    case _ => true
  }

  lemma {:induction false} RunInv(c: Codec, s: State, ops: seq<Op>)
    requires Inv(s) && 1 <= s.nextId && forall op :: op in ops ==> Tame(op)
    ensures Inv(Run(c, s, ops)) && 1 <= Run(c, s, ops).nextId
    decreases |ops|
  {
    hide Inv, Step;
    if ops == [] {
    } else {
      StepInv(c, s, ops[0]);
      RunInv(c, Step(c, s, ops[0]), ops[1..]);
    }
  }

  lemma StepInv(c: Codec, s: State, op: Op)
    requires Inv(s) && 1 <= s.nextId && Tame(op)
    ensures Inv(Step(c, s, op)) && 1 <= Step(c, s, op).nextId
  {
    hide Token, Create, Update, LoadFrom;
    match op
    case OpInit(o, ienv) =>
    case OpUnInit =>
    case OpGenerate(p, env) =>
      if ParamsValid(s, p) { CreateInv(c, s, Built(s, p, env.random), env); }
    case OpImport(p, content, env) =>
      if ParamsValid(s, p) { CreateInv(c, s, Built(s, p, content), env); }
    case OpUpdate(id, content, env) => UpdateInv(c, s, id, content, env);
    case OpDelete(id, cb) =>
    case OpCheck(id, env) => UpdateInv(c, s, id, [], env);
    case OpLoad(list) => LoadInv(c, Cleared(s), list);
  }

  lemma AddedInv(s: State, psk: Psk)
    requires Inv(s) && 1 <= s.nextId < U32_LIMIT - 1 && psk.meta.pskId == s.nextId
    ensures Inv(Added(s, psk)) && Added(s, psk).nextId == s.nextId + 1
  {
  }

  lemma CreateInv(c: Codec, s: State, psk: Psk, env: Env)
    requires Inv(s) && 1 <= s.nextId <= s.opts.pskMaxCount && psk.meta.pskId == s.nextId
    ensures Inv(Create(c, s, psk, env).0) && Create(c, s, psk, env).0.nextId >= 1
  {
    hide Token;
    var text := c.enc(Ref(s.opts), env.nonce, Token(c, psk));
    if text.Some? {
      AddedInv(Fed(s, psk.meta.pskId, text.value, env.cb), psk);
    }
  }

  /** In a state whose index agrees, an update means a live credential, stored under its own id; the branch for a
      dangling content entry is never taken. */
  lemma TargetIsLive(s: State, id: nat, content: bytes)
    requires Index(s)
    ensures !UpdateTarget(s, id, content).Dangling?
    ensures UpdateTarget(s, id, content).Found? ==>
              var was := UpdateTarget(s, id, content).psk;
              was.meta.pskId in s.ids && s.ids[was.meta.pskId] == was
              && (was.meta.pskId == id || was.content == content)
  {
  }

  lemma ReplacedInv(s: State, was: Psk, psk: Psk)
    requires Inv(s) && was.meta.pskId in s.ids && s.ids[was.meta.pskId] == was && psk.meta.pskId == was.meta.pskId
    ensures Inv(Replaced(s, was, psk)) && Replaced(s, was, psk).ids == s.ids[was.meta.pskId := psk]
  {
  }

  lemma UpdateInv(c: Codec, s: State, id: nat, content: bytes, env: Env)
    requires Inv(s)
    ensures Inv(Update(c, s, id, content, env).0) && Update(c, s, id, content, env).0.nextId == s.nextId
  {
    hide Token, Replaced;
    TargetIsLive(s, id, content);
    if UpdateTarget(s, id, content).Found? {
      var was := UpdateTarget(s, id, content).psk;
      var psk := Refreshed(was, env.random, env.now);
      var text := c.enc(Ref(s.opts), env.nonce, Token(c, psk));
      if text.Some? {
        ReplacedInv(Fed(s, psk.meta.pskId, text.value, env.cb), was, psk);
        ReplacedKeepsCounter(Fed(s, psk.meta.pskId, text.value, env.cb), was, psk);
      }
    }
  }

  lemma ReplacedKeepsCounter(s: State, was: Psk, psk: Psk)
    ensures Replaced(s, was, psk).nextId == s.nextId && Replaced(s, was, psk).opts == s.opts
    ensures Replaced(s, was, psk).initCount == s.initCount && Replaced(s, was, psk).stored == s.stored
  {
  }

  lemma {:induction false} LoadInv(c: Codec, s: State, list: seq<bytes>)
    requires Inv(s) && s.nextId == 1 && |list| < U32_LIMIT - 1
    ensures Inv(LoadFrom(c, s, list).0) && 1 <= LoadFrom(c, s, list).0.nextId <= 1 + |list|
    ensures LoadFrom(c, s, list).0.initCount == s.initCount
    decreases |list|
  {
    hide DecryptAndParse, Inv, Added;
    if list == [] {
    } else {
      var n := |list| - 1;
      LoadInv(c, s, list[..n]);
      var (t, rc) := LoadFrom(c, s, list[..n]);
      var parsed := DecryptAndParse(c, t.opts, list[n]);
      if rc == OK && parsed.Parsed? {
        AddedInv(t, Psk(parsed.meta.(pskId := t.nextId), parsed.content));
        AddedCount(t, Psk(parsed.meta.(pskId := t.nextId), parsed.content));
      }
    }
  }

  lemma AddedCount(s: State, psk: Psk)
    ensures Added(s, psk).initCount == s.initCount && Added(s, psk).opts == s.opts
  {
  }

  // ----- When the maps are inverses -----

  /** Every credential is found under its content. With Index: the two maps are inverse to each other. */
  ghost predicate Inverse(s: State) {
    forall id :: id in s.ids ==> s.ids[id].content in s.contents && s.contents[s.ids[id].content] == id
  }

  /** With inverse maps, an update finds exactly the live credential that every given name of it agrees on: the id if
      it is live, the content if it is. */
  lemma TargetExactly(s: State, id: nat, content: bytes, psk: Psk)
    requires Index(s) && Inverse(s)
    ensures UpdateTarget(s, id, content) == Found(psk) <==>
            && (id in s.ids || content in s.contents)
            && psk.meta.pskId in s.ids && s.ids[psk.meta.pskId] == psk
            && (id in s.ids ==> psk.meta.pskId == id)
            && (content in s.contents ==> psk.content == content)
  {
  }

  /** A new content differs from all live ones. */
  predicate Novel(c: Codec, s: State, op: Op) {
    match op
    case OpGenerate(_, env) => env.random !in s.contents
    case OpImport(_, content, _) => content !in s.contents
    case OpUpdate(_, _, env) => env.random !in s.contents
    case OpCheck(_, env) => env.random !in s.contents
    case OpLoad(list) => forall i, j :: 0 <= i < j < |list| ==> Loaded(c, list[i]) != Loaded(c, list[j])
    case _ => true
  }

  function Loaded(c: Codec, text: bytes): bytes {
    var parsed := DecryptAndParse(c, DEFAULT_OPTIONS, text);
    if parsed.Parsed? then parsed.content else []
  }

  ghost predicate AllNovel(c: Codec, s: State, ops: seq<Op>)
    decreases |ops|
  {
    ops != [] ==> Novel(c, s, ops[0]) && AllNovel(c, Step(c, s, ops[0]), ops[1..])
  }

  lemma {:induction false} RunInverse(c: Codec, s: State, ops: seq<Op>)
    requires Inv(s) && 1 <= s.nextId && Inverse(s)
    requires AllNovel(c, s, ops) && forall op :: op in ops ==> Tame(op)
    ensures Index(Run(c, s, ops)) && Inverse(Run(c, s, ops))
    decreases |ops|
  {
    hide Inverse, Step, Novel;
    if ops == [] {
    } else {
      StepInv(c, s, ops[0]);
      StepInverse(c, s, ops[0]);
      RunInverse(c, Step(c, s, ops[0]), ops[1..]);
    }
  }

  lemma StepInverse(c: Codec, s: State, op: Op)
    requires Inv(s) && 1 <= s.nextId && Inverse(s) && Novel(c, s, op) && Tame(op)
    ensures Inverse(Step(c, s, op))
  {
    hide Token, Create, Update, LoadFrom, DecryptAndParse;
    match op
    case OpInit(o, ienv) =>
    case OpUnInit =>
    case OpGenerate(p, env) => CreateInverse(c, s, Built(s, p, env.random), env);
    case OpImport(p, content, env) => CreateInverse(c, s, Built(s, p, content), env);
    case OpUpdate(id, content, env) => UpdateInverse(c, s, id, content, env);
    case OpDelete(id, cb) =>
    case OpCheck(id, env) => UpdateInverse(c, s, id, [], env);
    case OpLoad(list) =>
      if s.initCount > 0 && list != [] {
        LoadInverse(c, Cleared(s), list);
      }
  }

  lemma AddedInverse(s: State, psk: Psk)
    requires Inverse(s) && psk.content !in s.contents && psk.meta.pskId == s.nextId && s.nextId !in s.ids
    ensures Inverse(Added(s, psk)) && Added(s, psk).contents.Keys == s.contents.Keys + {psk.content}
  {
  }

  lemma CreateInverse(c: Codec, s: State, psk: Psk, env: Env)
    requires Inv(s) && Inverse(s) && psk.content !in s.contents && psk.meta.pskId == s.nextId
    ensures Inverse(Create(c, s, psk, env).0)
  {
    hide Token, Added;
    var text := c.enc(Ref(s.opts), env.nonce, Token(c, psk));
    if text.Some? {
      AddedInverse(Fed(s, psk.meta.pskId, text.value, env.cb), psk);
    }
  }

  lemma UpdateInverse(c: Codec, s: State, id: nat, content: bytes, env: Env)
    requires Inv(s) && Inverse(s) && env.random !in s.contents
    ensures Inverse(Update(c, s, id, content, env).0)
  {
    hide Token, UpdateTarget;
    TargetIsLive(s, id, content);
  }

  /** Each step that makes a credential keeps the maps inverse exactly when its content is not that of a live one. */
  lemma CreateInverseExactly(c: Codec, s: State, op: Op)
    requires Inv(s) && 1 <= s.nextId && Inverse(s) && (op.OpGenerate? || op.OpImport?) && Outcome(c, s, op).1 == OK
    ensures Inverse(Step(c, s, op)) <==> (if op.OpGenerate? then op.env.random else op.content) !in s.contents
  {
    hide Token;
    var content := if op.OpGenerate? then op.env.random else op.content;
    var psk := Built(s, op.p, content);
    var text := c.enc(Ref(s.opts), op.env.nonce, Token(c, psk)).value;
    AddedInverseExactly(Fed(s, s.nextId, text, op.env.cb), psk);
  }

  lemma AddedInverseExactly(s: State, psk: Psk)
    requires Inverse(s) && Index(s) && psk.meta.pskId == s.nextId && s.nextId !in s.ids
    ensures Inverse(Added(s, psk)) <==> psk.content !in s.contents
  {
    if psk.content in s.contents {
      assert Added(s, psk).ids[s.nextId] == psk && Added(s, psk).contents[psk.content] != s.nextId;
    } else {
      AddedInverse(s, psk);
    }
  }

  /** An update does exactly when its content is not that of another live credential. */
  lemma UpdateInverseExactly(c: Codec, s: State, id: nat, content: bytes, env: Env)
    requires Inv(s) && Inverse(s) && Update(c, s, id, content, env).1 == OK
    ensures UpdateTarget(s, id, content).Found?
    ensures Inverse(Update(c, s, id, content, env).0) <==>
            env.random !in s.contents || env.random == UpdateTarget(s, id, content).psk.content
  {
    hide Token, UpdateTarget, Replaced;
    TargetIsLive(s, id, content);
    var was := UpdateTarget(s, id, content).psk;
    var psk := Refreshed(was, env.random, env.now);
    var text := c.enc(Ref(s.opts), env.nonce, Token(c, psk)).value;
    ReplacedInverseExactly(Fed(s, psk.meta.pskId, text, env.cb), was, psk);
  }

  lemma ReplacedInverseExactly(s: State, was: Psk, psk: Psk)
    requires Index(s) && Inverse(s) && was.meta.pskId in s.ids && s.ids[was.meta.pskId] == was
    requires psk.meta.pskId == was.meta.pskId
    ensures Inverse(Replaced(s, was, psk)) <==> psk.content !in s.contents || psk.content == was.content
  {
    var r := Replaced(s, was, psk);
    assert r.ids == s.ids[was.meta.pskId := psk];
    if psk.content in s.contents && psk.content != was.content {
      assert r.contents[psk.content] == s.contents[psk.content] != was.meta.pskId;
    }
  }

  /** The content comes from a token of the list. */
  predicate FromList(c: Codec, list: seq<bytes>, x: bytes) {
    exists i :: 0 <= i < |list| && Loaded(c, list[i]) == x
  }

  lemma {:induction false} LoadInverse(c: Codec, s: State, list: seq<bytes>)
    requires s.ids == map[] && s.contents == map[] && s.nextId == 1 && s.opts == DEFAULT_OPTIONS
    requires |list| < U32_LIMIT - 1
    requires forall i, j :: 0 <= i < j < |list| ==> Loaded(c, list[i]) != Loaded(c, list[j])
    ensures Inverse(LoadFrom(c, s, list).0)
    ensures forall x :: x in LoadFrom(c, s, list).0.contents ==> FromList(c, list, x)
    decreases |list|
  {
    hide DecryptAndParse, MetaValid, Inverse, Added, Loaded;
    if list == [] {
      assert Inverse(s) by { EmptyInverse(s); }
    } else {
      var n := |list| - 1;
      LoadInverse(c, s, list[..n]);
      LoadInv(c, s, list[..n]);
      LoadKeepsCount(c, s, list[..n]);
      var (t, rc) := LoadFrom(c, s, list[..n]);
      var parsed := DecryptAndParse(c, t.opts, list[n]);
      if rc == OK && parsed.Parsed? {
        LoadedContent(c, list[n]);
        AddedInverse(t, Psk(parsed.meta.(pskId := t.nextId), parsed.content));
      }
      forall x | x in t.contents ensures FromList(c, list, x) {
        var i :| 0 <= i < n && Loaded(c, list[..n][i]) == x;
        assert list[..n][i] == list[i];
      }
    }
  }

  lemma EmptyInverse(s: State)
    requires s.ids == map[]
    ensures Inverse(s)
  {
  }

  lemma LoadedContent(c: Codec, text: bytes)
    requires DecryptAndParse(c, DEFAULT_OPTIONS, text).Parsed?
    ensures Loaded(c, text) == DecryptAndParse(c, DEFAULT_OPTIONS, text).content
  {
  }

  // ----- Failures -----

  /** A generate, import, update or delete that does not return OK changes nothing, inside or outside. */
  lemma FailureChangesNothing(c: Codec, s: State, op: Op)
    requires op.OpGenerate? || op.OpImport? || op.OpUpdate? || op.OpDelete?
    requires Outcome(c, s, op).1 != OK
    ensures Step(c, s, op) == s
  {
    hide Token, UpdateTarget;
  }

  // ----- Ids -----

  function IssuedBy(c: Codec, s: State, op: Op): seq<nat> {
    match op
    case OpGenerate(p, env) =>
      var psk := Generate(c, s, p, env).2; if psk.Some? then [psk.value.meta.pskId] else []
    case OpImport(p, content, env) =>
      var psk := Import(c, s, p, content, env).2; if psk.Some? then [psk.value.meta.pskId] else []
    case _ => []
  }

  /** The ids of the credentials a run creates, in order. */
  function Issued(c: Codec, s: State, ops: seq<Op>): seq<nat>
    decreases |ops|
  {
    if ops == [] then [] else IssuedBy(c, s, ops[0]) + Issued(c, Step(c, s, ops[0]), ops[1..])
  }

  /** One session: no reload, and no UnInit that ends it. */
  predicate Steady(s: State, op: Op) {
    s.initCount > 0 && !op.OpLoad? && (op.OpUnInit? ==> s.initCount > 1)
  }

  ghost predicate Session(c: Codec, s: State, ops: seq<Op>)
    decreases |ops|
  {
    ops != [] ==> Steady(s, ops[0]) && Session(c, Step(c, s, ops[0]), ops[1..])
  }

  lemma CreateCounts(c: Codec, s: State, psk: Psk, env: Env)
    ensures Create(c, s, psk, env).0.opts == s.opts && Create(c, s, psk, env).0.initCount == s.initCount
    ensures Create(c, s, psk, env).2 == None ==> Create(c, s, psk, env).0 == s
    ensures Create(c, s, psk, env).2 != None ==>
              Create(c, s, psk, env).2 == Some(psk) && Create(c, s, psk, env).0.nextId == (s.nextId + 1) % U32_LIMIT
  {
    hide Token;
  }

  lemma UpdateCounts(c: Codec, s: State, id: nat, content: bytes, env: Env)
    ensures Update(c, s, id, content, env).0.opts == s.opts
    ensures Update(c, s, id, content, env).0.initCount == s.initCount
    ensures Update(c, s, id, content, env).0.nextId == s.nextId
  {
    hide Token, UpdateTarget;
  }

  lemma SteadyStep(c: Codec, s: State, op: Op)
    requires Steady(s, op) && s.nextId < U32_LIMIT && s.opts.pskMaxCount < U32_LIMIT - 1
    ensures Step(c, s, op).opts == s.opts && Step(c, s, op).initCount > 0
    ensures (IssuedBy(c, s, op) == [] && Step(c, s, op).nextId == s.nextId)
         || (&& IssuedBy(c, s, op) == [s.nextId] && s.nextId <= s.opts.pskMaxCount
             && Step(c, s, op).nextId == s.nextId + 1)
  {
    hide Create, Update;
    match op
    case OpGenerate(p, env) => CreateCounts(c, s, Built(s, p, env.random), env);
    case OpImport(p, content, env) => CreateCounts(c, s, Built(s, p, content), env);
    case OpUpdate(id, content, env) => UpdateCounts(c, s, id, content, env);
    case OpCheck(id, env) => UpdateCounts(c, s, id, [], env);
    case _ =>
  }

  /** In one session ids come consecutively from the counter, each once, none above pskMaxCount. */
  lemma {:induction false} IdsAreConsecutive(c: Codec, s: State, ops: seq<Op>)
    requires Session(c, s, ops) && s.nextId < U32_LIMIT && s.opts.pskMaxCount < U32_LIMIT - 1
    ensures forall i :: 0 <= i < |Issued(c, s, ops)| ==> Issued(c, s, ops)[i] == s.nextId + i
    ensures Issued(c, s, ops) == [] || s.nextId + |Issued(c, s, ops)| - 1 <= s.opts.pskMaxCount
    ensures Run(c, s, ops).nextId == s.nextId + |Issued(c, s, ops)| && Run(c, s, ops).opts == s.opts
    decreases |ops|
  {
    hide Step, IssuedBy;
    if ops == [] {
    } else {
      SteadyStep(c, s, ops[0]);
      var t := Step(c, s, ops[0]);
      IdsAreConsecutive(c, t, ops[1..]);
      var first, later := IssuedBy(c, s, ops[0]), Issued(c, t, ops[1..]);
      var all := Issued(c, s, ops);
      assert all == first + later;
      if first == [] {
        assert all == later;
      } else {
        forall i | 0 <= i < |all| ensures all[i] == s.nextId + i {
          assert i > 0 ==> all[i] == later[i - 1];
        }
      }
    }
  }

  // ----- Counting sessions -----

  predicate Empty(s: State) {
    s.contents == map[] && s.ids == map[]
  }

  /** The count is never negative, and a count of zero means empty maps. */
  lemma {:induction false} CountInvariant(c: Codec, s: State, ops: seq<Op>)
    requires s.initCount >= 0 && s.opts.km != UNKNOWN && (s.initCount == 0 ==> Empty(s))
    ensures Run(c, s, ops).initCount >= 0 && Run(c, s, ops).opts.km != UNKNOWN
    ensures Run(c, s, ops).initCount == 0 ==> Empty(Run(c, s, ops))
    decreases |ops|
  {
    hide Step, Empty;
    if ops == [] {
    } else {
      CountStep(c, s, ops[0]);
      CountInvariant(c, Step(c, s, ops[0]), ops[1..]);
    }
  }

  lemma {:induction false} LoadKeepsCount(c: Codec, s: State, list: seq<bytes>)
    ensures LoadFrom(c, s, list).0.initCount == s.initCount && LoadFrom(c, s, list).0.opts == s.opts
    ensures LoadFrom(c, s, list).0.stored == s.stored && LoadFrom(c, s, list).0.kmType == s.kmType
    decreases |list|
  {
    hide DecryptAndParse;
    if list == [] {
    } else {
      LoadKeepsCount(c, s, list[..|list| - 1]);
    }
  }

  lemma CountStep(c: Codec, s: State, op: Op)
    requires s.initCount >= 0 && s.opts.km != UNKNOWN && (s.initCount == 0 ==> Empty(s))
    ensures Step(c, s, op).initCount >= 0 && Step(c, s, op).opts.km != UNKNOWN
    ensures Step(c, s, op).initCount == 0 ==> Empty(Step(c, s, op))
  {
    hide Token, UpdateTarget, LoadFrom;
    if op.OpLoad? {
      LoadKeepsCount(c, Cleared(s), op.list);
    }
  }

  /** An UnInit, with the next Init after it, gives back the credentials as they were if and only if it did not take the
      count to zero; otherwise the manager is empty. */
  lemma TeardownExactly(c: Codec, s: State, o: Options, ienv: InitEnv)
    requires s.initCount >= 1 && s.opts.km != UNKNOWN && !Empty(s) && OptionsValid(o, ienv) && ienv.kmOk
    ensures Empty(Run(c, s, [OpUnInit, OpInit(o, ienv)])) <==> s.initCount == 1
    ensures s.initCount > 1 ==> Run(c, s, [OpUnInit, OpInit(o, ienv)]) == s
  {
    var ops := [OpUnInit, OpInit(o, ienv)];
    assert ops[1..] == [OpInit(o, ienv)];
    OneStep(c, Step(c, s, ops[0]), ops[1]);
  }

  /** How many calls of UnInit a run of Init and UnInit leaves to be made, if it never reaches zero on the way. */
  function Depth(n: int, ops: seq<Op>): int
    decreases |ops|
  {
    if ops == [] || n <= 0 then n
    else Depth(if ops[0].OpUnInit? then n - 1 else n + 1, ops[1..])
  }

  /** Data survives until the matching UnInit: while the balance stays positive, Init and UnInit only count. */
  lemma {:induction false} SurvivesUntilMatched(c: Codec, s: State, ops: seq<Op>)
    requires s.initCount > 0 && forall op :: op in ops ==> op.OpInit? || op.OpUnInit?
    requires Depth(s.initCount, ops) > 0
    ensures Run(c, s, ops) == s.(initCount := Depth(s.initCount, ops))
    decreases |ops|
  {
    if ops == [] {
    } else {
      var n := if ops[0].OpUnInit? then s.initCount - 1 else s.initCount + 1;
      assert ops[0] in ops;
      if n > 0 {
        assert Step(c, s, ops[0]) == s.(initCount := n);
        SurvivesUntilMatched(c, s.(initCount := n), ops[1..]);
      }
    }
  }
}
