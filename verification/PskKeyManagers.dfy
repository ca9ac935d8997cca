/** The PSK manager and the two key managers that are one: when the object it borrows is cast to the wrong class. */
module PskKeyManagers {
  import opened Bytes
  import opened KeyManagerType
  import opened PskManager
  import opened PskRuns
  import opened PskStore

  // ----- The type over runs -----

  /** What an operation calls on the key managers. */
  function CallsOf(s: State, op: Op): seq<Call> {
    match op
    case OpInit(o, ienv) => if s.initCount > 0 || !OptionsValid(o, ienv) then [] else [InitOf(o.km)]
    case OpUnInit => if s.initCount == 1 && s.opts.km != UNKNOWN then [UnInitOf(s.opts.km)] else []
    case _ => []
  }

  function Calls(c: Codec, s: State, ops: seq<Op>): seq<Call>
    decreases |ops|
  {
    if ops == [] then [] else CallsOf(s, ops[0]) + Calls(c, Step(c, s, ops[0]), ops[1..])
  }

  lemma StepType(c: Codec, s: State, op: Op)
    ensures Step(c, s, op).kmType == TypeAfter(s.kmType, CallsOf(s, op))
  {
    hide Token, UpdateTarget, LoadFrom;
    if CallsOf(s, op) != [] {
      assert CallsOf(s, op)[..0] == [];
    }
    if op.OpLoad? {
      LoadKeepsCount(c, Cleared(s), op.list);
    }
  }

  lemma {:induction false} TypeIsHistory(c: Codec, s: State, ops: seq<Op>)
    ensures Run(c, s, ops).kmType == TypeAfter(s.kmType, Calls(c, s, ops))
    decreases |ops|
  {
    hide Step, CallsOf, TypeAfter;
    if ops == [] {
      assert TypeAfter(s.kmType, []) == s.kmType by { NoCalls(s.kmType); }
    } else {
      var t := Step(c, s, ops[0]);
      StepType(c, s, ops[0]);
      TypeIsHistory(c, t, ops[1..]);
      TypeAppend(s.kmType, CallsOf(s, ops[0]), Calls(c, t, ops[1..]));
    }
  }

  /** After any run the next encryption or decryption has undefined behaviour if and only if the options ask for the
      OpenBao manager while the last Init of the vault manager, failed or not, has no UnInit of it after it. */
  lemma DowncastsExactly(c: Codec, ops: seq<Op>)
    ensures Downcasts(Run(c, FRESH, ops)) <==>
              Run(c, FRESH, ops).opts.km == OPENBAO && LeftAtVault(Calls(c, FRESH, ops))
  {
    hide Run, TypeAfter;
    TypeIsHistory(c, FRESH, ops);
    VaultExactly(OPENBAO, Calls(c, FRESH, ops));
  }

  // ----- What keeps it away -----

  /** An Init of the vault manager does not fail, and nothing is loaded while the vault manager is in use. */
  predicate Careful(s: State, op: Op) {
    match op
    case OpInit(o, ienv) => s.initCount <= 0 && OptionsValid(o, ienv) && o.km == VAULT ==> ienv.kmOk
    case OpLoad(list) => s.initCount > 0 && list != [] ==> s.opts.km != VAULT
    case _ => true
  }

  ghost predicate AllCareful(c: Codec, s: State, ops: seq<Op>)
    decreases |ops|
  {
    ops != [] ==> Careful(s, ops[0]) && AllCareful(c, Step(c, s, ops[0]), ops[1..])
  }

  /** type_ is VAULT exactly while the manager runs with the vault manager. */
  predicate Fits(s: State) {
    && s.initCount >= 0 && s.opts.km != UNKNOWN
    && (s.kmType == VAULT <==> s.initCount > 0 && s.opts.km == VAULT)
  }

  /** In a run of careful operations no call ever ends in a bad cast. */
  lemma {:induction false} CarefulRuns(c: Codec, s: State, ops: seq<Op>)
    requires Fits(s) && AllCareful(c, s, ops)
    ensures Fits(Run(c, s, ops))
    ensures forall n :: 0 <= n < |ops| ==> Outcome(c, Run(c, s, ops[..n]), ops[n]).1 != BAD_DOWNCAST
    decreases |ops|
  {
    hide Step, Outcome, Fits, Careful;
    if ops == [] {
    } else {
      var t := Step(c, s, ops[0]);
      CarefulStep(c, s, ops[0]);
      CarefulRuns(c, t, ops[1..]);
      forall n | 0 <= n < |ops| ensures Outcome(c, Run(c, s, ops[..n]), ops[n]).1 != BAD_DOWNCAST {
        if n == 0 {
          assert ops[..0] == [];
        } else {
          assert ops[..n][1..] == ops[1..][..n - 1] && ops[n] == ops[1..][n - 1];
          assert Run(c, s, ops[..n]) == Run(c, t, ops[1..][..n - 1]);
        }
      }
    }
  }

  lemma CarefulStep(c: Codec, s: State, op: Op)
    requires Fits(s) && Careful(s, op)
    ensures Fits(Step(c, s, op)) && Outcome(c, s, op).1 != BAD_DOWNCAST
  {
    hide Token, UpdateTarget, LoadFrom;
    if op.OpLoad? {
      LoadKeepsCount(c, Cleared(s), op.list);
      LoadNeverCasts(c, Cleared(s), op.list);
    }
  }

  lemma {:induction false} LoadNeverCasts(c: Codec, s: State, list: seq<bytes>)
    ensures !Downcasts(s) ==> LoadFrom(c, s, list).1 != BAD_DOWNCAST
    decreases |list|
  {
    hide MetaValid, SplitToken, Added;
    if list == [] {
    } else {
      LoadKeepsCount(c, s, list[..|list| - 1]);
      LoadNeverCasts(c, s, list[..|list| - 1]);
    }
  }

  /** Care is needed: after any operation without it, the next encryption or decryption has undefined behaviour, at
      once or once the OpenBao manager is started. */
  lemma CarelessCasts(c: Codec, s: State, op: Op, o: Options, ienv: InitEnv)
    requires Fits(s) && !Careful(s, op) && OptionsValid(o, ienv) && ienv.kmOk && o.km == OPENBAO
    ensures op.OpLoad? ==> Downcasts(Step(c, s, op))
    ensures op.OpInit? ==> Downcasts(Step(c, Step(c, s, op), OpInit(o, ienv)))
  {
    hide LoadFrom;
    if op.OpLoad? {
      LoadKeepsCount(c, Cleared(s), op.list);
    }
  }

  /** Then every import with valid parameters and every load end in the bad cast. */
  lemma CastEndsCalls(c: Codec, s: State, p: PskParam, content: bytes, env: Env, list: seq<bytes>)
    requires Downcasts(s) && s.initCount > 0
    ensures ParamsValid(s, p) && p.pskLength == |content| ==> Import(c, s, p, content, env).1 == BAD_DOWNCAST
    ensures list != [] && list[0] != [] ==> LoadAll(c, s, list).1 == BAD_DOWNCAST
  {
    hide LoadFrom, Token;
    if list != [] && list[0] != [] {
      DowncastsFirst(c, Cleared(s), list);
    }
  }

  // ----- Inputs -----

  const VAULT_OPTIONS := DEFAULT_OPTIONS.(km := VAULT)
  const GOOD := InitEnv(true, true, true)
  const PARAM := PskParam([65], [65], 256, 1, 0)

  function Content(): (r: bytes)
    ensures |r| == 256
  {
    seq(256, _ => 0)
  }

  /** One failed start of the vault manager: the session with the OpenBao manager after it cannot import. */
  lemma FailedVaultStart(c: Codec, env: Env)
    ensures var ops := [OpInit(VAULT_OPTIONS, GOOD.(kmOk := false)), OpInit(DEFAULT_OPTIONS, GOOD)];
            && Outcome(c, Run(c, FRESH, ops[..0]), ops[0]).1 == INIT_FAILED
            && Outcome(c, Run(c, FRESH, ops[..1]), ops[1]).1 == OK
            && Outcome(c, Run(c, FRESH, ops), OpImport(PARAM, Content(), env)).1 == BAD_DOWNCAST
  {
    hide Token;
    var ops := [OpInit(VAULT_OPTIONS, GOOD.(kmOk := false)), OpInit(DEFAULT_OPTIONS, GOOD)];
    assert ops[..0] == [] && ops[..1] == [ops[0]] && ops[1..] == [ops[1]];
    OneStep(c, FRESH, ops[0]);
    OneStep(c, Step(c, FRESH, ops[0]), ops[1]);
    CastEndsCalls(c, Run(c, FRESH, ops), PARAM, Content(), env, []);
  }

  /** Loading in a session with the vault manager, even of a list that is refused, leaves the type for later
      sessions. */
  lemma LoadUnderVault(c: Codec, env: Env)
    ensures var ops := [OpInit(VAULT_OPTIONS, GOOD), OpLoad([[]]), OpUnInit, OpInit(DEFAULT_OPTIONS, GOOD)];
            && Outcome(c, Run(c, FRESH, ops[..1]), ops[1]).1 == INVALID_PARAM
            && Outcome(c, Run(c, FRESH, ops), OpImport(PARAM, Content(), env)).1 == BAD_DOWNCAST
  {
    hide Token;
    var ops := [OpInit(VAULT_OPTIONS, GOOD), OpLoad([[]]), OpUnInit, OpInit(DEFAULT_OPTIONS, GOOD)];
    assert ops[..1] == [ops[0]];
    OneStep(c, FRESH, ops[0]);
    var s1 := Step(c, FRESH, ops[0]);
    var s2 := Step(c, s1, ops[1]);
    var list: seq<bytes> := [[]];
    assert list[..0] == [];
    assert LoadFrom(c, Cleared(s1), list) == (Cleared(s1), INVALID_PARAM);
    var s3 := Step(c, s2, ops[2]);
    assert s3.kmType == VAULT && s3.initCount == 0;
    var rest := ops[1..];
    assert rest == [ops[1], ops[2], ops[3]] && rest[1..] == [ops[2], ops[3]] && rest[1..][1..] == [ops[3]];
    assert Run(c, FRESH, ops) == Run(c, s1, rest);
    assert Run(c, s1, rest) == Run(c, s2, rest[1..]);
    assert Run(c, s2, rest[1..]) == Run(c, s3, [ops[3]]);
    OneStep(c, s3, ops[3]);
    CastEndsCalls(c, Run(c, FRESH, ops), PARAM, Content(), env, []);
  }

  /** What a session with the vault manager stored, under the default algorithm and domain, is loaded by a session with
      the OpenBao manager after it if and only if its ids fit; inside the session with the vault manager it never
      is. */
  lemma VaultSessionReloads(c: Codec, o: Options, ops: seq<Op>, s: State, order: seq<nat>)
    requires c.Lawful() && o.km == VAULT && SameKey(Ref(o), Ref(DEFAULT_OPTIONS)) && o.pskMaxCount < U32_LIMIT - 1
    requires Session(c, Started(o), ops) && forall op :: op in ops ==> Registered(op) && Tame(op)
    requires s == Run(c, Started(o), ops) && s.initCount == 1 && AllSurvive(c, s)
    requires Enumerates(order, s) && order != []
    ensures s.stored.Keys == s.ids.Keys
    ensures LoadAll(c, Step(c, Step(c, s, OpUnInit), OpInit(DEFAULT_OPTIONS, GOOD)), Texts(s, order)).1 == OK
       <==> forall id :: id in s.ids ==> id <= DEFAULT_OPTIONS.pskMaxCount
    ensures LoadAll(c, s, Texts(s, order)).1 == BAD_DOWNCAST
  {
    hide Run, LoadAll, Texts, Session, AllSurvive, Seals, RenumberedIds, RenumberedContents, Codec.Lawful;
    SessionKeepsType(c, Started(o), ops);
    SessionMirrors(c, Started(o), ops);
    IdsAreConsecutive(c, Started(o), ops);
    SessionReloads(c, o, ops, s, Step(c, Step(c, s, OpUnInit), OpInit(DEFAULT_OPTIONS, GOOD)), order);
    ReloadExactly(c, s, s, order);
  }

  lemma {:induction false} SessionKeepsType(c: Codec, s: State, ops: seq<Op>)
    requires Session(c, s, ops)
    ensures Run(c, s, ops).kmType == s.kmType
    decreases |ops|
  {
    hide Step, CallsOf;
    if ops == [] {
    } else {
      SteadyKeepsType(c, s, ops[0]);
      SessionKeepsType(c, Step(c, s, ops[0]), ops[1..]);
    }
  }

  lemma SteadyKeepsType(c: Codec, s: State, op: Op)
    requires Steady(s, op)
    ensures Step(c, s, op).kmType == s.kmType
  {
    hide Step;
    StepType(c, s, op);
    NoCalls(s.kmType);
  }
}
