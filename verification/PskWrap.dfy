/** The largest accepted pskMaxCount lets the 32-bit id counter wrap around, and only that one breaks the index. */
module PskWrap {
  import opened Bytes
  import opened PskManager
  import opened PskRuns
  import opened KeyManagerType

  /** Operations on credentials: no session is started or ended, nothing is loaded. */
  predicate Credential(op: Op) {
    op.OpGenerate? || op.OpImport? || op.OpUpdate? || op.OpDelete? || op.OpCheck?
  }

  ghost predicate AllCredential(ops: seq<Op>) {
    forall op :: op in ops ==> Credential(op)
  }

  const PARAM := PskParam([65], [65], 256, 1, 0)
  const ENV := Env([], 0, 0, Callback(false, false))

  /** The credentials that the runs below import. */
  predicate Plain(psk: Psk) {
    && psk.meta.pskId < U32_LIMIT && |psk.content| == 256
    && psk.meta == Meta(psk.meta.pskId, [65], [65], 256, 1, 0, DAY_TO_SECOND_TIME)
  }

  /** The key manager encrypts their tokens. */
  ghost predicate Encrypts(c: Codec, o: Options) {
    forall psk :: Plain(psk) ==> c.enc(Ref(o), ENV.nonce, Token(c, psk)).Some?
  }

  /** n times: import key x and delete it again, starting with id j. */
  function Churn(x: bytes, j: nat, n: nat): seq<Op>
    decreases n
  {
    if n == 0 then []
    else [OpImport(PARAM, x, ENV), OpDelete(j % U32_LIMIT, ENV.cb)] + Churn(x, j + 1, n - 1)
  }

  /** An import that is accepted, with no callback registered. */
  lemma Imports(c: Codec, s: State, x: bytes)
    requires s.initCount > 0 && s.nextId <= s.opts.pskMaxCount < U32_LIMIT && |x| == 256
    requires Encrypts(c, s.opts) && !Downcasts(s)
    ensures Step(c, s, OpImport(PARAM, x, ENV)) == Added(s, Built(s, PARAM, x))
  {
    hide Token, Added, Built;
    BuiltId(s, x);
    assert Plain(Built(s, PARAM, x)) by { BuiltPlain(s, x); }
    assert c.enc(Ref(s.opts), ENV.nonce, Token(c, Built(s, PARAM, x))).Some?;
  }

  lemma BuiltId(s: State, x: bytes)
    ensures Built(s, PARAM, x).meta.pskId == s.nextId && Built(s, PARAM, x).content == x
  {
  }

  lemma BuiltPlain(s: State, x: bytes)
    requires |x| == 256 && s.nextId < U32_LIMIT
    ensures Plain(Built(s, PARAM, x))
  {
  }

  /** Importing a new key under a free id and deleting it changes the counter only. */
  lemma ChurnRound(c: Codec, s: State, x: bytes)
    requires s.initCount > 0 && s.nextId <= s.opts.pskMaxCount < U32_LIMIT && |x| == 256
    requires Encrypts(c, s.opts) && !Downcasts(s)
    requires s.nextId !in s.ids && x !in s.contents
    ensures Step(c, Step(c, s, OpImport(PARAM, x, ENV)), OpDelete(s.nextId, ENV.cb))
         == s.(nextId := (s.nextId + 1) % U32_LIMIT)
  {
    hide Built;
    Imports(c, s, x);
    BuiltId(s, x);
    var psk := Built(s, PARAM, x);
    assert Added(s, psk).ids - {s.nextId} == s.ids;
    assert Added(s, psk).contents - {x} == s.contents;
  }

  lemma {:induction false} ChurnRun(c: Codec, s: State, x: bytes, j: nat, n: nat)
    requires s.initCount > 0 && s.opts.pskMaxCount == U32_LIMIT - 1 && s.nextId == j % U32_LIMIT
    requires s.ids.Keys == {1} && x !in s.contents && |x| == 256 && Encrypts(c, s.opts) && !Downcasts(s)
    requires 2 <= j && j + n <= U32_LIMIT + 1
    ensures Run(c, s, Churn(x, j, n)) == s.(nextId := (j + n) % U32_LIMIT)
    ensures AllCredential(Churn(x, j, n))
    decreases n
  {
    hide Step, Encrypts;
    if n == 0 {
    } else {
      var ops := Churn(x, j, n);
      ChurnRound(c, s, x);
      assert ops[1..][1..] == Churn(x, j + 1, n - 1);
      assert Run(c, s, ops) == Run(c, Step(c, s, ops[0]), ops[1..]);
      assert Run(c, s, ops) == Run(c, Step(c, Step(c, s, ops[0]), ops[1]), ops[1..][1..]);
      ChurnRun(c, s.(nextId := (j + 1) % U32_LIMIT), x, j + 1, n - 1);
    }
  }

  /** Import a, wrap the counter around, import b under the id of a. */
  function Wrap(a: bytes, b: bytes, x: bytes): seq<Op> {
    [OpImport(PARAM, a, ENV)] + Churn(x, 2, U32_LIMIT - 1) + [OpImport(PARAM, b, ENV)]
  }

  function Wrapped(o: Options, a: bytes, b: bytes): State {
    Started(o).(nextId := 2, contents := map[a := 1, b := 1], ids := map[1 := Built(Started(o), PARAM, a)])
  }

  lemma WrapRun(c: Codec, o: Options, a: bytes, b: bytes, x: bytes)
    requires o.pskMaxCount == U32_LIMIT - 1 && Encrypts(c, o)
    requires |a| == |b| == |x| == 256 && a != b && a != x
    ensures AllCredential(Wrap(a, b, x))
    ensures Run(c, Started(o), Wrap(a, b, x)) == Wrapped(o, a, b)
  {
    hide Run, Step, Encrypts, Churn;
    var s := Started(o);
    var ops1, ops2, ops3 := [OpImport(PARAM, a, ENV)], Churn(x, 2, U32_LIMIT - 1), [OpImport(PARAM, b, ENV)];
    OneStep(c, s, ops1[0]);
    Imports(c, s, a);
    var s1 := Added(s, Built(s, PARAM, a));
    ChurnRun(c, s1, x, 2, U32_LIMIT - 1);
    var s2 := s1.(nextId := 1);
    OneStep(c, s2, ops3[0]);
    Imports(c, s2, b);
    RunAppend(c, s, ops1, ops2);
    RunAppend(c, s, ops1 + ops2, ops3);
  }

  lemma ThreeKeys() returns (a: bytes, b: bytes, x: bytes)
    ensures |a| == |b| == |x| == 256 && a != b && a != x
  {
    a, b, x := seq(256, _ => 0), seq(256, _ => 1), seq(256, _ => 2);
    assert a[0] != b[0] && a[0] != x[0];
  }

  /** For every limit the manager accepts: the index agrees after every run of credential operations if and only if
      pskMaxCount is below 2^32-1. */
  lemma IndexExactly(c: Codec, o: Options)
    requires PSK_MAX_COUNT_LIMIT_MIN <= o.pskMaxCount <= PSK_MAX_COUNT_LIMIT_MAX && Encrypts(c, o)
    ensures (forall ops :: AllCredential(ops) ==> Index(Run(c, Started(o), ops))) <==> o.pskMaxCount < U32_LIMIT - 1
  {
    hide Run, Encrypts;
    if o.pskMaxCount < U32_LIMIT - 1 {
      forall ops | AllCredential(ops) ensures Index(Run(c, Started(o), ops)) {
        RunInv(c, Started(o), ops);
      }
    } else {
      var a, b, x := ThreeKeys();
      WrapRun(c, o, a, b, x);
      var s := Wrapped(o, a, b);
      assert b in s.contents && s.ids[s.contents[b]].content == a;
    }
  }

  /** Likewise for the branch of UpdatePsk that reports a dangling content entry: some run reaches it if and only if
      pskMaxCount is 2^32-1. */
  lemma DanglingExactly(c: Codec, o: Options)
    requires PSK_MAX_COUNT_LIMIT_MIN <= o.pskMaxCount <= PSK_MAX_COUNT_LIMIT_MAX && Encrypts(c, o)
    ensures (exists ops, id, content ::
               AllCredential(ops) && UpdateTarget(Run(c, Started(o), ops), id, content).Dangling?)
       <==> o.pskMaxCount == U32_LIMIT - 1
  {
    hide Run, Encrypts, UpdateTarget;
    if o.pskMaxCount < U32_LIMIT - 1 {
      forall ops, id, content | AllCredential(ops)
        ensures !UpdateTarget(Run(c, Started(o), ops), id, content).Dangling?
      {
        RunInv(c, Started(o), ops);
        TargetIsLive(Run(c, Started(o), ops), id, content);
      }
    } else {
      var a, b, x := ThreeKeys();
      WrapRun(c, o, a, b, x);
      var ops := Wrap(a, b, x) + [OpDelete(1, ENV.cb)];
      RunAppend(c, Started(o), Wrap(a, b, x), [OpDelete(1, ENV.cb)]);
      OneStep(c, Wrapped(o, a, b), OpDelete(1, ENV.cb));
      DanglesAfterDelete(c, o, a, b);
      assert AllCredential(ops);
      assert UpdateTarget(Run(c, Started(o), ops), 7, b).Dangling?;
    }
  }

  lemma DanglesAfterDelete(c: Codec, o: Options, a: bytes, b: bytes)
    requires a != b
    ensures UpdateTarget(Step(c, Wrapped(o, a, b), OpDelete(1, ENV.cb)), 7, b).Dangling?
  {
    var t := Step(c, Wrapped(o, a, b), OpDelete(1, ENV.cb));
    assert b in t.contents && t.contents[b] == 1 && t.ids == map[];
  }
}
