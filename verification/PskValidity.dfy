/** What is in a credential that the PSK manager makes or renews, and how long it is valid. */
module PskValidity {
  import opened Bytes
  import opened PskManager
  import opened PskRuns

  const DAY := 86400

  lemma CreatedCredential(c: Codec, s: State, psk: Psk, env: Env)
    requires Inv(s) && psk.meta.pskId == s.nextId && Create(c, s, psk, env).1 == OK
    ensures Create(c, s, psk, env).2 == Some(psk) && Create(c, s, psk, env).0.ids == s.ids[s.nextId := psk]
    ensures Create(c, s, psk, env).0.initCount == s.initCount
    ensures psk.content !in s.contents ==>
              Create(c, s, psk, env).0.contents == s.contents[psk.content := s.nextId]
  {
    hide Token;
  }

  /** What Generate or Import with these parameters and this content makes. */
  predicate MadeOf(psk: Psk, p: PskParam, content: bytes, id: nat) {
    && psk.content == content && |content| == p.pskLength && psk.meta.pskId == id
    && psk.meta.issuer == p.issuer && psk.meta.subject == p.subject
    && psk.meta.pskLength == p.pskLength && psk.meta.validDays == p.validDays && psk.meta.beginTime == p.beginTime
  }

  /** A credential that Generate or Import returns has the names, length, days and begin time asked for, and the random
      or given content; it is stored under the next id, and found under its content if that was new. */
  lemma NewCredential(c: Codec, s: State, op: Op)
    requires Inv(s) && (op.OpGenerate? || op.OpImport?) && Outcome(c, s, op).1 == OK
    ensures var content := if op.OpGenerate? then op.env.random else op.content;
            var made :=
              if op.OpGenerate? then Generate(c, s, op.p, op.env).2 else Import(c, s, op.p, content, op.env).2;
            && made.Some? && MadeOf(made.value, op.p, content, s.nextId)
            && Step(c, s, op).ids == s.ids[s.nextId := made.value]
            && (content !in s.contents ==> Step(c, s, op).contents == s.contents[content := s.nextId])
  {
    hide Create, Inv;
    CreatedCredential(c, s, Built(s, op.p, if op.OpGenerate? then op.env.random else op.content), op.env);
  }

  /** It is valid up to the last second of its days. */
  lemma NewCredentialValid(c: Codec, s: State, op: Op, now: int)
    requires Inv(s) && (op.OpGenerate? || op.OpImport?) && Outcome(c, s, op).1 == OK
    ensures CheckPskValid(Step(c, s, op), s.nextId, now)
         == if now <= op.p.beginTime + DAY * op.p.validDays then OK else PSK_HAS_EXPIRED
  {
    hide Create, Inv;
    CreatedCredential(c, s, Built(s, op.p, if op.OpGenerate? then op.env.random else op.content), op.env);
  }

  /** An update that returns OK keeps id, names, length and days of the credential it finds, gives it the random
      content, and begins it anew at the time of the call. */
  lemma RenewedCredential(c: Codec, s: State, id: nat, content: bytes, env: Env)
    requires Inv(s) && Update(c, s, id, content, env).1 == OK
    ensures UpdateTarget(s, id, content).Found?
    ensures var was := UpdateTarget(s, id, content).psk;
            var renewed := Update(c, s, id, content, env).2;
            && was.meta.pskId in s.ids && s.ids[was.meta.pskId] == was
            && renewed.Some? && renewed.value.content == env.random && |env.random| == was.meta.pskLength
            && renewed.value.meta.pskId == was.meta.pskId
            && renewed.value.meta.issuer == was.meta.issuer && renewed.value.meta.subject == was.meta.subject
            && renewed.value.meta.pskLength == was.meta.pskLength && renewed.value.meta.validDays == was.meta.validDays
            && renewed.value.meta.beginTime == env.now
            && Update(c, s, id, content, env).0.ids == s.ids[was.meta.pskId := renewed.value]
  {
    hide Token;
    TargetIsLive(s, id, content);
  }

  lemma RenewedCredentialValid(c: Codec, s: State, id: nat, content: bytes, env: Env, now: int)
    requires Inv(s) && Update(c, s, id, content, env).1 == OK
    ensures UpdateTarget(s, id, content).Found?
    ensures var was := UpdateTarget(s, id, content).psk;
            CheckPskValid(Update(c, s, id, content, env).0, was.meta.pskId, now) ==
            if now <= env.now + DAY * was.meta.validDays then OK else PSK_HAS_EXPIRED
  {
    hide Token;
    TargetIsLive(s, id, content);
  }

  /** Checking a credential returns its state, and does nothing unless it has expired. Then it is updated: when that
      succeeds it has the random content and begins at the time of the call, and when it does not nothing changes. */
  lemma CheckedCredential(c: Codec, s: State, id: nat, env: Env)
    requires Inv(s) && s.initCount > 0 && id in s.ids
    ensures env.now <= s.ids[id].meta.endTime ==> CheckPskValidAndAutoUpdate(c, s, id, env) == (s, OK)
    ensures env.now > s.ids[id].meta.endTime ==> CheckPskValidAndAutoUpdate(c, s, id, env).1 == PSK_HAS_EXPIRED
    ensures env.now > s.ids[id].meta.endTime && Update(c, s, id, [], env).1 == OK ==>
              var t := CheckPskValidAndAutoUpdate(c, s, id, env).0;
              && id in t.ids && t.ids[id].content == env.random && t.ids[id].meta.beginTime == env.now
              && t.ids[id].meta.validDays == s.ids[id].meta.validDays
              && CheckPskValid(t, id, env.now) == OK
    ensures env.now > s.ids[id].meta.endTime && Update(c, s, id, [], env).1 != OK ==>
              CheckPskValidAndAutoUpdate(c, s, id, env).0 == s
  {
    hide Token;
    TargetIsLive(s, id, []);
  }

  // ----- Over whole runs -----

  /** The end of every live credential is its begin plus its days. */
  predicate Ends(s: State) {
    forall id :: id in s.ids ==> s.ids[id].meta.endTime == s.ids[id].meta.beginTime + DAY * s.ids[id].meta.validDays
  }

  lemma {:induction false} SessionEnds(c: Codec, s: State, ops: seq<Op>)
    requires Inv(s) && 1 <= s.nextId && Ends(s) && Session(c, s, ops) && forall op :: op in ops ==> Tame(op)
    ensures Ends(Run(c, s, ops))
    decreases |ops|
  {
    hide Inv, Ends, Step, Steady;
    if ops == [] {
    } else {
      StepInv(c, s, ops[0]);
      StepEnds(c, s, ops[0]);
      SessionEnds(c, Step(c, s, ops[0]), ops[1..]);
    }
  }

  lemma CreateEnds(c: Codec, s: State, p: PskParam, content: bytes, env: Env)
    requires Inv(s) && Ends(s)
    ensures Ends(Create(c, s, Built(s, p, content), env).0)
  {
    hide Token, Inv;
  }

  lemma UpdateEnds(c: Codec, s: State, id: nat, content: bytes, env: Env)
    requires Inv(s) && Ends(s)
    ensures Ends(Update(c, s, id, content, env).0)
  {
    hide Token, Inv, UpdateTarget;
    if Update(c, s, id, content, env).1 == OK {
      RenewedCredential(c, s, id, content, env);
    }
  }

  lemma StepEnds(c: Codec, s: State, op: Op)
    requires Inv(s) && Ends(s) && Steady(s, op)
    ensures Ends(Step(c, s, op))
  {
    hide Token, Inv, Create, Update, Built;
    match op
    case OpGenerate(p, env) => CreateEnds(c, s, p, env.random, env);
    case OpImport(p, content, env) => CreateEnds(c, s, p, content, env);
    case OpUpdate(id, content, env) => UpdateEnds(c, s, id, content, env);
    case OpCheck(id, env) => UpdateEnds(c, s, id, [], env);
    case _ =>
  }
}
