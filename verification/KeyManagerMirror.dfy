/** While commands run, the key map mirrors the store, and restarting rebuilds it. */
module KeyManagerMirror {
  import opened Bytes
  import opened KeyNames
  import opened KeyStore
  import opened KeyManager
  import opened KeyManagerStart
  import opened KeyManagerRuns

  /** Every key of the map is in the store under its name, with its creation time. */
  ghost predicate PartOf(keys: KeyMap, st: Store) {
    forall d: nat, k: nat :: Has(keys, d, k) ==>
      && d < U32_LIMIT && k < U32_LIMIT && KeyName(d, k) in st
      && keys[d][k] == st[KeyName(d, k)].time && HasTime(st[KeyName(d, k)])
  }

  ghost predicate Covers(keys: KeyMap, st: Store) {
    forall d: nat, k: nat :: d < U32_LIMIT && k < U32_LIMIT && KeyName(d, k) in st ==> Has(keys, d, k)
  }

  /** The map holds exactly the store's keys, with their creation times (a domain may also be present without keys). */
  ghost predicate Mirrors(keys: KeyMap, st: Store) {
    PartOf(keys, st) && Covers(keys, st)
  }

  /** The invariant: the map is part of the store, and all of it while the manager is initialised. */
  ghost predicate Good(s: State) {
    s.domainCount <= DOMAINID_MAX && PartOf(s.keys, s.store) && (s.inited ==> Covers(s.keys, s.store))
  }

  /** Listings are complete and no read comes back without output; a removal runs or is reported as failed; the commands
      of the other operations run, and new keys get a creation time. */
  ghost predicate Succeeds(s: State, op: Op) {
    match op
    case OpInit(_, env) => Lists(env, s.store) && forall i: nat :: env.cmds(i) != Silent
    case OpUnInit => true
    case OpCreate(_, env) => env.cmd1 == env.cmd2 == env.cmd3 == Ran && HasTime(env.made)
    case OpRemove(_, _, cmd) => cmd == Ran || cmd == Fails
    case OpUpdate(_, _, _, regen) =>
      forall k: nat :: regen(k).cmd1 == regen(k).cmd2 == regen(k).cmd3 == regen(k).cmd4 == Ran
                      && HasTime(regen(k).made)
    case OpDeleteAll(cmds) => AllDeletable(s, cmds) && forall n :: cmds(n) == Ran
  }

  ghost predicate AllSucceed(s: State, ops: seq<Op>)
    decreases |ops|
  {
    ops != [] ==> Succeeds(s, ops[0]) && AllSucceed(Step(s, ops[0]), ops[1..])
  }

  lemma {:induction false} RunGood(s: State, ops: seq<Op>)
    requires Good(s) && AllSucceed(s, ops)
    ensures Good(Run(s, ops))
    decreases |ops|
  {
    hide Good, Succeeds, Step;
    if ops == [] {
    } else {
      StepGood(s, ops[0]);
      RunGood(Step(s, ops[0]), ops[1..]);
    }
  }

  lemma StepGood(s: State, op: Op)
    requires Good(s) && Succeeds(s, op)
    ensures Good(Step(s, op))
  {
    match op
    case OpInit(count, env) => InitGood(s, count, env);
    case OpUnInit =>
    case OpCreate(d, env) => CreateGood(s, d, env);
    case OpRemove(d, k, cmd) => RemoveGood(s, d, k, cmd);
    case OpUpdate(d, lead, now, regen) =>
      if ExpiryParams(s, d, lead) == OK {
        UpdateGood(s, d, lead, now, Ascending(s.keys[d].Keys), regen);
      }
    case OpDeleteAll(cmds) => DeleteAllGood(s, cmds);
  }

  /** Putting a key with a time into both sides, or taking one from both, keeps them equal. */
  lemma MirrorPut(keys: KeyMap, st: Store, d: nat, k: nat, key: StoredKey)
    requires Mirrors(keys, st) && d in keys && d < U32_LIMIT && k < U32_LIMIT && HasTime(key)
    ensures Mirrors(WithTime(keys, d, k, key.time), st[KeyName(d, k) := key])
  {
    hide KeyName, WithTime;
    MapChanges(keys, d, k, key.time);
    forall x: nat, y: nat | x < U32_LIMIT && y < U32_LIMIT && KeyName(x, y) == KeyName(d, k) ensures x == d && y == k {
      KeyNameInjective(x, y, d, k);
    }
  }

  lemma MirrorDrop(keys: KeyMap, st: Store, d: nat, k: nat)
    requires Mirrors(keys, st) && Has(keys, d, k)
    ensures Mirrors(WithoutKey(keys, d, k), st - {KeyName(d, k)})
  {
    hide KeyName, WithoutKey;
    MapChanges(keys, d, k, 0);
    forall x: nat, y: nat | x < U32_LIMIT && y < U32_LIMIT && KeyName(x, y) == KeyName(d, k) ensures x == d && y == k {
      KeyNameInjective(x, y, d, k);
    }
  }

  lemma MirrorTouch(keys: KeyMap, st: Store, d: nat)
    requires Mirrors(keys, st)
    ensures Mirrors(Touched(keys, d), st)
  {
    hide KeyName, Touched;
    MapChanges(keys, d, 0, 0);
  }

  /** What CreateKey leaves when its commands run and the name is new. */
  lemma CreatedKey(s: State, d: nat, env: CreateEnv, k: nat)
    requires s.inited && d < s.domainCount && NextId(Touched(s.keys, d)[d]) == (OK, k) && KeyName(d, k) !in s.store
    requires env.cmd1 == env.cmd2 == env.cmd3 == Ran && HasTime(env.made)
    ensures var key := env.made.(exportable := true, deletable := true);
            && CreateKey(s, d, env).1 == OK && CreateKey(s, d, env).2 == k
            && CreateKey(s, d, env).0.store == s.store[KeyName(d, k) := key]
            && CreateKey(s, d, env).0.keys == WithTime(Touched(s.keys, d), d, k, key.time)
  {
    hide KeyName, MaxInt, Touched, WithTime, NextId;
    var key := env.made.(exportable := true, deletable := true);
    ReportedTimeIsTime(key);
    var name := KeyName(d, k);
    var st := Configured(Created(s.store, name, env.made), name, true).value;
    assert st == s.store[name := key];
  }

  lemma CreateGood(s: State, d: nat, env: CreateEnv)
    requires Good(s) && Succeeds(s, OpCreate(d, env))
    ensures Good(CreateKey(s, d, env).0)
  {
    hide KeyName, PartOf, Covers, Touched, WithTime, NextId, Effect, ReadKey;
    if ValidateDomain(s, d) == OK {
      MirrorTouch(s.keys, s.store, d);
      var keys := Touched(s.keys, d);
      if NextId(keys[d]).0 == OK {
        var k := NextId(keys[d]).1;
        NextIdIsFresh(s.keys, d);
        NewNameIsUnused(s, d, k);
        CreatedKey(s, d, env, k);
        MirrorPut(keys, s.store, d, k, env.made.(exportable := true, deletable := true));
      }
    }
    CreateKeeps(s, d, env);
  }

  lemma NewNameIsUnused(s: State, d: nat, k: nat)
    requires Good(s) && s.inited && !Has(s.keys, d, k) && d < U32_LIMIT && k < U32_LIMIT
    ensures KeyName(d, k) !in s.store
  {
  }

  lemma RemoveGood(s: State, d: nat, k: nat, cmd: Cmd)
    requires Good(s) && (cmd == Ran || cmd == Fails)
    ensures Good(RemoveKey(s, d, k, cmd).0)
  {
    hide KeyName, PartOf, Covers, WithoutKey;
    if s.inited && Has(s.keys, d, k) {
      MirrorDrop(s.keys, s.store, d, k);
    }
  }

  lemma DeleteAllGood(s: State, cmds: bytes -> Cmd)
    requires Good(s) && AllDeletable(s, cmds) && forall n :: cmds(n) == Ran
    ensures Good(DeleteAllKey(s, cmds).0)
  {
    hide KeyName;
    if s.inited {
      var t := DeleteAllKey(s, cmds).0;
      forall d: nat, k: nat | d < U32_LIMIT && k < U32_LIMIT && KeyName(d, k) in s.store
        ensures KeyName(d, k) !in t.store
      {
        assert Has(s.keys, d, k);
        NameOf(s.keys, d, k);
      }
    }
  }

  lemma {:induction false} UpdateGood(s: State, d: nat, lead: nat, now: nat, ids: seq<nat>, regen: nat -> Regen)
    requires Good(s) && s.inited && Succeeds(s, OpUpdate(d, lead, now, regen))
    ensures Good(UpdateKeys(s, d, lead, now, ids, regen).0) && UpdateKeys(s, d, lead, now, ids, regen).0.inited
    decreases |ids|
  {
    hide Good, UpdateKey;
    if ids == [] {
    } else {
      var n := |ids| - 1;
      UpdateGood(s, d, lead, now, ids[..n], regen);
      UpdateOneGood(UpdateKeys(s, d, lead, now, ids[..n], regen).0, d, lead, now, ids[n], regen(ids[n]));
    }
  }

  /** What renewal leaves when its commands run. */
  lemma RenewedStore(st: Store, name: bytes, r: Regen)
    requires name in st && st[name].deletable && r.cmd1 == r.cmd2 == r.cmd3 == Ran
    ensures Regenerate(st, name, r) == (st[name := r.made.(exportable := false, deletable := true)], OK)
  {
    var st1 := st - {name};
    var st2 := st1[name := r.made.(exportable := false, deletable := false)];
    assert st2[name := r.made.(exportable := false, deletable := true)]
        == st[name := r.made.(exportable := false, deletable := true)];
  }

  lemma UpdateOneGood(s: State, d: nat, lead: nat, now: nat, k: nat, r: Regen)
    requires Good(s) && s.inited && r.cmd1 == r.cmd2 == r.cmd3 == r.cmd4 == Ran && HasTime(r.made)
    ensures Good(UpdateKey(s, d, lead, now, k, r).0) && UpdateKey(s, d, lead, now, k, r).0.inited
  {
    hide KeyName, PartOf, Covers, WithTime, MaxInt, Expired;
    if Has(s.keys, d, k) {
      MirrorHolds(s, d, k);
      var name := KeyName(d, k);
      if s.store[name].deletable {
        var key := r.made.(exportable := false, deletable := true);
        ReportedTimeIsTime(key);
        RenewedStore(s.store, name, r);
        MirrorPut(s.keys, s.store, d, k, key);
      }
    }
  }

  lemma MirrorHolds(s: State, d: nat, k: nat)
    requires Good(s) && Has(s.keys, d, k)
    ensures d < U32_LIMIT && k < U32_LIMIT && KeyName(d, k) in s.store
  {
  }

  // ----- Starting -----

  /** Reading any listing, in any order, adds parts of the store only; when nothing is cut short and the listing is
      complete, reading with OK gives all of it. */
  lemma ReadAllMirrors(m: KeyMap, st: Store, env: InitEnv)
    requires PartOf(m, st) && Lists(env, st) && (forall i: nat :: env.cmds(i) != Silent) && ParseAll(env.names).Pairs?
    ensures PartOf(ReadAll(m, st, ParseAll(env.names).ps, env.cmds).0, st)
    ensures ReadAll(m, st, ParseAll(env.names).ps, env.cmds).1 == OK ==>
              Covers(ReadAll(m, st, ParseAll(env.names).ps, env.cmds).0, st)
  {
    hide KeyName, ParseName, ReportedTime, ReadSome, ParseAll, TimedUpTo, Clears, Reaches;
    var ps := ParseAll(env.names).ps;
    ParsedPairsIds(env.names);
    ReadAllOk(m, st, ps, env.cmds);
    var r := ReadAll(m, st, ps, env.cmds).0;
    forall d: nat, k: nat | Has(r, d, k)
      ensures d < U32_LIMIT && k < U32_LIMIT && KeyName(d, k) in st && r[d][k] == st[KeyName(d, k)].time
      ensures HasTime(st[KeyName(d, k)])
    {
      ReadSomeHas(m, st, ps, env.cmds, d, k);
      if !Has(m, d, k) {
        ReachedIsListed(st, ps, env.cmds, d, k);
        ReportedTimeIsTime(st[KeyName(d, k)]);
      }
    }
    if ReadAll(m, st, ps, env.cmds).1 == OK {
      NoClearing(st, ps, env.cmds);
      forall d: nat, k: nat | d < U32_LIMIT && k < U32_LIMIT && KeyName(d, k) in st ensures Has(r, d, k) {
        ParsePrintedName(d, k);
        ParseAllMembers(env.names, d, k);
        AllReached(st, ps, env.cmds, d, k);
        ReadSomeHas(m, st, ps, env.cmds, d, k);
      }
    }
  }

  lemma ReachedIsListed(st: Store, ps: seq<(nat, nat)>, cmds: nat -> Cmd, d: nat, k: nat)
    requires Reaches(st, ps, cmds, d, k)
    ensures (d, k) in ps
  {
  }

  lemma InitGood(s: State, count: nat, env: InitEnv)
    requires Good(s) && Succeeds(s, OpInit(count, env))
    ensures Good(Init(s, count, env).0)
  {
    hide KeyName, ParseName, PartOf, Covers, ReadAll, ParseAll;
    if ParseAll(env.names).Pairs? {
      ReadAllMirrors(s.keys, s.store, env);
    }
  }

  predicate NoEmptyDomain(keys: KeyMap) {
    forall d :: d in keys ==> keys[d] != map[]
  }

  lemma {:induction false} ReadSomeNoEmpty(m: KeyMap, st: Store, ps: seq<(nat, nat)>, cmds: nat -> Cmd)
    requires NoEmptyDomain(m)
    ensures NoEmptyDomain(ReadSome(m, st, ps, cmds).m)
    decreases |ps|
  {
    hide KeyName, ReadKey;
    if ps == [] {
    } else {
      ReadSomeNoEmpty(m, st, ps[..|ps| - 1], cmds);
    }
  }

  /** An undisturbed start from an empty map gives exactly the mirror of the store, without empty domains, if the store
      is readable, and fails otherwise. */
  lemma PrepareMirrors(s: State, count: nat, env: InitEnv)
    requires Undisturbed(s, count, env) && s.keys == map[]
    ensures Init(s, count, env).1 == OK <==> Readable(s.store)
    ensures Init(s, count, env).1 == OK ==>
              && Init(s, count, env).0 == State(true, count, Init(s, count, env).0.keys, s.store)
              && Mirrors(Init(s, count, env).0.keys, s.store) && NoEmptyDomain(Init(s, count, env).0.keys)
  {
    hide KeyName, ParseName, ReadSome, ParseAll, Readable, Mirrors;
    InitExactly(s, count, env);
    StopCodes(env.names);
    if ParseAll(env.names).Pairs? {
      assert PartOf(s.keys, s.store);
      ReadAllMirrors(s.keys, s.store, env);
      ReadSomeNoEmpty(s.keys, s.store, ParseAll(env.names).ps, env.cmds);
      BothMirror(ReadAll(s.keys, s.store, ParseAll(env.names).ps, env.cmds).0, s.store);
    }
  }

  lemma BothMirror(keys: KeyMap, st: Store)
    ensures Mirrors(keys, st) <==> PartOf(keys, st) && Covers(keys, st)
  {
  }

  /** Two mirrors of one store differ in empty domains only. */
  lemma MirrorsAgree(a: KeyMap, b: KeyMap, st: Store)
    requires Mirrors(a, st) && Mirrors(b, st) && NoEmptyDomain(b)
    ensures b == NonEmpty(a)
  {
    hide KeyName;
    forall d: nat, k: nat ensures Has(a, d, k) <==> Has(b, d, k) {
      if Has(a, d, k) || Has(b, d, k) {
        ParsePrintedName(d, k);
      }
    }
    forall d: nat ensures d in b <==> d in a && a[d] != map[] {
      if d in b {
        var k: nat :| k in b[d];
        assert Has(b, d, k);
      }
      if d in a && a[d] != map[] {
        var k: nat :| k in a[d];
        assert Has(a, d, k);
      }
    }
    forall d: nat | d in b ensures b[d] == a[d] {
      assert forall k: nat :: k in a[d] <==> k in b[d] by {
        forall k: nat ensures k in a[d] <==> k in b[d] {
          assert Has(a, d, k) <==> Has(b, d, k);
        }
      }
      forall k: nat | k in b[d] ensures b[d][k] == a[d][k] {
        assert Has(b, d, k) && Has(a, d, k);
      }
    }
  }

  function NonEmpty(keys: KeyMap): KeyMap {
    map d | d in keys && keys[d] != map[] :: keys[d]
  }

  // ----- Restarting -----

  predicate Ours(n: bytes) {
    ParseName(n).Pair? && KeyName(ParseName(n).d, ParseName(n).k) == n
  }

  /** Every name in the store is one the listing skips, without "Error" in it, or one of ours with a creation time: no
      foreign names that look like ours. */
  ghost predicate Tidy(st: Store) {
    forall n :: n in st ==> (ParseName(n) == NotOurs && !SaysError(n)) || (Ours(n) && HasTime(st[n]))
  }

  lemma TidyIsReadable(st: Store)
    requires Tidy(st)
    ensures Readable(st)
  {
    hide KeyName, ParseName, SaysError, HasTime;
    forall n | n in st ensures !SaysError(n) {
      if Ours(n) {
        OwnNameSaysNoError(ParseName(n).d, ParseName(n).k);
      }
    }
  }

  lemma OwnNameIsOurs(d: nat, k: nat)
    requires d < U32_LIMIT && k < U32_LIMIT
    ensures Ours(KeyName(d, k))
  {
    ParsePrintedName(d, k);
  }

  lemma {:induction false} RunTidy(s: State, ops: seq<Op>)
    requires Good(s) && Tidy(s.store) && AllSucceed(s, ops)
    ensures Tidy(Run(s, ops).store)
    decreases |ops|
  {
    hide Good, Succeeds, Step, Tidy;
    if ops == [] {
    } else {
      StepGood(s, ops[0]);
      StepTidy(s, ops[0]);
      RunTidy(Step(s, ops[0]), ops[1..]);
    }
  }

  lemma StepTidy(s: State, op: Op)
    requires Good(s) && Tidy(s.store) && Succeeds(s, op)
    ensures Tidy(Step(s, op).store)
  {
    hide KeyName, ParseName, PartOf, Covers, Regenerate, CreateKey, ReadAll, ParseAll, UpdateKeys;
    match op
    case OpInit(count, env) =>
    case OpUnInit =>
    case OpCreate(d, env) => CreateTidy(s, d, env);
    case OpRemove(d, k, cmd) =>
    case OpUpdate(d, lead, now, regen) =>
      if ExpiryParams(s, d, lead) == OK {
        UpdateTidy(s, d, lead, now, Ascending(s.keys[d].Keys), regen);
      }
    case OpDeleteAll(cmds) =>
  }

  lemma CreateTidy(s: State, d: nat, env: CreateEnv)
    requires Good(s) && Tidy(s.store) && Succeeds(s, OpCreate(d, env))
    ensures Tidy(CreateKey(s, d, env).0.store)
  {
    hide KeyName, ParseName, PartOf, Covers, Touched, WithTime, NextId, Effect, ReadKey;
    if ValidateDomain(s, d) == OK && NextId(Touched(s.keys, d)[d]).0 == OK {
      var k := NextId(Touched(s.keys, d)[d]).1;
      NextIdIsFresh(s.keys, d);
      NewNameIsUnused(s, d, k);
      CreatedKey(s, d, env, k);
      OwnNameIsOurs(d, k);
    }
  }

  lemma {:induction false} UpdateTidy(s: State, d: nat, lead: nat, now: nat, ids: seq<nat>, regen: nat -> Regen)
    requires Good(s) && s.inited && Tidy(s.store) && Succeeds(s, OpUpdate(d, lead, now, regen))
    ensures Tidy(UpdateKeys(s, d, lead, now, ids, regen).0.store)
    decreases |ids|
  {
    hide Good, UpdateKey, Tidy;
    if ids == [] {
    } else {
      var n := |ids| - 1;
      UpdateTidy(s, d, lead, now, ids[..n], regen);
      UpdateGood(s, d, lead, now, ids[..n], regen);
      UpdateOneTidy(UpdateKeys(s, d, lead, now, ids[..n], regen).0, d, lead, now, ids[n], regen(ids[n]));
    }
  }

  lemma UpdateOneTidy(s: State, d: nat, lead: nat, now: nat, k: nat, r: Regen)
    requires Good(s) && s.inited && Tidy(s.store)
    requires r.cmd1 == r.cmd2 == r.cmd3 == r.cmd4 == Ran && HasTime(r.made)
    ensures Tidy(UpdateKey(s, d, lead, now, k, r).0.store)
  {
    hide KeyName, ParseName, PartOf, Covers, WithTime, ReadKey, Expired;
    if Has(s.keys, d, k) {
      MirrorHolds(s, d, k);
      OwnNameIsOurs(d, k);
      if s.store[KeyName(d, k)].deletable {
        RenewedStore(s.store, KeyName(d, k), r);
      }
    }
  }

  /** After any run whose commands run, stopping and starting again undisturbed gives back the key map it had, if and
      only if the store is readable then; with a tidy store at the beginning it always is. */
  lemma RestartRebuilds(s: State, ops: seq<Op>, count: nat, env: InitEnv)
    requires Good(s) && AllSucceed(s, ops) && Run(s, ops).inited
    requires Undisturbed(UnInit(Run(s, ops)), count, env)
    ensures Init(UnInit(Run(s, ops)), count, env) ==
              (State(true, count, NonEmpty(Run(s, ops).keys), Run(s, ops).store), OK)
       <==> Readable(Run(s, ops).store)
    ensures Init(UnInit(Run(s, ops)), count, env).1 == OK <==> Readable(Run(s, ops).store)
    ensures Tidy(s.store) ==> Readable(Run(s, ops).store)
  {
    hide Init, PartOf, Covers, NonEmpty, Readable, Tidy, Undisturbed;
    RunGood(s, ops);
    var t := Run(s, ops);
    PrepareMirrors(UnInit(t), count, env);
    if Init(UnInit(t), count, env).1 == OK {
      MirrorsAgree(t.keys, Init(UnInit(t), count, env).0.keys, t.store);
    }
    if Tidy(s.store) {
      RunTidy(s, ops);
      TidyIsReadable(t.store);
    }
  }

  /** Removing the key that was just created undoes the creation: the store is as before, and the map too, empty domains
      aside. */
  lemma CreateThenRemove(s: State, d: nat, env: CreateEnv)
    requires Good(s) && Succeeds(s, OpCreate(d, env)) && CreateKey(s, d, env).1 == OK
    ensures RemoveKey(CreateKey(s, d, env).0, d, CreateKey(s, d, env).2, Ran).1 == OK
    ensures RemoveKey(CreateKey(s, d, env).0, d, CreateKey(s, d, env).2, Ran).0.store == s.store
    ensures NonEmpty(RemoveKey(CreateKey(s, d, env).0, d, CreateKey(s, d, env).2, Ran).0.keys) == NonEmpty(s.keys)
  {
    hide KeyName, PartOf, Covers, NextId, Touched, WithTime, WithoutKey, NonEmpty, CreateKey;
    assert s.inited && d < s.domainCount && NextId(Touched(s.keys, d)[d]).0 == OK by { CreateChecks(s, d, env); }
    var k := NextId(Touched(s.keys, d)[d]).1;
    var key := env.made.(exportable := true, deletable := true);
    NextIdIsFresh(s.keys, d);
    NewNameIsUnused(s, d, k);
    CreatedKey(s, d, env, k);
    CreateKeeps(s, d, env);
    var t := CreateKey(s, d, env).0;
    assert t.store - {KeyName(d, k)} == s.store;
    MapChanges(s.keys, d, k, key.time);
    MapChanges(Touched(s.keys, d), d, k, key.time);
    PutThenDrop(s.keys, d, k, key.time);
  }

  lemma CreateChecks(s: State, d: nat, env: CreateEnv)
    requires CreateKey(s, d, env).1 == OK
    ensures s.inited && d < s.domainCount && NextId(Touched(s.keys, d)[d]).0 == OK
  {
    hide KeyName, Effect, ReadKey;
  }

  lemma PutThenDrop(keys: KeyMap, d: nat, k: nat, time: int)
    requires !Has(keys, d, k)
    ensures NonEmpty(WithoutKey(WithTime(Touched(keys, d), d, k, time), d, k)) == NonEmpty(keys)
  {
    var touched := Touched(keys, d);
    var inner: map<nat, int> := touched[d];
    assert inner + map[k := time] - {k} == inner;
    var back := WithoutKey(WithTime(touched, d, k, time), d, k);
    assert inner != map[] ==> back == keys;
    assert inner == map[] ==> back == keys - {d};
  }
}
