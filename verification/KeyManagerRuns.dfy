/** Whole runs of the key manager, in which any command may end in any way: which keys are known, and which ciphertexts
    decrypt. */
module KeyManagerRuns {
  import opened Bytes
  import opened KeyNames
  import opened KeyStore
  import opened KeyManager
  import opened KeyManagerStart
  import Base64
  import CE = CipherEnvelope

  datatype Op =
    | OpInit(count: nat, env: InitEnv)
    | OpUnInit
    | OpCreate(d: nat, cenv: CreateEnv)
    | OpRemove(d: nat, k: nat, cmd: Cmd)
    | OpUpdate(d: nat, lead: nat, now: nat, regen: nat -> Regen)
    | OpDeleteAll(cmds: bytes -> Cmd)

  /** A delete-all of which a deletion is reported as failed is outside the model; Allowed leaves it out of the runs. */
  function Step(s: State, op: Op): State {
    match op
    case OpInit(count, env) => Init(s, count, env).0
    case OpUnInit => UnInit(s)
    case OpCreate(d, env) => CreateKey(s, d, env).0
    case OpRemove(d, k, cmd) => RemoveKey(s, d, k, cmd).0
    case OpUpdate(d, lead, now, regen) => AutoUpdate(s, d, lead, now, regen).0
    case OpDeleteAll(cmds) => if AllDeletable(s, cmds) then DeleteAllKey(s, cmds).0 else s
  }

  predicate Allowed(s: State, op: Op) {
    op.OpDeleteAll? ==> AllDeletable(s, op.cmds)
  }

  function Run(s: State, ops: seq<Op>): State
    decreases |ops|
  {
    if ops == [] then s else Run(Step(s, ops[0]), ops[1..])
  }

  /** Ids are 32-bit numbers and the domain count is in its range. */
  ghost predicate WellFormed(s: State) {
    s.domainCount <= DOMAINID_MAX && forall d: nat, k: nat :: Has(s.keys, d, k) ==> d < U32_LIMIT && k < U32_LIMIT
  }

  // ----- Which keys are known over a run -----

  /** The operation removes key (d, k) from the store or the map, or gets as far as deleting it for a renewal. */
  predicate Hits(s: State, op: Op, d: nat, k: nat) {
    match op
    case OpRemove(d', k', cmd) => d' == d && k' == k && RemovalHits(s, d, k, cmd)
    case OpUpdate(d', lead, now, regen) =>
      d' == d && ExpiryParams(s, d, lead) == OK &&
      RenewalHits(s, d, lead, now, Ascending(s.keys[d].Keys), regen, k)
    case OpDeleteAll(_) => s.inited && Has(s.keys, d, k)
    case _ => false
  }

  /** The loop reaches key k, which has expired, and its deletion takes effect. */
  predicate RenewalHits(s: State, d: nat, lead: nat, now: nat, ids: seq<nat>, regen: nat -> Regen, k: nat) {
    exists n: nat :: n < |ids| && ids[n] == k && RoundHits(s, d, lead, now, ids, regen, n)
  }

  predicate RoundHits(s: State, d: nat, lead: nat, now: nat, ids: seq<nat>, regen: nat -> Regen, n: nat)
    requires n < |ids|
  {
    var (t, rc) := UpdateKeys(s, d, lead, now, ids[..n], regen);
    rc == OK && DeletesForRenewal(t, d, lead, now, ids[n], regen(ids[n]))
  }

  predicate DeletesForRenewal(t: State, d: nat, lead: nat, now: nat, k: nat, r: Regen) {
    && Has(t.keys, d, k) && Expired(t.keys[d][k], now, lead)
    && t.keys[d][k] < I64_LIMIT - VALID_TIME && lead * DAY <= U32_LIMIT - 1 - now % U32_LIMIT
    && (r.cmd1 == Ran || r.cmd1 == Unreported) && KeyName(d, k) in t.store && t.store[KeyName(d, k)].deletable
  }

  predicate RemovalHits(s: State, d: nat, k: nat, cmd: Cmd) {
    RemoveKey(s, d, k, cmd).1 == OK || RemoveKey(s, d, k, cmd).0.store != s.store
  }

  /** No operation of the run hits (d, k). */
  predicate Spares(s: State, ops: seq<Op>, d: nat, k: nat)
    decreases |ops|
  {
    ops != [] ==> !Hits(s, ops[0], d, k) && Allowed(s, ops[0]) && Spares(Step(s, ops[0]), ops[1..], d, k)
  }

  /** The store holds the key's material and exports it. */
  predicate Stored(s: State, d: nat, k: nat, material: bytes) {
    KeyName(d, k) in s.store && s.store[KeyName(d, k)].exportable && s.store[KeyName(d, k)].material == material
  }

  /** The start gets as far as reading times. */
  predicate StartsReading(s: State, count: nat, env: InitEnv) {
    && !s.inited && env.pathOk && DOMAINID_MIN <= count <= DOMAINID_MAX && env.tokenOk && !ListingFails(env)
    && ParseAll(env.names).Pairs?
  }

  /** Whether the manager knows key (d, k) after an operation that spares it, told from what the commands print. A start
      adds the keys it reads before the first read without a time; such a read clears the map if it prints anything. */
  predicate KnownAfter(s: State, op: Op, known: bool, d: nat, k: nat) {
    match op
    case OpUnInit => false
    case OpInit(count, env) =>
      if !StartsReading(s, count, env) then known
      else
        && !Clears(s.store, ParseAll(env.names).ps, env.cmds)
        && (known || Reaches(s.store, ParseAll(env.names).ps, env.cmds, d, k))
    case OpCreate(d', env) => known || (d' == d && CreateKey(s, d', env).1 == OK && CreateKey(s, d', env).2 == k)
    case _ => known
  }

  predicate Known(s: State, ops: seq<Op>, known: bool, d: nat, k: nat)
    decreases |ops|
  {
    if ops == [] then known else Known(Step(s, ops[0]), ops[1..], KnownAfter(s, ops[0], known, d, k), d, k)
  }

  /** Over every run that spares the key, whatever becomes of the commands: the store keeps its material, and the map
      has it if and only if it is known. */
  lemma {:induction false} RunTracks(s: State, ops: seq<Op>, known: bool, d: nat, k: nat, material: bytes)
    requires WellFormed(s) && Stored(s, d, k, material) && d < U32_LIMIT && k < U32_LIMIT && Spares(s, ops, d, k)
    requires Has(s.keys, d, k) <==> known
    ensures WellFormed(Run(s, ops)) && Stored(Run(s, ops), d, k, material)
    ensures Has(Run(s, ops).keys, d, k) <==> Known(s, ops, known, d, k)
    decreases |ops|
  {
    hide Step, Hits, Allowed, Stored, WellFormed, KnownAfter, Has;
    if ops == [] {
    } else {
      StepTracks(s, ops[0], known, d, k, material);
      RunTracks(Step(s, ops[0]), ops[1..], KnownAfter(s, ops[0], known, d, k), d, k, material);
    }
  }

  lemma StepTracks(s: State, op: Op, known: bool, d: nat, k: nat, material: bytes)
    requires WellFormed(s) && Stored(s, d, k, material) && d < U32_LIMIT && k < U32_LIMIT
    requires !Hits(s, op, d, k) && Allowed(s, op) && (Has(s.keys, d, k) <==> known)
    ensures WellFormed(Step(s, op)) && Stored(Step(s, op), d, k, material)
    ensures Has(Step(s, op).keys, d, k) <==> KnownAfter(s, op, known, d, k)
  {
    match op
    case OpInit(count, env) => InitTracks(s, count, env, d, k, material);
    case OpUnInit =>
    case OpCreate(d', env) => CreateTracks(s, d', env, d, k, material);
    case OpRemove(d', k', cmd) => RemoveTracks(s, d', k', cmd, d, k, material);
    case OpUpdate(d', lead, now, regen) =>
      if ExpiryParams(s, d', lead) == OK {
        UpdateTracks(s, d', lead, now, Ascending(s.keys[d'].Keys), regen, d, k, material);
      }
    case OpDeleteAll(cmds) => DeleteAllTracks(s, cmds, d, k, material);
  }

  /** A new id is above every live id of its domain and fits into 16 bits. */
  lemma NextIdIsFresh(keys: KeyMap, d: nat)
    requires NextId(Touched(keys, d)[d]).0 == OK
    ensures NextId(Touched(keys, d)[d]).1 <= UINT16_MAX
    ensures forall k: nat :: Has(keys, d, k) ==> k < NextId(Touched(keys, d)[d]).1
  {
    var inner := Touched(keys, d)[d];
    forall k: nat | Has(keys, d, k) ensures k < NextId(inner).1 {
      assert k in inner.Keys;
    }
  }

  /** What is stored under n is still there, exported, with its material. */
  predicate KeepsEntry(st: Store, t: Store, n: bytes)
    requires n in st
  {
    n in t && t[n].exportable && t[n].material == st[n].material
  }

  /** Creating under a name keeps material and export of whatever is stored under any name. */
  lemma EffectsKeep(st: Store, name: bytes, env: CreateEnv, n: bytes)
    requires n in st && st[n].exportable
    ensures KeepsEntry(st, After(env.cmd1, st, Some(Created(st, name, env.made))), n)
    ensures var e1 := Effect(env.cmd1, st, Some(Created(st, name, env.made)));
            e1.Some? ==>
              && KeepsEntry(st, After(env.cmd2, e1.value, Configured(e1.value, name, true)), n)
              && var e2 := Effect(env.cmd2, e1.value, Configured(e1.value, name, true));
                 e2.Some? ==> KeepsEntry(st, e2.value, n)
  {
  }

  lemma CreateTracks(s: State, d': nat, env: CreateEnv, d: nat, k: nat, material: bytes)
    requires WellFormed(s) && Stored(s, d, k, material) && d < U32_LIMIT && k < U32_LIMIT
    ensures WellFormed(CreateKey(s, d', env).0) && Stored(CreateKey(s, d', env).0, d, k, material)
    ensures Has(CreateKey(s, d', env).0.keys, d, k) <==>
              Has(s.keys, d, k) || (d' == d && CreateKey(s, d', env).1 == OK && CreateKey(s, d', env).2 == k)
  {
    hide KeyName, ReportedTime, WithTime, Touched, NextId, Effect, After, Created, Configured;
    MapChanges(s.keys, d', 0, 0);
    if ValidateDomain(s, d') == OK {
      var keys := Touched(s.keys, d');
      var (rc, id) := NextId(keys[d']);
      if rc == OK {
        NextIdIsFresh(s.keys, d');
        EffectsKeep(s.store, KeyName(d', id), env, KeyName(d, k));
        if CreateKey(s, d', env).1 == OK {
          var t := CreateKey(s, d', env).0;
          MapChanges(keys, d', id, ReadKey(t.store, KeyName(d', id), env.cmd3).Time());
        }
      }
    }
  }

  lemma RemoveTracks(s: State, d': nat, k': nat, cmd: Cmd, d: nat, k: nat, material: bytes)
    requires WellFormed(s) && Stored(s, d, k, material) && d < U32_LIMIT && k < U32_LIMIT
    requires !(d' == d && k' == k && RemovalHits(s, d, k, cmd))
    ensures WellFormed(RemoveKey(s, d', k', cmd).0) && Stored(RemoveKey(s, d', k', cmd).0, d, k, material)
    ensures Has(RemoveKey(s, d', k', cmd).0.keys, d, k) <==> Has(s.keys, d, k)
  {
    hide KeyName, WithoutKey;
    MapChanges(s.keys, d', k', 0);
    if Has(s.keys, d', k') && KeyName(d', k') == KeyName(d, k) {
      KeyNameInjective(d', k', d, k);
    }
  }

  lemma DeleteAllTracks(s: State, cmds: bytes -> Cmd, d: nat, k: nat, material: bytes)
    requires WellFormed(s) && Stored(s, d, k, material) && d < U32_LIMIT && k < U32_LIMIT
    requires AllDeletable(s, cmds) && !(s.inited && Has(s.keys, d, k))
    ensures WellFormed(DeleteAllKey(s, cmds).0) && Stored(DeleteAllKey(s, cmds).0, d, k, material)
    ensures Has(DeleteAllKey(s, cmds).0.keys, d, k) <==> Has(s.keys, d, k)
  {
    hide KeyName;
    if s.inited && KeyName(d, k) in NamesOf(s.keys) {
      var x, y :| x in s.keys && y in s.keys[x] && KeyName(d, k) == KeyName(x, y);
      assert Has(s.keys, x, y);
      KeyNameInjective(x, y, d, k);
    }
  }

  lemma {:induction false} UpdateTracks(s: State, d': nat, lead: nat, now: nat, ids: seq<nat>, regen: nat -> Regen,
                                        d: nat, k: nat, material: bytes)
    requires WellFormed(s) && Stored(s, d, k, material) && d < U32_LIMIT && k < U32_LIMIT
    requires !(d' == d && RenewalHits(s, d, lead, now, ids, regen, k))
    ensures var t := UpdateKeys(s, d', lead, now, ids, regen).0;
            && WellFormed(t) && Stored(t, d, k, material) && t.inited == s.inited && t.domainCount == s.domainCount
            && (Has(t.keys, d, k) <==> Has(s.keys, d, k))
    decreases |ids|
  {
    hide UpdateKey, Stored, WellFormed, DeletesForRenewal, Has;
    if ids == [] {
    } else {
      var n := |ids| - 1;
      if d' == d && RenewalHits(s, d, lead, now, ids[..n], regen, k) {
        HitsInFront(s, d, lead, now, ids, regen, k);
      }
      UpdateTracks(s, d', lead, now, ids[..n], regen, d, k, material);
      var (t, rc) := UpdateKeys(s, d', lead, now, ids[..n], regen);
      if rc == OK {
        assert d' == d && ids[n] == k ==> !RoundHits(s, d, lead, now, ids, regen, n);
        UpdateOneTracks(t, d', lead, now, ids[n], regen(ids[n]), d, k, material);
      }
    }
  }

  lemma HitsInFront(s: State, d: nat, lead: nat, now: nat, ids: seq<nat>, regen: nat -> Regen, k: nat)
    requires ids != [] && RenewalHits(s, d, lead, now, ids[..|ids| - 1], regen, k)
    ensures RenewalHits(s, d, lead, now, ids, regen, k)
  {
    hide DeletesForRenewal, UpdateKeys;
    var front := ids[..|ids| - 1];
    var n: nat :| n < |front| && front[n] == k && RoundHits(s, d, lead, now, front, regen, n);
    assert front[..n] == ids[..n] && ids[n] == front[n];
    assert RoundHits(s, d, lead, now, ids, regen, n);
  }

  /** Renewing one name leaves every other name alone. */
  lemma RegenerateKeeps(st: Store, name: bytes, r: Regen, n: bytes)
    requires n != name
    ensures n in Regenerate(st, name, r).0 <==> n in st
    ensures n in st ==> Regenerate(st, name, r).0[n] == st[n]
  {
  }

  /** Renewing a name whose deletion has no effect keeps what is stored under it. */
  lemma RegenerateWithoutDeletion(st: Store, name: bytes, r: Regen)
    requires name in st && st[name].exportable
    requires !((r.cmd1 == Ran || r.cmd1 == Unreported) && st[name].deletable)
    ensures KeepsEntry(st, Regenerate(st, name, r).0, name)
  {
  }

  lemma UpdateOneTracks(s: State, d': nat, lead: nat, now: nat, k': nat, r: Regen, d: nat, k: nat, material: bytes)
    requires WellFormed(s) && Stored(s, d, k, material) && d < U32_LIMIT && k < U32_LIMIT
    requires !(d' == d && k' == k && DeletesForRenewal(s, d, lead, now, k, r))
    ensures var t := UpdateKey(s, d', lead, now, k', r).0;
            && WellFormed(t) && Stored(t, d, k, material) && t.inited == s.inited && t.domainCount == s.domainCount
            && (Has(t.keys, d, k) <==> Has(s.keys, d, k))
  {
    hide KeyName, ReportedTime, Expired, WithTime, Regenerate, ReadKey;
    if Has(s.keys, d', k') && Expired(s.keys[d'][k'], now, lead) {
      var name := KeyName(d', k');
      if d' == d && k' == k {
        if s.keys[d'][k'] < I64_LIMIT - VALID_TIME && lead * DAY <= U32_LIMIT - 1 - now % U32_LIMIT {
          RegenerateWithoutDeletion(s.store, name, r);
        }
      } else {
        if name == KeyName(d, k) {
          KeyNameInjective(d', k', d, k);
        }
        RegenerateKeeps(s.store, name, r, KeyName(d, k));
      }
      var reading := ReadKey(Regenerate(s.store, name, r).0, name, r.cmd4);
      if !reading.NoReading? {
        MapChanges(s.keys, d', k', reading.Time());
      }
    }
  }

  /** What an update hits is lost: under the key's name there is nothing that exports, so the key's material is gone. An
      update keeps the key's entry if and only if it does not hit it. */
  lemma UpdateHitsExactly(s: State, d': nat, lead: nat, now: nat, regen: nat -> Regen, d: nat, k: nat, material: bytes)
    requires WellFormed(s) && Stored(s, d, k, material) && d < U32_LIMIT && k < U32_LIMIT
    ensures Stored(Step(s, OpUpdate(d', lead, now, regen)), d, k, material)
       <==> !Hits(s, OpUpdate(d', lead, now, regen), d, k)
  {
    hide Stored, UpdateKeys, RenewalHits, WellFormed;
    if ExpiryParams(s, d', lead) == OK {
      var ids := Ascending(s.keys[d'].Keys);
      if d' == d && RenewalHits(s, d, lead, now, ids, regen, k) {
        HitLoses(s, d, lead, now, ids, regen, k, material);
      } else {
        UpdateTracks(s, d', lead, now, ids, regen, d, k, material);
      }
    }
  }

  lemma {:induction false} HitLoses(s: State, d: nat, lead: nat, now: nat, ids: seq<nat>, regen: nat -> Regen, k: nat,
                                    material: bytes)
    requires WellFormed(s) && RenewalHits(s, d, lead, now, ids, regen, k)
    requires d < U32_LIMIT && k < U32_LIMIT && forall i, j :: 0 <= i < j < |ids| ==> ids[i] < ids[j]
    ensures WellFormed(UpdateKeys(s, d, lead, now, ids, regen).0)
    ensures !Stored(UpdateKeys(s, d, lead, now, ids, regen).0, d, k, material)
    decreases |ids|
  {
    hide UpdateKey, Stored, WellFormed, DeletesForRenewal, RoundHits;
    var n: nat :| n < |ids| && ids[n] == k && RoundHits(s, d, lead, now, ids, regen, n);
    var m := |ids| - 1;
    var (t, rc) := UpdateKeys(s, d, lead, now, ids[..m], regen);
    UpdateWellFormed(s, d, lead, now, ids[..m], regen);
    UpdateWellFormed(s, d, lead, now, ids, regen);
    if n == m {
      assert rc == OK && DeletesForRenewal(t, d, lead, now, k, regen(k)) by {
        HitInRound(s, d, lead, now, ids, regen, n);
      }
      RoundLoses(t, d, lead, now, k, regen(k), material);
    } else {
      assert ids[..m][..n] == ids[..n];
      SameRound(s, d, lead, now, ids, ids[..m], regen, n);
      assert ids[..m][n] == k;
      HitLoses(s, d, lead, now, ids[..m], regen, k, material);
      if rc == OK {
        LostStays(t, d, lead, now, ids[m], regen(ids[m]), k, material);
      }
    }
  }

  lemma HitInRound(s: State, d: nat, lead: nat, now: nat, ids: seq<nat>, regen: nat -> Regen, n: nat)
    requires n < |ids| && RoundHits(s, d, lead, now, ids, regen, n)
    ensures UpdateKeys(s, d, lead, now, ids[..n], regen).1 == OK
    ensures DeletesForRenewal(UpdateKeys(s, d, lead, now, ids[..n], regen).0, d, lead, now, ids[n], regen(ids[n]))
  {
  }

  lemma SameRound(s: State, d: nat, lead: nat, now: nat, ids: seq<nat>, front: seq<nat>, regen: nat -> Regen, n: nat)
    requires n < |ids| && n < |front| && front[..n] == ids[..n] && front[n] == ids[n]
    ensures RoundHits(s, d, lead, now, ids, regen, n) <==> RoundHits(s, d, lead, now, front, regen, n)
  {
    hide DeletesForRenewal, UpdateKeys;
  }

  lemma {:induction false} UpdateWellFormed(s: State, d: nat, lead: nat, now: nat, ids: seq<nat>, regen: nat -> Regen)
    requires WellFormed(s)
    ensures WellFormed(UpdateKeys(s, d, lead, now, ids, regen).0)
    decreases |ids|
  {
    hide UpdateKey, WellFormed;
    if ids == [] {
    } else {
      var n := |ids| - 1;
      UpdateWellFormed(s, d, lead, now, ids[..n], regen);
      UpdateOneWellFormed(UpdateKeys(s, d, lead, now, ids[..n], regen).0, d, lead, now, ids[n], regen(ids[n]));
    }
  }

  lemma UpdateOneWellFormed(s: State, d: nat, lead: nat, now: nat, k: nat, r: Regen)
    requires WellFormed(s)
    ensures WellFormed(UpdateKey(s, d, lead, now, k, r).0)
  {
    hide KeyName, Expired, WithTime, Regenerate, ReadKey;
    if Has(s.keys, d, k) {
      var reading := ReadKey(Regenerate(s.store, KeyName(d, k), r).0, KeyName(d, k), r.cmd4);
      if !reading.NoReading? {
        MapChanges(s.keys, d, k, reading.Time());
      }
    }
  }

  lemma RoundLoses(t: State, d: nat, lead: nat, now: nat, k: nat, r: Regen, material: bytes)
    requires DeletesForRenewal(t, d, lead, now, k, r)
    ensures !Stored(UpdateKey(t, d, lead, now, k, r).0, d, k, material)
  {
    hide KeyName, ReadKey, WithTime;
  }

  lemma LostStays(t: State, d: nat, lead: nat, now: nat, i: nat, r: Regen, k: nat, material: bytes)
    requires WellFormed(t) && !Stored(t, d, k, material) && i != k && d < U32_LIMIT && k < U32_LIMIT
    ensures !Stored(UpdateKey(t, d, lead, now, i, r).0, d, k, material)
  {
    hide KeyName, Expired, WithTime, Regenerate, ReadKey;
    if Has(t.keys, d, i) {
      if KeyName(d, i) == KeyName(d, k) {
        KeyNameInjective(d, i, d, k);
      }
      RegenerateKeeps(t.store, KeyName(d, i), r, KeyName(d, k));
    }
  }

  lemma {:induction false} ReadSomeIds(m: KeyMap, st: Store, ps: seq<(nat, nat)>, cmds: nat -> Cmd)
    requires forall d: nat, k: nat :: Has(m, d, k) ==> d < U32_LIMIT && k < U32_LIMIT
    requires forall p: (nat, nat) :: p in ps ==> p.0 < U32_LIMIT && p.1 < U32_LIMIT
    ensures forall d: nat, k: nat :: Has(ReadSome(m, st, ps, cmds).m, d, k) ==> d < U32_LIMIT && k < U32_LIMIT
    decreases |ps|
  {
    hide KeyName, ReadKey, Inserted;
    if ps == [] {
    } else {
      var n := |ps| - 1;
      ReadSomeIds(m, st, ps[..n], cmds);
      assert ps == ps[..n] + [ps[n]];
      assert ps[n] in ps;
      var r := ReadKey(st, KeyName(ps[n].0, ps[n].1), cmds(n));
      if r.Reading? {
        InsertedHas(ReadSome(m, st, ps[..n], cmds).m, ps[n].0, ps[n].1, r.time);
      }
    }
  }

  lemma InitTracks(s: State, count: nat, env: InitEnv, d: nat, k: nat, material: bytes)
    requires WellFormed(s) && Stored(s, d, k, material)
    ensures WellFormed(Init(s, count, env).0) && Stored(Init(s, count, env).0, d, k, material)
    ensures Has(Init(s, count, env).0.keys, d, k) <==> KnownAfter(s, OpInit(count, env), Has(s.keys, d, k), d, k)
  {
    hide KeyName, ParseName, ReadSome, ParseAll, Clears, Reaches;
    if StartsReading(s, count, env) {
      var ps := ParseAll(env.names).ps;
      ParsedPairsIds(env.names);
      ReadSomeIds(s.keys, s.store, ps, env.cmds);
      ReadSomeHas(s.keys, s.store, ps, env.cmds, d, k);
    }
  }

  // ----- When nothing is cut short -----

  /** Every start of the run lists the whole store, and none of its reads comes back without output. */
  ghost predicate ShowsAll(s: State, ops: seq<Op>)
    decreases |ops|
  {
    ops != [] ==>
      && (ops[0].OpInit? ==> Lists(ops[0].env, s.store) && forall i: nat :: ops[0].env.cmds(i) != Silent)
      && ShowsAll(Step(s, ops[0]), ops[1..])
  }

  /** Then a manager that is initialised in the end knows the key, if it did or was not initialised in the beginning. */
  lemma {:induction false} ShownIsKnown(s: State, ops: seq<Op>, known: bool, d: nat, k: nat, material: bytes)
    requires WellFormed(s) && Stored(s, d, k, material) && d < U32_LIMIT && k < U32_LIMIT && Spares(s, ops, d, k)
    requires (Has(s.keys, d, k) <==> known) && (s.inited ==> known) && ShowsAll(s, ops)
    ensures Run(s, ops).inited ==> Known(s, ops, known, d, k)
    decreases |ops|
  {
    hide Step, Hits, Allowed, Stored, WellFormed, KnownAfter, Has;
    if ops == [] {
    } else {
      StepTracks(s, ops[0], known, d, k, material);
      StepShown(s, ops[0], known, d, k, material);
      ShownIsKnown(Step(s, ops[0]), ops[1..], KnownAfter(s, ops[0], known, d, k), d, k, material);
    }
  }

  lemma StepShown(s: State, op: Op, known: bool, d: nat, k: nat, material: bytes)
    requires Stored(s, d, k, material) && d < U32_LIMIT && k < U32_LIMIT && (s.inited ==> known)
    requires op.OpInit? ==> Lists(op.env, s.store) && forall i: nat :: op.env.cmds(i) != Silent
    ensures Step(s, op).inited ==> KnownAfter(s, op, known, d, k)
  {
    hide KeyName, ParseName, ReadAll, ParseAll, CreateKey, UpdateKeys, RemoveKey, Clears, Reaches, TimedUpTo;
    match op
    case OpInit(count, env) =>
      if StartsReading(s, count, env) && Init(s, count, env).1 == OK {
        var ps := ParseAll(env.names).ps;
        ReadAllOk(s.keys, s.store, ps, env.cmds);
        ParsePrintedName(d, k);
        ParseAllMembers(env.names, d, k);
        NoClearing(s.store, ps, env.cmds);
        AllReached(s.store, ps, env.cmds, d, k);
      }
    case OpCreate(d', env) => CreateKeeps(s, d', env);
    case OpRemove(d', k', cmd) => RemoveKeeps(s, d', k', cmd);
    case OpUpdate(d', lead, now, regen) =>
      if ExpiryParams(s, d', lead) == OK {
        UpdateKeeps(s, d', lead, now, Ascending(s.keys[d'].Keys), regen);
      }
    case _ =>
  }

  lemma AllReached(st: Store, ps: seq<(nat, nat)>, cmds: nat -> Cmd, d: nat, k: nat)
    requires TimedUpTo(st, ps, cmds, |ps|) && (d, k) in ps
    ensures Reaches(st, ps, cmds, d, k)
  {
    hide ReadPair;
    var i: nat :| i < |ps| && ps[i] == (d, k);
    assert TimedUpTo(st, ps, cmds, i + 1);
  }

  lemma CreateKeeps(s: State, d: nat, env: CreateEnv)
    ensures CreateKey(s, d, env).0.inited == s.inited && CreateKey(s, d, env).0.domainCount == s.domainCount
  {
    hide KeyName, ReadKey, Effect, NextId;
  }

  lemma RemoveKeeps(s: State, d: nat, k: nat, cmd: Cmd)
    ensures RemoveKey(s, d, k, cmd).0.inited == s.inited && RemoveKey(s, d, k, cmd).0.domainCount == s.domainCount
  {
  }

  lemma {:induction false} UpdateKeeps(s: State, d: nat, lead: nat, now: nat, ids: seq<nat>, regen: nat -> Regen)
    ensures UpdateKeys(s, d, lead, now, ids, regen).0.inited == s.inited
    decreases |ids|
  {
    hide KeyName, ReadKey, Regenerate;
    if ids == [] {
    } else {
      UpdateKeeps(s, d, lead, now, ids[..|ids| - 1], regen);
    }
  }

  // ----- Encrypting and decrypting -----

  /** The header names the key exactly when both ids fit into 16 bits. */
  lemma HeaderNamesKey(s: State, alg: byte, d: nat, k: nat, rest: bytes)
    requires rest != []
    ensures ParseHeader(s, Header(alg, d, k) + rest) ==
            Parsed(CipherParams(s, d % U16_LIMIT, alg), alg, d % U16_LIMIT, k % U16_LIMIT)
    ensures ParseHeader(s, Header(alg, d, k) + rest).d == d && ParseHeader(s, Header(alg, d, k) + rest).k == k
       <==> d < U16_LIMIT && k < U16_LIMIT
  {
    var h := Header(alg, d, k) + rest;
    assert h[2..4] == ToBe(d, 2) && h[4..6] == ToBe(k, 2);
    TwoBytes(d);
    TwoBytes(k);
    Be2(d / 256 % 256, d % 256);
    Be2(k / 256 % 256, k % 256);
    LowBytes(d);
    LowBytes(k);
  }

  lemma LowBytes(v: nat)
    ensures v / 256 % 256 * 256 + v % 256 == v % U16_LIMIT
  {
  }

  /** The greatest key of a domain, which encryption uses. */
  function LatestKey(s: State, d: nat): nat {
    if d in s.keys && s.keys[d] != map[] then MaxOf(s.keys[d].Keys) else 0
  }

  lemma EncryptUsesLatest(s: State, c: CE.Ciphers, alg: CE.SymAlg, d: nat, p: bytes, ex: bool, draw: CE.Draw)
    requires c.Lawful() && CE.Fits(draw, alg, |p|) && Encrypt(s, c, alg, d, p, ex, draw).0 == OK
    ensures s.inited && d < s.domainCount && d in s.keys && s.keys[d] != map[] && KnownAlg(AlgByte(alg))
    ensures KeyName(d, LatestKey(s, d)) in s.store && s.store[KeyName(d, LatestKey(s, d))].exportable
    ensures draw.iv.Some? && draw.aad.Some?
    ensures var material := s.store[KeyName(d, LatestKey(s, d))].material;
            && material != [] && CE.EncryptResult(c, alg, p, material, draw).0 == CE.OK
            && Encrypt(s, c, alg, d, p, ex, draw).1
               == Base64.Encode(Header(AlgByte(alg), d, LatestKey(s, d))
                                + CE.EncryptResult(c, alg, p, material, draw).1)
  {
    hide Base64.Encode, Header, KeyName;
  }

  /** A text made under key (d, k) decrypts in a state that is initialised, counts the domain and whose store holds the
      key's material if and only if the state's map has the key; its latest key does not matter. */
  lemma DecryptsExactly(s: State, t: State, c: CE.Ciphers, alg: CE.SymAlg, d: nat, p: bytes, ex: bool, draw: CE.Draw)
    requires c.Lawful() && CE.Fits(draw, alg, |p|) && Encrypt(s, c, alg, d, p, ex, draw).0 == OK
    requires d < U16_LIMIT && LatestKey(s, d) <= UINT16_MAX
    requires KeyName(d, LatestKey(s, d)) in s.store
    requires Stored(t, d, LatestKey(s, d), s.store[KeyName(d, LatestKey(s, d))].material)
    requires t.inited && d < t.domainCount
    ensures Decrypt(t, c, alg, d, Encrypt(s, c, alg, d, p, ex, draw).1, true) == (OK, p)
       <==> Has(t.keys, d, LatestKey(s, d))
  {
    hide Base64.Encode, Base64.Decode, Header, KeyName, CE.EncryptResult, CE.DecryptResult, ParseHeader;
    EncryptUsesLatest(s, c, alg, d, p, ex, draw);
    var k := LatestKey(s, d);
    var material := s.store[KeyName(d, k)].material;
    var text := Encrypt(s, c, alg, d, p, ex, draw).1;
    var ct := CE.EncryptResult(c, alg, p, material, draw).1;
    CE.EncryptDecrypt(c, alg, p, material, draw);
    SealedLength(c, alg, p, material, draw);
    var h := Header(AlgByte(alg), d, k);
    HeaderLength(AlgByte(alg), d, k);
    Base64.RoundTrip(h + ct);
    Base64.EncodeLength(h + ct);
    HeaderNamesKey(t, AlgByte(alg), d, k, ct);
    assert (h + ct)[MAX_INDEX..] == ct;
  }

  lemma AlgByteInjective(a: CE.SymAlg, b: CE.SymAlg)
    ensures AlgByte(a) == AlgByte(b) <==> a == b
  {
  }

  /** No state decrypts a text under another algorithm or domain than it was made with. */
  lemma OtherAlgOrDomainRefused(s: State, t: State, c: CE.Ciphers, alg: CE.SymAlg, d: nat, p: bytes, ex: bool,
                                draw: CE.Draw, alg': CE.SymAlg, d': nat, ex': bool)
    requires c.Lawful() && CE.Fits(draw, alg, |p|) && Encrypt(s, c, alg, d, p, ex, draw).0 == OK
    requires s.domainCount <= DOMAINID_MAX && (alg', d') != (alg, d)
    ensures Decrypt(t, c, alg', d', Encrypt(s, c, alg, d, p, ex, draw).1, ex').0 != OK
  {
    hide Base64.Encode, Base64.Decode, Header, KeyName, CE.EncryptResult;
    hide CE.DecryptResult, ParseHeader, AlgByte, CipherParams;
    EncryptUsesLatest(s, c, alg, d, p, ex, draw);
    AlgByteInjective(alg, alg');
    var k := LatestKey(s, d);
    var material := s.store[KeyName(d, k)].material;
    var ct := CE.EncryptResult(c, alg, p, material, draw).1;
    SealedLength(c, alg, p, material, draw);
    Base64.RoundTrip(Header(AlgByte(alg), d, k) + ct);
    HeaderNamesKey(t, AlgByte(alg), d, k, ct);
  }

  lemma HeaderLength(alg: byte, d: nat, k: nat)
    ensures |Header(alg, d, k)| == MAX_INDEX
  {
  }

  lemma SealedLength(c: CE.Ciphers, alg: CE.SymAlg, p: bytes, material: bytes, draw: CE.Draw)
    requires c.Lawful() && CE.Fits(draw, alg, |p|) && draw.iv.Some? && draw.aad.Some?
    requires CE.EncryptResult(c, alg, p, material, draw).0 == CE.OK
    ensures 0 < |p| < CE.PLAINTEXT_MAX_LENGTH
    ensures |CE.EncryptResult(c, alg, p, material, draw).1| == |p| + CE.CIPHER_OFFSET
  {
    CE.EncryptDecrypt(c, alg, p, material, draw);
  }

  /** Over any run that spares the key, with any command ending in any way: if the manager ends up initialised and
      counts the domain, the old ciphertext decrypts if and only if the key is known, and it is known if no start was
      cut short by a read without output. */
  lemma StaysDecryptable(s: State, ops: seq<Op>, c: CE.Ciphers, alg: CE.SymAlg, d: nat, p: bytes, ex: bool,
                         draw: CE.Draw)
    requires WellFormed(s) && c.Lawful() && CE.Fits(draw, alg, |p|)
    requires Encrypt(s, c, alg, d, p, ex, draw).0 == OK
    requires LatestKey(s, d) <= UINT16_MAX
    requires Spares(s, ops, d, LatestKey(s, d))
    requires Run(s, ops).inited && d < Run(s, ops).domainCount
    ensures Decrypt(Run(s, ops), c, alg, d, Encrypt(s, c, alg, d, p, ex, draw).1, true) == (OK, p)
       <==> Known(s, ops, true, d, LatestKey(s, d))
    ensures ShowsAll(s, ops) ==>
              Decrypt(Run(s, ops), c, alg, d, Encrypt(s, c, alg, d, p, ex, draw).1, true) == (OK, p)
  {
    hide Encrypt, Decrypt, Spares, Run, KeyName, Known, ShowsAll;
    EncryptUsesLatest(s, c, alg, d, p, ex, draw);
    var k := LatestKey(s, d);
    var material := s.store[KeyName(d, k)].material;
    RunTracks(s, ops, true, d, k, material);
    DecryptsExactly(s, Run(s, ops), c, alg, d, p, ex, draw);
    if ShowsAll(s, ops) {
      ShownIsKnown(s, ops, true, d, k, material);
    }
  }

  /** After a stop and a start that returns OK and counts the domain, a ciphertext made before decrypts if and only if
      the start read its key before the first read without output. */
  lemma RestartDecryptsExactly(s: State, count: nat, env: InitEnv, c: CE.Ciphers, alg: CE.SymAlg, d: nat, p: bytes,
                               ex: bool, draw: CE.Draw)
    requires WellFormed(s) && c.Lawful() && CE.Fits(draw, alg, |p|)
    requires Encrypt(s, c, alg, d, p, ex, draw).0 == OK && LatestKey(s, d) <= UINT16_MAX
    requires Init(UnInit(s), count, env).1 == OK && d < count
    ensures ParseAll(env.names).Pairs?
    ensures Decrypt(Init(UnInit(s), count, env).0, c, alg, d, Encrypt(s, c, alg, d, p, ex, draw).1, true) == (OK, p)
       <==> Reaches(s.store, ParseAll(env.names).ps, env.cmds, d, LatestKey(s, d))
  {
    hide Encrypt, Decrypt, KeyName, ReadSome, ParseAll, Reaches, Clears, Timed;
    EncryptUsesLatest(s, c, alg, d, p, ex, draw);
    StopCodes(env.names);
    var k := LatestKey(s, d);
    var material := s.store[KeyName(d, k)].material;
    var t := UnInit(s);
    ReadSomeHas(t.keys, t.store, ParseAll(env.names).ps, env.cmds, d, k);
    OkDoesNotClear(t.keys, t.store, ParseAll(env.names).ps, env.cmds);
    InitTracks(t, count, env, d, k, material);
    DecryptsExactly(s, Init(t, count, env).0, c, alg, d, p, ex, draw);
  }

  /** A read that clears the map makes the start fail. */
  lemma {:induction false} OkDoesNotClear(m: KeyMap, st: Store, ps: seq<(nat, nat)>, cmds: nat -> Cmd)
    requires ReadAll(m, st, ps, cmds).1 == OK
    ensures !Clears(st, ps, cmds)
    decreases |ps|
  {
    hide KeyName, ReportedTime, TimedUpTo, Clears, Inserted;
    if ps == [] {
      NothingRead(st, ps, cmds, 0, 0);
    } else {
      var n := |ps| - 1;
      ReadSomeHas(m, st, ps[..n], cmds, 0, 0);
      ClearsLast(st, ps, cmds);
      TimedFront(st, ps, cmds, n);
      if ReadSome(m, st, ps[..n], cmds).More? {
        NoClearing(st, ps[..n], cmds);
      } else {
        OkDoesNotClear(m, st, ps[..n], cmds);
      }
    }
  }
}
