/** What the key manager makes of outputs that its checks refuse: times that are no 32-bit numbers, exported material
    whose print contains "Error", and a removal that takes effect but is reported as failed. */
module KeyManagerLimits {
  import opened Bytes
  import opened KeyNames
  import opened KeyStore
  import opened KeyManager
  import opened KeyManagerStart
  import opened KeyManagerRuns
  import opened KeyManagerMirror
  import opened KeyRotation
  import Base64
  import CE = CipherEnvelope

  // ----- Creation times -----

  /** CreateKey can give out id k of domain d: the manager is started, and no key is stored under that name. */
  predicate CanCreate(s: State, d: nat, k: nat) {
    s.inited && d < s.domainCount && NextId(Touched(s.keys, d)[d]) == (OK, k) && KeyName(d, k) !in s.store
  }

  /** With its commands running, CreateKey makes the key in the store, and returns OK if and only if its creation time
      is a 32-bit number; otherwise the call never returns, and the map does not have the key. */
  lemma CreateOkExactly(s: State, d: nat, env: CreateEnv, k: nat)
    requires CanCreate(s, d, k) && env.cmd1 == env.cmd2 == env.cmd3 == Ran
    ensures CreateKey(s, d, env).1 == OK <==> HasTime(env.made)
    ensures !HasTime(env.made) ==> CreateKey(s, d, env).1 == SELF_DEADLOCK && !Has(CreateKey(s, d, env).0.keys, d, k)
    ensures CreateKey(s, d, env).0.store == s.store[KeyName(d, k) := env.made.(exportable := true, deletable := true)]
  {
    hide KeyName, MaxInt, TimeField, WithTime, NextId;
    var key := env.made.(exportable := true, deletable := true);
    ReportedTimeIsTime(key);
    MapChanges(s.keys, d, k, 0);
    var name := KeyName(d, k);
    assert Configured(Created(s.store, name, env.made), name, true).value == s.store[name := key];
    if Has(s.keys, d, k) {
      NextIdIsFresh(s.keys, d);
    }
  }

  /** From 2^31 seconds on, which is January 2038, no key can be created, and the attempt makes every later undisturbed
      start fail. */
  lemma LateKeyStopsInit(s: State, d: nat, env: CreateEnv, k: nat, count: nat, ienv: InitEnv)
    requires CanCreate(s, d, k) && env.cmd1 == env.cmd2 == env.cmd3 == Ran && env.made.time >= I32_LIMIT
    requires d < U32_LIMIT && k < U32_LIMIT && Undisturbed(UnInit(CreateKey(s, d, env).0), count, ienv)
    ensures CreateKey(s, d, env).1 == SELF_DEADLOCK
    ensures Init(UnInit(CreateKey(s, d, env).0), count, ienv).1 != OK
  {
    hide KeyName, CreateKey, Init, CanCreate;
    CreateOkExactly(s, d, env, k);
    UntimedKeyStopsInit(UnInit(CreateKey(s, d, env).0), count, ienv, d, k);
  }

  const Y2038 := 2147483648

  /** For example in a manager without keys, in any domain. */
  lemma LateKeyExample(count: nat, d: nat, material: bytes)
    requires d < count <= DOMAINID_MAX && DOMAINID_MIN <= count
    ensures var made := StoredKey(material, Y2038, false, false);
            var t := CreateKey(State(true, count, map[], map[]), d, CreateEnv(Ran, Ran, Ran, made));
            && t.1 == SELF_DEADLOCK
            && Init(UnInit(t.0), count, InitEnv(true, true, true, [KeyName(d, 0)], _ => Ran)).1 != OK
  {
    hide KeyName, Init, CreateKey;
    var made := StoredKey(material, Y2038, false, false);
    var s, env := State(true, count, map[], map[]), CreateEnv(Ran, Ran, Ran, made);
    var ienv := InitEnv(true, true, true, [KeyName(d, 0)], _ => Ran);
    assert CanCreate(s, d, 0);
    CreateOkExactly(s, d, env, 0);
    assert Lists(ienv, CreateKey(s, d, env).0.store);
    LateKeyStopsInit(s, d, env, 0, count, ienv);
  }

  /** Renewing an expired key, its commands running, returns OK if and only if the time of the replacement is a 32-bit
      number; otherwise the old key is gone all the same, and the map keeps its time. */
  lemma RenewalOkExactly(s: State, d: nat, lead: nat, now: nat, k: nat, r: Regen)
    requires Has(s.keys, d, k) && Expired(s.keys[d][k], now, lead) && lead * DAY < U32_LIMIT - now % U32_LIMIT
    requires KeyName(d, k) in s.store && s.store[KeyName(d, k)].deletable
    requires r.cmd1 == r.cmd2 == r.cmd3 == r.cmd4 == Ran
    ensures UpdateKey(s, d, lead, now, k, r).1 == if HasTime(r.made) then OK else ERROR
    ensures UpdateKey(s, d, lead, now, k, r).0.store
         == s.store[KeyName(d, k) := r.made.(exportable := false, deletable := true)]
    ensures !HasTime(r.made) ==> UpdateKey(s, d, lead, now, k, r).0.keys == s.keys
  {
    hide KeyName, MaxInt, TimeField, WithTime, Deleted, Created, Configured;
    var key := r.made.(exportable := false, deletable := true);
    ReportedTimeIsTime(key);
    RenewedStore(s.store, KeyName(d, k), r);
  }

  /** The keys of domain d are in the store and can be deleted, the sums for them fit, and all commands run. */
  ghost predicate CanRenew(s: State, d: nat, lead: nat, now: nat, regen: nat -> Regen) {
    && lead * DAY + now % U32_LIMIT < U32_LIMIT
    && (forall k: nat :: Has(s.keys, d, k) ==>
          s.keys[d][k] < I32_LIMIT && KeyName(d, k) in s.store && s.store[KeyName(d, k)].deletable)
    && forall k: nat :: regen(k).cmd1 == regen(k).cmd2 == regen(k).cmd3 == regen(k).cmd4 == Ran
  }

  /** Then the automatic renewal of a domain returns OK if and only if each key that it sets out to renew gets a
      replacement whose time is a 32-bit number. */
  lemma UpdateOkExactly(s: State, d: nat, lead: nat, now: nat, regen: nat -> Regen)
    requires WellFormed(s) && s.inited && d < s.domainCount && d in s.keys && lead <= 1825
    requires CanRenew(s, d, lead, now, regen)
    ensures AutoUpdate(s, d, lead, now, regen).1 == OK
       <==> forall k: nat :: Renews(s, d, k, now, lead) ==> HasTime(regen(k).made)
  {
    hide CanRenew, UpdateKeys, KeyName, Expired, HasTime;
    var ids := Ascending(s.keys[d].Keys);
    forall i | 0 <= i < |ids| ensures Has(s.keys, d, ids[i]) {
      assert ids[i] in ids;
    }
    UpdateKeysOk(s, d, lead, now, ids, regen);
    forall k: nat | Renews(s, d, k, now, lead) ensures k in ids {}
  }

  lemma {:induction false} UpdateKeysOk(s: State, d: nat, lead: nat, now: nat, ids: seq<nat>, regen: nat -> Regen)
    requires WellFormed(s) && CanRenew(s, d, lead, now, regen)
    requires forall i :: 0 <= i < |ids| ==> Has(s.keys, d, ids[i])
    requires forall i, j :: 0 <= i < j < |ids| ==> ids[i] < ids[j]
    ensures UpdateKeys(s, d, lead, now, ids, regen).1 == OK
       <==> forall i :: 0 <= i < |ids| && Renews(s, d, ids[i], now, lead) ==> HasTime(regen(ids[i]).made)
    decreases |ids|
  {
    hide WellFormed, Leaves, Has, Renews, CanRenew, HasTime, UpdateKey;
    if ids != [] {
      var n := |ids| - 1;
      UpdateKeysOk(s, d, lead, now, ids[..n], regen);
      var (t, rc) := UpdateKeys(s, d, lead, now, ids[..n], regen);
      if rc == OK {
        assert ids[n] !in ids[..n];
        UpdateKeysAt(s, d, lead, now, ids[..n], regen, ids[n]);
        LastRound(s, t, d, lead, now, ids[n], regen);
      } else {
        var i :| 0 <= i < n && Renews(s, d, ids[..n][i], now, lead) && !HasTime(regen(ids[..n][i]).made);
        assert ids[i] == ids[..n][i];
      }
    }
  }

  lemma LastRound(s: State, t: State, d: nat, lead: nat, now: nat, k: nat, regen: nat -> Regen)
    requires CanRenew(s, d, lead, now, regen) && Leaves(s, t, d, k, false, regen(k))
    ensures UpdateKey(t, d, lead, now, k, regen(k)).1 == OK <==> Renews(s, d, k, now, lead) ==> HasTime(regen(k).made)
  {
    hide KeyName, HasTime, Expired;
    assert t.keys[d][k] == s.keys[d][k];
    if Renews(s, d, k, now, lead) {
      RenewalOkExactly(t, d, lead, now, k, regen(k));
    }
  }

  // ----- Exported material -----

  /** Right after CreateKey made a key, encryption hangs if and only if the key has no material or the Base64 print of
      it contains "Error". */
  lemma NewKeyHangsExactly(s: State, d: nat, env: CreateEnv, k: nat, c: CE.Ciphers, alg: CE.SymAlg, p: bytes,
                           draw: CE.Draw)
    requires CanCreate(s, d, k) && env.cmd1 == env.cmd2 == env.cmd3 == Ran && HasTime(env.made)
    requires CE.Fits(draw, alg, |p|) && KnownAlg(AlgByte(alg)) && 0 < |p| < CE.PLAINTEXT_MAX_LENGTH
    ensures Encrypt(CreateKey(s, d, env).0, c, alg, d, p, true, draw).0 == SELF_DEADLOCK
       <==> env.made.material == [] || SaysError(Base64.Encode(env.made.material))
  {
    hide KeyName, CreateKey, CE.EncryptResult, Base64.Encode, Header, AlgByte, SaysError, HasTime;
    CreateOkExactly(s, d, env, k);
    NewKeyIsLatest(s, d, env, k);
    CreateKeeps(s, d, env);
  }

  lemma NewKeyIsLatest(s: State, d: nat, env: CreateEnv, k: nat)
    requires CanCreate(s, d, k) && CreateKey(s, d, env).1 == OK
    ensures Has(CreateKey(s, d, env).0.keys, d, k) && LatestKey(CreateKey(s, d, env).0, d) == k
  {
    hide KeyName, Effect, After, ReadKey, WithTime, NextId, Touched;
    NextIdIsFresh(s.keys, d);
    MapChanges(s.keys, d, k, 0);
    var t := CreateKey(s, d, env).0;
    forall x: nat ensures Has(t.keys, d, x) <==> Has(s.keys, d, x) || x == k {
      CreatedHas(s, d, env, k, x);
    }
    assert Has(t.keys, d, k) && t.keys[d] != map[];
    var inner: map<nat, int> := t.keys[d];
    assert MaxOf(inner.Keys) in inner && k in inner.Keys;
    assert Has(t.keys, d, MaxOf(inner.Keys));
  }

  lemma CreatedHas(s: State, d: nat, env: CreateEnv, k: nat, x: nat)
    requires CanCreate(s, d, k) && CreateKey(s, d, env).1 == OK
    ensures Has(CreateKey(s, d, env).0.keys, d, x) <==> Has(s.keys, d, x) || x == k
  {
    hide KeyName, Effect, After, WithTime, NextId, Touched;
    var keys := Touched(s.keys, d);
    MapChanges(s.keys, d, k, 0);
    forall time ensures Has(WithTime(keys, d, k, time), d, x) <==> Has(keys, d, x) || x == k {
      MapChanges(keys, d, k, time);
    }
  }

  /** There is such material of every key's 32 bytes. */
  lemma ErrorMaterial() returns (material: bytes)
    ensures |material| == 32 && SaysError(Base64.Encode(material))
  {
    hide Base64.Encode, Base64.Decode, Base64.UnusedBitsZero, SaysError;
    var text := ErrorPrint();
    assert Base64.Canonical(text) by { ErrorPrintIsCanonical(text); }
    Base64.CanonicalExactly(text);
    material := Base64.Decode(text);
    Base64.EncodeLength(material);
    assert text[0..|ERROR_TEXT|] == ERROR_TEXT;
    ErrorAtIsSaid(text, 0);
    PrintedBytes(material);
  }

  /** "Error", 38 times "A", and "=". */
  function ErrorPrint(): (r: bytes)
    ensures |r| == 44
  {
    ERROR_TEXT + seq(38, _ => 'A' as int) + [Base64.PAD]
  }

  lemma ErrorPrintIsCanonical(text: bytes)
    requires text == ErrorPrint()
    ensures Base64.Canonical(text)
  {
    Base64.PrefixUnique(text, 43);
    assert text[..43][42] == 'A' as int;
    assert Base64.Finds(text[..43])[42] == 0;
  }

  lemma ErrorPrintPrefix()
    ensures Base64.AlphabetPrefix(ErrorPrint()) == 43
  {
    hide Base64.AlphabetPrefix;
    Base64.PrefixUnique(ErrorPrint(), 43);
  }

  lemma LengthOf44(n: nat)
    requires (n + 2) / 3 * 4 == 44 && (3 - n % 3) % 3 == 1
    ensures n == 32
  {
  }

  lemma PrintedBytes(x: bytes)
    requires Base64.Encode(x) == ErrorPrint()
    ensures |x| == 32
  {
    hide Base64.Unpadded, Base64.Encode, Base64.AlphabetPrefix;
    Base64.EncodeLength(x);
    Base64.EncodePrefix(x);
    ErrorPrintPrefix();
    LengthOf44(|x|);
  }

  // ----- A removal that is reported as failed -----

  /** A removal that took effect but is reported as failed returns ERROR and leaves the map as it was; the ciphertexts
      under the key are refused from then on. */
  lemma UnreportedRemoval(s: State, c: CE.Ciphers, alg: CE.SymAlg, d: nat, p: bytes, ex: bool, draw: CE.Draw)
    requires c.Lawful() && CE.Fits(draw, alg, |p|) && Encrypt(s, c, alg, d, p, ex, draw).0 == OK
    requires s.domainCount <= DOMAINID_MAX && LatestKey(s, d) <= UINT16_MAX
    requires KeyName(d, LatestKey(s, d)) in s.store && s.store[KeyName(d, LatestKey(s, d))].deletable
    ensures RemoveKey(s, d, LatestKey(s, d), Unreported).1 == ERROR
    ensures RemoveKey(s, d, LatestKey(s, d), Unreported).0.keys == s.keys
    ensures Decrypt(RemoveKey(s, d, LatestKey(s, d), Unreported).0, c, alg, d,
                    Encrypt(s, c, alg, d, p, ex, draw).1, true).0 != OK
  {
    hide Encrypt, Decrypt, KeyName;
    EncryptUsesLatest(s, c, alg, d, p, ex, draw);
    LatestIsHeld(s, d);
    WithoutExportRefused(s, RemoveKey(s, d, LatestKey(s, d), Unreported).0, c, alg, d, p, ex, draw);
  }

  lemma LatestIsHeld(s: State, d: nat)
    requires d in s.keys && s.keys[d] != map[]
    ensures Has(s.keys, d, LatestKey(s, d))
  {
  }
}
