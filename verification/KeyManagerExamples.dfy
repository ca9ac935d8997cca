/** Concrete runs of the key manager: that the theorems about it speak of something, and what goes wrong where they say
    it does. */
module KeyManagerExamples {
  import opened Bytes
  import opened KeyNames
  import opened KeyStore
  import opened KeyManager
  import opened KeyManagerStart
  import opened KeyManagerRuns
  import opened KeyRotation
  import opened KeyManagerLimits
  import Base64
  import CE = CipherEnvelope

  /** A start whose read of an earlier key comes back without output returns OK and forgets the key of a ciphertext. */
  lemma CutShortStart(s: State, count: nat, env: InitEnv, earlier: bytes, c: CE.Ciphers, alg: CE.SymAlg, d: nat,
                      p: bytes, ex: bool, draw: CE.Draw)
    requires WellFormed(s) && c.Lawful() && CE.Fits(draw, alg, |p|)
    requires Encrypt(s, c, alg, d, p, ex, draw).0 == OK && LatestKey(s, d) <= UINT16_MAX
    requires env.pathOk && env.tokenOk && env.listOk && DOMAINID_MIN <= count <= DOMAINID_MAX && d < count
    requires env.names == [earlier, KeyName(d, LatestKey(s, d))] && env.cmds(0) == Silent
    requires d < U32_LIMIT && ParseName(earlier).Pair? && !SaysError(earlier)
    ensures Init(UnInit(s), count, env).1 == OK && Init(UnInit(s), count, env).0.inited
    ensures Decrypt(Init(UnInit(s), count, env).0, c, alg, d, Encrypt(s, c, alg, d, p, ex, draw).1, true).0 == ERROR
  {
    hide Encrypt, KeyName, ParseName, SaysError, AlgByte;
    var k := LatestKey(s, d);
    ParsePrintedName(d, k);
    OwnNameSaysNoError(d, k);
    var e := ParseName(earlier);
    ListOfTwo(env.names, e.d, e.k, d, k);
    var ps: seq<(nat, nat)> := [(e.d, e.k), (d, k)];
    assert ps[..1] == [(e.d, e.k)] && ps[..1][..0] == [];
    assert ReadSome(map[], s.store, ps[..1], env.cmds) == Ended(map[], OK);
    assert ReadSome(map[], s.store, ps, env.cmds) == Ended(map[], OK);
  }

  lemma ListOfTwo(names: seq<bytes>, d: nat, k: nat, d': nat, k': nat)
    requires |names| == 2 && ParseName(names[0]) == Pair(d, k) && ParseName(names[1]) == Pair(d', k')
    ensures ParseAll(names) == Pairs([(d, k), (d', k')])
  {
    hide ParseName;
    assert names[..1] == [names[0]] && names[..1][..0] == [];
    assert ParseAll(names[..1]) == Pairs([(d, k)]);
  }

  // ----- One key, a cipher that changes nothing -----

  function Zeros(n: nat): (r: bytes)
    ensures |r| == n && forall i :: 0 <= i < n ==> r[i] == 0
  {
    seq(n, _ => 0)
  }

  function Identity(): (c: CE.Ciphers)
    ensures c.Lawful()
  {
    CE.Ciphers((s, k, iv, aad, p) => (p, Zeros(CE.TAG_LEN)), (s, k, iv, aad, ct, tag) => Some(ct),
               (k, iv, p) => p, (k, iv, ct) => ct)
  }

  function Key(): StoredKey {
    StoredKey(Zeros(32), 0, true, true)
  }

  /** Key 0 of domain 0, made at time 0. */
  function One(): State {
    State(true, 2, map[0 := map[0 := 0]], map[KeyName(0, 0) := Key()])
  }

  function Draws(): CE.Draw {
    CE.Draw(Some(Zeros(12)), Some(Zeros(16)), Zeros(45))
  }

  lemma OneLatest()
    ensures LatestKey(One(), 0) == 0 && WellFormed(One())
  {
    assert One().keys[0].Keys == {0};
  }

  lemma ZeroSplits()
    ensures Base64.Split3(0, 0, 0) == [0, 0, 0, 0]
  {
  }

  lemma {:induction false} ZeroValues(x: bytes)
    requires forall i :: 0 <= i < |x| ==> x[i] == 0
    ensures forall i :: 0 <= i < |Base64.Values(x)| ==> Base64.Values(x)[i] == 0
  {
    hide Base64.Split3;
    ZeroSplits();
    if |x| >= 3 {
      ZeroValues(x[3..]);
      assert Base64.Values(x) == [0, 0, 0, 0] + Base64.Values(x[3..]);
    } else if x != [] {
      assert Base64.Values(x) == Base64.ValuesTail(x) == [0, 0, 0, 0][..|x| + 1];
    }
  }

  lemma ZerosSayNoError(x: bytes)
    requires forall i :: 0 <= i < |x| ==> x[i] == 0
    ensures !SaysError(Base64.Encode(x))
  {
    hide SaysError, Base64.Values;
    ZeroValues(x);
    var text := Base64.Encode(x);
    forall i | 0 <= i < |text| ensures text[i] != 'E' as int {
      assert i < |Base64.Unpadded(x)| ==> text[i] == Base64.Char64(Base64.Values(x)[i]);
    }
    ErrorNeedsE(text);
  }

  lemma OneEncrypts()
    ensures CE.Fits(Draws(), CE.AES256_GCM, 1)
    ensures Encrypt(One(), Identity(), CE.AES256_GCM, 0, [7], true, Draws()).0 == OK
  {
    hide KeyName, SaysError, Base64.Encode;
    ZerosSayNoError(Zeros(32));
    OneLatest();
    CE.EncryptDecrypt(Identity(), CE.AES256_GCM, [7], Zeros(32), Draws());
  }

  /** Stop and start, everything read. */
  function Restart(): seq<Op> {
    [OpUnInit, OpInit(2, InitEnv(true, true, true, [KeyName(0, 0)], _ => Ran))]
  }

  function Started(): State {
    Init(UnInit(One()), 2, InitEnv(true, true, true, [KeyName(0, 0)], _ => Ran)).0
  }

  lemma RestartGives()
    ensures Run(One(), Restart()) == Started() && Started().inited && Started().domainCount == 2
    ensures Spares(One(), Restart(), 0, 0) && ShowsAll(One(), Restart())
  {
    hide KeyName, Init;
    var ops := Restart();
    assert ops[1..] == [ops[1]] && ops[1..][1..] == [];
    assert Run(Step(Step(One(), ops[0]), ops[1]), []) == Started();
    StartedWell();
  }

  lemma StartedWell()
    ensures Started().inited && Started().domainCount == 2
  {
    hide KeyName, ParseName, SaysError, Init;
    ParsePrintedName(0, 0);
    OwnNameSaysNoError(0, 0);
    var env := InitEnv(true, true, true, [KeyName(0, 0)], _ => Ran);
    assert Lists(env, One().store);
    InitExactly(UnInit(One()), 2, env);
    InitIsInited(UnInit(One()), 2, env);
  }

  lemma InitIsInited(s: State, count: nat, env: InitEnv)
    requires !s.inited && Init(s, count, env).1 == OK
    ensures Init(s, count, env).0.inited && Init(s, count, env).0.domainCount == count
  {
    hide ParseAll, ReadAll, SaysError;
    StopCodes(env.names);
  }

  /** StaysDecryptable applies: the ciphertext of the one key decrypts after the restart. */
  lemma DecryptsAfterRestart()
    ensures CE.Fits(Draws(), CE.AES256_GCM, 1)
    ensures Decrypt(Started(), Identity(), CE.AES256_GCM, 0,
                    Encrypt(One(), Identity(), CE.AES256_GCM, 0, [7], true, Draws()).1, true) == (OK, [7])
  {
    hide Encrypt, Decrypt, Started, Restart, One, Spares, Run, ShowsAll, Identity;
    OneEncrypts();
    OneLatest();
    RestartGives();
    StaysDecryptable(One(), Restart(), Identity(), CE.AES256_GCM, 0, [7], true, Draws());
  }

  /** CutShortStart applies: with key 0 of domain 1 listed first and its read silent, the same ciphertext is refused. */
  lemma RefusedAfterCutShortStart()
    ensures CE.Fits(Draws(), CE.AES256_GCM, 1)
    ensures var env := InitEnv(true, true, true, [KeyName(1, 0), KeyName(0, 0)], i => if i == 0 then Silent else Ran);
            && Init(UnInit(One()), 2, env).1 == OK
            && Decrypt(Init(UnInit(One()), 2, env).0, Identity(), CE.AES256_GCM, 0,
                       Encrypt(One(), Identity(), CE.AES256_GCM, 0, [7], true, Draws()).1, true).0 == ERROR
  {
    hide Encrypt, Decrypt, Init, One, Identity, KeyName, ParseName;
    OneEncrypts();
    OneLatest();
    ParsePrintedName(1, 0);
    OwnNameSaysNoError(1, 0);
    CutShortStart(One(), 2,
                  InitEnv(true, true, true, [KeyName(1, 0), KeyName(0, 0)], i => if i == 0 then Silent else Ran),
                  KeyName(1, 0), Identity(), CE.AES256_GCM, 0, [7], true, Draws());
  }

  // ----- Renewal -----

  const LATER := 200000000

  /** Every command runs, and the new key is dated now. */
  function Renewal(): nat -> Regen {
    _ => Regen(Ran, Ran, Ran, Ran, StoredKey(Zeros(32), LATER, false, false))
  }

  lemma RenewalReturnsOk()
    ensures AutoUpdate(One(), 0, 0, LATER, Renewal()).1 == OK && Renews(One(), 0, 0, LATER, 0)
  {
    hide KeyName, UpdateKey, ReportedTime;
    var s := One();
    RenewalOkExactly(s, 0, 0, LATER, 0, Renewal()(0));
    var ids := Ascending(s.keys[0].Keys);
    assert s.keys[0].Keys == {0};
    assert 0 in ids && ids[0] in ids && ids[|ids| - 1] in ids;
    assert ids == [0];
    assert ids[..0] == [];
    assert UpdateKeys(s, 0, 0, LATER, ids, Renewal()) == UpdateKey(s, 0, 0, LATER, 0, Renewal()(0));
  }

  /** RenewalStopsEncryption and RenewalStopsDecryption apply: after renewing the one key, encryption hangs and the
      ciphertext made before is refused. */
  lemma RenewalLocksOut()
    ensures CE.Fits(Draws(), CE.AES256_GCM, 1)
    ensures var t := AutoUpdate(One(), 0, 0, LATER, Renewal()).0;
            && Encrypt(t, Identity(), CE.AES256_GCM, 0, [7], true, Draws()).0 == SELF_DEADLOCK
            && Decrypt(t, Identity(), CE.AES256_GCM, 0,
                       Encrypt(One(), Identity(), CE.AES256_GCM, 0, [7], true, Draws()).1, true) != (OK, [7])
  {
    hide Encrypt, Decrypt, AutoUpdate, Identity, KeyName, SaysError, Renews, CE.Fits;
    OneEncrypts();
    OneLatest();
    ZerosSayNoError(Zeros(32));
    RenewalReturnsOk();
    RenewalStopsEncryption(One(), 0, 0, LATER, Renewal(), Identity(), CE.AES256_GCM, [7], Draws());
    RenewalStopsDecryption(One(), 0, 0, LATER, Renewal(), Identity(), CE.AES256_GCM, [7], true, Draws());
  }
}
