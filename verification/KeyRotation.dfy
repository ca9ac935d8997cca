/** What automatic renewal of expired keys does to a domain: which keys change, what an expiry check says afterwards,
    and what becomes of encryption and of older ciphertexts. */
module KeyRotation {
  import opened Bytes
  import opened KeyNames
  import opened KeyStore
  import opened KeyManager
  import opened KeyManagerStart
  import opened KeyManagerRuns
  import Base64
  import CE = CipherEnvelope

  /** Renewal puts a new key under the name: the deletion ran, or there was nothing to delete. */
  predicate Replaces(st: Store, name: bytes, r: Regen) {
    r.cmd1 == Ran || name !in st
  }

  /** The key that a renewal which returns OK leaves under the name. Its configuration does not ask for export. */
  function Renewed(st: Store, name: bytes, r: Regen): StoredKey {
    if Replaces(st, name, r) then r.made.(exportable := false, deletable := r.cmd3 == Ran)
    else st[name].(deletable := st[name].deletable || r.cmd3 == Ran)
  }

  lemma RegenerateLeaves(st: Store, name: bytes, r: Regen)
    requires Regenerate(st, name, r).1 == OK && !ReadKey(Regenerate(st, name, r).0, name, r.cmd4).NoReading?
    requires ReadKey(Regenerate(st, name, r).0, name, r.cmd4).Time() != -1
    ensures name in Regenerate(st, name, r).0 && Regenerate(st, name, r).0[name] == Renewed(st, name, r)
    ensures ReadKey(Regenerate(st, name, r).0, name, r.cmd4).Time() == Renewed(st, name, r).time
    ensures HasTime(Renewed(st, name, r))
  {
    ReportedTimeIsTime(Renewed(st, name, r));
  }

  /** An update of s at this time and lead sets out to renew key k of domain d. */
  predicate Renews(s: State, d: nat, k: nat, now: nat, lead: nat) {
    Has(s.keys, d, k) && Expired(s.keys[d][k], now, lead)
  }

  /** From s to t: the ids of all domains stay, other domains too, and key k of domain d is renewed or left alone, in
      the map and in the store. */
  ghost predicate Leaves(s: State, t: State, d: nat, k: nat, renewed: bool, r: Regen) {
    && WellFormed(t) && t.inited == s.inited && t.domainCount == s.domainCount
    && Has(s.keys, d, k) && t.keys.Keys == s.keys.Keys && t.keys[d].Keys == s.keys[d].Keys
    && (forall x :: x in s.keys && x != d ==> t.keys[x] == s.keys[x])
    && if renewed then
         && KeyName(d, k) in t.store && t.store[KeyName(d, k)] == Renewed(s.store, KeyName(d, k), r)
         && t.keys[d][k] == Renewed(s.store, KeyName(d, k), r).time && HasTime(Renewed(s.store, KeyName(d, k), r))
       else
         && t.keys[d][k] == s.keys[d][k]
         && (KeyName(d, k) in s.store <==> KeyName(d, k) in t.store)
         && (KeyName(d, k) in s.store ==> t.store[KeyName(d, k)] == s.store[KeyName(d, k)])
  }

  lemma LeavesThenLeaves(s: State, t: State, u: State, d: nat, k: nat, first: bool, second: bool, r: Regen)
    requires Leaves(s, t, d, k, first, r) && Leaves(t, u, d, k, second, r) && !(first && second)
    ensures Leaves(s, u, d, k, first || second, r)
  {
    hide KeyName, WellFormed;
  }

  /** One round of the loop: an expired key is renewed in store and map, anything else stays. */
  lemma UpdateOneAt(s: State, d: nat, lead: nat, now: nat, i: nat, r: Regen, k: nat)
    requires WellFormed(s) && Has(s.keys, d, i) && Has(s.keys, d, k) && UpdateKey(s, d, lead, now, i, r).1 == OK
    ensures Leaves(s, UpdateKey(s, d, lead, now, i, r).0, d, k, i == k && Renews(s, d, k, now, lead), r)
    ensures lead * DAY + now % U32_LIMIT < U32_LIMIT
  {
    hide KeyName, ReportedTime, Expired, Regenerate, Renewed, ReadKey, WithTime;
    if Renews(s, d, i, now, lead) {
      var name := KeyName(d, i);
      RegenerateLeaves(s.store, name, r);
      MapChanges(s.keys, d, i, Renewed(s.store, name, r).time);
      WithTimeKeys(s.keys, d, i, Renewed(s.store, name, r).time);
      if i != k {
        if name == KeyName(d, k) {
          KeyNameInjective(d, i, d, k);
        }
        RegenerateKeeps(s.store, name, r, KeyName(d, k));
      }
    }
  }

  lemma WithTimeKeys(keys: KeyMap, d: nat, k: nat, time: int)
    requires Has(keys, d, k)
    ensures WithTime(keys, d, k, time).Keys == keys.Keys && WithTime(keys, d, k, time)[d].Keys == keys[d].Keys
    ensures forall x :: x in keys && x != d ==> WithTime(keys, d, k, time)[x] == keys[x]
  {
  }

  lemma LeavesItself(s: State, d: nat, k: nat, r: Regen)
    requires WellFormed(s) && Has(s.keys, d, k)
    ensures Leaves(s, s, d, k, false, r)
  {
  }

  lemma LeavesKeeps(s: State, t: State, d: nat, k: nat, renewed: bool, r: Regen, i: nat)
    requires Leaves(s, t, d, k, renewed, r) && Has(s.keys, d, i)
    ensures WellFormed(t) && Has(t.keys, d, i) && Has(t.keys, d, k)
    ensures !renewed ==> t.keys[d][k] == s.keys[d][k]
  {
  }

  /** One round after others. */
  lemma RoundLeaves(s: State, t: State, d: nat, lead: nat, now: nat, i: nat, r: Regen, k: nat, first: bool, own: Regen)
    requires Leaves(s, t, d, k, first, own) && Has(s.keys, d, i) && UpdateKey(t, d, lead, now, i, r).1 == OK
    requires if i == k then !first && own == r else true
    ensures Leaves(s, UpdateKey(t, d, lead, now, i, r).0, d, k, first || (i == k && Renews(s, d, k, now, lead)), own)
    ensures lead * DAY + now % U32_LIMIT < U32_LIMIT
  {
    hide KeyName, Expired, UpdateKey, WellFormed, Leaves;
    LeavesKeeps(s, t, d, k, first, own, i);
    UpdateOneAt(t, d, lead, now, i, r, k);
    var u := UpdateKey(t, d, lead, now, i, r).0;
    if i == k {
      assert Renews(t, d, k, now, lead) == Renews(s, d, k, now, lead);
    } else {
      OtherRound(t, u, d, k, r, own);
    }
    LeavesThenLeaves(s, t, u, d, k, first, i == k && Renews(t, d, k, now, lead), own);
  }

  /** The whole loop, seen from one key of the domain. */
  lemma {:induction false} UpdateKeysAt(s: State, d: nat, lead: nat, now: nat, ids: seq<nat>, regen: nat -> Regen,
                                        k: nat)
    requires WellFormed(s) && Has(s.keys, d, k)
    requires forall i :: 0 <= i < |ids| ==> Has(s.keys, d, ids[i])
    requires forall i, j :: 0 <= i < j < |ids| ==> ids[i] < ids[j]
    requires UpdateKeys(s, d, lead, now, ids, regen).1 == OK
    ensures Leaves(s, UpdateKeys(s, d, lead, now, ids, regen).0, d, k, k in ids && Renews(s, d, k, now, lead), regen(k))
    ensures ids != [] ==> lead * DAY + now % U32_LIMIT < U32_LIMIT
    decreases |ids|
  {
    hide UpdateKey, WellFormed, Leaves, Has, Renews;
    if ids == [] {
      LeavesItself(s, d, k, regen(k));
    } else {
      var n := |ids| - 1;
      assert ids == ids[..n] + [ids[n]];
      UpdateKeysAt(s, d, lead, now, ids[..n], regen, k);
      var t := UpdateKeys(s, d, lead, now, ids[..n], regen).0;
      var first := k in ids[..n] && Renews(s, d, k, now, lead);
      assert ids[n] !in ids[..n];
      RoundLeaves(s, t, d, lead, now, ids[n], regen(ids[n]), k, first, regen(k));
    }
  }

  /** What leaves a key alone does not depend on its replacement. */
  lemma OtherRound(s: State, t: State, d: nat, k: nat, r: Regen, r': Regen)
    requires Leaves(s, t, d, k, false, r)
    ensures Leaves(s, t, d, k, false, r')
  {
  }

  /** An update that returns OK keeps every key id, leaves other domains and unexpired keys alone, and gives each
      expired key the time the store reports for its replacement. */
  lemma RenewalKeepsIds(s: State, d: nat, lead: nat, now: nat, regen: nat -> Regen, k: nat)
    requires WellFormed(s) && AutoUpdate(s, d, lead, now, regen).1 == OK
    requires Has(s.keys, d, k)
    ensures WellFormed(AutoUpdate(s, d, lead, now, regen).0)
    ensures AutoUpdate(s, d, lead, now, regen).0.keys.Keys == s.keys.Keys
    ensures AutoUpdate(s, d, lead, now, regen).0.keys[d].Keys == s.keys[d].Keys
    ensures forall x :: x in s.keys && x != d ==> AutoUpdate(s, d, lead, now, regen).0.keys[x] == s.keys[x]
    ensures AutoUpdate(s, d, lead, now, regen).0.inited == s.inited
    ensures AutoUpdate(s, d, lead, now, regen).0.domainCount == s.domainCount
    ensures lead * DAY + now % U32_LIMIT < U32_LIMIT
    ensures AutoUpdate(s, d, lead, now, regen).0.keys[d][k]
         == if Renews(s, d, k, now, lead) then Renewed(s.store, KeyName(d, k), regen(k)).time else s.keys[d][k]
    ensures Renews(s, d, k, now, lead) ==>
              && KeyName(d, k) in AutoUpdate(s, d, lead, now, regen).0.store
              && AutoUpdate(s, d, lead, now, regen).0.store[KeyName(d, k)] == Renewed(s.store, KeyName(d, k), regen(k))
    ensures !Renews(s, d, k, now, lead) && KeyName(d, k) in s.store ==>
              && KeyName(d, k) in AutoUpdate(s, d, lead, now, regen).0.store
              && AutoUpdate(s, d, lead, now, regen).0.store[KeyName(d, k)] == s.store[KeyName(d, k)]
  {
    hide KeyName, Expired, UpdateKeys, WellFormed, Renewed;
    var ids := Ascending(s.keys[d].Keys);
    assert k in ids;
    forall i | 0 <= i < |ids| ensures Has(s.keys, d, ids[i]) {
      assert ids[i] in ids;
    }
    UpdateKeysAt(s, d, lead, now, ids, regen, k);
  }

  /** When renewed keys report a time not before now, every key of the domain is unexpired after an update with a lead
      below the full validity, so a check with the same time and lead returns OK. */
  lemma UpdateThenCheck(s: State, d: nat, lead: nat, now: nat, regen: nat -> Regen)
    requires WellFormed(s) && AutoUpdate(s, d, lead, now, regen).1 == OK
    requires d in s.keys && s.keys[d] != map[]
    requires forall k: nat :: Renews(s, d, k, now, lead) ==> Renewed(s.store, KeyName(d, k), regen(k)).time >= now
    requires lead < VALID_DAYS
    ensures d in AutoUpdate(s, d, lead, now, regen).0.keys
    ensures forall k: nat :: k in s.keys[d] ==>
              && k in AutoUpdate(s, d, lead, now, regen).0.keys[d]
              && !Expired(AutoUpdate(s, d, lead, now, regen).0.keys[d][k], now, lead)
    ensures CheckDomainKeysExpired(AutoUpdate(s, d, lead, now, regen).0, d, lead, now) == OK
  {
    hide AutoUpdate, WellFormed, KeyName, Renewed;
    assert ExpiryParams(s, d, lead) == OK by { UpdateParams(s, d, lead, now, regen); }
    forall k: nat | k in s.keys[d]
      ensures d in AutoUpdate(s, d, lead, now, regen).0.keys && k in AutoUpdate(s, d, lead, now, regen).0.keys[d]
      ensures !Expired(AutoUpdate(s, d, lead, now, regen).0.keys[d][k], now, lead)
      ensures ExpiryParams(AutoUpdate(s, d, lead, now, regen).0, d, lead) == OK
    {
      RenewalKeepsIds(s, d, lead, now, regen, k);
      LeadFits(lead);
    }
    var k :| k in s.keys[d];
    assert k in AutoUpdate(s, d, lead, now, regen).0.keys[d];
  }

  lemma LeadFits(lead: nat)
    ensures lead * DAY < VALID_TIME <==> lead < VALID_DAYS
  {
  }

  lemma UpdateParams(s: State, d: nat, lead: nat, now: nat, regen: nat -> Regen)
    requires AutoUpdate(s, d, lead, now, regen).1 == OK
    ensures ExpiryParams(s, d, lead) == OK
  {
  }

  /** The bound on the lead is exact: when every renewed key is dated the very second of the update, the check
      succeeds afterwards if and only if the lead is below 1825 days or some key had not expired. */
  lemma FullLeadNeverSatisfied(s: State, d: nat, lead: nat, now: nat, regen: nat -> Regen)
    requires WellFormed(s) && AutoUpdate(s, d, lead, now, regen).1 == OK
    requires d in s.keys && s.keys[d] != map[] && now < U32_LIMIT
    requires forall k: nat :: Renews(s, d, k, now, lead) ==> Renewed(s.store, KeyName(d, k), regen(k)).time == now
    ensures CheckDomainKeysExpired(AutoUpdate(s, d, lead, now, regen).0, d, lead, now) == OK
       <==> lead < VALID_DAYS || exists k: nat :: k in s.keys[d] && !Renews(s, d, k, now, lead)
  {
    hide AutoUpdate, WellFormed, KeyName, Renewed;
    assert ExpiryParams(s, d, lead) == OK by { UpdateParams(s, d, lead, now, regen); }
    var t := AutoUpdate(s, d, lead, now, regen).0;
    if lead < VALID_DAYS {
      UpdateThenCheck(s, d, lead, now, regen);
    } else {
      forall k: nat | k in s.keys[d]
        ensures d in t.keys && t.keys[d].Keys == s.keys[d].Keys && ExpiryParams(t, d, lead) == OK
        ensures Expired(t.keys[d][k], now, lead) <==> Renews(s, d, k, now, lead)
      {
        RenewalKeepsIds(s, d, lead, now, regen, k);
      }
      var k :| k in s.keys[d];
      assert k in t.keys[d];
    }
  }

  // ----- What renewal does to ciphertexts -----

  /** Renewal does not ask for export. So right after an update, encryption hangs if and only if the update replaced the
      latest key: it was expired, and its deletion ran. */
  lemma RenewalStopsEncryption(s: State, d: nat, lead: nat, now: nat, regen: nat -> Regen,
                               c: CE.Ciphers, alg: CE.SymAlg, p: bytes, draw: CE.Draw)
    requires WellFormed(s) && AutoUpdate(s, d, lead, now, regen).1 == OK
    requires CE.Fits(draw, alg, |p|) && CipherParams(s, d, AlgByte(alg)) == OK && 0 < |p| < CE.PLAINTEXT_MAX_LENGTH
    requires s.keys[d] != map[] && Exported(s.store, KeyName(d, LatestKey(s, d)), true).Some?
    requires s.store[KeyName(d, LatestKey(s, d))].material != []
    ensures Encrypt(AutoUpdate(s, d, lead, now, regen).0, c, alg, d, p, true, draw).0 == SELF_DEADLOCK
       <==> Renews(s, d, LatestKey(s, d), now, lead) && regen(LatestKey(s, d)).cmd1 == Ran
  {
    hide AutoUpdate, WellFormed, KeyName, Expired, CE.EncryptResult, Base64.Encode, Header, AlgByte;
    RenewalKeepsIds(s, d, lead, now, regen, LatestKey(s, d));
  }

  /** A ciphertext made just before an update decrypts after it if and only if the update did not replace its key. */
  lemma RenewalStopsDecryption(s: State, d: nat, lead: nat, now: nat, regen: nat -> Regen,
                               c: CE.Ciphers, alg: CE.SymAlg, p: bytes, ex: bool, draw: CE.Draw)
    requires WellFormed(s) && c.Lawful() && CE.Fits(draw, alg, |p|)
    requires AutoUpdate(s, d, lead, now, regen).1 == OK
    requires Encrypt(s, c, alg, d, p, ex, draw).0 == OK && LatestKey(s, d) <= UINT16_MAX
    ensures Decrypt(AutoUpdate(s, d, lead, now, regen).0, c, alg, d, Encrypt(s, c, alg, d, p, ex, draw).1, true)
              == (OK, p)
       <==> !(Renews(s, d, LatestKey(s, d), now, lead) && regen(LatestKey(s, d)).cmd1 == Ran)
  {
    hide AutoUpdate, Encrypt, Decrypt, WellFormed, KeyName, Expired;
    EncryptUsesLatest(s, c, alg, d, p, ex, draw);
    var k := LatestKey(s, d);
    var t := AutoUpdate(s, d, lead, now, regen).0;
    RenewalKeepsIds(s, d, lead, now, regen, k);
    assert d < U16_LIMIT by { DomainIsSmall(s); }
    if Renews(s, d, k, now, lead) && regen(k).cmd1 == Ran {
      WithoutExportRefused(s, t, c, alg, d, p, ex, draw);
    } else {
      DecryptsExactly(s, t, c, alg, d, p, ex, draw);
    }
  }

  lemma DomainIsSmall(s: State)
    requires WellFormed(s)
    ensures s.domainCount <= DOMAINID_MAX
  {
  }

  /** A text made under (d, k) is refused in a state whose store does not export that key. */
  lemma WithoutExportRefused(s: State, t: State, c: CE.Ciphers, alg: CE.SymAlg, d: nat, p: bytes, ex: bool,
                             draw: CE.Draw)
    requires c.Lawful() && CE.Fits(draw, alg, |p|) && Encrypt(s, c, alg, d, p, ex, draw).0 == OK
    requires d < U16_LIMIT && LatestKey(s, d) <= UINT16_MAX
    requires KeyName(d, LatestKey(s, d)) !in t.store || !t.store[KeyName(d, LatestKey(s, d))].exportable
    ensures Decrypt(t, c, alg, d, Encrypt(s, c, alg, d, p, ex, draw).1, true).0 != OK
  {
    hide Base64.Encode, Base64.Decode, Header, KeyName, CE.EncryptResult, CE.DecryptResult, ParseHeader;
    EncryptUsesLatest(s, c, alg, d, p, ex, draw);
    var k := LatestKey(s, d);
    var ct := CE.EncryptResult(c, alg, p, s.store[KeyName(d, k)].material, draw).1;
    SealedLength(c, alg, p, s.store[KeyName(d, k)].material, draw);
    var h := Header(AlgByte(alg), d, k);
    HeaderLength(AlgByte(alg), d, k);
    Base64.RoundTrip(h + ct);
    HeaderNamesKey(t, AlgByte(alg), d, k, ct);
  }
}
