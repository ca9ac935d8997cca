/** src/cdf/modules/key_management/openbao/openbao_key_manager.cpp: the in-memory key map and the operations that keep
    it beside the external store. Each operation is a function on states; the class does the same step by step. */
module KeyManager {
  import opened Bytes
  import opened KeyNames
  import opened KeyStore
  import Base64
  import CE = CipherEnvelope
  import opened KeyManagerType

  const DOMAINID_MAX := 1023
  const MAX_KEY_COUNT := 1023
  const DOMAINID_MIN := 2
  const DAY := 86400
  const VALID_DAYS := 1825
  const VALID_TIME := 157680000   // VALID_DAYS * DAY
  const UINT16_MAX := 65535
  const VERSION := 1
  const MAX_INDEX := 6

  /** The codes of KeyManagerRC in use, and two outcomes that are not codes: the call locks the mutex it already holds
      and never returns, and a std::out_of_range exception leaves the call. */
  datatype RC = OK | ERROR | INVALID_PARAM | KEY_EXPIRED | UNINITED | DOMAIN_COUNT_INVALID | SELF_DEADLOCK | EXCEPTION

  /** Key ids and creation times, by domain. */
  type KeyMap = map<nat, map<nat, int>>

  datatype State = State(inited: bool, domainCount: nat, keys: KeyMap, store: Store)

  // ----- Ids -----

  lemma {:induction false} FindMax(s: set<nat>) returns (m: nat)
    requires s != {}
    ensures m in s && forall x :: x in s ==> x <= m
    decreases |s|
  {
    var k :| k in s;
    if s == {k} {
      m := k;
    } else {
      var n := FindMax(s - {k});
      m := if n > k then n else k;
      forall x | x in s ensures x <= m {
        assert x != k ==> x in s - {k};
      }
    }
  }

  lemma HasMax(s: set<nat>)
    requires s != {}
    ensures exists m :: m in s && forall x :: x in s ==> x <= m
  {
    var m := FindMax(s);
  }

  /** rbegin() of an ordered map's keys. */
  function MaxOf(s: set<nat>): (m: nat)
    requires s != {}
    ensures m in s && forall x :: x in s ==> x <= m
  {
    HasMax(s);
    var m :| m in s && forall x :: x in s ==> x <= m;
    m
  }

  /** The keys of an ordered map in iteration order. */
  function Ascending(s: set<nat>): (r: seq<nat>)
    ensures forall x :: x in r <==> x in s
    ensures forall i, j :: 0 <= i < j < |r| ==> r[i] < r[j]
  {
    if s == {} then [] else Ascending(s - {MaxOf(s)}) + [MaxOf(s)]
  }

  /** begin() of an ordered map's keys. */
  function FirstOf(s: set<nat>): (m: nat)
    requires s != {}
    ensures m in s && forall x :: x in s ==> m <= x
  {
    var x :| x in s;
    assert x in Ascending(s);
    Ascending(s)[0]
  }

  /** operator[] on the outer map: a missing domain appears with no keys. */
  function Touched(keys: KeyMap, d: nat): (r: KeyMap)
    ensures d in r
  {
    if d in keys then keys else keys[d := map[]]
  }

  function WithTime(keys: KeyMap, d: nat, k: nat, time: int): KeyMap
    requires d in keys
  {
    var inner: map<nat, int> := keys[d];
    keys[d := inner + map[k := time]]
  }

  /** GenerateKeyId on the (touched) inner map: one above the greatest id, or 0. */
  function NextId(inner: map<nat, int>): (RC, nat) {
    if |inner| >= MAX_KEY_COUNT then (INVALID_PARAM, 0)
    else if inner == map[] then (OK, 0)
    else if MaxOf(inner.Keys) >= UINT16_MAX then (INVALID_PARAM, 0)
    else (OK, MaxOf(inner.Keys) + 1)
  }

  // ----- Creating and removing keys -----

  /** How the three commands of CreateKey end, and the key a store would make. */
  datatype CreateEnv = CreateEnv(cmd1: Cmd, cmd2: Cmd, cmd3: Cmd, made: StoredKey)

  function ValidateDomain(s: State, d: nat): RC {
    if !s.inited then UNINITED else if d >= s.domainCount then INVALID_PARAM else OK
  }

  function CreateKey(s: State, d: nat, env: CreateEnv): (State, RC, nat) {
    if ValidateDomain(s, d) != OK then (s, ValidateDomain(s, d), 0)
    else
      var s1 := s.(keys := Touched(s.keys, d));
      var (rc, k) := NextId(s1.keys[d]);
      var name := KeyName(d, k);
      if rc != OK then (s1, rc, 0)
      else match Effect(env.cmd1, s.store, Some(Created(s.store, name, env.made)))
        case None => (s1.(store := After(env.cmd1, s.store, Some(Created(s.store, name, env.made)))), ERROR, 0)
        case Some(st1) =>
          match Effect(env.cmd2, st1, Configured(st1, name, true))
          case None => (s1.(store := After(env.cmd2, st1, Configured(st1, name, true))), ERROR, 0)
          case Some(st) =>
            var r := ReadKey(st, name, env.cmd3);
            if r.NoReading? then (s1.(store := st), ERROR, 0)
            else if r.Time() == -1 then (s1.(store := st), SELF_DEADLOCK, 0)
            else (s1.(store := st, keys := WithTime(s1.keys, d, k, r.Time())), OK, k)
  }

  function WithoutKey(keys: KeyMap, d: nat, k: nat): KeyMap
    requires d in keys
  {
    var inner := keys[d] - {k};
    if inner == map[] then keys - {d} else keys[d := inner]
  }

  function RemoveKey(s: State, d: nat, k: nat, cmd: Cmd): (State, RC) {
    if !s.inited then (s, UNINITED)
    else if s.keys == map[] then (s, ERROR)
    else if d >= s.domainCount || k > UINT16_MAX || d !in s.keys || k !in s.keys[d] then (s, INVALID_PARAM)
    else match Effect(cmd, s.store, Deleted(s.store, KeyName(d, k)))
      case None => (s.(store := After(cmd, s.store, Deleted(s.store, KeyName(d, k)))), ERROR)
      case Some(st) => (s.(store := st, keys := WithoutKey(s.keys, d, k)), OK)
  }

  function NamesOf(keys: KeyMap): set<bytes> {
    set d, k | d in keys && k in keys[d] :: KeyName(d, k)
  }

  /** Every deletion of DeleteAllKey is reported as a success. */
  predicate AllDeletable(s: State, cmds: bytes -> Cmd) {
    forall n :: n in NamesOf(s.keys) ==> Effect(cmds(n), s.store, Deleted(s.store, n)).Some?
  }

  /** The names whose deletion ran. */
  function RanOf(names: set<bytes>, cmds: bytes -> Cmd): set<bytes> {
    set n | n in names && cmds(n) == Ran
  }

  /** Ids are 32-bit numbers. */
  predicate SmallIds(keys: KeyMap) {
    forall d, k :: d in keys && k in keys[d] ==> d < U32_LIMIT && k < U32_LIMIT
  }

  lemma NamesWithout(keys: KeyMap, d: nat, k: nat, left: KeyMap)
    requires SmallIds(keys) && d in keys && k in keys[d] && left == keys[d := keys[d] - {k}]
    ensures SmallIds(left) && NamesOf(left) == NamesOf(keys) - {KeyName(d, k)}
  {
    hide KeyName;
    forall n | n in NamesOf(keys) ensures n in NamesOf(left) <==> n != KeyName(d, k) {
      var d', k' :| d' in keys && k' in keys[d'] && n == KeyName(d', k');
      if n == KeyName(d, k) {
        forall x, y | x in left && y in left[x] ensures KeyName(x, y) != n {
          if KeyName(x, y) == n {
            KeyNameInjective(x, y, d, k);
          }
        }
      } else {
        assert d' in left && k' in left[d'];
      }
    }
  }

  lemma NameOf(keys: KeyMap, d: nat, k: nat)
    requires d in keys && k in keys[d]
    ensures KeyName(d, k) in NamesOf(keys)
  {
  }

  lemma NamesNoEmpty(keys: KeyMap, d: nat)
    requires SmallIds(keys) && d in keys && keys[d] == map[]
    ensures SmallIds(keys - {d}) && NamesOf(keys - {d}) == NamesOf(keys)
  {
    hide KeyName;
    forall n | n in NamesOf(keys) ensures n in NamesOf(keys - {d}) {
      var d', k' :| d' in keys && k' in keys[d'] && n == KeyName(d', k');
      assert d' in keys - {d};
    }
  }

  /** What the loops of DeleteAllKey keep: the names done with and those still in the map make up all, and the store
      lacks those done with whose deletion ran. */
  ghost predicate Deleting(keys: KeyMap, now: Store, gone: set<bytes>, names: set<bytes>, st: Store,
                           cmds: bytes -> Cmd)
  {
    && SmallIds(keys)
    && now == st - RanOf(gone, cmds) && gone !! NamesOf(keys) && gone + NamesOf(keys) == names
    && forall n :: n in names ==> Effect(cmds(n), st, Deleted(st, n)).Some?
  }

  lemma DropEmpty(keys: KeyMap, now: Store, d: nat, gone: set<bytes>, names: set<bytes>, st: Store, cmds: bytes -> Cmd)
    requires Deleting(keys, now, gone, names, st, cmds) && d in keys && keys[d] == map[]
    ensures Deleting(keys - {d}, now, gone, names, st, cmds)
  {
    hide KeyName, NamesOf, SmallIds;
    NamesNoEmpty(keys, d);
  }

  /** DeleteAllKey when every deletion is reported as a success. */
  function DeleteAllKey(s: State, cmds: bytes -> Cmd): (State, RC)
    requires AllDeletable(s, cmds)
  {
    if !s.inited then (s, UNINITED)
    else (s.(keys := map[], store := s.store - RanOf(NamesOf(s.keys), cmds)), OK)
  }

  // ----- Starting and stopping -----

  function UnInit(s: State): State {
    s.(inited := false, domainCount := DOMAINID_MIN, keys := map[])
  }

  /** The pairs the listing parses to, in order, or why parsing stops. */
  datatype Pairs = Pairs(ps: seq<(nat, nat)>) | Stop(rc: RC)

  function ParseAll(names: seq<bytes>): Pairs {
    if names == [] then Pairs([])
    else match ParseAll(names[..|names| - 1])
      case Stop(rc) => Stop(rc)
      case Pairs(ps) =>
        match ParseName(names[|names| - 1])
        case Pair(d, k) => Pairs(ps + [(d, k)])
        case NotOurs => Pairs(ps)
        case Bad => Stop(ERROR)
        case Throws => Stop(EXCEPTION)
  }

  /** Where reading the times stands: it goes on with this map, or has ended with this map and code. */
  datatype Progress = More(m: KeyMap) | Ended(m: KeyMap, rc: RC)

  /** Reading the creation time of each pair into the map; insert does not overwrite. A read without any output ends it
      with OK, and one without a time clears the map. */
  function ReadSome(keys: KeyMap, store: Store, ps: seq<(nat, nat)>, cmds: nat -> Cmd): Progress {
    if ps == [] then More(keys)
    else
      var n := |ps| - 1;
      var before := ReadSome(keys, store, ps[..n], cmds);
      if before.Ended? then before
      else ReadOne(before.m, ps[n].0, ps[n].1, ReadKey(store, KeyName(ps[n].0, ps[n].1), cmds(n)))
  }

  function ReadOne(m: KeyMap, d: nat, k: nat, r: Reading): Progress {
    if r.NoReading? then Ended(m, ERROR)
    else if r.NoOutput? then Ended(m, OK)
    else if r.time == -1 then Ended(map[], ERROR)
    else More(Inserted(m, d, k, r.time))
  }

  function ReadAll(keys: KeyMap, store: Store, ps: seq<(nat, nat)>, cmds: nat -> Cmd): (KeyMap, RC) {
    match ReadSome(keys, store, ps, cmds)
    case More(m) => (m, OK)
    case Ended(m, rc) => (m, rc)
  }

  function Inserted(keys: KeyMap, d: nat, k: nat, time: int): KeyMap {
    var m := Touched(keys, d);
    if k in m[d] then m else WithTime(m, d, k, time)
  }

  /** The outside of one Init call: whether path and token are accepted, whether the listing is printed in full, its
      order, and how the n-th read ends. */
  datatype InitEnv = InitEnv(pathOk: bool, tokenOk: bool, listOk: bool, names: seq<bytes>, cmds: nat -> Cmd)

  /** The listing shows every name in the store. */
  ghost predicate Lists(env: InitEnv, store: Store) {
    forall n :: n in env.names <==> n in store
  }

  /** A listing with a name that contains "Error" counts as a failure. */
  predicate ListingFails(env: InitEnv) {
    !env.listOk || exists n :: n in env.names && SaysError(n)
  }

  function Init(s: State, domainCount: nat, env: InitEnv): (State, RC) {
    if s.inited then (s, OK)
    else if !env.pathOk then (s, INVALID_PARAM)
    else if domainCount < DOMAINID_MIN || domainCount > DOMAINID_MAX then (s, DOMAIN_COUNT_INVALID)
    else if !env.tokenOk || ListingFails(env) then (s, ERROR)
    else match ParseAll(env.names)
      case Stop(rc) => (s, rc)
      case Pairs(ps) =>
        var (m, rc) := ReadAll(s.keys, s.store, ps, env.cmds);
        if rc != OK then (s.(keys := m), ERROR) else (s.(inited := true, domainCount := domainCount, keys := m), OK)
  }

  // ----- Expiry -----

  /** testTime, a 32-bit sum. */
  function TestTime(now: nat, lead: nat): nat {
    (now % U32_LIMIT + lead * DAY) % U32_LIMIT
  }

  function ExpiryParams(s: State, d: nat, lead: nat): RC {
    if !s.inited then UNINITED
    else if s.keys == map[] then ERROR
    else if d >= s.domainCount || d !in s.keys || lead > VALID_DAYS then INVALID_PARAM
    else OK
  }

  predicate Expired(time: int, now: nat, lead: nat) {
    time + VALID_TIME <= TestTime(now, lead)
  }

  function CheckDomainKeysExpired(s: State, d: nat, lead: nat, now: nat): RC {
    if ExpiryParams(s, d, lead) != OK then ExpiryParams(s, d, lead)
    else if exists k :: k in s.keys[d] && !Expired(s.keys[d][k], now, lead) then OK
    else KEY_EXPIRED
  }

  /** How the four commands for one expired key end, and the key the store makes in its place. */
  datatype Regen = Regen(cmd1: Cmd, cmd2: Cmd, cmd3: Cmd, cmd4: Cmd, made: StoredKey)

  /** HandleCommand: delete, create, allow deletion. The configuration does not ask for export. */
  function Regenerate(st: Store, name: bytes, r: Regen): (Store, RC) {
    match Effect(r.cmd1, st, Deleted(st, name))
    case None => (After(r.cmd1, st, Deleted(st, name)), ERROR)
    case Some(st1) =>
      match Effect(r.cmd2, st1, Some(Created(st1, name, r.made)))
      case None => (After(r.cmd2, st1, Some(Created(st1, name, r.made))), ERROR)
      case Some(st2) =>
        match Effect(r.cmd3, st2, Configured(st2, name, false))
        case None => (After(r.cmd3, st2, Configured(st2, name, false)), ERROR)
        case Some(st3) => (st3, OK)
  }

  /** The loop over the keys of a domain, for the first ids of its order. */
  function UpdateKeys(s: State, d: nat, lead: nat, now: nat, ids: seq<nat>, regen: nat -> Regen): (State, RC) {
    if ids == [] then (s, OK)
    else
      var (t, rc) := UpdateKeys(s, d, lead, now, ids[..|ids| - 1], regen);
      if rc != OK then (t, rc) else UpdateKey(t, d, lead, now, ids[|ids| - 1], regen(ids[|ids| - 1]))
  }

  function UpdateKey(s: State, d: nat, lead: nat, now: nat, k: nat, r: Regen): (State, RC) {
    if d !in s.keys || k !in s.keys[d] then (s, OK)   // never: ids are keys of the domain
    else if s.keys[d][k] >= I64_LIMIT - VALID_TIME || lead * DAY > U32_LIMIT - 1 - now % U32_LIMIT then (s, ERROR)
    else if !Expired(s.keys[d][k], now, lead) then (s, OK)
    else
      var name := KeyName(d, k);
      var (st, rc) := Regenerate(s.store, name, r);
      var t := s.(store := st);
      var reading := ReadKey(st, name, r.cmd4);
      if rc != OK then (t, rc)
      else if reading.NoReading? || reading.Time() == -1 then (t, ERROR)
      else (t.(keys := WithTime(t.keys, d, k, reading.Time())), OK)
  }

  function AutoUpdate(s: State, d: nat, lead: nat, now: nat, regen: nat -> Regen): (State, RC) {
    if ExpiryParams(s, d, lead) != OK then (s, ExpiryParams(s, d, lead))
    else UpdateKeys(s, d, lead, now, Ascending(s.keys[d].Keys), regen)
  }

  // ----- Ciphertexts -----

  function AlgByte(alg: CE.SymAlg): byte {
    match alg
    case AES128_GCM => 0
    case AES256_GCM => 1
    case SM4_CTR => 2
    case AES128_CCM => 3
    case CHACHA20_POLY1305 => 4
    case UNKNOWN_ALG => 5
  }

  /** The two algorithms the key manager accepts, by number. */
  predicate KnownAlg(alg: int) {
    alg == 1 || alg == 4
  }

  function CipherParams(s: State, d: nat, alg: int): RC {
    if !s.inited then UNINITED
    else if s.keys == map[] then ERROR
    else if d >= s.domainCount || d !in s.keys || !KnownAlg(alg) then INVALID_PARAM
    else OK
  }

  /** Version, algorithm, and the low 16 bits of domain and key id, high byte first. */
  function Header(alg: byte, d: nat, k: nat): bytes {
    [VERSION, alg] + ToBe(d, 2) + ToBe(k, 2)
  }

  method ConstructCipherHeader(alg: byte, d: nat, k: nat) returns (h: bytes)
    ensures h == Header(alg, d, k)
  {
    var header := new byte[MAX_INDEX](_ => 0);
    header[0] := VERSION;
    header[1] := alg;
    header[2] := d / 256 % 256;
    header[3] := d % 256;
    header[4] := k / 256 % 256;
    header[5] := k % 256;
    TwoBytes(d);
    TwoBytes(k);
    h := header[..];
  }

  lemma TwoBytes(v: nat)
    ensures ToBe(v, 2) == [v / 256 % 256, v % 256]
  {
    assert ToBe(v / 256, 1) == ToBe(v / 256 / 256, 0) + [v / 256 % 256];
  }

  datatype Parsed = Parsed(rc: RC, alg: byte, d: nat, k: nat)

  function ParseHeader(s: State, h: bytes): Parsed {
    if |h| <= MAX_INDEX || h[0] != VERSION then Parsed(INVALID_PARAM, 0, 0, 0)
    else
      var d := FromBe(h[2..4]);
      Parsed(CipherParams(s, d, h[1]), h[1], d, FromBe(h[4..6]))
  }

  /** Encrypt under the greatest key id of the domain. Without its material the code calls CreateKey, which locks the
      mutex that Encrypt holds. */
  function Encrypt(s: State, c: CE.Ciphers, alg: CE.SymAlg, d: nat, p: bytes, exportRuns: bool,
                   draw: CE.Draw): (RC, bytes)
    requires CE.Fits(draw, alg, |p|)
  {
    if CipherParams(s, d, AlgByte(alg)) != OK then (CipherParams(s, d, AlgByte(alg)), [])
    else if p == [] || |p| >= CE.PLAINTEXT_MAX_LENGTH then (INVALID_PARAM, [])
    else if s.keys[d] == map[] then (SELF_DEADLOCK, [])
    else
      var k := MaxOf(s.keys[d].Keys);
      match Exported(s.store, KeyName(d, k), exportRuns)
      case None => (SELF_DEADLOCK, [])
      case Some(material) =>
        if material == [] then (SELF_DEADLOCK, [])
        else
          var (rc, ct) := CE.EncryptResult(c, alg, p, material, draw);
          if rc != CE.OK then (ERROR, []) else (OK, Base64.Encode(Header(AlgByte(alg), d, k) + ct))
  }

  function Decrypt(s: State, c: CE.Ciphers, alg: CE.SymAlg, d: nat, text: bytes, exportRuns: bool): (RC, bytes) {
    if CipherParams(s, d, AlgByte(alg)) != OK then (CipherParams(s, d, AlgByte(alg)), [])
    else if text == [] || |text| >= CE.CIPHERTEXT_MAX_LENGTH then (INVALID_PARAM, [])
    else
      var raw := Base64.Decode(text);
      var h := ParseHeader(s, raw);
      if raw == [] then (INVALID_PARAM, [])
      else if h.rc != OK then (h.rc, [])
      else if h.alg != AlgByte(alg) || h.d != d then (INVALID_PARAM, [])
      else if h.k !in s.keys[d] then (ERROR, [])
      else match Exported(s.store, KeyName(d, h.k), exportRuns)
        case None => (ERROR, [])
        case Some(material) =>
          if material == [] then (ERROR, [])
          else
            var (rc, p) := CE.DecryptResult(c, alg, raw[MAX_INDEX..], material);
            if rc != CE.OK || p == [] then (ERROR, []) else (OK, p)
  }

  // ----- The class -----

  class OpenbaoKeyManager {
    var inited: bool
    var domainCount: nat
    var domainKeyMap: KeyMap
    var ty: Present
    const bao: Bao
    const cryptor: CE.NativeCryptor

    constructor (bao: Bao, cryptor: CE.NativeCryptor)
      ensures this.bao == bao && this.cryptor == cryptor
      ensures St() == State(false, DOMAINID_MIN, map[], bao.keys) && ty == OPENBAO
    {
      inited, domainCount, domainKeyMap, ty := false, DOMAINID_MIN, map[], OPENBAO;
      this.bao := bao;
      this.cryptor := cryptor;
    }

    function St(): State
      reads this, bao
    {
      State(inited, domainCount, domainKeyMap, bao.keys)
    }

    method SetType(asked: Present)
      modifies this`ty
      ensures ty == asked
    {
      ty := asked;
    }

    method DoUnInit()
      modifies this
      ensures St() == UnInit(old(St())) && ty == old(ty)
    {
      domainKeyMap, domainCount, inited := map[], DOMAINID_MIN, false;
    }

    method GetPairs(names: seq<bytes>) returns (r: Pairs)
      ensures r == ParseAll(names)
    {
      var out := [];
      var i := 0;
      assert names[..0] == [];
      while i < |names|
        invariant 0 <= i <= |names|
        invariant ParseAll(names[..i]) == Pairs(out)
      {
        assert names[..i + 1][..i] == names[..i];
        match ParseName(names[i]) {
          case Pair(d, k) => out := out + [(d, k)];
          case NotOurs =>
          case Bad =>
            StopStays(names, i + 1);
            return Stop(ERROR);
          case Throws =>
            StopStays(names, i + 1);
            return Stop(EXCEPTION);
        }
        i := i + 1;
      }
      assert names[..i] == names;
      r := Pairs(out);
    }

    method PrepareMap(env: InitEnv) returns (rc: RC)
      modifies this`domainKeyMap
      ensures ListingFails(env) ==> rc == ERROR && domainKeyMap == old(domainKeyMap)
      ensures !ListingFails(env) && ParseAll(env.names).Stop?
           ==> rc == ParseAll(env.names).rc && domainKeyMap == old(domainKeyMap)
      ensures !ListingFails(env) && ParseAll(env.names).Pairs? ==>
                (domainKeyMap, rc) == ReadAll(old(domainKeyMap), bao.keys, ParseAll(env.names).ps, env.cmds)
    {
      if ListingFails(env) {
        return ERROR;
      }
      var parsed := GetPairs(env.names);
      if parsed.Stop? {
        return parsed.rc;
      }
      rc := ReadTimes(parsed.ps, env.cmds);
    }

    /** The loop of PrepareMap over the pairs. */
    method ReadTimes(ps: seq<(nat, nat)>, cmds: nat -> Cmd) returns (rc: RC)
      modifies this`domainKeyMap
      ensures (domainKeyMap, rc) == ReadAll(old(domainKeyMap), bao.keys, ps, cmds)
    {
      hide KeyName, Inserted;
      ghost var m0, st := domainKeyMap, bao.keys;
      var i := 0;
      assert ps[..0] == [];
      while i < |ps|
        invariant 0 <= i <= |ps|
        invariant bao.keys == st
        invariant ReadSome(m0, st, ps[..i], cmds) == More(domainKeyMap)
      {
        assert ps[..i + 1][..i] == ps[..i];
        var (d, k) := ps[i];
        var r := bao.ReadTime(KeyName(d, k), cmds(i));
        assert ReadSome(m0, st, ps[..i + 1], cmds) == ReadOne(domainKeyMap, d, k, r);
        if r.NoReading? {
          EndStays(m0, st, ps, cmds, i + 1);
          return ERROR;
        }
        if r.NoOutput? {
          EndStays(m0, st, ps, cmds, i + 1);
          return OK;
        }
        if r.time == -1 {
          domainKeyMap := map[];
          EndStays(m0, st, ps, cmds, i + 1);
          return ERROR;
        }
        Insert(d, k, r.time);
        i := i + 1;
      }
      assert ps[..i] == ps;
      rc := OK;
    }

    method Insert(d: nat, k: nat, time: int)
      modifies this`domainKeyMap
      ensures domainKeyMap == Inserted(old(domainKeyMap), d, k, time)
    {
      if d !in domainKeyMap {
        domainKeyMap := domainKeyMap[d := map[]];
      }
      if k !in domainKeyMap[d] {
        domainKeyMap := WithTime(domainKeyMap, d, k, time);
      }
    }

    method DoInit(count: nat, env: InitEnv) returns (rc: RC)
      modifies this
      ensures (St(), rc) == Init(old(St()), count, env) && ty == old(ty)
    {
      if inited {
        return OK;
      }
      if !env.pathOk {
        return INVALID_PARAM;
      }
      if count < DOMAINID_MIN || count > DOMAINID_MAX {
        return DOMAIN_COUNT_INVALID;
      }
      if !env.tokenOk {
        return ERROR;
      }
      rc := PrepareMap(env);
      StopCodes(env.names);
      if rc != OK {
        ReadAllCodes(old(domainKeyMap), bao.keys,
                     if ParseAll(env.names).Pairs? then ParseAll(env.names).ps else [], env.cmds);
        if rc == EXCEPTION {
          return;
        }
        return ERROR;
      }
      inited, domainCount := true, count;
    }

    method DoCreateKey(d: nat, env: CreateEnv) returns (rc: RC, k: nat)
      modifies this, bao
      ensures (St(), rc, k) == CreateKey(old(St()), d, env) && ty == old(ty)
    {
      k := 0;
      if !inited {
        return UNINITED, 0;
      }
      if d >= domainCount {
        return INVALID_PARAM, 0;
      }
      // GenerateKeyId
      domainKeyMap := Touched(domainKeyMap, d);
      if |domainKeyMap[d]| >= MAX_KEY_COUNT {
        return INVALID_PARAM, 0;
      }
      var keyId := 0;
      if domainKeyMap[d] != map[] {
        var maxId := MaxOf(domainKeyMap[d].Keys);
        if maxId >= UINT16_MAX {
          return INVALID_PARAM, 0;
        }
        keyId := maxId + 1;
      }
      var name := KeyName(d, keyId);
      var done := bao.WriteKey(name, env.made, env.cmd1);
      if !done {
        return ERROR, 0;
      }
      done := bao.WriteConfig(name, true, env.cmd2);
      if !done {
        return ERROR, 0;
      }
      var r := bao.ReadTime(name, env.cmd3);
      if r.NoReading? {
        return ERROR, 0;
      }
      if r.Time() == -1 {
        return SELF_DEADLOCK, 0;   // RemoveKey takes the lock this call holds
      }
      domainKeyMap := WithTime(domainKeyMap, d, keyId, r.Time());
      rc, k := OK, keyId;
    }

    method DoRemoveKey(d: nat, k: nat, cmd: Cmd) returns (rc: RC)
      modifies this, bao
      ensures (St(), rc) == RemoveKey(old(St()), d, k, cmd) && ty == old(ty)
    {
      if !inited {
        return UNINITED;
      }
      if domainKeyMap == map[] {
        return ERROR;
      }
      if d >= domainCount || k > UINT16_MAX || d !in domainKeyMap || k !in domainKeyMap[d] {
        return INVALID_PARAM;
      }
      var done := bao.Delete(KeyName(d, k), cmd);
      if !done {
        return ERROR;
      }
      ghost var keys := domainKeyMap;
      domainKeyMap := domainKeyMap[d := domainKeyMap[d] - {k}];
      if domainKeyMap[d] == map[] {
        domainKeyMap := domainKeyMap - {d};
        assert domainKeyMap == keys - {d};
      }
      rc := OK;
    }

    /** One key: deleted in the store, then erased from the map. */
    method DeleteOne(d: nat, k: nat, ghost gone: set<bytes>, ghost names: set<bytes>, ghost st: Store,
                     cmds: bytes -> Cmd)
      requires d in domainKeyMap && k in domainKeyMap[d] && Deleting(domainKeyMap, bao.keys, gone, names, st, cmds)
      modifies this`domainKeyMap, bao
      ensures domainKeyMap == old(domainKeyMap)[d := old(domainKeyMap)[d] - {k}]
      ensures Deleting(domainKeyMap, bao.keys, gone + {KeyName(d, k)}, names, st, cmds)
    {
      hide KeyName, NamesOf;
      NameOf(domainKeyMap, d, k);
      NamesWithout(domainKeyMap, d, k, domainKeyMap[d := domainKeyMap[d] - {k}]);
      var done := bao.Delete(KeyName(d, k), cmds(KeyName(d, k)));
      domainKeyMap := domainKeyMap[d := domainKeyMap[d] - {k}];
      assert done && bao.keys == st - RanOf(gone + {KeyName(d, k)}, cmds);
    }

    /** One domain. */
    method DeleteDomain(d: nat, ghost gone: set<bytes>, ghost names: set<bytes>, ghost st: Store, cmds: bytes -> Cmd)
      returns (ghost gone': set<bytes>)
      requires d in domainKeyMap && Deleting(domainKeyMap, bao.keys, gone, names, st, cmds)
      modifies this`domainKeyMap, bao
      ensures domainKeyMap.Keys == old(domainKeyMap.Keys) - {d}
      ensures Deleting(domainKeyMap, bao.keys, gone', names, st, cmds)
    {
      hide KeyName, Deleting;
      gone' := gone;
      ghost var domains := domainKeyMap.Keys;
      while domainKeyMap[d] != map[]
        invariant domainKeyMap.Keys == domains && Deleting(domainKeyMap, bao.keys, gone', names, st, cmds)
        decreases |domainKeyMap[d]|
      {
        var inner: map<nat, int> := domainKeyMap[d];
        var k := FirstOf(inner.Keys);
        DeleteOne(d, k, gone', names, st, cmds);
        gone' := gone' + {KeyName(d, k)};
        assert inner.Keys == (inner - {k}).Keys + {k};
      }
      DropEmpty(domainKeyMap, bao.keys, d, gone', names, st, cmds);
      domainKeyMap := domainKeyMap - {d};
    }

    /** The loops of DeleteAllKey, when every deletion is reported as a success. */
    method DoDeleteAllKey(cmds: bytes -> Cmd) returns (rc: RC)
      requires AllDeletable(St(), cmds) && SmallIds(domainKeyMap)
      modifies this`domainKeyMap, bao
      ensures (St(), rc) == DeleteAllKey(old(St()), cmds)
    {
      hide KeyName;
      if !inited {
        return UNINITED;
      }
      ghost var st, names, gone: set<bytes> := bao.keys, NamesOf(domainKeyMap), {};
      if domainKeyMap == map[] {
        assert names == {} && st - RanOf(names, cmds) == st;
        return OK;
      }
      while domainKeyMap != map[]
        invariant Deleting(domainKeyMap, bao.keys, gone, names, st, cmds)
        decreases |domainKeyMap.Keys|
      {
        var d := FirstOf(domainKeyMap.Keys);
        gone := DeleteDomain(d, gone, names, st, cmds);
      }
      assert NamesOf(domainKeyMap) == {} && gone == names;
      rc := OK;
    }

    method DoCheckDomainKeysExpired(d: nat, lead: nat, now: nat) returns (rc: RC)
      ensures rc == CheckDomainKeysExpired(St(), d, lead, now)
    {
      rc := ExpiryParams(St(), d, lead);
      if rc != OK {
        return;
      }
      var ids := Ascending(domainKeyMap[d].Keys);
      var foundValidKey := false;
      var i := 0;
      while i < |ids|
        invariant 0 <= i <= |ids|
        invariant foundValidKey <==> exists j :: 0 <= j < i && !Expired(domainKeyMap[d][ids[j]], now, lead)
      {
        if domainKeyMap[d][ids[i]] + VALID_TIME > TestTime(now, lead) {
          foundValidKey := true;
        }
        i := i + 1;
      }
      rc := if foundValidKey then OK else KEY_EXPIRED;
      if !foundValidKey {
        forall k | k in domainKeyMap[d] ensures Expired(domainKeyMap[d][k], now, lead) {
          assert k in ids;
        }
      }
    }

    method HandleCommand(d: nat, k: nat, r: Regen) returns (rc: RC)
      modifies bao
      ensures (bao.keys, rc) == Regenerate(old(bao.keys), KeyName(d, k), r)
    {
      var name := KeyName(d, k);
      var done := bao.Delete(name, r.cmd1);
      if !done {
        return ERROR;
      }
      done := bao.WriteKey(name, r.made, r.cmd2);
      if !done {
        return ERROR;
      }
      done := bao.WriteConfig(name, false, r.cmd3);
      rc := if done then OK else ERROR;
    }

    method UpdateOne(d: nat, lead: nat, now: nat, k: nat, r: Regen) returns (rc: RC)
      requires d in domainKeyMap && k in domainKeyMap[d]
      modifies this`domainKeyMap, bao
      ensures (St(), rc) == UpdateKey(old(St()), d, lead, now, k, r)
      ensures d in domainKeyMap && domainKeyMap[d].Keys == old(domainKeyMap[d].Keys)
    {
      if domainKeyMap[d][k] >= I64_LIMIT - VALID_TIME {
        return ERROR;
      }
      if lead * DAY > U32_LIMIT - 1 - now % U32_LIMIT {
        return ERROR;
      }
      if domainKeyMap[d][k] + VALID_TIME > TestTime(now, lead) {
        return OK;
      }
      rc := HandleCommand(d, k, r);
      if rc != OK {
        return;
      }
      var reading := bao.ReadTime(KeyName(d, k), r.cmd4);
      if reading.NoReading? || reading.Time() == -1 {
        return ERROR;
      }
      domainKeyMap := WithTime(domainKeyMap, d, k, reading.Time());
    }

    /** The loop over the keys of the domain. */
    method UpdateAll(d: nat, lead: nat, now: nat, ids: seq<nat>, regen: nat -> Regen) returns (rc: RC)
      requires d in domainKeyMap && forall i :: 0 <= i < |ids| ==> ids[i] in domainKeyMap[d].Keys
      modifies this`domainKeyMap, bao
      ensures (St(), rc) == UpdateKeys(old(St()), d, lead, now, ids, regen)
    {
      hide UpdateKey, UpdateKeys;
      ghost var s := St();
      ghost var keys := domainKeyMap[d].Keys;
      var i := 0;
      UpdateNothing(s, d, lead, now, ids, regen);
      while i < |ids|
        invariant 0 <= i <= |ids|
        invariant d in domainKeyMap && domainKeyMap[d].Keys == keys
        invariant UpdateKeys(s, d, lead, now, ids[..i], regen) == (St(), OK)
      {
        UpdateNext(s, d, lead, now, ids, regen, i, St());
        rc := UpdateOne(d, lead, now, ids[i], regen(ids[i]));
        if rc != OK {
          UpdateStops(s, d, lead, now, ids, regen, i + 1);
          return;
        }
        i := i + 1;
      }
      assert ids[..i] == ids;
      rc := OK;
    }

    method CheckDomainKeysExpiredAndAutoUpdate(d: nat, lead: nat, now: nat, regen: nat -> Regen) returns (rc: RC)
      modifies this`domainKeyMap, bao
      ensures (St(), rc) == AutoUpdate(old(St()), d, lead, now, regen)
    {
      hide UpdateKeys;
      rc := ExpiryParams(St(), d, lead);
      if rc == OK {
        rc := UpdateAll(d, lead, now, Ascending(domainKeyMap[d].Keys), regen);
      }
    }

    method DoEncrypt(c: CE.Ciphers, alg: CE.SymAlg, d: nat, p: bytes, exportRuns: bool, draw: CE.Draw)
      returns (rc: RC, text: bytes)
      requires c.Lawful() && CE.Fits(draw, alg, |p|)
      modifies cryptor
      ensures (rc, text) == Encrypt(St(), c, alg, d, p, exportRuns, draw)
      ensures St() == old(St())
    {
      text := [];
      rc := CipherParams(St(), d, AlgByte(alg));
      if rc != OK {
        return;
      }
      if p == [] || |p| >= CE.PLAINTEXT_MAX_LENGTH {
        return INVALID_PARAM, [];
      }
      // GetLatestKey
      if domainKeyMap[d] == map[] {
        return SELF_DEADLOCK, [];
      }
      var k := MaxOf(domainKeyMap[d].Keys);
      var material := bao.Export(KeyName(d, k), exportRuns);
      if material == None || material.value == [] {
        return SELF_DEADLOCK, [];
      }
      var header := ConstructCipherHeader(AlgByte(alg), d, k);
      var result, ct := cryptor.Encrypt(c, alg, p, material.value, draw);
      if result != CE.OK {
        return ERROR, [];
      }
      text := Base64.Base64Encode(header + ct);
    }

    method DoDecrypt(c: CE.Ciphers, alg: CE.SymAlg, d: nat, text: bytes, exportRuns: bool) returns (rc: RC, p: bytes)
      modifies cryptor
      ensures (rc, p) == Decrypt(St(), c, alg, d, text, exportRuns)
      ensures St() == old(St())
    {
      p := [];
      rc := CipherParams(St(), d, AlgByte(alg));
      if rc != OK {
        return;
      }
      if text == [] || |text| >= CE.CIPHERTEXT_MAX_LENGTH {
        return INVALID_PARAM, [];
      }
      var raw := Base64.Base64Decode(text);
      if raw == [] {
        return INVALID_PARAM, [];
      }
      var h := ParseHeader(St(), raw);
      if h.rc != OK {
        return h.rc, [];
      }
      if h.alg != AlgByte(alg) || h.d != d {
        return INVALID_PARAM, [];
      }
      if h.k !in domainKeyMap[d] {
        return ERROR, [];
      }
      // VaultDecrypt
      var material := bao.Export(KeyName(d, h.k), exportRuns);
      if material == None || material.value == [] {
        return ERROR, [];
      }
      var result, plain := cryptor.Decrypt(c, alg, raw[MAX_INDEX..], material.value);
      if result != CE.OK || plain == [] {
        return ERROR, [];
      }
      rc, p := OK, plain;
    }
  }

  // ----- Prefix facts for the loops -----

  lemma {:induction false} StopStays(names: seq<bytes>, i: nat)
    requires i <= |names| && ParseAll(names[..i]).Stop?
    ensures ParseAll(names) == ParseAll(names[..i])
    decreases |names|
  {
    if i == |names| {
      assert names[..i] == names;
    } else {
      var front := names[..|names| - 1];
      assert front[..i] == names[..i];
      StopStays(front, i);
    }
  }

  lemma {:induction false} EndStays(m: KeyMap, st: Store, ps: seq<(nat, nat)>, cmds: nat -> Cmd, i: nat)
    requires i <= |ps| && ReadSome(m, st, ps[..i], cmds).Ended?
    ensures ReadSome(m, st, ps, cmds) == ReadSome(m, st, ps[..i], cmds)
    decreases |ps|
  {
    hide ReadOne, ReadKey, KeyName;
    if i == |ps| {
      assert ps[..i] == ps;
    } else {
      var front := ps[..|ps| - 1];
      assert front[..i] == ps[..i];
      EndStays(m, st, front, cmds, i);
    }
  }

  lemma {:induction false} StopCodes(names: seq<bytes>)
    ensures ParseAll(names).Stop? ==> ParseAll(names).rc == ERROR || ParseAll(names).rc == EXCEPTION
  {
    if names == [] {
    } else {
      StopCodes(names[..|names| - 1]);
    }
  }

  lemma {:induction false} ReadAllCodes(m: KeyMap, st: Store, ps: seq<(nat, nat)>, cmds: nat -> Cmd)
    ensures ReadAll(m, st, ps, cmds).1 == OK || ReadAll(m, st, ps, cmds).1 == ERROR
    decreases |ps|
  {
    hide ReadKey, KeyName;
    if ps == [] {
    } else {
      ReadAllCodes(m, st, ps[..|ps| - 1], cmds);
    }
  }

  lemma UpdateNothing(s: State, d: nat, lead: nat, now: nat, ids: seq<nat>, regen: nat -> Regen)
    ensures UpdateKeys(s, d, lead, now, ids[..0], regen) == (s, OK)
  {
  }

  lemma UpdateNext(s: State, d: nat, lead: nat, now: nat, ids: seq<nat>, regen: nat -> Regen, i: nat, t: State)
    requires i < |ids| && UpdateKeys(s, d, lead, now, ids[..i], regen) == (t, OK)
    ensures UpdateKeys(s, d, lead, now, ids[..i + 1], regen) == UpdateKey(t, d, lead, now, ids[i], regen(ids[i]))
  {
    hide UpdateKey;
    assert ids[..i + 1][..i] == ids[..i];
  }

  lemma {:induction false} UpdateStops(s: State, d: nat, lead: nat, now: nat, ids: seq<nat>, regen: nat -> Regen,
                                       i: nat)
    requires i <= |ids| && UpdateKeys(s, d, lead, now, ids[..i], regen).1 != OK
    ensures UpdateKeys(s, d, lead, now, ids, regen) == UpdateKeys(s, d, lead, now, ids[..i], regen)
    decreases |ids|
  {
    if i == |ids| {
      assert ids[..i] == ids;
    } else {
      var front := ids[..|ids| - 1];
      assert front[..i] == ids[..i];
      UpdateStops(s, d, lead, now, front, regen, i);
    }
  }
}
