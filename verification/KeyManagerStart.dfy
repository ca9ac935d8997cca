/** What starting the key manager reads: the map it leaves, and exactly when it succeeds. */
module KeyManagerStart {
  import opened Bytes
  import opened KeyNames
  import opened KeyStore
  import opened KeyManager
  import opened StrUtils

  predicate Has(keys: KeyMap, d: nat, k: nat) {
    d in keys && k in keys[d]
  }

  /** Which keys a map holds after each of the changes the operations make. */
  lemma MapChanges(keys: KeyMap, d: nat, k: nat, time: int)
    ensures forall x: nat, y: nat :: Has(Touched(keys, d), x, y) <==> Has(keys, x, y)
    ensures forall x: nat, y: nat :: Has(keys, x, y) ==> Touched(keys, d)[x][y] == keys[x][y]
    ensures d in keys ==> forall x: nat, y: nat ::
              Has(WithTime(keys, d, k, time), x, y) <==> Has(keys, x, y) || (x == d && y == k)
    ensures d in keys ==> forall x: nat, y: nat ::
              Has(keys, x, y) && !(x == d && y == k) ==> WithTime(keys, d, k, time)[x][y] == keys[x][y]
    ensures d in keys ==> WithTime(keys, d, k, time)[d][k] == time
    ensures d in keys ==> forall x: nat, y: nat ::
              Has(WithoutKey(keys, d, k), x, y) <==> Has(keys, x, y) && !(x == d && y == k)
    ensures d in keys ==> forall x: nat, y: nat ::
              Has(keys, x, y) && !(x == d && y == k) ==> WithoutKey(keys, d, k)[x][y] == keys[x][y]
  {
    if d in keys {
      var inner := keys[d] - {k};
      assert forall y: nat :: y in keys[d] && y != k ==> y in inner;
    }
  }

  // ----- The names of the listing -----

  lemma {:induction false} ParseAllMembers(names: seq<bytes>, d: nat, k: nat)
    requires ParseAll(names).Pairs?
    ensures (d, k) in ParseAll(names).ps <==> exists n :: n in names && ParseName(n) == Pair(d, k)
  {
    hide ParseName;
    if names == [] {
    } else {
      var front, last := names[..|names| - 1], names[|names| - 1];
      ParseAllMembers(front, d, k);
      assert names == front + [last];
    }
  }

  /** A listed name that is neither skipped nor well formed. */
  predicate Malformed(n: bytes) {
    ParseName(n) == Bad || ParseName(n) == Throws
  }

  /** Parsing the listing stops if and only if one of its names is malformed, wherever it stands. */
  lemma {:induction false} StopsExactly(names: seq<bytes>)
    ensures ParseAll(names).Stop? <==> exists n :: n in names && Malformed(n)
  {
    hide ParseName;
    if names == [] {
    } else {
      var front, last := names[..|names| - 1], names[|names| - 1];
      StopsExactly(front);
      assert names == front + [last];
      assert (exists n :: n in names && Malformed(n)) <==> Malformed(last) || exists n :: n in front && Malformed(n);
    }
  }

  lemma ParsedIds(n: bytes)
    requires ParseName(n).Pair?
    ensures ParseName(n).d < U32_LIMIT && ParseName(n).k < U32_LIMIT
  {
  }

  lemma ParsedPairsIds(names: seq<bytes>)
    requires ParseAll(names).Pairs?
    ensures forall p: (nat, nat) :: p in ParseAll(names).ps ==> p.0 < U32_LIMIT && p.1 < U32_LIMIT
  {
    hide ParseName;
    forall p: (nat, nat) | p in ParseAll(names).ps ensures p.0 < U32_LIMIT && p.1 < U32_LIMIT {
      ParseAllMembers(names, p.0, p.1);
      var n :| n in names && ParseName(n) == Pair(p.0, p.1);
      ParsedIds(n);
    }
  }

  // ----- Reading the times -----

  lemma InsertedHas(m: KeyMap, d: nat, k: nat, time: int)
    ensures forall x: nat, y: nat :: Has(Inserted(m, d, k, time), x, y) <==> Has(m, x, y) || (x == d && y == k)
    ensures forall x: nat, y: nat :: Has(m, x, y) ==> Inserted(m, d, k, time)[x][y] == m[x][y]
    ensures !Has(m, d, k) ==> Inserted(m, d, k, time)[d][k] == time
  {
    MapChanges(m, d, k, time);
    MapChanges(Touched(m, d), d, k, time);
  }

  function ReadPair(st: Store, p: (nat, nat), cmd: Cmd): Reading {
    ReadKey(st, KeyName(p.0, p.1), cmd)
  }

  /** The read prints a time. */
  predicate Timed(r: Reading) {
    r.Reading? && r.time != -1
  }

  /** The first n reads all print a time. */
  predicate TimedUpTo(st: Store, ps: seq<(nat, nat)>, cmds: nat -> Cmd, n: int) {
    forall i: nat :: i < n && i < |ps| ==> Timed(ReadPair(st, ps[i], cmds(i)))
  }

  /** The key is read, and every read before it prints a time. */
  predicate Reaches(st: Store, ps: seq<(nat, nat)>, cmds: nat -> Cmd, d: nat, k: nat) {
    exists i: nat :: i < |ps| && ps[i] == (d, k) && TimedUpTo(st, ps, cmds, i + 1)
  }

  /** The first read without a time prints something: the map is cleared. */
  predicate Clears(st: Store, ps: seq<(nat, nat)>, cmds: nat -> Cmd) {
    exists i: nat :: i < |ps| && TimedUpTo(st, ps, cmds, i) && ReadPair(st, ps[i], cmds(i)) == Reading(-1)
  }

  lemma TimedFront(st: Store, ps: seq<(nat, nat)>, cmds: nat -> Cmd, i: int)
    requires ps != [] && i <= |ps| - 1
    ensures TimedUpTo(st, ps[..|ps| - 1], cmds, i) <==> TimedUpTo(st, ps, cmds, i)
  {
    hide ReadPair, Timed;
    var front := ps[..|ps| - 1];
    assert forall j: nat :: j < i ==> front[j] == ps[j];
  }

  lemma ReachesLast(st: Store, ps: seq<(nat, nat)>, cmds: nat -> Cmd, d: nat, k: nat)
    requires ps != []
    ensures Reaches(st, ps, cmds, d, k) <==>
              Reaches(st, ps[..|ps| - 1], cmds, d, k) || (ps[|ps| - 1] == (d, k) && TimedUpTo(st, ps, cmds, |ps|))
  {
    hide TimedUpTo;
    var n := |ps| - 1;
    forall i: nat | i <= n ensures TimedUpTo(st, ps[..n], cmds, i) <==> TimedUpTo(st, ps, cmds, i) {
      TimedFront(st, ps, cmds, i);
    }
    if Reaches(st, ps[..n], cmds, d, k) {
      var i: nat :| i < n && ps[..n][i] == (d, k) && TimedUpTo(st, ps[..n], cmds, i + 1);
      assert ps[i] == (d, k);
    }
    if Reaches(st, ps, cmds, d, k) {
      var i: nat :| i < |ps| && ps[i] == (d, k) && TimedUpTo(st, ps, cmds, i + 1);
      assert i < n ==> ps[..n][i] == (d, k);
    }
  }

  lemma ClearsLast(st: Store, ps: seq<(nat, nat)>, cmds: nat -> Cmd)
    requires ps != []
    ensures Clears(st, ps, cmds) <==>
              || Clears(st, ps[..|ps| - 1], cmds)
              || (TimedUpTo(st, ps, cmds, |ps| - 1) && ReadPair(st, ps[|ps| - 1], cmds(|ps| - 1)) == Reading(-1))
  {
    hide TimedUpTo, ReadPair;
    var n := |ps| - 1;
    forall i: nat | i < n ensures TimedUpTo(st, ps[..n], cmds, i) <==> TimedUpTo(st, ps, cmds, i) {
      TimedFront(st, ps, cmds, i);
    }
    if Clears(st, ps[..n], cmds) {
      var i: nat :| i < n && TimedUpTo(st, ps[..n], cmds, i) && ReadPair(st, ps[..n][i], cmds(i)) == Reading(-1);
      assert ps[..n][i] == ps[i];
    }
    if Clears(st, ps, cmds) {
      var i: nat :| i < |ps| && TimedUpTo(st, ps, cmds, i) && ReadPair(st, ps[i], cmds(i)) == Reading(-1);
      assert i < n ==> ps[..n][i] == ps[i];
    }
  }

  /** Adding a last pair. */
  lemma LastRead(st: Store, ps: seq<(nat, nat)>, cmds: nat -> Cmd, d: nat, k: nat)
    requires ps != []
    ensures TimedUpTo(st, ps[..|ps| - 1], cmds, |ps| - 1) <==> TimedUpTo(st, ps, cmds, |ps| - 1)
    ensures TimedUpTo(st, ps, cmds, |ps|) <==>
              TimedUpTo(st, ps, cmds, |ps| - 1) && Timed(ReadPair(st, ps[|ps| - 1], cmds(|ps| - 1)))
    ensures Reaches(st, ps, cmds, d, k) <==>
              Reaches(st, ps[..|ps| - 1], cmds, d, k) || (ps[|ps| - 1] == (d, k) && TimedUpTo(st, ps, cmds, |ps|))
    ensures Clears(st, ps, cmds) <==>
              || Clears(st, ps[..|ps| - 1], cmds)
              || (TimedUpTo(st, ps, cmds, |ps| - 1) && ReadPair(st, ps[|ps| - 1], cmds(|ps| - 1)) == Reading(-1))
  {
    hide ReadPair, Timed, Reaches, Clears;
    TimedFront(st, ps, cmds, |ps| - 1);
    ReachesLast(st, ps, cmds, d, k);
    ClearsLast(st, ps, cmds);
  }

  /** The map that reading leaves, key by key: what was there and what was read before the first read without a time, or
      nothing if that one clears the map. */
  lemma {:induction false} ReadSomeHas(m: KeyMap, st: Store, ps: seq<(nat, nat)>, cmds: nat -> Cmd, d: nat, k: nat)
    ensures Has(ReadSome(m, st, ps, cmds).m, d, k) <==>
              !Clears(st, ps, cmds) && (Has(m, d, k) || Reaches(st, ps, cmds, d, k))
    ensures ReadSome(m, st, ps, cmds).More? <==> TimedUpTo(st, ps, cmds, |ps|)
    ensures Has(ReadSome(m, st, ps, cmds).m, d, k) && Has(m, d, k) ==> ReadSome(m, st, ps, cmds).m[d][k] == m[d][k]
    ensures Has(ReadSome(m, st, ps, cmds).m, d, k) && !Has(m, d, k) ==>
              KeyName(d, k) in st && ReadSome(m, st, ps, cmds).m[d][k] == ReportedTime(st[KeyName(d, k)]) != -1
    decreases |ps|
  {
    hide KeyName, ReportedTime, Reaches, Clears, TimedUpTo, Inserted;
    if ps == [] {
      NothingRead(st, ps, cmds, d, k);
    } else {
      var n := |ps| - 1;
      ReadSomeHas(m, st, ps[..n], cmds, d, k);
      LastRead(st, ps, cmds, d, k);
      var before, r := ReadSome(m, st, ps[..n], cmds), ReadPair(st, ps[n], cmds(n));
      if before.More? {
        NoClearing(st, ps[..n], cmds);
        if Timed(r) {
          InsertedHas(before.m, ps[n].0, ps[n].1, r.time);
        }
      } else {
        LateDoesNotCount(st, ps, cmds);
      }
    }
  }

  lemma NothingRead(st: Store, ps: seq<(nat, nat)>, cmds: nat -> Cmd, d: nat, k: nat)
    requires ps == []
    ensures !Reaches(st, ps, cmds, d, k) && !Clears(st, ps, cmds) && TimedUpTo(st, ps, cmds, 0)
  {
  }

  lemma NoClearing(st: Store, ps: seq<(nat, nat)>, cmds: nat -> Cmd)
    requires TimedUpTo(st, ps, cmds, |ps|)
    ensures !Clears(st, ps, cmds)
  {
  }

  lemma LateDoesNotCount(st: Store, ps: seq<(nat, nat)>, cmds: nat -> Cmd)
    requires ps != [] && !TimedUpTo(st, ps[..|ps| - 1], cmds, |ps| - 1)
    ensures !TimedUpTo(st, ps, cmds, |ps|)
  {
    var i: nat :| i < |ps| - 1 && !Timed(ReadPair(st, ps[..|ps| - 1][i], cmds(i)));
    assert ps[..|ps| - 1][i] == ps[i];
  }

  /** Reading returns OK if and only if every read prints a time, or the first that does not prints nothing at all. */
  lemma {:induction false} ReadAllOk(m: KeyMap, st: Store, ps: seq<(nat, nat)>, cmds: nat -> Cmd)
    ensures ReadAll(m, st, ps, cmds).1 == OK <==>
              TimedUpTo(st, ps, cmds, |ps|)
              || exists i: nat :: i < |ps| && TimedUpTo(st, ps, cmds, i) && cmds(i) == Silent
    decreases |ps|
  {
    hide KeyName, ReportedTime, TimedUpTo;
    if ps == [] {
      NothingRead(st, ps, cmds, 0, 0);
    } else {
      var n := |ps| - 1;
      var front := ps[..n];
      ReadAllOk(m, st, front, cmds);
      ReadSomeHas(m, st, front, cmds, 0, 0);
      LastRead(st, ps, cmds, 0, 0);
      forall i: nat | i <= n ensures TimedUpTo(st, front, cmds, i) <==> TimedUpTo(st, ps, cmds, i) {
        TimedFront(st, ps, cmds, i);
      }
      forall i: nat | i < n && cmds(i) == Silent && TimedUpTo(st, front, cmds, i)
        ensures !TimedUpTo(st, front, cmds, n)
      {
        SilentIsUntimed(st, front, cmds, i);
      }
      if !TimedUpTo(st, front, cmds, n) {
        LateDoesNotCount(st, ps, cmds);
      }
    }
  }

  lemma SilentIsUntimed(st: Store, ps: seq<(nat, nat)>, cmds: nat -> Cmd, i: nat)
    requires i < |ps| && cmds(i) == Silent
    ensures !TimedUpTo(st, ps, cmds, |ps|)
  {
    assert !Timed(ReadPair(st, ps[i], cmds(i)));
  }

  // ----- When a start succeeds -----

  /** No name in the store contains "Error", and every one is skipped, or names a key that is there under its own name
      with a creation time. */
  ghost predicate Readable(st: Store) {
    forall n :: n in st ==>
      && !SaysError(n)
      && match ParseName(n)
         case NotOurs => true
         case Pair(d, k) => KeyName(d, k) in st && HasTime(st[KeyName(d, k)])
         case _ => false
  }

  /** The arguments of the start are accepted, and the listing and all reads run on the whole store. */
  ghost predicate Undisturbed(s: State, count: nat, env: InitEnv) {
    && !s.inited && env.pathOk && env.tokenOk && env.listOk && 2 <= count <= 1023
    && Lists(env, s.store) && forall i: nat :: env.cmds(i) == Ran
  }

  /** An undisturbed start succeeds if and only if the store is readable. */
  lemma InitExactly(s: State, count: nat, env: InitEnv)
    requires Undisturbed(s, count, env)
    ensures Init(s, count, env).1 == OK <==> Readable(s.store)
  {
    hide KeyName, ParseName, SaysError, ReportedTime, ParseAll, ReadAll;
    StopsExactly(env.names);
    StopCodes(env.names);
    if ListingFails(env) {
      var n :| n in env.names && SaysError(n);
      assert n in s.store;
    } else if ParseAll(env.names).Pairs? {
      var ps := ParseAll(env.names).ps;
      ReadAllOk(s.keys, s.store, ps, env.cmds);
      if TimedUpTo(s.store, ps, env.cmds, |ps|) {
        forall n | n in s.store && ParseName(n).Pair?
          ensures KeyName(ParseName(n).d, ParseName(n).k) in s.store
          ensures HasTime(s.store[KeyName(ParseName(n).d, ParseName(n).k)])
        {
          ParseAllMembers(env.names, ParseName(n).d, ParseName(n).k);
          var i: nat :| i < |ps| && ps[i] == (ParseName(n).d, ParseName(n).k);
          assert Timed(ReadPair(s.store, ps[i], env.cmds(i)));
          ReportedTimeIsTime(s.store[KeyName(ps[i].0, ps[i].1)]);
        }
        assert forall n :: n in s.store ==> !Malformed(n);
      } else {
        var i: nat :| i < |ps| && !Timed(ReadPair(s.store, ps[i], env.cmds(i)));
        ParseAllMembers(env.names, ps[i].0, ps[i].1);
        assert ps[i] in ps && (ps[i].0, ps[i].1) == ps[i];
        var n :| n in env.names && ParseName(n) == Pair(ps[i].0, ps[i].1);
        if KeyName(ps[i].0, ps[i].1) in s.store {
          ReportedTimeIsTime(s.store[KeyName(ps[i].0, ps[i].1)]);
        }
        assert n in s.store;
      }
    } else {
      var n :| n in env.names && Malformed(n);
      assert n in s.store;
    }
  }

  /** One listed name that contains "Error" makes every start fail, whatever the commands do. */
  lemma ErrorNameStopsInit(s: State, count: nat, env: InitEnv, n: bytes)
    requires !s.inited && n in env.names && SaysError(n)
    ensures Init(s, count, env).1 != OK && Init(s, count, env).0 == s
  {
    hide SaysError;
  }

  /** For example Errors as the only name, which parsing would skip. */
  lemma ErrorNameExample(key: StoredKey)
    ensures ParseName(ERRORS) == NotOurs
    ensures Init(State(false, DOMAINID_MIN, map[], map[ERRORS := key]), 2,
                 InitEnv(true, true, true, [ERRORS], _ => Ran)).1 == ERROR
  {
    hide Find;
    assert ERRORS[0..5] == ERROR_TEXT;
    assert MatchAt(ERRORS, ERROR_TEXT, 0);
    ErrorAtIsSaid(ERRORS, 0);
    assert ERRORS[3..] == ['o' as int, 'r' as int, 's' as int];
    FoundUnderscore(ERRORS[3..]);
    var env := InitEnv(true, true, true, [ERRORS], _ => Ran);
    assert ERRORS in env.names;
  }

  const ERRORS: bytes := ERROR_TEXT + ['s' as int]

  /** One key of ours whose creation time is no 32-bit number makes every undisturbed start fail. */
  lemma UntimedKeyStopsInit(s: State, count: nat, env: InitEnv, d: nat, k: nat)
    requires Undisturbed(s, count, env) && d < U32_LIMIT && k < U32_LIMIT
    requires KeyName(d, k) in s.store && !HasTime(s.store[KeyName(d, k)])
    ensures Init(s, count, env).1 != OK
  {
    hide KeyName, ParseName, Init;
    ParsePrintedName(d, k);
    InitExactly(s, count, env);
  }

  /** One foreign name of the accepted shape, without the key it seems to name, makes every undisturbed start fail. */
  lemma ForeignNameStopsInit(s: State, count: nat, env: InitEnv, p: bytes, sep: bytes, d: nat, k: nat)
    requires Undisturbed(s, count, env)
    requires |p| == 3 && |sep| == 4 && sep[0] == UNDERSCORE && d < U32_LIMIT && k < U32_LIMIT
    requires p + PrintNat(d) + sep + PrintNat(k) in s.store && KeyName(d, k) !in s.store
    ensures Init(s, count, env).1 != OK
  {
    hide KeyName, ParseName, Init, PrintNat;
    ForeignNameIsAccepted(p, sep, d, k);
    InitExactly(s, count, env);
  }

  /** For example xyz7_abc5 as the only name. */
  lemma ForeignNameExample(key: StoredKey)
    ensures ParseName(XYZ7_ABC5) == Pair(7, 5)
    ensures Init(State(false, DOMAINID_MIN, map[], map[XYZ7_ABC5 := key]), 2,
                 InitEnv(true, true, true, [XYZ7_ABC5], _ => Ran)).1 != OK
  {
    hide ParseName, Init;
    assert PrintNat(7) == ['7' as int] && PrintNat(5) == ['5' as int];
    var p: bytes, sep: bytes := ['x' as int, 'y' as int, 'z' as int], [UNDERSCORE, 'a' as int, 'b' as int, 'c' as int];
    assert XYZ7_ABC5 == p + PrintNat(7) + sep + PrintNat(5);
    var st := map[XYZ7_ABC5 := key];
    assert KeyName(7, 5)[0] != XYZ7_ABC5[0];
    ForeignNameIsAccepted(p, sep, 7, 5);
    ForeignNameStopsInit(State(false, DOMAINID_MIN, map[], st), 2, InitEnv(true, true, true, [XYZ7_ABC5], _ => Ran),
                         p, sep, 7, 5);
  }

  const XYZ7_ABC5: bytes := ['x' as int, 'y' as int, 'z' as int, '7' as int, '_' as int, 'a' as int, 'b' as int,
                             'c' as int, '5' as int]
}
