/** The ids that CreateKey gives out, in numbers. */
module KeyManagerIds {
  import opened Bytes
  import opened KeyNames
  import opened KeyStore
  import opened KeyManager
  import opened KeyManagerStart
  import opened KeyManagerRuns
  import opened KeyManagerMirror

  /** Key k is in the domain, and none above it. */
  ghost predicate IsLatest(keys: KeyMap, d: nat, k: nat) {
    Has(keys, d, k) && forall x: nat :: Has(keys, d, x) ==> x <= k
  }

  /** A CreateKey that returns OK gives id 0 in a domain without keys, and otherwise the one after the greatest, and
      the map has that key then besides the earlier ones. */
  lemma CreatedIdExactly(s: State, d: nat, env: CreateEnv)
    requires CreateKey(s, d, env).1 == OK
    ensures var k := CreateKey(s, d, env).2;
            && (if forall x: nat :: !Has(s.keys, d, x) then k == 0 else k >= 1 && IsLatest(s.keys, d, k - 1))
            && forall x: nat :: Has(CreateKey(s, d, env).0.keys, d, x) <==> Has(s.keys, d, x) || x == k
  {
    hide CreateKey, NextId, Touched;
    CreatedIdIsNext(s, d, env);
    NextIdExactly(s.keys, d);
    CreatedMap(s, d, env);
  }

  lemma CreatedIdIsNext(s: State, d: nat, env: CreateEnv)
    requires CreateKey(s, d, env).1 == OK
    ensures NextId(Touched(s.keys, d)[d]) == (OK, CreateKey(s, d, env).2)
  {
    hide KeyName, Effect, After, ReadKey, WithTime, NextId, Touched;
  }

  lemma NextIdExactly(keys: KeyMap, d: nat)
    requires NextId(Touched(keys, d)[d]).0 == OK
    ensures var k := NextId(Touched(keys, d)[d]).1;
            if forall x: nat :: !Has(keys, d, x) then k == 0 else k >= 1 && IsLatest(keys, d, k - 1)
  {
    var touched := Touched(keys, d);
    var inner: map<nat, int> := touched[d];
    if inner == map[] {
      forall x: nat ensures !Has(keys, d, x) {
        assert Has(touched, d, x) <==> Has(keys, d, x);
      }
    } else {
      var m := MaxOf(inner.Keys);
      assert Has(touched, d, m);
      forall x: nat | Has(keys, d, x) ensures x <= m {
        assert Has(touched, d, x) && x in inner.Keys;
      }
    }
  }

  lemma CreatedMap(s: State, d: nat, env: CreateEnv)
    requires CreateKey(s, d, env).1 == OK
    ensures forall x: nat ::
              Has(CreateKey(s, d, env).0.keys, d, x) <==> Has(s.keys, d, x) || x == CreateKey(s, d, env).2
  {
    hide KeyName, Effect, After, WithTime, NextId, Touched;
    var keys := Touched(s.keys, d);
    MapChanges(s.keys, d, 0, 0);
    forall k: nat, time: int
      ensures forall x: nat :: Has(WithTime(keys, d, k, time), d, x) <==> Has(keys, d, x) || x == k
    {
      MapChanges(keys, d, k, time);
    }
  }

  /** CreateKey refuses for want of an id exactly in a domain that has 1023 keys, or key 65535 or a greater one. */
  lemma IdRefusedExactly(s: State, d: nat, env: CreateEnv)
    requires s.inited && d < s.domainCount
    ensures CreateKey(s, d, env).1 == INVALID_PARAM
       <==> (d in s.keys && |s.keys[d]| >= 1023) || exists k: nat :: k >= 65535 && Has(s.keys, d, k)
  {
    hide KeyName, Effect, After, WithTime;
    var inner: map<nat, int> := Touched(s.keys, d)[d];
    if inner != map[] {
      var m := MaxOf(inner.Keys);
      assert Has(s.keys, d, m);
      forall k: nat | Has(s.keys, d, k) ensures k <= m {
        assert k in inner.Keys;
      }
    }
  }

  // ----- Many creations -----

  /** One creation for each environment of the list, in order; the ids, while all return OK. */
  function CreateMany(s: State, d: nat, envs: seq<CreateEnv>): (State, Option<seq<nat>>) {
    if envs == [] then (s, Some([]))
    else
      var (t, ids) := CreateMany(s, d, envs[..|envs| - 1]);
      var (u, rc, k) := CreateKey(t, d, envs[|envs| - 1]);
      (u, if ids.Some? && rc == OK then Some(ids.value + [k]) else None)
  }

  predicate Undisturbed(env: CreateEnv) {
    env.cmd1 == env.cmd2 == env.cmd3 == Ran && HasTime(env.made)
  }

  /** In a domain without keys, up to 1023 undisturbed creations give the ids 0, 1, 2 and so on. */
  lemma {:induction false} IdsFromZero(s: State, d: nat, envs: seq<CreateEnv>)
    requires Good(s) && s.inited && d < s.domainCount && forall x: nat :: !Has(s.keys, d, x)
    requires |envs| <= 1023 && forall i :: 0 <= i < |envs| ==> Undisturbed(envs[i])
    ensures var (t, ids) := CreateMany(s, d, envs);
            && ids.Some? && |ids.value| == |envs| && (forall i :: 0 <= i < |envs| ==> ids.value[i] == i)
            && Good(t) && t.inited && t.domainCount == s.domainCount
            && forall x: nat :: Has(t.keys, d, x) <==> x < |envs|
  {
    hide Good, CreateKey, Has;
    if envs == [] {
    } else {
      var n := |envs| - 1;
      IdsFromZero(s, d, envs[..n]);
      var t := CreateMany(s, d, envs[..n]).0;
      NextAfter(t, d, envs[n], n);
    }
  }

  lemma NextAfter(s: State, d: nat, env: CreateEnv, n: nat)
    requires Good(s) && s.inited && d < s.domainCount && Undisturbed(env) && n < 1023
    requires forall x: nat :: Has(s.keys, d, x) <==> x < n
    ensures CreateKey(s, d, env).1 == OK && CreateKey(s, d, env).2 == n
    ensures Good(CreateKey(s, d, env).0) && CreateKey(s, d, env).0.inited
    ensures CreateKey(s, d, env).0.domainCount == s.domainCount
    ensures forall x: nat :: Has(CreateKey(s, d, env).0.keys, d, x) <==> x < n + 1
  {
    hide Good, CreateKey, NextId, Touched, KeyName;
    CreateGood(s, d, env);
    CreateKeeps(s, d, env);
    assert NextId(Touched(s.keys, d)[d]) == (OK, n) by { CountedId(s.keys, d, n); }
    assert KeyName(d, n) !in s.store by { FreeName(s, d, n); }
    CreatedKey(s, d, env, n);
    CreatedIdExactly(s, d, env);
  }

  lemma FreeName(s: State, d: nat, k: nat)
    requires Good(s) && s.inited && d < s.domainCount && !Has(s.keys, d, k) && k < U32_LIMIT
    ensures KeyName(d, k) !in s.store
  {
  }

  lemma CountedId(keys: KeyMap, d: nat, n: nat)
    requires n < 1023 && forall x: nat :: Has(keys, d, x) <==> x < n
    ensures NextId(Touched(keys, d)[d]) == (OK, n)
  {
    var inner: map<nat, int> := Touched(keys, d)[d];
    forall x: nat ensures x in inner <==> x < n {
      assert Has(keys, d, x) <==> x < n;
    }
    CountBelow(inner.Keys, n);
    assert |inner| == |inner.Keys| == n;
    if n > 0 {
      assert n - 1 in inner.Keys && MaxOf(inner.Keys) in inner;
    }
  }

  lemma {:induction false} CountBelow(s: set<nat>, n: nat)
    requires forall x: nat :: x in s <==> x < n
    ensures |s| == n
  {
    if n == 0 {
      assert s == {};
    } else {
      CountBelow(s - {n - 1}, n - 1);
      assert s == (s - {n - 1}) + {n - 1};
    }
  }
}
