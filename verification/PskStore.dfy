/** The store that the callbacks feed holds exactly the tokens of the live credentials, and loading them gives the
    credentials back under new ids. */
module PskStore {
  import opened Bytes
  import opened PskManager
  import opened PskRuns
  import opened KeyManagerType
  import CE = CipherEnvelope
  import Base64
  import Str = StrUtils
  import opened Counting

  // ----- Tokens -----

  lemma EncodedHasNoDot(x: bytes)
    ensures Str.Free(Base64.Encode(x), DOT)
  {
    assert Base64.AllAlphabet(Base64.Unpadded(x));
    forall i | 0 <= i < |Base64.Encode(x)| ensures Base64.Encode(x)[i] != DOT {
      assert i < |Base64.Unpadded(x)| ==> Base64.IsBase64(Base64.Encode(x)[i]);
    }
  }

  /** Splitting a token gives back content and metadata text, for all of them. */
  lemma TokenSplits(content: bytes, json: bytes)
    ensures SplitToken(Base64.Encode(content) + [DOT] + Base64.Encode(json)) == Some((content, json))
  {
    hide Base64.Encode, Base64.Decode, Str.Find;
    var p, q := Base64.Encode(content), Base64.Encode(json);
    var token := p + [DOT] + q;
    EncodedHasNoDot(content);
    Base64.RoundTrip(content);
    Base64.RoundTrip(json);
    assert token[|p|] == DOT;
    assert Str.MatchAt(token, [DOT], |p|);
    forall k | 0 <= k < |p| ensures !Str.MatchAt(token, [DOT], k) {
      assert token[k..k + 1][0] == p[k];
    }
    var dot := Str.Find(token, [DOT]);
    assert token[..dot] == p && token[dot + 1..] == q;
  }

  /** What was encrypted for a credential is read back under the same algorithm and domain, through either key manager,
      and refused under others. */
  lemma TokenReadsBack(c: Codec, o: Options, nonce: nat, psk: Psk, o': Options)
    requires c.Lawful() && c.enc(Ref(o), nonce, Token(c, psk)).Some? && c.survives(psk.meta)
    ensures SameKey(Ref(o'), Ref(o)) && o'.km != UNKNOWN ==>
              DecryptAndParse(c, o', c.enc(Ref(o), nonce, Token(c, psk)).value) == Parsed(psk.content, psk.meta)
    ensures !SameKey(Ref(o'), Ref(o)) ==>
              DecryptAndParse(c, o', c.enc(Ref(o), nonce, Token(c, psk)).value) == Refused(DECRYPTO_FAIL)
  {
    hide SameKey;
    var text := c.enc(Ref(o), nonce, Token(c, psk)).value;
    TokenSplits(psk.content, c.show(psk.meta));
    if SameKey(Ref(o'), Ref(o)) && o'.km != UNKNOWN {
      assert c.dec(Ref(o'), text) == Some(Token(c, psk));
    }
  }

  // ----- The callback-fed store -----

  /** The text is some encryption of the credential's token. */
  ghost predicate Seals(c: Codec, o: Options, psk: Psk, text: bytes) {
    exists n: nat :: c.enc(Ref(o), n, Token(c, psk)) == Some(text)
  }

  ghost predicate Mirrors(c: Codec, s: State) {
    && s.stored.Keys == s.ids.Keys
    && forall id :: id in s.ids ==> Seals(c, s.opts, s.ids[id], s.stored[id])
  }

  /** Live metadata passes the checks that loading makes, its id apart. */
  predicate Sound(m: Meta) {
    NamesFit(m.issuer, m.subject) && LengthAllowed(m.pskLength) && 1 <= m.validDays <= 365
  }

  predicate AllSound(s: State) {
    forall id :: id in s.ids ==> Sound(s.ids[id].meta)
  }

  /** The callbacks are registered (they may still fail). */
  predicate Registered(op: Op) {
    match op
    case OpGenerate(_, env) => env.cb.registered
    case OpImport(_, _, env) => env.cb.registered
    case OpUpdate(_, _, env) => env.cb.registered
    case OpCheck(_, env) => env.cb.registered
    case OpDelete(_, cb) => cb.registered
    case _ => true
  }

  /** Over a whole session with registered callbacks, whichever of them fail: the store mirrors the credentials. */
  lemma {:induction false} SessionMirrors(c: Codec, s: State, ops: seq<Op>)
    requires Inv(s) && 1 <= s.nextId && Mirrors(c, s) && AllSound(s)
    requires Session(c, s, ops) && forall op :: op in ops ==> Registered(op) && Tame(op)
    ensures Inv(Run(c, s, ops)) && Mirrors(c, Run(c, s, ops)) && AllSound(Run(c, s, ops))
    decreases |ops|
  {
    hide Inv, Mirrors, AllSound, Step, Steady, Registered;
    if ops == [] {
    } else {
      StepInv(c, s, ops[0]);
      StepMirrors(c, s, ops[0]);
      SessionMirrors(c, Step(c, s, ops[0]), ops[1..]);
    }
  }

  lemma StepMirrors(c: Codec, s: State, op: Op)
    requires Inv(s) && 1 <= s.nextId && Mirrors(c, s) && AllSound(s) && Steady(s, op) && Registered(op)
    ensures Mirrors(c, Step(c, s, op)) && AllSound(Step(c, s, op))
  {
    hide Token, Create, Update, Seals;
    match op
    case OpInit(o, ienv) =>
    case OpUnInit =>
    case OpGenerate(p, env) =>
      if ParamsValid(s, p) { CreateMirrors(c, s, Built(s, p, env.random), env); }
    case OpImport(p, content, env) =>
      if ParamsValid(s, p) { CreateMirrors(c, s, Built(s, p, content), env); }
    case OpUpdate(id, content, env) => UpdateMirrors(c, s, id, content, env);
    case OpDelete(id, cb) =>
    case OpCheck(id, env) => UpdateMirrors(c, s, id, [], env);
  }

  lemma CreateMirrors(c: Codec, s: State, psk: Psk, env: Env)
    requires Inv(s) && Mirrors(c, s) && AllSound(s) && env.cb.registered
    requires psk.meta.pskId == s.nextId && Sound(psk.meta)
    ensures Mirrors(c, Create(c, s, psk, env).0) && AllSound(Create(c, s, psk, env).0)
  {
    hide Token, Sound, Mirrors, AllSound;
    var text := c.enc(Ref(s.opts), env.nonce, Token(c, psk));
    if !Downcasts(s) && text.Some? && !env.cb.Fails() {
      assert Seals(c, s.opts, psk, text.value);
      StoringMirrors(c, s, psk, text.value, env.cb);
    }
  }

  lemma StoringMirrors(c: Codec, s: State, psk: Psk, text: bytes, cb: Callback)
    requires Mirrors(c, s) && AllSound(s) && cb.registered && Seals(c, s.opts, psk, text) && Sound(psk.meta)
    requires psk.meta.pskId !in s.ids
    ensures Mirrors(c, Added(Fed(s, psk.meta.pskId, text, cb), psk))
    ensures AllSound(Added(Fed(s, psk.meta.pskId, text, cb), psk))
  {
    hide Sound, Seals;
    var t := Added(Fed(s, psk.meta.pskId, text, cb), psk);
    assert t.ids == s.ids[psk.meta.pskId := psk] && t.stored == s.stored[psk.meta.pskId := text];
  }

  lemma UpdateMirrors(c: Codec, s: State, id: nat, content: bytes, env: Env)
    requires Inv(s) && Mirrors(c, s) && AllSound(s) && env.cb.registered
    ensures Mirrors(c, Update(c, s, id, content, env).0) && AllSound(Update(c, s, id, content, env).0)
  {
    hide Token, UpdateTarget, Replaced;
    TargetIsLive(s, id, content);
    if UpdateTarget(s, id, content).Found? {
      var was := UpdateTarget(s, id, content).psk;
      var psk := Refreshed(was, env.random, env.now);
      var text := c.enc(Ref(s.opts), env.nonce, Token(c, psk));
      if text.Some? && !env.cb.Fails() {
        assert Seals(c, s.opts, psk, text.value);
        var fed := Fed(s, psk.meta.pskId, text.value, env.cb);
        ReplacedInv(fed, was, psk);
        ReplacedKeepsCounter(fed, was, psk);
      }
    }
  }

  // ----- Loading the store -----

  /** The ids of the order are live. */
  predicate Live(order: seq<nat>, s: State) {
    forall i :: 0 <= i < |order| ==> order[i] in s.ids
  }

  /** All live ids in some order, each once. */
  ghost predicate Enumerates(order: seq<nat>, s: State) {
    Distinct(order) && Live(order, s) && forall id :: id in s.ids ==> id in order
  }

  function Texts(s: State, order: seq<nat>): (r: seq<bytes>)
    requires Live(order, s) && s.stored.Keys == s.ids.Keys
    ensures |r| == |order| && forall i :: 0 <= i < |r| ==> r[i] == s.stored[order[i]]
  {
    if order == [] then [] else Texts(s, order[..|order| - 1]) + [s.stored[order[|order| - 1]]]
  }

  /** Credential number id of the order, under that number as its new id. */
  function Renumbered(s: State, order: seq<nat>, id: nat): Psk
    requires Live(order, s) && 1 <= id <= |order|
  {
    Psk(s.ids[order[id - 1]].meta.(pskId := id), s.ids[order[id - 1]].content)
  }

  /** The credentials of the order under ids 1 to n, and their contents, each for its first credential. */
  function RenumberedIds(s: State, order: seq<nat>): (r: IdMap)
    requires Live(order, s)
    ensures forall id :: id in r <==> 1 <= id <= |order|
  {
    if order == [] then map[]
    else RenumberedIds(s, order[..|order| - 1])[|order| := Renumbered(s, order, |order|)]
  }

  /** Id number id of the loaded manager: contents and metadata of that credential in the order. */
  lemma {:induction false} RenumberedAt(s: State, order: seq<nat>, id: nat)
    requires Live(order, s) && 1 <= id <= |order|
    ensures RenumberedIds(s, order)[id].content == s.ids[order[id - 1]].content
    ensures RenumberedIds(s, order)[id].meta == s.ids[order[id - 1]].meta.(pskId := id)
    decreases |order|
  {
    if id >= |order| {
    } else {
      RenumberedAt(s, order[..|order| - 1], id);
    }
  }

  function RenumberedContents(s: State, order: seq<nat>): (r: ContentMap)
    requires Live(order, s)
  {
    if order == [] then map[]
    else Emplaced<bytes, nat>(RenumberedContents(s, order[..|order| - 1]), s.ids[order[|order| - 1]].content, |order|)
  }

  /** The content index of a load: exactly the contents of the list, each for the first credential that has it. */
  lemma {:induction false} FirstOwner(s: State, order: seq<nat>, i: nat)
    requires Live(order, s) && i < |order|
    ensures s.ids[order[i]].content in RenumberedContents(s, order)
    ensures 1 <= RenumberedContents(s, order)[s.ids[order[i]].content] <= i + 1
    ensures s.ids[order[RenumberedContents(s, order)[s.ids[order[i]].content] - 1]].content == s.ids[order[i]].content
    decreases |order|
  {
    var n := |order| - 1;
    var front := order[..n];
    if i < n {
      FirstOwner(s, front, i);
    } else if s.ids[order[n]].content in RenumberedContents(s, front) {
      OwnerInRange(s, front, s.ids[order[n]].content);
    }
  }

  lemma {:induction false} OwnerInRange(s: State, order: seq<nat>, x: bytes)
    requires Live(order, s) && x in RenumberedContents(s, order)
    ensures 1 <= RenumberedContents(s, order)[x] <= |order|
    ensures s.ids[order[RenumberedContents(s, order)[x] - 1]].content == x
    decreases |order|
  {
    var n := |order| - 1;
    if x in RenumberedContents(s, order[..n]) {
      OwnerInRange(s, order[..n], x);
    }
  }

  /** Every live credential can be read back from its text. */
  ghost predicate AllSurvive(c: Codec, s: State) {
    forall id :: id in s.ids ==> c.survives(s.ids[id].meta)
  }

  lemma ReadsBack(c: Codec, s: State, id: nat, o: Options)
    requires c.Lawful() && Index(s) && Mirrors(c, s) && AllSound(s) && AllSurvive(c, s) && id in s.ids
    ensures s.stored[id] != []
    ensures SameKey(Ref(o), Ref(s.opts)) && o.km != UNKNOWN ==>
              && DecryptAndParse(c, o, s.stored[id]) == Parsed(s.ids[id].content, s.ids[id].meta)
              && s.ids[id].meta.pskId == id
              && (MetaValid(o, s.ids[id].meta) <==> id <= o.pskMaxCount)
    ensures !SameKey(Ref(o), Ref(s.opts)) ==> DecryptAndParse(c, o, s.stored[id]) == Refused(DECRYPTO_FAIL)
  {
    hide DecryptAndParse, Token, Ref;
    assert Seals(c, s.opts, s.ids[id], s.stored[id]);
    var n: nat :| c.enc(Ref(s.opts), n, Token(c, s.ids[id])) == Some(s.stored[id]);
    TokenReadsBack(c, s.opts, n, s.ids[id], o);
  }

  lemma LoadFromLast(c: Codec, t: State, list: seq<bytes>, mid: State)
    requires list != [] && LoadFrom(c, t, list[..|list| - 1]) == (mid, OK)
    ensures LoadFrom(c, t, list) == LoadOne(c, mid, list[|list| - 1])
  {
    hide LoadOne;
  }

  lemma TextsFront(s: State, order: seq<nat>)
    requires order != [] && Live(order, s) && s.stored.Keys == s.ids.Keys
    ensures Live(order[..|order| - 1], s)
    ensures Texts(s, order)[..|order| - 1] == Texts(s, order[..|order| - 1])
  {
  }

  lemma {:induction false} LoadRenumbers(c: Codec, s: State, t: State, order: seq<nat>)
    requires c.Lawful() && Index(s) && Mirrors(c, s) && AllSound(s) && AllSurvive(c, s)
    requires Live(order, s) && forall i :: 0 <= i < |order| ==> order[i] <= t.opts.pskMaxCount
    requires t.ids == map[] && t.contents == map[] && t.nextId == 1
    requires SameKey(Ref(t.opts), Ref(s.opts)) && t.opts.km != UNKNOWN && !Downcasts(t)
    requires |order| < U32_LIMIT - 1
    ensures LoadFrom(c, t, Texts(s, order)) ==
            (t.(ids := RenumberedIds(s, order), contents := RenumberedContents(s, order), nextId := |order| + 1), OK)
    decreases |order|
  {
    hide DecryptAndParse, AllSound, AllSurvive, Index, MetaValid, Ref, LoadOne, LoadFrom, RenumberedIds;
    hide RenumberedContents, Seals, Texts;
    if order == [] {
      RenumberedNone(s, order);
      assert Texts(s, order) == [];
      LoadNothing(c, t);
    } else {
      var n := |order| - 1;
      var front := order[..n];
      TextsFront(s, order);
      LoadRenumbers(c, s, t, front);
      var mid := t.(ids := RenumberedIds(s, front), contents := RenumberedContents(s, front), nextId := n + 1);
      LoadFromLast(c, t, Texts(s, order), mid);
      LoadLast(c, s, mid, order);
    }
  }

  lemma LoadNothing(c: Codec, t: State)
    ensures LoadFrom(c, t, []) == (t, OK)
  {
  }

  lemma RenumberedNone(s: State, order: seq<nat>)
    requires order == []
    ensures RenumberedIds(s, order) == map[] && RenumberedContents(s, order) == map[]
  {
  }

  lemma EmplacedNew<K, V>(m: map<K, V>, k: K, v: V)
    requires k !in m
    ensures Emplaced(m, k, v) == m[k := v]
  {
  }

  lemma LoadOneAdds(c: Codec, mid: State, text: bytes, content: bytes, meta: Meta)
    requires text != [] && !Downcasts(mid)
    requires DecryptAndParse(c, mid.opts, text) == Parsed(content, meta) && MetaValid(mid.opts, meta)
    ensures LoadOne(c, mid, text) == (Added(mid, Psk(meta.(pskId := mid.nextId), content)), OK)
  {
    hide DecryptAndParse, MetaValid, Added;
  }

  lemma AddedLast(s: State, mid: State, order: seq<nat>)
    requires order != [] && Live(order, s) && mid.nextId == |order| < U32_LIMIT - 1
    requires mid.ids == RenumberedIds(s, order[..|order| - 1])
    requires mid.contents == RenumberedContents(s, order[..|order| - 1])
    ensures Added(mid, Renumbered(s, order, |order|)) ==
            mid.(ids := RenumberedIds(s, order), contents := RenumberedContents(s, order), nextId := |order| + 1)
  {
    hide Emplaced;
    var n := |order| - 1;
    var psk := Renumbered(s, order, n + 1);
    EmplacedNew<nat, Psk>(mid.ids, n + 1, psk);
    assert RenumberedIds(s, order) == mid.ids[n + 1 := psk];
    assert RenumberedContents(s, order) == Emplaced<bytes, nat>(mid.contents, psk.content, n + 1);
    assert Added(mid, psk).nextId == n + 2;
  }

  lemma LoadLast(c: Codec, s: State, mid: State, order: seq<nat>)
    requires c.Lawful() && Index(s) && Mirrors(c, s) && AllSound(s) && AllSurvive(c, s)
    requires s.stored.Keys == s.ids.Keys
    requires order != [] && Live(order, s) && order[|order| - 1] <= mid.opts.pskMaxCount && |order| < U32_LIMIT - 1
    requires SameKey(Ref(mid.opts), Ref(s.opts)) && mid.opts.km != UNKNOWN && !Downcasts(mid)
    requires mid.nextId == |order|
    requires mid.ids == RenumberedIds(s, order[..|order| - 1])
    requires mid.contents == RenumberedContents(s, order[..|order| - 1])
    ensures LoadOne(c, mid, s.stored[order[|order| - 1]]) ==
            (mid.(ids := RenumberedIds(s, order), contents := RenumberedContents(s, order), nextId := |order| + 1), OK)
  {
    hide DecryptAndParse, AllSound, AllSurvive, Index, MetaValid, Ref;
    hide Mirrors, LoadOne, Added, RenumberedIds, RenumberedContents;
    var id := order[|order| - 1];
    ReadsBack(c, s, id, mid.opts);
    LoadOneAdds(c, mid, s.stored[id], s.ids[id].content, s.ids[id].meta);
    AddedLast(s, mid, order);
  }

  /** There are fewer live ids than the counter says. */
  lemma FewIds(order: seq<nat>, s: State)
    requires Inv(s) && Enumerates(order, s)
    ensures order == [] || |order| < s.nextId
  {
    var ids, room := Elements(order), Below(s.nextId) - {0};
    forall x | x in ids ensures x in room {
      var i :| 0 <= i < |order| && order[i] == x;
    }
    SubsetSize(ids, room);
  }

  /** Loading all stored tokens, in any order, into any initialised manager succeeds if and only if there is one, the
      session used the default algorithm and domain, no id exceeds the default limit, and the key manager is not typed
      as VAULT. With that type the first token is the end: the object of the default manager is cast to the wrong
      class. It gives the same contents and metadata, renumbered from 1 in list order, with the counter after the
      last. */
  lemma ReloadExactly(c: Codec, s: State, t: State, order: seq<nat>)
    requires c.Lawful() && Inv(s) && Mirrors(c, s) && AllSound(s) && AllSurvive(c, s) && Enumerates(order, s)
    requires t.initCount > 0
    ensures LoadAll(c, t, Texts(s, order)).1 == OK <==>
            && order != [] && s.opts.alg == CE.AES256_GCM && s.opts.domainId == 0 && t.kmType == OPENBAO
            && forall id :: id in s.ids ==> id <= 100000
    ensures LoadAll(c, t, Texts(s, order)).1 == OK ==>
            LoadAll(c, t, Texts(s, order)).0 == Cleared(t).(ids := RenumberedIds(s, order),
              contents := RenumberedContents(s, order), nextId := |order| + 1)
    ensures order != [] && t.kmType == VAULT ==> LoadAll(c, t, Texts(s, order)).1 == BAD_DOWNCAST
  {
    hide DecryptAndParse, AllSound, AllSurvive, MetaValid, LoadFrom, Ref, Seals, RenumberedIds, RenumberedContents;
    hide Texts, SameKey;
    DefaultKey(s.opts);
    var list := Texts(s, order);
    var u := Cleared(t);
    assert u.opts == DEFAULT_OPTIONS;
    FewIds(order, s);
    if order != [] {
      if t.kmType == VAULT {
        ReadsBack(c, s, order[0], u.opts);
        DowncastsFirst(c, u, list);
      } else if !SameKey(Ref(s.opts), Ref(DEFAULT_OPTIONS)) {
        ReadsBack(c, s, order[0], u.opts);
        FailsAt(c, u, list, 0);
      } else if i: nat :| i < |order| && order[i] > DEFAULT_OPTIONS.pskMaxCount {
        ReadsBack(c, s, order[i], u.opts);
        FailsAt(c, u, list, i);
      } else {
        LoadRenumbers(c, s, u, order);
      }
    }
  }

  lemma DefaultKey(o: Options)
    ensures SameKey(Ref(o), Ref(DEFAULT_OPTIONS)) <==> o.alg == CE.AES256_GCM && o.domainId == 0
    ensures SameKey(Ref(DEFAULT_OPTIONS), Ref(o)) <==> o.alg == CE.AES256_GCM && o.domainId == 0
  {
  }

  lemma DowncastsFirst(c: Codec, u: State, list: seq<bytes>)
    requires Downcasts(u) && list != [] && list[0] != []
    ensures LoadFrom(c, u, list).1 == BAD_DOWNCAST
  {
    hide DecryptAndParse;
    assert list[..1][..0] == [];
    assert LoadFrom(c, u, list[..1]).1 == BAD_DOWNCAST;
    LoadStops(c, u, list, 1);
  }

  /** A token that is refused, or whose metadata is invalid, makes the whole load fail. */
  lemma FailsAt(c: Codec, u: State, list: seq<bytes>, i: nat)
    requires i < |list|
    requires match DecryptAndParse(c, u.opts, list[i])
             case Refused(rc) => rc != OK
             case Parsed(_, meta) => !MetaValid(u.opts, meta)
    ensures LoadFrom(c, u, list).1 != OK
  {
    hide DecryptAndParse, MetaValid;
    assert list[..i + 1][..i] == list[..i];
    LoadKeepsCount(c, u, list[..i]);
    assert LoadFrom(c, u, list[..i + 1]).1 != OK;
    LoadStops(c, u, list, i + 1);
  }

  /** From the first Init to the reload: s is what a session with registered callbacks leaves, through either key
      manager. Loading its store gives back every credential if and only if there is one, the session used the default
      algorithm and domain, no id that is still live exceeds the default limit, and the key manager is not typed as
      VAULT then. */
  lemma SessionReloads(c: Codec, o: Options, ops: seq<Op>, s: State, t: State, order: seq<nat>)
    requires c.Lawful() && o.pskMaxCount < U32_LIMIT - 1
    requires Session(c, Started(o), ops)
    requires forall op :: op in ops ==> Registered(op) && Tame(op)
    requires s == Run(c, Started(o), ops) && AllSurvive(c, s)
    requires Enumerates(order, s) && t.initCount > 0
    ensures s.stored.Keys == s.ids.Keys
    ensures LoadAll(c, t, Texts(s, order)).1 == OK <==>
            && order != [] && o.alg == CE.AES256_GCM && o.domainId == 0 && t.kmType == OPENBAO
            && forall id :: id in s.ids ==> id <= 100000
    ensures LoadAll(c, t, Texts(s, order)).1 == OK ==>
            LoadAll(c, t, Texts(s, order)).0 == Cleared(t).(ids := RenumberedIds(s, order),
              contents := RenumberedContents(s, order), nextId := |order| + 1)
  {
    hide Run, LoadAll, Texts, Session, AllSurvive, Seals, RenumberedIds, RenumberedContents;
    var s0 := Started(o);
    SessionMirrors(c, s0, ops);
    IdsAreConsecutive(c, s0, ops);
    ReloadExactly(c, s, t, order);
  }
}
