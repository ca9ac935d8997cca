/** What holds in every interleaving of the Rand module: the generator is used only as a complete live chain, every
    resource is released at most once and never lost, and no call waits forever on a mutex. */
module RandSafety {
  import opened Bytes
  import opened RandLifecycle
  import opened Counting

  // ----- Resources -----

  lemma AcquireConserves(g: Globals, x: Slot)
    requires Conserved({}, g) && x !in g.slot
    ensures Conserved({}, Acquired(g, x))
  {
  }

  lemma FreeConserves(g: Globals, x: Slot)
    requires Conserved({}, g)
    ensures Conserved({}, Freed(g, x))
  {
    if x in g.slot {
      var id, left := g.slot[x], g.slot - {x};
      OneLess(g.slot, x);
      AppendDistinct(g.released, id);
      forall y | y in left ensures left[y] != id && left[y] < g.next && left[y] !in g.released {}
    }
  }

  lemma OneLess(m: map<Slot, nat>, x: Slot)
    requires x in m
    ensures |m - {x}| == |m| - 1
  {
    assert m.Keys == (m - {x}).Keys + {x};
  }

  lemma AppendDistinct(s: seq<nat>, id: nat)
    requires id !in s && Distinct(s)
    ensures Distinct(s + [id])
    ensures forall x :: x in s + [id] <==> x in s || x == id
  {
  }

  /** The handle that FetchRandAvailable gets and gives back. */
  lemma TestConserves(g: Globals)
    requires Conserved({}, g)
    ensures Conserved({g.next}, g.(next := g.next + 1))
  {
  }

  lemma TestFreeConserves(g: Globals, res: nat)
    requires Conserved({res}, g)
    ensures Conserved({}, g.(released := g.released + [res]))
  {
  }

  /** Steps that acquire and release nothing. */
  lemma SameConserves(local: set<nat>, g: Globals, g': Globals)
    requires Conserved(local, g) && g'.slot == g.slot && g'.next == g.next && g'.released == g.released
    ensures Conserved(local, g')
  {
  }

  // ----- One step of one thread -----

  /** Nobody owns the first mutex, or the thread does. */
  predicate Free(t: nat, g: Globals) {
    g.initMutex == None || g.initMutex == Some(t)
  }

  /** A thread's place after its step agrees with the mutexes, and nothing changes while another owns the first one. */
  predicate StaysPlaced(t: nat, g: Globals, move: (PC, Globals)) {
    && Placed(move.0, t, move.1) && Ordered(move.1)
    && if Free(t, g) then Free(t, move.1) else move.1 == g
  }

  lemma EnterPlaced(pc: PC, t: nat, g: Globals)
    requires Placed(pc, t, g) && Ordered(g) && EnterMove(pc, t, g).Some?
    ensures StaysPlaced(t, g, EnterMove(pc, t, g).value)
  {
  }

  lemma ProviderPlaced(pc: PC, t: nat, g: Globals, ok: bool)
    requires Placed(pc, t, g) && Ordered(g) && ProviderMove(pc, g, ok).Some?
    ensures StaysPlaced(t, g, ProviderMove(pc, g, ok).value)
  {
  }

  lemma InitPlaced(pc: PC, t: nat, g: Globals, ok: bool)
    requires Placed(pc, t, g) && Ordered(g) && InitMove(pc, g, ok).Some?
    ensures StaysPlaced(t, g, InitMove(pc, g, ok).value)
  {
  }

  lemma ParentPlaced(pc: PC, t: nat, g: Globals, ok: bool)
    requires Placed(pc, t, g) && Ordered(g) && ParentMove(pc, g, ok).Some?
    ensures StaysPlaced(t, g, ParentMove(pc, g, ok).value)
  {
  }

  lemma DrbgPlaced(pc: PC, t: nat, g: Globals, ok: bool)
    requires Placed(pc, t, g) && Ordered(g) && DrbgMove(pc, g, ok).Some?
    ensures StaysPlaced(t, g, DrbgMove(pc, g, ok).value)
  {
  }

  lemma FreePlaced(pc: PC, t: nat, g: Globals)
    requires Placed(pc, t, g) && Ordered(g) && FreeMove(pc, g).Some?
    ensures StaysPlaced(t, g, FreeMove(pc, g).value)
  {
  }

  lemma DeinitPlaced(pc: PC, t: nat, g: Globals)
    requires Placed(pc, t, g) && Ordered(g) && DeinitMove(pc, t, g).Some?
    ensures StaysPlaced(t, g, DeinitMove(pc, t, g).value)
  {
  }

  lemma GetPlaced(pc: PC, t: nat, g: Globals, ok: bool)
    requires Placed(pc, t, g) && Ordered(g) && GetMove(pc, t, g, ok).Some?
    ensures StaysPlaced(t, g, GetMove(pc, t, g, ok).value)
  {
  }

  // ----- The shape of the globals -----

  /** What the thread knows: its shape if it owns the first mutex, and that all is settled if nobody does. */
  predicate Knows(pc: PC, g: Globals) {
    if HoldsInit(pc) then Shape(pc, g) else g.initMutex == None ==> Settled(g)
  }

  lemma EnterStep(pc: PC, t: nat, g: Globals)
    requires Knows(pc, g) && EnterMove(pc, t, g).Some?
    ensures Knows(EnterMove(pc, t, g).value.0, EnterMove(pc, t, g).value.1)
  {
  }

  lemma SlotsOfLists()
    ensures SlotsOf(PROVIDER_SLOTS) == PROVIDERS && SlotsOf(RAND_SLOTS) == RANDS
  {
    assert SlotsOf([Default]) == {Default} && SlotsOf([Fips, Default]) == {Fips, Default};
    assert PROVIDER_SLOTS[1..] == [Fips, Default];
    assert SlotsOf([Drbg, Parent]) == {Drbg, Parent};
    assert RAND_SLOTS[1..] == [ParentCtx, Drbg, Parent] && RAND_SLOTS[1..][1..] == [Drbg, Parent];
  }

  /** Without a handle of the chain any order will do. */
  lemma {:induction false} NoContextInOrder(todo: seq<Slot>, slots: set<Slot>)
    requires slots !! {RandCtx, ParentCtx, Drbg, Parent}
    ensures Nested(slots) && FreesInOrder(todo, slots)
  {
    if todo == [] {
    } else {
      NoContextInOrder(todo[1..], slots - {todo[0]});
    }
  }

  lemma {:induction false} FreesThen(own: seq<Slot>, rest: seq<Slot>, slots: set<Slot>)
    requires FreesInOrder(own, slots)
    requires slots - SlotsOf(own) !! {RandCtx, ParentCtx, Drbg, Parent}
    ensures FreesInOrder(own + rest, slots)
  {
    if own == [] {
      assert own + rest == rest;
      NoContextInOrder(rest, slots);
    } else {
      assert (own + rest)[1..] == own[1..] + rest;
      FreesThen(own[1..], rest, slots - {own[0]});
    }
  }

  /** The orders in which the code frees a chain that is complete, or as far as it was built. */
  lemma ChainInOrder(slots: set<Slot>)
    requires Custom in slots || Default in slots
    ensures RANDS <= slots ==> Nested(slots) && FreesInOrder(RAND_SLOTS, slots)
    ensures {Parent} <= slots && slots !! {RandCtx, ParentCtx, Drbg} ==>
              Nested(slots) && FreesInOrder([Parent], slots)
    ensures {Parent, ParentCtx} <= slots && slots !! {RandCtx, Drbg} ==>
              Nested(slots) && FreesInOrder([ParentCtx, Parent], slots)
    ensures {Parent, ParentCtx, Drbg} <= slots && RandCtx !in slots ==>
              Nested(slots) && FreesInOrder([ParentCtx, Drbg, Parent], slots)
  {
    assert RAND_SLOTS[1..] == [ParentCtx, Drbg, Parent] && [ParentCtx, Drbg, Parent][1..] == [Drbg, Parent];
    assert [Drbg, Parent][1..] == [Parent] && [ParentCtx, Parent][1..] == [Parent] && [Parent][1..] == [];
  }

  lemma ProviderStep(pc: PC, g: Globals, ok: bool)
    requires Knows(pc, g) && ProviderMove(pc, g, ok).Some?
    ensures Knows(ProviderMove(pc, g, ok).value.0, ProviderMove(pc, g, ok).value.1)
  {
    hide SlotsOf, FreesInOrder, Nested;
    SlotsOfLists();
    if g.slot.Keys !! {RandCtx, ParentCtx, Drbg, Parent} {
      NoContextInOrder(PROVIDER_SLOTS, g.slot.Keys);
    }
  }

  lemma InitStep(pc: PC, g: Globals, ok: bool)
    requires Knows(pc, g) && InitMove(pc, g, ok).Some?
    ensures Knows(InitMove(pc, g, ok).value.0, InitMove(pc, g, ok).value.1)
  {
    hide SlotsOf, FreesInOrder, Nested;
    SlotsOfLists();
    if pc.FetchTest? {
      NoContextInOrder(PROVIDER_SLOTS, g.slot.Keys);
    }
  }

  lemma {:induction false} SlotsOfAppend(a: seq<Slot>, b: seq<Slot>)
    ensures SlotsOf(a + b) == SlotsOf(a) + SlotsOf(b)
  {
    if a == [] {
      assert a + b == b;
    } else {
      assert (a + b)[1..] == a[1..] + b;
      SlotsOfAppend(a[1..], b);
    }
  }

  lemma AllSlots(g: Globals)
    ensures Only(g, PROVIDERS + RANDS) && Only(g, RANDS + PROVIDERS)
  {
    forall x: Slot ensures x in PROVIDERS + RANDS {
      match x
      case RandCtx =>
      case ParentCtx =>
      case Drbg =>
      case Parent =>
      case Custom =>
      case Fips =>
      case Default =>
    }
  }

  /** A failing BuildRandChain goes on to free every handle there is. */
  lemma UndoKnows(own: seq<Slot>, who: Caller, g: Globals)
    requires !g.initialized && Nested(g.slot.Keys) && FreesInOrder(own, g.slot.Keys)
    requires g.slot.Keys - SlotsOf(own) !! {RandCtx, ParentCtx, Drbg, Parent}
    ensures Knows(Undo(own, who), g)
  {
    hide SlotsOf, FreesInOrder, Nested;
    FreesThen(own, PROVIDER_SLOTS + RAND_SLOTS, g.slot.Keys);
    assert own + PROVIDER_SLOTS + RAND_SLOTS == own + (PROVIDER_SLOTS + RAND_SLOTS);
    SlotsOfLists();
    SlotsOfAppend(own + PROVIDER_SLOTS, RAND_SLOTS);
    SlotsOfAppend(own, PROVIDER_SLOTS);
    AllSlots(g);
  }

  /** A failing BuildRandChain frees what it has built, in order, before. */
  lemma UndoBuilding(own: seq<Slot>, rands: set<Slot>, who: Caller, g: Globals, parentReady: bool)
    requires Building(g, rands, parentReady) && (Custom in g.slot || Default in g.slot)
    requires || (own == [] && rands == {}) || (own == [Parent] && rands == {Parent})
             || (own == [ParentCtx, Parent] && rands == {Parent, ParentCtx})
             || (own == [ParentCtx, Drbg, Parent] && rands == {Parent, ParentCtx, Drbg})
             || (own == RAND_SLOTS && rands == {Parent, ParentCtx, Drbg, RandCtx})
    ensures Knows(Undo(own, who), g)
  {
    hide FreesInOrder, Nested, Knows;
    var slots := g.slot.Keys;
    ChainInOrder(slots);
    SlotsOfOwn();
    if own == [] {
      NoContextInOrder(own, slots);
    }
    UndoKnows(own, who, g);
  }

  lemma LoadedSome(c: Config, g: Globals)
    requires Loaded(c, g)
    ensures Custom in g.slot || Default in g.slot
  {
  }

  lemma SlotsOfOwn()
    ensures SlotsOf([]) == {} && SlotsOf([Parent]) == {Parent} && SlotsOf([ParentCtx, Parent]) == {ParentCtx, Parent}
    ensures SlotsOf([ParentCtx, Drbg, Parent]) == {ParentCtx, Drbg, Parent} && SlotsOf(RAND_SLOTS) == RANDS
  {
    assert [ParentCtx, Drbg, Parent][1..] == [Drbg, Parent] && [Drbg, Parent][1..] == [Parent];
    assert [ParentCtx, Parent][1..] == [Parent] && [Parent][1..] == [];
    assert RAND_SLOTS[1..] == [ParentCtx, Drbg, Parent];
  }

  /** The next handle of the chain finds its slot empty. */
  lemma BuildingGrows(g: Globals, rands: set<Slot>, x: Slot, rands': set<Slot>, parentReady: bool)
    requires Building(g, rands, parentReady) && x in RANDS && x !in rands && rands' == rands + {x}
    ensures x !in g.slot && !g.initialized && Building(Acquired(g, x), rands', parentReady)
    ensures forall c :: Loaded(c, g) ==> Loaded(c, Acquired(g, x))
  {
  }

  lemma ParentStep(pc: PC, g: Globals, ok: bool)
    requires Knows(pc, g) && ParentMove(pc, g, ok).Some?
    ensures Knows(ParentMove(pc, g, ok).value.0, ParentMove(pc, g, ok).value.1)
  {
    hide Undo, Chain, Building, Only, Acquired, Settled, Loaded;
    match pc
    case FetchParent(c, who) =>
      BuildingGrows(g, {}, Parent, {Parent}, false);
      if !ok { LoadedSome(c, g); UndoBuilding([], {}, who, g, false); }
    case NewParentCtx(c, who) =>
      BuildingGrows(g, {Parent}, ParentCtx, {Parent, ParentCtx}, false);
      if !ok { LoadedSome(c, g); UndoBuilding([Parent], {Parent}, who, g, false); }
    case InstantiateParent(c, who) =>
      ParentReady(g);
      if !ok { LoadedSome(c, g); UndoBuilding([ParentCtx, Parent], {Parent, ParentCtx}, who, g, false); }
  }

  lemma ParentReady(g: Globals)
    requires Building(g, {Parent, ParentCtx}, false)
    ensures Building(Instantiated(g, ParentCtx), {Parent, ParentCtx}, true) && !g.initialized
    ensures forall c :: Loaded(c, g) ==> Loaded(c, Instantiated(g, ParentCtx))
  {
  }

  lemma DrbgStep(pc: PC, g: Globals, ok: bool)
    requires Knows(pc, g) && DrbgMove(pc, g, ok).Some?
    ensures Knows(DrbgMove(pc, g, ok).value.0, DrbgMove(pc, g, ok).value.1)
  {
    hide Undo, Chain, Building, Only, Acquired, Loaded;
    match pc
    case FetchDrbg(c, who) =>
      BuildingGrows(g, {Parent, ParentCtx}, Drbg, {Parent, ParentCtx, Drbg}, true);
      if !ok { LoadedSome(c, g); UndoBuilding([ParentCtx, Parent], {Parent, ParentCtx}, who, g, true); }
    case NewRandCtx(c, who) =>
      BuildingGrows(g, {Parent, ParentCtx, Drbg}, RandCtx, {Parent, ParentCtx, Drbg, RandCtx}, true);
      if !ok { LoadedSome(c, g); UndoBuilding([ParentCtx, Drbg, Parent], {Parent, ParentCtx, Drbg}, who, g, true); }
    case InstantiateDrbg(c, who) =>
      ChainReady(g);
      if !ok { LoadedSome(c, g); UndoBuilding(RAND_SLOTS, {Parent, ParentCtx, Drbg, RandCtx}, who, g, true); }
    case Publish(c, who) => Published(c, g);
  }

  lemma ChainReady(g: Globals)
    requires Building(g, {Parent, ParentCtx, Drbg, RandCtx}, true)
    ensures Chain(Instantiated(g, RandCtx)) && !g.initialized
    ensures forall c :: Loaded(c, g) ==> Loaded(c, Instantiated(g, RandCtx))
  {
  }

  lemma Published(c: Config, g: Globals)
    requires Chain(g) && Loaded(c, g)
    ensures var h := g.(initialized := true, active := c); Chain(h) && Loaded(h.active, h)
  {
  }

  /** One handle of a cleanup list, or the end of the list. */
  lemma FreeStep(pc: PC, g: Globals)
    requires Knows(pc, g) && FreeMove(pc, g).Some?
    ensures Knows(FreeMove(pc, g).value.0, FreeMove(pc, g).value.1)
  {
    hide Nested;
    var todo, after := pc.todo, pc.after;
    if todo == [] {
      assert after != RandGone ==> g.slot.Keys == {};
      assert g.slot.Keys == {} ==> g.slot == map[];
      assert SlotsOf(todo) + PROVIDERS == PROVIDERS;
    } else {
      assert SlotsOf(todo) == {todo[0]} + SlotsOf(todo[1..]);
      assert Freed(g, todo[0]).slot.Keys == g.slot.Keys - {todo[0]};
    }
  }

  lemma SettledInOrder(g: Globals)
    requires Settled(g)
    ensures Nested(g.slot.Keys) && FreesInOrder(RAND_SLOTS, g.slot.Keys)
  {
    if g.slot == map[] {
      NoContextInOrder(RAND_SLOTS, g.slot.Keys);
    } else {
      ChainInOrder(g.slot.Keys);
    }
  }

  lemma DeinitStep(pc: PC, t: nat, g: Globals)
    requires Knows(pc, g) && DeinitMove(pc, t, g).Some?
    ensures Knows(DeinitMove(pc, t, g).value.0, DeinitMove(pc, t, g).value.1)
  {
    hide SlotsOf, FreesInOrder, Nested;
    SlotsOfLists();
    AllSlots(g);
    if pc.DeinitRandLock? {
      SettledInOrder(g);
    } else if pc.DeinitProviderLock? {
      NoContextInOrder(PROVIDER_SLOTS, g.slot.Keys);
    }
  }

  lemma GetStep(pc: PC, t: nat, g: Globals, ok: bool)
    requires Knows(pc, g) && GetMove(pc, t, g, ok).Some?
    ensures Knows(GetMove(pc, t, g, ok).value.0, GetMove(pc, t, g, ok).value.1)
  {
  }

  // ----- Conservation, step by step -----

  lemma EnterConserves(pc: PC, t: nat, g: Globals)
    requires Conserved(Local(pc), g) && EnterMove(pc, t, g).Some?
    ensures Conserved(Local(EnterMove(pc, t, g).value.0), EnterMove(pc, t, g).value.1)
  {
    hide Conserved;
    SameConserves({}, g, EnterMove(pc, t, g).value.1);
  }

  lemma ProviderConserves(pc: PC, g: Globals, ok: bool)
    requires Conserved(Local(pc), g) && Knows(pc, g) && ProviderMove(pc, g, ok).Some?
    ensures Conserved(Local(ProviderMove(pc, g, ok).value.0), ProviderMove(pc, g, ok).value.1)
  {
    hide Conserved;
    match pc
    case FipsDefault(c, who) => if Default !in g.slot { AcquireConserves(g, Default); }
    case LoadFips(c, who) => if Fips !in g.slot { AcquireConserves(g, Fips); }
    case LoadRest(c, who) =>
      if c.custom { AcquireConserves(g, Custom); } else if Default !in g.slot { AcquireConserves(g, Default); }
  }

  lemma InitConserves(pc: PC, g: Globals, ok: bool)
    requires Conserved(Local(pc), g) && InitMove(pc, g, ok).Some?
    ensures Conserved(Local(InitMove(pc, g, ok).value.0), InitMove(pc, g, ok).value.1)
  {
    hide Conserved;
    if pc.FetchTest? {
      TestConserves(g);
    } else if pc.FetchFree? {
      TestFreeConserves(g, pc.res);
    } else {
      SameConserves({}, g, InitMove(pc, g, ok).value.1);
    }
  }

  lemma ParentConserves(pc: PC, g: Globals, ok: bool)
    requires Conserved(Local(pc), g) && Knows(pc, g) && ParentMove(pc, g, ok).Some?
    ensures Conserved(Local(ParentMove(pc, g, ok).value.0), ParentMove(pc, g, ok).value.1)
  {
    hide Conserved, Chain;
    match pc
    case FetchParent(c, who) => AcquireConserves(g, Parent);
    case NewParentCtx(c, who) => AcquireConserves(g, ParentCtx);
    case InstantiateParent(c, who) => SameConserves({}, g, Instantiated(g, ParentCtx));
  }

  lemma DrbgConserves(pc: PC, g: Globals, ok: bool)
    requires Conserved(Local(pc), g) && Knows(pc, g) && DrbgMove(pc, g, ok).Some?
    ensures Conserved(Local(DrbgMove(pc, g, ok).value.0), DrbgMove(pc, g, ok).value.1)
  {
    hide Conserved, Chain;
    match pc
    case FetchDrbg(c, who) => AcquireConserves(g, Drbg);
    case NewRandCtx(c, who) => AcquireConserves(g, RandCtx);
    case InstantiateDrbg(c, who) => SameConserves({}, g, Instantiated(g, RandCtx));
    case Publish(c, who) => SameConserves({}, g, g.(initialized := true, active := c));
  }

  lemma FreeMoveConserves(pc: PC, g: Globals)
    requires Conserved(Local(pc), g) && FreeMove(pc, g).Some?
    ensures Conserved(Local(FreeMove(pc, g).value.0), FreeMove(pc, g).value.1)
  {
    hide Conserved;
    if pc.todo != [] {
      FreeConserves(g, pc.todo[0]);
    }
  }

  lemma DeinitConserves(pc: PC, t: nat, g: Globals)
    requires Conserved(Local(pc), g) && DeinitMove(pc, t, g).Some?
    ensures Conserved(Local(DeinitMove(pc, t, g).value.0), DeinitMove(pc, t, g).value.1)
  {
    hide Conserved;
    SameConserves({}, g, DeinitMove(pc, t, g).value.1);
  }

  lemma GetConserves(pc: PC, t: nat, g: Globals, ok: bool)
    requires Conserved(Local(pc), g) && GetMove(pc, t, g, ok).Some?
    ensures Conserved(Local(GetMove(pc, t, g, ok).value.0), GetMove(pc, t, g, ok).value.1)
  {
    hide Conserved;
    SameConserves({}, g, GetMove(pc, t, g, ok).value.1);
  }

  // ----- Every interleaving -----

  /** One step of any thread. */
  lemma MoveGood(pc: PC, t: nat, g: Globals, ok: bool)
    requires Placed(pc, t, g) && Ordered(g) && Move(pc, t, g, ok).Some?
    ensures StaysPlaced(t, g, Move(pc, t, g, ok).value)
    ensures Knows(pc, g) ==> Knows(Move(pc, t, g, ok).value.0, Move(pc, t, g, ok).value.1)
    ensures Knows(pc, g) && Conserved(Local(pc), g) ==>
              Conserved(Local(Move(pc, t, g, ok).value.0), Move(pc, t, g, ok).value.1)
  {
    hide Placed, Ordered, Knows, Conserved, StaysPlaced, Local;
    hide EnterMove, ProviderMove, InitMove, ParentMove, DrbgMove, FreeMove, DeinitMove, GetMove;
    if EnterMove(pc, t, g).Some? {
      EnterPlaced(pc, t, g);
      if Knows(pc, g) {
        EnterStep(pc, t, g);
        if Conserved(Local(pc), g) { EnterConserves(pc, t, g); }
      }
    } else if ProviderMove(pc, g, ok).Some? {
      ProviderPlaced(pc, t, g, ok);
      if Knows(pc, g) {
        ProviderStep(pc, g, ok);
        if Conserved(Local(pc), g) { ProviderConserves(pc, g, ok); }
      }
    } else if InitMove(pc, g, ok).Some? {
      InitPlaced(pc, t, g, ok);
      if Knows(pc, g) {
        InitStep(pc, g, ok);
        if Conserved(Local(pc), g) { InitConserves(pc, g, ok); }
      }
    } else if ParentMove(pc, g, ok).Some? {
      ParentPlaced(pc, t, g, ok);
      if Knows(pc, g) {
        ParentStep(pc, g, ok);
        if Conserved(Local(pc), g) { ParentConserves(pc, g, ok); }
      }
    } else if DrbgMove(pc, g, ok).Some? {
      DrbgPlaced(pc, t, g, ok);
      if Knows(pc, g) {
        DrbgStep(pc, g, ok);
        if Conserved(Local(pc), g) { DrbgConserves(pc, g, ok); }
      }
    } else {
      MoveGoodRest(pc, t, g, ok);
    }
  }

  lemma MoveGoodRest(pc: PC, t: nat, g: Globals, ok: bool)
    requires Placed(pc, t, g) && Ordered(g) && Move(pc, t, g, ok).Some?
    requires EnterMove(pc, t, g).None? && ProviderMove(pc, g, ok).None? && InitMove(pc, g, ok).None?
    requires ParentMove(pc, g, ok).None? && DrbgMove(pc, g, ok).None?
    ensures StaysPlaced(t, g, Move(pc, t, g, ok).value)
    ensures Knows(pc, g) ==> Knows(Move(pc, t, g, ok).value.0, Move(pc, t, g, ok).value.1)
    ensures Knows(pc, g) && Conserved(Local(pc), g) ==>
              Conserved(Local(Move(pc, t, g, ok).value.0), Move(pc, t, g, ok).value.1)
  {
    hide Placed, Ordered, Knows, Conserved, StaysPlaced, Local;
    hide EnterMove, ProviderMove, InitMove, ParentMove, DrbgMove, FreeMove, DeinitMove, GetMove;
    if FreeMove(pc, g).Some? {
      FreePlaced(pc, t, g);
      if Knows(pc, g) {
        FreeStep(pc, g);
        if Conserved(Local(pc), g) { FreeMoveConserves(pc, g); }
      }
    } else if DeinitMove(pc, t, g).Some? {
      DeinitPlaced(pc, t, g);
      if Knows(pc, g) {
        DeinitStep(pc, t, g);
        if Conserved(Local(pc), g) { DeinitConserves(pc, t, g); }
      }
    } else {
      GetPlaced(pc, t, g, ok);
      if Knows(pc, g) {
        GetStep(pc, t, g, ok);
        if Conserved(Local(pc), g) { GetConserves(pc, t, g, ok); }
      }
    }
  }

  lemma HoldsNothing(pc: PC)
    requires pc.Idle? || !HoldsInit(pc)
    ensures Local(pc) == {} && !HoldsInit(pc) && !HoldsRand(pc) && !HoldsProvider(pc)
  {
  }

  lemma CallHoldsNothing(c: Config)
    ensures !HoldsInit(InitFast(c, Direct)) && !HoldsInit(DeinitLock) && !HoldsInit(GetReady(0))
  {
  }

  /** A thread that starts a call owns no mutex, before and after. */
  lemma CallInv(s: State, t: nat, pc: PC)
    requires Inv(s) && Pc(s, t).Idle? && !HoldsInit(pc)
    ensures Inv(s.(pcs := s.pcs[t := pc]))
  {
    hide HoldsInit, HoldsRand, HoldsProvider, Shape, Settled, Conserved, Local, Ordered;
    var u := s.(pcs := s.pcs[t := pc]);
    HoldsNothing(pc);
    HoldsNothing(Pc(s, t));
    assert Placed(Pc(s, t), t, s.g);
    forall x: nat ensures Placed(Pc(u, x), x, u.g) {
      assert Placed(Pc(s, x), x, s.g);
      assert x != t ==> Pc(u, x) == Pc(s, x);
    }
  }

  lemma OthersPlaced(pc: PC, x: nat, t: nat, g: Globals, g': Globals)
    requires Placed(pc, x, g) && x != t && Ordered(g) && Ordered(g')
    requires if Free(t, g) then Free(t, g') else g' == g
    ensures Placed(pc, x, g')
  {
    hide HoldsInit, HoldsRand, HoldsProvider;
  }

  lemma GoInv(s: State, t: nat, ok: bool)
    requires Inv(s) && Step(s, Go(t, ok)).Some?
    ensures Inv(Step(s, Go(t, ok)).value)
  {
    hide Move, HoldsInit, HoldsRand, HoldsProvider, Shape, Settled, Conserved, Local, Ordered;
    var u := Step(s, Go(t, ok)).value;
    var pc, pc' := Pc(s, t), Pc(u, t);
    assert Placed(pc, t, s.g);
    MoveGood(pc, t, s.g, ok);
    assert Move(pc, t, s.g, ok).value == (pc', u.g);
    HoldsNothing(Idle(None));
    if !HoldsInit(pc) { HoldsNothing(pc); }
    if !HoldsInit(pc') { HoldsNothing(pc'); }
    forall x: nat ensures Placed(Pc(u, x), x, u.g) {
      if x != t {
        assert Placed(Pc(s, x), x, s.g);
        OthersPlaced(Pc(s, x), x, t, s.g, u.g);
      }
    }
  }

  lemma StepInv(s: State, a: Action)
    requires Inv(s) && Step(s, a).Some?
    ensures Inv(Step(s, a).value)
  {
    hide Move, Inv, HoldsInit;
    match a
    case CallInit(t, c) =>
      CallHoldsNothing(c);
      CallInv(s, t, InitFast(c, Direct));
    case CallDeinit(t) =>
      CallHoldsNothing(DEFAULT_CONFIG);
      CallInv(s, t, DeinitLock);
    case CallGet(t) =>
      CallHoldsNothing(DEFAULT_CONFIG);
      CallInv(s, t, GetReady(0));
    case Go(t, ok) => GoInv(s, t, ok);
  }

  /** The invariant holds in every state that any interleaving of any number of threads reaches. */
  lemma {:induction false} RunInv(s: State, actions: seq<Action>, u: State)
    requires Inv(s) && Reaches(s, actions, u)
    ensures Inv(u)
    decreases |actions|
  {
    hide Inv, Step;
    if actions == [] {
    } else {
      StepInv(s, actions[0]);
      RunInv(Step(s, actions[0]).value, actions[1..], u);
    }
  }

  lemma StartInv()
    ensures Inv(START)
  {
  }

  ghost predicate Reachable(u: State) {
    exists actions :: Reaches(START, actions, u)
  }

  lemma ReachableInv(u: State)
    requires Reachable(u)
    ensures Inv(u)
  {
    hide Inv, Reaches;
    var actions :| Reaches(START, actions, u);
    StartInv();
    RunInv(START, actions, u);
  }

  // ----- What follows -----

  /** Whenever nobody holds the init mutex, the module is initialised with all four handles set and the providers that
      its configuration asks for, or every handle and provider is null. */
  lemma FreeMeansSettled(u: State)
    requires Reachable(u) && u.g.initMutex == None
    ensures if u.g.initialized then RANDS <= u.g.slot.Keys else u.g.slot == map[]
    ensures u.g.initialized && u.g.active.fips ==> {Fips, Default} <= u.g.slot.Keys
    ensures u.g.initialized ==> (if u.g.active.custom then Custom else Default) in u.g.slot
  {
    hide Conserved;
    ReachableInv(u);
  }

  /** The generator is used, for the health check and for output, only by the one thread that holds both mutexes, and
      only as a complete chain: four handles that are not released, both contexts instantiated. */
  lemma GenerateSafe(u: State, t: nat)
    requires Reachable(u) && (Pc(u, t).GetGenerate? || Pc(u, t).GetHealth?)
    ensures u.g.initialized && u.g.initMutex == Some(t) && u.g.randMutex == Some(t)
    ensures forall x :: x in RANDS ==> x in u.g.slot && u.g.slot[x] !in u.g.released
    ensures u.g.slot[RandCtx] in u.g.ready && u.g.slot[ParentCtx] in u.g.ready
  {
    ReachableInv(u);
    assert Placed(Pc(u, t), t, u.g);
  }

  /** In every reachable state a context is there only with its algorithm and with the context it draws from, and all of
      them only with a provider: nothing is freed before what uses it. */
  lemma FreedInOrder(u: State)
    requires Reachable(u)
    ensures RandCtx in u.g.slot ==> ParentCtx in u.g.slot && Drbg in u.g.slot
    ensures ParentCtx in u.g.slot ==> Parent in u.g.slot
    ensures u.g.slot.Keys !! RANDS || Custom in u.g.slot || Default in u.g.slot
  {
    hide Conserved, FreesInOrder;
    ReachableInv(u);
    ShapeNested(Owner(u), u.g);
  }

  lemma ShapeNested(pc: PC, g: Globals)
    requires if g.initMutex.Some? then Shape(pc, g) && HoldsInit(pc) else Settled(g)
    ensures Nested(g.slot.Keys)
  {
    hide FreesInOrder, SlotsOf;
  }

  /** The test for a missing context in GetRand never decides: it fails only when the flag is down too. */
  lemma FlagMeansContext(u: State, t: nat)
    requires Reachable(u) && Pc(u, t).GetCheck? && u.g.initialized
    ensures RandCtx in u.g.slot
  {
    hide Conserved;
    ReachableInv(u);
    assert Placed(Pc(u, t), t, u.g);
  }

  /** At most one thread is between taking and giving back the init mutex. */
  lemma OneOwner(u: State, t: nat, t': nat)
    requires Reachable(u) && HoldsInit(Pc(u, t)) && HoldsInit(Pc(u, t'))
    ensures t == t'
  {
    hide Conserved, Shape, HoldsInit;
    ReachableInv(u);
    assert Placed(Pc(u, t), t, u.g) && Placed(Pc(u, t'), t', u.g);
  }

  /** No deadlock: while some call has not returned, some thread can make a step. */
  lemma NoDeadlock(u: State, t: nat) returns (who: nat)
    requires Reachable(u) && !Pc(u, t).Idle?
    ensures Step(u, Go(who, true)).Some?
  {
    hide Inv, Move;
    ReachableInv(u);
    who := if u.g.initMutex.Some? then u.g.initMutex.value else t;
    assert Placed(Pc(u, who), who, u.g) && Ordered(u.g) && Placed(Pc(u, t), t, u.g) by {
      InvPlaced(u, who);
      InvPlaced(u, t);
    }
    CanMove(Pc(u, who), who, u.g);
  }

  lemma InvPlaced(u: State, t: nat)
    requires Inv(u)
    ensures Placed(Pc(u, t), t, u.g) && Ordered(u.g)
  {
  }

  /** A thread that waits for a mutex can have it. */
  lemma LocksFree(pc: PC, t: nat, g: Globals)
    requires Placed(pc, t, g) && Ordered(g) && Free(t, g)
    ensures pc.InitLock? || pc.DeinitLock? || pc.GetLock? ==> g.initMutex.None?
    ensures pc.DeinitRandLock? || pc.GetRandLock? ==> g.randMutex.None?
    ensures pc.InitProviderLock? || pc.DeinitProviderLock? ==> g.providerMutex.None?
  {
  }

  lemma CanMove(pc: PC, t: nat, g: Globals)
    requires Placed(pc, t, g) && Ordered(g) && Free(t, g) && !pc.Idle?
    ensures Move(pc, t, g, true).Some?
  {
    hide Acquired, Undo, Freed, Instantiated, ReturnFromInit, Resume, SlotsOf, Placed, Ordered, Free;
    LocksFree(pc, t, g);
  }

  // ----- The init mutex is given back -----

  /** How many steps of its own a thread can make at most before the step that gives back the init mutex. */
  function StepsLeft(pc: PC): nat {
    match pc
    case InitCheck(_, _) => 27
    case InitValidate(_, _) => 26
    case InitProviderLock(_, _) => 25
    case FipsDefault(_, _) => 24
    case LoadFips(_, _) => 23
    case LoadRest(_, _) => 22
    case InitProviderUnlock(_, _) => 21
    case FetchTest(_, _) => 20
    case FetchFree(_, _, _) => 19
    case FetchParent(_, _) => 18
    case NewParentCtx(_, _) => 17
    case InstantiateParent(_, _) => 16
    case FetchDrbg(_, _) => 15
    case NewRandCtx(_, _) => 14
    case InstantiateDrbg(_, _) => 13
    case Freeing(todo, after) => |todo| + 1 + StepsResumed(after)
    case DeinitRandLock => 14
    case DeinitRandUnlock => 8
    case DeinitProviderLock => 7
    case DeinitProviderUnlock => 2
    case GetRandLock(_) => 5
    case GetCheck(_) => 4
    case GetHealth => 3
    case GetGenerate => 2
    case Publish(_, _) => 1
    case PrepareUnlock(_) => 1
    case DeinitClear => 1
    case GetRandUnlock(_) => 1
    case _ => 0
  }

  function StepsResumed(after: After): nat {
    match after
    case PrepareFailed(_) => 1
    case BuildFailed(_) => 0
    case RandGone => 8
    case ProvidersGone => 2
  }

  predicate CountsDown(pc: PC, next: PC) {
    HoldsInit(next) ==> StepsLeft(next) < StepsLeft(pc)
  }

  lemma EnterCounts(pc: PC, t: nat, g: Globals)
    requires HoldsInit(pc) && EnterMove(pc, t, g).Some?
    ensures CountsDown(pc, EnterMove(pc, t, g).value.0)
  {
  }

  lemma ProviderCounts(pc: PC, g: Globals, ok: bool)
    requires HoldsInit(pc) && ProviderMove(pc, g, ok).Some?
    ensures CountsDown(pc, ProviderMove(pc, g, ok).value.0)
  {
  }

  lemma InitCounts(pc: PC, g: Globals, ok: bool)
    requires HoldsInit(pc) && InitMove(pc, g, ok).Some?
    ensures CountsDown(pc, InitMove(pc, g, ok).value.0)
  {
  }

  lemma ParentCounts(pc: PC, g: Globals, ok: bool)
    requires HoldsInit(pc) && ParentMove(pc, g, ok).Some?
    ensures CountsDown(pc, ParentMove(pc, g, ok).value.0)
  {
  }

  lemma DrbgCounts(pc: PC, g: Globals, ok: bool)
    requires HoldsInit(pc) && DrbgMove(pc, g, ok).Some?
    ensures CountsDown(pc, DrbgMove(pc, g, ok).value.0)
  {
  }

  lemma FreeCounts(pc: PC, g: Globals)
    requires HoldsInit(pc) && FreeMove(pc, g).Some?
    ensures CountsDown(pc, FreeMove(pc, g).value.0)
  {
  }

  lemma DeinitCounts(pc: PC, t: nat, g: Globals)
    requires HoldsInit(pc) && DeinitMove(pc, t, g).Some?
    ensures CountsDown(pc, DeinitMove(pc, t, g).value.0)
  {
  }

  lemma GetCounts(pc: PC, t: nat, g: Globals, ok: bool)
    requires HoldsInit(pc) && GetMove(pc, t, g, ok).Some?
    ensures CountsDown(pc, GetMove(pc, t, g, ok).value.0)
  {
  }

  lemma OwnStepCounts(pc: PC, t: nat, g: Globals, ok: bool)
    requires HoldsInit(pc) && Move(pc, t, g, ok).Some?
    ensures CountsDown(pc, Move(pc, t, g, ok).value.0)
  {
    hide HoldsInit, CountsDown, EnterMove, ProviderMove, InitMove, ParentMove, DrbgMove, FreeMove, DeinitMove, GetMove;
    if EnterMove(pc, t, g).Some? {
      EnterCounts(pc, t, g);
    } else if ProviderMove(pc, g, ok).Some? {
      ProviderCounts(pc, g, ok);
    } else if InitMove(pc, g, ok).Some? {
      InitCounts(pc, g, ok);
    } else if ParentMove(pc, g, ok).Some? {
      ParentCounts(pc, g, ok);
    } else if DrbgMove(pc, g, ok).Some? {
      DrbgCounts(pc, g, ok);
    } else if FreeMove(pc, g).Some? {
      FreeCounts(pc, g);
    } else if DeinitMove(pc, t, g).Some? {
      DeinitCounts(pc, t, g);
    } else {
      GetCounts(pc, t, g, ok);
    }
  }

  /** A possible run in which the thread holds the init mutex from the first state to the last. */
  ghost predicate Keeps(s: State, actions: seq<Action>, t: nat)
    decreases |actions|
  {
    && HoldsInit(Pc(s, t))
    && (actions != [] ==> Step(s, actions[0]).Some? && Keeps(Step(s, actions[0]).value, actions[1..], t))
  }

  function OwnSteps(actions: seq<Action>, t: nat): nat {
    if actions == [] then 0
    else (if actions[0].Go? && actions[0].t == t then 1 else 0) + OwnSteps(actions[1..], t)
  }

  /** No thread keeps the init mutex over more than 27 steps of its own, whatever the others do and the library
      answers. */
  lemma GivesBack(s: State, actions: seq<Action>, t: nat)
    requires Keeps(s, actions, t) && (Pc(s, t).InitCheck? || Pc(s, t).DeinitRandLock? || Pc(s, t).GetRandLock?)
    ensures OwnSteps(actions, t) <= 27
  {
    KeepsFew(s, actions, t);
  }

  lemma {:induction false} KeepsFew(s: State, actions: seq<Action>, t: nat)
    requires Keeps(s, actions, t)
    ensures OwnSteps(actions, t) <= StepsLeft(Pc(s, t))
    decreases |actions|
  {
    hide Move, HoldsInit, StepsLeft;
    if actions == [] {
    } else {
      var a := actions[0];
      KeepsFew(Step(s, a).value, actions[1..], t);
      if a.Go? && a.t == t {
        OwnStepCounts(Pc(s, t), t, s.g, a.ok);
      } else {
        assert Pc(Step(s, a).value, t) == Pc(s, t) by { OthersStay(s, a, t); }
      }
    }
  }

  lemma OthersStay(s: State, a: Action, t: nat)
    requires Step(s, a).Some? && HoldsInit(Pc(s, t)) && (a.t != t || !a.Go?)
    ensures Pc(Step(s, a).value, t) == Pc(s, t)
  {
    hide Move;
  }

  /** And it can always make the next one. */
  lemma OwnerGoesOn(u: State, t: nat)
    requires Reachable(u) && HoldsInit(Pc(u, t))
    ensures u.g.initMutex == Some(t) && Step(u, Go(t, true)).Some?
  {
    hide Inv, Move;
    ReachableInv(u);
    InvPlaced(u, t);
    assert u.g.initMutex == Some(t);
    CanMove(Pc(u, t), t, u.g);
  }

  // ----- Calls end -----

  /** How many attempts of GetRand may follow this one. */
  function Later(pc: PC): int {
    match pc
    case GetReady(n) => MAX_GET_RAND_ATTEMPTS - n
    case GetLock(n) => MAX_GET_RAND_ATTEMPTS - 1 - n
    case GetRandLock(n) => MAX_GET_RAND_ATTEMPTS - 1 - n
    case GetCheck(n) => MAX_GET_RAND_ATTEMPTS - 1 - n
    case GetRandUnlock(next) => LaterAfter(next)
    case GetUnlock(next) => LaterAfter(next)
    case _ => if CallerOf(pc).Some? then LaterFor(CallerOf(pc).value) else 0
  }

  function LaterAfter(next: Next): int {
    match next case Retry(n) => MAX_GET_RAND_ATTEMPTS - n case Return(_) => 0
  }

  function LaterFor(who: Caller): int {
    match who case Attempt(n) => MAX_GET_RAND_ATTEMPTS - 1 - n case Direct => 0
  }

  /** Whose RandInit it is. */
  function CallerOf(pc: PC): Option<Caller> {
    match pc
    case InitFast(_, who) => Some(who)
    case InitLock(_, who) => Some(who)
    case InitCheck(_, who) => Some(who)
    case InitValidate(_, who) => Some(who)
    case InitProviderLock(_, who) => Some(who)
    case FipsDefault(_, who) => Some(who)
    case LoadFips(_, who) => Some(who)
    case LoadRest(_, who) => Some(who)
    case InitProviderUnlock(_, who) => Some(who)
    case FetchTest(c, who) => Some(who)
    case FetchFree(c, who, _) => Some(who)
    case FetchParent(c, who) => Some(who)
    case NewParentCtx(c, who) => Some(who)
    case InstantiateParent(c, who) => Some(who)
    case FetchDrbg(c, who) => Some(who)
    case NewRandCtx(c, who) => Some(who)
    case InstantiateDrbg(c, who) => Some(who)
    case Publish(c, who) => Some(who)
    case PrepareUnlock(who) => Some(who)
    case InitUnlock(who, _) => Some(who)
    case Freeing(_, after) => CleanupCaller(after)
    case _ => None
  }

  function CleanupCaller(after: After): Option<Caller> {
    match after
    case PrepareFailed(who) => Some(who)
    case BuildFailed(who) => Some(who)
    case _ => None
  }

  /** The greatest number of own steps before the call returns or its next attempt begins. */
  function StageLeft(pc: PC): nat {
    match pc
    case GetReady(_) => 0
    case InitFast(_, _) => 37
    case InitLock(_, _) => 36
    case DeinitLock => 16
    case GetLock(_) => 7
    case _ => StepsLeft(pc) + if CallerOf(pc).Some? then 8 else 1
  }

  function CallLeft(pc: PC): int {
    38 * Later(pc) + StageLeft(pc)
  }

  predicate Nearer(pc: PC, next: PC) {
    next.Idle? || (0 <= Later(next) && CallLeft(next) < CallLeft(pc))
  }

  /** Inside the init mutex: the caller stays, and the attempt does until GetRand is sure to return. */
  predicate KeepsAttempt(pc: PC, next: PC) {
    CallerOf(next) == CallerOf(pc) && (Later(next) == Later(pc) || Later(next) == 0)
  }

  lemma EnterKeeps(pc: PC, t: nat, g: Globals)
    requires HoldsInit(pc) && EnterMove(pc, t, g).Some? && HoldsInit(EnterMove(pc, t, g).value.0)
    ensures KeepsAttempt(pc, EnterMove(pc, t, g).value.0)
  {
    hide Acquired, Freed, Instantiated;
  }

  lemma ProviderKeeps(pc: PC, g: Globals, ok: bool)
    requires HoldsInit(pc) && ProviderMove(pc, g, ok).Some? && HoldsInit(ProviderMove(pc, g, ok).value.0)
    ensures KeepsAttempt(pc, ProviderMove(pc, g, ok).value.0)
  {
    hide Acquired, Freed, Instantiated;
  }

  lemma InitKeeps(pc: PC, g: Globals, ok: bool)
    requires HoldsInit(pc) && InitMove(pc, g, ok).Some? && HoldsInit(InitMove(pc, g, ok).value.0)
    ensures KeepsAttempt(pc, InitMove(pc, g, ok).value.0)
  {
    hide Acquired, Freed, Instantiated;
  }

  lemma ParentKeeps(pc: PC, g: Globals, ok: bool)
    requires HoldsInit(pc) && ParentMove(pc, g, ok).Some? && HoldsInit(ParentMove(pc, g, ok).value.0)
    ensures KeepsAttempt(pc, ParentMove(pc, g, ok).value.0)
  {
    hide Acquired, Freed, Instantiated;
  }

  lemma DrbgKeeps(pc: PC, g: Globals, ok: bool)
    requires HoldsInit(pc) && DrbgMove(pc, g, ok).Some? && HoldsInit(DrbgMove(pc, g, ok).value.0)
    ensures KeepsAttempt(pc, DrbgMove(pc, g, ok).value.0)
  {
    hide Acquired, Freed, Instantiated;
  }

  lemma FreeKeeps(pc: PC, g: Globals)
    requires HoldsInit(pc) && FreeMove(pc, g).Some? && HoldsInit(FreeMove(pc, g).value.0)
    ensures KeepsAttempt(pc, FreeMove(pc, g).value.0)
  {
    hide Acquired, Freed, Instantiated;
  }

  lemma DeinitKeeps(pc: PC, t: nat, g: Globals)
    requires HoldsInit(pc) && DeinitMove(pc, t, g).Some? && HoldsInit(DeinitMove(pc, t, g).value.0)
    ensures KeepsAttempt(pc, DeinitMove(pc, t, g).value.0)
  {
    hide Acquired, Freed, Instantiated;
  }

  lemma GetKeeps(pc: PC, t: nat, g: Globals, ok: bool)
    requires HoldsInit(pc) && GetMove(pc, t, g, ok).Some? && HoldsInit(GetMove(pc, t, g, ok).value.0)
    ensures KeepsAttempt(pc, GetMove(pc, t, g, ok).value.0)
  {
    hide Acquired, Freed, Instantiated;
  }

  lemma InnerKeeps(pc: PC, t: nat, g: Globals, ok: bool)
    requires HoldsInit(pc) && Move(pc, t, g, ok).Some? && HoldsInit(Move(pc, t, g, ok).value.0)
    ensures KeepsAttempt(pc, Move(pc, t, g, ok).value.0)
  {
    hide HoldsInit, KeepsAttempt, EnterMove, ProviderMove, InitMove, ParentMove;
    hide DrbgMove, FreeMove, DeinitMove, GetMove;
    if EnterMove(pc, t, g).Some? {
      EnterKeeps(pc, t, g);
    } else if ProviderMove(pc, g, ok).Some? {
      ProviderKeeps(pc, g, ok);
    } else if InitMove(pc, g, ok).Some? {
      InitKeeps(pc, g, ok);
    } else if ParentMove(pc, g, ok).Some? {
      ParentKeeps(pc, g, ok);
    } else if DrbgMove(pc, g, ok).Some? {
      DrbgKeeps(pc, g, ok);
    } else if FreeMove(pc, g).Some? {
      FreeKeeps(pc, g);
    } else if DeinitMove(pc, t, g).Some? {
      DeinitKeeps(pc, t, g);
    } else {
      GetKeeps(pc, t, g, ok);
    }
  }

  lemma HeldStage(pc: PC)
    requires HoldsInit(pc)
    ensures StageLeft(pc) == StepsLeft(pc) + if CallerOf(pc).Some? then 8 else 1
  {
    hide StepsLeft, CallerOf;
  }

  lemma InnerNearer(pc: PC, next: PC)
    requires HoldsInit(pc) && HoldsInit(next) && KeepsAttempt(pc, next) && CountsDown(pc, next) && 0 <= Later(pc)
    ensures Nearer(pc, next)
  {
    hide Later, StageLeft, CallLeft, HoldsInit;
    assert StageLeft(next) < StageLeft(pc) by { StageCounts(pc, next); }
    CallCounts(pc);
    CallCounts(next);
  }

  lemma CallCounts(pc: PC)
    ensures CallLeft(pc) == 38 * Later(pc) + StageLeft(pc)
  {
  }

  lemma StageCounts(pc: PC, next: PC)
    requires HoldsInit(pc) && HoldsInit(next) && CallerOf(next) == CallerOf(pc) && CountsDown(pc, next)
    ensures StageLeft(next) < StageLeft(pc)
  {
    hide CallerOf, StepsLeft, StageLeft, HoldsInit;
    HeldStage(pc);
    HeldStage(next);
  }

  /** The steps outside the init mutex. */
  lemma OuterNearer(pc: PC, t: nat, g: Globals, ok: bool)
    requires !HoldsInit(pc) && Move(pc, t, g, ok).Some? && 0 <= Later(pc)
    ensures Nearer(pc, Move(pc, t, g, ok).value.0)
  {
    hide Move, Nearer, Later;
    match pc
    case InitFast(c, who) => FastNearer(c, who, t, g, ok);
    case InitLock(c, who) => InitLockNearer(c, who, t, g, ok);
    case DeinitLock => DeinitLockNearer(t, g, ok);
    case GetReady(n) => ReadyNearer(n, t, g, ok);
    case GetLock(n) => GetLockNearer(n, t, g, ok);
    case Idle(last) => assert false by { IdleStays(last, t, g, ok); }
  }

  lemma IdleStays(last: Option<RC>, t: nat, g: Globals, ok: bool)
    ensures Move(Idle(last), t, g, ok) == None
  {
  }

  lemma FastNearer(c: Config, who: Caller, t: nat, g: Globals, ok: bool)
    requires 0 <= Later(InitFast(c, who))
    ensures Move(InitFast(c, who), t, g, ok).Some?
    ensures Nearer(InitFast(c, who), Move(InitFast(c, who), t, g, ok).value.0)
  {
  }

  lemma InitLockNearer(c: Config, who: Caller, t: nat, g: Globals, ok: bool)
    requires 0 <= Later(InitLock(c, who)) && Move(InitLock(c, who), t, g, ok).Some?
    ensures Nearer(InitLock(c, who), Move(InitLock(c, who), t, g, ok).value.0)
  {
    assert Move(InitLock(c, who), t, g, ok).value.0 == InitCheck(c, who);
  }

  lemma DeinitLockNearer(t: nat, g: Globals, ok: bool)
    requires Move(DeinitLock, t, g, ok).Some?
    ensures Nearer(DeinitLock, Move(DeinitLock, t, g, ok).value.0)
  {
    assert Move(DeinitLock, t, g, ok).value.0 == DeinitRandLock;
  }

  lemma ReadyNearer(n: nat, t: nat, g: Globals, ok: bool)
    requires 0 <= Later(GetReady(n))
    ensures Move(GetReady(n), t, g, ok).Some?
    ensures Nearer(GetReady(n), Move(GetReady(n), t, g, ok).value.0)
  {
  }

  lemma GetLockNearer(n: nat, t: nat, g: Globals, ok: bool)
    requires 0 <= Later(GetLock(n)) && Move(GetLock(n), t, g, ok).Some?
    ensures Nearer(GetLock(n), Move(GetLock(n), t, g, ok).value.0)
  {
    assert Move(GetLock(n), t, g, ok).value.0 == GetRandLock(n);
  }

  /** And those that leave it. */
  lemma LeavingNearer(pc: PC, t: nat, g: Globals, ok: bool)
    requires HoldsInit(pc) && Move(pc, t, g, ok).Some? && !HoldsInit(Move(pc, t, g, ok).value.0) && 0 <= Later(pc)
    ensures Nearer(pc, Move(pc, t, g, ok).value.0)
  {
    hide StepsLeft, Acquired, Freed, Instantiated, Later, CallerOf, StageLeft, Nearer;
    LeavesFromUnlock(pc, t, g, ok);
    match pc
    case InitUnlock(who, rc) => InitLeaves(who, rc, t, g, ok);
    case GetUnlock(next) => GetLeaves(next, t, g, ok);
    case DeinitUnlock => DeinitLeaves(t, g, ok);
  }

  lemma LeavesFromUnlock(pc: PC, t: nat, g: Globals, ok: bool)
    requires HoldsInit(pc) && Move(pc, t, g, ok).Some? && !HoldsInit(Move(pc, t, g, ok).value.0)
    ensures pc.InitUnlock? || pc.GetUnlock? || pc.DeinitUnlock?
  {
    hide Acquired, Freed, Instantiated, SlotsOf;
  }

  lemma InitLeaves(who: Caller, rc: RC, t: nat, g: Globals, ok: bool)
    requires 0 <= Later(InitUnlock(who, rc))
    ensures Move(InitUnlock(who, rc), t, g, ok).Some?
    ensures Nearer(InitUnlock(who, rc), Move(InitUnlock(who, rc), t, g, ok).value.0)
  {
  }

  lemma GetLeaves(next: Next, t: nat, g: Globals, ok: bool)
    requires 0 <= Later(GetUnlock(next))
    ensures Move(GetUnlock(next), t, g, ok).Some?
    ensures Nearer(GetUnlock(next), Move(GetUnlock(next), t, g, ok).value.0)
  {
  }

  lemma DeinitLeaves(t: nat, g: Globals, ok: bool)
    ensures Move(DeinitUnlock, t, g, ok).Some?
    ensures Nearer(DeinitUnlock, Move(DeinitUnlock, t, g, ok).value.0)
  {
  }

  lemma OwnStepNearer(pc: PC, t: nat, g: Globals, ok: bool)
    requires Move(pc, t, g, ok).Some? && 0 <= Later(pc)
    ensures Nearer(pc, Move(pc, t, g, ok).value.0)
  {
    hide HoldsInit, Nearer, Move, Later;
    var next := Move(pc, t, g, ok).value.0;
    if !HoldsInit(pc) {
      OuterNearer(pc, t, g, ok);
    } else if !HoldsInit(next) {
      LeavingNearer(pc, t, g, ok);
    } else {
      InnerKeeps(pc, t, g, ok);
      OwnStepCounts(pc, t, g, ok);
      InnerNearer(pc, next);
    }
  }

  /** A possible run in which the thread is inside a call from the first state to the last. */
  ghost predicate Busy(s: State, actions: seq<Action>, t: nat)
    decreases |actions|
  {
    && !Pc(s, t).Idle?
    && (actions != [] ==> Step(s, actions[0]).Some? && Busy(Step(s, actions[0]).value, actions[1..], t))
  }

  /** In no interleaving does a call make more steps of its own than this: 37 for RandInit, 16 for RandDeinit, and 38
      for each of the 1000 attempts of GetRand. */
  lemma CallEnds(s: State, actions: seq<Action>, t: nat)
    requires Busy(s, actions, t)
    ensures Pc(s, t).InitFast? && Pc(s, t).who == Direct ==> OwnSteps(actions, t) <= 37
    ensures Pc(s, t).DeinitLock? ==> OwnSteps(actions, t) <= 16
    ensures Pc(s, t) == GetReady(0) ==> OwnSteps(actions, t) <= 38 * MAX_GET_RAND_ATTEMPTS
  {
    if Later(Pc(s, t)) >= 0 {
      BusyFew(s, actions, t);
    }
  }

  lemma {:induction false} BusyFew(s: State, actions: seq<Action>, t: nat)
    requires Busy(s, actions, t) && Later(Pc(s, t)) >= 0
    ensures OwnSteps(actions, t) <= CallLeft(Pc(s, t))
    decreases |actions|
  {
    hide Move, Later, StageLeft;
    if actions == [] {
      assert OwnSteps(actions, t) == 0;
    } else {
      var a := actions[0];
      if a.Go? && a.t == t {
        OwnStepNearer(Pc(s, t), t, s.g, a.ok);
      } else {
        assert Pc(Step(s, a).value, t) == Pc(s, t) by { BusyStays(s, a, t); }
      }
      BusyFew(Step(s, a).value, actions[1..], t);
    }
  }

  lemma BusyStays(s: State, a: Action, t: nat)
    requires Step(s, a).Some? && !Pc(s, t).Idle? && (a.t != t || !a.Go?)
    ensures Pc(Step(s, a).value, t) == Pc(s, t)
  {
    hide Move;
  }

  // ----- Every resource exactly once -----

  function Held(m: map<Slot, nat>): (r: set<nat>)
    ensures forall id :: id in r <==> exists x :: x in m && m[x] == id
  {
    set x | x in m :: m[x]
  }

  lemma {:induction false} HeldSize(m: map<Slot, nat>)
    requires forall x, y :: x in m && y in m && m[x] == m[y] ==> x == y
    ensures |Held(m)| == |m|
    decreases |m|
  {
    if m == map[] {
      assert Held(m) == {};
    } else {
      var x :| x in m;
      var left := m - {x};
      OneLess(m, x);
      HeldSize(left);
      forall id | id in Held(m) ensures id in Held(left) + {m[x]} {
        var y :| y in m && m[y] == id;
        assert y != x ==> y in left && left[y] == id;
      }
      assert Held(m) == Held(left) + {m[x]};
    }
  }

  /** What Conserved says, on the three sets of resources. */
  lemma OnePlaceOnly(local: set<nat>, g: Globals)
    requires Conserved(local, g)
    ensures forall id :: id in Elements(g.released) ==> id !in Held(g.slot) && id !in local
    ensures forall id :: id in Held(g.slot) ==> id !in local
    ensures forall id :: id in Elements(g.released) || id in Held(g.slot) || id in local ==> id < g.next
    ensures |Elements(g.released)| + |Held(g.slot)| + |local| == g.next
  {
    HeldSize(g.slot);
  }

  lemma NoDuplicates(local: set<nat>, g: Globals)
    requires Conserved(local, g)
    ensures forall x, y :: x in g.slot && y in g.slot && g.slot[x] == g.slot[y] ==> x == y
    ensures Distinct(g.released)
  {
  }

  /** Counting turns into membership: nothing acquired is anywhere else. */
  lemma AllAccounted(local: set<nat>, g: Globals, id: nat)
    requires Conserved(local, g) && id < g.next
    ensures id in g.released || id in Held(g.slot) || id in local
  {
    hide Conserved, Held;
    OnePlaceOnly(local, g);
    Pigeonhole(Elements(g.released), Held(g.slot), local, g.next);
  }

  lemma InvConserves(u: State)
    requires Inv(u)
    ensures Conserved(Local(Owner(u)), u.g)
  {
    hide Conserved, Shape, Placed;
  }

  /** Conservation: in every reachable state each resource acquired so far is in exactly one place, a handle, the local
      variable of the thread in RandInit, or the list of releases, and there at most once. */
  lemma EachExactlyOnce(u: State, id: nat)
    requires Reachable(u) && id < u.g.next
    ensures id in u.g.released || id in Held(u.g.slot) || id in Local(Owner(u))
    ensures id in u.g.released ==> id !in Held(u.g.slot) && id !in Local(Owner(u))
    ensures id in Held(u.g.slot) ==> id !in Local(Owner(u))
    ensures forall x, y :: x in u.g.slot && y in u.g.slot && u.g.slot[x] == u.g.slot[y] ==> x == y
    ensures Distinct(u.g.released)
  {
    hide Inv, Conserved, Owner, Local, Held, Reachable;
    ReachableInv(u);
    InvConserves(u);
    AllAccounted(Local(Owner(u)), u.g, id);
    OnePlaceOnly(Local(Owner(u)), u.g);
    NoDuplicates(Local(Owner(u)), u.g);
  }

  lemma HolderHolds(u: State, t: nat)
    requires Inv(u) && u.g.initMutex == Some(t)
    ensures !Pc(u, t).Idle?
  {
    hide Shape, Conserved;
    assert Placed(Pc(u, t), t, u.g);
  }

  /** When every call has returned and the module is not initialised, everything acquired has been released. */
  lemma NothingLeaks(u: State, id: nat)
    requires Reachable(u) && id < u.g.next && !u.g.initialized && forall t: nat :: Pc(u, t).Idle?
    ensures id in u.g.released
  {
    hide Inv, Reachable;
    ReachableInv(u);
    if u.g.initMutex.Some? {
      HolderHolds(u, u.g.initMutex.value);
    } else {
      FreeMeansSettled(u);
      EachExactlyOnce(u, id);
      assert Local(Owner(u)) == {};
    }
  }
}
