/** What the calls of the Rand module return, in every interleaving, and that a call which runs alone succeeds. */
module RandResults {
  import opened Bytes
  import opened RandLifecycle
  import opened RandSafety

  // ----- Calls inside interleavings -----

  /** A run that ends with the return of the call that thread t is in. */
  ghost predicate Call(s: State, actions: seq<Action>, u: State, t: nat)
    decreases |actions|
  {
    if actions == [] then s == u && Pc(u, t).Idle?
    else
      && !Pc(s, t).Idle?
      && Step(s, actions[0]).Some? && Call(Step(s, actions[0]).value, actions[1..], u, t)
  }

  /** What the thread's last call returned, if it is outside all calls. */
  function Returned(u: State, t: nat): Option<RC> {
    if Pc(u, t).Idle? then Pc(u, t).last else None
  }

  /** Every question of the thread to the library is answered well. */
  predicate AllOk(actions: seq<Action>, t: nat) {
    actions != [] ==>
      && (actions[0].Go? && actions[0].t == t ==> actions[0].ok)
      && AllOk(actions[1..], t)
  }

  /** In the run, thread t makes a step from the place, with the answer. */
  ghost predicate Did(s: State, actions: seq<Action>, t: nat, pc: PC, ok: bool)
    decreases |actions|
  {
    && actions != []
    && ((actions[0] == Go(t, ok) && Pc(s, t) == pc)
        || (Step(s, actions[0]).Some? && Did(Step(s, actions[0]).value, actions[1..], t, pc, ok)))
  }

  /** In a call, a step of the thread itself, or one of another that leaves it where it is. */
  lemma OwnOrOther(s: State, a: Action, t: nat)
    requires Step(s, a).Some? && !Pc(s, t).Idle?
    ensures a.Go? && a.t == t ==>
              && Move(Pc(s, t), t, s.g, a.ok) == Some((Pc(Step(s, a).value, t), Step(s, a).value.g))
    ensures !(a.Go? && a.t == t) ==> Pc(Step(s, a).value, t) == Pc(s, t)
  {
    hide Move;
    if !(a.Go? && a.t == t) {
      BusyStays(s, a, t);
    }
  }

  // ----- RandInit -----

  /** The call names no provider although it asks for a custom one. */
  predicate Unnamed(pc: PC) {
    && (pc.InitFast? || pc.InitLock? || pc.InitCheck? || pc.InitValidate? || pc.InitProviderLock? || pc.FipsDefault?
        || pc.LoadFips? || pc.LoadRest?)
    && pc.c.custom && !pc.c.named
  }

  predicate Unchecked(pc: PC) {
    pc.InitFast? || pc.InitLock? || pc.InitCheck? || pc.InitValidate?
  }

  predicate Invalid(pc: PC) {
    Unchecked(pc) && !pc.c.valid
  }

  predicate Failing(pc: PC) {
    || pc.PrepareUnlock? || (pc.InitUnlock? && pc.rc == ERROR)
    || (pc.Freeing? && (pc.after.PrepareFailed? || pc.after.BuildFailed?))
  }

  /** What one step of RandInit can lead to, and why. */
  predicate InitLeads(pc: PC, g: Globals, ok: bool, next: PC) {
    && (Failing(next) ==> Failing(pc) || !ok || Unnamed(pc))
    && (Unnamed(next) ==> Unnamed(pc))
    && (next.InitUnlock? && next.rc == PARAM_INVALID ==> Invalid(pc))
    && (Invalid(next) ==> Invalid(pc))
    && (Invalid(pc) && !next.Idle? ==> Invalid(next) || (next.InitUnlock? && next.rc != ERROR))
  }

  lemma EnterLeads(pc: PC, t: nat, g: Globals, ok: bool)
    requires CallerOf(pc).Some? && HoldsInit(pc) && EnterMove(pc, t, g).Some?
    ensures InitLeads(pc, g, ok, EnterMove(pc, t, g).value.0)
  {
  }

  lemma OuterLeads(pc: PC, t: nat, g: Globals, ok: bool)
    requires (pc.InitFast? || pc.InitLock?) && EnterMove(pc, t, g).Some? && CallerOf(pc) == Some(Direct)
    ensures InitLeads(pc, g, ok, EnterMove(pc, t, g).value.0)
  {
  }

  lemma ProviderLeads(pc: PC, g: Globals, ok: bool)
    requires ProviderMove(pc, g, ok).Some?
    ensures InitLeads(pc, g, ok, ProviderMove(pc, g, ok).value.0)
  {
    hide Acquired;
  }

  lemma InitStepLeads(pc: PC, g: Globals, ok: bool)
    requires InitMove(pc, g, ok).Some? && (pc.InitUnlock? ==> pc.who == Direct)
    ensures InitLeads(pc, g, ok, InitMove(pc, g, ok).value.0)
  {
  }

  lemma ParentLeads(pc: PC, g: Globals, ok: bool)
    requires ParentMove(pc, g, ok).Some?
    ensures InitLeads(pc, g, ok, ParentMove(pc, g, ok).value.0)
  {
    hide Acquired, Instantiated;
  }

  lemma DrbgLeads(pc: PC, g: Globals, ok: bool)
    requires DrbgMove(pc, g, ok).Some?
    ensures InitLeads(pc, g, ok, DrbgMove(pc, g, ok).value.0)
  {
    hide Acquired, Instantiated;
  }

  lemma FreeLeads(pc: PC, g: Globals, ok: bool)
    requires FreeMove(pc, g).Some? && CallerOf(pc).Some?
    ensures InitLeads(pc, g, ok, FreeMove(pc, g).value.0)
  {
    hide Freed;
  }

  /** The place in RandInit called directly. */
  predicate InInit(pc: PC) {
    CallerOf(pc) == Some(Direct)
  }

  lemma InnerLeads(pc: PC, t: nat, g: Globals, ok: bool)
    requires CallerOf(pc).Some? && HoldsInit(pc) && Move(pc, t, g, ok).Some? && (pc.InitUnlock? ==> pc.who == Direct)
    ensures InitLeads(pc, g, ok, Move(pc, t, g, ok).value.0)
  {
    hide InitLeads, HoldsInit, EnterMove, ProviderMove, InitMove, ParentMove, DrbgMove, FreeMove, DeinitMove, GetMove;
    if EnterMove(pc, t, g).Some? {
      EnterLeads(pc, t, g, ok);
    } else if ProviderMove(pc, g, ok).Some? {
      ProviderLeads(pc, g, ok);
    } else if InitMove(pc, g, ok).Some? {
      InitStepLeads(pc, g, ok);
    } else if ParentMove(pc, g, ok).Some? {
      ParentLeads(pc, g, ok);
    } else if DrbgMove(pc, g, ok).Some? {
      DrbgLeads(pc, g, ok);
    } else if FreeMove(pc, g).Some? {
      FreeLeads(pc, g, ok);
    } else {
      assert false by { NoOtherMove(pc, t, g, ok); }
    }
  }

  lemma DirectLeads(pc: PC, t: nat, g: Globals, ok: bool)
    requires InInit(pc) && Move(pc, t, g, ok).Some?
    ensures InitLeads(pc, g, ok, Move(pc, t, g, ok).value.0)
  {
    hide InitLeads, HoldsInit, Move;
    if HoldsInit(pc) {
      CallerIsWho(pc);
      InnerLeads(pc, t, g, ok);
    } else {
      OuterMove(pc, t, g, ok);
      EntersByOuter(pc, t, g, ok);
      OuterLeads(pc, t, g, ok);
    }
  }

  lemma CallerIsWho(pc: PC)
    ensures pc.InitUnlock? ==> CallerOf(pc) == Some(pc.who)
  {
  }

  lemma EntersByOuter(pc: PC, t: nat, g: Globals, ok: bool)
    requires pc.InitFast? || pc.InitLock?
    ensures Move(pc, t, g, ok) == EnterMove(pc, t, g)
  {
  }

  lemma NoOtherMove(pc: PC, t: nat, g: Globals, ok: bool)
    requires CallerOf(pc).Some?
    ensures DeinitMove(pc, t, g) == None && GetMove(pc, t, g, ok) == None
  {
  }

  /** A direct call stays one until it returns, and returns from two places. */
  lemma DirectReturns(pc: PC, t: nat, g: Globals, ok: bool)
    requires InInit(pc) && Move(pc, t, g, ok).Some?
    ensures var (next, h) := Move(pc, t, g, ok).value;
            if next.Idle? then
              && h.initialized == g.initialized
              && ((pc.InitFast? && g.initialized && next == Idle(Some(OK)))
                  || (pc.InitUnlock? && next == Idle(Some(pc.rc))))
            else InInit(next)
  {
    hide CallerOf, Move;
    if HoldsInit(pc) && HoldsInit(Move(pc, t, g, ok).value.0) {
      InnerKeeps(pc, t, g, ok);
      InInitIsBusy(Move(pc, t, g, ok).value.0);
    } else {
      DirectBorders(pc, t, g, ok);
    }
  }

  lemma InInitIsBusy(pc: PC)
    ensures InInit(pc) ==> !pc.Idle?
  {
  }

  lemma DirectBorders(pc: PC, t: nat, g: Globals, ok: bool)
    requires InInit(pc) && Move(pc, t, g, ok).Some?
    requires !(HoldsInit(pc) && HoldsInit(Move(pc, t, g, ok).value.0))
    ensures var (next, h) := Move(pc, t, g, ok).value;
            if next.Idle? then
              && h.initialized == g.initialized
              && ((pc.InitFast? && g.initialized && next == Idle(Some(OK)))
                  || (pc.InitUnlock? && next == Idle(Some(pc.rc))))
            else InInit(next)
  {
    hide Move, HoldsInit;
    if HoldsInit(pc) {
      LeavesFromUnlock(pc, t, g, ok);
      UnlockMove(pc, t, g, ok);
    } else {
      OuterMove(pc, t, g, ok);
    }
  }

  lemma UnlockMove(pc: PC, t: nat, g: Globals, ok: bool)
    requires InInit(pc) && (pc.InitUnlock? || pc.GetUnlock? || pc.DeinitUnlock?)
    ensures pc.InitUnlock? && pc == InitUnlock(Direct, pc.rc)
    ensures Move(pc, t, g, ok) == Some((Idle(Some(pc.rc)), g.(initMutex := None)))
  {
  }

  lemma OuterMove(pc: PC, t: nat, g: Globals, ok: bool)
    requires InInit(pc) && !HoldsInit(pc) && Move(pc, t, g, ok).Some?
    ensures pc.InitFast? || pc.InitLock?
    ensures var (next, h) := Move(pc, t, g, ok).value;
            h.initialized == g.initialized &&
            if next.Idle? then pc.InitFast? && g.initialized && next == Idle(Some(OK)) else InInit(next)
  {
  }

  /** In every interleaving a direct RandInit returns; what it returns, and why. OK: the module is initialised at that
      moment. PARAM_INVALID: the configuration is. ERROR: the configuration is valid, and an answer of the library was
      bad or the custom provider has no name. With an invalid configuration it is PARAM_INVALID, or OK if there was
      nothing to do. */
  lemma InitResult(s: State, actions: seq<Action>, u: State, t: nat)
    requires Inv(s) && Call(s, actions, u, t) && Pc(s, t).InitFast? && Pc(s, t).who == Direct
    ensures var c := Pc(s, t).c;
            match Returned(u, t)
            case None => false
            case Some(OK) => u.g.initialized
            case Some(PARAM_INVALID) => !c.valid
            case Some(ERROR) => c.valid && (!AllOk(actions, t) || (c.custom && !c.named))
  {
    InitRun(s, actions, u, t);
  }

  lemma {:induction false} InitRun(s: State, actions: seq<Action>, u: State, t: nat)
    requires Inv(s) && Call(s, actions, u, t) && InInit(Pc(s, t))
    ensures match Returned(u, t)
            case None => false
            case Some(OK) => u.g.initialized
            case Some(PARAM_INVALID) => Invalid(Pc(s, t)) || Pc(s, t) == InitUnlock(Direct, PARAM_INVALID)
            case Some(ERROR) =>
              !Invalid(Pc(s, t)) && (Failing(Pc(s, t)) || !AllOk(actions, t) || Unnamed(Pc(s, t)))
    ensures Pc(s, t).InitUnlock? ==> Returned(u, t) == Some(Pc(s, t).rc)
    decreases |actions|
  {
    hide Inv, Step, Move, InInit, HoldsInit;
    if actions == [] {
      InInitIsBusy(Pc(s, t));
    } else {
      var a, v := actions[0], Step(s, actions[0]).value;
      InInitIsBusy(Pc(s, t));
      StepInv(s, a);
      OwnOrOther(s, a, t);
      if a.Go? && a.t == t {
        DirectReturns(Pc(s, t), t, s.g, a.ok);
        if Pc(s, t).InitUnlock? {
          UnlockMove(Pc(s, t), t, s.g, a.ok);
        }
        if Pc(v, t).Idle? {
          assert actions[1..] == [] by { IdleEnds(v, actions[1..], u, t); }
          if Pc(s, t).InitUnlock? && Pc(s, t).rc == OK {
            UnlockedInit(s, t);
          }
        } else {
          DirectLeads(Pc(s, t), t, s.g, a.ok);
          InitRun(v, actions[1..], u, t);
        }
      } else {
        InitRun(v, actions[1..], u, t);
      }
    }
  }

  lemma IdleEnds(s: State, actions: seq<Action>, u: State, t: nat)
    requires Call(s, actions, u, t) && Pc(s, t).Idle?
    ensures actions == [] && s == u
  {
  }

  lemma UnlockedInit(s: State, t: nat)
    requires Inv(s) && Pc(s, t).InitUnlock? && Pc(s, t).rc == OK
    ensures s.g.initialized
  {
    assert Placed(Pc(s, t), t, s.g);
  }

  // ----- The configuration in use -----

  /** Valid, and with a name for the provider of its own seed source, if it has one. */
  predicate Sound(c: Config) {
    c.valid && (c.custom ==> c.named)
  }

  /** How much of the configuration was checked at the place. */
  predicate Earned(pc: PC) {
    && (pc.InitProviderLock? || pc.FipsDefault? || pc.LoadFips? || pc.LoadRest? ==> pc.c.valid)
    && (Building(pc) ==> Sound(pc.c))
  }

  predicate Building(pc: PC) {
    || pc.InitProviderUnlock? || pc.FetchTest? || pc.FetchFree? || pc.FetchParent? || pc.NewParentCtx?
    || pc.InstantiateParent? || pc.FetchDrbg? || pc.NewRandCtx? || pc.InstantiateDrbg? || pc.Publish?
  }

  predicate ActiveSound(g: Globals) {
    g.initialized ==> Sound(g.active)
  }

  lemma BuildEarns(pc: PC, t: nat, g: Globals, ok: bool)
    requires Earned(pc) && ActiveSound(g)
    ensures ParentMove(pc, g, ok).Some? ==>
              Earned(ParentMove(pc, g, ok).value.0) && ActiveSound(ParentMove(pc, g, ok).value.1)
    ensures DrbgMove(pc, g, ok).Some? ==>
              Earned(DrbgMove(pc, g, ok).value.0) && ActiveSound(DrbgMove(pc, g, ok).value.1)
  {
  }

  lemma BorderEarns(pc: PC, t: nat, g: Globals, ok: bool)
    requires Earned(pc) && ActiveSound(g)
    ensures EnterMove(pc, t, g).Some? ==>
              Earned(EnterMove(pc, t, g).value.0) && ActiveSound(EnterMove(pc, t, g).value.1)
    ensures ProviderMove(pc, g, ok).Some? ==>
              Earned(ProviderMove(pc, g, ok).value.0) && ActiveSound(ProviderMove(pc, g, ok).value.1)
    ensures InitMove(pc, g, ok).Some? ==>
              Earned(InitMove(pc, g, ok).value.0) && ActiveSound(InitMove(pc, g, ok).value.1)
  {
  }

  lemma FreeEarns(pc: PC, t: nat, g: Globals, ok: bool)
    requires Earned(pc) && ActiveSound(g)
    ensures FreeMove(pc, g).Some? ==> Earned(FreeMove(pc, g).value.0) && ActiveSound(FreeMove(pc, g).value.1)
    ensures DeinitMove(pc, t, g).Some? ==>
              Earned(DeinitMove(pc, t, g).value.0) && ActiveSound(DeinitMove(pc, t, g).value.1)
  {
  }

  lemma GetEarns(pc: PC, t: nat, g: Globals, ok: bool)
    requires Earned(pc) && ActiveSound(g)
    ensures GetMove(pc, t, g, ok).Some? ==>
              Earned(GetMove(pc, t, g, ok).value.0) && ActiveSound(GetMove(pc, t, g, ok).value.1)
  {
  }

  lemma {:induction false} SoundRun(s: State, actions: seq<Action>, u: State)
    requires (forall t :: Earned(Pc(s, t))) && ActiveSound(s.g) && Reaches(s, actions, u)
    ensures (forall t :: Earned(Pc(u, t))) && ActiveSound(u.g)
    decreases |actions|
  {
    hide Earned, ActiveSound, EnterMove, ProviderMove, InitMove, ParentMove, DrbgMove, FreeMove, DeinitMove, GetMove;
    if actions != [] {
      var a, v := actions[0], Step(s, actions[0]).value;
      if a.Go? {
        BuildEarns(Pc(s, a.t), a.t, s.g, a.ok);
        BorderEarns(Pc(s, a.t), a.t, s.g, a.ok);
        FreeEarns(Pc(s, a.t), a.t, s.g, a.ok);
        GetEarns(Pc(s, a.t), a.t, s.g, a.ok);
      } else {
        CallEarns(a);
      }
      forall t ensures Earned(Pc(v, t)) {
        assert Earned(Pc(s, t));
      }
      SoundRun(v, actions[1..], u);
    }
  }

  lemma CallEarns(a: Action)
    ensures a.CallInit? ==> Earned(InitFast(a.c, Direct))
    ensures Earned(DeinitLock) && Earned(GetReady(0))
  {
  }

  /** In every interleaving, while the module is initialised the configuration it was built with is valid and names its
      custom provider: an invalid or unnamed one never takes effect. */
  lemma ActiveIsSound(actions: seq<Action>, u: State)
    requires Reaches(START, actions, u)
    ensures u.g.initialized ==> Sound(u.g.active)
  {
    SoundRun(START, actions, u);
  }

  // ----- RandDeinit -----

  predicate InDeinit(pc: PC) {
    || pc.DeinitLock? || pc.DeinitRandLock? || pc.DeinitRandUnlock? || pc.DeinitProviderLock?
    || pc.DeinitProviderUnlock? || pc.DeinitClear? || pc.DeinitUnlock?
    || (pc.Freeing? && (pc.after.RandGone? || pc.after.ProvidersGone?))
  }

  lemma DeinitReturns(pc: PC, t: nat, g: Globals, ok: bool)
    requires InDeinit(pc) && Move(pc, t, g, ok).Some?
    ensures var (next, h) := Move(pc, t, g, ok).value;
            if next.Idle? then next == Idle(None) && pc.DeinitUnlock? && h == g.(initMutex := None) else InDeinit(next)
  {
    hide Freed;
  }

  /** In every interleaving, at the moment RandDeinit returns the module is not initialised and every handle and
      provider is null. */
  lemma {:induction false} DeinitResult(s: State, actions: seq<Action>, u: State, t: nat)
    requires Inv(s) && Call(s, actions, u, t) && InDeinit(Pc(s, t))
    ensures Pc(u, t) == Idle(None) && !u.g.initialized && u.g.slot == map[]
    decreases |actions|
  {
    hide Inv, Step, Move, HoldsInit;
    if actions == [] {
    } else {
      var a, v := actions[0], Step(s, actions[0]).value;
      StepInv(s, a);
      OwnOrOther(s, a, t);
      if a.Go? && a.t == t {
        DeinitReturns(Pc(s, t), t, s.g, a.ok);
        if Pc(v, t).Idle? {
          IdleEnds(v, actions[1..], u, t);
          DeinitUnlocked(s, t);
        } else {
          DeinitResult(v, actions[1..], u, t);
        }
      } else {
        DeinitResult(v, actions[1..], u, t);
      }
    }
  }

  lemma DeinitUnlocked(s: State, t: nat)
    requires Inv(s) && Pc(s, t).DeinitUnlock?
    ensures !s.g.initialized && s.g.slot == map[]
  {
    assert Placed(Pc(s, t), t, s.g);
  }

  // ----- GetRand -----

  predicate Returns(pc: PC, rc: RC) {
    pc == GetRandUnlock(Return(rc)) || pc == GetUnlock(Return(rc))
  }

  /** In GetRand, and its result is open. */
  predicate Trying(pc: PC) {
    || pc.GetReady? || pc.GetLock? || pc.GetRandLock? || pc.GetCheck? || pc.GetHealth? || pc.GetGenerate?
    || ((pc.GetRandUnlock? || pc.GetUnlock?) && pc.next.Retry?)
    || (CallerOf(pc).Some? && CallerOf(pc).value.Attempt?)
  }

  /** The result is settled by a bad health check, by generating, or by the last attempt, and by nothing else. */
  predicate GetLeads(pc: PC, ok: bool, next: PC) {
    if Trying(next) then pc != GetGenerate && !(pc.GetHealth? && !ok)
    else
      || (pc.GetHealth? && !ok && Returns(next, ERROR))
      || (pc.GetGenerate? && Returns(next, if ok then OK else ERROR))
      || (pc.GetReady? && pc.n >= MAX_GET_RAND_ATTEMPTS && next == Idle(Some(ERROR)))
  }

  lemma GetMoveLeads(pc: PC, t: nat, g: Globals, ok: bool)
    requires Trying(pc) && GetMove(pc, t, g, ok).Some?
    ensures GetLeads(pc, ok, GetMove(pc, t, g, ok).value.0)
  {
  }

  /** Inside RandInit for an attempt. */
  lemma AttemptLeads(pc: PC, t: nat, g: Globals, ok: bool)
    requires CallerOf(pc).Some? && CallerOf(pc).value.Attempt? && Move(pc, t, g, ok).Some?
    ensures Trying(Move(pc, t, g, ok).value.0) && !pc.GetHealth? && !pc.GetGenerate?
  {
    hide Move;
    assert !pc.GetHealth? && !pc.GetGenerate? by { CallerIsNotGet(pc); }
    if HoldsInit(pc) && HoldsInit(Move(pc, t, g, ok).value.0) {
      InnerKeeps(pc, t, g, ok);
    } else {
      AttemptBorders(pc, t, g, ok);
    }
  }

  lemma CallerIsNotGet(pc: PC)
    requires CallerOf(pc).Some?
    ensures !pc.GetHealth? && !pc.GetGenerate? && !pc.GetUnlock? && !pc.DeinitUnlock? && !pc.Idle?
  {
  }

  lemma AttemptBorders(pc: PC, t: nat, g: Globals, ok: bool)
    requires CallerOf(pc).Some? && CallerOf(pc).value.Attempt? && Move(pc, t, g, ok).Some?
    requires !(HoldsInit(pc) && HoldsInit(Move(pc, t, g, ok).value.0))
    ensures Trying(Move(pc, t, g, ok).value.0)
  {
    hide Move, HoldsInit;
    CallerIsNotGet(pc);
    if HoldsInit(pc) {
      LeavesFromUnlock(pc, t, g, ok);
      AttemptUnlock(pc, t, g, ok);
    } else {
      AttemptOuter(pc, t, g, ok);
    }
  }

  lemma AttemptUnlock(pc: PC, t: nat, g: Globals, ok: bool)
    requires CallerOf(pc).Some? && CallerOf(pc).value.Attempt? && pc.InitUnlock? && Move(pc, t, g, ok).Some?
    ensures Trying(Move(pc, t, g, ok).value.0)
  {
  }

  lemma AttemptOuter(pc: PC, t: nat, g: Globals, ok: bool)
    requires CallerOf(pc).Some? && CallerOf(pc).value.Attempt? && !HoldsInit(pc) && Move(pc, t, g, ok).Some?
    ensures Trying(Move(pc, t, g, ok).value.0)
  {
  }

  lemma TryLeads(pc: PC, t: nat, g: Globals, ok: bool)
    requires Trying(pc) && Move(pc, t, g, ok).Some?
    ensures GetLeads(pc, ok, Move(pc, t, g, ok).value.0)
  {
    hide Move, CallerOf;
    if CallerOf(pc).Some? && CallerOf(pc).value.Attempt? {
      AttemptLeads(pc, t, g, ok);
    } else {
      IsGetMove(pc, t, g, ok);
      GetMoveLeads(pc, t, g, ok);
    }
  }

  lemma IsGetMove(pc: PC, t: nat, g: Globals, ok: bool)
    requires Trying(pc) && !(CallerOf(pc).Some? && CallerOf(pc).value.Attempt?)
    ensures Move(pc, t, g, ok) == GetMove(pc, t, g, ok)
  {
  }

  lemma ReturnLeads(pc: PC, t: nat, g: Globals, ok: bool, rc: RC)
    requires Returns(pc, rc) && Move(pc, t, g, ok).Some?
    ensures Returns(Move(pc, t, g, ok).value.0, rc) || Move(pc, t, g, ok).value.0 == Idle(Some(rc))
  {
  }

  lemma {:induction false} ReturnRun(s: State, actions: seq<Action>, u: State, t: nat, rc: RC)
    requires Call(s, actions, u, t) && Returns(Pc(s, t), rc)
    ensures Pc(u, t) == Idle(Some(rc))
    ensures forall pc: PC, ok: bool :: pc.GetHealth? || pc.GetGenerate? || pc.GetReady? ==> !Did(s, actions, t, pc, ok)
    decreases |actions|
  {
    hide Step, Move;
    if actions == [] {
    } else {
      var a, v := actions[0], Step(s, actions[0]).value;
      OwnOrOther(s, a, t);
      if a.Go? && a.t == t {
        ReturnLeads(Pc(s, t), t, s.g, a.ok, rc);
        if Pc(v, t).Idle? {
          IdleEnds(v, actions[1..], u, t);
        } else {
          ReturnRun(v, actions[1..], u, t, rc);
        }
      } else {
        ReturnRun(v, actions[1..], u, t, rc);
      }
    }
  }

  /** In every interleaving GetRand returns OK or ERROR: OK if and only if it has generated, and ERROR if and only if
      its health check or its generating failed, or all of its 1000 attempts did. */
  lemma {:induction false} GetResult(s: State, actions: seq<Action>, u: State, t: nat)
    requires Call(s, actions, u, t) && Trying(Pc(s, t)) && Later(Pc(s, t)) >= 0
    ensures Returned(u, t) == Some(OK) || Returned(u, t) == Some(ERROR)
    ensures Returned(u, t) == Some(OK) <==> Did(s, actions, t, GetGenerate, true)
    ensures Returned(u, t) == Some(ERROR) <==>
              || Did(s, actions, t, GetHealth, false) || Did(s, actions, t, GetGenerate, false)
              || Did(s, actions, t, GetReady(1000), true) || Did(s, actions, t, GetReady(1000), false)
    decreases |actions|
  {
    hide Step, Move, Did, Trying, Returns, Later, GetLeads;
    if actions == [] {
      TryingIsBusy(Pc(s, t));
    } else {
      var a, rest := actions[0], actions[1..];
      var v := Step(s, a).value;
      TryingIsBusy(Pc(s, t));
      OwnOrOther(s, a, t);
      DidMarks(s, actions, t);
      if a.Go? && a.t == t {
        TryLeads(Pc(s, t), t, s.g, a.ok);
        if Trying(Pc(v, t)) {
          TryingIsBusy(Pc(v, t));
          OwnStepNearer(Pc(s, t), t, s.g, a.ok);
          StillTrying(Pc(s, t), t, s.g, a.ok);
          GetResult(v, rest, u, t);
        } else {
          Settles(s, actions, u, t);
        }
      } else {
        GetResult(v, rest, u, t);
      }
    }
  }

  lemma TryingIsBusy(pc: PC)
    ensures Trying(pc) ==> !pc.Idle?
  {
  }

  /** The four steps that settle the result, at the beginning of a run and later. */
  lemma DidMarks(s: State, actions: seq<Action>, t: nat)
    requires actions != [] && Step(s, actions[0]).Some?
    ensures var v, rest := Step(s, actions[0]).value, actions[1..];
            forall pc: PC, ok: bool ::
              Did(s, actions, t, pc, ok) <==>
                (actions[0] == Go(t, ok) && Pc(s, t) == pc) || Did(v, rest, t, pc, ok)
  {
    hide Step;
  }

  lemma StillTrying(pc: PC, t: nat, g: Globals, ok: bool)
    requires Trying(pc) && Move(pc, t, g, ok).Some? && Trying(Move(pc, t, g, ok).value.0) && Later(pc) >= 0
    ensures pc != GetGenerate && pc != GetReady(1000) && !(pc.GetHealth? && !ok)
    ensures Later(Move(pc, t, g, ok).value.0) >= 0
  {
    hide Move, Later, Trying;
    TryLeads(pc, t, g, ok);
    OwnStepNearer(pc, t, g, ok);
    TryingIsBusy(Move(pc, t, g, ok).value.0);
    LastAttempt(t, g, ok);
  }

  lemma LastAttempt(t: nat, g: Globals, ok: bool)
    ensures Move(GetReady(1000), t, g, ok) == Some((Idle(Some(ERROR)), g))
  {
  }

  /** The step that settles it. */
  lemma Settles(s: State, actions: seq<Action>, u: State, t: nat)
    requires Call(s, actions, u, t) && actions != [] && Trying(Pc(s, t)) && Later(Pc(s, t)) >= 0
    requires actions[0].Go? && actions[0].t == t && !Trying(Pc(Step(s, actions[0]).value, t))
    ensures Returned(u, t) == Some(OK) || Returned(u, t) == Some(ERROR)
    ensures Returned(u, t) == Some(OK) <==> Did(s, actions, t, GetGenerate, true)
    ensures Returned(u, t) == Some(ERROR) <==>
              || Did(s, actions, t, GetHealth, false) || Did(s, actions, t, GetGenerate, false)
              || Did(s, actions, t, GetReady(1000), true) || Did(s, actions, t, GetReady(1000), false)
  {
    hide Step, Move, Did, Trying;
    var a, rest := actions[0], actions[1..];
    var v := Step(s, a).value;
    OwnOrOther(s, a, t);
    DidMarks(s, actions, t);
    TryLeads(Pc(s, t), t, s.g, a.ok);
    if Pc(v, t).Idle? {
      IdleEnds(v, rest, u, t);
      NoneDid(v, t);
    } else {
      var rc := if Pc(s, t).GetGenerate? && a.ok then OK else ERROR;
      ReturnRun(v, rest, u, t, rc);
    }
  }

  lemma NoneDid(s: State, t: nat)
    ensures forall pc: PC, ok: bool :: !Did(s, [], t, pc, ok)
  {
  }

  // ----- Calls that run alone -----

  /** n steps of thread t alone, with good answers. */
  function Alone(t: nat, n: nat): (r: seq<Action>)
    ensures |r| == n && AllOk(r, t)
  {
    if n == 0 then [] else [Go(t, true)] + Alone(t, n - 1)
  }

  /** Nobody else holds the init mutex: a call that is left to run alone returns. */
  lemma {:induction false} AloneReturns(s: State, t: nat) returns (n: nat, u: State)
    requires Inv(s) && Free(t, s.g) && (Pc(s, t).Idle? || Later(Pc(s, t)) >= 0)
    ensures Call(s, Alone(t, n), u, t)
    ensures !Pc(s, t).Idle? ==> n <= CallLeft(Pc(s, t))  + 1
    decreases if Pc(s, t).Idle? then 0 else CallLeft(Pc(s, t)) + 1
  {
    hide Inv, Move, Placed, Ordered, Free, Later, StageLeft;
    if Pc(s, t).Idle? {
      n, u := 0, s;
    } else {
      InvPlaced(s, t);
      CanMove(Pc(s, t), t, s.g);
      MoveGood(Pc(s, t), t, s.g, true);
      OwnStepNearer(Pc(s, t), t, s.g, true);
      StepInv(s, Go(t, true));
      var v := Step(s, Go(t, true)).value;
      OwnOrOther(s, Go(t, true), t);
      var m;
      m, u := AloneReturns(v, t);
      n := m + 1;
      assert Alone(t, n)[1..] == Alone(t, m);
    }
  }

  /** RandInit with a valid configuration, that names its custom provider if it asks for one, run alone on a module that
      nobody is working on, with good answers of the library: it returns OK, and the module is initialised. */
  lemma InitAloneSucceeds(s: State, t: nat) returns (n: nat, u: State)
    requires Reachable(s) && s.g.initMutex == None
    requires Pc(s, t).InitFast? && Pc(s, t).who == Direct
    requires Pc(s, t).c.valid && (Pc(s, t).c.custom ==> Pc(s, t).c.named)
    ensures Call(s, Alone(t, n), u, t) && n <= 38
    ensures Pc(u, t) == Idle(Some(OK)) && u.g.initialized
    ensures !s.g.initialized ==> u.g.active == Pc(s, t).c
  {
    hide Inv, Call;
    ReachableInv(s);
    n, u := AloneReturns(s, t);
    InitResult(s, Alone(t, n), u, t);
    if !s.g.initialized {
      CarriesRun(s, t, n, u, Pc(s, t).c);
    }
  }

  /** A direct RandInit on the way to take over c: it has c at hand, or has failed, or c is in use. */
  predicate Carries(pc: PC, g: Globals, c: Config) {
    match pc
    case InitUnlock(_, rc) => rc == OK ==> g.active == c
    case PrepareUnlock(_) => true
    case Freeing(_, after) => after.PrepareFailed? || after.BuildFailed?
    case Idle(last) => last == Some(OK) ==> g.active == c
    case _ => (Unchecked(pc) || Late(pc) || Building(pc)) && pc.c == c && !g.initialized
  }

  /** Between the checks of the configuration and the building. */
  predicate Late(pc: PC) {
    pc.InitProviderLock? || pc.FipsDefault? || pc.LoadFips? || pc.LoadRest?
  }

  lemma EnterCarries(pc: PC, t: nat, g: Globals, ok: bool, c: Config)
    requires Carries(pc, g, c) && InInit(pc)
    ensures EnterMove(pc, t, g).Some? ==> Carries(EnterMove(pc, t, g).value.0, EnterMove(pc, t, g).value.1, c)
    ensures ProviderMove(pc, g, ok).Some? ==>
              Carries(ProviderMove(pc, g, ok).value.0, ProviderMove(pc, g, ok).value.1, c)
  {
  }

  lemma BuildCarries(pc: PC, t: nat, g: Globals, ok: bool, c: Config)
    requires Carries(pc, g, c) && InInit(pc)
    ensures InitMove(pc, g, ok).Some? ==> Carries(InitMove(pc, g, ok).value.0, InitMove(pc, g, ok).value.1, c)
    ensures ParentMove(pc, g, ok).Some? ==> Carries(ParentMove(pc, g, ok).value.0, ParentMove(pc, g, ok).value.1, c)
  {
  }

  lemma DrbgCarries(pc: PC, t: nat, g: Globals, ok: bool, c: Config)
    requires Carries(pc, g, c) && InInit(pc)
    ensures DrbgMove(pc, g, ok).Some? ==> Carries(DrbgMove(pc, g, ok).value.0, DrbgMove(pc, g, ok).value.1, c)
    ensures FreeMove(pc, g).Some? ==> Carries(FreeMove(pc, g).value.0, FreeMove(pc, g).value.1, c)
  {
  }

  lemma {:induction false} CarriesRun(s: State, t: nat, n: nat, u: State, c: Config)
    requires Carries(Pc(s, t), s.g, c) && InInit(Pc(s, t)) && Call(s, Alone(t, n), u, t)
    ensures Carries(Pc(u, t), u.g, c)
    decreases n
  {
    hide Carries, InInit, EnterMove, ProviderMove, InitMove, ParentMove, DrbgMove, FreeMove, DeinitMove, GetMove;
    if n > 0 {
      assert Alone(t, n)[1..] == Alone(t, n - 1);
      var v := Step(s, Go(t, true)).value;
      EnterCarries(Pc(s, t), t, s.g, true, c);
      BuildCarries(Pc(s, t), t, s.g, true, c);
      DrbgCarries(Pc(s, t), t, s.g, true, c);
      InitIsNotOther(Pc(s, t), t, s.g, true);
      DirectReturns(Pc(s, t), t, s.g, true);
      if Pc(v, t).Idle? {
        IdleEnds(v, Alone(t, n - 1), u, t);
      } else {
        CarriesRun(v, t, n - 1, u, c);
      }
    }
  }

  lemma InitIsNotOther(pc: PC, t: nat, g: Globals, ok: bool)
    requires InInit(pc)
    ensures DeinitMove(pc, t, g) == None && GetMove(pc, t, g, ok) == None
  {
    NoOtherMove(pc, t, g, ok);
  }

  /** GetRand, run so on any module, generates at its first attempt. */
  lemma GetAloneGenerates(s: State, t: nat) returns (n: nat, u: State)
    requires Reachable(s) && s.g.initMutex == None && Pc(s, t) == GetReady(0)
    ensures Call(s, Alone(t, n), u, t)
    ensures Pc(u, t) == Idle(Some(OK)) && Did(s, Alone(t, n), t, GetGenerate, true)
  {
    hide Inv, Call, Did;
    ReachableInv(s);
    n, u := AloneReturns(s, t);
    GetResult(s, Alone(t, n), u, t);
    OnTrackRun(s, t, n, u);
  }

  /** On the way of a first attempt that succeeds. */
  predicate OnTrack(pc: PC, g: Globals) {
    match pc
    case GetReady(n) => n == 0
    case GetLock(n) => n == 0 && g.initialized
    case GetRandLock(n) => n == 0 && g.initialized
    case GetCheck(n) => n == 0 && g.initialized
    case GetHealth => true
    case GetGenerate => true
    case GetRandUnlock(next) => next == Return(OK)
    case GetUnlock(next) => next == Return(OK)
    case _ => OnTrackInit(pc)
  }

  predicate OnTrackInit(pc: PC) {
    && CallerOf(pc) == Some(Attempt(0)) && !Failing(pc) && !Invalid(pc) && !Unnamed(pc)
    && (pc.InitUnlock? ==> pc.rc == OK)
  }

  lemma TrackGet(pc: PC, t: nat, g: Globals)
    requires OnTrack(pc, g) && !CallerOf(pc).Some? && GetMove(pc, t, g, true).Some? && Knows(pc, g)
    ensures var (next, h) := GetMove(pc, t, g, true).value; next == Idle(Some(OK)) || OnTrack(next, h)
  {
  }

  lemma TrackInner(pc: PC, t: nat, g: Globals)
    requires OnTrackInit(pc) && HoldsInit(pc) && Move(pc, t, g, true).Some?
    requires HoldsInit(Move(pc, t, g, true).value.0)
    ensures OnTrackInit(Move(pc, t, g, true).value.0)
  {
    hide Move, HoldsInit, Failing, Invalid, Unnamed, CallerOf;
    InnerKeeps(pc, t, g, true);
    UnlockLeaves(pc, t, g);
    InnerLeads(pc, t, g, true);
    FailingUnlock(Move(pc, t, g, true).value.0);
  }

  lemma FailingUnlock(pc: PC)
    ensures pc.InitUnlock? && pc.rc == ERROR ==> Failing(pc)
  {
  }

  lemma UnlockLeaves(pc: PC, t: nat, g: Globals)
    ensures pc.InitUnlock? && Move(pc, t, g, true).Some? ==> !HoldsInit(Move(pc, t, g, true).value.0)
  {
  }

  lemma TrackBorder(pc: PC, t: nat, g: Globals)
    requires OnTrackInit(pc) && Move(pc, t, g, true).Some? && Knows(pc, g)
    requires pc.InitFast? || pc.InitLock? || pc.InitUnlock?
    ensures OnTrack(Move(pc, t, g, true).value.0, Move(pc, t, g, true).value.1)
  {
    hide Chain, Loaded;
  }

  lemma TrackStep(pc: PC, t: nat, g: Globals)
    requires OnTrack(pc, g) && Move(pc, t, g, true).Some? && Knows(pc, g)
    ensures var (next, h) := Move(pc, t, g, true).value; next == Idle(Some(OK)) || OnTrack(next, h)
  {
    hide Move, Knows, OnTrackInit, HoldsInit;
    TrackKind(pc, t, g);
    if !CallerOf(pc).Some? {
      TrackGet(pc, t, g);
    } else if pc.InitFast? || pc.InitLock? || pc.InitUnlock? {
      TrackBorder(pc, t, g);
    } else {
      TrackInner(pc, t, g);
      TrackFromInit(Move(pc, t, g, true).value.0, Move(pc, t, g, true).value.1);
    }
  }

  lemma TrackFromInit(pc: PC, g: Globals)
    requires OnTrackInit(pc)
    ensures OnTrack(pc, g)
  {
  }

  lemma TrackKind(pc: PC, t: nat, g: Globals)
    requires OnTrack(pc, g) && Move(pc, t, g, true).Some?
    ensures !CallerOf(pc).Some? ==> Move(pc, t, g, true) == GetMove(pc, t, g, true)
    ensures CallerOf(pc).Some? ==> OnTrackInit(pc)
    ensures CallerOf(pc).Some? && !(pc.InitFast? || pc.InitLock? || pc.InitUnlock?) ==>
              HoldsInit(pc) && HoldsInit(Move(pc, t, g, true).value.0)
  {
    hide Move, HoldsInit;
    if !CallerOf(pc).Some? {
      TrackIsGetMove(pc, t, g);
    } else if !(pc.InitFast? || pc.InitLock? || pc.InitUnlock?) {
      InsideInit(pc);
      CallerIsNotGet(pc);
      if !HoldsInit(Move(pc, t, g, true).value.0) {
        LeavesFromUnlock(pc, t, g, true);
      }
    }
  }

  lemma TrackIsGetMove(pc: PC, t: nat, g: Globals)
    requires OnTrack(pc, g) && !CallerOf(pc).Some?
    ensures Move(pc, t, g, true) == GetMove(pc, t, g, true)
  {
  }

  lemma InsideInit(pc: PC)
    requires CallerOf(pc).Some? && !pc.InitFast? && !pc.InitLock?
    ensures HoldsInit(pc)
  {
  }

  lemma InvKnows(s: State, t: nat)
    requires Inv(s) && Free(t, s.g)
    ensures Knows(Pc(s, t), s.g)
  {
    hide Conserved, Shape, Settled, HoldsInit, HoldsRand, HoldsProvider;
    assert Placed(Pc(s, t), t, s.g);
  }

  lemma {:induction false} OnTrackRun(s: State, t: nat, n: nat, u: State)
    requires Inv(s) && Free(t, s.g) && OnTrack(Pc(s, t), s.g) && Call(s, Alone(t, n), u, t)
    ensures Pc(u, t) == Idle(Some(OK))
    decreases n
  {
    hide Inv, Move, Placed, Ordered, Free, OnTrack, Knows;
    TrackIsBusy(Pc(s, t), s.g);
    if n == 0 {
    } else {
      assert Alone(t, n)[1..] == Alone(t, n - 1);
      var v := Step(s, Go(t, true)).value;
      InvPlaced(s, t);
      InvKnows(s, t);
      OwnOrOther(s, Go(t, true), t);
      MoveGood(Pc(s, t), t, s.g, true);
      TrackStep(Pc(s, t), t, s.g);
      StepInv(s, Go(t, true));
      if Pc(v, t).Idle? {
        IdleEnds(v, Alone(t, n - 1), u, t);
        IdleOffTrack(Pc(v, t), v.g);
      } else {
        OnTrackRun(v, t, n - 1, u);
      }
    }
  }

  lemma TrackIsBusy(pc: PC, g: Globals)
    ensures OnTrack(pc, g) ==> !pc.Idle?
  {
  }

  lemma IdleOffTrack(pc: PC, g: Globals)
    requires pc.Idle?
    ensures !OnTrack(pc, g)
  {
  }
}
