/** src/cdf/modules/rand/rand.cpp: RandInit, RandDeinit and GetRand as a state machine. Each step is one access to
    shared state by one of any number of threads, in any order. */
module RandLifecycle {
  import opened Bytes
  import opened Counting

  const MAX_GET_RAND_ATTEMPTS := 1000

  /** The global handles: four of the generator chain, three providers. */
  datatype Slot = RandCtx | ParentCtx | Drbg | Parent | Custom | Fips | Default

  /** What of a configuration decides the steps: whether it is valid, asks for FIPS, has a custom seed source, named. */
  datatype Config = Config(valid: bool, fips: bool, custom: bool, named: bool)

  const DEFAULT_CONFIG := Config(true, false, false, false)

  /** RandInit is called directly, or by an attempt of GetRand. */
  datatype Caller = Direct | Attempt(n: nat)

  /** Where a cleanup goes on. */
  datatype After = PrepareFailed(who: Caller) | BuildFailed(who: Caller) | RandGone | ProvidersGone

  /** The codes that the calls return. */
  datatype RC = OK | PARAM_INVALID | ERROR

  /** Where GetRand goes on after giving back its locks. */
  datatype Next = Retry(n: nat) | Return(rc: RC)

  datatype PC =
    // Outside all calls; what the last one returned, if it was not RandDeinit
    | Idle(last: Option<RC>)
    // RandInit
    | InitFast(c: Config, who: Caller) | InitLock(c: Config, who: Caller) | InitCheck(c: Config, who: Caller)
    | InitValidate(c: Config, who: Caller) | InitProviderLock(c: Config, who: Caller)
    | FipsDefault(c: Config, who: Caller) | LoadFips(c: Config, who: Caller) | LoadRest(c: Config, who: Caller)
    | InitProviderUnlock(c: Config, who: Caller) | FetchTest(c: Config, who: Caller)
    | FetchFree(c: Config, who: Caller, res: nat)
    | FetchParent(c: Config, who: Caller) | NewParentCtx(c: Config, who: Caller)
    | InstantiateParent(c: Config, who: Caller)
    | FetchDrbg(c: Config, who: Caller) | NewRandCtx(c: Config, who: Caller)
    | InstantiateDrbg(c: Config, who: Caller) | Publish(c: Config, who: Caller)
    | PrepareUnlock(who: Caller) | InitUnlock(who: Caller, rc: RC)
    // Cleanup of a list of handles, in order
    | Freeing(todo: seq<Slot>, after: After)
    // RandDeinit
    | DeinitLock | DeinitRandLock | DeinitRandUnlock | DeinitProviderLock | DeinitProviderUnlock | DeinitClear
    | DeinitUnlock
    // GetRand
    | GetReady(n: nat) | GetLock(n: nat) | GetRandLock(n: nat) | GetCheck(n: nat) | GetHealth | GetGenerate
    | GetRandUnlock(next: Next) | GetUnlock(next: Next)

  /** Shared state: the flag, the configuration taken over with it, the owners of the three mutexes, the non-null
      handles, the instantiated contexts, how many resources were acquired (they are numbered), and those released so
      far, in order. */
  datatype Globals = Globals(initialized: bool, active: Config, initMutex: Option<nat>, randMutex: Option<nat>,
                             providerMutex: Option<nat>, slot: map<Slot, nat>, ready: set<nat>, next: nat,
                             released: seq<nat>)

  datatype State = State(g: Globals, pcs: map<nat, PC>)

  const START := State(Globals(false, DEFAULT_CONFIG, None, None, None, map[], {}, 0, []), map[])

  function Pc(s: State, t: nat): PC {
    if t in s.pcs then s.pcs[t] else Idle(None)
  }

  // ----- Steps -----

  const RAND_SLOTS := [RandCtx, ParentCtx, Drbg, Parent]
  const PROVIDER_SLOTS := [Custom, Fips, Default]

  function Acquired(g: Globals, x: Slot): Globals {
    g.(slot := g.slot[x := g.next], next := g.next + 1)
  }

  function Freed(g: Globals, x: Slot): Globals {
    if x !in g.slot then g else g.(slot := g.slot - {x}, released := g.released + [g.slot[x]])
  }

  function Instantiated(g: Globals, x: Slot): Globals {
    if x in g.slot then g.(ready := g.ready + {g.slot[x]}) else g
  }

  /** Acquire a handle into a slot and go on, or go elsewhere when the library gives none. */
  function Fetch(g: Globals, x: Slot, ok: bool, then_: PC, else_: PC): Option<(PC, Globals)> {
    if ok then Some((then_, Acquired(g, x))) else Some((else_, g))
  }

  /** RandInit after BuildRandChain failed, having freed these itself. */
  function Undo(own: seq<Slot>, who: Caller): PC {
    Freeing(own + PROVIDER_SLOTS + RAND_SLOTS, BuildFailed(who))
  }

  function ReturnFromInit(who: Caller, rc: RC): PC {
    match who
    case Direct => Idle(Some(rc))
    case Attempt(n) => if rc == OK then GetLock(n) else GetReady(n + 1)
  }

  /** RandInit up to the providers. */
  function EnterMove(pc: PC, t: nat, g: Globals): Option<(PC, Globals)> {
    match pc
    case InitFast(c, who) => Some((if g.initialized then ReturnFromInit(who, OK) else InitLock(c, who), g))
    case InitLock(c, who) => if g.initMutex.Some? then None else Some((InitCheck(c, who), g.(initMutex := Some(t))))
    case InitCheck(c, who) => Some((if g.initialized then InitUnlock(who, OK) else InitValidate(c, who), g))
    case InitValidate(c, who) => Some((if c.valid then InitProviderLock(c, who) else InitUnlock(who, PARAM_INVALID), g))
    case InitProviderLock(c, who) =>
      if g.providerMutex.Some? then None
      else Some((if c.fips then FipsDefault(c, who) else LoadRest(c, who), g.(providerMutex := Some(t))))
    case _ => None
  }

  /** PrepareProviders. */
  function ProviderMove(pc: PC, g: Globals, ok: bool): Option<(PC, Globals)> {
    match pc
    case FipsDefault(c, who) =>
      if Default in g.slot then Some((LoadFips(c, who), g))
      else Fetch(g, Default, ok, LoadFips(c, who), Freeing(PROVIDER_SLOTS, PrepareFailed(who)))
    case LoadFips(c, who) =>
      if Fips in g.slot then Some((LoadRest(c, who), g))
      else Fetch(g, Fips, ok, LoadRest(c, who), Freeing(PROVIDER_SLOTS, PrepareFailed(who)))
    case LoadRest(c, who) =>
      if c.custom then
        Fetch(g, Custom, ok && c.named, InitProviderUnlock(c, who), Freeing(PROVIDER_SLOTS, PrepareFailed(who)))
      else if Default in g.slot then Some((InitProviderUnlock(c, who), g))
      else Fetch(g, Default, ok, InitProviderUnlock(c, who), Freeing(PROVIDER_SLOTS, PrepareFailed(who)))
    case _ => None
  }

  /** ValidateParentRandAvailable, and the ends of RandInit. */
  function InitMove(pc: PC, g: Globals, ok: bool): Option<(PC, Globals)> {
    match pc
    case InitProviderUnlock(c, who) => Some((FetchTest(c, who), g.(providerMutex := None)))
    case FetchTest(c, who) =>
      if ok then Some((FetchFree(c, who, g.next), g.(next := g.next + 1)))
      else Some((Freeing(PROVIDER_SLOTS, BuildFailed(who)), g))
    case FetchFree(c, who, res) => Some((FetchParent(c, who), g.(released := g.released + [res])))
    case PrepareUnlock(who) => Some((InitUnlock(who, ERROR), g.(providerMutex := None)))
    case InitUnlock(who, rc) => Some((ReturnFromInit(who, rc), g.(initMutex := None)))
    case _ => None
  }

  /** BuildRandChain: the entropy source. */
  function ParentMove(pc: PC, g: Globals, ok: bool): Option<(PC, Globals)> {
    match pc
    case FetchParent(c, who) => Fetch(g, Parent, ok, NewParentCtx(c, who), Undo([], who))
    case NewParentCtx(c, who) => Fetch(g, ParentCtx, ok, InstantiateParent(c, who), Undo([Parent], who))
    case InstantiateParent(c, who) =>
      if ok then Some((FetchDrbg(c, who), Instantiated(g, ParentCtx))) else Some((Undo([ParentCtx, Parent], who), g))
    case _ => None
  }

  /** BuildRandChain: the generator, and the setting of the flag. */
  function DrbgMove(pc: PC, g: Globals, ok: bool): Option<(PC, Globals)> {
    match pc
    case FetchDrbg(c, who) => Fetch(g, Drbg, ok, NewRandCtx(c, who), Undo([ParentCtx, Parent], who))
    case NewRandCtx(c, who) => Fetch(g, RandCtx, ok, InstantiateDrbg(c, who), Undo([ParentCtx, Drbg, Parent], who))
    case InstantiateDrbg(c, who) =>
      if ok then Some((Publish(c, who), Instantiated(g, RandCtx)))
      else Some((Undo([RandCtx, ParentCtx, Drbg, Parent], who), g))
    case Publish(c, who) => Some((InitUnlock(who, OK), g.(initialized := true, active := c)))
    case _ => None
  }

  function Resume(after: After): PC {
    match after
    case PrepareFailed(who) => PrepareUnlock(who)
    case BuildFailed(who) => InitUnlock(who, ERROR)
    case RandGone => DeinitRandUnlock
    case ProvidersGone => DeinitProviderUnlock
  }

  /** CleanupRandResources, CleanupProviders, and what a failing BuildRandChain frees: one handle at a time. */
  function FreeMove(pc: PC, g: Globals): Option<(PC, Globals)> {
    match pc
    case Freeing(todo, after) =>
      if todo == [] then Some((Resume(after), g)) else Some((Freeing(todo[1..], after), Freed(g, todo[0])))
    case _ => None
  }

  function DeinitMove(pc: PC, t: nat, g: Globals): Option<(PC, Globals)> {
    match pc
    case DeinitLock => if g.initMutex.Some? then None else Some((DeinitRandLock, g.(initMutex := Some(t))))
    case DeinitRandLock =>
      if g.randMutex.Some? then None else Some((Freeing(RAND_SLOTS, RandGone), g.(randMutex := Some(t))))
    case DeinitRandUnlock => Some((DeinitProviderLock, g.(randMutex := None)))
    case DeinitProviderLock =>
      if g.providerMutex.Some? then None
      else Some((Freeing(PROVIDER_SLOTS, ProvidersGone), g.(providerMutex := Some(t))))
    case DeinitProviderUnlock => Some((DeinitClear, g.(providerMutex := None)))
    case DeinitClear => Some((DeinitUnlock, g.(initialized := false, active := DEFAULT_CONFIG)))
    case DeinitUnlock => Some((Idle(None), g.(initMutex := None)))
    case _ => None
  }

  function GetMove(pc: PC, t: nat, g: Globals, ok: bool): Option<(PC, Globals)> {
    match pc
    case GetReady(n) =>
      if n >= MAX_GET_RAND_ATTEMPTS then Some((Idle(Some(ERROR)), g))
      else if g.initialized then Some((GetLock(n), g))
      else Some((InitFast(DEFAULT_CONFIG, Attempt(n)), g))
    case GetLock(n) => if g.initMutex.Some? then None else Some((GetRandLock(n), g.(initMutex := Some(t))))
    case GetRandLock(n) => if g.randMutex.Some? then None else Some((GetCheck(n), g.(randMutex := Some(t))))
    case GetCheck(n) =>
      Some((if !g.initialized || RandCtx !in g.slot then GetRandUnlock(Retry(n + 1)) else GetHealth, g))
    case GetHealth => Some((if ok then GetGenerate else GetRandUnlock(Return(ERROR)), g))
    case GetGenerate => Some((GetRandUnlock(Return(if ok then OK else ERROR)), g))
    case GetRandUnlock(next) => Some((GetUnlock(next), g.(randMutex := None)))
    case GetUnlock(next) =>
      Some((match next case Retry(n) => GetReady(n) case Return(rc) => Idle(Some(rc)), g.(initMutex := None)))
    case _ => None
  }

  function Move(pc: PC, t: nat, g: Globals, ok: bool): Option<(PC, Globals)> {
    if EnterMove(pc, t, g).Some? then EnterMove(pc, t, g)
    else if ProviderMove(pc, g, ok).Some? then ProviderMove(pc, g, ok)
    else if InitMove(pc, g, ok).Some? then InitMove(pc, g, ok)
    else if ParentMove(pc, g, ok).Some? then ParentMove(pc, g, ok)
    else if DrbgMove(pc, g, ok).Some? then DrbgMove(pc, g, ok)
    else if FreeMove(pc, g).Some? then FreeMove(pc, g)
    else if DeinitMove(pc, t, g).Some? then DeinitMove(pc, t, g)
    else GetMove(pc, t, g, ok)
  }

  /** A thread calls one of the three functions, or makes its next step; ok is the answer of the library, if it asks. */
  datatype Action = CallInit(t: nat, c: Config) | CallDeinit(t: nat) | CallGet(t: nat) | Go(t: nat, ok: bool)

  /** None when the action is not possible: the thread is busy, or blocked on a mutex. */
  function Step(s: State, a: Action): Option<State> {
    match a
    case CallInit(t, c) => if Pc(s, t).Idle? then Some(s.(pcs := s.pcs[t := InitFast(c, Direct)])) else None
    case CallDeinit(t) => if Pc(s, t).Idle? then Some(s.(pcs := s.pcs[t := DeinitLock])) else None
    case CallGet(t) => if Pc(s, t).Idle? then Some(s.(pcs := s.pcs[t := GetReady(0)])) else None
    case Go(t, ok) =>
      match Move(Pc(s, t), t, s.g, ok)
      case None => None
      case Some((pc, g)) => Some(State(g, s.pcs[t := pc]))
  }

  /** The states that interleavings of any length reach. */
  ghost predicate Reaches(s: State, actions: seq<Action>, u: State)
    decreases |actions|
  {
    if actions == [] then s == u
    else Step(s, actions[0]).Some? && Reaches(Step(s, actions[0]).value, actions[1..], u)
  }

  // ----- Who holds which mutex -----

  predicate HoldsInit(pc: PC) {
    match pc
    case Idle(_) => false
    case InitFast(_, _) => false
    case InitLock(_, _) => false
    case DeinitLock => false
    case GetReady(_) => false
    case GetLock(_) => false
    case _ => true
  }

  predicate HoldsRand(pc: PC) {
    match pc
    case Freeing(_, RandGone) => true
    case DeinitRandUnlock => true
    case GetCheck(_) => true
    case GetHealth => true
    case GetGenerate => true
    case GetRandUnlock(_) => true
    case _ => false
  }

  predicate HoldsProvider(pc: PC) {
    match pc
    case FipsDefault(_, _) => true
    case LoadFips(_, _) => true
    case LoadRest(_, _) => true
    case InitProviderUnlock(_, _) => true
    case PrepareUnlock(_) => true
    case Freeing(_, PrepareFailed(_)) => true
    case Freeing(_, ProvidersGone) => true
    case DeinitProviderUnlock => true
    case _ => false
  }

  // ----- The invariant -----

  /** All four handles of the chain, both contexts instantiated. */
  predicate Chain(g: Globals) {
    && RandCtx in g.slot && ParentCtx in g.slot && Drbg in g.slot && Parent in g.slot
    && g.slot[RandCtx] in g.ready && g.slot[ParentCtx] in g.ready
  }

  /** The providers that the configuration asks for. */
  predicate Loaded(c: Config, g: Globals) {
    && (c.fips ==> Fips in g.slot && Default in g.slot)
    && (if c.custom then Custom in g.slot else Default in g.slot)
  }

  /** Initialised with a complete chain and its providers, or everything null. */
  predicate Settled(g: Globals) {
    if g.initialized then Chain(g) && Loaded(g.active, g) else g.slot == map[]
  }

  /** A context is there only with its algorithm, and with the context that it draws from; all of them, only with a
      provider. */
  predicate Nested(slots: set<Slot>) {
    && (slots !! {RandCtx, ParentCtx, Drbg, Parent} || Custom in slots || Default in slots)
    && (RandCtx in slots ==> ParentCtx in slots && Drbg in slots)
    && (ParentCtx in slots ==> Parent in slots)
  }

  /** Freeing the list in order keeps it so. */
  predicate FreesInOrder(todo: seq<Slot>, slots: set<Slot>) {
    todo != [] ==> Nested(slots - {todo[0]}) && FreesInOrder(todo[1..], slots - {todo[0]})
  }

  const RANDS := {RandCtx, ParentCtx, Drbg, Parent}
  const PROVIDERS := {Custom, Fips, Default}

  predicate Only(g: Globals, slots: set<Slot>) {
    g.slot.Keys <= slots
  }

  function SlotsOf(todo: seq<Slot>): set<Slot> {
    if todo == [] then {} else {todo[0]} + SlotsOf(todo[1..])
  }

  /** Exactly these handles of the chain, and any providers; the parent's context is instantiated if asked. */
  predicate Building(g: Globals, rands: set<Slot>, parentReady: bool) {
    && !g.initialized
    && rands <= g.slot.Keys <= rands + PROVIDERS
    && (parentReady ==> ParentCtx in g.slot && g.slot[ParentCtx] in g.ready)
  }

  /** What the owner of the init mutex knows about the globals, by where it is. */
  predicate Shape(pc: PC, g: Globals) {
    match pc
    case InitCheck(_, _) => Settled(g)
    case InitValidate(_, _) => !g.initialized && g.slot == map[]
    case InitProviderLock(_, _) => !g.initialized && g.slot == map[]
    case FipsDefault(_, _) => !g.initialized && g.slot == map[]
    case LoadFips(c, _) => !g.initialized && Only(g, {Default}) && Default in g.slot
    case LoadRest(c, _) =>
      !g.initialized && Only(g, {Fips, Default}) && (c.fips ==> Fips in g.slot && Default in g.slot)
    case InitProviderUnlock(c, _) => Building(g, {}, false) && Loaded(c, g)
    case FetchTest(c, _) => Building(g, {}, false) && Loaded(c, g)
    case FetchFree(c, _, _) => Building(g, {}, false) && Loaded(c, g)
    case FetchParent(c, _) => Building(g, {}, false) && Loaded(c, g)
    case NewParentCtx(c, _) => Building(g, {Parent}, false) && Loaded(c, g)
    case InstantiateParent(c, _) => Building(g, {Parent, ParentCtx}, false) && Loaded(c, g)
    case FetchDrbg(c, _) => Building(g, {Parent, ParentCtx}, true) && Loaded(c, g)
    case NewRandCtx(c, _) => Building(g, {Parent, ParentCtx, Drbg}, true) && Loaded(c, g)
    case InstantiateDrbg(c, _) => Building(g, {Parent, ParentCtx, Drbg, RandCtx}, true) && Loaded(c, g)
    case Publish(c, _) => !g.initialized && Chain(g) && Loaded(c, g)
    case PrepareUnlock(_) => Settled(g) && !g.initialized
    case InitUnlock(_, rc) => Settled(g) && (rc == OK ==> g.initialized)
    case Freeing(todo, after) =>
      && Nested(g.slot.Keys) && FreesInOrder(todo, g.slot.Keys)
      && match after {
        case RandGone => Only(g, SlotsOf(todo) + PROVIDERS)
        case ProvidersGone => Only(g, SlotsOf(todo))
        case _ => !g.initialized && Only(g, SlotsOf(todo))
      }
    case DeinitRandLock => Settled(g)
    case DeinitRandUnlock => Only(g, PROVIDERS)
    case DeinitProviderLock => Only(g, PROVIDERS)
    case DeinitProviderUnlock => g.slot == map[]
    case DeinitClear => g.slot == map[]
    case DeinitUnlock => !g.initialized && g.slot == map[]
    case GetRandLock(_) => Settled(g)
    case GetCheck(_) => Settled(g)
    case GetHealth => g.initialized && Settled(g)
    case GetGenerate => g.initialized && Settled(g)
    case GetRandUnlock(_) => Settled(g)
    case GetUnlock(_) => Settled(g)
    case _ => true
  }

  /** The one resource outside the handles: what FetchRandAvailable has in its local variable. */
  function Local(pc: PC): set<nat> {
    if pc.FetchFree? then {pc.res} else {}
  }

  /** Acquired resources are held once or were released once, never both, and as many are held or released as were
      acquired. */
  ghost predicate Conserved(local: set<nat>, g: Globals) {
    && (forall x :: x in g.slot ==> g.slot[x] < g.next && g.slot[x] !in g.released && g.slot[x] !in local)
    && (forall x, y :: x in g.slot && y in g.slot && g.slot[x] == g.slot[y] ==> x == y)
    && (forall id :: id in local ==> id < g.next && id !in g.released)
    && (forall id :: id in g.released ==> id < g.next)
    && Distinct(g.released)
    && |g.slot| + |local| + |g.released| == g.next
  }

  /** A thread's place agrees with the mutexes. */
  predicate Placed(pc: PC, t: nat, g: Globals) {
    && (HoldsInit(pc) <==> g.initMutex == Some(t))
    && (HoldsRand(pc) <==> g.randMutex == Some(t))
    && (HoldsProvider(pc) <==> g.providerMutex == Some(t))
  }

  /** The other two mutexes are only held together with the first. */
  predicate Ordered(g: Globals) {
    && (g.randMutex.Some? ==> g.randMutex == g.initMutex)
    && (g.providerMutex.Some? ==> g.providerMutex == g.initMutex)
  }

  /** The place that owns the init mutex, or Idle. */
  function Owner(s: State): PC {
    if s.g.initMutex.Some? then Pc(s, s.g.initMutex.value) else Idle(None)
  }

  ghost predicate Inv(s: State) {
    && (forall t: nat :: Placed(Pc(s, t), t, s.g))
    && Ordered(s.g)
    && (if s.g.initMutex.Some? then Shape(Owner(s), s.g) else Settled(s.g))
    && Conserved(Local(Owner(s)), s.g)
  }
}
