/** Key rotation over whole runs of the server with a clock that never goes back: which keys the slots hold, and which
    tokens validate. */
module JwtRotation {
  import opened Bytes
  import opened JwtToken
  import opened JwtServer
  import opened JwtValidation
  import opened KeyManagerType
  import Base64

  datatype Op =
    | OpStart(o: Options, senv: StartEnv, now: nat)
    | OpStop
    | OpSet(key: bytes, env: KeyEnv)
    | OpRefresh(key: bytes, env: KeyEnv)

  function Outcome(km: Km, s: State, op: Op): (State, RC) {
    match op
    case OpStart(o, senv, now) => Start(s, o, senv, now)
    case OpStop => Stop(s)
    case OpSet(key, env) => SetEncryptionKey(km, s, key, env)
    case OpRefresh(key, env) => RefreshEncryptionKey(km, s, key, env)
  }

  function Run(km: Km, s: State, ops: seq<Op>): State {
    if ops == [] then s else Outcome(km, Run(km, s, ops[..|ops| - 1]), ops[|ops| - 1]).0
  }

  /** The time the operation reads, or the time before it. */
  function TimeOf(op: Op, before: nat): nat {
    match op
    case OpStart(_, _, now) => now
    case OpStop => before
    case OpSet(_, env) => env.now
    case OpRefresh(_, env) => env.now
  }

  /** The time after a run that starts at t. */
  function Clock(t: nat, ops: seq<Op>): nat {
    if ops == [] then t else TimeOf(ops[|ops| - 1], Clock(t, ops[..|ops| - 1]))
  }

  /** No operation reads an earlier time than one before it. */
  predicate Monotone(t: nat, ops: seq<Op>) {
    ops != [] ==>
      && Monotone(t, ops[..|ops| - 1])
      && TimeOf(ops[|ops| - 1], Clock(t, ops[..|ops| - 1])) >= Clock(t, ops[..|ops| - 1])
  }

  // ----- The invariant -----

  predicate Running(s: State) {
    s.started && s.opts.mode == INTERNAL_KEY
  }

  /** The slot is empty, or holds a key of allowed length. */
  predicate Holds(km: Km, s: State, slot: bytes) {
    slot == [] || (km.dec(Ref(s.opts), slot).Some? && KeyFits(s.opts, km.dec(Ref(s.opts), slot).value))
  }

  /** In a running server at time t: no key is younger than now, the old key is not younger than the present one and
      never without it, both decrypt, and there is none where a cast to the wrong class would end every call. */
  predicate Inv(km: Km, s: State, t: nat) {
    Running(s) ==>
      && s.pass.oldTime <= s.pass.newTime <= t
      && (s.pass.oldKey != [] ==> s.pass.key != [])
      && Holds(km, s, s.pass.key) && Holds(km, s, s.pass.oldKey)
      && s.header.alg == s.opts.alg && HeaderFits(s.header)
      && (BadDowncast(s.opts.km, s.kmType) ==> s.pass.key == [])
  }

  lemma {:induction false} RunInv(km: Km, s: State, t: nat, ops: seq<Op>)
    requires km.Lawful() && Inv(km, s, t) && Monotone(t, ops) && Clock(t, ops) < I64_LIMIT
    ensures Inv(km, Run(km, s, ops), Clock(t, ops))
  {
    hide Inv, Outcome;
    if ops == [] {
    } else {
      var n := |ops| - 1;
      RunInv(km, s, t, ops[..n]);
      StepInv(km, Run(km, s, ops[..n]), Clock(t, ops[..n]), ops[n]);
    }
  }

  lemma StepInv(km: Km, s: State, t: nat, op: Op)
    requires km.Lawful() && Inv(km, s, t) && t <= TimeOf(op, t) < I64_LIMIT
    ensures Inv(km, Outcome(km, s, op).0, TimeOf(op, t))
  {
    hide HmacLen;
  }

  /** A live old slot never goes with an expired or missing present key. */
  lemma OldImpliesPresent(km: Km, s: State, t: nat, now: nat)
    requires Inv(km, s, t) && Running(s)
    requires s.pass.oldKey != [] && !IsOldKeyExpired(s.pass, now)
    ensures s.pass.key != [] && !IsExpired(s.pass, now)
  {
  }

  // ----- Slots and history -----

  /** The present and the old key, when the server runs with its own keys. */
  function Current(km: Km, s: State): Option<bytes> {
    if !Running(s) || s.pass.key == [] then None else km.dec(Ref(s.opts), s.pass.key)
  }

  function Old(km: Km, s: State): Option<bytes> {
    if !Running(s) || s.pass.oldKey == [] then None else km.dec(Ref(s.opts), s.pass.oldKey)
  }

  /** The key most recently set or refreshed with success, unless the server was stopped since. */
  function LastInstalled(km: Km, s: State, ops: seq<Op>): Option<bytes> {
    if ops == [] then Current(km, s)
    else
      var n := |ops| - 1;
      match ops[n]
      case OpStop => None
      case OpSet(key, _) => if Succeeds(km, s, ops) then Some(key) else LastInstalled(km, s, ops[..n])
      case OpRefresh(key, _) => if Succeeds(km, s, ops) then Some(key) else LastInstalled(km, s, ops[..n])
      case OpStart(_, _, _) => LastInstalled(km, s, ops[..n])
  }

  /** The last operation of the run returns OK. */
  predicate Succeeds(km: Km, s: State, ops: seq<Op>)
    requires ops != []
  {
    Outcome(km, Run(km, s, ops[..|ops| - 1]), ops[|ops| - 1]).1 == OK
  }

  /** The last operation is a refresh that gets as far as the key slots, whether or not it then succeeds. */
  predicate Attempted(km: Km, s: State, ops: seq<Op>)
    requires ops != []
  {
    var t := Run(km, s, ops[..|ops| - 1]);
    ops[|ops| - 1].OpRefresh? && Running(t) && KeyFits(t.opts, ops[|ops| - 1].key)
  }

  /** The key that was present just before the last attempted refresh, unless the server was stopped since. */
  function BeforeRefresh(km: Km, s: State, ops: seq<Op>): Option<bytes> {
    if ops == [] then Old(km, s)
    else
      var n := |ops| - 1;
      if ops[n].OpStop? then None
      else if Attempted(km, s, ops) then LastInstalled(km, s, ops[..n])
      else BeforeRefresh(km, s, ops[..n])
  }

  /** The slots are what the history says. */
  lemma {:induction false} SlotsAreHistory(km: Km, s: State, t: nat, ops: seq<Op>)
    requires km.Lawful() && Inv(km, s, t) && Monotone(t, ops) && Clock(t, ops) < I64_LIMIT
    ensures Current(km, Run(km, s, ops)) == LastInstalled(km, s, ops)
    ensures Old(km, Run(km, s, ops)) == BeforeRefresh(km, s, ops)
  {
    hide Inv, Outcome, Current, Old, KeyFits, Running;
    if ops == [] {
    } else {
      var n := |ops| - 1;
      SlotsAreHistory(km, s, t, ops[..n]);
      RunInv(km, s, t, ops[..n]);
      StepSlots(km, Run(km, s, ops[..n]), ops[n], Clock(t, ops[..n]));
    }
  }

  /** What one operation does to the two keys. */
  lemma StepSlots(km: Km, s: State, op: Op, t: nat)
    requires km.Lawful() && Inv(km, s, t)
    ensures op.OpStop? ==> Current(km, Outcome(km, s, op).0) == None && Old(km, Outcome(km, s, op).0) == None
    ensures op.OpStart? ==>
              Current(km, Outcome(km, s, op).0) == Current(km, s) && Old(km, Outcome(km, s, op).0) == Old(km, s)
    ensures op.OpSet? || op.OpRefresh? ==>
              Current(km, Outcome(km, s, op).0) == if Outcome(km, s, op).1 == OK then Some(op.key) else Current(km, s)
    ensures op.OpSet? ==> Old(km, Outcome(km, s, op).0) == Old(km, s)
    ensures op.OpRefresh? ==>
              Old(km, Outcome(km, s, op).0) ==
              if Running(s) && KeyFits(s.opts, op.key) then Current(km, s) else Old(km, s)
  {
    hide HmacLen;
  }

  // ----- Tokens -----

  /** The present key is there and unexpired; the old one likewise. */
  predicate PresentLive(s: State, now: nat) {
    s.pass.key != [] && now <= s.pass.newTime + 3600 * s.pass.hours
  }

  predicate OldLive(s: State, now: nat) {
    s.pass.oldKey != [] && now <= s.pass.oldTime + 3600 * s.pass.hours
  }

  /** The signature under a slot's key is computed exactly when the key is long enough for the algorithm, and is then
      the token's if and only if the slot holds the token's key. */
  lemma SlotMatches(km: Km, hm: Hmac, o: Options, ty: Present, slot: bytes, h: Header, key: bytes, input: bytes)
    requires hm.Lawful() && CanSign(h, key, input) && slot != [] && km.dec(Ref(o), slot).Some?
    requires !BadDowncast(o.km, ty)
    requires hm.Separates({key, km.dec(Ref(o), slot).value})
    ensures SlotSignature(km, hm, o, ty, slot, h.alg, Signed(h, input)).0 == OK
       <==> |km.dec(Ref(o), slot).value| >= HmacLen(h.alg)
    ensures SlotSignature(km, hm, o, ty, slot, h.alg, Signed(h, input))
              == (OK, Base64.Unpadded(hm.mac(h.alg, key, Signed(h, input))))
       <==> km.dec(Ref(o), slot).value == key
  {
    hide Signed, Base64.Unpadded, Base64.Encode, StripPadding, ToString;
    var mine := km.dec(Ref(o), slot).value;
    SignatureText(hm, h, key, input);
    if |mine| >= HmacLen(h.alg) {
      SignatureText(hm, h, mine, input);
    }
    if mine != key {
      OtherSignature(hm, h, key, mine, input);
    }
  }

  /** In every state the invariant holds in: a token made under key K validates if and only if it is shorter than 100
      MiB, its header can be read and is unexpired, the present key is unexpired, and K is the present key, or the
      unexpired old key while the present one is long enough for the token's algorithm. */
  lemma RotationExactly(km: Km, hm: Hmac, s: State, t: nat, now: nat, h: Header, key: bytes, input: bytes, arg: bytes)
    requires hm.Lawful() && Inv(km, s, t) && Running(s) && CanSign(h, key, input)
    requires Current(km, s).Some? ==> hm.Separates({key, Current(km, s).value})
    requires Old(km, s).Some? ==> hm.Separates({key, Old(km, s).value})
    ensures ValidateToken(km, hm, s, AsCString(TokenOf(hm, h, key, input)), arg, now) == OK <==>
            && |TokenOf(hm, h, key, input)| < JWT_INPUT_LENGTH_MAX
            && h.create < I64_LIMIT && (h.expire == -1 || now < h.create || now <= h.create + 60 * h.expire)
            && PresentLive(s, now) && Current(km, s).Some?
            && (Current(km, s) == Some(key)
                || (OldLive(s, now) && Old(km, s) == Some(key) && |Current(km, s).value| >= HmacLen(h.alg)))
  {
    hide OpenToken, TokenOf, Signed, Base64.Unpadded, SlotSignature, CString, HmacLen, ToString;
    TokenIsCString(hm, h, key, input);
    var text := TokenOf(hm, h, key, input);
    assert AsCString(text)[..|AsCString(text)| - 1] == text;
    OpensOwn(hm, h, key, input, now);
    if s.pass.key != [] {
      SlotMatches(km, hm, s.opts, s.kmType, s.pass.key, h, key, input);
    }
    if s.pass.oldKey != [] {
      SlotMatches(km, hm, s.opts, s.kmType, s.pass.oldKey, h, key, input);
    }
  }

  /** The same over a whole run from a new server, in terms of what was installed when. */
  lemma RotationOverRuns(km: Km, hm: Hmac, ops: seq<Op>, s: State, now: nat, h: Header, key: bytes, input: bytes,
                         arg: bytes)
    requires km.Lawful() && hm.Lawful() && Monotone(0, ops) && Clock(0, ops) <= now < I64_LIMIT
    requires s == Run(km, NEW_SERVER, ops) && Running(s) && CanSign(h, key, input)
    requires Current(km, s).Some? ==> hm.Separates({key, Current(km, s).value})
    requires Old(km, s).Some? ==> hm.Separates({key, Old(km, s).value})
    ensures ValidateToken(km, hm, s, AsCString(TokenOf(hm, h, key, input)), arg, now) == OK <==>
            && |TokenOf(hm, h, key, input)| < JWT_INPUT_LENGTH_MAX
            && h.create < I64_LIMIT && (h.expire == -1 || now < h.create || now <= h.create + 60 * h.expire)
            && PresentLive(s, now) && LastInstalled(km, NEW_SERVER, ops).Some?
            && (LastInstalled(km, NEW_SERVER, ops) == Some(key)
                || (OldLive(s, now) && BeforeRefresh(km, NEW_SERVER, ops) == Some(key)
                    && |LastInstalled(km, NEW_SERVER, ops).value| >= HmacLen(h.alg)))
  {
    hide Run, Inv, ValidateToken, TokenOf, Current, Old, LastInstalled, BeforeRefresh, HmacLen;
    assert Inv(km, NEW_SERVER, 0) by { NewServerInv(km); }
    RunInv(km, NEW_SERVER, 0, ops);
    SlotsAreHistory(km, NEW_SERVER, 0, ops);
    RotationExactly(km, hm, s, Clock(0, ops), now, h, key, input, arg);
  }

  lemma NewServerInv(km: Km)
    ensures Inv(km, NEW_SERVER, 0)
  {
  }

  /** A token that CreateToken made validates at once if and only if it is shorter than 100 MiB and its header can be
      read and is unexpired. */
  lemma CreatedValidates(km: Km, hm: Hmac, s: State, t: nat, input: bytes, room: nat, now: nat, arg: bytes)
    requires hm.Lawful() && Inv(km, s, t) && Running(s)
    requires CreateToken(km, hm, s, arg, input, room, now).0 == OK
    requires Old(km, s).Some? && Current(km, s).Some? ==> hm.Separates({Current(km, s).value, Old(km, s).value})
    ensures ValidateToken(km, hm, s, AsCString(CreateToken(km, hm, s, arg, input, room, now).1), arg, now) == OK <==>
            && |CreateToken(km, hm, s, arg, input, room, now).1| < JWT_INPUT_LENGTH_MAX
            && s.header.create < I64_LIMIT
            && (s.header.expire == -1 || now < s.header.create || now <= s.header.create + 60 * s.header.expire)
  {
    hide Create, ValidateToken, HmacLen, ToString;
    var key := km.dec(Ref(s.opts), s.pass.key).value;
    RotationExactly(km, hm, s, t, now, s.header, key, input, arg);
  }

  /** A refresh that fails to encrypt the new key has dropped the old one all the same: a token under the old key that
      validated before is refused after. */
  lemma FailedRefreshRetiresOld(km: Km, hm: Hmac, s: State, t: nat, newKey: bytes, env: KeyEnv, h: Header, key: bytes,
                                input: bytes, arg: bytes)
    requires km.Lawful() && hm.Lawful() && Inv(km, s, t) && Running(s) && t <= env.now < I64_LIMIT
    requires KeyFits(s.opts, newKey) && km.enc(Ref(s.opts), env.nonce, newKey) == None
    requires CanSign(h, key, input) && Old(km, s) == Some(key) != Current(km, s)
    requires Current(km, s).Some? ==> hm.Separates({key, Current(km, s).value})
    requires ValidateToken(km, hm, s, AsCString(TokenOf(hm, h, key, input)), arg, env.now) == OK
    ensures RefreshEncryptionKey(km, s, newKey, env).1 == REFRESH_KEY_FAIL
    ensures ValidateToken(km, hm, RefreshEncryptionKey(km, s, newKey, env).0, AsCString(TokenOf(hm, h, key, input)),
                          arg, env.now) != OK
  {
    hide ValidateToken, TokenOf, HmacLen, ToString;
    var op := OpRefresh(newKey, env);
    StepInv(km, s, t, op);
    StepSlots(km, s, op, t);
    assert hm.Separates({key, key});
    RotationExactly(km, hm, s, t, env.now, h, key, input, arg);
    RotationExactly(km, hm, Outcome(km, s, op).0, env.now, env.now, h, key, input, arg);
  }

  // ----- Times -----

  /** The hours a key lives, for options that a start accepts: -1 stands for 24, not for ever. */
  function Lifetime(o: Options): int {
    3600 * (if o.serverKeyExpiredHours == -1 then 24 else o.serverKeyExpiredHours)
  }

  /** A key set at time t on a started server is live at now if and only if now is at most t plus the lifetime. */
  lemma KeyLifetime(km: Km, s: State, o: Options, senv: StartEnv, t0: nat, key: bytes, env: KeyEnv, now: nat)
    requires !s.started && o.mode == INTERNAL_KEY && Start(s, o, senv, t0).1 == OK && km.Lawful()
    requires SetEncryptionKey(km, Start(s, o, senv, t0).0, key, env).1 == OK
    ensures PresentLive(SetEncryptionKey(km, Start(s, o, senv, t0).0, key, env).0, now)
       <==> now <= env.now + Lifetime(o)
  {
    hide HmacLen;
  }

  /** Setting and refreshing keys, and starting again, leave the header of a running server alone. */
  lemma {:induction false} HeaderStays(km: Km, s: State, ops: seq<Op>)
    requires s.started && forall i :: 0 <= i < |ops| ==> !ops[i].OpStop?
    ensures Run(km, s, ops).started && Run(km, s, ops).header == s.header && Run(km, s, ops).opts == s.opts
  {
    hide KeyFits;
    if ops == [] {
    } else {
      HeaderStays(km, s, ops[..|ops| - 1]);
    }
  }

  /** Expiry counts from the start: two tokens made after one start, at any two times and under any keys, expire at the
      same second. */
  lemma ExpireTogether(km: Km, hm: Hmac, s: State, ops: seq<Op>, ops': seq<Op>, arg: bytes, arg': bytes, input: bytes,
                       input': bytes, room: nat, room': nat, t: nat, t': nat, now: int)
    requires hm.Lawful() && s.started && HeaderFits(s.header) && s.header.create < I64_LIMIT
    requires (forall i :: 0 <= i < |ops| ==> !ops[i].OpStop?) && forall i :: 0 <= i < |ops'| ==> !ops'[i].OpStop?
    requires CreateToken(km, hm, Run(km, s, ops), arg, input, room, t).0 == OK
    requires CreateToken(km, hm, Run(km, s, ops'), arg', input', room', t').0 == OK
    ensures OpenToken(CreateToken(km, hm, Run(km, s, ops), arg, input, room, t).1, now) == Refused(TOKEN_EXPIRED)
       <==> OpenToken(CreateToken(km, hm, Run(km, s, ops'), arg', input', room', t').1, now) == Refused(TOKEN_EXPIRED)
    ensures OpenToken(CreateToken(km, hm, Run(km, s, ops), arg, input, room, t).1, now) == Refused(TOKEN_EXPIRED)
       <==> s.header.expire != -1 && now >= s.header.create && now > s.header.create + 60 * s.header.expire
  {
    hide Run, CreateToken, OpenToken;
    HeaderStays(km, s, ops);
    HeaderStays(km, s, ops');
    ExpiresWithHeader(km, hm, Run(km, s, ops), arg, input, room, t, now);
    ExpiresWithHeader(km, hm, Run(km, s, ops'), arg', input', room', t', now);
  }

  lemma ExpiresWithHeader(km: Km, hm: Hmac, s: State, arg: bytes, input: bytes, room: nat, t: nat, now: int)
    requires hm.Lawful() && HeaderFits(s.header) && s.header.create < I64_LIMIT
    requires CreateToken(km, hm, s, arg, input, room, t).0 == OK
    ensures OpenToken(CreateToken(km, hm, s, arg, input, room, t).1, now) == Refused(TOKEN_EXPIRED)
       <==> s.header.expire != -1 && now >= s.header.create && now > s.header.create + 60 * s.header.expire
  {
    hide Create, OpenToken;
    var key := if s.opts.mode == EXTERNAL_KEY then arg else km.dec(Ref(s.opts), s.pass.key).value;
    MadeMeansSigned(hm, s.header, key, input);
    OpensOwn(hm, s.header, key, input, now);
  }
}
