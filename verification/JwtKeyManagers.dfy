/** The JWT server and the two key managers that are one: when setting a key ends in a cast to the wrong class. */
module JwtKeyManagers {
  import opened Bytes
  import opened JwtToken
  import opened JwtServer
  import opened JwtRotation
  import opened KeyManagerType

  /** What an operation calls on the key managers. */
  function CallsOf(s: State, op: Op): seq<Call> {
    match op
    case OpStart(o, senv, _) =>
      if s.started || o.mode != INTERNAL_KEY || !OptionsValid(o, senv) || o.km == UNKNOWN then [] else [InitOf(o.km)]
    case OpStop =>
      if !s.started || s.opts.mode != INTERNAL_KEY || s.opts.km == UNKNOWN then [] else [UnInitOf(s.opts.km)]
    case _ => []
  }

  function Calls(km: Km, s: State, ops: seq<Op>): seq<Call> {
    if ops == [] then []
    else
      var n := |ops| - 1;
      Calls(km, s, ops[..n]) + CallsOf(Run(km, s, ops[..n]), ops[n])
  }

  lemma StepType(km: Km, s: State, op: Op)
    ensures Outcome(km, s, op).0.kmType == TypeAfter(s.kmType, CallsOf(s, op))
  {
    hide KeyFits, NewPass;
    if CallsOf(s, op) != [] {
      assert CallsOf(s, op)[..0] == [];
    }
  }

  lemma {:induction false} TypeIsHistory(km: Km, s: State, ops: seq<Op>)
    ensures Run(km, s, ops).kmType == TypeAfter(s.kmType, Calls(km, s, ops))
  {
    hide Outcome, CallsOf, TypeAfter;
    if ops == [] {
      NoCalls(s.kmType);
    } else {
      var n := |ops| - 1;
      var t := Run(km, s, ops[..n]);
      TypeIsHistory(km, s, ops[..n]);
      StepType(km, t, ops[n]);
      TypeAppend(s.kmType, Calls(km, s, ops[..n]), CallsOf(t, ops[n]));
    }
  }

  /** On a server that runs with its own keys, setting an allowed key ends in the bad cast if and only if the server
      asks for the OpenBao manager while the last start of it with the vault manager, failed or not, was not stopped
      since. */
  lemma SetCastsExactly(km: Km, ops: seq<Op>, key: bytes, env: KeyEnv)
    requires Running(Run(km, NEW_SERVER, ops)) && KeyFits(Run(km, NEW_SERVER, ops).opts, key) && 0 !in key
    ensures SetEncryptionKey(km, Run(km, NEW_SERVER, ops), key, env).1 == BAD_DOWNCAST
       <==> Run(km, NEW_SERVER, ops).opts.km == OPENBAO && LeftAtVault(Calls(km, NEW_SERVER, ops))
  {
    hide Run, TypeAfter, KeyFits;
    TypeIsHistory(km, NEW_SERVER, ops);
    VaultExactly(OPENBAO, Calls(km, NEW_SERVER, ops));
  }
}
