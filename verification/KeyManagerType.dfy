/** src/cdf/modules/key_management/vault/vault_key_manager.{h,cpp}, key_manager_factory.cpp and km_cryptor.cpp: the two
    key managers of a process are one. The vault manager forwards every call to the OpenBao manager, whose type_ its
    Init sets and its UnInit resets; the OpenBao manager's own Init and UnInit leave it alone. */
module KeyManagerType {

  datatype KeyManagerTy = OPENBAO | VAULT | UNKNOWN

  /** What type_ can be. */
  type Present = t: KeyManagerTy | t != UNKNOWN witness OPENBAO

  /** type_ after Init or UnInit of the manager that is asked for. */
  function AfterInit(asked: KeyManagerTy, ty: Present): Present {
    if asked == VAULT then VAULT else ty
  }

  function AfterUnInit(asked: KeyManagerTy, ty: Present): Present {
    if asked == VAULT then OPENBAO else ty
  }

  /** KmCryptor casts the object it borrows to the class that the object's Type() names. The OpenBao object says type_:
      when that is VAULT, it is cast to a class that it is not of, and the behaviour is undefined. */
  predicate BadDowncast(asked: KeyManagerTy, ty: Present) {
    asked == OPENBAO && ty == VAULT
  }

  // ----- Over calls of any users -----

  /** The calls that change type_. */
  datatype Call = InitOf(asked: KeyManagerTy) | UnInitOf(asked: KeyManagerTy)

  function TypeAfter(ty: Present, calls: seq<Call>): Present {
    if calls == [] then ty
    else
      var before := TypeAfter(ty, calls[..|calls| - 1]);
      match calls[|calls| - 1]
      case InitOf(asked) => AfterInit(asked, before)
      case UnInitOf(asked) => AfterUnInit(asked, before)
  }

  lemma {:induction false} TypeAppend(ty: Present, a: seq<Call>, b: seq<Call>)
    ensures TypeAfter(ty, a + b) == TypeAfter(TypeAfter(ty, a), b)
    decreases |b|
  {
    if b == [] {
      assert a + b == a;
    } else {
      assert (a + b)[..|a + b| - 1] == a + b[..|b| - 1];
      TypeAppend(ty, a, b[..|b| - 1]);
    }
  }

  lemma NoCalls(ty: Present)
    ensures TypeAfter(ty, []) == ty
  {
  }

  /** No call from i on stops the vault manager. */
  predicate NeverStopped(calls: seq<Call>, i: int) {
    forall j :: 0 <= j < |calls| && i <= j ==> calls[j] != UnInitOf(VAULT)
  }

  /** An Init of the vault manager, failed or not, after which it is never stopped. */
  predicate LeftAtVault(calls: seq<Call>) {
    exists i :: 0 <= i < |calls| && calls[i] == InitOf(VAULT) && NeverStopped(calls, i)
  }

  /** type_ is VAULT if and only if some Init of the vault manager has no UnInit of it after it, or it was VAULT and
      there was no UnInit of it at all; what is called on the OpenBao manager does not matter. */
  lemma {:induction false} VaultExactly(ty: Present, calls: seq<Call>)
    ensures TypeAfter(ty, calls) == VAULT <==> LeftAtVault(calls) || (ty == VAULT && NeverStopped(calls, 0))
  {
    if calls == [] {
      assert NeverStopped(calls, 0);
    } else {
      var n := |calls| - 1;
      var front := calls[..n];
      VaultExactly(ty, front);
      assert NeverStopped(calls, 0) <==> NeverStopped(front, 0) && calls[n] != UnInitOf(VAULT);
      LeftLast(calls);
    }
  }

  lemma LeftLast(calls: seq<Call>)
    requires calls != []
    ensures LeftAtVault(calls) <==>
              || calls[|calls| - 1] == InitOf(VAULT)
              || (LeftAtVault(calls[..|calls| - 1]) && calls[|calls| - 1] != UnInitOf(VAULT))
  {
    var n := |calls| - 1;
    var front := calls[..n];
    forall i | 0 <= i < n
      ensures NeverStopped(calls, i) <==> NeverStopped(front, i) && calls[n] != UnInitOf(VAULT)
    {
      assert forall j :: 0 <= j < n ==> front[j] == calls[j];
    }
    if LeftAtVault(front) && calls[n] != UnInitOf(VAULT) {
      var i :| 0 <= i < n && front[i] == InitOf(VAULT) && NeverStopped(front, i);
      assert calls[i] == InitOf(VAULT) && NeverStopped(calls, i);
    }
    if LeftAtVault(calls) && calls[n] != InitOf(VAULT) {
      var i :| 0 <= i < |calls| && calls[i] == InitOf(VAULT) && NeverStopped(calls, i);
      assert front[i] == InitOf(VAULT) && NeverStopped(front, i);
    }
    if calls[n] == InitOf(VAULT) {
      assert NeverStopped(calls, n);
    }
  }

  // ----- The class -----

  /** type_, as the users of the managers share it. */
  class SharedType {
    var ty: Present

    constructor ()
      ensures ty == OPENBAO
    {
      ty := OPENBAO;
    }

    method Start(asked: KeyManagerTy)
      modifies this
      ensures ty == AfterInit(asked, old(ty))
    {
      if asked == VAULT {
        ty := VAULT;
      }
    }

    method Stop(asked: KeyManagerTy)
      modifies this
      ensures ty == AfterUnInit(asked, old(ty))
    {
      if asked == VAULT {
        ty := OPENBAO;
      }
    }
  }
}
