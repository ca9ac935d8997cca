/** A concrete run of the JWT server: two keys, a token under each, and a refresh that fails. */
module JwtExamples {
  import opened Bytes
  import opened JwtToken
  import opened JwtServer
  import opened JwtValidation
  import opened JwtRotation
  import opened KeyManagerType

  function Filled(n: nat, b: byte): (r: bytes)
    ensures |r| == n && forall i :: 0 <= i < n ==> r[i] == b
  {
    seq(n, _ => b)
  }

  function K1(): bytes { Filled(32, 65) }
  function K2(): bytes { Filled(32, 66) }

  lemma KeysDiffer()
    ensures K1() != K2()
  {
    assert K1()[0] == 65 && K2()[0] == 66;
  }

  /** Encryption adds a byte in front, and fails for the draw 1. */
  function Prefixing(): (km: Km)
    ensures km.Lawful()
  {
    Km((r, n, p) => if n == 1 then None else Some([1] + p), (r, ct) => if ct == [] then None else Some(ct[1..]))
  }

  /** A MAC that tells keys that begin with 65 from all others. */
  function TwoKeyMac(): (hm: Hmac)
    ensures hm.Lawful()
  {
    Hmac((a, k, m) => Tag(a, k != [] && k[0] == 65))
  }

  function Tag(a: HmacAlg, first: bool): (r: bytes)
    ensures |r| == HmacLen(a)
  {
    Filled(HmacLen(a), if first then 0 else 1)
  }

  lemma MacSeparates()
    ensures TwoKeyMac().Separates({K1(), K2()}) && TwoKeyMac().Separates({K1()})
  {
    forall a: HmacAlg | a != UNKNOWN_HMAC ensures Tag(a, true) != Tag(a, false) {
      assert Tag(a, true)[0] == 0 && Tag(a, false)[0] == 1;
    }
    assert K1()[0] == 65 && K2()[0] == 66;
  }

  const OPTIONS := Options(INTERNAL_KEY, 480, HMAC_SHA256, OPENBAO, 24, 2, 0)

  /** Start at 0, set the first key at 5, refresh to the second at 10. */
  function Ops(): seq<Op> {
    [OpStart(OPTIONS, StartEnv(true, true, true), 0), OpSet(K1(), KeyEnv(0, 5)), OpRefresh(K2(), KeyEnv(0, 10))]
  }

  function Rotated(): State {
    State(true, OPTIONS, Header(HMAC_SHA256, 480, 0), KeyPass([1] + K2(), [1] + K1(), 24, 10, 5), OPENBAO)
  }

  lemma RunGives()
    ensures Run(Prefixing(), NEW_SERVER, Ops()) == Rotated() && Monotone(0, Ops()) && Clock(0, Ops()) == 10
  {
    var km, ops := Prefixing(), Ops();
    assert ops[..2] == [ops[0], ops[1]] && ops[..2][..1] == [ops[0]] && ops[..2][..1][..0] == [];
    assert Run(km, NEW_SERVER, [ops[0]]) == Outcome(km, NEW_SERVER, ops[0]).0;
    assert Run(km, NEW_SERVER, ops[..2]) == Outcome(km, Run(km, NEW_SERVER, [ops[0]]), ops[1]).0;
    assert Monotone(0, [ops[0]]) && Clock(0, [ops[0]]) == 0;
    assert Monotone(0, ops[..2]) && Clock(0, ops[..2]) == 5;
  }

  lemma RotatedKeys()
    ensures Current(Prefixing(), Rotated()) == Some(K2()) && Old(Prefixing(), Rotated()) == Some(K1())
    ensures CanSign(Rotated().header, K1(), [7, 0]) && Inv(Prefixing(), Rotated(), 10) && Running(Rotated())
  {
    assert ([1] + K2())[1..] == K2() && ([1] + K1())[1..] == K1();
  }

  /** RotationOverRuns applies: a token under the old key validates at time 20. */
  lemma OldKeyValidates()
    ensures ValidateToken(Prefixing(), TwoKeyMac(), Rotated(),
                          AsCString(TokenOf(TwoKeyMac(), Rotated().header, K1(), [7, 0])), [], 20) == OK
  {
    hide ValidateToken, TokenOf, Run, Monotone, Clock, ToString;
    KeysDiffer();
    MacSeparates();
    RunGives();
    RotatedKeys();
    Short();
    var km, ops := Prefixing(), Ops();
    assert Inv(km, NEW_SERVER, 0) by { NewServerInv(km); }
    SlotsAreHistory(km, NEW_SERVER, 0, ops);
    RotationOverRuns(km, TwoKeyMac(), ops, Rotated(), 20, Rotated().header, K1(), [7, 0], []);
  }

  lemma Short()
    ensures |TokenOf(TwoKeyMac(), Rotated().header, K1(), [7, 0])| < JWT_INPUT_LENGTH_MAX
  {
    hide TokenOf, ToString;
    LongInputsRefused(Prefixing(), TwoKeyMac(), Rotated(), Rotated().header, K1(), [7, 0], [], 0);
  }

  /** FailedRefreshRetiresOld applies: after a refresh whose encryption fails, the same token is refused. */
  lemma OldKeyRefusedAfterFailure()
    ensures RefreshEncryptionKey(Prefixing(), Rotated(), K1(), KeyEnv(1, 20)).1 == REFRESH_KEY_FAIL
    ensures ValidateToken(Prefixing(), TwoKeyMac(), RefreshEncryptionKey(Prefixing(), Rotated(), K1(), KeyEnv(1, 20)).0,
                          AsCString(TokenOf(TwoKeyMac(), Rotated().header, K1(), [7, 0])), [], 20) != OK
  {
    hide ValidateToken, TokenOf, ToString;
    KeysDiffer();
    MacSeparates();
    RotatedKeys();
    OldKeyValidates();
    FailedRefreshRetiresOld(Prefixing(), TwoKeyMac(), Rotated(), 10, K1(), KeyEnv(1, 20), Rotated().header, K1(),
                            [7, 0], []);
  }

  /** CreatedValidates applies: a token of the server itself validates at once. */
  lemma OwnTokenValidates(room: nat)
    requires room >= 1000
    ensures CreateToken(Prefixing(), TwoKeyMac(), Rotated(), [], [7, 0], room, 20).0 == OK
    ensures var made := CreateToken(Prefixing(), TwoKeyMac(), Rotated(), [], [7, 0], room, 20).1;
            ValidateToken(Prefixing(), TwoKeyMac(), Rotated(), AsCString(made), [], 20) == OK
  {
    hide CreateToken, ValidateToken, ToString, K1, K2;
    var km, hm, s := Prefixing(), TwoKeyMac(), Rotated();
    KeysDiffer();
    MacSeparates();
    RotatedKeys();
    OwnTokenIsMade(room);
    assert hm.Separates({K2(), K1()}) by { assert {K2(), K1()} == {K1(), K2()}; }
    CreatedValidates(km, hm, s, 10, [7, 0], room, 20, []);
  }

  /** What a server with a live key makes of an input in a buffer that is large enough. */
  lemma MakesToken(km: Km, hm: Hmac, s: State, key: bytes, input: bytes, room: nat, now: nat)
    requires hm.Lawful() && Running(s) && !BadDowncast(s.opts.km, s.kmType)
    requires Current(km, s) == Some(key) && PresentLive(s, now)
    requires CanSign(s.header, key, input) && CString(input) && |input| <= JWT_INPUT_LENGTH_MAX
    requires room > |TokenOf(hm, s.header, key, input)|
    ensures CreateToken(km, hm, s, [], input, room, now) == (OK, TokenOf(hm, s.header, key, input))
  {
    hide CreateText, TokenOf, CanSign;
    MakesText(km, hm, s, key, input, now);
  }

  lemma MakesText(km: Km, hm: Hmac, s: State, key: bytes, input: bytes, now: nat)
    requires hm.Lawful() && Running(s) && !BadDowncast(s.opts.km, s.kmType)
    requires Current(km, s) == Some(key) && PresentLive(s, now) && CanSign(s.header, key, input)
    ensures CreateText(km, hm, s, [], input, now) == (OK, TokenOf(hm, s.header, key, input))
  {
    hide Create, CString, CanSign;
    assert Create(hm, s.header, key, input).0 == OK by { SignatureText(hm, s.header, key, input); }
  }

  lemma OwnTokenIsMade(room: nat)
    requires room >= 1000
    ensures var made := CreateToken(Prefixing(), TwoKeyMac(), Rotated(), [], [7, 0], room, 20);
            made.0 == OK && |made.1| < 1000
  {
    hide CreateToken, TokenOf, ToString, K1, K2;
    var hm, s := TwoKeyMac(), Rotated();
    RotatedKeys();
    TokenLength(hm, s.header, K2(), [7, 0]);
    HeaderLength(s.header);
    MakesToken(Prefixing(), hm, s, K2(), [7, 0], room, 20);
  }

  /** And the failing case of CreatedValidates: a token that the server makes of 80000000 bytes is refused at once. */
  lemma LongOwnTokenRefused(km: Km, hm: Hmac, s: State, t: nat, input: bytes, room: nat, now: nat, arg: bytes)
    requires hm.Lawful() && Inv(km, s, t) && Running(s) && |input| >= 80000000
    requires CreateToken(km, hm, s, arg, input, room, now).0 == OK
    ensures ValidateToken(km, hm, s, AsCString(CreateToken(km, hm, s, arg, input, room, now).1), arg, now)
         == PARAM_INVALID
  {
    hide Create, ValidateToken, ToString;
    var key := km.dec(Ref(s.opts), s.pass.key).value;
    MadeMeansSigned(hm, s.header, key, input);
    LongInputsRefused(km, hm, s, s.header, key, input, arg, now);
  }

  /** There is one: the server of the run above makes it in a buffer of the estimated length. */
  lemma LongOwnTokenExists()
    ensures EstimateTokenLength(Rotated().header, 80000000).0 == OK
    ensures CreateToken(Prefixing(), TwoKeyMac(), Rotated(), [], LongInput(),
                        EstimateTokenLength(Rotated().header, 80000000).1, 20).0 == OK
  {
    hide ToString, Create, EstimateTokenLength;
    var km, hm, s := Prefixing(), TwoKeyMac(), Rotated();
    RotatedKeys();
    SignatureText(hm, s.header, K2(), LongInput());
    EstimatedBufferSuffices(km, hm, s, [], LongInput(), 20);
  }

  function LongInput(): (r: bytes)
    ensures CString(r) && |r| == 80000000
  {
    Filled(79999999, 65) + [0]
  }

  // ----- A key manager left at the wrong type -----

  /** A start with the vault manager that fails, and one with the OpenBao manager: setting a key ends in the bad
      cast. */
  lemma FailedVaultStart(km: Km, env: KeyEnv)
    ensures var s := Start(NEW_SERVER, OPTIONS.(km := VAULT), StartEnv(true, true, false), 0);
            var t := Start(s.0, OPTIONS, StartEnv(true, true, true), 1);
            && s.1 == KEY_MANAGER_INIT_FAIL && t.1 == OK
            && SetEncryptionKey(km, t.0, K1(), env).1 == BAD_DOWNCAST
  {
    assert 0 !in K1();
  }

  // ----- The old key and the length of the present one -----

  function LongKey(): bytes { Filled(64, 65) }

  /** The first key is 64 bytes long, as a token's algorithm may need. */
  function LongFirst(): State {
    Rotated().(pass := KeyPass([1] + LongKey(), [], 24, 5, 0))
  }

  const LONG_HEADER := Header(HMAC_SHA512, 480, 0)

  /** A token under the 64-byte key that needs all of it validates; after a refresh to a 32-byte key that is refused,
      although the old key has not expired. */
  lemma ShortKeyRefusesOld(arg: bytes)
    ensures Inv(Prefixing(), LongFirst(), 10) && Running(LongFirst())
    ensures var t := RefreshEncryptionKey(Prefixing(), LongFirst(), K2(), KeyEnv(0, 10));
            var text := AsCString(TokenOf(TwoKeyMac(), LONG_HEADER, LongKey(), [7, 0]));
            && ValidateToken(Prefixing(), TwoKeyMac(), LongFirst(), text, arg, 10) == OK
            && t.1 == OK && OldLive(t.0, 20) && Old(Prefixing(), t.0) == Some(LongKey())
            && ValidateToken(Prefixing(), TwoKeyMac(), t.0, text, arg, 20) != OK
  {
    hide ValidateToken, TokenOf, ToString;
    var km, hm, s := Prefixing(), TwoKeyMac(), LongFirst();
    assert ([1] + LongKey())[1..] == LongKey() && ([1] + K2())[1..] == K2();
    assert LongKey() != K2() by { assert LongKey()[0] == 65 && K2()[0] == 66; }
    MacSeparatesLong();
    var op := OpRefresh(K2(), KeyEnv(0, 10));
    StepInv(km, s, 10, op);
    StepSlots(km, s, op, 10);
    LongInputsRefused(km, hm, s, LONG_HEADER, LongKey(), [7, 0], arg, 10);
    RotationExactly(km, hm, s, 10, 10, LONG_HEADER, LongKey(), [7, 0], arg);
    RotationExactly(km, hm, Outcome(km, s, op).0, 10, 20, LONG_HEADER, LongKey(), [7, 0], arg);
  }

  lemma MacSeparatesLong()
    ensures TwoKeyMac().Separates({LongKey(), K2()}) && TwoKeyMac().Separates({LongKey()})
  {
    forall a: HmacAlg | a != UNKNOWN_HMAC ensures Tag(a, true) != Tag(a, false) {
      assert Tag(a, true)[0] == 0 && Tag(a, false)[0] == 1;
    }
    assert LongKey()[0] == 65 && K2()[0] == 66;
  }
}
