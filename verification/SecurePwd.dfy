/** src/cdf/modules/rand/rand.cpp: passwords from random bytes. */
module SecurePwd {
  import opened Bytes

  const MIN_SECURE_PWD_LEN := 8
  const MAX_SECURE_PWD_LEN := 32
  const PWD_ALL_CHARS_LEN := 95

  // ----- The character table -----

  /** The 33 characters after digits, lower case and upper case: `~!@#$%^&*()-_=+\|[]{};:'" ,<.>/? */
  const SPECIALS: seq<byte> :=
    [96, 126, 33, 64, 35, 36, 37, 94, 38, 42, 40, 41, 45, 95, 61, 43, 92, 124, 91, 93, 123, 125, 59, 58, 39, 34, 32, 44,
     60, 46, 62, 47, 63]

  function PwdChar(i: nat): (c: byte)
    requires i < PWD_ALL_CHARS_LEN
  {
    if i < 10 then '0' as int + i
    else if i < 36 then 'a' as int + i - 10
    else if i < 62 then 'A' as int + i - 36
    else SPECIALS[i - 62]
  }

  predicate Printable(c: int) {
    32 <= c <= 126
  }

  /** Where a character stands in the table. */
  function PwdIndex(c: byte): (i: nat)
    requires Printable(c)
  {
    if IsDigit(c) then c - '0' as int
    else if IsLower(c) then c - 'a' as int + 10
    else if IsUpper(c) then c - 'A' as int + 36
    else 62 + SpecialIndex(c)
  }

  function SpecialIndex(c: byte): nat {
    match c
    case 96 => 0 case 126 => 1 case 33 => 2 case 64 => 3 case 35 => 4 case 36 => 5 case 37 => 6 case 94 => 7
    case 38 => 8
    case 42 => 9 case 40 => 10 case 41 => 11 case 45 => 12 case 95 => 13 case 61 => 14 case 43 => 15 case 92 => 16
    case 124 => 17 case 91 => 18 case 93 => 19 case 123 => 20 case 125 => 21 case 59 => 22 case 58 => 23 case 39 => 24
    case 34 => 25 case 32 => 26 case 44 => 27 case 60 => 28 case 46 => 29 case 62 => 30 case 47 => 31 case _ => 32
  }

  /** isdigit, islower and isupper of the C locale. */
  predicate IsDigit(c: byte) { '0' as int <= c <= '9' as int }
  predicate IsLower(c: byte) { 'a' as int <= c <= 'z' as int }
  predicate IsUpper(c: byte) { 'A' as int <= c <= 'Z' as int }

  lemma SpecialsInvert(j: nat)
    requires j < 33
    ensures Printable(SPECIALS[j]) && SpecialIndex(SPECIALS[j]) == j
    ensures !IsDigit(SPECIALS[j]) && !IsLower(SPECIALS[j]) && !IsUpper(SPECIALS[j])
  {
  }

  lemma IndexInverts(c: byte)
    requires Printable(c) && !IsDigit(c) && !IsLower(c) && !IsUpper(c)
    ensures SpecialIndex(c) < 33 && SPECIALS[SpecialIndex(c)] == c
  {
  }

  /** The table holds each of the 95 printable ASCII characters exactly once. */
  lemma TableIsBijection(i: nat, c: byte)
    ensures i < PWD_ALL_CHARS_LEN ==> Printable(PwdChar(i)) && PwdIndex(PwdChar(i)) == i
    ensures Printable(c) ==> PwdIndex(c) < PWD_ALL_CHARS_LEN && PwdChar(PwdIndex(c)) == c
  {
    hide SpecialIndex;
    if 62 <= i < PWD_ALL_CHARS_LEN {
      SpecialsInvert(i - 62);
    }
    if Printable(c) && !IsDigit(c) && !IsLower(c) && !IsUpper(c) {
      IndexInverts(c);
    }
  }

  // ----- Character classes -----

  datatype CharType = DIGIT | LOWER | UPPER | SPECIAL

  function TypeOf(c: byte): CharType {
    if IsDigit(c) then DIGIT else if IsLower(c) then LOWER else if IsUpper(c) then UPPER else SPECIAL
  }

  /** Two characters of different classes occur. */
  predicate Mixed(pwd: bytes) {
    exists i, j :: 0 <= i < |pwd| && 0 <= j < |pwd| && TypeOf(pwd[i]) != TypeOf(pwd[j])
  }

  predicate Seen(pwd: bytes, t: CharType) {
    exists i :: 0 <= i < |pwd| && TypeOf(pwd[i]) == t
  }

  /** One bit per class. */
  function Bits(digit: bool, lower: bool, upper: bool, special: bool): bv8 {
    (if digit then 1 else 0) | (if lower then 2 else 0) | (if upper then 4 else 0) | (if special then 8 else 0)
  }

  function TypeBits(pwd: bytes): bv8 {
    Bits(Seen(pwd, DIGIT), Seen(pwd, LOWER), Seen(pwd, UPPER), Seen(pwd, SPECIAL))
  }

  /** Clearing the lowest bit leaves something exactly when two bits are set. */
  lemma TwoBitsSet(d: bool, l: bool, u: bool, s: bool)
    ensures Bits(d, l, u, s) & (Bits(d, l, u, s) - 1) != 0
       <==> (d && l) || (d && u) || (d && s) || (l && u) || (l && s) || (u && s)
  {
  }

  lemma MixedIsTwoSeen(pwd: bytes)
    ensures Mixed(pwd) <==>
            || (Seen(pwd, DIGIT) && Seen(pwd, LOWER)) || (Seen(pwd, DIGIT) && Seen(pwd, UPPER))
            || (Seen(pwd, DIGIT) && Seen(pwd, SPECIAL)) || (Seen(pwd, LOWER) && Seen(pwd, UPPER))
            || (Seen(pwd, LOWER) && Seen(pwd, SPECIAL)) || (Seen(pwd, UPPER) && Seen(pwd, SPECIAL))
  {
    hide TypeOf;
    if Mixed(pwd) {
      var i, j :| 0 <= i < |pwd| && 0 <= j < |pwd| && TypeOf(pwd[i]) != TypeOf(pwd[j]);
      assert Seen(pwd, TypeOf(pwd[i])) && Seen(pwd, TypeOf(pwd[j]));
    }
    forall s: CharType, t: CharType | s != t && Seen(pwd, s) && Seen(pwd, t) ensures Mixed(pwd) {
      var i :| 0 <= i < |pwd| && TypeOf(pwd[i]) == s;
      var j :| 0 <= j < |pwd| && TypeOf(pwd[j]) == t;
    }
  }

  lemma SeenGrows(pwd: bytes, i: nat, t: CharType)
    requires i < |pwd|
    ensures Seen(pwd[..i + 1], t) <==> Seen(pwd[..i], t) || TypeOf(pwd[i]) == t
  {
    hide TypeOf;
    assert pwd[..i + 1] == pwd[..i] + [pwd[i]];
    if Seen(pwd[..i], t) {
      var j :| 0 <= j < i && TypeOf(pwd[..i][j]) == t;
      assert TypeOf(pwd[..i + 1][j]) == t;
    }
    if TypeOf(pwd[i]) == t {
      assert TypeOf(pwd[..i + 1][i]) == t;
    }
  }

  method HasMultipleCharTypes(pwd: bytes) returns (multiple: bool)
    ensures multiple <==> Mixed(pwd)
  {
    hide TypeOf, Seen, Mixed;
    var types: bv8 := 0;
    var i := 0;
    NothingSeen();
    assert pwd[..0] == [];
    while i < |pwd|
      invariant 0 <= i <= |pwd|
      invariant types == TypeBits(pwd[..i])
    {
      types := types | AddedBit(TypeOf(pwd[i]));
      SeenGrows(pwd, i, DIGIT);
      SeenGrows(pwd, i, LOWER);
      SeenGrows(pwd, i, UPPER);
      SeenGrows(pwd, i, SPECIAL);
      i := i + 1;
    }
    assert pwd[..i] == pwd;
    TwoBitsSet(Seen(pwd, DIGIT), Seen(pwd, LOWER), Seen(pwd, UPPER), Seen(pwd, SPECIAL));
    MixedIsTwoSeen(pwd);
    multiple := types & (types - 1) != 0;
  }

  function AddedBit(t: CharType): bv8 {
    match t case DIGIT => 1 case LOWER => 2 case UPPER => 4 case SPECIAL => 8
  }

  lemma NothingSeen()
    ensures TypeBits([]) == 0
  {
    assert !Seen([], DIGIT) && !Seen([], LOWER) && !Seen([], UPPER) && !Seen([], SPECIAL);
  }

  // ----- From random bytes to characters -----

  /** Eight bytes as a 64-bit number, shifted in one by one. */
  method FoldBlock(block: bytes) returns (randValue: nat)
    requires |block| == 8
    ensures randValue == FromBe(block) < U64_LIMIT
  {
    randValue := 0;
    var i := 0;
    assert block[..0] == [];
    while i < 8
      invariant 0 <= i <= 8
      invariant randValue == FromBe(block[..i]) < Pow256(i)
    {
      assert block[..i + 1][..i] == block[..i];
      FromBeBound(block[..i]);
      Pow256Grows(i);
      randValue := randValue * 256 % U64_LIMIT + block[i];
      i := i + 1;
    }
    assert block[..8] == block;
    Pow256Values();
  }

  lemma Pow256Grows(i: nat)
    requires i < 8
    ensures Pow256(i + 1) == 256 * Pow256(i) <= U64_LIMIT
  {
    Pow256Values();
    assert Pow256(8) == 256 * Pow256(7) && Pow256(7) == 256 * Pow256(6) && Pow256(6) == 256 * Pow256(5);
    assert Pow256(5) == 256 * Pow256(4) && Pow256(4) == 256 * Pow256(3) && Pow256(3) == 256 * Pow256(2);
  }

  /** The fold is a bijection between blocks of eight bytes and 64-bit numbers. */
  lemma FoldIsBijection(block: bytes, v: nat)
    requires |block| == 8 && v < U64_LIMIT
    ensures FromBe(block) < U64_LIMIT && ToBe(FromBe(block), 8) == block
    ensures |ToBe(v, 8)| == 8 && FromBe(ToBe(v, 8)) == v
  {
    hide FromBe, ToBe, Pow256;
    Pow256Values();
    FromBeBound(block);
    BeRoundTripBytes(block);
    BeRoundTrip(v, 8);
  }

  /** The 64-bit number v picks character c. */
  predicate Picks(v: nat, c: byte) {
    PwdChar(v % PWD_ALL_CHARS_LEN) == c
  }

  predicate HasResidue(v: nat, r: nat) {
    v % 95 == r
  }

  function Residues(n: nat, r: nat): set<nat> {
    set v | 0 <= v < n && HasResidue(v, r)
  }

  /** How many numbers below n leave remainder r. */
  lemma {:induction false} CountResidues(n: nat, r: nat)
    requires r < 95
    ensures |Residues(n, r)| == n / 95 + if r < n % 95 then 1 else 0
  {
    if n == 0 {
      assert Residues(n, r) == {};
    } else {
      var k := n - 1;
      CountResidues(k, r);
      if HasResidue(k, r) {
        assert Residues(n, r) == Residues(k, r) + {k};
      } else {
        assert Residues(n, r) == Residues(k, r);
      }
    }
  }

  function Preimage(c: byte): set<nat> {
    set v | 0 <= v < U64_LIMIT && Picks(v, c)
  }

  /** The simple modular method: every printable character is picked by the floor or the ceiling of 2^64/95 numbers, and
      exactly the first 2^64 mod 95 characters of the table by one more than the others. */
  lemma PreimageCounts(c: byte)
    requires Printable(c)
    ensures |Preimage(c)| == U64_LIMIT / PWD_ALL_CHARS_LEN
                             + if PwdIndex(c) < U64_LIMIT % PWD_ALL_CHARS_LEN then 1 else 0
  {
    hide PwdChar, PwdIndex;
    TableIsBijection(0, c);
    forall v: nat ensures Picks(v, c) <==> HasResidue(v, PwdIndex(c)) {
      TableIsBijection(v % PWD_ALL_CHARS_LEN, c);
    }
    assert Preimage(c) == Residues(U64_LIMIT, PwdIndex(c));
    CountResidues(U64_LIMIT, PwdIndex(c));
  }

  // ----- GetSecurePwd -----

  datatype RC = OK | ERROR | PARAM_INVALID

  /** The password of 8 * n random bytes. */
  function PwdOf(random: bytes, n: nat): (pwd: bytes)
    requires |random| == 8 * n
    ensures |pwd| == n
  {
    seq(n, i requires 0 <= i < n => PwdChar(FromBe(random[8 * i..8 * i + 8]) % PWD_ALL_CHARS_LEN))
  }

  /** What round r produces: GetRand may fail, and the password may have one class only. */
  function Round(random: nat -> Option<bytes>, n: nat, r: nat): Option<bytes> {
    match random(r)
    case None => None
    case Some(bs) => if |bs| == 8 * n && Mixed(PwdOf(bs, n)) then Some(PwdOf(bs, n)) else None
  }

  predicate LengthValid(n: nat) {
    MIN_SECURE_PWD_LEN <= n <= MAX_SECURE_PWD_LEN
  }

  method FillPwd(pwdBuff: array<byte>, enhancedRand: bytes)
    requires |enhancedRand| == 8 * pwdBuff.Length
    modifies pwdBuff
    ensures pwdBuff[..] == PwdOf(enhancedRand, pwdBuff.Length)
  {
    var i := 0;
    while i < pwdBuff.Length
      invariant 0 <= i <= pwdBuff.Length
      invariant forall k :: 0 <= k < i ==> pwdBuff[k] == PwdOf(enhancedRand, pwdBuff.Length)[k]
    {
      var randValue := FoldBlock(enhancedRand[8 * i..8 * i + 8]);
      pwdBuff[i] := PwdChar(randValue % PWD_ALL_CHARS_LEN);
      i := i + 1;
    }
  }

  /** Ends within retryTimes rounds, with the password of the first good round, or with zeros when there is none. random
      gives what GetRand delivers for 8 * length bytes, round by round. */
  method GetSecurePwd(pwdBuff: array<byte>, retryTimes: nat, random: nat -> Option<bytes>)
    returns (rc: RC, ghost rounds: nat)
    requires forall r: nat :: random(r).Some? ==> |random(r).value| == 8 * pwdBuff.Length
    modifies pwdBuff
    ensures rc == PARAM_INVALID <==> !(8 <= pwdBuff.Length <= 32) || retryTimes == 0
    ensures rc == PARAM_INVALID ==> pwdBuff[..] == old(pwdBuff[..])
    ensures rounds <= retryTimes
    ensures forall r: nat :: r < rounds ==> Round(random, pwdBuff.Length, r) == None
    ensures rc == OK ==> rounds < retryTimes && Round(random, pwdBuff.Length, rounds) == Some(pwdBuff[..])
    ensures rc == ERROR ==> rounds == retryTimes && forall i :: 0 <= i < pwdBuff.Length ==> pwdBuff[i] == 0
  {
    hide Mixed, PwdOf;
    rounds := 0;
    var n := pwdBuff.Length;
    if !LengthValid(n) || retryTimes == 0 {
      return PARAM_INVALID, 0;
    }
    var retry := 0;
    while retry < retryTimes
      invariant 0 <= retry <= retryTimes && rounds == retry
      invariant forall r: nat :: r < retry ==> Round(random, n, r) == None
    {
      var enhancedRand := random(retry);
      if enhancedRand.Some? {
        FillPwd(pwdBuff, enhancedRand.value);
        var good := HasMultipleCharTypes(pwdBuff[..]);
        if good {
          return OK, retry;
        }
      }
      retry := retry + 1;
      rounds := retry;
    }
    forall i | 0 <= i < n {
      pwdBuff[i] := 0;
    }
    rc := ERROR;
  }

  /** A password that is handed out is made of printable characters, of at least two classes, and each character is the
      table entry that the remainder of its eight bytes names. */
  lemma GoodRound(random: nat -> Option<bytes>, n: nat, r: nat)
    requires Round(random, n, r).Some?
    ensures var pwd := Round(random, n, r).value;
            && |pwd| == n && Mixed(pwd)
            && random(r).Some? && |random(r).value| == 8 * n
            && (forall i :: 0 <= i < n ==> Printable(pwd[i]))
            && (forall i :: 0 <= i < n ==>
                  PwdIndex(pwd[i]) == FromBe(random(r).value[8 * i..8 * i + 8]) % PWD_ALL_CHARS_LEN)
  {
    hide PwdChar, PwdIndex, Mixed, FromBe;
    var pwd, bs := Round(random, n, r).value, random(r).value;
    forall i | 0 <= i < n
      ensures Printable(pwd[i]) && PwdIndex(pwd[i]) == FromBe(bs[8 * i..8 * i + 8]) % PWD_ALL_CHARS_LEN
    {
      TableIsBijection(FromBe(bs[8 * i..8 * i + 8]) % PWD_ALL_CHARS_LEN, 32);
    }
  }
}
