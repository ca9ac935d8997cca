/** The texts and byte formats by their plain values: alphabets, number texts, names, headers and records. */
module Formats {
  import opened Bytes
  import Base64
  import Str = StrUtils
  import KeyNames
  import JwtToken
  import PM = PskManager
  import Pbkdf2
  import Keytab
  import KeytabFormat
  import SecurePwd
  import LocalTime

  /** The bytes of an ASCII text. */
  function Ascii(s: string): (r: bytes)
    requires forall i :: 0 <= i < |s| ==> s[i] < 128 as char
    ensures |r| == |s| && forall i :: 0 <= i < |s| ==> r[i] == s[i] as int
  {
    seq(|s|, i requires 0 <= i < |s| => s[i] as int)
  }

  // ----- Base64 -----

  /** "A" to "Z", "a" to "z", "0" to "9", "+" and "/". */
  lemma AlphabetIsStandard(v: nat)
    requires v < 64
    ensures v < 26 ==> Base64.Char64(v) == 65 + v
    ensures 26 <= v < 52 ==> Base64.Char64(v) == 97 + (v - 26)
    ensures 52 <= v < 62 ==> Base64.Char64(v) == 48 + (v - 52)
    ensures Base64.Char64(62) == 43 && Base64.Char64(63) == 47 && Base64.PAD == 61
  {
  }

  /** The four characters of a 24-bit number. */
  function Group(n: int): (r: bytes)
    requires 0 <= n < 16777216
    ensures |r| == 4
  {
    [Base64.Char64(n / 262144), Base64.Char64(n / 4096 % 64), Base64.Char64(n / 64 % 64), Base64.Char64(n % 64)]
  }

  function Number(a: int, b: int, c: int): int {
    a * 65536 + b * 256 + c
  }

  /** Section 4 of RFC 4648: three bytes are a 24-bit number, and its four 6-bit digits are the characters; a last group
      of one or two bytes is filled up with zero bits, and its missing characters are "=". */
  lemma EncodesByGroups(x: bytes)
    ensures x == [] ==> Base64.Encode(x) == []
    ensures |x| == 1 ==> Base64.Encode(x) == Group(Number(x[0], 0, 0))[..2] + Ascii("==")
    ensures |x| == 2 ==> Base64.Encode(x) == Group(Number(x[0], x[1], 0))[..3] + Ascii("=")
    ensures |x| >= 3 ==> Base64.Encode(x) == Group(Number(x[0], x[1], x[2])) + Base64.Encode(x[3..])
  {
    hide Base64.Split3, Base64.Chars, Group, Number;
    if |x| >= 3 {
      GroupDigits(x[0], x[1], x[2]);
      FirstGroup(x);
    } else if x != [] {
      LastGroup(x);
    }
  }

  lemma LastGroup(x: bytes)
    requires |x| == 1 || |x| == 2
    ensures Base64.Encode(x)
         == Group(Number(x[0], if |x| == 2 then x[1] else 0, 0))[..|x| + 1]
            + if |x| == 1 then Ascii("==") else Ascii("=")
  {
    hide Base64.Split3, Group, Number;
    var b: byte := if |x| == 2 then x[1] else 0;
    GroupDigits(x[0], b, 0);
    var all := Base64.Split3(x[0], b, 0);
    assert Base64.Values(x) == all[..|x| + 1];
    assert Base64.Chars(all[..|x| + 1]) == Base64.Chars(all)[..|x| + 1];
    assert Base64.Padding(|x|) == if |x| == 1 then Ascii("==") else Ascii("=");
  }

  lemma FirstGroup(x: bytes)
    requires |x| >= 3
    ensures Base64.Encode(x) == Base64.Chars(Base64.Split3(x[0], x[1], x[2])) + Base64.Encode(x[3..])
  {
    hide Base64.Split3, Base64.Chars;
    var first, rest := Base64.Split3(x[0], x[1], x[2]), Base64.Values(x[3..]);
    assert Base64.Values(x) == first + rest;
    CharsOfSum(first, rest);
    assert Base64.Padding(|x|) == Base64.Padding(|x[3..]|);
  }

  lemma CharsOfSum(a: Base64.sextets, b: Base64.sextets)
    ensures Base64.Chars(a + b) == Base64.Chars(a) + Base64.Chars(b)
  {
    hide Base64.Char64, Base64.Finds, Base64.AllAlphabet;
  }

  lemma GroupDigits(a: byte, b: byte, c: byte)
    ensures Base64.Chars(Base64.Split3(a, b, c)) == Group(Number(a, b, c))
  {
    hide Number, Base64.Char64;
    var n := Number(a, b, c);
    NumberBound(a, b, c);
    Digits(a, b, c);
    assert Base64.Split3(a, b, c) == [n / 262144, n / 4096 % 64, n / 64 % 64, n % 64];
  }

  lemma NumberBound(a: byte, b: byte, c: byte)
    ensures 0 <= Number(a, b, c) < 16777216
  {
  }

  lemma Digits(a: int, b: int, c: int)
    requires 0 <= a < 256 && 0 <= b < 256 && 0 <= c < 256
    ensures Number(a, b, c) / 262144 == a / 4 && Number(a, b, c) / 4096 % 64 == a % 4 * 16 + b / 16
    ensures Number(a, b, c) / 64 % 64 == b % 16 * 4 + c / 64 && Number(a, b, c) % 64 == c % 64
  {
    var d0, d1, d2, d3 := a / 4, a % 4 * 16 + b / 16, b % 16 * 4 + c / 64, c % 64;
    assert Number(a, b, c) == ((d0 * 64 + d1) * 64 + d2) * 64 + d3;
    FromDigits(d0, d1, d2, d3);
  }

  lemma FromDigits(d0: int, d1: int, d2: int, d3: int)
    requires 0 <= d0 && 0 <= d1 < 64 && 0 <= d2 < 64 && 0 <= d3 < 64
    ensures var n := ((d0 * 64 + d1) * 64 + d2) * 64 + d3;
            n / 262144 == d0 && n / 4096 % 64 == d1 && n / 64 % 64 == d2 && n % 64 == d3
  {
    var n := ((d0 * 64 + d1) * 64 + d2) * 64 + d3;
    assert n / 64 == (d0 * 64 + d1) * 64 + d2;
    assert n / 4096 == d0 * 64 + d1;
  }

  // ----- Numbers and names -----

  /** A printed number is its decimal digits. */
  lemma DigitsOfPrinted(n: int)
    requires n >= 0
    ensures n < 10 ==> Str.PrintNat(n) == [48 + n]
    ensures n >= 10 ==> Str.PrintNat(n) == Str.PrintNat(n / 10) + [48 + n % 10]
    ensures Str.PrintInt(n) == Str.PrintNat(n) && (n > 0 ==> Str.PrintInt(0 - n) == Ascii("-") + Str.PrintNat(n))
  {
  }

  /** Key 5 of domain 17. */
  lemma KeyNameText()
    ensures KeyNames.KeyName(17, 5) == Ascii("CDF17_Key5")
  {
    assert Str.PrintNat(17) == Ascii("17") && Str.PrintNat(5) == Ascii("5");
  }

  /** The header of a token: number of the algorithm, expiry and creation between these texts. */
  lemma HeaderText(h: JwtToken.Header)
    ensures JwtToken.ToString(h)
         == Ascii("alg: ") + Str.PrintInt(JwtToken.AlgNumber(h.alg)) + Ascii("; expireTime: ") + Str.PrintInt(h.expire)
            + Ascii("; createTime:") + Str.PrintInt(h.create) + Ascii(";")
  {
    hide Str.PrintInt, Ascii, JwtToken.AlgNumber;
    FieldTexts();
    var a, e, t := Str.PrintInt(JwtToken.AlgNumber(h.alg)), Str.PrintInt(h.expire), Str.PrintInt(h.create);
    var semi := [JwtToken.SEMICOLON];
    var p, q, r := JwtToken.ALG + [JwtToken.COLON] + [JwtToken.SPACE],
                   JwtToken.EXPIRE_TIME + [JwtToken.COLON] + [JwtToken.SPACE], JwtToken.CREATE_TIME + [JwtToken.COLON];
    assert JwtToken.ToString(h) == (p + a) + semi + ((q + e) + semi + ((r + t) + semi + []));
  }

  lemma FieldTexts()
    ensures Ascii("alg: ") == JwtToken.ALG + [JwtToken.COLON] + [JwtToken.SPACE]
    ensures Ascii("; expireTime: ")
         == [JwtToken.SEMICOLON] + (JwtToken.EXPIRE_TIME + [JwtToken.COLON] + [JwtToken.SPACE])
    ensures Ascii("; createTime:") == [JwtToken.SEMICOLON] + (JwtToken.CREATE_TIME + [JwtToken.COLON])
    ensures Ascii(";") == [JwtToken.SEMICOLON]
  {
  }

  lemma AlgorithmNumbers()
    ensures JwtToken.AlgNumber(JwtToken.HMAC_SHA256) == 0 && JwtToken.HmacLen(JwtToken.HMAC_SHA256) == 32
    ensures JwtToken.AlgNumber(JwtToken.HMAC_SHA384) == 1 && JwtToken.HmacLen(JwtToken.HMAC_SHA384) == 48
    ensures JwtToken.AlgNumber(JwtToken.HMAC_SHA512) == 2 && JwtToken.HmacLen(JwtToken.HMAC_SHA512) == 64
  {
  }

  /** The token of a credential: up to the first dot the content, after it the metadata text, both in Base64. */
  lemma TokenLayout(c: PM.Codec, psk: PM.Psk)
    ensures var dot := Str.Find(PM.Token(c, psk), Ascii("."));
            && 0 <= dot < |PM.Token(c, psk)|
            && PM.Token(c, psk)[..dot] == Base64.Encode(psk.content)
            && PM.Token(c, psk)[dot + 1..] == Base64.Encode(c.show(psk.meta))
  {
    hide Base64.Encode, Str.Find;
    var p, q, dotText := Base64.Encode(psk.content), Base64.Encode(c.show(psk.meta)), Ascii(".");
    var token := PM.Token(c, psk);
    assert token == p + [PM.DOT] + q && dotText == [PM.DOT];
    JwtToken.AlphabetIsFree(psk.content);
    assert token[|p|] == PM.DOT;
    assert Str.MatchAt(token, dotText, |p|);
    forall k | 0 <= k < |p| ensures !Str.MatchAt(token, dotText, k) {
      assert token[k..k + 1][0] == p[k];
    }
    assert token[..|p|] == p && token[|p| + 1..] == q;
  }

  // ----- Binary formats -----

  /** The output of Pbkdf2Hmac before its Base64 encoding, byte by byte. */
  lemma BlobBytes(kdf: Pbkdf2.Kdf, key: bytes, c: Pbkdf2.Config)
    requires Pbkdf2.RightLength(kdf) && Pbkdf2.Valid(c)
    ensures var b := Pbkdf2.Blob(kdf, key, c);
            && |b| == 7 + c.outLen + |c.salt|
            && b[0] == c.algId
            && b[1] as int * 16777216 + b[2] as int * 65536 + b[3] as int * 256 + b[4] as int == c.iterationTimes
            && b[5] as int * 256 + b[6] as int == c.outLen
            && b[7..7 + c.outLen] == kdf(key, c) && b[7 + c.outLen..] == c.salt
  {
    hide ToBe;
    assert |kdf(key, c)| == c.outLen;
    var b, t, n := Pbkdf2.Blob(kdf, key, c), ToBe(c.iterationTimes, 4), ToBe(c.outLen, 2);
    NumberBytes(c.iterationTimes, c.outLen);
    assert b == [c.algId] + t + n + kdf(key, c) + c.salt;
    assert b[1..5] == t && b[5..7] == n;
    assert b[1] == t[0] && b[2] == t[1] && b[3] == t[2] && b[4] == t[3] && b[5] == n[0] && b[6] == n[1];
  }

  lemma NumberBytes(v: nat, w: nat)
    requires v < 0x1_0000_0000 && w < 0x1_0000
    ensures var t, n := ToBe(v, 4), ToBe(w, 2);
            && t[0] as int * 16777216 + t[1] as int * 65536 + t[2] as int * 256 + t[3] as int == v
            && n[0] as int * 256 + n[1] as int == w
  {
    hide ToBe;
    Pbkdf2.ToBeBytes(v);
    Pbkdf2.ToBeBytes(w);
    FourDigits(v);
  }

  lemma FourDigits(t: nat)
    requires t < 0x1_0000_0000
    ensures t / 0x100_0000 % 256 * 16777216 + t / 0x1_0000 % 256 * 65536 + t / 0x100 % 256 * 256 + t % 256 == t
  {
  }

  /** The valid configurations, in numbers. */
  lemma ConfigLimits(c: Pbkdf2.Config)
    ensures Pbkdf2.Valid(c) <==>
              && c.algId <= 3 && 16 <= |c.salt| <= 64 && 1000 <= c.iterationTimes <= 20000000 && 32 <= c.outLen <= 128
  {
  }

  /** A keytab record: two components "a" and "bc" of realm "R", name type 3, time 260, version 9, key type 17 and a
      key of two bytes. */
  lemma RecordBytes()
    ensures var e := Keytab.Entry(Keytab.Principal(Ascii("R"), [Ascii("a"), Ascii("bc")], 3), 260, 9, 17, [7, 8]);
            && KeytabFormat.ValidEntry(e)
            && KeytabFormat.ContentBytes(e, 9)
            == [0, 2] + [0, 1, 82] + [0, 1, 97] + [0, 2, 98, 99] + [0, 0, 0, 3] + [0, 0, 1, 4] + [9] + [0, 17]
               + [0, 2, 7, 8]
  {
    hide KeytabFormat.I16Bytes, KeytabFormat.I32Bytes, KeytabFormat.ComponentsBytes;
    ShortNumbers();
    LongNumbers();
    ComponentBytes();
    PrincipalBytes();
    assert Ascii("R") == [82] && KeytabFormat.CountedBytes([7, 8]) == [0, 2, 7, 8];
  }

  lemma PrincipalBytes()
    ensures var p := Keytab.Principal(Ascii("R"), [Ascii("a"), Ascii("bc")], 3);
            && KeytabFormat.ValidPrincipal(p)
            && KeytabFormat.PrincipalBytes(p)
            == [0, 2] + [0, 1, 82] + [0, 1, 97] + [0, 2, 98, 99] + [0, 0, 0, 3]
  {
    hide KeytabFormat.I16Bytes, KeytabFormat.I32Bytes, KeytabFormat.ComponentsBytes;
    ShortNumbers();
    LongNumbers();
    ComponentBytes();
    assert Ascii("R") == [82] && KeytabFormat.CountedBytes([82]) == [0, 1, 82];
  }

  lemma ComponentBytes()
    ensures KeytabFormat.ComponentsBytes([Ascii("a"), Ascii("bc")]) == [0, 1, 97] + [0, 2, 98, 99]
  {
    hide KeytabFormat.I16Bytes;
    ShortNumbers();
    var cs: seq<bytes> := [Ascii("a"), Ascii("bc")];
    assert cs[1..] == [Ascii("bc")] && cs[1..][1..] == [];
    assert Ascii("a") == [97] && Ascii("bc") == [98, 99];
    assert KeytabFormat.ComponentsBytes(cs[1..]) == [0, 2, 98, 99];
  }

  lemma ShortNumbers()
    ensures KeytabFormat.I16Bytes(1) == [0, 1] && KeytabFormat.I16Bytes(2) == [0, 2]
    ensures KeytabFormat.I16Bytes(17) == [0, 17] && KeytabFormat.I16Bytes(-2) == [255, 254]
  {
    Pbkdf2.ToBeBytes(1);
    Pbkdf2.ToBeBytes(2);
    Pbkdf2.ToBeBytes(17);
    Pbkdf2.ToBeBytes(65534);
  }

  lemma LongNumbers()
    ensures KeytabFormat.I32Bytes(3) == [0, 0, 0, 3] && KeytabFormat.I32Bytes(260) == [0, 0, 1, 4]
    ensures KeytabFormat.I32Bytes(-2) == [255, 255, 255, 254]
  {
    hide ToBe;
    Pbkdf2.ToBeBytes(3);
    Pbkdf2.ToBeBytes(260);
    Pbkdf2.ToBeBytes(4294967294);
  }

  // ----- Tables -----

  const PWD_SPECIALS := "`~!@#$%^&*()-_=+\\|[]{};:'\" ,<.>/?"

  /** "0" to "9", "a" to "z", "A" to "Z", and the others in this order. */
  lemma PasswordTable(i: nat)
    requires i < 95
    ensures i < 10 ==> SecurePwd.PwdChar(i) == 48 + i
    ensures 10 <= i < 36 ==> SecurePwd.PwdChar(i) == 97 + (i - 10)
    ensures 36 <= i < 62 ==> SecurePwd.PwdChar(i) == 65 + (i - 36)
    ensures |PWD_SPECIALS| == 33 && (i >= 62 ==> SecurePwd.PwdChar(i) == PWD_SPECIALS[i - 62] as int)
  {
    if i >= 62 {
      SpecialText(i - 62);
    }
  }

  lemma SpecialText(j: nat)
    requires j < 33
    ensures SecurePwd.SPECIALS[j] == PWD_SPECIALS[j] as int
  {
  }

  lemma MonthTable(y: int, m: int)
    ensures m in {1, 3, 5, 7, 8, 10, 12} ==> LocalTime.DaysInMonth(y, m) == 31
    ensures m in {4, 6, 9, 11} ==> LocalTime.DaysInMonth(y, m) == 30
    ensures LocalTime.DaysInMonth(y, 2) == if y % 4 == 0 && (y % 100 != 0 || y % 400 == 0) then 29 else 28
  {
    LocalTime.LeapSteps(y);
  }

  /** The next second on the calendar. */
  function Tick(t: LocalTime.Time): LocalTime.Time {
    if t.sec < 59 then t.(sec := t.sec + 1)
    else if t.min < 59 then t.(min := t.min + 1, sec := 0)
    else if t.hour < 23 then t.(hour := t.hour + 1, min := 0, sec := 0)
    else if t.day < LocalTime.DaysInMonth(t.year, t.month) then t.(day := t.day + 1, hour := 0, min := 0, sec := 0)
    else if t.month < 12 then t.(month := t.month + 1, day := 1, hour := 0, min := 0, sec := 0)
    else LocalTime.Time(t.year + 1, 1, 1, 0, 0, 0)
  }

  /** It is one more on the count of seconds, over month and year ends, for all valid times. */
  lemma TickIsOneSecond(t: LocalTime.Time)
    requires LocalTime.Valid(t)
    ensures LocalTime.Valid(Tick(t)) && LocalTime.Instant(Tick(t)) == LocalTime.Instant(t) + 1
  {
    hide LocalTime.DayNumber;
    NextDay(t.year, t.month, t.day);
  }

  lemma NextDay(y: int, m: int, d: int)
    requires 1 <= m <= 12
    ensures LocalTime.DayNumber(y, m, d + 1) == LocalTime.DayNumber(y, m, d) + 1
    ensures m < 12 ==>
              LocalTime.DayNumber(y, m + 1, 1) == LocalTime.DayNumber(y, m, LocalTime.DaysInMonth(y, m)) + 1
    ensures LocalTime.DayNumber(y + 1, 1, 1) == LocalTime.DayNumber(y, 12, 31) + 1
  {
    hide LocalTime.DaysBeforeYear;
    LocalTime.YearLength(y);
    assert LocalTime.DaysBeforeMonth(y, 13) == LocalTime.DaysBeforeMonth(y, 12) + 31;
  }
}
