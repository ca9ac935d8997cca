/** Key names of the external store: "CDF<domain>_Key<key>", printed by openbao_key_manager.cpp and parsed by
    StrDecodeToDomainIdKeyId in openbao_utils.cpp. */
module KeyNames {
  import opened Bytes
  import opened StrUtils

  const CDF: bytes := ['C' as int, 'D' as int, 'F' as int]
  const KEY: bytes := ['_' as int, 'K' as int, 'e' as int, 'y' as int]
  const UNDERSCORE: byte := '_' as int

  function KeyName(d: nat, k: nat): bytes {
    CDF + PrintNat(d) + KEY + PrintNat(k)
  }

  /** Result codes 0, 1 and -1 of StrDecodeToDomainIdKeyId, and the std::out_of_range exception that substr throws when
      fewer than three characters follow the underscore. */
  datatype Parsed = Pair(d: nat, k: nat) | NotOurs | Bad | Throws

  /** str.find('_', from). */
  function FindFrom(s: bytes, from: nat): int {
    if from > |s| then -1 else
      var r := Find(s[from..], [UNDERSCORE]);
      if r == -1 then -1 else from + r
  }

  function ParseName(s: bytes): Parsed {
    var end := FindFrom(s, 3);
    if end == -1 then NotOurs
    else match StrToU32(s[3..end])
      case None => Bad
      case Some(d) =>
        if end + 4 > |s| then Throws
        else match StrToU32(s[end + 4..])
          case None => Bad
          case Some(k) => Pair(d, k)
  }

  lemma DigitsFreeOfUnderscore(s: bytes)
    requires AllDigits(s)
    ensures Free(s, UNDERSCORE)
  {
  }

  /** Parsing a printed name gives the two numbers back, for all 32-bit numbers. */
  lemma ParsePrintedName(d: nat, k: nat)
    requires d < U32_LIMIT && k < U32_LIMIT
    ensures ParseName(KeyName(d, k)) == Pair(d, k)
  {
    hide PrintNat, ParseInt, Find;
    var s := KeyName(d, k);
    var n := PrintNat(d);
    var rest := s[3..];
    assert rest == n + KEY + PrintNat(k);
    DigitsFreeOfUnderscore(n);
    FindInRest(rest, n, KEY[1..] + PrintNat(k));
    assert s[3..3 + |n|] == n + [];
    assert s[3 + |n| + 4..] == PrintNat(k) + [];
    ParsePrinted(d, []);
    ParsePrinted(k, []);
  }

  lemma FindInRest(rest: bytes, n: bytes, after: bytes)
    requires Free(n, UNDERSCORE) && rest == n + [UNDERSCORE] + after
    ensures Find(rest, [UNDERSCORE]) == |n|
  {
    hide Find;
    assert MatchAt(rest, [UNDERSCORE], |n|);
    var f := Find(rest, [UNDERSCORE]);
    assert rest[f..f + 1][0] == rest[f];
  }

  /** Distinct keys have distinct names. */
  lemma KeyNameInjective(d: nat, k: nat, d': nat, k': nat)
    requires d < U32_LIMIT && k < U32_LIMIT && d' < U32_LIMIT && k' < U32_LIMIT
    requires KeyName(d, k) == KeyName(d', k')
    ensures d == d' && k == k'
  {
    ParsePrintedName(d, k);
    ParsePrintedName(d', k');
  }

  // ----- The text that makes an output count as a failure -----

  const ERROR_TEXT: bytes := ['E' as int, 'r' as int, 'r' as int, 'o' as int, 'r' as int]

  /** RunCommandAndGetResult takes every output that contains "Error" for a failure. */
  predicate SaysError(text: bytes) {
    Find(text, ERROR_TEXT) != -1
  }

  lemma ErrorNeedsE(text: bytes)
    ensures SaysError(text) ==> 'E' as int in text
  {
    if SaysError(text) {
      var i := Find(text, ERROR_TEXT);
      assert text[i..i + |ERROR_TEXT|][0] == text[i];
    }
  }

  lemma FoundUnderscore(text: bytes)
    ensures Find(text, [UNDERSCORE]) != -1 ==> UNDERSCORE in text
  {
    hide Find;
    var i := Find(text, [UNDERSCORE]);
    if i != -1 {
      assert text[i..i + 1][0] == text[i];
    }
  }

  lemma ErrorAtIsSaid(text: bytes, i: nat)
    requires MatchAt(text, ERROR_TEXT, i)
    ensures SaysError(text)
  {
  }

  /** No name of ours contains it. */
  lemma OwnNameSaysNoError(d: nat, k: nat)
    ensures !SaysError(KeyName(d, k))
  {
    hide SaysError, PrintNat;
    ErrorNeedsE(KeyName(d, k));
  }

  // ----- Foreign names -----

  /** The name has the shape that is accepted: three bytes, a number's text without an underscore, an underscore and
      three bytes, a number's text. */
  predicate Shaped(n: bytes, p: bytes, a: bytes, sep: bytes, b: bytes, d: nat, k: nat) {
    && n == p + a + sep + b && |p| == 3 && Free(a, UNDERSCORE) && |sep| == 4 && sep[0] == UNDERSCORE
    && StrToU32(a) == Some(d) && StrToU32(b) == Some(k)
  }

  /** Exactly the names of that shape are taken for keys: neither the prefix nor what follows the underscore is
      compared. */
  lemma AcceptedExactly(n: bytes, d: nat, k: nat)
    ensures ParseName(n) == Pair(d, k) <==> exists p, a, sep, b :: Shaped(n, p, a, sep, b, d, k)
  {
    hide Find, StrToU32;
    if ParseName(n) == Pair(d, k) {
      var end := FindFrom(n, 3);
      assert n[3..][end - 3..end - 2][0] == n[end];
      forall i | 3 <= i < end ensures n[i] != UNDERSCORE {
        assert n[3..][i - 3..i - 2] == [n[i]];
        assert MatchAt(n[3..], [UNDERSCORE], i - 3) <==> n[i] == UNDERSCORE;
      }
      assert Shaped(n, n[..3], n[3..end], n[end..end + 4], n[end + 4..], d, k);
    }
    forall p, a, sep, b | Shaped(n, p, a, sep, b, d, k) ensures ParseName(n) == Pair(d, k) {
      ShapedIsAccepted(n, p, a, sep, b, d, k);
    }
  }

  /** The name splits into three bytes, a text without an underscore, and the rest from the first underscore on. */
  predicate Cut(n: bytes, p: bytes, a: bytes, rest: bytes) {
    n == p + a + rest && |p| == 3 && Free(a, UNDERSCORE) && rest != [] && rest[0] == UNDERSCORE
  }

  /** Every other name is skipped if and only if no underscore follows the first three bytes. Else it ends the parsing,
      with an exception if and only if fewer than three bytes follow the underscore of a number. */
  lemma RefusedExactly(n: bytes)
    ensures ParseName(n) == NotOurs <==> |n| < 3 || Free(n[3..], UNDERSCORE)
    ensures ParseName(n) == Bad <==>
              exists p, a, rest ::
                Cut(n, p, a, rest) && (StrToU32(a) == None || (|rest| >= 4 && StrToU32(rest[4..]) == None))
    ensures ParseName(n) == Throws <==>
              exists p, a, rest :: Cut(n, p, a, rest) && StrToU32(a) != None && |rest| < 4
  {
    hide FindFrom, ParseName, StrToU32, Cut;
    CutsAt(n);
    forall p, a, rest | Cut(n, p, a, rest)
      ensures ParseName(n) == CutParse(a, rest)
    {
      ParsesByCut(n, p, a, rest);
    }
  }

  /** The result of parsing, from the parts. */
  function CutParse(a: bytes, rest: bytes): Parsed {
    if StrToU32(a) == None then Bad
    else if |rest| < 4 then Throws
    else if StrToU32(rest[4..]) == None then Bad
    else Pair(StrToU32(a).value, StrToU32(rest[4..]).value)
  }

  lemma ParsesByCut(n: bytes, p: bytes, a: bytes, rest: bytes)
    requires Cut(n, p, a, rest)
    ensures ParseName(n) == CutParse(a, rest)
  {
    hide Find, StrToU32;
    FindInRest(n[3..], a, rest[1..]);
    assert n[3..] == a + [UNDERSCORE] + rest[1..];
    assert n[3..3 + |a|] == a && (|rest| >= 4 ==> n[3 + |a| + 4..] == rest[4..]);
  }

  lemma CutsAt(n: bytes)
    ensures if |n| < 3 || Free(n[3..], UNDERSCORE) then ParseName(n) == NotOurs
            else exists p, a, rest :: Cut(n, p, a, rest)
  {
    hide Find, StrToU32;
    if |n| >= 3 {
      FoundUnderscore(n[3..]);
      var end := FindFrom(n, 3);
      if end == -1 {
        FreeIfNotFound(n[3..]);
      } else {
        assert n[3..][end - 3..end - 2][0] == n[end];
        forall i | 3 <= i < end ensures n[i] != UNDERSCORE {
          assert n[3..][i - 3..i - 2] == [n[i]];
          assert MatchAt(n[3..], [UNDERSCORE], i - 3) <==> n[i] == UNDERSCORE;
        }
        assert Cut(n, n[..3], n[3..end], n[end..]);
      }
    }
  }

  lemma FreeIfNotFound(text: bytes)
    requires Find(text, [UNDERSCORE]) == -1
    ensures Free(text, UNDERSCORE)
  {
    hide Find;
    forall i | 0 <= i < |text| ensures text[i] != UNDERSCORE {
      assert text[i..i + 1] == [text[i]];
      assert MatchAt(text, [UNDERSCORE], i) <==> text[i] == UNDERSCORE;
    }
  }

  lemma ShapedIsAccepted(n: bytes, p: bytes, a: bytes, sep: bytes, b: bytes, d: nat, k: nat)
    requires Shaped(n, p, a, sep, b, d, k)
    ensures ParseName(n) == Pair(d, k)
  {
    hide Find, StrToU32;
    FindInRest(n[3..], a, sep[1..] + b);
    assert n[3..] == a + [UNDERSCORE] + (sep[1..] + b);
    assert n[3..3 + |a|] == a && n[3 + |a| + 4..] == b;
  }

  /** Any three bytes may stand for the prefix, and any three after the underscore, for all 32-bit numbers. */
  lemma ForeignNameIsAccepted(p: bytes, sep: bytes, d: nat, k: nat)
    requires |p| == 3 && |sep| == 4 && sep[0] == UNDERSCORE && d < U32_LIMIT && k < U32_LIMIT
    ensures ParseName(p + PrintNat(d) + sep + PrintNat(k)) == Pair(d, k)
  {
    hide PrintNat, ParseInt;
    DigitsFreeOfUnderscore(PrintNat(d));
    ParsePrinted(d, []);
    ParsePrinted(k, []);
    assert PrintNat(d) + [] == PrintNat(d) && PrintNat(k) + [] == PrintNat(k);
    ShapedIsAccepted(p + PrintNat(d) + sep + PrintNat(k), p, PrintNat(d), sep, PrintNat(k), d, k);
  }
}
