/** src/cdf/utils/str_utils.h: splitting and decimal numbers, as the token, header and key-name parsers use them. */
module StrUtils {
  import opened Bytes

  // ----- Split -----

  predicate MatchAt(src: bytes, sep: bytes, k: int) {
    0 <= k <= |src| - |sep| && src[k..k + |sep|] == sep
  }

  lemma MatchTail(src: bytes, sep: bytes)
    requires src != []
    ensures forall k :: MatchAt(src, sep, k) && k >= 1 ==> MatchAt(src[1..], sep, k - 1)
    ensures forall k :: MatchAt(src[1..], sep, k) ==> MatchAt(src, sep, k + 1)
  {
    forall k | MatchAt(src, sep, k) && k >= 1 ensures MatchAt(src[1..], sep, k - 1) {
      assert src[1..][k - 1..k - 1 + |sep|] == src[k..k + |sep|];
    }
    forall k | MatchAt(src[1..], sep, k) ensures MatchAt(src, sep, k + 1) {
      assert src[k + 1..k + 1 + |sep|] == src[1..][k..k + |sep|];
    }
  }

  /** src.find(sep): the first match, or -1 for npos. */
  function Find(src: bytes, sep: bytes): (r: int)
    ensures r == -1 || MatchAt(src, sep, r)
    ensures forall k :: MatchAt(src, sep, k) ==> r != -1 && r <= k
  {
    if MatchAt(src, sep, 0) then 0
    else if src == [] then -1
    else
      var r := Find(src[1..], sep);
      MatchTail(src, sep);
      if r == -1 then -1 else r + 1
  }

  /** The pieces between separators; a last empty piece is dropped. */
  function Split(src: bytes, sep: bytes): seq<bytes>
    decreases |src|
  {
    if sep == [] then []
    else
      var q := Find(src, sep);
      if q == -1 then (if src == [] then [] else [src])
      else [src[..q]] + Split(src[q + |sep|..], sep)
  }

  lemma SplitLast(rest: bytes, sep: bytes)
    requires sep != [] && Find(rest, sep) == -1
    ensures Split(rest, sep) == if rest == [] then [] else [rest]
  {
  }

  /** One round of the loop: the text from pos1 on loses its first piece. */
  lemma SplitStep(src: bytes, sep: bytes, pos1: nat, rest: bytes, f: nat)
    requires sep != [] && pos1 <= |src| && rest == src[pos1..] && Find(rest, sep) == f
    ensures pos1 + f + |sep| <= |src|
    ensures Split(rest, sep) == [src[pos1..pos1 + f]] + Split(src[pos1 + f + |sep|..], sep)
  {
    hide Find;
    assert rest[..f] == src[pos1..pos1 + f];
    assert rest[f + |sep|..] == src[pos1 + f + |sep|..];
  }

  method SplitInto(src: bytes, sep: bytes, out: seq<bytes>) returns (res: seq<bytes>)
    ensures res == out + Split(src, sep)
  {
    hide Split, Find;
    res := out;
    if sep == [] {
      assert Split(src, sep) == [] by { SplitNoSep(src); }
      return;
    }
    var pos1 := 0;
    var f := Find(src, sep);
    assert src[0..] == src;
    while f != -1
      invariant 0 <= pos1 <= |src|
      invariant f == Find(src[pos1..], sep)
      invariant out + Split(src, sep) == res + Split(src[pos1..], sep)
      decreases |src| - pos1
    {
      SplitStep(src, sep, pos1, src[pos1..], f);
      var pos2 := pos1 + f;
      res := res + [src[pos1..pos2]];
      pos1 := pos2 + |sep|;
      f := Find(src[pos1..], sep);
    }
    SplitLast(src[pos1..], sep);
    if pos1 != |src| {
      res := res + [src[pos1..]];
    }
  }

  lemma SplitNoSep(src: bytes)
    ensures Split(src, []) == []
  {
  }

  predicate Free(s: bytes, c: byte) {
    forall k :: 0 <= k < |s| ==> s[k] != c
  }

  /** A piece without the separator, the separator, and more text. */
  lemma SplitCons(p: bytes, c: byte, rest: bytes)
    requires Free(p, c)
    ensures Split(p + [c] + rest, [c]) == [p] + Split(rest, [c])
  {
    var src := p + [c] + rest;
    assert MatchAt(src, [c], |p|);
    forall k | MatchAt(src, [c], k) ensures k >= |p| {
      assert src[k..k + 1][0] == src[k];
    }
    assert Find(src, [c]) == |p|;
    assert src[..|p|] == p && src[|p| + 1..] == rest;
  }

  /** A text without the separator is its own only piece, or no piece when it is empty. */
  lemma SplitOne(p: bytes, c: byte)
    requires Free(p, c)
    ensures Split(p, [c]) == if p == [] then [] else [p]
  {
    if Find(p, [c]) != -1 {
      assert p[Find(p, [c])..Find(p, [c]) + 1] == [p[Find(p, [c])]];
    }
  }

  function Join(pieces: seq<bytes>, c: byte): bytes {
    if pieces == [] then []
    else if |pieces| == 1 then pieces[0]
    else pieces[0] + [c] + Join(pieces[1..], c)
  }

  /** Splitting undoes joining when no piece holds the separator and the last piece is not empty. */
  lemma {:induction false} SplitJoin(pieces: seq<bytes>, c: byte)
    requires forall k :: 0 <= k < |pieces| ==> Free(pieces[k], c)
    requires pieces != [] ==> pieces[|pieces| - 1] != []
    ensures Split(Join(pieces, c), [c]) == pieces
  {
    if pieces == [] {
      SplitOne([], c);
    } else if |pieces| == 1 {
      SplitOne(pieces[0], c);
    } else {
      SplitJoin(pieces[1..], c);
      SplitCons(pieces[0], c, Join(pieces[1..], c));
    }
  }

  /** Joining undoes splitting exactly when the text does not end with the separator; otherwise that last separator
      is the only thing lost. */
  lemma {:induction false} JoinSplit(src: bytes, c: byte)
    ensures Join(Split(src, [c]), c) + (if src != [] && src[|src| - 1] == c then [c] else []) == src
    decreases |src|
  {
    hide Find, Split, Join;
    var q := Find(src, [c]);
    if q == -1 {
      JoinSplitLast(src, c);
    } else {
      var p, rest := src[..q], src[q + 1..];
      assert src[q..q + 1][0] == src[q];
      JoinSplit(rest, c);
      assert src[0..] == src && src[0..q] == p;
      SplitStep(src, [c], 0, src, q);
      SplitEmpty(rest, [c]);
      JoinSplitCons(src, p, rest, c, Split(rest, [c]));
    }
  }

  lemma JoinSplitLast(src: bytes, c: byte)
    requires Find(src, [c]) == -1
    ensures Join(Split(src, [c]), c) + (if src != [] && src[|src| - 1] == c then [c] else []) == src
  {
    hide Find, Split;
    SplitLast(src, [c]);
    assert src != [] && src[|src| - 1] == c ==> MatchAt(src, [c], |src| - 1);
  }

  lemma SplitEmpty(src: bytes, sep: bytes)
    requires sep != []
    ensures Split(src, sep) == [] <==> src == []
  {
    hide Find;
  }

  lemma JoinSplitCons(src: bytes, p: bytes, rest: bytes, c: byte, pieces: seq<bytes>)
    requires src == p + [c] + rest && (pieces == [] <==> rest == [])
    requires Join(pieces, c) + (if rest != [] && rest[|rest| - 1] == c then [c] else []) == rest
    ensures Join([p] + pieces, c) + (if src[|src| - 1] == c then [c] else []) == src
  {
    assert ([p] + pieces)[1..] == pieces;
  }

  // ----- Decimal numbers -----

  predicate IsSpace(c: byte) {
    c == 32 || 9 <= c <= 13
  }

  predicate IsDigit(c: byte) {
    '0' as int <= c <= '9' as int
  }

  predicate AllDigits(s: bytes) {
    forall k :: 0 <= k < |s| ==> IsDigit(s[k])
  }

  function LeadingDigits(s: bytes): (n: nat)
    ensures n <= |s|
    ensures forall k :: 0 <= k < n ==> IsDigit(s[k])
    ensures n < |s| ==> !IsDigit(s[n])
  {
    if s == [] || !IsDigit(s[0]) then 0 else 1 + LeadingDigits(s[1..])
  }

  function Value(ds: bytes): int {
    if ds == [] then 0 else Value(ds[..|ds| - 1]) * 10 + ds[|ds| - 1] - '0' as int
  }

  function ParseNat(s: bytes): Option<int> {
    var n := LeadingDigits(s);
    if n == 0 then None else Some(Value(s[..n]))
  }

  /** What std::stol, std::stoi and std::stoll read: white space, an optional sign, digits; anything may follow.
      None is the invalid_argument exception. */
  function ParseInt(s: bytes): Option<int>
    decreases |s|
  {
    if s != [] && IsSpace(s[0]) then ParseInt(s[1..])
    else if s != [] && s[0] == '-' as int then
      match ParseNat(s[1..]) case Some(v) => Some(-v) case None => None
    else if s != [] && s[0] == '+' as int then ParseNat(s[1..])
    else ParseNat(s)
  }

  /** A parser with the range check of its target type; None is its false result. */
  function ParseInRange(s: bytes, lo: int, hi: int): Option<int> {
    match ParseInt(s)
    case None => None
    case Some(v) => if lo <= v <= hi then Some(v) else None
  }

  function StrToInt(s: bytes): Option<int> {
    ParseInRange(s, -I32_LIMIT, I32_LIMIT - 1)
  }

  function StrToInt64(s: bytes): Option<int> {
    ParseInRange(s, -I64_LIMIT, I64_LIMIT - 1)
  }

  function StrToU32(s: bytes): Option<int> {
    ParseInRange(s, 0, U32_LIMIT - 1)
  }

  /** What operator<< prints. */
  function PrintNat(n: nat): (s: bytes)
    ensures s != [] && AllDigits(s)
  {
    if n < 10 then [n + '0' as int] else PrintNat(n / 10) + [n % 10 + '0' as int]
  }

  function PrintInt(v: int): (s: bytes)
    ensures s != []
    ensures forall k :: 0 <= k < |s| ==> IsDigit(s[k]) || s[k] == '-' as int
  {
    if v < 0 then ['-' as int] + PrintNat(-v) else PrintNat(v)
  }

  lemma {:induction false} ValuePrinted(n: nat)
    ensures Value(PrintNat(n)) == n
  {
    if n < 10 {
    } else {
      ValuePrinted(n / 10);
      assert PrintNat(n)[..|PrintNat(n)| - 1] == PrintNat(n / 10);
    }
  }

  lemma DigitsRead(digits: bytes, rest: bytes)
    requires digits != [] && AllDigits(digits) && (rest != [] ==> !IsDigit(rest[0]))
    ensures ParseNat(digits + rest) == Some(Value(digits))
  {
    hide Value;
    var s := digits + rest;
    assert forall k :: 0 <= k < |digits| ==> s[k] == digits[k];
    assert |s| > |digits| ==> s[|digits|] == rest[0];
    assert LeadingDigits(s) == |digits| && s[..|digits|] == digits;
  }

  lemma ParseNatPrinted(n: nat, rest: bytes)
    requires rest != [] ==> !IsDigit(rest[0])
    ensures ParseNat(PrintNat(n) + rest) == Some(n)
  {
    hide ParseNat;
    DigitsRead(PrintNat(n), rest);
    ValuePrinted(n);
  }

  /** Reading a printed number gives the number, whatever non-digit text follows. */
  lemma ParsePrinted(v: int, rest: bytes)
    requires rest != [] ==> !IsDigit(rest[0])
    ensures ParseInt(PrintInt(v) + rest) == Some(v)
  {
    hide PrintNat, ParseNat, IsSpace, IsDigit, ParseInt;
    var n := if v < 0 then -v else v;
    var s := PrintInt(v) + rest;
    ParseNatPrinted(n, rest);
    if v < 0 {
      DigitFacts('-' as int);
      assert s[1..] == PrintNat(n) + rest;
    } else {
      DigitFacts(PrintNat(n)[0]);
      assert s[0] == PrintNat(n)[0];
    }
    ParseIntUnfold(s);
  }

  /** The parsers read a printed number back exactly when it is in the range of their type, and otherwise refuse it. */
  lemma ParsersReadPrinted(v: int, rest: bytes)
    requires rest != [] ==> !IsDigit(rest[0])
    ensures StrToInt(PrintInt(v) + rest) == if -I32_LIMIT <= v < I32_LIMIT then Some(v) else None
    ensures StrToInt64(PrintInt(v) + rest) == if -I64_LIMIT <= v < I64_LIMIT then Some(v) else None
    ensures StrToU32(PrintInt(v) + rest) == if 0 <= v < U32_LIMIT then Some(v) else None
  {
    hide PrintInt, ParseInt;
    ParsePrinted(v, rest);
  }

  lemma ParseIntUnfold(s: bytes)
    requires s != [] && !IsSpace(s[0]) && s[0] != '+' as int
    ensures s[0] != '-' as int ==> ParseInt(s) == ParseNat(s)
    ensures s[0] == '-' as int && ParseNat(s[1..]).Some? ==> ParseInt(s) == Some(-ParseNat(s[1..]).value)
  {
    hide ParseNat;
  }

  /** A white-space character in front is skipped. */
  lemma ParseSkipsSpace(s: bytes)
    ensures ParseInt([32] + s) == ParseInt(s)
  {
    hide ParseNat;
    assert ([32] + s)[1..] == s;
  }

  lemma DigitFacts(c: byte)
    ensures IsDigit(c) ==> !IsSpace(c) && c != '-' as int && c != '+' as int
    ensures IsSpace(32) && !IsSpace('-' as int)
  {
  }

  // ----- What reads as a number -----

  /** White space, an optional sign, the longest run of digits, and anything else. */
  predicate Reads(s: bytes, space: bytes, sign: bytes, digits: bytes, rest: bytes) {
    && s == space + sign + digits + rest
    && (forall k :: 0 <= k < |space| ==> space[k] in {9, 10, 11, 12, 13, 32})
    && (sign == [] || sign == [43] || sign == [45])
    && digits != [] && (forall k :: 0 <= k < |digits| ==> 48 <= digits[k] <= 57)
    && (rest != [] ==> !(48 <= rest[0] <= 57))
  }

  /** A text reads as a number exactly if it has this form, and then as the number of its digits with its sign. */
  lemma ReadsExactly(s: bytes, v: int)
    ensures ParseInt(s) == Some(v) <==>
              exists space, sign, digits, rest ::
                Reads(s, space, sign, digits, rest) && v == if sign == [45] then -Value(digits) else Value(digits)
  {
    hide ParseInt, Reads, Value;
    if ParseInt(s) == Some(v) {
      var space, sign, digits, rest := Parts(s);
    }
    forall space, sign, digits, rest | Reads(s, space, sign, digits, rest)
      ensures ParseInt(s) == Some(if sign == [45] then -Value(digits) else Value(digits))
    {
      PartsRead(s, space, sign, digits, rest);
    }
  }

  lemma {:induction false} Parts(s: bytes) returns (space: bytes, sign: bytes, digits: bytes, rest: bytes)
    requires ParseInt(s).Some?
    ensures Reads(s, space, sign, digits, rest)
    ensures ParseInt(s) == Some(if sign == [45] then -Value(digits) else Value(digits))
    decreases |s|
  {
    hide Value;
    if s != [] && IsSpace(s[0]) {
      space, sign, digits, rest := Parts(s[1..]);
      space := [s[0]] + space;
    } else {
      space := [];
      sign := if s != [] && (s[0] == 45 || s[0] == 43) then [s[0]] else [];
      var n := LeadingDigits(s[|sign|..]);
      digits, rest := s[|sign|..][..n], s[|sign|..][n..];
    }
  }

  lemma {:induction false} PartsRead(s: bytes, space: bytes, sign: bytes, digits: bytes, rest: bytes)
    requires Reads(s, space, sign, digits, rest)
    ensures ParseInt(s) == Some(if sign == [45] then -Value(digits) else Value(digits))
    decreases |s|
  {
    hide Value, ParseNat, LeadingDigits;
    if space != [] {
      assert s[1..] == space[1..] + sign + digits + rest && s[0] == space[0];
      PartsRead(s[1..], space[1..], sign, digits, rest);
    } else {
      var t := digits + rest;
      assert s == sign + t && s[|sign|..] == t && t[0] == digits[0];
      DigitsRead(digits, rest);
    }
  }
}
