/** src/cdf/utils/base64.cpp and base64.h: the encoder and decoder loops, proved against a two-layer specification
    (bytes to 6-bit values, values to characters), and the laws of sections 3.5 and 4 of RFC 4648.
    Masks and shifts on unsigned char are written as division and remainder. */
module Base64 {
  import opened Bytes

  const PAD: byte := '=' as int
  const NOT_FOUND: byte := 255   // std::string_view::npos stored in an unsigned char

  type sextet = x: int | 0 <= x < 64
  type sextets = seq<sextet>

  // ----- Characters -----

  /** BASE64_CHARS[v]. */
  function Char64(v: sextet): byte {
    if v < 26 then v + 'A' as int
    else if v < 52 then v - 26 + 'a' as int
    else if v < 62 then v - 52 + '0' as int
    else if v == 62 then '+' as int
    else '/' as int
  }

  /** isalnum (in the "C" locale) or one of the two extra symbols. */
  predicate IsBase64(c: byte) {
    || 'A' as int <= c <= 'Z' as int
    || 'a' as int <= c <= 'z' as int
    || '0' as int <= c <= '9' as int
    || c == '+' as int
    || c == '/' as int
  }

  /** BASE64_CHARS.find(c), truncated to one byte. */
  function Find64(c: byte): byte {
    if 'A' as int <= c <= 'Z' as int then c - 'A' as int
    else if 'a' as int <= c <= 'z' as int then c - 'a' as int + 26
    else if '0' as int <= c <= '9' as int then c - '0' as int + 52
    else if c == '+' as int then 62
    else if c == '/' as int then 63
    else NOT_FOUND
  }

  /** The alphabet and its search are inverse, and the search fails exactly off the alphabet. */
  lemma TableInverse(v: sextet, c: byte)
    ensures IsBase64(Char64(v)) && Find64(Char64(v)) == v
    ensures IsBase64(c) <==> Find64(c) < 64
    ensures IsBase64(c) ==> Char64(Find64(c)) == c
    ensures !IsBase64(c) <==> Find64(c) == NOT_FOUND
  {
  }

  predicate AllAlphabet(s: bytes) {
    forall k :: 0 <= k < |s| ==> IsBase64(s[k])
  }

  function Chars(vs: sextets): (r: bytes)
    ensures |r| == |vs| && AllAlphabet(r)
    ensures Finds(r) == vs
  {
    seq(|vs|, k requires 0 <= k < |vs| => Char64(vs[k]))
  }

  function Finds(s: bytes): (vs: sextets)
    requires AllAlphabet(s)
    ensures |vs| == |s| && forall k :: 0 <= k < |s| ==> vs[k] == Find64(s[k])
  {
    seq(|s|, k requires 0 <= k < |s| => Find64(s[k]))
  }

  lemma CharsFinds(s: bytes)
    requires AllAlphabet(s)
    ensures Chars(Finds(s)) == s
  {
  }

  // ----- Bytes to 6-bit values and back -----

  /** Three bytes as four 6-bit values. */
  function Split3(a: byte, b: byte, c: byte): (r: sextets)
    ensures |r| == 4
  {
    [a / 4, (a % 4) * 16 + b / 16, (b % 16) * 4 + c / 64, c % 64]
  }

  /** Four looked-up values as three bytes, each truncated to unsigned char. */
  function Join4(c0: byte, c1: byte, c2: byte, c3: byte): (r: bytes)
    ensures |r| == 3
  {
    [(c0 * 4 + (c1 / 16) % 4) % 256,
     ((c1 % 16) * 16 + (c2 / 4) % 16) % 256,
     ((c2 % 4) * 64 + c3) % 256]
  }

  lemma JoinSplit(a: byte, b: byte, c: byte)
    ensures var q := Split3(a, b, c); Join4(q[0], q[1], q[2], q[3]) == [a, b, c]
  {
    var q := Split3(a, b, c);
    assert q[1] / 16 == a % 4 && q[1] % 16 == b / 16;
    assert q[2] / 4 == b % 16 && q[2] % 4 == c / 64;
  }

  lemma SplitJoin(c0: sextet, c1: sextet, c2: sextet, c3: sextet)
    ensures var o := Join4(c0, c1, c2, c3); Split3(o[0], o[1], o[2]) == [c0, c1, c2, c3]
  {
    hide Join4;
    var h1, l1, h2, l2 := c1 / 16, c1 % 16, c2 / 4, c2 % 4;
    var o := Join4(c0, c1, c2, c3);
    assert c1 == 16 * h1 + l1 && c2 == 4 * h2 + l2;
    JoinValue(c0, h1, l1, h2, l2, c3);
    assert o[0] / 4 == c0 && o[0] % 4 == h1;
    assert o[1] / 16 == l1 && o[1] % 16 == h2;
    assert o[2] / 64 == l2 && o[2] % 64 == c3;
  }

  lemma JoinValue(c0: sextet, h1: nat, l1: nat, h2: nat, l2: nat, c3: sextet)
    requires h1 < 4 && l1 < 16 && h2 < 16 && l2 < 4
    ensures Join4(c0, 16 * h1 + l1, 4 * h2 + l2, c3) == [4 * c0 + h1, 16 * l1 + h2, 64 * l2 + c3]
  {
    var c1, c2 := 16 * h1 + l1, 4 * h2 + l2;
    HighLow(h1, l1, h2, l2);
    assert Join4(c0, c1, c2, c3) == [(c0 * 4 + h1 % 4) % 256, (l1 * 16 + h2 % 16) % 256, (l2 * 64 + c3) % 256];
  }

  lemma HighLow(h1: nat, l1: nat, h2: nat, l2: nat)
    requires l1 < 16 && l2 < 4
    ensures (16 * h1 + l1) / 16 == h1 && (16 * h1 + l1) % 16 == l1
    ensures (4 * h2 + l2) / 4 == h2 && (4 * h2 + l2) % 4 == l2
  {
  }

  /** A short last group is extended with zero bytes; one value more than it has bytes is kept. */
  function ValuesTail(x: bytes): (vs: sextets)
    requires 1 <= |x| <= 2
    ensures |vs| == |x| + 1
  {
    Split3(x[0], if |x| == 2 then x[1] else 0, 0)[..|x| + 1]
  }

  function Values(x: bytes): sextets {
    if x == [] then []
    else if |x| < 3 then ValuesTail(x)
    else Split3(x[0], x[1], x[2]) + Values(x[3..])
  }

  /** A short last group of values. The code fills it with zero characters, which are not in the alphabet, so that
      the look-up turns each into NOT_FOUND; here the filler is a parameter. */
  function OctetsTail(vs: sextets, fill: byte): (x: bytes)
    requires 1 <= |vs| <= 3
    ensures |x| == |vs| - 1
  {
    Join4(vs[0], if |vs| > 1 then vs[1] else fill, if |vs| > 2 then vs[2] else fill, fill)[..|vs| - 1]
  }

  /** The NOT_FOUND filler of a short last group cannot reach the output: any filler gives the same bytes. */
  lemma FillerNeverLeaks(vs: sextets, fill: byte)
    requires 1 <= |vs| <= 3
    ensures OctetsTail(vs, fill) == OctetsTail(vs, NOT_FOUND)
  {
  }

  function Octets(vs: sextets): bytes {
    if vs == [] then []
    else if |vs| < 4 then OctetsTail(vs, NOT_FOUND)
    else Join4(vs[0], vs[1], vs[2], vs[3]) + Octets(vs[4..])
  }

  lemma {:induction false} ValuesAppend(p: bytes, g: bytes)
    requires |p| % 3 == 0
    ensures Values(p + g) == Values(p) + Values(g)
  {
    hide Split3, ValuesTail;
    if p == [] {
      assert p + g == g;
    } else {
      ValuesAppend(p[3..], g);
      assert (p + g)[3..] == p[3..] + g;
    }
  }

  lemma {:induction false} OctetsAppend(p: sextets, g: sextets)
    requires |p| % 4 == 0
    ensures Octets(p + g) == Octets(p) + Octets(g)
  {
    hide Join4, OctetsTail;
    if p == [] {
      assert p + g == g;
    } else {
      OctetsAppend(p[4..], g);
      assert (p + g)[4..] == p[4..] + g;
    }
  }

  lemma {:induction false} ValuesLength(x: bytes)
    ensures |Values(x)| == (4 * |x| + 2) / 3
  {
    hide Split3, ValuesTail;
    if |x| < 3 {
    } else {
      ValuesLength(x[3..]);
    }
  }

  lemma {:induction false} OctetsLength(vs: sextets)
    ensures |Octets(vs)| == if |vs| % 4 == 0 then |vs| / 4 * 3 else |vs| / 4 * 3 + |vs| % 4 - 1
  {
    hide Join4, OctetsTail;
    if |vs| < 4 {
    } else {
      OctetsLength(vs[4..]);
    }
  }

  lemma {:induction false} OctetsOfValues(x: bytes)
    ensures Octets(Values(x)) == x
  {
    hide Split3, Join4;
    if x == [] {
    } else if |x| < 3 {
      var b := if |x| == 2 then x[1] else 0;
      JoinSplit(x[0], b, 0);
      assert Split3(x[0], b, 0)[3] == 0 && (|x| == 1 ==> Split3(x[0], b, 0)[2] == 0) by { ZeroBits(x[0], b); }
      FillerNeverLeaks(ValuesTail(x), 0);
    } else {
      OctetsOfValues(x[3..]);
      JoinSplit(x[0], x[1], x[2]);
    }
  }

  lemma ZeroBits(a: byte, b: byte)
    ensures Split3(a, b, 0)[3] == 0 && (b == 0 ==> Split3(a, b, 0)[2] == 0)
    ensures Split3(a, b, 0)[2] % 4 == 0 && Split3(a, 0, 0)[1] % 16 == 0
  {
  }

  /** The low bits of the last value that no output byte uses are zero, and no group has a single value. */
  predicate UnusedBitsZero(vs: sextets) {
    && |vs| % 4 != 1
    && (|vs| % 4 == 2 ==> vs[|vs| - 1] % 16 == 0)
    && (|vs| % 4 == 3 ==> vs[|vs| - 1] % 4 == 0)
  }

  lemma {:induction false} ValuesUnusedBits(x: bytes)
    ensures UnusedBitsZero(Values(x))
  {
    hide Split3;
    if 1 <= |x| < 3 {
      ZeroBits(x[0], if |x| == 2 then x[1] else 0);
    } else if |x| >= 3 {
      ValuesUnusedBits(x[3..]);
    }
  }

  lemma {:induction false} ValuesOfOctets(vs: sextets)
    requires UnusedBitsZero(vs)
    ensures Values(Octets(vs)) == vs
  {
    hide Split3, Join4;
    if vs == [] {
    } else if |vs| < 4 {
      var c2 := if |vs| > 2 then vs[2] else 0;
      FillerNeverLeaks(vs, 0);
      SplitJoin(vs[0], vs[1], c2, 0);
      assert Join4(vs[0], vs[1], c2, 0)[2] == 0 && (|vs| == 2 ==> Join4(vs[0], vs[1], c2, 0)[1] == 0) by {
        JoinUnused(vs[0], vs[1], c2);
      }
    } else {
      ValuesOfOctets(vs[4..]);
      SplitJoin(vs[0], vs[1], vs[2], vs[3]);
    }
  }

  lemma JoinUnused(c0: sextet, c1: sextet, c2: sextet)
    requires c2 % 4 == 0
    ensures Join4(c0, c1, c2, 0)[2] == 0
    ensures c2 == 0 && c1 % 16 == 0 ==> Join4(c0, c1, c2, 0)[1] == 0
  {
  }

  // ----- Whole texts -----

  function Padding(dataLen: nat): bytes {
    seq((3 - dataLen % 3) % 3, _ => PAD)
  }

  /** The encoding without its padding. */
  function Unpadded(x: bytes): bytes {
    Chars(Values(x))
  }

  function Encode(x: bytes): bytes {
    Unpadded(x) + Padding(|x|)
  }

  /** Length of the longest prefix made of alphabet characters. */
  function AlphabetPrefix(s: bytes): (n: nat)
    ensures n <= |s| && AllAlphabet(s[..n])
    ensures n < |s| ==> !IsBase64(s[n])
  {
    if s == [] || !IsBase64(s[0]) then 0 else
      var n := 1 + AlphabetPrefix(s[1..]);
      assert forall k :: 1 <= k < n ==> s[..n][k] == s[1..][..n - 1][k - 1];
      n
  }

  lemma PrefixUnique(s: bytes, n: nat)
    requires n <= |s| && AllAlphabet(s[..n]) && (n < |s| ==> !IsBase64(s[n]))
    ensures AlphabetPrefix(s) == n
  {
    var m := AlphabetPrefix(s);
    assert forall k :: 0 <= k < n ==> s[k] == s[..n][k];
    assert forall k :: 0 <= k < m ==> s[k] == s[..m][k];
  }

  function Decode(s: bytes): bytes {
    Octets(Finds(s[..AlphabetPrefix(s)]))
  }

  /** Section 3.5 of RFC 4648: whole groups, nothing but padding after the alphabet, unused bits zero. */
  predicate Canonical(s: bytes) {
    var n := AlphabetPrefix(s);
    && |s| % 4 == 0 && |s| - n <= 2
    && (forall k :: n <= k < |s| ==> s[k] == PAD)
    && UnusedBitsZero(Finds(s[..n]))
  }

  // ----- Laws -----

  /** Characters after the longest alphabet prefix never matter. */
  lemma DecodeOnlyReadsAlphabetPrefix(s: bytes, t: bytes)
    requires s[..AlphabetPrefix(s)] == t[..AlphabetPrefix(t)]
    ensures Decode(s) == Decode(t) == Decode(s[..AlphabetPrefix(s)])
  {
    var p := s[..AlphabetPrefix(s)];
    assert p[..|p|] == p;
    PrefixUnique(p, |p|);
  }

  lemma EncodePrefix(x: bytes)
    ensures AlphabetPrefix(Encode(x)) == |Unpadded(x)|
    ensures Encode(x)[..|Unpadded(x)|] == Unpadded(x)
  {
    assert !IsBase64(PAD);
    PrefixUnique(Encode(x), |Unpadded(x)|);
  }

  /** Decoding an encoding gives the bytes back, and so does decoding it with its padding cut off. */
  lemma RoundTrip(x: bytes)
    ensures Decode(Encode(x)) == x
    ensures Decode(Unpadded(x)) == x
  {
    EncodePrefix(x);
    OctetsOfValues(x);
    assert Unpadded(x)[..|Unpadded(x)|] == Unpadded(x);
    PrefixUnique(Unpadded(x), |Unpadded(x)|);
  }

  /** Distinct byte strings have distinct encodings, padded or not. */
  lemma EncodeInjective(x: bytes, y: bytes)
    requires Unpadded(x) == Unpadded(y) || Encode(x) == Encode(y)
    ensures x == y
  {
    RoundTrip(x);
    RoundTrip(y);
  }

  /** Base64EncodeLen: room for the encoding and a terminator. */
  function Base64EncodeLen(dataLen: nat): nat {
    (dataLen + 2) / 3 * 4 + 1
  }

  lemma EncodeLength(x: bytes)
    ensures |Encode(x)| == (|x| + 2) / 3 * 4 == Base64EncodeLen(|x|) - 1
    ensures |Encode(x)| % 4 == 0 && |Encode(x)| - |Unpadded(x)| == (3 - |x| % 3) % 3
  {
    ValuesLength(x);
    var q, r := |x| / 3, |x| % 3;
    assert |x| == 3 * q + r;
    assert (4 * (3 * q + r) + 2) / 3 == 4 * q + (4 * r + 2) / 3;
  }

  /** Encoding a decoded text gives the text back exactly when the text is canonical. */
  lemma CanonicalExactly(s: bytes)
    ensures Encode(Decode(s)) == s <==> Canonical(s)
  {
    if Canonical(s) {
      EncodeDecodeCanonical(s);
    }
    if Encode(Decode(s)) == s {
      var x := Decode(s);
      EncodePrefix(x);
      EncodeLength(x);
      ValuesUnusedBits(x);
    }
  }

  lemma SamePadding(len: nat, n: nat, dataLen: nat)
    requires n <= len && len % 4 == 0 && len - n <= 2
    requires (dataLen + 2) / 3 * 4 - n == (3 - dataLen % 3) % 3
    ensures len - n == (3 - dataLen % 3) % 3
  {
  }

  lemma EncodeDecodeCanonical(s: bytes)
    requires Canonical(s)
    ensures Encode(Decode(s)) == s
  {
    hide Values, Octets, UnusedBitsZero;
    var n := AlphabetPrefix(s);
    var vs := Finds(s[..n]);
    ValuesOfOctets(vs);
    CharsFinds(s[..n]);
    EncodeLength(Decode(s));
    assert |s| - n == |Padding(|Decode(s)|)| by { SamePadding(|s|, n, |Decode(s)|); }
    assert s == s[..n] + Padding(|Decode(s)|);
  }

  // ----- The loops -----

  /** One full group of the encoder, its characters pushed one by one. */
  method PushGroup(ret: bytes, a: byte, b: byte, c: byte) returns (r: bytes)
    ensures r == ret + Chars(Split3(a, b, c))
  {
    hide Split3;
    var a4 := Split3(a, b, c);
    r := ret;
    var i := 0;
    while i < 4
      invariant 0 <= i <= 4
      invariant r == ret + Chars(a4)[..i]
    {
      r := r + [Char64(a4[i])];
      i := i + 1;
    }
  }

  /** The encoder after its main loop: n bytes are left in a3. */
  method PushTail(ret: bytes, a3: array<byte>, n: nat) returns (r: bytes)
    requires a3.Length == 3 && 1 <= n <= 2
    modifies a3
    ensures r == ret + Chars(ValuesTail(old(a3[..n]))) + Padding(n)
  {
    hide Split3;
    var j := n;
    while j < 3
      invariant n <= j <= 3
      invariant forall k :: 0 <= k < n ==> a3[k] == old(a3[k])
      invariant forall k :: n <= k < j ==> a3[k] == 0
    {
      a3[j] := 0;
      j := j + 1;
    }
    var a4 := Split3(a3[0], a3[1], a3[2]);
    r := ret;
    j := 0;
    while j < n + 1
      invariant 0 <= j <= n + 1
      invariant r == ret + Chars(a4)[..j]
    {
      r := r + [Char64(a4[j])];
      j := j + 1;
    }
    ghost var body := r;
    var i := n;
    while i < 3
      invariant n <= i <= 3
      invariant r == body + Padding(n)[..i - n]
    {
      r := r + [PAD];
      i := i + 1;
    }
    assert Chars(a4)[..n + 1] == Chars(a4[..n + 1]);
  }

  lemma ExtendUnpadded(p: bytes, g: bytes, tail: bytes)
    requires |p| % 3 == 0 && |g| == 3 && 1 <= |tail| <= 2
    ensures Unpadded([]) == []
    ensures Unpadded(p + g) == Unpadded(p) + Chars(Split3(g[0], g[1], g[2]))
    ensures Unpadded(p + tail) == Unpadded(p) + Chars(ValuesTail(tail))
  {
    hide Split3, ValuesTail;
    ValuesAppend(p, g);
    ValuesAppend(p, tail);
    assert g[3..] == [] && Values(g) == Split3(g[0], g[1], g[2]) + Values(g[3..]);
  }

  method Base64Encode(buf: bytes) returns (ret: bytes)
    ensures ret == Encode(buf)
  {
    hide Split3, ValuesTail, Values, Unpadded, Chars, AllAlphabet;
    ret := [];
    assert Unpadded([]) == [] by { ExtendUnpadded([], [0, 0, 0], [0]); }
    var i := 0;
    var pos := 0;
    var a3 := new byte[3](_ => 0);
    ghost var groups := 0;
    while pos < |buf|
      invariant pos <= |buf|
      invariant 0 <= i < 3 && 0 <= groups && pos == 3 * groups + i
      invariant forall k :: 0 <= k < i ==> a3[k] == buf[pos - i + k]
      invariant ret == Unpadded(buf[..pos - i])
    {
      a3[i] := buf[pos];
      i, pos := i + 1, pos + 1;
      if i == 3 {
        ghost var g := a3[..];
        ret := PushGroup(ret, a3[0], a3[1], a3[2]);
        ExtendUnpadded(buf[..pos - 3], g, [0]);
        assert buf[..pos - 3] + g == buf[..pos];
        i, groups := 0, groups + 1;
      }
    }
    assert buf[..pos] == buf;
    if i != 0 {
      ghost var tail := a3[..i];
      ret := PushTail(ret, a3, i);
      ExtendUnpadded(buf[..pos - i], [0, 0, 0], tail);
      assert buf[..pos - i] + tail == buf;
    }
  }

  /** The decoder after its main loop: n characters are left in a4. */
  method PushDecodedTail(ret: bytes, a4: array<byte>, n: nat) returns (r: bytes)
    requires a4.Length == 4 && 1 <= n <= 3 && AllAlphabet(a4[..n])
    modifies a4
    ensures r == ret + OctetsTail(Finds(old(a4[..n])), NOT_FOUND)
  {
    hide Join4;
    ghost var g := a4[..n];
    var j := n;
    while j < 4
      invariant n <= j <= 4
      invariant forall k :: 0 <= k < n ==> a4[k] == g[k]
      invariant forall k :: n <= k < j ==> a4[k] == 0
    {
      a4[j] := 0;
      j := j + 1;
    }
    j := 0;
    while j < 4
      invariant 0 <= j <= 4
      invariant forall k :: 0 <= k < j ==> a4[k] == if k < n then Find64(g[k]) else NOT_FOUND
      invariant forall k :: j <= k < 4 ==> a4[k] == if k < n then g[k] else 0
    {
      a4[j] := Find64(a4[j]);
      j := j + 1;
    }
    var a3 := Join4(a4[0], a4[1], a4[2], a4[3]);
    r := ret;
    j := 0;
    while j < n - 1
      invariant 0 <= j <= n - 1
      invariant r == ret + a3[..j]
    {
      r := r + [a3[j]];
      j := j + 1;
    }
  }

  /** What the decoder has produced when it has read n alphabet characters in whole groups. */
  lemma DecodeGroupAt(s: bytes, n: nat)
    requires n % 4 == 0 && n + 4 <= |s| && forall k :: 0 <= k < n + 4 ==> IsBase64(s[k])
    ensures AllAlphabet(s[..n]) && AllAlphabet(s[..n + 4])
    ensures Octets(Finds(s[..n + 4]))
         == Octets(Finds(s[..n])) + Join4(Find64(s[n]), Find64(s[n + 1]), Find64(s[n + 2]), Find64(s[n + 3]))
  {
    hide Join4, OctetsTail, Find64;
    var p, g := Finds(s[..n]), Finds(s[n..n + 4]);
    OctetsAppend(p, g);
    assert g[4..] == [] && Octets(g) == Join4(g[0], g[1], g[2], g[3]) + Octets(g[4..]);
    assert p + g == Finds(s[..n + 4]);
  }

  lemma DecodeTailAt(s: bytes, n: nat, g: bytes)
    requires n % 4 == 0 && n + |g| <= |s| && 1 <= |g| <= 3
    requires forall k :: 0 <= k < n + |g| ==> IsBase64(s[k])
    requires forall k :: 0 <= k < |g| ==> g[k] == s[n + k]
    requires n + |g| < |s| ==> !IsBase64(s[n + |g|])
    ensures Decode(s) == Octets(Finds(s[..n])) + OctetsTail(Finds(g), NOT_FOUND)
  {
    hide Join4, OctetsTail, Find64;
    PrefixUnique(s, n + |g|);
    var p := Finds(s[..n]);
    OctetsAppend(p, Finds(g));
    assert p + Finds(g) == Finds(s[..n + |g|]);
  }

  method Base64Decode(s: bytes) returns (ret: bytes)
    ensures ret == Decode(s)
  {
    hide Join4, OctetsTail, IsBase64, Find64, Octets, Decode;
    ret := [];
    var i := 0;
    var pos := 0;
    var a4 := new byte[4](_ => 0);
    ghost var groups := 0;
    assert Octets([]) == [] by { OctetsLength([]); }
    while pos < |s| && s[pos] != PAD && IsBase64(s[pos])
      invariant pos <= |s|
      invariant 0 <= i < 4 && 0 <= groups && pos == 4 * groups + i
      invariant forall k :: 0 <= k < pos ==> IsBase64(s[k])
      invariant forall k :: 0 <= k < i ==> a4[k] == s[pos - i + k]
      invariant ret == Octets(Finds(s[..pos - i]))
    {
      a4[i] := s[pos];
      i, pos := i + 1, pos + 1;
      if i == 4 {
        ret := ret + Join4(Find64(a4[0]), Find64(a4[1]), Find64(a4[2]), Find64(a4[3]));
        DecodeGroupAt(s, pos - 4);
        i, groups := 0, groups + 1;
      }
    }
    assert !IsBase64(PAD) by { TableInverse(0, PAD); }
    if i != 0 {
      ghost var g := a4[..i];
      ret := PushDecodedTail(ret, a4, i);
      DecodeTailAt(s, pos - i, g);
    } else {
      DecodeWhole(s, pos);
    }
  }

  lemma DecodeWhole(s: bytes, n: nat)
    requires n <= |s| && (forall k :: 0 <= k < n ==> IsBase64(s[k])) && (n < |s| ==> !IsBase64(s[n]))
    ensures Decode(s) == Octets(Finds(s[..n]))
  {
    PrefixUnique(s, n);
  }
}
