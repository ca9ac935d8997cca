/** src/cdf/modules/cryption/native_cryptor_engine.cpp: the self-describing output of Pbkdf2Hmac. */
module Pbkdf2 {
  import opened Bytes
  import Base64

  const ITERATIONS_MIN := 1000
  const ITERATIONS_MAX := 20000000
  const OUT_LEN_MIN := 32
  const OUT_LEN_MAX := 128
  const SALT_LEN_MIN := 16
  const SALT_LEN_MAX := 64
  const OUT_OFFSET := 7

  /** algId is the number of the HMAC algorithm, 0 to 3 for the four that are supported. */
  datatype Config = Config(algId: byte, iterationTimes: nat, outLen: nat, salt: bytes)

  predicate Valid(c: Config) {
    && c.algId <= 3
    && SALT_LEN_MIN <= |c.salt| <= SALT_LEN_MAX
    && ITERATIONS_MIN <= c.iterationTimes <= ITERATIONS_MAX
    && OUT_LEN_MIN <= c.outLen <= OUT_LEN_MAX
  }

  /** PKCS5_PBKDF2_HMAC: outLen bytes from a key and a configuration. */
  type Kdf = (bytes, Config) -> bytes

  ghost predicate RightLength(kdf: Kdf) {
    forall key, c :: |kdf(key, c)| == c.outLen
  }

  /** Algorithm, iterations and length big-endian, derived key, salt. */
  function Blob(kdf: Kdf, key: bytes, c: Config): bytes {
    [c.algId] + ToBe(c.iterationTimes, 4) + ToBe(c.outLen, 2) + kdf(key, c) + c.salt
  }

  /** The seven header bytes, stored one by one. */
  method PutHeader(outTmp: array<byte>, c: Config)
    requires outTmp.Length >= OUT_OFFSET
    modifies outTmp
    ensures outTmp[..OUT_OFFSET] == [c.algId] + ToBe(c.iterationTimes, 4) + ToBe(c.outLen, 2)
  {
    var n, t := c.outLen, c.iterationTimes;
    outTmp[0] := c.algId;
    outTmp[1] := t / 0x100_0000 % 256;
    outTmp[2] := t / 0x1_0000 % 256;
    outTmp[3] := t / 0x100 % 256;
    outTmp[4] := t % 256;
    outTmp[5] := n / 0x100 % 256;
    outTmp[6] := n % 256;
    ToBeBytes(t);
    ToBeBytes(n);
  }

  /** None is CCSEC_CRYPT_PARAM_INVALID. */
  method Pbkdf2Hmac(kdf: Kdf, key: bytes, c: Config) returns (outBase64: Option<bytes>)
    requires RightLength(kdf)
    ensures outBase64 == if Valid(c) then Some(Base64.Encode(Blob(kdf, key, c))) else None
  {
    hide Base64.Encode, ToBe;
    if !Valid(c) {
      return None;
    }
    var n := c.outLen;
    var outTmp := new byte[OUT_OFFSET + n + |c.salt|](_ => 0);
    PutHeader(outTmp, c);
    ghost var head := outTmp[..OUT_OFFSET];
    var derived := kdf(key, c);
    assert |derived| == n;
    forall i | 0 <= i < n {
      outTmp[OUT_OFFSET + i] := derived[i];
    }
    forall i | 0 <= i < |c.salt| {
      outTmp[OUT_OFFSET + n + i] := c.salt[i];
    }
    assert outTmp[..OUT_OFFSET] == head;
    assert outTmp[OUT_OFFSET..OUT_OFFSET + n] == derived;
    assert outTmp[OUT_OFFSET + n..] == c.salt;
    assert outTmp[..] == head + derived + c.salt;
    var encoded := Base64.Base64Encode(outTmp[..]);
    outBase64 := Some(encoded);
  }

  lemma ToBeBytes(v: nat)
    ensures ToBe(v, 4) == [v / 0x100_0000 % 256, v / 0x1_0000 % 256, v / 0x100 % 256, v % 256]
    ensures ToBe(v, 2) == [v / 0x100 % 256, v % 256]
  {
    assert ToBe(v / 256, 1) == ToBe(v / 256 / 256, 0) + [v / 256 % 256];
    assert v / 256 / 256 == v / 0x1_0000 && v / 256 / 256 / 256 == v / 0x100_0000;
    assert ToBe(v, 4) == ToBe(v / 256, 3) + [v % 256];
    assert ToBe(v / 256, 3) == ToBe(v / 0x1_0000, 2) + [v / 256 % 256];
    assert ToBe(v / 0x1_0000, 2) == ToBe(v / 0x100_0000, 1) + [v / 0x1_0000 % 256];
    assert ToBe(v / 0x100_0000, 1) == ToBe(v / 0x100_0000 / 256, 0) + [v / 0x100_0000 % 256];
  }

  /** The least text length that is looked at. */
  const MIN_SRC_LEN := (OUT_OFFSET + OUT_LEN_MIN + SALT_LEN_MIN + 2) / 3 * 4

  function DecodeBufLen(base64Len: nat): nat {
    base64Len / 4 * 3 + 3
  }

  datatype Got = Got(c: Config) | TooShort | DecodedTooLong

  /** GetPbkdf2Config, for texts whose decoded form holds the seven bytes and the output length they announce; on others
      the code reads a length that was never checked, and they are outside this model. */
  method GetPbkdf2Config(text: bytes) returns (r: Got)
    requires |text| >= MIN_SRC_LEN ==> Announced(Base64.Decode(text))
    ensures |text| < MIN_SRC_LEN <==> r == TooShort
    ensures |text| >= MIN_SRC_LEN && |Base64.Decode(text)| > DecodeBufLen(|text|) <==> r == DecodedTooLong
    ensures r.Got? ==> r.c == ConfigOf(Base64.Decode(text))
  {
    hide Base64.Decode, FromBe;
    if |text| < MIN_SRC_LEN {
      return TooShort;
    }
    var buf := Base64.Base64Decode(text);
    if |buf| > DecodeBufLen(|text|) {
      return DecodedTooLong;
    }
    var b1: int, b2: int, b3: int, b5: int := buf[1], buf[2], buf[3], buf[5];
    var iterationTimes := b1 * 0x100_0000 + b2 * 0x1_0000 + b3 * 0x100 + buf[4];
    var outLen := b5 * 0x100 + buf[6];
    Be4(buf[1], buf[2], buf[3], buf[4]);
    Be2(buf[5], buf[6]);
    assert buf[1..5] == [buf[1], buf[2], buf[3], buf[4]] && buf[5..7] == [buf[5], buf[6]];
    var saltLen := |buf| - outLen - OUT_OFFSET;
    r := Got(Config(buf[0], iterationTimes, outLen, buf[OUT_OFFSET + outLen..OUT_OFFSET + outLen + saltLen]));
  }

  /** The check on the decoded size never fires, on any text. */
  lemma DecodedSizeFits(text: bytes)
    ensures |Base64.Decode(text)| <= DecodeBufLen(|text|)
  {
    hide Base64.Octets;
    Base64.OctetsLength(Base64.Finds(text[..Base64.AlphabetPrefix(text)]));
  }

  predicate Announced(b: bytes) {
    |b| >= OUT_OFFSET && |b| >= OUT_OFFSET + FromBe(b[5..7])
  }

  function ConfigOf(b: bytes): Config
    requires Announced(b)
  {
    Config(b[0], FromBe(b[1..5]), FromBe(b[5..7]), b[OUT_OFFSET + FromBe(b[5..7])..])
  }

  lemma ConfigOfBlob(kdf: Kdf, key: bytes, c: Config)
    requires RightLength(kdf) && Valid(c)
    ensures Announced(Blob(kdf, key, c)) && ConfigOf(Blob(kdf, key, c)) == c
  {
    var b := Blob(kdf, key, c);
    Pow256Values();
    BeRoundTrip(c.iterationTimes, 4);
    BeRoundTrip(c.outLen, 2);
    assert |kdf(key, c)| == c.outLen;
    assert b[1..5] == ToBe(c.iterationTimes, 4);
    assert b[5..7] == ToBe(c.outLen, 2);
    assert b[OUT_OFFSET + c.outLen..] == c.salt;
  }

  /** Every successful output passes the length check and yields the configuration it was made with. */
  lemma RecoversConfig(kdf: Kdf, key: bytes, c: Config)
    requires RightLength(kdf) && Valid(c)
    ensures var text := Base64.Encode(Blob(kdf, key, c));
            && |text| >= MIN_SRC_LEN && Announced(Base64.Decode(text)) && ConfigOf(Base64.Decode(text)) == c
  {
    hide Base64.Encode, Base64.Decode;
    var b := Blob(kdf, key, c);
    ConfigOfBlob(kdf, key, c);
    Base64.RoundTrip(b);
    Base64.EncodeLength(b);
    assert |b| == OUT_OFFSET + c.outLen + |c.salt| by { assert |kdf(key, c)| == c.outLen; }
  }

  /** The two calls one after the other, over the whole valid range. */
  method DeriveThenInspect(kdf: Kdf, key: bytes, c: Config) returns (r: Got)
    requires RightLength(kdf) && Valid(c)
    ensures r == Got(c)
  {
    var text := Pbkdf2Hmac(kdf, key, c);
    RecoversConfig(kdf, key, c);
    DecodedSizeFits(text.value);
    r := GetPbkdf2Config(text.value);
  }
}
