/** The token text of src/cdf/modules/authentication/jwt/jwt_auth_server.cpp and jwt_token.cpp: header, payload and
    signature, printed and read back. */
module JwtToken {
  import opened Bytes
  import Base64
  import Str = StrUtils

  const JWT_EXPIRE_TIME_MAX_MINUTE := 32767
  const JWT_SECONDS_PER_MINUTE := 60
  const JWT_INPUT_LENGTH_MAX := 104857600
  const DOT: byte := '.' as int
  const SEMICOLON: byte := ';' as int
  const COLON: byte := ':' as int
  const SPACE: byte := 32
  const ALG: bytes := ['a' as int, 'l' as int, 'g' as int]
  const EXPIRE_TIME: bytes :=
    [32, 'e' as int, 'x' as int, 'p' as int, 'i' as int, 'r' as int, 'e' as int, 'T' as int, 'i' as int, 'm' as int,
     'e' as int]
  const CREATE_TIME: bytes :=
    [32, 'c' as int, 'r' as int, 'e' as int, 'a' as int, 't' as int, 'e' as int, 'T' as int, 'i' as int, 'm' as int,
     'e' as int]

  datatype HmacAlg = HMAC_SHA256 | HMAC_SHA384 | HMAC_SHA512 | UNKNOWN_HMAC

  datatype RC =
    | OK | ERROR | NOT_SUPPORTED | PARAM_INVALID | HMAC_ENCODE_FAIL | TOKEN_EXPIRED | CREATE_TOKEN_FAIL
    | TOKEN_VALIDATE_FAIL | KEY_PASS_INVALID | KEY_MANAGER_INIT_FAIL | ENCRYPT_FAIL | DECRYPT_FAIL | REFRESH_KEY_FAIL
    | BAD_DOWNCAST

  /** Expiry in minutes (16 bits, -1 for never) and creation in seconds (64 bits, unsigned). */
  datatype Header = Header(alg: HmacAlg, expire: int, create: nat)

  predicate HeaderFits(h: Header) {
    h.alg != UNKNOWN_HMAC && -0x8000 <= h.expire < 0x8000 && h.create < U64_LIMIT
  }

  function AlgNumber(alg: HmacAlg): nat {
    match alg
    case HMAC_SHA256 => 0
    case HMAC_SHA384 => 1
    case HMAC_SHA512 => 2
    case UNKNOWN_HMAC => 3
  }

  /** GetEstimateHmacOutLen; also the least key length. */
  function HmacLen(alg: HmacAlg): nat {
    match alg
    case HMAC_SHA256 => 32
    case HMAC_SHA384 => 48
    case HMAC_SHA512 => 64
    case UNKNOWN_HMAC => 0
  }

  // ----- The header text -----

  function Field(name: bytes, value: bytes): bytes {
    name + [COLON] + value
  }

  /** ToString: "alg: A; expireTime: E; createTime:C;", without a space in the last field. */
  function ToString(h: Header): bytes {
    Field(ALG, [SPACE] + Str.PrintInt(AlgNumber(h.alg))) + [SEMICOLON] +
    (Field(EXPIRE_TIME, [SPACE] + Str.PrintInt(h.expire)) + [SEMICOLON] +
     (Field(CREATE_TIME, Str.PrintInt(h.create)) + [SEMICOLON] + []))
  }

  /** The part after the colon, when there are two parts. */
  function FieldValue(piece: bytes): Option<bytes> {
    var v := Str.Split(piece, [COLON]);
    if |v| != 2 then None else Some(v[1])
  }

  function AlgOf(n: int): Option<HmacAlg> {
    if n == 0 then Some(HMAC_SHA256)
    else if n == 1 then Some(HMAC_SHA384)
    else if n == 2 then Some(HMAC_SHA512)
    else None
  }

  function ReadNumber(piece: bytes, bits: nat): Option<int> {
    match FieldValue(piece)
    case None => None
    case Some(v) => if bits == 32 then Str.StrToInt(v) else Str.StrToInt64(v)
  }

  datatype Info = Info(alg: HmacAlg, expire: int, create: int)

  /** GetInfoByToken: three fields of name and number; creation is a signed 64-bit number here. */
  function GetInfo(header: bytes): Option<Info> {
    var fields := Str.Split(header, [SEMICOLON]);
    if header == [] || |fields| != 3 then None
    else match (ReadNumber(fields[0], 32), ReadNumber(fields[1], 64), ReadNumber(fields[2], 64))
      case (Some(n), Some(expire), Some(create)) =>
        if AlgOf(n).None? || expire > JWT_EXPIRE_TIME_MAX_MINUTE then None
        else Some(Info(AlgOf(n).value, expire, create))
      case _ => None
  }

  lemma NumberIsFree(v: int)
    ensures Str.Free(Str.PrintInt(v), SEMICOLON) && Str.Free(Str.PrintInt(v), COLON) && Str.Free(Str.PrintInt(v), DOT)
    ensures Str.Free([SPACE] + Str.PrintInt(v), SEMICOLON) && Str.Free([SPACE] + Str.PrintInt(v), COLON)
  {
    hide Str.PrintInt;
  }

  lemma NamesAreFree()
    ensures Str.Free(ALG, SEMICOLON) && Str.Free(ALG, COLON)
    ensures Str.Free(EXPIRE_TIME, SEMICOLON) && Str.Free(EXPIRE_TIME, COLON)
    ensures Str.Free(CREATE_TIME, SEMICOLON) && Str.Free(CREATE_TIME, COLON)
  {
  }

  lemma FieldReadsBack(name: bytes, value: bytes)
    requires Str.Free(name, COLON) && Str.Free(value, COLON) && value != []
    ensures FieldValue(Field(name, value)) == Some(value)
  {
    hide Str.Split;
    Str.SplitCons(name, COLON, value);
    Str.SplitOne(value, COLON);
  }

  lemma FieldIsFree(name: bytes, value: bytes)
    requires Str.Free(name, SEMICOLON) && Str.Free(value, SEMICOLON)
    ensures Str.Free(Field(name, value), SEMICOLON)
  {
  }

  lemma HeaderSplits(h: Header)
    ensures Str.Split(ToString(h), [SEMICOLON]) ==
            [Field(ALG, [SPACE] + Str.PrintInt(AlgNumber(h.alg))), Field(EXPIRE_TIME, [SPACE] + Str.PrintInt(h.expire)),
             Field(CREATE_TIME, Str.PrintInt(h.create))]
  {
    hide Str.Split, Str.PrintInt, Field, AlgNumber;
    NamesAreFree();
    var a, e, c := Str.PrintInt(AlgNumber(h.alg)), Str.PrintInt(h.expire), Str.PrintInt(h.create);
    NumberIsFree(AlgNumber(h.alg));
    NumberIsFree(h.expire);
    NumberIsFree(h.create);
    var p0, p1, p2 := Field(ALG, [SPACE] + a), Field(EXPIRE_TIME, [SPACE] + e), Field(CREATE_TIME, c);
    FieldIsFree(ALG, [SPACE] + a);
    FieldIsFree(EXPIRE_TIME, [SPACE] + e);
    FieldIsFree(CREATE_TIME, c);
    Str.SplitCons(p0, SEMICOLON, p1 + [SEMICOLON] + (p2 + [SEMICOLON] + []));
    Str.SplitCons(p1, SEMICOLON, p2 + [SEMICOLON] + []);
    Str.SplitCons(p2, SEMICOLON, []);
    Str.SplitOne([], SEMICOLON);
  }

  lemma PrintedValue(v: int)
    ensures Str.ParseInt(Str.PrintInt(v)) == Some(v) == Str.ParseInt([SPACE] + Str.PrintInt(v))
  {
    hide Str.ParseInt, Str.PrintInt;
    Str.ParsePrinted(v, []);
    assert Str.PrintInt(v) + [] == Str.PrintInt(v);
    Str.ParseSkipsSpace(Str.PrintInt(v));
  }

  /** Printing and reading undo each other for every algorithm and expiry, and for exactly the creation times that fit
      into 63 bits. */
  lemma HeaderRoundTrip(h: Header)
    requires HeaderFits(h)
    ensures GetInfo(ToString(h)) == if h.create < I64_LIMIT then Some(Info(h.alg, h.expire, h.create)) else None
  {
    hide Str.Split, Str.PrintInt, Str.ParseInt, Field, FieldValue;
    HeaderSplits(h);
    NamesAreFree();
    NumberIsFree(AlgNumber(h.alg));
    NumberIsFree(h.expire);
    NumberIsFree(h.create);
    PrintedValue(AlgNumber(h.alg));
    PrintedValue(h.expire);
    PrintedValue(h.create);
    FieldReadsBack(ALG, [SPACE] + Str.PrintInt(AlgNumber(h.alg)));
    FieldReadsBack(EXPIRE_TIME, [SPACE] + Str.PrintInt(h.expire));
    FieldReadsBack(CREATE_TIME, Str.PrintInt(h.create));
    assert ToString(h) != [];
  }

  // ----- Signatures -----

  /** OpenSSL's HMAC. */
  datatype Hmac = Hmac(mac: (HmacAlg, bytes, bytes) -> bytes)
  {
    ghost predicate Lawful() {
      forall a, k, m :: |mac(a, k, m)| == HmacLen(a)
    }

    /** Different keys of the set sign every text differently. */
    ghost predicate Separates(keys: set<bytes>) {
      forall a, k, k', m :: k in keys && k' in keys && k != k' && a != UNKNOWN_HMAC ==> mac(a, k, m) != mac(a, k', m)
    }
  }

  function NativeHmac(hm: Hmac, alg: HmacAlg, key: bytes, text: bytes): Option<bytes> {
    if key == [] || text == [] || alg == UNKNOWN_HMAC || |key| < HmacLen(alg) then None
    else Some(hm.mac(alg, key, text))
  }

  /** The first piece around "=". */
  function StripPadding(b64: bytes): bytes {
    var v := Str.Split(b64, [Base64.PAD]);
    if v == [] then [] else v[0]
  }

  function CalSignB64(hm: Hmac, alg: HmacAlg, text: bytes, key: bytes): (RC, bytes) {
    if key == [] then (KEY_PASS_INVALID, [])
    else match NativeHmac(hm, alg, key, text)
      case None => (HMAC_ENCODE_FAIL, [])
      case Some(mac) => (OK, StripPadding(Base64.Encode(mac)))
  }

  lemma AlphabetIsFree(x: bytes)
    ensures Str.Free(Base64.Unpadded(x), DOT) && Str.Free(Base64.Unpadded(x), Base64.PAD)
    ensures Str.Free(Base64.Encode(x), DOT)
  {
    assert Base64.AllAlphabet(Base64.Unpadded(x));
    assert !Base64.IsBase64(DOT) && !Base64.IsBase64(Base64.PAD);
  }

  /** Splitting off the padding gives exactly the unpadded encoding. */
  lemma StripIsUnpadded(x: bytes)
    requires x != []
    ensures StripPadding(Base64.Encode(x)) == Base64.Unpadded(x) && Base64.Unpadded(x) != []
  {
    hide Str.Split, Base64.Unpadded;
    AlphabetIsFree(x);
    UnpaddedNonempty(x);
    var u, n := Base64.Unpadded(x), |Base64.Padding(|x|)|;
    if n == 0 {
      assert Base64.Encode(x) == u;
      Str.SplitOne(u, Base64.PAD);
    } else {
      assert Base64.Encode(x) == u + [Base64.PAD] + Base64.Padding(|x|)[1..];
      Str.SplitCons(u, Base64.PAD, Base64.Padding(|x|)[1..]);
    }
  }

  lemma UnpaddedNonempty(x: bytes)
    requires x != []
    ensures Base64.Unpadded(x) != []
  {
    Base64.EncodeLength(x);
  }

  // ----- Making a token -----

  /** Header and payload, as signed. The header loses its padding, the payload keeps it. */
  function Signed(h: Header, input: bytes): bytes {
    StripPadding(Base64.Encode(ToString(h))) + [DOT] + Base64.Encode(input)
  }

  function Create(hm: Hmac, h: Header, key: bytes, input: bytes): (RC, bytes) {
    var (rc, sign) := CalSignB64(hm, h.alg, Signed(h, input), key);
    if rc != OK then (rc, []) else (OK, Signed(h, input) + [DOT] + sign)
  }

  function EstimateTokenLength(h: Header, inputLen: nat): (RC, nat) {
    if inputLen > JWT_INPUT_LENGTH_MAX || HmacLen(h.alg) == 0 then (PARAM_INVALID, 0)
    else (OK, Base64.Base64EncodeLen(|ToString(h)|) + Base64.Base64EncodeLen(inputLen) +
              Base64.Base64EncodeLen(HmacLen(h.alg)) + 2)
  }

  // ----- Reading a token -----

  function TryFixBase64(s: bytes): bytes {
    if |s| % 4 == 0 then s
    else if |s| % 4 == 2 then s + [Base64.PAD, Base64.PAD]
    else if |s| % 4 == 3 then s + [Base64.PAD]
    else []
  }

  predicate Expired(expire: int, create: int, now: int) {
    expire > JWT_EXPIRE_TIME_MAX_MINUTE ||
    (expire != -1 && now >= create && now - create > expire * JWT_SECONDS_PER_MINUTE)
  }

  /** A token whose form and expiry are accepted, with its signed text and signature. */
  datatype Opened = Opened(alg: HmacAlg, signed: bytes, sign: bytes) | Refused(rc: RC)

  function OpenToken(token: bytes, now: int): Opened {
    var parts := Str.Split(token, [DOT]);
    if |parts| != 3 then Refused(PARAM_INVALID)
    else
      var header := Base64.Decode(TryFixBase64(parts[0]));
      if header == [] then Refused(ERROR)
      else match GetInfo(header)
        case None => Refused(PARAM_INVALID)
        case Some(info) =>
          if Expired(info.expire, info.create, now) then Refused(TOKEN_EXPIRED)
          else Opened(info.alg, parts[0] + [DOT] + parts[1], parts[2])
  }

  /** The signature computed again under a key, compared with the token's. */
  function CheckSignature(hm: Hmac, o: Opened, key: bytes): RC
    requires o.Opened?
  {
    var (rc, mine) := CalSignB64(hm, o.alg, o.signed, key);
    if rc != OK then rc else if mine != o.sign then TOKEN_VALIDATE_FAIL else OK
  }

  /** The token of a header, a key and an input. */
  function TokenOf(hm: Hmac, h: Header, key: bytes, input: bytes): bytes {
    Create(hm, h, key, input).1
  }

  /** What the source demands for a token to be made. */
  predicate CanSign(h: Header, key: bytes, input: bytes) {
    HeaderFits(h) && input != [] && |key| >= HmacLen(h.alg)
  }

  lemma SignatureText(hm: Hmac, h: Header, key: bytes, input: bytes)
    requires hm.Lawful() && CanSign(h, key, input)
    ensures Signed(h, input) == Base64.Unpadded(ToString(h)) + [DOT] + Base64.Encode(input)
    ensures CalSignB64(hm, h.alg, Signed(h, input), key)
         == (OK, Base64.Unpadded(hm.mac(h.alg, key, Signed(h, input))))
    ensures Base64.Unpadded(ToString(h)) != [] && hm.mac(h.alg, key, Signed(h, input)) != []
    ensures Base64.Unpadded(hm.mac(h.alg, key, Signed(h, input))) != []
    ensures Create(hm, h, key, input).0 == OK
  {
    hide StripPadding, Base64.Encode, Base64.Unpadded;
    assert ToString(h) != [];
    StripIsUnpadded(ToString(h));
    StripIsUnpadded(hm.mac(h.alg, key, Signed(h, input)));
  }

  /** Every token has exactly three parts: header, payload, signature. */
  lemma ThreeParts(hm: Hmac, h: Header, key: bytes, input: bytes)
    requires hm.Lawful() && CanSign(h, key, input)
    ensures Str.Split(TokenOf(hm, h, key, input), [DOT]) ==
            [Base64.Unpadded(ToString(h)), Base64.Encode(input), Base64.Unpadded(hm.mac(h.alg, key, Signed(h, input)))]
  {
    hide Str.Split, Base64.Encode, Base64.Unpadded, Signed, CalSignB64, ToString, HmacLen;
    SignatureText(hm, h, key, input);
    var p0, p1 := Base64.Unpadded(ToString(h)), Base64.Encode(input);
    var p2 := Base64.Unpadded(hm.mac(h.alg, key, Signed(h, input)));
    AlphabetIsFree(ToString(h));
    AlphabetIsFree(input);
    AlphabetIsFree(hm.mac(h.alg, key, Signed(h, input)));
    assert TokenOf(hm, h, key, input) == p0 + [DOT] + (p1 + [DOT] + p2);
    Str.SplitCons(p0, DOT, p1 + [DOT] + p2);
    Str.SplitCons(p1, DOT, p2);
    Str.SplitOne(p2, DOT);
  }

  /** Re-padding an encoding without padding gives the padded encoding, so the header decodes. */
  lemma FixUndoesStrip(x: bytes)
    ensures TryFixBase64(Base64.Unpadded(x)) == Base64.Encode(x)
    ensures Base64.Decode(TryFixBase64(Base64.Unpadded(x))) == x
  {
    hide Base64.Unpadded, Base64.Decode;
    Base64.EncodeLength(x);
    Base64.RoundTrip(x);
    assert |Base64.Encode(x)| == |Base64.Unpadded(x)| + |Base64.Padding(|x|)|;
  }

  /** Opening a token made here gives back its algorithm, signed text and signature while it is unexpired. */
  lemma OpensOwn(hm: Hmac, h: Header, key: bytes, input: bytes, now: int)
    requires hm.Lawful() && CanSign(h, key, input)
    ensures h.create >= I64_LIMIT ==> OpenToken(TokenOf(hm, h, key, input), now) == Refused(PARAM_INVALID)
    ensures h.create < I64_LIMIT ==>
              OpenToken(TokenOf(hm, h, key, input), now) ==
              if h.expire == -1 || now < h.create || now <= h.create + 60 * h.expire then
                Opened(h.alg, Signed(h, input), Base64.Unpadded(hm.mac(h.alg, key, Signed(h, input))))
              else Refused(TOKEN_EXPIRED)
  {
    hide Str.Split, Base64.Encode, Base64.Decode, Base64.Unpadded, ToString, GetInfo;
    hide TokenOf, TryFixBase64, CalSignB64, Signed;
    ThreeParts(hm, h, key, input);
    SignatureText(hm, h, key, input);
    FixUndoesStrip(ToString(h));
    HeaderRoundTrip(h);
    assert ToString(h) != [] by { HeaderNonempty(h); }
  }

  lemma HeaderNonempty(h: Header)
    ensures ToString(h) != []
  {
    assert ToString(h)[0] == 'a' as int;
  }

  /** The signature of another key is a different text. */
  lemma OtherSignature(hm: Hmac, h: Header, key: bytes, key': bytes, input: bytes)
    requires hm.Lawful() && CanSign(h, key, input) && key' != key && hm.Separates({key, key'})
    ensures CalSignB64(hm, h.alg, Signed(h, input), key') !=
            (OK, Base64.Unpadded(hm.mac(h.alg, key, Signed(h, input))))
  {
    hide Signed, Base64.Unpadded, Base64.Encode, StripPadding;
    if |key'| >= HmacLen(h.alg) {
      SignatureText(hm, h, key', input);
      var mac, mac' := hm.mac(h.alg, key, Signed(h, input)), hm.mac(h.alg, key', Signed(h, input));
      if Base64.Unpadded(mac) == Base64.Unpadded(mac') {
        Base64.EncodeInjective(mac, mac');
      }
    }
  }

  /** The estimate exceeds what the token and its terminator need by two bytes and the two stripped paddings, and fits
      into 32 bits: a buffer of that size always holds the token. */
  lemma EstimateSuffices(hm: Hmac, h: Header, key: bytes, input: bytes)
    requires hm.Lawful() && CanSign(h, key, input) && |input| <= JWT_INPUT_LENGTH_MAX
    ensures EstimateTokenLength(h, |input|).0 == OK
    ensures EstimateTokenLength(h, |input|).1 == |TokenOf(hm, h, key, input)| + 1 + 2
            + (3 - |ToString(h)| % 3) % 3 + (3 - HmacLen(h.alg) % 3) % 3
    ensures EstimateTokenLength(h, |input|).1 < U32_LIMIT
  {
    hide Base64.Encode, Base64.Unpadded, Signed, CalSignB64;
    SignatureText(hm, h, key, input);
    var mac := hm.mac(h.alg, key, Signed(h, input));
    Base64.EncodeLength(ToString(h));
    Base64.EncodeLength(input);
    Base64.EncodeLength(mac);
    HeaderLength(h);
  }

  lemma HeaderLength(h: Header)
    requires HeaderFits(h)
    ensures |ToString(h)| <= 70
  {
    assert Pow10(20) > U64_LIMIT by { Pow10Twenty(); }
    PrintLength(h.create, 20);
    PrintLength(if h.expire < 0 then -h.expire else h.expire, 5);
    PrintLength(AlgNumber(h.alg), 1);
    assert Pow10(5) == 100000 && Pow10(1) == 10;
  }

  function Pow10(n: nat): nat {
    if n == 0 then 1 else 10 * Pow10(n - 1)
  }

  lemma Pow10Twenty()
    ensures Pow10(20) == 100000000000000000000
  {
    assert Pow10(10) == 10000000000;
    assert Pow10(20) == 10 * Pow10(19);
    assert Pow10(15) == 1000000000000000;
  }

  lemma {:induction false} PrintLength(n: nat, digits: nat)
    requires n < Pow10(digits) && digits >= 1
    ensures |Str.PrintNat(n)| <= digits
  {
    if n < 10 {
    } else {
      assert digits > 1;
      PrintLength(n / 10, digits - 1);
    }
  }
}
