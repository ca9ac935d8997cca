/** Tokens as the server validates them: their length, the length limit of validation, and keys that the caller
    gives. */
module JwtValidation {
  import opened Bytes
  import opened JwtToken
  import opened JwtServer
  import Base64

  function AsCString(text: bytes): bytes {
    text + [0]
  }

  lemma CreatedText(hm: Hmac, h: Header, key: bytes, input: bytes)
    requires hm.Lawful() && CanSign(h, key, input)
    ensures TokenOf(hm, h, key, input)
         == Signed(h, input) + [DOT] + Base64.Unpadded(hm.mac(h.alg, key, Signed(h, input)))
  {
    hide Base64.Unpadded, Signed, CalSignB64;
    SignatureText(hm, h, key, input);
  }

  lemma NoNul(x: bytes)
    ensures forall i :: 0 <= i < |Base64.Encode(x)| ==> Base64.Encode(x)[i] != 0
    ensures forall i :: 0 <= i < |Base64.Unpadded(x)| ==> Base64.Unpadded(x)[i] != 0
  {
    assert Base64.AllAlphabet(Base64.Unpadded(x));
    assert !Base64.IsBase64(0);
  }

  lemma TokenIsCString(hm: Hmac, h: Header, key: bytes, input: bytes)
    requires hm.Lawful() && CanSign(h, key, input)
    ensures CString(AsCString(TokenOf(hm, h, key, input)))
  {
    hide Base64.Encode, Base64.Unpadded, Signed, CalSignB64, TokenOf, ToString;
    SignatureText(hm, h, key, input);
    NoNul(ToString(h));
    NoNul(input);
    NoNul(hm.mac(h.alg, key, Signed(h, input)));
    CreatedText(hm, h, key, input);
  }

  lemma UnpaddedLength(x: bytes)
    ensures |Base64.Unpadded(x)| == (4 * |x| + 2) / 3
  {
    Base64.ValuesLength(x);
  }

  /** The length of every token, from the lengths of header and input and the algorithm. */
  lemma TokenLength(hm: Hmac, h: Header, key: bytes, input: bytes)
    requires hm.Lawful() && CanSign(h, key, input)
    ensures |TokenOf(hm, h, key, input)|
         == (4 * |ToString(h)| + 2) / 3 + (|input| + 2) / 3 * 4 + (4 * HmacLen(h.alg) + 2) / 3 + 2
  {
    hide Base64.Encode, Base64.Unpadded, Signed, CalSignB64, TokenOf, ToString;
    SignatureText(hm, h, key, input);
    CreatedText(hm, h, key, input);
    UnpaddedLength(ToString(h));
    UnpaddedLength(hm.mac(h.alg, key, Signed(h, input)));
    Base64.EncodeLength(input);
  }

  /** Creating accepts inputs up to 100 MiB and validating refuses tokens from there on: whatever the server, the token
      of an input of 80000000 bytes or more is refused at once, and one of up to 78643000 is not for its length. */
  lemma LongInputsRefused(km: Km, hm: Hmac, s: State, h: Header, key: bytes, input: bytes, arg: bytes, now: nat)
    requires hm.Lawful() && CanSign(h, key, input) && s.started
    ensures |input| >= 80000000 ==>
              ValidateToken(km, hm, s, AsCString(TokenOf(hm, h, key, input)), arg, now) == PARAM_INVALID
    ensures |input| <= 78643000 ==> |TokenOf(hm, h, key, input)| < JWT_INPUT_LENGTH_MAX
  {
    hide TokenOf, OpenToken, ToString;
    TokenLength(hm, h, key, input);
    HeaderLength(h);
  }

  /** With a key that the caller gives: a token validates under the key it was made with if and only if it is shorter
      than 100 MiB and its header can be read and is unexpired. */
  lemma ValidatesExactly(km: Km, hm: Hmac, s: State, h: Header, key: bytes, input: bytes, now: nat)
    requires hm.Lawful() && CanSign(h, key, input) && CString(key) && s.started && s.opts.mode == EXTERNAL_KEY
    ensures ValidateToken(km, hm, s, AsCString(TokenOf(hm, h, key, input)), key, now) == OK <==>
            && |TokenOf(hm, h, key, input)| < JWT_INPUT_LENGTH_MAX
            && h.create < I64_LIMIT && (h.expire == -1 || now < h.create || now <= h.create + 60 * h.expire)
  {
    hide OpenToken, TokenOf, Signed, CalSignB64, Base64.Unpadded, CString, ToString;
    TokenIsCString(hm, h, key, input);
    var text := TokenOf(hm, h, key, input);
    assert AsCString(text)[..|AsCString(text)| - 1] == text;
    OpensOwn(hm, h, key, input, now);
    SignatureText(hm, h, key, input);
  }

  /** The token that a server creates with a given key validates under that key, on that server, exactly then. */
  lemma CreatedValidatesExactly(km: Km, hm: Hmac, s: State, key: bytes, input: bytes, room: nat, t: nat, now: nat)
    requires hm.Lawful() && HeaderFits(s.header) && s.opts.mode == EXTERNAL_KEY
    requires CreateToken(km, hm, s, key, input, room, t).0 == OK
    ensures ValidateToken(km, hm, s, AsCString(CreateToken(km, hm, s, key, input, room, t).1), key, now) == OK <==>
            && |CreateToken(km, hm, s, key, input, room, t).1| < JWT_INPUT_LENGTH_MAX
            && s.header.create < I64_LIMIT
            && (s.header.expire == -1 || now < s.header.create || now <= s.header.create + 60 * s.header.expire)
  {
    hide Create, ValidateToken;
    MadeMeansSigned(hm, s.header, key, input);
    ValidatesExactly(km, hm, s, s.header, key, input, now);
  }

  /** Under any other key no token validates. */
  lemma OtherKeyRefused(km: Km, hm: Hmac, s: State, h: Header, key: bytes, key': bytes, input: bytes, now: nat)
    requires hm.Lawful() && CanSign(h, key, input) && key' != key && hm.Separates({key, key'})
    requires s.opts.mode == EXTERNAL_KEY
    ensures ValidateToken(km, hm, s, AsCString(TokenOf(hm, h, key, input)), key', now) != OK
  {
    hide OpenToken, TokenOf, Signed, CalSignB64, Base64.Unpadded, CString, ToString;
    var text := TokenOf(hm, h, key, input);
    assert AsCString(text)[..|AsCString(text)| - 1] == text;
    OpensOwn(hm, h, key, input, now);
    OtherSignature(hm, h, key, key', input);
  }

  /** The last second of a token that expires: with the key that the caller gives it validates then, and one second
      later every server refuses it as expired. */
  lemma LastSecond(km: Km, hm: Hmac, s: State, h: Header, key: bytes, input: bytes, arg: bytes)
    requires hm.Lawful() && CanSign(h, key, input) && s.started && h.create < I64_LIMIT && h.expire >= 0
    requires |TokenOf(hm, h, key, input)| < JWT_INPUT_LENGTH_MAX
    ensures s.opts.mode == EXTERNAL_KEY && CString(key) ==>
              ValidateToken(km, hm, s, AsCString(TokenOf(hm, h, key, input)), key, h.create + 60 * h.expire) == OK
    ensures ValidateToken(km, hm, s, AsCString(TokenOf(hm, h, key, input)), arg, h.create + 60 * h.expire + 1)
         == TOKEN_EXPIRED
  {
    hide OpenToken, TokenOf, CString, ValidateInternal, ToString;
    var text := TokenOf(hm, h, key, input);
    assert AsCString(text)[..|AsCString(text)| - 1] == text;
    TokenIsCString(hm, h, key, input);
    OpensOwn(hm, h, key, input, h.create + 60 * h.expire + 1);
    if s.opts.mode == EXTERNAL_KEY && CString(key) {
      ValidatesExactly(km, hm, s, h, key, input, h.create + 60 * h.expire);
    }
  }
}
