/** Entitlement tokens: claims printed, joined, encoded and signed, and read back. Strings are byte
    strings; the keyed hash is an arbitrary function with 32-byte results. */
module Tokens {
  import opened Basics
  import opened BigEndian
  import opened Decimal
  import Base64Url

  const DOT: Byte := 46
  const BAR: Byte := 124
  const HOSTED: Bytes := [104, 111, 115, 116, 101, 100]
  const ZERO_DIGEST: Bytes := ZERO_ID + ZERO_ID

  type Digest = d: Bytes | |d| == 32 witness ZERO_DIGEST

  /** key, message -> digest */
  type Mac = (Bytes, Bytes) -> Digest

  datatype Claims = Claims(subject: Bytes, tier: Bytes, expiry: I64)

  datatype TokenError = NoKey | InvalidClaims | MalformedToken | BadSignature | Expired

  predicate ValidTier(t: Bytes) {
    t == HOSTED
  }

  predicate ValidClaims(c: Claims) {
    c.subject != [] && BAR !in c.subject && ValidTier(c.tier) && c.expiry > 0
  }

  function Payload(c: Claims): Bytes {
    Base64Url.Encode(c.subject + [BAR] + c.tier + [BAR] + Format(c.expiry))
  }

  function Sign(mac: Mac, payload: Bytes, key: Bytes): Bytes {
    Base64Url.Encode(mac(key, payload))
  }

  function Issue(mac: Mac, c: Claims, key: Bytes): Result<Bytes, TokenError> {
    if key == [] then Err(NoKey)
    else if c.subject == [] || BAR in c.subject then Err(InvalidClaims)
    else if !ValidTier(c.tier) then Err(InvalidClaims)
    else if c.expiry <= 0 then Err(InvalidClaims)
    else Ok(Payload(c) + [DOT] + Sign(mac, Payload(c), key))
  }

  /** The claims a payload carries, whoever signed it. */
  function ReadClaims(payload: Bytes): Result<Claims, TokenError> {
    match Base64Url.Decode(payload)
    case None => Err(MalformedToken)
    case Some(raw) =>
      var parts := Split(raw, BAR);
      if |parts| != 3 then Err(MalformedToken)
      else match Parse(parts[2])
           case None => Err(MalformedToken)
           case Some(expiry) => Ok(Claims(parts[0], parts[1], expiry))
  }

  function Verify(mac: Mac, token: Bytes, key: Bytes, now: int): Result<Claims, TokenError> {
    if key == [] then Err(NoKey)
    else match Cut(token, DOT)
         case None => Err(MalformedToken)
         case Some((payload, sig)) =>
           if payload == [] || sig == [] then Err(MalformedToken)
           else if sig != Sign(mac, payload, key) then Err(BadSignature)
           else match ReadClaims(payload)
                case Err(e) => Err(e)
                case Ok(c) =>
                  if !ValidTier(c.tier) then Err(InvalidClaims)
                  else if now > c.expiry then Err(Expired)
                  else Ok(c)
  }

  // ---- What a payload carries ------------------------------------------------------------------

  /** Reading undoes writing for all valid claims. */
  lemma ReadPayload(c: Claims)
    requires ValidClaims(c)
    ensures ReadClaims(Payload(c)) == Ok(c)
  {
    assert BAR !in Format(c.expiry) by {
      if BAR in Format(c.expiry) {
        FormatAlphabet(c.expiry, BAR);
      }
    }
    SplitThree(c.subject, c.tier, Format(c.expiry), BAR);
    ParseFormat(c.expiry);
    Base64Url.DecodeEncode(c.subject + [BAR] + c.tier + [BAR] + Format(c.expiry));
  }

  /** Different claims never share a payload. */
  lemma PayloadInjective(c: Claims, d: Claims)
    requires ValidClaims(c) && ValidClaims(d) && Payload(c) == Payload(d)
    ensures c == d
  {
    ReadPayload(c);
    ReadPayload(d);
  }

  /** What a token consists of: two parts around a dot; the first decodes to subject, tier and expiry with
      bars between them, the second to the keyed hash of the first. */
  lemma TokenText(mac: Mac, c: Claims, key: Bytes, token: Bytes)
    requires Issue(mac, c, key) == Ok(token)
    ensures exists payload: Bytes, sig: Bytes ::
              && token == payload + ['.' as int] + sig
              && Base64Url.Decode(payload) == Some(c.subject + ['|' as int] + c.tier + ['|' as int] + Format(c.expiry))
              && Base64Url.Decode(sig) == Some(mac(key, payload))
    ensures c.tier == ['h' as int, 'o' as int, 's' as int, 't' as int, 'e' as int, 'd' as int]
  {
    var payload, sig := Payload(c), Sign(mac, Payload(c), key);
    Base64Url.DecodeEncode(c.subject + [BAR] + c.tier + [BAR] + Format(c.expiry));
    Base64Url.DecodeEncode(mac(key, payload));
    assert token == payload + ['.' as int] + sig;
  }

  /** A token is refused for the first of these: no key, no two parts, another signature, a payload that
      carries no claims, another tier, an expiry that has passed. */
  lemma VerifyRefuses(mac: Mac, payload: Bytes, sig: Bytes, key: Bytes, now: int)
    requires DOT !in payload
    ensures var r := Verify(mac, payload + [DOT] + sig, key, now);
            && (r == Err(NoKey) <==> key == [])
            && (key != [] && (payload == [] || sig == []) ==> r == Err(MalformedToken))
            && (key != [] && payload != [] && sig != [] ==>
                  && (r == Err(BadSignature) <==> sig != Sign(mac, payload, key))
                  && (sig == Sign(mac, payload, key) ==>
                        match ReadClaims(payload)
                        case Err(e) => r == Err(e)
                        case Ok(c) => r == if c.tier != HOSTED then Err(InvalidClaims) else if now > c.expiry then Err(Expired) else Ok(c)))
  {
    CutToken(payload, sig);
    ReadErrors(payload);
    hide Cut, ReadClaims, Sign;
  }

  lemma ReadErrors(payload: Bytes)
    ensures ReadClaims(payload).Err? ==> ReadClaims(payload) == Err(MalformedToken)
  {
  }

  /** A token is refused for want of a key, else for its claims. */
  lemma IssueRefuses(mac: Mac, c: Claims, key: Bytes)
    ensures Issue(mac, c, key) == Err(NoKey) <==> key == []
    ensures Issue(mac, c, key) == Err(InvalidClaims) <==>
            key != [] && (c.subject == [] || '|' as int in c.subject || c.tier != HOSTED || c.expiry <= 0)
  {
    hide Payload, Sign;
  }

  /** A text without a dot is no token. */
  lemma NoDotRefused(mac: Mac, token: Bytes, key: Bytes, now: int)
    requires DOT !in token && key != []
    ensures Verify(mac, token, key, now) == Err(MalformedToken)
  {
    CutNone(token, DOT);
  }

  /** A payload carries claims exactly when it decodes to three fields, the last one a number. */
  lemma ReadsExactly(payload: Bytes, c: Claims)
    ensures ReadClaims(payload) == Ok(c) <==>
            && Base64Url.Decode(payload).Some?
            && var parts := Split(Base64Url.Decode(payload).value, '|' as int);
               |parts| == 3 && parts[0] == c.subject && parts[1] == c.tier && Parse(parts[2]) == Some(c.expiry)
  {
    hide Base64Url.Decode, Split, Parse;
  }

  lemma EncodedHasNoDot(b: Bytes)
    ensures DOT !in Base64Url.Encode(b) && (b != [] ==> Base64Url.Encode(b) != [])
  {
    Base64Url.EncodedAlphabet(b);
    assert Base64Url.Value(DOT) == None;
  }

  /** A token is cut at its one separator, whatever stands after it. */
  lemma CutToken(payload: Bytes, rest: Bytes)
    requires DOT !in payload
    ensures Cut(payload + [DOT] + rest, DOT) == Some((payload, rest))
  {
    CutExactly(payload + [DOT] + rest, DOT, payload, rest);
  }

  lemma CutPrefix(payload: Bytes, token: Bytes)
    requires DOT !in payload && payload + [DOT] <= token
    ensures token == payload + [DOT] + token[|payload| + 1..]
    ensures Cut(token, DOT) == Some((payload, token[|payload| + 1..]))
  {
    assert token == payload + [DOT] + token[|payload| + 1..];
    CutToken(payload, token[|payload| + 1..]);
  }

  // ---- Issue and verify ------------------------------------------------------------------------

  /** Every token ever issued verifies to exactly its claims through its expiry second, and is
      reported expired from then on. Only unusable keys and claims are refused a token. */
  lemma IssueVerifies(mac: Mac, c: Claims, key: Bytes, now: int)
    ensures Issue(mac, c, key).Ok? <==> key != [] && ValidClaims(c)
    ensures Issue(mac, c, key).Ok? ==>
              Verify(mac, Issue(mac, c, key).value, key, now) == if now <= c.expiry then Ok(c) else Err(Expired)
  {
    if Issue(mac, c, key).Ok? {
      ReadPayload(c);
      EncodedHasNoDot(c.subject + [BAR] + c.tier + [BAR] + Format(c.expiry));
      EncodedHasNoDot(mac(key, Payload(c)));
      CutToken(Payload(c), Sign(mac, Payload(c), key));
    }
  }

  /** Verification accepts exactly the signed forms of payloads that carry unexpired claims of a
      token's tier. */
  lemma VerifiedExactly(mac: Mac, token: Bytes, key: Bytes, now: int, c: Claims)
    ensures Verify(mac, token, key, now) == Ok(c) <==>
            exists payload: Bytes ::
              && token == payload + [DOT] + Sign(mac, payload, key) && payload != [] && DOT !in payload && key != []
              && ReadClaims(payload) == Ok(c) && ValidTier(c.tier) && now <= c.expiry
  {
    if Verify(mac, token, key, now) == Ok(c) {
      var (payload, sig) := Cut(token, DOT).value;
      CutExactly(token, DOT, payload, sig);
      assert token == payload + [DOT] + Sign(mac, payload, key);
    }
    if payload: Bytes :|
      && token == payload + [DOT] + Sign(mac, payload, key) && payload != [] && DOT !in payload && key != []
      && ReadClaims(payload) == Ok(c) && ValidTier(c.tier) && now <= c.expiry
    {
      EncodedHasNoDot(mac(key, payload));
      CutToken(payload, Sign(mac, payload, key));
    }
  }

  /** A token that is accepted and whose payload was issued is the issued token, byte for byte, and
      yields the issued claims: nothing about a signed token can be varied. */
  lemma AcceptedIsIssued(mac: Mac, token: Bytes, key: Bytes, now: int, c: Claims, issued: Claims)
    requires Verify(mac, token, key, now) == Ok(c) && ValidClaims(issued)
    requires Payload(issued) + [DOT] <= token
    ensures Issue(mac, issued, key) == Ok(token) && c == issued
  {
    ReadPayload(issued);
    EncodedHasNoDot(issued.subject + [BAR] + issued.tier + [BAR] + Format(issued.expiry));
    hide Payload, ReadClaims, Cut, Sign;
    CutPrefix(Payload(issued), token);
  }

  /** Moving an issued signature to another payload, or checking it under another key, is detected
      exactly when the keyed hashes differ. */
  lemma SignatureBinds(mac: Mac, c: Claims, key: Bytes, payload: Bytes, key': Bytes, now: int)
    requires ValidClaims(c) && payload != [] && DOT !in payload && key' != []
    ensures Verify(mac, payload + [DOT] + Sign(mac, Payload(c), key), key', now) == Err(BadSignature)
       <==> mac(key', payload) != mac(key, Payload(c))
  {
    var sig := Sign(mac, Payload(c), key);
    CutToken(payload, sig);
    EncodedHasNoDot(mac(key, Payload(c)));
    if sig == Sign(mac, payload, key') {
      Base64Url.EncodeInjective(mac(key, Payload(c)), mac(key', payload));
    }
  }
}
