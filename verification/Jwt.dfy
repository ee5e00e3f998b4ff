/** Reading a JSON Web Token on the client: its payload, and the time it has left. */
module Jwt {
  import opened Optional
  import opened Base64

  /** The one claim the client uses; a token may lack it, and zero counts as lacking. */
  datatype Payload = Payload(exp: Option<real>)

  // ---------- splitting ----------

  /** JavaScript's `split` at a single character. */
  function Split(text: string, sep: char): (parts: seq<string>)
    ensures parts != []
  {
    if text == "" then [""]
    else
      var rest := Split(text[1..], sep);
      if text[0] == sep then [""] + rest else [[text[0]] + rest[0]] + rest[1..]
  }

  predicate Free(text: string, sep: char) {
    forall i :: 0 <= i < |text| ==> text[i] != sep
  }

  lemma {:induction false} SplitFree(text: string, sep: char)
    requires Free(text, sep)
    ensures Split(text, sep) == [text]
  {
    if text != "" {
      SplitFree(text[1..], sep);
      assert [text[0]] + text[1..] == text;
    }
  }

  lemma {:induction false} SplitFirst(part: string, rest: string, sep: char)
    requires Free(part, sep)
    ensures Split(part + [sep] + rest, sep) == [part] + Split(rest, sep)
  {
    var text := part + [sep] + rest;
    if part == "" {
      assert text[1..] == rest;
    } else {
      assert text[1..] == part[1..] + [sep] + rest;
      SplitFirst(part[1..], rest, sep);
      assert [part[0]] + part[1..] == part;
    }
  }

  // ---------- decoding ----------

  /** `parse` stands for `JSON.parse` on the decoded text; `None` is its exception. */
  function DecodeJwt(token: string, parse: seq<Byte> -> Option<Payload>): Option<Payload> {
    var parts := Split(token, '.');
    if |parts| != 3 || parts[1] == "" then None
    else
      match DecodePart(parts[1])
      case None => None
      case Some(bytes) => parse(bytes)
  }

  function Token(header: string, payload: string, signature: string): string {
    header + "." + (payload + "." + signature)
  }

  lemma TokenParts(header: string, payload: string, signature: string)
    requires Free(header, '.') && Free(payload, '.') && Free(signature, '.')
    ensures Split(Token(header, payload, signature), '.') == [header, payload, signature]
  {
    var tail := payload + "." + signature;
    assert Token(header, payload, signature) == header + ['.'] + tail;
    assert tail == payload + ['.'] + signature;
    SplitFirst(header, tail, '.');
    SplitFirst(payload, signature, '.');
    SplitFree(signature, '.');
  }

  function Join(parts: seq<string>, sep: char): string
    requires parts != []
  {
    if |parts| == 1 then parts[0] else parts[0] + [sep] + Join(parts[1..], sep)
  }

  /** The parts of any text are free of the separator and make up the text. */
  lemma {:induction false} SplitParts(text: string, sep: char)
    ensures Join(Split(text, sep), sep) == text
    ensures forall part :: part in Split(text, sep) ==> Free(part, sep)
  {
    if text != "" {
      var rest := Split(text[1..], sep);
      SplitParts(text[1..], sep);
      if text[0] == sep {
        assert ([""] + rest)[1..] == rest;
        assert text == [sep] + text[1..];
      } else {
        var first := [text[0]] + rest[0];
        assert ([first] + rest[1..])[1..] == rest[1..];
        assert rest == [rest[0]] + rest[1..];
        assert text == [text[0]] + text[1..];
        assert rest[0] in rest && Free(rest[0], sep) && Free(first, sep);
        assert forall part :: part in rest[1..] ==> part in rest;
      }
    }
  }

  /** A text with three parts is a token of those parts. */
  lemma ThreeParts(token: string)
    requires |Split(token, '.')| == 3
    ensures var parts := Split(token, '.');
            token == Token(parts[0], parts[1], parts[2]) && forall part :: part in parts ==> Free(part, '.')
  {
    var parts := Split(token, '.');
    SplitParts(token, '.');
    assert parts[1..] == [parts[1], parts[2]] && parts[1..][1..] == [parts[2]];
    assert Join(parts[1..], '.') == parts[1] + ['.'] + parts[2];
    assert token == parts[0] + ['.'] + (parts[1] + ['.'] + parts[2]);
  }

  /**
   * Which tokens are read, and as what: exactly those of three dot-free parts whose middle part
   * is not empty and decodes to bytes that the JSON parser accepts.
   */
  lemma ReadsIff(token: string, parse: seq<Byte> -> Option<Payload>, payload: Payload)
    ensures DecodeJwt(token, parse) == Some(payload)
            <==> exists header, part, signature ::
                   && token == Token(header, part, signature)
                   && Free(header, '.') && Free(part, '.') && Free(signature, '.') && part != ""
                   && DecodePart(part).Some? && parse(DecodePart(part).value) == Some(payload)
  {
    hide DecodePart;
    var parts := Split(token, '.');
    if DecodeJwt(token, parse) == Some(payload) {
      ThreeParts(token);
      assert parts[0] in parts && parts[1] in parts && parts[2] in parts;
    }
    if header, part, signature :|
        token == Token(header, part, signature)
        && Free(header, '.') && Free(part, '.') && Free(signature, '.') && part != ""
        && DecodePart(part).Some? && parse(DecodePart(part).value) == Some(payload) {
      TokenParts(header, part, signature);
    }
  }

  /**
   * Whatever bytes a payload has, a token that carries them as unpadded base64url between
   * any two dot-free parts hands exactly these bytes to the JSON parser. Only the empty
   * payload is refused before it gets there.
   */
  lemma PayloadIsRecovered(header: string, bytes: seq<Byte>, signature: string, parse: seq<Byte> -> Option<Payload>)
    requires Free(header, '.') && Free(signature, '.')
    ensures DecodeJwt(Token(header, EncodeUrl(bytes), signature), parse) == if bytes == [] then None else parse(bytes)
  {
    EncodedIsPlain(bytes);
    TokenParts(header, EncodeUrl(bytes), signature);
    DecodeEncoded(bytes);
    hide DecodePart;
  }

  // ---------- expiry ----------

  /** The expiry claim, when it is there and not zero. */
  function Expiry(payload: Option<Payload>): Option<real> {
    if payload.None? || payload.value.exp.None? || payload.value.exp.value == 0.0 then None
    else payload.value.exp
  }

  function IsExpired(payload: Option<Payload>, now: real): bool {
    Expiry(payload).None? || Expiry(payload).value < now
  }

  function TimeUntilExpiry(payload: Option<Payload>, now: real): real {
    if Expiry(payload).None? then 0.0
    else if Expiry(payload).value - now > 0.0 then Expiry(payload).value - now
    else 0.0
  }

  /**
   * What the two tests say, from the claim itself: with a claim that is not zero, whether its
   * moment has passed, and the time up to it or zero. Without one, or without a payload, the
   * token counts as expired.
   */
  lemma ClaimDecides(payload: Option<Payload>, now: real)
    ensures forall exp :: payload == Some(Payload(Some(exp))) && exp != 0.0 ==>
              && (IsExpired(payload, now) <==> exp < now)
              && TimeUntilExpiry(payload, now) == if exp > now then exp - now else 0.0
    ensures payload in {None, Some(Payload(None)), Some(Payload(Some(0.0)))} ==>
              IsExpired(payload, now) && TimeUntilExpiry(payload, now) == 0.0
  {
  }

  /** The two tests on a whole token: only the bytes of its payload and the clock matter. */
  lemma TokenLifetime(header: string, bytes: seq<Byte>, signature: string, parse: seq<Byte> -> Option<Payload>,
                      exp: real, now: real)
    requires Free(header, '.') && Free(signature, '.')
    requires bytes != [] && parse(bytes) == Some(Payload(Some(exp))) && exp != 0.0
    ensures var payload := DecodeJwt(Token(header, EncodeUrl(bytes), signature), parse);
            && (IsExpired(payload, now) <==> exp < now)
            && TimeUntilExpiry(payload, now) == if exp > now then exp - now else 0.0
  {
    PayloadIsRecovered(header, bytes, signature, parse);
    ClaimDecides(DecodeJwt(Token(header, EncodeUrl(bytes), signature), parse), now);
  }

  /** The two tests disagree at one instant only: the very moment of expiry. */
  lemma TimeLeftIffNotExpired(payload: Option<Payload>, now: real)
    ensures (TimeUntilExpiry(payload, now) > 0.0 <==> !IsExpired(payload, now))
            <==> Expiry(payload) != Some(now)
  {
  }
}
