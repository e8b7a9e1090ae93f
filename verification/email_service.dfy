/** The mail side of verification: issuing the token (`GenerateVerificationToken`),
    composing and sending the verification message (`SendVerificationEmail`)
    and reporting the configured lifetime (`GetTokenExpiry`).

    The clock is a parameter (`now`, whole Unix seconds). The OAuth2 token
    source, the Gmail client constructor and the Gmail send call are
    represented only by whether they fail, and with which error. */
module EmailService {
  import opened Errors
  import opened Decimal
  import opened Jwt

  /** Go's `int` and `time.Duration`, both 64-bit signed integers. */
  type Int64 = x: int | -0x8000_0000_0000_0000 <= x <= 0x7FFF_FFFF_FFFF_FFFF

  /** The fields of an EmailService this model uses. `tokenExpiry` is in
      minutes and is taken as configured: nothing requires it to be
      positive. */
  datatype Service = Service(jwtSecretKey: string, verificationUrl: string, tokenExpiry: Int64)

  const NanosPerSecond: int := 1_000_000_000
  const NanosPerMinute: int := 60_000_000_000

  /** The largest minute count whose length in nanoseconds fits in a
      `time.Duration`. */
  const MaxMinutes: int := 153_722_867

  /** Two's complement wrap-around of Go's int64 arithmetic. */
  function Wrap64(x: int): (r: Int64)
    ensures -0x8000_0000_0000_0000 <= x <= 0x7FFF_FFFF_FFFF_FFFF ==> r == x
    ensures (r - x) % 0x1_0000_0000_0000_0000 == 0
  {
    (x + 0x8000_0000_0000_0000) % 0x1_0000_0000_0000_0000 - 0x8000_0000_0000_0000
  }

  /** The "exp" value of a token issued at Unix second `now`:
      `time.Now().Add(time.Minute * time.Duration(minutes)).Unix()`. The
      product is an int64 and wraps; adding a duration to a whole second and
      truncating to seconds rounds the nanoseconds down. */
  function ExpiryAt(now: int, minutes: Int64): (exp: int)
    ensures -MaxMinutes <= minutes <= MaxMinutes ==> exp == now + 60 * minutes
    ensures -MaxMinutes <= minutes <= 0 ==> exp <= now
  {
    now + Wrap64(NanosPerMinute * minutes) / NanosPerSecond
  }

  /** Past `MaxMinutes` the product wraps: one minute more yields a token
      that expired long before it was issued, one minute less than the
      negative bound yields one that expires centuries later. */
  lemma ExpiryWrapsPastMaxMinutes(now: int)
    ensures ExpiryAt(now, MaxMinutes + 1) < now
    ensures ExpiryAt(now, -MaxMinutes - 1) > now + 9_000_000_000
  {
  }

  /** `GetTokenExpiry`: the configured minutes, which are exactly the
      lifetime issued tokens get whenever the product does not wrap. */
  function GetTokenExpiry(svc: Service): (minutes: Int64)
    ensures minutes == svc.tokenExpiry
    ensures -MaxMinutes <= svc.tokenExpiry <= MaxMinutes ==>
              forall now :: ExpiryAt(now, svc.tokenExpiry) == now + 60 * minutes
  {
    svc.tokenExpiry
  }

  /** The JOSE header `jwt.NewWithClaims(jwt.SigningMethodHS256, …)` writes. */
  const IssuedHeader: JsonObject := map["alg" := Str("HS256"), "typ" := Str("JWT")]

  function VerificationClaims(email: string, exp: int): JsonObject
  {
    map["email" := Str(email), "exp" := Number(exp)]
  }

  /** The token before serialisation: the two claims, signed with HS256
      under the secret's bytes. */
  function VerificationToken(secret: string, email: string, exp: int): Token
  {
    var claims := VerificationClaims(email, exp);
    Token(IssuedHeader, claims, Mac(HS256, secret, IssuedHeader, claims))
  }

  /** A Go `(string, error)` result. */
  datatype Issued = Issued(token: string, err: Option<Error>)

  /** `GenerateVerificationToken`. `signFault` is the error the library's
      `SignedString` reports, if any. */
  function GenerateVerificationToken(svc: Service, codec: Codec, email: string, now: int, signFault: Option<Error>): (r: Issued)
    ensures r.err.Some? <==> signFault.Some?
    ensures r.err.Some? ==> r.token == "" && Message(r.err.value) == "failed to generate token: " + Message(signFault.value)
    ensures r.err.None? ==> r.token == codec.serialize(VerificationToken(svc.jwtSecretKey, email, ExpiryAt(now, svc.tokenExpiry)))
  {
    if signFault.Some? then Issued("", Some(Flatten("failed to generate token", signFault.value)))
    else Issued(codec.serialize(VerificationToken(svc.jwtSecretKey, email, ExpiryAt(now, svc.tokenExpiry))), None)
  }

  /** What a receiver decodes from an issued token: header algorithm HS256,
      exactly the claims "email" (the argument) and "exp" (`ExpiryAt`), and
      an HS256 MAC under the service's secret. */
  lemma IssuedTokenContents(svc: Service, codec: Codec, email: string, now: int)
    requires RoundTrips(codec)
    ensures var r := GenerateVerificationToken(svc, codec, email, now, None);
            && r.err.None?
            && codec.parse(r.token).Some?
            && var t := codec.parse(r.token).value;
            && t.header["alg"] == Str("HS256")
            && t.claims.Keys == {"email", "exp"}
            && t.claims["email"] == Str(email)
            && t.claims["exp"] == Number(ExpiryAt(now, svc.tokenExpiry))
            && t.signature == Mac(HS256, svc.jwtSecretKey, t.header, t.claims)
  {
  }

  /** Issue, then decode with the same secret before expiry: the claims
      come back as issued. */
  lemma IssueThenDecode(svc: Service, codec: Codec, email: string, issuedAt: int, now: int)
    requires RoundTrips(codec)
    requires now < ExpiryAt(issuedAt, svc.tokenExpiry)
    ensures var r := GenerateVerificationToken(svc, codec, email, issuedAt, None);
            DecodeJWT(codec, r.token, svc.jwtSecretKey, now)
            == Ok(VerificationClaims(email, ExpiryAt(issuedAt, svc.tokenExpiry)))
  {
  }

  /** An issued token is refused once its (non-zero) expiry second has
      come, and at any time under a different secret. */
  lemma IssuedTokenRefused(svc: Service, codec: Codec, email: string, issuedAt: int, now: int, otherSecret: string)
    requires RoundTrips(codec)
    ensures var r := GenerateVerificationToken(svc, codec, email, issuedAt, None);
            var exp := ExpiryAt(issuedAt, svc.tokenExpiry);
            && (exp != 0 && exp <= now ==> DecodeJWT(codec, r.token, svc.jwtSecretKey, now) == Err(New("invalid token")))
            && (otherSecret != svc.jwtSecretKey ==> DecodeJWT(codec, r.token, otherSecret, now) == Err(New("invalid token")))
  {
  }

  // ---------------------------------------------------------------------
  // Composing the message

  const BodyLead: string := "To verify your account, please click the link below within "
  const MinutesTail: string := " minutes:\n"
  const TokenParam: string := "?token="
  const SubjectField: string := "Subject: Email Verification"

  /** The verification link the message carries. */
  function Link(url: string, token: string): string
  {
    url + TokenParam + token
  }

  /** The body `fmt.Sprintf` builds: the minutes in `%d` form, a line
      break, then the link. */
  function MessageBody(minutes: int, url: string, token: string): string
  {
    BodyLead + FormatInt(minutes) + MinutesTail + Link(url, token)
  }

  /** The RFC 5322 message handed to Gmail (before base64url encoding): a
      "To" field with the address inserted verbatim, a "Subject" field, an
      empty line, then the body. */
  function RawMessage(email: string, body: string): string
  {
    "To: " + email + "\r\n" + SubjectField + "\r\n\r\n" + body
  }

  /** Position `k` of `s` starts the empty line that ends the header
      section (RFC 5322 section 2.1). */
  predicate BlankLineAt(s: string, k: int)
  {
    0 <= k && k + 4 <= |s| && s[k] == '\r' && s[k + 1] == '\n' && s[k + 2] == '\r' && s[k + 3] == '\n'
  }

  /** The first blank-line position at or after `from`. */
  function FindBlankLine(s: string, from: nat): (r: Option<nat>)
    requires from <= |s|
    ensures r.Some? ==> from <= r.value && BlankLineAt(s, r.value)
    ensures r.Some? ==> forall k :: from <= k < r.value ==> !BlankLineAt(s, k)
    ensures r.None? ==> forall k :: from <= k ==> !BlankLineAt(s, k)
    decreases |s| - from
  {
    if from + 4 > |s| then None
    else if BlankLineAt(s, from) then Some(from)
    else FindBlankLine(s, from + 1)
  }

  /** Splits a message into its header section and its body at the first
      empty line. */
  function SplitHeaderBody(raw: string): Option<(string, string)>
  {
    match FindBlankLine(raw, 0)
    case None => None
    case Some(k) => Some((raw[..k], raw[k + 4..]))
  }

  /** The first blank line is at `j` when there is one at `j` and none
      before. */
  lemma FirstBlankLine(s: string, j: nat)
    requires BlankLineAt(s, j)
    requires forall k :: 0 <= k < j ==> !BlankLineAt(s, k)
    ensures FindBlankLine(s, 0) == Some(j)
  {
  }

  /** When the address holds no carriage return, a reader splitting the
      message at its first empty line gets back the two header fields and
      exactly the composed body. */
  lemma RawMessageSplits(email: string, body: string)
    requires forall i :: 0 <= i < |email| ==> email[i] != '\r'
    ensures SplitHeaderBody(RawMessage(email, body)) == Some(("To: " + email + "\r\n" + SubjectField, body))
  {
    var head := "To: " + email + "\r\n" + SubjectField;
    var raw := RawMessage(email, body);
    assert raw == head + "\r\n\r\n" + body;
    var j := |head|;
    forall k | 0 <= k < j
      ensures !BlankLineAt(raw, k)
    {
      if k < 4 {
        assert raw[k] == "To: "[k];
      } else if k < 4 + |email| {
        assert raw[k] == email[k - 4];
      } else if k == 4 + |email| {
        assert raw[k + 2] == 'S';
      } else if k == 5 + |email| {
        assert raw[k] == '\n';
      } else {
        assert raw[k] == SubjectField[k - 6 - |email|];
      }
    }
    assert BlankLineAt(raw, j);
    FirstBlankLine(raw, j);
    assert raw[..j] == head;
    assert raw[j + 4..] == body;
  }

  /** The address is not sanitised: one carrying an empty line moves the
      header/body boundary, so the reader sees a body the code never
      composed (header injection). */
  lemma AddressWithBlankLineInjects(body: string)
    ensures SplitHeaderBody(RawMessage("a\r\n\r\nb", body))
            == Some(("To: a", "b\r\n" + SubjectField + "\r\n\r\n" + body))
  {
    var raw := RawMessage("a\r\n\r\nb", body);
    assert raw == "To: a" + "\r\n\r\n" + ("b\r\n" + SubjectField + "\r\n\r\n" + body);
    assert BlankLineAt(raw, 5);
    forall k | 0 <= k < 5
      ensures !BlankLineAt(raw, k)
    {
      assert raw[k] == "To: a"[k];
    }
    FirstBlankLine(raw, 5);
    assert raw[..5] == "To: a";
    assert raw[9..] == "b\r\n" + SubjectField + "\r\n\r\n" + body;
  }

  /** What a reader of the body sees: the minutes it names and the link. */
  datatype BodyText = BodyText(minutes: int, link: string)

  /** The first position at or after `from` holding `c`. */
  function FindChar(s: string, c: char, from: nat): (r: Option<nat>)
    requires from <= |s|
    ensures r.Some? ==> from <= r.value < |s| && s[r.value] == c
    ensures r.Some? ==> forall k :: from <= k < r.value ==> s[k] != c
    ensures r.None? ==> forall k :: from <= k < |s| ==> s[k] != c
    decreases |s| - from
  {
    if from == |s| then None
    else if s[from] == c then Some(from)
    else FindChar(s, c, from + 1)
  }

  /** Reads a verification body: the fixed lead, a `%d` numeral up to the
      next space, the fixed " minutes:" line end, then the link. */
  function ReadBody(body: string): Option<BodyText>
  {
    if |body| < |BodyLead| || body[..|BodyLead|] != BodyLead then None
    else
      var rest := body[|BodyLead|..];
      match FindChar(rest, ' ', 0)
      case None => None
      case Some(k) =>
        var tail := rest[k..];
        match ParseInt(rest[..k])
        case None => None
        case Some(n) =>
          if |tail| < |MinutesTail| || tail[..|MinutesTail|] != MinutesTail then None
          else Some(BodyText(n, tail[|MinutesTail|..]))
  }

  /** Round trip of the body: a reader gets back the configured minutes and
      the link `url?token=<token>`. */
  lemma BodyReadsBack(minutes: int, url: string, token: string)
    ensures ReadBody(MessageBody(minutes, url, token)) == Some(BodyText(minutes, Link(url, token)))
  {
    var f := FormatInt(minutes);
    var body := MessageBody(minutes, url, token);
    var rest := f + MinutesTail + Link(url, token);
    assert body == BodyLead + rest;
    assert body[..|BodyLead|] == BodyLead;
    assert body[|BodyLead|..] == rest;
    forall k | 0 <= k < |f|
      ensures rest[k] != ' '
    {
      assert rest[k] == f[k];
    }
    assert rest[|f|] == ' ';
    var found := FindChar(rest, ' ', 0);
    assert found == Some(|f|);
    assert rest[..|f|] == f;
    FormatThenParse(minutes);
    var tail := rest[|f|..];
    assert tail == MinutesTail + Link(url, token);
    assert tail[..|MinutesTail|] == MinutesTail;
    assert tail[|MinutesTail|..] == Link(url, token);
  }

  /** The minutes the verification message announces are the ones
      `GetTokenExpiry` reports. */
  lemma AnnouncedExpiryIsReported(svc: Service, token: string)
    ensures var b := ReadBody(MessageBody(svc.tokenExpiry, svc.verificationUrl, token));
            b.Some? && b.value.minutes == GetTokenExpiry(svc)
  {
    BodyReadsBack(svc.tokenExpiry, svc.verificationUrl, token);
  }

  /** The token is the tail of the composed message: everything before it is
      fixed by the address, the minutes and the URL. */
  lemma TokenIsMessageTail(email: string, minutes: int, url: string, token: string)
    ensures RawMessage(email, MessageBody(minutes, url, token))
            == RawMessage(email, MessageBody(minutes, url, "")) + token
  {
  }

  // ---------------------------------------------------------------------
  // Sending

  /** How the collaborators behave on one call: the error, if any, of the
      credential fetch (`tokenSource.Token()`, which refreshes only when the
      access token is stale), of creating the Gmail client, and of the send. */
  datatype MailEnv = MailEnv(credential: Option<Error>, client: Option<Error>, send: Option<Error>)

  /** The steps taken against the mail provider, in order. `Deliver` is the
      send call with the message it was given. */
  datatype Call = FetchCredential | CreateClient | Deliver(raw: string)

  datatype Sent = Sent(err: Option<Error>, calls: seq<Call>)

  predicate NoDelivery(calls: seq<Call>)
  {
    forall i :: 0 <= i < |calls| ==> !calls[i].Deliver?
  }

  predicate AtMostOneDelivery(calls: seq<Call>)
  {
    forall i, j :: 0 <= i < |calls| && 0 <= j < |calls| && calls[i].Deliver? && calls[j].Deliver? ==> i == j
  }

  /** `SendVerificationEmail`. A failing credential fetch or client
      creation returns its wrapped error before any message is composed or
      sent; otherwise exactly one send is attempted, with the composed
      message, and its error, wrapped, is the result. */
  function SendVerificationEmail(svc: Service, email: string, token: string, env: MailEnv): (r: Sent)
    ensures AtMostOneDelivery(r.calls)
    ensures 1 <= |r.calls| && r.calls[0] == FetchCredential
    ensures env.credential.Some? ==> r.err == Some(Wrapf("failed to refresh token", env.credential.value)) && NoDelivery(r.calls)
    ensures env.credential.None? && env.client.Some? ==>
              r.err == Some(Wrapf("failed to create Gmail service", env.client.value)) && NoDelivery(r.calls)
    ensures env.credential.None? && env.client.None? ==>
              && r.calls[|r.calls| - 1] == Deliver(RawMessage(email, MessageBody(svc.tokenExpiry, svc.verificationUrl, token)))
              && (env.send.None? ==> r.err.None?)
              && (env.send.Some? ==> r.err == Some(Wrapf("failed to send email", env.send.value)))
  {
    if env.credential.Some? then
      Sent(Some(Wrapf("failed to refresh token", env.credential.value)), [FetchCredential])
    else if env.client.Some? then
      Sent(Some(Wrapf("failed to create Gmail service", env.client.value)), [FetchCredential, CreateClient])
    else
      var raw := RawMessage(email, MessageBody(svc.tokenExpiry, svc.verificationUrl, token));
      var err := if env.send.Some? then Some(Wrapf("failed to send email", env.send.value)) else None;
      Sent(err, [FetchCredential, CreateClient, Deliver(raw)])
  }
}
