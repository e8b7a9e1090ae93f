/** The two workflows: `Register` (insert an unverified user, issue a token,
    mail it) and `VerifyEmail` (decode a token, mark its address verified).

    Each collaborator's behaviour on a call is a parameter; the model
    records which collaborator steps a call took, in order, so that the
    abort-before-send ordering can be stated. */
module UserService {
  import opened Errors
  import opened Jwt
  import opened EmailService
  import opened UserRepository

  /** The decoded registration request: a nickname and an address, neither
      of them checked by this code. */
  datatype RegisterRequest = RegisterRequest(nickname: string, email: string)

  /** The collaborators' behaviour during one `Register` call: the clock
      reading for the row (line 32) and the later one taken for the
      token's expiry, the id the database assigns, the INSERT's outcome,
      the signing fault if any, and the mail provider's outcomes. */
  datatype RegisterEnv = RegisterEnv(
    createdAt: int,
    issuedAt: int,
    newId: string,
    save: Exec,
    signFault: Option<Error>,
    mail: MailEnv)

  /** A collaborator step: the INSERT, the token signing, or a step against
      the mail provider. */
  datatype Step = Insert | Sign | Mailer(call: Call)

  datatype Registered = Registered(table: Table, err: Option<Error>, steps: seq<Step>)

  function MailSteps(calls: seq<Call>): (s: seq<Step>)
    ensures |s| == |calls|
    ensures forall i :: 0 <= i < |calls| ==> s[i] == Mailer(calls[i])
  {
    seq(|calls|, i requires 0 <= i < |calls| => Mailer(calls[i]))
  }

  predicate StepDelivers(s: Step)
  {
    s.Mailer? && s.call.Deliver?
  }

  predicate NoMailSent(steps: seq<Step>)
  {
    forall i :: 0 <= i < |steps| ==> !StepDelivers(steps[i])
  }

  predicate AtMostOneMail(steps: seq<Step>)
  {
    forall i, j :: 0 <= i < |steps| && 0 <= j < |steps| && StepDelivers(steps[i]) && StepDelivers(steps[j]) ==> i == j
  }

  /** The row `Register` asks the repository to insert. */
  function NewUser(req: RegisterRequest, createdAt: int): User
  {
    User("", req.nickname, req.email, false, createdAt)
  }

  /** `UserService.Register`. The steps run in order and the first failure
      ends the call; nothing is undone, so a failure after the INSERT leaves
      the unverified row in place. */
  function Register(svc: Service, codec: Codec, t: Table, req: RegisterRequest, env: RegisterEnv): (r: Registered)
    ensures 1 <= |r.steps| && r.steps[0] == Insert
    ensures AtMostOneMail(r.steps)
    ensures env.save.Failed? ==> r.table == t && r.err == Some(env.save.cause) && r.steps == [Insert]
    ensures env.save.Done? ==>
              && |r.table| == |t| + 1
              && r.table[..|t|] == t
              && r.table[|t|] == User(env.newId, req.nickname, req.email, false, env.createdAt)
    ensures env.save.Done? && env.signFault.Some? ==>
              && r.err.Some?
              && Message(r.err.value) == "failed to generate token: " + Message(env.signFault.value)
              && r.steps == [Insert, Sign]
    ensures env.save.Done? && env.signFault.None? ==>
              var token := GenerateVerificationToken(svc, codec, req.email, env.issuedAt, None).token;
              var sent := SendVerificationEmail(svc, req.email, token, env.mail);
              && r.err == sent.err
              && r.steps == [Insert, Sign] + MailSteps(sent.calls)
    ensures env.save.Failed? || env.signFault.Some? || env.mail.credential.Some? || env.mail.client.Some? ==>
              NoMailSent(r.steps)
  {
    var saved := Save(t, NewUser(req, env.createdAt), env.newId, env.save);
    if saved.err.Some? then Registered(saved.table, saved.err, [Insert])
    else
      var issued := GenerateVerificationToken(svc, codec, req.email, env.issuedAt, env.signFault);
      if issued.err.Some? then Registered(saved.table, issued.err, [Insert, Sign])
      else
        var sent := SendVerificationEmail(svc, req.email, issued.token, env.mail);
        var steps := [Insert, Sign] + MailSteps(sent.calls);
        assert env.mail.credential.Some? || env.mail.client.Some? ==> NoMailSent(steps) by {
          if env.mail.credential.Some? || env.mail.client.Some? {
            forall i | 0 <= i < |steps| ensures !StepDelivers(steps[i]) {
              if i >= 2 {
                assert steps[i] == Mailer(sent.calls[i - 2]);
              }
            }
          }
        }
        assert AtMostOneMail(steps) by {
          forall i, j | 0 <= i < |steps| && 0 <= j < |steps| && StepDelivers(steps[i]) && StepDelivers(steps[j])
            ensures i == j
          {
            assert steps[i] == Mailer(sent.calls[i - 2]) && steps[j] == Mailer(sent.calls[j - 2]);
          }
        }
        Registered(saved.table, sent.err, steps)
  }

  /** `claims["email"].(string)` followed by the emptiness check: the claim
      must be present, a string, and non-empty. */
  function ClaimedEmail(claims: JsonObject): (r: Option<string>)
    ensures r.Some? <==> "email" in claims && claims["email"].Str? && claims["email"].str != ""
    ensures r.Some? ==> claims["email"] == Str(r.value)
  {
    if "email" in claims && claims["email"].Str? && claims["email"].str != "" then Some(claims["email"].str)
    else None
  }

  /** `UserService.VerifyEmail`: decode with the service's secret, extract
      the address, run the UPDATE. Any failure is returned as it came and
      leaves the table untouched; an address with no row still succeeds. */
  function VerifyEmail(svc: Service, codec: Codec, t: Table, token: string, now: int, exec: Exec): (r: Written)
    ensures var d := DecodeJWT(codec, token, svc.jwtSecretKey, now);
            d.Err? ==> r == Written(t, Some(New("invalid token")))
    ensures var d := DecodeJWT(codec, token, svc.jwtSecretKey, now);
            d.Ok? && ClaimedEmail(d.value).None? ==> r == Written(t, Some(New("invalid token data")))
    ensures var d := DecodeJWT(codec, token, svc.jwtSecretKey, now);
            d.Ok? && ClaimedEmail(d.value).Some? ==>
              && (exec.Done? ==> r == Written(MarkVerified(t, ClaimedEmail(d.value).value), None))
              && (exec.Failed? ==> r == Written(t, Some(exec.cause)))
  {
    match DecodeJWT(codec, token, svc.jwtSecretKey, now)
    case Err(e) => Written(t, Some(e))
    case Ok(claims) =>
      match ClaimedEmail(claims)
      case None => Written(t, Some(New("invalid token data")))
      case Some(email) =>
        UserRepository.VerifyEmail(t, email, exec)
  }

  /** Verification never removes or reorders rows, never clears a flag, and
      changes only the verified flag of rows whose address the token
      carries. */
  lemma VerifyOnlyRaisesFlags(svc: Service, codec: Codec, t: Table, token: string, now: int, exec: Exec)
    ensures var r := VerifyEmail(svc, codec, t, token, now, exec).table;
            && |r| == |t|
            && (forall i :: 0 <= i < |t| && t[i].verified ==> r[i].verified)
            && (forall i :: 0 <= i < |t| ==> r[i].(verified := t[i].verified) == t[i])
    ensures var r := VerifyEmail(svc, codec, t, token, now, exec).table;
            var d := DecodeJWT(codec, token, svc.jwtSecretKey, now);
            forall i :: 0 <= i < |t| && r[i].verified && !t[i].verified ==>
              d.Ok? && ClaimedEmail(d.value) == Some(t[i].email)
  {
  }

  /** Verifying twice with the same token leaves the same table as verifying
      once, and the second call succeeds whenever the first did. */
  lemma VerifyIdempotent(svc: Service, codec: Codec, t: Table, token: string, now: int)
    ensures var once := VerifyEmail(svc, codec, t, token, now, Done);
            var twice := VerifyEmail(svc, codec, once.table, token, now, Done);
            twice.table == once.table && twice.err == once.err
  {
  }

  /** A registration with an empty address can never be confirmed: its
      token, once decoded, carries an empty "email" claim, which is refused
      with "invalid token data". */
  lemma EmptyAddressNeverVerifies(svc: Service, codec: Codec, t: Table, issuedAt: int, now: int, exec: Exec)
    requires RoundTrips(codec)
    ensures var token := GenerateVerificationToken(svc, codec, "", issuedAt, None).token;
            var v := VerifyEmail(svc, codec, t, token, now, exec);
            v.table == t && v.err.Some?
  {
  }

  /** End to end: when the INSERT and the signing succeed and the mail
      provider accepts the credential and the client, `Register` hands
      exactly one message to the send call; the token at its tail, presented
      to `VerifyEmail` before it expires, marks the new row verified and
      changes nothing but verified flags of that address. This holds even
      when the send call itself fails. */
  lemma RegisterThenVerify(svc: Service, codec: Codec, t: Table, req: RegisterRequest, env: RegisterEnv, now: int)
    requires RoundTrips(codec)
    requires env.save.Done? && env.signFault.None? && env.mail.credential.None? && env.mail.client.None?
    requires req.email != ""
    requires now < ExpiryAt(env.issuedAt, svc.tokenExpiry)
    ensures var r := Register(svc, codec, t, req, env);
            |r.steps| == 5 && StepDelivers(r.steps[4])
    ensures var r := Register(svc, codec, t, req, env);
            var raw := r.steps[4].call.raw;
            var lead := RawMessage(req.email, MessageBody(svc.tokenExpiry, svc.verificationUrl, ""));
            && |lead| <= |raw|
            && raw[..|lead|] == lead
            && var v := VerifyEmail(svc, codec, r.table, raw[|lead|..], now, Done);
            && v.err.None?
            && v.table == MarkVerified(r.table, req.email)
            && v.table[|t|].verified
  {
    var issued := GenerateVerificationToken(svc, codec, req.email, env.issuedAt, None);
    var token := issued.token;
    var r := Register(svc, codec, t, req, env);
    var raw := r.steps[4].call.raw;
    TokenIsMessageTail(req.email, svc.tokenExpiry, svc.verificationUrl, token);
    var lead := RawMessage(req.email, MessageBody(svc.tokenExpiry, svc.verificationUrl, ""));
    assert raw == lead + token;
    assert raw[..|lead|] == lead && raw[|lead|..] == token;
    IssueThenDecode(svc, codec, req.email, env.issuedAt, now);
  }
}
