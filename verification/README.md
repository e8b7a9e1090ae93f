# Email verification for user registration, modelled in Dafny

This project models the core of a small Go web service. The service
registers users and confirms that each user owns their email address. Three
pieces carry that behaviour:

- **Verification tokens.** `GenerateVerificationToken` issues a JWT
  (RFC 7519). Its claims are `email` and `exp`, where `exp` is now plus
  `TokenExpiry` minutes. It is signed with HS256 (section 3.2 of RFC 7518).
  `DecodeJWT` puts a gate in front of the golang-jwt parser: it refuses every
  `alg` outside the HMAC family and collapses every failure into one error.
- **The verification message.** `SendVerificationEmail` fetches an OAuth2
  credential and creates a Gmail client. It then composes an RFC 5322
  message (header fields, an empty line, a body holding the minutes and the
  link `URL?token=…`) and sends it once.
- **The users table and the two workflows.** `Save` inserts a row.
  `VerifyEmail` sets `verified = true` on every row with a given address.
  `UserService.Register` chains INSERT → token → mail.
  `UserService.VerifyEmail` chains decode → claim check → UPDATE.

Everything is a pure function over immutable values. The users table is a
`seq<User>`. Every collaborator's behaviour on a call is a parameter: the
database's answer to a statement, a signing fault, the OAuth2 credential
fetch, the Gmail client and the Gmail send. The clock is a parameter too, in whole Unix
seconds. `Register` reads the clock twice (once for `created_at`, once for the
token's expiry), so it takes two readings.

How the libraries are modelled:

- **Compact serialisation.** The JWT serialisation (base64url segments of
  JSON) is a parameter `Codec`. Its round-trip law `RoundTrips` is a
  hypothesis of the lemmas that need it, not an axiom.
- **HMAC.** A MAC is a symbolic term `Mac(alg, key, header, claims)`. The
  model assumes that two MACs are equal only when they were built from equal
  parts. Real HMAC does not meet this for some pairs of keys (see "## Left
  out").
- **The parser.** `jwt.Parse` follows golang-jwt v5 with default options:
  - it looks up `alg` among the registered methods, `none` included;
  - it calls the key function;
  - it verifies the signature;
  - it checks `exp` and `nbf`. The number 0 counts as absent. Any other
    non-number is a type error.

Module layout: `Errors` (Go error values), `Decimal` (Go `%d` and its inverse),
`Jwt` (internal/utils/jwt.utils.go and the parser it calls), `EmailService`,
`UserRepository` and `UserService`, one file each.

Behaviour a reader might expect that the code does not have:

- Decoding does not pin HS256. Any HMAC variant under the secret is accepted.
- Nothing requires `TokenExpiry > 0`.
- The codec does not type-check the `email` claim. `UserService.VerifyEmail`
  does, after decoding.
- There is no empty-secret check in the code.
- The mailer has no retry on authorisation failure and no single-flight
  refresh.
- There is no duplicate-address check and no existence check before the
  UPDATE.
- The branch that returns "invalid token claims" cannot be reached. The
  parser marks a token valid exactly when it reports no error (`Jwt.Parse`),
  and `jwt.Parse` always yields `MapClaims`.

## Model

| member | source | states |
|---|---|---|
| `Jwt.Parse` | internal/utils/jwt.utils.go:13-18 | the parser marks a token valid exactly when it reports no error, so the "invalid token claims" branch at lines 23-26 is unreachable |
| `Jwt.VerificationKey` | internal/utils/jwt.utils.go:13-18 | the key function refuses exactly the non-HMAC methods, with "unexpected signing method", and otherwise yields the secret's bytes unchanged as the key |
| `Jwt.DecodeJWT` | internal/utils/jwt.utils.go:12-29 | every failure is the single error "invalid token"; success holds exactly when the text parses to a token that is `Accepted` (an HMAC `alg`, the MAC under the secret, time claims valid); on success the claim map is returned unmodified |
| `Jwt.NonHmacRejectedBeforeKey` | internal/utils/jwt.utils.go:14-15 | a token naming a registered non-HMAC method (including `none`) is refused by the key function, and the outcome is identical under any two secrets |
| `Jwt.HmacFamilyAccepted` | internal/utils/jwt.utils.go:14-17 | the method gate is family-level: a token MACed with HS256, HS384 or HS512 under the secret decodes to its claims |
| `Jwt.OtherSecretRejected` | internal/utils/jwt.utils.go:17-21 | a token MACed under one secret is refused with "invalid token" under any other secret, MACs being taken as injective in the key |
| `Jwt.ExpiredRejected` | internal/utils/jwt.utils.go:13-21 | a token whose non-zero `exp` is at or before now is refused with "invalid token", whatever its signature |
| `Decimal.FormatThenParse` | internal/service/email.service.go:95-97 | the `%d` rendering of the minutes reads back as the same integer, negative values included |
| `Decimal.ParseThenFormat` | internal/service/email.service.go:95-97 | whatever the strict parser accepts is the `%d` rendering of its value, so the rendering is one-to-one |
| `EmailService.ExpiryAt` | internal/service/email.service.go:56 | `exp` is now + 60 × minutes while minutes × 60·10⁹ fits an int64; in that range TokenExpiry ≤ 0 gives an `exp` at or before issuance |
| `EmailService.ExpiryWrapsPastMaxMinutes` | internal/service/email.service.go:56 | past that range the int64 product wraps: one minute more gives an `exp` before issuance, one minute fewer than the negative bound gives one centuries ahead |
| `EmailService.GetTokenExpiry` | internal/service/email.service.go:117-120 | the reported minutes are the configured ones; while 60·10⁹ × minutes fits an int64 they are exactly the lifetime tokens are issued with |
| `EmailService.AnnouncedExpiryIsReported` | internal/service/email.service.go:95-120 | the minutes a reader finds in the verification message are the minutes `GetTokenExpiry` reports |
| `EmailService.GenerateVerificationToken` | internal/service/email.service.go:55-68 | a signing fault gives the empty token and the error "failed to generate token: <cause>"; otherwise there is no error and the token is the serialised HS256-signed `{email, exp}` token |
| `EmailService.IssuedTokenContents` | internal/service/email.service.go:56-62 | a receiver decodes `alg` HS256, exactly the claim keys `email` and `exp`, `email` equal to the argument, `exp` equal to `ExpiryAt`, and a MAC under `JWTSecretKey` |
| `EmailService.IssueThenDecode` | internal/service/email.service.go:53-67 | an issued token decoded with the same secret before its expiry yields exactly the issued claims |
| `EmailService.IssuedTokenRefused` | internal/service/email.service.go:56-62 | an issued token is refused once its non-zero expiry second has come, and, with the symbolic MAC, under a different secret |
| `EmailService.BodyReadsBack` | internal/service/email.service.go:95-98 | a reader of the body gets back the configured minutes and the link URL + "?token=" + token |
| `EmailService.RawMessageSplits` | internal/service/email.service.go:100-105 | when the address has no carriage return, splitting the raw message at its first empty line gives the "To" and "Subject" fields and exactly the composed body |
| `EmailService.AddressWithBlankLineInjects` | internal/service/email.service.go:101-105 | the address is inserted verbatim: one holding CRLF CRLF moves the header/body boundary (header injection) |
| `EmailService.TokenIsMessageTail` | internal/service/email.service.go:95-105 | the token is the tail of the raw message; everything before it is fixed by the address, the minutes and the URL |
| `EmailService.SendVerificationEmail` | internal/service/email.service.go:72-115 | the credential fetch comes first; a failed fetch or client creation returns its wrapped error with no send; otherwise exactly one send of the composed message is attempted; a send error comes back wrapped, otherwise nil |
| `UserRepository.Save` | internal/repository/user.repository.go:22-26 | on success exactly one row is appended, carrying the given nickname, email, verified flag and created_at, with the id the database assigns; on failure the table is unchanged and the error is returned as is |
| `UserRepository.MarkVerified` | internal/repository/user.repository.go:31 | same length; every row with the address gets verified = true and nothing else changes; every other row is untouched |
| `UserRepository.VerifyEmail` | internal/repository/user.repository.go:30-34 | on success the error is nil and the table is `MarkVerified`, whatever the number of rows affected; on failure the table is unchanged and the error is returned as is |
| `UserRepository.SaveAddsDuplicate` | internal/repository/user.repository.go:23-24 | no duplicate check: a successful save raises the count of rows with that address by one |
| `UserRepository.MarkVerifiedIdempotent` | internal/repository/user.repository.go:31 | marking twice leaves the same table as marking once |
| `UserRepository.MarkVerifiedNoMatch` | internal/repository/user.repository.go:31-33 | an address no row carries leaves the table unchanged |
| `UserRepository.VerifiedOnlyRises` | internal/repository/user.repository.go:31 | the flag only moves false→true; a row's new flag is its old flag or'ed with "address matches", and no other column changes |
| `UserRepository.MarkVerifiedCommutes` | internal/repository/user.repository.go:31 | verifying two addresses gives the same table in either order |
| `UserRepository.NoRowRemoved` | internal/repository/user.repository.go:22-34 | neither statement removes a row: each earlier row keeps its position, id, nickname, address and creation time |
| `UserService.Register` | internal/service/user.serivce.go:27-46 | the INSERT comes first; a failed INSERT returns its error with no signing and no mail; otherwise the row (request's nickname and email, verified = false) stays whatever follows; a signing error is returned with no mail; otherwise the result is exactly the mail-send result; at most one message is sent |
| `UserService.ClaimedEmail` | internal/service/user.serivce.go:56-59 | an address is extracted exactly when the `email` claim is present, a string and non-empty |
| `UserService.VerifyEmail` | internal/service/user.serivce.go:50-67 | a decode failure returns "invalid token" and a bad `email` claim returns "invalid token data", both with the table untouched; otherwise an executed UPDATE marks exactly the claimed address and reports success, even with no matching row; a failed UPDATE returns its error |
| `UserService.VerifyOnlyRaisesFlags` | internal/service/user.serivce.go:50-67 | verification keeps every row and its position, never clears a flag, and changes nothing but verified flags; a flag it raises belongs to a row whose address is the token's valid `email` claim |
| `UserService.VerifyIdempotent` | internal/service/user.serivce.go:50-67 | verifying twice with the same token gives the same table and the same result as verifying once |
| `UserService.EmptyAddressNeverVerifies` | internal/service/user.serivce.go:56-59 | a token issued for the empty address is always refused and leaves the table unchanged |
| `UserService.RegisterThenVerify` | internal/service/user.serivce.go:27-61 | when the INSERT, signing, credential fetch and client creation succeed, one message is sent; its trailing token, verified before expiry, marks the new row verified with success, even if the send call failed |

## Left out

- OAuth2 refresh (section 6 of RFC 6749) and the token source's caching rule (a valid cached access token is returned without a refresh) are not modelled. Only success or failure of `tokenSource.Token()` is kept, as a parameter.
- The Gmail client and the Gmail send call are modelled only as success or failure. No network behaviour is modelled.
- There is no concurrency, no retry, no deadline and no single-flight refresh. The code has none of these.
- The JWT compact serialisation, base64url (section 5 of RFC 4648) and JSON are the `Codec` parameter. Only its round-trip law is used.
- HMAC-SHA2 is the symbolic `Mac` term (a perfect-MAC reading). Forgery by hash collision is outside the model.
- Jwt.OtherSecretRejected: holds only under the symbolic `Mac`, which is injective in its key. Real HMAC (section 2 of RFC 2104) has equivalent keys: a key and the same key followed by zero bytes pad to the same block, and a key longer than the hash block (64 bytes for HS256) acts as its own SHA-256 digest. Such a second secret would accept the token.
- EmailService.IssuedTokenRefused: its "any other secret" half rests on the same symbolic `Mac` and does not cover the equivalent HMAC keys named on the previous line.
- The base64url encoding of the Gmail `Raw` field is not modelled. The model stops at the raw message text.
- Strings are sequences of characters. Go's byte-level string and UTF-8 conversions are not modelled, so `[]byte(secret)` is the secret itself.
- The clock has whole seconds only. Sub-second instants and `time.Time`'s monotonic reading are dropped.
- JSON numbers are whole numbers. golang-jwt decodes them as float64; fractional values and the loss of precision above 2^53 are not modelled.
- The parser's optional checks (`iat`, `aud`, `iss`, `sub`, leeway, required `exp`) are not modelled. `DecodeJWT` enables none of them.
- The signing fault of `SignedString` is a parameter. No condition of the library's own that makes it fail is modelled.
- An empty secret gets no special treatment. Whether the library's HMAC refuses an empty key, when signing or when verifying, is not modelled.
- The SQL engine and schema are not modelled. Each statement's outcome and the id the database assigns are parameters. No unique index is assumed.
- Logging is not modelled. It never changes the result.
- config/config.go (environment loading, `log.Fatalf`) is not part of this model.
- internal/app/app.go (database connection and routing) is not part of this model.
- internal/handler/user.handler.go (HTTP decoding, status codes, the confirmation text, the empty-token check) is not part of this model.
- internal/dto/user.dto.go's `validate:` tags are never enforced by the code modelled here. Addresses are taken as given.
