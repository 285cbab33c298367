/** Checks on a security token and fetching of the issuer's keys
    (apps/core-server/src/sts_token_validator.rs).

    Decoding a token, parsing a key and verifying a signature are parameters. */
module StsToken {
  import opened Wrappers

  type Time = int

  datatype Key = Key(handle: int)

  /** The JWK Set in use: keys by key id, and the time after which to fetch again. */
  datatype Jwks = Jwks(ttl: Time, keys: map<string, Key>)

  datatype Payload = Payload(issuer: Option<string>, audience: Option<seq<string>>, expiresAt: Option<Time>, notBefore: Option<Time>)

  datatype Token = Token(algorithm: string, kid: Option<string>, payload: Payload, unverified: string, signature: string)

  datatype PublicJwk = PublicJwk(kid: Option<string>, material: int)

  datatype Config = Config(
    aud: string, iss: string, leeway: nat, ttlJwks: nat, maxRetries: nat,
    decode: string -> Option<Token>, parseKey: PublicJwk -> Option<Key>, verify: (Key, string, string) -> bool)

  datatype StsError =
    | EmptyToken | FailedToDecodeJwt | UnsupportedAlgorithm | MissingKid
    | MissingIssuer | IncorrectIssuer | MissingAudience | IncorrectAudience
    | MissingExpirationDate | ExpiredToken | NotBeforeToken
    | NoMatchingKey | FailedToVerifySignature

  // ----- Checks before the keys are looked at

  function ValidatePayload(cfg: Config, p: Payload, now: Time): (r: Result<(), StsError>)
    ensures r.Ok? <==>
              && p.issuer == Some(cfg.iss)
              && p.audience.Some? && cfg.aud in p.audience.value
              && p.expiresAt.Some? && now <= p.expiresAt.value + cfg.leeway
              && (p.notBefore.Some? ==> p.notBefore.value <= now + cfg.leeway)
  {
    if p.issuer.None? then Err(MissingIssuer)
    else if p.issuer.value != cfg.iss then Err(IncorrectIssuer)
    else if p.audience.None? then Err(MissingAudience)
    else if cfg.aud !in p.audience.value then Err(IncorrectAudience)
    else if p.expiresAt.None? then Err(MissingExpirationDate)
    else if p.expiresAt.value < now - cfg.leeway then Err(ExpiredToken)
    else if p.notBefore.Some? && p.notBefore.value > now + cfg.leeway then Err(NotBeforeToken)
    else Ok(())
  }

  /** The header and payload are those of a current token of this issuer for this audience. */
  predicate Acceptable(cfg: Config, token: Token, now: Time) {
    token.algorithm == "EdDSA" && token.kid.Some? && ValidatePayload(cfg, token.payload, now).Ok?
  }

  function PreCheck(cfg: Config, raw: string, now: Time): (r: Result<Token, StsError>)
    ensures r.Ok? <==> raw != "" && cfg.decode(raw).Some? && Acceptable(cfg, cfg.decode(raw).value, now)
    ensures r.Ok? ==> cfg.decode(raw) == Some(r.value)
  {
    if raw == "" then Err(EmptyToken)
    else
      match cfg.decode(raw)
      case None => Err(FailedToDecodeJwt)
      case Some(token) =>
        if token.algorithm != "EdDSA" then Err(UnsupportedAlgorithm)
        else if token.kid.None? then Err(MissingKid)
        else
          match ValidatePayload(cfg, token.payload, now)
          case Err(e) => Err(e)
          case Ok(_) => Ok(token)
  }

  /** The signature check against one set of keys. */
  function CheckSignature(cfg: Config, token: Token, jwks: Jwks): (r: Result<Token, StsError>)
    requires token.kid.Some?
    ensures r.Ok? <==> token.kid.value in jwks.keys && cfg.verify(jwks.keys[token.kid.value], token.unverified, token.signature)
  {
    if token.kid.value !in jwks.keys then Err(NoMatchingKey)
    else if !cfg.verify(jwks.keys[token.kid.value], token.unverified, token.signature) then Err(FailedToVerifySignature)
    else Ok(token)
  }

  /** The whole check of one token at one time against one set of keys. */
  function ValidateToken(cfg: Config, raw: string, now: Time, jwks: Jwks): Result<Token, StsError> {
    match PreCheck(cfg, raw, now)
    case Err(e) => Err(e)
    case Ok(token) => CheckSignature(cfg, token, jwks)
  }

  /** What each error says about the token. */
  ghost predicate Fault(cfg: Config, raw: string, now: Time, jwks: Jwks, e: StsError) {
    if e == EmptyToken then raw == ""
    else if cfg.decode(raw).None? then e == FailedToDecodeJwt
    else
      var token := cfg.decode(raw).value;
      var p := token.payload;
      match e
      case EmptyToken => false
      case FailedToDecodeJwt => false
      case UnsupportedAlgorithm => token.algorithm != "EdDSA"
      case MissingKid => token.kid.None?
      case MissingIssuer => p.issuer.None?
      case IncorrectIssuer => p.issuer.Some? && p.issuer.value != cfg.iss
      case MissingAudience => p.audience.None?
      case IncorrectAudience => p.audience.Some? && cfg.aud !in p.audience.value
      case MissingExpirationDate => p.expiresAt.None?
      case ExpiredToken => p.expiresAt.Some? && p.expiresAt.value + cfg.leeway < now
      case NotBeforeToken => p.notBefore.Some? && now + cfg.leeway < p.notBefore.value
      case NoMatchingKey => token.kid.Some? && token.kid.value !in jwks.keys
      case FailedToVerifySignature =>
        && token.kid.Some? && token.kid.value in jwks.keys
        && !cfg.verify(jwks.keys[token.kid.value], token.unverified, token.signature)
  }

  /** The order in which faults are looked for. */
  function Precedence(e: StsError): nat {
    match e
    case EmptyToken => 0
    case FailedToDecodeJwt => 1
    case UnsupportedAlgorithm => 2
    case MissingKid => 3
    case MissingIssuer => 4
    case IncorrectIssuer => 5
    case MissingAudience => 6
    case IncorrectAudience => 7
    case MissingExpirationDate => 8
    case ExpiredToken => 9
    case NotBeforeToken => 10
    case NoMatchingKey => 11
    case FailedToVerifySignature => 12
  }

  /** A token without fault is accepted as decoded; any other is refused with its first fault. */
  lemma FirstFaultIsReported(cfg: Config, raw: string, now: Time, jwks: Jwks)
    ensures match ValidateToken(cfg, raw, now, jwks)
            case Ok(token) => cfg.decode(raw) == Some(token) && forall e :: !Fault(cfg, raw, now, jwks, e)
            case Err(e) => Fault(cfg, raw, now, jwks, e)
                           && forall e' | Precedence(e') < Precedence(e) :: !Fault(cfg, raw, now, jwks, e')
  {
  }

  /** A payload that is accepted at some time is, under any leeway, accepted at exactly the times
      from its start less the leeway to its expiry plus the leeway. */
  lemma AcceptedWindow(cfg: Config, p: Payload, a: Time, leeway: nat, t: Time)
    requires ValidatePayload(cfg, p, a).Ok?
    ensures ValidatePayload(cfg.(leeway := leeway), p, t).Ok? <==>
              && (p.notBefore.Some? ==> p.notBefore.value - leeway <= t)
              && t <= p.expiresAt.value + leeway
  {
  }

  /** Once expired, a payload is refused for good, for the same reason, unless a reason that does
      not depend on the time comes first, which then holds at all times. */
  lemma RefusalsLast(cfg: Config, p: Payload, a: Time, t: Time)
    requires ValidatePayload(cfg, p, a).Err?
    ensures var e := ValidatePayload(cfg, p, a).error;
            && (e == ExpiredToken && a <= t ==> ValidatePayload(cfg, p, t) == Err(ExpiredToken))
            && (e == NotBeforeToken && t <= a ==> ValidatePayload(cfg, p, t) == Err(NotBeforeToken))
            && (e != ExpiredToken && e != NotBeforeToken ==> ValidatePayload(cfg, p, t) == Err(e))
  {
  }

  /** What is accepted depends on the key set through the token's own key alone. */
  lemma OnlyOwnKeyMatters(cfg: Config, raw: string, now: Time, a: Jwks, b: Jwks)
    requires forall token | PreCheck(cfg, raw, now) == Ok(token) :: token.kid.Some? ==>
               (token.kid.value in a.keys <==> token.kid.value in b.keys)
               && (token.kid.value in a.keys ==> a.keys[token.kid.value] == b.keys[token.kid.value])
    ensures ValidateToken(cfg, raw, now, a) == ValidateToken(cfg, raw, now, b)
  {
  }

  function HasExpired(jwks: Jwks, now: Time): bool {
    jwks.ttl < now
  }

  // ----- Turning a key set document into a key map

  /** The last key with this id. */
  function LastWith(dto: seq<PublicJwk>, kid: string): Option<PublicJwk> {
    if dto == [] then None
    else if dto[|dto| - 1].kid == Some(kid) then Some(dto[|dto| - 1])
    else LastWith(dto[..|dto| - 1], kid)
  }

  ghost predicate AllParse(cfg: Config, dto: seq<PublicJwk>) {
    forall i | 0 <= i < |dto| && dto[i].kid.Some? :: cfg.parseKey(dto[i]).Some?
  }

  /** The key map holds, per key id in the document, the last key with that id, parsed. */
  ghost predicate KeysOf(cfg: Config, dto: seq<PublicJwk>, keys: map<string, Key>) {
    forall kid :: match LastWith(dto, kid)
                  case None => kid !in keys
                  case Some(k) => kid in keys && cfg.parseKey(k) == Some(keys[kid])
  }

  /** Keys without an id are skipped; one that does not parse fails the whole document. */
  method CollectKeys(cfg: Config, dto: seq<PublicJwk>) returns (r: Result<map<string, Key>, StsJwksFetcherError>)
    ensures r.Ok? <==> AllParse(cfg, dto)
    ensures r.Ok? ==> KeysOf(cfg, dto, r.value)
    ensures r.Err? ==> r.error == FailedToParseJwk
  {
    var keys: map<string, Key> := map[];
    for i := 0 to |dto|
      invariant AllParse(cfg, dto[..i])
      invariant KeysOf(cfg, dto[..i], keys)
    {
      assert dto[..i + 1][..i] == dto[..i];
      if dto[i].kid.Some? {
        match cfg.parseKey(dto[i]) {
          case None =>
            return Err(FailedToParseJwk);
          case Some(key) =>
            keys := keys[dto[i].kid.value := key];
        }
      }
    }
    assert dto[..|dto|] == dto;
    return Ok(keys);
  }

  lemma KeysOfUnique(cfg: Config, dto: seq<PublicJwk>, a: map<string, Key>, b: map<string, Key>)
    requires KeysOf(cfg, dto, a) && KeysOf(cfg, dto, b)
    ensures a == b
  {
    forall kid
      ensures kid in a <==> kid in b
      ensures kid in a ==> a[kid] == b[kid]
    {
      var last := LastWith(dto, kid);
    }
  }

  // ----- Fetching with retries

  datatype HttpOutcome = Response(keys: seq<PublicJwk>) | HttpError(code: int)

  datatype StsJwksFetcherError = RetriesExceeded(last: Option<int>) | FailedToParseJwk

  /** Attempt `n` is the first that gets a response. */
  ghost predicate FirstResponse(attempt: nat -> HttpOutcome, n: nat) {
    attempt(n).Response? && forall m: nat | m < n :: attempt(m).HttpError?
  }

  /** Up to `maxRetries` retries after the first attempt; the first response decides. */
  method FetchJwksWithRetries(cfg: Config, attempt: nat -> HttpOutcome, clock: nat -> Time)
    returns (r: Result<Jwks, StsJwksFetcherError>, ghost attempts: nat)
    ensures attempts <= cfg.maxRetries + 1
    ensures r == Err(RetriesExceeded(if attempt(cfg.maxRetries).HttpError? then Some(attempt(cfg.maxRetries).code) else None))
            <==> forall n: nat | n <= cfg.maxRetries :: attempt(n).HttpError?
    ensures r.Ok? <==> exists n: nat :: n <= cfg.maxRetries && FirstResponse(attempt, n) && AllParse(cfg, attempt(n).keys)
    ensures r.Ok? ==> exists n: nat :: n <= cfg.maxRetries && FirstResponse(attempt, n)
                                       && KeysOf(cfg, attempt(n).keys, r.value.keys) && r.value.ttl == clock(n) + cfg.ttlJwks
  {
    var retries: nat := 0;
    var lastError: Option<int> := None;
    attempts := 0;
    while true
      invariant attempts == retries <= cfg.maxRetries + 1
      invariant forall n: nat | n < retries :: attempt(n).HttpError?
      invariant lastError == if retries == 0 then None else Some(attempt(retries - 1).code)
      decreases cfg.maxRetries + 1 - retries
    {
      if retries > cfg.maxRetries {
        return Err(RetriesExceeded(lastError)), attempts;
      }
      attempts := attempts + 1;
      match attempt(retries) {
        case Response(dto) =>
          assert FirstResponse(attempt, retries);
          var keys := CollectKeys(cfg, dto);
          assert forall n: nat | FirstResponse(attempt, n) :: n == retries;
          match keys {
            case Err(e) =>
              return Err(e), attempts;
            case Ok(ks) =>
              return Ok(Jwks(clock(retries) + cfg.ttlJwks, ks)), attempts;
          }
        case HttpError(code) =>
          lastError := Some(code);
          retries := retries + 1;
      }
    }
  }
}
