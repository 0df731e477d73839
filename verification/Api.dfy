/** What the HTTP client makes of a reply, and how the provider reports it. */
module Api {
  import opened Results
  import opened Text
  import opened Crypto
  import opened TwoFactor

  /** One HTTP exchange as the environment answers it. */
  datatype Reply = NoReply | Reply(status: nat, body: string)

  datatype ApiError = TwoFactorChallenge(body: Option<Json>) | Status(status: nat, detail: string)
                    | Unreachable | Malformed

  datatype ProviderError =
    | Auth(detail: string)
    | Forbidden(detail: string)
    | NotFound(what: string)
    | Transport(detail: string)
    | Server(detail: string)
    | BadRef(detail: string)
    | CryptoFailure(error: CryptoError)
    | UnwrapFailures(count: nat, collection: string)
    | AuthExpired
    | TwoFactorRequired(providers: seq<string>)

  const CHALLENGE := "Two factor required."

  predicate IsChallenge(reply: Reply) {
    reply.Reply? && reply.status == 400 && SplitOnce(reply.body, CHALLENGE).Some?
  }

  /** The classification every endpoint shares: a 400 that carries the challenge text is a
      two-factor challenge whichever endpoint sent it. */
  function Classify<T>(json: string -> Option<Json>, decode: string -> Option<T>, reply: Reply): Result<T, ApiError> {
    match reply
    case NoReply => Err(Unreachable)
    case Reply(status, body) =>
      if 200 <= status < 300 then
        match decode(body)
        case Some(t) => Ok(t)
        case None => Err(Malformed)
      else if IsChallenge(reply) then Err(TwoFactorChallenge(json(body)))
      else Err(Status(status, body))
  }

  function MapApi(e: ApiError): ProviderError {
    match e
    case TwoFactorChallenge(body) => TwoFactorRequired(Offered(body))
    case Status(status, detail) =>
      if status == 401 then AuthExpired
      else if status == 403 then Forbidden(detail)
      else if status == 404 then NotFound(detail)
      else if 400 <= status < 500 then Auth(detail)
      else Server(detail)
    case Unreachable => Transport("")
    case Malformed => Transport("")
  }

  // ---------- what a caller sees of a reply ----------

  /** The challenge text stands somewhere in the body of a 400. */
  lemma ChallengeTextIff(reply: Reply)
    ensures IsChallenge(reply) <==>
              reply.Reply? && reply.status == 400 && exists i: nat :: OccursAt(reply.body, "Two factor required.", i)
  {
    if reply.Reply? { SplitOnceFirst(reply.body, CHALLENGE); }
  }

  /** A reply is a success with `t` exactly when it is a 2xx whose body decodes to `t`. */
  lemma SuccessIff<T(!new)>(json: string -> Option<Json>, decode: string -> Option<T>, reply: Reply, t: T)
    ensures Classify(json, decode, reply) == Ok(t) <==> reply.Reply? && 200 <= reply.status < 300 && decode(reply.body) == Some(t)
  {
    hide IsChallenge;
  }

  /** Each failure and the replies it stands for: every error the commands tell apart. */
  lemma FailureIs<T(!new)>(json: string -> Option<Json>, decode: string -> Option<T>, reply: Reply)
    requires Classify(json, decode, reply).Err?
    ensures var e := MapApi(Classify(json, decode, reply).error);
            match reply
            case NoReply => e == Transport("")
            case Reply(status, body) =>
              && (200 <= status < 300 ==> e == Transport(""))
              && (status == 401 ==> e == AuthExpired)
              && (status == 403 ==> e == Forbidden(body))
              && (status == 404 ==> e == NotFound(body))
              && (status == 400 && IsChallenge(reply) ==> e == TwoFactorRequired(Offered(json(body))))
              && (400 <= status < 500 && status !in {401, 403, 404} && !IsChallenge(reply) ==> e == Auth(body))
              && (!(200 <= status < 300) && !(400 <= status < 500) ==> e == Server(body))
  {
    hide Offered;
    if reply.Reply? && reply.status != 400 { assert !IsChallenge(reply); }
  }
}
