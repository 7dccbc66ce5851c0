/**
 * The three commitment request handlers (src/app/api/commitments/route.ts,
 * sign/route.ts, revoke/route.ts) as functions from the parsed request and
 * the result of the one store call they make to an outcome.
 *
 * A body of `None` stands for a request whose body is not JSON or is JSON
 * null: request.json() or the destructuring throws inside the handler's
 * try block. A store call either returns a value or throws.
 */
module CommitmentRoutes {
  import opened Wrappers
  import opened CommitmentModel

  /** The handler's response, without the HTTP framing. */
  datatype Outcome =
    | BadRequest
    | NotFound
    | Ok
    | Created(id: string)
    | Listed(commitments: seq<Commitment>)
    | ServerError

  /** What one awaited store call produced. */
  datatype Reply<T> = Returned(value: T) | Threw

  /** The reason the revoke handler passes when the request gives none. */
  const DefaultReason: string := "No reason provided"

  /** JavaScript truthiness of an optional string field: present and not "". */
  predicate Truthy(s: Option<string>) {
    s.Some? && s.value != ""
  }

  /** JavaScript truthiness of an optional number field: present and not 0. */
  predicate NonZero(n: Option<int>) {
    n.Some? && n.value != 0
  }

  /** GET /api/commitments: the list getAllCommitments returned, or a server error. */
  function GetCommitments(reply: Reply<seq<Commitment>>): (r: Outcome)
    ensures r.Listed? <==> reply.Returned?
    ensures r.Listed? ==> r.commitments == reply.value
    ensures r == ServerError <==> reply.Threw?
  {
    match reply
    case Returned(list) => Listed(list)
    case Threw => ServerError
  }

  /**
   * The record POST /api/commitments hands to createCommitment, or None
   * when the handler answers before calling the store. Only emptiness is
   * checked: any non-empty text, whitespace included, is accepted.
   */
  function CreateArgument(req: CreateCommitmentRequest): (r: Option<Commitment>)
    ensures r.Some? <==> Truthy(req.text) && NonZero(req.creatorFid)
    ensures r.Some? ==>
      && r.value.text == req.text.value
      && r.value.creatorFid == req.creatorFid.value
      && r.value.participants == Some(map[])
      && r.value.id == "" && r.value.createdAt == 0
  {
    if !Truthy(req.text) || !NonZero(req.creatorFid) then None
    else Some(Commitment("", req.text.value, req.creatorFid.value, 0, Some(map[])))
  }

  /** POST /api/commitments. */
  function PostCommitment(body: Option<CreateCommitmentRequest>, reply: Reply<string>): (r: Outcome)
    ensures r == BadRequest <==> body.Some? && CreateArgument(body.value).None?
    ensures r.Created? <==> body.Some? && CreateArgument(body.value).Some? && reply.Returned?
    ensures r.Created? ==> r.id == reply.value
    ensures r == ServerError <==> body.None? || (CreateArgument(body.value).Some? && reply.Threw?)
  {
    if body.None? then ServerError
    else if !Truthy(body.value.text) || !NonZero(body.value.creatorFid) then BadRequest
    else match reply
      case Returned(id) => Created(id)
      case Threw => ServerError
  }

  /** The arguments POST /api/commitments/sign passes to signCommitment, or None when it calls nothing. */
  function SignArguments(req: SignCommitmentRequest): (r: Option<(string, int)>)
    ensures r.Some? <==> Truthy(req.commitmentId) && NonZero(req.fid)
    ensures r.Some? ==> r.value == (req.commitmentId.value, req.fid.value)
  {
    if !Truthy(req.commitmentId) || !NonZero(req.fid) then None
    else Some((req.commitmentId.value, req.fid.value))
  }

  /** POST /api/commitments/sign. */
  function PostSign(body: Option<SignCommitmentRequest>, reply: Reply<bool>): (r: Outcome)
    ensures r == BadRequest <==> body.Some? && SignArguments(body.value).None?
    ensures r == NotFound <==> body.Some? && SignArguments(body.value).Some? && reply == Returned(false)
    ensures r == Ok <==> body.Some? && SignArguments(body.value).Some? && reply == Returned(true)
    ensures r == ServerError <==> body.None? || (SignArguments(body.value).Some? && reply.Threw?)
  {
    if body.None? then ServerError
    else if !Truthy(body.value.commitmentId) || !NonZero(body.value.fid) then BadRequest
    else match reply
      case Returned(success) => if success then Ok else NotFound
      case Threw => ServerError
  }

  /**
   * The arguments POST /api/commitments/revoke passes to revokeCommitment,
   * or None when it calls nothing; an empty or missing reason becomes
   * DefaultReason, so the store never receives an empty reason.
   */
  function RevokeArguments(req: RevokeCommitmentRequest): (r: Option<(string, int, string)>)
    ensures r.Some? <==> Truthy(req.commitmentId) && NonZero(req.fid)
    ensures r.Some? ==> r.value.0 == req.commitmentId.value && r.value.1 == req.fid.value
    ensures r.Some? && Truthy(req.reason) ==> r.value.2 == req.reason.value
    ensures r.Some? && !Truthy(req.reason) ==> r.value.2 == DefaultReason
    ensures r.Some? ==> r.value.2 != ""
  {
    if !Truthy(req.commitmentId) || !NonZero(req.fid) then None
    else
      var reason := if Truthy(req.reason) then req.reason.value else DefaultReason;
      Some((req.commitmentId.value, req.fid.value, reason))
  }

  /** POST /api/commitments/revoke. */
  function PostRevoke(body: Option<RevokeCommitmentRequest>, reply: Reply<bool>): (r: Outcome)
    ensures r == BadRequest <==> body.Some? && RevokeArguments(body.value).None?
    ensures r == NotFound <==> body.Some? && RevokeArguments(body.value).Some? && reply == Returned(false)
    ensures r == Ok <==> body.Some? && RevokeArguments(body.value).Some? && reply == Returned(true)
    ensures r == ServerError <==> body.None? || (RevokeArguments(body.value).Some? && reply.Threw?)
  {
    if body.None? then ServerError
    else if !Truthy(body.value.commitmentId) || !NonZero(body.value.fid) then BadRequest
    else match reply
      case Returned(success) => if success then Ok else NotFound
      case Threw => ServerError
  }

  /** A rejected create, sign or revoke answers the same whatever the store would have done. */
  lemma RejectedRequestsIgnoreStore(
    create: CreateCommitmentRequest, sign: SignCommitmentRequest, revoke: RevokeCommitmentRequest,
    id1: Reply<string>, id2: Reply<string>, b1: Reply<bool>, b2: Reply<bool>)
    ensures CreateArgument(create).None? ==>
      PostCommitment(Some(create), id1) == PostCommitment(Some(create), id2) == BadRequest
    ensures SignArguments(sign).None? ==>
      PostSign(Some(sign), b1) == PostSign(Some(sign), b2) == BadRequest
    ensures RevokeArguments(revoke).None? ==>
      PostRevoke(Some(revoke), b1) == PostRevoke(Some(revoke), b2) == BadRequest
  {
  }

  /** A store error is never reported as a bad request or as success. */
  lemma StoreErrorIsServerError(
    create: CreateCommitmentRequest, sign: SignCommitmentRequest, revoke: RevokeCommitmentRequest)
    ensures CreateArgument(create).Some? ==> PostCommitment(Some(create), Threw) == ServerError
    ensures SignArguments(sign).Some? ==> PostSign(Some(sign), Threw) == ServerError
    ensures RevokeArguments(revoke).Some? ==> PostRevoke(Some(revoke), Threw) == ServerError
    ensures GetCommitments(Threw) == ServerError
  {
  }

  /** Whitespace-only text passes validation; a zero creatorFid does not. */
  lemma CreateChecksOnlyEmptiness(text: string, fid: int, id: string)
    requires text != "" && fid != 0
    ensures PostCommitment(Some(CreateCommitmentRequest(Some(" "), Some(fid))), Returned(id)) == Created(id)
    ensures PostCommitment(Some(CreateCommitmentRequest(Some(text), Some(0))), Returned(id)) == BadRequest
    ensures PostCommitment(Some(CreateCommitmentRequest(Some(""), Some(fid))), Returned(id)) == BadRequest
  {
  }
}
