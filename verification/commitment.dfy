/**
 * The records of src/lib/models/commitment.ts as Dafny datatypes.
 *
 * A stored record is a value: both backends serialise it on every write
 * and hand back a fresh copy on every read, so no two callers ever share
 * one participant object.
 */
module CommitmentModel {
  import opened Wrappers

  /** CommitmentStatus: a participant is exactly one of these two. */
  datatype Status = Active | Revoked

  /**
   * CommitmentParticipant: `joinedAt` and `status` are always present;
   * `revokeReason` is the only optional field.
   */
  datatype Participant = Participant(joinedAt: int, status: Status, revokeReason: Option<string>)

  /**
   * The participants map, keyed by fid. TypeScript turns the numeric fid
   * into a string property name; that conversion is injective on integers,
   * so keying by `int` loses nothing. Being a map, it holds at most one
   * entry per fid.
   */
  type Roster = map<int, Participant>

  /**
   * Commitment. `participants` is `None` when a stored record carries no
   * participants map at all, a case the store code tests for explicitly.
   */
  datatype Commitment = Commitment(
    id: string,
    text: string,
    creatorFid: int,
    createdAt: int,
    participants: Option<Roster>)

  /**
   * The three request bodies. The handlers cast the parsed JSON body to these
   * shapes without checking it, so each field may be absent (`None`).
   */
  datatype CreateCommitmentRequest = CreateCommitmentRequest(text: Option<string>, creatorFid: Option<int>)
  datatype SignCommitmentRequest = SignCommitmentRequest(commitmentId: Option<string>, fid: Option<int>)
  datatype RevokeCommitmentRequest =
    RevokeCommitmentRequest(commitmentId: Option<string>, fid: Option<int>, reason: Option<string>)

  /** The participants of `c`, a missing map read as empty. */
  function RosterOf(c: Commitment): Roster {
    if c.participants.Some? then c.participants.value else map[]
  }

  /** The fields that no operation may change after creation. */
  predicate SameHeader(a: Commitment, b: Commitment) {
    a.id == b.id && a.text == b.text && a.creatorFid == b.creatorFid && a.createdAt == b.createdAt
  }

  /** A participant carries a revoke reason exactly when it is revoked. */
  predicate ReasonMatchesStatus(p: Participant) {
    p.revokeReason.Some? <==> p.status == Revoked
  }

  /** Every participant of `c` satisfies ReasonMatchesStatus. */
  predicate WellFormed(c: Commitment) {
    forall fid :: fid in RosterOf(c) ==> ReasonMatchesStatus(RosterOf(c)[fid])
  }
}
