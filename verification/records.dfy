/**
 * What signCommitment and revokeCommitment do to the one record they
 * fetch, as functions on values, and the lifecycle properties of a
 * participant that follow from them. The store methods in CommitmentStore
 * are proved to write back exactly these records.
 */
module Records {
  import opened Wrappers
  import opened CommitmentModel

  /** The record signCommitment writes back for `fid` signing `c` at time `now`. */
  function SignRecord(c: Commitment, fid: int, now: int): (r: Commitment)
    ensures r.participants.Some?
    ensures RosterOf(r).Keys == RosterOf(c).Keys + {fid}
    ensures RosterOf(r)[fid] == Participant(now, Active, None)
    ensures forall f :: f in RosterOf(c) && f != fid ==> RosterOf(r)[f] == RosterOf(c)[f]
    ensures SameHeader(r, c)
  {
    var roster := if c.participants.None? then map[] else c.participants.value;
    c.(participants := Some(roster[fid := Participant(now, Active, None)]))
  }

  /**
   * The record revokeCommitment writes back, or None when it returns false
   * (no participants map, or no entry for `fid`).
   */
  function RevokeRecord(c: Commitment, fid: int, reason: string): (r: Option<Commitment>)
    ensures r.Some? <==> fid in RosterOf(c)
    ensures r.Some? ==>
      && r.value.participants.Some?
      && RosterOf(r.value).Keys == RosterOf(c).Keys
      && RosterOf(r.value)[fid] == Participant(RosterOf(c)[fid].joinedAt, Revoked, Some(reason))
      && (forall f :: f in RosterOf(c) && f != fid ==> RosterOf(r.value)[f] == RosterOf(c)[f])
      && SameHeader(r.value, c)
  {
    if c.participants.None? || fid !in c.participants.value then
      None
    else
      var entry := c.participants.value[fid];
      var revoked := entry.(status := Revoked, revokeReason := Some(reason));
      Some(c.(participants := Some(c.participants.value[fid := revoked])))
  }

  /** Signing keeps every participant's reason in step with its status. */
  lemma SignPreservesWellFormed(c: Commitment, fid: int, now: int)
    requires WellFormed(c)
    ensures WellFormed(SignRecord(c, fid, now))
  {
  }

  /** Revoking keeps every participant's reason in step with its status. */
  lemma RevokePreservesWellFormed(c: Commitment, fid: int, reason: string)
    requires WellFormed(c)
    requires RevokeRecord(c, fid, reason).Some?
    ensures WellFormed(RevokeRecord(c, fid, reason).value)
  {
  }

  /**
   * Signing again with the same fid adds no entry: the roster keeps its
   * size and only `joinedAt` moves to the later time.
   */
  lemma ResignKeepsRoster(c: Commitment, fid: int, earlier: int, later: int)
    ensures var once := SignRecord(c, fid, earlier);
            var twice := SignRecord(once, fid, later);
            && RosterOf(twice).Keys == RosterOf(once).Keys
            && |RosterOf(twice)| == |RosterOf(once)|
            && RosterOf(twice)[fid] == RosterOf(once)[fid].(joinedAt := later)
            && twice == SignRecord(c, fid, later)
  {
    var once := SignRecord(c, fid, earlier);
    var twice := SignRecord(once, fid, later);
    assert RosterOf(twice).Keys == RosterOf(once).Keys;
    assert RosterOf(twice) == RosterOf(SignRecord(c, fid, later));
  }

  /** Revoking a revoked participant again only replaces the reason. */
  lemma RevokeAgainReplacesReason(c: Commitment, fid: int, first: string, second: string)
    requires RevokeRecord(c, fid, first).Some?
    ensures var again := RevokeRecord(RevokeRecord(c, fid, first).value, fid, second);
            && again.Some?
            && again == RevokeRecord(c, fid, second)
            && RosterOf(again.value)[fid].revokeReason == Some(second)
  {
    var once := RevokeRecord(c, fid, first).value;
    var again := RevokeRecord(once, fid, second);
    assert RosterOf(again.value) == RosterOf(RevokeRecord(c, fid, second).value);
  }

  /**
   * Sign, revoke, sign on the same fid succeeds at every step and ends
   * active with no reason and with the last join time.
   */
  lemma SignRevokeSignReactivates(c: Commitment, fid: int, t1: int, reason: string, t2: int)
    ensures var signed := SignRecord(c, fid, t1);
            var revoked := RevokeRecord(signed, fid, reason);
            && revoked.Some?
            && RosterOf(revoked.value)[fid] == Participant(t1, Revoked, Some(reason))
            && RosterOf(SignRecord(revoked.value, fid, t2))[fid] == Participant(t2, Active, None)
  {
  }

  /** One roster operation, as a sequence of requests would apply them. */
  datatype RosterOp = SignOp(fid: int, now: int) | RevokeOp(fid: int, reason: string)

  /** The record after one operation; a revoke that returns false writes nothing. */
  function Apply(c: Commitment, op: RosterOp): Commitment {
    match op
    case SignOp(fid, now) => SignRecord(c, fid, now)
    case RevokeOp(fid, reason) =>
      var r := RevokeRecord(c, fid, reason);
      if r.Some? then r.value else c
  }

  /** The record after a whole sequence of operations, first to last. */
  function Replay(c: Commitment, ops: seq<RosterOp>): Commitment
    decreases |ops|
  {
    if ops == [] then c else Replay(Apply(c, ops[0]), ops[1..])
  }

  /** The fids that some operation in `ops` signs. */
  function SignedFids(ops: seq<RosterOp>): set<int> {
    set i | 0 <= i < |ops| && ops[i].SignOp? :: ops[i].fid
  }

  /** Replaying one more operation applies it to the replayed record. */
  lemma {:induction false} ReplaySnoc(c: Commitment, ops: seq<RosterOp>, op: RosterOp)
    ensures Replay(c, ops + [op]) == Apply(Replay(c, ops), op)
    decreases |ops|
  {
    if ops == [] {
      assert [] + [op] == [op];
      assert [op][1..] == [];
    } else {
      assert (ops + [op])[0] == ops[0];
      assert (ops + [op])[1..] == ops[1..] + [op];
      ReplaySnoc(Apply(c, ops[0]), ops[1..], op);
    }
  }

  /** Any sequence of signs and revokes keeps the reason/status invariant. */
  lemma {:induction false} ReplayPreservesWellFormed(c: Commitment, ops: seq<RosterOp>)
    requires WellFormed(c)
    ensures WellFormed(Replay(c, ops))
    decreases |ops|
  {
    if ops != [] {
      match ops[0] {
        case SignOp(fid, now) => SignPreservesWellFormed(c, fid, now);
        case RevokeOp(fid, reason) =>
          if RevokeRecord(c, fid, reason).Some? {
            RevokePreservesWellFormed(c, fid, reason);
          }
      }
      ReplayPreservesWellFormed(Apply(c, ops[0]), ops[1..]);
    }
  }

  /**
   * Only signing adds a fid and nothing removes one: after any sequence of
   * operations the roster's fids are the original ones plus those signed.
   */
  lemma {:induction false} ReplayRosterKeys(c: Commitment, ops: seq<RosterOp>)
    ensures RosterOf(Replay(c, ops)).Keys == RosterOf(c).Keys + SignedFids(ops)
    decreases |ops|
  {
    if ops == [] {
      assert SignedFids(ops) == {};
    } else {
      var next := Apply(c, ops[0]);
      ReplayRosterKeys(next, ops[1..]);
      assert RosterOf(next).Keys == RosterOf(c).Keys + (if ops[0].SignOp? then {ops[0].fid} else {});
      assert SignedFids(ops) == (if ops[0].SignOp? then {ops[0].fid} else {}) + SignedFids(ops[1..]) by {
        forall f | f in SignedFids(ops)
          ensures f in (if ops[0].SignOp? then {ops[0].fid} else {}) + SignedFids(ops[1..])
        {
          var i :| 0 <= i < |ops| && ops[i].SignOp? && ops[i].fid == f;
          if i > 0 {
            assert ops[1..][i - 1] == ops[i];
          }
        }
        forall f | f in SignedFids(ops[1..]) ensures f in SignedFids(ops) {
          var i :| 0 <= i < |ops[1..]| && ops[1..][i].SignOp? && ops[1..][i].fid == f;
          assert ops[i + 1] == ops[1..][i];
        }
      }
    }
  }

  /** No operation touches id, text, creatorFid or createdAt. */
  lemma {:induction false} ReplayKeepsHeader(c: Commitment, ops: seq<RosterOp>)
    ensures SameHeader(Replay(c, ops), c)
    decreases |ops|
  {
    if ops != [] {
      ReplayKeepsHeader(Apply(c, ops[0]), ops[1..]);
    }
  }

  /**
   * Starting from the empty participants map the create handler passes,
   * any history keeps reasons in step with statuses, holds exactly the
   * signed fids, and a final sign leaves that fid active with no reason.
   */
  lemma FromEmptyRoster(c: Commitment, ops: seq<RosterOp>, fid: int, now: int)
    requires c.participants == Some(map[])
    ensures WellFormed(Replay(c, ops))
    ensures RosterOf(Replay(c, ops)).Keys == SignedFids(ops)
    ensures fid in RosterOf(Replay(c, ops + [SignOp(fid, now)]))
    ensures RosterOf(Replay(c, ops + [SignOp(fid, now)]))[fid] == Participant(now, Active, None)
  {
    assert WellFormed(c);
    ReplayPreservesWellFormed(c, ops);
    ReplayRosterKeys(c, ops);
    ReplaySnoc(c, ops, SignOp(fid, now));
  }

  /**
   * From the empty participants map the create handler passes, revoking
   * `fid` after any history succeeds exactly when `fid` signed at some
   * point: a fid that never signed cannot be revoked.
   */
  lemma RevokeSucceedsExactlyAfterSign(c: Commitment, ops: seq<RosterOp>, fid: int, reason: string)
    requires c.participants == Some(map[])
    ensures RevokeRecord(Replay(c, ops), fid, reason).Some? <==> fid in SignedFids(ops)
  {
    ReplayRosterKeys(c, ops);
  }

  /** After any history in which `fid` signed, revoking `fid` succeeds. */
  lemma RevokeAfterSignSucceeds(c: Commitment, ops: seq<RosterOp>, fid: int, reason: string)
    requires fid in SignedFids(ops)
    ensures RevokeRecord(Replay(c, ops), fid, reason).Some?
  {
    ReplayRosterKeys(c, ops);
  }
}
