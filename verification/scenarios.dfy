/**
 * Clients of the store and the handlers: the create, sign, revoke journey
 * of one commitment, with what each step leaves in the store asserted from
 * the contracts alone.
 */
module Scenarios {
  import opened Wrappers
  import opened CommitmentModel
  import opened CommitmentStore
  import opened CommitmentRoutes

  /** POST /api/commitments on an empty store, then a lookup of the new id. */
  method CreateJourney() returns (store: Store)
    ensures fresh(store)
    ensures store.GetCommitment("X") == Some(Commitment("X", "I will exercise daily", 100, 1000, Some(map[])))
  {
    store := new Store();
    var create := CreateCommitmentRequest(Some("I will exercise daily"), Some(100));
    var argument := CreateArgument(create);
    var id := store.CreateCommitment(argument.value, "X", 1000);
    assert PostCommitment(Some(create), Returned(id)) == Created("X");
    assert store.GetCommitment("X") == Some(Commitment("X", "I will exercise daily", 100, 1000, Some(map[])));
    assert store.Complete() && store.AllWellFormed();
    // An empty text is rejected before the store is called.
    assert CreateArgument(CreateCommitmentRequest(Some(""), Some(100))).None?;
  }

  /** Sign by fid 200, revoke with a reason, revoke without one, sign again. */
  method SignRevokeJourney(store: Store, id: string)
    requires id != "" && store.GetCommitment(id).Some?
    modifies store
    ensures store.GetCommitment(id).Some? && store.GetCommitment(id).value.participants.Some?
    ensures SameHeader(store.GetCommitment(id).value, old(store.GetCommitment(id)).value)
    ensures RosterOf(store.GetCommitment(id).value).Keys == RosterOf(old(store.GetCommitment(id)).value).Keys + {200}
    ensures RosterOf(store.GetCommitment(id).value)[200] == Participant(3000, Active, None)
    ensures forall f :: f in RosterOf(old(store.GetCommitment(id)).value) && f != 200 ==>
      RosterOf(store.GetCommitment(id).value)[f] == RosterOf(old(store.GetCommitment(id)).value)[f]
  {
    var sign := SignArguments(SignCommitmentRequest(Some(id), Some(200)));
    var ok := store.SignCommitment(sign.value.0, sign.value.1, 2000);
    assert ok;
    assert RosterOf(store.GetCommitment(id).value)[200] == Participant(2000, Active, None);

    var revoke := RevokeArguments(RevokeCommitmentRequest(Some(id), Some(200), Some("injury")));
    ok := store.RevokeCommitment(revoke.value.0, revoke.value.1, revoke.value.2);
    assert ok;
    assert RosterOf(store.GetCommitment(id).value)[200] == Participant(2000, Revoked, Some("injury"));

    revoke := RevokeArguments(RevokeCommitmentRequest(Some(id), Some(200), None));
    ok := store.RevokeCommitment(revoke.value.0, revoke.value.1, revoke.value.2);
    assert ok;
    assert RosterOf(store.GetCommitment(id).value)[200] == Participant(2000, Revoked, Some(DefaultReason));

    sign := SignArguments(SignCommitmentRequest(Some(id), Some(200)));
    ok := store.SignCommitment(sign.value.0, sign.value.1, 3000);
    assert ok;
    assert RosterOf(store.GetCommitment(id).value)[200] == Participant(3000, Active, None);
  }

  /**
   * One commitment through the whole journey: created with an empty
   * roster, then signed, revoked twice and signed again by fid 200.
   */
  method FullJourney() returns (store: Store)
    ensures store.GetCommitment("X") ==
      Some(Commitment("X", "I will exercise daily", 100, 1000, Some(map[200 := Participant(3000, Active, None)])))
  {
    store := CreateJourney();
    SignRevokeJourney(store, "X");
    var c := store.GetCommitment("X").value;
    assert c.participants.value == map[200 := Participant(3000, Active, None)];
  }

  /** Requests that find nothing: an unknown commitment, a fid that never signed. */
  method NotFoundJourney(store: Store, id: string)
    requires id != "" && store.GetCommitment(id).None?
    modifies store
  {
    var before := store.records;
    var ok := store.SignCommitment(id, 200, 2500);
    assert !ok && store.records == before;
    assert PostSign(Some(SignCommitmentRequest(Some(id), Some(200))), Returned(ok)) == NotFound;
    ok := store.RevokeCommitment(id, 200, "none");
    assert !ok && store.records == before;
    assert PostRevoke(Some(RevokeCommitmentRequest(Some(id), Some(200), None)), Returned(ok)) == NotFound;
  }
}
