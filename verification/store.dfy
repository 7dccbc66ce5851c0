/**
 * The commitment store of src/lib/redis.ts and src/lib/kv.ts. The two
 * backends run the same five operations with the same branches; they
 * differ only in the JSON step of the Redis one, which is not modelled.
 *
 * The store's state is the key space (`records`, keyed by
 * "commitment:<id>") and the `commitments` index set. The fresh id and the
 * current time that the source draws from crypto.randomUUID() and
 * Date.now() are parameters.
 */
module CommitmentStore {
  import opened Wrappers
  import opened CommitmentModel
  import opened Records

  const CommitmentPrefix: string := "commitment:"

  /** generateKey: the prefix followed by the id. */
  function GenerateKey(prefix: string, id: string): (k: string)
    ensures |k| == |prefix| + |id|
    ensures k[..|prefix|] == prefix && k[|prefix|..] == id
  {
    prefix + id
  }

  /** The key a commitment's record is stored under. */
  function Key(id: string): string {
    GenerateKey(CommitmentPrefix, id)
  }

  /** Under one constant prefix, distinct ids give distinct keys. */
  lemma KeyInjective(a: string, b: string)
    ensures Key(a) == Key(b) <==> a == b
  {
  }

  /** `ids` lists every element of `s` exactly once, in some order. */
  ghost predicate Enumerates(ids: seq<string>, s: set<string>) {
    && (forall id :: id in ids <==> id in s)
    && (forall i, j :: 0 <= i < j < |ids| ==> ids[i] != ids[j])
  }

  /** Every element of `s` plus one. */
  function Shift(s: seq<int>): (r: seq<int>)
    ensures |r| == |s| && forall k :: 0 <= k < |s| ==> r[k] == s[k] + 1
  {
    if s == [] then [] else [s[0] + 1] + Shift(s[1..])
  }

  /** A value in `s` appears, plus one, in Shift(s). */
  lemma ShiftContains(s: seq<int>, x: int)
    requires x in s
    ensures x + 1 in Shift(s)
  {
    var k :| 0 <= k < |s| && s[k] == x;
    assert Shift(s)[k] == x + 1;
  }

  /**
   * Entries found at positions of `ids[1..]` are found at the shifted
   * positions of `ids`.
   */
  lemma ShiftKeepsEntries(ids: seq<string>, m: map<string, Commitment>, tail: seq<int>, vals: seq<Commitment>)
    requires ids != [] && |vals| == |tail|
    requires forall k :: 0 <= k < |tail| ==> 0 <= tail[k] < |ids| - 1 && Key(ids[1..][tail[k]]) in m
    requires forall k :: 0 <= k < |tail| ==> vals[k] == m[Key(ids[1..][tail[k]])]
    ensures |Shift(tail)| == |vals|
    ensures forall k :: 0 <= k < |vals| ==> 0 <= Shift(tail)[k] < |ids| && vals[k] == m[Key(ids[Shift(tail)[k]])]
  {
    forall k | 0 <= k < |vals| ensures 0 <= Shift(tail)[k] < |ids| && vals[k] == m[Key(ids[Shift(tail)[k]])] {
      assert ids[1..][tail[k]] == ids[tail[k] + 1];
    }
  }

  class Store {
    /** The key space: "commitment:<id>" to the stored record. */
    var records: map<string, Commitment>
    /** The `commitments` set of all issued ids. */
    var index: set<string>

    /** Every indexed id has its record: a commitment is wholly present or wholly absent. */
    ghost predicate Complete()
      reads this
    {
      forall id :: id in index ==> Key(id) in records
    }

    /** Every record sits under the key of its own id. */
    ghost predicate Keyed()
      reads this
    {
      forall k :: k in records ==> k == Key(records[k].id)
    }

    /** Every stored participant has a reason exactly when it is revoked. */
    ghost predicate AllWellFormed()
      reads this
    {
      forall k :: k in records ==> WellFormed(records[k])
    }

    constructor ()
      ensures records == map[] && index == {}
      ensures Complete() && Keyed() && AllWellFormed()
    {
      records := map[];
      index := {};
    }

    /** The store's get on a raw key: the value, or None when the key is absent. */
    function Read(key: string): Option<Commitment>
      reads this
    {
      if key in records then Some(records[key]) else None
    }

    /** getCommitment: the record stored for `id`, or None (null) when there is none. */
    function GetCommitment(id: string): (r: Option<Commitment>)
      reads this
      ensures r.None? <==> Key(id) !in records
      ensures r.Some? ==> r.value == records[Key(id)]
    {
      Read(GenerateKey(CommitmentPrefix, id))
    }

    /**
     * The positions in `ids` of the ids that have a record, in list order:
     * the entries an order-preserving filter keeps (see PositionsIncrease
     * and PositionsCover).
     */
    ghost function Positions(ids: seq<string>): (p: seq<int>)
      reads this
      ensures forall k :: 0 <= k < |p| ==> 0 <= p[k] < |ids| && Key(ids[p[k]]) in records
      decreases |ids|
    {
      if ids == [] then []
      else
        var tail := Positions(ids[1..]);
        assert forall k :: 0 <= k < |tail| ==> ids[1..][tail[k]] == ids[tail[k] + 1];
        (if Key(ids[0]) in records then [0] else []) + Shift(tail)
    }

    /** Positions is strictly increasing: the filter keeps list order. */
    lemma {:induction false} PositionsIncrease(ids: seq<string>)
      ensures forall k, l :: 0 <= k < l < |Positions(ids)| ==> Positions(ids)[k] < Positions(ids)[l]
      decreases |ids|
    {
      if ids != [] {
        PositionsIncrease(ids[1..]);
      }
    }

    /** Every position whose id has a record is among the Positions: nothing present is dropped. */
    lemma {:induction false} PositionsCover(ids: seq<string>)
      ensures forall i :: 0 <= i < |ids| && Key(ids[i]) in records ==> i in Positions(ids)
      decreases |ids|
    {
      if ids != [] {
        var tail := Positions(ids[1..]);
        PositionsCover(ids[1..]);
        var head: seq<int> := if Key(ids[0]) in records then [0] else [];
        var p := Positions(ids);
        assert p == head + Shift(tail);
        forall i | 0 <= i < |ids| && Key(ids[i]) in records ensures i in p {
          if i > 0 {
            assert ids[1..][i - 1] == ids[i];
            ShiftContains(tail, i - 1);
          }
        }
      }
    }

    /**
     * `ids.map(getCommitment).filter(Boolean)`: the records of the listed
     * ids that have one, each exactly once, in list order.
     */
    function FetchAll(ids: seq<string>): (r: seq<Commitment>)
      reads this
      ensures |r| == |Positions(ids)| <= |ids|
      ensures forall k :: 0 <= k < |r| ==> r[k] == records[Key(ids[Positions(ids)[k]])]
      ensures forall c :: c in r <==> exists id :: id in ids && GetCommitment(id) == Some(c)
      ensures (forall i :: 0 <= i < |ids| ==> Key(ids[i]) in records) ==> |r| == |ids|
      decreases |ids|
    {
      if ids == [] then []
      else
        var rest := FetchAll(ids[1..]);
        var r := match GetCommitment(ids[0]) {
          case Some(c) => [c] + rest
          case None => rest
        };
        PositionsBound(ids);
        FetchStepPositions(ids, rest, r);
        FetchStepMembers(ids, rest, r);
        r
    }

    /** One step of FetchAll keeps the positional description: the records of the present ids, in order. */
    lemma FetchStepPositions(ids: seq<string>, rest: seq<Commitment>, r: seq<Commitment>)
      requires ids != []
      requires |rest| == |Positions(ids[1..])|
      requires forall k :: 0 <= k < |rest| ==> rest[k] == records[Key(ids[1..][Positions(ids[1..])[k]])]
      requires r == (if Key(ids[0]) in records then [records[Key(ids[0])]] else []) + rest
      ensures |r| == |Positions(ids)|
      ensures forall k :: 0 <= k < |r| ==> r[k] == records[Key(ids[Positions(ids)[k]])]
    {
      var tail := Positions(ids[1..]);
      var p := Positions(ids);
      var s := Shift(tail);
      ShiftKeepsEntries(ids, records, tail, rest);
      if Key(ids[0]) in records {
        assert p == [0] + s;
        forall k | 0 <= k < |r| ensures r[k] == records[Key(ids[p[k]])] {
          if k > 0 {
            assert r[k] == rest[k - 1] && p[k] == s[k - 1];
          }
        }
      } else {
        assert p == s && r == rest;
      }
    }

    /** One step of FetchAll keeps the membership description. */
    lemma FetchStepMembers(ids: seq<string>, rest: seq<Commitment>, r: seq<Commitment>)
      requires ids != []
      requires forall c :: c in rest <==> exists id :: id in ids[1..] && GetCommitment(id) == Some(c)
      requires r == (if Key(ids[0]) in records then [records[Key(ids[0])]] else []) + rest
      ensures forall c :: c in r <==> exists id :: id in ids && GetCommitment(id) == Some(c)
    {
      assert forall id :: id in ids <==> id == ids[0] || id in ids[1..];
      assert GetCommitment(ids[0]) == if Key(ids[0]) in records then Some(records[Key(ids[0])]) else None;
      forall c | c in r ensures exists id :: id in ids && GetCommitment(id) == Some(c) {
        if c !in rest {
          assert GetCommitment(ids[0]) == Some(c);
        }
      }
    }

    /** There are no more positions than ids, and as many when every id has a record. */
    lemma {:induction false} PositionsBound(ids: seq<string>)
      ensures |Positions(ids)| <= |ids|
      ensures (forall i :: 0 <= i < |ids| ==> Key(ids[i]) in records) ==> |Positions(ids)| == |ids|
      decreases |ids|
    {
      if ids != [] {
        PositionsBound(ids[1..]);
        assert (forall i :: 0 <= i < |ids| ==> Key(ids[i]) in records) ==>
               (forall i :: 0 <= i < |ids[1..]| ==> Key(ids[1..][i]) in records) by {
          forall i | 0 <= i < |ids[1..]| ensures ids[1..][i] == ids[i + 1] { }
        }
      }
    }

    /** sMembers / smembers: the index set as a list in unspecified order. */
    method Members() returns (ids: seq<string>)
      ensures Enumerates(ids, index)
      ensures |ids| == |index|
    {
      ids := [];
      var rest := index;
      while rest != {}
        invariant rest <= index
        invariant forall id :: id in ids <==> id in index && id !in rest
        invariant forall i, j :: 0 <= i < j < |ids| ==> ids[i] != ids[j]
        invariant |ids| + |rest| == |index|
        decreases |rest|
      {
        var id :| id in rest;
        ids := ids + [id];
        rest := rest - {id};
      }
    }

    /**
     * getAllCommitments: [] for an empty index; otherwise the records of
     * the index ids, in the order the index is listed, missing ones dropped.
     * In a complete store nothing is dropped.
     */
    method GetAllCommitments() returns (list: seq<Commitment>)
      ensures index == {} ==> list == []
      ensures exists ids :: Enumerates(ids, index) && list == FetchAll(ids)
      ensures forall c :: c in list <==> exists id :: id in index && GetCommitment(id) == Some(c)
      ensures |list| <= |index|
      ensures Complete() ==> |list| == |index|
    {
      var ids := Members();
      if |ids| == 0 {
        list := [];
      } else {
        list := FetchAll(ids);
      }
      assert list == FetchAll(ids);
    }

    /**
     * createCommitment: stamps the record with the new id and time, stores
     * it under Key(id), adds id to the index and returns it. The fresh id
     * stands for crypto.randomUUID(): it names no record and is not indexed.
     */
    method CreateCommitment(commitment: Commitment, id: string, now: int) returns (newId: string)
      requires Key(id) !in records && id !in index
      modifies this
      ensures newId == id
      ensures records == old(records)[Key(id) := commitment.(id := id, createdAt := now)]
      ensures index == old(index) + {id}
      ensures old(index) <= index && old(records).Keys <= records.Keys
      ensures GetCommitment(id) == Some(commitment.(id := id, createdAt := now))
      ensures forall other :: other != id ==> GetCommitment(other) == old(GetCommitment(other))
      ensures old(Complete()) ==> Complete()
      ensures old(Keyed()) ==> Keyed()
      ensures old(AllWellFormed()) && WellFormed(commitment) ==> AllWellFormed()
    {
      var key := GenerateKey(CommitmentPrefix, id);
      var stamped := commitment.(id := id);
      stamped := stamped.(createdAt := now);
      assert RosterOf(stamped) == RosterOf(commitment);
      records := records[key := stamped];
      index := index + {id};
      newId := id;
      forall other | other != id ensures GetCommitment(other) == old(GetCommitment(other)) {
        KeyInjective(other, id);
      }
    }

    /**
     * signCommitment: false with nothing written when the commitment does
     * not exist; otherwise writes back SignRecord of the stored record and
     * returns true.
     */
    method SignCommitment(commitmentId: string, fid: int, now: int) returns (ok: bool)
      modifies this
      ensures index == old(index) && records.Keys == old(records).Keys
      ensures ok <==> Key(commitmentId) in old(records)
      ensures !ok ==> records == old(records)
      ensures ok ==> records == old(records)[Key(commitmentId) := SignRecord(old(records)[Key(commitmentId)], fid, now)]
      ensures old(Complete()) ==> Complete()
      ensures old(Keyed()) ==> Keyed()
      ensures old(AllWellFormed()) ==> AllWellFormed()
    {
      var key := GenerateKey(CommitmentPrefix, commitmentId);
      var data := Read(key);
      if data.None? {
        return false;
      }
      var commitment := data.value;
      if commitment.participants.None? {
        commitment := commitment.(participants := Some(map[]));
      }
      commitment := commitment.(participants := Some(commitment.participants.value[fid := Participant(now, Active, None)]));
      assert commitment == SignRecord(data.value, fid, now);
      if AllWellFormed() {
        SignPreservesWellFormed(data.value, fid, now);
      }
      records := records[key := commitment];
      ok := true;
    }

    /**
     * revokeCommitment: false with nothing written unless the commitment
     * exists and has an entry for `fid`; otherwise marks that entry revoked
     * with `reason`, writes the record back and returns true.
     */
    method RevokeCommitment(commitmentId: string, fid: int, reason: string) returns (ok: bool)
      modifies this
      ensures index == old(index) && records.Keys == old(records).Keys
      ensures ok <==> Key(commitmentId) in old(records) && fid in RosterOf(old(records)[Key(commitmentId)])
      ensures !ok ==> records == old(records)
      ensures ok ==> records == old(records)[Key(commitmentId) := RevokeRecord(old(records)[Key(commitmentId)], fid, reason).value]
      ensures old(Complete()) ==> Complete()
      ensures old(Keyed()) ==> Keyed()
      ensures old(AllWellFormed()) ==> AllWellFormed()
    {
      var key := GenerateKey(CommitmentPrefix, commitmentId);
      var data := Read(key);
      if data.None? || data.value.participants.None? || fid !in data.value.participants.value {
        return false;
      }
      var commitment := data.value;
      var roster := commitment.participants.value;
      var entry := roster[fid];
      entry := entry.(status := Revoked);
      entry := entry.(revokeReason := Some(reason));
      roster := roster[fid := entry];
      commitment := commitment.(participants := Some(roster));
      assert Some(commitment) == RevokeRecord(data.value, fid, reason);
      if AllWellFormed() {
        RevokePreservesWellFormed(data.value, fid, reason);
      }
      records := records[key := commitment];
      ok := true;
    }
  }
}
