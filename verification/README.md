# future-commit: the commitment store and its request handlers, in Dafny

This project models the part of future-commit that has rules you can state:
the store that creates commitments and keeps track of who has signed or
revoked them, plus the three request handlers that validate input, call the
store and map its result to a response.

- `CommitmentModel` (`commitment.dfy`): the records of
  `src/lib/models/commitment.ts` as datatypes.
  - `Status` is exactly `Active` or `Revoked`.
  - A `Participant` always has `joinedAt` and `status`; `revokeReason` is its only optional field.
  - A `Commitment` keeps its participants in a `map<int, Participant>`, so each fid has at most one entry.
  - The three request bodies, each field optional because the handlers cast unchecked JSON.
  - The invariant `WellFormed`: a participant has a revoke reason exactly when it is revoked.
- `Records` (`records.dfy`): what sign and revoke do to the one record they fetch.
  - `SignRecord` and `RevokeRecord` are functions on values.
  - The lemmas cover any sequence of signs and revokes (`Replay`). Starting from the empty participants map that the create handler passes, the invariant holds and the roster holds exactly the signed fids.
- `CommitmentStore` (`store.dfy`): the store, as class `Store`.
  - Its state is `records`, keyed by `"commitment:" + id`, and the `commitments` index set `index`.
  - `CreateCommitment`, `SignCommitment` and `RevokeCommitment` change that state step by step, as the source does, and each is proved to change nothing beyond its one record and the index.
  - `CreateCommitment` stores the passed record with its new `id` and `createdAt` and adds the id to the index. `SignCommitment` and `RevokeCommitment` write back exactly the record that `SignRecord` and `RevokeRecord` give, and leave the index unchanged.
  - All three keep two store invariants: every indexed id has its record (`Complete`), and every record sits under its own id's key (`Keyed`). Sign and revoke also keep every roster well formed (`AllWellFormed`). Create keeps it only when the passed roster is well formed, since the store does not check it.
  - `GetCommitment`, `FetchAll`, `Members` and `GetAllCommitments` are the reads.
- `CommitmentRoutes` (`routes.dfy`): the `GET` and `POST` handlers of `src/app/api/commitments/route.ts`, `sign/route.ts` and `revoke/route.ts`.
  - Each is a function from the parsed body and the store call's result to an outcome: `BadRequest`, `NotFound`, `Ok`, `Created(id)`, `Listed(commitments)` or `ServerError`. These correspond to HTTP statuses 400, 404, 200, 201, 200 and 500.
  - A body of `None` is a request whose body is not JSON, or is JSON `null`. In both cases the handler throws inside its `try` block and answers 500.
- `Scenarios` (`scenarios.dfy`): client methods that call the store and read the handlers' outcomes. Every step's effect follows from the contracts alone.
  - `CreateJourney` creates a commitment on an empty store.
  - `SignRevokeJourney` takes any store that holds the commitment. Fid 200 signs, revokes with a reason, revokes without one and signs again.
  - `FullJourney` chains the two on one commitment.
  - `NotFoundJourney` shows sign and revoke of an unknown commitment.

## Both backends

`src/lib/redis.ts` and `src/lib/kv.ts` run the same five operations with the same branches.
The only difference is that the Redis backend serialises records through JSON, which is not modelled.
The one class `CommitmentStore.Store` therefore models both.
The table below cites one backend per row; the matching lines of the other backend are:

| operation | src/lib/redis.ts | src/lib/kv.ts |
|---|---|---|
| generateKey | 25 | 14 |
| createCommitment | 30-47 | 19-34 |
| getCommitment | 50-56 | 37-40 |
| getAllCommitments | 59-71 | 43-53 |
| signCommitment | 74-95 | 56-74 |
| revokeCommitment | 98-114 | 77-90 |

The handlers all import the Redis backend.

Three facts about the code shape the model:
- Creation rejects only empty text; whitespace-only text is accepted. The check is in the create handler (src/app/api/commitments/route.ts:27). The store's `createCommitment` validates nothing.
- The default revoke reason "No reason provided" is filled in by the revoke handler (src/app/api/commitments/revoke/route.ts:21), not by the store.
- "A reason is present exactly when revoked" holds only for rosters that start well formed, because the store writes whatever participants map it is given. The model proves that sign and revoke preserve it, and that it holds from the empty map the create handler passes.

Signing replaces any existing entry for the fid, including a revoked one, with a fresh active entry. The comment above that code in both backends (src/lib/redis.ts:83, src/lib/kv.ts:62) says "if not already there", but no such check exists; the model follows the code.

## Model

| member | source | states |
|---|---|---|
| Records.SignRecord | src/lib/redis.ts:83-91 | The written-back record has a participants map, created if missing. `fid` maps to `{joinedAt: now, status: active}` with no reason, replacing any earlier active or revoked entry. Every other participant and id, text, creatorFid and createdAt are unchanged. |
| Records.RevokeRecord | src/lib/redis.ts:105-111 | Fails exactly when the participants map is missing or has no entry for `fid`. Otherwise that entry becomes revoked with the given reason and keeps its `joinedAt`. The fid set, every other participant and the header fields are unchanged. |
| Records.SignPreservesWellFormed | src/lib/redis.ts:88-91 | Signing keeps every participant's reason present exactly when it is revoked. |
| Records.RevokePreservesWellFormed | src/lib/redis.ts:109-110 | A successful revoke keeps every participant's reason present exactly when it is revoked. |
| Records.ResignKeepsRoster | src/lib/kv.ts:67-70 | Signing twice with the same fid adds no entry: same fids, same size, only `joinedAt` moves to the later time. The result equals a single sign at the later time. |
| Records.RevokeSucceedsExactlyAfterSign | src/lib/kv.ts:81-83 | Starting from the empty participants map, after any sequence of signs and revokes, revoking fid succeeds exactly when fid signed at some point. A fid that never signed cannot be revoked. |
| Records.RevokeAgainReplacesReason | src/lib/kv.ts:85-86 | Revoking an already revoked participant succeeds, and the result is a single revoke with the new reason: only the reason changes. |
| Records.SignRevokeSignReactivates | src/lib/redis.ts:88-110 | Sign, revoke, sign on one fid: the revoke succeeds and keeps the join time. The final sign leaves the fid active with no reason and the last join time. |
| Records.ReplaySnoc | src/lib/redis.ts:74-114 | Replaying a history followed by one more sign or revoke is the same as applying that operation to the replayed record. |
| Records.ReplayPreservesWellFormed | src/lib/redis.ts:88-110 | Any sequence of signs and revokes preserves the reason/status invariant. |
| Records.ReplayRosterKeys | src/lib/kv.ts:62-89 | After any sequence of operations, the roster's fids are the initial fids plus the signed ones: only sign adds a fid, and nothing removes one. |
| Records.ReplayKeepsHeader | src/lib/kv.ts:55-90 | No sequence of signs and revokes changes id, text, creatorFid or createdAt. |
| Records.FromEmptyRoster | src/app/api/commitments/route.ts:35-41 | From the empty participants map the create handler passes, after any history: the invariant holds, the roster holds exactly the signed fids, and a final sign leaves that fid active with no reason. |
| Records.RevokeAfterSignSucceeds | src/lib/redis.ts:105-113 | After any history in which fid signed, revoking fid succeeds. |
| CommitmentStore.GenerateKey | src/lib/redis.ts:25 | The key is the prefix followed by the id, recoverable as the key's two parts. |
| CommitmentStore.KeyInjective | src/lib/kv.ts:14-21 | With the constant prefix "commitment:", two ids give the same key exactly when they are equal. |
| CommitmentStore.Store.GetCommitment | src/lib/redis.ts:50-56 | None (null) exactly when no record is stored under `"commitment:" + id`; otherwise the stored record. As a function, it writes nothing. |
| CommitmentStore.Store.FetchAll | src/lib/kv.ts:48-52 | Entry k of the result is the record of the k-th listed id that has one (Positions): each id with a record contributes exactly one entry, in list order, and ids with no record are dropped. A record is in the result exactly when some listed id maps to it. The result is never longer than the list, and nothing is dropped when every id has a record. |
| CommitmentStore.Store.PositionsIncrease | src/lib/kv.ts:48-52 | The kept positions are strictly increasing: the filter keeps list order and keeps no id twice. |
| CommitmentStore.Store.PositionsCover | src/lib/kv.ts:48-52 | Every position whose id has a record is kept: the filter drops only ids with no record. |
| CommitmentStore.Store.PositionsBound | src/lib/kv.ts:48-52 | There are at most as many kept positions as ids, and exactly as many when every id has a record. |
| CommitmentStore.Store.FetchStepPositions | src/lib/kv.ts:48-52 | Prepending the first id's record (when it has one) to the fetched rest gives the record of each kept position, in order. |
| CommitmentStore.Store.FetchStepMembers | src/lib/kv.ts:48-52 | Prepending the first id's record (when it has one) to the fetched rest gives exactly the records some listed id maps to. |
| CommitmentStore.Store.Members | src/lib/kv.ts:44 | Lists every id of the index exactly once, in an unspecified order. |
| CommitmentStore.Store.GetAllCommitments | src/lib/redis.ts:59-71 | Returns [] for an empty index. Otherwise the result is FetchAll over some listing of the index. It holds exactly the records of index ids that still exist, is at most as long as the index, and is exactly as long when the store is complete. |
| CommitmentStore.Store.CreateCommitment | src/lib/redis.ts:30-47 | Stores the record with `id` and `createdAt` set and everything else as passed, under `"commitment:" + id`. Adds id to the index and returns it. Every other lookup is unchanged, index and keys only grow, and all three store invariants are kept (the roster one when the passed roster is well formed). |
| CommitmentStore.Store.SignCommitment | src/lib/redis.ts:74-95 | Returns false and writes nothing when the commitment is absent. Otherwise writes back exactly SignRecord of the stored record and returns true. The index and key set are unchanged, and the store invariants are kept. |
| CommitmentStore.Store.RevokeCommitment | src/lib/redis.ts:98-114 | Returns true exactly when the commitment exists and has an entry for fid; otherwise writes nothing. On success writes back exactly RevokeRecord of the stored record. The index and key set are unchanged, and the store invariants are kept. |
| CommitmentRoutes.GetCommitments | src/app/api/commitments/route.ts:7-18 | Answers with exactly the list getAllCommitments returned, and with a server error exactly when it threw. |
| CommitmentRoutes.CreateArgument | src/app/api/commitments/route.ts:27-41 | The store is called exactly when text is non-empty and creatorFid is present and non-zero. Whitespace-only text is accepted. It is called with that text and creator, an empty participants map, id "" and createdAt 0; the creator is not a participant. |
| CommitmentRoutes.PostCommitment | src/app/api/commitments/route.ts:21-54 | BadRequest exactly when validation fails. Created with the store's id exactly when validation passes and the store returns. ServerError exactly when the body is unreadable or the store throws. |
| CommitmentRoutes.SignArguments | src/app/api/commitments/sign/route.ts:13-21 | signCommitment is called exactly when commitmentId is non-empty and fid is present and non-zero, with those two values. |
| CommitmentRoutes.PostSign | src/app/api/commitments/sign/route.ts:7-38 | BadRequest exactly when validation fails. NotFound exactly when the sign returned false, Ok exactly when it returned true. ServerError exactly when the body is unreadable or the store throws. |
| CommitmentRoutes.RevokeArguments | src/app/api/commitments/revoke/route.ts:13-21 | revokeCommitment is called exactly when commitmentId is non-empty and fid is present and non-zero. It gets the given reason, or "No reason provided" when the reason is empty or missing, so the store never receives an empty reason. |
| CommitmentRoutes.PostRevoke | src/app/api/commitments/revoke/route.ts:7-38 | BadRequest exactly when validation fails. NotFound exactly when the revoke returned false, Ok exactly when it returned true. ServerError exactly when the body is unreadable or the store throws. |
| CommitmentRoutes.RejectedRequestsIgnoreStore | src/app/api/commitments/sign/route.ts:13-18 | A create, sign or revoke that fails validation answers BadRequest, whatever the store would have returned: the store is not consulted. |
| CommitmentRoutes.StoreErrorIsServerError | src/app/api/commitments/revoke/route.ts:31-36 | In all four handlers, a thrown store error yields ServerError, never BadRequest or success. |
| CommitmentRoutes.CreateChecksOnlyEmptiness | src/app/api/commitments/route.ts:27 | Text " " is accepted. Empty text, or a creatorFid of 0, yields BadRequest. |
| Scenarios.CreateJourney | src/app/api/commitments/route.ts:35-46 | Creating through the handler's argument on an empty store leaves exactly the record with the new id, the request's text and creatorFid, the creation time and an empty participants map. |
| Scenarios.SignRevokeJourney | src/lib/redis.ts:74-114 | On any store holding the commitment, sign, revoke with a reason, revoke with the default reason and sign again by fid 200 all succeed. Fid 200 ends active with no reason at the last join time. The header and every other participant are unchanged, and 200 is the only fid added. |
| Scenarios.FullJourney | src/app/api/commitments/route.ts:35-46 | Create followed by that journey leaves exactly the record with the request's text and creator, the creation time, and a roster holding only fid 200, active with no reason. |

## Left out

- The Redis and Vercel KV clients, their connection handling and the JSON stringify/parse step are not modelled. The store is a map of records plus a set of ids, and a read hands back the stored value.
- `crypto.randomUUID()` and `Date.now()` are parameters.
- CommitmentStore.Store.CreateCommitment: requires the new id to be fresh (no record under its key, not in the index). This is how the model states that a random UUID does not collide; collision resistance itself cannot be verified.
- createCommitment also mutates the object its caller passed (it sets `id` and `createdAt`). The model returns the stamped value instead. The handler discards its object, so no caller observes the difference.
- Concurrency is not modelled: the model is sequential.
  - sign and revoke do an unsynchronised read-modify-write, which loses updates under concurrent requests. The model claims neither atomicity nor the absence of lost updates.
  - `Promise.all` in getAllCommitments is modelled as a sequential map.
- A store failure between createCommitment's two writes would leave a record that is not in the index. The store methods are modelled without faults. A thrown store error is modelled only at the handler level, as `Threw`.
- Request fields are modelled as absent or of their declared type (string or integer). Values of other JSON types are not modelled: a numeric text, a string fid, booleans, `null` fields, non-integer fids. The handlers pass them through unchecked.
- HTTP status codes, response bodies and log messages are not modelled. Outcomes are tags.
- The auth session functions `storeAuthState`, `getAuthState` and `storeUserSession` are not part of this model. Their definitions are not in the store source, so single-use reads and TTLs cannot be checked against code.
- The verify route is not modelled. It is a handler around an external identity-provider call.
- Client-side auth and the Neynar user lookup are not modelled: localStorage, fetch, React context and an SDK wrapper.
- The image route is not modelled: canvas drawing, font metrics and floating point.
- The Farcaster frame handlers under `src/app/api/action/` are not modelled. Their input checks repeat the commitments handlers' emptiness checks.
- The `GET /api/commitments/[id]` handler, the pages, the layout, metadata and configuration files are not part of this model.
