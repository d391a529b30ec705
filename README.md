# caching-client: the read-through cache decision

This project models `CachingClient`, a read-through cache placed in front of an
HTTP client. A request's URL bytes are the cache key. `send` looks the key up
in an embedded key-value store and decodes the stored record. It returns the
record's body when the record is fresh. Otherwise it executes the request. A
response whose status is 500 or more is reported as an error and nothing is
written. Any other response is stored under the key, with an expiry of "now
plus the configured duration" (or no expiry), and its body is returned.

The model has three modules:

- `CachedValues` (`cached_value.dfy`): the stored record `CachedValue`, the
  `Record` a store read decodes to (`Decodable` or `Corrupt`), the freshness
  test `IsFresh`, the server-error test `IsRetriable` and the new entry
  `NewEntry`.
- `Client` (`client.dfy`): the cache key, the error kinds, the single-call
  state machine `SendSpec` with its decision-table lemmas, and the class
  `CachingClient`. Its `table` field is the store as a
  `map<Bytes, Record>`, and its methods `Store` and `Send` update that field in
  place. `Send` is proved to follow `SendSpec`.
- `Sessions` (`session.dfy`): many calls in a row against one store. It proves
  what a single call's contract keeps true across a session: untouched keys,
  no eviction, no corrupt writes, and, without a duration, no cache hit on a
  store whose records carry no expiry.

The collaborators are inputs. For each call, an `Io` value gives the clock
reading `now`, whether the store read succeeds, what the transport replies
(`TransportError` or `Response(status, body)`), and whether the store write
succeeds. `Send` also returns `fetched`, which says whether the transport was
used.

An absent expiry could be read as "never expires". The code instead serves an
entry only when `Some(expires) if expires > Utc::now()` holds
(src/lib.rs:86-87), so an entry without an expiry falls into the refetch arm
(src/lib.rs:91-93). The model follows the code. `Sessions.NoDurationAlwaysFetches`
states the consequence: a client with no duration never answers from a store
whose records carry no expiry, such as the records it wrote itself.

## Model

| member | source | states |
|---|---|---|
| `CachedValues.NewEntry` | src/lib.rs:69-71 | the new record holds the fetched body; it has no expiry without a duration; it is fresh at time t exactly when a duration d is configured and t < now + d |
| `CachedValues.NewEntryFreshNow` | src/lib.rs:70 | a record just written is fresh at the time of writing exactly when a positive duration is configured |
| `CachedValues.IsFresh` | src/lib.rs:86-87 | an entry without an expiry is stale; an entry whose expiry equals now is stale; an entry whose expiry lies after now is fresh |
| `CachedValues.FreshnessMonotone` | src/lib.rs:87 | an entry fresh now was fresh at every earlier time, and an entry stale now stays stale later |
| `CachedValues.IsRetriable` | src/lib.rs:94 | every 5xx status and any larger status is a server error; every status below 500, 4xx included, is not |
| `Client.CacheKey` | src/lib.rs:79-80 | the key is the URL's bytes one for one, with the same length and no normalisation |
| `Client.CacheKeyInjective` | src/lib.rs:79-81 | two URLs share a store entry exactly when they are the same text |
| `Client.Fetch` | src/lib.rs:93-100 | the transport is always used; the body is returned exactly when the status is below 500 and the write succeeds, and then the store holds `NewEntry` under the key; otherwise the store is untouched, and a server error carries its status |
| `Client.SendSpec` | src/lib.rs:78-116 | one call changes only the request's key; an error or an unfetched call leaves the store unchanged; a body served without fetching is the fresh stored value; a fetched body is a cacheable response that is returned and stored with `NewEntry` |
| `Client.DecisionTable` | src/lib.rs:81-115 | the transport is used exactly on a successful read that finds a miss or a stale decodable record; each error (read, decode, transport, server status, write) happens exactly on its own path |
| `Client.FreshHit` | src/lib.rs:86-90 | a decodable record is served, with no fetch and no store change, exactly when its expiry is present and strictly greater than now |
| `Client.AbsentExpiryRefetches` | src/lib.rs:86-97 | a record without expiry is refetched, and a cacheable reply overwrites it |
| `Client.MissAndStaleAgree` | src/lib.rs:91-114 | a miss and a stale record give the same result and the same transport use, and either the same write or no write |
| `Client.ServerErrorKeepsStore` | src/lib.rs:94-99 | a status of 500 or more returns an error carrying that status and leaves the store, including a stale record, as it was |
| `Client.CacheableReplyStored` | src/lib.rs:69-75 | a status below 500 with a working write returns the fetched body and stores it under the key, with expiry now + duration or none |
| `Client.CachingClient.constructor` | src/lib.rs:40-58 | a client keeps the configured duration and starts from the store's existing records |
| `Client.CachingClient.Store` | src/lib.rs:69-76 | a successful write replaces the key's record with `NewEntry` and returns the value; a failed write returns an error and changes nothing |
| `Client.CachingClient.Send` | src/lib.rs:78-116 | the result, the new store and the use of the transport are those of `SendSpec` for the request's key, in both the miss and the stale branch; the request enters only through `CacheKey(request.url)`, so its method, headers and body do not affect the decision |
| `Sessions.Run` | examples/simple.rs:8-20 | a session of calls yields one outcome per call: the first is `SendSpec` on the initial store, and each later one is `SendSpec` on the store the previous call left |
| `Sessions.RunFrame` | src/lib.rs:73-80 | a key that no call of a session asks for keeps its record, or stays absent |
| `Sessions.RunKeepsKeys` | src/lib.rs:69-76 | records are only overwritten, never removed |
| `Sessions.UncacheableRunKeepsStore` | src/lib.rs:91-114 | a session in which no reply is a cacheable, successfully written response leaves the store exactly as it was |
| `Sessions.RunKeepsDecodable` | src/lib.rs:71-73 | the cache only ever writes records that decode |
| `Sessions.NoDurationAlwaysFetches` | src/lib.rs:86-92 | without a duration, and from a store whose records have no expiry, every successful call of a session used the transport |
| `Sessions.RepeatWithinDurationHits` | src/lib.rs:86-97 | after a body is fetched and stored at t with duration d, a repeat before t + d is served from the cache with the same body, and a repeat at or after t + d fetches |
| `Sessions.OneUnitScenario` | examples/simple.rs:8-20 | with a duration of one unit, a first call fetches, an immediate repeat is a cache hit, and a call one unit later fetches again |

## Left out

- Opening the store (src/lib.rs:45): the constructor takes the store's existing records. An open failure (a lock held by another client, an I/O error) is not modelled.
- Duration conversion (src/lib.rs:46-49): a duration is a `nat` in clock units. The conversion failure for out-of-range durations is not modelled.
- Overflow when adding the duration to the clock (src/lib.rs:70): clock values are unbounded integers, so the library's panic on overflow is not modelled.
- The two clock readings of one call (src/lib.rs:70, 87) are one reading, `Io.now`. Time passing during the fetch is not modelled.
- The transport (src/lib.rs:60-67): `exec` is the `Reply` given in `Io`. A failure to execute the request or to read its body is `TransportError`.
- The record's byte encoding (src/lib.rs:73, 84): the store holds decoded `Record` values, and a record that does not decode is `Corrupt`. A failure to encode a new record is folded into a failed write (`Io.writeOk` false), since both make `send` fail with nothing written.
- Store reads and writes (src/lib.rs:73, 81) are map operations whose failure is given by `Io.readOk` and `Io.writeOk`. A failed write is taken to write nothing.
- Logging (src/lib.rs:50, 88, 92, 105) does not affect control flow.
- The byte-stream wrapper around returned bodies (src/lib.rs:89, 97, 110): the model returns the bytes.
- Error messages: errors are the `Error` kinds, and only `ServerError` carries data (the status).
- Concurrency: the code has none. Calls are sequential in the model.
