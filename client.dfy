/** The read-through cache in front of an HTTP client: look the request's URL
    up in the store, serve a fresh entry, otherwise fetch, store a cacheable
    response under the same key and return its body.

    The store, the clock and the transport are collaborators: the store is a
    map from key bytes to decoded records, and everything the collaborators
    do during one call is given as an `Io` value. */
module Client {
  import opened CachedValues

  /** The text of a parsed URL; a serialised URL is always ASCII. */
  type Url = s: string | forall i :: 0 <= i < |s| ==> s[i] < 128 as char

  /** An HTTP request as the caller builds it. Only the URL is consulted by
      the cache. */
  datatype Request = Request(verb: string, url: Url, headers: seq<(string, Bytes)>, body: Bytes)

  /** Why `send` fails. */
  datatype Error =
    | StoreReadFailed            // reading the key from the store failed
    | DecodeFailed               // the stored bytes are not a cached record
    | TransportFailed            // the request could not be executed or its body read
    | ServerError(status: Status) // the response had a status of 500 or more
    | StoreWriteFailed           // encoding or writing the new record failed

  datatype Result<+T> = Ok(value: T) | Err(error: Error)

  /** What the transport yields for the request, were it executed. */
  datatype Reply = TransportError | Response(status: Status, body: Bytes)

  /** The collaborators' behaviour during one call of `send`: the clock
      reading, whether the store read succeeds, what the transport would
      reply, and whether the store write would succeed. */
  datatype Io = Io(now: Instant, readOk: bool, reply: Reply, writeOk: bool)

  /** The result of one call, the store afterwards, and whether the
      transport was used. */
  datatype Outcome = Outcome(result: Result<Bytes>, table: map<Bytes, Record>, fetched: bool)

  /** The cache key of a URL: its bytes, with no normalisation. */
  function CacheKey(url: Url): (k: Bytes)
    ensures |k| == |url|
    ensures forall i :: 0 <= i < |url| ==> k[i] as int == url[i] as int
  {
    seq(|url|, i requires 0 <= i < |url| => url[i] as int as Byte)
  }

  /** Two URLs share a cache entry exactly when they are the same text. */
  lemma CacheKeyInjective(u: Url, v: Url)
    ensures CacheKey(u) == CacheKey(v) <==> u == v
  {
  }

  /** The FETCH state: use the transport, then cache the body unless the
      status is a server error or the write fails. */
  function Fetch(table: map<Bytes, Record>, k: Bytes, duration: Option<nat>, io: Io): (o: Outcome)
    // the transport is always used
    ensures o.fetched
    // the body is returned exactly when the reply is cacheable and the write succeeds
    ensures o.result.Ok? <==> io.reply.Response? && !IsRetriable(io.reply.status) && io.writeOk
    ensures o.result.Ok? ==> o.result.value == io.reply.body
    // the store is either untouched or holds the new entry under k
    ensures o.table == (if o.result.Ok? then table[k := Decodable(NewEntry(duration, io.now, io.reply.body))] else table)
    // a server error carries its status
    ensures io.reply.Response? && IsRetriable(io.reply.status) ==> o.result == Err(ServerError(io.reply.status))
  {
    match io.reply
    case TransportError => Outcome(Err(TransportFailed), table, true)
    case Response(status, body) =>
      if IsRetriable(status) then Outcome(Err(ServerError(status)), table, true)
      else if io.writeOk then Outcome(Ok(body), table[k := Decodable(NewEntry(duration, io.now, body))], true)
      else Outcome(Err(StoreWriteFailed), table, true)
  }

  /** One call of `send` for key `k` as a state machine over the store: a
      failed read or a corrupt record is an error, a fresh record is
      served, and a miss or a stale record goes to FETCH. */
  function SendSpec(table: map<Bytes, Record>, k: Bytes, duration: Option<nat>, io: Io): (o: Outcome)
    // only the request's key can change
    ensures o.table - {k} == table - {k}
    // nothing is written when the call fails or the transport is not used
    ensures o.result.Err? || !o.fetched ==> o.table == table
    // a body served without fetching is a fresh stored value
    ensures o.result.Ok? && !o.fetched ==>
      k in table && table[k].Decodable? && IsFresh(table[k].cached, io.now) && o.result.value == table[k].cached.value
    // a fetched body is a cacheable response, returned and stored under k
    ensures o.result.Ok? && o.fetched ==>
      io.reply.Response? && !IsRetriable(io.reply.status) && io.writeOk &&
      o.result.value == io.reply.body &&
      o.table == table[k := Decodable(NewEntry(duration, io.now, io.reply.body))]
  {
    if !io.readOk then Outcome(Err(StoreReadFailed), table, false)
    else if k !in table then Fetch(table, k, duration, io)
    else match table[k]
      case Corrupt => Outcome(Err(DecodeFailed), table, false)
      case Decodable(cached) =>
        if IsFresh(cached, io.now) then Outcome(Ok(cached.value), table, false)
        else Fetch(table, k, duration, io)
  }

  /** The whole decision table: which path a call takes is fixed by the read,
      the stored record, its freshness and the reply, and each error is
      reported exactly on its own path. */
  lemma DecisionTable(table: map<Bytes, Record>, k: Bytes, duration: Option<nat>, io: Io)
    ensures var o := SendSpec(table, k, duration, io);
      && (o.fetched <==> io.readOk && (k !in table || (table[k].Decodable? && !IsFresh(table[k].cached, io.now))))
      && (o.result == Err(StoreReadFailed) <==> !io.readOk)
      && (o.result == Err(DecodeFailed) <==> io.readOk && k in table && table[k].Corrupt?)
      && (o.result == Err(TransportFailed) <==> o.fetched && io.reply.TransportError?)
      && (o.result.Err? && o.result.error.ServerError? <==>
            o.fetched && io.reply.Response? && IsRetriable(io.reply.status))
      && (o.result == Err(StoreWriteFailed) <==>
            o.fetched && io.reply.Response? && !IsRetriable(io.reply.status) && !io.writeOk)
  {
  }

  /** A stored record is served without fetching and without changing the
      store exactly when its expiry is present and strictly after now. */
  lemma FreshHit(table: map<Bytes, Record>, k: Bytes, duration: Option<nat>, io: Io)
    requires io.readOk && k in table && table[k].Decodable?
    ensures var o := SendSpec(table, k, duration, io);
      (!o.fetched <==> table[k].cached.expires.Some? && table[k].cached.expires.value > io.now) &&
      (!o.fetched ==> o.result == Ok(table[k].cached.value) && o.table == table)
  {
  }

  /** A record without an expiry is refetched, and a cacheable reply
      overwrites it. */
  lemma AbsentExpiryRefetches(table: map<Bytes, Record>, k: Bytes, duration: Option<nat>, io: Io)
    requires io.readOk && k in table && table[k].Decodable? && table[k].cached.expires.None?
    requires io.reply.Response? && !IsRetriable(io.reply.status) && io.writeOk
    ensures var o := SendSpec(table, k, duration, io);
      o.fetched && o.result == Ok(io.reply.body) &&
      o.table == table[k := Decodable(NewEntry(duration, io.now, io.reply.body))]
  {
  }

  /** A miss and a stale record behave alike: same result, same use of the
      transport, and either the same write or no write at all. */
  lemma MissAndStaleAgree(missing: map<Bytes, Record>, stale: map<Bytes, Record>, k: Bytes, duration: Option<nat>, io: Io)
    requires k !in missing && missing == stale - {k}
    requires k in stale && stale[k].Decodable? && !IsFresh(stale[k].cached, io.now)
    ensures var o1, o2 := SendSpec(missing, k, duration, io), SendSpec(stale, k, duration, io);
      && o1.result == o2.result && o1.fetched == o2.fetched
      && (k in o1.table ==> o1.table == o2.table)
      && (k !in o1.table ==> o1.table == missing && o2.table == stale)
  {
  }

  /** A server error is reported with its status and leaves the store as it
      was, so a stale record survives. */
  lemma ServerErrorKeepsStore(table: map<Bytes, Record>, k: Bytes, duration: Option<nat>, io: Io)
    requires io.readOk && (k !in table || (table[k].Decodable? && !IsFresh(table[k].cached, io.now)))
    requires io.reply.Response? && IsRetriable(io.reply.status)
    ensures var o := SendSpec(table, k, duration, io);
      o.fetched && o.result == Err(ServerError(io.reply.status)) && o.table == table
  {
  }

  /** Any other status stores the fetched body under the key, with the
      expiry the configured duration gives, and returns the same body. */
  lemma CacheableReplyStored(table: map<Bytes, Record>, k: Bytes, duration: Option<nat>, io: Io)
    requires io.readOk && (k !in table || (table[k].Decodable? && !IsFresh(table[k].cached, io.now)))
    requires io.reply.Response? && !IsRetriable(io.reply.status) && io.writeOk
    ensures var o := SendSpec(table, k, duration, io);
      && o.result == Ok(io.reply.body)
      && k in o.table && o.table[k].Decodable?
      && o.table[k].cached.value == io.reply.body
      && o.table[k].cached.expires == (if duration.Some? then Some(io.now + duration.value) else None)
  {
  }

  /** The client: the store it owns and the cache duration it was configured
      with. */
  class CachingClient {
    /** The store, as the record each key's bytes decode to. */
    var table: map<Bytes, Record>
    /** The duration added to the clock when an entry is written. */
    const duration: Option<nat>

    /** A client over a store that may already hold records. */
    constructor (duration: Option<nat>, table: map<Bytes, Record>)
      ensures this.duration == duration && this.table == table
    {
      this.duration := duration;
      this.table := table;
    }

    /** Writes the record for `value` under `k`, overwriting any previous
        record, and hands the value back; a failed write changes nothing. */
    method Store(k: Bytes, value: Bytes, now: Instant, writeOk: bool) returns (r: Result<Bytes>)
      modifies this
      ensures writeOk ==> r == Ok(value) && table == old(table)[k := Decodable(NewEntry(duration, now, value))]
      ensures !writeOk ==> r == Err(StoreWriteFailed) && table == old(table)
    {
      var cached := NewEntry(duration, now, value);
      if !writeOk {
        return Err(StoreWriteFailed);
      }
      table := table[k := Decodable(cached)];
      return Ok(cached.value);
    }

    /** Sends `request` through the cache. `fetched` tells whether the
        transport was used. */
    method Send(request: Request, io: Io) returns (r: Result<Bytes>, fetched: bool)
      modifies this
      ensures Outcome(r, table, fetched) == SendSpec(old(table), CacheKey(request.url), duration, io)
    {
      var k := CacheKey(request.url);
      if !io.readOk {
        return Err(StoreReadFailed), false;
      }
      if k in table {
        match table[k]
        case Corrupt =>
          return Err(DecodeFailed), false;
        case Decodable(cached) =>
          if IsFresh(cached, io.now) {
            return Ok(cached.value), false;
          }
          fetched := true;
          match io.reply
          case TransportError =>
            r := Err(TransportFailed);
          case Response(status, bytes) =>
            if !IsRetriable(status) {
              r := Store(k, bytes, io.now, io.writeOk);
            } else {
              r := Err(ServerError(status));
            }
      } else {
        fetched := true;
        match io.reply
        case TransportError =>
          r := Err(TransportFailed);
        case Response(status, bytes) =>
          if !IsRetriable(status) {
            r := Store(k, bytes, io.now, io.writeOk);
          } else {
            r := Err(ServerError(status));
          }
      }
    }
  }
}
