/** A client's life as a sequence of calls to `send` against one store: what
    the cache decision of a single call keeps true across many. */
module Sessions {
  import opened CachedValues
  import opened Client

  /** One call: the request's URL and what the collaborators do during it. */
  datatype Call = Call(url: Url, io: Io)

  /** The outcomes of `calls`, each made against the store the previous one
      left behind. */
  function Run(table: map<Bytes, Record>, duration: Option<nat>, calls: seq<Call>): (outs: seq<Outcome>)
    ensures |outs| == |calls|
    // the first call runs against the initial store
    ensures calls != [] ==> outs[0] == SendSpec(table, CacheKey(calls[0].url), duration, calls[0].io)
    // every later call runs against the store the previous call left
    ensures forall i :: 0 < i < |calls| ==>
      outs[i] == SendSpec(outs[i - 1].table, CacheKey(calls[i].url), duration, calls[i].io)
    decreases |calls|
  {
    if calls == [] then []
    else
      var o := SendSpec(table, CacheKey(calls[0].url), duration, calls[0].io);
      [o] + Run(o.table, duration, calls[1..])
  }

  /** The store after `calls`: the one the last call left, or the initial
      store when there are no calls. */
  function FinalTable(table: map<Bytes, Record>, duration: Option<nat>, calls: seq<Call>): map<Bytes, Record>
  {
    if calls == [] then table else Run(table, duration, calls)[|calls| - 1].table
  }

  /** The store after a session is the store after its tail, run from the
      store the first call left. */
  lemma FinalTableStep(table: map<Bytes, Record>, duration: Option<nat>, calls: seq<Call>)
    requires calls != []
    ensures FinalTable(table, duration, calls) ==
      FinalTable(SendSpec(table, CacheKey(calls[0].url), duration, calls[0].io).table, duration, calls[1..])
  {
  }

  /** A call whose reply would be written: a successful response whose
      status is not a server error, with a working store write. */
  predicate Cacheable(c: Call)
  {
    c.io.reply.Response? && !IsRetriable(c.io.reply.status) && c.io.writeOk
  }

  /** No record in the store carries an expiry. */
  predicate NoExpiries(table: map<Bytes, Record>)
  {
    forall key :: key in table && table[key].Decodable? ==> table[key].cached.expires.None?
  }

  /** Every record in the store decodes. */
  predicate AllDecodable(table: map<Bytes, Record>)
  {
    forall key :: key in table ==> table[key].Decodable?
  }

  /** The store of a key no call asks for is never touched. */
  lemma {:induction false} RunFrame(table: map<Bytes, Record>, duration: Option<nat>, calls: seq<Call>, key: Bytes)
    requires forall i :: 0 <= i < |calls| ==> CacheKey(calls[i].url) != key
    ensures key in FinalTable(table, duration, calls) <==> key in table
    ensures key in table ==> FinalTable(table, duration, calls)[key] == table[key]
    decreases |calls|
  {
    if calls != [] {
      var o := SendSpec(table, CacheKey(calls[0].url), duration, calls[0].io);
      assert key in o.table <==> key in o.table - {CacheKey(calls[0].url)};
      assert key in table <==> key in table - {CacheKey(calls[0].url)};
      assert key in table ==> o.table[key] == (o.table - {CacheKey(calls[0].url)})[key];
      FinalTableStep(table, duration, calls);
      RunFrame(o.table, duration, calls[1..], key);
    }
  }

  /** Nothing is ever evicted: every key stays in the store. */
  lemma {:induction false} RunKeepsKeys(table: map<Bytes, Record>, duration: Option<nat>, calls: seq<Call>)
    ensures table.Keys <= FinalTable(table, duration, calls).Keys
    decreases |calls|
  {
    if calls != [] {
      var o := SendSpec(table, CacheKey(calls[0].url), duration, calls[0].io);
      assert table.Keys <= o.table.Keys by {
        forall key | key in table ensures key in o.table {
          if key != CacheKey(calls[0].url) {
            assert key in table - {CacheKey(calls[0].url)};
          }
        }
      }
      FinalTableStep(table, duration, calls);
      RunKeepsKeys(o.table, duration, calls[1..]);
    }
  }

  /** Calls none of whose replies is cacheable leave the store exactly as it
      was: server errors, transport errors and failed writes never write. */
  lemma {:induction false} UncacheableRunKeepsStore(table: map<Bytes, Record>, duration: Option<nat>, calls: seq<Call>)
    requires forall i :: 0 <= i < |calls| ==> !Cacheable(calls[i])
    ensures FinalTable(table, duration, calls) == table
    decreases |calls|
  {
    if calls != [] {
      assert !Cacheable(calls[0]);
      FinalTableStep(table, duration, calls);
      UncacheableRunKeepsStore(table, duration, calls[1..]);
    }
  }

  /** The cache never writes a record that does not decode. */
  lemma {:induction false} RunKeepsDecodable(table: map<Bytes, Record>, duration: Option<nat>, calls: seq<Call>)
    requires AllDecodable(table)
    ensures AllDecodable(FinalTable(table, duration, calls))
    decreases |calls|
  {
    if calls != [] {
      var k := CacheKey(calls[0].url);
      var o := SendSpec(table, k, duration, calls[0].io);
      forall key | key in o.table ensures o.table[key].Decodable? {
        if key != k {
          assert key in o.table - {k};
          assert o.table[key] == (table - {k})[key];
        }
      }
      FinalTableStep(table, duration, calls);
      RunKeepsDecodable(o.table, duration, calls[1..]);
    }
  }

  /** Without a configured duration every stored record lacks an expiry, so
      no call is ever answered from the cache: each successful call fetched. */
  lemma {:induction false} NoDurationAlwaysFetches(table: map<Bytes, Record>, calls: seq<Call>)
    requires NoExpiries(table)
    ensures forall i :: 0 <= i < |calls| && Run(table, None, calls)[i].result.Ok? ==> Run(table, None, calls)[i].fetched
    decreases |calls|
  {
    if calls != [] {
      var k := CacheKey(calls[0].url);
      var o := SendSpec(table, k, None, calls[0].io);
      forall key | key in o.table && o.table[key].Decodable? ensures o.table[key].cached.expires.None? {
        if key != k {
          assert key in o.table - {k};
          assert o.table[key] == (table - {k})[key];
        } else if o.table != table {
          assert o.table[k] == Decodable(NewEntry(None, calls[0].io.now, calls[0].io.reply.body));
        }
      }
      NoDurationAlwaysFetches(o.table, calls[1..]);
      assert Run(table, None, calls) == [o] + Run(o.table, None, calls[1..]);
    }
  }

  /** With a duration d, a body fetched and stored at t is served from the
      cache, unchanged and without fetching, by a call for the same URL at
      any time before t + d; at t + d it is fetched again. */
  lemma RepeatWithinDurationHits(table: map<Bytes, Record>, d: nat, url: Url, first: Io, second: Io)
    requires first.readOk && Cacheable(Call(url, first))
    requires var k := CacheKey(url); k !in table || (table[k].Decodable? && !IsFresh(table[k].cached, first.now))
    requires second.readOk
    ensures var outs := Run(table, Some(d), [Call(url, first), Call(url, second)]);
      && outs[0].fetched && outs[0].result == Ok(first.reply.body)
      && (second.now < first.now + d ==> !outs[1].fetched && outs[1].result == Ok(first.reply.body))
      && (second.now >= first.now + d ==> outs[1].fetched)
  {
  }

  /** Two requests to the same URL one time unit apart, with a duration of
      one unit and a transport answering 200 with "hello": the first call
      fetches and stores, an immediate repeat is served from the cache, and
      the call one unit later fetches again because an expiry equal to the
      current time is stale. */
  lemma OneUnitScenario(url: Url, hello: Bytes)
    ensures var reply := Response(200, hello);
      var outs := Run(map[], Some(1), [Call(url, Io(0, true, reply, true)), Call(url, Io(0, true, reply, true)),
                                       Call(url, Io(1, true, reply, true))]);
      && outs[0].fetched && outs[0].result == Ok(hello)
      && !outs[1].fetched && outs[1].result == Ok(hello)
      && outs[2].fetched && outs[2].result == Ok(hello)
  {
  }
}
