/** What a fetch answers: local first, then what the cache remembers, then the network, and for how long the cache
    remembers. */
module CascadeAnswers {
  import opened Cascading
  import opened OrderedMaps
  import opened RecordCaching
  import opened Recency
  import opened Sequences
  import opened Wrappers

  /** A local record is the answer, and the cache is left alone. On a miss the network's record is the answer if the
      network may be used, and only an error of the kind that is passed on throws. */
  lemma UncachedAnswers(c: Records, max: nat, hash: Hash, local: Option<NetworkRecord>, network: Network,
                        options: Options)
    requires c.Valid()
    ensures var (answer, c') := Fetch(c, max, hash, local, network, options);
            && (local.Some? ==> answer == Found(local.value) && c' == c)
            && (local.None? && c.Lookup(hash).None? ==>
                  && (forall r :: answer == Found(r) <==> options.useNetwork && network == Reply(Some(r)))
                  && (answer == Threw <==> options.useNetwork && network == Fails(true))
                  && (!answer.Found? || !options.cacheNetworkResults ==> c' == c))
  {
  }

  /** Whatever the network would say, a hash that the cache knows is answered from the cache, with a record that has the
      hash; the record of an action hash is the one there is. */
  lemma HitAnswers(c: Records, max: nat, content: Hash -> NetworkRecord, hash: Hash, network: Network, options: Options)
    requires Sound(c, max, content) && c.Lookup(hash).Some?
    ensures var (answer, c') := Fetch(c, max, hash, None, network, options);
            && answer == Found(c.Lookup(hash).value) && Belongs(answer.record, hash)
            && (hash.ActionHash? ==> answer == Found(content(hash)))
            && c'.Lookup(hash) == c.Lookup(hash)
  {
    HitIsRight(c, max, content, hash);
  }

  /** After a fetch that the network could answer, a fetch of the same hash gives the same answer, over any network, or
      none, and with any options. */
  lemma FetchIsRemembered(c: Records, max: nat, content: Hash -> NetworkRecord, hash: Hash, record: NetworkRecord,
                          network: Network, options: Options)
    requires Sound(c, max, content) && max >= 1 && Belongs(record, hash) && Genuine(record, content)
    ensures var (first, c') := Fetch(c, max, hash, None, Reply(Some(record)), Options(true, true));
            && first.Found? && Belongs(first.record, hash) && (hash.ActionHash? ==> first == Found(record))
            && (c.Lookup(hash).None? ==> first == Found(record))
            && Fetch(c', max, hash, None, network, options).0 == first
  {
    var c' := Fetch(c, max, hash, None, Reply(Some(record)), Options(true, true)).1;
    if c.Lookup(hash).None? {
      InsertAfterMissKeepsSound(c, max, content, hash, record);
      HitAnswers(c', max, content, hash, network, options);
    } else {
      HitAnswers(c, max, content, hash, Reply(Some(record)), Options(true, true));
      TouchKeepsSound(c, max, content, hash);
      HitAnswers(c', max, content, hash, network, options);
    }
  }

  /** A record that was fetched under one of its two hashes is then found under the other one as well. */
  lemma FoundUnderBothHashes(c: Records, max: nat, content: Hash -> NetworkRecord, record: NetworkRecord, hash: Hash,
                             other: Hash, network: Network, options: Options)
    requires Sound(c, max, content) && max >= 1 && Genuine(record, content) && c.Lookup(hash).None? && hash != other
    requires (record.actionHash, record.entryHash) in {(Some(hash), Some(other)), (Some(other), Some(hash))}
    requires Belongs(record, hash)
    ensures var c' := Fetch(c, max, hash, None, Reply(Some(record)), Options(true, true)).1;
            Fetch(c', max, other, None, network, options).0 == Found(record)
  {
    InsertAfterMissKeepsSound(c, max, content, hash, record);
    StoringKeepsLast(c, max, hash, record);
    assert c.Cached(hash, record, max) == c.Stored(hash, record, max).Aliased(other, hash);
  }

  // ---------------------------------------------------------------- for how long

  /** What a fetch does to the cache, as lookups, insertions and aliases. */
  function OpsOfFetch(c: Records, hash: Hash, local: Option<NetworkRecord>, network: Network, options: Options): seq<Op>
  {
    if local.Some? then []
    else if c.Lookup(hash).Some? then [Get(hash)]
    else
      var answer := AskNetwork(network, options);
      if answer.Found? && options.cacheNetworkResults then Insertion(hash, answer.record) else []
  }

  function Insertion(key: Hash, record: NetworkRecord): seq<Op> {
    if record.actionHash.None? || record.entryHash.None? || record.actionHash == record.entryHash
    then [Put(key, record)]
    else if key == record.actionHash.value then [Put(key, record), Alias(record.entryHash.value, key)]
    else if key == record.entryHash.value then [Put(key, record), Alias(record.actionHash.value, key)]
    else [Put(key, record)]
  }

  function OpsOf(events: seq<Event>, max: nat): seq<Op> {
    if events == [] then []
    else
      var front, e := events[..|events| - 1], events[|events| - 1];
      OpsOf(front, max)
      + if e.FetchRecord? then OpsOfFetch(Reached(front, max), e.hash, e.local, e.network, e.options) else []
  }

  lemma RanAppend(ops: seq<Op>, op: Op, max: nat)
    ensures Ran(ops + [op], max) == Done(Ran(ops, max), op, max)
  {
    assert (ops + [op])[..|ops + [op]| - 1] == ops;
  }

  /** The state after the operations, from a given cache. */
  function RunFrom(c: Records, ops: seq<Op>, max: nat): (c': Records)
    requires c.Valid()
    ensures c'.Valid()
    decreases |ops|
  {
    if ops == [] then c else RunFrom(Done(c, ops[0], max), ops[1..], max)
  }

  lemma {:induction false} RunsOn(ops: seq<Op>, more: seq<Op>, max: nat)
    ensures Ran(ops + more, max) == RunFrom(Ran(ops, max), more, max)
    decreases |more|
  {
    if more == [] {
      assert ops + more == ops;
    } else {
      RanAppend(ops, more[0], max);
      RunsOn(ops + [more[0]], more[1..], max);
      assert ops + more == ops + [more[0]] + more[1..];
    }
  }

  lemma InsertionFrom(c: Records, key: Hash, record: NetworkRecord, max: nat)
    requires c.Valid()
    ensures RunFrom(c, Insertion(key, record), max) == c.Cached(key, record, max)
  {
    var ops := Insertion(key, record);
    var next, rest := Done(c, ops[0], max), ops[1..];
    assert RunFrom(c, ops, max) == RunFrom(next, rest, max);
    if |ops| == 2 {
      assert rest == [ops[1]] && rest[1..] == [];
      assert RunFrom(next, rest, max) == RunFrom(Done(next, ops[1], max), [], max);
    } else {
      assert rest == [];
    }
  }

  lemma FetchRuns(ops: seq<Op>, max: nat, hash: Hash, local: Option<NetworkRecord>, network: Network, options: Options)
    ensures Ran(ops + OpsOfFetch(Ran(ops, max), hash, local, network, options), max)
         == Fetch(Ran(ops, max), max, hash, local, network, options).1
  {
    var c := Ran(ops, max);
    RunsOn(ops, OpsOfFetch(c, hash, local, network, options), max);
    var more := OpsOfFetch(c, hash, local, network, options);
    var answer := AskNetwork(network, options);
    if local.Some? {
      assert more == [];
      assert RunFrom(c, more, max) == Fetch(c, max, hash, local, network, options).1;
    } else if c.Lookup(hash).Some? {
      assert more == [Get(hash)] && more[1..] == [];
      assert RunFrom(c, more, max) == RunFrom(Done(c, Get(hash), max), [], max);
      assert RunFrom(c, more, max) == Fetch(c, max, hash, local, network, options).1;
    } else if answer.Found? && options.cacheNetworkResults {
      InsertionFrom(c, hash, answer.record, max);
      assert RunFrom(c, more, max) == Fetch(c, max, hash, local, network, options).1;
    } else {
      assert more == [];
      assert RunFrom(c, more, max) == Fetch(c, max, hash, local, network, options).1;
    }
  }

  /** A run of fetches is a run of these operations. */
  lemma {:induction false} FetchesRun(events: seq<Event>, max: nat)
    requires forall e :: e in events ==> e.FetchRecord?
    ensures Ran(OpsOf(events, max), max) == Reached(events, max)
  {
    if events != [] {
      var front, e := events[..|events| - 1], events[|events| - 1];
      FetchesRun(front, max);
      assert e in events;
      FetchRuns(OpsOf(front, max), max, e.hash, e.local, e.network, e.options);
    }
  }

  /** Over any run of fetches: a hash that was stored or found and after whose last touch fewer than `max` other keys
      were touched is still answered, by a record that has it, whatever the network says now. */
  lemma RecentFetchesAreAnswered(events: seq<Event>, max: nat, content: Hash -> NetworkRecord, hash: Hash, i: nat,
                                 network: Network, options: Options)
    requires max >= 1 && Honest(events, content) && forall e :: e in events ==> e.FetchRecord?
    requires LastTouch(Touched(OpsOf(events, max), max), hash, i)
    requires |Elements(Touched(OpsOf(events, max), max)[i + 1..])| < max
    ensures var answer := Fetch(Reached(events, max), max, hash, None, network, options).0;
            answer.Found? && Belongs(answer.record, hash) && (hash.ActionHash? ==> answer == Found(content(hash)))
  {
    var c := Reached(events, max);
    FetchesRun(events, max);
    ReachedIsSound(events, max, content);
    CachedIffRecent(OpsOf(events, max), max, hash, i);
    HitIsRight(c, max, content, hash);
    assert c.Lookup(hash).Some?;
    HitAnswers(c, max, content, hash, network, options);
  }
}
