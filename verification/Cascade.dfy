/** Record retrieval (`Cascade.fetchRecord`): local storage, then the record cache, then the network, inserting into the
    cache only after a miss. The cache is right because of that protocol, not by itself. */
module Cascading {
  import opened OrderedMaps
  import opened Recency
  import opened RecordCaching
  import opened Sequences
  import opened Wrappers

  /** What asking the network would give at the time of a fetch. An error is either the kind that is passed on when the
      error mode says so, or it is logged. */
  datatype Network = Unavailable | Reply(record: Option<NetworkRecord>) | Fails(propagates: bool)

  datatype Fetched = Found(record: NetworkRecord) | Missing | Threw

  datatype Options = Options(useNetwork: bool, cacheNetworkResults: bool)

  function Optional(record: Option<NetworkRecord>): Fetched {
    if record.Some? then Found(record.value) else Missing
  }

  function AskNetwork(network: Network, options: Options): Fetched {
    if !options.useNetwork || network.Unavailable? then Missing
    else match network
         case Reply(record) => Optional(record)
         case Fails(propagates) => if propagates then Threw else Missing
  }

  /** A fetch without any cache. */
  function Uncached(local: Option<NetworkRecord>, network: Network, options: Options): Fetched {
    if local.Some? then Found(local.value) else AskNetwork(network, options)
  }

  /** `fetchRecord`: the answer and the cache it leaves behind. */
  function Fetch(c: Records, max: nat, hash: Hash, local: Option<NetworkRecord>, network: Network, options: Options)
    : (r: (Fetched, Records))
    requires c.Valid()
    ensures r.1.Valid()
  {
    if local.Some? then (Found(local.value), c)
    else if c.Lookup(hash).Some? then (Found(c.Lookup(hash).value), c.Touched(hash))
    else
      var answer := AskNetwork(network, options);
      (answer, if answer.Found? && options.cacheNetworkResults then c.Cached(hash, answer.record, max) else c)
  }

  class Cascade {
    const cache: NetworkCache

    constructor (cache: NetworkCache)
      ensures this.cache == cache
    {
      this.cache := cache;
    }

    /** What the local source chain holds for the hash and how the network would answer are parameters. */
    method FetchRecord(hash: Hash, local: Option<NetworkRecord>, network: Network, options: Options,
                       strategyLocal: bool)
      returns (result: Fetched)
      requires cache.records.Valid()
      modifies cache.records
      ensures cache.records.Valid()
      ensures var opts := if strategyLocal then options.(useNetwork := false) else options;
              (result, cache.records.Value())
              == Fetch(old(cache.records.Value()), cache.records.maxEntries, hash, local, network, opts)
    {
      var opts := options;
      if strategyLocal {
        opts := opts.(useNetwork := false);
      }
      if local.Some? {
        return Found(local.value);
      }
      var cached := cache.GetRecordSync(hash);
      if cached.Some? {
        return Found(cached.value);
      }
      if opts.useNetwork && !network.Unavailable? {
        match network
        case Reply(record) =>
          if record.Some? {
            if opts.cacheNetworkResults {
              cache.CacheRecordSync(hash, record.value);
            }
            return Found(record.value);
          }
        case Fails(propagates) =>
          if propagates {
            return Threw;
          }
      }
      return Missing;
    }
  }

  // ---------------------------------------------------------------- content addressing

  /** The record really has the hash it is looked up by. */
  predicate Belongs(record: NetworkRecord, hash: Hash) {
    match hash
    case ActionHash(_) => record.actionHash == Some(hash)
    case EntryHash(_) => record.entryHash == Some(hash)
    case OtherHash(_) => true
  }

  /** An action hash determines its record: `content` is the record every honest source has for it. The entry hash of a
      record is never an action hash, its action hash never an entry hash. */
  ghost predicate Genuine(record: NetworkRecord, content: Hash -> NetworkRecord) {
    && (record.actionHash.Some? ==> !record.actionHash.value.EntryHash? && content(record.actionHash.value) == record)
    && (record.entryHash.Some? ==> !record.entryHash.value.ActionHash?)
  }

  /** The network answers a hash with a genuine record that has it, or not at all. */
  ghost predicate ContentAddressed(network: Network, hash: Hash, content: Hash -> NetworkRecord) {
    network.Reply? && network.record.Some? ==>
      Belongs(network.record.value, hash) && Genuine(network.record.value, content)
  }

  /** The cache agrees with what it caches: every alias leads to a live record that has the alias as a hash, and every
      record has the hash it is stored under. */
  ghost predicate Faithful(c: Records, content: Hash -> NetworkRecord) {
    && (forall k :: k in c.entries.vals ==> Belongs(c.entries.vals[k], k) && Genuine(c.entries.vals[k], content))
    && (forall a :: a in c.aliases ==> c.aliases[a] in c.entries.vals && Belongs(c.entries.vals[c.aliases[a]], a))
  }

  ghost predicate Sound(c: Records, max: nat, content: Hash -> NetworkRecord) {
    c.Valid() && |c.entries.order| <= max && Faithful(c, content)
  }

  lemma HitIsRight(c: Records, max: nat, content: Hash -> NetworkRecord, hash: Hash)
    requires Sound(c, max, content)
    ensures c.Lookup(hash).Some? ==> Belongs(c.Lookup(hash).value, hash) && Genuine(c.Lookup(hash).value, content)
    ensures hash.ActionHash? && c.Lookup(hash).Some? ==> c.Lookup(hash).value == content(hash)
    ensures hash in c.aliases ==> c.Lookup(hash).Some?
  {
  }

  lemma EvictionKeepsFaithful(c: Records, content: Hash -> NetworkRecord, key: Hash)
    requires c.Valid() && Faithful(c, content)
    ensures Faithful(c.Evicted(key), content)
  {
  }

  /** Trimming keeps the agreement. */
  lemma {:induction false} TrimKeepsFaithful(c: Records, max: nat, content: Hash -> NetworkRecord)
    requires c.Valid() && Faithful(c, content)
    ensures Faithful(c.Trimmed(max), content)
    decreases |c.entries.order|
  {
    if |c.entries.order| > max {
      var oldest := c.entries.order[0];
      assert oldest in Elements(c.entries.order);
      EvictionKeepsFaithful(c, content, oldest);
      TrimKeepsFaithful(c.Evicted(oldest), max, content);
    }
  }

  lemma EvictingFirst(c: Records, key: Hash)
    requires c.Valid() && |c.entries.order| >= 2 && c.entries.order[|c.entries.order| - 1] == key
    ensures var oldest := c.entries.order[0];
            oldest != key && oldest in c.entries.vals && key in c.entries.vals
            && c.Evicted(oldest).entries.order == c.entries.order[1..]
  {
    var order := c.entries.order;
    assert order[0] in Elements(order) && order[|order| - 1] in Elements(order);
    assert order == [order[0]] + order[1..];
    assert order[0] !in order[1..];
    WithoutAbsent(order[1..], order[0]);
  }

  /** Trimming keeps the last key, its record and its aliases. */
  lemma {:induction false} TrimKeepsLast(c: Records, max: nat, key: Hash)
    requires c.Valid() && max >= 1 && c.entries.order != [] && c.entries.order[|c.entries.order| - 1] == key
    ensures KeepsKey(c, c.Trimmed(max), key)
    decreases |c.entries.order|
  {
    if |c.entries.order| > max {
      EvictingFirst(c, key);
      var next := c.Evicted(c.entries.order[0]);
      TrimKeepsLast(next, max, key);
      assert KeepsKey(c, next, key);
    } else {
      assert key in Elements(c.entries.order);
    }
  }

  ghost predicate KeepsKey(c: Records, after: Records, key: Hash) {
    && key in c.entries.vals && key in after.entries.vals && after.entries.vals[key] == c.entries.vals[key]
    && forall a :: a in c.aliases && c.aliases[a] == key ==> a in after.aliases && after.aliases[a] == key
  }

  /** Every alias that leads to the key is a hash of the record. */
  predicate AliasesFit(c: Records, key: Hash, record: NetworkRecord) {
    forall a :: a in c.aliases && c.aliases[a] == key ==> Belongs(record, a)
  }

  lemma StoringKeepsLast(c: Records, max: nat, hash: Hash, record: NetworkRecord)
    requires c.Valid() && max >= 1
    ensures var stored := c.Stored(hash, record, max);
            && hash in stored.entries.vals && stored.entries.vals[hash] == record
            && forall a :: a in c.aliases && c.aliases[a] == hash ==> a in stored.aliases && stored.aliases[a] == hash
  {
    TrimKeepsLast(c.(entries := c.entries.MoveToEnd(hash, record)), max, hash);
  }

  /** Storing a genuine record under a hash it has keeps the agreement if the aliases of the hash fit it. */
  lemma StoreKeepsFaithful(c: Records, max: nat, content: Hash -> NetworkRecord, hash: Hash, record: NetworkRecord)
    requires c.Valid() && Faithful(c, content) && AliasesFit(c, hash, record)
    requires Belongs(record, hash) && Genuine(record, content)
    ensures Faithful(c.Stored(hash, record, max), content)
  {
    var put := c.(entries := c.entries.MoveToEnd(hash, record));
    assert put.Valid() && Faithful(put, content);
    TrimKeepsFaithful(put, max, content);
  }

  /** An insertion is a store and at most one alias, which is another hash of the record. */
  lemma CachedAlias(c: Records, max: nat, content: Hash -> NetworkRecord, hash: Hash, record: NetworkRecord)
    returns (alias: Option<Hash>)
    requires c.Valid()
    ensures var stored := c.Stored(hash, record, max);
            c.Cached(hash, record, max)
            == if alias.None? then stored else stored.(aliases := stored.aliases[alias.value := hash])
    ensures alias.Some? ==> alias.value != hash && (Genuine(record, content) ==> Belongs(record, alias.value))
  {
    if record.actionHash.None? || record.entryHash.None? || record.actionHash == record.entryHash {
      alias := None;
    } else if hash == record.actionHash.value {
      alias := record.entryHash;
    } else if hash == record.entryHash.value {
      alias := record.actionHash;
    } else {
      alias := None;
    }
  }

  /** Inserting a genuine record under a hash it has keeps the cache sound if and only if every alias that leads to this
      hash is a hash of the new record. */
  lemma CachingKeepsSoundIff(c: Records, max: nat, content: Hash -> NetworkRecord, hash: Hash, record: NetworkRecord)
    requires Sound(c, max, content) && max >= 1
    requires Belongs(record, hash) && Genuine(record, content)
    ensures Sound(c.Cached(hash, record, max), max, content) <==> AliasesFit(c, hash, record)
  {
    StoringKeepsLast(c, max, hash, record);
    var alias := CachedAlias(c, max, content, hash, record);
    if AliasesFit(c, hash, record) {
      StoreKeepsFaithful(c, max, content, hash, record);
    } else {
      var a :| a in c.aliases && c.aliases[a] == hash && !Belongs(record, a);
      assert c.Cached(hash, record, max).aliases[a] == hash;
    }
  }

  /** After a miss no alias leads to the hash: inserting a genuine record then keeps the cache sound, and the record is
      found there. */
  lemma InsertAfterMissKeepsSound(c: Records, max: nat, content: Hash -> NetworkRecord, hash: Hash,
                                  record: NetworkRecord)
    requires Sound(c, max, content) && max >= 1
    requires c.Lookup(hash).None?
    requires Belongs(record, hash) && Genuine(record, content)
    ensures Sound(c.Cached(hash, record, max), max, content)
    ensures c.Cached(hash, record, max).Lookup(hash) == Some(record)
  {
    assert hash !in c.aliases;
    assert AliasesFit(c, hash, record);
    CachingKeepsSoundIff(c, max, content, hash, record);
    FoundAfterInsertion(c, max, content, hash, record);
  }

  lemma FoundAfterInsertion(c: Records, max: nat, content: Hash -> NetworkRecord, hash: Hash, record: NetworkRecord)
    requires c.Valid() && Faithful(c, content) && max >= 1 && hash !in c.aliases
    ensures c.Cached(hash, record, max).Lookup(hash) == Some(record)
  {
    StoringKeepsLast(c, max, hash, record);
    TrimAddsNoAlias(c.(entries := c.entries.MoveToEnd(hash, record)), max);
    var alias := CachedAlias(c, max, content, hash, record);
  }

  lemma {:induction false} TrimAddsNoAlias(c: Records, max: nat)
    requires c.Valid()
    ensures c.Trimmed(max).aliases.Keys <= c.aliases.Keys
    decreases |c.entries.order|
  {
    if |c.entries.order| > max {
      assert c.entries.order[0] in Elements(c.entries.order);
      TrimAddsNoAlias(c.Evicted(c.entries.order[0]), max);
    }
  }

  lemma FetchKeepsSound(c: Records, max: nat, content: Hash -> NetworkRecord, hash: Hash,
                        local: Option<NetworkRecord>, network: Network, options: Options)
    requires Sound(c, max, content) && max >= 1 && ContentAddressed(network, hash, content)
    ensures Sound(Fetch(c, max, hash, local, network, options).1, max, content)
  {
    var answer := AskNetwork(network, options);
    if local.None? && c.Lookup(hash).None? && answer.Found? {
      InsertAfterMissKeepsSound(c, max, content, hash, answer.record);
    } else if local.None? && c.Lookup(hash).Some? {
      TouchKeepsSound(c, max, content, hash);
    }
  }

  lemma TouchKeepsSound(c: Records, max: nat, content: Hash -> NetworkRecord, hash: Hash)
    requires Sound(c, max, content)
    ensures Sound(c.Touched(hash), max, content)
  {
    WithoutDistinct(c.entries.order, c.Canonical(hash));
    assert c.Lookup(hash).Some? ==> c.Canonical(hash) in Elements(c.entries.order);
  }

  // ---------------------------------------------------------------- every run

  datatype Event =
    | FetchRecord(hash: Hash, local: Option<NetworkRecord>, network: Network, options: Options)
    | Invalidate(hash: Hash)
    | Clear

  function After(c: Records, max: nat, e: Event): (c': Records)
    requires c.Valid()
    ensures c'.Valid()
  {
    match e
    case FetchRecord(hash, local, network, options) => Fetch(c, max, hash, local, network, options).1
    case Invalidate(hash) => c.Invalidated(hash)
    case Clear => NO_RECORDS
  }

  function Reached(events: seq<Event>, max: nat): (c: Records)
    ensures c.Valid()
  {
    if events == [] then NO_RECORDS else After(Reached(events[..|events| - 1], max), max, events[|events| - 1])
  }

  ghost predicate Honest(events: seq<Event>, content: Hash -> NetworkRecord) {
    forall e :: e in events && e.FetchRecord? ==> ContentAddressed(e.network, e.hash, content)
  }

  /** Every cache reached by fetches, invalidations and clears, over a network that may be down, fail or learn more as
      it goes, is sound. */
  lemma {:induction false} ReachedIsSound(events: seq<Event>, max: nat, content: Hash -> NetworkRecord)
    requires max >= 1 && Honest(events, content)
    ensures Sound(Reached(events, max), max, content)
  {
    if events != [] {
      var front, e := events[..|events| - 1], events[|events| - 1];
      ReachedIsSound(front, max, content);
      var c := Reached(front, max);
      match e
      case FetchRecord(hash, local, network, options) =>
        FetchKeepsSound(c, max, content, hash, local, network, options);
      case Invalidate(hash) =>
        EvictionKeepsFaithful(c, content, c.Canonical(hash));
      case Clear =>
    }
  }

  /** Fetching an action hash through a reached cache gives what a fetch without cache gives, unless the cache still
      knows a record the network does not answer with now; then it gives that record, and it is the right one. */
  lemma CacheIsTransparent(events: seq<Event>, max: nat, content: Hash -> NetworkRecord, hash: Hash,
                           local: Option<NetworkRecord>, network: Network, options: Options)
    requires max >= 1 && Honest(events, content) && hash.ActionHash? && ContentAddressed(network, hash, content)
    ensures var c := Reached(events, max);
            var cached, direct := Fetch(c, max, hash, local, network, options).0, Uncached(local, network, options);
            && (direct.Found? ==> cached == direct)
            && (cached == direct || (c.Lookup(hash).Some? && cached == Found(content(hash))))
  {
    ReachedIsSound(events, max, content);
    HitIsRight(Reached(events, max), max, content, hash);
  }

  // ---------------------------------------------------------------- where the cache alone is not enough

  /** After invalidating a hash it is still found exactly if it was an alias and, besides, stored under itself. */
  lemma InvalidatedHashStillHits(c: Records, hash: Hash)
    requires c.Valid()
    ensures c.Invalidated(hash).Lookup(hash).Some? <==>
              hash in c.aliases && c.aliases[hash] != hash && hash in c.entries.vals
  {
  }

  const SHARED := EntryHash("shared")
  const FIRST := NetworkRecord(Some(ActionHash("first")), Some(SHARED), "")
  const SECOND := NetworkRecord(Some(ActionHash("second")), Some(SHARED), "")

  /** The honest source that knows just these two records of one entry. */
  function TwoRecords(): Hash -> NetworkRecord {
    (h: Hash) => if h == ActionHash("first") then FIRST else SECOND
  }

  function FetchBoth(): seq<Event> {
    [FetchRecord(SHARED, None, Reply(Some(FIRST)), Options(true, true)),
     FetchRecord(ActionHash("second"), None, Reply(Some(SECOND)), Options(true, true))]
  }

  lemma BothFetched()
    ensures Honest(FetchBoth(), TwoRecords())
    ensures Reached(FetchBoth(), 2)
         == Records(OrderedMap([SHARED, ActionHash("second")], map[SHARED := FIRST, ActionHash("second") := SECOND]),
                    map[ActionHash("first") := SHARED, SHARED := ActionHash("second")])
  {
    var both := FetchBoth();
    assert both[..1][..0] == [];
    assert both[..1] == [both[0]];
    assert Reached(both[..1], 2) == NO_RECORDS.Cached(SHARED, FIRST, 2);
  }

  /** Such a state is reached by fetching an entry, then another action that created the same entry: invalidating the
      entry hash does not make it miss. */
  lemma InvalidatedHashCanHit()
    ensures exists events, content, hash ::
              Honest(events, content) && Reached(events + [Invalidate(hash)], 2).Lookup(hash).Some?
  {
    BothFetched();
    var events := FetchBoth() + [Invalidate(SHARED)];
    assert events[..|events| - 1] == FetchBoth();
    InvalidatedHashStillHits(Reached(FetchBoth(), 2), SHARED);
    assert Reached(events, 2).Lookup(SHARED).Some?;
  }

  /** Such aliases exist, so inserting without looking first can turn one into a lie: a record stored twice under its
      entry hash is found under the first record's action hash. */
  lemma InsertWithoutMissCanLie()
    ensures exists c, content, hash, record :: Sound(c, 2, content) && Belongs(record, hash) && Genuine(record, content)
              && c.Lookup(hash).Some? && !Sound(c.Cached(hash, record, 2), 2, content)
  {
    var first := ActionHash("first");
    var c := Records(OrderedMap([SHARED], map[SHARED := FIRST]), map[first := SHARED]);
    assert Sound(c, 2, TwoRecords());
    var c' := c.Cached(SHARED, SECOND, 2);
    assert c'.aliases[first] == SHARED && !Belongs(c'.entries.vals[SHARED], first);
    assert !Sound(c', 2, TwoRecords());
  }
}
