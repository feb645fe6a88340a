/** The record cache (`LRURecordCache` and the record half of `NetworkCache`): least-recently-used, with a second map of
    aliases so that a record stored under its action hash is found under its entry hash and the other way round.

    `Records` is the cache as a value; the functions on it say what each method does, the classes do it in place. */
module RecordCaching {
  import opened OrderedMaps
  import opened Sequences
  import opened Wrappers

  /** A hash with the type its prefix bytes announce. Its base64 text, the key of every map, determines it. */
  datatype Hash = ActionHash(core: string) | EntryHash(core: string) | OtherHash(core: string)

  /** A network record. A hash that is missing or empty is None. */
  datatype NetworkRecord = NetworkRecord(actionHash: Option<Hash>, entryHash: Option<Hash>, body: string)

  datatype Records = Records(entries: OrderedMap<Hash, NetworkRecord>, aliases: map<Hash, Hash>) {

    ghost predicate Valid() {
      entries.Valid()
    }

    function Canonical(key: Hash): Hash {
      if key in aliases then aliases[key] else key
    }

    /** The answer of `get`. */
    function Lookup(key: Hash): Option<NetworkRecord> {
      entries.Get(Canonical(key))
    }

    function Touched(key: Hash): (c: Records)
      requires Valid()
      ensures c.Valid()
    {
      if Lookup(key).None? then this
      else this.(entries := entries.MoveToEnd(Canonical(key), entries.vals[Canonical(key)]))
    }

    /** A canonical key is dropped together with the aliases that point to it. */
    function Evicted(canonicalKey: Hash): (c: Records)
      requires Valid()
      ensures c.Valid()
    {
      Records(entries.Delete(canonicalKey), map a | a in aliases && aliases[a] != canonicalKey :: aliases[a])
    }

    function Trimmed(max: nat): (c: Records)
      requires Valid()
      ensures c.Valid() && |c.entries.order| <= max
      decreases |entries.order|
    {
      if |entries.order| <= max then this
      else
        assert entries.order[0] in Elements(entries.order);
        Evicted(entries.order[0]).Trimmed(max)
    }

    function Stored(key: Hash, value: NetworkRecord, max: nat): (c: Records)
      requires Valid()
      ensures c.Valid() && |c.entries.order| <= max
    {
      this.(entries := entries.MoveToEnd(key, value)).Trimmed(max)
    }

    function Aliased(aliasKey: Hash, canonicalKey: Hash): Records {
      if aliasKey == canonicalKey then this else this.(aliases := aliases[aliasKey := canonicalKey])
    }

    /** `cacheRecordSync`: store, then make the record's other hash an alias. */
    function Cached(key: Hash, record: NetworkRecord, max: nat): (c: Records)
      requires Valid()
      ensures c.Valid()
    {
      var c := Stored(key, record, max);
      if record.actionHash.None? || record.entryHash.None? || record.actionHash == record.entryHash then c
      else if key == record.actionHash.value then c.Aliased(record.entryHash.value, key)
      else if key == record.entryHash.value then c.Aliased(record.actionHash.value, key)
      else c
    }

    /** `invalidateRecord`. */
    function Invalidated(key: Hash): (c: Records)
      requires Valid()
      ensures c.Valid()
    {
      Evicted(Canonical(key))
    }
  }

  const NO_RECORDS := Records(OrderedMap([], map[]), map[])

  /** The aliases while those of a key are being dropped: the ones in `todo` have not been looked at. */
  ghost function AliasesWhile(aliases: map<Hash, Hash>, todo: set<Hash>, canonicalKey: Hash): map<Hash, Hash> {
    map a | a in aliases && (a in todo || aliases[a] != canonicalKey) :: aliases[a]
  }

  lemma AliasStep(aliases: map<Hash, Hash>, todo: set<Hash>, canonicalKey: Hash, alias: Hash)
    requires alias in todo && todo <= aliases.Keys
    ensures AliasesWhile(aliases, todo - {alias}, canonicalKey)
         == if aliases[alias] == canonicalKey then AliasesWhile(aliases, todo, canonicalKey) - {alias}
            else AliasesWhile(aliases, todo, canonicalKey)
  {
  }

  class LRURecordCache {
    var entries: OrderedMap<Hash, NetworkRecord>
    var aliasMap: map<Hash, Hash>
    const maxEntries: nat

    ghost predicate Valid()
      reads this
    {
      Value().Valid()
    }

    ghost function Value(): Records
      reads this
    {
      Records(entries, aliasMap)
    }

    constructor (maxEntries: nat)
      ensures Valid() && Value() == NO_RECORDS && this.maxEntries == maxEntries
    {
      entries, aliasMap, this.maxEntries := Empty(), map[], maxEntries;
    }

    method Get(key: Hash) returns (value: Option<NetworkRecord>)
      requires Valid()
      modifies this
      ensures Valid()
      ensures value == old(Value()).Lookup(key)
      ensures Value() == old(Value()).Touched(key)
    {
      var canonicalKey := if key in aliasMap then aliasMap[key] else key;
      value := entries.Get(canonicalKey);
      if value.None? {
        return;
      }
      entries := entries.Delete(canonicalKey);
      entries := entries.Set(canonicalKey, value.value);
    }

    method Set(key: Hash, value: NetworkRecord)
      requires Valid()
      modifies this
      ensures Valid()
      ensures Value() == old(Value()).Stored(key, value, maxEntries)
    {
      if key in entries.vals {
        entries := entries.Delete(key);
      } else {
        entries.WithoutAbsentWhenMissing(key);
      }
      entries := entries.Set(key, value);
      ghost var put := Value();
      assert put == old(Value()).(entries := old(Value()).entries.MoveToEnd(key, value));
      while |entries.order| > maxEntries
        invariant Valid()
        invariant Value().Trimmed(maxEntries) == put.Trimmed(maxEntries)
        decreases |entries.order|
      {
        assert entries.order[0] in Elements(entries.order);
        EvictKey(entries.order[0]);
      }
    }

    method SetAlias(aliasKey: Hash, canonicalKey: Hash)
      modifies this
      ensures Value() == old(Value()).Aliased(aliasKey, canonicalKey)
    {
      if aliasKey != canonicalKey {
        aliasMap := aliasMap[aliasKey := canonicalKey];
      }
    }

    method Delete(key: Hash)
      requires Valid()
      modifies this
      ensures Valid()
      ensures Value() == old(Value()).Invalidated(key)
    {
      var canonicalKey := if key in aliasMap then aliasMap[key] else key;
      EvictKey(canonicalKey);
    }

    method EvictKey(canonicalKey: Hash)
      requires Valid()
      modifies this
      ensures Valid()
      ensures Value() == old(Value()).Evicted(canonicalKey)
    {
      entries := entries.Delete(canonicalKey);
      ghost var before := aliasMap;
      var todo := aliasMap.Keys;
      while todo != {}
        invariant todo <= before.Keys
        invariant aliasMap == AliasesWhile(before, todo, canonicalKey)
        invariant entries == old(entries).Delete(canonicalKey)
        decreases |todo|
      {
        var alias :| alias in todo;
        AliasStep(before, todo, canonicalKey, alias);
        if aliasMap[alias] == canonicalKey {
          aliasMap := aliasMap - {alias};
        }
        todo := todo - {alias};
      }
    }

    method Clear()
      modifies this
      ensures Valid() && Value() == NO_RECORDS
    {
      entries, aliasMap := Empty(), map[];
    }
  }

  /** The record half of `NetworkCache`. */
  class NetworkCache {
    const records: LRURecordCache

    constructor (recordMax: nat)
      ensures fresh(records) && records.Valid() && records.Value() == NO_RECORDS && records.maxEntries == recordMax
    {
      records := new LRURecordCache(recordMax);
    }

    method GetRecordSync(hash: Hash) returns (record: Option<NetworkRecord>)
      requires records.Valid()
      modifies records
      ensures records.Valid()
      ensures record == old(records.Value()).Lookup(hash) && records.Value() == old(records.Value()).Touched(hash)
    {
      record := records.Get(hash);
    }

    method CacheRecordSync(hash: Hash, record: NetworkRecord)
      requires records.Valid()
      modifies records
      ensures records.Valid()
      ensures records.Value() == old(records.Value()).Cached(hash, record, records.maxEntries)
    {
      records.Set(hash, record);
      if record.actionHash.Some? && record.entryHash.Some? {
        var actionKey, entryKey := record.actionHash.value, record.entryHash.value;
        if hash == actionKey && entryKey != actionKey {
          records.SetAlias(entryKey, actionKey);
        } else if hash == entryKey && actionKey != entryKey {
          records.SetAlias(actionKey, entryKey);
        }
      }
    }

    method InvalidateRecord(hash: Hash)
      requires records.Valid()
      modifies records
      ensures records.Valid()
      ensures records.Value() == old(records.Value()).Invalidated(hash)
    {
      records.Delete(hash);
    }
  }
}
