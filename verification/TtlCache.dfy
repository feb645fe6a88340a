/** The details cache (`TTLCache`): entries expire a fixed time after they were written, and when there are too many the
    expired ones go first, then the oldest. */
module TtlCaching {
  import opened OrderedMaps
  import opened Sequences
  import opened Wrappers

  type Key = string
  type Data = string
  datatype Entry = Entry(data: Data, expiresAt: int)
  type Entries = OrderedMap<Key, Entry>

  predicate Expired(m: Entries, key: Key, now: int) {
    key in m.vals && now > m.vals[key].expiresAt
  }

  /** `get`: the answer, and the cache without the key if it has expired. */
  function Read(m: Entries, key: Key, now: int): (r: (Option<Data>, Entries))
    requires m.Valid()
    ensures r.1.Valid()
  {
    if key !in m.vals then (None, m)
    else if Expired(m, key, now) then (None, m.Delete(key))
    else (Some(m.vals[key].data), m)
  }

  /** One pass over `keys` that deletes the expired ones. */
  function Purged(m: Entries, keys: seq<Key>, now: int): (r: Entries)
    requires m.Valid()
    ensures r.Valid()
    decreases |keys|
  {
    if keys == [] then m else Purged(if Expired(m, keys[0], now) then m.Delete(keys[0]) else m, keys[1..], now)
  }

  function Trimmed(m: Entries, max: nat): (r: Entries)
    requires m.Valid()
    ensures r.Valid() && |r.order| <= max
    decreases |m.order|
  {
    if |m.order| <= max then m
    else
      assert m.order[0] in Elements(m.order);
      Trimmed(m.Delete(m.order[0]), max)
  }

  /** `set`, with the two readings of the clock it takes: one for the expiry time, one for the eviction. */
  function Written(m: Entries, key: Key, data: Data, now: int, ttl: nat, evictAt: int, max: nat): (r: Entries)
    requires m.Valid()
    ensures r.Valid() && |r.order| <= max
  {
    var put := m.MoveToEnd(key, Entry(data, now + ttl));
    if |put.order| > max then Trimmed(Purged(put, put.order, evictAt), max) else put
  }

  class TTLCache {
    var entries: Entries
    const maxEntries: nat
    const ttl: nat

    constructor (maxEntries: nat, ttl: nat)
      ensures entries == Empty() && this.maxEntries == maxEntries && this.ttl == ttl
    {
      entries, this.maxEntries, this.ttl := Empty(), maxEntries, ttl;
    }

    method Get(key: Key, now: int) returns (data: Option<Data>)
      requires entries.Valid()
      modifies this
      ensures entries.Valid()
      ensures (data, entries) == Read(old(entries), key, now)
    {
      var entry := entries.Get(key);
      if entry.None? {
        return None;
      }
      if now > entry.value.expiresAt {
        entries := entries.Delete(key);
        return None;
      }
      return Some(entry.value.data);
    }

    method Set(key: Key, data: Data, now: int, evictAt: int)
      requires entries.Valid()
      modifies this
      ensures entries.Valid()
      ensures entries == Written(old(entries), key, data, now, ttl, evictAt, maxEntries)
    {
      entries := entries.Delete(key);
      entries := entries.Set(key, Entry(data, now + ttl));
      assert entries == old(entries).MoveToEnd(key, Entry(data, now + ttl));
      if |entries.order| > maxEntries {
        Evict(evictAt);
      }
    }

    method Evict(now: int)
      requires entries.Valid()
      modifies this
      ensures entries.Valid()
      ensures entries == Trimmed(Purged(old(entries), old(entries).order, now), maxEntries)
    {
      var keys := entries.order;
      for i := 0 to |keys|
        invariant entries.Valid()
        invariant Purged(entries, keys[i..], now) == Purged(old(entries), keys, now)
      {
        assert keys[i..][1..] == keys[i + 1..];
        if keys[i] in entries.vals && now > entries.vals[keys[i]].expiresAt {
          entries := entries.Delete(keys[i]);
        }
      }
      ghost var purged := entries;
      while |entries.order| > maxEntries
        invariant entries.Valid()
        invariant Trimmed(entries, maxEntries) == Trimmed(purged, maxEntries)
        decreases |entries.order|
      {
        assert entries.order[0] in Elements(entries.order);
        entries := entries.Delete(entries.order[0]);
      }
    }

    method Delete(key: Key)
      requires entries.Valid()
      modifies this
      ensures entries.Valid() && entries == old(entries).Delete(key)
    {
      entries := entries.Delete(key);
    }
  }

  // ---------------------------------------------------------------- the order of the cache

  /** Oldest expiry first, and nothing expires later than a write made now would. */
  ghost predicate ByExpiry(m: Entries, latest: int) {
    && m.Valid()
    && (forall i, j :: 0 <= i < j < |m.order| ==> ExpiryAt(m, i) <= ExpiryAt(m, j))
    && (forall i :: 0 <= i < |m.order| ==> ExpiryAt(m, i) <= latest)
  }

  ghost function ExpiryAt(m: Entries, i: nat): int
    requires m.Valid() && i < |m.order|
  {
    assert m.order[i] in Elements(m.order);
    m.vals[m.order[i]].expiresAt
  }

  /** Deleting keeps the order of what is left. */
  lemma {:induction false} WithoutPlaces(s: seq<Key>, x: Key, i: nat, j: nat) returns (p: nat, q: nat)
    requires i <= j < |Without(s, x)|
    ensures p <= q < |s| && s[p] == Without(s, x)[i] && s[q] == Without(s, x)[j]
    ensures i < j ==> p < q
  {
    if s[0] == x {
      p, q := WithoutPlaces(s[1..], x, i, j);
      p, q := p + 1, q + 1;
    } else if i > 0 {
      p, q := WithoutPlaces(s[1..], x, i - 1, j - 1);
      p, q := p + 1, q + 1;
    } else if j > 0 {
      var q0, q1 := WithoutPlaces(s[1..], x, j - 1, j - 1);
      p, q := 0, q1 + 1;
    } else {
      p, q := 0, 0;
    }
  }

  lemma DeleteKeepsByExpiry(m: Entries, key: Key, latest: int)
    requires ByExpiry(m, latest)
    ensures ByExpiry(m.Delete(key), latest)
  {
    var d := m.Delete(key);
    forall i, j | 0 <= i <= j < |d.order|
      ensures ExpiryAt(d, i) <= ExpiryAt(d, j) <= latest
    {
      var p, q := WithoutPlaces(m.order, key, i, j);
      assert d.order[i] in Elements(d.order) && d.order[j] in Elements(d.order);
      assert ExpiryAt(m, p) <= ExpiryAt(m, q) || p == q;
    }
  }

  lemma {:induction false} PurgeKeepsByExpiry(m: Entries, keys: seq<Key>, now: int, latest: int)
    requires ByExpiry(m, latest)
    ensures ByExpiry(Purged(m, keys, now), latest)
    decreases |keys|
  {
    if keys != [] {
      DeleteKeepsByExpiry(m, keys[0], latest);
      PurgeKeepsByExpiry(if Expired(m, keys[0], now) then m.Delete(keys[0]) else m, keys[1..], now, latest);
    }
  }

  lemma {:induction false} TrimKeepsByExpiry(m: Entries, max: nat, latest: int)
    requires ByExpiry(m, latest)
    ensures ByExpiry(Trimmed(m, max), latest)
    decreases |m.order|
  {
    if |m.order| > max {
      assert m.order[0] in Elements(m.order);
      DeleteKeepsByExpiry(m, m.order[0], latest);
      TrimKeepsByExpiry(m.Delete(m.order[0]), max, latest);
    }
  }

  lemma WriteKeepsByExpiry(m: Entries, key: Key, data: Data, now: int, ttl: nat, evictAt: int, max: nat, latest: int)
    requires ByExpiry(m, latest) && latest <= now + ttl
    ensures ByExpiry(Written(m, key, data, now, ttl, evictAt, max), now + ttl)
  {
    var rest, put := m.Delete(key), m.MoveToEnd(key, Entry(data, now + ttl));
    DeleteKeepsByExpiry(m, key, latest);
    assert put.order == rest.order + [key];
    forall i, j | 0 <= i <= j < |put.order|
      ensures ExpiryAt(put, i) <= ExpiryAt(put, j) <= now + ttl
    {
      if i < |rest.order| {
        assert rest.order[i] in Elements(rest.order);
        assert ExpiryAt(rest, i) <= latest;
      }
      if j < |rest.order| {
        assert rest.order[j] in Elements(rest.order);
        assert i == j || ExpiryAt(rest, i) <= ExpiryAt(rest, j);
      }
    }
    PurgeKeepsByExpiry(put, put.order, evictAt, now + ttl);
    TrimKeepsByExpiry(Purged(put, put.order, evictAt), max, now + ttl);
  }

  // ---------------------------------------------------------------- eviction

  /** What a purge leaves. */
  function Survivors(m: Entries, keys: seq<Key>, now: int): map<Key, Entry> {
    map k | k in m.vals && !(k in keys && Expired(m, k, now)) :: m.vals[k]
  }

  lemma PurgeOne(m: Entries, keys: seq<Key>, now: int)
    requires m.Valid() && Distinct(keys) && keys != []
    ensures var next := if Expired(m, keys[0], now) then m.Delete(keys[0]) else m;
            && Survivors(next, keys[1..], now) == Survivors(m, keys, now)
            && forall k :: k in keys[1..] ==> (Expired(next, k, now) <==> Expired(m, k, now))
  {
    assert keys == [keys[0]] + keys[1..];
    assert keys[0] !in keys[1..];
  }

  /** A purge deletes exactly the expired keys it passes. */
  lemma {:induction false} PurgeMeaning(m: Entries, keys: seq<Key>, now: int)
    requires m.Valid() && Distinct(keys)
    ensures Purged(m, keys, now).vals == Survivors(m, keys, now)
    ensures |Purged(m, keys, now).order| <= |m.order|
    ensures (exists k :: k in keys && Expired(m, k, now)) ==> |Purged(m, keys, now).order| < |m.order|
    ensures (forall k :: k in keys ==> !Expired(m, k, now)) ==> Purged(m, keys, now) == m
    decreases |keys|
  {
    if keys != [] {
      var next := if Expired(m, keys[0], now) then m.Delete(keys[0]) else m;
      PurgeOne(m, keys, now);
      assert keys == [keys[0]] + keys[1..];
      PurgeMeaning(next, keys[1..], now);
    }
  }

  /** A write evicts an entry that has not expired only when the cache is over its size with nothing expired in it, and
      then exactly one, the one that expires first. */
  lemma EvictsUnexpiredLast(m: Entries, key: Key, data: Data, now: int, ttl: nat, evictAt: int, max: nat, latest: int,
                            victim: Key)
    requires ByExpiry(m, latest) && latest <= now + ttl && |m.order| <= max
    requires var put := m.MoveToEnd(key, Entry(data, now + ttl));
             victim in put.vals && !Expired(put, victim, evictAt)
             && victim !in Written(m, key, data, now, ttl, evictAt, max).vals
    ensures var put := m.MoveToEnd(key, Entry(data, now + ttl));
            && |put.order| == max + 1
            && (forall k :: k in put.vals ==>
                  !Expired(put, k, evictAt) && put.vals[victim].expiresAt <= put.vals[k].expiresAt)
            && Written(m, key, data, now, ttl, evictAt, max).vals == put.vals - {victim}
  {
    var put := m.MoveToEnd(key, Entry(data, now + ttl));
    var purged := Purged(put, put.order, evictAt);
    WithoutDistinct(m.order, key);
    PurgeMeaning(put, put.order, evictAt);
    WriteKeepsByExpiry(m, key, data, now, ttl, evictAt, |m.order| + 1, latest);
    assert |purged.order| > max;
    assert purged == put;
    assert put.order[0] in Elements(put.order);
    var once := put.Delete(put.order[0]);
    assert Trimmed(put, max) == Trimmed(once, max) == once;
    assert victim == put.order[0];
    assert Written(m, key, data, now, ttl, evictAt, |m.order| + 1) == put;
    forall k | k in put.vals
      ensures !Expired(put, k, evictAt) && put.vals[victim].expiresAt <= put.vals[k].expiresAt
    {
      assert k in Elements(put.order);
      var i :| 0 <= i < |put.order| && put.order[i] == k;
      assert ExpiryAt(put, 0) <= ExpiryAt(put, i) || i == 0;
    }
  }

  // ---------------------------------------------------------------- every run

  datatype Event =
    | Put(key: Key, data: Data, now: int, evictAt: int)
    | Look(key: Key, now: int)
    | Remove(key: Key)
    | Clear

  function Done(m: Entries, e: Event, ttl: nat, max: nat): (r: Entries)
    requires m.Valid()
    ensures r.Valid()
  {
    match e
    case Put(key, data, now, evictAt) => Written(m, key, data, now, ttl, evictAt, max)
    case Look(key, now) => Read(m, key, now).1
    case Remove(key) => m.Delete(key)
    case Clear => Empty()
  }

  function Reached(events: seq<Event>, ttl: nat, max: nat): (m: Entries)
    ensures m.Valid()
  {
    if events == [] then Empty() else Done(Reached(events[..|events| - 1], ttl, max), events[|events| - 1], ttl, max)
  }

  /** The last write of a key that no later deletion or clear has undone. */
  function Latest(events: seq<Event>, key: Key): (e: Option<Event>)
    ensures e.Some? ==> e.value.Put? && e.value.key == key && e.value in events
  {
    if events == [] then None
    else
      var e := events[|events| - 1];
      if e.Put? && e.key == key then Some(e)
      else if (e.Remove? && e.key == key) || e.Clear? then None
      else Latest(events[..|events| - 1], key)
  }

  /** The clock never runs backwards: the writes come in the order of their times. */
  ghost predicate Monotone(events: seq<Event>) {
    forall i, j :: 0 <= i < j < |events| && events[i].Put? && events[j].Put? ==> events[i].now <= events[j].now
  }

  /** A reached cache only holds what was last written, with the expiry of that write. */
  lemma {:induction false} HoldsLatest(events: seq<Event>, ttl: nat, max: nat, key: Key)
    ensures key in Reached(events, ttl, max).vals ==>
              && Latest(events, key).Some?
              && Reached(events, ttl, max).vals[key]
                 == Entry(Latest(events, key).value.data, Latest(events, key).value.now + ttl)
  {
    if events != [] {
      var front, e := events[..|events| - 1], events[|events| - 1];
      HoldsLatest(front, ttl, max, key);
      var m := Reached(front, ttl, max);
      if e.Put? {
        WriteAddsOne(m, e.key, e.data, e.now, ttl, e.evictAt, max);
      }
    }
  }

  lemma WriteAddsOne(m: Entries, key: Key, data: Data, now: int, ttl: nat, evictAt: int, max: nat)
    requires m.Valid()
    ensures var r := Written(m, key, data, now, ttl, evictAt, max);
            forall k :: k in r.vals ==>
              if k == key then r.vals[k] == Entry(data, now + ttl) else k in m.vals && r.vals[k] == m.vals[k]
  {
    var put := m.MoveToEnd(key, Entry(data, now + ttl));
    PurgeMeaning(put, put.order, evictAt);
    TrimIsPart(Purged(put, put.order, evictAt), max);
  }

  lemma {:induction false} TrimIsPart(m: Entries, max: nat)
    requires m.Valid()
    ensures forall k :: k in Trimmed(m, max).vals ==> k in m.vals && Trimmed(m, max).vals[k] == m.vals[k]
    decreases |m.order|
  {
    if |m.order| > max {
      assert m.order[0] in Elements(m.order);
      TrimIsPart(m.Delete(m.order[0]), max);
    }
  }

  lemma {:induction false} ReachedByExpiry(events: seq<Event>, ttl: nat, max: nat, latest: int)
    requires Monotone(events)
    requires forall e :: e in events && e.Put? ==> e.now + ttl <= latest
    ensures ByExpiry(Reached(events, ttl, max), latest)
    ensures |Reached(events, ttl, max).order| <= max
  {
    if events != [] {
      var front, e := events[..|events| - 1], events[|events| - 1];
      assert forall i :: 0 <= i < |front| ==> front[i] == events[i];
      var m := Reached(front, ttl, max);
      match e
      case Put(key, data, now, evictAt) =>
        forall f | f in front && f.Put?
          ensures f.now + ttl <= now + ttl
        {
          var i :| 0 <= i < |front| && front[i] == f;
          assert events[i].now <= events[|events| - 1].now;
        }
        ReachedByExpiry(front, ttl, max, now + ttl);
        WriteKeepsByExpiry(m, key, data, now, ttl, evictAt, max, now + ttl);
      case Look(key, now) =>
        ReachedByExpiry(front, ttl, max, latest);
        DeleteKeepsByExpiry(m, key, latest);
      case Remove(key) =>
        ReachedByExpiry(front, ttl, max, latest);
        DeleteKeepsByExpiry(m, key, latest);
      case Clear =>
    }
  }

  /** Over every run: a lookup answers only with the data of the latest write that was not deleted, while it is not
      older than the ttl. */
  lemma LookupIsFresh(events: seq<Event>, ttl: nat, max: nat, key: Key, now: int)
    ensures var answer := Read(Reached(events, ttl, max), key, now).0;
            answer.Some? ==>
              && Latest(events, key).Some?
              && answer.value == Latest(events, key).value.data
              && now - Latest(events, key).value.now <= ttl
  {
    HoldsLatest(events, ttl, max, key);
  }

  // ---------------------------------------------------------------- when a lookup hits

  /** The keys from `key` on, in the order of the cache. */
  function From(order: seq<Key>, key: Key): set<Key> {
    if order == [] then {} else if order[0] == key then Elements(order) else From(order[1..], key)
  }

  /** The keys written since the last write of `key`, itself included. */
  function WrittenSince(events: seq<Event>, key: Key): set<Key> {
    if events == [] then {}
    else
      var e := events[|events| - 1];
      if !e.Put? then WrittenSince(events[..|events| - 1], key)
      else if e.key == key then {key}
      else WrittenSince(events[..|events| - 1], key) + {e.key}
  }

  /** No reading of the clock in the run was later. */
  ghost predicate NotLater(events: seq<Event>, now: int) {
    forall e :: e in events ==> (e.Look? ==> e.now <= now) && (e.Put? ==> e.evictAt <= now)
  }

  lemma {:induction false} FromWithout(order: seq<Key>, key: Key, x: Key)
    requires x != key
    ensures From(Without(order, x), key) <= From(order, key)
  {
    if order != [] {
      FromWithout(order[1..], key, x);
      assert order == [order[0]] + order[1..];
      if order[0] != x {
        assert Without(order, x)[1..] == Without(order[1..], x);
      }
    }
  }

  lemma {:induction false} FromAppend(order: seq<Key>, key: Key, x: Key)
    ensures From(order + [x], key) == if key in order then From(order, key) + {x} else if x == key then {x} else {}
  {
    if order == [] {
      assert order + [x] == [x];
      assert [x][1..] == [];
    } else {
      assert (order + [x])[1..] == order[1..] + [x];
      assert order == [order[0]] + order[1..];
      FromAppend(order[1..], key, x);
      assert Elements(order + [x]) == Elements(order) + {x};
    }
  }

  /** `key` is cached, and behind it are only keys of `since`. */
  ghost predicate Safe(m: Entries, key: Key, since: set<Key>) {
    m.Valid() && key in m.vals && From(m.order, key) <= since
  }

  lemma DeleteKeepsSafe(m: Entries, key: Key, since: set<Key>, x: Key)
    requires Safe(m, key, since) && x != key
    ensures Safe(m.Delete(x), key, since)
  {
    FromWithout(m.order, key, x);
  }

  lemma {:induction false} PurgeKeepsSafe(m: Entries, keys: seq<Key>, now: int, key: Key, since: set<Key>)
    requires Safe(m, key, since) && !Expired(m, key, now)
    ensures Safe(Purged(m, keys, now), key, since)
    decreases |keys|
  {
    if keys != [] {
      if Expired(m, keys[0], now) {
        DeleteKeepsSafe(m, key, since, keys[0]);
      }
      PurgeKeepsSafe(if Expired(m, keys[0], now) then m.Delete(keys[0]) else m, keys[1..], now, key, since);
    }
  }

  lemma {:induction false} TrimKeepsSafe(m: Entries, max: nat, key: Key, since: set<Key>)
    requires Safe(m, key, since) && |since| <= max
    ensures Safe(Trimmed(m, max), key, since)
    decreases |m.order|
  {
    if |m.order| > max {
      assert m.order[0] in Elements(m.order);
      if m.order[0] == key {
        DistinctCount(m.order);
        SmallerSet(Elements(m.order), since);
        assert false;
      }
      DeleteKeepsSafe(m, key, since, m.order[0]);
      TrimKeepsSafe(m.Delete(m.order[0]), max, key, since);
    }
  }

  lemma SmallerSet(a: set<Key>, b: set<Key>)
    requires a <= b
    ensures |a| <= |b|
  {
    assert b == a + (b - a);
  }

  lemma PutKeepsSafe(m: Entries, written: Key, entry: Entry, key: Key, since: set<Key>)
    requires m.Valid() && written in since && (written == key || Safe(m, key, since))
    ensures Safe(m.MoveToEnd(written, entry), key, since)
  {
    var rest := Without(m.order, written);
    FromAppend(rest, key, written);
    if written == key {
      assert key !in Elements(rest);
    } else {
      FromWithout(m.order, key, written);
      assert key in Elements(rest);
      assert From(rest, key) <= since;
    }
  }

  lemma WriteKeepsSafe(m: Entries, e: Event, ttl: nat, max: nat, key: Key, since: set<Key>)
    requires m.Valid() && e.Put? && |since| <= max && e.key in since
    requires e.key == key || Safe(m, key, since)
    requires !Expired(m.MoveToEnd(e.key, Entry(e.data, e.now + ttl)), key, e.evictAt)
    ensures Safe(Written(m, e.key, e.data, e.now, ttl, e.evictAt, max), key, since)
  {
    var put := m.MoveToEnd(e.key, Entry(e.data, e.now + ttl));
    PutKeepsSafe(m, e.key, Entry(e.data, e.now + ttl), key, since);
    PurgeKeepsSafe(put, put.order, e.evictAt, key, since);
    TrimKeepsSafe(Purged(put, put.order, e.evictAt), max, key, since);
  }

  /** A write stays in the cache until it expires, is deleted, or `max` other keys have been written after it. */
  lemma {:induction false} WritesStay(events: seq<Event>, ttl: nat, max: nat, key: Key, now: int)
    requires Latest(events, key).Some? && Latest(events, key).value.now + ttl >= now && NotLater(events, now)
    requires |WrittenSince(events, key)| <= max
    ensures Safe(Reached(events, ttl, max), key, WrittenSince(events, key))
  {
    var front, e := events[..|events| - 1], events[|events| - 1];
    assert e in events && forall f :: f in front ==> f in events;
    var since := WrittenSince(events, key);
    if !(e.Put? && e.key == key) {
      SmallerSet(WrittenSince(front, key), since);
      WritesStay(front, ttl, max, key, now);
      HoldsLatest(front, ttl, max, key);
    }
    var m := Reached(front, ttl, max);
    match e
    case Put(_, _, _, _) => WriteKeepsSafe(m, e, ttl, max, key, since);
    case Look(k, _) =>
      if k != key {
        DeleteKeepsSafe(m, key, since, k);
      }
    case Remove(k) => DeleteKeepsSafe(m, key, since, k);
    case Clear =>
  }

  /** So while fewer than `max` other keys have been written since, a lookup hits if and only if the latest write is not
      older than the ttl. */
  lemma LookupHitsIff(events: seq<Event>, ttl: nat, max: nat, key: Key, now: int)
    requires Latest(events, key).Some? && NotLater(events, now) && |WrittenSince(events, key)| <= max
    ensures Read(Reached(events, ttl, max), key, now).0
         == if now - Latest(events, key).value.now <= ttl then Some(Latest(events, key).value.data) else None
  {
    if now - Latest(events, key).value.now <= ttl {
      WritesStay(events, ttl, max, key, now);
    }
    HoldsLatest(events, ttl, max, key);
  }
}
