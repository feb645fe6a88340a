/** `EncryptedKeyStorage`: seeds are sealed before they reach the inner store and opened when they are read.
    Encryption is a pair of functions that undo each other; random nonces are an arbitrary sequence. */
module EncryptedStorage {
  import opened ByteTypes
  import opened KeyStorage
  import opened Sequences
  import opened Wrappers

  /** `crypto_secretbox_easy` and `crypto_secretbox_open_easy` (message, nonce, key). */
  datatype Crypto = Crypto(seal: (Bytes, Bytes, Bytes) -> Bytes, open: (Bytes, Bytes, Bytes) -> Option<Bytes>)

  /** Opening undoes sealing, and a box is 16 bytes longer than its message. */
  ghost predicate Lawful(c: Crypto) {
    && (forall m, n, k :: c.open(c.seal(m, n, k), n, k) == Some(m))
    && (forall b, n, k :: c.open(b, n, k).Some? ==> |b| == |c.open(b, n, k).value| + MAC_LEN)
  }

  const ENCRYPTED_MAGIC: Bytes := [0x45, 0x4e, 0x43, 0x01]
  const MAGIC_LEN := 4
  const NONCE_LEN := 24
  const MAC_LEN := 16

  predicate IsPlaintext(seed: Bytes) {
    |seed| < MAGIC_LEN || seed[..MAGIC_LEN] != ENCRYPTED_MAGIC
  }

  /** The stored form: magic, nonce, box. */
  function Sealed(c: Crypto, seed: Bytes, nonce: Bytes, key: Bytes): Bytes {
    ENCRYPTED_MAGIC + nonce + c.seal(seed, nonce, key)
  }

  /** What a stored seed stands for under a key; None if it does not open. */
  function Opened(c: Crypto, stored: Bytes, key: Bytes): Option<Bytes> {
    if IsPlaintext(stored) then Some(stored)
    else c.open(Slice(stored, MAGIC_LEN + NONCE_LEN, |stored|), Slice(stored, MAGIC_LEN, MAGIC_LEN + NONCE_LEN), key)
  }

  lemma SealedOpens(c: Crypto, seed: Bytes, nonce: Bytes, key: Bytes)
    requires Lawful(c) && |nonce| == NONCE_LEN
    ensures !IsPlaintext(Sealed(c, seed, nonce, key))
    ensures Opened(c, Sealed(c, seed, nonce, key), key) == Some(seed)
  {
    var stored := Sealed(c, seed, nonce, key);
    assert stored[..MAGIC_LEN] == ENCRYPTED_MAGIC;
    assert Slice(stored, MAGIC_LEN, MAGIC_LEN + NONCE_LEN) == nonce;
    assert Slice(stored, MAGIC_LEN + NONCE_LEN, |stored|) == c.seal(seed, nonce, key);
  }

  /** A stored seed that is not plaintext never stands for itself: opening it makes it shorter. So a plaintext seed that
      happens to start with the magic is lost, whatever the key. */
  lemma StandsForItselfIffPlaintext(c: Crypto, stored: Bytes, key: Bytes)
    requires Lawful(c)
    ensures Opened(c, stored, key) == Some(stored) <==> IsPlaintext(stored)
  {
    if !IsPlaintext(stored) {
      var box, nonce := Slice(stored, MAGIC_LEN + NONCE_LEN, |stored|), Slice(stored, MAGIC_LEN, MAGIC_LEN + NONCE_LEN);
      assert c.open(box, nonce, key).Some? ==> |box| == |c.open(box, nonce, key).value| + MAC_LEN;
    }
  }

  // ---------------------------------------------------------------- migration and re-encryption, by value

  ghost predicate Migrated(c: Crypto, key: Bytes, before: KeyEntry, after: KeyEntry) {
    if IsPlaintext(before.seed)
    then after.info == before.info && !IsPlaintext(after.seed) && Opened(c, after.seed, key) == Some(before.seed)
    else after == before
  }

  ghost predicate StoreMigrated(c: Crypto, key: Bytes, before: View, after: View) {
    after.Keys == before.Keys && forall t :: t in after ==> Migrated(c, key, before[t], after[t])
  }

  function PlaintextTags(v: View): set<Tag> {
    set t | t in v && IsPlaintext(v[t].seed)
  }

  /** Migration keeps what every seed stands for, and leaves no plaintext: run again, it finds nothing to do. */
  lemma MigrationKeepsMeaning(c: Crypto, key: Bytes, before: View, after: View)
    requires StoreMigrated(c, key, before, after)
    ensures forall t :: t in before ==> Opened(c, after[t].seed, key) == Opened(c, before[t].seed, key)
    ensures PlaintextTags(after) == {}
  {
    forall t | t in before
      ensures Opened(c, after[t].seed, key) == Opened(c, before[t].seed, key) && !IsPlaintext(after[t].seed)
    {
      assert Migrated(c, key, before[t], after[t]);
    }
  }

  ghost predicate ReEncrypted(c: Crypto, oldKey: Bytes, newKey: Bytes, before: KeyEntry, after: KeyEntry) {
    && after.info == before.info && !IsPlaintext(after.seed)
    && Opened(c, before.seed, oldKey).Some? && Opened(c, after.seed, newKey) == Opened(c, before.seed, oldKey)
  }

  /** Every seed of the store is sealed under the new key and stands for what it stood for under the old one. */
  ghost predicate StoreReEncrypted(c: Crypto, oldKey: Bytes, newKey: Bytes, before: View, after: View) {
    after.Keys == before.Keys && forall t :: t in after ==> ReEncrypted(c, oldKey, newKey, before[t], after[t])
  }

  /** Every seed of the store opens under the key. */
  ghost predicate OpensUnder(c: Crypto, v: View, key: Bytes) {
    forall t :: t in v ==> Opened(c, v[t].seed, key).Some?
  }

  // ---------------------------------------------------------------- the class

  datatype Result<T> = Done(value: T) | Locked | DecryptFailed

  class EncryptedKeyStorage {
    const inner: MemoryKeyStorage
    const crypto: Crypto
    const random: nat -> Bytes
    var draws: nat
    var masterKey: array?<Byte>
    var encryptionEnabled: bool

    /** The key is a private copy: no entry of the inner store is made of the same array. */
    ghost predicate Valid()
      reads this, inner
    {
      && inner.Valid() && Lawful(crypto) && (forall n :: |random(n)| == NONCE_LEN)
      && (masterKey != null ==> encryptionEnabled && masterKey !in inner.seeds)
    }

    constructor (inner: MemoryKeyStorage, crypto: Crypto, random: nat -> Bytes)
      requires inner.Valid() && Lawful(crypto) && forall n :: |random(n)| == NONCE_LEN
      ensures Valid() && this.inner == inner && this.crypto == crypto && masterKey == null && !encryptionEnabled
    {
      this.inner, this.crypto, this.random := inner, crypto, random;
      draws, masterKey, encryptionEnabled := 0, null, false;
    }

    method SetMasterKey(key: array<Byte>)
      requires Valid()
      modifies this`masterKey, this`encryptionEnabled
      ensures Valid() && encryptionEnabled && masterKey != null && fresh(masterKey) && masterKey[..] == key[..]
      ensures inner.Contents() == old(inner.Contents())
    {
      masterKey := Copy(key[..]);
      encryptionEnabled := true;
    }

    method ClearMasterKey()
      requires Valid()
      modifies this`masterKey, masterKey
      ensures Valid() && masterKey == null && inner.Contents() == old(inner.Contents())
      ensures old(masterKey) != null ==> forall i :: 0 <= i < old(masterKey).Length ==> old(masterKey)[i] == 0
    {
      if masterKey != null {
        Wipe(masterKey);
        masterKey := null;
      }
    }

    method Seal(seed: Bytes, key: Bytes) returns (sealed: array<Byte>)
      requires Valid()
      modifies this`draws
      ensures Valid() && fresh(sealed) && draws == old(draws) + 1
      ensures sealed[..] == Sealed(crypto, seed, random(old(draws)), key)
      ensures !IsPlaintext(sealed[..]) && Opened(crypto, sealed[..], key) == Some(seed)
    {
      var nonce := random(draws);
      draws := draws + 1;
      sealed := Copy(ENCRYPTED_MAGIC + nonce + crypto.seal(seed, nonce, key));
      SealedOpens(crypto, seed, nonce, key);
    }

    /** `putEntry`: refused while locked. */
    method PutEntry(entry: StoredKeyEntry) returns (r: Result<()>)
      requires Valid()
      modifies this`draws, inner
      ensures Valid() && old(inner.seeds) <= inner.seeds && fresh(inner.seeds - old(inner.seeds))
      ensures encryptionEnabled && masterKey == null ==> r == Locked && inner.Contents() == old(inner.Contents())
      ensures !encryptionEnabled ==>
                r == Done(()) &&
                inner.Contents() == old(inner.Contents())[entry.info.tag := KeyEntry(entry.info, old(entry.seed[..]))]
      ensures masterKey != null ==>
                r == Done(()) && entry.info.tag in inner.Contents() &&
                var stored := inner.Contents()[entry.info.tag];
                && inner.Contents() == old(inner.Contents())[entry.info.tag := stored]
                && stored.info == entry.info && !IsPlaintext(stored.seed)
                && Opened(crypto, stored.seed, masterKey[..]) == Some(old(entry.seed[..]))
                && stored.seed == Sealed(crypto, old(entry.seed[..]), random(old(draws)), masterKey[..])
      ensures draws == old(draws) + if masterKey == null then 0 else 1
    {
      if !encryptionEnabled {
        inner.PutEntry(entry);
        return Done(());
      }
      if masterKey == null {
        return Locked;
      }
      var sealed := Seal(entry.seed[..], masterKey[..]);
      inner.PutEntry(StoredKeyEntry(entry.info, sealed));
      return Done(());
    }

    /** `getEntry`: the array handed out is nobody else's. */
    method GetEntry(tag: Tag) returns (r: Result<Option<StoredKeyEntry>>)
      requires Valid()
      ensures encryptionEnabled && masterKey == null ==> r == Locked
      ensures !(encryptionEnabled && masterKey == null) ==>
                if tag !in inner.Contents() then r == Done(None)
                else
                  var stored := inner.Contents()[tag];
                  var seed := if masterKey == null then Some(stored.seed)
                              else Opened(crypto, stored.seed, masterKey[..]);
                  if seed.None? then r == DecryptFailed
                  else r.Done? && r.value.Some? && fresh(r.value.value.seed)
                       && r.value.value.info == stored.info && r.value.value.seed[..] == seed.value
    {
      if !encryptionEnabled {
        var plain := inner.GetEntry(tag);
        return Done(plain);
      }
      if masterKey == null {
        return Locked;
      }
      var stored := inner.GetEntry(tag);
      if stored.None? {
        return Done(None);
      }
      var seed := DecryptSeed(stored.value.seed);
      if seed.None? {
        return DecryptFailed;
      }
      return Done(Some(StoredKeyEntry(stored.value.info, seed.value)));
    }

    /** `decryptSeed`: plaintext is returned as it is, not copied. */
    method DecryptSeed(storedSeed: array<Byte>) returns (seed: Option<array<Byte>>)
      requires masterKey != null
      ensures Opened(crypto, storedSeed[..], masterKey[..])
           == if seed.Some? then Some(seed.value[..]) else None
      ensures seed.Some? ==> fresh(seed.value) || seed.value == storedSeed
    {
      if IsPlaintext(storedSeed[..]) {
        return Some(storedSeed);
      }
      var stored := storedSeed[..];
      var plain := crypto.open(Slice(stored, MAGIC_LEN + NONCE_LEN, |stored|),
                               Slice(stored, MAGIC_LEN, MAGIC_LEN + NONCE_LEN), masterKey[..]);
      if plain.None? {
        return None;
      }
      var unsealed := Copy(plain.value);
      return Some(unsealed);
    }

    /** `migrateToEncrypted`: every plaintext seed is sealed in place; the count is theirs. */
    method MigrateToEncrypted() returns (r: Result<nat>)
      requires Valid()
      modifies this`draws, inner
      ensures Valid() && old(inner.seeds) <= inner.seeds && fresh(inner.seeds - old(inner.seeds))
      ensures masterKey == null ==> r == Locked && inner.Contents() == old(inner.Contents())
      ensures masterKey != null ==>
                && r == Done(|PlaintextTags(old(inner.Contents()))|)
                && StoreMigrated(crypto, masterKey[..], old(inner.Contents()), inner.Contents())
    {
      if masterKey == null {
        return Locked;
      }
      var migrated := MigrateHeld();
      return Done(migrated);
    }

    method MigrateHeld() returns (migrated: nat)
      requires Valid() && masterKey != null
      modifies this`draws, inner
      ensures Valid() && old(inner.seeds) <= inner.seeds && fresh(inner.seeds - old(inner.seeds))
      ensures migrated == |PlaintextTags(old(inner.Contents()))|
      ensures StoreMigrated(crypto, masterKey[..], old(inner.Contents()), inner.Contents())
    {
      var infos := inner.ListEntries();
      migrated := MigrateEach(infos);
    }

    method MigrateEach(infos: seq<EntryInfo>) returns (migrated: nat)
      requires Valid() && masterKey != null
      requires Distinct(Tags(infos)) && Elements(Tags(infos)) == inner.Contents().Keys
      modifies this`draws, inner
      ensures Valid() && old(inner.seeds) <= inner.seeds && fresh(inner.seeds - old(inner.seeds))
      ensures migrated == |PlaintextTags(old(inner.Contents()))|
      ensures StoreMigrated(crypto, masterKey[..], old(inner.Contents()), inner.Contents())
    {
      ghost var before, key := inner.Contents(), masterKey[..];
      MigrationStart(crypto, key, before, Tags(infos));
      migrated := MigrateLoop(infos, before);
      MigrationEnd(crypto, key, before, inner.Contents(), Tags(infos));
    }

    /** The loop of `migrateToEncrypted`. */
    method MigrateLoop(infos: seq<EntryInfo>, ghost before: View) returns (migrated: nat)
      requires Valid() && masterKey != null
      requires MigratedUpTo(crypto, masterKey[..], before, inner.Contents(), Tags(infos), 0)
      modifies this`draws, inner
      ensures Valid() && old(inner.seeds) <= inner.seeds && fresh(inner.seeds - old(inner.seeds))
      ensures MigratedUpTo(crypto, masterKey[..], before, inner.Contents(), Tags(infos), |infos|)
      ensures migrated == |Reached(before, Tags(infos), |infos|)|
    {
      ghost var key := masterKey[..];
      migrated := 0;
      assert Reached(before, Tags(infos), 0) == {};
      for i := 0 to |infos|
        invariant Valid() && masterKey[..] == key
        invariant old(inner.seeds) <= inner.seeds && fresh(inner.seeds - old(inner.seeds))
        invariant MigratedUpTo(crypto, key, before, inner.Contents(), Tags(infos), i)
        invariant migrated == |Reached(before, Tags(infos), i)|
      {
        var sealedOne := MigrateNext(infos, i, before);
        migrated := if sealedOne then migrated + 1 else migrated;
      }
    }

    /** The body of the loop of `migrateToEncrypted`, with what it does to the progress of the loop. */
    method MigrateNext(infos: seq<EntryInfo>, i: nat, ghost before: View) returns (sealedOne: bool)
      requires Valid() && masterKey != null && i < |infos|
      requires MigratedUpTo(crypto, masterKey[..], before, inner.Contents(), Tags(infos), i)
      modifies this`draws, inner
      ensures Valid() && old(inner.seeds) <= inner.seeds && fresh(inner.seeds - old(inner.seeds))
      ensures draws == old(draws) + if sealedOne then 1 else 0
      ensures MigratedUpTo(crypto, masterKey[..], before, inner.Contents(), Tags(infos), i + 1)
      ensures |Reached(before, Tags(infos), i + 1)| == |Reached(before, Tags(infos), i)| + if sealedOne then 1 else 0
    {
      ghost var key, now := masterKey[..], inner.Contents();
      MigrationNext(crypto, key, before, now, Tags(infos), i);
      sealedOne := MigrateEntry(infos[i].tag);
      MigrationStep(crypto, key, before, now, inner.Contents(), Tags(infos), i);
    }

    method MigrateEntry(tag: Tag) returns (sealedOne: bool)
      requires Valid() && masterKey != null && tag in inner.Contents()
      modifies this`draws, inner
      ensures Valid() && old(inner.seeds) <= inner.seeds && fresh(inner.seeds - old(inner.seeds))
      ensures tag in inner.Contents()
           && inner.Contents() == old(inner.Contents())[tag := inner.Contents()[tag]]
           && Migrated(crypto, masterKey[..], old(inner.Contents())[tag], inner.Contents()[tag])
      ensures sealedOne == IsPlaintext(old(inner.Contents())[tag].seed)
      ensures draws == old(draws) + if sealedOne then 1 else 0
      ensures sealedOne ==>
                inner.Contents()[tag].seed == Sealed(crypto, old(inner.Contents())[tag].seed, random(old(draws)),
                                                     masterKey[..])
    {
      var entry := inner.GetEntry(tag);
      sealedOne := IsPlaintext(entry.value.seed[..]);
      if sealedOne {
        var sealed := Seal(entry.value.seed[..], masterKey[..]);
        inner.PutEntry(StoredKeyEntry(entry.value.info, sealed));
      }
    }

    /** One step of the first loop of `reEncrypt`: open under the old key, seal under the new one, and wipe the seed in
        between. The store is only read. */
    method Reseal(tag: Tag, oldKey: Bytes, newKey: Bytes) returns (update: Option<StoredKeyEntry>)
      requires Valid() && tag in inner.Contents()
      modifies this`draws
      ensures Valid()
      ensures update.None? <==> Opened(crypto, inner.Contents()[tag].seed, oldKey).None?
      ensures draws == old(draws) + if update.Some? then 1 else 0
      ensures update.Some? ==>
                update.value.seed[..] == Sealed(crypto, Opened(crypto, inner.Contents()[tag].seed, oldKey).value,
                                                random(old(draws)), newKey)
      ensures update.Some? ==>
                && fresh(update.value.seed)
                && ReEncrypted(crypto, oldKey, newKey, inner.Contents()[tag],
                               KeyEntry(update.value.info, update.value.seed[..]))
    {
      var stored := inner.GetEntry(tag);
      var plainSeed := stored.value.seed;
      if !IsPlaintext(stored.value.seed[..]) {
        var bytes := stored.value.seed[..];
        var plain := crypto.open(Slice(bytes, MAGIC_LEN + NONCE_LEN, |bytes|),
                                 Slice(bytes, MAGIC_LEN, MAGIC_LEN + NONCE_LEN), oldKey);
        if plain.None? {
          return None;
        }
        plainSeed := Copy(plain.value);
      }
      var sealed := Seal(plainSeed[..], newKey);
      Wipe(plainSeed);
      update := Some(StoredKeyEntry(stored.value.info, sealed));
    }

    /** The first loop of `reEncrypt`; None when some seed does not open. Nothing is written. */
    method ResealEach(infos: seq<EntryInfo>, oldKey: Bytes, newKey: Bytes)
      returns (updates: Option<seq<StoredKeyEntry>>)
      requires Valid() && forall i :: 0 <= i < |infos| ==> infos[i].tag in inner.Contents()
      modifies this`draws
      ensures Valid()
      ensures updates.None? ==> !OpensUnder(crypto, inner.Contents(), oldKey)
      ensures updates.Some? ==> draws == old(draws) + |infos|
      ensures updates.Some? ==>
                && |updates.value| == |infos|
                && forall i :: 0 <= i < |infos| ==>
                     ReEncrypted(crypto, oldKey, newKey, inner.Contents()[infos[i].tag], Values(updates.value)[i])
    {
      var list: seq<StoredKeyEntry> := [];
      for i := 0 to |infos|
        invariant Valid() && |list| == i && draws == old(draws) + i
        invariant forall j :: 0 <= j < i ==>
                    ReEncrypted(crypto, oldKey, newKey, inner.Contents()[infos[j].tag], Values(list)[j])
      {
        var update := Reseal(infos[i].tag, oldKey, newKey);
        if update.None? {
          assert Opened(crypto, inner.Contents()[infos[i].tag].seed, oldKey).None?;
          return None;
        }
        list := list + [update.value];
      }
      return Some(list);
    }

    method ResealAll(oldKey: Bytes, newKey: Bytes) returns (updates: Option<seq<StoredKeyEntry>>)
      requires Valid()
      modifies this`draws
      ensures Valid()
      ensures updates.Some? <==> OpensUnder(crypto, old(inner.Contents()), oldKey)
      ensures updates.Some? ==>
                StoreReEncrypted(crypto, oldKey, newKey, old(inner.Contents()),
                                 PutAll(old(inner.Contents()), Values(updates.value)))
    {
      ghost var before := inner.Contents();
      var infos := inner.ListEntries();
      EveryInfo(before, infos);
      updates := ResealEach(infos, oldKey, newKey);
      assert inner.Contents() == before;
      assert forall t :: t in before ==> before[t].info.tag == t;
      if updates.Some? {
        Resealed(crypto, oldKey, newKey, before, infos, Values(updates.value));
      }
    }

    /** `reEncrypt`: all seeds are opened before any is written, so a seed that does not open leaves the store as it
        was. */
    method ReEncrypt(oldKey: array<Byte>, newKey: array<Byte>) returns (r: Result<()>)
      requires Valid()
      modifies this`draws, this`encryptionEnabled, inner
      ensures Valid() && encryptionEnabled
      ensures old(inner.seeds) <= inner.seeds && fresh(inner.seeds - old(inner.seeds))
      ensures r == if OpensUnder(crypto, old(inner.Contents()), oldKey[..]) then Done(()) else DecryptFailed
      ensures r == DecryptFailed ==> inner.Contents() == old(inner.Contents())
      ensures r == Done(()) ==>
                StoreReEncrypted(crypto, oldKey[..], newKey[..], old(inner.Contents()), inner.Contents())
    {
      encryptionEnabled := true;
      r := ReEncryptSeeds(oldKey[..], newKey[..]);
    }

    method ReEncryptSeeds(oldKey: Bytes, newKey: Bytes) returns (r: Result<()>)
      requires Valid()
      modifies this`draws, inner
      ensures Valid() && old(inner.seeds) <= inner.seeds && fresh(inner.seeds - old(inner.seeds))
      ensures r == if OpensUnder(crypto, old(inner.Contents()), oldKey) then Done(()) else DecryptFailed
      ensures r == DecryptFailed ==> inner.Contents() == old(inner.Contents())
      ensures r == Done(()) ==> StoreReEncrypted(crypto, oldKey, newKey, old(inner.Contents()), inner.Contents())
    {
      ghost var before := inner.Contents();
      var updates := ResealAll(oldKey, newKey);
      assert inner.Contents() == before;
      if updates.None? {
        return DecryptFailed;
      }
      WriteAll(updates.value);
      return Done(());
    }

    /** The second loop of `reEncrypt`. */
    method WriteAll(updates: seq<StoredKeyEntry>)
      requires Valid()
      modifies inner
      ensures Valid()
      ensures old(inner.seeds) <= inner.seeds && fresh(inner.seeds - old(inner.seeds))
      ensures inner.Contents() == PutAll(old(inner.Contents()), old(Values(updates)))
    {
      ghost var before, values := inner.Contents(), Values(updates);
      for i := 0 to |updates|
        invariant Valid()
        invariant old(inner.seeds) <= inner.seeds && fresh(inner.seeds - old(inner.seeds))
        invariant inner.Contents() == PutAll(before, values[..i])
      {
        assert values[..i + 1][..i] == values[..i];
        assert values[i] == KeyEntry(updates[i].info, updates[i].seed[..]);
        inner.PutEntry(updates[i]);
      }
      assert values[..|updates|] == values;
    }
  }

  ghost function Values(es: seq<StoredKeyEntry>): (v: seq<KeyEntry>)
    reads set e | e in es :: e.seed
    ensures |v| == |es|
  {
    seq(|es|, i requires 0 <= i < |es| reads set e | e in es :: e.seed => KeyEntry(es[i].info, es[i].seed[..]))
  }

  ghost function PutAll(v: View, es: seq<KeyEntry>): View {
    if es == [] then v else PutAll(v, es[..|es| - 1])[es[|es| - 1].info.tag := es[|es| - 1]]
  }

  /** Writing a re-encrypted entry for every tag re-encrypts the store. */
  lemma PutAllReEncrypts(c: Crypto, oldKey: Bytes, newKey: Bytes, before: View, tags: seq<Tag>, es: seq<KeyEntry>)
    requires |es| == |tags| && Distinct(tags) && Elements(tags) == before.Keys
    requires forall t :: t in before ==> before[t].info.tag == t
    requires forall i :: 0 <= i < |tags| ==> tags[i] in before && ReEncrypted(c, oldKey, newKey, before[tags[i]], es[i])
    ensures StoreReEncrypted(c, oldKey, newKey, before, PutAll(before, es))
  {
    PutAllMeaning(before, tags, es);
    forall t | t in before
      ensures ReEncrypted(c, oldKey, newKey, before[t], PutAll(before, es)[t])
    {
      assert t in Elements(tags);
      var i :| 0 <= i < |tags| && tags[i] == t;
    }
  }

  lemma {:induction false} PutAllMeaning(before: View, tags: seq<Tag>, es: seq<KeyEntry>)
    requires |es| == |tags| && Distinct(tags)
    requires forall i :: 0 <= i < |tags| ==> tags[i] in before && es[i].info.tag == tags[i]
    ensures PutAll(before, es).Keys == before.Keys
    ensures forall i :: 0 <= i < |tags| ==> PutAll(before, es)[tags[i]] == es[i]
  {
    if tags != [] {
      var n := |tags| - 1;
      PutAllMeaning(before, tags[..n], es[..n]);
      forall i | 0 <= i < |tags|
        ensures PutAll(before, es)[tags[i]] == es[i]
      {
        assert i < n ==> tags[..n][i] == tags[i] != tags[n] && es[..n][i] == es[i];
      }
    }
  }

  lemma EveryInfo(v: View, infos: seq<EntryInfo>)
    requires Elements(Tags(infos)) == v.Keys
    ensures forall i :: 0 <= i < |infos| ==> infos[i].tag in v
  {
    forall i | 0 <= i < |infos|
      ensures infos[i].tag in v
    {
      assert Tags(infos)[i] in Elements(Tags(infos));
    }
  }

  lemma Resealed(c: Crypto, oldKey: Bytes, newKey: Bytes, before: View, infos: seq<EntryInfo>, es: seq<KeyEntry>)
    requires |es| == |infos| && Distinct(Tags(infos)) && Elements(Tags(infos)) == before.Keys
    requires forall t :: t in before ==> before[t].info.tag == t
    requires forall i :: 0 <= i < |infos| ==>
               infos[i].tag in before && ReEncrypted(c, oldKey, newKey, before[infos[i].tag], es[i])
    ensures StoreReEncrypted(c, oldKey, newKey, before, PutAll(before, es)) && OpensUnder(c, before, oldKey)
  {
    assert forall i :: 0 <= i < |infos| ==> Tags(infos)[i] == infos[i].tag;
    PutAllReEncrypts(c, oldKey, newKey, before, Tags(infos), es);
  }

  /** The first `n` of the tags are migrated, the other entries are as before. */
  ghost predicate MigratedUpTo(c: Crypto, key: Bytes, before: View, now: View, tags: seq<Tag>, n: nat) {
    && n <= |tags| && Distinct(tags) && Elements(tags) == before.Keys && now.Keys == before.Keys
    && (forall i :: 0 <= i < n ==> tags[i] in before && Migrated(c, key, before[tags[i]], now[tags[i]]))
    && (forall i :: n <= i < |tags| ==> tags[i] in before && now[tags[i]] == before[tags[i]])
  }

  lemma MigrationStart(c: Crypto, key: Bytes, before: View, tags: seq<Tag>)
    requires Distinct(tags) && Elements(tags) == before.Keys
    ensures MigratedUpTo(c, key, before, before, tags, 0) && Reached(before, tags, 0) == {}
  {
    assert forall i :: 0 <= i < |tags| ==> tags[i] in Elements(tags);
  }

  lemma MigrationNext(c: Crypto, key: Bytes, before: View, now: View, tags: seq<Tag>, n: nat)
    requires n < |tags| && MigratedUpTo(c, key, before, now, tags, n)
    ensures tags[n] in before && tags[n] in now && now[tags[n]] == before[tags[n]]
    ensures |Reached(before, tags, n + 1)|
         == |Reached(before, tags, n)| + if IsPlaintext(before[tags[n]].seed) then 1 else 0
  {
    ReachedStep(before, tags, n);
  }

  lemma MigrationStep(c: Crypto, key: Bytes, before: View, now: View, after: View, tags: seq<Tag>, n: nat)
    requires n < |tags| && MigratedUpTo(c, key, before, now, tags, n)
    requires tags[n] in before && tags[n] in after && after == now[tags[n] := after[tags[n]]]
    requires Migrated(c, key, before[tags[n]], after[tags[n]])
    ensures MigratedUpTo(c, key, before, after, tags, n + 1)
  {
  }

  lemma MigrationEnd(c: Crypto, key: Bytes, before: View, now: View, tags: seq<Tag>)
    requires MigratedUpTo(c, key, before, now, tags, |tags|)
    ensures StoreMigrated(c, key, before, now)
    ensures Reached(before, tags, |tags|) == PlaintextTags(before)
  {
    assert tags[..|tags|] == tags;
    forall t | t in before
      ensures t in tags && Migrated(c, key, before[t], now[t])
    {
      assert t in Elements(tags);
      var i :| 0 <= i < |tags| && tags[i] == t;
    }
  }

  ghost function Reached(v: View, tags: seq<Tag>, n: nat): set<Tag>
    requires n <= |tags|
  {
    set t | t in tags[..n] && t in v && IsPlaintext(v[t].seed)
  }

  lemma ReachedStep(v: View, tags: seq<Tag>, n: nat)
    requires n < |tags| && Distinct(tags) && tags[n] in v
    ensures tags[n] !in tags[..n] && tags[..n + 1] == tags[..n] + [tags[n]]
    ensures |Reached(v, tags, n + 1)| == |Reached(v, tags, n)| + if IsPlaintext(v[tags[n]].seed) then 1 else 0
  {
    assert forall i :: 0 <= i < n ==> tags[..n][i] == tags[i] != tags[n];
    assert tags[..n + 1] == tags[..n] + [tags[n]];
    assert Reached(v, tags, n + 1)
        == Reached(v, tags, n) + if IsPlaintext(v[tags[n]].seed) then {tags[n]} else {};
  }
}
