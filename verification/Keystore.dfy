/** The keystore as the background script runs it: the lock and the encrypted storage together, one request at a time.
    `secrets` is what was last put under each tag. */
module Keystores {
  import opened ByteTypes
  import opened EncryptedStorage
  import opened KeyStorage
  import opened LairLocking
  import opened Wrappers

  /** The verification hash identifies the key: passphrases that verify against the same hash derive the same key. */
  ghost predicate HashIdentifiesKey(derive: Derive) {
    forall p, q, s :: derive(p, s).verificationHash == derive(q, s).verificationHash ==>
      derive(p, s).masterKey == derive(q, s).masterKey
  }

  lemma KeyIsUnique(derive: Derive, state: LockState, k1: Bytes, k2: Bytes)
    requires HashIdentifiesKey(derive) && KeyOf(derive, state, k1) && KeyOf(derive, state, k2)
    ensures k1 == k2
  {
  }

  /** No seed can be taken for a sealed one. */
  ghost predicate NoMagic(secrets: map<Tag, Bytes>) {
    forall t :: t in secrets ==> IsPlaintext(secrets[t])
  }

  ghost predicate HoldsPlain(v: View, secrets: map<Tag, Bytes>) {
    v.Keys == secrets.Keys && forall t :: t in v ==> v[t].seed == secrets[t]
  }

  ghost predicate HoldsSealed(c: Crypto, key: Bytes, v: View, secrets: map<Tag, Bytes>) {
    && v.Keys == secrets.Keys
    && forall t :: t in v ==> !IsPlaintext(v[t].seed) && Opened(c, v[t].seed, key) == Some(secrets[t])
  }

  lemma MigrationSeals(c: Crypto, key: Bytes, before: View, after: View, secrets: map<Tag, Bytes>)
    requires Lawful(c) && HoldsPlain(before, secrets) && StoreMigrated(c, key, before, after)
    ensures HoldsSealed(c, key, after, secrets) <==> NoMagic(secrets)
  {
    forall t | t in before
      ensures !IsPlaintext(after[t].seed) && Opened(c, after[t].seed, key) == Some(secrets[t])
         <==> IsPlaintext(secrets[t])
    {
      StandsForItselfIffPlaintext(c, before[t].seed, key);
    }
  }

  lemma MigrationOfSealed(c: Crypto, key: Bytes, before: View, after: View, secrets: map<Tag, Bytes>)
    requires HoldsSealed(c, key, before, secrets) && StoreMigrated(c, key, before, after)
    ensures after == before
  {
  }

  lemma ReEncryptionSeals(c: Crypto, oldKey: Bytes, newKey: Bytes, before: View, after: View, secrets: map<Tag, Bytes>)
    requires HoldsSealed(c, oldKey, before, secrets) && StoreReEncrypted(c, oldKey, newKey, before, after)
    ensures HoldsSealed(c, newKey, after, secrets)
  {
    forall t | t in after
      ensures !IsPlaintext(after[t].seed) && Opened(c, after[t].seed, newKey) == Some(secrets[t])
    {
      assert ReEncrypted(c, oldKey, newKey, before[t], after[t]);
    }
  }

  ghost function Kept(a: array?<Byte>): Option<Bytes>
    reads a
  {
    if a == null then None else Some(a[..])
  }

  /** How the lock's state, the two copies of the key, the stored seeds and the secrets belong together. `key` is the
      one the stored seeds are sealed under, once encryption is on. */
  ghost predicate Consistent(c: Crypto, derive: Derive, state: LockState, lockKey: Option<Bytes>, enabled: bool,
                             storeKey: Option<Bytes>, key: Bytes, v: View, secrets: map<Tag, Bytes>) {
    && (enabled <==> state.passphraseHash.Some?)
    && (lockKey.None? <==> storeKey.None?)
    && if enabled then
         && KeyOf(derive, state, key) && HoldsSealed(c, key, v, secrets)
         && (state.isLocked <==> storeKey.None?) && (storeKey.Some? ==> storeKey.value == key)
       else
         storeKey.None? && HoldsPlain(v, secrets)
  }

  lemma PutKeepsConsistent(c: Crypto, derive: Derive, state: LockState, lockKey: Option<Bytes>, enabled: bool,
                           storeKey: Option<Bytes>, key: Bytes, before: View, after: View, tag: Tag, seed: Bytes,
                           secrets: map<Tag, Bytes>)
    requires Consistent(c, derive, state, lockKey, enabled, storeKey, key, before, secrets)
    requires tag in after && after == before[tag := after[tag]]
    requires !enabled ==> after[tag].seed == seed
    requires enabled ==>
               && storeKey.Some? && !IsPlaintext(after[tag].seed)
               && Opened(c, after[tag].seed, storeKey.value) == Some(seed)
    ensures Consistent(c, derive, state, lockKey, enabled, storeKey, key, after, secrets[tag := seed])
  {
    assert secrets[tag := seed].Keys == secrets.Keys + {tag};
    assert after.Keys == before.Keys + {tag};
  }

  lemma LockingKeepsConsistent(c: Crypto, derive: Derive, state: LockState, lockKey: Option<Bytes>, enabled: bool,
                               storeKey: Option<Bytes>, key: Bytes, v: View, secrets: map<Tag, Bytes>)
    requires Consistent(c, derive, state, lockKey, enabled, storeKey, key, v, secrets) && state.passphraseHash.Some?
    ensures enabled && Consistent(c, derive, state.(isLocked := true), None, enabled, None, key, v, secrets)
  {
  }

  lemma SealedStoreOpens(c: Crypto, key: Bytes, v: View, secrets: map<Tag, Bytes>)
    requires HoldsSealed(c, key, v, secrets)
    ensures OpensUnder(c, v, key)
  {
  }

  /** The lock is open under this passphrase, and this is its key. */
  ghost predicate Fits(derive: Derive, state: LockState, passphrase: string, key: Bytes) {
    && state.salt.Some? && state.passphraseHash.Some? && !state.isLocked
    && derive(passphrase, state.salt.value) == Derived(key, state.passphraseHash.value)
  }

  lemma FreshKey(c: Crypto, derive: Derive, state: LockState, passphrase: string, key: Bytes, v: View,
                 secrets: map<Tag, Bytes>)
    requires Fits(derive, state, passphrase, key)
    ensures Consistent(c, derive, state, Some(key), true, Some(key), key, v, secrets)
       <==> HoldsSealed(c, key, v, secrets)
  {
  }

  class Keystore {
    const lock: LairLock
    const storage: EncryptedKeyStorage
    ghost var secrets: map<Tag, Bytes>
    /** The key the stored seeds are sealed under, once encryption is on. */
    ghost var key: Bytes

    /** The three parts keep their keys and seeds in different arrays. */
    ghost predicate Apart()
      reads lock, storage, storage.inner
    {
      lock.masterKey_ != null ==> lock.masterKey_ != storage.masterKey && lock.masterKey_ !in storage.inner.seeds
    }

    ghost predicate Intact()
      reads lock, lock.masterKey_, storage, storage.inner
    {
      lock.Valid() && storage.Valid() && Apart() && HashIdentifiesKey(lock.derive)
    }

    ghost predicate Agrees()
      requires storage.inner.Valid()
      reads this, lock, lock.masterKey_, storage, storage.masterKey, storage.inner, storage.inner.seeds
    {
      AgreesOn(secrets)
    }

    ghost predicate AgreesOn(secrets: map<Tag, Bytes>)
      requires storage.inner.Valid()
      reads this`key, lock, lock.masterKey_, storage, storage.masterKey, storage.inner, storage.inner.seeds
    {
      Consistent(storage.crypto, lock.derive, lock.currentState, Kept(lock.masterKey_), storage.encryptionEnabled,
                 Kept(storage.masterKey), key, storage.inner.Contents(), secrets)
    }

    ghost predicate Valid()
      reads this, lock, lock.masterKey_, storage, storage.masterKey, storage.inner, storage.inner.seeds
    {
      Intact() && Agrees()
    }

    /** Reading and writing seeds is possible. */
    ghost predicate Unlocked()
      reads storage
    {
      storage.encryptionEnabled ==> storage.masterKey != null
    }

    constructor (lock: LairLock, storage: EncryptedKeyStorage)
      requires lock.Valid() && lock.stored.None? && lock.masterKey_ == null && HashIdentifiesKey(lock.derive)
      requires storage.Valid() && !storage.encryptionEnabled && storage.inner.entries == map[]
      ensures Valid() && secrets == map[] && this.lock == lock && this.storage == storage
    {
      this.lock, this.storage := lock, storage;
      secrets, key := map[], [];
    }

    /** Stores a seed; the caller may wipe its array afterwards. */
    method Put(entry: StoredKeyEntry) returns (ok: bool)
      requires Valid()
      modifies this`secrets, storage`draws, storage.inner
      ensures Valid() && ok == old(Unlocked())
      ensures secrets == if ok then old(secrets)[entry.info.tag := old(entry.seed[..])] else old(secrets)
    {
      ghost var seed := entry.seed[..];
      ok := Write(entry);
      ghost var after := if ok then secrets[entry.info.tag := seed] else secrets;
      secrets := after;
      assert AgreesOn(after);
    }

    /** As `Put`, with the secrets still to be brought up to date. */
    method Write(entry: StoredKeyEntry) returns (ok: bool)
      requires Valid()
      modifies storage`draws, storage.inner
      ensures Intact() && ok == old(Unlocked())
      ensures AgreesOn(if ok then secrets[entry.info.tag := old(entry.seed[..])] else secrets)
    {
      ghost var before, seed := storage.inner.Contents(), entry.seed[..];
      var r := storage.PutEntry(entry);
      ok := r.Done?;
      if ok {
        PutKeepsConsistent(storage.crypto, lock.derive, lock.currentState, Kept(lock.masterKey_),
                           storage.encryptionEnabled, Kept(storage.masterKey), key, before, storage.inner.Contents(),
                           entry.info.tag, seed, secrets);
      }
    }

    /** Reads a seed. While unlocked it is exactly the one last put, in an array that is nobody else's. */
    method Get(tag: Tag) returns (r: Result<Option<StoredKeyEntry>>)
      requires Valid()
      ensures !Unlocked() ==> r == Locked
      ensures Unlocked() ==> r.Done? && (r.value.Some? <==> tag in secrets)
      ensures Unlocked() && r.Done? && r.value.Some? ==> fresh(r.value.value.seed)
      ensures Unlocked() && tag in secrets && r.Done? && r.value.Some? ==> r.value.value.seed[..] == secrets[tag]
    {
      r := storage.GetEntry(tag);
    }

    /** Reads a seed, uses it and wipes it, as the signing code does: nothing the keystore holds is touched. */
    method UseAndWipe(tag: Tag) returns (seed: Option<Bytes>)
      requires Valid()
      ensures seed == if Unlocked() && tag in secrets then Some(secrets[tag]) else None
    {
      var r := Get(tag);
      if !r.Done? || r.value.None? {
        return None;
      }
      seed := Some(r.value.value.seed[..]);
      Wipe(r.value.value.seed);
    }

    /** `handleLairLock`: the lock wipes its key before the storage wipes its own. */
    method LockNow() returns (ok: bool)
      requires Valid()
      modifies lock`currentState, lock`stored, lock`masterKey_, lock.masterKey_, storage`masterKey, storage.masterKey
      ensures Valid() && secrets == old(secrets) && ok == old(lock.currentState).passphraseHash.Some?
      ensures ok ==> !Unlocked() && lock.currentState.isLocked
    {
      if lock.currentState.passphraseHash.Some? {
        LockingKeepsConsistent(storage.crypto, lock.derive, lock.currentState, Kept(lock.masterKey_),
                               storage.encryptionEnabled, Kept(storage.masterKey), key, storage.inner.Contents(),
                               secrets);
      }
      ok := LockTheLock();
      if ok {
        storage.ClearMasterKey();
      }
    }

    /** The lock's part of `handleLairLock`: wiping its key touches nothing of the storage. */
    method LockTheLock() returns (ok: bool)
      requires Intact()
      modifies lock`currentState, lock`stored, lock`masterKey_, lock.masterKey_
      ensures Intact() && storage.inner.Contents() == old(storage.inner.Contents())
      ensures Kept(storage.masterKey) == old(Kept(storage.masterKey))
      ensures ok == old(lock.currentState).passphraseHash.Some?
      ensures ok ==> lock.currentState == old(lock.currentState).(isLocked := true) && Kept(lock.masterKey_) == None
      ensures !ok ==> lock.currentState == old(lock.currentState) && Kept(lock.masterKey_) == old(Kept(lock.masterKey_))
    {
      assert Apart();
      ghost var before := storage.inner.Contents();
      var r := lock.Lock();
      assert storage.inner.Contents() == before;
      ok := r.Ok?;
    }

    /** `handleLairUnlock`: an empty passphrase does not even count as an attempt. */
    method UnlockNow(passphrase: string, checkedAt: int, at: int) returns (ok: bool)
      requires Valid() && lock.now <= checkedAt <= at
      modifies lock, lock.masterKey_, storage, storage.inner
      ensures Valid() && secrets == old(secrets)
      ensures ok <==> passphrase != "" && Verifies(lock.derive, old(lock.currentState), passphrase)
                      && !old(lock.Throttling(checkedAt))
      ensures ok ==> Unlocked() && !lock.currentState.isLocked
      ensures passphrase == "" ==> !ok && lock.failures == old(lock.failures)
    {
      if passphrase == "" {
        return false;
      }
      ghost var before := storage.inner.Contents();
      var r := lock.Unlock(passphrase, checkedAt, at);
      assert storage.Valid() && storage.inner.Contents() == before;
      ok := r == Ok(true);
      if ok {
        KeyIsUnique(lock.derive, lock.currentState, lock.masterKey_[..], key);
        TakeKeyAndMigrate();
        MigrationOfSealed(storage.crypto, key, before, storage.inner.Contents(), secrets);
      }
    }

    /** Hands the lock's key to the storage and seals whatever is still plaintext. */
    method TakeKeyAndMigrate()
      requires Intact() && lock.masterKey_ != null
      modifies storage`masterKey, storage`encryptionEnabled, storage`draws, storage.inner
      ensures Intact() && storage.encryptionEnabled && Kept(storage.masterKey) == Kept(lock.masterKey_)
      ensures StoreMigrated(storage.crypto, lock.masterKey_[..], old(storage.inner.Contents()),
                            storage.inner.Contents())
    {
      ghost var before := storage.inner.Contents();
      storage.SetMasterKey(lock.masterKey_);
      var migrated := storage.MigrateToEncrypted();
    }

    /** The key has changed: from now on the stored seeds count as sealed under the new one. */
    ghost method Adopt(newKey: Bytes, passphrase: string)
      requires Intact() && storage.encryptionEnabled && Kept(storage.masterKey) == Kept(lock.masterKey_) == Some(newKey)
      requires Fits(lock.derive, lock.currentState, passphrase, newKey)
      modifies this`key
      ensures Intact()
      ensures Agrees() <==> HoldsSealed(storage.crypto, newKey, old(storage.inner.Contents()), old(secrets))
    {
      key := newKey;
      FreshKey(storage.crypto, lock.derive, lock.currentState, passphrase, newKey, storage.inner.Contents(), secrets);
    }

    /** The part of `handleLairSetPassphrase` that deals with the storage. */
    method Rekey(oldMasterKey: array?<Byte>, newMasterKey: array<Byte>, ghost passphrase: string)
      requires Intact() && Kept(lock.masterKey_) == Some(newMasterKey[..])
      requires Fits(lock.derive, lock.currentState, passphrase, newMasterKey[..])
      requires oldMasterKey == null ==> HoldsPlain(storage.inner.Contents(), secrets)
      requires oldMasterKey != null ==>
                 && oldMasterKey != newMasterKey && oldMasterKey[..] == key && oldMasterKey != lock.masterKey_
                 && oldMasterKey !in storage.inner.seeds
                 && HoldsSealed(storage.crypto, key, storage.inner.Contents(), secrets)
      requires newMasterKey !in storage.inner.seeds && lock.masterKey_ != newMasterKey
      modifies this`key, storage`masterKey, storage`encryptionEnabled, storage`draws, storage.inner, oldMasterKey
      ensures Intact() && Unlocked() && (Agrees() <==> (oldMasterKey == null ==> NoMagic(secrets)))
    {
      ghost var newKey := newMasterKey[..];
      if oldMasterKey != null {
        ChangeKey(oldMasterKey, newMasterKey, newKey);
      } else {
        FirstKey(newMasterKey, newKey);
      }
      Adopt(newKey, passphrase);
    }

    /** `handleLairSetPassphrase`. The first passphrase encrypts what is there, a change re-encrypts it. Afterwards the
        keystore is as it should be exactly if no seed of before the first passphrase looked like a sealed one. */
    method SetPassphraseNow(passphrase: string, oldPassphrase: Option<string>, salt: Bytes, at: int) returns (ok: bool)
      requires Valid() && lock.now <= at
      modifies this, lock, lock.masterKey_, storage, storage.inner
      ensures Intact() && secrets == old(secrets)
      ensures !ok ==> Valid()
      ensures ok && old(storage.encryptionEnabled) ==> Valid() && Unlocked()
      ensures ok && !old(storage.encryptionEnabled) ==> (Valid() <==> NoMagic(secrets)) && Unlocked()
    {
      ghost var before := storage.inner.Contents();
      var r := lock.SetPassphrase(passphrase, oldPassphrase, salt, at);
      assert storage.Valid() && storage.inner.Contents() == before;
      ok := r.Ok?;
      if ok {
        var (oldMasterKey, newMasterKey) := r.value;
        assert oldMasterKey != null ==> oldMasterKey[..] == key;
        Rekey(oldMasterKey, newMasterKey, passphrase);
      }
    }

    /** Seals what is there under the first key. */
    method FirstKey(newMasterKey: array<Byte>, ghost newKey: Bytes)
      requires Intact() && newMasterKey[..] == newKey && Kept(lock.masterKey_) == Some(newKey)
      requires HoldsPlain(storage.inner.Contents(), secrets)
      modifies storage`masterKey, storage`encryptionEnabled, storage`draws, storage.inner
      ensures Intact() && storage.encryptionEnabled && Kept(storage.masterKey) == Kept(lock.masterKey_) == Some(newKey)
      ensures HoldsSealed(storage.crypto, newKey, storage.inner.Contents(), secrets) <==> NoMagic(secrets)
    {
      ghost var before := storage.inner.Contents();
      TakeKeyAndMigrate();
      ghost var after := storage.inner.Contents();
      MigrationSeals(storage.crypto, newKey, before, after, secrets);
      storage.SetMasterKey(newMasterKey);
    }

    /** Everything is sealed anew under the new key; the caller's copy of the old key is wiped. */
    method ChangeKey(oldMasterKey: array<Byte>, newMasterKey: array<Byte>, ghost newKey: Bytes)
      requires Intact() && newMasterKey[..] == newKey && Kept(lock.masterKey_) == Some(newKey)
      requires oldMasterKey != newMasterKey && oldMasterKey[..] == key
      requires {oldMasterKey, newMasterKey} !! storage.inner.seeds
      requires lock.masterKey_ !in {oldMasterKey, newMasterKey}
      requires HoldsSealed(storage.crypto, key, storage.inner.Contents(), secrets)
      modifies storage`masterKey, storage`encryptionEnabled, storage`draws, storage.inner, oldMasterKey
      ensures Intact() && storage.encryptionEnabled && Kept(storage.masterKey) == Kept(lock.masterKey_) == Some(newKey)
      ensures HoldsSealed(storage.crypto, newKey, storage.inner.Contents(), secrets)
    {
      ReSeal(oldMasterKey, newMasterKey, newKey);
      storage.SetMasterKey(newMasterKey);
    }

    method ReSeal(oldMasterKey: array<Byte>, newMasterKey: array<Byte>, ghost newKey: Bytes)
      requires Intact() && newMasterKey[..] == newKey && oldMasterKey != newMasterKey && oldMasterKey[..] == key
      requires oldMasterKey !in storage.inner.seeds && lock.masterKey_ != oldMasterKey
      requires HoldsSealed(storage.crypto, key, storage.inner.Contents(), secrets)
      modifies storage`encryptionEnabled, storage`draws, storage.inner, oldMasterKey
      ensures Intact() && storage.encryptionEnabled
      ensures HoldsSealed(storage.crypto, newKey, storage.inner.Contents(), secrets)
    {
      ghost var before := storage.inner.Contents();
      SealedStoreOpens(storage.crypto, key, before, secrets);
      var done := storage.ReEncrypt(oldMasterKey, newMasterKey);
      ReEncryptionSeals(storage.crypto, key, newKey, before, storage.inner.Contents(), secrets);
      WipeForeign(oldMasterKey);
    }

    /** Wiping an array that is none of the keystore's own. */
    method WipeForeign(a: array<Byte>)
      requires Intact() && a !in storage.inner.seeds && a != lock.masterKey_
      modifies a
      ensures Intact() && storage.inner.Contents() == old(storage.inner.Contents())
    {
      Wipe(a);
    }
  }
}
