/** The keystore lock (`LairLock`): a passphrase opens it, a master key derived from the passphrase is held while it is
    open, and failed attempts are throttled. Key derivation is an arbitrary function of passphrase and salt. */
module LairLocking {
  import opened ByteTypes
  import opened KeyStorage
  import opened Wrappers

  const MIN_PASSPHRASE_LENGTH := 8
  const MAX_ATTEMPTS := 5
  const WINDOW := 30000

  datatype Derived = Derived(masterKey: Bytes, verificationHash: Bytes)
  type Derive = (string, Bytes) -> Derived

  datatype LockState = LockState(isLocked: bool, passphraseHash: Option<Bytes>, salt: Option<Bytes>,
                                 lastUnlocked: Option<int>)

  datatype Reason = PassphraseTooShort | CurrentRequired | IncorrectCurrent | TooManyAttempts | NoPassphrase
  datatype Outcome<T> = Ok(value: T) | Error(reason: Reason)

  const UNPROTECTED := LockState(false, None, None, None)

  /** Some passphrase gives this key, and passes verification against the stored hash. */
  ghost predicate KeyOf(derive: Derive, state: LockState, key: Bytes) {
    && state.passphraseHash.Some? && state.salt.Some?
    && exists p :: derive(p, state.salt.value) == Derived(key, state.passphraseHash.value)
  }

  predicate Verifies(derive: Derive, state: LockState, passphrase: string) {
    state.passphraseHash.Some? && state.salt.Some?
    && derive(passphrase, state.salt.value).verificationHash == state.passphraseHash.value
  }

  // ---------------------------------------------------------------- throttling

  /** Evaluated failures since the last success or reset, in groups of five; between two groups the window passes. */
  ghost predicate Grouped(failures: seq<int>) {
    && (forall i, j :: 0 <= i <= j < |failures| ==> failures[i] <= failures[j])
    && (forall i :: 0 < i < |failures| && i % MAX_ATTEMPTS == 0 ==> failures[i] - failures[i - 1] >= WINDOW)
  }

  ghost predicate Throttled(failures: seq<int>, attempts: nat, last: int, now: int) {
    && Grouped(failures) && attempts <= MAX_ATTEMPTS && |failures| % MAX_ATTEMPTS == attempts % MAX_ATTEMPTS
    && (attempts > 0 ==> failures != [])
    && (failures != [] ==> last == failures[|failures| - 1] <= now)
    && (failures != [] && attempts == 0 ==> now - last >= WINDOW)
  }

  /** From one failure to a later one, a window passes for every group border between them. */
  lemma {:induction false} GroupsTakeTime(failures: seq<int>, i: nat, j: nat)
    requires Grouped(failures) && i <= j < |failures|
    ensures failures[j] - failures[i] >= WINDOW * (j / MAX_ATTEMPTS - i / MAX_ATTEMPTS)
    decreases j - i
  {
    if i < j {
      GroupsTakeTime(failures, i, j - 1);
      if j % MAX_ATTEMPTS == 0 {
        assert failures[j] - failures[j - 1] >= WINDOW;
        assert j / MAX_ATTEMPTS == (j - 1) / MAX_ATTEMPTS + 1;
      } else {
        assert j / MAX_ATTEMPTS == (j - 1) / MAX_ATTEMPTS;
      }
    }
  }

  /** Any span of time without a success or reset holds at most five failures, and five more for every full window. */
  lemma FailuresAreBounded(failures: seq<int>, i: nat, j: nat, span: nat)
    requires Grouped(failures) && i <= j < |failures| && failures[j] - failures[i] <= span
    ensures j - i + 1 <= MAX_ATTEMPTS * (1 + span / WINDOW)
  {
    GroupsTakeTime(failures, i, j);
    var borders := j / MAX_ATTEMPTS - i / MAX_ATTEMPTS;
    assert span >= WINDOW * borders;
    assert borders <= span / WINDOW;
  }

  lemma AppendToGroups(failures: seq<int>, at: int)
    requires Grouped(failures)
    requires failures != [] ==> failures[|failures| - 1] <= at
    requires failures != [] && |failures| % MAX_ATTEMPTS == 0 ==> at - failures[|failures| - 1] >= WINDOW
    ensures Grouped(failures + [at])
  {
  }

  lemma AddFailure(failures: seq<int>, attempts: nat, last: int, now: int, at: int)
    requires Throttled(failures, attempts, last, now) && attempts < MAX_ATTEMPTS && now <= at
    ensures Throttled(failures + [at], attempts + 1, at, at)
  {
    AppendToGroups(failures, at);
    NextCount(|failures|, attempts);
  }

  lemma NextCount(n: nat, attempts: nat)
    requires n % MAX_ATTEMPTS == attempts % MAX_ATTEMPTS
    ensures (n + 1) % MAX_ATTEMPTS == (attempts + 1) % MAX_ATTEMPTS
  {
  }

  // ---------------------------------------------------------------- the class

  class LairLock {
    const derive: Derive
    var currentState: LockState
    /** What `chrome.storage.local` holds; None if nothing was ever saved or it was removed. */
    var stored: Option<LockState>
    var masterKey_: array?<Byte>
    var unlockAttempts: nat
    var lastUnlockAttempt: int

    /** The latest reading of the clock, and the times of the failed attempts since the last success or reset. */
    ghost var now: int
    ghost var failures: seq<int>

    /** A held master key is a right one, and the lock is not locked then. */
    ghost predicate Valid()
      reads this, masterKey_
    {
      && (currentState.passphraseHash.Some? <==> currentState.salt.Some?)
      && (masterKey_ != null ==> !currentState.isLocked && KeyOf(derive, currentState, masterKey_[..]))
      && (stored.Some? ==> stored.value == currentState) && (stored.None? ==> currentState == UNPROTECTED)
      && Throttled(failures, unlockAttempts, lastUnlockAttempt, now)
    }

    /** Too many failures too recently: an attempt at this time is refused. */
    predicate Throttling(checkedAt: int)
      reads this
    {
      unlockAttempts >= MAX_ATTEMPTS && checkedAt - lastUnlockAttempt < WINDOW
    }

    /** Start-up: the state is loaded, a key is not held even if the state says unlocked. */
    constructor (derive: Derive, stored: Option<LockState>, startedAt: int)
      requires stored.Some? ==> (stored.value.passphraseHash.Some? <==> stored.value.salt.Some?)
      ensures Valid() && this.derive == derive && this.stored == stored && masterKey_ == null && now == startedAt
    {
      this.derive, this.stored := derive, stored;
      currentState := if stored.Some? then stored.value else UNPROTECTED;
      masterKey_, unlockAttempts, lastUnlockAttempt := null, 0, 0;
      now, failures := startedAt, [];
    }

    method HoldKey(key: Bytes)
      modifies this`masterKey_, masterKey_
      ensures masterKey_ != null && fresh(masterKey_) && masterKey_[..] == key
      ensures old(masterKey_) != null ==> forall i :: 0 <= i < old(masterKey_).Length ==> old(masterKey_)[i] == 0
    {
      if masterKey_ != null {
        Wipe(masterKey_);
      }
      masterKey_ := Copy(key);
    }

    /** `setPassphrase`, with the salt it draws. The keys it returns are copies of its own. */
    method SetPassphrase(passphrase: string, oldPassphrase: Option<string>, salt: Bytes, at: int)
      returns (r: Outcome<(array?<Byte>, array<Byte>)>)
      requires Valid() && now <= at
      modifies this, masterKey_
      ensures Valid() && unlockAttempts == old(unlockAttempts) && failures == old(failures)
      ensures r == Error(PassphraseTooShort) <==> |passphrase| < MIN_PASSPHRASE_LENGTH
      ensures r == Error(CurrentRequired) <==>
                && |passphrase| >= MIN_PASSPHRASE_LENGTH && old(currentState).passphraseHash.Some?
                && (oldPassphrase.None? || oldPassphrase.value == "")
      ensures r == Error(IncorrectCurrent) <==>
                && |passphrase| >= MIN_PASSPHRASE_LENGTH && old(currentState).passphraseHash.Some?
                && oldPassphrase.Some? && oldPassphrase.value != ""
                && !Verifies(derive, old(currentState), oldPassphrase.value)
      ensures r.Error? ==>
                && r.reason in {PassphraseTooShort, CurrentRequired, IncorrectCurrent}
                && currentState == old(currentState) && masterKey_ == old(masterKey_)
                && (masterKey_ != null ==> masterKey_[..] == old(masterKey_[..]))
      ensures r.Ok? ==> masterKey_ != null && fresh(masterKey_) && fresh(r.value.1)
      ensures r.Ok? ==> r.value.1 != masterKey_ && r.value.0 != masterKey_ && r.value.0 != r.value.1
      ensures r.Ok? ==> r.value.1[..] == masterKey_[..] == derive(passphrase, salt).masterKey
      ensures r.Ok? ==>
                currentState == LockState(false, Some(derive(passphrase, salt).verificationHash), Some(salt), Some(at))
      ensures r.Ok? && old(masterKey_) != null ==>
                forall i :: 0 <= i < old(masterKey_).Length ==> old(masterKey_)[i] == 0
      ensures r.Ok? ==> (r.value.0 == null <==> old(currentState).passphraseHash.None?)
      ensures r.Ok? && r.value.0 != null ==>
                && fresh(r.value.0) && oldPassphrase.Some?
                && Verifies(derive, old(currentState), oldPassphrase.value)
                && r.value.0[..] == derive(oldPassphrase.value, old(currentState).salt.value).masterKey
    {
      if |passphrase| < MIN_PASSPHRASE_LENGTH {
        return Error(PassphraseTooShort);
      }
      var oldMasterKey: array?<Byte> := null;
      if currentState.passphraseHash.Some? && currentState.salt.Some? {
        if oldPassphrase.None? || oldPassphrase.value == "" {
          return Error(CurrentRequired);
        }
        var derived := derive(oldPassphrase.value, currentState.salt.value);
        if derived.verificationHash != currentState.passphraseHash.value {
          return Error(IncorrectCurrent);
        }
        oldMasterKey := Copy(derived.masterKey);
      }
      var derived := derive(passphrase, salt);
      HoldKey(derived.masterKey);
      currentState := LockState(false, Some(derived.verificationHash), Some(salt), Some(at));
      stored := Some(currentState);
      now := at;
      var newMasterKey := Copy(masterKey_[..]);
      assert derive(passphrase, salt) == Derived(masterKey_[..], derived.verificationHash);
      r := Ok((oldMasterKey, newMasterKey));
    }

    /** The part of `unlock` after the throttle. */
    method Attempt(passphrase: string, at: int) returns (r: Outcome<bool>)
      requires Valid() && now <= at && unlockAttempts < MAX_ATTEMPTS
      modifies this, masterKey_
      ensures Valid()
      ensures r == if old(currentState).passphraseHash.None? then Error(NoPassphrase)
                   else Ok(Verifies(derive, old(currentState), passphrase))
      ensures r == Ok(true) ==>
                && masterKey_ != null && fresh(masterKey_)
                && masterKey_[..] == derive(passphrase, currentState.salt.value).masterKey
                && currentState == old(currentState).(isLocked := false, lastUnlocked := Some(at)) && failures == []
                && (old(masterKey_) != null ==>
                      forall i :: 0 <= i < old(masterKey_).Length ==> old(masterKey_)[i] == 0)
      ensures r != Ok(true) ==>
                && failures == (if r.Ok? then old(failures) + [at] else old(failures))
                && currentState == old(currentState) && masterKey_ == old(masterKey_)
                && (masterKey_ != null ==> masterKey_[..] == old(masterKey_[..]))
    {
      if currentState.passphraseHash.None? || currentState.salt.None? {
        return Error(NoPassphrase);
      }
      var derived := derive(passphrase, currentState.salt.value);
      if derived.verificationHash == currentState.passphraseHash.value {
        HoldKey(derived.masterKey);
        currentState := currentState.(isLocked := false, lastUnlocked := Some(at));
        unlockAttempts := 0;
        stored := Some(currentState);
        now, failures := at, [];
        assert derive(passphrase, currentState.salt.value)
            == Derived(masterKey_[..], currentState.passphraseHash.value);
        return Ok(true);
      }
      AddFailure(failures, unlockAttempts, lastUnlockAttempt, now, at);
      unlockAttempts := unlockAttempts + 1;
      lastUnlockAttempt := at;
      now, failures := at, failures + [at];
      return Ok(false);
    }

    /** `unlock`, with the readings of the clock for the throttle and for the attempt itself. */
    method Unlock(passphrase: string, checkedAt: int, at: int) returns (r: Outcome<bool>)
      requires Valid() && now <= checkedAt <= at
      modifies this, masterKey_
      ensures Valid()
      ensures r == if old(Throttling(checkedAt)) then Error(TooManyAttempts)
                   else if old(currentState).passphraseHash.None? then Error(NoPassphrase)
                   else Ok(Verifies(derive, old(currentState), passphrase))
      ensures r == Ok(true) ==>
                && masterKey_ != null && fresh(masterKey_)
                && masterKey_[..] == derive(passphrase, currentState.salt.value).masterKey
                && currentState == old(currentState).(isLocked := false, lastUnlocked := Some(at)) && failures == []
                && (old(masterKey_) != null ==>
                      forall i :: 0 <= i < old(masterKey_).Length ==> old(masterKey_)[i] == 0)
      ensures r != Ok(true) ==>
                && failures == (if r.Ok? then old(failures) + [at] else old(failures))
                && currentState == old(currentState) && masterKey_ == old(masterKey_)
                && (masterKey_ != null ==> masterKey_[..] == old(masterKey_[..]))
    {
      if unlockAttempts >= MAX_ATTEMPTS {
        var elapsed := checkedAt - lastUnlockAttempt;
        if elapsed < WINDOW {
          return Error(TooManyAttempts);
        }
        unlockAttempts := 0;
      }
      now := checkedAt;
      r := Attempt(passphrase, at);
    }

    /** `lock`: refused without a passphrase. */
    method Lock() returns (r: Outcome<()>)
      requires Valid()
      modifies this`currentState, this`stored, this`masterKey_, masterKey_
      ensures Valid()
      ensures r == if old(currentState).passphraseHash.None? then Error(NoPassphrase) else Ok(())
      ensures r.Ok? ==> currentState == old(currentState).(isLocked := true) && masterKey_ == null
      ensures r.Ok? && old(masterKey_) != null ==>
                forall i :: 0 <= i < old(masterKey_).Length ==> old(masterKey_)[i] == 0
      ensures r.Error? ==> currentState == old(currentState) && masterKey_ == old(masterKey_)
    {
      if currentState.passphraseHash.None? {
        return Error(NoPassphrase);
      }
      if masterKey_ != null {
        Wipe(masterKey_);
        masterKey_ := null;
      }
      currentState := currentState.(isLocked := true);
      stored := Some(currentState);
      return Ok(());
    }

    /** `reset`. */
    method Reset()
      requires Valid()
      modifies this, masterKey_
      ensures Valid() && currentState == UNPROTECTED && masterKey_ == null && stored == None && failures == []
      ensures old(masterKey_) != null ==> forall i :: 0 <= i < old(masterKey_).Length ==> old(masterKey_)[i] == 0
    {
      if masterKey_ != null {
        Wipe(masterKey_);
        masterKey_ := null;
      }
      stored, currentState := None, UNPROTECTED;
      unlockAttempts, lastUnlockAttempt := 0, 0;
      failures := [];
    }
  }
}
