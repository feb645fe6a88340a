/** Recovering a source chain from what was published (`chain-recovery.ts`). */
module ChainRecovery {
  import opened ByteTypes
  import opened ChainTypes
  import opened RecordConverter
  import opened Sequences
  import opened Sorting
  import opened Wrappers
  import SourceChains

  type ChainHead = SourceChains.ChainHead

  datatype RecoveredRecord = RecoveredRecord(actionHash: Bytes, content: WireAction, signature: Bytes,
                                             entry: Option<WireEntry>, actionSeq: nat, timestamp: int)

  /** `networkRecordToRecovered`. */
  function NetworkRecordToRecovered(r: WireRecord): RecoveredRecord {
    RecoveredRecord(r.actionHash, r.content, r.signature, r.entry,
                    if r.content.actionSeq.Some? then r.content.actionSeq.value else 0, r.content.timestamp)
  }

  // ---------------------------------------------------------------- back to the storage format

  /** `wireEntryTypeToStorage`. */
  function WireEntryTypeToStorage(t: Option<WireEntryType>): Option<AppEntryType> {
    match t
    case Some(AppEntry(entryIndex, zomeIndex)) => Some(AppEntryType(zomeIndex, entryIndex))
    case Some(AlreadyStored(entryType)) => Some(entryType)
    case _ => None
  }

  /** `wireEntryTypeToStoredEntryType`, for an entry-level type that is a string. */
  function WireEntryTypeToStoredEntryType(entryLevel: string, actionLevel: Option<WireEntryType>): EntryKind {
    if entryLevel == "Agent" then SourceChains.Agent
    else if entryLevel == "CapClaim" then SourceChains.CapClaim
    else if entryLevel == "CapGrant" then SourceChains.CapGrant
    else
      var t := WireEntryTypeToStorage(actionLevel);
      if t.Some? then SourceChains.App(t.value) else SourceChains.Agent
  }

  const SIGNATURE_LEN := 64

  /** `buildStorageAction`. The address of a deleted link and membrane proofs are not taken over. */
  function BuildStorageAction(r: RecoveredRecord): Fields {
    var c := r.content;
    Fields(r.actionHash, r.actionSeq, c.author, r.timestamp, c.prevAction, c.actionType,
           if |r.signature| == SIGNATURE_LEN then r.signature else seq(SIGNATURE_LEN, _ => 0),
           c.entryHash, WireEntryTypeToStorage(c.entryType), c.originalActionAddress, c.originalEntryAddress,
           c.deletesAddress, c.deletesEntryAddress, c.baseAddress, c.targetAddress, c.zomeIndex, c.linkType, c.tag,
           None, if c.actionType.DnaType? then c.hash else None, None)
  }

  /** `buildStorageEntry`. */
  function BuildStorageEntry(r: RecoveredRecord): Option<StoredEntry> {
    if r.entry.None? || r.content.entryHash.None? then None
    else
      var e := r.entry.value;
      Some(SourceChains.StoredEntry(r.content.entryHash.value, if e.entry.Some? then e.entry.value else [],
                                    WireEntryTypeToStoredEntryType(e.entryType, r.content.entryType)))
  }

  // ---------------------------------------------------------------- what survives

  predicate BodyRecoverable(a: Action) {
    match a.body
    case DeleteLink(_, _) => false
    case AgentValidationPkg(membraneProof) => membraneProof.None?
    case Dna(_) => a.actionSeq == 0 && a.prevActionHash.None?
    case _ => true
  }

  /** What publishing and recovering needs to know about an action to bring it back as it was. */
  predicate Recoverable(a: Action) {
    |a.author| == 39 && |a.signature| == SIGNATURE_LEN && IsDouble(a.timestamp) && BodyRecoverable(a)
  }

  function EntryTypeOf(body: Body): Option<AppEntryType> {
    match body
    case Create(_, t) => t
    case Update(_, t, _, _) => t
    case _ => None
  }

  function EntryHashOf(body: Body): Option<Bytes> {
    match body
    case Create(h, _) => Some(h)
    case Update(h, _, _, _) => Some(h)
    case _ => None
  }

  /** The entry belongs to the action, and is the agent's or an app entry of the action's type. */
  predicate EntryRecoverable(body: Body, e: StoredEntry) {
    EntryHashOf(body) == Some(e.entryHash)
    && (e.entryType.Agent? || (e.entryType.App? && EntryTypeOf(body) == Some(e.entryType.entryType)))
  }

  function Republished(h: Hashing, a: Action, e: Option<StoredEntry>): RecoveredRecord {
    NetworkRecordToRecovered(BuildRecord(h, a, e))
  }

  lemma AuthorSurvivesIff(h: Hashing, author: Bytes)
    requires MakesFullKeys(h)
    ensures EnsureAgentPubKey(h, author) == author <==> |author| == 39
  {
    assert |h.agentFrom32(Slice(author, 0, 32))| == 39;
  }

  /** The fields of the body, and the place in the chain. */
  predicate SameBody(f: Fields, g: Fields) {
    f == g.(author := f.author, timestamp := f.timestamp, signature := f.signature)
  }

  lemma EntryBodySurvives(h: Hashing, a: Action, e: Option<StoredEntry>)
    requires a.body.Create? || a.body.Update? || a.body.Delete? || a.body.CreateLink? || a.body.InitZomesComplete?
    ensures SameBody(BuildStorageAction(Republished(h, a, e)), FieldsOf(a))
  {
  }

  lemma BodySurvivesIff(h: Hashing, a: Action, e: Option<StoredEntry>)
    ensures SameBody(BuildStorageAction(Republished(h, a, e)), FieldsOf(a)) <==> BodyRecoverable(a)
  {
    if !(a.body.DeleteLink? || a.body.AgentValidationPkg? || a.body.Dna?) {
      EntryBodySurvives(h, a, e);
    }
  }

  /** Publishing an action and recovering it gives back the very object that was stored, if and only if the author is
      a full key, the signature has 64 bytes, the timestamp is a double, and the action neither deletes a link nor
      carries a membrane proof (nor is a Dna action out of place). */
  lemma ActionSurvivesRecoveryIff(h: Hashing, a: Action, e: Option<StoredEntry>)
    requires MakesFullKeys(h)
    ensures BuildStorageAction(Republished(h, a, e)) == FieldsOf(a) <==> Recoverable(a)
  {
    BodySurvivesIff(h, a, e);
    AuthorSurvivesIff(h, a.author);
    NumberIsExactIff(a.timestamp);
  }

  lemma DeletionHasNoRecord(h: Hashing, a: Action, e: Option<StoredEntry>)
    requires a.body.DeleteLink?
    ensures ActionToStorable(BuildStorageAction(Republished(h, a, e))) == None
  {
  }

  /** So its database record is the same; that of a deleted link cannot even be made. */
  lemma DatabaseRecordSurvives(h: Hashing, a: Action, e: Option<StoredEntry>)
    requires MakesFullKeys(h)
    ensures Recoverable(a) ==> ActionToStorable(BuildStorageAction(Republished(h, a, e))) == Some(Storable(a))
    ensures a.body.DeleteLink? ==> ActionToStorable(BuildStorageAction(Republished(h, a, e))) == None
  {
    if a.body.DeleteLink? {
      DeletionHasNoRecord(h, a, e);
    } else if Recoverable(a) {
      ActionSurvivesRecoveryIff(h, a, e);
      ActionSurvivesStorage(a);
    }
  }

  /** Capability entries come back as agent entries or as app entries, never as what they were. */
  lemma EntrySurvivesRecoveryIff(h: Hashing, a: Action, e: StoredEntry)
    ensures BuildStorageEntry(Republished(h, a, Some(e))) == Some(e) <==> EntryRecoverable(a.body, e)
  {
  }

  // ---------------------------------------------------------------- fetching the chain

  datatype Fetched = Found(record: WireRecord) | NotFound | Threw

  /** What the network knows of the agent's chain. */
  datatype Activity = NoAgent | NotRequested | Hashes(pairs: seq<(nat, Bytes)>) | Full(records: seq<WireRecord>)

  datatype RecoveryError = RecordNotFound(actionSeq: nat) | FetchFailed(actionSeq: nat)
  datatype Recovery = AgentNotFound | Recovery(records: seq<RecoveredRecord>, errors: seq<RecoveryError>)

  function SeqOfPair(pair: (nat, Bytes)): int {
    pair.0
  }

  function SeqOfRecord(r: RecoveredRecord): int {
    r.actionSeq
  }

  function SeqOfWire(r: WireRecord): int {
    NetworkRecordToRecovered(r).actionSeq
  }

  function FetchedRecords(pairs: seq<(nat, Bytes)>, fetch: Bytes -> Fetched): seq<RecoveredRecord> {
    if pairs == [] then []
    else
      var answer := fetch(pairs[|pairs| - 1].1);
      FetchedRecords(pairs[..|pairs| - 1], fetch)
      + if answer.Found? then [NetworkRecordToRecovered(answer.record)] else []
  }

  function FetchErrors(pairs: seq<(nat, Bytes)>, fetch: Bytes -> Fetched): seq<RecoveryError> {
    if pairs == [] then []
    else
      var (actionSeq, hash) := pairs[|pairs| - 1];
      FetchErrors(pairs[..|pairs| - 1], fetch)
      + match fetch(hash)
        case Found(_) => []
        case NotFound => [RecordNotFound(actionSeq)]
        case Threw => [FetchFailed(actionSeq)]
  }

  function RecoveredAll(records: seq<WireRecord>): (r: seq<RecoveredRecord>)
    ensures |r| == |records|
  {
    seq(|records|, i requires 0 <= i < |records| => NetworkRecordToRecovered(records[i]))
  }

  function Recovered(activity: Activity, fetch: Bytes -> Fetched): Recovery {
    match activity
    case NoAgent => AgentNotFound
    case NotRequested => Recovery([], [])
    case Hashes(pairs) =>
      var sorted := Sorted(pairs, SeqOfPair);
      Recovery(Sorted(FetchedRecords(sorted, fetch), SeqOfRecord), FetchErrors(sorted, fetch))
    case Full(records) => Recovery(RecoveredAll(Sorted(records, SeqOfWire)), [])
  }

  /** `recoverChainFromDHT`; the counters are those of the last progress report. */
  method RecoverChainFromDHT(activity: Activity, fetch: Bytes -> Fetched)
    returns (r: Recovery, recovered: nat, failed: nat)
    ensures r == Recovered(activity, fetch)
    ensures r.Recovery? ==> recovered == |r.records| && failed == |r.errors|
  {
    recovered, failed := 0, 0;
    if activity.NoAgent? {
      return AgentNotFound, 0, 0;
    }
    if activity.NotRequested? {
      return Recovery([], []), 0, 0;
    }
    if activity.Full? {
      var sorted := Sorted(activity.records, SeqOfWire);
      return Recovery(RecoveredAll(sorted), []), |sorted|, 0;
    }
    var pairs := Sorted(activity.pairs, SeqOfPair);
    var records: seq<RecoveredRecord>, errors: seq<RecoveryError> := [], [];
    for i := 0 to |pairs|
      invariant records == FetchedRecords(pairs[..i], fetch) && errors == FetchErrors(pairs[..i], fetch)
      invariant recovered == |records| && failed == |errors|
    {
      assert pairs[..i + 1][..i] == pairs[..i];
      match fetch(pairs[i].1) {
        case NotFound =>
          errors := errors + [RecordNotFound(pairs[i].0)];
          failed := failed + 1;
        case Threw =>
          errors := errors + [FetchFailed(pairs[i].0)];
          failed := failed + 1;
        case Found(record) =>
          records := records + [NetworkRecordToRecovered(record)];
          recovered := recovered + 1;
      }
    }
    assert pairs[..|pairs|] == pairs;
    SortedIsSorted(records, SeqOfRecord);
    r := Recovery(Sorted(records, SeqOfRecord), errors);
  }

  lemma {:induction false} EveryFetchCounts(pairs: seq<(nat, Bytes)>, fetch: Bytes -> Fetched)
    ensures |FetchedRecords(pairs, fetch)| + |FetchErrors(pairs, fetch)| == |pairs|
  {
    if pairs != [] {
      EveryFetchCounts(pairs[..|pairs| - 1], fetch);
    }
  }

  /** Every hash ends as a record or as an error, and the records come in chain order, whatever the network answers. */
  lemma RecoveryAccountsForEveryHash(pairs: seq<(nat, Bytes)>, fetch: Bytes -> Fetched)
    ensures var r := Recovered(Hashes(pairs), fetch);
            |r.records| + |r.errors| == |pairs| && Ordered(r.records, SeqOfRecord)
  {
    var sorted := Sorted(pairs, SeqOfPair);
    SortedIsSorted(pairs, SeqOfPair);
    EveryFetchCounts(sorted, fetch);
    SortedIsSorted(FetchedRecords(sorted, fetch), SeqOfRecord);
  }

  /** The order in which the network lists the hashes does not matter. */
  lemma RecoveryForgetsOrder(chain: seq<(nat, Bytes)>, pairs: seq<(nat, Bytes)>, fetch: Bytes -> Fetched)
    requires StrictlyOrdered(chain, SeqOfPair) && multiset(pairs) == multiset(chain)
    ensures Recovered(Hashes(pairs), fetch) == Recovered(Hashes(chain), fetch)
  {
    SortingForgetsOrder(pairs, chain, SeqOfPair);
    SortingForgetsOrder(chain, chain, SeqOfPair);
  }

  // ---------------------------------------------------------------- storing the chain

  datatype Stored = Stored(actions: map<Bytes, Fields>, entries: map<Bytes, StoredEntry>, head: Option<ChainHead>)

  const NOTHING_STORED := Stored(map[], map[], None)

  datatype StoreResult = StoreResult(recoveredCount: nat, failedCount: nat, verifiedCount: nat, unverifiedCount: nat)

  /** A record in the store: its action, its entry, and then itself as the head. An action or entry that the store
      refuses ends the work on its record there. */
  function StoredOne(s: Stored, r: RecoveredRecord, refuses: Bytes -> bool): Stored {
    var entry := BuildStorageEntry(r);
    if refuses(r.actionHash) then s
    else
      var t := s.(actions := s.actions[r.actionHash := BuildStorageAction(r)]);
      if entry.Some? && refuses(entry.value.entryHash) then t
      else
        var u := if entry.Some? then t.(entries := t.entries[entry.value.entryHash := entry.value]) else t;
        u.(head := Some(SourceChains.ChainHead(r.actionSeq, r.actionHash, r.timestamp)))
  }

  function StoredAll(s: Stored, records: seq<RecoveredRecord>, refuses: Bytes -> bool): Stored {
    if records == [] then s
    else StoredOne(StoredAll(s, records[..|records| - 1], refuses), records[|records| - 1], refuses)
  }

  predicate Refused(r: RecoveredRecord, refuses: Bytes -> bool) {
    var entry := BuildStorageEntry(r);
    refuses(r.actionHash) || (entry.Some? && refuses(entry.value.entryHash))
  }

  function RefusedCount(records: seq<RecoveredRecord>, refuses: Bytes -> bool): (n: nat)
    ensures n <= |records|
    ensures (forall b :: !refuses(b)) ==> n == 0
  {
    if records == [] then 0
    else RefusedCount(records[..|records| - 1], refuses) + if Refused(records[|records| - 1], refuses) then 1 else 0
  }

  /** The storage provider, as far as recovery writes to it. */
  class ChainStore {
    const refuses: Bytes -> bool
    var actions: map<Bytes, Fields>
    var entries: map<Bytes, StoredEntry>
    var head: Option<ChainHead>

    ghost function Contents(): Stored
      reads this
    {
      Stored(actions, entries, head)
    }

    constructor (refuses: Bytes -> bool)
      ensures Contents() == NOTHING_STORED && this.refuses == refuses
    {
      this.refuses := refuses;
      actions, entries, head := map[], map[], None;
    }

    method StoreOne(r: RecoveredRecord) returns (ok: bool)
      modifies this
      ensures Contents() == StoredOne(old(Contents()), r, refuses) && ok == !Refused(r, refuses)
    {
      if refuses(r.actionHash) {
        return false;
      }
      actions := actions[r.actionHash := BuildStorageAction(r)];
      var entry := BuildStorageEntry(r);
      if entry.Some? {
        if refuses(entry.value.entryHash) {
          return false;
        }
        entries := entries[entry.value.entryHash := entry.value];
      }
      head := Some(SourceChains.ChainHead(r.actionSeq, r.actionHash, r.timestamp));
      return true;
    }

    /** `storeRecoveredRecords`: all signatures are checked before anything is stored. */
    method StoreRecoveredRecords(records: seq<RecoveredRecord>, verify: RecoveredRecord -> bool)
      returns (result: StoreResult)
      modifies this
      ensures (exists i :: 0 <= i < |records| && !verify(records[i])) ==>
                Contents() == old(Contents()) && result == StoreResult(0, |records|, 0, 1)
      ensures (forall i :: 0 <= i < |records| ==> verify(records[i])) ==>
                && Contents() == StoredAll(old(Contents()), records, refuses)
                && result == StoreResult(|records| - RefusedCount(records, refuses), RefusedCount(records, refuses),
                                         |records|, 0)
    {
      for i := 0 to |records|
        invariant forall j :: 0 <= j < i ==> verify(records[j])
        invariant Contents() == old(Contents())
      {
        if !verify(records[i]) {
          return StoreResult(0, |records|, 0, 1);
        }
      }
      var recoveredCount, failedCount := 0, 0;
      for i := 0 to |records|
        invariant Contents() == StoredAll(old(Contents()), records[..i], refuses)
        invariant failedCount == RefusedCount(records[..i], refuses) && recoveredCount + failedCount == i
      {
        assert records[..i + 1][..i] == records[..i];
        var ok := StoreOne(records[i]);
        if ok {
          recoveredCount := recoveredCount + 1;
        } else {
          failedCount := failedCount + 1;
        }
      }
      assert records[..|records|] == records;
      result := StoreResult(recoveredCount, failedCount, |records|, 0);
    }
  }

  // ---------------------------------------------------------------- publish, recover, store

  datatype Local = Local(action: Action, entry: Option<StoredEntry>)

  /** A chain as an agent writes it, of records that survive: numbered from 0, every hash used once, equal entry
      hashes for equal entries only. */
  ghost predicate LocalChain(chain: seq<Local>) {
    && (forall i :: 0 <= i < |chain| ==>
          && chain[i].action.actionSeq == i && Recoverable(chain[i].action)
          && (chain[i].entry.Some? ==> EntryRecoverable(chain[i].action.body, chain[i].entry.value)))
    && (forall i, j :: 0 <= i < j < |chain| ==> chain[i].action.actionHash != chain[j].action.actionHash)
    && (forall i, j :: 0 <= i < j < |chain| && chain[i].entry.Some? && chain[j].entry.Some?
                       && chain[i].entry.value.entryHash == chain[j].entry.value.entryHash ==>
          chain[i].entry == chain[j].entry)
  }

  function PairsOf(chain: seq<Local>): (pairs: seq<(nat, Bytes)>)
    ensures |pairs| == |chain|
  {
    seq(|chain|, i requires 0 <= i < |chain| => (chain[i].action.actionSeq, chain[i].action.actionHash))
  }

  function RepublishedAll(h: Hashing, chain: seq<Local>): (records: seq<RecoveredRecord>)
    ensures |records| == |chain|
  {
    seq(|chain|, i requires 0 <= i < |chain| => Republished(h, chain[i].action, chain[i].entry))
  }

  /** The network returns what was published. */
  ghost predicate Publishes(h: Hashing, chain: seq<Local>, fetch: Bytes -> Fetched) {
    forall i :: 0 <= i < |chain| ==>
      fetch(chain[i].action.actionHash) == Found(BuildRecord(h, chain[i].action, chain[i].entry))
  }

  lemma {:induction false} FetchingPublished(h: Hashing, chain: seq<Local>, n: nat, fetch: Bytes -> Fetched)
    requires Publishes(h, chain, fetch) && n <= |chain|
    ensures FetchedRecords(PairsOf(chain)[..n], fetch) == RepublishedAll(h, chain)[..n]
    ensures FetchErrors(PairsOf(chain)[..n], fetch) == []
  {
    if n > 0 {
      FetchingPublished(h, chain, n - 1, fetch);
      assert PairsOf(chain)[..n][..n - 1] == PairsOf(chain)[..n - 1];
      assert RepublishedAll(h, chain)[..n] == RepublishedAll(h, chain)[..n - 1] + [RepublishedAll(h, chain)[n - 1]];
      assert fetch(chain[n - 1].action.actionHash) == Found(BuildRecord(h, chain[n - 1].action, chain[n - 1].entry));
    }
  }

  lemma RepublishedSeq(h: Hashing, l: Local)
    requires Recoverable(l.action)
    ensures Republished(h, l.action, l.entry).actionSeq == l.action.actionSeq
    ensures Republished(h, l.action, l.entry).timestamp == l.action.timestamp
  {
    NumberIsExactIff(l.action.timestamp);
  }

  /** Whatever order the hashes come in, recovery returns the published records in chain order, without errors. */
  lemma RecoveryReturnsTheChain(h: Hashing, chain: seq<Local>, pairs: seq<(nat, Bytes)>, fetch: Bytes -> Fetched)
    requires LocalChain(chain) && Publishes(h, chain, fetch) && multiset(pairs) == multiset(PairsOf(chain))
    ensures Recovered(Hashes(pairs), fetch) == Recovery(RepublishedAll(h, chain), [])
  {
    var inOrder := PairsOf(chain);
    assert StrictlyOrdered(inOrder, SeqOfPair);
    RecoveryForgetsOrder(inOrder, pairs, fetch);
    SortingForgetsOrder(inOrder, inOrder, SeqOfPair);
    assert inOrder[..|chain|] == inOrder && RepublishedAll(h, chain)[..|chain|] == RepublishedAll(h, chain);
    FetchingPublished(h, chain, |chain|, fetch);
    RepublishedInOrder(h, chain);
    SortingOrdered(RepublishedAll(h, chain), SeqOfRecord);
  }

  lemma RepublishedInOrder(h: Hashing, chain: seq<Local>)
    requires LocalChain(chain)
    ensures Ordered(RepublishedAll(h, chain), SeqOfRecord)
  {
    var records := RepublishedAll(h, chain);
    forall i, j | 0 <= i < j < |records|
      ensures SeqOfRecord(records[i]) <= SeqOfRecord(records[j])
    {
      RepublishedSeq(h, chain[i]);
      RepublishedSeq(h, chain[j]);
    }
  }

  /** A map holds these items, each under its key, and nothing else. */
  ghost predicate Files<V>(m: map<Bytes, V>, items: seq<Option<(Bytes, V)>>) {
    && (forall i :: 0 <= i < |items| && items[i].Some? ==>
          items[i].value.0 in m && m[items[i].value.0] == items[i].value.1)
    && (forall k :: k in m ==> exists i :: 0 <= i < |items| && items[i].Some? && items[i].value.0 == k)
  }

  ghost predicate Consistent<V>(items: seq<Option<(Bytes, V)>>) {
    forall i, j :: 0 <= i < j < |items| && items[i].Some? && items[j].Some? && items[i].value.0 == items[j].value.0 ==>
      items[i].value == items[j].value
  }

  lemma FilingOneMore<V>(m: map<Bytes, V>, items: seq<Option<(Bytes, V)>>, n: nat)
    requires Consistent(items) && n < |items| && Files(m, items[..n])
    ensures Files(if items[n].Some? then m[items[n].value.0 := items[n].value.1] else m, items[..n + 1])
  {
    var more := items[..n + 1];
    var t := if items[n].Some? then m[items[n].value.0 := items[n].value.1] else m;
    forall k | k in t
      ensures exists i :: 0 <= i < |more| && more[i].Some? && more[i].value.0 == k
    {
      if k in m {
        var i :| 0 <= i < n && items[..n][i].Some? && items[..n][i].value.0 == k;
        assert more[i] == items[..n][i];
      } else {
        assert more[n].Some? && more[n].value.0 == k;
      }
    }
    forall i | 0 <= i < |more| && more[i].Some?
      ensures more[i].value.0 in t && t[more[i].value.0] == more[i].value.1
    {
      assert i < n ==> more[i] == items[..n][i];
    }
  }

  function ActionItems(chain: seq<Local>): (items: seq<Option<(Bytes, Fields)>>)
    ensures |items| == |chain|
  {
    seq(|chain|, i requires 0 <= i < |chain| => Some((chain[i].action.actionHash, FieldsOf(chain[i].action))))
  }

  function EntryItems(chain: seq<Local>): (items: seq<Option<(Bytes, StoredEntry)>>)
    ensures |items| == |chain|
  {
    seq(|chain|, i requires 0 <= i < |chain| =>
      if chain[i].entry.Some? then Some((chain[i].entry.value.entryHash, chain[i].entry.value)) else None)
  }

  function HeadOf(a: Action): ChainHead {
    SourceChains.ChainHead(a.actionSeq, a.actionHash, a.timestamp)
  }

  /** The store holds the actions and entries of the first `n` records of the chain and no others, and the last of
      them is the head. */
  ghost predicate HoldsChain(s: Stored, chain: seq<Local>, n: nat)
    requires n <= |chain|
  {
    && Files(s.actions, ActionItems(chain)[..n]) && Files(s.entries, EntryItems(chain)[..n])
    && s.head == if n == 0 then None else Some(HeadOf(chain[n - 1].action))
  }

  lemma StoringOneMore(h: Hashing, chain: seq<Local>, s: Stored, n: nat, refuses: Bytes -> bool)
    requires MakesFullKeys(h) && LocalChain(chain) && n < |chain| && HoldsChain(s, chain, n)
    requires forall b :: !refuses(b)
    ensures HoldsChain(StoredOne(s, RepublishedAll(h, chain)[n], refuses), chain, n + 1)
  {
    var l := chain[n];
    var r := RepublishedAll(h, chain)[n];
    assert Recoverable(l.action);
    RepublishedSeq(h, l);
    ActionSurvivesRecoveryIff(h, l.action, l.entry);
    if l.entry.Some? {
      EntrySurvivesRecoveryIff(h, l.action, l.entry.value);
    }
    assert BuildStorageEntry(r) == l.entry;
    FilingOneMore(s.actions, ActionItems(chain), n);
    FilingOneMore(s.entries, EntryItems(chain), n);
  }

  lemma {:induction false} StoringTheChain(h: Hashing, chain: seq<Local>, n: nat, refuses: Bytes -> bool)
    requires MakesFullKeys(h) && LocalChain(chain) && n <= |chain| && forall b :: !refuses(b)
    ensures HoldsChain(StoredAll(NOTHING_STORED, RepublishedAll(h, chain)[..n], refuses), chain, n)
  {
    if n > 0 {
      StoringTheChain(h, chain, n - 1, refuses);
      assert RepublishedAll(h, chain)[..n][..n - 1] == RepublishedAll(h, chain)[..n - 1];
      StoringOneMore(h, chain, StoredAll(NOTHING_STORED, RepublishedAll(h, chain)[..n - 1], refuses), n - 1, refuses);
    }
  }

  /** Publishing a chain, recovering it from hashes in any order and storing it in an empty store that refuses nothing
      gives the chain back: the same actions and entries and no others, with the last action as the head. */
  lemma PublishedChainComesBack(h: Hashing, chain: seq<Local>, pairs: seq<(nat, Bytes)>, fetch: Bytes -> Fetched,
                                refuses: Bytes -> bool)
    requires MakesFullKeys(h) && LocalChain(chain) && Publishes(h, chain, fetch)
    requires multiset(pairs) == multiset(PairsOf(chain)) && forall b :: !refuses(b)
    ensures var r := Recovered(Hashes(pairs), fetch);
            r.errors == [] && HoldsChain(StoredAll(NOTHING_STORED, r.records, refuses), chain, |chain|)
  {
    RecoveryReturnsTheChain(h, chain, pairs, fetch);
    assert RepublishedAll(h, chain)[..|chain|] == RepublishedAll(h, chain);
    StoringTheChain(h, chain, |chain|, refuses);
  }
}
