/** What chain recovery returns and what storing it leaves behind, for every form of the network's answer and whatever
    is missing or refused. */
module RecoveryOutcomes {
  import opened ByteTypes
  import opened ChainRecovery
  import opened ChainTypes
  import opened RecordConverter
  import opened Sequences
  import opened Sorting
  import opened SourceChains
  import opened Wrappers

  // ---------------------------------------------------------------- full activity

  lemma {:induction false} InsertCommutes(s: seq<WireRecord>, x: WireRecord)
    ensures RecoveredAll(Insert(s, x, SeqOfWire)) == Insert(RecoveredAll(s), NetworkRecordToRecovered(x), SeqOfRecord)
  {
    if s != [] && SeqOfWire(s[|s| - 1]) > SeqOfWire(x) {
      InsertCommutes(s[..|s| - 1], x);
      assert RecoveredAll(s)[..|s| - 1] == RecoveredAll(s[..|s| - 1]);
    } else {
      assert RecoveredAll(s + [x]) == RecoveredAll(s) + [NetworkRecordToRecovered(x)];
    }
  }

  /** It makes no difference whether records are sorted before they are converted or afterwards. */
  lemma {:induction false} SortingCommutes(s: seq<WireRecord>)
    ensures RecoveredAll(Sorted(s, SeqOfWire)) == Sorted(RecoveredAll(s), SeqOfRecord)
  {
    if s != [] {
      SortingCommutes(s[..|s| - 1]);
      InsertCommutes(Sorted(s[..|s| - 1], SeqOfWire), s[|s| - 1]);
      assert RecoveredAll(s)[..|s| - 1] == RecoveredAll(s[..|s| - 1]);
    }
  }

  /** Full activity comes back complete and in chain order, without errors. */
  lemma FullActivityIsOrdered(records: seq<WireRecord>, fetch: Bytes -> Fetched)
    ensures var r := Recovered(Full(records), fetch);
            && r.errors == [] && |r.records| == |records| && Ordered(r.records, SeqOfRecord)
            && multiset(r.records) == multiset(RecoveredAll(records))
  {
    SortingCommutes(records);
    SortedIsSorted(RecoveredAll(records), SeqOfRecord);
  }

  function PublishedAll(h: Hashing, chain: seq<Local>): (records: seq<WireRecord>)
    ensures |records| == |chain|
  {
    seq(|chain|, i requires 0 <= i < |chain| => BuildRecord(h, chain[i].action, chain[i].entry))
  }

  /** The published records of a chain, listed in full in any order, come back as the chain in its order. */
  lemma FullActivityReturnsTheChain(h: Hashing, chain: seq<Local>, records: seq<WireRecord>, fetch: Bytes -> Fetched)
    requires LocalChain(chain) && multiset(records) == multiset(PublishedAll(h, chain))
    ensures Recovered(Full(records), fetch) == Recovery(RepublishedAll(h, chain), [])
  {
    var published := PublishedAll(h, chain);
    forall i, j | 0 <= i < j < |published|
      ensures SeqOfWire(published[i]) < SeqOfWire(published[j])
    {
      RepublishedSeq(h, chain[i]);
      RepublishedSeq(h, chain[j]);
    }
    SortingForgetsOrder(records, published, SeqOfWire);
    assert RecoveredAll(published) == RepublishedAll(h, chain);
  }

  /** Publishing a chain, recovering it from full activity in any order and storing it in an empty store that refuses
      nothing gives the chain back, with the last action as the head. */
  lemma FullyListedChainComesBack(h: Hashing, chain: seq<Local>, records: seq<WireRecord>, fetch: Bytes -> Fetched,
                                  refuses: Bytes -> bool)
    requires MakesFullKeys(h) && LocalChain(chain) && multiset(records) == multiset(PublishedAll(h, chain))
    requires forall b :: !refuses(b)
    ensures var r := Recovered(Full(records), fetch);
            r.errors == [] && HoldsChain(StoredAll(NOTHING_STORED, r.records, refuses), chain, |chain|)
  {
    FullActivityReturnsTheChain(h, chain, records, fetch);
    assert RepublishedAll(h, chain)[..|chain|] == RepublishedAll(h, chain);
    StoringTheChain(h, chain, |chain|, refuses);
  }

  // ---------------------------------------------------------------- hashes, with failures

  function SeqOfError(e: RecoveryError): int {
    e.actionSeq
  }

  lemma {:induction false} FetchedMeaning(pairs: seq<(nat, Bytes)>, fetch: Bytes -> Fetched, r: RecoveredRecord)
    ensures r in FetchedRecords(pairs, fetch)
       <==> exists p :: p in pairs && fetch(p.1).Found? && NetworkRecordToRecovered(fetch(p.1).record) == r
  {
    if pairs != [] {
      FetchedMeaning(pairs[..|pairs| - 1], fetch, r);
      assert pairs == pairs[..|pairs| - 1] + [pairs[|pairs| - 1]];
    }
  }

  /** What the network's answer to a pair is reported as, if it is no record. */
  function ErrorOf(actionSeq: nat, answer: Fetched): Option<RecoveryError> {
    match answer
    case Found(_) => None
    case NotFound => Some(RecordNotFound(actionSeq))
    case Threw => Some(FetchFailed(actionSeq))
  }

  lemma {:induction false} ErrorsMeaning(pairs: seq<(nat, Bytes)>, fetch: Bytes -> Fetched, e: RecoveryError)
    ensures e in FetchErrors(pairs, fetch) <==> exists p :: p in pairs && ErrorOf(p.0, fetch(p.1)) == Some(e)
  {
    if pairs != [] {
      ErrorsMeaning(pairs[..|pairs| - 1], fetch, e);
      assert pairs == pairs[..|pairs| - 1] + [pairs[|pairs| - 1]];
    }
  }

  lemma {:induction false} ErrorsOrdered(pairs: seq<(nat, Bytes)>, fetch: Bytes -> Fetched)
    requires Ordered(pairs, SeqOfPair)
    ensures Ordered(FetchErrors(pairs, fetch), SeqOfError)
    ensures forall e :: e in FetchErrors(pairs, fetch) ==> e.actionSeq <= pairs[|pairs| - 1].0
  {
    if pairs != [] {
      var n := |pairs| - 1;
      ErrorsOrdered(pairs[..n], fetch);
      assert n > 0 ==> SeqOfPair(pairs[n - 1]) <= SeqOfPair(pairs[n]);
    }
  }

  /** From hashes: the records are those the network found, the errors those it did not find or failed on, each under
      the number of its pair and in chain order. */
  lemma HashesMeaning(pairs: seq<(nat, Bytes)>, fetch: Bytes -> Fetched)
    ensures var r := Recovered(Hashes(pairs), fetch);
            && (forall x :: x in r.records
                  <==> exists p :: p in pairs && fetch(p.1).Found? && NetworkRecordToRecovered(fetch(p.1).record) == x)
            && (forall e :: e in r.errors <==> exists p :: p in pairs && ErrorOf(p.0, fetch(p.1)) == Some(e))
            && Ordered(r.errors, SeqOfError)
  {
    var sorted := Sorted(pairs, SeqOfPair);
    SortedIsSorted(pairs, SeqOfPair);
    SameMembers(sorted, pairs);
    var found := FetchedRecords(sorted, fetch);
    SortedIsSorted(found, SeqOfRecord);
    SameMembers(Sorted(found, SeqOfRecord), found);
    AllFetched(sorted, pairs, fetch);
    AllErrors(sorted, pairs, fetch);
    ErrorsOrdered(sorted, fetch);
  }

  lemma AllFetched(sorted: seq<(nat, Bytes)>, pairs: seq<(nat, Bytes)>, fetch: Bytes -> Fetched)
    requires forall p :: p in sorted <==> p in pairs
    ensures forall x :: x in FetchedRecords(sorted, fetch)
              <==> exists p :: p in pairs && fetch(p.1).Found? && NetworkRecordToRecovered(fetch(p.1).record) == x
  {
    forall x
      ensures x in FetchedRecords(sorted, fetch)
         <==> exists p :: p in pairs && fetch(p.1).Found? && NetworkRecordToRecovered(fetch(p.1).record) == x
    {
      FetchedMeaning(sorted, fetch, x);
    }
  }

  lemma AllErrors(sorted: seq<(nat, Bytes)>, pairs: seq<(nat, Bytes)>, fetch: Bytes -> Fetched)
    requires forall p :: p in sorted <==> p in pairs
    ensures forall e :: e in FetchErrors(sorted, fetch)
              <==> exists p :: p in pairs && ErrorOf(p.0, fetch(p.1)) == Some(e)
  {
    forall e
      ensures e in FetchErrors(sorted, fetch) <==> exists p :: p in pairs && ErrorOf(p.0, fetch(p.1)) == Some(e)
    {
      ErrorsMeaning(sorted, fetch, e);
    }
  }

  lemma SameMembers<T>(a: seq<T>, b: seq<T>)
    requires multiset(a) == multiset(b)
    ensures forall x :: x in a <==> x in b
  {
    assert forall x :: x in a <==> x in multiset(a);
    assert forall x :: x in b <==> x in multiset(b);
  }

  // ---------------------------------------------------------------- storing, with refusals

  /** The last record that was stored to its end becomes the head; refused ones leave the head alone. */
  lemma {:induction false} HeadIsLastAccepted(s: Stored, records: seq<RecoveredRecord>, refuses: Bytes -> bool, i: nat)
    requires i < |records| && !Refused(records[i], refuses)
    requires forall j :: i < j < |records| ==> Refused(records[j], refuses)
    ensures StoredAll(s, records, refuses).head
         == Some(SourceChains.ChainHead(records[i].actionSeq, records[i].actionHash, records[i].timestamp))
  {
    if i < |records| - 1 {
      HeadIsLastAccepted(s, records[..|records| - 1], refuses, i);
    }
  }

  lemma {:induction false} HeadStays(s: Stored, records: seq<RecoveredRecord>, refuses: Bytes -> bool)
    requires forall j :: 0 <= j < |records| ==> Refused(records[j], refuses)
    ensures StoredAll(s, records, refuses).head == s.head
  {
    if records != [] {
      HeadStays(s, records[..|records| - 1], refuses);
    }
  }

  /** The last of the records with this action hash. */
  function LastWithAction(records: seq<RecoveredRecord>, hash: Bytes): (r: Option<RecoveredRecord>)
    ensures r.Some? ==> r.value.actionHash == hash
  {
    if records == [] then None
    else if records[|records| - 1].actionHash == hash then Some(records[|records| - 1])
    else LastWithAction(records[..|records| - 1], hash)
  }

  /** The entry of the last of the records that have one with this hash and whose action is not refused. */
  function LastEntry(records: seq<RecoveredRecord>, refuses: Bytes -> bool, hash: Bytes): (e: Option<StoredEntry>)
    ensures e.Some? ==> e.value.entryHash == hash
  {
    if records == [] then None
    else
      var last := records[|records| - 1];
      var entry := BuildStorageEntry(last);
      if !refuses(last.actionHash) && entry.Some? && entry.value.entryHash == hash then entry
      else LastEntry(records[..|records| - 1], refuses, hash)
  }

  function At<V>(m: map<Bytes, V>, hash: Bytes): Option<V> {
    if hash in m then Some(m[hash]) else None
  }

  /** Under an action hash the store has the last record with it, unless it refuses the hash. */
  lemma {:induction false} ActionStored(s: Stored, records: seq<RecoveredRecord>, refuses: Bytes -> bool, hash: Bytes)
    ensures At(StoredAll(s, records, refuses).actions, hash)
         == if refuses(hash) || LastWithAction(records, hash).None? then At(s.actions, hash)
            else Some(BuildStorageAction(LastWithAction(records, hash).value))
  {
    if records != [] {
      ActionStored(s, records[..|records| - 1], refuses, hash);
    }
  }

  /** Under an entry hash it has the entry of the last such record whose action it took, unless it refuses the hash. */
  lemma {:induction false} EntryStored(s: Stored, records: seq<RecoveredRecord>, refuses: Bytes -> bool, hash: Bytes)
    ensures At(StoredAll(s, records, refuses).entries, hash)
         == if refuses(hash) || LastEntry(records, refuses, hash).None? then At(s.entries, hash)
            else LastEntry(records, refuses, hash)
  {
    if records != [] {
      EntryStored(s, records[..|records| - 1], refuses, hash);
    }
  }
}
