/** What the source chain store keeps and what its reads answer, in terms of the operations that were asked for: the
    last write of a hash counts, a link is deleted by the last deletion of its hash, a typed read is of that type. */
module SourceChainReads {
  import opened ByteTypes
  import opened ChainTypes
  import opened OrderedMaps
  import opened Sequences
  import opened SourceChains
  import opened SourceChainAgreement
  import opened Wrappers

  // ---------------------------------------------------------------- the last write

  datatype Subject =
    TheAction(hash: Bytes) | TheEntry(hash: Bytes) | TheLink(hash: Bytes) | TheDeletion(hash: Bytes) | TheHead

  function SubjectOf(op: Op): Subject {
    match op
    case PutAction(a) => TheAction(a.actionHash)
    case PutEntry(e) => TheEntry(e.entryHash)
    case PutLink(l) => TheLink(l.createLinkHash)
    case DeleteLink(h, _) => TheDeletion(h)
    case UpdateChainHead(_) => TheHead
  }

  function LastWrite(ops: seq<Op>, subject: Subject): (op: Option<Op>)
    ensures op.Some? ==> SubjectOf(op.value) == subject
  {
    if ops == [] then None
    else if SubjectOf(ops[|ops| - 1]) == subject then Some(ops[|ops| - 1])
    else LastWrite(ops[..|ops| - 1], subject)
  }

  // ---------------------------------------------------------------- what should be there after the operations

  function ActionWritten(db: Db, ops: seq<Op>, hash: Bytes): Option<Action> {
    var put := LastWrite(ops, TheAction(hash));
    if put.Some? then Some(put.value.action)
    else if hash in db.actions then Some(StorableToAction(db.actions[hash])) else None
  }

  function EntryWritten(db: Db, ops: seq<Op>, hash: Bytes): Option<StoredEntry> {
    var put := LastWrite(ops, TheEntry(hash));
    if put.Some? then Some(put.value.entry) else if hash in db.entries then Some(db.entries[hash]) else None
  }

  function LinkPut(db: Db, ops: seq<Op>, hash: Bytes): Option<Link> {
    var put := LastWrite(ops, TheLink(hash));
    if put.Some? then Some(put.value.link) else if hash in db.links then Some(db.links[hash]) else None
  }

  /** A commit stores the links before it deletes any, so it does not matter which of the two was asked for first. */
  function LinkWritten(db: Db, ops: seq<Op>, hash: Bytes): Option<Link> {
    var link, deletion := LinkPut(db, ops, hash), LastWrite(ops, TheDeletion(hash));
    if link.Some? && deletion.Some?
    then Some(link.value.(deleted := true, deleteHash := Some(deletion.value.deleteHash))) else link
  }

  function HeadWritten(db: Db, ops: seq<Op>): Option<ChainHead> {
    var update := LastWrite(ops, TheHead);
    if update.Some? then Some(update.value.head) else db.head
  }

  // ---------------------------------------------------------------- what a commit stores

  function Stored<V>(store: map<Bytes, V>, hash: Bytes): Option<V> {
    if hash in store then Some(store[hash]) else None
  }

  lemma PutActionsAppend(actions: map<Bytes, StorableAction>, puts: seq<Action>, a: Action)
    ensures PutActions(actions, puts + [a]) == PutActions(actions, puts)[a.actionHash := Storable(a)]
  {
    assert (puts + [a])[..|puts|] == puts;
  }

  lemma PutEntriesAppend(entries: map<Bytes, StoredEntry>, puts: seq<StoredEntry>, e: StoredEntry)
    ensures PutEntries(entries, puts + [e]) == PutEntries(entries, puts)[e.entryHash := e]
  {
    assert (puts + [e])[..|puts|] == puts;
  }

  lemma PutLinksAppend(links: map<Bytes, Link>, puts: seq<Link>, l: Link)
    ensures PutLinks(links, puts + [l]) == PutLinks(links, puts)[l.createLinkHash := l]
  {
    assert (puts + [l])[..|puts|] == puts;
  }

  lemma MarkAllAppend(links: map<Bytes, Link>, deletes: seq<(Bytes, Bytes)>, hash: Bytes, deleteHash: Bytes)
    ensures MarkAll(links, deletes + [(hash, deleteHash)]) == MarkInDb(MarkAll(links, deletes), hash, deleteHash)
  {
    assert (deletes + [(hash, deleteHash)])[..|deletes|] == deletes;
  }

  lemma {:induction false} ActionsStored(db: Db, ops: seq<Op>, hash: Bytes)
    ensures var stored := Stored(PutActions(db.actions, TxOf(ops).actions), hash);
            ActionWritten(db, ops, hash) == if stored.Some? then Some(StorableToAction(stored.value)) else None
  {
    if ops != [] {
      var front, op := ops[..|ops| - 1], ops[|ops| - 1];
      ActionsStored(db, front, hash);
      if op.PutAction? {
        PutActionsAppend(db.actions, TxOf(front).actions, op.action);
        ActionSurvivesStorage(op.action);
      } else {
        assert TxOf(ops).actions == TxOf(front).actions;
      }
    }
  }

  lemma {:induction false} EntriesStored(db: Db, ops: seq<Op>, hash: Bytes)
    ensures EntryWritten(db, ops, hash) == Stored(PutEntries(db.entries, TxOf(ops).entries), hash)
  {
    if ops != [] {
      var front, op := ops[..|ops| - 1], ops[|ops| - 1];
      EntriesStored(db, front, hash);
      if op.PutEntry? {
        PutEntriesAppend(db.entries, TxOf(front).entries, op.entry);
      } else {
        assert TxOf(ops).entries == TxOf(front).entries;
      }
    }
  }

  lemma {:induction false} DeletesOf(ops: seq<Op>, hash: Bytes)
    ensures LastDelete(TxOf(ops).linkDeletes, hash)
         == match LastWrite(ops, TheDeletion(hash)) { case Some(op) => Some(op.deleteHash) case None => None }
  {
    if ops != [] {
      var front, op := ops[..|ops| - 1], ops[|ops| - 1];
      DeletesOf(front, hash);
      if op.DeleteLink? {
        var deletes := TxOf(front).linkDeletes;
        assert (deletes + [(op.createLinkHash, op.deleteHash)])[..|deletes|] == deletes;
      }
    }
  }

  lemma LinkStored(links: map<Bytes, Link>, puts: seq<Link>, l: Link, hash: Bytes)
    ensures Stored(PutLinks(links, puts + [l]), hash)
         == if l.createLinkHash == hash then Some(l) else Stored(PutLinks(links, puts), hash)
  {
    PutLinksAppend(links, puts, l);
  }

  lemma {:induction false} LinksPutStored(db: Db, ops: seq<Op>, hash: Bytes)
    ensures LinkPut(db, ops, hash) == Stored(PutLinks(db.links, TxOf(ops).links), hash)
  {
    if ops != [] {
      var front, op := ops[..|ops| - 1], ops[|ops| - 1];
      LinksPutStored(db, front, hash);
      if op.PutLink? {
        LinkStored(db.links, TxOf(front).links, op.link, hash);
        assert TxOf(ops).links == TxOf(front).links + [op.link];
      } else {
        assert TxOf(ops).links == TxOf(front).links;
      }
    }
  }

  lemma {:induction false} MarkedStored(links: map<Bytes, Link>, deletes: seq<(Bytes, Bytes)>, hash: Bytes)
    ensures Stored(MarkAll(links, deletes), hash)
         == if hash !in links then None
            else if LastDelete(deletes, hash).None? then Some(links[hash])
            else Some(links[hash].(deleted := true, deleteHash := LastDelete(deletes, hash)))
  {
    if deletes != [] {
      MarkedStored(links, deletes[..|deletes| - 1], hash);
    }
  }

  /** Committing any operations: of every hash the last write is stored, every link is deleted by the last deletion of
      its hash, nothing else has changed. */
  lemma CommitStoresLastWrites(db: Db, ops: seq<Op>, hash: Bytes)
    ensures var d := Overlaid(db, TxOf(ops));
            && (hash in d.actions <==> ActionWritten(db, ops, hash).Some?)
            && (hash in d.actions ==> StorableToAction(d.actions[hash]) == ActionWritten(db, ops, hash).value)
            && Stored(d.entries, hash) == EntryWritten(db, ops, hash)
            && Stored(d.links, hash) == LinkWritten(db, ops, hash)
            && d.head == HeadWritten(db, ops)
  {
    ActionsStored(db, ops, hash);
    EntriesStored(db, ops, hash);
    LinksPutStored(db, ops, hash);
    DeletesOf(ops, hash);
    MarkedStored(PutLinks(db.links, TxOf(ops).links), TxOf(ops).linkDeletes, hash);
    HeadStored(ops);
  }

  lemma {:induction false} HeadStored(ops: seq<Op>)
    ensures TxOf(ops).head
         == match LastWrite(ops, TheHead) { case Some(op) => Some(op.head) case None => None }
  {
    if ops != [] {
      HeadStored(ops[..|ops| - 1]);
    }
  }

  /** A write outside a transaction stores what a transaction of this one write stores. */
  lemma DirectWriteIsACommit(db: Db, op: Op)
    ensures DirectDb(db, op) == Overlaid(db, TxOf([op]))
    ensures DirectOk(db, op) <==> AcceptsAll(db.actions, TxOf([op]).actions)
  {
    assert [op][..0] == [];
    assert TxOf([op]) == TxAfter(TxOf([]), op) == TxAfter(NO_TX, op);
    OneWrite(db, op);
    AcceptedAlone(db, op);
  }

  lemma OneWrite(db: Db, op: Op)
    ensures DirectDb(db, op) == Overlaid(db, TxAfter(NO_TX, op))
  {
    match op
    case PutAction(a) => OneAction(db, a);
    case PutEntry(e) => OneEntry(db, e);
    case PutLink(l) => OneLink(db, l);
    case DeleteLink(h, d) => OneDeletion(db, h, d);
    case UpdateChainHead(_) =>
  }

  lemma AcceptedAlone(db: Db, op: Op)
    ensures DirectOk(db, op) <==> AcceptsAll(db.actions, TxAfter(NO_TX, op).actions)
  {
    if op.PutAction? {
      assert [op.action][..0] == [];
      assert AcceptsAll(db.actions, []);
    }
  }

  lemma OneAction(db: Db, a: Action)
    ensures Overlaid(db, TxAfter(NO_TX, Op.PutAction(a))).actions == db.actions[a.actionHash := Storable(a)]
  {
    PutActionsAppend(db.actions, [], a);
    assert [] + [a] == [a];
  }

  lemma OneEntry(db: Db, e: StoredEntry)
    ensures Overlaid(db, TxAfter(NO_TX, Op.PutEntry(e))).entries == db.entries[e.entryHash := e]
  {
    PutEntriesAppend(db.entries, [], e);
    assert [] + [e] == [e];
  }

  lemma OneLink(db: Db, l: Link)
    ensures Overlaid(db, TxAfter(NO_TX, Op.PutLink(l))).links == db.links[l.createLinkHash := l]
  {
    PutLinksAppend(db.links, [], l);
    assert [] + [l] == [l];
  }

  lemma OneDeletion(db: Db, hash: Bytes, deleteHash: Bytes)
    ensures Overlaid(db, TxAfter(NO_TX, Op.DeleteLink(hash, deleteHash))).links == MarkInDb(db.links, hash, deleteHash)
  {
    MarkAllAppend(db.links, [], hash, deleteHash);
    assert [] + [(hash, deleteHash)] == [(hash, deleteHash)];
  }

  // ---------------------------------------------------------------- what the reads answer

  lemma {:induction false} FilterDistinct<T(!new)>(s: seq<T>, keep: T -> bool)
    requires Distinct(s)
    ensures Distinct(Filter(s, keep))
  {
    if s != [] {
      FilterDistinct(s[1..], keep);
      assert s[0] !in s[1..];
    }
  }

  /** A link is read, once, exactly if it is stored, its base is the one asked for, and so is its type if one is. */
  lemma LinkReadMeaning(c: Cache, db: Db, base: Bytes, linkType: Option<nat>, l: Link)
    requires Shows(c, db)
    ensures l in GetLinks(c, base, linkType)
       <==> Stored(db.links, l.createLinkHash) == Some(l) && l.baseAddress == base
            && (linkType.Some? ==> l.linkType == linkType.value)
    ensures Distinct(GetLinks(c, base, linkType))
  {
    ListedLinks(c.links, db.links, base);
    assert l in ListAt(c.links, base) <==> l in Elements(ListAt(c.links, base));
    UniqueIsDistinct(ListAt(c.links, base));
    if linkType.Some? {
      FilterDistinct(ListAt(c.links, base), (l: Link) => l.linkType == linkType.value);
    }
  }

  /** The other reads: the stored action as it was put, the stored entry, the stored head. */
  lemma ReadMeaning(c: Cache, db: Db, hash: Bytes)
    requires Shows(c, db)
    ensures hash in db.actions <==> GetAction(c, hash).Some?
    ensures hash in db.actions ==> GetAction(c, hash) == Some(StorableToAction(db.actions[hash]))
    ensures GetEntry(c, hash) == Stored(db.entries, hash)
    ensures GetChainHead(c) == Some(db.head)
  {
    assert hash in c.actions.vals <==> hash in db.actions;
  }

  /** At every point of a transaction every read answers with the last writes: its own, or what the database had. */
  lemma ReadsSeeLastWrites(db: Db, c: Cache, ops: seq<Op>, hash: Bytes)
    requires Shows(c, db) && PuttableLinks(db, ops)
    ensures GetAction(CacheOf(c, ops), hash) == ActionWritten(db, ops, hash)
    ensures GetEntry(CacheOf(c, ops), hash) == EntryWritten(db, ops, hash)
    ensures GetChainHead(CacheOf(c, ops)) == Some(HeadWritten(db, ops))
  {
    OpsShow(db, c, ops);
    CommitStoresLastWrites(db, ops, hash);
    ReadMeaning(CacheOf(c, ops), Overlaid(db, TxOf(ops)), hash);
  }

  lemma LinkReadsSeeLastWrites(db: Db, c: Cache, ops: seq<Op>, base: Bytes, linkType: Option<nat>, l: Link)
    requires Shows(c, db) && PuttableLinks(db, ops)
    ensures l in GetLinks(CacheOf(c, ops), base, linkType)
       <==> LinkWritten(db, ops, l.createLinkHash) == Some(l) && l.baseAddress == base
            && (linkType.Some? ==> l.linkType == linkType.value)
    ensures Distinct(GetLinks(CacheOf(c, ops), base, linkType))
  {
    OpsShow(db, c, ops);
    CommitStoresLastWrites(db, ops, l.createLinkHash);
    LinkReadMeaning(CacheOf(c, ops), Overlaid(db, TxOf(ops)), base, linkType, l);
  }

  // ---------------------------------------------------------------- sequence numbers

  /** No two stored actions have the same sequence number. */
  ghost predicate Numbered(actions: map<Bytes, StorableAction>) {
    forall h, k :: h in actions && k in actions && actions[h].actionSeq == actions[k].actionSeq ==> h == k
  }

  /** A put is accepted if and only if the numbers stay unique. */
  lemma AcceptedIffNumbered(actions: map<Bytes, StorableAction>, a: Action)
    requires Numbered(actions)
    ensures Accepts(actions, a) <==> Numbered(actions[a.actionHash := Storable(a)])
  {
    var actions' := actions[a.actionHash := Storable(a)];
    if Numbered(actions') {
      forall k | k in actions && k != a.actionHash
        ensures actions[k].actionSeq != a.actionSeq
      {
        assert actions'[k] == actions[k] && actions'[a.actionHash].actionSeq == a.actionSeq;
      }
    }
  }

  ghost predicate NumberedUpTo(actions: map<Bytes, StorableAction>, puts: seq<Action>, n: nat)
    requires n <= |puts|
  {
    forall i :: 0 <= i <= n ==> Numbered(PutActions(actions, puts[..i]))
  }

  /** A commit is accepted if and only if the numbers stay unique at every one of its puts. */
  lemma {:induction false} CommitAcceptedIffNumbered(actions: map<Bytes, StorableAction>, puts: seq<Action>, n: nat)
    requires Numbered(actions) && n <= |puts|
    ensures AcceptsAll(actions, puts[..n]) <==> NumberedUpTo(actions, puts, n)
  {
    if n > 0 {
      CommitAcceptedIffNumbered(actions, puts, n - 1);
      assert puts[..n][..n - 1] == puts[..n - 1];
      if Numbered(PutActions(actions, puts[..n - 1])) {
        AcceptedIffNumbered(PutActions(actions, puts[..n - 1]), puts[n - 1]);
      }
      NumberedOneMore(actions, puts, n);
    }
  }

  lemma NumberedOneMore(actions: map<Bytes, StorableAction>, puts: seq<Action>, n: nat)
    requires 0 < n <= |puts|
    ensures NumberedUpTo(actions, puts, n)
       <==> NumberedUpTo(actions, puts, n - 1) && Numbered(PutActions(actions, puts[..n]))
  {
    assert NumberedUpTo(actions, puts, n - 1) ==> forall i :: 0 <= i < n ==> Numbered(PutActions(actions, puts[..i]));
  }
}
