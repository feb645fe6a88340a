/** The source chain storage (`SourceChainStorage`) for one cell: the database, the buffers of a pending transaction,
    and the session cache that answers synchronous reads. */
module SourceChains {
  import opened ByteTypes
  import opened ChainTypes
  import opened OrderedMaps
  import opened Sequences
  import opened Wrappers

  datatype EntryKind = App(entryType: AppEntryType) | Agent | CapClaim | CapGrant
  datatype StoredEntry = StoredEntry(entryHash: Bytes, entryContent: Bytes, entryType: EntryKind)
  datatype Link = Link(createLinkHash: Bytes, baseAddress: Bytes, targetAddress: Bytes, linkType: nat, rest: string,
                       deleted: bool, deleteHash: Option<Bytes>)
  datatype ChainHead = ChainHead(actionSeq: nat, actionHash: Bytes, timestamp: int)

  /** The object stores, each keyed by its hash; the chain head store has one record for the cell, or none. */
  datatype Db = Db(actions: map<Bytes, StorableAction>, entries: map<Bytes, StoredEntry>, links: map<Bytes, Link>,
                   head: Option<ChainHead>)

  /** The buffers of a pending transaction. */
  datatype Tx = Tx(actions: seq<Action>, entries: seq<StoredEntry>, links: seq<Link>, linkDeletes: seq<(Bytes, Bytes)>,
                   head: Option<ChainHead>)

  /** The session cache. `head` is None while nothing is cached for the cell; `Some(None)` says the cell is new. */
  datatype Cache = Cache(actions: OrderedMap<Bytes, Action>, entries: map<Bytes, StoredEntry>,
                         links: OrderedMap<Bytes, seq<Link>>, head: Option<Option<ChainHead>>)

  const NO_TX := Tx([], [], [], [], None)
  const NO_CACHE := Cache(OrderedMap([], map[]), map[], OrderedMap([], map[]), None)

  // ---------------------------------------------------------------- the session cache

  ghost predicate CacheValid(c: Cache) {
    c.actions.Valid() && c.links.Valid()
  }

  predicate HasLink(links: seq<Link>, hash: Bytes) {
    exists i :: 0 <= i < |links| && links[i].createLinkHash == hash
  }

  function Marked(l: Link, deleteHash: Bytes): Link {
    l.(deleted := true, deleteHash := Some(deleteHash))
  }

  /** `findIndex` and overwrite: the first link with the hash is marked deleted. */
  function MarkFirst(links: seq<Link>, hash: Bytes, deleteHash: Bytes): (r: seq<Link>)
    ensures |r| == |links|
  {
    if links == [] then []
    else if links[0].createLinkHash == hash then [Marked(links[0], deleteHash)] + links[1..]
    else [links[0]] + MarkFirst(links[1..], hash, deleteHash)
  }

  /** `updateLinkDeletedInCache`: in the first list, by order of the map, that has the hash. */
  function MarkedInCache(m: OrderedMap<Bytes, seq<Link>>, keys: seq<Bytes>, hash: Bytes, deleteHash: Bytes)
    : (r: OrderedMap<Bytes, seq<Link>>)
    requires m.Valid() && forall k :: k in keys ==> k in m.vals
    ensures r.Valid()
    decreases |keys|
  {
    if keys == [] then m
    else if HasLink(m.vals[keys[0]], hash) then m.Set(keys[0], MarkFirst(m.vals[keys[0]], hash, deleteHash))
    else MarkedInCache(m, keys[1..], hash, deleteHash)
  }

  function ListAt(m: OrderedMap<Bytes, seq<Link>>, base: Bytes): seq<Link> {
    if base in m.vals then m.vals[base] else []
  }

  lemma KeysAreThere<V>(m: OrderedMap<Bytes, V>)
    requires m.Valid()
    ensures forall k :: k in m.order ==> k in m.vals
  {
    assert forall k :: k in m.order ==> k in Elements(m.order);
  }

  /** What an operation inside a transaction does to the cache. */
  datatype Op =
    | PutAction(action: Action)
    | PutEntry(entry: StoredEntry)
    | PutLink(link: Link)
    | DeleteLink(createLinkHash: Bytes, deleteHash: Bytes)
    | UpdateChainHead(head: ChainHead)

  function CacheAfter(c: Cache, op: Op): (c': Cache)
    requires CacheValid(c)
    ensures CacheValid(c')
  {
    match op
    case PutAction(a) => c.(actions := c.actions.Set(a.actionHash, a))
    case PutEntry(e) => c.(entries := c.entries[e.entryHash := e])
    case PutLink(l) => c.(links := c.links.Set(l.baseAddress, ListAt(c.links, l.baseAddress) + [l]))
    case DeleteLink(h, d) =>
      KeysAreThere(c.links);
      c.(links := MarkedInCache(c.links, c.links.order, h, d))
    case UpdateChainHead(head) => c.(head := Some(Some(head)))
  }

  function TxAfter(tx: Tx, op: Op): Tx {
    match op
    case PutAction(a) => tx.(actions := tx.actions + [a])
    case PutEntry(e) => tx.(entries := tx.entries + [e])
    case PutLink(l) => tx.(links := tx.links + [l])
    case DeleteLink(h, d) => tx.(linkDeletes := tx.linkDeletes + [(h, d)])
    case UpdateChainHead(head) => tx.(head := Some(head))
  }

  // ---------------------------------------------------------------- writes outside a transaction

  function FirstIndex(links: seq<Link>, hash: Bytes): (i: nat)
    ensures i <= |links|
  {
    if links == [] || links[0].createLinkHash == hash then 0 else 1 + FirstIndex(links[1..], hash)
  }

  /** The first link with the same hash is overwritten, or the link is appended. */
  function Replaced(links: seq<Link>, l: Link): seq<Link> {
    var i := FirstIndex(links, l.createLinkHash);
    if i < |links| then links[i := l] else links + [l]
  }

  /** The database refuses only an action whose sequence number belongs to another one. */
  predicate DirectOk(db: Db, op: Op) {
    op.PutAction? ==> Accepts(db.actions, op.action)
  }

  function DirectDb(db: Db, op: Op): Db {
    match op
    case PutAction(a) => db.(actions := db.actions[a.actionHash := Storable(a)])
    case PutEntry(e) => db.(entries := db.entries[e.entryHash := e])
    case PutLink(l) => db.(links := db.links[l.createLinkHash := l])
    case DeleteLink(h, d) => db.(links := MarkInDb(db.links, h, d))
    case UpdateChainHead(head) => db.(head := Some(head))
  }

  function DirectCache(c: Cache, db: Db, op: Op): (c': Cache)
    requires CacheValid(c)
    ensures CacheValid(c')
  {
    match op
    case PutLink(l) => c.(links := c.links.Set(l.baseAddress, Replaced(ListAt(c.links, l.baseAddress), l)))
    case DeleteLink(h, d) => if h in db.links then CacheAfter(c, op) else c
    case _ => CacheAfter(c, op)
  }

  // ---------------------------------------------------------------- commit

  function PutActions(actions: map<Bytes, StorableAction>, puts: seq<Action>): map<Bytes, StorableAction> {
    if puts == [] then actions
    else PutActions(actions, puts[..|puts| - 1])[puts[|puts| - 1].actionHash := Storable(puts[|puts| - 1])]
  }

  function PutEntries(entries: map<Bytes, StoredEntry>, puts: seq<StoredEntry>): map<Bytes, StoredEntry> {
    if puts == [] then entries
    else PutEntries(entries, puts[..|puts| - 1])[puts[|puts| - 1].entryHash := puts[|puts| - 1]]
  }

  function PutLinks(links: map<Bytes, Link>, puts: seq<Link>): map<Bytes, Link> {
    if puts == [] then links
    else PutLinks(links, puts[..|puts| - 1])[puts[|puts| - 1].createLinkHash := puts[|puts| - 1]]
  }

  function MarkInDb(links: map<Bytes, Link>, hash: Bytes, deleteHash: Bytes): map<Bytes, Link> {
    if hash in links then links[hash := Marked(links[hash], deleteHash)] else links
  }

  function MarkAll(links: map<Bytes, Link>, deletes: seq<(Bytes, Bytes)>): map<Bytes, Link> {
    if deletes == [] then links
    else MarkInDb(MarkAll(links, deletes[..|deletes| - 1]), deletes[|deletes| - 1].0, deletes[|deletes| - 1].1)
  }

  /** The index on the sequence number is unique: a record may replace its own predecessor, but no other record may have
      its number. */
  predicate Accepts(actions: map<Bytes, StorableAction>, a: Action) {
    forall k :: k in actions && k != a.actionHash ==> actions[k].actionSeq != a.actionSeq
  }

  /** Each action is accepted beside the ones before it. */
  ghost predicate AcceptsAll(actions: map<Bytes, StorableAction>, puts: seq<Action>) {
    puts == []
    || (AcceptsAll(actions, puts[..|puts| - 1])
        && Accepts(PutActions(actions, puts[..|puts| - 1]), puts[|puts| - 1]))
  }

  lemma {:induction false} PrefixIsAccepted(actions: map<Bytes, StorableAction>, puts: seq<Action>, n: nat)
    requires n <= |puts| && AcceptsAll(actions, puts)
    ensures AcceptsAll(actions, puts[..n])
    decreases |puts|
  {
    if n == |puts| {
      assert puts[..n] == puts;
    } else {
      PrefixIsAccepted(actions, puts[..|puts| - 1], n);
      assert puts[..|puts| - 1][..n] == puts[..n];
    }
  }

  /** The database with everything a transaction has buffered. */
  function Overlaid(db: Db, tx: Tx): Db {
    Db(PutActions(db.actions, tx.actions), PutEntries(db.entries, tx.entries),
       MarkAll(PutLinks(db.links, tx.links), tx.linkDeletes), if tx.head.Some? then tx.head else db.head)
  }

  /** A failed commit clears three of the four caches. */
  function CacheAfterAbort(c: Cache): Cache {
    NO_CACHE.(head := c.head)
  }

  // ---------------------------------------------------------------- preload

  function LoadActions(m: OrderedMap<Bytes, Action>, records: seq<StorableAction>): (r: OrderedMap<Bytes, Action>)
    requires m.Valid()
    ensures r.Valid()
    decreases |records|
  {
    if records == [] then m
    else
      var action := StorableToAction(records[0]);
      LoadActions(m.Set(action.actionHash, action), records[1..])
  }

  function GroupLinks(m: OrderedMap<Bytes, seq<Link>>, links: seq<Link>): (r: OrderedMap<Bytes, seq<Link>>)
    requires m.Valid()
    ensures r.Valid()
    decreases |links|
  {
    if links == [] then m
    else GroupLinks(m.Set(links[0].baseAddress, ListAt(m, links[0].baseAddress) + [links[0]]), links[1..])
  }

  /** `records` lists the values of a store, each record once, in some order. */
  ghost predicate Lists<V(!new)>(store: map<Bytes, V>, keys: seq<Bytes>, records: seq<V>) {
    && Distinct(keys) && |keys| == |records| && Elements(keys) == store.Keys
    && forall i :: 0 <= i < |keys| ==> keys[i] in store && records[i] == store[keys[i]]
  }

  /** `preloadChainForCell`, for the orders in which the database lists its records. */
  function Preloaded(c: Cache, db: Db, actions: seq<StorableAction>, links: seq<Link>): (r: Cache)
    requires CacheValid(c)
    ensures CacheValid(r)
  {
    Cache(LoadActions(c.actions, actions), c.entries + db.entries, GroupLinks(Empty(), links), Some(db.head))
  }

  // ---------------------------------------------------------------- the class

  class SourceChainStorage {
    var db: Db
    var pendingTransaction: Option<Tx>
    var sessionCache: Cache

    ghost predicate Valid()
      reads this
    {
      CacheValid(sessionCache)
    }

    constructor ()
      ensures Valid() && db == Db(map[], map[], map[], None) && pendingTransaction == None && sessionCache == NO_CACHE
    {
      db, pendingTransaction, sessionCache := Db(map[], map[], map[], None), None, NO_CACHE;
    }

    /** False: a transaction is already in progress, and nothing changes. */
    method BeginTransaction() returns (ok: bool)
      modifies this`pendingTransaction
      ensures ok == old(pendingTransaction).None?
      ensures pendingTransaction == if ok then Some(NO_TX) else old(pendingTransaction)
    {
      ok := pendingTransaction.None?;
      if ok {
        pendingTransaction := Some(NO_TX);
      }
    }

    /** `putAction`, `putEntry`, `putLink`, `deleteLink`, `updateChainHead`. Inside a transaction the change is buffered
        and shown in the session cache; outside it goes to the database first, which may refuse it. */
    method Apply(op: Op) returns (ok: bool)
      requires Valid()
      modifies this
      ensures Valid()
      ensures old(pendingTransaction).Some? ==>
                && ok && db == old(db)
                && pendingTransaction == Some(TxAfter(old(pendingTransaction).value, op))
                && sessionCache == CacheAfter(old(sessionCache), op)
      ensures old(pendingTransaction).None? ==>
                && ok == DirectOk(old(db), op) && pendingTransaction.None?
                && (ok ==> db == DirectDb(old(db), op) && sessionCache == DirectCache(old(sessionCache), old(db), op))
                && (!ok ==> db == old(db) && sessionCache == old(sessionCache))
    {
      ok := true;
      if pendingTransaction.Some? {
        ApplyInTransaction(op);
      } else {
        ok := ApplyDirectly(op);
      }
    }

    method ApplyInTransaction(op: Op)
      requires Valid() && pendingTransaction.Some?
      modifies this`pendingTransaction, this`sessionCache
      ensures Valid()
      ensures pendingTransaction == Some(TxAfter(old(pendingTransaction).value, op))
      ensures sessionCache == CacheAfter(old(sessionCache), op)
    {
      var tx, c := pendingTransaction.value, sessionCache;
      match op
      case PutAction(action) =>
        pendingTransaction := Some(tx.(actions := tx.actions + [action]));
        sessionCache := c.(actions := c.actions.Set(action.actionHash, action));
      case PutEntry(entry) =>
        pendingTransaction := Some(tx.(entries := tx.entries + [entry]));
        sessionCache := c.(entries := c.entries[entry.entryHash := entry]);
      case PutLink(link) =>
        pendingTransaction := Some(tx.(links := tx.links + [link]));
        var existing := if link.baseAddress in c.links.vals then c.links.vals[link.baseAddress] else [];
        sessionCache := c.(links := c.links.Set(link.baseAddress, existing + [link]));
      case DeleteLink(createLinkHash, deleteHash) =>
        pendingTransaction := Some(tx.(linkDeletes := tx.linkDeletes + [(createLinkHash, deleteHash)]));
        UpdateLinkDeletedInCache(createLinkHash, deleteHash);
      case UpdateChainHead(head) =>
        pendingTransaction := Some(tx.(head := Some(head)));
        sessionCache := c.(head := Some(Some(head)));
    }

    method ApplyDirectly(op: Op) returns (ok: bool)
      requires Valid()
      modifies this`db, this`sessionCache
      ensures Valid() && ok == DirectOk(old(db), op)
      ensures ok ==> db == DirectDb(old(db), op) && sessionCache == DirectCache(old(sessionCache), old(db), op)
      ensures !ok ==> db == old(db) && sessionCache == old(sessionCache)
    {
      ok := true;
      var c := sessionCache;
      match op
      case PutAction(action) =>
        if !Accepts(db.actions, action) {
          return false;
        }
        db := db.(actions := db.actions[action.actionHash := Storable(action)]);
        sessionCache := c.(actions := c.actions.Set(action.actionHash, action));
      case PutEntry(entry) =>
        db := db.(entries := db.entries[entry.entryHash := entry]);
        sessionCache := c.(entries := c.entries[entry.entryHash := entry]);
      case PutLink(link) =>
        db := db.(links := db.links[link.createLinkHash := link]);
        var existing := if link.baseAddress in c.links.vals then c.links.vals[link.baseAddress] else [];
        var existingIndex := FirstIndex(existing, link.createLinkHash);
        var list := if existingIndex < |existing| then existing[existingIndex := link] else existing + [link];
        sessionCache := c.(links := c.links.Set(link.baseAddress, list));
      case DeleteLink(createLinkHash, deleteHash) =>
        if createLinkHash in db.links {
          var link := db.links[createLinkHash].(deleted := true, deleteHash := Some(deleteHash));
          db := db.(links := db.links[createLinkHash := link]);
          UpdateLinkDeletedInCache(createLinkHash, deleteHash);
        }
      case UpdateChainHead(head) =>
        db := db.(head := Some(head));
        sessionCache := c.(head := Some(Some(head)));
    }

    method UpdateLinkDeletedInCache(createLinkHash: Bytes, deleteHash: Bytes)
      requires Valid()
      modifies this`sessionCache
      ensures Valid()
      ensures sessionCache == CacheAfter(old(sessionCache), Op.DeleteLink(createLinkHash, deleteHash))
    {
      var m := sessionCache.links;
      KeysAreThere(m);
      for n := 0 to |m.order|
        invariant sessionCache == old(sessionCache)
        invariant MarkedInCache(m, m.order, createLinkHash, deleteHash)
               == MarkedInCache(m, m.order[n..], createLinkHash, deleteHash)
      {
        assert m.order[n..][1..] == m.order[n + 1..];
        if HasLink(m.vals[m.order[n]], createLinkHash) {
          var marked := MarkFirst(m.vals[m.order[n]], createLinkHash, deleteHash);
          sessionCache := sessionCache.(links := m.Set(m.order[n], marked));
          return;
        }
      }
    }

    /** The action puts of a commit, up to the first one the database refuses. */
    method WriteActions(store: map<Bytes, StorableAction>, puts: seq<Action>)
      returns (ok: bool, actions: map<Bytes, StorableAction>)
      ensures ok <==> AcceptsAll(store, puts)
      ensures ok ==> actions == PutActions(store, puts)
    {
      actions := store;
      for n := 0 to |puts|
        invariant actions == PutActions(store, puts[..n])
        invariant AcceptsAll(store, puts[..n])
      {
        assert puts[..n + 1][..n] == puts[..n];
        if !Accepts(actions, puts[n]) {
          assert !AcceptsAll(store, puts[..n + 1]);
          if AcceptsAll(store, puts) {
            PrefixIsAccepted(store, puts, n + 1);
          }
          return false, actions;
        }
        actions := actions[puts[n].actionHash := Storable(puts[n])];
      }
      assert puts[..|puts|] == puts;
      ok := true;
    }

    method WriteEntries(store: map<Bytes, StoredEntry>, puts: seq<StoredEntry>)
      returns (entries: map<Bytes, StoredEntry>)
      ensures entries == PutEntries(store, puts)
    {
      entries := store;
      for n := 0 to |puts|
        invariant entries == PutEntries(store, puts[..n])
      {
        assert puts[..n + 1][..n] == puts[..n];
        entries := entries[puts[n].entryHash := puts[n]];
      }
      assert puts[..|puts|] == puts;
    }

    /** The link puts of a commit, and the deletes after them. */
    method WriteLinks(store: map<Bytes, Link>, puts: seq<Link>, deletes: seq<(Bytes, Bytes)>)
      returns (links: map<Bytes, Link>)
      ensures links == MarkAll(PutLinks(store, puts), deletes)
    {
      links := store;
      for n := 0 to |puts|
        invariant links == PutLinks(store, puts[..n])
      {
        assert puts[..n + 1][..n] == puts[..n];
        links := links[puts[n].createLinkHash := puts[n]];
      }
      assert puts[..|puts|] == puts;
      ghost var put := links;
      for n := 0 to |deletes|
        invariant links == MarkAll(put, deletes[..n])
      {
        assert deletes[..n + 1][..n] == deletes[..n];
        var (createLinkHash, deleteHash) := deletes[n];
        if createLinkHash in links {
          links := links[createLinkHash := links[createLinkHash].(deleted := true, deleteHash := Some(deleteHash))];
        }
      }
      assert deletes[..|deletes|] == deletes;
    }

    /** `commitTransaction`: one database transaction for all buffers. The database accepts it as a whole or, when an
        action would reuse a sequence number, aborts it as a whole. */
    method CommitTransaction() returns (committed: bool)
      requires Valid() && pendingTransaction.Some?
      modifies this
      ensures Valid() && pendingTransaction.None?
      ensures committed <==> AcceptsAll(old(db).actions, old(pendingTransaction).value.actions)
      ensures committed ==> db == Overlaid(old(db), old(pendingTransaction).value) && sessionCache == old(sessionCache)
      ensures !committed ==> db == old(db) && sessionCache == CacheAfterAbort(old(sessionCache))
    {
      var tx := pendingTransaction.value;
      pendingTransaction := None;
      var actions;
      committed, actions := WriteActions(db.actions, tx.actions);
      if committed {
        var entries := WriteEntries(db.entries, tx.entries);
        var links := WriteLinks(db.links, tx.links, tx.linkDeletes);
        db := Db(actions, entries, links, if tx.head.Some? then tx.head else db.head);
      } else {
        sessionCache := sessionCache.(actions := Empty(), entries := map[], links := Empty());
      }
    }

    method RollbackTransaction()
      requires pendingTransaction.Some?
      modifies this`pendingTransaction, this`sessionCache
      ensures Valid() && pendingTransaction.None? && sessionCache == NO_CACHE
    {
      pendingTransaction := None;
      sessionCache := Cache(Empty(), map[], Empty(), None);
    }

    /** `preloadChainForCell`. `actions` and `links` are the database's answers to its two listing queries. */
    method PreloadChainForCell(actionKeys: seq<Bytes>, actions: seq<StorableAction>, linkKeys: seq<Bytes>,
                               links: seq<Link>)
      requires Valid()
      requires Lists(db.actions, actionKeys, actions) && Lists(db.links, linkKeys, links)
      modifies this`sessionCache
      ensures Valid() && sessionCache == Preloaded(old(sessionCache), db, actions, links)
    {
      var c := sessionCache;
      var loaded := c.actions;
      for n := 0 to |actions|
        invariant loaded.Valid()
        invariant LoadActions(loaded, actions[n..]) == LoadActions(c.actions, actions)
      {
        assert actions[n..][1..] == actions[n + 1..];
        var action := StorableToAction(actions[n]);
        loaded := loaded.Set(action.actionHash, action);
      }
      var linksByBase: OrderedMap<Bytes, seq<Link>> := Empty();
      for n := 0 to |links|
        invariant linksByBase.Valid()
        invariant GroupLinks(linksByBase, links[n..]) == GroupLinks(Empty(), links)
      {
        assert links[n..][1..] == links[n + 1..];
        var baseKey := links[n].baseAddress;
        var existing := if baseKey in linksByBase.vals then linksByBase.vals[baseKey] else [];
        linksByBase := linksByBase.Set(baseKey, existing + [links[n]]);
      }
      sessionCache := Cache(loaded, c.entries + db.entries, linksByBase, Some(db.head));
    }
  }
}
