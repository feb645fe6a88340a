/** Commit, rollback and preload agree: what the session cache answers is what it would answer if it were emptied and
    loaded again from the database. */
module SourceChainAgreement {
  import opened ByteTypes
  import opened ChainTypes
  import opened OrderedMaps
  import opened Sequences
  import opened SourceChains
  import opened Wrappers

  // ---------------------------------------------------------------- reads

  function GetAction(c: Cache, hash: Bytes): Option<Action> {
    c.actions.Get(hash)
  }

  function GetEntry(c: Cache, hash: Bytes): Option<StoredEntry> {
    if hash in c.entries then Some(c.entries[hash]) else None
  }

  function GetLinks(c: Cache, base: Bytes, linkType: Option<nat>): seq<Link> {
    if linkType.None? then ListAt(c.links, base)
    else Filter(ListAt(c.links, base), (l: Link) => l.linkType == linkType.value)
  }

  /** None: not cached, the read falls back to the database. */
  function GetChainHead(c: Cache): Option<Option<ChainHead>> {
    c.head
  }

  /** Two caches answer alike; the links of a base may come in another order. */
  ghost predicate ReadsAgree(c: Cache, d: Cache) {
    && (forall h :: GetAction(c, h) == GetAction(d, h))
    && (forall h :: GetEntry(c, h) == GetEntry(d, h))
    && (forall b, t :: Elements(GetLinks(c, b, t)) == Elements(GetLinks(d, b, t)))
    && (forall b :: |GetLinks(c, b, None)| == |GetLinks(d, b, None)|)
    && GetChainHead(c) == GetChainHead(d)
  }

  // ---------------------------------------------------------------- a cache that shows a database

  ghost predicate DbValid(db: Db) {
    && (forall h :: h in db.actions ==> ToBytes(db.actions[h].actionHash) == h)
    && (forall h :: h in db.links ==> db.links[h].createLinkHash == h)
  }

  ghost predicate UniqueHashes(links: seq<Link>) {
    forall i, j :: 0 <= i < j < |links| ==> links[i].createLinkHash != links[j].createLinkHash
  }

  function At(lists: map<Bytes, seq<Link>>, base: Bytes): seq<Link> {
    if base in lists then lists[base] else []
  }

  /** Every list holds, once, exactly the stored links of its base. */
  ghost predicate Listed(lists: map<Bytes, seq<Link>>, links: map<Bytes, Link>) {
    EachOfBase(lists, links) && EachStored(lists, links)
  }

  ghost predicate EachOfBase(lists: map<Bytes, seq<Link>>, links: map<Bytes, Link>) {
    forall b :: b in lists ==> OfBase(b, lists[b], links)
  }

  ghost predicate EachStored(lists: map<Bytes, seq<Link>>, links: map<Bytes, Link>) {
    forall h :: h in links ==> links[h].createLinkHash == h && StoredAt(lists, links[h])
  }

  ghost predicate OfBase(base: Bytes, list: seq<Link>, links: map<Bytes, Link>) {
    UniqueHashes(list) && forall i :: 0 <= i < |list| ==> list[i].baseAddress == base && IsStored(list[i], links)
  }

  predicate StoredAt(lists: map<Bytes, seq<Link>>, l: Link) {
    l in At(lists, l.baseAddress)
  }

  predicate IsStored(l: Link, links: map<Bytes, Link>) {
    l.createLinkHash in links && links[l.createLinkHash] == l
  }

  ghost predicate LinksShow(m: OrderedMap<Bytes, seq<Link>>, links: map<Bytes, Link>) {
    m.Valid() && Listed(m.vals, links)
  }

  ghost predicate ActionsShow(vals: map<Bytes, Action>, actions: map<Bytes, StorableAction>) {
    vals.Keys == actions.Keys && forall h :: h in vals ==> vals[h] == StorableToAction(actions[h])
  }

  ghost predicate Shows(c: Cache, db: Db) {
    && CacheValid(c)
    && ActionsShow(c.actions.vals, db.actions)
    && c.entries == db.entries
    && LinksShow(c.links, db.links)
    && c.head == Some(db.head)
  }

  lemma {:induction false} UniqueIsDistinct(links: seq<Link>)
    requires UniqueHashes(links)
    ensures Distinct(links)
  {
  }

  lemma ListedLinks(m: OrderedMap<Bytes, seq<Link>>, links: map<Bytes, Link>, base: Bytes)
    requires LinksShow(m, links)
    ensures Elements(ListAt(m, base)) == set h | h in links && links[h].baseAddress == base :: links[h]
    ensures |ListAt(m, base)| == |Elements(ListAt(m, base))|
  {
    UniqueIsDistinct(ListAt(m, base));
    DistinctCount(ListAt(m, base));
  }

  lemma SameElements(a: seq<Link>, b: seq<Link>)
    ensures Elements(a) == Elements(b) ==> forall l :: l in a <==> l in b
  {
    assert forall l :: l in a <==> l in Elements(a);
    assert forall l :: l in b <==> l in Elements(b);
  }

  lemma SameLinks(c: Cache, d: Cache, links: map<Bytes, Link>, b: Bytes, t: Option<nat>)
    requires LinksShow(c.links, links) && LinksShow(d.links, links)
    ensures Elements(GetLinks(c, b, t)) == Elements(GetLinks(d, b, t))
    ensures |GetLinks(c, b, None)| == |GetLinks(d, b, None)|
  {
    ListedLinks(c.links, links, b);
    ListedLinks(d.links, links, b);
    SameElements(ListAt(c.links, b), ListAt(d.links, b));
  }

  /** Caches that show the same database answer alike. */
  lemma SameDbSameReads(c: Cache, d: Cache, db: Db)
    requires Shows(c, db) && Shows(d, db)
    ensures ReadsAgree(c, d)
  {
    forall h
      ensures GetAction(c, h) == GetAction(d, h)
    {
      assert h in c.actions.vals <==> h in d.actions.vals;
    }
    forall b, t
      ensures Elements(GetLinks(c, b, t)) == Elements(GetLinks(d, b, t))
      ensures |GetLinks(c, b, None)| == |GetLinks(d, b, None)|
    {
      SameLinks(c, d, db.links, b, t);
    }
  }

  // ---------------------------------------------------------------- link steps

  /** Adding a link with a new hash to the list of its base. */
  lemma AddLinkListed(lists: map<Bytes, seq<Link>>, links: map<Bytes, Link>, l: Link)
    requires Listed(lists, links) && l.createLinkHash !in links
    ensures Listed(lists[l.baseAddress := At(lists, l.baseAddress) + [l]], links[l.createLinkHash := l])
  {
    AddOfBase(lists, links, l);
    AddStored(lists, links, l);
  }

  lemma AddOfBase(lists: map<Bytes, seq<Link>>, links: map<Bytes, Link>, l: Link)
    requires EachOfBase(lists, links) && l.createLinkHash !in links
    ensures EachOfBase(lists[l.baseAddress := At(lists, l.baseAddress) + [l]], links[l.createLinkHash := l])
  {
    var lists' := lists[l.baseAddress := At(lists, l.baseAddress) + [l]];
    forall b | b in lists'
      ensures OfBase(b, lists'[b], links[l.createLinkHash := l])
    {
      AppendOfBase(b, At(lists, b), links, l);
    }
  }

  lemma AddStored(lists: map<Bytes, seq<Link>>, links: map<Bytes, Link>, l: Link)
    requires EachStored(lists, links) && l.createLinkHash !in links
    ensures EachStored(lists[l.baseAddress := At(lists, l.baseAddress) + [l]], links[l.createLinkHash := l])
  {
    var list := At(lists, l.baseAddress);
    var lists' := lists[l.baseAddress := list + [l]];
    assert StoredAt(lists', l) by {
      assert (list + [l])[|list|] == l;
    }
    forall h | h in links
      ensures StoredAt(lists', links[h])
    {
      StillAppended(At(lists, links[h].baseAddress), links[h], l);
    }
  }

  lemma AppendOfBase(base: Bytes, list: seq<Link>, links: map<Bytes, Link>, l: Link)
    requires OfBase(base, list, links) && l.createLinkHash !in links
    ensures OfBase(base, if base == l.baseAddress then list + [l] else list, links[l.createLinkHash := l])
  {
  }

  lemma StillAppended(list: seq<Link>, x: Link, l: Link)
    requires x in list
    ensures x in list + [l]
  {
  }

  lemma {:induction false} MarkFirstMeaning(links: seq<Link>, hash: Bytes, deleteHash: Bytes, i: nat)
    requires i < |links| && links[i].createLinkHash == hash
    requires forall j :: 0 <= j < i ==> links[j].createLinkHash != hash
    ensures MarkFirst(links, hash, deleteHash) == links[i := Marked(links[i], deleteHash)]
  {
    if i > 0 {
      MarkFirstMeaning(links[1..], hash, deleteHash, i - 1);
    }
  }

  /** The scan over the lists ends at the one list that has the hash, or finds none. */
  lemma {:induction false} ScanFinds(m: OrderedMap<Bytes, seq<Link>>, keys: seq<Bytes>, hash: Bytes, deleteHash: Bytes,
                                     base: Bytes)
    requires m.Valid() && forall k :: k in keys ==> k in m.vals
    requires forall k :: k in keys && HasLink(m.vals[k], hash) ==> k == base
    ensures if base in keys && HasLink(m.vals[base], hash)
            then MarkedInCache(m, keys, hash, deleteHash) == m.Set(base, MarkFirst(m.vals[base], hash, deleteHash))
            else MarkedInCache(m, keys, hash, deleteHash) == m
    decreases |keys|
  {
    if keys != [] && !HasLink(m.vals[keys[0]], hash) {
      assert keys == [keys[0]] + keys[1..];
      ScanFinds(m, keys[1..], hash, deleteHash, base);
    }
  }

  lemma MarkShows(m: OrderedMap<Bytes, seq<Link>>, links: map<Bytes, Link>, hash: Bytes, deleteHash: Bytes)
    requires LinksShow(m, links) && forall k :: k in m.order ==> k in m.vals
    ensures LinksShow(MarkedInCache(m, m.order, hash, deleteHash), MarkInDb(links, hash, deleteHash))
  {
    forall k | k in m.order && HasLink(m.vals[k], hash)
      ensures hash in links && k == links[hash].baseAddress
    {
      var i :| 0 <= i < |m.vals[k]| && m.vals[k][i].createLinkHash == hash;
      assert m.vals[k][i] in m.vals[k];
    }
    ScanFinds(m, m.order, hash, deleteHash, if hash in links then links[hash].baseAddress else []);
    if hash in links {
      var base := links[hash].baseAddress;
      var list := ListAt(m, base);
      assert links[hash] in list;
      var i :| 0 <= i < |list| && list[i] == links[hash];
      assert HasLink(list, hash);
      assert base in Elements(m.order);
      MarkFirstMeaning(list, hash, deleteHash, i);
      ReplaceOneListed(m.vals, links, Marked(links[hash], deleteHash), i);
    } else {
      assert forall k :: k in m.order ==> !HasLink(m.vals[k], hash);
    }
  }

  /** Replacing a link, in its list and in the store, by one with the same hash and base. */
  lemma ReplaceOneListed(lists: map<Bytes, seq<Link>>, links: map<Bytes, Link>, marked: Link, i: nat)
    requires Listed(lists, links) && marked.createLinkHash in links
    requires marked.baseAddress == links[marked.createLinkHash].baseAddress
    requires i < |At(lists, marked.baseAddress)| && At(lists, marked.baseAddress)[i] == links[marked.createLinkHash]
    ensures Listed(lists[marked.baseAddress := At(lists, marked.baseAddress)[i := marked]],
                   links[marked.createLinkHash := marked])
  {
    ReplaceOfBase(lists, links, marked, i);
    ReplaceStored(lists, links, marked, i);
  }

  lemma ReplaceOfBase(lists: map<Bytes, seq<Link>>, links: map<Bytes, Link>, marked: Link, i: nat)
    requires EachOfBase(lists, links) && EachStored(lists, links) && marked.createLinkHash in links
    requires marked.baseAddress == links[marked.createLinkHash].baseAddress
    requires i < |At(lists, marked.baseAddress)| && At(lists, marked.baseAddress)[i] == links[marked.createLinkHash]
    ensures EachOfBase(lists[marked.baseAddress := At(lists, marked.baseAddress)[i := marked]],
                       links[marked.createLinkHash := marked])
  {
    var lists' := lists[marked.baseAddress := At(lists, marked.baseAddress)[i := marked]];
    forall b | b in lists'
      ensures OfBase(b, lists'[b], links[marked.createLinkHash := marked])
    {
      MarkOfBase(b, At(lists, b), links, marked.createLinkHash, marked, i);
    }
  }

  lemma ReplaceStored(lists: map<Bytes, seq<Link>>, links: map<Bytes, Link>, marked: Link, i: nat)
    requires EachStored(lists, links) && marked.createLinkHash in links
    requires marked.baseAddress == links[marked.createLinkHash].baseAddress
    requires i < |At(lists, marked.baseAddress)| && At(lists, marked.baseAddress)[i] == links[marked.createLinkHash]
    ensures EachStored(lists[marked.baseAddress := At(lists, marked.baseAddress)[i := marked]],
                       links[marked.createLinkHash := marked])
  {
    var list := At(lists, marked.baseAddress);
    var lists' := lists[marked.baseAddress := list[i := marked]];
    assert StoredAt(lists', marked) by {
      assert list[i := marked][i] == marked;
    }
    forall h | h in links && h != marked.createLinkHash
      ensures StoredAt(lists', links[h])
    {
      StillListed(lists, links[h], marked.baseAddress, i, marked);
    }
  }

  lemma MarkOfBase(base: Bytes, list: seq<Link>, links: map<Bytes, Link>, hash: Bytes, marked: Link, i: nat)
    requires OfBase(base, list, links) && hash in links
    requires marked.createLinkHash == hash && marked.baseAddress == links[hash].baseAddress
    requires base == links[hash].baseAddress ==> i < |list| && list[i] == links[hash] && list[i].createLinkHash == hash
    ensures OfBase(base, if base == links[hash].baseAddress then list[i := marked] else list, links[hash := marked])
  {
  }

  lemma StillListed(lists: map<Bytes, seq<Link>>, l: Link, base: Bytes, i: nat, marked: Link)
    requires StoredAt(lists, l) && i < |At(lists, base)| && At(lists, base)[i] != l
    ensures StoredAt(lists[base := At(lists, base)[i := marked]], l)
  {
    if l.baseAddress == base {
      var list := At(lists, base);
      var j :| 0 <= j < |list| && list[j] == l;
      assert list[i := marked][j] == l;
    }
  }

  // ---------------------------------------------------------------- outside a transaction

  /** A direct write keeps a cache showing its database; a link may only be overwritten by one with the same base. */
  lemma DirectWriteShows(db: Db, c: Cache, op: Op)
    requires Shows(c, db)
    requires op.PutLink? && op.link.createLinkHash in db.links ==>
               op.link.baseAddress == db.links[op.link.createLinkHash].baseAddress
    ensures Shows(DirectCache(c, db, op), DirectDb(db, op))
  {
    match op
    case PutAction(a) => ActionSurvivesStorage(a);
    case PutEntry(e) =>
    case PutLink(l) => ReplacedShows(c.links, db.links, l);
    case DeleteLink(h, d) =>
      KeysAreThere(c.links);
      MarkShows(c.links, db.links, h, d);
    case UpdateChainHead(head) =>
  }

  lemma ReplacedShows(m: OrderedMap<Bytes, seq<Link>>, links: map<Bytes, Link>, l: Link)
    requires LinksShow(m, links)
    requires l.createLinkHash in links ==> l.baseAddress == links[l.createLinkHash].baseAddress
    ensures LinksShow(m.Set(l.baseAddress, Replaced(ListAt(m, l.baseAddress), l)), links[l.createLinkHash := l])
  {
    var list := At(m.vals, l.baseAddress);
    if l.createLinkHash in links {
      var i := PlaceOf(m.vals, links, l.createLinkHash);
      FirstIndexMeaning(list, l.createLinkHash, i);
      ReplaceOneListed(m.vals, links, l, i);
    } else {
      NotPlaced(m.vals, links, l);
      FirstIndexMeaning(list, l.createLinkHash, |list|);
      AddLinkListed(m.vals, links, l);
    }
  }

  lemma PlaceOf(lists: map<Bytes, seq<Link>>, links: map<Bytes, Link>, hash: Bytes) returns (i: nat)
    requires Listed(lists, links) && hash in links
    ensures var list := At(lists, links[hash].baseAddress);
            && i < |list| && list[i] == links[hash] && links[hash].createLinkHash == hash
            && forall j :: 0 <= j < i ==> list[j].createLinkHash != hash
  {
    var list := At(lists, links[hash].baseAddress);
    assert StoredAt(lists, links[hash]);
    i :| 0 <= i < |list| && list[i] == links[hash];
    assert OfBase(links[hash].baseAddress, list, links);
  }

  lemma NotPlaced(lists: map<Bytes, seq<Link>>, links: map<Bytes, Link>, l: Link)
    requires Listed(lists, links) && l.createLinkHash !in links
    ensures var list := At(lists, l.baseAddress);
            forall j :: 0 <= j < |list| ==> list[j].createLinkHash != l.createLinkHash
  {
    assert OfBase(l.baseAddress, At(lists, l.baseAddress), links);
  }

  lemma {:induction false} FirstIndexMeaning(list: seq<Link>, hash: Bytes, i: nat)
    requires i <= |list| && (i < |list| ==> list[i].createLinkHash == hash)
    requires forall j :: 0 <= j < i ==> list[j].createLinkHash != hash
    ensures FirstIndex(list, hash) == i
  {
    if i > 0 {
      FirstIndexMeaning(list[1..], hash, i - 1);
    }
  }

  // ---------------------------------------------------------------- a transaction

  /** A link hash that is new to the database and to the transaction, deletions included. */
  ghost predicate FreshLink(db: Db, tx: Tx, l: Link) {
    && l.createLinkHash !in Overlaid(db, tx).links
    && forall n :: 0 <= n < |tx.linkDeletes| ==> tx.linkDeletes[n].0 != l.createLinkHash
  }

  /** The delete hash of the last deletion of a link in a transaction. */
  function LastDelete(deletes: seq<(Bytes, Bytes)>, hash: Bytes): Option<Bytes> {
    if deletes == [] then None
    else if deletes[|deletes| - 1].0 == hash then Some(deletes[|deletes| - 1].1)
    else LastDelete(deletes[..|deletes| - 1], hash)
  }

  /** The link as a commit stores it, which applies the deletions after all puts. */
  function AsStored(l: Link, deletes: seq<(Bytes, Bytes)>): Link {
    var d := LastDelete(deletes, l.createLinkHash);
    if d.Some? then Marked(l, d.value) else l
  }

  /** The hash is new, and the deletions of the transaction leave the link as it is. */
  predicate Puttable(db: Db, tx: Tx, l: Link) {
    l.createLinkHash !in Overlaid(db, tx).links && AsStored(l, tx.linkDeletes) == l
  }

  lemma {:induction false} NoDeleteOf(deletes: seq<(Bytes, Bytes)>, hash: Bytes)
    ensures LastDelete(deletes, hash).None? <==> forall n :: 0 <= n < |deletes| ==> deletes[n].0 != hash
  {
    if deletes != [] {
      var front := deletes[..|deletes| - 1];
      NoDeleteOf(front, hash);
      assert forall n :: 0 <= n < |front| ==> front[n] == deletes[n];
    }
  }

  /** For a link that is not itself deleted, that means a hash no deletion of the transaction names. */
  lemma PuttableIffFresh(db: Db, tx: Tx, l: Link)
    ensures FreshLink(db, tx, l) ==> Puttable(db, tx, l)
    ensures !l.deleted ==> (Puttable(db, tx, l) <==> FreshLink(db, tx, l))
  {
    NoDeleteOf(tx.linkDeletes, l.createLinkHash);
  }

  lemma {:induction false} MarkAllOfPut(links: map<Bytes, Link>, deletes: seq<(Bytes, Bytes)>, l: Link)
    ensures MarkAll(links[l.createLinkHash := l], deletes)
         == MarkAll(links, deletes)[l.createLinkHash := AsStored(l, deletes)]
  {
    if deletes != [] {
      MarkAllOfPut(links, deletes[..|deletes| - 1], l);
    }
  }

  lemma LinksAfterPut(db: Db, tx: Tx, l: Link)
    ensures Overlaid(db, TxAfter(tx, Op.PutLink(l))).links
         == Overlaid(db, tx).links[l.createLinkHash := AsStored(l, tx.linkDeletes)]
  {
    assert (tx.links + [l])[..|tx.links|] == tx.links;
    MarkAllOfPut(PutLinks(db.links, tx.links), tx.linkDeletes, l);
  }

  /** Appending a link to the list of its base keeps the lists right exactly if its hash is new and the link is stored
      as it was appended. */
  lemma AddLinkListedIff(lists: map<Bytes, seq<Link>>, links: map<Bytes, Link>, l: Link, stored: Link)
    requires Listed(lists, links)
    requires stored.createLinkHash == l.createLinkHash && stored.baseAddress == l.baseAddress
    ensures Listed(lists[l.baseAddress := At(lists, l.baseAddress) + [l]], links[l.createLinkHash := stored])
       <==> l.createLinkHash !in links && stored == l
  {
    var hash, list := l.createLinkHash, At(lists, l.baseAddress);
    var lists', links' := lists[l.baseAddress := list + [l]], links[hash := stored];
    if hash !in links && stored == l {
      AddLinkListed(lists, links, l);
    } else if Listed(lists', links') {
      assert OfBase(l.baseAddress, lists'[l.baseAddress], links');
      assert lists'[l.baseAddress][|list|] == l;
      assert hash in links && StoredAt(lists, links[hash]);
      OldLinkStays(lists, links[hash], l);
      assert false;
    }
  }

  /** A list that had a link with this hash either has two of them now or is the list of another base. */
  lemma OldLinkStays(lists: map<Bytes, seq<Link>>, prior: Link, l: Link)
    requires StoredAt(lists, prior) && prior.createLinkHash == l.createLinkHash
    ensures var lists' := lists[l.baseAddress := At(lists, l.baseAddress) + [l]];
            prior.baseAddress in lists' && prior in lists'[prior.baseAddress]
            && (prior.baseAddress == l.baseAddress ==> !UniqueHashes(lists'[l.baseAddress]))
  {
    var list := At(lists, prior.baseAddress);
    var i :| 0 <= i < |list| && list[i] == prior;
    assert (list + [l])[i] == prior && (list + [l])[|list|] == l;
  }

  lemma PutActionShows(db: Db, tx: Tx, c: Cache, a: Action)
    requires Shows(c, Overlaid(db, tx))
    ensures Shows(CacheAfter(c, Op.PutAction(a)), Overlaid(db, TxAfter(tx, Op.PutAction(a))))
  {
    assert (tx.actions + [a])[..|tx.actions|] == tx.actions;
    ActionSurvivesStorage(a);
  }

  /** A put keeps the cache showing what a commit would store if and only if the hash is new and no deletion of the
      transaction changes the link; for a link that is not deleted, if and only if its hash is fresh. */
  lemma PutLinkShowsIff(db: Db, tx: Tx, c: Cache, l: Link)
    requires Shows(c, Overlaid(db, tx))
    ensures Shows(CacheAfter(c, Op.PutLink(l)), Overlaid(db, TxAfter(tx, Op.PutLink(l)))) <==> Puttable(db, tx, l)
    ensures !l.deleted ==> (Puttable(db, tx, l) <==> FreshLink(db, tx, l))
  {
    LinksAfterPut(db, tx, l);
    PuttableIffFresh(db, tx, l);
    AddLinkListedIff(c.links.vals, Overlaid(db, tx).links, l, AsStored(l, tx.linkDeletes));
  }

  /** The reads say so too: a cache that shows the database answers as this one does if and only if the link was
      puttable. */
  lemma PutLinkAgreesIff(db: Db, tx: Tx, c: Cache, l: Link, d: Cache)
    requires Shows(c, Overlaid(db, tx)) && Shows(d, Overlaid(db, TxAfter(tx, Op.PutLink(l))))
    ensures ReadsAgree(CacheAfter(c, Op.PutLink(l)), d) <==> Puttable(db, tx, l)
  {
    var c' := CacheAfter(c, Op.PutLink(l));
    PutLinkShowsIff(db, tx, c, l);
    LinksAfterPut(db, tx, l);
    if Puttable(db, tx, l) {
      SameDbSameReads(c', d, Overlaid(db, TxAfter(tx, Op.PutLink(l))));
    } else if ReadsAgree(c', d) {
      AgreeingReadsArePuttable(c, Overlaid(db, tx).links, l, AsStored(l, tx.linkDeletes), d);
      assert false;
    }
  }

  lemma AgreeingReadsArePuttable(c: Cache, links: map<Bytes, Link>, l: Link, stored: Link, d: Cache)
    requires LinksShow(c.links, links) && LinksShow(d.links, links[l.createLinkHash := stored]) && CacheValid(c)
    requires ReadsAgree(CacheAfter(c, Op.PutLink(l)), d)
    ensures l.createLinkHash !in links && stored == l
  {
    var c', list := CacheAfter(c, Op.PutLink(l)), ListAt(c.links, l.baseAddress);
    assert GetLinks(c', l.baseAddress, None) == list + [l];
    assert (list + [l])[|list|] == l;
    ReadFromStore(c', d, links[l.createLinkHash := stored], l.baseAddress, l);
    if l.createLinkHash in links {
      ReadOfPrior(c, links, l, stored, d);
      assert l in list;
      assert Elements(list + [l]) == Elements(list);
      ListedLinks(c.links, links, l.baseAddress);
      ListedLinks(d.links, links[l.createLinkHash := stored], l.baseAddress);
      assert false;
    }
  }

  lemma ReadOfPrior(c: Cache, links: map<Bytes, Link>, l: Link, stored: Link, d: Cache)
    requires LinksShow(c.links, links) && LinksShow(d.links, links[l.createLinkHash := stored]) && CacheValid(c)
    requires ReadsAgree(CacheAfter(c, Op.PutLink(l)), d) && l.createLinkHash in links
    ensures stored == links[l.createLinkHash] && stored in ListAt(c.links, stored.baseAddress)
  {
    var c', prior := CacheAfter(c, Op.PutLink(l)), links[l.createLinkHash];
    var list := ListAt(c.links, prior.baseAddress);
    assert StoredAt(c.links.vals, prior);
    var i :| 0 <= i < |list| && list[i] == prior;
    assert GetLinks(c', prior.baseAddress, None)[i] == prior;
    ReadFromStore(c', d, links[l.createLinkHash := stored], prior.baseAddress, prior);
  }

  /** What a cache answers, if it answers as one that shows the database, is stored there. */
  lemma ReadFromStore(c: Cache, d: Cache, links: map<Bytes, Link>, base: Bytes, l: Link)
    requires LinksShow(d.links, links) && ReadsAgree(c, d) && l in GetLinks(c, base, None)
    ensures IsStored(l, links)
  {
    assert l in Elements(GetLinks(c, base, None));
    assert l in Elements(GetLinks(d, base, None));
    assert l in ListAt(d.links, base);
  }

  lemma PutEntryShows(db: Db, tx: Tx, c: Cache, e: StoredEntry)
    requires Shows(c, Overlaid(db, tx))
    ensures Shows(CacheAfter(c, Op.PutEntry(e)), Overlaid(db, TxAfter(tx, Op.PutEntry(e))))
  {
    assert (tx.entries + [e])[..|tx.entries|] == tx.entries;
  }

  lemma DeleteLinkShows(db: Db, tx: Tx, c: Cache, h: Bytes, d: Bytes)
    requires Shows(c, Overlaid(db, tx))
    ensures Shows(CacheAfter(c, Op.DeleteLink(h, d)), Overlaid(db, TxAfter(tx, Op.DeleteLink(h, d))))
  {
    assert (tx.linkDeletes + [(h, d)])[..|tx.linkDeletes|] == tx.linkDeletes;
    KeysAreThere(c.links);
    MarkShows(c.links, Overlaid(db, tx).links, h, d);
  }

  /** What the cache shows after an operation is what a commit now would store. */
  lemma OpShows(db: Db, tx: Tx, c: Cache, op: Op)
    requires Shows(c, Overlaid(db, tx))
    requires op.PutLink? ==> Puttable(db, tx, op.link)
    ensures Shows(CacheAfter(c, op), Overlaid(db, TxAfter(tx, op)))
  {
    match op
    case PutAction(a) => PutActionShows(db, tx, c, a);
    case PutEntry(e) => PutEntryShows(db, tx, c, e);
    case PutLink(l) => PutLinkShowsIff(db, tx, c, l);
    case DeleteLink(h, d) => DeleteLinkShows(db, tx, c, h, d);
    case UpdateChainHead(head) =>
  }

  function TxOf(ops: seq<Op>): Tx {
    if ops == [] then NO_TX else TxAfter(TxOf(ops[..|ops| - 1]), ops[|ops| - 1])
  }

  function CacheOf(c: Cache, ops: seq<Op>): (c': Cache)
    requires CacheValid(c)
    ensures CacheValid(c')
  {
    if ops == [] then c else CacheAfter(CacheOf(c, ops[..|ops| - 1]), ops[|ops| - 1])
  }

  ghost predicate PuttableLinks(db: Db, ops: seq<Op>) {
    forall n :: 0 <= n < |ops| && ops[n].PutLink? ==> Puttable(db, TxOf(ops[..n]), ops[n].link)
  }

  lemma {:induction false} OpsShow(db: Db, c: Cache, ops: seq<Op>)
    requires Shows(c, db) && PuttableLinks(db, ops)
    ensures Shows(CacheOf(c, ops), Overlaid(db, TxOf(ops)))
  {
    if ops == [] {
      assert Overlaid(db, NO_TX) == db;
    } else {
      var front := ops[..|ops| - 1];
      forall n | 0 <= n < |front| && front[n].PutLink?
        ensures Puttable(db, TxOf(front[..n]), front[n].link)
      {
        assert front[..n] == ops[..n] && front[n] == ops[n];
      }
      OpsShow(db, c, front);
      OpShows(db, TxOf(front), CacheOf(c, front), ops[|ops| - 1]);
    }
  }

  // ---------------------------------------------------------------- preload

  function AddAll<V>(done: map<Bytes, V>, keys: seq<Bytes>, records: seq<V>): map<Bytes, V>
    requires |keys| == |records|
    decreases |keys|
  {
    if keys == [] then done else AddAll(done[keys[0] := records[0]], keys[1..], records[1..])
  }

  /** Adding all listed records to an empty store gives the store. */
  lemma {:induction false} ListedIsStore<V(!new)>(store: map<Bytes, V>, done: map<Bytes, V>, keys: seq<Bytes>,
                                                  records: seq<V>)
    requires |keys| == |records| && done.Keys + Elements(keys) == store.Keys
    requires forall k :: k in done ==> done[k] == store[k]
    requires forall i :: 0 <= i < |keys| ==> keys[i] in store && records[i] == store[keys[i]]
    ensures AddAll(done, keys, records) == store
    decreases |keys|
  {
    if keys != [] {
      assert keys == [keys[0]] + keys[1..];
      assert Elements(keys) == {keys[0]} + Elements(keys[1..]);
      forall i | 0 <= i < |keys[1..]|
        ensures keys[1..][i] in store && records[1..][i] == store[keys[1..][i]]
      {
        assert keys[1..][i] == keys[i + 1];
      }
      ListedIsStore(store, done[keys[0] := records[0]], keys[1..], records[1..]);
    } else {
      assert done.Keys == store.Keys;
    }
  }

  lemma {:induction false} LoadShows(m: OrderedMap<Bytes, Action>, done: map<Bytes, StorableAction>, keys: seq<Bytes>,
                                     records: seq<StorableAction>)
    requires m.Valid() && |keys| == |records| && ActionsShow(m.vals, done)
    requires forall i :: 0 <= i < |keys| ==> ToBytes(records[i].actionHash) == keys[i]
    ensures ActionsShow(LoadActions(m, records).vals, AddAll(done, keys, records))
    decreases |keys|
  {
    if keys != [] {
      var action := StorableToAction(records[0]);
      LoadShows(m.Set(action.actionHash, action), done[keys[0] := records[0]], keys[1..], records[1..]);
    }
  }

  lemma {:induction false} GroupShows(m: OrderedMap<Bytes, seq<Link>>, done: map<Bytes, Link>, keys: seq<Bytes>,
                                      links: seq<Link>)
    requires |keys| == |links| && LinksShow(m, done) && Distinct(keys)
    requires forall i :: 0 <= i < |keys| ==> links[i].createLinkHash == keys[i] && keys[i] !in done
    ensures LinksShow(GroupLinks(m, links), AddAll(done, keys, links))
    decreases |keys|
  {
    if keys != [] {
      AddLinkListed(m.vals, done, links[0]);
      var m', done' := m.Set(links[0].baseAddress, ListAt(m, links[0].baseAddress) + [links[0]]),
                       done[keys[0] := links[0]];
      forall i | 0 <= i < |keys[1..]|
        ensures links[1..][i].createLinkHash == keys[1..][i] && keys[1..][i] !in done'
      {
        assert keys[1..][i] == keys[i + 1] && keys[0] != keys[i + 1];
      }
      GroupShows(m', done', keys[1..], links[1..]);
    }
  }

  ghost predicate Listing(db: Db, actionKeys: seq<Bytes>, actions: seq<StorableAction>, linkKeys: seq<Bytes>,
                          links: seq<Link>)
  {
    Lists(db.actions, actionKeys, actions) && Lists(db.links, linkKeys, links)
  }

  /** A preload into a cache that holds nothing but what the database has. */
  lemma PreloadOnto(c: Cache, done: map<Bytes, StorableAction>, db: Db, actionKeys: seq<Bytes>,
                    actions: seq<StorableAction>, linkKeys: seq<Bytes>, links: seq<Link>)
    requires CacheValid(c) && c.entries.Keys <= db.entries.Keys
    requires ActionsShow(c.actions.vals, done) && forall h :: h in done ==> h in db.actions && done[h] == db.actions[h]
    requires DbValid(db) && Listing(db, actionKeys, actions, linkKeys, links)
    ensures Shows(Preloaded(c, db, actions, links), db)
  {
    PreloadedActions(c, done, db, actionKeys, actions);
    PreloadedLinks(db, linkKeys, links);
    assert c.entries + db.entries == db.entries;
  }

  lemma PreloadedActions(c: Cache, done: map<Bytes, StorableAction>, db: Db, keys: seq<Bytes>,
                         records: seq<StorableAction>)
    requires CacheValid(c) && DbValid(db) && Lists(db.actions, keys, records)
    requires ActionsShow(c.actions.vals, done) && forall h :: h in done ==> h in db.actions && done[h] == db.actions[h]
    ensures ActionsShow(LoadActions(c.actions, records).vals, db.actions)
  {
    assert done.Keys + Elements(keys) == db.actions.Keys;
    ListedIsStore(db.actions, done, keys, records);
    LoadShows(c.actions, done, keys, records);
  }

  lemma PreloadedLinks(db: Db, keys: seq<Bytes>, records: seq<Link>)
    requires DbValid(db) && Lists(db.links, keys, records)
    ensures LinksShow(GroupLinks(Empty(), records), db.links)
  {
    ListedIsStore(db.links, map[], keys, records);
    GroupShows(Empty(), map[], keys, records);
  }

  /** A preload into a cache without actions and entries shows the database, in whatever order it lists its records. */
  lemma PreloadShows(c: Cache, db: Db, actionKeys: seq<Bytes>, actions: seq<StorableAction>, linkKeys: seq<Bytes>,
                     links: seq<Link>)
    requires CacheValid(c) && c.actions == Empty() && c.entries == map[]
    requires DbValid(db) && Listing(db, actionKeys, actions, linkKeys, links)
    ensures Shows(Preloaded(c, db, actions, links), db)
  {
    PreloadOnto(c, map[], db, actionKeys, actions, linkKeys, links);
  }

  /** So does a preload into a cache that shows the database already, as the one before every call after the first. */
  lemma PreloadKeepsShows(c: Cache, db: Db, actionKeys: seq<Bytes>, actions: seq<StorableAction>, linkKeys: seq<Bytes>,
                          links: seq<Link>)
    requires Shows(c, db) && DbValid(db) && Listing(db, actionKeys, actions, linkKeys, links)
    ensures Shows(Preloaded(c, db, actions, links), db)
  {
    PreloadOnto(c, db.actions, db, actionKeys, actions, linkKeys, links);
  }

  // ---------------------------------------------------------------- the three ends of a transaction

  lemma {:induction false} MarkAllKeepsKeys(links: map<Bytes, Link>, deletes: seq<(Bytes, Bytes)>)
    requires forall h :: h in links ==> links[h].createLinkHash == h
    ensures forall h :: h in MarkAll(links, deletes) ==> MarkAll(links, deletes)[h].createLinkHash == h
  {
    if deletes != [] {
      MarkAllKeepsKeys(links, deletes[..|deletes| - 1]);
    }
  }

  lemma {:induction false} PutLinksKeepsKeys(links: map<Bytes, Link>, puts: seq<Link>)
    requires forall h :: h in links ==> links[h].createLinkHash == h
    ensures forall h :: h in PutLinks(links, puts) ==> PutLinks(links, puts)[h].createLinkHash == h
  {
    if puts != [] {
      PutLinksKeepsKeys(links, puts[..|puts| - 1]);
    }
  }

  lemma {:induction false} PutActionsKeepsKeys(actions: map<Bytes, StorableAction>, puts: seq<Action>)
    requires forall h :: h in actions ==> ToBytes(actions[h].actionHash) == h
    ensures forall h :: h in PutActions(actions, puts) ==> ToBytes(PutActions(actions, puts)[h].actionHash) == h
  {
    if puts != [] {
      PutActionsKeepsKeys(actions, puts[..|puts| - 1]);
      ActionSurvivesStorage(puts[|puts| - 1]);
    }
  }

  lemma CommitKeepsDbValid(db: Db, tx: Tx)
    requires DbValid(db)
    ensures DbValid(Overlaid(db, tx))
  {
    PutActionsKeepsKeys(db.actions, tx.actions);
    PutLinksKeepsKeys(db.links, tx.links);
    MarkAllKeepsKeys(PutLinks(db.links, tx.links), tx.linkDeletes);
  }

  /** After begin, any operations with puttable links, and a commit the database accepts, every read answers as it would
      from an emptied cache loaded from the new database. */
  lemma CommitAgreesWithReload(db: Db, c: Cache, ops: seq<Op>, actionKeys: seq<Bytes>, actions: seq<StorableAction>,
                               linkKeys: seq<Bytes>, links: seq<Link>)
    requires DbValid(db) && Shows(c, db) && PuttableLinks(db, ops)
    requires Listing(Overlaid(db, TxOf(ops)), actionKeys, actions, linkKeys, links)
    ensures ReadsAgree(CacheOf(c, ops), Preloaded(NO_CACHE, Overlaid(db, TxOf(ops)), actions, links))
  {
    var db' := Overlaid(db, TxOf(ops));
    OpsShow(db, c, ops);
    CommitKeepsDbValid(db, TxOf(ops));
    PreloadShows(NO_CACHE, db', actionKeys, actions, linkKeys, links);
    SameDbSameReads(CacheOf(c, ops), Preloaded(NO_CACHE, db', actions, links), db');
  }

  /** After a rollback, or a commit the database aborts, a preload restores every read to what it was at begin. */
  lemma UndoneAgreesWithBegin(db: Db, c: Cache, ops: seq<Op>, actionKeys: seq<Bytes>, actions: seq<StorableAction>,
                              linkKeys: seq<Bytes>, links: seq<Link>)
    requires DbValid(db) && Shows(c, db)
    requires Listing(db, actionKeys, actions, linkKeys, links)
    ensures ReadsAgree(c, Preloaded(NO_CACHE, db, actions, links))
    ensures ReadsAgree(c, Preloaded(CacheAfterAbort(CacheOf(c, ops)), db, actions, links))
  {
    PreloadShows(NO_CACHE, db, actionKeys, actions, linkKeys, links);
    SameDbSameReads(c, Preloaded(NO_CACHE, db, actions, links), db);
    var aborted := CacheAfterAbort(CacheOf(c, ops));
    PreloadShows(aborted, db, actionKeys, actions, linkKeys, links);
    SameDbSameReads(c, Preloaded(aborted, db, actions, links), db);
  }

  /** Between an aborted commit and that preload the chain head is right exactly if the transaction did not move it to
      another one: the abort clears the other caches but keeps the head. */
  lemma {:induction false} AbortKeepsUncommittedHead(db: Db, c: Cache, ops: seq<Op>)
    requires Shows(c, db)
    ensures GetChainHead(CacheAfterAbort(CacheOf(c, ops))) == Some(db.head)
       <==> TxOf(ops).head.None? || TxOf(ops).head == db.head
    ensures GetChainHead(CacheOf(c, ops)) == Some(if TxOf(ops).head.Some? then TxOf(ops).head else db.head)
  {
    if ops != [] {
      AbortKeepsUncommittedHead(db, c, ops[..|ops| - 1]);
    }
  }

  /** The head can be wrong: an action that reuses a sequence number makes the database refuse the commit, and the head
      the transaction had moved to stays in the cache. */
  lemma AbortedHeadCanBeWrong(db: Db, c: Cache, stored: Bytes, a: Action, head: ChainHead)
    requires Shows(c, db) && Some(head) != db.head
    requires stored in db.actions && stored != a.actionHash && db.actions[stored].actionSeq == a.actionSeq
    ensures var ops := [Op.PutAction(a), UpdateChainHead(head)];
            && !AcceptsAll(db.actions, TxOf(ops).actions)
            && GetChainHead(CacheAfterAbort(CacheOf(c, ops))) == Some(Some(head)) != Some(db.head)
  {
    var ops := [Op.PutAction(a), UpdateChainHead(head)];
    assert ops[..1] == [ops[0]] && ops[..1][..0] == [];
    assert TxOf(ops[..1]).actions == [a];
    assert [a][..0] == [];
    AbortKeepsUncommittedHead(db, c, ops);
  }

  // ---------------------------------------------------------------- one call after the other

  /** A call of the guest: its operations, whether it ends in a commit or a rollback, and what the preload before the
      next call lists. */
  datatype Call = Call(ops: seq<Op>, commits: bool, actionKeys: seq<Bytes>, actions: seq<StorableAction>,
                       linkKeys: seq<Bytes>, links: seq<Link>)

  ghost predicate Accepted(db: Db, call: Call) {
    call.commits && AcceptsAll(db.actions, TxOf(call.ops).actions)
  }

  ghost function DbAfterCall(db: Db, call: Call): Db {
    if Accepted(db, call) then Overlaid(db, TxOf(call.ops)) else db
  }

  /** The cache after the call and the preload that follows it. */
  ghost function CacheAfterCall(db: Db, c: Cache, call: Call): (c': Cache)
    requires CacheValid(c)
    ensures CacheValid(c')
  {
    var ended := if Accepted(db, call) then CacheOf(c, call.ops)
                 else if call.commits then CacheAfterAbort(CacheOf(c, call.ops)) else NO_CACHE;
    Preloaded(ended, DbAfterCall(db, call), call.actions, call.links)
  }

  /** The links a call puts are puttable, and the preload lists the database of that moment. */
  ghost predicate Proper(db: Db, call: Call) {
    && (Accepted(db, call) ==> PuttableLinks(db, call.ops))
    && Listing(DbAfterCall(db, call), call.actionKeys, call.actions, call.linkKeys, call.links)
  }

  ghost predicate AllProper(db: Db, calls: seq<Call>)
    decreases |calls|
  {
    calls == [] || (Proper(db, calls[0]) && AllProper(DbAfterCall(db, calls[0]), calls[1..]))
  }

  ghost function DbAfterCalls(db: Db, calls: seq<Call>): Db
    decreases |calls|
  {
    if calls == [] then db else DbAfterCalls(DbAfterCall(db, calls[0]), calls[1..])
  }

  ghost function CacheAfterCalls(db: Db, c: Cache, calls: seq<Call>): (c': Cache)
    requires CacheValid(c)
    ensures CacheValid(c')
    decreases |calls|
  {
    if calls == [] then c
    else CacheAfterCalls(DbAfterCall(db, calls[0]), CacheAfterCall(db, c, calls[0]), calls[1..])
  }

  lemma CallKeepsShowing(db: Db, c: Cache, call: Call)
    requires DbValid(db) && Shows(c, db) && Proper(db, call)
    ensures DbValid(DbAfterCall(db, call)) && Shows(CacheAfterCall(db, c, call), DbAfterCall(db, call))
  {
    CommitKeepsDbValid(db, TxOf(call.ops));
    if Accepted(db, call) {
      OpsShow(db, c, call.ops);
      PreloadKeepsShows(CacheOf(c, call.ops), DbAfterCall(db, call), call.actionKeys, call.actions, call.linkKeys,
                        call.links);
    } else {
      var ended := if call.commits then CacheAfterAbort(CacheOf(c, call.ops)) else NO_CACHE;
      PreloadShows(ended, db, call.actionKeys, call.actions, call.linkKeys, call.links);
    }
  }

  /** Over any sequence of calls, committed, aborted by the database or rolled back, every call starts with a cache that
      answers as one emptied and loaded from the database would. */
  lemma {:induction false} EveryCallStartsInAgreement(db: Db, c: Cache, calls: seq<Call>, actionKeys: seq<Bytes>,
                                                      actions: seq<StorableAction>, linkKeys: seq<Bytes>,
                                                      links: seq<Link>)
    requires DbValid(db) && Shows(c, db) && AllProper(db, calls)
    requires Listing(DbAfterCalls(db, calls), actionKeys, actions, linkKeys, links)
    ensures ReadsAgree(CacheAfterCalls(db, c, calls), Preloaded(NO_CACHE, DbAfterCalls(db, calls), actions, links))
    decreases |calls|
  {
    if calls == [] {
      PreloadShows(NO_CACHE, db, actionKeys, actions, linkKeys, links);
      SameDbSameReads(c, Preloaded(NO_CACHE, db, actions, links), db);
    } else {
      CallKeepsShowing(db, c, calls[0]);
      EveryCallStartsInAgreement(DbAfterCall(db, calls[0]), CacheAfterCall(db, c, calls[0]), calls[1..], actionKeys,
                                 actions, linkKeys, links);
    }
  }

  // ---------------------------------------------------------------- stale link hashes

  /** What `PutLinkShowsIff` excludes: a link put after its own deletion is live in the cache and deleted in the
      database. */
  lemma StaleLinkDisagrees(l: Link, d: Bytes)
    requires !l.deleted
    ensures var ops := [Op.DeleteLink(l.createLinkHash, d), PutLink(l)];
            && GetLinks(CacheOf(NO_CACHE, ops), l.baseAddress, None) == [l]
            && Overlaid(Db(map[], map[], map[], None), TxOf(ops)).links == map[l.createLinkHash := Marked(l, d)]
            && Marked(l, d) != l
  {
    var ops := [Op.DeleteLink(l.createLinkHash, d), PutLink(l)];
    var first := [Op.DeleteLink(l.createLinkHash, d)];
    assert ops[..1] == first && first[..0] == [];
    assert CacheOf(NO_CACHE, first) == NO_CACHE;
    assert CacheOf(NO_CACHE, ops) == CacheAfter(NO_CACHE, PutLink(l));
    assert ListAt(CacheOf(NO_CACHE, ops).links, l.baseAddress) == [] + [l] == [l];
    assert TxOf(first) == NO_TX.(linkDeletes := [(l.createLinkHash, d)]);
    assert TxOf(ops) == NO_TX.(linkDeletes := [(l.createLinkHash, d)], links := [l]);
    assert [l][..0] == [] && [(l.createLinkHash, d)][..0] == [];
    assert PutLinks(map[], [l]) == map[l.createLinkHash := l];
    assert MarkAll(map[l.createLinkHash := l], [(l.createLinkHash, d)])
        == MarkInDb(map[l.createLinkHash := l], l.createLinkHash, d);
  }

  // ---------------------------------------------------------------- lookup by entry hash

  predicate Creates(a: Action, entryHash: Bytes) {
    (a.body.Create? || a.body.Update?) && a.body.entryHash == entryHash
  }

  /** `getActionByEntryHash`: the first action, in the order of the map, that creates the entry. */
  function FirstCreating(vals: map<Bytes, Action>, order: seq<Bytes>, entryHash: Bytes): Option<Bytes>
    requires forall k :: k in order ==> k in vals
  {
    if order == [] then None
    else if Creates(vals[order[0]], entryHash) then Some(order[0])
    else FirstCreating(vals, order[1..], entryHash)
  }

  ghost predicate Enumerates(order: seq<Bytes>, vals: map<Bytes, Action>) {
    Distinct(order) && Elements(order) == vals.Keys && forall k :: k in order ==> k in vals
  }

  lemma {:induction false} FirstCreatingMeaning(vals: map<Bytes, Action>, order: seq<Bytes>, entryHash: Bytes)
    requires forall k :: k in order ==> k in vals
    ensures var r := FirstCreating(vals, order, entryHash);
            if r.Some? then r.value in order && Creates(vals[r.value], entryHash)
            else forall k :: k in order ==> !Creates(vals[k], entryHash)
  {
    if order != [] {
      FirstCreatingMeaning(vals, order[1..], entryHash);
      assert order == [order[0]] + order[1..];
    }
  }

  lemma {:induction false} SomeOrder(keys: set<Bytes>) returns (order: seq<Bytes>)
    ensures Distinct(order) && Elements(order) == keys
    decreases |keys|
  {
    if keys == {} {
      order := [];
    } else {
      var k :| k in keys;
      var rest := SomeOrder(keys - {k});
      order := [k] + rest;
      assert forall x :: x in rest ==> x in Elements(rest);
      DistinctAppend([k], rest);
      assert Elements(order) == {k} + Elements(rest);
    }
  }

  /** This read depends on the order in which actions came into the cache, which a reload changes: it is the same for
      every order exactly if at most one action creates the entry. */
  lemma EntryLookupIsStable(vals: map<Bytes, Action>, entryHash: Bytes)
    ensures (forall o1, o2 :: Enumerates(o1, vals) && Enumerates(o2, vals) ==>
               FirstCreating(vals, o1, entryHash) == FirstCreating(vals, o2, entryHash))
       <==> (forall j, k ::
               j in vals && k in vals && Creates(vals[j], entryHash) && Creates(vals[k], entryHash) ==> j == k)
  {
    if j, k :| j in vals && k in vals && Creates(vals[j], entryHash) && Creates(vals[k], entryHash) && j != k {
      var o1 := StartingWith(vals, j);
      var o2 := StartingWith(vals, k);
      assert FirstCreating(vals, o1, entryHash) == Some(j) && FirstCreating(vals, o2, entryHash) == Some(k);
    } else {
      forall o1, o2 | Enumerates(o1, vals) && Enumerates(o2, vals)
        ensures FirstCreating(vals, o1, entryHash) == FirstCreating(vals, o2, entryHash)
      {
        FirstCreatingMeaning(vals, o1, entryHash);
        FirstCreatingMeaning(vals, o2, entryHash);
        assert forall k :: k in vals ==> k in Elements(o1) && k in Elements(o2);
      }
    }
  }

  lemma StartingWith(vals: map<Bytes, Action>, k: Bytes) returns (order: seq<Bytes>)
    requires k in vals
    ensures Enumerates(order, vals) && order[0] == k
  {
    var rest := SomeOrder(vals.Keys - {k});
    order := [k] + rest;
    assert forall x :: x in rest ==> x in Elements(rest);
    DistinctAppend([k], rest);
    assert Elements(order) == {k} + Elements(rest);
    assert forall x :: x in order ==> x in Elements(order);
  }
}
