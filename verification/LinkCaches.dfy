/** The link caches of `NetworkCache` and the updates a committed zome call applies to them: for one base address there
    may be a list of all its links and lists for single link types, both of links and of link details. */
module LinkCaching {
  import opened OrderedMaps
  import opened Sequences

  type Hash = string

  /** Cache keys: the base address alone, or with a link type. The zome index is not part of the key. */
  datatype LinkKey = Untyped(base: Hash) | Typed(base: Hash, linkType: nat)

  datatype Link = Link(createLinkHash: Hash, zomeIndex: nat, linkType: nat, body: string)
  datatype LinkDetail = LinkDetail(create: Link, deleteHashes: seq<Hash>)

  type Links = OrderedMap<LinkKey, seq<Link>>
  type Details = OrderedMap<LinkKey, seq<LinkDetail>>

  // ---------------------------------------------------------------- one list

  predicate HasLink(links: seq<Link>, hash: Hash) {
    exists i :: 0 <= i < |links| && links[i].createLinkHash == hash
  }

  predicate HasDetail(details: seq<LinkDetail>, hash: Hash) {
    exists i :: 0 <= i < |details| && details[i].create.createLinkHash == hash
  }

  function Merged(links: seq<Link>, link: Link): seq<Link> {
    if HasLink(links, link.createLinkHash) then links else links + [link]
  }

  /** `findIndex` and `splice`: the first link with the hash is taken out. */
  function Removed(links: seq<Link>, hash: Hash): seq<Link> {
    if links == [] then []
    else if links[0].createLinkHash == hash then links[1..]
    else [links[0]] + Removed(links[1..], hash)
  }

  lemma {:induction false} RemovedMeaning(links: seq<Link>, hash: Hash, idx: nat)
    requires idx <= |links| && forall i :: 0 <= i < idx ==> links[i].createLinkHash != hash
    requires idx < |links| ==> links[idx].createLinkHash == hash
    ensures Removed(links, hash) == if idx < |links| then links[..idx] + links[idx + 1..] else links
  {
    if idx > 0 {
      var rest := links[1..];
      RemovedMeaning(rest, hash, idx - 1);
      assert idx < |links| ==> [links[0]] + (rest[..idx - 1] + rest[idx..]) == links[..idx] + links[idx + 1..];
      assert [links[0]] + rest == links;
    }
  }

  function MergedDetail(details: seq<LinkDetail>, link: Link): seq<LinkDetail> {
    if HasDetail(details, link.createLinkHash) then details else details + [LinkDetail(link, [])]
  }

  function WithDelete(d: LinkDetail, createHash: Hash, deleteHash: Hash): LinkDetail {
    if d.create.createLinkHash != createHash || deleteHash in d.deleteHashes then d
    else d.(deleteHashes := d.deleteHashes + [deleteHash])
  }

  function Deleted(details: seq<LinkDetail>, createHash: Hash, deleteHash: Hash): (r: seq<LinkDetail>)
    ensures |r| == |details|
  {
    seq(|details|, i requires 0 <= i < |details| => WithDelete(details[i], createHash, deleteHash))
  }

  // ---------------------------------------------------------------- all lists of a cache

  predicate HoldsLink(key: LinkKey, base: Hash, linkType: nat) {
    key == Untyped(base) || key == Typed(base, linkType)
  }

  function MergeAt(base: Hash, link: Link): (LinkKey, seq<Link>) -> seq<Link> {
    (key, links) => if HoldsLink(key, base, link.linkType) then Merged(links, link) else links
  }

  function RemoveAt(base: Hash, hash: Hash): (LinkKey, seq<Link>) -> seq<Link> {
    (key: LinkKey, links) => if key.base == base then Removed(links, hash) else links
  }

  function MergeDetailAt(base: Hash, link: Link): (LinkKey, seq<LinkDetail>) -> seq<LinkDetail> {
    (key, details) => if HoldsLink(key, base, link.linkType) then MergedDetail(details, link) else details
  }

  function DeleteAt(base: Hash, createHash: Hash, deleteHash: Hash): (LinkKey, seq<LinkDetail>) -> seq<LinkDetail> {
    (key: LinkKey, details) => if key.base == base then Deleted(details, createHash, deleteHash) else details
  }

  /** Every list is changed in place; no key moves. */
  function Everywhere<V>(m: OrderedMap<LinkKey, V>, change: (LinkKey, V) -> V): OrderedMap<LinkKey, V> {
    OrderedMap(m.order, map k | k in m.vals :: change(k, m.vals[k]))
  }

  /** `Everywhere`, as far as a loop over the keys has come. */
  ghost predicate UpTo<V>(now: OrderedMap<LinkKey, V>, m: OrderedMap<LinkKey, V>, change: (LinkKey, V) -> V, n: nat) {
    && n <= |m.order| && now.order == m.order && now.vals.Keys == m.vals.Keys
    && forall k :: k in m.vals ==> now.vals[k] == if k in m.order[..n] then change(k, m.vals[k]) else m.vals[k]
  }

  lemma ThisKey<V>(now: OrderedMap<LinkKey, V>, m: OrderedMap<LinkKey, V>, change: (LinkKey, V) -> V, n: nat)
    requires m.Valid() && n < |m.order| && UpTo(now, m, change, n)
    ensures m.order[n] in m.vals && m.order[n] in now.vals && now.vals[m.order[n]] == m.vals[m.order[n]]
  {
    var key := m.order[n];
    assert key in Elements(m.order);
    assert forall i :: 0 <= i < n ==> m.order[..n][i] == m.order[i] != key;
  }

  lemma NextKey<V>(now: OrderedMap<LinkKey, V>, after: OrderedMap<LinkKey, V>, m: OrderedMap<LinkKey, V>,
                   change: (LinkKey, V) -> V, n: nat)
    requires m.Valid() && n < |m.order| && UpTo(now, m, change, n) && m.order[n] in m.vals && after.order == now.order
    requires if after.vals == now.vals then change(m.order[n], m.vals[m.order[n]]) == m.vals[m.order[n]]
             else after.vals == now.vals[m.order[n] := change(m.order[n], m.vals[m.order[n]])]
    ensures UpTo(after, m, change, n + 1)
  {
    var key := m.order[n];
    ThisKey(now, m, change, n);
    assert m.order[..n + 1] == m.order[..n] + [key];
    forall k | k in m.vals
      ensures after.vals[k] == if k in m.order[..n + 1] then change(k, m.vals[k]) else m.vals[k]
    {
      assert k in m.order[..n + 1] <==> k in m.order[..n] || k == key;
    }
  }

  lemma AllKeys<V>(now: OrderedMap<LinkKey, V>, m: OrderedMap<LinkKey, V>, change: (LinkKey, V) -> V)
    requires m.Valid() && UpTo(now, m, change, |m.order|)
    ensures now == Everywhere(m, change) && now.Valid()
  {
    assert m.order[..|m.order|] == m.order;
    assert forall k :: k in m.vals ==> k in Elements(m.order);
  }

  class LinkCache {
    var links: Links
    var linkDetails: Details

    ghost predicate Valid()
      reads this
    {
      links.Valid() && linkDetails.Valid()
    }

    constructor ()
      ensures Valid() && links == Empty() && linkDetails == Empty()
    {
      links, linkDetails := Empty(), Empty();
    }

    method MergeLinkIntoCache(base: Hash, link: Link)
      requires Valid()
      modifies this`links
      ensures Valid() && links == Everywhere(old(links), MergeAt(base, link))
    {
      var keys := links.order;
      for n := 0 to |keys|
        invariant UpTo(links, old(links), MergeAt(base, link), n)
      {
        ghost var before := links;
        ThisKey(before, old(links), MergeAt(base, link), n);
        var key := keys[n];
        if key == Untyped(base) || key == Typed(base, link.linkType) {
          if !HasLink(links.vals[key], link.createLinkHash) {
            links := links.(vals := links.vals[key := links.vals[key] + [link]]);
          }
        }
        NextKey(before, links, old(links), MergeAt(base, link), n);
      }
      AllKeys(links, old(links), MergeAt(base, link));
    }

    method RemoveLinkFromCache(base: Hash, createLinkHash: Hash)
      requires Valid()
      modifies this`links
      ensures Valid() && links == Everywhere(old(links), RemoveAt(base, createLinkHash))
    {
      var keys := links.order;
      for n := 0 to |keys|
        invariant UpTo(links, old(links), RemoveAt(base, createLinkHash), n)
      {
        ghost var before := links;
        ThisKey(before, old(links), RemoveAt(base, createLinkHash), n);
        var key := keys[n];
        if key.base == base {
          var idx := FindIndex(links.vals[key], createLinkHash);
          if idx < |links.vals[key]| {
            links := links.(vals := links.vals[key := links.vals[key][..idx] + links.vals[key][idx + 1..]]);
          }
        }
        NextKey(before, links, old(links), RemoveAt(base, createLinkHash), n);
      }
      AllKeys(links, old(links), RemoveAt(base, createLinkHash));
    }

    /** The index of the first link with the hash, or the length of the list; splicing there is removing it. */
    method FindIndex(list: seq<Link>, hash: Hash) returns (idx: nat)
      ensures idx <= |list| && (idx < |list| <==> HasLink(list, hash))
      ensures Removed(list, hash) == if idx < |list| then list[..idx] + list[idx + 1..] else list
    {
      idx := 0;
      while idx < |list| && list[idx].createLinkHash != hash
        invariant idx <= |list|
        invariant forall i :: 0 <= i < idx ==> list[i].createLinkHash != hash
      {
        idx := idx + 1;
      }
      RemovedMeaning(list, hash, idx);
    }

    method MergeLinkDetailIntoCache(base: Hash, link: Link)
      requires Valid()
      modifies this`linkDetails
      ensures Valid() && linkDetails == Everywhere(old(linkDetails), MergeDetailAt(base, link))
    {
      var keys := linkDetails.order;
      for n := 0 to |keys|
        invariant UpTo(linkDetails, old(linkDetails), MergeDetailAt(base, link), n)
      {
        ghost var before := linkDetails;
        ThisKey(before, old(linkDetails), MergeDetailAt(base, link), n);
        var key := keys[n];
        if key == Untyped(base) || key == Typed(base, link.linkType) {
          var details := linkDetails.vals[key];
          if !HasDetail(details, link.createLinkHash) {
            linkDetails := linkDetails.(vals := linkDetails.vals[key := details + [LinkDetail(link, [])]]);
          }
        }
        NextKey(before, linkDetails, old(linkDetails), MergeDetailAt(base, link), n);
      }
      AllKeys(linkDetails, old(linkDetails), MergeDetailAt(base, link));
    }

    method AddDeleteToLinkDetailsCache(base: Hash, createLinkHash: Hash, deleteHash: Hash)
      requires Valid()
      modifies this`linkDetails
      ensures Valid() && linkDetails == Everywhere(old(linkDetails), DeleteAt(base, createLinkHash, deleteHash))
    {
      var keys := linkDetails.order;
      for n := 0 to |keys|
        invariant UpTo(linkDetails, old(linkDetails), DeleteAt(base, createLinkHash, deleteHash), n)
      {
        ghost var before := linkDetails;
        ThisKey(before, old(linkDetails), DeleteAt(base, createLinkHash, deleteHash), n);
        var key := keys[n];
        if key.base == base {
          var details := linkDetails.vals[key];
          var changed := AppendDelete(details, createLinkHash, deleteHash);
          linkDetails := linkDetails.(vals := linkDetails.vals[key := changed]);
        }
        NextKey(before, linkDetails, old(linkDetails), DeleteAt(base, createLinkHash, deleteHash), n);
      }
      AllKeys(linkDetails, old(linkDetails), DeleteAt(base, createLinkHash, deleteHash));
    }

    method AppendDelete(details: seq<LinkDetail>, createLinkHash: Hash, deleteHash: Hash)
      returns (changed: seq<LinkDetail>)
      ensures changed == Deleted(details, createLinkHash, deleteHash)
    {
      changed := details;
      for i := 0 to |details|
        invariant |changed| == |details|
        invariant forall j :: 0 <= j < i ==> changed[j] == WithDelete(details[j], createLinkHash, deleteHash)
        invariant forall j :: i <= j < |details| ==> changed[j] == details[j]
      {
        if details[i].create.createLinkHash == createLinkHash {
          if deleteHash !in details[i].deleteHashes {
            changed := changed[i := details[i].(deleteHashes := details[i].deleteHashes + [deleteHash])];
          }
        }
      }
    }
  }

  // ---------------------------------------------------------------- agreement of the lists

  function OfType(linkType: nat): Link -> bool {
    (l: Link) => l.linkType == linkType
  }

  function DetailOfType(linkType: nat): LinkDetail -> bool {
    (d: LinkDetail) => d.create.linkType == linkType
  }

  /** The creates that no delete has been recorded for. */
  function Live(details: seq<LinkDetail>): seq<Link> {
    if details == [] then []
    else (if details[0].deleteHashes == [] then [details[0].create] else []) + Live(details[1..])
  }

  ghost predicate UniqueLinks(links: seq<Link>) {
    forall i, j :: 0 <= i < j < |links| ==> links[i].createLinkHash != links[j].createLinkHash
  }

  ghost predicate UniqueDetails(details: seq<LinkDetail>) {
    forall i, j :: 0 <= i < j < |details| ==> details[i].create.createLinkHash != details[j].create.createLinkHash
  }

  /** A link that is new to both lists, and is not recorded as deleted, is merged alike; otherwise the lists part. */
  lemma MergeKeepsLive(links: seq<Link>, details: seq<LinkDetail>, link: Link)
    requires links == Live(details)
    ensures Merged(links, link) == Live(MergedDetail(details, link))
       <==> HasLink(links, link.createLinkHash) || !HasDetail(details, link.createLinkHash)
  {
    LiveHas(details, link.createLinkHash);
    LiveAppend(details, LinkDetail(link, []));
  }

  lemma {:induction false} LiveAppend(details: seq<LinkDetail>, d: LinkDetail)
    ensures Live(details + [d]) == Live(details) + if d.deleteHashes == [] then [d.create] else []
  {
    if details == [] {
      assert details + [d] == [d];
      assert Live([d][1..]) == [];
    } else {
      assert (details + [d])[1..] == details[1..] + [d];
      LiveAppend(details[1..], d);
    }
  }

  lemma {:induction false} LiveHas(details: seq<LinkDetail>, hash: Hash)
    ensures HasLink(Live(details), hash) <==>
              exists i :: 0 <= i < |details|
                          && details[i].create.createLinkHash == hash && details[i].deleteHashes == []
  {
    if details != [] {
      LiveHas(details[1..], hash);
      var head := if details[0].deleteHashes == [] then [details[0].create] else [];
      var tail := Live(details[1..]);
      assert HasLink(head + tail, hash) <==> HasLink(head, hash) || HasLink(tail, hash) by {
        if HasLink(tail, hash) {
          var i :| 0 <= i < |tail| && tail[i].createLinkHash == hash;
          assert (head + tail)[|head| + i].createLinkHash == hash;
        }
        if HasLink(head, hash) {
          assert (head + tail)[0].createLinkHash == hash;
        }
      }
      if i :| 0 <= i < |details[1..]| && details[1..][i].create.createLinkHash == hash
              && details[1..][i].deleteHashes == [] {
        assert details[i + 1].create.createLinkHash == hash && details[i + 1].deleteHashes == [];
      }
      if i :| 0 <= i < |details| && details[i].create.createLinkHash == hash && details[i].deleteHashes == [] {
        if i > 0 {
          assert details[1..][i - 1].create.createLinkHash == hash && details[1..][i - 1].deleteHashes == [];
        }
      }
    }
  }

  /** Removing a link from the live ones is recording its deletion. */
  lemma {:induction false} DeleteKeepsLive(details: seq<LinkDetail>, createHash: Hash, deleteHash: Hash)
    requires UniqueDetails(details)
    ensures Live(Deleted(details, createHash, deleteHash)) == Removed(Live(details), createHash)
  {
    if details != [] {
      var rest := details[1..];
      DeleteKeepsLive(rest, createHash, deleteHash);
      assert Deleted(details, createHash, deleteHash)[1..] == Deleted(rest, createHash, deleteHash);
      var head := if details[0].deleteHashes == [] then [details[0].create] else [];
      RemovedBehind(head, Live(rest), createHash);
      if details[0].create.createLinkHash == createHash {
        assert forall i :: 0 <= i < |rest| ==> rest[i] == details[i + 1];
        LiveHas(rest, createHash);
        RemovedAbsent(Live(rest), createHash);
      }
    }
  }

  lemma RemovedBehind(head: seq<Link>, tail: seq<Link>, hash: Hash)
    requires |head| <= 1
    ensures Removed(head + tail, hash)
         == if head != [] && head[0].createLinkHash == hash then tail else head + Removed(tail, hash)
  {
    if head == [] {
      assert head + tail == tail;
    } else {
      assert (head + tail)[1..] == tail;
    }
  }

  lemma {:induction false} RemovedAbsent(links: seq<Link>, hash: Hash)
    requires !HasLink(links, hash)
    ensures Removed(links, hash) == links
  {
    if links != [] {
      assert links[0].createLinkHash != hash;
      assert forall i :: 0 <= i < |links[1..]| ==> links[1..][i] == links[i + 1];
      RemovedAbsent(links[1..], hash);
    }
  }

  lemma FilterHas(links: seq<Link>, hash: Hash, linkType: nat)
    ensures HasLink(Filter(links, OfType(linkType)), hash) ==> HasLink(links, hash)
  {
    var typed := Filter(links, OfType(linkType));
    if i :| 0 <= i < |typed| && typed[i].createLinkHash == hash {
      assert typed[i] in links;
    }
  }

  lemma FilterHasDetail(details: seq<LinkDetail>, hash: Hash, linkType: nat)
    ensures HasDetail(Filter(details, DetailOfType(linkType)), hash) ==> HasDetail(details, hash)
  {
    var typed := Filter(details, DetailOfType(linkType));
    if i :| 0 <= i < |typed| && typed[i].create.createLinkHash == hash {
      assert typed[i] in details;
    }
  }

  /** The typed list keeps in step with the untyped one. */
  lemma MergeKeepsTyped(links: seq<Link>, link: Link, linkType: nat)
    requires !HasLink(links, link.createLinkHash)
    ensures Filter(Merged(links, link), OfType(linkType))
         == if link.linkType == linkType then Merged(Filter(links, OfType(linkType)), link)
            else Filter(links, OfType(linkType))
  {
    FilterAppend(links, [link], OfType(linkType));
    FilterHas(links, link.createLinkHash, linkType);
    assert Filter([link], OfType(linkType)) == if link.linkType == linkType then [link] else [];
  }

  lemma {:induction false} RemoveKeepsTyped(links: seq<Link>, hash: Hash, linkType: nat)
    requires UniqueLinks(links)
    ensures Filter(Removed(links, hash), OfType(linkType)) == Removed(Filter(links, OfType(linkType)), hash)
  {
    if links != [] {
      var rest := links[1..];
      assert links == [links[0]] + rest;
      FilterAppend([links[0]], rest, OfType(linkType));
      var head := Filter([links[0]], OfType(linkType));
      assert head == if links[0].linkType == linkType then [links[0]] else [];
      RemovedBehind(head, Filter(rest, OfType(linkType)), hash);
      if links[0].createLinkHash == hash {
        assert forall i :: 0 <= i < |rest| ==> rest[i] == links[i + 1];
        FilterHas(rest, hash, linkType);
        RemovedAbsent(Filter(rest, OfType(linkType)), hash);
      } else {
        RemoveKeepsTyped(rest, hash, linkType);
        FilterAppend([links[0]], Removed(rest, hash), OfType(linkType));
      }
    }
  }

  lemma MergeDetailKeepsTyped(details: seq<LinkDetail>, link: Link, linkType: nat)
    requires !HasDetail(details, link.createLinkHash)
    ensures Filter(MergedDetail(details, link), DetailOfType(linkType))
         == if link.linkType == linkType then MergedDetail(Filter(details, DetailOfType(linkType)), link)
            else Filter(details, DetailOfType(linkType))
  {
    var d := LinkDetail(link, []);
    FilterAppend(details, [d], DetailOfType(linkType));
    FilterHasDetail(details, link.createLinkHash, linkType);
    assert Filter([d], DetailOfType(linkType)) == if link.linkType == linkType then [d] else [];
  }

  lemma FilterFirst<T(!new)>(first: T, rest: seq<T>, keep: T -> bool)
    ensures Filter([first] + rest, keep) == (if keep(first) then [first] else []) + Filter(rest, keep)
  {
    assert ([first] + rest)[1..] == rest;
  }

  lemma DeletedFirst(first: LinkDetail, rest: seq<LinkDetail>, createHash: Hash, deleteHash: Hash)
    ensures Deleted([first] + rest, createHash, deleteHash)
         == [WithDelete(first, createHash, deleteHash)] + Deleted(rest, createHash, deleteHash)
  {
  }

  lemma {:induction false} DeleteKeepsTyped(details: seq<LinkDetail>, createHash: Hash, deleteHash: Hash, linkType: nat)
    ensures Filter(Deleted(details, createHash, deleteHash), DetailOfType(linkType))
         == Deleted(Filter(details, DetailOfType(linkType)), createHash, deleteHash)
  {
    if details != [] {
      var first, rest := details[0], details[1..];
      assert details == [first] + rest;
      DeleteKeepsTyped(rest, createHash, deleteHash, linkType);
      DeletedFirst(first, rest, createHash, deleteHash);
      FilterFirst(first, rest, DetailOfType(linkType));
      FilterFirst(WithDelete(first, createHash, deleteHash), Deleted(rest, createHash, deleteHash),
                  DetailOfType(linkType));
      DeletedFirst(first, Filter(rest, DetailOfType(linkType)), createHash, deleteHash);
    }
  }

  // ---------------------------------------------------------------- every run

  /** Both caches as maps; which key is evicted next does not matter here. */
  datatype Caches = Caches(links: map<LinkKey, seq<Link>>, details: map<LinkKey, seq<LinkDetail>>)

  /** The updates of a committed zome call, and the loss of a list by eviction or invalidation. */
  datatype Update =
    | Create(base: Hash, link: Link)
    | Delete(base: Hash, createHash: Hash, deleteHash: Hash)
    | DropLinks(key: LinkKey)
    | DropDetails(key: LinkKey)

  function OnAll<V>(m: map<LinkKey, V>, change: (LinkKey, V) -> V): map<LinkKey, V> {
    map k | k in m :: change(k, m[k])
  }

  /** A create applies mergeLink and mergeLinkDetail, a delete applies removeLink and addDeleteToLinkDetails. */
  function Updated(c: Caches, u: Update): Caches {
    match u
    case Create(base, link) => Caches(OnAll(c.links, MergeAt(base, link)), OnAll(c.details, MergeDetailAt(base, link)))
    case Delete(base, h, d) => Caches(OnAll(c.links, RemoveAt(base, h)), OnAll(c.details, DeleteAt(base, h, d)))
    case DropLinks(key) => c.(links := c.links - {key})
    case DropDetails(key) => c.(details := c.details - {key})
  }

  function Updates(c: Caches, us: seq<Update>): Caches {
    if us == [] then c else Updated(Updates(c, us[..|us| - 1]), us[|us| - 1])
  }

  /** What the updates do to the class, through its four methods. */
  method ApplyCommitted(cache: LinkCache, u: Update)
    requires cache.Valid() && (u.Create? || u.Delete?)
    modifies cache
    ensures cache.Valid()
    ensures Caches(cache.links.vals, cache.linkDetails.vals)
         == Updated(Caches(old(cache.links.vals), old(cache.linkDetails.vals)), u)
  {
    match u
    case Create(base, link) =>
      cache.MergeLinkIntoCache(base, link);
      cache.MergeLinkDetailIntoCache(base, link);
    case Delete(base, createHash, deleteHash) =>
      cache.RemoveLinkFromCache(base, createHash);
      cache.AddDeleteToLinkDetailsCache(base, createHash, deleteHash);
  }

  /** The lists agree: hashes are unique in each; a list for one link type is the untyped list of its base filtered by
      the type; and a list of links is what the list of details under the same key says is not deleted. */
  ghost predicate Agree(c: Caches) {
    && (forall k :: k in c.links ==> UniqueLinks(c.links[k]))
    && (forall k :: k in c.details ==> UniqueDetails(c.details[k]))
    && (forall b, t :: Untyped(b) in c.links && Typed(b, t) in c.links ==>
          c.links[Typed(b, t)] == Filter(c.links[Untyped(b)], OfType(t)))
    && (forall b, t :: Untyped(b) in c.details && Typed(b, t) in c.details ==>
          c.details[Typed(b, t)] == Filter(c.details[Untyped(b)], DetailOfType(t)))
    && (forall k :: k in c.links && k in c.details ==> c.links[k] == Live(c.details[k]))
  }

  /** No list holds a create with this hash. */
  ghost predicate Fresh(c: Caches, hash: Hash) {
    && (forall k :: k in c.links ==> !HasLink(c.links[k], hash))
    && (forall k :: k in c.details ==> !HasDetail(c.details[k], hash))
  }

  lemma CreateKeepsUnique(c: Caches, base: Hash, link: Link)
    requires Agree(c) && Fresh(c, link.createLinkHash)
    ensures var c' := Updated(c, Create(base, link));
            && (forall k :: k in c.links ==> UniqueLinks(c'.links[k]))
            && (forall k :: k in c.details ==> UniqueDetails(c'.details[k]))
  {
    var c' := Updated(c, Create(base, link));
    forall k | k in c.links
      ensures UniqueLinks(c'.links[k])
    {
      assert !HasLink(c.links[k], link.createLinkHash);
    }
    forall k | k in c.details
      ensures UniqueDetails(c'.details[k])
    {
      assert !HasDetail(c.details[k], link.createLinkHash);
    }
  }

  lemma CreateKeepsAgreement(c: Caches, base: Hash, link: Link)
    requires Agree(c) && Fresh(c, link.createLinkHash)
    ensures Agree(Updated(c, Create(base, link)))
  {
    var c' := Updated(c, Create(base, link));
    CreateKeepsUnique(c, base, link);
    forall b, t | Untyped(b) in c.links && Typed(b, t) in c.links
      ensures c'.links[Typed(b, t)] == Filter(c'.links[Untyped(b)], OfType(t))
    {
      MergeKeepsTyped(c.links[Untyped(b)], link, t);
    }
    forall b, t | Untyped(b) in c.details && Typed(b, t) in c.details
      ensures c'.details[Typed(b, t)] == Filter(c'.details[Untyped(b)], DetailOfType(t))
    {
      MergeDetailKeepsTyped(c.details[Untyped(b)], link, t);
    }
    forall k | k in c.links && k in c.details
      ensures c'.links[k] == Live(c'.details[k])
    {
      MergeKeepsLive(c.links[k], c.details[k], link);
    }
  }

  lemma DeleteKeepsAgreement(c: Caches, base: Hash, createHash: Hash, deleteHash: Hash)
    requires Agree(c)
    ensures Agree(Updated(c, Delete(base, createHash, deleteHash)))
  {
    var c' := Updated(c, Delete(base, createHash, deleteHash));
    forall k | k in c.links
      ensures UniqueLinks(c'.links[k])
    {
      RemovedStaysUnique(c.links[k], createHash);
    }
    forall k | k in c.details
      ensures UniqueDetails(c'.details[k])
    {
      var before, after := c.details[k], Deleted(c.details[k], createHash, deleteHash);
      assert forall i :: 0 <= i < |after| ==> after[i].create == before[i].create;
    }
    forall b, t | Untyped(b) in c.links && Typed(b, t) in c.links
      ensures c'.links[Typed(b, t)] == Filter(c'.links[Untyped(b)], OfType(t))
    {
      RemoveKeepsTyped(c.links[Untyped(b)], createHash, t);
    }
    forall b, t | Untyped(b) in c.details && Typed(b, t) in c.details
      ensures c'.details[Typed(b, t)] == Filter(c'.details[Untyped(b)], DetailOfType(t))
    {
      DeleteKeepsTyped(c.details[Untyped(b)], createHash, deleteHash, t);
    }
    forall k | k in c.links && k in c.details
      ensures c'.links[k] == Live(c'.details[k])
    {
      DeleteKeepsLive(c.details[k], createHash, deleteHash);
    }
  }

  lemma RemovedStaysUnique(links: seq<Link>, hash: Hash)
    requires UniqueLinks(links)
    ensures UniqueLinks(Removed(links, hash))
  {
    if i :| 0 <= i < |links| && links[i].createLinkHash == hash {
      RemovedMeaning(links, hash, i);
    } else {
      RemovedAbsent(links, hash);
    }
  }

  /** Every create of a run has a hash that no list holds when it is applied. */
  ghost predicate FreshCreates(c: Caches, us: seq<Update>) {
    forall n :: 0 <= n < |us| && us[n].Create? ==> Fresh(Updates(c, us[..n]), us[n].link.createLinkHash)
  }

  /** Agreement survives every run of commits, evictions and invalidations. */
  lemma {:induction false} RunsKeepAgreement(c: Caches, us: seq<Update>)
    requires Agree(c) && FreshCreates(c, us)
    ensures Agree(Updates(c, us))
  {
    if us != [] {
      var front, u := us[..|us| - 1], us[|us| - 1];
      forall n | 0 <= n < |front| && front[n].Create?
        ensures Fresh(Updates(c, front[..n]), front[n].link.createLinkHash)
      {
        assert front[..n] == us[..n] && front[n] == us[n];
      }
      RunsKeepAgreement(c, front);
      match u
      case Create(base, link) => CreateKeepsAgreement(Updates(c, front), base, link);
      case Delete(base, h, d) => DeleteKeepsAgreement(Updates(c, front), base, h, d);
      case DropLinks(_) =>
      case DropDetails(_) =>
    }
  }

  /** Without freshness it fails: a create that is merged again after its deletion is live in one cache only. */
  lemma RecreatedLinkDisagrees(key: Hash, link: Link)
    ensures var c := Caches(map[Untyped(key) := []], map[Untyped(key) := [LinkDetail(link, ["d"])]]);
            Agree(c) && !Agree(Updated(c, Create(key, link)))
  {
    var c := Caches(map[Untyped(key) := []], map[Untyped(key) := [LinkDetail(link, ["d"])]]);
    assert Live(c.details[Untyped(key)]) == [] by {
      assert c.details[Untyped(key)][1..] == [];
    }
    var d := c.details[Untyped(key)];
    assert d[0].create.createLinkHash == link.createLinkHash;
    MergeKeepsLive([], d, link);
    assert Untyped(key) in Updated(c, Create(key, link)).links;
  }
}
