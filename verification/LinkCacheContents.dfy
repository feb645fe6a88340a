/** What is in the link caches after any run of committed calls: exactly the links created under a matching key and not
    deleted since, and with every create the deletions recorded for it. */
module LinkCacheContents {
  import opened LinkCaching
  import opened OrderedMaps
  import opened Sequences

  // ---------------------------------------------------------------- one list

  lemma {:induction false} RemovedElements(links: seq<Link>, hash: Hash, l: Link)
    requires UniqueLinks(links)
    ensures l in Removed(links, hash) <==> l in links && l.createLinkHash != hash
  {
    if links != [] {
      assert links == [links[0]] + links[1..];
      RemovedElements(links[1..], hash, l);
      assert forall i :: 0 <= i < |links[1..]| ==> links[1..][i].createLinkHash != links[0].createLinkHash;
    }
  }

  lemma MergedElements(links: seq<Link>, link: Link, l: Link)
    requires !HasLink(links, link.createLinkHash)
    ensures l in Merged(links, link) <==> l in links || l == link
  {
  }

  // ---------------------------------------------------------------- lists of links

  /** The link is in the list under the key, by what was asked for. */
  predicate ListedAfter(c: Caches, us: seq<Update>, key: LinkKey, l: Link) {
    if us == [] then key in c.links && l in c.links[key]
    else
      var before := ListedAfter(c, us[..|us| - 1], key, l);
      match us[|us| - 1]
      case Create(base, link) =>
        before || (l == link && key.base == base && (key.Typed? ==> key.linkType == l.linkType))
      case Delete(base, createHash, _) => before && !(key.base == base && l.createLinkHash == createHash)
      case DropLinks(_) => before
      case DropDetails(_) => before
  }

  lemma FreshPrefix(c: Caches, us: seq<Update>)
    requires us != [] && FreshCreates(c, us)
    ensures FreshCreates(c, us[..|us| - 1])
  {
    var front := us[..|us| - 1];
    forall n | 0 <= n < |front| && front[n].Create?
      ensures Fresh(Updates(c, front[..n]), front[n].link.createLinkHash)
    {
      assert front[..n] == us[..n] && front[n] == us[n];
    }
  }

  lemma ListStep(c: Caches, u: Update, key: LinkKey, l: Link)
    requires Agree(c) && key in Updated(c, u).links && (u.Create? ==> Fresh(c, u.link.createLinkHash))
    ensures key in c.links
    ensures l in Updated(c, u).links[key]
       <==> match u
            case Create(base, link) =>
              l in c.links[key] || (l == link && key.base == base && (key.Typed? ==> key.linkType == l.linkType))
            case Delete(base, createHash, _) =>
              l in c.links[key] && !(key.base == base && l.createLinkHash == createHash)
            case _ => l in c.links[key]
  {
    match u
    case Create(base, link) => MergedElements(c.links[key], link, l);
    case Delete(base, createHash, _) => RemovedElements(c.links[key], createHash, l);
    case _ =>
  }

  /** Over every run with fresh creates, a list that is still cached holds exactly these links, each once. */
  lemma {:induction false} ListsHoldWhatWasCommitted(c: Caches, us: seq<Update>, key: LinkKey, l: Link)
    requires Agree(c) && FreshCreates(c, us) && key in Updates(c, us).links
    ensures l in Updates(c, us).links[key] <==> ListedAfter(c, us, key, l)
    ensures UniqueLinks(Updates(c, us).links[key])
  {
    RunsKeepAgreement(c, us);
    if us != [] {
      var front, u := us[..|us| - 1], us[|us| - 1];
      FreshPrefix(c, us);
      RunsKeepAgreement(c, front);
      assert u.Create? ==> Fresh(Updates(c, front), u.link.createLinkHash);
      ListStep(Updates(c, front), u, key, l);
      ListsHoldWhatWasCommitted(c, front, key, l);
    }
  }

  // ---------------------------------------------------------------- lists of details

  predicate HasCreate(details: seq<LinkDetail>, l: Link) {
    exists i :: 0 <= i < |details| && details[i].create == l
  }

  predicate HasDelete(details: seq<LinkDetail>, l: Link, d: Hash) {
    exists i :: 0 <= i < |details| && details[i].create == l && d in details[i].deleteHashes
  }

  /** The create is in the list of details under the key, by what was asked for. */
  predicate CreatedAfter(c: Caches, us: seq<Update>, key: LinkKey, l: Link) {
    if us == [] then key in c.details && HasCreate(c.details[key], l)
    else
      var u := us[|us| - 1];
      CreatedAfter(c, us[..|us| - 1], key, l)
      || (u.Create? && l == u.link && key.base == u.base && (key.Typed? ==> key.linkType == l.linkType))
  }

  /** The deletion `d` of the link is recorded there. */
  predicate DeletedAfter(c: Caches, us: seq<Update>, key: LinkKey, l: Link, d: Hash) {
    if us == [] then key in c.details && HasDelete(c.details[key], l, d)
    else
      var front, u := us[..|us| - 1], us[|us| - 1];
      DeletedAfter(c, front, key, l, d)
      || (u.Delete? && CreatedAfter(c, front, key, l)
          && key.base == u.base && l.createLinkHash == u.createHash && d == u.deleteHash)
  }

  lemma MergedDetailMeaning(details: seq<LinkDetail>, link: Link, l: Link, d: Hash)
    requires !HasDetail(details, link.createLinkHash)
    ensures HasCreate(MergedDetail(details, link), l) <==> HasCreate(details, l) || l == link
    ensures HasDelete(MergedDetail(details, link), l, d) <==> HasDelete(details, l, d)
  {
    var more := MergedDetail(details, link);
    assert more[|details|] == LinkDetail(link, []);
    assert forall i :: 0 <= i < |details| ==> more[i] == details[i];
  }

  lemma DeletedMeaning(details: seq<LinkDetail>, createHash: Hash, deleteHash: Hash, l: Link, d: Hash)
    ensures HasCreate(Deleted(details, createHash, deleteHash), l) <==> HasCreate(details, l)
    ensures HasDelete(Deleted(details, createHash, deleteHash), l, d)
       <==> HasDelete(details, l, d) || (HasCreate(details, l) && l.createLinkHash == createHash && d == deleteHash)
  {
    var after := Deleted(details, createHash, deleteHash);
    assert forall i :: 0 <= i < |details| ==> after[i].create == details[i].create;
    if i :| 0 <= i < |details| && details[i].create == l {
      assert after[i].create == l;
      if l.createLinkHash == createHash {
        assert deleteHash in after[i].deleteHashes;
      }
    }
    if i :| 0 <= i < |details| && details[i].create == l && d in details[i].deleteHashes {
      assert after[i].create == l && d in after[i].deleteHashes;
    }
  }

  lemma DetailStep(c: Caches, u: Update, key: LinkKey, l: Link, d: Hash)
    requires Agree(c) && key in Updated(c, u).details && (u.Create? ==> Fresh(c, u.link.createLinkHash))
    ensures key in c.details
    ensures HasCreate(Updated(c, u).details[key], l)
       <==> HasCreate(c.details[key], l)
            || (u.Create? && l == u.link && key.base == u.base && (key.Typed? ==> key.linkType == l.linkType))
    ensures HasDelete(Updated(c, u).details[key], l, d)
       <==> HasDelete(c.details[key], l, d)
            || (u.Delete? && HasCreate(c.details[key], l)
                && key.base == u.base && l.createLinkHash == u.createHash && d == u.deleteHash)
  {
    match u
    case Create(base, link) => MergedDetailMeaning(c.details[key], link, l, d);
    case Delete(base, createHash, deleteHash) => DeletedMeaning(c.details[key], createHash, deleteHash, l, d);
    case _ =>
  }

  /** Over every run with fresh creates, a list of details that is still cached holds exactly these creates, each once,
      with exactly these deletions. */
  lemma {:induction false} DetailsHoldWhatWasCommitted(c: Caches, us: seq<Update>, key: LinkKey, l: Link, d: Hash)
    requires Agree(c) && FreshCreates(c, us) && key in Updates(c, us).details
    ensures HasCreate(Updates(c, us).details[key], l) <==> CreatedAfter(c, us, key, l)
    ensures HasDelete(Updates(c, us).details[key], l, d) <==> DeletedAfter(c, us, key, l, d)
    ensures UniqueDetails(Updates(c, us).details[key])
  {
    RunsKeepAgreement(c, us);
    if us != [] {
      var front, u := us[..|us| - 1], us[|us| - 1];
      FreshPrefix(c, us);
      RunsKeepAgreement(c, front);
      assert u.Create? ==> Fresh(Updates(c, front), u.link.createLinkHash);
      DetailStep(Updates(c, front), u, key, l, d);
      DetailsHoldWhatWasCommitted(c, front, key, l, d);
    }
  }
}
