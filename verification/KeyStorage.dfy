/** `MemoryKeyStorage`, which keeps private copies of the seeds it is given. Seeds and keys are mutable byte arrays, and
    callers do overwrite them. */
module KeyStorage {
  import opened ByteTypes
  import opened Sequences
  import opened Wrappers

  type Tag = string
  datatype EntryInfo = EntryInfo(tag: Tag, details: string)
  /** An entry as an object: its seed is an array. As a value: its seed is the bytes. */
  datatype StoredKeyEntry = StoredKeyEntry(info: EntryInfo, seed: array<Byte>)
  datatype KeyEntry = KeyEntry(info: EntryInfo, seed: Bytes)
  type View = map<Tag, KeyEntry>

  method Copy(bytes: Bytes) returns (a: array<Byte>)
    ensures fresh(a) && a[..] == bytes
  {
    a := new Byte[|bytes|](i requires 0 <= i < |bytes| => bytes[i]);
  }

  /** `fill(0)` and `memzero`. */
  method Wipe(a: array<Byte>)
    modifies a
    ensures forall i :: 0 <= i < a.Length ==> a[i] == 0
  {
    for i := 0 to a.Length
      invariant forall j :: 0 <= j < i ==> a[j] == 0
    {
      a[i] := 0;
    }
  }

  function Tags(infos: seq<EntryInfo>): (tags: seq<Tag>)
    ensures |tags| == |infos|
  {
    seq(|infos|, i requires 0 <= i < |infos| => infos[i].tag)
  }

  lemma AppendTag(infos: seq<EntryInfo>, info: EntryInfo)
    requires Distinct(Tags(infos)) && info.tag !in Elements(Tags(infos))
    ensures Distinct(Tags(infos + [info]))
    ensures Elements(Tags(infos + [info])) == Elements(Tags(infos)) + {info.tag}
  {
    assert Tags(infos + [info]) == Tags(infos) + [info.tag];
    assert forall t :: t in Tags(infos) ==> t in Elements(Tags(infos));
    DistinctAppend(Tags(infos), [info.tag]);
  }

  class MemoryKeyStorage {
    var entries: map<Tag, StoredKeyEntry>

    /** Every array the store has made for itself. */
    ghost var seeds: set<array<Byte>>

    /** Every entry is filed under its own tag, and its seed is one of the store's own arrays, shared with no other. */
    ghost predicate Valid()
      reads this
    {
      && (forall t :: t in entries ==> entries[t].info.tag == t && entries[t].seed in seeds)
      && (forall t, u :: t in entries && u in entries && t != u ==> entries[t].seed != entries[u].seed)
    }

    ghost function Contents(): (v: View)
      requires Valid()
      reads this, seeds
      ensures v.Keys == entries.Keys
    {
      map t | t in entries :: KeyEntry(entries[t].info, entries[t].seed[..])
    }

    constructor ()
      ensures Valid() && entries == map[] && seeds == {}
    {
      entries, seeds := map[], {};
    }

    /** Stores a copy. */
    method PutEntry(entry: StoredKeyEntry)
      requires Valid()
      modifies this
      ensures Valid() && old(seeds) <= seeds && fresh(seeds - old(seeds))
      ensures Contents() == old(Contents())[entry.info.tag := KeyEntry(entry.info, old(entry.seed[..]))]
    {
      var seed := Copy(entry.seed[..]);
      entries := entries[entry.info.tag := StoredKeyEntry(entry.info, seed)];
      seeds := seeds + {seed};
      forall t | t in entries
        ensures Contents()[t]
             == if t == entry.info.tag then KeyEntry(entry.info, old(entry.seed[..])) else old(Contents())[t]
      {
        assert t != entry.info.tag ==> entries[t] == old(entries)[t];
      }
    }

    /** Hands out a copy. */
    method GetEntry(tag: Tag) returns (entry: Option<StoredKeyEntry>)
      requires Valid()
      ensures entry.None? <==> tag !in entries
      ensures entry.Some? ==>
                fresh(entry.value.seed) && KeyEntry(entry.value.info, entry.value.seed[..]) == Contents()[tag]
    {
      if tag !in entries {
        return None;
      }
      var seed := Copy(entries[tag].seed[..]);
      entry := Some(StoredKeyEntry(entries[tag].info, seed));
    }

    /** The infos of all entries, each once, in some order. */
    method ListEntries() returns (infos: seq<EntryInfo>)
      requires Valid()
      ensures Distinct(Tags(infos)) && Elements(Tags(infos)) == entries.Keys
    {
      infos := [];
      var todo := entries.Keys;
      while todo != {}
        invariant todo <= entries.Keys
        invariant Distinct(Tags(infos)) && Elements(Tags(infos)) == entries.Keys - todo
        decreases |todo|
      {
        var tag :| tag in todo;
        AppendTag(infos, entries[tag].info);
        infos := infos + [entries[tag].info];
        todo := todo - {tag};
      }
    }

    /** Zeroes the seed before it forgets it. */
    method DeleteEntry(tag: Tag)
      requires Valid()
      modifies this, seeds
      ensures Valid() && seeds == old(seeds)
      ensures Contents() == old(Contents()) - {tag}
      ensures tag in old(entries) ==>
                forall i :: 0 <= i < old(entries)[tag].seed.Length ==> old(entries)[tag].seed[i] == 0
    {
      if tag in entries {
        Wipe(entries[tag].seed);
        entries := entries - {tag};
      }
    }
  }
}
