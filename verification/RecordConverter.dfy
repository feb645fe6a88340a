/** Stored actions and entries in the form in which they are published (`record-converter.ts`). */
module RecordConverter {
  import opened ByteTypes
  import opened ChainTypes
  import opened Wrappers
  import SourceChains

  type StoredEntry = SourceChains.StoredEntry
  type EntryKind = SourceChains.EntryKind

  // ---------------------------------------------------------------- timestamps as numbers

  const TWO_TO_THE_53 := 0x20_0000_0000_0000

  /** The distance between neighbouring doubles at a magnitude. */
  function Spacing(magnitude: nat): (q: nat)
    ensures q > 0
  {
    if magnitude < TWO_TO_THE_53 then 1 else 2 * Spacing(magnitude / 2)
  }

  /** A number that is `rest` more than `below` units, to whole units, ties to the even one. */
  function WholeUnits(below: nat, rest: nat, unit: nat): nat {
    if 2 * rest < unit || (2 * rest == unit && below % 2 == 0) then below else below + 1
  }

  /** To the nearest double (IEEE 754). */
  function Nearest(magnitude: nat): nat {
    var unit := Spacing(magnitude);
    WholeUnits(magnitude / unit, magnitude % unit, unit) * unit
  }

  /** `Number(timestamp)`. */
  function NumberOf(timestamp: int): int {
    if timestamp < 0 then -(Nearest(-timestamp) as int) else Nearest(timestamp)
  }

  /** The timestamp is a double. */
  predicate IsDouble(timestamp: int) {
    var magnitude := if timestamp < 0 then -timestamp else timestamp;
    magnitude % Spacing(magnitude) == 0
  }

  lemma NumberIsExactIff(timestamp: int)
    ensures NumberOf(timestamp) == timestamp <==> IsDouble(timestamp)
    ensures -TWO_TO_THE_53 <= timestamp <= TWO_TO_THE_53 ==> IsDouble(timestamp)
  {
    var magnitude: nat := if timestamp < 0 then -timestamp else timestamp;
    NearestIsExactIff(magnitude);
    if magnitude == TWO_TO_THE_53 {
      assert Spacing(magnitude / 2) == 1;
      assert Spacing(magnitude) == 2;
    }
  }

  lemma NearestIsExactIff(magnitude: nat)
    ensures Nearest(magnitude) == magnitude <==> magnitude % Spacing(magnitude) == 0
  {
    WholeUnitsAreExactIff(magnitude, Spacing(magnitude));
  }

  lemma WholeUnitsAreExactIff(magnitude: nat, unit: nat)
    requires unit > 0
    ensures WholeUnits(magnitude / unit, magnitude % unit, unit) * unit == magnitude <==> magnitude % unit == 0
  {
    var below, rest := magnitude / unit, magnitude % unit;
    assert magnitude == below * unit + rest;
    OnlyWholeUnitsAreExact(below, rest, unit);
  }

  lemma OnlyWholeUnitsAreExact(below: nat, rest: nat, unit: nat)
    requires rest < unit
    ensures WholeUnits(below, rest, unit) * unit == below * unit + rest <==> rest == 0
  {
    assert (below + 1) * unit == below * unit + unit;
  }

  // ---------------------------------------------------------------- the wire format

  /** `entry_type` of a create or update: an object for app entries, a string for the others. The third form is the
      one the storage uses, which recovery accepts as well. */
  datatype WireEntryType =
    | AppEntry(entryIndex: nat, zomeIndex: nat) | Named(name: string) | AlreadyStored(entryType: AppEntryType)

  /** An action on the wire, with the fields of all types; those of other types are missing. */
  datatype WireAction = WireAction(
    actionType: ActionType, author: Bytes, timestamp: int, actionSeq: Option<nat>, prevAction: Option<Bytes>,
    hash: Option<Bytes>, entryType: Option<WireEntryType>, entryHash: Option<Bytes>,
    originalActionAddress: Option<Bytes>, originalEntryAddress: Option<Bytes>, deletesAddress: Option<Bytes>,
    deletesEntryAddress: Option<Bytes>, baseAddress: Option<Bytes>, targetAddress: Option<Bytes>,
    zomeIndex: Option<nat>, linkType: Option<nat>, tag: Option<Bytes>, linkAddAddress: Option<Bytes>,
    membraneProof: Option<Bytes>)

  /** An entry on the wire: its kind by name, and its bytes. */
  datatype WireEntry = WireEntry(entryType: string, entry: Option<Bytes>)

  datatype WireRecord = WireRecord(actionHash: Bytes, content: WireAction, signature: Bytes, entry: Option<WireEntry>)

  /** `hashFrom32AndType` for agents makes a key of 39 bytes out of the first 32. */
  datatype Hashing = Hashing(agentFrom32: Bytes -> Bytes)

  ghost predicate MakesFullKeys(h: Hashing) {
    forall b :: |h.agentFrom32(b)| == 39
  }

  function EnsureAgentPubKey(h: Hashing, raw: Bytes): Bytes {
    if |raw| == 39 then raw else h.agentFrom32(Slice(raw, 0, 32))
  }

  function WireEntryTypeOf(t: Option<AppEntryType>): WireEntryType {
    if t.Some? then AppEntry(t.value.entryIndex, t.value.zomeId) else Named("AgentPubKey")
  }

  function WireBase(h: Hashing, a: Action): WireAction {
    WireAction(TypeOf(a.body), EnsureAgentPubKey(h, a.author), NumberOf(a.timestamp), Some(a.actionSeq),
               a.prevActionHash, None, None, None, None, None, None, None, None, None, None, None, None, None, None)
  }

  /** `storedActionToClientAction`. */
  function StoredActionToClientAction(h: Hashing, a: Action): WireAction {
    var w := WireBase(h, a);
    match a.body
    case Create(e, t) => w.(entryType := Some(WireEntryTypeOf(t)), entryHash := Some(e))
    case Update(e, t, oa, oe) =>
      w.(entryType := Some(WireEntryTypeOf(t)), entryHash := Some(e), originalActionAddress := Some(oa),
         originalEntryAddress := Some(oe))
    case Delete(da, de) => w.(deletesAddress := Some(da), deletesEntryAddress := Some(de))
    case CreateLink(b, t, z, l, tag) =>
      w.(baseAddress := Some(b), targetAddress := Some(t), zomeIndex := Some(z), linkType := Some(l), tag := Some(tag))
    case DeleteLink(l, b) => w.(baseAddress := Some(b), linkAddAddress := Some(l))
    case Dna(d) => w.(actionSeq := None, prevAction := None, hash := Some(d))
    case AgentValidationPkg(m) => w.(membraneProof := m)
    case InitZomesComplete => w
  }

  /** `storedEntryToClientEntry`: every entry but the agent's is published as an app entry. */
  function StoredEntryToClientEntry(e: StoredEntry): WireEntry {
    if e.entryType.Agent? then WireEntry("Agent", Some(e.entryContent)) else WireEntry("App", Some(e.entryContent))
  }

  /** `buildRecord`. */
  function BuildRecord(h: Hashing, a: Action, e: Option<StoredEntry>): WireRecord {
    WireRecord(a.actionHash, StoredActionToClientAction(h, a), a.signature,
               if e.Some? then Some(StoredEntryToClientEntry(e.value)) else None)
  }
}
