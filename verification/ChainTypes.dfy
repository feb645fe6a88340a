/** Source chain values as the storage layer keeps them, and the conversion of actions to and from database records
    (`actionToStorable`, `storableToAction`). */
module ChainTypes {
  import opened ByteTypes
  import opened Decimals
  import opened Wrappers

  /** A plain array of numbers; `Bytes` is a Uint8Array. */
  type Numbers = seq<int>

  /** `Array.from(bytes)`. */
  function FromBytes(bytes: Bytes): Numbers {
    bytes
  }

  /** `new Uint8Array(numbers)`: every number is reduced to a byte. */
  function ToBytes(numbers: Numbers): (bytes: Bytes)
    ensures |bytes| == |numbers|
  {
    seq(|numbers|, i requires 0 <= i < |numbers| => numbers[i] % 256)
  }

  lemma BytesSurvive(bytes: Bytes)
    ensures ToBytes(FromBytes(bytes)) == bytes
  {
  }

  datatype AppEntryType = AppEntryType(zomeId: nat, entryIndex: nat)

  datatype ActionType =
    | DnaType | AgentValidationPkgType | InitZomesCompleteType | CreateType | UpdateType | DeleteType | CreateLinkType
    | DeleteLinkType

  /** What an action of each type carries beside the common fields. */
  datatype Body =
    | Dna(dnaHash: Bytes)
    | AgentValidationPkg(membraneProof: Option<Bytes>)
    | InitZomesComplete
    | Create(entryHash: Bytes, entryType: Option<AppEntryType>)
    | Update(entryHash: Bytes, entryType: Option<AppEntryType>, originalActionHash: Bytes, originalEntryHash: Bytes)
    | Delete(deletesActionHash: Bytes, deletesEntryHash: Bytes)
    | CreateLink(baseAddress: Bytes, targetAddress: Bytes, zomeIndex: nat, linkType: nat, tag: Bytes)
    | DeleteLink(linkAddAddress: Bytes, baseAddress: Bytes)

  datatype Action = Action(actionHash: Bytes, actionSeq: nat, author: Bytes, timestamp: int,
                           prevActionHash: Option<Bytes>, signature: Bytes, body: Body)

  /** An action as a JavaScript object: any field may be there or not, whatever the type says. */
  datatype Fields = Fields(
    actionHash: Bytes, actionSeq: nat, author: Bytes, timestamp: int, prevActionHash: Option<Bytes>,
    actionType: ActionType, signature: Bytes, entryHash: Option<Bytes>, entryType: Option<AppEntryType>,
    originalActionHash: Option<Bytes>, originalEntryHash: Option<Bytes>, deletesActionHash: Option<Bytes>,
    deletesEntryHash: Option<Bytes>, baseAddress: Option<Bytes>, targetAddress: Option<Bytes>, zomeIndex: Option<nat>,
    linkType: Option<nat>, tag: Option<Bytes>, linkAddAddress: Option<Bytes>, dnaHash: Option<Bytes>,
    membraneProof: Option<Bytes>)

  /** The database record of an action. */
  datatype StorableAction = StorableAction(
    actionHash: Numbers, actionSeq: nat, author: Numbers, timestamp: string, prevActionHash: Option<Numbers>,
    actionType: ActionType, signature: Numbers, entryHash: Option<Numbers>, entryType: Option<AppEntryType>,
    originalActionHash: Option<Numbers>, originalEntryHash: Option<Numbers>, deletesActionHash: Option<Numbers>,
    deletesEntryHash: Option<Numbers>, baseAddress: Option<Numbers>, targetAddress: Option<Numbers>,
    zomeIndex: Option<nat>, linkType: Option<nat>, tag: Option<Numbers>, linkAddAddress: Option<Numbers>,
    dnaHash: Option<Numbers>, membraneProof: Option<Numbers>)

  function TypeOf(body: Body): ActionType {
    match body
    case Dna(_) => DnaType
    case AgentValidationPkg(_) => AgentValidationPkgType
    case InitZomesComplete => InitZomesCompleteType
    case Create(_, _) => CreateType
    case Update(_, _, _, _) => UpdateType
    case Delete(_, _) => DeleteType
    case CreateLink(_, _, _, _, _) => CreateLinkType
    case DeleteLink(_, _) => DeleteLinkType
  }

  function CommonFields(a: Action): Fields {
    Fields(a.actionHash, a.actionSeq, a.author, a.timestamp, a.prevActionHash, TypeOf(a.body), a.signature,
           None, None, None, None, None, None, None, None, None, None, None, None, None, None)
  }

  function FieldsOf(a: Action): Fields {
    var f := CommonFields(a);
    match a.body
    case Dna(h) => f.(dnaHash := Some(h))
    case AgentValidationPkg(m) => f.(membraneProof := m)
    case InitZomesComplete => f
    case Create(e, t) => f.(entryHash := Some(e), entryType := t)
    case Update(e, t, oa, oe) =>
      f.(entryHash := Some(e), entryType := t, originalActionHash := Some(oa), originalEntryHash := Some(oe))
    case Delete(da, de) => f.(deletesActionHash := Some(da), deletesEntryHash := Some(de))
    case CreateLink(b, t, z, l, tag) =>
      f.(baseAddress := Some(b), targetAddress := Some(t), zomeIndex := Some(z), linkType := Some(l), tag := Some(tag))
    case DeleteLink(a, b) => f.(linkAddAddress := Some(a), baseAddress := Some(b))
  }

  /** The fields that are copied with `Array.from` for the action's type must be there, or the conversion throws. */
  predicate Complete(f: Fields) {
    match f.actionType
    case DnaType => f.dnaHash.Some?
    case AgentValidationPkgType => true
    case InitZomesCompleteType => true
    case CreateType => f.entryHash.Some?
    case UpdateType => f.entryHash.Some? && f.originalActionHash.Some? && f.originalEntryHash.Some?
    case DeleteType => f.deletesActionHash.Some? && f.deletesEntryHash.Some?
    case CreateLinkType => f.baseAddress.Some? && f.targetAddress.Some? && f.tag.Some?
    case DeleteLinkType => f.linkAddAddress.Some? && f.baseAddress.Some?
  }

  function Copied(bytes: Option<Bytes>): Option<Numbers> {
    if bytes.Some? then Some(FromBytes(bytes.value)) else None
  }

  function StorableBase(f: Fields): StorableAction {
    StorableAction(FromBytes(f.actionHash), f.actionSeq, FromBytes(f.author), Print(f.timestamp),
                   Copied(f.prevActionHash), f.actionType, FromBytes(f.signature),
                   None, None, None, None, None, None, None, None, None, None, None, None, None, None)
  }

  /** `actionToStorable`; None when it throws. */
  function ActionToStorable(f: Fields): Option<StorableAction> {
    if !Complete(f) then None
    else
      var s := StorableBase(f);
      Some(match f.actionType
           case CreateType => s.(entryHash := Copied(f.entryHash), entryType := f.entryType)
           case UpdateType =>
             s.(entryHash := Copied(f.entryHash), entryType := f.entryType,
                originalActionHash := Copied(f.originalActionHash), originalEntryHash := Copied(f.originalEntryHash))
           case DeleteType =>
             s.(deletesActionHash := Copied(f.deletesActionHash), deletesEntryHash := Copied(f.deletesEntryHash))
           case CreateLinkType =>
             s.(baseAddress := Copied(f.baseAddress), targetAddress := Copied(f.targetAddress),
                zomeIndex := f.zomeIndex, linkType := f.linkType, tag := Copied(f.tag))
           case DeleteLinkType =>
             s.(linkAddAddress := Copied(f.linkAddAddress), baseAddress := Copied(f.baseAddress))
           case DnaType => s.(dnaHash := Copied(f.dnaHash))
           case AgentValidationPkgType => s.(membraneProof := Copied(f.membraneProof))
           case InitZomesCompleteType => s)
  }

  /** `new Uint8Array(x!)`: a missing array gives an empty one. */
  function Restored(numbers: Option<Numbers>): Bytes {
    if numbers.Some? then ToBytes(numbers.value) else []
  }

  function RestoredOption(numbers: Option<Numbers>): Option<Bytes> {
    if numbers.Some? then Some(ToBytes(numbers.value)) else None
  }

  function OrZero(n: Option<nat>): nat {
    if n.Some? then n.value else 0
  }

  function RestoredBody(s: StorableAction): Body {
    match s.actionType
    case CreateType => Create(Restored(s.entryHash), s.entryType)
    case UpdateType =>
      Update(Restored(s.entryHash), s.entryType, Restored(s.originalActionHash), Restored(s.originalEntryHash))
    case DeleteType => Delete(Restored(s.deletesActionHash), Restored(s.deletesEntryHash))
    case CreateLinkType =>
      CreateLink(Restored(s.baseAddress), Restored(s.targetAddress), OrZero(s.zomeIndex), OrZero(s.linkType),
                 Restored(s.tag))
    case DeleteLinkType => DeleteLink(Restored(s.linkAddAddress), Restored(s.baseAddress))
    case DnaType => Dna(Restored(s.dnaHash))
    case AgentValidationPkgType => AgentValidationPkg(RestoredOption(s.membraneProof))
    case InitZomesCompleteType => InitZomesComplete
  }

  /** `storableToAction`. */
  function StorableToAction(s: StorableAction): Action {
    Action(ToBytes(s.actionHash), s.actionSeq, ToBytes(s.author), Parse(s.timestamp), RestoredOption(s.prevActionHash),
           ToBytes(s.signature), RestoredBody(s))
  }

  function Storable(a: Action): StorableAction {
    ActionToStorable(FieldsOf(a)).value
  }

  lemma OptionalBytesSurvive(bytes: Option<Bytes>)
    ensures RestoredOption(Copied(bytes)) == bytes
    ensures bytes.Some? ==> Restored(Copied(bytes)) == bytes.value
  {
    if bytes.Some? {
      BytesSurvive(bytes.value);
    }
  }

  lemma BodySurvives(a: Action)
    ensures RestoredBody(Storable(a)) == a.body
  {
    var f := FieldsOf(a);
    match a.body
    case Dna(_) => OptionalBytesSurvive(f.dnaHash);
    case AgentValidationPkg(_) => OptionalBytesSurvive(f.membraneProof);
    case InitZomesComplete =>
    case Create(_, _) => OptionalBytesSurvive(f.entryHash);
    case Update(_, _, _, _) =>
      OptionalBytesSurvive(f.entryHash);
      OptionalBytesSurvive(f.originalActionHash);
      OptionalBytesSurvive(f.originalEntryHash);
    case Delete(_, _) =>
      OptionalBytesSurvive(f.deletesActionHash);
      OptionalBytesSurvive(f.deletesEntryHash);
    case CreateLink(_, _, _, _, _) =>
      OptionalBytesSurvive(f.baseAddress);
      OptionalBytesSurvive(f.targetAddress);
      OptionalBytesSurvive(f.tag);
    case DeleteLink(_, _) =>
      OptionalBytesSurvive(f.linkAddAddress);
      OptionalBytesSurvive(f.baseAddress);
  }

  /** Every action comes back from the database as it was. */
  lemma ActionSurvivesStorage(a: Action)
    ensures ActionToStorable(FieldsOf(a)).Some?
    ensures StorableToAction(Storable(a)) == a
    ensures ToBytes(Storable(a).actionHash) == a.actionHash
  {
    BodySurvives(a);
    BytesSurvive(a.actionHash);
    BytesSurvive(a.author);
    BytesSurvive(a.signature);
    ParseOfPrint(a.timestamp);
    OptionalBytesSurvive(a.prevActionHash);
    CommonSurvives(a);
  }

  predicate SameCommon(f: Fields, a: Action) {
    && f.actionHash == a.actionHash && f.actionSeq == a.actionSeq && f.author == a.author && f.timestamp == a.timestamp
    && f.prevActionHash == a.prevActionHash && f.signature == a.signature && f.actionType == TypeOf(a.body)
  }

  predicate StoredCommon(s: StorableAction, f: Fields) {
    && s.actionHash == FromBytes(f.actionHash) && s.actionSeq == f.actionSeq && s.author == FromBytes(f.author)
    && s.timestamp == Print(f.timestamp) && s.prevActionHash == Copied(f.prevActionHash)
    && s.signature == FromBytes(f.signature) && s.actionType == f.actionType
  }

  lemma ConversionKeepsCommon(f: Fields)
    ensures ActionToStorable(f).Some? ==> StoredCommon(ActionToStorable(f).value, f)
  {
  }

  lemma FieldsKeepCommon(a: Action)
    ensures SameCommon(FieldsOf(a), a)
  {
  }

  lemma CommonSurvives(a: Action)
    ensures SameCommon(FieldsOf(a), a) && StoredCommon(Storable(a), FieldsOf(a))
  {
    FieldsKeepCommon(a);
    ConversionKeepsCommon(FieldsOf(a));
  }
}
