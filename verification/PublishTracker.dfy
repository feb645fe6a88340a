/** The persistent publish queue (`PublishTracker`): a store of ops keyed by id, each Pending, InFlight, Published or
    Failed. The IndexedDB object store is the field `store`; a tracker call is one atomic store transaction. */
module PublishTracking {
  import opened Sequences
  import opened Wrappers

  type Id = string
  type Dna = string

  datatype ChainOp = ChainOp(content: string, signature: string)
  datatype Status = Pending | InFlight | Published | Failed
  datatype Tracked = Tracked(
    op: ChainOp, dna: Dna, status: Status, retryCount: nat, lastAttempt: int, error: Option<string>)
  type Store = map<Id, Tracked>

  /** What a query hands out: a copy of the record, as it was when it was read. */
  datatype PendingPublish = PendingPublish(id: Id, op: ChainOp, status: Status, retryCount: nat, lastAttempt: int)

  function Copy(id: Id, t: Tracked): PendingPublish {
    PendingPublish(id, t.op, t.status, t.retryCount, t.lastAttempt)
  }

  function Ids(ops: seq<PendingPublish>): (ids: seq<Id>)
    ensures |ids| == |ops|
    ensures forall i :: 0 <= i < |ops| ==> ids[i] == ops[i].id
  {
    seq(|ops|, i requires 0 <= i < |ops| => ops[i].id)
  }

  /** A record after a status write at time `now`: only a failure counts as an attempt used up. */
  function Stamped(t: Tracked, status: Status, error: Option<string>, now: int): Tracked {
    t.(status := status,
       lastAttempt := now,
       error := if error.Some? then error else t.error,
       retryCount := if status == Failed then t.retryCount + 1 else t.retryCount)
  }

  /** The store after `updateStatus`; an unknown id changes nothing. */
  function StatusUpdated(store: Store, id: Id, status: Status, error: Option<string>, now: int): Store {
    if id in store then store[id := Stamped(store[id], status, error, now)] else store
  }

  predicate Resettable(t: Tracked, dnas: set<Dna>) {
    t.dna in dnas && t.status == Failed
  }

  function Reset(t: Tracked, dnas: set<Dna>): Tracked {
    if Resettable(t, dnas) then t.(status := Pending, error := None, retryCount := 0) else t
  }

  /** The store after `resetFailedForDnas`. */
  function FailedReset(store: Store, dnas: set<Dna>): Store {
    map id | id in store :: Reset(store[id], dnas)
  }

  /** The store while the resetting cursor still has `todo` to visit. */
  ghost function PartlyReset(store: Store, dnas: set<Dna>, todo: set<Id>): Store {
    map id | id in store :: if id in todo then store[id] else Reset(store[id], dnas)
  }

  lemma CursorStep(store: Store, dnas: set<Dna>, todo: set<Id>, id: Id)
    requires id in todo && id in store
    ensures PartlyReset(store, dnas, todo)[id] == store[id]
    ensures PartlyReset(store, dnas, todo - {id})
         == if Resettable(store[id], dnas) then PartlyReset(store, dnas, todo)[id := Reset(store[id], dnas)]
            else PartlyReset(store, dnas, todo)
    ensures |ResettableIds(store, dnas) - (todo - {id})|
         == |ResettableIds(store, dnas) - todo| + (if Resettable(store[id], dnas) then 1 else 0)
  {
    var left := ResettableIds(store, dnas) - todo;
    assert ResettableIds(store, dnas) - (todo - {id}) == if Resettable(store[id], dnas) then left + {id} else left;
  }

  lemma CursorEnds(store: Store, dnas: set<Dna>)
    ensures PartlyReset(store, dnas, store.Keys) == store
    ensures PartlyReset(store, dnas, {}) == FailedReset(store, dnas)
    ensures ResettableIds(store, dnas) - store.Keys == {}
    ensures ResettableIds(store, dnas) - {} == ResettableIds(store, dnas)
  {
  }

  function ResettableIds(store: Store, dnas: set<Dna>): set<Id> {
    set id | id in store && Resettable(store[id], dnas)
  }

  function NewOp(op: ChainOp, dna: Dna): Tracked {
    Tracked(op, dna, Pending, 0, 0, None)
  }

  /** `ops` is the answer to a query by DNA and status: every matching record once, and nothing else. */
  ghost predicate Selects(store: Store, dna: Dna, status: Status, ops: seq<PendingPublish>) {
    && Distinct(Ids(ops))
    && (forall op :: op in ops ==> op.id in store && op == Copy(op.id, store[op.id])
                                   && store[op.id].dna == dna && store[op.id].status == status)
    && (forall id :: id in store && store[id].dna == dna && store[id].status == status ==> Copy(id, store[id]) in ops)
  }

  class PublishTracker {
    var store: Store

    constructor ()
      ensures store == map[]
    {
      store := map[];
    }

    /** `queueRecordForPublish`: stores one Pending record per op of the record, one write at a time. The generated
        ids are parameters; the caller's generator makes them unique. */
    method QueueRecordForPublish(ops: seq<ChainOp>, generated: seq<Id>, dna: Dna) returns (publishIds: seq<Id>)
      requires |generated| == |ops| && Distinct(generated)
      requires forall id :: id in generated ==> id !in store
      modifies this
      ensures publishIds == generated
      ensures store.Keys == old(store).Keys + (set id | id in generated)
      ensures forall id :: id in old(store) ==> store[id] == old(store)[id]
      ensures forall i :: 0 <= i < |ops| ==> store[generated[i]] == NewOp(ops[i], dna)
    {
      publishIds := [];
      for i := 0 to |ops|
        invariant publishIds == generated[..i]
        invariant store.Keys == old(store).Keys + (set id | id in generated[..i])
        invariant forall id :: id in old(store) ==> store[id] == old(store)[id]
        invariant forall j :: 0 <= j < i ==> store[generated[j]] == NewOp(ops[j], dna)
      {
        store := store[generated[i] := NewOp(ops[i], dna)];
        publishIds := publishIds + [generated[i]];
        assert generated[..i + 1] == generated[..i] + [generated[i]];
      }
      assert generated[..|ops|] == generated;
    }

    /** `getPendingForDna`: the index lists the matching records, each once; their order is the store's business. */
    method GetPendingForDna(dna: Dna, status: Status) returns (ops: seq<PendingPublish>)
      ensures Selects(store, dna, status, ops)
    {
      ops := [];
      var todo := store.Keys;
      while todo != {}
        invariant todo <= store.Keys
        invariant Distinct(Ids(ops))
        invariant forall op :: op in ops ==> op.id in store && op.id !in todo && op == Copy(op.id, store[op.id])
                                             && store[op.id].dna == dna && store[op.id].status == status
        invariant forall id :: id in store && id !in todo && store[id].dna == dna && store[id].status == status
                    ==> Copy(id, store[id]) in ops
        decreases |todo|
      {
        var id :| id in todo;
        todo := todo - {id};
        if store[id].dna == dna && store[id].status == status {
          ops := ops + [Copy(id, store[id])];
        }
      }
    }

    /** `updateStatus`. */
    method UpdateStatus(id: Id, status: Status, error: Option<string>, now: int)
      modifies this
      ensures store == StatusUpdated(old(store), id, status, error, now)
    {
      if id !in store {
        return;
      }
      var storable := store[id].(status := status, lastAttempt := now);
      if error.Some? {
        storable := storable.(error := error);
      }
      if status == Failed {
        storable := storable.(retryCount := storable.retryCount + 1);
      }
      store := store[id := storable];
    }

    /** `removePendingPublish`. */
    method RemovePendingPublish(id: Id)
      modifies this
      ensures store == old(store) - {id}
    {
      store := store - {id};
    }

    /** `resetFailedForDnas`: a cursor walks the store and counts what it resets. */
    method ResetFailedForDnas(dnas: set<Dna>) returns (resetCount: nat)
      modifies this
      ensures store == FailedReset(old(store), dnas)
      ensures resetCount == |ResettableIds(old(store), dnas)|
    {
      ghost var before := store;
      CursorEnds(before, dnas);
      resetCount := 0;
      var todo := store.Keys;
      while todo != {}
        invariant todo <= before.Keys
        invariant store == PartlyReset(before, dnas, todo)
        invariant resetCount == |ResettableIds(before, dnas) - todo|
        decreases |todo|
      {
        var id :| id in todo;
        CursorStep(before, dnas, todo, id);
        todo := todo - {id};
        if Resettable(store[id], dnas) {
          store := store[id := Reset(store[id], dnas)];
          resetCount := resetCount + 1;
        }
      }
    }
  }

  // ---------------------------------------------------------------- what the writes amount to

  /** A call of `updateStatus` for one id. */
  datatype Write = Write(status: Status, error: Option<string>, at: int)

  function Written(store: Store, id: Id, writes: seq<Write>): Store {
    if writes == [] then store
    else
      var w := writes[|writes| - 1];
      StatusUpdated(Written(store, id, writes[..|writes| - 1]), id, w.status, w.error, w.at)
  }

  function Failures(writes: seq<Write>): nat {
    if writes == [] then 0
    else Failures(writes[..|writes| - 1]) + if writes[|writes| - 1].status == Failed then 1 else 0
  }

  function LastError(writes: seq<Write>): Option<string> {
    if writes == [] then None
    else if writes[|writes| - 1].error.Some? then writes[|writes| - 1].error
    else LastError(writes[..|writes| - 1])
  }

  /** After any status writes a record has the status and the time of the last one, the last error that was given, and
      one more retry for every failure; its op and DNA, and all other records, are as they were. */
  lemma {:induction false} WritesMeaning(store: Store, id: Id, writes: seq<Write>)
    requires id in store && writes != []
    ensures var t := Written(store, id, writes);
            var error := LastError(writes);
            id in t && t == store[id := t[id]]
            && t[id] == Tracked(store[id].op, store[id].dna, writes[|writes| - 1].status,
                                store[id].retryCount + Failures(writes), writes[|writes| - 1].at,
                                if error.Some? then error else store[id].error)
  {
    if |writes| > 1 {
      WritesMeaning(store, id, writes[..|writes| - 1]);
    } else {
      assert writes[..0] == [];
    }
  }

  /** A reset makes a failed op of these DNAs a new one again, except that it remembers its last attempt, and leaves
      every other record alone. */
  lemma ResetMeaning(store: Store, dnas: set<Dna>, id: Id)
    requires id in store
    ensures FailedReset(store, dnas).Keys == store.Keys
    ensures FailedReset(store, dnas)[id]
         == if store[id].dna in dnas && store[id].status == Failed
            then NewOp(store[id].op, store[id].dna).(lastAttempt := store[id].lastAttempt) else store[id]
  {
  }
}
