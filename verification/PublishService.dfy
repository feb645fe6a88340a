/** The publish queue worker (`PublishService`), run without interference from other calls.

    The linker and the clock are arbitrary: the n-th request is answered by `linker(n, ...)` and the n-th reading of
    the clock is `clock(n)`, for function values about which nothing is assumed. */
module PublishServicing {
  import opened Sequences
  import opened Wrappers
  import opened PublishTracking
  import opened PublishBatching
  import opened PublishPacing
  import opened Sums

  // 4 MB per request
  const BATCH_SIZE_LIMIT: nat := 4 * 1024 * 1024
  const NO_PEERS := "No DHT peers available - stored but not published"
  const UNKNOWN_ERROR := "Unknown error"

  datatype Payload = Payload(opData: string, signature: string)
  datatype Batch = Batch(items: seq<PendingPublish>, serialized: seq<Payload>)

  datatype OpResult = OpResult(success: bool, error: Option<string>)
  /** A request fails as a whole, or is answered with counts and results; a missing result is None. */
  datatype Answer =
    | Unreachable(message: string)
    | Answered(queued: int, published: int, results: seq<Option<OpResult>>)

  predicate NoPeers(a: Answer) {
    a.Answered? && a.queued > 0 && a.published == 0
  }

  predicate Succeeded(a: Answer, i: nat) {
    a.Answered? && i < |a.results| && a.results[i].Some? && a.results[i].value.success
  }

  /** Op i of the request reached at least one peer. */
  predicate Delivered(a: Answer, i: nat) {
    Succeeded(a, i) && !NoPeers(a)
  }

  function FailureReason(a: Answer, i: nat): string {
    if a.Unreachable? then a.message
    else if Succeeded(a, i) then NO_PEERS
    else if i < |a.results| && a.results[i].Some? && a.results[i].value.error.Some? then a.results[i].value.error.value
    else UNKNOWN_ERROR
  }

  function DeliveredIds(a: Answer, ids: seq<Id>): set<Id> {
    set i | 0 <= i < |ids| && Delivered(a, i) :: ids[i]
  }

  /** How often a record may still be sent before somebody resets it: a Pending op is always sent, a Failed one only
      while it has retries left. */
  function Allowance(t: Tracked, maxRetries: nat): nat {
    match t.status
    case Pending => if maxRetries - t.retryCount >= 1 then maxRetries - t.retryCount else 1
    case Failed => if maxRetries - t.retryCount >= 0 then maxRetries - t.retryCount else 0
    case _ => 0
  }

  function AllowanceIn(store: Store, id: Id, maxRetries: nat): nat {
    if id in store then Allowance(store[id], maxRetries) else 0
  }

  /** The worker's termination measure: everything that may still be sent. */
  ghost function Work(store: Store, maxRetries: nat): nat {
    Total(map id | id in store :: Allowance(store[id], maxRetries))
  }

  predicate SameOp(a: Tracked, b: Tracked) {
    a.op == b.op && a.dna == b.dna && a.retryCount == b.retryCount
  }

  /** Outside `ids` nothing has changed, and exactly `gone` has been removed. */
  ghost predicate Untouched(before: Store, after: Store, ids: seq<Id>, gone: set<Id>) {
    && after.Keys == before.Keys - gone
    && (forall id :: id in before && id !in ids && id in after ==> after[id] == before[id])
  }

  ghost predicate Waiting(before: Store, after: Store, id: Id) {
    id in before && id in after && SameOp(before[id], after[id])
  }

  /** Marking a batch InFlight changes no attempt count and nothing outside the batch. */
  ghost predicate Marked(before: Store, after: Store, ids: seq<Id>) {
    && Untouched(before, after, ids, {})
    && forall j :: 0 <= j < |ids| ==> Waiting(before, after, ids[j])
  }

  lemma MarkedThenSettled(before: Store, marked: Store, after: Store, ids: seq<Id>, a: Answer)
    requires Marked(before, marked, ids) && Settled(marked, after, ids, a)
    ensures Settled(before, after, ids, a)
  {
    forall i | 0 <= i < |ids| && !Delivered(a, i)
      ensures ids[i] in after && FailedOnce(before[ids[i]], after[ids[i]], FailureReason(a, i))
    {
      assert Waiting(before, marked, ids[i]);
    }
  }

  /** The first `k` ops of the batch are settled, the others still wait. */
  ghost predicate SettledUpTo(before: Store, after: Store, ids: seq<Id>, a: Answer, k: nat)
    requires k <= |ids|
  {
    && Untouched(before, after, ids, DeliveredIds(a, ids[..k]))
    && (forall j :: 0 <= j < k ==> Done(before, after, ids[j], a, j))
    && (forall j :: k <= j < |ids| ==> Waiting(before, after, ids[j]))
  }

  lemma NothingSettled(store: Store, ids: seq<Id>, a: Answer)
    requires forall id :: id in ids ==> id in store
    ensures SettledUpTo(store, store, ids, a, 0)
  {
  }

  lemma SettleNext(before: Store, mid: Store, after: Store, ids: seq<Id>, a: Answer, k: nat, now: int)
    requires k < |ids| && Distinct(ids) && SettledUpTo(before, mid, ids, a, k)
    requires if Delivered(a, k) then after == StatusUpdated(mid, ids[k], Published, None, now) - {ids[k]}
             else after == StatusUpdated(mid, ids[k], Failed, Some(FailureReason(a, k)), now)
    ensures SettledUpTo(before, after, ids, a, k + 1)
  {
    DeliveredStep(a, ids, k);
    assert Waiting(before, mid, ids[k]);
    forall j | 0 <= j < |ids| && j != k
      ensures ids[j] in mid <==> ids[j] in after
      ensures ids[j] in mid ==> after[ids[j]] == mid[ids[j]]
    {
    }
    forall j | 0 <= j < k
      ensures Done(before, after, ids[j], a, j)
    {
      assert Done(before, mid, ids[j], a, j);
    }
    forall j | k + 1 <= j < |ids|
      ensures Waiting(before, after, ids[j])
    {
      assert Waiting(before, mid, ids[j]);
    }
  }

  lemma AllSettled(before: Store, after: Store, ids: seq<Id>, a: Answer)
    requires SettledUpTo(before, after, ids, a, |ids|)
    ensures Settled(before, after, ids, a)
  {
    assert ids[..|ids|] == ids;
    forall i | 0 <= i < |ids| && ids[i] in before && !Delivered(a, i)
      ensures ids[i] in after && FailedOnce(before[ids[i]], after[ids[i]], FailureReason(a, i))
    {
      assert Done(before, after, ids[i], a, i);
    }
    forall id | id in before && id !in ids
      ensures id in after && after[id] == before[id]
    {
    }
  }

  ghost predicate Done(before: Store, after: Store, id: Id, a: Answer, i: nat) {
    id in before && !Delivered(a, i) ==> id in after && FailedOnce(before[id], after[id], FailureReason(a, i))
  }

  lemma DeliveredStep(a: Answer, ids: seq<Id>, i: nat)
    requires i < |ids|
    ensures DeliveredIds(a, ids[..i + 1]) == DeliveredIds(a, ids[..i]) + if Delivered(a, i) then {ids[i]} else {}
  {
    assert forall j :: 0 <= j < i ==> ids[..i + 1][j] == ids[..i][j] == ids[j];
    assert ids[..i + 1][i] == ids[i];
    forall id | id in DeliveredIds(a, ids[..i])
      ensures id in DeliveredIds(a, ids[..i + 1])
    {
      var j :| 0 <= j < i && Delivered(a, j) && ids[..i][j] == id;
      assert ids[..i + 1][j] == id;
    }
  }

  /** What a request leaves behind: delivered ops are gone, every other op of the request is Failed with one more
      attempt on its count and the reason recorded, and no other record is touched. */
  ghost predicate Settled(before: Store, after: Store, ids: seq<Id>, a: Answer) {
    && after.Keys == before.Keys - DeliveredIds(a, ids)
    && (forall id :: id in before && id !in ids ==> after[id] == before[id])
    && (forall i :: 0 <= i < |ids| && ids[i] in before && !Delivered(a, i) ==>
        ids[i] in after && FailedOnce(before[ids[i]], after[ids[i]], FailureReason(a, i)))
  }

  predicate FailedOnce(before: Tracked, after: Tracked, reason: string) {
    && after.status == Failed && after.retryCount == before.retryCount + 1
    && after.op == before.op && after.dna == before.dna && after.error == Some(reason)
  }

  /** An op leaves the queue exactly if the linker reports success for it and has not merely stored the request; if it
      stays, its error says why. */
  lemma LeavesIffPublished(before: Store, after: Store, ids: seq<Id>, a: Answer, i: nat)
    requires Settled(before, after, ids, a) && Distinct(ids) && i < |ids| && ids[i] in before
    ensures ids[i] !in after
       <==> && a.Answered? && i < |a.results| && a.results[i].Some? && a.results[i].value.success
            && (a.queued > 0 ==> a.published != 0)
    ensures ids[i] in after ==>
              match a
              case Unreachable(message) => after[ids[i]].error == Some(message)
              case Answered(queued, published, results) =>
                if i >= |results| || results[i].None? then after[ids[i]].error == Some(UNKNOWN_ERROR)
                else if results[i].value.success then after[ids[i]].error == Some(NO_PEERS)
                else if results[i].value.error.None? then after[ids[i]].error == Some(UNKNOWN_ERROR)
                else after[ids[i]].error == results[i].value.error
  {
    if Delivered(a, i) {
      assert ids[i] in DeliveredIds(a, ids);
    } else {
      assert ids[i] !in DeliveredIds(a, ids);
    }
  }

  /** The worker picks an op when it is Pending, or Failed with retries left. */
  predicate Eligible(t: Tracked, maxRetries: nat) {
    t.status == Pending || (t.status == Failed && t.retryCount < maxRetries)
  }

  /** One request uses up exactly one send of every op that comes back, and lowers the worker's measure. */
  lemma SettlingSpends(before: Store, after: Store, ids: seq<Id>, a: Answer, maxRetries: nat)
    requires Settled(before, after, ids, a)
    requires ids != [] && Distinct(ids)
    requires forall id :: id in ids ==> id in before && Eligible(before[id], maxRetries)
    ensures Work(after, maxRetries) < Work(before, maxRetries)
    ensures forall id :: id in ids && id in after ==>
              AllowanceIn(after, id, maxRetries) + 1 == AllowanceIn(before, id, maxRetries)
    ensures forall id :: id in ids ==> AllowanceIn(after, id, maxRetries) < AllowanceIn(before, id, maxRetries)
    ensures forall id :: id !in ids ==> AllowanceIn(after, id, maxRetries) == AllowanceIn(before, id, maxRetries)
  {
    forall id | id in ids
      ensures id in after ==> AllowanceIn(after, id, maxRetries) + 1 == AllowanceIn(before, id, maxRetries)
      ensures AllowanceIn(after, id, maxRetries) < AllowanceIn(before, id, maxRetries)
    {
      var i :| 0 <= i < |ids| && ids[i] == id;
      if id in after {
        assert !Delivered(a, i);
        assert FailedOnce(before[id], after[id], FailureReason(a, i));
      }
    }
    var small := map id | id in after :: Allowance(after[id], maxRetries);
    var big := map id | id in before :: Allowance(before[id], maxRetries);
    forall id | id in small
      ensures small[id] <= big[id]
    {
      assert AllowanceIn(after, id, maxRetries) <= AllowanceIn(before, id, maxRetries);
    }
    assert ids[0] in ids;
    assert AllowanceIn(after, ids[0], maxRetries) < AllowanceIn(before, ids[0], maxRetries);
    assert ids[0] in big && big[ids[0]] > (if ids[0] in small then small[ids[0]] else 0);
    TotalMonotone(small, big);
  }

  /** The weight of an op: the length of its serialised form in the request body. */
  function PayloadSize(serialize: ChainOp -> Payload): PendingPublish -> nat {
    (item: PendingPublish) => |serialize(item.op).opData| + |serialize(item.op).signature|
  }

  function Payloads(items: seq<PendingPublish>, serialize: ChainOp -> Payload): seq<Payload> {
    seq(|items|, i requires 0 <= i < |items| => serialize(items[i].op))
  }

  ghost function ItemsOf(batches: seq<Batch>): (groups: seq<seq<PendingPublish>>)
    ensures |groups| == |batches|
  {
    seq(|batches|, i requires 0 <= i < |batches| => batches[i].items)
  }

  /** Every batch carries the payloads of its own items, in their order. */
  ghost predicate Aligned(batches: seq<Batch>, serialize: ChainOp -> Payload) {
    forall i :: 0 <= i < |batches| ==> batches[i].serialized == Payloads(batches[i].items, serialize)
  }

  /** `batches` is a greedy size-bounded grouping of `ops`. */
  ghost predicate Batched(batches: seq<Batch>, ops: seq<PendingPublish>, serialize: ChainOp -> Payload) {
    && Concat(ItemsOf(batches)) == ops
    && Aligned(batches, serialize)
    && Obeys(ItemsOf(batches), PayloadSize(serialize), BATCH_SIZE_LIMIT)
    && ClosedLate(ItemsOf(batches), PayloadSize(serialize), BATCH_SIZE_LIMIT)
  }

  /** The state of the batching loop: closed batches, the batch that is still open, and its size. */
  datatype Filling = Filling(batches: seq<Batch>, open: Batch, size: nat)

  function Closed(f: Filling): seq<Batch> {
    if f.open.items == [] then f.batches else f.batches + [f.open]
  }

  function Place(f: Filling, item: PendingPublish, serialize: ChainOp -> Payload): Filling {
    var payload, opSize := serialize(item.op), PayloadSize(serialize)(item);
    if f.open.items != [] && f.size + opSize > BATCH_SIZE_LIMIT then
      Filling(f.batches + [f.open], Batch([item], [payload]), opSize)
    else
      Filling(f.batches, Batch(f.open.items + [item], f.open.serialized + [payload]), f.size + opSize)
  }

  function Fill(ops: seq<PendingPublish>, serialize: ChainOp -> Payload): Filling {
    if ops == [] then Filling([], Batch([], []), 0)
    else Place(Fill(ops[..|ops| - 1], serialize), ops[|ops| - 1], serialize)
  }

  /** Greedy filling yields an order-preserving grouping that obeys the rule and closes batches only when it must. */
  lemma {:induction false} FillingIsBatched(ops: seq<PendingPublish>, serialize: ChainOp -> Payload)
    ensures var f := Fill(ops, serialize);
            && (f.open.items == [] ==> ops == [] && f.batches == [])
            && f.size == Weight(f.open.items, PayloadSize(serialize))
            && Batched(Closed(f), ops, serialize)
  {
    if ops != [] {
      var front, item, weigh := ops[..|ops| - 1], ops[|ops| - 1], PayloadSize(serialize);
      var f := Fill(front, serialize);
      FillingIsBatched(front, serialize);
      WeightSnoc([], item, weigh);
      if f.open.items != [] && f.size + weigh(item) > BATCH_SIZE_LIMIT {
        StartBatch(Closed(f), front, item, serialize);
      } else {
        WeightSnoc(f.open.items, item, weigh);
        ExtendBatch(f, front, item, serialize);
      }
      assert ops == front + [item];
      assert [] + [item] == [item];
    }
  }

  lemma StartBatch(batches: seq<Batch>, done: seq<PendingPublish>, item: PendingPublish, serialize: ChainOp -> Payload)
    requires Batched(batches, done, serialize) && batches != []
    requires Weight(batches[|batches| - 1].items, PayloadSize(serialize)) + PayloadSize(serialize)(item)
             > BATCH_SIZE_LIMIT
    ensures Batched(batches + [Batch([item], [serialize(item.op)])], done + [item], serialize)
  {
    var last := Batch([item], [serialize(item.op)]);
    assert last.serialized == Payloads(last.items, serialize);
    AppendKeepsRule(ItemsOf(batches), [item], PayloadSize(serialize), BATCH_SIZE_LIMIT);
    assert ItemsOf(batches + [last]) == ItemsOf(batches) + [[item]];
  }

  lemma ExtendBatch(f: Filling, done: seq<PendingPublish>, item: PendingPublish, serialize: ChainOp -> Payload)
    requires Batched(Closed(f), done, serialize)
    requires f.open.items == [] ==> f.batches == [] && f.open.serialized == []
    requires f.size == Weight(f.open.items, PayloadSize(serialize))
    requires f.open.items != [] ==> f.size + PayloadSize(serialize)(item) <= BATCH_SIZE_LIMIT
    ensures Batched(f.batches + [Batch(f.open.items + [item], f.open.serialized + [serialize(item.op)])], done + [item],
                    serialize)
  {
    var weigh := PayloadSize(serialize);
    var before, grown := f.open, Batch(f.open.items + [item], f.open.serialized + [serialize(item.op)]);
    var groups := ItemsOf(f.batches);
    WeightSnoc(before.items, item, weigh);
    ConcatAppend(groups, before.items);
    ConcatAppend(groups, grown.items);
    assert ItemsOf(f.batches + [before]) == groups + [before.items];
    assert ItemsOf(f.batches + [grown]) == groups + [grown.items];
    if before.items == [] {
      assert groups == [];
    } else {
      assert (f.batches + [before])[|f.batches|] == before;
      KeepFront(groups, before.items, grown.items, weigh);
    }
    assert Concat(groups + [grown.items]) == done + [item];
    forall i | 0 <= i < |f.batches + [grown]|
      ensures (f.batches + [grown])[i].serialized == Payloads((f.batches + [grown])[i].items, serialize)
    {
      if i < |f.batches| {
        assert (f.batches + [grown])[i] == Closed(f)[i];
      } else {
        assert grown.serialized == Payloads(grown.items, serialize);
      }
    }
  }

  /** Replacing the last group by one with the same first item that still fits keeps the shape. */
  lemma KeepFront<T>(groups: seq<seq<T>>, before: seq<T>, grown: seq<T>, weigh: T -> nat)
    requires Obeys(groups + [before], weigh, BATCH_SIZE_LIMIT) && ClosedLate(groups + [before], weigh, BATCH_SIZE_LIMIT)
    requires before <= grown && Weight(grown, weigh) <= BATCH_SIZE_LIMIT
    ensures Obeys(groups + [grown], weigh, BATCH_SIZE_LIMIT) && ClosedLate(groups + [grown], weigh, BATCH_SIZE_LIMIT)
  {
    var was, now := groups + [before], groups + [grown];
    assert was[|groups|] == before != [];
    assert grown != [];
    assert forall i :: 0 <= i < |groups| ==> now[i] == was[i];
    assert Obeys(now, weigh, BATCH_SIZE_LIMIT);
    forall i | 0 <= i < |now| - 1
      ensures Weight(now[i], weigh) + weigh(now[i + 1][0]) > BATCH_SIZE_LIMIT
    {
      assert now[i] == was[i] && was[i + 1][0] == now[i + 1][0];
    }
  }

  function Lookup(store: Store, id: Id): Option<Tracked> {
    if id in store then Some(store[id]) else None
  }

  /** What a run of the worker for `dna` may do to one op that it sends `sends` times. The op keeps its content, its
      attempt count grows by exactly the sends that did not deliver it, and the sends come out of its allowance. */
  ghost predicate Advanced(dna: Dna, maxRetries: nat, before: Option<Tracked>, after: Option<Tracked>, sends: int) {
    if before.None? then after.None? && sends == 0
    else if after.None? then before.value.dna == dna && 1 <= sends <= Allowance(before.value, maxRetries)
    else if sends == 0 then after == before
    else
      && sends >= 1
      && after.value.op == before.value.op && after.value.dna == before.value.dna == dna
      && after.value.status == Failed
      && after.value.retryCount == before.value.retryCount + sends
      && sends + Allowance(after.value, maxRetries) == Allowance(before.value, maxRetries)
  }

  function Times(sent: multiset<Id>, id: Id): int {
    sent[id]
  }

  /** The queue with its history: how often each op has been part of a request, and which ops were delivered. */
  datatype Queue = Queue(store: Store, sent: multiset<Id>, delivered: set<Id>)

  /** What a run of the worker may have done to the queue so far: every op has advanced, and exactly the ops that are
      no longer tracked have been delivered. */
  ghost predicate Progress(dna: Dna, maxRetries: nat, before: Queue, now: Queue) {
    forall id :: AdvancedAt(dna, maxRetries, before, now, id)
  }

  ghost predicate AdvancedAt(dna: Dna, maxRetries: nat, before: Queue, now: Queue, id: Id) {
    && Advanced(dna, maxRetries, Lookup(before.store, id), Lookup(now.store, id),
                Times(now.sent, id) - Times(before.sent, id))
    && (id in now.delivered <==> id in before.delivered || (id in before.store && id !in now.store))
  }

  /** The queue after a request for `ids` that left `store` behind. */
  function AfterRequest(now: Queue, store: Store, ids: seq<Id>, a: Answer): Queue {
    Queue(store, now.sent + multiset(ids), now.delivered + DeliveredIds(a, ids))
  }

  lemma CountDistinct(ids: seq<Id>, id: Id)
    requires Distinct(ids)
    ensures multiset(ids)[id] == if id in ids then 1 else 0
  {
    if ids != [] {
      assert ids == [ids[0]] + ids[1..];
      CountDistinct(ids[1..], id);
    }
  }

  /** One settled request is one send of each of its ops. */
  lemma SettledAdvances(dna: Dna, maxRetries: nat, mid: Store, after: Store, ids: seq<Id>, a: Answer, id: Id)
    requires Distinct(ids) && Settled(mid, after, ids, a)
    requires id in ids ==> id in mid && mid[id].dna == dna && Eligible(mid[id], maxRetries)
    ensures Advanced(dna, maxRetries, Lookup(mid, id), Lookup(after, id), Times(multiset(ids), id))
  {
    CountDistinct(ids, id);
    if id in ids {
      var i :| 0 <= i < |ids| && ids[i] == id;
      if id in after {
        assert FailedOnce(mid[id], after[id], FailureReason(a, i));
      }
    }
  }

  /** One settled request extends the progress made. */
  lemma ProgressStep(dna: Dna, maxRetries: nat, before: Queue, now: Queue, store: Store, ids: seq<Id>, a: Answer)
    requires Progress(dna, maxRetries, before, now)
    requires Distinct(ids) && Settled(now.store, store, ids, a)
    requires forall id :: id in ids ==>
               id in now.store && now.store[id].dna == dna && Eligible(now.store[id], maxRetries)
    ensures Progress(dna, maxRetries, before, AfterRequest(now, store, ids, a))
  {
    var after := AfterRequest(now, store, ids, a);
    forall id
      ensures AdvancedAt(dna, maxRetries, before, after, id)
    {
      SettledAdvances(dna, maxRetries, now.store, store, ids, a, id);
      assert AdvancedAt(dna, maxRetries, before, now, id);
      assert Times(after.sent, id) == Times(now.sent, id) + Times(multiset(ids), id);
    }
  }

  lemma ProgressTransitive(dna: Dna, maxRetries: nat, a: Queue, b: Queue, c: Queue)
    requires Progress(dna, maxRetries, a, b) && Progress(dna, maxRetries, b, c)
    ensures Progress(dna, maxRetries, a, c)
  {
    forall id
      ensures AdvancedAt(dna, maxRetries, a, c, id)
    {
      assert AdvancedAt(dna, maxRetries, a, b, id) && AdvancedAt(dna, maxRetries, b, c, id);
    }
  }

  /** Every op of `dna` that was Pending before has been sent, once none is Pending any more. */
  lemma PendingWasSent(dna: Dna, maxRetries: nat, before: Queue, now: Queue)
    requires Progress(dna, maxRetries, before, now)
    requires forall id :: id in now.store && now.store[id].dna == dna ==> now.store[id].status != Pending
    ensures forall id :: id in before.store && before.store[id].dna == dna && before.store[id].status == Pending ==>
              Times(now.sent, id) > Times(before.sent, id)
  {
    forall id | id in before.store && before.store[id].dna == dna && before.store[id].status == Pending
      ensures Times(now.sent, id) > Times(before.sent, id)
    {
      assert AdvancedAt(dna, maxRetries, before, now, id);
    }
  }

  ghost predicate Requeue(before: Tracked, after: Tracked) {
    after.status == Pending && SameOp(before, after)
  }

  /** What `retryFailed` writes before it processes the queue: the failed ops of the DNA become Pending again. Their
      attempt counts stay as they are. */
  ghost predicate Requeued(before: Store, after: Store, dna: Dna) {
    && after.Keys == before.Keys
    && forall id :: id in before ==>
         if before[id].dna == dna && before[id].status == Failed
         then Requeue(before[id], after[id])
         else after[id] == before[id]
  }

  /** An op that waits to be published. */
  predicate Awaits(store: Store, dna: Dna, id: Id) {
    id in store && store[id].dna == dna && (store[id].status == Pending || store[id].status == Failed)
  }

  function AtLeastOne(n: int): nat {
    if n >= 1 then n else 1
  }

  /** The count is not reset: an op that `retryFailed` makes Pending may be sent as often as its old count allows, and
      at least once. That is the full allowance if and only if it had never failed or the full allowance is one send.
      */
  lemma RequeuedAllowance(before: Tracked, after: Tracked, maxRetries: nat)
    requires Requeue(before, after)
    ensures Allowance(after, maxRetries) == AtLeastOne(maxRetries - before.retryCount)
    ensures Allowance(after, maxRetries) == AtLeastOne(maxRetries) <==> before.retryCount == 0 || maxRetries <= 1
    ensures before.retryCount >= maxRetries ==> Allowance(after, maxRetries) == 1
  {
  }

  /** What a retry with a worker does to one op: a waiting op is sent at least once and at most as often as its count
      allows, and, unless delivered, has failed that many times more; any other op is left alone; and the ops that are
      no longer tracked are those delivered. */
  ghost predicate RetriedAt(dna: Dna, maxRetries: nat, before: Queue, now: Queue, id: Id) {
    var sends := Times(now.sent, id) - Times(before.sent, id);
    && (id in now.delivered <==> id in before.delivered || (id in before.store && id !in now.store))
    && if !Awaits(before.store, dna, id) then Lookup(now.store, id) == Lookup(before.store, id) && sends == 0
       else
         && 1 <= sends <= AtLeastOne(maxRetries - before.store[id].retryCount)
         && (id in now.store ==>
               && now.store[id].op == before.store[id].op && now.store[id].dna == dna
               && now.store[id].status == Failed
               && now.store[id].retryCount == before.store[id].retryCount + sends)
  }

  lemma RetryAdvances(dna: Dna, maxRetries: nat, before: Queue, requeued: Queue, now: Queue, id: Id)
    requires Requeued(before.store, requeued.store, dna)
    requires requeued.sent == before.sent && requeued.delivered == before.delivered
    requires Progress(dna, maxRetries, requeued, now)
    requires forall id :: id in now.store && now.store[id].dna == dna ==> now.store[id].status != Pending
    ensures RetriedAt(dna, maxRetries, before, now, id)
  {
    assert AdvancedAt(dna, maxRetries, requeued, now, id);
    if Awaits(before.store, dna, id) {
      if before.store[id].status == Failed {
        RequeuedAllowance(before.store[id], requeued.store[id], maxRetries);
      }
      PendingWasSent(dna, maxRetries, requeued, now);
    }
  }

  /** Splitting the next batch off the items still to be sent. */
  lemma TakeBatch(groups: seq<seq<PendingPublish>>, j: nat, ops: seq<PendingPublish>, n: nat)
    requires j < |groups| && n <= |ops| && Concat(groups[j..]) == ops[n..]
    requires Distinct(Ids(ops))
    ensures Concat(groups[j + 1..]) == ops[n + |groups[j]|..] == ops[n..][|groups[j]|..]
    ensures groups[j] == ops[n..n + |groups[j]|]
    ensures Distinct(Ids(groups[j]))
    ensures forall i :: 0 <= i < |ops| && (i < n || n + |groups[j]| <= i) ==> ops[i].id !in Ids(groups[j])
  {
    assert groups[j..][1..] == groups[j + 1..];
    var m := n + |groups[j]|;
    assert Ids(groups[j]) == Ids(ops)[n..m];
    forall i | 0 <= i < |ops| && (i < n || m <= i)
      ensures ops[i].id !in Ids(groups[j])
    {
      assert forall k :: n <= k < m ==> Ids(ops)[k] != Ids(ops)[i];
    }
  }

  ghost predicate Picked(store: Store, dna: Dna, op: PendingPublish, maxRetries: nat) {
    op.id in store && store[op.id].dna == dna && Eligible(store[op.id], maxRetries) && op == Copy(op.id, store[op.id])
  }

  /** A pass over `ops` has sent the first `n` of them, each once. */
  ghost predicate InPass(dna: Dna, maxRetries: nat, ops: seq<PendingPublish>, n: nat, before: Queue, now: Queue) {
    && n <= |ops| && Distinct(Ids(ops))
    && (forall i :: 0 <= i < n ==> Times(now.sent, ops[i].id) == Times(before.sent, ops[i].id) + 1)
    && (forall i :: n <= i < |ops| ==> Times(now.sent, ops[i].id) == Times(before.sent, ops[i].id))
    && Progress(dna, maxRetries, before, now)
    && (forall i :: n <= i < |ops| ==> Picked(now.store, dna, ops[i], maxRetries))
    && (if n == 0 then now.store == before.store else Work(now.store, maxRetries) < Work(before.store, maxRetries))
  }

  lemma PassStart(dna: Dna, maxRetries: nat, ops: seq<PendingPublish>, now: Queue)
    requires Distinct(Ids(ops))
    requires forall op :: op in ops ==> Picked(now.store, dna, op, maxRetries)
    ensures InPass(dna, maxRetries, ops, 0, now, now)
    ensures ops[0..] == ops
  {
  }

  /** The next batch of a pass holds distinct ops that are still tracked. */
  lemma PassNext(dna: Dna, maxRetries: nat, ops: seq<PendingPublish>, n: nat, before: Queue, now: Queue,
                 groups: seq<seq<PendingPublish>>, j: nat)
    requires InPass(dna, maxRetries, ops, n, before, now)
    requires j < |groups| && Concat(groups[j..]) == ops[n..]
    ensures Distinct(Ids(groups[j]))
    ensures forall id :: id in Ids(groups[j]) ==>
              id in now.store && now.store[id].dna == dna && Eligible(now.store[id], maxRetries)
    ensures forall i :: 0 <= i < |groups[j]| ==>
              groups[j][i] in ops && Picked(now.store, dna, groups[j][i], maxRetries)
  {
    TakeBatch(groups, j, ops, n);
    forall i | 0 <= i < |groups[j]|
      ensures groups[j][i] in ops && Picked(now.store, dna, groups[j][i], maxRetries)
    {
      assert groups[j][i] == ops[n + i];
    }
    forall id | id in Ids(groups[j])
      ensures id in now.store && now.store[id].dna == dna && Eligible(now.store[id], maxRetries)
    {
      var i :| 0 <= i < |groups[j]| && Ids(groups[j])[i] == id;
      assert Picked(now.store, dna, ops[n + i], maxRetries);
    }
  }

  lemma PassStep(dna: Dna, maxRetries: nat, ops: seq<PendingPublish>, n: nat, before: Queue, now: Queue,
                 groups: seq<seq<PendingPublish>>, j: nat, store: Store, a: Answer)
    requires InPass(dna, maxRetries, ops, n, before, now)
    requires j < |groups| && Concat(groups[j..]) == ops[n..] && groups[j] != []
    requires Settled(now.store, store, Ids(groups[j]), a)
    ensures n + |groups[j]| <= |ops| && Concat(groups[j + 1..]) == ops[n + |groups[j]|..]
    ensures InPass(dna, maxRetries, ops, n + |groups[j]|, before, AfterRequest(now, store, Ids(groups[j]), a))
  {
    TakeBatch(groups, j, ops, n);
    PassNext(dna, maxRetries, ops, n, before, now, groups, j);
    SettlingSpends(now.store, store, Ids(groups[j]), a, maxRetries);
    ProgressStep(dna, maxRetries, before, now, store, Ids(groups[j]), a);
    forall i | 0 <= i < |ops|
      ensures n + |groups[j]| <= i ==> Picked(store, dna, ops[i], maxRetries)
      ensures Times(AfterRequest(now, store, Ids(groups[j]), a).sent, ops[i].id)
           == Times(now.sent, ops[i].id) + if n <= i < n + |groups[j]| then 1 else 0
    {
      assert n + |groups[j]| <= i ==> Picked(now.store, dna, ops[i], maxRetries);
      CountDistinct(Ids(groups[j]), ops[i].id);
      assert n <= i < n + |groups[j]| ==> Ids(groups[j])[i - n] == ops[i].id;
    }
  }

  /** The log grew, and the count of sends by what was added to it. */
  ghost predicate Logged(before: seq<Sending>, sentBefore: multiset<Id>, log: seq<Sending>, sent: multiset<Id>) {
    before <= log && sent == sentBefore + multiset(LogIds(log[|before|..]))
  }

  lemma LogOneMore(log: seq<Sending>, sent: multiset<Id>, ids: seq<Id>, store: Store, at: nat)
    requires forall id :: id in ids ==> id in store
    ensures Logged(log, sent, log + Sendings(ids, store, at), sent + multiset(ids))
  {
    assert LogIds((log + Sendings(ids, store, at))[|log|..]) == ids;
  }

  lemma LoggedTwice(a: seq<Sending>, sentA: multiset<Id>, b: seq<Sending>, sentB: multiset<Id>, c: seq<Sending>,
                    sentC: multiset<Id>)
    requires Logged(a, sentA, b, sentB) && Logged(b, sentB, c, sentC)
    ensures Logged(a, sentA, c, sentC)
  {
    assert LogIds(c[|a|..]) == LogIds(b[|a|..]) + LogIds(c[|b|..]);
  }

  /** The first `n` of the ops, where they are still tracked, carry one of the readings as their last attempt. */
  ghost predicate StampedUpTo(p: Pace, store: Store, ids: seq<Id>, from: nat, to: nat, n: nat)
    requires n <= |ids|
  {
    forall j :: 0 <= j < n && ids[j] in store ==> ReadIn(p, store[ids[j]].lastAttempt, from, to)
  }

  lemma StampNext(p: Pace, mid: Store, after: Store, ids: seq<Id>, from: nat, reading: nat, i: nat)
    requires i < |ids| && Distinct(ids) && from <= reading && StampedUpTo(p, mid, ids, from, reading, i)
    requires after.Keys <= mid.Keys && forall id :: id in after && id != ids[i] ==> after[id] == mid[id]
    requires ids[i] in after ==> after[ids[i]].lastAttempt == p.clock(reading)
    ensures StampedUpTo(p, after, ids, from, reading + 1, i + 1)
  {
    forall j | 0 <= j < i + 1 && ids[j] in after
      ensures ReadIn(p, after[ids[j]].lastAttempt, from, reading + 1)
    {
      if j < i {
        assert ids[j] != ids[i];
        var k :| from <= k < reading && p.clock(k) == mid[ids[j]].lastAttempt;
      } else {
        assert from <= reading < reading + 1 && p.clock(reading) == after[ids[j]].lastAttempt;
      }
    }
  }

  lemma SettledIsRestamped(p: Pace, before: Store, after: Store, ids: seq<Id>, a: Answer, at: nat, to: nat)
    requires Settled(before, after, ids, a) && Distinct(ids) && forall id :: id in ids ==> id in before
    requires forall id :: id in ids && id in after ==> ReadIn(p, after[id].lastAttempt, at, to)
    ensures forall id :: id in ids && id in after ==> Restamped(p, before[id], after[id], at, to)
    ensures forall id :: id in after && id !in ids ==> id in before && after[id] == before[id]
  {
    forall id | id in ids && id in after
      ensures Restamped(p, before[id], after[id], at, to)
    {
      var i :| 0 <= i < |ids| && ids[i] == id;
      assert !Delivered(a, i);
      assert FailedOnce(before[id], after[id], FailureReason(a, i));
    }
  }

  class PublishService {
    const tracker: PublishTracker
    const maxRetries: nat
    const baseDelayMs: nat
    const maxDelayMs: nat
    const serialize: ChainOp -> Payload
    const linker: (nat, Dna, seq<Payload>) -> Answer
    const clock: nat -> int

    var processingQueue: bool
    /** Requests made and clock readings taken so far. */
    var requests: nat
    var readings: nat
    /** How often each op has been part of a request, and which ops were delivered. */
    ghost var sent: multiset<Id>
    ghost var delivered: set<Id>
    /** Every send of every op, in order. */
    ghost var log: seq<Sending>

    constructor (tracker: PublishTracker, maxRetries: nat, baseDelayMs: nat, maxDelayMs: nat,
                 serialize: ChainOp -> Payload, linker: (nat, Dna, seq<Payload>) -> Answer, clock: nat -> int)
      ensures this.tracker == tracker && this.maxRetries == maxRetries
      ensures this.baseDelayMs == baseDelayMs && this.maxDelayMs == maxDelayMs
      ensures this.serialize == serialize && this.linker == linker && this.clock == clock
      ensures !processingQueue && requests == 0 && readings == 0
      ensures sent == multiset{} && delivered == {} && log == []
    {
      this.tracker, this.maxRetries := tracker, maxRetries;
      this.baseDelayMs, this.maxDelayMs := baseDelayMs, maxDelayMs;
      this.serialize, this.linker, this.clock := serialize, linker, clock;
      processingQueue, requests, readings, sent, delivered, log := false, 0, 0, multiset{}, {}, [];
    }

    /** `batchOpsBySize`: an order-preserving partition into non-empty batches, payloads aligned with items, only a
        single op may exceed the limit, and a batch is closed only when the next op would not fit. */
    method BatchOpsBySize(ops: seq<PendingPublish>) returns (batches: seq<Batch>)
      ensures Batched(batches, ops, serialize)
    {
      batches := [];
      var currentItems: seq<PendingPublish> := [];
      var currentSerialized: seq<Payload> := [];
      var currentSize: nat := 0;
      for n := 0 to |ops|
        invariant Filling(batches, Batch(currentItems, currentSerialized), currentSize) == Fill(ops[..n], serialize)
      {
        var item := ops[n];
        var payload := serialize(item.op);
        var opSize := |payload.opData| + |payload.signature|;
        if |currentItems| > 0 && currentSize + opSize > BATCH_SIZE_LIMIT {
          batches := batches + [Batch(currentItems, currentSerialized)];
          currentItems, currentSerialized, currentSize := [], [], 0;
        }
        currentItems := currentItems + [item];
        currentSerialized := currentSerialized + [payload];
        currentSize := currentSize + opSize;
        assert ops[..n + 1][..n] == ops[..n];
      }
      assert ops[..|ops|] == ops;
      FillingIsBatched(ops, serialize);
      if |currentItems| > 0 {
        batches := batches + [Batch(currentItems, currentSerialized)];
      }
    }

    ghost function OwnPace(): Pace {
      Pace(baseDelayMs, maxDelayMs, clock)
    }

    ghost function Now(): Queue
      reads this, tracker
    {
      Queue(tracker.store, sent, delivered)
    }

    /** One tracker write, stamped with the next clock reading. */
    method Write(id: Id, status: Status, error: Option<string>)
      modifies this`readings, tracker
      ensures tracker.store == StatusUpdated(old(tracker.store), id, status, error, clock(old(readings)))
      ensures readings == old(readings) + 1
    {
      tracker.UpdateStatus(id, status, error, clock(readings));
      readings := readings + 1;
    }

    /** The first loop of `publishBatch`. */
    method MarkInFlight(items: seq<PendingPublish>)
      requires forall id :: id in Ids(items) ==> id in tracker.store
      modifies this`readings, tracker
      ensures readings >= old(readings)
      ensures Marked(old(tracker.store), tracker.store, Ids(items))
    {
      for k := 0 to |items|
        invariant readings >= old(readings)
        invariant Marked(old(tracker.store), tracker.store, Ids(items))
      {
        Write(items[k].id, InFlight, None);
      }
    }

    /** The linker's verdict on one op. */
    method ApplyResult(item: PendingPublish, i: nat, answer: Answer)
      requires answer.Answered?
      modifies this`readings, tracker
      ensures readings == old(readings) + 1
      ensures tracker.store
           == if Delivered(answer, i)
              then StatusUpdated(old(tracker.store), item.id, Published, None, clock(old(readings))) - {item.id}
              else StatusUpdated(old(tracker.store), item.id, Failed, Some(FailureReason(answer, i)),
                                 clock(old(readings)))
    {
      if i < |answer.results| && answer.results[i].Some? && answer.results[i].value.success {
        if answer.queued > 0 && answer.published == 0 {
          Write(item.id, Failed, Some(NO_PEERS));
        } else {
          Write(item.id, Published, None);
          tracker.RemovePendingPublish(item.id);
        }
      } else {
        var reported := i < |answer.results| && answer.results[i].Some? && answer.results[i].value.error.Some?;
        Write(item.id, Failed, Some(if reported then answer.results[i].value.error.value else UNKNOWN_ERROR));
      }
    }

    /** The second loop of `publishBatch`: the linker answered, each op gets its own verdict. */
    method ApplyResults(items: seq<PendingPublish>, answer: Answer)
      requires answer.Answered?
      requires Distinct(Ids(items)) && forall id :: id in Ids(items) ==> id in tracker.store
      modifies this`readings, tracker
      ensures readings >= old(readings)
      ensures Settled(old(tracker.store), tracker.store, Ids(items), answer)
      ensures forall i :: 0 <= i < |items| && items[i].id in tracker.store ==>
                ReadIn(OwnPace(), tracker.store[items[i].id].lastAttempt, old(readings), readings)
    {
      NothingSettled(tracker.store, Ids(items), answer);
      for i := 0 to |items|
        invariant readings >= old(readings)
        invariant SettledUpTo(old(tracker.store), tracker.store, Ids(items), answer, i)
        invariant StampedUpTo(OwnPace(), tracker.store, Ids(items), old(readings), readings, i)
      {
        ghost var mid, reading := tracker.store, readings;
        ApplyResult(items[i], i, answer);
        SettleNext(old(tracker.store), mid, tracker.store, Ids(items), answer, i, clock(reading));
        StampNext(OwnPace(), mid, tracker.store, Ids(items), old(readings), reading, i);
      }
      AllSettled(old(tracker.store), tracker.store, Ids(items), answer);
    }

    /** The error path of `publishBatch`: every op of the batch failed. */
    method FailAll(items: seq<PendingPublish>, answer: Answer)
      requires answer.Unreachable?
      requires Distinct(Ids(items)) && forall id :: id in Ids(items) ==> id in tracker.store
      modifies this`readings, tracker
      ensures readings >= old(readings)
      ensures Settled(old(tracker.store), tracker.store, Ids(items), answer)
      ensures forall i :: 0 <= i < |items| && items[i].id in tracker.store ==>
                ReadIn(OwnPace(), tracker.store[items[i].id].lastAttempt, old(readings), readings)
    {
      NothingSettled(tracker.store, Ids(items), answer);
      for i := 0 to |items|
        invariant readings >= old(readings)
        invariant SettledUpTo(old(tracker.store), tracker.store, Ids(items), answer, i)
        invariant StampedUpTo(OwnPace(), tracker.store, Ids(items), old(readings), readings, i)
      {
        ghost var mid, reading := tracker.store, readings;
        Write(items[i].id, Failed, Some(answer.message));
        SettleNext(old(tracker.store), mid, tracker.store, Ids(items), answer, i, clock(reading));
        StampNext(OwnPace(), mid, tracker.store, Ids(items), old(readings), reading, i);
      }
      AllSettled(old(tracker.store), tracker.store, Ids(items), answer);
    }

    /** `publishBatch`: mark every op InFlight, send, and settle every op according to the answer. */
    method PublishBatch(batch: Batch, dna: Dna) returns (ghost at: nat)
      requires Distinct(Ids(batch.items)) && forall id :: id in Ids(batch.items) ==> id in tracker.store
      modifies this`requests, this`readings, this`sent, this`delivered, this`log, tracker
      ensures requests == old(requests) + 1 && old(readings) <= at <= readings
      ensures Settled(old(tracker.store), tracker.store, Ids(batch.items), linker(old(requests), dna, batch.serialized))
      ensures Now() == AfterRequest(old(Now()), tracker.store, Ids(batch.items),
                                    linker(old(requests), dna, batch.serialized))
      ensures log == old(log) + Sendings(Ids(batch.items), old(tracker.store), at)
      ensures forall id :: id in Ids(batch.items) && id in tracker.store ==>
                ReadIn(OwnPace(), tracker.store[id].lastAttempt, at, readings)
    {
      MarkInFlight(batch.items);
      ghost var marked := tracker.store;

      at := readings;
      var answer := linker(requests, dna, batch.serialized);
      requests := requests + 1;
      sent := sent + multiset(Ids(batch.items));
      log := log + Sendings(Ids(batch.items), old(tracker.store), at);
      delivered := delivered + DeliveredIds(answer, Ids(batch.items));

      assert forall id :: id in Ids(batch.items) ==> id in marked;
      if answer.Answered? {
        ApplyResults(batch.items, answer);
      } else {
        FailAll(batch.items, answer);
      }
      MarkedThenSettled(old(tracker.store), marked, tracker.store, Ids(batch.items), answer);
    }

    /** `isReadyForRetry`: the clock is read only for an op that has been attempted before. */
    method IsReadyForRetry(lastAttempt: int, retryCount: nat) returns (ready: bool)
      modifies this`readings
      ensures old(readings) <= readings <= old(readings) + 1
      ensures lastAttempt != 0 ==> readings == old(readings) + 1
      ensures ready ==>
                lastAttempt == 0 || Ready(baseDelayMs, maxDelayMs, lastAttempt, retryCount, clock(old(readings)))
      ensures !ready ==> readings == old(readings) + 1 &&
                         !Ready(baseDelayMs, maxDelayMs, lastAttempt, retryCount, clock(old(readings)))
    {
      if lastAttempt == 0 {
        return true;
      }
      var now := clock(readings);
      readings := readings + 1;
      return now - lastAttempt >= BackoffDelay(baseDelayMs, maxDelayMs, retryCount);
    }

    /** At some reading of the clock in the given range the back-off delay had not passed yet. */
    ghost predicate BackingOff(lastAttempt: int, retryCount: nat, from: nat, to: nat) {
      exists k :: from <= k < to && !Ready(baseDelayMs, maxDelayMs, lastAttempt, retryCount, clock(k))
    }

    /** The retry filter of `processQueue`. */
    method Retryable(failed: seq<PendingPublish>) returns (retryable: seq<PendingPublish>)
      requires Distinct(Ids(failed))
      modifies this`readings
      ensures readings >= old(readings)
      ensures Distinct(Ids(retryable))
      ensures forall op :: op in retryable ==>
                && op in failed && op.retryCount < maxRetries
                && Waited(OwnPace(), op.lastAttempt, op.retryCount, old(readings), readings)
      ensures forall op :: op in failed && op !in retryable ==>
                op.retryCount >= maxRetries || BackingOff(op.lastAttempt, op.retryCount, old(readings), readings)
    {
      retryable := [];
      for i := 0 to |failed|
        invariant readings >= old(readings)
        invariant Distinct(Ids(retryable))
        invariant forall op :: op in retryable ==>
                    && op in failed[..i] && op.retryCount < maxRetries
                    && Waited(OwnPace(), op.lastAttempt, op.retryCount, old(readings), readings)
        invariant forall op :: op in failed[..i] && op !in retryable ==>
                    op.retryCount >= maxRetries || BackingOff(op.lastAttempt, op.retryCount, old(readings), readings)
      {
        var op := failed[i];
        ghost var reading := readings;
        var ready := false;
        if op.retryCount < maxRetries {
          ready := IsReadyForRetry(op.lastAttempt, op.retryCount);
        }
        assert failed[..i + 1] == failed[..i] + [op];
        assert forall p :: p in failed[..i] ==> p.id != op.id by {
          assert forall k :: 0 <= k < i ==> Ids(failed)[k] != Ids(failed)[i];
        }
        if ready {
          assert op.lastAttempt != 0 ==>
              Ready(baseDelayMs, maxDelayMs, op.lastAttempt, op.retryCount, OwnPace().clock(reading));
          retryable := retryable + [op];
        } else if op.retryCount < maxRetries {
          assert !Ready(baseDelayMs, maxDelayMs, op.lastAttempt, op.retryCount, clock(reading));
          assert BackingOff(op.lastAttempt, op.retryCount, old(readings), readings);
        }
      }
      assert failed[..|failed|] == failed;
    }

    /** The op was picked as it is tracked, and may be sent now. */
    ghost predicate Due(op: PendingPublish, from: nat, to: nat) {
      op.status == Pending
      || (op.status == Failed && op.retryCount < maxRetries
          && Waited(OwnPace(), op.lastAttempt, op.retryCount, from, to))
    }

    ghost predicate PacedSince(start: nat, from: nat)
      reads this, tracker
    {
      Paced(OwnPace(), maxRetries, start, log, tracker.store, from, readings)
    }

    /** One pass of the loop of `processQueue` over the ops it picked: every one of them is sent exactly once. */
    method PublishAll(dna: Dna, ops: seq<PendingPublish>, ghost start: nat, ghost from: nat)
      requires Distinct(Ids(ops))
      requires forall op :: op in ops ==> Picked(tracker.store, dna, op, maxRetries) && Due(op, from, readings)
      requires PacedSince(start, from)
      modifies this`requests, this`readings, this`sent, this`delivered, this`log, tracker
      ensures readings >= old(readings)
      ensures forall i :: 0 <= i < |ops| ==> Times(sent, ops[i].id) == Times(old(sent), ops[i].id) + 1
      ensures Progress(dna, maxRetries, old(Now()), Now())
      ensures ops != [] ==> Work(tracker.store, maxRetries) < Work(old(tracker.store), maxRetries)
      ensures PacedSince(start, from) && Logged(old(log), old(sent), log, sent)
    {
      ghost var before := Now();
      var batches := BatchOpsBySize(ops);
      PassStart(dna, maxRetries, ops, before);
      assert forall j :: 0 <= j < |batches| ==> ItemsOf(batches)[j] == batches[j].items;
      PublishBatches(batches, dna, ops, before, start, from);
    }

    method PublishBatches(batches: seq<Batch>, dna: Dna, ghost ops: seq<PendingPublish>, ghost before: Queue,
                          ghost start: nat, ghost from: nat)
      requires Concat(ItemsOf(batches)) == ops && forall j :: 0 <= j < |batches| ==> batches[j].items != []
      requires InPass(dna, maxRetries, ops, 0, before, Now())
      requires forall op :: op in ops ==> Due(op, from, readings)
      requires PacedSince(start, from)
      modifies this`requests, this`readings, this`sent, this`delivered, this`log, tracker
      ensures readings >= old(readings)
      ensures InPass(dna, maxRetries, ops, |ops|, before, Now())
      ensures PacedSince(start, from) && Logged(old(log), old(sent), log, sent)
    {
      ghost var groups := ItemsOf(batches);
      ghost var n: nat := 0;
      assert groups[0..] == groups && ops[0..] == ops;
      for j := 0 to |batches|
        invariant readings >= old(readings)
        invariant n <= |ops| && Concat(groups[j..]) == ops[n..]
        invariant InPass(dna, maxRetries, ops, n, before, Now())
        invariant PacedSince(start, from) && Logged(old(log), old(sent), log, sent)
      {
        PublishInPass(batches, j, dna, ops, n, before, start, from, old(readings), old(log), old(sent));
        n := n + |groups[j]|;
      }
    }

    /** The next batch of a pass. */
    method PublishInPass(batches: seq<Batch>, j: nat, dna: Dna, ghost ops: seq<PendingPublish>, ghost n: nat,
                         ghost before: Queue, ghost start: nat, ghost from: nat, ghost to: nat,
                         ghost logBefore: seq<Sending>, ghost sentBefore: multiset<Id>)
      requires j < |batches| && batches[j].items != [] && to <= readings
      requires n <= |ops| && Concat(ItemsOf(batches)[j..]) == ops[n..]
      requires InPass(dna, maxRetries, ops, n, before, Now())
      requires forall op :: op in ops ==> Due(op, from, to)
      requires PacedSince(start, from) && Logged(logBefore, sentBefore, log, sent)
      modifies this`requests, this`readings, this`sent, this`delivered, this`log, tracker
      ensures readings >= old(readings)
      ensures n + |batches[j].items| <= |ops|
      ensures Concat(ItemsOf(batches)[j + 1..]) == ops[n + |batches[j].items|..]
      ensures InPass(dna, maxRetries, ops, n + |batches[j].items|, before, Now())
      ensures PacedSince(start, from) && Logged(logBefore, sentBefore, log, sent)
    {
      ghost var now, groups, answer := Now(), ItemsOf(batches), linker(requests, dna, batches[j].serialized);
      PassNext(dna, maxRetries, ops, n, before, now, groups, j);
      assert groups[j] == batches[j].items;
      PublishNext(batches[j], dna, start, from, to);
      LoggedTwice(logBefore, sentBefore, old(log), old(sent), log, sent);
      PassStep(dna, maxRetries, ops, n, before, now, groups, j, tracker.store, answer);
    }

    /** `publishBatch` for ops that are due. */
    method PublishNext(batch: Batch, dna: Dna, ghost start: nat, ghost from: nat, ghost to: nat)
      requires Distinct(Ids(batch.items)) && to <= readings
      requires forall i :: 0 <= i < |batch.items| ==>
                 && batch.items[i].id in tracker.store && Due(batch.items[i], from, to)
                 && batch.items[i] == Copy(batch.items[i].id, tracker.store[batch.items[i].id])
      requires PacedSince(start, from)
      modifies this`requests, this`readings, this`sent, this`delivered, this`log, tracker
      ensures readings >= old(readings)
      ensures Settled(old(tracker.store), tracker.store, Ids(batch.items), linker(old(requests), dna, batch.serialized))
      ensures Now() == AfterRequest(old(Now()), tracker.store, Ids(batch.items),
                                    linker(old(requests), dna, batch.serialized))
      ensures PacedSince(start, from) && Logged(old(log), old(sent), log, sent)
    {
      ghost var before, logBefore, readingsBefore, answer :=
        tracker.store, log, readings, linker(requests, dna, batch.serialized);
      ghost var ids := Ids(batch.items);
      ghost var at := PublishBatch(batch, dna);
      DueIsEntitled(batch.items, before, from, to, at);
      SettledIsRestamped(OwnPace(), before, tracker.store, ids, answer, at, readings);
      PacedRequest(OwnPace(), maxRetries, start, logBefore, before, from, readingsBefore, ids, at, tracker.store,
                   readings);
      LogOneMore(old(log), old(sent), ids, before, at);
    }

    lemma DueIsEntitled(items: seq<PendingPublish>, store: Store, from: nat, to: nat, at: nat)
      requires to <= at
      requires forall i :: 0 <= i < |items| ==>
                 items[i].id in store && Due(items[i], from, to) && items[i] == Copy(items[i].id, store[items[i].id])
      ensures forall id :: id in Ids(items) ==> id in store && Entitled(OwnPace(), maxRetries, store[id], from, at)
    {
      forall id | id in Ids(items)
        ensures id in store && Entitled(OwnPace(), maxRetries, store[id], from, at)
      {
        var i :| 0 <= i < |items| && Ids(items)[i] == id;
        assert Due(items[i], from, to);
      }
    }

    /** Nothing is left to do for `dna`: no op is Pending, and every Failed op has used up its retries or was still
        backing off at some reading of the clock in the given range. */
    ghost predicate Drained(store: Store, dna: Dna, from: nat, to: nat) {
      forall id :: id in store && store[id].dna == dna ==>
        && store[id].status != Pending
        && (store[id].status == Failed ==>
              store[id].retryCount >= maxRetries || BackingOff(store[id].lastAttempt, store[id].retryCount, from, to))
    }

    /** `processQueue`. A call that finds the flag set does nothing. Otherwise it terminates whatever the linker and
        the clock say, sends every op that was Pending, and leaves nothing to do. */
    method ProcessQueue(dna: Dna)
      modifies this`processingQueue, this`requests, this`readings, this`sent, this`delivered, this`log, tracker
      ensures processingQueue == old(processingQueue)
      ensures old(processingQueue) ==>
                Now() == old(Now()) && log == old(log) && requests == old(requests) && readings == old(readings)
      ensures !old(processingQueue) ==>
                && readings >= old(readings)
                && Progress(dna, maxRetries, old(Now()), Now())
                && Drained(tracker.store, dna, old(readings), readings)
                && PacedSince(|old(log)|, old(readings)) && Logged(old(log), old(sent), log, sent)
    {
      if processingQueue {
        return;
      }
      processingQueue := true;
      ghost var before := Now();
      PacedStart(OwnPace(), maxRetries, log, tracker.store, readings);
      var hasMoreOps := true;
      while hasMoreOps
        invariant readings >= old(readings)
        invariant processingQueue
        invariant Progress(dna, maxRetries, before, Now())
        invariant PacedSince(|old(log)|, old(readings)) && Logged(old(log), old(sent), log, sent)
        invariant !hasMoreOps ==> Drained(tracker.store, dna, old(readings), readings)
        decreases Work(tracker.store, maxRetries), hasMoreOps
      {
        var pendingOps := tracker.GetPendingForDna(dna, Pending);
        var failedOps := tracker.GetPendingForDna(dna, Failed);
        ghost var reading := readings;
        var retryableOps := Retryable(failedOps);
        PacedLater(OwnPace(), maxRetries, |old(log)|, log, tracker.store, old(readings), reading, readings);
        var opsToPublish := pendingOps + retryableOps;
        if |opsToPublish| == 0 {
          NothingLeft(dna, tracker.store, pendingOps, failedOps, retryableOps, reading, readings, old(readings));
          hasMoreOps := false;
          break;
        }
        AllPicked(dna, tracker.store, pendingOps, failedOps, retryableOps);
        AllDue(dna, tracker.store, pendingOps, failedOps, retryableOps, old(readings), reading, readings);
        ghost var now, logNow := Now(), log;
        PublishAll(dna, opsToPublish, |old(log)|, old(readings));
        ProgressTransitive(dna, maxRetries, before, now, Now());
        LoggedTwice(old(log), old(sent), logNow, now.sent, log, sent);
      }
      processingQueue := false;
    }

    /** The two queries of a pass pick distinct ops that may be sent. */
    lemma AllPicked(dna: Dna, store: Store, pending: seq<PendingPublish>, failed: seq<PendingPublish>,
                    retryable: seq<PendingPublish>)
      requires Selects(store, dna, Pending, pending) && Selects(store, dna, Failed, failed)
      requires Distinct(Ids(retryable))
      requires forall op :: op in retryable ==> op in failed && op.retryCount < maxRetries
      ensures Distinct(Ids(pending + retryable))
      ensures forall op :: op in pending + retryable ==> Picked(store, dna, op, maxRetries)
    {
      var ops := pending + retryable;
      forall i, j | 0 <= i < j < |ops|
        ensures Ids(ops)[i] != Ids(ops)[j]
      {
        if j < |pending| {
          assert Ids(pending)[i] != Ids(pending)[j];
        } else if |pending| <= i {
          assert Ids(retryable)[i - |pending|] != Ids(retryable)[j - |pending|];
        } else {
          assert pending[i] in pending && retryable[j - |pending|] in failed;
        }
      }
    }

    lemma AllDue(dna: Dna, store: Store, pending: seq<PendingPublish>, failed: seq<PendingPublish>,
                 retryable: seq<PendingPublish>, earlier: nat, from: nat, to: nat)
      requires Selects(store, dna, Pending, pending) && Selects(store, dna, Failed, failed) && earlier <= from
      requires forall op :: op in retryable ==>
                 && op in failed && op.retryCount < maxRetries
                 && Waited(OwnPace(), op.lastAttempt, op.retryCount, from, to)
      ensures forall op :: op in pending + retryable ==> Due(op, earlier, to)
    {
      forall op | op in retryable
        ensures Due(op, earlier, to)
      {
        assert op in failed && Waited(OwnPace(), op.lastAttempt, op.retryCount, from, to);
      }
    }

    lemma NothingLeft(dna: Dna, store: Store, pending: seq<PendingPublish>, failed: seq<PendingPublish>,
                      retryable: seq<PendingPublish>, from: nat, to: nat, start: nat)
      requires Selects(store, dna, Pending, pending) && Selects(store, dna, Failed, failed)
      requires pending + retryable == [] && start <= from
      requires forall op :: op in failed && op !in retryable ==>
                 op.retryCount >= maxRetries || BackingOff(op.lastAttempt, op.retryCount, from, to)
      ensures Drained(store, dna, start, to)
    {
      forall id | id in store && store[id].dna == dna
        ensures store[id].status != Pending
        ensures store[id].status == Failed ==>
                  || store[id].retryCount >= maxRetries
                  || BackingOff(store[id].lastAttempt, store[id].retryCount, start, to)
      {
        var op := Copy(id, store[id]);
        assert store[id].status == Pending ==> op in pending;
        if store[id].status == Failed && store[id].retryCount < maxRetries {
          assert op in failed;
          var k :| from <= k < to && !Ready(baseDelayMs, maxDelayMs, op.lastAttempt, op.retryCount, clock(k));
        }
      }
    }

    /** The loop of `retryFailed`: every failed op of the DNA is made Pending. */
    method RequeueFailed(dna: Dna)
      modifies this`readings, tracker
      ensures Requeued(old(tracker.store), tracker.store, dna) && readings >= old(readings)
    {
      var failed := tracker.GetPendingForDna(dna, Failed);
      ghost var before := tracker.store;
      for i := 0 to |failed|
        invariant readings >= old(readings)
        invariant tracker.store.Keys == before.Keys
        invariant forall j :: 0 <= j < i ==>
                    Requeue(before[failed[j].id], tracker.store[failed[j].id])
        invariant forall j :: i <= j < |failed| ==> tracker.store[failed[j].id] == before[failed[j].id]
        invariant forall id :: id in before && !(before[id].dna == dna && before[id].status == Failed) ==>
                    tracker.store[id] == before[id]
      {
        assert forall j :: 0 <= j < |failed| && j != i ==> Ids(failed)[j] != Ids(failed)[i];
        Write(failed[i].id, Pending, None);
      }
      forall id | id in before && before[id].dna == dna && before[id].status == Failed
        ensures Requeue(before[id], tracker.store[id])
      {
        assert Copy(id, before[id]) in failed;
      }
    }

    /** `retryFailed`: every failed op of the DNA is made Pending, then the queue is processed. */
    method RetryFailed(dna: Dna)
      modifies this`processingQueue, this`requests, this`readings, this`sent, this`delivered, this`log, tracker
      ensures processingQueue == old(processingQueue)
      ensures old(processingQueue) ==>
                && Requeued(old(tracker.store), tracker.store, dna)
                && sent == old(sent) && delivered == old(delivered) && log == old(log)
      ensures !old(processingQueue) ==>
                && Drained(tracker.store, dna, old(readings), readings)
                && (forall id :: RetriedAt(dna, maxRetries, old(Now()), Now(), id))
                && PacedSince(|old(log)|, old(readings)) && Logged(old(log), old(sent), log, sent)
    {
      RequeueFailed(dna);
      ghost var requeued, mid := Now(), readings;
      ProcessQueue(dna);
      if !processingQueue {
        DrainedSince(tracker.store, dna, mid, readings, old(readings));
        PacedEarlier(OwnPace(), maxRetries, |old(log)|, log, tracker.store, old(readings), mid, readings);
        forall id
          ensures RetriedAt(dna, maxRetries, old(Now()), Now(), id)
        {
          RetryAdvances(dna, maxRetries, old(Now()), requeued, Now(), id);
        }
      }
    }

    lemma DrainedSince(store: Store, dna: Dna, from: nat, to: nat, start: nat)
      requires Drained(store, dna, from, to) && start <= from
      ensures Drained(store, dna, start, to)
    {
      forall id | id in store && store[id].dna == dna && store[id].status == Failed && store[id].retryCount < maxRetries
        ensures BackingOff(store[id].lastAttempt, store[id].retryCount, start, to)
      {
        var t := store[id];
        var k :| from <= k < to && !Ready(baseDelayMs, maxDelayMs, t.lastAttempt, t.retryCount, clock(k));
      }
    }
  }
}
