/** The publish queue under interleaving. Calls of `processQueue`, `retryFailed`, `resetFailedForDnas` and
    `queueRecordForPublish` are threads that yield at every `await`; between two awaits a thread makes one atomic step.
    The scheduler, the linker and the clock choose freely. Only the flag `processingQueue` keeps two workers apart. */
module PublishInterleaving {
  import opened Sequences
  import opened Wrappers
  import opened PublishTracking
  import opened PublishBatching
  import opened PublishServicing

  /** Where a call that is waiting at an `await` will resume. */
  datatype Phase =
    | ReadPending(dna: Dna)
    | ReadFailed(dna: Dna, pending: seq<Id>)
    | Batching(dna: Dna, ops: seq<Id>)
    | Publishing(dna: Dna, batches: seq<seq<Id>>)
    | Marking(dna: Dna, batch: seq<Id>, k: nat, rest: seq<seq<Id>>)
    | Awaiting(dna: Dna, batch: seq<Id>, rest: seq<seq<Id>>)
    | Settling(dna: Dna, batch: seq<Id>, k: nat, rest: seq<seq<Id>>, answer: Answer)
    | Removing(dna: Dna, batch: seq<Id>, k: nat, rest: seq<seq<Id>>, answer: Answer)
    | Requeueing(dna: Dna, todo: seq<Id>)

  /** The store and its history: every id ever queued, every id some answer reported as delivered, and how often each
      op has been sent since it was queued or last reset by hand. */
  datatype Shared = Shared(store: Store, queued: set<Id>, acknowledged: set<Id>, sends: map<Id, nat>)

  function SendsOf(sends: map<Id, nat>, id: Id): nat {
    if id in sends then sends[id] else 0
  }

  function Sent(sends: map<Id, nat>, batch: seq<Id>): map<Id, nat> {
    map id | id in sends.Keys + (set i | i in batch) :: SendsOf(sends, id) + if id in batch then 1 else 0
  }

  datatype State = State(shared: Shared, processingQueue: bool, holder: Option<nat>, threads: map<nat, Phase>)

  /** One step of the worker. */
  datatype Move =
    | SeePending(ids: seq<Id>)
    | SeeFailed(ids: seq<Id>)
    | SerializationFails
    | Split(batches: seq<seq<Id>>)
    | TakeBatch
    | Mark(now: int)
    | Send
    | Receive(answer: Answer)
    | Settle(now: int)
    | Remove

  datatype Event =
    | Enqueue(id: Id, op: ChainOp, dna: Dna)
    | CallProcessQueue(thread: nat, dna: Dna)
    | Work(thread: nat, move: Move)
    | CallRetryFailed(thread: nat, dna: Dna, failed: seq<Id>)
    | RequeueNext(thread: nat, now: int)
    | ResetFailed(dnas: set<Dna>)

  predicate Has(store: Store, id: Id, dna: Dna, status: Status) {
    id in store && store[id].dna == dna && store[id].status == status
  }

  // ---------------------------------------------------------------- the worker

  /** What the next step of the worker may be. The retry filter reads the clock, so it may pass any part of the failed
      ops that have retries left. */
  ghost predicate CanMove(maxRetries: nat, sh: Shared, p: Phase, move: Move) {
    match move
    case SeePending(ids) =>
      p.ReadPending? && Distinct(ids) && forall id :: id in ids <==> Has(sh.store, id, p.dna, Pending)
    case SeeFailed(ids) =>
      p.ReadFailed? && Distinct(ids)
      && forall id :: id in ids ==> Has(sh.store, id, p.dna, Failed) && sh.store[id].retryCount < maxRetries
    case SerializationFails => p.Batching?
    case Split(batches) => p.Batching? && Concat(batches) == p.ops && forall b :: b in batches ==> b != []
    case TakeBatch => p.Publishing?
    case Mark(_) => p.Marking? && p.k < |p.batch|
    case Send => p.Marking? && p.k == |p.batch|
    case Receive(_) => p.Awaiting?
    case Settle(_) => p.Settling?
    case Remove => p.Removing?
  }

  /** The step itself: the new shared state, and where the worker waits next (None: the call has returned). */
  function Moved(sh: Shared, p: Phase, move: Move): (Shared, Option<Phase>) {
    match (move, p)
    case (SeePending(ids), ReadPending(dna)) => (sh, Some(ReadFailed(dna, ids)))
    case (SeeFailed(ids), ReadFailed(dna, pending)) =>
      (sh, if pending + ids == [] then None else Some(Batching(dna, pending + ids)))
    case (SerializationFails, _) => (sh, None)
    case (Split(batches), Batching(dna, _)) => (sh, Some(Publishing(dna, batches)))
    case (TakeBatch, Publishing(dna, batches)) =>
      (sh, Some(if batches == [] then ReadPending(dna) else Marking(dna, batches[0], 0, batches[1..])))
    case (Mark(now), Marking(dna, batch, k, rest)) =>
      if k < |batch| then
        (sh.(store := StatusUpdated(sh.store, batch[k], InFlight, None, now)), Some(Marking(dna, batch, k + 1, rest)))
      else (sh, Some(p))
    case (Send, Marking(dna, batch, _, rest)) =>
      (sh.(sends := Sent(sh.sends, batch)), Some(Awaiting(dna, batch, rest)))
    case (Receive(answer), Awaiting(dna, batch, rest)) =>
      (sh.(acknowledged := sh.acknowledged + DeliveredIds(answer, batch)), Some(Settling(dna, batch, 0, rest, answer)))
    case (Settle(now), Settling(dna, batch, k, rest, answer)) =>
      if k >= |batch| then (sh, Some(Publishing(dna, rest)))
      else if Delivered(answer, k) then
        (sh.(store := StatusUpdated(sh.store, batch[k], Published, None, now)),
         Some(Removing(dna, batch, k, rest, answer)))
      else
        (sh.(store := StatusUpdated(sh.store, batch[k], Failed, Some(FailureReason(answer, k)), now)),
         Some(Settling(dna, batch, k + 1, rest, answer)))
    case (Remove, Removing(dna, batch, k, rest, answer)) =>
      if k < |batch| then (sh.(store := sh.store - {batch[k]}), Some(Settling(dna, batch, k + 1, rest, answer)))
      else (sh, Some(p))
    case _ => (sh, Some(p))
  }

  // ---------------------------------------------------------------- what a worker keeps

  /** What matters about a worker between two steps: the ops it has picked and not finished with, in the order it will
      handle them; how many of them, from the front, may be marked InFlight and how many have been sent; and whether
      the first one is about to be removed. */
  datatype View = View(claims: seq<Id>, marked: nat, sent: nat, removing: bool)

  const NO_WORK := View([], 0, 0, false)

  function ViewOf(p: Option<Phase>): View {
    match p
    case Some(ReadFailed(_, pending)) => View(pending, 0, 0, false)
    case Some(Batching(_, ops)) => View(ops, 0, 0, false)
    case Some(Publishing(_, batches)) => View(Concat(batches), 0, 0, false)
    case Some(Marking(_, batch, k, rest)) => View(batch + Concat(rest), k, 0, false)
    case Some(Awaiting(_, batch, rest)) => View(batch + Concat(rest), |batch|, |batch|, false)
    case Some(Settling(_, batch, k, rest, _)) => Unsettled(batch, k, rest, false)
    case Some(Removing(_, batch, k, rest, _)) => Unsettled(batch, k, rest, true)
    case _ => NO_WORK
  }

  function Unsettled(batch: seq<Id>, k: nat, rest: seq<seq<Id>>, removing: bool): View {
    if k <= |batch| then View(batch[k..] + Concat(rest), |batch| - k, |batch| - k, removing)
    else NO_WORK
  }

  /** How often an op may still be sent before the next reset: a claimed op will be sent, and a sent one that is not
      settled comes back, if at all, with one more failed attempt. */
  function Remaining(maxRetries: nat, t: Tracked, claimed: bool, sent: bool): nat {
    if sent then AtLeastOne(maxRetries - t.retryCount) - 1
    else if claimed then AtLeastOne(maxRetries - t.retryCount)
    else Allowance(t, maxRetries)
  }

  /** Everything the interleaving keeps about one op. */
  ghost predicate OpInv(maxRetries: nat, sh: Shared, v: View, id: Id)
    requires v.sent <= |v.claims| && v.marked <= |v.claims|
  {
    && (id in sh.store ==> id in sh.queued)
    && (id in sh.queued ==> id in sh.store || id in sh.acknowledged)
    && (id in v.claims ==> id in sh.store)
    && (id in sh.store && sh.store[id].status == InFlight ==> id in v.claims[..v.marked])
    && (id in sh.store && sh.store[id].status == Published ==> v.removing && v.claims != [] && id == v.claims[0])
    && SendsOf(sh.sends, id) + (if id in sh.store
                       then Remaining(maxRetries, sh.store[id], id in v.claims, id in v.claims[..v.sent])
                       else 0) <= AtLeastOne(maxRetries)
  }

  ghost predicate CoreInv(maxRetries: nat, sh: Shared, v: View) {
    && Distinct(v.claims) && v.sent <= v.marked <= |v.claims|
    && (v.removing ==> v.sent > 0 && v.claims[0] in sh.acknowledged)
    && forall id :: OpInv(maxRetries, sh, v, id)
  }

  /** The worker picks more ops that may be sent. */
  lemma ClaimKeepsCore(maxRetries: nat, sh: Shared, v: View, ids: seq<Id>)
    requires CoreInv(maxRetries, sh, v) && v.marked == 0
    requires Distinct(v.claims + ids)
    requires forall id :: id in ids ==> id in sh.store && Eligible(sh.store[id], maxRetries)
    ensures CoreInv(maxRetries, sh, v.(claims := v.claims + ids))
  {
    forall id
      ensures OpInv(maxRetries, sh, v.(claims := v.claims + ids), id)
    {
      assert OpInv(maxRetries, sh, v, id);
    }
  }

  /** The worker gives up what it has not started to mark. */
  lemma AbandonKeepsCore(maxRetries: nat, sh: Shared, v: View)
    requires CoreInv(maxRetries, sh, v) && v.marked == 0
    ensures CoreInv(maxRetries, sh, NO_WORK)
  {
    forall id
      ensures OpInv(maxRetries, sh, NO_WORK, id)
    {
      assert OpInv(maxRetries, sh, v, id);
    }
  }

  /** Marking the next claim InFlight. */
  lemma MarkKeepsCore(maxRetries: nat, sh: Shared, v: View, now: int)
    requires CoreInv(maxRetries, sh, v) && v.marked < |v.claims| && v.sent == 0 && !v.removing
    ensures CoreInv(maxRetries, sh.(store := StatusUpdated(sh.store, v.claims[v.marked], InFlight, None, now)),
                    v.(marked := v.marked + 1))
  {
    var sh', v' := sh.(store := StatusUpdated(sh.store, v.claims[v.marked], InFlight, None, now)),
                   v.(marked := v.marked + 1);
    assert v.claims[..v.marked + 1] == v.claims[..v.marked] + [v.claims[v.marked]];
    forall id
      ensures OpInv(maxRetries, sh', v', id)
    {
      assert OpInv(maxRetries, sh, v, id);
    }
  }

  /** Sending the marked claims spends one send of each. */
  lemma SendKeepsCore(maxRetries: nat, sh: Shared, v: View)
    requires CoreInv(maxRetries, sh, v) && v.sent == 0 && !v.removing
    ensures CoreInv(maxRetries, sh.(sends := Sent(sh.sends, v.claims[..v.marked])), v.(sent := v.marked))
  {
    var batch := v.claims[..v.marked];
    var sh', v' := sh.(sends := Sent(sh.sends, batch)), v.(sent := v.marked);
    forall id
      ensures OpInv(maxRetries, sh', v', id)
    {
      assert OpInv(maxRetries, sh, v, id);
    }
  }

  /** More ops are known to be delivered. */
  lemma AcknowledgeKeepsCore(maxRetries: nat, sh: Shared, v: View, ids: set<Id>)
    requires CoreInv(maxRetries, sh, v)
    ensures CoreInv(maxRetries, sh.(acknowledged := sh.acknowledged + ids), v)
  {
    forall id
      ensures OpInv(maxRetries, sh.(acknowledged := sh.acknowledged + ids), v, id)
    {
      assert OpInv(maxRetries, sh, v, id);
    }
  }

  /** Settling the first claim: it failed, it is about to be removed, or it is removed. */
  lemma SettleKeepsCore(maxRetries: nat, sh: Shared, v: View, reason: string, now: int)
    requires CoreInv(maxRetries, sh, v) && v.sent > 0 && v.marked == v.sent
    ensures !v.removing ==>
              CoreInv(maxRetries, sh.(store := StatusUpdated(sh.store, v.claims[0], Failed, Some(reason), now)),
                      View(v.claims[1..], v.marked - 1, v.sent - 1, false))
    ensures !v.removing && v.claims[0] in sh.acknowledged ==>
              CoreInv(maxRetries, sh.(store := StatusUpdated(sh.store, v.claims[0], Published, None, now)),
                      v.(removing := true))
    ensures v.removing ==>
              CoreInv(maxRetries, sh.(store := sh.store - {v.claims[0]}),
                      View(v.claims[1..], v.marked - 1, v.sent - 1, false))
  {
    var first := v.claims[0];
    var shorter := View(v.claims[1..], v.marked - 1, v.sent - 1, false);
    assert v.claims == [first] + shorter.claims;
    assert v.claims[..v.sent] == [first] + shorter.claims[..shorter.sent];
    var failed := sh.(store := StatusUpdated(sh.store, first, Failed, Some(reason), now));
    var published := sh.(store := StatusUpdated(sh.store, first, Published, None, now));
    var removed := sh.(store := sh.store - {first});
    forall id
      ensures !v.removing ==> OpInv(maxRetries, failed, shorter, id)
      ensures !v.removing && first in sh.acknowledged ==> OpInv(maxRetries, published, v.(removing := true), id)
      ensures v.removing ==> OpInv(maxRetries, removed, shorter, id)
    {
      assert OpInv(maxRetries, sh, v, id);
    }
  }

  // ---------------------------------------------------------------- one step of the worker

  /** Ops seen as Pending stay so while the failed ones are read, and the delivered ops of an answer that is being
      worked through have been acknowledged. */
  ghost predicate PhaseInv(sh: Shared, p: Option<Phase>) {
    match p
    case Some(Requeueing(_, _)) => false
    case Some(ReadFailed(_, pending)) => forall id :: id in pending && id in sh.store ==> sh.store[id].status == Pending
    case Some(Marking(_, batch, k, _)) => k <= |batch|
    case Some(Settling(_, batch, k, _, answer)) => k <= |batch| && DeliveredIds(answer, batch) <= sh.acknowledged
    case Some(Removing(_, batch, k, _, answer)) => k < |batch| && DeliveredIds(answer, batch) <= sh.acknowledged
    case _ => true
  }

  ghost predicate WorkerInv(maxRetries: nat, sh: Shared, p: Option<Phase>) {
    PhaseInv(sh, p) && CoreInv(maxRetries, sh, ViewOf(p))
  }

  /** Reading the queue and batching. */
  lemma ReadingKeepsWorker(maxRetries: nat, sh: Shared, p: Phase, move: Move)
    requires WorkerInv(maxRetries, sh, Some(p)) && CanMove(maxRetries, sh, p, move)
    requires p.ReadPending? || p.ReadFailed? || p.Batching? || p.Publishing?
    ensures WorkerInv(maxRetries, Moved(sh, p, move).0, Moved(sh, p, move).1)
  {
    var v := ViewOf(Some(p));
    match (move, p)
    case (SeePending(ids), ReadPending(_)) =>
      assert [] + ids == ids;
      ClaimKeepsCore(maxRetries, sh, v, ids);
    case (SeeFailed(ids), ReadFailed(_, pending)) =>
      forall id | id in pending
        ensures id in sh.store
      {
        assert OpInv(maxRetries, sh, v, id);
      }
      forall id | id in pending
        ensures id !in ids
      {
        assert sh.store[id].status == Pending;
      }
      DistinctAppend(pending, ids);
      ClaimKeepsCore(maxRetries, sh, v, ids);
    case (SerializationFails, Batching(_, _)) =>
      AbandonKeepsCore(maxRetries, sh, v);
    case (Split(batches), _) =>
    case (TakeBatch, Publishing(_, batches)) =>
  }

  /** Marking a batch, sending it, and hearing the answer. */
  lemma SendingKeepsWorker(maxRetries: nat, sh: Shared, p: Phase, move: Move)
    requires WorkerInv(maxRetries, sh, Some(p)) && CanMove(maxRetries, sh, p, move)
    requires p.Marking? || p.Awaiting?
    ensures WorkerInv(maxRetries, Moved(sh, p, move).0, Moved(sh, p, move).1)
  {
    var v := ViewOf(Some(p));
    match (move, p)
    case (Mark(now), Marking(_, batch, k, rest)) =>
      MarkKeepsCore(maxRetries, sh, v, now);
      assert v.claims[k] == batch[k];
    case (Send, Marking(_, batch, _, rest)) =>
      SendKeepsCore(maxRetries, sh, v);
      assert v.claims[..|batch|] == batch;
    case (Receive(answer), Awaiting(_, batch, rest)) =>
      AcknowledgeKeepsCore(maxRetries, sh, v, DeliveredIds(answer, batch));
      assert batch[0..] == batch;
  }

  /** Working through the answer. */
  lemma SettlingKeepsWorker(maxRetries: nat, sh: Shared, p: Phase, move: Move)
    requires WorkerInv(maxRetries, sh, Some(p)) && CanMove(maxRetries, sh, p, move)
    requires p.Settling? || p.Removing?
    ensures WorkerInv(maxRetries, Moved(sh, p, move).0, Moved(sh, p, move).1)
  {
    var v := ViewOf(Some(p));
    match (move, p)
    case (Settle(now), Settling(_, batch, k, rest, answer)) =>
      SettleStep(maxRetries, sh, v, batch, k, rest, answer, now);
    case (Remove, Removing(_, batch, k, rest, answer)) =>
      SettleStep(maxRetries, sh, v, batch, k, rest, answer, 0);
  }

  /** Every step of the worker keeps the invariant. */
  lemma MoveKeepsWorker(maxRetries: nat, sh: Shared, p: Phase, move: Move)
    requires WorkerInv(maxRetries, sh, Some(p)) && CanMove(maxRetries, sh, p, move)
    ensures WorkerInv(maxRetries, Moved(sh, p, move).0, Moved(sh, p, move).1)
  {
    match p
    case Marking(_, _, _, _) => SendingKeepsWorker(maxRetries, sh, p, move);
    case Awaiting(_, _, _) => SendingKeepsWorker(maxRetries, sh, p, move);
    case Settling(_, _, _, _, _) => SettlingKeepsWorker(maxRetries, sh, p, move);
    case Removing(_, _, _, _, _) => SettlingKeepsWorker(maxRetries, sh, p, move);
    case _ => ReadingKeepsWorker(maxRetries, sh, p, move);
  }

  lemma SettleStep(maxRetries: nat, sh: Shared, v: View, batch: seq<Id>, k: nat, rest: seq<seq<Id>>, answer: Answer,
                   now: int)
    requires k <= |batch| && v == Unsettled(batch, k, rest, v.removing) && CoreInv(maxRetries, sh, v)
    requires DeliveredIds(answer, batch) <= sh.acknowledged
    ensures k == |batch| ==> v == View(Concat(rest), 0, 0, v.removing)
    ensures k < |batch| && !v.removing && Delivered(answer, k) ==>
              CoreInv(maxRetries, sh.(store := StatusUpdated(sh.store, batch[k], Published, None, now)),
                      Unsettled(batch, k, rest, true))
    ensures k < |batch| && !v.removing && !Delivered(answer, k) ==>
              CoreInv(maxRetries,
                      sh.(store := StatusUpdated(sh.store, batch[k], Failed, Some(FailureReason(answer, k)), now)),
                      Unsettled(batch, k + 1, rest, false))
    ensures k < |batch| && v.removing ==>
              CoreInv(maxRetries, sh.(store := sh.store - {batch[k]}), Unsettled(batch, k + 1, rest, false))
  {
    if k < |batch| {
      assert v.claims[0] == batch[k];
      assert v.claims[1..] == batch[k + 1..] + Concat(rest);
      if Delivered(answer, k) {
        assert batch[k] in DeliveredIds(answer, batch);
      }
      SettleKeepsCore(maxRetries, sh, v, FailureReason(answer, k), now);
    } else {
      assert v.claims == Concat(rest);
    }
  }

  // ---------------------------------------------------------------- the other calls

  /** A reset by hand makes an op Pending again and starts its count of sends afresh. */
  ghost predicate ResetBy(before: Shared, after: Shared, ids: set<Id>) {
    && after.queued == before.queued && after.acknowledged == before.acknowledged
    && after.store.Keys == before.store.Keys
    && forall id ::
         if id in ids && id in before.store
         then after.store[id].status == Pending && SendsOf(after.sends, id) == 0
         else SendsOf(after.sends, id) <= SendsOf(before.sends, id)
              && (id in before.store ==> after.store[id] == before.store[id])
  }

  lemma ResetKeepsWorker(maxRetries: nat, before: Shared, after: Shared, ids: set<Id>, p: Option<Phase>)
    requires WorkerInv(maxRetries, before, p) && ResetBy(before, after, ids)
    ensures WorkerInv(maxRetries, after, p)
  {
    forall id
      ensures OpInv(maxRetries, after, ViewOf(p), id)
    {
      assert OpInv(maxRetries, before, ViewOf(p), id);
    }
  }

  /** `storePendingPublish` for an id that was never used. */
  function Enqueued(sh: Shared, id: Id, op: ChainOp, dna: Dna): Shared {
    Shared(sh.store[id := NewOp(op, dna)], sh.queued + {id}, sh.acknowledged, sh.sends[id := 0])
  }

  lemma EnqueueKeepsWorker(maxRetries: nat, sh: Shared, id: Id, op: ChainOp, dna: Dna, p: Option<Phase>)
    requires WorkerInv(maxRetries, sh, p) && id !in sh.queued
    ensures WorkerInv(maxRetries, Enqueued(sh, id, op, dna), p)
  {
    forall other
      ensures OpInv(maxRetries, Enqueued(sh, id, op, dna), ViewOf(p), other)
    {
      assert OpInv(maxRetries, sh, ViewOf(p), other);
      assert OpInv(maxRetries, sh, ViewOf(p), id);
    }
  }

  /** One write of `retryFailed`; it may hit an op that has been removed, or one that is in flight by now. */
  function RequeuedOne(sh: Shared, id: Id, now: int): Shared {
    sh.(store := StatusUpdated(sh.store, id, Pending, None, now), sends := sh.sends[id := 0])
  }

  function AllReset(sh: Shared, dnas: set<Dna>): Shared {
    sh.(store := FailedReset(sh.store, dnas),
        sends := map id | id in sh.sends && id !in ResettableIds(sh.store, dnas) :: sh.sends[id])
  }

  lemma ResetsAreResets(sh: Shared, id: Id, now: int, dnas: set<Dna>)
    ensures ResetBy(sh, RequeuedOne(sh, id, now), {id})
    ensures ResetBy(sh, AllReset(sh, dnas), ResettableIds(sh.store, dnas))
  {
  }

  // ---------------------------------------------------------------- the whole system

  function Holder(s: State): Option<Phase> {
    if s.holder.Some? && s.holder.value in s.threads then Some(s.threads[s.holder.value]) else None
  }

  /** Mutual exclusion: a thread is inside `processQueue` exactly if it holds the flag. */
  ghost predicate Exclusive(s: State) {
    && (s.processingQueue <==> s.holder.Some?)
    && (s.holder.Some? ==> s.holder.value in s.threads)
    && forall t :: t in s.threads && !s.threads[t].Requeueing? ==> s.holder == Some(t)
  }

  ghost predicate Inv(maxRetries: nat, s: State) {
    Exclusive(s) && WorkerInv(maxRetries, s.shared, Holder(s))
  }

  ghost predicate Enabled(maxRetries: nat, s: State, e: Event) {
    match e
    case Enqueue(id, _, _) => id !in s.shared.queued
    case CallProcessQueue(t, _) => t !in s.threads
    case Work(t, move) => t in s.threads && CanMove(maxRetries, s.shared, s.threads[t], move)
    case CallRetryFailed(t, dna, failed) =>
      t !in s.threads && Distinct(failed) && forall id :: id in failed <==> Has(s.shared.store, id, dna, Failed)
    case RequeueNext(t, _) => t in s.threads && s.threads[t].Requeueing?
    case ResetFailed(_) => true
  }

  /** Entering `processQueue`: the flag is tested and set in one step. */
  function Entered(s: State, t: nat, dna: Dna): State {
    if s.processingQueue then s.(threads := s.threads - {t})
    else s.(processingQueue := true, holder := Some(t), threads := s.threads[t := ReadPending(dna)])
  }

  ghost function After(maxRetries: nat, s: State, e: Event): State
    requires Enabled(maxRetries, s, e)
  {
    match e
    case Enqueue(id, op, dna) => s.(shared := Enqueued(s.shared, id, op, dna))
    case CallProcessQueue(t, dna) => Entered(s, t, dna)
    case Work(t, move) =>
      var (shared, next) := Moved(s.shared, s.threads[t], move);
      if next.Some? then s.(shared := shared, threads := s.threads[t := next.value])
      else s.(shared := shared, processingQueue := false, holder := None, threads := s.threads - {t})
    case CallRetryFailed(t, dna, failed) => s.(threads := s.threads[t := Requeueing(dna, failed)])
    case RequeueNext(t, now) =>
      var todo := s.threads[t].todo;
      if todo == [] then Entered(s, t, s.threads[t].dna)
      else s.(shared := RequeuedOne(s.shared, todo[0], now),
              threads := s.threads[t := Requeueing(s.threads[t].dna, todo[1..])])
    case ResetFailed(dnas) => s.(shared := AllReset(s.shared, dnas))
  }

  const INITIAL := State(Shared(map[], {}, {}, map[]), false, None, map[])

  lemma InitialInv(maxRetries: nat)
    ensures Inv(maxRetries, INITIAL)
  {
  }

  lemma StepKeepsInv(maxRetries: nat, s: State, e: Event)
    requires Inv(maxRetries, s) && Enabled(maxRetries, s, e)
    ensures Inv(maxRetries, After(maxRetries, s, e))
  {
    match e
    case Enqueue(id, op, dna) => EnqueueKeepsWorker(maxRetries, s.shared, id, op, dna, Holder(s));
    case CallProcessQueue(t, dna) =>
    case Work(t, move) => MoveKeepsWorker(maxRetries, s.shared, s.threads[t], move);
    case CallRetryFailed(t, dna, failed) =>
    case RequeueNext(t, now) =>
      if s.threads[t].todo != [] {
        var id := s.threads[t].todo[0];
        ResetsAreResets(s.shared, id, now, {});
        ResetKeepsWorker(maxRetries, s.shared, RequeuedOne(s.shared, id, now), {id}, Holder(s));
      }
    case ResetFailed(dnas) =>
      ResetsAreResets(s.shared, "", 0, dnas);
      ResetKeepsWorker(maxRetries, s.shared, AllReset(s.shared, dnas), ResettableIds(s.shared.store, dnas), Holder(s));
  }

  /** A run: every state follows from the one before by an enabled event. */
  ghost predicate Run(maxRetries: nat, states: seq<State>, events: seq<Event>) {
    && |states| == |events| + 1 && states[0] == INITIAL
    && forall i :: 0 <= i < |events| ==>
         Enabled(maxRetries, states[i], events[i]) && states[i + 1] == After(maxRetries, states[i], events[i])
  }

  lemma {:induction false} RunKeepsInv(maxRetries: nat, states: seq<State>, events: seq<Event>, n: nat)
    requires Run(maxRetries, states, events) && n < |states|
    ensures Inv(maxRetries, states[n])
  {
    if n == 0 {
      InitialInv(maxRetries);
    } else {
      RunKeepsInv(maxRetries, states, events, n - 1);
      StepKeepsInv(maxRetries, states[n - 1], events[n - 1]);
    }
  }

  // ---------------------------------------------------------------- what a caller can rely on

  ghost predicate Outstanding(s: State, t: nat, id: Id) {
    t in s.threads && s.threads[t].Awaiting? && id in s.threads[t].batch
  }

  /** In every reachable state: an op is part of at most one outstanding request, and occurs in it once; every op ever
      queued is tracked or was reported delivered; an op not in a request is not InFlight when no worker runs; and
      since it was queued or last reset by hand, no op has been sent more than max(1, maxRetries) times. */
  lemma QueueIsSafe(maxRetries: nat, states: seq<State>, events: seq<Event>, n: nat)
    requires Run(maxRetries, states, events) && n < |states|
    ensures var s := states[n];
      && (forall t, u, id :: Outstanding(s, t, id) && Outstanding(s, u, id) ==> t == u)
      && (forall t :: t in s.threads && s.threads[t].Awaiting? ==> Distinct(s.threads[t].batch))
      && (forall id :: id in s.shared.queued ==> id in s.shared.store || id in s.shared.acknowledged)
      && (!s.processingQueue ==> forall id :: id in s.shared.store ==> s.shared.store[id].status in {Pending, Failed})
      && (forall id :: SendsOf(s.shared.sends, id) <= AtLeastOne(maxRetries))
  {
    RunKeepsInv(maxRetries, states, events, n);
    var s := states[n];
    var v := ViewOf(Holder(s));
    forall t | t in s.threads && s.threads[t].Awaiting?
      ensures Distinct(s.threads[t].batch)
    {
      assert Distinct(v.claims);
      var batch := s.threads[t].batch;
      assert forall i :: 0 <= i < |batch| ==> v.claims[i] == batch[i];
    }
    forall id
      ensures id in s.shared.queued ==> id in s.shared.store || id in s.shared.acknowledged
      ensures !s.processingQueue && id in s.shared.store ==> s.shared.store[id].status in {Pending, Failed}
      ensures SendsOf(s.shared.sends, id) <= AtLeastOne(maxRetries)
    {
      assert OpInv(maxRetries, s.shared, v, id);
    }
  }
}
