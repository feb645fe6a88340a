/** How the sends of one run of the worker are spaced in time: an op is sent again only after its back-off delay. */
module PublishPacing {
  import opened PublishTracking
  import opened Sequences

  function Pow2(n: nat): (p: nat)
    ensures p > 0
  {
    if n == 0 then 1 else 2 * Pow2(n - 1)
  }

  function Capped(delay: nat, max: nat): nat {
    if delay <= max then delay else max
  }

  function BackoffDelay(base: nat, max: nat, retryCount: nat): nat {
    Capped(base * Pow2(retryCount), max)
  }

  /** The delay starts at the base, doubles with every failed attempt, and never exceeds the maximum. */
  lemma BackoffDoubles(base: nat, max: nat, retryCount: nat)
    ensures BackoffDelay(base, max, 0) == Capped(base, max)
    ensures BackoffDelay(base, max, retryCount + 1) == Capped(2 * BackoffDelay(base, max, retryCount), max)
    ensures base > 0 && max > 0 ==> BackoffDelay(base, max, retryCount) > 0
  {
    var p := Pow2(retryCount);
    assert base * Pow2(retryCount + 1) == 2 * (base * p);
    assert base > 0 ==> base * p > 0;
  }

  predicate Ready(base: nat, max: nat, lastAttempt: int, retryCount: nat, now: int) {
    lastAttempt == 0 || now - lastAttempt >= BackoffDelay(base, max, retryCount)
  }

  /** The configured delays, and the clock by the number of the reading. */
  datatype Pace = Pace(base: nat, max: nat, clock: nat -> int)

  /** The time is one of the readings in the range. */
  ghost predicate ReadIn(p: Pace, time: int, from: nat, to: nat) {
    exists k :: from <= k < to && p.clock(k) == time
  }

  /** At one of the readings in the range an op with these counts was ready, or it had never been attempted. */
  ghost predicate Waited(p: Pace, lastAttempt: int, retryCount: nat, from: nat, to: nat) {
    lastAttempt == 0
    || exists k :: from <= k < to && Ready(p.base, p.max, lastAttempt, retryCount, p.clock(k))
  }

  /** One send of one op: its record as it was picked, and how many clock readings had been taken when the request
      left. */
  datatype Sending = Sending(id: Id, record: Tracked, at: nat)

  function Sendings(ids: seq<Id>, store: Store, at: nat): (log: seq<Sending>)
    requires forall id :: id in ids ==> id in store
    ensures |log| == |ids|
  {
    seq(|ids|, i requires 0 <= i < |ids| => Sending(ids[i], store[ids[i]], at))
  }

  function LogIds(log: seq<Sending>): (ids: seq<Id>)
    ensures |ids| == |log|
  {
    seq(|log|, i requires 0 <= i < |log| => log[i].id)
  }

  /** The worker may send an op that is Pending, or a Failed one with retries left whose delay has passed. */
  ghost predicate Entitled(p: Pace, maxRetries: nat, t: Tracked, from: nat, at: nat) {
    t.status == Pending
    || (t.status == Failed && t.retryCount < maxRetries && Waited(p, t.lastAttempt, t.retryCount, from, at))
  }

  /** The record is what a failed send left behind: the failure was counted, and stamped with a reading taken after the
      send. */
  ghost predicate LeftBy(p: Pace, e: Sending, t: Tracked, to: nat) {
    t.status == Failed && t.retryCount > e.record.retryCount && ReadIn(p, t.lastAttempt, e.at, to)
  }

  /** The part of the log from `start` on, written while the clock was read from `from` on: every send was due, every
      later send of an op was of what the earlier one left behind, and so is what is tracked now. */
  ghost predicate Paced(p: Pace, maxRetries: nat, start: nat, log: seq<Sending>, store: Store, from: nat, readings: nat)
  {
    && start <= |log| && from <= readings
    && (forall i :: start <= i < |log| ==>
          from <= log[i].at <= readings && Entitled(p, maxRetries, log[i].record, from, log[i].at))
    && (forall i, j :: start <= i < j < |log| && log[i].id == log[j].id ==>
          LeftBy(p, log[i], log[j].record, log[j].at))
    && (forall i :: start <= i < |log| && log[i].id in store ==> LeftBy(p, log[i], store[log[i].id], readings))
  }

  lemma LeftByLater(p: Pace, e: Sending, t: Tracked, to: nat, later: nat)
    requires LeftBy(p, e, t, to) && to <= later
    ensures LeftBy(p, e, t, later)
  {
    var k :| e.at <= k < to && p.clock(k) == t.lastAttempt;
  }

  lemma PacedStart(p: Pace, maxRetries: nat, log: seq<Sending>, store: Store, readings: nat)
    ensures Paced(p, maxRetries, |log|, log, store, readings, readings)
  {
  }

  /** Reading the clock changes nothing. */
  lemma PacedLater(p: Pace, maxRetries: nat, start: nat, log: seq<Sending>, store: Store, from: nat, readings: nat,
                   later: nat)
    requires Paced(p, maxRetries, start, log, store, from, readings) && readings <= later
    ensures Paced(p, maxRetries, start, log, store, from, later)
  {
    forall i | start <= i < |log| && log[i].id in store
      ensures LeftBy(p, log[i], store[log[i].id], later)
    {
      LeftByLater(p, log[i], store[log[i].id], readings, later);
    }
  }

  lemma PacedEarlier(p: Pace, maxRetries: nat, start: nat, log: seq<Sending>, store: Store, earlier: nat, from: nat,
                     readings: nat)
    requires Paced(p, maxRetries, start, log, store, from, readings) && earlier <= from
    ensures Paced(p, maxRetries, start, log, store, earlier, readings)
  {
    forall i | start <= i < |log|
      ensures Entitled(p, maxRetries, log[i].record, earlier, log[i].at)
    {
      assert Entitled(p, maxRetries, log[i].record, from, log[i].at);
    }
  }

  /** What a request leaves of an op that it did not deliver. */
  ghost predicate Restamped(p: Pace, before: Tracked, after: Tracked, at: nat, to: nat) {
    after.status == Failed && after.retryCount == before.retryCount + 1 && ReadIn(p, after.lastAttempt, at, to)
  }

  lemma NewSendsDiffer(log: seq<Sending>, ids: seq<Id>, store: Store, at: nat)
    requires Distinct(ids) && forall id :: id in ids ==> id in store
    ensures var log' := log + Sendings(ids, store, at);
            forall i, j :: |log| <= i < j < |log'| ==> log'[i].id != log'[j].id
  {
  }

  /** A settled request keeps the log paced. */
  lemma PacedRequest(p: Pace, maxRetries: nat, start: nat, log: seq<Sending>, store: Store, from: nat, readings: nat,
                     ids: seq<Id>, at: nat, store': Store, readings': nat)
    requires Paced(p, maxRetries, start, log, store, from, readings) && readings <= at <= readings'
    requires Distinct(ids)
    requires forall id :: id in ids ==> id in store && Entitled(p, maxRetries, store[id], from, at)
    requires forall id :: id in ids && id in store' ==> Restamped(p, store[id], store'[id], at, readings')
    requires forall id :: id in store' && id !in ids ==> id in store && store'[id] == store[id]
    ensures Paced(p, maxRetries, start, log + Sendings(ids, store, at), store', from, readings')
  {
    var log' := log + Sendings(ids, store, at);
    NewSendsDiffer(log, ids, store, at);
    forall i, j | start <= i < j < |log'| && log'[i].id == log'[j].id
      ensures LeftBy(p, log'[i], log'[j].record, log'[j].at)
    {
      if |log| <= j {
        assert log'[j].id == ids[j - |log|] && log'[j].record == store[ids[j - |log|]];
        assert i < |log|;
        LeftByLater(p, log[i], store[log[i].id], readings, at);
      }
    }
    forall i | start <= i < |log'| && log'[i].id in store'
      ensures LeftBy(p, log'[i], store'[log'[i].id], readings')
    {
      PacedEntry(p, maxRetries, start, log, store, from, readings, ids, at, store', readings', i);
    }
  }

  lemma PacedEntry(p: Pace, maxRetries: nat, start: nat, log: seq<Sending>, store: Store, from: nat, readings: nat,
                   ids: seq<Id>, at: nat, store': Store, readings': nat, i: nat)
    requires Paced(p, maxRetries, start, log, store, from, readings) && readings <= at <= readings'
    requires forall id :: id in ids ==> id in store
    requires forall id :: id in ids && id in store' ==> Restamped(p, store[id], store'[id], at, readings')
    requires forall id :: id in store' && id !in ids ==> id in store && store'[id] == store[id]
    requires start <= i < |log + Sendings(ids, store, at)| && (log + Sendings(ids, store, at))[i].id in store'
    ensures var e := (log + Sendings(ids, store, at))[i];
            LeftBy(p, e, store'[e.id], readings')
  {
    var e := (log + Sendings(ids, store, at))[i];
    if i < |log| {
      assert LeftBy(p, e, store[e.id], readings);
      if e.id in ids {
        var k :| at <= k < readings' && p.clock(k) == store'[e.id].lastAttempt;
      } else {
        LeftByLater(p, e, store[e.id], readings, readings');
      }
    } else {
      assert e.id == ids[i - |log|];
    }
  }

  // ---------------------------------------------------------------- what follows

  ghost predicate Monotone(p: Pace) {
    forall i, j :: 0 <= i <= j ==> p.clock(i) <= p.clock(j)
  }

  /** Every op sent in the run and still tracked has failed, and carries one of the readings of the run. */
  lemma SentIsStamped(p: Pace, maxRetries: nat, start: nat, log: seq<Sending>, store: Store, from: nat, readings: nat,
                      i: nat)
    requires Paced(p, maxRetries, start, log, store, from, readings)
    requires start <= i < |log| && log[i].id in store
    ensures store[log[i].id].status == Failed && ReadIn(p, store[log[i].id].lastAttempt, from, readings)
  {
    assert LeftBy(p, log[i], store[log[i].id], readings);
    var k :| log[i].at <= k < readings && p.clock(k) == store[log[i].id].lastAttempt;
  }

  /** Between two sends of an op in one run the clock advances by the back-off delay, as it is after the failures so
      far. */
  lemma SendsAreSpaced(p: Pace, maxRetries: nat, start: nat, log: seq<Sending>, store: Store, from: nat, readings: nat,
                       i: nat, j: nat)
    requires Paced(p, maxRetries, start, log, store, from, readings) && Monotone(p)
    requires start <= i < j < |log| && log[i].id == log[j].id && log[j].record.lastAttempt != 0
    ensures log[j].record.retryCount > log[i].record.retryCount
    ensures p.clock(log[j].at) - p.clock(log[i].at) >= BackoffDelay(p.base, p.max, log[j].record.retryCount)
  {
    var e, f := log[i], log[j];
    assert LeftBy(p, e, f.record, f.at);
    var k :| e.at <= k < f.at && p.clock(k) == f.record.lastAttempt;
    assert Entitled(p, maxRetries, f.record, from, f.at);
    var c :| from <= c < f.at && Ready(p.base, p.max, f.record.lastAttempt, f.record.retryCount, p.clock(c));
    assert p.clock(e.at) <= p.clock(k) && p.clock(c) <= p.clock(f.at);
  }

  /** While the clock stands still, with a positive delay, one run sends no op twice. */
  lemma StillClockSendsOnce(p: Pace, maxRetries: nat, start: nat, log: seq<Sending>, store: Store, from: nat,
                            readings: nat, now: int)
    requires Paced(p, maxRetries, start, log, store, from, readings)
    requires p.base > 0 && p.max > 0 && now != 0 && forall k: nat :: p.clock(k) == now
    ensures Distinct(LogIds(log[start..]))
  {
    var ids := LogIds(log[start..]);
    forall i, j | 0 <= i < j < |ids|
      ensures ids[i] != ids[j]
    {
      var e, f := log[start + i], log[start + j];
      if e.id == f.id {
        assert LeftBy(p, e, f.record, f.at);
        assert f.record.lastAttempt == now;
        assert Entitled(p, maxRetries, f.record, from, f.at);
        SendsAreSpaced(p, maxRetries, start, log, store, from, readings, start + i, start + j);
        BackoffDoubles(p.base, p.max, f.record.retryCount);
        assert false;
      }
    }
  }
}
