/** What "least recently used" means for the record cache, stated about the sequence of keys it has touched. */
module Recency {
  import opened OrderedMaps
  import opened RecordCaching
  import opened Sequences
  import opened Wrappers

  /** An operation that deletes nothing: a lookup, an insertion, a new alias. */
  datatype Op = Get(key: Hash) | Put(key: Hash, record: NetworkRecord) | Alias(aliasKey: Hash, canonicalKey: Hash)

  function Done(c: Records, op: Op, max: nat): (c': Records)
    requires c.Valid()
    ensures c'.Valid()
  {
    match op
    case Get(key) => c.Touched(key)
    case Put(key, record) => c.Stored(key, record, max)
    case Alias(a, k) => c.Aliased(a, k)
  }

  /** The canonical key an operation touches: an insertion touches its key, a lookup that hits the key it resolves to.
      */
  function Touches(c: Records, op: Op): seq<Hash> {
    match op
    case Get(key) => if c.Lookup(key).Some? then [c.Canonical(key)] else []
    case Put(key, _) => [key]
    case Alias(_, _) => []
  }

  function Ran(ops: seq<Op>, max: nat): (c: Records)
    ensures c.Valid()
  {
    if ops == [] then NO_RECORDS else Done(Ran(ops[..|ops| - 1], max), ops[|ops| - 1], max)
  }

  function Touched(ops: seq<Op>, max: nat): seq<Hash> {
    if ops == [] then []
    else Touched(ops[..|ops| - 1], max) + Touches(Ran(ops[..|ops| - 1], max), ops[|ops| - 1])
  }

  /** The distinct keys of a sequence of touches, each at the place of its last touch. */
  function ByRecency(touches: seq<Hash>): seq<Hash> {
    if touches == [] then []
    else Without(ByRecency(touches[..|touches| - 1]), touches[|touches| - 1]) + [touches[|touches| - 1]]
  }

  function Last<T>(s: seq<T>, n: nat): seq<T> {
    if |s| <= n then s else s[|s| - n..]
  }

  // ---------------------------------------------------------------- the order of the cache

  lemma LastAppend<T>(a: seq<T>, b: seq<T>, n: nat)
    requires |b| >= n
    ensures Last(a + b, n) == Last(b, n)
  {
  }

  /** Trimming drops keys from the front of the order, as many as there are too many. */
  lemma {:induction false} TrimmedOrder(c: Records, max: nat)
    requires c.Valid()
    ensures c.Trimmed(max).entries.order == Last(c.entries.order, max)
    decreases |c.entries.order|
  {
    if |c.entries.order| > max {
      var order := c.entries.order;
      assert order[0] in Elements(order);
      assert order == [order[0]] + order[1..];
      assert order[0] !in order[1..];
      WithoutAbsent(order[1..], order[0]);
      assert c.Evicted(order[0]).entries.order == order[1..];
      TrimmedOrder(c.Evicted(order[0]), max);
      LastAppend([order[0]], order[1..], max);
    }
  }

  lemma {:induction false} RecencyIsDistinct(touches: seq<Hash>)
    ensures Distinct(ByRecency(touches))
    ensures Elements(ByRecency(touches)) == Elements(touches)
  {
    if touches != [] {
      var front, k := touches[..|touches| - 1], touches[|touches| - 1];
      RecencyIsDistinct(front);
      WithoutDistinct(ByRecency(front), k);
      assert k !in Elements(Without(ByRecency(front), k));
      DistinctAppend(Without(ByRecency(front), k), [k]);
      assert touches == front + [k];
      assert Elements(touches) == Elements(front) + {k};
      assert Elements(Without(ByRecency(front), k) + [k]) == Elements(Without(ByRecency(front), k)) + {k};
    }
  }

  /** Moving a key to the end commutes with dropping the keys that no longer fit. */
  lemma TouchTheKept(gone: seq<Hash>, kept: seq<Hash>, k: Hash, max: nat)
    requires Distinct(kept) && forall x :: x in gone ==> x !in kept
    requires gone != [] ==> |kept| == max
    requires k in gone ==> Distinct(gone)
    ensures Last(Without(kept, k) + [k], max) == Last(Without(gone + kept, k) + [k], max)
    ensures k in kept && |kept| <= max ==> Last(Without(kept, k) + [k], max) == Without(kept, k) + [k]
  {
    WithoutAppend(gone, kept, k);
    WithoutDistinct(kept, k);
    var moved := Without(kept, k) + [k];
    assert Without(gone + kept, k) + [k] == Without(gone, k) + moved;
    if gone == [] {
      assert Without(gone, k) + moved == moved;
    } else {
      LastAppend(Without(gone, k), moved, max);
    }
  }

  lemma TouchTheLast(all: seq<Hash>, k: Hash, max: nat)
    requires Distinct(all)
    ensures Last(Without(Last(all, max), k) + [k], max) == Last(Without(all, k) + [k], max)
    ensures k in Last(all, max) ==> |Without(Last(all, max), k) + [k]| <= max
  {
    var kept := Last(all, max);
    var gone := all[..|all| - |kept|];
    assert all == gone + kept;
    forall x | x in gone
      ensures x !in kept
    {
      var i :| 0 <= i < |gone| && gone[i] == x;
      assert forall j :: 0 <= j < |kept| ==> kept[j] == all[|gone| + j];
    }
    assert Distinct(kept);
    assert Distinct(gone);
    TouchTheKept(gone, kept, k, max);
    WithoutDistinct(kept, k);
  }

  /** After any deletion-free run the cache holds the most recently touched distinct keys, as many as fit, oldest
      first. */
  lemma {:induction false} OrderIsRecency(ops: seq<Op>, max: nat)
    ensures Ran(ops, max).entries.order == Last(ByRecency(Touched(ops, max)), max)
  {
    if ops != [] {
      var front, op := ops[..|ops| - 1], ops[|ops| - 1];
      var c, touches := Ran(front, max), Touched(front, max);
      OrderIsRecency(front, max);
      TouchedOrder(c, op, touches, max);
    }
  }

  lemma TouchedOrder(c: Records, op: Op, touches: seq<Hash>, max: nat)
    requires c.Valid()
    requires c.entries.order == Last(ByRecency(touches), max)
    ensures Done(c, op, max).entries.order == Last(ByRecency(touches + Touches(c, op)), max)
  {
    if Touches(c, op) == [] {
      assert touches + [] == touches;
    } else {
      var k := Touches(c, op)[0];
      assert (touches + [k])[..|touches + [k]| - 1] == touches;
      RecencyIsDistinct(touches);
      TouchTheLast(ByRecency(touches), k, max);
      if op.Put? {
        TrimmedOrder(c.(entries := c.entries.MoveToEnd(k, op.record)), max);
      } else {
        assert k in Elements(c.entries.order);
      }
    }
  }

  // ---------------------------------------------------------------- the same, without reference to an order

  ghost predicate LastTouch(touches: seq<Hash>, k: Hash, i: nat) {
    i < |touches| && touches[i] == k && k !in touches[i + 1..]
  }

  /** The i-th most recent key has been followed by touches of exactly the keys after it. */
  lemma {:induction false} RecencyMeaning(touches: seq<Hash>, p: nat) returns (i: nat)
    requires p < |ByRecency(touches)|
    ensures LastTouch(touches, ByRecency(touches)[p], i)
    ensures Elements(ByRecency(touches)[p + 1..]) == Elements(touches[i + 1..])
  {
    var front, k := touches[..|touches| - 1], touches[|touches| - 1];
    var all := ByRecency(touches);
    if p == |all| - 1 {
      i := |touches| - 1;
    } else {
      var before := ByRecency(front);
      var q := BeforeWithout(before, k, p);
      i := RecencyMeaning(front, q);
      RecencyIsDistinct(front);
      assert touches[i + 1..] == front[i + 1..] + [k];
      assert all[p] == before[q] == front[i] == touches[i];
      assert Elements(touches[i + 1..]) == Elements(front[i + 1..]) + {k};
      assert all[p + 1..] == Without(before, k)[p + 1..] + [k];
      assert Elements(all[p + 1..]) == Elements(Without(before, k)[p + 1..]) + {k};
    }
  }

  /** Where an element that survives `Without` came from. */
  lemma {:induction false} BeforeWithout(s: seq<Hash>, k: Hash, p: nat) returns (q: nat)
    requires p < |Without(s, k)|
    ensures q < |s| && s[q] == Without(s, k)[p] && s[q] != k
    ensures Elements(Without(s, k)[p + 1..]) == Elements(s[q + 1..]) - {k}
  {
    assert s != [];
    if s[0] == k {
      q := BeforeWithout(s[1..], k, p);
      assert s[1..][q + 1..] == s[q + 2..];
      q := q + 1;
    } else if p == 0 {
      q := 0;
      assert Without(s, k)[1..] == Without(s[1..], k);
    } else {
      q := BeforeWithout(s[1..], k, p - 1);
      assert s[1..][q + 1..] == s[q + 2..];
      assert Without(s, k)[p + 1..] == Without(s[1..], k)[p..];
      q := q + 1;
    }
  }

  lemma LastTouchIsUnique(touches: seq<Hash>, k: Hash, i: nat, j: nat)
    requires LastTouch(touches, k, i) && LastTouch(touches, k, j)
    ensures i == j
  {
    assert forall x :: i < x < |touches| ==> touches[x] == touches[i + 1..][x - i - 1];
    assert forall x :: j < x < |touches| ==> touches[x] == touches[j + 1..][x - j - 1];
  }

  /** An element of a list without duplicates is among the last ones exactly if few enough come after it. */
  lemma InLastIff(all: seq<Hash>, last: seq<Hash>, p: nat)
    requires Distinct(all) && p < |all| && |last| <= |all| && last == all[|all| - |last|..]
    ensures all[p] in Elements(last) <==> p >= |all| - |last|
  {
    var dropped := |all| - |last|;
    if p >= dropped {
      assert last[p - dropped] == all[p];
    } else {
      assert forall x :: 0 <= x < |last| ==> last[x] == all[x + dropped];
    }
  }

  lemma KeysAfter(touches: seq<Hash>, k: Hash, i: nat) returns (p: nat)
    requires LastTouch(touches, k, i)
    ensures p < |ByRecency(touches)| && ByRecency(touches)[p] == k
    ensures |Elements(touches[i + 1..])| == |ByRecency(touches)| - p - 1
  {
    var all := ByRecency(touches);
    RecencyIsDistinct(touches);
    assert k in Elements(touches);
    p :| 0 <= p < |all| && all[p] == k;
    var j := RecencyMeaning(touches, p);
    LastTouchIsUnique(touches, k, i, j);
    DistinctCount(all[p + 1..]);
  }

  /** In a cache that holds the last of the keys, one is found exactly if few enough come after it. */
  lemma HeldIff(c: Records, all: seq<Hash>, max: nat, p: nat)
    requires c.Valid() && Distinct(all) && p < |all| && c.entries.order == Last(all, max)
    ensures all[p] in c.entries.vals <==> |all| - p - 1 < max
  {
    InLastIff(all, c.entries.order, p);
  }

  /** A key is cached exactly if fewer than `max` distinct other keys were touched after its last touch. */
  lemma CachedIffRecent(ops: seq<Op>, max: nat, k: Hash, i: nat)
    requires LastTouch(Touched(ops, max), k, i)
    ensures k in Ran(ops, max).entries.vals <==> |Elements(Touched(ops, max)[i + 1..])| < max
  {
    var p := KeysAfter(Touched(ops, max), k, i);
    OrderIsRecency(ops, max);
    RecencyIsDistinct(Touched(ops, max));
    HeldIff(Ran(ops, max), ByRecency(Touched(ops, max)), max, p);
  }
}
