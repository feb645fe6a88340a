/** Size-bounded batching of serialised ops (`PublishService.batchOpsBySize`).

    A grouping of ops into batches is a sequence of sequences. The rule is: batches are non-empty, and a batch that
    holds more than one op stays within the byte limit. The method fills batches greedily; `GreedyIsOptimal` shows
    that no order-preserving grouping obeying the rule uses fewer of them. */
module PublishBatching {

  /** All items of a grouping, in order. */
  function Concat<T>(groups: seq<seq<T>>): (items: seq<T>)
  {
    if groups == [] then [] else groups[0] + Concat(groups[1..])
  }

  /** Total weight of a sequence of items. */
  function Weight<T>(items: seq<T>, weigh: T -> nat): nat
  {
    if items == [] then 0 else weigh(items[0]) + Weight(items[1..], weigh)
  }

  /** The rule every grouping has to obey: no empty batch, and only a single item may exceed the limit. */
  ghost predicate Obeys<T>(groups: seq<seq<T>>, weigh: T -> nat, limit: nat)
  {
    forall i :: 0 <= i < |groups| ==> groups[i] != [] && (|groups[i]| > 1 ==> Weight(groups[i], weigh) <= limit)
  }

  /** A batch is closed only because the next item would not fit. */
  ghost predicate ClosedLate<T>(groups: seq<seq<T>>, weigh: T -> nat, limit: nat)
    requires Obeys(groups, weigh, limit)
  {
    forall i :: 0 <= i < |groups| - 1 ==> Weight(groups[i], weigh) + weigh(groups[i + 1][0]) > limit
  }

  lemma {:induction false} ConcatAppend<T>(groups: seq<seq<T>>, last: seq<T>)
    ensures Concat(groups + [last]) == Concat(groups) + last
  {
    if groups == [] {
      assert groups + [last] == [last];
      assert Concat([last]) == last + Concat([]);
    } else {
      ConcatAppend(groups[1..], last);
      assert (groups + [last])[1..] == groups[1..] + [last];
    }
  }

  lemma {:induction false} WeightAppend<T>(front: seq<T>, back: seq<T>, weigh: T -> nat)
    ensures Weight(front + back, weigh) == Weight(front, weigh) + Weight(back, weigh)
  {
    if front == [] {
      assert front + back == back;
    } else {
      WeightAppend(front[1..], back, weigh);
      assert (front + back)[1..] == front[1..] + back;
    }
  }

  lemma WeightSnoc<T>(items: seq<T>, last: T, weigh: T -> nat)
    ensures Weight(items + [last], weigh) == Weight(items, weigh) + weigh(last)
  {
    WeightAppend(items, [last], weigh);
    assert Weight([last], weigh) == weigh(last) + Weight([], weigh);
  }

  /** A contiguous part weighs no more than the whole. */
  lemma PartWeighsLess<T>(before: seq<T>, part: seq<T>, after: seq<T>, weigh: T -> nat)
    ensures Weight(part, weigh) <= Weight(before + part + after, weigh)
  {
    WeightAppend(before + part, after, weigh);
    WeightAppend(before, part, weigh);
  }

  /** Greedy stays ahead: if what is left for `greedy` is a suffix of what is left for `other`, it needs no more
      batches. */
  lemma {:induction false} GreedyStaysAhead<T>(
      skipped: seq<T>, greedy: seq<seq<T>>, other: seq<seq<T>>, weigh: T -> nat, limit: nat)
    requires Concat(other) == skipped + Concat(greedy)
    requires Obeys(greedy, weigh, limit) && ClosedLate(greedy, weigh, limit)
    requires Obeys(other, weigh, limit)
    ensures |greedy| <= |other|
    decreases |other|
  {
    if greedy != [] {
      assert Concat(greedy) == greedy[0] + Concat(greedy[1..]);
      assert other != [];
      var mine, theirs := greedy[0], other[0];
      var left, theirLeft := Concat(greedy[1..]), Concat(other[1..]);
      assert theirs + theirLeft == skipped + mine + left;
      if |theirLeft| < |left| {
        // Their first batch would contain ours and the item that did not fit.
        assert |greedy| > 1;
        var next := greedy[1][0];
        assert left == greedy[1] + Concat(greedy[1..][1..]);
        assert left[0] == next;
        var grown := skipped + mine + [next];
        assert |grown| <= |theirs|;
        assert theirs[..|grown|] == (theirs + theirLeft)[..|grown|] == grown;
        assert theirs == skipped + (mine + [next]) + theirs[|grown|..];
        PartWeighsLess(skipped, mine + [next], theirs[|grown|..], weigh);
        WeightSnoc(mine, next, weigh);
        assert false;
      }
      var cut := |theirLeft| - |left|;
      assert theirLeft == (skipped + mine + left)[|theirs|..];
      assert theirLeft[cut..] == left;
      assert theirLeft == theirLeft[..cut] + left;
      GreedyStaysAhead(theirLeft[..cut], greedy[1..], other[1..], weigh, limit);
    }
  }

  /** One more batch keeps the rule and the greedy shape when it obeys the rule itself and did not fit before. */
  lemma AppendKeepsRule<T>(groups: seq<seq<T>>, last: seq<T>, weigh: T -> nat, limit: nat)
    requires Obeys(groups, weigh, limit) && ClosedLate(groups, weigh, limit)
    requires last != [] && (|last| > 1 ==> Weight(last, weigh) <= limit)
    requires groups != [] ==> Weight(groups[|groups| - 1], weigh) + weigh(last[0]) > limit
    ensures Concat(groups + [last]) == Concat(groups) + last
    ensures Obeys(groups + [last], weigh, limit) && ClosedLate(groups + [last], weigh, limit)
  {
    ConcatAppend(groups, last);
  }

  /** No order-preserving grouping of the same items that obeys the rule has fewer batches. */
  lemma GreedyIsOptimal<T>(greedy: seq<seq<T>>, other: seq<seq<T>>, weigh: T -> nat, limit: nat)
    requires Obeys(greedy, weigh, limit) && ClosedLate(greedy, weigh, limit)
    requires Obeys(other, weigh, limit)
    requires Concat(greedy) == Concat(other)
    ensures |greedy| <= |other|
  {
    assert Concat(other) == [] + Concat(greedy);
    GreedyStaysAhead([], greedy, other, weigh, limit);
  }
}
