/** The aggregator protocol (push / value / format) and its one built-in
    strategy, the count aggregator. */
module Aggregators {
  import opened Values

  /** The state of the object `countAggregator()` returns: the `count` its
      closure captures. Pushing yields the next state. */
  datatype CountAggregator = CountAggregator(count: nat)
  {
    /** `push()`: the count aggregator ignores the record it is given. */
    function Push(rec: Record): (next: CountAggregator)
      ensures next.Value() == Value() + 1
    {
      CountAggregator(count + 1)
    }

    /** `value()`: the number of records pushed so far. */
    function Value(): nat
    {
      count
    }

    /** `format(val)`: counts are displayed as they are. */
    function Format(v: nat): (shown: nat)
      ensures shown == v
    {
      v
    }
  }

  /** `countAggregator()`: a fresh aggregator, `count = 0`. */
  function NewCount(): (a: CountAggregator)
    ensures a.Value() == 0
  {
    CountAggregator(0)
  }

  /** The aggregator after pushing each of recs in turn. */
  function PushAll(a: CountAggregator, recs: seq<Record>): CountAggregator
  {
    if recs == [] then a else PushAll(a, recs[..|recs| - 1]).Push(recs[|recs| - 1])
  }

  /** A count aggregator's value is the number of records pushed into it. */
  lemma {:induction false} PushAllCounts(a: CountAggregator, recs: seq<Record>)
    ensures PushAll(a, recs).Value() == a.Value() + |recs|
  {
    if recs != [] {
      PushAllCounts(a, recs[..|recs| - 1]);
    }
  }

  /** What is pushed does not matter, only how many records are. */
  lemma {:induction false} PushAllIgnoresRecords(a: CountAggregator, xs: seq<Record>, ys: seq<Record>)
    requires |xs| == |ys|
    ensures PushAll(a, xs) == PushAll(a, ys)
  {
    PushAllCounts(a, xs);
    PushAllCounts(a, ys);
  }
}
