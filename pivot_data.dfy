/** `PivotData`: the grouping tree, its margins and grand total, built in one
    pass over the input, and the query interface the renderer uses. */
module Pivot {
  import opened Values
  import opened Keys
  import opened Aggregators
  import opened Grouping
  import opened Sorting

  datatype Option<T> = None | Some(value: T)

  /** The aggregator factories the engine knows: `countAggregator`. */
  datatype AggregatorFactory = CountFactory

  /** The option object passed to `new PivotData(input, opts)`; `None` is a
      missing property. */
  datatype Options = Options(
    cols: Option<seq<string>>,
    rows: Option<seq<string>>,
    aggregator: Option<AggregatorFactory>,
    filter: Option<Record -> bool>,
    rowOrder: Option<string>,
    colOrder: Option<string>)

  /** `opts.x || []` for an attribute list (an array is always truthy). */
  function AttrsOr(o: Option<seq<string>>): seq<string>
  {
    if o.Some? then o.value else []
  }

  /** `opts.x || "key_a_to_z"` for an ordering policy ("" is falsy). */
  function OrderOr(o: Option<string>): (order: string)
    ensures order != ""
    ensures o.Some? && o.value != "" ==> order == o.value
  {
    if o.Some? && o.value != "" then o.value else KeyAToZ
  }

  /** `opts.filter || (() => true)` */
  function FilterOr(o: Option<Record -> bool>): (f: Record -> bool)
    ensures o.Some? ==> f == o.value
    ensures o.None? ==> forall rec :: f(rec)
  {
    if o.Some? then o.value else (_ => true)
  }

  /** The slot `getAggregator(rowKeyStr, colKeyStr)` answers from: "" is
      falsy, so it counts as an absent key. */
  function Query(rowKeyStr: string, colKeyStr: string): (s: Slot)
    ensures rowKeyStr != "" && colKeyStr != "" <==> s == Cell(rowKeyStr, colKeyStr)
    ensures rowKeyStr != "" && colKeyStr == "" <==> s == RowMargin(rowKeyStr)
    ensures rowKeyStr == "" && colKeyStr != "" <==> s == ColMargin(colKeyStr)
    ensures rowKeyStr == "" && colKeyStr == "" <==> s == Grand
  {
    if rowKeyStr != "" && colKeyStr != "" then Cell(rowKeyStr, colKeyStr)
    else if rowKeyStr != "" then RowMargin(rowKeyStr)
    else if colKeyStr != "" then ColMargin(colKeyStr)
    else Grand
  }

  /** `m[k]`: the aggregator stored under k, if any. */
  function Find(m: map<string, CountAggregator>, k: string): Option<CountAggregator>
  {
    if k in m then Some(m[k]) else None
  }

  /** `agg || this.aggregator([])`: the aggregator found, or a fresh one. */
  function ValueOr(o: Option<CountAggregator>): (agg: CountAggregator)
    ensures o.Some? ==> agg == o.value
    ensures o.None? ==> agg.Value() == 0
  {
    if o.Some? then o.value else NewCount()
  }

  /** Lines 36-39 (and 41-44): create the margin if it is missing, then push. */
  function PushMargin(m: map<string, CountAggregator>, k: string, rec: Record): (m': map<string, CountAggregator>)
    ensures m'.Keys == m.Keys + {k}
  {
    m[k := ValueOr(Find(m, k)).Push(rec)]
  }

  /** Lines 28-34: create the row and the cell if they are missing, then push. */
  function PushCell(tree: map<string, map<string, CountAggregator>>, rk: string, ck: string, rec: Record): (tree': map<string, map<string, CountAggregator>>)
    ensures tree'.Keys == tree.Keys + {rk}
  {
    var row := if rk in tree then tree[rk] else map[];
    tree[rk := PushMargin(row, ck, rec)]
  }

  /** The aggregator a slot finds in the four stores, if any. */
  function Lookup(tree: map<string, map<string, CountAggregator>>, rowTotals: map<string, CountAggregator>,
                  colTotals: map<string, CountAggregator>, allTotal: CountAggregator, s: Slot): Option<CountAggregator>
  {
    match s
    case Cell(r, c) => if r in tree then Find(tree[r], c) else None
    case RowMargin(r) => Find(rowTotals, r)
    case ColMargin(c) => Find(colTotals, c)
    case Grand => Some(allTotal)
  }

  /** One accepted record with keys (rk, ck): exactly the four slots it
      belongs to receive one push (created first when missing); every other
      slot keeps what it had. */
  lemma LookupAfterPush(tree: map<string, map<string, CountAggregator>>, rowTotals: map<string, CountAggregator>,
                        colTotals: map<string, CountAggregator>, allTotal: CountAggregator,
                        rk: string, ck: string, rec: Record, s: Slot)
    ensures Lookup(PushCell(tree, rk, ck, rec), PushMargin(rowTotals, rk, rec), PushMargin(colTotals, ck, rec), allTotal.Push(rec), s)
         == if Matches(s, rk, ck) then Some(ValueOr(Lookup(tree, rowTotals, colTotals, allTotal, s)).Push(rec))
            else Lookup(tree, rowTotals, colTotals, allTotal, s)
  {
  }

  /** The invariant of the grouping tree: rows and row margins are created
      together; a slot exists exactly when it is the grand total or some
      accepted record belongs to it; and its count is the number of accepted
      records that belong to it. */
  ghost predicate Consistent(tree: map<string, map<string, CountAggregator>>, rowTotals: map<string, CountAggregator>,
                             colTotals: map<string, CountAggregator>, allTotal: CountAggregator,
                             acc: seq<Record>, rows: seq<string>, cols: seq<string>)
  {
    && tree.Keys == rowTotals.Keys
    && (forall s :: Lookup(tree, rowTotals, colTotals, allTotal, s).Some? <==> (s.Grand? || Matching(acc, rows, cols, s) != []))
    && (forall s :: ValueOr(Lookup(tree, rowTotals, colTotals, allTotal, s)).Value() == |Matching(acc, rows, cols, s)|)
  }

  /** The grand total counts every accepted record. */
  lemma ConsistentGrand(tree: map<string, map<string, CountAggregator>>, rowTotals: map<string, CountAggregator>,
                        colTotals: map<string, CountAggregator>, allTotal: CountAggregator,
                        acc: seq<Record>, rows: seq<string>, cols: seq<string>)
    requires Consistent(tree, rowTotals, colTotals, allTotal, acc, rows, cols)
    ensures allTotal.Value() == |acc|
  {
    assert ValueOr(Lookup(tree, rowTotals, colTotals, allTotal, Grand)).Value() == |Matching(acc, rows, cols, Grand)|;
    MatchingGrand(acc, rows, cols);
  }

  /** One slot under one push, its count: it goes up by one exactly when the
      record belongs to the slot, so a count that was the number of matching
      accepted records stays so with the record accepted. */
  lemma SlotCountAfterPush(tree: map<string, map<string, CountAggregator>>, rowTotals: map<string, CountAggregator>,
                           colTotals: map<string, CountAggregator>, allTotal: CountAggregator,
                           acc: seq<Record>, rows: seq<string>, cols: seq<string>, rec: Record, s: Slot)
    requires ValueOr(Lookup(tree, rowTotals, colTotals, allTotal, s)).Value() == |Matching(acc, rows, cols, s)|
    ensures var rk, ck := KeyString(rec, rows), KeyString(rec, cols);
      var after := Lookup(PushCell(tree, rk, ck, rec), PushMargin(rowTotals, rk, rec), PushMargin(colTotals, ck, rec), allTotal.Push(rec), s);
      && ValueOr(after).Value() == |Matching(acc + [rec], rows, cols, s)|
      && ValueOr(after).Value() == ValueOr(Lookup(tree, rowTotals, colTotals, allTotal, s)).Value() + (if MatchesRecord(s, rec, rows, cols) then 1 else 0)
  {
    var rk, ck := KeyString(rec, rows), KeyString(rec, cols);
    var before := Lookup(tree, rowTotals, colTotals, allTotal, s);
    var after := Lookup(PushCell(tree, rk, ck, rec), PushMargin(rowTotals, rk, rec), PushMargin(colTotals, ck, rec), allTotal.Push(rec), s);
    var m := Matching(acc, rows, cols, s);
    MatchingAppend(acc, rec, rows, cols, s);
    LookupAfterPush(tree, rowTotals, colTotals, allTotal, rk, ck, rec, s);
    if MatchesRecord(s, rec, rows, cols) {
      assert ValueOr(after).Value() == ValueOr(before).Value() + 1;
      assert |Matching(acc + [rec], rows, cols, s)| == |m| + 1;
    } else {
      assert after == before;
      assert Matching(acc + [rec], rows, cols, s) == m;
    }
  }

  /** One slot under one push, its existence: it exists afterwards exactly
      when it is the grand total or some record accepted so far, the new one
      included, belongs to it; no slot is removed. */
  lemma SlotPresenceAfterPush(tree: map<string, map<string, CountAggregator>>, rowTotals: map<string, CountAggregator>,
                              colTotals: map<string, CountAggregator>, allTotal: CountAggregator,
                              acc: seq<Record>, rows: seq<string>, cols: seq<string>, rec: Record, s: Slot)
    requires Lookup(tree, rowTotals, colTotals, allTotal, s).Some? <==> (s.Grand? || Matching(acc, rows, cols, s) != [])
    ensures var rk, ck := KeyString(rec, rows), KeyString(rec, cols);
      var before := Lookup(tree, rowTotals, colTotals, allTotal, s);
      var after := Lookup(PushCell(tree, rk, ck, rec), PushMargin(rowTotals, rk, rec), PushMargin(colTotals, ck, rec), allTotal.Push(rec), s);
      && (after.Some? <==> (s.Grand? || Matching(acc + [rec], rows, cols, s) != []))
      && (before.Some? ==> after.Some?)
  {
    var rk, ck := KeyString(rec, rows), KeyString(rec, cols);
    MatchingAppend(acc, rec, rows, cols, s);
    LookupAfterPush(tree, rowTotals, colTotals, allTotal, rk, ck, rec, s);
  }

  /** Pushing one accepted record into its four slots keeps the stores
      consistent with the accepted records, adds one to exactly the slots the
      record belongs to, and removes no slot. */
  lemma ConsistentAfterPush(tree: map<string, map<string, CountAggregator>>, rowTotals: map<string, CountAggregator>,
                            colTotals: map<string, CountAggregator>, allTotal: CountAggregator,
                            acc: seq<Record>, rows: seq<string>, cols: seq<string>, rec: Record)
    requires Consistent(tree, rowTotals, colTotals, allTotal, acc, rows, cols)
    ensures var rk, ck := KeyString(rec, rows), KeyString(rec, cols);
      Consistent(PushCell(tree, rk, ck, rec), PushMargin(rowTotals, rk, rec), PushMargin(colTotals, ck, rec), allTotal.Push(rec),
                 acc + [rec], rows, cols)
    ensures var rk, ck := KeyString(rec, rows), KeyString(rec, cols);
      forall s :: ValueOr(Lookup(PushCell(tree, rk, ck, rec), PushMargin(rowTotals, rk, rec), PushMargin(colTotals, ck, rec), allTotal.Push(rec), s)).Value()
               == ValueOr(Lookup(tree, rowTotals, colTotals, allTotal, s)).Value() + (if MatchesRecord(s, rec, rows, cols) then 1 else 0)
    ensures var rk, ck := KeyString(rec, rows), KeyString(rec, cols);
      forall s :: Lookup(tree, rowTotals, colTotals, allTotal, s).Some? ==>
        Lookup(PushCell(tree, rk, ck, rec), PushMargin(rowTotals, rk, rec), PushMargin(colTotals, ck, rec), allTotal.Push(rec), s).Some?
  {
    var rk, ck := KeyString(rec, rows), KeyString(rec, cols);
    var tree', rowTotals', colTotals', allTotal' := PushCell(tree, rk, ck, rec), PushMargin(rowTotals, rk, rec), PushMargin(colTotals, ck, rec), allTotal.Push(rec);
    forall s
      ensures Lookup(tree', rowTotals', colTotals', allTotal', s).Some? <==> (s.Grand? || Matching(acc + [rec], rows, cols, s) != [])
      ensures ValueOr(Lookup(tree', rowTotals', colTotals', allTotal', s)).Value() == |Matching(acc + [rec], rows, cols, s)|
      ensures ValueOr(Lookup(tree', rowTotals', colTotals', allTotal', s)).Value()
           == ValueOr(Lookup(tree, rowTotals, colTotals, allTotal, s)).Value() + (if MatchesRecord(s, rec, rows, cols) then 1 else 0)
      ensures Lookup(tree, rowTotals, colTotals, allTotal, s).Some? ==> Lookup(tree', rowTotals', colTotals', allTotal', s).Some?
    {
      SlotCountAfterPush(tree, rowTotals, colTotals, allTotal, acc, rows, cols, rec, s);
      SlotPresenceAfterPush(tree, rowTotals, colTotals, allTotal, acc, rows, cols, rec, s);
    }
  }

  /** The sum of the values stored under the keys ks (0 for a missing key). */
  function SumOf(m: map<string, CountAggregator>, ks: seq<string>): nat
  {
    if ks == [] then 0
    else (if ks[0] in m then m[ks[0]].Value() else 0) + SumOf(m, ks[1..])
  }

  /** `Object.keys(m)`: every key of m exactly once, in an order the model
      leaves open. */
  method ObjectKeys(m: map<string, CountAggregator>) returns (keys: array<string>)
    ensures fresh(keys)
    ensures NoDuplicates(keys[..])
    ensures forall k :: k in keys[..] <==> k in m
  {
    var rest := m.Keys;
    var listed: seq<string> := [];
    while rest != {}
      invariant forall k :: k in m <==> k in rest || k in listed
      invariant forall k :: k in listed ==> k !in rest
      invariant NoDuplicates(listed)
      decreases |rest|
    {
      var k :| k in rest;
      listed := listed + [k];
      rest := rest - {k};
    }
    keys := new string[|listed|](i requires 0 <= i < |listed| => listed[i]);
    assert keys[..] == listed;
  }

  class PivotData {
    const cols: seq<string>
    const rows: seq<string>
    const filter: Record -> bool
    const rowOrder: string
    const colOrder: string
    var tree: map<string, map<string, CountAggregator>>
    var rowTotals: map<string, CountAggregator>
    var colTotals: map<string, CountAggregator>
    var allTotal: CountAggregator

    /** The records accepted by the filter so far, in input order. */
    ghost var accepted: seq<Record>

    /** The aggregator stored for a slot, if any. */
    ghost function Stored(s: Slot): Option<CountAggregator>
      reads this`tree, this`rowTotals, this`colTotals, this`allTotal
    {
      Lookup(tree, rowTotals, colTotals, allTotal, s)
    }

    /** The value of a slot's aggregator, 0 for a slot never created. */
    ghost function Count(s: Slot): nat
      reads this`tree, this`rowTotals, this`colTotals, this`allTotal
    {
      ValueOr(Stored(s)).Value()
    }

    /** The accepted records that belong to a slot. */
    ghost function Holds(s: Slot): seq<Record>
      reads this`accepted
    {
      Matching(accepted, rows, cols, s)
    }

    /** The object invariant: a slot is stored exactly when some accepted
        record belongs to it (the grand total always is), every aggregator
        has counted exactly the accepted records of its slot, and the tree
        has a row exactly where a row margin exists. */
    ghost predicate Valid()
      reads this
    {
      Consistent(tree, rowTotals, colTotals, allTotal, accepted, rows, cols)
    }

    /** `new PivotData(input, opts)`: reads the options and ingests the input.
        The grand total is created with `opts.aggregator([])`, which fails
        when no factory is given. */
    constructor (input: seq<Record>, opts: Options)
      requires opts.aggregator.Some?
      ensures Valid()
      ensures cols == AttrsOr(opts.cols) && rows == AttrsOr(opts.rows)
      ensures filter == FilterOr(opts.filter)
      ensures rowOrder == OrderOr(opts.rowOrder) && colOrder == OrderOr(opts.colOrder)
      ensures accepted == Accepted(input, filter)
      ensures allTotal.Value() == |Accepted(input, filter)|
    {
      cols := AttrsOr(opts.cols);
      rows := AttrsOr(opts.rows);
      filter := FilterOr(opts.filter);
      rowOrder := OrderOr(opts.rowOrder);
      colOrder := OrderOr(opts.colOrder);
      tree := map[];
      rowTotals := map[];
      colTotals := map[];
      allTotal := NewCount();
      accepted := [];
      new;
      ProcessData(input);
      GrandTotalCountsAccepted();
    }

    /** `processData(input)`: one ingestion step per record, in order. */
    method ProcessData(input: seq<Record>)
      requires Valid()
      modifies this
      ensures Valid()
      ensures accepted == old(accepted) + Accepted(input, filter)
    {
      var i := 0;
      while i < |input|
        invariant 0 <= i <= |input|
        invariant Valid()
        invariant accepted == old(accepted) + Accepted(input[..i], filter)
      {
        Ingest(input[i]);
        AcceptedAppend(input[..i], input[i], filter);
        assert input[..i + 1] == input[..i] + [input[i]];
        i := i + 1;
      }
      assert input[..i] == input;
    }

    /** The body of the `forEach` callback: a rejected record changes
        nothing; an accepted one creates the missing slots and is counted
        once by its cell, its row margin, its column margin and the grand
        total, and by no other aggregator. Slots are never removed. */
    method Ingest(rec: Record)
      requires Valid()
      modifies this
      ensures Valid()
      ensures accepted == old(accepted) + (if filter(rec) then [rec] else [])
      ensures forall s :: Count(s) == old(Count(s)) + (if filter(rec) && MatchesRecord(s, rec, rows, cols) then 1 else 0)
      ensures forall s :: old(Stored(s)).Some? ==> Stored(s).Some?
      ensures !filter(rec) ==>
        tree == old(tree) && rowTotals == old(rowTotals) && colTotals == old(colTotals) && allTotal == old(allTotal)
    {
      if filter(rec) {
        var colKeyStr := KeyString(rec, cols);
        var rowKeyStr := KeyString(rec, rows);
        ConsistentAfterPush(tree, rowTotals, colTotals, allTotal, accepted, rows, cols, rec);
        tree, rowTotals, colTotals, allTotal :=
          PushCell(tree, rowKeyStr, colKeyStr, rec), PushMargin(rowTotals, rowKeyStr, rec),
          PushMargin(colTotals, colKeyStr, rec), allTotal.Push(rec);
        accepted := accepted + [rec];
      }
    }

    /** `getAggregator(rowKeyStr, colKeyStr)`: the aggregator of the queried
        slot, or a fresh empty one when that slot was never populated (the
        grand total is always there). */
    function GetAggregator(rowKeyStr: string, colKeyStr: string): (agg: CountAggregator)
      reads this
      ensures Stored(Query(rowKeyStr, colKeyStr)).Some? ==> agg == Stored(Query(rowKeyStr, colKeyStr)).value
      ensures Stored(Query(rowKeyStr, colKeyStr)).None? ==> agg == NewCount()
      ensures Valid() ==> agg.Value() == |Holds(Query(rowKeyStr, colKeyStr))|
    {
      if rowKeyStr != "" && colKeyStr != "" then
        ValueOr(if rowKeyStr in tree then Find(tree[rowKeyStr], colKeyStr) else None)
      else if rowKeyStr != "" then
        ValueOr(Find(rowTotals, rowKeyStr))
      else if colKeyStr != "" then
        ValueOr(Find(colTotals, colKeyStr))
      else
        allTotal
    }

    /** `getRowKeys()`: the keys of `rowTotals`, each once, sorted by
        `sortKeys` under the row policy. */
    method GetRowKeys() returns (keys: array<string>)
      ensures fresh(keys)
      ensures NoDuplicates(keys[..]) && forall k :: k in keys[..] <==> k in rowTotals
      ensures rowOrder == ValueZToA ==> SortedDescending(keys[..])
      ensures rowOrder != ValueZToA ==> Sorted(keys[..])
    {
      keys := ObjectKeys(rowTotals);
      ghost var listed := keys[..];
      SortedKeys(keys, rowOrder);
      assert forall k :: k in keys[..] <==> k in multiset(listed);
    }

    /** `getColKeys()`: the keys of `colTotals`, each once, sorted by
        `sortKeys` under the column policy. */
    method GetColKeys() returns (keys: array<string>)
      ensures fresh(keys)
      ensures NoDuplicates(keys[..]) && forall k :: k in keys[..] <==> k in colTotals
      ensures colOrder == ValueZToA ==> SortedDescending(keys[..])
      ensures colOrder != ValueZToA ==> Sorted(keys[..])
    {
      keys := ObjectKeys(colTotals);
      ghost var listed := keys[..];
      SortedKeys(keys, colOrder);
      assert forall k :: k in keys[..] <==> k in multiset(listed);
    }

    /** The grand total has counted every accepted record. */
    lemma GrandTotalCountsAccepted()
      requires Valid()
      ensures allTotal.Value() == |accepted|
    {
      ConsistentGrand(tree, rowTotals, colTotals, allTotal, accepted, rows, cols);
    }

    /** A cell or margin exists exactly when some accepted record belongs to it. */
    lemma {:induction false} StoredIffSomeRecord(s: Slot)
      requires Valid() && !s.Grand?
      ensures Stored(s).Some? <==> exists i :: 0 <= i < |accepted| && MatchesRecord(s, accepted[i], rows, cols)
    {
      if Stored(s).Some? {
        var m := Holds(s);
        assert m != [];
        MatchingElements(accepted, rows, cols, s);
        assert MatchesRecord(s, m[0], rows, cols) && m[0] in accepted;
        var i :| 0 <= i < |accepted| && accepted[i] == m[0];
      }
      if i :| 0 <= i < |accepted| && MatchesRecord(s, accepted[i], rows, cols) {
        MatchedRecordIsHeld(accepted, accepted[i], rows, cols, s);
      }
    }

    /** The domain of `rowTotals`, which is also the domain of `tree`, is the
        set of row keys of the accepted records. */
    lemma RowKeysAreRecordKeys(k: string)
      requires Valid()
      ensures k in rowTotals <==> exists i :: 0 <= i < |accepted| && KeyString(accepted[i], rows) == k
      ensures k in tree <==> k in rowTotals
    {
      StoredIffSomeRecord(RowMargin(k));
    }

    /** The domain of `colTotals` is the set of column keys of the accepted records. */
    lemma ColKeysAreRecordKeys(k: string)
      requires Valid()
      ensures k in colTotals <==> exists i :: 0 <= i < |accepted| && KeyString(accepted[i], cols) == k
    {
      StoredIffSomeRecord(ColMargin(k));
    }

    /** The map holding a family's members: one row of the tree, or a margin map. */
    ghost function Members(f: Family): map<string, CountAggregator>
      reads this
    {
      match f
      case CellsOfRow(r) => if r in tree then tree[r] else map[]
      case RowMargins => rowTotals
      case ColMargins => colTotals
    }

    lemma {:induction false} SumOfIsSumCounts(f: Family, ks: seq<string>)
      requires Valid()
      ensures SumOf(Members(f), ks) == SumCounts(accepted, rows, cols, f, ks)
    {
      if ks != [] {
        SumOfIsSumCounts(f, ks[1..]);
        assert Count(Member(f, ks[0])) == |Holds(Member(f, ks[0]))|;
      }
    }

    /** Counts add up: summing a family's values over a list that names each
        of its keys once gives the value of the slot the family subdivides. */
    lemma MembersAddUp(f: Family, ks: seq<string>)
      requires Valid() && NoDuplicates(ks)
      requires forall k :: k in Members(f) ==> k in ks
      ensures SumOf(Members(f), ks) == Count(Parent(f))
    {
      SumOfIsSumCounts(f, ks);
      forall i | 0 <= i < |accepted| && MatchesRecord(Parent(f), accepted[i], rows, cols)
        ensures Projection(f, accepted[i], rows, cols) in ks
      {
        var k := Projection(f, accepted[i], rows, cols);
        assert MatchesRecord(Member(f, k), accepted[i], rows, cols);
        MatchedRecordIsHeld(accepted, accepted[i], rows, cols, Member(f, k));
        assert Stored(Member(f, k)).Some?;
      }
      Partition(accepted, rows, cols, f, ks);
      assert Count(Parent(f)) == |Holds(Parent(f))|;
    }

    /** For each row, the cells of `tree[r]` sum to `rowTotals[r]`. */
    lemma CellsAddUpToRowTotal(r: string, ks: seq<string>)
      requires Valid() && r in rowTotals && NoDuplicates(ks)
      requires forall c :: c in tree[r] ==> c in ks
      ensures SumOf(tree[r], ks) == rowTotals[r].Value()
    {
      MembersAddUp(CellsOfRow(r), ks);
    }

    /** The row margins sum to the grand total. */
    lemma RowTotalsAddUp(ks: seq<string>)
      requires Valid() && NoDuplicates(ks)
      requires forall r :: r in rowTotals ==> r in ks
      ensures SumOf(rowTotals, ks) == allTotal.Value()
    {
      MembersAddUp(RowMargins, ks);
    }

    /** The column margins sum to the grand total. */
    lemma ColTotalsAddUp(ks: seq<string>)
      requires Valid() && NoDuplicates(ks)
      requires forall c :: c in colTotals ==> c in ks
      ensures SumOf(colTotals, ks) == allTotal.Value()
    {
      MembersAddUp(ColMargins, ks);
    }
  }

  /** `sortKeys(keys, order)` on the array `Object.keys` produced: the keys
      stay distinct, and end up ordered by the policy. */
  method SortedKeys(keys: array<string>, order: string)
    requires NoDuplicates(keys[..])
    modifies keys
    ensures NoDuplicates(keys[..]) && multiset(keys[..]) == multiset(old(keys[..]))
    ensures order == ValueZToA ==> SortedDescending(keys[..])
    ensures order != ValueZToA ==> Sorted(keys[..])
  {
    ghost var before := keys[..];
    ghost var ascending := SortKeys(keys, order);
    if order == ValueZToA {
      ReverseOfSorted(ascending);
    }
    PermutationKeepsDistinct(before, keys[..]);
  }
}
