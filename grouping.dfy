/** The records each aggregator of the grouping tree is meant to hold, and
    the counting facts that make the margins add up. */
module Grouping {
  import opened Values
  import opened Keys

  /** The four kinds of aggregator slot: a cell `tree[r][c]`, a row margin
      `rowTotals[r]`, a column margin `colTotals[c]`, and `allTotal`. */
  datatype Slot = Cell(row: string, col: string) | RowMargin(row: string) | ColMargin(col: string) | Grand

  /** A record with serialised keys (rk, ck) is pushed into slot s. */
  predicate Matches(s: Slot, rk: string, ck: string)
  {
    match s
    case Cell(r, c) => r == rk && c == ck
    case RowMargin(r) => r == rk
    case ColMargin(c) => c == ck
    case Grand => true
  }

  predicate MatchesRecord(s: Slot, x: Record, rows: seq<string>, cols: seq<string>)
  {
    Matches(s, KeyString(x, rows), KeyString(x, cols))
  }

  /** A record reaches exactly four slots: its cell, its two margins and the grand total. */
  lemma ExactlyFourSlots(s: Slot, rk: string, ck: string)
    ensures Matches(s, rk, ck) <==> s in {Cell(rk, ck), RowMargin(rk), ColMargin(ck), Grand}
  {
  }

  /** `input` with the records the filter rejects taken out, in order. */
  function Accepted(input: seq<Record>, filter: Record -> bool): (acc: seq<Record>)
    ensures |acc| <= |input|
  {
    if input == [] then []
    else
      var n := |input| - 1;
      Accepted(input[..n], filter) + (if filter(input[n]) then [input[n]] else [])
  }

  /** The accepted records an aggregator at slot s holds, in push order. */
  function Matching(acc: seq<Record>, rows: seq<string>, cols: seq<string>, s: Slot): (m: seq<Record>)
    ensures |m| <= |acc|
  {
    if acc == [] then []
    else
      var n := |acc| - 1;
      Matching(acc[..n], rows, cols, s) + (if MatchesRecord(s, acc[n], rows, cols) then [acc[n]] else [])
  }

  /** What the filter keeps is accepted input. */
  lemma {:induction false} AcceptedElements(input: seq<Record>, filter: Record -> bool)
    ensures forall i :: 0 <= i < |Accepted(input, filter)| ==> filter(Accepted(input, filter)[i]) && Accepted(input, filter)[i] in input
  {
    if input != [] {
      var n := |input| - 1;
      AcceptedElements(input[..n], filter);
      assert input == input[..n] + [input[n]];
      forall x | x in input[..n] ensures x in input {
        var j :| 0 <= j < n && input[..n][j] == x;
        assert input[j] == x;
      }
    }
  }

  /** A slot holds accepted records that belong to it. */
  lemma {:induction false} MatchingElements(acc: seq<Record>, rows: seq<string>, cols: seq<string>, s: Slot)
    ensures forall i :: 0 <= i < |Matching(acc, rows, cols, s)| ==>
      MatchesRecord(s, Matching(acc, rows, cols, s)[i], rows, cols) && Matching(acc, rows, cols, s)[i] in acc
  {
    if acc != [] {
      var n := |acc| - 1;
      MatchingElements(acc[..n], rows, cols, s);
      assert acc == acc[..n] + [acc[n]];
      forall x | x in acc[..n] ensures x in acc {
        var j :| 0 <= j < n && acc[..n][j] == x;
        assert acc[j] == x;
      }
    }
  }

  lemma MatchingAppend(acc: seq<Record>, x: Record, rows: seq<string>, cols: seq<string>, s: Slot)
    ensures Matching(acc + [x], rows, cols, s)
         == Matching(acc, rows, cols, s) + (if MatchesRecord(s, x, rows, cols) then [x] else [])
  {
    assert (acc + [x])[..|acc|] == acc;
  }

  lemma AcceptedAppend(input: seq<Record>, x: Record, filter: Record -> bool)
    ensures Accepted(input + [x], filter) == Accepted(input, filter) + (if filter(x) then [x] else [])
  {
    assert (input + [x])[..|input|] == input;
  }

  /** The grand total holds every accepted record. */
  lemma {:induction false} MatchingGrand(acc: seq<Record>, rows: seq<string>, cols: seq<string>)
    ensures Matching(acc, rows, cols, Grand) == acc
  {
    if acc != [] {
      var n := |acc| - 1;
      MatchingGrand(acc[..n], rows, cols);
      assert acc == acc[..n] + [acc[n]];
    }
  }

  /** Every accepted record is held by each slot it matches. */
  lemma {:induction false} MatchedRecordIsHeld(acc: seq<Record>, x: Record, rows: seq<string>, cols: seq<string>, s: Slot)
    requires x in acc && MatchesRecord(s, x, rows, cols)
    ensures x in Matching(acc, rows, cols, s)
  {
    var n := |acc| - 1;
    if acc[n] != x {
      assert x in acc[..n] by {
        assert acc == acc[..n] + [acc[n]];
      }
      MatchedRecordIsHeld(acc[..n], x, rows, cols, s);
    }
  }

  /** With an empty row-attribute list every record has row key "", so the
      cell ("", c) holds exactly what the column margin c holds; with a
      non-empty list no record has row key "". */
  lemma {:induction false} EmptyRowKey(acc: seq<Record>, rows: seq<string>, cols: seq<string>, c: string)
    ensures rows == [] ==> Matching(acc, rows, cols, Cell("", c)) == Matching(acc, rows, cols, ColMargin(c))
    ensures rows == [] ==> Matching(acc, rows, cols, RowMargin("")) == Matching(acc, rows, cols, Grand)
    ensures rows != [] ==> Matching(acc, rows, cols, Cell("", c)) == [] && Matching(acc, rows, cols, RowMargin("")) == []
  {
    if acc != [] {
      var n := |acc| - 1;
      EmptyRowKey(acc[..n], rows, cols, c);
      if rows != [] {
        KeyStringNonEmpty(acc[n], rows);
      }
    }
  }

  /** A family of slots indexed by one key, and the slot they subdivide:
      the cells of one row subdivide its row margin; the row margins and the
      column margins each subdivide the grand total. */
  datatype Family = CellsOfRow(r: string) | RowMargins | ColMargins

  function Member(f: Family, k: string): Slot
  {
    match f
    case CellsOfRow(r) => Cell(r, k)
    case RowMargins => RowMargin(k)
    case ColMargins => ColMargin(k)
  }

  function Parent(f: Family): Slot
  {
    match f
    case CellsOfRow(r) => RowMargin(r)
    case RowMargins => Grand
    case ColMargins => Grand
  }

  /** The key that picks a record's member of the family. */
  function Projection(f: Family, x: Record, rows: seq<string>, cols: seq<string>): string
  {
    if f.RowMargins? then KeyString(x, rows) else KeyString(x, cols)
  }

  predicate NoDuplicates(ks: seq<string>)
  {
    forall i, j :: 0 <= i < j < |ks| ==> ks[i] != ks[j]
  }

  lemma {:induction false} DistinctOccursOnce(ks: seq<string>, k: string)
    requires NoDuplicates(ks)
    ensures multiset(ks)[k] <= 1
  {
    if ks != [] {
      var n := |ks| - 1;
      assert ks == ks[..n] + [ks[n]];
      assert NoDuplicates(ks[..n]);
      DistinctOccursOnce(ks[..n], k);
      if ks[n] == k {
        assert k !in ks[..n];
      }
    }
  }

  lemma RepeatOccursTwice(ks: seq<string>, i: int, j: int)
    requires 0 <= i < j < |ks| && ks[i] == ks[j]
    ensures multiset(ks)[ks[i]] >= 2
  {
    assert ks == ks[..j] + ks[j..];
    assert ks[i] in ks[..j];
    assert ks[j] in ks[j..];
  }

  /** Reordering keeps a list free of duplicates. */
  lemma PermutationKeepsDistinct(a: seq<string>, b: seq<string>)
    requires NoDuplicates(a) && multiset(a) == multiset(b)
    ensures NoDuplicates(b)
  {
    forall i, j | 0 <= i < j < |b| ensures b[i] != b[j] {
      if b[i] == b[j] {
        RepeatOccursTwice(b, i, j);
        DistinctOccursOnce(a, b[i]);
      }
    }
  }

  function Occurrences(ks: seq<string>, k: string): nat
  {
    if ks == [] then 0 else (if ks[0] == k then 1 else 0) + Occurrences(ks[1..], k)
  }

  lemma {:induction false} OccurrencesOfDistinct(ks: seq<string>, k: string)
    requires NoDuplicates(ks)
    ensures Occurrences(ks, k) == if k in ks then 1 else 0
  {
    if ks != [] {
      OccurrencesOfDistinct(ks[1..], k);
      if ks[0] == k {
        assert k !in ks[1..] by {
          forall j | 0 <= j < |ks[1..]| ensures ks[1..][j] != k {
            assert ks[1..][j] == ks[j + 1];
          }
        }
      }
    }
  }

  /** The record counts of the family's members for the keys ks. */
  function SumCounts(acc: seq<Record>, rows: seq<string>, cols: seq<string>, f: Family, ks: seq<string>): nat
  {
    if ks == [] then 0
    else |Matching(acc, rows, cols, Member(f, ks[0]))| + SumCounts(acc, rows, cols, f, ks[1..])
  }

  lemma {:induction false} SumCountsAppend(acc: seq<Record>, x: Record, rows: seq<string>, cols: seq<string>, f: Family, ks: seq<string>)
    ensures SumCounts(acc + [x], rows, cols, f, ks)
         == SumCounts(acc, rows, cols, f, ks)
            + (if MatchesRecord(Parent(f), x, rows, cols) then Occurrences(ks, Projection(f, x, rows, cols)) else 0)
  {
    if ks != [] {
      SumCountsAppend(acc, x, rows, cols, f, ks[1..]);
      MatchingAppend(acc, x, rows, cols, Member(f, ks[0]));
    }
  }

  /** Counts add up: when ks lists each key of the family at most once and
      covers every record of the parent, the members' counts sum to the
      parent's count. */
  lemma {:induction false} Partition(acc: seq<Record>, rows: seq<string>, cols: seq<string>, f: Family, ks: seq<string>)
    requires NoDuplicates(ks)
    requires forall i :: 0 <= i < |acc| && MatchesRecord(Parent(f), acc[i], rows, cols) ==> Projection(f, acc[i], rows, cols) in ks
    ensures SumCounts(acc, rows, cols, f, ks) == |Matching(acc, rows, cols, Parent(f))|
  {
    if acc == [] {
      SumCountsEmpty(rows, cols, f, ks);
    } else {
      var n := |acc| - 1;
      var x := acc[n];
      assert acc == acc[..n] + [x];
      Partition(acc[..n], rows, cols, f, ks);
      SumCountsAppend(acc[..n], x, rows, cols, f, ks);
      MatchingAppend(acc[..n], x, rows, cols, Parent(f));
      OccurrencesOfDistinct(ks, Projection(f, x, rows, cols));
    }
  }

  lemma {:induction false} SumCountsEmpty(rows: seq<string>, cols: seq<string>, f: Family, ks: seq<string>)
    ensures SumCounts([], rows, cols, f, ks) == 0
  {
    if ks != [] {
      SumCountsEmpty(rows, cols, f, ks[1..]);
    }
  }
}
