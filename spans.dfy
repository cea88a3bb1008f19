/** `spanSize(arr, i, j)`: how many header cells the label of row i at depth
    j spans. `arr` is the ordered list of split keys; two rows "agree up to j"
    when their components 0..j are the same. A row that agrees with the row
    before it continues that row's label (-1, nothing is drawn); otherwise
    the label spans the run of rows that agree with it. */
module Spans {

  /** `arr[i][x]`: a component, or `undefined` past the end of the row. */
  datatype Label = Defined(s: string) | Undefined

  function LabelAt(row: seq<string>, x: int): Label
  {
    if 0 <= x < |row| then Defined(row[x]) else Undefined
  }

  /** `arr[u][x] === arr[v][x]` for every x in 0..j. */
  predicate Agree(u: seq<string>, v: seq<string>, j: int)
  {
    forall x :: 0 <= x <= j ==> LabelAt(u, x) == LabelAt(v, x)
  }

  lemma AgreeTransitive(u: seq<string>, v: seq<string>, w: seq<string>, j: int)
    requires Agree(u, v, j) && Agree(v, w, j)
    ensures Agree(u, w, j)
  {
  }

  /** The length of the run of rows from i that agree with row i, given that
      the first len of them do. */
  function RunFrom(arr: seq<seq<string>>, i: int, j: int, len: nat): (n: nat)
    requires 0 <= i && 1 <= len && i + len <= |arr|
    decreases |arr| - i - len
  {
    if i + len < |arr| && Agree(arr[i], arr[i + len], j) then RunFrom(arr, i, j, len + 1) else len
  }

  /** The span of row i at depth j. */
  function Span(arr: seq<seq<string>>, i: int, j: int): int
    requires 0 <= i < |arr|
  {
    if i != 0 && Agree(arr[i - 1], arr[i], j) then -1 else RunFrom(arr, i, j, 1)
  }

  /** The loops of lines 102-128: first whether the row continues the one
      before it, then how far the rows agreeing with it extend. */
  method SpanSize(arr: seq<seq<string>>, i: int, j: int) returns (r: int)
    requires 0 <= i < |arr|
    ensures r == Span(arr, i, j)
  {
    if i != 0 {
      var noDraw := true;
      var x := 0;
      while x <= j
        invariant 0 <= x && (j >= 0 ==> x <= j + 1)
        invariant noDraw <==> forall y :: 0 <= y < x ==> LabelAt(arr[i - 1], y) == LabelAt(arr[i], y)
      {
        if LabelAt(arr[i - 1], x) != LabelAt(arr[i], x) {
          noDraw := false;
          break;
        }
        x := x + 1;
      }
      if noDraw {
        return -1;
      }
    }
    var len := 1;
    while i + len < |arr|
      invariant 1 <= len && i + len <= |arr|
      invariant RunFrom(arr, i, j, len) == RunFrom(arr, i, j, 1)
      decreases |arr| - i - len
    {
      var stop := false;
      var x := 0;
      while x <= j
        invariant 0 <= x && (j >= 0 ==> x <= j + 1)
        invariant stop <==> !forall y :: 0 <= y < x ==> LabelAt(arr[i], y) == LabelAt(arr[i + len], y)
      {
        if LabelAt(arr[i], x) != LabelAt(arr[i + len], x) {
          stop := true;
          break;
        }
        x := x + 1;
      }
      if stop {
        break;
      }
      len := len + 1;
    }
    return len;
  }

  /** The run from i reaches at least as far as len, stays inside the table,
      agrees with row i throughout and ends at a row that disagrees. */
  lemma {:induction false} RunFromCharacterized(arr: seq<seq<string>>, i: int, j: int, len: nat)
    requires 0 <= i && 1 <= len && i + len <= |arr|
    requires forall k :: i <= k < i + len ==> Agree(arr[i], arr[k], j)
    ensures len <= RunFrom(arr, i, j, len) && i + RunFrom(arr, i, j, len) <= |arr|
    ensures forall k :: i <= k < i + RunFrom(arr, i, j, len) ==> Agree(arr[i], arr[k], j)
    ensures i + RunFrom(arr, i, j, len) < |arr| ==> !Agree(arr[i], arr[i + RunFrom(arr, i, j, len)], j)
    decreases |arr| - i - len
  {
    if i + len < |arr| && Agree(arr[i], arr[i + len], j) {
      RunFromCharacterized(arr, i, j, len + 1);
    }
  }

  /** -1 exactly for a row that repeats the previous row's labels 0..j;
      otherwise a run of at least one row, inside the table, whose rows all
      agree with row i, followed by a row that does not (or the end). */
  lemma SpanCharacterized(arr: seq<seq<string>>, i: int, j: int)
    requires 0 <= i < |arr|
    ensures Span(arr, i, j) == -1 <==> i > 0 && Agree(arr[i - 1], arr[i], j)
    ensures Span(arr, i, j) != -1 ==>
      var len := Span(arr, i, j);
      && 1 <= len && i + len <= |arr|
      && (forall k :: i <= k < i + len ==> Agree(arr[i], arr[k], j))
      && (i + len < |arr| ==> !Agree(arr[i], arr[i + len], j))
  {
    RunFromCharacterized(arr, i, j, 1);
  }

  /** Row k repeats the labels 0..j of the row before it. */
  predicate Continues(arr: seq<seq<string>>, j: int, k: int)
  {
    0 < k < |arr| && Agree(arr[k - 1], arr[k], j)
  }

  /** The sum of the non-negative spans of rows a.. at depth j. */
  function SpanTotal(arr: seq<seq<string>>, j: int, a: nat): nat
    decreases |arr| - a
  {
    if a >= |arr| then 0
    else (if Span(arr, a, j) >= 0 then Span(arr, a, j) else 0) + SpanTotal(arr, j, a + 1)
  }

  /** Rows that continue their predecessor add nothing to the total. */
  lemma {:induction false} ContinuationsAddNothing(arr: seq<seq<string>>, j: int, a: nat, b: nat)
    requires a <= b <= |arr|
    requires forall k :: a <= k < b ==> Continues(arr, j, k)
    ensures SpanTotal(arr, j, a) == SpanTotal(arr, j, b)
    decreases b - a
  {
    if a < b {
      assert Continues(arr, j, a);
      ContinuationsAddNothing(arr, j, a + 1, b);
    }
  }

  /** From a row that starts a label, the spans that follow cover the rest
      of the table exactly once. */
  lemma {:induction false} SpansTileFrom(arr: seq<seq<string>>, j: int, i: nat)
    requires i < |arr| && Span(arr, i, j) != -1
    ensures SpanTotal(arr, j, i) == |arr| - i
    decreases |arr| - i
  {
    SpanCharacterized(arr, i, j);
    var len := Span(arr, i, j);
    forall k | i + 1 <= k < i + len
      ensures Continues(arr, j, k)
    {
      assert Agree(arr[i], arr[k - 1], j) && Agree(arr[i], arr[k], j);
    }
    ContinuationsAddNothing(arr, j, i + 1, i + len);
    if i + len < |arr| {
      var n := i + len;
      assert !Agree(arr[n - 1], arr[n], j) by {
        if Agree(arr[n - 1], arr[n], j) {
          AgreeTransitive(arr[i], arr[n - 1], arr[n], j);
        }
      }
      SpanCharacterized(arr, n, j);
      SpansTileFrom(arr, j, n);
    }
  }

  /** The labels at any depth tile the table: the non-negative spans sum to
      the number of rows. */
  lemma SpansTile(arr: seq<seq<string>>, j: int)
    ensures SpanTotal(arr, j, 0) == |arr|
  {
    if |arr| > 0 {
      SpanCharacterized(arr, 0, j);
      SpansTileFrom(arr, j, 0);
    }
  }

  /** Three sorted keys: "a" spans two rows at depth 0 and its second row is a
      continuation; at depth 1 every row is its own label. */
  lemma SampleSpans()
    ensures var arr := [["a", "x"], ["a", "y"], ["b", "y"]];
      && Span(arr, 0, 0) == 2 && Span(arr, 1, 0) == -1 && Span(arr, 2, 0) == 1
      && Span(arr, 0, 1) == 1 && Span(arr, 1, 1) == 1 && Span(arr, 2, 1) == 1
  {
    var arr := [["a", "x"], ["a", "y"], ["b", "y"]];
    assert LabelAt(arr[0], 0) != LabelAt(arr[2], 0);
    assert LabelAt(arr[0], 1) != LabelAt(arr[1], 1);
    assert LabelAt(arr[1], 0) != LabelAt(arr[2], 0);
    assert Agree(arr[0], arr[1], 0) by {
      forall x | 0 <= x <= 0 ensures LabelAt(arr[0], x) == LabelAt(arr[1], x) {
        assert x == 0;
      }
    }
  }
}
