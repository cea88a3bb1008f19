/** The two filters around the engine: the renderer's key filter, which drops
    header keys with nothing to show, and the record filter that the
    interface applies to the input before building a new `PivotData`. */
module Filters {
  import opened Values
  import opened Keys

  /** The characters `String.prototype.trim` removes: the ECMAScript
      WhiteSpace and LineTerminator code points. */
  predicate IsSpace(c: char)
  {
    || ('\U{9}' <= c <= '\U{D}')
    || c == '\U{20}' || c == '\U{A0}' || c == '\U{1680}'
    || ('\U{2000}' <= c <= '\U{200A}')
    || c == '\U{2028}' || c == '\U{2029}' || c == '\U{202F}' || c == '\U{205F}' || c == '\U{3000}' || c == '\U{FEFF}'
  }

  /** Every character is white space (the empty string included). */
  predicate Blank(s: string)
  {
    forall k :: 0 <= k < |s| ==> IsSpace(s[k])
  }

  /** Leading white space removed. */
  function TrimStart(s: string): (t: string)
    ensures |t| <= |s|
  {
    if s != [] && IsSpace(s[0]) then TrimStart(s[1..]) else s
  }

  /** Trailing white space removed. */
  function TrimEnd(s: string): (t: string)
    ensures |t| <= |s|
  {
    if s != [] && IsSpace(s[|s| - 1]) then TrimEnd(s[..|s| - 1]) else s
  }

  /** `s.trim()` */
  function Trim(s: string): string
  {
    TrimEnd(TrimStart(s))
  }

  /** TrimStart removes a blank prefix and stops at a character that is not
      white space. */
  lemma {:induction false} TrimStartRemovesBlankPrefix(s: string)
    ensures TrimStart(s) == s[|s| - |TrimStart(s)|..]
    ensures Blank(s[..|s| - |TrimStart(s)|])
    ensures TrimStart(s) != [] ==> !IsSpace(TrimStart(s)[0])
  {
    if s != [] && IsSpace(s[0]) {
      var t := TrimStart(s[1..]);
      TrimStartRemovesBlankPrefix(s[1..]);
      assert s[..|s| - |t|] == [s[0]] + s[1..][..|s[1..]| - |t|];
    }
  }

  /** TrimEnd removes a blank suffix and stops at a character that is not
      white space. */
  lemma {:induction false} TrimEndRemovesBlankSuffix(s: string)
    ensures TrimEnd(s) == s[..|TrimEnd(s)|]
    ensures Blank(s[|TrimEnd(s)|..])
    ensures TrimEnd(s) != [] ==> !IsSpace(TrimEnd(s)[|TrimEnd(s)| - 1])
  {
    if s != [] && IsSpace(s[|s| - 1]) {
      var t := TrimEnd(s[..|s| - 1]);
      TrimEndRemovesBlankSuffix(s[..|s| - 1]);
      assert s[|t|..] == s[..|s| - 1][|t|..] + [s[|s| - 1]];
    }
  }

  /** Trimming leaves nothing exactly when the string is blank. */
  lemma TrimEmptyIffBlank(s: string)
    ensures Trim(s) == "" <==> Blank(s)
  {
    var u := TrimStart(s);
    TrimStartRemovesBlankPrefix(s);
    TrimEndRemovesBlankSuffix(u);
    if Trim(s) == "" {
      assert Blank(u) by {
        assert u[0..] == u;
      }
      assert s[..|s| - |u|] == s;
    }
  }

  /** `v !== 'null' && v.trim() !== ''`: a component worth a header label. */
  predicate Visible(v: string)
  {
    v != "null" && Trim(v) != ""
  }

  /** `row.some(v => v !== 'null' && v.trim() !== '')` (line 147). */
  function KeepKey(parts: seq<string>): (keep: bool)
    ensures keep <==> exists i :: 0 <= i < |parts| && Visible(parts[i])
  {
    if parts == [] then false
    else if Visible(parts[0]) then true
    else
      var rest := KeepKey(parts[1..]);
      assert forall i :: 1 <= i < |parts| ==> parts[i] == parts[1..][i - 1];
      rest
  }

  /** `keys.map(key => key.split(sep)).filter(KeepKey)` (lines 145-150): the
      split keys worth a header, in their sorted order. */
  function HeaderKeys(keys: seq<string>): (heads: seq<seq<string>>)
    ensures |heads| <= |keys|
  {
    if keys == [] then []
    else
      var n := |keys| - 1;
      HeaderKeys(keys[..n]) + (if KeepKey(Split(keys[n])) then [Split(keys[n])] else [])
  }

  /** A header is the split of one of the keys, and it has something to show. */
  lemma {:induction false} HeaderKeysSound(keys: seq<string>, parts: seq<string>)
    requires parts in HeaderKeys(keys)
    ensures KeepKey(parts) && exists k :: k in keys && Split(k) == parts
  {
    var n := |keys| - 1;
    assert keys == keys[..n] + [keys[n]];
    if parts in HeaderKeys(keys[..n]) {
      HeaderKeysSound(keys[..n], parts);
      var k :| k in keys[..n] && Split(k) == parts;
      assert k in keys;
    } else {
      assert parts == Split(keys[n]);
    }
  }

  /** Every key with something to show gives a header. */
  lemma {:induction false} HeaderKeysComplete(keys: seq<string>, k: string)
    requires k in keys && KeepKey(Split(k))
    ensures Split(k) in HeaderKeys(keys)
  {
    var n := |keys| - 1;
    if k != keys[n] {
      var at :| 0 <= at < |keys| && keys[at] == k;
      assert keys[..n][at] == k;
      HeaderKeysComplete(keys[..n], k);
    }
  }

  /** The positions of the keys worth a header, in order. */
  function HeaderPositions(keys: seq<string>): seq<nat>
  {
    if keys == [] then []
    else
      var n := |keys| - 1;
      HeaderPositions(keys[..n]) + (if KeepKey(Split(keys[n])) then [n] else [])
  }

  /** Order is kept: the headers are the splits of the keys at strictly
      increasing positions. */
  lemma {:induction false} HeaderKeysInOrder(keys: seq<string>)
    ensures var pos, heads := HeaderPositions(keys), HeaderKeys(keys);
      && |pos| == |heads|
      && (forall a, b :: 0 <= a < b < |pos| ==> pos[a] < pos[b])
      && (forall a :: 0 <= a < |pos| ==> pos[a] < |keys| && heads[a] == Split(keys[pos[a]]))
  {
    if keys != [] {
      var n := |keys| - 1;
      HeaderKeysInOrder(keys[..n]);
      var pos := HeaderPositions(keys[..n]);
      assert forall a :: 0 <= a < |pos| ==> keys[pos[a]] == keys[..n][pos[a]];
    }
  }

  /** The header positions are exactly the keys whose split has something
      to show. */
  lemma {:induction false} HeaderPositionsExact(keys: seq<string>)
    ensures forall p :: 0 <= p < |keys| ==> (p in HeaderPositions(keys) <==> KeepKey(Split(keys[p])))
  {
    if keys != [] {
      var n := |keys| - 1;
      HeaderPositionsExact(keys[..n]);
      HeaderKeysInOrder(keys[..n]);
      var pos := HeaderPositions(keys[..n]);
      assert n !in pos;
      assert forall p :: 0 <= p < n ==> keys[p] == keys[..n][p];
    }
  }

  /** A record whose grouping values are all falsy gets a key made only of
      "null" components, and the renderer drops it. */
  lemma AllFalsyKeyDropped(rec: Record, attrs: seq<string>)
    requires |attrs| >= 1
    requires forall i :: 0 <= i < |attrs| ==> !Truthy(Get(rec, attrs[i]))
    ensures !KeepKey(Split(KeyString(rec, attrs)))
  {
    var parts := KeyParts(rec, attrs);
    assert forall i :: 0 <= i < |attrs| ==> parts[i] == "null";
    forall i | 0 <= i < |parts| ensures Sep !in parts[i] {
      assert parts[i] == "null";
    }
    SplitJoin(parts);
  }

  /** A string value that is not "null" and not blank keeps its key. */
  lemma VisibleValueKeepsKey(rec: Record, attrs: seq<string>, i: int)
    requires |attrs| >= 1 && NoSeparatorIn(rec, attrs)
    requires 0 <= i < |attrs| && Get(rec, attrs[i]).Str? && Visible(Get(rec, attrs[i]).s)
    ensures KeepKey(Split(KeyString(rec, attrs)))
  {
    KeyRoundTrip(rec, attrs);
    assert KeyParts(rec, attrs)[i] == Get(rec, attrs[i]).s;
  }

  /** A key is kept when some component is visible, and then every component
      is shown, a "null" one included: a record missing `x` but with `y` =
      "x" gets the header labels "null" and "x". */
  lemma NullComponentStillShown()
    ensures var rec := map["y" := Str("x")];
      Split(KeyString(rec, ["x", "y"])) == ["null", "x"] && KeepKey(Split(KeyString(rec, ["x", "y"])))
  {
    var rec := map["y" := Str("x")];
    assert KeyParts(rec, ["x", "y"]) == ["null", "x"];
    assert Sep !in "null" && Sep !in "x";
    SplitJoin(["null", "x"]);
    TrimEmptyIffBlank("x");
    assert Visible(["null", "x"][1]);
  }

  /** A value of white space only is truthy, so it is its own group, yet the
      renderer gives it no header label. */
  lemma BlankValueIsGroupedButHidden()
    ensures var rec := map["x" := Str("  ")];
      Truthy(Get(rec, "x")) && KeyString(rec, ["x"]) == "  " && !KeepKey(Split(KeyString(rec, ["x"])))
  {
    var rec := map["x" := Str("  ")];
    assert KeyParts(rec, ["x"]) == ["  "];
    SplitOfSeparatorFree("  ");
    TrimEmptyIffBlank("  ");
  }

  /** With no grouping attributes the only key is "", which splits to [""]
      and is dropped: no header keys at all. */
  lemma EmptyAttributeListHasNoHeaders(rec: Record)
    ensures !KeepKey(Split(KeyString(rec, [])))
  {
    EmptyAttributeListKey(rec);
    TrimEmptyIffBlank("");
  }

  /** `filterValues.includes(v)`: SameValueZero, which on these values is
      equality (there is no NaN), so a number never matches its string. */
  function Includes(vals: seq<Value>, v: Value): (found: bool)
    ensures found <==> v in vals
  {
    if vals == [] then false else vals[0] == v || Includes(vals[1..], v)
  }

  /** `Object.keys(filters).every(attr => filters[attr].includes(record[attr]))`
      (lines 643-645): every filtered attribute holds an allowed value; a
      missing attribute reads as `undefined`. */
  predicate Admits(filters: map<string, seq<Value>>, rec: Record)
  {
    forall attr :: attr in filters ==> Includes(filters[attr], Get(rec, attr))
  }

  /** `input.filter(record => Admits(filters, record))` (line 642). */
  function FilterRecords(input: seq<Record>, filters: map<string, seq<Value>>): (kept: seq<Record>)
    ensures |kept| <= |input|
  {
    if input == [] then []
    else
      var n := |input| - 1;
      FilterRecords(input[..n], filters) + (if Admits(filters, input[n]) then [input[n]] else [])
  }

  /** The records kept are the admitted ones, each as often as in the input. */
  lemma {:induction false} FilterRecordsCounts(input: seq<Record>, filters: map<string, seq<Value>>)
    ensures forall rec :: multiset(FilterRecords(input, filters))[rec] == if Admits(filters, rec) then multiset(input)[rec] else 0
  {
    if input != [] {
      var n := |input| - 1;
      FilterRecordsCounts(input[..n], filters);
      assert input == input[..n] + [input[n]];
    }
  }

  /** The positions of the admitted records in the input, in order. */
  function KeptPositions(input: seq<Record>, filters: map<string, seq<Value>>): seq<nat>
  {
    if input == [] then []
    else
      var n := |input| - 1;
      KeptPositions(input[..n], filters) + (if Admits(filters, input[n]) then [n] else [])
  }

  /** Order is kept: the filtered records are the input's records at
      strictly increasing positions. */
  lemma {:induction false} FilterRecordsInOrder(input: seq<Record>, filters: map<string, seq<Value>>)
    ensures var pos, kept := KeptPositions(input, filters), FilterRecords(input, filters);
      && |pos| == |kept|
      && (forall a, b :: 0 <= a < b < |pos| ==> pos[a] < pos[b])
      && (forall a :: 0 <= a < |pos| ==> pos[a] < |input| && input[pos[a]] == kept[a])
  {
    if input != [] {
      var n := |input| - 1;
      FilterRecordsInOrder(input[..n], filters);
      var pos, kept := KeptPositions(input[..n], filters), FilterRecords(input[..n], filters);
      assert forall a :: 0 <= a < |pos| ==> input[pos[a]] == input[..n][pos[a]];
    }
  }

  /** With no filters every record is kept. */
  lemma {:induction false} NoFiltersKeepAll(input: seq<Record>)
    ensures FilterRecords(input, map[]) == input
  {
    if input != [] {
      var n := |input| - 1;
      NoFiltersKeepAll(input[..n]);
      assert input == input[..n] + [input[n]];
    }
  }

  /** An attribute with an empty list of allowed values rejects every record. */
  lemma {:induction false} EmptyAllowListKeepsNothing(input: seq<Record>, filters: map<string, seq<Value>>, attr: string)
    requires attr in filters && filters[attr] == []
    ensures FilterRecords(input, filters) == []
  {
    if input != [] {
      EmptyAllowListKeepsNothing(input[..|input| - 1], filters, attr);
    }
  }

  /** Matching is strict: the number 5 does not pass a filter that allows "5". */
  lemma NumberDoesNotMatchItsString()
    ensures !Admits(map["n" := [Str("5")]], map["n" := Number(5)])
  {
    var filters, rec := map["n" := [Str("5")]], map["n" := Number(5)];
    assert "n" in filters && Get(rec, "n") == Number(5);
    assert !Includes(filters["n"], Get(rec, "n"));
  }
}
