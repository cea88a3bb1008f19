/** The key codec: composite grouping keys derived from records, and their
    serialised form joined with the NUL character. */
module Keys {
  import opened Values

  /** `String.fromCharCode(0)`, the separator between key components. */
  const Sep: char := '\0'

  /** `record[attr] || 'null'`: a falsy value is replaced by the string "null". */
  function KeyPart(v: Value): (p: Value)
    ensures Truthy(p)
    ensures Truthy(v) ==> p == v
    ensures !Truthy(v) ==> p == Str("null")
  {
    if Truthy(v) then v else Str("null")
  }

  /** `attrs.map(a => record[a] || 'null')`: one key component per attribute. */
  function DeriveKey(rec: Record, attrs: seq<string>): (key: seq<Value>)
    ensures |key| == |attrs|
    ensures forall i :: 0 <= i < |attrs| ==> key[i] == KeyPart(Get(rec, attrs[i]))
  {
    if attrs == [] then [] else [KeyPart(Get(rec, attrs[0]))] + DeriveKey(rec, attrs[1..])
  }

  /** The components as strings, as `join` renders them. */
  function Render(key: seq<Value>): (parts: seq<string>)
    ensures |parts| == |key|
    ensures forall i :: 0 <= i < |key| ==> parts[i] == ValueString(key[i])
  {
    if key == [] then [] else [ValueString(key[0])] + Render(key[1..])
  }

  /** `parts.join(sep)` */
  function Join(parts: seq<string>): string
  {
    if |parts| == 0 then ""
    else if |parts| == 1 then parts[0]
    else parts[0] + [Sep] + Join(parts[1..])
  }

  /** `s.split(sep)`: the pieces between separators; always at least one piece. */
  function Split(s: string): (parts: seq<string>)
    ensures |parts| >= 1
  {
    if s == [] then [""]
    else
      var rest := Split(s[1..]);
      if s[0] == Sep then [""] + rest
      else [[s[0]] + rest[0]] + rest[1..]
  }

  /** The pieces contain no separator, and there is one more piece than
      there are separators in s. */
  lemma {:induction false} SplitPieces(s: string)
    ensures SeparatorFree(Split(s))
    ensures |Split(s)| == 1 + multiset(s)[Sep]
  {
    if s != [] {
      SplitPieces(s[1..]);
      assert s == [s[0]] + s[1..];
      var rest := Split(s[1..]);
      if s[0] != Sep {
        assert Sep !in [s[0]] + rest[0];
        assert forall i :: 1 <= i < |rest| ==> rest[1..][i - 1] == rest[i];
      }
    }
  }

  /** The serialised key of a record under an attribute list (lines 22-26). */
  function KeyString(rec: Record, attrs: seq<string>): string
  {
    Join(Render(DeriveKey(rec, attrs)))
  }

  /** The string components the renderer gets back for a record. */
  function KeyParts(rec: Record, attrs: seq<string>): seq<string>
  {
    Render(DeriveKey(rec, attrs))
  }

  /** No component of a derived key is ever the empty string (a falsy value became "null"). */
  lemma KeyPartsNonEmpty(rec: Record, attrs: seq<string>)
    ensures forall i :: 0 <= i < |attrs| ==> KeyParts(rec, attrs)[i] != ""
  {
    forall i | 0 <= i < |attrs| ensures KeyParts(rec, attrs)[i] != "" {
      TruthyRendersNonEmpty(DeriveKey(rec, attrs)[i]);
    }
  }

  /** A component that contains no separator of its own. */
  predicate SeparatorFree(parts: seq<string>)
  {
    forall i :: 0 <= i < |parts| ==> Sep !in parts[i]
  }

  lemma {:induction false} SplitOfSeparatorFree(p: string)
    requires Sep !in p
    ensures Split(p) == [p]
  {
    if p != [] {
      SplitOfSeparatorFree(p[1..]);
      assert [p[0]] + p[1..] == p;
    }
  }

  lemma {:induction false} SplitAfterPiece(p: string, t: string)
    requires Sep !in p
    ensures Split(p + [Sep] + t) == [p] + Split(t)
  {
    if p == [] {
      assert p + [Sep] + t == [Sep] + t;
      assert ([Sep] + t)[1..] == t;
    } else {
      SplitAfterPiece(p[1..], t);
      var s := p + [Sep] + t;
      assert s[0] == p[0];
      assert s[1..] == p[1..] + [Sep] + t;
      assert [p[0]] + p[1..] == p;
    }
  }

  /** Splitting a joined key gives the components back, provided there is at
      least one component and none contains the separator. */
  lemma {:induction false} SplitJoin(parts: seq<string>)
    requires |parts| >= 1 && SeparatorFree(parts)
    ensures Split(Join(parts)) == parts
  {
    if |parts| == 1 {
      SplitOfSeparatorFree(parts[0]);
    } else {
      SplitJoin(parts[1..]);
      SplitAfterPiece(parts[0], Join(parts[1..]));
      assert [parts[0]] + parts[1..] == parts;
    }
  }

  /** Joining the pieces of any string gives the string back. */
  lemma {:induction false} JoinSplit(s: string)
    ensures Join(Split(s)) == s
  {
    if s != [] {
      JoinSplit(s[1..]);
      var rest := Split(s[1..]);
      assert s == [s[0]] + s[1..];
      if s[0] != Sep && |rest| > 1 {
        assert ([[s[0]] + rest[0]] + rest[1..])[1..] == rest[1..];
      }
    }
  }

  /** Serialisation is injective on non-empty, separator-free component lists. */
  lemma JoinInjective(p: seq<string>, q: seq<string>)
    requires |p| >= 1 && SeparatorFree(p)
    requires |q| >= 1 && SeparatorFree(q)
    requires Join(p) == Join(q)
    ensures p == q
  {
    SplitJoin(p);
    SplitJoin(q);
  }

  /** The record's values (as rendered) are free of the separator. */
  predicate NoSeparatorIn(rec: Record, attrs: seq<string>)
  {
    forall i :: 0 <= i < |attrs| ==> Sep !in ValueString(Get(rec, attrs[i]))
  }

  /** Round trip of the engine's keys (lines 25-26 and the split at line 146). */
  lemma KeyRoundTrip(rec: Record, attrs: seq<string>)
    requires |attrs| >= 1 && NoSeparatorIn(rec, attrs)
    ensures Split(KeyString(rec, attrs)) == KeyParts(rec, attrs)
  {
    var parts := KeyParts(rec, attrs);
    forall i | 0 <= i < |parts| ensures Sep !in parts[i] {
      assert parts[i] == ValueString(KeyPart(Get(rec, attrs[i])));
    }
    SplitJoin(parts);
  }

  /** Two records with separator-free values share a serialised key exactly
      when they share the rendered components. */
  lemma KeyStringInjective(r1: Record, r2: Record, attrs: seq<string>)
    requires |attrs| >= 1 && NoSeparatorIn(r1, attrs) && NoSeparatorIn(r2, attrs)
    ensures KeyString(r1, attrs) == KeyString(r2, attrs) <==> KeyParts(r1, attrs) == KeyParts(r2, attrs)
  {
    KeyRoundTrip(r1, attrs);
    KeyRoundTrip(r2, attrs);
  }

  /** With at least one attribute the serialised key is never "", the value
      `getAggregator` treats as "no key". */
  lemma KeyStringNonEmpty(rec: Record, attrs: seq<string>)
    requires |attrs| >= 1
    ensures KeyString(rec, attrs) != ""
  {
    var parts := KeyParts(rec, attrs);
    KeyPartsNonEmpty(rec, attrs);
    assert parts[0] != "";
    if |parts| > 1 {
      assert Join(parts) == parts[0] + [Sep] + Join(parts[1..]);
    }
  }

  /** With no attributes the key is "", and it splits back to [""], not []. */
  lemma EmptyAttributeListKey(rec: Record)
    ensures KeyString(rec, []) == ""
    ensures Split(KeyString(rec, [])) == [""]
  {
  }

  /** A missing (or otherwise falsy) attribute groups exactly like the literal
      string "null". */
  lemma {:induction false} FalsyGroupsAsNull(rec: Record, attr: string, attrs: seq<string>)
    requires !Truthy(Get(rec, attr))
    ensures DeriveKey(rec, attrs) == DeriveKey(rec[attr := Str("null")], attrs)
    ensures KeyString(rec, attrs) == KeyString(rec[attr := Str("null")], attrs)
  {
    if attrs != [] {
      FalsyGroupsAsNull(rec, attr, attrs[1..]);
    }
  }

  /** A number and its decimal string land in the same group, whatever the
      grouping attributes. */
  lemma NumberGroupsWithItsString(rec: Record, attr: string, attrs: seq<string>, n: int)
    requires n != 0
    ensures KeyParts(rec[attr := Number(n)], attrs) == KeyParts(rec[attr := Str(IntToString(n))], attrs)
    ensures KeyString(rec[attr := Number(n)], attrs) == KeyString(rec[attr := Str(IntToString(n))], attrs)
  {
    var r1, r2 := rec[attr := Number(n)], rec[attr := Str(IntToString(n))];
    forall i | 0 <= i < |attrs|
      ensures KeyParts(r1, attrs)[i] == KeyParts(r2, attrs)[i]
    {
      if attrs[i] == attr {
        TruthyRendersNonEmpty(Number(n));
      }
    }
  }

  /** A value containing the separator breaks injectivity: two different
      component lists serialise identically (a documented limitation). */
  lemma SeparatorCollision()
    ensures var r1 := map["x" := Str("a\0b"), "y" := Str("c")];
            var r2 := map["x" := Str("a"), "y" := Str("b\0c")];
            KeyParts(r1, ["x", "y"]) != KeyParts(r2, ["x", "y"]) &&
            KeyString(r1, ["x", "y"]) == KeyString(r2, ["x", "y"])
  {
    var r1 := map["x" := Str("a\0b"), "y" := Str("c")];
    var r2 := map["x" := Str("a"), "y" := Str("b\0c")];
    assert KeyParts(r1, ["x", "y"]) == ["a\0b", "c"];
    assert KeyParts(r2, ["x", "y"]) == ["a", "b\0c"];
    assert KeyParts(r1, ["x", "y"])[0] != KeyParts(r2, ["x", "y"])[0];
    assert KeyString(r1, ["x", "y"]) == "a\0b" + [Sep] + "c";
    assert KeyString(r2, ["x", "y"]) == "a" + [Sep] + "b\0c";
  }
}
