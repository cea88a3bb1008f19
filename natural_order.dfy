/** The comparator behind `naturalSort()`: a simplified model of
    `a.localeCompare(b, undefined, { numeric: true, sensitivity: 'base' })`.
    A string is read as a sequence of tokens: each maximal run of decimal
    digits is one numeric token compared by its value, and every other
    character is one character token compared after folding ASCII case.
    The key separator NUL is completely ignorable in the root collation: it
    gives no token (though, not being a digit, it still ends a digit run).
    Numeric tokens come before character tokens, and a proper prefix comes first. */
module NaturalOrder {
  import opened Values
  import opened Keys

  datatype Token = Num(value: nat) | Chr(c: char)

  /** ASCII upper case folded to lower case (sensitivity 'base'). */
  function Fold(c: char): char
  {
    if 'A' <= c <= 'Z' then (c as int + 32) as char else c
  }

  /** Length of the run of digits at the front of s. */
  function DigitRun(s: string): (r: nat)
    ensures r <= |s| && AllDigits(s[..r])
    ensures r < |s| ==> !IsDigit(s[r])
  {
    if s != [] && IsDigit(s[0]) then
      var r := 1 + DigitRun(s[1..]);
      assert s[..r] == [s[0]] + s[1..][..r - 1];
      r
    else 0
  }

  function Tokens(s: string): seq<Token>
    decreases |s|
  {
    if s == [] then []
    else if s[0] == Sep then Tokens(s[1..])
    else if IsDigit(s[0]) then
      var n := DigitRun(s);
      [Num(DecimalValue(s[..n]))] + Tokens(s[n..])
    else [Chr(Fold(s[0]))] + Tokens(s[1..])
  }

  function CompareToken(a: Token, b: Token): int
  {
    match (a, b)
    case (Num(x), Num(y)) => if x < y then -1 else if x > y then 1 else 0
    case (Num(_), Chr(_)) => -1
    case (Chr(_), Num(_)) => 1
    case (Chr(x), Chr(y)) => if x < y then -1 else if x > y then 1 else 0
  }

  /** Lexicographic comparison of token sequences. */
  function CompareTokens(x: seq<Token>, y: seq<Token>): (r: int)
    ensures -1 <= r <= 1
  {
    if x == [] && y == [] then 0
    else if x == [] then -1
    else if y == [] then 1
    else
      var c := CompareToken(x[0], y[0]);
      if c != 0 then c else CompareTokens(x[1..], y[1..])
  }

  /** The comparator passed to `keys.sort`: negative, zero or positive. */
  function Compare(a: string, b: string): (r: int)
    ensures -1 <= r <= 1
  {
    CompareTokens(Tokens(a), Tokens(b))
  }

  /** a may come before b in a sorted array. */
  predicate Le(a: string, b: string)
  {
    Compare(a, b) <= 0
  }

  lemma {:induction false} CompareTokensAntisymmetric(x: seq<Token>, y: seq<Token>)
    ensures CompareTokens(x, y) == -CompareTokens(y, x)
  {
    if x != [] && y != [] && CompareToken(x[0], y[0]) == 0 {
      CompareTokensAntisymmetric(x[1..], y[1..]);
    }
  }

  lemma {:induction false} CompareTokensZero(x: seq<Token>, y: seq<Token>)
    ensures CompareTokens(x, y) == 0 <==> x == y
  {
    if x != [] && y != [] {
      CompareTokensZero(x[1..], y[1..]);
      if CompareToken(x[0], y[0]) == 0 {
        assert x[0] == y[0];
        assert x == [x[0]] + x[1..] && y == [y[0]] + y[1..];
      }
    }
  }

  lemma {:induction false} CompareTokensTransitive(x: seq<Token>, y: seq<Token>, z: seq<Token>)
    requires CompareTokens(x, y) <= 0 && CompareTokens(y, z) <= 0
    ensures CompareTokens(x, z) <= 0
  {
    if x != [] && y != [] && z != [] {
      var cxy, cyz := CompareToken(x[0], y[0]), CompareToken(y[0], z[0]);
      if cxy == 0 && cyz == 0 {
        CompareTokensTransitive(x[1..], y[1..], z[1..]);
      }
    }
  }

  /** The comparator is antisymmetric in sign: swapping the arguments negates it. */
  lemma CompareAntisymmetric(a: string, b: string)
    ensures Compare(a, b) == -Compare(b, a)
  {
    CompareTokensAntisymmetric(Tokens(a), Tokens(b));
  }

  /** Le is a total preorder: reflexive, total and transitive. */
  lemma LeReflexive(a: string)
    ensures Le(a, a)
  {
    CompareTokensZero(Tokens(a), Tokens(a));
  }

  lemma LeTotal(a: string, b: string)
    ensures Le(a, b) || Le(b, a)
  {
    CompareAntisymmetric(a, b);
  }

  lemma LeTransitive(a: string, b: string, c: string)
    requires Le(a, b) && Le(b, c)
    ensures Le(a, c)
  {
    CompareTokensTransitive(Tokens(a), Tokens(b), Tokens(c));
  }

  /** Two keys compare equal exactly when they read as the same tokens. */
  lemma CompareZeroIffSameTokens(a: string, b: string)
    ensures Compare(a, b) == 0 <==> Tokens(a) == Tokens(b)
  {
    CompareTokensZero(Tokens(a), Tokens(b));
  }

  /** A decimal rendering is a single numeric token. */
  lemma TokensOfNatString(n: nat)
    ensures Tokens(NatToString(n)) == [Num(n)]
  {
    var s := NatToString(n);
    var r := DigitRun(s);
    assert r == |s|;
    assert s[..r] == s && s[r..] == [];
    DecimalValueOfNatToString(n);
  }

  /** Numeric keys sort by numeric value, not by their text ("2" before "10"). */
  lemma NumbersCompareByValue(m: nat, n: nat)
    ensures Compare(NatToString(m), NatToString(n)) == (if m < n then -1 else if m > n then 1 else 0)
  {
    TokensOfNatString(m);
    TokensOfNatString(n);
    assert [Num(m)][1..] == [] && [Num(n)][1..] == [];
    assert CompareTokens([Num(m)], [Num(n)]) == CompareToken(Num(m), Num(n)) by {
      assert CompareTokens([], []) == 0;
    }
  }

  /** Case is ignored, and leading zeros are ignored: the order has ties. */
  lemma TiesOfTheComparator()
    ensures Compare("a", "A") == 0
    ensures Compare("01", "1") == 0
  {
    assert Tokens("a") == [Chr('a')] by {
      assert "a"[1..] == [];
    }
    assert Tokens("A") == [Chr('a')] by {
      assert "A"[1..] == [];
    }
    assert DigitRun("01") == 2 by {
      assert DigitRun("1") == 1 by { assert "1"[1..] == []; }
      assert "01"[1..] == "1";
    }
    assert "01"[..2] == "01" && "01"[2..] == [];
    assert DecimalValue("01") == 1 by {
      assert "01"[..1] == "0";
      assert "0"[..0] == [];
    }
    assert Tokens("01") == [Num(1)];
    TokensOfNatString(1);
    assert NatToString(1) == "1";
  }

  /** The keys "2", "10", "a", "a2", "b" are in strictly ascending order. */
  lemma SampleKeysAscend()
    ensures Compare("2", "10") < 0 && Compare("10", "a") < 0
    ensures Compare("a", "a2") < 0 && Compare("a2", "b") < 0
  {
    NumbersCompareByValue(2, 10);
    TokensOfNatString(10);
    TokensOfNatString(2);
    assert NatToString(2) == "2";
    assert NatToString(10) == "10" by {
      assert NatToString(1) == "1";
    }
    assert Tokens("a") == [Chr('a')] by {
      assert "a"[1..] == [];
    }
    assert Tokens("b") == [Chr('b')] by {
      assert "b"[1..] == [];
    }
    assert Tokens("a2") == [Chr('a'), Num(2)] by {
      assert "a2"[1..] == "2";
    }
  }

  /** The separator contributes nothing to the comparison. */
  lemma SeparatorIgnored(s: string)
    ensures Tokens([Sep] + s) == Tokens(s)
  {
    assert ([Sep] + s)[1..] == s;
  }

  /** Multi-attribute keys compare as if their components were run
      together: the key of ["ab", "c"] sorts before the key of ["a", "zz"],
      as "abc" sorts before "azz". */
  lemma JoinedKeysCompareRunTogether()
    ensures Compare("ab\0c", "a\0zz") < 0
    ensures Tokens("ab\0c") == Tokens("abc") && Tokens("a\0zz") == Tokens("azz")
  {
    assert "ab\0c"[1..] == "b\0c" && "b\0c"[1..] == "\0c" && "\0c"[1..] == "c" && "c"[1..] == [];
    assert "abc"[1..] == "bc" && "bc"[1..] == "c";
    assert "a\0zz"[1..] == "\0zz" && "\0zz"[1..] == "zz" && "zz"[1..] == "z" && "z"[1..] == [];
    assert "azz"[1..] == "zz";
    assert Tokens("ab\0c") == [Chr('a'), Chr('b'), Chr('c')];
    assert Tokens("a\0zz") == [Chr('a'), Chr('z'), Chr('z')];
    assert [Chr('a'), Chr('b'), Chr('c')][1..] == [Chr('b'), Chr('c')];
    assert [Chr('a'), Chr('z'), Chr('z')][1..] == [Chr('z'), Chr('z')];
  }
}
