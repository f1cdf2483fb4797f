/** Case-style conversions used to derive database names from .NET type names. */
module StringFormat {
  import opened Text

  function CountUpper(s: string): nat {
    if s == [] then 0 else (if IsUpper(s[0]) then 1 else 0) + CountUpper(s[1..])
  }

  /** The part of `ToUnderscoreCase` after index 0: every upper-case
      character gets an `_` in front of it. */
  function UnderscoreTail(s: string): (r: string)
    ensures |r| == |s| + CountUpper(s)
    ensures r != [] ==> !IsUpper(r[0])
  {
    if s == [] then []
    else (if IsUpper(s[0]) then ['_', s[0]] else [s[0]]) + UnderscoreTail(s[1..])
  }

  /** `ToUnderscoreCase`: `_` before each upper-case character at index > 0. */
  function ToUnderscoreCase(s: string): (r: string)
    ensures |r| == |s| + (if s == [] then 0 else CountUpper(s[1..]))
    ensures s != [] ==> r[0] == s[0]
  {
    if s == [] then [] else [s[0]] + UnderscoreTail(s[1..])
  }

  /** Reads an underscore-cased tail back: `_` followed by an upper-case
      character stands for that character alone. */
  function UnderscoreTailInverse(t: string): string
    decreases |t|
  {
    if t == [] then []
    else if t[0] == '_' && |t| > 1 && IsUpper(t[1]) then [t[1]] + UnderscoreTailInverse(t[2..])
    else [t[0]] + UnderscoreTailInverse(t[1..])
  }

  lemma {:induction false} UnderscoreTailRoundTrip(s: string)
    ensures UnderscoreTailInverse(UnderscoreTail(s)) == s
  {
    if s != [] {
      var rest := UnderscoreTail(s[1..]);
      UnderscoreTailRoundTrip(s[1..]);
      if IsUpper(s[0]) {
        assert UnderscoreTail(s) == ['_', s[0]] + rest;
        assert (['_', s[0]] + rest)[2..] == rest;
      } else {
        assert UnderscoreTail(s) == [s[0]] + rest;
        assert ([s[0]] + rest)[1..] == rest;
      }
    }
  }

  /** Nothing but the inserted underscores changes: the conversion is injective. */
  lemma UnderscoreCaseInjective(a: string, b: string)
    requires ToUnderscoreCase(a) == ToUnderscoreCase(b)
    ensures a == b
  {
    if a != [] && b != [] {
      var ra := ToUnderscoreCase(a);
      assert ra[1..] == UnderscoreTail(a[1..]);
      assert ToUnderscoreCase(b)[1..] == UnderscoreTail(b[1..]);
      UnderscoreTailRoundTrip(a[1..]);
      UnderscoreTailRoundTrip(b[1..]);
      assert a == [a[0]] + a[1..] && b == [b[0]] + b[1..];
    }
  }

  lemma {:induction false} UnderscoreTailNoUpper(s: string)
    requires CountUpper(s) == 0
    ensures UnderscoreTail(s) == s
  {
    if s != [] {
      UnderscoreTailNoUpper(s[1..]);
    }
  }

  lemma {:induction false} CountUpperZero(s: string)
    requires forall i :: 0 <= i < |s| ==> !IsUpper(s[i])
    ensures CountUpper(s) == 0
  {
    if s != [] {
      CountUpperZero(s[1..]);
    }
  }

  /** Input with no upper-case character after position 0 comes back unchanged. */
  lemma UnderscoreCaseUnchanged(s: string)
    requires s != [] ==> CountUpper(s[1..]) == 0
    ensures ToUnderscoreCase(s) == s
  {
    if s != [] {
      UnderscoreTailNoUpper(s[1..]);
    }
  }

  const Separators: set<char> := {'-', '_'}

  /** One word of `ToPascalCase`: first character upper-cased, the rest lower-cased. */
  function PascalWord(w: string): (r: string)
    requires w != []
    ensures |r| == |w| && r[0] == UpperChar(w[0]) && r[1..] == Lower(w[1..])
  {
    [UpperChar(w[0])] + Lower(w[1..])
  }

  function PascalWords(words: seq<string>): string
    requires forall i :: 0 <= i < |words| ==> words[i] != []
  {
    if words == [] then "" else PascalWord(words[0]) + PascalWords(words[1..])
  }

  /** `ToPascalCase`: split on `-`/`_` dropping empty pieces, fix each word's case, concatenate. */
  function ToPascalCase(s: string): (r: string)
    ensures forall i :: 0 <= i < |r| ==> r[i] !in Separators
    ensures r != [] ==> !IsLower(r[0])
  {
    var words := SplitRemoveEmpty(s, Separators);
    PascalWordsAvoid(words);
    PascalWordsHead(words);
    PascalWords(words)
  }

  lemma {:induction false} PascalWordsAvoid(words: seq<string>)
    requires forall i :: 0 <= i < |words| ==> words[i] != []
    requires forall i, j :: 0 <= i < |words| && 0 <= j < |words[i]| ==> words[i][j] !in Separators
    ensures forall k :: 0 <= k < |PascalWords(words)| ==> PascalWords(words)[k] !in Separators
  {
    if words != [] {
      PascalWordsAvoid(words[1..]);
      var w := words[0];
      var p := PascalWord(w);
      assert forall k :: 0 <= k < |p| ==> p[k] !in Separators by {
        forall k | 0 <= k < |p|
          ensures p[k] !in Separators
        {
          if k == 0 {
            assert w[0] !in Separators;
          } else {
            assert p[k] == LowerChar(w[k]);
            assert w[k] !in Separators;
          }
        }
      }
    }
  }

  lemma PascalWordsHead(words: seq<string>)
    requires forall i :: 0 <= i < |words| ==> words[i] != []
    ensures PascalWords(words) != [] ==> !IsLower(PascalWords(words)[0])
  {
    if words != [] {
      assert PascalWords(words)[0] == PascalWord(words[0])[0];
    }
  }

  lemma {:induction false} SplitOfSeparators(s: string, seps: set<char>)
    requires forall i :: 0 <= i < |s| ==> s[i] in seps
    ensures forall i :: 0 <= i < |Split(s, seps)| ==> Split(s, seps)[i] == []
  {
    if s != [] {
      SplitOfSeparators(s[1..], seps);
    }
  }

  lemma {:induction false} NonEmptyOfEmpties(parts: seq<string>)
    requires forall i :: 0 <= i < |parts| ==> parts[i] == []
    ensures NonEmpty(parts) == []
  {
    if parts != [] {
      NonEmptyOfEmpties(parts[1..]);
    }
  }

  /** Input made only of separators (or empty input) gives the empty string. */
  lemma PascalCaseOfSeparators(s: string)
    requires forall i :: 0 <= i < |s| ==> s[i] in Separators
    ensures ToPascalCase(s) == ""
  {
    SplitOfSeparators(s, Separators);
    NonEmptyOfEmpties(Split(s, Separators));
  }

  lemma CustomerHasNoSeparator()
    ensures forall i :: 0 <= i < |"CUSTOMER"| ==> "CUSTOMER"[i] !in Separators
  {
  }

  lemma NumberHasNoSeparator()
    ensures forall i :: 0 <= i < |"NUMBER"| ==> "NUMBER"[i] !in Separators
  {
  }

  lemma CustomerNumberWords(s: string)
    requires s == "CUSTOMER_NUMBER"
    ensures SplitRemoveEmpty(s, Separators) == ["CUSTOMER", "NUMBER"]
  {
    var a, b := "CUSTOMER", "NUMBER";
    assert s == a + ['_'] + b;
    CustomerHasNoSeparator();
    NumberHasNoSeparator();
    SplitAt(a, '_', b, Separators);
    SplitWord(b, Separators);
    var bs: seq<string> := [b];
    assert NonEmpty(bs) == bs by { assert bs[1..] == []; }
  }

  lemma PascalCustomer()
    ensures PascalWord("CUSTOMER") == "Customer"
  {
    assert Lower("CUSTOMER"[1..]) == "ustomer";
  }

  lemma PascalNumber()
    ensures PascalWord("NUMBER") == "Number"
  {
    assert Lower("NUMBER"[1..]) == "umber";
  }

  lemma CustomerNumberPascalWords()
    ensures PascalWords(["CUSTOMER", "NUMBER"]) == "CustomerNumber"
  {
    var a, b := "CUSTOMER", "NUMBER";
    var bs: seq<string> := [b];
    assert PascalWords([a, b]) == PascalWord(a) + PascalWords(bs) by { assert [a, b][1..] == bs; }
    assert PascalWords(bs) == PascalWord(b) by { assert bs[1..] == []; }
    PascalCustomer();
    PascalNumber();
  }

  /** The business-key column `BK_CUSTOMER_NUMBER` names the property `CustomerNumber`. */
  lemma PascalCaseExample()
    ensures ToPascalCase("CUSTOMER_NUMBER") == "CustomerNumber"
  {
    CustomerNumberWords("CUSTOMER_NUMBER");
    CustomerNumberPascalWords();
  }

  /** `WrapCurlyBracket`: round parentheses, whatever the name says. */
  function WrapCurlyBracket(v: string): (r: string)
    ensures |r| == |v| + 2 && r[0] == '(' && r[|r| - 1] == ')' && r[1..|r| - 1] == v
  {
    "(" + v + ")"
  }
}
