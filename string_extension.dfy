/** Small string predicates and normalisers; `null` strings are `None`. */
module StringExtension {
  import opened Wrappers
  import opened Text

  datatype StringError = ArgumentOutOfRange

  /** `LastChars(text, n)`: the whole text when it is not longer than `n`,
      otherwise its last `n` characters.  A negative `n` reaches
      `Substring` with a negative length, which throws. */
  function LastChars(text: string, n: int): (r: Result<string, StringError>)
    ensures r.Success? <==> n >= 0
    ensures r.Success? ==> |r.value| == (if |text| < n then |text| else n)
    ensures r.Success? ==> EndsWith(text, r.value)
  {
    if |text| > n then
      if n < 0 then Failure(ArgumentOutOfRange) else Success(text[|text| - n..])
    else Success(text)
  }

  /** `string.IsNullOrWhiteSpace` */
  predicate IsNullOrWhiteSpace(value: Option<string>) {
    value.None? || Blank(value.value)
  }

  lemma IsNullOrWhiteSpaceCases(value: Option<string>)
    ensures IsNullOrWhiteSpace(value) <==>
      (value == None || value == Some("") || (value.Some? && forall i :: 0 <= i < |value.value| ==> IsWhiteSpace(value.value[i])))
  {
  }

  /** `string.Equals(a, b, InvariantCultureIgnoreCase)`: two nulls are equal,
      a null and a string are not, two strings compare without case. */
  predicate EqualsIgnoreCase(a: Option<string>, b: Option<string>) {
    match (a, b)
    case (None, None) => true
    case (Some(x), Some(y)) => Lower(x) == Lower(y)
    case _ => false
  }

  lemma EqualsIgnoreCaseSymmetric(a: Option<string>, b: Option<string>)
    ensures EqualsIgnoreCase(a, b) == EqualsIgnoreCase(b, a)
  {
  }

  lemma LowerOfUpper(s: string)
    ensures Lower(Upper(s)) == Lower(s)
  {
    forall i | 0 <= i < |s|
      ensures LowerChar(UpperChar(s[i])) == LowerChar(s[i])
    {
    }
  }

  /** Changing the case of any character does not change the comparison. */
  lemma EqualsIgnoreCaseOfUpper(s: string)
    ensures EqualsIgnoreCase(Some(Upper(s)), Some(s))
  {
    LowerOfUpper(s);
  }

  /** `EnsureEndsWith(str, c)` with the default ordinal comparison. */
  function EnsureEndsWith(str: string, c: char): (r: string)
    ensures EndsWith(r, [c])
    ensures EndsWith(str, [c]) ==> r == str
    ensures !EndsWith(str, [c]) ==> r == str + [c]
  {
    if EndsWith(str, [c]) then str else str + [c]
  }

  lemma EnsureEndsWithIdempotent(str: string, c: char)
    ensures EnsureEndsWith(EnsureEndsWith(str, c), c) == EnsureEndsWith(str, c)
  {
  }

  /** `EnsureStartsWith(str, c)` with the default ordinal comparison. */
  function EnsureStartsWith(str: string, c: char): (r: string)
    ensures StartsWith(r, [c])
    ensures StartsWith(str, [c]) ==> r == str
    ensures !StartsWith(str, [c]) ==> r == [c] + str
  {
    if StartsWith(str, [c]) then str else [c] + str
  }

  lemma EnsureStartsWithIdempotent(str: string, c: char)
    ensures EnsureStartsWith(EnsureStartsWith(str, c), c) == EnsureStartsWith(str, c)
  {
  }
}
