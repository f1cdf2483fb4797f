/** `OptionalCollectionExtensions`: First/Last/Single/ElementAt-or-none over a
    sequence, and the defined values of a sequence of optionals. A null
    source or predicate is `None` and throws `ArgumentNullException`. Where the
    source has an `IList` path and an enumerator path, `isList` chooses the
    path and the result is the same either way. */
module OptionalCollection {
  import opened Wrappers
  import opened Exceptions
  import opened Optionals

  // ---- reference definitions ----

  /** The defined values, in order. */
  function DefinedValues<T>(s: seq<Optional<T>>): (r: seq<T>)
    ensures |r| <= |s|
    ensures forall i :: 0 <= i < |r| ==> Defined(r[i]) in s
    ensures forall i :: 0 <= i < |s| && s[i].Defined? ==> s[i].value in r
  {
    if s == [] then []
    else
      var rest := DefinedValues(s[1..]);
      assert forall i :: 0 < i < |s| ==> s[i] == s[1..][i - 1];
      if s[0].Defined? then [s[0].value] + rest else rest
  }

  lemma {:induction false} DefinedValuesConcat<T>(a: seq<Optional<T>>, b: seq<Optional<T>>)
    ensures DefinedValues(a + b) == DefinedValues(a) + DefinedValues(b)
  {
    if a == [] {
      assert a + b == b;
    } else {
      assert (a + b)[1..] == a[1..] + b;
      DefinedValuesConcat(a[1..], b);
    }
  }

  /** Wrapping every element and taking the values back gives the elements. */
  lemma {:induction false} DefinedValuesOfDefined<T>(xs: seq<T>)
    ensures DefinedValues(seq(|xs|, i requires 0 <= i < |xs| => Defined(xs[i]))) == xs
  {
    var s := seq(|xs|, i requires 0 <= i < |xs| => Defined(xs[i]));
    if xs != [] {
      assert s[1..] == seq(|xs[1..]|, i requires 0 <= i < |xs[1..]| => Defined(xs[1..][i]));
      DefinedValuesOfDefined(xs[1..]);
    }
  }

  /** The elements satisfying `p`, in order. */
  function Filter<T>(s: seq<T>, p: T -> bool): (r: seq<T>)
    ensures |r| <= |s|
    ensures forall i :: 0 <= i < |r| ==> r[i] in s && p(r[i])
    ensures forall i :: 0 <= i < |s| && p(s[i]) ==> s[i] in r
  {
    if s == [] then []
    else
      var rest := Filter(s[..|s| - 1], p);
      assert forall i :: 0 <= i < |s| - 1 ==> s[i] == s[..|s| - 1][i];
      if p(s[|s| - 1]) then rest + [s[|s| - 1]] else rest
  }

  lemma FilterNone<T>(s: seq<T>, p: T -> bool)
    requires forall i :: 0 <= i < |s| ==> !p(s[i])
    ensures Filter(s, p) == []
  {
  }

  // ---- the list paths ----

  function FirstOf<T>(s: seq<T>): (r: Optional<T>)
    ensures r.HasValue() <==> |s| > 0
    ensures r.HasValue() ==> r.value == s[0]
  {
    if |s| > 0 then ToOptional(s[0]) else Undefined
  }

  function LastOf<T>(s: seq<T>): (r: Optional<T>)
    ensures r.HasValue() <==> |s| > 0
    ensures r.HasValue() ==> r.value == s[|s| - 1]
  {
    if |s| > 0 then ToOptional(s[|s| - 1]) else Undefined
  }

  function SingleOf<T>(s: seq<T>): (r: Optional<T>)
    ensures r.HasValue() <==> |s| == 1
    ensures r.HasValue() ==> r.value == s[0]
  {
    if |s| == 1 then ToOptional(s[0]) else Undefined
  }

  function ElementAtOf<T>(s: seq<T>, index: int): (r: Optional<T>)
    ensures r.HasValue() <==> 0 <= index < |s|
    ensures r.HasValue() ==> r.value == s[index]
  {
    if 0 <= index < |s| then ToOptional(s[index]) else Undefined
  }

  /** First and last are the elements at the two ends. */
  lemma FirstLastAreEnds<T>(s: seq<T>)
    ensures FirstOf(s) == ElementAtOf(s, 0)
    ensures LastOf(s) == ElementAtOf(s, |s| - 1)
  {
  }

  /** The first element satisfying `p`. */
  function FirstWhere<T>(s: seq<T>, p: T -> bool): (r: Optional<T>)
    ensures r.HasValue() <==> exists i :: 0 <= i < |s| && p(s[i])
    ensures r.HasValue() ==> exists i :: 0 <= i < |s| && p(s[i]) && s[i] == r.value &&
                                          forall j :: 0 <= j < i ==> !p(s[j])
  {
    if s == [] then Undefined
    else if p(s[0]) then ToOptional(s[0])
    else
      var r := FirstWhere(s[1..], p);
      assert forall i :: 0 < i < |s| ==> s[i] == s[1..][i - 1];
      if r.HasValue() then
        FirstWhereShift(s, p, r.value);
        r
      else
        r
  }

  lemma FirstWhereShift<T>(s: seq<T>, p: T -> bool, v: T)
    requires s != [] && !p(s[0])
    requires exists i :: 0 <= i < |s[1..]| && p(s[1..][i]) && s[1..][i] == v &&
                         forall j :: 0 <= j < i ==> !p(s[1..][j])
    ensures exists i :: 0 <= i < |s| && p(s[i]) && s[i] == v && forall j :: 0 <= j < i ==> !p(s[j])
  {
    var i :| 0 <= i < |s[1..]| && p(s[1..][i]) && s[1..][i] == v &&
             forall j :: 0 <= j < i ==> !p(s[1..][j]);
    forall j | 0 <= j < i + 1 ensures !p(s[j]) {
      if j > 0 { assert s[j] == s[1..][j - 1]; }
    }
  }

  /** The last element satisfying `p`. */
  function LastWhere<T>(s: seq<T>, p: T -> bool): Optional<T> {
    if s == [] then Undefined
    else if p(s[|s| - 1]) then ToOptional(s[|s| - 1])
    else LastWhere(s[..|s| - 1], p)
  }

  /** `LastOrNone(pred)` is defined exactly when some element satisfies `p`,
      and then holds the one no later element beats. */
  lemma {:induction false} LastWhereMeaning<T>(s: seq<T>, p: T -> bool)
    ensures LastWhere(s, p).HasValue() <==> exists i :: 0 <= i < |s| && p(s[i])
    ensures LastWhere(s, p).HasValue() ==>
              exists i :: 0 <= i < |s| && p(s[i]) && s[i] == LastWhere(s, p).value &&
                          forall j :: i < j < |s| ==> !p(s[j])
    decreases |s|
  {
    if s != [] && !p(s[|s| - 1]) {
      var init := s[..|s| - 1];
      LastWhereMeaning(init, p);
      assert forall i :: 0 <= i < |s| - 1 ==> s[i] == init[i];
    }
  }

  /** The element satisfying `p`, when it is the only one. */
  function SingleWhere<T>(s: seq<T>, p: T -> bool): (r: Optional<T>) {
    SingleOf(Filter(s, p))
  }

  /** `SingleOrNone(pred)` is defined exactly when one position satisfies `p`. */
  lemma {:induction false} SingleWhereExactlyOne<T>(s: seq<T>, p: T -> bool, i: int)
    requires 0 <= i < |s| && p(s[i])
    ensures SingleWhere(s, p) == Defined(s[i]) <==> forall j :: 0 <= j < |s| && j != i ==> !p(s[j])
    decreases |s|
  {
    var init := s[..|s| - 1];
    assert forall j :: 0 <= j < |s| - 1 ==> s[j] == init[j];
    if i == |s| - 1 {
      if forall j :: 0 <= j < |s| && j != i ==> !p(s[j]) {
        FilterNone(init, p);
      } else {
        var j :| 0 <= j < |s| && j != i && p(s[j]);
        assert init[j] in Filter(init, p);
      }
    } else {
      SingleWhereExactlyOne(init, p, i);
      if !p(s[|s| - 1]) {
        assert Filter(s, p) == Filter(init, p);
      } else {
        assert init[i] in Filter(init, p);
        assert |Filter(s, p)| >= 2;
      }
    }
  }

  /** With no element satisfying `p`, `SingleOrNone(pred)` is undefined. */
  lemma SingleWhereNone<T>(s: seq<T>, p: T -> bool)
    requires forall j :: 0 <= j < |s| ==> !p(s[j])
    ensures SingleWhere(s, p) == Undefined
  {
    FilterNone(s, p);
  }

  /** The predicate forms are the plain forms on the filtered sequence. */
  lemma {:induction false} LastWhereIsLastOfFilter<T>(s: seq<T>, p: T -> bool)
    ensures LastWhere(s, p) == LastOf(Filter(s, p))
    decreases |s|
  {
    if s != [] && !p(s[|s| - 1]) {
      LastWhereIsLastOfFilter(s[..|s| - 1], p);
    }
  }

  // ---- the operations ----

  function NullSource(): Exn {
    Raise(ArgumentNull, "source")
  }

  function NullPredicate(): Exn {
    Raise(ArgumentNull, "predicate")
  }

  /** `Values()`: the defined values, in order. */
  method Values<T>(source: Option<seq<Optional<T>>>) returns (r: Result<seq<T>, Exn>)
    ensures source.None? ==> r == Failure(NullSource())
    ensures source.Some? ==> r == Success(DefinedValues(source.value))
  {
    if source.None? {
      return Failure(NullSource());
    }
    var s := source.value;
    var values: seq<T> := [];
    for i := 0 to |s|
      invariant values == DefinedValues(s[..i])
    {
      assert s[..i + 1] == s[..i] + [s[i]];
      DefinedValuesConcat(s[..i], [s[i]]);
      if s[i].HasValue() {
        values := values + [s[i].value];
      }
    }
    assert s[..|s|] == s;
    return Success(values);
  }

  /** `FirstOrNone()`: the list path indexes, the enumerator path takes one step. */
  function FirstOrNone<T>(source: Option<seq<T>>): (r: Result<Optional<T>, Exn>)
    ensures source.None? ==> r == Failure(NullSource())
    ensures source.Some? ==> r == Success(FirstOf(source.value))
  {
    match source
    case None => Failure(NullSource())
    case Some(s) => Success(if |s| > 0 then ToOptional(s[0]) else Undefined)
  }

  /** `FirstOrNone(pred)`: the first match found walking forward. */
  method FirstOrNoneBy<T>(source: Option<seq<T>>, pred: Option<T -> bool>)
    returns (r: Result<Optional<T>, Exn>)
    ensures source.None? ==> r == Failure(NullSource())
    ensures source.Some? && pred.None? ==> r == Failure(NullPredicate())
    ensures source.Some? && pred.Some? ==> r == Success(FirstWhere(source.value, pred.value))
  {
    if source.None? {
      return Failure(NullSource());
    }
    if pred.None? {
      return Failure(NullPredicate());
    }
    var s, p := source.value, pred.value;
    for i := 0 to |s|
      invariant forall j :: 0 <= j < i ==> !p(s[j])
    {
      if p(s[i]) {
        return Success(ToOptional(s[i]));
      }
    }
    return Success(Undefined);
  }

  /** `LastOrNone()`: the list path indexes the end; the enumerator path walks
      to the end remembering the current element. */
  method LastOrNone<T>(source: Option<seq<T>>, isList: bool) returns (r: Result<Optional<T>, Exn>)
    ensures source.None? ==> r == Failure(NullSource())
    ensures source.Some? ==> r == Success(LastOf(source.value))
  {
    if source.None? {
      return Failure(NullSource());
    }
    var s := source.value;
    if isList {
      var count := |s|;
      if count > 0 {
        return Success(ToOptional(s[count - 1]));
      }
    } else if |s| > 0 {
      var result := s[0];
      var i := 1;
      while i < |s|
        invariant 1 <= i <= |s|
        invariant result == s[i - 1]
      {
        result := s[i];
        i := i + 1;
      }
      return Success(ToOptional(result));
    }
    return Success(Undefined);
  }

  /** `LastOrNone(pred)`: the list path walks backwards to the first match;
      the enumerator path finds a first match, then keeps the latest one. */
  method LastOrNoneBy<T>(source: Option<seq<T>>, pred: Option<T -> bool>, isList: bool)
    returns (r: Result<Optional<T>, Exn>)
    ensures source.None? ==> r == Failure(NullSource())
    ensures source.Some? && pred.None? ==> r == Failure(NullPredicate())
    ensures source.Some? && pred.Some? ==> r == Success(LastWhere(source.value, pred.value))
  {
    if source.None? {
      return Failure(NullSource());
    }
    if pred.None? {
      return Failure(NullPredicate());
    }
    var s, p := source.value, pred.value;
    if isList {
      var i := |s| - 1;
      assert s[..|s|] == s;
      while i >= 0
        invariant -1 <= i < |s|
        invariant LastWhere(s, p) == LastWhere(s[..i + 1], p)
      {
        LastWhereStep(s, i, p);
        if p(s[i]) {
          return Success(ToOptional(s[i]));
        }
        i := i - 1;
      }
    } else {
      var i := 0;
      while i < |s|
        invariant 0 <= i <= |s|
        invariant LastWhere(s[..i], p) == Undefined
      {
        var result := s[i];
        LastWhereStep(s, i, p);
        if p(result) {
          var k := i + 1;
          while k < |s|
            invariant i < k <= |s|
            invariant LastWhere(s[..k], p) == Defined(result)
          {
            LastWhereStep(s, k, p);
            if p(s[k]) {
              result := s[k];
            }
            k := k + 1;
          }
          assert s[..|s|] == s;
          return Success(ToOptional(result));
        }
        i := i + 1;
      }
      assert s[..|s|] == s;
    }
    return Success(Undefined);
  }

  lemma LastWhereStep<T>(s: seq<T>, k: int, p: T -> bool)
    requires 0 <= k < |s|
    ensures LastWhere(s[..k + 1], p) == if p(s[k]) then Defined(s[k]) else LastWhere(s[..k], p)
  {
    assert s[..k + 1][..k] == s[..k];
  }

  /** `SingleOrNone()`: the list path switches on the count; the enumerator
      path takes at most two steps. */
  function SingleOrNone<T>(source: Option<seq<T>>, isList: bool): (r: Result<Optional<T>, Exn>)
    ensures source.None? ==> r == Failure(NullSource())
    ensures source.Some? ==> r == Success(SingleOf(source.value))
  {
    match source
    case None => Failure(NullSource())
    case Some(s) =>
      if isList then
        Success(if |s| == 0 then Undefined else if |s| == 1 then ToOptional(s[0]) else Undefined)
      else if |s| < 1 then Success(Undefined)
      else if |s| < 2 then Success(ToOptional(s[0]))
      else Success(Undefined)
  }

  /** `SingleOrNone(pred)`: finds a first match, then gives up at a second one. */
  method SingleOrNoneBy<T>(source: Option<seq<T>>, pred: Option<T -> bool>)
    returns (r: Result<Optional<T>, Exn>)
    ensures source.None? ==> r == Failure(NullSource())
    ensures source.Some? && pred.None? ==> r == Failure(NullPredicate())
    ensures source.Some? && pred.Some? ==> r == Success(SingleWhere(source.value, pred.value))
  {
    if source.None? {
      return Failure(NullSource());
    }
    if pred.None? {
      return Failure(NullPredicate());
    }
    var s, p := source.value, pred.value;
    var i := 0;
    while i < |s|
      invariant 0 <= i <= |s|
      invariant forall j :: 0 <= j < i ==> !p(s[j])
    {
      var result := s[i];
      if p(result) {
        var k := i + 1;
        while k < |s|
          invariant i < k <= |s|
          invariant forall j :: i < j < k ==> !p(s[j])
        {
          if p(s[k]) {
            SingleWhereExactlyOne(s, p, i);
            return Success(Undefined);
          }
          k := k + 1;
        }
        SingleWhereExactlyOne(s, p, i);
        return Success(ToOptional(result));
      }
      i := i + 1;
    }
    SingleWhereNone(s, p);
    return Success(Undefined);
  }

  /** `ElementAtOrNone(index)`: the list path indexes; the enumerator path
      counts `index` down while stepping. */
  method ElementAtOrNone<T>(source: Option<seq<T>>, index: int, isList: bool)
    returns (r: Result<Optional<T>, Exn>)
    ensures source.None? ==> r == Failure(NullSource())
    ensures source.Some? ==> r == Success(ElementAtOf(source.value, index))
  {
    if source.None? {
      return Failure(NullSource());
    }
    var s := source.value;
    if index >= 0 {
      if isList {
        if index < |s| {
          return Success(ToOptional(s[index]));
        }
      } else {
        var remaining := index;
        var i := 0;
        while i < |s|
          invariant 0 <= i <= |s|
          invariant remaining == index - i && remaining >= 0
        {
          if remaining == 0 {
            return Success(ToOptional(s[i]));
          }
          remaining := remaining - 1;
          i := i + 1;
        }
      }
    }
    return Success(Undefined);
  }
}
