/** LINQ helpers over sequences; a `null` enumerable is `None`, a `null`
    element produced by a projection is `None`. */
module EnumerableExtension {
  import opened Wrappers
  import opened Text
  import Optionals

  /** `items.Select(f).Where(x => x != null)` */
  function SelectNonNull<S, R>(items: seq<S>, f: S -> Option<R>): (r: seq<R>)
    ensures |r| <= |items|
    ensures forall k :: 0 <= k < |r| ==> exists j :: 0 <= j < |items| && f(items[j]) == Some(r[k])
  {
    if items == [] then []
    else
      var rest := SelectNonNull(items[1..], f);
      var r := (if f(items[0]).Some? then [f(items[0]).value] else []) + rest;
      assert forall k :: 0 <= k < |rest| ==> exists j :: 0 <= j < |items| && f(items[j]) == Some(rest[k]) by {
        forall k | 0 <= k < |rest|
          ensures exists j :: 0 <= j < |items| && f(items[j]) == Some(rest[k])
        {
          var j :| 0 <= j < |items[1..]| && f(items[1..][j]) == Some(rest[k]);
          assert items[j + 1] == items[1..][j];
        }
      }
      r
  }

  /** Order is kept: converting one more element appends its converted value, if any. */
  lemma {:induction false} SelectNonNullAppend<S, R>(items: seq<S>, x: S, f: S -> Option<R>)
    ensures SelectNonNull(items + [x], f) ==
      SelectNonNull(items, f) + (if f(x).Some? then [f(x).value] else [])
  {
    if items != [] {
      assert (items + [x])[1..] == items[1..] + [x];
      SelectNonNullAppend(items[1..], x, f);
    }
  }

  lemma {:induction false} SelectNonNullAll<S, R>(items: seq<S>, f: S -> Option<R>)
    requires forall j :: 0 <= j < |items| ==> f(items[j]).Some?
    ensures |SelectNonNull(items, f)| == |items|
    ensures forall j :: 0 <= j < |items| ==> SelectNonNull(items, f)[j] == f(items[j]).value
  {
    if items != [] {
      SelectNonNullAll(items[1..], f);
    }
  }

  /** `ConvertArray`/`ConvertList` over a possibly-null enumerable: the list and
      array forms return the same elements. */
  function ConvertArray<S, R>(items: Option<seq<S>>, f: S -> Option<R>): (r: seq<R>)
    ensures items.None? ==> r == []
    ensures items.Some? ==> r == SelectNonNull(items.value, f)
  {
    if items.None? then [] else SelectNonNull(items.value, f)
  }

  /** The overloads on `Optional<T[]>`: an undefined or null array converts to empty. */
  function ConvertOptionalArray<S, R>(items: Optionals.Optional<Option<seq<S>>>, f: S -> Option<R>): (r: seq<R>)
    ensures items.Undefined? ==> r == []
    ensures items.Defined? ==> r == ConvertArray(items.value, f)
  {
    match items
    case Undefined => []
    case Defined(v) => ConvertArray(v, f)
  }

  function NonBlank(values: seq<string>): (r: seq<string>)
    ensures |r| <= |values|
    ensures forall k :: 0 <= k < |r| ==> !Blank(r[k])
  {
    if values == [] then []
    else (if Blank(values[0]) then [] else [values[0]]) + NonBlank(values[1..])
  }

  lemma {:induction false} NonBlankAppend(values: seq<string>, x: string)
    ensures NonBlank(values + [x]) == NonBlank(values) + (if Blank(x) then [] else [x])
  {
    if values != [] {
      assert (values + [x])[1..] == values[1..] + [x];
      NonBlankAppend(values[1..], x);
    }
  }

  /** `JoinNotEmpty(values, sep)`: blank items are skipped, `sep` only between kept items. */
  function JoinNotEmpty(values: seq<string>, sep: string): string {
    Join(sep, NonBlank(values))
  }

  /** Adding an item at the end: a blank one changes nothing, the first kept
      one is the whole result, any later one is joined by `sep`. */
  lemma JoinNotEmptyAppend(values: seq<string>, x: string, sep: string)
    ensures JoinNotEmpty(values + [x], sep) ==
      if Blank(x) then JoinNotEmpty(values, sep)
      else if NonBlank(values) == [] then x
      else JoinNotEmpty(values, sep) + sep + x
  {
    NonBlankAppend(values, x);
    if !Blank(x) {
      if NonBlank(values) == [] {
        assert NonBlank(values + [x]) == [x];
      } else {
        JoinAppend(sep, NonBlank(values), x);
      }
    } else {
      assert NonBlank(values + [x]) == NonBlank(values);
    }
  }

  lemma {:induction false} NonBlankAllBlank(values: seq<string>)
    requires forall k :: 0 <= k < |values| ==> Blank(values[k])
    ensures NonBlank(values) == []
  {
    if values != [] {
      NonBlankAllBlank(values[1..]);
    }
  }

  /** All-blank or empty input gives the empty string. */
  lemma JoinNotEmptyAllBlank(values: seq<string>, sep: string)
    requires forall k :: 0 <= k < |values| ==> Blank(values[k])
    ensures JoinNotEmpty(values, sep) == ""
  {
    NonBlankAllBlank(values);
  }

  lemma {:induction false} NonBlankNoneBlank(values: seq<string>)
    requires forall k :: 0 <= k < |values| ==> !Blank(values[k])
    ensures NonBlank(values) == values
  {
    if values != [] {
      NonBlankNoneBlank(values[1..]);
    }
  }

  lemma {:induction false} JoinEmptySeparator(parts: seq<string>)
    ensures Join("", parts) == Concat(parts)
  {
    if |parts| > 1 {
      JoinEmptySeparator(parts[1..]);
    }
  }

  /** `JoinNotEmpty()` is `JoinNotEmpty("")`: the kept items concatenated. */
  function JoinNotEmptyConcat(values: seq<string>): (r: string)
    ensures r == Concat(NonBlank(values))
  {
    JoinEmptySeparator(NonBlank(values));
    JoinNotEmpty(values, "")
  }

  /** `IsNullOrEmpty` */
  predicate IsNullOrEmpty<T>(source: Option<seq<T>>) {
    source.None? || |source.value| == 0
  }

  /** `EmptyIfNull` */
  function EmptyIfNull<T>(source: Option<seq<T>>): (r: seq<T>)
    ensures source.None? ==> r == []
    ensures source.Some? ==> r == source.value
    ensures r == [] <==> IsNullOrEmpty(source)
  {
    if source.None? then [] else source.value
  }

  /** The elements `DistinctBy` keeps from `items` once the keys in `seen` are taken. */
  function FirstPerKey<T, K>(items: seq<T>, key: T -> K, seen: set<K>): seq<T> {
    if items == [] then []
    else if key(items[0]) in seen then FirstPerKey(items[1..], key, seen)
    else [items[0]] + FirstPerKey(items[1..], key, seen + {key(items[0])})
  }

  /** `x` is the first element of `items` that has its key. */
  ghost predicate FirstWithItsKey<T, K>(items: seq<T>, key: T -> K, x: T) {
    exists j :: 0 <= j < |items| && items[j] == x && (forall i :: 0 <= i < j ==> key(items[i]) != key(x))
  }

  /** Some element of `r` has key `k`. */
  ghost predicate HasKey<T, K>(r: seq<T>, key: T -> K, k: K) {
    exists m :: 0 <= m < |r| && key(r[m]) == k
  }

  lemma {:induction false} FirstPerKeyFresh<T, K>(items: seq<T>, key: T -> K, seen: set<K>)
    ensures forall k :: 0 <= k < |FirstPerKey(items, key, seen)| ==> key(FirstPerKey(items, key, seen)[k]) !in seen
    ensures forall a, b :: 0 <= a < b < |FirstPerKey(items, key, seen)| ==>
      key(FirstPerKey(items, key, seen)[a]) != key(FirstPerKey(items, key, seen)[b])
  {
    if items != [] {
      if key(items[0]) in seen {
        FirstPerKeyFresh(items[1..], key, seen);
      } else {
        FirstPerKeyFresh(items[1..], key, seen + {key(items[0])});
      }
    }
  }

  /** Every kept element is the first one in `items` with its key. */
  lemma {:induction false} FirstPerKeyFirst<T, K>(items: seq<T>, key: T -> K, seen: set<K>)
    ensures forall k :: 0 <= k < |FirstPerKey(items, key, seen)| ==>
      FirstWithItsKey(items, key, FirstPerKey(items, key, seen)[k])
  {
    if items != [] {
      var r := FirstPerKey(items, key, seen);
      var seen' := if key(items[0]) in seen then seen else seen + {key(items[0])};
      var rest := FirstPerKey(items[1..], key, seen');
      assert r == if key(items[0]) in seen then rest else [items[0]] + rest;
      FirstPerKeyFirst(items[1..], key, seen');
      FirstPerKeyFresh(items[1..], key, seen');
      forall k | 0 <= k < |r|
        ensures FirstWithItsKey(items, key, r[k])
      {
        if key(items[0]) !in seen && k == 0 {
          assert items[0] == r[0];
        } else {
          var k' := if key(items[0]) in seen then k else k - 1;
          assert r[k] == rest[k'];
          assert FirstWithItsKey(items[1..], key, rest[k']);
          var j :| 0 <= j < |items[1..]| && items[1..][j] == rest[k'] &&
            (forall i :: 0 <= i < j ==> key(items[1..][i]) != key(rest[k']));
          assert items[j + 1] == r[k];
          assert key(rest[k']) !in seen';
          forall i | 0 <= i < j + 1
            ensures key(items[i]) != key(r[k])
          {
            if i > 0 {
              assert items[i] == items[1..][i - 1];
            }
          }
        }
      }
    }
  }

  /** Every key of `items` outside `seen` is represented in the output. */
  lemma {:induction false} FirstPerKeyCovers<T, K>(items: seq<T>, key: T -> K, seen: set<K>)
    ensures forall j :: 0 <= j < |items| && key(items[j]) !in seen ==>
      HasKey(FirstPerKey(items, key, seen), key, key(items[j]))
  {
    if items != [] {
      var r := FirstPerKey(items, key, seen);
      var seen' := if key(items[0]) in seen then seen else seen + {key(items[0])};
      var rest := FirstPerKey(items[1..], key, seen');
      assert r == if key(items[0]) in seen then rest else [items[0]] + rest;
      FirstPerKeyCovers(items[1..], key, seen');
      forall j | 0 <= j < |items| && key(items[j]) !in seen
        ensures HasKey(r, key, key(items[j]))
      {
        if key(items[j]) == key(items[0]) {
          assert key(r[0]) == key(items[0]);
        } else {
          assert items[j] == items[1..][j - 1];
          assert HasKey(rest, key, key(items[1..][j - 1]));
          var k :| 0 <= k < |rest| && key(rest[k]) == key(items[1..][j - 1]);
          var k2 := if key(items[0]) in seen then k else k + 1;
          assert r[k2] == rest[k];
        }
      }
    }
  }

  lemma FirstPerKeyStep<T, K>(items: seq<T>, x: T, key: T -> K, seen: set<K>)
    ensures FirstPerKey([x] + items, key, seen) ==
      if key(x) in seen then FirstPerKey(items, key, seen) else [x] + FirstPerKey(items, key, seen + {key(x)})
  {
    assert ([x] + items)[1..] == items;
  }

  /** `DistinctBy(source, key)`: the loop over `source` with a set of seen keys. */
  method DistinctBy<T, K(==)>(source: seq<T>, key: T -> K) returns (r: seq<T>)
    ensures r == FirstPerKey(source, key, {})
  {
    var seenKeys: set<K> := {};
    r := [];
    var i := 0;
    while i < |source|
      invariant 0 <= i <= |source|
      invariant r + FirstPerKey(source[i..], key, seenKeys) == FirstPerKey(source, key, {})
    {
      var element := source[i];
      assert source[i..] == [element] + source[i + 1..];
      FirstPerKeyStep(source[i + 1..], element, key, seenKeys);
      if key(element) !in seenKeys {
        seenKeys := seenKeys + {key(element)};
        r := r + [element];
      }
      i := i + 1;
    }
  }

  /** What the source promises of `DistinctBy`: no two kept elements share a key,
      every key is kept, and what is kept is each key's first element. */
  lemma DistinctByProperties<T, K>(source: seq<T>, key: T -> K)
    ensures var r := FirstPerKey(source, key, {});
      (forall a, b :: 0 <= a < b < |r| ==> key(r[a]) != key(r[b])) &&
      (forall j :: 0 <= j < |source| ==> HasKey(r, key, key(source[j]))) &&
      (forall k :: 0 <= k < |r| ==> FirstWithItsKey(source, key, r[k]))
  {
    FirstPerKeyFresh(source, key, {});
    FirstPerKeyCovers(source, key, {});
    FirstPerKeyFirst(source, key, {});
  }
}
