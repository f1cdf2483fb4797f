/** `FlatJsonExtension`: nesting an object whose keys are dotted paths
    (`ToNestedJson`), flattening a JSON tree into dotted paths
    (`DeserializeAndFlatten`), and two dictionary helpers.
    A JSON object is its property list; the `JObject` indexer replaces the
    value of an existing key in place and appends a new key at the end. */
module FlatJson {
  import opened Wrappers
  import opened Text
  import opened Json
  import opened Sorting
  import opened Exceptions
  import opened Values

  type Props = seq<(string, Json)>

  function KeyOf(p: (string, Json)): string { p.0 }

  /** `obj[key]` for reading: the value of `key`, if present. */
  function Lookup(props: Props, key: string): (r: Option<Json>)
    ensures r.Some? <==> exists i :: 0 <= i < |props| && props[i].0 == key
  {
    if props == [] then None
    else if props[0].0 == key then Some(props[0].1)
    else Lookup(props[1..], key)
  }

  /** `obj[key] = v` */
  function SetProp(props: Props, key: string, v: Json): (r: Props)
    ensures Lookup(r, key) == Some(v)
    ensures forall k :: k != key ==> Lookup(r, k) == Lookup(props, k)
    ensures Lookup(props, key).Some? ==> |r| == |props|
    ensures Lookup(props, key).None? ==> r == props + [(key, v)]
  {
    if props == [] then [(key, v)]
    else if props[0].0 == key then [(key, v)] + props[1..]
    else
      var r := [props[0]] + SetProp(props[1..], key, v);
      assert forall k :: Lookup(r, k) == if k == props[0].0 then Some(props[0].1) else Lookup(SetProp(props[1..], key, v), k);
      r
  }

  /** The value at a dotted path, descending through objects. */
  function GetPath(props: Props, path: seq<string>): Option<Json>
    requires |path| >= 1
    decreases |path|
  {
    match Lookup(props, path[0])
    case None => None
    case Some(v) =>
      if |path| == 1 then Some(v)
      else if v.JObj? then GetPath(v.props, path[1..])
      else None
  }

  const CastFailure := Raise(InvalidCast, "Unable to cast object of type 'JValue' to type 'JObject'.")

  /** The inner loop of `ConvertJObject` (lines 47-69), on values: walk `path`
      from the top object, reusing an existing object at each intermediate
      segment, creating an empty one where the segment is absent, and failing
      on the `(JObject)` cast where it holds anything else; the last segment
      is assigned. */
  function Put(props: Props, path: seq<string>, v: Json): (r: Result<Props, Exn>)
    requires |path| >= 1
    ensures r.Success? ==> GetPath(r.value, path) == Some(v)
    ensures r.Failure? ==> r.error == CastFailure
    decreases |path|
  {
    if |path| == 1 then Success(SetProp(props, path[0], v))
    else
      match Lookup(props, path[0])
      case None =>
        var inner :- Put([], path[1..], v);
        Success(SetProp(props, path[0], JObj(inner)))
      case Some(existing) =>
        if existing.JObj? then
          var inner :- Put(existing.props, path[1..], v);
          Success(SetProp(props, path[0], JObj(inner)))
        else Failure(CastFailure)
  }

  predicate IsPrefix(p: seq<string>, q: seq<string>) {
    |p| <= |q| && q[..|p|] == p
  }

  lemma PrefixOfHead(p: seq<string>, q: seq<string>)
    requires |p| >= 1 && |q| >= 1 && p[0] == q[0]
    ensures |p| == 1 ==> IsPrefix(p, q)
    ensures |p| > 1 && |q| > 1 ==> (IsPrefix(p[1..], q[1..]) <==> IsPrefix(p, q))
  {
    if |p| == 1 {
      assert q[..1] == [q[0]];
    }
    if |p| > 1 && |q| > 1 && |p| <= |q| {
      assert q[..|p|] == [q[0]] + q[1..][..|p| - 1];
      assert p == [p[0]] + p[1..];
    }
  }

  /** A write leaves every path alone that neither leads to nor extends the written one. */
  lemma {:induction false} PutPreserves(props: Props, path: seq<string>, v: Json, q: seq<string>)
    requires |path| >= 1 && |q| >= 1
    requires Put(props, path, v).Success?
    requires !IsPrefix(path, q) && !IsPrefix(q, path)
    ensures GetPath(Put(props, path, v).value, q) == GetPath(props, q)
    decreases |path|
  {
    var r := Put(props, path, v).value;
    if q[0] != path[0] {
      assert Lookup(r, q[0]) == Lookup(props, q[0]);
    } else {
      PrefixOfHead(path, q);
      PrefixOfHead(q, path);
      match Lookup(props, path[0])
      case None =>
        var inner := Put([], path[1..], v).value;
        assert Lookup(r, q[0]) == Some(JObj(inner));
        PutPreserves([], path[1..], v, q[1..]);
      case Some(existing) =>
        var inner := Put(existing.props, path[1..], v).value;
        assert Lookup(r, q[0]) == Some(JObj(inner));
        PutPreserves(existing.props, path[1..], v, q[1..]);
    }
  }

  // ---- ConvertJObject / ConvertArray as functions ----

  function PathOf(key: string): (r: seq<string>)
    ensures |r| >= 1
  {
    Split(key, {'.'})
  }

  /** `ConvertJObject`: the entries in key order, each value (arrays converted
      first) put at the path its key spells. */
  function NestObject(j: Json): (r: Result<Json, Exn>)
    requires j.JObj?
    ensures r.Success? ==> r.value.JObj?
    decreases j, 2
  {
    var sorted := SortBy(j.props, KeyOf);
    assert forall e | e in sorted :: e.1 < j by {
      forall e | e in sorted ensures e.1 < j {
        SortByMembers(j.props, KeyOf, e);
      }
    }
    var props :- NestEntries(sorted, [], j);
    Success(JObj(props))
  }

  /** The value actually stored for an entry: arrays are converted, everything else kept. */
  function EntryValue(value: Json, ghost outer: Json): Result<Json, Exn>
    requires value < outer
    decreases outer, 1, 0
  {
    if value.JArr? then NestArray(value) else Success(value)
  }

  function NestEntries(entries: Props, acc: Props, ghost outer: Json): (r: Result<Props, Exn>)
    requires forall e | e in entries :: e.1 < outer
    decreases outer, 1, |entries|
  {
    if entries == [] then Success(acc)
    else
      var value :- EntryValue(entries[0].1, outer);
      var acc' :- Put(acc, PathOf(entries[0].0), value);
      NestEntries(entries[1..], acc', outer)
  }

  /** `ConvertArray`: objects converted, every other element kept, same length and order. */
  function NestArray(a: Json): (r: Result<Json, Exn>)
    requires a.JArr?
    ensures r.Success? ==> r.value.JArr? && |r.value.items| == |a.items|
    decreases a, 2
  {
    var items :- NestItems(a.items, a);
    Success(JArr(items))
  }

  function NestItems(items: seq<Json>, ghost outer: Json): (r: Result<seq<Json>, Exn>)
    requires forall x | x in items :: x < outer
    ensures r.Success? ==> |r.value| == |items|
    ensures r.Success? ==> forall i :: 0 <= i < |items| && !items[i].JObj? ==> r.value[i] == items[i]
    ensures r.Success? ==> forall i :: 0 <= i < |items| && items[i].JObj? ==> r.value[i].JObj?
    decreases outer, 1, |items|
  {
    if items == [] then Success([])
    else
      assert items[0] in items;
      assert forall x | x in items[1..] :: x in items;
      var head :- if items[0].JObj? then NestObject(items[0]) else Success(items[0]);
      var tail :- NestItems(items[1..], outer);
      Success([head] + tail)
  }

  /** `ConvertJObject(input)`: the loop over the entries in key order; the
      walk down each path is `Put`. */
  method ConvertJObject(input: Json) returns (r: Result<Json, Exn>)
    requires input.JObj?
    ensures r == NestObject(input)
    decreases input, 2
  {
    var sorted := SortBy(input.props, KeyOf);
    assert forall e | e in sorted :: e.1 < input by {
      forall e | e in sorted ensures e.1 < input {
        SortByMembers(input.props, KeyOf, e);
      }
    }
    var result: Props := [];
    var i := 0;
    while i < |sorted|
      invariant 0 <= i <= |sorted|
      invariant NestEntries(sorted[i..], result, input) == NestEntries(sorted, [], input)
    {
      var key, value := sorted[i].0, sorted[i].1;
      assert sorted[i] in sorted;
      assert sorted[i..][0] == sorted[i];
      assert forall e | e in sorted[i..] :: e in sorted;
      NestEntriesHead(sorted[i..], result, input);
      if value.JArr? {
        var converted := ConvertArray(value);
        if converted.Failure? {
          return Failure(converted.error);
        }
        value := converted.value;
      }
      var placed := Put(result, PathOf(key), value);
      if placed.Failure? {
        return Failure(placed.error);
      }
      assert sorted[i..][1..] == sorted[i + 1..];
      result := placed.value;
      i := i + 1;
    }
    return Success(JObj(result));
  }

  /** The first entry of `NestEntries`: its value is converted and put at
      its path, and a failure of either is the result. */
  lemma NestEntriesHead(entries: Props, acc: Props, outer: Json)
    requires entries != [] && forall e | e in entries :: e.1 < outer
    ensures entries[0].1 < outer
    ensures EntryValue(entries[0].1, outer).Failure? ==>
      NestEntries(entries, acc, outer) == Failure(EntryValue(entries[0].1, outer).error)
    ensures EntryValue(entries[0].1, outer).Success? ==>
      NestEntries(entries, acc, outer) ==
        match Put(acc, PathOf(entries[0].0), EntryValue(entries[0].1, outer).value)
        case Failure(e) => Failure(e)
        case Success(a) => NestEntries(entries[1..], a, outer)
  {
    assert entries[0] in entries;
  }

  /** `done` put in front of a successful conversion of the rest. */
  function PrependDone(done: seq<Json>, rest: Result<seq<Json>, Exn>): Result<seq<Json>, Exn> {
    match rest
    case Success(t) => Success(done + t)
    case Failure(e) => Failure(e)
  }

  lemma NestItemsStep(items: seq<Json>, outer: Json, done: seq<Json>, head: Json)
    requires items != [] && forall x | x in items :: x < outer
    requires forall x | x in items[1..] :: x < outer
    requires (if items[0].JObj? then NestObject(items[0]) else Success(items[0])) == Success(head)
    ensures PrependDone(done, NestItems(items, outer)) == PrependDone(done + [head], NestItems(items[1..], outer))
  {
    assert items[0] in items;
    assert forall x | x in items[1..] :: x in items;
    match NestItems(items[1..], outer)
    case Success(t) =>
      assert done + ([head] + t) == (done + [head]) + t;
    case Failure(e) =>
  }

  lemma NestItemsHeadFails(items: seq<Json>, outer: Json, e: Exn)
    requires items != [] && forall x | x in items :: x < outer
    requires items[0].JObj? && NestObject(items[0]) == Failure(e)
    ensures NestItems(items, outer) == Failure(e)
  {
    assert items[0] in items;
  }

  /** `ConvertArray(array)`: each object element converted, every other element kept. */
  method ConvertArray(a: Json) returns (r: Result<Json, Exn>)
    requires a.JArr?
    ensures r == NestArray(a)
    decreases a, 2
  {
    var items := a.items;
    var resultArray: seq<Json> := [];
    var i := 0;
    assert items[0..] == items;
    match NestItems(items, a) {
      case Success(t) => assert [] + t == t;
      case Failure(_) =>
    }
    while i < |items|
      invariant 0 <= i <= |items|
      invariant NestItems(items, a) == PrependDone(resultArray, NestItems(items[i..], a))
    {
      var item := items[i];
      assert items[i..][0] == item && items[i..][1..] == items[i + 1..];
      assert forall x | x in items[i..] :: x in items;
      if item.JObj? {
        var converted := ConvertJObject(item);
        if converted.Failure? {
          NestItemsHeadFails(items[i..], a, converted.error);
          return Failure(converted.error);
        }
        item := converted.value;
      }
      NestItemsStep(items[i..], a, resultArray, item);
      resultArray := resultArray + [item];
      i := i + 1;
    }
    assert items[i..] == [];
    assert resultArray + [] == resultArray;
    return Success(JArr(resultArray));
  }

  /** Writes that come later in key order are the ones that stay visible: an
      entry's value can be read back at its path when no later entry's path
      leads to it or extends it. */
  lemma {:induction false} NestEntriesKeeps(entries: Props, acc: Props, outer: Json, k: int, v: Json)
    requires forall e | e in entries :: e.1 < outer
    requires NestEntries(entries, acc, outer).Success?
    requires 0 <= k < |entries| && EntryValue(entries[k].1, outer) == Success(v)
    requires forall m :: k < m < |entries| ==>
      !IsPrefix(PathOf(entries[k].0), PathOf(entries[m].0)) && !IsPrefix(PathOf(entries[m].0), PathOf(entries[k].0))
    ensures GetPath(NestEntries(entries, acc, outer).value, PathOf(entries[k].0)) == Some(v)
  {
    var value := EntryValue(entries[0].1, outer).value;
    var acc' := Put(acc, PathOf(entries[0].0), value).value;
    if k == 0 {
      LastWriteSurvives(entries[1..], acc', outer, PathOf(entries[0].0), v);
    } else {
      NestEntriesKeeps(entries[1..], acc', outer, k - 1, v);
    }
  }

  lemma {:induction false} LastWriteSurvives(entries: Props, acc: Props, outer: Json, path: seq<string>, v: Json)
    requires forall e | e in entries :: e.1 < outer
    requires NestEntries(entries, acc, outer).Success?
    requires |path| >= 1 && GetPath(acc, path) == Some(v)
    requires forall m :: 0 <= m < |entries| ==> !IsPrefix(path, PathOf(entries[m].0)) && !IsPrefix(PathOf(entries[m].0), path)
    ensures GetPath(NestEntries(entries, acc, outer).value, path) == Some(v)
  {
    if entries != [] {
      var value := EntryValue(entries[0].1, outer).value;
      PutPreserves(acc, PathOf(entries[0].0), value, path);
      var acc' := Put(acc, PathOf(entries[0].0), value).value;
      LastWriteSurvives(entries[1..], acc', outer, path, v);
    }
  }

  /** When a path segment before the last already holds a value that is not
      an object, the cast fails. */
  lemma PutThroughScalarFails(props: Props, seg: string, rest: seq<string>, v: Json)
    requires rest != [] && Lookup(props, seg).Some? && !Lookup(props, seg).value.JObj?
    ensures Put(props, [seg] + rest, v) == Failure(CastFailure)
  {
  }

  /** What `ToNestedJson` returns: the converted token (its `ToString()` text,
      whose indentation is not modelled) or the input text unchanged. */
  datatype NestedText = Rendered(token: Json) | Verbatim(text: string)

  /** `ToNestedJson(input)`: text that does not parse throws; objects and
      arrays are converted; any other JSON text is returned as it came. */
  function ToNestedJson(input: string, parse: Parser): (r: Result<NestedText, Exn>)
    ensures parse(input).None? ==> r.Failure? && r.error.kind == JsonReader
    ensures parse(input).Some? && !IsContainer(parse(input).value) ==> r == Success(Verbatim(input))
    ensures r.Success? && r.value.Rendered? ==> r.value.token.JObj? == parse(input).value.JObj?
  {
    match parse(input)
    case None => Failure(Raise(JsonReader, "Unexpected character encountered while parsing value."))
    case Some(token) =>
      if token.JObj? then
        var o :- NestObject(token);
        Success(Rendered(o))
      else if token.JArr? then
        var a :- NestArray(token);
        Success(Rendered(a))
      else Success(Verbatim(input))
  }

  lemma DottedPath(a: string, b: string)
    requires |a| == 1 && |b| == 1 && a[0] != '.' && b[0] != '.'
    ensures PathOf(a + "." + b) == [a, b]
  {
    SplitAt(a, '.', b, {'.'});
    SplitWord(b, {'.'});
  }

  /** `{"a.b": 1, "a.c": 2}` nests to `{"a": {"b": 1, "c": 2}}`. */
  lemma NestExample()
    ensures NestObject(JObj([("a.b", JNum(1)), ("a.c", JNum(2))]))
         == Success(JObj([("a", JObj([("b", JNum(1)), ("c", JNum(2))]))]))
  {
    NestExampleSorted();
    NestExampleEntries();
  }

  lemma NestExampleSorted()
    ensures SortBy([("a.b", JNum(1)), ("a.c", JNum(2))], KeyOf) == [("a.b", JNum(1)), ("a.c", JNum(2))]
  {
    assert LexLe("a.b", "a.c");
  }

  lemma NestExampleEntries()
    ensures var j := JObj([("a.b", JNum(1)), ("a.c", JNum(2))]);
      NestEntries(j.props, [], j) == Success([("a", JObj([("b", JNum(1)), ("c", JNum(2))]))])
  {
    var j := JObj([("a.b", JNum(1)), ("a.c", JNum(2))]);
    var first: Props := [("a", JObj([("b", JNum(1))]))];
    var both: Props := [("a", JObj([("b", JNum(1)), ("c", JNum(2))]))];
    NestExampleFirst();
    NestExampleLast();
    assert j.props[0] == ("a.b", JNum(1));
    assert EntryValue(JNum(1), j) == Success(JNum(1));
  }

  lemma NestExampleLast()
    ensures var j := JObj([("a.b", JNum(1)), ("a.c", JNum(2))]);
      NestEntries(j.props[1..], [("a", JObj([("b", JNum(1))]))], j) == Success([("a", JObj([("b", JNum(1)), ("c", JNum(2))]))])
  {
    var j := JObj([("a.b", JNum(1)), ("a.c", JNum(2))]);
    var both: Props := [("a", JObj([("b", JNum(1)), ("c", JNum(2))]))];
    NestExampleSecond();
    assert j.props[1..][0] == ("a.c", JNum(2));
    assert EntryValue(JNum(2), j) == Success(JNum(2));
    assert NestEntries([], both, j) == Success(both);
  }

  lemma NestExampleFirst()
    ensures Put([], PathOf("a.b"), JNum(1)) == Success([("a", JObj([("b", JNum(1))]))])
  {
    DottedPath("a", "b");
    var path := ["a", "b"];
    assert path[1..] == ["b"];
    assert Put([], ["b"], JNum(1)) == Success([("b", JNum(1))]);
    assert Put([], path, JNum(1)) == Success(SetProp([], "a", JObj([("b", JNum(1))])));
  }

  lemma NestExampleSecond()
    ensures Put([("a", JObj([("b", JNum(1))]))], PathOf("a.c"), JNum(2))
         == Success([("a", JObj([("b", JNum(1)), ("c", JNum(2))]))])
  {
    DottedPath("a", "c");
    var path := ["a", "c"];
    assert path[1..] == ["c"];
    assert Lookup([("a", JObj([("b", JNum(1))]))], "a") == Some(JObj([("b", JNum(1))]));
    assert Lookup([("b", JNum(1))], "c") == None;
    assert SetProp([("b", JNum(1))], "c", JNum(2)) == [("b", JNum(1)), ("c", JNum(2))];
    assert Put([("b", JNum(1))], ["c"], JNum(2)) == Success(SetProp([("b", JNum(1))], "c", JNum(2)));
    var both := JObj([("b", JNum(1)), ("c", JNum(2))]);
    assert SetProp([("a", JObj([("b", JNum(1))]))], "a", both) == [("a", both)];
  }

  /** `{"a": 1, "a.b": 2}`: "a" sorts first and holds a number when "a.b" is placed, so the cast fails. */
  lemma NestBlockedExample()
    ensures NestObject(JObj([("a.b", JNum(2)), ("a", JNum(1))])) == Failure(CastFailure)
  {
    var j := JObj([("a.b", JNum(2)), ("a", JNum(1))]);
    var sorted: Props := [("a", JNum(1)), ("a.b", JNum(2))];
    assert LexLe("a", "a.b");
    assert !LexLe("a.b", "a");
    assert SortBy(j.props, KeyOf) == sorted;
    SplitWord("a", {'.'});
    DottedPath("a", "b");
    assert Put([], ["a"], JNum(1)) == Success([("a", JNum(1))]);
    assert Put([("a", JNum(1))], ["a", "b"], JNum(2)) == Failure(CastFailure);
    assert NestEntries(sorted[1..], [("a", JNum(1))], j) == Failure(CastFailure);
  }

  // ---- flattening ----

  /** `Join(prefix, name)` */
  function JoinPath(prefix: string, name: string): (r: string)
    ensures prefix == "" ==> r == name
    ensures prefix != "" ==> r == prefix + "." + name
  {
    if prefix == "" then name else prefix + "." + name
  }

  /** The reference flattening: each scalar of the tree, in document order,
      paired with the `.`-joined path of property names and array indices
      leading to it. Empty objects and arrays contribute nothing. */
  function Leaves(j: Json, prefix: string): (r: seq<(string, Json)>)
    decreases j, 1
  {
    match j
    case JObj(props) => PropLeaves(props, prefix, j)
    case JArr(items) => ItemLeaves(items, prefix, 0, j)
    case _ => [(prefix, j)]
  }

  function PropLeaves(props: seq<(string, Json)>, prefix: string, ghost outer: Json): seq<(string, Json)>
    requires forall p | p in props :: p.1 < outer
    decreases outer, 0, |props|
  {
    if props == [] then []
    else
      assert props[0] in props;
      assert forall p | p in props[1..] :: p in props;
      Leaves(props[0].1, JoinPath(prefix, props[0].0)) + PropLeaves(props[1..], prefix, outer)
  }

  function ItemLeaves(items: seq<Json>, prefix: string, index: nat, ghost outer: Json): seq<(string, Json)>
    requires forall x | x in items :: x < outer
    decreases outer, 0, |items|
  {
    if items == [] then []
    else
      assert items[0] in items;
      assert forall x | x in items[1..] :: x in items;
      Leaves(items[0], JoinPath(prefix, NatToString(index))) + ItemLeaves(items[1..], prefix, index + 1, outer)
  }

  /** `dict.Add(key, value)`: a key already present throws. */
  function Add(dict: Props, key: string, value: Json): (r: Result<Props, Exn>)
    ensures r.Failure? <==> Lookup(dict, key).Some?
    ensures r.Success? ==> r.value == dict + [(key, value)]
  {
    if Lookup(dict, key).Some? then Failure(Raise(Argument, "An item with the same key has already been added."))
    else Success(dict + [(key, value)])
  }

  /** Adds the pairs one after another, failing at the first repeated key. */
  function AddAll(dict: Props, pairs: seq<(string, Json)>): Result<Props, Exn>
    decreases |pairs|
  {
    if pairs == [] then Success(dict)
    else
      var d :- Add(dict, pairs[0].0, pairs[0].1);
      AddAll(d, pairs[1..])
  }

  lemma {:induction false} AddAllConcat(dict: Props, a: seq<(string, Json)>, b: seq<(string, Json)>)
    ensures AddAll(dict, a + b) == (match AddAll(dict, a) case Success(d) => AddAll(d, b) case Failure(e) => Failure(e))
    decreases |a|
  {
    if a == [] {
      assert a + b == b;
    } else {
      assert (a + b)[1..] == a[1..] + b;
      match Add(dict, a[0].0, a[0].1)
      case Failure(_) =>
      case Success(d) => AddAllConcat(d, a[1..], b);
    }
  }

  /** `FillDictionaryFromJToken(dict, token, prefix)`: objects recurse into
      each property, arrays into each element with its index as the name,
      and anything else is added under `prefix`. */
  function Fill(dict: Props, token: Json, prefix: string): Result<Props, Exn>
    decreases token, 1
  {
    match token
    case JObj(props) => FillProps(dict, props, prefix, token)
    case JArr(items) => FillItems(dict, items, prefix, 0, token)
    case _ => Add(dict, prefix, token)
  }

  function FillProps(dict: Props, props: seq<(string, Json)>, prefix: string, ghost outer: Json): Result<Props, Exn>
    requires forall p | p in props :: p.1 < outer
    decreases outer, 0, |props|
  {
    if props == [] then Success(dict)
    else
      var d :- Fill(dict, props[0].1, JoinPath(prefix, props[0].0));
      FillProps(d, props[1..], prefix, outer)
  }

  function FillItems(dict: Props, items: seq<Json>, prefix: string, index: nat, ghost outer: Json): Result<Props, Exn>
    requires forall x | x in items :: x < outer
    decreases outer, 0, |items|
  {
    if items == [] then Success(dict)
    else
      assert items[0] in items;
      assert forall x | x in items[1..] :: x in items;
      var d :- Fill(dict, items[0], JoinPath(prefix, NatToString(index)));
      FillItems(d, items[1..], prefix, index + 1, outer)
  }

  /** Filling adds exactly the leaves of the tree, in document order, and
      fails exactly when a leaf's path is already in the dictionary. */
  lemma {:induction false} FillIsAddAll(dict: Props, token: Json, prefix: string)
    ensures Fill(dict, token, prefix) == AddAll(dict, Leaves(token, prefix))
    decreases token, 1
  {
    match token
    case JObj(props) => FillPropsIsAddAll(dict, props, prefix, token);
    case JArr(items) => FillItemsIsAddAll(dict, items, prefix, 0, token);
    case _ =>
  }

  lemma {:induction false} FillPropsIsAddAll(dict: Props, props: seq<(string, Json)>, prefix: string, outer: Json)
    requires forall p | p in props :: p.1 < outer
    ensures FillProps(dict, props, prefix, outer) == AddAll(dict, PropLeaves(props, prefix, outer))
    decreases outer, 0, |props|
  {
    if props != [] {
      assert props[0] in props;
      assert forall p | p in props[1..] :: p in props;
      var name := JoinPath(prefix, props[0].0);
      FillIsAddAll(dict, props[0].1, name);
      AddAllConcat(dict, Leaves(props[0].1, name), PropLeaves(props[1..], prefix, outer));
      match Fill(dict, props[0].1, name)
      case Failure(_) =>
      case Success(d) => FillPropsIsAddAll(d, props[1..], prefix, outer);
    }
  }

  lemma {:induction false} FillItemsIsAddAll(dict: Props, items: seq<Json>, prefix: string, index: nat, outer: Json)
    requires forall x | x in items :: x < outer
    ensures FillItems(dict, items, prefix, index, outer) == AddAll(dict, ItemLeaves(items, prefix, index, outer))
    decreases outer, 0, |items|
  {
    if items != [] {
      assert items[0] in items;
      assert forall x | x in items[1..] :: x in items;
      var name := JoinPath(prefix, NatToString(index));
      FillIsAddAll(dict, items[0], name);
      AddAllConcat(dict, Leaves(items[0], name), ItemLeaves(items[1..], prefix, index + 1, outer));
      match Fill(dict, items[0], name)
      case Failure(_) =>
      case Success(d) => FillItemsIsAddAll(d, items[1..], prefix, index + 1, outer);
    }
  }

  /** `DeserializeAndFlatten(json)`: blank (or null) text gives an empty
      dictionary; otherwise the parsed tree is flattened from the empty prefix. */
  function DeserializeAndFlatten(json: Option<string>, parse: Parser): (r: Result<Props, Exn>)
    ensures json.None? || Blank(json.value) ==> r == Success([])
    ensures json.Some? && !Blank(json.value) && parse(json.value).None? ==> r.Failure? && r.error.kind == JsonReader
  {
    if json.None? || Blank(json.value) then Success([])
    else
      match parse(json.value)
      case None => Failure(Raise(JsonReader, "Unexpected character encountered while parsing value."))
      case Some(token) => Fill([], token, "")
  }

  /** Only leaves are added: no value in the flattened dictionary is an object or an array. */
  lemma {:induction false} LeavesAreScalars(j: Json, prefix: string)
    ensures forall p | p in Leaves(j, prefix) :: !IsContainer(p.1)
    decreases j, 1
  {
    match j
    case JObj(props) => PropLeavesAreScalars(props, prefix, j);
    case JArr(items) => ItemLeavesAreScalars(items, prefix, 0, j);
    case _ =>
  }

  lemma {:induction false} PropLeavesAreScalars(props: seq<(string, Json)>, prefix: string, outer: Json)
    requires forall p | p in props :: p.1 < outer
    ensures forall p | p in PropLeaves(props, prefix, outer) :: !IsContainer(p.1)
    decreases outer, 0, |props|
  {
    if props != [] {
      assert props[0] in props;
      assert forall p | p in props[1..] :: p in props;
      LeavesAreScalars(props[0].1, JoinPath(prefix, props[0].0));
      PropLeavesAreScalars(props[1..], prefix, outer);
    }
  }

  lemma {:induction false} ItemLeavesAreScalars(items: seq<Json>, prefix: string, index: nat, outer: Json)
    requires forall x | x in items :: x < outer
    ensures forall p | p in ItemLeaves(items, prefix, index, outer) :: !IsContainer(p.1)
    decreases outer, 0, |items|
  {
    if items != [] {
      assert items[0] in items;
      assert forall x | x in items[1..] :: x in items;
      LeavesAreScalars(items[0], JoinPath(prefix, NatToString(index)));
      ItemLeavesAreScalars(items[1..], prefix, index + 1, outer);
    }
  }

  /** `{"a": {"b": 1, "c": [true]}}` flattens to `a.b` and `a.c.0`. */
  lemma FlattenExample()
    ensures Fill([], JObj([("a", JObj([("b", JNum(1)), ("c", JArr([JBool(true)]))]))]), "")
         == Success([("a.b", JNum(1)), ("a.c.0", JBool(true))])
  {
    FillIsAddAll([], JObj([("a", JObj([("b", JNum(1)), ("c", JArr([JBool(true)]))]))]), "");
    ExampleLeaves();
    ExampleAddAll();
  }

  /** The leaves of the tree of `FlattenExample`. */
  lemma ExampleLeaves()
    ensures Leaves(JObj([("a", JObj([("b", JNum(1)), ("c", JArr([JBool(true)]))]))]), "")
         == [("a.b", JNum(1)), ("a.c.0", JBool(true))]
  {
    var c := JArr([JBool(true)]);
    var a := JObj([("b", JNum(1)), ("c", c)]);
    var j := JObj([("a", a)]);
    ExampleArrayLeaves();
    assert PropLeaves(a.props[2..], "a", a) == [];
    assert JoinPath("a", "c") == "a.c";
    assert PropLeaves(a.props[1..], "a", a) == [("a.c.0", JBool(true))];
    assert JoinPath("a", "b") == "a.b";
    assert Leaves(JNum(1), "a.b") == [("a.b", JNum(1))];
    assert Leaves(a, "a") == [("a.b", JNum(1)), ("a.c.0", JBool(true))];
    assert PropLeaves(j.props[1..], "", j) == [];
    assert Leaves(j, "") == Leaves(a, "a");
  }

  /** The leaves of the array `[true]` of `FlattenExample`. */
  lemma ExampleArrayLeaves()
    ensures Leaves(JArr([JBool(true)]), "a.c") == [("a.c.0", JBool(true))]
  {
    var c := JArr([JBool(true)]);
    assert NatToString(0) == "0";
    assert ItemLeaves(c.items[1..], "a.c", 1, c) == [];
    assert JoinPath("a.c", NatToString(0)) == "a.c.0";
    assert Leaves(JBool(true), "a.c.0") == [("a.c.0", JBool(true))];
  }

  /** The leaves of `FlattenExample` have distinct paths, so all are added. */
  lemma ExampleAddAll()
    ensures AddAll([], [("a.b", JNum(1)), ("a.c.0", JBool(true))]) == Success([("a.b", JNum(1)), ("a.c.0", JBool(true))])
  {
    assert Lookup([("a.b", JNum(1))], "a.c.0") == None;
    assert AddAll([("a.b", JNum(1)), ("a.c.0", JBool(true))], []) == Success([("a.b", JNum(1)), ("a.c.0", JBool(true))]);
    var one: Props := [("a.b", JNum(1))];
    var last: seq<(string, Json)> := [("a.c.0", JBool(true))];
    assert Add(one, "a.c.0", JBool(true)) == Success(one + last);
    assert last[1..] == [];
    assert AddAll(one + last, []) == Success(one + last);
    assert one + last == [("a.b", JNum(1)), ("a.c.0", JBool(true))];
    assert AddAll(one, last) == Success([("a.b", JNum(1)), ("a.c.0", JBool(true))]);
    var pairs: Props := [("a.b", JNum(1)), ("a.c.0", JBool(true))];
    assert pairs[1..] == [("a.c.0", JBool(true))];
    var empty: Props := [];
    assert Lookup(empty, "a.b") == None;
    var r := Add(empty, pairs[0].0, pairs[0].1);
    assert r.value == [("a.b", JNum(1))];
    assert AddAll(empty, pairs) == AddAll(r.value, pairs[1..]);
  }

  /** A repeated path throws: `{"": {"x": 1}, "x": 2}` yields `x` twice. */
  lemma FlattenDuplicateExample()
    ensures Fill([], JObj([("", JObj([("x", JNum(1))])), ("x", JNum(2))]), "").Failure?
  {
    var inner := JObj([("x", JNum(1))]);
    var j := JObj([("", inner), ("x", JNum(2))]);
    FillIsAddAll([], j, "");
    assert PropLeaves(inner.props[1..], "", inner) == [];
    assert Leaves(inner, "") == [("x", JNum(1))];
    assert PropLeaves(j.props[2..], "", j) == [];
    assert PropLeaves(j.props[1..], "", j) == [("x", JNum(2))];
    assert Leaves(j, "") == [("x", JNum(1)), ("x", JNum(2))];
    assert Add([("x", JNum(1))], "x", JNum(2)).Failure?;
  }

  // ---- dictionary helpers ----

  /** `AddIfNotContains(source, key, value)` on an insertion-ordered dictionary. */
  function AddIfNotContains<K(==), V>(source: Option<seq<(K, V)>>, key: K, value: V): (r: Result<(bool, seq<(K, V)>), Exn>)
    ensures source.None? ==> r.Failure? && r.error.kind == ArgumentNull
    ensures source.Some? && (exists i :: 0 <= i < |source.value| && source.value[i].0 == key) ==> r == Success((false, source.value))
    ensures source.Some? && (forall i :: 0 <= i < |source.value| ==> source.value[i].0 != key) ==> r == Success((true, source.value + [(key, value)]))
  {
    match source
    case None => Failure(Raise(ArgumentNull, "source"))
    case Some(d) =>
      if exists i :: 0 <= i < |d| && d[i].0 == key then Success((false, d)) else Success((true, d + [(key, value)]))
  }

  /** `ToDatabaseFormat(dict)`: `"{key} {value}"` per entry, in dictionary order. */
  function ToDatabaseFormat(dict: seq<(string, Obj)>): (r: seq<string>)
    ensures |r| == |dict|
    ensures forall i :: 0 <= i < |dict| ==> r[i] == dict[i].0 + " " + ToText(dict[i].1)
  {
    seq(|dict|, i requires 0 <= i < |dict| => dict[i].0 + " " + ToText(dict[i].1))
  }
}
