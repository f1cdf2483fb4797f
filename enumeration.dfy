/** `Enumeration<TEnum>`: a closed set of options, each with a string `Code`
    and a `Name`. The options declared on the enumeration's types are given
    as a sequence; they are sorted by code and indexed by code, once
    ordinally and once ignoring case. */
module Enumerations {
  import opened Wrappers
  import opened Text
  import opened Sorting
  import opened Exceptions
  import opened StringExtension

  datatype Entry = Entry(code: string, name: string)

  function CodeOf(e: Entry): string { e.code }

  /** `GetAllOptions()`: the declared options ordered by code. */
  function AllOptions(declared: seq<Entry>): (r: seq<Entry>)
    ensures multiset(r) == multiset(declared)
    ensures SortedBy(r, CodeOf)
  {
    SortBySorted(declared, CodeOf);
    SortBy(declared, CodeOf)
  }

  /** The key a code is filed under: itself, or its upper-case form for the
      `OrdinalIgnoreCase` table. */
  function KeyOf(ignoreCase: bool, code: string): string {
    if ignoreCase then Upper(code) else code
  }

  predicate DistinctKeys(options: seq<Entry>, ignoreCase: bool) {
    forall i, j :: 0 <= i < j < |options| ==> KeyOf(ignoreCase, options[i].code) != KeyOf(ignoreCase, options[j].code)
  }

  const DuplicateKey := Raise(Argument, "An item with the same key has already been added.")

  /** `ToDictionary(item => item.Code[, comparer])`: the options in order, or
      the duplicate-key error when two codes collide. */
  function ToTable(options: seq<Entry>, ignoreCase: bool): (r: Result<seq<Entry>, Exn>)
    ensures r.Success? <==> DistinctKeys(options, ignoreCase)
    ensures r.Success? ==> r.value == options
    ensures r.Failure? ==> r.error == DuplicateKey
  {
    if options == [] then Success([])
    else
      var init := options[..|options| - 1];
      var last := options[|options| - 1];
      assert forall i :: 0 <= i < |init| ==> init[i] == options[i];
      var table :- ToTable(init, ignoreCase);
      if Find(table, last.code, ignoreCase).Some? then Failure(DuplicateKey)
      else
        assert options == table + [last];
        Success(table + [last])
  }

  /** `dictionary.TryGetValue(code, out result)`. */
  function Find(table: seq<Entry>, code: string, ignoreCase: bool): (r: Option<Entry>)
    ensures r.Some? <==> exists i :: 0 <= i < |table| && KeyOf(ignoreCase, table[i].code) == KeyOf(ignoreCase, code)
    ensures r.Some? ==> r.value in table && KeyOf(ignoreCase, r.value.code) == KeyOf(ignoreCase, code)
  {
    if table == [] then None
    else if KeyOf(ignoreCase, table[0].code) == KeyOf(ignoreCase, code) then Some(table[0])
    else
      assert forall i :: 0 < i < |table| ==> table[i] == table[1..][i - 1];
      Find(table[1..], code, ignoreCase)
  }

  /** `GetOrNull(code, ignoreCase)`: nothing for a blank or unknown code. */
  function GetOrNull(declared: seq<Entry>, code: Option<string>, ignoreCase: bool): (r: Result<Option<Entry>, Exn>)
    ensures IsNullOrWhiteSpace(code) ==> r == Success(None)
    ensures r.Success? && r.value.Some? ==> r.value.value in declared
  {
    if IsNullOrWhiteSpace(code) then Success(None)
    else
      var table :- ToTable(AllOptions(declared), ignoreCase);
      var found := Find(table, code.value, ignoreCase);
      assert found.Some? ==> found.value in multiset(declared);
      Success(found)
  }

  /** `Get(code, ignoreCase)`: like `GetOrNull`, but a blank or unknown code
      throws `ArgumentException`; `typeFullName` and `typeName` are what the
      messages print for `typeof(TEnum)` and its `Name`. */
  function Get(declared: seq<Entry>, code: Option<string>, ignoreCase: bool, typeFullName: string, typeName: string)
    : (r: Result<Entry, Exn>)
    ensures IsNullOrWhiteSpace(code) ==> r.Failure? && r.error.kind == Argument
    ensures !IsNullOrWhiteSpace(code) && ToTable(AllOptions(declared), ignoreCase).Failure? ==> r == Failure(DuplicateKey)
  {
    if IsNullOrWhiteSpace(code) then
      Failure(Raise(Argument, "Error when convert value " + code.GetOr("") + " to " + typeFullName))
    else
      var table :- ToTable(AllOptions(declared), ignoreCase);
      match Find(table, code.value, ignoreCase)
      case None => Failure(Raise(Argument, "Error when convert value '" + code.value + "' to " + typeName))
      case Some(result) => Success(result)
  }

  /** `Get` returns what `GetOrNull` finds, and throws `ArgumentException`
      exactly where `GetOrNull` finds nothing. */
  lemma GetAgreesWithGetOrNull(declared: seq<Entry>, code: Option<string>, ignoreCase: bool, typeFullName: string, typeName: string)
    ensures GetOrNull(declared, code, ignoreCase).Success? ==>
              (GetOrNull(declared, code, ignoreCase).value.None? <==>
               Get(declared, code, ignoreCase, typeFullName, typeName).Failure?)
    ensures GetOrNull(declared, code, ignoreCase).Failure? ==>
              Get(declared, code, ignoreCase, typeFullName, typeName) == Failure(GetOrNull(declared, code, ignoreCase).error)
    ensures forall e :: GetOrNull(declared, code, ignoreCase) == Success(Some(e)) <==>
                        Get(declared, code, ignoreCase, typeFullName, typeName) == Success(e)
  {
  }

  /** With distinct codes, every option is found by its own code, whichever table is used. */
  lemma {:induction false} GetOrNullFindsOption(declared: seq<Entry>, e: Entry, code: string, ignoreCase: bool)
    requires DistinctKeys(AllOptions(declared), ignoreCase)
    requires e in declared && !Blank(code)
    requires KeyOf(ignoreCase, code) == KeyOf(ignoreCase, e.code)
    ensures GetOrNull(declared, Some(code), ignoreCase) == Success(Some(e))
  {
    var table := AllOptions(declared);
    assert e in multiset(table);
    var i :| 0 <= i < |table| && table[i] == e;
    FindDistinct(table, i, code, ignoreCase);
    assert ToTable(table, ignoreCase) == Success(table);
  }

  /** In a table of distinct keys, the entry filed under a key is the one found for it. */
  lemma FindDistinct(table: seq<Entry>, i: nat, code: string, ignoreCase: bool)
    requires DistinctKeys(table, ignoreCase) && i < |table|
    requires KeyOf(ignoreCase, code) == KeyOf(ignoreCase, table[i].code)
    ensures Find(table, code, ignoreCase) == Some(table[i])
  {
    var found := Find(table, code, ignoreCase);
    var j :| 0 <= j < |table| && table[j] == found.value;
    assert KeyOf(ignoreCase, table[j].code) == KeyOf(ignoreCase, table[i].code);
  }

  /** A code no option carries is not found. */
  lemma GetOrNullUnknown(declared: seq<Entry>, code: string, ignoreCase: bool)
    requires DistinctKeys(AllOptions(declared), ignoreCase) && !Blank(code)
    requires forall e | e in declared :: KeyOf(ignoreCase, e.code) != KeyOf(ignoreCase, code)
    ensures GetOrNull(declared, Some(code), ignoreCase) == Success(None)
  {
    var table := AllOptions(declared);
    assert forall x | x in table :: x in multiset(declared);
  }

  lemma UpperBlank(s: string)
    ensures Blank(Upper(s)) <==> Blank(s)
  {
    assert forall i :: 0 <= i < |s| ==> (IsWhiteSpace(Upper(s)[i]) <==> IsWhiteSpace(s[i]));
  }

  /** The case-insensitive lookup does not see the case of the code it is given. */
  lemma IgnoreCaseLookup(declared: seq<Entry>, code: string)
    ensures GetOrNull(declared, Some(code), true) == GetOrNull(declared, Some(Upper(code)), true)
    ensures GetOrNull(declared, Some(code), true) == GetOrNull(declared, Some(Lower(code)), true)
  {
    UpperIdempotent(code);
    UpperBlank(code);
    UpperBlank(Lower(code));
    UpperOfLower(code);
    SameKeySameLookup(declared, code, Upper(code), true);
    SameKeySameLookup(declared, code, Lower(code), true);
  }

  /** Two non-blank codes filed under the same key look up alike. */
  lemma SameKeySameLookup(declared: seq<Entry>, a: string, b: string, ignoreCase: bool)
    requires KeyOf(ignoreCase, a) == KeyOf(ignoreCase, b)
    requires Blank(a) == Blank(b)
    ensures GetOrNull(declared, Some(a), ignoreCase) == GetOrNull(declared, Some(b), ignoreCase)
  {
    SameKeySameFind(AllOptions(declared), a, b, ignoreCase);
  }

  lemma SameKeySameFind(table: seq<Entry>, a: string, b: string, ignoreCase: bool)
    requires KeyOf(ignoreCase, a) == KeyOf(ignoreCase, b)
    ensures Find(table, a, ignoreCase) == Find(table, b, ignoreCase)
  {
    if table != [] {
      SameKeySameFind(table[1..], a, b, ignoreCase);
    }
  }

  lemma UpperOfLower(s: string)
    ensures Upper(Lower(s)) == Upper(s)
  {
    assert forall i :: 0 <= i < |s| ==> UpperChar(LowerChar(s[i])) == UpperChar(s[i]);
  }

  /** `List`: the values of the ordinal table. */
  function List(declared: seq<Entry>): (r: Result<seq<Entry>, Exn>)
    ensures r.Success? <==> DistinctKeys(AllOptions(declared), false)
    ensures r.Success? ==> multiset(r.value) == multiset(declared) && SortedBy(r.value, CodeOf)
  {
    ToTable(AllOptions(declared), false)
  }

  // ---- equality, ordering and rendering ----

  /** `Equals(other)`: the same instance, or a non-null option with the same code. */
  function Equals(self: Entry, other: Option<Entry>): (r: bool)
    ensures other.None? ==> !r
    ensures other.Some? ==> (r <==> self.code == other.value.code)
  {
    if other == Some(self) then true
    else if other.None? then false
    else self.code == other.value.code
  }

  /** `left == right`: null equals only null. */
  function OpEquals(left: Option<Entry>, right: Option<Entry>): (r: bool)
    ensures left.None? ==> (r <==> right.None?)
    ensures left.Some? && right.Some? ==> (r <==> left.value.code == right.value.code)
    ensures left.Some? && right.None? ==> !r
  {
    if left.None? then right.None? else Equals(left.value, right)
  }

  /** `==` between options is an equivalence and `!=` is its negation. */
  lemma OpEqualsEquivalence(a: Option<Entry>, b: Option<Entry>, c: Option<Entry>)
    ensures OpEquals(a, a)
    ensures OpEquals(a, b) == OpEquals(b, a)
    ensures OpEquals(a, b) && OpEquals(b, c) ==> OpEquals(a, c)
  {
  }

  /** `GetHashCode()`: the code's hash, so equal options hash alike. */
  function GetHashCode(self: Entry, hash: string -> int): int {
    hash(self.code)
  }

  lemma EqualsHashCode(a: Entry, b: Entry, hash: string -> int)
    requires Equals(a, Some(b))
    ensures GetHashCode(a, hash) == GetHashCode(b, hash)
  {
  }

  /** `string.Compare(a, b, StringComparison.Ordinal)`, as a sign. */
  function CompareOrdinal(a: string, b: string): (r: int)
    ensures r == 0 <==> a == b
    ensures r <= 0 <==> LexLe(a, b)
    ensures -1 <= r <= 1
  {
    if a == b then (LexLeRefl(a); 0)
    else if LexLe(a, b) then -1
    else (LexLeTotal(a, b); 1)
  }

  /** `CompareTo(other)`: ordinal order of the codes; a null `other` throws. */
  function CompareTo(self: Entry, other: Option<Entry>): (r: Result<int, Exn>)
    ensures other.None? ==> r.Failure? && r.error.kind == NullReference
    ensures other.Some? ==> r.Success? && (r.value == 0 <==> Equals(self, other))
    ensures other.Some? ==> r.Success? && (r.value <= 0 <==> LexLe(self.code, other.value.code))
  {
    match other
    case None => Failure(Raise(NullReference, "Object reference not set to an instance of an object."))
    case Some(o) => Success(CompareOrdinal(self.code, o.code))
  }

  /** `CompareTo` is antisymmetric in sign. */
  lemma CompareToAntisymmetric(a: Entry, b: Entry)
    ensures CompareTo(a, Some(b)).value == -CompareTo(b, Some(a)).value
  {
    if a.code != b.code {
      if LexLe(a.code, b.code) && LexLe(b.code, a.code) {
        LexLeAntisym(a.code, b.code);
      }
      LexLeTotal(a.code, b.code);
    }
  }

  /** `ToString()` and the implicit conversion to `string`. */
  function ToString(self: Entry): (r: string)
    ensures Equals(self, Some(Entry(r, self.name)))
  {
    self.code
  }

  /** The explicit conversion from `string` is `Get(code)` with the ordinal
      table, and it returns an option from its own rendering. */
  lemma ToStringRoundTrip(declared: seq<Entry>, e: Entry, typeFullName: string, typeName: string)
    requires DistinctKeys(AllOptions(declared), false)
    requires e in declared && !Blank(e.code)
    ensures Get(declared, Some(ToString(e)), false, typeFullName, typeName) == Success(e)
  {
    GetOrNullFindsOption(declared, e, e.code, false);
    GetAgreesWithGetOrNull(declared, Some(e.code), false, typeFullName, typeName);
  }
}
