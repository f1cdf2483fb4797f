/** Name derivation for Data Vault entities: a .NET type is described by its
    name and by which of the marker interfaces (`IDvEntity`, `IDvHubEntity`,
    `IDvLinkEntity`) it implements. */
module EntityHelper {
  import opened Wrappers
  import opened Text
  import opened StringFormat
  import StringExtension

  const DvEntityPrefix := "Dv"
  const HubTableNamePrefix := "HUB_"
  const HubPropertyPrefix := "Hub"
  const LinkTableNamePrefix := "LNK_"
  const LinkPropertyPrefix := "Lnk"
  const PKColumnNamePrefix := "PK_"
  const PKColumnNamePostfix := "_ID"
  const BKColumnNamePrefix := "BK_"

  /** A .NET type as far as naming is concerned; the generic (`<TEntity>`) and
      `Type` overloads of every function below take this same description. */
  datatype TypeInfo = TypeInfo(name: string, isEntity: bool, isHub: bool, isLink: bool)

  /** `IDvHubEntity` and `IDvLinkEntity` both extend `IDvEntity`. */
  predicate WellFormed(t: TypeInfo) {
    (t.isHub || t.isLink) ==> t.isEntity
  }

  /** `GetEntityName`: empty for a non-entity, otherwise the type name with
      every `Dv` removed. */
  function GetEntityName(t: TypeInfo): (r: string)
    ensures !t.isEntity ==> r == ""
    ensures t.isEntity && !Contains(t.name, DvEntityPrefix) ==> r == t.name
    ensures |r| <= |t.name|
  {
    if !t.isEntity then ""
    else
      ReplaceAbsent(t.name, DvEntityPrefix, "");
      RemovedShorter(t.name, DvEntityPrefix);
      ReplaceAll(t.name, DvEntityPrefix, "")
  }

  lemma {:induction false} RemovedShorter(s: string, p: string)
    requires |p| > 0
    ensures |ReplaceAll(s, p, "")| <= |s|
    decreases |s|
  {
    if |s| >= |p| {
      if s[..|p|] == p {
        RemovedShorter(s[|p|..], p);
      } else {
        RemovedShorter(s[1..], p);
      }
    }
  }

  /** Not just the prefix: an inner `Dv` is removed as well. */
  lemma EntityNameRemovesEveryDv(t: TypeInfo)
    requires t.isEntity && t.name == "DvOrderDvItem"
    ensures GetEntityName(t) == "OrderItem"
  {
    OrderItemLetters();
    RemovesBothPrefixes("Order", "Item");
  }

  lemma OrderItemLetters()
    ensures DvEntityPrefix + "Order" + (DvEntityPrefix + "Item") == "DvOrderDvItem"
    ensures "Order" + "Item" == "OrderItem"
    ensures forall i :: 0 <= i < |"Order"| ==> "Order"[i] != DvEntityPrefix[0]
    ensures forall i :: 0 <= i < |"Item"| ==> "Item"[i] != DvEntityPrefix[0]
  {
  }

  /** `Dv` in front of two words without a `D` is removed from both. */
  lemma RemovesBothPrefixes(a: string, b: string)
    requires forall i :: 0 <= i < |a| ==> a[i] != DvEntityPrefix[0]
    requires forall i :: 0 <= i < |b| ==> b[i] != DvEntityPrefix[0]
    ensures ReplaceAll(DvEntityPrefix + a + (DvEntityPrefix + b), DvEntityPrefix, "") == a + b
  {
    RemovesPrefixBefore(a, DvEntityPrefix + b);
    RemovesPrefixBefore(b, "");
    assert DvEntityPrefix + b + "" == DvEntityPrefix + b;
    assert ReplaceAll("", DvEntityPrefix, "") == "";
    assert b + "" == b;
  }

  /** `Dv` in front of a word without a `D` is removed, and the rest scanned on. */
  lemma RemovesPrefixBefore(a: string, rest: string)
    requires forall i :: 0 <= i < |a| ==> a[i] != DvEntityPrefix[0]
    ensures ReplaceAll(DvEntityPrefix + a + rest, DvEntityPrefix, "") == a + ReplaceAll(rest, DvEntityPrefix, "")
  {
    var p := DvEntityPrefix;
    assert p + a + rest == p + (a + rest);
    ReplacePrefix(p, a + rest, "");
    ReplaceSkip(a, rest, p, "");
  }

  /** `GetDbEntityName`: upper(underscore(entity name)). */
  function GetDbEntityName(t: TypeInfo): (r: string)
    ensures |r| >= |GetEntityName(t)|
    ensures forall i :: 0 <= i < |r| ==> !IsLower(r[i])
  {
    Upper(ToUnderscoreCase(GetEntityName(t)))
  }

  /** `GetEntityUniqueSequenceName`: no underscore insertion here. */
  function GetEntityUniqueSequenceName(t: TypeInfo): (r: string)
    ensures r == "SEQ-" + Upper(GetEntityName(t))
    ensures |r| == 4 + |GetEntityName(t)|
  {
    "SEQ-" + Upper(GetEntityName(t))
  }

  /** `GetDbTableName`: the hub test comes first. */
  function GetDbTableName(t: TypeInfo): (r: string)
    ensures t.isHub ==> r == HubTableNamePrefix + GetDbEntityName(t)
    ensures !t.isHub && t.isLink ==> r == LinkTableNamePrefix + GetDbEntityName(t)
    ensures !t.isHub && !t.isLink ==> r == ""
  {
    if t.isHub then HubTableNamePrefix + GetDbEntityName(t)
    else if t.isLink then LinkTableNamePrefix + GetDbEntityName(t)
    else ""
  }

  /** `GetPKColumnName` */
  function GetPKColumnName(t: TypeInfo): (r: string)
    ensures |r| == |GetDbEntityName(t)| + 6
    ensures StartsWith(r, PKColumnNamePrefix) && EndsWith(r, PKColumnNamePostfix)
    ensures r[3..|r| - 3] == GetDbEntityName(t)
  {
    PKColumnNamePrefix + GetDbEntityName(t) + PKColumnNamePostfix
  }

  /** `GetBKColumnName` */
  function GetBKColumnName(t: TypeInfo): (r: string)
    ensures |r| == |GetDbEntityName(t)| + 10
    ensures StartsWith(r, BKColumnNamePrefix) && EndsWith(r, "_NUMBER")
    ensures r[3..|r| - 7] == GetDbEntityName(t)
  {
    BKColumnNamePrefix + GetDbEntityName(t) + "_NUMBER"
  }

  /** `GetHubPropertyName` */
  function GetHubPropertyName(t: TypeInfo): (r: string)
    ensures StartsWith(r, HubPropertyPrefix) && r[3..] == GetEntityName(t)
  {
    HubPropertyPrefix + GetEntityName(t)
  }

  /** `NormalizeTableName`: blank (or null) gives "", anything else is upper-cased. */
  function NormalizeTableName(tableIdentifier: Option<string>): (r: string)
    ensures StringExtension.IsNullOrWhiteSpace(tableIdentifier) ==> r == ""
    ensures !StringExtension.IsNullOrWhiteSpace(tableIdentifier) ==> r == Upper(tableIdentifier.value) && !Blank(r)
  {
    if StringExtension.IsNullOrWhiteSpace(tableIdentifier) then ""
    else
      var s := tableIdentifier.value;
      var k :| 0 <= k < |s| && !IsWhiteSpace(s[k]);
      assert !IsWhiteSpace(Upper(s)[k]);
      Upper(s)
  }

  lemma NormalizeTableNameIdempotent(x: Option<string>)
    ensures NormalizeTableName(Some(NormalizeTableName(x))) == NormalizeTableName(x)
  {
    if !StringExtension.IsNullOrWhiteSpace(x) {
      UpperIdempotent(x.value);
    }
  }

  /** `GetLookupTableName`: the raw type name, `Dv` not removed, so it is the
      database entity name whenever the name holds no `Dv`. */
  function GetLookupTableName(t: TypeInfo): (r: string)
    ensures |r| >= |t.name|
    ensures forall i :: 0 <= i < |r| ==> !IsLower(r[i])
    ensures t.isEntity && !Contains(t.name, DvEntityPrefix) ==> r == GetDbEntityName(t)
  {
    Upper(ToUnderscoreCase(t.name))
  }

  /** Type names of the conventional shape: an upper-case letter, then letters and digits. */
  predicate PascalName(s: string) {
    s != [] && IsUpper(s[0]) && forall i :: 0 <= i < |s| ==> IsUpper(s[i]) || IsLower(s[i]) || IsDigit(s[i])
  }

  function DbNameTailInverse(t: string): string
    decreases |t|
  {
    if t == [] then []
    else if t[0] == '_' && |t| > 1 then [t[1]] + DbNameTailInverse(t[2..])
    else [LowerChar(t[0])] + DbNameTailInverse(t[1..])
  }

  lemma {:induction false} DbNameTailRoundTrip(x: string)
    requires forall i :: 0 <= i < |x| ==> IsUpper(x[i]) || IsLower(x[i]) || IsDigit(x[i])
    ensures DbNameTailInverse(Upper(UnderscoreTail(x))) == x
  {
    if x != [] {
      DbNameTailRoundTrip(x[1..]);
      DbNameTailInverseStep(x[0], UnderscoreTail(x[1..]));
      assert UnderscoreTail(x) == (if IsUpper(x[0]) then ['_', x[0]] else [x[0]]) + UnderscoreTail(x[1..]);
      assert x == [x[0]] + x[1..];
    }
  }

  /** One character of `DbNameTailRoundTrip`: the upper-cased underscore
      form of a letter or digit reads back as that character. */
  lemma DbNameTailInverseStep(c: char, rest: string)
    requires IsUpper(c) || IsLower(c) || IsDigit(c)
    ensures DbNameTailInverse(Upper((if IsUpper(c) then ['_', c] else [c]) + rest)) == [c] + DbNameTailInverse(Upper(rest))
  {
    var head := if IsUpper(c) then ['_', c] else [c];
    UpperConcat(head, rest);
    var t := Upper(head + rest);
    assert t == Upper(head) + Upper(rest);
    if IsUpper(c) {
      assert t[2..] == Upper(rest);
    } else {
      assert t[1..] == Upper(rest);
      assert t[0] != '_' && LowerChar(t[0]) == c;
    }
  }

  /** On conventional type names the database name loses nothing: two such
      names with the same database name are the same name. */
  lemma DbNameInjectiveOnPascalNames(a: string, b: string)
    requires PascalName(a) && PascalName(b)
    requires Upper(ToUnderscoreCase(a)) == Upper(ToUnderscoreCase(b))
    ensures a == b
  {
    var ta, tb := Upper(ToUnderscoreCase(a)), Upper(ToUnderscoreCase(b));
    UpperConcat([a[0]], UnderscoreTail(a[1..]));
    UpperConcat([b[0]], UnderscoreTail(b[1..]));
    assert ta[1..] == Upper(UnderscoreTail(a[1..]));
    assert tb[1..] == Upper(UnderscoreTail(b[1..]));
    DbNameTailRoundTrip(a[1..]);
    DbNameTailRoundTrip(b[1..]);
    assert a == [a[0]] + a[1..] && b == [b[0]] + b[1..];
  }

  /** Outside that shape the database name is not injective: `AB` and `A_b`
      both become `A_B`. */
  lemma DbNameCollision(a: string, b: string)
    requires a == "AB" && b == "A_b"
    ensures a != b && Upper(ToUnderscoreCase(a)) == Upper(ToUnderscoreCase(b)) == "A_B"
  {
    assert ToUnderscoreCase(a) == "A" + UnderscoreTail("B");
    assert UnderscoreTail("B") == "_B" + UnderscoreTail([]);
    assert ToUnderscoreCase(b) == "A" + UnderscoreTail("_b");
    assert UnderscoreTail("_b") == "_" + UnderscoreTail("b");
    assert UnderscoreTail("b") == "b" + UnderscoreTail([]);
  }
}
