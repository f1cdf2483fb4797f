/** `StringConvertExtensions`: safe conversions from a possibly-null string.
    A null or unparseable text gives the target type's zero. Numbers are read
    with the invariant culture's symbols (`.` and `,`); `decimal` is an
    exact `real` bounded by `decimal.MaxValue`. */
module StringConvert {
  import opened Wrappers
  import opened Text
  import Exceptions

  // ---- booleans ----

  /** What `bool.TryParse` strips besides white space. */
  predicate IsWhiteSpaceOrNull(c: char) { IsWhiteSpace(c) || c == '\0' }

  function TrimWhiteSpaceAndNull(s: string): (r: string)
    ensures |r| <= |s|
    decreases |s|
  {
    if |s| > 0 && IsWhiteSpaceOrNull(s[0]) then TrimWhiteSpaceAndNull(s[1..])
    else if |s| > 0 && IsWhiteSpaceOrNull(s[|s| - 1]) then TrimWhiteSpaceAndNull(s[..|s| - 1])
    else s
  }

  /** `bool.TryParse`: "True" or "False" in any case, padded or not. */
  function TryParseBool(s: string): (r: Option<bool>)
    ensures r.Some? <==> Lower(TrimWhiteSpaceAndNull(s)) in {"true", "false"}
    ensures r.Some? ==> (r.value <==> Lower(TrimWhiteSpaceAndNull(s)) == "true")
  {
    var t := Lower(TrimWhiteSpaceAndNull(s));
    if t == "true" then Some(true) else if t == "false" then Some(false) else None
  }

  /** The words `ToBoolean` reads as true once `bool.TryParse` has failed. */
  const TrueWords: set<string> := {"t", "true", "y", "yes", "1", "x", "on"}

  /** `ToBoolean()`: false for null; otherwise what `bool.TryParse` reads, or
      else whether the trimmed text is one of the true words, ignoring case. */
  function ToBoolean(value: Option<string>): (r: bool)
    ensures value.None? ==> !r
    ensures value.Some? && TryParseBool(value.value).Some? ==> r == TryParseBool(value.value).value
    ensures value.Some? && TryParseBool(value.value).None? ==> (r <==> Lower(Trim(value.value)) in TrueWords)
  {
    match value
    case None => false
    case Some(v) =>
      match TryParseBool(v)
      case Some(b) => b
      case None => Lower(Trim(v)) in TrueWords
  }

  /** Text without padding converts to true exactly when it is a true word,
      in any case; `bool.TryParse` already accepts "true" and rejects "false". */
  lemma ToBooleanUnpadded(v: string)
    requires v != [] && !IsWhiteSpaceOrNull(v[0]) && !IsWhiteSpaceOrNull(v[|v| - 1])
    ensures ToBoolean(Some(v)) <==> Lower(v) in TrueWords
  {
    assert TrimWhiteSpaceAndNull(v) == v;
    TrimUnchanged(v);
  }

  // ---- integers ----

  /** White space `NumberStyles.AllowLeadingWhite`/`AllowTrailingWhite` skip. */
  predicate IsNumberWhite(c: char) { c == ' ' || '\t' <= c <= '\r' }

  function TrimNumberWhite(s: string): (r: string)
    ensures |r| <= |s|
    ensures r == [] || (!IsNumberWhite(r[0]) && !IsNumberWhite(r[|r| - 1]))
    ensures (forall i :: 0 <= i < |s| ==> !IsNumberWhite(s[i])) ==> r == s
    decreases |s|
  {
    if |s| > 0 && IsNumberWhite(s[0]) then TrimNumberWhite(s[1..])
    else if |s| > 0 && IsNumberWhite(s[|s| - 1]) then TrimNumberWhite(s[..|s| - 1])
    else s
  }

  predicate AllDigits(s: string) {
    forall i :: 0 <= i < |s| ==> IsDigit(s[i])
  }

  /** The integral types the `To*` conversions produce. */
  datatype IntegralType = Byte | Int16 | Int32 | Int64 | UInt16 | UInt32 | UInt64

  function MinValue(t: IntegralType): int {
    match t
    case Byte => 0
    case Int16 => -0x8000
    case Int32 => -0x8000_0000
    case Int64 => -0x8000_0000_0000_0000
    case UInt16 => 0
    case UInt32 => 0
    case UInt64 => 0
  }

  function MaxValue(t: IntegralType): int {
    match t
    case Byte => 0xFF
    case Int16 => 0x7FFF
    case Int32 => 0x7FFF_FFFF
    case Int64 => 0x7FFF_FFFF_FFFF_FFFF
    case UInt16 => 0xFFFF
    case UInt32 => 0xFFFF_FFFF
    case UInt64 => 0xFFFF_FFFF_FFFF_FFFF
  }

  /** An optionally signed run of digits, after white space is trimmed. */
  function ParseSignedDigits(s: string): Option<int> {
    var u := TrimNumberWhite(s);
    var negative := |u| > 0 && u[0] == '-';
    var digits := if |u| > 0 && (u[0] == '-' || u[0] == '+') then u[1..] else u;
    if digits == [] || !AllDigits(digits) then None
    else Some(if negative then 0 - DigitsToNat(digits) else DigitsToNat(digits))
  }

  /** Decimal text of any integer reads back as that integer. */
  lemma ParseSignedDigitsOfIntToString(n: int)
    ensures ParseSignedDigits(IntToString(n)) == Some(n)
  {
    var m: nat := if n < 0 then -n else n;
    DigitsToNatOfNatToString(m);
    if n < 0 {
      assert IntToString(n) == "-" + NatToString(m);
      ParseNegativeDigits(NatToString(m));
    } else {
      assert IntToString(n) == NatToString(m);
      ParseDigits(NatToString(m));
    }
  }

  /** A bare run of digits reads back as its value. */
  lemma ParseDigits(digits: string)
    requires digits != [] && AllDigits(digits)
    ensures ParseSignedDigits(digits) == Some(DigitsToNat(digits))
  {
    assert TrimNumberWhite(digits) == digits by {
      assert forall i :: 0 <= i < |digits| ==> !IsNumberWhite(digits[i]);
    }
    assert IsDigit(digits[0]);
  }

  /** A minus sign and a run of digits read back as the negated value. */
  lemma ParseNegativeDigits(digits: string)
    requires digits != [] && AllDigits(digits)
    ensures ParseSignedDigits("-" + digits) == Some(0 - DigitsToNat(digits))
  {
    var s := "-" + digits;
    assert TrimNumberWhite(s) == s by {
      assert forall i :: 0 <= i < |s| ==> !IsNumberWhite(s[i]) by {
        assert forall i :: 1 <= i < |s| ==> s[i] == digits[i - 1];
      }
    }
    assert s[0] == '-' && s[1..] == digits;
  }

  /** `T.TryParse(s, NumberStyles.Integer, ...)`: optional white space around
      an optionally signed run of digits, within the type's range. */
  function TryParseIntegral(s: string, t: IntegralType): (r: Option<int>)
    ensures r.Some? ==> MinValue(t) <= r.value <= MaxValue(t)
    ensures r.Some? <==> ParseSignedDigits(s).Some? && MinValue(t) <= ParseSignedDigits(s).value <= MaxValue(t)
  {
    match ParseSignedDigits(s)
    case None => None
    case Some(n) => if MinValue(t) <= n <= MaxValue(t) then Some(n) else None
  }

  /** `ToByte()`, `ToInt16()`, ..., `ToUInt64()` and their provider overloads:
      0 for null or unparseable text, the parsed value otherwise. */
  function ToIntegral(value: Option<string>, t: IntegralType): (r: int)
    ensures MinValue(t) <= r <= MaxValue(t)
    ensures value.None? ==> r == 0
    ensures value.Some? && TryParseIntegral(value.value, t).None? ==> r == 0
  {
    match value
    case None => 0
    case Some(v) => TryParseIntegral(v, t).GetOr(0)
  }

  /** Every in-range integer survives printing and converting back. */
  lemma ToIntegralRoundTrip(n: int, t: IntegralType)
    requires MinValue(t) <= n <= MaxValue(t)
    ensures ToIntegral(Some(IntToString(n)), t) == n
  {
    ParseSignedDigitsOfIntToString(n);
  }

  /** Text outside the type's range converts to 0 rather than wrapping. */
  lemma ToIntegralOverflow(n: int, t: IntegralType)
    requires n > MaxValue(t) || n < MinValue(t)
    ensures ToIntegral(Some(IntToString(n)), t) == 0
  {
    ParseSignedDigitsOfIntToString(n);
  }

  // ---- decimals ----

  function RemoveGroupSeparators(s: string): (r: string)
    ensures |r| <= |s|
  {
    if s == [] then [] else (if s[0] == ',' then [] else [s[0]]) + RemoveGroupSeparators(s[1..])
  }

  predicate DigitsOrGroups(s: string) {
    forall i :: 0 <= i < |s| ==> IsDigit(s[i]) || s[i] == ','
  }

  lemma RemoveGroupSeparatorsDigits(s: string)
    requires DigitsOrGroups(s)
    ensures AllDigits(RemoveGroupSeparators(s))
  {
    if s != [] {
      RemoveGroupSeparatorsDigits(s[1..]);
    }
  }

  /** A sign `NumberStyles.AllowLeadingSign`/`AllowTrailingSign` accept. */
  predicate IsSign(c: char) { c == '-' || c == '+' }

  /** The unsigned part of a `decimal`: integer digits with `,` group
      separators after the first digit, and an optional `.` with fraction
      digits; at least one digit. */
  function ParseDecimalBody(body: string): (r: Option<real>)
    ensures r.Some? ==> r.value >= 0.0
  {
    var dot := IndexOfChar(body, '.');
    var intPart := if dot.Some? then body[..dot.value] else body;
    var fracPart := if dot.Some? then body[dot.value + 1..] else [];
    if !DigitsOrGroups(intPart) || (intPart != [] && !IsDigit(intPart[0])) || !AllDigits(fracPart) then None
    else if intPart == [] && fracPart == [] then None
    else
      RemoveGroupSeparatorsDigits(intPart);
      Some(DigitsToNat(RemoveGroupSeparators(intPart)) as real + FractionValue(fracPart))
  }

  /** The value of the digits after the decimal point, `0.d1d2...`: each
      digit is worth a tenth of the one before it. */
  function FractionValue(f: string): (r: real)
    requires AllDigits(f)
    ensures 0.0 <= r < 1.0
  {
    if f == [] then 0.0 else (DigitValue(f[0]) as real + FractionValue(f[1..])) / 10.0
  }

  /** `decimal.TryParse(s, NumberStyles.Number, ...)`: white space around, and
      one sign either before the number or after it (white space may
      separate a trailing sign from the digits, never a leading one). */
  function TryParseDecimal(s: string): (r: Option<real>)
    ensures r.Some? ==> -MaxDecimal <= r.value <= MaxDecimal
  {
    var (negative, body) := DecimalSign(s);
    match ParseDecimalBody(body)
    case None => None
    case Some(magnitude) =>
      if magnitude > MaxDecimal then None
      else Some(if negative then -magnitude else magnitude)
  }

  /** `decimal.MaxValue`, 2^96 - 1: a larger magnitude overflows and does not parse. */
  const MaxDecimal: real := 79228162514264337593543950335.0

  /** Digits beyond `decimal`'s range do not parse, with or without a sign,
      so they convert to 0. */
  lemma ToDecimalOverflow(d: string)
    requires d != [] && AllDigits(d) && DigitsToNat(d) as real > MaxDecimal
    ensures TryParseDecimal(d) == None && TryParseDecimal("-" + d) == None
    ensures ToDecimal(Some(d)) == 0.0 && ToDecimal(Some("-" + d)) == 0.0
  {
    ParseDecimalBodyOfDigits(d);
    DecimalSignUnsigned(d);
    DecimalSignLeading(d);
  }

  /** Digits alone: not negative, and the digits are the unsigned part. */
  lemma DecimalSignUnsigned(d: string)
    requires d != [] && AllDigits(d)
    ensures DecimalSign(d) == (false, d)
  {
    TrimNumberWhiteUnpadded(d);
  }

  /** The sign part of `TryParseDecimal`: whether the number is negative, and
      the unsigned part left once the white space and the sign are removed. */
  function DecimalSign(s: string): (bool, string) {
    var u := TrimNumberWhite(s);
    var leading := |u| > 0 && IsSign(u[0]);
    var trailing := !leading && |u| > 0 && IsSign(u[|u| - 1]);
    var negative := (leading && u[0] == '-') || (trailing && u[|u| - 1] == '-');
    (negative, if leading then u[1..] else if trailing then TrimNumberWhite(u[..|u| - 1]) else u)
  }

  /** A run of digits is the unsigned part it spells. */
  lemma ParseDecimalBodyOfDigits(d: string)
    requires d != [] && AllDigits(d)
    ensures ParseDecimalBody(d) == Some(DigitsToNat(d) as real)
  {
    assert forall i :: 0 <= i < |d| ==> d[i] != '.';
    RemoveGroupSeparatorsOfDigits(d);
    ParseDecimalBodyWithoutDot(d);
  }

  /** Without a decimal point the unsigned part is its integral part alone. */
  lemma ParseDecimalBodyWithoutDot(b: string)
    requires '.' !in b && b != [] && IsDigit(b[0]) && DigitsOrGroups(b)
    ensures AllDigits(RemoveGroupSeparators(b)) && ParseDecimalBody(b) == Some(DigitsToNat(RemoveGroupSeparators(b)) as real)
  {
    RemoveGroupSeparatorsDigits(b);
    assert IndexOfChar(b, '.') == None;
  }

  /** A sign is never part of the unsigned part. */
  lemma ParseDecimalBodyEndingInSign(b: string)
    requires b != [] && IsSign(b[|b| - 1])
    ensures ParseDecimalBody(b) == None
  {
    var dot := IndexOfChar(b, '.');
    if dot.Some? {
      var fracPart := b[dot.value + 1..];
      assert fracPart[|fracPart| - 1] == b[|b| - 1];
    }
  }

  /** Text with no white space at either end is left as it is. */
  lemma TrimNumberWhiteUnpadded(s: string)
    requires forall i :: 0 <= i < |s| ==> IsDigit(s[i]) || IsSign(s[i])
    ensures TrimNumberWhite(s) == s
  {
  }

  /** A minus sign reads the same before the digits as after them, so `5-`
      is -5 just as `-5` is; a sign on both sides is refused. */
  lemma DecimalSignEitherSide(d: string)
    requires d != [] && AllDigits(d) && DigitsToNat(d) as real <= MaxDecimal
    ensures TryParseDecimal("-" + d) == Some(-(DigitsToNat(d) as real))
    ensures TryParseDecimal(d + "-") == Some(-(DigitsToNat(d) as real))
    ensures TryParseDecimal("-" + d + "-") == None
  {
    ParseDecimalBodyOfDigits(d);
    DecimalLeadingSign(d);
    DecimalTrailingSign(d);
    DecimalBothSigns(d);
  }

  lemma DecimalLeadingSign(d: string)
    requires d != [] && AllDigits(d) && ParseDecimalBody(d) == Some(DigitsToNat(d) as real) && DigitsToNat(d) as real <= MaxDecimal
    ensures TryParseDecimal("-" + d) == Some(-(DigitsToNat(d) as real))
  {
    DecimalSignLeading(d);
  }

  lemma DecimalTrailingSign(d: string)
    requires d != [] && AllDigits(d) && ParseDecimalBody(d) == Some(DigitsToNat(d) as real) && DigitsToNat(d) as real <= MaxDecimal
    ensures TryParseDecimal(d + "-") == Some(-(DigitsToNat(d) as real))
  {
    DecimalSignTrailing(d);
    assert ParseDecimalBody(DecimalSign(d + "-").1) == Some(DigitsToNat(d) as real);
  }

  lemma DecimalBothSigns(d: string)
    requires d != [] && AllDigits(d)
    ensures TryParseDecimal("-" + d + "-") == None
  {
    DecimalSignBoth(d);
    ParseDecimalBodyEndingInSign(d + "-");
  }

  /** A minus sign in front of digits: negative, the digits are the unsigned part. */
  lemma DecimalSignLeading(d: string)
    requires d != [] && AllDigits(d)
    ensures DecimalSign("-" + d) == (true, d)
  {
    var lead := "-" + d;
    forall i | 0 <= i < |lead| ensures IsDigit(lead[i]) || IsSign(lead[i]) {
      if i > 0 {
        assert lead[i] == d[i - 1];
      }
    }
    TrimNumberWhiteUnpadded(lead);
    assert lead[1..] == d;
  }

  /** A minus sign after digits: negative, the digits are the unsigned part. */
  lemma DecimalSignTrailing(d: string)
    requires d != [] && AllDigits(d)
    ensures DecimalSign(d + "-") == (true, d)
  {
    var trail := d + "-";
    forall i | 0 <= i < |trail| ensures IsDigit(trail[i]) || IsSign(trail[i]) {
      if i < |d| {
        assert trail[i] == d[i];
      }
    }
    TrimNumberWhiteUnpadded(trail);
    TrimNumberWhiteUnpadded(d);
    assert trail[0] == d[0] && trail[..|trail| - 1] == d;
  }

  /** A sign on both sides: only the first is taken as the sign, so the
      second stays in the unsigned part. */
  lemma DecimalSignBoth(d: string)
    requires d != [] && AllDigits(d)
    ensures DecimalSign("-" + d + "-") == (true, d + "-")
  {
    var both := "-" + d + "-";
    forall i | 0 <= i < |both| ensures IsDigit(both[i]) || IsSign(both[i]) {
      if 0 < i < |both| - 1 {
        assert both[i] == d[i - 1];
      }
    }
    TrimNumberWhiteUnpadded(both);
    assert both[1..] == d + "-";
  }

  lemma RemoveGroupSeparatorsOfDigits(d: string)
    requires AllDigits(d)
    ensures RemoveGroupSeparators(d) == d
  {
    if d != [] {
      RemoveGroupSeparatorsOfDigits(d[1..]);
    }
  }

  function IndexOfChar(s: string, c: char): (r: Option<nat>)
    ensures r.Some? ==> r.value < |s| && s[r.value] == c && c !in s[..r.value]
    ensures r.None? ==> c !in s
  {
    if s == [] then None
    else if s[0] == c then Some(0)
    else
      match IndexOfChar(s[1..], c)
      case None => None
      case Some(i) =>
        assert s[..i + 1] == [s[0]] + s[1..][..i];
        Some(i + 1)
  }

  /** `ToDecimal()`: 0 for null, unparseable or out-of-range text. */
  function ToDecimal(value: Option<string>): (r: real)
    ensures value.None? ==> r == 0.0
    ensures value.Some? && TryParseDecimal(value.value).None? ==> r == 0.0
    ensures value.Some? && TryParseDecimal(value.value).Some? ==> r == TryParseDecimal(value.value).value
    ensures -MaxDecimal <= r <= MaxDecimal
  {
    match value
    case None => 0.0
    case Some(v) => TryParseDecimal(v).GetOr(0.0)
  }

  lemma ToDecimalNull()
    ensures ToDecimal(None) == 0.0
    ensures ToDecimal(Some("")) == 0.0
  {
  }

  // ---- enums ----

  /** An enum type's members, by name and underlying value. */
  type EnumMembers = seq<(string, int)>

  function FindMember(members: EnumMembers, name: string): (r: Option<int>)
    ensures r.Some? ==> exists i :: 0 <= i < |members| && Lower(members[i].0) == Lower(name) && members[i].1 == r.value
    ensures r.None? ==> forall i :: 0 <= i < |members| ==> Lower(members[i].0) != Lower(name)
  {
    if members == [] then None
    else if Lower(members[0].0) == Lower(name) then Some(members[0].1)
    else
      var r := FindMember(members[1..], name);
      assert forall i :: 0 < i < |members| ==> members[i] == members[1..][i - 1];
      r
  }

  /** The width of an enum's underlying type, as the modulus of its values. */
  function Modulus(t: IntegralType): nat {
    match t
    case Byte => 0x100
    case Int16 | UInt16 => 0x1_0000
    case Int32 | UInt32 => 0x1_0000_0000
    case Int64 | UInt64 => 0x1_0000_0000_0000_0000
  }

  predicate IsSigned(t: IntegralType) { t.Int16? || t.Int32? || t.Int64? }

  /** Bitwise OR of two natural numbers written in binary. */
  function OrNat(a: nat, b: nat): (r: nat)
    decreases a + b
  {
    if a == 0 then b
    else if b == 0 then a
    else (if a % 2 == 1 || b % 2 == 1 then 1 else 0) + 2 * OrNat(a / 2, b / 2)
  }

  /** A value's bits in two's complement of the type's width. */
  function Code(t: IntegralType, x: int): (r: nat)
    ensures r < Modulus(t)
  {
    x % Modulus(t)
  }

  /** The value of the type whose two's complement is `bits`. */
  function FromCode(t: IntegralType, bits: nat): (r: int)
    requires bits < Modulus(t)
  {
    if IsSigned(t) && bits >= Modulus(t) / 2 then bits - Modulus(t) else bits
  }

  /** `x |= y` in the enum's storage type: both values in two's complement of
      the type's width, OR-ed, read back as a value of the type. */
  function EnumOr(t: IntegralType, x: int, y: int): (r: int)
  {
    FromCode(t, Code(t, OrNat(Code(t, x), Code(t, y))))
  }

  /** OR-ing two members' values gives a value of the underlying type. */
  lemma EnumOrInRange(t: IntegralType, x: int, y: int)
    ensures MinValue(t) <= EnumOr(t, x, y) <= MaxValue(t)
  {
    var bits := Code(t, OrNat(Code(t, x), Code(t, y)));
    assert bits < Modulus(t);
  }

  /** Every value of the type is read back from its bits. */
  lemma FromCodeOfCode(t: IntegralType, x: int)
    requires MinValue(t) <= x <= MaxValue(t)
    ensures FromCode(t, Code(t, x)) == x
  {
    if x < 0 {
      assert x % Modulus(t) == x + Modulus(t);
    }
  }

  /** OR-ing a value of the type into 0 gives the value itself. */
  lemma EnumOrZero(t: IntegralType, x: int)
    requires MinValue(t) <= x <= MaxValue(t)
    ensures EnumOr(t, 0, x) == x
  {
    assert Code(t, 0) == 0;
    assert OrNat(0, Code(t, x)) == Code(t, x);
    assert Code(t, Code(t, x)) == Code(t, x);
    FromCodeOfCode(t, x);
  }

  /** `TryParseByName`: the comma-separated names, each trimmed and matched
      ignoring case, their values OR-ed into `acc`; any unknown piece fails. */
  function OrNames(members: EnumMembers, t: IntegralType, names: seq<string>, acc: int): (r: Option<int>)
  {
    if names == [] then Some(acc)
    else
      match FindMember(members, Trim(names[0]))
      case None => None
      case Some(v) => OrNames(members, t, names[1..], EnumOr(t, acc, v))
  }

  /** Text that reads as one name: it does not start like a number, holds
      no comma and has no white space at either end. */
  predicate PlainName(v: string) {
    v != [] && !StartsNumber(v[0]) && ',' !in v && !IsWhiteSpace(v[0]) && !IsWhiteSpace(v[|v| - 1])
  }

  /** The start of text `Enum.TryParse` reads as a number. */
  predicate StartsNumber(c: char) { IsDigit(c) || IsSign(c) }

  /** `Enum.TryParse(value, ignoreCase: true, out result)` for an enum with
      the given members and underlying type `t`. Text starting like a number
      that reads as an integer is that value when it lies in `t`'s range
      (whether or not a member has it) and an overflow otherwise; any other
      text is a comma-separated list of member names, in any case, whose
      values are OR-ed, and a trailing comma is refused. */
  function TryParseEnum(members: EnumMembers, t: IntegralType, s: string): (r: Option<int>) {
    var u := Trim(s);
    if u == [] then None
    else if StartsNumber(u[0]) && ParseSignedDigits(u).Some? then TryParseIntegral(u, t)
    else if u[|u| - 1] == ',' then None
    else OrNames(members, t, Split(u, {','}), 0)
  }

  /** Whether a failed parse was an overflow: a number outside `t`'s range. */
  predicate IsEnumOverflow(t: IntegralType, s: string) {
    var u := Trim(s);
    u != [] && StartsNumber(u[0]) && ParseSignedDigits(u).Some? && TryParseIntegral(u, t).None?
  }

  /** `ToEnum()`: `Enum.Parse(value, ignoreCase: true)`, which throws
      ArgumentNullException for null text, OverflowException for a number
      outside the underlying type and ArgumentException for text that is
      neither a number nor a list of member names. */
  function ToEnum(members: EnumMembers, t: IntegralType, value: Option<string>): (r: Result<int, Exceptions.ExnKind>)
    ensures value.None? ==> r == Failure(Exceptions.ArgumentNull)
    ensures value.Some? ==> (r.Success? <==> TryParseEnum(members, t, value.value).Some?)
    ensures value.Some? && r.Failure? ==> (r.error == Exceptions.Overflow <==> IsEnumOverflow(t, value.value))
    ensures r.Success? ==> forall d :: ToEnumOrDefault(members, t, value, d) == r.value
  {
    if value.None? then Failure(Exceptions.ArgumentNull)
    else
      match TryParseEnum(members, t, value.value)
      case Some(v) => Success(v)
      case None => if IsEnumOverflow(t, value.value) then Failure(Exceptions.Overflow) else Failure(Exceptions.Argument)
  }

  /** `ToEnumOrDefault(defaultValue)`: the default for null, empty or unparseable text. */
  function ToEnumOrDefault(members: EnumMembers, t: IntegralType, value: Option<string>, defaultValue: int): (r: int)
    ensures value.None? || value == Some("") ==> r == defaultValue
    ensures value.Some? && value.value != "" && TryParseEnum(members, t, value.value).None? ==> r == defaultValue
  {
    if value.None? || value.value == "" then defaultValue
    else TryParseEnum(members, t, value.value).GetOr(defaultValue)
  }

  /** Text spelling a member's name in any case, without padding or commas,
      converts to that member when names are distinct ignoring case. */
  lemma ToEnumOrDefaultByName(members: EnumMembers, t: IntegralType, k: int, v: string, defaultValue: int)
    requires 0 <= k < |members| && Lower(v) == Lower(members[k].0)
    requires MinValue(t) <= members[k].1 <= MaxValue(t)
    requires forall i, j :: 0 <= i < j < |members| ==> Lower(members[i].0) != Lower(members[j].0)
    requires PlainName(v)
    ensures ToEnumOrDefault(members, t, Some(v), defaultValue) == members[k].1
  {
    FindMemberUnique(members, k, v);
    ToEnumOrDefaultOfFound(members, t, v, defaultValue);
  }

  /** Unpadded text without commas that is not a number converts to the
      member it names. */
  lemma ToEnumOrDefaultOfFound(members: EnumMembers, t: IntegralType, v: string, defaultValue: int)
    requires PlainName(v)
    requires FindMember(members, v).Some? && MinValue(t) <= FindMember(members, v).value <= MaxValue(t)
    ensures ToEnumOrDefault(members, t, Some(v), defaultValue) == FindMember(members, v).value
  {
    TryParseEnumOfOneName(members, t, v);
    EnumOrZero(t, FindMember(members, v).value);
  }

  lemma TryParseEnumOfOneName(members: EnumMembers, t: IntegralType, v: string)
    requires PlainName(v)
    requires FindMember(members, v).Some?
    ensures TryParseEnum(members, t, v) == Some(EnumOr(t, 0, FindMember(members, v).value))
  {
    TryParseEnumOfNames(members, t, v);
    SplitWordOfComma(v);
    OrNamesOne(members, t, v, 0);
  }

  lemma SplitWordOfComma(v: string)
    requires ',' !in v
    ensures Split(v, {','}) == [v]
  {
    SplitWord(v, {','});
  }

  /** Two names separated by a comma convert to the OR of their members. */
  lemma ToEnumOrDefaultOfPair(members: EnumMembers, t: IntegralType, v: string, w: string, defaultValue: int)
    requires v != [] && !StartsNumber(v[0]) && ',' !in v && ',' !in w
    requires !IsWhiteSpace(v[0]) && w != [] && !IsWhiteSpace(w[|w| - 1])
    requires FindMember(members, Trim(v)).Some? && FindMember(members, Trim(w)).Some?
    ensures ToEnumOrDefault(members, t, Some(v + "," + w), defaultValue)
            == EnumOr(t, EnumOr(t, 0, FindMember(members, Trim(v)).value), FindMember(members, Trim(w)).value)
  {
    TryParseEnumOfPair(members, t, v, w);
  }

  lemma TryParseEnumOfPair(members: EnumMembers, t: IntegralType, v: string, w: string)
    requires v != [] && !StartsNumber(v[0]) && ',' !in v && ',' !in w
    requires !IsWhiteSpace(v[0]) && w != [] && !IsWhiteSpace(w[|w| - 1])
    requires FindMember(members, Trim(v)).Some? && FindMember(members, Trim(w)).Some?
    ensures TryParseEnum(members, t, v + "," + w)
            == Some(EnumOr(t, EnumOr(t, 0, FindMember(members, Trim(v)).value), FindMember(members, Trim(w)).value))
  {
    var u := v + "," + w;
    assert u[0] == v[0] && u[|u| - 1] == w[|w| - 1];
    TryParseEnumOfNames(members, t, u);
    SplitPairOfComma(v, w);
    OrNamesPair(members, t, v, w);
  }

  lemma SplitPairOfComma(v: string, w: string)
    requires ',' !in v && ',' !in w
    ensures Split(v + "," + w, {','}) == [v, w]
  {
    SplitWord(w, {','});
    SplitAt(v, ',', w, {','});
    assert v + "," + w == v + [','] + w;
  }

  lemma OrNamesPair(members: EnumMembers, t: IntegralType, v: string, w: string)
    requires FindMember(members, Trim(v)).Some? && FindMember(members, Trim(w)).Some?
    ensures OrNames(members, t, [v, w], 0)
            == Some(EnumOr(t, EnumOr(t, 0, FindMember(members, Trim(v)).value), FindMember(members, Trim(w)).value))
  {
    var acc := EnumOr(t, 0, FindMember(members, Trim(v)).value);
    OrNamesOne(members, t, w, acc);
    assert [v, w][1..] == [w];
  }

  /** Naming a member twice is naming it once: OR is idempotent. */
  lemma ToEnumOrDefaultOfRepeatedName(members: EnumMembers, t: IntegralType, v: string, defaultValue: int)
    requires PlainName(v)
    requires FindMember(members, v).Some? && MinValue(t) <= FindMember(members, v).value <= MaxValue(t)
    ensures ToEnumOrDefault(members, t, Some(v + "," + v), defaultValue) == FindMember(members, v).value
  {
    TrimUnchanged(v);
    var x := FindMember(members, v).value;
    ToEnumOrDefaultOfPair(members, t, v, v, defaultValue);
    EnumOrZero(t, x);
    EnumOrIdempotent(t, x);
  }

  lemma EnumOrIdempotent(t: IntegralType, x: int)
    requires MinValue(t) <= x <= MaxValue(t)
    ensures EnumOr(t, x, x) == x
  {
    var c := Code(t, x);
    OrNatIdempotent(c);
    CodeSmall(t, c);
    FromCodeOfCode(t, x);
    assert EnumOr(t, x, x) == FromCode(t, Code(t, c));
  }

  lemma CodeSmall(t: IntegralType, c: nat)
    requires c < Modulus(t)
    ensures Code(t, c) == c
  {
  }

  lemma {:induction false} OrNatIdempotent(a: nat)
    ensures OrNat(a, a) == a
  {
    if a != 0 {
      OrNatIdempotent(a / 2);
    }
  }

  /** Unpadded text that does not start like a number nor end with a comma
      is read as a list of names. */
  lemma TryParseEnumOfNames(members: EnumMembers, t: IntegralType, u: string)
    requires u != [] && !StartsNumber(u[0]) && u[|u| - 1] != ','
    requires !IsWhiteSpace(u[0]) && !IsWhiteSpace(u[|u| - 1])
    ensures TryParseEnum(members, t, u) == OrNames(members, t, Split(u, {','}), 0)
  {
    TrimUnchanged(u);
    TryParseEnumOfTrimmedNames(members, t, u);
  }

  lemma TryParseEnumOfTrimmedNumber(members: EnumMembers, t: IntegralType, s: string)
    requires Trim(s) != [] && StartsNumber(Trim(s)[0]) && ParseSignedDigits(Trim(s)).Some?
    ensures TryParseEnum(members, t, s) == TryParseIntegral(Trim(s), t)
  {
  }

  lemma TryParseEnumOfTrimmedNames(members: EnumMembers, t: IntegralType, s: string)
    requires Trim(s) != [] && !StartsNumber(Trim(s)[0]) && Trim(s)[|Trim(s)| - 1] != ','
    ensures TryParseEnum(members, t, s) == OrNames(members, t, Split(Trim(s), {','}), 0)
  {
  }

  lemma OrNamesOne(members: EnumMembers, t: IntegralType, v: string, acc: int)
    requires FindMember(members, Trim(v)).Some?
    ensures OrNames(members, t, [v], acc) == Some(EnumOr(t, acc, FindMember(members, Trim(v)).value))
  {
    assert [v][1..] == [];
  }

  /** The decimal text of a number in the underlying type's range converts
      to that number, whether or not a member has it. */
  lemma ToEnumOrDefaultOfNumber(members: EnumMembers, t: IntegralType, n: int, defaultValue: int)
    requires MinValue(t) <= n <= MaxValue(t)
    ensures ToEnumOrDefault(members, t, Some(IntToString(n)), defaultValue) == n
  {
    TryParseEnumOfIntToString(members, t, n);
    ParseSignedDigitsOfIntToString(n);
    assert TryParseIntegral(IntToString(n), t) == Some(n);
  }

  /** The decimal text of any number is read as a number, never as names. */
  lemma TryParseEnumOfIntToString(members: EnumMembers, t: IntegralType, n: int)
    ensures IntToString(n) != "" && TryParseEnum(members, t, IntToString(n)) == TryParseIntegral(IntToString(n), t)
  {
    var v := IntToString(n);
    assert !IsWhiteSpace(v[0]) && !IsWhiteSpace(v[|v| - 1]);
    TrimUnchanged(v);
    assert IsDigit(v[0]) || v[0] == '-';
    ParseSignedDigitsOfIntToString(n);
    TryParseEnumOfTrimmedNumber(members, t, v);
  }

  /** Out of the underlying type's range the number is an overflow: the
      default, although the same text converts for a wider type. */
  lemma ToEnumOrDefaultOverflow(members: EnumMembers, t: IntegralType, n: int, defaultValue: int)
    requires n < MinValue(t) || MaxValue(t) < n
    ensures ToEnumOrDefault(members, t, Some(IntToString(n)), defaultValue) == defaultValue
    ensures IsEnumOverflow(t, IntToString(n))
  {
    var v := IntToString(n);
    assert !IsWhiteSpace(v[0]) && !IsWhiteSpace(v[|v| - 1]);
    TrimUnchanged(v);
    assert IsDigit(v[0]) || v[0] == '-';
    ParseSignedDigitsOfIntToString(n);
    TryParseEnumOfTrimmedNumber(members, t, v);
  }

  lemma FindMemberUnique(members: EnumMembers, k: int, name: string)
    requires 0 <= k < |members| && Lower(members[k].0) == Lower(name)
    requires forall i, j :: 0 <= i < j < |members| ==> Lower(members[i].0) != Lower(members[j].0)
    ensures FindMember(members, name) == Some(members[k].1)
  {
    var r := FindMember(members, name);
    var i :| 0 <= i < |members| && Lower(members[i].0) == Lower(name) && members[i].1 == r.value;
    assert i == k;
  }

  lemma LowerOfUpper(s: string)
    ensures Lower(Upper(s)) == Lower(s)
  {
    assert forall i :: 0 <= i < |s| ==> LowerChar(UpperChar(s[i])) == LowerChar(s[i]);
  }

  // ---- TryConvert / ConvertValue ----

  /** The primitive types `TryConvert` knows; anything else is `OtherValueType`. */
  datatype Primitive =
    | PBool | PByte | PDateTime | PDecimal | PDouble | PInt16 | PInt32 | PInt64
    | PSingle | PUInt16 | PUInt32 | PUInt64 | PTimeSpan | PGuid | OtherValueType

  /** A target `Type`: `string`, another reference type, or a value type that
      may be wrapped in `Nullable<>`. */
  datatype TargetType = StringType | ReferenceType(name: string) | ValueType(prim: Primitive, nullable: bool)

  /** `Type.IsNullable()`: reference types and `Nullable<>`. */
  predicate IsNullable(t: TargetType) {
    !t.ValueType? || t.nullable
  }

  /** What `TryConvert` stores in `value`. Dates, times, floats and GUIDs are
      not modelled; their conversion is recorded with its input. */
  datatype Converted =
    | CNull
    | CString(s: Option<string>)
    | CBool(b: bool)
    | CIntegral(i: int)
    | CDecimal(d: real)
    | CNotModelled(prim: Primitive, input: Option<string>)

  function IntegralOf(p: Primitive): Option<IntegralType> {
    match p
    case PByte => Some(Byte)
    case PInt16 => Some(Int16)
    case PInt32 => Some(Int32)
    case PInt64 => Some(Int64)
    case PUInt16 => Some(UInt16)
    case PUInt32 => Some(UInt32)
    case PUInt64 => Some(UInt64)
    case _ => None
  }

  /** `TryConvert(input, type, out value)`: always succeeds. */
  function TryConvert(input: Option<string>, t: TargetType): (r: (bool, Converted))
    ensures r.0
    ensures t.StringType? ==> r.1 == CString(input)
    ensures !t.StringType? && input.None? && IsNullable(t) ==> r.1 == CNull
    ensures t.ReferenceType? && input.Some? ==> r.1 == CString(input)
    ensures t.ValueType? && IntegralOf(t.prim).Some? && !(input.None? && t.nullable) ==>
              r.1 == CIntegral(ToIntegral(input, IntegralOf(t.prim).value))
  {
    if t.StringType? then (true, CString(input))
    else if input.None? && IsNullable(t) then (true, CNull)
    else if t.ReferenceType? then (true, CString(input))
    else
      match t.prim
      case PBool => (true, CBool(ToBoolean(input)))
      case PByte => (true, CIntegral(ToIntegral(input, Byte)))
      case PDecimal => (true, CDecimal(ToDecimal(input)))
      case PInt16 => (true, CIntegral(ToIntegral(input, Int16)))
      case PInt32 => (true, CIntegral(ToIntegral(input, Int32)))
      case PInt64 => (true, CIntegral(ToIntegral(input, Int64)))
      case PUInt16 => (true, CIntegral(ToIntegral(input, UInt16)))
      case PUInt32 => (true, CIntegral(ToIntegral(input, UInt32)))
      case PUInt64 => (true, CIntegral(ToIntegral(input, UInt64)))
      case OtherValueType => (true, CString(input))
      case _ => (true, CNotModelled(t.prim, input))
  }

  /** `ConvertValue<TValue>(result, convert)`: `default` for null or `DBNull`,
      the value itself when it already is a `TValue` (`asValue`), else the
      caller's `convert`, else `Convert.ChangeType` (`changeType`, which may throw). */
  function ConvertValue<O, T>(result: O, isNullOrDBNull: O -> bool, asValue: O -> Option<T>,
                              convert: Option<O -> T>, changeType: O -> Result<T, string>, default: T)
    : (r: Result<T, string>)
    ensures isNullOrDBNull(result) ==> r == Success(default)
    ensures !isNullOrDBNull(result) && asValue(result).Some? ==> r == Success(asValue(result).value)
    ensures !isNullOrDBNull(result) && asValue(result).None? && convert.Some? ==> r == Success(convert.value(result))
    ensures !isNullOrDBNull(result) && asValue(result).None? && convert.None? ==> r == changeType(result)
  {
    if isNullOrDBNull(result) then Success(default)
    else if asValue(result).Some? then Success(asValue(result).value)
    else if convert.Some? then Success(convert.value(result))
    else changeType(result)
  }
}
