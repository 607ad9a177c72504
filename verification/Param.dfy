/**
 Parameter text: `parse_param_text` and `format_param_value` for booleans and integers. strtoull()
 and strtoll() follow section 7.22.1.4 of ISO/IEC 9899:2011.
 */
module Param {
  import opened Wrappers

  datatype IntKind = U8 | I8 | U16 | I16 | U32 | I32 | U64 | I64

  datatype ParamType = Unsupported | Bool | Int(kind: IntKind)

  datatype ParamValue = NoValue | BoolValue(b: bool) | IntValue(kind: IntKind, n: int)

  const TWO64: nat := 0x1_0000_0000_0000_0000

  predicate Signed(kind: IntKind) {
    kind.I8? || kind.I16? || kind.I32? || kind.I64?
  }

  function Lo(kind: IntKind): int {
    match kind
    case I8 => -128
    case I16 => -32768
    case I32 => -2147483648
    case I64 => -9223372036854775808
    case _ => 0
  }

  function Hi(kind: IntKind): int {
    match kind
    case U8 => 0xFF
    case I8 => 127
    case U16 => 0xFFFF
    case I16 => 32767
    case U32 => 0xFFFF_FFFF
    case I32 => 2147483647
    case U64 => 0xFFFF_FFFF_FFFF_FFFF
    case I64 => 9223372036854775807
  }

  predicate InRange(kind: IntKind, n: int) {
    Lo(kind) <= n <= Hi(kind)
  }

  /** Every type holds what so many bits hold, two's complement where it is signed. */
  lemma RangesAreTheTypes(n: int)
    ensures InRange(U8, n) <==> 0 <= n < 0x100
    ensures InRange(U16, n) <==> 0 <= n < 0x1_0000
    ensures InRange(U32, n) <==> 0 <= n < 0x1_0000_0000
    ensures InRange(U64, n) <==> 0 <= n < 0x1_0000_0000_0000_0000
    ensures InRange(I8, n) <==> -0x80 <= n < 0x80
    ensures InRange(I16, n) <==> -0x8000 <= n < 0x8000
    ensures InRange(I32, n) <==> -0x8000_0000 <= n < 0x8000_0000
    ensures InRange(I64, n) <==> -0x8000_0000_0000_0000 <= n < 0x8000_0000_0000_0000
  {}

  // ---------------------------------------------------------------- characters

  datatype Class = Blank | Space | Decimal | Hex

  predicate In(c: char, cls: Class) {
    match cls
    case Blank => c == ' ' || c == '\t'
    case Space => c == ' ' || c == '\t' || c == '\n' || c == '\r' || c == 11 as char || c == 12 as char
    case Decimal => '0' <= c <= '9'
    case Hex => '0' <= c <= '9' || 'a' <= c <= 'f' || 'A' <= c <= 'F'
  }

  /** The classes character by character: the blanks of the code, isspace() of the C locale, and the
      digits. */
  lemma ClassesAre(c: char)
    ensures In(c, Blank) <==> c in " \t"
    ensures In(c, Space) <==> c in " \t\n\r" || c as int == 0x0B || c as int == 0x0C
    ensures In(c, Decimal) <==> c in "0123456789"
    ensures In(c, Hex) <==> c in "0123456789abcdef" || c in "0123456789ABCDEF"
  {
    assert forall k :: 0 <= k < 10 ==> "0123456789"[k] as int == '0' as int + k;
    assert forall k :: 0 <= k < 16 ==>
      "0123456789abcdef"[k] as int == if k < 10 then '0' as int + k else 'a' as int + k - 10;
    assert forall k :: 0 <= k < 16 ==>
      "0123456789ABCDEF"[k] as int == if k < 10 then '0' as int + k else 'A' as int + k - 10;
    if '0' <= c <= '9' {
      assert c == "0123456789"[c as int - '0' as int];
      assert c == "0123456789abcdef"[c as int - '0' as int];
    }
    if 'a' <= c <= 'f' { assert c == "0123456789abcdef"[c as int - 'a' as int + 10]; }
    if 'A' <= c <= 'F' { assert c == "0123456789ABCDEF"[c as int - 'A' as int + 10]; }
  }

  predicate IsSign(c: char) {
    c == '+' || c == '-'
  }

  predicate All(s: string, cls: Class) {
    forall i :: 0 <= i < |s| ==> In(s[i], cls)
  }

  /** The length of the longest prefix within the class. */
  function Run(s: string, cls: Class): (n: nat)
    ensures n <= |s|
  {
    if s == "" || !In(s[0], cls) then 0 else 1 + Run(s[1..], cls)
  }

  lemma {:induction false} RunIsLongest(s: string, cls: Class)
    ensures All(s[..Run(s, cls)], cls)
    ensures Run(s, cls) < |s| ==> !In(s[Run(s, cls)], cls)
  {
    if s != "" && In(s[0], cls) {
      RunIsLongest(s[1..], cls);
      assert s[..Run(s, cls)] == [s[0]] + s[1..][..Run(s[1..], cls)];
    }
  }

  lemma {:induction false} RunSplits(a: string, b: string, cls: Class)
    requires All(a, cls) && (b == "" || !In(b[0], cls))
    ensures Run(a + b, cls) == |a|
  {
    if a == "" {
      assert a + b == b;
    } else {
      assert (a + b)[1..] == a[1..] + b;
      RunSplits(a[1..], b, cls);
    }
  }

  function Digit(c: char): nat
    requires In(c, Hex)
  {
    if '0' <= c <= '9' then c as int - '0' as int
    else if 'a' <= c <= 'f' then c as int - 'a' as int + 10
    else c as int - 'A' as int + 10
  }

  lemma DigitsCount(k: nat)
    requires k < 16
    ensures var lower, upper := "0123456789abcdef"[k], "0123456789ABCDEF"[k];
            In(lower, Hex) && Digit(lower) == k && In(upper, Hex) && Digit(upper) == k
  {
    assert "0123456789abcdef"[k] as int == if k < 10 then '0' as int + k else 'a' as int + k - 10;
    assert "0123456789ABCDEF"[k] as int == if k < 10 then '0' as int + k else 'A' as int + k - 10;
  }

  /** The number that a digit string denotes. */
  function Magnitude(digits: string, base: nat): nat
    requires All(digits, Hex)
  {
    if digits == "" then 0
    else Magnitude(digits[..|digits| - 1], base) * base + Digit(digits[|digits| - 1])
  }

  // ---------------------------------------------------------------- the library functions

  /** What strtoull() and strtoll() return: the value, whether anything was converted, the text at
      *endptr, and ERANGE. */
  datatype Converted = Converted(raw: int, used: bool, rest: string, range: bool)

  function Skipped(s: string): string {
    s[Run(s, Space)..]
  }

  function AfterSign(t: string): string {
    if t != "" && IsSign(t[0]) then t[1..] else t
  }

  /** A 0x counts as prefix only when a digit follows; else the numeral is the 0 alone. */
  function AfterPrefix(u: string, base: nat): string {
    if base == 16 && |u| > 2 && u[0] == '0' && (u[1] == 'x' || u[1] == 'X') && In(u[2], Hex) then u[2..] else u
  }

  function Digits(base: nat): Class {
    if base == 16 then Hex else Decimal
  }

  function Convert(s: string, base: nat, signed: bool): Converted {
    var t := Skipped(s);
    var v := AfterPrefix(AfterSign(t), base);
    var n := Run(v, Digits(base));
    RunIsLongest(v, Digits(base));
    if n == 0 then Converted(0, false, s, false)
    else Evaluate(t != "" && t[0] == '-', Magnitude(v[..n], base), v[n..], signed)
  }

  /** The result for a numeral of magnitude m, followed by `rest`. */
  function Evaluate(negative: bool, m: int, rest: string, signed: bool): Converted {
    if signed then
      var v := if negative then -m else m;
      if v < Lo(I64) then Converted(Lo(I64), true, rest, true)
      else if v > Hi(I64) then Converted(Hi(I64), true, rest, true)
      else Converted(v, true, rest, false)
    else if m > Hi(U64) then Converted(Hi(U64), true, rest, true)
    else Converted(if negative then (-m) % TWO64 else m, true, rest, false)
  }

  /** Out of the 64-bit range the functions report ERANGE and give the nearest bound; a minus sign in
      front of an unsigned numeral wraps. Either way the numeral is used up. */
  lemma ConversionSaturates(negative: bool, m: int, rest: string)
    requires m >= 0
    ensures var (v, r) := (if negative then -m else m, Evaluate(negative, m, rest, true));
            && (r.range <==> v < -0x8000_0000_0000_0000 || v >= 0x8000_0000_0000_0000)
            && (v < -0x8000_0000_0000_0000 ==> r.raw == -0x8000_0000_0000_0000)
            && (v >= 0x8000_0000_0000_0000 ==> r.raw == 0x7FFF_FFFF_FFFF_FFFF)
            && (!r.range ==> r.raw == v) && r.used && r.rest == rest
    ensures var r := Evaluate(negative, m, rest, false);
            && (r.range <==> m >= 0x1_0000_0000_0000_0000)
            && (r.range ==> r.raw == 0xFFFF_FFFF_FFFF_FFFF)
            && (!r.range && !negative ==> r.raw == m)
            && (!r.range && negative ==> r.raw == if m == 0 then 0 else 0x1_0000_0000_0000_0000 - m)
            && r.used && r.rest == rest
  {
    if 0 < m < TWO64 {
      assert (-m) % TWO64 == TWO64 - m;
    }
  }

  // ---------------------------------------------------------------- parse_param_text

  /** detect_base(): looks past a sign only. */
  function DetectBase(s: string): nat {
    var t := if s != "" && IsSign(s[0]) then s[1..] else s;
    if |t| >= 2 && t[0] == '0' && (t[1] == 'x' || t[1] == 'X') then 16 else 10
  }

  function Trimmed(text: string): string {
    text[Run(text, Blank)..]
  }

  function Outcome(kind: IntKind, r: Converted): Option<int> {
    if !r.used || !All(r.rest, Blank) then None
    else if r.range then None
    else if !InRange(kind, r.raw) then None
    else Some(r.raw)
  }

  function ParseInt(kind: IntKind, s: string): Option<int> {
    if !Signed(kind) && s != "" && s[0] == '-' then None
    else Outcome(kind, Convert(s, DetectBase(s), Signed(kind)))
  }

  function ParseBool(s: string): Option<bool> {
    if s == "true" || s == "1" || s == "on" || s == "yes" then Some(true)
    else if s == "false" || s == "0" || s == "off" || s == "no" then Some(false)
    else None
  }

  function Parse(ty: ParamType, text: string): Option<ParamValue> {
    match ty
    case Unsupported => None
    case Bool => (match ParseBool(Trimmed(text)) case Some(b) => Some(BoolValue(b)) case None => None)
    case Int(kind) => (match ParseInt(kind, Trimmed(text)) case Some(n) => Some(IntValue(kind, n)) case None => None)
  }

  /** What is parsed has the type asked for; other types have no text. */
  lemma ParsedHasItsType(ty: ParamType, text: string)
    ensures match Parse(ty, text)
            case Some(BoolValue(_)) => ty == Bool
            case Some(IntValue(kind, n)) => ty == Int(kind) && InRange(kind, n)
            case Some(NoValue) => false
            case None => true
  {}

  lemma BoolWords(s: string, b: bool)
    ensures ParseBool(s) == Some(b) <==>
              s in (if b then ["true", "1", "on", "yes"] else ["false", "0", "off", "no"])
    ensures ParseBool(s) == Some(b) ==> s != "" && !In(s[0], Blank)
  {}

  /** The accepted words, after any blanks and with nothing behind them, not even a blank. */
  lemma BoolsParseExactly(text: string, b: bool)
    ensures Parse(Bool, text) == Some(BoolValue(b)) <==>
              exists i :: 0 <= i <= |text| && All(text[..i], Blank)
                && text[i..] in (if b then ["true", "1", "on", "yes"] else ["false", "0", "off", "no"])
  {
    hide ParseBool, In, All, Run;
    var n := Run(text, Blank);
    RunIsLongest(text, Blank);
    BoolWords(text[n..], b);
    forall i | 0 <= i <= |text| && All(text[..i], Blank) && ParseBool(text[i..]) == Some(b)
      ensures i == n
    {
      BoolWords(text[i..], b);
      assert text == text[..i] + text[i..];
      RunSplits(text[..i], text[i..], Blank);
    }
    forall i | 0 <= i <= |text| {
      BoolWords(text[i..], b);
    }
  }

  method SkipWs(s: string) returns (j: nat)
    ensures j == Run(s, Blank)
  {
    j := 0;
    while j < |s| && In(s[j], Blank)
      invariant j <= |s| && All(s[..j], Blank)
    {
      assert s[..j + 1] == s[..j] + [s[j]];
      j := j + 1;
    }
    assert s == s[..j] + s[j..];
    RunSplits(s[..j], s[j..], Blank);
  }

  method OnlyWsLeft(s: string) returns (ok: bool)
    ensures ok <==> All(s, Blank)
  {
    var j := SkipWs(s);
    ok := j == |s|;
    RunIsLongest(s, Blank);
    assert ok ==> s[..j] == s;
  }

  method ParseParamText(ty: ParamType, text: string) returns (out: Option<ParamValue>)
    ensures out == Parse(ty, text)
  {
    hide Convert, DetectBase, Magnitude, In, All, Run;
    if ty.Unsupported? { return None; }
    var start := SkipWs(text);
    var s := text[start..];
    match ty {
      case Bool =>
        if s == "true" || s == "1" || s == "on" || s == "yes" { return Some(BoolValue(true)); }
        if s == "false" || s == "0" || s == "off" || s == "no" { return Some(BoolValue(false)); }
        return None;
      case Int(kind) =>
        if !Signed(kind) && s != "" && s[0] == '-' { return None; }
        var r := Convert(s, DetectBase(s), Signed(kind));
        var blank := OnlyWsLeft(r.rest);
        if !r.used || !blank { return None; }
        if r.range { return None; }
        if r.raw < Lo(kind) || r.raw > Hi(kind) { return None; }
        return Some(IntValue(kind, r.raw));
    }
  }

  // ---------------------------------------------------------------- the accepted language

  /** A text taken apart. `odd` is white space that starts with something other than a blank; the
      documented grammar has none. */
  datatype Numeral = Numeral(blank: string, odd: string, sign: string, prefix: string, digits: string, trail: string)

  function Base(num: Numeral): nat {
    if num.prefix == "" then 10 else 16
  }

  predicate WellFormed(num: Numeral) {
    && All(num.blank, Blank) && All(num.trail, Blank)
    && (num.odd != "" ==> All(num.odd, Space) && !In(num.odd[0], Blank) && num.prefix == "")
    && (num.sign == "" || num.sign == "+" || num.sign == "-")
    && (num.prefix == "" || num.prefix == "0x" || num.prefix == "0X")
    && num.digits != "" && All(num.digits, Digits(Base(num))) && All(num.digits, Hex)
  }

  function FromDigits(num: Numeral): string { num.digits + num.trail }
  function FromPrefix(num: Numeral): string { num.prefix + FromDigits(num) }
  function FromSign(num: Numeral): string { num.sign + FromPrefix(num) }
  function FromOdd(num: Numeral): string { num.odd + FromSign(num) }
  function Text(num: Numeral): string { num.blank + FromOdd(num) }

  function Number(num: Numeral): int
    requires WellFormed(num)
  {
    var m: int := Magnitude(num.digits, Base(num));
    if num.sign == "-" then -m else m
  }

  /** The documented meaning: blanks, a sign (no minus for unsigned kinds), a decimal or 0x numeral
      in the range of the kind, blanks. */
  ghost predicate Denotes(kind: IntKind, num: Numeral, text: string, n: int) {
    && WellFormed(num) && num.odd == "" && Text(num) == text
    && (num.sign == "-" ==> Signed(kind))
    && n == Number(num) && InRange(kind, n)
  }

  /** The texts that pass only because the library skips more white space than the code did: then the
      sign check has looked at the wrong character, and a negative number wraps. */
  ghost predicate Strays(kind: IntKind, num: Numeral, text: string, n: int) {
    && WellFormed(num) && num.odd != "" && Text(num) == text
    && (if Signed(kind) then n == Number(num)
        else Magnitude(num.digits, Base(num)) < TWO64 && n == Number(num) % TWO64)
    && InRange(kind, n)
  }

  lemma Drop(a: string, b: string)
    ensures (a + b)[|a|..] == b && (a + b)[..|a|] == a
    ensures a != "" ==> (a + b)[0] == a[0]
    ensures a == "" ==> a + b == b
  {}

  lemma DigitsRun(num: Numeral)
    requires WellFormed(num)
    ensures var v := FromDigits(num);
            && Run(v, Digits(Base(num))) == |num.digits|
            && v[..|num.digits|] == num.digits && v[|num.digits|..] == num.trail
            && v != "" && v[0] == num.digits[0]
  {
    Drop(num.digits, num.trail);
    RunSplits(num.digits, num.trail, Digits(Base(num)));
  }

  lemma PrefixSkipped(num: Numeral)
    requires WellFormed(num)
    ensures var u := FromPrefix(num);
            && AfterPrefix(u, Base(num)) == FromDigits(num)
            && u != "" && In(u[0], Hex) && !IsSign(u[0])
            && (|u| >= 2 && u[0] == '0' && (u[1] == 'x' || u[1] == 'X') <==> num.prefix != "")
  {
    hide Run;
    DigitsRun(num);
    var u, v := FromPrefix(num), FromDigits(num);
    Drop(num.prefix, v);
    if num.prefix == "" {
      assert u == v;
      if |u| >= 2 { SecondOfDecimal(num); }
    } else {
      assert u[0] == num.prefix[0] && u[1] == num.prefix[1] && u[2] == v[0];
    }
  }

  lemma SecondOfDecimal(num: Numeral)
    requires WellFormed(num) && num.prefix == "" && |FromDigits(num)| >= 2
    ensures var c := FromDigits(num)[1]; c != 'x' && c != 'X'
  {
    var c := FromDigits(num)[1];
    if |num.digits| > 1 {
      assert c == num.digits[1] && In(c, Decimal);
    } else {
      assert c == num.trail[0] && In(c, Blank);
    }
  }

  lemma SignSkipped(num: Numeral)
    requires WellFormed(num)
    ensures var t := FromSign(num);
            && AfterSign(t) == FromPrefix(num)
            && t != "" && !In(t[0], Space) && (t[0] == '-' <==> num.sign == "-")
            && (IsSign(t[0]) <==> num.sign != "")
  {
    hide AfterPrefix;
    PrefixSkipped(num);
    Drop(num.sign, FromPrefix(num));
  }

  lemma SpaceSkipped(num: Numeral)
    requires WellFormed(num)
    ensures var s := FromOdd(num);
            && Skipped(s) == FromSign(num)
            && s != "" && !In(s[0], Blank) && (s[0] == '-' <==> num.odd == "" && num.sign == "-")
            && (num.odd == "" ==> s == FromSign(num))
            && (num.odd != "" ==> s[0] == num.odd[0])
  {
    hide AfterSign, FromSign;
    SignSkipped(num);
    var t := FromSign(num);
    Drop(num.odd, t);
    RunSplits(num.odd, t, Space);
  }

  lemma BlanksSkipped(num: Numeral)
    requires WellFormed(num)
    ensures Trimmed(Text(num)) == FromOdd(num)
  {
    hide FromOdd, Skipped;
    SpaceSkipped(num);
    Drop(num.blank, FromOdd(num));
    RunSplits(num.blank, FromOdd(num), Blank);
  }

  lemma BaseOf(num: Numeral)
    requires WellFormed(num)
    ensures DetectBase(FromOdd(num)) == Base(num)
  {
    hide FromOdd, FromSign, FromPrefix, AfterPrefix, Skipped;
    SpaceSkipped(num);
    SignSkipped(num);
    PrefixSkipped(num);
  }

  /** The conversion of a well-formed text uses exactly its digits. */
  lemma ConversionOf(num: Numeral, signed: bool)
    requires WellFormed(num)
    ensures Convert(FromOdd(num), Base(num), signed)
         == Evaluate(num.sign == "-", Magnitude(num.digits, Base(num)), num.trail, signed)
  {
    SpaceSkipped(num);
    SignSkipped(num);
    PrefixSkipped(num);
    DigitsRun(num);
    hide FromOdd, FromSign, FromPrefix, FromDigits, AfterPrefix, AfterSign, Skipped, Run, In, Evaluate, Magnitude;
  }

  lemma OutcomeOf(kind: IntKind, negative: bool, m: int, rest: string, n: int)
    requires m >= 0 && All(rest, Blank)
    ensures Outcome(kind, Evaluate(negative, m, rest, Signed(kind))) == Some(n) <==>
              && InRange(kind, n)
              && if Signed(kind) then n == (if negative then -m else m)
                 else m < TWO64 && n == (if negative then -m else m) % TWO64
  {
    hide All;
  }

  lemma ParseOf(kind: IntKind, num: Numeral)
    requires WellFormed(num)
    ensures ParseInt(kind, Trimmed(Text(num)))
         == if !Signed(kind) && num.odd == "" && num.sign == "-" then None
            else Outcome(kind, Evaluate(num.sign == "-", Magnitude(num.digits, Base(num)), num.trail, Signed(kind)))
  {
    BlanksSkipped(num);
    SpaceSkipped(num);
    BaseOf(num);
    ConversionOf(num, Signed(kind));
    hide WellFormed, Text, FromOdd, Skipped, Trimmed, Convert, DetectBase, Magnitude, Evaluate, Outcome, In;
  }

  /** The value of a numeral, in the 64-bit type of the library function. */
  function Wrapped(negative: bool, m: int, signed: bool): int {
    var v := if negative then -m else m;
    if signed then v else v % TWO64
  }

  lemma WrapsOnlyNegative(m: int, kind: IntKind, n: int)
    requires 0 <= m
    ensures !Signed(kind) && InRange(kind, n) ==> (m < TWO64 && n == Wrapped(false, m, false) <==> n == m)
  {
    if !Signed(kind) && InRange(kind, n) {
      assert n < TWO64;
      if m < TWO64 { assert m % TWO64 == m; }
    }
  }

  lemma WellFormedParse(kind: IntKind, num: Numeral, n: int)
    requires WellFormed(num)
    ensures Parse(Int(kind), Text(num)) == Some(IntValue(kind, n)) <==>
              Denotes(kind, num, Text(num), n) || Strays(kind, num, Text(num), n)
  {
    hide WellFormed, Text, ParseInt, Trimmed, Magnitude, Evaluate, Outcome, InRange, Signed, Base, All;
    ParseOf(kind, num);
    PartsAreClean(num);
    var m := Magnitude(num.digits, Base(num));
    OutcomeOf(kind, num.sign == "-", m, num.trail, n);
    WrapsOnlyNegative(m, kind, n);
  }

  lemma PartsAreClean(num: Numeral)
    requires WellFormed(num)
    ensures All(num.digits, Hex) && All(num.trail, Blank)
  {}

  // ---------------------------------------------------------------- taking a text apart

  /** Splitting what is left after the blanks. */
  function Split(blank: string, s: string): Numeral {
    var t := Skipped(s);
    var u := AfterSign(t);
    var v := AfterPrefix(u, DetectBase(s));
    var n := Run(v, Digits(DetectBase(s)));
    Numeral(blank, s[..Run(s, Space)], t[..|t| - |u|], u[..|u| - |v|], v[..n], v[n..])
  }

  lemma Rejoin(a: string, k: nat)
    requires k <= |a|
    ensures a[..k] + a[k..] == a
  {}

  lemma Suffixes(t: string, base: nat)
    ensures var u := AfterSign(t); |u| <= |t| && t[..|t| - |u|] + u == t
    ensures var v := AfterPrefix(t, base); |v| <= |t| && t[..|t| - |v|] + v == t
  {}

  lemma SplitText(blank: string, s: string)
    ensures FromOdd(Split(blank, s)) == s
  {
    hide Run, DetectBase, AfterSign, AfterPrefix;
    var base := DetectBase(s);
    var t := Skipped(s);
    var u := AfterSign(t);
    var v := AfterPrefix(u, base);
    Rejoin(s, Run(s, Space));
    Suffixes(t, base);
    Suffixes(u, base);
    Rejoin(v, Run(v, Digits(base)));
    hide Skipped, Digits;
  }

  lemma HexRunOfBareZero(u: string)
    requires |u| >= 2 && u[0] == '0' && !In(u[1], Hex)
    ensures Run(u, Hex) == 1
  {
    Rejoin(u, 1);
    RunSplits(u[..1], u[1..], Hex);
  }

  lemma SplitSign(t: string)
    ensures var sign := t[..|t| - |AfterSign(t)|]; sign == "" || sign == "+" || sign == "-"
  {
    if t != "" && IsSign(t[0]) {
      assert t[..1] == [t[0]];
    }
  }

  lemma SplitPrefix(u: string)
    requires |u| >= 2 && u[0] == '0' && (u[1] == 'x' || u[1] == 'X')
    requires var v := AfterPrefix(u, 16); Run(v, Hex) > 0 && All(v[Run(v, Hex)..], Blank)
    ensures var prefix := u[..|u| - |AfterPrefix(u, 16)|]; prefix == "0x" || prefix == "0X"
  {
    HexRunOfBareZero(u);
    assert u[1..][0] == u[1];
    assert u[..2] == [u[0], u[1]];
  }

  lemma SplitOdd(text: string)
    ensures var s := Trimmed(text);
            var odd := s[..Run(s, Space)];
            All(odd, Space) && (odd != "" ==> !In(odd[0], Blank))
  {
    var s := Trimmed(text);
    RunIsLongest(text, Blank);
    RunIsLongest(s, Space);
    assert s != "" ==> s[0] == text[Run(text, Blank)];
  }

  lemma AcceptedRest(kind: IntKind, s: string)
    requires ParseInt(kind, s).Some?
    ensures var v := AfterPrefix(AfterSign(Skipped(s)), DetectBase(s));
            var n := Run(v, Digits(DetectBase(s)));
            n > 0 && All(v[n..], Blank)
  {
    hide Run, Skipped, AfterSign, AfterPrefix, DetectBase, Magnitude, InRange, Signed, All;
  }

  lemma SplitDigits(v: string, base: nat)
    ensures All(v[..Run(v, Digits(base))], Digits(base)) && All(v[..Run(v, Digits(base))], Hex)
  {
    RunIsLongest(v, Digits(base));
  }

  lemma BaseTen(s: string)
    requires DetectBase(s) != 16
    ensures DetectBase(s) == 10 && Digits(10) == Decimal && forall u :: AfterPrefix(u, 10) == u
  {}

  lemma BaseSixteen(s: string)
    requires DetectBase(s) == 16
    ensures Digits(16) == Hex && Run(s, Space) == 0
    ensures var u := AfterSign(Skipped(s)); |u| >= 2 && u[0] == '0' && (u[1] == 'x' || u[1] == 'X')
  {}

  /** An accepted text consists of well-formed parts: a 0x without digits is never accepted. */
  lemma SplitWellFormed(kind: IntKind, text: string)
    requires ParseInt(kind, Trimmed(text)).Some?
    ensures WellFormed(Split(text[..Run(text, Blank)], Trimmed(text)))
  {
    hide Run, Skipped, AfterSign, AfterPrefix, DetectBase, Trimmed, All, In, ParseInt, Digits;
    var s := Trimmed(text);
    AcceptedRest(kind, s);
    RunIsLongest(text, Blank);
    SplitDigits(AfterPrefix(AfterSign(Skipped(s)), DetectBase(s)), DetectBase(s));
    SplitOdd(text);
    SplitSign(Skipped(s));
    if DetectBase(s) == 16 {
      BaseSixteen(s);
      SplitPrefix(AfterSign(Skipped(s)));
    } else {
      BaseTen(s);
    }
  }

  /** For every integer kind and every text: the code accepts exactly the documented texts with
      their number, and the strays. */
  lemma IntegersParseExactly(kind: IntKind, text: string, n: int)
    ensures Parse(Int(kind), text) == Some(IntValue(kind, n)) <==>
              exists num :: Denotes(kind, num, text, n) || Strays(kind, num, text, n)
  {
    hide FromOdd, Denotes, Strays, WellFormed, ParseInt, Trimmed, Run, Split;
    if Parse(Int(kind), text) == Some(IntValue(kind, n)) {
      var num := Split(text[..Run(text, Blank)], Trimmed(text));
      SplitWellFormed(kind, text);
      SplitWhole(text);
      WellFormedParse(kind, num, n);
      assert Denotes(kind, num, text, n) || Strays(kind, num, text, n);
    }
    forall num | Denotes(kind, num, text, n) || Strays(kind, num, text, n)
      ensures Parse(Int(kind), text) == Some(IntValue(kind, n))
    {
      PartsAreTheText(kind, num, text, n);
      WellFormedParse(kind, num, n);
    }
  }

  lemma SplitWhole(text: string)
    ensures Text(Split(text[..Run(text, Blank)], Trimmed(text))) == text
  {
    SplitText(text[..Run(text, Blank)], Trimmed(text));
    Rejoin(text, Run(text, Blank));
    hide FromOdd;
  }

  lemma PartsAreTheText(kind: IntKind, num: Numeral, text: string, n: int)
    requires Denotes(kind, num, text, n) || Strays(kind, num, text, n)
    ensures WellFormed(num) && Text(num) == text
  {}

  // ---------------------------------------------------------------- the documented language

  ghost predicate Documented(kind: IntKind, text: string, n: int) {
    exists num :: Denotes(kind, num, text, n)
  }

  ghost predicate Stray(kind: IntKind, text: string, n: int) {
    exists num :: Strays(kind, num, text, n)
  }

  /** The first character that is not a blank is other white space. */
  predicate OddStart(text: string) {
    Trimmed(text) != "" && In(Trimmed(text)[0], Space)
  }

  lemma OddStartOf(num: Numeral)
    requires WellFormed(num)
    ensures OddStart(Text(num)) <==> num.odd != ""
  {
    BlanksSkipped(num);
    SpaceSkipped(num);
    SignSkipped(num);
    hide Text, FromOdd, FromSign, Skipped, Trimmed;
  }

  /** The code follows its documentation on a text exactly when the text is no stray; and a text
      whose first non-blank character is not other white space never is one. */
  lemma DocumentedUnlessStray(kind: IntKind, text: string)
    ensures (forall n :: Parse(Int(kind), text) == Some(IntValue(kind, n)) <==> Documented(kind, text, n))
              <==> !exists n :: Stray(kind, text, n)
    ensures (exists n :: Stray(kind, text, n)) ==> OddStart(text)
  {
    forall n
      ensures Parse(Int(kind), text) == Some(IntValue(kind, n)) <==> Documented(kind, text, n) || Stray(kind, text, n)
      ensures Documented(kind, text, n) ==> !OddStart(text)
      ensures Stray(kind, text, n) ==> OddStart(text)
    {
      IntegersParseExactly(kind, text, n);
      OneSide(kind, text, n);
      hide Denotes, Strays, OddStart, Parse;
    }
  }

  lemma OneSide(kind: IntKind, text: string, n: int)
    ensures Documented(kind, text, n) ==> !OddStart(text)
    ensures Stray(kind, text, n) ==> OddStart(text)
  {
    hide WellFormed, OddStart, Text;
    forall num | Denotes(kind, num, text, n) || Strays(kind, num, text, n)
      ensures WellFormed(num) && Text(num) == text && (OddStart(text) <==> num.odd != "")
    {
      OddStartOf(num);
    }
  }

  // ---------------------------------------------------------------- two strays

  /** "\n-1" is taken for a uint64: the sign check saw the line feed, and the number wrapped. */
  lemma NegativeTextAsUnsigned()
    ensures Parse(Int(U64), "\n-1") == Some(IntValue(U64, 0xFFFF_FFFF_FFFF_FFFF))
    ensures !Documented(U64, "\n-1", 0xFFFF_FFFF_FFFF_FFFF)
  {
    var num := Numeral("", "\n", "-", "", "1", "");
    var text := "\n-1";
    assert Text(num) == text by {
      assert FromDigits(num) == "1" && FromPrefix(num) == "1" && FromSign(num) == "-1" && FromOdd(num) == text;
    }
    assert Magnitude("1", 10) == 1 by { assert "1"[..0] == ""; }
    assert Strays(U64, num, text, 0xFFFF_FFFF_FFFF_FFFF);
    IntegersParseExactly(U64, text, 0xFFFF_FFFF_FFFF_FFFF);
    OneSide(U64, text, 0xFFFF_FFFF_FFFF_FFFF);
    hide Parse, Strays, Denotes, OddStart;
  }

  // ---------------------------------------------------------------- format_param_value

  /** The decimal text of n, as snprintf() prints it. */
  function Decimals(n: nat): (s: string)
    ensures s != "" && All(s, Decimal) && All(s, Hex)
  {
    var last := [('0' as int + n % 10) as char];
    if n < 10 then last else Decimals(n / 10) + last
  }

  function Render(v: ParamValue): string {
    match v
    case BoolValue(b) => if b then "true" else "false"
    case IntValue(_, n) => if n < 0 then "-" + Decimals(-n) else Decimals(n)
    case NoValue => "(unsupported)"
  }

  /** format_param_value() into a buffer of cap characters, one of them for the end of the string. */
  function Format(v: ParamValue, cap: nat): string
    requires cap > 0
  {
    var s := Render(v);
    if |s| < cap then s else s[..cap - 1]
  }

  lemma {:induction false} DecimalsDenote(n: nat)
    ensures Magnitude(Decimals(n), 10) == n
  {
    var s := Decimals(n);
    if n >= 10 {
      DecimalsDenote(n / 10);
      assert s[..|s| - 1] == Decimals(n / 10);
    } else {
      assert s[..|s| - 1] == "";
    }
  }

  /** A cut decimal text denotes less. */
  lemma {:induction false} CutDecimals(n: nat, k: nat)
    requires 0 < k < |Decimals(n)|
    ensures Magnitude(Decimals(n)[..k], 10) < n
  {
    var s := Decimals(n);
    var front := Decimals(n / 10);
    assert s[..k] == front[..k];
    if k == |front| {
      assert front[..k] == front;
      DecimalsDenote(n / 10);
    } else {
      CutDecimals(n / 10, k);
    }
  }

  // ---------------------------------------------------------------- the round trip

  function TypeOf(v: ParamValue): ParamType {
    match v
    case NoValue => Unsupported
    case BoolValue(_) => Bool
    case IntValue(kind, _) => Int(kind)
  }

  /** A value of a readable type, as the C++ types hold it. */
  predicate Holdable(v: ParamValue) {
    v.BoolValue? || (v.IntValue? && InRange(v.kind, v.n))
  }

  /** param_values_equal() */
  predicate ValuesEqual(a: ParamValue, b: ParamValue) {
    TypeOf(a) == TypeOf(b) &&
    match a
    case NoValue => false
    case BoolValue(x) => x == b.b
    case IntValue(_, n) => n == b.n
  }

  /** Values are equal when they are the same value of the same type; no value equals nothing. */
  lemma ValuesEqualIff(a: ParamValue, b: ParamValue)
    ensures ValuesEqual(a, b) <==> a == b && a != NoValue
  {}

  function Plain(sign: string, digits: string): Numeral {
    Numeral("", "", sign, "", digits, "")
  }

  lemma PlainText(sign: string, digits: string)
    ensures Text(Plain(sign, digits)) == sign + digits
  {
    assert digits + "" == digits;
  }

  /** A sign with decimal digits is read as that number, or not at all. */
  lemma PlainParse(kind: IntKind, sign: string, digits: string, n: int)
    requires (sign == "" || sign == "-") && digits != "" && All(digits, Decimal) && All(digits, Hex)
    ensures Parse(Int(kind), sign + digits) == Some(IntValue(kind, n)) <==>
              && (sign == "-" ==> Signed(kind)) && InRange(kind, n)
              && n == if sign == "-" then -(Magnitude(digits, 10) as int) else Magnitude(digits, 10)
  {
    var num := Plain(sign, digits);
    PlainText(sign, digits);
    WellFormedParse(kind, num, n);
    hide Parse, Magnitude, InRange, Signed, Text;
  }

  lemma NoDigits(kind: IntKind)
    ensures Parse(Int(kind), "") == None && Parse(Int(kind), "-") == None
  {
    assert Run("-", Blank) == Run("-", Space) == 0;
    assert Skipped("-") == "-" && AfterSign("-") == "" && AfterPrefix("", 10) == "";
  }

  lemma CutText(sign: string, digits: string, cap: nat)
    requires 0 < cap <= |sign + digits| && |sign| <= 1
    ensures var k := cap - 1 - |sign|;
            if k <= 0 then (sign + digits)[..cap - 1] == "" || (sign + digits)[..cap - 1] == sign
            else 0 < k < |digits| && (sign + digits)[..cap - 1] == sign + digits[..k]
  {}

  /** A text cut short is read as something else, or not at all. */
  lemma CutNeverParses(kind: IntKind, sign: string, m: nat, cap: nat)
    requires (sign == "" || sign == "-") && 0 < cap <= |sign + Decimals(m)|
    ensures Parse(Int(kind), (sign + Decimals(m))[..cap - 1])
         != Some(IntValue(kind, if sign == "-" then -(m as int) else m))
  {
    hide Parse, Decimals, InRange, Signed, Magnitude;
    var digits := Decimals(m);
    var k := cap - 1 - |sign|;
    CutText(sign, digits, cap);
    if k <= 0 {
      NoDigits(kind);
    } else {
      CutDecimals(m, k);
      PlainParse(kind, sign, digits[..k], if sign == "-" then -(m as int) else m);
    }
  }

  lemma IntegerRoundTrip(kind: IntKind, n: int, cap: nat)
    requires InRange(kind, n) && cap > 0
    ensures var v := IntValue(kind, n);
            Parse(Int(kind), Format(v, cap)) == Some(v) <==> |Render(v)| < cap
  {
    var m := if n < 0 then -n else n;
    var sign := if n < 0 then "-" else "";
    assert n < 0 ==> Signed(kind);
    hide Parse, Decimals, InRange, Signed, Magnitude;
    assert Render(IntValue(kind, n)) == sign + Decimals(m);
    if |sign + Decimals(m)| < cap {
      DecimalsDenote(m);
      PlainParse(kind, sign, Decimals(m), n);
    } else {
      CutNeverParses(kind, sign, m, cap);
    }
  }

  lemma BoolRoundTrip(b: bool, cap: nat)
    requires cap > 0
    ensures Parse(Bool, Format(BoolValue(b), cap)) == Some(BoolValue(b)) <==> |Render(BoolValue(b))| < cap
  {
    var s := Format(BoolValue(b), cap);
    assert Run(s, Blank) == 0;
    assert Trimmed(s) == s;
  }

  /** For every value of a readable type: parsing the formatted value gives an equal value of the
      same type exactly when the buffer held the whole text. */
  lemma RoundTrip(v: ParamValue, cap: nat)
    requires Holdable(v) && cap > 0
    ensures var r := Parse(TypeOf(v), Format(v, cap));
            r.Some? && ValuesEqual(r.value, v) <==> |Render(v)| < cap
  {
    match v
    case BoolValue(b) => BoolRoundTrip(b, cap);
    case IntValue(kind, n) => IntegerRoundTrip(kind, n, cap);
    case NoValue =>
  }
}
