/** JSON text as the envelope codec uses it: a compact printer, a parser with the
    nesting limit of 128, and objects whose fields are kept in key order. */
module Json {
  import opened Basics
  import opened Text

  /** `Int` is an integer token that fits `i64` or `u64`; every other number is kept as
      its text, because the protocol never looks inside one. */
  datatype Json =
    | Null
    | Bool(b: bool)
    | Int(n: int)
    | Float(text: string)
    | Str(s: string)
    | Arr(items: seq<Json>)
    | Obj(fields: seq<Field>)

  datatype Field = Field(key: string, value: Json)

  const U64_MAX: int := 0xFFFF_FFFF_FFFF_FFFF
  const MAX_DEPTH: nat := 128

  // ----- Printing -----------------------------------------------------------------

  function HexDigit(n: nat): char
    requires n < 16
  {
    if n < 10 then '0' + n as char else 'a' + (n - 10) as char
  }

  function EscapedChar(c: char): string {
    if c == '"' then "\\\""
    else if c == '\\' then "\\\\"
    else if c == '\n' then "\\n"
    else if c == '\r' then "\\r"
    else if c == '\t' then "\\t"
    else if c as int == 8 then "\\b"
    else if c as int == 12 then "\\f"
    else if c as int < 32 then "\\u00" + [HexDigit(c as int / 16), HexDigit(c as int % 16)]
    else [c]
  }

  function Escaped(s: string): string {
    if s == [] then [] else EscapedChar(s[0]) + Escaped(s[1..])
  }

  function Quoted(s: string): string { ['"'] + (Escaped(s) + ['"']) }

  function Print(v: Json): string
    decreases v, 0
  {
    match v
    case Null => "null"
    case Bool(b) => if b then "true" else "false"
    case Int(n) => ToDecimal(n)
    case Float(text) => text
    case Str(s) => Quoted(s)
    case Arr(items) => if items == [] then "[]" else ['['] + PrintItems(items)
    case Obj(fields) => if fields == [] then "{}" else ['{'] + PrintFields(fields)
  }

  // The items after the opening bracket, with the closing one.
  function PrintItems(items: seq<Json>): string
    requires items != []
    decreases items, 1
  {
    Print(items[0]) + (if |items| == 1 then "]" else [','] + PrintItems(items[1..]))
  }

  function PrintFields(fields: seq<Field>): string
    requires fields != []
    decreases fields, 1
  {
    Quoted(fields[0].key) + ([':'] + (Print(fields[0].value)
    + (if |fields| == 1 then "}" else [','] + PrintFields(fields[1..]))))
  }

  // ----- Parsing ------------------------------------------------------------------

  predicate IsSpace(c: char) { c == ' ' || c == '\n' || c == '\t' || c == '\r' }

  function SkipSpace(s: string): (rest: string)
    ensures |rest| <= |s|
  {
    if s != [] && IsSpace(s[0]) then SkipSpace(s[1..]) else s
  }

  function HexValue(c: char): Option<nat> {
    if '0' <= c <= '9' then Some(c as int - '0' as int)
    else if 'a' <= c <= 'f' then Some(c as int - 'a' as int + 10)
    else if 'A' <= c <= 'F' then Some(c as int - 'A' as int + 10)
    else None
  }

  function Hex4(s: string): (r: Option<nat>)
    ensures r.Some? ==> |s| >= 4 && r.value < 0x1_0000
  {
    if |s| < 4 then None
    else
      match (HexValue(s[0]), HexValue(s[1]), HexValue(s[2]), HexValue(s[3]))
      case (Some(a), Some(b), Some(c), Some(d)) =>
        if a < 16 && b < 16 && c < 16 && d < 16 then Some(((a * 16 + b) * 16 + c) * 16 + d) else None
      case _ => None
  }

  datatype Parsed<T> = Parsed(value: T, rest: string)

  /** The escape after a backslash; surrogate pairs are joined, lone ones refused. */
  function ParseEscape(s: string): (r: Option<Parsed<char>>)
    ensures r.Some? ==> |r.value.rest| < |s|
  {
    if s == [] then None
    else
      var rest := s[1..];
      match s[0]
      case '"' => Some(Parsed('"', rest))
      case '\\' => Some(Parsed('\\', rest))
      case '/' => Some(Parsed('/', rest))
      case 'b' => Some(Parsed(8 as char, rest))
      case 'f' => Some(Parsed(12 as char, rest))
      case 'n' => Some(Parsed('\n', rest))
      case 'r' => Some(Parsed('\r', rest))
      case 't' => Some(Parsed('\t', rest))
      case 'u' =>
        (match Hex4(rest)
         case None => None
         case Some(high) =>
           if high < 0xD800 || high > 0xDFFF then Some(Parsed(high as char, rest[4..]))
           else if high > 0xDBFF || |rest| < 6 || rest[4] != '\\' || rest[5] != 'u' then None
           else
             match Hex4(rest[6..])
             case None => None
             case Some(low) =>
               if low < 0xDC00 || low > 0xDFFF then None
               else Some(Parsed((0x1_0000 + (high - 0xD800) * 0x400 + (low - 0xDC00)) as char, rest[10..])))
      case _ => None
  }

  /** A string body up to and including the closing quote. */
  function ParseString(s: string): (r: Option<Parsed<string>>)
    ensures r.Some? ==> |r.value.rest| < |s|
    decreases |s|
  {
    if s == [] || s[0] as int < 32 then None
    else if s[0] == '"' then Some(Parsed([], s[1..]))
    else if s[0] != '\\' then
      match ParseString(s[1..])
      case None => None
      case Some(p) => Some(Parsed([s[0]] + p.value, p.rest))
    else
      match ParseEscape(s[1..])
      case None => None
      case Some(e) =>
        match ParseString(e.rest)
        case None => None
        case Some(p) => Some(Parsed([e.value] + p.value, p.rest))
  }

  function DigitRun(s: string): (n: nat)
    ensures n <= |s| && AllDigits(s[..n])
    ensures n < |s| ==> !IsDigit(s[n])
  {
    if s != [] && IsDigit(s[0]) then
      var n := DigitRun(s[1..]);
      assert s[..n + 1] == [s[0]] + s[1..][..n];
      1 + n
    else 0
  }

  /** Length of an exponent, if a well-formed one starts here. */
  function ExponentLength(s: string): (n: Option<nat>)
    ensures n.Some? ==> n.value <= |s|
  {
    if s == [] || (s[0] != 'e' && s[0] != 'E') then Some(0)
    else
      var sign := if |s| >= 2 && (s[1] == '+' || s[1] == '-') then 2 else 1;
      var digits := DigitRun(s[sign..]);
      if digits == 0 then None else Some(sign + digits)
  }

  function FractionLength(s: string): (n: Option<nat>)
    ensures n.Some? ==> n.value <= |s|
  {
    if s == [] || s[0] != '.' then Some(0)
    else
      var digits := DigitRun(s[1..]);
      if digits == 0 then None else Some(1 + digits)
  }

  /** Length of the unsigned number that starts here: digits with no superfluous leading
      zero, then perhaps a fraction and an exponent. */
  function TokenLength(s: string): (n: Option<nat>)
    ensures n.Some? ==> 0 < n.value <= |s|
  {
    TokenFrom(s, DigitRun(s))
  }

  function TokenFrom(s: string, digits: nat): (n: Option<nat>)
    requires digits <= |s|
    ensures n.Some? ==> 0 < n.value <= |s|
  {
    if digits == 0 || (digits > 1 && s[0] == '0') then None
    else
      match TailLength(s[digits..])
      case None => None
      case Some(tail) => Some(digits + tail)
  }

  /** A fraction, if there is one, and then an exponent, if there is one. */
  function TailLength(s: string): (n: Option<nat>)
    ensures n.Some? ==> n.value <= |s|
  {
    match FractionLength(s)
    case None => None
    case Some(fraction) =>
      match ExponentLength(s[fraction..])
      case None => None
      case Some(exponent) => Some(fraction + exponent)
  }

  /** A fraction, an exponent, minus zero or an integer too large for 64 bits makes the
      number a `Float`. */
  function NumberOf(token: string, negative: bool): Json {
    if AllDigits(token) && IntegerFits(Signed(DigitsValue(token), negative), negative)
    then Int(Signed(DigitsValue(token), negative))
    else Float((if negative then ['-'] else []) + token)
  }

  predicate IntegerFits(n: int, negative: bool) { I64_MIN <= n <= U64_MAX && !(negative && n == 0) }

  function Signed(n: nat, negative: bool): int {
    var m: int := n;
    if negative then -m else m
  }

  function ParseNumber(s: string, negative: bool): (r: Option<Parsed<Json>>)
    ensures r.Some? ==> |r.value.rest| < |s|
  {
    match TokenLength(s)
    case None => None
    case Some(n) => Some(Parsed(NumberOf(s[..n], negative), s[n..]))
  }

  function ParseLiteral(s: string, literal: string, v: Json): (r: Option<Parsed<Json>>)
    requires literal != []
    ensures r.Some? ==> |r.value.rest| < |s|
  {
    if literal <= s then Some(Parsed(v, s[|literal|..])) else None
  }

  /** A literal, a number or a string, told apart by its first character. */
  function ParseScalar(t: string): (r: Option<Parsed<Json>>)
    requires t != []
    ensures r.Some? ==> |r.value.rest| < |t|
  {
    if t[0] == 'n' then ParseLiteral(t, "null", Null)
    else if t[0] == 't' then ParseLiteral(t, "true", Bool(true))
    else if t[0] == 'f' then ParseLiteral(t, "false", Bool(false))
    else if t[0] == '-' then ParseNumber(t[1..], true)
    else if IsDigit(t[0]) then ParseNumber(t, false)
    else if t[0] == '"' then TextValue(ParseString(t[1..]))
    else None
  }

  function TextValue(p: Option<Parsed<string>>): Option<Parsed<Json>> {
    match p
    case None => None
    case Some(text) => Some(Parsed(Str(text.value), text.rest))
  }

  /** One value after optional white space; `depth` levels of nesting remain. */
  function ParseValue(s: string, depth: nat): (r: Option<Parsed<Json>>)
    ensures r.Some? ==> |r.value.rest| < |s|
    decreases |s|, 2
  {
    var t := SkipSpace(s);
    if t == [] then None
    else if t[0] == '[' then
      if depth <= 1 then None
      else
        var u := SkipSpace(t[1..]);
        if u != [] && u[0] == ']' then Some(Parsed(Arr([]), u[1..]))
        else
          match ParseItems(t[1..], depth - 1)
          case None => None
          case Some(p) => Some(Parsed(Arr(p.value), p.rest))
    else if t[0] == '{' then
      if depth <= 1 then None
      else
        var u := SkipSpace(t[1..]);
        if u != [] && u[0] == '}' then Some(Parsed(Obj([]), u[1..]))
        else
          match ParseFields(t[1..], depth - 1)
          case None => None
          case Some(p) => Some(Parsed(Obj(p.value), p.rest))
    else ParseScalar(t)
  }

  function ParseItems(s: string, depth: nat): (r: Option<Parsed<seq<Json>>>)
    ensures r.Some? ==> |r.value.rest| < |s|
    decreases |s|, 3
  {
    match ParseValue(s, depth)
    case None => None
    case Some(first) =>
      var t := SkipSpace(first.rest);
      if t != [] && t[0] == ']' then Some(Parsed([first.value], t[1..]))
      else if t != [] && t[0] == ',' then
        match ParseItems(t[1..], depth)
        case None => None
        case Some(more) => Some(Parsed([first.value] + more.value, more.rest))
      else None
  }

  function ParseFields(s: string, depth: nat): (r: Option<Parsed<seq<Field>>>)
    ensures r.Some? ==> |r.value.rest| < |s|
    decreases |s|, 3
  {
    var t := SkipSpace(s);
    if t == [] || t[0] != '"' then None
    else
      match ParseString(t[1..])
      case None => None
      case Some(key) =>
        var u := SkipSpace(key.rest);
        if u == [] || u[0] != ':' then None
        else
          match ParseValue(u[1..], depth)
          case None => None
          case Some(v) =>
            var field := Field(key.value, v.value);
            var w := SkipSpace(v.rest);
            if w != [] && w[0] == '}' then Some(Parsed([field], w[1..]))
            else if w != [] && w[0] == ',' then
              match ParseFields(w[1..], depth)
              case None => None
              case Some(more) => Some(Parsed([field] + more.value, more.rest))
            else None
  }

  /** A whole document: one value, then nothing but white space. */
  function Parse(s: string): Option<Json> {
    match ParseValue(s, MAX_DEPTH)
    case None => None
    case Some(p) => if SkipSpace(p.rest) == [] then Some(p.value) else None
  }

  // ----- Reading back what was printed ----------------------------------------------

  /** Number text that stands for itself: a number, with or without a minus, that no
      64-bit integer equals. */
  predicate FloatText(text: string) {
    var negative := text != [] && text[0] == '-';
    var token := if negative then text[1..] else text;
    TokenLength(token) == Some(|token|) && NumberOf(token, negative) == Float(text)
  }

  /** What a document may hold, with `depth` levels of nesting left. */
  predicate Printable(v: Json, depth: nat)
    decreases v
  {
    match v
    case Null => true
    case Bool(_) => true
    case Int(n) => I64_MIN <= n <= U64_MAX
    case Float(text) => FloatText(text)
    case Str(_) => true
    case Arr(items) => depth > 1 && forall i :: 0 <= i < |items| ==> Printable(items[i], depth - 1)
    case Obj(fields) => depth > 1 && forall i :: 0 <= i < |fields| ==> Printable(fields[i].value, depth - 1)
  }

  // What may follow a value: nothing that could be taken for more of a number.
  predicate Delimited(rest: string) { rest == [] || rest[0] == ',' || rest[0] == ']' || rest[0] == '}' }

  lemma EscapeReadsBack(c: char, rest: string)
    requires c == '"' || c == '\\' || c as int < 32
    ensures ParseEscape((EscapedChar(c) + rest)[1..]) == Some(Parsed(c, rest))
  {
    var s := EscapedChar(c) + rest;
    if |EscapedChar(c)| == 2 {
      assert s[1..][1..] == rest;
    } else {
      var hex := s[2..];
      assert s[1..][1..] == hex && hex[4..] == rest;
      assert HexValue(hex[2]) == Some(c as int / 16) && HexValue(hex[3]) == Some(c as int % 16);
      assert Hex4(hex) == Some(c as int);
    }
  }

  lemma EscapedCharReads(c: char, tail: string, rest: string, s: string)
    requires c == '"' || c == '\\' || c as int < 32
    requires ParseString(tail) == Some(Parsed(s, rest))
    ensures ParseString(EscapedChar(c) + tail) == Some(Parsed([c] + s, rest))
  {
    EscapeReadsBack(c, tail);
    assert (EscapedChar(c) + tail)[0] == '\\';
  }

  lemma PlainCharReads(c: char, tail: string, rest: string, s: string)
    requires c != '"' && c != '\\' && c as int >= 32
    requires ParseString(tail) == Some(Parsed(s, rest))
    ensures ParseString(EscapedChar(c) + tail) == Some(Parsed([c] + s, rest))
  {
    assert (EscapedChar(c) + tail)[1..] == tail;
  }

  lemma EmptyStringReads(rest: string)
    ensures ParseString(Escaped([]) + (['"'] + rest)) == Some(Parsed([], rest))
  {
    assert Escaped([]) + (['"'] + rest) == ['"'] + rest;
  }

  lemma {:induction false} StringReadsBack(s: string, rest: string)
    ensures ParseString(Escaped(s) + (['"'] + rest)) == Some(Parsed(s, rest))
  {
    if s == [] {
      EmptyStringReads(rest);
    } else {
      StringReadsBack(s[1..], rest);
      CharReads(s[0], Escaped(s[1..]) + (['"'] + rest), rest, s[1..]);
      EscapedPrints(s, ['"'] + rest);
      assert [s[0]] + s[1..] == s;
    }
  }

  lemma EscapedPrints(s: string, rest: string)
    requires s != []
    ensures Escaped(s) + rest == EscapedChar(s[0]) + (Escaped(s[1..]) + rest)
  {
  }

  lemma CharReads(c: char, tail: string, rest: string, s: string)
    requires ParseString(tail) == Some(Parsed(s, rest))
    ensures ParseString(EscapedChar(c) + tail) == Some(Parsed([c] + s, rest))
  {
    if c == '"' || c == '\\' || c as int < 32 {
      EscapedCharReads(c, tail, rest, s);
    } else {
      PlainCharReads(c, tail, rest, s);
    }
  }

  lemma QuotedReadsBack(s: string, rest: string)
    ensures (Quoted(s) + rest)[0] == '"' && ParseString((Quoted(s) + rest)[1..]) == Some(Parsed(s, rest))
  {
    QuotedPrints(s, rest);
    StringReadsBack(s, rest);
  }

  lemma QuotedPrints(s: string, rest: string)
    ensures (Quoted(s) + rest)[0] == '"' && (Quoted(s) + rest)[1..] == Escaped(s) + (['"'] + rest)
  {
  }

  lemma {:induction false} DigitRunExtends(s: string, rest: string)
    requires DigitRun(s) < |s| || rest == [] || !IsDigit(rest[0])
    ensures DigitRun(s + rest) == DigitRun(s)
  {
    if s == [] {
      assert s + rest == rest;
    } else {
      assert (s + rest)[1..] == s[1..] + rest;
      if IsDigit(s[0]) {
        DigitRunExtends(s[1..], rest);
      }
    }
  }

  lemma {:induction false} FractionExtends(s: string, rest: string)
    requires FractionLength(s).Some?
    requires FractionLength(s).value < |s| || Delimited(rest)
    ensures FractionLength(s + rest) == FractionLength(s)
  {
    if s == [] {
      assert s + rest == rest;
    } else {
      assert (s + rest)[1..] == s[1..] + rest;
      if s[0] == '.' {
        DigitRunExtends(s[1..], rest);
      }
    }
  }

  lemma {:induction false} ExponentExtends(s: string, rest: string)
    requires ExponentLength(s).Some?
    requires ExponentLength(s).value < |s| || Delimited(rest)
    ensures ExponentLength(s + rest) == ExponentLength(s)
  {
    if s == [] {
      assert s + rest == rest;
    } else if s[0] == 'e' || s[0] == 'E' {
      var sign := if |s| >= 2 && (s[1] == '+' || s[1] == '-') then 2 else 1;
      assert (s + rest)[sign..] == s[sign..] + rest;
      DigitRunExtends(s[sign..], rest);
    }
  }

  lemma {:induction false} TailExtends(s: string, rest: string)
    requires TailLength(s).Some? && (TailLength(s).value < |s| || Delimited(rest))
    ensures TailLength(s + rest) == TailLength(s)
  {
    var fraction := FractionLength(s).value;
    FractionExtends(s, rest);
    DropOfConcat(s, rest, fraction);
    ExponentExtends(s[fraction..], rest);
  }

  lemma {:induction false} SameToken(s: string, t: string, digits: nat)
    requires digits <= |s| && digits <= |t| && (digits > 0 ==> s[0] == t[0])
    requires TailLength(s[digits..]) == TailLength(t[digits..])
    ensures TokenFrom(s, digits) == TokenFrom(t, digits)
  {
  }

  /** A number ends at a delimiter. */
  lemma {:induction false} TokenExtends(s: string, rest: string)
    requires TokenLength(s).Some? && (TokenLength(s).value < |s| || Delimited(rest))
    ensures TokenLength(s + rest) == TokenLength(s)
  {
    TailAfterDigits(s, rest);
    SameToken(s, s + rest, DigitRun(s));
  }

  lemma {:induction false} TokenParts(s: string)
    requires TokenLength(s).Some?
    ensures var digits := DigitRun(s);
            && 0 < digits && !(digits > 1 && s[0] == '0') && TailLength(s[digits..]).Some?
            && TokenLength(s).value == digits + TailLength(s[digits..]).value
  {
  }

  lemma {:induction false} TailAfterDigits(s: string, rest: string)
    requires TokenLength(s).Some? && (TokenLength(s).value < |s| || Delimited(rest))
    ensures DigitRun(s + rest) == DigitRun(s)
    ensures TailLength((s + rest)[DigitRun(s)..]) == TailLength(s[DigitRun(s)..])
  {
    var digits := DigitRun(s);
    TokenParts(s);
    DigitRunExtends(s, rest);
    DropOfConcat(s, rest, digits);
    TailExtends(s[digits..], rest);
  }

  lemma DropOfConcat(s: string, rest: string, n: nat)
    requires n <= |s|
    ensures (s + rest)[n..] == s[n..] + rest
  {
  }

  lemma PlainNumberReads(digits: string, negative: bool, rest: string)
    requires digits != [] && AllDigits(digits) && (|digits| > 1 ==> digits[0] != '0') && Delimited(rest)
    requires IntegerFits(Signed(DigitsValue(digits), negative), negative)
    ensures ParseNumber(digits + rest, negative) == Some(Parsed(Int(Signed(DigitsValue(digits), negative)), rest))
  {
    DigitsAreToken(digits);
    TokenReads(digits, negative, rest);
  }

  lemma {:induction false} DigitsAreToken(digits: string)
    requires digits != [] && AllDigits(digits) && (|digits| > 1 ==> digits[0] != '0')
    ensures TokenLength(digits) == Some(|digits|)
  {
    assert DigitRun(digits) == |digits|;
    assert digits[|digits|..] == [];
  }

  lemma NumberReadsBack(n: nat, negative: bool, rest: string)
    requires Delimited(rest)
    requires if negative then 0 < n <= -I64_MIN else n <= U64_MAX
    ensures ParseNumber(Decimal(n) + rest, negative) == Some(Parsed(Int(Signed(n, negative)), rest))
  {
    DecimalValue(n);
    assert n == 0 ==> |Decimal(n)| == 1;
    PlainNumberReads(Decimal(n), negative, rest);
  }

  lemma {:induction false} TokenReads(token: string, negative: bool, rest: string)
    requires TokenLength(token) == Some(|token|) && Delimited(rest)
    ensures ParseNumber(token + rest, negative) == Some(Parsed(NumberOf(token, negative), rest))
  {
    TokenExtends(token, rest);
    assert (token + rest)[..|token|] == token && (token + rest)[|token|..] == rest;
  }

  lemma {:induction false} MinusTokenReads(token: string, rest: string, depth: nat)
    requires TokenLength(token) == Some(|token|) && Delimited(rest)
    ensures ParseValue(['-'] + token + rest, depth) == Some(Parsed(NumberOf(token, true), rest))
  {
    var s := ['-'] + token + rest;
    assert s[1..] == token + rest;
    MinusStartsNumber(s, depth);
    TokenReads(token, true, rest);
  }

  lemma {:induction false} PlainTokenReads(token: string, rest: string, depth: nat)
    requires TokenLength(token) == Some(|token|) && Delimited(rest)
    ensures ParseValue(token + rest, depth) == Some(Parsed(NumberOf(token, false), rest))
  {
    TokenStartsWithDigit(token);
    DigitStartsNumber(token + rest, depth);
    TokenReads(token, false, rest);
  }

  lemma {:induction false} FloatReadsBack(text: string, rest: string, depth: nat)
    requires FloatText(text) && Delimited(rest)
    ensures ParseValue(text + rest, depth) == Some(Parsed(Float(text), rest))
  {
    if text != [] && text[0] == '-' {
      assert text == ['-'] + text[1..];
      MinusTokenReads(text[1..], rest, depth);
    } else {
      PlainTokenReads(text, rest, depth);
    }
  }

  lemma NegativeReadsBack(n: nat, rest: string, depth: nat)
    requires 0 < n <= -I64_MIN && Delimited(rest)
    ensures ParseValue(['-'] + Decimal(n) + rest, depth) == Some(Parsed(Int(Signed(n, true)), rest))
  {
    var s := ['-'] + Decimal(n) + rest;
    assert s[0] == '-' && s[1..] == Decimal(n) + rest;
    MinusStartsNumber(s, depth);
    NumberReadsBack(n, true, rest);
  }

  lemma NaturalReadsBack(n: nat, rest: string, depth: nat)
    requires n <= U64_MAX && Delimited(rest)
    ensures ParseValue(Decimal(n) + rest, depth) == Some(Parsed(Int(n), rest))
  {
    NumberReadsBack(n, false, rest);
    DigitStartsNumber(Decimal(n) + rest, depth);
  }

  lemma IntReadsBack(n: int, rest: string, depth: nat)
    requires I64_MIN <= n <= U64_MAX && Delimited(rest)
    ensures ParseValue(ToDecimal(n) + rest, depth) == Some(Parsed(Int(n), rest))
  {
    if n < 0 {
      NegativeReadsBack(-n, rest, depth);
    } else {
      NaturalReadsBack(n, rest, depth);
    }
  }

  lemma ScalarStarts(s: string, depth: nat)
    requires s != [] && !IsSpace(s[0]) && s[0] != '[' && s[0] != '{'
    ensures ParseValue(s, depth) == ParseScalar(s)
  {
    assert SkipSpace(s) == s;
  }

  lemma MinusStartsNumber(s: string, depth: nat)
    requires s != [] && s[0] == '-'
    ensures ParseValue(s, depth) == ParseNumber(s[1..], true)
  {
    ScalarStarts(s, depth);
  }

  lemma DigitStartsNumber(s: string, depth: nat)
    requires s != [] && IsDigit(s[0])
    ensures ParseValue(s, depth) == ParseNumber(s, false)
  {
    ScalarStarts(s, depth);
  }

  lemma LiteralReadsBack(rest: string, depth: nat, v: Json)
    requires v == Null || v.Bool?
    ensures ParseValue(Print(v) + rest, depth) == Some(Parsed(v, rest))
  {
    var t := Print(v) + rest;
    assert Print(v) <= t && t[|Print(v)|..] == rest && t[0] == Print(v)[0];
    ScalarStarts(t, depth);
  }

  lemma FloatStarts(text: string)
    requires FloatText(text)
    ensures text != [] && (text[0] == '-' || IsDigit(text[0]))
  {
  }

  // The first character of a printed value gives its shape away.
  lemma PrintStarts(v: Json, depth: nat)
    requires Printable(v, depth)
    ensures Print(v) != [] && !IsSpace(Print(v)[0]) && Print(v)[0] != ']' && Print(v)[0] != '}'
  {
    match v
    case Int(n) => assert n >= 0 ==> IsDigit(Decimal(n)[0]);
    case Float(text) => FloatStarts(text);
    case _ =>
  }

  lemma QuoteStartsString(s: string, depth: nat, text: string, rest: string)
    requires s != [] && s[0] == '"' && ParseString(s[1..]) == Some(Parsed(text, rest))
    ensures ParseValue(s, depth) == Some(Parsed(Str(text), rest))
  {
    ScalarStarts(s, depth);
  }

  lemma BracketStartsArray(s: string, depth: nat, items: seq<Json>, rest: string)
    requires |s| > 1 && s[0] == '[' && !IsSpace(s[1]) && depth > 1
    requires if s[1] == ']' then items == [] && rest == s[2..]
             else ParseItems(s[1..], depth - 1) == Some(Parsed(items, rest))
    ensures ParseValue(s, depth) == Some(Parsed(Arr(items), rest))
  {
    assert SkipSpace(s[1..]) == s[1..] && s[1..][1..] == s[2..];
  }

  lemma BraceStartsObject(s: string, depth: nat, fields: seq<Field>, rest: string)
    requires |s| > 1 && s[0] == '{' && !IsSpace(s[1]) && depth > 1
    requires if s[1] == '}' then fields == [] && rest == s[2..]
             else ParseFields(s[1..], depth - 1) == Some(Parsed(fields, rest))
    ensures ParseValue(s, depth) == Some(Parsed(Obj(fields), rest))
  {
    assert SkipSpace(s[1..]) == s[1..] && s[1..][1..] == s[2..];
  }

  /** Parsing what was printed gives the value back and stops where it ended. */
  lemma {:induction false} ValueReadsBack(v: Json, rest: string, depth: nat)
    requires Printable(v, depth) && Delimited(rest)
    ensures ParseValue(Print(v) + rest, depth) == Some(Parsed(v, rest))
    decreases v, 0
  {
    match v
    case Null => LiteralReadsBack(rest, depth, v);
    case Bool(_) => LiteralReadsBack(rest, depth, v);
    case Int(n) => IntReadsBack(n, rest, depth);
    case Float(text) => FloatReadsBack(text, rest, depth);
    case Str(text) =>
      QuotedReadsBack(text, rest);
      QuoteStartsString(Print(v) + rest, depth, text, rest);
    case Arr(items) => ArrayReadsBack(items, rest, depth);
    case Obj(fields) => ObjectReadsBack(fields, rest, depth);
  }

  lemma {:induction false} ArrayReadsBack(items: seq<Json>, rest: string, depth: nat)
    requires depth > 1 && forall i :: 0 <= i < |items| ==> Printable(items[i], depth - 1)
    ensures ParseValue(Print(Arr(items)) + rest, depth) == Some(Parsed(Arr(items), rest))
    decreases items, 2
  {
    var s := Print(Arr(items)) + rest;
    if items == [] {
      EmptyArrayPrints(rest);
    } else {
      ItemsReadBack(items, rest, depth - 1);
      ArrayPrints(items, rest, depth - 1);
    }
    BracketStartsArray(s, depth, items, rest);
  }

  lemma EmptyArrayPrints(rest: string)
    ensures var s := Print(Arr([])) + rest; |s| > 1 && s[0] == '[' && s[1] == ']' && s[2..] == rest
  {
  }

  lemma ArrayPrints(items: seq<Json>, rest: string, depth: nat)
    requires items != [] && Printable(items[0], depth)
    ensures var s := Print(Arr(items)) + rest;
            |s| > 1 && s[0] == '[' && !IsSpace(s[1]) && s[1] != ']' && s[1..] == PrintItems(items) + rest
  {
    PrintStarts(items[0], depth);
    assert PrintItems(items)[0] == Print(items[0])[0];
  }

  lemma ObjectPrints(fields: seq<Field>, rest: string)
    requires fields != []
    ensures var s := Print(Obj(fields)) + rest;
            |s| > 1 && s[0] == '{' && s[1] == '"' && s[1..] == PrintFields(fields) + rest
  {
    assert PrintFields(fields)[0] == '"';
  }

  lemma {:induction false} ObjectReadsBack(fields: seq<Field>, rest: string, depth: nat)
    requires depth > 1 && forall i :: 0 <= i < |fields| ==> Printable(fields[i].value, depth - 1)
    ensures ParseValue(Print(Obj(fields)) + rest, depth) == Some(Parsed(Obj(fields), rest))
    decreases fields, 2
  {
    var s := Print(Obj(fields)) + rest;
    if fields == [] {
      assert s == "{}" + rest && s[2..] == rest;
      BraceStartsObject(s, depth, fields, rest);
    } else {
      FieldsReadBack(fields, rest, depth - 1);
      ObjectPrints(fields, rest);
      BraceStartsObject(s, depth, fields, rest);
    }
  }

  lemma Associate(a: string, b: string, c: string)
    ensures (a + b) + c == a + (b + c)
  {
  }

  lemma {:induction false} ItemsPrint(items: seq<Json>, rest: string)
    requires items != []
    ensures PrintItems(items) + rest ==
            Print(items[0]) + (if |items| == 1 then [']'] + rest else [','] + (PrintItems(items[1..]) + rest))
  {
    var later := if |items| == 1 then [']'] else [','] + PrintItems(items[1..]);
    Associate(Print(items[0]), later, rest);
    if |items| > 1 {
      Associate([','], PrintItems(items[1..]), rest);
    }
  }

  /** One item, up to the comma or bracket after it. */
  lemma ItemReads(s: string, depth: nat, v: Json, after: string)
    requires ParseValue(s, depth) == Some(Parsed(v, after)) && after != []
    ensures after[0] == ']' ==> ParseItems(s, depth) == Some(Parsed([v], after[1..]))
    ensures after[0] == ',' && ParseItems(after[1..], depth).Some? ==>
              ParseItems(s, depth) == Some(Parsed([v] + ParseItems(after[1..], depth).value.value,
                                                  ParseItems(after[1..], depth).value.rest))
  {
  }

  lemma {:induction false} ItemsReadBack(items: seq<Json>, rest: string, depth: nat)
    requires items != [] && forall i :: 0 <= i < |items| ==> Printable(items[i], depth)
    ensures ParseItems(PrintItems(items) + rest, depth) == Some(Parsed(items, rest))
    decreases items, 1
  {
    if |items| == 1 {
      ValueReadsBack(items[0], [']'] + rest, depth);
      LastItemReads(items, rest, depth);
    } else {
      ValueReadsBack(items[0], [','] + (PrintItems(items[1..]) + rest), depth);
      ItemsReadBack(items[1..], rest, depth);
      NextItemReads(items, rest, depth);
    }
  }

  lemma {:induction false} LastItemReads(items: seq<Json>, rest: string, depth: nat)
    requires |items| == 1
    requires ParseValue(Print(items[0]) + ([']'] + rest), depth) == Some(Parsed(items[0], [']'] + rest))
    ensures ParseItems(PrintItems(items) + rest, depth) == Some(Parsed(items, rest))
  {
    ItemsPrint(items, rest);
    ItemReads(PrintItems(items) + rest, depth, items[0], [']'] + rest);
    assert ([']'] + rest)[1..] == rest && [items[0]] == items;
  }

  lemma {:induction false} NextItemReads(items: seq<Json>, rest: string, depth: nat)
    requires |items| > 1
    requires var after := [','] + (PrintItems(items[1..]) + rest);
             ParseValue(Print(items[0]) + after, depth) == Some(Parsed(items[0], after))
    requires ParseItems(PrintItems(items[1..]) + rest, depth) == Some(Parsed(items[1..], rest))
    ensures ParseItems(PrintItems(items) + rest, depth) == Some(Parsed(items, rest))
  {
    ItemsPrint(items, rest);
    ItemThenMore(items[0], items[1..], PrintItems(items) + rest, PrintItems(items[1..]) + rest, rest, depth);
    assert [items[0]] + items[1..] == items;
  }

  lemma {:induction false} ItemThenMore(v: Json, more: seq<Json>, s: string, later: string, rest: string, depth: nat)
    requires s == Print(v) + ([','] + later)
    requires ParseValue(s, depth) == Some(Parsed(v, [','] + later))
    requires ParseItems(later, depth) == Some(Parsed(more, rest))
    ensures ParseItems(s, depth) == Some(Parsed([v] + more, rest))
  {
    ItemReads(s, depth, v, [','] + later);
    assert ([','] + later)[1..] == later;
  }

  /** One field, up to the comma or brace after it. */
  lemma FieldReads(s: string, depth: nat, key: string, tail: string, v: Json, after: string)
    requires s != [] && s[0] == '"' && ParseString(s[1..]) == Some(Parsed(key, tail))
    requires tail != [] && tail[0] == ':' && ParseValue(tail[1..], depth) == Some(Parsed(v, after))
    requires after != []
    ensures after[0] == '}' ==> ParseFields(s, depth) == Some(Parsed([Field(key, v)], after[1..]))
    ensures after[0] == ',' && ParseFields(after[1..], depth).Some? ==>
              ParseFields(s, depth) == Some(Parsed([Field(key, v)] + ParseFields(after[1..], depth).value.value,
                                                   ParseFields(after[1..], depth).value.rest))
  {
  }

  // A printed field in front of whatever follows it.
  lemma {:induction false} PrintedFieldReads(f: Field, after: string, depth: nat, s: string)
    requires s == Quoted(f.key) + ([':'] + (Print(f.value) + after)) && after != []
    requires ParseValue(Print(f.value) + after, depth) == Some(Parsed(f.value, after))
    ensures after[0] == '}' ==> ParseFields(s, depth) == Some(Parsed([f], after[1..]))
    ensures after[0] == ',' && ParseFields(after[1..], depth).Some? ==>
              ParseFields(s, depth) == Some(Parsed([f] + ParseFields(after[1..], depth).value.value,
                                                   ParseFields(after[1..], depth).value.rest))
  {
    var tail := [':'] + (Print(f.value) + after);
    QuotedReadsBack(f.key, tail);
    assert tail[1..] == Print(f.value) + after;
    FieldReads(s, depth, f.key, tail, f.value, after);
  }

  lemma {:induction false} FieldsPrint(fields: seq<Field>, rest: string)
    requires fields != []
    ensures PrintFields(fields) + rest ==
            Quoted(fields[0].key) + ([':'] + (Print(fields[0].value)
            + (if |fields| == 1 then ['}'] + rest else [','] + (PrintFields(fields[1..]) + rest))))
  {
    var key, value := Quoted(fields[0].key), Print(fields[0].value);
    var later := if |fields| == 1 then ['}'] else [','] + PrintFields(fields[1..]);
    Associate(key, [':'] + (value + later), rest);
    Associate([':'], value + later, rest);
    Associate(value, later, rest);
    if |fields| > 1 {
      Associate([','], PrintFields(fields[1..]), rest);
    }
  }

  lemma {:induction false} FieldsReadBack(fields: seq<Field>, rest: string, depth: nat)
    requires fields != [] && forall i :: 0 <= i < |fields| ==> Printable(fields[i].value, depth)
    ensures ParseFields(PrintFields(fields) + rest, depth) == Some(Parsed(fields, rest))
    decreases fields, 1
  {
    if |fields| == 1 {
      ValueReadsBack(fields[0].value, ['}'] + rest, depth);
      LastFieldReads(fields, rest, depth);
    } else {
      ValueReadsBack(fields[0].value, [','] + (PrintFields(fields[1..]) + rest), depth);
      FieldsReadBack(fields[1..], rest, depth);
      NextFieldReads(fields, rest, depth);
    }
  }

  lemma {:induction false} LastFieldReads(fields: seq<Field>, rest: string, depth: nat)
    requires |fields| == 1
    requires ParseValue(Print(fields[0].value) + (['}'] + rest), depth) == Some(Parsed(fields[0].value, ['}'] + rest))
    ensures ParseFields(PrintFields(fields) + rest, depth) == Some(Parsed(fields, rest))
  {
    FieldsPrint(fields, rest);
    PrintedFieldReads(fields[0], ['}'] + rest, depth, PrintFields(fields) + rest);
    assert (['}'] + rest)[1..] == rest && [fields[0]] == fields;
  }

  lemma {:induction false} NextFieldReads(fields: seq<Field>, rest: string, depth: nat)
    requires |fields| > 1
    requires var after := [','] + (PrintFields(fields[1..]) + rest);
             ParseValue(Print(fields[0].value) + after, depth) == Some(Parsed(fields[0].value, after))
    requires ParseFields(PrintFields(fields[1..]) + rest, depth) == Some(Parsed(fields[1..], rest))
    ensures ParseFields(PrintFields(fields) + rest, depth) == Some(Parsed(fields, rest))
  {
    FieldsPrint(fields, rest);
    FieldThenMore(fields[0], fields[1..], PrintFields(fields) + rest, PrintFields(fields[1..]) + rest, rest, depth);
    HeadAndTail(fields);
  }

  lemma {:induction false} FieldThenMore(f: Field, more: seq<Field>, s: string, later: string, rest: string, depth: nat)
    requires s == Quoted(f.key) + ([':'] + (Print(f.value) + ([','] + later)))
    requires ParseValue(Print(f.value) + ([','] + later), depth) == Some(Parsed(f.value, [','] + later))
    requires ParseFields(later, depth) == Some(Parsed(more, rest))
    ensures ParseFields(s, depth) == Some(Parsed([f] + more, rest))
  {
    PrintedFieldReads(f, [','] + later, depth, s);
    assert ([','] + later)[1..] == later;
  }

  lemma {:induction false} HeadAndTail(fields: seq<Field>)
    requires fields != []
    ensures [fields[0]] + fields[1..] == fields
  {
  }

  // ----- Everything that was parsed can be printed ----------------------------------------

  lemma {:induction false} DigitRunAlone(s: string, n: nat)
    requires DigitRun(s) <= n <= |s|
    ensures DigitRun(s[..n]) == DigitRun(s)
  {
    if n > 0 && IsDigit(s[0]) {
      assert s[..n][1..] == s[1..][..n - 1];
      DigitRunAlone(s[1..], n - 1);
    }
  }

  lemma {:induction false} FractionAlone(s: string, n: nat)
    requires FractionLength(s).Some? && FractionLength(s).value <= n <= |s|
    ensures FractionLength(s[..n]) == FractionLength(s)
  {
    if n > 0 && s[0] == '.' {
      assert s[..n][1..] == s[1..][..n - 1];
      DigitRunAlone(s[1..], n - 1);
    }
  }

  lemma {:induction false} ExponentAlone(s: string)
    requires ExponentLength(s).Some?
    ensures var n := ExponentLength(s).value; ExponentLength(s[..n]) == Some(n)
  {
    var n := ExponentLength(s).value;
    if n > 0 {
      var sign := if |s| >= 2 && (s[1] == '+' || s[1] == '-') then 2 else 1;
      assert s[..n][sign..] == s[sign..][..n - sign];
      DigitRunAlone(s[sign..], n - sign);
    }
  }

  lemma {:induction false} TailAlone(s: string)
    requires TailLength(s).Some?
    ensures var n := TailLength(s).value; TailLength(s[..n]) == Some(n)
  {
    var n, fraction := TailLength(s).value, FractionLength(s).value;
    FractionAlone(s, n);
    DropOfTake(s, fraction, n);
    ExponentAlone(s[fraction..]);
  }

  /** A number cut off behind its end is the same number. */
  lemma {:induction false} TokenAlone(s: string)
    requires TokenLength(s).Some?
    ensures var n := TokenLength(s).value; TokenLength(s[..n]) == Some(n)
  {
    var n, digits := TokenLength(s).value, DigitRun(s);
    TokenParts(s);
    DigitRunAlone(s, n);
    DropOfTake(s, digits, n);
    TailAlone(s[digits..]);
    SameToken(s, s[..n], digits);
  }

  lemma DropOfTake(s: string, m: nat, n: nat)
    requires m <= n <= |s|
    ensures s[..n][m..] == s[m..][..n - m]
  {
  }

  lemma {:induction false} TokenStartsWithDigit(s: string)
    requires TokenLength(s).Some?
    ensures s != [] && IsDigit(s[0])
  {
  }

  lemma {:induction false} NumbersArePrintable(s: string, negative: bool, depth: nat)
    requires ParseNumber(s, negative).Some?
    ensures Printable(ParseNumber(s, negative).value.value, depth)
  {
    var token := s[..TokenLength(s).value];
    TokenAlone(s);
    TokenStartsWithDigit(s);
    if NumberOf(token, negative).Float? {
      FloatIsText(token, negative);
    }
  }

  lemma {:induction false} FloatIsText(token: string, negative: bool)
    requires TokenLength(token) == Some(|token|) && IsDigit(token[0]) && NumberOf(token, negative).Float?
    ensures FloatText(NumberOf(token, negative).text)
  {
    var text := NumberOf(token, negative).text;
    if negative {
      assert text[0] == '-' && text[1..] == token;
    } else {
      assert text == token;
    }
  }

  lemma ArrayWasParsed(s: string, depth: nat)
    requires ParseValue(s, depth).Some? && SkipSpace(s)[0] == '['
    ensures depth > 1 && ParseValue(s, depth).value.value.Arr?
    ensures var items := ParseValue(s, depth).value.value.items;
            items == [] || (ParseItems(SkipSpace(s)[1..], depth - 1).Some?
                            && items == ParseItems(SkipSpace(s)[1..], depth - 1).value.value)
  {
  }

  lemma ObjectWasParsed(s: string, depth: nat)
    requires ParseValue(s, depth).Some? && SkipSpace(s)[0] == '{'
    ensures depth > 1 && ParseValue(s, depth).value.value.Obj?
    ensures var fields := ParseValue(s, depth).value.value.fields;
            fields == [] || (ParseFields(SkipSpace(s)[1..], depth - 1).Some?
                             && fields == ParseFields(SkipSpace(s)[1..], depth - 1).value.value)
  {
  }

  lemma ScalarIsPrintable(s: string, depth: nat)
    requires ParseValue(s, depth).Some? && SkipSpace(s)[0] != '[' && SkipSpace(s)[0] != '{'
    ensures Printable(ParseValue(s, depth).value.value, depth)
  {
    var t := SkipSpace(s);
    if t[0] == '-' {
      NumbersArePrintable(t[1..], true, depth);
    } else if IsDigit(t[0]) {
      NumbersArePrintable(t, false, depth);
    }
  }

  lemma {:induction false} ValuesArePrintable(s: string, depth: nat)
    requires ParseValue(s, depth).Some?
    ensures Printable(ParseValue(s, depth).value.value, depth)
    decreases |s|, 2
  {
    var t := SkipSpace(s);
    if t[0] == '[' {
      ArrayWasParsed(s, depth);
      if ParseValue(s, depth).value.value.items != [] {
        ItemsArePrintable(t[1..], depth - 1);
      }
    } else if t[0] == '{' {
      ObjectWasParsed(s, depth);
      if ParseValue(s, depth).value.value.fields != [] {
        FieldsArePrintable(t[1..], depth - 1);
      }
    } else {
      ScalarIsPrintable(s, depth);
    }
  }

  lemma {:induction false} ItemsArePrintable(s: string, depth: nat)
    requires ParseItems(s, depth).Some?
    ensures forall i :: 0 <= i < |ParseItems(s, depth).value.value| ==>
              Printable(ParseItems(s, depth).value.value[i], depth)
    decreases |s|, 3
  {
    ValuesArePrintable(s, depth);
    var t := SkipSpace(ParseValue(s, depth).value.rest);
    if t[0] == ',' {
      ItemsArePrintable(t[1..], depth);
    }
  }

  lemma {:induction false} FieldsArePrintable(s: string, depth: nat)
    requires ParseFields(s, depth).Some?
    ensures forall i :: 0 <= i < |ParseFields(s, depth).value.value| ==>
              Printable(ParseFields(s, depth).value.value[i].value, depth)
    decreases |s|, 3
  {
    var u := SkipSpace(ParseString(SkipSpace(s)[1..]).value.rest);
    ValuesArePrintable(u[1..], depth);
    var w := SkipSpace(ParseValue(u[1..], depth).value.rest);
    if w[0] == ',' {
      FieldsArePrintable(w[1..], depth);
    }
  }

  /** The document round trip. */
  lemma ParsePrint(v: Json)
    requires Printable(v, MAX_DEPTH)
    ensures Parse(Print(v)) == Some(v)
  {
    ValueReadsBack(v, [], MAX_DEPTH);
    assert Print(v) + [] == Print(v);
  }

  /** Printable documents are exactly the ones that some text parses to, and printing what
      was parsed changes nothing. */
  lemma PrintableIff(v: Json)
    ensures Printable(v, 128) <==> exists text :: Parse(text) == Some(v)
    ensures Printable(v, 128) ==> Parse(Print(v)) == Some(v)
  {
    if Printable(v, MAX_DEPTH) {
      ParsePrint(v);
    }
    if text :| Parse(text) == Some(v) {
      ValuesArePrintable(text, MAX_DEPTH);
    }
  }

  // ----- What else a reader takes and refuses ----------------------------------------------------

  predicate AllSpace(space: string) {
    forall i :: 0 <= i < |space| ==> space[i] == ' ' || space[i] == '\n' || space[i] == '\t' || space[i] == '\r'
  }

  lemma {:induction false} SpaceIsSkipped(space: string, s: string)
    requires AllSpace(space)
    ensures SkipSpace(space + s) == SkipSpace(s)
  {
    if space == [] {
      assert space + s == s;
    } else {
      SpaceIsSkipped(space[1..], s);
      assert (space + s)[1..] == space[1..] + s;
    }
  }

  /** White space in front of a document means nothing. */
  lemma SpaceIsIgnored(space: string, s: string)
    requires AllSpace(space)
    ensures Parse(space + s) == Parse(s)
  {
    SpaceIsSkipped(space, s);
  }

  /** A document is the whole text: more punctuation behind it is refused. */
  lemma NothingMayFollow(v: Json, rest: string)
    requires Printable(v, 128) && rest != [] && (rest[0] == ',' || rest[0] == ']' || rest[0] == '}')
    ensures Parse(Print(v) + rest) == None
  {
    ValueReadsBack(v, rest, MAX_DEPTH);
  }

  function Hex(a: nat, b: nat, c: nat, d: nat): string
    requires a < 16 && b < 16 && c < 16 && d < 16
  {
    [HexDigit(a), HexDigit(b), HexDigit(c), HexDigit(d)]
  }

  lemma HexReadsBack(a: nat, b: nat, c: nat, d: nat, rest: string)
    requires a < 16 && b < 16 && c < 16 && d < 16
    ensures Hex4(Hex(a, b, c, d) + rest) == Some(((a * 16 + b) * 16 + c) * 16 + d)
  {
    HexDigitValue(a);
    HexDigitValue(b);
    HexDigitValue(c);
    HexDigitValue(d);
  }

  lemma HexDigitValue(n: nat)
    requires n < 16
    ensures HexValue(HexDigit(n)) == Some(n)
  {
  }

  /** Four hexadecimal digits name a character by its number, surrogates aside. */
  lemma NumberedCharReads(a: nat, b: nat, c: nat, d: nat, rest: string)
    requires a < 16 && b < 16 && c < 16 && d < 16
    requires var n := ((a * 16 + b) * 16 + c) * 16 + d; n < 0xD800 || n > 0xDFFF
    ensures ParseEscape(['u'] + (Hex(a, b, c, d) + rest)) ==
            Some(Parsed((((a * 16 + b) * 16 + c) * 16 + d) as char, rest))
  {
    HexReadsBack(a, b, c, d, rest);
    assert (Hex(a, b, c, d) + rest)[4..] == rest;
    assert (['u'] + (Hex(a, b, c, d) + rest))[1..] == Hex(a, b, c, d) + rest;
  }
}
