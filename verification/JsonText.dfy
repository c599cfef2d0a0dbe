/** The compact JSON text the canonical printer emits (RFC 8259 sections 4 to 7, with every
    character outside printable ASCII escaped), a reader for JSON texts without whitespace or
    fractions, and the proof that the reader recovers the printed tree. */
module JsonText {
  import opened Wrappers

  datatype Keyed<T> = Keyed(key: string, value: T)

  datatype Json =
    | Null
    | Bool(b: bool)
    | Int(n: int)
    | Str(s: string)
    | Arr(items: seq<Json>)
    | Obj(members: seq<Keyed<Json>>)

  // ----- Printer -----

  function Digit(n: nat): char
    requires n < 10
  {
    ('0' as int + n) as char
  }

  function Digits(n: nat): (text: string)
    ensures text != []
  {
    if n < 10 then [Digit(n)] else Digits(n / 10) + [Digit(n % 10)]
  }

  function IntText(n: int): string {
    if n < 0 then "-" + Digits(-n) else Digits(n)
  }

  function HexDigit(n: nat): char
    requires n < 16
  {
    if n < 10 then Digit(n) else ('a' as int + n - 10) as char
  }

  function HexText(n: nat, width: nat): (text: string)
    ensures |text| == width
  {
    if width == 0 then [] else HexText(n / 16, width - 1) + [HexDigit(n % 16)]
  }

  // One UTF-16 code unit as four hexadecimal digits.
  function UnitText(unit: nat): string {
    "\\u" + HexText(unit, 4)
  }

  // The letter of a two-character escape, for the characters that have one.
  function EscapeLetter(c: char): Option<char> {
    match c
    case '\"' => Some('\"')
    case '\\' => Some('\\')
    case '\n' => Some('n')
    case '\r' => Some('r')
    case '\t' => Some('t')
    case '\U{000C}' => Some('f')
    case '\U{0008}' => Some('b')
    case _ => None
  }

  // Outside printable ASCII: one UTF-16 code unit, or a surrogate pair above the basic plane.
  function UnicodeEscape(code: nat): string
    requires code < 0x11_0000
  {
    if code < 0x1_0000 then UnitText(code)
    else UnitText(0xD800 + (code - 0x1_0000) / 0x400) + UnitText(0xDC00 + (code - 0x1_0000) % 0x400)
  }

  function EscapeChar(c: char): string {
    match EscapeLetter(c)
    case Some(letter) => ['\\', letter]
    case None => if ' ' <= c <= '~' then [c] else UnicodeEscape(c as int)
  }

  // The characters of a string and the closing quote.
  function CharsText(s: string): string {
    if s == [] then "\"" else EscapeChar(s[0]) + CharsText(s[1..])
  }

  function StringText(s: string): string {
    "\"" + CharsText(s)
  }

  function Print(x: Json): string
    decreases x, 1
  {
    match x
    case Null => "null"
    case Bool(b) => if b then "true" else "false"
    case Int(n) => IntText(n)
    case Str(s) => StringText(s)
    case Arr(items) => if items == [] then "[]" else "[" + PrintItems(items)
    case Obj(members) => if members == [] then "{}" else "{" + PrintMembers(members)
  }

  // The elements and the closing bracket.
  function PrintItems(items: seq<Json>): string
    requires items != []
    decreases items, 0
  {
    Print(items[0]) + if |items| == 1 then "]" else "," + PrintItems(items[1..])
  }

  function PrintMembers(members: seq<Keyed<Json>>): string
    requires members != []
    decreases members, 0
  {
    StringText(members[0].key) + (":" + (Print(members[0].value) +
      if |members| == 1 then "}" else "," + PrintMembers(members[1..])))
  }

  // ----- Reader -----

  type Parsed<T> = Option<(T, string)>

  predicate StartsWith(text: string, c: char) {
    text != [] && text[0] == c
  }

  predicate IsDigit(c: char) {
    '0' as int <= c as int <= '9' as int
  }

  function DigitValue(c: char): nat
    requires IsDigit(c)
  {
    c as int - '0' as int
  }

  function LeadingDigits(text: string): (n: nat)
    ensures n <= |text|
    ensures forall i | 0 <= i < n :: IsDigit(text[i])
    ensures n < |text| ==> !IsDigit(text[n])
  {
    if text == [] || !IsDigit(text[0]) then 0 else 1 + LeadingDigits(text[1..])
  }

  function DigitsValue(text: string): nat
    requires forall i | 0 <= i < |text| :: IsDigit(text[i])
  {
    if text == [] then 0 else 10 * DigitsValue(text[..|text| - 1]) + DigitValue(text[|text| - 1])
  }

  function ReadNat(text: string): (r: Parsed<nat>)
    ensures r.Some? ==> |r.value.1| < |text|
  {
    var n := LeadingDigits(text);
    if n == 0 || (n > 1 && text[0] == '0') then None
    else Some((DigitsValue(text[..n]), text[n..]))
  }

  function HexValue(c: char): Option<nat> {
    if IsDigit(c) then Some(DigitValue(c))
    else if 'a' as int <= c as int <= 'f' as int then Some(c as int - 'a' as int + 10)
    else if 'A' as int <= c as int <= 'F' as int then Some(c as int - 'A' as int + 10)
    else None
  }

  function HexTextValue(text: string): Option<nat> {
    if text == [] then Some(0)
    else
      match (HexTextValue(text[..|text| - 1]), HexValue(text[|text| - 1]))
      case (Some(high), Some(low)) => Some(16 * high + low)
      case _ => None
  }

  // A "\uXXXX" escape.
  function ReadUnit(text: string): (r: Parsed<nat>)
    ensures r.Some? ==> |r.value.1| < |text|
  {
    if |text| < 6 || text[0] != '\\' || text[1] != 'u' then None
    else
      match HexTextValue(text[2..6])
      case Some(unit) => Some((unit, text[6..]))
      case None => None
  }

  function ReadUnicodeEscape(text: string): (r: Parsed<char>)
    ensures r.Some? ==> |r.value.1| < |text|
  {
    match ReadUnit(text)
    case None => None
    case Some((high, rest)) =>
      if 0xD800 <= high < 0xDC00 then
        match ReadUnit(rest)
        case Some((low, tail)) =>
          var code := 0x10000 + (high - 0xD800) * 0x400 + (low - 0xDC00);
          if 0xDC00 <= low < 0xE000 && code < 0x11_0000 then Some((code as char, tail)) else None
        case None => None
      else if high < 0xD800 || 0xE000 <= high < 0x10000 then Some((high as char, rest))
      else None
  }

  // The character a two-character escape stands for.
  function EscapedBy(letter: char): Option<char> {
    match letter
    case '\"' => Some('\"')
    case '\\' => Some('\\')
    case '/' => Some('/')
    case 'n' => Some('\n')
    case 'r' => Some('\r')
    case 't' => Some('\t')
    case 'f' => Some('\U{000C}')
    case 'b' => Some('\U{0008}')
    case _ => None
  }

  // One character of a string literal.
  function ReadChar(text: string): (r: Parsed<char>)
    ensures r.Some? ==> |r.value.1| < |text|
  {
    if text == [] || text[0] < ' ' || text[0] == '\"' then None
    else if text[0] != '\\' then Some((text[0], text[1..]))
    else if |text| < 2 then None
    else
      match EscapedBy(text[1])
      case Some(c) => Some((c, text[2..]))
      case None => ReadUnicodeEscape(text)
  }

  // Characters up to and including the closing quote.
  function ReadChars(text: string): (r: Parsed<string>)
    ensures r.Some? ==> |r.value.1| < |text|
    decreases |text|
  {
    if StartsWith(text, '\"') then Some(([], text[1..]))
    else
      match ReadChar(text)
      case None => None
      case Some((c, rest)) =>
        match ReadChars(rest)
        case None => None
        case Some((s, tail)) => Some(([c] + s, tail))
  }

  function ReadLiteral(text: string, literal: string, x: Json): (r: Parsed<Json>)
    requires literal != []
    ensures r.Some? ==> |r.value.1| < |text|
  {
    if literal <= text then Some((x, text[|literal|..])) else None
  }

  // Everything but arrays and objects.
  function ReadScalar(text: string): (r: Parsed<Json>)
    requires text != []
    ensures r.Some? ==> |r.value.1| < |text|
  {
    match text[0]
    case 'n' => ReadLiteral(text, "null", Null)
    case 't' => ReadLiteral(text, "true", Bool(true))
    case 'f' => ReadLiteral(text, "false", Bool(false))
    case '\"' =>
      (match ReadChars(text[1..])
       case None => None
       case Some((s, rest)) => Some((Str(s), rest)))
    case '-' =>
      (match ReadNat(text[1..])
       case None => None
       case Some((n, rest)) => Some((Int(0 - (n as int)), rest)))
    case _ =>
      (match ReadNat(text)
       case None => None
       case Some((n, rest)) => Some((Int(n), rest)))
  }

  function ReadValue(text: string): (r: Parsed<Json>)
    ensures r.Some? ==> |r.value.1| < |text|
    decreases |text|, 0
  {
    if text == [] then None
    else if text[0] == '[' then
      if StartsWith(text[1..], ']') then Some((Arr([]), text[2..]))
      else
        match ReadItems(text[1..])
        case None => None
        case Some((items, rest)) => Some((Arr(items), rest))
    else if text[0] == '{' then
      if StartsWith(text[1..], '}') then Some((Obj([]), text[2..]))
      else
        match ReadMembers(text[1..])
        case None => None
        case Some((members, rest)) => Some((Obj(members), rest))
    else ReadScalar(text)
  }

  function ReadItems(text: string): (r: Parsed<seq<Json>>)
    ensures r.Some? ==> |r.value.1| < |text|
    decreases |text|, 1
  {
    match ReadValue(text)
    case None => None
    case Some((x, rest)) =>
      if StartsWith(rest, ']') then Some(([x], rest[1..]))
      else if !StartsWith(rest, ',') then None
      else
        match ReadItems(rest[1..])
        case None => None
        case Some((xs, tail)) => Some(([x] + xs, tail))
  }

  function ReadMembers(text: string): (r: Parsed<seq<Keyed<Json>>>)
    ensures r.Some? ==> |r.value.1| < |text|
    decreases |text|, 1
  {
    if !StartsWith(text, '\"') then None
    else
      match ReadChars(text[1..])
      case None => None
      case Some((key, afterKey)) =>
        if !StartsWith(afterKey, ':') then None
        else
          match ReadValue(afterKey[1..])
          case None => None
          case Some((x, rest)) =>
            if StartsWith(rest, '}') then Some(([Keyed(key, x)], rest[1..]))
            else if !StartsWith(rest, ',') then None
            else
              match ReadMembers(rest[1..])
              case None => None
              case Some((members, tail)) => Some(([Keyed(key, x)] + members, tail))
  }

  // ----- The reader undoes the printer -----

  lemma {:induction false} DigitsAreDigits(n: nat)
    ensures forall i | 0 <= i < |Digits(n)| :: IsDigit(Digits(n)[i])
    ensures |Digits(n)| > 1 ==> Digits(n)[0] != '0'
    ensures n > 0 ==> Digits(n)[0] != '0'
    ensures DigitsValue(Digits(n)) == n
  {
    if n >= 10 {
      DigitsAreDigits(n / 10);
      assert Digits(n)[..|Digits(n)| - 1] == Digits(n / 10);
    }
  }

  // What may follow a value inside a larger text: nothing that would extend a number.
  predicate Ends(text: string) {
    text == [] || text[0] == ',' || text[0] == ']' || text[0] == '}'
  }

  lemma {:induction false} LeadingDigitsSplit(digits: string, rest: string)
    requires forall i | 0 <= i < |digits| :: IsDigit(digits[i])
    requires Ends(rest)
    ensures LeadingDigits(digits + rest) == |digits|
  {
    if digits == [] {
      assert digits + rest == rest;
    } else {
      assert (digits + rest)[1..] == digits[1..] + rest;
      LeadingDigitsSplit(digits[1..], rest);
    }
  }

  lemma ReadNatUndoes(n: nat, rest: string)
    requires Ends(rest)
    ensures ReadNat(Digits(n) + rest) == Some((n, rest))
  {
    DigitsAreDigits(n);
    LeadingDigitsSplit(Digits(n), rest);
    assert (Digits(n) + rest)[..|Digits(n)|] == Digits(n);
    assert (Digits(n) + rest)[|Digits(n)|..] == rest;
  }

  lemma HexUndoes(n: nat)
    requires n < 16
    ensures HexValue(HexDigit(n)) == Some(n)
  {
  }

  function Power16(width: nat): nat {
    if width == 0 then 1 else 16 * Power16(width - 1)
  }

  lemma {:induction false} HexTextUndoes(n: nat, width: nat)
    requires n < Power16(width)
    ensures HexTextValue(HexText(n, width)) == Some(n)
  {
    if width > 0 {
      HexTextUndoes(n / 16, width - 1);
      HexUndoes(n % 16);
      assert HexText(n, width)[..width - 1] == HexText(n / 16, width - 1);
    }
  }

  lemma ReadUnitUndoes(unit: nat, rest: string)
    requires unit < 0x1_0000
    ensures ReadUnit(UnitText(unit) + rest) == Some((unit, rest))
  {
    assert Power16(4) == 16 * 16 * Power16(2) == 0x1_0000;
    HexTextUndoes(unit, 4);
    var text := UnitText(unit) + rest;
    assert text[2..6] == HexText(unit, 4);
    assert text[6..] == rest;
  }

  lemma Regroup(a: string, b: string, c: string)
    ensures (a + b) + c == a + (b + c)
  {
  }

  lemma SurrogatePair(code: nat)
    requires 0x1_0000 <= code < 0x11_0000
    ensures var high, low := 0xD800 + (code - 0x1_0000) / 0x400, 0xDC00 + (code - 0x1_0000) % 0x400;
            && 0xD800 <= high < 0xDC00 && 0xDC00 <= low < 0xE000
            && 0x10000 + (high - 0xD800) * 0x400 + (low - 0xDC00) == code
  {
  }

  lemma ReadPair(text: string, high: nat, middle: string, low: nat, rest: string, c: char)
    requires ReadUnit(text) == Some((high, middle)) && ReadUnit(middle) == Some((low, rest))
    requires 0xD800 <= high < 0xDC00 && 0xDC00 <= low < 0xE000
    requires 0x10000 + (high - 0xD800) * 0x400 + (low - 0xDC00) == c as int
    ensures ReadUnicodeEscape(text) == Some((c, rest))
  {
  }

  lemma ReadUnicodeEscapeUndoes(c: char, rest: string)
    ensures ReadUnicodeEscape(UnicodeEscape(c as int) + rest) == Some((c, rest))
  {
    var code := c as int;
    if code < 0x1_0000 {
      ReadUnitUndoes(code, rest);
    } else {
      var high, low := 0xD800 + (code - 0x1_0000) / 0x400, 0xDC00 + (code - 0x1_0000) % 0x400;
      SurrogatePair(code);
      var middle := UnitText(low) + rest;
      Regroup(UnitText(high), UnitText(low), rest);
      ReadUnitUndoes(high, middle);
      ReadUnitUndoes(low, rest);
      ReadPair(UnitText(high) + middle, high, middle, low, rest, c);
    }
  }

  lemma ReadCharUndoes(c: char, rest: string)
    ensures ReadChar(EscapeChar(c) + rest) == Some((c, rest))
    ensures !StartsWith(EscapeChar(c) + rest, '\"')
  {
    var text := EscapeChar(c) + rest;
    match EscapeLetter(c)
    case Some(letter) => assert text[2..] == rest;
    case None =>
      if ' ' <= c <= '~' {
        assert text[1..] == rest;
      } else {
        ReadUnicodeEscapeUndoes(c, rest);
      }
  }

  lemma {:induction false} ReadCharsUndoes(s: string, rest: string)
    ensures ReadChars(CharsText(s) + rest) == Some((s, rest))
  {
    if s == [] {
      assert (CharsText(s) + rest)[1..] == rest;
    } else {
      ReadCharsUndoes(s[1..], rest);
      ReadCharUndoes(s[0], CharsText(s[1..]) + rest);
      assert CharsText(s) + rest == EscapeChar(s[0]) + (CharsText(s[1..]) + rest);
      assert s == [s[0]] + s[1..];
    }
  }

  predicate IsScalar(x: Json) {
    !x.Arr? && !x.Obj?
  }

  lemma ReadLiteralUndoes(literal: string, x: Json, rest: string)
    requires literal != []
    ensures ReadLiteral(literal + rest, literal, x) == Some((x, rest))
    ensures (literal + rest)[0] == literal[0]
  {
  }

  lemma ReadPlainNat(text: string, n: nat, rest: string)
    requires ReadNat(text) == Some((n, rest)) && text != [] && IsDigit(text[0])
    ensures ReadScalar(text) == Some((Int(n), rest))
  {
  }

  lemma ReadNegatedNat(text: string, n: nat, rest: string)
    requires ReadNat(text) == Some((n, rest))
    ensures ReadScalar("-" + text) == Some((Int(0 - (n as int)), rest))
  {
  }

  lemma ReadIntUndoes(n: int, rest: string)
    requires Ends(rest)
    ensures var text := IntText(n) + rest;
            text[0] != '[' && text[0] != '{' && ReadScalar(text) == Some((Int(n), rest))
  {
    if n < 0 {
      ReadNatUndoes(-n, rest);
      ReadNegatedNat(Digits(-n) + rest, -n, rest);
      Regroup("-", Digits(-n), rest);
    } else {
      DigitsAreDigits(n);
      ReadNatUndoes(n, rest);
      ReadPlainNat(Digits(n) + rest, n, rest);
    }
  }

  lemma ReadStringUndoes(s: string, rest: string)
    ensures ReadScalar(StringText(s) + rest) == Some((Str(s), rest))
  {
    ReadCharsUndoes(s, rest);
    Regroup("\"", CharsText(s), rest);
    ReadQuoted(CharsText(s) + rest, s, rest);
  }

  lemma ReadQuoted(text: string, s: string, rest: string)
    requires ReadChars(text) == Some((s, rest))
    ensures ReadScalar("\"" + text) == Some((Str(s), rest))
  {
  }

  lemma ReadScalarUndoes(x: Json, rest: string)
    requires IsScalar(x) && Ends(rest)
    ensures var text := Print(x) + rest;
            text[0] != '[' && text[0] != '{' && ReadScalar(text) == Some((x, rest))
  {
    match x
    case Null => ReadLiteralUndoes("null", x, rest);
    case Bool(b) => ReadLiteralUndoes(if b then "true" else "false", x, rest);
    case Int(n) => ReadIntUndoes(n, rest);
    case Str(s) => ReadStringUndoes(s, rest);
  }

  lemma ReadArray(tail: string, items: seq<Json>, rest: string)
    requires !StartsWith(tail, ']') && ReadItems(tail) == Some((items, rest))
    ensures ReadValue("[" + tail) == Some((Arr(items), rest))
  {
  }

  lemma ReadObject(tail: string, members: seq<Keyed<Json>>, rest: string)
    requires !StartsWith(tail, '}') && ReadMembers(tail) == Some((members, rest))
    ensures ReadValue("{" + tail) == Some((Obj(members), rest))
  {
  }

  lemma ReadEmpty(rest: string)
    ensures ReadValue("[]" + rest) == Some((Arr([]), rest))
    ensures ReadValue("{}" + rest) == Some((Obj([]), rest))
  {
  }

  lemma ReadLastItem(x: Json, text: string, rest: string)
    requires ReadValue(text) == Some((x, "]" + rest))
    ensures ReadItems(text) == Some(([x], rest))
  {
  }

  lemma ReadNextItem(x: Json, text: string, tail: string, items: seq<Json>, rest: string)
    requires ReadValue(text) == Some((x, "," + tail)) && ReadItems(tail) == Some((items, rest))
    ensures ReadItems(text) == Some(([x] + items, rest))
  {
  }

  lemma QuoteDropped(key: string, tail: string)
    ensures StartsWith(StringText(key) + tail, '\"')
    ensures (StringText(key) + tail)[1..] == CharsText(key) + tail
  {
  }

  lemma ReadMember(key: string, x: Json, value: string, after: string)
    requires ReadValue(value) == Some((x, after))
    ensures var text := StringText(key) + (":" + value);
            && StartsWith(text, '\"')
            && ReadChars(text[1..]) == Some((key, ":" + value))
            && (":" + value)[1..] == value
  {
    ReadCharsUndoes(key, ":" + value);
    QuoteDropped(key, ":" + value);
  }

  lemma ReadLastMember(key: string, x: Json, value: string, rest: string)
    requires ReadValue(value) == Some((x, "}" + rest))
    ensures ReadMembers(StringText(key) + (":" + value)) == Some(([Keyed(key, x)], rest))
    ensures !StartsWith(StringText(key) + (":" + value), '}')
  {
    ReadMember(key, x, value, "}" + rest);
    assert ("}" + rest)[1..] == rest;
  }

  lemma ReadNextMember(key: string, x: Json, value: string, tail: string, members: seq<Keyed<Json>>, rest: string)
    requires ReadValue(value) == Some((x, "," + tail)) && ReadMembers(tail) == Some((members, rest))
    ensures ReadMembers(StringText(key) + (":" + value)) == Some(([Keyed(key, x)] + members, rest))
    ensures !StartsWith(StringText(key) + (":" + value), '}')
  {
    ReadMember(key, x, value, "," + tail);
    assert ("," + tail)[1..] == tail;
  }

  lemma RegroupMember(key: string, value: string, closing: string, rest: string)
    ensures (key + (":" + (value + closing))) + rest == key + (":" + (value + (closing + rest)))
  {
  }

  lemma LastMemberUndoes(key: string, x: Json, rest: string)
    requires ReadValue(Print(x) + ("}" + rest)) == Some((x, "}" + rest))
    ensures ReadMembers(PrintMembers([Keyed(key, x)]) + rest) == Some(([Keyed(key, x)], rest))
    ensures !StartsWith(PrintMembers([Keyed(key, x)]) + rest, '}')
  {
    ReadLastMember(key, x, Print(x) + ("}" + rest), rest);
    RegroupMember(StringText(key), Print(x), "}", rest);
  }

  lemma NextMemberUndoes(key: string, x: Json, members: seq<Keyed<Json>>, rest: string)
    requires members != []
    requires ReadValue(Print(x) + ("," + (PrintMembers(members) + rest))) ==
             Some((x, "," + (PrintMembers(members) + rest)))
    requires ReadMembers(PrintMembers(members) + rest) == Some((members, rest))
    ensures ReadMembers(PrintMembers([Keyed(key, x)] + members) + rest) == Some(([Keyed(key, x)] + members, rest))
    ensures !StartsWith(PrintMembers([Keyed(key, x)] + members) + rest, '}')
  {
    var others := PrintMembers(members);
    ReadNextMember(key, x, Print(x) + ("," + (others + rest)), others + rest, members, rest);
    RegroupMember(StringText(key), Print(x), "," + others, rest);
    Regroup(",", others, rest);
    assert ([Keyed(key, x)] + members)[1..] == members;
  }

  // A value never starts with a closing bracket.
  lemma NoClosingBracket(x: Json)
    ensures Print(x) != [] && Print(x)[0] != ']'
  {
    if x.Int? && x.n >= 0 {
      DigitsAreDigits(x.n);
      assert IsDigit(Print(x)[0]);
    }
  }

  // Main result: reading a printed tree gives the tree back, whatever text follows it.
  lemma {:induction false} ReadUndoesPrint(x: Json, rest: string)
    requires Ends(rest)
    ensures ReadValue(Print(x) + rest) == Some((x, rest))
    decreases x, 1
  {
    if IsScalar(x) {
      ReadScalarUndoes(x, rest);
    } else if x == Arr([]) || x == Obj([]) {
      ReadEmpty(rest);
    } else if x.Arr? {
      ReadUndoesPrintItems(x.items, rest);
      ReadArray(PrintItems(x.items) + rest, x.items, rest);
      assert Print(x) == "[" + PrintItems(x.items);
      Regroup("[", PrintItems(x.items), rest);
    } else {
      ReadUndoesPrintMembers(x.members, rest);
      ReadObject(PrintMembers(x.members) + rest, x.members, rest);
      assert Print(x) == "{" + PrintMembers(x.members);
      Regroup("{", PrintMembers(x.members), rest);
    }
  }

  lemma {:induction false} ReadUndoesPrintItems(items: seq<Json>, rest: string)
    requires items != []
    ensures ReadItems(PrintItems(items) + rest) == Some((items, rest))
    ensures !StartsWith(PrintItems(items) + rest, ']')
    decreases items, 0
  {
    NoClosingBracket(items[0]);
    if |items| == 1 {
      ReadUndoesPrint(items[0], "]" + rest);
      ReadLastItem(items[0], Print(items[0]) + ("]" + rest), rest);
      Regroup(Print(items[0]), "]", rest);
      assert items == [items[0]];
    } else {
      var others := PrintItems(items[1..]);
      ReadUndoesPrint(items[0], "," + (others + rest));
      ReadUndoesPrintItems(items[1..], rest);
      ReadNextItem(items[0], Print(items[0]) + ("," + (others + rest)), others + rest, items[1..], rest);
      Regroup(Print(items[0]), "," + others, rest);
      Regroup(",", others, rest);
      assert items == [items[0]] + items[1..];
    }
  }

  lemma {:induction false} ReadUndoesPrintMembers(members: seq<Keyed<Json>>, rest: string)
    requires members != []
    ensures ReadMembers(PrintMembers(members) + rest) == Some((members, rest))
    ensures !StartsWith(PrintMembers(members) + rest, '}')
    decreases members, 0
  {
    var Keyed(key, x) := members[0];
    if |members| == 1 {
      ReadUndoesPrint(x, "}" + rest);
      LastMemberUndoes(key, x, rest);
      assert members == [Keyed(key, x)];
    } else {
      ReadUndoesPrint(x, "," + (PrintMembers(members[1..]) + rest));
      ReadUndoesPrintMembers(members[1..], rest);
      NextMemberUndoes(key, x, members[1..], rest);
      assert members == [Keyed(key, x)] + members[1..];
    }
  }

  // Main result: the printed text determines the tree.
  lemma PrintInjective(x: Json, y: Json)
    requires Print(x) == Print(y)
    ensures x == y
  {
    ReadUndoesPrint(x, []);
    ReadUndoesPrint(y, []);
    assert Print(x) + [] == Print(y) + [];
  }
}
