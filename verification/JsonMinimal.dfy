/** The form of the printed text, stated on texts alone, and the proof that a text of that form is
    determined by the tree it reads as. */
module JsonMinimal {
  import opened Wrappers
  import opened JsonText

  predicate IsLowerHex(c: char) {
    '0' <= c <= '9' || 'a' <= c <= 'f'
  }

  function LowerHexValue(c: char): nat
    requires IsLowerHex(c)
  {
    if c <= '9' then c as int - '0' as int else c as int - 'a' as int + 10
  }

  function LowerHexText(digits: string): nat
    requires forall i | 0 <= i < |digits| :: IsLowerHex(digits[i])
  {
    if digits == [] then 0
    else 16 * LowerHexText(digits[..|digits| - 1]) + LowerHexValue(digits[|digits| - 1])
  }

  // A code unit without a shorter form: not printable ASCII, and not one of \b \t \n \f \r.
  predicate NeedsUnit(unit: nat) {
    !(0x20 <= unit <= 0x7E) && !(0x08 <= unit <= 0x0A) && unit != 0x0C && unit != 0x0D
  }

  // Four lower-case hexadecimal digits of such a unit.
  predicate IsNeededUnit(digits: string) {
    |digits| == 4 && (forall i | 0 <= i < 4 :: IsLowerHex(digits[i])) && NeedsUnit(LowerHexText(digits))
  }

  predicate IsShortEscape(c: char) {
    c in {'\"', '\\', 'b', 't', 'n', 'f', 'r'}
  }

  // Printable ASCII throughout; inside strings every escape is needed, in lower case and as short
  // as possible; outside strings no negative zero.
  predicate Minimal(text: string, inString: bool)
    decreases |text|
  {
    if text == [] then true
    else if !(' ' <= text[0] <= '~') then false
    else if !inString then
      && !(text[0] == '-' && StartsWith(text[1..], '0'))
      && Minimal(text[1..], text[0] == '\"')
    else if text[0] == '\"' then Minimal(text[1..], false)
    else if text[0] != '\\' then Minimal(text[1..], true)
    else if |text| < 2 then false
    else if IsShortEscape(text[1]) then Minimal(text[2..], true)
    else text[1] == 'u' && |text| >= 6 && IsNeededUnit(text[2..6]) && Minimal(text[6..], true)
  }

  // ----- The printed text has the form -----

  lemma {:induction false} MinimalIsAscii(text: string, inString: bool)
    requires Minimal(text, inString)
    ensures forall i | 0 <= i < |text| :: ' ' <= text[i] <= '~'
    decreases |text|
  {
    if text == [] {
    } else if !inString || text[0] != '\\' {
      MinimalIsAscii(text[1..], if inString then text[0] != '\"' else text[0] == '\"');
      assert text == [text[0]] + text[1..];
    } else if IsShortEscape(text[1]) {
      MinimalIsAscii(text[2..], true);
      assert text == [text[0], text[1]] + text[2..];
    } else {
      MinimalIsAscii(text[6..], true);
      assert forall i | 2 <= i < 6 :: text[i] == text[2..6][i - 2];
      assert text == text[..6] + text[6..];
    }
  }

  lemma LowerDigit(n: nat)
    requires n < 16
    ensures IsLowerHex(HexDigit(n)) && LowerHexValue(HexDigit(n)) == n
  {
  }

  lemma {:induction false} HexTextIsLower(n: nat, width: nat)
    requires n < Power16(width)
    ensures forall i | 0 <= i < width :: IsLowerHex(HexText(n, width)[i])
    ensures LowerHexText(HexText(n, width)) == n
  {
    if width > 0 {
      HexTextIsLower(n / 16, width - 1);
      LowerDigit(n % 16);
      assert HexText(n, width)[..width - 1] == HexText(n / 16, width - 1);
    }
  }

  lemma FourDigits()
    ensures Power16(4) == 0x1_0000
  {
    assert Power16(4) == 16 * 16 * Power16(2);
  }

  lemma UnitIsMinimal(unit: nat, rest: string)
    requires unit < 0x1_0000 && NeedsUnit(unit) && Minimal(rest, true)
    ensures Minimal(UnitText(unit) + rest, true)
  {
    FourDigits();
    HexTextIsLower(unit, 4);
    var text := UnitText(unit) + rest;
    assert text[2..6] == HexText(unit, 4) && text[6..] == rest;
  }

  lemma PairIsMinimal(high: nat, low: nat, rest: string)
    requires 0xD800 <= high < 0xDC00 && 0xDC00 <= low < 0xE000 && Minimal(rest, true)
    ensures Minimal((UnitText(high) + UnitText(low)) + rest, true)
  {
    UnitIsMinimal(low, rest);
    UnitIsMinimal(high, UnitText(low) + rest);
    Regroup(UnitText(high), UnitText(low), rest);
  }

  lemma UnicodeIsMinimal(c: char, rest: string)
    requires EscapeLetter(c).None? && !(' ' <= c <= '~') && Minimal(rest, true)
    ensures Minimal(UnicodeEscape(c as int) + rest, true)
  {
    var code := c as int;
    if code < 0x1_0000 {
      LetterlessNeedsUnit(c);
      UnitIsMinimal(code, rest);
    } else {
      SurrogatePair(code);
      PairIsMinimal(0xD800 + (code - 0x1_0000) / 0x400, 0xDC00 + (code - 0x1_0000) % 0x400, rest);
    }
  }

  lemma LetterlessNeedsUnit(c: char)
    ensures NeedsUnit(c as int) <==> EscapeLetter(c).None? && !(' ' <= c <= '~')
  {
  }

  lemma LetterIsMinimal(letter: char, rest: string)
    requires IsShortEscape(letter) && Minimal(rest, true)
    ensures Minimal(['\\', letter] + rest, true)
  {
    assert (['\\', letter] + rest)[2..] == rest;
  }

  lemma CharIsMinimal(c: char, rest: string)
    requires Minimal(rest, true)
    ensures Minimal(EscapeChar(c) + rest, true)
  {
    match EscapeLetter(c)
    case Some(letter) => LetterIsMinimal(letter, rest);
    case None =>
      if ' ' <= c <= '~' {
        assert ([c] + rest)[1..] == rest;
      } else {
        UnicodeIsMinimal(c, rest);
      }
  }

  lemma {:induction false} CharsAreMinimal(s: string, rest: string)
    requires Minimal(rest, false)
    ensures Minimal(CharsText(s) + rest, true)
  {
    if s == [] {
      assert (CharsText(s) + rest)[1..] == rest;
    } else {
      CharsAreMinimal(s[1..], rest);
      CharIsMinimal(s[0], CharsText(s[1..]) + rest);
      Regroup(EscapeChar(s[0]), CharsText(s[1..]), rest);
    }
  }

  lemma StringIsMinimal(s: string, rest: string)
    requires Minimal(rest, false)
    ensures Minimal(StringText(s) + rest, false)
  {
    CharsAreMinimal(s, rest);
    QuoteDropped(s, rest);
  }

  // A character that opens nothing and is no minus sign.
  predicate IsPlain(c: char) {
    ' ' <= c <= '~' && c != '\"' && c != '-'
  }

  lemma {:induction false} PlainPrefix(plain: string, rest: string)
    requires Minimal(rest, false) && forall i | 0 <= i < |plain| :: IsPlain(plain[i])
    ensures Minimal(plain + rest, false)
  {
    if plain == [] {
      assert plain + rest == rest;
    } else {
      PlainPrefix(plain[1..], rest);
      assert (plain + rest)[1..] == plain[1..] + rest;
    }
  }

  lemma NegativeIsMinimal(digits: string, rest: string)
    requires digits != [] && digits[0] != '0' && Minimal(digits + rest, false)
    ensures Minimal(("-" + digits) + rest, false)
  {
    assert (("-" + digits) + rest)[1..] == digits + rest;
  }

  lemma IntIsMinimal(n: int, rest: string)
    requires Minimal(rest, false)
    ensures Minimal(IntText(n) + rest, false)
  {
    if n < 0 {
      DigitsAreDigits(-n);
      PlainPrefix(Digits(-n), rest);
      NegativeIsMinimal(Digits(-n), rest);
    } else {
      DigitsAreDigits(n);
      PlainPrefix(Digits(n), rest);
    }
  }

  lemma {:induction false} PrintIsMinimal(x: Json, rest: string)
    requires Minimal(rest, false)
    ensures Minimal(Print(x) + rest, false)
    decreases x, 1
  {
    match x
    case Null => PlainPrefix("null", rest);
    case Bool(b) => PlainPrefix(if b then "true" else "false", rest);
    case Int(n) => IntIsMinimal(n, rest);
    case Str(s) => StringIsMinimal(s, rest);
    case Arr(items) =>
      if items == [] {
        PlainPrefix("[]", rest);
      } else {
        ItemsAreMinimal(items, rest);
        PlainPrefix("[", PrintItems(items) + rest);
        Regroup("[", PrintItems(items), rest);
      }
    case Obj(members) =>
      if members == [] {
        PlainPrefix("{}", rest);
      } else {
        MembersAreMinimal(members, rest);
        PlainPrefix("{", PrintMembers(members) + rest);
        Regroup("{", PrintMembers(members), rest);
      }
  }

  lemma {:induction false} ItemsAreMinimal(items: seq<Json>, rest: string)
    requires items != [] && Minimal(rest, false)
    ensures Minimal(PrintItems(items) + rest, false)
    decreases items, 0
  {
    var tail := if |items| == 1 then "]" else "," + PrintItems(items[1..]);
    if |items| == 1 {
      PlainPrefix("]", rest);
    } else {
      ItemsAreMinimal(items[1..], rest);
      PlainPrefix(",", PrintItems(items[1..]) + rest);
      Regroup(",", PrintItems(items[1..]), rest);
    }
    PrintIsMinimal(items[0], tail + rest);
    Regroup(Print(items[0]), tail, rest);
  }

  lemma {:induction false} MembersAreMinimal(members: seq<Keyed<Json>>, rest: string)
    requires members != [] && Minimal(rest, false)
    ensures Minimal(PrintMembers(members) + rest, false)
    decreases members, 0
  {
    var tail := if |members| == 1 then "}" else "," + PrintMembers(members[1..]);
    if |members| == 1 {
      PlainPrefix("}", rest);
    } else {
      MembersAreMinimal(members[1..], rest);
      PlainPrefix(",", PrintMembers(members[1..]) + rest);
      Regroup(",", PrintMembers(members[1..]), rest);
    }
    var key, value := StringText(members[0].key), Print(members[0].value);
    PrintIsMinimal(members[0].value, tail + rest);
    PlainPrefix(":", value + (tail + rest));
    StringIsMinimal(members[0].key, ":" + (value + (tail + rest)));
    RegroupMember(key, value, tail, rest);
  }

  // Main result: every character of the printed text is printable ASCII.
  lemma PrintIsAscii(x: Json)
    ensures forall i | 0 <= i < |Print(x)| :: ' ' <= Print(x)[i] <= '~'
  {
    PrintIsMinimal(x, []);
    assert Print(x) + [] == Print(x);
    MinimalIsAscii(Print(x), false);
  }

  // ----- A minimal text is the printed one -----

  lemma {:induction false} PlainDropped(plain: string, rest: string)
    requires Minimal(plain + rest, false) && forall i | 0 <= i < |plain| :: IsPlain(plain[i])
    ensures Minimal(rest, false)
  {
    if plain == [] {
      assert plain + rest == rest;
    } else {
      assert (plain + rest)[1..] == plain[1..] + rest;
      PlainDropped(plain[1..], rest);
    }
  }

  lemma {:induction false} DigitsUnique(digits: string)
    requires digits != [] && forall i | 0 <= i < |digits| :: IsDigit(digits[i])
    requires |digits| > 1 ==> digits[0] != '0'
    ensures Digits(DigitsValue(digits)) == digits
    ensures |digits| > 1 ==> DigitsValue(digits) >= 10
  {
    var init, last := digits[..|digits| - 1], digits[|digits| - 1];
    assert digits == init + [last];
    if |digits| == 1 {
      assert DigitsValue(init) == 0;
    } else {
      DigitsUnique(init);
      if |init| == 1 {
        assert DigitsValue(init) == DigitValue(init[0]) by { assert DigitsValue(init[..0]) == 0; }
      }
      assert DigitsValue(digits) / 10 == DigitsValue(init) && DigitsValue(digits) % 10 == DigitValue(last);
    }
  }

  lemma NatSplit(text: string, n: nat, rest: string)
    requires ReadNat(text) == Some((n, rest))
    ensures text == Digits(n) + rest
    ensures text != [] && (n == 0 ==> text[0] == '0')
  {
    var k := LeadingDigits(text);
    DigitsUnique(text[..k]);
    assert text == text[..k] + text[k..];
  }

  lemma NatUnique(text: string, n: nat, rest: string)
    requires ReadNat(text) == Some((n, rest)) && Minimal(text, false)
    ensures text == Digits(n) + rest && Minimal(rest, false)
    ensures text != [] && (n == 0 ==> text[0] == '0')
  {
    NatSplit(text, n, rest);
    DigitsAreDigits(n);
    PlainDropped(Digits(n), rest);
  }

  lemma HexDigitUnique(c: char)
    requires IsLowerHex(c)
    ensures LowerHexValue(c) < 16 && HexDigit(LowerHexValue(c)) == c && HexValue(c) == Some(LowerHexValue(c))
  {
  }

  // Lower-case digits are the printed form of their value.
  lemma {:induction false} HexUnique(digits: string)
    requires forall i | 0 <= i < |digits| :: IsLowerHex(digits[i])
    ensures LowerHexText(digits) < Power16(|digits|)
    ensures HexTextValue(digits) == Some(LowerHexText(digits))
    ensures HexText(LowerHexText(digits), |digits|) == digits
  {
    if digits != [] {
      var init, last := digits[..|digits| - 1], digits[|digits| - 1];
      HexUnique(init);
      HexDigitUnique(last);
      assert LowerHexText(digits) / 16 == LowerHexText(init) && LowerHexText(digits) % 16 == LowerHexValue(last);
      assert digits == init + [last];
    }
  }

  lemma UnitUnique(text: string, unit: nat, rest: string)
    requires ReadUnit(text) == Some((unit, rest)) && Minimal(text, true)
    ensures text == UnitText(unit) + rest && Minimal(rest, true)
    ensures unit < 0x1_0000 && NeedsUnit(unit)
  {
    FourDigits();
    HexUnique(text[2..6]);
    assert text == text[..2] + text[2..6] + text[6..] && text[..2] == "\\u";
  }

  lemma PairUnique(high: nat, low: nat, c: char)
    requires 0xD800 <= high < 0xDC00 && 0xDC00 <= low < 0xE000
    requires 0x10000 + (high - 0xD800) * 0x400 + (low - 0xDC00) == c as int
    ensures UnicodeEscape(c as int) == UnitText(high) + UnitText(low)
    ensures EscapeLetter(c).None? && !(' ' <= c <= '~')
  {
    var offset := c as int - 0x1_0000;
    assert offset / 0x400 == high - 0xD800 && offset % 0x400 == low - 0xDC00;
    LetterlessNeedsUnit(c);
  }

  lemma UnicodeUnique(text: string, c: char, rest: string)
    requires ReadUnicodeEscape(text) == Some((c, rest)) && Minimal(text, true)
    ensures text == UnicodeEscape(c as int) + rest && Minimal(rest, true)
    ensures EscapeLetter(c).None? && !(' ' <= c <= '~')
  {
    var (high, middle) := ReadUnit(text).value;
    UnitUnique(text, high, middle);
    if 0xD800 <= high < 0xDC00 {
      var (low, tail) := ReadUnit(middle).value;
      UnitUnique(middle, low, tail);
      PairUnique(high, low, c);
      Regroup(UnitText(high), UnitText(low), rest);
    } else {
      LetterlessNeedsUnit(c);
    }
  }

  lemma CharUnique(text: string, c: char, rest: string)
    requires ReadChar(text) == Some((c, rest)) && Minimal(text, true)
    ensures text == EscapeChar(c) + rest && Minimal(rest, true)
  {
    if text[0] != '\\' {
      assert EscapeLetter(c).None?;
      assert text == [c] + rest;
    } else if EscapedBy(text[1]).Some? {
      assert EscapeLetter(c) == Some(text[1]);
      assert text == ['\\', text[1]] + text[2..];
    } else {
      UnicodeUnique(text, c, rest);
    }
  }

  lemma {:induction false} CharsUnique(text: string, s: string, rest: string)
    requires ReadChars(text) == Some((s, rest)) && Minimal(text, true)
    ensures text == CharsText(s) + rest && Minimal(rest, false)
    decreases |text|
  {
    if StartsWith(text, '\"') {
      assert text == "\"" + text[1..];
    } else {
      var (c, tail) := ReadChar(text).value;
      CharUnique(text, c, tail);
      CharsUnique(tail, s[1..], rest);
      Regroup(EscapeChar(c), CharsText(s[1..]), rest);
    }
  }

  lemma StringUnique(text: string, s: string, rest: string)
    requires StartsWith(text, '\"') && ReadChars(text[1..]) == Some((s, rest)) && Minimal(text, false)
    ensures text == StringText(s) + rest && Minimal(rest, false)
  {
    CharsUnique(text[1..], s, rest);
    assert text == "\"" + text[1..];
    Regroup("\"", CharsText(s), rest);
  }

  lemma LiteralUnique(text: string, literal: string, rest: string)
    requires literal <= text && rest == text[|literal|..] && Minimal(text, false)
    requires forall i | 0 <= i < |literal| :: IsPlain(literal[i])
    ensures text == literal + rest && Minimal(rest, false)
  {
    assert text == literal + rest;
    PlainDropped(literal, rest);
  }

  lemma NegativeUnique(text: string, n: nat, rest: string)
    requires StartsWith(text, '-') && ReadNat(text[1..]) == Some((n, rest)) && Minimal(text, false)
    ensures text == IntText(0 - (n as int)) + rest && Minimal(rest, false)
  {
    NatUnique(text[1..], n, rest);
    assert text == "-" + text[1..];
    Regroup("-", Digits(n), rest);
  }

  lemma ScalarUnique(text: string, x: Json, rest: string)
    requires text != [] && ReadScalar(text) == Some((x, rest)) && Minimal(text, false)
    ensures text == Print(x) + rest && Minimal(rest, false)
  {
    match text[0]
    case 'n' => LiteralUnique(text, "null", rest);
    case 't' => LiteralUnique(text, "true", rest);
    case 'f' => LiteralUnique(text, "false", rest);
    case '\"' => StringUnique(text, x.s, rest);
    case '-' => NegativeUnique(text, 0 - x.n, rest);
    case _ => NatUnique(text, x.n, rest);
  }

  lemma FirstDropped(text: string, c: char)
    requires StartsWith(text, c) && IsPlain(c) && Minimal(text, false)
    ensures text == [c] + text[1..] && Minimal(text[1..], false)
  {
  }

  lemma {:induction false} ValueUnique(text: string, x: Json, rest: string)
    requires ReadValue(text) == Some((x, rest)) && Minimal(text, false)
    ensures text == Print(x) + rest && Minimal(rest, false)
    decreases |text|, 0
  {
    if text[0] == '[' {
      FirstDropped(text, '[');
      if StartsWith(text[1..], ']') {
        FirstDropped(text[1..], ']');
        assert text == "[]" + rest;
      } else {
        ItemsUnique(text[1..], x.items, rest);
        Regroup("[", PrintItems(x.items), rest);
      }
    } else if text[0] == '{' {
      FirstDropped(text, '{');
      if StartsWith(text[1..], '}') {
        FirstDropped(text[1..], '}');
        assert text == "{}" + rest;
      } else {
        MembersUnique(text[1..], x.members, rest);
        Regroup("{", PrintMembers(x.members), rest);
      }
    } else {
      ScalarUnique(text, x, rest);
    }
  }

  lemma {:induction false} ItemsUnique(text: string, items: seq<Json>, rest: string)
    requires ReadItems(text) == Some((items, rest)) && Minimal(text, false)
    ensures items != [] && text == PrintItems(items) + rest && Minimal(rest, false)
    decreases |text|, 1
  {
    var (x, after) := ReadValue(text).value;
    ValueUnique(text, x, after);
    if StartsWith(after, ']') {
      FirstDropped(after, ']');
      Regroup(Print(x), "]", rest);
    } else {
      FirstDropped(after, ',');
      ItemsUnique(after[1..], items[1..], rest);
      Regroup(",", PrintItems(items[1..]), rest);
      Regroup(Print(x), "," + PrintItems(items[1..]), rest);
    }
  }

  lemma {:induction false} MembersUnique(text: string, members: seq<Keyed<Json>>, rest: string)
    requires ReadMembers(text) == Some((members, rest)) && Minimal(text, false)
    ensures members != [] && text == PrintMembers(members) + rest && Minimal(rest, false)
    decreases |text|, 1
  {
    var (key, afterKey) := ReadChars(text[1..]).value;
    StringUnique(text, key, afterKey);
    FirstDropped(afterKey, ':');
    var (x, after) := ReadValue(afterKey[1..]).value;
    ValueUnique(afterKey[1..], x, after);
    if StartsWith(after, '}') {
      FirstDropped(after, '}');
      RegroupMember(StringText(key), Print(x), "}", rest);
    } else {
      FirstDropped(after, ',');
      MembersUnique(after[1..], members[1..], rest);
      Regroup(",", PrintMembers(members[1..]), rest);
      RegroupMember(StringText(key), Print(x), "," + PrintMembers(members[1..]), rest);
    }
  }

  // Main result: the printed text of a tree is exactly the minimal text that reads as it.
  lemma PrintIsTheMinimalText(x: Json, text: string)
    ensures text == Print(x) <==> ReadValue(text) == Some((x, [])) && Minimal(text, false)
  {
    assert Print(x) + [] == Print(x);
    ReadUndoesPrint(x, []);
    PrintIsMinimal(x, []);
    if ReadValue(text) == Some((x, [])) && Minimal(text, false) {
      ValueUnique(text, x, []);
    }
  }
}
