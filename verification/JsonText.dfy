/** The part of JSON a cursor uses (sections 6 and 7 of RFC 8259): an object of strings, integers and
    literals, printed without spaces and with every non-ASCII character escaped. Text is a sequence of
    code points, lone surrogates included, as a Python `str` is. */
module JsonText {
  import opened ByteStrings
  import opened Wrappers

  type CodePoint = c: int | 0 <= c < 0x11_0000
  type Text = seq<CodePoint>

  datatype Json = Null | Bool(b: bool) | Number(n: int) | String(text: Text)

  const QUOTE := 34
  const BACKSLASH := 92
  const LETTER_U := 117

  // ----- Surrogates

  predicate IsHigh(c: int) {
    0xD800 <= c < 0xDC00
  }

  predicate IsLow(c: int) {
    0xDC00 <= c < 0xE000
  }

  function Combine(high: int, low: int): CodePoint
    requires IsHigh(high) && IsLow(low)
  {
    0x1_0000 + (high - 0xD800) * 0x400 + (low - 0xDC00)
  }

  /** The 16-bit units of one code point. */
  function Units(c: CodePoint): seq<int> {
    if c < 0x1_0000 then [c]
    else [0xD800 + (c - 0x1_0000) / 0x400, 0xDC00 + (c - 0x1_0000) % 0x400]
  }

  function AllUnits(text: Text): seq<int> {
    if text == [] then [] else Units(text[0]) + AllUnits(text[1..])
  }

  /** Each high surrogate followed by a low one becomes one code point. */
  function Join(units: seq<CodePoint>): Text {
    if |units| >= 2 && IsHigh(units[0]) && IsLow(units[1]) then
      [Combine(units[0], units[1])] + Join(units[2..])
    else if units == [] then []
    else [units[0]] + Join(units[1..])
  }

  /** No two characters of the text read as one when written as 16-bit units. */
  predicate NoSurrogatePair(text: Text) {
    |text| < 2 || (!(IsHigh(text[0]) && IsLow(text[1])) && NoSurrogatePair(text[1..]))
  }

  // ----- Printing

  function HexDigit(v: int): int
    requires 0 <= v < 16
  {
    if v < 10 then 48 + v else 87 + v
  }

  function UnicodeEscape(unit: int): seq<int>
    requires 0 <= unit < 0x1_0000
  {
    [BACKSLASH, LETTER_U, HexDigit(unit / 0x1000), HexDigit(unit / 0x100 % 16),
     HexDigit(unit / 16 % 16), HexDigit(unit % 16)]
  }

  /** The letter of a two-character escape, if the unit has one. */
  function ShortEscape(unit: int): Option<int> {
    if unit == 34 then Some(34)         // "
    else if unit == 92 then Some(92)    // backslash
    else if unit == 8 then Some(98)     // \b
    else if unit == 12 then Some(102)   // \f
    else if unit == 10 then Some(110)   // \n
    else if unit == 13 then Some(114)   // \r
    else if unit == 9 then Some(116)    // \t
    else None
  }

  function EscapeUnit(unit: int): (r: seq<int>)
    requires 0 <= unit < 0x1_0000
    ensures r != [] && forall i :: 0 <= i < |r| ==> 32 <= r[i] < 127
  {
    match ShortEscape(unit)
    case Some(letter) => [BACKSLASH, letter]
    case None => if 32 <= unit < 127 then [unit] else UnicodeEscape(unit)
  }

  predicate AreUnits(units: seq<int>) {
    forall i :: 0 <= i < |units| ==> 0 <= units[i] < 0x1_0000
  }

  function EscapeUnits(units: seq<int>): seq<int>
    requires AreUnits(units)
  {
    if units == [] then [] else EscapeUnit(units[0]) + EscapeUnits(units[1..])
  }

  lemma {:induction false} AllUnitsAreUnits(text: Text)
    ensures AreUnits(AllUnits(text))
  {
    if text != [] {
      AllUnitsAreUnits(text[1..]);
    }
  }

  /** The inside of a string literal. */
  function PrintInside(text: Text): seq<int> {
    AllUnitsAreUnits(text);
    EscapeUnits(AllUnits(text))
  }

  function PrintString(text: Text): seq<int> {
    [QUOTE] + PrintInside(text) + [QUOTE]
  }

  function PrintNumber(n: nat): seq<int> {
    if n < 10 then [48 + n] else PrintNumber(n / 10) + [48 + n % 10]
  }

  // ----- Parsing

  function HexValue(c: int): (v: Option<int>)
    ensures v.Some? ==> 0 <= v.value < 16
  {
    if 48 <= c <= 57 then Some(c - 48)
    else if 97 <= c <= 102 then Some(c - 87)
    else if 65 <= c <= 70 then Some(c - 55)
    else None
  }

  function Unescape(letter: int): Option<int> {
    if letter == 34 then Some(34)
    else if letter == 92 then Some(92)
    else if letter == 47 then Some(47)
    else if letter == 98 then Some(8)
    else if letter == 102 then Some(12)
    else if letter == 110 then Some(10)
    else if letter == 114 then Some(13)
    else if letter == 116 then Some(9)
    else None
  }

  /** One unit of a string literal, and what follows it. */
  function ReadUnit(s: seq<int>): (r: Option<(CodePoint, seq<int>)>)
    ensures r.Some? ==> |r.value.1| < |s| && r.value.0 < 0x1_0000
  {
    if s == [] || s[0] == QUOTE then None
    else if s[0] == BACKSLASH then
      if |s| >= 6 && s[1] == LETTER_U then
        match (HexValue(s[2]), HexValue(s[3]), HexValue(s[4]), HexValue(s[5]))
        case (Some(a), Some(b), Some(c), Some(d)) =>
          Some((a * 0x1000 + b * 0x100 + c * 16 + d, s[6..]))
        case _ => None
      else if |s| >= 2 && Unescape(s[1]).Some? then Some((Unescape(s[1]).value, s[2..]))
      else None
    else if 32 <= s[0] < 128 then Some((s[0], s[1..]))
    else None
  }

  /** The units up to the closing quote, and what follows the quote. */
  function ReadUnits(s: seq<int>): (r: Option<(seq<CodePoint>, seq<int>)>)
    ensures r.Some? ==> |r.value.1| < |s|
    decreases |s|
  {
    if s == [] then None
    else if s[0] == QUOTE then Some(([], s[1..]))
    else match ReadUnit(s)
      case None => None
      case Some((unit, rest)) =>
        match ReadUnits(rest)
        case None => None
        case Some((units, after)) => Some(([unit] + units, after))
  }

  function ReadString(s: seq<int>): (r: Option<(Text, seq<int>)>)
    ensures r.Some? ==> |r.value.1| < |s|
  {
    if s == [] || s[0] != QUOTE then None
    else match ReadUnits(s[1..])
      case None => None
      case Some((units, rest)) => Some((Join(units), rest))
  }

  predicate IsDigit(c: int) {
    48 <= c <= 57
  }

  /** The run of digits at the front, as a number that continues `acc`. */
  function ReadDigits(s: seq<int>, acc: nat): (r: (nat, seq<int>))
    ensures |r.1| <= |s|
    decreases |s|
  {
    if s != [] && IsDigit(s[0]) then ReadDigits(s[1..], acc * 10 + (s[0] - 48)) else (acc, s)
  }

  /** No leading zeros: a zero stands alone. */
  function ReadNatural(s: seq<int>): (r: Option<(nat, seq<int>)>)
    ensures r.Some? ==> |r.value.1| < |s|
  {
    if s == [] || !IsDigit(s[0]) then None
    else if s[0] == 48 then Some((0, s[1..]))
    else
      var (n, rest) := ReadDigits(s[1..], s[0] - 48);
      Some((n, rest))
  }

  function DropPrefix(s: seq<int>, prefix: seq<int>): Option<seq<int>> {
    if prefix <= s then Some(s[|prefix|..]) else None
  }

  function ReadLiteral(s: seq<int>): (r: Option<(Json, seq<int>)>)
    ensures r.Some? ==> |r.value.1| < |s|
  {
    if DropPrefix(s, Ascii("null")).Some? then Some((Null, s[4..]))
    else if DropPrefix(s, Ascii("true")).Some? then Some((Bool(true), s[4..]))
    else if DropPrefix(s, Ascii("false")).Some? then Some((Bool(false), s[5..]))
    else None
  }

  function ReadValue(s: seq<int>): (r: Option<(Json, seq<int>)>)
    ensures r.Some? ==> |r.value.1| < |s|
  {
    if s == [] then None
    else if s[0] == QUOTE then
      match ReadString(s)
      case None => None
      case Some((text, rest)) => Some((String(text), rest))
    else if IsDigit(s[0]) then
      match ReadNatural(s)
      case None => None
      case Some((n, rest)) => Some((Number(n), rest))
    else if s[0] == 45 then
      match ReadNatural(s[1..])
      case None => None
      case Some((n, rest)) => Some((Number(0 - n), rest))
    else ReadLiteral(s)
  }

  type Object = map<Text, Json>

  /** One `"key":value` member. */
  function ReadMember(s: seq<int>): (r: Option<(Text, Json, seq<int>)>)
    ensures r.Some? ==> |r.value.2| < |s|
  {
    match ReadString(s)
    case None => None
    case Some((key, rest)) =>
      if rest == [] || rest[0] != 58 then None
      else match ReadValue(rest[1..])
        case None => None
        case Some((value, after)) => Some((key, value, after))
  }

  /** Members up to the closing brace; a repeated key keeps its last value. */
  function ReadMembers(s: seq<int>, soFar: Object): (r: Option<(Object, seq<int>)>)
    decreases |s|
  {
    match ReadMember(s)
    case None => None
    case Some((key, value, rest)) =>
      var members := soFar[key := value];
      if rest == [] then None
      else if rest[0] == 44 then ReadMembers(rest[1..], members)
      else if rest[0] == 125 then Some((members, rest[1..]))
      else None
  }

  /** A whole document that is an object. */
  function ReadDocument(s: seq<int>): Option<Object> {
    if s == [123, 125] then Some(map[])
    else if s == [] || s[0] != 123 then None
    else match ReadMembers(s[1..], map[])
      case Some((members, rest)) => if rest == [] then Some(members) else None
      case None => None
  }

  // ----- Round trips

  lemma HexRoundTrip(v: int)
    requires 0 <= v < 16
    ensures HexValue(HexDigit(v)) == Some(v)
  {
  }

  lemma FourDigits(unit: int)
    requires 0 <= unit < 0x1_0000
    ensures unit / 0x1000 * 0x1000 + unit / 0x100 % 16 * 0x100 + unit / 16 % 16 * 16 + unit % 16 == unit
    ensures 0 <= unit / 0x1000 < 16
  {
    assert unit / 16 / 16 == unit / 0x100 && unit / 0x100 / 16 == unit / 0x1000;
  }

  lemma UnitRoundTrip(unit: int, rest: seq<int>)
    requires 0 <= unit < 0x1_0000
    ensures ReadUnit(EscapeUnit(unit) + rest) == Some((unit, rest))
    ensures EscapeUnit(unit)[0] != QUOTE
  {
    var s := EscapeUnit(unit) + rest;
    match ShortEscape(unit) {
      case Some(letter) =>
        assert s[2..] == rest;
      case None =>
        if 32 <= unit < 127 {
          assert s[1..] == rest;
        } else {
          FourDigits(unit);
          HexRoundTrip(unit / 0x1000);
          HexRoundTrip(unit / 0x100 % 16);
          HexRoundTrip(unit / 16 % 16);
          HexRoundTrip(unit % 16);
          assert s[6..] == rest;
        }
    }
  }

  lemma {:induction false} UnitsRoundTrip(units: seq<int>, rest: seq<int>)
    requires AreUnits(units)
    ensures ReadUnits(EscapeUnits(units) + [QUOTE] + rest) == Some((units, rest))
  {
    var s := EscapeUnits(units) + [QUOTE] + rest;
    if units == [] {
      assert s == [QUOTE] + rest && s[1..] == rest;
    } else {
      var tail := EscapeUnits(units[1..]) + [QUOTE] + rest;
      assert s == EscapeUnit(units[0]) + tail;
      UnitRoundTrip(units[0], tail);
      UnitsRoundTrip(units[1..], rest);
      assert s[0] == EscapeUnit(units[0])[0];
      assert units == [units[0]] + units[1..];
    }
  }

  lemma UnitsOfWide(c: CodePoint)
    requires 0x1_0000 <= c
    ensures IsHigh(Units(c)[0]) && IsLow(Units(c)[1]) && Combine(Units(c)[0], Units(c)[1]) == c
  {
  }

  /** Splitting into units and joining again is joining alone. */
  lemma {:induction false} JoinOfUnits(text: Text)
    ensures AreUnits(AllUnits(text))
    ensures Join(AllUnits(text)) == Join(text)
    decreases |text|
  {
    AllUnitsAreUnits(text);
    if text != [] {
      var c, rest := text[0], text[1..];
      var units := AllUnits(text);
      JoinOfUnits(rest);
      AllUnitsAreUnits(rest);
      if c >= 0x1_0000 {
        UnitsOfWide(c);
        assert units[2..] == AllUnits(rest);
      } else if |text| >= 2 && IsHigh(c) && IsLow(text[1]) {
        assert AllUnits(rest) == [text[1]] + AllUnits(text[2..]);
        assert units[2..] == AllUnits(text[2..]);
        assert rest[1..] == text[2..];
        JoinOfUnits(text[2..]);
      } else {
        assert units[1..] == AllUnits(rest);
        FirstUnit(rest);
      }
    }
  }

  /** The first unit of a text is low exactly when its first character is. */
  lemma FirstUnit(text: Text)
    ensures text == [] <==> AllUnits(text) == []
    ensures text != [] ==> (IsLow(AllUnits(text)[0]) <==> IsLow(text[0]))
  {
    if text != [] && text[0] >= 0x1_0000 {
      UnitsOfWide(text[0]);
    }
  }

  /** Joining changes a text exactly when it holds a surrogate pair. */
  lemma {:induction false} JoinFixesExactly(text: Text)
    ensures Join(text) == text <==> NoSurrogatePair(text)
    ensures |Join(text)| <= |text| && (text != [] ==> Join(text) != [])
    decreases |text|
  {
    if |text| >= 2 && IsHigh(text[0]) && IsLow(text[1]) {
      JoinFixesExactly(text[2..]);
      assert |Join(text)| < |text|;
    } else if text != [] {
      var rest := text[1..];
      JoinFixesExactly(rest);
      assert text == [text[0]] + rest;
      assert Join(text)[1..] == Join(rest);
    }
  }

  /** A string literal reads back as the joined text, whatever follows it. */
  lemma StringRoundTrip(text: Text, rest: seq<int>)
    ensures ReadString(PrintString(text) + rest) == Some((Join(text), rest))
  {
    var s := PrintString(text) + rest;
    JoinOfUnits(text);
    assert s[1..] == PrintInside(text) + [QUOTE] + rest;
    UnitsRoundTrip(AllUnits(text), rest);
  }

  /** Reading the digits after the first, when more text follows. */
  lemma {:induction false} ReadPrinted(n: nat, rest: seq<int>)
    ensures PrintNumber(n) != [] && IsDigit(PrintNumber(n)[0]) && (PrintNumber(n)[0] == 48 <==> n == 0)
    ensures ReadDigits(PrintNumber(n)[1..] + rest, PrintNumber(n)[0] - 48) == ReadDigits(rest, n)
  {
    var s := PrintNumber(n);
    if n < 10 {
      assert s[1..] + rest == rest;
    } else {
      var tail := [48 + n % 10] + rest;
      ReadPrinted(n / 10, tail);
      assert s[1..] + rest == PrintNumber(n / 10)[1..] + tail;
      assert tail[1..] == rest;
    }
  }

  /** A number reads back, when no digit follows it. */
  lemma NumberRoundTrip(n: nat, rest: seq<int>)
    requires rest == [] || !IsDigit(rest[0])
    ensures ReadValue(PrintNumber(n) + rest) == Some((Number(n), rest))
  {
    ReadPrinted(n, rest);
    var s := PrintNumber(n) + rest;
    assert s[0] == PrintNumber(n)[0];
    assert s[1..] == PrintNumber(n)[1..] + rest;
    if n == 0 {
      assert s[1..] == rest;
    }
  }

  lemma ReadMemberStep(s: seq<int>, key: Text, after: seq<int>, value: Json, rest: seq<int>)
    requires ReadString(s) == Some((key, after))
    requires after != [] && after[0] == 58 && ReadValue(after[1..]) == Some((value, rest))
    ensures ReadMember(s) == Some((key, value, rest))
  {
  }

  /** A member followed by a comma and more members. */
  lemma ReadMembersNext(s: seq<int>, soFar: Object, key: Text, value: Json, rest: seq<int>)
    requires ReadMember(s) == Some((key, value, [44] + rest))
    ensures ReadMembers(s, soFar) == ReadMembers(rest, soFar[key := value])
  {
    assert ([44] + rest)[1..] == rest;
  }

  /** A member followed by the closing brace. */
  lemma ReadMembersLast(s: seq<int>, soFar: Object, key: Text, value: Json)
    requires ReadMember(s) == Some((key, value, [125]))
    ensures ReadMembers(s, soFar) == Some((soFar[key := value], []))
  {
    assert [125][1..] == [];
  }
}
