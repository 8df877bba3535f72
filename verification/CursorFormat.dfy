/** The cursor's format in plain characters: the alphabet and padding of RFC 4648, the escapes of
    RFC 8259, and the members of the object. */
module CursorFormat {
  import opened ByteStrings
  import opened Numbers
  import opened Wrappers
  import opened JsonText
  import opened Cursor
  import Base64Url

  function Code(c: char): int {
    c as int
  }

  /** The alphabet of section 5 of RFC 4648. */
  lemma AlphabetIs(v: int)
    requires 0 <= v < 64
    ensures Base64Url.Symbol(v) ==
      if v < 26 then Code('A') + v
      else if v < 52 then Code('a') + v - 26
      else if v < 62 then Code('0') + v - 52
      else if v == 62 then Code('-') else Code('_')
  {
  }

  /** The groups of section 4 of RFC 4648, the first byte in the highest bits: test vectors of its
      section 10. */
  lemma VectorsHold()
    ensures Base64Url.Encode([102]) == Ascii("Zg==")
    ensures Base64Url.Encode([102, 111]) == Ascii("Zm8=")
    ensures Base64Url.Encode([102, 111, 111]) == Ascii("Zm9v")
    ensures Base64Url.Encode([102, 111, 111, 98]) == Ascii("Zm9vYg==")
  {
    var four: seq<Byte> := [102, 111, 111, 98];
    assert four[3..] == [98];
    assert [102, 111, 111][3..] == [];
  }

  /** A code point beyond 16 bits is a high and a low surrogate, ten bits each above 0x10000; any other is
      its own unit. */
  lemma UnitsAre(c: CodePoint)
    ensures
      var units := Units(c);
      if c < 0x1_0000 then units == [c]
      else
        && |units| == 2 && 0xD800 <= units[0] < 0xDC00 && 0xDC00 <= units[1] < 0xE000
        && 0x1_0000 + 0x400 * (units[0] - 0xD800) + (units[1] - 0xDC00) == c
  {
  }

  /** A quote, a backslash and five control characters have short escapes; other control characters
      and all beyond ASCII are written as four lower-case hexadecimal digits. */
  lemma EscapesAre(unit: int)
    requires 0 <= unit < 0x1_0000
    ensures EscapeUnit(unit) ==
      if unit == Code('"') || unit == Code('\\') then [Code('\\'), unit]
      else if unit == 8 then [Code('\\'), Code('b')]
      else if unit == 9 then [Code('\\'), Code('t')]
      else if unit == 10 then [Code('\\'), Code('n')]
      else if unit == 12 then [Code('\\'), Code('f')]
      else if unit == 13 then [Code('\\'), Code('r')]
      else if Code(' ') <= unit <= Code('~') then [unit]
      else [Code('\\'), Code('u'), Digit(unit / 0x1000), Digit(unit / 0x100 % 0x10), Digit(unit / 0x10 % 0x10),
            Digit(unit % 0x10)]
  {
  }

  function Digit(v: int): int {
    if v < 10 then Code('0') + v else Code('a') + v - 10
  }

  /** Printable ASCII without quotes and backslashes. */
  predicate IsPlain(text: Text) {
    forall i :: 0 <= i < |text| ==> Code(' ') <= text[i] <= Code('~') && text[i] != Code('"') && text[i] != Code('\\')
  }

  lemma PlainUnit(c: CodePoint)
    requires Code(' ') <= c <= Code('~') && c != Code('"') && c != Code('\\')
    ensures Units(c) == [c] && EscapeUnit(c) == [c]
  {
  }

  lemma {:induction false} PlainIsItself(text: Text)
    requires IsPlain(text)
    ensures AllUnits(text) == text && AreUnits(text) && EscapeUnits(text) == text
  {
    hide EscapeUnit, Units;
    if text != [] {
      PlainIsItself(text[1..]);
      PlainUnit(text[0]);
      assert text == [text[0]] + text[1..];
    }
  }

  lemma PlainString(text: Text)
    requires IsPlain(text)
    ensures PrintString(text) == [Code('"')] + text + [Code('"')]
  {
    PlainIsItself(text);
  }

  lemma KeysAre()
    ensures PrintString(CreatedAtKey()) == Ascii("\"created_at\"")
    ensures PrintString(IdKey()) == Ascii("\"id\"")
    ensures PrintString(KindKey()) == Ascii("\"kind\"")
  {
    hide PrintString;
    PlainString(CreatedAtKey());
    PlainString(IdKey());
    PlainString(KindKey());
    assert Ascii("\"created_at\"") == [Code('"')] + CreatedAtKey() + [Code('"')];
  }

  /** The object as printed: its three members in this order, without spaces. */
  lemma PayloadIs(createdAt: nat, id: Text, kind: Option<Text>)
    ensures PrintPayload(createdAt, id, kind)
         == Ascii("{\"created_at\":") + PrintNumber(createdAt) + Ascii(",\"id\":") + PrintString(id)
            + Ascii(",\"kind\":") + (match kind case None => Ascii("null") case Some(text) => PrintString(text))
            + Ascii("}")
  {
    hide PrintNumber, PrintString, CreatedAtKey, IdKey, KindKey;
    KeysAre();
    var value := match kind case None => Ascii("null") case Some(text) => PrintString(text);
    assert Ascii("{\"created_at\":") == [123] + Ascii("\"created_at\"") + [58];
    assert Ascii(",\"id\":") == [44] + Ascii("\"id\"") + [58];
    assert Ascii(",\"kind\":") == [44] + Ascii("\"kind\"") + [58];
    assert Ascii("}") == [125];
    Regrouped(Ascii("\"created_at\""), PrintNumber(createdAt), Ascii("\"id\""), PrintString(id),
              Ascii("\"kind\""), value);
  }

  lemma Regrouped(a: seq<int>, x: seq<int>, b: seq<int>, y: seq<int>, c: seq<int>, z: seq<int>)
    ensures [123] + (a + [58] + x) + [44] + (b + [58] + y) + [44] + (c + [58] + z) + [125]
         == [123] + a + [58] + x + ([44] + b + [58]) + y + ([44] + c + [58]) + z + [125]
  {
  }

  /** Numbers are in decimal, without leading zeros. */
  lemma NumberIs(n: nat)
    ensures PrintNumber(n) == if n < 10 then [Code('0') + n] else PrintNumber(n / 10) + [Code('0') + n % 10]
  {
  }
}
