/** The URL-safe base 64 alphabet (section 5 of RFC 4648), with padding stripped and restored. Bytes
    and characters are both written as numbers. */
module Base64Url {
  import opened ByteStrings
  import opened Wrappers

  const PAD := 61  // '='

  function Symbol(v: int): int
    requires 0 <= v < 64
  {
    if v < 26 then 65 + v        // A-Z
    else if v < 52 then 71 + v   // a-z
    else if v < 62 then v - 4    // 0-9
    else if v == 62 then 45      // -
    else 95                      // _
  }

  function Sextet(c: int): (v: Option<int>)
    ensures v.Some? ==> 0 <= v.value < 64
  {
    if 65 <= c <= 90 then Some(c - 65)
    else if 97 <= c <= 122 then Some(c - 71)
    else if 48 <= c <= 57 then Some(c + 4)
    else if c == 45 then Some(62)
    else if c == 95 then Some(63)
    else None
  }

  /** The symbols without padding. */
  function Body(bytes: seq<Byte>): seq<int> {
    if bytes == [] then []
    else if |bytes| == 1 then
      [Symbol(bytes[0] / 4), Symbol(bytes[0] % 4 * 16)]
    else if |bytes| == 2 then
      [Symbol(bytes[0] / 4), Symbol(bytes[0] % 4 * 16 + bytes[1] / 16), Symbol(bytes[1] % 16 * 4)]
    else
      [Symbol(bytes[0] / 4), Symbol(bytes[0] % 4 * 16 + bytes[1] / 16),
       Symbol(bytes[1] % 16 * 4 + bytes[2] / 64), Symbol(bytes[2] % 64)]
      + Body(bytes[3..])
  }

  function Pads(n: nat): seq<int> {
    seq(n, _ => PAD)
  }

  /** The encoding, padded to a multiple of four (section 3.2 of RFC 4648). */
  function Encode(bytes: seq<Byte>): seq<int> {
    Body(bytes) + Pads(if |bytes| % 3 == 0 then 0 else 3 - |bytes| % 3)
  }

  /** One full group of four symbols. */
  function DecodeGroup(a: int, b: int, c: int, d: int): Option<seq<Byte>> {
    match (Sextet(a), Sextet(b), Sextet(c), Sextet(d))
    case (Some(p), Some(q), Some(r), Some(s)) =>
      Some([p * 4 + q / 16, q % 16 * 16 + r / 4, r % 4 * 64 + s])
    case _ => None
  }

  /** Decodes text that is padded to a multiple of four. */
  function Decode(text: seq<int>): Option<seq<Byte>> {
    if text == [] then Some([])
    else if |text| < 4 then None
    else if |text| == 4 && text[3] == PAD then
      if text[2] == PAD then
        match (Sextet(text[0]), Sextet(text[1]))
        case (Some(p), Some(q)) => Some([p * 4 + q / 16])
        case _ => None
      else
        match (Sextet(text[0]), Sextet(text[1]), Sextet(text[2]))
        case (Some(p), Some(q), Some(r)) => Some([p * 4 + q / 16, q % 16 * 16 + r / 4])
        case _ => None
    else
      match (DecodeGroup(text[0], text[1], text[2], text[3]), Decode(text[4..]))
      case (Some(group), Some(rest)) => Some(group + rest)
      case _ => None
  }

  /** The text without its trailing padding. */
  function Strip(text: seq<int>): seq<int> {
    if text != [] && text[|text| - 1] == PAD then Strip(text[..|text| - 1]) else text
  }

  /** Padding up to the next multiple of four. */
  function Repad(text: seq<int>): seq<int> {
    text + Pads(-|text| % 4)
  }

  lemma SymbolRoundTrip(v: int)
    requires 0 <= v < 64
    ensures Sextet(Symbol(v)) == Some(v)
  {
  }

  lemma {:induction false} BodyShape(bytes: seq<Byte>)
    ensures |Body(bytes)| == |bytes| / 3 * 4 + (if |bytes| % 3 == 0 then 0 else |bytes| % 3 + 1)
    ensures forall i :: 0 <= i < |Body(bytes)| ==> Sextet(Body(bytes)[i]).Some? && Body(bytes)[i] != PAD
  {
    if |bytes| >= 3 {
      BodyShape(bytes[3..]);
    }
  }

  lemma {:induction false} StripIsPrefix(text: seq<int>)
    ensures Strip(text) <= text
  {
    if text != [] && text[|text| - 1] == PAD {
      StripIsPrefix(text[..|text| - 1]);
    }
  }

  /** Every symbol is an ASCII character. */
  lemma EncodedIsText(bytes: seq<Byte>)
    ensures forall i :: 0 <= i < |Strip(Encode(bytes))| ==> 0 <= Strip(Encode(bytes))[i] < 0x80
  {
    StripIsPrefix(Encode(bytes));
    BodyShape(bytes);
  }

  lemma {:induction false} StripPads(text: seq<int>, n: nat)
    requires text == [] || text[|text| - 1] != PAD
    ensures Strip(text + Pads(n)) == text
  {
    if n == 0 {
      assert text + Pads(0) == text;
    } else {
      var all := text + Pads(n);
      assert all[..|all| - 1] == text + Pads(n - 1);
      StripPads(text, n - 1);
    }
  }

  /** The pads that were stripped are as many as the length of the rest asks for. */
  lemma PadLength(n: nat)
    ensures
      var symbols, pads := n / 3 * 4 + (if n % 3 == 0 then 0 else n % 3 + 1), if n % 3 == 0 then 0 else 3 - n % 3;
      -symbols % 4 == pads && (n > 0 ==> symbols > 0)
  {
    var whole, left := n / 3, n % 3;
    if left == 0 {
      ModFour(-whole, 0);
    } else {
      ModFour(-whole - 1, 3 - left);
    }
  }

  lemma ModFour(q: int, r: int)
    requires 0 <= r < 4
    ensures (4 * q + r) % 4 == r
  {
  }

  /** Recomputing the padding from the length restores exactly what was stripped. */
  lemma RepadRestores(bytes: seq<Byte>)
    ensures Repad(Strip(Encode(bytes))) == Encode(bytes)
    ensures bytes != [] ==> Strip(Encode(bytes)) != []
  {
    hide Body, Pads, Strip, Sextet;
    BodyShape(bytes);
    PadLength(|bytes|);
    StripPads(Body(bytes), if |bytes| % 3 == 0 then 0 else 3 - |bytes| % 3);
  }

  lemma Regroup(x: Byte, y: Byte, z: Byte)
    ensures
      var p, q, r, s := x / 4, x % 4 * 16 + y / 16, y % 16 * 4 + z / 64, z % 64;
      && 0 <= p < 64 && 0 <= q < 64 && 0 <= r < 64 && 0 <= s < 64
      && p * 4 + q / 16 == x && q % 16 * 16 + r / 4 == y && r % 4 * 64 + s == z
  {
    Unmix(x % 4, y / 16, 16);
    Unmix(y % 16, z / 64, 4);
  }

  lemma Unmix(high: int, low: int, base: int)
    requires base == 4 || base == 16
    requires 0 <= low < base
    ensures (high * base + low) / base == high && (high * base + low) % base == low
  {
  }

  lemma GroupRoundTrip(x: Byte, y: Byte, z: Byte)
    ensures x % 4 * 16 + y / 16 < 64 && y % 16 * 4 + z / 64 < 64
    ensures DecodeGroup(Symbol(x / 4), Symbol(x % 4 * 16 + y / 16), Symbol(y % 16 * 4 + z / 64), Symbol(z % 64))
         == Some([x, y, z])
  {
    Regroup(x, y, z);
    SymbolRoundTrip(x / 4);
    SymbolRoundTrip(x % 4 * 16 + y / 16);
    SymbolRoundTrip(y % 16 * 4 + z / 64);
    SymbolRoundTrip(z % 64);
  }

  lemma OneByteRoundTrip(x: Byte)
    ensures Decode(Encode([x])) == Some([x])
  {
    Regroup(x, 0, 0);
    SymbolRoundTrip(x / 4);
    SymbolRoundTrip(x % 4 * 16);
    assert Encode([x]) == [Symbol(x / 4), Symbol(x % 4 * 16), PAD, PAD];
  }

  lemma TwoByteRoundTrip(x: Byte, y: Byte)
    ensures Decode(Encode([x, y])) == Some([x, y])
  {
    Regroup(x, y, 0);
    SymbolRoundTrip(x / 4);
    SymbolRoundTrip(x % 4 * 16 + y / 16);
    SymbolRoundTrip(y % 16 * 4);
    assert Encode([x, y]) == [Symbol(x / 4), Symbol(x % 4 * 16 + y / 16), Symbol(y % 16 * 4), PAD];
    assert Symbol(y % 16 * 4) != PAD;
  }

  function Symbols(x: Byte, y: Byte, z: Byte): seq<int> {
    [Symbol(x / 4), Symbol(x % 4 * 16 + y / 16), Symbol(y % 16 * 4 + z / 64), Symbol(z % 64)]
  }

  lemma EncodeUnfolds(bytes: seq<Byte>)
    requires |bytes| >= 3
    ensures Encode(bytes) == Symbols(bytes[0], bytes[1], bytes[2]) + Encode(bytes[3..])
  {
  }

  lemma DecodeUnfolds(x: Byte, y: Byte, z: Byte, rest: seq<int>)
    requires Decode(rest).Some?
    ensures Decode(Symbols(x, y, z) + rest) == Some([x, y, z] + Decode(rest).value)
  {
    var text := Symbols(x, y, z) + rest;
    GroupRoundTrip(x, y, z);
    assert text[3] == Symbol(z % 64) != PAD && text[4..] == rest;
  }

  /** Decoding undoes encoding, for bytes of every length. */
  lemma {:induction false} EncodeRoundTrip(bytes: seq<Byte>)
    ensures Decode(Encode(bytes)) == Some(bytes)
  {
    if |bytes| == 0 {
      assert Encode(bytes) == [];
    } else if |bytes| == 1 {
      OneByteRoundTrip(bytes[0]);
      assert bytes == [bytes[0]];
    } else if |bytes| == 2 {
      TwoByteRoundTrip(bytes[0], bytes[1]);
      assert bytes == [bytes[0], bytes[1]];
    } else {
      EncodeUnfolds(bytes);
      EncodeRoundTrip(bytes[3..]);
      DecodeUnfolds(bytes[0], bytes[1], bytes[2], Encode(bytes[3..]));
      assert bytes == [bytes[0], bytes[1], bytes[2]] + bytes[3..];
    }
  }
}
