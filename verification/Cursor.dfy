/** Opaque page cursors: the position and filter as canonical JSON, in URL-safe base 64 without
    padding. */
module Cursor {
  import opened ByteStrings
  import opened Wrappers
  import opened JsonText
  import opened Sequences
  import Base64Url

  datatype Event = Event(id: Text, createdAt: int, kind: Text)

  /** All are `ValueError` in the source, told apart here by their message. */
  datatype PageError =
    | BadLimit
    | BadKind
    | BadEvents
    | MalformedCursor
    | OtherFilter
    | UnknownPosition

  function CreatedAtKey(): Text {
    Ascii("created_at")
  }

  function IdKey(): Text {
    Ascii("id")
  }

  function KindKey(): Text {
    Ascii("kind")
  }

  // ----- Printing

  function PrintValue(v: Json): seq<int>
    requires v.Number? ==> 0 <= v.n
  {
    match v
    case Null => Ascii("null")
    case Bool(b) => if b then Ascii("true") else Ascii("false")
    case Number(n) => PrintNumber(n)
    case String(text) => PrintString(text)
  }

  function PrintMember(key: Text, v: Json): seq<int>
    requires v.Number? ==> 0 <= v.n
  {
    PrintString(key) + [58] + PrintValue(v)
  }

  function FilterValue(kind: Option<Text>): Json {
    match kind
    case None => Null
    case Some(text) => String(text)
  }

  /** The object of the three members, keys sorted, no spaces. */
  function PrintPayload(createdAt: nat, id: Text, kind: Option<Text>): seq<int> {
    [123] + PrintMember(CreatedAtKey(), Number(createdAt))
    + [44] + PrintMember(IdKey(), String(id))
    + [44] + PrintMember(KindKey(), FilterValue(kind)) + [125]
  }

  predicate IsAscii(s: seq<int>) {
    forall i :: 0 <= i < |s| ==> 0 <= s[i] < 0x80
  }

  lemma {:induction false} EscapesAreAscii(units: seq<int>)
    requires AreUnits(units)
    ensures IsAscii(EscapeUnits(units))
  {
    if units != [] {
      EscapesAreAscii(units[1..]);
    }
  }

  lemma StringIsAscii(text: Text)
    ensures IsAscii(PrintString(text))
  {
    AllUnitsAreUnits(text);
    EscapesAreAscii(AllUnits(text));
  }

  lemma {:induction false} NumberIsAscii(n: nat)
    ensures IsAscii(PrintNumber(n))
  {
    if n >= 10 {
      NumberIsAscii(n / 10);
    }
  }

  lemma MemberIsAscii(key: Text, v: Json)
    requires v.Number? ==> 0 <= v.n
    ensures IsAscii(PrintMember(key, v))
  {
    StringIsAscii(key);
    match v {
      case Number(n) => NumberIsAscii(n);
      case String(text) => StringIsAscii(text);
      case _ =>
    }
  }

  lemma JoinedIsAscii(a: seq<int>, b: seq<int>, c: seq<int>)
    requires IsAscii(a) && IsAscii(b) && IsAscii(c)
    ensures IsAscii([123] + a + [44] + b + [44] + c + [125])
  {
  }

  /** Every byte of a payload is ASCII, so its encoding is the text itself. */
  lemma PayloadIsAscii(createdAt: nat, id: Text, kind: Option<Text>)
    ensures IsAscii(PrintPayload(createdAt, id, kind))
  {
    MemberIsAscii(CreatedAtKey(), Number(createdAt));
    MemberIsAscii(IdKey(), String(id));
    MemberIsAscii(KindKey(), FilterValue(kind));
    JoinedIsAscii(PrintMember(CreatedAtKey(), Number(createdAt)), PrintMember(IdKey(), String(id)),
                  PrintMember(KindKey(), FilterValue(kind)));
  }

  function Encode(e: Event, kind: Option<Text>): Text
    requires 0 <= e.createdAt
  {
    PayloadIsAscii(e.createdAt, e.id, kind);
    var raw: seq<Byte> := PrintPayload(e.createdAt, e.id, kind);
    Base64Url.EncodedIsText(raw);
    Base64Url.Strip(Base64Url.Encode(raw))
  }

  // ----- Parsing

  function Decode(value: Text, kind: Option<Text>): Result<(nat, Text), PageError> {
    if value == [] then Err(MalformedCursor)
    else match Base64Url.Decode(Base64Url.Repad(value))
      case None => Err(MalformedCursor)
      case Some(raw) =>
        match ReadDocument(raw)
        case None => Err(MalformedCursor)
        case Some(payload) => ReadPayload(payload, kind)
  }

  function ReadPayload(payload: Object, kind: Option<Text>): Result<(nat, Text), PageError> {
    if payload.Keys != {CreatedAtKey(), IdKey(), KindKey()} then Err(MalformedCursor)
    else if payload[KindKey()] != FilterValue(kind) then Err(OtherFilter)
    else
      var createdAt, id := payload[CreatedAtKey()], payload[IdKey()];
      if !createdAt.Number? || createdAt.n < 0 then Err(MalformedCursor)
      else if !id.String? || id.text == [] then Err(MalformedCursor)
      else Ok((createdAt.n, id.text))
  }

  // ----- Round trip

  function JoinValue(v: Json): Json {
    if v.String? then String(Join(v.text)) else v
  }

  lemma {:induction false} AsciiIsStable(text: Text)
    requires IsAscii(text)
    ensures NoSurrogatePair(text) && Join(text) == text
  {
    if text != [] {
      AsciiIsStable(text[1..]);
    }
    JoinFixesExactly(text);
  }

  lemma ValueRoundTrip(v: Json, rest: seq<int>)
    requires v.Number? ==> 0 <= v.n
    requires rest != [] && !IsDigit(rest[0])
    ensures ReadValue(PrintValue(v) + rest) == Some((JoinValue(v), rest))
  {
    var s := PrintValue(v) + rest;
    match v {
      case String(text) => StringRoundTrip(text, rest);
      case Number(n) => NumberRoundTrip(n, rest);
      case Null =>
        assert s[4..] == rest && s[..4] == Ascii("null");
      case Bool(b) =>
        if b {
          assert s[4..] == rest && s[0] == 116 && s[..4] == Ascii("true");
          assert Ascii("null")[0] == 110;
        } else {
          assert s[5..] == rest && s[0] == 102 && s[..5] == Ascii("false");
          assert Ascii("null")[0] == 110 && Ascii("true")[0] == 116;
        }
    }
  }

  lemma MemberRoundTrip(key: Text, v: Json, rest: seq<int>)
    requires v.Number? ==> 0 <= v.n
    requires rest != [] && !IsDigit(rest[0])
    ensures ReadMember(PrintMember(key, v) + rest) == Some((Join(key), JoinValue(v), rest))
  {
    var after := [58] + (PrintValue(v) + rest);
    Regroup(PrintString(key), PrintValue(v), rest);
    StringRoundTrip(key, after);
    ValueRoundTrip(v, rest);
    ReadMemberStep(PrintString(key) + after, Join(key), after, JoinValue(v), rest);
  }

  lemma Regroup(a: seq<int>, b: seq<int>, c: seq<int>)
    ensures a + [58] + b + c == a + ([58] + (b + c))
    ensures ([58] + (b + c))[1..] == b + c
  {
  }

  lemma Bracketed(a: seq<int>, b: seq<int>, c: seq<int>)
    ensures [123] + a + [44] + b + [44] + c + [125] == [123] + (a + ([44] + (b + ([44] + (c + [125])))))
  {
    var third := c + [125];
    var second := b + ([44] + third);
    Associates([123] + a + [44] + b + [44], c, [125]);
    Associates([123] + a + [44] + b, [44], third);
    Associates([123] + a + [44], b, [44] + third);
    Associates([123] + a, [44], second);
    Associates([123], a, [44] + second);
  }

  /** Three texts that each read as a member, whatever follows, read together as an object. */
  lemma ThreeMembers(a: seq<int>, b: seq<int>, c: seq<int>, second: seq<int>, third: seq<int>,
                     ka: Text, kb: Text, kc: Text, va: Json, vb: Json, vc: Json)
    requires third == c + [125] && second == b + ([44] + third)
    requires ReadMember(a + ([44] + second)) == Some((ka, va, [44] + second))
    requires ReadMember(second) == Some((kb, vb, [44] + third))
    requires ReadMember(third) == Some((kc, vc, [125]))
    ensures ReadDocument([123] + a + [44] + b + [44] + c + [125]) == Some(map[ka := va, kb := vb, kc := vc])
  {
    hide *;
    var first := a + ([44] + second);
    ReadMembersNext(first, map[], ka, va, second);
    ReadMembersNext(second, map[ka := va], kb, vb, third);
    ReadMembersLast(third, map[ka := va, kb := vb], kc, vc);
    Bracketed(a, b, c);
    OpenBrace(first, map[ka := va, kb := vb, kc := vc]);
  }

  lemma OpenBrace(first: seq<int>, members: Object)
    requires ReadMembers(first, map[]) == Some((members, []))
    ensures ReadDocument([123] + first) == Some(members)
  {
    assert ([123] + first)[1..] == first;
    assert [123] + first == [123, 125] ==> first == [125];
  }

  lemma KeysAreAscii()
    ensures IsAscii(CreatedAtKey()) && IsAscii(IdKey()) && IsAscii(KindKey())
  {
  }

  /** The printed payload reads back as its three members, with every text joined. */
  lemma PayloadRoundTrip(createdAt: nat, id: Text, kind: Option<Text>)
    ensures ReadDocument(PrintPayload(createdAt, id, kind))
         == Some(Payload(Number(createdAt), String(Join(id)), JoinValue(FilterValue(kind))))
  {
    hide PrintMember, ReadMember, ReadDocument, IsAscii, Join, CreatedAtKey, IdKey, KindKey;
    KeysAreAscii();
    var a := PrintMember(CreatedAtKey(), Number(createdAt));
    var b := PrintMember(IdKey(), String(id));
    var c := PrintMember(KindKey(), FilterValue(kind));
    var third := c + [125];
    var second := b + ([44] + third);
    StableMember(CreatedAtKey(), Number(createdAt), [44] + second);
    StableMember(IdKey(), String(id), [44] + third);
    StableMember(KindKey(), FilterValue(kind), [125]);
    ThreeMembers(a, b, c, second, third, CreatedAtKey(), IdKey(), KindKey(), Number(createdAt), String(Join(id)),
                 JoinValue(FilterValue(kind)));
  }

  function Payload(createdAt: Json, id: Json, kind: Json): Object {
    map[CreatedAtKey() := createdAt, IdKey() := id, KindKey() := kind]
  }

  lemma StableMember(key: Text, v: Json, rest: seq<int>)
    requires IsAscii(key) && (v.Number? ==> 0 <= v.n)
    requires rest != [] && !IsDigit(rest[0])
    ensures ReadMember(PrintMember(key, v) + rest) == Some((key, JoinValue(v), rest))
  {
    AsciiIsStable(key);
    MemberRoundTrip(key, v, rest);
  }

  lemma PayloadMembers(createdAt: Json, id: Json, kind: Json)
    ensures
      var p := Payload(createdAt, id, kind);
      && p.Keys == {CreatedAtKey(), IdKey(), KindKey()}
      && p[CreatedAtKey()] == createdAt && p[IdKey()] == id && p[KindKey()] == kind
  {
    assert |CreatedAtKey()| == 10 && |IdKey()| == 2 && |KindKey()| == 4;
  }

  function JoinKind(kind: Option<Text>): Option<Text> {
    match kind
    case None => None
    case Some(text) => Some(Join(text))
  }

  /** What any cursor decodes to, under any filter: its own position with the id joined, if the filter
      is the joined filter it was made under; otherwise it is rejected as another filter's. */
  lemma DecodeEncode(e: Event, made: Option<Text>, used: Option<Text>)
    requires 0 <= e.createdAt && e.id != []
    ensures Decode(Encode(e, made), used)
         == if used == JoinKind(made) then Ok((e.createdAt, Join(e.id))) else Err(OtherFilter)
  {
    DecodeReadsPayload(e, made, used);
    PayloadRoundTrip(e.createdAt, e.id, made);
    PayloadMembers(Number(e.createdAt), String(Join(e.id)), JoinValue(FilterValue(made)));
    JoinFixesExactly(e.id);
    assert JoinValue(FilterValue(made)) == FilterValue(JoinKind(made));
  }

  /** Stripping, restoring and decoding the symbols leads back to the printed payload. */
  lemma DecodeReadsPayload(e: Event, made: Option<Text>, used: Option<Text>)
    requires 0 <= e.createdAt
    ensures Decode(Encode(e, made), used)
         == match ReadDocument(PrintPayload(e.createdAt, e.id, made))
            case None => Err(MalformedCursor)
            case Some(payload) => ReadPayload(payload, used)
  {
    PayloadIsAscii(e.createdAt, e.id, made);
    var raw: seq<Byte> := PrintPayload(e.createdAt, e.id, made);
    Base64Url.RepadRestores(raw);
    Base64Url.EncodeRoundTrip(raw);
  }

  predicate Stable(kind: Option<Text>) {
    kind.Some? ==> NoSurrogatePair(kind.value)
  }

  /** A cursor gives back its own event's position under its own filter exactly when neither the id
      nor the filter holds a surrogate pair. */
  lemma RoundTripIff(e: Event, kind: Option<Text>)
    requires 0 <= e.createdAt && e.id != []
    ensures Decode(Encode(e, kind), kind) == Ok((e.createdAt, e.id)) <==> NoSurrogatePair(e.id) && Stable(kind)
  {
    DecodeEncode(e, kind, kind);
    JoinFixesExactly(e.id);
    if kind.Some? {
      JoinFixesExactly(kind.value);
    }
  }

  /** A filter is what its own cursor binds to exactly when it holds no surrogate pair. */
  lemma StableFilters(kind: Option<Text>)
    ensures JoinKind(kind) == kind <==> Stable(kind)
  {
    if kind.Some? {
      JoinFixesExactly(kind.value);
    }
  }

  /** A cursor is rejected under every filter but its own exactly when its own holds no surrogate
      pair; otherwise the joined filter accepts it. */
  lemma OtherFiltersAreRejectedIff(e: Event, made: Option<Text>)
    requires 0 <= e.createdAt && e.id != []
    ensures (forall used :: used != made ==> Decode(Encode(e, made), used) == Err(OtherFilter)) <==> Stable(made)
  {
    hide Encode, Decode, Join, NoSurrogatePair;
    StableFilters(made);
    forall used: Option<Text> ensures Decode(Encode(e, made), used) == Err(OtherFilter) <==> used != JoinKind(made) {
      DecodeEncode(e, made, used);
    }
    if !Stable(made) {
      assert Decode(Encode(e, made), JoinKind(made)) != Err(OtherFilter);
    }
  }

  /** With a surrogate pair the binding fails: the two-character filter's cursor passes for the
      one-character filter it joins into. */
  lemma SurrogatePairSlipsThrough(e: Event)
    requires 0 <= e.createdAt && e.id != [] && NoSurrogatePair(e.id)
    ensures Some([0xD83D, 0xDE00]) != Some([0x1_F600])
    ensures Decode(Encode(e, Some([0xD83D, 0xDE00])), Some([0x1_F600])) == Ok((e.createdAt, e.id))
  {
    var pair, face: Text := [0xD83D, 0xDE00], [0x1_F600];
    assert |pair| != |face|;
    assert pair[2..] == [] && Join(pair) == [Combine(0xD83D, 0xDE00)] == face;
    DecodeEncode(e, Some(pair), Some(face));
    JoinFixesExactly(e.id);
  }
}
