/** Cursor pagination over a filtered, newest-first event list, and what following the cursors yields. */
module Pagination {
  import opened Wrappers
  import opened Sorting
  import opened JsonText
  import opened Cursor

  /** `limit` items at most, and a cursor only when more remain. */
  datatype EventPage = EventPage(items: seq<Event>, nextCursor: Option<Text>)

  /** The sort key: the time, then the id. */
  function Position(e: Event): Key {
    [e.createdAt] + e.id
  }

  function Id(e: Event): Key {
    e.id
  }

  function ListRecent(events: seq<Event>): seq<Event> {
    Sorted(events, Position, true)
  }

  predicate ValidEvent(e: Event) {
    e.id != [] && e.kind != [] && 0 <= e.createdAt
  }

  predicate ValidEvents(events: seq<Event>) {
    (forall i :: 0 <= i < |events| ==> ValidEvent(events[i])) && DistinctKeys(events, Id)
  }

  method CheckEvents(events: seq<Event>) returns (r: Result<seq<Event>, PageError>)
    ensures r == if ValidEvents(events) then Ok(ListRecent(events)) else Err(BadEvents)
  {
    var ids: set<Text> := {};
    for i := 0 to |events|
      invariant ValidEvents(events[..i])
      invariant forall id :: id in ids <==> exists j :: 0 <= j < i && events[j].id == id
    {
      var event := events[i];
      if event.id == [] || event.id in ids || event.kind == [] {
        assert !ValidEvents(events);
        return Err(BadEvents);
      }
      if event.createdAt < 0 {
        assert !ValidEvent(events[i]);
        return Err(BadEvents);
      }
      ids := ids + {event.id};
      assert events[..i + 1] == events[..i] + [event];
    }
    assert events[..|events|] == events;
    return Ok(ListRecent(events));
  }

  function Matching(kind: Option<Text>): Event -> bool {
    (e: Event) => kind.None? || e.kind == kind.value
  }

  function Ordered(events: seq<Event>, kind: Option<Text>): seq<Event> {
    Filter(ListRecent(events), Matching(kind))
  }

  /** The index of the first event at a position. */
  function IndexAt(ordered: seq<Event>, createdAt: int, id: Text): (r: Option<nat>)
    ensures r.Some? ==>
      r.value < |ordered| && ordered[r.value].createdAt == createdAt && ordered[r.value].id == id
    ensures r.None? ==> forall i :: 0 <= i < |ordered| ==> !(ordered[i].createdAt == createdAt && ordered[i].id == id)
  {
    if ordered == [] then None
    else if ordered[0].createdAt == createdAt && ordered[0].id == id then Some(0)
    else match IndexAt(ordered[1..], createdAt, id)
      case None => None
      case Some(i) => Some(i + 1)
  }

  function Start(ordered: seq<Event>, after: Option<Text>, kind: Option<Text>): (r: Result<nat, PageError>)
    ensures r.Ok? ==> r.value <= |ordered|
  {
    match after
    case None => Ok(0)
    case Some(cursor) =>
      match Decode(cursor, kind)
      case Err(error) => Err(error)
      case Ok((createdAt, id)) =>
        match IndexAt(ordered, createdAt, id)
        case None => Err(UnknownPosition)
        case Some(i) => Ok(i + 1)
  }

  predicate AllDated(events: seq<Event>) {
    forall i :: 0 <= i < |events| ==> 0 <= events[i].createdAt
  }

  function PageAt(ordered: seq<Event>, limit: nat, kind: Option<Text>, start: nat): EventPage
    requires start <= |ordered| && AllDated(ordered)
  {
    var items := ordered[start..if start + limit < |ordered| then start + limit else |ordered|];
    var more := start + |items| < |ordered|;
    EventPage(items, if items != [] && more then Some(Encode(items[|items| - 1], kind)) else None)
  }

  function Paginate(events: seq<Event>, limit: int, after: Option<Text>, kind: Option<Text>)
    : Result<EventPage, PageError>
  {
    if !(1 <= limit <= 100) then Err(BadLimit)
    else if kind == Some([]) then Err(BadKind)
    else if !ValidEvents(events) then Err(BadEvents)
    else
      OrderedIsSound(events, kind);
      var ordered := Ordered(events, kind);
      match Start(ordered, after, kind)
      case Err(error) => Err(error)
      case Ok(start) => Ok(PageAt(ordered, limit, kind, start))
  }

  // ----- The ordered list

  lemma PositionsDiffer(events: seq<Event>)
    requires DistinctKeys(events, Id)
    ensures DistinctKeys(events, Position)
  {
    forall i, j | 0 <= i < j < |events| ensures Position(events[i]) != Position(events[j]) {
      assert Id(events[i]) != Id(events[j]);
      assert Position(events[i])[1..] == Id(events[i]) && Position(events[j])[1..] == Id(events[j]);
    }
  }

  /** Newest first without ties, and exactly the matching events. */
  lemma OrderedIsSound(events: seq<Event>, kind: Option<Text>)
    requires ValidEvents(events)
    ensures StrictlyInOrder(Ordered(events, kind), Position, true)
    ensures forall e :: e in Ordered(events, kind) <==> e in events && Matching(kind)(e)
    ensures AllDated(Ordered(events, kind))
    ensures forall i :: 0 <= i < |Ordered(events, kind)| ==> ValidEvent(Ordered(events, kind)[i])
  {
    var ordered := Ordered(events, kind);
    PositionsDiffer(events);
    SortedIsStrict(events, Position, true);
    SortedPermutes(events, Position, true);
    FilterMembers(ListRecent(events), Matching(kind));
    FilterKeepsStrictOrder(ListRecent(events), Matching(kind), Position, true);
    forall i | 0 <= i < |ordered| ensures ValidEvent(ordered[i]) {
      assert ordered[i] in ordered && ordered[i] in events;
      var j :| 0 <= j < |events| && events[j] == ordered[i];
    }
  }

  lemma PositionIsKnown(ordered: seq<Event>, i: nat, j: nat)
    requires StrictlyInOrder(ordered, Position, true) && i < |ordered| && j < |ordered|
    requires Position(ordered[i]) == Position(ordered[j])
    ensures i == j
  {
    if i < j {
      PositionsAreApart(ordered, i, j);
    } else if j < i {
      PositionsAreApart(ordered, j, i);
    }
  }

  lemma PositionsAreApart(ordered: seq<Event>, i: nat, j: nat)
    requires StrictlyInOrder(ordered, Position, true) && i < j < |ordered|
    ensures Position(ordered[i]) != Position(ordered[j])
  {
    LtIrreflexive(Position(ordered[i]));
  }

  // ----- Resuming at a cursor

  /** A cursor made from the event at `i` resumes just after it, if its texts survive the cursor. */
  lemma ResumesAfter(ordered: seq<Event>, i: nat, kind: Option<Text>)
    requires StrictlyInOrder(ordered, Position, true) && i < |ordered| && ValidEvent(ordered[i])
    requires NoSurrogatePair(ordered[i].id) && Stable(kind)
    ensures Start(ordered, Some(Encode(ordered[i], kind)), kind) == Ok(i + 1)
  {
    hide Encode, Decode, Ordered, Lt, NoSurrogatePair;
    var e := ordered[i];
    RoundTripIff(e, kind);
    var found := IndexAt(ordered, e.createdAt, e.id);
    assert found.Some?;
    PositionIsKnown(ordered, i, found.value);
  }

  /** Joining a surrogate pair makes a text later in order. */
  lemma {:induction false} JoinComesLater(text: Text)
    ensures NoSurrogatePair(text) || Lt(text, Join(text))
    decreases |text|
  {
    if |text| >= 2 && IsHigh(text[0]) && IsLow(text[1]) {
      assert Join(text)[0] == Combine(text[0], text[1]) > text[0];
    } else if text != [] {
      JoinComesLater(text[1..]);
      assert Join(text)[0] == text[0] && Join(text)[1..] == Join(text[1..]);
    }
  }

  /** A cursor that is accepted never resumes later than just after its event, and resumes exactly
      there when the id holds no surrogate pair. */
  lemma AcceptedCursorResumes(ordered: seq<Event>, i: nat, kind: Option<Text>, start: nat)
    requires StrictlyInOrder(ordered, Position, true) && i < |ordered| && ValidEvent(ordered[i])
    requires Start(ordered, Some(Encode(ordered[i], kind)), kind) == Ok(start)
    ensures Stable(kind) && 1 <= start <= i + 1
    ensures start == i + 1 <==> NoSurrogatePair(ordered[i].id)
  {
    hide Encode, Decode, Ordered, Lt, Join, NoSurrogatePair, StrictlyInOrder;
    var e := ordered[i];
    DecodeEncode(e, kind, kind);
    StableFilters(kind);
    JoinFixesExactly(e.id);
    var k := start - 1;
    assert ordered[k].createdAt == e.createdAt && ordered[k].id == Join(e.id);
    if NoSurrogatePair(e.id) {
      PositionIsKnown(ordered, i, k);
    } else {
      JoinComesLater(e.id);
      LaterIdComesFirst(ordered, i, k);
    }
  }

  lemma LaterIdComesFirst(ordered: seq<Event>, i: nat, k: nat)
    requires StrictlyInOrder(ordered, Position, true) && i < |ordered| && k < |ordered|
    requires ordered[k].createdAt == ordered[i].createdAt && Lt(ordered[i].id, ordered[k].id)
    ensures k < i
  {
    var low, high := Position(ordered[i]), Position(ordered[k]);
    assert low[1..] == ordered[i].id && high[1..] == ordered[k].id;
    assert Lt(low, high);
    LtIrreflexive(low);
    if i < k {
      LowerComesLater(ordered, i, k);
    }
  }

  lemma LowerComesLater(ordered: seq<Event>, i: nat, k: nat)
    requires StrictlyInOrder(ordered, Position, true) && i < k < |ordered|
    ensures !Lt(Position(ordered[i]), Position(ordered[k]))
  {
    assert Before(ordered[i], ordered[k], Position, true);
    LtAsymmetric(Position(ordered[k]), Position(ordered[i]));
  }

  /** A cursor that does not survive never resumes just after its event. */
  lemma NeverResumesAfter(ordered: seq<Event>, i: nat, kind: Option<Text>)
    requires i < |ordered| && ValidEvent(ordered[i])
    requires !NoSurrogatePair(ordered[i].id) || !Stable(kind)
    ensures Start(ordered, Some(Encode(ordered[i], kind)), kind) != Ok(i + 1)
  {
    hide Encode, Decode, Ordered, Lt, NoSurrogatePair;
    var e := ordered[i];
    DecodeEncode(e, kind, kind);
    JoinFixesExactly(e.id);
    StableFilters(kind);
  }

  // ----- Following the cursors over an unchanging list

  /** The pages obtained by passing each page's cursor to the next call, to the end. */
  ghost predicate IsWalk(events: seq<Event>, limit: int, kind: Option<Text>, after: Option<Text>, pages: seq<EventPage>)
    decreases |pages|
  {
    && pages != []
    && Paginate(events, limit, after, kind) == Ok(pages[0])
    && match pages[0].nextCursor
       case None => |pages| == 1
       case Some(cursor) => IsWalk(events, limit, kind, Some(cursor), pages[1..])
  }

  function Items(pages: seq<EventPage>): seq<Event> {
    if pages == [] then [] else pages[0].items + Items(pages[1..])
  }

  /** Every event that ends a page, other than the last page, has an id that survives its cursor, and
      so does the filter if there is more than one page. */
  predicate CursorsSurvive(ordered: seq<Event>, limit: nat, kind: Option<Text>, start: nat)
    requires 1 <= limit
    decreases |ordered| - start
  {
    start + limit < |ordered| ==>
      && Stable(kind)
      && NoSurrogatePair(ordered[start + limit - 1].id)
      && CursorsSurvive(ordered, limit, kind, start + limit)
  }

  function Chunks(ordered: seq<Event>, limit: nat, kind: Option<Text>, start: nat): seq<EventPage>
    requires 1 <= limit && start <= |ordered| && AllDated(ordered)
    decreases |ordered| - start
  {
    if start + limit < |ordered|
    then [PageAt(ordered, limit, kind, start)] + Chunks(ordered, limit, kind, start + limit)
    else [PageAt(ordered, limit, kind, start)]
  }

  lemma ItemsOfCons(first: EventPage, rest: seq<EventPage>)
    ensures Items([first] + rest) == first.items + Items(rest)
  {
    assert ([first] + rest)[1..] == rest;
  }

  lemma NoItems()
    ensures Items([]) == []
  {
  }

  lemma ChunkItems(ordered: seq<Event>, limit: nat, kind: Option<Text>, start: nat)
    requires 1 <= limit && start <= |ordered| && AllDated(ordered)
    ensures
      var items := PageAt(ordered, limit, kind, start).items;
      if start + limit < |ordered|
      then |items| == limit && ordered[start..] == items + ordered[start + limit..]
      else items == ordered[start..]
  {
    hide Encode;
  }

  /** Consecutive chunks cover the list, each event once and in order, with full pages up to the last. */
  lemma {:induction false} ChunksCover(ordered: seq<Event>, limit: nat, kind: Option<Text>, start: nat)
    requires 1 <= limit && start <= |ordered| && AllDated(ordered)
    ensures Items(Chunks(ordered, limit, kind, start)) == ordered[start..]
    ensures
      var pages := Chunks(ordered, limit, kind, start);
      forall i :: 0 <= i < |pages| - 1 ==> |pages[i].items| == limit
    decreases |ordered| - start
  {
    hide PageAt, Items, AllDated;
    var first := PageAt(ordered, limit, kind, start);
    ChunkItems(ordered, limit, kind, start);
    ItemsOfCons(first, []);
    if start + limit < |ordered| {
      ChunksCover(ordered, limit, kind, start + limit);
      var rest := Chunks(ordered, limit, kind, start + limit);
      ItemsOfCons(first, rest);
    } else {
      NoItems();
      assert [first] + [] == [first];
    }
  }

  /** There are as many chunks as rounding the division up gives, and one for an empty list. */
  lemma {:induction false} ChunksCount(ordered: seq<Event>, limit: nat, kind: Option<Text>, start: nat)
    requires 1 <= limit && start <= |ordered| && AllDated(ordered)
    ensures
      var count, left := |Chunks(ordered, limit, kind, start)|, |ordered| - start;
      && 1 <= count && left <= count * limit
      && (if left == 0 then count == 1 else (count - 1) * limit < left)
    decreases |ordered| - start
  {
    hide Encode;
    if start + limit < |ordered| {
      ChunksCount(ordered, limit, kind, start + limit);
      OneMoreChunk(|Chunks(ordered, limit, kind, start + limit)|, |ordered| - start - limit, limit);
    }
  }

  lemma OneMoreChunk(count: nat, left: nat, limit: nat)
    requires 1 <= count && left <= count * limit && (if left == 0 then count == 1 else (count - 1) * limit < left)
    ensures left + limit <= (count + 1) * limit
    ensures left > 0 ==> count * limit < left + limit
  {
    assert (count + 1) * limit == count * limit + limit;
    assert count * limit == (count - 1) * limit + limit;
  }

  ghost predicate ValidCall(events: seq<Event>, limit: int, kind: Option<Text>) {
    1 <= limit <= 100 && kind != Some([]) && ValidEvents(events)
  }

  /** Walks from one cursor are all the same. */
  lemma {:induction false} WalkIsDetermined(events: seq<Event>, limit: int, kind: Option<Text>, after: Option<Text>,
                                            pages: seq<EventPage>, others: seq<EventPage>)
    requires IsWalk(events, limit, kind, after, pages) && IsWalk(events, limit, kind, after, others)
    ensures pages == others
    decreases |pages|
  {
    hide Encode, Decode, Ordered, Lt, NoSurrogatePair;
    if pages[0].nextCursor.Some? {
      WalkIsDetermined(events, limit, kind, pages[0].nextCursor, pages[1..], others[1..]);
      assert pages == [pages[0]] + pages[1..] && others == [others[0]] + others[1..];
    } else {
      assert pages == [pages[0]] && others == [others[0]];
    }
  }

  /** The page at `start`: its items, and the cursor of the last of them if more remain. */
  lemma PageShape(ordered: seq<Event>, limit: nat, kind: Option<Text>, start: nat)
    requires 1 <= limit && start <= |ordered| && AllDated(ordered)
    ensures PageAt(ordered, limit, kind, start) ==
      if start + limit < |ordered|
      then EventPage(ordered[start..start + limit], Some(Encode(ordered[start + limit - 1], kind)))
      else EventPage(ordered[start..], None)
  {
    hide Encode;
    if start + limit < |ordered| {
      var items := ordered[start..start + limit];
      assert items[|items| - 1] == ordered[start + limit - 1];
    } else {
      assert ordered[start..|ordered|] == ordered[start..];
    }
  }

  /** A call that starts at `start` returns the page there. */
  lemma PageFrom(events: seq<Event>, limit: int, kind: Option<Text>, after: Option<Text>, start: nat)
    requires ValidCall(events, limit, kind)
    requires Start(Ordered(events, kind), after, kind) == Ok(start)
    ensures AllDated(Ordered(events, kind)) && start <= |Ordered(events, kind)|
    ensures Paginate(events, limit, after, kind) == Ok(PageAt(Ordered(events, kind), limit, kind, start))
    ensures
      var ordered := Ordered(events, kind);
      PageAt(ordered, limit, kind, start) ==
        if start + limit < |ordered|
        then EventPage(ordered[start..start + limit], Some(Encode(ordered[start + limit - 1], kind)))
        else EventPage(ordered[start..], None)
  {
    hide Encode, Decode, Ordered, PageAt, StrictlyInOrder;
    OrderedIsSound(events, kind);
    PageShape(Ordered(events, kind), limit, kind, start);
  }

  lemma {:induction false} ChunksAreAWalk(events: seq<Event>, limit: int, kind: Option<Text>, after: Option<Text>,
                                          start: nat)
    requires ValidCall(events, limit, kind)
    requires Start(Ordered(events, kind), after, kind) == Ok(start)
    requires CursorsSurvive(Ordered(events, kind), limit, kind, start)
    ensures AllDated(Ordered(events, kind))
    ensures IsWalk(events, limit, kind, after, Chunks(Ordered(events, kind), limit, kind, start))
    decreases |Ordered(events, kind)| - start
  {
    hide Encode, Decode, Ordered, Lt, NoSurrogatePair, Paginate, PageAt, Start;
    var ordered := Ordered(events, kind);
    OrderedIsSound(events, kind);
    PageFrom(events, limit, kind, after, start);
    if start + limit < |ordered| {
      var last := start + limit - 1;
      ResumesAfter(ordered, last, kind);
      ChunksAreAWalk(events, limit, kind, Some(Encode(ordered[last], kind)), start + limit);
      assert Chunks(ordered, limit, kind, start)[1..] == Chunks(ordered, limit, kind, start + limit);
    }
  }

  /** Only a list whose cursors all survive can be walked to completion. */
  lemma {:induction false} CompleteWalkSurvives(events: seq<Event>, limit: int, kind: Option<Text>, after: Option<Text>,
                                                start: nat, pages: seq<EventPage>)
    requires ValidCall(events, limit, kind)
    requires Start(Ordered(events, kind), after, kind) == Ok(start)
    requires IsWalk(events, limit, kind, after, pages)
    requires Items(pages) == Ordered(events, kind)[start..]
    ensures CursorsSurvive(Ordered(events, kind), limit, kind, start)
    decreases |pages|
  {
    hide Encode, Decode, Ordered, Lt, NoSurrogatePair, Paginate, PageAt, Start;
    var ordered := Ordered(events, kind);
    OrderedIsSound(events, kind);
    PageFrom(events, limit, kind, after, start);
    if start + limit < |ordered| {
      var last, next := start + limit - 1, start + limit;
      var cursor := Encode(ordered[last], kind);
      assert pages[0] == EventPage(ordered[start..next], Some(cursor));
      DropFirst(pages, ordered, start, next);
      ResumesWhereItLeftOff(events, limit, kind, cursor, next, pages[1..]);
      if !(NoSurrogatePair(ordered[last].id) && Stable(kind)) {
        NeverResumesAfter(ordered, last, kind);
      }
      CompleteWalkSurvives(events, limit, kind, Some(cursor), next, pages[1..]);
    }
  }

  lemma DropFirst(pages: seq<EventPage>, ordered: seq<Event>, start: nat, next: nat)
    requires pages != [] && start <= next <= |ordered|
    requires Items(pages) == ordered[start..] && pages[0].items == ordered[start..next]
    ensures Items(pages[1..]) == ordered[next..]
  {
    assert Items(pages)[next - start..] == Items(pages[1..]);
    assert ordered[start..][next - start..] == ordered[next..];
  }

  /** If the remaining walk yields the list from `next` on, its first call started at `next`. */
  lemma ResumesWhereItLeftOff(events: seq<Event>, limit: int, kind: Option<Text>, cursor: Text, next: nat,
                              pages: seq<EventPage>)
    requires ValidCall(events, limit, kind) && next < |Ordered(events, kind)|
    requires IsWalk(events, limit, kind, Some(cursor), pages)
    requires Items(pages) == Ordered(events, kind)[next..]
    ensures Start(Ordered(events, kind), Some(cursor), kind) == Ok(next)
  {
    hide Encode, Decode, Ordered, Lt, NoSurrogatePair;
    var ordered := Ordered(events, kind);
    OrderedIsSound(events, kind);
    var start := Start(ordered, Some(cursor), kind).value;
    assert pages[0] == PageAt(ordered, limit, kind, start);
    FirstPageIsNotEmpty(pages);
    assert Items(pages)[0] == pages[0].items[0] == ordered[start];
    PositionIsKnown(ordered, start, next);
  }

  /** A walk that yields anything yields something on its first page, unless that page has a cursor. */
  lemma FirstPageIsNotEmpty(pages: seq<EventPage>)
    requires pages != [] && Items(pages) != [] && (pages[0].items == [] ==> |pages| == 1)
    ensures pages[0].items != []
  {
  }

  /** Following the cursors from the start yields the filtered newest-first list, each event exactly
      once, if and only if the id ending each page and the filter hold no surrogate pair. */
  lemma WalkIsCompleteIff(events: seq<Event>, limit: int, kind: Option<Text>)
    requires ValidCall(events, limit, kind)
    ensures (exists pages :: IsWalk(events, limit, kind, None, pages) && Items(pages) == Ordered(events, kind))
      <==> CursorsSurvive(Ordered(events, kind), limit, kind, 0)
  {
    hide Encode, Decode, Ordered, Lt, NoSurrogatePair;
    var ordered := Ordered(events, kind);
    OrderedIsSound(events, kind);
    assert ordered[0..] == ordered;
    if CursorsSurvive(ordered, limit, kind, 0) {
      ChunksAreAWalk(events, limit, kind, None, 0);
      ChunksCover(ordered, limit, kind, 0);
    } else if pages :| IsWalk(events, limit, kind, None, pages) && Items(pages) == ordered {
      CompleteWalkSurvives(events, limit, kind, None, 0, pages);
    }
  }

  /** Two valid events the newer of which has a surrogate pair for an id: the first page comes with a
      cursor, and the call made with that cursor fails. */
  lemma PairStopsTheWalk()
    ensures
      var newer, older := Event([0xD83D, 0xDE00], 2, [97]), Event([98], 1, [97]);
      var cursor := Encode(newer, None);
      && ValidCall([older, newer], 1, None)
      && Paginate([older, newer], 1, None, None) == Ok(EventPage([newer], Some(cursor)))
      && Paginate([older, newer], 1, Some(cursor), None) == Err(UnknownPosition)
  {
    hide Encode, Decode, Join;
    var newer, older := Event([0xD83D, 0xDE00], 2, [97]), Event([98], 1, [97]);
    var events, ordered := [older, newer], [newer, older];
    TwoEventsOrdered(newer, older);
    assert Id(newer) != Id(older) by { assert |newer.id| != |older.id|; }
    DecodeEncode(newer, None, None);
    PairJoins();
    assert newer.id != [0x1_F600] by { assert |newer.id| == 2; }
    assert older.createdAt != 2;
    assert IndexAt(ordered, 2, [0x1_F600]).None?;
    assert Start(ordered, Some(Encode(newer, None)), None) == Err(UnknownPosition);
    assert ordered[0..1] == [newer];
  }

  /** Three valid events, the first of which has the id that the second's joins into: the second's
      cursor leads back to its own page, without end. */
  lemma PairRepeatsItsPage()
    ensures
      var joined, pair := Event([0x1_F600], 1, [97]), Event([0xD83D, 0xDE00], 1, [97]);
      var events := [joined, pair, Event([98], 0, [97])];
      var cursor := Encode(pair, None);
      && ValidCall(events, 1, None)
      && Paginate(events, 1, Some(cursor), None) == Ok(EventPage([pair], Some(cursor)))
  {
    hide Encode, Decode, Join, Ordered;
    var joined, pair, oldest := Event([0x1_F600], 1, [97]), Event([0xD83D, 0xDE00], 1, [97]), Event([98], 0, [97]);
    var events := [joined, pair, oldest];
    assert Id(pair) != Id(joined) && Id(pair) != Id(oldest) by {
      assert |Id(pair)| == 2 && |Id(joined)| == 1 && |Id(oldest)| == 1;
    }
    assert Id(joined)[0] != Id(oldest)[0];
    OrderedIsSound(events, None);
    assert Position(joined)[1..] == joined.id && Position(pair)[1..] == pair.id;
    assert Lt(pair.id, joined.id);
    assert Before(joined, pair, Position, true) && Before(joined, oldest, Position, true);
    assert Before(pair, oldest, Position, true);
    assert StrictlyInOrder(events, Position, true);
    StrictOrderIsUnique(events, Ordered(events, None), Position, true);
    DecodeEncode(pair, None, None);
    PairJoins();
    assert IndexAt(events, 1, [0x1_F600]) == Some(0);
    assert Start(events, Some(Encode(pair, None)), None) == Ok(1);
    assert events[1..2] == [pair];
  }

  lemma PairJoins()
    ensures Join([0xD83D, 0xDE00]) == [0x1_F600]
  {
    var pair: Text := [0xD83D, 0xDE00];
    assert pair[2..] == [] && Join(pair) == [Combine(0xD83D, 0xDE00)];
  }

  lemma TwoEventsOrdered(newer: Event, older: Event)
    requires newer.createdAt > older.createdAt
    ensures Ordered([older, newer], None) == [newer, older]
  {
    var events := [older, newer];
    assert events[1..] == [newer] && [newer][1..] == [];
    assert Sorted(events[1..], Position, true) == [newer];
    assert Before(newer, older, Position, true);
    assert Insert(older, [newer][1..], Position, true) == [older];
    assert Insert(older, [newer], Position, true) == [newer] + [older];
    assert Sorted(events, Position, true) == [newer, older];
    var both := [newer, older];
    assert both[1..] == [older] && [older][1..] == [];
    assert Filter([older], Matching(None)) == [older] + [];
    assert Filter(both, Matching(None)) == [newer] + Filter(both[1..], Matching(None));
  }

  /** How long a complete walk is: full pages, and the count rounded up, with one page for no events. */
  lemma WalkLength(events: seq<Event>, limit: int, kind: Option<Text>, pages: seq<EventPage>)
    requires ValidCall(events, limit, kind)
    requires CursorsSurvive(Ordered(events, kind), limit, kind, 0)
    requires IsWalk(events, limit, kind, None, pages)
    ensures
      var n := |Ordered(events, kind)|;
      && Items(pages) == Ordered(events, kind)
      && (forall i :: 0 <= i < |pages| - 1 ==> |pages[i].items| == limit)
      && (if n == 0 then |pages| == 1 else (|pages| - 1) * limit < n <= |pages| * limit)
  {
    hide Encode, Decode, Ordered, Lt, NoSurrogatePair;
    var ordered := Ordered(events, kind);
    OrderedIsSound(events, kind);
    assert ordered[0..] == ordered;
    ChunksAreAWalk(events, limit, kind, None, 0);
    WalkIsDetermined(events, limit, kind, None, pages, Chunks(ordered, limit, kind, 0));
    ChunksCover(ordered, limit, kind, 0);
    ChunksCount(ordered, limit, kind, 0);
  }
}
