/** What callers of the pagination may rely on, in terms of the events alone: what a call refuses, what a
    page holds, and what following the cursors lists. */
module PageGuarantees {
  import opened Wrappers
  import opened Sorting
  import opened JsonText
  import opened Cursor
  import opened Pagination
  import opened GrowingWalks

  ghost predicate EventsFit(events: seq<Event>) {
    && (forall i :: 0 <= i < |events| ==> events[i].id != [] && events[i].kind != [] && 0 <= events[i].createdAt)
    && (forall i, j :: 0 <= i < j < |events| ==> events[i].id != events[j].id)
  }

  /** The filter, if there is one, asks for events of this kind. */
  predicate Wanted(kind: Option<Text>, e: Event) {
    match kind
    case None => true
    case Some(k) => e.kind == k
  }

  /** Later, or at the same time with the greater id. */
  predicate Newer(a: Event, b: Event) {
    a.createdAt > b.createdAt || (a.createdAt == b.createdAt && Lt(b.id, a.id))
  }

  ghost predicate NewestFirst(items: seq<Event>) {
    forall i, j :: 0 <= i < j < |items| ==> Newer(items[i], items[j])
  }

  /** Exactly the wanted events, newest first, so each once. */
  ghost predicate Lists(items: seq<Event>, events: seq<Event>, kind: Option<Text>) {
    NewestFirst(items) && forall e :: e in items <==> e in events && Wanted(kind, e)
  }

  predicate ComesAfter(from: Option<Event>, e: Event) {
    from.Some? ==> Newer(from.value, e)
  }

  // ----- The list paged over

  lemma BeforeIsNewer(a: Event, b: Event)
    ensures Before(a, b, Position, true) <==> Newer(a, b)
  {
    assert Position(a)[1..] == a.id && Position(b)[1..] == b.id;
  }

  lemma OrderIsNewestFirst(items: seq<Event>)
    ensures StrictlyInOrder(items, Position, true) <==> NewestFirst(items)
  {
    hide Lt, Newer;
    forall i, j | 0 <= i < j < |items| ensures Before(items[i], items[j], Position, true) <==> Newer(items[i], items[j]) {
      BeforeIsNewer(items[i], items[j]);
    }
  }

  lemma EventsFitIff(events: seq<Event>)
    ensures ValidEvents(events) <==> EventsFit(events)
  {
    assert DistinctKeys(events, Id) <==> forall i, j :: 0 <= i < j < |events| ==> events[i].id != events[j].id;
  }

  lemma MatchingIsWanted(kind: Option<Text>, e: Event)
    ensures Matching(kind)(e) <==> Wanted(kind, e)
  {
  }

  /** What is paged over lists exactly the wanted events, newest first. */
  lemma OrderedLists(events: seq<Event>, kind: Option<Text>)
    requires EventsFit(events)
    ensures Lists(Ordered(events, kind), events, kind)
  {
    hide Ordered, Lt, NewestFirst, Wanted;
    EventsFitIff(events);
    OrderedIsSound(events, kind);
    OrderIsNewestFirst(Ordered(events, kind));
    forall e ensures e in Ordered(events, kind) <==> e in events && Wanted(kind, e) {
      MatchingIsWanted(kind, e);
    }
  }

  // ----- One call

  /** A limit outside 1 to 100, an empty kind and unfit events are refused, in this order; without a
      cursor nothing else is; and a cursor is refused when it does not decode under the filter, or names
      no wanted event. */
  lemma RefusesIff(events: seq<Event>, limit: int, after: Option<Text>, kind: Option<Text>)
    ensures Paginate(events, limit, after, kind) == Err(BadLimit) <==> limit < 1 || limit > 100
    ensures 1 <= limit <= 100 ==> (Paginate(events, limit, after, kind) == Err(BadKind) <==> kind == Some([]))
    ensures 1 <= limit <= 100 && kind != Some([]) ==>
      (Paginate(events, limit, after, kind) == Err(BadEvents) <==> !EventsFit(events))
    ensures 1 <= limit <= 100 && kind != Some([]) && EventsFit(events) ==>
      match after
      case None => Paginate(events, limit, after, kind).Ok?
      case Some(cursor) =>
        match Decode(cursor, kind)
        case Err(error) => Paginate(events, limit, after, kind) == Err(error)
        case Ok((createdAt, id)) =>
          if Names(events, kind, createdAt, id) then Paginate(events, limit, after, kind).Ok?
          else Paginate(events, limit, after, kind) == Err(UnknownPosition)
  {
    hide Decode, Ordered, Lt, Lists, PageAt, Names, ValidEvents, EventsFit;
    EventsFitIff(events);
    if after.Some? {
      DecodeErrors(after.value, kind);
      if EventsFit(events) && Decode(after.value, kind).Ok? {
        var (createdAt, id) := Decode(after.value, kind).value;
        OrderedIsSound(events, kind);
        NamesIff(events, kind, createdAt, id);
      }
    }
  }

  ghost predicate Names(events: seq<Event>, kind: Option<Text>, createdAt: int, id: Text) {
    exists e :: e in events && Wanted(kind, e) && e.createdAt == createdAt && e.id == id
  }

  lemma NamesIff(events: seq<Event>, kind: Option<Text>, createdAt: int, id: Text)
    requires EventsFit(events)
    ensures Names(events, kind, createdAt, id) <==> IndexAt(Ordered(events, kind), createdAt, id).Some?
  {
    hide Ordered, Lt, NewestFirst, EventsFit, Wanted;
    OrderedLists(events, kind);
    var found := IndexAt(Ordered(events, kind), createdAt, id);
    if found.Some? {
      assert Ordered(events, kind)[found.value] in Ordered(events, kind);
    }
  }

  lemma DecodeErrors(cursor: Text, kind: Option<Text>)
    ensures Decode(cursor, kind).Err? ==> Decode(cursor, kind).error in {MalformedCursor, OtherFilter}
    ensures Decode(cursor, kind).Ok? ==> cursor != [] && Decode(cursor, kind).value.1 != []
  {
  }

  /** The page after an event whose cursor survives, or the first page: the newest wanted events after
      it, as many as the limit allows; a cursor to go on from exactly when some are left. */
  lemma PageHolds(events: seq<Event>, limit: int, kind: Option<Text>, from: Option<Event>) returns (page: EventPage)
    requires 1 <= limit <= 100 && kind != Some([]) && EventsFit(events)
    requires from.Some? ==> from.value in events && Wanted(kind, from.value)
    requires Survives(from, kind)
    ensures from.Some? ==> 0 <= from.value.createdAt
    ensures Paginate(events, limit, CursorOf(from, kind), kind) == Ok(page)
    ensures |page.items| <= limit && NewestFirst(page.items)
    ensures forall e :: e in page.items ==> e in events && Wanted(kind, e) && ComesAfter(from, e)
    ensures forall e :: e in events && Wanted(kind, e) && ComesAfter(from, e) && e !in page.items ==>
      |page.items| == limit && Newer(page.items[limit - 1], e)
    ensures page.nextCursor.Some? <==>
      exists e :: e in events && Wanted(kind, e) && ComesAfter(from, e) && e !in page.items
    ensures page.nextCursor.Some? ==>
      0 <= page.items[|page.items| - 1].createdAt
      && page.nextCursor == CursorOf(Some(page.items[|page.items| - 1]), kind)
  {
    hide Decode, Encode, Ordered, Lt, PageAt, Paginate, NoSurrogatePair, Wanted, Start, NextIndex, Matching;
    EventsFitIff(events);
    if from.Some? {
      var i :| 0 <= i < |events| && events[i] == from.value;
      MatchingIsWanted(kind, from.value);
      assert ValidEvent(events[i]);
    }
    var start := CallSucceeds(events, limit, kind, from);
    page := PageAt(Ordered(events, kind), limit, kind, start);
    var start' := PageOf(events, limit, kind, CursorOf(from, kind), page);
    OrderedLists(events, kind);
    SliceHolds(events, limit, kind, from, start, page);
  }

  lemma SliceHolds(events: seq<Event>, limit: int, kind: Option<Text>, from: Option<Event>, start: nat, page: EventPage)
    requires 1 <= limit && Lists(Ordered(events, kind), events, kind) && start <= |Ordered(events, kind)|
    requires StartsAt(Ordered(events, kind), from, start) && AllDated(Ordered(events, kind))
    requires
      var ordered := Ordered(events, kind);
      page == if start + limit < |ordered|
        then EventPage(ordered[start..start + limit], Some(Encode(ordered[start + limit - 1], kind)))
        else EventPage(ordered[start..], None)
    ensures |page.items| <= limit && NewestFirst(page.items)
    ensures forall e :: e in page.items ==> e in events && Wanted(kind, e) && ComesAfter(from, e)
    ensures forall e :: e in events && Wanted(kind, e) && ComesAfter(from, e) && e !in page.items ==>
      |page.items| == limit && Newer(page.items[limit - 1], e)
    ensures page.nextCursor.Some? <==>
      exists e :: e in events && Wanted(kind, e) && ComesAfter(from, e) && e !in page.items
    ensures page.nextCursor.Some? ==>
      0 <= page.items[|page.items| - 1].createdAt
      && page.nextCursor == CursorOf(Some(page.items[|page.items| - 1]), kind)
  {
    hide Encode, Ordered, Lt, Wanted, Newer, Position;
    var ordered := Ordered(events, kind);
    var end := if start + limit < |ordered| then start + limit else |ordered|;
    assert page.items == ordered[start..end];
    forall i | 0 <= i < |ordered| ensures start <= i <==> ComesAfter(from, ordered[i]) {
      if from.Some? {
        BeforeIsNewer(from.value, ordered[i]);
      }
    }
    forall e | e in page.items ensures e in events && Wanted(kind, e) && ComesAfter(from, e) {
      var i :| 0 <= i < |page.items| && page.items[i] == e;
      assert ordered[start + i] == e && e in ordered;
    }
    forall e | e in events && Wanted(kind, e) && ComesAfter(from, e) && e !in page.items
      ensures end < |ordered| && Newer(page.items[limit - 1], e)
    {
      assert e in ordered;
      var i :| 0 <= i < |ordered| && ordered[i] == e;
      assert Newer(ordered[end - 1], ordered[i]);
    }
    if end < |ordered| {
      var next := ordered[end];
      assert next in ordered && ComesAfter(from, next);
      NotAmong(ordered, start, end);
    }
  }

  lemma NotAmong(ordered: seq<Event>, start: nat, end: nat)
    requires NewestFirst(ordered) && start <= end < |ordered|
    ensures ordered[end] !in ordered[start..end]
  {
    hide Lt;
    LtIrreflexive(ordered[end].id);
    forall i | start <= i < end ensures ordered[i] != ordered[end] {
      assert Newer(ordered[i], ordered[end]);
    }
  }

  // ----- Walks

  /** Whatever the cursors do, a page never holds an event that is not listed and wanted. */
  lemma PageIsWanted(events: seq<Event>, limit: int, kind: Option<Text>, after: Option<Text>, page: EventPage)
    requires Paginate(events, limit, after, kind) == Ok(page)
    ensures forall e :: e in page.items ==> e in events && Wanted(kind, e)
    ensures NewestFirst(page.items) && |page.items| <= limit
  {
    hide Decode, Encode, Ordered, Lt, PageAt, Wanted, Start, Newer;
    RefusesIff(events, limit, after, kind);
    EventsFitIff(events);
    OrderedLists(events, kind);
    var ordered := Ordered(events, kind);
    var start := PageOf(events, limit, kind, after, page);
    var end := if start + limit < |ordered| then start + limit else |ordered|;
    assert page.items == ordered[start..end];
    forall e | e in page.items ensures e in events && Wanted(kind, e) {
      var i :| 0 <= i < |page.items| && page.items[i] == e;
      assert ordered[start + i] == e && e in ordered;
    }
  }

  /** Following the cursors lists exactly the wanted events, newest first, if and only if the event
      that ends each page but the last survives its cursor. */
  lemma WalkListsIff(events: seq<Event>, limit: int, kind: Option<Text>)
    requires 1 <= limit <= 100 && kind != Some([]) && EventsFit(events)
    ensures (exists pages :: IsWalk(events, limit, kind, None, pages) && Lists(Items(pages), events, kind))
      <==> CursorsSurvive(Ordered(events, kind), limit, kind, 0)
  {
    hide Ordered, Lt, IsWalk, CursorsSurvive, NewestFirst, Wanted;
    EventsFitIff(events);
    OrderedIsSound(events, kind);
    OrderedLists(events, kind);
    WalkIsCompleteIff(events, limit, kind);
    forall items: seq<Event> ensures Lists(items, events, kind) <==> items == Ordered(events, kind) {
      OnlyOneListing(items, events, kind);
    }
  }

  lemma OnlyOneListing(items: seq<Event>, events: seq<Event>, kind: Option<Text>)
    requires EventsFit(events)
    ensures Lists(items, events, kind) <==> items == Ordered(events, kind)
  {
    hide Ordered, Lt, Newer, Wanted;
    OrderedLists(events, kind);
    EventsFitIff(events);
    OrderedIsSound(events, kind);
    if Lists(items, events, kind) {
      OrderIsNewestFirst(items);
      StrictOrderIsUnique(items, Ordered(events, kind), Position, true);
    }
  }

  /** While events are only added, any walk that gets to its end yields nothing but wanted events, and
      among them all that were there at its first call; in strict newest-first order exactly when the
      events ending its pages survive. */
  lemma GrowingWalkLists(snapshots: seq<seq<Event>>, limit: int, kind: Option<Text>, pages: seq<EventPage>)
    requires OnlyGrows(snapshots) && 1 <= limit <= 100 && kind != Some([])
    requires IsGrowingWalk(snapshots, limit, kind, None, pages)
    ensures forall e :: e in Items(pages) ==> e in snapshots[|snapshots| - 1] && Wanted(kind, e)
    ensures forall e :: e in snapshots[0] && Wanted(kind, e) ==> e in Items(pages)
    ensures NewestFirst(Items(pages)) <==> GrowingCursorsSurvive(snapshots, limit, kind, None)
  {
    hide Ordered, Lt, Items, OnlyGrows, GrowingCursorsSurvive, Paginate, NewestFirst, Wanted;
    GrowingWalkMissesNothing(snapshots, limit, kind, pages);
    GrowingWalkFrom(snapshots, limit, kind, None, pages);
    OrderIsNewestFirst(Items(pages));
    GrowingItemsAreWanted(snapshots, limit, kind, None, pages);
    forall e | e in snapshots[0] && Wanted(kind, e) ensures e in Items(pages) {
      MatchingIsWanted(kind, e);
    }
  }

  lemma {:induction false} GrowingItemsAreWanted(snapshots: seq<seq<Event>>, limit: int, kind: Option<Text>,
                                                 after: Option<Text>, pages: seq<EventPage>)
    requires OnlyGrows(snapshots) && IsGrowingWalk(snapshots, limit, kind, after, pages)
    ensures forall e :: e in Items(pages) ==> e in snapshots[|snapshots| - 1] && Wanted(kind, e)
    decreases |pages|
  {
    hide Ordered, Paginate, ValidEvents, Wanted, NewestFirst, Contains;
    PageIsWanted(snapshots[0], limit, kind, after, pages[0]);
    InTheLast(snapshots);
    ItemsOfWalk(pages);
    if pages[0].nextCursor.Some? {
      GrowsOn(snapshots);
      GrowingItemsAreWanted(snapshots[1..], limit, kind, pages[0].nextCursor, pages[1..]);
      assert snapshots[1..][|snapshots| - 2] == snapshots[|snapshots| - 1];
    }
  }

  lemma InTheLast(snapshots: seq<seq<Event>>)
    requires OnlyGrows(snapshots) && snapshots != []
    ensures forall e :: e in snapshots[0] ==> e in snapshots[|snapshots| - 1]
  {
    hide ValidEvents;
    assert |snapshots| > 1 ==> Contains(snapshots[|snapshots| - 1], snapshots[0]);
  }
}
