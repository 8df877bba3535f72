/** Following the cursors while events are added: when the walk repeats nothing, and that it misses
    nothing. */
module GrowingWalks {
  import opened Wrappers
  import opened Sorting
  import opened JsonText
  import opened Cursor
  import opened Pagination

  /** Call `i` sees `snapshots[i]`. */
  ghost predicate IsGrowingWalk(snapshots: seq<seq<Event>>, limit: int, kind: Option<Text>, after: Option<Text>,
                                pages: seq<EventPage>)
    decreases |pages|
  {
    && pages != [] && |snapshots| == |pages|
    && Paginate(snapshots[0], limit, after, kind) == Ok(pages[0])
    && match pages[0].nextCursor
       case None => |pages| == 1
       case Some(cursor) => IsGrowingWalk(snapshots[1..], limit, kind, Some(cursor), pages[1..])
  }

  /** Every snapshot is valid, and events are only added. */
  ghost predicate OnlyGrows(snapshots: seq<seq<Event>>) {
    && (forall i :: 0 <= i < |snapshots| ==> ValidEvents(snapshots[i]))
    && (forall i, j :: 0 <= i < j < |snapshots| ==> Contains(snapshots[j], snapshots[i]))
  }

  ghost predicate Contains(more: seq<Event>, events: seq<Event>) {
    forall e :: e in events ==> e in more
  }

  /** `e` comes after the event the cursor was made from, if there was one. */
  predicate Follows(from: Option<Event>, e: Event) {
    from.Some? ==> Before(from.value, e, Position, true)
  }

  function CursorOf(from: Option<Event>, kind: Option<Text>): Option<Text>
    requires from.Some? ==> 0 <= from.value.createdAt
  {
    match from
    case None => None
    case Some(e) => Some(Encode(e, kind))
  }

  ghost predicate Resumable(events: seq<Event>, kind: Option<Text>, from: Option<Event>) {
    from.Some? ==> from.value in events && Matching(kind)(from.value) && ValidEvent(from.value)
  }

  /** The cursor made from the event gives it back. */
  predicate Survives(from: Option<Event>, kind: Option<Text>) {
    from.Some? ==> NoSurrogatePair(from.value.id) && Stable(kind)
  }

  /** Where the list goes on after the event. */
  function NextIndex(ordered: seq<Event>, from: Option<Event>): (i: nat)
    ensures i <= |ordered|
  {
    match from
    case None => 0
    case Some(e) =>
      match IndexAt(ordered, e.createdAt, e.id)
      case None => |ordered|
      case Some(i) => i + 1
  }

  /** The event that ends each page but the last survives its cursor, page `i` being taken from the
      list as it is at call `i`; and the list is exhausted at the last call. */
  ghost predicate GrowingCursorsSurvive(snapshots: seq<seq<Event>>, limit: int, kind: Option<Text>, from: Option<Event>)
    requires 1 <= limit
    decreases |snapshots|
  {
    && snapshots != []
    && var ordered := Ordered(snapshots[0], kind);
    var end := NextIndex(ordered, from) + limit;
    if end < |ordered| then
      && Survives(Some(ordered[end - 1]), kind)
      && GrowingCursorsSurvive(snapshots[1..], limit, kind, Some(ordered[end - 1]))
    else |snapshots| == 1
  }

  /** The part of the list that follows `from` begins at `start`. */
  ghost predicate StartsAt(ordered: seq<Event>, from: Option<Event>, start: nat) {
    forall i :: 0 <= i < |ordered| ==> (start <= i <==> Follows(from, ordered[i]))
  }

  /** As long as the event a surviving cursor names is still there, the call succeeds and starts just
      after it. */
  lemma CallSucceeds(events: seq<Event>, limit: int, kind: Option<Text>, from: Option<Event>) returns (start: nat)
    requires ValidCall(events, limit, kind) && Resumable(events, kind, from) && Survives(from, kind)
    ensures AllDated(Ordered(events, kind)) && start <= |Ordered(events, kind)|
    ensures start == NextIndex(Ordered(events, kind), from)
    ensures Start(Ordered(events, kind), CursorOf(from, kind), kind) == Ok(start)
    ensures Paginate(events, limit, CursorOf(from, kind), kind) == Ok(PageAt(Ordered(events, kind), limit, kind, start))
    ensures StartsAt(Ordered(events, kind), from, start)
  {
    hide Encode, Decode, Ordered, Lt, NoSurrogatePair;
    var ordered := Ordered(events, kind);
    OrderedIsSound(events, kind);
    start := 0;
    if from.Some? {
      assert from.value in ordered;
      var i :| 0 <= i < |ordered| && ordered[i] == from.value;
      ResumesAfter(ordered, i, kind);
      PositionIsKnown(ordered, i, IndexAt(ordered, from.value.createdAt, from.value.id).value);
      start := i + 1;
      StartsAfter(ordered, i);
    }
  }

  lemma StartsAfter(ordered: seq<Event>, i: nat)
    requires StrictlyInOrder(ordered, Position, true) && i < |ordered|
    ensures StartsAt(ordered, Some(ordered[i]), i + 1)
  {
    hide Lt;
    forall j | 0 <= j < |ordered| ensures i + 1 <= j <==> Follows(Some(ordered[i]), ordered[j]) {
      if j == i {
        LtIrreflexive(Position(ordered[i]));
      } else if j < i {
        assert Before(ordered[j], ordered[i], Position, true);
        LtAsymmetric(Position(ordered[i]), Position(ordered[j]));
      } else {
        assert Before(ordered[i], ordered[j], Position, true);
      }
    }
  }

  /** A slice of a strictly ordered list, from where `from` ends to `end`. */
  lemma SliceContinues(ordered: seq<Event>, from: Option<Event>, start: nat, end: nat)
    requires StrictlyInOrder(ordered, Position, true) && start <= end <= |ordered| && StartsAt(ordered, from, start)
    ensures
      var items := ordered[start..end];
      && StrictlyInOrder(items, Position, true)
      && forall e :: e in items ==> e in ordered && Follows(from, e)
  {
    hide Lt, Follows;
    var items := ordered[start..end];
    forall i, j | 0 <= i < j < |items| ensures Before(items[i], items[j], Position, true) {
      assert items[i] == ordered[start + i] && items[j] == ordered[start + j];
    }
    forall e | e in items ensures e in ordered && Follows(from, e) {
      var i :| 0 <= i < |items| && items[i] == e;
      assert ordered[start + i] == e;
    }
  }

  /** What a call that succeeded returned, and from where. */
  lemma PageOf(events: seq<Event>, limit: int, kind: Option<Text>, after: Option<Text>, page: EventPage)
    returns (start: nat)
    requires ValidCall(events, limit, kind) && Paginate(events, limit, after, kind) == Ok(page)
    ensures Start(Ordered(events, kind), after, kind) == Ok(start) && start <= |Ordered(events, kind)|
    ensures AllDated(Ordered(events, kind))
    ensures
      var ordered := Ordered(events, kind);
      page == if start + limit < |ordered|
        then EventPage(ordered[start..start + limit], Some(Encode(ordered[start + limit - 1], kind)))
        else EventPage(ordered[start..], None)
  {
    hide Encode, Decode, Ordered, PageAt;
    start := Start(Ordered(events, kind), after, kind).value;
    PageFrom(events, limit, kind, after, start);
  }

  /** In a longer list, what came after an event still does. */
  lemma StaysAfter(ordered: seq<Event>, more: seq<Event>, l: nat, i: nat, j: nat) returns (m: nat)
    requires StrictlyInOrder(ordered, Position, true) && StrictlyInOrder(more, Position, true)
    requires l < i < |ordered| && j < |more| && more[j] == ordered[l] && ordered[i] in more
    ensures j < m < |more| && more[m] == ordered[i]
  {
    hide Lt;
    m :| 0 <= m < |more| && more[m] == ordered[i];
    StartsAfter(ordered, l);
    StartsAfter(more, j);
    assert Follows(Some(more[j]), more[m]);
  }

  /** The event that ends a page is in the list at the next call, where its cursor resumes at `start`. */
  lemma NextCall(snapshots: seq<seq<Event>>, limit: int, kind: Option<Text>, last: Event, pages: seq<EventPage>)
    returns (j: nat, start: nat)
    requires OnlyGrows(snapshots) && 1 <= limit <= 100 && kind != Some([]) && snapshots != []
    requires last in Ordered(snapshots[0], kind) && 0 <= last.createdAt
    requires IsGrowingWalk(snapshots[1..], limit, kind, CursorOf(Some(last), kind), pages)
    ensures |snapshots| > 1 && j < |Ordered(snapshots[1], kind)| && Ordered(snapshots[1], kind)[j] == last
    ensures StrictlyInOrder(Ordered(snapshots[1], kind), Position, true)
    ensures Resumable(snapshots[1], kind, Some(last))
    ensures Start(Ordered(snapshots[1], kind), CursorOf(Some(last), kind), kind) == Ok(start)
    ensures 1 <= start <= j + 1 && (start == j + 1 <==> Survives(Some(last), kind))
    ensures pages != []
    ensures start < |Ordered(snapshots[1], kind)| ==>
      pages[0].items != [] && pages[0].items[0] == Ordered(snapshots[1], kind)[start]
  {
    hide Encode, Decode, Ordered, Lt, NoSurrogatePair, Paginate, ValidEvents, Start, Contains;
    var more := Ordered(snapshots[1], kind);
    assert snapshots[1..][0] == snapshots[1];
    OrderedIsSound(snapshots[0], kind);
    OrderedIsSound(snapshots[1], kind);
    StillListed(snapshots, kind, last);
    j :| 0 <= j < |more| && more[j] == last;
    start := PageOf(snapshots[1], limit, kind, CursorOf(Some(last), kind), pages[0]);
    AcceptedCursorResumes(more, j, kind, start);
  }

  lemma StillListed(snapshots: seq<seq<Event>>, kind: Option<Text>, e: Event)
    requires OnlyGrows(snapshots) && |snapshots| > 1 && e in Ordered(snapshots[0], kind)
    ensures e in Ordered(snapshots[1], kind)
  {
    hide Ordered, ValidEvents;
    OrderedIsSound(snapshots[0], kind);
    OrderedIsSound(snapshots[1], kind);
    assert Contains(snapshots[1], snapshots[0]);
  }

  /** The first page of a walk, and the walk that remains. */
  lemma FirstPage(snapshots: seq<seq<Event>>, limit: int, kind: Option<Text>, after: Option<Text>, pages: seq<EventPage>)
    returns (start: nat, end: nat)
    requires OnlyGrows(snapshots) && 1 <= limit <= 100 && kind != Some([])
    requires IsGrowingWalk(snapshots, limit, kind, after, pages)
    ensures pages != [] && |snapshots| == |pages|
    ensures Start(Ordered(snapshots[0], kind), after, kind) == Ok(start)
    ensures StrictlyInOrder(Ordered(snapshots[0], kind), Position, true)
    ensures start <= end <= |Ordered(snapshots[0], kind)|
    ensures pages[0].items == Ordered(snapshots[0], kind)[start..end]
    ensures
      var ordered := Ordered(snapshots[0], kind);
      if start + limit < |ordered| then
        && end == start + limit
        && 0 <= ordered[end - 1].createdAt
        && IsGrowingWalk(snapshots[1..], limit, kind, CursorOf(Some(ordered[end - 1]), kind), pages[1..])
      else end == |ordered| && |pages| == 1
  {
    hide Encode, Decode, Ordered, Lt, Paginate, ValidEvents, Start, Contains;
    var ordered := Ordered(snapshots[0], kind);
    OrderedIsSound(snapshots[0], kind);
    start := PageOf(snapshots[0], limit, kind, after, pages[0]);
    end := if start + limit < |ordered| then start + limit else |ordered|;
    assert ordered[start..] == ordered[start..|ordered|];
  }

  lemma SliceIsYielded(pages: seq<EventPage>, ordered: seq<Event>, start: nat, end: nat)
    requires pages != [] && start <= end <= |ordered| && pages[0].items == ordered[start..end]
    ensures forall i :: start <= i < end ==> ordered[i] in Items(pages)
  {
    forall i | start <= i < end ensures ordered[i] in Items(pages) {
      assert pages[0].items[i - start] == ordered[i];
    }
  }

  /** Whatever the ids, a walk that gets to its end has yielded everything that its first call had
      still to come. */
  lemma {:induction false} GrowingWalkCoversFrom(snapshots: seq<seq<Event>>, limit: int, kind: Option<Text>,
                                                 after: Option<Text>, pages: seq<EventPage>) returns (start: nat)
    requires OnlyGrows(snapshots) && 1 <= limit <= 100 && kind != Some([])
    requires IsGrowingWalk(snapshots, limit, kind, after, pages)
    ensures snapshots != [] && Start(Ordered(snapshots[0], kind), after, kind) == Ok(start)
    ensures forall i :: start <= i < |Ordered(snapshots[0], kind)| ==> Ordered(snapshots[0], kind)[i] in Items(pages)
    decreases |pages|
  {
    hide *;
    var end: nat;
    start, end := FirstPage(snapshots, limit, kind, after, pages);
    var ordered := Ordered(snapshots[0], kind);
    SliceIsYielded(pages, ordered, start, end);
    ItemsOfWalk(pages);
    if start + limit < |ordered| {
      var last := ordered[end - 1];
      var j, next := NextCall(snapshots, limit, kind, last, pages[1..]);
      var more := Ordered(snapshots[1], kind);
      GrowsOn(snapshots);
      assert snapshots[1..][0] == snapshots[1];
      var start' := GrowingWalkCoversFrom(snapshots[1..], limit, kind, CursorOf(Some(last), kind), pages[1..]);
      forall i | end <= i < |ordered| ensures ordered[i] in Items(pages) {
        StillListed(snapshots, kind, ordered[i]);
        var m := StaysAfter(ordered, more, end - 1, i, j);
        assert more[m] in Items(pages[1..]);
      }
    }
  }

  lemma SurvivalStep(snapshots: seq<seq<Event>>, limit: int, kind: Option<Text>, from: Option<Event>, start: nat)
    requires 1 <= limit && snapshots != [] && start == NextIndex(Ordered(snapshots[0], kind), from)
    ensures
      var ordered, end := Ordered(snapshots[0], kind), start + limit;
      GrowingCursorsSurvive(snapshots, limit, kind, from) <==>
        if end < |ordered| then
          && Survives(Some(ordered[end - 1]), kind)
          && GrowingCursorsSurvive(snapshots[1..], limit, kind, Some(ordered[end - 1]))
        else |snapshots| == 1
  {
    hide Ordered, NextIndex, Survives;
  }

  /** A walk stays strictly newest-first exactly when the events ending its pages survive. */
  lemma {:induction false} GrowingWalkFrom(snapshots: seq<seq<Event>>, limit: int, kind: Option<Text>,
                                           from: Option<Event>, pages: seq<EventPage>)
    requires OnlyGrows(snapshots) && 1 <= limit <= 100 && kind != Some([]) && snapshots != []
    requires from.Some? ==> 0 <= from.value.createdAt
    requires IsGrowingWalk(snapshots, limit, kind, CursorOf(from, kind), pages)
    requires Resumable(snapshots[0], kind, from) && Survives(from, kind)
    ensures StrictlyInOrder(Items(pages), Position, true) <==> GrowingCursorsSurvive(snapshots, limit, kind, from)
    ensures StrictlyInOrder(Items(pages), Position, true) ==> forall e :: e in Items(pages) ==> Follows(from, e)
    decreases |pages|
  {
    hide *;
    var start, end := FirstPage(snapshots, limit, kind, CursorOf(from, kind), pages);
    var ordered := Ordered(snapshots[0], kind);
    CallStart(snapshots, limit, kind, from, start);
    SliceContinues(ordered, from, start, end);
    SurvivalStep(snapshots, limit, kind, from, start);
    ItemsOfWalk(pages);
    if start + limit < |ordered| {
      var last := ordered[end - 1];
      assert pages[0].items[|pages[0].items| - 1] == last && last in pages[0].items;
      var j, next := NextCall(snapshots, limit, kind, last, pages[1..]);
      if Survives(Some(last), kind) {
        GrowsOn(snapshots);
        assert snapshots[1..][0] == snapshots[1];
        GrowingWalkFrom(snapshots[1..], limit, kind, Some(last), pages[1..]);
        OrderedPages(pages[0].items, Items(pages[1..]), from);
      } else {
        NotInOrder(pages, Ordered(snapshots[1], kind), j, next);
      }
    }
  }

  lemma CallStart(snapshots: seq<seq<Event>>, limit: int, kind: Option<Text>, from: Option<Event>, start: nat)
    requires OnlyGrows(snapshots) && 1 <= limit <= 100 && kind != Some([]) && snapshots != []
    requires Resumable(snapshots[0], kind, from) && Survives(from, kind)
    requires Start(Ordered(snapshots[0], kind), CursorOf(from, kind), kind) == Ok(start)
    ensures start == NextIndex(Ordered(snapshots[0], kind), from) && StartsAt(Ordered(snapshots[0], kind), from, start)
  {
    hide Encode, Decode, Ordered, Paginate, ValidEvents, Start, Contains, NextIndex, PageAt;
    var start' := CallSucceeds(snapshots[0], limit, kind, from);
  }

  lemma ItemsOfWalk(pages: seq<EventPage>)
    requires pages != []
    ensures Items(pages) == pages[0].items + Items(pages[1..])
    ensures |pages| == 1 ==> Items(pages) == pages[0].items
  {
    if |pages| == 1 {
      assert pages[1..] == [];
    }
  }

  /** A page that starts at or before the event that ended the page before it breaks the order. */
  lemma NotInOrder(pages: seq<EventPage>, more: seq<Event>, j: nat, next: nat)
    requires |pages| > 1 && pages[0].items != [] && pages[1].items != [] && next <= j < |more|
    requires StrictlyInOrder(more, Position, true)
    requires pages[0].items[|pages[0].items| - 1] == more[j] && pages[1].items[0] == more[next]
    ensures !StrictlyInOrder(Items(pages), Position, true)
  {
    hide Lt;
    var items, k := Items(pages), |pages[0].items|;
    ItemsOfWalk(pages);
    ItemsOfWalk(pages[1..]);
    assert items[k - 1] == more[j] && items[k] == more[next];
    StartsAfter(more, j);
    assert !Follows(Some(more[j]), more[next]);
    assert !Before(items[k - 1], items[k], Position, true);
  }

  /** Two parts in order, the second after the last of the first. */
  lemma OrderedPages(xs: seq<Event>, ys: seq<Event>, from: Option<Event>)
    requires xs != [] && StrictlyInOrder(xs, Position, true) && forall e :: e in xs ==> Follows(from, e)
    requires StrictlyInOrder(ys, Position, true) ==> forall e :: e in ys ==> Follows(Some(xs[|xs| - 1]), e)
    ensures StrictlyInOrder(xs + ys, Position, true) <==> StrictlyInOrder(ys, Position, true)
    ensures StrictlyInOrder(xs + ys, Position, true) ==> forall e :: e in xs + ys ==> Follows(from, e)
  {
    hide Lt;
    var last := xs[|xs| - 1];
    if StrictlyInOrder(xs + ys, Position, true) {
      forall i, k | 0 <= i < k < |ys| ensures Before(ys[i], ys[k], Position, true) {
        assert Before((xs + ys)[|xs| + i], (xs + ys)[|xs| + k], Position, true);
      }
    }
    if StrictlyInOrder(ys, Position, true) {
      JoinInOrder(xs, ys);
      assert last in xs;
      forall e | e in ys ensures Follows(from, e) {
        FollowsThrough(from, last, e);
      }
    }
  }

  lemma GrowsOn(snapshots: seq<seq<Event>>)
    requires OnlyGrows(snapshots) && snapshots != []
    ensures OnlyGrows(snapshots[1..])
  {
    hide ValidEvents, Contains;
    assert forall i :: 0 <= i < |snapshots[1..]| ==> snapshots[1..][i] == snapshots[i + 1];
  }

  lemma FollowsThrough(from: Option<Event>, middle: Event, e: Event)
    requires Follows(from, middle) && Follows(Some(middle), e)
    ensures Follows(from, e)
  {
    if from.Some? {
      LtTransitive(Position(e), Position(middle), Position(from.value));
    }
  }

  lemma JoinInOrder(xs: seq<Event>, ys: seq<Event>)
    requires xs != [] && StrictlyInOrder(xs, Position, true) && StrictlyInOrder(ys, Position, true)
    requires forall e :: e in ys ==> Before(xs[|xs| - 1], e, Position, true)
    ensures StrictlyInOrder(xs + ys, Position, true)
  {
    var zs := xs + ys;
    forall i, j | 0 <= i < j < |zs| ensures Before(zs[i], zs[j], Position, true) {
      if i < |xs| <= j {
        assert zs[j] == ys[j - |xs|] && zs[j] in ys;
        var last := xs[|xs| - 1];
        if i < |xs| - 1 {
          assert Before(xs[i], last, Position, true);
          LtTransitive(Position(zs[j]), Position(last), Position(xs[i]));
        }
      } else if j >= |xs| {
        assert zs[i] == ys[i - |xs|] && zs[j] == ys[j - |xs|];
      }
    }
  }

  /** When the events ending the pages survive, every call succeeds. */
  lemma {:induction false} GrowingWalkExists(snapshots: seq<seq<Event>>, limit: int, kind: Option<Text>,
                                             from: Option<Event>) returns (pages: seq<EventPage>)
    requires OnlyGrows(snapshots) && 1 <= limit <= 100 && kind != Some([])
    requires GrowingCursorsSurvive(snapshots, limit, kind, from)
    requires Resumable(snapshots[0], kind, from) && Survives(from, kind)
    ensures IsGrowingWalk(snapshots, limit, kind, CursorOf(from, kind), pages)
    decreases |snapshots|
  {
    hide Encode, Decode, Ordered, Lt, NoSurrogatePair, Paginate, ValidEvents, Start, Contains, PageAt,
      NextIndex;
    var ordered := Ordered(snapshots[0], kind);
    OrderedIsSound(snapshots[0], kind);
    var start := CallSucceeds(snapshots[0], limit, kind, from);
    PageFrom(snapshots[0], limit, kind, CursorOf(from, kind), start);
    var page := PageAt(ordered, limit, kind, start);
    if start + limit < |ordered| {
      var last := ordered[start + limit - 1];
      assert last in ordered;
      StillListed(snapshots, kind, last);
      OrderedIsSound(snapshots[1], kind);
      GrowsOn(snapshots);
      assert snapshots[1..][0] == snapshots[1];
      var rest := GrowingWalkExists(snapshots[1..], limit, kind, Some(last));
      pages := [page] + rest;
      assert pages[1..] == rest;
    } else {
      pages := [page];
    }
  }

  /** Following the cursors while events are added reaches the end in strict newest-first order, so
      without repeating an event, if and only if the event ending each page but the last survives its
      cursor; what the page ends with is read off the snapshots alone. */
  lemma GrowingWalkIff(snapshots: seq<seq<Event>>, limit: int, kind: Option<Text>)
    requires OnlyGrows(snapshots) && 1 <= limit <= 100 && kind != Some([])
    ensures (exists pages :: IsGrowingWalk(snapshots, limit, kind, None, pages)
                             && StrictlyInOrder(Items(pages), Position, true))
      <==> GrowingCursorsSurvive(snapshots, limit, kind, None)
  {
    hide Ordered, StrictlyInOrder, Items, OnlyGrows, Paginate;
    if GrowingCursorsSurvive(snapshots, limit, kind, None) {
      var pages := GrowingWalkExists(snapshots, limit, kind, None);
      GrowingWalkFrom(snapshots, limit, kind, None, pages);
    }
    if pages :| IsGrowingWalk(snapshots, limit, kind, None, pages) && StrictlyInOrder(Items(pages), Position, true) {
      GrowingWalkFrom(snapshots, limit, kind, None, pages);
    }
  }

  /** Any walk that reaches the end, in order or not, misses none of the events present at its first
      call. */
  lemma GrowingWalkMissesNothing(snapshots: seq<seq<Event>>, limit: int, kind: Option<Text>, pages: seq<EventPage>)
    requires OnlyGrows(snapshots) && 1 <= limit <= 100 && kind != Some([])
    requires IsGrowingWalk(snapshots, limit, kind, None, pages)
    ensures forall e :: e in snapshots[0] && Matching(kind)(e) ==> e in Items(pages)
  {
    hide Encode, Decode, Ordered, Lt, NoSurrogatePair, Paginate, ValidEvents, Contains, Items;
    OrderedIsSound(snapshots[0], kind);
    var start := GrowingWalkCoversFrom(snapshots, limit, kind, None, pages);
  }
}
