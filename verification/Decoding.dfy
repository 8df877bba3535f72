/** Both framed streams can be read back record by record, so different records give different
    streams. */
module Decoding {
  import opened ByteStrings
  import opened Wrappers
  import opened Sorting
  import opened Framing

  /** A length-prefixed field at the front, and what follows it. */
  function ReadField(s: Bytes): (r: Option<(Bytes, Bytes)>)
    ensures r.Some? ==> |r.value.1| <= |s| - 8
  {
    if |s| < 8 then None
    else
      var n := FromBigEndian(s[..8]);
      if |s| < 8 + n then None else Some((s[8..8 + n], s[8 + n..]))
  }

  lemma FieldRoundTrip(field: Bytes, rest: Bytes)
    requires |field| < LIMIT
    ensures ReadField(Length(|field|) + field + rest) == Some((field, rest))
  {
    hide FromBigEndian, BigEndian;
    LengthRoundTrip(|field|);
    var s := Length(|field|) + field + rest;
    assert s[..8] == Length(|field|);
    assert s[8..8 + |field|] == field && s[8 + |field|..] == rest;
  }

  function ReadMode(b: Byte): Option<bool> {
    if b == 120 then Some(true) else if b == 45 then Some(false) else None
  }

  function MakeEntry(executable: bool, kind: Byte, content: Bytes): Option<Entry> {
    if kind == 108 then Some(Link(executable, content))
    else if kind == 102 then Some(Regular(executable, content))
    else if kind == 111 then Some(Other(executable))
    else None
  }

  // ----- The worktree stream

  function ReadWorktreeRecord(s: Bytes): (r: Option<(Record, Bytes)>)
    ensures r.Some? ==> |r.value.1| < |s|
  {
    match ReadField(s)
    case None => None
    case Some((path, tagged)) =>
      if |tagged| < 2 then None
      else match ReadField(tagged[2..])
        case None => None
        case Some((content, rest)) =>
          if tagged[..2] == [45, 109] then Some((Record(path, Missing), rest))
          else match ReadMode(tagged[0])
            case None => None
            case Some(executable) =>
              match MakeEntry(executable, tagged[1], content)
              case None => None
              case Some(entry) => Some((Record(path, entry), rest))
  }

  function ReadWorktree(s: Bytes): Option<seq<Record>>
    decreases |s|
  {
    if s == [] then Some([])
    else match ReadWorktreeRecord(s)
      case None => None
      case Some((record, rest)) =>
        match ReadWorktree(rest)
        case None => None
        case Some(records) => Some([record] + records)
  }

  lemma WorktreeRecordRoundTrip(r: Record, rest: Bytes)
    requires Fits(r)
    ensures ReadWorktreeRecord(WorktreeRecord(r) + rest) == Some((r, rest))
    ensures WorktreeRecord(r) != []
  {
    hide Length, ReadField;
    var content := Length(|Content(r.entry)|) + Content(r.entry) + rest;
    var tagged := WorktreeTag(r.entry) + content;
    FieldRoundTrip(r.path, tagged);
    FieldRoundTrip(Content(r.entry), rest);
    assert WorktreeRecord(r) + rest == Length(|r.path|) + r.path + tagged;
    assert tagged[2..] == content && tagged[..2] == WorktreeTag(r.entry);
    assert tagged[0] == WorktreeTag(r.entry)[0] && tagged[1] == WorktreeTag(r.entry)[1];
    LengthRoundTrip(|r.path|);
  }

  /** The whole body reads back as the records it was made from, deleted entries included. */
  lemma {:induction false} WorktreeRoundTrip(records: seq<Record>)
    requires forall i :: 0 <= i < |records| ==> Fits(records[i])
    ensures ReadWorktree(WorktreeBody(records)) == Some(records)
  {
    hide ReadWorktreeRecord, WorktreeRecord;
    if records != [] {
      var rest := WorktreeBody(records[1..]);
      WorktreeRecordRoundTrip(records[0], rest);
      WorktreeRoundTrip(records[1..]);
      ReadWorktreeStep(WorktreeRecord(records[0]) + rest, records, rest);
    }
  }

  lemma ReadWorktreeStep(s: Bytes, records: seq<Record>, rest: Bytes)
    requires s != [] && records != []
    requires ReadWorktreeRecord(s) == Some((records[0], rest)) && ReadWorktree(rest) == Some(records[1..])
    ensures ReadWorktree(s) == Some(records)
  {
    hide ReadWorktreeRecord;
    assert records == [records[0]] + records[1..];
  }

  ghost predicate AllFit(records: seq<Record>) {
    forall i :: 0 <= i < |records| ==> Fits(records[i])
  }

  /** Two worktrees have the same stream exactly when they have the same counted records. */
  lemma WorktreeStreamsDifferIff(a: seq<Record>, b: seq<Record>)
    requires AllFit(a) && AllFit(b)
    ensures Header() + WorktreeBody(a) == Header() + WorktreeBody(b) <==> a == b
  {
    hide WorktreeBody, ReadWorktree, Header;
    WorktreeRoundTrip(a);
    WorktreeRoundTrip(b);
    if Header() + WorktreeBody(a) == Header() + WorktreeBody(b) {
      assert (Header() + WorktreeBody(a))[|Header()|..] == WorktreeBody(a);
      assert (Header() + WorktreeBody(b))[|Header()|..] == WorktreeBody(b);
    }
  }

  lemma KeptMembers(listing: seq<Bytes>, excluded: set<Bytes>, path: Bytes)
    ensures path in KeptPaths(listing, excluded) <==> path in listing && path != [] && path !in excluded
  {
    FilterMembers(listing, Kept(excluded));
    SortedPermutes(Filter(listing, Kept(excluded)), Path, false);
  }

  /** Two listed trees have the same stream exactly when they keep the same paths and agree on each. */
  lemma WorktreesDifferIff(listing: seq<Bytes>, other: seq<Bytes>, excluded: set<Bytes>, before: Tree, after: Tree)
    requires AllFit(Counted(listing, excluded, before)) && AllFit(Counted(other, excluded, after))
    ensures Header() + WorktreeBody(Counted(listing, excluded, before))
         == Header() + WorktreeBody(Counted(other, excluded, after))
      <==> (KeptPaths(listing, excluded) == KeptPaths(other, excluded)
            && forall path :: path in listing && path != [] && path !in excluded ==> before(path) == after(path))
  {
    hide WorktreeBody, Header, KeptPaths, AllFit, Records;
    var kept := KeptPaths(listing, excluded);
    WorktreeStreamsDifferIff(Counted(listing, excluded, before), Counted(other, excluded, after));
    RecordsAgreeIff(kept, KeptPaths(other, excluded), before, after);
    forall path: Bytes ensures path in kept <==> path in listing && path != [] && path !in excluded {
      KeptMembers(listing, excluded, path);
    }
  }

  /** Over one listing, the stream changes exactly when some counted path's entry does. */
  lemma WorktreeChangesIff(listing: seq<Bytes>, excluded: set<Bytes>, before: Tree, after: Tree)
    requires AllFit(Counted(listing, excluded, before)) && AllFit(Counted(listing, excluded, after))
    ensures Header() + WorktreeBody(Counted(listing, excluded, before))
         == Header() + WorktreeBody(Counted(listing, excluded, after))
      <==> forall path :: path in listing && path != [] && path !in excluded ==> before(path) == after(path)
  {
    hide *;
    WorktreesDifferIff(listing, listing, excluded, before, after);
  }
}
