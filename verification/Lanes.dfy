/** The four verification lanes: one pass over the repository feeds a digest per lane. */
module Lanes {
  import opened ByteStrings
  import opened Wrappers
  import opened Sequences
  import opened Sorting
  import opened Framing
  import opened Decoding

  datatype Lane = Static | Tests | Contracts | Generated

  const ALL: seq<Lane> := [Static, Tests, Contracts, Generated]

  function LaneName(lane: Lane): string {
    match lane
    case Static => "static"
    case Tests => "tests"
    case Contracts => "contracts"
    case Generated => "generated"
  }

  datatype LaneError = NotFileOrSymlink(path: Bytes)

  predicate EndsWith(path: Bytes, suffix: Bytes) {
    |suffix| <= |path| && path[|path| - |suffix|..] == suffix
  }

  /** The path is the root or lies below it. */
  predicate IsBelow(path: Bytes, root: string) {
    path == Ascii(root) || Ascii(root) + [47] <= path
  }

  predicate Includes(lane: Lane, path: Bytes) {
    if path in {Ascii("Makefile"), Ascii(".python-version"), Ascii("pyproject.toml"), Ascii("uv.lock")} then true
    else match lane
      case Static => EndsWith(path, Ascii(".py"))
      case Tests => path != Ascii("AGENTS.md") && !IsBelow(path, ".github")
      case Contracts =>
        EndsWith(path, Ascii(".py"))
        || IsBelow(path, "tasks") || IsBelow(path, "runs") || IsBelow(path, "profiles")
        || IsBelow(path, "reference-configurations")
      case Generated => path != Ascii("AGENTS.md") && !IsBelow(path, ".github")
  }

  function InLane(lane: Lane): Bytes -> bool {
    p => Includes(lane, p)
  }

  function IncludedLanes(path: Bytes): seq<Lane> {
    Filter(ALL, lane => Includes(lane, path))
  }

  // ----- One lane's stream

  /** A deletion is one byte, without mode or length. */
  function LaneRecord(r: Record): Bytes {
    PathFrame(r.path) +
    if r.entry.Missing? then [109]
    else WorktreeTag(r.entry) + Length(|Content(r.entry)|) + Content(r.entry)
  }

  function LaneBody(records: seq<Record>): Bytes {
    if records == [] then [] else LaneRecord(records[0]) + LaneBody(records[1..])
  }

  function LaneHeader(lane: Lane, pythonVersion: Bytes): Bytes {
    Ascii("slopbench.repository-verify.v1") + [0] + Ascii(LaneName(lane)) + [0] + pythonVersion + [0]
  }

  /** What encoding only this lane's paths gives. */
  function LaneStream(lane: Lane, paths: seq<Bytes>, tree: Tree, pythonVersion: Bytes): Bytes {
    LaneHeader(lane, pythonVersion) + LaneBody(Records(Filter(paths, InLane(lane)), tree))
  }

  predicate Acceptable(lane: Lane, paths: seq<Bytes>, tree: Tree) {
    forall i :: 0 <= i < |paths| && Includes(lane, paths[i]) ==> !tree(paths[i]).Other?
  }

  /** Some lane includes the path, and it is neither a file, a link nor missing. */
  predicate Refused(path: Bytes, tree: Tree) {
    tree(path).Other? && exists lane :: Includes(lane, path)
  }

  ghost predicate FirstRefused(paths: seq<Bytes>, tree: Tree, path: Bytes) {
    exists i :: 0 <= i < |paths| && paths[i] == path && Refused(paths[i], tree) && NoneRefused(paths[..i], tree)
  }

  predicate NoneRefused(paths: seq<Bytes>, tree: Tree) {
    forall i :: 0 <= i < |paths| ==> !Refused(paths[i], tree)
  }

  // ----- The fused pass

  predicate NoRepeats(lanes: seq<Lane>) {
    forall i, j :: 0 <= i < j < |lanes| ==> lanes[i] != lanes[j]
  }

  predicate Complete(digests: map<Lane, Bytes>) {
    forall lane :: lane in digests
  }

  /** Feeds one piece to the digest of every included lane. */
  method UpdateLanes(digests: map<Lane, Bytes>, included: seq<Lane>, piece: Bytes)
    returns (updated: map<Lane, Bytes>)
    requires Complete(digests) && NoRepeats(included)
    ensures Complete(updated)
    ensures forall lane :: updated[lane] == digests[lane] + if lane in included then piece else []
  {
    updated := digests;
    for i := 0 to |included|
      invariant Complete(updated)
      invariant forall lane :: updated[lane] == digests[lane] + if lane in included[..i] then piece else []
    {
      assert included[i] !in included[..i];
      assert updated[included[i]] == digests[included[i]];
      assert included[..i + 1] == included[..i] + [included[i]];
      updated := updated[included[i] := updated[included[i]] + piece];
    }
    assert included[..|included|] == included;
  }

  lemma AllLanes()
    ensures NoRepeats(ALL) && forall lane: Lane :: lane in ALL
  {
    forall lane: Lane ensures lane in ALL {
      assert lane == ALL[0] || lane == ALL[1] || lane == ALL[2] || lane == ALL[3];
    }
  }

  lemma IncludedOnce(path: Bytes)
    ensures forall lane :: lane in IncludedLanes(path) <==> Includes(lane, path)
    ensures NoRepeats(IncludedLanes(path))
  {
    hide Includes, NoRepeats;
    FilterMembers(ALL, lane => Includes(lane, path));
    AllLanes();
    FilterKeepsDistinct(ALL, lane => Includes(lane, path));
  }

  lemma {:induction false} FilterKeepsDistinct(lanes: seq<Lane>, keep: Lane -> bool)
    requires NoRepeats(lanes)
    ensures NoRepeats(Filter(lanes, keep))
  {
    if lanes != [] {
      FilterKeepsDistinct(lanes[1..], keep);
      FilterMembers(lanes[1..], keep);
      var tail := Filter(lanes[1..], keep);
      forall i | 0 <= i < |tail| ensures tail[i] != lanes[0] {
        assert tail[i] in tail;
      }
    }
  }

  /** The updates one path makes to the digests; a file of another type abandons the pass. */
  method AppendToLanes(digests: map<Lane, Bytes>, path: Bytes, entry: Entry)
    returns (r: Result<map<Lane, Bytes>, LaneError>)
    requires Complete(digests)
    ensures r.Err? <==> entry.Other? && exists lane :: Includes(lane, path)
    ensures r.Err? ==> r.error.path == path
    ensures r.Ok? ==> Complete(r.value)
    ensures r.Ok? ==> forall lane ::
      r.value[lane] == digests[lane] + if Includes(lane, path) then LaneRecord(Record(path, entry)) else []
  {
    hide LaneRecord, Includes, PathFrame, Length, IncludedLanes;
    var included := IncludedLanes(path);
    IncludedOnce(path);
    if included == [] {
      forall lane ensures !Includes(lane, path) {
        assert lane !in included;
      }
      return Ok(digests);
    }
    assert included[0] in included;
    if entry.Other? {
      return Err(NotFileOrSymlink(path));
    }
    var piece: Bytes;
    if entry.Missing? {
      DeletionIsOneByte(path);
      piece := PathFrame(path) + [109];
    } else {
      var fileType: Byte := if entry.Link? then 108 else 102;
      var content := if entry.Link? then entry.target else entry.content;
      PieceIsRecord(path, entry);
      piece := Length(|path|) + path + [ModeByte(entry.executable)] + [fileType] + Length(|content|) + content;
    }
    var updated := UpdateLanes(digests, included, piece);
    return Ok(updated);
  }

  method LaneStreams(paths: seq<Bytes>, tree: Tree, pythonVersion: Bytes)
    returns (r: Result<map<Lane, Bytes>, LaneError>)
    ensures r.Ok? <==> forall lane :: Acceptable(lane, paths, tree)
    ensures r.Ok? ==> Complete(r.value)
    ensures r.Ok? ==> forall lane :: r.value[lane] == LaneStream(lane, paths, tree, pythonVersion)
    ensures r.Err? ==> FirstRefused(paths, tree, r.error.path)
  {
    hide LaneHeader, LaneRecord, Includes, LaneStream;
    var digests: map<Lane, Bytes> := map lane: Lane | true :: LaneHeader(lane, pythonVersion);
    forall lane: Lane ensures digests[lane] == LaneStream(lane, paths[..0], tree, pythonVersion) {
      EmptyLane(lane, tree, pythonVersion);
    }
    for i := 0 to |paths|
      invariant Complete(digests)
      invariant forall lane :: digests[lane] == LaneStream(lane, paths[..i], tree, pythonVersion)
      invariant forall lane :: Acceptable(lane, paths[..i], tree)
      invariant NoneRefused(paths[..i], tree)
    {
      forall lane: Lane { OneMoreLanePath(lane, paths, i, tree, pythonVersion); }
      var updated := AppendToLanes(digests, paths[i], tree(paths[i]));
      if updated.Err? {
        var lane :| Includes(lane, paths[i]);
        assert !Acceptable(lane, paths, tree);
        assert Refused(paths[i], tree);
        return Err(updated.error);
      }
      digests := updated.value;
      var more := paths[..i + 1];
      forall lane: Lane ensures Acceptable(lane, more, tree) {
        assert Acceptable(lane, paths[..i], tree);
      }
    }
    assert paths[..|paths|] == paths;
    return Ok(digests);
  }

  lemma EmptyLane(lane: Lane, tree: Tree, pythonVersion: Bytes)
    ensures LaneStream(lane, [], tree, pythonVersion) == LaneHeader(lane, pythonVersion)
  {
    hide LaneHeader;
  }

  lemma DeletionIsOneByte(path: Bytes)
    ensures LaneRecord(Record(path, Missing)) == PathFrame(path) + [109]
  {
  }

  lemma PieceIsRecord(path: Bytes, entry: Entry)
    requires entry.Link? || entry.Regular?
    ensures LaneRecord(Record(path, entry)) ==
      Length(|path|) + path + [ModeByte(entry.executable)] + [if entry.Link? then 108 else 102]
      + Length(|Content(entry)|) + Content(entry)
  {
    hide Length;
  }

  lemma {:induction false} LaneBodyOfAppend(records: seq<Record>, r: Record)
    ensures LaneBody(records + [r]) == LaneBody(records) + LaneRecord(r)
  {
    hide LaneRecord;
    if records == [] {
      assert [r][1..] == [] && [] + [r] == [r];
    } else {
      assert (records + [r])[1..] == records[1..] + [r];
      LaneBodyOfAppend(records[1..], r);
    }
  }

  lemma OneMoreLanePath(lane: Lane, paths: seq<Bytes>, i: nat, tree: Tree, pythonVersion: Bytes)
    requires i < |paths|
    ensures LaneStream(lane, paths[..i + 1], tree, pythonVersion)
         == LaneStream(lane, paths[..i], tree, pythonVersion)
            + if Includes(lane, paths[i]) then LaneRecord(Record(paths[i], tree(paths[i]))) else []
  {
    hide LaneHeader, LaneRecord, Includes;
    var before, path := Filter(paths[..i], InLane(lane)), paths[i];
    assert paths[..i + 1] == paths[..i] + [path];
    FilterConcat(paths[..i], [path], InLane(lane));
    assert Filter([path], InLane(lane))
        == (if Includes(lane, path) then [path] else []) + Filter([path][1..], InLane(lane));
    if Includes(lane, path) {
      assert Filter(paths[..i + 1], InLane(lane)) == before + [path];
      assert Records(before + [path], tree) == Records(before, tree) + [Record(path, tree(path))];
      LaneBodyOfAppend(Records(before, tree), Record(path, tree(path)));
    } else {
      assert Filter(paths[..i + 1], InLane(lane)) == before;
    }
  }

  // ----- Reading a lane stream back

  function ReadLaneRecord(s: Bytes): (r: Option<(Record, Bytes)>)
    ensures r.Some? ==> |r.value.1| < |s|
  {
    match ReadField(s)
    case None => None
    case Some((path, tagged)) =>
      if tagged == [] then None
      else if tagged[0] == 109 then Some((Record(path, Missing), tagged[1..]))
      else if |tagged| < 2 then None
      else match (ReadMode(tagged[0]), ReadField(tagged[2..]))
        case (Some(executable), Some((content, rest))) =>
          (match MakeEntry(executable, tagged[1], content)
           case None => None
           case Some(entry) => Some((Record(path, entry), rest)))
        case _ => None
  }

  function ReadLane(s: Bytes): Option<seq<Record>>
    decreases |s|
  {
    if s == [] then Some([])
    else match ReadLaneRecord(s)
      case None => None
      case Some((record, rest)) =>
        match ReadLane(rest)
        case None => None
        case Some(records) => Some([record] + records)
  }

  lemma LaneRecordRoundTrip(r: Record, rest: Bytes)
    requires Fits(r)
    ensures ReadLaneRecord(LaneRecord(r) + rest) == Some((r, rest))
    ensures LaneRecord(r) != []
  {
    hide Length, ReadField;
    var content := Length(|Content(r.entry)|) + Content(r.entry) + rest;
    var tagged := if r.entry.Missing? then [109] + rest else WorktreeTag(r.entry) + content;
    FieldRoundTrip(r.path, tagged);
    FieldRoundTrip(Content(r.entry), rest);
    assert LaneRecord(r) + rest == Length(|r.path|) + r.path + tagged;
    if r.entry.Missing? {
      assert tagged[1..] == rest;
    } else {
      assert tagged[2..] == content;
      assert tagged[0] == WorktreeTag(r.entry)[0] && tagged[1] == WorktreeTag(r.entry)[1];
    }
    LengthRoundTrip(|r.path|);
  }

  lemma {:induction false} LaneRoundTrip(records: seq<Record>)
    requires AllFit(records)
    ensures ReadLane(LaneBody(records)) == Some(records)
  {
    hide ReadLaneRecord, LaneRecord;
    if records != [] {
      var rest := LaneBody(records[1..]);
      LaneRecordRoundTrip(records[0], rest);
      LaneRoundTrip(records[1..]);
      ReadLaneStep(LaneRecord(records[0]) + rest, records, rest);
    }
  }

  lemma ReadLaneStep(s: Bytes, records: seq<Record>, rest: Bytes)
    requires s != [] && records != []
    requires ReadLaneRecord(s) == Some((records[0], rest)) && ReadLane(rest) == Some(records[1..])
    ensures ReadLane(s) == Some(records)
  {
    hide ReadLaneRecord;
    assert records == [records[0]] + records[1..];
  }

  /** Two streams of one lane are the same exactly when they hold the same records. */
  lemma LaneStreamsDifferIff(lane: Lane, a: seq<Record>, b: seq<Record>, pythonVersion: Bytes)
    requires AllFit(a) && AllFit(b)
    ensures LaneHeader(lane, pythonVersion) + LaneBody(a) == LaneHeader(lane, pythonVersion) + LaneBody(b) <==> a == b
  {
    hide LaneHeader, LaneBody, ReadLane, Fits;
    LaneRoundTrip(a);
    LaneRoundTrip(b);
    DropOfConcat(LaneHeader(lane, pythonVersion), LaneBody(a));
    DropOfConcat(LaneHeader(lane, pythonVersion), LaneBody(b));
  }

  /** Two listed trees give a lane the same stream exactly when it includes the same paths of both, in
      the same order, and they agree on each. */
  lemma LanesDifferIff(lane: Lane, paths: seq<Bytes>, others: seq<Bytes>, before: Tree, after: Tree,
                       pythonVersion: Bytes)
    requires AllFit(Records(Filter(paths, InLane(lane)), before))
    requires AllFit(Records(Filter(others, InLane(lane)), after))
    ensures LaneStream(lane, paths, before, pythonVersion) == LaneStream(lane, others, after, pythonVersion)
      <==> (Filter(paths, InLane(lane)) == Filter(others, InLane(lane))
            && forall path :: path in paths && Includes(lane, path) ==> before(path) == after(path))
  {
    hide LaneHeader, LaneBody, Includes, AllFit, Records;
    var kept, others' := Filter(paths, InLane(lane)), Filter(others, InLane(lane));
    FilterMembers(paths, InLane(lane));
    LaneStreamsDifferIff(lane, Records(kept, before), Records(others', after), pythonVersion);
    RecordsAgreeIff(kept, others', before, after);
  }

  /** Over one listing, a lane's stream changes exactly when a path it includes changes. */
  lemma LaneChangesIff(lane: Lane, paths: seq<Bytes>, before: Tree, after: Tree, pythonVersion: Bytes)
    requires AllFit(Records(Filter(paths, InLane(lane)), before))
    requires AllFit(Records(Filter(paths, InLane(lane)), after))
    ensures LaneStream(lane, paths, before, pythonVersion) == LaneStream(lane, paths, after, pythonVersion)
      <==> forall path :: path in paths && Includes(lane, path) ==> before(path) == after(path)
  {
    hide *;
    LanesDifferIff(lane, paths, paths, before, after, pythonVersion);
  }

  /** Streams of different lanes never coincide, whatever they hold. */
  lemma LanesAreSeparate(one: Lane, two: Lane, pythonVersion: Bytes, x: Bytes, y: Bytes)
    requires one != two
    ensures LaneHeader(one, pythonVersion) + x != LaneHeader(two, pythonVersion) + y
  {
    var version := Ascii("slopbench.repository-verify.v1");
    assert (LaneHeader(one, pythonVersion) + x)[|version| + 1] == Ascii(LaneName(one))[0];
    assert (LaneHeader(two, pythonVersion) + y)[|version| + 1] == Ascii(LaneName(two))[0];
  }
}
