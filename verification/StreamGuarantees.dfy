/** The two framed streams byte by byte: headers, lengths, tags, which paths count and in what order, and
    which paths each lane takes. */
module StreamGuarantees {
  import opened ByteStrings
  import opened Sequences
  import opened Wrappers
  import opened Sorting
  import opened Framing
  import opened Decoding
  import opened Lanes

  // ----- Lengths

  lemma LastByte(s: Bytes, k: nat)
    requires k < |s|
    ensures FromBigEndian(s[..k + 1]) == FromBigEndian(s[..k]) * 0x100 + s[k]
  {
    assert s[..k + 1][..k] == s[..k] && s[..k + 1][k] == s[k];
  }

  /** A length is eight bytes, the first of which counts 256 to the seventh, the last of which counts
      one. */
  lemma LengthIs(n: nat)
    requires n < LIMIT
    ensures |Length(n)| == 8
    ensures
      var b: seq<int> := Length(n);
      n == 0x100_0000_0000_0000 * b[0] + 0x1_0000_0000_0000 * b[1] + 0x100_0000_0000 * b[2] + 0x1_0000_0000 * b[3]
           + 0x100_0000 * b[4] + 0x1_0000 * b[5] + 0x100 * b[6] + b[7]
  {
    hide Length, FromBigEndian;
    var b: Bytes := Length(n);
    LengthRoundTrip(n);
    NoBytes();
    LastByte(b, 0);
    LastByte(b, 1);
    LastByte(b, 2);
    LastByte(b, 3);
    LastByte(b, 4);
    LastByte(b, 5);
    LastByte(b, 6);
    LastByte(b, 7);
    assert b[..0] == [] && b[..8] == b;
  }

  lemma NoBytes()
    ensures FromBigEndian([]) == 0
  {
  }

  // ----- The worktree stream

  /** The bytes of one path: its length and name; then mode and type, and the length and bytes of what
      is there. */
  function PathBytes(path: Bytes, entry: Entry): Bytes {
    Length(|path|) + path
    + match entry
      case Missing => Ascii("-m") + Length(0)
      case Link(executable, target) => Ascii(if executable then "xl" else "-l") + Length(|target|) + target
      case Regular(executable, content) => Ascii(if executable then "xf" else "-f") + Length(|content|) + content
      case Other(executable) => Ascii(if executable then "xo" else "-o") + Length(0)
  }

  function TreeBytes(paths: seq<Bytes>, tree: Tree): Bytes {
    if paths == [] then [] else PathBytes(paths[0], tree(paths[0])) + TreeBytes(paths[1..], tree)
  }

  lemma RecordIs(path: Bytes, entry: Entry)
    ensures WorktreeRecord(Record(path, entry)) == PathBytes(path, entry)
  {
    hide Length;
    TagsAre();
  }

  lemma TagsAre()
    ensures Ascii("-m") == [45, 109]
    ensures Ascii("xl") == [120, 108] && Ascii("-l") == [45, 108]
    ensures Ascii("xf") == [120, 102] && Ascii("-f") == [45, 102]
    ensures Ascii("xo") == [120, 111] && Ascii("-o") == [45, 111]
  {
  }

  lemma {:induction false} BodyIs(paths: seq<Bytes>, tree: Tree)
    ensures WorktreeBody(Records(paths, tree)) == TreeBytes(paths, tree)
  {
    hide WorktreeRecord, PathBytes;
    if paths != [] {
      BodyIs(paths[1..], tree);
      RecordIs(paths[0], tree(paths[0]));
      assert Records(paths, tree)[1..] == Records(paths[1..], tree);
    }
  }

  /** The stream is the header and the bytes of the kept paths; those are what the listing holds that is
      neither empty nor excluded, as often as it holds it, in ascending order. */
  lemma WorktreeStreamIs(listing: seq<Bytes>, excluded: set<Bytes>, tree: Tree) returns (kept: seq<Bytes>)
    ensures Header() + WorktreeBody(Counted(listing, excluded, tree))
         == Ascii("slopbench.worktree.v1\0") + TreeBytes(kept, tree)
    ensures forall i, j :: 0 <= i < j < |kept| ==> !Lt(kept[j], kept[i])
    ensures forall path :: path in kept <==> path in listing && path != [] && path !in excluded
    ensures forall path :: path in kept ==> multiset(kept)[path] == multiset(listing)[path]
  {
    kept := KeptPaths(listing, excluded);
    HeaderIs();
    BodyIs(kept, tree);
    var shown := Filter(listing, Kept(excluded));
    SortedIsInOrder(shown, Path, false);
    SortedPermutes(shown, Path, false);
    forall i, j | 0 <= i < j < |kept| ensures !Lt(kept[j], kept[i]) {
      assert !Before(kept[j], kept[i], Path, false);
    }
    forall path ensures path in kept <==> path in listing && path != [] && path !in excluded {
      KeptMembers(listing, excluded, path);
    }
    forall path | path in kept ensures multiset(kept)[path] == multiset(listing)[path] {
      KeptMembers(listing, excluded, path);
      FilterKeepsCount(listing, Kept(excluded), path);
    }
  }

  lemma HeaderIs()
    ensures Header() == Ascii("slopbench.worktree.v1\0")
  {
  }

  lemma {:induction false} FilterKeepsCount(xs: seq<Bytes>, keep: Bytes -> bool, x: Bytes)
    requires keep(x)
    ensures multiset(Filter(xs, keep))[x] == multiset(xs)[x]
  {
    if xs != [] {
      FilterKeepsCount(xs[1..], keep, x);
      assert xs == [xs[0]] + xs[1..];
    }
  }

  // ----- The lanes

  ghost predicate IsIn(path: Bytes, dir: string) {
    path == Ascii(dir) || exists rest :: path == Ascii(dir) + Ascii("/") + rest
  }

  ghost predicate IsPython(path: Bytes) {
    exists stem :: path == stem + Ascii(".py")
  }

  /** The project files that every lane takes. */
  ghost predicate IsShared(path: Bytes) {
    || path == Ascii("Makefile") || path == Ascii(".python-version")
    || path == Ascii("pyproject.toml") || path == Ascii("uv.lock")
  }

  /** The paths a lane takes. */
  ghost predicate Takes(lane: Lane, path: Bytes) {
    IsShared(path) || match lane
      case Static => IsPython(path)
      case Contracts =>
        || IsPython(path) || IsIn(path, "tasks") || IsIn(path, "runs") || IsIn(path, "profiles")
        || IsIn(path, "reference-configurations")
      case _ => path != Ascii("AGENTS.md") && !IsIn(path, ".github")
  }

  lemma InIff(path: Bytes, dir: string)
    ensures IsBelow(path, dir) <==> IsIn(path, dir)
  {
    assert Ascii("/") == [47];
    if Ascii(dir) + [47] <= path {
      assert path == Ascii(dir) + Ascii("/") + path[|dir| + 1..];
    }
  }

  lemma PythonIff(path: Bytes)
    ensures EndsWith(path, Ascii(".py")) <==> IsPython(path)
  {
    if EndsWith(path, Ascii(".py")) {
      assert path == path[..|path| - 3] + Ascii(".py");
    }
    if stem :| path == stem + Ascii(".py") {
      assert path[|stem|..] == Ascii(".py");
    }
  }

  lemma TakesIff(lane: Lane, path: Bytes)
    ensures Includes(lane, path) <==> Takes(lane, path)
  {
    hide IsBelow, IsIn, EndsWith, IsPython, Ascii;
    PythonIff(path);
    InIff(path, ".github");
    InIff(path, "tasks");
    InIff(path, "runs");
    InIff(path, "profiles");
    InIff(path, "reference-configurations");
  }

  /** What a path adds to a lane: as in the worktree, except that a deletion is a single byte. */
  function LanePathBytes(path: Bytes, entry: Entry): Bytes {
    if entry.Missing? then Length(|path|) + path + Ascii("m") else PathBytes(path, entry)
  }

  ghost function LaneBytes(lane: Lane, paths: seq<Bytes>, tree: Tree): Bytes {
    if paths == [] then []
    else
      var last := paths[|paths| - 1];
      LaneBytes(lane, paths[..|paths| - 1], tree) + if Takes(lane, last) then LanePathBytes(last, tree(last)) else []
  }

  function NameOf(lane: Lane): string {
    match lane
    case Static => "static"
    case Tests => "tests"
    case Contracts => "contracts"
    case Generated => "generated"
  }

  lemma LaneRecordIs(path: Bytes, entry: Entry)
    ensures LaneRecord(Record(path, entry)) == LanePathBytes(path, entry)
  {
    hide Length;
    TagsAre();
    assert Ascii("m") == [109];
  }

  lemma LaneHeaderIs(lane: Lane, pythonVersion: Bytes)
    ensures LaneHeader(lane, pythonVersion)
         == Ascii("slopbench.repository-verify.v1\0") + Ascii(NameOf(lane)) + [0] + pythonVersion + [0]
  {
    assert Ascii("slopbench.repository-verify.v1\0") == Ascii("slopbench.repository-verify.v1") + [0];
  }

  /** A lane's stream is its header, which names it and the interpreter, and the bytes of the paths it
      takes, in the order of the listing. */
  lemma {:induction false} LaneStreamIs(lane: Lane, paths: seq<Bytes>, tree: Tree, pythonVersion: Bytes)
    ensures LaneStream(lane, paths, tree, pythonVersion)
         == Ascii("slopbench.repository-verify.v1\0") + Ascii(NameOf(lane)) + [0] + pythonVersion + [0]
            + LaneBytes(lane, paths, tree)
  {
    hide LaneStream, LaneRecord, LanePathBytes, Takes, Includes, Ascii, LaneHeader;
    LaneHeaderIs(lane, pythonVersion);
    if paths == [] {
      EmptyLane(lane, tree, pythonVersion);
    } else {
      var n := |paths| - 1;
      LaneStreamIs(lane, paths[..n], tree, pythonVersion);
      OneMoreLanePath(lane, paths, n, tree, pythonVersion);
      TakesIff(lane, paths[n]);
      LaneRecordIs(paths[n], tree(paths[n]));
      assert paths[..n + 1] == paths;
      Associates(LaneHeader(lane, pythonVersion), LaneBytes(lane, paths[..n], tree),
                 if Takes(lane, paths[n]) then LanePathBytes(paths[n], tree(paths[n])) else []);
    }
  }

  /** Which paths matter to a lane: over one listing its stream changes exactly when one it takes does. */
  lemma LaneSees(lane: Lane, paths: seq<Bytes>, before: Tree, after: Tree, pythonVersion: Bytes)
    requires forall path :: path in paths && Takes(lane, path) ==>
      |path| < LIMIT && |Content(before(path))| < LIMIT && |Content(after(path))| < LIMIT
    ensures LaneStream(lane, paths, before, pythonVersion) == LaneStream(lane, paths, after, pythonVersion)
      <==> forall path :: path in paths && Takes(lane, path) ==> before(path) == after(path)
  {
    hide LaneStream, Takes, Includes, Content;
    forall path ensures Includes(lane, path) <==> Takes(lane, path) {
      TakesIff(lane, path);
    }
    TakenFit(lane, paths, before);
    TakenFit(lane, paths, after);
    LaneChangesIff(lane, paths, before, after, pythonVersion);
  }

  lemma TakenFit(lane: Lane, paths: seq<Bytes>, tree: Tree)
    requires forall path :: path in paths && Takes(lane, path) ==> |path| < LIMIT && |Content(tree(path))| < LIMIT
    ensures AllFit(Records(Filter(paths, InLane(lane)), tree))
  {
    hide Takes, Includes, Content;
    var kept := Filter(paths, InLane(lane));
    FilterMembers(paths, InLane(lane));
    forall i | 0 <= i < |kept| ensures Fits(Records(kept, tree)[i]) {
      assert kept[i] in kept;
      TakesIff(lane, kept[i]);
    }
  }

  /** The pass is abandoned over a path that some lane takes and that is of another type. */
  lemma RefusedIff(path: Bytes, tree: Tree)
    ensures Refused(path, tree) <==> tree(path).Other? && exists lane :: Takes(lane, path)
  {
    hide Takes, Includes;
    forall lane ensures Includes(lane, path) <==> Takes(lane, path) {
      TakesIff(lane, path);
    }
  }
}
