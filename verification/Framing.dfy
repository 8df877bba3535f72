/** Length-prefixed record streams fed to a digest: the worktree revision, and the four verification
    lanes. SHA-256 is left abstract: what matters is the byte stream. */
module Framing {
  import opened ByteStrings
  import opened Sorting

  // ----- Big-endian lengths

  const LIMIT := 0x1_0000_0000_0000_0000

  function BigEndian(n: nat, width: nat): (r: Bytes)
    ensures |r| == width
  {
    if width == 0 then [] else BigEndian(n / 0x100, width - 1) + [n % 0x100]
  }

  function FromBigEndian(s: Bytes): nat {
    if s == [] then 0 else FromBigEndian(s[..|s| - 1]) * 0x100 + s[|s| - 1]
  }

  function Pow256(width: nat): nat {
    if width == 0 then 1 else 0x100 * Pow256(width - 1)
  }

  lemma {:induction false} BigEndianRoundTrip(n: nat, width: nat)
    requires n < Pow256(width)
    ensures FromBigEndian(BigEndian(n, width)) == n
  {
    if width > 0 {
      BigEndianRoundTrip(n / 0x100, width - 1);
      var r := BigEndian(n, width);
      assert r[..|r| - 1] == BigEndian(n / 0x100, width - 1);
    }
  }

  lemma LimitIsEightBytes()
    ensures Pow256(8) == LIMIT
  {
    assert Pow256(4) == 0x1_0000_0000;
  }

  /** A length in eight bytes, most significant first; the source raises from 2^64 on. */
  function Length(n: nat): Bytes {
    BigEndian(n, 8)
  }

  lemma LengthRoundTrip(n: nat)
    requires n < LIMIT
    ensures FromBigEndian(Length(n)) == n && |Length(n)| == 8
  {
    LimitIsEightBytes();
    BigEndianRoundTrip(n, 8);
  }

  // ----- What a path can hold

  datatype Entry =
    | Missing
    | Link(executable: bool, target: Bytes)
    | Regular(executable: bool, content: Bytes)
    | Other(executable: bool)

  datatype Record = Record(path: Bytes, entry: Entry)

  function ModeByte(executable: bool): Byte {
    if executable then 120 else 45  // x, -
  }

  function Content(e: Entry): Bytes {
    match e
    case Link(_, target) => target
    case Regular(_, content) => content
    case _ => []
  }

  /** Lengths that fit their eight-byte prefix. */
  predicate Fits(r: Record) {
    |r.path| < LIMIT && |Content(r.entry)| < LIMIT
  }

  /** A path with its length, as every record starts. */
  function PathFrame(path: Bytes): Bytes {
    Length(|path|) + path
  }

  // ----- The worktree stream

  function WorktreeTag(e: Entry): Bytes {
    match e
    case Missing => [45, 109]                          // -m
    case Link(executable, _) => [ModeByte(executable), 108]     // l
    case Regular(executable, _) => [ModeByte(executable), 102]  // f
    case Other(executable) => [ModeByte(executable), 111]       // o
  }

  function WorktreeRecord(r: Record): Bytes {
    PathFrame(r.path) + WorktreeTag(r.entry) + Length(|Content(r.entry)|) + Content(r.entry)
  }

  function WorktreeBody(records: seq<Record>): Bytes {
    if records == [] then [] else WorktreeRecord(records[0]) + WorktreeBody(records[1..])
  }

  /** A tree: what `lstat` and a read find at each path. */
  type Tree = Bytes -> Entry

  function Records(paths: seq<Bytes>, tree: Tree): seq<Record> {
    seq(|paths|, i requires 0 <= i < |paths| => Record(paths[i], tree(paths[i])))
  }

  function Path(p: Bytes): Key {
    p
  }

  predicate Listed(excluded: set<Bytes>, path: Bytes) {
    path != [] && path !in excluded
  }

  function Kept(excluded: set<Bytes>): Bytes -> bool {
    p => Listed(excluded, p)
  }

  function NotEmpty(): Bytes -> bool {
    p => p != []
  }

  function Header(): Bytes {
    Ascii("slopbench.worktree.v1") + [0]
  }

  /** What the listing holds, sorted, without the excluded paths. */
  function KeptPaths(listing: seq<Bytes>, excluded: set<Bytes>): seq<Bytes> {
    Sorted(Filter(listing, Kept(excluded)), Path, false)
  }

  /** The records that count. */
  function Counted(listing: seq<Bytes>, excluded: set<Bytes>, tree: Tree): seq<Record> {
    Records(KeptPaths(listing, excluded), tree)
  }

  /** Records are the same when the paths are and both trees agree on them. */
  lemma RecordsAgreeIff(paths: seq<Bytes>, others: seq<Bytes>, before: Tree, after: Tree)
    ensures Records(paths, before) == Records(others, after) <==>
      paths == others && forall path :: path in paths ==> before(path) == after(path)
  {
    var a, b := Records(paths, before), Records(others, after);
    if a == b {
      forall i | 0 <= i < |paths| ensures paths[i] == others[i] && before(paths[i]) == after(paths[i]) {
        assert a[i] == b[i];
      }
    }
  }

  /** The updates one path makes to the digest. */
  method AppendRecord(digest: Bytes, path: Bytes, entry: Entry) returns (stream: Bytes)
    ensures stream == digest + WorktreeRecord(Record(path, entry))
  {
    hide Length;
    stream := digest + Length(|path|);
    stream := stream + path;
    if entry.Missing? {
      stream := stream + [45, 109];
      stream := stream + Length(0);
      return;
    }
    stream := stream + [ModeByte(entry.executable)];
    var content: Bytes := [];
    if entry.Link? {
      stream := stream + [108];
      content := entry.target;
    } else if entry.Regular? {
      stream := stream + [102];
      content := entry.content;
    } else {
      stream := stream + [111];
    }
    stream := stream + Length(|content|);
    stream := stream + content;
  }

  /** What one more path adds to the stream of a prefix. */
  lemma OneMorePath(paths: seq<Bytes>, i: nat, keep: Bytes -> bool, tree: Tree)
    requires i < |paths|
    ensures WorktreeBody(Records(Filter(paths[..i + 1], keep), tree))
         == WorktreeBody(Records(Filter(paths[..i], keep), tree))
            + if keep(paths[i]) then WorktreeRecord(Record(paths[i], tree(paths[i]))) else []
  {
    var before, path := Filter(paths[..i], keep), paths[i];
    assert paths[..i + 1] == paths[..i] + [path];
    FilterConcat(paths[..i], [path], keep);
    assert Filter([path], keep) == (if keep(path) then [path] else []) + Filter([path][1..], keep);
    if keep(path) {
      assert Filter(paths[..i + 1], keep) == before + [path];
      assert Records(before + [path], tree) == Records(before, tree) + [Record(path, tree(path))];
      BodyOfAppend(Records(before, tree), Record(path, tree(path)));
    } else {
      assert Filter(paths[..i + 1], keep) == before;
    }
  }

  lemma NothingYet(keep: Bytes -> bool, tree: Tree)
    ensures WorktreeBody(Records(Filter([], keep), tree)) == []
  {
  }

  /** Sort everything listed, then skip excluded paths inside the loop. */
  method WorktreeStream(listing: seq<Bytes>, excluded: set<Bytes>, tree: Tree) returns (stream: Bytes)
    ensures stream == Header() + WorktreeBody(Counted(listing, excluded, tree))
  {
    hide Header, WorktreeRecord, WorktreeBody, Records, Filter, Sorted;
    var paths := Sorted(Filter(listing, NotEmpty()), Path, false);
    NothingYet(Kept(excluded), tree);
    stream := Header();
    for i := 0 to |paths|
      invariant stream == Header() + WorktreeBody(Records(Filter(paths[..i], Kept(excluded)), tree))
    {
      NoneIsEmpty(paths, listing, i);
      OneMorePath(paths, i, Kept(excluded), tree);
      assert Kept(excluded)(paths[i]) <==> paths[i] !in excluded;
      if paths[i] in excluded {
        continue;
      }
      stream := AppendRecord(stream, paths[i], tree(paths[i]));
    }
    assert paths[..|paths|] == paths;
    SkippingIsFiltering(listing, excluded);
  }

  /** Leave the excluded paths out first, then sort what remains. */
  method WorktreeStreamFiltered(listing: seq<Bytes>, excluded: set<Bytes>, tree: Tree) returns (stream: Bytes)
    ensures stream == Header() + WorktreeBody(Counted(listing, excluded, tree))
  {
    hide Header, WorktreeRecord;
    var paths := Sorted(Filter(listing, Kept(excluded)), Path, false);
    stream := Header();
    for i := 0 to |paths|
      invariant stream == Header() + WorktreeBody(Records(paths[..i], tree))
    {
      var entry := tree(paths[i]);
      stream := AppendRecord(stream, paths[i], entry);
      assert Records(paths[..i + 1], tree) == Records(paths[..i], tree) + [Record(paths[i], entry)];
      BodyOfAppend(Records(paths[..i], tree), Record(paths[i], entry));
    }
    assert paths[..|paths|] == paths;
  }

  lemma SkippingIsFiltering(listing: seq<Bytes>, excluded: set<Bytes>)
    ensures Filter(Sorted(Filter(listing, NotEmpty()), Path, false), Kept(excluded))
         == Sorted(Filter(listing, Kept(excluded)), Path, false)
  {
    FilterThenSort(Filter(listing, NotEmpty()), Kept(excluded), Path, false);
    FilterTwice(listing, excluded);
  }

  lemma NoneIsEmpty(paths: seq<Bytes>, listing: seq<Bytes>, i: nat)
    requires i < |paths| && paths == Sorted(Filter(listing, NotEmpty()), Path, false)
    ensures paths[i] != []
  {
    var shown := Filter(listing, NotEmpty());
    SortedPermutes(shown, Path, false);
    FilterMembers(listing, NotEmpty());
    assert paths[i] in paths && paths[i] in shown;
  }

  lemma {:induction false} FilterTwice(listing: seq<Bytes>, excluded: set<Bytes>)
    ensures Filter(Filter(listing, NotEmpty()), Kept(excluded))
         == Filter(listing, Kept(excluded))
  {
    if listing != [] {
      FilterTwice(listing[1..], excluded);
      if listing[0] != [] {
        assert Filter(listing, NotEmpty())[1..] == Filter(listing[1..], NotEmpty());
      } else {
        assert Filter(listing, NotEmpty()) == Filter(listing[1..], NotEmpty());
      }
    }
  }

  lemma {:induction false} BodyOfAppend(records: seq<Record>, r: Record)
    ensures WorktreeBody(records + [r]) == WorktreeBody(records) + WorktreeRecord(r)
  {
    if records == [] {
      assert [r][1..] == [] && [] + [r] == [r];
    } else {
      assert (records + [r])[1..] == records[1..] + [r];
      BodyOfAppend(records[1..], r);
    }
  }
}
