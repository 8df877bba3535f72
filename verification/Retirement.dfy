/** Retiring tasks: what an accepted retirement guarantees about the two task sets. */
module Retirement {
  import opened Wrappers

  datatype Category =
    | Tracer | DiagnosisRepair | Feature | Restraint | CompositionDomainEvolution | StateEffects | CodeReview

  datatype Reason = Leakage | VerifierWeakness | DependencyRot | MajorTaskSetRelease

  /** The part of a task-set entry retirement looks at. */
  datatype Entry = Entry(digest: string, category: Category, provenance: string, license: string)

  datatype Publication = Publication(provenance: string, license: string)

  datatype Record = Record(
    retiredId: string, retiredDigest: string, reason: Reason,
    replacementId: string, replacementDigest: string, publication: Publication)

  datatype Refusal =
    | ManifestBindingMismatch
    | BridgeBindingMismatch
    | BridgeCoverageMismatch
    | ReducesCoverage(category: Category)
    | RecordsDoNotCover
    | UnknownRetired(id: string)
    | UnknownReplacement(id: string)
    | ReplacementNotNew(id: string)
    | SameIdNeedsMajorRelease(id: string)
    | CategoryNotPreserved(id: string)
    | PublicationMismatch(id: string)

  /** Task ids are unique in a task set, so its entries are a map. */
  type Entries = map<string, Entry>

  type Coverage = map<Category, nat>

  /** `binding` stands for the id, version and digest that identify the set. */
  datatype TaskSet = TaskSet(binding: string, entries: Entries)

  datatype Manifest = Manifest(before: string, after: string, records: seq<Record>)

  datatype Bridge = Bridge(before: string, after: string, coverageBefore: Coverage, coverageAfter: Coverage)

  function InCategory(entries: Entries, category: Category): set<string> {
    set id | id in entries && entries[id].category == category
  }

  function Count(entries: Entries, category: Category): nat {
    |InCategory(entries, category)|
  }

  /** Only categories that occur have an entry. */
  function Snapshot(entries: Entries): Coverage {
    map category: Category | Count(entries, category) > 0 :: Count(entries, category)
  }

  function Get(coverage: Coverage, category: Category): nat {
    if category in coverage then coverage[category] else 0
  }

  /** Kept with the same content. */
  predicate Carried(before: Entries, after: Entries, id: string) {
    id in before && id in after && before[id].digest == after[id].digest
  }

  function Removed(before: Entries, after: Entries): set<string> {
    set id | id in before && !Carried(before, after, id)
  }

  predicate UniqueRecords(records: seq<Record>) {
    && (forall i, j :: 0 <= i < j < |records| ==> records[i].retiredId != records[j].retiredId)
    && (forall i, j :: 0 <= i < j < |records| ==> records[i].replacementId != records[j].replacementId)
  }

  function RetiredIds(records: seq<Record>): set<string> {
    set r | r in records :: r.retiredId
  }

  function CheckRecord(r: Record, before: Entries, after: Entries): Option<Refusal> {
    if r.retiredId !in before || before[r.retiredId].digest != r.retiredDigest then Some(UnknownRetired(r.retiredId))
    else if r.replacementId !in after || after[r.replacementId].digest != r.replacementDigest then
      Some(UnknownReplacement(r.replacementId))
    else if r.replacementId in before && before[r.replacementId].digest == r.replacementDigest then
      Some(ReplacementNotNew(r.replacementId))
    else if r.replacementId == r.retiredId && r.reason != MajorTaskSetRelease then
      Some(SameIdNeedsMajorRelease(r.replacementId))
    else if after[r.replacementId].category != before[r.retiredId].category then
      Some(CategoryNotPreserved(r.retiredId))
    else if r.publication.provenance != before[r.retiredId].provenance
         || r.publication.license != before[r.retiredId].license then
      Some(PublicationMismatch(r.retiredId))
    else None
  }

  predicate CoverageKept(before: Entries, after: Entries) {
    forall category: Category :: Count(before, category) <= Count(after, category)
  }

  predicate RecordsAccepted(records: seq<Record>, before: Entries, after: Entries) {
    && RetiredIds(records) == Removed(before, after)
    && forall r :: r in records ==> CheckRecord(r, before, after).None?
  }

  predicate BindingsMatch(manifest: Manifest, bridge: Bridge, before: TaskSet, after: TaskSet) {
    && manifest.before == before.binding && manifest.after == after.binding
    && bridge.before == manifest.before && bridge.after == manifest.after
    && bridge.coverageBefore == Snapshot(before.entries) && bridge.coverageAfter == Snapshot(after.entries)
  }

  predicate Accepted(manifest: Manifest, bridge: Bridge, before: TaskSet, after: TaskSet) {
    && BindingsMatch(manifest, bridge, before, after)
    && CoverageKept(before.entries, after.entries)
    && RecordsAccepted(manifest.records, before.entries, after.entries)
  }

  /** The first record that is refused, and why. */
  function FirstRefusal(records: seq<Record>, before: Entries, after: Entries): Option<Refusal> {
    if records == [] then None
    else
      var refusal := CheckRecord(records[0], before, after);
      if refusal.Some? then refusal else FirstRefusal(records[1..], before, after)
  }

  /** The refusal given is a true one, and the checks before it passed. */
  predicate Justified(refusal: Refusal, manifest: Manifest, bridge: Bridge, before: TaskSet, after: TaskSet) {
    match refusal
    case ManifestBindingMismatch => manifest.before != before.binding || manifest.after != after.binding
    case BridgeBindingMismatch => bridge.before != before.binding || bridge.after != after.binding
    case BridgeCoverageMismatch =>
      bridge.coverageBefore != Snapshot(before.entries) || bridge.coverageAfter != Snapshot(after.entries)
    case ReducesCoverage(category) =>
      BindingsMatch(manifest, bridge, before, after)
      && Count(after.entries, category) < Count(before.entries, category)
    case RecordsDoNotCover =>
      BindingsMatch(manifest, bridge, before, after) && CoverageKept(before.entries, after.entries)
      && RetiredIds(manifest.records) != Removed(before.entries, after.entries)
    case _ =>
      BindingsMatch(manifest, bridge, before, after) && CoverageKept(before.entries, after.entries)
      && RetiredIds(manifest.records) == Removed(before.entries, after.entries)
      && FirstRefusal(manifest.records, before.entries, after.entries) == Some(refusal)
  }

  lemma {:induction false} FirstRefusalSkips(records: seq<Record>, i: nat, before: Entries, after: Entries)
    requires i <= |records| && forall j :: 0 <= j < i ==> CheckRecord(records[j], before, after).None?
    ensures FirstRefusal(records, before, after) == FirstRefusal(records[i..], before, after)
    decreases i
  {
    if i > 0 {
      FirstRefusalSkips(records[1..], i - 1, before, after);
      assert records[1..][i - 1..] == records[i..];
    }
  }

  lemma SnapshotKeepsCoverage(before: Entries, after: Entries)
    requires forall category :: category in Snapshot(before).Keys + Snapshot(after).Keys ==>
      Get(Snapshot(before), category) <= Get(Snapshot(after), category)
    ensures CoverageKept(before, after)
  {
    forall category: Category ensures Count(before, category) <= Count(after, category) {
      if Count(before, category) > 0 {
        assert category in Snapshot(before).Keys + Snapshot(after).Keys;
      }
    }
  }

  /** Categories are looked at in no particular order; records in theirs. */
  method ValidateRetirement(manifest: Manifest, bridge: Bridge, before: TaskSet, after: TaskSet)
    returns (refusal: Option<Refusal>)
    ensures refusal.None? <==> Accepted(manifest, bridge, before, after)
    ensures refusal.Some? ==> Justified(refusal.value, manifest, bridge, before, after)
  {
    hide Removed, RetiredIds, CheckRecord, Count;
    if manifest.before != before.binding || manifest.after != after.binding {
      return Some(ManifestBindingMismatch);
    }
    if bridge.before != manifest.before || bridge.after != manifest.after {
      return Some(BridgeBindingMismatch);
    }
    var beforeCoverage, afterCoverage := Snapshot(before.entries), Snapshot(after.entries);
    if bridge.coverageBefore != beforeCoverage || bridge.coverageAfter != afterCoverage {
      return Some(BridgeCoverageMismatch);
    }
    var categories := beforeCoverage.Keys + afterCoverage.Keys;
    while categories != {}
      invariant categories <= beforeCoverage.Keys + afterCoverage.Keys
      invariant forall c :: c in beforeCoverage.Keys + afterCoverage.Keys && c !in categories ==>
        Get(beforeCoverage, c) <= Get(afterCoverage, c)
    {
      var category :| category in categories;
      if Get(afterCoverage, category) < Get(beforeCoverage, category) {
        return Some(ReducesCoverage(category));
      }
      categories := categories - {category};
    }
    SnapshotKeepsCoverage(before.entries, after.entries);
    if RetiredIds(manifest.records) != Removed(before.entries, after.entries) {
      return Some(RecordsDoNotCover);
    }
    for i := 0 to |manifest.records|
      invariant forall j :: 0 <= j < i ==> CheckRecord(manifest.records[j], before.entries, after.entries).None?
    {
      refusal := CheckRecord(manifest.records[i], before.entries, after.entries);
      if refusal.Some? {
        FirstRefusalSkips(manifest.records, i, before.entries, after.entries);
        CheckRecordRefusals(manifest.records[i], before.entries, after.entries);
        assert manifest.records[i] in manifest.records;
        return;
      }
    }
    return None;
  }

  lemma CheckRecordRefusals(r: Record, before: Entries, after: Entries)
    ensures CheckRecord(r, before, after).Some? ==>
      var refusal := CheckRecord(r, before, after).value;
      !refusal.ManifestBindingMismatch? && !refusal.BridgeBindingMismatch? && !refusal.BridgeCoverageMismatch?
      && !refusal.ReducesCoverage? && !refusal.RecordsDoNotCover?
  {
  }

  // ----- The replacement map

  /** The replacement recorded for a retired task. */
  function ReplacementOf(records: seq<Record>, id: string): Option<string> {
    if records == [] then None
    else if records[0].retiredId == id then Some(records[0].replacementId)
    else ReplacementOf(records[1..], id)
  }

  lemma {:induction false} ReplacementIsRecorded(records: seq<Record>, id: string)
    ensures ReplacementOf(records, id).Some? <==> id in RetiredIds(records)
    ensures ReplacementOf(records, id).Some? ==>
      exists i :: (0 <= i < |records| && records[i].retiredId == id
                   && records[i].replacementId == ReplacementOf(records, id).value)
  {
    if records != [] {
      ReplacementIsRecorded(records[1..], id);
      assert records == [records[0]] + records[1..];
      assert RetiredIds(records) == {records[0].retiredId} + RetiredIds(records[1..]);
      if records[0].retiredId != id && id in RetiredIds(records[1..]) {
        var i :| 0 <= i < |records[1..]| && records[1..][i].retiredId == id
          && records[1..][i].replacementId == ReplacementOf(records[1..], id).value;
        assert records[i + 1] == records[1..][i];
      }
    }
  }

  /** A genuinely new entry: not carried over from the set before. */
  predicate New(before: Entries, after: Entries, id: string) {
    id in after && !Carried(before, after, id)
  }

  /** Accepted records map exactly the removed or changed tasks, one to one, to new tasks of the same
      category. */
  lemma ReplacementIsInjection(records: seq<Record>, before: Entries, after: Entries)
    requires UniqueRecords(records) && RecordsAccepted(records, before, after)
    ensures forall id :: ReplacementOf(records, id).Some? <==> id in Removed(before, after)
    ensures forall id :: id in Removed(before, after) ==>
      var replacement := ReplacementOf(records, id).value;
      New(before, after, replacement) && after[replacement].category == before[id].category
    ensures forall a, b :: (a in Removed(before, after) && b in Removed(before, after)
                            && ReplacementOf(records, a) == ReplacementOf(records, b)) ==> a == b
  {
    forall id ensures ReplacementOf(records, id).Some? <==> id in Removed(before, after) {
      ReplacementIsRecorded(records, id);
    }
    forall id | id in Removed(before, after)
      ensures New(before, after, ReplacementOf(records, id).value)
      ensures after[ReplacementOf(records, id).value].category == before[id].category
    {
      ReplacementIsRecorded(records, id);
      var i :| 0 <= i < |records| && records[i].retiredId == id
        && records[i].replacementId == ReplacementOf(records, id).value;
      assert records[i] in records && CheckRecord(records[i], before, after).None?;
    }
    forall a, b | a in Removed(before, after) && b in Removed(before, after)
      && ReplacementOf(records, a) == ReplacementOf(records, b) ensures a == b
    {
      ReplacementIsRecorded(records, a);
      ReplacementIsRecorded(records, b);
      var i :| 0 <= i < |records| && records[i].retiredId == a
        && records[i].replacementId == ReplacementOf(records, a).value;
      var j :| 0 <= j < |records| && records[j].retiredId == b
        && records[j].replacementId == ReplacementOf(records, b).value;
      assert i == j;
    }
  }

  // ----- Counting

  /** Carried entries keep their category. */
  ghost predicate CarriedKeepCategory(before: Entries, after: Entries) {
    forall id :: Carried(before, after, id) ==> before[id].category == after[id].category
  }

  /** Carried tasks that stay in the category. */
  function Stayed(before: Entries, after: Entries, category: Category): set<string> {
    set id | id in before && Carried(before, after, id)
             && before[id].category == category && after[id].category == category
  }

  /** Carried tasks that leave the category. */
  function MovedOut(before: Entries, after: Entries, category: Category): set<string> {
    set id | id in before && Carried(before, after, id)
             && before[id].category == category && after[id].category != category
  }

  /** Carried tasks that come into the category. */
  function MovedIn(before: Entries, after: Entries, category: Category): set<string> {
    set id | id in before && Carried(before, after, id)
             && before[id].category != category && after[id].category == category
  }

  /** Removed or changed tasks of the category. */
  function RetiredFrom(before: Entries, after: Entries, category: Category): set<string> {
    set id | id in Removed(before, after) && before[id].category == category
  }

  function ReplacementIds(records: seq<Record>): set<string> {
    set r | r in records :: r.replacementId
  }

  /** New tasks of the category that a record names as replacements. */
  function Replacing(records: seq<Record>, before: Entries, after: Entries, category: Category): set<string> {
    set id | id in after && New(before, after, id) && after[id].category == category && id in ReplacementIds(records)
  }

  /** New tasks of the category that replace nothing. */
  function Added(records: seq<Record>, before: Entries, after: Entries, category: Category): set<string> {
    set id | id in after && New(before, after, id) && after[id].category == category && id !in ReplacementIds(records)
  }

  function ReplacementOrItself(records: seq<Record>, id: string): string {
    match ReplacementOf(records, id) case Some(replacement) => replacement case None => id
  }

  lemma {:induction false} InjectionSize(xs: set<string>, f: string -> string)
    requires forall a, b :: a in xs && b in xs && f(a) == f(b) ==> a == b
    ensures |set x | x in xs :: f(x)| == |xs|
  {
    if xs != {} {
      var x :| x in xs;
      var rest := xs - {x};
      InjectionSize(rest, f);
      assert (set y | y in xs :: f(y)) == (set y | y in rest :: f(y)) + {f(x)};
    }
  }

  /** Each record names the one replacement of its retired task. */
  lemma RecordIsLookedUp(records: seq<Record>, i: nat)
    requires UniqueRecords(records) && i < |records|
    ensures ReplacementOf(records, records[i].retiredId) == Some(records[i].replacementId)
  {
    var id := records[i].retiredId;
    assert records[i] in records && id in RetiredIds(records);
    ReplacementIsRecorded(records, id);
    var j :| 0 <= j < |records| && records[j].retiredId == id
      && records[j].replacementId == ReplacementOf(records, id).value;
    assert i == j;
  }

  /** As many tasks of a category replace as are retired from it. */
  lemma ReplacementsMatchRetired(records: seq<Record>, before: Entries, after: Entries, category: Category)
    requires UniqueRecords(records) && RecordsAccepted(records, before, after)
    ensures |Replacing(records, before, after, category)| == |RetiredFrom(before, after, category)|
  {
    var retired, replacing := RetiredFrom(before, after, category), Replacing(records, before, after, category);
    var f := (id: string) => ReplacementOrItself(records, id);
    ReplacementIsInjection(records, before, after);
    InjectionSize(retired, f);
    forall id | id in retired ensures f(id) in replacing {
      ReplacementIsRecorded(records, id);
      var i :| 0 <= i < |records| && records[i].replacementId == f(id);
      assert records[i] in records;
    }
    forall id | id in replacing ensures id in (set x | x in retired :: f(x)) {
      var r :| r in records && r.replacementId == id;
      var i :| 0 <= i < |records| && records[i] == r;
      RecordIsLookedUp(records, i);
      assert r.retiredId in RetiredIds(records) && f(r.retiredId) == id;
    }
    assert replacing == set id | id in retired :: f(id);
  }

  /** Every member of `all` is in exactly one of the parts. */
  ghost predicate Parts(all: set<string>, a: set<string>, b: set<string>, c: set<string>, d: set<string>) {
    forall id ::
      && (id in all <==> id in a || id in b || id in c || id in d)
      && (id in a ==> id !in b && id !in c && id !in d)
      && (id in b ==> id !in c && id !in d)
      && (id in c ==> id !in d)
  }

  lemma SizesAdd(all: set<string>, a: set<string>, b: set<string>, c: set<string>, d: set<string>)
    requires Parts(all, a, b, c, d)
    ensures |all| == |a| + |b| + |c| + |d|
  {
    assert all == a + b + c + d && a !! b !! c !! d;
    assert |a + b| == |a| + |b| && |a + b + c| == |a + b| + |c|;
  }

  lemma PartsBefore(before: Entries, after: Entries, category: Category)
    ensures Parts(InCategory(before, category), Stayed(before, after, category), MovedOut(before, after, category),
                  RetiredFrom(before, after, category), {})
  {
  }

  lemma PartsAfter(records: seq<Record>, before: Entries, after: Entries, category: Category)
    ensures Parts(InCategory(after, category), Stayed(before, after, category), MovedIn(before, after, category),
                  Replacing(records, before, after, category), Added(records, before, after, category))
  {
    hide ReplacementIds;
  }

  /** What accepted records leave of a category: it loses the carried tasks that leave it, and gains
      those that come in and the new ones that replace nothing. */
  lemma CountsAreConserved(records: seq<Record>, before: Entries, after: Entries, category: Category)
    requires UniqueRecords(records) && RecordsAccepted(records, before, after)
    ensures Count(after, category) + |MovedOut(before, after, category)|
         == Count(before, category) + |MovedIn(before, after, category)| + |Added(records, before, after, category)|
  {
    hide *;
    ReplacementsMatchRetired(records, before, after, category);
    PartsBefore(before, after, category);
    PartsAfter(records, before, after, category);
    CountIsSize(before, category);
    CountIsSize(after, category);
    SizesAdd(InCategory(before, category), Stayed(before, after, category), MovedOut(before, after, category),
             RetiredFrom(before, after, category), {});
    SizesAdd(InCategory(after, category), Stayed(before, after, category), MovedIn(before, after, category),
             Replacing(records, before, after, category), Added(records, before, after, category));
  }

  lemma CountIsSize(entries: Entries, category: Category)
    ensures Count(entries, category) == |InCategory(entries, category)|
  {
  }

  /** Once the records are accepted, the explicit coverage check passes exactly when no category loses
      more carried tasks to others than it gains from them and from additions. */
  lemma CoverageKeptIff(records: seq<Record>, before: Entries, after: Entries)
    requires UniqueRecords(records) && RecordsAccepted(records, before, after)
    ensures CoverageKept(before, after) <==> forall category: Category ::
      |MovedOut(before, after, category)|
        <= |MovedIn(before, after, category)| + |Added(records, before, after, category)|
  {
    hide RecordsAccepted, UniqueRecords, Count, MovedOut, MovedIn, Added;
    forall category: Category ensures Count(before, category) <= Count(after, category) <==>
      |MovedOut(before, after, category)|
        <= |MovedIn(before, after, category)| + |Added(records, before, after, category)|
    {
      CountsAreConserved(records, before, after, category);
    }
  }

  /** So the record checks alone keep coverage when carried tasks keep their category. */
  lemma RecordsKeepCoverage(records: seq<Record>, before: Entries, after: Entries)
    requires UniqueRecords(records) && RecordsAccepted(records, before, after)
    requires CarriedKeepCategory(before, after)
    ensures CoverageKept(before, after)
  {
    CoverageKeptIff(records, before, after);
    forall category: Category ensures MovedOut(before, after, category) == {} {
    }
  }

  /** The digest of a sealed task covers its contract, which states its category. */
  ghost predicate Sealed(entries: Entries, categoryOf: string -> Category) {
    forall id :: id in entries ==> entries[id].category == categoryOf(entries[id].digest)
  }

  /** Between task sets that were validated against their contracts, the coverage check never fires
      on accepted records. */
  lemma SealedSetsKeepCoverage(records: seq<Record>, before: Entries, after: Entries, categoryOf: string -> Category)
    requires UniqueRecords(records) && RecordsAccepted(records, before, after)
    requires Sealed(before, categoryOf) && Sealed(after, categoryOf)
    ensures CoverageKept(before, after)
  {
    RecordsKeepCoverage(records, before, after);
  }

  /** For task sets handed over without that validation the check is needed: a carried task listed
      under another category passes every record check and still lowers a count. */
  lemma CoverageCheckIsNeeded()
    ensures
      var before: Entries := map["a" := Entry("1", Feature, "", ""), "b" := Entry("1", StateEffects, "", "")];
      var after: Entries := map["a" := Entry("1", Restraint, "", ""), "c" := Entry("1", StateEffects, "", "")];
      var records := [Record("b", "1", Leakage, "c", "1", Publication("", ""))];
      UniqueRecords(records) && RecordsAccepted(records, before, after) && !CoverageKept(before, after)
  {
    var before: Entries := map["a" := Entry("1", Feature, "", ""), "b" := Entry("1", StateEffects, "", "")];
    var after: Entries := map["a" := Entry("1", Restraint, "", ""), "c" := Entry("1", StateEffects, "", "")];
    var records := [Record("b", "1", Leakage, "c", "1", Publication("", ""))];
    assert records[0] in records;
    assert Removed(before, after) == {"b"} == RetiredIds(records);
    assert "a" in InCategory(before, Feature) && InCategory(after, Feature) == {};
    assert Count(after, Feature) < Count(before, Feature);
  }

  // ----- Acceptance in plain terms

  ghost function Tasks(entries: Entries, category: Category): set<string> {
    set id | id in entries && entries[id].category == category
  }

  /** The snapshot counts the tasks of each category that has any. */
  ghost predicate CountsOf(coverage: Coverage, entries: Entries) {
    forall category: Category ::
      && (category in coverage <==> Tasks(entries, category) != {})
      && (category in coverage ==> coverage[category] == |Tasks(entries, category)|)
  }

  /** The record retires a task of the old set under its digest, for a new task of the same category,
      under the same id only in a major release, and publishes its own provenance and license. */
  ghost predicate RecordFits(r: Record, before: Entries, after: Entries) {
    && r.retiredId in before && before[r.retiredId].digest == r.retiredDigest
    && r.replacementId in after && after[r.replacementId].digest == r.replacementDigest
    && (r.replacementId in before ==> before[r.replacementId].digest != r.replacementDigest)
    && (r.replacementId == r.retiredId ==> r.reason == MajorTaskSetRelease)
    && before[r.retiredId].category == after[r.replacementId].category
    && r.publication.provenance == before[r.retiredId].provenance
    && r.publication.license == before[r.retiredId].license
  }

  /** The records retire exactly what is gone or changed. */
  ghost predicate RetiresWhatWent(records: seq<Record>, before: Entries, after: Entries) {
    forall id ::
      (exists r :: r in records && r.retiredId == id) <==>
        id in before && (id in after ==> after[id].digest != before[id].digest)
  }

  lemma SnapshotIff(coverage: Coverage, entries: Entries)
    ensures coverage == Snapshot(entries) <==> CountsOf(coverage, entries)
  {
    var snapshot := Snapshot(entries);
    forall category: Category ensures
      && (category in snapshot <==> Tasks(entries, category) != {})
      && (category in snapshot ==> snapshot[category] == |Tasks(entries, category)|)
    {
      assert Count(entries, category) == |Tasks(entries, category)|;
    }
  }

  lemma RetiresIff(records: seq<Record>, before: Entries, after: Entries)
    ensures RetiredIds(records) == Removed(before, after) <==> RetiresWhatWent(records, before, after)
  {
    var retired, removed := RetiredIds(records), Removed(before, after);
    assert retired == removed <==> forall id :: id in retired <==> id in removed;
    forall id ensures id in retired <==> exists r :: r in records && r.retiredId == id {
    }
    forall id ensures id in removed <==> id in before && (id in after ==> after[id].digest != before[id].digest) {
    }
  }

  lemma RecordFitsIff(r: Record, before: Entries, after: Entries)
    ensures CheckRecord(r, before, after).None? <==> RecordFits(r, before, after)
  {
  }

  /** A retirement is accepted exactly when the three documents name the same two task sets, the bridge
      counts them right, no category has fewer tasks than before, and the records retire what went and
      fit one by one. */
  lemma AcceptedIff(manifest: Manifest, bridge: Bridge, before: TaskSet, after: TaskSet)
    ensures Accepted(manifest, bridge, before, after) <==>
      && manifest.before == before.binding == bridge.before && manifest.after == after.binding == bridge.after
      && CountsOf(bridge.coverageBefore, before.entries) && CountsOf(bridge.coverageAfter, after.entries)
      && (forall category: Category :: |Tasks(before.entries, category)| <= |Tasks(after.entries, category)|)
      && RetiresWhatWent(manifest.records, before.entries, after.entries)
      && (forall r :: r in manifest.records ==> RecordFits(r, before.entries, after.entries))
  {
    hide CheckRecord, RecordFits, RetiredIds, Removed, RetiresWhatWent, Snapshot, CountsOf;
    SnapshotIff(bridge.coverageBefore, before.entries);
    SnapshotIff(bridge.coverageAfter, after.entries);
    RetiresIff(manifest.records, before.entries, after.entries);
    forall category: Category
      ensures Count(before.entries, category) == |Tasks(before.entries, category)|
      ensures Count(after.entries, category) == |Tasks(after.entries, category)|
    {
    }
    forall r ensures CheckRecord(r, before.entries, after.entries).None? <==> RecordFits(r, before.entries, after.entries) {
      RecordFitsIff(r, before.entries, after.entries);
    }
  }

  /** A refused record has the defect its refusal names, and none that is looked for earlier. */
  lemma RefusalMeans(r: Record, before: Entries, after: Entries)
    requires CheckRecord(r, before, after).Some?
    ensures
      var retiredKnown := r.retiredId in before && before[r.retiredId].digest == r.retiredDigest;
      var replacementKnown := r.replacementId in after && after[r.replacementId].digest == r.replacementDigest;
      var isNew := !(r.replacementId in before && before[r.replacementId].digest == r.replacementDigest);
      var named := r.replacementId != r.retiredId || r.reason == MajorTaskSetRelease;
      match CheckRecord(r, before, after).value
      case UnknownRetired(id) => id == r.retiredId && !retiredKnown
      case UnknownReplacement(id) => id == r.replacementId && retiredKnown && !replacementKnown
      case ReplacementNotNew(id) => id == r.replacementId && retiredKnown && replacementKnown && !isNew
      case SameIdNeedsMajorRelease(id) =>
        id == r.retiredId && retiredKnown && replacementKnown && isNew && !named
      case CategoryNotPreserved(id) =>
        id == r.retiredId && retiredKnown && replacementKnown && isNew && named
        && before[r.retiredId].category != after[r.replacementId].category
      case PublicationMismatch(id) =>
        id == r.retiredId && retiredKnown && replacementKnown && isNew && named
        && before[r.retiredId].category == after[r.replacementId].category
        && (r.publication.provenance != before[r.retiredId].provenance
            || r.publication.license != before[r.retiredId].license)
      case _ => false
  {
  }
}
