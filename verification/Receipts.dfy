/** Validation of the agent's receipt against the trusted verifier evidence. */
module Receipts {
  import opened Sequences
  import opened Wrappers
  import opened Gates

  datatype ClaimStatus = ClaimPassed | ClaimFailed | ClaimUncertain

  datatype Claim = Claim(gate: Gate, status: ClaimStatus, evidenceIds: seq<string>)

  datatype Command = Command(id: string, command: string, exitCode: int)

  /** `uncertain` tells whether the report records any uncertainty. */
  datatype Report = Report(
    taskDigest: string, baseRevision: string, finalRevision: string,
    claims: seq<Claim>, commands: seq<Command>, uncertain: bool)

  datatype Verification = Verification(
    taskDigest: string, baseRevision: string, finalRevision: string, checks: seq<Check>)

  /** What lies at the report path. */
  datatype ReceiptFile =
    | ReceiptSymlink
    | ReceiptAbsent
    | ReceiptUnreadable(digest: string)
    | ReceiptReadable(digest: string, report: Report)

  /** The messages the runner records. */
  datatype Note =
    | NotARegularFile
    | NotProduced
    | Unreadable
    | TaskDigestDiffers
    | BaseRevisionDiffers
    | FinalRevisionDiffers
    | GateCoverage
    | EvidenceCoverage(gate: Gate)
    | UnknownEvidence(gate: Gate)
    | EvidenceOfOtherGate(gate: Gate)
    | ContradictsFailure(gate: Gate)
    | ContradictsPass(gate: Gate)
    | NoUncertaintyRecord(gate: Gate)
    | UnknownCommand(id: string)
    | CommandDiffers(id: string)
    | CommandUnclaimed(id: string)
    | NotReached
    | ResultInvalid
    | LayoutProblem
    | IdentityDiffers
    | ChecksumDiffers
    | EvidenceSymlinked
    | EvidenceAbsent
    | EvidenceInvalid
    | VerifierTaskDigest
    | VerifierBaseRevision
    | LogAbsent(path: string)
    | LogDiffers(path: string)
    | OutcomeNote(outcomeError: OutcomeError)
    | RewardNote(rewardError: RewardError)
    | RewardArtifactAbsent
    | RewardArtifactInvalid
    | RewardArtifactDiffers
    | StoppedEarly
    | ProcessFailed(exitCode: int)

  datatype Receipt = Receipt(present: bool, valid: bool, sha256: Option<string>, errors: seq<Note>)

  // ----- Lookups

  /** The check with this id; of several, the last, as when a dictionary is built from them. */
  function CheckById(checks: seq<Check>, id: string): Option<Check> {
    if checks == [] then None
    else
      var last := checks[|checks| - 1];
      if last.id == id then Some(last) else CheckById(checks[..|checks| - 1], id)
  }

  /** The claim on this gate; of several, the last. */
  function ClaimFor(claims: seq<Claim>, gate: Gate): Option<Claim> {
    if claims == [] then None
    else
      var last := claims[|claims| - 1];
      if last.gate == gate then Some(last) else ClaimFor(claims[..|claims| - 1], gate)
  }

  function IdsOfGate(checks: seq<Check>, gate: Gate): set<string> {
    set c | c in checks && c.gate == gate :: c.id
  }

  function ClaimedGates(claims: seq<Claim>): set<Gate> {
    set c | c in claims :: c.gate
  }

  function ClaimedIds(claims: seq<Claim>): set<string> {
    set c, id | c in claims && id in c.evidenceIds :: id
  }

  // ----- The checks on a readable report

  function RevisionErrors(r: Report, v: Verification): seq<Note> {
    (if r.taskDigest != v.taskDigest then [TaskDigestDiffers] else [])
    + (if r.baseRevision != v.baseRevision then [BaseRevisionDiffers] else [])
    + (if r.finalRevision != v.finalRevision then [FinalRevisionDiffers] else [])
  }

  predicate AllKnown(ids: seq<string>, checks: seq<Check>) {
    forall id :: id in ids ==> CheckById(checks, id).Some?
  }

  predicate AllOfGate(ids: seq<string>, checks: seq<Check>, gate: Gate)
    requires AllKnown(ids, checks)
  {
    forall id :: id in ids ==> CheckById(checks, id).value.gate == gate
  }

  predicate ObservedPass(ids: seq<string>, checks: seq<Check>)
    requires AllKnown(ids, checks)
  {
    forall id :: id in ids ==> CheckById(checks, id).value.passed
  }

  function ClaimErrors(claim: Claim, uncertain: bool, checks: seq<Check>): seq<Note> {
    var gate := claim.gate;
    (if Elements(claim.evidenceIds) != IdsOfGate(checks, gate) then [EvidenceCoverage(gate)] else [])
    + (if !AllKnown(claim.evidenceIds, checks) then [UnknownEvidence(gate)]
       else if !AllOfGate(claim.evidenceIds, checks, gate) then [EvidenceOfOtherGate(gate)]
       else
         var pass := ObservedPass(claim.evidenceIds, checks);
         (if claim.status == ClaimPassed && !pass then [ContradictsFailure(gate)] else [])
         + (if claim.status == ClaimFailed && pass then [ContradictsPass(gate)] else [])
         + (if claim.status == ClaimUncertain && !uncertain then [NoUncertaintyRecord(gate)] else []))
  }

  function GateClaimErrors(r: Report, checks: seq<Check>, gate: Gate): seq<Note> {
    match ClaimFor(r.claims, gate)
    case None => []
    case Some(claim) => ClaimErrors(claim, r.uncertain, checks)
  }

  function AllClaimErrors(r: Report, checks: seq<Check>, gates: seq<Gate>): seq<Note> {
    if gates == [] then []
    else AllClaimErrors(r, checks, gates[..|gates| - 1]) + GateClaimErrors(r, checks, gates[|gates| - 1])
  }

  function CommandError(c: Command, checks: seq<Check>): seq<Note> {
    match CheckById(checks, c.id)
    case None => [UnknownCommand(c.id)]
    case Some(check) =>
      if check.command != c.command || check.exitCode != c.exitCode then [CommandDiffers(c.id)] else []
  }

  function CommandErrors(commands: seq<Command>, checks: seq<Check>): seq<Note> {
    if commands == [] then []
    else CommandErrors(commands[..|commands| - 1], checks) + CommandError(commands[|commands| - 1], checks)
  }

  function UnclaimedErrors(commands: seq<Command>, claimed: set<string>): seq<Note> {
    if commands == [] then []
    else
      var last := commands[|commands| - 1];
      UnclaimedErrors(commands[..|commands| - 1], claimed)
      + if last.id !in claimed then [CommandUnclaimed(last.id)] else []
  }

  function ReportErrors(r: Report, applicable: seq<Gate>, v: Verification): seq<Note> {
    RevisionErrors(r, v)
    + (if ClaimedGates(r.claims) != Elements(applicable) then [GateCoverage] else [])
    + AllClaimErrors(r, v.checks, applicable)
    + CommandErrors(r.commands, v.checks)
    + UnclaimedErrors(r.commands, ClaimedIds(r.claims))
  }

  /** The receipt, and whether it makes the run invalid. A missing report does not. */
  function ReceiptOf(file: ReceiptFile, applicable: seq<Gate>, v: Verification): (Receipt, bool) {
    match file
    case ReceiptSymlink => (Receipt(true, false, None, [NotARegularFile]), true)
    case ReceiptAbsent => (Receipt(false, false, None, [NotProduced]), false)
    case ReceiptUnreadable(digest) => (Receipt(true, false, Some(digest), [Unreadable]), true)
    case ReceiptReadable(digest, report) =>
      var errors := ReportErrors(report, applicable, v);
      (Receipt(true, errors == [], Some(digest), errors), errors != [])
  }

  /** The loop over the applicable gates. */
  method CheckClaims(report: Report, applicable: seq<Gate>, checks: seq<Check>) returns (errors: seq<Note>)
    ensures errors == AllClaimErrors(report, checks, applicable)
  {
    hide ClaimErrors;
    errors := [];
    for i := 0 to |applicable|
      invariant errors == AllClaimErrors(report, checks, applicable[..i])
    {
      assert applicable[..i + 1][..i] == applicable[..i];
      var claim := ClaimFor(report.claims, applicable[i]);
      if claim.None? {
        continue;
      }
      errors := errors + ClaimErrors(claim.value, report.uncertain, checks);
    }
    assert applicable[..|applicable|] == applicable;
  }

  /** The two loops over the report's commands. */
  method CheckCommands(commands: seq<Command>, claimed: set<string>, checks: seq<Check>)
    returns (errors: seq<Note>, unclaimed: seq<Note>)
    ensures errors == CommandErrors(commands, checks)
    ensures unclaimed == UnclaimedErrors(commands, claimed)
  {
    hide CommandError;
    errors, unclaimed := [], [];
    for i := 0 to |commands|
      invariant errors == CommandErrors(commands[..i], checks)
    {
      assert commands[..i + 1][..i] == commands[..i];
      errors := errors + CommandError(commands[i], checks);
    }
    for i := 0 to |commands|
      invariant unclaimed == UnclaimedErrors(commands[..i], claimed)
    {
      assert commands[..i + 1][..i] == commands[..i];
      if commands[i].id !in claimed {
        unclaimed := unclaimed + [CommandUnclaimed(commands[i].id)];
      }
    }
    assert commands[..|commands|] == commands;
  }

  method CheckReport(report: Report, applicable: seq<Gate>, v: Verification) returns (errors: seq<Note>)
    ensures errors == ReportErrors(report, applicable, v)
  {
    hide AllClaimErrors, CommandErrors, UnclaimedErrors;
    errors := [];
    if report.taskDigest != v.taskDigest {
      errors := errors + [TaskDigestDiffers];
    }
    if report.baseRevision != v.baseRevision {
      errors := errors + [BaseRevisionDiffers];
    }
    if report.finalRevision != v.finalRevision {
      errors := errors + [FinalRevisionDiffers];
    }
    if ClaimedGates(report.claims) != Elements(applicable) {
      errors := errors + [GateCoverage];
    }
    var claims := CheckClaims(report, applicable, v.checks);
    var commands, unclaimed := CheckCommands(report.commands, ClaimedIds(report.claims), v.checks);
    errors := errors + claims + commands + unclaimed;
  }

  method ValidateReceipt(file: ReceiptFile, applicable: seq<Gate>, v: Verification)
    returns (receipt: Receipt, invalid: bool)
    ensures (receipt, invalid) == ReceiptOf(file, applicable, v)
  {
    if file.ReceiptSymlink? {
      return Receipt(true, false, None, [NotARegularFile]), true;
    }
    if file.ReceiptAbsent? {
      return Receipt(false, false, None, [NotProduced]), false;
    }
    if file.ReceiptUnreadable? {
      return Receipt(true, false, Some(file.digest), [Unreadable]), true;
    }
    var errors := CheckReport(file.report, applicable, v);
    return Receipt(true, errors == [], Some(file.digest), errors), errors != [];
  }

  // ----- What an accepted report says

  predicate UniqueIds(checks: seq<Check>) {
    forall c, d :: c in checks && d in checks && c.id == d.id ==> c == d
  }

  predicate OneClaimPerGate(claims: seq<Claim>) {
    forall c, d :: c in claims && d in claims && c.gate == d.gate ==> c == d
  }

  /** The claim names all of its gate's checks and says of them what they say. */
  ghost predicate FaithfulClaim(claim: Claim, uncertain: bool, checks: seq<Check>) {
    && Elements(claim.evidenceIds) == IdsOfGate(checks, claim.gate)
    && match claim.status
       case ClaimPassed => GatePasses(checks, claim.gate)
       case ClaimFailed => !GatePasses(checks, claim.gate)
       case ClaimUncertain => uncertain
  }

  ghost predicate FaithfulCommand(c: Command, checks: seq<Check>) {
    exists check :: check in checks && check.id == c.id && check.command == c.command && check.exitCode == c.exitCode
  }

  ghost predicate Faithful(r: Report, applicable: seq<Gate>, v: Verification) {
    && r.taskDigest == v.taskDigest && r.baseRevision == v.baseRevision && r.finalRevision == v.finalRevision
    && ClaimedGates(r.claims) == Elements(applicable)
    && (forall c :: c in r.claims ==> FaithfulClaim(c, r.uncertain, v.checks))
    && (forall c :: c in r.commands ==> FaithfulCommand(c, v.checks) && c.id in ClaimedIds(r.claims))
  }

  lemma {:induction false} CheckByIdMeans(checks: seq<Check>, id: string)
    requires UniqueIds(checks)
    ensures match CheckById(checks, id)
      case None => forall c :: c in checks ==> c.id != id
      case Some(check) => check in checks && check.id == id
  {
    if checks != [] {
      var n := |checks| - 1;
      assert checks == checks[..n] + [checks[n]];
      if checks[n].id != id {
        CheckByIdMeans(checks[..n], id);
      }
    }
  }

  lemma {:induction false} ClaimForMeans(claims: seq<Claim>, gate: Gate)
    ensures match ClaimFor(claims, gate)
      case None => gate !in ClaimedGates(claims)
      case Some(claim) => claim in claims && claim.gate == gate
  {
    if claims != [] {
      var n := |claims| - 1;
      assert claims == claims[..n] + [claims[n]];
      if claims[n].gate != gate {
        ClaimForMeans(claims[..n], gate);
      }
    }
  }

  lemma ClaimErrorsIff(claim: Claim, uncertain: bool, checks: seq<Check>)
    requires UniqueIds(checks)
    ensures ClaimErrors(claim, uncertain, checks) == [] <==> FaithfulClaim(claim, uncertain, checks)
  {
    hide CheckById, UniqueIds;
    var ids, gate := claim.evidenceIds, claim.gate;
    if Elements(ids) == IdsOfGate(checks, gate) {
      forall id | id in ids
        ensures CheckById(checks, id).Some? && CheckById(checks, id).value.gate == gate
        ensures CheckById(checks, id).value in checks
      {
        assert id in Elements(ids);
        var c :| c in checks && c.gate == gate && c.id == id;
        IdFindsCheck(checks, c);
      }
      assert ObservedPass(ids, checks) <==> GatePasses(checks, gate) by {
        forall c | c in checks && c.gate == gate ensures c.id in ids && CheckById(checks, c.id) == Some(c) {
          assert c.id in IdsOfGate(checks, gate) && c.id in Elements(ids);
          IdFindsCheck(checks, c);
        }
      }
    }
  }

  lemma IdFindsCheck(checks: seq<Check>, c: Check)
    requires UniqueIds(checks) && c in checks
    ensures CheckById(checks, c.id) == Some(c)
  {
    CheckByIdMeans(checks, c.id);
  }

  lemma {:induction false} AllClaimErrorsIff(r: Report, checks: seq<Check>, gates: seq<Gate>)
    ensures AllClaimErrors(r, checks, gates) == [] <==>
      forall gate :: gate in gates ==> GateClaimErrors(r, checks, gate) == []
  {
    hide GateClaimErrors;
    if gates != [] {
      var n := |gates| - 1;
      AllClaimErrorsIff(r, checks, gates[..n]);
      assert gates == gates[..n] + [gates[n]];
    }
  }

  lemma CommandErrorIff(c: Command, checks: seq<Check>)
    requires UniqueIds(checks)
    ensures CommandError(c, checks) == [] <==> FaithfulCommand(c, checks)
  {
    CheckByIdMeans(checks, c.id);
  }

  lemma {:induction false} CommandErrorsIff(commands: seq<Command>, checks: seq<Check>, claimed: set<string>)
    requires UniqueIds(checks)
    ensures CommandErrors(commands, checks) == [] <==> forall c :: c in commands ==> FaithfulCommand(c, checks)
    ensures UnclaimedErrors(commands, claimed) == [] <==> forall c :: c in commands ==> c.id in claimed
  {
    hide CommandError, FaithfulCommand, UniqueIds;
    if commands != [] {
      var n := |commands| - 1;
      CommandErrorsIff(commands[..n], checks, claimed);
      CommandErrorIff(commands[n], checks);
      assert commands == commands[..n] + [commands[n]];
    }
  }

  /** A readable report is valid exactly when it is faithful to the evidence. */
  lemma ReportIsValidIff(r: Report, applicable: seq<Gate>, v: Verification)
    requires UniqueIds(v.checks) && OneClaimPerGate(r.claims)
    ensures ReportErrors(r, applicable, v) == [] <==> Faithful(r, applicable, v)
  {
    hide ClaimErrors, FaithfulClaim, FaithfulCommand, CommandErrors, UnclaimedErrors, AllClaimErrors,
      UniqueIds, ClaimFor;
    AllClaimErrorsIff(r, v.checks, applicable);
    CommandErrorsIff(r.commands, v.checks, ClaimedIds(r.claims));
    forall c | c in r.claims
      ensures ClaimErrors(c, r.uncertain, v.checks) == [] <==> FaithfulClaim(c, r.uncertain, v.checks)
      ensures ClaimFor(r.claims, c.gate) == Some(c)
    {
      ClaimErrorsIff(c, r.uncertain, v.checks);
      ClaimForMeans(r.claims, c.gate);
      assert c.gate in ClaimedGates(r.claims);
    }
    if ClaimedGates(r.claims) == Elements(applicable) {
      forall c | c in r.claims ensures c.gate in applicable {
        assert c.gate in ClaimedGates(r.claims) && c.gate in Elements(applicable);
      }
      forall gate | gate in applicable ensures exists c :: c in r.claims && c.gate == gate {
        assert gate in Elements(applicable) && gate in ClaimedGates(r.claims);
      }
    }
  }
}
