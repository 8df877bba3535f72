/** What the runner makes of verifier checks, rewards and receipts, stated on the checks, the reward
    vector and the report alone. */
module EvidenceFacts {
  import opened Sequences
  import opened Wrappers
  import opened Gates
  import opened Receipts
  import opened Verdicts

  // ----- Checks

  ghost predicate Checked(checks: seq<Check>, gate: Gate) {
    exists k :: k in checks && k.gate == gate
  }

  ghost predicate NoneFails(checks: seq<Check>, gate: Gate) {
    forall k :: k in checks && k.gate == gate ==> k.passed
  }

  /** The ids of a gate's checks, in the order of the checks. */
  function IdsInOrder(checks: seq<Check>, gate: Gate): seq<string> {
    if checks == [] then []
    else
      var last := checks[|checks| - 1];
      IdsInOrder(checks[..|checks| - 1], gate) + if last.gate == gate then [last.id] else []
  }

  lemma CheckFactsAgree(checks: seq<Check>, gate: Gate)
    ensures HasChecks(checks, gate) <==> Checked(checks, gate)
    ensures GatePasses(checks, gate) <==> NoneFails(checks, gate)
  {
  }

  lemma {:induction false} ChecksOfLast(checks: seq<Check>, gate: Gate)
    requires checks != []
    ensures
      var last := checks[|checks| - 1];
      ChecksOf(checks, gate) == ChecksOf(checks[..|checks| - 1], gate) + if last.gate == gate then [last] else []
    decreases |checks|
  {
    var n := |checks| - 1;
    if n > 0 {
      ChecksOfLast(checks[1..], gate);
      assert checks[1..][..n - 1] == checks[..n][1..];
      assert checks[..n][0] == checks[0];
    } else {
      assert checks[1..] == [] && checks[..0] == [];
    }
  }

  lemma {:induction false} IdsAgree(checks: seq<Check>, gate: Gate)
    ensures Ids(ChecksOf(checks, gate)) == IdsInOrder(checks, gate)
  {
    hide ChecksOf;
    if checks != [] {
      IdsAgree(checks[..|checks| - 1], gate);
      ChecksOfLast(checks, gate);
    } else {
      NoChecks(gate);
    }
  }

  lemma NoChecks(gate: Gate)
    ensures ChecksOf([], gate) == []
  {
  }

  /** The outcome of one gate. */
  ghost predicate OutcomeFits(o: GateOutcome, applicable: seq<Gate>, checks: seq<Check>, receiptValid: bool) {
    && (o.status == NotApplicable <==> o.gate !in applicable)
    && (o.status == Passed <==>
          && o.gate in applicable && Checked(checks, o.gate) && NoneFails(checks, o.gate)
          && (o.gate == EvidenceReceipt ==> receiptValid))
    && o.checkIds == if o.gate in applicable then IdsInOrder(checks, o.gate) else []
  }

  lemma OutcomesFit(applicable: seq<Gate>, checks: seq<Check>, receiptValid: bool, i: nat)
    requires i < |GATES|
    ensures OutcomeFits(Outcomes(Elements(applicable), checks, receiptValid, GATES)[i], applicable, checks, receiptValid)
  {
    hide ChecksOf, HasChecks, GatePasses, Checked, NoneFails, Ids, AllPass, GATES, IdsInOrder;
    var gate := GATES[i];
    CheckFactsAgree(checks, gate);
    ChecksOfMeans(checks, gate);
    IdsAgree(checks, gate);
    NoIds();
  }

  lemma NoIds()
    ensures Ids([]) == []
  {
  }

  // ----- Rewards

  /** One for a gate whose checks all pass and zero for one that has a failing check, and one in all
      when none fails; no other key. */
  lemma RewardsAre(checks: seq<Check>)
    ensures forall key :: key in RewardsOf(checks) <==> key == Completion || (key.GateKey? && Checked(checks, key.gate))
    ensures forall gate :: Checked(checks, gate) ==>
      RewardsOf(checks)[GateKey(gate)] == if NoneFails(checks, gate) then 1 else 0
    ensures RewardsOf(checks)[Completion] == if forall k :: k in checks ==> k.passed then 1 else 0
  {
    forall gate: Gate ensures GateKey(gate) in GateKeys(checks) <==> Checked(checks, gate) {
      KeyMeansChecks(checks, gate);
    }
  }

  /** The vector for these gates: one where the gate has checks and none fails, else zero. */
  ghost predicate RewardsFit(rewards: Option<Rewards>, applicable: seq<Gate>, checks: seq<Check>) {
    rewards.Some? &&
    var vector := rewards.value;
    && (forall key :: key in vector <==> key == Completion || (key.GateKey? && key.gate in applicable))
    && (forall gate :: gate in applicable ==>
          vector[GateKey(gate)] == if Checked(checks, gate) && NoneFails(checks, gate) then 1 else 0)
    && vector[Completion] ==
         if forall gate :: gate in applicable ==> Checked(checks, gate) && NoneFails(checks, gate) then 1 else 0
  }

  /** The runner accepts exactly the fitting vector, whether or not the gates are covered. */
  lemma RewardsFitIff(rewards: Option<Rewards>, applicable: seq<Gate>, checks: seq<Check>)
    ensures RewardErrors(Outcomes(Elements(applicable), checks, true, GATES), rewards) == []
      <==> RewardsFit(rewards, applicable, checks)
  {
    hide Outcomes, GATES, Checked, NoneFails, GateErrors, IdsInOrder, Expected, AllApplicablePass;
    GatesListEvery();
    OutcomesListGates(Elements(applicable), checks, true);
    var outcomes := Outcomes(Elements(applicable), checks, true, GATES);
    forall i | 0 <= i < |GATES|
      ensures outcomes[i].gate == GATES[i] && OutcomeFits(outcomes[i], applicable, checks, true)
    {
      OutcomesFit(applicable, checks, true, i);
      assert GatesOf(outcomes)[i] == GATES[i];
    }
    if rewards.Some? {
      VectorFitsIff(rewards.value, outcomes, applicable, checks, GATES);
    }
  }

  lemma VectorFitsIff(vector: Rewards, outcomes: seq<GateOutcome>, applicable: seq<Gate>, checks: seq<Check>,
                      gates: seq<Gate>)
    requires ListsEveryGate(gates) && |outcomes| == |gates|
    requires forall i :: 0 <= i < |gates| ==>
      outcomes[i].gate == gates[i] && OutcomeFits(outcomes[i], applicable, checks, true)
    ensures RewardErrors(outcomes, Some(vector)) == [] <==> RewardsFit(Some(vector), applicable, checks)
  {
    hide Checked, NoneFails, GateErrors, IdsInOrder, Expected, AllApplicablePass;
    NoGateErrorsIff(outcomes, vector);
    KeysExpected(outcomes, applicable, checks, gates);
    AllPassIff(outcomes, applicable, checks, gates);
    GateValues(vector, outcomes, applicable, checks, gates);
    assert vector.Keys == Expected(outcomes) <==>
      forall key :: key in vector <==> key == Completion || (key.GateKey? && key.gate in applicable);
  }

  lemma KeysExpected(outcomes: seq<GateOutcome>, applicable: seq<Gate>, checks: seq<Check>, gates: seq<Gate>)
    requires ListsEveryGate(gates) && |outcomes| == |gates|
    requires forall i :: 0 <= i < |gates| ==>
      outcomes[i].gate == gates[i] && OutcomeFits(outcomes[i], applicable, checks, true)
    ensures forall key :: key in Expected(outcomes) <==> key == Completion || (key.GateKey? && key.gate in applicable)
  {
    hide Checked, NoneFails, IdsInOrder;
    forall key ensures key in Expected(outcomes) <==> key == Completion || (key.GateKey? && key.gate in applicable) {
      if key.GateKey? {
        assert key.gate in gates;
        var i :| 0 <= i < |gates| && gates[i] == key.gate;
        assert outcomes[i] in outcomes;
      }
    }
  }

  lemma AllPassIff(outcomes: seq<GateOutcome>, applicable: seq<Gate>, checks: seq<Check>, gates: seq<Gate>)
    requires ListsEveryGate(gates) && |outcomes| == |gates|
    requires forall i :: 0 <= i < |gates| ==>
      outcomes[i].gate == gates[i] && OutcomeFits(outcomes[i], applicable, checks, true)
    ensures AllApplicablePass(outcomes) <==>
      forall gate :: gate in applicable ==> Checked(checks, gate) && NoneFails(checks, gate)
  {
    hide Checked, NoneFails, IdsInOrder;
    if AllApplicablePass(outcomes) {
      forall gate | gate in applicable ensures Checked(checks, gate) && NoneFails(checks, gate) {
        assert gate in gates;
        var i :| 0 <= i < |gates| && gates[i] == gate;
        assert outcomes[i].status == Passed;
      }
    }
  }

  lemma GateValues(vector: Rewards, outcomes: seq<GateOutcome>, applicable: seq<Gate>, checks: seq<Check>,
                      gates: seq<Gate>)
    requires ListsEveryGate(gates) && |outcomes| == |gates|
    requires forall i :: 0 <= i < |gates| ==>
      outcomes[i].gate == gates[i] && OutcomeFits(outcomes[i], applicable, checks, true)
    ensures
      (forall i :: 0 <= i < |outcomes| && outcomes[i].status != NotApplicable ==>
         GateKey(outcomes[i].gate) in vector && vector[GateKey(outcomes[i].gate)] == AsReward(outcomes[i].status == Passed))
      <==> forall gate :: gate in applicable ==>
         GateKey(gate) in vector
         && vector[GateKey(gate)] == if Checked(checks, gate) && NoneFails(checks, gate) then 1 else 0
  {
    hide Checked, NoneFails, IdsInOrder;
    if forall i :: 0 <= i < |outcomes| && outcomes[i].status != NotApplicable ==>
         GateKey(outcomes[i].gate) in vector && vector[GateKey(outcomes[i].gate)] == AsReward(outcomes[i].status == Passed)
    {
      forall gate | gate in applicable
        ensures GateKey(gate) in vector
        ensures vector[GateKey(gate)] == if Checked(checks, gate) && NoneFails(checks, gate) then 1 else 0
      {
        assert gate in gates;
        var i :| 0 <= i < |gates| && gates[i] == gate;
        assert outcomes[i].status != NotApplicable;
      }
    }
  }

  // ----- Receipts

  ghost predicate Claimed(claims: seq<Claim>, gate: Gate) {
    exists c :: c in claims && c.gate == gate
  }

  /** The claim names all checks of its gate and nothing else, and says what they say. */
  ghost predicate ClaimFits(claim: Claim, uncertain: bool, checks: seq<Check>) {
    && (forall id :: id in claim.evidenceIds <==> exists k :: k in checks && k.gate == claim.gate && k.id == id)
    && (claim.status == ClaimPassed ==> NoneFails(checks, claim.gate))
    && (claim.status == ClaimFailed ==> !NoneFails(checks, claim.gate))
    && (claim.status == ClaimUncertain ==> uncertain)
  }

  /** The command was captured as reported, and some claim names it. */
  ghost predicate CommandFits(c: Command, claims: seq<Claim>, checks: seq<Check>) {
    && (exists k :: k in checks && k.id == c.id && k.command == c.command && k.exitCode == c.exitCode)
    && (exists claim :: claim in claims && c.id in claim.evidenceIds)
  }

  ghost predicate ReportFits(r: Report, applicable: seq<Gate>, v: Verification) {
    && r.taskDigest == v.taskDigest && r.baseRevision == v.baseRevision && r.finalRevision == v.finalRevision
    && (forall gate :: Claimed(r.claims, gate) <==> gate in applicable)
    && (forall c :: c in r.claims ==> ClaimFits(c, r.uncertain, v.checks))
    && (forall c :: c in r.commands ==> CommandFits(c, r.claims, v.checks))
  }

  lemma ClaimFitsIff(claim: Claim, uncertain: bool, checks: seq<Check>)
    ensures FaithfulClaim(claim, uncertain, checks) <==> ClaimFits(claim, uncertain, checks)
  {
    hide GatePasses, NoneFails;
    CheckFactsAgree(checks, claim.gate);
    var named, mine := Elements(claim.evidenceIds), IdsOfGate(checks, claim.gate);
    forall id ensures id in mine <==> exists k :: k in checks && k.gate == claim.gate && k.id == id {
    }
    assert named == mine <==> forall id :: id in named <==> id in mine;
    assert forall id :: id in named <==> id in claim.evidenceIds;
  }

  lemma ReportFitsIff(r: Report, applicable: seq<Gate>, v: Verification)
    ensures Faithful(r, applicable, v) <==> ReportFits(r, applicable, v)
  {
    hide FaithfulClaim, ClaimFits;
    forall c | c in r.claims ensures FaithfulClaim(c, r.uncertain, v.checks) <==> ClaimFits(c, r.uncertain, v.checks) {
      ClaimFitsIff(c, r.uncertain, v.checks);
    }
    var claimed, asked := ClaimedGates(r.claims), Elements(applicable);
    assert claimed == asked <==> forall gate :: gate in claimed <==> gate in asked;
    assert forall gate :: gate in claimed <==> Claimed(r.claims, gate);
    forall c ensures FaithfulCommand(c, v.checks) && c.id in ClaimedIds(r.claims) <==> CommandFits(c, r.claims, v.checks) {
    }
  }

  /** The report lies there as a regular file, is readable, and fits. */
  ghost predicate ReceiptFits(file: ReceiptFile, applicable: seq<Gate>, v: Verification) {
    file.ReceiptReadable? && ReportFits(file.report, applicable, v)
  }

  /** What the bundle says of the receipt: present unless absent, valid if it fits, and the digest of
      what was read; and whether it makes the run invalid. */
  lemma ReceiptIs(file: ReceiptFile, applicable: seq<Gate>, v: Verification)
    requires UniqueIds(v.checks) && (file.ReceiptReadable? ==> OneClaimPerGate(file.report.claims))
    ensures
      var (receipt, invalid) := ReceiptOf(file, applicable, v);
      && (receipt.present <==> !file.ReceiptAbsent?)
      && (receipt.valid <==> ReceiptFits(file, applicable, v))
      && (invalid <==> !file.ReceiptAbsent? && !ReceiptFits(file, applicable, v))
      && receipt.sha256 == match file
           case ReceiptReadable(digest, _) => Some(digest)
           case ReceiptUnreadable(digest) => Some(digest)
           case _ => None
  {
    hide Faithful, ReportErrors, ReportFits, UniqueIds, OneClaimPerGate;
    ReceiptOfMeans(file, applicable, v);
    if file.ReceiptReadable? {
      ReportFitsIff(file.report, applicable, v);
    }
  }
}
