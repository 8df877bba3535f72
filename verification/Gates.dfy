/** Completion gates, the checks that decide them, and the rewards derived from the checks. */
module Gates {
  import opened Sequences
  import opened Wrappers

  datatype Gate =
    | RequestedBehavior
    | Regressions
    | BuildAndTypes
    | Authority
    | VerifierIntegrity
    | SafetyTypeEscapes
    | EvidenceReceipt

  const GATES: seq<Gate> := [
    RequestedBehavior, Regressions, BuildAndTypes, Authority, VerifierIntegrity, SafetyTypeEscapes, EvidenceReceipt]

  datatype Status = Passed | Failed | NotApplicable

  datatype GateOutcome = GateOutcome(gate: Gate, status: Status, checkIds: seq<string>)

  datatype Check = Check(
    id: string, gate: Gate, passed: bool, command: string, exitCode: int, logPath: string, logSha256: string)

  /** A key of a reward vector: a gate's name, the completion reward, or anything else. */
  datatype RewardKey = GateKey(gate: Gate) | Completion | OtherKey(text: string)

  type Rewards = map<RewardKey, int>

  predicate HasChecks(checks: seq<Check>, gate: Gate) {
    exists c :: c in checks && c.gate == gate
  }

  /** Every check of the gate passed (also when it has none). */
  predicate GatePasses(checks: seq<Check>, gate: Gate) {
    forall c :: c in checks && c.gate == gate ==> c.passed
  }

  predicate AllPass(checks: seq<Check>) {
    forall c :: c in checks ==> c.passed
  }

  function AsReward(b: bool): int {
    if b then 1 else 0
  }

  predicate ListsEveryGate(gates: seq<Gate>) {
    forall gate: Gate :: gate in gates
  }

  lemma GatesListEvery()
    ensures ListsEveryGate(GATES)
    ensures |GATES| == 7 && forall i, j :: 0 <= i < j < |GATES| ==> GATES[i] != GATES[j]
  {
    forall gate: Gate ensures gate in GATES {
      assert gate == GATES[0] || gate == GATES[1] || gate == GATES[2] || gate == GATES[3]
          || gate == GATES[4] || gate == GATES[5] || gate == GATES[6];
    }
  }

  // ----- The verifier's rewards

  function GateKeys(checks: seq<Check>): set<RewardKey> {
    set c | c in checks :: GateKey(c.gate)
  }

  /** A gate earns its reward when all its checks pass. */
  function RewardFor(checks: seq<Check>, key: RewardKey): int {
    match key
    case GateKey(gate) => AsReward(GatePasses(checks, gate))
    case _ => AsReward(AllPass(checks))
  }

  function GateRewards(checks: seq<Check>): Rewards {
    map key | key in GateKeys(checks) :: RewardFor(checks, key)
  }

  /** One reward per gate that has checks, and one for completion. */
  function RewardsOf(checks: seq<Check>): Rewards {
    map key | key in GateKeys(checks) + {Completion} :: RewardFor(checks, key)
  }

  /** Bitwise conjunction on zero and one. */
  function BitAnd(a: int, b: int): int {
    if a == 1 && b == 1 then 1 else 0
  }

  /** The verifier's loop over its commands: a check passes when its command exits with zero. */
  method AccumulateRewards(commands: seq<Check>) returns (evidence: seq<Check>, rewards: Rewards)
    ensures |evidence| == |commands|
    ensures forall i :: 0 <= i < |commands| ==> evidence[i] == commands[i].(passed := commands[i].exitCode == 0)
    ensures rewards == RewardsOf(evidence)
  {
    evidence := [];
    rewards := map[];
    for i := 0 to |commands|
      invariant |evidence| == i
      invariant forall j :: 0 <= j < i ==> evidence[j] == commands[j].(passed := commands[j].exitCode == 0)
      invariant rewards == GateRewards(evidence)
    {
      hide GateRewards;
      var passed := commands[i].exitCode == 0;
      var check := commands[i].(passed := passed);
      var key := GateKey(check.gate);
      OneMoreReward(evidence, check);
      var sofar := if key in rewards then rewards[key] else 1;
      rewards := rewards[key := BitAnd(sofar, AsReward(passed))];
      evidence := evidence + [check];
    }
    AllRewardsPass(evidence);
    var all := forall key :: key in rewards ==> rewards[key] != 0;
    rewards := rewards[Completion := AsReward(all)];
    assert rewards == RewardsOf(evidence);
  }

  lemma GatePassesMore(checks: seq<Check>, check: Check, gate: Gate)
    ensures GatePasses(checks + [check], gate) <==> GatePasses(checks, gate) && (gate == check.gate ==> check.passed)
  {
    var all := checks + [check];
    assert check in all && forall c :: c in all <==> c in checks || c == check;
  }

  lemma OneMoreReward(checks: seq<Check>, check: Check)
    ensures
      var before, key := GateRewards(checks), GateKey(check.gate);
      var sofar := if key in before then before[key] else 1;
      GateRewards(checks + [check]) == before[key := BitAnd(sofar, AsReward(check.passed))]
  {
    var all, key := checks + [check], GateKey(check.gate);
    assert forall c :: c in all <==> c in checks || c == check;
    assert GateKeys(all) == GateKeys(checks) + {key};
    forall k | k in GateKeys(checks) && k != key ensures RewardFor(all, k) == RewardFor(checks, k) {
      GatePassesMore(checks, check, k.gate);
    }
    GatePassesMore(checks, check, check.gate);
    if key !in GateKeys(checks) {
      forall c | c in checks ensures c.gate != check.gate {
        assert GateKey(c.gate) in GateKeys(checks);
      }
    }
  }

  lemma AllRewardsPass(checks: seq<Check>)
    ensures (forall key :: key in GateRewards(checks) ==> GateRewards(checks)[key] != 0) <==> AllPass(checks)
  {
    var rewards := GateRewards(checks);
    if !AllPass(checks) {
      var c :| c in checks && !c.passed;
      assert GateKey(c.gate) in rewards && rewards[GateKey(c.gate)] == 0;
    }
  }

  // ----- The runner's outcomes

  datatype OutcomeError = NotApplicableHasChecks(gate: Gate) | ApplicableHasNoCheck(gate: Gate)

  function ChecksOf(checks: seq<Check>, gate: Gate): seq<Check> {
    if checks == [] then []
    else (if checks[0].gate == gate then [checks[0]] else []) + ChecksOf(checks[1..], gate)
  }

  function Ids(checks: seq<Check>): seq<string> {
    seq(|checks|, i requires 0 <= i < |checks| => checks[i].id)
  }

  lemma {:induction false} ChecksOfMembers(checks: seq<Check>, gate: Gate)
    ensures forall c :: c in ChecksOf(checks, gate) <==> c in checks && c.gate == gate
  {
    if checks != [] {
      ChecksOfMembers(checks[1..], gate);
      assert checks == [checks[0]] + checks[1..];
    }
  }

  lemma ChecksOfMeans(checks: seq<Check>, gate: Gate)
    ensures ChecksOf(checks, gate) != [] <==> HasChecks(checks, gate)
    ensures AllPass(ChecksOf(checks, gate)) <==> GatePasses(checks, gate)
  {
    hide ChecksOf;
    ChecksOfMembers(checks, gate);
    var mine := ChecksOf(checks, gate);
    if mine != [] {
      assert mine[0] in mine;
    }
  }

  /** The verdict on one gate. */
  function OutcomeOf(applicable: set<Gate>, checks: seq<Check>, receiptValid: bool, gate: Gate): GateOutcome {
    var mine := ChecksOf(checks, gate);
    if gate !in applicable then GateOutcome(gate, NotApplicable, [])
    else if mine == [] then GateOutcome(gate, Failed, [])
    else
      var passed := AllPass(mine) && (gate == EvidenceReceipt ==> receiptValid);
      GateOutcome(gate, if passed then Passed else Failed, Ids(mine))
  }

  function ErrorOf(applicable: set<Gate>, checks: seq<Check>, gate: Gate): seq<OutcomeError> {
    var mine := ChecksOf(checks, gate);
    if gate !in applicable then (if mine != [] then [NotApplicableHasChecks(gate)] else [])
    else if mine == [] then [ApplicableHasNoCheck(gate)]
    else []
  }

  function Outcomes(applicable: set<Gate>, checks: seq<Check>, receiptValid: bool, gates: seq<Gate>): seq<GateOutcome> {
    seq(|gates|, i requires 0 <= i < |gates| => OutcomeOf(applicable, checks, receiptValid, gates[i]))
  }

  function OutcomeErrors(applicable: set<Gate>, checks: seq<Check>, gates: seq<Gate>): seq<OutcomeError> {
    if gates == [] then []
    else OutcomeErrors(applicable, checks, gates[..|gates| - 1]) + ErrorOf(applicable, checks, gates[|gates| - 1])
  }

  method CheckOutcomes(applicable: seq<Gate>, checks: seq<Check>, receiptValid: bool)
    returns (outcomes: seq<GateOutcome>, errors: seq<OutcomeError>)
    ensures outcomes == Outcomes(Elements(applicable), checks, receiptValid, GATES)
    ensures errors == OutcomeErrors(Elements(applicable), checks, GATES)
  {
    outcomes, errors := CheckEachGate(GATES, applicable, checks, receiptValid);
  }

  lemma OneMoreGate(applicable: set<Gate>, checks: seq<Check>, receiptValid: bool, gates: seq<Gate>, i: nat)
    requires i < |gates|
    ensures Outcomes(applicable, checks, receiptValid, gates[..i + 1])
         == Outcomes(applicable, checks, receiptValid, gates[..i]) + [OutcomeOf(applicable, checks, receiptValid, gates[i])]
    ensures OutcomeErrors(applicable, checks, gates[..i + 1])
         == OutcomeErrors(applicable, checks, gates[..i]) + ErrorOf(applicable, checks, gates[i])
  {
    hide OutcomeOf, ErrorOf;
    assert gates[..i + 1][..i] == gates[..i] && gates[..i + 1][i] == gates[i];
  }

  /** The loop over the gates, in the order they are declared. */
  method CheckEachGate(gates: seq<Gate>, applicable: seq<Gate>, checks: seq<Check>, receiptValid: bool)
    returns (outcomes: seq<GateOutcome>, errors: seq<OutcomeError>)
    ensures outcomes == Outcomes(Elements(applicable), checks, receiptValid, gates)
    ensures errors == OutcomeErrors(Elements(applicable), checks, gates)
  {
    outcomes := [];
    errors := [];
    for i := 0 to |gates|
      invariant outcomes == Outcomes(Elements(applicable), checks, receiptValid, gates[..i])
      invariant errors == OutcomeErrors(Elements(applicable), checks, gates[..i])
    {
      hide ChecksOf, AllPass, Outcomes, OutcomeErrors, Ids;
      OneMoreGate(Elements(applicable), checks, receiptValid, gates, i);
      var gate := gates[i];
      var mine := ChecksOf(checks, gate);
      if gate !in applicable {
        if mine != [] {
          errors := errors + [NotApplicableHasChecks(gate)];
        }
        outcomes := outcomes + [GateOutcome(gate, NotApplicable, [])];
        continue;
      }
      if mine == [] {
        errors := errors + [ApplicableHasNoCheck(gate)];
        outcomes := outcomes + [GateOutcome(gate, Failed, [])];
        continue;
      }
      var passed := AllPass(mine);
      if gate == EvidenceReceipt {
        passed := passed && receiptValid;
      }
      outcomes := outcomes + [GateOutcome(gate, if passed then Passed else Failed, Ids(mine))];
    }
    assert gates[..|gates|] == gates;
  }

  /** The gates with checks are exactly the applicable ones. */
  ghost predicate Covered(applicable: set<Gate>, checks: seq<Check>) {
    forall gate :: HasChecks(checks, gate) <==> gate in applicable
  }

  lemma {:induction false} NoErrorsIff(applicable: set<Gate>, checks: seq<Check>, gates: seq<Gate>)
    ensures OutcomeErrors(applicable, checks, gates) == [] <==>
      forall gate :: gate in gates ==> (HasChecks(checks, gate) <==> gate in applicable)
  {
    hide HasChecks, ChecksOf;
    if gates != [] {
      var n := |gates| - 1;
      NoErrorsIff(applicable, checks, gates[..n]);
      ChecksOfMeans(checks, gates[n]);
      assert gates == gates[..n] + [gates[n]];
    }
  }

  // ----- The runner's view of the rewards

  datatype RewardError = NoVector | KeysMismatch | GateMismatch(gate: Gate) | CompletionMismatch

  function Expected(outcomes: seq<GateOutcome>): set<RewardKey> {
    {Completion} + set o | o in outcomes && o.status != NotApplicable :: GateKey(o.gate)
  }

  function GateError(o: GateOutcome, rewards: Rewards): seq<RewardError> {
    var key := GateKey(o.gate);
    if o.status == NotApplicable || (key in rewards && rewards[key] == AsReward(o.status == Passed)) then []
    else [GateMismatch(o.gate)]
  }

  function GateErrors(outcomes: seq<GateOutcome>, rewards: Rewards): seq<RewardError> {
    if outcomes == [] then []
    else GateErrors(outcomes[..|outcomes| - 1], rewards) + GateError(outcomes[|outcomes| - 1], rewards)
  }

  lemma OneMoreGateError(outcomes: seq<GateOutcome>, i: nat, rewards: Rewards, first: seq<RewardError>)
    requires i < |outcomes|
    ensures first + GateErrors(outcomes[..i + 1], rewards)
         == first + GateErrors(outcomes[..i], rewards) + GateError(outcomes[i], rewards)
  {
    hide GateError;
    assert outcomes[..i + 1][..i] == outcomes[..i];
    Associates(first, GateErrors(outcomes[..i], rewards), GateError(outcomes[i], rewards));
  }

  predicate AllApplicablePass(outcomes: seq<GateOutcome>) {
    forall i :: 0 <= i < |outcomes| && outcomes[i].status != NotApplicable ==> outcomes[i].status == Passed
  }

  function RewardErrors(outcomes: seq<GateOutcome>, rewards: Option<Rewards>): seq<RewardError> {
    match rewards
    case None => [NoVector]
    case Some(vector) =>
      (if vector.Keys != Expected(outcomes) then [KeysMismatch] else [])
      + GateErrors(outcomes, vector)
      + (if Completion in vector && vector[Completion] == AsReward(AllApplicablePass(outcomes))
         then [] else [CompletionMismatch])
  }

  lemma NoGateErrors(outcomes: seq<GateOutcome>, rewards: Rewards)
    requires outcomes == []
    ensures GateErrors(outcomes, rewards) == []
  {
  }

  method ValidateRewards(outcomes: seq<GateOutcome>, rewards: Option<Rewards>) returns (errors: seq<RewardError>)
    ensures errors == RewardErrors(outcomes, rewards)
  {
    hide GateErrors, Expected, AllApplicablePass;
    if rewards.None? {
      return [NoVector];
    }
    var vector := rewards.value;
    errors := [];
    if vector.Keys != Expected(outcomes) {
      errors := errors + [KeysMismatch];
    }
    ghost var first := errors;
    NoGateErrors(outcomes[..0], vector);
    for i := 0 to |outcomes|
      invariant errors == first + GateErrors(outcomes[..i], vector)
    {
      var outcome := outcomes[i];
      OneMoreGateError(outcomes, i, vector, first);
      if outcome.status == NotApplicable {
        continue;
      }
      var expected := if outcome.status == Passed then 1 else 0;
      if GateKey(outcome.gate) !in vector || vector[GateKey(outcome.gate)] != expected {
        errors := errors + [GateMismatch(outcome.gate)];
      }
    }
    assert outcomes[..|outcomes|] == outcomes;
    var expectedReward := if AllApplicablePass(outcomes) then 1 else 0;
    if Completion !in vector || vector[Completion] != expectedReward {
      errors := errors + [CompletionMismatch];
    }
  }

  lemma {:induction false} NoGateErrorsIff(outcomes: seq<GateOutcome>, rewards: Rewards)
    ensures GateErrors(outcomes, rewards) == [] <==>
      forall i :: 0 <= i < |outcomes| && outcomes[i].status != NotApplicable ==>
        GateKey(outcomes[i].gate) in rewards && rewards[GateKey(outcomes[i].gate)] == AsReward(outcomes[i].status == Passed)
  {
    if outcomes != [] {
      var n := |outcomes| - 1;
      NoGateErrorsIff(outcomes[..n], rewards);
      assert forall i :: 0 <= i < n ==> outcomes[..n][i] == outcomes[i];
    }
  }

  // ----- Rewards against outcomes

  /** For each gate of the list: its outcome is applicable when the gate is, and passes when the
      gate's checks do. */
  lemma OutcomeMeans(applicable: set<Gate>, checks: seq<Check>, gates: seq<Gate>, i: nat)
    requires i < |gates| && Covered(applicable, checks)
    ensures
      var o := Outcomes(applicable, checks, true, gates)[i];
      && o.gate == gates[i]
      && (o.status == NotApplicable <==> gates[i] !in applicable)
      && (gates[i] in applicable ==> (o.status == Passed <==> GatePasses(checks, gates[i])))
  {
    hide ChecksOf, GatePasses;
    ChecksOfMeans(checks, gates[i]);
  }

  lemma CoveredAllPass(applicable: set<Gate>, checks: seq<Check>, gates: seq<Gate>)
    requires Covered(applicable, checks) && ListsEveryGate(gates)
    ensures AllApplicablePass(Outcomes(applicable, checks, true, gates)) <==> AllPass(checks)
  {
    hide Outcomes, HasChecks;
    var outcomes := Outcomes(applicable, checks, true, gates);
    OutcomesAlign(applicable, checks, gates);
    if AllApplicablePass(outcomes) {
      forall c | c in checks ensures c.passed {
        assert c.gate in gates;
        var i :| 0 <= i < |gates| && gates[i] == c.gate;
        CheckIsCounted(checks, c);
        assert outcomes[i].status == Passed;
      }
    }
  }

  lemma CheckIsCounted(checks: seq<Check>, c: Check)
    requires c in checks
    ensures HasChecks(checks, c.gate) && GateKey(c.gate) in GateKeys(checks)
  {
  }

  /** `OutcomeMeans` at every position. */
  lemma OutcomesAlign(applicable: set<Gate>, checks: seq<Check>, gates: seq<Gate>)
    requires Covered(applicable, checks)
    ensures
      var outcomes := Outcomes(applicable, checks, true, gates);
      && |outcomes| == |gates|
      && forall i :: 0 <= i < |gates| ==>
          && outcomes[i].gate == gates[i]
          && (outcomes[i].status == NotApplicable <==> gates[i] !in applicable)
          && (gates[i] in applicable ==> (outcomes[i].status == Passed <==> GatePasses(checks, gates[i])))
  {
    hide OutcomeOf, GatePasses;
    forall i | 0 <= i < |gates| {
      OutcomeMeans(applicable, checks, gates, i);
    }
  }

  lemma ExpectedKeys(applicable: set<Gate>, checks: seq<Check>, gates: seq<Gate>)
    requires Covered(applicable, checks) && ListsEveryGate(gates)
    ensures Expected(Outcomes(applicable, checks, true, gates)) == GateKeys(checks) + {Completion}
  {
    hide Outcomes, GatePasses;
    var outcomes := Outcomes(applicable, checks, true, gates);
    OutcomesAlign(applicable, checks, gates);
    forall key ensures key in Expected(outcomes) <==> key in GateKeys(checks) + {Completion} {
      if key.GateKey? {
        assert key.gate in gates;
        var i :| 0 <= i < |gates| && gates[i] == key.gate;
        assert outcomes[i] in outcomes;
        assert key in GateKeys(checks) <==> HasChecks(checks, key.gate);
      }
    }
  }

  /** For covered gates, the accepted reward vector is the verifier's own and no other. */
  lemma AcceptedRewardsIff(applicable: set<Gate>, checks: seq<Check>, gates: seq<Gate>, rewards: Rewards)
    requires Covered(applicable, checks) && ListsEveryGate(gates)
    ensures RewardErrors(Outcomes(applicable, checks, true, gates), Some(rewards)) == [] <==> rewards == RewardsOf(checks)
  {
    hide Outcomes, GatePasses, AllPass, Expected, HasChecks, GateErrors, AllApplicablePass;
    var outcomes, mine := Outcomes(applicable, checks, true, gates), RewardsOf(checks);
    NoGateErrorsIff(outcomes, rewards);
    CoveredAllPass(applicable, checks, gates);
    ExpectedKeys(applicable, checks, gates);
    OutcomesAlign(applicable, checks, gates);
    forall gate: Gate ensures GateKey(gate) in GateKeys(checks) <==> gate in applicable {
      KeyMeansChecks(checks, gate);
    }
    if RewardErrors(outcomes, Some(rewards)) == [] {
      forall key | key in mine ensures rewards[key] == mine[key] {
        if key.GateKey? {
          assert key.gate in gates;
          var i :| 0 <= i < |gates| && gates[i] == key.gate;
          assert outcomes[i].status != NotApplicable;
        }
      }
      assert rewards.Keys == mine.Keys;
    }
  }

  lemma KeyMeansChecks(checks: seq<Check>, gate: Gate)
    ensures GateKey(gate) in GateKeys(checks) <==> HasChecks(checks, gate)
  {
  }

  /** Whatever the checks, the verifier's rewards pass the runner's validation exactly when the gates
      with checks are the applicable gates, and that is exactly when the runner finds no error. */
  lemma RewardsPassIffCovered(applicable: set<Gate>, checks: seq<Check>)
    ensures RewardErrors(Outcomes(applicable, checks, true, GATES), Some(RewardsOf(checks))) == []
      <==> Covered(applicable, checks)
    ensures OutcomeErrors(applicable, checks, GATES) == [] <==> Covered(applicable, checks)
  {
    GatesListEvery();
    RewardsPassIffCoveredOver(applicable, checks, GATES);
  }

  lemma RewardsPassIffCoveredOver(applicable: set<Gate>, checks: seq<Check>, gates: seq<Gate>)
    requires ListsEveryGate(gates)
    ensures RewardErrors(Outcomes(applicable, checks, true, gates), Some(RewardsOf(checks))) == []
      <==> Covered(applicable, checks)
    ensures OutcomeErrors(applicable, checks, gates) == [] <==> Covered(applicable, checks)
  {
    hide Outcomes, OutcomeErrors, HasChecks, Expected, GateErrors;
    NoErrorsIff(applicable, checks, gates);
    if Covered(applicable, checks) {
      AcceptedRewardsIff(applicable, checks, gates, RewardsOf(checks));
    } else {
      var gate :| !(HasChecks(checks, gate) <==> gate in applicable);
      assert gate in gates;
      KeysGiveItAway(applicable, checks, gates, gate);
    }
  }

  lemma KeysGiveItAway(applicable: set<Gate>, checks: seq<Check>, gates: seq<Gate>, gate: Gate)
    requires ListsEveryGate(gates) && HasChecks(checks, gate) != (gate in applicable)
    ensures RewardsOf(checks).Keys != Expected(Outcomes(applicable, checks, true, gates))
  {
    hide HasChecks, ChecksOf, RewardFor;
    KeyMeansChecks(checks, gate);
    ExpectedMeansApplicable(applicable, checks, gates, gate);
  }

  lemma ExpectedMeansApplicable(applicable: set<Gate>, checks: seq<Check>, gates: seq<Gate>, gate: Gate)
    requires ListsEveryGate(gates)
    ensures GateKey(gate) in Expected(Outcomes(applicable, checks, true, gates)) <==> gate in applicable
  {
    hide ChecksOf, AllPass;
    var outcomes := Outcomes(applicable, checks, true, gates);
    assert gate in gates;
    var i :| 0 <= i < |gates| && gates[i] == gate;
    assert outcomes[i] in outcomes && outcomes[i].gate == gate;
    assert outcomes[i].status != NotApplicable <==> gate in applicable;
  }
}
