/** What a result bundle's classification means, over every possible evidence. */
module Verdicts {
  import opened Sequences
  import opened Wrappers
  import opened Gates
  import opened Receipts
  import opened Finalize

  /** What loading the manifest, the task, the evidence and the report already guarantees. */
  ghost predicate Loadable(run: Run) {
    && 1 <= run.manifest.attempt <= run.manifest.maxAttempts
    && run.manifest.retryable <= {ProviderRateLimit, EnvironmentStartTimeout}
    && run.task.applicable != []
    && forall dir :: FilesLoadable(run.files(dir))
  }

  ghost predicate FilesLoadable(files: OutputFiles) {
    && (files.evidence.EvidenceReadable? ==> UniqueIds(files.evidence.v.checks))
    && (files.receipt.ReceiptReadable? ==> OneClaimPerGate(files.receipt.report.claims))
  }

  // ----- The result contract

  function GatesOf(outcomes: seq<GateOutcome>): seq<Gate> {
    seq(|outcomes|, i requires 0 <= i < |outcomes| => outcomes[i].gate)
  }

  /** What the result model demands of every bundle. */
  ghost predicate ValidBundle(b: Bundle) {
    && |b.outcomes| == |GATES| && ListsEveryGate(GatesOf(b.outcomes))
    && (b.completed <==> b.classification == ValidPass)
    && (b.classification == ValidPass ==> forall o :: o in b.outcomes ==> o.status != Failed)
    && (b.reason == NoReason <==> b.classification == ValidPass)
    && (b.retry.eligible <==> b.classification == InfrastructureFailure && b.retry.decision == RetryAllowed)
    && 1 <= b.attempt && 0 <= b.retry.remaining
  }

  lemma OutcomesListGates(applicable: set<Gate>, checks: seq<Check>, receiptValid: bool)
    ensures GatesOf(Outcomes(applicable, checks, receiptValid, GATES)) == GATES
    ensures |Outcomes(applicable, checks, receiptValid, GATES)| == |GATES|
  {
    hide ChecksOf, AllPass, GATES;
  }

  lemma JudgedVerdict(run: Run, result: TrialResult, layout: Layout, v: Verification)
    ensures
      var verdict := JudgeChecks(run, result, layout, v);
      && GatesOf(verdict.outcomes) == GATES && |verdict.outcomes| == |GATES|
      && verdict.classification != InfrastructureFailure
      && (verdict.reason == NoReason <==> verdict.classification == ValidPass)
      && (verdict.classification == ValidPass ==> forall o :: o in verdict.outcomes ==> o.status != Failed)
  {
    hide Outcomes, OutcomeErrors, RewardErrors, ReceiptOf, GATES, RewardArtifactErrors;
    var applicable := Elements(run.task.applicable);
    OutcomesListGates(applicable, v.checks, ReceiptOf(run.files(layout.dir).receipt, run.task.applicable, v).0.valid);
  }

  lemma EarlyListsGates()
    ensures GatesOf(NotApplicableOutcomes()) == GATES && |NotApplicableOutcomes()| == |GATES|
    ensures forall o :: o in NotApplicableOutcomes() ==> o.status == NotApplicable
  {
    hide GATES;
  }

  /** Whatever the evidence, the runner's bundle satisfies the result model. */
  lemma BundleIsValid(run: Run)
    requires Loadable(run)
    ensures ValidBundle(BundleOf(run))
  {
    hide JudgeChecks, ResolveLayout, ContractErrors, GATES, NotApplicableOutcomes, ListsEveryGate,
      FilesLoadable;
    GatesListEvery();
    EarlyListsGates();
    if run.loaded.ReadResult? {
      var result := run.loaded.result;
      var layout := ResolveLayout(result, run.task);
      var evidence := run.files(layout.dir).evidence;
      if evidence.EvidenceReadable? {
        JudgedVerdict(run, result, layout, evidence.v);
      }
    }
  }

  // ----- Passing

  ghost predicate LogsMatch(checks: seq<Check>, logs: string -> LogFile) {
    forall c :: c in checks ==> logs(c.logPath) == LogDigest(c.logSha256)
  }

  /** The receipt that does not stand in the way of a pass: a faithful one, or none at all when the
      task does not ask for one. */
  ghost predicate ReceiptInOrder(file: ReceiptFile, applicable: seq<Gate>, v: Verification) {
    match file
    case ReceiptAbsent => EvidenceReceipt !in applicable
    case ReceiptReadable(_, report) => Faithful(report, applicable, v)
    case _ => false
  }

  /** The evidence shows covered, passing gates and nothing else. */
  ghost predicate EvidencePasses(task: Task, files: OutputFiles, rewards: Option<Rewards>) {
    && files.evidence.EvidenceReadable?
    && var v := files.evidence.v;
    && v.taskDigest == task.digest && v.baseRevision == task.baseRevision
    && LogsMatch(v.checks, files.logs)
    && Covered(Elements(task.applicable), v.checks)
    && AllPass(v.checks)
    && rewards == Some(RewardsOf(v.checks)) && files.rewards == RewardsVector(RewardsOf(v.checks))
    && ReceiptInOrder(files.receipt, task.applicable, v)
  }

  ghost predicate Passes(run: Run) {
    && run.exitCode == 0
    && run.loaded.ReadResult?
    && var result := run.loaded.result;
    && var layout := ResolveLayout(result, run.task);
    && layout.errors == [] && layout.complete && layout.exception.None?
    && AgentMatches(result.agent, run.manifest.agent)
    && result.taskChecksum == run.manifest.taskChecksum
    && EvidencePasses(run.task, run.files(layout.dir), RewardsIn(result))
  }

  lemma {:induction false} NoLogErrorsIff(checks: seq<Check>, logs: string -> LogFile)
    ensures LogErrors(checks, logs) == [] <==> LogsMatch(checks, logs)
  {
    if checks != [] {
      var n := |checks| - 1;
      NoLogErrorsIff(checks[..n], logs);
      assert checks == checks[..n] + [checks[n]];
    }
  }

  lemma ReceiptOfMeans(file: ReceiptFile, applicable: seq<Gate>, v: Verification)
    requires UniqueIds(v.checks) && (file.ReceiptReadable? ==> OneClaimPerGate(file.report.claims))
    ensures
      var (receipt, invalid) := ReceiptOf(file, applicable, v);
      && (receipt.valid <==> file.ReceiptReadable? && Faithful(file.report, applicable, v))
      && (!invalid <==> receipt.valid || file.ReceiptAbsent?)
      && (receipt.present <==> !file.ReceiptAbsent?)
  {
    hide ReportErrors, Faithful;
    if file.ReceiptReadable? {
      ReportIsValidIff(file.report, applicable, v);
    }
  }

  /** The receipt only ever decides its own gate. */
  lemma NothingFailedIff(applicable: set<Gate>, checks: seq<Check>, receiptValid: bool)
    requires Covered(applicable, checks)
    ensures NothingFailed(Outcomes(applicable, checks, receiptValid, GATES)) <==>
      AllPass(checks) && (EvidenceReceipt in applicable ==> receiptValid)
  {
    GatesListEvery();
    NothingFailedOver(applicable, checks, receiptValid, GATES);
  }

  lemma OutcomeWithReceipt(applicable: set<Gate>, checks: seq<Check>, receiptValid: bool, gate: Gate)
    requires Covered(applicable, checks)
    ensures OutcomeOf(applicable, checks, receiptValid, gate).status in {Passed, NotApplicable} <==>
      (gate in applicable ==> GatePasses(checks, gate) && (gate == EvidenceReceipt ==> receiptValid))
  {
    hide ChecksOf, GatePasses, HasChecks;
    ChecksOfMeans(checks, gate);
  }

  lemma NothingFailedOver(applicable: set<Gate>, checks: seq<Check>, receiptValid: bool, gates: seq<Gate>)
    requires Covered(applicable, checks) && ListsEveryGate(gates)
    ensures NothingFailed(Outcomes(applicable, checks, receiptValid, gates)) <==>
      AllPass(checks) && (EvidenceReceipt in applicable ==> receiptValid)
  {
    hide OutcomeOf, HasChecks;
    var outcomes := Outcomes(applicable, checks, receiptValid, gates);
    forall i | 0 <= i < |gates|
      ensures outcomes[i].status in {Passed, NotApplicable} <==>
        (gates[i] in applicable ==> GatePasses(checks, gates[i]) && (gates[i] == EvidenceReceipt ==> receiptValid))
    {
      OutcomeWithReceipt(applicable, checks, receiptValid, gates[i]);
    }
    if NothingFailed(outcomes) {
      forall c | c in checks ensures c.passed {
        CheckIsCounted(checks, c);
        assert c.gate in gates;
        var i :| 0 <= i < |gates| && gates[i] == c.gate;
        assert outcomes[i].status in {Passed, NotApplicable};
      }
      if EvidenceReceipt in applicable {
        assert EvidenceReceipt in gates;
        var i :| 0 <= i < |gates| && gates[i] == EvidenceReceipt;
        assert outcomes[i].status in {Passed, NotApplicable};
      }
    }
  }

  lemma NoRewardNotesIff(applicable: set<Gate>, checks: seq<Check>, rewards: Option<Rewards>, file: RewardFile)
    requires Covered(applicable, checks)
    ensures
      var reward := RewardNotes(RewardErrors(Outcomes(applicable, checks, true, GATES), rewards));
      reward + RewardArtifactErrors(file, rewards) == []
      <==> rewards == Some(RewardsOf(checks)) && file == RewardsVector(RewardsOf(checks))
  {
    hide Outcomes, RewardsOf, HasChecks, GATES;
    GatesListEvery();
    var trusted := Outcomes(applicable, checks, true, GATES);
    assert |RewardNotes(RewardErrors(trusted, rewards))| == |RewardErrors(trusted, rewards)|;
    if rewards.Some? {
      AcceptedRewardsIff(applicable, checks, GATES, rewards.value);
    }
  }

  lemma NoOutcomeNotesIff(applicable: set<Gate>, checks: seq<Check>)
    ensures OutcomeNotes(OutcomeErrors(applicable, checks, GATES)) == [] <==> Covered(applicable, checks)
  {
    hide Covered, OutcomeErrors, GATES;
    RewardsPassIffCovered(applicable, checks);
    assert |OutcomeNotes(OutcomeErrors(applicable, checks, GATES))| == |OutcomeErrors(applicable, checks, GATES)|;
  }

  /** How judging the checks comes out, in terms of the evidence alone. */
  lemma JudgeChecksMeans(run: Run, result: TrialResult, layout: Layout, v: Verification)
    requires UniqueIds(v.checks) && FilesLoadable(run.files(layout.dir))
    ensures
      var files, applicable := run.files(layout.dir), Elements(run.task.applicable);
      var verdict := JudgeChecks(run, result, layout, v);
      var agreed := Covered(applicable, v.checks)
        && RewardsIn(result) == Some(RewardsOf(v.checks)) && files.rewards == RewardsVector(RewardsOf(v.checks));
      var faithful := files.receipt.ReceiptReadable? && Faithful(files.receipt.report, run.task.applicable, v);
      && (verdict.classification == ValidPass <==>
            agreed && AllPass(v.checks) && ReceiptInOrder(files.receipt, run.task.applicable, v) && layout.complete)
      && (verdict.classification == InvalidRun <==> agreed && !faithful && !files.receipt.ReceiptAbsent?)
      && (verdict.classification == ValidAgentFailure <==>
            agreed && (faithful || files.receipt.ReceiptAbsent?)
            && !(AllPass(v.checks) && (EvidenceReceipt in run.task.applicable ==> faithful)))
  {
    hide Outcomes, OutcomeErrors, RewardErrors, ReceiptOf, RewardsOf, Covered, AllPass, Faithful, GATES,
      RewardNotes, OutcomeNotes, RewardArtifactErrors, NothingFailed;
    var files, applicable := run.files(layout.dir), Elements(run.task.applicable);
    NoOutcomeNotesIff(applicable, v.checks);
    ReceiptOfMeans(files.receipt, run.task.applicable, v);
    if Covered(applicable, v.checks) {
      NoRewardNotesIff(applicable, v.checks, RewardsIn(result), files.rewards);
      NothingFailedIff(applicable, v.checks, ReceiptOf(files.receipt, run.task.applicable, v).0.valid);
    }
  }

  lemma NoContractErrorsIff(v: Verification, task: Task, files: OutputFiles)
    ensures ContractErrors(v, task, files) == [] <==>
      v.taskDigest == task.digest && v.baseRevision == task.baseRevision && LogsMatch(v.checks, files.logs)
  {
    hide LogErrors, LogsMatch;
    NoLogErrorsIff(v.checks, files.logs);
  }

  /** A run passes exactly when its process succeeded, every phase was reached without an exception,
      identity, checksum and evidence bind, the rewards are the verifier's own, every check passed,
      the gates with checks are the applicable ones, and the receipt is in order. */
  lemma PassIff(run: Run)
    requires Loadable(run)
    ensures BundleOf(run).classification == ValidPass <==> Passes(run)
  {
    hide JudgeChecks, ContractErrors, ResolveLayout, AgentMatches, LogsMatch, Covered, AllPass, RewardsOf,
      ReceiptInOrder, Elements, Faithful, RetryDisposition, NotApplicableOutcomes;
    if run.loaded.ReadResult? {
      var result := run.loaded.result;
      var layout := ResolveLayout(result, run.task);
      var files := run.files(layout.dir);
      assert FilesLoadable(files);
      if files.evidence.EvidenceReadable? {
        NoContractErrorsIff(files.evidence.v, run.task, files);
        JudgeChecksMeans(run, result, layout, files.evidence.v);
      }
      if layout.exception.Some? {
        ExceptionsNeverPass(layout.exception.value);
      }
    }
  }

  lemma ExceptionsNeverPass(e: ExceptionType)
    ensures ClassifyException(e).0 != ValidPass && ClassifyException(e).0 != InvalidRun
  {
  }

  // ----- Layout

  predicate NoStepRaised(steps: seq<Step>) {
    forall i :: 0 <= i < |steps| ==> steps[i].exception.None?
  }

  lemma {:induction false} FirstExceptionIff(steps: seq<Step>)
    ensures FirstException(steps).None? <==> NoStepRaised(steps)
  {
    if steps != [] {
      FirstExceptionIff(steps[1..]);
      assert NoStepRaised(steps) <==> steps[0].exception.None? && NoStepRaised(steps[1..]) by {
        assert forall i :: 1 <= i < |steps| ==> steps[i] == steps[1..][i - 1];
      }
    }
  }

  /** A complete, error-free and exception-free layout: no step list for a single phase; for a
      sequence, every phase in order, none raising, and the trial's rewards those of the last. */
  lemma LayoutIsCleanIff(result: TrialResult, task: Task)
    requires task.phases != []
    ensures
      var layout := ResolveLayout(result, task);
      layout.errors == [] && layout.complete && layout.exception.None? <==>
        && result.exception.None?
        && if task.singlePhase then result.steps.None?
           else
             && result.steps.Some? && StepNames(result.steps.value) == task.phases
             && NoStepRaised(result.steps.value) && !result.hasAgentResult
             && result.verifierResult == result.steps.value[|task.phases| - 1].verifierResult
  {
    if result.steps.Some? {
      FirstExceptionIff(result.steps.value);
      assert |StepNames(result.steps.value)| == |result.steps.value|;
    }
  }

  // ----- Attribution and retries

  predicate AgentAttributable(c: Classification) {
    c in {ValidPass, ValidAgentFailure, InvalidRun}
  }

  /** Where an agent-attributable verdict comes from: an exception of the agent, or judged checks. */
  lemma AttributableOrigin(run: Run)
    requires AgentAttributable(BundleOf(run).classification)
    ensures run.loaded.ReadResult?
    ensures
      var result := run.loaded.result;
      var layout := ResolveLayout(result, run.task);
      && layout.errors == []
      && AgentMatches(result.agent, run.manifest.agent)
      && (layout.exception.None? ==>
            && run.exitCode == 0
            && result.taskChecksum == run.manifest.taskChecksum
            && run.files(layout.dir).evidence.EvidenceReadable?
            && BundleOf(run).outcomes == JudgeChecks(run, result, layout, run.files(layout.dir).evidence.v).outcomes)
      && (layout.exception.Some? ==>
            && ClassifyException(layout.exception.value).0 == ValidAgentFailure
            && BundleOf(run).outcomes == NotApplicableOutcomes())
  {
    hide JudgeChecks, ContractErrors, ResolveLayout, AgentMatches, RetryDisposition, NotApplicableOutcomes;
    if run.loaded.ReadResult? {
      var layout := ResolveLayout(run.loaded.result, run.task);
      if layout.exception.Some? {
        ExceptionsNeverPass(layout.exception.value);
      }
    }
  }

  /** The gates an outcome list reports on. */
  function ReportedGates(outcomes: seq<GateOutcome>): set<Gate> {
    set o | o in outcomes && o.status != NotApplicable :: o.gate
  }

  /** What the evaluator demands of an agent-attributable trial: the pinned agent and checksum, and
      outcomes for exactly the task's gates. */
  ghost predicate EvaluatorAccepts(run: Run) {
    && run.loaded.ReadResult?
    && AgentMatches(run.loaded.result.agent, run.manifest.agent)
    && run.loaded.result.taskChecksum == run.manifest.taskChecksum
    && ReportedGates(BundleOf(run).outcomes) == Elements(run.task.applicable)
  }

  lemma JudgedGates(run: Run, result: TrialResult, layout: Layout, v: Verification)
    ensures ReportedGates(JudgeChecks(run, result, layout, v).outcomes) == Elements(run.task.applicable)
  {
    hide ReceiptOf, RewardErrors, OutcomeErrors, RewardArtifactErrors, GATES;
    GatesListEvery();
    var applicable := Elements(run.task.applicable);
    var receiptValid := ReceiptOf(run.files(layout.dir).receipt, run.task.applicable, v).0.valid;
    ReportedOver(applicable, v.checks, receiptValid, GATES);
  }

  lemma ReportedOver(applicable: set<Gate>, checks: seq<Check>, receiptValid: bool, gates: seq<Gate>)
    requires ListsEveryGate(gates)
    ensures ReportedGates(Outcomes(applicable, checks, receiptValid, gates)) == applicable
  {
    hide ChecksOf, AllPass;
    var outcomes := Outcomes(applicable, checks, receiptValid, gates);
    forall gate ensures gate in ReportedGates(outcomes) <==> gate in applicable {
      assert gate in gates;
      var i :| 0 <= i < |gates| && gates[i] == gate;
      assert outcomes[i] in outcomes && outcomes[i].gate == gate;
      assert outcomes[i].status != NotApplicable <==> gate in applicable;
    }
  }

  /** The evaluator accepts what the runner attributes to the agent exactly when no exception was
      recorded: after one, every gate is left not applicable. */
  lemma EvaluatorAcceptsIff(run: Run)
    requires Loadable(run) && AgentAttributable(BundleOf(run).classification)
    ensures run.loaded.ReadResult?
    ensures EvaluatorAccepts(run) <==> ResolveLayout(run.loaded.result, run.task).exception.None?
  {
    hide JudgeChecks, ResolveLayout, NotApplicableOutcomes, BundleOf, AgentMatches;
    AttributableOrigin(run);
    EarlyListsGates();
    var result := run.loaded.result;
    var layout := ResolveLayout(result, run.task);
    if layout.exception.None? {
      JudgedGates(run, result, layout, run.files(layout.dir).evidence.v);
    } else {
      assert run.task.applicable[0] in Elements(run.task.applicable);
    }
  }

  const DIGEST := "e3b0c44298fc1c149afbf4c8996fb92427ae41e4649b934ca495991b7852b855"
  const REVISION := "4b825dc642cb6eb9a060e54bf8d69288fbee4904"

  /** A run whose agent timed out: attributed to the agent, and refused by the evaluator. */
  function TimedOutRun(): Run {
    var agent := ObservedAgent("codex", "0.45.0", None);
    Run(Task(true, ["implement"], [RequestedBehavior, Regressions], DIGEST, REVISION),
        Manifest(PinnedAgent("codex", "0.45.0", None), DIGEST, 1, 3, {ProviderRateLimit}),
        ReadResult(TrialResult(DIGEST, agent, Some(AgentTimeoutError), None, false, None)),
        _ => OutputFiles(EvidenceMissing, _ => LogMissing, ReceiptAbsent, RewardsMissing), 0)
  }

  lemma TimeoutIsRefused()
    ensures BundleOf(TimedOutRun()).classification == ValidAgentFailure
    ensures !EvaluatorAccepts(TimedOutRun())
  {
    hide NotApplicableOutcomes;
    var run := TimedOutRun();
    assert Loadable(run);
    EvaluatorAcceptsIff(run);
  }

  /** A retry is offered exactly for a provider rate limit or an environment start timeout that the
      manifest lists, in an error-free layout, with attempts left. */
  lemma RetryIsOfferedIff(run: Run)
    requires Loadable(run)
    ensures BundleOf(run).retry.eligible <==>
      && run.loaded.ReadResult?
      && var layout := ResolveLayout(run.loaded.result, run.task);
      && layout.errors == []
      && ((layout.exception == Some(ApiRateLimitError) && ProviderRateLimit in run.manifest.retryable)
          || (layout.exception == Some(EnvironmentStartTimeoutError) && EnvironmentStartTimeout in run.manifest.retryable))
      && run.manifest.attempt < run.manifest.maxAttempts
  {
    hide JudgeChecks, ContractErrors, ResolveLayout, NotApplicableOutcomes, AgentMatches, FilesLoadable;
    if run.loaded.ReadResult? {
      var layout := ResolveLayout(run.loaded.result, run.task);
      var evidence := run.files(layout.dir).evidence;
      if evidence.EvidenceReadable? {
        JudgedVerdict(run, run.loaded.result, layout, evidence.v);
      }
    }
  }
}
