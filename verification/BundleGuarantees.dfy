/** Everything a result bundle says, as a decision list over the raw evidence of the run: who is to
    blame and why, the outcome of every gate, the receipt, and whether a retry is offered. */
module BundleGuarantees {
  import opened Sequences
  import opened Wrappers
  import opened Gates
  import opened Receipts
  import opened Finalize
  import opened Verdicts
  import opened EvidenceFacts

  // ----- The trial result

  /** The observed agent is the pinned one, model and provider included. */
  predicate IsPinnedAgent(observed: ObservedAgent, pinned: PinnedAgent) {
    && observed.name == pinned.harness
    && observed.version == pinned.harnessVersion
    && (pinned.model.None? <==> observed.model.None?)
    && (pinned.model.Some? && observed.model.Some? ==>
          && observed.model.value.name == pinned.model.value.name
          && observed.model.value.provider == Some(pinned.model.value.provider))
  }

  predicate StepsFollow(steps: seq<Step>, phases: seq<string>) {
    |steps| <= |phases| && forall i :: 0 <= i < |steps| ==> steps[i].name == phases[i]
  }

  function FirstRaised(steps: seq<Step>): Option<ExceptionType> {
    if steps == [] then None
    else
      var earlier := FirstRaised(steps[..|steps| - 1]);
      if earlier.Some? then earlier else steps[|steps| - 1].exception
  }

  /** The steps of a sequence that ran as sealed, so far as it ran. */
  predicate HasSteps(result: TrialResult, task: Task) {
    !task.singlePhase && result.steps.Some? && result.steps.value != [] && StepsFollow(result.steps.value, task.phases)
  }

  /** What was raised: by the trial as a whole, or else first by one of its steps. */
  function Raised(result: TrialResult, task: Task): Option<ExceptionType> {
    if result.exception.Some? then result.exception
    else if HasSteps(result, task) then FirstRaised(result.steps.value)
    else None
  }

  /** A single phase must have no steps; a sequence must have sealed ones unless the trial raised, no
      result of its own, and the rewards of its last step. */
  predicate IsMalformed(result: TrialResult, task: Task) {
    if task.singlePhase then result.steps.Some?
    else if result.steps.None? || result.steps.value == [] then result.exception.None?
    else
      var steps := result.steps.value;
      || !StepsFollow(steps, task.phases) || result.hasAgentResult
      || result.verifierResult != steps[|steps| - 1].verifierResult
  }

  predicate RanToTheEnd(result: TrialResult, task: Task) {
    task.singlePhase || (HasSteps(result, task) && |result.steps.value| == |task.phases|)
  }

  function OutputOf(result: TrialResult, task: Task): OutputDir {
    if HasSteps(result, task) then StepDir(result.steps.value[|result.steps.value| - 1].name) else TrialDir
  }

  lemma FollowsIffPrefix(steps: seq<Step>, phases: seq<string>)
    ensures StepNames(steps) <= phases <==> StepsFollow(steps, phases)
    ensures StepNames(steps) == phases <==> StepsFollow(steps, phases) && |steps| == |phases|
  {
    var names := StepNames(steps);
    if StepsFollow(steps, phases) {
      assert names == phases[..|steps|];
    }
    if names <= phases {
      forall i | 0 <= i < |steps| ensures steps[i].name == phases[i] {
        assert names[i] == phases[i];
      }
    }
  }

  lemma {:induction false} FirstRaisedFromFront(steps: seq<Step>)
    requires steps != []
    ensures FirstRaised(steps) == if steps[0].exception.Some? then steps[0].exception else FirstRaised(steps[1..])
    decreases |steps|
  {
    var n := |steps| - 1;
    if n > 0 {
      FirstRaisedFromFront(steps[..n]);
      assert steps[..n][1..] == steps[1..][..n - 1];
    } else {
      assert steps[..0] == [] && steps[1..] == [];
    }
  }

  lemma {:induction false} FirstRaisedAgrees(steps: seq<Step>)
    ensures FirstException(steps) == FirstRaised(steps)
  {
    if steps != [] {
      FirstRaisedFromFront(steps);
      FirstRaisedAgrees(steps[1..]);
    }
  }

  lemma LayoutIs(result: TrialResult, task: Task)
    ensures
      var layout := ResolveLayout(result, task);
      && layout.exception == Raised(result, task)
      && (layout.errors != [] <==> IsMalformed(result, task))
      && (layout.complete <==> RanToTheEnd(result, task))
      && layout.dir == OutputOf(result, task)
  {
    hide StepNames, StepsFollow, FirstRaised, FirstException;
    if result.steps.Some? {
      FollowsIffPrefix(result.steps.value, task.phases);
      FirstRaisedAgrees(result.steps.value);
      FirstNameCounts(result.steps.value);
    }
  }

  lemma FirstNameCounts(steps: seq<Step>)
    ensures |StepNames(steps)| == |steps|
  {
  }

  // ----- Blame

  /** Time outs, overlong contexts and outputs and failed exits of the agent are its own; what the
      verifier raises is a defect of the benchmark; everything else is the infrastructure's. */
  function Blame(e: ExceptionType): (Classification, Reason) {
    if e == AgentTimeoutError then (ValidAgentFailure, AgentTimeout)
    else if e in {ContextLengthExceededError, OutputLengthExceededError, NonZeroAgentExitCodeError}
    then (ValidAgentFailure, AgentExit)
    else if e == VerifierTimeoutError then (BenchmarkDefect, VerifierTimeout)
    else if e in {AddTestsDirError, DownloadVerifierDirError, RewardFileEmptyError, RewardFileNotFoundError,
                  VerifierOutputParseError}
    then (BenchmarkDefect, VerifierEvidenceInvalid)
    else
      (InfrastructureFailure,
       if e == ApiRateLimitError then ProviderRateLimit
       else if e == ApiUsageLimitError then ProviderUsageLimit
       else if e == AgentSetupTimeoutError then AgentSetupTimeout
       else if e == EnvironmentStartTimeoutError then EnvironmentStartTimeout
       else HarborException)
  }

  lemma BlameIs(e: ExceptionType)
    ensures ClassifyException(e) == Blame(e)
  {
  }

  lemma AgentIs(observed: ObservedAgent, pinned: PinnedAgent)
    ensures AgentMatches(observed, pinned) <==> IsPinnedAgent(observed, pinned)
  {
  }

  // ----- The evidence

  ghost predicate EvidenceBinds(v: Verification, task: Task, files: OutputFiles) {
    && v.taskDigest == task.digest && v.baseRevision == task.baseRevision
    && forall k :: k in v.checks ==> files.logs(k.logPath) == LogDigest(k.logSha256)
  }

  function RewardsReported(result: TrialResult): Option<Rewards> {
    match result.verifierResult
    case None => None
    case Some(reported) => reported.rewards
  }

  /** The verdict on evidence that was read and binds. */
  ghost function DeservedByChecks(run: Run, result: TrialResult, v: Verification): (Classification, Reason) {
    var applicable, files := run.task.applicable, run.files(OutputOf(result, run.task));
    var rewards := RewardsReported(result);
    var fits := ReceiptFits(files.receipt, applicable, v);
    if !RewardsFit(rewards, applicable, v.checks) || files.rewards != RewardsVector(rewards.value) then
      (BenchmarkDefect, RewardMismatch)
    else if exists gate :: Checked(v.checks, gate) != (gate in applicable) then
      (BenchmarkDefect, VerifierContractMismatch)
    else if !files.receipt.ReceiptAbsent? && !fits then (InvalidRun, ReceiptInvalid)
    else if (forall k :: k in v.checks ==> k.passed) && (EvidenceReceipt in applicable ==> fits) then
      if RanToTheEnd(result, run.task) then (ValidPass, NoReason) else (BenchmarkDefect, HarborResultInvalid)
    else (ValidAgentFailure, if files.receipt.ReceiptAbsent? then ReceiptMissing else GateFailure)
  }

  /** Nothing kept the runner from judging the checks. */
  ghost predicate IsJudged(run: Run) {
    && run.loaded.ReadResult?
    && var result := run.loaded.result;
    && !IsMalformed(result, run.task) && Raised(result, run.task).None?
    && IsPinnedAgent(result.agent, run.manifest.agent)
    && result.taskChecksum == run.manifest.taskChecksum
    && var files := run.files(OutputOf(result, run.task));
    && files.evidence.EvidenceReadable? && EvidenceBinds(files.evidence.v, run.task, files)
  }

  /** Who a run is attributed to, and why. */
  ghost function Deserved(run: Run): (Classification, Reason) {
    match run.loaded
    case NoResult => (InfrastructureFailure, HarborProcessFailure)
    case UnreadableResult => (InfrastructureFailure, HarborResultInvalid)
    case ReadResult(result) =>
      var raised := Raised(result, run.task);
      if run.exitCode != 0 && raised.None? then (InfrastructureFailure, HarborProcessFailure)
      else if IsMalformed(result, run.task) then (BenchmarkDefect, HarborResultInvalid)
      else if raised.Some? then
        if Blame(raised.value).0 == ValidAgentFailure && !IsPinnedAgent(result.agent, run.manifest.agent)
        then (BenchmarkDefect, HarnessIdentityMismatch)
        else Blame(raised.value)
      else if !IsPinnedAgent(result.agent, run.manifest.agent) then (BenchmarkDefect, HarnessIdentityMismatch)
      else if result.taskChecksum != run.manifest.taskChecksum then (BenchmarkDefect, HarborTaskMismatch)
      else
        var files := run.files(OutputOf(result, run.task));
        match files.evidence
        case EvidenceMissing => (BenchmarkDefect, VerifierEvidenceMissing)
        case EvidenceReadable(v) =>
          if EvidenceBinds(v, run.task, files) then DeservedByChecks(run, result, v)
          else (BenchmarkDefect, VerifierContractMismatch)
        case _ => (BenchmarkDefect, VerifierEvidenceInvalid)
  }

  lemma ChecksDeserve(run: Run, result: TrialResult, layout: Layout, v: Verification)
    requires layout == ResolveLayout(result, run.task)
    requires UniqueIds(v.checks) && FilesLoadable(run.files(layout.dir))
    ensures
      var verdict := JudgeChecks(run, result, layout, v);
      (verdict.classification, verdict.reason) == DeservedByChecks(run, result, v)
  {
    hide Outcomes, OutcomeErrors, RewardErrors, ReceiptOf, Covered, AllPass, GATES, ResolveLayout, RanToTheEnd,
      OutputOf, RewardNotes, OutcomeNotes, NothingFailed, RewardsFit, ReceiptFits, Checked, FilesLoadable,
      UniqueIds;
    var files, applicable := run.files(layout.dir), run.task.applicable;
    assert FilesLoadable(files) ==> (files.receipt.ReceiptReadable? ==> OneClaimPerGate(files.receipt.report.claims)) by {
      FilesAreLoadable(files);
    }
    LayoutIs(result, run.task);
    ReceiptIs(files.receipt, applicable, v);
    RewardsFitIff(RewardsReported(result), applicable, v.checks);
    NotesCount(applicable, v.checks, RewardsReported(result));
    NoOutcomeNotesIff(Elements(applicable), v.checks);
    CoveredIff(applicable, v.checks);
    NoVectorNoFit(applicable, v.checks);
    assert RewardsIn(result) == RewardsReported(result);
    if Covered(Elements(applicable), v.checks) {
      NothingFailedIff(Elements(applicable), v.checks, ReceiptOf(files.receipt, applicable, v).0.valid);
      AllPassIs(v.checks);
    }
  }

  lemma FilesAreLoadable(files: OutputFiles)
    ensures FilesLoadable(files) ==> (files.receipt.ReceiptReadable? ==> OneClaimPerGate(files.receipt.report.claims))
    ensures FilesLoadable(files) ==> (files.evidence.EvidenceReadable? ==> UniqueIds(files.evidence.v.checks))
  {
  }

  lemma NoVectorNoFit(applicable: seq<Gate>, checks: seq<Check>)
    ensures !RewardsFit(None, applicable, checks)
  {
  }

  lemma AllPassIs(checks: seq<Check>)
    ensures AllPass(checks) <==> forall k :: k in checks ==> k.passed
  {
  }

  lemma NotesCount(applicable: seq<Gate>, checks: seq<Check>, rewards: Option<Rewards>)
    ensures
      var errors := RewardErrors(Outcomes(Elements(applicable), checks, true, GATES), rewards);
      RewardNotes(errors) == [] <==> errors == []
  {
    hide Outcomes, RewardErrors, GATES;
    var errors := RewardErrors(Outcomes(Elements(applicable), checks, true, GATES), rewards);
    assert |RewardNotes(errors)| == |errors|;
  }

  lemma CoveredIff(applicable: seq<Gate>, checks: seq<Check>)
    ensures Covered(Elements(applicable), checks) <==> !exists gate :: Checked(checks, gate) != (gate in applicable)
  {
    hide HasChecks, Checked;
    forall gate ensures HasChecks(checks, gate) <==> Checked(checks, gate) {
      CheckFactsAgree(checks, gate);
    }
  }

  lemma BindsIff(v: Verification, task: Task, files: OutputFiles)
    ensures ContractErrors(v, task, files) == [] <==> EvidenceBinds(v, task, files)
  {
    hide LogErrors;
    NoContractErrorsIff(v, task, files);
  }

  /** The classification and reason of every bundle are the ones the evidence deserves. */
  lemma VerdictIs(run: Run)
    requires Loadable(run)
    ensures (BundleOf(run).classification, BundleOf(run).reason) == Deserved(run)
  {
    hide JudgeChecks, ContractErrors, ResolveLayout, AgentMatches, ClassifyException, RetryDisposition,
      NotApplicableOutcomes, DeservedByChecks, EvidenceBinds, IsMalformed, Raised, OutputOf, IsPinnedAgent,
      Blame, RanToTheEnd, FilesLoadable;
    if run.loaded.ReadResult? {
      var result := run.loaded.result;
      var layout := ResolveLayout(result, run.task);
      var files := run.files(layout.dir);
      LayoutIs(result, run.task);
      AgentIs(result.agent, run.manifest.agent);
      if layout.exception.Some? {
        BlameIs(layout.exception.value);
      }
      if files.evidence.EvidenceReadable? {
        assert FilesLoadable(files);
        FilesAreLoadable(files);
        BindsIff(files.evidence.v, run.task, files);
        ChecksDeserve(run, result, layout, files.evidence.v);
      }
    }
  }

  // ----- Outcomes

  /** Judged, the bundle's outcomes are each gate's own: not applicable when the gate is not, passed when
      it has checks, none fails and, for the receipt gate, the report fits; failed otherwise; with the ids
      of its checks. Not judged, none is applicable. */
  lemma OutcomesAre(run: Run, o: GateOutcome)
    requires Loadable(run) && o in BundleOf(run).outcomes
    ensures
      if IsJudged(run) then
        var files := run.files(OutputOf(run.loaded.result, run.task));
        var v := files.evidence.v;
        && (o.status == NotApplicable <==> o.gate !in run.task.applicable)
        && (o.status == Passed <==>
              && o.gate in run.task.applicable && Checked(v.checks, o.gate) && NoneFails(v.checks, o.gate)
              && (o.gate == EvidenceReceipt ==> ReceiptFits(files.receipt, run.task.applicable, v)))
        && o.checkIds == if o.gate in run.task.applicable then IdsInOrder(v.checks, o.gate) else []
      else o.status == NotApplicable && o.checkIds == []
  {
    hide Outcomes, ResolveLayout, AgentMatches, ClassifyException, RetryDisposition, ContractErrors,
      EvidenceBinds, IsMalformed, Raised, OutputOf, IsPinnedAgent, FilesLoadable, Checked, NoneFails,
      ReceiptFits, IdsInOrder, JudgeChecks, NotApplicableOutcomes;
    NoneApplicable();
    if run.loaded.ReadResult? {
      var result := run.loaded.result;
      var layout := ResolveLayout(result, run.task);
      var files := run.files(layout.dir);
      LayoutIs(result, run.task);
      AgentIs(result.agent, run.manifest.agent);
      if files.evidence.EvidenceReadable? {
        assert FilesLoadable(files);
        FilesAreLoadable(files);
        BindsIff(files.evidence.v, run.task, files);
        if IsJudged(run) {
          JudgedOutcome(run, result, layout, files.evidence.v, o);
        }
      }
    }
  }

  lemma NoneApplicable()
    ensures forall o :: o in NotApplicableOutcomes() ==> o.status == NotApplicable && o.checkIds == []
  {
    hide GATES;
  }

  lemma JudgedOutcome(run: Run, result: TrialResult, layout: Layout, v: Verification, o: GateOutcome)
    requires o in JudgeChecks(run, result, layout, v).outcomes
    requires UniqueIds(v.checks)
    requires var file := run.files(layout.dir).receipt; file.ReceiptReadable? ==> OneClaimPerGate(file.report.claims)
    ensures
      var applicable := run.task.applicable;
      && (o.status == NotApplicable <==> o.gate !in applicable)
      && (o.status == Passed <==>
            && o.gate in applicable && Checked(v.checks, o.gate) && NoneFails(v.checks, o.gate)
            && (o.gate == EvidenceReceipt ==> ReceiptFits(run.files(layout.dir).receipt, applicable, v)))
      && o.checkIds == if o.gate in applicable then IdsInOrder(v.checks, o.gate) else []
  {
    hide Outcomes, OutcomeErrors, RewardErrors, ReceiptOf, GATES, RewardArtifactErrors, NothingFailed, Checked,
      NoneFails, ReceiptFits, UniqueIds, OneClaimPerGate, IdsInOrder;
    var applicable, file := run.task.applicable, run.files(layout.dir).receipt;
    ReceiptIs(file, applicable, v);
    var valid := ReceiptOf(file, applicable, v).0.valid;
    var outcomes := Outcomes(Elements(applicable), v.checks, valid, GATES);
    assert JudgeChecks(run, result, layout, v).outcomes == outcomes;
    OutcomesListGates(Elements(applicable), v.checks, valid);
    var i :| 0 <= i < |outcomes| && outcomes[i] == o;
    OutcomesFit(applicable, v.checks, valid, i);
  }

  /** An agent failure that was judged shows a failed gate. */
  lemma FailureShows(run: Run)
    requires Loadable(run) && IsJudged(run) && BundleOf(run).classification == ValidAgentFailure
    ensures exists o :: o in BundleOf(run).outcomes && o.status == Failed
  {
    hide BundleOf, IsJudged, Checked, NoneFails, ReceiptFits, IdsInOrder, GATES, ListsEveryGate, RewardsFit,
      IsMalformed, Raised, IsPinnedAgent, OutputOf, EvidenceBinds;
    VerdictIs(run);
    BundleIsValid(run);
    var gate := FailedGate(run);
    var outcomes := BundleOf(run).outcomes;
    assert gate in GatesOf(outcomes) by { ListsIt(outcomes, gate); }
    var i :| 0 <= i < |outcomes| && GatesOf(outcomes)[i] == gate;
    OutcomesAre(run, outcomes[i]);
    assert outcomes[i] in outcomes && outcomes[i].gate == gate;
  }

  lemma ListsIt(outcomes: seq<GateOutcome>, gate: Gate)
    requires ListsEveryGate(GatesOf(outcomes))
    ensures gate in GatesOf(outcomes)
  {
  }

  lemma FailedGate(run: Run) returns (gate: Gate)
    requires IsJudged(run) && Deserved(run).0 == ValidAgentFailure
    ensures
      var files := run.files(OutputOf(run.loaded.result, run.task));
      var v := files.evidence.v;
      && gate in run.task.applicable
      && !(Checked(v.checks, gate) && NoneFails(v.checks, gate)
           && (gate == EvidenceReceipt ==> ReceiptFits(files.receipt, run.task.applicable, v)))
  {
    hide ReceiptFits, RewardsFit, IsMalformed, Raised, IsPinnedAgent, OutputOf, EvidenceBinds, RanToTheEnd,
      Blame;
    var files := run.files(OutputOf(run.loaded.result, run.task));
    var checks := files.evidence.v.checks;
    if k :| k in checks && !k.passed {
      gate := k.gate;
      assert Checked(checks, gate) != (gate in run.task.applicable) || gate in run.task.applicable;
    } else {
      gate := EvidenceReceipt;
    }
  }

  // ----- The receipt and the retry

  /** Judged, the bundle says whether a report lay there, whether it fits, and its digest; not judged,
      it says nothing of one. */
  lemma ReceiptSays(run: Run)
    requires Loadable(run)
    ensures
      var receipt := BundleOf(run).receipt;
      if IsJudged(run) then
        var files := run.files(OutputOf(run.loaded.result, run.task));
        && (receipt.present <==> !files.receipt.ReceiptAbsent?)
        && (receipt.valid <==> ReceiptFits(files.receipt, run.task.applicable, files.evidence.v))
        && receipt.sha256 == match files.receipt
             case ReceiptReadable(digest, _) => Some(digest)
             case ReceiptUnreadable(digest) => Some(digest)
             case _ => None
      else !receipt.present && !receipt.valid && receipt.sha256 == None
  {
    hide Outcomes, ResolveLayout, AgentMatches, ClassifyException, RetryDisposition, ContractErrors,
      EvidenceBinds, GATES, IsMalformed, Raised, OutputOf, IsPinnedAgent, FilesLoadable, ReceiptFits,
      NotApplicableOutcomes, JudgeChecks, ReceiptOf;
    if run.loaded.ReadResult? {
      var result := run.loaded.result;
      var layout := ResolveLayout(result, run.task);
      var files := run.files(layout.dir);
      LayoutIs(result, run.task);
      AgentIs(result.agent, run.manifest.agent);
      if files.evidence.EvidenceReadable? {
        assert FilesLoadable(files);
        FilesAreLoadable(files);
        BindsIff(files.evidence.v, run.task, files);
        ReceiptIs(files.receipt, run.task.applicable, files.evidence.v);
        JudgedReceipt(run, result, layout, files.evidence.v);
      }
    }
  }

  lemma JudgedReceipt(run: Run, result: TrialResult, layout: Layout, v: Verification)
    ensures
      var receipt, read := JudgeChecks(run, result, layout, v).receipt,
                           ReceiptOf(run.files(layout.dir).receipt, run.task.applicable, v).0;
      receipt.present == read.present && receipt.valid == read.valid && receipt.sha256 == read.sha256
  {
    hide Outcomes, OutcomeErrors, RewardErrors, ReceiptOf, GATES, RewardArtifactErrors, NothingFailed;
  }

  /** A retry is offered for an infrastructure failure of a listed reason with attempts left, and the
      decision says which of these is missing first. */
  lemma RetryIs(run: Run)
    requires Loadable(run)
    ensures
      var b, m := BundleOf(run), run.manifest;
      && b.attempt == m.attempt && b.completed == (b.classification == ValidPass)
      && b.retry.remaining == m.maxAttempts - m.attempt
      && b.retry.eligible == (b.retry.decision == RetryAllowed)
      && b.retry.decision ==
           if b.classification != InfrastructureFailure then ClassificationNotRetryable
           else if b.reason !in m.retryable then ReasonNotAllowed
           else if m.attempt == m.maxAttempts then AttemptsExhausted
           else RetryAllowed
  {
    hide Judge;
  }
}
