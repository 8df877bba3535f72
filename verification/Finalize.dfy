/** Turning the evidence of one trial into a classified result bundle. */
module Finalize {
  import opened Sequences
  import opened Wrappers
  import opened Gates
  import opened Receipts

  datatype Classification = ValidPass | ValidAgentFailure | BenchmarkDefect | InfrastructureFailure | InvalidRun

  datatype Reason =
    | NoReason
    | GateFailure
    | ReceiptMissing
    | ReceiptInvalid
    | AgentTimeout
    | AgentSetupTimeout
    | AgentExit
    | ProviderRateLimit
    | ProviderUsageLimit
    | EnvironmentStartTimeout
    | VerifierTimeout
    | VerifierEvidenceMissing
    | VerifierEvidenceInvalid
    | VerifierContractMismatch
    | HarnessIdentityMismatch
    | HarborTaskMismatch
    | RewardMismatch
    | HarborProcessFailure
    | HarborResultInvalid
    | HarborException

  /** The exception names the runner knows; `OtherException` is every other one. */
  datatype ExceptionType =
    | ApiRateLimitError
    | ApiUsageLimitError
    | AgentTimeoutError
    | ContextLengthExceededError
    | NonZeroAgentExitCodeError
    | OutputLengthExceededError
    | AgentSetupTimeoutError
    | AddTestsDirError
    | DownloadVerifierDirError
    | RewardFileEmptyError
    | RewardFileNotFoundError
    | VerifierOutputParseError
    | VerifierTimeoutError
    | EnvironmentStartTimeoutError
    | OtherException(name: string)

  datatype ObservedModel = ObservedModel(name: string, provider: Option<string>)

  datatype ObservedAgent = ObservedAgent(name: string, version: string, model: Option<ObservedModel>)

  datatype PinnedModel = PinnedModel(name: string, provider: string)

  datatype PinnedAgent = PinnedAgent(harness: string, harnessVersion: string, model: Option<PinnedModel>)

  datatype VerifierResult = VerifierResult(rewards: Option<Rewards>)

  datatype Step = Step(name: string, exception: Option<ExceptionType>, verifierResult: Option<VerifierResult>)

  datatype TrialResult = TrialResult(
    taskChecksum: string,
    agent: ObservedAgent,
    exception: Option<ExceptionType>,
    steps: Option<seq<Step>>,
    hasAgentResult: bool,
    verifierResult: Option<VerifierResult>)

  datatype Loaded = NoResult | UnreadableResult | ReadResult(result: TrialResult)

  datatype EvidenceFile = EvidenceSymlink | EvidenceMissing | EvidenceUnreadable | EvidenceReadable(v: Verification)

  datatype LogFile = LogMissing | LogDigest(sha256: string)

  datatype RewardFile =
    | RewardsMissing | RewardsUnreadable | RewardsVector(rewards: Rewards) | RewardsNull | RewardsOtherJson

  datatype OutputDir = TrialDir | StepDir(name: string)

  /** What one output directory holds. */
  datatype OutputFiles = OutputFiles(
    evidence: EvidenceFile, logs: string -> LogFile, receipt: ReceiptFile, rewards: RewardFile)

  datatype Task = Task(
    singlePhase: bool, phases: seq<string>, applicable: seq<Gate>, digest: string, baseRevision: string)

  datatype Manifest = Manifest(
    agent: PinnedAgent, taskChecksum: string, attempt: nat, maxAttempts: nat, retryable: set<Reason>)

  datatype Run = Run(
    task: Task, manifest: Manifest, loaded: Loaded, files: OutputDir -> OutputFiles, exitCode: int)

  datatype RetryDecision = RetryAllowed | ClassificationNotRetryable | ReasonNotAllowed | AttemptsExhausted

  datatype Retry = Retry(eligible: bool, decision: RetryDecision, remaining: int)

  datatype Bundle = Bundle(
    classification: Classification, reason: Reason, completed: bool, attempt: nat, retry: Retry,
    outcomes: seq<GateOutcome>, receipt: Receipt)

  // ----- Pure parts

  predicate AgentMatches(observed: ObservedAgent, expected: PinnedAgent) {
    && observed.name == expected.harness
    && observed.version == expected.harnessVersion
    && match expected.model
       case None => observed.model.None?
       case Some(pin) => observed.model == Some(ObservedModel(pin.name, Some(pin.provider)))
  }

  function ClassifyException(e: ExceptionType): (Classification, Reason) {
    match e
    case ApiRateLimitError => (InfrastructureFailure, ProviderRateLimit)
    case ApiUsageLimitError => (InfrastructureFailure, ProviderUsageLimit)
    case AgentTimeoutError => (ValidAgentFailure, AgentTimeout)
    case ContextLengthExceededError => (ValidAgentFailure, AgentExit)
    case NonZeroAgentExitCodeError => (ValidAgentFailure, AgentExit)
    case OutputLengthExceededError => (ValidAgentFailure, AgentExit)
    case AgentSetupTimeoutError => (InfrastructureFailure, AgentSetupTimeout)
    case VerifierTimeoutError => (BenchmarkDefect, VerifierTimeout)
    case AddTestsDirError => (BenchmarkDefect, VerifierEvidenceInvalid)
    case DownloadVerifierDirError => (BenchmarkDefect, VerifierEvidenceInvalid)
    case RewardFileEmptyError => (BenchmarkDefect, VerifierEvidenceInvalid)
    case RewardFileNotFoundError => (BenchmarkDefect, VerifierEvidenceInvalid)
    case VerifierOutputParseError => (BenchmarkDefect, VerifierEvidenceInvalid)
    case EnvironmentStartTimeoutError => (InfrastructureFailure, EnvironmentStartTimeout)
    case OtherException(_) => (InfrastructureFailure, HarborException)
  }

  function RetryDisposition(m: Manifest, classification: Classification, reason: Reason): Retry {
    var remaining := m.maxAttempts - m.attempt;
    var decision :=
      if classification != InfrastructureFailure then ClassificationNotRetryable
      else if reason !in m.retryable then ReasonNotAllowed
      else if remaining == 0 then AttemptsExhausted
      else RetryAllowed;
    Retry(decision == RetryAllowed, decision, remaining)
  }

  datatype Layout = Layout(dir: OutputDir, exception: Option<ExceptionType>, complete: bool, errors: seq<Note>)

  function StepNames(steps: seq<Step>): seq<string> {
    seq(|steps|, i requires 0 <= i < |steps| => steps[i].name)
  }

  function FirstException(steps: seq<Step>): Option<ExceptionType> {
    if steps == [] then None
    else if steps[0].exception.Some? then steps[0].exception
    else FirstException(steps[1..])
  }

  function ResolveLayout(result: TrialResult, task: Task): Layout {
    if task.singlePhase then
      Layout(TrialDir, result.exception, true, if result.steps.Some? then [LayoutProblem] else [])
    else if result.steps.None? || result.steps.value == [] then
      Layout(TrialDir, result.exception, false, if result.exception.Some? then [] else [LayoutProblem])
    else
      var steps := result.steps.value;
      var names := StepNames(steps);
      if !(names <= task.phases) then Layout(TrialDir, result.exception, false, [LayoutProblem])
      else
        var last := steps[|steps| - 1];
        var errors :=
          (if result.hasAgentResult then [LayoutProblem] else [])
          + (if result.verifierResult != last.verifierResult then [LayoutProblem] else []);
        Layout(StepDir(last.name), if result.exception.Some? then result.exception else FirstException(steps),
               names == task.phases, errors)
  }

  // ----- The verdict as a function

  datatype Verdict = Verdict(
    classification: Classification, reason: Reason, receipt: Receipt, outcomes: seq<GateOutcome>)

  function NotApplicableOutcomes(): seq<GateOutcome> {
    seq(|GATES|, i requires 0 <= i < |GATES| => GateOutcome(GATES[i], NotApplicable, []))
  }

  /** The receipt before any was read, with the given messages. */
  function NoReceipt(errors: seq<Note>): Receipt {
    Receipt(false, false, None, errors)
  }

  /** A verdict reached before any gate was judged. */
  function Early(classification: Classification, reason: Reason, errors: seq<Note>): Verdict {
    Verdict(classification, reason, NoReceipt(errors), NotApplicableOutcomes())
  }

  function LogErrors(checks: seq<Check>, logs: string -> LogFile): seq<Note> {
    if checks == [] then []
    else
      var last := checks[|checks| - 1];
      LogErrors(checks[..|checks| - 1], logs)
      + match logs(last.logPath)
        case LogMissing => [LogAbsent(last.logPath)]
        case LogDigest(sha256) => if sha256 != last.logSha256 then [LogDiffers(last.logPath)] else []
  }

  function ContractErrors(v: Verification, task: Task, files: OutputFiles): seq<Note> {
    (if v.taskDigest != task.digest then [VerifierTaskDigest] else [])
    + (if v.baseRevision != task.baseRevision then [VerifierBaseRevision] else [])
    + LogErrors(v.checks, files.logs)
  }

  function RewardArtifactErrors(file: RewardFile, rewards: Option<Rewards>): seq<Note> {
    match file
    case RewardsMissing => [RewardArtifactAbsent]
    case RewardsUnreadable => [RewardArtifactInvalid]
    case RewardsVector(vector) => if rewards == Some(vector) then [] else [RewardArtifactDiffers]
    case RewardsNull => if rewards == None then [] else [RewardArtifactDiffers]
    case RewardsOtherJson => [RewardArtifactDiffers]
  }

  function OutcomeNotes(errors: seq<OutcomeError>): seq<Note> {
    seq(|errors|, i requires 0 <= i < |errors| => OutcomeNote(errors[i]))
  }

  function RewardNotes(errors: seq<RewardError>): seq<Note> {
    seq(|errors|, i requires 0 <= i < |errors| => RewardNote(errors[i]))
  }

  function RewardsIn(result: TrialResult): Option<Rewards> {
    if result.verifierResult.Some? then result.verifierResult.value.rewards else None
  }

  predicate NothingFailed(outcomes: seq<GateOutcome>) {
    forall i :: 0 <= i < |outcomes| ==> outcomes[i].status in {Passed, NotApplicable}
  }

  /** The verdict once the evidence has been read and binds to the task. */
  function JudgeChecks(run: Run, result: TrialResult, layout: Layout, v: Verification): Verdict {
    var files, applicable := run.files(layout.dir), Elements(run.task.applicable);
    var (receipt, invalid) := ReceiptOf(files.receipt, run.task.applicable, v);
    var trusted := Outcomes(applicable, v.checks, true, GATES);
    var outcomes := Outcomes(applicable, v.checks, receipt.valid, GATES);
    var benchmark := OutcomeNotes(OutcomeErrors(applicable, v.checks, GATES));
    var rewards := RewardsIn(result);
    var reward := RewardNotes(RewardErrors(trusted, rewards)) + RewardArtifactErrors(files.rewards, rewards);
    if benchmark != [] || reward != [] then
      Verdict(BenchmarkDefect, if reward != [] then RewardMismatch else VerifierContractMismatch,
              receipt.(errors := receipt.errors + (benchmark + benchmark) + reward), outcomes)
    else if invalid then Verdict(InvalidRun, ReceiptInvalid, receipt, outcomes)
    else if NothingFailed(outcomes) then
      if layout.complete then Verdict(ValidPass, NoReason, receipt, outcomes)
      else Verdict(BenchmarkDefect, HarborResultInvalid,
                   receipt.(errors := receipt.errors + [StoppedEarly]), outcomes)
    else
      Verdict(ValidAgentFailure, if receipt.present then GateFailure else ReceiptMissing, receipt, outcomes)
  }

  function JudgeEvidence(run: Run, result: TrialResult, layout: Layout): Verdict {
    match run.files(layout.dir).evidence
    case EvidenceSymlink => Early(BenchmarkDefect, VerifierEvidenceInvalid, [EvidenceSymlinked])
    case EvidenceMissing => Early(BenchmarkDefect, VerifierEvidenceMissing, [EvidenceAbsent])
    case EvidenceUnreadable => Early(BenchmarkDefect, VerifierEvidenceInvalid, [EvidenceInvalid])
    case EvidenceReadable(v) =>
      var errors := ContractErrors(v, run.task, run.files(layout.dir));
      if errors != [] then Early(BenchmarkDefect, VerifierContractMismatch, errors)
      else JudgeChecks(run, result, layout, v)
  }

  function JudgeResult(run: Run, result: TrialResult): Verdict {
    var layout := ResolveLayout(result, run.task);
    if layout.errors != [] then Early(BenchmarkDefect, HarborResultInvalid, layout.errors)
    else if layout.exception.Some? then
      var (classification, reason) := ClassifyException(layout.exception.value);
      Early(classification, reason, [NotReached])
    else if !AgentMatches(result.agent, run.manifest.agent) then
      Early(BenchmarkDefect, HarnessIdentityMismatch, [IdentityDiffers])
    else if result.taskChecksum != run.manifest.taskChecksum then
      Early(BenchmarkDefect, HarborTaskMismatch, [ChecksumDiffers])
    else JudgeEvidence(run, result, layout)
  }

  /** The two corrections the runner makes after judging. */
  function Correct(run: Run, result: TrialResult, verdict: Verdict): Verdict {
    var layout := ResolveLayout(result, run.task);
    var mine := if verdict.classification == ValidAgentFailure && !AgentMatches(result.agent, run.manifest.agent)
      then verdict.(classification := BenchmarkDefect, reason := HarnessIdentityMismatch,
                    receipt := verdict.receipt.(errors := [IdentityDiffers]))
      else verdict;
    if run.exitCode != 0 && layout.exception.None? then
      mine.(classification := InfrastructureFailure, reason := HarborProcessFailure,
            receipt := mine.receipt.(errors := mine.receipt.errors + [ProcessFailed(run.exitCode)]))
    else mine
  }

  function Judge(run: Run): Verdict {
    match run.loaded
    case ReadResult(result) => Correct(run, result, JudgeResult(run, result))
    case NoResult =>
      Early(InfrastructureFailure, HarborProcessFailure,
            if run.exitCode != 0 then [ProcessFailed(run.exitCode)] else [NotReached])
    case UnreadableResult =>
      Early(InfrastructureFailure, HarborResultInvalid,
            if run.exitCode != 0 then [ResultInvalid, ProcessFailed(run.exitCode)] else [ResultInvalid])
  }

  function BundleOf(run: Run): Bundle {
    var v := Judge(run);
    Bundle(v.classification, v.reason, v.classification == ValidPass, run.manifest.attempt,
           RetryDisposition(run.manifest, v.classification, v.reason), v.outcomes, v.receipt)
  }

  // ----- The runner's statements

  method ValidateLogs(checks: seq<Check>, logs: string -> LogFile) returns (errors: seq<Note>)
    ensures errors == LogErrors(checks, logs)
  {
    errors := [];
    for i := 0 to |checks|
      invariant errors == LogErrors(checks[..i], logs)
    {
      assert checks[..i + 1][..i] == checks[..i];
      var log := logs(checks[i].logPath);
      if log.LogMissing? {
        errors := errors + [LogAbsent(checks[i].logPath)];
      } else if log.sha256 != checks[i].logSha256 {
        errors := errors + [LogDiffers(checks[i].logPath)];
      }
    }
    assert checks[..|checks|] == checks;
  }

  /** The innermost branch: evidence was read and binds to the task. */
  method FinalizeChecks(run: Run, result: TrialResult, layout: Layout, v: Verification) returns (verdict: Verdict)
    ensures verdict == JudgeChecks(run, result, layout, v)
  {
    hide Outcomes, OutcomeErrors, RewardErrors, ReceiptOf, GATES;
    var files := run.files(layout.dir);
    var receipt, invalid := ValidateReceipt(files.receipt, run.task.applicable, v);
    var trusted, outcomeErrors := CheckOutcomes(run.task.applicable, v.checks, true);
    var benchmarkErrors := OutcomeNotes(outcomeErrors);
    var outcomes, receiptErrors := CheckOutcomes(run.task.applicable, v.checks, receipt.valid);
    benchmarkErrors := benchmarkErrors + OutcomeNotes(receiptErrors);
    var rewards := RewardsIn(result);
    var vectorErrors := ValidateRewards(trusted, rewards);
    var rewardErrors := RewardNotes(vectorErrors);
    rewardErrors := rewardErrors + RewardArtifactErrors(files.rewards, rewards);
    var classification, reason;
    if benchmarkErrors != [] || rewardErrors != [] {
      classification := BenchmarkDefect;
      reason := if rewardErrors != [] then RewardMismatch else VerifierContractMismatch;
      receipt := receipt.(errors := receipt.errors + benchmarkErrors + rewardErrors);
    } else if invalid {
      classification, reason := InvalidRun, ReceiptInvalid;
    } else if NothingFailed(outcomes) {
      if layout.complete {
        classification, reason := ValidPass, NoReason;
      } else {
        classification, reason := BenchmarkDefect, HarborResultInvalid;
        receipt := receipt.(errors := receipt.errors + [StoppedEarly]);
      }
    } else {
      classification := ValidAgentFailure;
      reason := if !receipt.present then ReceiptMissing else GateFailure;
    }
    verdict := Verdict(classification, reason, receipt, outcomes);
  }

  method FinalizeRun(run: Run) returns (bundle: Bundle)
    ensures bundle == BundleOf(run)
  {
    hide JudgeChecks, ContractErrors, GATES, ResolveLayout, ClassifyException, AgentMatches;
    var receipt := NoReceipt(if run.loaded.UnreadableResult? then [ResultInvalid] else [NotReached]);
    var classification := InfrastructureFailure;
    var reason := if run.loaded.UnreadableResult? then HarborResultInvalid else HarborProcessFailure;
    var outcomes := NotApplicableOutcomes();

    if run.loaded.ReadResult? {
      var result := run.loaded.result;
      var layout := ResolveLayout(result, run.task);
      var identityMatches := AgentMatches(result.agent, run.manifest.agent);
      if layout.errors != [] {
        classification, reason := BenchmarkDefect, HarborResultInvalid;
        receipt := receipt.(errors := layout.errors);
      } else if result.exception.Some? {
        LayoutKeepsTopException(result, run.task);
        var classified := ClassifyException(result.exception.value);
        classification, reason := classified.0, classified.1;
      } else if layout.exception.Some? {
        var classified := ClassifyException(layout.exception.value);
        classification, reason := classified.0, classified.1;
      } else if !identityMatches {
        classification, reason := BenchmarkDefect, HarnessIdentityMismatch;
        receipt := receipt.(errors := [IdentityDiffers]);
      } else if result.taskChecksum != run.manifest.taskChecksum {
        classification, reason := BenchmarkDefect, HarborTaskMismatch;
        receipt := receipt.(errors := [ChecksumDiffers]);
      } else {
        var evidence := run.files(layout.dir).evidence;
        match evidence {
          case EvidenceSymlink =>
            classification, reason := BenchmarkDefect, VerifierEvidenceInvalid;
            receipt := receipt.(errors := [EvidenceSymlinked]);
          case EvidenceMissing =>
            classification, reason := BenchmarkDefect, VerifierEvidenceMissing;
            receipt := receipt.(errors := [EvidenceAbsent]);
          case EvidenceUnreadable =>
            classification, reason := BenchmarkDefect, VerifierEvidenceInvalid;
            receipt := receipt.(errors := [EvidenceInvalid]);
          case EvidenceReadable(v) =>
            var contractErrors := ContractErrors(v, run.task, run.files(layout.dir));
            if contractErrors != [] {
              classification, reason := BenchmarkDefect, VerifierContractMismatch;
              receipt := receipt.(errors := contractErrors);
            } else {
              var verdict := FinalizeChecks(run, result, layout, v);
              classification, reason := verdict.classification, verdict.reason;
              receipt, outcomes := verdict.receipt, verdict.outcomes;
            }
        }
      }
      assert Verdict(classification, reason, receipt, outcomes) == JudgeResult(run, result);

      if classification == ValidAgentFailure && !identityMatches {
        classification, reason := BenchmarkDefect, HarnessIdentityMismatch;
        receipt := receipt.(errors := [IdentityDiffers]);
      }

      if run.exitCode != 0 && layout.exception.None? {
        classification, reason := InfrastructureFailure, HarborProcessFailure;
        receipt := receipt.(errors := receipt.errors + [ProcessFailed(run.exitCode)]);
      }
    }

    if run.exitCode != 0 && !run.loaded.ReadResult? {
      receipt := receipt.(errors := if run.loaded.UnreadableResult?
        then receipt.errors + [ProcessFailed(run.exitCode)] else [ProcessFailed(run.exitCode)]);
    }

    bundle := Bundle(classification, reason, classification == ValidPass, run.manifest.attempt,
                     RetryDisposition(run.manifest, classification, reason), outcomes, receipt);
  }

  /** An exception of the whole trial is the layout's exception. */
  lemma LayoutKeepsTopException(result: TrialResult, task: Task)
    requires result.exception.Some?
    ensures ResolveLayout(result, task).exception == result.exception
  {
  }
}
