/**
 The autoresearch supervisor of src/autoresearch/runtime.ts: after each experiment session it
 validates the candidate, runs the evaluator, keeps or discards, and records what it did in a
 ledger and a results table. Git is a HEAD plus `reset`; what the session, the evaluator and git
 report is an arbitrary input, and the evaluator may leave HEAD anywhere.
 */
module Supervisor {
  import opened Wrappers

  type Commit = string

  datatype KeepPolicy = ScoreImprovement | PassOnly

  datatype CandidateStatus = CandidateReady | Noop | Abort | Interrupted

  datatype Decision =
    | BaselineSet | Keep | Discard | Ambiguous | NoopSeen | AbortSeen | InterruptedSeen | Error

  datatype RunStatus = Running | Stopped | Completed | Failed

  /** What the evaluator reported; a crash or unreadable output is EvaluatorError. */
  datatype Evaluation = EvaluatorError | Evaluated(pass: bool, score: Option<real>)

  datatype Candidate = Candidate(
    status: CandidateStatus,
    candidateCommit: Option<string>,
    baseCommit: string,
    description: string)

  datatype Kind = Baseline | Iteration

  datatype Entry = Entry(
    iteration: nat,
    kind: Kind,
    decision: Decision,
    reason: string,
    baseCommit: string,
    candidateCommit: Option<string>,
    keptCommit: Commit,
    evaluator: Option<Evaluation>,
    description: string)

  /** One line of results.tsv; None is an empty cell. */
  datatype Row = Row(
    iteration: nat,
    commit: string,
    pass: Option<bool>,
    score: Option<real>,
    status: Decision,
    description: string)

  datatype Manifest = Manifest(
    baselineCommit: string,
    lastKeptCommit: Commit,
    lastKeptScore: Option<real>,
    latestCandidateCommit: Option<string>,
    keepPolicy: KeepPolicy,
    status: RunStatus,
    stopReason: Option<string>,
    iteration: nat)

  /** `manifest` is the object the caller passes in, `disk` what manifest.json holds. */
  datatype State = State(
    manifest: Manifest,
    disk: Manifest,
    ledger: seq<Entry>,
    results: seq<Row>,
    head: Commit)

  /** Everything one call finds outside itself. */
  datatype Input = Input(
    candidateFile: Result<Candidate, string>,
    head: Commit,
    refs: map<string, Commit>,
    dirty: bool,
    evaluation: Evaluation,
    headAfterEvaluation: Commit,
    dirtyAfterEvaluation: bool,
    resetFails: bool)

  datatype Outcome = Returned(decision: Decision) | Threw

  // ---------------------------------------------------------------- the decision

  datatype Verdict = Verdict(decision: Decision, reason: string, keep: bool)

  function Decide(policy: KeepPolicy, lastKeptScore: Option<real>, status: CandidateStatus, evaluation: Option<Evaluation>): Verdict {
    if status == Abort then Verdict(AbortSeen, "candidate requested abort", false)
    else if status == Noop then Verdict(NoopSeen, "candidate reported noop", false)
    else if status == Interrupted then Verdict(InterruptedSeen, "candidate session was interrupted", false)
    else if evaluation.None? || evaluation.value.EvaluatorError? then Verdict(Discard, "evaluator error", false)
    else if !evaluation.value.pass then Verdict(Discard, "evaluator reported failure", false)
    else if policy == PassOnly then Verdict(Keep, "pass_only keep policy accepted evaluator pass=true", true)
    else if lastKeptScore.None? || evaluation.value.score.None?
    then Verdict(Ambiguous, "evaluator pass without comparable score", false)
    else if evaluation.value.score.value > lastKeptScore.value
    then Verdict(Keep, "score improved over last kept score", true)
    else Verdict(Discard, "score did not improve", false)
  }

  predicate Passing(e: Option<Evaluation>) {
    e.Some? && e.value.Evaluated? && e.value.pass
  }

  function ScoreOf(e: Option<Evaluation>): Option<real> {
    if e.Some? && e.value.Evaluated? then e.value.score else None
  }

  function PassOf(e: Option<Evaluation>): Option<bool> {
    if e.Some? && e.value.Evaluated? then Some(e.value.pass) else None
  }

  /** Exactly when a candidate is kept, whatever the order of the tests. */
  lemma KeptExactlyWhen(policy: KeepPolicy, lastKeptScore: Option<real>, status: CandidateStatus, evaluation: Option<Evaluation>)
    ensures var v := Decide(policy, lastKeptScore, status, evaluation);
            && (v.keep <==> v.decision == Keep)
            && (v.keep <==>
                  && status == CandidateReady && Passing(evaluation)
                  && (policy == PassOnly
                      || (lastKeptScore.Some? && ScoreOf(evaluation).Some? && ScoreOf(evaluation).value > lastKeptScore.value)))
  {
  }

  // ---------------------------------------------------------------- one call, as a function

  /** The candidate with its references resolved, or why it is refused. */
  function Validate(lastKeptCommit: Commit, head: Commit, refs: map<string, Commit>, c: Candidate): Result<Candidate, string> {
    if c.baseCommit !in refs then Err("candidate base_commit does not resolve in git")
    else if refs[c.baseCommit] != lastKeptCommit then Err("candidate base_commit does not match last kept commit")
    else if c.status != CandidateReady then Ok(c.(baseCommit := refs[c.baseCommit]))
    else if c.candidateCommit.None? || c.candidateCommit.value == "" then Err("candidate status requires a non-null candidate_commit")
    else if c.candidateCommit.value !in refs then Err("candidate_commit does not resolve in git")
    else if refs[c.candidateCommit.value] != head then Err("candidate_commit does not match worktree HEAD")
    else Ok(c.(baseCommit := refs[c.baseCommit], candidateCommit := Some(head)))
  }

  /** The seven-character name git prints for a commit. */
  function Short(c: Commit): string {
    if |c| <= 7 then c else c[..7]
  }

  const NO_CANDIDATE := "candidate validation failed"

  function Described(text: string): string {
    if text == "" then NO_CANDIDATE else text
  }

  /** The table line that belongs to a ledger entry recorded while HEAD is at head. */
  function RowOf(e: Entry, head: Commit): Row {
    Row(e.iteration, Short(head), PassOf(e.evaluator), ScoreOf(e.evaluator), e.decision, e.description)
  }

  function Recorded(s: State, e: Entry): State {
    s.(ledger := s.ledger + [e], results := s.results + [RowOf(e, s.head)])
  }

  function Saved(s: State, m: Manifest): State {
    s.(manifest := m, disk := m)
  }

  function Finalized(s: State, status: RunStatus, reason: string): State {
    Saved(s, s.manifest.(status := status, stopReason := Some(reason)))
  }

  function FailEntry(m: Manifest, reason: string, c: Option<Candidate>): Entry {
    if c.None? then Entry(m.iteration, Iteration, Error, reason, m.lastKeptCommit, None, m.lastKeptCommit, None, NO_CANDIDATE)
    else Entry(m.iteration, Iteration, Error, reason, c.value.baseCommit, c.value.candidateCommit, m.lastKeptCommit, None,
               Described(c.value.description))
  }

  function PlainEntry(m: Manifest, d: Decision, reason: string, c: Candidate, evaluator: Option<Evaluation>): Entry {
    Entry(m.iteration, Iteration, d, reason, c.baseCommit, c.candidateCommit, m.lastKeptCommit, evaluator, c.description)
  }

  /** The manifest after a candidate has been judged. */
  function Judged(m: Manifest, v: Verdict, evaluation: Evaluation, head: Commit): Manifest {
    if v.keep
    then m.(lastKeptCommit := head,
            lastKeptScore := if ScoreOf(Some(evaluation)).Some? then ScoreOf(Some(evaluation)) else m.lastKeptScore)
    else m
  }

  /** The call has begun: a new iteration, at the HEAD the session left. */
  function Opened(s: State, input: Input): State {
    s.(manifest := s.manifest.(iteration := s.manifest.iteration + 1), head := input.head)
  }

  /** processAutoresearchCandidate: the new state and what the caller gets. */
  function Process(s: State, input: Input): (State, Outcome) {
    var s0 := Opened(s, input);
    if input.candidateFile.Err? then Failing(s0, input.candidateFile.error, None)
    else
      var validation := Validate(s.manifest.lastKeptCommit, input.head, input.refs, input.candidateFile.value);
      if validation.Err? then Failing(s0, validation.error, Some(input.candidateFile.value))
      else Validated(s0, validation.value, input)
  }

  /** The rest of the call, for a candidate that has been validated. */
  function Validated(s: State, c: Candidate, input: Input): (State, Outcome) {
    var noted := s.(manifest := s.manifest.(latestCandidateCommit := c.candidateCommit));
    if c.status != CandidateReady then NotEvaluated(noted, c, input.dirty)
    else Judge(noted.(head := input.headAfterEvaluation), c, input)
  }

  function Failing(s: State, reason: string, c: Option<Candidate>): (State, Outcome) {
    (Finalized(Recorded(s, FailEntry(s.manifest, reason, c)), Failed, reason), Returned(Error))
  }

  function NotEvaluated(s: State, c: Candidate, dirty: bool): (State, Outcome)
    requires c.status != CandidateReady
  {
    match c.status
    case Abort =>
      (Finalized(Recorded(s, PlainEntry(s.manifest, AbortSeen, "candidate requested abort", c, None)), Stopped, "candidate abort"),
       Returned(AbortSeen))
    case Interrupted =>
      if dirty then (Finalized(s, Failed, "interrupted dirty worktree requires operator intervention"), Returned(Error))
      else
        var t := Recorded(s, PlainEntry(s.manifest, InterruptedSeen, "candidate session interrupted cleanly", c, None));
        (Saved(t, t.manifest), Returned(InterruptedSeen))
    case Noop =>
      var t := Recorded(s, PlainEntry(s.manifest, NoopSeen, "candidate reported noop", c, None));
      (Saved(t, t.manifest), Returned(NoopSeen))
  }

  /** HEAD is wherever the evaluator left it. A refused reset throws before anything is recorded. */
  function Judge(s: State, c: Candidate, input: Input): (State, Outcome) {
    var v := Decide(s.manifest.keepPolicy, s.manifest.lastKeptScore, c.status, Some(input.evaluation));
    if !v.keep && (input.dirtyAfterEvaluation || input.resetFails) then (s, Threw)
    else
      var m := Judged(s.manifest, v, input.evaluation, s.head);
      var t := Recorded(s.(manifest := m, head := m.lastKeptCommit), PlainEntry(m, v.decision, v.reason, c, Some(input.evaluation)));
      (Saved(t, m), Returned(v.decision))
  }

  /** seedBaseline on a freshly prepared run. */
  function Seeded(baseline: string, fullHead: Commit, policy: KeepPolicy, evaluation: Evaluation, headAfter: Commit): State {
    var score := if Passing(Some(evaluation)) then ScoreOf(Some(evaluation)) else None;
    var m := Manifest(baseline, fullHead, score, None, policy, Running, None, 0);
    var decision := if evaluation.EvaluatorError? then Error else BaselineSet;
    var reason := if evaluation.EvaluatorError? then "baseline evaluator error" else "baseline established";
    var e := Entry(0, Baseline, decision, reason, baseline, None, fullHead, Some(evaluation), "initial baseline evaluation");
    State(m, m, [e], [RowOf(e, headAfter)], headAfter)
  }

  /** The run so far as the caller sees it: calls, resumes from disk, and operator stops. */
  datatype Step = Call(input: Input) | Resume | Stop(status: RunStatus, reason: string)

  function Apply(s: State, step: Step): State {
    match step
    case Call(input) => Process(s, input).0
    case Resume => s.(manifest := s.disk)
    case Stop(status, reason) =>
      if s.disk.status != Running then s
      else Finalized(s.(manifest := s.disk), status, reason)
  }

  function Run(s: State, steps: seq<Step>): State
    decreases |steps|
  {
    if steps == [] then s else Apply(Run(s, steps[..|steps| - 1]), steps[|steps| - 1])
  }

  // ---------------------------------------------------------------- the class

  class Supervisor {
    var manifest: Manifest
    var disk: Manifest
    var ledger: seq<Entry>
    var results: seq<Row>
    var head: Commit

    function View(): State
      reads this
    {
      State(manifest, disk, ledger, results, head)
    }

    /** prepareAutoresearchRuntime from the manifest on, and seedBaseline. */
    constructor (baseline: string, fullHead: Commit, policy: KeepPolicy, evaluation: Evaluation, headAfter: Commit)
      ensures View() == Seeded(baseline, fullHead, policy, evaluation, headAfter)
    {
      manifest := Manifest(baseline, fullHead, None, None, policy, Running, None, 0);
      disk := Manifest(baseline, fullHead, None, None, policy, Running, None, 0);
      ledger, results, head := [], [], headAfter;
      new;
      var pass := if evaluation.Evaluated? then Some(evaluation.pass) else None;
      var score := if evaluation.Evaluated? then evaluation.score else None;
      var decision := if evaluation.EvaluatorError? then Error else BaselineSet;
      results := results + [Row(0, Short(head), pass, score, decision, "initial baseline evaluation")];
      ledger := ledger + [Entry(0, Baseline, decision,
                                if evaluation.EvaluatorError? then "baseline evaluator error" else "baseline established",
                                manifest.baselineCommit, None, manifest.lastKeptCommit, Some(evaluation),
                                "initial baseline evaluation")];
      manifest := manifest.(lastKeptScore := if evaluation.Evaluated? && evaluation.pass then evaluation.score else None);
      disk := manifest;
    }

    /** recordAutoresearchIteration: one table row, then one ledger entry. */
    method RecordIteration(d: Decision, reason: string, c: Candidate, evaluator: Option<Evaluation>)
      modifies this
      ensures View() == Recorded(old(View()), PlainEntry(old(manifest), d, reason, c, evaluator))
    {
      results := results + [Row(manifest.iteration, Short(head), PassOf(evaluator), ScoreOf(evaluator), d, c.description)];
      ledger := ledger + [Entry(manifest.iteration, Iteration, d, reason, c.baseCommit, c.candidateCommit,
                                manifest.lastKeptCommit, evaluator, c.description)];
    }

    method FinalizeRun(status: RunStatus, reason: string)
      modifies this
      ensures View() == Finalized(old(View()), status, reason)
    {
      manifest := manifest.(status := status);
      manifest := manifest.(stopReason := Some(reason));
      disk := manifest;
    }

    method FailIteration(reason: string, c: Option<Candidate>) returns (outcome: Outcome)
      modifies this
      ensures (View(), outcome) == Failing(old(View()), reason, c)
    {
      var description := if c.Some? && c.value.description != "" then c.value.description else NO_CANDIDATE;
      results := results + [Row(manifest.iteration, Short(head), None, None, Error, description)];
      var base := if c.Some? then c.value.baseCommit else manifest.lastKeptCommit;
      var commit := if c.Some? then c.value.candidateCommit else None;
      ledger := ledger + [Entry(manifest.iteration, Iteration, Error, reason, base, commit, manifest.lastKeptCommit, None, description)];
      FinalizeRun(Failed, reason);
      outcome := Returned(Error);
    }

    method RecordNonEvaluated(c: Candidate, dirty: bool) returns (outcome: Outcome)
      requires c.status != CandidateReady
      modifies this
      ensures (View(), outcome) == NotEvaluated(old(View()), c, dirty)
    {
      if c.status == Abort {
        RecordIteration(AbortSeen, "candidate requested abort", c, None);
        FinalizeRun(Stopped, "candidate abort");
        return Returned(AbortSeen);
      }
      if c.status == Interrupted {
        if dirty {
          FinalizeRun(Failed, "interrupted dirty worktree requires operator intervention");
          return Returned(Error);
        }
        RecordIteration(InterruptedSeen, "candidate session interrupted cleanly", c, None);
        disk := manifest;
        return Returned(InterruptedSeen);
      }
      RecordIteration(NoopSeen, "candidate reported noop", c, None);
      disk := manifest;
      return Returned(NoopSeen);
    }

    /** resetToLastKeptCommit; not ok is an exception. */
    method ResetToLastKeptCommit(dirty: bool, fails: bool) returns (ok: bool)
      modifies this`head
      ensures ok == !(dirty || fails)
      ensures head == if ok then manifest.lastKeptCommit else old(head)
    {
      if dirty || fails {
        return false;
      }
      head := manifest.lastKeptCommit;
      return true;
    }

    method ProcessCandidate(input: Input) returns (outcome: Outcome)
      modifies this
      ensures (View(), outcome) == Process(old(View()), input)
    {
      head := input.head;
      manifest := manifest.(iteration := manifest.iteration + 1);
      if input.candidateFile.Err? {
        outcome := FailIteration(input.candidateFile.error, None);
        return;
      }
      var candidate := input.candidateFile.value;
      var validation := Validate(manifest.lastKeptCommit, head, input.refs, candidate);
      if validation.Err? {
        outcome := FailIteration(validation.error, Some(candidate));
        return;
      }
      outcome := ProcessValidated(validation.value, input);
    }

    /** The rest of processAutoresearchCandidate. */
    method ProcessValidated(candidate: Candidate, input: Input) returns (outcome: Outcome)
      modifies this
      ensures (View(), outcome) == Validated(old(View()), candidate, input)
    {
      manifest := manifest.(latestCandidateCommit := candidate.candidateCommit);
      if candidate.status != CandidateReady {
        outcome := RecordNonEvaluated(candidate, input.dirty);
        return;
      }
      var evaluation := input.evaluation;
      head := input.headAfterEvaluation;
      var verdict := Decide(manifest.keepPolicy, manifest.lastKeptScore, candidate.status, Some(evaluation));
      if verdict.keep {
        manifest := manifest.(lastKeptCommit := head);
        if evaluation.Evaluated? && evaluation.score.Some? {
          manifest := manifest.(lastKeptScore := evaluation.score);
        }
      } else {
        var ok := ResetToLastKeptCommit(input.dirtyAfterEvaluation, input.resetFails);
        if !ok {
          return Threw;
        }
      }
      RecordIteration(verdict.decision, verdict.reason, candidate, Some(evaluation));
      disk := manifest;
      outcome := Returned(verdict.decision);
    }
  }

  // ---------------------------------------------------------------- every run

  /** The table is the ledger line by line, and an evaluated iteration was recorded at its kept commit. */
  ghost predicate TableMatchesLedger(s: State) {
    && |s.results| == |s.ledger|
    && forall i :: 0 <= i < |s.ledger| ==>
         && s.results[i] == RowOf(s.ledger[i], s.ledger[i].keptCommit).(commit := s.results[i].commit)
         && (s.ledger[i].kind == Iteration && s.ledger[i].evaluator.Some? ==> s.results[i].commit == Short(s.ledger[i].keptCommit))
  }

  ghost predicate IterationsIncrease(s: State) {
    && (forall i, j :: 0 <= i < j < |s.ledger| ==> s.ledger[i].iteration < s.ledger[j].iteration)
    && (s.ledger != [] ==> s.ledger[|s.ledger| - 1].iteration <= s.disk.iteration <= s.manifest.iteration)
  }

  /** Each recorded candidate was built on what its predecessor in the ledger kept. */
  ghost predicate ChainOfKeptCommits(s: State) {
    && s.ledger != [] && s.ledger[|s.ledger| - 1].keptCommit == s.manifest.lastKeptCommit == s.disk.lastKeptCommit
    && forall i :: 0 < i < |s.ledger| ==>
         && (s.ledger[i].decision != Error ==> s.ledger[i].baseCommit == s.ledger[i - 1].keptCommit)
         && (s.ledger[i].decision != Keep ==> s.ledger[i].keptCommit == s.ledger[i - 1].keptCommit)
  }

  ghost predicate Bookkeeping(s: State) {
    TableMatchesLedger(s) && IterationsIncrease(s) && ChainOfKeptCommits(s)
  }

  /** A step that records nothing: a resume, a stop, an exception, an interrupted dirty worktree. */
  ghost predicate Stutters(s: State, t: State) {
    && t.ledger == s.ledger && t.results == s.results
    && (t.manifest.lastKeptCommit == s.manifest.lastKeptCommit || t.manifest.lastKeptCommit == s.disk.lastKeptCommit)
    && (t.disk.lastKeptCommit == s.manifest.lastKeptCommit || t.disk.lastKeptCommit == s.disk.lastKeptCommit)
    && (t.manifest.lastKeptScore == s.manifest.lastKeptScore || t.manifest.lastKeptScore == s.disk.lastKeptScore)
    && (t.disk.lastKeptScore == s.manifest.lastKeptScore || t.disk.lastKeptScore == s.disk.lastKeptScore)
    && (t.manifest.keepPolicy == s.manifest.keepPolicy || t.manifest.keepPolicy == s.disk.keepPolicy)
    && (t.disk.keepPolicy == s.manifest.keepPolicy || t.disk.keepPolicy == s.disk.keepPolicy)
    && (s.disk.iteration <= s.manifest.iteration ==> s.disk.iteration <= t.disk.iteration <= t.manifest.iteration)
  }

  /** A call that records entry e while HEAD is at `head`. */
  ghost predicate Records(s: State, t: State, e: Entry, head: Commit) {
    && t.ledger == s.ledger + [e] && t.results == s.results + [RowOf(e, head)]
    && t.manifest == t.disk && t.manifest.keepPolicy == s.manifest.keepPolicy
    && e.kind == Iteration && e.iteration == t.manifest.iteration == s.manifest.iteration + 1
    && e.keptCommit == t.manifest.lastKeptCommit
    && (e.decision != Error ==> e.baseCommit == s.manifest.lastKeptCommit)
    && (if e.evaluator.Some? then
          var v := Decide(s.manifest.keepPolicy, s.manifest.lastKeptScore, CandidateReady, e.evaluator);
          && e.decision == v.decision && head == e.keptCommit
          && (!v.keep ==> t.manifest.lastKeptCommit == s.manifest.lastKeptCommit)
          && t.manifest.lastKeptScore == if v.keep && ScoreOf(e.evaluator).Some? then ScoreOf(e.evaluator) else s.manifest.lastKeptScore
        else
          && e.decision != Keep && t.manifest.lastKeptCommit == s.manifest.lastKeptCommit
          && t.manifest.lastKeptScore == s.manifest.lastKeptScore)
  }

  ghost predicate RecordsOrStutters(s: State, t: State, outcome: Outcome) {
    || (Stutters(s, t) && outcome != Returned(Keep))
    || (t.ledger != [] && Records(s, t, t.ledger[|t.ledger| - 1], t.head)
        && outcome == Returned(t.ledger[|t.ledger| - 1].decision))
  }

  /** s0 is s with the iteration begun. */
  ghost predicate Begun(s: State, s0: State) {
    && s0.ledger == s.ledger && s0.results == s.results && s0.disk == s.disk
    && s0.manifest == s.manifest.(iteration := s.manifest.iteration + 1, latestCandidateCommit := s0.manifest.latestCandidateCommit)
  }

  lemma FailingRecords(s: State, s0: State, reason: string, c: Option<Candidate>)
    requires Begun(s, s0)
    ensures var (t, outcome) := Failing(s0, reason, c); RecordsOrStutters(s, t, outcome)
  {
  }

  lemma NotEvaluatedRecords(s: State, s0: State, c: Candidate, dirty: bool)
    requires Begun(s, s0) && c.status != CandidateReady && c.baseCommit == s.manifest.lastKeptCommit
    ensures var (t, outcome) := NotEvaluated(s0, c, dirty); RecordsOrStutters(s, t, outcome)
  {
  }

  lemma JudgeRecords(s: State, s0: State, c: Candidate, input: Input)
    requires Begun(s, s0) && c.status == CandidateReady && c.baseCommit == s.manifest.lastKeptCommit
    ensures var (t, outcome) := Judge(s0, c, input); RecordsOrStutters(s, t, outcome)
  {
  }

  lemma ValidatedRecords(s: State, s0: State, c: Candidate, input: Input)
    requires Begun(s, s0) && c.baseCommit == s.manifest.lastKeptCommit
    ensures var (t, outcome) := Validated(s0, c, input); RecordsOrStutters(s, t, outcome)
  {
    var s1 := s0.(manifest := s0.manifest.(latestCandidateCommit := c.candidateCommit));
    if c.status != CandidateReady {
      NotEvaluatedRecords(s, s1, c, input.dirty);
    } else {
      JudgeRecords(s, s1.(head := input.headAfterEvaluation), c, input);
    }
  }

  lemma CallRecords(s: State, input: Input)
    ensures var (t, outcome) := Process(s, input); RecordsOrStutters(s, t, outcome)
  {
    var s0 := Opened(s, input);
    assert Begun(s, s0);
    if input.candidateFile.Err? {
      FailingRecords(s, s0, input.candidateFile.error, None);
    } else {
      var validation := Validate(s.manifest.lastKeptCommit, input.head, input.refs, input.candidateFile.value);
      if validation.Err? {
        FailingRecords(s, s0, validation.error, Some(input.candidateFile.value));
      } else {
        ValidatedRecords(s, s0, validation.value, input);
      }
    }
  }

  function OutcomeOf(s: State, step: Step): Outcome {
    if step.Call? then Process(s, step.input).1 else Threw
  }

  // ---------------------------------------------------------------- what one call comes to

  /** What the call finds cannot be judged: there is no candidate, it was not built on the last kept
      commit, or it says it is ready and is not what HEAD is. */
  predicate Unusable(s: State, input: Input) {
    || input.candidateFile.Err?
    || var c := input.candidateFile.value;
       || c.baseCommit !in input.refs
       || input.refs[c.baseCommit] != s.manifest.lastKeptCommit
       || (c.status == CandidateReady
           && !(c.candidateCommit.Some? && c.candidateCommit.value != "" && c.candidateCommit.value in input.refs
                && input.refs[c.candidateCommit.value] == input.head))
  }

  /** One entry more. */
  ghost predicate Adds(s: State, t: State, e: Entry) {
    t.ledger == s.ledger + [e] && e.kind == Iteration && e.iteration == t.manifest.iteration == s.manifest.iteration + 1
  }

  /** Nothing was kept. */
  ghost predicate KeepsNothing(s: State, t: State) {
    && t.manifest.lastKeptCommit == s.manifest.lastKeptCommit && t.manifest.lastKeptScore == s.manifest.lastKeptScore
    && t.manifest == t.disk && t.manifest.keepPolicy == s.manifest.keepPolicy && t.manifest.baselineCommit == s.manifest.baselineCommit
  }

  /** Then the run fails, with an error entry and nothing kept. */
  lemma UnusableFails(s: State, input: Input)
    requires Unusable(s, input)
    ensures var (t, outcome) := Process(s, input);
            && |t.ledger| > 0
            && var e := t.ledger[|t.ledger| - 1];
            && Adds(s, t, e) && KeepsNothing(s, t) && e.decision == Error && e.evaluator.None? && e.keptCommit == s.manifest.lastKeptCommit
            && outcome == Returned(Error) && t.manifest.status == Failed && t.manifest.stopReason == Some(e.reason)
            && t.head == input.head
            && if input.candidateFile.Err? then
                 e.reason == input.candidateFile.error && e.baseCommit == s.manifest.lastKeptCommit
                 && e.candidateCommit.None? && e.description == NO_CANDIDATE
               else
                 var c := input.candidateFile.value;
                 e.baseCommit == c.baseCommit && e.candidateCommit == c.candidateCommit
                 && e.description == if c.description == "" then NO_CANDIDATE else c.description
  {
    if input.candidateFile.Ok? {
      var c := input.candidateFile.value;
      var validation := Validate(s.manifest.lastKeptCommit, input.head, input.refs, c);
      assert validation.Err?;
      assert Process(s, input) == Failing(Opened(s, input), validation.error, Some(c));
    }
  }

  /** The evaluation improves on what is kept, by the policy of the run. */
  predicate Improves(m: Manifest, e: Evaluation) {
    && e.Evaluated? && e.pass
    && (m.keepPolicy == PassOnly || (m.lastKeptScore.Some? && e.score.Some? && m.lastKeptScore.value < e.score.value))
  }

  /** A ready candidate is evaluated and recorded under the commit HEAD was at. It is kept exactly when
      it improves; if it does not and the worktree cannot be reset, the call throws with nothing
      recorded. */
  lemma ReadyCandidateIsJudged(s: State, input: Input)
    requires !Unusable(s, input) && input.candidateFile.value.status == CandidateReady
    ensures var (t, outcome) := Process(s, input);
            var improves := Improves(s.manifest, input.evaluation);
            && (outcome == Threw <==> !improves && (input.dirtyAfterEvaluation || input.resetFails))
            && (outcome == Threw ==>
                  t.ledger == s.ledger && t.results == s.results && t.disk == s.disk && t.head == input.headAfterEvaluation)
            && (outcome != Threw ==>
                  && |t.ledger| > 0
                  && var e := t.ledger[|t.ledger| - 1];
                  && Adds(s, t, e) && e.evaluator == Some(input.evaluation) && e.candidateCommit == Some(input.head)
                  && e.baseCommit == s.manifest.lastKeptCommit && e.description == input.candidateFile.value.description
                  && outcome == Returned(e.decision) && (e.decision == Keep <==> improves)
                  && t.manifest == t.disk && t.manifest.status == s.manifest.status && t.manifest.stopReason == s.manifest.stopReason
                  && t.manifest.latestCandidateCommit == Some(input.head)
                  && e.keptCommit == t.head == t.manifest.lastKeptCommit
                  && if improves then
                       t.head == input.headAfterEvaluation
                       && t.manifest.lastKeptScore == if input.evaluation.score.Some? then input.evaluation.score else s.manifest.lastKeptScore
                     else KeepsNothing(s, t))
  {
  }

  /** A passing candidate that cannot be compared is ambiguous, any other that does not improve is
      discarded. */
  lemma NotKeptIs(s: State, input: Input)
    requires !Unusable(s, input) && input.candidateFile.value.status == CandidateReady && !Improves(s.manifest, input.evaluation)
    requires !input.dirtyAfterEvaluation && !input.resetFails
    ensures Process(s, input).1 == Returned(
              if input.evaluation.Evaluated? && input.evaluation.pass
                 && (s.manifest.lastKeptScore.None? || input.evaluation.score.None?) then Ambiguous else Discard)
  {
  }

  /** The statuses that are not evaluated: abort stops the run, noop and a clean interruption go on,
      each with its entry; an interruption with a dirty worktree fails the run without one. */
  lemma OtherStatusIsRecorded(s: State, input: Input)
    requires !Unusable(s, input) && input.candidateFile.value.status != CandidateReady
    ensures var (t, outcome) := Process(s, input);
            var c := input.candidateFile.value;
            && KeepsNothing(s, t) && t.head == input.head
            && if c.status == Interrupted && input.dirty then
                 && t.ledger == s.ledger && t.results == s.results
                 && outcome == Returned(Error) && t.manifest.status == Failed && t.manifest.stopReason.Some?
               else
                 && |t.ledger| > 0
                 && var e := t.ledger[|t.ledger| - 1];
                 && Adds(s, t, e) && e.evaluator.None? && outcome == Returned(e.decision)
                 && e.baseCommit == e.keptCommit == s.manifest.lastKeptCommit
                 && e.candidateCommit == t.manifest.latestCandidateCommit == c.candidateCommit && e.description == c.description
                 && (match c.status
                     case Abort => e.decision == AbortSeen && t.manifest.status == Stopped && t.manifest.stopReason.Some?
                     case Noop => e.decision == NoopSeen && t.manifest.status == s.manifest.status
                     case Interrupted => e.decision == InterruptedSeen && t.manifest.status == s.manifest.status
                     case CandidateReady => false)
  {
  }

  /** The run gets an error entry exactly when the call finds nothing it can judge. */
  lemma FailsExactlyWhen(s: State, input: Input)
    ensures var t := Process(s, input).0;
            Unusable(s, input) <==> |t.ledger| > |s.ledger| && t.ledger[|t.ledger| - 1].decision == Error
  {
    if Unusable(s, input) {
      UnusableFails(s, input);
    } else if input.candidateFile.value.status == CandidateReady {
      ReadyCandidateIsJudged(s, input);
      NeverError(s, input);
    } else {
      OtherStatusIsRecorded(s, input);
    }
  }

  lemma NeverError(s: State, input: Input)
    requires !Unusable(s, input) && input.candidateFile.value.status == CandidateReady
    ensures Process(s, input).1 != Returned(Error)
  {
  }

  /** The row of an entry: a commit by its first seven characters, and the entry's own fields. */
  lemma RowIs(e: Entry, head: Commit)
    ensures var row := RowOf(e, head);
            && row.commit <= head && |row.commit| == (if |head| < 7 then |head| else 7)
            && row.iteration == e.iteration && row.status == e.decision && row.description == e.description
            && (row.pass == Some(true) <==> Passing(e.evaluator)) && (row.pass.None? <==> e.evaluator.None? || e.evaluator.value.EvaluatorError?)
            && (row.score.Some? ==> e.evaluator.Some? && e.evaluator.value.Evaluated? && e.evaluator.value.score == row.score)
            && (e.evaluator.Some? && e.evaluator.value.Evaluated? ==> row.score == e.evaluator.value.score)
  {
  }

  /** The baseline: one entry and row with what the evaluator said, kept with the score of a pass. */
  lemma BaselineIs(baseline: string, fullHead: Commit, policy: KeepPolicy, evaluation: Evaluation, headAfter: Commit)
    ensures var s := Seeded(baseline, fullHead, policy, evaluation, headAfter);
            && |s.ledger| == |s.results| == 1 && s.manifest == s.disk && s.head == headAfter
            && s.ledger[0].iteration == s.manifest.iteration == 0 && s.ledger[0].kind == Baseline
            && s.ledger[0].evaluator == Some(evaluation) && s.ledger[0].candidateCommit.None?
            && s.ledger[0].baseCommit == s.manifest.baselineCommit == baseline
            && s.ledger[0].keptCommit == s.manifest.lastKeptCommit == fullHead
            && s.ledger[0].decision == (if evaluation.EvaluatorError? then Error else BaselineSet)
            && s.manifest.lastKeptScore == (if evaluation.Evaluated? && evaluation.pass then evaluation.score else None)
            && s.manifest.keepPolicy == policy && s.manifest.status == Running && s.manifest.stopReason.None?
  {
  }

  /** An operator's stop ends a run that the disk says is running, and nothing else. */
  lemma StopIs(s: State, status: RunStatus, reason: string)
    ensures var t := Apply(s, Stop(status, reason));
            && t.ledger == s.ledger && t.results == s.results && t.head == s.head
            && t.disk.lastKeptCommit == s.disk.lastKeptCommit && t.disk.lastKeptScore == s.disk.lastKeptScore && t.disk.iteration == s.disk.iteration
            && (s.disk.status != Running ==> t == s)
            && (s.disk.status == Running ==> t.manifest == t.disk && t.disk.status == status && t.disk.stopReason == Some(reason))
  {
  }

  /** Every step either records nothing or exactly one entry with its row. */
  lemma StepRecords(s: State, step: Step)
    ensures RecordsOrStutters(s, Apply(s, step), OutcomeOf(s, step))
  {
    if step.Call? {
      CallRecords(s, step.input);
    }
  }

  lemma RecordingKeepsTable(s: State, t: State, e: Entry, head: Commit)
    requires TableMatchesLedger(s) && Records(s, t, e, head)
    ensures TableMatchesLedger(t)
  {
  }

  lemma RecordingKeepsOrder(s: State, t: State, e: Entry, head: Commit)
    requires IterationsIncrease(s) && Records(s, t, e, head)
    ensures IterationsIncrease(t)
  {
    assert forall i :: 0 <= i < |s.ledger| ==> s.ledger[i].iteration < e.iteration;
  }

  lemma RecordingKeepsChain(s: State, t: State, e: Entry, head: Commit)
    requires ChainOfKeptCommits(s) && Records(s, t, e, head)
    ensures ChainOfKeptCommits(t)
  {
  }

  lemma RecordingKeepsBookkeeping(s: State, t: State, e: Entry, head: Commit)
    requires Bookkeeping(s) && Records(s, t, e, head)
    ensures Bookkeeping(t)
  {
    RecordingKeepsTable(s, t, e, head);
    RecordingKeepsOrder(s, t, e, head);
    RecordingKeepsChain(s, t, e, head);
  }

  lemma StepKeepsBookkeeping(s: State, step: Step)
    requires Bookkeeping(s)
    ensures Bookkeeping(Apply(s, step))
  {
    StepRecords(s, step);
    TransitionKeepsBookkeeping(s, Apply(s, step), OutcomeOf(s, step));
  }

  lemma TransitionKeepsBookkeeping(s: State, t: State, outcome: Outcome)
    requires Bookkeeping(s) && RecordsOrStutters(s, t, outcome)
    ensures Bookkeeping(t)
  {
    if !Stutters(s, t) {
      RecordingKeepsBookkeeping(s, t, t.ledger[|t.ledger| - 1], t.head);
    }
  }

  lemma {:induction false} BookkeepingInEveryRun(baseline: string, fullHead: Commit, policy: KeepPolicy, evaluation: Evaluation,
                                                headAfter: Commit, steps: seq<Step>)
    ensures Bookkeeping(Run(Seeded(baseline, fullHead, policy, evaluation, headAfter), steps))
    decreases |steps|
  {
    if steps != [] {
      BookkeepingInEveryRun(baseline, fullHead, policy, evaluation, headAfter, steps[..|steps| - 1]);
      StepKeepsBookkeeping(Run(Seeded(baseline, fullHead, policy, evaluation, headAfter), steps[..|steps| - 1]), steps[|steps| - 1]);
    }
  }

  /** A candidate that was evaluated and judged leaves HEAD at the last kept commit, wherever the
      session or the evaluator had moved it. */
  lemma HeadIsLastKept(s: State, input: Input)
    ensures var (t, outcome) := Process(s, input);
            outcome != Threw && t.ledger != s.ledger && t.ledger[|t.ledger| - 1].evaluator.Some?
            ==> t.head == t.manifest.lastKeptCommit == t.disk.lastKeptCommit
  {
    CallRecords(s, input);
  }

  /** The last score with which an entry of the ledger passed. */
  function LastPassingScore(ledger: seq<Entry>): Option<real> {
    if ledger == [] then None
    else
      var e := ledger[|ledger| - 1];
      if Passing(e.evaluator) && ScoreOf(e.evaluator).Some? then ScoreOf(e.evaluator)
      else LastPassingScore(ledger[..|ledger| - 1])
  }

  /** best is the greatest score with which an entry of the ledger passed. */
  ghost predicate IsBestPassingScore(ledger: seq<Entry>, best: real) {
    && (exists i :: 0 <= i < |ledger| && Passing(ledger[i].evaluator) && ScoreOf(ledger[i].evaluator) == Some(best))
    && (forall i :: 0 <= i < |ledger| && Passing(ledger[i].evaluator) && ScoreOf(ledger[i].evaluator).Some?
                    ==> ScoreOf(ledger[i].evaluator).value <= best)
  }

  /** Under score improvement: what the baseline decides for the whole run. */
  ghost predicate ScoreInvariant(s: State) {
    && s.manifest.keepPolicy == s.disk.keepPolicy == ScoreImprovement
    && s.manifest.lastKeptScore == s.disk.lastKeptScore && s.manifest.lastKeptCommit == s.disk.lastKeptCommit
    && s.ledger != []
    && var first := s.ledger[0];
       if Passing(first.evaluator) && ScoreOf(first.evaluator).Some?
       then s.manifest.lastKeptScore.Some? && IsBestPassingScore(s.ledger, s.manifest.lastKeptScore.value)
       else s.manifest.lastKeptScore.None? && s.manifest.lastKeptCommit == first.keptCommit
            && forall i :: 0 <= i < |s.ledger| ==> s.ledger[i].decision != Keep
  }

  lemma BestAfterAppend(ledger: seq<Entry>, e: Entry, best: real, best': real)
    requires IsBestPassingScore(ledger, best)
    requires if Passing(e.evaluator) && ScoreOf(e.evaluator).Some? && ScoreOf(e.evaluator).value > best
             then best' == ScoreOf(e.evaluator).value else best' == best
    ensures IsBestPassingScore(ledger + [e], best')
  {
    var i :| 0 <= i < |ledger| && Passing(ledger[i].evaluator) && ScoreOf(ledger[i].evaluator) == Some(best);
    assert (ledger + [e])[i] == ledger[i];
    assert (ledger + [e])[|ledger|] == e;
  }

  lemma RecordingKeepsScoreInvariant(s: State, t: State, e: Entry, head: Commit)
    requires ScoreInvariant(s) && Records(s, t, e, head)
    ensures ScoreInvariant(t)
  {
    assert t.ledger[0] == s.ledger[0];
    if s.manifest.lastKeptScore.Some? {
      BestAfterAppend(s.ledger, e, s.manifest.lastKeptScore.value, t.manifest.lastKeptScore.value);
    }
  }

  lemma StepKeepsScoreInvariant(s: State, step: Step)
    requires ScoreInvariant(s)
    ensures ScoreInvariant(Apply(s, step))
  {
    StepRecords(s, step);
    TransitionKeepsScoreInvariant(s, Apply(s, step), OutcomeOf(s, step));
  }

  lemma TransitionKeepsScoreInvariant(s: State, t: State, outcome: Outcome)
    requires ScoreInvariant(s) && RecordsOrStutters(s, t, outcome)
    ensures ScoreInvariant(t)
  {
    if !Stutters(s, t) {
      RecordingKeepsScoreInvariant(s, t, t.ledger[|t.ledger| - 1], t.head);
    }
  }

  lemma {:induction false} ScoresInEveryRun(baseline: string, fullHead: Commit, evaluation: Evaluation, headAfter: Commit, steps: seq<Step>)
    ensures ScoreInvariant(Run(Seeded(baseline, fullHead, ScoreImprovement, evaluation, headAfter), steps))
    decreases |steps|
  {
    var s := Seeded(baseline, fullHead, ScoreImprovement, evaluation, headAfter);
    if steps == [] {
      assert s.ledger[0].evaluator == Some(evaluation);
    } else {
      ScoresInEveryRun(baseline, fullHead, evaluation, headAfter, steps[..|steps| - 1]);
      StepKeepsScoreInvariant(Run(s, steps[..|steps| - 1]), steps[|steps| - 1]);
    }
  }

  /** If the baseline passed with a score, the kept score is the best passing score of the ledger;
      otherwise nothing is ever kept. */
  lemma KeptScoreIsBest(baseline: string, fullHead: Commit, evaluation: Evaluation, headAfter: Commit, steps: seq<Step>)
    ensures var s := Run(Seeded(baseline, fullHead, ScoreImprovement, evaluation, headAfter), steps);
            if evaluation.Evaluated? && evaluation.pass && evaluation.score.Some?
            then s.manifest.lastKeptScore.Some? && IsBestPassingScore(s.ledger, s.manifest.lastKeptScore.value)
            else s.manifest.lastKeptScore.None? && s.manifest.lastKeptCommit == fullHead
                 && forall i :: 0 <= i < |s.ledger| ==> s.ledger[i].decision != Keep
  {
    ScoresInEveryRun(baseline, fullHead, evaluation, headAfter, steps);
    FirstEntryStays(Seeded(baseline, fullHead, ScoreImprovement, evaluation, headAfter), steps);
  }

  lemma {:induction false} FirstEntryStays(s: State, steps: seq<Step>)
    requires s.ledger != []
    ensures Run(s, steps).ledger != [] && Run(s, steps).ledger[0] == s.ledger[0]
    decreases |steps|
  {
    if steps != [] {
      FirstEntryStays(s, steps[..|steps| - 1]);
      StepRecords(Run(s, steps[..|steps| - 1]), steps[|steps| - 1]);
    }
  }

  /** The kept commit and score change only at a keep, and there the score strictly rises. */
  lemma ScoreRisesAtKeep(s: State, step: Step)
    requires ScoreInvariant(s)
    ensures var t := Apply(s, step);
            if OutcomeOf(s, step) == Returned(Keep)
            then s.manifest.lastKeptScore.Some? && t.manifest.lastKeptScore.Some?
                 && s.manifest.lastKeptScore.value < t.manifest.lastKeptScore.value
            else t.manifest.lastKeptScore == s.manifest.lastKeptScore && t.manifest.lastKeptCommit == s.manifest.lastKeptCommit
  {
    StepRecords(s, step);
    ScoreRises(s, Apply(s, step), OutcomeOf(s, step));
  }

  lemma ScoreRises(s: State, t: State, outcome: Outcome)
    requires ScoreInvariant(s) && RecordsOrStutters(s, t, outcome)
    ensures if outcome == Returned(Keep)
            then s.manifest.lastKeptScore.Some? && t.manifest.lastKeptScore.Some?
                 && s.manifest.lastKeptScore.value < t.manifest.lastKeptScore.value
            else t.manifest.lastKeptScore == s.manifest.lastKeptScore && t.manifest.lastKeptCommit == s.manifest.lastKeptCommit
  {
  }

  /** Under pass_only the kept score is the latest passing one, which may well be lower. */
  ghost predicate PassOnlyInvariant(s: State) {
    && s.manifest.keepPolicy == s.disk.keepPolicy == PassOnly
    && s.manifest.lastKeptScore == s.disk.lastKeptScore == LastPassingScore(s.ledger)
    && forall i :: 0 < i < |s.ledger| ==> (s.ledger[i].decision == Keep <==> Passing(s.ledger[i].evaluator))
  }

  lemma RecordingKeepsPassOnly(s: State, t: State, e: Entry, head: Commit)
    requires PassOnlyInvariant(s) && Records(s, t, e, head)
    ensures PassOnlyInvariant(t)
  {
    assert t.ledger[..|s.ledger|] == s.ledger;
  }

  lemma StepKeepsPassOnly(s: State, step: Step)
    requires PassOnlyInvariant(s)
    ensures PassOnlyInvariant(Apply(s, step))
  {
    StepRecords(s, step);
    TransitionKeepsPassOnly(s, Apply(s, step), OutcomeOf(s, step));
  }

  lemma TransitionKeepsPassOnly(s: State, t: State, outcome: Outcome)
    requires PassOnlyInvariant(s) && RecordsOrStutters(s, t, outcome)
    ensures PassOnlyInvariant(t)
  {
    if !Stutters(s, t) {
      RecordingKeepsPassOnly(s, t, t.ledger[|t.ledger| - 1], t.head);
    }
  }

  lemma {:induction false} PassOnlyInEveryRun(baseline: string, fullHead: Commit, evaluation: Evaluation, headAfter: Commit, steps: seq<Step>)
    ensures PassOnlyInvariant(Run(Seeded(baseline, fullHead, PassOnly, evaluation, headAfter), steps))
    decreases |steps|
  {
    if steps != [] {
      PassOnlyInEveryRun(baseline, fullHead, evaluation, headAfter, steps[..|steps| - 1]);
      StepKeepsPassOnly(Run(Seeded(baseline, fullHead, PassOnly, evaluation, headAfter), steps[..|steps| - 1]), steps[|steps| - 1]);
    }
  }

  /** An exception leaves ledger, table and manifest file as they were: resuming from disk is as
      if the call had not been made, except for where it left HEAD. */
  lemma ResumeAfterException(s: State, input: Input)
    requires s.manifest == s.disk && Process(s, input).1 == Threw
    ensures Apply(Process(s, input).0, Resume) == s.(head := input.headAfterEvaluation)
    ensures input.dirtyAfterEvaluation || input.resetFails
  {
  }
}
