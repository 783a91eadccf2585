/**
 The life of research goals (src/autoresearch/goal.ts): their mission files, completion artifacts
 and ledgers, one directory each. Every operation is given twice: as the method that rewrites the
 files, and as a function on their contents over which whole runs are stated.

 An operation is addressed by a text. The goal's directory is named by the slug of that text, but
 `complete` reads the artifact from the directory named by the slug of that slug.
 */
module Goal {
  import opened Wrappers
  import opened Text
  import opened Slug

  datatype Status = Created | InProgress | Passed | Failed | Blocked | Complete

  datatype Verdict = PassVerdict | FailVerdict | BlockedVerdict

  datatype Mission = Mission(slug: string, topic: string, rubric: string, status: Status, updatedAt: nat, completedAt: Option<nat>)

  datatype Completion = Completion(verdict: Verdict, passed: bool, summary: string, evidence: string, recordedAt: nat)

  datatype Event = WorkflowCreated | HandoffEmitted | Validated(verdict: Verdict) | GoalCompleted

  datatype Entry = Entry(event: Event, status: Status, evidence: string)

  datatype Files = Files(mission: Option<Mission>, completion: Option<Completion>, ledger: seq<Entry>)

  /** The goal directories of a repository, by name. */
  type Goals = map<string, Files>

  datatype Error = MissingText | AlreadyExists | NotFound | AlreadyComplete | NotValidated | NotReconciled

  datatype Op =
    | Create(option: Option<string>, topic: string, rubric: string, force: bool)
    | Handoff(slug: string)
    | Record(slug: string, verdict: Verdict, evidence: string, summary: string)
    | Finish(slug: string, reconciled: bool)

  function NoFiles(): Files {
    Files(None, None, [])
  }

  function FilesAt(g: Goals, name: string): Files {
    if name in g then g[name] else NoFiles()
  }

  function StatusOf(v: Verdict): Status {
    match v
    case PassVerdict => Passed
    case FailVerdict => Failed
    case BlockedVerdict => Blocked
  }

  predicate Passes(c: Option<Completion>) {
    c.Some? && c.value.passed && c.value.verdict == PassVerdict
  }

  /** What a creation is named after: --slug if given, else the topic. */
  function NamedAfter(option: Option<string>, topic: string): string {
    if option.Some? then option.value else Trim(topic)
  }

  // ---------------------------------------------------------------- one directory

  /** Why an operation is refused; None when it goes through. `artifact` is what `complete` reads. */
  function Refusal(f: Files, op: Op, artifact: Option<Completion>): Option<Error> {
    match op
    case Create(_, topic, rubric, force) =>
      if Trim(topic) == "" || Trim(rubric) == "" then Some(MissingText)
      else if !force && f.mission.Some? then Some(AlreadyExists)
      else None
    case Handoff(_) => if f.mission.None? then Some(NotFound) else None
    case Record(_, _, evidence, _) =>
      if f.mission.None? then Some(NotFound)
      else if f.mission.value.status == Complete then Some(AlreadyComplete)
      else if Trim(evidence) == "" then Some(MissingText)
      else None
    case Finish(_, reconciled) =>
      if f.mission.None? then Some(NotFound)
      else if !Passes(artifact) then Some(NotValidated)
      else if !reconciled then Some(NotReconciled)
      else None
  }

  /** The directory after an operation on it; a refused one changes nothing. Forced creation leaves
      an old completion artifact where it is. */
  function After(f: Files, op: Op, artifact: Option<Completion>, now: nat): Files {
    if Refusal(f, op, artifact).Some? then f else
    match op
    case Create(option, topic, rubric, _) =>
      Files(Some(Mission(Slugify(NamedAfter(option, topic)), Trim(topic), Trim(rubric), Created, now, None)), f.completion,
            [Entry(WorkflowCreated, Created, "")])
    case Handoff(_) =>
      var m := f.mission.value;
      var m' := if m.status == Created then m.(status := InProgress, updatedAt := now) else m;
      f.(mission := Some(m'), ledger := f.ledger + [Entry(HandoffEmitted, m'.status, "")])
    case Record(_, verdict, evidence, summary) =>
      var e := Trim(evidence);
      f.(mission := Some(f.mission.value.(status := StatusOf(verdict), updatedAt := now)),
         completion := Some(Completion(verdict, verdict == PassVerdict, if Trim(summary) != "" then Trim(summary) else e, e, now)),
         ledger := f.ledger + [Entry(Validated(verdict), StatusOf(verdict), e)])
    case Finish(_, _) =>
      f.(mission := Some(f.mission.value.(status := Complete, updatedAt := now, completedAt := Some(now))),
         ledger := f.ledger + [Entry(GoalCompleted, Complete, artifact.value.evidence)])
  }

  /** What a creation leaves: a new mission and ledger, and the old completion artifact. */
  lemma CreationLeaves(f: Files, op: Op, artifact: Option<Completion>, now: nat)
    requires op.Create? && Refusal(f, op, artifact).None?
    ensures var g := After(f, op, artifact, now);
            && g.mission.Some? && g.mission.value.status == Created && g.mission.value.completedAt.None?
            && g.mission.value.topic == Trim(op.topic) != "" && g.mission.value.rubric == Trim(op.rubric) != ""
            && g.mission.value.slug == Slugify(if op.option.Some? then op.option.value else Trim(op.topic))
            && g.completion == f.completion && |g.ledger| == 1 && g.ledger[0].event == WorkflowCreated
            && (f.mission.Some? ==> op.force)
  {
  }

  /** What the other operations leave alone, and that each is entered in the ledger with the status it
      leads to. */
  lemma OperationLeaves(f: Files, op: Op, artifact: Option<Completion>, now: nat)
    requires !op.Create? && Refusal(f, op, artifact).None?
    ensures var g := After(f, op, artifact, now);
            && f.mission.Some? && g.mission.Some?
            && var (m, m') := (f.mission.value, g.mission.value);
               && m'.slug == m.slug && m'.topic == m.topic && m'.rubric == m.rubric
               && |g.ledger| == |f.ledger| + 1 && g.ledger[..|f.ledger|] == f.ledger && g.ledger[|f.ledger|].status == m'.status
               && (!op.Record? ==> g.completion == f.completion) && (!op.Finish? ==> m'.completedAt == m.completedAt)
  {
  }

  /** What they change. */
  lemma OperationChanges(f: Files, op: Op, artifact: Option<Completion>, now: nat)
    requires !op.Create? && Refusal(f, op, artifact).None?
    ensures var g := After(f, op, artifact, now);
            var (m, m', e) := (f.mission.value, g.mission.value, g.ledger[|g.ledger| - 1]);
            && (op.Handoff? ==>
                  && e.event == HandoffEmitted && m'.status == (if m.status == Created then InProgress else m.status)
                  && m'.updatedAt == if m.status == Created then now else m.updatedAt)
            && (op.Record? ==>
                  && g.completion.Some? && g.completion.value.verdict == op.verdict && (g.completion.value.passed <==> op.verdict == PassVerdict)
                  && g.completion.value.evidence == e.evidence == Trim(op.evidence) != "" && g.completion.value.recordedAt == m'.updatedAt == now
                  && g.completion.value.summary == (if Trim(op.summary) == "" then Trim(op.evidence) else Trim(op.summary))
                  && m.status != Complete && e.event == Validated(op.verdict)
                  && m'.status == match op.verdict case PassVerdict => Passed case FailVerdict => Failed case BlockedVerdict => Blocked)
            && (op.Finish? ==>
                  && op.reconciled && artifact.Some? && artifact.value.passed && artifact.value.verdict == PassVerdict
                  && e.event == GoalCompleted && e.evidence == artifact.value.evidence
                  && m'.status == Complete && m'.completedAt == Some(now) && m'.updatedAt == now)
  {
  }

  /** An operation is refused for want of a text, a mission, a passing artifact or a reconciled snapshot,
      or because the goal is there already or complete, and for no other reason. */
  lemma RefusedExactlyWhen(f: Files, op: Op, artifact: Option<Completion>)
    ensures Refusal(f, op, artifact).None? <==>
              && (op.Create? ==> Trim(op.topic) != "" && Trim(op.rubric) != "" && (op.force || f.mission.None?))
              && (!op.Create? ==> f.mission.Some?)
              && (op.Record? ==> f.mission.value.status != Complete && Trim(op.evidence) != "")
              && (op.Finish? ==> artifact.Some? && artifact.value.passed && artifact.value.verdict == PassVerdict && op.reconciled)
  {
  }

  // ---------------------------------------------------------------- all directories

  /** The name of the directory an operation reads the mission from, or creates. */
  function Address(op: Op): string {
    match op
    case Create(option, topic, _, _) => Slugify(NamedAfter(option, topic))
    case _ => Slugify(op.slug)
  }

  /** readAutoresearchGoalCompletion of the mission's slug, which is slugified again. */
  function Artifact(g: Goals, name: string): Option<Completion> {
    var mission := FilesAt(g, name).mission;
    if mission.None? then None else FilesAt(g, Slugify(mission.value.slug)).completion
  }

  function Refused(g: Goals, op: Op): Option<Error> {
    Refusal(FilesAt(g, Address(op)), op, Artifact(g, Address(op)))
  }

  /** writeMission: the mission says itself where it belongs. */
  function Wrote(g: Goals, m: Mission): Goals {
    g[m.slug := FilesAt(g, m.slug).(mission := Some(m))]
  }

  function Stored(g: Goals, name: string, c: Completion): Goals {
    g[name := FilesAt(g, name).(completion := Some(c))]
  }

  function Logged(g: Goals, name: string, e: Entry): Goals {
    g[name := FilesAt(g, name).(ledger := FilesAt(g, name).ledger + [e])]
  }

  /** The repository after an operation, file write by file write. */
  function Step(g: Goals, op: Op, now: nat): Goals {
    var name := Address(op);
    if Refused(g, op).Some? then g else
    match op
    case Create(_, topic, rubric, _) =>
      var emptied := g[name := FilesAt(g, name).(ledger := [])];
      Logged(Wrote(emptied, Mission(name, Trim(topic), Trim(rubric), Created, now, None)), name, Entry(WorkflowCreated, Created, ""))
    case Handoff(_) =>
      var m := FilesAt(g, name).mission.value;
      if m.status == Created then
        Logged(Wrote(g, m.(status := InProgress, updatedAt := now)), m.slug, Entry(HandoffEmitted, InProgress, ""))
      else Logged(g, m.slug, Entry(HandoffEmitted, m.status, ""))
    case Record(_, verdict, evidence, summary) =>
      var m := FilesAt(g, name).mission.value.(status := StatusOf(verdict), updatedAt := now);
      var e := Trim(evidence);
      var c := Completion(verdict, verdict == PassVerdict, if Trim(summary) != "" then Trim(summary) else e, e, now);
      Logged(Stored(Wrote(g, m), m.slug, c), m.slug, Entry(Validated(verdict), m.status, e))
    case Finish(_, _) =>
      var m := FilesAt(g, name).mission.value.(status := Complete, updatedAt := now, completedAt := Some(now));
      Logged(Wrote(g, m), m.slug, Entry(GoalCompleted, Complete, Artifact(g, name).value.evidence))
  }

  /** The directories under .omx/goals/autoresearch. */
  class GoalStore {
    var goals: Goals

    constructor ()
      ensures goals == map[]
    {
      goals := map[];
    }

    method WriteMission(m: Mission)
      modifies this
      ensures goals == Wrote(old(goals), m)
    {
      goals := goals[m.slug := FilesAt(goals, m.slug).(mission := Some(m))];
    }

    method AppendLedger(name: string, e: Entry)
      modifies this
      ensures goals == Logged(old(goals), name, e)
    {
      var files := FilesAt(goals, name);
      goals := goals[name := files.(ledger := files.ledger + [e])];
    }

    method ReadGoal(slug: string) returns (m: Option<Mission>)
      ensures m == FilesAt(goals, Slugify(slug)).mission
    {
      var name := Slugify(slug);
      m := if name in goals then goals[name].mission else None;
    }

    method ReadCompletion(slug: string) returns (c: Option<Completion>)
      ensures c == FilesAt(goals, Slugify(slug)).completion
    {
      var name := Slugify(slug);
      c := if name in goals then goals[name].completion else None;
    }

    method CreateGoal(option: Option<string>, topic: string, rubric: string, force: bool, now: nat) returns (error: Option<Error>)
      modifies this
      ensures error == Refused(old(goals), Create(option, topic, rubric, force))
      ensures goals == Step(old(goals), Create(option, topic, rubric, force), now)
    {
      var trimmedTopic := Trim(topic);
      if trimmedTopic == "" {
        return Some(MissingText);
      }
      var trimmedRubric := Trim(rubric);
      if trimmedRubric == "" {
        return Some(MissingText);
      }
      var slug := Slugify(if option.Some? then option.value else trimmedTopic);
      var files := FilesAt(goals, slug);
      if !force && files.mission.Some? {
        return Some(AlreadyExists);
      }
      goals := goals[slug := files.(ledger := [])];
      WriteMission(Mission(slug, trimmedTopic, trimmedRubric, Created, now, None));
      AppendLedger(slug, Entry(WorkflowCreated, Created, ""));
      error := None;
    }

    method BuildHandoff(slug: string, now: nat) returns (error: Option<Error>)
      modifies this
      ensures error == Refused(old(goals), Handoff(slug))
      ensures goals == Step(old(goals), Handoff(slug), now)
    {
      var mission := ReadGoal(slug);
      if mission.None? {
        return Some(NotFound);
      }
      var m := mission.value;
      if m.status == Created {
        m := m.(status := InProgress, updatedAt := now);
        WriteMission(m);
      }
      AppendLedger(m.slug, Entry(HandoffEmitted, m.status, ""));
      error := None;
    }

    method RecordVerdict(slug: string, verdict: Verdict, evidence: string, summary: string, now: nat) returns (error: Option<Error>)
      modifies this
      ensures error == Refused(old(goals), Record(slug, verdict, evidence, summary))
      ensures goals == Step(old(goals), Record(slug, verdict, evidence, summary), now)
    {
      var mission := ReadGoal(slug);
      if mission.None? {
        return Some(NotFound);
      }
      var m := mission.value;
      if m.status == Complete {
        return Some(AlreadyComplete);
      }
      var trimmed := Trim(evidence);
      if trimmed == "" {
        return Some(MissingText);
      }
      var completion := Completion(verdict, verdict == PassVerdict, if Trim(summary) != "" then Trim(summary) else trimmed, trimmed, now);
      m := m.(status := StatusOf(verdict), updatedAt := now);
      WriteMission(m);
      goals := goals[m.slug := FilesAt(goals, m.slug).(completion := Some(completion))];
      AppendLedger(m.slug, Entry(Validated(verdict), m.status, trimmed));
      error := None;
    }

    method CompleteGoal(slug: string, reconciled: bool, now: nat) returns (error: Option<Error>)
      modifies this
      ensures error == Refused(old(goals), Finish(slug, reconciled))
      ensures goals == Step(old(goals), Finish(slug, reconciled), now)
    {
      var mission := ReadGoal(slug);
      if mission.None? {
        return Some(NotFound);
      }
      var m := mission.value;
      var completion := ReadCompletion(m.slug);
      if completion.None? || !completion.value.passed || completion.value.verdict != PassVerdict {
        return Some(NotValidated);
      }
      if !reconciled {
        return Some(NotReconciled);
      }
      m := m.(status := Complete, updatedAt := now, completedAt := Some(now));
      WriteMission(m);
      AppendLedger(m.slug, Entry(GoalCompleted, Complete, completion.value.evidence));
      error := None;
    }
  }

  // ---------------------------------------------------------------- runs

  type Call = (Op, nat)

  predicate Forced(op: Op) {
    op.Create? && op.force
  }

  ghost predicate Unforced(calls: seq<Call>) {
    forall i :: 0 <= i < |calls| ==> !Forced(calls[i].0)
  }

  function Replay(g: Goals, calls: seq<Call>): Goals {
    if calls == [] then g else
    var before := Replay(g, calls[..|calls| - 1]);
    Step(before, calls[|calls| - 1].0, calls[|calls| - 1].1)
  }

  /** A run from a repository without goals. */
  function Start(calls: seq<Call>): Goals {
    Replay(map[], calls)
  }

  /** Every mission lies in the directory it names. */
  ghost predicate AtHome(g: Goals) {
    forall name :: name in g && g[name].mission.Some? ==> g[name].mission.value.slug == name
  }

  /** The file writes of an operation change the directory it is addressed to and no other. */
  lemma StepAt(g: Goals, op: Op, now: nat)
    requires AtHome(g)
    ensures AtHome(Step(g, op, now))
    ensures forall name :: FilesAt(Step(g, op, now), name)
                        == if name == Address(op) then After(FilesAt(g, name), op, Artifact(g, name), now) else FilesAt(g, name)
  {
    var at := Address(op);
    var after := After(FilesAt(g, at), op, Artifact(g, at), now);
    if Refused(g, op).None? {
      StepIsOneWrite(g, op, now);
      assert Step(g, op, now) == g[at := after];
      OneWriteAt(g, at, after);
    } else {
      assert Step(g, op, now) == g && after == FilesAt(g, at);
    }
  }

  lemma OneWriteAt(g: Goals, name: string, files: Files)
    requires AtHome(g) && files.mission.Some? && files.mission.value.slug == name
    ensures AtHome(g[name := files])
    ensures forall n :: FilesAt(g[name := files], n) == if n == name then files else FilesAt(g, n)
  {
    forall n ensures FilesAt(g[name := files], n) == if n == name then files else FilesAt(g, n) {
      assert n in g[name := files] <==> n == name || n in g;
    }
  }

  lemma WroteLogged(g: Goals, m: Mission, e: Entry)
    ensures Logged(Wrote(g, m), m.slug, e) == var f := FilesAt(g, m.slug); g[m.slug := Files(Some(m), f.completion, f.ledger + [e])]
  {
  }

  lemma WroteStoredLogged(g: Goals, m: Mission, c: Completion, e: Entry)
    ensures Logged(Stored(Wrote(g, m), m.slug, c), m.slug, e)
         == g[m.slug := Files(Some(m), Some(c), FilesAt(g, m.slug).ledger + [e])]
  {
  }

  /** The operation comes down to one write of its directory. */
  ghost predicate OneWrite(g: Goals, op: Op, now: nat) {
    var after := After(FilesAt(g, Address(op)), op, Artifact(g, Address(op)), now);
    Step(g, op, now) == g[Address(op) := after] && after.mission.Some? && after.mission.value.slug == Address(op)
  }

  lemma CreateIsOneWrite(g: Goals, op: Op, now: nat)
    requires op.Create? && Refused(g, op).None?
    ensures OneWrite(g, op, now)
  {
    var name, created := Address(op), Entry(WorkflowCreated, Created, "");
    var emptied := g[name := FilesAt(g, name).(ledger := [])];
    var m := Mission(name, Trim(op.topic), Trim(op.rubric), Created, now, None);
    WroteLogged(emptied, m, created);
    assert [] + [created] == [created];
    assert Step(g, op, now) == emptied[name := Files(Some(m), FilesAt(g, name).completion, [created])];
  }

  lemma HandoffIsOneWrite(g: Goals, op: Op, now: nat)
    requires AtHome(g) && op.Handoff? && Refused(g, op).None?
    ensures OneWrite(g, op, now)
  {
    var m := FilesAt(g, Address(op)).mission.value;
    WroteLogged(g, m.(status := InProgress, updatedAt := now), Entry(HandoffEmitted, InProgress, ""));
  }

  lemma RecordIsOneWrite(g: Goals, op: Op, now: nat)
    requires AtHome(g) && op.Record? && Refused(g, op).None?
    ensures OneWrite(g, op, now)
  {
    var after := After(FilesAt(g, Address(op)), op, Artifact(g, Address(op)), now);
    WroteStoredLogged(g, after.mission.value, after.completion.value, after.ledger[|after.ledger| - 1]);
  }

  lemma FinishIsOneWrite(g: Goals, op: Op, now: nat)
    requires AtHome(g) && op.Finish? && Refused(g, op).None?
    ensures OneWrite(g, op, now)
  {
    var after := After(FilesAt(g, Address(op)), op, Artifact(g, Address(op)), now);
    WroteLogged(g, after.mission.value, after.ledger[|after.ledger| - 1]);
  }

  lemma StepIsOneWrite(g: Goals, op: Op, now: nat)
    requires AtHome(g) && Refused(g, op).None?
    ensures OneWrite(g, op, now)
  {
    match op
    case Create(_, _, _, _) => CreateIsOneWrite(g, op, now);
    case Handoff(_) => HandoffIsOneWrite(g, op, now);
    case Record(_, _, _, _) => RecordIsOneWrite(g, op, now);
    case Finish(_, _) => FinishIsOneWrite(g, op, now);
  }

  lemma {:induction false} RunAtHome(g: Goals, calls: seq<Call>)
    requires AtHome(g)
    ensures AtHome(Replay(g, calls))
  {
    if calls != [] {
      var n := |calls| - 1;
      RunAtHome(g, calls[..n]);
      StepAt(Replay(g, calls[..n]), calls[n].0, calls[n].1);
    }
  }

  lemma RunMore(g: Goals, calls: seq<Call>, c: Call)
    ensures Replay(g, calls + [c]) == Step(Replay(g, calls), c.0, c.1)
  {
    assert (calls + [c])[..|calls|] == calls;
  }

  // ---------------------------------------------------------------- agreement

  /** The verdict of the last validation in the ledger. */
  function LastVerdict(ledger: seq<Entry>): Option<Verdict> {
    if ledger == [] then None
    else if ledger[|ledger| - 1].event.Validated? then Some(ledger[|ledger| - 1].event.verdict)
    else LastVerdict(ledger[..|ledger| - 1])
  }

  /** The completion artifact is the ledger's last validation. */
  ghost predicate ArtifactAgrees(f: Files) {
    match f.completion
    case None => LastVerdict(f.ledger).None?
    case Some(c) =>
      && LastVerdict(f.ledger) == Some(c.verdict) && c.passed == (c.verdict == PassVerdict)
      && Trimmed(c.evidence) && c.evidence != ""
  }

  /** The mission's status is the one the artifact calls for. */
  ghost predicate StatusAgrees(f: Files) {
    match f.mission
    case None => f.completion.None? && f.ledger == []
    case Some(m) =>
      match m.status
      case Created => f.completion.None?
      case InProgress => f.completion.None?
      case Complete =>
        && f.completion.Some? && f.completion.value.verdict == PassVerdict
        && Entry(GoalCompleted, Complete, f.completion.value.evidence) in f.ledger
      case status => f.completion.Some? && StatusOf(f.completion.value.verdict) == status
  }

  ghost predicate Agrees(f: Files) {
    ArtifactAgrees(f) && StatusAgrees(f)
  }

  lemma LastVerdictOfMore(ledger: seq<Entry>, e: Entry)
    ensures LastVerdict(ledger + [e]) == if e.event.Validated? then Some(e.event.verdict) else LastVerdict(ledger)
  {
    assert (ledger + [e])[..|ledger|] == ledger;
  }

  /** An operation that goes by the directory's own artifact keeps the agreement. */
  lemma AfterAgrees(f: Files, op: Op, artifact: Option<Completion>, now: nat)
    requires Agrees(f) && !Forced(op)
    requires op.Finish? && f.mission.Some? ==> artifact == f.completion
    ensures Agrees(After(f, op, artifact, now))
  {
    if Refusal(f, op, artifact).None? {
      match op
      case Create(_, _, _, _) => LastVerdictOfMore([], Entry(WorkflowCreated, Created, ""));
      case Handoff(_) => HandoffAgrees(f, op, artifact, now);
      case Record(_, _, _, _) => RecordAgrees(f, op, artifact, now);
      case Finish(_, _) => FinishAgrees(f, op, now);
    }
  }

  lemma HandoffAgrees(f: Files, op: Op, artifact: Option<Completion>, now: nat)
    requires Agrees(f) && op.Handoff? && f.mission.Some?
    ensures Agrees(After(f, op, artifact, now))
  {
    var f' := After(f, op, artifact, now);
    LastVerdictOfMore(f.ledger, f'.ledger[|f'.ledger| - 1]);
  }

  lemma RecordAgrees(f: Files, op: Op, artifact: Option<Completion>, now: nat)
    requires Agrees(f) && op.Record? && Refusal(f, op, artifact).None?
    ensures Agrees(After(f, op, artifact, now))
  {
    var e := Trim(op.evidence);
    TrimIsTrimmed(op.evidence);
    LastVerdictOfMore(f.ledger, Entry(Validated(op.verdict), StatusOf(op.verdict), e));
  }

  lemma FinishAgrees(f: Files, op: Op, now: nat)
    requires Agrees(f) && op.Finish? && Refusal(f, op, f.completion).None?
    ensures Agrees(After(f, op, f.completion, now))
  {
    LastVerdictOfMore(f.ledger, Entry(GoalCompleted, Complete, f.completion.value.evidence));
  }

  lemma StepAgrees(g: Goals, op: Op, now: nat, name: string)
    requires AtHome(g) && Agrees(FilesAt(g, name)) && Slugify(name) == name && !Forced(op)
    ensures Agrees(FilesAt(Step(g, op, now), name))
  {
    StepAt(g, op, now);
    AfterAgrees(FilesAt(g, name), op, Artifact(g, name), now);
  }

  /** In every run without --force, whatever else is done in it, artifact, status and ledger agree in
      each directory whose name slugifying leaves alone. */
  lemma {:induction false} AgreesInEveryRun(calls: seq<Call>, name: string)
    requires Unforced(calls) && Slugify(name) == name
    ensures Agrees(FilesAt(Start(calls), name))
  {
    if calls != [] {
      var n := |calls| - 1;
      AgreesInEveryRun(calls[..n], name);
      RunAtHome(map[], calls[..n]);
      StepAgrees(Start(calls[..n]), calls[n].0, calls[n].1, name);
    }
  }

  ghost predicate IsComplete(f: Files) {
    f.mission.Some? && f.mission.value.status == Complete
  }

  /** A goal becomes complete only by `complete`, with a pass in the directory of its name's slug. */
  lemma CompletedOnlyByFinish(g: Goals, op: Op, now: nat, name: string)
    requires AtHome(g) && !IsComplete(FilesAt(g, name)) && IsComplete(FilesAt(Step(g, op, now), name))
    ensures op.Finish? && op.reconciled && Address(op) == name && Passes(FilesAt(g, Slugify(name)).completion)
  {
    StepAt(g, op, now);
  }

  /** Where that is the goal's own directory, completion is reached only from status "passed", the
      last validation of its ledger being a pass. */
  lemma CompletedOnlyAfterPass(calls: seq<Call>, op: Op, now: nat, name: string)
    requires Unforced(calls) && Slugify(name) == name
    requires !IsComplete(FilesAt(Start(calls), name)) && IsComplete(FilesAt(Step(Start(calls), op, now), name))
    ensures var f := FilesAt(Start(calls), name);
            op.Finish? && op.reconciled && Address(op) == name && f.mission.value.status == Passed
            && LastVerdict(f.ledger) == Some(PassVerdict) && Passes(f.completion)
  {
    RunAtHome(map[], calls);
    CompletedOnlyByFinish(Start(calls), op, now, name);
    AgreesInEveryRun(calls, name);
  }

  lemma StaysComplete(f: Files, op: Op, artifact: Option<Completion>, now: nat)
    requires IsComplete(f) && !Forced(op)
    ensures var f' := After(f, op, artifact, now);
            IsComplete(f') && f'.completion == f.completion && LastVerdict(f'.ledger) == LastVerdict(f.ledger)
            && f.ledger <= f'.ledger && f'.mission.value.topic == f.mission.value.topic && f'.mission.value.rubric == f.mission.value.rubric
  {
    var f' := After(f, op, artifact, now);
    if f'.ledger != f.ledger {
      LastVerdictOfMore(f.ledger, f'.ledger[|f'.ledger| - 1]);
    }
  }

  /** Once complete, always complete: no unforced call changes the verdict or the topic again. */
  lemma {:induction false} CompleteIsAbsorbing(g: Goals, calls: seq<Call>, name: string)
    requires AtHome(g) && IsComplete(FilesAt(g, name)) && Unforced(calls)
    ensures var f, f' := FilesAt(g, name), FilesAt(Replay(g, calls), name);
            IsComplete(f') && f'.completion == f.completion && LastVerdict(f'.ledger) == LastVerdict(f.ledger)
            && f.ledger <= f'.ledger && f'.mission.value.topic == f.mission.value.topic && f'.mission.value.rubric == f.mission.value.rubric
  {
    if calls != [] {
      var n := |calls| - 1;
      var before := Replay(g, calls[..n]);
      CompleteIsAbsorbing(g, calls[..n], name);
      RunAtHome(g, calls[..n]);
      StepAt(before, calls[n].0, calls[n].1);
      StaysComplete(FilesAt(before, name), calls[n].0, Artifact(before, name), calls[n].1);
    }
  }

  // ---------------------------------------------------------------- names cut behind a dash

  /** One goal created and passed under the text x. */
  function Passing(x: string): seq<Call> {
    [(Create(Some(x), "t", "r", false), 0), (Record(x, PassVerdict, "e", ""), 1)]
  }

  /** However it is named, a goal can be created and passed, and its directory then agrees. */
  lemma PassedGoalExists(x: string)
    ensures var f := FilesAt(Start(Passing(x)), Slugify(x));
            Agrees(f) && f.mission.Some? && f.mission.value.status == Passed && Passes(f.completion)
    ensures forall name :: name != Slugify(x) ==> FilesAt(Start(Passing(x)), name) == NoFiles()
    ensures Unforced(Passing(x))
  {
    var create, record := Create(Some(x), "t", "r", false), Record(x, PassVerdict, "e", "");
    var g := Step(map[], create, 0);
    assert Passing(x) == [] + [(create, 0)] + [(record, 1)];
    RunMore(map[], [], (create, 0));
    RunMore(map[], [] + [(create, 0)], (record, 1));
    StepAt(map[], create, 0);
    StepAt(g, record, 1);
    PassedFiles(x, Artifact(map[], Slugify(x)), Artifact(g, Slugify(x)));
  }

  lemma PassedFiles(x: string, artifact: Option<Completion>, artifact': Option<Completion>)
    ensures var f := After(After(NoFiles(), Create(Some(x), "t", "r", false), artifact, 0), Record(x, PassVerdict, "e", ""), artifact', 1);
            Agrees(f) && f.mission.Some? && f.mission.value.status == Passed && Passes(f.completion)
  {
    var create, record := Create(Some(x), "t", "r", false), Record(x, PassVerdict, "e", "");
    assert Trim("t") == "t" && Trim("r") == "r" && Trim("e") == "e";
    AfterAgrees(NoFiles(), create, artifact, 0);
    AfterAgrees(After(NoFiles(), create, artifact, 0), record, artifact', 1);
  }

  /** A goal whose name is cut behind a dash, created and passed under x: completing it under the
      same x is refused and changes nothing. */
  lemma PassedGoalIsRefused(x: string, reconciled: bool, now: nat)
    requires CutBehindDash(x)
    ensures var g := Start(Passing(x));
            Refused(g, Finish(x, reconciled)) == Some(NotValidated) && Step(g, Finish(x, reconciled), now) == g
  {
    PassedGoalExists(x);
    SecondSlug(x);
    RunAtHome(map[], Passing(x));
  }

  /** The goal of the name without the dash created and passed, then one created under x, and that one
      completed. */
  function Borrowing(x: string): seq<Call> {
    Passing(Slugify(Slugify(x))) + [(Create(Some(x), "t", "r", false), 2)] + [(Finish(x, true), 3)]
  }

  /** A goal created where `complete` finds a pass already is completed without a validation of its own. */
  lemma CompletesUnvalidated(g: Goals, option: Option<string>, topic: string, rubric: string, force: bool, now: nat, later: nat)
    requires AtHome(g) && Refused(g, Create(option, topic, rubric, force)).None?
    requires Passes(FilesAt(g, Slugify(Slugify(NamedAfter(option, topic)))).completion)
    ensures var x := NamedAfter(option, topic);
            var f := FilesAt(Step(Step(g, Create(option, topic, rubric, force), now), Finish(x, true), later), Slugify(x));
            && IsComplete(f) && f.mission.value.topic == Trim(topic)
            && LastVerdict(f.ledger).None? && f.completion == FilesAt(g, Slugify(x)).completion
  {
    var x := NamedAfter(option, topic);
    var create := Create(option, topic, rubric, force);
    var h := Step(g, create, now);
    StepAt(g, create, now);
    StepAt(h, Finish(x, true), later);
    UnvalidatedFiles(FilesAt(g, Slugify(x)), create, Artifact(g, Slugify(x)), now, Finish(x, true), Artifact(h, Slugify(x)), later);
  }

  lemma UnvalidatedFiles(f: Files, create: Op, artifact: Option<Completion>, now: nat, finish: Op,
                         artifact': Option<Completion>, later: nat)
    requires create.Create? && finish.Finish? && finish.reconciled && Refusal(f, create, artifact).None? && Passes(artifact')
    ensures var f' := After(After(f, create, artifact, now), finish, artifact', later);
            && IsComplete(f') && f'.mission.value.topic == Trim(create.topic)
            && LastVerdict(f'.ledger).None? && f'.completion == f.completion
  {
    var created := Entry(WorkflowCreated, Created, "");
    LastVerdictOfMore([], created);
    LastVerdictOfMore([] + [created], Entry(GoalCompleted, Complete, artifact'.value.evidence));
  }

  /** The new goal is complete, though nothing was ever validated in it. */
  lemma BorrowedPassCompletes(x: string)
    requires CutBehindDash(x)
    ensures Unforced(Borrowing(x))
    ensures var f := FilesAt(Start(Borrowing(x)), Slugify(x));
            IsComplete(f) && f.completion.None? && LastVerdict(f.ledger).None? && !Agrees(f)
  {
    var calls := Passing(Slugify(Slugify(x)));
    var create, finish := Create(Some(x), "t", "r", false), Finish(x, true);
    SecondSlug(x);
    ThirdSlug(x);
    PassedGoalExists(Slugify(Slugify(x)));
    RunAtHome(map[], calls);
    CanBeCreated(FilesAt(Start(calls), Slugify(x)), create, Artifact(Start(calls), Slugify(x)));
    CompletesUnvalidated(Start(calls), Some(x), "t", "r", false, 2, 3);
    RunMore(map[], calls, (create, 2));
    RunMore(map[], calls + [(create, 2)], (finish, 3));
    UnforcedMore(calls, (create, 2));
    UnforcedMore(calls + [(create, 2)], (finish, 3));
    NeverValidated(FilesAt(Start(Borrowing(x)), Slugify(x)));
  }

  lemma UnforcedMore(calls: seq<Call>, c: Call)
    requires Unforced(calls) && !Forced(c.0)
    ensures Unforced(calls + [c])
  {
  }

  lemma NeverValidated(f: Files)
    requires IsComplete(f) && f.completion.None?
    ensures !Agrees(f)
  {
  }

  lemma CanBeCreated(f: Files, create: Op, artifact: Option<Completion>)
    requires f == NoFiles() && create.Create? && create.topic == "t" && create.rubric == "r"
    ensures Refusal(f, create, artifact).None?
  {
    assert Trim("t") == "t" && Trim("r") == "r";
  }

  /** What `complete` would do if it read the artifact of the goal it completes. */
  function OwnFinish(g: Goals, x: string, reconciled: bool, now: nat): Goals {
    var f, name := FilesAt(g, Slugify(x)), Slugify(x);
    if Refusal(f, Finish(x, reconciled), f.completion).Some? then g
    else g[name := After(f, Finish(x, reconciled), f.completion, now)]
  }

  lemma FinishIsOwn(g: Goals, x: string, reconciled: bool, now: nat)
    requires AtHome(g) && !CutBehindDash(x)
    ensures Step(g, Finish(x, reconciled), now) == OwnFinish(g, x, reconciled, now)
  {
    var f := FilesAt(g, Slugify(x));
    IdempotentExactlyWhen(x);
    if f.mission.Some? {
      assert Artifact(g, Slugify(x)) == f.completion;
      if Refusal(f, Finish(x, reconciled), f.completion).None? {
        FinishIsOneWrite(g, Finish(x, reconciled), now);
      }
    }
  }

  /** In all runs `complete` goes by the goal's own artifact exactly for the texts that are not cut
      behind a dash. */
  lemma FinishIsOwnExactlyWhen(x: string)
    ensures (forall calls, reconciled, now ::
               Step(Start(calls), Finish(x, reconciled), now) == OwnFinish(Start(calls), x, reconciled, now))
            <==> !CutBehindDash(x)
  {
    if CutBehindDash(x) {
      var g := Start(Passing(x));
      PassedGoalExists(x);
      PassedGoalIsRefused(x, true, 2);
      assert !IsComplete(FilesAt(g, Slugify(x))) && IsComplete(FilesAt(OwnFinish(g, x, true, 2), Slugify(x)));
      assert Step(Start(Passing(x)), Finish(x, true), 2) != OwnFinish(Start(Passing(x)), x, true, 2);
    } else {
      forall calls, reconciled, now
        ensures Step(Start(calls), Finish(x, reconciled), now) == OwnFinish(Start(calls), x, reconciled, now)
      {
        RunAtHome(map[], calls);
        FinishIsOwn(Start(calls), x, reconciled, now);
      }
    }
  }

  /** And exactly for these texts the goal's files agree in all runs without --force. */
  lemma AgreesExactlyWhen(x: string)
    ensures (forall calls :: Unforced(calls) ==> Agrees(FilesAt(Start(calls), Slugify(x)))) <==> !CutBehindDash(x)
  {
    if CutBehindDash(x) {
      BorrowedPassCompletes(x);
    } else {
      IdempotentExactlyWhen(x);
      forall calls | Unforced(calls) ensures Agrees(FilesAt(Start(calls), Slugify(x))) {
        AgreesInEveryRun(calls, Slugify(x));
      }
    }
  }

  // ---------------------------------------------------------------- creating by force

  /** A forced creation keeps the agreement exactly when there is no completion artifact to leave
      behind. */
  lemma ForcedCreationAgreesWhen(g: Goals, option: Option<string>, topic: string, rubric: string, now: nat)
    requires AtHome(g) && Trim(topic) != "" && Trim(rubric) != ""
    requires Agrees(FilesAt(g, Slugify(NamedAfter(option, topic))))
    ensures var name := Slugify(NamedAfter(option, topic));
            Agrees(FilesAt(Step(g, Create(option, topic, rubric, true), now), name)) <==> FilesAt(g, name).completion.None?
  {
    StepAt(g, Create(option, topic, rubric, true), now);
    LastVerdictOfMore([], Entry(WorkflowCreated, Created, ""));
  }

  /** With a passing artifact left where `complete` looks, the new goal completes without a validation
      of its own. */
  lemma ForcedCreationKeepsOldPass(g: Goals, option: Option<string>, topic: string, rubric: string, now: nat)
    requires AtHome(g) && Passes(FilesAt(g, Slugify(Slugify(NamedAfter(option, topic)))).completion)
    requires Trim(topic) != "" && Trim(rubric) != ""
    ensures var x := NamedAfter(option, topic);
            var f := FilesAt(Step(Step(g, Create(option, topic, rubric, true), now), Finish(x, true), now), Slugify(x));
            IsComplete(f) && f.mission.value.topic == Trim(topic) && LastVerdict(f.ledger).None?
  {
    CompletesUnvalidated(g, option, topic, rubric, true, now, now);
  }

  // ---------------------------------------------------------------- finding a goal again

  /** readAutoresearchGoal. */
  function Find(g: Goals, slug: string): Option<Mission> {
    FilesAt(g, Slugify(slug)).mission
  }

  /** A goal just created is found under the text it was created with. Under its own slug it is found
      exactly when that text is not cut behind a dash; otherwise whatever has the name without the
      dash is found, if anything. */
  lemma CreatedGoalIsFoundWhen(g: Goals, option: Option<string>, topic: string, rubric: string, now: nat)
    requires AtHome(g) && Refused(g, Create(option, topic, rubric, false)).None?
    ensures var x := NamedAfter(option, topic);
            var h := Step(g, Create(option, topic, rubric, false), now);
            && Find(h, x) == Some(Mission(Slugify(x), Trim(topic), Trim(rubric), Created, now, None))
            && Find(h, Slugify(x)) == if CutBehindDash(x) then FilesAt(g, Slugify(x)[..LIMIT - 1]).mission else Find(h, x)
  {
    var x := NamedAfter(option, topic);
    StepAt(g, Create(option, topic, rubric, false), now);
    IdempotentExactlyWhen(x);
    if CutBehindDash(x) {
      SecondSlug(x);
      assert Slugify(x)[..LIMIT - 1] != Slugify(x);
    }
  }
}
