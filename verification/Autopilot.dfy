/**
 The autopilot phases (src/autopilot/fsm.ts) and the gate every state change must pass
 (src/autopilot/completion-gate.ts). State objects are reduced to the fields these two read; the
 outcomes inferred from a state by the run-outcome module are fields of their own, and the
 regular expressions on evidence texts are arbitrary predicates.
 */
module Autopilot {
  import opened Wrappers
  import opened Text

  datatype Phase = DeepInterview | Ralplan | Ultragoal | Rework | Team | Ralph | CodeReview | Ultraqa

  datatype RuntimePhase = Child(phase: Phase) | WaitingForUser | Complete | Failed

  datatype RunOutcome = RunFinish | RunFailed | RunCancelled | RunBlockedOnUser | RunOther

  datatype LifecycleOutcome = Finished | LifecycleFailed | LifecycleBlocked | UserInterlude | AskUserQuestion | LifecycleOther

  /** What `active` holds: true, false or anything else. */
  datatype Flag = Yes | No | Neither

  /** A review or QA verdict; a field that is absent or not a string is "". */
  datatype Verdict = Verdict(
    clean: bool, stage: string, recommendation: string, architecturalStatus: string,
    source: string, artifactPath: string, url: string, reviewUrl: string, qaUrl: string,
    threadId: string, toolCallId: string, agentId: string,
    skipped: bool, reason: string, skipReason: string)

  /** The verdicts are looked up in the state itself, then in its nested `state`. */
  datatype State = State(
    active: Flag,
    currentPhase: string,
    waitPreviousPhase: string,
    completedAt: string,
    runOutcome: RunOutcome,
    lifecycleOutcome: LifecycleOutcome,
    review: Option<Verdict>, nestedReview: Option<Verdict>,
    qa: Option<Verdict>, nestedQa: Option<Verdict>)

  /** The regular expressions of the gate. */
  datatype Patterns = Patterns(
    qaText: string -> bool,
    reviewText: string -> bool,
    qaWord: string -> bool,
    ciUrl: string -> bool)

  // ---------------------------------------------------------------- phases

  function Upper(s: string): (r: string)
    ensures |r| == |s|
  {
    if s == [] then []
    else [if 'a' <= s[0] <= 'z' then s[0] - 32 as char else s[0]] + Upper(s[1..])
  }

  /** s is the word, but for case. */
  predicate ReadsAs(s: string, word: string) {
    && |s| == |word|
    && forall i :: 0 <= i < |s| ==> if 'a' <= s[i] <= 'z' then word[i] as int == s[i] as int - 32 else word[i] == s[i]
  }

  lemma {:induction false} UpperReadsAs(s: string, word: string)
    ensures Upper(s) == word <==> ReadsAs(s, word)
  {
    if s != "" && |word| == |s| {
      UpperReadsAs(s[1..], word[1..]);
      assert s == [s[0]] + s[1..] && word == [word[0]] + word[1..];
      assert forall i :: 0 < i < |s| ==> s[i] == s[1..][i - 1] && word[i] == word[1..][i - 1];
    }
  }

  function Dashed(s: string): string {
    if s == [] then [] else [if s[0] == '_' then '-' else s[0]] + Dashed(s[1..])
  }

  /** The older names of some phases. */
  function Renamed(s: string): string {
    if s == "completed" then "complete"
    else if s == "planning" || s == "replan" then "ralplan"
    else if s == "fix" || s == "review-fix" || s == "implementation-fix" then "rework"
    else s
  }

  function WithoutPrefix(s: string): string {
    if "autopilot:" <= s then s[10..] else s
  }

  function NormalizePhaseText(value: string): string {
    Renamed(WithoutPrefix(Dashed(Lower(Trim(value)))))
  }

  function Name(phase: Phase): string {
    match phase
    case DeepInterview => "deep-interview"
    case Ralplan => "ralplan"
    case Ultragoal => "ultragoal"
    case Rework => "rework"
    case Team => "team"
    case Ralph => "ralph"
    case CodeReview => "code-review"
    case Ultraqa => "ultraqa"
  }

  function PhaseNamed(s: string): Option<Phase> {
    if s == "deep-interview" then Some(DeepInterview)
    else if s == "ralplan" then Some(Ralplan)
    else if s == "ultragoal" then Some(Ultragoal)
    else if s == "rework" then Some(Rework)
    else if s == "team" then Some(Team)
    else if s == "ralph" then Some(Ralph)
    else if s == "code-review" then Some(CodeReview)
    else if s == "ultraqa" then Some(Ultraqa)
    else None
  }

  function RuntimePhaseNamed(s: string): Option<RuntimePhase> {
    if PhaseNamed(s).Some? then Some(Child(PhaseNamed(s).value))
    else if s == "waiting-for-user" then Some(WaitingForUser)
    else if s == "complete" then Some(Complete)
    else if s == "failed" then Some(Failed)
    else None
  }

  function NormalizePhase(value: string): Option<RuntimePhase> {
    RuntimePhaseNamed(NormalizePhaseText(value))
  }

  lemma NamesAreDistinct(phase: Phase)
    ensures PhaseNamed(Name(phase)) == Some(phase)
  {
  }

  lemma NameIsPlain(phase: Phase)
    ensures forall i :: 0 <= i < |Name(phase)| ==> Plain(Name(phase)[i])
    ensures |Name(phase)| > 2 && Name(phase)[0] != 'a' && Name(phase)[0] != 'p'
    ensures Name(phase)[2] != 'm' && Name(phase)[2] != 'p' && Name(phase)[2] != 'v' && Name(phase)[2] != 'x'
  {
  }

  predicate Plain(c: char) {
    !('A' <= c <= 'Z') && c != '_' && !IsSpace(c)
  }

  lemma {:induction false} PlainTextIsKept(s: string)
    requires forall i :: 0 <= i < |s| ==> Plain(s[i])
    ensures Trim(s) == s && Lower(s) == s && Dashed(s) == s
  {
    if s != [] {
      PlainTextIsKept(s[1..]);
    }
  }

  lemma NoAlias(s: string)
    requires |s| > 2 && s[0] != 'p' && s[2] != 'm' && s[2] != 'p' && s[2] != 'v' && s[2] != 'x'
    ensures s != "completed" && s != "planning" && s != "replan" && s != "fix" && s != "review-fix" && s != "implementation-fix"
  {
    assert "planning"[0] == 'p' && "completed"[2] == 'm' && "replan"[2] == 'p';
    assert "fix"[2] == 'x' && "review-fix"[2] == 'v' && "implementation-fix"[2] == 'p';
  }

  lemma NormalName(s: string, phase: Phase)
    requires PhaseNamed(s) == Some(phase) && forall i :: 0 <= i < |s| ==> Plain(s[i])
    requires |s| > 2 && s[0] != 'a' && s[0] != 'p' && s[2] != 'm' && s[2] != 'p' && s[2] != 'v' && s[2] != 'x'
    ensures NormalizePhase(s) == Some(Child(phase))
  {
    PlainTextIsKept(s);
    NoAlias(s);
    assert !("autopilot:" <= s);
    assert NormalizePhaseText(s) == s;
  }

  /** Every phase's name is read back as that phase. */
  lemma NamesAreNormal(phase: Phase)
    ensures NormalizePhase(Name(phase)) == Some(Child(phase))
  {
    NameIsPlain(phase);
    NamesAreDistinct(phase);
    NormalName(Name(phase), phase);
  }

  /** The words a phase goes by. */
  predicate Means(word: string, phase: RuntimePhase) {
    match phase
    case Child(Ralplan) => word == "ralplan" || word == "planning" || word == "replan"
    case Child(Rework) => word == "rework" || word == "fix" || word == "review-fix" || word == "implementation-fix"
    case Child(p) => word == Name(p)
    case WaitingForUser => word == "waiting-for-user"
    case Complete => word == "complete" || word == "completed"
    case Failed => word == "failed"
  }

  /** s is the word, but for case and underscores. */
  predicate Spells(s: string, word: string) {
    && |s| == |word|
    && forall i :: 0 <= i < |s| ==>
         || (s[i] == word[i] != '_' && !('A' <= s[i] <= 'Z'))
         || (s[i] == '_' && word[i] == '-')
         || ('A' <= s[i] <= 'Z' && word[i] == (s[i] as int + 32) as char)
  }

  lemma {:induction false} SpellingIsDashed(s: string, word: string)
    ensures Dashed(Lower(s)) == word <==> Spells(s, word)
  {
    if s != "" && |word| == |s| {
      SpellingIsDashed(s[1..], word[1..]);
      SpellsFirst(s, word);
      assert word == [word[0]] + word[1..];
    } else {
      DashedLength(Lower(s));
    }
  }

  lemma DashedLength(s: string)
    ensures |Dashed(s)| == |s|
  {
  }

  lemma SpellsFirst(s: string, word: string)
    requires |s| == |word| > 0
    ensures Spells(s, word) <==> Spells(s[..1], word[..1]) && Spells(s[1..], word[1..])
  {
    assert s == s[..1] + s[1..] && word == word[..1] + word[1..];
  }

  /** A phase is read from exactly the texts that spell one of its words, with or without the prefix. */
  lemma PhaseIsReadExactlyWhen(value: string, phase: RuntimePhase)
    ensures NormalizePhase(value) == Some(phase) <==>
              exists word :: Means(word, phase) && (Spells(Trim(value), word) || Spells(Trim(value), "autopilot:" + word))
  {
    var s := Dashed(Lower(Trim(value)));
    WordMeans(WithoutPrefix(s), phase);
    if NormalizePhase(value) == Some(phase) {
      SpellingIsDashed(Trim(value), WithoutPrefix(s));
      SpellingIsDashed(Trim(value), "autopilot:" + WithoutPrefix(s));
      assert s == WithoutPrefix(s) || s == "autopilot:" + WithoutPrefix(s);
    }
    if word :| Means(word, phase) && (Spells(Trim(value), word) || Spells(Trim(value), "autopilot:" + word)) {
      SpelledIsRead(value, word, phase);
    }
  }

  lemma SpelledIsRead(value: string, word: string, phase: RuntimePhase)
    requires Means(word, phase) && (Spells(Trim(value), word) || Spells(Trim(value), "autopilot:" + word))
    ensures NormalizePhase(value) == Some(phase)
  {
    SpellingIsDashed(Trim(value), word);
    SpellingIsDashed(Trim(value), "autopilot:" + word);
    MeansNoPrefix(word, phase);
    WordMeans(word, phase);
    assert WithoutPrefix(Dashed(Lower(Trim(value)))) == word;
  }

  lemma WordMeans(word: string, phase: RuntimePhase)
    ensures RuntimePhaseNamed(Renamed(word)) == Some(phase) <==> Means(word, phase)
  {
  }

  lemma MeansNoPrefix(word: string, phase: RuntimePhase)
    requires Means(word, phase)
    ensures !("autopilot:" <= word)
  {
    assert "autopilot:"[0] == 'a';
    match phase
    case Child(p) =>
      NameIsPlain(p);
      assert "planning"[0] == 'p' && "replan"[0] == 'r' && "fix"[0] == 'f' && "review-fix"[0] == 'r' && "implementation-fix"[0] == 'i';
    case WaitingForUser => assert word[0] == 'w';
    case Complete => assert word[0] == 'c';
    case Failed => assert word[0] == 'f';
  }

  predicate IsActive(s: State) {
    s.active == Yes
  }

  /** deriveAutopilotChildPhase of a state whose mode the gate has set to autopilot. */
  function DerivePhase(s: State): Option<Phase> {
    if !IsActive(s) then None else
    match NormalizePhase(s.currentPhase)
    case Some(Child(p)) => Some(p)
    case Some(WaitingForUser) =>
      (match NormalizePhase(s.waitPreviousPhase)
       case Some(Child(p)) => Some(p)
       case _ => None)
    case _ => None
  }

  predicate IsImplementation(p: Option<Phase>) {
    p.Some? && (p.value == Ultragoal || p.value == Rework || p.value == Team || p.value == Ralph)
  }

  /** The phase a state is in: what `current_phase` says or, while waiting for the user, what was asked
      from; none in a state that is not active. */
  lemma PhaseIsDerivedExactlyWhen(s: State, phase: Phase)
    ensures DerivePhase(s) == Some(phase) <==>
              && s.active == Yes
              && (|| NormalizePhase(s.currentPhase) == Some(Child(phase))
                  || (NormalizePhase(s.currentPhase) == Some(WaitingForUser) && NormalizePhase(s.waitPreviousPhase) == Some(Child(phase))))
  {
  }

  // ---------------------------------------------------------------- success and evidence

  predicate IsSuccess(s: State) {
    var phase := NormalizePhase(s.currentPhase);
    if phase == Some(Failed) || s.runOutcome == RunFailed || s.runOutcome == RunCancelled || s.runOutcome == RunBlockedOnUser then false
    else if s.lifecycleOutcome == LifecycleFailed || s.lifecycleOutcome == LifecycleBlocked then false
    else if s.lifecycleOutcome == UserInterlude || s.lifecycleOutcome == AskUserQuestion then false
    else if phase == Some(Complete) then true
    else if s.runOutcome == RunFinish then true
    else if s.lifecycleOutcome == Finished then true
    else if Trim(s.completedAt) != "" then true
    else s.active == No
  }

  /** A state is a success when something says so and nothing says otherwise. */
  lemma SucceedsExactlyWhen(s: State)
    ensures IsSuccess(s) <==>
              && NormalizePhase(s.currentPhase) != Some(Failed)
              && s.runOutcome !in {RunFailed, RunCancelled, RunBlockedOnUser}
              && s.lifecycleOutcome !in {LifecycleFailed, LifecycleBlocked, UserInterlude, AskUserQuestion}
              && (|| NormalizePhase(s.currentPhase) == Some(Complete) || s.runOutcome == RunFinish
                  || s.lifecycleOutcome == Finished || Trim(s.completedAt) != "" || s.active == No)
  {
  }

  function Joined(parts: seq<string>): string {
    if parts == [] then ""
    else
      var rest := Joined(parts[1..]);
      var head := Lower(Trim(parts[0]));
      if head == "" then rest else if rest == "" then head else head + "\n" + rest
  }

  function EvidenceText(v: Verdict): string {
    Joined([v.source, v.artifactPath, v.url, v.reviewUrl, v.qaUrl])
  }

  /** The parts that are not blank, trimmed and in lower case. */
  function Said(parts: seq<string>): seq<string> {
    if parts == [] then []
    else (if Trim(parts[0]) != "" then [Lower(Trim(parts[0]))] else []) + Said(parts[1..])
  }

  /** They make up the text, a line each. */
  lemma {:induction false} TextIsWhatIsSaid(parts: seq<string>)
    ensures Joined(parts) == if Said(parts) == [] then "" else Join(Said(parts))
    ensures forall i :: 0 <= i < |Said(parts)| ==> Said(parts)[i] != ""
  {
    if parts != [] {
      TextIsWhatIsSaid(parts[1..]);
      if Trim(parts[0]) != "" {
        assert Said(parts)[1..] == Said(parts[1..]);
        JoinIsNotEmpty(Said(parts[1..]));
      } else {
        assert Said(parts) == Said(parts[1..]);
      }
    }
  }

  lemma JoinIsNotEmpty(lines: seq<string>)
    ensures lines != [] && lines[0] != "" ==> Join(lines) != ""
  {
  }

  /** A CI run's URL; the pattern does not match the empty string. */
  predicate LooksLikeCi(p: Patterns, url: string) {
    url != "" && p.ciUrl(url)
  }

  predicate HasCodeReviewLocator(p: Patterns, v: Verdict) {
    if Trim(v.artifactPath) != "" then p.reviewText(EvidenceText(v))
    else Trim(v.reviewUrl) != "" || Trim(v.threadId) != "" || Trim(v.agentId) != "" || Trim(v.toolCallId) != "" || Trim(v.url) != ""
  }

  predicate HasUltraqaLocator(p: Patterns, v: Verdict) {
    if Trim(v.artifactPath) != "" then p.qaText(EvidenceText(v)) || p.qaWord(Lower(Trim(v.artifactPath)))
    else Trim(v.qaUrl) != "" || LooksLikeCi(p, Trim(v.url)) || Trim(v.toolCallId) != "" || Trim(v.threadId) != ""
  }

  function Locators(v: Verdict): set<string> {
    set x | x in [Trim(v.artifactPath), Trim(v.url), Trim(v.reviewUrl), Trim(v.qaUrl), Trim(v.threadId), Trim(v.toolCallId), Trim(v.agentId)] && x != ""
  }

  predicate CleanReview(p: Patterns, v: Verdict) {
    && v.clean
    && Trim(v.stage) == "code-review"
    && Upper(Trim(v.recommendation)) == "APPROVE"
    && Upper(Trim(v.architecturalStatus)) == "CLEAR"
    && !p.qaText(EvidenceText(v))
    && !LooksLikeCi(p, Trim(v.url))
    && HasCodeReviewLocator(p, v)
  }

  predicate Contains(s: string, part: string) {
    part <= s || (s != [] && Contains(s[1..], part))
  }

  predicate CleanQa(p: Patterns, v: Verdict) {
    var source := Lower(Trim(v.source));
    && v.clean
    && Trim(v.stage) == "ultraqa"
    && source != "leader"
    && !Contains(source, "code-review")
    && !p.reviewText(EvidenceText(v))
    && (v.skipped ==> Trim(v.reason) != "" || Trim(v.skipReason) != "")
    && HasUltraqaLocator(p, v)
  }

  function Field(own: Option<Verdict>, nested: Option<Verdict>): Option<Verdict> {
    if own.Some? then own else nested
  }

  predicate CleanEvidence(p: Patterns, s: State) {
    var review := Field(s.review, s.nestedReview);
    var qa := Field(s.qa, s.nestedQa);
    && review.Some? && CleanReview(p, review.value)
    && qa.Some? && CleanQa(p, qa.value)
    && Locators(review.value) !! Locators(qa.value)
  }

  // ---------------------------------------------------------------- what clean evidence says

  /** What a verdict says of where it comes from. */
  function Evidence(v: Verdict): string {
    var said := Said([v.source, v.artifactPath, v.url, v.reviewUrl, v.qaUrl]);
    if said == [] then "" else Join(said)
  }

  /** One of the fields is filled in. */
  ghost predicate Given(fields: seq<string>) {
    exists x :: x in fields && Trim(x) != ""
  }

  /** An approved review of a clear architecture, from a place that is no QA and no CI run. With an
      artifact the evidence must read like a review; without, some other place must be given. */
  ghost predicate Approves(p: Patterns, v: Verdict) {
    && v.clean && Trim(v.stage) == "code-review"
    && ReadsAs(Trim(v.recommendation), "APPROVE") && ReadsAs(Trim(v.architecturalStatus), "CLEAR")
    && !p.qaText(Evidence(v)) && (Trim(v.url) != "" ==> !p.ciUrl(Trim(v.url)))
    && if Trim(v.artifactPath) != "" then p.reviewText(Evidence(v))
       else Given([v.url, v.reviewUrl, v.threadId, v.toolCallId, v.agentId])
  }

  /** A clean QA, not the leader's own and not a review, with a reason if it was skipped. With an
      artifact the evidence must read like QA; without, a QA place or a CI run must be given. */
  ghost predicate Passes(p: Patterns, v: Verdict) {
    && v.clean && Trim(v.stage) == "ultraqa"
    && Lower(Trim(v.source)) != "leader" && !(exists i :: 0 <= i <= |Trim(v.source)| && "code-review" <= Lower(Trim(v.source))[i..])
    && !p.reviewText(Evidence(v)) && (v.skipped ==> Given([v.reason, v.skipReason]))
    && if Trim(v.artifactPath) != "" then p.qaText(Evidence(v)) || p.qaWord(Lower(Trim(v.artifactPath)))
       else Given([v.qaUrl, v.threadId, v.toolCallId]) || (Trim(v.url) != "" && p.ciUrl(Trim(v.url)))
  }

  /** No place is given in both. */
  ghost predicate Apart(v: Verdict, w: Verdict) {
    forall x ::
      && x in [Trim(v.artifactPath), Trim(v.url), Trim(v.reviewUrl), Trim(v.qaUrl), Trim(v.threadId), Trim(v.toolCallId), Trim(v.agentId)]
      && x in [Trim(w.artifactPath), Trim(w.url), Trim(w.reviewUrl), Trim(w.qaUrl), Trim(w.threadId), Trim(w.toolCallId), Trim(w.agentId)]
      ==> x == ""
  }

  lemma {:induction false} ContainsExactlyWhen(s: string, part: string)
    ensures Contains(s, part) <==> exists i :: 0 <= i <= |s| && part <= s[i..]
  {
    assert s[0..] == s;
    if s != "" {
      ContainsExactlyWhen(s[1..], part);
      if i :| 0 <= i <= |s| && part <= s[i..] {
        assert i > 0 ==> s[1..][i - 1..] == s[i..];
      }
      if i :| 0 <= i <= |s[1..]| && part <= s[1..][i..] {
        assert s[i + 1..] == s[1..][i..];
      }
    }
  }

  lemma GivenOfFive(a: string, b: string, c: string, d: string, e: string)
    ensures Given([a, b, c, d, e]) <==> Trim(a) != "" || Trim(b) != "" || Trim(c) != "" || Trim(d) != "" || Trim(e) != ""
  {
    assert a in [a, b, c, d, e] && b in [a, b, c, d, e] && c in [a, b, c, d, e] && d in [a, b, c, d, e] && e in [a, b, c, d, e];
  }

  lemma GivenOfThree(a: string, b: string, c: string)
    ensures Given([a, b, c]) <==> Trim(a) != "" || Trim(b) != "" || Trim(c) != ""
  {
    assert a in [a, b, c] && b in [a, b, c] && c in [a, b, c];
  }

  lemma GivenOfTwo(a: string, b: string)
    ensures Given([a, b]) <==> Trim(a) != "" || Trim(b) != ""
  {
    assert a in [a, b] && b in [a, b];
  }

  lemma ReviewIsCleanExactlyWhen(p: Patterns, v: Verdict)
    ensures CleanReview(p, v) <==> Approves(p, v)
  {
    TextIsWhatIsSaid([v.source, v.artifactPath, v.url, v.reviewUrl, v.qaUrl]);
    UpperReadsAs(Trim(v.recommendation), "APPROVE");
    UpperReadsAs(Trim(v.architecturalStatus), "CLEAR");
    GivenOfFive(v.url, v.reviewUrl, v.threadId, v.toolCallId, v.agentId);
  }

  lemma QaIsCleanExactlyWhen(p: Patterns, v: Verdict)
    ensures CleanQa(p, v) <==> Passes(p, v)
  {
    TextIsWhatIsSaid([v.source, v.artifactPath, v.url, v.reviewUrl, v.qaUrl]);
    ContainsExactlyWhen(Lower(Trim(v.source)), "code-review");
    GivenOfTwo(v.reason, v.skipReason);
    GivenOfThree(v.qaUrl, v.threadId, v.toolCallId);
  }

  lemma PlacesApart(v: Verdict, w: Verdict)
    ensures Locators(v) !! Locators(w) <==> Apart(v, w)
  {
    assert forall x :: x in Locators(v) * Locators(w) <==>
      && x in [Trim(v.artifactPath), Trim(v.url), Trim(v.reviewUrl), Trim(v.qaUrl), Trim(v.threadId), Trim(v.toolCallId), Trim(v.agentId)]
      && x in [Trim(w.artifactPath), Trim(w.url), Trim(w.reviewUrl), Trim(w.qaUrl), Trim(w.threadId), Trim(w.toolCallId), Trim(w.agentId)]
      && x != "";
  }

  /** Evidence is clean exactly when there is an approving review and a passing QA from places apart,
      each looked up in the state first and then in its nested state. */
  ghost predicate Vouched(p: Patterns, s: State) {
    && (s.review.Some? || s.nestedReview.Some?) && (s.qa.Some? || s.nestedQa.Some?)
    && var review := if s.review.Some? then s.review.value else s.nestedReview.value;
       var qa := if s.qa.Some? then s.qa.value else s.nestedQa.value;
       Approves(p, review) && Passes(p, qa) && Apart(review, qa)
  }

  lemma EvidenceIsCleanExactlyWhen(p: Patterns, s: State)
    ensures CleanEvidence(p, s) <==> Vouched(p, s)
  {
    var review, qa := Field(s.review, s.nestedReview), Field(s.qa, s.nestedQa);
    if review.Some? && qa.Some? {
      ReviewIsCleanExactlyWhen(p, review.value);
      QaIsCleanExactlyWhen(p, qa.value);
      PlacesApart(review.value, qa.value);
    }
  }

  /** Clean evidence names two different places: one for the approved review, one for the QA. */
  lemma CleanEvidenceIsTwofold(p: Patterns, s: State) returns (a: string, b: string)
    requires CleanEvidence(p, s)
    ensures a in Locators(Field(s.review, s.nestedReview).value) && b in Locators(Field(s.qa, s.nestedQa).value)
    ensures a != "" && b != "" && a != b
  {
    a := ReviewLocator(p, Field(s.review, s.nestedReview).value);
    b := QaLocator(p, Field(s.qa, s.nestedQa).value);
  }

  lemma ReviewLocator(p: Patterns, v: Verdict) returns (a: string)
    requires HasCodeReviewLocator(p, v)
    ensures a in Locators(v)
  {
    a := if Trim(v.artifactPath) != "" then Trim(v.artifactPath)
         else if Trim(v.reviewUrl) != "" then Trim(v.reviewUrl)
         else if Trim(v.threadId) != "" then Trim(v.threadId)
         else if Trim(v.agentId) != "" then Trim(v.agentId)
         else if Trim(v.toolCallId) != "" then Trim(v.toolCallId)
         else Trim(v.url);
  }

  lemma QaLocator(p: Patterns, v: Verdict) returns (b: string)
    requires HasUltraqaLocator(p, v)
    ensures b in Locators(v)
  {
    b := if Trim(v.artifactPath) != "" then Trim(v.artifactPath)
         else if Trim(v.qaUrl) != "" then Trim(v.qaUrl)
         else if Trim(v.toolCallId) != "" then Trim(v.toolCallId)
         else if Trim(v.threadId) != "" then Trim(v.threadId)
         else Trim(v.url);
  }

  // ---------------------------------------------------------------- the gate

  datatype Refusal =
    | UnknownActivePhase | BeforeRalplan | BeforeUltragoal | BeforeCodeReview | SkipsCodeReview | BeforeUltraqa | NoCleanEvidence

  /** What the gate looks at in a state. */
  datatype View = View(phase: Option<Phase>, active: bool, success: bool, clean: bool)

  function Look(p: Patterns, s: State): View {
    View(DerivePhase(s), IsActive(s), IsSuccess(s), CleanEvidence(p, s))
  }

  /** validateAutopilotCompletionTransition. */
  function Validate(current: View, next: View, allowUnknown: bool): Option<Refusal> {
    if next.success && current.active && current.phase.None? && !allowUnknown then Some(UnknownActivePhase)
    else if current.phase == Some(DeepInterview) && next.success then Some(BeforeRalplan)
    else if current.phase == Some(Ralplan) && next.success then Some(BeforeUltragoal)
    else if IsImplementation(current.phase) && next.success then Some(BeforeCodeReview)
    else if IsImplementation(current.phase) && next.phase == Some(Ultraqa) then Some(SkipsCodeReview)
    else if current.phase == Some(CodeReview) && next.success then Some(BeforeUltraqa)
    else if current.phase == Some(Ultraqa) && next.success && !next.clean then Some(NoCleanEvidence)
    else None
  }

  /** A step to success is let through from ultraqa with clean evidence, and from no other active
      phase; any other step unless it goes from implementation straight to ultraqa. */
  lemma AcceptedExactlyWhen(current: View, next: View, allowUnknown: bool)
    ensures Validate(current, next, allowUnknown).None? <==>
      if next.success then
        if current.phase.Some? then current.phase == Some(Ultraqa) && next.clean else !current.active || allowUnknown
      else IsImplementation(current.phase) ==> next.phase != Some(Ultraqa)
  {
    if current.phase.Some? {
      match current.phase.value
      case Ultraqa =>
      case _ =>
    }
  }

  function Views(p: Patterns, run: seq<State>): seq<View> {
    seq(|run|, i requires 0 <= i < |run| => Look(p, run[i]))
  }

  /** The steps up to k were accepted, unknown phases not excused, from active states; k succeeds. */
  ghost predicate SucceedsAt(views: seq<View>, k: nat) {
    && 0 < k < |views|
    && (forall i :: 0 <= i < k ==> views[i].active && Validate(views[i], views[i + 1], false).None?)
    && views[k].success
  }

  /** Success comes from ultraqa. */
  lemma SuccessComesFromUltraqa(p: Patterns, run: seq<State>, before: nat, k: nat)
    requires SucceedsAt(Views(p, run), k) && before + 1 == k
    ensures DerivePhase(run[before]) == Some(Ultraqa)
  {
    LastStep(Views(p, run), before, k);
  }

  /** From ultraqa the gate lets a success through exactly when an approving review and a passing QA
      vouch for it: with any one condition of these failing, the step is refused. */
  lemma UltraqaOpensExactlyWhen(p: Patterns, current: State, next: State, allowUnknown: bool)
    requires DerivePhase(current) == Some(Ultraqa) && IsSuccess(next)
    ensures Validate(Look(p, current), Look(p, next), allowUnknown).None? <==> Vouched(p, next)
  {
    AcceptedExactlyWhen(Look(p, current), Look(p, next), allowUnknown);
    EvidenceIsCleanExactlyWhen(p, next);
  }

  /** It comes with an approving review and a passing QA, in two different places. */
  lemma SuccessHasCleanEvidence(p: Patterns, run: seq<State>, k: nat) returns (a: string, b: string)
    requires SucceedsAt(Views(p, run), k)
    ensures CleanEvidence(p, run[k]) && Vouched(p, run[k])
    ensures a in Locators(Field(run[k].review, run[k].nestedReview).value) && b in Locators(Field(run[k].qa, run[k].nestedQa).value) && a != b
  {
    LastStep(Views(p, run), k - 1, k);
    EvidenceIsCleanExactlyWhen(p, run[k]);
    a, b := CleanEvidenceIsTwofold(p, run[k]);
  }

  lemma LastStep(views: seq<View>, before: nat, k: nat)
    requires SucceedsAt(views, k) && before + 1 == k
    ensures views[before].phase == Some(Ultraqa) && views[k].clean
  {
    assert Validate(views[before], views[before + 1], false).None?;
    AcceptedExactlyWhen(views[before], views[k], false);
  }

  /** Between any implementation phase and the success lies a state that is neither. */
  lemma ReviewStandsBetween(p: Patterns, run: seq<State>, i: nat, k: nat) returns (j: nat)
    requires SucceedsAt(Views(p, run), k) && i < k && IsImplementation(DerivePhase(run[i]))
    ensures i < j < k && !IsImplementation(DerivePhase(run[j])) && DerivePhase(run[j]) != Some(Ultraqa)
  {
    j := SomethingBetween(Views(p, run), i, k);
  }

  lemma {:induction false} SomethingBetween(views: seq<View>, i: nat, k: nat) returns (j: nat)
    requires SucceedsAt(views, k) && i < k && IsImplementation(views[i].phase)
    ensures i < j < k && !IsImplementation(views[j].phase) && views[j].phase != Some(Ultraqa)
    decreases k - i
  {
    AcceptedExactlyWhen(views[i], views[i + 1], false);
    j := i + 1;
    if IsImplementation(views[j].phase) {
      j := SomethingBetween(views, j, k);
    }
  }

  /** It need not be the review phase: whatever comes between implementation and ultraqa opens the
      gate, as long as it is neither of them. */
  lemma AnyPhaseOpensTheGate(work: View, between: View, qa: View, end: View)
    requires IsImplementation(work.phase) && qa.phase == Some(Ultraqa) && work.active && between.active && qa.active
    requires !between.success && !qa.success && end.success
    ensures SucceedsAt([work, between, qa, end], 3) <==>
              !IsImplementation(between.phase) && between.phase != Some(Ultraqa) && end.clean
  {
    var run := [work, between, qa, end];
    AcceptedExactlyWhen(work, between, false);
    AcceptedExactlyWhen(between, qa, false);
    AcceptedExactlyWhen(qa, end, false);
    assert SucceedsAt(run, 3) ==>
        && Validate(run[0], run[0 + 1], false).None?
        && Validate(run[1], run[1 + 1], false).None?
        && Validate(run[2], run[2 + 1], false).None?;
  }

  lemma ViewsOfMore(p: Patterns, run: seq<State>, s: State, v: View)
    requires Look(p, s) == v
    ensures Views(p, run + [s]) == Views(p, run) + [v]
  {
  }

  /** An active state in this phase, with no verdicts yet. */
  lemma WorkingState(p: Patterns, phase: Phase) returns (s: State)
    ensures Look(p, s) == View(Some(phase), true, false, false)
  {
    NamesAreNormal(phase);
    s := State(Yes, Name(phase), "", "", RunOther, LifecycleOther, None, None, None, None);
  }

  /** A run goes on in this phase. */
  lemma GoOnIn(p: Patterns, run: seq<State>, phase: Phase) returns (longer: seq<State>)
    ensures Views(p, longer) == Views(p, run) + [View(Some(phase), true, false, false)]
  {
    var s := WorkingState(p, phase);
    ViewsOfMore(p, run, s, View(Some(phase), true, false, false));
    longer := run + [s];
  }

  function NoVerdict(): Verdict {
    Verdict(false, "", "", "", "", "", "", "", "", "", "", "", false, "", "")
  }

  lemma OneText(parts: seq<string>, text: string, k: nat)
    requires k < |parts| && parts[k] == text && Lower(Trim(text)) == text && text != ""
    requires forall i :: 0 <= i < |parts| && i != k ==> parts[i] == ""
    ensures Joined(parts) == text
  {
    if k > 0 {
      OneText(parts[1..], text, k - 1);
    } else {
      AllEmpty(parts[1..]);
    }
  }

  lemma {:induction false} AllEmpty(parts: seq<string>)
    requires forall i :: 0 <= i < |parts| ==> parts[i] == ""
    ensures Joined(parts) == ""
  {
    if parts != [] {
      AllEmpty(parts[1..]);
    }
  }

  lemma {:induction false} UpperKept(s: string)
    requires forall i :: 0 <= i < |s| ==> !('a' <= s[i] <= 'z')
    ensures Upper(s) == s
  {
    if s != "" {
      UpperKept(s[1..]);
    }
  }

  lemma MakeReview(p: Patterns, stage: string, approve: string, clear: string, place: string) returns (v: Verdict)
    requires stage == "code-review" && approve == "APPROVE" && clear == "CLEAR" && place != "" && Trimmed(place)
    requires Trimmed(stage) && Trimmed(approve) && Trimmed(clear) && Upper(approve) == approve && Upper(clear) == clear
    requires Lower(place) == place && !p.qaText(place)
    ensures CleanReview(p, v) && Locators(v) == {place}
  {
    v := NoVerdict().(clean := true, stage := stage, recommendation := approve, architecturalStatus := clear, reviewUrl := place);
    TrimmedIsKept(stage);
    TrimmedIsKept(approve);
    TrimmedIsKept(clear);
    TrimmedIsKept(place);
    OneText([v.source, v.artifactPath, v.url, v.reviewUrl, v.qaUrl], place, 3);
  }

  lemma MakeQa(p: Patterns, stage: string, place: string) returns (v: Verdict)
    requires stage == "ultraqa" && place != "" && Trimmed(place) && Trimmed(stage)
    requires Lower(place) == place && !p.reviewText(place)
    ensures CleanQa(p, v) && Locators(v) == {place}
  {
    v := NoVerdict().(clean := true, stage := stage, qaUrl := place);
    TrimmedIsKept(stage);
    TrimmedIsKept(place);
    OneText([v.source, v.artifactPath, v.url, v.reviewUrl, v.qaUrl], place, 4);
    assert Lower(Trim("")) == "" && !Contains("", "code-review");
  }

  lemma LowerOne(s: string)
    requires |s| == 1 && 'a' <= s[0] <= 'z'
    ensures Lower(s) == s
  {
    assert s[1..] == "";
  }

  lemma NoPhase()
    ensures NormalizePhase("") == None
  {
    assert NormalizePhaseText("") == "";
  }

  /** An approved review at one place and a clean QA at another make a successful final state. */
  lemma FinishedState(p: Patterns, review: Verdict, qa: Verdict) returns (s: State)
    requires CleanReview(p, review) && CleanQa(p, qa) && Locators(review) !! Locators(qa)
    ensures Look(p, s) == View(None, false, true, true)
  {
    NoPhase();
    s := State(No, "", "", "", RunOther, LifecycleOther, Some(review), None, Some(qa), None);
  }

  lemma VerdictTexts(stage: string, approve: string, clear: string)
    requires stage == "code-review" && approve == "APPROVE" && clear == "CLEAR"
    ensures Trimmed(stage) && Trimmed(approve) && Trimmed(clear) && Upper(approve) == approve && Upper(clear) == clear
  {
    UpperKept(approve);
    UpperKept(clear);
  }

  lemma SomeReview(p: Patterns, place: string) returns (v: Verdict)
    requires place == "r" && !p.qaText(place)
    ensures CleanReview(p, v) && Locators(v) == {place}
  {
    var stage, approve, clear := "code-review", "APPROVE", "CLEAR";
    VerdictTexts(stage, approve, clear);
    LowerOne(place);
    v := MakeReview(p, stage, approve, clear, place);
  }

  lemma SomeQa(p: Patterns, place: string) returns (v: Verdict)
    requires place == "q" && !p.reviewText(place)
    ensures CleanQa(p, v) && Locators(v) == {place}
  {
    LowerOne(place);
    v := MakeQa(p, "ultraqa", place);
  }

  /** A run is finished with clean evidence. */
  lemma FinishRun(p: Patterns, run: seq<State>) returns (longer: seq<State>)
    requires !p.qaText("r") && !p.reviewText("q")
    ensures Views(p, longer) == Views(p, run) + [View(None, false, true, true)]
  {
    var review := SomeReview(p, "r");
    var qa := SomeQa(p, "q");
    assert "r"[0] != "q"[0];
    var s := FinishedState(p, review, qa);
    ViewsOfMore(p, run, s, View(None, false, true, true));
    longer := run + [s];
  }

  /** Runs of states that the gate accepts to the end, though none of them is in code review: from
      implementation back to an earlier phase, on to ultraqa, and done. The patterns need only not
      take the two places "r" and "q" for what they are not. */
  lemma GateOpensWithoutReviewPhase(p: Patterns, work: Phase, between: Phase) returns (run: seq<State>, views: seq<View>)
    requires !p.qaText("r") && !p.reviewText("q")
    requires IsImplementation(Some(work)) && (between == Ralplan || between == DeepInterview)
    ensures views == Views(p, run) && |views| == 4 && SucceedsAt(views, 3)
    ensures views[0].phase == Some(work) && views[1].phase == Some(between) && forall i :: 0 <= i < 4 ==> views[i].phase != Some(CodeReview)
  {
    views := AcceptedViews(work, between);
    var run1 := GoOnIn(p, [], work);
    var run2 := GoOnIn(p, run1, between);
    var run3 := GoOnIn(p, run2, Ultraqa);
    run := FinishRun(p, run3);
    FourInARow(Views(p, []), Views(p, run1), Views(p, run2), Views(p, run3), Views(p, run), views);
  }

  lemma AcceptedViews(work: Phase, between: Phase) returns (views: seq<View>)
    requires IsImplementation(Some(work)) && (between == Ralplan || between == DeepInterview)
    ensures |views| == 4 && SucceedsAt(views, 3) && forall i :: 0 <= i < 4 ==> views[i].phase != Some(CodeReview)
    ensures views[0] == View(Some(work), true, false, false) && views[1] == View(Some(between), true, false, false)
    ensures views[2] == View(Some(Ultraqa), true, false, false) && views[3] == View(None, false, true, true)
  {
    var a, b, c := View(Some(work), true, false, false), View(Some(between), true, false, false), View(Some(Ultraqa), true, false, false);
    var d := View(None, false, true, true);
    AnyPhaseOpensTheGate(a, b, c, d);
    views := [a, b, c, d];
  }

  lemma FourInARow(s0: seq<View>, s1: seq<View>, s2: seq<View>, s3: seq<View>, s4: seq<View>, views: seq<View>)
    requires |views| == 4 && s0 == [] && s1 == s0 + [views[0]] && s2 == s1 + [views[1]] && s3 == s2 + [views[2]] && s4 == s3 + [views[3]]
    ensures s4 == views
  {
  }
}
