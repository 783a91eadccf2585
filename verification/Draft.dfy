/**
 The draft of a research mission: the printer and parser of src/cli/autoresearch-intake.ts.
 */
module Draft {
  import opened Wrappers
  import opened Text
  import opened Sandbox
  import Slug

  // ---------------------------------------------------------------- lines that keep their ends

  predicate IsBreak(c: char) {
    c == '\n' || c == '\r'
  }

  /** The text cut behind every line break. */
  function Chunks(s: string): seq<string> {
    if s == "" then []
    else
      var rest := Chunks(s[1..]);
      if IsBreak(s[0]) || rest == [] then [[s[0]]] + rest else [[s[0]] + rest[0]] + rest[1..]
  }

  function Flat(chunks: seq<string>): string {
    if chunks == [] then "" else chunks[0] + Flat(chunks[1..])
  }

  predicate OneLineText(s: string) {
    forall i :: 0 <= i < |s| ==> !IsBreak(s[i])
  }

  predicate EndsLine(s: string) {
    s == "" || IsBreak(s[|s| - 1])
  }

  lemma {:induction false} FlatChunks(s: string)
    ensures Flat(Chunks(s)) == s
  {
    if s != "" {
      FlatChunks(s[1..]);
      var rest := Chunks(s[1..]);
      if rest != [] {
        assert ([[s[0]] + rest[0]] + rest[1..])[1..] == rest[1..];
      }
      assert ([[s[0]]] + rest)[1..] == rest;
      assert s == [s[0]] + s[1..];
    }
  }

  lemma Assoc<T>(a: seq<T>, b: seq<T>, c: seq<T>)
    ensures (a + b) + c == a + (b + c)
  {
  }

  lemma HeadAndTail<T>(a: seq<T>, b: seq<T>)
    requires a != []
    ensures (a + b)[0] == a[0] && (a + b)[1..] == a[1..] + b
  {
  }

  lemma {:induction false} ChunksSum(a: string, b: string)
    requires EndsLine(a)
    ensures Chunks(a + b) == Chunks(a) + Chunks(b)
  {
    if a == "" {
      assert a + b == b;
    } else {
      var c, s := a[0], a[1..];
      HeadAndTail(a, b);
      ChunksSum(s, b);
      var rest, after := Chunks(s), Chunks(b);
      if IsBreak(c) {
        Assoc([[c]], rest, after);
      } else {
        HeadAndTail(rest, after);
        Assoc([[c] + rest[0]], rest[1..], after);
      }
    }
  }

  // ---------------------------------------------------------------- sections

  function AfterBlank(chunks: seq<string>): seq<string> {
    if chunks != [] && Trim(chunks[0]) == "" then AfterBlank(chunks[1..]) else chunks
  }

  /** What follows the heading, if the first line is (or starts) it. White space between the hashes
      and the heading may span lines. */
  function HeadingEnd(chunks: seq<string>, heading: string): Option<seq<string>>
    requires chunks != []
  {
    var c := chunks[0];
    if !("##" <= c) || c == "##" || !IsSpace(c[2]) then None
    else if Trim(c[2..]) != "" then (if Lower(Trim(c[2..])) == Lower(heading) then Some(chunks[1..]) else None)
    else
      var later := AfterBlank(chunks[1..]);
      if later != [] && Lower(Trim(later[0])) == Lower(heading) then Some(later[1..]) else None
  }

  function Found(chunks: seq<string>, heading: string): Option<seq<string>> {
    if chunks == [] then None
    else if HeadingEnd(chunks, heading).Some? then HeadingEnd(chunks, heading)
    else Found(chunks[1..], heading)
  }

  predicate IsHeading(chunk: string) {
    "##" <= chunk && |chunk| > 2 && IsSpace(chunk[2])
  }

  function UntilHeading(chunks: seq<string>): seq<string> {
    if chunks == [] || IsHeading(chunks[0]) then [] else [chunks[0]] + UntilHeading(chunks[1..])
  }

  /** extractMarkdownSection. */
  function ExtractSection(markdown: string, heading: string): string {
    match Found(Chunks(markdown), heading)
    case None => ""
    case Some(rest) => Trim(Flat(UntilHeading(rest)))
  }

  // ---------------------------------------------------------------- launch readiness

  /** The pattern Launch-ready:\s*yes, on lower-case text. */
  predicate SaysReady(s: string) {
    ("launch-ready:" <= s && "yes" <= TrimStart(s[13..])) || (s != "" && SaysReady(s[1..]))
  }

  function Reasons(lines: seq<string>): seq<string> {
    if lines == [] then []
    else
      var line := Trim(lines[0]);
      var reason := if |line| > 1 && line[0] == '-' && IsSpace(line[1]) then Trim(line[1..]) else "";
      (if reason == "" then [] else [reason]) + Reasons(lines[1..])
  }

  const MISSING := "Launch readiness section is missing."

  /** parseLaunchReadinessSection. */
  function ParseReadiness(section: string): (bool, seq<string>) {
    var normalized := Trim(section);
    if normalized == "" then (false, [MISSING])
    else if SaysReady(Lower(normalized)) then (true, [])
    else (false, Reasons(Split(normalized)))
  }

  function Bullets(reasons: seq<string>): string {
    if reasons == [] then "" else "\n- " + reasons[0] + Bullets(reasons[1..])
  }

  const CONCRETE := "Evaluator command is concrete and" + " can be compiled into sandbox.md"

  /** buildLaunchReadinessSection. */
  function ReadinessText(launchReady: bool, blocked: seq<string>): string {
    "Launch-ready: " + (if launchReady then "yes" else "no") + Bullets(if launchReady then [CONCRETE] else blocked)
  }

  // ---------------------------------------------------------------- the draft

  datatype Target = Target(topic: string, evaluatorCommand: string, keepPolicy: KeepPolicy, slug: string)

  datatype Seed = Seed(topic: Option<string>, evaluatorCommand: Option<string>, keepPolicy: Option<KeepPolicy>, slug: Option<string>)

  datatype Title = MissionDraft | EvaluatorDraft | KeepPolicyTitle | SessionSlug | SeedInputs | LaunchReadiness | ConfirmationBridge

  function TitleText(t: Title): string {
    match t
    case MissionDraft => "Mission Draft"
    case EvaluatorDraft => "Evaluator Draft"
    case KeepPolicyTitle => "Keep Policy"
    case SessionSlug => "Session Slug"
    case SeedInputs => "Seed Inputs"
    case LaunchReadiness => "Launch Readiness"
    case ConfirmationBridge => "Confirmation Bridge"
  }

  datatype Part = Part(title: Title, body: string)

  function HeadingLine(t: Title): string {
    "## " + TitleText(t) + "\n"
  }

  function Parts(parts: seq<Part>): string {
    if parts == [] then "" else HeadingLine(parts[0].title) + (parts[0].body + Parts(parts[1..]))
  }

  function OrNone(s: Option<string>): string {
    if s.Some? && Trim(s.value) != "" then Trim(s.value) else "(none)"
  }

  function SeedText(seed: Seed): string {
    "- topic: " + OrNone(seed.topic) + "\n- evaluator: " + OrNone(seed.evaluatorCommand)
    + "\n- keep_policy: " + (if seed.keepPolicy.Some? then PolicyName(seed.keepPolicy.value) else "(none)")
    + "\n- slug: " + OrNone(seed.slug)
  }

  const DRAFT_OF := "Deep Interview Autoresearch Draft \U{2014} "

  function TitleLine(slug: string): string {
    "# " + (DRAFT_OF + slug) + "\n\n"
  }

  const BRIDGE := "- refine further\n- launch\n"

  function Sections(topic: string, evaluator: string, policy: string, slug: string, seeds: string, readiness: string): seq<Part> {
    [Part(MissionDraft, topic + "\n\n"), Part(EvaluatorDraft, evaluator + "\n\n"), Part(KeepPolicyTitle, policy + "\n\n"),
     Part(SessionSlug, slug + "\n\n"), Part(SeedInputs, seeds + "\n\n"), Part(LaunchReadiness, readiness + "\n\n"),
     Part(ConfirmationBridge, BRIDGE)]
  }

  /** buildAutoresearchDraftArtifactContent. */
  function BuildDraft(target: Target, seed: Seed, launchReady: bool, blocked: seq<string>): string {
    TitleLine(target.slug)
    + Parts(Sections(target.topic, target.evaluatorCommand, PolicyName(target.keepPolicy), target.slug, SeedText(seed),
                     ReadinessText(launchReady, blocked)))
  }

  /** Runs of line breaks become one space. */
  function OneLine(s: string, afterBreak: bool): string {
    if s == "" then ""
    else if IsBreak(s[0]) then (if afterBreak then "" else " ") + OneLine(s[1..], true)
    else [s[0]] + OneLine(s[1..], false)
  }

  datatype DraftError = MissingMission | MissingEvaluator | BadSandbox(error: Error)

  datatype Parsed = Parsed(target: Target, launchReady: bool, blocked: seq<string>)

  function ParsePolicy(raw: string): KeepPolicy {
    if Lower(Trim(raw)) == "pass_only" then PassOnly else ScoreImprovement
  }

  /** What the parser makes of the five sections it looks up. */
  function Assemble(topic: string, evaluatorRaw: string, policyRaw: string, slugRaw: string, readiness: string): Result<Parsed, DraftError> {
    var evaluator := OneLine(evaluatorRaw, false);
    var policy := ParsePolicy(policyRaw);
    var (ready, blocked) := ParseReadiness(readiness);
    if topic == "" then Err(MissingMission)
    else if evaluator == "" then Err(MissingEvaluator)
    else
      var target := Target(topic, evaluator, policy, Slug.Slugify(if slugRaw != "" then slugRaw else topic));
      match ParseSandbox(BuildSandbox(evaluator, policy))
      case Err(e) => Err(BadSandbox(e))
      case Ok(_) => Ok(Parsed(target, ready, blocked))
  }

  /** parseDraftArtifactContent. */
  function ParseDraft(content: string): Result<Parsed, DraftError> {
    Assemble(ExtractSection(content, TitleText(MissionDraft)), ExtractSection(content, TitleText(EvaluatorDraft)),
             ExtractSection(content, TitleText(KeepPolicyTitle)), ExtractSection(content, TitleText(SessionSlug)),
             ExtractSection(content, TitleText(LaunchReadiness)))
  }

  // ---------------------------------------------------------------- a section is found again

  lemma TitlesDiffer(a: Title, b: Title)
    requires a != b
    ensures Lower(TitleText(a)) != Lower(TitleText(b))
  {
    assert |TitleText(a)| != |TitleText(b)| || Lower(TitleText(a))[0] != Lower(TitleText(b))[0];
  }

  lemma TitleIsPlain(t: Title)
    ensures TitleText(t) != "" && Trimmed(TitleText(t)) && OneLineText(TitleText(t))
  {
    match t
    case MissionDraft => assert OneLineText("Mission Draft");
    case EvaluatorDraft => assert OneLineText("Evaluator Draft");
    case KeepPolicyTitle => assert OneLineText("Keep Policy");
    case SessionSlug => assert OneLineText("Session Slug");
    case SeedInputs => assert OneLineText("Seed Inputs");
    case LaunchReadiness => assert OneLineText("Launch Readiness");
    case ConfirmationBridge => assert OneLineText("Confirmation Bridge");
  }

  lemma {:induction false} OneChunk(s: string)
    requires OneLineText(s)
    ensures Chunks(s + "\n") == [s + "\n"]
  {
    if s == "" {
      assert s + "\n" == "\n" && "\n"[1..] == "";
    } else {
      OneChunk(s[1..]);
      assert (s + "\n")[1..] == s[1..] + "\n";
      assert [s[0]] + (s[1..] + "\n") == s + "\n";
    }
  }

  predicate NoHeadings(chunks: seq<string>) {
    forall i :: 0 <= i < |chunks| ==> !IsHeading(chunks[i])
  }

  lemma {:induction false} SkipPlain(plain: seq<string>, rest: seq<string>, heading: string)
    requires NoHeadings(plain)
    ensures Found(plain + rest, heading) == Found(rest, heading)
  {
    if plain == [] {
      assert plain + rest == rest;
    } else {
      SkipPlain(plain[1..], rest, heading);
      assert (plain + rest)[1..] == plain[1..] + rest;
    }
  }

  lemma {:induction false} UntilNext(plain: seq<string>, rest: seq<string>)
    requires NoHeadings(plain) && (rest == [] || IsHeading(rest[0]))
    ensures UntilHeading(plain + rest) == plain
  {
    if plain == [] {
      assert plain + rest == rest;
    } else {
      UntilNext(plain[1..], rest);
      assert (plain + rest)[1..] == plain[1..] + rest;
    }
  }

  lemma TrimLine(title: string)
    requires title != "" && Trimmed(title)
    ensures Trim(" " + title + "\n") == title
  {
    var s, tail := " " + title + "\n", title + "\n";
    assert s[1..] == tail;
    assert TrimStart(tail) == tail;
    assert TrimStart(s) == TrimStart(s[1..]);
    assert tail[..|tail| - 1] == title;
    assert TrimEnd(tail) == TrimEnd(title);
  }

  lemma HeadingOf(title: string, rest: seq<string>, heading: string)
    requires title != "" && Trimmed(title)
    ensures IsHeading("## " + title + "\n")
    ensures HeadingEnd(["## " + title + "\n"] + rest, heading) == if Lower(title) == Lower(heading) then Some(rest) else None
  {
    var line := "## " + title + "\n";
    assert line[2..] == " " + title + "\n" && line[2] == ' ' && |line| > 2;
    TrimLine(title);
    assert ([line] + rest)[1..] == rest;
  }

  /** A printed heading ends the search for its title and for no other. */
  lemma PrintedHeading(t: Title, rest: seq<string>, other: Title)
    ensures IsHeading(HeadingLine(t))
    ensures HeadingEnd([HeadingLine(t)] + rest, TitleText(other)) == if t == other then Some(rest) else None
  {
    TitleIsPlain(t);
    HeadingOf(TitleText(t), rest, TitleText(other));
    if t != other {
      TitlesDiffer(t, other);
    }
  }

  function PartChunks(parts: seq<Part>): seq<string> {
    if parts == [] then [] else [HeadingLine(parts[0].title)] + (Chunks(parts[0].body) + PartChunks(parts[1..]))
  }

  ghost predicate Framed(parts: seq<Part>) {
    forall i :: 0 <= i < |parts| ==> parts[i].body != "" && EndsLine(parts[i].body)
  }

  /** The first k bodies have no heading in them. */
  ghost predicate FreeUpTo(parts: seq<Part>, k: nat)
    requires k <= |parts|
  {
    forall i :: 0 <= i < k ==> NoHeadings(Chunks(parts[i].body))
  }

  ghost predicate FirstOfTitle(parts: seq<Part>, k: nat) {
    k < |parts| && forall i :: 0 <= i < k ==> parts[i].title != parts[k].title
  }

  lemma {:induction false} ChunksOfParts(parts: seq<Part>)
    requires Framed(parts)
    ensures Chunks(Parts(parts)) == PartChunks(parts)
  {
    if parts != [] {
      var first, rest := parts[0], parts[1..];
      ChunksOfParts(rest);
      TitleIsPlain(first.title);
      PlainHeadingLine(TitleText(first.title));
      ChunksSum(HeadingLine(first.title), first.body + Parts(rest));
      ChunksSum(first.body, Parts(rest));
    }
  }

  lemma OneLineSum(a: string, b: string)
    requires OneLineText(a) && OneLineText(b)
    ensures OneLineText(a + b)
  {
  }

  lemma PlainHeadingLine(title: string)
    requires OneLineText(title)
    ensures Chunks("## " + title + "\n") == ["## " + title + "\n"]
  {
    OneLineSum("## ", title);
    OneChunk("## " + title);
  }

  lemma FindsFirst(parts: seq<Part>)
    requires parts != []
    ensures Found(PartChunks(parts), TitleText(parts[0].title)) == Some(Chunks(parts[0].body) + PartChunks(parts[1..]))
  {
    PrintedHeading(parts[0].title, Chunks(parts[0].body) + PartChunks(parts[1..]), parts[0].title);
  }

  /** Part k is the first of its title, and no body before it has a heading in it. */
  ghost predicate Reached(parts: seq<Part>, k: nat) {
    FirstOfTitle(parts, k) && FreeUpTo(parts, k)
  }

  /** Searching the printed parts for a title finds that part's body. */
  lemma {:induction false} FindsPart(parts: seq<Part>, k: nat)
    requires Reached(parts, k)
    ensures Found(PartChunks(parts), TitleText(parts[k].title)) == Some(Chunks(parts[k].body) + PartChunks(parts[k + 1..]))
  {
    if k == 0 {
      FindsFirst(parts);
    } else {
      SkipPart(parts, parts[k].title);
      WithoutFirst(parts, k);
      FindsPart(parts[1..], k - 1);
      assert parts[1..][k - 1 + 1..] == parts[k + 1..];
    }
  }

  lemma SkipPart(parts: seq<Part>, title: Title)
    requires parts != [] && parts[0].title != title && NoHeadings(Chunks(parts[0].body))
    ensures Found(PartChunks(parts), TitleText(title)) == Found(PartChunks(parts[1..]), TitleText(title))
  {
    var after := Chunks(parts[0].body) + PartChunks(parts[1..]);
    PrintedHeading(parts[0].title, after, title);
    assert PartChunks(parts)[1..] == after;
    SkipPlain(Chunks(parts[0].body), PartChunks(parts[1..]), TitleText(title));
  }

  lemma WithoutFirst(parts: seq<Part>, k: nat)
    requires Reached(parts, k) && k > 0
    ensures Reached(parts[1..], k - 1)
  {
  }

  lemma FindsSection(pre: string, parts: seq<Part>, k: nat)
    requires EndsLine(pre) && NoHeadings(Chunks(pre)) && Framed(parts) && FirstOfTitle(parts, k) && FreeUpTo(parts, k)
    ensures var next := PartChunks(parts[k + 1..]);
            ExtractSection(pre + Parts(parts), TitleText(parts[k].title)) == Trim(Flat(UntilHeading(Chunks(parts[k].body) + next)))
            && (next == [] || IsHeading(next[0]))
  {
    ChunksSum(pre, Parts(parts));
    ChunksOfParts(parts);
    SkipPlain(Chunks(pre), PartChunks(parts), TitleText(parts[k].title));
    FindsPart(parts, k);
    if parts[k + 1..] != [] {
      PrintedHeading(parts[k + 1..][0].title, [], MissionDraft);
    }
  }

  /** extractMarkdownSection of a printed document is the trimmed body printed under the title. */
  lemma SectionComesBack(pre: string, parts: seq<Part>, k: nat)
    requires EndsLine(pre) && NoHeadings(Chunks(pre)) && Framed(parts) && FirstOfTitle(parts, k) && FreeUpTo(parts, k + 1)
    ensures ExtractSection(pre + Parts(parts), TitleText(parts[k].title)) == Trim(parts[k].body)
  {
    FindsSection(pre, parts, k);
    UntilNext(Chunks(parts[k].body), PartChunks(parts[k + 1..]));
    FlatChunks(parts[k].body);
  }

  lemma {:induction false} UntilHeadingIsShort(chunks: seq<string>, rest: seq<string>)
    requires !NoHeadings(chunks)
    ensures |Flat(UntilHeading(chunks + rest))| + 3 <= |Flat(chunks)|
  {
    assert (chunks + rest)[0] == chunks[0] && (chunks + rest)[1..] == chunks[1..] + rest;
    if !IsHeading(chunks[0]) {
      assert !NoHeadings(chunks[1..]) by {
        var i :| 0 <= i < |chunks| && IsHeading(chunks[i]);
        assert chunks[1..][i - 1] == chunks[i];
      }
      UntilHeadingIsShort(chunks[1..], rest);
    }
  }

  /** A body with a heading in it is cut there. */
  lemma SectionIsCutShort(pre: string, parts: seq<Part>, k: nat, text: string)
    requires EndsLine(pre) && NoHeadings(Chunks(pre)) && Framed(parts) && FirstOfTitle(parts, k) && FreeUpTo(parts, k)
    requires parts[k].body == text + "\n\n" && !HeadingFree(text)
    ensures |ExtractSection(pre + Parts(parts), TitleText(parts[k].title))| < |text|
  {
    var next := PartChunks(parts[k + 1..]);
    FindsSection(pre, parts, k);
    ChunksOfBody(text);
    UntilHeadingIsShort(Chunks(text + "\n"), ["\n"] + next);
    Assoc(Chunks(text + "\n"), ["\n"], next);
    FlatChunks(text + "\n");
    TrimShortens(Flat(UntilHeading(Chunks(parts[k].body) + next)));
  }

  ghost predicate HeadingFree(text: string) {
    NoHeadings(Chunks(text + "\n"))
  }

  lemma ChunksOfBody(text: string)
    ensures Chunks(text + "\n\n") == Chunks(text + "\n") + ["\n"]
  {
    ChunksSum(text + "\n", "\n");
    assert text + "\n\n" == (text + "\n") + "\n";
    assert Chunks("\n") == ["\n"] by {
      assert "\n"[1..] == "";
    }
  }

  // ---------------------------------------------------------------- the readiness section comes back

  lemma TrimBlankLines(s: string)
    requires s != "" && Trimmed(s)
    ensures Trim(s + "\n\n") == s
  {
    var a, b := s + "\n", s + "\n\n";
    assert b[..|b| - 1] == a && a[..|a| - 1] == s;
    assert TrimStart(b) == b;
    assert TrimEnd(b) == TrimEnd(a) && TrimEnd(a) == TrimEnd(s);
  }

  /** A reason that can be printed as one bullet and does not itself speak of readiness. */
  predicate GoodReason(r: string) {
    r != "" && Trimmed(r) && (forall i :: 0 <= i < |r| ==> !IsBreak(r[i])) && !SaysReady(Lower(r))
  }

  ghost predicate GoodReasons(reasons: seq<string>) {
    forall i :: 0 <= i < |reasons| ==> GoodReason(reasons[i])
  }

  lemma BulletsCons(head: string, reasons: seq<string>)
    requires reasons != []
    ensures head + Bullets(reasons) == head + ("\n- " + reasons[0]) + Bullets(reasons[1..])
  {
  }

  lemma {:induction false} BulletsEnd(head: string, reasons: seq<string>)
    requires head != "" && Trimmed(head)
    requires forall i :: 0 <= i < |reasons| ==> reasons[i] != "" && Trimmed(reasons[i])
    ensures head + Bullets(reasons) != "" && Trimmed(head + Bullets(reasons))
    decreases |reasons|
  {
    if reasons == [] {
      assert head + "" == head;
    } else {
      var next := head + ("\n- " + reasons[0]);
      EndOf(head + "\n- ", reasons[0], next);
      BulletsEnd(next, reasons[1..]);
      BulletsCons(head, reasons);
    }
  }

  lemma EndOf(a: string, b: string, text: string)
    requires a != "" && b != "" && !IsSpace(a[0]) && Trimmed(b) && text == a + b
    ensures text != "" && Trimmed(text)
  {
    assert text[0] == a[0] && text[|text| - 1] == b[|b| - 1];
  }

  lemma {:induction false} LowerSum(a: string, b: string)
    ensures Lower(a + b) == Lower(a) + Lower(b)
  {
    if a == "" {
      assert a + b == b;
    } else {
      LowerSum(a[1..], b);
      assert (a + b)[1..] == a[1..] + b;
    }
  }

  predicate NextBullet(x: string) {
    x == "" || (|x| > 1 && x[0] == '\n' && x[1] == '-')
  }

  lemma BulletIsNoYes(x: string)
    requires |x| > 1 && x[0] == '\n' && x[1] == '-'
    ensures !("yes" <= TrimStart(x))
  {
    var bullet := x[1..];
    assert IsSpace(x[0]) && TrimStart(x) == TrimStart(bullet);
    assert bullet[0] == '-' && !IsSpace('-') && TrimStart(bullet) == bullet;
  }

  /** "yes" is not found across the start of the next bullet. */
  lemma {:induction false} YesInLine(s: string, x: string)
    requires NextBullet(x)
    ensures "yes" <= TrimStart(s + x) <==> "yes" <= TrimStart(s)
  {
    if s == "" {
      assert s + x == x;
      if x != "" {
        BulletIsNoYes(x);
      }
    } else if IsSpace(s[0]) {
      assert (s + x)[1..] == s[1..] + x;
      YesInLine(s[1..], x);
    } else {
      PrefixInLine("yes", s, x);
    }
  }

  lemma PrefixInLine(p: string, s: string, x: string)
    requires NextBullet(x) && '\n' !in p
    ensures p <= s + x <==> p <= s
  {
    assert x != "" ==> (s + x)[|s|] == '\n';
    assert |p| > |s| ==> p[|s|] != '\n';
  }

  /** Neither is the whole phrase: it is looked for line by line. */
  lemma {:induction false} ReadyInLine(s: string, x: string)
    requires NextBullet(x)
    ensures SaysReady(s + x) <==> SaysReady(s) || SaysReady(x)
  {
    if s == "" {
      assert s + x == x;
    } else {
      assert (s + x)[1..] == s[1..] + x;
      ReadyInLine(s[1..], x);
      PhraseHasNoBreak("launch-ready:");
      PrefixInLine("launch-ready:", s, x);
      if "launch-ready:" <= s {
        assert (s + x)[13..] == s[13..] + x;
        YesInLine(s[13..], x);
      }
    }
  }

  lemma PhraseHasNoBreak(p: string)
    requires p == "launch-ready:"
    ensures '\n' !in p && |p| == 13 && p[0] == 'l'
  {
  }

  /** A bullet says ready exactly when its reason does. */
  lemma BulletSays(r: string)
    ensures SaysReady("\n- " + r) <==> SaysReady(r)
  {
    var s := "\n- " + r;
    PhraseHasNoBreak("launch-ready:");
    assert s[1..] == "- " + r && s[1..][1..] == " " + r && s[1..][1..][1..] == r;
    assert SaysReady(s[1..]) == SaysReady(s[1..][1..]);
  }

  lemma {:induction false} BulletsSayNothing(reasons: seq<string>)
    requires GoodReasons(reasons)
    ensures NextBullet(Lower(Bullets(reasons))) && !SaysReady(Lower(Bullets(reasons)))
  {
    if reasons == [] {
      PhraseHasNoBreak("launch-ready:");
    } else {
      var r, rest := reasons[0], Bullets(reasons[1..]);
      BulletsSayNothing(reasons[1..]);
      assert Bullets(reasons) == ("\n- " + r) + rest;
      LowerSum("\n- " + r, rest);
      LowerSum("\n- ", r);
      LowerBullet();
      BulletSays(Lower(r));
      ReadyInLine("\n- " + Lower(r), Lower(rest));
      assert Lower(Bullets(reasons)) == ("\n- " + Lower(r)) + Lower(rest);
    }
  }

  lemma LowerBullet()
    ensures Lower("\n- ") == "\n- "
  {
    assert "\n- "[1..] == "- " && "- "[1..] == " ";
  }

  function BulletLines(reasons: seq<string>): seq<string> {
    if reasons == [] then [] else ["- " + reasons[0]] + BulletLines(reasons[1..])
  }

  lemma BulletBreaks(line: string, reasons: seq<string>)
    requires reasons != []
    ensures line + Bullets(reasons) == line + "\n" + ("- " + reasons[0] + Bullets(reasons[1..]))
  {
    BulletsCons(line, reasons);
  }

  lemma ReasonHasNoBreak(r: string)
    requires GoodReason(r)
    ensures '\n' !in "- " + r
  {
  }

  lemma {:induction false} SplitBullets(line: string, reasons: seq<string>)
    requires '\n' !in line && GoodReasons(reasons)
    ensures Split(line + Bullets(reasons)) == [line] + BulletLines(reasons)
    decreases |reasons|
  {
    if reasons == [] {
      assert line + "" == line;
      SplitLine(line);
    } else {
      var next := "- " + reasons[0];
      ReasonHasNoBreak(reasons[0]);
      SplitBullets(next, reasons[1..]);
      BulletBreaks(line, reasons);
      SplitAfter(line, next + Bullets(reasons[1..]));
    }
  }

  lemma BulletIsReason(r: string, rest: seq<string>)
    requires r != "" && Trimmed(r)
    ensures Reasons(["- " + r] + rest) == [r] + Reasons(rest)
  {
    var line := "- " + r;
    EndOf("- ", r, line);
    TrimmedIsKept(line);
    assert line[1..] == " " + r && (" " + r)[1..] == r;
    assert TrimStart(" " + r) == r;
    TrimmedIsKept(r);
    assert ([line] + rest)[1..] == rest;
  }

  lemma {:induction false} BulletsAreReasons(reasons: seq<string>)
    requires GoodReasons(reasons)
    ensures Reasons(BulletLines(reasons)) == reasons
  {
    if reasons != [] {
      BulletsAreReasons(reasons[1..]);
      assert GoodReason(reasons[0]);
      BulletIsReason(reasons[0], BulletLines(reasons[1..]));
    }
  }

  lemma {:induction false} SaysReadyIsLong(s: string)
    requires SaysReady(s)
    ensures |s| >= 16
  {
    PhraseHasNoBreak("launch-ready:");
    if s != "" && SaysReady(s[1..]) {
      SaysReadyIsLong(s[1..]);
    }
  }

  lemma LaunchTail(tail: string)
    requires tail == "aunch-ready: "
    ensures Lower(tail) == tail
  {
    assert forall i :: 0 <= i < |tail| ==> !('A' <= tail[i] <= 'Z');
    LowerKept(tail);
  }

  lemma LaunchHeads(tail: string)
    requires tail == "aunch-ready: "
    ensures "L" + tail == "Launch-ready: " && "l" + tail == "launch-ready: "
  {
  }

  lemma LowerLaunch(tail: string)
    requires tail == "aunch-ready: "
    ensures Lower("L" + tail) == "l" + tail
  {
    LaunchTail(tail);
    LowerSum("L", tail);
    assert "L"[1..] == "" && Lower("L") == "l";
  }

  lemma LaunchLine(head: string, answer: string)
    requires head == "launch-ready: " && (|answer| == 2 || answer == "yes") && !IsSpace(answer[0])
    ensures SaysReady(head + answer) <==> answer == "yes"
  {
    var s := head + answer;
    PhraseHasNoBreak("launch-ready:");
    assert head == "launch-ready:" + " ";
    assert s[13..] == " " + answer && (" " + answer)[1..] == answer;
    assert TrimStart(" " + answer) == TrimStart(answer) == answer;
    if answer != "yes" && SaysReady(s[1..]) {
      SaysReadyIsLong(s[1..]);
    }
  }

  lemma LaunchText(head: string, answer: string, reasons: seq<string>)
    requires head == "Launch-ready: " && (answer == "yes" || answer == "no") && Lower(answer) == answer
    requires answer == "no" ==> GoodReasons(reasons)
    ensures SaysReady(Lower(head + answer + Bullets(reasons))) <==> answer == "yes"
  {
    var lower, rest := Lower(head), Lower(Bullets(reasons));
    LowerHead(head);
    LowerSum(head, answer);
    LowerSum(head + answer, Bullets(reasons));
    BulletsFollow(reasons);
    ReadyInLine(lower + answer, rest);
    LaunchLine(lower, answer);
    if answer == "no" {
      BulletsSayNothing(reasons);
    }
  }

  lemma LowerHead(head: string)
    requires head == "Launch-ready: "
    ensures Lower(head) == "launch-ready: "
  {
    LaunchHeads("aunch-ready: ");
    LowerLaunch("aunch-ready: ");
  }

  lemma BulletsFollow(reasons: seq<string>)
    ensures NextBullet(Lower(Bullets(reasons)))
  {
    if reasons != [] {
      LowerSum("\n- ", reasons[0] + Bullets(reasons[1..]));
      LowerBullet();
      assert Bullets(reasons) == "\n- " + (reasons[0] + Bullets(reasons[1..]));
    }
  }

  /** parseLaunchReadinessSection undoes buildLaunchReadinessSection. */
  lemma ReadinessComesBack(launchReady: bool, blocked: seq<string>)
    requires GoodReasons(blocked) && (launchReady ==> blocked == [])
    ensures ParseReadiness(ReadinessText(launchReady, blocked)) == (launchReady, blocked)
    ensures ReadinessText(launchReady, blocked) != "" && Trimmed(ReadinessText(launchReady, blocked))
  {
    var head := "Launch-ready: ";
    Answers();
    if launchReady {
      LaunchText(head, "yes", [CONCRETE]);
      LineFacts(head, "yes");
      AnsweredYes(head + "yes", [CONCRETE]);
    } else {
      LaunchText(head, "no", blocked);
      LineFacts(head, "no");
      AnsweredNo(head + "no", blocked);
    }
  }

  lemma LineFacts(head: string, answer: string)
    requires head == "Launch-ready: " && (answer == "yes" || answer == "no")
    ensures var line := head + answer; line != "" && Trimmed(line) && '\n' !in line && line[0] != '-'
  {
    assert head[0] == 'L' && |head| == 14;
  }

  lemma AnsweredYes(line: string, reasons: seq<string>)
    requires line != "" && Trimmed(line) && forall i :: 0 <= i < |reasons| ==> reasons[i] != "" && Trimmed(reasons[i])
    requires SaysReady(Lower(line + Bullets(reasons)))
    ensures var text := line + Bullets(reasons); text != "" && Trimmed(text) && ParseReadiness(text) == (true, [])
  {
    BulletsEnd(line, reasons);
    TrimmedIsKept(line + Bullets(reasons));
  }

  lemma AnsweredNo(line: string, blocked: seq<string>)
    requires line != "" && Trimmed(line) && '\n' !in line && line[0] != '-' && GoodReasons(blocked)
    requires !SaysReady(Lower(line + Bullets(blocked)))
    ensures var text := line + Bullets(blocked); text != "" && Trimmed(text) && ParseReadiness(text) == (false, blocked)
  {
    BulletsEnd(line, blocked);
    TrimmedIsKept(line + Bullets(blocked));
    ReasonsOf(line, blocked);
  }

  lemma ReasonsOf(line: string, blocked: seq<string>)
    requires line != "" && Trimmed(line) && '\n' !in line && line[0] != '-' && GoodReasons(blocked)
    ensures Reasons(Split(line + Bullets(blocked))) == blocked
  {
    SplitBullets(line, blocked);
    BulletsAreReasons(blocked);
    NoReason(line, BulletLines(blocked));
  }

  lemma NoReason(line: string, rest: seq<string>)
    requires line != "" && Trimmed(line) && line[0] != '-'
    ensures Reasons([line] + rest) == Reasons(rest)
  {
    TrimmedIsKept(line);
    assert ([line] + rest)[1..] == rest;
  }

  lemma Answers()
    ensures Lower("yes") == "yes" && Lower("no") == "no"
    ensures CONCRETE != "" && Trimmed(CONCRETE)
  {
    ConcreteIsPlain();
    LowerKept("yes");
    LowerKept("no");
  }

  // ---------------------------------------------------------------- the whole draft comes back

  /** Text that can stand under a heading: it has no line that starts a heading itself. */
  ghost predicate GoodText(text: string) {
    text != "" && Trimmed(text) && HeadingFree(text)
  }

  lemma BodyIsFree(text: string)
    requires HeadingFree(text)
    ensures EndsLine(text + "\n\n") && NoHeadings(Chunks(text + "\n\n"))
  {
    ChunksOfBody(text);
  }

  lemma LineIsHeadingFree(line: string)
    requires forall i :: 0 <= i < |line| ==> !IsBreak(line[i])
    requires !("##" <= line)
    ensures HeadingFree(line)
  {
    OneChunk(line);
  }

  lemma SlugIsGoodText(slug: string)
    requires Slug.Slugify(slug) == slug
    ensures GoodText(slug) && forall i :: 0 <= i < |slug| ==> !IsBreak(slug[i])
  {
    Slug.KeptExactlyWhen(slug);
    LineIsHeadingFree(slug);
  }

  lemma PolicyIsGoodText(name: string, policy: KeepPolicy)
    requires name == PolicyName(policy)
    ensures GoodText(name) && ParsePolicy(name) == policy
  {
    PolicyNames(name, policy);
    PlainIsTrimmed(name);
    LineIsHeadingFree(name);
  }

  lemma TitleIsHeadingFree(rest: string)
    requires forall i :: 0 <= i < |rest| ==> !IsBreak(rest[i])
    ensures EndsLine("# " + rest + "\n\n") && NoHeadings(Chunks("# " + rest + "\n\n"))
  {
    var line := "# " + rest;
    assert line[1] == ' ';
    LineIsHeadingFree(line);
    BodyIsFree(line);
  }

  lemma DraftOfIsPlain()
    ensures OneLineText(DRAFT_OF)
  {
  }

  lemma ConcreteIsPlain()
    ensures OneLineText(CONCRETE) && CONCRETE != "" && Trimmed(CONCRETE)
  {
    var a, b := "Evaluator command is concrete and", " can be compiled into sandbox.md";
    assert OneLineText(a) && OneLineText(b);
    OneLineSum(a, b);
    assert a[0] == 'E' && b[|b| - 1] == 'd';
  }

  lemma FirstLineFree(line: string, more: string)
    requires OneLineText(line) && !("##" <= line) && HeadingFree(more)
    ensures HeadingFree(line + "\n" + more)
  {
    LineIsHeadingFree(line);
    ChunksSum(line + "\n", more + "\n");
    assert line + "\n" + more + "\n" == (line + "\n") + (more + "\n");
  }

  lemma {:induction false} BulletsAreHeadingFree(line: string, reasons: seq<string>)
    requires OneLineText(line) && !("##" <= line) && forall k :: 0 <= k < |reasons| ==> OneLineText(reasons[k])
    ensures HeadingFree(line + Bullets(reasons))
    decreases |reasons|
  {
    if reasons == [] {
      LineIsHeadingFree(line);
      assert line + "" == line;
    } else {
      var next := "- " + reasons[0];
      assert next[0] == '-' && OneLineText(reasons[0]);
      BulletsAreHeadingFree(next, reasons[1..]);
      FirstLineFree(line, next + Bullets(reasons[1..]));
      assert line + Bullets(reasons) == line + "\n" + (next + Bullets(reasons[1..]));
    }
  }

  lemma LaunchLineIsPlain(head: string, answer: string)
    requires head == "Launch-ready: " && (answer == "yes" || answer == "no")
    ensures OneLineText(head + answer) && !("##" <= head + answer)
  {
    assert (head + answer)[0] == 'L';
  }

  lemma ReadinessIsHeadingFree(launchReady: bool, blocked: seq<string>)
    requires GoodReasons(blocked)
    ensures HeadingFree(ReadinessText(launchReady, blocked))
  {
    var head, answer := "Launch-ready: ", if launchReady then "yes" else "no";
    LaunchLineIsPlain(head, answer);
    ConcreteIsPlain();
    assert forall k :: 0 <= k < |blocked| ==> GoodReason(blocked[k]);
    BulletsAreHeadingFree(head + answer, if launchReady then [CONCRETE] else blocked);
  }

  lemma {:induction false} OneLineKept(s: string)
    requires OneLineText(s)
    ensures OneLine(s, false) == s
  {
    if s != "" {
      OneLineKept(s[1..]);
    }
  }

  function TitleAt(k: nat): Title {
    if k == 0 then MissionDraft else if k == 1 then EvaluatorDraft else if k == 2 then KeepPolicyTitle else if k == 3 then SessionSlug
    else if k == 4 then SeedInputs else if k == 5 then LaunchReadiness else ConfirmationBridge
  }

  ghost predicate Titled(parts: seq<Part>) {
    |parts| == 7 && forall i :: 0 <= i < 7 ==> parts[i].title == TitleAt(i)
  }

  lemma SectionsAreFramed(topic: string, evaluator: string, policy: string, slug: string, seeds: string, readiness: string)
    ensures var parts := Sections(topic, evaluator, policy, slug, seeds, readiness); Framed(parts) && Titled(parts)
  {
    assert EndsLine(BRIDGE) && BRIDGE != "";
  }

  lemma FreeOneMore(parts: seq<Part>, k: nat, text: string)
    requires k < |parts| && FreeUpTo(parts, k) && parts[k].body == text + "\n\n" && HeadingFree(text)
    ensures FreeUpTo(parts, k + 1)
  {
    BodyIsFree(text);
  }

  /** The section printed under a title comes back exactly when it has no heading in it. */
  lemma BodyComesBack(pre: string, parts: seq<Part>, k: nat, text: string)
    requires EndsLine(pre) && NoHeadings(Chunks(pre)) && Framed(parts) && Titled(parts)
    requires k < |parts| && FreeUpTo(parts, k) && parts[k].body == text + "\n\n" && text != "" && Trimmed(text)
    ensures HeadingFree(text) ==> ExtractSection(pre + Parts(parts), TitleText(TitleAt(k))) == text
    ensures !HeadingFree(text) ==> |ExtractSection(pre + Parts(parts), TitleText(TitleAt(k)))| < |text|
  {
    TitledFirst(parts, k);
    if HeadingFree(text) {
      FreeOneMore(parts, k, text);
      SectionComesBack(pre, parts, k);
      TrimBlankLines(text);
    } else {
      SectionIsCutShort(pre, parts, k, text);
    }
  }

  lemma TitledFirst(parts: seq<Part>, k: nat)
    requires Titled(parts) && k < |parts|
    ensures FirstOfTitle(parts, k) && parts[k].title == TitleAt(k)
  {
    assert forall i :: 0 <= i < k ==> parts[i].title == TitleAt(i);
  }

  lemma SectionsComeBack(pre: string, topic: string, evaluator: string, policy: string, slug: string, seeds: string, readiness: string)
    requires EndsLine(pre) && NoHeadings(Chunks(pre)) && HeadingFree(seeds)
    requires topic != "" && Trimmed(topic) && evaluator != "" && Trimmed(evaluator)
    requires GoodText(policy) && GoodText(slug) && GoodText(readiness)
    ensures var content := pre + Parts(Sections(topic, evaluator, policy, slug, seeds, readiness));
            && (!HeadingFree(topic) ==> |ExtractSection(content, TitleText(MissionDraft))| < |topic|)
            && (HeadingFree(topic) && !HeadingFree(evaluator) ==> |ExtractSection(content, TitleText(EvaluatorDraft))| < |evaluator|)
            && (HeadingFree(topic) && HeadingFree(evaluator) ==>
                  && ExtractSection(content, TitleText(MissionDraft)) == topic
                  && ExtractSection(content, TitleText(EvaluatorDraft)) == evaluator
                  && ExtractSection(content, TitleText(KeepPolicyTitle)) == policy && ExtractSection(content, TitleText(SessionSlug)) == slug
                  && ExtractSection(content, TitleText(LaunchReadiness)) == readiness)
  {
    var parts := Sections(topic, evaluator, policy, slug, seeds, readiness);
    SectionsAreFramed(topic, evaluator, policy, slug, seeds, readiness);
    assert parts[3].body == slug + "\n\n" && parts[4].body == seeds + "\n\n" && parts[5].body == readiness + "\n\n";
    BodyComesBack(pre, parts, 0, topic);
    if HeadingFree(topic) {
      FreeOneMore(parts, 0, topic);
      BodyComesBack(pre, parts, 1, evaluator);
      if HeadingFree(evaluator) {
        FreeOneMore(parts, 1, evaluator);
        BodyComesBack(pre, parts, 2, policy);
        FreeOneMore(parts, 2, policy);
        BodyComesBack(pre, parts, 3, slug);
        FreeOneMore(parts, 3, slug);
        FreeOneMore(parts, 4, seeds);
        BodyComesBack(pre, parts, 5, readiness);
      }
    }
  }

  lemma {:induction false} OneLineIsShort(s: string, afterBreak: bool)
    ensures |OneLine(s, afterBreak)| <= |s|
  {
    if s != "" {
      OneLineIsShort(s[1..], IsBreak(s[0]));
    }
  }

  /** What the draft's writer guarantees: a trimmed topic, a trimmed one-line command, a slug made by
      slugifying that has not been cut behind a dash. */
  ghost predicate Written(t: Target) {
    && t.topic != "" && Trimmed(t.topic)
    && t.evaluatorCommand != "" && Trimmed(t.evaluatorCommand) && OneLineText(t.evaluatorCommand)
    && Slug.Slugify(t.slug) == t.slug
  }

  lemma Assembled(target: Target, launchReady: bool, blocked: seq<string>, policy: string, readiness: string)
    requires Written(target) && ParsePolicy(policy) == target.keepPolicy && ParseReadiness(readiness) == (launchReady, blocked)
    ensures Assemble(target.topic, target.evaluatorCommand, policy, target.slug, readiness) ==
              if ReadBack(target.evaluatorCommand) == "" then Err(BadSandbox(CommandRequired)) else Ok(Parsed(target, launchReady, blocked))
  {
    OneLineKept(target.evaluatorCommand);
    SandboxReadsBack(target.evaluatorCommand, target.keepPolicy);
    SlugIsGoodText(target.slug);
  }

  lemma AssembledShort(target: Target, launchReady: bool, blocked: seq<string>, topic: string, evaluator: string,
                       policy: string, slug: string, readiness: string)
    requires |topic| < |target.topic| || |evaluator| < |target.evaluatorCommand|
    ensures Assemble(topic, evaluator, policy, slug, readiness) != Ok(Parsed(target, launchReady, blocked))
  {
    OneLineIsShort(evaluator, false);
  }

  // ---------------------------------------------------------------- texts that were not printed

  /** A line that starts no section of this title: no heading, or the heading of another section. */
  predicate PassedBy(chunk: string, title: string) {
    !IsHeading(chunk) || (Trim(chunk[2..]) != "" && Lower(Trim(chunk[2..])) != Lower(title))
  }

  lemma {:induction false} SkipOthers(before: seq<string>, rest: seq<string>, title: string)
    requires forall i :: 0 <= i < |before| ==> PassedBy(before[i], title)
    ensures Found(before + rest, title) == Found(rest, title)
  {
    if before == [] {
      assert before + rest == rest;
    } else {
      SkipOthers(before[1..], rest, title);
      assert (before + rest)[1..] == before[1..] + rest && (before + rest)[0] == before[0];
    }
  }

  /** In any text: the section of a title goes from the first heading that spells it, in whatever case
      and with whatever white space around it, to the next heading of any title. */
  lemma SectionIsWhatFollows(markdown: string, title: string, before: seq<string>, line: string, body: seq<string>, after: seq<string>)
    requires Chunks(markdown) == before + ([line] + (body + after)) && title != ""
    requires forall i :: 0 <= i < |before| ==> PassedBy(before[i], title)
    requires IsHeading(line) && Trim(line[2..]) != "" && Lower(Trim(line[2..])) == Lower(title)
    requires NoHeadings(body) && (after == [] || IsHeading(after[0]))
    ensures ExtractSection(markdown, title) == Trim(Flat(body))
  {
    SkipOthers(before, [line] + (body + after), title);
    assert ([line] + (body + after))[1..] == body + after;
    UntilNext(body, after);
  }

  /** Without such a heading there is none. */
  lemma NoSectionIsEmpty(markdown: string, title: string)
    requires forall i :: 0 <= i < |Chunks(markdown)| ==> PassedBy(Chunks(markdown)[i], title)
    ensures ExtractSection(markdown, title) == ""
  {
    SkipOthers(Chunks(markdown), [], title);
    assert Chunks(markdown) + [] == Chunks(markdown);
  }

  lemma {:induction false} BlanksAreSkipped(blanks: seq<string>, rest: seq<string>)
    requires (forall i :: 0 <= i < |blanks| ==> Trim(blanks[i]) == "") && (rest == [] || Trim(rest[0]) != "")
    ensures AfterBlank(blanks + rest) == rest
  {
    if blanks == [] {
      assert blanks + rest == rest;
    } else {
      assert (blanks + rest)[1..] == blanks[1..] + rest && (blanks + rest)[0] == blanks[0];
      BlanksAreSkipped(blanks[1..], rest);
    }
  }

  /** A heading may stand on a later line than its hashes, with only blank lines between. */
  lemma HeadingMayFollowLater(hashes: string, blanks: seq<string>, line: string, rest: seq<string>, title: string)
    requires IsHeading(hashes) && Trim(hashes[2..]) == "" && Trim(line) != "" && forall i :: 0 <= i < |blanks| ==> Trim(blanks[i]) == ""
    ensures HeadingEnd([hashes] + (blanks + ([line] + rest)), title) == if Lower(Trim(line)) == Lower(title) then Some(rest) else None
  {
    BlanksAreSkipped(blanks, [line] + rest);
    assert ([hashes] + (blanks + ([line] + rest)))[1..] == blanks + ([line] + rest);
    assert ([line] + rest)[1..] == rest;
  }

  /** What a seed is printed as: its texts, trimmed, and "(none)" for what is not given. */
  lemma SeedIsListed(seed: Seed)
    ensures var shown := (s: Option<string>) => if s.None? || Trim(s.value) == "" then "(none)" else Trim(s.value);
            SeedText(seed) == "- topic: " + shown(seed.topic) + "\n- evaluator: " + shown(seed.evaluatorCommand)
                              + "\n- keep_policy: " + (if seed.keepPolicy.None? then "(none)" else PolicyName(seed.keepPolicy.value))
                              + "\n- slug: " + shown(seed.slug)
  {
  }

  /** "launch-ready:" and "yes" stand in the text, with at most white space between them. */
  ghost predicate Announces(s: string, i: nat, gap: string) {
    i <= |s| && Blank(gap) && "launch-ready:" + (gap + "yes") <= s[i..]
  }

  lemma {:induction false} ReadyExactlyWhen(s: string)
    ensures SaysReady(s) <==> exists i: nat, gap :: Announces(s, i, gap)
  {
    ReadyHere(s);
    assert s[0..] == s;
    if s != "" {
      ReadyExactlyWhen(s[1..]);
      forall i: nat, gap | Announces(s, i, gap) && i > 0 ensures Announces(s[1..], i - 1, gap) {
        assert s[1..][i - 1..] == s[i..];
      }
      forall i: nat, gap | Announces(s[1..], i, gap) ensures Announces(s, i + 1, gap) {
        assert s[1..][i..] == s[i + 1..];
      }
    }
  }

  lemma ReadyHere(s: string)
    ensures "launch-ready:" <= s && "yes" <= TrimStart(s[13..]) <==> exists gap :: Announces(s, 0, gap)
  {
    assert s[0..] == s && |"launch-ready:"| == 13 && !IsSpace("yes"[0]);
    if "launch-ready:" <= s && "yes" <= TrimStart(s[13..]) {
      var gap := GapBetween("launch-ready:", "yes", s);
      assert Announces(s, 0, gap);
    }
    forall gap | Announces(s, 0, gap) ensures "launch-ready:" <= s && "yes" <= TrimStart(s[13..]) {
      SeenThroughGap("launch-ready:", "yes", s, gap);
    }
  }

  lemma GapBetween(word: string, answer: string, s: string) returns (gap: string)
    requires word <= s && answer <= TrimStart(s[|word|..])
    ensures Blank(gap) && word + (gap + answer) <= s
  {
    var rest := s[|word|..];
    var start := TrimStart(rest);
    gap := rest[..|rest| - |start|];
    StartTrimmedOff(rest);
    PutTogether(s, word, rest, gap, start, answer);
  }

  lemma PutTogether(s: string, word: string, rest: string, gap: string, start: string, answer: string)
    requires word <= s && rest == s[|word|..] && rest == gap + start && answer <= start
    ensures word + (gap + answer) <= s
  {
    assert s == word + rest;
  }

  lemma SeenThroughGap(word: string, answer: string, s: string, gap: string)
    requires Blank(gap) && word + (gap + answer) <= s && answer != "" && !IsSpace(answer[0])
    ensures word <= s && answer <= TrimStart(s[|word|..])
  {
    var text := word + (gap + answer);
    var more := s[|text|..];
    assert s == text + more;
    assert s[|word|..] == gap + (answer + more);
    StartOfBlank(gap, answer + more);
  }

  /** A line that is a bullet with this text. */
  predicate Bulleted(line: string, reason: string) {
    var s := Trim(line);
    reason != "" && |s| > 1 && s[0] == '-' && IsSpace(s[1]) && Trim(s[1..]) == reason
  }

  ghost predicate HasBullet(lines: seq<string>, reason: string) {
    exists i :: 0 <= i < |lines| && Bulleted(lines[i], reason)
  }

  lemma BulletFirst(lines: seq<string>, reason: string)
    requires lines != []
    ensures HasBullet(lines, reason) <==> Bulleted(lines[0], reason) || HasBullet(lines[1..], reason)
  {
    if i :| 0 <= i < |lines| && Bulleted(lines[i], reason) {
      assert i > 0 ==> lines[1..][i - 1] == lines[i];
    }
    if i :| 0 <= i < |lines[1..]| && Bulleted(lines[1..][i], reason) {
      assert lines[i + 1] == lines[1..][i];
    }
  }

  /** The blocked reasons are the texts of the bullets. */
  lemma {:induction false} ReasonsAreBullets(lines: seq<string>, reason: string)
    ensures reason in Reasons(lines) <==> HasBullet(lines, reason)
  {
    if lines != [] {
      ReasonsAreBullets(lines[1..], reason);
      BulletFirst(lines, reason);
    }
  }

  /** What any readiness section says. */
  lemma ReadinessIs(section: string)
    ensures ParseReadiness(section).0 <==> exists i: nat, gap :: Announces(Lower(Trim(section)), i, gap)
    ensures ParseReadiness(section).0 ==> ParseReadiness(section).1 == []
    ensures Trim(section) == "" ==> ParseReadiness(section).1 == ["Launch readiness section is missing."]
    ensures !ParseReadiness(section).0 && Trim(section) != "" ==>
              forall r :: r in ParseReadiness(section).1 <==> HasBullet(Split(Trim(section)), r)
  {
    NotReadyWhenEmpty(Trim(section));
    assert ParseReadiness(section).0 == SaysReady(Lower(Trim(section)));
    ReadyExactlyWhen(Lower(Trim(section)));
    forall r ensures r in Reasons(Split(Trim(section))) <==> HasBullet(Split(Trim(section)), r) {
      ReasonsAreBullets(Split(Trim(section)), r);
    }
  }

  lemma NotReadyWhenEmpty(s: string)
    ensures s == "" ==> !SaysReady(Lower(s))
  {
    assert |"launch-ready:"| == 13;
    if s == "" {
      assert Lower(s) == "";
    }
  }

  /** What the five sections of any draft are put together as: their own texts, the policy pass_only only
      if it says so, the slug of its section or of the topic. It is refused for want of a mission or an
      evaluator, and for an evaluator that cannot be put into a sandbox file. */
  lemma AssembledIs(topic: string, evaluatorRaw: string, policyRaw: string, slugRaw: string, readiness: string)
    ensures var evaluator := OneLine(evaluatorRaw, false);
            match Assemble(topic, evaluatorRaw, policyRaw, slugRaw, readiness)
            case Ok(p) =>
              && topic != "" && evaluator != "" && ReadBack(evaluator) != ""
              && p.target.topic == topic && p.target.evaluatorCommand == evaluator
              && (p.target.keepPolicy == PassOnly <==> Lower(Trim(policyRaw)) == "pass_only")
              && p.target.slug == Slug.Slugify(if slugRaw == "" then topic else slugRaw)
              && (p.launchReady, p.blocked) == ParseReadiness(readiness)
            case Err(MissingMission) => topic == ""
            case Err(MissingEvaluator) => topic != "" && evaluator == ""
            case Err(BadSandbox(e)) => topic != "" && evaluator != "" && ReadBack(evaluator) == "" && e == CommandRequired
  {
    SandboxReadsBack(OneLine(evaluatorRaw, false), ParsePolicy(policyRaw));
  }

  /** A run of line breaks inside a command is one space. */
  lemma {:induction false} BreaksAreOneSpace(breaks: string, rest: string)
    requires breaks != "" && (forall i :: 0 <= i < |breaks| ==> IsBreak(breaks[i])) && (rest == "" || !IsBreak(rest[0]))
    ensures OneLine(breaks + rest, true) == OneLine(rest, false) && OneLine(breaks + rest, false) == " " + OneLine(rest, false)
  {
    assert (breaks + rest)[1..] == breaks[1..] + rest;
    if |breaks| > 1 {
      BreaksAreOneSpace(breaks[1..], rest);
    } else {
      assert breaks[1..] + rest == rest;
    }
  }

  lemma {:induction false} OtherTextStays(s: string, rest: string)
    requires OneLineText(s)
    ensures OneLine(s + rest, false) == s + OneLine(rest, false)
  {
    if s == "" {
      assert s + rest == rest;
    } else {
      assert (s + rest)[1..] == s[1..] + rest;
      OtherTextStays(s[1..], rest);
    }
  }

  /** parseDraftArtifactContent undoes buildAutoresearchDraftArtifactContent exactly when neither
      text starts a heading of its own and the command is not just quotes and spaces. */
  lemma DraftRoundTrip(target: Target, seed: Seed, launchReady: bool, blocked: seq<string>)
    requires Written(target) && HeadingFree(SeedText(seed)) && GoodReasons(blocked) && (launchReady ==> blocked == [])
    ensures ParseDraft(BuildDraft(target, seed, launchReady, blocked)) == Ok(Parsed(target, launchReady, blocked)) <==>
              HeadingFree(target.topic) && HeadingFree(target.evaluatorCommand) && ReadBack(target.evaluatorCommand) != ""
  {
    var policy, readiness := PolicyName(target.keepPolicy), ReadinessText(launchReady, blocked);
    var content := BuildDraft(target, seed, launchReady, blocked);
    DraftIsWellMade(target, launchReady, blocked);
    SectionsComeBack(TitleLine(target.slug), target.topic, target.evaluatorCommand, policy, target.slug, SeedText(seed), readiness);
    if HeadingFree(target.topic) && HeadingFree(target.evaluatorCommand) {
      Assembled(target, launchReady, blocked, policy, readiness);
    } else {
      AssembledShort(target, launchReady, blocked,
                     ExtractSection(content, TitleText(MissionDraft)), ExtractSection(content, TitleText(EvaluatorDraft)),
                     ExtractSection(content, TitleText(KeepPolicyTitle)), ExtractSection(content, TitleText(SessionSlug)),
                     ExtractSection(content, TitleText(LaunchReadiness)));
    }
  }

  lemma DraftIsWellMade(target: Target, launchReady: bool, blocked: seq<string>)
    requires Written(target) && GoodReasons(blocked) && (launchReady ==> blocked == [])
    ensures EndsLine(TitleLine(target.slug)) && NoHeadings(Chunks(TitleLine(target.slug))) && GoodText(target.slug)
    ensures GoodText(PolicyName(target.keepPolicy)) && ParsePolicy(PolicyName(target.keepPolicy)) == target.keepPolicy
    ensures GoodText(ReadinessText(launchReady, blocked)) && ParseReadiness(ReadinessText(launchReady, blocked)) == (launchReady, blocked)
  {
    DraftOfIsPlain();
    SlugIsGoodText(target.slug);
    TitleIsHeadingFree(DRAFT_OF + target.slug);
    PolicyIsGoodText(PolicyName(target.keepPolicy), target.keepPolicy);
    ReadinessComesBack(launchReady, blocked);
    ReadinessIsHeadingFree(launchReady, blocked);
  }
}
