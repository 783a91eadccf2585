/**
 sandbox.md: the printer (src/cli/autoresearch-intake.ts) and the parser
 (src/autoresearch/contracts.ts).
 */
module Sandbox {
  import opened Wrappers
  import opened Text

  datatype KeepPolicy = ScoreImprovement | PassOnly

  datatype Error =
    | NoFrontmatter | UnsupportedLine(line: string) | NeedsParent(line: string) | InvalidSection(name: string)
    | NoEvaluator | CommandRequired | FormatRequired | FormatNotJson | BadKeepPolicy

  datatype Value = Scalar(text: string) | Section(entries: map<string, string>)

  datatype Contract = Contract(command: string, keepPolicy: Option<KeepPolicy>, body: string)

  // ---------------------------------------------------------------- lines

  function NoCR(line: string): string {
    if line != "" && line[|line| - 1] == '\r' then line[..|line| - 1] else line
  }

  function NoCRs(lines: seq<string>): seq<string> {
    if lines == [] then [] else [NoCR(lines[0])] + NoCRs(lines[1..])
  }

  /** The first line from i on that starts with three dashes. */
  function FindClose(lines: seq<string>, i: nat): Option<nat>
    requires i <= |lines|
    decreases |lines| - i
    ensures FindClose(lines, i).Some? ==> i <= FindClose(lines, i).value < |lines| && "---" <= lines[FindClose(lines, i).value]
  {
    if i == |lines| then None
    else if "---" <= lines[i] then Some(i)
    else FindClose(lines, i + 1)
  }

  /** extractFrontmatter: its lines and the body behind it. */
  function ExtractFrontmatter(content: string): Option<(seq<string>, string)> {
    var lines := Split(content);
    if (lines[0] != "---" && lines[0] != "---\r") || |lines| < 2 then None
    else
      match FindClose(lines, 2)
      case None => None
      case Some(i) => Some((NoCRs(lines[1..i]), Trim(Join([lines[i][3..]] + lines[i + 1..]))))
  }

  // ---------------------------------------------------------------- the simple YAML of the frontmatter

  predicate KeyChar(c: char) {
    'A' <= c <= 'Z' || 'a' <= c <= 'z' || '0' <= c <= '9' || c == '_' || c == '-'
  }

  function KeyLen(s: string): (n: nat)
    ensures n <= |s|
  {
    if s != "" && KeyChar(s[0]) then 1 + KeyLen(s[1..]) else 0
  }

  function Detab(s: string): string {
    if s == "" then "" else (if s[0] == '\t' then "  " else [s[0]]) + Detab(s[1..])
  }

  predicate Quote(c: char) {
    c == '\'' || c == '"'
  }

  function Unquote(v: string): string {
    var w := if v != "" && Quote(v[0]) then v[1..] else v;
    if w != "" && Quote(w[|w| - 1]) then w[..|w| - 1] else w
  }

  /** A trimmed line read as `key:` or `key: value`. */
  datatype Reading = Skipped | Opens(key: string) | Sets(key: string, value: string) | Unreadable

  function ReadLine(t: string): Reading {
    var k := KeyLen(t);
    if t == "" || t[0] == '#' then Skipped
    else if k == 0 || k == |t| || t[k] != ':' then Unreadable
    else if k == |t| - 1 then Opens(t[..k])
    else
      var raw := TrimStart(t[k + 1..]);
      if raw == "" || '\r' in raw || '\n' in raw then Unreadable else Sets(t[..k], Unquote(raw))
  }

  datatype Parsing = Parsing(result: map<string, Value>, section: Option<string>)

  function ParseLine(p: Parsing, rawLine: string): Result<Parsing, Error> {
    var line := Detab(rawLine);
    var t := Trim(line);
    match ReadLine(t)
    case Skipped => Ok(p)
    case Unreadable => Err(UnsupportedLine(t))
    case Opens(key) => Ok(Parsing(p.result[key := Section(map[])], Some(key)))
    case Sets(key, value) =>
      if line != "" && line[0] == ' ' then
        if p.section.None? then Err(NeedsParent(t))
        else if p.section.value !in p.result || p.result[p.section.value].Scalar? then Err(InvalidSection(p.section.value))
        else Ok(p.(result := p.result[p.section.value := Section(p.result[p.section.value].entries[key := value])]))
      else Ok(Parsing(p.result[key := Scalar(value)], None))
  }

  function ParseLines(p: Parsing, lines: seq<string>): Result<Parsing, Error>
    decreases lines
  {
    if lines == [] then Ok(p)
    else
      match ParseLine(p, lines[0])
      case Err(e) => Err(e)
      case Ok(q) => ParseLines(q, lines[1..])
  }

  /** parseSimpleYamlFrontmatter. */
  method ParseFrontmatter(lines: seq<string>) returns (r: Result<map<string, Value>, Error>)
    ensures r == match ParseLines(Parsing(map[], None), lines) case Ok(p) => Ok(p.result) case Err(e) => Err(e)
    ensures r.Err? ==> !r.error.InvalidSection?
  {
    var result: map<string, Value> := map[];
    var currentSection: Option<string> := None;
    for i := 0 to |lines|
      invariant ParseLines(Parsing(result, currentSection), lines[i..]) == ParseLines(Parsing(map[], None), lines)
      invariant currentSection.Some? ==> currentSection.value in result && result[currentSection.value].Section?
    {
      assert lines[i..][1..] == lines[i + 1..];
      var line := Detab(lines[i]);
      var trimmed := Trim(line);
      match ReadLine(trimmed) {
        case Skipped =>
        case Unreadable => return Err(UnsupportedLine(trimmed));
        case Opens(key) =>
          currentSection := Some(key);
          result := result[key := Section(map[])];
        case Sets(key, value) =>
          if line != "" && line[0] == ' ' {
            if currentSection.None? {
              return Err(NeedsParent(trimmed));
            }
            var entries := result[currentSection.value].entries;
            result := result[currentSection.value := Section(entries[key := value])];
          } else {
            result := result[key := Scalar(value)];
            currentSection := None;
          }
      }
    }
    r := Ok(result);
  }

  // ---------------------------------------------------------------- the contract

  function Lookup(entries: map<string, string>, key: string): string {
    if key in entries then Trim(entries[key]) else ""
  }

  function ParseKeepPolicy(entries: map<string, string>): Result<Option<KeepPolicy>, Error> {
    var raw := Lower(Lookup(entries, "keep_policy"));
    if raw == "" then Ok(None)
    else if raw == "pass_only" then Ok(Some(PassOnly))
    else if raw == "score_improvement" then Ok(Some(ScoreImprovement))
    else Err(BadKeepPolicy)
  }

  function Contracted(result: map<string, Value>, body: string): Result<Contract, Error> {
    if "evaluator" !in result || result["evaluator"].Scalar? then Err(NoEvaluator)
    else
      var evaluator := result["evaluator"].entries;
      var command := Lookup(evaluator, "command");
      var format := Lower(Lookup(evaluator, "format"));
      match ParseKeepPolicy(evaluator)
      case Err(e) => Err(e)
      case Ok(policy) =>
        if command == "" then Err(CommandRequired)
        else if format == "" then Err(FormatRequired)
        else if format != "json" then Err(FormatNotJson)
        else Ok(Contract(command, policy, body))
  }

  /** parseSandboxContract. */
  function ParseSandbox(content: string): Result<Contract, Error> {
    match ExtractFrontmatter(content)
    case None => Err(NoFrontmatter)
    case Some((lines, body)) =>
      match ParseLines(Parsing(map[], None), lines)
      case Err(e) => Err(e)
      case Ok(p) => Contracted(p.result, body)
  }

  // ---------------------------------------------------------------- the printer

  function NoBreaks(s: string): (r: string)
    ensures |r| == |s| && forall i :: 0 <= i < |s| ==> r[i] == (if s[i] == '\r' || s[i] == '\n' then ' ' else s[i])
  {
    if s == "" then "" else [if s[0] == '\r' || s[0] == '\n' then ' ' else s[0]] + NoBreaks(s[1..])
  }

  function PolicyName(p: KeepPolicy): string {
    match p
    case PassOnly => "pass_only"
    case ScoreImprovement => "score_improvement"
  }

  function Setting(key: string, value: string): string {
    "  " + key + ": " + value
  }

  function EvaluatorLines(safeCommand: string, policy: KeepPolicy): seq<string> {
    ["evaluator:", Setting("command", safeCommand), Setting("format", "json"), Setting("keep_policy", PolicyName(policy))]
  }

  function SandboxLines(command: string, policy: KeepPolicy): seq<string> {
    ["---"] + EvaluatorLines(Trim(NoBreaks(command)), policy) + ["---", ""]
  }

  /** buildSandboxContent. */
  function BuildSandbox(command: string, policy: KeepPolicy): string {
    Join(SandboxLines(command, policy))
  }

  /** What the parser makes of a printed command. */
  function ReadBack(command: string): string {
    Trim(Unquote(Detab(Trim(NoBreaks(command)))))
  }

  // ---------------------------------------------------------------- reading a printed line

  predicate IsKey(key: string) {
    key != "" && forall i :: 0 <= i < |key| ==> KeyChar(key[i])
  }

  lemma {:induction false} KeyLenOf(key: string, rest: string)
    requires forall i :: 0 <= i < |key| ==> KeyChar(key[i])
    requires rest == "" || !KeyChar(rest[0])
    ensures KeyLen(key + rest) == |key|
  {
    if key == "" {
      assert key + rest == rest;
    } else {
      KeyLenOf(key[1..], rest);
      assert (key + rest)[1..] == key[1..] + rest;
    }
  }

  lemma ReadsOpening(key: string)
    requires IsKey(key)
    ensures ReadLine(key + ":") == Opens(key)
  {
    KeyLenOf(key, ":");
  }

  lemma ReadsSetting(key: string, value: string)
    requires IsKey(key) && value != "" && !IsSpace(value[0]) && '\r' !in value && '\n' !in value
    ensures ReadLine(key + (": " + value)) == Sets(key, Unquote(value))
  {
    var t := key + (": " + value);
    KeyLenOf(key, ": " + value);
    assert t[|key|] == ':' && t[|key| + 1..] == " " + value;
    assert (" " + value)[1..] == value;
    assert TrimStart(" " + value) == value;
    assert t[..|key|] == key;
  }

  lemma {:induction false} DetabSum(a: string, b: string)
    ensures Detab(a + b) == Detab(a) + Detab(b)
  {
    if a == "" {
      assert a + b == b;
    } else {
      DetabSum(a[1..], b);
      assert (a + b)[1..] == a[1..] + b;
      var first := if a[0] == '\t' then "  " else [a[0]];
      assert first + (Detab(a[1..]) + Detab(b)) == (first + Detab(a[1..])) + Detab(b);
    }
  }

  lemma {:induction false} DetabFree(s: string)
    requires '\t' !in s
    ensures Detab(s) == s
  {
    if s != "" {
      DetabFree(s[1..]);
    }
  }

  /** Tabs inside a trimmed text leave its ends alone. */
  lemma {:induction false} DetabKeeps(s: string)
    ensures '\t' !in Detab(s)
    ensures '\r' !in s && '\n' !in s ==> '\r' !in Detab(s) && '\n' !in Detab(s)
    ensures s != "" && !IsSpace(s[0]) ==> Detab(s) != "" && Detab(s)[0] == s[0]
    ensures s != "" && !IsSpace(s[|s| - 1]) ==> Detab(s) != "" && Detab(s)[|Detab(s)| - 1] == s[|s| - 1]
  {
    if s != "" {
      DetabKeeps(s[1..]);
    }
  }

  lemma SettingText(key: string, v: string)
    ensures Setting(key, v) == "  " + (key + (": " + v))
  {
  }

  lemma DetabSetting(key: string, value: string)
    requires IsKey(key)
    ensures Detab(Setting(key, value)) == Setting(key, Detab(value))
  {
    var head := "  " + key + ": ";
    DetabSum(head, value);
    DetabFree(head);
  }

  /** An indented line of a printed setting. */
  lemma ReadsIndented(key: string, value: string)
    requires IsKey(key) && value != "" && Trimmed(value) && '\r' !in value && '\n' !in value
    ensures var line := Detab(Setting(key, value));
            line[0] == ' ' && ReadLine(Trim(line)) == Sets(key, Unquote(Detab(value)))
  {
    var v := Detab(value);
    DetabKeeps(value);
    DetabSetting(key, value);
    SettingText(key, v);
    var t := key + (": " + v);
    assert t[|t| - 1] == v[|v| - 1];
    TrimIndent(t);
    ReadsSetting(key, v);
  }

  lemma StartIndent(t: string)
    requires t != "" && !IsSpace(t[0])
    ensures TrimStart("  " + t) == t
  {
    var one, two := " " + t, "  " + t;
    assert two[1..] == one && one[1..] == t;
    assert TrimStart(two) == TrimStart(two[1..]) && TrimStart(one) == TrimStart(one[1..]) && TrimStart(t) == t;
  }

  lemma TrimIndent(t: string)
    requires t != "" && Trimmed(t)
    ensures Trim("  " + t) == t
  {
    StartIndent(t);
  }

  // ---------------------------------------------------------------- what the parser accepts

  /** What a key is made of. */
  lemma KeyCharIs(c: char)
    ensures KeyChar(c) <==>
              c in "ABCDEFGHIJKLMNOPQRSTUVWXYZ" || c in "abcdefghijklmnopqrstuvwxyz" || c in "0123456789" || c == '_' || c == '-'
  {
  }

  /** A key, a colon, white space and a text on the same line. */
  predicate IsSetting(t: string, key: string, gap: string, raw: string) {
    IsKey(key) && Blank(gap) && raw != "" && !IsSpace(raw[0]) && '\r' !in raw && '\n' !in raw && t == key + (":" + (gap + raw))
  }

  lemma {:induction false} KeyLenIs(s: string)
    ensures forall i :: 0 <= i < KeyLen(s) ==> KeyChar(s[i])
    ensures KeyLen(s) < |s| ==> !KeyChar(s[KeyLen(s)])
  {
    if s != "" && KeyChar(s[0]) {
      KeyLenIs(s[1..]);
    }
  }

  /** The line opens a section exactly when it is a key and a colon. */
  lemma OpensExactlyWhen(t: string, key: string)
    ensures ReadLine(t) == Opens(key) <==> IsKey(key) && t == key + ":"
  {
    KeyLenIs(t);
    if IsKey(key) && t == key + ":" {
      ReadsOpening(key);
    }
    if ReadLine(t) == Opens(key) {
      assert t == t[..|t| - 1] + [t[|t| - 1]];
    }
  }

  lemma SettingIsRead(t: string, key: string, gap: string, raw: string)
    requires IsSetting(t, key, gap, raw)
    ensures ReadLine(t) == Sets(key, Unquote(raw))
  {
    KeyLenOf(key, ":" + (gap + raw));
    assert t[|key|] == ':' && t[|key| + 1..] == gap + raw && t[..|key|] == key;
    StartOfBlank(gap, raw);
  }

  lemma KeyIsKey(t: string)
    requires 0 < KeyLen(t) <= |t|
    ensures IsKey(t[..KeyLen(t)])
  {
    KeyLenIs(t);
  }

  /** What must hold for ReadLine to read a setting. */
  lemma SetsMeans(t: string, k: nat, raw: string)
    requires ReadLine(t).Sets? && k == KeyLen(t) && k < |t| && raw == TrimStart(t[k + 1..])
    ensures k > 0 && t[k] == ':' && raw != "" && '\r' !in raw && '\n' !in raw && ReadLine(t) == Sets(t[..k], Unquote(raw))
  {
  }

  lemma ReadIsSetting(t: string) returns (key: string, gap: string, raw: string)
    requires ReadLine(t).Sets?
    ensures IsSetting(t, key, gap, raw) && ReadLine(t) == Sets(key, Unquote(raw))
  {
    var k := KeyLen(t);
    var rest := t[k + 1..];
    key, raw := t[..k], TrimStart(rest);
    gap := rest[..|rest| - |raw|];
    SetsMeans(t, k, raw);
    KeyIsKey(t);
    StartTrimmedOff(rest);
    AtColon(t, k, rest);
    Together(t, key, gap, raw, rest);
  }

  lemma Together(t: string, key: string, gap: string, raw: string, rest: string)
    requires IsKey(key) && Blank(gap) && raw != "" && !IsSpace(raw[0]) && '\r' !in raw && '\n' !in raw
    requires rest == gap + raw && t == key + (":" + rest)
    ensures IsSetting(t, key, gap, raw)
  {
  }

  lemma AtColon(t: string, k: nat, rest: string)
    requires k < |t| && t[k] == ':' && rest == t[k + 1..]
    ensures t == t[..k] + (":" + rest)
  {
  }

  /** It sets a value exactly when it is a setting, and the value is the text without a quote at either
      end. */
  lemma SetsExactlyWhen(t: string, key: string, value: string)
    ensures ReadLine(t) == Sets(key, value) <==> exists gap, raw :: IsSetting(t, key, gap, raw) && value == Unquote(raw)
  {
    if ReadLine(t) == Sets(key, value) {
      var k, gap, raw := ReadIsSetting(t);
    }
    forall gap, raw | IsSetting(t, key, gap, raw) ensures ReadLine(t) == Sets(key, Unquote(raw)) {
      SettingIsRead(t, key, gap, raw);
    }
  }

  /** It is skipped exactly when it is empty or a comment. */
  lemma SkippedExactlyWhen(t: string)
    ensures ReadLine(t) == Skipped <==> t == "" || t[0] == '#'
  {
  }

  /** One quote is taken off either end, whether or not they match. */
  lemma UnquoteIs(before: string, w: string, after: string)
    requires before == "" || before == "'" || before == "\""
    requires after == "" || after == "'" || after == "\""
    requires w != "" && (before == "" ==> !Quote(w[0])) && (after == "" ==> !Quote(w[|w| - 1]))
    ensures Unquote(before + (w + after)) == w
  {
    assert before == "" ==> before + (w + after) == w + after;
    assert before != "" ==> (before + (w + after))[1..] == w + after;
    assert after == "" ==> w + after == w;
    assert after != "" ==> (w + after)[..|w + after| - 1] == w;
  }

  /** The kinds of lines a frontmatter is made of. `entries` are the settings of a section. */
  datatype Item = Comment(text: string) | Single(key: string, raw: string) | Block(key: string, entries: seq<(string, string)>)

  predicate GoodRaw(raw: string) {
    raw != "" && Trimmed(raw) && '\r' !in raw && '\n' !in raw
  }

  predicate GoodItem(item: Item) {
    match item
    case Comment(text) => '\t' !in text && Trimmed("#" + text)
    case Single(key, raw) => IsKey(key) && GoodRaw(raw)
    case Block(key, entries) => IsKey(key) && forall i :: 0 <= i < |entries| ==> IsKey(entries[i].0) && GoodRaw(entries[i].1)
  }

  function EntryLines(entries: seq<(string, string)>): seq<string> {
    if entries == [] then []
    else EntryLines(entries[..|entries| - 1]) + [Setting(entries[|entries| - 1].0, entries[|entries| - 1].1)]
  }

  function ItemLines(item: Item): seq<string> {
    match item
    case Comment(text) => ["#" + text]
    case Single(key, raw) => [key + (": " + raw)]
    case Block(key, entries) => [key + ":"] + EntryLines(entries)
  }

  function Document(items: seq<Item>): seq<string> {
    if items == [] then [] else Document(items[..|items| - 1]) + ItemLines(items[|items| - 1])
  }

  /** What is read of a text: without tabs, and without a quote at either end. */
  function Plainly(raw: string): string {
    Unquote(Detab(raw))
  }

  /** The last setting of a key counts. */
  function EntriesOf(entries: seq<(string, string)>): map<string, string> {
    if entries == [] then map[] else EntriesOf(entries[..|entries| - 1])[entries[|entries| - 1].0 := Plainly(entries[|entries| - 1].1)]
  }

  function MeaningOf(items: seq<Item>): map<string, Value> {
    if items == [] then map[]
    else
      var before := MeaningOf(items[..|items| - 1]);
      match items[|items| - 1]
      case Comment(_) => before
      case Single(key, raw) => before[key := Scalar(Plainly(raw))]
      case Block(key, entries) => before[key := Section(EntriesOf(entries))]
  }

  lemma {:induction false} ParsesSum(p: Parsing, a: seq<string>, b: seq<string>)
    ensures ParseLines(p, a + b) == match ParseLines(p, a) case Ok(q) => ParseLines(q, b) case Err(e) => Err(e)
    decreases a
  {
    if a == [] {
      assert a + b == b;
    } else {
      assert (a + b)[1..] == a[1..] + b;
      if ParseLine(p, a[0]).Ok? {
        ParsesSum(ParseLine(p, a[0]).value, a[1..], b);
      }
    }
  }

  lemma ParsesOne(p: Parsing, line: string)
    ensures ParseLines(p, [line]) == ParseLine(p, line)
  {
    assert [line][1..] == [];
  }

  lemma {:induction false} EntriesAreRead(p: Parsing, e: string, entries: seq<(string, string)>)
    requires p.section == Some(e) && e in p.result && p.result[e] == Section(map[])
    requires forall i :: 0 <= i < |entries| ==> IsKey(entries[i].0) && GoodRaw(entries[i].1)
    ensures ParseLines(p, EntryLines(entries)) == Ok(Parsing(p.result[e := Section(EntriesOf(entries))], Some(e)))
  {
    if entries == [] {
      assert p.result[e := Section(map[])] == p.result;
    } else {
      var n := |entries| - 1;
      var q := Parsing(p.result[e := Section(EntriesOf(entries[..n]))], Some(e));
      EntriesAreRead(p, e, entries[..n]);
      ParsesSum(p, EntryLines(entries[..n]), [Setting(entries[n].0, entries[n].1)]);
      ParsesOne(q, Setting(entries[n].0, entries[n].1));
      EntryIsRead(q, e, entries[n].0, entries[n].1);
      assert q.result[e := Section(EntriesOf(entries))] == p.result[e := Section(EntriesOf(entries))];
    }
  }

  lemma EntryIsRead(p: Parsing, e: string, key: string, raw: string)
    requires p.section == Some(e) && e in p.result && p.result[e].Section? && IsKey(key) && GoodRaw(raw)
    ensures ParseLine(p, Setting(key, raw)) == Ok(Parsing(p.result[e := Section(p.result[e].entries[key := Plainly(raw)])], Some(e)))
  {
    ReadsIndented(key, raw);
  }

  lemma DetabSingle(key: string, raw: string)
    requires IsKey(key)
    ensures Detab(key + (": " + raw)) == key + (": " + Detab(raw))
  {
    DetabSum(key, ": " + raw);
    DetabSum(": ", raw);
    DetabFree(key);
    DetabFree(": ");
  }

  lemma SingleIsTrimmed(key: string, value: string)
    requires IsKey(key) && value != "" && !IsSpace(value[|value| - 1])
    ensures var t := key + (": " + value); Trim(t) == t && t != "" && t[0] != ' '
  {
    var t := key + (": " + value);
    assert t[0] == key[0] && t[|t| - 1] == value[|value| - 1];
    TrimmedIsKept(t);
  }

  lemma SingleIsRead(p: Parsing, key: string, raw: string)
    requires IsKey(key) && GoodRaw(raw)
    ensures ParseLine(p, key + (": " + raw)) == Ok(Parsing(p.result[key := Scalar(Plainly(raw))], None))
  {
    DetabKeeps(raw);
    DetabSingle(key, raw);
    SingleIsTrimmed(key, Detab(raw));
    ReadsSetting(key, Detab(raw));
  }

  lemma CommentIsRead(p: Parsing, text: string)
    requires '\t' !in text && Trimmed("#" + text)
    ensures ParseLine(p, "#" + text) == Ok(p)
  {
    DetabFree("#" + text);
    TrimmedIsKept("#" + text);
  }

  lemma ItemIsRead(p: Parsing, item: Item) returns (q: Parsing)
    requires GoodItem(item)
    ensures ParseLines(p, ItemLines(item)) == Ok(q)
    ensures q.result == match item
                        case Comment(_) => p.result
                        case Single(key, raw) => p.result[key := Scalar(Plainly(raw))]
                        case Block(key, entries) => p.result[key := Section(EntriesOf(entries))]
  {
    match item
    case Comment(text) =>
      ParsesOne(p, "#" + text);
      CommentIsRead(p, text);
      q := p;
    case Single(key, raw) =>
      ParsesOne(p, key + (": " + raw));
      SingleIsRead(p, key, raw);
      q := Parsing(p.result[key := Scalar(Plainly(raw))], None);
    case Block(key, entries) =>
      q := BlockIsRead(p, key, entries);
  }

  lemma BlockIsRead(p: Parsing, key: string, entries: seq<(string, string)>) returns (q: Parsing)
    requires GoodItem(Block(key, entries))
    ensures ParseLines(p, ItemLines(Block(key, entries))) == Ok(q) && q.result == p.result[key := Section(EntriesOf(entries))]
  {
    var begun := Parsing(p.result[key := Section(map[])], Some(key));
    ParsesSum(p, [key + ":"], EntryLines(entries));
    ParsesOne(p, key + ":");
    OpensSection(p, key);
    EntriesAreRead(begun, key, entries);
    q := Parsing(p.result[key := Section(EntriesOf(entries))], Some(key));
    assert begun.result[key := Section(EntriesOf(entries))] == q.result;
  }

  /** Any frontmatter made of comments, settings and sections is read as what it says. */
  lemma {:induction false} DocumentIsRead(items: seq<Item>) returns (p: Parsing)
    requires forall i :: 0 <= i < |items| ==> GoodItem(items[i])
    ensures ParseLines(Parsing(map[], None), Document(items)) == Ok(p) && p.result == MeaningOf(items)
  {
    p := Parsing(map[], None);
    if items != [] {
      var n := |items| - 1;
      ParsesSum(p, Document(items[..n]), ItemLines(items[n]));
      p := DocumentIsRead(items[..n]);
      p := ItemIsRead(p, items[n]);
    }
  }

  /** A line that is neither, and a setting indented under no section, stop the parsing. */
  lemma BadLineStops(p: Parsing, line: string, more: seq<string>)
    ensures ReadLine(Trim(Detab(line))).Unreadable? ==> ParseLines(p, [line] + more) == Err(UnsupportedLine(Trim(Detab(line))))
    ensures ReadLine(Trim(Detab(line))).Sets? && Detab(line)[..1] == " " && p.section.None? ==>
              ParseLines(p, [line] + more) == Err(NeedsParent(Trim(Detab(line))))
  {
  }

  /** The frontmatter ends at the first line from the third on that starts with dashes; what is behind
      the dashes is the body. */
  lemma FrontmatterIsExactlyWhen(content: string, inner: seq<string>, body: string)
    ensures ExtractFrontmatter(content) == Some((inner, body)) <==>
              var lines := Split(content);
              && (lines[0] == "---" || lines[0] == "---\r")
              && 1 <= |inner| < |lines| - 1
              && (forall k :: 0 <= k < |inner| ==> lines[k + 1] == inner[k] + "\r" || (lines[k + 1] == inner[k] && !EndsInCR(inner[k])))
              && (forall k :: 2 <= k <= |inner| ==> !("---" <= lines[k])) && "---" <= lines[|inner| + 1]
              && body == Trim(Join([lines[|inner| + 1][3..]] + lines[|inner| + 2..]))
  {
    var lines := Split(content);
    if |lines| >= 2 {
      CloseIsFirst(lines, 2);
      if FindClose(lines, 2).Some? {
        var i := FindClose(lines, 2).value;
        CRsAreOff(lines[1..i], inner);
      }
    }
  }

  predicate EndsInCR(s: string) {
    s != "" && s[|s| - 1] == '\r'
  }

  lemma {:induction false} CloseIsFirst(lines: seq<string>, i: nat)
    requires i <= |lines|
    ensures match FindClose(lines, i)
            case None => forall k :: i <= k < |lines| ==> !("---" <= lines[k])
            case Some(j) => forall k :: i <= k < j ==> !("---" <= lines[k])
    decreases |lines| - i
  {
    if i < |lines| && !("---" <= lines[i]) {
      CloseIsFirst(lines, i + 1);
    }
  }

  lemma OneCROff(line: string, s: string)
    ensures NoCR(line) == s <==> line == s + "\r" || (line == s && !EndsInCR(s))
  {
    if EndsInCR(line) {
      assert line == line[..|line| - 1] + "\r";
    }
    assert (s + "\r")[..|s|] == s;
  }

  lemma {:induction false} CRsAreOff(lines: seq<string>, inner: seq<string>)
    ensures NoCRs(lines) == inner <==>
              |inner| == |lines| && forall k :: 0 <= k < |inner| ==> lines[k] == inner[k] + "\r" || (lines[k] == inner[k] && !EndsInCR(inner[k]))
  {
    if lines != [] && inner != [] {
      CRsAreOff(lines[1..], inner[1..]);
      OneCROff(lines[0], inner[0]);
      assert inner == [inner[0]] + inner[1..];
      assert forall k :: 0 < k < |inner| && k < |lines| ==> lines[k] == lines[1..][k - 1] && inner[k] == inner[1..][k - 1];
    } else {
      assert |NoCRs(lines)| == 0 <==> lines == [];
    }
  }

  /** What makes a contract of what was parsed. */
  lemma ContractIsExactlyWhen(result: map<string, Value>, body: string, c: Contract)
    ensures Contracted(result, body) == Ok(c) <==>
              && "evaluator" in result && result["evaluator"].Section?
              && var given := result["evaluator"].entries;
                 && "command" in given && c.command == Trim(given["command"]) != ""
                 && "format" in given && Lower(Trim(given["format"])) == "json"
                 && c.body == body
                 && (match c.keepPolicy
                     case None => "keep_policy" !in given || Trim(given["keep_policy"]) == ""
                     case Some(PassOnly) => "keep_policy" in given && Lower(Trim(given["keep_policy"])) == "pass_only"
                     case Some(ScoreImprovement) => "keep_policy" in given && Lower(Trim(given["keep_policy"])) == "score_improvement")
  {
    NamesDiffer();
  }

  /** Why a contract is refused, and what is looked at first. */
  lemma ContractIsRefusedWhen(result: map<string, Value>, body: string)
    ensures var c := Contracted(result, body);
            && ("evaluator" !in result || result["evaluator"].Scalar? <==> c == Err(NoEvaluator))
            && (c != Err(NoEvaluator) ==>
                  var given := result["evaluator"].entries;
                  var policy := if "keep_policy" in given then Lower(Trim(given["keep_policy"])) else "";
                  var command := if "command" in given then Trim(given["command"]) else "";
                  var format := if "format" in given then Lower(Trim(given["format"])) else "";
                  if policy != "" && policy != "pass_only" && policy != "score_improvement" then c == Err(BadKeepPolicy)
                  else if command == "" then c == Err(CommandRequired)
                  else if format == "" then c == Err(FormatRequired)
                  else if format != "json" then c == Err(FormatNotJson)
                  else c.Ok?)
  {
    assert Lower("") == "";
  }

  lemma NamesDiffer()
    ensures "pass_only" != "score_improvement" && "json" != "" && "pass_only" != "" && "score_improvement" != ""
  {
    assert |"pass_only"| == 9 && |"score_improvement"| == 17;
  }

  // ---------------------------------------------------------------- the printed file is read back

  lemma ParsesFour(p: Parsing, a: string, b: string, c: string, d: string, q: Parsing, r: Parsing, s: Parsing, t: Parsing)
    requires ParseLine(p, a) == Ok(q) && ParseLine(q, b) == Ok(r) && ParseLine(r, c) == Ok(s) && ParseLine(s, d) == Ok(t)
    ensures ParseLines(p, [a, b, c, d]) == Ok(t)
  {
    assert [a, b, c, d][1..] == [b, c, d] && [b, c, d][1..] == [c, d] && [c, d][1..] == [d] && [d][1..] == [];
    assert ParseLines(s, [d]) == Ok(t);
    assert ParseLines(r, [c, d]) == Ok(t);
    assert ParseLines(q, [b, c, d]) == Ok(t);
  }

  predicate PlainChar(c: char) {
    KeyChar(c) && !('A' <= c <= 'Z')
  }

  predicate PlainText(s: string) {
    s != "" && forall i :: 0 <= i < |s| ==> PlainChar(s[i])
  }

  lemma LiteralsArePlain()
    ensures PlainText("json") && PlainText("pass_only") && PlainText("score_improvement")
  {
  }

  lemma {:induction false} LowerKept(s: string)
    requires forall i :: 0 <= i < |s| ==> !('A' <= s[i] <= 'Z')
    ensures Lower(s) == s
  {
    if s != "" {
      LowerKept(s[1..]);
    }
  }

  /** Text without white space, quotes or capitals passes through unchanged. */
  lemma PlainIsTrimmed(s: string)
    requires PlainText(s)
    ensures Trim(s) == s && Trimmed(s) && '\r' !in s && '\n' !in s && '\t' !in s && Lower(s) == s
  {
    LowerKept(s);
  }

  lemma PlainValue(s: string)
    requires PlainText(s)
    ensures Unquote(Detab(s)) == s
  {
    PlainIsTrimmed(s);
    DetabFree(s);
  }

  lemma OpeningIsPlain(key: string)
    requires IsKey(key)
    ensures Detab(key + ":") == key + ":" && Trim(key + ":") == key + ":"
  {
    var line := key + ":";
    assert line[0] == key[0] && line[|line| - 1] == ':';
    assert forall i :: 0 <= i < |key| ==> line[i] == key[i];
    DetabFree(line);
    TrimmedIsKept(line);
  }

  lemma OpensSection(p: Parsing, key: string)
    requires IsKey(key)
    ensures ParseLine(p, key + ":") == Ok(Parsing(p.result[key := Section(map[])], Some(key)))
  {
    OpeningIsPlain(key);
    ReadsOpening(key);
  }

  /** A section with three settings. */
  lemma ParsesBlock(e: string, k1: string, v1: string, k2: string, v2: string, k3: string, v3: string) returns (t: Parsing)
    requires IsKey(e) && IsKey(k1) && IsKey(k2) && IsKey(k3) && PlainText(v2) && PlainText(v3)
    requires v1 != "" && Trimmed(v1) && '\r' !in v1 && '\n' !in v1
    ensures ParseLines(Parsing(map[], None), [e + ":", Setting(k1, v1), Setting(k2, v2), Setting(k3, v3)]) == Ok(t)
    ensures e in t.result && t.result[e] == Section(map[][k1 := Unquote(Detab(v1))][k2 := v2][k3 := v3])
  {
    PlainIsTrimmed(v2);
    PlainIsTrimmed(v3);
    PlainValue(v2);
    PlainValue(v3);
    var q, r, s;
    q := Parsing(map[][e := Section(map[])], Some(e));
    OpensSection(Parsing(map[], None), e);
    r := AddSetting(q, e, k1, v1);
    s := AddSetting(r, e, k2, v2);
    t := AddSetting(s, e, k3, v3);
    ParsesFour(Parsing(map[], None), e + ":", Setting(k1, v1), Setting(k2, v2), Setting(k3, v3), q, r, s, t);
  }

  lemma AddSetting(p: Parsing, e: string, key: string, value: string) returns (q: Parsing)
    requires IsKey(key) && value != "" && Trimmed(value) && '\r' !in value && '\n' !in value
    requires p.section == Some(e) && e in p.result && p.result[e].Section?
    ensures ParseLine(p, Setting(key, value)) == Ok(q)
    ensures q.section == Some(e) && e in q.result && q.result[e] == Section(p.result[e].entries[key := Unquote(Detab(value))])
    ensures forall other :: other != e && other in p.result ==> other in q.result && q.result[other] == p.result[other]
  {
    ReadsIndented(key, value);
    q := p.(result := p.result[e := Section(p.result[e].entries[key := Unquote(Detab(value))])]);
  }

  lemma EmptySetting(key: string)
    requires IsKey(key)
    ensures '\t' !in Setting(key, "") && Trim(Setting(key, "")) == key + ":"
  {
    var t := key + ": ";
    assert Setting(key, "") == "  " + t;
    StartIndent(t);
    assert t[..|t| - 1] == key + ":";
    assert TrimEnd(key + ":") == key + ":";
  }

  /** Without a value the first setting opens a section of its own, which takes the other two. */
  lemma ParsesEmptyBlock(e: string, k1: string, k2: string, v2: string, k3: string, v3: string) returns (t: Parsing)
    requires IsKey(e) && IsKey(k1) && IsKey(k2) && IsKey(k3) && PlainText(v2) && PlainText(v3) && e != k1
    ensures ParseLines(Parsing(map[], None), [e + ":", Setting(k1, ""), Setting(k2, v2), Setting(k3, v3)]) == Ok(t)
    ensures e in t.result && t.result[e] == Section(map[])
  {
    PlainIsTrimmed(v2);
    PlainIsTrimmed(v3);
    var q := Parsing(map[][e := Section(map[])], Some(e));
    var r := Parsing(q.result[k1 := Section(map[])], Some(k1));
    OpensSection(Parsing(map[], None), e);
    EmptySetting(k1);
    DetabFree(Setting(k1, ""));
    ReadsOpening(k1);
    var s := AddSetting(r, k1, k2, v2);
    t := AddSetting(s, k1, k3, v3);
    ParsesFour(Parsing(map[], None), e + ":", Setting(k1, ""), Setting(k2, v2), Setting(k3, v3), q, r, s, t);
  }

  lemma BreaksGone(command: string)
    ensures var safe := Trim(NoBreaks(command)); '\r' !in safe && '\n' !in safe && Trimmed(safe)
  {
    TrimKeepsFree(NoBreaks(command));
  }

  lemma {:induction false} TrimKeepsFree(s: string)
    ensures forall c :: c in Trim(s) ==> c in s
    decreases |s|
  {
    StartKeepsFree(s);
    var t := TrimStart(s);
    assert TrimEnd(t) <= t;
  }

  lemma {:induction false} StartKeepsFree(s: string)
    ensures forall c :: c in TrimStart(s) ==> c in s
  {
    if s != "" && IsSpace(s[0]) {
      StartKeepsFree(s[1..]);
    }
  }

  /** What the frontmatter search needs of a line between the dashes. */
  predicate Inner(line: string) {
    '\n' !in line && NoCR(line) == line && !("---" <= line)
  }

  lemma SettingIsInner(key: string, value: string)
    requires IsKey(key) && Trimmed(value) && '\r' !in value && '\n' !in value
    ensures Inner(Setting(key, value))
  {
    var line := Setting(key, value);
    assert line[0] == ' ';
    assert value != "" ==> line[|line| - 1] == value[|value| - 1];
    assert value == "" ==> line[|line| - 1] == ' ';
  }

  lemma {:induction false} FindsClose(lines: seq<string>, i: nat, n: nat)
    requires i <= n < |lines| && "---" <= lines[n] && forall k :: i <= k < n ==> Inner(lines[k])
    ensures FindClose(lines, i) == Some(n)
    decreases n - i
  {
    if i < n {
      FindsClose(lines, i + 1, n);
    }
  }

  lemma ExtractOf(content: string, lines: seq<string>, inner: seq<string>, n: nat)
    requires Split(content) == lines && 1 <= n < |lines| && lines[0] == "---" && lines[1..n] == inner && NoCRs(inner) == inner
    requires 2 <= n && FindClose(lines, 2) == Some(n) && lines[n..] == ["---", ""]
    ensures ExtractFrontmatter(content) == Some((inner, ""))
  {
    assert lines[n + 1..] == lines[n..][1..] && lines[n] == lines[n..][0];
    assert [lines[n][3..]] + lines[n + 1..] == ["", ""];
    EmptyTail();
  }

  lemma EmptyTail()
    ensures Trim(Join(["", ""])) == ""
  {
    assert ["", ""][1..] == [""] && Join(["", ""]) == "\n" && "\n"[1..] == "";
  }

  /** Lines between two rows of dashes, the second followed by an empty line. */
  ghost predicate Fenced(lines: seq<string>, inner: seq<string>, n: nat) {
    && n == |inner| + 1 && n > 1 && |lines| == n + 2
    && lines[0] == "---" && lines[n] == "---" && lines[n + 1] == ""
    && (forall k :: 1 <= k < n ==> lines[k] == inner[k - 1])
    && (forall k :: 0 <= k < |inner| ==> Inner(inner[k]))
  }

  lemma FencedSplits(lines: seq<string>, inner: seq<string>, n: nat)
    requires Fenced(lines, inner, n)
    ensures Split(Join(lines)) == lines
  {
    forall i | 0 <= i < |lines| ensures '\n' !in lines[i] {
      if 0 < i < n {
        assert lines[i] == inner[i - 1];
      }
    }
    SplitJoin(lines);
  }

  lemma FencedCloses(lines: seq<string>, inner: seq<string>, n: nat)
    requires Fenced(lines, inner, n)
    ensures FindClose(lines, 2) == Some(n)
  {
    forall k | 2 <= k < n ensures Inner(lines[k]) {
      assert lines[k] == inner[k - 1];
    }
    FindsClose(lines, 2, n);
  }

  /** The frontmatter and the empty body are found between the dashes. */
  lemma FindsFrontmatter(lines: seq<string>, inner: seq<string>, n: nat)
    requires Fenced(lines, inner, n)
    ensures ExtractFrontmatter(Join(lines)) == Some((inner, ""))
  {
    FencedSplits(lines, inner, n);
    FencedCloses(lines, inner, n);
    NoCRsKept(inner);
    assert lines[1..n] == inner && lines[n..] == ["---", ""];
    ExtractOf(Join(lines), lines, inner, n);
  }

  lemma {:induction false} NoCRsKept(lines: seq<string>)
    requires forall i :: 0 <= i < |lines| ==> NoCR(lines[i]) == lines[i]
    ensures NoCRs(lines) == lines
  {
    if lines != [] {
      NoCRsKept(lines[1..]);
    }
  }

  lemma Keys()
    ensures IsKey("evaluator") && IsKey("command") && IsKey("format") && IsKey("keep_policy")
  {
  }

  lemma KeysDiffer()
    ensures "evaluator" != "command" && "evaluator" != "format" && "command" != "format"
    ensures "command" != "keep_policy" && "format" != "keep_policy"
  {
    assert |"evaluator"| == 9 && |"command"| == 7 && |"format"| == 6 && |"keep_policy"| == 11;
  }

  lemma PolicyNames(name: string, policy: KeepPolicy)
    requires name == PolicyName(policy)
    ensures PlainText(name) && (name == "pass_only" <==> policy == PassOnly) && (name == "score_improvement" <==> policy == ScoreImprovement)
  {
    LiteralsArePlain();
    assert |"pass_only"| == 9 && |"score_improvement"| == 17;
  }

  lemma PolicyIsRead(entries: map<string, string>, key: string, name: string, policy: KeepPolicy)
    requires key == "keep_policy" && key in entries && entries[key] == name && name == PolicyName(policy)
    ensures ParseKeepPolicy(entries) == Ok(Some(policy))
  {
    PolicyNames(name, policy);
    PlainIsTrimmed(name);
    assert Lower(Lookup(entries, key)) == name;
  }

  lemma BlockLines(safe: string, policy: KeepPolicy, e: string)
    requires e == "evaluator"
    ensures EvaluatorLines(safe, policy) == [e + ":", Setting("command", safe), Setting("format", "json"), Setting("keep_policy", PolicyName(policy))]
  {
    assert e + ":" == "evaluator:";
  }

  /** Any command at all: what is read back from the printed file, or that it is refused. */
  lemma SandboxReadsBack(command: string, policy: KeepPolicy)
    ensures ParseSandbox(BuildSandbox(command, policy))
         == if ReadBack(command) == "" then Err(CommandRequired) else Ok(Contract(ReadBack(command), Some(policy), ""))
  {
    var safe := Trim(NoBreaks(command));
    InnerLines(safe, policy, command);
    PrintedFrontmatter(safe, policy);
    ParsesEvaluator(safe, policy);
  }

  lemma PrintedFrontmatter(safe: string, policy: KeepPolicy)
    requires forall k :: 0 <= k < 4 ==> Inner(EvaluatorLines(safe, policy)[k])
    ensures var inner := EvaluatorLines(safe, policy); ExtractFrontmatter(Join(["---"] + inner + ["---", ""])) == Some((inner, ""))
  {
    var inner := EvaluatorLines(safe, policy);
    FindsFrontmatter(["---"] + inner + ["---", ""], inner, 5);
  }

  /** The frontmatter read as a contract. */
  lemma ParsesEvaluator(safe: string, policy: KeepPolicy)
    requires safe == "" || ('\r' !in safe && '\n' !in safe && Trimmed(safe))
    ensures var r := ParseLines(Parsing(map[], None), EvaluatorLines(safe, policy));
            r.Ok? && Contracted(r.value.result, "")
                  == var c := Trim(Unquote(Detab(safe))); if c == "" then Err(CommandRequired) else Ok(Contract(c, Some(policy), ""))
  {
    if safe == "" {
      ParsesNoCommand(policy);
    } else {
      ParsesCommand(safe, policy);
    }
  }

  lemma ParsesNoCommand(policy: KeepPolicy)
    ensures var r := ParseLines(Parsing(map[], None), EvaluatorLines("", policy));
            r.Ok? && Contracted(r.value.result, "") == Err(CommandRequired)
  {
    LiteralsArePlain();
    Keys();
    BlockLines("", policy, "evaluator");
    KeysDiffer();
    var t := ParsesEmptyBlock("evaluator", "command", "format", "json", "keep_policy", PolicyName(policy));
    ContractOfNothing(t.result);
  }

  lemma ParsesCommand(safe: string, policy: KeepPolicy)
    requires safe != "" && '\r' !in safe && '\n' !in safe && Trimmed(safe)
    ensures var r := ParseLines(Parsing(map[], None), EvaluatorLines(safe, policy));
            r.Ok? && Contracted(r.value.result, "")
                  == var c := Trim(Unquote(Detab(safe))); if c == "" then Err(CommandRequired) else Ok(Contract(c, Some(policy), ""))
  {
    LiteralsArePlain();
    Keys();
    BlockLines(safe, policy, "evaluator");
    var t := ParsesBlock("evaluator", "command", safe, "format", "json", "keep_policy", PolicyName(policy));
    ContractOf(t.result, Unquote(Detab(safe)), policy);
  }

  lemma InnerLines(safe: string, policy: KeepPolicy, command: string)
    requires safe == Trim(NoBreaks(command))
    ensures safe == "" || ('\r' !in safe && '\n' !in safe && Trimmed(safe))
    ensures forall k :: 0 <= k < 4 ==> Inner(EvaluatorLines(safe, policy)[k])
  {
    BreaksGone(command);
    LiteralsArePlain();
    Keys();
    BlockLines(safe, policy, "evaluator");
    BlockIsInner("evaluator", "command", safe, "format", "json", "keep_policy", PolicyName(policy));
  }

  lemma BlockIsInner(e: string, k1: string, v1: string, k2: string, v2: string, k3: string, v3: string)
    requires IsKey(e) && e[0] != '-' && IsKey(k1) && IsKey(k2) && IsKey(k3) && PlainText(v2) && PlainText(v3)
    requires Trimmed(v1) && '\r' !in v1 && '\n' !in v1
    ensures Inner(e + ":") && Inner(Setting(k1, v1)) && Inner(Setting(k2, v2)) && Inner(Setting(k3, v3))
  {
    PlainIsTrimmed(v2);
    PlainIsTrimmed(v3);
    SettingIsInner(k1, v1);
    SettingIsInner(k2, v2);
    SettingIsInner(k3, v3);
  }

  lemma ContractOfNothing(result: map<string, Value>)
    requires "evaluator" in result && result["evaluator"] == Section(map[])
    ensures Contracted(result, "") == Err(CommandRequired)
  {
  }

  lemma Lookups(entries: map<string, string>, k1: string, a: string, k2: string, b: string, k3: string, c: string)
    requires k1 != k2 && k1 != k3 && k2 != k3 && entries == map[][k1 := a][k2 := b][k3 := c]
    ensures Lookup(entries, k1) == Trim(a) && Lookup(entries, k2) == Trim(b) && k3 in entries && entries[k3] == c
  {
  }

  lemma ContractOf(result: map<string, Value>, command: string, policy: KeepPolicy)
    requires "evaluator" in result
    requires result["evaluator"] == Section(map[]["command" := command]["format" := "json"]["keep_policy" := PolicyName(policy)])
    ensures Contracted(result, "") == if Trim(command) == "" then Err(CommandRequired) else Ok(Contract(Trim(command), Some(policy), ""))
  {
    var entries := result["evaluator"].entries;
    KeysDiffer();
    Lookups(entries, "command", command, "format", "json", "keep_policy", PolicyName(policy));
    PolicyIsRead(entries, "keep_policy", PolicyName(policy), policy);
    LiteralsArePlain();
    PlainIsTrimmed("json");
  }

  /** The commands that come back as they were: not empty, trimmed, without tabs or line breaks, and
      without a quote at either end. */
  predicate Plain(command: string) {
    && command != "" && Trimmed(command)
    && '\t' !in command && '\r' !in command && '\n' !in command
    && !Quote(command[0]) && !Quote(command[|command| - 1])
  }

  lemma PlainComesBack(command: string)
    requires Plain(command)
    ensures ReadBack(command) == command
  {
    assert NoBreaks(command) == command;
    DetabFree(command);
  }

  lemma ReadBackIsFree(command: string)
    ensures var c := ReadBack(command); Trimmed(c) && '\t' !in c && '\r' !in c && '\n' !in c
  {
    var safe := Trim(NoBreaks(command));
    BreaksGone(command);
    DetabKeeps(safe);
    UnquoteKeepsFree(Detab(safe));
    TrimKeepsFree(Unquote(Detab(safe)));
  }

  lemma ChangedLosesSomething(command: string)
    requires ReadBack(command) == command && command != ""
    ensures Plain(command)
  {
    ReadBackIsFree(command);
    assert NoBreaks(command) == command;
    DetabFree(command);
    TrimShortens(Unquote(command));
  }

  lemma UnquoteKeepsFree(s: string)
    ensures forall c :: c in Unquote(s) ==> c in s
  {
  }

  lemma TrimShortens(s: string)
    ensures |Trim(s)| <= |s|
  {
    assert TrimEnd(TrimStart(s)) <= TrimStart(s);
  }

  /** A command survives printing and parsing exactly when it is plain. */
  lemma SandboxRoundTrip(command: string, policy: KeepPolicy)
    ensures ParseSandbox(BuildSandbox(command, policy)) == Ok(Contract(command, Some(policy), "")) <==> Plain(command)
  {
    SandboxReadsBack(command, policy);
    if Plain(command) {
      PlainComesBack(command);
    }
    if ReadBack(command) == command && command != "" {
      ChangedLosesSomething(command);
    }
  }
}
