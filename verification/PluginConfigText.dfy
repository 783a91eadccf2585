/**
 The upsert on the text of the file (LF line ends), as src/cli/plugin-marketplace.ts works on it,
 and that it is the upsert on its lines.
 */
module PluginConfigText {
  import opened Text
  import opened TomlLines
  import opened PluginConfig
  import opened PluginConfigLaws
  import opened PluginConfigFrame

  function DropNewlines(s: string): string {
    if s != "" && s[|s| - 1] == '\n' then DropNewlines(s[..|s| - 1]) else s
  }

  /** upsertTomlTableBooleanKey, on texts. */
  function UpsertText(config: string, header: string): string {
    var lines := Split(config);
    if Has(TOML, lines, header) then DropNewlines(JoinAll(Set(TOML, lines, header))) + "\n"
    else
      var base := TrimEnd(config);
      (if base == "" then "" else base + "\n\n") + header + "\n" + KEY_LINE + "\n"
  }

  function EnableText(config: string, headers: seq<string>): string {
    if headers == [] then config
    else UpsertText(EnableText(config, headers[..|headers| - 1]), headers[|headers| - 1])
  }

  function JoinAll(lines: seq<string>): string {
    if lines == [] then "" else Join(lines)
  }

  lemma {:induction false} TrimmedText(lines: seq<string>)
    ensures TrimEnd(JoinAll(lines)) == JoinAll(TrimEndLines(TOML, lines))
  {
    if lines != [] {
      var init, last := lines[..|lines| - 1], lines[|lines| - 1];
      Snoc(lines);
      TrimmedText(init);
      if init == [] {
        assert lines == [last];
      } else {
        JoinSum(init, [last]);
        JoinSum(init, [TrimEnd(last)]);
        EndOfLast(Join(init), last);
      }
    }
  }

  lemma EndOfLast(before: string, last: string)
    ensures TrimEnd(before + ("\n" + last)) == if TrimEnd(last) == "" then TrimEnd(before) else before + ("\n" + TrimEnd(last))
  {
    EndOfSum("\n", last);
    assert TrimEnd("\n") == "";
    EndOfSum(before, "\n" + last);
  }

  lemma {:induction false} NewlinesDropped(lines: seq<string>)
    requires (exists i :: 0 <= i < |lines| && lines[i] != "") && forall i :: 0 <= i < |lines| ==> '\n' !in lines[i]
    ensures DropEmpty(lines) != [] && DropNewlines(Join(lines)) == Join(DropEmpty(lines))
  {
    var init, last := lines[..|lines| - 1], lines[|lines| - 1];
    Snoc(lines);
    if last == "" {
      var i :| 0 <= i < |lines| && lines[i] != "";
      assert init[i] != "";
      JoinSum(init, [last]);
      assert (Join(init) + "\n")[..|Join(init)|] == Join(init);
      NewlinesDropped(init);
    } else {
      LastLineEnds(lines);
    }
  }

  lemma {:induction false} LastLineEnds(lines: seq<string>)
    requires lines != [] && lines[|lines| - 1] != ""
    ensures Join(lines) != "" && Join(lines)[|Join(lines)| - 1] == lines[|lines| - 1][|lines[|lines| - 1]| - 1]
  {
    if |lines| > 1 {
      LastLineEnds(lines[1..]);
    }
  }

  lemma {:induction false} SetAddsOneLine(lines: seq<string>, header: string)
    ensures forall x :: x in Set(TOML, lines, header) ==> x in lines || x == KEY_LINE
  {
    if lines != [] {
      assert lines == [lines[0]] + lines[1..];
      SetAddsOneLine(lines[1..], header);
      SetKeyAddsOneLine(Body(TOML, lines[1..]), false);
    }
  }

  lemma {:induction false} SetKeyAddsOneLine(body: seq<string>, seen: bool)
    ensures forall x :: x in SetKey(TOML, body, seen) ==> x in body || x == KEY_LINE
  {
    if body != [] {
      assert body == [body[0]] + body[1..];
      SetKeyAddsOneLine(body[1..], seen || TOML.isKey(body[0]));
    }
  }

  ghost predicate NoNewlines(lines: seq<string>) {
    forall i :: 0 <= i < |lines| ==> '\n' !in lines[i]
  }

  lemma SetStaysOnLines(lines: seq<string>, header: string)
    requires NoNewlines(lines)
    ensures NoNewlines(Set(TOML, lines, header))
  {
    SetAddsOneLine(lines, header);
    assert '\n' !in KEY_LINE;
    PartStaysOnLines(lines, Set(TOML, lines, header), KEY_LINE);
  }

  lemma PartStaysOnLines(lines: seq<string>, part: seq<string>, extra: string)
    requires NoNewlines(lines) && '\n' !in extra
    requires forall x :: x in part ==> x in lines || x == extra
    ensures NoNewlines(part)
  {
    forall i | 0 <= i < |part| ensures '\n' !in part[i] {
      assert part[i] in part;
    }
  }

  lemma HasLine(lines: seq<string>, header: string)
    requires Has(TOML, lines, header) && ProperHeader(header)
    ensures exists i :: 0 <= i < |lines| && lines[i] != ""
  {
    var line :| line in lines && Matches(TOML, line, header);
    assert line != "";
    var i :| 0 <= i < |lines| && lines[i] == line;
  }

  lemma {:induction false} DropEmptyIsPrefix(lines: seq<string>)
    ensures DropEmpty(lines) <= lines
  {
    if lines != [] && lines[|lines| - 1] == "" {
      DropEmptyIsPrefix(lines[..|lines| - 1]);
    }
  }

  lemma FinishedText(lines: seq<string>)
    requires NoNewlines(lines) && exists i :: 0 <= i < |lines| && lines[i] != ""
    ensures Split(DropNewlines(Join(lines)) + "\n") == Finish(lines)
  {
    var kept := DropEmpty(lines);
    NewlinesDropped(lines);
    DropEmptyIsPrefix(lines);
    SplitJoin(kept);
    SplitEnd(Join(kept));
  }

  lemma SplitEnd(s: string)
    ensures Split(s + "\n") == Split(s) + [""]
  {
    SplitSum(s, "");
    assert s + ("\n" + "") == s + "\n";
  }

  lemma SetHasLine(lines: seq<string>, header: string)
    requires ProperHeader(header) && Has(TOML, lines, header)
    ensures var changed := Set(TOML, lines, header); exists i :: 0 <= i < |changed| && changed[i] != ""
  {
    TomlIsSound();
    HasCount(TOML, lines, header);
    SetCount(TOML, lines, header, header);
    HasCount(TOML, Set(TOML, lines, header), header);
    HasLine(Set(TOML, lines, header), header);
  }

  lemma ExistingTableText(config: string, header: string)
    requires ProperHeader(header) && Has(TOML, Split(config), header)
    ensures Split(UpsertText(config, header)) == Finish(Set(TOML, Split(config), header))
  {
    JoinSplit(config);
    SetStaysOnLines(Split(config), header);
    SetHasLine(Split(config), header);
    FinishedText(Set(TOML, Split(config), header));
  }

  lemma {:induction false} TrimmedLinesFree(lines: seq<string>)
    requires NoNewlines(lines)
    ensures NoNewlines(TrimEndLines(TOML, lines))
    ensures var t := TrimEndLines(TOML, lines); t != [] ==> t[|t| - 1] != ""
  {
    if lines != [] {
      var init, last := lines[..|lines| - 1], lines[|lines| - 1];
      TrimmedLinesFree(init);
      assert TrimEnd(last) <= last;
    }
  }

  lemma SplitTable(b: string, c: string)
    requires '\n' !in b && '\n' !in c
    ensures Split(b + "\n" + c + "\n") == [b, c, ""]
  {
    SplitLine(b);
    SplitLine(c);
    SplitEnd(c);
    SplitSum(b, c + "\n");
    assert b + "\n" + c + "\n" == b + ("\n" + (c + "\n"));
  }

  lemma SplitBehindBlank(a: string, rest: string)
    ensures Split(a + "\n\n" + rest) == Split(a) + [""] + Split(rest)
  {
    SplitEnd(a);
    SplitSum(a + "\n", rest);
    assert a + "\n\n" + rest == (a + "\n") + ("\n" + rest);
  }

  lemma SplitFour(a: string, b: string, c: string)
    requires '\n' !in b && '\n' !in c
    ensures Split(a + "\n\n" + b + "\n" + c + "\n") == Split(a) + [""] + [b, c, ""]
  {
    var table := b + "\n" + c + "\n";
    SplitTable(b, c);
    SplitBehindBlank(a, table);
    assert a + "\n\n" + b + "\n" + c + "\n" == a + "\n\n" + table;
  }

  lemma NewTableBehind(base: string, trimmed: seq<string>, header: string)
    requires '\n' !in header && NoNewlines(trimmed) && trimmed != [] && base == Join(trimmed)
    ensures Split(base + "\n\n" + header + "\n" + KEY_LINE + "\n") == trimmed + [""] + [header, KEY_LINE, ""]
  {
    assert '\n' !in KEY_LINE;
    SplitJoin(trimmed);
    SplitFour(base, header, KEY_LINE);
  }

  lemma NewTableAlone(header: string)
    requires '\n' !in header
    ensures Split("" + header + "\n" + KEY_LINE + "\n") == [] + [header, KEY_LINE, ""]
  {
    assert '\n' !in KEY_LINE;
    SplitTable(header, KEY_LINE);
    assert "" + header == header;
  }

  lemma NewTableText(config: string, header: string)
    requires '\n' !in header && !Has(TOML, Split(config), header)
    ensures Split(UpsertText(config, header)) == Create(TOML, Split(config), header)
  {
    var lines := Split(config);
    var trimmed := TrimEndLines(TOML, lines);
    JoinSplit(config);
    TrimmedText(lines);
    TrimmedLinesFree(lines);
    if trimmed == [] {
      NewTableAlone(header);
    } else {
      LastLineEnds(trimmed);
      NewTableBehind(TrimEnd(config), trimmed, header);
    }
  }

  /** The upsert on the text is the upsert on its lines. */
  lemma UpsertTextIsOnLines(config: string, header: string)
    requires ProperHeader(header) && '\n' !in header
    ensures Split(UpsertText(config, header)) == Upserted(TOML, Split(config), header)
  {
    if Has(TOML, Split(config), header) {
      ExistingTableText(config, header);
    } else {
      NewTableText(config, header);
    }
  }

  lemma {:induction false} EnableTextIsOnLines(config: string, headers: seq<string>)
    requires ProperHeaders(headers) && NoNewlines(headers)
    ensures Split(EnableText(config, headers)) == UpsertedAll(TOML, Split(config), headers)
  {
    if headers != [] {
      EnableTextIsOnLines(config, headers[..|headers| - 1]);
      UpsertTextIsOnLines(EnableText(config, headers[..|headers| - 1]), headers[|headers| - 1]);
    }
  }

  /** Enabling twice is enabling once, to the character. */
  lemma EnablingTextTwice(config: string, headers: seq<string>)
    requires ProperHeaders(headers) && NoNewlines(headers)
    ensures EnableText(EnableText(config, headers), headers) == EnableText(config, headers)
  {
    var once := EnableText(config, headers);
    TomlIsSound();
    EnableTextIsOnLines(config, headers);
    EnableTextIsOnLines(once, headers);
    EnablingTwice(TOML, Split(config), headers);
    JoinSplit(once);
    JoinSplit(EnableText(once, headers));
  }

  // ---------------------------------------------------------------- stripping

  /** Three or more newlines in a row become two. `run` newlines come right before the text. */
  function Collapse(s: string, run: nat): string {
    if s == "" then ""
    else if s[0] == '\n' then (if run >= 2 then "" else "\n") + Collapse(s[1..], run + 1)
    else [s[0]] + Collapse(s[1..], 0)
  }

  function RunAfter(s: string, run: nat): nat {
    if s == "" then run else RunAfter(s[1..], if s[0] == '\n' then run + 1 else 0)
  }

  /** stripLocalOmxPluginMcpServerRegistrations, on texts. */
  function StripText(config: string, headers: seq<string>): string {
    TrimEnd(Collapse(JoinAll(RemoveAll(TOML, Split(config), headers)), 0))
  }

  lemma {:induction false} CollapseSum(a: string, b: string, run: nat)
    ensures Collapse(a + b, run) == Collapse(a, run) + Collapse(b, RunAfter(a, run))
  {
    if a == "" {
      assert a + b == b;
    } else {
      assert (a + b)[1..] == a[1..] + b;
      CollapseSum(a[1..], b, if a[0] == '\n' then run + 1 else 0);
    }
  }

  lemma {:induction false} CollapsedSpace(s: string, run: nat)
    requires Blank(s)
    ensures TrimEnd(Collapse(s, run)) == ""
  {
    if s != "" {
      var next := if s[0] == '\n' then run + 1 else 0;
      var first := if s[0] == '\n' && run >= 2 then "" else [s[0]];
      CollapsedSpace(s[1..], next);
      EndOfSum(first, Collapse(s[1..], next));
      assert Collapse(s, run) == first + Collapse(s[1..], next);
    }
  }

  lemma {:induction false} TrimmedOff(s: string)
    ensures Blank(s[|TrimEnd(s)|..])
  {
    if s != "" && IsSpace(s[|s| - 1]) {
      var init := s[..|s| - 1];
      TrimmedOff(init);
      assert s[|TrimEnd(s)|..] == init[|TrimEnd(s)|..] + [s[|s| - 1]];
    } else {
      assert s[|TrimEnd(s)|..] == "";
    }
  }

  /** White space at the end does not show in the stripped text. */
  lemma CollapseOfTrimmed(s: string)
    ensures TrimEnd(Collapse(s, 0)) == TrimEnd(Collapse(TrimEnd(s), 0))
  {
    var a, b := TrimEnd(s), s[|TrimEnd(s)|..];
    assert s == a + b;
    TrimmedOff(s);
    CollapseSum(a, b, 0);
    CollapsedSpace(b, RunAfter(a, 0));
    EndOfSum(Collapse(a, 0), Collapse(b, RunAfter(a, 0)));
  }

  /** Enabling and then stripping gives the text that stripping at once gives, if no server is
      registered twice. */
  lemma StrippingTextUndoesEnabling(config: string, headers: seq<string>)
    requires ProperHeaders(headers) && NoNewlines(headers) && OnceEach(TOML, Split(config), headers)
    ensures StripText(EnableText(config, headers), headers) == StripText(config, headers)
  {
    var before := RemoveAll(TOML, Split(config), headers);
    var after := RemoveAll(TOML, UpsertedAll(TOML, Split(config), headers), headers);
    TomlIsSound();
    EnableTextIsOnLines(config, headers);
    StrippingUndoesEnabling(TOML, Split(config), headers);
    TrimmedText(before);
    TrimmedText(after);
    CollapseOfTrimmed(JoinAll(before));
    CollapseOfTrimmed(JoinAll(after));
  }

  // ---------------------------------------------------------------- the code, on texts

  method StripRegistrations(config: string, headers: seq<string>) returns (text: string)
    ensures text == StripText(config, headers)
  {
    var lines := PluginConfig.StripRegistrations(TOML, Split(config), headers);
    text := TrimEnd(Collapse(JoinAll(lines), 0));
  }

  method UpsertTableKey(config: string, header: string) returns (text: string)
    requires ProperHeader(header) && '\n' !in header
    ensures text == UpsertText(config, header)
  {
    var lines := UpsertEnabled(TOML, Split(config), header);
    UpsertTextIsOnLines(config, header);
    JoinSplit(UpsertText(config, header));
    text := JoinAll(lines);
  }

  /** upsertLocalOmxPluginMcpServerEnablement. */
  method UpsertEnablement(config: string, headers: seq<string>, enabled: bool, removeWhenDisabled: bool) returns (text: string)
    requires ProperHeaders(headers) && NoNewlines(headers)
    ensures enabled ==> text == EnableText(config, headers)
    ensures !enabled && !removeWhenDisabled ==> text == config
    ensures !enabled && removeWhenDisabled ==>
              text == if StripText(config, headers) == "" then "" else StripText(config, headers) + "\n"
  {
    if !enabled && removeWhenDisabled {
      var stripped := StripRegistrations(config, headers);
      return if stripped == "" then "" else stripped + "\n";
    }
    if !enabled {
      return config;
    }
    text := config;
    for i := 0 to |headers|
      invariant text == EnableText(config, headers[..i])
    {
      assert headers[..i + 1][..i] == headers[..i];
      text := UpsertTableKey(text, headers[i]);
    }
    assert headers[..|headers|] == headers;
  }

  // ---------------------------------------------------------------- no registration is left

  lemma SplitCons(c: char, s: string)
    ensures c == '\n' ==> Split([c] + s) == [""] + Split(s)
    ensures c != '\n' ==> Split([c] + s) == [[c] + Split(s)[0]] + Split(s)[1..]
  {
    assert ([c] + s)[1..] == s;
  }

  lemma CountFirst(lines: seq<string>, header: string)
    requires lines != []
    ensures Count(TOML, lines, header) == Count(TOML, [lines[0]], header) + Count(TOML, lines[1..], header)
  {
    assert lines == [lines[0]] + lines[1..];
    CountSum(TOML, [lines[0]], lines[1..], header);
  }

  lemma CountCons(c: char, s: string, t: string, header: string)
    requires c != '\n' && Split(s)[0] == Split(t)[0] && Count(TOML, Split(s), header) == Count(TOML, Split(t), header)
    ensures Count(TOML, Split([c] + s), header) == Count(TOML, Split([c] + t), header)
  {
    SplitCons(c, s);
    SplitCons(c, t);
    CountFirst(Split(s), header);
    CountFirst(Split(t), header);
    CountSum(TOML, [[c] + Split(s)[0]], Split(s)[1..], header);
    CountSum(TOML, [[c] + Split(t)[0]], Split(t)[1..], header);
  }

  /** Collapsing takes out empty lines only. */
  lemma {:induction false} CollapseKeepsCount(s: string, run: nat, header: string)
    requires ProperHeader(header)
    ensures Count(TOML, Split(Collapse(s, run)), header) == Count(TOML, Split(s), header)
    ensures run < 2 || s == "" || s[0] != '\n' ==> Split(Collapse(s, run))[0] == Split(s)[0]
  {
    if s != "" {
      var c, more := s[0], s[1..];
      var next := if c == '\n' then run + 1 else 0;
      var rest := Collapse(more, next);
      assert s == [c] + more;
      CollapseKeepsCount(more, next, header);
      SplitCons(c, more);
      if c == '\n' {
        EmptyLineDoesNotCount(header);
        CountSum(TOML, [""], Split(more), header);
        SplitCons('\n', rest);
        CountSum(TOML, [""], Split(rest), header);
        assert Collapse(s, run) == if run >= 2 then rest else ['\n'] + rest;
      } else {
        CountCons(c, rest, more, header);
        SplitCons(c, rest);
        assert Collapse(s, run) == [c] + rest;
      }
    }
  }

  lemma EmptyLineDoesNotCount(header: string)
    requires ProperHeader(header)
    ensures Count(TOML, [""], header) == 0
  {
    assert Trim("") == "" && [""][1..] == [];
  }

  lemma {:induction false} RemoveFirstIsPart(lines: seq<string>, header: string)
    ensures forall x :: x in RemoveFirst(TOML, lines, header) ==> x in lines
  {
    if lines != [] {
      assert lines == [lines[0]] + lines[1..];
      RemoveFirstIsPart(lines[1..], header);
    }
  }

  lemma {:induction false} RemoveAllIsPart(lines: seq<string>, headers: seq<string>)
    requires NoNewlines(lines)
    ensures NoNewlines(RemoveAll(TOML, lines, headers))
    decreases headers
  {
    if headers != [] {
      var removed := RemoveFirst(TOML, lines, headers[0]);
      RemoveFirstIsPart(lines, headers[0]);
      PartStaysOnLines(lines, removed, "");
      RemoveAllIsPart(removed, headers[1..]);
    }
  }

  lemma CountOfJoined(lines: seq<string>, header: string)
    requires ProperHeader(header) && NoNewlines(lines)
    ensures Count(TOML, Split(JoinAll(lines)), header) == Count(TOML, lines, header)
  {
    if lines == [] {
      EmptyLineDoesNotCount(header);
    } else {
      SplitJoin(lines);
    }
  }

  lemma TrimKeepsCount(s: string, header: string)
    requires ProperHeader(header)
    ensures Count(TOML, Split(TrimEnd(s)), header) == Count(TOML, Split(s), header)
  {
    var lines := Split(s);
    JoinSplit(s);
    TrimmedText(lines);
    TrimmedLinesFree(lines);
    CountOfJoined(TrimEndLines(TOML, lines), header);
    TomlIsSound();
    EndKeepsEnabled(TOML, lines, header);
  }

  lemma StripTextCount(config: string, headers: seq<string>, header: string)
    requires ProperHeader(header)
    ensures Count(TOML, Split(StripText(config, headers)), header) == Count(TOML, RemoveAll(TOML, Split(config), headers), header)
  {
    var left := RemoveAll(TOML, Split(config), headers);
    JoinSplit(config);
    RemoveAllIsPart(Split(config), headers);
    CountOfJoined(left, header);
    CollapseKeepsCount(JoinAll(left), 0, header);
    TrimKeepsCount(Collapse(JoinAll(left), 0), header);
  }

  /** The stripped text registers no server exactly when the text registered none twice. */
  lemma StripTextRemovesAllWhen(config: string, headers: seq<string>)
    requires ProperHeaders(headers)
    ensures (forall h :: h in headers ==> !Has(TOML, Split(StripText(config, headers)), h)) <==> OnceEach(TOML, Split(config), headers)
  {
    var stripped, left := Split(StripText(config, headers)), RemoveAll(TOML, Split(config), headers);
    TomlIsSound();
    StripRemovesAllWhen(TOML, Split(config), headers);
    forall h | h in headers ensures Has(TOML, stripped, h) <==> Has(TOML, left, h) {
      StripTextCount(config, headers, h);
      HasCount(TOML, stripped, h);
      HasCount(TOML, left, h);
    }
  }
}
