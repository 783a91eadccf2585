/**
 The shell printers of src/cli/index.ts and the law that makes them safe to use: the shell reads
 back what was printed.
 */
module ShellQuoting {
  import opened Wrappers
  import opened Shell
  import opened Text

  /** Every single quote becomes '"'"'. */
  function Requote(value: string): string {
    if value == "" then ""
    else (if value[0] == '\'' then "'\"'\"'" else [value[0]]) + Requote(value[1..])
  }

  function QuoteShellArg(value: string): string {
    "'" + Requote(value) + "'"
  }

  predicate NeedsEscape(c: char) {
    c == '\"' || c == '\\' || c == '$' || c == '`'
  }

  function EscapeShellDoubleQuotedValue(value: string): string {
    if value == "" then ""
    else (if NeedsEscape(value[0]) then ['\\', value[0]] else [value[0]]) + EscapeShellDoubleQuotedValue(value[1..])
  }

  // ---------------------------------------------------------------- one argument

  lemma StepSingleQuote(rest: string, word: string, command: seq<string>)
    ensures Read("'\"'\"'" + rest, Single, word, command) == Read(rest, Single, word + "'", command)
  {
    var s := "'\"'\"'" + rest;
    assert s[1..] == "\"'\"'" + rest;
    assert s[1..][1..] == "'\"'" + rest;
    assert s[1..][1..][1..] == "\"'" + rest;
    assert s[1..][1..][1..][1..] == "'" + rest;
    assert s[1..][1..][1..][1..][1..] == rest;
    calc {
      Read(s, Single, word, command);
      Read(s[1..], Bare, word, command);
      Read(s[1..][1..], Double, word, command);
      Read(s[1..][1..][1..], Double, word + "'", command);
      Read(s[1..][1..][1..][1..], Bare, word + "'", command);
      Read(rest, Single, word + "'", command);
    }
  }

  lemma {:induction false} ReadRequoted(value: string, rest: string, word: string, command: seq<string>)
    requires NulFree(value)
    ensures Read(Requote(value) + "'" + rest, Single, word, command) == Read(rest, Bare, word + value, command)
  {
    if value == "" {
      assert Requote(value) + "'" + rest == "'" + rest;
      assert ("'" + rest)[1..] == rest;
      assert word + value == word;
    } else {
      var tail := Requote(value[1..]) + "'" + rest;
      var next := word + [value[0]];
      assert value[0] == '\'' ==> [value[0]] == "'";
      assert NulFree(value[1..]);
      ReadRequoted(value[1..], rest, next, command);
      assert next + value[1..] == word + value;
      if value[0] == '\'' {
        assert Requote(value) + "'" + rest == "'\"'\"'" + tail;
        StepSingleQuote(tail, word, command);
      } else {
        assert Requote(value) + "'" + rest == [value[0]] + tail;
        assert ([value[0]] + tail)[1..] == tail;
      }
    }
  }

  /** A quoted argument, wherever it stands, adds its value to the word being read. */
  lemma ReadQuoted(value: string, rest: string, word: string, command: seq<string>)
    requires NulFree(value)
    ensures Read(QuoteShellArg(value) + rest, Bare, word, command) == Read(rest, Bare, word + value, command)
  {
    var s := QuoteShellArg(value) + rest;
    assert s == "'" + (Requote(value) + "'" + rest);
    assert s[1..] == Requote(value) + "'" + rest;
    ReadRequoted(value, rest, word, command);
  }

  lemma QuotedStartsWord(value: string, rest: string, command: seq<string>)
    requires NulFree(value)
    ensures Read(QuoteShellArg(value) + rest, Between, "", command) == Read(rest, Bare, value, command)
  {
    ReadQuoted(value, rest, "", command);
    assert "" + value == value;
  }

  lemma StepEscaped(c: char, tail: string, word: string, command: seq<string>)
    requires NeedsEscape(c)
    ensures Read(['\\', c] + tail, Double, word, command) == Read(tail, Double, word + [c], command)
  {
    var s := ['\\', c] + tail;
    assert s[0] == '\\' && s[1] == c && s[2..] == tail;
  }

  lemma StepOrdinary(c: char, tail: string, word: string, command: seq<string>)
    requires !NeedsEscape(c) && c != '\0'
    ensures Read([c] + tail, Double, word, command) == Read(tail, Double, word + [c], command)
  {
    var s := [c] + tail;
    assert s[0] == c && s[1..] == tail;
  }

  lemma EscapedCons(value: string, end: string)
    requires value != ""
    ensures EscapeShellDoubleQuotedValue(value) + end
         == (if NeedsEscape(value[0]) then ['\\', value[0]] else [value[0]]) + (EscapeShellDoubleQuotedValue(value[1..]) + end)
  {
  }

  lemma {:induction false} ReadEscaped(value: string, rest: string, word: string, command: seq<string>)
    requires NulFree(value)
    ensures Read(EscapeShellDoubleQuotedValue(value) + ("\"" + rest), Double, word, command) == Read(rest, Bare, word + value, command)
  {
    var end := "\"" + rest;
    if value == "" {
      assert EscapeShellDoubleQuotedValue(value) + end == end && end[1..] == rest && word + value == word;
    } else {
      var c, more := value[0], value[1..];
      var tail := EscapeShellDoubleQuotedValue(more) + end;
      assert NulFree(more) && word + [c] + more == word + value;
      ReadEscaped(more, rest, word + [c], command);
      EscapedCons(value, end);
      if NeedsEscape(c) {
        StepEscaped(c, tail, word, command);
      } else {
        StepOrdinary(c, tail, word, command);
      }
    }
  }

  /** Inside double quotes an escaped value reads back as the value, and only if it holds no NUL. */
  lemma DoubleQuotedReadsBack(value: string)
    ensures Words("\"" + EscapeShellDoubleQuotedValue(value) + "\"") == Some([value]) <==> NulFree(value)
  {
    var s := "\"" + EscapeShellDoubleQuotedValue(value) + "\"";
    if NulFree(value) {
      ReadEscaped(value, "", "", []);
      assert s[1..] == EscapeShellDoubleQuotedValue(value) + ("\"" + "");
      assert "" + value == value && [] + [value] == [value];
      assert Read(s, Between, "", []) == Read(s[1..], Double, "", []) == Read("", Bare, value, []) == Some([[value]]);
    } else {
      EscapeKeepsNul(value);
      assert '\0' in s;
      NulIsRejected(s, Between, "", []);
    }
  }

  lemma {:induction false} EscapeKeepsNul(value: string)
    requires !NulFree(value)
    ensures !NulFree(EscapeShellDoubleQuotedValue(value)) && !NulFree(Requote(value))
  {
    if value[0] != '\0' {
      assert !NulFree(value[1..]);
      EscapeKeepsNul(value[1..]);
    }
  }

  // ---------------------------------------------------------------- argument lists

  /** The quoted arguments, each after one blank. */
  function Arguments(args: seq<string>): string {
    if args == [] then "" else " " + QuoteShellArg(args[0]) + Arguments(args[1..])
  }

  function BuildTmuxShellCommand(command: string, args: seq<string>): string {
    QuoteShellArg(command) + Arguments(args)
  }

  ghost predicate AllNulFree(args: seq<string>) {
    forall i :: 0 <= i < |args| ==> NulFree(args[i])
  }

  lemma {:induction false} ReadArguments(args: seq<string>, word: string, command: seq<string>)
    requires AllNulFree(args)
    ensures Read(Arguments(args), Bare, word, command) == Some([command + [word] + args])
  {
    if args == [] {
      assert command + [word] + args == command + [word];
    } else {
      var s := Arguments(args);
      assert s[1..] == QuoteShellArg(args[0]) + Arguments(args[1..]);
      QuotedStartsWord(args[0], Arguments(args[1..]), command + [word]);
      ReadArguments(args[1..], args[0], command + [word]);
      assert command + [word] + [args[0]] + args[1..] == command + [word] + args;
    }
  }

  /** The shell splits the printed command into exactly the command and its arguments; it does so
      if and only if none of them holds a NUL. */
  lemma ShellSplitsBack(command: string, args: seq<string>)
    ensures Words(BuildTmuxShellCommand(command, args)) == Some([command] + args) <==> AllNulFree([command] + args)
  {
    var s := BuildTmuxShellCommand(command, args);
    if AllNulFree([command] + args) {
      assert ([command] + args)[0] == command;
      assert forall i :: 0 <= i < |args| ==> ([command] + args)[i + 1] == args[i];
      QuotedStartsWord(command, Arguments(args), []);
      ReadArguments(args, command, []);
      assert [] + [command] + args == [command] + args;
    } else {
      CommandKeepsNul(command, args);
      NulIsRejected(s, Between, "", []);
    }
  }

  lemma CommandKeepsNul(command: string, args: seq<string>)
    requires !AllNulFree([command] + args)
    ensures !NulFree(BuildTmuxShellCommand(command, args))
  {
    if NulFree(command) {
      var i :| 0 <= i < |[command] + args| && !NulFree(([command] + args)[i]);
      ArgumentsKeepNul(args, i - 1);
    } else {
      EscapeKeepsNul(command);
    }
  }

  lemma {:induction false} ArgumentsKeepNul(args: seq<string>, k: int)
    requires 0 <= k < |args| && !NulFree(args[k])
    ensures !NulFree(Arguments(args))
  {
    if k == 0 {
      EscapeKeepsNul(args[0]);
    } else {
      ArgumentsKeepNul(args[1..], k - 1);
    }
  }

  // ---------------------------------------------------------------- a command inside a command

  const DEFAULT_SHELL := "/bin/sh"

  const ALLOWED_SHELLS := {
    "/bin/sh", "/bin/bash", "/bin/zsh", "/bin/dash", "/bin/fish",
    "/usr/bin/sh", "/usr/bin/bash", "/usr/bin/zsh", "/usr/bin/dash", "/usr/bin/fish",
    "/usr/local/bin/bash", "/usr/local/bin/zsh", "/usr/local/bin/fish",
    "/opt/local/bin/zsh", "/opt/homebrew/bin/zsh"
  }

  /** The shell to run: the user's if it is an allowed one. An absent path is "". */
  function ShellBin(shellPath: string): string {
    var rawShell := if Trim(shellPath) != "" then Trim(shellPath) else DEFAULT_SHELL;
    if rawShell in ALLOWED_SHELLS then rawShell else DEFAULT_SHELL
  }

  predicate EndsIn(s: string, end: string) {
    |end| <= |s| && Lower(s[|s| - |end|..]) == end
  }

  function RcSource(shellPath: string, sourceRc: bool): string {
    if !sourceRc then ""
    else if EndsIn(shellPath, "/zsh") then "if [ -f ~/.zshrc ]; then source ~/.zshrc; fi; "
    else if EndsIn(shellPath, "/bash") then "if [ -f ~/.bashrc ]; then source ~/.bashrc; fi; "
    else ""
  }

  /** buildTmuxPaneCommand. */
  function BuildTmuxPaneCommand(command: string, args: seq<string>, shellPath: string, sourceRc: bool): string {
    Wrapped(ShellBin(shellPath), RcSource(shellPath, sourceRc) + "exec " + BuildTmuxShellCommand(command, args))
  }

  function Wrapped(shellBin: string, inner: string): string {
    QuoteShellArg(shellBin) + " -c " + QuoteShellArg(inner)
  }

  /** The user's shell if it is an allowed one, and /bin/sh otherwise. */
  lemma ShellIsTheUsers(shellPath: string)
    ensures ShellBin(shellPath) == if Trim(shellPath) in ALLOWED_SHELLS then Trim(shellPath) else "/bin/sh"
  {
    assert Trim(shellPath) == "" ==> Trim(shellPath) !in ALLOWED_SHELLS;
  }

  lemma EndsExactlyWhen(s: string, end: string)
    ensures EndsIn(s, end) <==> exists before, last :: s == before + last && Lower(last) == end
  {
    if EndsIn(s, end) {
      assert s == s[..|s| - |end|] + s[|s| - |end|..];
    }
    forall before, last | s == before + last && Lower(last) == end ensures EndsIn(s, end) {
      assert s[|s| - |end|..] == last;
    }
  }

  /** With rc sourcing on, an rc file is read exactly for a zsh or a bash, and it is that shell's. */
  lemma RcFileIs(shellPath: string)
    ensures RcSource(shellPath, false) == ""
    ensures EndsIn(shellPath, "/zsh") ==> RcSource(shellPath, true) == "if [ -f ~/.zshrc ]; then source ~/.zshrc; fi; "
    ensures EndsIn(shellPath, "/bash") ==> RcSource(shellPath, true) == "if [ -f ~/.bashrc ]; then source ~/.bashrc; fi; "
    ensures !EndsIn(shellPath, "/zsh") && !EndsIn(shellPath, "/bash") ==> RcSource(shellPath, true) == ""
  {
    NotBoth(shellPath);
  }

  lemma NotBoth(shellPath: string)
    ensures !EndsIn(shellPath, "/zsh") || !EndsIn(shellPath, "/bash")
  {
    if |shellPath| >= 5 {
      var last := shellPath[|shellPath| - 5..];
      assert last[1..] == shellPath[|shellPath| - 4..] && Lower(last)[1..] == Lower(last[1..]);
      assert "/bash"[1] == 'b' && "/zsh"[0] == '/';
    }
  }

  lemma AllowedShellsAreNulFree(shell: string)
    requires shell in ALLOWED_SHELLS
    ensures NulFree(shell)
  {
  }

  lemma ShellBinIsNulFree(shellPath: string)
    ensures NulFree(ShellBin(shellPath))
  {
    var shell := ShellBin(shellPath);
    if shell in ALLOWED_SHELLS {
      AllowedShellsAreNulFree(shell);
    }
  }

  lemma RequoteNulFree(value: string)
    requires NulFree(value)
    ensures NulFree(Requote(value)) && NulFree(QuoteShellArg(value))
  {
  }

  lemma {:induction false} ArgumentsNulFree(args: seq<string>)
    requires AllNulFree(args)
    ensures NulFree(Arguments(args))
  {
    if args != [] {
      RequoteNulFree(args[0]);
      ArgumentsNulFree(args[1..]);
    }
  }

  /** A plain word and a blank are read, and the rest starts a new word. */
  lemma ReadWord(word: string, tail: string)
    requires word != "" && forall i :: 0 <= i < |word| ==> IsPlain(word[i])
    ensures Read(word + (" " + tail), Between, "", []) == Read(tail, Between, "", [word])
  {
    assert (word + (" " + tail))[0] == word[0] && IsPlain(word[0]);
    ReadPlain(word, " " + tail, "", []);
    assert "" + word == word && [] + [word] == [word];
    assert (" " + tail)[1..] == tail;
  }

  lemma ExecReadsBack(command: string, args: seq<string>)
    requires NulFree(command) && AllNulFree(args)
    ensures Words("exec " + BuildTmuxShellCommand(command, args)) == Some(["exec", command] + args)
  {
    var tail := BuildTmuxShellCommand(command, args);
    assert "exec " + tail == "exec" + (" " + tail);
    ReadWord("exec", tail);
    QuotedStartsWord(command, Arguments(args), ["exec"]);
    ReadArguments(args, command, ["exec"]);
    assert ["exec"] + [command] + args == ["exec", command] + args;
  }

  /** The outer shell gets the shell, -c and the inner command. */
  lemma WrappedReadsBack(shellBin: string, inner: string)
    requires NulFree(shellBin) && NulFree(inner)
    ensures Words(Wrapped(shellBin, inner)) == Some([shellBin, "-c", inner])
  {
    var rest := " -c " + QuoteShellArg(inner);
    assert Wrapped(shellBin, inner) == QuoteShellArg(shellBin) + rest;
    QuotedStartsWord(shellBin, rest, []);
    var rest2 := " " + QuoteShellArg(inner);
    assert rest[1..] == "-c" + rest2;
    assert [] + [shellBin] == [shellBin];
    ReadPlain("-c", rest2, "", [shellBin]);
    assert "" + "-c" == "-c";
    assert Read(rest, Bare, shellBin, []) == Read("-c" + rest2, Between, "", [shellBin]) == Read(rest2, Bare, "-c", [shellBin]);
    assert rest2[1..] == QuoteShellArg(inner) + "";
    QuotedStartsWord(inner, "", [shellBin] + ["-c"]);
    assert Read(rest2, Bare, "-c", [shellBin]) == Some([[shellBin] + ["-c"] + [inner]]);
    assert [shellBin] + ["-c"] + [inner] == [shellBin, "-c", inner];
  }

  /** With rc sourcing off the outer shell gets three words, and the inner shell, given the third,
      gets exec and the original command and arguments: splitting twice undoes the nesting, if and
      only if none of them holds a NUL. */
  lemma NestedCommandReadsBack(command: string, args: seq<string>, shellPath: string)
    ensures (var outer := Words(BuildTmuxPaneCommand(command, args, shellPath, false));
             outer.Some? && |outer.value| == 3 && outer.value[0] == ShellBin(shellPath) && outer.value[1] == "-c"
             && Words(outer.value[2]) == Some(["exec", command] + args))
            <==> AllNulFree([command] + args)
  {
    var inner := "exec " + BuildTmuxShellCommand(command, args);
    assert BuildTmuxPaneCommand(command, args, shellPath, false) == Wrapped(ShellBin(shellPath), inner) by {
      assert "" + "exec " + BuildTmuxShellCommand(command, args) == inner;
    }
    if AllNulFree([command] + args) {
      ExecIsNulFree(command, args);
      ShellBinIsNulFree(shellPath);
      WrappedReadsBack(ShellBin(shellPath), inner);
      ExecReadsBack(command, args);
    } else {
      CommandKeepsNul(command, args);
      WrappedKeepsNul(ShellBin(shellPath), inner);
      NulIsRejected(Wrapped(ShellBin(shellPath), inner), Between, "", []);
    }
  }

  lemma ExecIsNulFree(command: string, args: seq<string>)
    requires AllNulFree([command] + args)
    ensures NulFree("exec " + BuildTmuxShellCommand(command, args)) && NulFree(command) && AllNulFree(args)
  {
    assert ([command] + args)[0] == command;
    assert forall i :: 0 <= i < |args| ==> ([command] + args)[i + 1] == args[i];
    RequoteNulFree(command);
    ArgumentsNulFree(args);
  }

  lemma WrappedKeepsNul(shellBin: string, inner: string)
    requires !NulFree(inner)
    ensures !NulFree(Wrapped(shellBin, inner))
  {
    EscapeKeepsNul(inner);
  }

  // ---------------------------------------------------------------- the environment file

  predicate IsNameStart(c: char) { 'a' <= c <= 'z' || 'A' <= c <= 'Z' || c == '_' }

  predicate IsName(key: string) {
    key != "" && IsNameStart(key[0]) && forall i :: 0 <= i < |key| ==> IsNameStart(key[i]) || '0' <= key[i] <= '9'
  }

  predicate IsExported(env: map<string, string>, key: string) {
    IsName(key) && key in env && NulFree(env[key])
  }

  predicate Letter(c: char) {
    c in "ABCDEFGHIJKLMNOPQRSTUVWXYZ" || c in "abcdefghijklmnopqrstuvwxyz" || c == '_'
  }

  /** A name is letters, digits and underscores, and does not start with a digit. */
  lemma NameExactlyWhen(key: string)
    ensures IsName(key) <==>
              key != "" && Letter(key[0]) && forall i :: 0 <= i < |key| ==> Letter(key[i]) || key[i] in "0123456789"
  {
    forall c: char ensures IsNameStart(c) <==> Letter(c) {
      LetterIs(c);
    }
    forall c: char ensures '0' <= c <= '9' <==> c in "0123456789" {
      DigitIs(c);
    }
  }

  lemma LetterIs(c: char)
    ensures IsNameStart(c) <==> Letter(c)
  {
  }

  lemma DigitIs(c: char)
    ensures '0' <= c <= '9' <==> c in "0123456789"
  {
  }

  function ExportLine(key: string, value: string): string {
    "export " + (key + "=" + QuoteShellArg(value))
  }

  /** An undefined variable counts as absent. */
  function ValueOf(env: map<string, string>, key: string): string {
    if key in env then env[key] else ""
  }

  /** The lines joined, with one newline at the end of each but a lone newline for none. */
  function Joined(lines: seq<string>): string {
    if lines == [] then "\n"
    else if |lines| == 1 then lines[0] + "\n"
    else lines[0] + "\n" + Joined(lines[1..])
  }

  /** The keys that are exported, in order. */
  function ExportedKeys(env: map<string, string>, keys: seq<string>): (r: seq<string>)
    ensures forall k :: k in r <==> k in keys && IsExported(env, k)
  {
    if keys == [] then []
    else
      assert keys == keys[..|keys| - 1] + [keys[|keys| - 1]];
      ExportedKeys(env, keys[..|keys| - 1])
      + if IsExported(env, keys[|keys| - 1]) then [keys[|keys| - 1]] else []
  }

  /** Every earlier element stands in the relation to every later one. */
  ghost predicate Ordered(s: seq<string>, before: (string, string) -> bool) {
    forall i, j :: 0 <= i < j < |s| ==> before(s[i], s[j])
  }

  lemma {:induction false} ExportedKeysKeepOrder(env: map<string, string>, keys: seq<string>, before: (string, string) -> bool)
    requires Ordered(keys, before)
    ensures Ordered(ExportedKeys(env, keys), before)
  {
    if keys != [] {
      var n := |keys| - 1;
      var init := ExportedKeys(env, keys[..n]);
      ExportedKeysKeepOrder(env, keys[..n], before);
      forall i | 0 <= i < |init| ensures before(init[i], keys[n]) {
        KeyIsEarlier(keys, init[i], before);
      }
    }
  }

  lemma KeyIsEarlier(keys: seq<string>, k: string, before: (string, string) -> bool)
    requires Ordered(keys, before) && keys != [] && k in keys[..|keys| - 1]
    ensures before(k, keys[|keys| - 1])
  {
    var i :| 0 <= i < |keys| - 1 && keys[..|keys| - 1][i] == k;
    assert keys[i] == k;
  }

  /** From the names of env in order come its exported variables in that order: with a strict order,
      sorted and each once. */
  lemma ExportedKeysAreOrdered(env: map<string, string>, keys: seq<string>, before: (string, string) -> bool)
    requires Ordered(keys, before) && forall k :: k in env <==> k in keys
    ensures Ordered(ExportedKeys(env, keys), before)
    ensures forall k :: k in ExportedKeys(env, keys) <==> IsExported(env, k)
  {
    ExportedKeysKeepOrder(env, keys, before);
  }

  function ExportWords(env: map<string, string>, names: seq<string>): seq<seq<string>> {
    seq(|names|, i requires 0 <= i < |names| => ["export", names[i] + "=" + ValueOf(env, names[i])])
  }

  /** serializeDetachedSessionParentEnv; `keys` is the sorted list of the keys of env. A shell that
      sources the text runs one export for each exported variable, in that order, with its value. */
  method SerializeDetachedSessionParentEnv(env: map<string, string>, keys: seq<string>) returns (text: string)
    ensures Commands(text) == Some(ExportWords(env, ExportedKeys(env, keys)))
  {
    var lines: seq<string> := [];
    ghost var done: seq<string> := [];
    for i := 0 to |keys|
      invariant done == ExportedKeys(env, keys[..i])
      invariant ExportLines(env, done, lines)
    {
      assert keys[..i + 1][..i] == keys[..i];
      var key := keys[i];
      if !IsName(key) { continue; }
      if key !in env { continue; }
      var value := env[key];
      if !NulFree(value) { continue; }
      lines := lines + [ExportLine(key, value)];
      done := done + [key];
    }
    assert keys[..|keys|] == keys;
    text := Joined(lines);
    FileReadsBack(env, done, lines);
  }

  /** lines are the printed lines of the exported variables `names`. */
  ghost predicate ExportLines(env: map<string, string>, names: seq<string>, lines: seq<string>) {
    |lines| == |names|
    && forall k :: 0 <= k < |names| ==> IsExported(env, names[k]) && lines[k] == ExportLine(names[k], ValueOf(env, names[k]))
  }

  lemma ReadExportLine(key: string, value: string, rest: string)
    requires IsName(key) && NulFree(value)
    ensures Read(ExportLine(key, value) + rest, Between, "", []) == Read(rest, Bare, key + "=" + value, ["export"])
  {
    var tail := (key + "=") + (QuoteShellArg(value) + rest);
    assert ExportLine(key, value) + rest == "export" + (" " + tail);
    ReadWord("export", tail);
    ReadAssignment(key, value, rest);
  }

  lemma ReadAssignment(key: string, value: string, rest: string)
    requires IsName(key) && NulFree(value)
    ensures Read((key + "=") + (QuoteShellArg(value) + rest), Between, "", ["export"]) == Read(rest, Bare, key + "=" + value, ["export"])
  {
    ReadPlain(key + "=", QuoteShellArg(value) + rest, "", ["export"]);
    assert ((key + "=") + (QuoteShellArg(value) + rest))[0] == key[0];
    assert "" + (key + "=") == key + "=";
    ReadQuoted(value, rest, key + "=", ["export"]);
  }

  /** Sourcing the file runs one export per line, with the original values. */
  lemma {:induction false} FileReadsBack(env: map<string, string>, names: seq<string>, lines: seq<string>)
    requires ExportLines(env, names, lines)
    ensures Commands(Joined(lines)) == Some(ExportWords(env, names))
    decreases |names|
  {
    if names == [] {
      assert "\n"[1..] == "" && ExportWords(env, names) == [];
    } else {
      var after := if |lines| == 1 then "" else Joined(lines[1..]);
      JoinedFirst(lines, after);
      FirstLine(names[0], ValueOf(env, names[0]), after);
      if |lines| == 1 {
        assert Commands(after) == Some([]) && ExportWords(env, names[1..]) == [];
      } else {
        FewerLines(env, names, lines);
        FileReadsBack(env, names[1..], lines[1..]);
      }
      WordsFirst(env, names);
    }
  }

  lemma WordsFirst(env: map<string, string>, names: seq<string>)
    requires names != []
    ensures ExportWords(env, names) == [["export", names[0] + "=" + ValueOf(env, names[0])]] + ExportWords(env, names[1..])
  {
  }

  lemma JoinedFirst(lines: seq<string>, after: string)
    requires lines != [] && after == if |lines| == 1 then "" else Joined(lines[1..])
    ensures Joined(lines) == lines[0] + ("\n" + after)
  {
  }

  lemma FewerLines(env: map<string, string>, names: seq<string>, lines: seq<string>)
    requires ExportLines(env, names, lines) && names != []
    ensures ExportLines(env, names[1..], lines[1..])
  {
  }

  lemma FirstLine(key: string, value: string, after: string)
    requires IsName(key) && NulFree(value)
    ensures Commands(ExportLine(key, value) + ("\n" + after)) == Prepend(["export", key + "=" + value], Commands(after))
  {
    ReadExportLine(key, value, "\n" + after);
    assert ("\n" + after)[1..] == after;
    assert ["export"] + [key + "=" + value] == ["export", key + "=" + value];
  }

  /** The environment after running the exports of the file over an environment `base`. */
  function RunExports(base: map<string, string>, commands: seq<seq<string>>): map<string, string> {
    if commands == [] then base
    else
      var before := RunExports(base, commands[..|commands| - 1]);
      var c := commands[|commands| - 1];
      if |c| == 2 && HasAssignment(c[1]) then before[NameOf(c[1]) := c[1][|NameOf(c[1])| + 1..]] else before
  }

  predicate HasAssignment(word: string) { '=' in word }

  /** The part before the first equals sign. */
  function NameOf(word: string): (name: string)
    requires HasAssignment(word)
    ensures |name| < |word| && word[..|name|] == name && word[|name|] == '=' && '=' !in name
  {
    if word[0] == '=' then ""
    else
      assert word == [word[0]] + word[1..];
      [word[0]] + NameOf(word[1..])
  }

  lemma {:induction false} NameOfAssignment(key: string, value: string)
    requires '=' !in key
    ensures HasAssignment(key + ("=" + value)) && NameOf(key + ("=" + value)) == key
  {
    var word := key + ("=" + value);
    assert word[|key|] == '=';
    if key != "" {
      assert word[1..] == key[1..] + ("=" + value);
      NameOfAssignment(key[1..], value);
      assert key == [key[0]] + key[1..];
    }
  }

  lemma OneMoreExport(base: map<string, string>, commands: seq<seq<string>>, key: string, value: string)
    requires IsName(key)
    ensures RunExports(base, commands + [["export", key + "=" + value]]) == RunExports(base, commands)[key := value]
  {
    var all := commands + [["export", key + "=" + value]];
    assert all[..|all| - 1] == commands;
    assert '=' !in key;
    assert key + "=" + value == key + ("=" + value);
    NameOfAssignment(key, value);
    assert (key + "=" + value)[|key| + 1..] == value;
  }

  /** Sourcing gives back every exported variable with its value and touches no other name. */
  lemma {:induction false} SourcingRestores(env: map<string, string>, keys: seq<string>, base: map<string, string>)
    ensures var after := RunExports(base, ExportWords(env, ExportedKeys(env, keys)));
            && (forall k :: k in keys && IsExported(env, k) ==> k in after && after[k] == env[k])
            && (forall k :: !(k in keys && IsExported(env, k)) ==> (k in after <==> k in base) && (k in base ==> after[k] == base[k]))
  {
    if keys == [] {
      assert ExportWords(env, []) == [];
    } else {
      var n := |keys| - 1;
      SourcingRestores(env, keys[..n], base);
      LastExport(env, keys, base);
      assert forall k :: k in keys <==> k in keys[..n] || k == keys[n] by {
        assert keys == keys[..n] + [keys[n]];
      }
    }
  }

  lemma LastExport(env: map<string, string>, keys: seq<string>, base: map<string, string>)
    requires keys != []
    ensures var (init, last) := (keys[..|keys| - 1], keys[|keys| - 1]);
            var before := RunExports(base, ExportWords(env, ExportedKeys(env, init)));
            RunExports(base, ExportWords(env, ExportedKeys(env, keys)))
            == if IsExported(env, last) then before[last := env[last]] else before
  {
    var last := keys[|keys| - 1];
    var names := ExportedKeys(env, keys[..|keys| - 1]);
    if IsExported(env, last) {
      assert ExportWords(env, names + [last]) == ExportWords(env, names) + [["export", last + "=" + env[last]]];
      OneMoreExport(base, ExportWords(env, names), last, env[last]);
    } else {
      assert names + [] == names;
    }
  }
}
