/**
 How a POSIX shell reads the text that src/cli/index.ts prints for it: sections 2.2.1 to 2.2.3
 (quoting) and 2.3 (token recognition) of the Shell Command Language, POSIX.1-2017. The reader
 is partial on purpose: anything that could start an expansion, an operator, a comment or a
 pattern outside quotes, and NUL anywhere, makes it give up.
 */
module Shell {
  import opened Wrappers

  datatype Mode = Between | Bare | Single | Double

  predicate IsBlank(c: char) { c == ' ' || c == '\t' }

  /** Characters that stand for themselves even unquoted. */
  predicate IsPlain(c: char) {
    'a' <= c <= 'z' || 'A' <= c <= 'Z' || '0' <= c <= '9' || c in "_-=/.:+,@%"
  }

  function Prepend(command: seq<string>, rest: Option<seq<seq<string>>>): Option<seq<seq<string>>> {
    if rest.None? then None else Some(if command == [] then rest.value else [command] + rest.value)
  }

  /** Reads on from the middle of a command: `command` are its finished words, `word` the one
      being read. The result are the remaining commands, each a list of words. */
  function Read(s: string, mode: Mode, word: string, command: seq<string>): Option<seq<seq<string>>>
    decreases |s|, if mode.Between? then 1 else 0
  {
    if s == "" then
      match mode
      case Between => Prepend(command, Some([]))
      case Bare => Some([command + [word]])
      case _ => None
    else if s[0] == '\0' then None
    else
      match mode
      case Between =>
        if IsBlank(s[0]) then Read(s[1..], Between, "", command)
        else if s[0] == '\n' then Prepend(command, Read(s[1..], Between, "", []))
        else if s[0] == '\\' && |s| > 1 && s[1] == '\n' then Read(s[2..], Between, "", command)
        else Read(s, Bare, "", command)
      case Bare =>
        if IsBlank(s[0]) then Read(s[1..], Between, "", command + [word])
        else if s[0] == '\n' then Prepend(command + [word], Read(s[1..], Between, "", []))
        else if s[0] == '\'' then Read(s[1..], Single, word, command)
        else if s[0] == '\"' then Read(s[1..], Double, word, command)
        else if s[0] == '\\' then
          if |s| == 1 || s[1] == '\0' then None
          else if s[1] == '\n' then Read(s[2..], Bare, word, command)
          else Read(s[2..], Bare, word + [s[1]], command)
        else if IsPlain(s[0]) then Read(s[1..], Bare, word + [s[0]], command)
        else None
      case Single =>
        if s[0] == '\'' then Read(s[1..], Bare, word, command)
        else Read(s[1..], Single, word + [s[0]], command)
      case Double =>
        if s[0] == '\"' then Read(s[1..], Bare, word, command)
        else if s[0] == '$' || s[0] == '`' then None
        else if s[0] == '\\' && |s| > 1 && s[1] in "$`\"\\" then Read(s[2..], Double, word + [s[1]], command)
        else if s[0] == '\\' && |s| > 1 && s[1] == '\n' then Read(s[2..], Double, word, command)
        else Read(s[1..], Double, word + [s[0]], command)
  }

  /** All commands of a script. */
  function Commands(script: string): Option<seq<seq<string>>> {
    Read(script, Between, "", [])
  }

  /** The words of a script that is one command. */
  function Words(script: string): Option<seq<string>> {
    var commands := Commands(script);
    if commands.Some? && |commands.value| == 1 then Some(commands.value[0]) else None
  }

  predicate NulFree(s: string) { '\0' !in s }

  /** A script with NUL in it is never read to the end. */
  lemma {:induction false} NulIsRejected(s: string, mode: Mode, word: string, command: seq<string>)
    requires !NulFree(s)
    ensures Read(s, mode, word, command) == None
    decreases |s|, if mode.Between? then 1 else 0
  {
    if s[0] != '\0' {
      assert !NulFree(s[1..]);
      match mode
      case Between =>
        if IsBlank(s[0]) {
          NulIsRejected(s[1..], Between, "", command);
        } else if s[0] == '\n' {
          NulIsRejected(s[1..], Between, "", []);
        } else if s[0] == '\\' && |s| > 1 && s[1] == '\n' {
          assert !NulFree(s[2..]);
          NulIsRejected(s[2..], Between, "", command);
        } else {
          NulIsRejected(s, Bare, "", command);
        }
      case Bare =>
        if IsBlank(s[0]) {
          NulIsRejected(s[1..], Between, "", command + [word]);
        } else if s[0] == '\n' {
          NulIsRejected(s[1..], Between, "", []);
        } else if s[0] == '\'' {
          NulIsRejected(s[1..], Single, word, command);
        } else if s[0] == '\"' {
          NulIsRejected(s[1..], Double, word, command);
        } else if s[0] == '\\' {
          if |s| > 1 && s[1] != '\0' {
            assert !NulFree(s[2..]);
            NulIsRejected(s[2..], Bare, if s[1] == '\n' then word else word + [s[1]], command);
          }
        } else {
          NulIsRejected(s[1..], Bare, word + [s[0]], command);
        }
      case Single =>
        NulIsRejected(s[1..], if s[0] == '\'' then Bare else Single, if s[0] == '\'' then word else word + [s[0]], command);
      case Double =>
        if s[0] == '\"' {
          NulIsRejected(s[1..], Bare, word, command);
        } else if s[0] == '\\' && |s| > 1 && s[1] in "$`\"\\" {
          assert !NulFree(s[2..]);
          NulIsRejected(s[2..], Double, word + [s[1]], command);
        } else if s[0] == '\\' && |s| > 1 && s[1] == '\n' {
          assert !NulFree(s[2..]);
          NulIsRejected(s[2..], Double, word, command);
        } else {
          NulIsRejected(s[1..], Double, word + [s[0]], command);
        }
    }
  }

  /** Where the shell would expand something, nothing is read. */
  lemma ExpansionsAreNotRead(c: char, rest: string, word: string, command: seq<string>)
    requires c == '$' || c == '`'
    ensures Read([c] + rest, Bare, word, command) == Read([c] + rest, Double, word, command) == None
  {
  }

  /** Unquoted plain characters read as themselves. */
  lemma {:induction false} ReadPlain(text: string, rest: string, word: string, command: seq<string>)
    requires forall i :: 0 <= i < |text| ==> IsPlain(text[i])
    ensures Read(text + rest, Bare, word, command) == Read(rest, Bare, word + text, command)
  {
    if text == "" {
      assert text + rest == rest && word + text == word;
    } else {
      assert (text + rest)[1..] == text[1..] + rest;
      assert IsPlain(text[0]);
      assert word + text == word + [text[0]] + text[1..];
      ReadPlain(text[1..], rest, word + [text[0]], command);
    }
  }
}
