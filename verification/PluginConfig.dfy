/**
 Enabling and stripping the plugin's MCP servers in a TOML file (src/cli/plugin-marketplace.ts),
 line by line. A table is a header line and the lines up to the next header (TOML v1.0.0, section
 "Table"); all functions below walk the lines of an LF text.
 */
module PluginConfig {
  import opened Wrappers
  import opened Text
  import opened TomlLines

  const TABLE_PATH := "plugins.\"oh-my-codex@oh-my-codex-local\".mcp_servers."

  /** The header line of one server's table. */
  function Header(server: string): string {
    "[" + TABLE_PATH + server + "]"
  }

  lemma BracketsAreProper(s: string)
    requires s != "" && s[0] == '[' && s[|s| - 1] == ']'
    ensures ProperHeader(s)
  {
  }

  lemma MiddleIsUnique(prefix: string, a: string, b: string, suffix: string)
    requires prefix + a + suffix == prefix + b + suffix
    ensures a == b
  {
    var x, y := prefix + a + suffix, prefix + b + suffix;
    assert x[|prefix|..|x| - |suffix|] == a && y[|prefix|..|y| - |suffix|] == b;
  }

  lemma HeadersAreProper(a: string, b: string)
    ensures ProperHeader(Header(a))
    ensures Header(a) == Header(b) ==> a == b
  {
    BracketsAreProper(Header(a));
    if Header(a) == Header(b) {
      MiddleIsUnique("[" + TABLE_PATH, a, b, "]");
    }
  }

  predicate Matches(g: Patterns, line: string, header: string) {
    g.trim(line) == header
  }

  // ---------------------------------------------------------------- tables

  /** How many lines come before the next header. */
  function BodyLen(g: Patterns, lines: seq<string>): (n: nat)
    ensures n <= |lines|
    ensures forall i :: 0 <= i < n ==> !g.isHeader(lines[i])
    ensures n < |lines| ==> g.isHeader(lines[n])
  {
    if lines == [] || g.isHeader(lines[0]) then 0 else 1 + BodyLen(g, lines[1..])
  }

  function Body(g: Patterns, lines: seq<string>): seq<string> {
    lines[..BodyLen(g, lines)]
  }

  function Rest(g: Patterns, lines: seq<string>): seq<string> {
    lines[BodyLen(g, lines)..]
  }

  predicate NoHeader(g: Patterns, lines: seq<string>) {
    forall i :: 0 <= i < |lines| ==> !g.isHeader(lines[i])
  }

  predicate StartsTable(g: Patterns, lines: seq<string>) {
    lines == [] || g.isHeader(lines[0])
  }

  lemma BodyOf(g: Patterns, body: seq<string>, rest: seq<string>)
    requires NoHeader(g, body) && StartsTable(g, rest)
    ensures Body(g, body + rest) == body && Rest(g, body + rest) == rest
  {
    var lines := body + rest;
    var n := BodyLen(g, lines);
    assert forall i :: 0 <= i < |body| ==> lines[i] == body[i];
    assert rest != [] ==> lines[|body|] == rest[0];
    assert n == |body|;
  }

  predicate Has(g: Patterns, lines: seq<string>, header: string) {
    exists line :: line in lines && Matches(g, line, header)
  }

  function KeyLines(g: Patterns, lines: seq<string>): seq<string> {
    if lines == [] then [] else (if g.isKey(lines[0]) then [lines[0]] else []) + KeyLines(g, lines[1..])
  }

  /** The first table of this header holds exactly one key line, `enabled = true`. */
  predicate Enabled(g: Patterns, lines: seq<string>, header: string) {
    if lines == [] then false
    else if Matches(g, lines[0], header) then KeyLines(g, Body(g, lines[1..])) == [KEY_LINE]
    else Enabled(g, lines[1..], header)
  }

  // ---------------------------------------------------------------- the upsert

  /** The first key line is set, further ones are dropped. */
  function SetKey(g: Patterns, body: seq<string>, seen: bool): seq<string> {
    if body == [] then []
    else if g.isKey(body[0]) then (if seen then [] else [KEY_LINE]) + SetKey(g, body[1..], true)
    else [body[0]] + SetKey(g, body[1..], seen)
  }

  function NewBody(g: Patterns, body: seq<string>): seq<string> {
    if KeyLines(g, body) == [] then [KEY_LINE] + body else SetKey(g, body, false)
  }

  /** The body of the first table of this header replaced. */
  function Set(g: Patterns, lines: seq<string>, header: string): seq<string> {
    if lines == [] then []
    else if Matches(g, lines[0], header) then [lines[0]] + (NewBody(g, Body(g, lines[1..])) + Rest(g, lines[1..]))
    else [lines[0]] + Set(g, lines[1..], header)
  }

  function DropEmpty(lines: seq<string>): seq<string> {
    if lines != [] && lines[|lines| - 1] == "" then DropEmpty(lines[..|lines| - 1]) else lines
  }

  /** The text made to end in exactly one newline (it is not all newlines: it has a header). */
  function Finish(lines: seq<string>): seq<string> {
    DropEmpty(lines) + [""]
  }

  /** trimEnd of the whole text. */
  function TrimEndLines(g: Patterns, lines: seq<string>): seq<string> {
    if lines == [] then []
    else
      var last := g.trimEnd(lines[|lines| - 1]);
      if last == "" then TrimEndLines(g, lines[..|lines| - 1]) else lines[..|lines| - 1] + [last]
  }

  function Create(g: Patterns, lines: seq<string>, header: string): seq<string> {
    var base := TrimEndLines(g, lines);
    (if base == [] then [] else base + [""]) + [header, KEY_LINE, ""]
  }

  function Upserted(g: Patterns, lines: seq<string>, header: string): seq<string> {
    if Has(g, lines, header) then Finish(Set(g, lines, header)) else Create(g, lines, header)
  }

  function UpsertedAll(g: Patterns, lines: seq<string>, headers: seq<string>): seq<string> {
    if headers == [] then lines
    else Upserted(g, UpsertedAll(g, lines, headers[..|headers| - 1]), headers[|headers| - 1])
  }

  // ---------------------------------------------------------------- the code

  method FindHeader(g: Patterns, lines: seq<string>, header: string) returns (start: Option<nat>)
    ensures start.None? <==> !Has(g, lines, header)
    ensures start.Some? ==> start.value < |lines| && Matches(g, lines[start.value], header)
    ensures start.Some? ==> forall k :: 0 <= k < start.value ==> !Matches(g, lines[k], header)
  {
    for i := 0 to |lines|
      invariant forall k :: 0 <= k < i ==> !Matches(g, lines[k], header)
    {
      if Matches(g, lines[i], header) {
        return Some(i);
      }
    }
    start := None;
  }

  method FindEnd(g: Patterns, lines: seq<string>, start: nat) returns (end: nat)
    requires start < |lines|
    ensures end == start + 1 + BodyLen(g, lines[start + 1..])
  {
    end := |lines|;
    var index := start + 1;
    while index < |lines|
      invariant start + 1 <= index <= |lines| == end
      invariant forall k :: start + 1 <= k < index ==> !g.isHeader(lines[k])
    {
      if g.isHeader(lines[index]) {
        end := index;
        break;
      }
      index := index + 1;
    }
    BodyOf(g, lines[start + 1..end], lines[end..]);
    assert lines[start + 1..end] + lines[end..] == lines[start + 1..];
  }

  lemma SetLater(g: Patterns, first: string, rest: seq<string>, header: string)
    requires !Matches(g, first, header)
    ensures Set(g, [first] + rest, header) == [first] + Set(g, rest, header)
  {
    assert ([first] + rest)[1..] == rest;
  }

  lemma {:induction false} SetAfter(g: Patterns, before: seq<string>, table: seq<string>, header: string)
    requires forall k :: 0 <= k < |before| ==> !Matches(g, before[k], header)
    ensures Set(g, before + table, header) == before + Set(g, table, header)
  {
    if before == [] {
      assert before + table == table;
    } else {
      var first, more := before[0], before[1..];
      assert before == [first] + more;
      SetAfter(g, more, table, header);
      Regroup([first], more, table);
      SetLater(g, first, more + table, header);
      Regroup([first], more, Set(g, table, header));
    }
  }

  lemma SetAt(g: Patterns, lines: seq<string>, header: string, start: nat, end: nat)
    requires start < |lines| && Matches(g, lines[start], header) && forall k :: 0 <= k < start ==> !Matches(g, lines[k], header)
    requires end == start + 1 + BodyLen(g, lines[start + 1..])
    ensures Set(g, lines, header) == lines[..start + 1] + (NewBody(g, lines[start + 1..end]) + lines[end..])
  {
    var before, table, rest := lines[..start], lines[start..], lines[start + 1..];
    assert lines == before + table && table[1..] == rest;
    SetAfter(g, before, table, header);
    assert Body(g, rest) == lines[start + 1..end] && Rest(g, rest) == lines[end..];
    Regroup(before, [lines[start]], NewBody(g, lines[start + 1..end]) + lines[end..]);
    assert before + [lines[start]] == lines[..start + 1];
  }

  lemma Regroup<T>(a: seq<T>, b: seq<T>, c: seq<T>)
    ensures a + (b + c) == (a + b) + c
  {
  }

  /** What the two ways of passing an element of the middle part do to a list in three parts. */
  lemma Splice<T>(lines: seq<T>, done: seq<T>, rest: seq<T>, tail: seq<T>, y: T)
    requires lines == done + rest + tail && rest != []
    ensures lines[|done|] == rest[0]
    ensures lines == done + [rest[0]] + rest[1..] + tail
    ensures lines[|done| := y] == done + [y] + rest[1..] + tail
    ensures lines[..|done|] + lines[|done| + 1..] == done + rest[1..] + tail
  {
  }

  lemma InFront<T>(lines: seq<T>, head: seq<T>, body: seq<T>, tail: seq<T>, y: T)
    requires lines == head + body + tail
    ensures lines[..|head|] + [y] + lines[|head|..] == head + (([y] + body) + tail)
  {
  }

  lemma ThreeParts<T>(lines: seq<T>, i: nat, j: nat)
    requires i <= j <= |lines|
    ensures lines == lines[..i] + lines[i..j] + lines[j..]
  {
  }

  /** upsertTomlTableBooleanKey with key "enabled", value true, create true; also the loop of
      upsertLocalOmxPluginEnablement. */
  method UpsertEnabled(g: Patterns, config: seq<string>, header: string) returns (lines: seq<string>)
    ensures lines == Upserted(g, config, header)
  {
    lines := config;
    var found := FindHeader(g, lines, header);
    if found.None? {
      var base := TrimEndLines(g, config);
      return (if base == [] then [] else base + [""]) + [header, KEY_LINE, ""];
    }
    var start := found.value;
    var end := FindEnd(g, lines, start);
    lines := SetKeyLines(g, lines, start, end);
    SetAt(g, config, header, start, end);
    lines := Finish(lines);
  }

  lemma NextKey(g: Patterns, done: seq<string>, rest: seq<string>, seen: bool)
    requires rest != []
    ensures done + SetKey(g, rest, seen) ==
            if !g.isKey(rest[0]) then done + [rest[0]] + SetKey(g, rest[1..], seen)
            else if seen then done + SetKey(g, rest[1..], true)
            else done + [KEY_LINE] + SetKey(g, rest[1..], true)
  {
    Regroup(done, [rest[0]], SetKey(g, rest[1..], seen));
    Regroup(done, [KEY_LINE], SetKey(g, rest[1..], true));
  }

  /** The loop over one table's body. */
  method SetKeyLines(g: Patterns, config: seq<string>, start: nat, end0: nat) returns (lines: seq<string>)
    requires start < end0 <= |config|
    ensures lines == config[..start + 1] + (NewBody(g, config[start + 1..end0]) + config[end0..])
  {
    lines := config;
    var end := end0;
    ghost var head, body, tail := config[..start + 1], config[start + 1..end0], config[end0..];
    ghost var done, rest := head, body;
    ThreeParts(config, start + 1, end0);
    var keyIndex := -1;
    var index := start + 1;
    while index < end
      invariant lines == done + rest + tail && index == |done| && end == index + |rest|
      invariant done + SetKey(g, rest, keyIndex >= 0) == head + SetKey(g, body, false)
      invariant keyIndex < 0 ==> KeyLines(g, rest) == KeyLines(g, body) && lines == config
      invariant keyIndex >= 0 ==> KeyLines(g, body) != []
      decreases end - index
    {
      Splice(lines, done, rest, tail, KEY_LINE);
      NextKey(g, done, rest, keyIndex >= 0);
      if g.isKey(lines[index]) {
        if keyIndex < 0 {
          keyIndex := index;
          lines := lines[index := KEY_LINE];
          index := index + 1;
          done := done + [KEY_LINE];
        } else {
          lines := lines[..index] + lines[index + 1..];
          end := end - 1;
        }
      } else {
        index := index + 1;
        done := done + [rest[0]];
      }
      rest := rest[1..];
    }
    if keyIndex < 0 {
      InFront(config, head, body, tail, KEY_LINE);
      lines := lines[..start + 1] + [KEY_LINE] + lines[start + 1..];
    } else {
      Regroup(head, SetKey(g, body, false), tail);
    }
  }

  // ---------------------------------------------------------------- stripping

  /** The first table of this header removed. */
  function RemoveFirst(g: Patterns, lines: seq<string>, header: string): seq<string> {
    if lines == [] then []
    else if Matches(g, lines[0], header) then Rest(g, lines[1..])
    else [lines[0]] + RemoveFirst(g, lines[1..], header)
  }

  function RemoveAll(g: Patterns, lines: seq<string>, headers: seq<string>): seq<string>
    decreases headers
  {
    if headers == [] then lines else RemoveAll(g, RemoveFirst(g, lines, headers[0]), headers[1..])
  }

  lemma {:induction false} RemoveAt(g: Patterns, lines: seq<string>, header: string, start: nat)
    requires start < |lines| && Matches(g, lines[start], header) && forall k :: 0 <= k < start ==> !Matches(g, lines[k], header)
    ensures RemoveFirst(g, lines, header) == lines[..start] + Rest(g, lines[start + 1..])
  {
    if start > 0 {
      RemoveAt(g, lines[1..], header, start - 1);
      assert lines[1..][start..] == lines[start + 1..];
      assert [lines[0]] + lines[1..][..start - 1] == lines[..start];
      Regroup([lines[0]], lines[1..][..start - 1], Rest(g, lines[start + 1..]));
    } else {
      assert lines[..0] + Rest(g, lines[1..]) == Rest(g, lines[1..]);
    }
  }

  lemma {:induction false} RemoveNone(g: Patterns, lines: seq<string>, header: string)
    requires !Has(g, lines, header)
    ensures RemoveFirst(g, lines, header) == lines
  {
    if lines != [] {
      assert lines[0] in lines;
      RemoveNone(g, lines[1..], header);
      assert [lines[0]] + lines[1..] == lines;
    }
  }

  /** The loop of stripLocalOmxPluginMcpServerRegistrations; the white space is tidied up in
      PluginConfigText. */
  method StripRegistrations(g: Patterns, config: seq<string>, headers: seq<string>) returns (lines: seq<string>)
    ensures lines == RemoveAll(g, config, headers)
  {
    lines := config;
    for i := 0 to |headers|
      invariant RemoveAll(g, lines, headers[i..]) == RemoveAll(g, config, headers)
    {
      assert headers[i..][1..] == headers[i + 1..];
      var start := FindHeader(g, lines, headers[i]);
      if start.Some? {
        var end := FindEnd(g, lines, start.value);
        RemoveAt(g, lines, headers[i], start.value);
        assert lines[start.value + 1..][end - start.value - 1..] == lines[end..];
        lines := lines[..start.value] + lines[end..];
      } else {
        RemoveNone(g, lines, headers[i]);
      }
    }
  }
}
