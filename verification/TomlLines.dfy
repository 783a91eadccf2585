/**
 Lines of a TOML file as src/cli/plugin-marketplace.ts tells them apart. The functions on whole
 files (module PluginConfig) need only what `Sound` says of these patterns.
 */
module TomlLines {
  import opened Text

  const KEY_LINE := "enabled = true"

  /** The patterns: a table header (TOML v1.0.0, section "Table"), a line of the key `enabled`, and
      the two trims. */
  datatype Patterns = Patterns(isHeader: string -> bool, isKey: string -> bool, trim: string -> string, trimEnd: string -> string)

  predicate ProperHeader(header: string) {
    header != "" && header[0] == '[' && Trimmed(header)
  }

  ghost predicate Sound(g: Patterns) {
    && g.isKey(KEY_LINE) && g.trimEnd(KEY_LINE) == KEY_LINE
    && g.trimEnd("") == ""
    && (forall line :: g.isKey(line) ==> !g.isHeader(line))
    && (forall line :: ProperHeader(g.trim(line)) ==> g.isHeader(line))
    && (forall header :: ProperHeader(header) ==> g.trim(header) == header && g.trimEnd(header) == header)
    && (forall line :: g.trimEnd(line) == "" ==> !g.isHeader(line) && !g.isKey(line))
    && (forall line :: g.isHeader(g.trimEnd(line)) == g.isHeader(line) && g.isKey(g.trimEnd(line)) == g.isKey(line)
                       && g.trim(g.trimEnd(line)) == g.trim(line) && g.trimEnd(g.trimEnd(line)) == g.trimEnd(line))
  }

  predicate IsHeader(line: string) {
    var s := TrimStart(line);
    s != "" && s[0] == '['
  }

  predicate IsKey(line: string) {
    var s := TrimStart(line);
    && "enabled" <= s
    && var rest := TrimStart(s[7..]);
       rest != "" && rest[0] == '='
  }

  const TOML := Patterns(IsHeader, IsKey, Trim, TrimEnd)

  /** Only white space at the end goes, so the line is still of the same kind. */
  lemma TrimmedEndIsSame(line: string)
    ensures IsHeader(TrimEnd(line)) == IsHeader(line) && Trim(TrimEnd(line)) == Trim(line)
  {
    StartOfEnd(line);
    EndStarts(TrimStart(line));
  }

  lemma EndOfPrefixed(word: string, s: string)
    requires Trimmed(word) && word != ""
    ensures word <= TrimEnd(s) <==> word <= s
    ensures word <= s ==> TrimEnd(s)[|word|..] == TrimEnd(s[|word|..])
  {
    if word <= s {
      assert s == word + s[|word|..];
      EndOfSum(word, s[|word|..]);
    }
  }

  lemma FirstOfEnd(s: string)
    ensures TrimStart(s) == "" <==> TrimStart(TrimEnd(s)) == ""
    ensures TrimStart(s) != "" ==> TrimStart(TrimEnd(s))[0] == TrimStart(s)[0]
  {
    StartOfEnd(s);
    EndStarts(TrimStart(s));
  }

  lemma TrimmedKeyIsKey(line: string)
    ensures IsKey(TrimEnd(line)) == IsKey(line)
  {
    var s := TrimStart(line);
    StartOfEnd(line);
    EndOfPrefixed("enabled", s);
    if "enabled" <= s {
      FirstOfEnd(s[7..]);
    }
  }

  predicate IsKeyLine(line: string, before: string, between: string, rest: string) {
    Blank(before) && Blank(between) && line == before + ("enabled" + (between + ("=" + rest)))
  }

  /** A key line is `enabled` and an equals sign, with nothing but white space before and between them. */
  lemma KeyExactlyWhen(line: string)
    ensures IsKey(line) <==> exists before, between, rest :: IsKeyLine(line, before, between, rest)
  {
    if IsKey(line) {
      var before, between, rest := KeyLineParts(line, "enabled");
    }
    forall before, between, rest | IsKeyLine(line, before, between, rest) ensures IsKey(line) {
      KeyLineIsRead(before, "enabled", between, rest);
    }
  }

  lemma KeyLineParts(line: string, key: string) returns (before: string, between: string, rest: string)
    requires key == "enabled" && IsKey(line)
    ensures IsKeyLine(line, before, between, rest)
  {
    var s := TrimStart(line);
    var more := s[|key|..];
    var value := TrimStart(more);
    before, between, rest := line[..|line| - |s|], more[..|more| - |value|], value[1..];
    StartTrimmedOff(line);
    StartTrimmedOff(more);
    InParts(s, key, more);
    InParts(value, "=", rest);
  }

  lemma InParts(s: string, first: string, rest: string)
    requires |first| <= |s| && rest == s[|first|..] && (first <= s || (|first| == 1 && s[0] == first[0]))
    ensures s == first + rest
  {
  }

  lemma KeyLineIsRead(before: string, key: string, between: string, rest: string)
    requires Blank(before) && Blank(between) && key == "enabled"
    ensures IsKey(before + (key + (between + ("=" + rest))))
  {
    var value := "=" + rest;
    var s := key + (between + value);
    assert s[0] == key[0] && key[0] == 'e' && s[|key|..] == between + value && value[0] == '=';
    StartOfBlank(before, s);
    StartOfBlank(between, value);
  }

  /** A header line starts, behind white space, with a bracket. */
  lemma HeaderExactlyWhen(line: string)
    ensures IsHeader(line) <==> exists before, rest :: IsHeaderLine(line, before, rest)
  {
    if IsHeader(line) {
      var s := TrimStart(line);
      StartTrimmedOff(line);
      InParts(s, "[", s[1..]);
      assert IsHeaderLine(line, line[..|line| - |s|], s[1..]);
    }
    forall before, rest | IsHeaderLine(line, before, rest) ensures IsHeader(line) {
      StartOfBlank(before, "[" + rest);
    }
  }

  predicate IsHeaderLine(line: string, before: string, rest: string) {
    Blank(before) && line == before + ("[" + rest)
  }

  lemma KeyLineIsKey()
    ensures IsKey(KEY_LINE) && TrimEnd(KEY_LINE) == KEY_LINE
  {
    assert TrimStart(KEY_LINE) == KEY_LINE;
    assert KEY_LINE[7..] == " = true" && KEY_LINE[7..][1..] == "= true";
    assert TrimStart("= true") == "= true";
  }

  lemma LineKinds(line: string)
    ensures IsKey(line) ==> !IsHeader(line)
    ensures ProperHeader(Trim(line)) ==> IsHeader(line)
    ensures ProperHeader(line) ==> Trim(line) == line && TrimEnd(line) == line
    ensures TrimEnd(line) == "" ==> !IsHeader(line) && !IsKey(line)
    ensures IsHeader(TrimEnd(line)) == IsHeader(line) && IsKey(TrimEnd(line)) == IsKey(line)
    ensures Trim(TrimEnd(line)) == Trim(line) && TrimEnd(TrimEnd(line)) == TrimEnd(line)
  {
    TrimmedEndIsSame(line);
    TrimmedKeyIsKey(line);
  }

  /** The patterns of the source have all these properties. */
  lemma TomlIsSound()
    ensures Sound(TOML)
  {
    KeyLineIsKey();
    assert forall line :: TOML.isHeader(line) == IsHeader(line) && TOML.isKey(line) == IsKey(line);
    forall line {
      LineKinds(line);
    }
  }
}
