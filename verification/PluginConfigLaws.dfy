/**
 What enabling and stripping the plugin's MCP servers promise, for every file and every list of
 distinct servers.
 */
module PluginConfigLaws {
  import opened Text
  import opened TomlLines
  import opened PluginConfig

  ghost predicate ProperHeaders(headers: seq<string>) {
    && (forall i :: 0 <= i < |headers| ==> ProperHeader(headers[i]))
    && (forall i, j :: 0 <= i < j < |headers| ==> headers[i] != headers[j])
  }

  function Headers(servers: seq<string>): seq<string> {
    seq(|servers|, i requires 0 <= i < |servers| => Header(servers[i]))
  }

  /** The headers of distinct servers are distinct, and proper headers. */
  lemma ServerHeadersAreProper(servers: seq<string>)
    requires forall i, j :: 0 <= i < j < |servers| ==> servers[i] != servers[j]
    ensures ProperHeaders(Headers(servers))
  {
    forall i, j | 0 <= i < |servers| && 0 <= j < |servers|
      ensures ProperHeader(Headers(servers)[i]) && (Headers(servers)[i] == Headers(servers)[j] ==> servers[i] == servers[j])
    {
      HeadersAreProper(servers[i], servers[j]);
    }
  }

  function Count(g: Patterns, lines: seq<string>, header: string): nat {
    if lines == [] then 0 else (if Matches(g, lines[0], header) then 1 else 0) + Count(g, lines[1..], header)
  }

  lemma {:induction false} HasCount(g: Patterns, lines: seq<string>, header: string)
    ensures Has(g, lines, header) <==> Count(g, lines, header) > 0
  {
    if lines != [] {
      HasCount(g, lines[1..], header);
      assert lines == [lines[0]] + lines[1..];
    }
  }

  lemma {:induction false} CountSum(g: Patterns, a: seq<string>, b: seq<string>, header: string)
    ensures Count(g, a + b, header) == Count(g, a, header) + Count(g, b, header)
  {
    if a == [] {
      assert a + b == b;
    } else {
      CountSum(g, a[1..], b, header);
      assert (a + b)[1..] == a[1..] + b;
    }
  }

  lemma {:induction false} CountNone(g: Patterns, body: seq<string>, header: string)
    requires Sound(g) && ProperHeader(header) && NoHeader(g, body)
    ensures Count(g, body, header) == 0
  {
    if body != [] {
      CountNone(g, body[1..], header);
    }
  }

  lemma Parts(g: Patterns, lines: seq<string>)
    ensures lines == Body(g, lines) + Rest(g, lines) && NoHeader(g, Body(g, lines)) && StartsTable(g, Rest(g, lines))
  {
  }

  // ---------------------------------------------------------------- one table's body

  function OtherLines(g: Patterns, lines: seq<string>): seq<string> {
    if lines == [] then [] else (if g.isKey(lines[0]) then [] else [lines[0]]) + OtherLines(g, lines[1..])
  }

  lemma {:induction false} SetKeyFacts(g: Patterns, body: seq<string>, seen: bool)
    requires Sound(g) && NoHeader(g, body)
    ensures NoHeader(g, SetKey(g, body, seen)) && OtherLines(g, SetKey(g, body, seen)) == OtherLines(g, body)
    ensures KeyLines(g, SetKey(g, body, seen)) == if seen || KeyLines(g, body) == [] then [] else [KEY_LINE]
  {
    if body != [] {
      var rest := body[1..];
      var seen' := seen || g.isKey(body[0]);
      SetKeyFacts(g, rest, seen');
      var tail := SetKey(g, rest, seen');
      assert ([KEY_LINE] + tail)[1..] == tail && ([body[0]] + tail)[1..] == tail && [] + tail == tail;
      assert KeyLines(g, body) == [] <==> !g.isKey(body[0]) && KeyLines(g, rest) == [];
      if g.isKey(body[0]) {
        assert SetKey(g, body, seen) == if seen then tail else [KEY_LINE] + tail;
      } else {
        assert SetKey(g, body, seen) == [body[0]] + tail;
      }
    }
  }

  lemma {:induction false} SetKeySame(g: Patterns, body: seq<string>, seen: bool)
    requires KeyLines(g, body) == [] || (KeyLines(g, body) == [KEY_LINE] && !seen)
    ensures SetKey(g, body, seen) == body
  {
    if body != [] {
      var rest := body[1..];
      assert body == [body[0]] + rest;
      if g.isKey(body[0]) {
        assert KeyLines(g, body) == [body[0]] + KeyLines(g, rest);
        assert KeyLines(g, body)[0] == body[0] && |KeyLines(g, body)| == 1 + |KeyLines(g, rest)|;
        SetKeySame(g, rest, true);
      } else {
        SetKeySame(g, rest, seen);
      }
    }
  }

  /** The new body has one key line, and otherwise the old lines; it is the old one if that was
      already so. */
  lemma NewBodyFacts(g: Patterns, body: seq<string>)
    requires Sound(g) && NoHeader(g, body)
    ensures NoHeader(g, NewBody(g, body)) && OtherLines(g, NewBody(g, body)) == OtherLines(g, body)
    ensures KeyLines(g, NewBody(g, body)) == [KEY_LINE]
    ensures KeyLines(g, body) == [KEY_LINE] ==> NewBody(g, body) == body
  {
    SetKeyFacts(g, body, false);
    if KeyLines(g, body) == [KEY_LINE] {
      SetKeySame(g, body, false);
    }
    assert ([KEY_LINE] + body)[1..] == body;
  }

  lemma BodyCons(g: Patterns, x: string, s: seq<string>)
    ensures Body(g, [x] + s) == if g.isHeader(x) then [] else [x] + Body(g, s)
  {
    assert ([x] + s)[1..] == s;
  }

  lemma {:induction false} BodySum(g: Patterns, a: seq<string>, b: seq<string>)
    ensures Body(g, a + b) == if NoHeader(g, a) then a + Body(g, b) else Body(g, a)
  {
    if a == [] {
      assert a + b == b && a + Body(g, b) == Body(g, b);
    } else {
      assert a == [a[0]] + a[1..] && a + b == [a[0]] + (a[1..] + b);
      BodySum(g, a[1..], b);
      BodyCons(g, a[0], a[1..] + b);
      BodyCons(g, a[0], a[1..]);
      assert NoHeader(g, a) <==> !g.isHeader(a[0]) && NoHeader(g, a[1..]);
    }
  }

  lemma {:induction false} KeyLinesSum(g: Patterns, a: seq<string>, b: seq<string>)
    ensures KeyLines(g, a + b) == KeyLines(g, a) + KeyLines(g, b)
  {
    if a == [] {
      assert a + b == b;
    } else {
      KeyLinesSum(g, a[1..], b);
      assert (a + b)[1..] == a[1..] + b;
    }
  }

  // ---------------------------------------------------------------- enabled tables

  lemma {:induction false} SkipBody(g: Patterns, body: seq<string>, rest: seq<string>, header: string)
    requires Sound(g) && ProperHeader(header) && NoHeader(g, body)
    ensures Enabled(g, body + rest, header) == Enabled(g, rest, header)
  {
    if body == [] {
      assert body + rest == rest;
    } else {
      SkipBody(g, body[1..], rest, header);
      assert (body + rest)[1..] == body[1..] + rest;
    }
  }

  lemma {:induction false} EnabledHas(g: Patterns, lines: seq<string>, header: string)
    requires Enabled(g, lines, header)
    ensures Count(g, lines, header) > 0
  {
    if !Matches(g, lines[0], header) {
      EnabledHas(g, lines[1..], header);
    }
  }

  lemma {:induction false} SetKeepsBody(g: Patterns, lines: seq<string>, header: string)
    requires Sound(g) && ProperHeader(header)
    ensures Body(g, Set(g, lines, header)) == Body(g, lines)
  {
    if lines != [] && !g.isHeader(lines[0]) {
      SetKeepsBody(g, lines[1..], header);
      BodyCons(g, lines[0], Set(g, lines[1..], header));
      BodyCons(g, lines[0], lines[1..]);
      assert [lines[0]] + lines[1..] == lines;
    }
  }

  lemma {:induction false} SetEnables(g: Patterns, lines: seq<string>, header: string)
    requires Sound(g) && ProperHeader(header) && Count(g, lines, header) > 0
    ensures Enabled(g, Set(g, lines, header), header)
    ensures Enabled(g, lines, header) ==> Set(g, lines, header) == lines
  {
    var first, rest := lines[0], lines[1..];
    assert [first] + rest == lines;
    if Matches(g, first, header) {
      Parts(g, rest);
      var body, after := NewBody(g, Body(g, rest)), Rest(g, rest);
      NewBodyFacts(g, Body(g, rest));
      BodyOf(g, body, after);
      assert ([first] + (body + after))[1..] == body + after;
    } else {
      SetEnables(g, rest, header);
      assert ([first] + Set(g, rest, header))[1..] == Set(g, rest, header);
    }
  }

  lemma {:induction false} SetKeepsOthers(g: Patterns, lines: seq<string>, header: string, other: string)
    requires Sound(g) && ProperHeader(header) && ProperHeader(other) && header != other
    ensures Enabled(g, Set(g, lines, header), other) == Enabled(g, lines, other)
  {
    if lines != [] {
      var first, rest := lines[0], lines[1..];
      if Matches(g, first, header) {
        Parts(g, rest);
        var body, after := NewBody(g, Body(g, rest)), Rest(g, rest);
        NewBodyFacts(g, Body(g, rest));
        SkipBody(g, body, after, other);
        SkipBody(g, Body(g, rest), after, other);
        assert ([first] + (body + after))[1..] == body + after;
      } else {
        SetKeepsOthers(g, rest, header, other);
        SetKeepsBody(g, rest, header);
        assert ([first] + Set(g, rest, header))[1..] == Set(g, rest, header);
      }
    }
  }

  lemma {:induction false} SetCount(g: Patterns, lines: seq<string>, header: string, other: string)
    requires Sound(g) && ProperHeader(header) && ProperHeader(other)
    ensures Count(g, Set(g, lines, header), other) == Count(g, lines, other)
  {
    if lines != [] {
      var first, rest := lines[0], lines[1..];
      if Matches(g, first, header) {
        Parts(g, rest);
        var body, after := NewBody(g, Body(g, rest)), Rest(g, rest);
        NewBodyFacts(g, Body(g, rest));
        CountNone(g, body, other);
        CountNone(g, Body(g, rest), other);
        CountSum(g, body, after, other);
        CountSum(g, Body(g, rest), after, other);
        assert ([first] + (body + after))[1..] == body + after;
      } else {
        SetCount(g, rest, header, other);
        assert ([first] + Set(g, rest, header))[1..] == Set(g, rest, header);
      }
    }
  }

  // ---------------------------------------------------------------- the end of the file

  /** A line that is neither header nor key, added at the end, changes no table's keys. */
  lemma {:induction false} EnabledPlain(g: Patterns, lines: seq<string>, x: string, header: string)
    requires Sound(g) && ProperHeader(header) && !g.isHeader(x) && !g.isKey(x)
    ensures Enabled(g, lines + [x], header) == Enabled(g, lines, header)
  {
    if lines != [] {
      var rest := lines[1..];
      assert (lines + [x])[1..] == rest + [x];
      EnabledPlain(g, rest, x, header);
      BodySum(g, rest, [x]);
      BodyCons(g, x, []);
      Parts(g, rest);
      KeyLinesSum(g, rest, [x]);
      WholeBody(g, rest);
    } else {
      assert lines + [x] == [x] && [x][1..] == [];
    }
  }

  lemma WholeBody(g: Patterns, lines: seq<string>)
    ensures NoHeader(g, lines) ==> Body(g, lines) == lines
  {
  }

  /** Trimming the last line keeps the table enabled. */
  lemma {:induction false} EnabledTrimmed(g: Patterns, lines: seq<string>, x: string, header: string)
    requires Sound(g) && ProperHeader(header) && Enabled(g, lines + [x], header)
    ensures Enabled(g, lines + [g.trimEnd(x)], header)
  {
    var y := g.trimEnd(x);
    assert [x][1..] == [];
    assert lines == [] ==> lines + [x] == [x];
    if lines != [] {
      var rest := lines[1..];
      assert (lines + [x])[1..] == rest + [x] && (lines + [y])[1..] == rest + [y];
      if Matches(g, lines[0], header) {
        BodySum(g, rest, [x]);
        BodySum(g, rest, [y]);
        BodyCons(g, x, []);
        BodyCons(g, y, []);
        KeyLinesSum(g, rest, [x]);
        KeyLinesSum(g, rest, [y]);
        WholeBody(g, rest);
        assert [x][1..] == [] && [y][1..] == [];
        if g.isKey(x) && NoHeader(g, rest) {
          var keys := KeyLines(g, rest);
          assert (keys + [x])[|keys|] == x && |keys + [x]| == 1;
        }
      } else {
        EnabledTrimmed(g, rest, x, header);
      }
    }
  }

  lemma Snoc<T>(s: seq<T>)
    requires s != []
    ensures s == s[..|s| - 1] + [s[|s| - 1]]
  {
  }

  lemma {:induction false} EndKeepsEnabled(g: Patterns, lines: seq<string>, header: string)
    requires Sound(g) && ProperHeader(header)
    ensures Enabled(g, DropEmpty(lines), header) == Enabled(g, lines, header)
    ensures Enabled(g, lines, header) ==> Enabled(g, TrimEndLines(g, lines), header)
    ensures Count(g, DropEmpty(lines), header) == Count(g, lines, header)
    ensures Count(g, TrimEndLines(g, lines), header) == Count(g, lines, header)
  {
    if lines != [] {
      var init, last := lines[..|lines| - 1], lines[|lines| - 1];
      Snoc(lines);
      EndKeepsEnabled(g, init, header);
      CountSum(g, init, [last], header);
      CountSum(g, init, [g.trimEnd(last)], header);
      if g.trimEnd(last) == "" {
        EnabledPlain(g, init, last, header);
      } else if Enabled(g, lines, header) {
        EnabledTrimmed(g, init, last, header);
      }
    }
  }

  lemma {:induction false} EnabledSum(g: Patterns, a: seq<string>, b: seq<string>, header: string)
    requires StartsTable(g, b)
    ensures Enabled(g, a + b, header) == if Count(g, a, header) > 0 then Enabled(g, a, header) else Enabled(g, b, header)
  {
    if a == [] {
      assert a + b == b;
    } else {
      assert (a + b)[1..] == a[1..] + b;
      EnabledSum(g, a[1..], b, header);
      BodySum(g, a[1..], b);
      WholeBody(g, a[1..]);
      assert Body(g, b) == [];
      assert a[1..] + [] == a[1..];
    }
  }

  function NewTable(header: string): seq<string> {
    [header, KEY_LINE, ""]
  }

  /** What a new file starts with: the old one, trimmed, and a blank line. */
  function Base(g: Patterns, lines: seq<string>): seq<string> {
    if TrimEndLines(g, lines) == [] then [] else TrimEndLines(g, lines) + [""]
  }

  lemma NewTableFacts(g: Patterns, header: string)
    requires Sound(g) && ProperHeader(header)
    ensures StartsTable(g, NewTable(header)) && Enabled(g, NewTable(header), header)
    ensures forall other :: ProperHeader(other) ==> Count(g, NewTable(header), other) == (if other == header then 1 else 0)
  {
    var t, body := NewTable(header), [KEY_LINE, ""];
    assert t[1..] == body && body[1..] == [""] && [""][1..] == [];
    assert NoHeader(g, body);
    WholeBody(g, body);
    assert KeyLines(g, [""]) == [];
    forall other | ProperHeader(other) ensures Count(g, t, other) == if other == header then 1 else 0 {
      CountNone(g, body, other);
    }
  }

  lemma BaseFacts(g: Patterns, lines: seq<string>, header: string)
    requires Sound(g) && ProperHeader(header)
    ensures Enabled(g, lines, header) ==> Enabled(g, Base(g, lines), header)
    ensures Count(g, Base(g, lines), header) == Count(g, lines, header)
  {
    EndKeepsEnabled(g, lines, header);
    EnabledPlain(g, TrimEndLines(g, lines), "", header);
    CountSum(g, TrimEndLines(g, lines), [""], header);
  }

  // ---------------------------------------------------------------- enabling the servers

  /** One upsert enables its server, and leaves every other as it was. */
  lemma UpsertFacts(g: Patterns, lines: seq<string>, header: string, other: string)
    requires Sound(g) && ProperHeader(header) && ProperHeader(other)
    ensures Enabled(g, Upserted(g, lines, header), header)
    ensures Enabled(g, lines, other) ==> Enabled(g, Upserted(g, lines, header), other)
    ensures Count(g, Upserted(g, lines, header), other)
         == if other == header && Count(g, lines, header) == 0 then 1 else Count(g, lines, other)
  {
    HasCount(g, lines, header);
    if Has(g, lines, header) {
      var set_ := Set(g, lines, header);
      SetEnables(g, lines, header);
      if header != other {
        SetKeepsOthers(g, lines, header, other);
      }
      SetCount(g, lines, header, other);
      FinishKeeps(g, set_, header);
      FinishKeeps(g, set_, other);
    } else {
      var base := Base(g, lines);
      BaseFacts(g, lines, header);
      BaseFacts(g, lines, other);
      NewTableFacts(g, header);
      EnabledSum(g, base, NewTable(header), header);
      EnabledSum(g, base, NewTable(header), other);
      CountSum(g, base, NewTable(header), other);
      if Enabled(g, lines, other) {
        EnabledHas(g, lines, other);
      }
    }
  }

  lemma FinishKeeps(g: Patterns, lines: seq<string>, header: string)
    requires Sound(g) && ProperHeader(header)
    ensures Enabled(g, Finish(lines), header) == Enabled(g, lines, header)
    ensures Count(g, Finish(lines), header) == Count(g, lines, header)
  {
    EndKeepsEnabled(g, lines, header);
    EnabledPlain(g, DropEmpty(lines), "", header);
    CountSum(g, DropEmpty(lines), [""], header);
  }

  /** After enabling, every server's first table has exactly one key line, `enabled = true`; tables
      are made only for servers that had none. */
  lemma {:induction false} EnablingEnablesAll(g: Patterns, lines: seq<string>, headers: seq<string>)
    requires Sound(g) && ProperHeaders(headers)
    ensures forall h :: h in headers ==> Enabled(g, UpsertedAll(g, lines, headers), h)
    ensures forall h :: ProperHeader(h) ==>
      Count(g, UpsertedAll(g, lines, headers), h) == (if h in headers && Count(g, lines, h) == 0 then 1 else Count(g, lines, h))
  {
    if headers != [] {
      var init, last := headers[..|headers| - 1], headers[|headers| - 1];
      Snoc(headers);
      assert last !in init;
      EnablingEnablesAll(g, lines, init);
      var before := UpsertedAll(g, lines, init);
      forall h | ProperHeader(h)
        ensures h in headers ==> Enabled(g, UpsertedAll(g, lines, headers), h)
        ensures Count(g, UpsertedAll(g, lines, headers), h) == if h in headers && Count(g, lines, h) == 0 then 1 else Count(g, lines, h)
      {
        UpsertFacts(g, before, last, h);
      }
    }
  }

  /** Once everything is enabled and the file ends in one newline, an upsert changes nothing. */
  lemma UpsertOfEnabled(g: Patterns, lines: seq<string>, header: string)
    requires Sound(g) && ProperHeader(header) && Enabled(g, lines, header) && Finish(lines) == lines
    ensures Upserted(g, lines, header) == lines
  {
    EnabledHas(g, lines, header);
    HasCount(g, lines, header);
    SetEnables(g, lines, header);
  }

  lemma {:induction false} DropEmptyTwice(lines: seq<string>)
    ensures DropEmpty(DropEmpty(lines)) == DropEmpty(lines)
  {
    if lines != [] && lines[|lines| - 1] == "" {
      DropEmptyTwice(lines[..|lines| - 1]);
    }
  }

  lemma EndsInOneNewline(kept: seq<string>)
    requires DropEmpty(kept) == kept
    ensures Finish(kept + [""]) == kept + [""]
  {
    assert (kept + [""])[..|kept|] == kept;
  }

  lemma UpsertEndsInNewline(g: Patterns, lines: seq<string>, header: string)
    ensures Finish(Upserted(g, lines, header)) == Upserted(g, lines, header)
  {
    if Has(g, lines, header) {
      DropEmptyTwice(Set(g, lines, header));
      EndsInOneNewline(DropEmpty(Set(g, lines, header)));
    } else {
      var kept := Base(g, lines) + [header, KEY_LINE];
      assert kept[|kept| - 1] == KEY_LINE && |KEY_LINE| == 14;
      EndsInOneNewline(kept);
      assert Upserted(g, lines, header) == kept + [""];
    }
  }

  lemma {:induction false} UpsertAllOfEnabled(g: Patterns, lines: seq<string>, headers: seq<string>)
    requires Sound(g) && ProperHeaders(headers) && Finish(lines) == lines
    requires forall h :: h in headers ==> Enabled(g, lines, h)
    ensures UpsertedAll(g, lines, headers) == lines
  {
    if headers != [] {
      Snoc(headers);
      UpsertAllOfEnabled(g, lines, headers[..|headers| - 1]);
      UpsertOfEnabled(g, lines, headers[|headers| - 1]);
    }
  }

  /** Enabling twice is enabling once. */
  lemma EnablingTwice(g: Patterns, lines: seq<string>, headers: seq<string>)
    requires Sound(g) && ProperHeaders(headers)
    ensures UpsertedAll(g, UpsertedAll(g, lines, headers), headers) == UpsertedAll(g, lines, headers)
  {
    if headers != [] {
      EnablingEnablesAll(g, lines, headers);
      UpsertEndsInNewline(g, UpsertedAll(g, lines, headers[..|headers| - 1]), headers[|headers| - 1]);
      UpsertAllOfEnabled(g, UpsertedAll(g, lines, headers), headers);
    }
  }

  // ---------------------------------------------------------------- stripping them

  lemma {:induction false} RemoveCount(g: Patterns, lines: seq<string>, header: string, other: string)
    requires Sound(g) && ProperHeader(header) && ProperHeader(other)
    ensures Count(g, RemoveFirst(g, lines, header), other)
         == if other == header && Count(g, lines, header) > 0 then Count(g, lines, header) - 1 else Count(g, lines, other)
  {
    if lines != [] {
      var first, rest := lines[0], lines[1..];
      if Matches(g, first, header) {
        Parts(g, rest);
        CountNone(g, Body(g, rest), other);
        CountSum(g, Body(g, rest), Rest(g, rest), other);
      } else {
        RemoveCount(g, rest, header, other);
        assert ([first] + RemoveFirst(g, rest, header))[1..] == RemoveFirst(g, rest, header);
      }
    }
  }

  lemma {:induction false} StripCount(g: Patterns, lines: seq<string>, headers: seq<string>, h: string)
    requires Sound(g) && ProperHeaders(headers) && ProperHeader(h)
    ensures Count(g, RemoveAll(g, lines, headers), h)
         == if h in headers && Count(g, lines, h) > 0 then Count(g, lines, h) - 1 else Count(g, lines, h)
    decreases headers
  {
    if headers != [] {
      assert headers == [headers[0]] + headers[1..];
      RemoveCount(g, lines, headers[0], h);
      StripCount(g, RemoveFirst(g, lines, headers[0]), headers[1..], h);
    }
  }

  ghost predicate OnceEach(g: Patterns, lines: seq<string>, headers: seq<string>) {
    forall h :: h in headers ==> Count(g, lines, h) <= 1
  }

  /** Stripping leaves no registration exactly when no server was registered twice; enabling first
      makes no difference to that. */
  lemma StripRemovesAllWhen(g: Patterns, lines: seq<string>, headers: seq<string>)
    requires Sound(g) && ProperHeaders(headers)
    ensures (forall h :: h in headers ==> !Has(g, RemoveAll(g, lines, headers), h)) <==> OnceEach(g, lines, headers)
    ensures OnceEach(g, UpsertedAll(g, lines, headers), headers) <==> OnceEach(g, lines, headers)
  {
    EnablingEnablesAll(g, lines, headers);
    forall h | h in headers ensures !Has(g, RemoveAll(g, lines, headers), h) <==> Count(g, lines, h) <= 1 {
      StripCount(g, lines, headers, h);
      HasCount(g, RemoveAll(g, lines, headers), h);
    }
  }
}
