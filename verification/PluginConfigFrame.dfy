/**
 What enabling and stripping leave alone: the lines they do not own, and the file a strip gives
 back.
 */
module PluginConfigFrame {
  import opened Text
  import opened TomlLines
  import opened PluginConfig
  import opened PluginConfigLaws

  ghost function Members(headers: seq<string>): set<string> {
    set h | h in headers
  }

  /** The file without the key lines of the tables whose header is in `own`; `ours` says whether
      the lines start inside such a table. */
  ghost function Kept(g: Patterns, lines: seq<string>, own: set<string>, ours: bool): seq<string> {
    if lines == [] then []
    else if g.isHeader(lines[0]) then [lines[0]] + Kept(g, lines[1..], own, g.trim(lines[0]) in own)
    else (if ours && g.isKey(lines[0]) then [] else [lines[0]]) + Kept(g, lines[1..], own, ours)
  }

  /** The file without those tables. */
  ghost function Outside(g: Patterns, lines: seq<string>, own: set<string>, ours: bool): seq<string> {
    if lines == [] then []
    else
      var ours' := if g.isHeader(lines[0]) then g.trim(lines[0]) in own else ours;
      (if ours' then [] else [lines[0]]) + Outside(g, lines[1..], own, ours')
  }

  /** Whether a list of lines ends inside such a table. */
  ghost function EndsOurs(g: Patterns, lines: seq<string>, own: set<string>, ours: bool): bool {
    if lines == [] then ours
    else EndsOurs(g, lines[1..], own, if g.isHeader(lines[0]) then g.trim(lines[0]) in own else ours)
  }

  lemma {:induction false} KeptSum(g: Patterns, a: seq<string>, b: seq<string>, own: set<string>, ours: bool)
    ensures Kept(g, a + b, own, ours) == Kept(g, a, own, ours) + Kept(g, b, own, EndsOurs(g, a, own, ours))
  {
    if a == [] {
      assert a + b == b;
    } else {
      KeptSum(g, a[1..], b, own, if g.isHeader(a[0]) then g.trim(a[0]) in own else ours);
      assert (a + b)[1..] == a[1..] + b;
    }
  }

  lemma {:induction false} OutsideSum(g: Patterns, a: seq<string>, b: seq<string>, own: set<string>, ours: bool)
    ensures Outside(g, a + b, own, ours) == Outside(g, a, own, ours) + Outside(g, b, own, EndsOurs(g, a, own, ours))
  {
    if a == [] {
      assert a + b == b;
    } else {
      OutsideSum(g, a[1..], b, own, if g.isHeader(a[0]) then g.trim(a[0]) in own else ours);
      assert (a + b)[1..] == a[1..] + b;
    }
  }

  lemma {:induction false} BodyStays(g: Patterns, body: seq<string>, own: set<string>, ours: bool)
    requires NoHeader(g, body)
    ensures EndsOurs(g, body, own, ours) == ours
    ensures ours ==> Outside(g, body, own, ours) == [] && Kept(g, body, own, ours) == OtherLines(g, body)
  {
    if body != [] {
      BodyStays(g, body[1..], own, ours);
    }
  }

  /** Setting a table's key changes nothing else. */
  lemma {:induction false} SetKeepsRest(g: Patterns, lines: seq<string>, header: string, own: set<string>, ours: bool)
    requires Sound(g) && ProperHeader(header) && header in own
    ensures Kept(g, Set(g, lines, header), own, ours) == Kept(g, lines, own, ours)
    ensures Outside(g, Set(g, lines, header), own, ours) == Outside(g, lines, own, ours)
  {
    if lines != [] {
      var first, rest := lines[0], lines[1..];
      if Matches(g, first, header) {
        Parts(g, rest);
        var before, after := Body(g, rest), Rest(g, rest);
        var body := NewBody(g, before);
        NewBodyFacts(g, before);
        BodyStays(g, body, own, true);
        BodyStays(g, before, own, true);
        KeptSum(g, body, after, own, true);
        KeptSum(g, before, after, own, true);
        OutsideSum(g, body, after, own, true);
        OutsideSum(g, before, after, own, true);
        assert ([first] + (body + after))[1..] == body + after;
      } else {
        SetKeepsRest(g, rest, header, own, if g.isHeader(first) then g.trim(first) in own else ours);
        assert ([first] + Set(g, rest, header))[1..] == Set(g, rest, header);
      }
    }
  }

  /** A line at the end of the file is in one of those tables. */
  predicate Hidden(g: Patterns, x: string, own: set<string>, ours: bool) {
    if g.isHeader(x) then g.trim(x) in own else ours
  }

  lemma One(g: Patterns, x: string, own: set<string>, ours: bool)
    ensures Kept(g, [x], own, ours) == (if !g.isHeader(x) && ours && g.isKey(x) then [] else [x])
    ensures Outside(g, [x], own, ours) == (if Hidden(g, x, own, ours) then [] else [x])
  {
    assert [x][1..] == [];
  }

  // ---------------------------------------------------------------- the lines that are kept

  lemma {:induction false} DropEmptyKeeps(g: Patterns, lines: seq<string>, own: set<string>)
    requires Sound(g)
    ensures DropEmpty(Kept(g, DropEmpty(lines), own, false)) == DropEmpty(Kept(g, lines, own, false))
  {
    if lines != [] && lines[|lines| - 1] == "" {
      var init := lines[..|lines| - 1];
      Snoc(lines);
      DropEmptyKeeps(g, init, own);
      KeptSum(g, init, [""], own, false);
      One(g, "", own, EndsOurs(g, init, own, false));
      DropBlank(Kept(g, init, own, false));
    }
  }

  lemma DropBlank(lines: seq<string>)
    ensures DropEmpty(lines + [""]) == DropEmpty(lines)
  {
    assert (lines + [""])[..|lines|] == lines;
  }

  /** An upsert into an existing table keeps every line but that table's key lines, in order. */
  lemma UpsertKeepsLines(g: Patterns, lines: seq<string>, header: string, own: set<string>)
    requires Sound(g) && ProperHeader(header) && header in own && Has(g, lines, header)
    ensures DropEmpty(Kept(g, Upserted(g, lines, header), own, false)) == DropEmpty(Kept(g, lines, own, false))
  {
    var changed := Set(g, lines, header);
    SetKeepsRest(g, lines, header, own, false);
    DropEmptyKeeps(g, changed, own);
    KeptSum(g, DropEmpty(changed), [""], own, false);
    One(g, "", own, EndsOurs(g, DropEmpty(changed), own, false));
    DropBlank(Kept(g, DropEmpty(changed), own, false));
  }

  /** When every server has a table already, enabling them changes nothing but those tables' key
      lines and the number of newlines the file ends in. */
  lemma {:induction false} EnablingKeepsLines(g: Patterns, lines: seq<string>, headers: seq<string>, own: set<string>)
    requires Sound(g) && ProperHeaders(headers) && forall h :: h in headers ==> Has(g, lines, h) && h in own
    ensures DropEmpty(Kept(g, UpsertedAll(g, lines, headers), own, false)) == DropEmpty(Kept(g, lines, own, false))
  {
    if headers != [] {
      var init, last := headers[..|headers| - 1], headers[|headers| - 1];
      Snoc(headers);
      EnablingKeepsLines(g, lines, init, own);
      EnablingEnablesAll(g, lines, init);
      HasCount(g, lines, last);
      HasCount(g, UpsertedAll(g, lines, init), last);
      UpsertKeepsLines(g, UpsertedAll(g, lines, init), last, own);
    }
  }

  /** The lines that are not blank, without white space at their ends. */
  ghost function NonBlank(g: Patterns, lines: seq<string>): seq<string> {
    if lines == [] then []
    else NonBlank(g, lines[..|lines| - 1]) + (if g.trimEnd(lines[|lines| - 1]) == "" then [] else [g.trimEnd(lines[|lines| - 1])])
  }

  ghost function Words(g: Patterns, lines: seq<string>, own: set<string>): seq<string> {
    NonBlank(g, Kept(g, lines, own, false))
  }

  lemma NonBlankSnoc(g: Patterns, lines: seq<string>, x: string)
    ensures NonBlank(g, lines + [x]) == NonBlank(g, lines) + (if g.trimEnd(x) == "" then [] else [g.trimEnd(x)])
  {
    assert (lines + [x])[..|lines|] == lines;
  }

  /** A line added at the end shows in the words if it is kept and not blank. */
  lemma WordsSnoc(g: Patterns, lines: seq<string>, x: string, own: set<string>)
    requires Sound(g)
    ensures Words(g, lines + [x], own)
         == Words(g, lines, own) + (if g.trimEnd(x) == "" then []
                                     else if !g.isHeader(x) && g.isKey(x) && EndsOurs(g, lines, own, false) then []
                                     else [g.trimEnd(x)])
  {
    var ours := EndsOurs(g, lines, own, false);
    KeptSum(g, lines, [x], own, false);
    One(g, x, own, ours);
    NonBlankSnoc(g, Kept(g, lines, own, false), x);
    assert Kept(g, lines, own, false) + [] == Kept(g, lines, own, false);
  }

  lemma {:induction false} EndKeepsWords(g: Patterns, lines: seq<string>, own: set<string>)
    requires Sound(g)
    ensures Words(g, DropEmpty(lines), own) == Words(g, lines, own)
    ensures Words(g, TrimEndLines(g, lines), own) == Words(g, lines, own)
  {
    if lines != [] {
      var init, last := lines[..|lines| - 1], lines[|lines| - 1];
      Snoc(lines);
      EndKeepsWords(g, init, own);
      WordsSnoc(g, init, last, own);
      WordsSnoc(g, init, g.trimEnd(last), own);
    }
  }

  /** The headers of `headers` that no line of the file matches. */
  ghost function Missing(g: Patterns, lines: seq<string>, headers: seq<string>): seq<string> {
    if headers == [] then []
    else
      var last := headers[|headers| - 1];
      Missing(g, lines, headers[..|headers| - 1]) + (if Count(g, lines, last) == 0 then [last] else [])
  }

  lemma NewTableStays(g: Patterns, header: string, own: set<string>, ours: bool)
    requires Sound(g) && ProperHeader(header) && header in own
    ensures Kept(g, NewTable(header), own, ours) == [header, ""] && Outside(g, NewTable(header), own, ours) == []
  {
    var body := [KEY_LINE, ""];
    assert NewTable(header)[1..] == body && body[1..] == [""] && [""][1..] == [];
    assert NoHeader(g, body);
    BodyStays(g, body, own, true);
    assert !g.isKey("") && OtherLines(g, [""]) == [""];
  }

  lemma NewTableWords(g: Patterns, base: seq<string>, header: string, own: set<string>)
    requires Sound(g) && ProperHeader(header) && header in own
    ensures Words(g, base + NewTable(header), own) == Words(g, base, own) + [header]
  {
    var kept := Kept(g, base, own, false);
    KeptSum(g, base, NewTable(header), own, false);
    NewTableStays(g, header, own, EndsOurs(g, base, own, false));
    assert kept + [header, ""] == kept + [header] + [""];
    NonBlankSnoc(g, kept + [header], "");
    NonBlankSnoc(g, kept, header);
  }

  lemma UpsertKeepsWords(g: Patterns, lines: seq<string>, header: string, own: set<string>)
    requires Sound(g) && ProperHeader(header) && header in own
    ensures Words(g, Upserted(g, lines, header), own) == Words(g, lines, own) + (if Count(g, lines, header) == 0 then [header] else [])
  {
    HasCount(g, lines, header);
    if Has(g, lines, header) {
      var changed := Set(g, lines, header);
      SetKeepsRest(g, lines, header, own, false);
      EndKeepsWords(g, changed, own);
      WordsSnoc(g, DropEmpty(changed), "", own);
    } else {
      EndKeepsWords(g, lines, own);
      WordsSnoc(g, TrimEndLines(g, lines), "", own);
      NewTableWords(g, Base(g, lines), header, own);
    }
  }

  /** In general every line that is not blank stays, in order, and the missing headers follow. */
  lemma {:induction false} EnablingKeepsWords(g: Patterns, lines: seq<string>, headers: seq<string>, own: set<string>)
    requires Sound(g) && ProperHeaders(headers) && forall h :: h in headers ==> h in own
    ensures Words(g, UpsertedAll(g, lines, headers), own) == Words(g, lines, own) + Missing(g, lines, headers)
  {
    if headers != [] {
      var init, last := headers[..|headers| - 1], headers[|headers| - 1];
      Snoc(headers);
      EnablingKeepsWords(g, lines, init, own);
      EnablingEnablesAll(g, lines, init);
      assert last !in init;
      UpsertKeepsWords(g, UpsertedAll(g, lines, init), last, own);
    }
  }

  // ---------------------------------------------------------------- stripping undoes enabling

  lemma {:induction false} OutsideNothing(g: Patterns, lines: seq<string>, header: string, own: set<string>, ours: bool)
    requires Count(g, lines, header) == 0
    ensures Outside(g, lines, own + {header}, ours) == Outside(g, lines, own, ours)
  {
    if lines != [] {
      OutsideNothing(g, lines[1..], header, own, if g.isHeader(lines[0]) then g.trim(lines[0]) in own else ours);
    }
  }

  lemma StateDoesNotMatter(g: Patterns, lines: seq<string>, own: set<string>, a: bool, b: bool)
    requires StartsTable(g, lines)
    ensures Outside(g, lines, own, a) == Outside(g, lines, own, b)
  {
  }

  lemma {:induction false} RemovedIsOutside(g: Patterns, lines: seq<string>, header: string, own: set<string>, ours: bool)
    requires Sound(g) && ProperHeader(header) && Count(g, lines, header) <= 1
    ensures Outside(g, RemoveFirst(g, lines, header), own, ours) == Outside(g, lines, own + {header}, ours)
  {
    if lines != [] {
      var first, rest := lines[0], lines[1..];
      if Matches(g, first, header) {
        Parts(g, rest);
        var body, after := Body(g, rest), Rest(g, rest);
        BodyStays(g, body, own + {header}, true);
        OutsideSum(g, body, after, own + {header}, true);
        CountSum(g, body, after, header);
        OutsideNothing(g, after, header, own, true);
        StateDoesNotMatter(g, after, own, true, ours);
      } else {
        RemovedIsOutside(g, rest, header, own, if g.isHeader(first) then g.trim(first) in own else ours);
        assert ([first] + RemoveFirst(g, rest, header))[1..] == RemoveFirst(g, rest, header);
      }
    }
  }

  lemma {:induction false} OutsideOfNone(g: Patterns, lines: seq<string>)
    ensures Outside(g, lines, {}, false) == lines
  {
    if lines != [] {
      OutsideOfNone(g, lines[1..]);
    }
  }

  /** Where no server is registered twice, stripping leaves exactly the lines outside the servers'
      tables. */
  lemma {:induction false} StripIsOutside(g: Patterns, lines: seq<string>, headers: seq<string>)
    requires Sound(g) && ProperHeaders(headers) && OnceEach(g, lines, headers)
    ensures RemoveAll(g, lines, headers) == Outside(g, lines, Members(headers), false)
    decreases headers
  {
    if headers == [] {
      OutsideOfNone(g, lines);
      assert Members(headers) == {};
    } else {
      var first, more := headers[0], headers[1..];
      assert headers == [first] + more;
      var removed := RemoveFirst(g, lines, first);
      forall h | h in more ensures Count(g, removed, h) <= 1 {
        RemoveCount(g, lines, first, h);
      }
      StripIsOutside(g, removed, more);
      RemovedIsOutside(g, lines, first, Members(more), false);
      assert Members(headers) == Members(more) + {first};
    }
  }

  /** The file outside the servers' tables, its end trimmed. */
  ghost function Bare(g: Patterns, lines: seq<string>, own: set<string>): seq<string> {
    TrimEndLines(g, Outside(g, lines, own, false))
  }

  lemma TrimSnoc(g: Patterns, lines: seq<string>, x: string)
    ensures TrimEndLines(g, lines + [x]) == if g.trimEnd(x) == "" then TrimEndLines(g, lines) else lines + [g.trimEnd(x)]
  {
    assert (lines + [x])[..|lines|] == lines;
  }

  lemma OutsideSnoc(g: Patterns, lines: seq<string>, x: string, own: set<string>)
    ensures Outside(g, lines + [x], own, false)
         == if Hidden(g, x, own, EndsOurs(g, lines, own, false)) then Outside(g, lines, own, false) else Outside(g, lines, own, false) + [x]
  {
    OutsideSum(g, lines, [x], own, false);
    One(g, x, own, EndsOurs(g, lines, own, false));
    assert Outside(g, lines, own, false) + [] == Outside(g, lines, own, false);
  }

  lemma BareSnoc(g: Patterns, lines: seq<string>, x: string, own: set<string>)
    requires Sound(g)
    ensures Bare(g, lines + [g.trimEnd(x)], own) == Bare(g, lines + [x], own)
    ensures g.trimEnd(x) == "" ==> Bare(g, lines + [x], own) == Bare(g, lines, own)
  {
    var outside := Outside(g, lines, own, false);
    OutsideSnoc(g, lines, x, own);
    OutsideSnoc(g, lines, g.trimEnd(x), own);
    TrimSnoc(g, outside, x);
    TrimSnoc(g, outside, g.trimEnd(x));
  }

  lemma {:induction false} EndKeepsBare(g: Patterns, lines: seq<string>, own: set<string>)
    requires Sound(g)
    ensures Bare(g, DropEmpty(lines), own) == Bare(g, lines, own)
    ensures Bare(g, TrimEndLines(g, lines), own) == Bare(g, lines, own)
  {
    if lines != [] {
      Snoc(lines);
      EndKeepsBare(g, lines[..|lines| - 1], own);
      BareSnoc(g, lines[..|lines| - 1], lines[|lines| - 1], own);
    }
  }

  lemma UpsertKeepsBare(g: Patterns, lines: seq<string>, header: string, own: set<string>)
    requires Sound(g) && ProperHeader(header) && header in own
    ensures Bare(g, Upserted(g, lines, header), own) == Bare(g, lines, own)
  {
    if Has(g, lines, header) {
      var changed := Set(g, lines, header);
      SetKeepsRest(g, lines, header, own, false);
      EndKeepsBare(g, changed, own);
      BareSnoc(g, DropEmpty(changed), "", own);
    } else {
      var base := Base(g, lines);
      EndKeepsBare(g, lines, own);
      BareSnoc(g, TrimEndLines(g, lines), "", own);
      OutsideSum(g, base, NewTable(header), own, false);
      NewTableStays(g, header, own, EndsOurs(g, base, own, false));
      assert Outside(g, base, own, false) + [] == Outside(g, base, own, false);
    }
  }

  lemma {:induction false} EnablingKeepsBare(g: Patterns, lines: seq<string>, headers: seq<string>, own: set<string>)
    requires Sound(g) && ProperHeaders(headers) && forall h :: h in headers ==> h in own
    ensures Bare(g, UpsertedAll(g, lines, headers), own) == Bare(g, lines, own)
  {
    if headers != [] {
      Snoc(headers);
      EnablingKeepsBare(g, lines, headers[..|headers| - 1], own);
      UpsertKeepsBare(g, UpsertedAll(g, lines, headers[..|headers| - 1]), headers[|headers| - 1], own);
    }
  }

  /** Enabling and then stripping gives the file that stripping at once gives. */
  lemma StrippingUndoesEnabling(g: Patterns, lines: seq<string>, headers: seq<string>)
    requires Sound(g) && ProperHeaders(headers) && OnceEach(g, lines, headers)
    ensures TrimEndLines(g, RemoveAll(g, UpsertedAll(g, lines, headers), headers)) == TrimEndLines(g, RemoveAll(g, lines, headers))
  {
    StripRemovesAllWhen(g, lines, headers);
    StripIsOutside(g, lines, headers);
    StripIsOutside(g, UpsertedAll(g, lines, headers), headers);
    EnablingKeepsBare(g, lines, headers, Members(headers));
  }
}
