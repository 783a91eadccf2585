/**
 slugifyMissionName (src/autoresearch/contracts.ts).
 */
module Slug {
  import opened Text

  const LIMIT := 48

  predicate AlphaNum(c: char) {
    'a' <= c <= 'z' || '0' <= c <= '9'
  }

  /** Every run of other characters becomes one dash. */
  function Dashes(s: string, afterDash: bool): (r: string)
    ensures |r| <= |s|
  {
    if s == "" then ""
    else if AlphaNum(s[0]) then [s[0]] + Dashes(s[1..], false)
    else (if afterDash then "" else "-") + Dashes(s[1..], true)
  }

  /** One dash taken off either end. */
  function StripEdges(s: string): string {
    var t := if s != "" && s[0] == '-' then s[1..] else s;
    if t != "" && t[|t| - 1] == '-' then t[..|t| - 1] else t
  }

  function Slugify(value: string): string {
    var s := StripEdges(Dashes(Lower(value), false));
    var cut := if |s| > LIMIT then s[..LIMIT] else s;
    if cut == "" then "mission" else cut
  }

  /** Letters, digits and single dashes. */
  predicate Words(s: string) {
    && (forall i :: 0 <= i < |s| ==> AlphaNum(s[i]) || s[i] == '-')
    && (forall i :: 0 <= i < |s| - 1 ==> s[i] != '-' || s[i + 1] != '-')
  }

  predicate ProperSlug(s: string) {
    s != "" && |s| <= LIMIT && Words(s) && s[0] != '-'
  }

  lemma {:induction false} DashesAreWords(s: string, afterDash: bool)
    ensures Words(Dashes(s, afterDash))
    ensures afterDash && Dashes(s, afterDash) != "" ==> Dashes(s, afterDash)[0] != '-'
  {
    if s != "" {
      DashesAreWords(s[1..], !AlphaNum(s[0]));
    }
  }

  /** What a slug is made of, apart from dashes. */
  lemma AlphaNumIs(c: char)
    ensures AlphaNum(c) <==> c in "abcdefghijklmnopqrstuvwxyz" || c in "0123456789"
  {
  }

  lemma StrippedEndsInWord(s: string)
    requires Words(s)
    ensures Words(StripEdges(s)) && (StripEdges(s) != "" ==> StripEdges(s)[0] != '-' && StripEdges(s)[|StripEdges(s)| - 1] != '-')
  {
  }

  lemma CutIsProper(s: string)
    requires Words(s) && (s != "" ==> s[0] != '-')
    ensures var cut := if |s| > LIMIT then s[..LIMIT] else s; cut != "" ==> ProperSlug(cut)
  {
  }

  // ---------------------------------------------------------------- what a slug is made of

  predicate IsWord(s: string) {
    s != "" && forall i :: 0 <= i < |s| ==> AlphaNum(s[i])
  }

  predicate IsGap(s: string) {
    s != "" && forall i :: 0 <= i < |s| ==> !AlphaNum(s[i])
  }

  /** The words with the gaps between them. */
  function Spaced(words: seq<string>, gaps: seq<string>): string
    requires |gaps| + 1 == |words|
  {
    if gaps == [] then words[0] else words[0] + (gaps[0] + Spaced(words[1..], gaps[1..]))
  }

  function Hyphenated(words: seq<string>): string
    requires words != []
  {
    if |words| == 1 then words[0] else words[0] + ("-" + Hyphenated(words[1..]))
  }

  lemma {:induction false} WordStays(word: string, rest: string)
    requires IsWord(word)
    ensures Dashes(word + rest, true) == word + Dashes(rest, false) == Dashes(word + rest, false)
  {
    assert (word + rest)[1..] == word[1..] + rest;
    if |word| > 1 {
      WordStays(word[1..], rest);
    } else {
      assert word[1..] + rest == rest;
    }
  }

  lemma {:induction false} GapIsOneDash(gap: string, rest: string)
    requires IsGap(gap)
    ensures Dashes(gap + rest, true) == Dashes(rest, true) && Dashes(gap + rest, false) == "-" + Dashes(rest, true)
  {
    assert (gap + rest)[1..] == gap[1..] + rest;
    if |gap| > 1 {
      GapIsOneDash(gap[1..], rest);
    } else {
      assert gap[1..] + rest == rest;
    }
  }

  lemma Regrouped(a: string, b: string, c: string, d: string)
    ensures a + (b + (c + d)) == (a + (b + c)) + d
  {
  }

  lemma {:induction false} WordsAreHyphenated(words: seq<string>, gaps: seq<string>, rest: string)
    requires |gaps| + 1 == |words| && (forall i :: 0 <= i < |words| ==> IsWord(words[i])) && forall i :: 0 <= i < |gaps| ==> IsGap(gaps[i])
    ensures Dashes(Spaced(words, gaps) + rest, true) == Hyphenated(words) + Dashes(rest, false) == Dashes(Spaced(words, gaps) + rest, false)
  {
    if gaps == [] {
      WordStays(words[0], rest);
    } else {
      var later := Spaced(words[1..], gaps[1..]) + rest;
      WordsAreHyphenated(words[1..], gaps[1..], rest);
      WordStays(words[0], gaps[0] + later);
      GapIsOneDash(gaps[0], later);
      Regrouped(words[0], gaps[0], Spaced(words[1..], gaps[1..]), rest);
      Regrouped(words[0], "-", Hyphenated(words[1..]), Dashes(rest, false));
    }
  }

  lemma {:induction false} HyphenatedEnds(words: seq<string>)
    requires words != [] && forall i :: 0 <= i < |words| ==> IsWord(words[i])
    ensures var s := Hyphenated(words); s != "" && s[0] != '-' && s[|s| - 1] != '-'
  {
    if |words| > 1 {
      HyphenatedEnds(words[1..]);
    }
  }

  /** The slug of a text is its words in lower case, hyphenated and cut at 48 characters, whatever
      stands between and around them. */
  lemma SlugIsItsWords(value: string, lead: string, words: seq<string>, gaps: seq<string>, trail: string)
    requires |gaps| + 1 == |words| && (forall i :: 0 <= i < |words| ==> IsWord(words[i])) && forall i :: 0 <= i < |gaps| ==> IsGap(gaps[i])
    requires (lead == "" || IsGap(lead)) && (trail == "" || IsGap(trail)) && Lower(value) == lead + (Spaced(words, gaps) + trail)
    ensures var s := Hyphenated(words); Slugify(value) == if |s| > 48 then s[..48] else s
  {
    HyphenatedEnds(words);
    DashedText(lead, words, gaps, trail);
    TrailIsDash(trail);
    Stripped(Hyphenated(words), if lead == "" then "" else "-", Dashes(trail, false));
  }

  lemma DashedText(lead: string, words: seq<string>, gaps: seq<string>, trail: string)
    requires |gaps| + 1 == |words| && (forall i :: 0 <= i < |words| ==> IsWord(words[i])) && forall i :: 0 <= i < |gaps| ==> IsGap(gaps[i])
    requires lead == "" || IsGap(lead)
    ensures Dashes(lead + (Spaced(words, gaps) + trail), false)
         == (if lead == "" then "" else "-") + (Hyphenated(words) + Dashes(trail, false))
  {
    var rest := Spaced(words, gaps) + trail;
    WordsAreHyphenated(words, gaps, trail);
    if lead == "" {
      assert lead + rest == rest;
    } else {
      GapIsOneDash(lead, rest);
    }
  }

  lemma TrailIsDash(trail: string)
    requires trail == "" || IsGap(trail)
    ensures Dashes(trail, false) == if trail == "" then "" else "-"
  {
    if trail != "" {
      GapIsOneDash(trail, "");
      assert trail + "" == trail;
    }
  }

  lemma Stripped(s: string, before: string, after: string)
    requires s != "" && s[0] != '-' && s[|s| - 1] != '-' && (before == "" || before == "-") && (after == "" || after == "-")
    ensures StripEdges(before + (s + after)) == s
  {
    assert before == "" ==> before + (s + after) == s + after;
    assert before == "-" ==> (before + (s + after))[1..] == s + after;
    assert after == "" ==> s + after == s;
  }

  /** A text without a letter or digit is called "mission". */
  lemma NoWordsIsMission(value: string)
    requires value == "" || IsGap(Lower(value))
    ensures Slugify(value) == "mission"
  {
    TrailIsDash(Lower(value));
  }

  /** What comes out is always a usable slug. */
  lemma SlugIsProper(value: string)
    ensures ProperSlug(Slugify(value))
  {
    DashesAreWords(Lower(value), false);
    StrippedEndsInWord(Dashes(Lower(value), false));
    CutIsProper(StripEdges(Dashes(Lower(value), false)));
    assert ProperSlug("mission");
  }

  lemma {:induction false} WordsAreKept(s: string, afterDash: bool)
    requires Words(s) && (afterDash && s != "" ==> s[0] != '-')
    ensures Lower(s) == s && Dashes(s, afterDash) == s
  {
    if s != "" {
      WordsAreKept(s[1..], s[0] == '-');
    }
  }

  /** The slugs that slugifying leaves alone: proper ones that do not end in a dash. */
  lemma KeptExactlyWhen(s: string)
    ensures Slugify(s) == s <==> ProperSlug(s) && s[|s| - 1] != '-'
  {
    SlugIsProper(s);
    if ProperSlug(s) {
      WordsAreKept(s, false);
      assert s[|s| - 1] == '-' ==> |StripEdges(s)| < |s|;
    }
  }

  /** The 48-character cut of this text falls right behind a dash. */
  predicate CutBehindDash(value: string) {
    var s := StripEdges(Dashes(Lower(value), false));
    |s| > LIMIT && s[LIMIT - 1] == '-'
  }

  /** Slugifying twice differs from slugifying once exactly when the text is cut behind a dash. */
  lemma IdempotentExactlyWhen(value: string)
    ensures Slugify(Slugify(value)) == Slugify(value) <==> !CutBehindDash(value)
  {
    var dashed := Dashes(Lower(value), false);
    DashesAreWords(Lower(value), false);
    StrippedEndsInWord(dashed);
    SlugIsProper(value);
    KeptExactlyWhen(Slugify(value));
  }

  /** Then the second slug is the first without that dash. */
  lemma SecondSlug(value: string)
    requires CutBehindDash(value)
    ensures |Slugify(value)| == LIMIT && Slugify(Slugify(value)) == Slugify(value)[..LIMIT - 1]
  {
    var slug := Slugify(value);
    DashesAreWords(Lower(value), false);
    StrippedEndsInWord(Dashes(Lower(value), false));
    SlugIsProper(value);
    WordsAreKept(slug, false);
    assert StripEdges(slug) == slug[..LIMIT - 1];
  }

  /** Slugifying for a third time changes nothing more. */
  lemma ThirdSlug(value: string)
    ensures Slugify(Slugify(Slugify(value))) == Slugify(Slugify(value))
  {
    SlugIsProper(value);
    SlugIsProper(Slugify(value));
    IdempotentExactlyWhen(value);
    if CutBehindDash(value) {
      var slug := Slugify(value);
      SecondSlug(value);
      assert slug[LIMIT - 2] != '-';
      KeptExactlyWhen(Slugify(slug));
    }
  }

  /** That can happen: 47 letters, a space and one more letter. */
  lemma DashCanBeLeft(value: string)
    requires |value| == 49 && value[47] == ' ' && forall i :: 0 <= i < 49 && i != 47 ==> value[i] == 'a'
    ensures Slugify(Slugify(value)) != Slugify(value)
  {
    var letters := value[..47];
    assert value == letters + " a";
    Letters(letters, " a");
    assert Lower(" a") == " a" && Dashes(" a", false) == "-a" by {
      assert " a"[1..] == "a" && "a"[1..] == "";
    }
    var s := letters + "-a";
    assert StripEdges(s) == s;
    assert s[47] == '-';
    IdempotentExactlyWhen(value);
  }

  lemma {:induction false} Letters(letters: string, more: string)
    requires forall i :: 0 <= i < |letters| ==> letters[i] == 'a'
    ensures Lower(letters + more) == letters + Lower(more)
    ensures Dashes(letters + more, false) == letters + Dashes(more, false)
  {
    if letters == "" {
      assert letters + more == more;
    } else {
      assert (letters + more)[1..] == letters[1..] + more;
      Letters(letters[1..], more);
    }
  }
}
