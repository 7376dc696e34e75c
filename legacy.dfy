/** The two oldest formatters: the static helper of the first Python
    script (renamer.py) and `Renamer::format_track` of the first Rust
    version (src/renamer.rs). */
module LegacyRenamer {
  import opened Strings
  import opened Parens

  /** `Renamer.add_missing_closing_parentheses` (renamer.py:228-249): the
      closing pass with a bare ")" as the inserted text. The counter stays
      in {0, 1}; every inserted ")" stands directly before the "(" that
      triggered it; one more ")" is appended only when the counter ends at
      1; deleting the insertions gives back the input, so no "(" is added. */
  method AddMissingClosingParentheses(text: seq<char>) returns (r: seq<char>)
    ensures CounterAt(text, |text|, '(', ')') <= 1
    ensures r == OutAt(text, |text|, '(', ')', ")") + (if CounterAt(text, |text|, '(', ')') == 1 then ")" else "")
    ensures Originals(ClosePieces(text, ")")) == text
    ensures forall k :: 0 <= k < |PiecesAt(text, |text|, '(', ')', ")")| && PiecesAt(text, |text|, '(', ')', ")")[k].Ins? ==>
              k + 1 < |PiecesAt(text, |text|, '(', ')', ")")| && PiecesAt(text, |text|, '(', ')', ")")[k] == Ins(")")
              && PiecesAt(text, |text|, '(', ')', ")")[k + 1] == Orig('(')
    ensures Count(r, '(') == Count(text, '(')
  {
    r := AddMissingClosing(text, ")");
    ClosingShape(text, ")");
    ClosingKeepsOpenCount(text, ")");
    assert Repeat(')', 1) == ")";
  }
}

module RustRenamer {
  import opened Strings
  import opened Patterns
  import opened Formatting

  /** `common_substitutes` (src/renamer.rs:42-55). */
  const RenamerCommonSubstitutes: seq<(seq<char>, seq<char>)> := [
    (" feat ", " feat. "), (" ft. ", " feat. "), (" Feat ", " feat. "),
    (" featuring ", " feat. "), (" Featuring ", " feat. "), ("(feat ", "(feat. "),
    ("(ft. ", "(feat. "), ("(Feat ", "(feat. "), ("(featuring ", "(feat. "),
    ("(Featuring ", "(feat. "), ("!!!", ""), ("...", " ")
  ]

  /** `title_substitutes` (src/renamer.rs:56-65). */
  const RenamerTitleSubstitutes: seq<(seq<char>, seq<char>)> := [
    (" (Original Mix)", ""), ("DJcity ", ""), (" DJcity", ""), ("DJCity ", ""),
    (" DJCity", ""), ("12\"", "12''"), ("Intro - Dirty", "Dirty Intro"),
    ("Intro - Clean", "Clean Intro")
  ]

  /** `regex_substitutes` (src/renamer.rs:66-74), written out: bracket runs,
      `\s+`, `\s{2,}`, `\.{2,}`, `\(\s*?\)` and `(\S)\(`. */
  const RenamerRegexes: seq<seq<char> -> seq<char>> := [
    s => ReplaceRuns(s, IsOpenBracket, 1, "("),
    s => ReplaceRuns(s, IsCloseBracket, 1, ")"),
    s => ReplaceRuns(s, IsSpace, 1, " "),
    s => ReplaceRuns(s, IsSpace, 2, " "),
    s => ReplaceRuns(s, IsDot, 2, "."),
    s => DropEmptyGroups(s, IsSpace),
    s => SpaceBeforeOpen(s, IsSpace)
  ]

  lemma RenamerTablesAreLiteral()
    ensures LiteralTable(RenamerCommonSubstitutes) && LiteralTable(RenamerTitleSubstitutes)
    ensures |RenamerCommonSubstitutes| == 12 && |RenamerTitleSubstitutes| == 8 && |RenamerRegexes| == 7
  {
  }

  /** `Renamer::format_track` (src/renamer.rs:210-236) as written. Each pass
      of the two regex loops starts again from the ORIGINAL field, so every
      earlier result is overwritten: what comes out is the last regex,
      `(\S)\(` to "$1 (", applied once to the input. */
  method FormatTrack(artist: seq<char>, title: seq<char>) returns (a: seq<char>, t: seq<char>)
    ensures a == SpaceBeforeOpen(artist, IsSpace) && t == SpaceBeforeOpen(title, IsSpace)
  {
    RenamerTablesAreLiteral();
    a, t := artist, title;
    for i := 0 to |RenamerCommonSubstitutes|
      invariant a == SubstituteAt(RenamerCommonSubstitutes, artist, i)
    {
      a := ReplaceAll(a, RenamerCommonSubstitutes[i].0, RenamerCommonSubstitutes[i].1);
    }
    for i := 0 to |RenamerCommonSubstitutes|
      invariant t == SubstituteAt(RenamerCommonSubstitutes, title, i)
    {
      t := ReplaceAll(t, RenamerCommonSubstitutes[i].0, RenamerCommonSubstitutes[i].1);
    }
    ghost var t0 := t;
    for i := 0 to |RenamerTitleSubstitutes|
      invariant t == SubstituteAt(RenamerTitleSubstitutes, t0, i)
    {
      t := ReplaceAll(t, RenamerTitleSubstitutes[i].0, RenamerTitleSubstitutes[i].1);
    }
    for i := 0 to |RenamerRegexes|
      invariant i > 0 ==> a == RenamerRegexes[i - 1](artist)
    {
      a := RenamerRegexes[i](artist);
    }
    for i := 0 to |RenamerRegexes|
      invariant i > 0 ==> t == RenamerRegexes[i - 1](title)
    {
      t := RenamerRegexes[i](title);
    }
  }

  /** Text without "(" passes `(\S)\(` unchanged. */
  lemma {:induction false} SpaceBeforeOpenNoParen(s: seq<char>, space: char -> bool)
    requires '(' !in s
    ensures SpaceBeforeOpen(s, space) == s
    decreases |s|
  {
    if s != [] {
      SpaceBeforeOpenNoParen(s[1..], space);
      assert [s[0]] + s[1..] == s;
    }
  }

  /** What `format_track` returns for a field without "(" is the field
      itself: none of the three tables takes effect. */
  lemma FormatTrackKeepsParenFree(artist: seq<char>)
    requires '(' !in artist
    ensures SpaceBeforeOpen(artist, IsSpace) == artist
  {
    SpaceBeforeOpenNoParen(artist, IsSpace);
  }

  /** An artist "A [Remix]" comes back with its square bracket: the bracket
      rule of the regex table is lost. */
  lemma FormatTrackKeepsBracket()
    ensures SpaceBeforeOpen("A [Remix]", IsSpace) == "A [Remix]"
    ensures '[' in SpaceBeforeOpen("A [Remix]", IsSpace)
  {
    var s := "A [Remix]";
    assert '(' !in s;
    SpaceBeforeOpenNoParen(s, IsSpace);
    assert s[2] == '[';
  }

  /** The evidently intended `format_track`: every table is applied to the
      running value, in order. */
  function FormattedTrackField(s: seq<char>, isTitle: bool): seq<char> {
    RenamerTablesAreLiteral();
    var c := SubstituteAt(RenamerCommonSubstitutes, s, 12);
    var c := if isTitle then SubstituteAt(RenamerTitleSubstitutes, c, 8) else c;
    RewriteAt(RenamerRegexes, c, 7)
  }

  /** Corrected `format_track`: the loops thread the running value. */
  method FormatTrackChained(artist: seq<char>, title: seq<char>) returns (a: seq<char>, t: seq<char>)
    ensures a == FormattedTrackField(artist, false) && t == FormattedTrackField(title, true)
    ensures NoneOf(a, IsOpenBracket) && NoneOf(a, IsCloseBracket)
    ensures NoneOf(t, IsOpenBracket) && NoneOf(t, IsCloseBracket)
  {
    RenamerTablesAreLiteral();
    a, t := artist, title;
    for i := 0 to |RenamerCommonSubstitutes|
      invariant a == SubstituteAt(RenamerCommonSubstitutes, artist, i)
      invariant t == SubstituteAt(RenamerCommonSubstitutes, title, i)
    {
      a := ReplaceAll(a, RenamerCommonSubstitutes[i].0, RenamerCommonSubstitutes[i].1);
      t := ReplaceAll(t, RenamerCommonSubstitutes[i].0, RenamerCommonSubstitutes[i].1);
    }
    ghost var t0 := t;
    for i := 0 to |RenamerTitleSubstitutes|
      invariant t == SubstituteAt(RenamerTitleSubstitutes, t0, i)
    {
      t := ReplaceAll(t, RenamerTitleSubstitutes[i].0, RenamerTitleSubstitutes[i].1);
    }
    ghost var a1, t1 := a, t;
    for i := 0 to |RenamerRegexes|
      invariant a == RewriteAt(RenamerRegexes, a1, i) && t == RewriteAt(RenamerRegexes, t1, i)
    {
      a := RenamerRegexes[i](a);
      t := RenamerRegexes[i](t);
    }
    ChainedHasNoBrackets(a1);
    ChainedHasNoBrackets(t1);
  }

  /** After the chained table no square bracket or brace is left. */
  lemma ChainedHasNoBrackets(s: seq<char>)
    ensures NoneOf(RewriteAt(RenamerRegexes, s, 7), IsOpenBracket) && NoneOf(RewriteAt(RenamerRegexes, s, 7), IsCloseBracket)
  {
    ChainedKeepsNoBrackets(s, 7);
  }

  /** From the second pass on, the table has no bracket left to remove and
      adds none. */
  lemma {:induction false} ChainedKeepsNoBrackets(s: seq<char>, n: nat)
    requires 2 <= n <= |RenamerRegexes|
    ensures NoneOf(RewriteAt(RenamerRegexes, s, n), IsOpenBracket) && NoneOf(RewriteAt(RenamerRegexes, s, n), IsCloseBracket)
  {
    if n == 2 {
      var s1 := ReplaceRuns(s, IsOpenBracket, 1, "(");
      assert RewriteAt(RenamerRegexes, s, 1) == s1;
      ReplaceRunsRemoves(s, IsOpenBracket, "(");
      ReplaceRunsRemoves(s1, IsCloseBracket, ")");
      ReplaceRunsKeepsNone(s1, IsCloseBracket, 1, ")", IsOpenBracket);
    } else {
      ChainedKeepsNoBrackets(s, n - 1);
      var p := RewriteAt(RenamerRegexes, s, n - 1);
      if n == 3 {
        ReplaceRunsKeepsNone(p, IsSpace, 1, " ", IsOpenBracket);
        ReplaceRunsKeepsNone(p, IsSpace, 1, " ", IsCloseBracket);
      } else if n == 4 {
        ReplaceRunsKeepsNone(p, IsSpace, 2, " ", IsOpenBracket);
        ReplaceRunsKeepsNone(p, IsSpace, 2, " ", IsCloseBracket);
      } else if n == 5 {
        ReplaceRunsKeepsNone(p, IsDot, 2, ".", IsOpenBracket);
        ReplaceRunsKeepsNone(p, IsDot, 2, ".", IsCloseBracket);
      }
    }
  }
}
