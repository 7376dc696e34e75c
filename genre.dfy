/** Genre clean-up of the Rust renamer (src/genre.rs): trim, drop genres
    shorter than three characters, a literal substitution table, bracket
    and whitespace regexes, a table of case-insensitive genre mappings and
    the reordering "X House" to "House X". */
module Genre {
  import opened Strings
  import opened Patterns
  import opened Formatting

  /** `COMMON_SUBSTITUTES` (src/genre.rs:5-13). */
  const GenreSubstitutes: seq<(seq<char>, seq<char>)> := [
    ("\0", "/"), ("`", "'"), ("\U{00C2}\U{00B4}", "'"), (" ,", ","),
    ("\\", "/"), ("/", " / "), ("\U{FFFD}", " ")
  ]

  /** `REGEX_SUBSTITUTES` (src/genre.rs:15-22): `[\[{]+` to "(", `[\]}]+`
      to ")", `\s{2,}` to " ". */
  function GenreRegexes(s: seq<char>): seq<char> {
    ReplaceRuns(ReplaceRuns(ReplaceRuns(s, IsOpenBracket, 1, "("), IsCloseBracket, 1, ")"), IsSpace, 2, " ")
  }

  /** After the regex table no bracket or brace is left and no two white
      space characters are adjacent. */
  lemma GenreRegexesClean(s: seq<char>)
    ensures NoneOf(GenreRegexes(s), IsOpenBracket) && NoneOf(GenreRegexes(s), IsCloseBracket)
    ensures NoAdjacent(GenreRegexes(s), IsSpace)
  {
    var s1 := ReplaceRuns(s, IsOpenBracket, 1, "(");
    var s2 := ReplaceRuns(s1, IsCloseBracket, 1, ")");
    ReplaceRunsRemoves(s, IsOpenBracket, "(");
    ReplaceRunsRemoves(s1, IsCloseBracket, ")");
    ReplaceRunsKeepsNone(s1, IsCloseBracket, 1, ")", IsOpenBracket);
    ReplaceRunsKeepsNone(s2, IsSpace, 2, " ", IsOpenBracket);
    ReplaceRunsKeepsNone(s2, IsSpace, 2, " ", IsCloseBracket);
    ReplaceRunsNoAdjacent(s2, IsSpace, 2, " ");
  }

  // ---------------------------------------------------------------------
  // GENRE_MAPPINGS: case-insensitive patterns with word boundaries

  /** What follows the literal of a mapping pattern: `\b`, `$` or nothing. */
  datatype Anchor = WordEnd | TextEnd | Anywhere

  /** `(?i)\br\s*[&'n]*\s*b\b`, or `(?i)\b<literal><anchor>`. */
  datatype GenrePattern = RnB | Word(lit: seq<char>, anchor: Anchor)

  predicate IsWordAt(s: seq<char>, i: int) {
    0 <= i < |s| && IsWord(s[i])
  }

  /** `\b` at position `i`: a word character on exactly one side. */
  predicate BoundaryAt(s: seq<char>, i: int) {
    IsWordAt(s, i - 1) != IsWordAt(s, i)
  }

  /** `(?i)` equality of a text character with a pattern character. */
  predicate CaselessEq(c: char, l: char) {
    LowerChar(c) == LowerChar(l)
  }

  predicate CaselessAt(s: seq<char>, i: nat, lit: seq<char>) {
    i + |lit| <= |s| && forall k :: 0 <= k < |lit| ==> CaselessEq(s[i + k], lit[k])
  }

  /** `[&'n]` under `(?i)`. */
  predicate IsRnbLink(c: char) { c == '&' || c == '\'' || c == 'n' || c == 'N' }

  /** The end of the match of `p` that starts at `i`, if there is one. Each
      pattern has at most one: for R&B the greedy runs cannot give back a
      character that the next part could use. */
  function MatchAt(s: seq<char>, i: nat, p: GenrePattern): (r: Option<nat>)
    requires i < |s|
    ensures r.Some? ==> i < r.value <= |s| && BoundaryAt(s, i)
  {
    if !BoundaryAt(s, i) then None
    else
      match p
      case RnB =>
        if s[i] != 'r' && s[i] != 'R' then None
        else
          var p1 := i + 1 + RunLen(s[i + 1..], IsSpace);
          var p2 := p1 + RunLen(s[p1..], IsRnbLink);
          var p3 := p2 + RunLen(s[p2..], IsSpace);
          if p3 < |s| && (s[p3] == 'b' || s[p3] == 'B') && BoundaryAt(s, p3 + 1) then Some(p3 + 1) else None
      case Word(lit, anchor) =>
        if lit == [] || !CaselessAt(s, i, lit) then None
        else
          var e := i + |lit|;
          match anchor
          case WordEnd => if BoundaryAt(s, e) then Some(e) else None
          case TextEnd => if e == |s| then Some(e) else None
          case Anywhere => Some(e)
  }

  /** `regex.replace_all(s, rep)` from position `from`: leftmost matches,
      scanning on after the end of each one. */
  function ReplaceMatches(s: seq<char>, p: GenrePattern, rep: seq<char>, from: nat): seq<char>
    requires from <= |s|
    decreases |s| - from
  {
    if from == |s| then []
    else
      match MatchAt(s, from, p)
      case Some(e) => rep + ReplaceMatches(s, p, rep, e)
      case None => [s[from]] + ReplaceMatches(s, p, rep, from + 1)
  }

  /** A text with no match anywhere is left as it is. */
  lemma {:induction false} ReplaceMatchesNone(s: seq<char>, p: GenrePattern, rep: seq<char>, from: nat)
    requires from <= |s|
    requires forall i :: from <= i < |s| ==> MatchAt(s, i, p).None?
    ensures ReplaceMatches(s, p, rep, from) == s[from..]
    decreases |s| - from
  {
    if from < |s| {
      ReplaceMatchesNone(s, p, rep, from + 1);
      assert [s[from]] + s[from + 1..] == s[from..];
    }
  }

  /** `GENRE_MAPPINGS` (src/genre.rs:25-36). */
  const GenreMappings: seq<(GenrePattern, seq<char>)> := [
    (RnB, "R&B"),
    (Word("other", WordEnd), ""),
    (Word("Accapella", WordEnd), "Acapella"),
    (Word("Hip Hop", WordEnd), "Hip-Hop"),
    (Word("Hip-Hop 90s", WordEnd), "Hip-Hop 90's"),
    (Word("Hip-Hop 80s", WordEnd), "Hip-Hop 80's"),
    (Word("Hip-Hop 90", TextEnd), "Hip-Hop 90's"),
    (Word("Hip-Hop 80", TextEnd), "Hip-Hop 80's"),
    (Word("90's Hip-Hop", Anywhere), "Hip-Hop 90's"),
    (Word("80's Hip-Hop", Anywhere), "Hip-Hop 80's")
  ]

  /** The first `n` mappings, in order. */
  function MapGenre(s: seq<char>, n: nat): seq<char>
    requires n <= |GenreMappings|
  {
    if n == 0 then s
    else
      var prev := MapGenre(s, n - 1);
      ReplaceMatches(prev, GenreMappings[n - 1].0, GenreMappings[n - 1].1, 0)
  }

  /** None of the first `n` mapping patterns matches anywhere in `s`. */
  predicate NoMapping(s: seq<char>, n: nat)
    requires n <= |GenreMappings|
  {
    forall k, i :: 0 <= k < n && 0 <= i < |s| ==> MatchAt(s, i, GenreMappings[k].0).None?
  }

  /** A genre that no mapping pattern matches passes the mappings as it is. */
  lemma {:induction false} MapGenreNone(s: seq<char>, n: nat)
    requires n <= |GenreMappings| && NoMapping(s, n)
    ensures MapGenre(s, n) == s
    decreases n
  {
    if n > 0 {
      MapGenreNone(s, n - 1);
      ReplaceMatchesNone(s, GenreMappings[n - 1].0, GenreMappings[n - 1].1, 0);
    }
  }

  // ---------------------------------------------------------------------
  // reorder_house_genres

  predicate IsSpaceChar(c: char) { c == ' ' }

  /** `^[^,]* House$`: no comma, and " House" at the very end. */
  predicate IsHouseGenre(s: seq<char>) {
    ',' !in s && EndsWith(s, " House")
  }

  /** `reorder_house_genres` (src/genre.rs:64-71): split at every space and
      put the last piece in front of the others, joined by spaces. */
  function ReorderedHouse(genre: seq<char>): seq<char> {
    if IsHouseGenre(genre) then
      var parts := SplitBy(genre, IsSpaceChar);
      parts[|parts| - 1] + " " + Join(parts[..|parts| - 1], " ")
    else genre
  }

  method ReorderHouseGenres(genre: seq<char>) returns (r: seq<char>)
    ensures r == ReorderedHouse(genre)
  {
    r := genre;
    if IsHouseGenre(genre) {
      var parts := SplitBy(genre, IsSpaceChar);
      r := parts[|parts| - 1] + " " + Join(parts[..|parts| - 1], " ");
    }
  }

  /** Splitting at a space that ends a space-free word peels that word. */
  lemma {:induction false} SplitBySpaceAfter(a: seq<char>, rest: seq<char>)
    requires ' ' !in a
    ensures SplitBy(a + " " + rest, IsSpaceChar) == [a] + SplitBy(rest, IsSpaceChar)
    decreases |a|
  {
    if a == [] {
      assert [] + " " + rest == [' '] + rest;
      assert ([' '] + rest)[1..] == rest;
    } else {
      SplitBySpaceAfter(a[1..], rest);
      assert (a + " " + rest)[1..] == a[1..] + " " + rest;
      assert [a[0]] + a[1..] == a;
    }
  }

  /** Splitting words joined by spaces gives the words back. */
  lemma {:induction false} SplitJoin(words: seq<seq<char>>)
    requires |words| >= 1
    requires forall k :: 0 <= k < |words| ==> ' ' !in words[k]
    ensures SplitBy(Join(words, " "), IsSpaceChar) == words
    decreases |words|
  {
    if |words| == 1 {
      SplitByNone(words[0], IsSpaceChar);
    } else {
      SplitJoin(words[1..]);
      SplitBySpaceAfter(words[0], Join(words[1..], " "));
      assert [words[0]] + words[1..] == words;
    }
  }

  /** Appending a word to the list appends it after a space. */
  lemma {:induction false} JoinSnoc(words: seq<seq<char>>, w: seq<char>)
    requires |words| >= 1
    ensures Join(words + [w], " ") == Join(words, " ") + " " + w
    decreases |words|
  {
    if |words| > 1 {
      JoinSnoc(words[1..], w);
      assert (words + [w])[1..] == words[1..] + [w];
    }
  }

  /** A character in none of the words is not in their join by spaces. */
  lemma {:induction false} JoinAbsent(words: seq<seq<char>>, c: char)
    requires c != ' ' && forall k :: 0 <= k < |words| ==> c !in words[k]
    ensures c !in Join(words, " ")
    decreases |words|
  {
    if |words| > 1 {
      JoinAbsent(words[1..], c);
    }
  }

  /** The pieces of a house genre: the reordering in terms of the split. */
  lemma ReorderedFromParts(g: seq<char>, all: seq<seq<char>>)
    requires IsHouseGenre(g) && |all| >= 1 && SplitBy(g, IsSpaceChar) == all
    ensures ReorderedHouse(g) == all[|all| - 1] + " " + Join(all[..|all| - 1], " ")
  {
  }

  /** Words without spaces or commas, then "House", joined by spaces, form
      a house genre. */
  lemma HouseGenreOfWords(words: seq<seq<char>>)
    requires |words| >= 1
    requires forall k :: 0 <= k < |words| ==> ',' !in words[k]
    ensures IsHouseGenre(Join(words + ["House"], " "))
  {
    HouseWordsNoComma(words);
    HouseWordsSuffix(words);
  }

  lemma HouseWordsNoComma(words: seq<seq<char>>)
    requires forall k :: 0 <= k < |words| ==> ',' !in words[k]
    ensures ',' !in Join(words + ["House"], " ")
  {
    var all := words + ["House"];
    forall k | 0 <= k < |all| ensures ',' !in all[k] {
      if k < |words| {
        assert all[k] == words[k];
      }
    }
    JoinAbsent(all, ',');
  }

  lemma HouseWordsSuffix(words: seq<seq<char>>)
    requires |words| >= 1
    ensures EndsWith(Join(words + ["House"], " "), " House")
  {
    JoinEndsWithLast(words, "House");
    assert " " + "House" == " House";
  }

  /** The join ends with a space and the last word. */
  lemma JoinEndsWithLast(words: seq<seq<char>>, w: seq<char>)
    requires |words| >= 1
    ensures EndsWith(Join(words + [w], " "), " " + w)
  {
    JoinSnoc(words, w);
    EndsWithJoined(Join(words + [w], " "), Join(words, " "), " ", w);
  }

  /** Words without spaces or commas followed by "House" come out as
      "House" and then the same words in the same order. */
  lemma HouseMovesToFront(words: seq<seq<char>>)
    requires |words| >= 1
    requires forall k :: 0 <= k < |words| ==> ' ' !in words[k] && ',' !in words[k]
    ensures ReorderedHouse(Join(words + ["House"], " ")) == "House" + " " + Join(words, " ")
  {
    var all := words + ["House"];
    assert forall k :: 0 <= k < |all| ==> ' ' !in all[k] by {
      forall k | 0 <= k < |all| ensures ' ' !in all[k] {
        if k < |words| {
          assert all[k] == words[k];
        }
      }
    }
    HouseGenreOfWords(words);
    SplitJoin(all);
    ReorderedFromParts(Join(all, " "), all);
    assert all[..|all| - 1] == words;
  }

  // ---------------------------------------------------------------------
  // format_genre

  /** The trimmed genre, or "" when it has fewer than three characters. */
  function CutGenre(genre: seq<char>): (r: seq<char>)
    ensures r == [] || |r| >= 3
  {
    var t := Trim(genre);
    if |t| < 3 then [] else t
  }

  lemma GenreTablesAreLiteral()
    ensures LiteralTable(GenreSubstitutes)
    ensures |GenreSubstitutes| == 7 && |GenreMappings| == 10
  {
  }

  /** Entries 4 and 5 of the table run in order: a backslash first becomes
      "/", and then every "/" becomes " / ". Together they space out every
      backslash and every "/" alike. */
  lemma {:induction false} SlashesSpaced(s: seq<char>)
    ensures ReplaceAll(ReplaceAll(s, "\\", "/"), "/", " / ")
         == ReplaceAll(ReplaceAll(s, "/", " / "), "\\", " / ")
    decreases |s|
  {
    if s != [] {
      var x, rest := s[0], s[1..];
      SlashesSpaced(rest);
      ReplaceCharStep(s, '\\', "/");
      ReplaceCharStep(s, '/', " / ");
      var u := ReplaceAll(rest, "\\", "/");
      var v := ReplaceAll(rest, "/", " / ");
      if x == '\\' {
        ReplaceAllHere("/", u, " / ");
        ReplaceAllHere("\\", v, " / ");
      } else if x == '/' {
        ReplaceAllHere("/", u, " / ");
        ReplaceAllSkip(" / ", v, "\\", " / ");
      } else {
        ReplaceAllSkip([x], u, "/", " / ");
        ReplaceAllSkip([x], v, "\\", " / ");
      }
    }
  }

  /** On a genre where the first four entries of the table (NUL, backtick,
      "Â´", " ,") do not occur, the table puts " / " in place of every
      backslash and every "/", and a space in place of every U+FFFD; every
      other character is kept. */
  lemma GenreSubstitutesSpaces(s: seq<char>)
    requires LiteralTable(GenreSubstitutes)
    requires forall i :: 0 <= i < 4 ==> !Contains(s, GenreSubstitutes[i].0)
    ensures SubstituteAt(GenreSubstitutes, s, 7)
         == ReplaceAll(ReplaceAll(ReplaceAll(s, "/", " / "), "\\", " / "), "\U{FFFD}", " ")
  {
    SubstituteAtNone(GenreSubstitutes, s, 4);
    assert SubstituteAt(GenreSubstitutes, s, 5) == ReplaceAll(s, "\\", "/");
    assert SubstituteAt(GenreSubstitutes, s, 6) == ReplaceAll(SubstituteAt(GenreSubstitutes, s, 5), "/", " / ");
    SlashesSpaced(s);
  }

  /** The value of `format_genre` (src/genre.rs:41-62). */
  function FormattedGenre(genre: seq<char>): seq<char> {
    GenreTablesAreLiteral();
    ReorderedHouse(MapGenre(GenreRegexes(SubstituteAt(GenreSubstitutes, CutGenre(genre), 7)), 10))
  }

  /** `format_genre` (src/genre.rs:41-62): the tables applied in order to the
      running value, then the house reordering. */
  method FormatGenre(genre: seq<char>) returns (g: seq<char>)
    ensures g == FormattedGenre(genre)
  {
    GenreTablesAreLiteral();
    g := Trim(genre);
    if |g| < 3 {
      g := [];
    }
    g := SubstituteGenre(g);
    g := ReplaceRuns(g, IsOpenBracket, 1, "(");
    g := ReplaceRuns(g, IsCloseBracket, 1, ")");
    g := ReplaceRuns(g, IsSpace, 2, " ");
    g := MapGenres(g);
    g := ReorderHouseGenres(g);
  }

  /** The loop over `COMMON_SUBSTITUTES`. */
  method SubstituteGenre(s: seq<char>) returns (g: seq<char>)
    ensures g == SubstituteAt(GenreSubstitutes, s, |GenreSubstitutes|)
  {
    g := s;
    for i := 0 to |GenreSubstitutes|
      invariant g == SubstituteAt(GenreSubstitutes, s, i)
    {
      g := ReplaceAll(g, GenreSubstitutes[i].0, GenreSubstitutes[i].1);
    }
  }

  /** The loop over `GENRE_MAPPINGS`: a genre that none of the patterns
      matches anywhere comes out unchanged. */
  method MapGenres(s: seq<char>) returns (g: seq<char>)
    ensures g == MapGenre(s, |GenreMappings|)
    ensures NoMapping(s, |GenreMappings|) ==> g == s
  {
    g := s;
    for i := 0 to |GenreMappings|
      invariant g == MapGenre(s, i)
    {
      g := ReplaceMatches(g, GenreMappings[i].0, GenreMappings[i].1, 0);
    }
    if NoMapping(s, |GenreMappings|) {
      MapGenreNone(s, |GenreMappings|);
    }
  }

  // ---------------------------------------------------------------------
  // Properties

  /** Every stage keeps the empty text empty. */
  lemma {:induction false} SubstituteEmpty(n: nat)
    requires n <= 7
    ensures SubstituteAt(GenreSubstitutes, [], n) == []
  {
    GenreTablesAreLiteral();
    if n > 0 {
      SubstituteEmpty(n - 1);
      ReplaceAllNone([], GenreSubstitutes[n - 1].0, GenreSubstitutes[n - 1].1);
    }
  }

  lemma {:induction false} MapEmpty(n: nat)
    requires n <= 10
    ensures MapGenre([], n) == []
  {
    if n > 0 {
      MapEmpty(n - 1);
    }
  }

  /** A genre with fewer than three characters after trimming becomes "". */
  lemma ShortGenreIsDropped(genre: seq<char>)
    requires |Trim(genre)| < 3
    ensures FormattedGenre(genre) == []
  {
    SubstituteEmpty(7);
    MapEmpty(10);
  }
}

module GenreExamples {
  import opened Strings
  import opened Patterns
  import opened Formatting
  import opened Genre

  /** "Rnb" and "R'n'B" are both spellings of R&B. */
  lemma RnbSpellings()
    ensures ReplaceMatches("Rnb", RnB, "R&B", 0) == "R&B"
    ensures ReplaceMatches("R'n'B", RnB, "R&B", 0) == "R&B"
  {
    var s: seq<char> := "Rnb";
    assert RunLen(s[1..], IsSpace) == 0;
    assert RunLen(s[1..], IsRnbLink) == 1;
    assert RunLen(s[2..], IsSpace) == 0;
    assert MatchAt(s, 0, RnB) == Some(3);
    var t: seq<char> := "R'n'B";
    assert RunLen(t[1..], IsSpace) == 0;
    assert t[1..] == "'n'B" && t[2..] == "n'B" && t[3..] == "'B" && t[4..] == "B";
    assert RunLen("B", IsRnbLink) == 0;
    assert RunLen("'B", IsRnbLink) == 1;
    assert RunLen("n'B", IsRnbLink) == 2;
    assert RunLen(t[1..], IsRnbLink) == 3;
    assert RunLen(t[4..], IsSpace) == 0;
    assert MatchAt(t, 0, RnB) == Some(5);
  }

  /** Behind the genre test "Hip  Hop": the regex table collapses the
      double space. */
  lemma HipHopSpacesCollapse(hip: seq<char>, sp: seq<char>)
    requires hip == "Hip" && sp == "  Hop"
    ensures GenreRegexes(hip + sp) == "Hip Hop"
  {
    NoBracketsLeft(hip + sp);
    SpacesBeforeHop(sp);
    assert NoneOf(hip, IsSpace);
    ReplaceRunsAfter(hip, sp, IsSpace, 2, " ");
  }

  lemma NoBracketsLeft(s: seq<char>)
    requires s == "Hip" + "  Hop"
    ensures ReplaceRuns(ReplaceRuns(s, IsOpenBracket, 1, "("), IsCloseBracket, 1, ")") == s
  {
    assert NoneOf(s, IsOpenBracket) && NoneOf(s, IsCloseBracket);
    ReplaceRunsNone(s, IsOpenBracket, 1, "(");
    ReplaceRunsNone(s, IsCloseBracket, 1, ")");
  }

  lemma SpacesBeforeHop(sp: seq<char>)
    requires sp == "  Hop"
    ensures ReplaceRuns(sp, IsSpace, 2, " ") == " Hop"
  {
    var hop: seq<char> := "Hop";
    assert NoneOf(hop, IsSpace);
    ReplaceRunsNone(hop, IsSpace, 2, " ");
    assert RunLen(sp, IsSpace) == 2 by {
      assert sp[1..] == " Hop" && sp[2..] == hop;
    }
    assert sp[2..] == hop;
  }

  /** The mapping `\bHip Hop\b` turns "Hip Hop" into "Hip-Hop". */
  lemma HipHopMapped()
    ensures ReplaceMatches("Hip Hop", Word("Hip Hop", WordEnd), "Hip-Hop", 0) == "Hip-Hop"
  {
    var h: seq<char> := "Hip Hop";
    assert CaselessAt(h, 0, "Hip Hop");
    assert BoundaryAt(h, 0) && BoundaryAt(h, 7);
    assert MatchAt(h, 0, Word("Hip Hop", WordEnd)) == Some(7);
  }

  /** The mapping `\bother\b` deletes the genre "other", as the genre test
      " other " expects after trimming. */
  lemma OtherMapped()
    ensures ReplaceMatches("other", Word("other", WordEnd), "", 0) == ""
  {
    var o: seq<char> := "other";
    assert CaselessAt(o, 0, "other");
    assert BoundaryAt(o, 0) && BoundaryAt(o, 5);
    assert MatchAt(o, 0, Word("other", WordEnd)) == Some(5);
  }

  /** Test "Hip\\Hop": the backslash becomes " / ". */
  lemma BackslashSpaced()
    ensures SubstituteAt(GenreSubstitutes, "Hip\\Hop", 7) == "Hip / Hop"
  {
    var hip: seq<char> := "Hip";
    var hop: seq<char> := "Hop";
    OneCharSpaced(hip, '\\', hop);
    assert hip + "\\" + hop == "Hip\\Hop";
    assert hip + " / " + hop == "Hip / Hop";
  }

  /** Test "Jazz\U{FFFD}Blues": the replacement character becomes a space. */
  lemma ReplacementCharSpaced()
    ensures SubstituteAt(GenreSubstitutes, "Jazz\U{FFFD}Blues", 7) == "Jazz Blues"
  {
    var jazz: seq<char> := "Jazz";
    var blues: seq<char> := "Blues";
    OneCharSpaced(jazz, '\U{FFFD}', blues);
    assert jazz + "\U{FFFD}" + blues == "Jazz\U{FFFD}Blues";
    assert jazz + " " + blues == "Jazz Blues";
  }

  /** Between two words free of the table's characters, one backslash
      becomes " / " and one U+FFFD becomes " ". */
  lemma OneCharSpaced(x: seq<char>, c: char, y: seq<char>)
    requires c == '\\' || c == '\U{FFFD}'
    requires forall d :: d in x + y ==> d != '\0' && d != '`' && d != '\U{00C2}' && d != ' '
    requires forall d :: d in x + y ==> d != '/' && d != '\\' && d != '\U{FFFD}'
    ensures SubstituteAt(GenreSubstitutes, x + [c] + y, 7)
         == x + (if c == '\\' then " / " else " ") + y
  {
    var s := x + [c] + y;
    assert forall d :: d in s ==> d in x + y || d == c;
    NoGenreEntryBefore4(s);
    GenreSubstitutesSpaces(s);
    ReplaceCharAbsent(s, '/', " / ");
    assert forall d :: d in x ==> d in x + y;
    assert forall d :: d in y ==> d in x + y;
    if c == '\\' {
      ReplaceCharOnce(x, c, y, " / ");
      var r := x + " / " + y;
      assert forall d :: d in r ==> d in x + y || d in " / ";
      ReplaceCharAbsent(r, '\U{FFFD}', " ");
    } else {
      ReplaceCharAbsent(s, '\\', " / ");
      ReplaceCharOnce(x, c, y, " ");
    }
  }

  /** A genre without NUL, backtick, "Â" or a space misses the first four
      entries of the table. */
  lemma NoGenreEntryBefore4(s: seq<char>)
    requires '\0' !in s && '`' !in s && '\U{00C2}' !in s && ' ' !in s
    ensures LiteralTable(GenreSubstitutes)
    ensures forall i :: 0 <= i < 4 ==> !Contains(s, GenreSubstitutes[i].0)
  {
    GenreTablesAreLiteral();
    FirstCharAbsent(s, GenreSubstitutes[0].0);
    FirstCharAbsent(s, GenreSubstitutes[1].0);
    FirstCharAbsent(s, GenreSubstitutes[2].0);
    FirstCharAbsent(s, GenreSubstitutes[3].0);
  }

  /** The literal table runs in order, so after it no NUL, backtick,
      backslash or replacement character is left: the backslash became "/"
      before "/" became " / ". */
  lemma GenreSubstitutesRemove(s: seq<char>)
    ensures LiteralTable(GenreSubstitutes) && |GenreSubstitutes| == 7
    ensures var r := SubstituteAt(GenreSubstitutes, s, 7);
      '\0' !in r && '`' !in r && '\\' !in r && '\U{FFFD}' !in r
  {
    GenreTablesAreLiteral();
    SubstituteRemovesChar(GenreSubstitutes, s, 0, 7);
    SubstituteRemovesChar(GenreSubstitutes, s, 1, 7);
    SubstituteRemovesChar(GenreSubstitutes, s, 4, 7);
    SubstituteRemovesChar(GenreSubstitutes, s, 6, 7);
  }
}
