/** The Python normaliser, `TrackFormatter` in rename/formatter.py. Its
    character scans (the closing and opening passes and the flattener) are
    in module Parens; the tables, the regex substitutions, the clean and
    dirty suffixes, its own mix, featuring, wrap and BPM helpers,
    `format_filename` and the orchestrator `format_tags` are modelled here.
    Python's `\s`, `str.strip` and `str.split` use `IsPySpace`. */
module PyFormatter {
  import opened Strings
  import opened Patterns
  import opened Parens
  import opened Formatting
  import opened EarlyFormatter

  // ---------------------------------------------------------------------
  // Tables

  /** `common_substitutes` (rename/formatter.py:10-33), applied to both
      fields. */
  const PyCommonSubstitutes: seq<(seq<char>, seq<char>)> := [
    (" feat ", " feat. "), (" ft. ", " feat. "), (" Feat ", " feat. "),
    (" featuring ", " feat. "), (" Featuring ", " feat. "), ("(feat ", "(feat. "),
    ("(ft. ", "(feat. "), ("(Feat ", "(feat. "), ("(featuring ", "(feat. "),
    ("(Featuring ", "(feat. "), (") - (", ""), (" - (", " ("), ("(- ", "("),
    ("( - ", "("), (" -)", " )"), (" - ) ", ")"), ("!!!", ""), ("...", " "),
    ("..", " "), (" ***", ""), (" **", ""), (" * ", "")
  ]

  /** `title_substitutes` (rename/formatter.py:34-62), applied to the title. */
  const PyTitleSubstitutes: seq<(seq<char>, seq<char>)> := [
    (" (Original Mix)", ""), (" DJcity", ""), (" DJCity", ""), ("(DJcity - ", "("),
    ("DJcity ", ""), ("DJCity ", ""), ("12\"", "12''"), ("Intro - Dirty", "Dirty Intro"),
    ("Intro - Clean", "Clean Intro"), ("Acap - DIY", "Acapella DIY"),
    ("(Acap)", "(Acapella)"), ("Acap ", "Acapella "), ("(Inst)", "(Instrumental)"),
    (" 12 Inch ", " 12'' "), ("(12 Inch ", "(12'' "), (" 12in ", " 12'' "),
    ("(12in ", "(12'' "), ("(7in ", "(7'' "), (" 7in ", " 7'' "),
    ("Intro/Outro", "Intro-Outro"), (" In/Out", " Intro-Outro"),
    ("In/Out ", "Intro-Outro "), ("Aca In/Aca Out", "Acapella In-Out"),
    ("Intro/Outro", "Intro"), ("Intro-Outro", "Intro"), ("In+Out", "In-Out"),
    ("In+out", "In-Out")
  ]

  lemma PyTablesAreLiteral()
    ensures LiteralTable(PyCommonSubstitutes) && LiteralTable(PyTitleSubstitutes)
    ensures |PyCommonSubstitutes| == 22 && |PyTitleSubstitutes| == 27
  {
  }

  // ---------------------------------------------------------------------
  // Character classes

  /** White space other than the plain space. */
  predicate IsOtherSpace(c: char) { IsPySpace(c) && c != ' ' }

  lemma OnlyAsNoneOf(s: seq<char>)
    ensures OnlyAs(s, IsPySpace, ' ') <==> NoneOf(s, IsOtherSpace)
  {
  }

  // ---------------------------------------------------------------------
  // regex_substitutes (rename/formatter.py:63-71)

  /** The seven regex substitutions, in order. Afterwards no square bracket
      or brace is left and the only white space is the plain space. */
  function PyRegexSubstitutes(s: seq<char>): seq<char> {
    var s1 := ReplaceRuns(s, IsOpenBracket, 1, "(");
    var s2 := ReplaceRuns(s1, IsCloseBracket, 1, ")");
    var s3 := ReplaceRuns(s2, IsPySpace, 1, " ");
    var s4 := ReplaceRuns(s3, IsPySpace, 2, " ");
    var s5 := ReplaceRuns(s4, IsDot, 2, ".");
    SpaceBeforeOpen(DropEmptyGroups(s5, IsPySpace), IsPySpace)
  }

  /** After the table no other bracket and no white space but ' ' is left. */
  lemma PyRegexSubstitutesClean(s: seq<char>)
    ensures var r := PyRegexSubstitutes(s);
            NoneOf(r, IsOpenBracket) && NoneOf(r, IsCloseBracket) && OnlyAs(r, IsPySpace, ' ')
  {
    var s3 := ReplaceRuns(ReplaceRuns(ReplaceRuns(s, IsOpenBracket, 1, "("), IsCloseBracket, 1, ")"), IsPySpace, 1, " ");
    BracketsAndSpaceRuns(s);
    var s5 := ReplaceRuns(ReplaceRuns(s3, IsPySpace, 2, " "), IsDot, 2, ".");
    assert NoneOf(s5, IsOpenBracket) && NoneOf(s5, IsCloseBracket) && NoneOf(s5, IsOtherSpace) by {
      ReplaceRunsNoRun(s3, IsPySpace, " ");
      ReplaceRunsKeepsNone(s3, IsDot, 2, ".", IsOpenBracket);
      ReplaceRunsKeepsNone(s3, IsDot, 2, ".", IsCloseBracket);
      ReplaceRunsKeepsNone(s3, IsDot, 2, ".", IsOtherSpace);
    }
    OnlyAsNoneOf(PyRegexSubstitutes(s));
  }

  /** The first three substitutions leave no other bracket, no white space
      but ' ', and no two white space characters together. */
  lemma BracketsAndSpaceRuns(s: seq<char>)
    ensures var s3 := ReplaceRuns(ReplaceRuns(ReplaceRuns(s, IsOpenBracket, 1, "("), IsCloseBracket, 1, ")"), IsPySpace, 1, " ");
            NoneOf(s3, IsOpenBracket) && NoneOf(s3, IsCloseBracket) && NoneOf(s3, IsOtherSpace) && NoAdjacent(s3, IsPySpace)
  {
    var s1 := ReplaceRuns(s, IsOpenBracket, 1, "(");
    var s2 := ReplaceRuns(s1, IsCloseBracket, 1, ")");
    var s3 := ReplaceRuns(s2, IsPySpace, 1, " ");
    assert NoneOf(s2, IsOpenBracket) && NoneOf(s2, IsCloseBracket) by {
      ReplaceRunsRemoves(s, IsOpenBracket, "(");
      ReplaceRunsRemoves(s1, IsCloseBracket, ")");
      ReplaceRunsKeepsNone(s1, IsCloseBracket, 1, ")", IsOpenBracket);
    }
    ReplaceRunsKeepsNone(s2, IsPySpace, 1, " ", IsOpenBracket);
    ReplaceRunsKeepsNone(s2, IsPySpace, 1, " ", IsCloseBracket);
    ReplaceRunsOnly(s2, IsPySpace, " ", ' ');
    ReplaceRunsNoAdjacent(s2, IsPySpace, 1, " ");
    OnlyAsNoneOf(s3);
  }

  // ---------------------------------------------------------------------
  // format_filename (rename/formatter.py:72-77, 135-144)

  /** `[<>|!]`: characters that are deleted. */
  predicate IsPyDropped(c: char) { c == '<' || c == '>' || c == '|' || c == '!' }

  /** `[\\/:\*\?]`: characters that each become "-". */
  predicate IsPyDashed(c: char) { c == '\\' || c == '/' || c == ':' || c == '*' || c == '?' }

  function PyDashChar(c: char): seq<char> {
    if IsPyDashed(c) then "-" else [c]
  }

  /** One field: stripped, quotes doubled, `[<>|!]+` deleted, each of
      `\ / : * ?` made "-", white space runs made one space. There is no
      final strip. */
  function PyFilenameField(s: seq<char>): seq<char> {
    var quoted := ReplaceAll(PyStrip(s), "\"", "''");
    var dropped := ReplaceRuns(quoted, IsPyDropped, 1, "");
    ReplaceRuns(MapChars(dropped, PyDashChar), IsPySpace, 1, " ")
  }

  predicate PyCleanFilenameField(f: seq<char>) {
    && '"' !in f
    && NoneOf(f, IsPyDropped) && NoneOf(f, IsPyDashed)
    && NoAdjacent(f, IsPySpace) && OnlyAs(f, IsPySpace, ' ')
  }

  /** `format_filename`: no double quote, none of `< > | !` and none of
      `\ / : * ?` is left in either field, and white space comes as single
      spaces. */
  function PyFormatFilename(artist: seq<char>, title: seq<char>): (r: (seq<char>, seq<char>))
    ensures PyCleanFilenameField(r.0) && PyCleanFilenameField(r.1)
  {
    PyFilenameFieldClean(artist);
    PyFilenameFieldClean(title);
    (PyFilenameField(artist), PyFilenameField(title))
  }

  /** Mapping each character keeps a class out when no image brings one in. */
  lemma {:induction false} MapCharsKeepsNone(s: seq<char>, f: char -> seq<char>, q: char -> bool)
    requires forall c :: !q(c) ==> NoneOf(f(c), q)
    requires forall c :: q(c) ==> NoneOf(f(c), q) || c !in s
    ensures NoneOf(MapChars(s, f), q)
    decreases |s|
  {
    if s != [] {
      assert forall c :: c in s[1..] ==> c in s;
      MapCharsKeepsNone(s[1..], f, q);
      var r := MapChars(s, f);
      var head := f(s[0]);
      assert r == head + MapChars(s[1..], f);
      assert NoneOf(head, q);
    }
  }

  lemma PyFilenameFieldClean(s: seq<char>)
    ensures PyCleanFilenameField(PyFilenameField(s))
  {
    var quoted := ReplaceAll(PyStrip(s), "\"", "''");
    var dropped := ReplaceRuns(quoted, IsPyDropped, 1, "");
    PyDropKeepsClean(PyStrip(s));
    PyDashKeepsClean(dropped);
    PyCollapseKeepsClean(MapChars(dropped, PyDashChar));
  }

  /** Doubling the quotes and deleting `[<>|!]+` leaves none of either. */
  lemma PyDropKeepsClean(s: seq<char>)
    ensures var dropped := ReplaceRuns(ReplaceAll(s, "\"", "''"), IsPyDropped, 1, "");
      '"' !in dropped && NoneOf(dropped, IsPyDropped)
  {
    var quoted := ReplaceAll(s, "\"", "''");
    ReplaceAllRemovesChar(s, '"', "''");
    ReplaceRunsKeepsAbsent(quoted, IsPyDropped, 1, "", '"');
    ReplaceRunsRemoves(quoted, IsPyDropped, "");
  }

  /** Dashing keeps quotes and deleted characters out and leaves none of
      the dashed ones. */
  lemma PyDashKeepsClean(dropped: seq<char>)
    requires '"' !in dropped && NoneOf(dropped, IsPyDropped)
    ensures var dashed := MapChars(dropped, PyDashChar);
      '"' !in dashed && NoneOf(dashed, IsPyDropped) && NoneOf(dashed, IsPyDashed)
  {
    MapCharsKeepsNone(dropped, PyDashChar, IsPyDropped);
    MapCharsKeepsNone(dropped, PyDashChar, IsPyDashed);
    MapCharsKeepsNone(dropped, PyDashChar, c => c == '"');
  }

  /** Collapsing white space keeps out what was out. */
  lemma PyCollapseKeepsClean(dashed: seq<char>)
    requires '"' !in dashed && NoneOf(dashed, IsPyDropped) && NoneOf(dashed, IsPyDashed)
    ensures PyCleanFilenameField(ReplaceRuns(dashed, IsPySpace, 1, " "))
  {
    var sp: seq<char> := " ";
    assert NoneOf(sp, IsPyDropped) && NoneOf(sp, IsPyDashed) && OnlyAs(sp, IsPySpace, ' ');
    assert NoAdjacent(sp, IsPySpace);
    ReplaceRunsKeepsAbsent(dashed, IsPySpace, 1, sp, '"');
    ReplaceRunsKeepsNone(dashed, IsPySpace, 1, sp, IsPyDropped);
    ReplaceRunsKeepsNone(dashed, IsPySpace, 1, sp, IsPyDashed);
    ReplaceRunsNoAdjacent(dashed, IsPySpace, 1, sp);
    ReplaceRunsOnly(dashed, IsPySpace, sp, ' ');
  }

  /** On a field with no quote, no deleted character and no white space,
      each of `\ / : * ?` becomes its own "-" and every other character stays:
      a run of them is not merged, unlike src/formatter.rs. */
  lemma PyFilenameDashesEachChar(s: seq<char>)
    requires '"' !in s && NoneOf(s, IsPyDropped) && NoneOf(s, IsPySpace)
    ensures |PyFilenameField(s)| == |s|
    ensures forall i :: 0 <= i < |s| ==> PyFilenameField(s)[i] == (if IsPyDashed(s[i]) then '-' else s[i])
  {
    assert PyStrip(s) == s;
    ReplaceAllAbsent(s, "\"", "''");
    ReplaceRunsNone(s, IsPyDropped, 1, "");
    var dashed := MapChars(s, PyDashChar);
    MapCharsLength(s, PyDashChar);
    assert NoneOf(dashed, IsPySpace);
    ReplaceRunsNone(dashed, IsPySpace, 1, " ");
  }

  // ---------------------------------------------------------------------
  // replace_clean_suffix / replace_dirty_suffix (rename/formatter.py:161-171)

  /** Python's case-insensitive match of one character against a lower-case
      ASCII letter: the letter in either case and, for 'i', also U+0130 and
      U+0131, which Python's case-insensitive matching pairs with it. */
  predicate CaseMatch(c: char, w: char) {
    LowerChar(c) == w || (w == 'i' && (c == '\U{130}' || c == '\U{131}'))
  }

  /** `word` (lower-case ASCII) matches at `k`, in any case. */
  predicate WordAt(s: seq<char>, k: nat, word: seq<char>) {
    k + |word| <= |s| && forall i :: 0 <= i < |word| ==> CaseMatch(s[k + i], word[i])
  }

  /** `\s*-\s*`, matched as a whole: white space, one '-', white space. */
  predicate DashRun(x: seq<char>) {
    var a := RunLen(x, IsPySpace);
    a < |x| && x[a] == '-' && RunLen(x[a + 1..], IsPySpace) == |x| - a - 1
  }

  /** `\s*-\s*<word>$` matches from `k`. */
  predicate SuffixAt(s: seq<char>, k: nat, word: seq<char>) {
    k + |word| < |s| && WordAt(s, |s| - |word|, word) && DashRun(s[k..|s| - |word|])
  }

  function SuffixPattern(word: seq<char>): (seq<char>, nat) -> bool {
    (s: seq<char>, k: nat) => SuffixAt(s, k, word)
  }

  /** The substitution: from the leftmost start of a match on, the text is
      replaced by `rep`. Only a text ending in `word` changes, and it then
      ends in `rep`. */
  function ReplaceSuffix(text: seq<char>, word: seq<char>, rep: seq<char>): (r: seq<char>)
    ensures r != text ==> |text| > |word| && WordAt(text, |text| - |word|, word) && EndsWith(r, rep)
  {
    match FirstAnchored(text, 0, SuffixPattern(word))
    case None => text
    case Some(k) =>
      assert (text[..k] + rep)[k..] == rep;
      text[..k] + rep
  }

  function ReplaceCleanSuffix(text: seq<char>): seq<char> {
    ReplaceSuffix(text, "clean", " (Clean)")
  }

  function ReplaceDirtySuffix(text: seq<char>): seq<char> {
    ReplaceSuffix(text, "dirty", " (Dirty)")
  }

  /** A title, then white space, a dash and white space, then the word in
      any case: the whole tail after the title becomes `rep`. */
  lemma ReplacesSuffix(t: seq<char>, d: seq<char>, w: seq<char>, word: seq<char>, rep: seq<char>)
    requires DashRun(d) && |w| == |word| && WordAt(w, 0, word)
    requires t == [] || (!IsPySpace(t[|t| - 1]) && t[|t| - 1] != '-')
    ensures ReplaceSuffix(t + d + w, word, rep) == t + rep
  {
    var s := t + d + w;
    var p := SuffixPattern(word);
    assert s[|t|..|s| - |word|] == d;
    assert WordAt(s, |s| - |word|, word) by {
      forall i | 0 <= i < |word| ensures CaseMatch(s[|s| - |word| + i], word[i]) {
        assert s[|s| - |word| + i] == w[i];
      }
    }
    assert p(s, |t|);
    forall k | 0 <= k < |t| ensures !p(s, k) {
      var x := s[k..|s| - |word|];
      var j := |t| - 1 - k;
      assert x[j] == t[|t| - 1];
      var a := RunLen(x, IsPySpace);
      assert a <= j;
      if a < |x| && x[a] == '-' {
        var y := x[a + 1..];
        assert y[j - a - 1] == x[j];
        assert RunLen(y, IsPySpace) <= j - a - 1;
      }
    }
    assert s[..|t|] == t;
  }

  // ---------------------------------------------------------------------
  // use_parenthesis_for_mix (rename/formatter.py:218-230)

  /** `\([^()]+-[^()]+\)` matches from `i` to `e`, with its '-' at `j`. */
  predicate DashGroupAt(s: seq<char>, i: nat, j: nat, e: nat) {
    && i + 1 < j < e - 1 && e < |s| && s[i] == '(' && s[j] == '-' && s[e] == ')'
    && forall m :: i < m < e ==> s[m] != '(' && s[m] != ')'
  }

  predicate HasDashGroup(s: seq<char>) {
    exists i, j, e | 0 <= i < j < e < |s| :: DashGroupAt(s, i, j, e)
  }

  /** `use_parenthesis_for_mix`: with a " - " and no group like "(a-b)", the
      first " (" after the " - " gets a ")" in front of it (or the title
      gets one at the end), then the first " - " becomes " (". Otherwise the
      title is unchanged. Exactly one ")" is added. */
  function PyUseParenthesisForMix(title: seq<char>): seq<char> {
    if Contains(title, " - ") && !HasDashGroup(title) then PyMixRewrite(title, Find(title, " - ").value)
    else title
  }

  /** The rewrite once the first " - " is at `index`. */
  function PyMixRewrite(title: seq<char>, index: nat): seq<char>
    requires index <= |title|
  {
    ReplaceFirst(PyMixClose(title, index), " - ", " (")
  }

  /** The ")" goes before the first " (" after `index`, or at the end. */
  function PyMixClose(title: seq<char>, index: nat): seq<char>
    requires index <= |title|
  {
    var tail := title[index..];
    if Contains(tail, " (") then title[..index] + ReplaceFirst(tail, " (", ") (") else title + ")"
  }

  /** The title is unchanged unless it has a " - " and no dash group; then
      exactly one ")" is added. */
  lemma PyMixAddsOneClose(title: seq<char>)
    ensures !Contains(title, " - ") || HasDashGroup(title) ==> PyUseParenthesisForMix(title) == title
    ensures Contains(title, " - ") && !HasDashGroup(title) ==>
      Count(PyUseParenthesisForMix(title), ')') == Count(title, ')') + 1
  {
    if Contains(title, " - ") {
      var index := Find(title, " - ").value;
      PyMixCloseCount(title, index);
      DashToParenKeepsCount(PyMixClose(title, index));
    }
  }

  lemma PyMixCloseCount(title: seq<char>, index: nat)
    requires index <= |title|
    ensures Count(PyMixClose(title, index), ')') == Count(title, ')') + 1
  {
    var tail := title[index..];
    if Contains(tail, " (") {
      InsertCloseCount(title[..index], tail);
      assert title == title[..index] + tail;
    } else {
      CountAppend(title, ")", ')');
    }
  }

  lemma InsertCloseCount(head: seq<char>, tail: seq<char>)
    requires Contains(tail, " (")
    ensures Count(head + ReplaceFirst(tail, " (", ") ("), ')') == Count(head + tail, ')') + 1
  {
    CountAppend(head, tail, ')');
    ReplaceFirstCount(tail, " (", ") (", ')');
    CountAppend(head, ReplaceFirst(tail, " (", ") ("), ')');
    CountAbsent(" (", ')');
    assert Count(") (", ')') == 1 by {
      assert ") (" == ")" + " (";
      CountAppend(")", " (", ')');
      assert Count(")", ')') == 1 by {
        assert ")"[..0] == [];
      }
    }
  }

  lemma DashToParenKeepsCount(t: seq<char>)
    ensures Count(ReplaceFirst(t, " - ", " ("), ')') == Count(t, ')')
  {
    ReplaceFirstCount(t, " - ", " (", ')');
    CountAbsent(" - ", ')');
    CountAbsent(" (", ')');
  }

  /** What replacing the first occurrence does to the count of `c`. */
  lemma ReplaceFirstCount(s: seq<char>, pat: seq<char>, rep: seq<char>, c: char)
    ensures Contains(s, pat) ==> Count(ReplaceFirst(s, pat, rep), c) + Count(pat, c) == Count(s, c) + Count(rep, c)
    ensures !Contains(s, pat) ==> ReplaceFirst(s, pat, rep) == s
  {
    if Contains(s, pat) {
      var i := Find(s, pat).value;
      var x := s[..i];
      var y := s[i + |pat|..];
      assert s == x + pat + y;
      CountAppend(x + pat, y, c);
      CountAppend(x, pat, c);
      CountAppend(x + rep, y, c);
      CountAppend(x, rep, c);
    }
  }

  /** The first " - " is where `a` ends when `a` holds no '-'. */
  lemma FirstDashAt(a: seq<char>, rest: seq<char>)
    requires '-' !in a
    ensures Find(a + " - " + rest, " - ") == Some(|a|)
  {
    var s := a + " - " + rest;
    assert OccursAt(s, " - ", |a|) by {
      assert s[|a|..|a| + 3] == " - ";
    }
    forall j | 0 <= j < |a| ensures !OccursAt(s, " - ", j) {
      assert s[j + 1] != '-' by {
        if j + 1 < |a| {
          assert s[j + 1] == a[j + 1];
        } else {
          assert s[j + 1] == ' ';
        }
      }
      if j + 3 <= |s| {
        assert s[j..j + 3][1] == s[j + 1];
      }
    }
  }

  /** The first " (" is at `p` when no '(' comes earlier. */
  lemma FindOpenAt(s: seq<char>, p: nat)
    requires p + 2 <= |s| && s[p] == ' ' && s[p + 1] == '('
    requires forall m :: 1 <= m <= p ==> s[m] != '('
    ensures Find(s, " (") == Some(p)
  {
    assert OccursAt(s, " (", p) by {
      assert s[p..p + 2] == " (";
    }
    forall j | 0 <= j < p ensures !OccursAt(s, " (", j) {
      assert s[j..j + 2][1] == s[j + 1];
    }
  }

  /** A text whose only '-' comes before its first '(' holds no "(a-b)"
      group. */
  lemma NoDashGroupBefore(s: seq<char>, d: nat)
    requires d < |s| && forall m :: 0 <= m < |s| && m != d ==> s[m] != '-'
    requires forall m :: 0 <= m <= d ==> s[m] != '('
    ensures !HasDashGroup(s)
  {
    forall i, j, e | 0 <= i < j < e < |s| ensures !DashGroupAt(s, i, j, e) {
      if j != d {
        assert s[j] != '-';
      } else {
        assert s[i] != '(';
      }
    }
  }

  /** Replacing the first " - " of a text whose head holds no '-'. */
  lemma ReplaceFirstDash(a: seq<char>, rest: seq<char>)
    requires '-' !in a
    ensures Contains(a + " - " + rest, " - ")
    ensures ReplaceFirst(a + " - " + rest, " - ", " (") == a + " (" + rest
  {
    var s := a + " - " + rest;
    FirstDashAt(a, rest);
    assert s[..|a|] == a && s[|a| + 3..] == rest;
  }

  /** The two ways the mix rewrite goes for a title whose first " - " ends
      `a` and that holds no "(a-b)" group. */
  lemma PyMixSplit(a: seq<char>, rest: seq<char>)
    requires '-' !in a && !HasDashGroup(a + " - " + rest)
    ensures var tail := " - " + rest;
      PyUseParenthesisForMix(a + " - " + rest)
      == if Contains(tail, " (") then ReplaceFirst(a + ReplaceFirst(tail, " (", ") ("), " - ", " (")
         else a + " (" + rest + ")"
  {
    var s := a + " - " + rest;
    FirstDashAt(a, rest);
    ContainsAt(s, " - ", |a|);
    assert s[..|a|] == a && s[|a|..] == " - " + rest;
    if !Contains(" - " + rest, " (") {
      assert s + ")" == a + " - " + (rest + ")");
      ReplaceFirstDash(a, rest + ")");
    }
  }

  /** Where '-' and '(' may stand in a title "a - rest" whose head holds
      neither: then it holds no "(a-b)" group. */
  lemma MixNoGroup(a: seq<char>, rest: seq<char>)
    requires '-' !in a && '-' !in rest && NoParens(a)
    ensures !HasDashGroup(a + " - " + rest)
  {
    var s := a + " - " + rest;
    forall m | 0 <= m < |s| && m != |a| + 1 ensures s[m] != '-' {
      if m < |a| {
        assert s[m] == a[m];
      } else if m >= |a| + 3 {
        assert s[m] == rest[m - |a| - 3];
      }
    }
    forall m | 0 <= m <= |a| + 1 ensures s[m] != '(' {
      if m < |a| {
        assert s[m] == a[m];
      }
    }
    NoDashGroupBefore(s, |a| + 1);
  }

  /** "Song - Remix" becomes "Song (Remix)" (no parenthesis in either part,
      no other dash). */
  lemma PyMixWrapsToEnd(a: seq<char>, b: seq<char>)
    requires '-' !in a && '-' !in b && NoParens(a) && NoParens(b)
    ensures PyUseParenthesisForMix(a + " - " + b) == a + " (" + b + ")"
  {
    MixNoGroup(a, b);
    PyMixSplit(a, b);
    var tail := " - " + b;
    forall j | 0 <= j ensures !OccursAt(tail, " (", j) {
      if j + 2 <= |tail| {
        assert tail[j..j + 2][1] == tail[j + 1];
        if j + 1 >= 3 {
          assert tail[j + 1] == b[j - 2];
        }
      }
    }
  }

  /** The mix rewrite of "a - rest" when the first " (" after the dash
      turns " - rest" into " - x". */
  lemma PyMixGroupCase(a: seq<char>, rest: seq<char>, x: seq<char>)
    requires '-' !in a && !HasDashGroup(a + " - " + rest)
    requires Contains(" - " + rest, " (") && ReplaceFirst(" - " + rest, " (", ") (") == " - " + x
    ensures PyUseParenthesisForMix(a + " - " + rest) == a + " (" + x
  {
    PyMixSplit(a, rest);
    assert a + (" - " + x) == a + " - " + x;
    ReplaceFirstDash(a, x);
  }

  /** The first " (" of " - b (c)" when `b` holds no '('. */
  lemma OpenAfterMix(b: seq<char>, c: seq<char>)
    requires '(' !in b
    ensures Contains(" - " + (b + " (" + c), " (")
    ensures ReplaceFirst(" - " + (b + " (" + c), " (", ") (") == " - " + (b + ") (" + c)
  {
    var tail := " - " + (b + " (" + c);
    var p := 3 + |b|;
    FindOpenAt(tail, p) by {
      assert tail[p] == ' ' && tail[p + 1] == '(';
      forall m | 1 <= m <= p ensures tail[m] != '(' {
        if 3 <= m < p {
          assert tail[m] == b[m - 3];
        }
      }
    }
    ContainsAt(tail, " (", p);
    assert tail[..p] == " - " + b && tail[p + 2..] == c;
  }

  /** The first " (" of " - (b)" is right after the dash. */
  lemma OpenRightAfterMix(b: seq<char>)
    ensures Contains(" - " + ("(" + b + ")"), " (")
    ensures ReplaceFirst(" - " + ("(" + b + ")"), " (", ") (") == " -) (" + b + ")"
  {
    var tail := " - " + ("(" + b + ")");
    FindOpenAt(tail, 2) by {
      assert tail[1] == '-' && tail[2] == ' ' && tail[3] == '(';
    }
    ContainsAt(tail, " (", 2);
    assert tail[..2] == " -" && tail[4..] == b + ")";
  }

  /** "a -) (b)" holds no " - " when neither part holds a '-'. */
  lemma NoSpacedDashLeft(a: seq<char>, b: seq<char>)
    requires '-' !in a && '-' !in b
    ensures !Contains(a + " -) (" + b + ")", " - ")
  {
    var t := a + " -) (" + b + ")";
    forall j | 0 <= j ensures !OccursAt(t, " - ", j) {
      if j + 3 <= |t| {
        assert t[j..j + 3][1] == t[j + 1];
        assert t[j..j + 3][2] == t[j + 2];
        if j + 1 < |a| {
          assert t[j + 1] == a[j + 1];
        } else if j + 1 >= |a| + 5 && j + 1 < |t| - 1 {
          assert t[j + 1] == b[j + 1 - |a| - 5];
        }
      }
    }
  }

  lemma ClosesShape(a: seq<char>, b: seq<char>, c: seq<char>)
    ensures a + " - " + b + " (" + c == a + " - " + (b + " (" + c)
    ensures a + " (" + (b + ") (" + c) == a + " (" + b + ") (" + c
    ensures '-' !in a && '-' !in b && '-' !in c ==> '-' !in b + " (" + c
  {
  }

  /** "Song - Remix (Clean)" becomes "Song (Remix) (Clean)": the ")" goes in
      front of the first " (" after the dash. */
  lemma PyMixClosesBeforeGroup(a: seq<char>, b: seq<char>, c: seq<char>)
    requires '-' !in a && '-' !in b && '-' !in c && NoParens(a) && NoParens(b)
    ensures PyUseParenthesisForMix(a + " - " + b + " (" + c) == a + " (" + b + ") (" + c
  {
    ClosesShape(a, b, c);
    MixNoGroup(a, b + " (" + c);
    OpenAfterMix(b, c);
    PyMixGroupCase(a, b + " (" + c, b + ") (" + c);
  }

  lemma BreaksShape(a: seq<char>, b: seq<char>)
    ensures a + " - (" + b + ")" == a + " - " + ("(" + b + ")")
    ensures a + " -) (" + b + ")" == a + (" -) (" + b + ")")
    ensures '-' !in b ==> '-' !in "(" + b + ")"
  {
  }

  /** A dash right before a group, "Song - (Remix)", is not turned into a
      group: the " (" found first is the one just after the dash, so the
      ")" lands between the dash and the group and no " - " is left. */
  lemma PyMixBreaksDashBeforeGroup(a: seq<char>, b: seq<char>)
    requires '-' !in a && '-' !in b && NoParens(a) && NoParens(b)
    ensures PyUseParenthesisForMix(a + " - (" + b + ")") == a + " -) (" + b + ")"
  {
    BreaksShape(a, b);
    MixNoGroup(a, "(" + b + ")");
    PyMixSplit(a, "(" + b + ")");
    OpenRightAfterMix(b);
    NoSpacedDashLeft(a, b);
    ReplaceFirstCount(a + " -) (" + b + ")", " - ", " (", ')');
  }

  // ---------------------------------------------------------------------
  // remove_bpm_in_parentheses_from_end (rename/formatter.py:204-216)

  /** The three end-anchored patterns, each applied to what the previous
      one left, with no exception for " (4U)" or a " Mix)" group. What is
      left is a prefix of the title, and whatever was cut started with
      white space and the title ended in ')'. */
  function PyRemoveBpm(text: seq<char>): (r: seq<char>)
    ensures |r| <= |text| && r == text[..|r|]
    ensures r != text ==> IsSpace(text[|r|]) && text[|text| - 1] == ')'
  {
    var r1 := CutAnchored(text, EarlyInParenthesesAt);
    var r2 := CutAnchored(r1, EarlyWithKeyAt);
    CutAnchored(r2, EarlyWithLettersAt)
  }

  /** A trailing group of two or three digits goes, as in the Rust
      formatter. */
  lemma PyRemovesBpmGroup(t: seq<char>, n: seq<char>)
    requires Digits(n, 2, 3) && (t == [] || t[|t| - 1] != ')')
    ensures PyRemoveBpm(t + " (" + n + ")") == t
  {
    var s := t + " (" + n + ")";
    BpmGroupFirst(t, n);
    assert s[..|t|] == t;
    NoGroupInPlainTitle(t);
  }

  /** Unlike the Rust formatter, a trailing "(89 Mix)" group is removed:
      the letters pattern reads "Mix" as a key. */
  lemma PyRemovesMixGroup(t: seq<char>, n: seq<char>)
    requires Digits(n, 2, 3)
    ensures PyRemoveBpm(t + " (" + n + " Mix)") == t
  {
    var s := t + " (" + n + " Mix)";
    var m := n + " Mix";
    MixBody(n);
    assert s[|t|..] == " (" + m + ")";
    assert s[|t| + 2..|s| - 1] == m;
    assert s[|t| + 1] == '(';
    forall k | 0 <= k <= |s| ensures !EarlyInParenthesesAt(s, k) && !EarlyWithKeyAt(s, k) {
      if k < |t| {
        NoEarlierGroup(s, k, |t| + 1);
      } else if k > |t| {
        NoLaterGroup(s, |t|, k, true);
        NoLaterGroup(s, |t|, k, false);
      }
    }
    assert FirstAnchored(s, 0, EarlyInParenthesesAt).None?;
    assert FirstAnchored(s, 0, EarlyWithKeyAt).None?;
    assert EarlyWithLettersAt(s, |t|);
    forall k | 0 <= k < |t| ensures !EarlyWithLettersAt(s, k) {
      NoEarlierGroup(s, k, |t| + 1);
    }
    assert FirstAnchored(s, 0, EarlyWithLettersAt) == Some(|t|);
    assert s[..|t|] == t;
  }

  // ---------------------------------------------------------------------
  // balance_parenthesis (rename/formatter.py:146-159)

  /** A replacement whose pattern and replacement have the same balance
      keeps the balance of the text. */
  lemma {:induction false} ReplaceAllBal(s: seq<char>, pat: seq<char>, rep: seq<char>)
    requires |pat| > 0 && Bal(pat) == Bal(rep)
    ensures Bal(ReplaceAll(s, pat, rep)) == Bal(s)
    decreases |s|
  {
    if |s| < |pat| {
    } else if s[..|pat|] == pat {
      ReplaceAllBal(s[|pat|..], pat, rep);
      BalAppend(rep, ReplaceAll(s[|pat|..], pat, rep));
      assert s == pat + s[|pat|..];
      BalAppend(pat, s[|pat|..]);
    } else {
      ReplaceAllBal(s[1..], pat, rep);
      BalAppend([s[0]], ReplaceAll(s[1..], pat, rep));
      assert s == [s[0]] + s[1..];
      BalAppend([s[0]], s[1..]);
    }
  }

  /** The four replacements that end `balance_parenthesis`. They keep the
      balance of the title. */
  function PyBalanceCleanup(t: seq<char>): (r: seq<char>)
    ensures Bal(r) == Bal(t)
  {
    var t1 := ReplaceAll(t, ")(", ") (");
    var t2 := ReplaceAll(t1, " )", ")");
    var t3 := ReplaceAll(t2, "( ", "(");
    BalCleanupPatterns();
    ReplaceAllBal(t, ")(", ") (");
    ReplaceAllBal(t1, " )", ")");
    ReplaceAllBal(t2, "( ", "(");
    ReplaceAllBal(t3, "()", "");
    ReplaceAll(t3, "()", "")
  }

  lemma BalCleanupPatterns()
    ensures Bal(")(") == Bal(") (") && Bal(" )") == Bal(")") && Bal("( ") == Bal("(") && Bal("()") == Bal([])
  {
    BalAppend(")", "(");
    BalAppend(") ", "(");
    BalAppend(")", " ");
    BalAppend(" ", ")");
    BalAppend("(", " ");
    BalAppend("(", ")");
    assert ")(" == ")" + "(" && ") (" == ") " + "(" && ") " == ")" + " ";
    assert " )" == " " + ")" && "( " == "(" + " " && "()" == "(" + ")";
  }

  /** The Python balance: the closing pass with ") " when '(' outnumbers
      ')', the Python opening pass with " (" when ')' outnumbers '(', and
      then the cleanup in every case. */
  function PyBalanced(title: seq<char>): (r: seq<char>)
    ensures Count(title, '(') == Count(title, ')') ==> r == PyBalanceCleanup(title) && Bal(r) == 0
    ensures Count(title, '(') > Count(title, ')') ==> Bal(r) == Bal(Render(ClosePieces(title, ") ")))
    ensures Count(title, '(') < Count(title, ')') ==> Bal(r) == Bal(Render(OpenPieces(title, " (")))
  {
    var opens := Count(title, '(');
    var closes := Count(title, ')');
    if opens > closes then PyBalanceCleanup(Render(ClosePieces(title, ") ")))
    else if opens < closes then PyBalanceCleanup(Render(OpenPieces(title, " (")))
    else PyBalanceCleanup(title)
  }

  /** The closing pass never adds a '(' and the cleanup keeps the balance,
      so a title with one unclosed group comes out balanced exactly when
      the pass closed that group. */
  lemma PyBalanceClosingCount(title: seq<char>)
    requires Count(title, '(') > Count(title, ')')
    ensures Count(Render(ClosePieces(title, ") ")), '(') == Count(title, '(')
    ensures Bal(PyBalanced(title)) == Count(title, '(') - Count(Render(ClosePieces(title, ") ")), ')')
  {
    ClosingKeepsOpenCount(title, ") ");
  }

  method PyBalanceParenthesis(title: seq<char>) returns (r: seq<char>)
    ensures r == PyBalanced(title)
  {
    var openCount := Count(title, '(');
    var closeCount := Count(title, ')');
    r := title;
    if openCount > closeCount {
      r := AddMissingClosing(title, ") ");
    } else if openCount < closeCount {
      r := PyAddMissingOpening(title);
    }
    r := ReplaceAll(r, ")(", ") (");
    r := ReplaceAll(r, " )", ")");
    r := ReplaceAll(r, "( ", "(");
    r := ReplaceAll(r, "()", "");
  }

  // ---------------------------------------------------------------------
  // move_feat_from_title_to_artist (rename/formatter.py:232-265)

  /** The end of the lazy `.*?` followed by the lookahead `( -|\(|\)|$)`,
      searching from `p`: the first place where " -", '(' or ')' follows,
      or the end of the text, or a last '\n' (Python's `$`); `.` does not
      cross any other '\n'. */
  function PyFeatTailEnd(s: seq<char>, p: nat): (r: Option<nat>)
    requires p <= |s|
    ensures r.Some? ==> p <= r.value <= |s| && '\n' !in s[p..r.value]
    decreases |s| - p
  {
    if p == |s| then Some(p)
    else if p + 2 <= |s| && s[p] == ' ' && s[p + 1] == '-' then Some(p)
    else if s[p] == '(' || s[p] == ')' then Some(p)
    else if s[p] == '\n' then (if p + 1 == |s| then Some(p) else None)
    else
      var r := PyFeatTailEnd(s, p + 1);
      assert r.Some? ==> s[p..r.value] == [s[p]] + s[p + 1..r.value];
      r
  }

  /** A match of `feat\. .*?(?=…)` starting at `k`: its end. */
  function PyFeatMatchAt(s: seq<char>, k: nat): (r: Option<nat>)
    ensures r.Some? ==> k + 6 <= r.value <= |s| && s[k..k + 6] == "feat. "
  {
    if k + 6 <= |s| && s[k..k + 6] == "feat. " then PyFeatTailEnd(s, k + 6) else None
  }

  /** The leftmost match at or after `k`, as (start, end). */
  function FindPyFeat(s: seq<char>, k: nat): (r: Option<(nat, nat)>)
    requires k <= |s|
    ensures r.Some? ==> k <= r.value.0 && PyFeatMatchAt(s, r.value.0) == Some(r.value.1)
    ensures r.Some? ==> forall j :: k <= j < r.value.0 ==> PyFeatMatchAt(s, j).None?
    ensures r.None? ==> forall j :: k <= j <= |s| ==> PyFeatMatchAt(s, j).None?
    decreases |s| - k
  {
    match PyFeatMatchAt(s, k)
    case Some(e) => Some((k, e))
    case None => if k == |s| then None else FindPyFeat(s, k + 1)
  }

  /** The matched featuring text: it starts with "feat. ", occurs in the
      title and holds no newline. */
  function PyFeatText(title: seq<char>): (r: Option<seq<char>>)
    ensures r.Some? ==> |r.value| >= 6 && r.value[..6] == "feat. " && Contains(title, r.value) && '\n' !in r.value[6..]
    ensures r.None? <==> forall j :: 0 <= j <= |title| ==> PyFeatMatchAt(title, j).None?
  {
    match FindPyFeat(title, 0)
    case None => None
    case Some((start, end)) =>
      var v := title[start..end];
      assert v[..6] == title[start..start + 6];
      assert v[6..] == title[start + 6..end];
      ContainsAt(title, v, start);
      Some(v)
  }

  /** The featured names: the words after "feat." joined by single spaces,
      then ", and " and " and " written as " & ". */
  function PyFeatName(feat: seq<char>): seq<char> {
    var words := SplitWhitespace(feat);
    var joined := if words == [] then [] else Join(words[1..], " ");
    ReplaceAll(ReplaceAll(joined, ", and ", " & "), " and ", " & ")
  }

  /** `re.sub` of `\([^)]*( - - | - )[^)]*\)`: a group at the start of `s`
      holding a spaced dash; the index of its ')'. */
  function DashGroupEnd(s: seq<char>): (r: Option<nat>)
    ensures r.Some? ==> 0 < r.value < |s| && s[0] == '(' && s[r.value] == ')' && ')' !in s[1..r.value]
    ensures r.Some? ==> Contains(s[1..r.value], " - ")
  {
    if s != [] && s[0] == '(' then
      match Find(s[1..], ")")
      case None => None
      case Some(i) =>
        var e := i + 1;
        assert s[1..][i..i + 1] == ")";
        assert ')' !in s[1..e] by {
          forall m | 1 <= m < e ensures s[m] != ')' {
            assert !OccursAt(s[1..], ")", m - 1);
            assert s[1..][m - 1..m] == [s[m]];
          }
        }
        if Contains(s[1..e], " - ") then Some(e) else None
    else None
  }

  lemma NoDashNoSpacedDash(x: seq<char>)
    ensures '-' !in x ==> !Contains(x, " - ")
  {
    forall j | 0 <= j ensures '-' !in x ==> !OccursAt(x, " - ", j) {
      if j + 3 <= |x| {
        assert x[j..j + 3][1] == x[j + 1];
      }
    }
  }

  /** What the lambda makes of one matched group. */
  function DashGroupRewrite(g: seq<char>): (r: seq<char>)
    ensures Bal(r) == Bal(g)
  {
    BalSpacedDash();
    BalCloseOpen();
    var g1 := ReplaceAll(g, " - - ", ") (");
    assert Bal(" - - ") == 0 by {
      assert " - - " == " - " + "- ";
      BalAppend(" - ", "- ");
      assert "- " == " - "[1..];
      BalAppend(" ", "- ");
      assert " - " == " " + "- ";
    }
    ReplaceAllBal(g, " - - ", ") (");
    ReplaceAllBal(g1, " - ", ") (");
    ReplaceAll(g1, " - ", ") (")
  }

  /** Every group holding a spaced dash, left to right, rewritten; the
      balance is kept, and a text with no '-' is unchanged. */
  function PyReplaceDashGroups(s: seq<char>): (r: seq<char>)
    ensures Bal(r) == Bal(s)
    ensures '-' !in s ==> r == s
    decreases |s|
  {
    if s == [] then []
    else
      match DashGroupEnd(s)
      case Some(e) =>
        var r := DashGroupRewrite(s[..e + 1]) + PyReplaceDashGroups(s[e + 1..]);
        assert s == s[..e + 1] + s[e + 1..];
        BalAppend(s[..e + 1], s[e + 1..]);
        BalAppend(DashGroupRewrite(s[..e + 1]), PyReplaceDashGroups(s[e + 1..]));
        assert '-' !in s ==> '-' !in s[1..e];
        NoDashNoSpacedDash(s[1..e]);
        r
      case None =>
        assert s == [s[0]] + s[1..];
        BalAppend([s[0]], s[1..]);
        BalAppend([s[0]], PyReplaceDashGroups(s[1..]));
        [s[0]] + PyReplaceDashGroups(s[1..])
  }

  /** The seven plain replacements that end the move. */
  function PyFeatTitleCleanup(t: seq<char>): seq<char> {
    var t := ReplaceAll(ReplaceAll(t, "((", "("), "))", ")");
    var t := ReplaceAll(ReplaceAll(t, "(- ", "("), "( - ", "(");
    var t := ReplaceAll(ReplaceAll(t, " -)", ")"), " - )", ")");
    ReplaceAll(t, "()", "")
  }

  /** The guard: a " feat. " or "(feat. " in the title. */
  predicate PyHasFeat(title: seq<char>) {
    Contains(title, " feat. ") || Contains(title, "(feat. ")
  }

  /** What the move does to (artist, title): with the guard and a match,
      the featuring text leaves the title and " feat. <names>" ends up in
      the artist, after each name has been taken out of it with its
      delimiters; otherwise the artist is unchanged. The title cleanup runs
      in every case. */
  function PyMoveFeat(artist: seq<char>, title: seq<char>): (r: (seq<char>, seq<char>))
    ensures !PyHasFeat(title) || PyFeatText(title).None? ==>
      r == (artist, PyFeatTitleCleanup(PyReplaceDashGroups(title)))
    ensures PyHasFeat(title) && PyFeatText(title).Some? ==>
      var feat := PyFeatText(title).value;
      && Contains(r.0, " feat. " + PyFeatName(feat))
      && r.1 == PyFeatTitleCleanup(PyReplaceDashGroups(ReplaceAll(title, feat, "")))
  {
    if PyHasFeat(title) && PyFeatText(title).Some? then
      var feat := PyFeatText(title).value;
      var name := PyFeatName(feat);
      var a := AppendFeat(StripFeatArtistAt(artist, name, 4), " feat. " + name);
      (a, PyFeatTitleCleanup(PyReplaceDashGroups(ReplaceAll(title, feat, ""))))
    else (artist, PyFeatTitleCleanup(PyReplaceDashGroups(title)))
  }

  /** `move_feat_from_title_to_artist`, with its loop over the four
      delimiters. */
  method PyMoveFeatFromTitleToArtist(artist: seq<char>, title: seq<char>) returns (a: seq<char>, t: seq<char>)
    ensures (a, t) == PyMoveFeat(artist, title)
  {
    a, t := artist, title;
    if PyHasFeat(title) {
      var found := PyFeatText(title);
      if found.Some? {
        var feat := found.value;
        t := ReplaceAll(t, feat, "");
        var name := PyFeatName(feat);
        for i := 0 to 4
          invariant a == StripFeatArtistAt(artist, name, i)
        {
          var d := FeatDelimiter(i);
          a := ReplaceAll(ReplaceAll(a, d + name, ""), name + d, "");
        }
        var formatted := " feat. " + name;
        if !Contains(a, formatted) {
          a := a + formatted;
        }
      }
    }
    t := PyFeatTitleCleanup(PyReplaceDashGroups(t));
  }

  predicate NoPySpace(w: seq<char>) {
    forall i :: 0 <= i < |w| ==> !IsPySpace(w[i])
  }

  /** The longest prefix without white space of a word followed by white
      space (or nothing) is that word. */
  lemma {:induction false} TakeWord(w: seq<char>, rest: seq<char>)
    requires NoPySpace(w) && (rest == [] || IsPySpace(rest[0]))
    ensures TakeWhileNot(w + rest) == w
    decreases |w|
  {
    if w == [] {
      assert w + rest == rest;
    } else {
      assert (w + rest)[0] == w[0];
      assert (w + rest)[1..] == w[1..] + rest;
      TakeWord(w[1..], rest);
    }
  }

  /** Splitting on white space takes a leading word off. */
  lemma SplitWord(w: seq<char>, rest: seq<char>)
    requires w != [] && NoPySpace(w) && (rest == [] || IsPySpace(rest[0]))
    ensures SplitWhitespace(w + rest) == [w] + SplitWhitespace(rest)
  {
    assert (w + rest)[0] == w[0];
    assert TrimStartBy(w + rest, IsPySpace) == w + rest;
    TakeWord(w, rest);
    assert (w + rest)[|w|..] == rest;
  }

  lemma SplitBlank()
    ensures SplitWhitespace(" ") == []
  {
    var sp: seq<char> := " ";
    assert IsPySpace(sp[0]);
    assert TrimStartBy(sp[1..], IsPySpace) == [];
  }

  lemma FeatWord()
    ensures NoPySpace("feat.") && "feat." + " " == "feat. "
  {
  }

  /** The bare "feat. " splits into the one word "feat.". */
  lemma SplitBareFeat()
    ensures SplitWhitespace("feat. ") == ["feat."]
  {
    FeatWord();
    SplitBlank();
    SplitWord("feat.", " ");
  }

  /** "feat. " followed at once by the end of the match gives no name, and
      the removal then deletes every delimiter in the artist. */
  lemma PyEmptyFeatName()
    ensures PyFeatName("feat. ") == []
    ensures StripFeatArtistAt("A, B", PyFeatName("feat. "), 4) == "AB"
  {
    SplitBareFeat();
    assert ["feat."][1..] == [];
    StripEmptyName();
  }

  /** A pattern holding a character the text lacks does not occur in it. */
  lemma CharNotIn(s: seq<char>, pat: seq<char>, k: nat)
    requires k < |pat| && pat[k] !in s
    ensures !Contains(s, pat)
  {
    forall j | 0 <= j ensures !OccursAt(s, pat, j) {
      if j + |pat| <= |s| {
        assert s[j..j + |pat|][k] == s[j + k];
      }
    }
  }

  /** A two-character start that no adjacent pair of the text shows. */
  lemma PairNotIn(s: seq<char>, pat: seq<char>)
    requires |pat| >= 2 && NoPair(s, pat[0], pat[1])
    ensures !Contains(s, pat)
  {
    forall j | 0 <= j ensures !OccursAt(s, pat, j) {
      if j + |pat| <= |s| {
        assert s[j..j + |pat|][0] == s[j];
        assert s[j..j + |pat|][1] == s[j + 1];
      }
    }
  }

  /** In "t (feat. …" with no '.' in `t`, no "feat. " starts before the
      one after the parenthesis. */
  lemma NoFeatBefore(t: seq<char>, rest: seq<char>, j: nat)
    requires '.' !in t && |rest| >= 4 && rest[..4] == "feat" && j < |t| + 2
    ensures !OccursAt(t + " (" + rest, "feat. ", j)
    ensures PyFeatMatchAt(t + " (" + rest, j).None?
  {
    var s := t + " (" + rest;
    if j + 6 <= |s| {
      assert s[j..j + 6][4] == s[j + 4];
      if j + 4 < |t| {
        assert s[j + 4] == t[j + 4];
      } else if j + 4 >= |t| + 2 {
        assert s[j + 4] == rest[..4][j + 4 - |t| - 2];
      }
    }
  }

  /** The lazy tail runs over a name with no parenthesis, dash or newline
      up to the closing ')'. */
  lemma {:induction false} PyFeatTailToClose(s: seq<char>, p: nat, e: nat)
    requires p <= e < |s| && s[e] == ')'
    requires forall m :: p <= m < e ==> s[m] != '(' && s[m] != ')' && s[m] != '-' && s[m] != ' ' && s[m] != '\n'
    ensures PyFeatTailEnd(s, p) == Some(e)
    decreases e - p
  {
    if p < e {
      PyFeatTailToClose(s, p + 1, e);
    }
  }

  /** "t (feat. n)": the featuring text is "feat. n". */
  lemma PyFeatTextInGroup(t: seq<char>, n: seq<char>)
    requires '.' !in t && NoPySpace(n) && NoParens(n) && '-' !in n
    ensures PyHasFeat(t + " (feat. " + n + ")")
    ensures PyFeatText(t + " (feat. " + n + ")") == Some("feat. " + n)
  {
    var s := t + " (feat. " + n + ")";
    var k := |t| + 2;
    assert s == t + " (" + ("feat. " + n + ")");
    assert PyHasFeat(s) by {
      assert s[k - 1..k + 6] == "(feat. ";
      ContainsAt(s, "(feat. ", k - 1);
    }
    PyFeatGroupMatch(t, n);
    FindPyFeatIs(s, 0, k, |s| - 1);
    assert s[k..|s| - 1] == "feat. " + n;
  }

  /** The featuring group matches after "<t> (" and nothing matches before. */
  lemma PyFeatGroupMatch(t: seq<char>, n: seq<char>)
    requires '.' !in t && NoPySpace(n) && NoParens(n) && '-' !in n
    ensures var s := t + " (feat. " + n + ")";
            && PyFeatMatchAt(s, |t| + 2) == Some(|s| - 1)
            && forall j :: 0 <= j < |t| + 2 ==> PyFeatMatchAt(s, j).None?
  {
    var s := t + " (feat. " + n + ")";
    var k := |t| + 2;
    assert s == t + " (" + ("feat. " + n + ")");
    assert PyFeatMatchAt(s, k) == Some(|s| - 1) by {
      assert s[k..k + 6] == "feat. ";
      PyFeatTailToClose(s, k + 6, |s| - 1) by {
        forall m | k + 6 <= m < |s| - 1 ensures s[m] == n[m - k - 6] {
        }
      }
    }
    forall j | 0 <= j < k ensures PyFeatMatchAt(s, j).None? {
      NoFeatBefore(t, "feat. " + n + ")", j);
    }
  }

  /** The leftmost match is the one at `k` when nothing matches before it. */
  lemma {:induction false} FindPyFeatIs(s: seq<char>, from: nat, k: nat, e: nat)
    requires from <= k <= |s| && PyFeatMatchAt(s, k) == Some(e)
    requires forall j :: from <= j < k ==> PyFeatMatchAt(s, j).None?
    ensures FindPyFeat(s, from) == Some((k, e))
    ensures PyFeatText(s) == Some(s[k..e]) || from != 0
    decreases k - from
  {
    if from < k {
      FindPyFeatIs(s, from + 1, k, e);
    }
  }

  /** "feat. n" splits into "feat." and the word `n`. */
  lemma SplitFeatWord(n: seq<char>)
    requires n != [] && NoPySpace(n)
    ensures SplitWhitespace("feat. " + n) == ["feat.", n]
  {
    FeatWord();
    var sp: seq<char> := " ";
    assert IsPySpace(sp[0]);
    assert "feat. " + n == "feat." + (sp + n);
    SplitWord("feat.", sp + n);
    SplitAfterBlank(n);
  }

  lemma SplitAfterBlank(n: seq<char>)
    requires n != [] && NoPySpace(n)
    ensures SplitWhitespace(" " + n) == [n]
  {
    var sp: seq<char> := " ";
    assert IsPySpace(sp[0]);
    assert TrimStartBy(sp + n, IsPySpace) == n by {
      assert (sp + n)[1..] == n;
    }
    TakeWord(n, []);
    assert n + [] == n;
    assert n[|n|..] == [];
  }

  lemma JoinAfterFeat(n: seq<char>)
    ensures Join(["feat.", n][1..], " ") == n
  {
    assert ["feat.", n][1..] == [n];
  }

  lemma NameHasNoAnd(n: seq<char>)
    requires NoPySpace(n)
    ensures ReplaceAll(ReplaceAll(n, ", and ", " & "), " and ", " & ") == n
  {
    var sp: seq<char> := " ";
    assert IsPySpace(sp[0]);
    CharNotIn(n, ", and ", 1);
    CharNotIn(n, " and ", 0);
    ReplaceAllAbsent(n, ", and ", " & ");
    ReplaceAllAbsent(n, " and ", " & ");
  }

  /** The name of "feat. n" for a single word `n` is `n`. */
  lemma PyFeatNameOfWord(n: seq<char>)
    requires n != [] && NoPySpace(n)
    ensures PyFeatName("feat. " + n) == n
  {
    SplitFeatWord(n);
    JoinAfterFeat(n);
    NameHasNoAnd(n);
  }

  /** An artist that does not mention the name keeps every delimiter. */
  lemma {:induction false} StripAbsentName(artist: seq<char>, n: seq<char>, k: nat)
    requires k <= 4 && n != [] && !Contains(artist, n)
    ensures StripFeatArtistAt(artist, n, k) == artist
  {
    if k > 0 {
      StripAbsentName(artist, n, k - 1);
      var d := FeatDelimiter(k - 1);
      if Contains(artist, d + n) {
        assert d + n + [] == d + n;
        ContainsInner(artist, d, n, []);
      }
      ReplaceAllAbsent(artist, d + n, "");
      if Contains(artist, n + d) {
        assert [] + n + d == n + d;
        ContainsInner(artist, [], n, d);
      }
      ReplaceAllAbsent(artist, n + d, "");
    }
  }

  /** Deleting "feat. n" from "t (feat. n)" leaves "t ()". */
  lemma DeleteFeatInGroup(t: seq<char>, n: seq<char>)
    requires '.' !in t
    ensures ReplaceAll(t + " (feat. " + n + ")", "feat. " + n, "") == t + " ()"
  {
    var pat := "feat. " + n;
    var x := t + " (";
    assert t + " (feat. " + n + ")" == x + (pat + ")");
    forall j | 0 <= j < |x| ensures !OccursAt(x + (pat + ")"), pat, j) {
      NoFeatBefore(t, pat + ")", j);
      OccursPrefix(x + (pat + ")"), pat, "feat. ", j);
    }
    ReplaceAllKeep(x, pat + ")", pat, "");
    ReplaceAllHere(pat, ")", "");
    assert x + ([] + ")") == t + " ()";
  }

  /** Whether `a` immediately followed by `b` occurs nowhere. */
  predicate NoPair(s: seq<char>, a: char, b: char) {
    forall j :: 0 <= j < |s| - 1 ==> s[j] != a || s[j + 1] != b
  }

  lemma OccursPrefix(s: seq<char>, pat: seq<char>, q: seq<char>, j: nat)
    requires |q| <= |pat| && pat[..|q|] == q
    ensures OccursAt(s, pat, j) ==> OccursAt(s, q, j)
  {
    if OccursAt(s, pat, j) {
      assert s[j..j + |q|] == s[j..j + |pat|][..|q|];
    }
  }

  /** The adjacent pairs of "t ()" for a plain `t`. */
  lemma EmptyGroupPairs(t: seq<char>)
    requires NoParens(t) && '-' !in t
    ensures var u := t + " ()";
      NoPair(u, '(', '(') && NoPair(u, ')', ')') && NoPair(u, '(', '-') && NoPair(u, '(', ' ') && NoPair(u, ' ', '-')
  {
    var u := t + " ()";
    assert forall j :: 0 <= j < |t| ==> u[j] == t[j];
    assert forall j :: 0 <= j < |u| && u[j] == '(' ==> j == |t| + 1;
    assert forall j :: 0 <= j < |u| && u[j] == ')' ==> j == |t| + 2;
    assert forall j :: 0 <= j < |u| ==> u[j] != '-';
  }

  /** The six pair replacements of the cleanup change nothing when their
      patterns are absent. */
  lemma CleanupOnlyEmptyGroups(u: seq<char>)
    requires NoPair(u, '(', '(') && NoPair(u, ')', ')') && NoPair(u, '(', '-') && NoPair(u, '(', ' ') && NoPair(u, ' ', '-')
    ensures PyFeatTitleCleanup(u) == ReplaceAll(u, "()", "")
  {
    PairNotIn(u, "((");
    PairNotIn(u, "))");
    PairNotIn(u, "(- ");
    PairNotIn(u, "( - ");
    PairNotIn(u, " -)");
    PairNotIn(u, " - )");
    ReplaceAllAbsent(u, "((", "(");
    ReplaceAllAbsent(u, "))", ")");
    ReplaceAllAbsent(u, "(- ", "(");
    ReplaceAllAbsent(u, "( - ", "(");
    ReplaceAllAbsent(u, " -)", ")");
    ReplaceAllAbsent(u, " - )", ")");
  }

  lemma DropTrailingEmptyGroup(t: seq<char>)
    requires NoParens(t)
    ensures ReplaceAll(t + " ()", "()", "") == t + " "
  {
    var x := t + " ";
    assert t + " ()" == x + "()";
    assert forall m :: 0 <= m < |x| ==> x[m] != '(';
    ReplaceAllSkip(x, "()", "()", "");
    ReplaceAllHere("()", [], "");
    assert "()" + [] == "()";
  }

  /** The cleanup turns "t ()" into "t " for a plain `t`. */
  lemma CleanupEmptyGroup(t: seq<char>)
    requires NoParens(t) && '-' !in t
    ensures PyFeatTitleCleanup(t + " ()") == t + " "
  {
    EmptyGroupPairs(t);
    CleanupOnlyEmptyGroups(t + " ()");
    DropTrailingEmptyGroup(t);
  }

  /** The artist side of the move for a name the artist does not
      mention. */
  lemma ArtistGainsFeat(artist: seq<char>, n: seq<char>)
    requires n != [] && !Contains(artist, n)
    ensures AppendFeat(StripFeatArtistAt(artist, n, 4), " feat. " + n) == artist + " feat. " + n
  {
    assert artist + (" feat. " + n) == artist + " feat. " + n;
    StripAbsentName(artist, n, 4);
    if Contains(artist, " feat. " + n) {
      assert " feat. " + n + [] == " feat. " + n;
      ContainsInner(artist, " feat. ", n, []);
    }
  }

  /** The title side of the move for "t (feat. n)". */
  lemma TitleLosesFeat(t: seq<char>, n: seq<char>)
    requires NoParens(t) && '-' !in t && '.' !in t
    ensures PyFeatTitleCleanup(PyReplaceDashGroups(ReplaceAll(t + " (feat. " + n + ")", "feat. " + n, ""))) == t + " "
  {
    DeleteFeatInGroup(t, n);
    assert '-' !in t + " ()";
    CleanupEmptyGroup(t);
  }

  /** "Title (feat. Name)" with a one-word name the artist does not
      mention: " feat. Name" is appended to the artist and the title keeps
      "Title " (the final strip removes the space). */
  lemma PyMoveFeatFromGroup(artist: seq<char>, t: seq<char>, n: seq<char>)
    requires NoParens(t) && '-' !in t && '.' !in t
    requires n != [] && NoPySpace(n) && NoParens(n) && '-' !in n && !Contains(artist, n)
    ensures PyMoveFeat(artist, t + " (feat. " + n + ")") == (artist + " feat. " + n, t + " ")
  {
    var title := t + " (feat. " + n + ")";
    PyFeatTextInGroup(t, n);
    PyMoveFeatFound(artist, title, "feat. " + n);
    PyFeatNameOfWord(n);
    ArtistGainsFeat(artist, n);
    TitleLosesFeat(t, n);
  }

  lemma PyMoveFeatFound(artist: seq<char>, title: seq<char>, feat: seq<char>)
    requires PyHasFeat(title) && PyFeatText(title) == Some(feat)
    ensures PyMoveFeat(artist, title)
      == (AppendFeat(StripFeatArtistAt(artist, PyFeatName(feat), 4), " feat. " + PyFeatName(feat)),
          PyFeatTitleCleanup(PyReplaceDashGroups(ReplaceAll(title, feat, ""))))
  {
  }

  // ---------------------------------------------------------------------
  // wrap_text_after_parentheses (rename/formatter.py:313-324)

  /** The first '\n' at or after `p`, or the end of the text: where `.`
      stops. */
  function LineEnd(s: seq<char>, p: nat): (r: nat)
    requires p <= |s|
    ensures p <= r <= |s| && '\n' !in s[p..r] && (r == |s| || s[r] == '\n')
    decreases |s| - p
  {
    if p == |s| || s[p] == '\n' then p
    else
      var r := LineEnd(s, p + 1);
      assert s[p..r] == [s[p]] + s[p + 1..r];
      r
  }

  /** `(\([^)]*\))(?!.*\()\s(.+)` matched at the start of `s`: the index
      `e` of the group's ')' and the end `l` of the text after it. The
      group closes at its first ')', no '(' follows on the same line, one
      white-space character comes next and the rest of that line, not
      empty, is the text. */
  function WrapMatchAt(s: seq<char>): (r: Option<(nat, nat)>)
    ensures r.Some? ==> 0 < r.value.0 && r.value.0 + 2 < r.value.1 <= |s|
    ensures r.Some? ==> s[0] == '(' && s[r.value.0] == ')' && IsPySpace(s[r.value.0 + 1])
  {
    if s == [] || s[0] != '(' then None
    else
      match Find(s[1..], ")")
      case None => None
      case Some(i) =>
        var e := i + 1;
        assert s[1..][i..i + 1] == ")";
        if e + 1 < |s| && IsPySpace(s[e + 1]) && '(' !in s[e + 1..LineEnd(s, e + 1)] && LineEnd(s, e + 2) > e + 2 then
          Some((e, LineEnd(s, e + 2)))
        else None
  }

  /** Every match, left to right, becomes "group (text)". */
  function PyWrapGroups(s: seq<char>): seq<char>
    decreases |s|
  {
    if s == [] then []
    else
      match WrapMatchAt(s)
      case Some((e, l)) => s[..e + 1] + " (" + s[e + 2..l] + ")" + PyWrapGroups(s[l..])
      case None => [s[0]] + PyWrapGroups(s[1..])
  }

  /** The rewrite keeps the balance: each match trades a white-space
      character for " (" and ")". */
  lemma {:induction false} PyWrapGroupsBal(s: seq<char>)
    ensures Bal(PyWrapGroups(s)) == Bal(s)
    decreases |s|
  {
    if s != [] {
      match WrapMatchAt(s)
      case Some((e, l)) =>
        PyWrapGroupsBal(s[l..]);
        WrapBal(s, e, l, PyWrapGroups(s[l..]));
      case None =>
        PyWrapGroupsBal(s[1..]);
        assert s == [s[0]] + s[1..];
        BalAppend([s[0]], s[1..]);
        BalAppend([s[0]], PyWrapGroups(s[1..]));
    }
  }

  lemma WrapBal(s: seq<char>, e: nat, l: nat, w: seq<char>)
    requires e + 2 < l <= |s| && IsPySpace(s[e + 1]) && Bal(w) == Bal(s[l..])
    ensures Bal(s[..e + 1] + " (" + s[e + 2..l] + ")" + w) == Bal(s)
  {
    var g := s[..e + 1];
    var x := s[e + 2..l];
    assert s == g + [s[e + 1]] + x + s[l..];
    BalAppend(g + [s[e + 1]] + x, s[l..]);
    BalAppend(g + [s[e + 1]], x);
    BalAppend(g, [s[e + 1]]);
    assert Bal([s[e + 1]]) == 0 by {
      var c := s[e + 1];
      assert [c][..0] == [];
    }
    BalAppend(g + " (" + x + ")", w);
    BalAppend(g + " (" + x, ")");
    BalAppend(g + " (", x);
    BalAppend(g, " (");
    assert " (" == [' '] + ['('];
    BalAppend([' '], ['(']);
  }

  /** `wrap_text_after_parentheses`: a title that ends in ")" or starts
      with "(" is unchanged; otherwise every match is rewritten. */
  function PyWrap(text: seq<char>): (r: seq<char>)
    ensures EndsWith(text, ")") || StartsWith(text, "(") ==> r == text
    ensures Bal(r) == Bal(text)
  {
    if EndsWith(text, ")") || StartsWith(text, "(") then text
    else
      PyWrapGroupsBal(text);
      PyWrapGroups(text)
  }

  /** Text before the first '(' passes through unchanged. */
  lemma {:induction false} PyWrapSkip(x: seq<char>, y: seq<char>)
    requires '(' !in x
    ensures PyWrapGroups(x + y) == x + PyWrapGroups(y)
    decreases |x|
  {
    if x != [] {
      assert (x + y)[0] == x[0];
      assert WrapMatchAt(x + y).None?;
      assert (x + y)[1..] == x[1..] + y;
      PyWrapSkip(x[1..], y);
    } else {
      assert x + y == y;
    }
  }

  /** The match of "(b) c" when `b` holds no ')' and `c`, on one line,
      holds no '('. */
  lemma WrapMatchGroup(b: seq<char>, c: seq<char>)
    requires ')' !in b && '(' !in c && '\n' !in c && c != []
    ensures var g := "(" + b + ") " + c;
      WrapMatchAt(g) == Some((|b| + 1, |g|))
  {
    var g := "(" + b + ") " + c;
    var e := |b| + 1;
    assert g[1..] == b + ") " + c;
    assert Find(g[1..], ")") == Some(|b|) by {
      var u := g[1..];
      assert u[|b|] == ')';
      assert forall j :: 0 <= j < |b| ==> u[j] == b[j];
      FindChar(u, ')');
    }
    assert g[e + 1] == ' ';
    assert g[e + 1..] == " " + c;
    assert g[e + 2..] == c;
    LineEndNone(g, e + 1);
    LineEndNone(g, e + 2);
    assert '(' !in g[e + 1..|g|];
  }

  lemma LineEndNone(s: seq<char>, p: nat)
    requires p <= |s| && '\n' !in s[p..]
    ensures LineEnd(s, p) == |s|
  {
    forall m | p <= m < |s| ensures s[m] != '\n' {
      assert s[m] == s[p..][m - p];
    }
  }

  /** One match, then the rest. */
  lemma PyWrapAt(s: seq<char>, e: nat, l: nat)
    requires WrapMatchAt(s) == Some((e, l))
    ensures PyWrapGroups(s) == s[..e + 1] + " (" + s[e + 2..l] + ")" + PyWrapGroups(s[l..])
  {
  }

  /** "(b) c" becomes "(b) (c)". */
  lemma WrapGroupResult(b: seq<char>, c: seq<char>)
    requires ')' !in b && '(' !in c && '\n' !in c && c != []
    ensures PyWrapGroups("(" + b + ") " + c) == "(" + b + ") (" + c + ")"
  {
    var g := "(" + b + ") " + c;
    WrapMatchGroup(b, c);
    PyWrapAt(g, |b| + 1, |g|);
    assert g[|g|..] == [];
    assert g[..|b| + 2] == "(" + b + ")";
    assert g[|b| + 3..|g|] == c;
  }

  lemma WrapShape(a: seq<char>, b: seq<char>, c: seq<char>)
    ensures a + " (" + b + ") " + c == (a + " ") + ("(" + b + ") " + c)
    ensures (a + " ") + ("(" + b + ") (" + c + ")") == a + " (" + b + ") (" + c + ")"
  {
  }

  /** "Song (Remix) Extended" becomes "Song (Remix) (Extended)": the
      trailing text after the last group is wrapped. */
  lemma PyWrapTrailingText(a: seq<char>, b: seq<char>, c: seq<char>)
    requires a != [] && a[0] != '(' && NoParens(a) && NoParens(b) && NoParens(c)
    requires c != [] && c[|c| - 1] != ')' && '\n' !in c
    ensures PyWrap(a + " (" + b + ") " + c) == a + " (" + b + ") (" + c + ")"
  {
    var s := a + " (" + b + ") " + c;
    assert s[|s| - 1] == c[|c| - 1] && s[0] == a[0];
    assert !EndsWith(s, ")") && !StartsWith(s, "(");
    WrapShape(a, b, c);
    assert '(' !in a + " ";
    PyWrapSkip(a + " ", "(" + b + ") " + c);
    WrapGroupResult(b, c);
  }

  // ---------------------------------------------------------------------
  // The final white-space pass of format_tags (rename/formatter.py:124-131)

  /** White space only as single spaces, never two in a row, none at
      either end, and no space just inside a parenthesis. */
  predicate PyCleanField(s: seq<char>) {
    && NoAdjacent(s, IsPySpace) && OnlyAs(s, IsPySpace, ' ') && IsTrimmedBy(s, IsPySpace)
    && !Contains(s, " )") && !Contains(s, "( ")
  }

  /** Collapsing the runs keeps a last character outside the class. */
  lemma {:induction false} ReplaceRunsLast(s: seq<char>, p: char -> bool, rep: seq<char>)
    requires s != [] && !p(s[|s| - 1])
    ensures var r := ReplaceRuns(s, p, 1, rep); r != [] && r[|r| - 1] == s[|s| - 1]
    decreases |s|
  {
    if !p(s[0]) {
      if |s| > 1 {
        ReplaceRunsLast(s[1..], p, rep);
      }
    } else {
      var n := RunLen(s, p);
      assert n < |s|;
      ReplaceRunsLast(s[n..], p, rep);
    }
  }

  /** Replacing a pattern by one character outside the class keeps white
      space single, keeps only spaces, and never puts white space at an end
      where the text had none. */
  lemma {:induction false} ReplaceByNonSpace(s: seq<char>, pat: seq<char>, c: char)
    requires |pat| > 0 && !IsPySpace(c)
    requires NoAdjacent(s, IsPySpace) && OnlyAs(s, IsPySpace, ' ')
    ensures CleanReplacement(s, ReplaceAll(s, pat, [c]))
    decreases |s|, 1
  {
    if |s| < |pat| {
    } else if s[..|pat|] == pat {
      ReplaceByNonSpaceHit(s, pat, c);
    } else {
      ReplaceByNonSpaceMiss(s, pat, c);
    }
  }

  /** What a replacement by a non-space character keeps of a clean text. */
  predicate CleanReplacement(s: seq<char>, r: seq<char>) {
    && NoAdjacent(r, IsPySpace) && OnlyAs(r, IsPySpace, ' ')
    && (r == [] <==> s == [])
    && (s != [] ==> (IsPySpace(r[0]) ==> IsPySpace(s[0])) && (IsPySpace(r[|r| - 1]) ==> IsPySpace(s[|s| - 1])))
  }

  lemma {:induction false} ReplaceByNonSpaceHit(s: seq<char>, pat: seq<char>, c: char)
    requires |pat| > 0 && !IsPySpace(c) && |pat| <= |s| && s[..|pat|] == pat
    requires NoAdjacent(s, IsPySpace) && OnlyAs(s, IsPySpace, ' ')
    ensures CleanReplacement(s, ReplaceAll(s, pat, [c]))
    decreases |s|, 0
  {
    var r := ReplaceAll(s, pat, [c]);
    var tail := s[|pat|..];
    assert NoAdjacent(tail, IsPySpace) && OnlyAs(tail, IsPySpace, ' ') by {
      assert forall i :: 0 <= i < |tail| ==> tail[i] == s[|pat| + i];
    }
    ReplaceByNonSpace(tail, pat, c);
    var rt := ReplaceAll(tail, pat, [c]);
    assert r == [c] + rt;
    NoAdjacentCons(c, rt, IsPySpace);
    assert forall i :: 1 <= i < |r| ==> r[i] == rt[i - 1];
    if tail != [] {
      assert s[|s| - 1] == tail[|tail| - 1];
    }
  }

  lemma {:induction false} ReplaceByNonSpaceMiss(s: seq<char>, pat: seq<char>, c: char)
    requires |pat| > 0 && !IsPySpace(c) && |pat| <= |s| && s[..|pat|] != pat
    requires NoAdjacent(s, IsPySpace) && OnlyAs(s, IsPySpace, ' ')
    ensures CleanReplacement(s, ReplaceAll(s, pat, [c]))
    decreases |s|, 0
  {
    var r := ReplaceAll(s, pat, [c]);
    var tail := s[1..];
    assert NoAdjacent(tail, IsPySpace) && OnlyAs(tail, IsPySpace, ' ') by {
      assert forall i :: 0 <= i < |tail| ==> tail[i] == s[1 + i];
    }
    ReplaceByNonSpace(tail, pat, c);
    var rt := ReplaceAll(tail, pat, [c]);
    assert r == [s[0]] + rt;
    if IsPySpace(s[0]) && rt != [] {
      assert |s| > 1 && !IsPySpace(s[1]);
    }
    NoAdjacentCons(s[0], rt, IsPySpace);
    assert forall i :: 1 <= i < |r| ==> r[i] == rt[i - 1];
    if tail != [] {
      assert s[|s| - 1] == tail[|tail| - 1];
    }
  }


  /** The strip, the collapse and the two replacements. */
  function PyFinalField(s: seq<char>): (r: seq<char>)
    ensures PyCleanField(r)
  {
    var t0 := PyStrip(s);
    var t1 := ReplaceRuns(t0, IsPySpace, 1, " ");
    var t2 := ReplaceAll(t1, " )", ")");
    var t3 := ReplaceAll(t2, "( ", "(");
    PyFinalFieldClean(t0);
    t3
  }

  lemma PyFinalFieldClean(t0: seq<char>)
    requires IsTrimmedBy(t0, IsPySpace)
    ensures var t1 := ReplaceRuns(t0, IsPySpace, 1, " ");
      PyCleanField(ReplaceAll(ReplaceAll(t1, " )", ")"), "( ", "("))
  {
    var sp: seq<char> := " ";
    assert NoAdjacent(sp, IsPySpace) && OnlyAs(sp, IsPySpace, ' ');
    var t1 := ReplaceRuns(t0, IsPySpace, 1, sp);
    ReplaceRunsNoAdjacent(t0, IsPySpace, 1, sp);
    ReplaceRunsOnly(t0, IsPySpace, sp, ' ');
    if t0 != [] {
      ReplaceRunsHead(t0, IsPySpace, 1, sp);
      ReplaceRunsLast(t0, IsPySpace, sp);
    }
    assert IsTrimmedBy(t1, IsPySpace);
    var t2 := ReplaceAll(t1, " )", [')']);
    ReplaceByNonSpace(t1, " )", ')');
    ReplaceByNonSpace(t2, "( ", '(');
    var t3 := ReplaceAll(t2, "( ", ['(']);
    assert IsPySpace(' ');
    ReplacePairBySecond(t1, ' ', ')');
    ReplacePairByFirst(t2, '(', ' ');
    ReplacePairByFirstKeeps(t2, '(', ' ', ' ', ')');
    NoPairNotContains(t3, ' ', ')');
    NoPairNotContains(t3, '(', ' ');
  }

  // ---------------------------------------------------------------------
  // format_tags (rename/formatter.py:79-133)

  /** Python's `str.islower`, on ASCII letters: some lower-case letter and
      no upper-case one. */
  predicate PyIsLower(s: seq<char>) {
    (exists i | 0 <= i < |s| :: 'a' <= s[i] <= 'z') && forall i | 0 <= i < |s| :: !('A' <= s[i] <= 'Z')
  }

  /** Python's `str.isupper`, on ASCII letters. */
  predicate PyIsUpper(s: seq<char>) {
    (exists i | 0 <= i < |s| :: 'A' <= s[i] <= 'Z') && forall i | 0 <= i < |s| :: !('a' <= s[i] <= 'z')
  }

  /** An all-lower-case field, or an all-upper-case one longer than twelve
      characters, goes through `titlecase`. */
  function PyFixCase(s: seq<char>, titlecase: seq<char> -> seq<char>): (r: seq<char>)
    ensures r == s || r == titlecase(s)
    ensures PyIsLower(s) ==> r == titlecase(s)
    ensures !PyIsLower(s) && !PyIsUpper(s) ==> r == s
    ensures PyIsUpper(s) && |s| > 12 ==> r == titlecase(s)
    ensures !PyIsLower(s) && (!PyIsUpper(s) || |s| <= 12) ==> r == s
  {
    if PyIsLower(s) || (PyIsUpper(s) && |s| > 12) then titlecase(s) else s
  }

  /** The clean and dirty suffixes, each behind its case-insensitive
      guard. */
  function PySuffixes(title: seq<char>): seq<char> {
    var t := if Contains(Lower(title), " clean") then ReplaceCleanSuffix(title) else title;
    if Contains(Lower(t), " dirty") then ReplaceDirtySuffix(t) else t
  }

  /** Steps from the duplicated artist to the regex table
      (rename/formatter.py:86-110), on stripped fields. */
  function PyPrepareTags(artist: seq<char>, title: seq<char>, titlecase: seq<char> -> seq<char>): (seq<char>, seq<char>) {
    PyTablesAreLiteral();
    var t := DropArtistFromTitle(artist, title);
    var a := PyFixCase(artist, titlecase);
    var t := PySuffixes(PyFixCase(t, titlecase));
    var a := SubstituteAt(PyCommonSubstitutes, a, 22);
    var t := SubstituteAt(PyTitleSubstitutes, SubstituteAt(PyCommonSubstitutes, t, 22), 27);
    (PyRegexSubstitutes(a), PyRegexSubstitutes(t))
  }

  /** The helper passes (rename/formatter.py:112-122). */
  function PyHelperPasses(artist: seq<char>, title: seq<char>): (seq<char>, seq<char>) {
    var t := PyUseParenthesisForMix(title);
    var (a, t) := PyMoveFeat(artist, t);
    (a, PyFinishTitle(t))
  }

  /** The title passes after the featuring move: flatten, balance, wrap,
      remove the BPM and drop one trailing ".". */
  function PyFinishTitle(title: seq<char>): seq<char> {
    var t := PyRemoveBpm(PyWrap(PyBalanced(PyNestCleanup(NestRaw(title, true)))));
    if EndsWith(t, ".") then t[..|t| - 1] else t
  }

  /** What `format_tags` returns: the stripped fields when both are empty;
      otherwise both fields come out with white space only as single
      spaces and none at either end. */
  function PyFormattedTags(artist: seq<char>, title: seq<char>, titlecase: seq<char> -> seq<char>): (r: (seq<char>, seq<char>))
    ensures PyStrip(artist) == [] && PyStrip(title) == [] ==> r == ([], [])
    ensures PyStrip(artist) != [] || PyStrip(title) != [] ==> PyCleanField(r.0) && PyCleanField(r.1)
  {
    var a := PyStrip(artist);
    var t := PyStrip(title);
    if a == [] && t == [] then (a, t)
    else
      var (a, t) := PyPrepareTags(a, t, titlecase);
      var (a, t) := PyHelperPasses(a, t);
      (PyFinalField(a), PyFinalField(t))
  }

  /** `format_tags` (rename/formatter.py:79-133), step by step in the
      source's order. */
  method PyFormatTags(artist: seq<char>, title: seq<char>, titlecase: seq<char> -> seq<char>) returns (a: seq<char>, t: seq<char>)
    ensures (a, t) == PyFormattedTags(artist, title, titlecase)
  {
    a := PyStrip(artist);
    t := PyStrip(title);
    if a == [] && t == [] {
      return;
    }
    a, t := PyNormalizeTags(a, t, titlecase);
    a, t := PyRunHelperPasses(a, t);
    a := PyFinalField(a);
    t := PyFinalField(t);
  }

  /** rename/formatter.py:86-110, in the source's order. */
  method PyNormalizeTags(artist: seq<char>, title: seq<char>, titlecase: seq<char> -> seq<char>) returns (a: seq<char>, t: seq<char>)
    ensures (a, t) == PyPrepareTags(artist, title, titlecase)
  {
    PyTablesAreLiteral();
    t := DropArtistFromTitle(artist, title);
    a := PyFixCase(artist, titlecase);
    t := PyFixCase(t, titlecase);
    if Contains(Lower(t), " clean") {
      t := ReplaceCleanSuffix(t);
    }
    if Contains(Lower(t), " dirty") {
      t := ReplaceDirtySuffix(t);
    }
    a := SubstituteOne(PyCommonSubstitutes, a);
    t := SubstituteOne(PyCommonSubstitutes, t);
    t := SubstituteOne(PyTitleSubstitutes, t);
    a := PyRegexSubstitutes(a);
    t := PyRegexSubstitutes(t);
  }

  /** rename/formatter.py:112-122, in the source's order. */
  method PyRunHelperPasses(artist: seq<char>, title: seq<char>) returns (a: seq<char>, t: seq<char>)
    ensures (a, t) == PyHelperPasses(artist, title)
  {
    t := PyUseParenthesisForMix(title);
    a, t := PyMoveFeatFromTitleToArtist(artist, t);
    ghost var moved := t;
    t := PyFixNestedParentheses(t);
    t := PyBalanceParenthesis(t);
    t := PyWrap(t);
    t := PyRemoveBpm(t);
    if EndsWith(t, ".") {
      t := t[..|t| - 1];
    }
    assert t == PyFinishTitle(moved);
  }
}
