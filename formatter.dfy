/** The earlier Rust normaliser (src/formatter.rs). Its parenthesis passes,
    `use_parenthesis_for_mix`, `extract_feat_from_parentheses`,
    `wrap_text_after_parentheses` and `replace_dash_in_parentheses` are the
    same code as in src/formatting.rs and are taken from modules Parens and
    Formatting; what differs is modelled here: the tables, the guarded
    featuring move, the three-pattern BPM removal, `format_filename` and the
    orchestrator `format_tags`. */
module EarlyFormatter {
  import opened Strings
  import opened Patterns
  import opened Parens
  import opened Formatting

  // ---------------------------------------------------------------------
  // Tables

  /** COMMON_SUBSTITUTES (src/formatter.rs:7-26), applied to both fields. */
  const EarlyCommonSubstitutes: seq<(seq<char>, seq<char>)> := [
    (")(", ") ("), ("()", " "), (") - (", ""), (" - (", " ("), ("(- ", "("),
    ("( - ", "("), (" -)", " )"), (" - ) ", ")"), (" )", ")"), ("( ", "("),
    ("...", " "), ("..", " "), (" ***", ""), (" **", ""), (" *", ""),
    ("*** ", ""), ("** ", ""), ("* ", "")
  ]

  /** TITLE_SUBSTITUTES (src/formatter.rs:27-59), applied to the title. */
  const EarlyTitleSubstitutes: seq<(seq<char>, seq<char>)> := [
    (" (Dirty!)", " (Dirty)"), (" (Original Mix)", ""), (" DJcity", ""),
    (" DJCity", ""), ("(DJcity - ", "("), ("(DJcity ", "("), ("DJcity ", ""),
    ("DJCity ", ""), ("12\"", "12''"), ("Intro - Dirty", "Dirty Intro"),
    ("Intro - Clean", "Clean Intro"), ("(Dirty - Intro)", "(Dirty Intro)"),
    ("(Clean - Intro)", "(Clean Intro)"), ("Acap - DIY", "Acapella DIY"),
    ("(Acap)", "(Acapella)"), ("Acap ", "Acapella "), ("(Inst)", "(Instrumental)"),
    (" 12 Inch ", " 12'' "), ("(12 Inch ", "(12'' "), (" 12in ", " 12'' "),
    ("(12in ", "(12'' "), ("(7in ", "(7'' "), (" 7in ", " 7'' "),
    ("Intro/Outro", "Intro-Outro"), (" In/Out", " Intro-Outro"),
    ("In/Out ", "Intro-Outro "), ("Aca In/Aca Out", "Acapella In-Out"),
    ("Intro/Outro", "Intro"), ("Intro-Outro", "Intro"), ("In+Out", "In-Out"),
    ("In+out", "In-Out")
  ]

  lemma EarlyTablesAreLiteral()
    ensures LiteralTable(EarlyCommonSubstitutes) && LiteralTable(EarlyTitleSubstitutes)
    ensures |EarlyCommonSubstitutes| == 18 && |EarlyTitleSubstitutes| == 31
  {
  }

  // ---------------------------------------------------------------------
  // format_filename

  /** One field of `format_filename` (src/formatter.rs:83-87, 152-162):
      quotes doubled, each RUN of forbidden characters made one "-",
      white space runs made one space, trimmed. */
  function EarlyFilenameField(s: seq<char>): seq<char> {
    var quoted := ReplaceAll(s, "\"", "''");
    var dashed := ReplaceRuns(quoted, IsFilenameForbidden, 1, "-");
    Trim(ReplaceRuns(dashed, IsSpace, 1, " "))
  }

  /** `format_filename`: both fields come out without double quotes, without
      forbidden characters, with whitespace collapsed and trimmed. */
  function EarlyFormatFilename(artist: seq<char>, title: seq<char>): (r: (seq<char>, seq<char>))
    ensures CleanFilenameField(r.0) && CleanFilenameField(r.1)
  {
    EarlyFilenameFieldClean(artist);
    EarlyFilenameFieldClean(title);
    (EarlyFilenameField(artist), EarlyFilenameField(title))
  }

  lemma EarlyFilenameFieldClean(s: seq<char>)
    ensures CleanFilenameField(EarlyFilenameField(s))
  {
    var quoted := ReplaceAll(s, "\"", "''");
    var dashed := ReplaceRuns(quoted, IsFilenameForbidden, 1, "-");
    assert '"' !in dashed by {
      ReplaceAllRemovesChar(s, '"', "''");
      ReplaceRunsKeepsAbsent(quoted, IsFilenameForbidden, 1, "-", '"');
    }
    assert forall c | IsFilenameForbidden(c) :: c !in dashed by {
      ReplaceRunsRemoves(quoted, IsFilenameForbidden, "-");
    }
    CleanAfterCollapse(dashed);
  }

  /** Collapsing white space and trimming keeps out what was out. */
  lemma CleanAfterCollapse(dashed: seq<char>)
    requires '"' !in dashed && forall c | IsFilenameForbidden(c) :: c !in dashed
    ensures CleanFilenameField(Trim(ReplaceRuns(dashed, IsSpace, 1, " ")))
  {
    var spaced := ReplaceRuns(dashed, IsSpace, 1, " ");
    var f := Trim(spaced);
    assert NoAdjacent(f, IsSpace) && OnlyAs(f, IsSpace, ' ') by {
      CollapseSpaces(dashed);
      TrimKeepsNoAdjacent(spaced, IsSpace, IsSpace);
      TrimKeepsOnlyAs(spaced, IsSpace, ' ', IsSpace);
    }
    assert IsTrimmedBy(f, IsSpace) by {
      TrimIsTrimmed(spaced);
    }
    assert '"' !in f by {
      ReplaceRunsKeepsAbsent(dashed, IsSpace, 1, " ", '"');
      TrimKeepsAbsent(spaced, '"', IsSpace);
    }
    assert forall i :: 0 <= i < |f| ==> !IsFilenameForbidden(f[i]) by {
      forall c | IsFilenameForbidden(c) ensures c !in f {
        ReplaceRunsKeepsAbsent(dashed, IsSpace, 1, " ", c);
        TrimKeepsAbsent(spaced, c, IsSpace);
      }
    }
  }

  /** A run of forbidden characters between two plain parts becomes a
      single "-", where src/formatting.rs writes one "-" per character. */
  lemma EarlyFilenameJoinsRun(a: char, b: char, run: seq<char>)
    requires !IsFilenameForbidden(a) && !IsFilenameForbidden(b)
    requires |run| >= 1 && forall i :: 0 <= i < |run| ==> IsFilenameForbidden(run[i])
    ensures ReplaceRuns([a] + run + [b], IsFilenameForbidden, 1, "-") == [a, '-', b]
    ensures MapChars([a] + run + [b], FilenameChar) == [a] + Repeat('-', |run|) + [b]
  {
    JoinedByDash(a, b, run);
    MapRunBetween(a, b, run);
  }

  lemma JoinedByDash(a: char, b: char, run: seq<char>)
    requires !IsFilenameForbidden(a) && !IsFilenameForbidden(b)
    requires |run| >= 1 && forall i :: 0 <= i < |run| ==> IsFilenameForbidden(run[i])
    ensures ReplaceRuns([a] + run + [b], IsFilenameForbidden, 1, "-") == [a, '-', b]
  {
    ReplaceRunBetween(a, b, run, IsFilenameForbidden, "-");
    assert [a] + "-" + [b] == [a, '-', b];
  }

  lemma MapRunBetween(a: char, b: char, run: seq<char>)
    requires !IsFilenameForbidden(a) && !IsFilenameForbidden(b)
    requires forall i :: 0 <= i < |run| ==> IsFilenameForbidden(run[i])
    ensures MapChars([a] + run + [b], FilenameChar) == [a] + Repeat('-', |run|) + [b]
  {
    var u := run + [b];
    var s := [a] + u;
    assert s == [a] + run + [b];
    MapRun(run, b);
    var tail := MapChars(u, FilenameChar);
    assert s[1..] == u && s[0] == a;
    assert MapChars(s, FilenameChar) == FilenameChar(a) + tail;
    assert FilenameChar(a) == [a];
    assert [a] + (Repeat('-', |run|) + [b]) == [a] + Repeat('-', |run|) + [b];
  }

  /** A maximal run of class characters between two others becomes `rep`. */
  lemma ReplaceRunBetween(a: char, b: char, run: seq<char>, p: char -> bool, rep: seq<char>)
    requires !p(a) && !p(b) && |run| >= 1 && forall i :: 0 <= i < |run| ==> p(run[i])
    ensures ReplaceRuns([a] + run + [b], p, 1, rep) == [a] + rep + [b]
  {
    var s := [a] + run + [b];
    assert s[1..] == run + [b];
    var u := run + [b];
    assert u[|run|] == b;
    assert forall i :: 0 <= i < |run| ==> u[i] == run[i];
    var n := RunLen(u, p);
    assert n == |run|;
    assert u[n..] == [b];
    assert ReplaceRuns([b], p, 1, rep) == [b] + ReplaceRuns([], p, 1, rep);
  }

  lemma {:induction false} MapRun(run: seq<char>, b: char)
    requires !IsFilenameForbidden(b)
    requires forall i :: 0 <= i < |run| ==> IsFilenameForbidden(run[i])
    ensures MapChars(run + [b], FilenameChar) == Repeat('-', |run|) + [b]
    decreases |run|
  {
    if run == [] {
      assert FilenameChar(b) == [b];
      assert MapChars([b], FilenameChar) == FilenameChar(b) + MapChars([], FilenameChar);
    } else {
      assert (run + [b])[1..] == run[1..] + [b];
      assert FilenameChar(run[0]) == "-";
      MapRun(run[1..], b);
    }
  }

  // ---------------------------------------------------------------------
  // move_feat_from_title_to_artist

  /** A match of FEAT_REGEX, `feat\. .*?( -|\(|\)|$)` (no word boundary),
      starting at `k`: its end. */
  function EarlyFeatMatchAt(s: seq<char>, k: nat): (r: Option<nat>)
    ensures r.Some? ==> k + 6 <= r.value <= |s| && s[k..k + 6] == "feat. "
  {
    if k + 6 <= |s| && s[k..k + 6] == "feat. " then FeatTailEnd(s, k + 6) else None
  }

  /** The leftmost match at or after `k`, as (start, end). */
  function FindEarlyFeat(s: seq<char>, k: nat): (r: Option<(nat, nat)>)
    requires k <= |s|
    ensures r.Some? ==> k <= r.value.0 && EarlyFeatMatchAt(s, r.value.0) == Some(r.value.1)
    ensures r.Some? ==> forall j :: k <= j < r.value.0 ==> EarlyFeatMatchAt(s, j).None?
    ensures r.None? ==> forall j :: k <= j <= |s| ==> EarlyFeatMatchAt(s, j).None?
    decreases |s| - k
  {
    match EarlyFeatMatchAt(s, k)
    case Some(e) => Some((k, e))
    case None => if k == |s| then None else FindEarlyFeat(s, k + 1)
  }

  /** The featuring text: the first match with trailing parentheses and
      dashes trimmed; it starts with "feat. " and occurs in the title. */
  function EarlyFeatText(title: seq<char>): (r: Option<seq<char>>)
    ensures r.Some? ==> |r.value| >= 6 && r.value[..6] == "feat. " && Contains(title, r.value)
    ensures r.None? <==> forall j :: 0 <= j <= |title| ==> EarlyFeatMatchAt(title, j).None?
  {
    match FindEarlyFeat(title, 0)
    case None => None
    case Some((start, end)) =>
      var m := title[start..end];
      var v := TrimEndBy(m, IsFeatTrim);
      assert m[..6] == title[start..start + 6];
      assert !IsFeatTrim(m[5]);
      assert v[..6] == m[..6] == "feat. ";
      assert title[start..start + |v|] == v;
      ContainsAt(title, v, start);
      Some(v)
  }

  /** The featured names: "feat. " dropped once, ", and " and " and "
      written as " & ", trimmed. */
  function EarlyFeatName(feat: seq<char>): seq<char> {
    Trim(ReplaceAll(ReplaceAll(ReplaceFirst(feat, "feat. ", ""), ", and ", " & "), " and ", " & "))
  }

  /** The title without the featuring text, "()" and double spaces. */
  function EarlyTitleWithoutFeat(title: seq<char>, feat: seq<char>): (r: seq<char>)
    requires |feat| > 0
    ensures IsTrimmedBy(r, IsSpace)
  {
    var t := ReplaceAll(ReplaceAll(ReplaceAll(title, feat, ""), "()", ""), "  ", " ");
    TrimIsTrimmed(t);
    Trim(t)
  }

  /** The guard of the early move: a " feat. " or "(feat. " in the title. */
  predicate HasFeat(title: seq<char>) {
    Contains(title, " feat. ") || Contains(title, "(feat. ")
  }

  /** What the early move does to (artist, title): nothing without the
      guard or without a match; otherwise the featuring text leaves the
      title and " feat. <names>" ends up in the artist. */
  function EarlyMoveFeat(artist: seq<char>, title: seq<char>): (r: (seq<char>, seq<char>))
    ensures !HasFeat(title) || EarlyFeatText(title).None? ==> r == (artist, title)
    ensures HasFeat(title) && EarlyFeatText(title).Some? ==>
      && Contains(r.0, " feat. " + EarlyFeatName(EarlyFeatText(title).value))
      && r.1 == EarlyTitleWithoutFeat(title, EarlyFeatText(title).value)
  {
    if !HasFeat(title) then (artist, title)
    else
      match EarlyFeatText(title)
      case None => (artist, title)
      case Some(feat) =>
        var name := EarlyFeatName(feat);
        var fas := FeatArtists(name);
        (AppendFeat(RemoveFeatArtists(artist, fas, |fas|), " feat. " + name),
         EarlyTitleWithoutFeat(title, feat))
  }

  /** `move_feat_from_title_to_artist` (src/formatter.rs:175-220). */
  method EarlyMoveFeatFromTitleToArtist(artist: seq<char>, title: seq<char>) returns (a: seq<char>, t: seq<char>)
    ensures (a, t) == EarlyMoveFeat(artist, title)
  {
    a, t := artist, title;
    if !HasFeat(title) {
      return;
    }
    var found := EarlyFeatText(title);
    if found.None? {
      return;
    }
    var feat := found.value;
    t := EarlyTitleWithoutFeat(title, feat);
    var name := EarlyFeatName(feat);
    a := RemoveFeatArtistsLoop(artist, FeatArtists(name));
    var formatted := " feat. " + name;
    if !Contains(a, formatted) {
      a := a + formatted;
    }
  }

  /** A title that starts with "feat. " and holds no other featuring text
      fails the guard and is left alone, although the pattern matches it;
      src/formatting.rs moves it. */
  lemma LeadingFeatIsKept(artist: seq<char>, rest: seq<char>)
    requires !Contains(rest, "feat. ") && '\n' !in rest
    ensures EarlyMoveFeat(artist, "feat. " + rest) == (artist, "feat. " + rest)
    ensures FeatText("feat. " + rest).Some?
  {
    var s := "feat. " + rest;
    FeatAfterPrefix(rest, " feat. ");
    FeatAfterPrefix(rest, "(feat. ");
    assert s[0..6] == "feat. ";
    assert s[6..] == rest;
    FeatTailEndNoNewline(s, 6);
    assert FeatMatchAt(s, 0).Some?;
  }

  /** A " feat. " or "(feat. " after a leading "feat. " lies in the rest. */
  lemma FeatAfterPrefix(rest: seq<char>, pat: seq<char>)
    requires pat == " feat. " || pat == "(feat. "
    ensures Contains("feat. " + rest, pat) ==> Contains(rest, "feat. ")
  {
    var s := "feat. " + rest;
    if Contains(s, pat) {
      var j := Find(s, pat).value;
      assert OccursAt(s, pat, j);
      assert j >= 5 by {
        assert s[j] == s[j..j + 7][0] == pat[0];
        assert forall i :: 0 <= i < 5 ==> s[i] != ' ' && s[i] != '(';
      }
      assert rest[j - 5..j + 1] == "feat. " by {
        forall i | 0 <= i < 6 ensures rest[j - 5 + i] == "feat. "[i] {
          assert s[j..j + 7][1 + i] == pat[1 + i];
          assert s[j + 1 + i] == rest[j - 5 + i];
        }
      }
      ContainsAt(rest, "feat. ", j - 5);
    }
  }

  /** With no newline ahead, the lazy tail always finds its end. */
  lemma {:induction false} FeatTailEndNoNewline(s: seq<char>, p: nat)
    requires p <= |s| && '\n' !in s[p..]
    ensures FeatTailEnd(s, p).Some?
    decreases |s| - p
  {
    if p < |s| {
      assert s[p..][0] == s[p];
      assert s[p + 1..] == s[p..][1..];
      FeatTailEndNoNewline(s, p + 1);
    }
  }

  // ---------------------------------------------------------------------
  // remove_bpm_in_parentheses_from_end

  predicate Digits(x: seq<char>, lo: nat, hi: nat) {
    lo <= |x| <= hi && forall i :: 0 <= i < |x| ==> IsDigit(x[i])
  }

  /** `b` ends in `n` digits after one separator, and what comes before is
      `lo` to `hi` digits. */
  predicate SpacedDigits(b: seq<char>, n: nat, sep: char -> bool, lo: nat, hi: nat) {
    |b| >= n + 1 && Digits(b[|b| - n..], n, n) && sep(b[|b| - n - 1]) && Digits(b[..|b| - n - 1], lo, hi)
  }

  predicate IsBlank(c: char) { c == ' ' }

  /** `\d{2,3}(\.\d)?|\d{2,3} \d{1,2}a`, matched as a whole. */
  predicate EarlyBpm(m: seq<char>) {
    || Digits(m, 2, 3)
    || (|m| >= 2 && m[|m| - 2] == '.' && IsDigit(m[|m| - 1]) && Digits(m[..|m| - 2], 2, 3))
    || (|m| >= 1 && m[|m| - 1] == 'a'
        && (SpacedDigits(m[..|m| - 1], 1, IsBlank, 2, 3) || SpacedDigits(m[..|m| - 1], 2, IsBlank, 2, 3)))
  }

  /** `\d{1,2}(?:\s\d{1,2})?`, matched as a whole. */
  predicate KeyDigits(x: seq<char>) {
    Digits(x, 1, 2) || SpacedDigits(x, 1, IsSpace, 1, 2) || SpacedDigits(x, 2, IsSpace, 1, 2)
  }

  /** `\d{1,2}(?:\s\d{1,2})?\s?[a-zA-Z]`, matched as a whole. */
  predicate EarlyKey(m: seq<char>) {
    && |m| >= 1 && IsAlpha(m[|m| - 1])
    && var b := m[..|m| - 1];
       KeyDigits(b) || (|b| >= 1 && IsSpace(b[|b| - 1]) && KeyDigits(b[..|b| - 1]))
  }

  /** `\d{2,3}\s?[a-zA-Z]{2,3}` with `n` letters, matched as a whole. */
  predicate EarlyLettersWith(m: seq<char>, n: nat) {
    && n <= |m| && AllAlpha(m[|m| - n..])
    && (Digits(m[..|m| - n], 2, 3) || (|m| - n >= 1 && IsSpace(m[|m| - n - 1]) && Digits(m[..|m| - n - 1], 2, 3)))
  }

  predicate EarlyLetters(m: seq<char>) {
    EarlyLettersWith(m, 2) || EarlyLettersWith(m, 3)
  }

  /** BPM_IN_PARENTHESES, ` \((…)\)$`, matches from `k`. */
  predicate EarlyInParenthesesAt(s: seq<char>, k: nat) {
    k <= |s| && Group(s[k..], true) && EarlyBpm(s[k + 2..|s| - 1])
  }

  /** BPM_WITH_KEY, `\s\((…)\)$`, matches from `k`. */
  predicate EarlyWithKeyAt(s: seq<char>, k: nat) {
    k <= |s| && Group(s[k..], false) && EarlyKey(s[k + 2..|s| - 1])
  }

  /** BPM_WITH_LETTERS, `\s\((…)\)$`, matches from `k`. */
  predicate EarlyWithLettersAt(s: seq<char>, k: nat) {
    k <= |s| && Group(s[k..], false) && EarlyLetters(s[k + 2..|s| - 1])
  }

  /** `replace_all(s, "")` for an end-anchored pattern: everything from the
      leftmost match on is cut. */
  function CutAnchored(s: seq<char>, p: (seq<char>, nat) -> bool): (r: seq<char>)
    ensures |r| <= |s| && r == s[..|r|]
    ensures FirstAnchored(s, 0, p).None? ==> r == s
    ensures FirstAnchored(s, 0, p).Some? ==> p(s, |r|)
  {
    match FirstAnchored(s, 0, p)
    case Some(k) => s[..k]
    case None => s
  }

  /** `remove_bpm_in_parentheses_from_end` (src/formatter.rs:354-368): a
      title ending in " (4U)" stays; otherwise the three patterns are
      applied in turn, the letters one only when the text does not end in
      " mix)" in any case. What is left is a prefix of the title, and
      whatever was cut started with white space. */
  function EarlyRemoveBpm(text: seq<char>): (r: seq<char>)
    ensures EndsWith(text, " (4U)") ==> r == text
    ensures |r| <= |text| && r == text[..|r|]
    ensures r != text ==> IsSpace(text[|r|]) && text[|text| - 1] == ')'
  {
    if EndsWith(text, " (4U)") then text
    else
      var r1 := CutAnchored(text, EarlyInParenthesesAt);
      var r2 := CutAnchored(r1, EarlyWithKeyAt);
      if EndsWith(Lower(r2), " mix)") then r2
      else CutAnchored(r2, EarlyWithLettersAt)
  }

  /** Both parts without '(' means the whole has none. */
  lemma SplitNoParen(m: seq<char>, k: nat)
    requires k <= |m| && '(' !in m[..k] && '(' !in m[k..]
    ensures '(' !in m
  {
    assert m == m[..k] + m[k..];
  }

  lemma SpacedNoParen(b: seq<char>, n: nat, sep: char -> bool, lo: nat, hi: nat)
    requires SpacedDigits(b, n, sep, lo, hi) && !sep('(')
    ensures '(' !in b
  {
    var k := |b| - n - 1;
    assert b[k..] == [b[k]] + b[|b| - n..];
    SplitNoParen(b, k);
  }

  lemma KeyDigitsNoParen(x: seq<char>)
    requires KeyDigits(x)
    ensures '(' !in x
  {
    if SpacedDigits(x, 1, IsSpace, 1, 2) {
      SpacedNoParen(x, 1, IsSpace, 1, 2);
    } else if SpacedDigits(x, 2, IsSpace, 1, 2) {
      SpacedNoParen(x, 2, IsSpace, 1, 2);
    }
  }

  /** None of the three BPM bodies holds a '('. */
  lemma BodyHasNoParen(m: seq<char>)
    requires EarlyBpm(m) || EarlyKey(m) || EarlyLetters(m)
    ensures '(' !in m
  {
    if EarlyBpm(m) {
      BpmBodyNoParen(m);
    } else if EarlyKey(m) {
      KeyBodyNoParen(m);
    } else {
      LettersBodyNoParen(m);
    }
  }

  lemma BpmBodyNoParen(m: seq<char>)
    requires EarlyBpm(m)
    ensures '(' !in m
  {
    if Digits(m, 2, 3) {
    } else if |m| >= 2 && m[|m| - 2] == '.' && IsDigit(m[|m| - 1]) && Digits(m[..|m| - 2], 2, 3) {
      SplitNoParen(m, |m| - 2);
    } else {
      var b := m[..|m| - 1];
      if SpacedDigits(b, 1, IsBlank, 2, 3) {
        SpacedNoParen(b, 1, IsBlank, 2, 3);
      } else {
        SpacedNoParen(b, 2, IsBlank, 2, 3);
      }
      SplitNoParen(m, |m| - 1);
    }
  }

  lemma KeyBodyNoParen(m: seq<char>)
    requires EarlyKey(m)
    ensures '(' !in m
  {
    var b := m[..|m| - 1];
    if KeyDigits(b) {
      KeyDigitsNoParen(b);
    } else {
      KeyDigitsNoParen(b[..|b| - 1]);
      SplitNoParen(b, |b| - 1);
    }
    SplitNoParen(m, |m| - 1);
  }

  lemma LettersBodyNoParen(m: seq<char>)
    requires EarlyLetters(m)
    ensures '(' !in m
  {
    if EarlyLettersWith(m, 2) {
      LettersWithNoParen(m, 2);
    } else {
      LettersWithNoParen(m, 3);
    }
  }

  lemma LettersWithNoParen(m: seq<char>, n: nat)
    requires EarlyLettersWith(m, n)
    ensures '(' !in m
  {
    AlphaNoParen(m[|m| - n..]);
    LettersPrefixNoParen(m, n);
    SplitNoParen(m, |m| - n);
  }

  lemma LettersPrefixNoParen(m: seq<char>, n: nat)
    requires EarlyLettersWith(m, n)
    ensures '(' !in m[..|m| - n]
  {
    var d := m[..|m| - n];
    if Digits(d, 2, 3) {
      DigitsNoParen(d);
    } else {
      assert d[..|d| - 1] == m[..|m| - n - 1];
      DigitsNoParen(d[..|d| - 1]);
      assert d[|d| - 1..] == [m[|m| - n - 1]];
      SplitNoParen(d, |d| - 1);
    }
  }

  lemma DigitsNoParen(d: seq<char>)
    requires Digits(d, 2, 3)
    ensures '(' !in d
  {
  }

  lemma AlphaNoParen(t: seq<char>)
    requires AllAlpha(t)
    ensures '(' !in t
  {
  }


  /** A group pattern cannot start where its body would take in the '(' at
      `p`. */
  lemma NoEarlierGroup(s: seq<char>, k: nat, p: nat)
    requires k + 2 <= p < |s| - 1 && s[p] == '('
    ensures !EarlyInParenthesesAt(s, k) && !EarlyWithKeyAt(s, k) && !EarlyWithLettersAt(s, k)
  {
    var m := s[k + 2..|s| - 1];
    assert m[p - k - 2] == '(';
    if EarlyBpm(m) || EarlyKey(m) || EarlyLetters(m) {
      BodyHasNoParen(m);
    }
  }

  /** No group pattern matches after the last '(' of the text. */
  lemma NoLaterGroup(s: seq<char>, g: nat, k: nat, spaceLiteral: bool)
    requires g < k <= |s| && g + 1 < |s| && s[g + 1] == '(' && '(' !in s[g + 2..]
    ensures !Group(s[k..], spaceLiteral)
  {
    if |s[k..]| >= 3 {
      assert s[k..][1] == s[k + 1] == s[g + 2..][k - g - 1];
    }
  }

  /** After a title whose last character is not ')', no group pattern
      matches anywhere. */
  lemma NoGroupBefore(s: seq<char>, k: nat, spaceLiteral: bool)
    requires k <= |s| && (s == [] || s[|s| - 1] != ')')
    ensures !Group(s[k..], spaceLiteral)
  {
    if |s[k..]| >= 3 {
      assert s[k..][|s[k..]| - 1] == s[|s| - 1];
    }
  }

  /** "Cut (Trayze Acapella Out) (136)" (src/formatter.rs:433): a trailing
      group of two or three digits is removed from a title that does not
      itself end in ')'. */
  lemma EarlyRemovesBpmGroup(t: seq<char>, n: seq<char>)
    requires Digits(n, 2, 3) && (t == [] || t[|t| - 1] != ')')
    ensures EarlyRemoveBpm(t + " (" + n + ")") == t
  {
    var s := t + " (" + n + ")";
    assert !EndsWith(s, " (4U)") by {
      assert s[|s| - 2] == n[|n| - 1];
      assert s[|s| - 5..][3] == s[|s| - 2];
    }
    BpmGroupFirst(t, n);
    assert s[..|t|] == t;
    NoGroupInPlainTitle(t);
  }

  /** The digit group is the leftmost match of the first pattern. */
  lemma BpmGroupFirst(t: seq<char>, n: seq<char>)
    requires Digits(n, 2, 3)
    ensures FirstAnchored(t + " (" + n + ")", 0, EarlyInParenthesesAt) == Some(|t|)
  {
    var s := t + " (" + n + ")";
    BpmGroupAt(t, n);
    NoBpmGroupBefore(t, n);
    FirstAnchoredIs(s, 0, EarlyInParenthesesAt, |t|);
  }

  lemma BpmGroupAt(t: seq<char>, n: seq<char>)
    requires Digits(n, 2, 3)
    ensures EarlyInParenthesesAt(t + " (" + n + ")", |t|)
  {
    var s := t + " (" + n + ")";
    var g := " (" + n + ")";
    assert s == t + g;
    assert s[|t|..] == g by {
      SliceRight(t, g, |t|, |s|);
    }
    assert s[|t| + 2..|s| - 1] == n by {
      SliceRight(t, g, |t| + 2, |s| - 1);
      assert g[2..|g| - 1] == n;
    }
  }

  lemma NoBpmGroupBefore(t: seq<char>, n: seq<char>)
    ensures forall k :: 0 <= k < |t| ==> !EarlyInParenthesesAt(t + " (" + n + ")", k)
  {
    var s := t + " (" + n + ")";
    assert s[|t| + 1] == '(';
    forall k | 0 <= k < |t| ensures !EarlyInParenthesesAt(s, k) {
      NoEarlierGroup(s, k, |t| + 1);
    }
  }

  /** A title that does not end in ')' matches neither group pattern. */
  lemma NoGroupInPlainTitle(t: seq<char>)
    requires t == [] || t[|t| - 1] != ')'
    ensures FirstAnchored(t, 0, EarlyWithKeyAt).None? && FirstAnchored(t, 0, EarlyWithLettersAt).None?
  {
    forall k | 0 <= k <= |t| ensures !EarlyWithKeyAt(t, k) && !EarlyWithLettersAt(t, k) {
      NoGroupBefore(t, k, false);
    }
    FirstAnchoredNone(t, 0, EarlyWithKeyAt);
    FirstAnchoredNone(t, 0, EarlyWithLettersAt);
  }

  /** The body "<digits> Mix" is neither a BPM nor a key, but it is a
      BPM with letters. */
  lemma MixBody(n: seq<char>)
    requires Digits(n, 2, 3)
    ensures !EarlyBpm(n + " Mix") && !EarlyKey(n + " Mix") && EarlyLettersWith(n + " Mix", 3)
    ensures '(' !in n + " Mix"
  {
    var m := n + " Mix";
    assert m[|m| - 1] == 'x' && m[|m| - 2] == 'i';
    var b := m[..|m| - 1];
    assert b[|b| - 1] == 'i';
    assert b[|b| - 1..][0] == 'i';
    assert b[|b| - 2..][1] == 'i';
    assert m[|m| - 3..] == "Mix";
    assert m[..|m| - 3] == n + " ";
    assert m[..|m| - 4] == n;
  }

  /** "(89 Mix)" (src/formatter.rs:446-449): a group ending in " Mix)" is
      kept although the letters pattern matches it. */
  lemma EarlyKeepsMixGroup(t: seq<char>, n: seq<char>)
    requires Digits(n, 2, 3)
    ensures EarlyRemoveBpm(t + " (" + n + " Mix)") == t + " (" + n + " Mix)"
    ensures EarlyWithLettersAt(t + " (" + n + " Mix)", |t|)
  {
    var s := t + " (" + n + " Mix)";
    MixGroupNoBpmMatch(t, n);
    EndsInMix(s[..|s| - 5]);
    assert s == s[..|s| - 5] + " Mix)";
    EarlyRemoveBpmKeeps(s);
  }

  lemma EndsInMix(u: seq<char>)
    ensures !EndsWith(u + " Mix)", " (4U)") && EndsWith(Lower(u + " Mix)"), " mix)")
  {
    var s := u + " Mix)";
    assert s[|s| - 5..] == " Mix)";
    assert Lower(s)[|s| - 5..] == Lower(s[|s| - 5..]);
  }

  /** The removal keeps a text that ends in " mix)" once neither of the
      first two patterns matches. */
  lemma EarlyRemoveBpmKeeps(s: seq<char>)
    requires !EndsWith(s, " (4U)") && EndsWith(Lower(s), " mix)")
    requires FirstAnchored(s, 0, EarlyInParenthesesAt).None? && FirstAnchored(s, 0, EarlyWithKeyAt).None?
    ensures EarlyRemoveBpm(s) == s
  {
  }

  /** In "<t> (<n> Mix)" only the letters pattern matches, at the group. */
  lemma MixGroupNoBpmMatch(t: seq<char>, n: seq<char>)
    requires Digits(n, 2, 3)
    ensures var s := t + " (" + n + " Mix)";
            && FirstAnchored(s, 0, EarlyInParenthesesAt).None?
            && FirstAnchored(s, 0, EarlyWithKeyAt).None?
            && EarlyWithLettersAt(s, |t|)
  {
    var s := t + " (" + n + " Mix)";
    var m := n + " Mix";
    assert s[|t|..] == " (" + m + ")" && s[|t| + 2..|s| - 1] == m;
    assert s[|t| + 2..] == m + ")" && s[|t| + 1] == '(';
    MixBody(n);
    forall k | 0 <= k <= |s| ensures !EarlyInParenthesesAt(s, k) && !EarlyWithKeyAt(s, k) {
      if k < |t| {
        NoEarlierGroup(s, k, |t| + 1);
      } else if k > |t| {
        NoLaterGroup(s, |t|, k, true);
        NoLaterGroup(s, |t|, k, false);
      }
    }
    FirstAnchoredNone(s, 0, EarlyInParenthesesAt);
    FirstAnchoredNone(s, 0, EarlyWithKeyAt);
  }



  // ---------------------------------------------------------------------
  // format_tags

  /** Extensions and the literal and regex tables (src/formatter.rs:98-125). */
  function EarlyPrepareTags(artist: seq<char>, title: seq<char>, regexes: seq<seq<char> -> seq<char>>): (seq<char>, seq<char>) {
    EarlyTablesAreLiteral();
    var a := SubstituteAt(EarlyCommonSubstitutes, StripExtensionsAt(artist, 5), 18);
    var t := SubstituteAt(EarlyTitleSubstitutes, SubstituteAt(EarlyCommonSubstitutes, StripExtensionsAt(title, 5), 18), 31);
    (RewriteAt(regexes, a, |regexes|), RewriteAt(regexes, t, |regexes|))
  }

  /** The helper passes (src/formatter.rs:127-137). */
  function EarlyHelperPasses(artist: seq<char>, title: seq<char>): (seq<char>, seq<char>) {
    var t := UseParenthesisForMix(title);
    var (a, t) := EarlyMoveFeat(artist, t);
    var t := RustNestCleanup(NestRaw(ReplaceDashInParentheses(t), false));
    var t := EarlyRemoveBpm(WrapTextAfterParentheses(t));
    var t := ReplaceAll(ReplaceAll(t, "((", "("), "))", ")");
    (ExtractFeatFromParentheses(a), Balanced(t))
  }

  /** What `format_tags` returns: both fields trimmed. */
  function EarlyFormattedTags(artist: seq<char>, title: seq<char>, regexes: seq<seq<char> -> seq<char>>): (r: (seq<char>, seq<char>))
    ensures IsTrimmedBy(r.0, IsSpace) && IsTrimmedBy(r.1, IsSpace)
  {
    EarlyTablesAreLiteral();
    var (a, t) := EarlyPrepareTags(artist, title, regexes);
    var (a, t) := EarlyHelperPasses(a, t);
    var a := SubstituteAt(EarlyCommonSubstitutes, RewriteAt(regexes, a, |regexes|), 18);
    var t := SubstituteAt(EarlyCommonSubstitutes, RewriteAt(regexes, t, |regexes|), 18);
    TrimIsTrimmed(a);
    TrimIsTrimmed(t);
    (Trim(a), Trim(t))
  }

  /** `format_tags` (src/formatter.rs:97-149); REGEX_SUBSTITUTES
      (src/formatter.rs:60-82) is the list `regexes`. */
  method EarlyFormatTags(artist: seq<char>, title: seq<char>, regexes: seq<seq<char> -> seq<char>>)
    returns (a: seq<char>, t: seq<char>)
    ensures (a, t) == EarlyFormattedTags(artist, title, regexes)
  {
    EarlyTablesAreLiteral();
    a, t := EarlyNormalizeTags(artist, title, regexes);
    a, t := EarlyRunHelperPasses(a, t);
    a, t := ApplyRewrites(regexes, a, t);
    a, t := SubstituteBoth(EarlyCommonSubstitutes, a, t);
    a, t := Trim(a), Trim(t);
  }

  /** src/formatter.rs:98-125, in the source's order. */
  method EarlyNormalizeTags(artist: seq<char>, title: seq<char>, regexes: seq<seq<char> -> seq<char>>)
    returns (a: seq<char>, t: seq<char>)
    ensures (a, t) == EarlyPrepareTags(artist, title, regexes)
  {
    EarlyTablesAreLiteral();
    a := StripExtensions(artist);
    t := StripExtensions(title);
    a, t := SubstituteBoth(EarlyCommonSubstitutes, a, t);
    t := SubstituteOne(EarlyTitleSubstitutes, t);
    a, t := ApplyRewrites(regexes, a, t);
  }

  /** The extension loop for one field (src/formatter.rs:101-110): the
      field loses only an ending, and is cut exactly when it ends with an
      extension. */
  method StripExtensions(text: seq<char>) returns (t: seq<char>)
    ensures t == StripExtensionsAt(text, |FileExtensions|)
    ensures |t| <= |text| && t == text[..|t|]
    ensures t == text <==> NoExtension(text, |FileExtensions|)
  {
    t := text;
    for i := 0 to |FileExtensions|
      invariant t == StripExtensionsAt(text, i)
    {
      var ext := FileExtensions[i];
      if EndsWith(Lower(t), ext) {
        t := t[..|t| - |ext|];
      }
    }
    StripExtensionsAtPrefix(text, |FileExtensions|);
  }

  /** One literal table applied to one field, in order; a field holding
      none of the table's patterns comes out unchanged. */
  method SubstituteOne(table: seq<(seq<char>, seq<char>)>, text: seq<char>) returns (t: seq<char>)
    requires LiteralTable(table)
    ensures t == SubstituteAt(table, text, |table|)
    ensures (forall i :: 0 <= i < |table| ==> !Contains(text, table[i].0)) ==> t == text
  {
    t := text;
    for i := 0 to |table|
      invariant t == SubstituteAt(table, text, i)
    {
      t := ReplaceAll(t, table[i].0, table[i].1);
    }
    if forall i :: 0 <= i < |table| ==> !Contains(text, table[i].0) {
      SubstituteAtNone(table, text, |table|);
    }
  }

  /** src/formatter.rs:127-137, in the source's order. */
  method EarlyRunHelperPasses(artist: seq<char>, title: seq<char>) returns (a: seq<char>, t: seq<char>)
    ensures (a, t) == EarlyHelperPasses(artist, title)
  {
    t := UseParenthesisForMix(title);
    a, t := EarlyMoveFeatFromTitleToArtist(artist, t);
    t := ReplaceDashInParentheses(t);
    t := FixNestedParentheses(t);
    t := WrapTextAfterParentheses(t);
    t := EarlyRemoveBpm(t);
    t := ReplaceAll(ReplaceAll(t, "((", "("), "))", ")");
    a := ExtractFeatFromParentheses(a);
    t := BalanceParenthesis(t);
  }
}
