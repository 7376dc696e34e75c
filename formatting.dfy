/** The string helpers of the current Rust normaliser (src/formatting.rs)
    and its orchestrator `format_tags_for_artist_and_title`. A helper that
    takes `&mut String` is modelled as a function from the old text to the
    new one. The three scanning passes live in module Parens; the large
    regex tables are an ordered list of opaque rewrites (`Tables`). */
module Formatting {
  import opened Strings
  import opened Patterns
  import opened Parens

  // ---------------------------------------------------------------------
  // use_parenthesis_for_mix

  /** `use_parenthesis_for_mix` (src/formatting.rs:596-613): the first " - "
      becomes " (", and one ")" goes in front of the next " (" after it, or
      at the end. */
  function UseParenthesisForMix(title: seq<char>): (r: seq<char>)
  {
    match Find(title, " - ")
    case None => title
    case Some(i) =>
      var t := ReplaceFirst(title, " - ", " (");
      FindFromSpec(t, " (", i + 2);
      match FindFrom(t, " (", i + 2)
      case Some(j) => t[..j] + ")" + t[j..]
      case None => t + ")"
  }

  lemma CountSplit3(a: seq<char>, b: seq<char>, c: seq<char>, ch: char)
    ensures Count(a + b + c, ch) == Count(a, ch) + Count(b, ch) + Count(c, ch)
  {
    CountAppend(a + b, c, ch);
    CountAppend(a, b, ch);
  }

  /** " - " turned into " (" adds one "(" and no ")". */
  lemma DashToParen(x: seq<char>, y: seq<char>)
    ensures Count(x + " (" + y, '(') == Count(x + " - " + y, '(') + 1
    ensures Count(x + " (" + y, ')') == Count(x + " - " + y, ')')
  {
    CountSplit3(x, " - ", y, '(');
    CountSplit3(x, " - ", y, ')');
    CountSplit3(x, " (", y, '(');
    CountSplit3(x, " (", y, ')');
    assert Count(" - ", '(') == 0 && Count(" - ", ')') == 0;
    assert Count(" (", '(') == 1 && Count(" (", ')') == 0;
  }

  /** One ")" put in at `j` adds one ")" and no "(". */
  lemma InsertClose(t: seq<char>, j: nat)
    requires j <= |t|
    ensures Count(t[..j] + ")" + t[j..], '(') == Count(t, '(')
    ensures Count(t[..j] + ")" + t[j..], ')') == Count(t, ')') + 1
  {
    assert t == t[..j] + t[j..];
    CountSplit3(t[..j], ")", t[j..], '(');
    CountSplit3(t[..j], ")", t[j..], ')');
    CountAppend(t[..j], t[j..], '(');
    CountAppend(t[..j], t[j..], ')');
    assert Count(")", '(') == 0 && Count(")", ')') == 1;
  }

  /** The dash replaced: the text before it, " (", the text after it. */
  lemma DashReplaced(title: seq<char>)
    requires Contains(title, " - ")
    ensures var i := Find(title, " - ").value;
      var t := ReplaceFirst(title, " - ", " (");
      && t == title[..i] + " (" + title[i + 3..]
      && |t| == |title| - 1
      && Count(t, '(') == Count(title, '(') + 1
      && Count(t, ')') == Count(title, ')')
  {
    var i := Find(title, " - ").value;
    assert title == title[..i] + " - " + title[i + 3..];
    DashToParen(title[..i], title[i + 3..]);
  }

  /** Where the ")" goes: in front of the next " (", or at the end. */
  function MixClosePos(t: seq<char>, from: nat): (j: nat)
    ensures from <= j <= |t| || j == |t|
  {
    FindFromSpec(t, " (", from);
    match FindFrom(t, " (", from)
    case Some(j) => j
    case None => |t|
  }

  lemma MixIsInsert(title: seq<char>)
    requires Contains(title, " - ")
    ensures var t := ReplaceFirst(title, " - ", " (");
      var j := MixClosePos(t, Find(title, " - ").value + 2);
      UseParenthesisForMix(title) == t[..j] + ")" + t[j..]
  {
    var t := ReplaceFirst(title, " - ", " (");
    var i := Find(title, " - ").value;
    if FindFrom(t, " (", i + 2).None? {
      assert t[..|t|] == t;
    }
  }

  /** With no " - " the title is unchanged; otherwise the text before the
      dash is kept, the dash becomes " (", the length is the same and there
      is exactly one more "(" and one more ")". */
  lemma MixShape(title: seq<char>)
    ensures !Contains(title, " - ") ==> UseParenthesisForMix(title) == title
    ensures Contains(title, " - ") ==>
      var r := UseParenthesisForMix(title);
      var i := Find(title, " - ").value;
      && |r| == |title|
      && r[..i] == title[..i]
      && r[i..i + 2] == " ("
      && Count(r, '(') == Count(title, '(') + 1
      && Count(r, ')') == Count(title, ')') + 1
  {
    if Contains(title, " - ") {
      var i := Find(title, " - ").value;
      var t := ReplaceFirst(title, " - ", " (");
      var j := MixClosePos(t, i + 2);
      DashReplaced(title);
      MixIsInsert(title);
      InsertClose(t, j);
      var r := UseParenthesisForMix(title);
      assert j >= i + 2 by {
        if FindFrom(t, " (", i + 2).None? {
          assert |t| >= i + 2;
        }
      }
      assert r[..i + 2] == t[..i + 2];
      assert t[..i + 2] == title[..i] + " (";
    }
  }

  /** The first " - " of `a + " - " + rest` is the one after `a` when `a`
      has no "-". */
  lemma FirstDashAfter(a: seq<char>, rest: seq<char>)
    requires '-' !in a
    ensures Find(a + " - " + rest, " - ") == Some(|a|)
    ensures ReplaceFirst(a + " - " + rest, " - ", " (") == a + " (" + rest
  {
    var s := a + " - " + rest;
    assert OccursAt(s, " - ", |a|);
    forall j | 0 <= j < |a| ensures !OccursAt(s, " - ", j) {
      assert s[j + 1] != '-';
    }
    assert s[|a| + 3..] == rest;
  }

  /** Test case "Azn Danza - Myles Club Edit" (src/formatting.rs:737-740),
      for every title of that shape: the mix part is wrapped up to the end. */
  lemma MixWrapsToEnd(a: seq<char>, b: seq<char>)
    requires '-' !in a && '(' !in b
    ensures UseParenthesisForMix(a + " - " + b) == a + " (" + b + ")"
  {
    FirstDashAfter(a, b);
    var t := a + " (" + b;
    forall j | |a| + 2 <= j ensures !OccursAt(t, " (", j) {
      if j + 2 <= |t| {
        assert t[j + 1] == b[j + 1 - |a| - 2];
      }
    }
    FindFromNone(t, " (", |a| + 2);
    MixIsInsert(a + " - " + b);
    assert t[..|t|] == t;
  }

  /** Test case "About Damn Time - Purple Disco Machine (Dirty Intro)"
      (src/formatting.rs:742-745): the ")" goes in front of the next group. */
  lemma MixClosesBeforeGroup(a: seq<char>, b: seq<char>, c: seq<char>)
    requires '-' !in a && '(' !in b
    ensures UseParenthesisForMix(a + " - " + b + " (" + c) == a + " (" + b + ") (" + c
  {
    var rest := b + " (" + c;
    assert a + " - " + b + " (" + c == a + " - " + rest;
    FirstDashAfter(a, rest);
    var t := a + " (" + rest;
    var k := |a| + 2 + |b|;
    var p := a + " (";
    assert t == p + rest;
    assert FindFrom(rest, " (", 0) == Some(|b|) by {
      assert rest[|b|..|b| + 2] == " (";
      forall j | 0 <= j < |b|
        ensures !OccursAt(rest, " (", j)
      {
        if j + 1 < |b| {
          assert rest[j + 1] == b[j + 1];
        } else {
          assert rest[j + 1] == ' ';
        }
      }
      FindFromIs(rest, " (", 0, |b|);
    }
    assert MixClosePos(t, |a| + 2) == k by {
      FindFromShift(p, rest, " (", |p|);
    }
    MixIsInsert(a + " - " + rest);
    assert t[..k] == a + " (" + b && t[k..] == " (" + c;
  }

  // ---------------------------------------------------------------------
  // extract_feat_from_parentheses

  /** `extract_feat_from_parentheses` (src/formatting.rs:660-668): the first
      "(feat. " group up to its first ")" loses its two parentheses. */
  function ExtractFeatFromParentheses(artist: seq<char>): (r: seq<char>)
  {
    match Find(artist, "(feat. ")
    case None => artist
    case Some(start) =>
      match Find(artist[start..], ")")
      case None => artist
      case Some(end) =>
        assert artist[start..][0] == '(';
        UnwrapGroup(artist, start, end)
  }

  /** `replacen(feature_part, inner, 1)` for the group of `end + 1`
      characters at `start`: its first occurrence loses its first and last
      character. */
  function UnwrapGroup(artist: seq<char>, start: nat, end: nat): seq<char>
    requires 0 < end && start + end < |artist|
  {
    var part := artist[start..start + end + 1];
    ReplaceFirst(artist, part, part[1..end])
  }

  /** The first ")" after "(feat. " is past those seven characters. */
  lemma FeatCloseAfterPrefix(artist: seq<char>, start: nat)
    requires OccursAt(artist, "(feat. ", start)
    requires Find(artist[start..], ")").Some?
    ensures Find(artist[start..], ")").value >= 7
  {
    var rest := artist[start..];
    assert rest[..7] == "(feat. ";
    forall j | 0 <= j < 7 ensures !OccursAt(rest, ")", j) {
      assert rest[j] == "(feat. "[j];
    }
  }

  /** The group found by its "(feat. " start is found again at that start. */
  lemma FeatPartFirst(artist: seq<char>, start: nat, close: nat)
    requires Find(artist, "(feat. ") == Some(start)
    requires start + 7 <= close < |artist|
    ensures Find(artist, artist[start..close + 1]) == Some(start)
  {
    var part := artist[start..close + 1];
    assert part[..7] == "(feat. ";
    assert OccursAt(artist, part, start);
    forall j | 0 <= j < start ensures !OccursAt(artist, part, j) {
      assert !OccursAt(artist, "(feat. ", j);
      if j + |part| <= |artist| {
        assert artist[j..j + 7] == artist[j..j + |part|][..7];
      }
    }
  }

  /** The position of the ")" that closes the first "(feat. " group. */
  function FeatClose(artist: seq<char>): (r: Option<(nat, nat)>)
    ensures r.Some? ==> var (start, close) := r.value;
      && Find(artist, "(feat. ") == Some(start)
      && start + 7 <= close < |artist| && artist[close] == ')'
      && forall j :: start <= j < close ==> artist[j] != ')'
    ensures r.None? ==> Find(artist, "(feat. ").None? || ')' !in artist[Find(artist, "(feat. ").value..]
  {
    match Find(artist, "(feat. ")
    case None => None
    case Some(start) =>
      var rest := artist[start..];
      FindChar(rest, ')');
      match Find(rest, ")")
      case None => None
      case Some(end) =>
        FeatCloseAfterPrefix(artist, start);
        assert forall j :: start <= j < start + end ==> artist[j] == rest[j - start];
        Some((start, start + end))
  }

  /** Exactly the "(" of the first "(feat. " and the first ")" after it are
      removed (so the length drops by two); with no such group nothing
      changes. */
  lemma ExtractFeatRemovesTwo(artist: seq<char>)
    ensures FeatClose(artist).None? ==> ExtractFeatFromParentheses(artist) == artist
    ensures FeatClose(artist).Some? ==>
      var (start, close) := FeatClose(artist).value;
      && ExtractFeatFromParentheses(artist)
           == artist[..start] + artist[start + 1..close] + artist[close + 1..]
      && |ExtractFeatFromParentheses(artist)| == |artist| - 2
  {
    match Find(artist, "(feat. ")
    case None =>
    case Some(start) =>
      match Find(artist[start..], ")")
      case None =>
      case Some(end) =>
        ExtractFeatAt(artist, start, end);
  }

  lemma ExtractFeatAt(artist: seq<char>, start: nat, end: nat)
    requires Find(artist, "(feat. ") == Some(start) && Find(artist[start..], ")") == Some(end)
    ensures FeatClose(artist) == Some((start, start + end))
    ensures ExtractFeatFromParentheses(artist)
              == artist[..start] + artist[start + 1..start + end] + artist[start + end + 1..]
  {
    FeatCloseAfterPrefix(artist, start);
    ExtractFeatSplice(artist, start, start + end);
  }

  lemma ExtractFeatSplice(artist: seq<char>, start: nat, close: nat)
    requires Find(artist, "(feat. ") == Some(start) && start + 7 <= close < |artist|
    requires Find(artist[start..], ")") == Some(close - start)
    ensures ExtractFeatFromParentheses(artist)
              == artist[..start] + artist[start + 1..close] + artist[close + 1..]
  {
    ExtractIsUnwrap(artist, start, close - start);
    FeatPartFirst(artist, start, close);
    UnwrapGroupAt(artist, start, close);
  }

  lemma ExtractIsUnwrap(artist: seq<char>, start: nat, end: nat)
    requires Find(artist, "(feat. ") == Some(start) && Find(artist[start..], ")") == Some(end)
    ensures 0 < end && start + end < |artist|
    ensures ExtractFeatFromParentheses(artist) == UnwrapGroup(artist, start, end)
  {
    assert artist[start..][0] == artist[start] == '(';
  }

  /** Unwrapping a group that is first found at its own start. */
  lemma UnwrapGroupAt(artist: seq<char>, start: nat, close: nat)
    requires start < close < |artist| && Find(artist, artist[start..close + 1]) == Some(start)
    ensures UnwrapGroup(artist, start, close - start)
              == artist[..start] + artist[start + 1..close] + artist[close + 1..]
  {
    var part := artist[start..close + 1];
    var inner := part[1..close - start];
    ReplaceFirstAt(artist, part, inner, start);
    SliceOfSlice(artist, start, close + 1, 1, close - start - 1);
  }

  lemma FeatCloseOfGroup(a: seq<char>, b: seq<char>)
    requires '(' !in a && ')' !in b
    ensures FeatClose(a + "(feat. " + b + ")") == Some((|a|, |a| + 7 + |b|))
  {
    var s := a + "(feat. " + b + ")";
    assert Find(s, "(feat. ") == Some(|a|) by {
      assert OccursAt(s, "(feat. ", |a|);
      forall j | 0 <= j < |a| ensures !OccursAt(s, "(feat. ", j) {
        assert s[j] == a[j];
      }
    }
    assert s[|s| - 1] == ')';
    assert ')' in s[|a|..];
    forall j | |a| <= j < |s| - 1 ensures s[j] != ')' {
      assert s[j] == ("(feat. " + b)[j - |a|];
    }
  }

  /** Test case "Major Lazer (feat. Laidback Luke & Ms. Dynamite)"
      (src/formatting.rs:749-754), for every artist of that shape. */
  lemma ExtractFeatUnwraps(a: seq<char>, b: seq<char>)
    requires '(' !in a && ')' !in b
    ensures ExtractFeatFromParentheses(a + "(feat. " + b + ")") == a + "feat. " + b
  {
    var s := a + "(feat. " + b + ")";
    var close := |a| + 7 + |b|;
    FeatCloseOfGroup(a, b);
    ExtractFeatRemovesTwo(s);
    assert s[..|a|] + s[|a| + 1..close] + s[close + 1..] == a + "feat. " + b by {
      assert s[..|a|] == a;
      assert s[|a| + 1..close] == "feat. " + b;
      assert s[close + 1..] == [];
    }
  }

  // ---------------------------------------------------------------------
  // remove_unmatched_closing_parenthesis

  /** `remove_unmatched_closing_parenthesis` (src/formatting.rs:495-500):
      trims, then drops a final ")" when the text has no "(" at all. */
  function RemoveUnmatchedClosingParenthesis(input: seq<char>): (r: seq<char>)
    ensures '(' in Trim(input) ==> r == Trim(input)
    ensures r == Trim(input) || (r + ")" == Trim(input) && '(' !in r)
    ensures EndsWith(Trim(input), ")") && '(' !in Trim(input) ==> |r| == |Trim(input)| - 1
  {
    var t := Trim(input);
    if EndsWith(t, ")") && '(' !in t then t[..|t| - 1] else t
  }

  // ---------------------------------------------------------------------
  // remove_bpm_in_parentheses_from_end
  //
  // The five patterns (src/formatting.rs:317-343), written by hand. The
  // BPM alternations are 50-179, or 50-180 for the first pattern; `\d`,
  // `[a-zA-Z]` and the word characters of `\b` are taken as ASCII.

  /** `5[0-9]|…|9[0-9]|1[0-6][0-9]|17[0-9]`: a BPM from 50 to 179. */
  predicate Bpm179(n: seq<char>) {
    || (|n| == 2 && '5' <= n[0] <= '9' && IsDigit(n[1]))
    || (|n| == 3 && n[0] == '1' && '0' <= n[1] <= '7' && IsDigit(n[2]))
  }

  /** The same with "180" added. */
  predicate Bpm180(n: seq<char>) {
    Bpm179(n) || n == "180"
  }

  /** `\b` in front of a word character at `k`. */
  predicate WordStart(s: seq<char>, k: nat) {
    k == 0 || (k <= |s| && !IsWord(s[k - 1]))
  }

  predicate AllAlpha(t: seq<char>) {
    forall i :: 0 <= i < |t| ==> IsAlpha(t[i])
  }

  /** `(1[0-2]|[1-9])`: a musical key number. */
  predicate KeyNumber(k: seq<char>) {
    || (|k| == 1 && '1' <= k[0] <= '9')
    || (|k| == 2 && k[0] == '1' && '0' <= k[1] <= '2')
  }

  /** `bpm\s?[a-zA-Z]{2,3}`, matched as a whole, with `n` letters. */
  predicate BpmLettersWith(m: seq<char>, n: nat) {
    && n <= |m| && AllAlpha(m[|m| - n..])
    && (Bpm179(m[..|m| - n]) || (|m| - n >= 1 && IsSpace(m[|m| - n - 1]) && Bpm179(m[..|m| - n - 1])))
  }

  predicate BpmLetters(m: seq<char>) {
    BpmLettersWith(m, 2) || BpmLettersWith(m, 3)
  }

  /** `(bpm)(?:\.\d)?` with the 50-180 range, matched as a whole. */
  predicate BpmDecimal(m: seq<char>) {
    Bpm180(m) || (|m| >= 4 && m[|m| - 2] == '.' && IsDigit(m[|m| - 1]) && Bpm180(m[..|m| - 2]))
  }

  /** `(bpm)\s(key)` with an `n`-digit key, matched as a whole. */
  predicate BpmSpaceKey(b: seq<char>, n: nat) {
    n + 1 <= |b| && KeyNumber(b[|b| - n..]) && IsSpace(b[|b| - n - 1]) && Bpm179(b[..|b| - n - 1])
  }

  /** `(bpm)(?:\s(key))?[a-zA-Z]`, matched as a whole. */
  predicate BpmKey(m: seq<char>) {
    && |m| >= 1 && IsAlpha(m[|m| - 1])
    && var b := m[..|m| - 1];
       Bpm179(b) || BpmSpaceKey(b, 1) || BpmSpaceKey(b, 2)
  }

  /** A group "( … )" preceded by `sp` and matched as a whole. */
  predicate Group(u: seq<char>, spaceLiteral: bool) {
    && |u| >= 3 && u[1] == '(' && u[|u| - 1] == ')'
    && (if spaceLiteral then u[0] == ' ' else IsSpace(u[0]))
  }

  /** RE_BPM_IN_PARENTHESES: ` \((bpm)(?:\.\d)?\)$` matches from `k`. */
  predicate InParenthesesAt(s: seq<char>, k: nat) {
    k <= |s| && Group(s[k..], true) && BpmDecimal(s[k + 2..|s| - 1])
  }

  /** RE_BPM_WITH_KEY: `\s\((bpm)(?:\s(key))?[a-zA-Z]\)$` matches from `k`. */
  predicate WithKeyAt(s: seq<char>, k: nat) {
    k <= |s| && Group(s[k..], false) && BpmKey(s[k + 2..|s| - 1])
  }

  /** RE_BPM_WITH_TEXT_PARENTHESES: `\s\((bpm)\s?[a-zA-Z]{2,3}\)$`. */
  predicate TextParenthesesAt(s: seq<char>, k: nat) {
    k <= |s| && Group(s[k..], false) && BpmLetters(s[k + 2..|s| - 1])
  }

  /** RE_BPM_WITH_EXTRA_TEXT: `\b(bpm)\s?[a-zA-Z]{2,3}$`. */
  predicate ExtraTextAt(s: seq<char>, k: nat) {
    k <= |s| && WordStart(s, k) && BpmLetters(s[k..])
  }

  /** The leftmost start of an end-anchored pattern, searching from `k`. */
  function FirstAnchored(s: seq<char>, k: nat, p: (seq<char>, nat) -> bool): (r: Option<nat>)
    ensures r.Some? ==> k <= r.value <= |s| && p(s, r.value)
    ensures r.Some? ==> forall j :: k <= j < r.value ==> !p(s, j)
    ensures r.None? ==> forall j :: k <= j <= |s| ==> !p(s, j)
    decreases |s| + 1 - k
  {
    if k > |s| then None
    else if p(s, k) then Some(k)
    else FirstAnchored(s, k + 1, p)
  }

  /** The leftmost match is `m` when `m` matches and nothing before it does. */
  lemma {:induction false} FirstAnchoredIs(s: seq<char>, k: nat, p: (seq<char>, nat) -> bool, m: nat)
    requires k <= m <= |s| && p(s, m)
    requires forall j :: k <= j < m ==> !p(s, j)
    ensures FirstAnchored(s, k, p) == Some(m)
    decreases m - k
  {
    if k < m {
      FirstAnchoredIs(s, k + 1, p, m);
    }
  }

  /** There is no match when no position matches. */
  lemma {:induction false} FirstAnchoredNone(s: seq<char>, k: nat, p: (seq<char>, nat) -> bool)
    requires forall j :: k <= j <= |s| ==> !p(s, j)
    ensures FirstAnchored(s, k, p) == None
    decreases |s| + 1 - k
  {
    if k <= |s| {
      FirstAnchoredNone(s, k + 1, p);
    }
  }

  /** RE_BPM_WITH_TEXT: `\b(bpm)bpm\b` at `k`; the length of the match.
      The first digit decides between the two- and three-digit branches. */
  function BpmTextAt(s: seq<char>, k: nat): (r: Option<nat>)
    ensures r.Some? ==> k + r.value <= |s| && r.value >= 5
  {
    if k >= |s| || !WordStart(s, k) then None
    else
      var n := if s[k] == '1' then 3 else 2;
      if k + n + 3 <= |s| && Bpm179(s[k..k + n]) && s[k + n..k + n + 3] == "bpm"
         && (k + n + 3 == |s| || !IsWord(s[k + n + 3]))
      then Some(n + 3) else None
  }

  /** `replace_all` of RE_BPM_WITH_TEXT by "", from position `k`. */
  function RemoveBpmText(s: seq<char>, k: nat): seq<char>
    decreases |s| - k
  {
    if k >= |s| then []
    else match BpmTextAt(s, k)
      case Some(n) => RemoveBpmText(s, k + n)
      case None => [s[k]] + RemoveBpmText(s, k + 1)
  }

  predicate HasBpmText(s: seq<char>) {
    exists k :: 0 <= k < |s| && BpmTextAt(s, k).Some?
  }

  /** The loop over the five patterns: the first one that matches is
      applied (`replace_all` by "") and the loop stops. */
  function ApplyFirstBpmPattern(s: seq<char>): seq<char> {
    match FirstAnchored(s, 0, InParenthesesAt)
    case Some(k) => s[..k]
    case None =>
      if HasBpmText(s) then RemoveBpmText(s, 0)
      else match FirstAnchored(s, 0, WithKeyAt)
      case Some(k) => s[..k]
      case None =>
        match FirstAnchored(s, 0, TextParenthesesAt)
        case Some(k) => s[..k]
        case None =>
          match FirstAnchored(s, 0, ExtraTextAt)
          case Some(k) => s[..k]
          case None => s
  }

  const BpmSkipSuffixes: seq<seq<char>> :=
    [" (4u)", "33rpm)", "45rpm)", " mix)", " dub)", " eq)", " rip)"]

  predicate HasSkipSuffix(text: seq<char>) {
    exists i :: 0 <= i < |BpmSkipSuffixes| && EndsWith(Lower(text), BpmSkipSuffixes[i])
  }

  /** `remove_bpm_in_parentheses_from_end` (src/formatting.rs:670-696). */
  function RemoveBpmInParenthesesFromEnd(text: seq<char>): (r: seq<char>)
    ensures HasSkipSuffix(text) ==> r == text
    ensures r == text || (r != [] && IsTrimmedBy(r, IsSpace))
    ensures text != [] ==> r != []
  {
    if HasSkipSuffix(text) then text
    else
      var result := Trim(ApplyFirstBpmPattern(text));
      TrimIsTrimmed(ApplyFirstBpmPattern(text));
      if result != [] then result else text
  }

  /** A title ending in " (NNN)" with a BPM from 50 to 180 loses that
      group, as in "Cut (Trayze Acapella Out) (136)"
      (src/formatting.rs:763). */
  lemma RemovesBpmInParentheses(t: seq<char>, n: seq<char>)
    requires Bpm180(n) && t != [] && IsTrimmedBy(t, IsSpace)
    ensures RemoveBpmInParenthesesFromEnd(t + " (" + n + ")") == t
  {
    var s := t + " (" + n + ")";
    BpmGroupIsFirst(t, n);
    NoSkipSuffixAfterDigit(s);
    assert s[..|t|] == t;
    assert Trim(t) == t;
  }

  /** The digits of a BPM hold no space. */
  lemma BpmDecimalNoSpace(m: seq<char>)
    ensures BpmDecimal(m) ==> ' ' !in m
  {
    if BpmDecimal(m) && !Bpm180(m) {
      assert m == m[..|m| - 2] + [m[|m| - 2], m[|m| - 1]];
    }
  }

  /** The BPM group after a trimmed title is the leftmost match. */
  lemma BpmGroupIsFirst(t: seq<char>, n: seq<char>)
    requires Bpm180(n) && t != [] && IsTrimmedBy(t, IsSpace)
    ensures FirstAnchored(t + " (" + n + ")", 0, InParenthesesAt) == Some(|t|)
  {
    var s := t + " (" + n + ")";
    assert |s| == |t| + |n| + 3;
    assert s[|t|] == ' ' && s[|t| + 1] == '(' && s[|s| - 1] == ')';
    assert s[|t| + 2..|s| - 1] == n;
    assert InParenthesesAt(s, |t|);
    forall j | 0 <= j < |t|
      ensures !InParenthesesAt(s, j)
    {
      if j + 1 < |t| {
        var m := s[j + 2..|s| - 1];
        assert m[|t| - j - 2] == ' ';
        BpmDecimalNoSpace(m);
      } else {
        assert s[j] == t[|t| - 1];
      }
    }
    FirstAnchoredIs(s, 0, InParenthesesAt, |t|);
  }

  /** No skip suffix ends in a digit followed by ")". */
  lemma NoSkipSuffixAfterDigit(s: seq<char>)
    requires |s| >= 2 && s[|s| - 1] == ')' && IsDigit(s[|s| - 2])
    ensures !HasSkipSuffix(s)
  {
    var l := Lower(s);
    assert l[|l| - 1] == ')' && IsDigit(l[|l| - 2]);
    forall i | 0 <= i < |BpmSkipSuffixes| ensures !EndsWith(l, BpmSkipSuffixes[i]) {
      var x := BpmSkipSuffixes[i];
      assert !IsDigit(x[|x| - 2]);
      if |x| <= |l| {
        assert l[|l| - 2] == l[|l| - |x|..][|x| - 2];
      }
    }
  }

  /** Test "Hot (4U)" (src/formatting.rs:758): a skip suffix keeps the text. */
  lemma KeepsSkipSuffix(t: seq<char>)
    ensures RemoveBpmInParenthesesFromEnd(t + " (4U)") == t + " (4U)"
  {
    var s := t + " (4U)";
    assert Lower(s)[|s| - 5..] == " (4u)";
    assert EndsWith(Lower(s), BpmSkipSuffixes[0]);
  }

  // ---------------------------------------------------------------------
  // wrap_text_after_parentheses

  /** The lazy `(.*?)\s\(` part of RE_TEXT_AFTER_PARENTHESES from `j`: the
      end of the shortest match (`.` does not cross a newline). */
  function LazyGroupEnd(s: seq<char>, j: nat): (r: Option<nat>)
    ensures r.Some? ==> j + 2 <= r.value <= |s| && IsSpace(s[r.value - 2]) && s[r.value - 1] == '('
    decreases |s| - j
  {
    if j + 1 >= |s| then None
    else if IsSpace(s[j]) && s[j + 1] == '(' then Some(j + 2)
    else if s[j] == '\n' then None
    else LazyGroupEnd(s, j + 1)
  }

  /** RE_TEXT_AFTER_PARENTHESES, `\)\s(.*?)\s\(`, at `k`: its end. */
  function AfterParenthesesAt(s: seq<char>, k: nat): (r: Option<nat>)
    ensures r.Some? ==> k + 4 <= r.value <= |s| && s[k] == ')' && IsSpace(s[k + 1])
    ensures r.Some? ==> IsSpace(s[r.value - 2]) && s[r.value - 1] == '('
  {
    if k + 1 < |s| && s[k] == ')' && IsSpace(s[k + 1]) then LazyGroupEnd(s, k + 2) else None
  }

  /** `replace_all` of RE_TEXT_AFTER_PARENTHESES by ") ($1) (", from `k`. */
  function WrapGroups(s: seq<char>, k: nat): seq<char>
    decreases |s| - k
  {
    if k >= |s| then []
    else match AfterParenthesesAt(s, k)
      case Some(e) => ") (" + s[k + 2..e - 2] + ") (" + WrapGroups(s, e)
      case None => [s[k]] + WrapGroups(s, k + 1)
  }

  /** The last step, as intended: after the last ")" that is not the final
      character, "(" goes in after the character that follows it and ")"
      at the end. */
  function WrapTail(result: seq<char>): (r: seq<char>)
  {
    match LastIndexOf(result, ')')
    case None => result
    case Some(i) => if i < |result| - 1 then result[..i + 2] + "(" + result[i + 2..] + ")" else result
  }

  /** Bytes of a character in UTF-8. */
  function Utf8Len(c: char): nat {
    if c as int < 0x80 then 1 else if c as int < 0x800 then 2 else if c as int < 0x1_0000 then 3 else 4
  }

  /** The last step as written: `result.insert(index + 2, '(')` takes
      `index + 2` as a byte offset, which is inside the character after the
      ")" when that character takes more than one byte, and `String::insert`
      panics there (None). */
  function WrapTailAsWritten(result: seq<char>): (r: Option<seq<char>>)
  {
    match LastIndexOf(result, ')')
    case None => Some(result)
    case Some(i) =>
      if i < |result| - 1 then
        if Utf8Len(result[i + 1]) == 1 then Some(result[..i + 2] + "(" + result[i + 2..] + ")")
        else None
      else Some(result)
  }

  /** `wrap_text_after_parentheses` (src/formatting.rs:698-726), with the
      insertion taken as the character position its authors meant. */
  function WrapTextAfterParentheses(text: seq<char>): (r: seq<char>)
  {
    if StartsWith(text, "(") then
      match Find(text, ") ")
      case None => text
      case Some(i) => text[..i + 2] + WrapTail(WrapGroups(text[i + 2..], 0))
    else WrapTail(WrapGroups(text, 0))
  }

  /** The same, as written: None where the source panics. */
  function WrapTextAfterParenthesesAsWritten(text: seq<char>): (r: Option<seq<char>>)
  {
    if StartsWith(text, "(") then
      match Find(text, ") ")
      case None => Some(text)
      case Some(i) =>
        match WrapTailAsWritten(WrapGroups(text[i + 2..], 0))
        case None => None
        case Some(t) => Some(text[..i + 2] + t)
    else WrapTailAsWritten(WrapGroups(text, 0))
  }

  /** Each replaced group trades ")" sp … sp "(" for ") (" … ") (": one
      more of each parenthesis, so the balance is kept. */
  lemma {:induction false} WrapGroupsBalance(s: seq<char>, k: nat)
    requires k <= |s|
    ensures Bal(WrapGroups(s, k)) == Bal(s[k..])
    decreases |s| - k
  {
    if k < |s| {
      match AfterParenthesesAt(s, k)
      case Some(e) =>
        WrapGroupsBalance(s, e);
        WrapGroupStepBalance(s, k, e);
        BalAppend(") (" + s[k + 2..e - 2] + ") (", WrapGroups(s, e));
      case None =>
        WrapGroupsBalance(s, k + 1);
        assert s[k..] == [s[k]] + s[k + 1..];
        BalAppend([s[k]], s[k + 1..]);
        BalAppend([s[k]], WrapGroups(s, k + 1));
    }
  }

  lemma SpaceIsNoParen(c: char)
    requires IsSpace(c)
    ensures Bal([c]) == 0
  {
    var t: seq<char> := [c];
    assert t[..|t| - 1] == [];
    assert c != '(' && c != ')';
    assert Count(t, '(') == Count([], '(') + 0;
    assert Count(t, ')') == Count([], ')') + 0;
  }

  /** ") (" opens as much as it closes. */
  lemma BalCloseOpen()
    ensures Bal(") (") == 0
  {
    assert ") (" == [')'] + [' '] + ['('];
    BalAppend([')'] + [' '], ['(']);
    BalAppend([')'], [' ']);
  }

  /** One replaced group keeps the balance of the text it replaces. */
  lemma WrapGroupStepBalance(s: seq<char>, k: nat, e: nat)
    requires k < |s| && AfterParenthesesAt(s, k) == Some(e)
    ensures Bal(") (" + s[k + 2..e - 2] + ") (") + Bal(s[e..]) == Bal(s[k..])
  {
    var mid := s[k + 2..e - 2];
    assert Bal(") (" + mid + ") (") == Bal(mid) by {
      BalAppend(") (" + mid, ") (");
      BalAppend(") (", mid);
      BalCloseOpen();
    }
    assert Bal(s[k..e]) == Bal(mid) by {
      assert s[k..e] == [')'] + [s[k + 1]] + mid + [s[e - 2]] + ['('];
      SpaceIsNoParen(s[k + 1]);
      SpaceIsNoParen(s[e - 2]);
      BalAppend([')'] + [s[k + 1]] + mid + [s[e - 2]], ['(']);
      BalAppend([')'] + [s[k + 1]] + mid, [s[e - 2]]);
      BalAppend([')'] + [s[k + 1]], mid);
      BalAppend([')'], [s[k + 1]]);
    }
    assert s[k..] == s[k..e] + s[e..];
    BalAppend(s[k..e], s[e..]);
  }

  lemma BalAppend(a: seq<char>, b: seq<char>)
    ensures Bal(a + b) == Bal(a) + Bal(b)
  {
    CountAppend(a, b, '(');
    CountAppend(a, b, ')');
  }

  lemma WrapTailBalance(result: seq<char>)
    ensures Bal(WrapTail(result)) == Bal(result)
  {
    match LastIndexOf(result, ')')
    case None =>
    case Some(i) =>
      if i < |result| - 1 {
        var x := result[..i + 2];
        var y := result[i + 2..];
        assert result == x + y;
        BalAppend(x, y);
        BalAppend(x + "(" + y, ")");
        BalAppend(x + "(", y);
        BalAppend(x, "(");
      }
  }

  /** The wrap adds parentheses only in matching pairs. */
  lemma WrapKeepsBalance(text: seq<char>)
    ensures Bal(WrapTextAfterParentheses(text)) == Bal(text)
  {
    if StartsWith(text, "(") {
      match Find(text, ") ")
      case None =>
      case Some(i) =>
        var rest := text[i + 2..];
        WrapGroupsBalance(rest, 0);
        WrapTailBalance(WrapGroups(rest, 0));
        assert rest[0..] == rest;
        assert text == text[..i + 2] + rest;
        BalAppend(text[..i + 2], rest);
        BalAppend(text[..i + 2], WrapTail(WrapGroups(rest, 0)));
    } else {
      WrapGroupsBalance(text, 0);
      WrapTailBalance(WrapGroups(text, 0));
      assert text[0..] == text;
    }
  }

  lemma {:induction false} WrapGroupsNone(s: seq<char>, k: nat)
    requires k <= |s|
    requires forall j :: k <= j < |s| ==> AfterParenthesesAt(s, j).None?
    ensures WrapGroups(s, k) == s[k..]
    decreases |s| - k
  {
    if k < |s| {
      WrapGroupsNone(s, k + 1);
      assert s[k..] == [s[k]] + s[k + 1..];
    }
  }

  lemma {:induction false} LazyGroupEndNone(s: seq<char>, j: nat)
    requires forall m :: j < m < |s| ==> s[m] != '('
    ensures LazyGroupEnd(s, j).None?
    decreases |s| - j
  {
    if j + 1 < |s| && !(IsSpace(s[j]) && s[j + 1] == '(') && s[j] != '\n' {
      LazyGroupEndNone(s, j + 1);
    }
  }

  /** A text without ")" is left as it is. */
  lemma WrapWithoutClosing(text: seq<char>)
    requires ')' !in text
    ensures WrapTextAfterParentheses(text) == text
  {
    assert Find(text, ") ").None? by {
      forall j | 0 <= j ensures !OccursAt(text, ") ", j) {
        if j + 2 <= |text| {
          assert text[j..j + 2][0] == text[j] != ')';
        }
      }
    }
    if !StartsWith(text, "(") {
      WrapGroupsNone(text, 0);
      assert text[0..] == text;
    }
  }

  /** In `a (b) c` with no other parenthesis no group is replaced. */
  lemma NoGroupAfterLastClose(a: seq<char>, b: seq<char>, c: seq<char>)
    requires NoParens(a) && NoParens(b) && NoParens(c)
    ensures var s := a + " (" + b + ") " + c;
      forall j :: 0 <= j < |s| ==> AfterParenthesesAt(s, j).None?
  {
    var s := a + " (" + b + ") " + c;
    var p := |a| + 2 + |b|;
    forall j | 0 <= j < |s| ensures AfterParenthesesAt(s, j).None? {
      if j == p {
        forall m | p < m < |s| ensures s[m] != '(' {
          assert s[m] == (") " + c)[m - p];
        }
        LazyGroupEndNone(s, p + 2);
      } else {
        assert s[j] != ')' by {
          if j < |a| {
            assert s[j] == a[j];
          } else if j < p {
            assert s[j] == (" (" + b)[j - |a|];
          } else {
            assert s[j] == (") " + c)[j - p];
          }
        }
      }
    }
  }

  /** Test case "Hello (World) Test" (src/formatting.rs:806), for every title
      of that shape: the trailing text is wrapped in its own group. */
  lemma WrapsTrailingText(a: seq<char>, b: seq<char>, c: seq<char>)
    requires NoParens(a) && NoParens(b) && NoParens(c)
    ensures WrapTextAfterParentheses(a + " (" + b + ") " + c) == a + " (" + b + ") (" + c + ")"
  {
    var s := a + " (" + b + ") " + c;
    var p := |a| + 2 + |b|;
    assert !StartsWith(s, "(") by {
      if a != [] { assert s[0] == a[0]; } else { assert s[0] == ' '; }
    }
    assert WrapGroups(s, 0) == s by {
      NoGroupAfterLastClose(a, b, c);
      WrapGroupsNone(s, 0);
      assert s[0..] == s;
    }
    assert LastIndexOf(s, ')') == Some(p) by {
      assert s[p] == ')';
      forall j | p < j < |s| ensures s[j] != ')' {
        assert s[j] == (") " + c)[j - p];
      }
      LastIndexOfAt(s, ')', p);
    }
    assert WrapTail(s) == s[..p + 2] + "(" + s[p + 2..] + ")";
    assert s[..p + 2] == a + " (" + b + ") " && s[p + 2..] == c;
  }

  /** The source as written and as meant agree whenever it does not panic. */
  lemma WrapAsWrittenAgrees(text: seq<char>)
    ensures WrapTextAfterParenthesesAsWritten(text).Some? ==>
      WrapTextAfterParenthesesAsWritten(text).value == WrapTextAfterParentheses(text)
  {
  }

  /** "A (B)é": the last ")" is followed by a two-byte character, so the
      source inserts inside it and panics; the intended result is "A (B)é()"
      (the "(" after the character that follows the ")"). */
  lemma WrapPanicsOnMultibyte()
    ensures WrapTextAfterParenthesesAsWritten("A (B)é").None?
    ensures WrapTextAfterParentheses("A (B)é") == "A (B)é()"
  {
    var s := "A (B)é";
    forall j | 0 <= j < |s| ensures AfterParenthesesAt(s, j).None? {
      assert !(s[j] == ')' && j + 1 < |s| && IsSpace(s[j + 1]));
    }
    WrapGroupsNone(s, 0);
    assert s[0..] == s;
    assert LastIndexOf(s, ')') == Some(4);
  }

  // ---------------------------------------------------------------------
  // format_filename

  /** `[\\/<>|:*?]`: characters a file name may not hold. */
  predicate IsFilenameForbidden(c: char) {
    c in "\\/<>|:*?"
  }

  function FilenameChar(c: char): seq<char> {
    if IsFilenameForbidden(c) then "-" else [c]
  }

  /** One field of `format_filename` (src/formatting.rs:295-308, 460-471). */
  function FormatFilenameField(s: seq<char>): seq<char> {
    var quoted := ReplaceAll(s, "\"", "''");
    var dashed := MapChars(quoted, FilenameChar);
    Trim(ReplaceRuns(dashed, IsSpace, 1, " "))
  }

  /** Each forbidden character becomes one "-" and every other character
      stays where it is. */
  lemma FilenameCharsOneForOne(s: seq<char>)
    ensures |MapChars(s, FilenameChar)| == |s|
    ensures forall i :: 0 <= i < |s| ==>
      MapChars(s, FilenameChar)[i] == (if IsFilenameForbidden(s[i]) then '-' else s[i])
  {
    MapCharsLength(s, FilenameChar);
  }

  /** `format_filename`: both fields come out without double quotes, without
      forbidden characters, with whitespace collapsed to single spaces and
      trimmed. */
  function FormatFilename(artist: seq<char>, title: seq<char>): (r: (seq<char>, seq<char>))
    ensures CleanFilenameField(r.0) && CleanFilenameField(r.1)
  {
    FormatFilenameFieldClean(artist);
    FormatFilenameFieldClean(title);
    (FormatFilenameField(artist), FormatFilenameField(title))
  }

  predicate CleanFilenameField(f: seq<char>) {
    && '"' !in f
    && (forall i :: 0 <= i < |f| ==> !IsFilenameForbidden(f[i]))
    && NoAdjacent(f, IsSpace)
    && OnlyAs(f, IsSpace, ' ')
    && IsTrimmedBy(f, IsSpace)
  }

  lemma FormatFilenameFieldClean(s: seq<char>)
    ensures CleanFilenameField(FormatFilenameField(s))
  {
    var quoted := ReplaceAll(s, "\"", "''");
    ReplaceAllRemovesChar(s, '"', "''");
    var dashed := MapChars(quoted, FilenameChar);
    FilenameCharsOneForOne(quoted);
    assert '"' !in dashed by {
      forall i | 0 <= i < |dashed| ensures dashed[i] != '"' {
        assert quoted[i] != '"';
      }
    }
    var spaced := ReplaceRuns(dashed, IsSpace, 1, " ");
    CollapseSpaces(dashed);
    ReplaceRunsKeepsAbsent(dashed, IsSpace, 1, " ", '"');
    forall c | IsFilenameForbidden(c) ensures c !in spaced {
      assert c !in dashed;
      ReplaceRunsKeepsAbsent(dashed, IsSpace, 1, " ", c);
    }
    TrimKeepsNoAdjacent(spaced, IsSpace, IsSpace);
    TrimKeepsOnlyAs(spaced, IsSpace, ' ', IsSpace);
    TrimKeepsAbsent(spaced, '"', IsSpace);
    TrimIsTrimmed(spaced);
    forall c | IsFilenameForbidden(c) ensures c !in Trim(spaced) {
      TrimKeepsAbsent(spaced, c, IsSpace);
    }
  }

  // ---------------------------------------------------------------------
  // move_feat_from_title_to_artist

  /** The lazy tail `.*?( -|\(|\)|$)` of the featuring pattern, tried from
      `p`: the end of the shortest match, or `None` when a newline comes first
      (`.` does not match it). */
  function FeatTailEnd(s: seq<char>, p: nat): (r: Option<nat>)
    requires p <= |s|
    ensures r.Some? ==> p <= r.value <= |s|
    decreases |s| - p
  {
    if p == |s| then Some(p)
    else if p + 2 <= |s| && s[p] == ' ' && s[p + 1] == '-' then Some(p + 2)
    else if s[p] == '(' || s[p] == ')' then Some(p + 1)
    else if s[p] == '\n' then None
    else FeatTailEnd(s, p + 1)
  }

  /** A match of `\bfeat\. .*?( -|\(|\)|$)` starting at `k`: its end. */
  function FeatMatchAt(s: seq<char>, k: nat): (r: Option<nat>)
    ensures r.Some? ==> k + 6 <= r.value <= |s| && s[k..k + 6] == "feat. "
  {
    if k + 6 <= |s| && WordStart(s, k) && s[k..k + 6] == "feat. " then FeatTailEnd(s, k + 6)
    else None
  }

  /** The leftmost match at or after `k`, as (start, end). */
  function FindFeat(s: seq<char>, k: nat): (r: Option<(nat, nat)>)
    requires k <= |s|
    ensures r.Some? ==> k <= r.value.0 && FeatMatchAt(s, r.value.0) == Some(r.value.1)
    ensures r.Some? ==> forall j :: k <= j < r.value.0 ==> FeatMatchAt(s, j).None?
    ensures r.None? ==> forall j :: k <= j <= |s| ==> FeatMatchAt(s, j).None?
    decreases |s| - k
  {
    match FeatMatchAt(s, k)
    case Some(e) => Some((k, e))
    case None => if k == |s| then None else FindFeat(s, k + 1)
  }

  predicate IsFeatTrim(c: char) { c == '(' || c == ')' || c == '-' }

  /** The featuring text of a title: the first match with trailing
      parentheses and dashes trimmed. It starts with "feat. " and occurs in
      the title. */
  function FeatText(title: seq<char>): (r: Option<seq<char>>)
    ensures r.Some? ==> |r.value| >= 6 && r.value[..6] == "feat. " && Contains(title, r.value)
    ensures r.None? <==> forall j :: 0 <= j <= |title| ==> FeatMatchAt(title, j).None?
  {
    match FindFeat(title, 0)
    case None => None
    case Some((start, end)) =>
      var m := title[start..end];
      assert m[..6] == "feat. " by {
        SliceOfSlice(title, start, end, 0, 6);
      }
      var v := TrimEndBy(m, IsFeatTrim);
      assert 6 <= |v| by {
        assert m[5] == ' ' && !IsFeatTrim(m[5]);
      }
      assert v[..6] == "feat. " by {
        SliceOfSlice(m, 0, |v|, 0, 6);
      }
      assert title[start..start + |v|] == v by {
        SliceOfSlice(title, start, end, 0, |v|);
      }
      ContainsAt(title, v, start);
      Some(v)
  }

  /** A match of `(?i),?\s+and\s+` at `p`: its end. Both runs of white space
      are greedy; "and" is matched without regard to ASCII case. */
  function FeatAndAt(s: seq<char>, p: nat): (r: Option<nat>)
    requires p <= |s|
    ensures r.Some? ==> p < r.value <= |s|
  {
    var q := if p < |s| && s[p] == ',' then p + 1 else p;
    var n := RunLen(s[q..], IsSpace);
    var a := q + n;
    if n == 0 || a + 3 > |s| || Lower(s[a..a + 3]) != "and" then None
    else
      var m := RunLen(s[a + 3..], IsSpace);
      if m == 0 then None else Some(a + 3 + m)
  }

  /** `RE_FEAT_AND.replace_all(s, " & ")` from `p`. */
  function ReplaceFeatAnd(s: seq<char>, p: nat): seq<char>
    requires p <= |s|
    decreases |s| - p
  {
    if p == |s| then []
    else
      match FeatAndAt(s, p)
      case Some(e) => " & " + ReplaceFeatAnd(s, e)
      case None => [s[p]] + ReplaceFeatAnd(s, p + 1)
  }

  /** The featured names as one string: "feat. " dropped, every "and"
      written as "&", trimmed. */
  function FeatName(feat: seq<char>): seq<char> {
    var rest := ReplaceFirst(feat, "feat. ", "");
    Trim(ReplaceFeatAnd(rest, 0))
  }

  predicate IsFeatSeparator(c: char) { c == '&' || c == ',' || c == '+' }

  /** The individual featured names: split on '&', ',' and '+', each
      trimmed (empty names included, as `str::split` gives them). */
  function FeatArtists(name: seq<char>): (r: seq<seq<char>>)
    ensures |r| == |SplitBy(name, IsFeatSeparator)|
  {
    var parts := SplitBy(name, IsFeatSeparator);
    seq(|parts|, i requires 0 <= i < |parts| => Trim(parts[i]))
  }

  function FeatDelimiter(i: nat): (d: seq<char>)
    requires i < 4
    ensures |d| >= 2
  {
    if i == 0 then ", " else if i == 1 then " & " else if i == 2 then " and " else " + "
  }

  /** One featured name taken out of the artist for the first `n` of the
      delimiters ", ", " & ", " and ", " + ": both "delimiter + name" and
      "name + delimiter" are deleted. */
  function StripFeatArtistAt(artist: seq<char>, fa: seq<char>, n: nat): seq<char>
    requires n <= 4
  {
    if n == 0 then artist
    else
      var x := StripFeatArtistAt(artist, fa, n - 1);
      var d := FeatDelimiter(n - 1);
      ReplaceAll(ReplaceAll(x, d + fa, ""), fa + d, "")
  }

  /** The removal as written: every name, empty ones included. With an empty
      name the patterns are the bare delimiters, so every delimiter in the
      artist is deleted. */
  function RemoveFeatArtistsAsWritten(artist: seq<char>, fas: seq<seq<char>>, n: nat): seq<char>
    requires n <= |fas|
  {
    if n == 0 then artist
    else StripFeatArtistAt(RemoveFeatArtistsAsWritten(artist, fas, n - 1), fas[n - 1], 4)
  }

  /** The removal with empty names skipped. */
  function RemoveFeatArtists(artist: seq<char>, fas: seq<seq<char>>, n: nat): seq<char>
    requires n <= |fas|
  {
    if n == 0 then artist
    else
      var x := RemoveFeatArtists(artist, fas, n - 1);
      if fas[n - 1] == [] then x else StripFeatArtistAt(x, fas[n - 1], 4)
  }

  /** " feat. <names>" goes on the end of the artist unless it is already
      in it. */
  function AppendFeat(artist: seq<char>, formatted: seq<char>): (r: seq<char>)
    ensures Contains(r, formatted)
    ensures Contains(artist, formatted) ==> r == artist
    ensures !Contains(artist, formatted) ==> r == artist + formatted
  {
    ContainsSuffix(artist, formatted);
    if Contains(artist, formatted) then artist else artist + formatted
  }

  /** What the move does to (artist, title). */
  function MoveFeat(artist: seq<char>, title: seq<char>): (seq<char>, seq<char>) {
    match FeatText(title)
    case None => (artist, title)
    case Some(feat) =>
      var name := FeatName(feat);
      var fas := FeatArtists(name);
      (AppendFeat(RemoveFeatArtists(artist, fas, |fas|), " feat. " + name), Trim(ReplaceAll(title, feat, "")))
  }

  /** Without featuring text nothing moves; with it, the artist ends up
      holding " feat. <name>" and the title loses at least the featuring
      text's length and is trimmed. */
  lemma MoveFeatShape(artist: seq<char>, title: seq<char>)
    ensures FeatText(title).None? ==> MoveFeat(artist, title) == (artist, title)
    ensures FeatText(title).Some? ==>
      var feat := FeatText(title).value;
      var r := MoveFeat(artist, title);
      && Contains(r.0, " feat. " + FeatName(feat))
      && |r.1| <= |title| - |feat|
      && IsTrimmedBy(r.1, IsSpace)
  {
    if FeatText(title).Some? {
      var feat := FeatText(title).value;
      var t := ReplaceAll(title, feat, "");
      ReplaceAllDeleteLength(title, feat);
      TrimIsTrimmed(t);
      MoveFeatFound(artist, title, feat);
    }
  }

  /** `move_feat_from_title_to_artist` (src/formatting.rs:502-536): the
      featuring part leaves the title, the featured names leave the artist
      and " feat. <names>" is appended to it unless already there. */
  method MoveFeatFromTitleToArtist(artist: seq<char>, title: seq<char>) returns (a: seq<char>, t: seq<char>)
    ensures (a, t) == MoveFeat(artist, title)
  {
    a, t := artist, title;
    var found := FindFeat(title, 0);
    if found.None? {
      return;
    }
    var feat := FeatText(title).value;
    t := Trim(ReplaceAll(title, feat, ""));
    var name := FeatName(feat);
    a := RemoveFeatArtistsLoop(artist, FeatArtists(name));
    var formatted := " feat. " + name;
    if !Contains(a, formatted) {
      a := a + formatted;
    }
  }

  /** The removal loop of `move_feat_from_title_to_artist`
      (src/formatting.rs:522-530), skipping empty names. */
  method RemoveFeatArtistsLoop(artist: seq<char>, fas: seq<seq<char>>) returns (a: seq<char>)
    ensures a == RemoveFeatArtists(artist, fas, |fas|)
  {
    a := artist;
    for i := 0 to |fas|
      invariant a == RemoveFeatArtists(artist, fas, i)
    {
      if fas[i] != [] {
        var before := a;
        for d := 0 to 4
          invariant a == StripFeatArtistAt(before, fas[i], d)
        {
          var delimiter := FeatDelimiter(d);
          a := ReplaceAll(ReplaceAll(a, delimiter + fas[i], ""), fas[i] + delimiter, "");
        }
      }
    }
  }

  /** A single featured name that the artist does not already contain is
      appended to the artist as " feat. <name>", and the featuring text is
      deleted from the title. */
  lemma MoveSingleFeat(artist: seq<char>, title: seq<char>, feat: seq<char>, name: seq<char>)
    requires FeatText(title) == Some(feat) && FeatName(feat) == name
    requires FeatArtists(name) == [name] && !Contains(artist, name)
    ensures MoveFeat(artist, title) == (artist + (" feat. " + name), Trim(ReplaceAll(title, feat, "")))
  {
    MoveFeatFound(artist, title, feat);
    RemoveAbsentName(artist, name);
    AppendAbsentName(artist, name);
  }

  lemma RemoveAbsentName(artist: seq<char>, name: seq<char>)
    requires !Contains(artist, name)
    ensures RemoveFeatArtists(artist, [name], 1) == artist
  {
    assert RemoveFeatArtists(artist, [name], 0) == artist;
    if name != [] {
      StripAbsentFeatArtist(artist, name, 4);
    }
  }

  lemma AppendAbsentName(artist: seq<char>, name: seq<char>)
    requires !Contains(artist, name)
    ensures AppendFeat(artist, " feat. " + name) == artist + (" feat. " + name)
  {
    assert " feat. " + name + [] == " feat. " + name;
    if Contains(artist, " feat. " + name + []) {
      ContainsInner(artist, " feat. ", name, []);
    }
  }

  /** The move once the featuring text is found. */
  lemma MoveFeatFound(artist: seq<char>, title: seq<char>, feat: seq<char>)
    requires FeatText(title) == Some(feat)
    ensures var fas := FeatArtists(FeatName(feat));
            MoveFeat(artist, title)
              == (AppendFeat(RemoveFeatArtists(artist, fas, |fas|), " feat. " + FeatName(feat)),
                  Trim(ReplaceAll(title, feat, "")))
  {
  }

  /** The name of a featuring text: what follows "feat. ", with "and"
      rewritten, when that is already trimmed. */
  lemma FeatNameIs(feat: seq<char>, name: seq<char>)
    requires |feat| >= 6 && feat[..6] == "feat. "
    requires ReplaceFeatAnd(feat[6..], 0) == name && IsTrimmedBy(name, IsSpace)
    ensures FeatName(feat) == name
  {
    AfterFeatPrefix(feat);
    TrimTrimmed(name);
  }

  /** A name with no comma and no white space has no "and" to rewrite. */
  lemma {:induction false} ReplaceFeatAndKeeps(s: seq<char>, p: nat)
    requires p <= |s|
    requires forall i :: p <= i < |s| ==> s[i] != ',' && !IsSpace(s[i])
    ensures ReplaceFeatAnd(s, p) == s[p..]
    decreases |s| - p
  {
    if p < |s| {
      assert s[p..][0] == s[p];
      assert FeatAndAt(s, p).None?;
      ReplaceFeatAndKeeps(s, p + 1);
      assert s[p..] == [s[p]] + s[p + 1..];
    }
  }

  /** The featuring text loses exactly its leading "feat. ". */
  lemma AfterFeatPrefix(feat: seq<char>)
    requires |feat| >= 6 && feat[..6] == "feat. "
    ensures ReplaceFirst(feat, "feat. ", "") == feat[6..]
  {
    assert OccursAt(feat, "feat. ", 0);
  }

  /** A trimmed name without '&', ',' or '+' is the only featured artist. */
  lemma FeatArtistsSingle(name: seq<char>)
    requires IsTrimmedBy(name, IsSpace)
    requires forall i :: 0 <= i < |name| ==> !IsFeatSeparator(name[i])
    ensures FeatArtists(name) == [name]
  {
    SplitByNone(name, IsFeatSeparator);
    TrimTrimmed(name);
  }

  /** Test: the featuring text of "Song feat. Bob" runs to the end. */
  lemma SongFeatText()
    ensures FeatText("Song feat. Bob") == Some("feat. Bob")
  {
    var title: seq<char> := "Song feat. Bob";
    assert FeatTailEnd(title, 11) == Some(14);
    assert title[5..11] == "feat. ";
    assert FeatMatchAt(title, 5) == Some(14);
    forall j | 0 <= j < 5 ensures FeatMatchAt(title, j).None? {
      assert title[j..j + 6][0] == title[j];
    }
    assert FindFeat(title, 0) == Some((5, 14));
    assert title[5..14] == "feat. Bob";
  }

  /** A name that occurs nowhere in the artist leaves it as it is. */
  lemma {:induction false} StripAbsentFeatArtist(artist: seq<char>, fa: seq<char>, n: nat)
    requires n <= 4 && !Contains(artist, fa)
    ensures StripFeatArtistAt(artist, fa, n) == artist
  {
    if n > 0 {
      StripAbsentFeatArtist(artist, fa, n - 1);
      var d := FeatDelimiter(n - 1);
      if Contains(artist, d + fa) {
        assert d + fa == d + fa + [];
        ContainsInner(artist, d, fa, []);
      }
      ReplaceAllAbsent(artist, d + fa, "");
      if Contains(artist, fa + d) {
        assert fa + d == [] + fa + d;
        ContainsInner(artist, [], fa, d);
      }
      ReplaceAllAbsent(artist, fa + d, "");
    }
  }

  /** With empty names skipped, an artist that names none of the featured
      artists is left unchanged. */
  lemma {:induction false} RemoveFeatArtistsKeepsOthers(artist: seq<char>, fas: seq<seq<char>>, n: nat)
    requires n <= |fas|
    requires forall i :: 0 <= i < |fas| && fas[i] != [] ==> !Contains(artist, fas[i])
    ensures RemoveFeatArtists(artist, fas, n) == artist
  {
    if n > 0 {
      RemoveFeatArtistsKeepsOthers(artist, fas, n - 1);
      if fas[n - 1] != [] {
        StripAbsentFeatArtist(artist, fas[n - 1], 4);
      }
    }
  }

  /** As written, an empty featured name (title "Song feat. C, (Remix)"
      gives the names "C" and "") deletes every ", " from the artist:
      "A, B" becomes "AB". */
  lemma RemoveFeatArtistsAsWrittenJoinsArtists()
    ensures RemoveFeatArtistsAsWritten("A, B", ["C", ""], 2) == "AB"
    ensures RemoveFeatArtists("A, B", ["C", ""], 2) == "A, B"
  {
    var s: seq<char> := "A, B";
    assert !Contains(s, "C") by {
      FindChar(s, 'C');
    }
    StripAbsentFeatArtist(s, "C", 4);
    assert RemoveFeatArtistsAsWritten(s, ["C", ""], 1) == s;
    assert RemoveFeatArtists(s, ["C", ""], 1) == s;
    StripEmptyName();
  }

  lemma StripEmptyName()
    ensures StripFeatArtistAt("A, B", [], 4) == "AB"
  {
    var s: seq<char> := "A, B";
    var d: seq<char> := ", ";
    assert d + [] == d && [] + d == d;
    assert ReplaceAll(s, d, "") == "AB" by {
      assert s[..2][1] != d[1];
      assert s[1..] == d + "B";
      ReplaceAllHere(d, "B", "");
    }
    assert ReplaceAll("AB", d, "") == "AB" by {
      assert "AB"[..2] != d;
    }
    assert StripFeatArtistAt(s, [], 1) == "AB";
    assert StripFeatArtistAt(s, [], 2) == "AB";
    assert StripFeatArtistAt(s, [], 3) == "AB";
  }

  // ---------------------------------------------------------------------
  // replace_dash_in_parentheses

  /** The lazy `(.*?)\)` of RE_DASH_IN_PARENTHESES from `p`: the end of the
      shortest match, just after the first ")" (no newline before it). */
  function DashGroupEnd(s: seq<char>, p: nat): (r: Option<nat>)
    requires p <= |s|
    ensures r.Some? ==> p < r.value <= |s| && s[r.value - 1] == ')'
    decreases |s| - p
  {
    if p == |s| then None
    else if s[p] == ')' then Some(p + 1)
    else if s[p] == '\n' then None
    else DashGroupEnd(s, p + 1)
  }

  /** " - " starts at `i`. */
  predicate SpacedDashAt(s: seq<char>, i: nat) {
    i + 3 <= |s| && s[i] == ' ' && s[i + 1] == '-' && s[i + 2] == ' '
  }

  lemma SpacedDashSlice(s: seq<char>, i: nat)
    requires SpacedDashAt(s, i)
    ensures s[i..i + 3] == " - "
  {
  }

  /** The lazy `(.*?) - (.*?)\)` from `i`: the position of the " - " and the
      end of the match. The first group grows one character at a time until
      " - " followed by a closable second group is found. */
  function DashSplit(s: seq<char>, i: nat): (r: Option<(nat, nat)>)
    requires i <= |s|
    ensures r.Some? ==> i <= r.value.0 && r.value.0 + 3 < r.value.1 <= |s|
    ensures r.Some? ==> s[r.value.0..r.value.0 + 3] == " - " && s[r.value.1 - 1] == ')'
    decreases |s| - i
  {
    if i + 3 > |s| then None
    else if SpacedDashAt(s, i) && DashGroupEnd(s, i + 3).Some? then
      SpacedDashSlice(s, i);
      Some((i, DashGroupEnd(s, i + 3).value))
    else if s[i] == '\n' then None
    else DashSplit(s, i + 1)
  }

  /** RE_DASH_IN_PARENTHESES, `\((.*?) - (.*?)\)`, at `k`. */
  function DashAt(s: seq<char>, k: nat): (r: Option<(nat, nat)>)
    ensures r.Some? ==> k < |s| && s[k] == '(' && k + 1 <= r.value.0 && r.value.0 + 3 < r.value.1 <= |s|
    ensures r.Some? ==> s[r.value.0..r.value.0 + 3] == " - " && s[r.value.1 - 1] == ')'
  {
    if k < |s| && s[k] == '(' then DashSplit(s, k + 1) else None
  }

  /** `replace_all` of RE_DASH_IN_PARENTHESES by "($1) ($2)", from `k`. */
  function ReplaceDashGroups(s: seq<char>, k: nat): seq<char>
    decreases |s| - k
  {
    if k >= |s| then []
    else match DashAt(s, k)
      case Some((i, e)) => "(" + s[k + 1..i] + ") (" + s[i + 3..e - 1] + ")" + ReplaceDashGroups(s, e)
      case None => [s[k]] + ReplaceDashGroups(s, k + 1)
  }

  /** `replace_dash_in_parentheses` (src/formatting.rs:725-729): a group
      "(x - y)" becomes "(x) (y)". */
  function ReplaceDashInParentheses(text: seq<char>): (r: seq<char>)
    ensures Bal(r) == Bal(text) && |r| == |text|
    ensures r == text <==> NoDashGroupFrom(text, 0)
    ensures !Contains(text, " - ") ==> r == text
  {
    ReplaceDashGroupsBalance(text, 0);
    ReplaceDashGroupsLength(text, 0);
    ReplaceDashGroupsUnchanged(text, 0);
    NoSpacedDashNoGroup(text);
    assert text[0..] == text;
    ReplaceDashGroups(text, 0)
  }

  /** " - " neither opens nor closes. */
  lemma BalSpacedDash()
    ensures Bal(" - ") == 0
  {
    assert " - " == [' '] + ['-'] + [' '];
    SpaceIsNoParen(' ');
    assert Bal(['-']) == 0 by {
      var t: seq<char> := ['-'];
      assert t[..|t| - 1] == [];
    }
    BalAppend([' '] + ['-'], [' ']);
    BalAppend([' '], ['-']);
  }

  /** "(x) (y)" has the balance of "(x - y)". */
  lemma DashGroupBalance(x: seq<char>, y: seq<char>)
    ensures Bal("(" + x + ") (" + y + ")") == Bal("(" + x + " - " + y + ")")
  {
    BalSpacedDash();
    BalCloseOpen();
    BalAppend("(" + x + ") (" + y, ")");
    BalAppend("(" + x + ") (", y);
    BalAppend("(" + x, ") (");
    BalAppend("(", x);
    BalAppend("(" + x + " - " + y, ")");
    BalAppend("(" + x + " - ", y);
    BalAppend("(" + x, " - ");
  }

  /** The text a group found at `k` matches. */
  lemma DashMatchText(s: seq<char>, k: nat, i: nat, e: nat)
    requires DashAt(s, k) == Some((i, e))
    ensures s[k..e] == "(" + s[k + 1..i] + " - " + s[i + 3..e - 1] + ")"
  {
    SliceParts(s, k, k + 1, i, i + 3, e - 1, e);
    assert s[k..k + 1] == "(";
    assert s[e - 1..e] == ")";
  }

  /** One replaced group keeps the balance of the text it replaces. */
  lemma DashGroupStepBalance(s: seq<char>, k: nat, i: nat, e: nat)
    requires DashAt(s, k) == Some((i, e))
    ensures Bal("(" + s[k + 1..i] + ") (" + s[i + 3..e - 1] + ")") + Bal(s[e..]) == Bal(s[k..])
  {
    DashMatchText(s, k, i, e);
    assert s[k..] == s[k..e] + s[e..];
    BalAppend(s[k..e], s[e..]);
    DashGroupBalance(s[k + 1..i], s[i + 3..e - 1]);
  }

  lemma {:induction false} ReplaceDashGroupsBalance(s: seq<char>, k: nat)
    requires k <= |s|
    ensures Bal(ReplaceDashGroups(s, k)) == Bal(s[k..])
    decreases |s| - k
  {
    if k < |s| {
      match DashAt(s, k)
      case Some((i, e)) =>
        ReplaceDashGroupsBalance(s, e);
        DashGroupStepBalance(s, k, i, e);
        BalAppend("(" + s[k + 1..i] + ") (" + s[i + 3..e - 1] + ")", ReplaceDashGroups(s, e));
      case None =>
        ReplaceDashGroupsBalance(s, k + 1);
        assert s[k..] == [s[k]] + s[k + 1..];
        BalAppend([s[k]], s[k + 1..]);
        BalAppend([s[k]], ReplaceDashGroups(s, k + 1));
    }
  }

  /** One step of the pass where no group starts. */
  lemma ReplaceDashGroupsSkip(s: seq<char>, k: nat)
    requires k < |s| && DashAt(s, k).None?
    ensures ReplaceDashGroups(s, k) == [s[k]] + ReplaceDashGroups(s, k + 1)
  {
  }

  /** What a group "(x - y)" found at `k` becomes: "(x) (y)". */
  function DashGroupText(s: seq<char>, k: nat, i: nat, e: nat): seq<char>
    requires DashAt(s, k) == Some((i, e))
  {
    "(" + s[k + 1..i] + ") (" + s[i + 3..e - 1] + ")"
  }

  /** The rewritten group is as long as the match, and has ')' where the
      match has the space that starts " - ". */
  lemma DashGroupTextShape(s: seq<char>, k: nat, i: nat, e: nat)
    requires DashAt(s, k) == Some((i, e))
    ensures var g := DashGroupText(s, k, i, e); |g| == e - k && g[i - k] == ')' && s[i] == ' '
  {
    assert s[i..i + 3][0] == s[i];
  }

  /** One step of the pass where a group starts. */
  lemma ReplaceDashGroupsSplit(s: seq<char>, k: nat, i: nat, e: nat)
    requires DashAt(s, k) == Some((i, e))
    ensures ReplaceDashGroups(s, k) == DashGroupText(s, k, i, e) + ReplaceDashGroups(s, e)
  {
  }

  /** No "(x - y)" group starts at or after `k`. */
  predicate NoDashGroupFrom(s: seq<char>, k: nat) {
    forall j :: k <= j < |s| ==> DashAt(s, j).None?
  }

  /** A rewritten group "(x) (y)" is exactly as long as "(x - y)". */
  lemma {:induction false} ReplaceDashGroupsLength(s: seq<char>, k: nat)
    requires k <= |s|
    ensures |ReplaceDashGroups(s, k)| == |s| - k
    decreases |s| - k
  {
    if k < |s| {
      match DashAt(s, k)
      case Some((i, e)) =>
        ReplaceDashGroupsSplit(s, k, i, e);
        DashGroupTextShape(s, k, i, e);
        ReplaceDashGroupsLength(s, e);
      case None =>
        ReplaceDashGroupsSkip(s, k);
        ReplaceDashGroupsLength(s, k + 1);
    }
  }

  /** A group at `k` changes the text: the rewritten group has ')' where
      the match has the space that starts " - ". */
  lemma DashGroupChanges(s: seq<char>, k: nat, i: nat, e: nat)
    requires DashAt(s, k) == Some((i, e))
    ensures ReplaceDashGroups(s, k) != s[k..] && !NoDashGroupFrom(s, k)
  {
    var g := DashGroupText(s, k, i, e);
    ReplaceDashGroupsSplit(s, k, i, e);
    DashGroupTextShape(s, k, i, e);
    var r := ReplaceDashGroups(s, k);
    assert r[i - k] == g[i - k];
    assert s[k..][i - k] == s[i];
  }

  /** Where no group starts, the question moves one character on. */
  lemma DashGroupSkipUnchanged(s: seq<char>, k: nat)
    requires k < |s| && DashAt(s, k).None?
    ensures ReplaceDashGroups(s, k) == s[k..] <==> ReplaceDashGroups(s, k + 1) == s[k + 1..]
    ensures NoDashGroupFrom(s, k) <==> NoDashGroupFrom(s, k + 1)
  {
    ReplaceDashGroupsSkip(s, k);
    assert s[k..] == [s[k]] + s[k + 1..];
    ConsCancel(s[k], ReplaceDashGroups(s, k + 1), s[k + 1..]);
  }

  /** The pass changes the text from `k` on exactly when a group starts
      there. */
  lemma {:induction false} ReplaceDashGroupsUnchanged(s: seq<char>, k: nat)
    requires k <= |s|
    ensures ReplaceDashGroups(s, k) == s[k..] <==> NoDashGroupFrom(s, k)
    decreases |s| - k
  {
    if k < |s| {
      match DashAt(s, k)
      case Some((i, e)) =>
        DashGroupChanges(s, k, i, e);
      case None =>
        DashGroupSkipUnchanged(s, k);
        ReplaceDashGroupsUnchanged(s, k + 1);
    }
  }

  /** Text before the leftmost group is kept, and that group is split into
      its two halves. */
  lemma {:induction false} ReplaceDashGroupsFirst(s: seq<char>, k0: nat, k: nat, i: nat, e: nat)
    requires k0 <= k && DashAt(s, k) == Some((i, e))
    requires NoDashGroupBetween(s, k0, k)
    ensures ReplaceDashGroups(s, k0) == s[k0..k] + (DashGroupText(s, k, i, e) + ReplaceDashGroups(s, e))
    decreases k - k0
  {
    if k0 < k {
      ReplaceDashGroupsFirst(s, k0 + 1, k, i, e);
      ReplaceDashGroupsKeeps(s, k0, k, DashGroupText(s, k, i, e) + ReplaceDashGroups(s, e));
    } else {
      ReplaceDashGroupsAtGroup(s, k, i, e);
    }
  }

  /** No group starts at any of `k0`, ..., `k - 1`. */
  predicate NoDashGroupBetween(s: seq<char>, k0: nat, k: nat)
    decreases k - k0
  {
    k0 < k ==> DashAt(s, k0).None? && NoDashGroupBetween(s, k0 + 1, k)
  }

  lemma {:induction false} NoDashGroupBetweenOf(s: seq<char>, k0: nat, k: nat)
    requires forall j :: k0 <= j < k ==> DashAt(s, j).None?
    ensures NoDashGroupBetween(s, k0, k)
    decreases k - k0
  {
    if k0 < k {
      NoDashGroupBetweenOf(s, k0 + 1, k);
    }
  }

  /** The pass at the group itself, with nothing kept in front of it. */
  lemma ReplaceDashGroupsAtGroup(s: seq<char>, k: nat, i: nat, e: nat)
    requires DashAt(s, k) == Some((i, e))
    ensures ReplaceDashGroups(s, k) == s[k..k] + (DashGroupText(s, k, i, e) + ReplaceDashGroups(s, e))
  {
    ReplaceDashGroupsSplit(s, k, i, e);
    assert s[k..k] == [];
  }

  /** A character where no group starts is kept in front of the rest. */
  lemma ReplaceDashGroupsKeeps(s: seq<char>, k0: nat, k: nat, t: seq<char>)
    requires k0 < k <= |s| && DashAt(s, k0).None?
    requires ReplaceDashGroups(s, k0 + 1) == s[k0 + 1..k] + t
    ensures ReplaceDashGroups(s, k0) == s[k0..k] + t
  {
    ReplaceDashGroupsSkip(s, k0);
    assert s[k0..k] == [s[k0]] + s[k0 + 1..k];
    ConcatAssoc([s[k0]], s[k0 + 1..k], t);
  }

  /** Without a spaced dash there is no group to rewrite. */
  lemma NoSpacedDashNoGroup(s: seq<char>)
    ensures !Contains(s, " - ") ==> NoDashGroupFrom(s, 0)
  {
    forall j | 0 <= j < |s| && !Contains(s, " - ") ensures DashAt(s, j).None? {
      if DashAt(s, j).Some? {
        ContainsAt(s, " - ", DashAt(s, j).value.0);
      }
    }
  }

  /** The leftmost "(x - y)" group of the text becomes "(x) (y)", and what
      comes before it is kept. */
  lemma DashGroupSplit(text: seq<char>, k: nat, i: nat, e: nat)
    requires DashAt(text, k) == Some((i, e))
    requires forall j :: 0 <= j < k ==> DashAt(text, j).None?
    ensures var r := ReplaceDashInParentheses(text);
      && r[..k] == text[..k]
      && r[k..e] == "(" + text[k + 1..i] + ") (" + text[i + 3..e - 1] + ")"
  {
    NoDashGroupBetweenOf(text, 0, k);
    ReplaceDashGroupsFirst(text, 0, k, i, e);
    DashGroupTextShape(text, k, i, e);
    assert text[0..k] == text[..k];
    PrefixAndMiddle(text[..k], DashGroupText(text, k, i, e), ReplaceDashGroups(text, e));
  }

  /** The parts of `a + (g + t)` read back by slicing. */
  lemma PrefixAndMiddle(a: seq<char>, g: seq<char>, t: seq<char>)
    ensures var r := a + (g + t); r[..|a|] == a && r[|a|..|a| + |g|] == g
  {
  }

  /** Test "(A - B)": the group is split in two. */
  lemma SplitsDashGroup()
    ensures ReplaceDashInParentheses("(A - B)") == "(A) (B)"
  {
    var s: seq<char> := "(A - B)";
    DashGroupOfExample();
    DashGroupSplit(s, 0, 2, 7);
    var r := ReplaceDashInParentheses(s);
    assert r == r[0..7];
    assert s[1..2] == "A" && s[5..6] == "B";
  }

  /** "(A - B)" is one "(x - y)" group, from 0 to 7 with " - " at 2. */
  lemma DashGroupOfExample()
    ensures DashAt("(A - B)", 0) == Some((2, 7))
  {
    var s: seq<char> := "(A - B)";
    assert DashGroupEnd(s, 5) == Some(7);
    assert SpacedDashAt(s, 2);
    assert DashSplit(s, 2) == Some((2, 7));
    assert !SpacedDashAt(s, 1);
    assert DashSplit(s, 1) == Some((2, 7));
  }

  // ---------------------------------------------------------------------
  // format_tags_for_artist_and_title

  /** COMMON_SUBSTITUTES (src/formatting.rs:6-31), applied in order to both
      fields. */
  const CommonSubstitutes: seq<(seq<char>, seq<char>)> := [
    ("\0", "/"), ("`", "'"), ("\U{00B4}", "'"), (")(", ") ("), ("()", " "),
    (") - (", ""), (" - (", " ("), ("(- ", "("), ("( - ", "("), (" -)", " )"),
    (" - ) ", ")"), (" )", ")"), ("( ", "("), ("...", " "), ("..", " "),
    (" feat. - ", " feat. "), (" feat.-", " feat. "), ("o\U{00A8}", "\U{00F6}"),
    ("e\U{00A8}", "\U{00EB}"), (" ,", ","), ("\U{FFFD}", " "), ("\U{2013}", "-"),
    ("\U{2014}", "-")
  ]

  /** TITLE_SUBSTITUTES (src/formatting.rs:32-51), applied to the title only. */
  const TitleSubstitutes: seq<(seq<char>, seq<char>)> := [
    ("(Original Mix/", "("), ("12\"", "12''"), (" (12 Version) ", " (12'' Version) "),
    ("(Inst)", "(Instrumental)"), (" W/Drums", " With Drums"), ("), Pt. 1", ") (Pt. 1)"),
    ("/Cyberkid ", " - Cyberkid "), ("-Dirty/Beat Junkie Sound ", " - Dirty Beat Junkie Sound "),
    ("-DirtyBeat Junkie Sound ", " - Dirty Beat Junkie Sound "),
    ("/Clean-Beat Junkie Sound ", " - Clean Beat Junkie Sound "),
    ("-Clean/Beat Junkie Sound ", " - Clean Beat Junkie Sound "),
    ("-CleanBeat Junkie Sound ", " - Clean Beat Junkie Sound "),
    ("(Clean-Beat Junkie Sound ", "(Clean Beat Junkie Sound "),
    ("(Dirty-Beat Junkie Sound ", "(Dirty Beat Junkie Sound "),
    (" Version/cyberkid ", " Version - Cyberkid "), ("/Beat Junkie ", " - Beat Junkie "),
    ("(Clean-", "(Clean "), ("(Dirty-", "(Dirty ")
  ]

  /** FILE_EXTENSIONS (src/formatting.rs:361). */
  const FileExtensions: seq<seq<char>> := [".mp3", ".flac", ".aif", ".aiff", ".m4a"]

  predicate LiteralTable(table: seq<(seq<char>, seq<char>)>) {
    forall i :: 0 <= i < |table| ==> |table[i].0| > 0
  }

  lemma SubstituteTablesAreLiteral()
    ensures LiteralTable(CommonSubstitutes) && LiteralTable(TitleSubstitutes)
    ensures |CommonSubstitutes| == 23 && |TitleSubstitutes| == 18 && |FileExtensions| == 5
  {
  }

  /** The regular-expression tables and the title-casing crate, which the
      model takes as given rewrites: REGEX_NAME_SUBSTITUTES
      (src/formatting.rs:110-294), REGEX_SUBSTITUTES
      (src/formatting.rs:52-109) and `titlecase::titlecase`. */
  datatype Rewrites = Rewrites(
    names: seq<seq<char> -> seq<char>>,
    general: seq<seq<char> -> seq<char>>,
    titlecase: seq<char> -> seq<char>)

  /** The first `n` literal substitutions of a table, in order. */
  function SubstituteAt(table: seq<(seq<char>, seq<char>)>, s: seq<char>, n: nat): seq<char>
    requires n <= |table| && LiteralTable(table)
  {
    if n == 0 then s else ReplaceAll(SubstituteAt(table, s, n - 1), table[n - 1].0, table[n - 1].1)
  }

  /** The first `n` rewrites of a list, in order. */
  function RewriteAt(fs: seq<seq<char> -> seq<char>>, s: seq<char>, n: nat): seq<char>
    requires n <= |fs|
  {
    if n == 0 then s else fs[n - 1](RewriteAt(fs, s, n - 1))
  }

  /** One extension check: the extension is cut off when the lower-cased
      text ends with it. */
  function StripExtension(s: seq<char>, ext: seq<char>): seq<char> {
    if EndsWith(Lower(s), ext) then s[..|s| - |ext|] else s
  }

  /** The cut leaves a prefix of the text whose lower-case form followed by
      the extension is the lower-cased text; otherwise nothing changes. */
  lemma StripExtensionCuts(s: seq<char>, ext: seq<char>)
    ensures var r := StripExtension(s, ext);
            && (EndsWith(Lower(s), ext) ==> Lower(r) + ext == Lower(s) && r == s[..|r|])
            && (!EndsWith(Lower(s), ext) ==> r == s)
  {
    if EndsWith(Lower(s), ext) {
      var k := |s| - |ext|;
      assert Lower(s[..k]) == Lower(s)[..k];
      assert Lower(s) == Lower(s)[..k] + Lower(s)[k..];
    }
  }

  function StripExtensionsAt(s: seq<char>, n: nat): seq<char>
    requires n <= |FileExtensions|
  {
    if n == 0 then s else StripExtension(StripExtensionsAt(s, n - 1), FileExtensions[n - 1])
  }

  /** None of the first `n` extensions ends the lower-cased text. */
  predicate NoExtension(s: seq<char>, n: nat)
    requires n <= |FileExtensions|
  {
    forall i :: 0 <= i < n ==> !EndsWith(Lower(s), FileExtensions[i])
  }

  /** One extension check applied to a prefix of `s`. */
  lemma StripStep(s: seq<char>, p: seq<char>, e: seq<char>)
    requires |e| > 0 && |p| <= |s| && p == s[..|p|]
    ensures var r := StripExtension(p, e);
      && |r| <= |s| && r == s[..|r|]
      && (p == s ==> (r == s <==> !EndsWith(Lower(s), e)))
      && (p != s ==> r != s)
  {
    StripExtensionCuts(p, e);
  }

  /** The extension checks only ever cut the end off, and they change the
      text exactly when it ends, in any case, with one of the extensions. */
  lemma {:induction false} StripExtensionsAtPrefix(s: seq<char>, n: nat)
    requires n <= |FileExtensions|
    ensures var r := StripExtensionsAt(s, n);
      |r| <= |s| && r == s[..|r|] && (r == s <==> NoExtension(s, n))
    decreases n
  {
    if n > 0 {
      StripExtensionsAtPrefix(s, n - 1);
      var e := ExtensionStep(s, n);
      StripStep(s, StripExtensionsAt(s, n - 1), e);
    }
  }

  /** The `n`-th extension is not empty, and it is the one check that
      `NoExtension` adds going from `n - 1` to `n`. */
  lemma ExtensionStep(s: seq<char>, n: nat) returns (e: seq<char>)
    requires 0 < n <= |FileExtensions|
    ensures e == FileExtensions[n - 1] && |e| > 0
    ensures NoExtension(s, n) <==> NoExtension(s, n - 1) && !EndsWith(Lower(s), e)
  {
    e := FileExtensions[n - 1];
  }

  /** A table none of whose patterns occurs in the text leaves it as it is. */
  lemma {:induction false} SubstituteAtNone(table: seq<(seq<char>, seq<char>)>, s: seq<char>, n: nat)
    requires n <= |table| && LiteralTable(table)
    requires forall i :: 0 <= i < n ==> !Contains(s, table[i].0)
    ensures SubstituteAt(table, s, n) == s
    decreases n
  {
    if n > 0 {
      SubstituteAtNone(table, s, n - 1);
      ReplaceAllAbsent(s, table[n - 1].0, table[n - 1].1);
    }
  }

  /** A character that is gone stays gone while no later replacement
      brings it back. */
  lemma {:induction false} SubstituteStaysAbsent(table: seq<(seq<char>, seq<char>)>, s: seq<char>, c: char, from: nat, n: nat)
    requires from <= n <= |table| && LiteralTable(table)
    requires c !in SubstituteAt(table, s, from)
    requires forall k :: from <= k < n ==> c !in table[k].1
    ensures c !in SubstituteAt(table, s, n)
    decreases n
  {
    if n > from {
      SubstituteStaysAbsent(table, s, c, from, n - 1);
      ReplaceAllKeepsAbsent(SubstituteAt(table, s, n - 1), table[n - 1].0, table[n - 1].1, c);
    }
  }

  /** The single character that entry `k` replaces is absent afterwards
      when no later entry brings it back. */
  lemma SubstituteRemovesChar(table: seq<(seq<char>, seq<char>)>, s: seq<char>, k: nat, n: nat)
    requires k < n <= |table| && LiteralTable(table)
    requires |table[k].0| == 1 && table[k].0[0] !in table[k].1
    requires forall j :: k < j < n ==> table[k].0[0] !in table[j].1
    ensures table[k].0[0] !in SubstituteAt(table, s, n)
  {
    var c := table[k].0[0];
    assert table[k].0 == [c];
    ReplaceAllRemovesChar(SubstituteAt(table, s, k), c, table[k].1);
    SubstituteStaysAbsent(table, s, c, k + 1, n);
  }

  /** After COMMON_SUBSTITUTES no NUL, backtick, acute accent, replacement
      character, en dash or em dash is left. */
  lemma CommonSubstitutesRemove(s: seq<char>)
    ensures LiteralTable(CommonSubstitutes) && |CommonSubstitutes| == 23
    ensures var r := SubstituteAt(CommonSubstitutes, s, 23);
      && '\0' !in r && '`' !in r && '\U{00B4}' !in r
      && '\U{FFFD}' !in r && '\U{2013}' !in r && '\U{2014}' !in r
  {
    SubstituteTablesAreLiteral();
    CommonRemovesFront(s);
    CommonRemovesDashes(s);
  }

  /** NUL, backtick and acute accent: entries 0 to 2 of COMMON_SUBSTITUTES,
      one lemma each. */
  lemma CommonRemovesFront(s: seq<char>)
    ensures var r := SubstituteAt(CommonSubstitutes, s, 23);
      '\0' !in r && '`' !in r && '\U{00B4}' !in r
  {
    CommonRemovesEntry(s, 0);
    CommonRemovesEntry(s, 1);
    CommonRemovesEntry(s, 2);
  }

  lemma CommonRemovesEntry(s: seq<char>, k: nat)
    requires k < 3
    ensures CommonSubstitutes[k].0 == [['\0', '`', '\U{00B4}'][k]]
    ensures ['\0', '`', '\U{00B4}'][k] !in SubstituteAt(CommonSubstitutes, s, 23)
  {
    SubstituteTablesAreLiteral();
    SubstituteRemovesChar(CommonSubstitutes, s, k, 23);
  }

  /** Replacement character, en dash and em dash: entries 20 to 22. */
  lemma CommonRemovesDashes(s: seq<char>)
    ensures var r := SubstituteAt(CommonSubstitutes, s, 23);
      '\U{FFFD}' !in r && '\U{2013}' !in r && '\U{2014}' !in r
  {
    SubstituteTablesAreLiteral();
    var t := CommonSubstitutes;
    SubstituteRemovesChar(t, s, 20, 23);
    SubstituteRemovesChar(t, s, 21, 23);
    SubstituteRemovesChar(t, s, 22, 23);
  }

  /** Case-insensitive `[a-z]` of Rust's regex: the ASCII letters and the two
      characters whose simple case folding is an ASCII letter (KELVIN SIGN
      and LATIN SMALL LETTER LONG S). */
  predicate FoldedLetter(c: char) {
    IsAlpha(c) || c == '\U{212A}' || c == '\U{017F}'
  }

  /** RE_CHARS_AND_DOTS, `(?i)^([a-z]\.)+([a-z])?$`: letters each followed by
      a dot, optionally ending with one more letter. */
  predicate CharsAndDots(s: seq<char>)
    decreases |s|
  {
    |s| >= 2 && FoldedLetter(s[0]) && s[1] == '.'
    && (|s| == 2 || (|s| == 3 && FoldedLetter(s[2])) || CharsAndDots(s[2..]))
  }

  /** The "Various Artists" rule: a compilation artist takes the real artist
      from the front of the title; any other artist loses a leading
      "Various Artists - ". */
  function SplitVariousArtists(artist: seq<char>, title: seq<char>): (r: (seq<char>, seq<char>))
    ensures Lower(artist) == Lower("Various Artists") && Contains(title, " - ") ==>
      r.0 + " - " + r.1 == title && !Contains(r.0, " - ")
    ensures Lower(artist) == Lower("Various Artists") && !Contains(title, " - ") ==> r == ([], title)
    ensures Lower(artist) != Lower("Various Artists") ==>
      r.1 == title && !StartsWith(r.0, "Various Artists - ")
  {
    if Lower(artist) == Lower("Various Artists") then
      match Find(title, " - ")
      case Some(i) =>
        var a := title[..i];
        assert title == a + " - " + title[i + 3..];
        assert !Contains(a, " - ") by {
          if Contains(a, " - ") {
            var j := Find(a, " - ").value;
            assert title[j..j + 3] == a[j..j + 3];
            assert OccursAt(title, " - ", j);
          }
        }
        (a, title[i + 3..])
      case None => ([], title)
    else (TrimStartMatches(artist, "Various Artists - "), title)
  }

  /** The title loses a leading "<artist> - ". */
  function DropArtistFromTitle(artist: seq<char>, title: seq<char>): (r: seq<char>)
    ensures StartsWith(title, artist + " - ") ==> artist + " - " + r == title
    ensures !StartsWith(title, artist + " - ") ==> r == title
  {
    var prefix := artist + " - ";
    if StartsWith(title, prefix) then
      assert OccursAt(title, prefix, 0);
      assert Find(title, prefix) == Some(0);
      ReplaceFirst(title, prefix, "")
    else title
  }

  predicate IsDot(c: char) { c == '.' }

  /** The case rule: an all-capitals title longer than ten characters that is
      not an initialism is title-cased, and so is an all-capitals artist longer
      than eight characters with it; an initialism is upper-cased. */
  function FixCase(artist: seq<char>, title: seq<char>, titlecase: seq<char> -> seq<char>): (r: (seq<char>, seq<char>))
    ensures CharsAndDots(title) ==> r == (artist, Upper(title))
    ensures !CharsAndDots(title) && (title != Upper(title) || |title| <= 10) ==> r == (artist, title)
    ensures !CharsAndDots(title) && title == Upper(title) && |title| > 10 ==>
      r.1 == titlecase(title) && (r.0 == artist || (artist == Upper(artist) && |artist| > 8))
  {
    if title == Upper(title) && |title| > 10 && !CharsAndDots(title) then
      (if artist == Upper(artist) && |artist| > 8 then titlecase(artist) else artist, titlecase(title))
    else if CharsAndDots(title) then (artist, Upper(title))
    else (artist, title)
  }

  /** Everything up to the dot trimming (src/formatting.rs:368-405). */
  function PrepareTags(artist: seq<char>, title: seq<char>, rw: Rewrites): (seq<char>, seq<char>) {
    SubstituteTablesAreLiteral();
    var a := SubstituteAt(CommonSubstitutes, StripExtensionsAt(artist, 5), 23);
    var t := SubstituteAt(TitleSubstitutes, SubstituteAt(CommonSubstitutes, StripExtensionsAt(title, 5), 23), 18);
    var a := RewriteAt(rw.general, RewriteAt(rw.names, a, |rw.names|), |rw.general|);
    var t := RewriteAt(rw.general, RewriteAt(rw.names, t, |rw.names|), |rw.general|);
    var (a, t) := SplitVariousArtists(ReplaceAll(a, " / ", ", "), t);
    var t := DropArtistFromTitle(a, t);
    (TrimStartBy(a, IsDot), t)
  }

  /** The helper passes (src/formatting.rs:408-421). */
  function HelperPasses(artist: seq<char>, title: seq<char>): (seq<char>, seq<char>) {
    var t := UseParenthesisForMix(title);
    var (a, t) := MoveFeat(artist, t);
    var t := RustNestCleanup(NestRaw(ReplaceDashInParentheses(t), false));
    var t := RemoveBpmInParenthesesFromEnd(WrapTextAfterParentheses(t));
    var a := RemoveUnmatchedClosingParenthesis(a);
    var t := ReplaceAll(ReplaceAll(t, "((", "("), "))", ")");
    (ExtractFeatFromParentheses(a), Balanced(t))
  }

  /** The helper passes and the final clean-up
      (src/formatting.rs:408-457). */
  function FinishTags(artist: seq<char>, title: seq<char>, rw: Rewrites): (r: (seq<char>, seq<char>))
    ensures IsTrimmedBy(r.0, IsSpace) && IsTrimmedBy(r.1, IsSpace)
  {
    SubstituteTablesAreLiteral();
    var (a, t) := HelperPasses(artist, title);
    var a := SubstituteAt(CommonSubstitutes, RewriteAt(rw.general, a, |rw.general|), 23);
    var t := SubstituteAt(CommonSubstitutes, RewriteAt(rw.general, t, |rw.general|), 23);
    var (a, t) := FixCase(a, t, rw.titlecase);
    TrimIsTrimmed(a);
    TrimIsTrimmed(t);
    (Trim(a), Trim(t))
  }

  /** What `format_tags_for_artist_and_title` returns. */
  function FormattedTags(artist: seq<char>, title: seq<char>, rw: Rewrites): (r: (seq<char>, seq<char>))
    ensures IsTrimmedBy(r.0, IsSpace) && IsTrimmedBy(r.1, IsSpace)
  {
    var (a, t) := PrepareTags(artist, title, rw);
    FinishTags(a, t, rw)
  }

  /** `format_tags_for_artist_and_title` (src/formatting.rs:364-458): the
      normalising half, then the helper passes and the clean-up. */
  method FormatTagsForArtistAndTitle(artist: seq<char>, title: seq<char>, rw: Rewrites)
    returns (a: seq<char>, t: seq<char>)
    ensures (a, t) == FormattedTags(artist, title, rw)
  {
    a, t := NormalizeTags(artist, title, rw);
    a, t := CleanUpTags(a, t, rw);
  }

  /** src/formatting.rs:365-405: extensions, literal and regex tables,
      "Various Artists", the repeated artist and the leading dots. */
  method NormalizeTags(artist: seq<char>, title: seq<char>, rw: Rewrites)
    returns (a: seq<char>, t: seq<char>)
    ensures (a, t) == PrepareTags(artist, title, rw)
  {
    SubstituteTablesAreLiteral();
    a, t := StripExtensions(artist, title);
    a, t := SubstituteBoth(CommonSubstitutes, a, t);
    t := SubstituteTitle(t);
    a, t := ApplyRewrites(rw.names, a, t);
    a, t := ApplyRewrites(rw.general, a, t);
    var split := SplitVariousArtists(ReplaceAll(a, " / ", ", "), t);
    a, t := split.0, split.1;
    t := DropArtistFromTitle(a, t);
    a := TrimStartBy(a, IsDot);
  }

  /** src/formatting.rs:408-457: the helper passes, the tables once more, the
      case rule and the final trim. */
  method CleanUpTags(artist: seq<char>, title: seq<char>, rw: Rewrites)
    returns (a: seq<char>, t: seq<char>)
    ensures (a, t) == FinishTags(artist, title, rw)
  {
    SubstituteTablesAreLiteral();
    a, t := RunHelperPasses(artist, title);
    a, t := ApplyRewrites(rw.general, a, t);
    a, t := SubstituteBoth(CommonSubstitutes, a, t);
    var cased := FixCase(a, t, rw.titlecase);
    a, t := Trim(cased.0), Trim(cased.1);
  }

  /** src/formatting.rs:408-421, in the source's order. */
  method RunHelperPasses(artist: seq<char>, title: seq<char>) returns (a: seq<char>, t: seq<char>)
    ensures (a, t) == HelperPasses(artist, title)
  {
    t := UseParenthesisForMix(title);
    a, t := MoveFeatFromTitleToArtist(artist, t);
    t := ReplaceDashInParentheses(t);
    t := FixNestedParentheses(t);
    t := WrapTextAfterParentheses(t);
    t := RemoveBpmInParenthesesFromEnd(t);
    a := RemoveUnmatchedClosingParenthesis(a);
    t := ReplaceAll(ReplaceAll(t, "((", "("), "))", ")");
    a := ExtractFeatFromParentheses(a);
    t := BalanceParenthesis(t);
  }

  /** The extension loop (src/formatting.rs:370-377): each field loses
      only an ending, and is cut exactly when it ends with an extension. */
  method StripExtensions(artist: seq<char>, title: seq<char>) returns (a: seq<char>, t: seq<char>)
    ensures a == StripExtensionsAt(artist, |FileExtensions|) && t == StripExtensionsAt(title, |FileExtensions|)
    ensures |a| <= |artist| && a == artist[..|a|] && |t| <= |title| && t == title[..|t|]
    ensures a == artist <==> NoExtension(artist, |FileExtensions|)
    ensures t == title <==> NoExtension(title, |FileExtensions|)
  {
    a, t := artist, title;
    for i := 0 to |FileExtensions|
      invariant a == StripExtensionsAt(artist, i) && t == StripExtensionsAt(title, i)
    {
      a := CutExtension(a, FileExtensions[i]);
      t := CutExtension(t, FileExtensions[i]);
    }
    StripExtensionsAtPrefix(artist, |FileExtensions|);
    StripExtensionsAtPrefix(title, |FileExtensions|);
  }

  /** The body of the extension loop for one text. */
  method CutExtension(s: seq<char>, ext: seq<char>) returns (r: seq<char>)
    ensures r == StripExtension(s, ext)
  {
    r := s;
    if EndsWith(Lower(s), ext) {
      r := s[..|s| - |ext|];
    }
  }

  /** The title-only literal table, in order; a title holding none of its
      patterns comes out unchanged. */
  method SubstituteTitle(title: seq<char>) returns (t: seq<char>)
    ensures t == SubstituteAt(TitleSubstitutes, title, |TitleSubstitutes|)
    ensures (forall i :: 0 <= i < |TitleSubstitutes| ==> !Contains(title, TitleSubstitutes[i].0)) ==> t == title
  {
    SubstituteTablesAreLiteral();
    t := title;
    for i := 0 to |TitleSubstitutes|
      invariant t == SubstituteAt(TitleSubstitutes, title, i)
    {
      t := ReplaceAll(t, TitleSubstitutes[i].0, TitleSubstitutes[i].1);
    }
    if forall i :: 0 <= i < |TitleSubstitutes| ==> !Contains(title, TitleSubstitutes[i].0) {
      SubstituteAtNone(TitleSubstitutes, title, |TitleSubstitutes|);
    }
  }

  /** One literal table applied to both fields, in order; a field holding
      none of the table's patterns comes out unchanged. */
  method SubstituteBoth(table: seq<(seq<char>, seq<char>)>, artist: seq<char>, title: seq<char>)
    returns (a: seq<char>, t: seq<char>)
    requires LiteralTable(table)
    ensures a == SubstituteAt(table, artist, |table|) && t == SubstituteAt(table, title, |table|)
    ensures (forall i :: 0 <= i < |table| ==> !Contains(artist, table[i].0)) ==> a == artist
    ensures (forall i :: 0 <= i < |table| ==> !Contains(title, table[i].0)) ==> t == title
  {
    a, t := artist, title;
    for i := 0 to |table|
      invariant a == SubstituteAt(table, artist, i) && t == SubstituteAt(table, title, i)
    {
      a := ReplaceAll(a, table[i].0, table[i].1);
      t := ReplaceAll(t, table[i].0, table[i].1);
    }
    if forall i :: 0 <= i < |table| ==> !Contains(artist, table[i].0) {
      SubstituteAtNone(table, artist, |table|);
    }
    if forall i :: 0 <= i < |table| ==> !Contains(title, table[i].0) {
      SubstituteAtNone(table, title, |table|);
    }
  }

  /** One regular-expression table applied to both fields, in order. */
  method ApplyRewrites(fs: seq<seq<char> -> seq<char>>, artist: seq<char>, title: seq<char>)
    returns (a: seq<char>, t: seq<char>)
    ensures a == RewriteAt(fs, artist, |fs|) && t == RewriteAt(fs, title, |fs|)
  {
    a, t := artist, title;
    for i := 0 to |fs|
      invariant a == RewriteAt(fs, artist, i) && t == RewriteAt(fs, title, i)
    {
      a := fs[i](a);
      t := fs[i](t);
    }
  }

  // ---------------------------------------------------------------------
  // format_album

  /** `format_album` (src/formatting.rs:473-478): trimmed, a leading "www."
      (in any case) removed, white space fixed. */
  function FormatAlbum(album: seq<char>): (r: seq<char>)
    ensures NoAdjacent(r, IsSpace) && IsTrimmedBy(r, IsSpace)
  {
    var trimmed := Trim(album);
    var stripped := if |trimmed| >= 4 && Lower(trimmed[..4]) == "www." then trimmed[4..] else trimmed;
    FixWhitespace(stripped)
  }

  /** An album name that is already clean and has no "www." prefix is kept. */
  lemma FormatAlbumKeepsClean(album: seq<char>)
    requires NoAdjacent(album, IsSpace) && IsTrimmedBy(album, IsSpace)
    requires !(|album| >= 4 && Lower(album[..4]) == "www.")
    ensures FormatAlbum(album) == album
  {
    TrimTrimmed(album);
    ReplaceRunsNoRun(album, IsSpace, " ");
    TrimTrimmed(album);
  }

  /** "WWW." in front of a clean name goes. */
  lemma FormatAlbumDropsWww(name: seq<char>)
    requires NoAdjacent(name, IsSpace) && IsTrimmedBy(name, IsSpace)
    ensures FormatAlbum("WWW." + name) == name
  {
    var album := "WWW." + name;
    assert IsTrimmedBy(album, IsSpace);
    TrimTrimmed(album);
    assert album[..4] == "WWW." && album[4..] == name;
    assert Lower(album[..4]) == "www.";
    ReplaceRunsNoRun(name, IsSpace, " ");
    TrimTrimmed(name);
  }
}
