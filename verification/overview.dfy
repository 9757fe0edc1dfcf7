/**
 getStatusOverview: the pull request's status changes are ignored when its
 title matches the regular expression `(k1|k2|...|kn)` built from the
 configured ignore keywords, with the `i` flag. The keywords are literal
 text, so the expression is a case-insensitive search for the leftmost
 position where some keyword matches, trying the keywords in list order at
 each position.
 */
module Overview {
  import opened Wrappers
  import opened Strings
  import opened Seqs

  /** Keyword `k` matches `title` at position `p`, ignoring ASCII case. */
  predicate MatchesAt(title: string, k: string, p: nat) {
    p + |k| <= |title| && Lower(title[p..p + |k|]) == Lower(k)
  }

  /**
   The alternatives of the expression: joining an empty keyword list gives
   the empty group `()`, whose single alternative is the empty string.
   */
  function Alternatives(keywords: seq<string>): (alts: seq<string>)
    ensures |alts| > 0
    ensures |keywords| == 0 ==> alts == [""]
    ensures |keywords| > 0 ==> alts == keywords
  {
    if |keywords| == 0 then [""] else keywords
  }

  /**
   The source text of the expression, `(${keywords.join('|')})`, is the group
   of the alternatives: cutting the joined keywords at every `|` gives back
   exactly the alternatives, when no keyword contains a `|`.
   */
  lemma AlternativesSource(keywords: seq<string>)
    requires forall i :: 0 <= i < |keywords| ==> '|' !in keywords[i]
    ensures Split(Join(keywords, "|"), '|') == Alternatives(keywords)
  {
    if |keywords| == 0 {
      assert Join(keywords, "|") == "" && '|' !in "";
    } else {
      assert "|" == ['|'];
      SplitJoin(keywords, '|');
    }
  }

  /** The empty list and the list of the empty keyword both give the group `()`. */
  lemma EmptyGroupSource(keywords: seq<string>)
    ensures "(" + Join(Alternatives(keywords), "|") + ")" == "(" + Join(keywords, "|") + ")"
    ensures |keywords| == 0 ==> "(" + Join(keywords, "|") + ")" == "()"
  {
  }

  /** The first alternative at index `i` or later that matches at `p`. */
  function FirstAltAt(title: string, alts: seq<string>, p: nat, i: nat): (r: Option<nat>)
    decreases |alts| - i
    ensures r.Some? ==> i <= r.value < |alts| && MatchesAt(title, alts[r.value], p)
    ensures r.Some? ==> forall j :: i <= j < r.value ==> !MatchesAt(title, alts[j], p)
    ensures r.None? ==> forall j :: i <= j < |alts| ==> !MatchesAt(title, alts[j], p)
  {
    if i >= |alts| then None
    else if MatchesAt(title, alts[i], p) then Some(i)
    else FirstAltAt(title, alts, p, i + 1)
  }

  /** Where a match starts and which alternative produced it. */
  datatype Match = Match(pos: nat, alt: nat)

  /** No alternative matches anywhere in positions `from` up to, not including, `to`. */
  ghost predicate NoMatchBetween(title: string, alts: seq<string>, from: nat, to: nat) {
    forall q: nat, j :: from <= q < to && 0 <= j < |alts| ==> !MatchesAt(title, alts[j], q)
  }

  /** The regex engine's scan: positions from `p` up to and including the end of the title. */
  function SearchFrom(title: string, alts: seq<string>, p: nat): (r: Option<Match>)
    decreases |title| + 1 - p
    ensures r.Some? ==> p <= r.value.pos <= |title| && r.value.alt < |alts|
    ensures r.Some? ==> MatchesAt(title, alts[r.value.alt], r.value.pos)
    ensures r.Some? ==> forall j :: 0 <= j < r.value.alt ==> !MatchesAt(title, alts[j], r.value.pos)
    ensures r.Some? ==> NoMatchBetween(title, alts, p, r.value.pos)
    ensures r.None? ==> NoMatchBetween(title, alts, p, |title| + 1)
  {
    if p > |title| then None
    else
      match FirstAltAt(title, alts, p, 0)
      case Some(j) => Some(Match(p, j))
      case None => SearchFrom(title, alts, p + 1)
  }

  /** Past the end of the title nothing, not even the empty string, matches. */
  lemma NoMatchPastEnd(title: string, alts: seq<string>, q: nat, j: nat)
    requires q > |title| && j < |alts|
    ensures !MatchesAt(title, alts[j], q)
  {
  }

  /** `title.match(re)?.at(0)`: the text of the leftmost match, in the title's own case. */
  function RegexMatch(title: string, keywords: seq<string>): (r: Option<string>)
    ensures r.Some? ==>
      exists p: nat, i :: 0 <= i < |Alternatives(keywords)| &&
        MatchesAt(title, Alternatives(keywords)[i], p) &&
        r.value == title[p..p + |Alternatives(keywords)[i]|] &&
        NoMatchBetween(title, Alternatives(keywords), 0, p) &&
        forall j :: 0 <= j < i ==> !MatchesAt(title, Alternatives(keywords)[j], p)
    ensures r.Some? ==>
      exists i :: 0 <= i < |Alternatives(keywords)| && Lower(r.value) == Lower(Alternatives(keywords)[i])
    ensures r.None? <==> forall q: nat, j :: 0 <= j < |Alternatives(keywords)| ==>
      !MatchesAt(title, Alternatives(keywords)[j], q)
  {
    var alts := Alternatives(keywords);
    match SearchFrom(title, alts, 0)
    case None =>
      assert forall q: nat, j :: 0 <= j < |alts| ==> !MatchesAt(title, alts[j], q) by {
        forall q: nat, j | 0 <= j < |alts| ensures !MatchesAt(title, alts[j], q) {
          if q > |title| {
            NoMatchPastEnd(title, alts, q, j);
          }
        }
      }
      None
    case Some(m) =>
      var text := title[m.pos..m.pos + |alts[m.alt]|];
      assert MatchesAt(title, alts[m.alt], m.pos) && text == title[m.pos..m.pos + |alts[m.alt]|];
      Some(text)
  }

  /** The overview paragraph: the tracked text, or the untracked text quoting the match. */
  datatype OverviewText = Tracked | Untracked(matched: string)

  datatype StatusOverview = StatusOverview(overview: OverviewText, isIgnored: bool)

  /** Some keyword occurs in the title, ignoring ASCII case. */
  ghost predicate Mentions(title: string, keywords: seq<string>) {
    exists i, p: nat :: 0 <= i < |keywords| && MatchesAt(title, keywords[i], p)
  }

  /**
   getStatusOverview: a match is kept only when it is truthy, that is,
   when the matched text is not empty.
   */
  function GetStatusOverview(title: string, keywords: seq<string>): (r: StatusOverview)
    ensures r.isIgnored <==> r.overview.Untracked?
    ensures r.isIgnored <==> RegexMatch(title, keywords).Some? && |RegexMatch(title, keywords).value| > 0
    ensures r.overview.Untracked? ==> |r.overview.matched| > 0 && RegexMatch(title, keywords) == Some(r.overview.matched)
    ensures |keywords| == 0 ==> !r.isIgnored
    ensures r.isIgnored ==> Mentions(title, keywords)
    ensures (forall i :: 0 <= i < |keywords| ==> |keywords[i]| > 0) ==>
      (r.isIgnored <==> Mentions(title, keywords))
  {
    var m := RegexMatch(title, keywords);
    if m.Some? && |m.value| > 0 then
      StatusOverview(Untracked(m.value), true)
    else
      StatusOverview(Tracked, false)
  }

  /** The ignore keywords of the action's tracking configuration. */
  const IgnoredKeywords: seq<string> :=
    ["lunaria-ignore", "typo", "en-only", "broken link", "i18nReady", "i18nIgnore"]

  /** With the configured keywords, a title is ignored exactly when it mentions one of them. */
  lemma ConfiguredKeywordsDecide(title: string)
    ensures GetStatusOverview(title, IgnoredKeywords).isIgnored <==> Mentions(title, IgnoredKeywords)
  {
  }

  /** No configured keyword matches in the first four positions of "Fix TYPO". */
  lemma NoKeywordBeforeTypo(q: nat, j: nat)
    requires q < 4 && j < |IgnoredKeywords|
    ensures !MatchesAt("Fix TYPO", IgnoredKeywords[j], q)
  {
    var title, k := "Fix TYPO", IgnoredKeywords[j];
    if q + |k| <= |title| {
      assert Lower(title[q..q + |k|])[0] == LowerChar(title[q]);
      assert Lower(k)[0] == LowerChar(k[0]);
    }
  }

  /** At position 4 of "Fix TYPO", `typo` is the first configured keyword that matches. */
  lemma TypoMatchesAtFour()
    ensures FirstAltAt("Fix TYPO", IgnoredKeywords, 4, 0) == Some(1)
  {
  }

  /** The scan of "Fix TYPO" passes the first four positions without a match. */
  lemma NoMatchBeforeFour()
    ensures SearchFrom("Fix TYPO", IgnoredKeywords, 0) == SearchFrom("Fix TYPO", IgnoredKeywords, 4)
  {
    var title := "Fix TYPO";
    forall q: nat | q < 4 ensures FirstAltAt(title, IgnoredKeywords, q, 0) == None {
      forall j: nat | j < |IgnoredKeywords| ensures !MatchesAt(title, IgnoredKeywords[j], q) {
        NoKeywordBeforeTypo(q, j);
      }
    }
  }

  /** Matching ignores case, and the untracked overview quotes the title's own spelling. */
  lemma UpperCaseKeywordIgnored()
    ensures GetStatusOverview("Fix TYPO", IgnoredKeywords) == StatusOverview(Untracked("TYPO"), true)
  {
    var title := "Fix TYPO";
    assert title[4..8] == "TYPO";
    TypoMatchesAtFour();
    NoMatchBeforeFour();
    assert SearchFrom(title, IgnoredKeywords, 0) == Some(Match(4, 1));
  }

  /** An empty keyword after the one that matches first does not stop the title being ignored. */
  lemma EmptyKeywordAfterMatch()
    ensures GetStatusOverview("typo", ["typo", ""]) == StatusOverview(Untracked("typo"), true)
  {
    var title, keywords := "typo", ["typo", ""];
    assert title[0..4] == title;
    assert FirstAltAt(title, keywords, 0, 0) == Some(0);
  }

  /** An empty keyword matches the empty text at the start and hides every later keyword. */
  lemma EmptyKeywordShadows()
    ensures !GetStatusOverview("a typo", ["", "typo"]).isIgnored
    ensures Mentions("a typo", ["typo"])
  {
    assert MatchesAt("a typo", "", 0);
    assert MatchesAt("a typo", ["typo"][0], 2);
  }
}
