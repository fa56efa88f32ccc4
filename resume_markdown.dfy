/**
 * `_postprocess_resume_markdown` (parse_hh.py:76-97): three `re.sub` passes
 * over the résumé's Markdown, applied in a fixed order.
 *
 *  1. A "## Опыт работы" heading followed by a total tenure ("5 лет 3 месяца")
 *     becomes the heading, a blank line and a bold "Общий стаж:" line.
 *  2. A line "Январь 2020 — по настоящее время 5 лет 3 месяца" becomes
 *     "**Январь 2020 — по настоящее время** — 5 лет 3 месяца".
 *  3. An asterisk, together with the whole whitespace run after it up to
 *     that run's last line feed, becomes one line feed; blank lines that
 *     follow the asterisk go with it.
 *
 * `re.sub` makes one left-to-right pass: at each position it either replaces
 * the match found there and carries on after it, or copies one character.
 * It never looks at what it has already produced.
 */
module ResumeMarkdown {
  import opened Optional
  import opened Text
  import opened ResumePatterns

  datatype Pass = Experience | DateLine | TrailingStar

  /** A match that covers s[p..end] and is to be replaced by replacement. */
  datatype Hit = Hit(end: nat, replacement: string)

  /** Pass 1's replacement up to its `\1`. */
  const TenureHeading := "## Опыт работы\n\n**Общий стаж:** "

  /** r is "**", an n-character bold text that is the date part with its
      outer whitespace cut off, "** — ", and the duration part cut the same way. */
  ghost predicate BoldDateLine(r: string, n: nat, datePart: string, durationPart: string) {
    n + 7 <= |r| && r[..2] == "**" && r[n + 2..n + 7] == "** — "
    && IsStrippedOf(r[2..n + 2], datePart) && IsStrippedOf(r[n + 7..], durationPart)
  }

  /** Pass 2's replacement, `f"**{date_part}** — {duration_part}"`, where
      both parts are the groups with `str.strip()` applied. */
  function DateLineReplacement(datePart: string, durationPart: string): (r: string)
    ensures exists n: nat :: BoldDateLine(r, n, datePart, durationPart)
  {
    var d, u := Strip(datePart), Strip(durationPart);
    StrippedIsStrip(d, datePart);
    StrippedIsStrip(u, durationPart);
    var r := "**" + d + "** — " + u;
    assert r[..2] == "**" && r[2..|d| + 2] == d && r[|d| + 2..|d| + 7] == "** — " && r[|d| + 7..] == u;
    assert BoldDateLine(r, |d|, datePart, durationPart);
    r
  }

  /** That shape fixes the replacement: a text that has it is
      `fix_experience_line`'s result. */
  lemma BoldDateLineUnique(r: string, n: nat, datePart: string, durationPart: string)
    requires BoldDateLine(r, n, datePart, durationPart)
    ensures r == DateLineReplacement(datePart, durationPart)
  {
    StrippedIsStrip(r[2..n + 2], datePart);
    StrippedIsStrip(r[n + 7..], durationPart);
    FourParts(r, 2, n + 2, n + 7);
  }

  /** The match of a pass at p and what `re.sub` puts in its place. Every
      replacement starts with `#`, `*` or a line feed. */
  function MatchAt(pass: Pass, s: string, p: nat): (h: Option<Hit>)
    requires p <= |s|
    ensures h.Some? ==> p < h.value.end <= |s|
    ensures h.Some? ==> h.value.replacement != [] && h.value.replacement[0] in "#*\n"
  {
    match pass
    case Experience =>
      (match ExperienceAt(s, p)
       case None => None
       case Some(b) => Some(Hit(b.end, TenureHeading + s[b.split..b.end])))
    case DateLine =>
      (match DateLineAt(s, p)
       case None => None
       case Some(b) => Some(Hit(b.end, DateLineReplacement(s[p..b.split], s[b.split..b.end]))))
    case TrailingStar =>
      (match StarAt(s, p)
       case None => None
       case Some(e) => Some(Hit(e, "\n")))
  }

  /** What `re.sub` finds when it tries the pass's pattern at each position of s. */
  function Matches(pass: Pass, s: string): (t: seq<Option<Hit>>)
    ensures |t| == |s| && Advances(t) && Replaces(t)
    ensures forall k | 0 <= k < |s| :: t[k] == MatchAt(pass, s, k)
  {
    seq(|s|, k requires 0 <= k < |s| => MatchAt(pass, s, k))
  }

  /** Every match in the table is non-empty and ends inside the text. */
  predicate Advances(t: seq<Option<Hit>>) {
    forall k | 0 <= k < |t| :: t[k].Some? ==> k < t[k].value.end <= |t|
  }

  /** Every replacement in the table starts with `#`, `*` or a line feed. */
  predicate Replaces(t: seq<Option<Hit>>) {
    forall k | 0 <= k < |t| :: t[k].Some? ==>
      t[k].value.replacement != [] && t[k].value.replacement[0] in "#*\n"
  }

  /** `re.sub`'s scan from p, given the match at each position: where a match
      starts its replacement goes in and the scan resumes after the match;
      elsewhere one character is copied. */
  function Rewrite(s: string, t: seq<Option<Hit>>, p: nat): string
    requires |t| == |s| && Advances(t) && p <= |s|
    decreases |s| - p
  {
    if p == |s| then []
    else
      match t[p]
      case Some(h) => h.replacement + Rewrite(s, t, h.end)
      case None => [s[p]] + Rewrite(s, t, p + 1)
  }

  /** `re.sub` of one pass over s[p..]. */
  function Sub(pass: Pass, s: string, p: nat): string
    requires p <= |s|
  {
    Rewrite(s, Matches(pass, s), p)
  }

  /** `re.sub(pattern, repl, s)` for one pass; where the pattern never
      matches, the text comes back as it is. */
  function Substitute(pass: Pass, s: string): (r: string)
    ensures (forall k | 0 <= k < |s| :: MatchAt(pass, s, k).None?) ==> r == s
  {
    NoMatchKeeps(pass, s);
    Sub(pass, s, 0)
  }

  lemma NoMatchKeeps(pass: Pass, s: string)
    ensures (forall k | 0 <= k < |s| :: MatchAt(pass, s, k).None?) ==> Sub(pass, s, 0) == s
  {
    if forall k | 0 <= k < |s| :: MatchAt(pass, s, k).None? {
      SubCopies(pass, s, 0, |s|);
    }
  }

  /** Where no match starts, the scan copies one character and moves on. */
  lemma RewriteStep(s: string, t: seq<Option<Hit>>, p: nat)
    requires |t| == |s| && Advances(t) && p < |s| && t[p].None?
    ensures Rewrite(s, t, p) == [s[p]] + Rewrite(s, t, p + 1)
  {
  }

  /** The positions p..p2 hold no match, so the scan copies them unchanged. */
  lemma {:induction false} RewriteCopies(s: string, t: seq<Option<Hit>>, p: nat, p2: nat)
    requires |t| == |s| && Advances(t) && p <= p2 <= |s|
    requires forall k | p <= k < p2 :: t[k].None?
    ensures Rewrite(s, t, p) == s[p..p2] + Rewrite(s, t, p2)
    decreases p2 - p
  {
    if p < p2 {
      RewriteStep(s, t, p);
      RewriteCopies(s, t, p + 1, p2);
      SliceCons(s, p, p2, Rewrite(s, t, p2));
    }
  }

  /** The output starts with w only if the text does at p, when w holds no
      `#`, `*` or line feed: a replacement would put one of those where w has
      none, so the start of the output was copied from the text. */
  lemma {:induction false} RewritePrefixCopied(s: string, t: seq<Option<Hit>>, p: nat, w: string)
    requires |t| == |s| && Advances(t) && Replaces(t) && p <= |s|
    requires forall c | c in w :: c != '#' && c != '*' && c != '\n'
    ensures HasAt(Rewrite(s, t, p), 0, w) ==> HasAt(s, p, w)
    decreases |w|
  {
    if w != [] && p < |s| {
      if t[p].Some? {
        assert Rewrite(s, t, p)[0] == t[p].value.replacement[0];
        assert w[0] in w;
      } else {
        RewriteStep(s, t, p);
        assert forall c | c in w[1..] :: c in w;
        RewritePrefixCopied(s, t, p + 1, w[1..]);
        StartsWithCons(s[p], Rewrite(s, t, p + 1), w);
        HasAtStep(s, p, w);
      }
    }
  }

  /** A single match, at lo and ending at hi, in a text that has no other:
      the scan is the text with the replacement in place of s[lo..hi]. */
  lemma RewriteSplice(s: string, t: seq<Option<Hit>>, lo: nat, hi: nat, rep: string)
    requires |t| == |s| && Advances(t) && lo < hi <= |s| && t[lo] == Some(Hit(hi, rep))
    requires forall k | 0 <= k < lo :: t[k].None?
    requires forall k | hi <= k < |s| :: t[k].None?
    ensures Rewrite(s, t, 0) == s[..lo] + rep + s[hi..]
  {
    RewriteCopies(s, t, hi, |s|);
    RewriteCopies(s, t, 0, lo);
    SpliceSlices(s, 0, lo, rep, Rewrite(s, t, hi));
    SpliceSlices(s, lo, hi, rep, []);
  }

  /** `re.sub` with a single match, at lo and ending at hi. */
  lemma SubSplice(pass: Pass, s: string, lo: nat, h: Hit)
    requires lo < |s| && MatchAt(pass, s, lo) == Some(h)
    requires forall k | 0 <= k < lo :: MatchAt(pass, s, k).None?
    requires forall k | h.end <= k < |s| :: MatchAt(pass, s, k).None?
    ensures Substitute(pass, s) == s[..lo] + h.replacement + s[h.end..]
  {
    RewriteSplice(s, Matches(pass, s), lo, h.end, h.replacement);
  }

  /** Where a match starts, `re.sub` puts its replacement in and resumes after it. */
  lemma SubHit(pass: Pass, s: string, p: nat, h: Hit)
    requires p < |s| && MatchAt(pass, s, p) == Some(h)
    ensures h.end <= |s| && Sub(pass, s, p) == h.replacement + Sub(pass, s, h.end)
  {
    assert Matches(pass, s)[p] == Some(h);
  }

  /** The positions p..p2 hold no match, so `re.sub` copies them unchanged. */
  lemma SubCopies(pass: Pass, s: string, p: nat, p2: nat)
    requires p <= p2 <= |s|
    requires forall k | p <= k < p2 :: MatchAt(pass, s, k).None?
    ensures Sub(pass, s, p) == s[p..p2] + Sub(pass, s, p2)
  {
    RewriteCopies(s, Matches(pass, s), p, p2);
  }

  /** A match of pass 1's pattern that runs to the end of its line is what
      `re.sub` replaces at p: the heading, a blank line, and the group after
      "**Общий стаж:** ". The pass then carries on after the line. */
  lemma ExperienceRewrite(s: string, p: nat, q: nat, e: nat)
    requires ExperienceMatch(s, p, q, e) && (e == |s| || s[e] == '\n')
    ensures Sub(Experience, s, p) == TenureHeading + s[q..e] + Sub(Experience, s, e)
  {
    ExperienceHit(s, p, q, e);
    SubHit(Experience, s, p, Hit(e, TenureHeading + s[q..e]));
  }

  /** Pass 1 on a text that is one whole matching line gives the heading
      followed by the group. */
  lemma TenureWholeLine(s: string, q: nat)
    requires ExperienceMatch(s, 0, q, |s|)
    ensures FixTenure(s) == TenureHeading + s[q..]
  {
    ExperienceRewrite(s, 0, q, |s|);
    assert Sub(Experience, s, |s|) == [];
  }

  /** Pass 1's match at p is the line with its group. */
  lemma ExperienceHit(s: string, p: nat, q: nat, e: nat)
    requires ExperienceMatch(s, p, q, e) && (e == |s| || s[e] == '\n')
    ensures p < |s| && MatchAt(Experience, s, p) == Some(Hit(e, TenureHeading + s[q..e]))
  {
    var i: nat, k: nat, m: nat :| ExperienceParse(s, p, i, q, k, m, e);
    ExperienceAtComplete(s, p, i, q, k, m, e);
    var b := ExperienceAt(s, p).value;
    assert b.end == e by {
      assert e < b.end ==> NotNewline(s[e]);
    }
    assert b == Bounds(q, e);
    assert MatchAt(Experience, s, p) == Some(Hit(b.end, TenureHeading + s[b.split..b.end]));
  }

  /** A match of pass 2's pattern that runs to the end of its line is what
      `re.sub` replaces at p: both groups stripped, the first in bold, joined
      by " — ". */
  lemma DateLineRewrite(s: string, p: nat, q: nat, e: nat)
    requires RangeMatch(s, p, q) && DurationMatch(s, q, e) && (e == |s| || s[e] == '\n')
    ensures Sub(DateLine, s, p) == DateLineReplacement(s[p..q], s[q..e]) + Sub(DateLine, s, e)
  {
    DateLineAtComplete(s, p, q, e);
    SubHit(DateLine, s, p, Hit(e, DateLineReplacement(s[p..q], s[q..e])));
  }

  /** An asterisk, whitespace and a line feed, followed by no more whitespace,
      are replaced by a single line feed. */
  lemma StarRewrite(s: string, p: nat, e: nat)
    requires StarMatch(s, p, e) && (e == |s| || !IsSpace(s[e]))
    ensures Sub(TrailingStar, s, p) == "\n" + Sub(TrailingStar, s, e)
  {
    StarAtComplete(s, p, e);
  }

  /** What `re.sub` produces starts with w only if the text did at p, when
      w holds no `#`, `*` or line feed. */
  lemma SubPrefixCopied(pass: Pass, s: string, p: nat, w: string)
    requires p <= |s| && forall c | c in w :: c != '#' && c != '*' && c != '\n'
    ensures HasAt(Sub(pass, s, p), 0, w) ==> HasAt(s, p, w)
  {
    RewritePrefixCopied(s, Matches(pass, s), p, w);
  }

  /** A text that starts with w, where no match starts inside w, keeps w at
      its start. */
  lemma SubPrefixKept(pass: Pass, s: string, w: string)
    requires StartsWith(s, w) && forall k | 0 <= k < |w| :: MatchAt(pass, s, k).None?
    ensures StartsWith(Sub(pass, s, 0), w)
  {
    SubCopies(pass, s, 0, |w|);
    assert s[0..|w|] == w;
  }

  /** Pass 1: the tenure line under the "Опыт работы" heading (parse_hh.py:80-84).
      Text with no `#`, or that never mentions "месяц", is left as it is. */
  function FixTenure(s: string): (r: string)
    ensures '#' !in s || !Contains(s, Month) ==> r == s
  {
    TenureNeedsHashAndMonth(s);
    Substitute(Experience, s)
  }

  lemma TenureNeedsHashAndMonth(s: string)
    ensures '#' !in s || !Contains(s, Month) ==>
      forall k | 0 <= k < |s| :: MatchAt(Experience, s, k).None?
  {
  }

  /** Pass 2: the date range and duration lines (parse_hh.py:86-95). Text with
      no em dash, or in which "ле" (the stem of "лет") never occurs, is left as
      it is: durations written with "год" or "года" alone are never rewritten. */
  function FixDateLines(s: string): (r: string)
    ensures Dash !in s || !Contains(s, YearStem) ==> r == s
  {
    DateLineNeedsDashAndYears(s);
    Substitute(DateLine, s)
  }

  lemma DateLineNeedsDashAndYears(s: string)
    ensures Dash !in s || !Contains(s, YearStem) ==>
      forall k | 0 <= k < |s| :: MatchAt(DateLine, s, k).None?
  {
  }

  /** Pass 3: an asterisk, whitespace and a line feed become a line feed
      (parse_hh.py:96). The text never grows, and text with no asterisk is
      left as it is. */
  function DropTrailingAsterisks(s: string): (r: string)
    ensures |r| <= |s|
    ensures '*' !in s ==> r == s
  {
    StarPassShrinks(s, 0);
    StarNeedsAsterisk(s);
    Substitute(TrailingStar, s)
  }

  lemma StarNeedsAsterisk(s: string)
    ensures '*' !in s ==> forall k | 0 <= k < |s| :: MatchAt(TrailingStar, s, k).None?
  {
  }

  /** Pass 3 copies a stretch with no asterisk: every match starts with one. */
  lemma StarPassCopies(s: string, lo: nat, hi: nat)
    requires lo <= hi <= |s| && forall j | lo <= j < hi :: s[j] != '*'
    ensures Sub(TrailingStar, s, lo) == s[lo..hi] + Sub(TrailingStar, s, hi)
  {
    assert forall k | lo <= k < hi :: MatchAt(TrailingStar, s, k).None?;
    SubCopies(TrailingStar, s, lo, hi);
  }

  /** Pass 3 leaves a + b as it is when a has no asterisk and b no line feed:
      every match needs an asterisk with a line feed after it. */
  lemma StarPassKeeps(a: string, b: string)
    requires '*' !in a && '\n' !in b
    ensures DropTrailingAsterisks(a + b) == a + b
  {
    var s := a + b;
    assert forall j | 0 <= j < |a| :: s[j] == a[j] && s[j] != '*';
    assert forall j | |a| <= j < |s| :: s[j] == b[j - |a|] && s[j] != '\n';
    assert forall k | 0 <= k < |s| :: MatchAt(TrailingStar, s, k).None?;
    SubCopies(TrailingStar, s, 0, |s|);
  }

  /** Pass 3 leaves a single line as it is. */
  lemma StarPassKeepsLine(t: string)
    requires '\n' !in t
    ensures DropTrailingAsterisks(t) == t
  {
    StarPassKeeps([], t);
    assert [] + t == t;
  }

  lemma {:induction false} StarPassShrinks(s: string, p: nat)
    requires p <= |s|
    ensures |Sub(TrailingStar, s, p)| <= |s| - p
    decreases |s| - p
  {
    if p < |s| {
      match MatchAt(TrailingStar, s, p)
      case Some(h) => StarPassShrinks(s, h.end);
      case None => StarPassShrinks(s, p + 1);
    }
  }

  /** `_postprocess_resume_markdown`: the three passes in order. Text with no
      `#`, no em dash and no asterisk is left as it is. */
  function Postprocess(s: string): (r: string)
    ensures '#' !in s && Dash !in s && '*' !in s ==> r == s
  {
    DropTrailingAsterisks(FixDateLines(FixTenure(s)))
  }
}
