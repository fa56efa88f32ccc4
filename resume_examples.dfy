/**
 * What `_postprocess_resume_markdown` (parse_hh.py:76-97) does to the lines
 * it was written for, and what it does to lines it was not.
 */
module ResumeExamples {
  import opened Text
  import opened ResumePatterns
  import opened ResumeMarkdown
  import opened Optional

  /** A total tenure under the "Опыт работы" heading gets a line of its own:
      for every group g that starts with a digit, mentions "месяц" and stays
      on one line, the whole post-processing turns "## Опыт работы g" into the
      heading, a blank line and "**Общий стаж:** g". */
  lemma TenureHeadingSplit(g: string)
    requires g != [] && IsDigit(g[0]) && Contains(g, Month)
    requires '\n' !in g && Dash !in g
    ensures Postprocess("## Опыт работы " + g) == "## Опыт работы\n\n**Общий стаж:** " + g
  {
    TenureLineFixed(g);
    HeadingParts(g);
    var t := "## Опыт работы\n\n**Общий стаж:** " + g;
    assert FixDateLines(t) == t;
    StarPassKeeps("## Опыт работы\n\n", "**Общий стаж:** " + g);
  }

  /** Pass 1 on the tenure line alone. */
  lemma TenureLineFixed(g: string)
    requires g != [] && IsDigit(g[0]) && Contains(g, Month) && '\n' !in g
    ensures FixTenure("## Опыт работы " + g) == "## Опыт работы\n\n**Общий стаж:** " + g
  {
    var s := "## Опыт работы " + g;
    TenureLineMatches(g);
    TenureWholeLine(s, 15);
    assert s[15..] == g;
  }

  /** Pass 1's pattern matches the whole of "## Опыт работы g", its group being g. */
  lemma TenureLineMatches(g: string)
    requires g != [] && IsDigit(g[0]) && Contains(g, Month) && '\n' !in g
    ensures ExperienceMatch("## Опыт работы " + g, 0, 15, 15 + |g|)
  {
    var h := "## Опыт работы ";
    var s := h + g;
    var m: nat :| m + |Month| <= |g| && HasAt(g, m, Month);
    assert m != 0 by { assert g[m] == Month[0]; }
    HasAtShift(h, g, m, Month);
    HeadingPrefix(g);
    assert forall j | 15 <= j < |s| :: s[j] == g[j - 15];
    assert All(s, 15, |s|, NotNewline);
    assert ExperienceParse(s, 0, 3, 15, 16, 15 + m, |s|);
  }

  /** The characters of "## Опыт работы " that pass 1's pattern reads. */
  lemma HeadingPrefix(g: string)
    ensures var s := "## Опыт работы " + g;
      HasAt(s, 0, Hashes) && IsSpace(s[2]) && HasAt(s, 3, ExperienceTitle) && IsSpace(s[14])
  {
    var h := "## Опыт работы ";
    assert h[0..2] == Hashes && h[3..14] == ExperienceTitle;
    ConcatSlices(h, g);
    assert (h + g)[0..2] == h[0..2] && (h + g)[3..14] == h[3..14];
  }

  /** The pieces of the rewritten heading: no em dash anywhere, no asterisk
      before its last line feed. */
  lemma HeadingParts(g: string)
    requires '\n' !in g && Dash !in g
    ensures var a, b := "## Опыт работы\n\n", "**Общий стаж:** " + g;
      "## Опыт работы\n\n**Общий стаж:** " + g == a + b
      && Dash !in a + b && '*' !in a && '\n' !in b
  {
    var a, b := "## Опыт работы\n\n", "**Общий стаж:** ";
    assert Dash !in a && Dash !in b && '\n' !in b;
    assert a + b == "## Опыт работы\n\n**Общий стаж:** ";
    assert a + (b + g) == (a + b) + g;
  }

  /** A date range followed by its duration, alone on a line with no `#`,
      becomes the stripped range in bold, " — " and the stripped duration. */
  lemma DateLineSplit(r: string, g: string)
    requires RangeMatch(r + g, 0, |r|) && DurationMatch(r + g, |r|, |r + g|)
    requires '\n' !in r + g && '#' !in r + g
    ensures Postprocess(r + g) == "**" + Strip(r) + "** — " + Strip(g)
  {
    assert FixTenure(r + g) == r + g;
    DateLineFixed(r, g);
    StrippedLine(r, g);
    StarPassKeepsLine("**" + Strip(r) + "** — " + Strip(g));
  }

  /** A range with only whitespace after the dash, such as "Январь 2020 — ",
      is still group 1: `\s*` after the dash gives its last whitespace
      character back to `[А-Яа-я\s]+`. Stripped, it keeps the dash, so such
      a line becomes "**Январь 2020 —** — " followed by the duration. */
  lemma OpenRangeBold(s: string, p: nat, a: nat, b: nat, c: nat, q: nat)
    requires p < a <= b && b + 4 <= c && c + 1 < q <= |s|
    requires All(s, p, a, IsCyrillic) && All(s, a, b, IsSpace) && All(s, b, b + 4, IsDigit)
    requires All(s, b + 4, c, IsSpace) && s[c] == Dash && All(s, c + 1, q, IsSpace)
    ensures RangeMatch(s, p, q)
    ensures Strip(s[p..q]) == s[p..c + 1] && Strip(s[p..q])[c - p] == Dash
  {
    assert RangeParse(s, p, a, b, c, q - 1, q);
    var r := s[p..q];
    assert All(r, c + 1 - p, |r|, IsSpace) by {
      forall k | c + 1 - p <= k < |r| ensures IsSpace(r[k]) {
        assert r[k] == s[p + k];
      }
    }
    assert IsCyrillic(s[p]) && !IsSpace(Dash);
    assert r[0] == s[p] && r[c - p] == s[c];
    StripExact(r, 0, c + 1 - p);
    assert r[0..c + 1 - p] == s[p..c + 1];
  }

  /** Pass 2 on a line that its pattern matches whole. */
  lemma DateLineFixed(r: string, g: string)
    requires RangeMatch(r + g, 0, |r|) && DurationMatch(r + g, |r|, |r + g|)
    requires '\n' !in r + g
    ensures FixDateLines(r + g) == "**" + Strip(r) + "** — " + Strip(g)
  {
    var s := r + g;
    DateLineRewrite(s, 0, |r|, |s|);
    ConcatSlices(r, g);
    ConcatSlices([], DateLineReplacement(r, g));
  }

  /** Stripping adds no line feed. */
  lemma StrippedLine(r: string, g: string)
    requires '\n' !in r + g
    ensures '\n' !in "**" + Strip(r) + "** — " + Strip(g)
  {
    assert '\n' !in r && '\n' !in g;
    StripWithin(r, '\n');
    StripWithin(g, '\n');
  }

  /** `\d+\s+` must be followed by "ле": a number followed by whitespace and a
      character other than "л" (the next number, or the "г" of "год") cannot
      open the duration. So when the first number after the dash is an end
      year, or the count is in "год", pass 2 finds no match where the range
      starts. */
  lemma EndYearBlocksDateLine(s: string, p: nat, q: nat, r: nat, t: nat)
    requires RangeMatch(s, p, q)
    requires q < r < t < |s| && All(s, q, r, IsDigit) && All(s, r, t, IsSpace)
    requires !IsSpace(s[t]) && s[t] != YearStem[0]
    ensures DateLineAt(s, p).None?
  {
    var a: nat, b: nat, c: nat, d: nat :| RangeParse(s, p, a, b, c, d, q);
    assert IsDigit(s[q]);
    RangeAtComplete(s, p, a, b, c, d, q);
    assert IsSpace(s[r]);
    SpanCovers(s, q, r, IsDigit);
    SpanCovers(s, r, t, IsSpace);
    assert YearsAt(s, q).None?;
  }

  /** Pass 3 breaks bold text that ends a line: the closing "**" followed by a
      line feed loses one asterisk, since `\*\s*\n` matches the second one. */
  lemma BoldAtLineEnd(x: string)
    requires '*' !in x && '\n' !in x
    ensures DropTrailingAsterisks("**" + x + "**\n") == "**" + x + "*\n"
  {
    var s := "**" + x + "**\n";
    var n := |x| + 3;
    assert |s| == n + 2 && s[n] == '*' && s[n + 1] == '\n' && s[n - 1] == '*';
    assert forall j | 2 <= j < n - 1 :: s[j] == x[j - 2];
    assert forall j | 0 <= j < n + 1 :: s[j] != '\n';
    assert !IsSpace(s[n]);
    assert forall k | 0 <= k < n :: MatchAt(TrailingStar, s, k).None?;
    SubCopies(TrailingStar, s, 0, n);
    StarRewrite(s, n, n + 2);
    assert s[0..n] == "**" + x + "*";
  }

  /** Pass 3 on "**\n" leaves "*\n", which a second pass turns into "\n":
      the pass is not idempotent. */
  lemma StarPassNotIdempotent()
    ensures DropTrailingAsterisks("**\n") == "*\n"
    ensures DropTrailingAsterisks("*\n") == "\n"
    ensures DropTrailingAsterisks(DropTrailingAsterisks("**\n")) != DropTrailingAsterisks("**\n")
  {
    var s := "**\n";
    assert StarMatch(s, 1, 3) && !IsSpace(s[1]);
    StarAtExact(s, 1, 3);
    SubSplice(TrailingStar, s, 1, Hit(3, "\n"));
    assert s[..1] + "\n" + s[3..] == "*\n";
    BlankLinesSwallowed([], "\n", []);
    assert [] + "*" + "\n" + [] == "*\n" && [] + "\n" + [] == "\n";
  }

  /** The whitespace `\s*` takes may hold line feeds: an asterisk at the end
      of a line takes the blank lines after it along, leaving one line feed. */
  lemma BlankLinesSwallowed(a: string, lines: string, b: string)
    requires '*' !in a && '*' !in b && (b == [] || !IsSpace(b[0]))
    requires lines != [] && forall c | c in lines :: c == '\n'
    ensures DropTrailingAsterisks(a + "*" + lines + b) == a + "\n" + b
  {
    var m := "*" + lines;
    var s := a + m + b;
    assert a + "*" + lines + b == s;
    StarRunMatches(a, lines, b);
    SubSplice(TrailingStar, s, |a|, Hit(|a| + |m|, "\n"));
    ThreeParts(a, m, b);
  }

  /** In a + "*" + lines + b, pass 3 matches only at the asterisk, and that
      match runs to the end of the blank lines. */
  lemma StarRunMatches(a: string, lines: string, b: string)
    requires '*' !in a && '*' !in b && (b == [] || !IsSpace(b[0]))
    requires lines != [] && forall c | c in lines :: c == '\n'
    ensures var s, e := a + ("*" + lines) + b, |a| + 1 + |lines|;
      |a| < |s| && MatchAt(TrailingStar, s, |a|) == Some(Hit(e, "\n"))
      && (forall k | 0 <= k < |a| :: MatchAt(TrailingStar, s, k).None?)
      && (forall k | e <= k < |s| :: MatchAt(TrailingStar, s, k).None?)
  {
    var s := a + ("*" + lines) + b;
    var e := |a| + 1 + |lines|;
    assert forall j | 0 <= j < |a| :: s[j] == a[j] && a[j] in a;
    assert forall j | e <= j < |s| :: s[j] == b[j - e] && b[j - e] in b;
    assert forall j | |a| < j < e :: s[j] == lines[j - |a| - 1] && lines[j - |a| - 1] in lines;
    assert StarMatch(s, |a|, e);
    StarAtExact(s, |a|, e);
  }

  /** The outer parts of a + m + b. */
  lemma ThreeParts(a: string, m: string, b: string)
    ensures (a + m + b)[..|a|] == a && (a + m + b)[|a| + |m|..] == b
  {
  }
}
