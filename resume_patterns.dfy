/**
 * The three regular expressions of `_postprocess_resume_markdown`
 * (parse_hh.py:80-96), each twice: as a scanner that computes the match
 * Python's `re` engine takes at a given position, and as a ghost predicate
 * that reads the pattern item by item with its split points written out.
 * The lemmas show that the scanner finds a match exactly when the pattern
 * matches there, that the capture group always starts at the same place,
 * and that the scanner's match is the longest one.
 *
 * For these three patterns the longest match is the one a backtracking
 * engine takes, because each split is forced by the item that follows it.
 * Most repeated items are followed by an item that cannot start with a
 * character of their own class, so they keep their whole run. Three can
 * give characters back. The first `.*` of `.*месяц.*` backs off to the last
 * "месяц" of the line, which moves neither the group's start nor the end of
 * the match. The `\s*` after the dash backs off as far as `[А-Яа-я\s]+` and
 * the following `\d` require. Pass 3's `\s*` backs off to the last line feed
 * of its run. The scanners take those splits (see `ExperienceAt`, `RangeAt`
 * and `StarAt`), and the completeness lemmas show that no other parse
 * reaches further.
 */
module ResumePatterns {
  import opened Optional
  import opened Text

  const Hashes := "##"
  const ExperienceTitle := "Опыт работы"
  const Month := "месяц"
  const YearStem := "ле"
  const Dash: char := '—'

  /** A match that covers s[p..end] and whose last capture group starts at split. */
  datatype Bounds = Bounds(split: nat, end: nat)

  // ---------------------------------------------------------------------
  // Pass 1: `##\s*Опыт работы\s*(\d+.*месяц.*)`
  // ---------------------------------------------------------------------

  /** s[p..e] matches pass 1's pattern, split as
      `##` s[p+2..i] `Опыт работы` s[i+11..q] ( s[q..k] s[k..m] `месяц` s[m+5..e] ). */
  ghost predicate ExperienceParse(s: string, p: nat, i: nat, q: nat, k: nat, m: nat, e: nat) {
    HasAt(s, p, Hashes) && p + 2 <= i && HasAt(s, i, ExperienceTitle)
    && All(s, p + 2, i, IsSpace)
    && i + |ExperienceTitle| <= q < k <= m && HasAt(s, m, Month) && m + |Month| <= e <= |s|
    && All(s, i + |ExperienceTitle|, q, IsSpace)
    && All(s, q, k, IsDigit) && All(s, k, m, NotNewline) && All(s, m + |Month|, e, NotNewline)
  }

  /** Pass 1's pattern matches s[p..e] with its group s[q..e]. */
  ghost predicate ExperienceMatch(s: string, p: nat, q: nat, e: nat) {
    exists i: nat, k: nat, m: nat :: ExperienceParse(s, p, i, q, k, m, e)
  }

  /** Pass 1's pattern tried at p. Neither `\s*` can give characters back, since
      `О` and a digit are not whitespace, so each takes its whole run; the
      final `.*` runs to the end of the line. */
  function ExperienceAt(s: string, p: nat): (r: Option<Bounds>)
    requires p <= |s|
    ensures r.Some? ==> p < r.value.split < r.value.end <= |s|
    ensures r.Some? ==> IsDigit(s[r.value.split]) && All(s, r.value.split, r.value.end, NotNewline)
    ensures r.Some? ==> r.value.end == |s| || s[r.value.end] == '\n'
    ensures r.Some? ==> s[p] == '#' && Occurs(s, r.value.split, r.value.end, Month)
  {
    if !HasAt(s, p, Hashes) then None
    else
      var i := Span(s, p + 2, IsSpace);
      if !HasAt(s, i, ExperienceTitle) then None
      else
        var q := Span(s, i + |ExperienceTitle|, IsSpace);
        var e := Span(s, q, NotNewline);
        if q < |s| && IsDigit(s[q]) && Occurs(s, q, e, Month) then Some(Bounds(q, e)) else None
  }

  /** What the scanner reports is a match of the pattern. */
  lemma ExperienceAtSound(s: string, p: nat)
    requires p <= |s| && ExperienceAt(s, p).Some?
    ensures ExperienceMatch(s, p, ExperienceAt(s, p).value.split, ExperienceAt(s, p).value.end)
  {
    var i := Span(s, p + 2, IsSpace);
    var q, e := ExperienceAt(s, p).value.split, ExperienceAt(s, p).value.end;
    var m :| q <= m && m + |Month| <= e && HasAt(s, m, Month);
    assert s[m] == Month[0];
    assert ExperienceParse(s, p, i, q, q + 1, m, e);
  }

  /** Every match of the pattern at p is found, its group starts where the
      scanner's does, and it ends no later than the scanner's. */
  lemma ExperienceAtComplete(s: string, p: nat, i: nat, q: nat, k: nat, m: nat, e: nat)
    requires ExperienceParse(s, p, i, q, k, m, e)
    ensures ExperienceAt(s, p).Some?
    ensures ExperienceAt(s, p).value.split == q && e <= ExperienceAt(s, p).value.end
  {
    assert s[i] == ExperienceTitle[0];
    SpanCovers(s, p + 2, i, IsSpace);
    assert IsDigit(s[q]);
    SpanCovers(s, i + |ExperienceTitle|, q, IsSpace);
    assert All(s, q, e, NotNewline) by {
      forall j | q <= j < e ensures NotNewline(s[j]) {
        if j < k {
          assert IsDigit(s[j]);
        } else if j < m {
          assert NotNewline(s[j]);
        } else if j < m + |Month| {
          assert s[j] == Month[j - m];
        } else {
          assert NotNewline(s[j]);
        }
      }
    }
    SpanCovers(s, q, e, NotNewline);
    assert HasAt(s, m, Month);
  }

  // ---------------------------------------------------------------------
  // Pass 2: `([А-Яа-я]+\s*\d{4}\s*—\s*[А-Яа-я\s]+)(\d+\s+лет?\s+\d+\s+месяц.*)`
  // ---------------------------------------------------------------------

  /** s[p..q] matches group 1, split as
      s[p..a] s[a..b] s[b..b+4] s[b+4..c] `—` s[c+1..d] s[d..q]. */
  ghost predicate RangeParse(s: string, p: nat, a: nat, b: nat, c: nat, d: nat, q: nat) {
    p < a <= b && b + 4 <= c && c + 1 <= d < q <= |s|
    && All(s, p, a, IsCyrillic) && All(s, a, b, IsSpace) && All(s, b, b + 4, IsDigit)
    && All(s, b + 4, c, IsSpace) && s[c] == Dash
    && All(s, c + 1, d, IsSpace) && All(s, d, q, IsCyrillicOrSpace)
  }

  /** `\d+\s+лет?` matches s[q..v], split as s[q..r] s[r..t] `ле` s[t+2..v],
      where s[t+2..v] is the optional `т`. */
  ghost predicate YearsParse(s: string, q: nat, r: nat, t: nat, v: nat) {
    q < r < t && HasAt(s, t, YearStem) && t + 2 <= v <= t + 3 && v <= |s|
    && All(s, q, r, IsDigit) && All(s, r, t, IsSpace)
    && (v == t + 3 ==> s[t + 2] == 'т')
  }

  /** `\s+\d+\s+месяц.*` matches s[v..e], split as s[v..w] s[w..x] s[x..y] `месяц` s[y+5..e]. */
  ghost predicate MonthsParse(s: string, v: nat, w: nat, x: nat, y: nat, e: nat) {
    v < w < x < y && HasAt(s, y, Month) && y + |Month| <= e <= |s|
    && All(s, v, w, IsSpace) && All(s, w, x, IsDigit) && All(s, x, y, IsSpace)
    && All(s, y + |Month|, e, NotNewline)
  }

  /** Group 1 matches s[p..q]. */
  ghost predicate RangeMatch(s: string, p: nat, q: nat) {
    exists a: nat, b: nat, c: nat, d: nat :: RangeParse(s, p, a, b, c, d, q)
  }

  ghost predicate YearsMatch(s: string, q: nat, v: nat) {
    exists r: nat, t: nat :: YearsParse(s, q, r, t, v)
  }

  ghost predicate MonthsMatch(s: string, v: nat, e: nat) {
    exists w: nat, x: nat, y: nat :: MonthsParse(s, v, w, x, y, e)
  }

  /** Group 2 matches s[q..e]. */
  ghost predicate DurationMatch(s: string, q: nat, e: nat) {
    exists v: nat :: YearsMatch(s, q, v) && MonthsMatch(s, v, e)
  }

  /** The first items of group 1, `[А-Яа-я]+\s*\d{4}\s*`, tried at p, up to
      the position of the dash that must follow them. `[А-Яа-я]+`, `\s*` and
      `\d{4}\s*` each take their whole run, since what follows cannot start
      with their class. */
  function DashAt(s: string, p: nat): (c: Option<nat>)
    requires p <= |s|
    ensures c.Some? ==> p < c.value < |s| && s[c.value] == Dash && IsCyrillic(s[p])
  {
    var a := Span(s, p, IsCyrillic);
    var b := Span(s, a, IsSpace);
    if a == p || b + 4 > |s| || Span(s, b, IsDigit) < b + 4 then None
    else
      var c := Span(s, b + 4, IsSpace);
      if c == |s| || s[c] != Dash then None else Some(c)
  }

  /** Group 1 tried at p; it must be followed by group 2's first digit. The
      `\s*` after the dash and `[А-Яа-я\s]+` together take the whole run of
      letters and whitespace: giving any of it back would leave a letter or a
      space where `\d` must match. */
  function RangeAt(s: string, p: nat): (q: Option<nat>)
    requires p <= |s|
    ensures q.Some? ==> p < q.value <= |s| && IsCyrillic(s[p])
    ensures q.Some? ==> Dash in s[p..q.value]
  {
    match DashAt(s, p)
    case None => None
    case Some(c) =>
      var q := Span(s, c + 1, IsCyrillicOrSpace);
      if q == c + 1 then None
      else
        assert s[p..q][c - p] == Dash;
        Some(q)
  }

  /** `\d+\s+лет?` tried at q: `\d+` and `\s+` take their whole runs and `т?`
      takes the `т` when there is one (giving it back would leave `т` for the
      `\s+` that follows, which fails). */
  function YearsAt(s: string, q: nat): (v: Option<nat>)
    requires q <= |s|
    ensures v.Some? ==> q < v.value <= |s| && IsDigit(s[q])
    ensures v.Some? ==> Occurs(s, q, v.value, YearStem)
  {
    var r := Span(s, q, IsDigit);
    var t := Span(s, r, IsSpace);
    if r == q || t == r || !HasAt(s, t, YearStem) then None
    else if t + 2 < |s| && s[t + 2] == 'т' then Some(t + 3)
    else Some(t + 2)
  }

  /** `\s+\d+\s+месяц.*` tried at v: each run is taken whole and the final
      `.*` runs to the end of the line. */
  function MonthsAt(s: string, v: nat): (e: Option<nat>)
    requires v <= |s|
    ensures e.Some? ==> v < e.value <= |s| && (e.value == |s| || s[e.value] == '\n')
  {
    var w := Span(s, v, IsSpace);
    var x := Span(s, w, IsDigit);
    var y := Span(s, x, IsSpace);
    if w == v || x == w || y == x || !HasAt(s, y, Month) then None
    else Some(Span(s, y + |Month|, NotNewline))
  }

  /** Group 2 tried at q. */
  function DurationAt(s: string, q: nat): (e: Option<nat>)
    requires q <= |s|
    ensures e.Some? ==> q < e.value <= |s| && IsDigit(s[q])
    ensures e.Some? ==> e.value == |s| || s[e.value] == '\n'
    ensures e.Some? ==> Occurs(s, q, e.value, YearStem)
  {
    match YearsAt(s, q)
    case None => None
    case Some(v) => MonthsAt(s, v)
  }

  /** Pass 2's pattern tried at p: group 1 is s[p..split], group 2 s[split..end]. */
  function DateLineAt(s: string, p: nat): (r: Option<Bounds>)
    requires p <= |s|
    ensures r.Some? ==> p < r.value.split < r.value.end <= |s|
    ensures r.Some? ==> IsCyrillic(s[p]) && IsDigit(s[r.value.split])
    ensures r.Some? ==> r.value.end == |s| || s[r.value.end] == '\n'
    ensures r.Some? ==> Dash in s[p..r.value.split]
    ensures r.Some? ==> Occurs(s, r.value.split, r.value.end, YearStem)
  {
    match RangeAt(s, p)
    case None => None
    case Some(q) =>
      match DurationAt(s, q)
      case None => None
      case Some(e) => Some(Bounds(q, e))
  }

  lemma RangeAtSound(s: string, p: nat)
    requires p <= |s| && RangeAt(s, p).Some?
    ensures RangeMatch(s, p, RangeAt(s, p).value)
  {
    var a := Span(s, p, IsCyrillic);
    var b := Span(s, a, IsSpace);
    var c := Span(s, b + 4, IsSpace);
    var q := Span(s, c + 1, IsCyrillicOrSpace);
    assert DashAt(s, p) == Some(c);
    assert RangeAt(s, p) == Some(q);
    assert All(s, b, b + 4, IsDigit);
    assert RangeParse(s, p, a, b, c, c + 1, q);
  }

  lemma DashAtComplete(s: string, p: nat, a: nat, b: nat, c: nat)
    requires p < a <= b && b + 4 <= c < |s| && s[c] == Dash
    requires All(s, p, a, IsCyrillic) && All(s, a, b, IsSpace) && All(s, b, b + 4, IsDigit)
    requires All(s, b + 4, c, IsSpace)
    ensures DashAt(s, p) == Some(c)
  {
    assert Span(s, p, IsCyrillic) == a by {
      if a < b { assert IsSpace(s[a]); } else { assert IsDigit(s[b]); }
      SpanCovers(s, p, a, IsCyrillic);
    }
    assert Span(s, a, IsSpace) == b by {
      assert IsDigit(s[b]);
      SpanCovers(s, a, b, IsSpace);
    }
    SpanCovers(s, b, b + 4, IsDigit);
    assert !IsSpace(s[c]);
    SpanCovers(s, b + 4, c, IsSpace);
    assert Span(s, b + 4, IsSpace) == c;
  }

  lemma RangeAtComplete(s: string, p: nat, a: nat, b: nat, c: nat, d: nat, q: nat)
    requires RangeParse(s, p, a, b, c, d, q) && q < |s| && IsDigit(s[q])
    ensures RangeAt(s, p) == Some(q)
  {
    DashAtComplete(s, p, a, b, c);
    assert All(s, c + 1, q, IsCyrillicOrSpace) by {
      forall k | c + 1 <= k < q ensures IsCyrillicOrSpace(s[k]) {
        if k < d { assert IsSpace(s[k]); } else { assert IsCyrillicOrSpace(s[k]); }
      }
    }
    SpanCovers(s, c + 1, q, IsCyrillicOrSpace);
  }

  lemma YearsAtSound(s: string, q: nat)
    requires q <= |s| && YearsAt(s, q).Some?
    ensures YearsMatch(s, q, YearsAt(s, q).value)
  {
    var r := Span(s, q, IsDigit);
    var t := Span(s, r, IsSpace);
    assert YearsParse(s, q, r, t, YearsAt(s, q).value);
  }

  /** A match of `\d+\s+лет?` that the `\s+` after it can follow is found. */
  lemma YearsAtComplete(s: string, q: nat, r: nat, t: nat, v: nat)
    requires YearsParse(s, q, r, t, v) && v < |s| && IsSpace(s[v])
    ensures YearsAt(s, q) == Some(v)
  {
    assert s[t] == YearStem[0];
    SpanCovers(s, q, r, IsDigit);
    SpanCovers(s, r, t, IsSpace);
  }

  lemma MonthsAtSound(s: string, v: nat)
    requires v <= |s| && MonthsAt(s, v).Some?
    ensures MonthsMatch(s, v, MonthsAt(s, v).value)
  {
    var w := Span(s, v, IsSpace);
    var x := Span(s, w, IsDigit);
    var y := Span(s, x, IsSpace);
    assert MonthsParse(s, v, w, x, y, MonthsAt(s, v).value);
  }

  lemma MonthsAtComplete(s: string, v: nat, w: nat, x: nat, y: nat, e: nat)
    requires MonthsParse(s, v, w, x, y, e)
    ensures MonthsAt(s, v).Some? && e <= MonthsAt(s, v).value
    ensures e == |s| || s[e] == '\n' ==> MonthsAt(s, v).value == e
  {
    assert s[y] == Month[0];
    SpanCovers(s, v, w, IsSpace);
    SpanCovers(s, w, x, IsDigit);
    SpanCovers(s, x, y, IsSpace);
    SpanCovers(s, y + |Month|, e, NotNewline);
  }

  /** What the scanner reports is a match of the pattern, group 1 being
      s[p..split] and group 2 s[split..end]. */
  lemma DateLineAtSound(s: string, p: nat)
    requires p <= |s| && DateLineAt(s, p).Some?
    ensures RangeMatch(s, p, DateLineAt(s, p).value.split)
    ensures DurationMatch(s, DateLineAt(s, p).value.split, DateLineAt(s, p).value.end)
  {
    var q := RangeAt(s, p).value;
    var v := YearsAt(s, q).value;
    RangeAtSound(s, p);
    YearsAtSound(s, q);
    MonthsAtSound(s, v);
  }

  /** Every match of the pattern at p is found, its group 2 starts where the
      scanner's does, and it ends no later than the scanner's: at the same
      place when it ends at a line feed or at the end of the text. */
  lemma DateLineAtComplete(s: string, p: nat, q: nat, e: nat)
    requires RangeMatch(s, p, q) && DurationMatch(s, q, e)
    ensures DateLineAt(s, p).Some?
    ensures DateLineAt(s, p).value.split == q && e <= DateLineAt(s, p).value.end
    ensures e == |s| || s[e] == '\n' ==> DateLineAt(s, p).value.end == e
  {
    var a: nat, b: nat, c: nat, d: nat :| RangeParse(s, p, a, b, c, d, q);
    var v: nat :| YearsMatch(s, q, v) && MonthsMatch(s, v, e);
    var r: nat, t: nat :| YearsParse(s, q, r, t, v);
    var w: nat, x: nat, y: nat :| MonthsParse(s, v, w, x, y, e);
    assert IsDigit(s[q]) && IsSpace(s[v]);
    RangeAtComplete(s, p, a, b, c, d, q);
    YearsAtComplete(s, q, r, t, v);
    MonthsAtComplete(s, v, w, x, y, e);
    assert DurationAt(s, q) == MonthsAt(s, v);
    assert DateLineAt(s, p) == Some(Bounds(q, MonthsAt(s, v).value));
  }

  // ---------------------------------------------------------------------
  // Pass 3: `\*\s*\n`
  // ---------------------------------------------------------------------

  /** s[p..e] matches pass 3's pattern: an asterisk, whitespace, a line feed. */
  ghost predicate StarMatch(s: string, p: nat, e: nat) {
    p + 2 <= e <= |s| && s[p] == '*' && All(s, p + 1, e - 1, IsSpace) && s[e - 1] == '\n'
  }

  /** One past the last line feed in s[lo..hi], if there is one. */
  function LastNewline(s: string, lo: nat, hi: nat): (r: Option<nat>)
    requires lo <= hi <= |s|
    ensures r.Some? ==> lo < r.value <= hi && s[r.value - 1] == '\n' && All(s, r.value, hi, NotNewline)
    ensures r.None? ==> All(s, lo, hi, NotNewline)
    decreases hi
  {
    if hi == lo then None
    else if s[hi - 1] == '\n' then Some(hi)
    else LastNewline(s, lo, hi - 1)
  }

  /** Pass 3's pattern tried at p: `\s*` takes the whole whitespace run after
      the asterisk and gives characters back until a line feed follows, so the
      match ends just after the run's last line feed. */
  function StarAt(s: string, p: nat): (r: Option<nat>)
    requires p <= |s|
    ensures r.Some? ==> StarMatch(s, p, r.value)
  {
    if p < |s| && s[p] == '*' then LastNewline(s, p + 1, Span(s, p + 1, IsSpace)) else None
  }

  /** Every match of pass 3's pattern at p is found and ends no later than the scanner's. */
  lemma StarAtComplete(s: string, p: nat, e: nat)
    requires StarMatch(s, p, e)
    ensures StarAt(s, p).Some? && e <= StarAt(s, p).value
  {
    SpanCovers(s, p + 1, e, IsSpace);
    assert !NotNewline(s[e - 1]);
  }

  /** A match of pass 3's pattern followed by no more whitespace is exactly
      the scanner's. */
  lemma StarAtExact(s: string, p: nat, e: nat)
    requires StarMatch(s, p, e) && (e == |s| || !IsSpace(s[e]))
    ensures StarAt(s, p) == Some(e)
  {
    StarAtComplete(s, p, e);
  }
}
