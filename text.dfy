/**
 * The pieces of Python's `str` and `re` that the hh.ru parser relies on:
 * the character classes of its regular expressions, the greedy scan a
 * repeated class performs, `str.startswith`, `str.strip`, `str.lower`
 * and the `in` test on strings.
 */
module Text {

  /** `\s` in a `str` pattern, which is `str.isspace()`: the ASCII controls
      TAB..CR, the separators U+001C..U+001F, space, NEL, NBSP and the
      Unicode space separators and line/paragraph separators. */
  predicate IsSpace(c: char) {
    c == ' ' || ('\t' <= c <= '\r') || ('\U{1C}' <= c <= '\U{1F}')
    || c == '\U{85}' || c == '\U{A0}' || c == '\U{1680}'
    || ('\U{2000}' <= c <= '\U{200A}') || c == '\U{2028}' || c == '\U{2029}'
    || c == '\U{202F}' || c == '\U{205F}' || c == '\U{3000}'
  }

  /** `\d`, restricted to the ASCII digits. */
  predicate IsDigit(c: char) {
    '0' <= c <= '9'
  }

  /** The class `[А-Яа-я]`: U+0410..U+042F and U+0430..U+044F, so neither Ё nor ё. */
  predicate IsCyrillic(c: char) {
    ('А' <= c <= 'Я') || ('а' <= c <= 'я')
  }

  /** The class `[А-Яа-я\s]`. */
  predicate IsCyrillicOrSpace(c: char) {
    IsCyrillic(c) || IsSpace(c)
  }

  /** `.` without DOTALL: anything but a line feed. */
  predicate NotNewline(c: char) {
    c != '\n'
  }

  /** Every character of s[i..j] is in the class P. */
  ghost predicate All(s: string, i: nat, j: nat, P: char -> bool)
    requires i <= j <= |s|
  {
    forall k {:trigger P(s[k])} | i <= k < j :: P(s[k])
  }

  /** Where a greedy `P*` started at i stops: the end of the longest run of
      P-characters that begins at i. */
  function Span(s: string, i: nat, P: char -> bool): (j: nat)
    requires i <= |s|
    ensures i <= j <= |s| && All(s, i, j, P)
    ensures j == |s| || !P(s[j])
    decreases |s| - i
  {
    if i < |s| && P(s[i]) then Span(s, i + 1, P) else i
  }

  /** A run of P-characters never reaches past where the greedy scan stops,
      and a run that is followed by a non-P character is exactly the scan. */
  lemma SpanCovers(s: string, i: nat, j: nat, P: char -> bool)
    requires i <= j <= |s| && All(s, i, j, P)
    ensures j <= Span(s, i, P)
    ensures j < |s| && !P(s[j]) ==> Span(s, i, P) == j
  {
  }

  /** w occurs in s at position i. */
  predicate HasAt(s: string, i: nat, w: string) {
    i + |w| <= |s| && s[i..i + |w|] == w
  }

  /** `str.startswith`. */
  predicate StartsWith(s: string, w: string) {
    HasAt(s, 0, w)
  }

  /** s cut at i, j and k and put back together. */
  lemma FourParts(s: string, i: nat, j: nat, k: nat)
    requires i <= j <= k <= |s|
    ensures s == s[..i] + s[i..j] + s[j..k] + s[k..]
  {
    assert s[..i] + s[i..j] == s[..j];
    assert s[..j] + s[j..k] == s[..k];
  }

  /** s starts with w exactly when it is w followed by something. */
  lemma StartsWithSplit(s: string, w: string)
    ensures StartsWith(s, w) <==> exists rest :: s == w + rest
  {
    if StartsWith(s, w) {
      assert s == w + s[|w|..];
    }
    forall rest | s == w + rest
      ensures StartsWith(s, w)
    {
      assert s[..|w|] == w;
    }
  }

  /** Matching w at p is matching its first character, then the rest after it. */
  lemma HasAtStep(s: string, p: nat, w: string)
    requires w != [] && p < |s|
    ensures HasAt(s, p, w) <==> s[p] == w[0] && HasAt(s, p + 1, w[1..])
  {
    if s[p] == w[0] && HasAt(s, p + 1, w[1..]) {
      assert s[p..p + |w|] == [s[p]] + s[p + 1..p + 1 + |w[1..]|];
    }
  }

  /** w starts c + x exactly when it is empty, or starts with c and the rest starts x. */
  lemma StartsWithCons(c: char, x: string, w: string)
    requires w != []
    ensures StartsWith([c] + x, w) <==> c == w[0] && StartsWith(x, w[1..])
  {
    HasAtStep([c] + x, 0, w);
    assert ([c] + x)[1..] == x;
    if HasAt([c] + x, 1, w[1..]) {
      assert ([c] + x)[1..1 + |w[1..]|] == x[0..|w[1..]|];
    }
    if HasAt(x, 0, w[1..]) {
      assert ([c] + x)[1..1 + |w[1..]|] == x[0..|w[1..]|];
    }
  }

  /** s[p..p2] followed by a rest is s[p] followed by s[p + 1..p2] and the rest. */
  lemma SliceCons(s: string, p: nat, p2: nat, rest: string)
    requires p < p2 <= |s|
    ensures [s[p]] + (s[p + 1..p2] + rest) == s[p..p2] + rest
  {
    assert s[p..p2] == [s[p]] + s[p + 1..p2];
  }

  /** The two halves of x + y, and y with nothing after it. */
  lemma ConcatSlices(x: string, y: string)
    ensures (x + y)[0..|x|] == x && (x + y)[|x|..|x + y|] == y && y + [] == y
  {
  }

  /** A text cut at lo and hi, with rep in place of s[lo..hi]. */
  lemma SpliceSlices(s: string, lo: nat, hi: nat, rep: string, tail: string)
    requires lo <= hi <= |s|
    ensures s[lo..hi] + (rep + tail) == s[lo..hi] + rep + tail
    ensures s[hi..|s|] + [] == s[hi..]
  {
  }

  /** An occurrence in y is one in x + y, |x| further on. */
  lemma HasAtShift(x: string, y: string, m: nat, w: string)
    requires HasAt(y, m, w)
    ensures HasAt(x + y, |x| + m, w)
  {
    assert (x + y)[|x| + m..|x| + m + |w|] == y[m..m + |w|];
  }

  /** w occurs somewhere inside s[lo..hi]. */
  function Occurs(s: string, lo: nat, hi: nat, w: string): (b: bool)
    requires lo <= hi <= |s|
    ensures b <==> exists m | lo <= m && m + |w| <= hi :: HasAt(s, m, w)
    decreases hi - lo
  {
    lo + |w| <= hi && (HasAt(s, lo, w) || Occurs(s, lo + 1, hi, w))
  }

  /** Python's `w in s` on strings. */
  predicate Contains(s: string, w: string) {
    Occurs(s, 0, |s|, w)
  }

  /** The end of s[a..j] once its trailing whitespace is cut off. */
  function TrimEnd(s: string, a: nat, j: nat): (b: nat)
    requires a <= j <= |s|
    ensures a <= b <= j && All(s, b, j, IsSpace)
    ensures b == a || !IsSpace(s[b - 1])
    decreases j
  {
    if a < j && IsSpace(s[j - 1]) then TrimEnd(s, a, j - 1) else j
  }

  /** `str.strip()`: s without its leading and trailing whitespace. */
  function Strip(s: string): (r: string)
    ensures exists a, b | 0 <= a <= b <= |s| ::
      r == s[a..b] && All(s, 0, a, IsSpace) && All(s, b, |s|, IsSpace)
    ensures r == [] || (!IsSpace(r[0]) && !IsSpace(r[|r| - 1]))
  {
    var a := Span(s, 0, IsSpace);
    var b := TrimEnd(s, a, |s|);
    assert All(s, 0, a, IsSpace) && All(s, b, |s|, IsSpace);
    s[a..b]
  }

  /** Cutting trailing whitespace stops at the last non-whitespace character. */
  lemma {:induction false} TrimEndStops(s: string, a: nat, b: nat, j: nat)
    requires a < b <= j <= |s| && All(s, b, j, IsSpace) && !IsSpace(s[b - 1])
    ensures TrimEnd(s, a, j) == b
    decreases j
  {
    if b < j {
      assert IsSpace(s[j - 1]);
      TrimEndStops(s, a, b, j - 1);
    }
  }

  /** `str.strip()` of a text whose non-whitespace part is s[a..b] is s[a..b]. */
  lemma StripExact(s: string, a: nat, b: nat)
    requires a < b <= |s| && All(s, 0, a, IsSpace) && All(s, b, |s|, IsSpace)
    requires !IsSpace(s[a]) && !IsSpace(s[b - 1])
    ensures Strip(s) == s[a..b]
  {
    SpanCovers(s, 0, a, IsSpace);
    TrimEndStops(s, a, b, |s|);
  }

  /** `str.strip()` only removes characters: whatever is in the result is in s. */
  lemma StripWithin(s: string, c: char)
    requires c !in s
    ensures c !in Strip(s)
  {
    var a := Span(s, 0, IsSpace);
    var b := TrimEnd(s, a, |s|);
    assert Strip(s) == s[a..b];
    assert forall k | 0 <= k < b - a :: s[a..b][k] == s[a + k];
  }

  /** t is s with its outer whitespace cut off and nothing else: s[a..b],
      whitespace all around it, and no whitespace at its own ends. */
  ghost predicate IsStrippedOf(t: string, s: string) {
    (t == [] || (!IsSpace(t[0]) && !IsSpace(t[|t| - 1])))
    && exists a, b | 0 <= a <= b <= |s| ::
      t == s[a..b] && All(s, 0, a, IsSpace) && All(s, b, |s|, IsSpace)
  }

  /** `str.strip()` cuts off the outer whitespace, and that determines it. */
  lemma StrippedIsStrip(t: string, s: string)
    ensures IsStrippedOf(t, s) <==> t == Strip(s)
  {
    if IsStrippedOf(t, s) {
      var a, b :| 0 <= a <= b <= |s| && t == s[a..b] && All(s, 0, a, IsSpace) && All(s, b, |s|, IsSpace);
      if a == b {
        StripAllSpace(s, a);
      } else {
        assert s[a] == t[0] && s[b - 1] == t[|t| - 1];
        StripExact(s, a, b);
      }
    }
  }

  /** A text of whitespace only, cut anywhere, strips to nothing. */
  lemma StripAllSpace(s: string, a: nat)
    requires a <= |s| && All(s, 0, a, IsSpace) && All(s, a, |s|, IsSpace)
    ensures Strip(s) == []
  {
    forall k | 0 <= k < |s| ensures IsSpace(s[k]) {
      if k < a { assert All(s, 0, a, IsSpace); } else { assert All(s, a, |s|, IsSpace); }
    }
    assert All(s, 0, |s|, IsSpace);
  }

  /** The capitals `str.lower()` is modelled for: A..Z and Ѐ..Я. */
  predicate IsCapital(c: char) {
    'A' <= c <= 'Z' || 'Ѐ' <= c <= 'Я'
  }

  /** c is the small letter l, or l's capital. */
  predicate UpToCase(c: char, l: char) {
    c == l
    || (('a' <= l <= 'z' || 'а' <= l <= 'я') && c as int == l as int - 32)
    || ('ѐ' <= l <= 'џ' && c as int == l as int - 80)
  }

  /** `str.lower()` on one character, for the Latin and Cyrillic capitals
      (A..Z, А..Я and Ѐ..Џ); every other character is left as it is. */
  function LowerChar(c: char): (l: char)
    ensures !IsCapital(l) && UpToCase(c, l)
    ensures !IsCapital(c) ==> l == c
    ensures IsCyrillic(c) ==> IsCyrillic(l) && 'а' <= l
  {
    if 'A' <= c <= 'Z' || 'А' <= c <= 'Я' then (c as int + 32) as char
    else if 'Ѐ' <= c <= 'Џ' then (c as int + 80) as char
    else c
  }

  /** `str.lower()`, character by character: no capital is left, each
      character is its input's small letter, and the rest is kept. */
  function Lower(s: string): (r: string)
    ensures |r| == |s|
    ensures forall k | 0 <= k < |s| :: !IsCapital(r[k]) && UpToCase(s[k], r[k])
    ensures forall k | 0 <= k < |s| :: !IsCapital(s[k]) ==> r[k] == s[k]
  {
    seq(|s|, k requires 0 <= k < |s| => LowerChar(s[k]))
  }

  /** Lower-casing twice is lower-casing once. */
  lemma LowerIdempotent(s: string)
    ensures Lower(Lower(s)) == Lower(s)
  {
    var r := Lower(s);
    assert forall k | 0 <= k < |r| :: Lower(r)[k] == r[k];
  }

  /** A character that is a small letter or its capital lowers to that letter. */
  lemma UpToCaseLowers(c: char, l: char)
    requires !IsCapital(l) && UpToCase(c, l)
    ensures LowerChar(c) == l
  {
  }

  /** w, free of capitals, is in s at m up to case. */
  predicate HasAtUpToCase(s: string, m: nat, w: string) {
    m + |w| <= |s| && forall j | 0 <= j < |w| :: UpToCase(s[m + j], w[j])
  }

  /** Finding a word free of capitals in the lower-cased text is finding it
      in the text up to case. */
  lemma LowerFinds(s: string, m: nat, w: string)
    requires forall j | 0 <= j < |w| :: !IsCapital(w[j])
    ensures HasAt(Lower(s), m, w) <==> HasAtUpToCase(s, m, w)
  {
    if m + |w| <= |s| {
      var r := Lower(s);
      forall j | 0 <= j < |w|
        ensures r[m + j] == w[j] <==> UpToCase(s[m + j], w[j])
      {
        if UpToCase(s[m + j], w[j]) {
          UpToCaseLowers(s[m + j], w[j]);
        }
      }
      var piece := r[m..m + |w|];
      assert forall j | 0 <= j < |w| :: piece[j] == r[m + j];
    }
  }

  /** `w in s.lower()` is w occurring in s up to case. */
  lemma ContainsUpToCase(s: string, w: string)
    requires forall j | 0 <= j < |w| :: !IsCapital(w[j])
    ensures Contains(Lower(s), w) <==> exists m: nat :: HasAtUpToCase(s, m, w)
  {
    forall m: nat
      ensures HasAt(Lower(s), m, w) <==> HasAtUpToCase(s, m, w)
    {
      LowerFinds(s, m, w);
    }
  }
}
