# hh.ru page parser: result logic and résumé Markdown fix-up

This project models the self-contained logic of `parse_hh.py`, the module
that turns an hh.ru vacancy or résumé page into Markdown text for the
caller. Two parts are modelled:

- **`_postprocess_resume_markdown`** (parse_hh.py:76-97). It rewrites the
  résumé's Markdown with three `re.sub` passes, in a fixed order.
  - Pass 1 puts the total tenure under "Опыт работы" on a line of its own.
  - Pass 2 puts a date range in bold and separates it from its duration.
  - Pass 3 replaces an asterisk, together with the whole whitespace run after
    it up to that run's last line feed, with one line feed. Blank lines that
    follow the asterisk go with it.

  Each pattern is modelled by a scanner over `seq<char>`. The scanner
  (`ResumePatterns.ExperienceAt`, `DateLineAt`, `StarAt`) gives the match
  that Python's backtracking engine settles on at a position. Each scanner is
  proved against a declarative reading of its regular expression, with
  explicit split points (`ExperienceParse`, `RangeParse`, `YearsParse`,
  `MonthsParse`, `StarMatch`). There is a soundness lemma and a completeness
  lemma for each.

  `re.sub` itself is `ResumeMarkdown.Rewrite`: one left-to-right scan over
  a table of the match at every position. Where a match starts, its
  replacement goes in and the scan resumes after the match; elsewhere one
  character is copied. The output is never rescanned.

  The character classes follow Python's `re` on `str`:
  - `\s` is the exact `str.isspace` set;
  - `.` excludes only the line feed;
  - `[А-Яа-я]` is U+0410..U+044F, so "ё" is not in it.
- **`parse_vacancy` and `parse_resume`** (parse_hh.py:99-162). Each is a
  chain of early returns over the URL, the fetched page and the parsed
  document:
  - the URL prefix guard;
  - the failed-fetch guard;
  - the restricted-access notice (résumé only), which is checked before
    anything else in the document;
  - the four locators tried in order (résumé), or the one locator (vacancy);
  - the empty-result guard (résumé only);
  - the `except` branch.

  The fetch result is an `Option<string>` parameter. What BeautifulSoup and
  markdownify answer about a page is a `HhParser.Document` of uninterpreted
  functions. The `try` block's outcome on a page is an `Attempt`: it either
  raises with a message or completes on a document.

The caller (app.py:64 and app.py:68) decides failure by testing whether the
text starts with "Ошибка:". That test is `HhParser.IsError`.

Two behaviours of the code are worth knowing.

- **Crash messages pass the caller's test.** The messages returned from the
  two `except` branches (parse_hh.py:119 and parse_hh.py:162) start with
  "Ошибка при", not "Ошибка:". The caller therefore takes them for page
  text (`HhParser.CrashReportsPassAsText`).
- **A range ending in a year is not rewritten.** A line such as
  "Январь 2020 — Март 2021 1 год 2 месяца" is left unchanged by pass 2, for
  two reasons. `[А-Яа-я\s]+` cannot take the end year's digits. And
  `\d+\s+лет?` needs "ле" where that line has "2021 1" or "год".
  `ResumeExamples.EndYearBlocksDateLine` shows that no match starts at such
  a range. The part after the dash is letters and whitespace, such as
  "по настоящее время", and may be whitespace only. In "Январь 2020 — 5 лет
  3 месяца", `\s*` after the dash gives its space back to `[А-Яа-я\s]+`, so
  that line becomes "**Январь 2020 —** — 5 лет 3 месяца", the dash inside the
  bold part (`ResumeExamples.OpenRangeBold`). Either way a range is put in
  bold only when a duration counted in "лет" follows it.

## Model

| member | source | states |
|---|---|---|
| Text.Strip | parse_hh.py:87-88 | `str.strip()`: the result is a contiguous piece of the input, all whitespace outside it, and the result neither starts nor ends with whitespace |
| Text.StripExact | parse_hh.py:87-88 | the piece between leading and trailing whitespace runs is exactly what `strip()` returns |
| Text.StrippedIsStrip | parse_hh.py:87-88 | a piece of s with only whitespace around it and none at its own ends is exactly `s.strip()`, and `s.strip()` is such a piece |
| Text.StripAllSpace | parse_hh.py:87-88 | a text of whitespace only (given as two whitespace runs) strips to "" |
| Text.StripWithin | parse_hh.py:87-88 | stripping introduces no character that was not there |
| Text.Lower | parse_hh.py:138 | `t.lower()` keeps the length, leaves no capital, turns each character into its own small letter, and keeps every character that is not a capital |
| Text.LowerChar | parse_hh.py:138 | the result is never a capital and is the input's small letter; a non-capital is kept; Cyrillic stays Cyrillic |
| Text.LowerIdempotent | parse_hh.py:138 | lower-casing twice is lower-casing once |
| Text.LowerFinds | parse_hh.py:138 | a word with no capitals is at a position of the lower-cased text iff it is there in the text up to case |
| Text.ContainsUpToCase | parse_hh.py:138 | `w in t.lower()` iff w occurs in t up to case, for w with no capitals |
| Text.Span | parse_hh.py:81 | a greedy run of a character class: every character in it is in the class and the next one is not |
| Text.Occurs | parse_hh.py:81 | a word occurs in a slice iff it sits at some position inside it (the `.*месяц` and `лет?` searches) |
| ResumePatterns.ExperienceAt | parse_hh.py:81 | a match of pass 1 starts with `#`; its group starts with a digit, contains "месяц", has no line feed, and runs to the end of the line |
| ResumePatterns.ExperienceAtSound | parse_hh.py:81 | every match the scanner reports is a parse of `##\s*Опыт работы\s*(\d+.*месяц.*)` with that group |
| ResumePatterns.ExperienceAtComplete | parse_hh.py:81 | every parse of that pattern at a position is found by the scanner, with the same group start and an end no shorter (greedy `.*`) |
| ResumePatterns.DashAt | parse_hh.py:92 | the prefix `[А-Яа-я]+\s*\d{4}\s*` starts at a Cyrillic letter and is followed by an em dash |
| ResumePatterns.RangeAt | parse_hh.py:92 | group 1 starts with a Cyrillic letter and contains the em dash |
| ResumePatterns.YearsAt | parse_hh.py:92 | `\d+\s+лет?` starts with a digit and contains "ле" |
| ResumePatterns.MonthsAt | parse_hh.py:92 | `\s+\d+\s+месяц.*` ends at a line feed or at the end of the text |
| ResumePatterns.DurationAt | parse_hh.py:92 | group 2 starts with a digit, contains "ле" and ends at the end of its line |
| ResumePatterns.DateLineAt | parse_hh.py:92 | a match of pass 2 starts at a Cyrillic letter, has the dash in group 1, starts group 2 at a digit and ends at the end of the line |
| ResumePatterns.RangeAtSound | parse_hh.py:92 | the group 1 the scanner reports is a parse of `[А-Яа-я]+\s*\d{4}\s*—\s*[А-Яа-я\s]+` |
| ResumePatterns.DashAtComplete | parse_hh.py:92 | any parse of the prefix up to the dash is the one the scanner finds |
| ResumePatterns.RangeAtComplete | parse_hh.py:92 | any parse of group 1 followed by a digit is the one the scanner finds |
| ResumePatterns.YearsAtSound | parse_hh.py:92 | what the scanner reports for `\d+\s+лет?` is a parse of it |
| ResumePatterns.YearsAtComplete | parse_hh.py:92 | any parse of `\d+\s+лет?` followed by whitespace is the one the scanner finds |
| ResumePatterns.MonthsAtSound | parse_hh.py:92 | what the scanner reports for `\s+\d+\s+месяц.*` is a parse of it |
| ResumePatterns.MonthsAtComplete | parse_hh.py:92 | any parse of `\s+\d+\s+месяц.*` is found, with an end no shorter, and exactly when it ends the line |
| ResumePatterns.DateLineAtSound | parse_hh.py:92 | every match of pass 2 the scanner reports is group 1 followed by group 2 as the pattern defines them |
| ResumePatterns.DateLineAtComplete | parse_hh.py:92 | every parse of both groups at a position is found, with the same split, and exactly when it ends the line |
| ResumePatterns.LastNewline | parse_hh.py:96 | the last line feed in a slice, with no line feed after it; none only if the slice has none |
| ResumePatterns.StarAt | parse_hh.py:96 | a match of `\*\s*\n` is an asterisk, whitespace, and a final line feed |
| ResumePatterns.StarAtComplete | parse_hh.py:96 | every match of `\*\s*\n` at a position is found, with an end no shorter (greedy `\s*` backing off to the last line feed) |
| ResumePatterns.StarAtExact | parse_hh.py:96 | a match followed by a non-whitespace character or the end is exactly the scanner's |
| ResumeMarkdown.DateLineReplacement | parse_hh.py:86-89 | `fix_experience_line`: the result is "**", the date part with only its outer whitespace cut off, "** — ", and the duration part cut the same way; neither part keeps whitespace next to the markers |
| ResumeMarkdown.BoldDateLineUnique | parse_hh.py:86-89 | any text of that shape is exactly `fix_experience_line`'s result |
| ResumeMarkdown.Substitute | parse_hh.py:80-96 | `re.sub` returns the text unchanged when the pattern matches nowhere in it |
| ResumeMarkdown.NoMatchKeeps | parse_hh.py:80-96 | a pass with no match anywhere is the identity |
| ResumeMarkdown.ExperienceHit | parse_hh.py:80-84 | pass 1's match at a tenure line ends at the line end and is replaced by the heading, a blank line, "**Общий стаж:** " and the group |
| ResumeMarkdown.StarNeedsAsterisk | parse_hh.py:96 | pass 3 matches nowhere in text with no asterisk |
| ResumeMarkdown.MatchAt | parse_hh.py:80-96 | a match consumes at least one character; every replacement starts with `#`, `*` or a line feed |
| ResumeMarkdown.Matches | parse_hh.py:80-96 | the table holds the match at each position of the text |
| ResumeMarkdown.RewriteStep | parse_hh.py:80-96 | `re.sub` copies a character where no match starts |
| ResumeMarkdown.RewriteCopies | parse_hh.py:80-96 | a stretch with no match is copied verbatim |
| ResumeMarkdown.RewritePrefixCopied | parse_hh.py:80-96 | a word free of `#`, `*` and line feeds at the start of the output was at the start of the input |
| ResumeMarkdown.RewriteSplice | parse_hh.py:80-96 | with exactly one match, the output is the text before it, the replacement, and the text after it |
| ResumeMarkdown.SubSplice | parse_hh.py:80-96 | the same for a pass: a single match is spliced in, everything else kept |
| ResumeMarkdown.SubHit | parse_hh.py:80-96 | at a match, the replacement goes in and the scan resumes after the match, not rescanning it |
| ResumeMarkdown.SubCopies | parse_hh.py:80-96 | for a pass, a stretch with no match is copied verbatim |
| ResumeMarkdown.SubPrefixCopied | parse_hh.py:80-96 | a pass cannot create a prefix free of `#`, `*` and line feeds |
| ResumeMarkdown.SubPrefixKept | parse_hh.py:80-96 | a prefix where no match starts survives a pass |
| ResumeMarkdown.ExperienceRewrite | parse_hh.py:80-84 | a tenure line becomes `## Опыт работы\n\n**Общий стаж:** ` followed by the group |
| ResumeMarkdown.TenureWholeLine | parse_hh.py:80-84 | pass 1 on a text that is one whole tenure line gives the heading followed by the group, and nothing else |
| ResumeMarkdown.DateLineRewrite | parse_hh.py:86-95 | a date line becomes `**` + stripped group 1 + `** — ` + stripped group 2 |
| ResumeMarkdown.StarRewrite | parse_hh.py:96 | an asterisk, whitespace and a line feed become one line feed |
| ResumeMarkdown.FixTenure | parse_hh.py:80-84 | text without `#` or without "месяц" is unchanged by pass 1 |
| ResumeMarkdown.TenureNeedsHashAndMonth | parse_hh.py:80-84 | pass 1 matches nowhere in text lacking `#` or "месяц" |
| ResumeMarkdown.FixDateLines | parse_hh.py:86-95 | text without an em dash or without "ле" is unchanged by pass 2 |
| ResumeMarkdown.DateLineNeedsDashAndYears | parse_hh.py:86-95 | pass 2 matches nowhere in text lacking the em dash or "ле" |
| ResumeMarkdown.DropTrailingAsterisks | parse_hh.py:96 | pass 3 never lengthens the text and leaves text without `*` unchanged |
| ResumeMarkdown.StarPassCopies | parse_hh.py:96 | pass 3 copies any stretch without an asterisk |
| ResumeMarkdown.StarPassKeeps | parse_hh.py:96 | asterisks only on the last line, which has no line feed, are kept |
| ResumeMarkdown.StarPassKeepsLine | parse_hh.py:96 | a single line without a line feed is unchanged by pass 3 |
| ResumeMarkdown.StarPassShrinks | parse_hh.py:96 | pass 3's output is never longer than its input |
| ResumeMarkdown.Postprocess | parse_hh.py:76-97 | text without `#`, em dash or `*` comes through all three passes unchanged |
| ResumeExamples.TenureHeadingSplit | parse_hh.py:76-97 | "## Опыт работы g", with g starting with a digit and mentioning "месяц" on one line, and with no em dash in g, becomes the heading, a blank line and "**Общий стаж:** g" |
| ResumeExamples.TenureLineFixed | parse_hh.py:80-84 | pass 1 alone on the tenure line gives the heading, a blank line and the tenure line |
| ResumeExamples.TenureLineMatches | parse_hh.py:81 | pass 1's pattern matches the whole tenure line with group g |
| ResumeExamples.DateLineSplit | parse_hh.py:76-97 | a line made of a range and a duration, without `#`, becomes the bold stripped range, " — " and the stripped duration |
| ResumeExamples.OpenRangeBold | parse_hh.py:86-92 | a range with only whitespace after the dash is still a group 1 match, and strips to the text up to and including the dash, which so stays inside the bold part |
| ResumeExamples.DateLineFixed | parse_hh.py:86-95 | pass 2 alone on such a line gives that result |
| ResumeExamples.EndYearBlocksDateLine | parse_hh.py:92 | a range whose first number after the dash is followed by whitespace and anything but "л" (an end year, or "год") gives no pass 2 match starting at the range |
| ResumeExamples.BoldAtLineEnd | parse_hh.py:96 | bold text closing a line, `**x**\n`, loses one asterisk: `**x*\n` |
| ResumeExamples.StarPassNotIdempotent | parse_hh.py:96 | pass 3 turns "**\n" into "*\n" and "*\n" into "\n", so applying it twice differs from once |
| ResumeExamples.BlankLinesSwallowed | parse_hh.py:96 | an asterisk before blank lines takes them all: `a*\n…\nb` becomes `a\nb` |
| ResumeExamples.StarRunMatches | parse_hh.py:96 | in that text pass 3 matches at the asterisk only, up to the last blank line |
| HhParser.IsError | app.py:64 | a text passes the caller's test iff it is "Ошибка:" followed by anything (also app.py:68) |
| HhParser.IsUrlOf | parse_hh.py:103 | with a non-empty prefix, `not url` adds nothing: the URL passes iff it starts with the prefix (also 126) |
| HhParser.ShowsClosedNotice | parse_hh.py:138 | a page shows the notice iff one of its text nodes holds "доступ к резюме закрыт" at some position, each letter small or capital |
| HhParser.NoticeUpToCase | parse_hh.py:138 | a non-empty node whose lower-cased text holds the notice is exactly a node holding it up to case |
| HhParser.NoticeHasNoCapitals | parse_hh.py:138 | the notice is written in small letters, so lower-casing the node is enough |
| HhParser.ParseVacancy | parse_hh.py:99-119 | the result is one of the three fixed messages, the crash prefix followed by the exception text, or a stripped description (empty, or with no whitespace at either end) |
| HhParser.ResumeMarkdownOf | parse_hh.py:152-155 | the converted block is stripped: empty, or with no whitespace at either end |
| HhParser.ParseResume | parse_hh.py:122-162 | the result is one of the five fixed messages, the crash prefix followed by the exception text, or the three passes applied to a non-empty stripped Markdown text |
| HhParser.FirstFound | parse_hh.py:142-147 | `find(l0) or find(l1) or …` is none iff every locator finds nothing, else the result of the first locator that finds something |
| HhParser.BadUrlRejected | parse_hh.py:103-104 | an empty URL or one without the prefix gives the invalid-URL message whatever the fetch gives (for both page kinds, also 126-127) |
| HhParser.FailedLoadRejected | parse_hh.py:107-109 | a missing or empty page gives the load-failure message (for both page kinds, also 131-133) |
| HhParser.CrashReported | parse_hh.py:118-119 | an exception in parsing gives the crash prefix followed by its message (for both page kinds, also 161-162) |
| HhParser.VacancyDescribed | parse_hh.py:111-117 | without the description block, the not-found message; with it, the stripped conversion, which can be "" and is then not an error |
| HhParser.ClosedNoticeFirst | parse_hh.py:138-139 | a text node containing the notice gives the access-closed message, whatever else the page holds |
| HhParser.ClosedNoticeAnyCase | parse_hh.py:138 | the notice is found in any case: "Доступ к резюме ЗАКРЫТ" counts |
| HhParser.ResumeBlockOrder | parse_hh.py:142-147 | the résumé block is resume-wrapper if found, else resume-applicant, else main-content, else HH-React-Root |
| HhParser.ResumeConverted | parse_hh.py:149-159 | no block gives the not-found message; otherwise an empty stripped conversion gives the empty message, and anything else goes through the three passes |
| HhParser.Marked | app.py:64 | any text after "Ошибка:" passes the caller's error test |
| HhParser.GuardMessagesAreErrors | parse_hh.py:104-157 | all eight guarded messages start with "Ошибка:" |
| HhParser.CrashReportsPassAsText | parse_hh.py:119 | the two crash messages fail the caller's error test, whatever the exception says (also 162) |
| HhParser.MarkerBlocksMatch | parse_hh.py:80-96 | no pass matches inside a leading "Ошибка:" |
| HhParser.MarkerLetters | app.py:64 | "Ошибка:" is six Cyrillic letters and a colon, with no `#` or `*` |
| HhParser.MarkerBlocksDateLine | parse_hh.py:92 | pass 2 cannot match at a position of the leading "Ошибка:" |
| HhParser.PassKeepsErrorMarker | parse_hh.py:80-96 | each pass output starts with "Ошибка:" iff its input does |
| HhParser.PostprocessKeepsErrorMarker | parse_hh.py:76-97 | post-processing output starts with "Ошибка:" iff its input does |
| HhParser.VacancyErrorTest | parse_hh.py:99-119 | the caller sees an error iff the URL is bad, the page did not load, the block is missing, or the description itself starts with "Ошибка:"; an exception never counts |
| HhParser.ResumeErrorTest | parse_hh.py:122-162 | the caller sees an error iff the URL is bad, the page did not load, the notice is shown, no block is found, or the Markdown is empty or itself starts with "Ошибка:"; an exception never counts |

## Left out

- `_fetch_html` and `_fetch_html_selenium` (parse_hh.py:15-74) are left out. They do network I/O, drive a headless browser, sleep, write debug files and log to stderr. Their result is the `fetched: Option<string>` parameter.
- The `debug` parameter of both parsers is left out, because it only names the debug file the fetchers write.
- BeautifulSoup's parsing, `find`, `select` and `decompose`, and markdownify are left out because they are foreign libraries. They are the uninterpreted fields of `HhParser.Document`. A locator "finds" an element when `find` returns one; a found element is always truthy, so `if desc_div`, the `or` chain and `if not resume_block` test only for `None`.
- The noise-removal loop (parse_hh.py:152-153) is left out as an in-place tree mutation. It is the function `decompose(block, NoiseSelectors)`. Aliasing between the block and the tree is not modelled.
- Which statements inside the `try` blocks raise is not modelled. It is given per page as `Attempt.Raises(message)`, where the message stands for `str(e)`.
- The `__main__` block (parse_hh.py:164-183) is left out because it only dispatches on argv and prints.
- app.py is left out apart from its error test (app.py:64, app.py:68). It holds the Streamlit UI, `.env` loading and the OpenAI call.
- Text.IsDigit: `\d` is taken as the ASCII digits. Python's `\d` also matches other Unicode decimal digits.
- Text.LowerChar: `str.lower()` is modelled for the Latin capitals A..Z and the Cyrillic capitals U+0400..U+042F only. Other characters, and lower-casing that changes the length, are not modelled.
- ResumePatterns: the scanners give the match Python's engine picks for these three patterns only. They are not a general regular-expression engine.
