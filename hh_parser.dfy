/**
 * What `parse_vacancy` (parse_hh.py:99-119) and `parse_resume`
 * (parse_hh.py:122-162) return, as a function of what they are given and of
 * what the libraries they call answer.
 *
 * The page fetch is an input: `None` when the download failed, otherwise the
 * HTML. Parsing that HTML is a `Document`: the text nodes BeautifulSoup sees,
 * its `find` lookups, what removing the noise elements leaves of a node, and
 * what markdownify makes of a node. An exception raised anywhere in the
 * `try` block is the outcome `Raises(e)`, e being its text.
 *
 * The caller decides whether a result is an error by testing for the prefix
 * "Ошибка:" (app.py:64 and app.py:68); `IsError` is that test.
 */
module HhParser {
  import opened Optional
  import opened Text
  import opened ResumePatterns
  import opened ResumeMarkdown

  const VacancyUrlPrefix := "https://hh.ru/vacancy/"
  const ResumeUrlPrefix := "https://hh.ru/resume/"

  /** The prefix by which the caller recognises an error. */
  const ErrorMarker := "Ошибка:"

  /** The caller's test: the result is an error message, not page text. A
      text passes it exactly when it is the marker followed by anything. */
  predicate IsError(s: string): (b: bool)
    ensures b <==> exists rest :: s == ErrorMarker + rest
  {
    StartsWithSplit(s, ErrorMarker);
    StartsWith(s, ErrorMarker)
  }

  /** The messages returned in place of a page; each guarded one is the
      marker followed by the text after "Ошибка:" in the source. */
  const VacancyBadUrl := ErrorMarker + " Некорректный URL вакансии."
  const VacancyNotLoaded := ErrorMarker + " Не удалось загрузить страницу вакансии."
  const VacancyNoDescription := ErrorMarker + " Блок с описанием вакансии не найден на странице."
  const VacancyCrash := "Ошибка при парсинге вакансии: "
  const ResumeBadUrl := ErrorMarker + " Некорректный URL резюме."
  const ResumeNotLoaded := ErrorMarker + " Не удалось загрузить страницу резюме."
  const ResumeClosed := ErrorMarker + " Доступ к резюме закрыт. Требуется авторизация как работодатель."
  const ResumeNoBlock := ErrorMarker + " Не удалось найти основной блок с данными резюме."
  const ResumeEmpty := ErrorMarker + " Резюме оказалось пустым после обработки."
  const ResumeCrash := "Ошибка при парсинге резюме: "

  /** The text whose presence, in any case, means the résumé is closed to the visitor. */
  const ClosedNotice := "доступ к резюме закрыт"

  /** An element of the parsed page. */
  datatype Node = Node(id: nat)

  /** `find(tag, {attribute: value})`; `class_=` is the attribute "class". */
  datatype Locator = Locator(tag: string, attribute: string, value: string)

  datatype HeadingStyle = Underlined | Atx

  /** markdownify's options: the heading style and the tags it unwraps. */
  datatype Conversion = Conversion(headings: HeadingStyle, unwrap: seq<string>)

  /** What BeautifulSoup and markdownify answer about one page. */
  datatype Document = Document(
    texts: seq<string>,
    find: Locator -> Option<Node>,
    decompose: (Node, seq<string>) -> Node,
    markdown: (Node, Conversion) -> string)

  /** The `try` block on one page: it raises, or it runs on the parsed document. */
  datatype Attempt = Raises(error: string) | Completes(doc: Document)

  const VacancyLocator := Locator("div", "data-qa", "vacancy-description")

  /** The résumé block's candidates, in the order they are tried. */
  const ResumeLocators := [
    Locator("div", "class", "resume-wrapper"),
    Locator("div", "class", "resume-applicant"),
    Locator("main", "class", "main-content"),
    Locator("div", "id", "HH-React-Root")]

  /** The CSS selectors of the elements removed from the résumé block. */
  const NoiseSelectors := ["[data-qa*=\"button\"]", ".bloko-icon", "script", "style"]

  const VacancyConversion := Conversion(Underlined, ["div", "span"])
  const ResumeConversion := Conversion(Atx, ["div", "span", "section", "article"])

  /** `not url or not url.startswith(prefix)`, negated. With a non-empty
      prefix the emptiness test decides nothing the prefix test does not. */
  predicate IsUrlOf(url: string, prefix: string): (b: bool)
    ensures prefix != [] ==> (b <==> StartsWith(url, prefix))
  {
    url != [] && StartsWith(url, prefix)
  }

  /** `if not html_content` failed: the fetch returned a non-empty page. */
  predicate Loaded(fetched: Option<string>) {
    fetched.Some? && fetched.value != []
  }

  /** `soup.find(string=lambda t: t and ClosedNotice in t.lower())` finds
      something: some text holds the notice, in small letters or capitals. */
  predicate ShowsClosedNotice(texts: seq<string>): (b: bool)
    ensures b <==> exists t, m: nat | t in texts :: HasAtUpToCase(t, m, ClosedNotice)
  {
    NoticeUpToCase(texts);
    exists t | t in texts :: t != [] && Contains(Lower(t), ClosedNotice)
  }

  /** The notice is in small letters. */
  lemma NoticeHasNoCapitals()
    ensures |ClosedNotice| == 22
    ensures forall j | 0 <= j < |ClosedNotice| :: !IsCapital(ClosedNotice[j])
  {
  }

  /** Looking for the notice in a lower-cased text node is looking for it up
      to case; a node that holds it is not empty. */
  lemma NoticeUpToCase(texts: seq<string>)
    ensures (exists t | t in texts :: t != [] && Contains(Lower(t), ClosedNotice))
      <==> exists t, m: nat | t in texts :: HasAtUpToCase(t, m, ClosedNotice)
  {
    NoticeHasNoCapitals();
    forall t | t in texts
      ensures (t != [] && Contains(Lower(t), ClosedNotice))
        <==> exists m: nat :: HasAtUpToCase(t, m, ClosedNotice)
    {
      ContainsUpToCase(t, ClosedNotice);
    }
  }

  /** `find(l0) or find(l1) or ...`: the first locator that finds an element. */
  function FirstFound(find: Locator -> Option<Node>, locators: seq<Locator>): (r: Option<Node>)
    ensures r.None? <==> forall i | 0 <= i < |locators| :: find(locators[i]).None?
    ensures r.Some? ==> exists i | 0 <= i < |locators| ::
      find(locators[i]) == r && forall j | 0 <= j < i :: find(locators[j]).None?
    decreases |locators|
  {
    if locators == [] then None
    else if find(locators[0]).Some? then find(locators[0])
    else FirstFound(find, locators[1..])
  }

  /** `parse_vacancy(url)`, given the fetched page and what parsing it gives. */
  function ParseVacancy(url: string, fetched: Option<string>, parse: string -> Attempt): (r: string)
    ensures r in [VacancyBadUrl, VacancyNotLoaded, VacancyNoDescription]
      || (exists e :: r == VacancyCrash + e)
      || r == [] || (!IsSpace(r[0]) && !IsSpace(r[|r| - 1]))
  {
    if !IsUrlOf(url, VacancyUrlPrefix) then VacancyBadUrl
    else if !Loaded(fetched) then VacancyNotLoaded
    else
      match parse(fetched.value)
      case Raises(e) => VacancyCrash + e
      case Completes(doc) =>
        match doc.find(VacancyLocator)
        case None => VacancyNoDescription
        case Some(div) => Strip(doc.markdown(div, VacancyConversion))
  }

  /** The résumé's Markdown before post-processing: the block with its noise
      removed, converted, and stripped. */
  function ResumeMarkdownOf(doc: Document, block: Node): (r: string)
    ensures r == [] || (!IsSpace(r[0]) && !IsSpace(r[|r| - 1]))
  {
    Strip(doc.markdown(doc.decompose(block, NoiseSelectors), ResumeConversion))
  }

  /** `parse_resume(url)`, given the fetched page and what parsing it gives. */
  function ParseResume(url: string, fetched: Option<string>, parse: string -> Attempt): (r: string)
    ensures r in [ResumeBadUrl, ResumeNotLoaded, ResumeClosed, ResumeNoBlock, ResumeEmpty]
      || (exists e :: r == ResumeCrash + e)
      || exists m: string :: m != [] && !IsSpace(m[0]) && !IsSpace(m[|m| - 1]) && r == Postprocess(m)
  {
    if !IsUrlOf(url, ResumeUrlPrefix) then ResumeBadUrl
    else if !Loaded(fetched) then ResumeNotLoaded
    else
      match parse(fetched.value)
      case Raises(e) => ResumeCrash + e
      case Completes(doc) =>
        if ShowsClosedNotice(doc.texts) then ResumeClosed
        else
          match FirstFound(doc.find, ResumeLocators)
          case None => ResumeNoBlock
          case Some(block) =>
            var markdown := ResumeMarkdownOf(doc, block);
            if markdown == [] then ResumeEmpty else Postprocess(markdown)
  }

  // ---------------------------------------------------------------------
  // The guards, in the order they are tried
  // ---------------------------------------------------------------------

  /** An empty URL, or one without the page kind's prefix, gets the fixed
      message whatever the fetch would have returned: nothing is fetched. */
  lemma BadUrlRejected(url: string, fetched: Option<string>, parse: string -> Attempt)
    ensures !IsUrlOf(url, VacancyUrlPrefix) ==> ParseVacancy(url, fetched, parse) == VacancyBadUrl
    ensures !IsUrlOf(url, ResumeUrlPrefix) ==> ParseResume(url, fetched, parse) == ResumeBadUrl
  {
  }

  /** A fetch that failed or returned an empty page gets the fixed message,
      whatever parsing would have given. */
  lemma FailedLoadRejected(url: string, fetched: Option<string>, parse: string -> Attempt)
    requires !Loaded(fetched)
    ensures IsUrlOf(url, VacancyUrlPrefix) ==> ParseVacancy(url, fetched, parse) == VacancyNotLoaded
    ensures IsUrlOf(url, ResumeUrlPrefix) ==> ParseResume(url, fetched, parse) == ResumeNotLoaded
  {
  }

  /** An exception in the `try` block is reported with its text. */
  lemma CrashReported(url: string, fetched: Option<string>, parse: string -> Attempt, e: string)
    requires Loaded(fetched) && parse(fetched.value) == Raises(e)
    ensures IsUrlOf(url, VacancyUrlPrefix) ==> ParseVacancy(url, fetched, parse) == VacancyCrash + e
    ensures IsUrlOf(url, ResumeUrlPrefix) ==> ParseResume(url, fetched, parse) == ResumeCrash + e
  {
  }

  // ---------------------------------------------------------------------
  // Vacancies
  // ---------------------------------------------------------------------

  /** A loaded vacancy page gives its description block converted and
      stripped, or the fixed message when there is no such block. An empty
      description is returned as it is, as a success. */
  lemma VacancyDescribed(url: string, fetched: Option<string>, parse: string -> Attempt, doc: Document)
    requires IsUrlOf(url, VacancyUrlPrefix) && Loaded(fetched)
    requires parse(fetched.value) == Completes(doc)
    ensures doc.find(VacancyLocator).None? ==> ParseVacancy(url, fetched, parse) == VacancyNoDescription
    ensures doc.find(VacancyLocator).Some? ==>
      ParseVacancy(url, fetched, parse) == Strip(doc.markdown(doc.find(VacancyLocator).value, VacancyConversion))
    ensures doc.find(VacancyLocator).Some?
      && Strip(doc.markdown(doc.find(VacancyLocator).value, VacancyConversion)) == []
      ==> ParseVacancy(url, fetched, parse) == [] && !IsError(ParseVacancy(url, fetched, parse))
  {
  }

  // ---------------------------------------------------------------------
  // Résumés
  // ---------------------------------------------------------------------

  /** A closed-résumé notice anywhere on the page decides the result, whether
      or not the page also has a résumé block. */
  lemma ClosedNoticeFirst(url: string, fetched: Option<string>, parse: string -> Attempt, doc: Document)
    requires IsUrlOf(url, ResumeUrlPrefix) && Loaded(fetched)
    requires parse(fetched.value) == Completes(doc) && ShowsClosedNotice(doc.texts)
    ensures ParseResume(url, fetched, parse) == ResumeClosed
  {
  }

  /** The notice is found whatever the case of its letters. */
  lemma ClosedNoticeAnyCase()
    ensures ShowsClosedNotice(["Внимание", "Доступ к резюме ЗАКРЫТ"])
  {
    var t := "Доступ к резюме ЗАКРЫТ";
    assert Lower(t) == ClosedNotice;
    assert HasAt(Lower(t), 0, ClosedNotice);
    assert t in ["Внимание", "Доступ к резюме ЗАКРЫТ"];
  }

  /** The résumé block is the first of the four candidates that is found. */
  lemma ResumeBlockOrder(find: Locator -> Option<Node>)
    ensures find(ResumeLocators[0]).Some? ==> FirstFound(find, ResumeLocators) == find(ResumeLocators[0])
    ensures find(ResumeLocators[0]).None? && find(ResumeLocators[1]).Some?
      ==> FirstFound(find, ResumeLocators) == find(ResumeLocators[1])
    ensures find(ResumeLocators[0]).None? && find(ResumeLocators[1]).None? && find(ResumeLocators[2]).Some?
      ==> FirstFound(find, ResumeLocators) == find(ResumeLocators[2])
    ensures find(ResumeLocators[0]).None? && find(ResumeLocators[1]).None? && find(ResumeLocators[2]).None?
      ==> FirstFound(find, ResumeLocators) == find(ResumeLocators[3])
  {
  }

  /** With no notice on the page: no candidate found gives the fixed message,
      an empty conversion gives the empty-résumé message, and anything else is
      the post-processed Markdown. */
  lemma ResumeConverted(url: string, fetched: Option<string>, parse: string -> Attempt, doc: Document)
    requires IsUrlOf(url, ResumeUrlPrefix) && Loaded(fetched)
    requires parse(fetched.value) == Completes(doc) && !ShowsClosedNotice(doc.texts)
    ensures (forall i | 0 <= i < |ResumeLocators| :: doc.find(ResumeLocators[i]).None?)
      ==> ParseResume(url, fetched, parse) == ResumeNoBlock
    ensures FirstFound(doc.find, ResumeLocators).Some? ==>
      var markdown := ResumeMarkdownOf(doc, FirstFound(doc.find, ResumeLocators).value);
      ParseResume(url, fetched, parse) == if markdown == [] then ResumeEmpty else Postprocess(markdown)
  {
  }

  // ---------------------------------------------------------------------
  // The caller's error test
  // ---------------------------------------------------------------------

  /** A message that starts with the marker passes the error test. */
  lemma Marked(rest: string)
    ensures IsError(ErrorMarker + rest)
  {
    assert (ErrorMarker + rest)[..|ErrorMarker|] == ErrorMarker;
  }

  /** Every fixed message the guards return passes the caller's error test. */
  lemma GuardMessagesAreErrors()
    ensures IsError(VacancyBadUrl) && IsError(VacancyNotLoaded) && IsError(VacancyNoDescription)
    ensures IsError(ResumeBadUrl) && IsError(ResumeNotLoaded) && IsError(ResumeClosed)
    ensures IsError(ResumeNoBlock) && IsError(ResumeEmpty)
  {
    Marked(" Некорректный URL вакансии.");
    Marked(" Не удалось загрузить страницу вакансии.");
    Marked(" Блок с описанием вакансии не найден на странице.");
    Marked(" Некорректный URL резюме.");
    Marked(" Не удалось загрузить страницу резюме.");
    Marked(" Доступ к резюме закрыт. Требуется авторизация как работодатель.");
    Marked(" Не удалось найти основной блок с данными резюме.");
    Marked(" Резюме оказалось пустым после обработки.");
  }

  /** The reports of an exception start "Ошибка при", not "Ошибка:", so the
      caller's error test takes them for a parsed page. */
  lemma CrashReportsPassAsText(e: string)
    ensures !IsError(VacancyCrash + e) && !IsError(ResumeCrash + e)
  {
    assert (VacancyCrash + e)[6] == ' ' && (ResumeCrash + e)[6] == ' ';
    assert ErrorMarker[6] == ':';
  }

  /** No pass of the post-processing has a match starting inside a leading
      "Ошибка:": pass 1 needs a `#`, pass 3 an asterisk, and pass 2's letters
      run into the colon where `\s*\d{4}` must follow. */
  lemma MarkerBlocksMatch(pass: Pass, s: string, k: nat)
    requires StartsWith(s, ErrorMarker) && k < |ErrorMarker|
    ensures MatchAt(pass, s, k).None?
  {
    MarkerLetters(s);
    match pass
    case Experience => assert ExperienceAt(s, k).None? by { assert s[k] != '#'; }
    case DateLine => MarkerBlocksDateLine(s, k);
    case TrailingStar => assert StarAt(s, k).None? by { assert s[k] != '*'; }
  }

  /** The characters of a leading "Ошибка:": six Cyrillic letters and a colon. */
  lemma MarkerLetters(s: string)
    requires StartsWith(s, ErrorMarker)
    ensures |s| >= 7 && All(s, 0, 6, IsCyrillic) && s[6] == ':'
    ensures forall j | 0 <= j < 7 :: s[j] != '#' && s[j] != '*'
  {
    assert s[..7] == ErrorMarker;
    assert forall j | 0 <= j < 7 :: s[j] == ErrorMarker[j];
  }

  lemma MarkerBlocksDateLine(s: string, k: nat)
    requires |s| >= 7 && All(s, 0, 6, IsCyrillic) && s[6] == ':' && k < 7
    ensures DateLineAt(s, k).None?
  {
    if k < 6 {
      assert All(s, k, 6, IsCyrillic);
      assert !IsCyrillic(s[6]) && !IsSpace(s[6]) && !IsDigit(s[6]);
      SpanCovers(s, k, 6, IsCyrillic);
      assert DashAt(s, k).None?;
    }
  }

  /** Each pass keeps a leading "Ошибка:" and never makes one. */
  lemma PassKeepsErrorMarker(pass: Pass, s: string)
    ensures IsError(Sub(pass, s, 0)) <==> IsError(s)
  {
    SubPrefixCopied(pass, s, 0, ErrorMarker);
    if IsError(s) {
      forall k | 0 <= k < |ErrorMarker| ensures MatchAt(pass, s, k).None? {
        MarkerBlocksMatch(pass, s, k);
      }
      SubPrefixKept(pass, s, ErrorMarker);
    }
  }

  /** Post-processing neither hides nor fakes an error message. */
  lemma PostprocessKeepsErrorMarker(s: string)
    ensures IsError(Postprocess(s)) <==> IsError(s)
  {
    PassKeepsErrorMarker(Experience, s);
    var s1 := FixTenure(s);
    PassKeepsErrorMarker(DateLine, s1);
    var s2 := FixDateLines(s1);
    PassKeepsErrorMarker(TrailingStar, s2);
  }

  /** When the caller sees a vacancy error: a bad URL, a failed load, or a
      page without the description block; otherwise only a description that
      itself starts with "Ошибка:". An exception is never seen as one. */
  lemma VacancyErrorTest(url: string, fetched: Option<string>, parse: string -> Attempt)
    ensures IsError(ParseVacancy(url, fetched, parse)) <==>
      !IsUrlOf(url, VacancyUrlPrefix) || !Loaded(fetched)
      || (var a := parse(fetched.value);
          a.Completes? && (a.doc.find(VacancyLocator).None?
            || IsError(Strip(a.doc.markdown(a.doc.find(VacancyLocator).value, VacancyConversion)))))
  {
    GuardMessagesAreErrors();
    if IsUrlOf(url, VacancyUrlPrefix) && Loaded(fetched) && parse(fetched.value).Raises? {
      CrashReportsPassAsText(parse(fetched.value).error);
    }
  }

  /** When the caller sees a résumé error: a bad URL, a failed load, a closed
      résumé, no résumé block, or an empty conversion; otherwise only a
      conversion that itself starts with "Ошибка:", since post-processing
      keeps and never makes that prefix. An exception is never seen as one. */
  lemma ResumeErrorTest(url: string, fetched: Option<string>, parse: string -> Attempt)
    ensures IsError(ParseResume(url, fetched, parse)) <==>
      !IsUrlOf(url, ResumeUrlPrefix) || !Loaded(fetched)
      || (var a := parse(fetched.value);
          a.Completes? && (ShowsClosedNotice(a.doc.texts)
            || FirstFound(a.doc.find, ResumeLocators).None?
            || (var markdown := ResumeMarkdownOf(a.doc, FirstFound(a.doc.find, ResumeLocators).value);
                markdown == [] || IsError(markdown))))
  {
    GuardMessagesAreErrors();
    if IsUrlOf(url, ResumeUrlPrefix) && Loaded(fetched) {
      match parse(fetched.value)
      case Raises(e) => CrashReportsPassAsText(e);
      case Completes(doc) =>
        if !ShowsClosedNotice(doc.texts) && FirstFound(doc.find, ResumeLocators).Some? {
          PostprocessKeepsErrorMarker(ResumeMarkdownOf(doc, FirstFound(doc.find, ResumeLocators).value));
        }
    }
  }
}
