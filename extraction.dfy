/** Main-content extraction: four strategies that each either yield HTML for
    the page's main content or give up, a configurable order in which they are
    tried, and the `<body>` fallback used when every strategy gives up.

    The parsing and boilerplate-removal libraries themselves are not modelled;
    a `Backends` value stands for what they answer on a given input, and the
    extraction logic is stated over those answers. */
module Extraction {
  import opened Wrappers
  import opened Strings

  /** The answer of a BeautifulSoup lookup: the element found, no element, or
      an exception raised while parsing or selecting. */
  datatype Probe<+T> = Found(value: T) | Absent | Raised

  /** An element picked by a CSS selector: its serialised markup and the
      length of its text once stripped. */
  datatype Element = Element(markup: string, textLength: nat)

  /** What the libraries answer. A strategy's library function answers `None`
      when it raises. */
  datatype Backends = Backends(
    /** `trafilatura.extract(html, output_format='html')`; `None` also when it raises. */
    trafilatura: string -> Option<string>,
    /** `Document(html).summary()`; `None` when it raises. */
    readability: string -> Option<string>,
    /** `article.text` after `Article()`, `set_html(html)` and `nlp()`, the calls the
        strategy makes; `None` when any of them raises. */
    newspaper: string -> Option<string>,
    /** `BeautifulSoup(html).select_one(selector)`. */
    selectOne: (string, string) -> Probe<Element>,
    /** `str(BeautifulSoup(html).find('body'))`. */
    findBody: string -> Probe<string>,
    /** `len(BeautifulSoup(fragment).get_text(strip=True))`. */
    textLength: string -> nat,
    /** The stripped text of the first element with the given tag name. */
    firstText: (string, string) -> Option<string>,
    /** html2text's Markdown for an HTML fragment against a base URL; `None`
        when it raises. */
    html2text: (string, string) -> Option<string>
  )

  /** The shortest stripped text any strategy accepts. */
  const MinTextLength: nat := 100

  // ---------------------------------------------------------------------
  // The three library-backed strategies

  /** `extract_by_trafilatura`: trafilatura's HTML, when it is non-empty and
      carries at least 100 characters of text. */
  function ByTrafilatura(b: Backends, html: string): (r: Option<string>)
    ensures r.Some? <==> (b.trafilatura(html).Some? && b.trafilatura(html).value != "" &&
                          b.textLength(b.trafilatura(html).value) >= MinTextLength)
    ensures r.Some? ==> r == b.trafilatura(html)
  {
    match b.trafilatura(html)
    case Some(extracted) =>
      if extracted != "" && b.textLength(extracted) >= MinTextLength then Some(extracted) else None
    case None => None
  }

  /** `extract_by_readability`: readability's summary, when it carries at
      least 100 characters of text. */
  function ByReadability(b: Backends, html: string): (r: Option<string>)
    ensures r.Some? <==> (b.readability(html).Some? &&
                          b.textLength(b.readability(html).value) >= MinTextLength)
    ensures r.Some? ==> r == b.readability(html)
  {
    match b.readability(html)
    case Some(summary) => if b.textLength(summary) >= MinTextLength then Some(summary) else None
    case None => None
  }

  /** `extract_by_newspaper`: the article's plain text wrapped in `<article>`,
      when that text, stripped of surrounding whitespace, holds at least 100
      characters. */
  function ByNewspaper(b: Backends, html: string): (r: Option<string>)
    ensures r.Some? <==> (b.newspaper(html).Some? && |Trim(b.newspaper(html).value)| >= MinTextLength)
    ensures r.Some? ==> r.value == "<article>" + b.newspaper(html).value + "</article>"
  {
    match b.newspaper(html)
    case Some(text) =>
      if text != "" && |Trim(text)| >= MinTextLength then Some("<article>" + text + "</article>") else None
    case None => None
  }

  // ---------------------------------------------------------------------
  // The selector strategy

  /** The selectors tried, in priority order. */
  const Selectors: seq<string> := [
    "main", "article", "[role=\"main\"]", "#main", ".main", "#content", ".content",
    "#contents", ".contents", "#main-content", ".main-content", "#mainContent",
    ".mainContent", ".post-content", ".article-content"
  ]

  /** A selector whose element carries enough text. */
  predicate Hit(p: Probe<Element>) {
    p.Found? && p.value.textLength >= MinTextLength
  }

  /** A selector at which the scan ends: a hit, or an exception. */
  predicate Stops(p: Probe<Element>) {
    Hit(p) || p.Raised?
  }

  /** The selector scan, one selector at a time: an element that is absent or
      too short moves on to the next selector; a hit answers its markup; an
      exception abandons the scan. */
  function SelectorScan(b: Backends, html: string, sels: seq<string>): Option<string> {
    if sels == [] then None
    else
      match b.selectOne(html, sels[0])
      case Raised => None
      case Absent => SelectorScan(b, html, sels[1..])
      case Found(e) => if e.textLength >= MinTextLength then Some(e.markup) else SelectorScan(b, html, sels[1..])
  }

  /** The index of the first selector at which the scan stops, or `|sels|`. */
  function FirstStop(b: Backends, html: string, sels: seq<string>): (i: nat)
    ensures i <= |sels|
    ensures forall j :: 0 <= j < i ==> !Stops(b.selectOne(html, sels[j]))
    ensures i < |sels| ==> Stops(b.selectOne(html, sels[i]))
  {
    if sels == [] then 0
    else if Stops(b.selectOne(html, sels[0])) then 0
    else 1 + FirstStop(b, html, sels[1..])
  }

  /** The scan answers the markup of the first selector whose element carries
      enough text, provided no earlier selector raised; otherwise nothing. */
  lemma {:induction false} SelectorScanIsFirstHit(b: Backends, html: string, sels: seq<string>)
    ensures var i := FirstStop(b, html, sels);
            SelectorScan(b, html, sels) ==
              if i < |sels| && Hit(b.selectOne(html, sels[i]))
              then Some(b.selectOne(html, sels[i]).value.markup) else None
  {
    if sels != [] && !Stops(b.selectOne(html, sels[0])) {
      SelectorScanIsFirstHit(b, html, sels[1..]);
    }
  }

  /** One selector of the scan at position `i`: an exception ends it with
      nothing, a hit with the element's markup, anything else moves on. */
  lemma SelectorStep(b: Backends, html: string, sels: seq<string>, i: nat)
    requires i < |sels|
    ensures b.selectOne(html, sels[i]).Raised? ==> SelectorScan(b, html, sels[i..]) == None
    ensures Hit(b.selectOne(html, sels[i])) ==>
              SelectorScan(b, html, sels[i..]) == Some(b.selectOne(html, sels[i]).value.markup)
    ensures !Stops(b.selectOne(html, sels[i])) ==>
              SelectorScan(b, html, sels[i..]) == SelectorScan(b, html, sels[i + 1..])
  {
    assert sels[i..][1..] == sels[i + 1..];
  }

  /** `extract_by_xpath`: the selector loop, leaving at the first hit. */
  method ExtractByXpath(b: Backends, html: string) returns (r: Option<string>)
    ensures r == SelectorScan(b, html, Selectors)
  {
    var sels := Selectors;
    for i := 0 to |sels|
      invariant SelectorScan(b, html, sels[i..]) == SelectorScan(b, html, sels)
    {
      SelectorStep(b, html, sels, i);
      var element := b.selectOne(html, sels[i]);
      match element {
        case Raised =>
          return None;
        case Absent =>
        case Found(e) =>
          if e.textLength >= MinTextLength {
            return Some(e.markup);
          }
      }
    }
    assert sels[|sels|..] == [];
    return None;
  }

  /** `extract_by_body`: the `<body>` element, or the whole document when
      there is none or parsing raises. */
  function ExtractByBody(b: Backends, html: string): (r: string)
    ensures b.findBody(html).Found? ==> r == b.findBody(html).value
    ensures !b.findBody(html).Found? ==> r == html
  {
    match b.findBody(html)
    case Found(body) => body
    case _ => html
  }

  // ---------------------------------------------------------------------
  // The pipeline

  /** The order used when no list is given. */
  const DefaultOrder: seq<string> := ["trafilatura", "readability", "newspaper3k", "xpath"]

  /** The names the pipeline knows; any other name is skipped. */
  predicate Known(name: string) {
    name == "trafilatura" || name == "newspaper3k" || name == "xpath" || name == "readability"
  }

  function Strategy(b: Backends, html: string, name: string): Option<string>
    requires Known(name)
  {
    if name == "trafilatura" then ByTrafilatura(b, html)
    else if name == "newspaper3k" then ByNewspaper(b, html)
    else if name == "xpath" then SelectorScan(b, html, Selectors)
    else ByReadability(b, html)
  }

  /** A result the pipeline takes: present and not the empty string. */
  predicate Accepted(r: Option<string>) {
    r.Some? && r.value != ""
  }

  /** A known name whose strategy yields an accepted result. */
  predicate Wins(b: Backends, html: string, name: string) {
    Known(name) && Accepted(Strategy(b, html, name))
  }

  /** The list in force: the one given, or the default order when none is. */
  function Order(extractors: Option<seq<string>>): (names: seq<string>)
    ensures extractors.None? ==> names == DefaultOrder
    ensures extractors.Some? ==> names == extractors.value
  {
    extractors.GetOr(DefaultOrder)
  }

  /** The pipeline over a list: the first accepted result, skipping unknown
      names. */
  function Scan(b: Backends, html: string, names: seq<string>): Option<string> {
    if names == [] then None
    else if Wins(b, html, names[0]) then Strategy(b, html, names[0])
    else Scan(b, html, names[1..])
  }

  /** The index of the first winning name, or `|names|`. */
  function FirstWin(b: Backends, html: string, names: seq<string>): (i: nat)
    ensures i <= |names|
    ensures forall j :: 0 <= j < i ==> !Wins(b, html, names[j])
    ensures i < |names| ==> Wins(b, html, names[i])
  {
    if names == [] then 0
    else if Wins(b, html, names[0]) then 0
    else 1 + FirstWin(b, html, names[1..])
  }

  /** The known names the pipeline invokes, in the order it invokes them. */
  ghost function Tried(b: Backends, html: string, names: seq<string>): seq<string> {
    if names == [] then []
    else if !Known(names[0]) then Tried(b, html, names[1..])
    else if Wins(b, html, names[0]) then [names[0]]
    else [names[0]] + Tried(b, html, names[1..])
  }

  /** The names of a list that the pipeline knows, in order. */
  function KnownOnly(names: seq<string>): (r: seq<string>)
    ensures |r| <= |names|
    ensures forall k :: 0 <= k < |r| ==> Known(r[k])
    ensures forall x :: x in r <==> x in names && Known(x)
  {
    if names == [] then []
    else
      assert names == [names[0]] + names[1..];
      if Known(names[0]) then [names[0]] + KnownOnly(names[1..])
      else KnownOnly(names[1..])
  }

  /** Filtering a concatenation filters each part and keeps their order;
      with the one-name case, `KnownOnly` keeps the known names in the order
      they were given. */
  lemma {:induction false} KnownOnlyAppend(a: seq<string>, b: seq<string>)
    ensures KnownOnly(a + b) == KnownOnly(a) + KnownOnly(b)
  {
    if a == [] {
      assert a + b == b;
    } else {
      assert (a + b)[0] == a[0];
      assert (a + b)[1..] == a[1..] + b;
      KnownOnlyAppend(a[1..], b);
    }
  }

  lemma KnownOnlySingle(name: string)
    ensures KnownOnly([name]) == if Known(name) then [name] else []
  {
    assert [name][1..] == [];
  }

  /** `extract_main_content` as a value: the first accepted strategy result in
      the order in force, or the body fallback. */
  function MainContent(b: Backends, html: string, extractors: Option<seq<string>>): string {
    match Scan(b, html, Order(extractors))
    case Some(content) => content
    case None => ExtractByBody(b, html)
  }

  /** One step of the pipeline at position `i`. */
  lemma PipelineStep(b: Backends, html: string, names: seq<string>, i: nat)
    requires i < |names|
    ensures Scan(b, html, names[i..]) ==
            if Wins(b, html, names[i]) then Strategy(b, html, names[i]) else Scan(b, html, names[i + 1..])
    ensures Tried(b, html, names[i..]) ==
            if !Known(names[i]) then Tried(b, html, names[i + 1..])
            else if Wins(b, html, names[i]) then [names[i]]
            else [names[i]] + Tried(b, html, names[i + 1..])
  {
    assert names[i..][1..] == names[i + 1..];
  }

  /** A name the pipeline does not know is passed over. */
  lemma SkipStep(b: Backends, html: string, names: seq<string>, i: nat)
    requires i < |names| && !Known(names[i])
    ensures Scan(b, html, names[i..]) == Scan(b, html, names[i + 1..])
    ensures Tried(b, html, names[i..]) == Tried(b, html, names[i + 1..])
  {
    assert names[i..][1..] == names[i + 1..];
  }

  /** A known name whose strategy wins ends the pipeline. */
  lemma WinStep(b: Backends, html: string, names: seq<string>, i: nat)
    requires i < |names| && Wins(b, html, names[i])
    ensures Scan(b, html, names[i..]) == Strategy(b, html, names[i])
    ensures Tried(b, html, names[i..]) == [names[i]]
  {
  }

  /** A known name whose strategy gives up is recorded, and the pipeline
      moves on. */
  lemma LoseStep(b: Backends, html: string, names: seq<string>, i: nat, tried: seq<string>)
    requires i < |names| && Known(names[i]) && !Wins(b, html, names[i])
    ensures Scan(b, html, names[i..]) == Scan(b, html, names[i + 1..])
    ensures tried + Tried(b, html, names[i..]) == (tried + [names[i]]) + Tried(b, html, names[i + 1..])
  {
    assert names[i..][1..] == names[i + 1..];
    var rest := Tried(b, html, names[i + 1..]);
    assert tried + ([names[i]] + rest) == (tried + [names[i]]) + rest;
  }

  /** Runs the strategy a known name stands for. */
  method RunStrategy(b: Backends, html: string, name: string) returns (result: Option<string>)
    requires Known(name)
    ensures result == Strategy(b, html, name)
  {
    if name == "trafilatura" {
      result := ByTrafilatura(b, html);
    } else if name == "newspaper3k" {
      result := ByNewspaper(b, html);
    } else if name == "xpath" {
      result := ExtractByXpath(b, html);
    } else {
      result := ByReadability(b, html);
    }
  }

  /** `extract_main_content`: the loop over the names in force, returning as
      soon as a known strategy yields a non-empty result. `tried` records the
      strategies it invoked. */
  method ExtractMainContent(b: Backends, html: string, extractors: Option<seq<string>>)
    returns (content: string, ghost tried: seq<string>)
    ensures content == MainContent(b, html, extractors)
    ensures tried == Tried(b, html, Order(extractors))
  {
    var names := Order(extractors);
    tried := [];
    for i := 0 to |names|
      invariant Scan(b, html, names[i..]) == Scan(b, html, names)
      invariant tried + Tried(b, html, names[i..]) == Tried(b, html, names)
    {
      var name := names[i];
      if !Known(name) {
        SkipStep(b, html, names, i);
        continue;
      }
      var result := RunStrategy(b, html, name);
      if result.Some? && result.value != "" {
        WinStep(b, html, names, i);
        tried := tried + [name];
        return result.value, tried;
      }
      LoseStep(b, html, names, i, tried);
      tried := tried + [name];
    }
    assert names[|names|..] == [];
    content := ExtractByBody(b, html);
  }

  // ---------------------------------------------------------------------
  // What the pipeline promises

  /** The first winning name decides the result: its strategy's result when
      there is one, nothing otherwise. */
  lemma {:induction false} ScanIsFirstWin(b: Backends, html: string, names: seq<string>)
    ensures var i := FirstWin(b, html, names);
            Scan(b, html, names) == if i < |names| then Strategy(b, html, names[i]) else None
  {
    if names != [] && !Wins(b, html, names[0]) {
      ScanIsFirstWin(b, html, names[1..]);
    }
  }

  /** A result of the pipeline is always an accepted one, and it comes from a
      name in the list. */
  lemma ScanAccepted(b: Backends, html: string, names: seq<string>)
    ensures Scan(b, html, names).Some? ==> Accepted(Scan(b, html, names))
    ensures Scan(b, html, names).None? <==> forall k :: 0 <= k < |names| ==> !Wins(b, html, names[k])
  {
    ScanIsFirstWin(b, html, names);
  }

  /** Unknown names change nothing: the pipeline over a list and over its
      known names agree. */
  lemma {:induction false} UnknownNamesIgnored(b: Backends, html: string, names: seq<string>)
    ensures Scan(b, html, KnownOnly(names)) == Scan(b, html, names)
    ensures Tried(b, html, KnownOnly(names)) == Tried(b, html, names)
  {
    if names != [] {
      UnknownNamesIgnored(b, html, names[1..]);
      if Known(names[0]) {
        assert ([names[0]] + KnownOnly(names[1..]))[1..] == KnownOnly(names[1..]);
      }
    }
  }

  /** The pipeline invokes exactly the known names up to and including the
      first winning one, and no strategy after it. */
  lemma {:induction false} TriedStopsAtFirstWin(b: Backends, html: string, names: seq<string>)
    ensures var i := FirstWin(b, html, names);
            Tried(b, html, names) == KnownOnly(if i < |names| then names[..i + 1] else names)
  {
    if names != [] {
      TriedStopsAtFirstWin(b, html, names[1..]);
      var i := FirstWin(b, html, names);
      if i > 0 {
        var rest := names[1..];
        if i < |names| {
          assert names[..i + 1][1..] == rest[..i];
        } else {
          assert names[1..] == rest;
        }
      } else {
        assert names[..1][1..] == [];
      }
    }
  }

  /** When no name wins, the body fallback is the answer. */
  lemma FallbackToBody(b: Backends, html: string, extractors: Option<seq<string>>)
    requires forall k :: 0 <= k < |Order(extractors)| ==> !Wins(b, html, Order(extractors)[k])
    ensures MainContent(b, html, extractors) == ExtractByBody(b, html)
  {
    ScanAccepted(b, html, Order(extractors));
  }

  /** An empty list is not the absent list: no strategy runs and the body
      fallback answers at once. */
  lemma EmptyListGoesToBody(b: Backends, html: string)
    ensures MainContent(b, html, Some([])) == ExtractByBody(b, html)
    ensures Tried(b, html, Order(Some([]))) == []
  {
  }

  /** With the default order, trafilatura's result wins whenever it is
      accepted, and readability is consulted only when it is not. */
  lemma DefaultPrefersTrafilatura(b: Backends, html: string)
    ensures Accepted(ByTrafilatura(b, html)) ==>
              MainContent(b, html, None) == ByTrafilatura(b, html).value &&
              Tried(b, html, Order(None)) == ["trafilatura"]
    ensures !Accepted(ByTrafilatura(b, html)) && Accepted(ByReadability(b, html)) ==>
              MainContent(b, html, None) == ByReadability(b, html).value &&
              Tried(b, html, Order(None)) == ["trafilatura", "readability"]
  {
    var names := Order(None);
    assert names[0] == "trafilatura" && names[1] == "readability";
    assert Strategy(b, html, names[0]) == ByTrafilatura(b, html);
    assert Strategy(b, html, names[1]) == ByReadability(b, html);
    PipelineStep(b, html, names, 0);
    PipelineStep(b, html, names, 1);
    assert names[0..] == names;
  }

  /** Inside the pipeline the name `newspaper` is not known: with the list
      `["newspaper", "xpath"]` only the selector strategy runs. */
  lemma NewspaperAliasSkipped(b: Backends, html: string)
    ensures Tried(b, html, ["newspaper", "xpath"]) == ["xpath"]
    ensures Scan(b, html, ["newspaper", "xpath"]) ==
            (if Accepted(SelectorScan(b, html, Selectors)) then SelectorScan(b, html, Selectors) else None)
  {
    var names := ["newspaper", "xpath"];
    assert !Known(names[0]) && Known(names[1]);
    assert Strategy(b, html, names[1]) == SelectorScan(b, html, Selectors);
    PipelineStep(b, html, names, 0);
    PipelineStep(b, html, names, 1);
    assert names[0..] == names && names[2..] == [];
  }
}
