/** Fetching a page, collecting its links, and the breadth-first crawl that
    stays inside the base URL's directory and depth limit. The network is a
    `Web` value that says what each URL answers. */
module Crawler {
  import opened Wrappers
  import opened UrlScope
  import opened Extraction
  import opened Persister

  /** What the network and the HTML parser answer. */
  datatype Web = Web(
    /** The body of a successful GET; `None` on a request error or an error status. */
    fetch: string -> Option<string>,
    /** The `href` of every `<a href>` of a page, in document order; `None`
        when parsing raises. */
    hrefs: string -> Option<seq<string>>,
    /** `urljoin(page, href)`; `None` when it raises (a malformed IPv6
        host, for one). */
    urljoin: (string, string) -> Option<string>
  )

  /** How pages are saved while crawling. */
  datatype Settings = Settings(outputDir: Option<string>, skipExisting: bool, extractors: Option<seq<string>>)

  /** The normalized absolute form of every link on a page; nothing when the
      page cannot be fetched or parsed, or when one of its `href`s cannot be
      joined. */
  function PageLinks(web: Web, url: string): set<string> {
    match web.fetch(url)
    case None => {}
    case Some(body) =>
      match web.hrefs(body)
      case None => {}
      case Some(hs) =>
        match LinkSet(web, url, hs)
        case None => {}
        case Some(links) => links
  }

  /** `normalize_url(urljoin(url, href))`; `None` when `urljoin` raises. */
  function Resolve(web: Web, url: string): string -> Option<string> {
    href => match web.urljoin(url, href)
            case None => None
            case Some(absolute) => Some(NormalizeString(absolute))
  }

  /** `f` has an answer for every element of `hs`. */
  predicate AllSome(f: string -> Option<string>, hs: seq<string>) {
    forall k :: 0 <= k < |hs| ==> f(hs[k]).Some?
  }

  /** What `f` makes of each element of `hs`. */
  function Image(f: string -> Option<string>, hs: seq<string>): set<string>
    requires AllSome(f, hs)
  {
    set k | 0 <= k < |hs| :: f(hs[k]).value
  }

  lemma ImagePush(f: string -> Option<string>, hs: seq<string>, k: nat)
    requires k < |hs| && AllSome(f, hs[..k]) && f(hs[k]).Some?
    ensures AllSome(f, hs[..k + 1])
    ensures Image(f, hs[..k + 1]) == Image(f, hs[..k]) + {f(hs[k]).value}
  {
    var n := hs[..k + 1];
    assert n[k] == hs[k];
    forall j | 0 <= j < k ensures n[j] == hs[..k][j] {
    }
  }

  /** The links of a page whose anchors are `hs`: `None` when one `urljoin`
      raises, since the exception abandons the whole page. */
  function LinkSet(web: Web, url: string, hs: seq<string>): Option<set<string>> {
    var resolve := Resolve(web, url);
    if AllSome(resolve, hs) then Some(Image(resolve, hs)) else None
  }

  /** The anchor loop of `fetch_links_from_page`, up to the first `href`
      that cannot be joined. */
  method CollectLinks(web: Web, url: string, hs: seq<string>) returns (links: Option<set<string>>)
    ensures links == LinkSet(web, url, hs)
  {
    var resolve := Resolve(web, url);
    var acc := {};
    for k := 0 to |hs|
      invariant AllSome(resolve, hs[..k])
      invariant acc == Image(resolve, hs[..k])
    {
      var normalized := resolve(hs[k]);
      if normalized.None? {
        return None;
      }
      ImagePush(resolve, hs, k);
      acc := acc + {normalized.value};
    }
    assert hs[..|hs|] == hs;
    links := Some(acc);
  }

  /** One `href` that cannot be joined costs the page all its links, even
      those that could. */
  lemma BadHrefLosesPage(web: Web, url: string, body: string, hs: seq<string>, k: nat)
    requires web.fetch(url) == Some(body) && web.hrefs(body) == Some(hs)
    requires k < |hs| && web.urljoin(url, hs[k]).None?
    ensures PageLinks(web, url) == {}
  {
    assert Resolve(web, url)(hs[k]).None?;
  }

  /** When every `href` joins, the page's links are exactly their normalized
      joins. */
  lemma LinksOfJoinedPage(web: Web, url: string, body: string, hs: seq<string>, l: string)
    requires web.fetch(url) == Some(body) && web.hrefs(body) == Some(hs)
    requires forall k :: 0 <= k < |hs| ==> web.urljoin(url, hs[k]).Some?
    ensures l in PageLinks(web, url) <==>
            exists k :: 0 <= k < |hs| && l == NormalizeString(web.urljoin(url, hs[k]).value)
  {
    var resolve := Resolve(web, url);
    assert AllSome(resolve, hs) by {
      forall k | 0 <= k < |hs| ensures resolve(hs[k]).Some? {
        ResolveJoined(web, url, hs[k]);
      }
    }
    PageLinksOf(web, url, body, hs);
    assert PageLinks(web, url) == Image(resolve, hs);
    if l in PageLinks(web, url) {
      var k :| 0 <= k < |hs| && l == resolve(hs[k]).value;
      ResolveJoined(web, url, hs[k]);
    }
    if exists k :: 0 <= k < |hs| && l == NormalizeString(web.urljoin(url, hs[k]).value) {
      var k :| 0 <= k < |hs| && l == NormalizeString(web.urljoin(url, hs[k]).value);
      ResolveJoined(web, url, hs[k]);
      assert l == resolve(hs[k]).value;
    }
  }

  lemma ResolveJoined(web: Web, url: string, href: string)
    requires web.urljoin(url, href).Some?
    ensures Resolve(web, url)(href) == Some(NormalizeString(web.urljoin(url, href).value))
  {
  }

  /** The store after fetching `url`: the page is saved only when it was
      fetched and an output directory is given. */
  function FetchSave(files: map<FilePath, string>, web: Web, b: Backends, url: string, settings: Settings,
                     writable: FilePath -> bool): map<FilePath, string>
  {
    match web.fetch(url)
    case Some(body) =>
      if settings.outputDir.Some? then
        SaveSpec(files, b, url, body, settings.outputDir.value, settings.skipExisting, settings.extractors, writable)
      else files
    case None => files
  }

  /** `fetch_links_from_page`: fetch, save when asked, then collect the
      links. */
  method FetchLinksFromPage(web: Web, b: Backends, url: string, settings: Settings,
                            writable: FilePath -> bool, store: FileStore)
    returns (links: set<string>)
    modifies store
    ensures links == PageLinks(web, url)
    ensures store.files == FetchSave(old(store.files), web, b, url, settings, writable)
  {
    var response := web.fetch(url);
    if response.None? {
      return {};
    }
    var body := response.value;
    if settings.outputDir.Some? {
      store.SavePage(b, url, body, settings.outputDir.value, settings.skipExisting, settings.extractors, writable);
    }
    var anchors := web.hrefs(body);
    if anchors.None? {
      return {};
    }
    var collected := CollectLinks(web, url, anchors.value);
    PageLinksOf(web, url, body, anchors.value);
    if collected.None? {
      return {};
    }
    links := collected.value;
  }

  lemma PageLinksOf(web: Web, url: string, body: string, hs: seq<string>)
    requires web.fetch(url) == Some(body) && web.hrefs(body) == Some(hs)
    ensures PageLinks(web, url) == if LinkSet(web, url, hs).Some? then LinkSet(web, url, hs).value else {}
  {
  }

  /** With no output directory, fetching saves nothing. */
  lemma FetchWithoutOutputSavesNothing(files: map<FilePath, string>, web: Web, b: Backends, url: string,
                                       settings: Settings, writable: FilePath -> bool)
    requires settings.outputDir.None?
    ensures FetchSave(files, web, b, url, settings, writable) == files
  {
  }

  /** With `skipExisting`, fetching never changes a file that was there. */
  lemma FetchKeepsExisting(files: map<FilePath, string>, web: Web, b: Backends, url: string,
                           settings: Settings, writable: FilePath -> bool)
    requires settings.skipExisting
    ensures KeepsFiles(files, FetchSave(files, web, b, url, settings, writable))
  {
    if web.fetch(url).Some? && settings.outputDir.Some? {
      var body := web.fetch(url).value;
      var p := UrlToFilepath(url, settings.outputDir.value);
      var text := SavedText(b, body, url, settings.extractors);
      StoreSkipKeepsExisting(files, p, text, writable);
    }
  }

  /** What fetching one URL does to the store. */
  function Saver(web: Web, b: Backends, settings: Settings, writable: FilePath -> bool)
    : (map<FilePath, string>, string) -> map<FilePath, string>
  {
    (files, url) => FetchSave(files, web, b, url, settings, writable)
  }

  /** The store after `step` is applied for each of `urls` in turn. */
  function Fold(files: map<FilePath, string>, step: (map<FilePath, string>, string) -> map<FilePath, string>,
                urls: seq<string>): map<FilePath, string>
  {
    if urls == [] then files else step(Fold(files, step, urls[..|urls| - 1]), urls[|urls| - 1])
  }

  /** The store after fetching each of `urls` in turn. */
  function SaveAll(files: map<FilePath, string>, web: Web, b: Backends, settings: Settings,
                   writable: FilePath -> bool, urls: seq<string>): map<FilePath, string>
  {
    Fold(files, Saver(web, b, settings, writable), urls)
  }

  lemma SaveAllPush(files: map<FilePath, string>, web: Web, b: Backends, settings: Settings,
                    writable: FilePath -> bool, urls: seq<string>, url: string)
    ensures SaveAll(files, web, b, settings, writable, urls + [url]) ==
            FetchSave(SaveAll(files, web, b, settings, writable, urls), web, b, url, settings, writable)
  {
    assert (urls + [url])[..|urls|] == urls;
  }

  /** A step that changes nothing, repeated, changes nothing. */
  lemma {:induction false} FoldUnchanged(files: map<FilePath, string>,
                                         step: (map<FilePath, string>, string) -> map<FilePath, string>,
                                         urls: seq<string>)
    requires forall f, u :: u in urls ==> step(f, u) == f
    ensures Fold(files, step, urls) == files
  {
    if urls != [] {
      FoldUnchanged(files, step, urls[..|urls| - 1]);
      assert urls[|urls| - 1] in urls;
    }
  }

  /** A step that keeps every file, repeated, keeps every file. */
  lemma {:induction false} FoldKeeps(files: map<FilePath, string>,
                                     step: (map<FilePath, string>, string) -> map<FilePath, string>,
                                     urls: seq<string>)
    requires forall f, u :: u in urls ==> KeepsFiles(f, step(f, u))
    ensures KeepsFiles(files, Fold(files, step, urls))
  {
    if urls != [] {
      var before := Fold(files, step, urls[..|urls| - 1]);
      FoldKeeps(files, step, urls[..|urls| - 1]);
      assert urls[|urls| - 1] in urls;
      KeepsFilesTrans(files, before, step(before, urls[|urls| - 1]));
    }
  }

  /** A step that leaves `q` alone, repeated, leaves `q` alone. */
  lemma {:induction false} FoldSameAt(files: map<FilePath, string>,
                                      step: (map<FilePath, string>, string) -> map<FilePath, string>,
                                      urls: seq<string>, q: FilePath)
    requires forall f, u :: u in urls ==> SameAt(f, step(f, u), q)
    ensures SameAt(files, Fold(files, step, urls), q)
  {
    if urls != [] {
      FoldSameAt(files, step, urls[..|urls| - 1], q);
      assert urls[|urls| - 1] in urls;
    }
  }

  /** `q` holds in `after` what it held in `before`, or is absent from both. */
  predicate SameAt(before: map<FilePath, string>, after: map<FilePath, string>, q: FilePath) {
    (q in after <==> q in before) && (q in before ==> after[q] == before[q])
  }

  /** With no output directory, a crawl saves nothing. */
  lemma SaveAllWithoutOutput(files: map<FilePath, string>, web: Web, b: Backends,
                             settings: Settings, writable: FilePath -> bool, urls: seq<string>)
    requires settings.outputDir.None?
    ensures SaveAll(files, web, b, settings, writable, urls) == files
  {
    var step := Saver(web, b, settings, writable);
    forall f, u | u in urls ensures step(f, u) == f {
      FetchWithoutOutputSavesNothing(f, web, b, u, settings, writable);
    }
    FoldUnchanged(files, step, urls);
  }

  /** With `skipExisting`, a crawl changes no file that was there before it. */
  lemma SaveAllKeepsExisting(files: map<FilePath, string>, web: Web, b: Backends,
                             settings: Settings, writable: FilePath -> bool, urls: seq<string>)
    requires settings.skipExisting
    ensures KeepsFiles(files, SaveAll(files, web, b, settings, writable, urls))
  {
    var step := Saver(web, b, settings, writable);
    forall f, u | u in urls ensures KeepsFiles(f, step(f, u)) {
      FetchKeepsExisting(f, web, b, u, settings, writable);
    }
    FoldKeeps(files, step, urls);
  }

  /** A crawl touches only the files of the pages it fetched. */
  lemma SaveAllTouchesOnlyFetched(files: map<FilePath, string>, web: Web, b: Backends,
                                  settings: Settings, writable: FilePath -> bool,
                                  urls: seq<string>, q: FilePath)
    requires settings.outputDir.Some?
    requires forall u :: u in urls ==> UrlToFilepath(u, settings.outputDir.value) != q
    ensures SameAt(files, SaveAll(files, web, b, settings, writable, urls), q)
  {
    var step := Saver(web, b, settings, writable);
    forall f, u | u in urls ensures SameAt(f, step(f, u), q) {
      FetchTouchesOnlyPage(f, web, b, u, settings, writable, q);
    }
    FoldSameAt(files, step, urls, q);
  }

  lemma FetchTouchesOnlyPage(files: map<FilePath, string>, web: Web, b: Backends, url: string,
                             settings: Settings, writable: FilePath -> bool, q: FilePath)
    requires settings.outputDir.Some? && UrlToFilepath(url, settings.outputDir.value) != q
    ensures SameAt(files, FetchSave(files, web, b, url, settings, writable), q)
  {
    if web.fetch(url).Some? {
      StoreTouchesOnlyTarget(files, UrlToFilepath(url, settings.outputDir.value),
                             SavedText(b, web.fetch(url).value, url, settings.extractors),
                             settings.skipExisting, writable, q);
    }
  }

  /** A page that cannot be fetched has no links. */
  lemma UnreachablePageHasNoLinks(web: Web, url: string)
    requires web.fetch(url).None?
    ensures PageLinks(web, url) == {}
  {
  }

  // ---------------------------------------------------------------------
  // scrape_links

  /** `is_child_path(base, link)` on URL strings. */
  predicate InScope(base: string, link: string) {
    IsChildPath(Parse(base), Parse(link))
  }

  /** `calculate_depth(base, link)` on URL strings. */
  function Depth(base: string, link: string): int {
    CalculateDepth(Parse(base), Parse(link))
  }

  /** A link the crawl queues: inside the scope and, unless the depth is
      unlimited (`-1`), no deeper than the limit. */
  predicate Eligible(base: string, maxDepth: int, link: string) {
    InScope(base, link) && (maxDepth == -1 || Depth(base, link) <= maxDepth)
  }

  /** The depth a page is crawled at: 0 for the base, its computed depth for
      every other page. */
  function Level(base: string, u: string): int {
    if u == base then 0 else Depth(base, u)
  }

  /** A page whose links the crawl follows: the depth is unlimited, or the
      page lies above the limit. */
  predicate Expanded(base: string, maxDepth: int, u: string) {
    maxDepth == -1 || Level(base, u) < maxDepth
  }

  function Urls(queue: seq<(string, int)>): set<string> {
    set k | 0 <= k < |queue| :: queue[k].0
  }

  lemma UrlsPop(queue: seq<(string, int)>)
    requires queue != []
    ensures Urls(queue) == Urls(queue[1..]) + {queue[0].0}
  {
    var rest := queue[1..];
    forall x | x in Urls(queue) ensures x in Urls(rest) + {queue[0].0} {
      var k :| 0 <= k < |queue| && queue[k].0 == x;
      if k > 0 {
        assert rest[k - 1].0 == x;
      }
    }
    forall x | x in Urls(rest) ensures x in Urls(queue) {
      var k :| 0 <= k < |rest| && rest[k].0 == x;
      assert queue[k + 1].0 == x;
    }
  }

  lemma UrlsPush(queue: seq<(string, int)>, e: (string, int))
    ensures Urls(queue + [e]) == Urls(queue) + {e.0}
  {
    var q := queue + [e];
    assert q[|queue|].0 == e.0;
    forall x | x in Urls(queue) ensures x in Urls(q) {
      var k :| 0 <= k < |queue| && queue[k].0 == x;
      assert q[k].0 == x;
    }
  }

  /** What the crawl's bookkeeping needs to know of the site: the base, the
      links of each page, which links are eligible, the level of each page and
      which pages have their links followed. The invariants below are stated
      over a view so that they do not depend on how URLs are parsed. */
  datatype View = View(base: string, links: string -> set<string>, eligible: string -> bool,
                       level: string -> int, expanded: string -> bool)

  function ViewOf(web: Web, base: string, maxDepth: int): View {
    View(base, u => PageLinks(web, u), l => Eligible(base, maxDepth, l), u => Level(base, u),
         u => Expanded(base, maxDepth, u))
  }

  /** Every page is either the base or was found on a page whose links the
      crawl follows; `parent` names that page. */
  ghost predicate Discovered(v: View, visited: set<string>, parent: map<string, string>, u: string) {
    u == v.base || (u in parent && parent[u] in visited && v.expanded(parent[u]) && u in v.links(parent[u]))
  }

  /** A queue entry: the depth it carries is its level, it is the base or an
      eligible link, it lies in the universe, and it was discovered. */
  ghost predicate EntryOk(v: View, universe: set<string>, visited: set<string>, parent: map<string, string>,
                          e: (string, int))
  {
    && e.1 == v.level(e.0)
    && (e.0 == v.base || v.eligible(e.0))
    && e.0 in universe
    && Discovered(v, visited, parent, e.0)
  }

  ghost predicate QueueOk(v: View, universe: set<string>, visited: set<string>, parent: map<string, string>,
                          queue: seq<(string, int)>)
  {
    forall k :: 0 <= k < |queue| ==> EntryOk(v, universe, visited, parent, queue[k])
  }

  /** A visited page is the base or an eligible link, lies in the universe,
      and was discovered. */
  ghost predicate PageOk(v: View, universe: set<string>, visited: set<string>, parent: map<string, string>,
                         u: string)
  {
    && (u == v.base || v.eligible(u))
    && u in universe
    && Discovered(v, visited, parent, u)
  }

  ghost predicate VisitedOk(v: View, universe: set<string>, visited: set<string>, parent: map<string, string>) {
    forall u {:trigger PageOk(v, universe, visited, parent, u)} :: u in visited ==> PageOk(v, universe, visited, parent, u)
  }

  /** Every eligible link of an expanded, visited page outside `except` is
      visited or waiting in the queue. */
  ghost predicate Closed(v: View, visited: set<string>, queue: seq<(string, int)>, except: set<string>) {
    forall u, l :: (u in visited && u !in except && v.expanded(u) && l in v.links(u) && v.eligible(l)) ==>
                   l in visited || l in Urls(queue)
  }

  ghost predicate Distinct(s: seq<string>) {
    forall i, j :: 0 <= i < j < |s| ==> s[i] != s[j]
  }

  /** The URLs a sequence lists. */
  function Members(s: seq<string>): set<string> {
    set x | x in s
  }

  /** Appending a URL not yet listed keeps the list free of repetitions and
      adds it to the listed URLs. */
  lemma FetchedPush(fetched: seq<string>, current: string)
    requires Distinct(fetched) && current !in Members(fetched)
    ensures Distinct(fetched + [current])
    ensures Members(fetched + [current]) == Members(fetched) + {current}
  {
    var s := fetched + [current];
    forall i, j | 0 <= i < j < |s| ensures s[i] != s[j] {
      if j == |fetched| {
        assert s[i] == fetched[i];
        assert fetched[i] in Members(fetched);
      } else {
        assert s[i] == fetched[i] && s[j] == fetched[j];
      }
    }
  }

  /** A list without repetitions has as many entries as it lists URLs. */
  lemma {:induction false} DistinctCount(s: seq<string>)
    requires Distinct(s)
    ensures |Members(s)| == |s|
  {
    if s != [] {
      var init := s[..|s| - 1];
      assert s == init + [s[|s| - 1]];
      assert Distinct(init) by {
        forall i, j | 0 <= i < j < |init| ensures init[i] != init[j] {
          assert init[i] == s[i] && init[j] == s[j];
        }
      }
      DistinctCount(init);
      assert s[|s| - 1] !in Members(init) by {
        forall i | 0 <= i < |init| ensures init[i] != s[|s| - 1] {
          assert init[i] == s[i];
        }
      }
      assert Members(s) == Members(init) + {s[|s| - 1]};
    }
  }

  lemma DiscoveredGrows(v: View, visited: set<string>, visited': set<string>, parent: map<string, string>, u: string)
    requires visited <= visited'
    requires Discovered(v, visited, parent, u)
    ensures Discovered(v, visited', parent, u)
  {
  }

  /** Popping an entry that was already visited keeps every invariant. */
  lemma SkipKeeps(v: View, universe: set<string>, visited: set<string>, parent: map<string, string>,
                  queue: seq<(string, int)>)
    requires queue != [] && queue[0].0 in visited
    requires QueueOk(v, universe, visited, parent, queue)
    requires Closed(v, visited, queue, {})
    ensures QueueOk(v, universe, visited, parent, queue[1..])
    ensures Closed(v, visited, queue[1..], {})
  {
    UrlsPop(queue);
    forall k | 0 <= k < |queue| - 1
      ensures EntryOk(v, universe, visited, parent, queue[1..][k])
    {
      assert queue[1..][k] == queue[k + 1];
    }
  }

  /** Visiting the front entry keeps every invariant, except that the links
      of the page just visited are still to be queued. */
  lemma VisitKeeps(v: View, universe: set<string>, visited: set<string>, parent: map<string, string>,
                   queue: seq<(string, int)>)
    requires queue != [] && queue[0].0 !in visited
    requires QueueOk(v, universe, visited, parent, queue)
    requires VisitedOk(v, universe, visited, parent)
    requires Closed(v, visited, queue, {})
    ensures var visited' := visited + {queue[0].0};
            && QueueOk(v, universe, visited', parent, queue[1..])
            && VisitedOk(v, universe, visited', parent)
            && Closed(v, visited', queue[1..], {queue[0].0})
            && queue[0].1 == v.level(queue[0].0)
            && queue[0].0 in universe
  {
    var visited' := visited + {queue[0].0};
    UrlsPop(queue);
    assert EntryOk(v, universe, visited, parent, queue[0]);
    forall k | 0 <= k < |queue| - 1
      ensures EntryOk(v, universe, visited', parent, queue[1..][k])
    {
      assert queue[1..][k] == queue[k + 1];
      assert EntryOk(v, universe, visited, parent, queue[k + 1]);
      DiscoveredGrows(v, visited, visited', parent, queue[k + 1].0);
    }
    forall u | u in visited'
      ensures PageOk(v, universe, visited', parent, u)
    {
      if u in visited {
        assert PageOk(v, universe, visited, parent, u);
      }
      DiscoveredGrows(v, visited, visited', parent, u);
    }
  }

  /** Queueing `link`, found on the expanded, visited page `current`, keeps
      every entry and every visited page discovered. */
  lemma PushKeeps(v: View, universe: set<string>, visited: set<string>, parent: map<string, string>,
                  queue: seq<(string, int)>, current: string, link: string, depth: int)
    requires QueueOk(v, universe, visited, parent, queue)
    requires VisitedOk(v, universe, visited, parent)
    requires current in visited && v.expanded(current) && link in v.links(current)
    requires link in universe
    requires link !in visited && v.base in visited
    requires v.eligible(link) && depth == v.level(link)
    ensures QueueOk(v, universe, visited, parent[link := current], queue + [(link, depth)])
    ensures VisitedOk(v, universe, visited, parent[link := current])
  {
    var parent' := parent[link := current];
    var q := queue + [(link, depth)];
    forall k | 0 <= k < |q|
      ensures EntryOk(v, universe, visited, parent', q[k])
    {
      if k < |queue| {
        assert q[k] == queue[k];
        assert EntryOk(v, universe, visited, parent, queue[k]);
      } else {
        assert q[k] == (link, depth);
      }
    }
    forall u | u in visited
      ensures PageOk(v, universe, visited, parent', u)
    {
      assert PageOk(v, universe, visited, parent, u);
      assert u != link;
    }
  }

  /** The view's eligibility and level agree with the crawl's definitions. */
  ghost predicate Judges(v: View, base: string, maxDepth: int) {
    && (forall l {:trigger Eligible(base, maxDepth, l)} :: v.eligible(l) == Eligible(base, maxDepth, l))
    && (forall l {:trigger Depth(base, l)} :: l != base ==> v.level(l) == Depth(base, l))
  }

  /** Every eligible link among `links` is visited or queued. */
  ghost predicate LinksQueued(v: View, visited: set<string>, links: set<string>, queue: seq<(string, int)>) {
    forall l :: l in links && v.eligible(l) ==> l in visited || l in Urls(queue)
  }

  /** The test `scrape_links` applies to each link: not yet visited, inside
      the scope, and within the depth limit; `depth` is the depth it is
      queued with. */
  method Admit(baseUrl: string, maxDepth: int, ghost v: View, visited: set<string>, link: string)
    returns (admit: bool, depth: int)
    requires Judges(v, baseUrl, maxDepth)
    requires baseUrl in visited
    ensures admit <==> link !in visited && v.eligible(link)
    ensures admit ==> depth == v.level(link)
  {
    admit := false;
    depth := 0;
    if link !in visited && InScope(baseUrl, link) {
      depth := Depth(baseUrl, link);
      if maxDepth == -1 || depth <= maxDepth {
        admit := true;
      }
    }
    assert v.eligible(link) == Eligible(baseUrl, maxDepth, link);
  }

  /** The links among `links` that the link loop queues: not visited, and
      eligible. */
  function Admitted(v: View, visited: set<string>, links: set<string>): set<string> {
    set l | l in links && l !in visited && v.eligible(l)
  }

  /** An entry the link loop appends: a link of the page, not visited,
      eligible, with its level as its depth. */
  predicate Appended(v: View, visited: set<string>, links: set<string>, e: (string, int)) {
    e.0 in links && e.0 !in visited && v.eligible(e.0) && e.1 == v.level(e.0)
  }

  /** No URL occurs twice among the entries. */
  ghost predicate DistinctUrls(q: seq<(string, int)>) {
    forall i, j :: 0 <= i < j < |q| ==> q[i].0 != q[j].0
  }

  lemma UrlsAppend(a: seq<(string, int)>, b: seq<(string, int)>)
    ensures Urls(a + b) == Urls(a) + Urls(b)
  {
    var q := a + b;
    forall x | x in Urls(q) ensures x in Urls(a) + Urls(b) {
      var k :| 0 <= k < |q| && q[k].0 == x;
      if k < |a| {
        assert a[k].0 == x;
      } else {
        assert b[k - |a|].0 == x;
      }
    }
    forall x | x in Urls(a) + Urls(b) ensures x in Urls(q) {
      if x in Urls(a) {
        var k :| 0 <= k < |a| && a[k].0 == x;
        assert q[k].0 == x;
      } else {
        var k :| 0 <= k < |b| && b[k].0 == x;
        assert q[|a| + k].0 == x;
      }
    }
  }

  /** Processing one more link adds it to the admitted links exactly when it
      is admitted. */
  lemma AdmittedStep(v: View, visited: set<string>, links: set<string>, remaining: set<string>, link: string)
    requires remaining <= links && link in remaining
    ensures Admitted(v, visited, links - (remaining - {link})) ==
            Admitted(v, visited, links - remaining) + (if link !in visited && v.eligible(link) then {link} else {})
  {
    assert links - (remaining - {link}) == (links - remaining) + {link};
  }

  /** Appending an admitted link not yet appended keeps the appended entries
      as they should be. */
  lemma AppendStep(v: View, visited: set<string>, links: set<string>, added: seq<(string, int)>, e: (string, int))
    requires forall k :: 0 <= k < |added| ==> Appended(v, visited, links, added[k])
    requires DistinctUrls(added) && e.0 !in Urls(added)
    requires Appended(v, visited, links, e)
    ensures forall k :: 0 <= k < |added + [e]| ==> Appended(v, visited, links, (added + [e])[k])
    ensures DistinctUrls(added + [e])
    ensures Urls(added + [e]) == Urls(added) + {e.0}
  {
    var q := added + [e];
    forall k | 0 <= k < |q| ensures Appended(v, visited, links, q[k]) {
      if k < |added| {
        assert q[k] == added[k];
      }
    }
    forall i, j | 0 <= i < j < |q| ensures q[i].0 != q[j].0 {
      assert q[i] == added[i];
      if j < |added| {
        assert q[j] == added[j];
      }
    }
    UrlsPush(added, e);
  }

  /** The state of the link loop: `added` is what it appended to `queue` so
      far, each entry once, and exactly the admitted links among those
      already processed. */
  ghost predicate LinkLoop(v: View, universe: set<string>, visited: set<string>, links: set<string>,
                           remaining: set<string>, queue: seq<(string, int)>, added: seq<(string, int)>,
                           queue': seq<(string, int)>, parent': map<string, string>)
  {
    && remaining <= links
    && queue' == queue + added
    && (forall k :: 0 <= k < |added| ==> Appended(v, visited, links, added[k]))
    && DistinctUrls(added)
    && Urls(added) == Admitted(v, visited, links - remaining)
    && QueueOk(v, universe, visited, parent', queue')
    && VisitedOk(v, universe, visited, parent')
  }

  lemma LinkAdmitStep(v: View, universe: set<string>, visited: set<string>, links: set<string>,
                      remaining: set<string>, queue: seq<(string, int)>, added: seq<(string, int)>,
                      queue': seq<(string, int)>, parent': map<string, string>, current: string,
                      link: string, depth: int)
    requires LinkLoop(v, universe, visited, links, remaining, queue, added, queue', parent')
    requires link in remaining && link !in visited && v.eligible(link) && depth == v.level(link)
    requires current in visited && v.expanded(current) && links == v.links(current)
    requires link in universe && v.base in visited
    ensures LinkLoop(v, universe, visited, links, remaining - {link}, queue, added + [(link, depth)],
                     queue' + [(link, depth)], parent'[link := current])
  {
    AdmittedStep(v, visited, links, remaining, link);
    PushKeeps(v, universe, visited, parent', queue', current, link, depth);
    AppendStep(v, visited, links, added, (link, depth));
    assert queue' + [(link, depth)] == queue + (added + [(link, depth)]);
  }

  lemma LinkSkipStep(v: View, universe: set<string>, visited: set<string>, links: set<string>,
                     remaining: set<string>, queue: seq<(string, int)>, added: seq<(string, int)>,
                     queue': seq<(string, int)>, parent': map<string, string>, link: string)
    requires LinkLoop(v, universe, visited, links, remaining, queue, added, queue', parent')
    requires link in remaining && !(link !in visited && v.eligible(link))
    ensures LinkLoop(v, universe, visited, links, remaining - {link}, queue, added, queue', parent')
  {
    AdmittedStep(v, visited, links, remaining, link);
  }

  lemma LinkLoopEnd(v: View, universe: set<string>, visited: set<string>, links: set<string>,
                    queue: seq<(string, int)>, added: seq<(string, int)>,
                    queue': seq<(string, int)>, parent': map<string, string>)
    requires LinkLoop(v, universe, visited, links, {}, queue, added, queue', parent')
    ensures |queue| <= |queue'| && queue'[..|queue|] == queue
    ensures forall k :: |queue| <= k < |queue'| ==> Appended(v, visited, links, queue'[k])
    ensures DistinctUrls(queue'[|queue|..])
    ensures Urls(queue'[|queue|..]) == Admitted(v, visited, links)
    ensures Urls(queue) <= Urls(queue')
    ensures LinksQueued(v, visited, links, queue')
  {
    assert queue'[..|queue|] == queue && queue'[|queue|..] == added;
    assert links - {} == links;
    forall k | |queue| <= k < |queue'| ensures Appended(v, visited, links, queue'[k]) {
      assert queue'[k] == added[k - |queue|];
    }
    UrlsAppend(queue, added);
  }

  /** The link loop of `scrape_links`: every eligible link of `current` not
      yet visited is appended to the queue, once, with its depth; what was
      queued before stays in front. */
  method EnqueueLinks(baseUrl: string, maxDepth: int, ghost v: View, ghost universe: set<string>,
                      visited: set<string>, current: string, links: set<string>, queue: seq<(string, int)>,
                      ghost parent: map<string, string>)
    returns (queue': seq<(string, int)>, ghost parent': map<string, string>)
    requires v.base == baseUrl && v.links(current) == links
    requires forall l :: l in links && v.eligible(l) ==> l in universe
    requires Judges(v, baseUrl, maxDepth)
    requires current in visited && baseUrl in visited && v.expanded(current)
    requires QueueOk(v, universe, visited, parent, queue)
    requires VisitedOk(v, universe, visited, parent)
    ensures QueueOk(v, universe, visited, parent', queue')
    ensures VisitedOk(v, universe, visited, parent')
    ensures |queue| <= |queue'| && queue'[..|queue|] == queue
    ensures forall k :: |queue| <= k < |queue'| ==> Appended(v, visited, links, queue'[k])
    ensures DistinctUrls(queue'[|queue|..])
    ensures Urls(queue'[|queue|..]) == Admitted(v, visited, links)
    ensures Urls(queue) <= Urls(queue')
    ensures LinksQueued(v, visited, links, queue')
  {
    queue' := queue;
    parent' := parent;
    ghost var added: seq<(string, int)> := [];
    var remaining := links;
    assert queue + added == queue;
    assert Admitted(v, visited, links - remaining) == {};
    while remaining != {}
      invariant LinkLoop(v, universe, visited, links, remaining, queue, added, queue', parent')
      decreases |remaining|
    {
      var link :| link in remaining;
      var admit, depth := Admit(baseUrl, maxDepth, v, visited, link);
      if admit {
        LinkAdmitStep(v, universe, visited, links, remaining, queue, added, queue', parent', current, link, depth);
        queue' := queue' + [(link, depth)];
        added := added + [(link, depth)];
        parent' := parent'[link := current];
      } else {
        LinkSkipStep(v, universe, visited, links, remaining, queue, added, queue', parent', link);
      }
      remaining := remaining - {link};
    }
    LinkLoopEnd(v, universe, visited, links, queue, added, queue', parent');
  }

  /** Once the links of `current` are queued, the queue is closed again. */
  lemma ClosedAgain(v: View, visited: set<string>, queue: seq<(string, int)>, queue': seq<(string, int)>,
                    current: string)
    requires Closed(v, visited, queue, {current})
    requires Urls(queue) <= Urls(queue')
    requires LinksQueued(v, visited, v.links(current), queue')
    ensures Closed(v, visited, queue', {})
  {
  }

  /** A page whose links are not followed has nothing to queue. */
  lemma ClosedUnexpanded(v: View, visited: set<string>, queue: seq<(string, int)>, current: string)
    requires Closed(v, visited, queue, {current})
    requires !v.expanded(current)
    ensures Closed(v, visited, queue, {})
  {
  }

  lemma VisitShrinks(universe: set<string>, visited: set<string>, current: string)
    requires current in universe && current !in visited
    ensures |universe - (visited + {current})| < |universe - visited|
  {
    var a := universe - visited;
    assert universe - (visited + {current}) == a - {current};
    assert a == (a - {current}) + {current};
  }

  /** What the invariants give once the queue is empty, over a view. */
  lemma ViewDone(v: View, universe: set<string>, visited: set<string>, parent: map<string, string>)
    requires v.base in visited
    requires VisitedOk(v, universe, visited, parent)
    requires Closed(v, visited, [], {})
    ensures forall u :: u in visited && u != v.base ==> v.eligible(u)
    ensures forall u, l :: (u in visited && v.expanded(u) && l in v.links(u) && v.eligible(l)) ==> l in visited
    ensures forall u :: u in visited && u != v.base ==>
              u in parent && parent[u] in visited && v.expanded(parent[u]) && u in v.links(parent[u])
  {
    assert Urls([]) == {};
    forall u | u in visited && u != v.base
      ensures v.eligible(u) && u in parent && parent[u] in visited && v.expanded(parent[u]) && u in v.links(parent[u])
    {
      assert PageOk(v, universe, visited, parent, u);
    }
  }

  /** `v` is the view of the site `web` from `base` with depth limit
      `maxDepth`: each of its parts agrees with the crawl's own definitions. */
  ghost predicate ViewMatches(web: Web, base: string, maxDepth: int, v: View) {
    && v.base == base
    && (forall u {:trigger PageLinks(web, u)} :: v.links(u) == PageLinks(web, u))
    && Judges(v, base, maxDepth)
    && v.level(base) == 0
    && (forall u {:trigger v.level(u)} :: v.level(u) >= 0)
    && (forall u {:trigger v.expanded(u)} :: v.expanded(u) == (maxDepth == -1 || v.level(u) < maxDepth))
  }

  lemma ViewOfMatches(web: Web, base: string, maxDepth: int)
    ensures ViewMatches(web, base, maxDepth, ViewOf(web, base, maxDepth))
  {
    var v := ViewOf(web, base, maxDepth);
    forall u ensures v.level(u) >= 0 {
      assert Level(base, u) >= 0;
    }
  }

  /** What the invariants give once the queue is empty, in the crawl's terms. */
  lemma CrawlDone(web: Web, base: string, maxDepth: int, v: View, universe: set<string>, visited: set<string>,
                  parent: map<string, string>)
    requires ViewMatches(web, base, maxDepth, v)
    requires base in visited
    requires VisitedOk(v, universe, visited, parent)
    requires Closed(v, visited, [], {})
    ensures forall u :: u in visited && u != base ==> Eligible(base, maxDepth, u)
    ensures forall u, l :: (u in visited && Expanded(base, maxDepth, u) && l in PageLinks(web, u) &&
                            Eligible(base, maxDepth, l)) ==> l in visited
    ensures forall u :: u in visited && u != base ==>
              exists w :: w in visited && Expanded(base, maxDepth, w) && u in PageLinks(web, w)
    ensures maxDepth != -1 && maxDepth <= 0 ==> visited == {base}
  {
    ViewDone(v, universe, visited, parent);
    ViewExpanded(web, base, maxDepth, v);
    forall u | u in visited && u != base
      ensures Eligible(base, maxDepth, u)
      ensures exists w :: w in visited && Expanded(base, maxDepth, w) && u in PageLinks(web, w)
    {
      assert v.eligible(u);
      var w := parent[u];
      assert v.expanded(w) && u in v.links(w);
    }
    forall u, l | u in visited && Expanded(base, maxDepth, u) && l in PageLinks(web, u) && Eligible(base, maxDepth, l)
      ensures l in visited
    {
      assert v.expanded(u) && l in v.links(u) && v.eligible(l);
    }
    if maxDepth != -1 && maxDepth <= 0 {
      forall w ensures !v.expanded(w) {
        assert v.level(w) >= 0;
      }
    }
  }

  /** One page of the crawl: `fetch_links_from_page`, with what its change to
      the store means for the files already saved. */
  method Visit(web: Web, b: Backends, url: string, settings: Settings, writable: FilePath -> bool,
               store: FileStore)
    returns (links: set<string>)
    modifies store
    ensures links == PageLinks(web, url)
    ensures store.files == FetchSave(old(store.files), web, b, url, settings, writable)
    ensures settings.outputDir.None? ==> store.files == old(store.files)
    ensures settings.skipExisting ==> KeepsFiles(old(store.files), store.files)
  {
    ghost var filesBefore := store.files;
    links := FetchLinksFromPage(web, b, url, settings, writable, store);
    if settings.outputDir.None? {
      FetchWithoutOutputSavesNothing(filesBefore, web, b, url, settings, writable);
    }
    if settings.skipExisting {
      FetchKeepsExisting(filesBefore, web, b, url, settings, writable);
    }
  }

  /** The page fetched `i`-th was found on a page fetched before it whose
      links the crawl follows. */
  ghost predicate FoundBefore(v: View, fetched: seq<string>, i: int) {
    0 < i < |fetched| && exists j :: 0 <= j < i && v.expanded(fetched[j]) && fetched[i] in v.links(fetched[j])
  }

  /** Every fetched page but the first was found on an earlier one. */
  ghost predicate Ordered(v: View, fetched: seq<string>) {
    forall i {:trigger FoundBefore(v, fetched, i)} :: 0 < i < |fetched| ==> FoundBefore(v, fetched, i)
  }

  lemma OrderedPush(v: View, fetched: seq<string>, current: string, w: string)
    requires Ordered(v, fetched)
    requires fetched != [] ==> w in Members(fetched) && v.expanded(w) && current in v.links(w)
    ensures Ordered(v, fetched + [current])
  {
    var s := fetched + [current];
    forall i | 0 < i < |s| ensures FoundBefore(v, s, i) {
      if i < |fetched| {
        assert FoundBefore(v, fetched, i);
        var j :| 0 <= j < i && v.expanded(fetched[j]) && fetched[i] in v.links(fetched[j]);
        assert s[j] == fetched[j] && s[i] == fetched[i];
      } else {
        var j :| 0 <= j < |fetched| && fetched[j] == w;
        assert s[j] == w && s[i] == current;
      }
    }
  }

  /** The state of the crawl between two pages: `fetched` lists the visited
      pages without repetition, the base first; the queue starts as the base
      alone; every entry and every visited page is as it should be; and every
      eligible link of an expanded, visited page is visited or queued. */
  ghost predicate Frontier(v: View, universe: set<string>, visited: set<string>, fetched: seq<string>,
                           parent: map<string, string>, queue: seq<(string, int)>)
  {
    && visited <= universe
    && visited == Members(fetched)
    && Distinct(fetched)
    && (fetched == [] ==> queue == [(v.base, 0)])
    && (fetched != [] ==> v.base in visited && fetched[0] == v.base)
    && Ordered(v, fetched)
    && QueueOk(v, universe, visited, parent, queue)
    && VisitedOk(v, universe, visited, parent)
    && Closed(v, visited, queue, {})
  }

  /** The state just after `current` is visited: as `Frontier`, except that
      the links of `current` are yet to be queued. */
  ghost predicate Pending(v: View, universe: set<string>, visited: set<string>, fetched: seq<string>,
                          parent: map<string, string>, queue: seq<(string, int)>, current: string)
  {
    && visited <= universe
    && visited == Members(fetched)
    && Distinct(fetched)
    && v.base in visited && fetched[0] == v.base
    && Ordered(v, fetched)
    && current in visited
    && QueueOk(v, universe, visited, parent, queue)
    && VisitedOk(v, universe, visited, parent)
    && Closed(v, visited, queue, {current})
  }

  lemma StartStep(v: View, universe: set<string>)
    requires v.base in universe && v.level(v.base) == 0
    ensures Frontier(v, universe, {}, [], map[], [(v.base, 0)])
  {
    var queue := [(v.base, 0)];
    assert EntryOk(v, universe, {}, map[], queue[0]);
    assert Members([]) == {};
  }

  lemma SkipStep(v: View, universe: set<string>, visited: set<string>, fetched: seq<string>,
                 parent: map<string, string>, queue: seq<(string, int)>, origin: seq<int>)
    requires Frontier(v, universe, visited, fetched, parent, queue)
    requires Breadth(v, visited, fetched, queue, origin, |fetched|)
    requires queue != [] && queue[0].0 in visited
    ensures Frontier(v, universe, visited, fetched, parent, queue[1..])
    ensures Breadth(v, visited, fetched, queue[1..], origin[1..], |fetched|)
  {
    SkipKeeps(v, universe, visited, parent, queue);
    assert queue[0].0 in fetched;
    BreadthSkip(v, visited, fetched, queue, origin, |fetched|);
  }

  lemma VisitStep(v: View, universe: set<string>, visited: set<string>, fetched: seq<string>,
                  parent: map<string, string>, queue: seq<(string, int)>, origin: seq<int>)
    requires Frontier(v, universe, visited, fetched, parent, queue)
    requires Breadth(v, visited, fetched, queue, origin, |fetched|)
    requires queue != [] && queue[0].0 !in visited
    ensures var current := queue[0].0;
            && Pending(v, universe, visited + {current}, fetched + [current], parent, queue[1..], current)
            && Breadth(v, visited + {current}, fetched + [current], queue[1..], origin[1..], |fetched|)
            && queue[0].1 == v.level(current)
            && |universe - (visited + {current})| < |universe - visited|
  {
    var current := queue[0].0;
    assert EntryOk(v, universe, visited, parent, queue[0]);
    BreadthVisit(v, visited, fetched, queue, origin);
    VisitKeeps(v, universe, visited, parent, queue);
    VisitShrinks(universe, visited, current);
    FetchedPush(fetched, current);
    if fetched == [] {
      assert current == v.base;
      OrderedPush(v, fetched, current, current);
    } else {
      assert (fetched + [current])[0] == fetched[0];
      assert EntryOk(v, universe, visited, parent, queue[0]);
      OrderedPush(v, fetched, current, parent[current]);
    }
  }

  lemma LeafStep(v: View, universe: set<string>, visited: set<string>, fetched: seq<string>,
                 parent: map<string, string>, queue: seq<(string, int)>, current: string)
    requires Pending(v, universe, visited, fetched, parent, queue, current)
    requires !v.expanded(current)
    ensures Frontier(v, universe, visited, fetched, parent, queue)
  {
    ClosedUnexpanded(v, visited, queue, current);
  }

  lemma ExpandStep(v: View, universe: set<string>, visited: set<string>, fetched: seq<string>,
                   parent: map<string, string>, queue: seq<(string, int)>, current: string,
                   parent': map<string, string>, queue': seq<(string, int)>)
    requires Pending(v, universe, visited, fetched, parent, queue, current)
    requires QueueOk(v, universe, visited, parent', queue')
    requires VisitedOk(v, universe, visited, parent')
    requires Urls(queue) <= Urls(queue')
    requires LinksQueued(v, visited, v.links(current), queue')
    ensures Frontier(v, universe, visited, fetched, parent', queue')
  {
    ClosedAgain(v, visited, queue, queue', current);
  }

  /** Once the queue is empty, the base was visited and every page was
      fetched once. */
  lemma EndStep(v: View, universe: set<string>, visited: set<string>, fetched: seq<string>,
                parent: map<string, string>)
    requires Frontier(v, universe, visited, fetched, parent, [])
    ensures v.base in visited && visited <= universe
    ensures VisitedOk(v, universe, visited, parent) && Closed(v, visited, [], {})
    ensures |fetched| == |visited| && Distinct(fetched) && fetched[0] == v.base
    ensures visited == Members(fetched)
    ensures Ordered(v, fetched)
  {
    DistinctCount(fetched);
  }

  /** What the crawl may do to the saved files: nothing without an output
      directory, and keep every existing file with `skipExisting`. */
  ghost predicate FilesOk(settings: Settings, before: map<FilePath, string>, after: map<FilePath, string>) {
    && (settings.outputDir.None? ==> after == before)
    && (settings.skipExisting ==> KeepsFiles(before, after))
  }

  /** `page` is a page whose links are followed, and `u` is one of them. */
  ghost predicate Finds(v: View, page: string, u: string) {
    v.expanded(page) && u in v.links(page)
  }

  /** `u` is a link of a followed page among `fetched[0..j]`. */
  ghost predicate FoundUpTo(v: View, fetched: seq<string>, u: string, j: int) {
    exists j' :: 0 <= j' <= j && j' < |fetched| && Finds(v, fetched[j'], u)
  }

  /** Pages `i` and `k` were fetched in breadth-first order: any followed page
      before `i` that links to page `k` is matched, or preceded, by one that
      links to page `i`. */
  ghost predicate Precedes(v: View, fetched: seq<string>, i: int, k: int) {
    && 0 <= i < |fetched| && 0 <= k < |fetched|
    && forall j :: 0 <= j < i && Finds(v, fetched[j], fetched[k]) ==> FoundUpTo(v, fetched, fetched[i], j)
  }

  /** The fetched pages after the base are in breadth-first order. */
  ghost predicate InOrder(v: View, fetched: seq<string>) {
    forall i, k :: 0 < i < k < |fetched| ==> Precedes(v, fetched, i, k)
  }

  /** The order the crawl promises: whenever page `k` comes after page `i`,
      every followed page linking to `k` is matched, or preceded, by one
      linking to `i`. */
  ghost predicate BreadthOrdered(v: View, fetched: seq<string>) {
    forall i, k, j :: 0 < i < k < |fetched| && 0 <= j < |fetched| && Finds(v, fetched[j], fetched[k]) ==>
                        FoundUpTo(v, fetched, fetched[i], j)
  }

  /** `origin[t]` is the index in `fetched` of the page that queued entry
      `t`; the queue is first in, first out, so origins never decrease. */
  ghost predicate Sorted(origin: seq<int>) {
    forall t, t' :: 0 <= t < t' < |origin| ==> origin[t] <= origin[t']
  }

  ghost predicate Origins(v: View, fetched: seq<string>, queue: seq<(string, int)>, origin: seq<int>) {
    && |origin| == |queue|
    && (fetched != [] ==>
          forall t :: 0 <= t < |queue| ==> 0 <= origin[t] < |fetched| && Finds(v, fetched[origin[t]], queue[t].0))
  }

  /** Every page fetched after the base was found no later than the page that
      queued any entry still waiting. */
  ghost predicate Ahead(v: View, fetched: seq<string>, queue: seq<(string, int)>, origin: seq<int>) {
    |origin| == |queue| &&
    forall i, t :: 0 < i < |fetched| && 0 <= t < |queue| ==> FoundUpTo(v, fetched, fetched[i], origin[t])
  }

  ghost predicate QueuedBy(queue: seq<(string, int)>, origin: seq<int>, u: string, j: int) {
    |origin| == |queue| && exists t :: 0 <= t < |queue| && queue[t].0 == u && origin[t] <= j
  }

  /** An unvisited eligible link of one of the first `n` fetched pages is
      waiting in the queue, queued no later than by that page. */
  ghost predicate Waiting(v: View, visited: set<string>, fetched: seq<string>, queue: seq<(string, int)>,
                          origin: seq<int>, n: int)
  {
    forall u, j :: 0 <= j < n && j < |fetched| && u !in visited && v.eligible(u) && Finds(v, fetched[j], u) ==>
                     QueuedBy(queue, origin, u, j)
  }

  /** The invariant behind breadth-first order, with the links of the first
      `n` fetched pages queued. */
  ghost predicate Breadth(v: View, visited: set<string>, fetched: seq<string>, queue: seq<(string, int)>,
                          origin: seq<int>, n: int)
  {
    && Sorted(origin)
    && Origins(v, fetched, queue, origin)
    && Ahead(v, fetched, queue, origin)
    && Waiting(v, visited, fetched, queue, origin, n)
    && InOrder(v, fetched)
  }

  /** `n` copies of `d`: the origins of a block of links queued by one page. */
  function Repeat(d: int, n: nat): seq<int> {
    seq(n, _ => d)
  }

  lemma FoundUpToGrows(v: View, fetched: seq<string>, c: string, u: string, j: int, j2: int)
    requires FoundUpTo(v, fetched, u, j) && j <= j2
    ensures FoundUpTo(v, fetched + [c], u, j2)
  {
    var j' :| 0 <= j' <= j && j' < |fetched| && Finds(v, fetched[j'], u);
    assert (fetched + [c])[j'] == fetched[j'];
  }

  lemma OrderedFoundUpTo(v: View, fetched: seq<string>, i: int, j: int)
    requires Ordered(v, fetched) && 0 < i < |fetched| && i - 1 <= j
    ensures FoundUpTo(v, fetched, fetched[i], j)
  {
    assert FoundBefore(v, fetched, i);
    var j' :| 0 <= j' < i && v.expanded(fetched[j']) && fetched[i] in v.links(fetched[j']);
    assert Finds(v, fetched[j'], fetched[i]);
  }

  lemma BreadthStart(v: View)
    ensures Breadth(v, {}, [], [(v.base, 0)], [0], 0)
  {
  }

  /** Dropping a head that was already visited. */
  lemma BreadthSkip(v: View, visited: set<string>, fetched: seq<string>, queue: seq<(string, int)>,
                    origin: seq<int>, n: int)
    requires Breadth(v, visited, fetched, queue, origin, n)
    requires queue != [] && queue[0].0 in visited
    ensures Breadth(v, visited, fetched, queue[1..], origin[1..], n)
  {
    forall u, j | 0 <= j < n && j < |fetched| && u !in visited && v.eligible(u) && Finds(v, fetched[j], u)
      ensures QueuedBy(queue[1..], origin[1..], u, j)
    {
      assert QueuedBy(queue, origin, u, j);
      var t :| 0 <= t < |queue| && queue[t].0 == u && origin[t] <= j;
      assert queue[1..][t - 1] == queue[t] && origin[1..][t - 1] == origin[t];
    }
  }

  lemma VisitOrigins(v: View, fetched: seq<string>, queue: seq<(string, int)>, origin: seq<int>)
    requires Origins(v, fetched, queue, origin)
    requires queue != [] && (fetched == [] ==> |queue| == 1)
    ensures Origins(v, fetched + [queue[0].0], queue[1..], origin[1..])
  {
    var f := fetched + [queue[0].0];
    forall t | 0 <= t < |queue| - 1 ensures 0 <= origin[1..][t] < |f| && Finds(v, f[origin[1..][t]], queue[1..][t].0) {
      assert origin[1..][t] == origin[t + 1] && queue[1..][t] == queue[t + 1];
      assert f[origin[t + 1]] == fetched[origin[t + 1]];
    }
  }

  lemma VisitAhead(v: View, fetched: seq<string>, queue: seq<(string, int)>, origin: seq<int>)
    requires Sorted(origin) && Origins(v, fetched, queue, origin) && Ahead(v, fetched, queue, origin)
    requires queue != [] && (fetched == [] ==> |queue| == 1)
    ensures Ahead(v, fetched + [queue[0].0], queue[1..], origin[1..])
  {
    var c := queue[0].0;
    var f := fetched + [c];
    forall i, t | 0 < i < |f| && 0 <= t < |queue| - 1 ensures FoundUpTo(v, f, f[i], origin[1..][t]) {
      assert origin[1..][t] == origin[t + 1];
      if i < |fetched| {
        assert f[i] == fetched[i];
        FoundUpToGrows(v, fetched, c, fetched[i], origin[t + 1], origin[t + 1]);
      } else {
        assert f[i] == c && f[origin[0]] == fetched[origin[0]];
        assert Finds(v, f[origin[0]], c);
        assert origin[0] <= origin[t + 1];
      }
    }
  }

  lemma VisitWaiting(v: View, visited: set<string>, fetched: seq<string>, queue: seq<(string, int)>, origin: seq<int>)
    requires Waiting(v, visited, fetched, queue, origin, |fetched|) && |origin| == |queue|
    requires queue != [] && queue[0].0 !in visited
    ensures Waiting(v, visited + {queue[0].0}, fetched + [queue[0].0], queue[1..], origin[1..], |fetched|)
  {
    var c := queue[0].0;
    var f := fetched + [c];
    forall u, j | 0 <= j < |fetched| && j < |f| && u !in visited + {c} && v.eligible(u) && Finds(v, f[j], u)
      ensures QueuedBy(queue[1..], origin[1..], u, j)
    {
      assert f[j] == fetched[j];
      assert QueuedBy(queue, origin, u, j);
      var t :| 0 <= t < |queue| && queue[t].0 == u && origin[t] <= j;
      assert u != c;
      assert queue[1..][t - 1] == queue[t] && origin[1..][t - 1] == origin[t];
    }
  }

  lemma VisitInOrder(v: View, visited: set<string>, fetched: seq<string>, queue: seq<(string, int)>, origin: seq<int>)
    requires Breadth(v, visited, fetched, queue, origin, |fetched|)
    requires queue != [] && queue[0].0 !in visited
    requires fetched != [] ==> v.eligible(queue[0].0)
    ensures InOrder(v, fetched + [queue[0].0])
  {
    var c := queue[0].0;
    var f := fetched + [c];
    forall i, k | 0 < i < k < |f| ensures Precedes(v, f, i, k) {
      assert f[i] == fetched[i];
      forall j | 0 <= j < i && Finds(v, f[j], f[k]) ensures FoundUpTo(v, f, f[i], j) {
        assert f[j] == fetched[j];
        if k < |fetched| {
          assert f[k] == fetched[k];
          assert Precedes(v, fetched, i, k);
          FoundUpToGrows(v, fetched, c, fetched[i], j, j);
        } else {
          assert f[k] == c;
          assert QueuedBy(queue, origin, c, j);
          var t :| 0 <= t < |queue| && queue[t].0 == c && origin[t] <= j;
          assert origin[0] <= origin[t];
          assert FoundUpTo(v, fetched, fetched[i], origin[0]);
          FoundUpToGrows(v, fetched, c, fetched[i], origin[0], j);
        }
      }
    }
  }

  /** Fetching the head of the queue, which was not yet visited. */
  lemma BreadthVisit(v: View, visited: set<string>, fetched: seq<string>, queue: seq<(string, int)>,
                     origin: seq<int>)
    requires Breadth(v, visited, fetched, queue, origin, |fetched|)
    requires queue != [] && queue[0].0 !in visited
    requires fetched == [] ==> |queue| == 1
    requires fetched != [] ==> v.eligible(queue[0].0)
    ensures Breadth(v, visited + {queue[0].0}, fetched + [queue[0].0], queue[1..], origin[1..], |fetched|)
  {
    VisitOrigins(v, fetched, queue, origin);
    VisitAhead(v, fetched, queue, origin);
    VisitWaiting(v, visited, fetched, queue, origin);
    VisitInOrder(v, visited, fetched, queue, origin);
  }

  /** A page at the depth limit queues nothing, and none of its links wait. */
  lemma BreadthLeaf(v: View, visited: set<string>, fetched: seq<string>, queue: seq<(string, int)>,
                    origin: seq<int>, n: int)
    requires Breadth(v, visited, fetched, queue, origin, n) && n == |fetched| - 1
    requires fetched != [] && !v.expanded(fetched[|fetched| - 1])
    ensures Breadth(v, visited, fetched, queue, origin, |fetched|)
  {
  }

  lemma ExpandOrigins(v: View, visited: set<string>, fetched: seq<string>, queue: seq<(string, int)>,
                      origin: seq<int>, queue': seq<(string, int)>)
    requires Sorted(origin) && Origins(v, fetched, queue, origin)
    requires fetched != [] && v.expanded(fetched[|fetched| - 1])
    requires |queue| <= |queue'| && queue'[..|queue|] == queue
    requires forall k :: |queue| <= k < |queue'| ==> Appended(v, visited, v.links(fetched[|fetched| - 1]), queue'[k])
    ensures var o := origin + Repeat(|fetched| - 1, |queue'| - |queue|);
            Sorted(o) && Origins(v, fetched, queue', o)
  {
    var d := |fetched| - 1;
    var o := origin + Repeat(d, |queue'| - |queue|);
    forall t | 0 <= t < |queue'| ensures 0 <= o[t] < |fetched| && Finds(v, fetched[o[t]], queue'[t].0) {
      if t < |queue| {
        assert o[t] == origin[t] && queue'[t] == queue[t];
      } else {
        assert o[t] == d;
        assert Appended(v, visited, v.links(fetched[d]), queue'[t]);
      }
    }
    forall t, t' | 0 <= t < t' < |o| ensures o[t] <= o[t'] {
      if t' < |queue| {
        assert o[t] == origin[t] && o[t'] == origin[t'];
      } else if t < |queue| {
        assert o[t] == origin[t] && o[t'] == d;
      }
    }
  }

  lemma ExpandAhead(v: View, fetched: seq<string>, queue: seq<(string, int)>, origin: seq<int>,
                    queue': seq<(string, int)>)
    requires Ahead(v, fetched, queue, origin) && Ordered(v, fetched) && fetched != []
    requires |queue| <= |queue'|
    ensures Ahead(v, fetched, queue', origin + Repeat(|fetched| - 1, |queue'| - |queue|))
  {
    var o := origin + Repeat(|fetched| - 1, |queue'| - |queue|);
    forall i, t | 0 < i < |fetched| && 0 <= t < |queue'| ensures FoundUpTo(v, fetched, fetched[i], o[t]) {
      if t < |queue| {
        assert o[t] == origin[t];
      } else {
        assert o[t] == |fetched| - 1;
        OrderedFoundUpTo(v, fetched, i, |fetched| - 1);
      }
    }
  }

  lemma ExpandWaiting(v: View, visited: set<string>, fetched: seq<string>, queue: seq<(string, int)>,
                      origin: seq<int>, queue': seq<(string, int)>)
    requires Waiting(v, visited, fetched, queue, origin, |fetched| - 1) && |origin| == |queue|
    requires fetched != []
    requires |queue| <= |queue'| && queue'[..|queue|] == queue
    requires Urls(queue'[|queue|..]) == Admitted(v, visited, v.links(fetched[|fetched| - 1]))
    ensures Waiting(v, visited, fetched, queue', origin + Repeat(|fetched| - 1, |queue'| - |queue|), |fetched|)
  {
    var d := |fetched| - 1;
    var o := origin + Repeat(d, |queue'| - |queue|);
    forall u, j | 0 <= j < |fetched| && u !in visited && v.eligible(u) && Finds(v, fetched[j], u)
      ensures QueuedBy(queue', o, u, j)
    {
      if j < d {
        assert QueuedBy(queue, origin, u, j);
        var t :| 0 <= t < |queue| && queue[t].0 == u && origin[t] <= j;
        assert queue'[t] == queue[t] && o[t] == origin[t];
      } else {
        assert u in Admitted(v, visited, v.links(fetched[d]));
        var k :| 0 <= k < |queue'[|queue|..]| && queue'[|queue|..][k].0 == u;
        assert queue'[|queue| + k].0 == u && o[|queue| + k] == d;
      }
    }
  }

  /** Queuing the admitted links of the page just fetched, in a block at the
      back, each with that page as its origin. */
  lemma BreadthExpand(v: View, visited: set<string>, fetched: seq<string>, queue: seq<(string, int)>,
                      origin: seq<int>, n: int, queue': seq<(string, int)>)
    requires Breadth(v, visited, fetched, queue, origin, n) && n == |fetched| - 1
    requires fetched != [] && v.expanded(fetched[|fetched| - 1]) && Ordered(v, fetched)
    requires |queue| <= |queue'| && queue'[..|queue|] == queue
    requires forall k :: |queue| <= k < |queue'| ==> Appended(v, visited, v.links(fetched[|fetched| - 1]), queue'[k])
    requires Urls(queue'[|queue|..]) == Admitted(v, visited, v.links(fetched[|fetched| - 1]))
    ensures Breadth(v, visited, fetched, queue', origin + Repeat(|fetched| - 1, |queue'| - |queue|), |fetched|)
  {
    ExpandOrigins(v, visited, fetched, queue, origin, queue');
    ExpandAhead(v, fetched, queue, origin, queue');
    ExpandWaiting(v, visited, fetched, queue, origin, queue');
  }

  /** With the queue empty, the invariant and `Ordered` give breadth-first
      order over every pair of fetched pages. */
  lemma BreadthEnd(v: View, visited: set<string>, fetched: seq<string>)
    requires Breadth(v, visited, fetched, [], [], |fetched|) && Ordered(v, fetched)
    ensures BreadthOrdered(v, fetched)
  {
    forall i, k, j | 0 < i < k < |fetched| && 0 <= j < |fetched| && Finds(v, fetched[j], fetched[k])
      ensures FoundUpTo(v, fetched, fetched[i], j)
    {
      if j < i {
        assert Precedes(v, fetched, i, k);
      } else {
        OrderedFoundUpTo(v, fetched, i, j);
      }
    }
  }

  /** After a visit: a page at the depth limit leaves the queue closed; any
      other page is one whose links are followed, all inside the universe. */
  lemma DepthStep(web: Web, baseUrl: string, maxDepth: int, v: View, universe: set<string>,
                  visited: set<string>, fetched: seq<string>, parent: map<string, string>,
                  queue: seq<(string, int)>, current: string, currentDepth: int)
    requires ViewMatches(web, baseUrl, maxDepth, v)
    requires forall u, l :: u in universe && v.expanded(u) && l in v.links(u) && v.eligible(l) ==> l in universe
    requires Pending(v, universe, visited, fetched, parent, queue, current)
    requires currentDepth == v.level(current)
    ensures maxDepth != -1 && currentDepth >= maxDepth ==>
              !v.expanded(current) && Frontier(v, universe, visited, fetched, parent, queue)
    ensures !(maxDepth != -1 && currentDepth >= maxDepth) ==>
              && v.expanded(current)
              && v.links(current) == PageLinks(web, current)
              && (forall l :: l in v.links(current) && v.eligible(l) ==> l in universe)
  {
    assert v.expanded(current) == (maxDepth == -1 || v.level(current) < maxDepth);
    if maxDepth != -1 && currentDepth >= maxDepth {
      LeafStep(v, universe, visited, fetched, parent, queue, current);
    } else {
      assert current in universe;
    }
  }

  lemma SaveAllFilesOk(files: map<FilePath, string>, web: Web, b: Backends,
                       settings: Settings, writable: FilePath -> bool, urls: seq<string>)
    ensures FilesOk(settings, files, SaveAll(files, web, b, settings, writable, urls))
  {
    if settings.outputDir.None? {
      SaveAllWithoutOutput(files, web, b, settings, writable, urls);
    }
    if settings.skipExisting {
      SaveAllKeepsExisting(files, web, b, settings, writable, urls);
    }
  }

  /** The loop of `scrape_links`, over a view of the site: breadth-first from
      the base, each URL visited at most once. `fetched` lists the visited
      URLs in the order they were fetched. */
  /** The rest of a pass, once `current` is fetched: nothing more at the depth
      limit, otherwise the link loop. */
  method FollowLinks(ghost web: Web, baseUrl: string, maxDepth: int, ghost v: View, ghost universe: set<string>,
                     visited: set<string>, ghost fetched: seq<string>, ghost parent: map<string, string>,
                     queue: seq<(string, int)>, ghost origin: seq<int>, ghost n: int,
                     current: string, currentDepth: int, links: set<string>)
    returns (queue': seq<(string, int)>, ghost parent': map<string, string>, ghost origin': seq<int>)
    requires ViewMatches(web, baseUrl, maxDepth, v)
    requires forall u, l :: u in universe && v.expanded(u) && l in v.links(u) && v.eligible(l) ==> l in universe
    requires Pending(v, universe, visited, fetched, parent, queue, current)
    requires Breadth(v, visited, fetched, queue, origin, n) && n == |fetched| - 1
    requires fetched[|fetched| - 1] == current && currentDepth == v.level(current)
    requires links == PageLinks(web, current)
    ensures Frontier(v, universe, visited, fetched, parent', queue')
    ensures Breadth(v, visited, fetched, queue', origin', |fetched|)
    ensures maxDepth != -1 && currentDepth >= maxDepth ==> queue' == queue
    ensures |queue| <= |queue'| && queue'[..|queue|] == queue
    ensures !(maxDepth != -1 && currentDepth >= maxDepth) ==> Urls(queue'[|queue|..]) == Admitted(v, visited, links)
  {
    var isUnlimited := maxDepth == -1;
    DepthStep(web, baseUrl, maxDepth, v, universe, visited, fetched, parent, queue, current, currentDepth);
    if !isUnlimited && currentDepth >= maxDepth {
      BreadthLeaf(v, visited, fetched, queue, origin, n);
      return queue, parent, origin;
    }
    queue', parent' := EnqueueLinks(baseUrl, maxDepth, v, universe, visited, current, links, queue, parent);
    ExpandStep(v, universe, visited, fetched, parent, queue, current, parent', queue');
    BreadthExpand(v, visited, fetched, queue, origin, n, queue');
    origin' := origin + Repeat(|fetched| - 1, |queue'| - |queue|);
  }

  /** One pass of the loop of `scrape_links`: pop the head of the queue; a
      URL already visited is dropped, any other is fetched and saved and, below
      the depth limit, its links are queued. */
  method CrawlStep(web: Web, b: Backends, baseUrl: string, maxDepth: int, settings: Settings,
                   writable: FilePath -> bool, store: FileStore, ghost v: View, ghost universe: set<string>,
                   ghost files0: map<FilePath, string>,
                   visited: set<string>, ghost fetched: seq<string>, ghost parent: map<string, string>,
                   queue: seq<(string, int)>, ghost origin: seq<int>)
    returns (visited': set<string>, ghost fetched': seq<string>, ghost parent': map<string, string>,
             queue': seq<(string, int)>, ghost origin': seq<int>)
    requires ViewMatches(web, baseUrl, maxDepth, v)
    requires forall u, l :: u in universe && v.expanded(u) && l in v.links(u) && v.eligible(l) ==> l in universe
    requires queue != []
    requires Frontier(v, universe, visited, fetched, parent, queue)
    requires Breadth(v, visited, fetched, queue, origin, |fetched|)
    requires store.files == SaveAll(files0, web, b, settings, writable, fetched)
    modifies store
    ensures Frontier(v, universe, visited', fetched', parent', queue')
    ensures Breadth(v, visited', fetched', queue', origin', |fetched'|)
    ensures store.files == SaveAll(files0, web, b, settings, writable, fetched')
    ensures |universe - visited'| < |universe - visited| || (visited' == visited && |queue'| < |queue|)
  {
    var current := queue[0].0;
    var currentDepth := queue[0].1;
    if current in visited {
      SkipStep(v, universe, visited, fetched, parent, queue, origin);
      return visited, fetched, parent, queue[1..], origin[1..];
    }
    VisitStep(v, universe, visited, fetched, parent, queue, origin);
    SaveAllPush(files0, web, b, settings, writable, fetched, current);
    visited' := visited + {current};
    fetched' := fetched + [current];
    var links := Visit(web, b, current, settings, writable, store);
    queue', parent', origin' := FollowLinks(web, baseUrl, maxDepth, v, universe, visited', fetched', parent,
                                            queue[1..], origin[1..], |fetched|, current, currentDepth, links);
  }

  method Crawl(web: Web, b: Backends, baseUrl: string, maxDepth: int, settings: Settings,
               writable: FilePath -> bool, store: FileStore, ghost v: View, ghost universe: set<string>)
    returns (visited: set<string>, ghost fetched: seq<string>, ghost parent: map<string, string>)
    requires ViewMatches(web, baseUrl, maxDepth, v)
    requires baseUrl in universe
    requires forall u, l :: u in universe && v.expanded(u) && l in v.links(u) && v.eligible(l) ==> l in universe
    modifies store
    ensures baseUrl in visited && visited <= universe
    ensures VisitedOk(v, universe, visited, parent)
    ensures Closed(v, visited, [], {})
    ensures |fetched| == |visited| && Distinct(fetched) && fetched[0] == baseUrl
    ensures visited == Members(fetched)
    ensures Ordered(v, fetched)
    ensures BreadthOrdered(v, fetched)
    ensures store.files == SaveAll(old(store.files), web, b, settings, writable, fetched)
    ensures FilesOk(settings, old(store.files), store.files)
  {
    visited := {};
    var queue: seq<(string, int)> := [(baseUrl, 0)];
    fetched := [];
    parent := map[];
    assert ViewMatches(web, baseUrl, maxDepth, v);
    StartStep(v, universe);
    ghost var origin: seq<int> := [0];
    BreadthStart(v);

    while queue != []
      invariant Frontier(v, universe, visited, fetched, parent, queue)
      invariant Breadth(v, visited, fetched, queue, origin, |fetched|)
      invariant store.files == SaveAll(old(store.files), web, b, settings, writable, fetched)
      decreases |universe - visited|, |queue|
    {
      visited, fetched, parent, queue, origin :=
        CrawlStep(web, b, baseUrl, maxDepth, settings, writable, store, v, universe,
                  old(store.files), visited, fetched, parent, queue, origin);
    }
    EndStep(v, universe, visited, fetched, parent);
    BreadthEnd(v, visited, fetched);
    SaveAllFilesOk(old(store.files), web, b, settings, writable, fetched);
  }

  /** `scrape_links`: breadth-first from the base, each URL fetched at most
      once, following the eligible links of every page above the depth limit.

      The universe is a finite set of URLs that holds every eligible link of
      each of its pages whose links are followed; it bounds the crawl and
      plays no other part. */
  method ScrapeLinks(web: Web, b: Backends, baseUrl: string, maxDepth: int, settings: Settings,
                     writable: FilePath -> bool, store: FileStore, ghost universe: set<string>)
    returns (allLinks: set<string>, ghost fetched: seq<string>)
    requires baseUrl in universe
    requires Bounds(web, baseUrl, maxDepth, universe)
    modifies store
    ensures baseUrl in allLinks
    ensures allLinks <= universe
    ensures forall u :: u in allLinks && u != baseUrl ==> Eligible(baseUrl, maxDepth, u)
    ensures forall u, l :: (u in allLinks && Expanded(baseUrl, maxDepth, u) && l in PageLinks(web, u) &&
                            Eligible(baseUrl, maxDepth, l)) ==> l in allLinks
    ensures forall u :: u in allLinks && u != baseUrl ==>
              exists w :: w in allLinks && Expanded(baseUrl, maxDepth, w) && u in PageLinks(web, w)
    ensures maxDepth != -1 && maxDepth <= 0 ==> allLinks == {baseUrl}
    ensures |fetched| == |allLinks| && Distinct(fetched) && fetched[0] == baseUrl
    ensures forall u :: u in allLinks <==> u in fetched
    ensures forall i :: 0 < i < |fetched| ==> FoundEarlier(web, baseUrl, maxDepth, fetched, i)
    ensures BreadthFirst(web, baseUrl, maxDepth, fetched)
    ensures store.files == SaveAll(old(store.files), web, b, settings, writable, fetched)
    ensures settings.outputDir.None? ==> store.files == old(store.files)
    ensures settings.skipExisting ==> KeepsFiles(old(store.files), store.files)
  {
    ViewOfMatches(web, baseUrl, maxDepth);
    ghost var v :| ViewMatches(web, baseUrl, maxDepth, v);
    BoundsView(web, baseUrl, maxDepth, v, universe);
    ghost var parent;
    allLinks, fetched, parent := Crawl(web, b, baseUrl, maxDepth, settings, writable, store, v, universe);
    CrawlDone(web, baseUrl, maxDepth, v, universe, allLinks, parent);
    OrderedDone(web, baseUrl, maxDepth, v, fetched);
    BreadthDone(web, baseUrl, maxDepth, v, fetched);
  }

  /** `universe` holds the base and every eligible link of each of its pages
      whose links are followed. */
  ghost predicate Bounds(web: Web, base: string, maxDepth: int, universe: set<string>) {
    forall u, l :: (u in universe && Expanded(base, maxDepth, u) && l in PageLinks(web, u) &&
                    Eligible(base, maxDepth, l)) ==> l in universe
  }

  lemma BoundsView(web: Web, base: string, maxDepth: int, v: View, universe: set<string>)
    requires ViewMatches(web, base, maxDepth, v)
    requires Bounds(web, base, maxDepth, universe)
    ensures forall u, l :: u in universe && v.expanded(u) && l in v.links(u) && v.eligible(l) ==> l in universe
  {
    forall u, l | u in universe && v.expanded(u) && l in v.links(u) && v.eligible(l) ensures l in universe {
      assert v.level(u) == Level(base, u);
      assert Expanded(base, maxDepth, u) && l in PageLinks(web, u) && Eligible(base, maxDepth, l);
    }
  }

  /** The page fetched `i`-th was found on a page fetched before it whose
      links the crawl follows. */
  ghost predicate FoundEarlier(web: Web, base: string, maxDepth: int, fetched: seq<string>, i: int) {
    0 < i < |fetched| &&
    exists j :: 0 <= j < i && Expanded(base, maxDepth, fetched[j]) && fetched[i] in PageLinks(web, fetched[j])
  }

  /** The view's pages whose links are followed are the crawl's. */
  lemma ViewExpanded(web: Web, base: string, maxDepth: int, v: View)
    requires ViewMatches(web, base, maxDepth, v)
    ensures forall u :: v.expanded(u) == Expanded(base, maxDepth, u)
  {
    forall u ensures v.expanded(u) == Expanded(base, maxDepth, u) {
      assert v.level(u) == Level(base, u);
    }
  }

  /** The order of `fetched`, in the crawl's terms. */
  /** `u` is a link of a page among `fetched[0..j]` whose links are followed. */
  ghost predicate FoundWithin(web: Web, base: string, maxDepth: int, fetched: seq<string>, u: string, j: int) {
    exists j' :: 0 <= j' <= j && j' < |fetched| && Expanded(base, maxDepth, fetched[j']) && u in PageLinks(web, fetched[j'])
  }

  /** Breadth-first order across pages: when the page at `k` is fetched after
      the page at `i`, every followed page that links to the one at `k` is
      matched, or preceded, by a followed page that links to the one at `i`. */
  ghost predicate BreadthFirst(web: Web, base: string, maxDepth: int, fetched: seq<string>) {
    forall i, k, j :: 0 < i < k < |fetched| && 0 <= j < |fetched| &&
                      Expanded(base, maxDepth, fetched[j]) && fetched[k] in PageLinks(web, fetched[j]) ==>
                        FoundWithin(web, base, maxDepth, fetched, fetched[i], j)
  }

  lemma BreadthDone(web: Web, base: string, maxDepth: int, v: View, fetched: seq<string>)
    requires ViewMatches(web, base, maxDepth, v)
    requires BreadthOrdered(v, fetched)
    ensures BreadthFirst(web, base, maxDepth, fetched)
  {
    ViewExpanded(web, base, maxDepth, v);
    forall i, k, j | 0 < i < k < |fetched| && 0 <= j < |fetched| &&
                     Expanded(base, maxDepth, fetched[j]) && fetched[k] in PageLinks(web, fetched[j])
      ensures FoundWithin(web, base, maxDepth, fetched, fetched[i], j)
    {
      assert Finds(v, fetched[j], fetched[k]);
      assert FoundUpTo(v, fetched, fetched[i], j);
      var j' :| 0 <= j' <= j && j' < |fetched| && Finds(v, fetched[j'], fetched[i]);
      assert Expanded(base, maxDepth, fetched[j']) && fetched[i] in PageLinks(web, fetched[j']);
    }
  }

  /** What breadth-first order decides: a page linked from the page at `j`
      comes before any page that no followed page up to `j` links to. */
  lemma LinkedEarlierFetchedFirst(web: Web, base: string, maxDepth: int, fetched: seq<string>, i: int, k: int, j: int)
    requires BreadthFirst(web, base, maxDepth, fetched)
    requires 0 < i < |fetched| && 0 < k < |fetched| && 0 <= j < |fetched|
    requires Expanded(base, maxDepth, fetched[j]) && fetched[k] in PageLinks(web, fetched[j])
    requires !FoundWithin(web, base, maxDepth, fetched, fetched[i], j)
    ensures k <= i
  {
    if i < k {
      assert false;
    }
  }

  lemma OrderedDone(web: Web, base: string, maxDepth: int, v: View, fetched: seq<string>)
    requires ViewMatches(web, base, maxDepth, v)
    requires Ordered(v, fetched)
    ensures forall i :: 0 < i < |fetched| ==> FoundEarlier(web, base, maxDepth, fetched, i)
  {
    ViewExpanded(web, base, maxDepth, v);
    forall i | 0 < i < |fetched| ensures FoundEarlier(web, base, maxDepth, fetched, i) {
      assert FoundBefore(v, fetched, i);
      var j :| 0 <= j < i && v.expanded(fetched[j]) && fetched[i] in v.links(fetched[j]);
      assert Expanded(base, maxDepth, fetched[j]) && fetched[i] in PageLinks(web, fetched[j]);
    }
  }
}
