# scrape_links, modelled in Dafny

`scrape_links.py` is a command-line crawler. It starts from a base URL and follows links breadth-first. It stays inside the base page's directory on the same host, down to a depth limit, and can save each page it fetches as a Markdown file. The main content of a saved page comes from the first of several extraction strategies (trafilatura, readability, newspaper3k, a CSS-selector scan) that yields enough text. When every strategy gives up, the `<body>` element is used instead.

This project models that core and proves its properties:

- `UrlScope` (`url_scope.dfy`): URLs as five-part values, and how the crawler renders a URL without its fragment. It also covers which directory a page lives in, whether a link lies under it (`is_child_path`), and how deep it lies.
- `Extraction` (`extraction.dfy`): the strategy wrappers and their 100-character gates, the selector scan, the body fallback, and the ordered pipeline with its early exit.
- `Persister` (`persister.dfy`): where a page is saved, the title its header carries, and the store of saved files. The store is a class whose `files` map the save method updates.
- `Crawler` (`crawler.dfy`): fetching a page, collecting its links, and the breadth-first loop with its queue and visited set.
- `Cli` (`cli.dfy`): the checks `main` makes on the URL, the depth and the extractor list before it crawls.
- `Strings` and `Wrappers`: the Python string operations the code relies on (`find`, `rstrip`, `strip`, `split`, `join`, `count`, `endswith`), plus `Option` and `Result`.

Everything outside the program is a parameter:

- the libraries are a `Backends` value, a record of functions giving what trafilatura, readability, newspaper3k, BeautifulSoup and html2text answer for a given input;
- the network is a `Web` value giving what a GET answers, which `href`s a page holds, and what `urljoin` makes of them (or that it raises);
- whether a file can be written is a predicate `writable`.

The crawl is proved against a finite `universe` of URLs. It contains the base and every eligible link of each of its pages whose links are followed. The universe only bounds the crawl, so that its termination can be proved.

## Model

| member | source | states |
|---|---|---|
| UrlScope.Parse | scrape_links.py:40 | `urlparse` as four splits (scheme, network location, fragment, query); every result has an empty or lower-case scheme, a network location without `/`, `?` or `#`, a path without `?` or `#`, and a query without `#` |
| UrlScope.NormalizeUrl | scrape_links.py:38-44 | the rendering holds no `#` and starts with `scheme://netloc` and the path; the fragment is dropped; with an empty query that is the whole rendering, otherwise `?` and the query follow |
| UrlScope.ParseOfRendered | scrape_links.py:38-44 | the rendering of a URL with a scheme parses back to the same scheme and query, with network location and path together unchanged |
| UrlScope.NormalizeIdempotent | scrape_links.py:38-44 | normalizing twice gives what normalizing once gives, for every URL string whose scheme is present |
| UrlScope.NormalizeWithoutSchemeDrifts | scrape_links.py:38-44 | without a scheme normalizing is not idempotent: `x` becomes `://x`, which becomes `://://x` |
| UrlScope.NormalizeIgnoresFragment | scrape_links.py:38-44 | appending `#f` changes only the fragment of the parse, and nothing in the normalized string |
| UrlScope.NormalizeKeepsParts | scrape_links.py:38-44 | for a URL with scheme and network location, the normalized string parses to the same scheme, network location, path and query, with an empty fragment |
| UrlScope.PathAfterNetloc | scrape_links.py:40 | when a network location is present, the path is empty or starts with `/` |
| UrlScope.GetBasePath | scrape_links.py:47-61 | the directory ends in `/`; a path that already ends in `/` is returned as it is; otherwise the result is the prefix of the path through its last `/`, or `/` when the path has no `/` |
| UrlScope.DirectoryOf | scrape_links.py:55-59 | for a path not ending in `/`: ends in `/`, is the prefix through the last `/` with no `/` after it, and is `/` when the path has none |
| UrlScope.GetBasePathIdempotent | scrape_links.py:47-61 | the directory of a directory is itself |
| UrlScope.IsChildPath | scrape_links.py:64-75 | true exactly when the network locations are equal and the target's path starts with the base's directory as a plain string prefix; false whenever the hosts differ |
| UrlScope.BaseIsInOwnScope | scrape_links.py:64-75 | a base whose path holds a `/` is inside its own scope, and so is every URL on its host whose path extends the base's path |
| UrlScope.ScopeIgnoresQueryAndFragment | scrape_links.py:64-75 | the scope test never depends on the query or fragment of either URL |
| UrlScope.CalculateDepth | scrape_links.py:78-90 | the depth is never negative; it is 0 exactly when the remainder after cutting the directory's length is empty or only slashes; otherwise it is one more than the number of `/` in the remainder after its trailing slashes are stripped |
| UrlScope.DepthOf | scrape_links.py:84-90 | the same three facts for a given remainder |
| UrlScope.DepthCountsSegments | scrape_links.py:78-90 | a target whose path is the base's directory followed by `n` non-empty segments, with or without a trailing `/`, is at depth `n` |
| UrlScope.DepthOfDirectoryIsZero | scrape_links.py:78-90 | a base ending in `/` is at depth 0 from itself |
| Strings.Find | scrape_links.py:55 | the first index of the character, or the length when it is absent; no earlier index holds it |
| Strings.RStrip | scrape_links.py:55 | `rstrip(c)`: a prefix of the input that does not end in `c`, with only `c`s cut off |
| Strings.Strip | scrape_links.py:173 | `strip(c)`: the result is a slice of the input with only `c`s on either side of it, and it neither starts nor ends with `c` |
| Strings.Split | scrape_links.py:55 | `split(c)`: one more piece than the input holds `c`s, and no piece holds `c` |
| Strings.JoinSplit | scrape_links.py:55-57 | joining the pieces of a split by the same character gives back the string |
| Strings.SplitJoin | scrape_links.py:544 | splitting a join of pieces that hold no `c` gives back the pieces |
| Strings.JoinAllButLast | scrape_links.py:55-57 | all pieces but the last, joined and followed by `c`, are a prefix of the string with no `c` after them |
| Strings.CountJoin | scrape_links.py:90 | `n` pieces without `c`, joined by `c`, hold `n - 1` of them |
| Strings.Trim | scrape_links.py:544 | `strip()`: the result is a slice of the input with only whitespace on either side of it; neither end of the result is whitespace, and the result is empty exactly when the input is all whitespace |
| Persister.FileName | scrape_links.py:173-179 | the name ends in `.md` and does not start with `/`; it is the stripped path when that already ends in `.md`, `index.md` when the stripped path is empty, otherwise the stripped path with `.md` appended |
| Persister.UrlToFilepath | scrape_links.py:169-181 | the file is under the output directory and the URL's network location, and its name is the file name made from the URL's path (so it ends in `.md`) |
| Persister.FilepathIgnoresQuery | scrape_links.py:169-181 | two URLs with the same network location and path share a file |
| Persister.TrailingSlashSameFile | scrape_links.py:173-179 | a path with and without a trailing `/` names the same file |
| Persister.MdSuffixSameFile | scrape_links.py:178-179 | a page and the same page with `.md` appended name the same file: the suffix is never doubled |
| Persister.RootIsIndex | scrape_links.py:175-176 | the site root, and any path made only of slashes, is saved as `index.md` |
| Persister.FileNameExample | scrape_links.py:169-181 | `/docs/page` is saved as `docs/page.md` |
| Persister.ExtractPageTitle | scrape_links.py:184-206 | the first `<h1>` wins, even with empty text; then `<title>`; then `Untitled` |
| Persister.HtmlToMarkdown | scrape_links.py:389-415 | html2text's rendering of the extracted main content |
| Persister.Store | scrape_links.py:103-122 | nothing changes when the file exists and existing files are kept, when rendering raised, or when the file cannot be written; otherwise the file holds the text |
| Persister.Header | scrape_links.py:116 | the header line is `# [`, the title, `](`, the URL, `)` and a blank line, each at its fixed position |
| Persister.SavedText | scrape_links.py:110-118 | a saved file is the header of the page's title and URL followed by the Markdown and nothing else; there is none exactly when rendering raises |
| Persister.StoreTouchesOnlyTarget | scrape_links.py:103-122 | saving changes no file but the page's own |
| Persister.StoreSkipKeepsExisting | scrape_links.py:103-107 | with `skip_existing`, every file already present keeps its contents |
| Persister.StoreIdempotent | scrape_links.py:103-122 | saving the same page twice leaves what saving it once leaves |
| Persister.SaveSkipsExistingFile | scrape_links.py:103-107 | with `skip_existing` and the file present, the store is unchanged whatever the page holds |
| Persister.FileStore.SavePage | scrape_links.py:93-122 | the store afterwards is the specified change of the store before |
| Extraction.ByTrafilatura | scrape_links.py:250-273 | a result exactly when trafilatura answers non-empty HTML carrying at least 100 characters of text, and then that HTML |
| Extraction.ByNewspaper | scrape_links.py:276-301 | a result exactly when the article text, stripped, has at least 100 characters, and then that text wrapped in `<article>` |
| Extraction.ByReadability | scrape_links.py:304-331 | a result exactly when readability's summary carries at least 100 characters of text, and then that summary |
| Extraction.FirstStop | scrape_links.py:235-240 | the index of the first selector whose element is long enough or whose lookup raised; no earlier selector stops the scan |
| Extraction.SelectorScanIsFirstHit | scrape_links.py:209-247 | the selector scan answers the markup of the first element with at least 100 characters of text, provided no earlier lookup raised; otherwise nothing |
| Extraction.ExtractByXpath | scrape_links.py:209-247 | the loop over the fifteen selectors computes the selector scan |
| Extraction.ExtractByBody | scrape_links.py:334-347 | the `<body>` markup when there is a body, otherwise the input unchanged (also when parsing raises) |
| Extraction.Order | scrape_links.py:362-363 | no list means trafilatura, readability, newspaper3k, xpath |
| Extraction.FirstWin | scrape_links.py:374-380 | the index of the first known name whose strategy yields a non-empty result; no earlier name does |
| Extraction.KnownOnly | scrape_links.py:375 | every name kept is known, and a name is kept exactly when it is in the list and known |
| Extraction.KnownOnlyAppend | scrape_links.py:374-376 | the known names of a concatenation are those of each part, in order; with one name, it is kept exactly when known: the known names keep the list's order |
| Extraction.RunStrategy | scrape_links.py:366-371 | a known name runs the strategy it stands for |
| Extraction.ExtractMainContent | scrape_links.py:350-386 | the loop returns the pipeline's value, and the strategies it invoked are exactly the known names up to the accepted one |
| Extraction.ScanIsFirstWin | scrape_links.py:374-380 | the pipeline's result is the first winning name's result, and nothing when no name wins |
| Extraction.ScanAccepted | scrape_links.py:374-386 | a pipeline result is never empty, and there is no result exactly when no name wins |
| Extraction.UnknownNamesIgnored | scrape_links.py:374-382 | unknown names change neither the result nor the strategies invoked |
| Extraction.TriedStopsAtFirstWin | scrape_links.py:374-380 | the strategies invoked are the known names up to and including the first winning one; none after it runs |
| Extraction.FallbackToBody | scrape_links.py:385-386 | when no name wins, the answer is the body fallback |
| Extraction.EmptyListGoesToBody | scrape_links.py:362-386 | an empty list is not the absent list: no strategy runs and the body fallback answers |
| Extraction.DefaultPrefersTrafilatura | scrape_links.py:362-380 | with the default order an accepted trafilatura result wins at once; readability is consulted only when trafilatura is not accepted |
| Extraction.NewspaperAliasSkipped | scrape_links.py:365-382 | inside the pipeline `newspaper` is an unknown name: with `newspaper,xpath` only the selector scan runs |
| Crawler.CollectLinks | scrape_links.py:152-157 | the anchor loop yields the normalized `urljoin` of every `href`, or nothing as soon as one `urljoin` raises |
| Crawler.BadHrefLosesPage | scrape_links.py:153-166 | one `href` that `urljoin` cannot join costs the page all its links |
| Crawler.LinksOfJoinedPage | scrape_links.py:150-159 | when every `href` joins, a URL is a link of the page exactly when it is the normalized join of one of its `href`s |
| Crawler.FetchLinksFromPage | scrape_links.py:125-166 | the links are the page's normalized links, or none when the fetch, the parse or one `urljoin` fails; the store changes only by saving the fetched page when an output directory is given |
| Crawler.FetchWithoutOutputSavesNothing | scrape_links.py:144-147 | with no output directory, fetching saves nothing |
| Crawler.FetchKeepsExisting | scrape_links.py:144-147 | with `skip_existing`, fetching never changes a file that was there |
| Crawler.UnreachablePageHasNoLinks | scrape_links.py:161-163 | a page that cannot be fetched has no links |
| Crawler.SaveAllWithoutOutput | scrape_links.py:144-147 | with no output directory, a whole crawl saves nothing |
| Crawler.SaveAllKeepsExisting | scrape_links.py:103-107 | with `skip_existing`, a whole crawl changes no file that was there before it |
| Crawler.SaveAllTouchesOnlyFetched | scrape_links.py:144-147 | a crawl leaves every file that is not the file of a fetched page as it was |
| Crawler.Visit | scrape_links.py:454-455 | one page of the crawl: its links, and the store after saving that page when it was fetched and an output directory is given; so nothing is saved without an output directory, and no existing file changes with `skip_existing` |
| Crawler.Admit | scrape_links.py:461-464 | a link is queued exactly when it is not visited, is inside the scope and is within the depth limit (unless unlimited), and then with its depth |
| Crawler.EnqueueLinks | scrape_links.py:460-464 | the loop appends to the back of the queue and keeps what was queued in front; each appended entry is a link of the page, not visited, eligible, with its depth; no link is appended twice; the appended links are exactly the page's unvisited eligible links; every queue entry still carries its own depth and is eligible |
| Crawler.CrawlStep | scrape_links.py:444-464 | one pass of the loop keeps the frontier invariant (visited set inside the universe and equal to the fetched list without repeats, queue entries eligible with their depths, every eligible link of an expanded visited page visited or queued, each later page found on an earlier one) and the breadth-first invariant (`Breadth`: the origins of queue entries never decrease, every fetched page was found no later than any waiting entry's origin, every unvisited eligible link of a followed page waits with an origin no later than that page), and keeps the store equal to saving the fetched pages in order; it visits a new URL or shortens the queue |
| Crawler.DepthStep | scrape_links.py:457-458 | a page at or past the depth limit (unless the limit is -1) is not expanded and leaves the frontier closed; any other page is expanded and all its eligible links lie in the universe |
| Crawler.FollowLinks | scrape_links.py:457-464 | after a fetch, a page at the depth limit leaves the queue as it was; any other page keeps the queue in front and appends exactly its unvisited eligible links, with itself as their origin; the frontier and breadth-first invariants hold again |
| Crawler.BreadthDone | scrape_links.py:433-464 | the order the queue leaves in the view carries over to the site: for pages `i` before `k`, every followed page linking to `k` is matched, or preceded, by a followed page linking to `i` |
| Crawler.LinkedEarlierFetchedFirst | scrape_links.py:444-464 | in a breadth-first crawl, a page linked from the page at `j` is fetched before any page that no followed page up to `j` links to |
| Crawler.Crawl | scrape_links.py:431-466 | the loop ends with the base visited, every visited URL eligible and discovered on a page whose links were followed, every eligible link of such a page visited, and each URL fetched once; each page fetched after the base was found on a page fetched before it, and the pages are fetched in breadth-first order (BreadthOrdered); the store is what saving the fetched pages in order makes of it |
| Crawler.CrawlDone | scrape_links.py:443-466 | once the queue is empty: every URL but the base is eligible and was found on an expanded visited page; the visited set is closed under eligible links; with depth limit 0 only the base is visited |
| Crawler.ScrapeLinks | scrape_links.py:418-466 | the result holds the base and only eligible URLs, each found on a page whose links were followed; it is closed under eligible links of such pages; each URL is fetched exactly once, the base first, and each later one was found on a page fetched before it whose links were followed; the order is breadth-first (BreadthFirst): a page linked from a followed page comes before every page that no followed page up to that one links to; with depth 0 only the base is fetched; the store is what saving the fetched pages in order makes of it, so no output directory means no file changes and `skip_existing` keeps existing files |
| Cli.Canonical | scrape_links.py:546-547 | `newspaper` becomes `newspaper3k`; known names are unchanged; the result is known exactly when the name is known or is the alias |
| Cli.Unknown | scrape_links.py:550 | each reported name is unknown and from the list, every unknown name is among them, and there are none exactly when every name is known |
| Cli.UnknownAppend | scrape_links.py:550 | the unknown names of a concatenation are those of each part, in order; with one name, it is reported exactly when unknown: the unknown names keep the list's order |
| Cli.KnownOrUnknown | scrape_links.py:548-551 | every name of the list is either kept by the pipeline's filter or reported as unknown, never both |
| Cli.FirstUnknown | scrape_links.py:548-550 | the index of the first unknown name: that name is unknown and every earlier one is known |
| Cli.ParseExtractors | scrape_links.py:542-559 | no option or an empty one means the default order; a non-empty accepted option is the cleaned list of its pieces, never the default order; an accepted list has one name per comma-separated piece, each known and equal to the stripped, de-aliased piece; a refused list reports a non-empty list of unknown names that contains every unknown piece |
| Cli.RefusedIffUnknownPiece | scrape_links.py:544-551 | a non-empty option is refused exactly when one of its stripped, de-aliased pieces is unknown |
| Cli.KnownListRoundTrip | scrape_links.py:543-550 | any non-empty list of known names, written with commas, is read back as that list |
| Cli.NewspaperAlias | scrape_links.py:546-547 | `newspaper` alone is read as `newspaper3k` |
| Cli.BodyIsRefused | scrape_links.py:548-559 | `body` is refused and reported |
| Cli.AcceptedListHasNoSkips | scrape_links.py:548-551 | every name of an accepted list is one the pipeline runs |
| Cli.ValidUrlStaysValid | scrape_links.py:531-535 | a URL that passes URL validation still passes it once normalized, with all its parts but the fragment kept |
| Cli.ValidateArgs | scrape_links.py:531-559 | the arguments are accepted exactly when the URL has scheme and host, the depth is at least -1 and the extractor list is accepted; the URL is checked first, then the depth, then the list |
| Cli.Run | scrape_links.py:531-566 | exit status 1, with nothing crawled or saved, exactly when validation fails; otherwise the crawl from the URL as given, with every promise of the crawl: the URL and only eligible URLs, closed under eligible links of followed pages, each found on a page fetched before it, in breadth-first order, each fetched once, and the store as saving the fetched pages in order leaves it |

## Left out

- `wait_before_request` (random delay and `time.sleep`): a clock and randomness, nothing to prove.
- Logging, the `print` of each URL, and the final debug line with the output directory: output only.
- `argparse`: option parsing, `-o` without a value meaning `output`, and the `-v` log level. The model starts from the parsed values.
- The `KeyboardInterrupt` handler in `main` (concurrency with the user).
- The libraries themselves (trafilatura, readability, newspaper3k, BeautifulSoup, html2text, requests, `urljoin`): they are fields of `Backends` and `Web`, total functions. Most answer `None` or `Raised` where the library raises. The text measure `textLength` and the title lookup `firstText` have no raising answer; the lines for Extraction.ByTrafilatura and Persister.ExtractPageTitle below say what that leaves out.
- UrlScope.Parse: models `urlsplit`, not every detail of `urlparse`:
  - `;params` are not split off the path. `normalize_url` as written drops them, so `http://h/p;x` renders as `http://h/p` in the source and as `http://h/p;x` in the model.
  - Also not modelled: stripping of leading C0 control characters and spaces, removal of tab and newline characters, IPv6 bracket validation, and the NFKC check of the network location.
- Extraction.ByTrafilatura: BeautifulSoup's text length of trafilatura's HTML (scrape_links.py:257-258) is total. An exception while measuring it, which the source catches and turns into `None`, is not modelled.
- Persister.ExtractPageTitle: parsing the page for its title (scrape_links.py:186) cannot raise in the model. In the source such an exception abandons the save (caught at scrape_links.py:120-121).
- Extraction.ByReadability: BeautifulSoup's text length is a total function of the summary. An exception while measuring it is not modelled separately; readability answering `None` covers every exception of that wrapper.
- Persister.Store: a write is all or nothing. A directory created before a failing write, and a file left partly written, are not modelled. Path normalisation by `pathlib` (`.`, `..`, repeated slashes) is not modelled either; a `FilePath` keeps its three parts as strings. `url_to_filepath` and `filepath.exists()` (scrape_links.py:102-105) run outside the save's `try`; an exception there would reach the handler of `fetch_links_from_page` and cost the page all its links. The model treats both as total.
- Crawler.ScrapeLinks requires a finite universe of URLs that holds the eligible links of its followed pages, to prove termination. The source terminates only if the site's reachable in-scope URLs are finite too.
- Crawler.EnqueueLinks picks the links of a page in an unspecified order (`:|`), where Python iterates the set in hash order. The queue's order between links of one page is therefore not modelled. Across pages the order is stated in full (Crawler.BreadthFirst): the base first, every later page found on an earlier one, and a page linked from an earlier followed page fetched before one that only a later page links to.
- Cli.ValidateArgs: `urlparse` raising on the command-line URL (an unclosed IPv6 bracket such as `http://[::1`) ends the source with a traceback before any crawl (scrape_links.py:530). `UrlScope.Parse` is total, so ValidateArgs accepts such a URL and Cli.Run crawls it.
- Crawler.PageLinks: `urlparse` raising inside `normalize_url` or `url_to_filepath` is not modelled, because `UrlScope.Parse` is total. A `urljoin` that raises is modelled, and costs the page all its links.
- The test suite disagrees with the code in four places. The model follows the code:
  - short or empty newspaper text yields no result;
  - a document without `<body>` yields the input unchanged;
  - the body fallback's own answer is returned;
  - inside `extract_main_content`, `newspaper` is an unknown name (Extraction.NewspaperAliasSkipped); only `main` maps the alias (Cli.Canonical).
