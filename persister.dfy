/** Saving a page as a Markdown file: where the file goes, which title its
    header carries, and what the store of saved files looks like afterwards.
    The file system is a map from file paths to file contents. */
module Persister {
  import opened Wrappers
  import opened Strings
  import opened UrlScope
  import opened Extraction

  /** `output_dir / domain / path`, kept as its three parts. */
  datatype FilePath = FilePath(root: string, host: string, name: string)

  /** The file name inside the host's directory: the path without leading or
      trailing slashes, `index` when nothing is left, and `.md` appended
      unless the name already ends with it. */
  function FileName(path: string): (name: string)
    ensures EndsWith(name, ".md")
    ensures name[0] != '/'
    ensures EndsWith(Strip(path, '/'), ".md") ==> name == Strip(path, '/')
    ensures Strip(path, '/') == "" ==> name == "index.md"
    ensures Strip(path, '/') != "" && !EndsWith(Strip(path, '/'), ".md") ==> name == Strip(path, '/') + ".md"
  {
    var stem := Strip(path, '/');
    var stem := if stem == "" then "index" else stem;
    var name := if EndsWith(stem, ".md") then stem else stem + ".md";
    assert name[0] == stem[0];
    name
  }

  /** `url_to_filepath`: the output directory, the URL's network location,
      and the file name made from its path. */
  function UrlToFilepath(url: string, root: string): (p: FilePath)
    ensures p.root == root && p.host == Parse(url).netloc
    ensures EndsWith(p.name, ".md") && p.name[0] != '/'
    ensures p.name == FileName(Parse(url).path)
  {
    var u := Parse(url);
    FilePath(root, u.netloc, FileName(u.path))
  }

  /** Two URLs with the same network location and path share a file: the
      query and the fragment play no part. */
  lemma FilepathIgnoresQuery(url1: string, url2: string, root: string)
    requires Parse(url1).netloc == Parse(url2).netloc && Parse(url1).path == Parse(url2).path
    ensures UrlToFilepath(url1, root) == UrlToFilepath(url2, root)
  {
  }

  lemma StripTrailingSlash(path: string)
    ensures Strip(path + "/", '/') == Strip(path, '/')
  {
    var t := path + "/";
    assert t[..|t| - 1] == path;
  }

  /** A path with and without a trailing slash names the same file. */
  lemma TrailingSlashSameFile(path: string)
    ensures FileName(path + "/") == FileName(path)
  {
    StripTrailingSlash(path);
  }

  /** Appending `.md` to a path that does not end in `/` appends it to the
      stripped path too. */
  lemma StripAppendMd(path: string)
    requires path != [] && path[|path| - 1] != '/' && Strip(path, '/') != ""
    ensures Strip(path + ".md", '/') == Strip(path, '/') + ".md"
  {
    var t := path + ".md";
    assert t[|t| - 1] == 'd';
    assert RStrip(t, '/') == t;
    assert RStrip(path, '/') == path;
    LStripAppend(path, ".md");
  }

  /** A page whose path does not end in `/`, and the same page with `.md`
      appended, name the same file. */
  lemma MdSuffixSameFile(path: string)
    requires path != [] && path[|path| - 1] != '/'
    requires Strip(path, '/') != "" && !EndsWith(Strip(path, '/'), ".md")
    ensures FileName(path + ".md") == FileName(path)
  {
    StripAppendMd(path);
    var s := Strip(path, '/') + ".md";
    assert s[|s| - 3..] == ".md";
  }

  /** Removing leading `c`s commutes with appending text, when something other
      than `c` is already there. */
  lemma {:induction false} LStripAppend(r: string, tail: string)
    requires LStrip(r, '/') != ""
    ensures LStrip(r + tail, '/') == LStrip(r, '/') + tail
  {
    if r[0] == '/' {
      assert (r + tail)[1..] == r[1..] + tail;
      LStripAppend(r[1..], tail);
    }
  }

  /** The site root, and a path made only of slashes, is `index.md`. */
  lemma RootIsIndex(path: string)
    requires forall k :: 0 <= k < |path| ==> path[k] == '/'
    ensures FileName(path) == "index.md"
  {
    RStripEmpty(path, '/');
  }

  /** `/docs/page` is saved as `docs/page.md`. */
  lemma FileNameExample()
    ensures FileName("/docs/page") == "docs/page.md"
  {
    ExampleStrip();
    var n := "docs/page";
    assert n[|n| - 3..] == "age";
    assert n + ".md" == "docs/page.md";
  }

  lemma ExampleStrip()
    ensures Strip("/docs/page", '/') == "docs/page"
  {
    var s := "/docs/page";
    assert s[|s| - 1] == 'e';
    assert RStrip(s, '/') == s;
    var n := "docs/page";
    assert s[1..] == n;
    assert n[0] == 'd';
    assert LStrip(n, '/') == n;
  }

  // ---------------------------------------------------------------------
  // extract_page_title

  /** `extract_page_title`: the first `<h1>`'s text, else the `<title>`'s
      text, else `Untitled`. An `<h1>` that is present wins even when its
      text is empty. */
  function ExtractPageTitle(b: Backends, html: string): (title: string)
    ensures b.firstText(html, "h1").Some? ==> title == b.firstText(html, "h1").value
    ensures b.firstText(html, "h1").None? && b.firstText(html, "title").Some? ==>
              title == b.firstText(html, "title").value
    ensures b.firstText(html, "h1").None? && b.firstText(html, "title").None? ==> title == "Untitled"
  {
    match b.firstText(html, "h1")
    case Some(h1) => h1
    case None =>
      match b.firstText(html, "title")
      case Some(t) => t
      case None => "Untitled"
  }

  // ---------------------------------------------------------------------
  // html_to_markdown

  /** `html_to_markdown` as a value: html2text's rendering of the main
      content, or `None` if rendering raises. */
  function Markdown(b: Backends, html: string, url: string, extractors: Option<seq<string>>): Option<string> {
    b.html2text(MainContent(b, html, extractors), url)
  }

  /** `html_to_markdown`: extract the main content, then render it. */
  method HtmlToMarkdown(b: Backends, html: string, url: string, extractors: Option<seq<string>>)
    returns (markdown: Option<string>)
    ensures markdown == Markdown(b, html, url, extractors)
  {
    var content, _ := ExtractMainContent(b, html, extractors);
    markdown := b.html2text(content, url);
  }

  // ---------------------------------------------------------------------
  // save_page_as_markdown

  /** The first line of every saved file, followed by a blank line. */
  function Header(title: string, url: string): (h: string)
    ensures |h| == |title| + |url| + 8
    ensures h[..3] == "# [" && h[3..3 + |title|] == title
    ensures h[3 + |title|..5 + |title|] == "](" && h[5 + |title|..5 + |title| + |url|] == url
    ensures h[|h| - 3..] == ")\n\n"
  {
    "# [" + title + "](" + url + ")\n\n"
  }

  /** The change saving makes to the store, once the path and the text to
      write are known (`None` when rendering raised): nothing changes when the
      file exists and existing files are to be kept, when there is nothing to
      write, or when the file cannot be written; otherwise the file holds the
      text. */
  function Store(files: map<FilePath, string>, p: FilePath, text: Option<string>, skipExisting: bool,
                 writable: FilePath -> bool): (r: map<FilePath, string>)
    ensures skipExisting && p in files ==> r == files
    ensures text.None? || !writable(p) ==> r == files
    ensures !(skipExisting && p in files) && text.Some? && writable(p) ==> r == files[p := text.value]
  {
    if skipExisting && p in files then files
    else if text.Some? && writable(p) then files[p := text.value]
    else files
  }

  /** What a saved file holds: the header line, then the Markdown; `None`
      when rendering raises. */
  function SavedText(b: Backends, html: string, url: string, extractors: Option<seq<string>>): (text: Option<string>)
    ensures text.Some? <==> Markdown(b, html, url, extractors).Some?
    ensures text.Some? ==> Header(ExtractPageTitle(b, html), url) <= text.value &&
                           EndsWith(text.value, Markdown(b, html, url, extractors).value)
    ensures text.Some? ==> text.value == Header(ExtractPageTitle(b, html), url) +
                                         Markdown(b, html, url, extractors).value
  {
    match Markdown(b, html, url, extractors)
    case None => None
    case Some(markdown) =>
      var text := Header(ExtractPageTitle(b, html), url) + markdown;
      assert text[|text| - |markdown|..] == markdown;
      Some(text)
  }

  /** `save_page_as_markdown` as a change to the store. `writable` says which
      paths the directory creation and the write succeed for. */
  function SaveSpec(files: map<FilePath, string>, b: Backends, url: string, html: string, root: string,
                    skipExisting: bool, extractors: Option<seq<string>>, writable: FilePath -> bool)
    : map<FilePath, string>
  {
    Store(files, UrlToFilepath(url, root), SavedText(b, html, url, extractors), skipExisting, writable)
  }

  /** Saving touches no file but the page's own. */
  lemma StoreTouchesOnlyTarget(files: map<FilePath, string>, p: FilePath, text: Option<string>,
                               skipExisting: bool, writable: FilePath -> bool, q: FilePath)
    requires q != p
    ensures var r := Store(files, p, text, skipExisting, writable);
            (q in r <==> q in files) && (q in files ==> r[q] == files[q])
  {
  }

  /** Every file of `before` is still in `after`, with the same contents. */
  ghost predicate KeepsFiles(before: map<FilePath, string>, after: map<FilePath, string>) {
    forall p :: p in before ==> p in after && after[p] == before[p]
  }

  lemma KeepsFilesTrans(a: map<FilePath, string>, b: map<FilePath, string>, c: map<FilePath, string>)
    requires KeepsFiles(a, b) && KeepsFiles(b, c)
    ensures KeepsFiles(a, c)
  {
  }

  /** With `skipExisting`, every file already present keeps its contents. */
  lemma StoreSkipKeepsExisting(files: map<FilePath, string>, p: FilePath, text: Option<string>,
                               writable: FilePath -> bool)
    ensures KeepsFiles(files, Store(files, p, text, true, writable))
  {
  }

  /** Saving the same text twice leaves what saving it once leaves. */
  lemma StoreIdempotent(files: map<FilePath, string>, p: FilePath, text: Option<string>,
                        skipExisting: bool, writable: FilePath -> bool)
    ensures var once := Store(files, p, text, skipExisting, writable);
            Store(once, p, text, skipExisting, writable) == once
  {
  }

  /** With `skipExisting`, saving a page whose file exists writes nothing,
      whatever the page now holds. */
  lemma SaveSkipsExistingFile(files: map<FilePath, string>, b: Backends, url: string, html: string,
                              root: string, extractors: Option<seq<string>>, writable: FilePath -> bool)
    requires UrlToFilepath(url, root) in files
    ensures SaveSpec(files, b, url, html, root, true, extractors, writable) == files
  {
  }

  /** The saved Markdown files, keyed by path. */
  class FileStore {
    var files: map<FilePath, string>

    constructor (initial: map<FilePath, string>)
      ensures files == initial
    {
      files := initial;
    }

    /** `save_page_as_markdown`. */
    method SavePage(b: Backends, url: string, html: string, root: string, skipExisting: bool,
                    extractors: Option<seq<string>>, writable: FilePath -> bool)
      modifies this
      ensures files == SaveSpec(old(files), b, url, html, root, skipExisting, extractors, writable)
    {
      var filepath := UrlToFilepath(url, root);
      if skipExisting && filepath in files {
        return;
      }
      var title := ExtractPageTitle(b, html);
      var markdown := HtmlToMarkdown(b, html, url, extractors);
      if markdown.None? || !writable(filepath) {
        return;
      }
      files := files[filepath := Header(title, url) + markdown.value];
      assert SavedText(b, html, url, extractors) == Some(Header(title, url) + markdown.value);
    }
  }
}
