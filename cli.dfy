/** The checks the command line makes before crawling: the base URL must have
    a scheme and a network location, the depth must be `-1` or more, and the
    comma-separated extractor list must name only known strategies (with
    `newspaper` accepted for `newspaper3k`). Argument parsing itself and the
    log messages are not modelled. */
module Cli {
  import opened Wrappers
  import opened Strings
  import opened UrlScope
  import opened Extraction
  import opened Persister
  import opened Crawler

  /** The alias the command line accepts for `newspaper3k`. */
  function Canonical(name: string): (r: string)
    ensures Known(r) <==> Known(name) || name == "newspaper"
    ensures name == "newspaper" ==> r == "newspaper3k"
    ensures Known(name) ==> r == name
  {
    if name == "newspaper" then "newspaper3k" else name
  }

  /** Each piece of the comma-separated list, stripped of surrounding
      whitespace and with the alias replaced. */
  function CleanNames(pieces: seq<string>): (names: seq<string>)
    ensures |names| == |pieces|
    ensures forall k :: 0 <= k < |pieces| ==> names[k] == Canonical(Trim(pieces[k]))
  {
    seq(|pieces|, k requires 0 <= k < |pieces| => Canonical(Trim(pieces[k])))
  }

  /** The names of a list that are not known, in the order they appear. */
  function Unknown(names: seq<string>): (bad: seq<string>)
    ensures |bad| <= |names|
    ensures forall k :: 0 <= k < |bad| ==> !Known(bad[k]) && bad[k] in names
    ensures forall k :: 0 <= k < |names| && !Known(names[k]) ==> names[k] in bad
    ensures bad == [] <==> forall k :: 0 <= k < |names| ==> Known(names[k])
  {
    if names == [] then []
    else
      var rest := Unknown(names[1..]);
      assert forall k :: 1 <= k < |names| ==> names[k] == names[1..][k - 1];
      if Known(names[0]) then rest else [names[0]] + rest
  }

  /** `Unknown` of a concatenation is the two parts' `Unknown`s in order;
      with `UnknownSingle` this fixes the order of the reported names. */
  lemma {:induction false} UnknownAppend(a: seq<string>, b: seq<string>)
    ensures Unknown(a + b) == Unknown(a) + Unknown(b)
  {
    if a == [] {
      assert a + b == b;
    } else {
      assert (a + b)[0] == a[0];
      assert (a + b)[1..] == a[1..] + b;
      UnknownAppend(a[1..], b);
    }
  }

  /** Every name is either kept by `KnownOnly` or reported by `Unknown`. */
  lemma {:induction false} KnownOrUnknown(names: seq<string>)
    ensures |KnownOnly(names)| + |Unknown(names)| == |names|
  {
    if names != [] {
      KnownOrUnknown(names[1..]);
    }
  }

  /** The `--extractors` option: absent or empty means the default order;
      otherwise the cleaned list, or the unknown names it holds. */
  function ParseExtractors(arg: Option<string>): (r: Result<Option<seq<string>>, seq<string>>)
    ensures arg.None? || arg.value == "" ==> r == Success(None)
    ensures arg.Some? && arg.value != "" && r.Success? ==> r.value == Some(CleanNames(Split(arg.value, ',')))
    ensures r.Success? && r.value.Some? ==>
              arg.Some? && arg.value != "" &&
              |r.value.value| == Count(arg.value, ',') + 1 &&
              (forall k :: 0 <= k < |r.value.value| ==>
                 (Known(r.value.value[k]) && r.value.value[k] == Canonical(Trim(Split(arg.value, ',')[k]))))
    ensures r.Failure? ==>
              arg.Some? && r.error != [] &&
              (forall k :: 0 <= k < |r.error| ==> !Known(r.error[k])) &&
              (forall k :: 0 <= k < |Split(arg.value, ',')| && !Known(Canonical(Trim(Split(arg.value, ',')[k]))) ==>
                 Canonical(Trim(Split(arg.value, ',')[k])) in r.error)
  {
    match arg
    case None => Success(None)
    case Some(text) =>
      if text == "" then Success(None)
      else
        var names := CleanNames(Split(text, ','));
        var bad := Unknown(names);
        if bad != [] then Failure(bad) else Success(Some(names))
  }

  /** A list is refused exactly when one of its cleaned pieces is unknown. */
  lemma RefusedIffUnknownPiece(text: string)
    requires text != ""
    ensures ParseExtractors(Some(text)).Failure? <==>
            exists k :: 0 <= k < |Split(text, ',')| && !Known(Canonical(Trim(Split(text, ',')[k])))
  {
    var pieces := Split(text, ',');
    var names := CleanNames(pieces);
    ParseOfText(text, names);
    if Unknown(names) != [] {
      var i := FirstUnknown(names);
      assert i < |pieces| && names[i] == Canonical(Trim(pieces[i]));
      assert !Known(Canonical(Trim(pieces[i])));
      assert exists k :: 0 <= k < |Split(text, ',')| && !Known(Canonical(Trim(Split(text, ',')[k])));
      assert ParseExtractors(Some(text)).Failure?;
    } else {
      forall k | 0 <= k < |pieces| ensures Known(Canonical(Trim(pieces[k]))) {
        assert Known(names[k]);
      }
    }
  }

  /** The index of the first unknown name, when there is one. */
  function FirstUnknown(names: seq<string>): (i: nat)
    requires exists k :: 0 <= k < |names| && !Known(names[k])
    ensures i < |names| && !Known(names[i])
    ensures forall j :: 0 <= j < i ==> Known(names[j])
  {
    if !Known(names[0]) then 0
    else
      var j :| 0 <= j < |names| && !Known(names[j]);
      assert names[1..][j - 1] == names[j];
      var i := FirstUnknown(names[1..]);
      assert names[1 + i] == names[1..][i];
      1 + i
  }

  /** The known names carry no comma and no surrounding whitespace. */
  lemma KnownIsClean(name: string)
    requires Known(name)
    ensures ',' !in name
    ensures Trim(name) == name && Canonical(name) == name && name != ""
  {
    assert name[0] != ' ' && !IsSpace(name[0]) && !IsSpace(name[|name| - 1]);
  }

  /** A join starts with its first piece. */
  lemma {:induction false} JoinStartsWithFirst(parts: seq<string>, c: char)
    requires |parts| >= 1
    ensures parts[0] <= Join(parts, c)
  {
    if |parts| > 1 {
      assert Join(parts, c) == parts[0] + ([c] + Join(parts[1..], c));
    }
  }

  /** Any non-empty list of known names, written with commas, is read back as
      that list. */
  lemma KnownListRoundTrip(names: seq<string>)
    requires |names| >= 1
    requires forall k :: 0 <= k < |names| ==> Known(names[k])
    ensures ParseExtractors(Some(Join(names, ','))) == Success(Some(names))
  {
    forall k | 0 <= k < |names| ensures ',' !in names[k] && Trim(names[k]) == names[k] &&
                                       Canonical(names[k]) == names[k] {
      KnownIsClean(names[k]);
    }
    KnownIsClean(names[0]);
    JoinStartsWithFirst(names, ',');
    var text := Join(names, ',');
    assert text != "";
    SplitJoin(names, ',');
    assert CleanNames(Split(text, ',')) == names;
    ParseOfText(text, names);
  }

  /** A single name without commas or surrounding whitespace is read as
      itself, under the alias. */
  lemma SingleName(name: string)
    requires name != "" && ',' !in name && !IsSpace(name[0]) && !IsSpace(name[|name| - 1])
    ensures Known(Canonical(name)) ==> ParseExtractors(Some(name)) == Success(Some([Canonical(name)]))
    ensures !Known(Canonical(name)) ==> ParseExtractors(Some(name)) == Failure([Canonical(name)])
  {
    SplitWithout(name, ',');
    TrimClean(name);
    CleanSingle(name);
    UnknownSingle(Canonical(name));
    ParseOfText(name, [Canonical(name)]);
  }

  /** The option's value read through its cleaned pieces. */
  lemma ParseOfText(text: string, names: seq<string>)
    requires text != "" && names == CleanNames(Split(text, ','))
    ensures ParseExtractors(Some(text)) == if Unknown(names) != [] then Failure(Unknown(names)) else Success(Some(names))
  {
  }

  lemma CleanSingle(name: string)
    requires Trim(name) == name
    ensures CleanNames([name]) == [Canonical(name)]
  {
  }

  lemma UnknownSingle(name: string)
    ensures Unknown([name]) == if Known(name) then [] else [name]
  {
    assert [name][1..] == [];
  }

  /** `newspaper` alone is read as `newspaper3k`. */
  lemma NewspaperAlias()
    ensures ParseExtractors(Some("newspaper")) == Success(Some(["newspaper3k"]))
  {
    var text := "newspaper";
    assert text[0] == 'n' && text[|text| - 1] == 'r';
    assert ',' !in text;
    SingleName(text);
  }

  /** A name outside the known four, here the body fallback, is refused and
      reported. */
  lemma BodyIsRefused()
    ensures ParseExtractors(Some("body")) == Failure(["body"])
  {
    var text := "body";
    assert text[0] == 'b' && text[|text| - 1] == 'y';
    assert ',' !in text;
    SingleName(text);
  }

  /** Every name of an accepted list is one the pipeline runs: none is
      skipped. */
  lemma {:induction false} AcceptedListHasNoSkips(names: seq<string>)
    requires forall k :: 0 <= k < |names| ==> Known(names[k])
    ensures KnownOnly(names) == names
  {
    if names != [] {
      AcceptedListHasNoSkips(names[1..]);
      assert names == [names[0]] + names[1..];
    }
  }

  // ---------------------------------------------------------------------
  // Validation of the arguments

  datatype CliError = BadUrl | BadDepth | BadExtractors(names: seq<string>)

  /** A base URL the command line accepts: a scheme and a network location. */
  predicate ValidUrl(url: string) {
    Parse(url).scheme != "" && Parse(url).netloc != ""
  }

  /** A URL that passes validation still passes it once normalized, and keeps
      all its parts but the fragment. */
  lemma ValidUrlStaysValid(url: string)
    requires ValidUrl(url)
    ensures ValidUrl(NormalizeString(url))
    ensures Parse(NormalizeString(url)) == Parse(url).(fragment := "")
  {
    NormalizeKeepsParts(url);
  }

  /** The checks in their order: URL, then depth, then extractors. On success
      the extractor list to crawl with. */
  function ValidateArgs(url: string, depth: int, extractors: Option<string>): (r: Result<Option<seq<string>>, CliError>)
    ensures r.Success? <==> ValidUrl(url) && depth >= -1 && ParseExtractors(extractors).Success?
    ensures r.Success? ==> r.value == ParseExtractors(extractors).value
    ensures !ValidUrl(url) ==> r == Failure(BadUrl)
    ensures ValidUrl(url) && depth < -1 ==> r == Failure(BadDepth)
    ensures r.Failure? && r.error.BadExtractors? ==> ParseExtractors(extractors) == Failure(r.error.names)
  {
    if !ValidUrl(url) then Failure(BadUrl)
    else if depth < -1 then Failure(BadDepth)
    else
      match ParseExtractors(extractors)
      case Failure(bad) => Failure(BadExtractors(bad))
      case Success(list) => Success(list)
  }

  /** `main` once the arguments are parsed: exit status 1 without crawling
      when validation fails, otherwise the crawl from the URL as given, with
      everything `scrape_links` promises. `fetched` lists the pages in the
      order they were fetched. */
  method Run(web: Web, b: Backends, url: string, depth: int, output: Option<string>, skipExisting: bool,
             extractors: Option<string>, writable: FilePath -> bool, store: FileStore,
             ghost universe: set<string>)
    returns (exitCode: int, links: set<string>, ghost fetched: seq<string>)
    requires ValidateArgs(url, depth, extractors).Success? ==> url in universe && Bounds(web, url, depth, universe)
    modifies store
    ensures exitCode == 1 <==> ValidateArgs(url, depth, extractors).Failure?
    ensures exitCode == 0 || exitCode == 1
    ensures exitCode == 1 ==> links == {} && fetched == [] && store.files == old(store.files)
    ensures exitCode == 0 ==> url in links && links <= universe
    ensures exitCode == 0 ==> forall u :: u in links && u != url ==> Eligible(url, depth, u)
    ensures exitCode == 0 ==>
              forall u, l :: (u in links && Expanded(url, depth, u) && l in PageLinks(web, u) &&
                              Eligible(url, depth, l)) ==> l in links
    ensures exitCode == 0 ==>
              forall u :: u in links && u != url ==>
                exists w :: w in links && Expanded(url, depth, w) && u in PageLinks(web, w)
    ensures exitCode == 0 ==> |fetched| == |links| && Distinct(fetched) && fetched[0] == url
    ensures exitCode == 0 ==> forall u :: u in links <==> u in fetched
    ensures exitCode == 0 ==> forall i :: 0 < i < |fetched| ==> FoundEarlier(web, url, depth, fetched, i)
    ensures exitCode == 0 ==> BreadthFirst(web, url, depth, fetched)
    ensures exitCode == 0 ==>
              store.files == SaveAll(old(store.files), web, b,
                                     Settings(output, skipExisting, ValidateArgs(url, depth, extractors).value),
                                     writable, fetched)
    ensures exitCode == 0 && depth == 0 ==> links == {url}
    ensures output.None? ==> store.files == old(store.files)
    ensures skipExisting ==> KeepsFiles(old(store.files), store.files)
  {
    var checked := ValidateArgs(url, depth, extractors);
    if checked.Failure? {
      return 1, {}, [];
    }
    var settings := Settings(output, skipExisting, checked.value);
    links, fetched := ScrapeLinks(web, b, url, depth, settings, writable, store, universe);
    exitCode := 0;
  }
}
