/** URL scope arithmetic: how the crawler splits a URL into its parts, writes
    it back without its fragment, finds the directory a page lives in, decides
    whether another URL lies under that directory, and how deep it lies. */
module UrlScope {
  import opened Strings

  /** The five parts `urlsplit` produces. */
  datatype Url = Url(scheme: string, netloc: string, path: string, query: string, fragment: string)

  predicate IsAsciiAlpha(ch: char) { IsAsciiLower(ch) || IsAsciiUpper(ch) }

  /** Letters, digits, `+`, `-` and `.`. */
  predicate IsSchemeChar(ch: char) {
    IsAsciiAlpha(ch) || ('0' <= ch <= '9') || ch == '+' || ch == '-' || ch == '.'
  }

  /** A character that ends the network location. */
  predicate IsNetlocDelim(ch: char) { ch == '/' || ch == '?' || ch == '#' }

  /** Index of the first `/`, `?` or `#` in `s`, or `|s|`. */
  function FindDelim(s: string): (i: nat)
    ensures i <= |s|
    ensures i < |s| ==> IsNetlocDelim(s[i])
    ensures forall k :: 0 <= k < i ==> !IsNetlocDelim(s[k])
  {
    if s == [] then 0
    else if IsNetlocDelim(s[0]) then 0
    else 1 + FindDelim(s[1..])
  }

  /** The scheme and what follows its colon; no scheme when the text before
      the first `:` is empty, does not start with a letter, or holds a
      character that cannot appear in a scheme. The scheme is lower-cased. */
  function SplitScheme(s: string): (r: (string, string))
    ensures |r.1| <= |s| && r.1 == s[|s| - |r.1|..]
  {
    var i := Find(s, ':');
    if SchemeBefore(s, i) then (Lower(s[..i]), s[i + 1..])
    else ("", s)
  }

  /** The first `i` characters of `s` make a scheme name followed by `:`. */
  predicate SchemeBefore(s: string, i: nat) {
    0 < i < |s| && IsAsciiAlpha(s[0]) && (forall k :: 0 <= k < i ==> IsSchemeChar(s[k]))
  }

  /** A network location is present only after `//` and runs to the first
      `/`, `?` or `#`. */
  function SplitNetloc(s: string): (r: (string, string))
    ensures |r.1| <= |s| && r.1 == s[|s| - |r.1|..]
  {
    if |s| >= 2 && s[..2] == "//" then
      var j := 2 + FindDelim(s[2..]);
      (s[2..j], s[j..])
    else ("", s)
  }

  /** Splits `s` at the first `c`: what comes before it, and what comes after
      it (empty when there is no `c`). */
  function SplitOnce(s: string, c: char): (r: (string, string))
    ensures c !in r.0
    ensures r.0 <= s
  {
    var i := Find(s, c);
    assert c !in s[..i];
    if i < |s| then (s[..i], s[i + 1..]) else (s, "")
  }

  /** A lower-case scheme name, or nothing. */
  ghost predicate SchemeOk(scheme: string) {
    && (scheme != "" ==> IsAsciiLower(scheme[0]))
    && (forall k :: 0 <= k < |scheme| ==> IsSchemeChar(scheme[k]) && !IsAsciiUpper(scheme[k]))
  }

  ghost predicate NetlocOk(netloc: string) {
    forall k :: 0 <= k < |netloc| ==> !IsNetlocDelim(netloc[k])
  }

  /** What every parsed URL satisfies: the scheme is empty or a lower-case
      scheme name; the network location holds no delimiter; the path holds
      no `?` and no `#`; the query holds no `#`. */
  ghost predicate WellFormed(u: Url) {
    SchemeOk(u.scheme) && NetlocOk(u.netloc) && '?' !in u.path && '#' !in u.path && '#' !in u.query
  }

  lemma SplitSchemeOk(s: string)
    ensures SchemeOk(SplitScheme(s).0)
  {
  }

  lemma SplitNetlocOk(s: string)
    ensures NetlocOk(SplitNetloc(s).0)
  {
  }

  lemma SplitOnceTail(s: string, c: char)
    ensures var r := SplitOnce(s, c); |r.1| <= |s| && r.1 == s[|s| - |r.1|..]
  {
  }

  lemma AbsentFromSuffix(s: string, n: nat, c: char)
    requires c !in s && n <= |s|
    ensures c !in s[n..]
  {
    forall k | 0 <= k < |s| - n ensures s[n..][k] != c {
      assert s[n..][k] == s[n + k];
    }
  }

  /** What `urlsplit` makes of a URL string: scheme, then network location,
      then fragment at the first `#`, then query at the first `?`. */
  function Parse(s: string): (u: Url)
    ensures WellFormed(u)
  {
    var scheme := SplitScheme(s);
    var netloc := SplitNetloc(scheme.1);
    var hash := SplitOnce(netloc.1, '#');
    var question := SplitOnce(hash.0, '?');
    ParseFieldsOk(s);
    Url(scheme.0, netloc.0, question.0, question.1, hash.1)
  }

  lemma ParseFieldsOk(s: string)
    ensures var scheme := SplitScheme(s);
            var netloc := SplitNetloc(scheme.1);
            var hash := SplitOnce(netloc.1, '#');
            var question := SplitOnce(hash.0, '?');
            SchemeOk(scheme.0) && NetlocOk(netloc.0) && '?' !in question.0 &&
            '#' !in question.0 && '#' !in question.1
  {
    var scheme := SplitScheme(s);
    var netloc := SplitNetloc(scheme.1);
    var hash := SplitOnce(netloc.1, '#');
    var question := SplitOnce(hash.0, '?');
    SplitSchemeOk(s);
    SplitNetlocOk(scheme.1);
    var beforeHash := hash.0;
    SplitOnceTail(beforeHash, '?');
    AbsentFromSuffix(beforeHash, |beforeHash| - |question.1|, '#');
    assert question.0 <= beforeHash;
    forall k | 0 <= k < |question.0| ensures question.0[k] != '#' {
      assert question.0[k] == beforeHash[k];
    }
  }

  /** `Parse` as the four splits it is made of. */
  lemma ParseSteps(s: string, scheme: string, afterScheme: string, netloc: string,
                   afterNetloc: string, beforeHash: string, fragment: string, path: string, query: string)
    requires SplitScheme(s) == (scheme, afterScheme)
    requires SplitNetloc(afterScheme) == (netloc, afterNetloc)
    requires SplitOnce(afterNetloc, '#') == (beforeHash, fragment)
    requires SplitOnce(beforeHash, '?') == (path, query)
    ensures Parse(s) == Url(scheme, netloc, path, query, fragment)
  {
  }

  /** `normalize_url`: `scheme://netloc` and the path, then `?query` only when
      the query is not empty; the fragment is dropped. */
  function NormalizeUrl(u: Url): (r: string)
    requires WellFormed(u)
    ensures '#' !in r
    ensures u.scheme + "://" + u.netloc + u.path <= r
    ensures u.query == "" ==> r == u.scheme + "://" + u.netloc + u.path
    ensures u.query != "" ==> r[|u.scheme + "://" + u.netloc + u.path|..] == "?" + u.query
  {
    var head := u.scheme + "://" + u.netloc + u.path;
    assert '#' !in head by {
      forall k | 0 <= k < |u.netloc| ensures u.netloc[k] != '#' {
        assert !IsNetlocDelim(u.netloc[k]);
      }
      forall k | 0 <= k < |u.scheme| ensures u.scheme[k] != '#' {
        assert IsSchemeChar(u.scheme[k]);
      }
    }
    head + (if u.query != "" then "?" + u.query else "")
  }

  /** The string form of `normalize_url(url)`. */
  function NormalizeString(s: string): string {
    NormalizeUrl(Parse(s))
  }

  // ---------------------------------------------------------------------
  // normalize_url is idempotent once the URL has a scheme

  lemma LowerOfLower(s: string)
    requires forall k :: 0 <= k < |s| ==> !IsAsciiUpper(s[k])
    ensures Lower(s) == s
  {
  }

  lemma {:induction false} FindDelimAppend(a: string, b: string)
    requires b == [] || IsNetlocDelim(b[0])
    ensures FindDelim(a + b) == FindDelim(a)
  {
    if a == [] {
      assert a + b == b;
    } else {
      assert (a + b)[1..] == a[1..] + b;
      FindDelimAppend(a[1..], b);
    }
  }

  lemma FindInPrefix(a: string, b: string, c: char)
    requires c in a
    ensures Find(a + b, c) == Find(a, c)
  {
    var i := Find(a, c);
    assert (a + b)[i] == c;
    forall k | 0 <= k < i ensures (a + b)[k] != c {
      assert (a + b)[k] == a[k];
    }
  }

  lemma SplitOnceAbsent(s: string, c: char)
    requires c !in s
    ensures SplitOnce(s, c) == (s, "")
  {
  }

  lemma SplitOnceAt(a: string, c: char, b: string)
    requires c !in a
    ensures SplitOnce(a + [c] + b, c) == (a, b)
  {
    var t := a + [c] + b;
    assert t[|a|] == c;
    forall k | 0 <= k < |a| ensures t[k] != c {
      assert t[k] == a[k];
    }
    assert Find(t, c) == |a|;
    assert t[..|a|] == a;
    assert t[|a| + 1..] == b;
  }

  lemma SplitSchemeOfRendered(scheme: string, rest: string)
    requires scheme != "" && SchemeOk(scheme)
    ensures SplitScheme(scheme + ":" + rest) == (scheme, rest)
  {
    var t := scheme + ":" + rest;
    var i := |scheme|;
    assert t[i] == ':';
    forall k | 0 <= k < i ensures t[k] == scheme[k] && t[k] != ':' && IsSchemeChar(t[k]) {
      assert IsSchemeChar(scheme[k]);
    }
    assert Find(t, ':') == i;
    assert IsAsciiAlpha(t[0]);
    assert t[..i] == scheme;
    LowerOfLower(scheme);
    assert t[i + 1..] == rest;
  }

  lemma DropAfter(a: string, b: string, k: nat)
    requires |a| <= k <= |a| + |b| || k <= |a|
    ensures k <= |a| ==> (a + b)[k..] == a[k..] + b
    ensures |a| <= k <= |a| + |b| ==> (a + b)[k..] == b[k - |a|..]
  {
  }

  lemma SplitNetlocPresent(s: string)
    requires |s| >= 2 && s[..2] == "//"
    ensures SplitNetloc(s) == (s[2..2 + FindDelim(s[2..])], s[2 + FindDelim(s[2..])..])
  {
  }

  lemma SplitNetlocAbsent(s: string)
    requires !(|s| >= 2 && s[..2] == "//")
    ensures SplitNetloc(s) == ("", s)
  {
  }

  lemma SplitNetlocOfRendered(w: string, q: string)
    requires q == [] || q[0] == '?'
    ensures SplitNetloc("//" + w + q) == (w[..FindDelim(w)], w[FindDelim(w)..] + q)
  {
    var s := "//" + w + q;
    var k := FindDelim(w);
    RenderedSlices(w, q, k);
    FindDelimBefore(w, q);
    SplitNetlocPresent(s);
  }

  lemma RenderedSlices(w: string, q: string, k: nat)
    requires k <= |w|
    ensures var s := "//" + w + q;
            |s| >= 2 && s[..2] == "//" && s[2..] == w + q && s[2..2 + k] == w[..k] && s[2 + k..] == w[k..] + q
  {
    var s := "//" + w + q;
    assert s[2..] == w + q;
    assert s[2..2 + k] == w[..k] by {
      assert forall j :: 0 <= j < k ==> s[2..2 + k][j] == w[j];
    }
    assert s[2 + k..] == w[k..] + q by {
      DropAfter("//", w + q, 2 + k);
      DropAfter(w, q, k);
    }
  }

  /** A `?` (or nothing) after `w` does not move its first delimiter. */
  lemma FindDelimBefore(w: string, q: string)
    requires q == [] || q[0] == '?'
    ensures FindDelim(w + q) == FindDelim(w)
  {
    var t := w + q;
    var k := FindDelim(w);
    forall j | 0 <= j < k ensures !IsNetlocDelim(t[j]) {
      assert t[j] == w[j];
    }
    if k < |w| {
      assert t[k] == w[k];
    } else if q != [] {
      assert t[k] == q[0];
    }
  }

  lemma RejoinAt(w: string, k: nat)
    requires k <= |w|
    ensures w[..k] + w[k..] == w
  {
  }

  /** The rendered form of a well-formed URL with a scheme parses back into
      parts that render the same: `netloc + path` may be redistributed (a
      path without a leading `/`), but nothing else moves. */
  lemma ParseOfRendered(scheme: string, w: string, query: string)
    requires scheme != "" && SchemeOk(scheme)
    requires '?' !in w && '#' !in w && '#' !in query
    ensures var q := if query != "" then "?" + query else "";
            var u := Parse(scheme + "://" + w + q);
            u.scheme == scheme && u.netloc + u.path == w && u.query == query
  {
    ParseRendered(scheme, w, query);
    RejoinAt(w, FindDelim(w));
  }

  /** The parts of a rendered URL: the network location runs to the first
      delimiter of `w`, the rest of `w` is the path. */
  lemma ParseRendered(scheme: string, w: string, query: string)
    requires scheme != "" && SchemeOk(scheme)
    requires '?' !in w && '#' !in w && '#' !in query
    ensures var q := if query != "" then "?" + query else "";
            Parse(scheme + "://" + w + q) == Url(scheme, w[..FindDelim(w)], w[FindDelim(w)..], query, "")
  {
    var q := if query != "" then "?" + query else "";
    var t := scheme + "://" + w + q;
    var rest := "//" + w + q;
    SchemeColonRest(scheme, w, q);
    SplitSchemeOfRendered(scheme, rest);
    SplitNetlocOfRendered(w, q);
    var k := FindDelim(w);
    AbsentFromSuffix(w, k, '#');
    AbsentFromSuffix(w, k, '?');
    RenderedTail(w[k..], query);
    ParseSteps(t, scheme, rest, w[..k], w[k..] + q, w[k..] + q, "", w[k..], query);
  }

  lemma SchemeColonRest(scheme: string, w: string, q: string)
    ensures scheme + "://" + w + q == scheme + ":" + ("//" + w + q)
  {
    var x := scheme + "://" + w + q;
    var y := scheme + ":" + ("//" + w + q);
    assert |x| == |y|;
    forall i | 0 <= i < |x| ensures x[i] == y[i] {
      if i < |scheme| {
      } else if i < |scheme| + 3 {
      } else if i < |scheme| + 3 + |w| {
      } else {
      }
    }
  }

  /** The part after the network location splits into the path and the
      query, with no fragment. */
  lemma RenderedTail(p: string, query: string)
    requires '?' !in p && '#' !in p && '#' !in query
    ensures var q := if query != "" then "?" + query else "";
            SplitOnce(p + q, '#') == (p + q, "") && SplitOnce(p + q, '?') == (p, query)
  {
    var q := if query != "" then "?" + query else "";
    assert '#' !in q;
    assert '#' !in p + q;
    SplitOnceAbsent(p + q, '#');
    if query != "" {
      assert p + q == p + ['?'] + query;
      SplitOnceAt(p, '?', query);
    } else {
      assert p + q == p;
      SplitOnceAbsent(p, '?');
    }
  }

  /** With a network location, the path is empty or starts with `/`: it is
      a prefix of what follows the network location, which starts with a
      delimiter, and it holds no `?` or `#`. */
  lemma PathAfterNetloc(s: string)
    requires Parse(s).netloc != ""
    ensures Parse(s).path == "" || Parse(s).path[0] == '/'
  {
    var r := SplitScheme(s).1;
    var n := SplitNetloc(r);
    var hash := SplitOnce(n.1, '#');
    var question := SplitOnce(hash.0, '?');
    ParseSteps(s, SplitScheme(s).0, r, n.0, n.1, hash.0, hash.1, question.0, question.1);
    NetlocEndsAtDelim(r);
    PathOfTail(n.1);
  }

  /** What follows a network location starts with a delimiter. */
  lemma NetlocEndsAtDelim(r: string)
    requires SplitNetloc(r).0 != ""
    ensures SplitNetloc(r).1 == [] || IsNetlocDelim(SplitNetloc(r).1[0])
  {
    SplitNetlocPresent(r);
    var j := FindDelim(r[2..]);
    DropAfter(r[..2], r[2..], 2 + j);
    assert r == r[..2] + r[2..];
  }

  /** The path taken from text that starts with a delimiter is empty or
      starts with `/`. */
  lemma PathOfTail(after: string)
    requires after == [] || IsNetlocDelim(after[0])
    ensures var p := SplitOnce(SplitOnce(after, '#').0, '?').0; p == "" || p[0] == '/'
  {
    var h := SplitOnce(after, '#').0;
    var p := SplitOnce(h, '?').0;
    if p != "" {
      assert p[0] == h[0] && h[0] == after[0];
      assert p[0] in p && h[0] in h;
    }
  }

  /** A network location without delimiters is found whole. */
  lemma FindDelimOfNetloc(netloc: string, path: string)
    requires NetlocOk(netloc)
    requires path == "" || path[0] == '/'
    ensures FindDelim(netloc + path) == |netloc|
  {
    FindDelimAppend(netloc, path);
  }

  /** `normalize_url` keeps every part of a URL with a scheme and a network
      location, and drops its fragment. */
  lemma NormalizeKeepsParts(s: string)
    requires Parse(s).scheme != "" && Parse(s).netloc != ""
    ensures Parse(NormalizeString(s)) == Parse(s).(fragment := "")
  {
    var u := Parse(s);
    var w := u.netloc + u.path;
    PathAfterNetloc(s);
    FindDelimOfNetloc(u.netloc, u.path);
    forall k | 0 <= k < |u.netloc| ensures u.netloc[k] != '?' && u.netloc[k] != '#' {
      assert !IsNetlocDelim(u.netloc[k]);
    }
    assert '?' !in w && '#' !in w;
    NormalizeUrlParts(u);
    ParseRendered(u.scheme, w, u.query);
    assert w[..|u.netloc|] == u.netloc;
    assert w[|u.netloc|..] == u.path;
  }

  lemma NormalizeUrlParts(u: Url)
    requires WellFormed(u)
    ensures NormalizeUrl(u) == u.scheme + "://" + (u.netloc + u.path) +
                               (if u.query != "" then "?" + u.query else "")
  {
  }

  /** `normalize_url(normalize_url(x)) == normalize_url(x)` for every URL
      string whose scheme is present. */
  lemma NormalizeIdempotent(s: string)
    requires Parse(s).scheme != ""
    ensures NormalizeString(NormalizeString(s)) == NormalizeString(s)
  {
    var u := Parse(s);
    var w := u.netloc + u.path;
    forall k | 0 <= k < |u.netloc| ensures u.netloc[k] != '?' && u.netloc[k] != '#' {
      assert !IsNetlocDelim(u.netloc[k]);
    }
    assert '?' !in w && '#' !in w;
    NormalizeUrlParts(u);
    var t := NormalizeString(s);
    ParseOfRendered(u.scheme, w, u.query);
    NormalizeUrlParts(Parse(t));
  }

  /** Without a scheme the rendering is not stable: a scheme-less `x` without
      `:`, `/`, `?` or `#` becomes `://x`, which becomes `://://x`. */
  lemma NormalizeWithoutSchemeDrifts(x: string)
    requires ':' !in x && NetlocOk(x)
    ensures NormalizeString(x) == "://" + x
    ensures NormalizeString("://" + x) == "://://" + x
  {
    BareIsPathOnly(x);
    NormalizePathOnly(x);
    var y := "://" + x;
    ColonFirstIsPathOnly(x);
    NormalizePathOnly(y);
    PrefixTwice(x);
  }

  lemma PrefixTwice(x: string)
    ensures "://" + ("://" + x) == "://://" + x
  {
  }

  /** No scheme, no network location, no query and no fragment. */
  ghost predicate PathOnly(s: string) {
    SplitScheme(s) == ("", s) && !(|s| >= 2 && s[..2] == "//") && '#' !in s && '?' !in s
  }

  lemma BareIsPathOnly(x: string)
    requires ':' !in x && NetlocOk(x)
    ensures PathOnly(x)
  {
    forall k | 0 <= k < |x| ensures x[k] != '#' && x[k] != '?' && x[k] != '/' {
      assert !IsNetlocDelim(x[k]);
    }
    if |x| >= 2 {
      assert x[..2][0] == x[0];
    }
  }

  lemma ColonFirstIsPathOnly(x: string)
    requires NetlocOk(x)
    ensures PathOnly("://" + x)
  {
    var y := "://" + x;
    assert Find(y, ':') == 0;
    assert y[..2] == ":/";
    assert y == ":" + "//" + x;
    forall k | 0 <= k < |x| ensures x[k] != '#' && x[k] != '?' {
      assert !IsNetlocDelim(x[k]);
    }
  }

  /** A string that is all path normalizes to `://` followed by it. */
  lemma NormalizePathOnly(s: string)
    requires PathOnly(s)
    ensures NormalizeString(s) == "://" + s
  {
    SplitNetlocAbsent(s);
    SplitOnceAbsent(s, '#');
    SplitOnceAbsent(s, '?');
    ParseSteps(s, "", s, "", s, s, "", s, "");
    NormalizeUrlParts(Parse(s));
  }

  lemma SplitSchemeAppend(s: string, tail: string)
    requires tail != [] && !IsSchemeChar(tail[0]) && tail[0] != ':'
    ensures SplitScheme(s + tail) == (SplitScheme(s).0, SplitScheme(s).1 + tail)
  {
    if ':' in s {
      SplitSchemeAppendFound(s, tail);
    } else {
      SplitSchemeAppendMissing(s, tail);
    }
  }

  lemma SplitSchemeAppendFound(s: string, tail: string)
    requires ':' in s
    ensures SplitScheme(s + tail) == (SplitScheme(s).0, SplitScheme(s).1 + tail)
  {
    var t := s + tail;
    var i := Find(s, ':');
    FindInPrefix(s, tail, ':');
    SchemeBeforePrefix(s, tail, i);
    assert t[..i] == s[..i];
    DropAfter(s, tail, i + 1);
  }

  /** Whether a scheme ends at `i` depends only on the first `i + 1`
      characters. */
  lemma SchemeBeforePrefix(s: string, tail: string, i: nat)
    requires i < |s|
    ensures SchemeBefore(s + tail, i) == SchemeBefore(s, i)
  {
    var t := s + tail;
    assert forall k :: 0 <= k <= i ==> t[k] == s[k];
  }

  lemma SplitSchemeAppendMissing(s: string, tail: string)
    requires ':' !in s
    requires tail != [] && !IsSchemeChar(tail[0]) && tail[0] != ':'
    ensures SplitScheme(s + tail) == ("", s + tail)
    ensures SplitScheme(s) == ("", s)
  {
    var t := s + tail;
    FindAppend(s, tail, ':');
    var j := Find(t, ':');
    assert t[|s|] == tail[0];
    assert j != |s|;
    assert !SchemeBefore(t, j) by {
      if 0 < j < |t| {
        if |s| == 0 {
          assert !IsAsciiAlpha(t[0]);
        } else {
          assert !IsSchemeChar(t[|s|]);
        }
      }
    }
  }

  lemma SplitNetlocAppend(r: string, tail: string)
    requires tail != [] && (tail[0] == '?' || tail[0] == '#')
    ensures SplitNetloc(r + tail) == (SplitNetloc(r).0, SplitNetloc(r).1 + tail)
  {
    if |r| >= 2 && r[..2] == "//" {
      SplitNetlocAppendPresent(r, tail);
    } else {
      SplitNetlocAppendAbsent(r, tail);
    }
  }

  lemma SplitNetlocAppendPresent(r: string, tail: string)
    requires |r| >= 2 && r[..2] == "//"
    requires tail != [] && (tail[0] == '?' || tail[0] == '#')
    ensures SplitNetloc(r + tail) == (SplitNetloc(r).0, SplitNetloc(r).1 + tail)
  {
    var t := r + tail;
    assert t[..2] == "//";
    assert t[2..] == r[2..] + tail;
    FindDelimAppend(r[2..], tail);
    var j := 2 + FindDelim(r[2..]);
    assert t[2..j] == r[2..j];
    DropAfter(r, tail, j);
    SplitNetlocPresent(r);
    SplitNetlocPresent(t);
  }

  lemma SplitNetlocAppendAbsent(r: string, tail: string)
    requires !(|r| >= 2 && r[..2] == "//")
    requires tail != [] && (tail[0] == '?' || tail[0] == '#')
    ensures SplitNetloc(r + tail) == (SplitNetloc(r).0, SplitNetloc(r).1 + tail)
  {
    var t := r + tail;
    if |r| >= 2 {
      assert t[..2] == r[..2];
    } else if |r| == 1 {
      assert t[1] == tail[0];
    } else {
      assert t[0] == tail[0];
    }
    SplitNetlocAbsent(r);
    SplitNetlocAbsent(t);
  }

  /** Appending a fragment changes nothing in the normalized form. */
  lemma NormalizeIgnoresFragment(s: string, f: string)
    requires '#' !in s
    ensures Parse(s + "#" + f) == Parse(s).(fragment := f)
    ensures NormalizeString(s + "#" + f) == NormalizeString(s)
  {
    ParseIgnoresFragment(s, f);
    var u := Parse(s);
    NormalizeUrlIgnoresFragment(u, Parse(s + "#" + f));
  }

  /** The rendering never looks at the fragment. */
  lemma NormalizeUrlIgnoresFragment(u: Url, u': Url)
    requires WellFormed(u) && WellFormed(u')
    requires u' == u.(fragment := u'.fragment)
    ensures NormalizeUrl(u') == NormalizeUrl(u)
  {
  }

  lemma ParseIgnoresFragment(s: string, f: string)
    requires '#' !in s
    ensures Parse(s + "#" + f) == Parse(s).(fragment := f)
  {
    var tail := "#" + f;
    assert s + "#" + f == s + tail;
    SplitSchemeAppend(s, tail);
    var scheme := SplitScheme(s).0;
    var r := SplitScheme(s).1;
    AbsentFromSuffix(s, |s| - |r|, '#');
    SplitNetlocAppend(r, tail);
    var netloc := SplitNetloc(r).0;
    var r2 := SplitNetloc(r).1;
    AbsentFromSuffix(r, |r| - |r2|, '#');
    assert r2 + tail == r2 + ['#'] + f;
    SplitOnceAt(r2, '#', f);
    SplitOnceAbsent(r2, '#');
    var path := SplitOnce(r2, '?').0;
    var query := SplitOnce(r2, '?').1;
    ParseSteps(s + tail, scheme, r + tail, netloc, r2 + tail, r2, f, path, query);
    ParseSteps(s, scheme, r, netloc, r2, r2, "", path, query);
  }

  // ---------------------------------------------------------------------
  // get_base_path

  /** `get_base_path`: the directory of the page — the path itself when it
      already ends in `/`, otherwise the path with its final segment removed,
      or `/` when nothing is left. */
  function GetBasePath(u: Url): (r: string)
    ensures EndsWith(r, "/")
    ensures EndsWith(u.path, "/") ==> r == u.path
    ensures '/' in u.path ==> r <= u.path && '/' !in u.path[|r|..]
    ensures '/' !in u.path ==> r == "/"
  {
    var path := u.path;
    if EndsWith(path, "/") then
      assert path[|path| - 1] == '/';
      path
    else
      DirectoryOf(path)
  }

  /** The directory part of a path that does not end in `/`: everything
      through its last `/`, or `/` when it has none. */
  function DirectoryOf(path: string): (r: string)
    requires !EndsWith(path, "/")
    ensures EndsWith(r, "/")
    ensures '/' in path ==> r <= path && '/' !in path[|r|..]
    ensures '/' !in path ==> r == "/"
  {
    assert RStrip(path, '/') == path by {
      assert path == [] || path[|path| - 1] != '/';
    }
    var parts := Split(RStrip(path, '/'), '/');
    if |parts| > 1 then
      JoinAllButLast(path, '/');
      assert Join(parts[..|parts| - 1], '/') + "/" == JoinedAllButLast(path, '/');
      Join(parts[..|parts| - 1], '/') + "/"
    else
      "/"
  }

  /** The directory of a directory is itself. */
  lemma GetBasePathIdempotent(u: Url)
    ensures GetBasePath(u.(path := GetBasePath(u))) == GetBasePath(u)
  {
  }

  // ---------------------------------------------------------------------
  // is_child_path

  /** `is_child_path`: same network location, and the target's path starts
      with the base's directory as a plain string prefix. */
  function IsChildPath(base: Url, target: Url): (r: bool)
    ensures base.netloc != target.netloc ==> !r
    ensures r <==> base.netloc == target.netloc && GetBasePath(base) <= target.path
  {
    base.netloc == target.netloc && StartsWith(target.path, GetBasePath(base))
  }

  /** A base whose path has a `/` is inside its own scope, and any URL on the
      same host whose path extends it is too. */
  lemma {:induction false} BaseIsInOwnScope(base: Url, target: Url)
    requires '/' in base.path
    requires target.netloc == base.netloc && base.path <= target.path
    ensures IsChildPath(base, base)
    ensures IsChildPath(base, target)
  {
    var scope := GetBasePath(base);
    assert scope <= base.path;
    assert base.path[..|scope|] == scope;
    assert target.path[..|scope|] == base.path[..|scope|];
  }

  /** Whether a URL is inside the scope never depends on its query or
      fragment, nor on the base's query or fragment. */
  lemma ScopeIgnoresQueryAndFragment(base: Url, target: Url, q: string, f: string, q': string, f': string)
    ensures IsChildPath(base.(query := q', fragment := f'), target.(query := q, fragment := f))
            == IsChildPath(base, target)
  {
  }

  // ---------------------------------------------------------------------
  // calculate_depth

  /** What is left of the target's path once as many characters as the
      base's directory holds are cut off the front (Python slicing: empty when
      the path is shorter). The front is not checked against the directory. */
  function RelativePath(base: Url, target: Url): string {
    var n := |GetBasePath(base)|;
    if n <= |target.path| then target.path[n..] else ""
  }

  predicate AllSlashes(s: string) {
    forall k :: 0 <= k < |s| ==> s[k] == '/'
  }

  /** `calculate_depth`: 0 when the relative path is empty or only slashes,
      otherwise one more than the number of `/` left once the trailing ones
      are stripped. */
  function CalculateDepth(base: Url, target: Url): (d: int)
    ensures d >= 0
    ensures d == 0 <==> AllSlashes(RelativePath(base, target))
    ensures d > 0 ==> d == Count(RStrip(RelativePath(base, target), '/'), '/') + 1
  {
    DepthOf(RelativePath(base, target))
  }

  /** The depth of a relative path. */
  function DepthOf(rel: string): (d: int)
    ensures d >= 0
    ensures d == 0 <==> AllSlashes(rel)
    ensures d > 0 ==> d == Count(RStrip(rel, '/'), '/') + 1
  {
    if rel == "" || rel == "/" then 0
    else
      var stripped := RStrip(rel, '/');
      RStripEmpty(rel, '/');
      if stripped != "" then Count(stripped, '/') + 1 else 0
  }

  /** Trailing slashes after a last character that is not one are all that
      `rstrip('/')` removes. */
  lemma StripTrailing(joined: string, trailing: bool)
    requires joined != [] && joined[|joined| - 1] != '/'
    ensures RStrip(joined + (if trailing then "/" else ""), '/') == joined
  {
    if trailing {
      var t := joined + "/";
      assert t[..|t| - 1] == joined;
    }
  }

  /** A target whose path is the base's directory followed by `n` non-empty
      segments, with or without a trailing `/`, is at depth `n`. */
  lemma DepthCountsSegments(base: Url, target: Url, segments: seq<string>, trailing: bool)
    requires forall k :: 0 <= k < |segments| ==> segments[k] != "" && '/' !in segments[k]
    requires target.path == GetBasePath(base) + (Join(segments, '/') + (if trailing then "/" else ""))
    ensures CalculateDepth(base, target) == |segments|
  {
    RelativeOf(base, target, Join(segments, '/') + (if trailing then "/" else ""));
    SegmentsDepth(segments, trailing);
  }

  /** The depth of `n` non-empty segments joined by `/`, with or without a
      trailing `/`, is `n`. */
  lemma SegmentsDepth(segments: seq<string>, trailing: bool)
    requires forall k :: 0 <= k < |segments| ==> segments[k] != "" && '/' !in segments[k]
    ensures DepthOf(Join(segments, '/') + (if trailing then "/" else "")) == |segments|
  {
    var rel := Join(segments, '/') + (if trailing then "/" else "");
    if segments == [] {
      assert AllSlashes(rel) by {
        assert rel == "" || rel == "/";
      }
    } else {
      SegmentsTail(segments, trailing);
      CountJoin(segments, '/');
    }
  }

  lemma RelativeOf(base: Url, target: Url, rel: string)
    requires target.path == GetBasePath(base) + rel
    ensures RelativePath(base, target) == rel
  {
    assert target.path[|GetBasePath(base)|..] == rel;
  }

  /** Non-empty segments joined by `/`, perhaps with a trailing `/`, are not
      all slashes and strip back to the join. */
  lemma SegmentsTail(segments: seq<string>, trailing: bool)
    requires segments != []
    requires forall k :: 0 <= k < |segments| ==> segments[k] != "" && '/' !in segments[k]
    ensures var joined := Join(segments, '/');
            var rel := joined + (if trailing then "/" else "");
            !AllSlashes(rel) && RStrip(rel, '/') == joined
  {
    var joined := Join(segments, '/');
    var rel := joined + (if trailing then "/" else "");
    var last := segments[|segments| - 1];
    JoinEndsWithLast(segments, '/');
    assert joined[|joined| - 1] == last[|last| - 1];
    StripTrailing(joined, trailing);
    assert rel[|joined| - 1] == joined[|joined| - 1];
  }

  /** `calculate_depth(base, base)` is 0 for a base that ends in `/`. */
  lemma DepthOfDirectoryIsZero(base: Url)
    requires EndsWith(base.path, "/")
    ensures CalculateDepth(base, base) == 0
  {
    DepthCountsSegments(base, base, [], false);
  }
}
