/** The few Python `str` operations the crawler relies on, over `seq<char>`.
    Each is stated by what it returns, so the URL and path code can be reasoned
    about without unfolding recursion. */
module Strings {

  /** Index of the first `c` in `s`, or `|s|` when there is none
      (Python's `str.find` answers -1 there). */
  function Find(s: string, c: char): (i: nat)
    ensures i <= |s|
    ensures i < |s| ==> s[i] == c
    ensures forall k :: 0 <= k < i ==> s[k] != c
    ensures i == |s| <==> c !in s
  {
    if s == [] then 0
    else if s[0] == c then 0
    else 1 + Find(s[1..], c)
  }

  lemma {:induction false} FindAppend(a: string, b: string, c: char)
    requires c !in a
    ensures Find(a + b, c) == |a| + Find(b, c)
  {
    if a == [] {
      assert a + b == b;
    } else {
      assert (a + b)[1..] == a[1..] + b;
      FindAppend(a[1..], b, c);
    }
  }

  /** `s.endswith(suffix)` */
  predicate EndsWith(s: string, suffix: string) {
    |suffix| <= |s| && s[|s| - |suffix|..] == suffix
  }

  /** `s.startswith(prefix)` */
  predicate StartsWith(s: string, prefix: string) {
    prefix <= s
  }

  /** `s.rstrip(c)`: the longest prefix of `s` not ending in `c`. */
  function RStrip(s: string, c: char): (r: string)
    ensures r <= s
    ensures r == [] || r[|r| - 1] != c
    ensures forall k :: |r| <= k < |s| ==> s[k] == c
    ensures (s == [] || s[|s| - 1] != c) ==> r == s
  {
    if s == [] then []
    else if s[|s| - 1] == c then RStrip(s[..|s| - 1], c)
    else s
  }

  /** Only a string made of `c` alone strips down to nothing. */
  lemma RStripEmpty(s: string, c: char)
    ensures RStrip(s, c) == [] <==> forall k :: 0 <= k < |s| ==> s[k] == c
  {
    var r := RStrip(s, c);
    if r != [] {
      assert s[|r| - 1] == r[|r| - 1];
    }
  }

  /** `s.lstrip(c)`: the longest suffix of `s` not starting with `c`. */
  function LStrip(s: string, c: char): (r: string)
    ensures |r| <= |s| && r == s[|s| - |r|..]
    ensures r == [] || r[0] != c
    ensures forall k :: 0 <= k < |s| - |r| ==> s[k] == c
  {
    if s == [] then []
    else if s[0] == c then LStrip(s[1..], c)
    else s
  }

  /** `s.strip(c)`: the slice of `s` left once every leading and trailing
      `c` is cut off. */
  function Strip(s: string, c: char): (r: string)
    ensures r == [] || (r[0] != c && r[|r| - 1] != c)
    ensures exists i :: StrippedAt(s, c, i, r)
  {
    var t := RStrip(s, c);
    var r := LStrip(t, c);
    StripCut(s, c, t, r);
    r
  }

  /** `r` is the slice of `s` that starts at `i`, and only `c`s lie outside it. */
  predicate StrippedAt(s: string, c: char, i: int, r: string) {
    && 0 <= i && i + |r| <= |s| && r == s[i..i + |r|]
    && (forall k :: 0 <= k < i ==> s[k] == c)
    && (forall k :: i + |r| <= k < |s| ==> s[k] == c)
  }

  lemma StripCut(s: string, c: char, t: string, r: string)
    requires t == RStrip(s, c) && r == LStrip(t, c)
    ensures r == [] || (r[0] != c && r[|r| - 1] != c)
    ensures exists i :: StrippedAt(s, c, i, r)
  {
    SliceCut(s, c, t, r);
    SuffixEnds(t, c, r);
  }

  /** A suffix of a string that does not end in `c` does not end in `c`
      either. */
  lemma SuffixEnds(t: string, c: char, r: string)
    requires |r| <= |t| && r == t[|t| - |r|..]
    requires t == [] || t[|t| - 1] != c
    requires r == [] || r[0] != c
    ensures r == [] || (r[0] != c && r[|r| - 1] != c)
  {
    if r != [] {
      assert r[|r| - 1] == t[|t| - 1];
    }
  }

  /** A suffix `r` of a prefix `t` of `s`, with only `c`s around it. */
  lemma SliceCut(s: string, c: char, t: string, r: string)
    requires t <= s && (forall k :: |t| <= k < |s| ==> s[k] == c)
    requires |r| <= |t| && r == t[|t| - |r|..] && (forall k :: 0 <= k < |t| - |r| ==> t[k] == c)
    ensures StrippedAt(s, c, |t| - |r|, r)
  {
    var i := |t| - |r|;
    assert s[i..i + |r|] == t[i..];
    forall k | 0 <= k < i ensures s[k] == c {
      assert s[k] == t[k];
    }
  }

  /** `s.count(c)` for a one-character `c`. */
  function Count(s: string, c: char): (n: nat)
    ensures n <= |s|
    ensures n == 0 <==> c !in s
  {
    if s == [] then 0
    else (if s[0] == c then 1 else 0) + Count(s[1..], c)
  }

  lemma {:induction false} CountAppend(a: string, b: string, c: char)
    ensures Count(a + b, c) == Count(a, c) + Count(b, c)
  {
    if a == [] {
      assert a + b == b;
    } else {
      assert (a + b)[1..] == a[1..] + b;
      CountAppend(a[1..], b, c);
    }
  }

  lemma CountAtFirst(s: string, c: char, i: nat)
    requires i < |s| && s[i] == c && c !in s[..i]
    ensures Count(s, c) == 1 + Count(s[i + 1..], c)
  {
    assert s == s[..i] + ([c] + s[i + 1..]);
    CountAppend(s[..i], [c] + s[i + 1..], c);
    CountAppend([c], s[i + 1..], c);
  }

  /** `s.split(c)`: the pieces between occurrences of `c`; there is always one
      more piece than there are separators. */
  function Split(s: string, c: char): (parts: seq<string>)
    ensures |parts| == Count(s, c) + 1
    ensures forall k :: 0 <= k < |parts| ==> c !in parts[k]
  {
    PiecesShape(s, c);
    Pieces(s, c)
  }

  /** The recursion behind `Split`: the piece before the first `c`, then the
      pieces of what follows it. */
  function Pieces(s: string, c: char): seq<string>
    decreases |s|, 1
  {
    PiecesFrom(s, c, Find(s, c))
  }

  function PiecesFrom(s: string, c: char, i: nat): seq<string>
    requires i <= |s|
    decreases |s|, 0
  {
    if i == |s| then [s] else [s[..i]] + Pieces(s[i + 1..], c)
  }

  lemma {:induction false} PiecesShape(s: string, c: char)
    ensures |Pieces(s, c)| == Count(s, c) + 1
    ensures forall k :: 0 <= k < |Pieces(s, c)| ==> c !in Pieces(s, c)[k]
  {
    PiecesCount(s, c);
    PiecesNoSeparator(s, c);
  }

  lemma {:induction false} PiecesCount(s: string, c: char)
    ensures |Pieces(s, c)| == Count(s, c) + 1
    decreases |s|
  {
    var i := Find(s, c);
    if i < |s| {
      PiecesCount(s[i + 1..], c);
      PiecesFirst(s, c, i);
      BeforeFind(s, c, i);
      CountAtFirst(s, c, i);
    } else {
      PiecesWithout(s, c);
    }
  }

  lemma {:induction false} PiecesNoSeparator(s: string, c: char)
    ensures forall k :: 0 <= k < |Pieces(s, c)| ==> c !in Pieces(s, c)[k]
    decreases |s|
  {
    var i := Find(s, c);
    if i < |s| {
      PiecesNoSeparator(s[i + 1..], c);
      PiecesFirst(s, c, i);
      BeforeFind(s, c, i);
      ConsNoSeparator(s[..i], Pieces(s[i + 1..], c), c);
    } else {
      PiecesWithout(s, c);
    }
  }

  lemma BeforeFind(s: string, c: char, i: nat)
    requires i == Find(s, c)
    ensures c !in s[..i]
  {
  }

  lemma ConsNoSeparator(x: string, ys: seq<string>, c: char)
    requires c !in x
    requires forall k :: 0 <= k < |ys| ==> c !in ys[k]
    ensures forall k :: 0 <= k < |[x] + ys| ==> c !in ([x] + ys)[k]
  {
    forall k | 0 <= k < |[x] + ys| ensures c !in ([x] + ys)[k] {
      if k > 0 {
        assert ([x] + ys)[k] == ys[k - 1];
      }
    }
  }

  /** `c.join(parts)` */
  function Join(parts: seq<string>, c: char): string {
    if parts == [] then []
    else if |parts| == 1 then parts[0]
    else parts[0] + [c] + Join(parts[1..], c)
  }

  /** All pieces of `s.split(c)` but the last, joined back by `c`, with a
      final `c`. */
  function JoinedAllButLast(s: string, c: char): string {
    var parts := Split(s, c);
    Join(parts[..|parts| - 1], c) + [c]
  }

  lemma JoinCons(x: string, ys: seq<string>, c: char)
    requires |ys| >= 1
    ensures Join([x] + ys, c) == x + [c] + Join(ys, c)
  {
    assert ([x] + ys)[1..] == ys;
  }

  /** That string is the prefix of `s` that runs through its last `c`. */
  lemma JoinAllButLast(s: string, c: char)
    requires c in s
    ensures JoinedAllButLast(s, c) <= s
    ensures c !in s[|JoinedAllButLast(s, c)|..]
  {
    var parts := Split(s, c);
    assert |parts| >= 2;
    JoinSplit(s, c);
    FrontOfJoin(s, parts, c);
  }

  /** In a join of two or more pieces, all pieces but the last with a final
      `c` are a prefix, and what follows is the last piece. */
  lemma FrontOfJoin(s: string, parts: seq<string>, c: char)
    requires |parts| >= 2 && Join(parts, c) == s && c !in parts[|parts| - 1]
    ensures var front := Join(parts[..|parts| - 1], c) + [c];
            front <= s && c !in s[|front|..]
  {
    JoinSnoc(parts, c);
    FrontOf(Join(parts[..|parts| - 1], c) + [c], parts[|parts| - 1]);
  }

  lemma FrontOf(front: string, last: string)
    ensures front <= front + last && (front + last)[|front|..] == last
  {
  }

  /** Joining the pieces of a split gives back the string. */
  lemma JoinSplit(s: string, c: char)
    ensures Join(Split(s, c), c) == s
  {
    JoinPieces(s, c);
  }

  lemma {:induction false} JoinPieces(s: string, c: char)
    ensures Join(Pieces(s, c), c) == s
    decreases |s|
  {
    var i := Find(s, c);
    if i < |s| {
      JoinPieces(s[i + 1..], c);
      JoinPiecesStep(s, c, i);
    } else {
      PiecesWithout(s, c);
    }
  }

  lemma JoinPiecesStep(s: string, c: char, i: nat)
    requires i == Find(s, c) && i < |s|
    requires Join(Pieces(s[i + 1..], c), c) == s[i + 1..]
    ensures Join(Pieces(s, c), c) == s
  {
    var ys := Pieces(s[i + 1..], c);
    PiecesFirst(s, c, i);
    PiecesNonEmpty(s[i + 1..], c);
    JoinCons(s[..i], ys, c);
    SeparatorAt(s, c, i);
  }

  lemma PiecesNonEmpty(s: string, c: char)
    ensures |Pieces(s, c)| >= 1
  {
  }

  /** A string is the text before a `c`, that `c`, and the text after it. */
  lemma SeparatorAt(s: string, c: char, i: nat)
    requires i < |s| && s[i] == c
    ensures s == s[..i] + [c] + s[i + 1..]
  {
    var t := s[..i] + [c] + s[i + 1..];
    assert |t| == |s|;
    forall k | 0 <= k < |s| ensures t[k] == s[k] {
      if k < i {
        assert t[k] == s[..i][k];
      } else if k > i {
        assert t[k] == s[i + 1..][k - i - 1];
      }
    }
  }

  /** A join of two or more pieces ends with `c` and the last piece. */
  lemma {:induction false} JoinSnoc(parts: seq<string>, c: char)
    requires |parts| >= 2
    ensures Join(parts, c) == Join(parts[..|parts| - 1], c) + [c] + parts[|parts| - 1]
  {
    var n := |parts|;
    if n > 2 {
      var rest := parts[1..];
      JoinSnoc(rest, c);
      assert rest[..|rest| - 1] == parts[1..n - 1];
      assert parts[..n - 1] == [parts[0]] + parts[1..n - 1];
      JoinCons(parts[0], parts[1..n - 1], c);
    } else {
      assert parts[..1] == [parts[0]];
    }
  }

  /** When the first `c` is at `i`, the split is the piece before it and the
      split of what follows. */
  lemma PiecesFirst(s: string, c: char, i: nat)
    requires i == Find(s, c) && i < |s|
    ensures Pieces(s, c) == [s[..i]] + Pieces(s[i + 1..], c)
  {
  }

  lemma PiecesWithout(s: string, c: char)
    requires c !in s
    ensures Pieces(s, c) == [s]
  {
    assert Find(s, c) == |s|;
  }

  /** A string without `c` splits into itself alone. */
  lemma SplitWithout(s: string, c: char)
    requires c !in s
    ensures Split(s, c) == [s]
  {
    PiecesWithout(s, c);
  }

  /** Pieces without `c`, none of them empty, joined by `c`: the result holds
      one `c` fewer than there are pieces. */
  lemma {:induction false} CountJoin(parts: seq<string>, c: char)
    requires |parts| >= 1
    requires forall k :: 0 <= k < |parts| ==> c !in parts[k]
    ensures Count(Join(parts, c), c) == |parts| - 1
  {
    if |parts| > 1 {
      CountJoin(parts[1..], c);
      CountAppend(parts[0], [c] + Join(parts[1..], c), c);
      CountAppend([c], Join(parts[1..], c), c);
      assert parts[0] + [c] + Join(parts[1..], c) == parts[0] + ([c] + Join(parts[1..], c));
    }
  }

  /** The last piece of a join is the last piece joined. */
  lemma {:induction false} JoinEndsWithLast(parts: seq<string>, c: char)
    requires |parts| >= 1
    ensures EndsWith(Join(parts, c), parts[|parts| - 1])
  {
    if |parts| > 1 {
      JoinEndsWithLast(parts[1..], c);
      var j := Join(parts[1..], c);
      var whole := parts[0] + [c] + j;
      assert whole[|whole| - |j|..] == j;
      assert whole[|whole| - |parts[|parts| - 1]|..] == j[|j| - |parts[|parts| - 1]|..];
    }
  }

  /** Splitting a join of pieces that hold no `c` gives the pieces back. */
  lemma SplitJoin(parts: seq<string>, c: char)
    requires |parts| >= 1
    requires forall k :: 0 <= k < |parts| ==> c !in parts[k]
    ensures Split(Join(parts, c), c) == parts
  {
    PiecesJoin(parts, c);
  }

  lemma {:induction false} PiecesJoin(parts: seq<string>, c: char)
    requires |parts| >= 1
    requires forall k :: 0 <= k < |parts| ==> c !in parts[k]
    ensures Pieces(Join(parts, c), c) == parts
  {
    if |parts| == 1 {
      PiecesWithout(parts[0], c);
    } else {
      var rest := Join(parts[1..], c);
      var s := parts[0] + [c] + rest;
      CutAtSeparator(parts[0], c, rest);
      PiecesFirst(s, c, |parts[0]|);
      PiecesJoin(parts[1..], c);
      assert parts == [parts[0]] + parts[1..];
    }
  }

  /** In `a + [c] + rest` with no `c` in `a`, the first `c` is the one after `a`. */
  lemma CutAtSeparator(a: string, c: char, rest: string)
    requires c !in a
    ensures var s := a + [c] + rest;
            c in s && Find(s, c) == |a| && s[..|a|] == a && s[|a| + 1..] == rest
  {
    var s := a + [c] + rest;
    FindAppend(a, [c] + rest, c);
    assert s == a + ([c] + rest);
    assert s[|a|] == c;
  }

  /** Characters for which Python's `str.isspace()` holds. */
  predicate IsSpace(ch: char) {
    var n := ch as int;
    n == 0x20 || 0x09 <= n <= 0x0D || 0x1C <= n <= 0x1F || n == 0x85 || n == 0xA0 ||
    n == 0x1680 || 0x2000 <= n <= 0x200A || n == 0x2028 || n == 0x2029 ||
    n == 0x202F || n == 0x205F || n == 0x3000
  }

  /** `s.strip()` with no argument: the slice of `s` left once leading and
      trailing whitespace is cut off. */
  function Trim(s: string): (r: string)
    ensures |r| <= |s|
    ensures r == [] || (!IsSpace(r[0]) && !IsSpace(r[|r| - 1]))
    ensures (forall k :: 0 <= k < |s| ==> IsSpace(s[k])) <==> r == []
    ensures exists i :: TrimmedAt(s, i, r)
  {
    var r := TrimEnds(s);
    TrimEndsCut(s);
    var i :| TrimmedAt(s, i, r);
    TrimmedSpaces(s, i, r);
    r
  }

  /** The cutting itself, one whitespace character at a time. */
  function TrimEnds(s: string): string
  {
    if s == [] then []
    else if IsSpace(s[0]) then TrimEnds(s[1..])
    else if IsSpace(s[|s| - 1]) then TrimEnds(s[..|s| - 1])
    else s
  }

  lemma {:induction false} TrimEndsCut(s: string)
    ensures var r := TrimEnds(s);
            r == [] || (!IsSpace(r[0]) && !IsSpace(r[|r| - 1]))
    ensures exists i :: TrimmedAt(s, i, TrimEnds(s))
  {
    if s == [] {
      assert TrimmedAt(s, 0, []);
    } else if IsSpace(s[0]) {
      TrimEndsCut(s[1..]);
      var i :| TrimmedAt(s[1..], i, TrimEnds(s[1..]));
      TrimmedDropFirst(s, i, TrimEnds(s[1..]));
    } else if IsSpace(s[|s| - 1]) {
      TrimEndsCut(s[..|s| - 1]);
      var i :| TrimmedAt(s[..|s| - 1], i, TrimEnds(s[..|s| - 1]));
      TrimmedDropLast(s, i, TrimEnds(s[..|s| - 1]));
    } else {
      assert TrimmedAt(s, 0, s);
    }
  }

  /** A trimmed slice with no whitespace at its ends is empty exactly when
      `s` holds only whitespace. */
  lemma TrimmedSpaces(s: string, i: int, r: string)
    requires TrimmedAt(s, i, r)
    requires r == [] || (!IsSpace(r[0]) && !IsSpace(r[|r| - 1]))
    ensures |r| <= |s|
    ensures (forall k :: 0 <= k < |s| ==> IsSpace(s[k])) <==> r == []
  {
    if r != [] {
      assert s[i] == r[0];
    }
  }

  /** `r` is the slice of `s` that starts at `i`, and only whitespace lies
      outside it. */
  predicate TrimmedAt(s: string, i: int, r: string) {
    && 0 <= i && i + |r| <= |s| && r == s[i..i + |r|]
    && (forall k :: 0 <= k < i ==> IsSpace(s[k]))
    && (forall k :: i + |r| <= k < |s| ==> IsSpace(s[k]))
  }

  lemma TrimmedDropFirst(s: string, i: int, r: string)
    requires s != [] && IsSpace(s[0]) && TrimmedAt(s[1..], i, r)
    ensures TrimmedAt(s, i + 1, r)
  {
    var t := s[1..];
    assert s[i + 1..i + 1 + |r|] == t[i..i + |r|];
    forall k | 0 <= k < i + 1 ensures IsSpace(s[k]) {
      if k > 0 {
        assert s[k] == t[k - 1];
      }
    }
    forall k | i + 1 + |r| <= k < |s| ensures IsSpace(s[k]) {
      assert s[k] == t[k - 1];
    }
  }

  lemma TrimmedDropLast(s: string, i: int, r: string)
    requires s != [] && IsSpace(s[|s| - 1]) && TrimmedAt(s[..|s| - 1], i, r)
    ensures TrimmedAt(s, i, r)
  {
    var t := s[..|s| - 1];
    assert s[i..i + |r|] == t[i..i + |r|];
    forall k | 0 <= k < i ensures IsSpace(s[k]) {
      assert s[k] == t[k];
    }
    forall k | i + |r| <= k < |s| - 1 ensures IsSpace(s[k]) {
      assert s[k] == t[k];
    }
  }

  /** A string with no whitespace at either end is its own `strip()`. */
  lemma TrimClean(s: string)
    requires s != [] && !IsSpace(s[0]) && !IsSpace(s[|s| - 1])
    ensures Trim(s) == s
  {
  }

  predicate IsAsciiUpper(ch: char) { 'A' <= ch <= 'Z' }
  predicate IsAsciiLower(ch: char) { 'a' <= ch <= 'z' }

  /** `s.lower()` restricted to ASCII letters; other characters are kept. */
  function Lower(s: string): (r: string)
    ensures |r| == |s|
    ensures forall k :: 0 <= k < |s| ==> !IsAsciiUpper(r[k])
    ensures forall k :: 0 <= k < |s| ==>
      r[k] == if IsAsciiUpper(s[k]) then (s[k] as int + 32) as char else s[k]
  {
    if s == [] then []
    else [if IsAsciiUpper(s[0]) then (s[0] as int + 32) as char else s[0]] + Lower(s[1..])
  }
}
