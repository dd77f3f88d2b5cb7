/** The Facebook Graph API scraper without the network: page normalisation,
    comment text clean-up, the classification of failed responses with its
    bounded retry, capped paging over a given sequence of result pages, the
    per-post comment budget, and the first-occurrence dedupe of the comments.
    Every HTTP response is an input: `FbGet` reads the response to its n-th
    attempt from a function, and paging reads the n-th page of results from
    a sequence. */
module FbScraper {
  import opened Base
  import opened Text

  // ---------------------------------------------------------------------------
  // normalize_page

  /** What `urlparse` and `parse_qs` give for a URL: the values of its `id`
      query parameter (blank values dropped) and its path. */
  datatype UrlParts = UrlParts(idValues: seq<string>, path: string)

  /** Index of the last non-empty string of `segs`, if any. */
  function LastNonEmpty(segs: seq<string>): (r: Option<nat>)
    ensures r.Some? ==>
      r.value < |segs| && segs[r.value] != "" && forall j :: r.value < j < |segs| ==> segs[j] == ""
    ensures r.None? ==> forall j :: 0 <= j < |segs| ==> segs[j] == ""
  {
    if segs == [] then None
    else if segs[|segs| - 1] != "" then Some(|segs| - 1)
    else LastNonEmpty(segs[..|segs| - 1])
  }

  /** `normalize_page`: a URL gives its `id` parameter, else its last
      non-empty path segment, else itself; anything else is only stripped. */
  function NormalizePage(page: string, parse: string -> UrlParts): (r: string)
    ensures var p := PyStrip(page);
      (!StartsWith(p, "http") ==> r == p)
      && (StartsWith(p, "http") && parse(p).idValues != [] ==> r == parse(p).idValues[0])
      && (StartsWith(p, "http") && parse(p).idValues == [] ==>
            var segs := Split(parse(p).path, '/');
            (LastNonEmpty(segs).Some? ==> r == segs[LastNonEmpty(segs).value])
            && (LastNonEmpty(segs).None? ==> r == p))
  {
    var p := PyStrip(page);
    if StartsWith(p, "http") then
      var u := parse(p);
      if u.idValues != [] then u.idValues[0]
      else
        var segs := Split(u.path, '/');
        match LastNonEmpty(segs)
        case Some(i) => segs[i]
        case None => p
    else p
  }

  /** A handle taken from a URL path is a single non-empty segment. */
  lemma PathSegmentResult(page: string, parse: string -> UrlParts)
    requires StartsWith(PyStrip(page), "http") && parse(PyStrip(page)).idValues == []
    requires LastNonEmpty(Split(parse(PyStrip(page)).path, '/')).Some?
    ensures NormalizePage(page, parse) != "" && '/' !in NormalizePage(page, parse)
  {
  }

  /** Python `str.isdigit` on ASCII text: non-empty and all digits. */
  predicate AllDigits(s: string)
  {
    s != [] && forall i :: 0 <= i < |s| ==> IsDigit(s[i])
  }

  /** `resolve_page_id`: a numeric handle is already the id; any other is
      looked up, `lookup` giving the `id` field of the Graph API answer or
      `None` when the request fails or the answer has none (both raise). */
  function ResolvePageId(page: string, parse: string -> UrlParts, lookup: string -> Option<string>): (r: Option<string>)
    ensures var p := NormalizePage(page, parse);
      (AllDigits(p) ==> r == Some(p)) && (!AllDigits(p) ==> r == lookup(p))
  {
    var p := NormalizePage(page, parse);
    if AllDigits(p) then Some(p) else lookup(p)
  }

  /** A numeric page, given as it is or as `?id=` of a URL, needs no request. */
  lemma NumericPageNeedsNoLookup(page: string, parse: string -> UrlParts, lookup: string -> Option<string>)
    requires AllDigits(PyStrip(page))
    ensures ResolvePageId(page, parse, lookup) == Some(PyStrip(page))
  {
    assert !StartsWith(PyStrip(page), "http") by {
      assert PyStrip(page)[0] != "http"[0];
    }
  }

  // ---------------------------------------------------------------------------
  // sanitize_text (the white-space part)

  /** `re.sub(r"\s+", " ", s)`: every run of white space becomes one space. */
  function CollapseSpaces(s: string): (r: string)
    ensures r == [] <==> s == []
    ensures s != [] && !IsPySpace(s[0]) ==> r[0] == s[0]
    ensures s != [] && IsPySpace(s[0]) ==> r[0] == ' '
    ensures forall i :: 0 <= i < |r| && IsPySpace(r[i]) ==> r[i] == ' '
    ensures forall i :: 0 <= i < |r| - 1 ==> !(IsPySpace(r[i]) && IsPySpace(r[i + 1]))
    decreases |s|
  {
    if s == [] then []
    else if IsPySpace(s[0]) then
      var n := LeadCount(s, IsPySpace);
      var rest := CollapseSpaces(s[n..]);
      assert rest != [] ==> !IsPySpace(rest[0]);
      [' '] + rest
    else
      var rest := CollapseSpaces(s[1..]);
      [s[0]] + rest
  }

  /** The characters of `s` that do not satisfy `sp`, in order. */
  function Unmatched(s: string, sp: char -> bool): string
  {
    if s == [] then [] else (if sp(s[0]) then [] else [s[0]]) + Unmatched(s[1..], sp)
  }

  /** The characters of `s` that are not white space, in order. */
  function Visible(s: string): string
  {
    Unmatched(s, IsPySpace)
  }

  lemma {:induction false} UnmatchedAppend(a: string, b: string, sp: char -> bool)
    ensures Unmatched(a + b, sp) == Unmatched(a, sp) + Unmatched(b, sp)
  {
    if a == [] {
      assert a + b == b;
    } else {
      assert (a + b)[0] == a[0] && (a + b)[1..] == a[1..] + b;
      UnmatchedAppend(a[1..], b, sp);
    }
  }

  lemma {:induction false} UnmatchedOfMatched(s: string, sp: char -> bool)
    requires forall i :: 0 <= i < |s| ==> sp(s[i])
    ensures Unmatched(s, sp) == []
  {
    if s != [] { UnmatchedOfMatched(s[1..], sp); }
  }

  /** Collapsing white space keeps every other character. */
  lemma {:induction false} VisibleCollapse(s: string)
    ensures Visible(CollapseSpaces(s)) == Visible(s)
    decreases |s|
  {
    if s != [] {
      if IsPySpace(s[0]) {
        var n := LeadCount(s, IsPySpace);
        VisibleCollapse(s[n..]);
        assert s == s[..n] + s[n..];
        UnmatchedAppend(s[..n], s[n..], IsPySpace);
        UnmatchedOfMatched(s[..n], IsPySpace);
        assert ([' '] + CollapseSpaces(s[n..]))[1..] == CollapseSpaces(s[n..]);
      } else {
        VisibleCollapse(s[1..]);
        assert ([s[0]] + CollapseSpaces(s[1..]))[1..] == CollapseSpaces(s[1..]);
      }
    }
  }

  /** Stripping keeps every character that is not white space. */
  lemma VisibleStrip(s: string)
    ensures Visible(PyStrip(s)) == Visible(s)
  {
    TrimFacts(s, IsPySpace);
    UnmatchedInner(s, LeadCount(s, IsPySpace), |PyStrip(s)|, IsPySpace);
  }

  /** Cutting matched characters from both ends keeps the unmatched ones. */
  lemma UnmatchedInner(s: string, a: nat, m: nat, sp: char -> bool)
    requires a + m <= |s|
    requires forall i :: 0 <= i < a ==> sp(s[i])
    requires forall i :: a + m <= i < |s| ==> sp(s[i])
    ensures Unmatched(s[a..a + m], sp) == Unmatched(s, sp)
  {
    UnmatchedDrop(s, a, sp);
    var t := s[a..];
    forall i | m <= i < |t| ensures sp(t[i]) { assert t[i] == s[a + i]; }
    UnmatchedTake(t, m, sp);
    assert t[..m] == s[a..a + m];
  }

  /** A matched prefix contributes nothing. */
  lemma {:induction false} UnmatchedDrop(s: string, a: nat, sp: char -> bool)
    requires a <= |s|
    requires forall i :: 0 <= i < a ==> sp(s[i])
    ensures Unmatched(s[a..], sp) == Unmatched(s, sp)
  {
    if a > 0 {
      UnmatchedDrop(s[1..], a - 1, sp);
      assert s[1..][a - 1..] == s[a..];
    }
  }

  /** A matched suffix contributes nothing. */
  lemma UnmatchedTake(s: string, b: nat, sp: char -> bool)
    requires b <= |s|
    requires forall i :: b <= i < |s| ==> sp(s[i])
    ensures Unmatched(s[..b], sp) == Unmatched(s, sp)
  {
    var p, q := s[..b], s[b..];
    assert Unmatched(q, sp) == [] by {
      forall i | 0 <= i < |q| ensures sp(q[i]) { assert q[i] == s[b + i]; }
      UnmatchedOfMatched(q, sp);
    }
    assert Unmatched(s, sp) == Unmatched(p, sp) + Unmatched(q, sp) by {
      assert s == p + q;
      UnmatchedAppend(p, q, sp);
    }
    assert Unmatched(p, sp) + [] == Unmatched(p, sp);
  }

  /** Not a Python white-space character. */
  predicate NotPySpace(c: char) { !IsPySpace(c) }

  /** A non-empty run of characters none of which is white space. */
  predicate IsWord(w: string)
  {
    w != [] && forall i :: 0 <= i < |w| ==> !IsPySpace(w[i])
  }

  /** `s.split()`: the maximal runs of characters of `s` that are not white
      space, in order. */
  function Words(s: string): seq<string>
    decreases |s|
  {
    if s == [] then []
    else if IsPySpace(s[0]) then Words(s[1..])
    else
      var n := LeadCount(s, NotPySpace);
      [s[..n]] + Words(s[n..])
  }

  /** Every word is non-empty and free of white space, and together the
      words hold exactly the characters of `s` that are not white space. */
  lemma {:induction false} WordsFacts(s: string)
    ensures forall k :: 0 <= k < |Words(s)| ==> IsWord(Words(s)[k])
    ensures Flatten(Words(s)) == Visible(s)
    decreases |s|
  {
    if s != [] {
      if IsPySpace(s[0]) {
        WordsFacts(s[1..]);
      } else {
        var n := LeadCount(s, NotPySpace);
        var w, rest := s[..n], s[n..];
        WordsFacts(rest);
        assert Words(s) == [w] + Words(rest);
        assert ([w] + Words(rest))[1..] == Words(rest);
        assert s == w + rest;
        UnmatchedAppend(w, rest, IsPySpace);
        UnmatchedOfUnmatched(w, IsPySpace);
      }
    }
  }

  lemma {:induction false} UnmatchedOfUnmatched(s: string, sp: char -> bool)
    requires forall i :: 0 <= i < |s| ==> !sp(s[i])
    ensures Unmatched(s, sp) == s
  {
    if s != [] { UnmatchedOfUnmatched(s[1..], sp); }
  }

  /** Collapsing passes a run without white space through unchanged. */
  lemma {:induction false} CollapseNonSpace(w: string, y: string)
    requires forall i :: 0 <= i < |w| ==> !IsPySpace(w[i])
    ensures CollapseSpaces(w + y) == w + CollapseSpaces(y)
  {
    if w == [] {
      assert w + y == y;
    } else {
      var s := w + y;
      assert s[0] == w[0] && s[1..] == w[1..] + y;
      assert CollapseSpaces(s) == [w[0]] + CollapseSpaces(w[1..] + y);
      CollapseNonSpace(w[1..], y);
      ConsRegroup(w, CollapseSpaces(w[1..] + y), CollapseSpaces(y));
    }
  }

  lemma ConsRegroup(w: string, c: string, d: string)
    requires w != [] && c == w[1..] + d
    ensures [w[0]] + c == w + d
  {
    assert w == [w[0]] + w[1..];
  }

  /** Leading white space does not change the words. */
  lemma {:induction false} WordsDropSpaces(s: string)
    ensures Words(s[LeadCount(s, IsPySpace)..]) == Words(s)
    decreases |s|
  {
    if s != [] && IsPySpace(s[0]) {
      WordsDropSpaces(s[1..]);
      assert s[1..][LeadCount(s[1..], IsPySpace)..] == s[LeadCount(s, IsPySpace)..];
    }
  }

  /** Whether `s` ends in white space. */
  predicate EndsInSpace(s: string) { s != [] && IsPySpace(s[|s| - 1]) }

  /** For a string that does not start with white space, collapsing gives
      its words joined by single spaces, plus one space if it ends in white
      space. */
  lemma {:induction false} CollapseWords(x: string)
    requires x == [] || !IsPySpace(x[0])
    ensures CollapseSpaces(x) == Join(Words(x), " ") + (if EndsInSpace(x) then " " else "")
    decreases |x|, 2
  {
    if x != [] {
      var n := LeadCount(x, NotPySpace);
      var w, y := x[..n], x[n..];
      assert x == w + y;
      CollapseNonSpace(w, y);
      assert Words(x) == [w] + Words(y);
      if y == [] {
        assert Words(y) == [] && CollapseSpaces(y) == [];
        assert x[|x| - 1] == w[|w| - 1];
      } else {
        var z := y[LeadCount(y, IsPySpace)..];
        CollapseWordsAfterWord(x, w, y, z);
      }
    }
  }

  /** The step of `CollapseWords` past the first word `w` and the white
      space `y` starts with, which leaves `z`. */
  lemma {:induction false} CollapseWordsAfterWord(x: string, w: string, y: string, z: string)
    requires x == w + y && y != [] && w != [] && Words(x) == [w] + Words(y)
    requires IsPySpace(y[0]) && z == y[LeadCount(y, IsPySpace)..]
    requires CollapseSpaces(x) == w + CollapseSpaces(y)
    ensures CollapseSpaces(x) == Join(Words(x), " ") + (if EndsInSpace(x) then " " else "")
    decreases |x|, 1
  {
    assert CollapseSpaces(y) == [' '] + CollapseSpaces(z);
    WordsDropSpaces(y);
    assert x[|x| - 1] == y[|y| - 1];
    if z == [] {
      assert IsPySpace(y[|y| - 1]);
      assert Words(x) == [w];
    } else {
      assert z[|z| - 1] == y[|y| - 1];
      assert z[0] == y[LeadCount(y, IsPySpace)];
      CollapseWordsRest(x, w, z);
    }
  }

  /** The last step of `CollapseWords`: the word `w`, one space, and the
      collapse of the rest `z`, which starts with a word. */
  lemma {:induction false} CollapseWordsRest(x: string, w: string, z: string)
    requires z != [] && !IsPySpace(z[0]) && |z| < |x|
    requires Words(x) == [w] + Words(z) && EndsInSpace(x) == EndsInSpace(z)
    requires CollapseSpaces(x) == w + ([' '] + CollapseSpaces(z))
    ensures CollapseSpaces(x) == Join(Words(x), " ") + (if EndsInSpace(x) then " " else "")
    decreases |x|, 0
  {
    CollapseWords(z);
    WordsNonEmpty(z);
    JoinCons(w, Words(z), " ");
    Regroup(w, CollapseSpaces(z), Join(Words(z), " "), if EndsInSpace(z) then " " else "");
  }

  lemma Regroup(w: string, c: string, j: string, t: string)
    requires c == j + t
    ensures w + ([' '] + c) == (w + " " + j) + t
  {
  }

  /** A string that does not start with white space has a first word. */
  lemma WordsNonEmpty(z: string)
    requires z != [] && !IsPySpace(z[0])
    ensures Words(z) != []
  {
  }

  /** `re.sub(r"\s+", " ", x)` is the words of `x` joined by single spaces,
      with one space in front when `x` starts with white space and one
      behind when it ends with white space after a word. */
  lemma CollapseSpacesWords(x: string)
    ensures CollapseSpaces(x) == (if x != [] && IsPySpace(x[0]) then " " else "")
      + Join(Words(x), " ") + (if EndsInSpace(x) && Words(x) != [] then " " else "")
  {
    if x != [] && IsPySpace(x[0]) {
      CollapseLeadingSpaces(x);
    } else {
      CollapseWords(x);
      if x != [] { WordsNonEmpty(x); }
      EmptyRegroup(CollapseSpaces(x), Join(Words(x), " "), if EndsInSpace(x) then " " else "");
    }
  }

  lemma EmptyRegroup(c: string, j: string, t: string)
    requires c == j + t
    ensures c == "" + j + t
  {
  }

  /** `CollapseSpacesWords` for a string that starts with white space. */
  lemma CollapseLeadingSpaces(x: string)
    requires x != [] && IsPySpace(x[0])
    ensures CollapseSpaces(x) == " " + Join(Words(x), " ") + (if EndsInSpace(x) && Words(x) != [] then " " else "")
  {
    var z := x[LeadCount(x, IsPySpace)..];
    assert CollapseSpaces(x) == [' '] + CollapseSpaces(z);
    assert Words(x) == Words(z) by { WordsDropSpaces(x); }
    if z != [] {
      assert EndsInSpace(z) == EndsInSpace(x) by { assert z[|z| - 1] == x[|x| - 1]; }
      assert z[0] == x[LeadCount(x, IsPySpace)];
      CollapseWords(z);
      WordsNonEmpty(z);
      SpaceRegroup(CollapseSpaces(z), Join(Words(z), " "), if EndsInSpace(z) then " " else "");
    } else {
      assert Words(z) == [] && CollapseSpaces(z) == [];
    }
  }

  lemma SpaceRegroup(c: string, j: string, t: string)
    requires c == j + t
    ensures [' '] + c == " " + j + t
  {
  }

  /** Words joined by single spaces neither start nor end with white space. */
  lemma {:induction false} JoinWordsEnds(ws: seq<string>)
    requires forall k :: 0 <= k < |ws| ==> IsWord(ws[k])
    ensures var j := Join(ws, " "); j == [] || (!IsPySpace(j[0]) && !IsPySpace(j[|j| - 1]))
  {
    if |ws| > 1 {
      JoinWordsEnds(ws[1..]);
      var j := Join(ws[1..], " ");
      assert ws[1..][0] == ws[1];
      assert j != [];
      assert (ws[0] + " " + j)[0] == ws[0][0];
    }
  }

  /** Stripping at most one space from each side of a string that neither
      starts nor ends with white space gives that string back. */
  lemma StripFrame(pre: string, j: string, post: string)
    requires pre == "" || pre == " "
    requires post == "" || post == " "
    requires j == [] || (!IsPySpace(j[0]) && !IsPySpace(j[|j| - 1]))
    ensures PyStrip(pre + j + post) == j
  {
    var s := pre + j + post;
    if pre == " " {
      assert s[0] == ' ' && s[1..] == j + post;
      assert PyStrip(s) == PyStrip(j + post);
    }
    assert PyStrip(s) == PyStrip(j + post) by { if pre == "" { assert s == j + post; } }
    if post == " " {
      var t := j + post;
      if j == [] {
        assert t == " " && t[1..] == [];
      } else {
        assert t[0] == j[0] && t[|t| - 1] == ' ' && t[..|t| - 1] == j;
        assert PyStrip(t) == PyStrip(j);
        assert PyStrip(j) == j;
      }
    } else {
      assert j + post == j;
    }
  }

  /** `sanitize_text` after the pattern removals: the words of the text
      joined by single spaces. */
  lemma SanitizeWords(x: string)
    ensures PyStrip(CollapseSpaces(x)) == Join(Words(x), " ")
  {
    CollapseSpacesWords(x);
    WordsFacts(x);
    JoinWordsEnds(Words(x));
    StripFrame(if x != [] && IsPySpace(x[0]) then " " else "", Join(Words(x), " "),
               if EndsInSpace(x) && Words(x) != [] then " " else "");
  }

  /** `sanitize_text`. The three pattern removals (URLs, handles and hashtags,
      zero-width characters) are the given `removePatterns`. */
  function SanitizeText(s: Option<string>, removePatterns: string -> string): (r: string)
    ensures s.None? || s.value == "" ==> r == ""
    ensures r != [] ==> !IsPySpace(r[0]) && !IsPySpace(r[|r| - 1])
    ensures forall i :: 0 <= i < |r| - 1 ==> !(IsPySpace(r[i]) && IsPySpace(r[i + 1]))
    ensures s.Some? && s.value != "" ==> Visible(r) == Visible(removePatterns(s.value))
  {
    if s.None? || s.value == "" then ""
    else
      var c := CollapseSpaces(removePatterns(s.value));
      var r := PyStrip(c);
      VisibleCollapse(removePatterns(s.value));
      VisibleStrip(c);
      StripNoAdjacentSpaces(c);
      r
  }

  /** `sanitize_text` gives the words of the text left by the pattern
      removals, joined by single spaces: every white-space run between two
      words becomes exactly one space, and white space at the ends goes. */
  lemma SanitizeTextWords(s: Option<string>, removePatterns: string -> string)
    requires s.Some? && s.value != ""
    ensures SanitizeText(s, removePatterns) == Join(Words(removePatterns(s.value)), " ")
  {
    SanitizeWords(removePatterns(s.value));
  }

  /** White space between two words becomes exactly one space rather than
      vanishing: two words with any run of white space between them, and no
      pattern to remove, sanitise to the words joined by one space. */
  lemma SanitizeSeparatesWords(w1: string, gap: string, w2: string, removePatterns: string -> string)
    requires IsWord(w1)
    requires IsWord(w2)
    requires gap != [] && forall i :: 0 <= i < |gap| ==> IsPySpace(gap[i])
    requires removePatterns(w1 + gap + w2) == w1 + gap + w2
    ensures SanitizeText(Some(w1 + gap + w2), removePatterns) == w1 + " " + w2
  {
    SanitizeTextWords(Some(w1 + gap + w2), removePatterns);
    WordsOfTwo(w1, gap, w2);
    JoinCons(w1, [w2], " ");
  }

  lemma WordsOfTwo(w1: string, gap: string, w2: string)
    requires IsWord(w1)
    requires IsWord(w2)
    requires gap != [] && forall i :: 0 <= i < |gap| ==> IsPySpace(gap[i])
    ensures Words(w1 + gap + w2) == [w1, w2]
  {
    assert w1 + gap + w2 == w1 + (gap + w2);
    WordsOfWord(w1, gap + w2);
    LeadCountPrefix(gap, w2, IsPySpace);
    WordsDropSpaces(gap + w2);
    assert (gap + w2)[|gap|..] == w2;
    WordsOfWord(w2, []);
    assert w2 + [] == w2 && Words([]) == [];
  }

  /** A word followed by white space or nothing is the first word. */
  lemma WordsOfWord(w: string, rest: string)
    requires IsWord(w)
    requires rest == [] || IsPySpace(rest[0])
    ensures Words(w + rest) == [w] + Words(rest)
  {
    var s := w + rest;
    forall i | 0 <= i < |w| ensures NotPySpace(w[i]) { }
    LeadCountPrefix(w, rest, NotPySpace);
    assert s[..|w|] == w && s[|w|..] == rest;
  }





  /** Stripping a string without two adjacent white-space characters gives
      one with neither white space at its ends nor two adjacent ones. */
  lemma StripNoAdjacentSpaces(c: string)
    requires forall i :: 0 <= i < |c| - 1 ==> !(IsPySpace(c[i]) && IsPySpace(c[i + 1]))
    ensures var r := PyStrip(c);
      (r != [] ==> !IsPySpace(r[0]) && !IsPySpace(r[|r| - 1]))
      && forall i :: 0 <= i < |r| - 1 ==> !(IsPySpace(r[i]) && IsPySpace(r[i + 1]))
  {
    TrimFacts(c, IsPySpace);
    var r := PyStrip(c);
    var a := LeadCount(c, IsPySpace);
    forall i | 0 <= i < |r| - 1
      ensures !(IsPySpace(r[i]) && IsPySpace(r[i + 1]))
    {
      assert r[i] == c[a + i] && r[i + 1] == c[a + i + 1];
    }
  }

  // ---------------------------------------------------------------------------
  // _fb_get: classification and retry

  datatype ErrorKind = InvalidToken | PageNotFound | Permission | RateLimit | Server | Generic

  /** The `error` object of a Graph API error payload. */
  datatype GraphError = GraphError(code: Option<int>, subcode: Option<int>, errType: Option<string>,
                                   message: Option<string>)

  /** The JSON body of a response: an error payload, a successful payload,
      or something that is not a JSON object with an `error` key. */
  datatype Body<T> = ErrorPayload(error: GraphError) | Payload(data: T) | NoErrorPayload

  datatype Response<T> = NetworkFailure | Response(status: int, body: Body<T>)

  datatype Outcome<T> = Ok(data: T) | Failed(kind: ErrorKind, message: string)

  const DefaultErrorMessage: string := "Facebook Graph API error"
  const DefaultRetries: int := 3

  /** `err.get("message") or "Facebook Graph API error"`. */
  function ErrorMessage(e: GraphError): string
  {
    if e.message.Some? && e.message.value != "" then e.message.value else DefaultErrorMessage
  }

  /** The decision table for an error payload, checked in this order. */
  function ClassifyPayload(status: int, e: GraphError): ErrorKind
  {
    if e.code == Some(190) || e.errType == Some("OAuthException") || status == 401 then InvalidToken
    else if status == 404 || e.code == Some(803) || Contains(ErrorMessage(e), "Unsupported get request") then PageNotFound
    else if status == 403 || e.code == Some(200) || e.code == Some(10) then Permission
    else if status == 429 || e.code == Some(4) || e.code == Some(613) then RateLimit
    else if status >= 500 then Server
    else Generic
  }

  /** The decision table after `raise_for_status`; the error code it reads is
      always absent, since a body with an `error` key took the first branch. */
  function ClassifyStatus(status: int): ErrorKind
  {
    if status == 401 then InvalidToken
    else if status == 404 then PageNotFound
    else if status == 403 then Permission
    else if status == 429 then RateLimit
    else if status >= 500 then Server
    else Generic
  }

  predicate Retryable(k: ErrorKind) { k == RateLimit || k == Server }

  function Pow2(n: nat): (r: nat)
    ensures r >= 1
  {
    if n == 0 then 1 else 2 * Pow2(n - 1)
  }

  /** `2 ** (4 - retries)` seconds. */
  function Backoff(retries: int): real
  {
    if retries <= 4 then Pow2(4 - retries) as real else 1.0 / Pow2(retries - 4) as real
  }

  /** The outcome of one `_fb_get` call, the number of requests it made and
      the sleeps between them. */
  datatype Trace<T> = Trace(outcome: Outcome<T>, requests: nat, sleeps: seq<real>)

  /** What one response means on its own: a network failure, an error
      payload classified by its table, a non-2xx status classified after
      `raise_for_status`, or the data of a 2xx JSON body. */
  function ResponseOutcome<T>(r: Response<T>): Outcome<T>
  {
    match r
    case NetworkFailure => Failed(Generic, "Network error")
    case Response(status, body) =>
      match body
      case ErrorPayload(e) => Failed(ClassifyPayload(status, e), ErrorMessage(e))
      case _ =>
        if !(200 <= status < 300) then Failed(ClassifyStatus(status), "HTTP error")
        else if body.Payload? then Ok(body.data)
        else Failed(Generic, "No JSON body")
  }

  /** The retry loop of `_fb_get`, whose `n`-th request (counting from
      `attempt`) has the outcome `outcome(n)`: a failure classified as rate
      limit or server error sleeps and recurses with one retry less while
      retries remain. */
  function Retry<T>(outcome: nat -> Outcome<T>, attempt: nat, retries: int): (t: Trace<T>)
    ensures t.requests >= 1 && |t.sleeps| == t.requests - 1
    decreases if retries > 0 then retries else 0
  {
    var o := outcome(attempt);
    if o.Failed? && Retryable(o.kind) && retries > 0 then
      var rest := Retry(outcome, attempt + 1, retries - 1);
      Trace(rest.outcome, rest.requests + 1, [Backoff(retries)] + rest.sleeps)
    else Trace(o, 1, [])
  }

  /** `_fb_get(url, retries)`, whose `n`-th request gets the response
      `respond(n)`. */
  function FbGet<T>(respond: nat -> Response<T>, attempt: nat, retries: int): Trace<T>
  {
    Retry(Outcomes(respond), attempt, retries)
  }

  /** What each response means. */
  function Outcomes<T>(respond: nat -> Response<T>): nat -> Outcome<T>
  {
    (n: nat) => ResponseOutcome(respond(n))
  }

  /** The reported outcome is that of the last request, every earlier
      request failed in a retryable way, and a retryable failure is only
      reported once the retries are spent. */
  lemma {:induction false} RetryOutcome<T>(outcome: nat -> Outcome<T>, attempt: nat, retries: int)
    ensures var t := Retry(outcome, attempt, retries);
      t.outcome == outcome(attempt + t.requests - 1)
      && (forall j :: attempt <= j < attempt + t.requests - 1 ==> outcome(j).Failed? && Retryable(outcome(j).kind))
      && (t.outcome.Failed? && Retryable(t.outcome.kind) ==> t.requests - 1 == (if retries > 0 then retries else 0))
    decreases if retries > 0 then retries else 0
  {
    var o := outcome(attempt);
    var t := Retry(outcome, attempt, retries);
    if o.Failed? && Retryable(o.kind) && retries > 0 {
      RetryOutcome(outcome, attempt + 1, retries - 1);
      var rest := Retry(outcome, attempt + 1, retries - 1);
      assert t.outcome == rest.outcome && t.requests == rest.requests + 1;
      forall j | attempt <= j < attempt + t.requests - 1
        ensures outcome(j).Failed? && Retryable(outcome(j).kind)
      {
        if j > attempt { assert attempt + 1 <= j < attempt + 1 + rest.requests - 1; }
      }
    } else {
      assert t == Trace(o, 1, []);
    }
  }

  /** At most `retries + 1` requests, and the `k`-th sleep lasts
      `2 ** (4 - (retries - k))` seconds. */
  lemma {:induction false} RetryBounds<T>(outcome: nat -> Outcome<T>, attempt: nat, retries: int)
    ensures var t := Retry(outcome, attempt, retries);
      t.requests <= (if retries > 0 then retries else 0) + 1
      && (forall k :: 0 <= k < |t.sleeps| ==> t.sleeps[k] == Backoff(retries - k))
    decreases if retries > 0 then retries else 0
  {
    var t := Retry(outcome, attempt, retries);
    if retries > 0 && t.requests > 1 {
      RetryBounds(outcome, attempt + 1, retries - 1);
      var rest := Retry(outcome, attempt + 1, retries - 1);
      assert t.sleeps == [Backoff(retries)] + rest.sleeps;
      forall k | 0 <= k < |t.sleeps| ensures t.sleeps[k] == Backoff(retries - k) {
        if k > 0 { assert t.sleeps[k] == rest.sleeps[k - 1]; }
      }
    }
  }

  /** The outcome `_fb_get` reports is what its last response means, every
      earlier response was a rate-limit or server failure, and a 2xx JSON
      body is the only success, its data returned as it came; an error
      payload is reported by its table with its own message, any other
      non-2xx status by the status table. */
  lemma FbGetOutcome<T>(respond: nat -> Response<T>, attempt: nat, retries: int)
    ensures var t := FbGet(respond, attempt, retries);
      var last := respond(attempt + t.requests - 1);
      t.outcome == ResponseOutcome(last)
      && (forall j :: attempt <= j < attempt + t.requests - 1 ==>
            ResponseOutcome(respond(j)).Failed? && Retryable(ResponseOutcome(respond(j)).kind))
      && (t.outcome.Ok? <==> last.Response? && 200 <= last.status < 300 && last.body.Payload?)
      && (t.outcome.Ok? ==> t.outcome.data == last.body.data)
      && (last.NetworkFailure? ==> t.outcome == Failed(Generic, "Network error"))
      && (last.Response? && last.body.ErrorPayload? ==>
            t.outcome == Failed(ClassifyPayload(last.status, last.body.error), ErrorMessage(last.body.error)))
      && (last.Response? && !last.body.ErrorPayload? && !(200 <= last.status < 300) ==>
            t.outcome == Failed(ClassifyStatus(last.status), "HTTP error"))
  {
    var t := FbGet(respond, attempt, retries);
    var last := respond(attempt + t.requests - 1);
    RetryOutcome(Outcomes(respond), attempt, retries);
    assert t.outcome == ResponseOutcome(last) by {
      assert t.outcome == Outcomes(respond)(attempt + t.requests - 1);
    }
    forall j | attempt <= j < attempt + t.requests - 1
      ensures ResponseOutcome(respond(j)).Failed? && Retryable(ResponseOutcome(respond(j)).kind)
    {
      assert Outcomes(respond)(j) == ResponseOutcome(respond(j));
    }
    ResponseOutcomeCases(last);
  }

  lemma ResponseOutcomeCases<T>(r: Response<T>)
    ensures var o := ResponseOutcome(r);
      (o.Ok? <==> r.Response? && 200 <= r.status < 300 && r.body.Payload?)
      && (o.Ok? ==> o.data == r.body.data)
      && (r.NetworkFailure? ==> o == Failed(Generic, "Network error"))
      && (r.Response? && r.body.ErrorPayload? ==> o == Failed(ClassifyPayload(r.status, r.body.error), ErrorMessage(r.body.error)))
      && (r.Response? && !r.body.ErrorPayload? && !(200 <= r.status < 300) ==> o == Failed(ClassifyStatus(r.status), "HTTP error"))
  {
  }

  /** At most `retries + 1` requests; the `k`-th sleep lasts
      `2 ** (4 - (retries - k))` seconds; and a rate-limit or server failure
      is only reported once the retries are used up. */
  lemma FbGetBounds<T>(respond: nat -> Response<T>, attempt: nat, retries: int)
    ensures var t := FbGet(respond, attempt, retries);
      t.requests >= 1 && |t.sleeps| == t.requests - 1
      && t.requests <= (if retries > 0 then retries else 0) + 1
      && (forall k :: 0 <= k < |t.sleeps| ==> t.sleeps[k] == Backoff(retries - k))
      && (t.outcome.Failed? && Retryable(t.outcome.kind) ==> t.requests == (if retries > 0 then retries else 0) + 1)
  {
    RetryBounds(Outcomes(respond), attempt, retries);
    RetryOutcome(Outcomes(respond), attempt, retries);
  }

  /** With the default three retries the waits are 2, 4 and 8 seconds. */
  lemma DefaultBackoff()
    ensures Backoff(DefaultRetries) == 2.0 && Backoff(DefaultRetries - 1) == 4.0 && Backoff(DefaultRetries - 2) == 8.0
  {
    assert Pow2(1) == 2 && Pow2(2) == 4;
    assert Pow2(3) == 8;
  }

  /** "Same handling as above": a payload without code, type or telling
      message is classified by its status exactly as the plain HTTP error. */
  lemma PayloadAgreesWithStatus(status: int, e: GraphError)
    requires e.code.None? && e.errType.None? && !Contains(ErrorMessage(e), "Unsupported get request")
    ensures ClassifyPayload(status, e) == ClassifyStatus(status)
  {
  }

  /** The precedence of the table: an invalid token wins over everything, a
      missing page over permissions, permissions over rate limits, rate
      limits over server errors. */
  lemma ClassifyPrecedence(status: int, e: GraphError)
    ensures e.code == Some(190) ==> ClassifyPayload(status, e) == InvalidToken
    ensures status == 401 ==> ClassifyPayload(status, e) == InvalidToken
    ensures ClassifyPayload(status, e) == Server <==>
      status >= 500 && status != 401 && status != 404 && status != 403 && status != 429
      && (e.code.None? || e.code.value !in {190, 803, 200, 10, 4, 613})
      && e.errType != Some("OAuthException")
      && !Contains(ErrorMessage(e), "Unsupported get request")
  {
  }

  // ---------------------------------------------------------------------------
  // Capped paging (fetch_posts, fetch_comments_for_post)

  /** One page of results: its `data` and its `paging.next` link, the empty
      string standing for an absent or empty one. */
  datatype Page<T> = Page(data: seq<T>, next: string)

  /** `min(limit, 100)`, or 100 without a limit: never more than 100 per
      request, and positive whenever the limit is. */
  function RequestLimit(limit: Option<int>): (r: int)
    ensures r <= 100
    ensures limit.None? ==> r == 100
    ensures limit.Some? && limit.value <= 100 ==> r == limit.value
    ensures limit.Some? && limit.value > 100 ==> r == 100
    ensures (limit.None? || limit.value >= 1) ==> r >= 1
  {
    if limit.None? then 100 else Min(limit.value, 100)
  }

  /** A chain of pages that ends: the last page has no `next`. */
  predicate Ends<T>(pages: seq<Page<T>>)
  {
    |pages| > 0 && pages[|pages| - 1].next == ""
  }

  /** The data of the first `n` pages, concatenated. */
  function Gathered<T>(pages: seq<Page<T>>, n: nat): seq<T>
    requires n <= |pages|
  {
    if n == 0 then [] else Gathered(pages, n - 1) + pages[n - 1].data
  }

  /** The loop stops after page `i` when the cap is reached or there is no
      `next`. */
  predicate StopsAt<T>(pages: seq<Page<T>>, limit: Option<int>, i: nat)
    requires i < |pages|
  {
    (limit.Some? && |Gathered(pages, i + 1)| >= limit.value) || pages[i].next == ""
  }

  /** The number of pages the loop requests. */
  function PagesRead<T>(pages: seq<Page<T>>, limit: Option<int>, i: nat): (n: nat)
    requires Ends(pages) && i < |pages|
    ensures i < n <= |pages| && StopsAt(pages, limit, n - 1)
    ensures forall j :: i <= j < n - 1 ==> !StopsAt(pages, limit, j)
    decreases |pages| - i
  {
    if StopsAt(pages, limit, i) then i + 1 else PagesRead(pages, limit, i + 1)
  }

  /** Python `s[:n]`, a negative `n` counting from the end. */
  function SliceTo<T>(s: seq<T>, n: int): (r: seq<T>)
    ensures r <= s
    ensures n >= 0 ==> |r| == Min(n, |s|)
    ensures n < 0 ==> |r| == Max(0, |s| + n)
  {
    if n >= 0 then s[..Min(n, |s|)] else s[..Max(0, |s| + n)]
  }

  /** What the paging loop returns. */
  function Paged<T>(pages: seq<Page<T>>, limit: Option<int>): seq<T>
    requires Ends(pages)
  {
    var all := Gathered(pages, PagesRead(pages, limit, 0));
    if limit.None? then all else SliceTo(all, limit.value)
  }

  lemma {:induction false} GatheredPrefix<T>(pages: seq<Page<T>>, n: nat, m: nat)
    requires n <= m <= |pages|
    ensures Gathered(pages, n) <= Gathered(pages, m)
    decreases m - n
  {
    if n < m {
      GatheredPrefix(pages, n, m - 1);
    }
  }

  /** The paging loop: request, extend, stop at the cap or at the last page,
      follow `next` otherwise; then cut to the cap. */
  method FetchPaged<T>(pages: seq<Page<T>>, limit: Option<int>) returns (items: seq<T>, requests: nat)
    requires Ends(pages)
    ensures items == Paged(pages, limit)
    ensures requests == PagesRead(pages, limit, 0)
  {
    var acc: seq<T> := [];
    var i := 0;
    while true
      invariant i < |pages| && acc == Gathered(pages, i)
      invariant forall j :: 0 <= j < i ==> !StopsAt(pages, limit, j)
      decreases |pages| - i
    {
      acc := acc + pages[i].data;
      assert acc == Gathered(pages, i + 1);
      if limit.Some? && |acc| >= limit.value {
        break;
      }
      if pages[i].next == "" {
        break;
      }
      assert !StopsAt(pages, limit, i);
      i := i + 1;
    }
    PagesReadFrom(pages, limit, i, acc);
    requests := i + 1;
    items := if limit.None? then acc else SliceTo(acc, limit.value);
  }

  /** The loop's count of pages agrees with `PagesRead` once it stops, and
      what it gathered is what `Paged` cuts. */
  lemma PagesReadFrom<T>(pages: seq<Page<T>>, limit: Option<int>, i: nat, acc: seq<T>)
    requires Ends(pages) && i < |pages| && StopsAt(pages, limit, i)
    requires forall j :: 0 <= j < i ==> !StopsAt(pages, limit, j)
    requires acc == Gathered(pages, i + 1)
    ensures PagesRead(pages, limit, 0) == i + 1
    ensures Paged(pages, limit) == if limit.None? then acc else SliceTo(acc, limit.value)
  {
  }

  /** The paged result is a prefix of all the data the pages hold, never
      longer than a non-negative cap; without a cap, or while the cap is
      not reached, it is everything up to the first page without `next`. */
  lemma PagedSpec<T>(pages: seq<Page<T>>, limit: Option<int>)
    requires Ends(pages)
    ensures Paged(pages, limit) <= Gathered(pages, |pages|)
    ensures limit.Some? && limit.value >= 0 ==> |Paged(pages, limit)| <= limit.value
    ensures limit.None? ==> Paged(pages, limit) == Gathered(pages, PagesRead(pages, limit, 0))
    ensures limit.Some? && |Gathered(pages, PagesRead(pages, limit, 0))| < limit.value ==>
      pages[PagesRead(pages, limit, 0) - 1].next == ""
      && Paged(pages, limit) == Gathered(pages, PagesRead(pages, limit, 0))
  {
    var n := PagesRead(pages, limit, 0);
    GatheredPrefix(pages, n, |pages|);
  }

  // ---------------------------------------------------------------------------
  // fetch_all_comments

  /** `max(1, ceil(max_comments / posts_scanned))`: with a positive budget,
      all posts together may bring in at least `max_comments` comments and
      one comment per post less would not; otherwise one per post. */
  function PerPost(maxComments: int, postsScanned: nat): (r: int)
    requires postsScanned > 0
    ensures r >= 1
    ensures maxComments > 0 ==> r * postsScanned >= maxComments && (r - 1) * postsScanned < maxComments
    ensures maxComments <= 0 ==> r == 1
  {
    var q := -((-maxComments) / postsScanned);
    assert q * postsScanned >= maxComments && (q - 1) * postsScanned < maxComments by {
      var k := (-maxComments) / postsScanned;
      assert k * postsScanned <= -maxComments < k * postsScanned + postsScanned;
    }
    Max(1, q)
  }

  datatype Author = Author(id: Option<string>, name: Option<string>)

  /** A comment as the Graph API returns it. */
  datatype RawComment = RawComment(id: Option<string>, from: Option<Author>, message: Option<string>,
                                   createdTime: Option<string>)

  datatype Post = Post(id: Option<string>)

  /** A comment as the scraper returns it. */
  datatype CommentOut = CommentOut(commentId: Option<string>, postId: Option<string>, text: string,
                                   authorId: Option<string>, authorName: Option<string>,
                                   createdTime: Option<string>)

  /** The record `_fetch_for_post` builds from a raw comment: its id, the
      post id, the sanitised message, the author's id and name from
      `from or {}`, and its creation time. */
  function ToOut(c: RawComment, pid: Option<string>, removePatterns: string -> string): (o: CommentOut)
    ensures o.commentId == c.id && o.postId == pid && o.createdTime == c.createdTime
    ensures o.text == SanitizeText(c.message, removePatterns)
    ensures c.from.Some? ==> o.authorId == c.from.value.id && o.authorName == c.from.value.name
    ensures c.from.None? ==> o.authorId.None? && o.authorName.None?
  {
    var author := if c.from.Some? then c.from.value else Author(None, None);
    CommentOut(c.id, pid, SanitizeText(c.message, removePatterns), author.id, author.name, c.createdTime)
  }

  datatype ScrapeResult = ScrapeResult(pageId: string, postsScanned: nat, totalFetched: nat,
                                       comments: seq<CommentOut>)

  /** The loop of `_fetch_for_post` over one post's raw comments: comments
      whose sanitised text is empty are dropped. */
  function KeepComments(raw: seq<RawComment>, pid: Option<string>, removePatterns: string -> string): (out: seq<CommentOut>)
    ensures |out| <= |raw|
    ensures forall k :: 0 <= k < |out| ==> out[k].text != "" && out[k].postId == pid
  {
    var out := MapKeep(raw, c => ToOut(c, pid, removePatterns), HasText);
    MapKeepMembers(raw, c => ToOut(c, pid, removePatterns), HasText);
    assert forall k :: 0 <= k < |out| ==> out[k] in out;
    out
  }

  predicate HasText(o: CommentOut) { o.text != "" }

  /** Each raw comment contributes, in its own place, its record when its
      sanitised text is not empty and nothing otherwise. */
  lemma KeepCommentsSplit(a: seq<RawComment>, c: RawComment, b: seq<RawComment>,
                          pid: Option<string>, removePatterns: string -> string)
    ensures var o := ToOut(c, pid, removePatterns);
      KeepComments(a + [c] + b, pid, removePatterns)
      == KeepComments(a, pid, removePatterns) + (if o.text != "" then [o] else []) + KeepComments(b, pid, removePatterns)
  {
    MapKeepSplit(a, c, b, c => ToOut(c, pid, removePatterns), HasText);
  }

  /** The kept records are exactly the records of the raw comments whose
      sanitised text is not empty. */
  lemma KeepCommentsMembers(raw: seq<RawComment>, pid: Option<string>, removePatterns: string -> string)
    ensures forall c :: c in raw && ToOut(c, pid, removePatterns).text != "" ==>
      ToOut(c, pid, removePatterns) in KeepComments(raw, pid, removePatterns)
    ensures forall x :: x in KeepComments(raw, pid, removePatterns) ==>
      exists c :: c in raw && x == ToOut(c, pid, removePatterns)
  {
    MapKeepMembers(raw, c => ToOut(c, pid, removePatterns), HasText);
  }

  function Ids(s: seq<CommentOut>): set<Option<string>>
  {
    set i | 0 <= i < |s| :: s[i].commentId
  }

  /** The comments whose id has not been seen before them, in order. */
  function FirstOccurrences(s: seq<CommentOut>): seq<CommentOut>
  {
    if s == [] then []
    else
      var init := s[..|s| - 1];
      var c := s[|s| - 1];
      FirstOccurrences(init) + (if c.commentId in Ids(init) then [] else [c])
  }

  lemma IdsAppend(s: seq<CommentOut>, c: CommentOut)
    ensures Ids(s + [c]) == Ids(s) + {c.commentId}
  {
    var s' := s + [c];
    assert s'[|s|] == c;
    forall x | x in Ids(s) ensures x in Ids(s') {
      var i :| 0 <= i < |s| && s[i].commentId == x;
      assert s'[i] == s[i];
    }
  }

  /** The dedupe loses no id. */
  lemma {:induction false} FirstOccurrencesIds(s: seq<CommentOut>)
    ensures Ids(FirstOccurrences(s)) == Ids(s)
  {
    if s != [] {
      var init := s[..|s| - 1];
      var c := s[|s| - 1];
      FirstOccurrencesIds(init);
      assert s == init + [c];
      IdsAppend(init, c);
      if c.commentId !in Ids(init) {
        IdsAppend(FirstOccurrences(init), c);
      } else {
        assert FirstOccurrences(s) == FirstOccurrences(init);
      }
    }
  }

  /** The dedupe keeps at most one comment per id. */
  lemma {:induction false} FirstOccurrencesDistinct(s: seq<CommentOut>)
    ensures var u := FirstOccurrences(s);
      forall a, b :: 0 <= a < b < |u| ==> u[a].commentId != u[b].commentId
  {
    if s != [] {
      var init := s[..|s| - 1];
      var c := s[|s| - 1];
      var u0 := FirstOccurrences(init);
      var u := FirstOccurrences(s);
      FirstOccurrencesDistinct(init);
      if c.commentId !in Ids(init) {
        FirstOccurrencesIds(init);
        forall a, b | 0 <= a < b < |u| ensures u[a].commentId != u[b].commentId {
          if b == |u0| {
            assert u[a] == u0[a];
            assert u0[a].commentId in Ids(u0);
          } else {
            assert u[a] == u0[a] && u[b] == u0[b];
          }
        }
      }
    }
  }

  /** The dedupe keeps the first comment of each id, and only comments of
      its input. */
  lemma {:induction false} FirstOccurrencesKept(s: seq<CommentOut>)
    ensures var u := FirstOccurrences(s);
      (forall i :: 0 <= i < |s| && s[i].commentId !in Ids(s[..i]) ==> s[i] in u)
      && (forall x :: x in u ==> x in s)
  {
    if s != [] {
      var n := |s| - 1;
      var init := s[..n];
      var c := s[n];
      var u0 := FirstOccurrences(init);
      var u := FirstOccurrences(s);
      FirstOccurrencesKept(init);
      assert u0 <= u;
      forall i | 0 <= i < |s| && s[i].commentId !in Ids(s[..i]) ensures s[i] in u {
        if i < n {
          assert s[..i] == init[..i];
          assert init[i] == s[i];
        }
      }
      forall x | x in u ensures x in s {
        if x in u0 { assert x in init; }
      }
    }
  }

  /** The dedupe loop with its `seen` dictionary. */
  method Dedupe(flat: seq<CommentOut>) returns (unique: seq<CommentOut>)
    ensures unique == FirstOccurrences(flat)
  {
    var seen: set<Option<string>> := {};
    unique := [];
    for i := 0 to |flat|
      invariant unique == FirstOccurrences(flat[..i]) && seen == Ids(flat[..i])
    {
      var c := flat[i];
      assert flat[..i + 1] == flat[..i] + [c];
      assert flat[..i + 1][..i] == flat[..i];
      IdsAppend(flat[..i], c);
      if c.commentId !in seen {
        seen := seen + {c.commentId};
        unique := unique + [c];
      }
    }
    assert flat[..|flat|] == flat;
  }

  /** The comments one post contributes: its capped and filtered comments,
      none when its comment requests fail. */
  function ForPost(pages: Option<seq<Page<RawComment>>>, pid: Option<string>, perPost: int,
                   removePatterns: string -> string): (out: seq<CommentOut>)
    requires pages.Some? ==> Ends(pages.value)
    ensures pages.None? ==> out == []
    ensures pages.Some? && perPost >= 0 ==> |out| <= perPost
    ensures forall k :: 0 <= k < |out| ==> out[k].text != "" && out[k].postId == pid
  {
    if pages.None? then []
    else
      PagedSpec(pages.value, Some(perPost));
      KeepComments(Paged(pages.value, Some(perPost)), pid, removePatterns)
  }

  /** The comments of `posts`, post by post, before the dedupe. */
  function Collected(posts: seq<Post>, commentPages: Option<string> -> Option<seq<Page<RawComment>>>,
                     perPost: int, removePatterns: string -> string): (r: seq<CommentOut>)
    requires forall pid :: commentPages(pid).Some? ==> Ends(commentPages(pid).value)
    ensures perPost >= 0 ==> |r| <= |posts| * perPost
    ensures forall k :: 0 <= k < |r| ==> r[k].text != ""
  {
    if posts == [] then []
    else
      var last := posts[|posts| - 1];
      var rest := Collected(posts[..|posts| - 1], commentPages, perPost, removePatterns);
      var out := ForPost(commentPages(last.id), last.id, perPost, removePatterns);
      assert perPost >= 0 ==> |rest| + |out| <= (|posts| - 1) * perPost + perPost;
      rest + out
  }

  /** `fetch_all_comments` once the page id is resolved: the capped posts,
      the per-post budget, each post's comments in post order, and the
      dedupe. `commentPages(pid)` is what the comment requests of post `pid`
      return, `None` when they fail. */
  method FetchAllComments(pageId: string, postPages: seq<Page<Post>>, maxPosts: int, maxComments: int,
                          commentPages: Option<string> -> Option<seq<Page<RawComment>>>,
                          removePatterns: string -> string)
    returns (result: ScrapeResult)
    requires Ends(postPages)
    requires forall pid :: commentPages(pid).Some? ==> Ends(commentPages(pid).value)
    ensures var posts := Paged(postPages, Some(maxPosts));
      result.pageId == pageId
      && result.postsScanned == |posts|
      && (posts == [] ==> result.totalFetched == 0 && result.comments == [])
      && (posts != [] ==>
            result.comments == FirstOccurrences(Collected(posts, commentPages, PerPost(maxComments, |posts|), removePatterns)))
    ensures result.totalFetched == |result.comments|
  {
    var posts, _ := FetchPaged(postPages, Some(maxPosts));
    if |posts| == 0 {
      return ScrapeResult(pageId, 0, 0, []);
    }
    var perPost := PerPost(maxComments, |posts|);
    var flat: seq<CommentOut> := [];
    for p := 0 to |posts|
      invariant flat == Collected(posts[..p], commentPages, perPost, removePatterns)
    {
      assert posts[..p + 1][..p] == posts[..p];
      var out := FetchForPost(commentPages(posts[p].id), posts[p].id, perPost, removePatterns);
      flat := flat + out;
    }
    assert posts[..|posts|] == posts;
    var unique := Dedupe(flat);
    result := ScrapeResult(pageId, |posts|, |unique|, unique);
  }

  /** `_fetch_for_post`: the capped paging of one post's comments, then the
      filter. */
  method FetchForPost(pages: Option<seq<Page<RawComment>>>, pid: Option<string>, perPost: int,
                      removePatterns: string -> string) returns (out: seq<CommentOut>)
    requires pages.Some? ==> Ends(pages.value)
    ensures out == ForPost(pages, pid, perPost, removePatterns)
  {
    out := [];
    if pages.Some? {
      var raw, _ := FetchPaged(pages.value, Some(perPost));
      out := KeepComments(raw, pid, removePatterns);
    }
  }

  /** What the scrape returns: no more than `max_posts` posts, comment ids
      all different, every comment with text, and `total_fetched` the
      number of comments. */
  lemma ScrapeResultFacts(pageId: string, postPages: seq<Page<Post>>, maxPosts: int, maxComments: int,
                          commentPages: Option<string> -> Option<seq<Page<RawComment>>>,
                          removePatterns: string -> string, result: ScrapeResult)
    requires Ends(postPages)
    requires forall pid :: commentPages(pid).Some? ==> Ends(commentPages(pid).value)
    requires var posts := Paged(postPages, Some(maxPosts));
      result.postsScanned == |posts|
      && (posts == [] ==> result.comments == [])
      && (posts != [] ==>
            result.comments == FirstOccurrences(Collected(posts, commentPages, PerPost(maxComments, |posts|), removePatterns)))
    ensures maxPosts >= 0 ==> result.postsScanned <= maxPosts
    ensures forall a, b :: 0 <= a < b < |result.comments| ==>
      result.comments[a].commentId != result.comments[b].commentId
    ensures forall x :: x in result.comments ==> x.text != ""
  {
    PagedSpec(postPages, Some(maxPosts));
    var posts := Paged(postPages, Some(maxPosts));
    if posts != [] {
      var flat := Collected(posts, commentPages, PerPost(maxComments, |posts|), removePatterns);
      FirstOccurrencesDistinct(flat);
      FirstOccurrencesKept(flat);
    }
  }
}
