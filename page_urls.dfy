/**
 * Page images are named `..._page_NNN.jpg`. The viewer steps through the
 * pages of a document by rewriting the number in the image URL
 * (`getAdjacentPageUrl`) and, when the neighbouring file is missing, by
 * probing further along in the same direction (`findNextValidPage`).
 * Whether an image exists is an oracle `imageExists: string -> bool`.
 */
module PageUrls {
  import opened Wrappers
  import opened Text
  import opened Collections

  /** `maxPageSearchAttempts`. */
  const MaxPageSearchAttempts: nat := 20

  /** `lit` occurs in `s` at position `i`. */
  predicate LiteralAt(s: string, i: nat, lit: string) {
    i + |lit| <= |s| && forall k :: 0 <= k < |lit| ==> s[i + k] == lit[k]
  }

  /** The length of the longest run of digits in `s` starting at `i`. */
  function DigitRun(s: string, i: nat): (n: nat)
    requires i <= |s|
    ensures i + n <= |s|
    decreases |s| - i
  {
    if i < |s| && IsDigit(s[i]) then 1 + DigitRun(s, i + 1) else 0
  }

  /** The run is all digits and is not followed by one. */
  lemma {:induction false} DigitRunSpec(s: string, i: nat)
    requires i <= |s|
    ensures forall k :: i <= k < i + DigitRun(s, i) ==> IsDigit(s[k])
    ensures i + DigitRun(s, i) < |s| ==> !IsDigit(s[i + DigitRun(s, i)])
    decreases |s| - i
  {
    if i < |s| && IsDigit(s[i]) {
      DigitRunSpec(s, i + 1);
    }
  }

  /** A run of `n` digits ended by the end of `s` or by a non-digit is the run at `i`. */
  lemma {:induction false} DigitRunOf(s: string, i: nat, n: nat)
    requires i + n <= |s|
    requires forall k :: i <= k < i + n ==> IsDigit(s[k])
    requires i + n < |s| ==> !IsDigit(s[i + n])
    ensures DigitRun(s, i) == n
    decreases n
  {
    if n > 0 {
      DigitRunOf(s, i + 1, n - 1);
    }
  }

  /** `/page_(\d+)\.jpg/` matches at `i`, with `\d+` taking the whole run of digits. */
  predicate MatchAt(s: string, i: nat) {
    LiteralAt(s, i, "page_") && DigitRun(s, i + 5) >= 1 && LiteralAt(s, i + 5 + DigitRun(s, i + 5), ".jpg")
  }

  /**
   * The regular expression's own reading: "page_", one or more digits,
   * ".jpg". Since "." is not a digit, the digits are always the whole run,
   * so backtracking never finds another match at the same position.
   */
  lemma RegexMatch(s: string, i: nat, n: nat)
    requires n >= 1 && LiteralAt(s, i, "page_") && i + 5 + n <= |s|
    requires forall k :: i + 5 <= k < i + 5 + n ==> IsDigit(s[k])
    ensures LiteralAt(s, i + 5 + n, ".jpg") ==> MatchAt(s, i) && PageDigits(s, i) == s[i + 5..i + 5 + n]
  {
    if LiteralAt(s, i + 5 + n, ".jpg") {
      assert s[i + 5 + n] == ".jpg"[0];
      DigitRunOf(s, i + 5, n);
    }
  }

  /** The leftmost match at or after `i`. */
  function FirstMatchFrom(s: string, i: nat): (r: Option<nat>)
    requires i <= |s|
    ensures r.Some? ==> i <= r.value < |s| && MatchAt(s, r.value)
    decreases |s| - i
  {
    if i == |s| then None
    else if MatchAt(s, i) then Some(i)
    else FirstMatchFrom(s, i + 1)
  }

  /** Nothing matches between `i` and the match found, nor anywhere after `i` when none is. */
  lemma {:induction false} FirstMatchFromLeast(s: string, i: nat)
    requires i <= |s|
    ensures FirstMatchFrom(s, i).Some? ==> forall j :: i <= j < FirstMatchFrom(s, i).value ==> !MatchAt(s, j)
    ensures FirstMatchFrom(s, i).None? ==> forall j :: i <= j ==> !MatchAt(s, j)
    decreases |s| - i
  {
    if i < |s| && !MatchAt(s, i) {
      FirstMatchFromLeast(s, i + 1);
    }
  }

  /** Where `url.match(/page_(\d+)\.jpg/)` matches, if anywhere. */
  function FirstMatch(s: string): Option<nat> {
    FirstMatchFrom(s, 0)
  }

  lemma FirstMatchIs(s: string, i: nat)
    requires MatchAt(s, i) && forall j: nat :: j < i ==> !MatchAt(s, j)
    ensures FirstMatch(s) == Some(i)
  {
    FirstMatchFromLeast(s, 0);
  }

  /** The digits of the match at `i` (`pageMatch[1]`). */
  function PageDigits(s: string, i: nat): (d: string)
    requires MatchAt(s, i)
    ensures |d| >= 1 && AllDigits(d)
  {
    DigitRunSpec(s, i + 5);
    var d := s[i + 5..i + 5 + DigitRun(s, i + 5)];
    assert forall k :: 0 <= k < |d| ==> d[k] == s[i + 5 + k];
    d
  }

  /** Just past ".jpg" of the match at `i`. */
  function MatchEnd(s: string, i: nat): (e: nat)
    requires MatchAt(s, i)
    ensures e <= |s|
  {
    i + 9 + DigitRun(s, i + 5)
  }

  /** The first match cut out of the URL: the text before it, its digits, the text after it. */
  datatype PageMatch = PageMatch(prefix: string, digits: string, suffix: string)

  /** `url.match(/page_(\d+)\.jpg/)`, as the pieces around the first match. */
  function FindPage(url: string): (r: Option<PageMatch>)
    ensures r.Some? ==> |r.value.digits| >= 1 && AllDigits(r.value.digits)
  {
    match FirstMatch(url)
    case None => None
    case Some(i) => Some(PageMatch(url[..i], PageDigits(url, i), url[MatchEnd(url, i)..]))
  }

  /** `parseInt(pageMatch[1])`, or None when nothing matches. */
  function PageNumber(url: string): Option<int> {
    match FindPage(url)
    case None => None
    case Some(m) => Some(DigitsValue(m.digits))
  }

  /** `String(n).padStart(3, '0')`. */
  function PageString(n: nat): (d: string)
    ensures |d| >= 3 && AllDigits(d) && DigitsValue(d) == n
    ensures |d| > 3 ==> d == NatToString(n)
    ensures n > 0 && |d| > 3 ==> d[0] != '0'
  {
    var s := NatToString(n);
    PadValue(s, 3);
    PadStart(s, 3)
  }

  lemma PadValue(s: string, width: nat)
    requires AllDigits(s)
    ensures AllDigits(PadStart(s, width)) && DigitsValue(PadStart(s, width)) == DigitsValue(s)
  {
    if |s| < width {
      ZerosValue(width - |s|, s);
    }
  }

  /** `p` + "page_" + `digits` + ".jpg" + `q`. */
  function Splice(p: string, digits: string, q: string): string {
    p + "page_" + digits + ".jpg" + q
  }

  /**
   * `getAdjacentPageUrl`: None when nothing matches or the new number is
   * below 1; otherwise the first match rewritten to the new number.
   */
  function AdjacentPageUrl(currentUrl: string, offset: int): Option<string> {
    match FindPage(currentUrl)
    case None => None
    case Some(m) =>
      var newPageNum := DigitsValue(m.digits) + offset;
      if newPageNum < 1 then None
      else Some(Splice(m.prefix, PageString(newPageNum), m.suffix))
  }

  /** The characters of a splice, piece by piece. */
  lemma SpliceIndex(p: string, d: string, q: string)
    ensures var u := Splice(p, d, q);
      |u| == |p| + 9 + |d| + |q| &&
      (forall k :: 0 <= k < |p| ==> u[k] == p[k]) &&
      LiteralAt(u, |p|, "page_") &&
      (forall k :: 0 <= k < |d| ==> u[|p| + 5 + k] == d[k]) &&
      LiteralAt(u, |p| + 5 + |d|, ".jpg") &&
      (forall k :: 0 <= k < |q| ==> u[|p| + 9 + |d| + k] == q[k])
  {
  }

  /** A splice matches where the new digits were put, with exactly those digits. */
  lemma SpliceMatch(p: string, d: string, q: string)
    requires |d| >= 1 && AllDigits(d)
    ensures MatchAt(Splice(p, d, q), |p|)
    ensures PageDigits(Splice(p, d, q), |p|) == d
    ensures Splice(p, d, q)[..|p|] == p
    ensures Splice(p, d, q)[MatchEnd(Splice(p, d, q), |p|)..] == q
  {
    var u := Splice(p, d, q);
    SpliceIndex(p, d, q);
    assert u[|p| + 5 + |d|] == '.';
    DigitRunOf(u, |p| + 5, |d|);
    assert PageDigits(u, |p|) == d;
    assert u[..|p|] == p;
    assert u[MatchEnd(u, |p|)..] == q;
  }

  /** A URL is the splice of its own match. */
  lemma SpliceOfMatch(s: string, i: nat)
    requires MatchAt(s, i)
    ensures s == Splice(s[..i], PageDigits(s, i), s[MatchEnd(s, i)..])
  {
    SpliceOfParts(s, i, i + 5 + DigitRun(s, i + 5));
  }

  lemma SpliceOfParts(s: string, i: nat, c: nat)
    requires LiteralAt(s, i, "page_") && i + 5 <= c && LiteralAt(s, c, ".jpg")
    ensures s == Splice(s[..i], s[i + 5..c], s[c + 4..])
  {
    LiteralSlice(s, i, "page_");
    LiteralSlice(s, c, ".jpg");
    SplitFive(s, i, i + 5, c, c + 4);
  }

  lemma LiteralSlice(s: string, i: nat, lit: string)
    requires LiteralAt(s, i, lit)
    ensures s[i..i + |lit|] == lit
  {
    forall k | 0 <= k < |lit| ensures s[i..i + |lit|][k] == lit[k] {
      assert s[i..i + |lit|][k] == s[i + k];
    }
  }

  lemma SplitFive(s: string, a: nat, b: nat, c: nat, e: nat)
    requires a <= b <= c <= e <= |s|
    ensures s == s[..a] + s[a..b] + s[b..c] + s[c..e] + s[e..]
  {
    assert s[..a] + s[a..b] == s[..b];
    assert s[..b] + s[b..c] == s[..c];
    assert s[..c] + s[c..e] == s[..e];
  }

  /**
   * Putting "page_" at `i` of a URL without a match before `i`, and
   * leaving what precedes `i` alone, creates no match before `i`.
   */
  lemma NoMatchBefore(url: string, u: string, i: nat, j: nat)
    requires i <= |url| && LiteralAt(u, i, "page_")
    requires forall k :: 0 <= k < i ==> u[k] == url[k]
    requires !MatchAt(url, j) && j < i
    ensures !MatchAt(u, j)
  {
    if j + 5 > i {
      NoOverlappingPage(u, i, j);
    } else if LiteralAt(u, j, "page_") {
      RunStopsAtPage(u, i, j + 5);
      var c := j + 5 + DigitRun(u, j + 5);
      if c + 4 <= i {
        SameMatchBefore(url, u, i, j);
      } else {
        NoJpgBeforePage(u, i, c);
      }
    }
  }

  /** "page_" cannot start again inside another "page_". */
  lemma NoOverlappingPage(u: string, i: nat, j: nat)
    requires LiteralAt(u, i, "page_") && j < i < j + 5
    ensures !LiteralAt(u, j, "page_")
  {
    PageChars(u, i);
    assert u[j + (i - j)] != "page_"[i - j];
  }

  /** A run of digits cannot pass the "p" of "page_". */
  lemma RunStopsAtPage(u: string, i: nat, b: nat)
    requires LiteralAt(u, i, "page_") && b <= i
    ensures b + DigitRun(u, b) <= i
  {
    DigitRunSpec(u, b);
    PageChars(u, i);
  }

  /** ".jpg" cannot end inside a "page_" that follows it. */
  lemma NoJpgBeforePage(u: string, i: nat, c: nat)
    requires LiteralAt(u, i, "page_") && c <= i < c + 4
    ensures !LiteralAt(u, c, ".jpg")
  {
    PageChars(u, i);
    var o := i - c;
    if o == 2 {
      assert u[c + 3] != ".jpg"[3];
    } else {
      assert u[c + o] != ".jpg"[o];
    }
  }

  /** A match that ends before `i` sees only the part of `u` it shares with `url`. */
  lemma SameMatchBefore(url: string, u: string, i: nat, j: nat)
    requires i <= |url| && i <= |u| && j + 5 <= i
    requires forall k :: 0 <= k < i ==> u[k] == url[k]
    requires j + 9 + DigitRun(u, j + 5) <= i
    ensures MatchAt(u, j) ==> MatchAt(url, j)
  {
    var r := DigitRun(u, j + 5);
    DigitRunSpec(u, j + 5);
    DigitRunOf(url, j + 5, r);
  }

  lemma PageChars(u: string, i: nat)
    requires LiteralAt(u, i, "page_")
    ensures i + 5 <= |u| && u[i] == 'p' && u[i + 1] == 'a' && !IsDigit(u[i]) && u[i] != '.' 
  {
    assert u[i + 0] == "page_"[0];
    assert u[i + 1] == "page_"[1];
  }

  /** A splice at the leftmost match of `url` is the leftmost match of the result. */
  lemma SpliceFirst(url: string, i: nat, d: string, q: string)
    requires FirstMatch(url) == Some(i) && |d| >= 1 && AllDigits(d)
    ensures FirstMatch(Splice(url[..i], d, q)) == Some(i)
  {
    var u := Splice(url[..i], d, q);
    SpliceMatch(url[..i], d, q);
    SpliceIndex(url[..i], d, q);
    FirstMatchFromLeast(url, 0);
    forall j: nat | j < i ensures !MatchAt(u, j) {
      NoMatchBefore(url, u, i, j);
    }
    FirstMatchIs(u, i);
  }

  /**
   * The pieces of the first match put back together give the URL, the
   * match lies right after the prefix, and None means no match anywhere.
   */
  lemma FindPageSpec(url: string)
    ensures FindPage(url).None? <==> forall j: nat :: !MatchAt(url, j)
    ensures FindPage(url).Some? ==>
      var m := FindPage(url).value;
      url == Splice(m.prefix, m.digits, m.suffix) && FirstMatch(url) == Some(|m.prefix|)
  {
    FirstMatchFromLeast(url, 0);
    if FindPage(url).Some? {
      SpliceOfMatch(url, FirstMatch(url).value);
    }
  }

  /** New digits put into the first match are found there again, with everything else as it was. */
  lemma FindPageOfSplice(url: string, d: string)
    requires FindPage(url).Some? && |d| >= 1 && AllDigits(d)
    ensures var m := FindPage(url).value;
      FindPage(Splice(m.prefix, d, m.suffix)) == Some(PageMatch(m.prefix, d, m.suffix))
  {
    var i := FirstMatch(url).value;
    var _ := SpliceAtFirst(url, i, d, url[MatchEnd(url, i)..]);
  }

  /** Splicing new digits into the first match of `url`. */
  lemma SpliceAtFirst(url: string, i: nat, d: string, q: string) returns (u: string)
    requires FirstMatch(url) == Some(i) && |d| >= 1 && AllDigits(d)
    ensures u == Splice(url[..i], d, q)
    ensures FirstMatch(u) == Some(i) && u[..i] == url[..i] && u[MatchEnd(u, i)..] == q && PageDigits(u, i) == d
  {
    u := Splice(url[..i], d, q);
    SpliceMatch(url[..i], d, q);
    SpliceFirst(url, i, d, q);
  }

  /** None exactly when the URL has no `page_<digits>.jpg` or the new number would be below 1. */
  lemma AdjacentPageUrlNone(url: string, offset: int)
    ensures PageNumber(url).None? <==> forall j: nat :: !MatchAt(url, j)
    ensures AdjacentPageUrl(url, offset).None? <==> PageNumber(url).None? || PageNumber(url).value + offset < 1
  {
    FindPageSpec(url);
  }

  /**
   * Otherwise only the digits of the first match change: the text before
   * and after it is kept, and the new digits are the old number plus
   * `offset` in `PageString`'s form (at least three digits, no further
   * leading zeros).
   */
  lemma AdjacentPageUrlSpec(url: string, offset: int)
    requires AdjacentPageUrl(url, offset).Some?
    ensures FindPage(url).Some? && PageNumber(url).value + offset >= 1
    ensures FindPage(AdjacentPageUrl(url, offset).value) ==
      Some(PageMatch(FindPage(url).value.prefix, PageString(PageNumber(url).value + offset), FindPage(url).value.suffix))
  {
    var m := FindPage(url).value;
    FindPageOfSplice(url, PageString(DigitsValue(m.digits) + offset));
  }

  /** A step moves the page number by exactly `offset`. */
  lemma AdjacentPageNumber(url: string, offset: int)
    requires AdjacentPageUrl(url, offset).Some?
    ensures PageNumber(url).Some?
    ensures PageNumber(AdjacentPageUrl(url, offset).value) == Some(PageNumber(url).value + offset)
  {
    assert FindPage(url).Some?;
    var m := FindPage(url).value;
    var d' := PageString(DigitsValue(m.digits) + offset);
    var u := AdjacentPageUrl(url, offset).value;
    assert FindPage(u) == Some(PageMatch(m.prefix, d', m.suffix)) by {
      AdjacentPageUrlSpec(url, offset);
    }
    assert PageNumber(u) == Some(DigitsValue(d')) by {
      FoundNumber(u, m.prefix, d', m.suffix);
    }
  }

  lemma FoundNumber(u: string, p: string, d: string, q: string)
    requires FindPage(u) == Some(PageMatch(p, d, q))
    ensures PageNumber(u) == Some(DigitsValue(d))
  {
  }

  lemma FoundStep(u: string, p: string, d: string, q: string, offset: int)
    requires FindPage(u) == Some(PageMatch(p, d, q)) && DigitsValue(d) + offset >= 1
    ensures AdjacentPageUrl(u, offset) == Some(Splice(p, PageString(DigitsValue(d) + offset), q))
  {
  }

  /**
   * A three-digit page number of at least 1 steps forward and back to the
   * very same URL, and one of at least 2 back and forward.
   */
  lemma AdjacentRoundTrip(url: string)
    requires FindPage(url).Some? && |FindPage(url).value.digits| == 3
    ensures PageNumber(url).value >= 1 ==>
      AdjacentPageUrl(url, 1).Some? && AdjacentPageUrl(AdjacentPageUrl(url, 1).value, -1) == Some(url)
    ensures PageNumber(url).value >= 2 ==>
      AdjacentPageUrl(url, -1).Some? && AdjacentPageUrl(AdjacentPageUrl(url, -1).value, 1) == Some(url)
  {
    var n := PageNumber(url).value;
    if n >= 1 {
      StepBack(url, 1);
    }
    if n >= 2 {
      StepBack(url, -1);
    }
  }

  lemma StepBack(url: string, offset: int)
    requires FindPage(url).Some? && |FindPage(url).value.digits| == 3
    requires PageNumber(url).value >= 1 && PageNumber(url).value + offset >= 1
    ensures AdjacentPageUrl(url, offset).Some?
    ensures AdjacentPageUrl(AdjacentPageUrl(url, offset).value, -offset) == Some(url)
  {
    var m := FindPage(url).value;
    var n := DigitsValue(m.digits);
    var d' := PageString(n + offset);
    assert AdjacentPageUrl(url, offset) == Some(Splice(m.prefix, d', m.suffix)) by {
      FoundStep(url, m.prefix, m.digits, m.suffix, offset);
    }
    var u := Splice(m.prefix, d', m.suffix);
    assert FindPage(u) == Some(PageMatch(m.prefix, d', m.suffix)) by {
      AdjacentPageUrlSpec(url, offset);
    }
    assert AdjacentPageUrl(u, -offset) == Some(Splice(m.prefix, PageString(n), m.suffix)) by {
      FoundStep(u, m.prefix, d', m.suffix, -offset);
    }
    assert PageString(n) == m.digits by {
      PadRoundTrip(m.digits);
    }
    assert url == Splice(m.prefix, m.digits, m.suffix) by {
      FindPageSpec(url);
    }
  }

  // ----- probing in one direction -----

  /** One step of `AdjacentPageUrl` in direction `d`. */
  function Step(d: int): string -> Option<string> {
    u => AdjacentPageUrl(u, d)
  }

  /** The URL after `k` steps in direction `d`, while each step exists. */
  function Probe(url: string, d: int, k: nat): Option<string> {
    Iterate(url, Step(d), k)
  }

  /** Every step in direction `d` moves the page number by `d`. */
  lemma StepShifts(d: int)
    ensures forall y :: Step(d)(y).Some? ==>
      PageNumber(y).Some? && PageNumber(Step(d)(y).value) == Some(PageNumber(y).value + d)
  {
    forall y | Step(d)(y).Some?
      ensures PageNumber(y).Some? && PageNumber(Step(d)(y).value) == Some(PageNumber(y).value + d)
    {
      AdjacentPageNumber(y, d);
    }
  }

  /** The `k`-th probe shows the page `k * d` pages away. */
  lemma ProbePageNumber(url: string, d: int, k: nat)
    requires PageNumber(url).Some? && Probe(url, d, k).Some?
    ensures PageNumber(Probe(url, d, k).value) == Some(PageNumber(url).value + k * d)
  {
    StepShifts(d);
    IterateShift(url, Step(d), PageNumber, d, k);
  }

  datatype PageHit = PageHit(url: string, pageOffset: int)

  /**
   * Probe `k` of the walk from `url` in direction `d` is the first one,
   * within `MaxPageSearchAttempts`, whose image exists.
   */
  predicate FirstHitAt(url: string, d: int, imageExists: string -> bool, k: nat) {
    1 <= k <= MaxPageSearchAttempts && Probe(url, d, k).Some? && imageExists(Probe(url, d, k).value) &&
    forall j :: 1 <= j < k ==> Probe(url, d, j).Some? && !imageExists(Probe(url, d, j).value)
  }

  /** No probe within `MaxPageSearchAttempts` finds an image. */
  predicate NoHit(url: string, d: int, imageExists: string -> bool) {
    forall k :: 1 <= k <= MaxPageSearchAttempts && Probe(url, d, k).Some? ==> !imageExists(Probe(url, d, k).value)
  }

  /** There is at most one first hit. */
  lemma FirstHitUnique(url: string, d: int, imageExists: string -> bool, k1: nat, k2: nat)
    requires FirstHitAt(url, d, imageExists, k1) && FirstHitAt(url, d, imageExists, k2)
    ensures k1 == k2
  {
  }

  /** Every bounded walk either has a first hit or none at all, never both. */
  lemma FirstHitOrNoHit(url: string, d: int, imageExists: string -> bool)
    ensures NoHit(url, d, imageExists) <==> !exists k: nat :: FirstHitAt(url, d, imageExists, k)
  {
    if !NoHit(url, d, imageExists) {
      var k := LeastFound(url, Step(d), imageExists, MaxPageSearchAttempts, 1);
      assert FirstHitAt(url, d, imageExists, k);
    }
  }

  /** The first probe is the adjacent page. */
  lemma ProbeOne(url: string, d: int)
    ensures Probe(url, d, 1) == AdjacentPageUrl(url, d)
  {
    assert Iterate(url, Step(d), 0) == Some(url);
  }

  /** Without an adjacent page there is nothing to find. */
  lemma NoAdjacentNoHit(url: string, d: int, imageExists: string -> bool)
    requires AdjacentPageUrl(url, d).None?
    ensures NoHit(url, d, imageExists)
  {
    ProbeOne(url, d);
    forall k | 1 <= k <= MaxPageSearchAttempts
      ensures Probe(url, d, k).None?
    {
      IterateStaysNone(url, Step(d), 1, k);
    }
  }

  /**
   * `findNextValidPage`: up to `MaxPageSearchAttempts` steps of
   * `getAdjacentPageUrl` in direction `direction`, each checked with the
   * `imageExists` oracle; the result is the first page found, with its
   * distance in pages, and null when the walk finds none or runs off the
   * pattern or below page 1.
   */
  method FindNextValidPage(currentUrl: string, direction: int, imageExists: string -> bool)
    returns (result: Option<PageHit>)
    ensures result.Some? ==> exists k: nat :: (FirstHitAt(currentUrl, direction, imageExists, k) &&
      result.value == PageHit(Probe(currentUrl, direction, k).value, k * direction))
    ensures result.None? ==> NoHit(currentUrl, direction, imageExists)
  {
    var hit := ProbeUntil(currentUrl, Step(direction), imageExists, MaxPageSearchAttempts);
    if hit.None? {
      return None;
    }
    var (testUrl, attempts) := hit.value;
    assert Probe(currentUrl, direction, attempts) == Some(testUrl);
    assert FirstHitAt(currentUrl, direction, imageExists, attempts);
    return Some(PageHit(testUrl, attempts * direction));
  }
}
