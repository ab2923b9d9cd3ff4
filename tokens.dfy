/**
 * The regular expressions the suggestion engine cuts addresses and
 * station texts with, all of the shape `[body]+end`: one or more body
 * characters followed by one end character. `String.prototype.match`
 * takes the leftmost start and, there, the longest token (the body is
 * greedy and backs off until an end character follows); the `g` flag
 * collects successive non-overlapping tokens.
 */
module Tokens {
  import opened Wrappers
  import opened Text

  /** The Hangul syllable block `[가-힣]`. */
  predicate IsHangul(c: char) { '가' <= c <= '힣' }

  predicate IsAsciiLetter(c: char) { 'A' <= c <= 'Z' || 'a' <= c <= 'z' }

  /** `[가-힣]`, the body of the district and neighbourhood patterns; `[가-힣]+구` ends a district (gu). */
  function HangulBody(): char -> bool { c => IsHangul(c) }
  function GuEnd(): char -> bool { c => c == '구' }

  /** `[가-힣]+동`: a neighbourhood (dong). */
  function DongEnd(): char -> bool { c => c == '동' }

  /** `[가-힣0-9]+(?:로|길)`: a road (ro) or street (gil). */
  function RoadBody(): char -> bool { c => IsHangul(c) || IsDigit(c) }
  function RoadEnd(): char -> bool { c => c == '로' || c == '길' }

  /** `[가-힣A-Za-z0-9]+역`: a station (yeok). */
  function StationBody(): char -> bool { c => IsHangul(c) || IsAsciiLetter(c) || IsDigit(c) }
  function StationEnd(): char -> bool { c => c == '역' }

  /** The pattern matches `s[i..k + 1]`: body characters on `[i, k)` and an end character at `k`. */
  predicate TokenAt(s: string, i: int, k: int, body: char -> bool, end: char -> bool) {
    0 <= i < k < |s| && (forall m :: i <= m < k ==> body(s[m])) && end(s[k])
  }

  /** A string the pattern matches as a whole. */
  predicate IsToken(t: string, body: char -> bool, end: char -> bool) {
    TokenAt(t, 0, |t| - 1, body, end)
  }

  /** The length of the run of body characters starting at `i`. */
  function RunLength(s: string, i: nat, body: char -> bool): (n: nat)
    requires i <= |s|
    ensures i + n <= |s|
    ensures forall m :: i <= m < i + n ==> body(s[m])
    ensures i + n == |s| || !body(s[i + n])
    decreases |s| - i
  {
    if i < |s| && body(s[i]) then 1 + RunLength(s, i + 1, body) else 0
  }

  /** The largest `k` in `[lo, hi]` with an end character at `k`, or -1. */
  function LastEnd(s: string, lo: nat, hi: nat, end: char -> bool): (k: int)
    requires hi < |s|
    ensures k == -1 || (lo <= k <= hi && end(s[k]))
    ensures forall m :: k < m <= hi && lo <= m ==> !end(s[m])
    decreases hi + 1 - lo
  {
    if hi < lo then -1
    else if end(s[hi]) then hi
    else if hi == lo then -1
    else LastEnd(s, lo, hi - 1, end)
  }

  /** The end of the longest token starting at `i`, or -1 when none starts there. */
  function TokenEnd(s: string, i: nat, body: char -> bool, end: char -> bool): (k: int)
    requires i <= |s|
    ensures k == -1 ==> forall m :: !TokenAt(s, i, m, body, end)
    ensures k != -1 ==> TokenAt(s, i, k, body, end) && forall m :: k < m ==> !TokenAt(s, i, m, body, end)
  {
    var n := RunLength(s, i, body);
    if n == 0 then -1
    else
      var e := if i + n < |s| then i + n else |s| - 1;
      var k := LastEnd(s, i + 1, e, end);
      assert forall m :: TokenAt(s, i, m, body, end) ==> m <= e;
      k
  }

  /** The leftmost token at or after `from`, as (start, end). */
  function FindToken(s: string, from: nat, body: char -> bool, end: char -> bool): (r: Option<(nat, nat)>)
    requires from <= |s|
    ensures r.Some? ==> from <= r.value.0 && TokenAt(s, r.value.0, r.value.1, body, end)
    ensures r.Some? ==> forall m :: r.value.1 < m ==> !TokenAt(s, r.value.0, m, body, end)
    ensures r.Some? ==> forall j, m :: from <= j < r.value.0 ==> !TokenAt(s, j, m, body, end)
    ensures r.None? ==> forall j, m :: from <= j ==> !TokenAt(s, j, m, body, end)
    decreases |s| - from
  {
    var k := TokenEnd(s, from, body, end);
    if k != -1 then Some((from, k as nat))
    else if from == |s| then None
    else FindToken(s, from + 1, body, end)
  }

  /** `s.match(re)` without the `g` flag: the first token, if any. */
  function FirstToken(s: string, body: char -> bool, end: char -> bool): (t: Option<string>)
    ensures t.Some? ==> IsToken(t.value, body, end) && Includes(s, t.value)
    ensures t.None? <==> forall j, m :: 0 <= j ==> !TokenAt(s, j, m, body, end)
  {
    match FindToken(s, 0, body, end)
      case None => None
      case Some((i, k)) =>
        var t := s[i..k + 1];
        assert OccursAt(s, t, i);
        Some(t)
  }

  /** No token of the pattern starts in `[lo, hi)`. */
  ghost predicate NoTokenIn(s: string, lo: int, hi: int, body: char -> bool, end: char -> bool) {
    forall j, m :: lo <= j < hi ==> !TokenAt(s, j, m, body, end)
  }

  /** `s[i..k + 1]` is the longest token starting at `i`. */
  ghost predicate LongestAt(s: string, i: int, k: int, body: char -> bool, end: char -> bool) {
    TokenAt(s, i, k, body, end) && forall m :: k < m ==> !TokenAt(s, i, m, body, end)
  }

  /**
   * `sp` lists what a `g` scan from `from` must find: each span the
   * longest token at its start, the spans in order and without overlap,
   * and no token starting before the first, in a gap, or after the last.
   */
  ghost predicate ScanOf(s: string, from: int, sp: seq<(nat, nat)>, body: char -> bool, end: char -> bool) {
    (forall j :: 0 <= j < |sp| ==> LongestAt(s, sp[j].0, sp[j].1, body, end)) &&
    (forall j, j' :: 0 <= j && j' == j + 1 && j' < |sp| ==>
      sp[j].1 < sp[j'].0 && NoTokenIn(s, sp[j].1 + 1, sp[j'].0, body, end)) &&
    (|sp| > 0 ==> from <= sp[0].0 && NoTokenIn(s, from, sp[0].0, body, end)) &&
    NoTokenIn(s, if |sp| == 0 then from else sp[|sp| - 1].1 + 1, |s|, body, end)
  }

  /** A scan is the leftmost longest token followed by the scan after it. */
  lemma ScanCons(s: string, from: int, i: nat, k: nat, rest: seq<(nat, nat)>, body: char -> bool, end: char -> bool)
    requires from <= i && LongestAt(s, i, k, body, end) && NoTokenIn(s, from, i, body, end)
    requires ScanOf(s, k + 1, rest, body, end)
    ensures ScanOf(s, from, [(i, k)] + rest, body, end)
  {
    var sp := [(i, k)] + rest;
    assert forall j :: 0 < j < |sp| ==> sp[j] == rest[j - 1];
  }

  /** The (start, end) positions the `g` scan from `from` visits. */
  function TokenSpans(s: string, from: nat, body: char -> bool, end: char -> bool): seq<(nat, nat)>
    requires from <= |s|
    decreases |s| - from
  {
    match FindToken(s, from, body, end)
      case None => []
      case Some((i, k)) => [(i, k)] + TokenSpans(s, k + 1, body, end)
  }

  /** The scan finds exactly the leftmost-longest tokens, in order, without overlap, and no other. */
  lemma {:induction false} TokenSpansAreScan(s: string, from: nat, body: char -> bool, end: char -> bool)
    requires from <= |s|
    ensures ScanOf(s, from, TokenSpans(s, from, body, end), body, end)
    decreases |s| - from
  {
    match FindToken(s, from, body, end)
      case None =>
      case Some((i, k)) =>
        TokenSpansAreScan(s, k + 1, body, end);
        ScanCons(s, from, i, k, TokenSpans(s, k + 1, body, end), body, end);
  }

  /** `s.match(re)` with the `g` flag from position `from`, an empty list standing for `null`. */
  function AllTokens(s: string, from: nat, body: char -> bool, end: char -> bool): (ts: seq<string>)
    requires from <= |s|
    ensures forall j :: 0 <= j < |ts| ==> IsToken(ts[j], body, end) && Includes(s, ts[j])
    decreases |s| - from
  {
    match FindToken(s, from, body, end)
      case None => []
      case Some((i, k)) =>
        var t := s[i..k + 1];
        assert OccursAt(s, t, i);
        [t] + AllTokens(s, k + 1, body, end)
  }

  /** `ts` spells out the spans `sp` of `s`, one text per span. */
  predicate Spells(s: string, sp: seq<(nat, nat)>, ts: seq<string>) {
    |ts| == |sp| && forall j :: 0 <= j < |sp| ==> sp[j].0 <= sp[j].1 < |s| && ts[j] == s[sp[j].0..sp[j].1 + 1]
  }

  lemma SpellsCons(s: string, i: nat, k: nat, sp: seq<(nat, nat)>, ts: seq<string>)
    requires i <= k < |s| && Spells(s, sp, ts)
    ensures Spells(s, [(i, k)] + sp, [s[i..k + 1]] + ts)
  {
    var sp', ts' := [(i, k)] + sp, [s[i..k + 1]] + ts;
    assert forall j :: 0 < j < |sp'| ==> sp'[j] == sp[j - 1] && ts'[j] == ts[j - 1];
  }

  /** One step of both scans: the leftmost token, then the scan after it. */
  lemma ScanStep(s: string, from: nat, body: char -> bool, end: char -> bool)
    requires from <= |s| && FindToken(s, from, body, end).Some?
    ensures var (i, k) := FindToken(s, from, body, end).value;
      i <= k < |s| &&
      TokenSpans(s, from, body, end) == [(i, k)] + TokenSpans(s, k + 1, body, end) &&
      AllTokens(s, from, body, end) == [s[i..k + 1]] + AllTokens(s, k + 1, body, end)
  {
  }

  /** The tokens `AllTokens` returns are the texts of the scan's spans, in the scan's order. */
  lemma {:induction false} AllTokensAreScan(s: string, from: nat, body: char -> bool, end: char -> bool)
    requires from <= |s|
    ensures Spells(s, TokenSpans(s, from, body, end), AllTokens(s, from, body, end))
    decreases |s| - from
  {
    var r := FindToken(s, from, body, end);
    if r.Some? {
      var (i, k) := r.value;
      ScanStep(s, from, body, end);
      AllTokensAreScan(s, k + 1, body, end);
      SpellsCons(s, i, k, TokenSpans(s, k + 1, body, end), AllTokens(s, k + 1, body, end));
    } else {
      assert TokenSpans(s, from, body, end) == [] && AllTokens(s, from, body, end) == [];
    }
  }

  /** Two stations in one text: `"강남역 역삼역".match(/[가-힣A-Za-z0-9]+역/g)` gives both. */
  lemma TwoStations()
    ensures AllTokens("강남역 역삼역", 0, StationBody(), StationEnd()) == ["강남역", "역삼역"]
  {
    var s := "강남역 역삼역";
    assert RunLength(s, 3, StationBody()) == 0;
    assert RunLength(s, 0, StationBody()) == 3;
    assert LastEnd(s, 1, 3, StationEnd()) == 2;
    assert FindToken(s, 0, StationBody(), StationEnd()) == Some((0, 2));
    assert RunLength(s, 4, StationBody()) == 3;
    assert LastEnd(s, 5, 6, StationEnd()) == 6;
    assert FindToken(s, 4, StationBody(), StationEnd()) == Some((4, 6));
    assert FindToken(s, 3, StationBody(), StationEnd()) == Some((4, 6));
    assert RunLength(s, 7, StationBody()) == 0;
    assert FindToken(s, 7, StationBody(), StationEnd()) == None;
    assert s[0..3] == "강남역" && s[4..7] == "역삼역";
  }
}
