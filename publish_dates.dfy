/**
 * The issue date of a leasing brochure: `publishDate` text such as
 * "26.01" or "2026.01" read as a month. A date is the month index
 * `year * 12 + (month - 1)`, which orders dates other than the epoch
 * exactly as the JavaScript `Date` objects built for the first of each
 * month do, including a month field outside 1..12 rolling into a
 * neighbouring year. The epoch, returned for unreadable text, is placed at
 * 1970-01 and so ties with that month.
 */
module PublishDates {
  import opened Wrappers
  import opened Text

  /** The month of `new Date(0)`, 1970-01, returned when no date can be read. */
  const Epoch: int := 1970 * 12

  /** The month index of `new Date(year, month - 1, 1)`. */
  function MonthIndex(year: int, month: int): int {
    year * 12 + month - 1
  }

  /** The length of the run of digits starting at `i`. */
  function DigitRun(s: string, i: nat): (n: nat)
    requires i <= |s|
    ensures i + n <= |s|
    ensures AllDigits(s[i..i + n])
    ensures i + n == |s| || !IsDigit(s[i + n])
    decreases |s| - i
  {
    if i < |s| && IsDigit(s[i]) then
      var n := DigitRun(s, i + 1);
      assert s[i..i + 1 + n] == [s[i]] + s[i + 1..i + 1 + n];
      1 + n
    else 0
  }

  /**
   * `(\d{2,4})\.(\d{2})` matches at `i` with a year group of `len` digits:
   * `len` digits, a dot, two digits.
   */
  predicate DateMatchAt(s: string, i: nat, len: nat) {
    2 <= len <= 4 && i + len + 3 <= |s| &&
    AllDigits(s[i..i + len]) && s[i + len] == '.' &&
    IsDigit(s[i + len + 1]) && IsDigit(s[i + len + 2])
  }

  predicate DateMatchesAt(s: string, i: nat) {
    exists len :: 2 <= len <= 4 && DateMatchAt(s, i, len)
  }

  /** A digit run of exactly `len` characters followed by a non-digit has length `len`. */
  lemma {:induction false} DigitRunExact(s: string, i: nat, len: nat)
    requires i <= |s|
    ensures i + len < |s| && AllDigits(s[i..i + len]) && !IsDigit(s[i + len]) ==> DigitRun(s, i) == len
    decreases len
  {
    if len > 0 && i + len < |s| && AllDigits(s[i..i + len]) {
      assert s[i] == s[i..i + len][0];
      assert s[i + 1..i + len] == s[i..i + len][1..];
      DigitRunExact(s, i + 1, len - 1);
    }
  }

  /** At a given start the year group's length is forced: a dot is not a digit. */
  lemma DateMatchUnique(s: string, i: nat, len1: nat, len2: nat)
    requires DateMatchAt(s, i, len1) && DateMatchAt(s, i, len2)
    ensures len1 == len2
  {
    DigitRunExact(s, i, len1);
    DigitRunExact(s, i, len2);
  }

  /** The year-group length of a match at `i`, or 0 when none starts there. */
  function MatchLenAt(s: string, i: nat): (len: nat)
    requires i <= |s|
    ensures len != 0 ==> DateMatchAt(s, i, len)
    ensures len == 0 ==> !DateMatchesAt(s, i)
  {
    var n := DigitRun(s, i);
    if 2 <= n <= 4 && i + n + 3 <= |s| && s[i + n] == '.' && IsDigit(s[i + n + 1]) && IsDigit(s[i + n + 2])
    then n
    else
      assert forall len :: 2 <= len <= 4 ==> !DateMatchAt(s, i, len) by {
        forall len | 2 <= len <= 4 ensures !DateMatchAt(s, i, len) {
          DigitRunExact(s, i, len);
        }
      }
      0
  }

  datatype DateMatch = DateMatch(start: nat, yearLen: nat)

  /** The leftmost match at or after position `from`, as `String.prototype.match` finds it. */
  function FindDateMatch(s: string, from: nat): (m: Option<DateMatch>)
    requires from <= |s|
    ensures m.Some? ==> from <= m.value.start && DateMatchAt(s, m.value.start, m.value.yearLen)
    ensures m.Some? ==> forall j :: from <= j < m.value.start ==> !DateMatchesAt(s, j)
    ensures m.None? ==> forall j :: from <= j <= |s| ==> !DateMatchesAt(s, j)
    decreases |s| - from
  {
    var len := MatchLenAt(s, from);
    if len != 0 then Some(DateMatch(from, len))
    else if from == |s| then None
    else FindDateMatch(s, from + 1)
  }

  /**
   * `parsePublishDate`: the month index of the leftmost `YY.MM`/`YYYY.MM`
   * occurrence, a two-digit year standing for 20YY, or `Epoch` when the
   * text is empty or holds no such occurrence.
   */
  function ParsePublishDate(s: string): (d: int)
    ensures (forall j :: 0 <= j <= |s| ==> !DateMatchesAt(s, j)) ==> d == Epoch
    ensures d >= MonthIndex(100, 0)
  {
    if s == "" then Epoch
    else match FindDateMatch(s, 0)
      case None => Epoch
      case Some(m) =>
        assert DateMatchesAt(s, m.start);
        var year := DigitsValue(s[m.start..m.start + m.yearLen]);
        var month := DigitsValue(s[m.start + m.yearLen + 1..m.start + m.yearLen + 3]);
        MonthIndex(if year < 100 then 2000 + year else year, month)
  }

  /** The year group and the month group of a match, as `parseInt` reads them. */
  function YearGroup(s: string, i: nat, len: nat): nat
    requires DateMatchAt(s, i, len)
  {
    DigitsValue(s[i..i + len])
  }

  function MonthGroup(s: string, i: nat, len: nat): nat
    requires DateMatchAt(s, i, len)
  {
    DigitsValue(s[i + len + 1..i + len + 3])
  }

  /** The value of a match found leftmost at `i`, stated against the pattern alone. */
  lemma ParseLeftmost(s: string, i: nat, len: nat)
    requires DateMatchAt(s, i, len)
    requires forall j :: 0 <= j < i ==> !DateMatchesAt(s, j)
    ensures var y := YearGroup(s, i, len);
      ParsePublishDate(s) == MonthIndex(if y < 100 then 2000 + y else y, MonthGroup(s, i, len))
  {
    var m := FindDateMatch(s, 0);
    assert DateMatchesAt(s, i);
    assert m.Some?;
    assert DateMatchesAt(s, m.value.start);
    assert m.value.start == i;
    DateMatchUnique(s, i, len, m.value.yearLen);
  }

  /** A two-digit year reads as 20YY: "26.01" and "2026.01" are the same month. */
  lemma TwoDigitYear(s: string)
    requires DateMatchAt(s, 0, 2)
    ensures DateMatchAt("20" + s, 0, 4)
    ensures ParsePublishDate("20" + s) == ParsePublishDate(s)
    ensures ParsePublishDate(s) == MonthIndex(2000 + YearGroup(s, 0, 2), MonthGroup(s, 0, 2))
  {
    var t := "20" + s;
    assert t[0..4] == "20" + s[0..2];
    assert t[5..7] == s[3..5];
    assert DateMatchAt(t, 0, 4);
    ParseLeftmost(s, 0, 2);
    ParseLeftmost(t, 0, 4);
    assert YearGroup(t, 0, 4) == 2000 + YearGroup(s, 0, 2) by {
      var y := s[0..2];
      assert t[0..4][..3] == "20" + y[..1];
      assert t[0..4][..3][..2] == "20";
      assert ("20" + y[..1])[..2] == "20";
      assert "20"[..1] == "2";
      assert DigitsValue("2") == 2;
      assert DigitsValue("20") == 20;
      assert DigitsValue("20" + y[..1]) == 200 + DigitValue(y[0]);
      assert DigitsValue(y) == 10 * DigitValue(y[0]) + DigitValue(y[1]);
    }
    assert YearGroup(s, 0, 2) < 100 by {
      assert DigitsValue(s[0..2]) == 10 * DigitValue(s[0]) + DigitValue(s[1]);
    }
    assert MonthGroup(t, 0, 4) == MonthGroup(s, 0, 2);
  }

  lemma Prefix2026()
    ensures "20" + "26.01" == "2026.01"
  {
    var t := "20" + "26.01";
    assert |t| == 7;
    assert t[0] == '2' && t[1] == '0' && t[2] == '2' && t[3] == '6';
    assert t[4] == '.' && t[5] == '0' && t[6] == '1';
  }

  lemma SampleShortDate()
    ensures ParsePublishDate("26.01") == MonthIndex(2026, 1)
  {
    TwoDigitYear("26.01");
    assert DigitsValue("26.01"[0..2]) == 26 by {
      assert "26.01"[0..2] == "26" && "26"[..1] == "2";
    }
    assert DigitsValue("26.01"[3..5]) == 1 by {
      assert "26.01"[3..5] == "01" && "01"[..1] == "0";
    }
  }

  lemma SampleDates()
    ensures ParsePublishDate("26.01") == ParsePublishDate("2026.01") == MonthIndex(2026, 1)
    ensures ParsePublishDate("") == Epoch
  {
    SampleShortDate();
    TwoDigitYear("26.01");
    Prefix2026();
  }

  // ----- the year and month shown by `getLastUpdateTime` -----

  /** `getFullYear()` of the first day of month `d`. */
  function YearOf(d: int): int { d / 12 }

  /** `getMonth() + 1` of the first day of month `d`. */
  function MonthOf(d: int): (m: int)
    ensures 1 <= m <= 12
  {
    d % 12 + 1
  }

  /** A month index gives back its calendar year and month. */
  lemma YearMonthRoundTrip(year: int, month: int)
    requires 1 <= month <= 12
    ensures YearOf(MonthIndex(year, month)) == year
    ensures MonthOf(MonthIndex(year, month)) == month
  {
  }

  /** Month indices are ordered as (year, month) pairs are, lexicographically. */
  lemma MonthIndexOrder(y1: int, m1: int, y2: int, m2: int)
    requires 1 <= m1 <= 12 && 1 <= m2 <= 12
    ensures MonthIndex(y1, m1) < MonthIndex(y2, m2) <==> y1 < y2 || (y1 == y2 && m1 < m2)
  {
  }

  /** "정보 없음" (no information) when no record has a date, else "YYYY년 M월". */
  function LastUpdateText(latest: Option<int>): (t: string)
    ensures latest.None? <==> t == "정보 없음"
  {
    match latest
      case None => "정보 없음"
      case Some(d) =>
        var y := YearOf(d);
        var t := (if y < 0 then "-" + NatToString(-y) else NatToString(y)) + "년 " + NatToString(MonthOf(d)) + "월";
        assert t[|t| - 1] == '월';
        t
  }
}
