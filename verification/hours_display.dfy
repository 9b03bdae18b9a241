/** The "Xh Ym" rendering of a number of hours used on the check-in card and on the
    manager dashboard, and the hours cell of the reports table. */
module HoursDisplay {
  import opened Types
  import opened Text

  /** `Math.round(x)`: the nearest integer, halves rounded up. */
  function Round(x: real): (n: int)
    ensures n as real - 0.5 <= x < n as real + 0.5
  {
    (x + 0.5).Floor
  }

  lemma RoundOfShift(x: real, k: int)
    ensures Round(x + k as real) == Round(x) + k
  {
  }

  /** `formatHours` as written: `h = Math.floor(x)` and `m = Math.round((x - h) * 60)`.
      The minutes are never rolled over into the hours, so they can reach 60. */
  function HoursMinutesAsWritten(x: real): (hm: (int, int))
    ensures hm.0 == x.Floor && hm.0 as real <= x < hm.0 as real + 1.0
    ensures 0 <= hm.1 <= 60
    ensures hm.0 * 60 + hm.1 == Round(60.0 * x)
  {
    var h := x.Floor;
    var m := Round((x - h as real) * 60.0);
    RoundOfShift((x - h as real) * 60.0, h * 60);
    assert (x - h as real) * 60.0 + (h * 60) as real == 60.0 * x;
    (h, m)
  }

  /** The whole minutes of `x` hours, rounded, split into hours and minutes 0..59. */
  function HoursMinutes(x: real): (hm: (int, int))
    ensures 0 <= hm.1 < 60
    ensures hm.0 * 60 + hm.1 == Round(60.0 * x)
  {
    var total := Round(60.0 * x);
    (total / 60, total % 60)
  }

  function HoursMinutesText(hm: (int, int)): string {
    IntToString(hm.0) + "h " + IntToString(hm.1) + "m"
  }

  predicate IsNumberChar(c: char) {
    IsDigit(c) || c == '-'
  }

  /** Reads back an integer exactly as `toString()` writes it: canonical digits with an
      optional leading minus; leading zeros and "-0" are refused. */
  function ParseInt(s: string): Option<int> {
    if |s| >= 2 && s[0] == '-' && IsCanonicalDecimal(s[1..]) && s[1] != '0' then
      Some(-(ParseDecimal(s[1..]) as int))
    else if IsCanonicalDecimal(s) then Some(ParseDecimal(s) as int)
    else None
  }

  /** Only `toString()`'s own text reads back: the reader accepts one text per integer. */
  lemma ParseIntCanonical(s: string, n: int)
    requires ParseInt(s) == Some(n)
    ensures s == IntToString(n)
  {
    if |s| >= 2 && s[0] == '-' && IsCanonicalDecimal(s[1..]) && s[1] != '0' {
      var d := s[1..];
      assert d[0] == s[1];
      LeadingDigitPositive(d);
      CanonicalDecimalUnique(d);
      assert s == "-" + d;
    } else {
      CanonicalDecimalUnique(s);
    }
  }

  lemma IntToStringRoundTrip(n: int)
    ensures |IntToString(n)| >= 1
    ensures forall i :: 0 <= i < |IntToString(n)| ==> IsNumberChar(IntToString(n)[i])
    ensures ParseInt(IntToString(n)) == Some(n)
  {
    if n < 0 {
      assert IntToString(n)[1..] == NatToString(-n);
    }
  }

  /** The position of the first `c` in `s`. */
  function IndexOf(s: string, c: char): (k: Option<nat>)
    ensures k.Some? ==> k.value < |s| && s[k.value] == c && forall j :: 0 <= j < k.value ==> s[j] != c
    ensures k.None? ==> forall j :: 0 <= j < |s| ==> s[j] != c
  {
    if |s| == 0 then None
    else if s[0] == c then Some(0)
    else
      match IndexOf(s[1..], c)
      case None => None
      case Some(k) => Some(k + 1)
  }

  /** Reads an "Xh Ym" text back into its hours and minutes. */
  function ParseHoursText(t: string): Option<(int, int)> {
    match IndexOf(t, 'h')
    case None => None
    case Some(k) =>
      if k + 3 <= |t| && t[k + 1] == ' ' && t[|t| - 1] == 'm' then
        var a := ParseInt(t[..k]);
        var b := ParseInt(t[k + 2..|t| - 1]);
        if a.Some? && b.Some? then Some((a.value, b.value)) else None
      else None
  }

  /** Where the parser cuts `a + "h " + b + "m"` when `a` holds no letter. */
  lemma HoursTextSplit(a: string, b: string)
    requires forall i :: 0 <= i < |a| ==> IsNumberChar(a[i])
    ensures var t := a + "h " + b + "m";
      && IndexOf(t, 'h') == Some(|a|) && |a| + 3 <= |t|
      && t[|a| + 1] == ' ' && t[|t| - 1] == 'm'
      && t[..|a|] == a && t[|a| + 2..|t| - 1] == b
  {
    var t := a + "h " + b + "m";
    assert forall j :: 0 <= j < |a| ==> t[j] == a[j];
    assert t[|a|] == 'h';
    assert t[..|a|] == a;
    assert t[|a| + 2..|t| - 1] == b;
  }

  /** A text that reads back at all is the rendering of what it reads back as. */
  lemma ParseHoursTextCanonical(t: string)
    requires ParseHoursText(t).Some?
    ensures t == HoursMinutesText(ParseHoursText(t).value)
  {
    var hm := ParseHoursText(t).value;
    var k := IndexOf(t, 'h').value;
    var a, b := t[..k], t[k + 2..|t| - 1];
    ParseIntCanonical(a, hm.0);
    ParseIntCanonical(b, hm.1);
    assert t == a + t[k..k + 2] + b + t[|t| - 1..];
    assert t[k..k + 2] == "h " && t[|t| - 1..] == "m";
  }

  lemma ReadBackDeterminesText()
    ensures forall u :: ParseHoursText(u).Some? ==> u == HoursMinutesText(ParseHoursText(u).value)
  {
    forall u | ParseHoursText(u).Some?
      ensures u == HoursMinutesText(ParseHoursText(u).value)
    {
      ParseHoursTextCanonical(u);
    }
  }

  lemma HoursTextRoundTrip(hm: (int, int))
    ensures ParseHoursText(HoursMinutesText(hm)) == Some(hm)
  {
    IntToStringRoundTrip(hm.0);
    IntToStringRoundTrip(hm.1);
    HoursTextSplit(IntToString(hm.0), IntToString(hm.1));
  }

  /** `formatHours(x)` as the card and the dashboard render it: the text reads back as the
      whole hours and the rounded remaining minutes, which may be 60. */
  function FormatHoursAsWritten(x: real): (t: string)
    ensures ParseHoursText(t).Some?
    ensures var hm := ParseHoursText(t).value;
      hm.0 == x.Floor && 0 <= hm.1 <= 60 && hm.0 * 60 + hm.1 == Round(60.0 * x)
    ensures forall u :: ParseHoursText(u) == ParseHoursText(t) ==> u == t
  {
    HoursTextRoundTrip(HoursMinutesAsWritten(x));
    ReadBackDeterminesText();
    HoursMinutesText(HoursMinutesAsWritten(x))
  }

  /** `formatHours(x)` with the minutes carried into the hours: the text reads back as the
      rounded minutes split into hours and 0..59 minutes. */
  function FormatHours(x: real): (t: string)
    ensures ParseHoursText(t).Some?
    ensures var hm := ParseHoursText(t).value;
      0 <= hm.1 < 60 && hm.0 * 60 + hm.1 == Round(60.0 * x)
    ensures forall u :: ParseHoursText(u) == ParseHoursText(t) ==> u == t
  {
    HoursTextRoundTrip(HoursMinutes(x));
    ReadBackDeterminesText();
    HoursMinutesText(HoursMinutes(x))
  }

  /** 0.9999 hours is 59.994 minutes, which the as-written split renders as "0h 60m". */
  lemma FormatHoursMinuteSixty()
    ensures HoursMinutesAsWritten(0.9999) == (0, 60)
    ensures FormatHoursAsWritten(0.9999) == "0h 60m"
    ensures HoursMinutes(0.9999) == (1, 0)
    ensures FormatHours(0.9999) == "1h 0m"
  {
    SplitsOfAlmostOneHour();
    AsWrittenTextOfAlmostOneHour();
    CorrectedTextOfAlmostOneHour();
  }

  lemma AsWrittenTextOfAlmostOneHour()
    ensures FormatHoursAsWritten(0.9999) == "0h 60m"
  {
    SplitsOfAlmostOneHour();
    SmallNumbers();
    assert FormatHoursAsWritten(0.9999) == HoursMinutesText((0, 60));
  }

  lemma CorrectedTextOfAlmostOneHour()
    ensures FormatHours(0.9999) == "1h 0m"
  {
    SplitsOfAlmostOneHour();
    SmallNumbers();
    assert FormatHours(0.9999) == HoursMinutesText((1, 0));
  }

  lemma SplitsOfAlmostOneHour()
    ensures HoursMinutesAsWritten(0.9999) == (0, 60)
    ensures HoursMinutes(0.9999) == (1, 0)
  {
    assert (0.9999).Floor == 0;
    assert Round(60.0 * 0.9999) == 60;
  }

  lemma SmallNumbers()
    ensures IntToString(0) == "0" && IntToString(1) == "1" && IntToString(60) == "60"
  {
    assert NatToString(6) == "6";
  }

  /** Both splits denote the same number of minutes, and they print the same text whenever
      the as-written minutes stay below 60; otherwise the corrected one carries the hour. */
  lemma HoursMinutesAgree(x: real)
    ensures HoursMinutesAsWritten(x).1 < 60 ==> HoursMinutes(x) == HoursMinutesAsWritten(x)
    ensures HoursMinutesAsWritten(x).1 == 60 ==>
      HoursMinutes(x) == (HoursMinutesAsWritten(x).0 + 1, 0)
  {
    var (h, m) := HoursMinutesAsWritten(x);
    var total := Round(60.0 * x);
    assert total == h * 60 + m;
    if m < 60 {
      assert total / 60 == h && total % 60 == m;
    } else {
      assert total == (h + 1) * 60;
      assert total / 60 == h + 1 && total % 60 == 0;
    }
  }

  /** `x % 1` for a JavaScript number: the fractional part, with the sign of `x`. */
  function JsFraction(x: real): (f: real)
    ensures x >= 0.0 ==> 0.0 <= f < 1.0 && f == x - x.Floor as real
    ensures x < 0.0 ==> -1.0 < f <= 0.0
    ensures (x - f).Floor as real == x - f
  {
    if x >= 0.0 then
      assert (x.Floor as real).Floor == x.Floor;
      x - x.Floor as real
    else
      var k := (-x).Floor;
      assert ((-k) as real).Floor == -k;
      x + k as real
  }

  /** The hours cell of the reports table: `Math.floor(h)` and `Math.round((h % 1) * 60)`. */
  function ReportHoursCell(x: real): (hm: (int, int))
    ensures x >= 0.0 ==> hm == HoursMinutesAsWritten(x)
  {
    (x.Floor, Round(JsFraction(x) * 60.0))
  }
}
