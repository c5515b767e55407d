/** What the feed shows about a post besides its stored fields: the relative
    age of the post (`formatDate`) and the `#tag` labels cut from its tags
    string. Both are pure; the clock is read outside the model and comes in as
    a number. */
module Format {
  import opened Types
  import Text

  /** Whole seconds from `createdAtMs` to `nowMs`, rounded down, as
      `Math.floor((now - date) / 1000)` computes them from two millisecond
      instants; negative when the post lies in the future. */
  function DiffInSeconds(createdAtMs: int, nowMs: int): (secs: int)
    ensures secs * 1000 <= nowMs - createdAtMs < secs * 1000 + 1000
  {
    (nowMs - createdAtMs) / 1000
  }

  /** The four shapes of a relative age. */
  datatype Age = JustNow | MinutesAgo(minutes: nat) | HoursAgo(hours: nat) | DaysAgo(days: nat)

  /** The threshold ladder of `formatDate`: the first bracket the difference
      falls in decides the unit, and the count is the difference in that unit
      rounded down. */
  function AgeOf(diffInSeconds: int): (a: Age)
    ensures a.JustNow? <==> diffInSeconds < 60
    ensures a.MinutesAgo? <==> 60 <= diffInSeconds < 3600
    ensures a.HoursAgo? <==> 3600 <= diffInSeconds < 86400
    ensures a.DaysAgo? <==> 86400 <= diffInSeconds
    ensures a.MinutesAgo? ==>
      1 <= a.minutes <= 59 && a.minutes * 60 <= diffInSeconds < a.minutes * 60 + 60
    ensures a.HoursAgo? ==>
      1 <= a.hours <= 23 && a.hours * 3600 <= diffInSeconds < a.hours * 3600 + 3600
    ensures a.DaysAgo? ==>
      1 <= a.days && a.days * 86400 <= diffInSeconds < a.days * 86400 + 86400
  {
    if diffInSeconds < 60 then JustNow
    else if diffInSeconds < 3600 then MinutesAgo(diffInSeconds / 60)
    else if diffInSeconds < 86400 then HoursAgo(diffInSeconds / 3600)
    else DaysAgo(diffInSeconds / 86400)
  }

  /** The text shown for an age: "Just now", or the count in decimal and
      the unit, which is never put in the singular. Only `JustNow` shows as
      "Just now"; `RenderParse` reads every text back as its age. */
  function Render(a: Age): (r: string)
    ensures r == "Just now" <==> a.JustNow?
  {
    match a
    case JustNow => "Just now"
    case MinutesAgo(n) => Text.Decimal(n) + " minutes ago"
    case HoursAgo(n) => Text.Decimal(n) + " hours ago"
    case DaysAgo(n) => Text.Decimal(n) + " days ago"
  }

  /** Length of the run of decimal digits that starts `s`. */
  function DigitRun(s: string): (n: nat)
    ensures n <= |s| && Text.AllDigits(s[..n])
    ensures n < |s| ==> !Text.IsDigit(s[n])
  {
    if s == [] || !Text.IsDigit(s[0]) then 0
    else
      var m := DigitRun(s[1..]);
      assert s[..1 + m] == [s[0]] + s[1..][..m];
      1 + m
  }

  /** Reads a relative-age text back: "Just now", or a run of digits without
      a leading zero followed by one of the three unit phrases. */
  function ParseAge(s: string): Option<Age> {
    if s == "Just now" then Some(JustNow)
    else
      var k := DigitRun(s);
      if k == 0 || (k > 1 && s[0] == '0') then None
      else
        var n := Text.ParseDecimal(s[..k]);
        var unit := s[k..];
        if unit == " minutes ago" then Some(MinutesAgo(n))
        else if unit == " hours ago" then Some(HoursAgo(n))
        else if unit == " days ago" then Some(DaysAgo(n))
        else None
  }

  lemma {:induction false} DigitRunAppend(digits: string, rest: string)
    requires Text.AllDigits(digits)
    requires rest != [] && !Text.IsDigit(rest[0])
    ensures DigitRun(digits + rest) == |digits|
  {
    var s := digits + rest;
    if digits == [] {
      assert s == rest;
    } else {
      assert s[0] == digits[0] && s[1..] == digits[1..] + rest;
      DigitRunAppend(digits[1..], rest);
    }
  }

  /** A number followed by a unit phrase reads back as that number and unit. */
  lemma NumberWithUnit(n: nat, unit: string)
    requires unit != [] && unit[0] == ' '
    ensures var s := Text.Decimal(n) + unit;
      s != "Just now" && DigitRun(s) == |Text.Decimal(n)| && s[..DigitRun(s)] == Text.Decimal(n)
      && s[DigitRun(s)..] == unit && s[0] == Text.Decimal(n)[0]
  {
    var d := Text.Decimal(n);
    var s := d + unit;
    DigitRunAppend(d, unit);
    assert s[0] == d[0] && Text.IsDigit(d[0]);
    assert s[..|d|] == d && s[|d|..] == unit;
  }

  /** Every rendered age reads back as the age it came from. */
  lemma RenderParse(a: Age)
    ensures ParseAge(Render(a)) == Some(a)
  {
    match a
    case JustNow =>
    case MinutesAgo(n) => NumberWithUnit(n, " minutes ago");
    case HoursAgo(n) => NumberWithUnit(n, " hours ago");
    case DaysAgo(n) => NumberWithUnit(n, " days ago");
  }

  /** The reader accepts only rendered texts: whatever it reads as an age is
      exactly the text of that age, digits included. */
  lemma ParseAgeCanonical(s: string)
    ensures ParseAge(s).Some? ==> Render(ParseAge(s).value) == s
  {
    if s != "Just now" && ParseAge(s).Some? {
      var k := DigitRun(s);
      var digits := s[..k];
      assert digits[0] == s[0];
      Text.DecimalOfParse(digits);
      assert s == digits + s[k..];
    }
  }

  /** `formatDate` on a difference in whole seconds: the text of the age
      `AgeOf` picks. It is "Just now" exactly below one minute. */
  function FormatDate(diffInSeconds: int): (r: string)
    ensures r == "Just now" <==> diffInSeconds < 60
  {
    Render(AgeOf(diffInSeconds))
  }

  /** The text `formatDate` shows reads back as the unit and the rounded-down
      count that `AgeOf` fixes for the difference, and it is the only text
      that does: the count is written as its plain decimal digits. */
  lemma FormatDateReadsBack(diffInSeconds: int)
    ensures ParseAge(FormatDate(diffInSeconds)) == Some(AgeOf(diffInSeconds))
    ensures forall s :: ParseAge(s) == Some(AgeOf(diffInSeconds)) ==> s == FormatDate(diffInSeconds)
  {
    RenderParse(AgeOf(diffInSeconds));
    forall s | ParseAge(s) == Some(AgeOf(diffInSeconds))
      ensures s == FormatDate(diffInSeconds)
    {
      ParseAgeCanonical(s);
    }
  }

  /** The worked examples: thirty seconds, five minutes, two hours and three
      days ago. */
  lemma FormatDateExamples()
    ensures FormatDate(30) == "Just now"
    ensures FormatDate(5 * 60) == "5 minutes ago"
    ensures FormatDate(2 * 3600) == "2 hours ago"
    ensures FormatDate(3 * 86400) == "3 days ago"
  {
    assert AgeOf(30) == JustNow;
    assert AgeOf(5 * 60) == MinutesAgo(5);
    assert Text.Decimal(5) == "5";
    assert "5" + " minutes ago" == "5 minutes ago";
    assert Render(MinutesAgo(5)) == "5 minutes ago";
    assert AgeOf(2 * 3600) == HoursAgo(2);
    assert Text.Decimal(2) == "2";
    assert "2" + " hours ago" == "2 hours ago";
    assert Render(HoursAgo(2)) == "2 hours ago";
    assert AgeOf(3 * 86400) == DaysAgo(3);
    assert Text.Decimal(3) == "3";
    assert "3" + " days ago" == "3 days ago";
    assert Render(DaysAgo(3)) == "3 days ago";
  }

  /** No singular forms: one of each unit is still written in the plural, and
      a future instant shows as "Just now". */
  lemma FormatDateNoSingular()
    ensures FormatDate(60) == "1 minutes ago"
    ensures FormatDate(3600) == "1 hours ago"
    ensures FormatDate(86400) == "1 days ago"
    ensures FormatDate(-5) == "Just now"
  {
    assert Text.Decimal(1) == "1";
    assert AgeOf(60) == MinutesAgo(1);
    assert "1" + " minutes ago" == "1 minutes ago";
    assert Render(MinutesAgo(1)) == "1 minutes ago";
    assert AgeOf(3600) == HoursAgo(1);
    assert "1" + " hours ago" == "1 hours ago";
    assert Render(HoursAgo(1)) == "1 hours ago";
    assert AgeOf(86400) == DaysAgo(1);
    assert "1" + " days ago" == "1 days ago";
    assert Render(DaysAgo(1)) == "1 days ago";
    assert AgeOf(-5) == JustNow;
  }

  /** The label shown for one piece of the tags string: `#` and the piece
      trimmed. It holds a comma only if the piece does, and has no whitespace
      right after the `#` or at its end. */
  function TagLabel(piece: string): (shown: string)
    ensures |shown| >= 1 && shown[0] == '#'
    ensures shown[1..] == Text.Trim(piece)
    ensures ',' in shown ==> ',' in piece
    ensures |shown| > 1 ==> !Text.IsWhitespace(shown[1]) && !Text.IsWhitespace(shown[|shown| - 1])
  {
    var t := Text.Trim(piece);
    assert ',' !in "#";
    "#" + t
  }

  /** The labels shown for a post's tags: nothing when the tags are absent or
      empty, otherwise one label per comma-separated piece, in order, holding
      `#` and that piece trimmed. No label holds a comma. */
  function TagLabels(tags: Option<string>): (labels: seq<string>)
    ensures tags == None || tags == Some("") ==> labels == []
    ensures tags.Some? && tags.value != "" ==> |labels| == Text.Occurrences(tags.value, ',') + 1
    ensures forall i :: 0 <= i < |labels| ==> |labels[i]| >= 1 && labels[i][0] == '#' && ',' !in labels[i]
    ensures tags.Some? && tags.value != "" ==>
      forall i :: 0 <= i < |labels| ==> labels[i][1..] == Text.Trim(Text.Split(tags.value, ',')[i])
  {
    if tags.None? || tags.value == "" then []
    else
      var parts := Text.Split(tags.value, ',');
      seq(|parts|, i requires 0 <= i < |parts| => TagLabel(parts[i]))
  }
}
