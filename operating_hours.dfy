/**
 * A study spot's operating hours: either the sentinel "-" or a weekday range and a
 * weekend range, each written "HHmm-HHmm". Validation is built from Java's
 * String.split with a limit of 2, String.trim and String.matches, written out here.
 */
module Studyspot {
  import opened Wrappers

  const MESSAGE_CONSTRAINTS: string :=
    "Operating hours are in the format: [HHmm-HHmm, HHmm-HHmm], "
    + "where the first argument represents operating hours in the weekdays, "
    + "while the second argument represents operating hours in the weekends."

  /** The sentinel for a spot without operating hours. */
  const DEFAULT_OPERATING_HOURS: string := "-"

  const TIME_LENGTH: nat := 4

  // ---------------------------------------------------------------------------
  // Java string operations

  /** The index of the first `c` in `s`, or |s| when `s` has none. */
  function IndexOf(s: string, c: char): (k: nat)
    ensures k <= |s|
    ensures c !in s[..k]
    ensures k < |s| ==> s[k] == c
    ensures k == |s| <==> c !in s
  {
    if s == [] then 0
    else if s[0] == c then 0
    else
      var k := 1 + IndexOf(s[1..], c);
      assert s[..k] == [s[0]] + s[1..][..k - 1];
      k
  }

  /**
   * `s.split(sep, 2)` for a one-character separator: the text before the first `sep`
   * and the text after it, or `s` alone when it has no `sep`.
   */
  function Split2(s: string, sep: char): (parts: seq<string>)
    ensures 1 <= |parts| <= 2
    ensures |parts| == 1 <==> sep !in s
    ensures |parts| == 1 ==> parts[0] == s
    ensures |parts| == 2 ==> sep !in parts[0] && parts[0] + [sep] + parts[1] == s
  {
    var k := IndexOf(s, sep);
    if k == |s| then [s]
    else
      assert s == s[..k] + [sep] + s[k + 1..];
      [s[..k], s[k + 1..]]
  }

  /** The characters String.trim removes: every code point up to U+0020. */
  predicate IsSpace(c: char) {
    c <= ' '
  }

  /** The number of leading characters that trim removes. */
  function LeadingSpaces(s: string): (n: nat)
    ensures n <= |s|
    ensures forall i | 0 <= i < n :: IsSpace(s[i])
    ensures n < |s| ==> !IsSpace(s[n])
  {
    if s == [] || !IsSpace(s[0]) then 0 else 1 + LeadingSpaces(s[1..])
  }

  /** The number of trailing characters that trim removes. */
  function TrailingSpaces(s: string): (n: nat)
    ensures n <= |s|
    ensures forall i | |s| - n <= i < |s| :: IsSpace(s[i])
    ensures n < |s| ==> !IsSpace(s[|s| - 1 - n])
  {
    if s == [] || !IsSpace(s[|s| - 1]) then 0 else 1 + TrailingSpaces(s[..|s| - 1])
  }

  /** `s.trim()`: `s` without its leading and trailing spaces. */
  function Trim(s: string): (r: string)
    ensures |r| <= |s|
    ensures r == [] || (!IsSpace(r[0]) && !IsSpace(r[|r| - 1]))
  {
    var i := LeadingSpaces(s);
    if i == |s| then
      assert s[i..i] == [];
      []
    else
      var j := |s| - TrailingSpaces(s);
      assert i < j;
      s[i..j]
  }

  /** What trim returns is a slice of `s` with only spaces cut off on either side. */
  lemma TrimCutsSpaces(s: string)
    ensures exists i, j | 0 <= i <= j <= |s| ::
      && Trim(s) == s[i..j]
      && (forall k | 0 <= k < i :: IsSpace(s[k]))
      && (forall k | j <= k < |s| :: IsSpace(s[k]))
  {
    var i := LeadingSpaces(s);
    if i == |s| {
      assert Trim(s) == s[i..i];
    } else {
      assert Trim(s) == s[i..|s| - TrailingSpaces(s)];
    }
  }

  /** Trim leaves a string that neither starts nor ends with a space as it is. */
  lemma TrimUntouched(s: string)
    requires s == [] || (!IsSpace(s[0]) && !IsSpace(s[|s| - 1]))
    ensures Trim(s) == s
  {
    if s != [] {
      assert LeadingSpaces(s) == 0;
      assert TrailingSpaces(s) == 0;
      assert s[0..|s|] == s;
    }
  }

  /** Trim removes spaces only, so it cannot bring in a character `s` lacks. */
  lemma TrimKeepsAbsent(s: string, c: char)
    requires c !in s
    ensures c !in Trim(s)
  {
    TrimCutsSpaces(s);
    var i, j :| 0 <= i <= j <= |s| && Trim(s) == s[i..j];
    assert forall k | 0 <= k < j - i :: Trim(s)[k] == s[i + k];
  }

  // ---------------------------------------------------------------------------
  // The time pattern ([01]?[0-9]|2[0-3])[0-5][0-9]

  predicate IsDigit(c: char) {
    '0' <= c <= '9'
  }

  /** The hour group `[01]?[0-9]|2[0-3]` matches the whole of `h`. */
  predicate MatchesHourGroup(h: string) {
    || (|h| == 1 && IsDigit(h[0]))
    || (|h| == 2 && (h[0] == '0' || h[0] == '1') && IsDigit(h[1]))
    || (|h| == 2 && h[0] == '2' && '0' <= h[1] <= '3')
  }

  /** `s.matches(TIME_VALIDATION_REGEX)`: the hour group, then `[0-5]`, then `[0-9]`. */
  function MatchesTimeRegex(s: string): (b: bool)
    ensures b ==> 3 <= |s| <= 4 && IsDigit(s[|s| - 1])
  {
    && |s| >= 2
    && MatchesHourGroup(s[..|s| - 2])
    && '0' <= s[|s| - 2] <= '5'
    && IsDigit(s[|s| - 1])
  }

  /** A string the pattern matches has three or four characters, all digits. */
  lemma MatchedTimeIsDigits(s: string)
    requires MatchesTimeRegex(s)
    ensures 3 <= |s| <= 4
    ensures forall i | 0 <= i < |s| :: IsDigit(s[i])
  {
    assert forall i | 0 <= i < |s| - 2 :: s[i] == s[..|s| - 2][i];
  }

  /** The value of a decimal digit. */
  function DigitValue(c: char): (n: nat)
    requires IsDigit(c)
    ensures n <= 9
  {
    c as int - '0' as int
  }

  /** The digit for a value below ten. */
  function Digit(n: nat): (c: char)
    requires n <= 9
    ensures IsDigit(c) && DigitValue(c) == n
  {
    ('0' as int + n) as char
  }

  /** Ten to the power `k`. */
  function Pow10(k: nat): (p: nat)
    ensures p >= 1
  {
    if k == 0 then 1 else 10 * Pow10(k - 1)
  }

  /** `Integer.parseInt(s)` on a non-empty string of decimal digits: below 10 to the length. */
  function ParseDigits(s: string): (n: nat)
    requires |s| > 0
    requires forall i | 0 <= i < |s| :: IsDigit(s[i])
    ensures n < Pow10(|s|)
  {
    if |s| == 1 then DigitValue(s[0])
    else 10 * ParseDigits(s[..|s| - 1]) + DigitValue(s[|s| - 1])
  }

  /** The piece test of isValidOperatingHour: length 4 and matching the time pattern. */
  function IsValidTime(t: string): (b: bool)
    ensures b ==> |t| == 4 && forall i | 0 <= i < 4 :: IsDigit(t[i])
  {
    |t| == TIME_LENGTH && MatchesTimeRegex(t)
  }

  /** The hour written in the first two characters of a four-digit time. */
  function HourOf(t: string): nat
    requires |t| == 4 && forall i | 0 <= i < 4 :: IsDigit(t[i])
  {
    10 * DigitValue(t[0]) + DigitValue(t[1])
  }

  /** The minute written in the last two characters of a four-digit time. */
  function MinuteOf(t: string): nat
    requires |t| == 4 && forall i | 0 <= i < 4 :: IsDigit(t[i])
  {
    10 * DigitValue(t[2]) + DigitValue(t[3])
  }

  /** The "HHmm" text of a time of day. */
  function FormatTime(h: nat, m: nat): (t: string)
    requires h < 24 && m < 60
    ensures |t| == 4
  {
    [Digit(h / 10), Digit(h % 10), Digit(m / 10), Digit(m % 10)]
  }

  /**
   * The accepted pieces are exactly the four-digit times from 0000 to 2359: the hour
   * below 24 and the minute below 60.
   */
  lemma ValidTimeIsClockTime(t: string)
    ensures IsValidTime(t) <==>
      && |t| == 4
      && (forall i | 0 <= i < 4 :: IsDigit(t[i]))
      && HourOf(t) < 24 && MinuteOf(t) < 60
  {
    if |t| == 4 {
      assert t[..2] == [t[0], t[1]];
      if IsValidTime(t) {
        MatchedTimeIsDigits(t);
      }
    }
  }

  /** Every accepted piece is the "HHmm" text of a time of day, and every such text is accepted. */
  lemma ValidTimeIsFormatted(t: string)
    ensures IsValidTime(t) <==> exists h, m | 0 <= h < 24 && 0 <= m < 60 :: t == FormatTime(h, m)
  {
    ValidTimeIsClockTime(t);
    if IsValidTime(t) {
      var h, m := HourOf(t), MinuteOf(t);
      assert t == FormatTime(h, m);
    }
    forall h, m | 0 <= h < 24 && 0 <= m < 60 ensures IsValidTime(FormatTime(h, m)) {
      var u := FormatTime(h, m);
      ValidTimeIsClockTime(u);
      assert HourOf(u) == h && MinuteOf(u) == m;
    }
  }

  // ---------------------------------------------------------------------------
  // Validation

  /** isValidOperatingHour: one range, an opening and a closing time around the first '-'. */
  function IsValidOperatingHour(test: string): (b: bool)
    ensures b ==> '-' in test && |test| >= 2 * TIME_LENGTH + 1
  {
    var parts := Split2(test, '-');
    if |parts| == 1 then false
    else
      var openingHours := Trim(parts[0]);
      var closingHours := Trim(parts[1]);
      && |openingHours| == TIME_LENGTH && MatchesTimeRegex(openingHours)
      && |closingHours| == TIME_LENGTH && MatchesTimeRegex(closingHours)
  }

  /** isValidOperatingHours: the sentinel, or two ranges around the first ','. */
  function IsValidOperatingHours(test: string): (b: bool)
    ensures test == DEFAULT_OPERATING_HOURS ==> b
    ensures b && test != DEFAULT_OPERATING_HOURS ==> ',' in test && |test| >= 4 * TIME_LENGTH + 3
  {
    if test == DEFAULT_OPERATING_HOURS then true
    else
      var parts := Split2(test, ',');
      if |parts| == 1 then false
      else IsValidOperatingHour(Trim(parts[0])) && IsValidOperatingHour(Trim(parts[1]))
  }

  /**
   * isValidTimeInterval, the ordering check that validation does not call: equal
   * times are a 24-hour interval; otherwise the hours decide, and on equal hours the
   * minutes. None stands for the StringIndexOutOfBoundsException that substring(2, 4)
   * throws on a three-character time.
   */
  function IsValidTimeInterval(start: string, end: string): (r: Option<bool>)
    requires MatchesTimeRegex(start) && MatchesTimeRegex(end)
    ensures start == end ==> r == Some(true)
    ensures r.None? ==> start != end && (|start| == 3 || |end| == 3)
    ensures |start| == 4 && |end| == 4 ==> r.Some?
  {
    if start == end then Some(true)
    else
      MatchedTimeIsDigits(start);
      MatchedTimeIsDigits(end);
      var startHours := ParseDigits(start[..2]);
      var endHours := ParseDigits(end[..2]);
      if startHours != endHours then Some(endHours > startHours)
      else if |start| < 4 || |end| < 4 then None
      else Some(ParseDigits(end[2..4]) > ParseDigits(start[2..4]))
  }

  /**
   * On accepted pieces the interval check is the lexicographic order on (hour, minute),
   * with equal times allowed.
   */
  lemma TimeIntervalIsOrder(start: string, end: string)
    requires IsValidTime(start) && IsValidTime(end)
    ensures forall i | 0 <= i < 4 :: IsDigit(start[i]) && IsDigit(end[i])
    ensures IsValidTimeInterval(start, end) == Some(
        || start == end
        || HourOf(end) > HourOf(start)
        || (HourOf(end) == HourOf(start) && MinuteOf(end) > MinuteOf(start)))
  {
    MatchedTimeIsDigits(start);
    MatchedTimeIsDigits(end);
    ParseTwoDigits(start[..2]);
    ParseTwoDigits(end[..2]);
    ParseTwoDigits(start[2..4]);
    ParseTwoDigits(end[2..4]);
    if HourOf(end) == HourOf(start) && MinuteOf(end) == MinuteOf(start) {
      assert start == [start[0], start[1], start[2], start[3]];
      assert end == [end[0], end[1], end[2], end[3]];
      ValidTimeIsClockTime(start);
      assert DigitValue(start[0]) == DigitValue(end[0]) && DigitValue(start[1]) == DigitValue(end[1]);
      assert DigitValue(start[2]) == DigitValue(end[2]) && DigitValue(start[3]) == DigitValue(end[3]);
    }
  }

  /** Integer.parseInt of two digits. */
  lemma ParseTwoDigits(s: string)
    requires |s| == 2 && IsDigit(s[0]) && IsDigit(s[1])
    ensures ParseDigits(s) == 10 * DigitValue(s[0]) + DigitValue(s[1])
  {
    assert ParseDigits(s[..1]) == DigitValue(s[0]);
  }

  // ---------------------------------------------------------------------------
  // The value object

  /** `value` is the text as given; the other two fields are its trimmed halves. */
  datatype OperatingHours = OperatingHours(value: string, weekdaysValue: string, weekendsValue: string)

  /**
   * `new OperatingHours(s)`: rejects invalid text with MESSAGE_CONSTRAINTS; keeps the
   * sentinel as is in all three fields; otherwise splits at the first ',' and trims.
   */
  function NewOperatingHours(operatingHours: string): (r: Result<OperatingHours, string>)
    ensures r.Success? <==> IsValidOperatingHours(operatingHours)
    ensures r.Failure? ==> r.error == MESSAGE_CONSTRAINTS
    ensures r.Success? ==> r.value.value == operatingHours
    ensures r.Success? && operatingHours == DEFAULT_OPERATING_HOURS ==>
      r.value.weekdaysValue == DEFAULT_OPERATING_HOURS && r.value.weekendsValue == DEFAULT_OPERATING_HOURS
    ensures r.Success? && operatingHours != DEFAULT_OPERATING_HOURS ==>
      exists k | 0 <= k < |operatingHours| ::
        && operatingHours[k] == ','
        && ',' !in operatingHours[..k]
        && r.value.weekdaysValue == Trim(operatingHours[..k])
        && r.value.weekendsValue == Trim(operatingHours[k + 1..])
  {
    if !IsValidOperatingHours(operatingHours) then Failure(MESSAGE_CONSTRAINTS)
    else if operatingHours == DEFAULT_OPERATING_HOURS then
      Success(OperatingHours(operatingHours, DEFAULT_OPERATING_HOURS, DEFAULT_OPERATING_HOURS))
    else
      var parts := Split2(operatingHours, ',');
      var k := IndexOf(operatingHours, ',');
      assert |parts| == 2;
      SplitAtFirst(operatingHours, ',', k);
      Success(OperatingHours(operatingHours, Trim(parts[0]), Trim(parts[1])))
  }

  /** emptyOperatingHours(): the sentinel in all three fields, as `new OperatingHours("-")` gives. */
  function EmptyOperatingHours(): (r: OperatingHours)
    ensures NewOperatingHours(DEFAULT_OPERATING_HOURS) == Success(r)
  {
    OperatingHours(DEFAULT_OPERATING_HOURS, DEFAULT_OPERATING_HOURS, DEFAULT_OPERATING_HOURS)
  }

  /** toString: the sentinel as is, otherwise both ranges with their labels. */
  function ToString(oh: OperatingHours): (r: string)
    ensures r == DEFAULT_OPERATING_HOURS <==> oh.value == DEFAULT_OPERATING_HOURS
  {
    if oh.value == DEFAULT_OPERATING_HOURS then DEFAULT_OPERATING_HOURS
    else "Weekdays: " + oh.weekdaysValue + ", Weekends: " + oh.weekendsValue
  }

  /** equals: all three fields agree, which is equality of the value objects. */
  function Equals(a: OperatingHours, b: OperatingHours): (r: bool)
    ensures r <==> a == b
  {
    a.value == b.value && a.weekdaysValue == b.weekdaysValue && a.weekendsValue == b.weekendsValue
  }

  /**
   * Two constructed operating hours are equal exactly when they were built from the
   * same text, so equals agrees with hashCode, which hashes `value` alone.
   */
  lemma EqualsIsSameText(s: string, t: string)
    requires NewOperatingHours(s).Success? && NewOperatingHours(t).Success?
    ensures Equals(NewOperatingHours(s).value, NewOperatingHours(t).value) <==> s == t
  {
  }

  /**
   * toString of constructed operating hours other than the sentinel labels the
   * trimmed text before the first ',' and the trimmed text after it.
   */
  lemma ToStringOfConstructed(s: string, k: nat)
    requires NewOperatingHours(s).Success? && s != DEFAULT_OPERATING_HOURS
    requires k < |s| && s[k] == ',' && ',' !in s[..k]
    ensures ToString(NewOperatingHours(s).value)
      == "Weekdays: " + Trim(s[..k]) + ", Weekends: " + Trim(s[k + 1..])
  {
    SplitAtFirst(s, ',', k);
    ConstructedHalves(s, s[..k], s[k + 1..]);
  }

  // ---------------------------------------------------------------------------
  // What validation accepts and rejects

  /** The sentinel is accepted, fills both halves with "-" and prints as "-". */
  lemma SentinelIsAccepted()
    ensures IsValidOperatingHours(DEFAULT_OPERATING_HOURS)
    ensures NewOperatingHours(DEFAULT_OPERATING_HOURS) == Success(EmptyOperatingHours())
    ensures ToString(EmptyOperatingHours()) == DEFAULT_OPERATING_HOURS
  {
  }

  /** Text other than the sentinel without a ',' is rejected. */
  lemma NoCommaIsRejected(s: string)
    requires s != DEFAULT_OPERATING_HOURS && ',' !in s
    ensures !IsValidOperatingHours(s)
  {
  }

  /** A half, on either side of the first ',', without a '-' makes the text rejected. */
  lemma HalfWithoutDashIsRejected(s: string, k: nat)
    requires s != DEFAULT_OPERATING_HOURS
    requires k < |s| && s[k] == ',' && ',' !in s[..k]
    requires '-' !in s[..k] || '-' !in s[k + 1..]
    ensures !IsValidOperatingHours(s)
  {
    var parts := Split2(s, ',');
    assert |parts[0]| == k by {
      assert IndexOf(s, ',') == k;
    }
    assert parts[0] == s[..k] && parts[1] == s[k + 1..];
    if '-' !in s[..k] {
      TrimKeepsAbsent(s[..k], '-');
    } else {
      TrimKeepsAbsent(s[k + 1..], '-');
    }
  }

  /** Splitting with a limit of 2 cuts at the first separator. */
  lemma SplitAtFirst(s: string, sep: char, k: nat)
    requires k < |s| && s[k] == sep && sep !in s[..k]
    ensures Split2(s, sep) == [s[..k], s[k + 1..]]
  {
    var m := IndexOf(s, sep);
    assert m <= k by {
      assert sep in s[..k + 1] by { assert s[..k + 1][k] == sep; }
    }
    assert m >= k by {
      assert forall i | 0 <= i < k :: s[i] == s[..k][i];
    }
  }

  /** isValidOperatingHour, given the position of the first '-'. */
  lemma RangeAt(r: string, k: nat)
    requires k < |r| && r[k] == '-' && '-' !in r[..k]
    ensures IsValidOperatingHour(r) <==> IsValidTime(Trim(r[..k])) && IsValidTime(Trim(r[k + 1..]))
  {
    SplitAtFirst(r, '-', k);
  }

  /** isValidOperatingHours on text other than the sentinel, given the position of the first ','. */
  lemma HoursAt(s: string, k: nat)
    requires s != DEFAULT_OPERATING_HOURS
    requires k < |s| && s[k] == ',' && ',' !in s[..k]
    ensures IsValidOperatingHours(s) <==>
      IsValidOperatingHour(Trim(s[..k])) && IsValidOperatingHour(Trim(s[k + 1..]))
  {
    SplitAtFirst(s, ',', k);
  }

  /** Trim removes one leading space from text that has no other space at its ends. */
  lemma TrimOneSpace(x: string)
    requires x != [] && !IsSpace(x[0]) && !IsSpace(x[|x| - 1])
    ensures Trim(" " + x) == x
  {
    var t := " " + x;
    assert t[1..] == x;
    assert LeadingSpaces(t[1..]) == 0;
    assert LeadingSpaces(t) == 1;
    assert TrailingSpaces(t) == 0;
  }

  /** One range "HHmm-HHmm" of accepted times passes isValidOperatingHour. */
  lemma RangeIsAccepted(opening: string, closing: string)
    requires IsValidTime(opening) && IsValidTime(closing)
    ensures IsValidOperatingHour(opening + "-" + closing)
  {
    ValidTimeIsClockTime(opening);
    ValidTimeIsClockTime(closing);
    var r := opening + "-" + closing;
    assert r[..4] == opening && r[5..] == closing;
    RangeAt(r, 4);
    TrimUntouched(opening);
    TrimUntouched(closing);
  }

  /** A range of accepted times has no ',' and no space at either end. */
  lemma RangeShape(opening: string, closing: string)
    requires IsValidTime(opening) && IsValidTime(closing)
    ensures var r := opening + "-" + closing;
      |r| == 9 && ',' !in r && !IsSpace(r[0]) && !IsSpace(r[8])
  {
    MatchedTimeIsDigits(opening);
    MatchedTimeIsDigits(closing);
    var r := opening + "-" + closing;
    assert forall i | 0 <= i < 9 :: IsDigit(r[i]) || r[i] == '-' by {
      assert forall i | 0 <= i < 4 :: r[i] == opening[i];
      assert forall i | 5 <= i < 9 :: r[i] == closing[i - 5];
    }
  }

  /** Two ranges joined by ", " split back into the ranges, the second with its space trimmed. */
  lemma JoinedRanges(weekdays: string, weekends: string)
    requires weekdays != [] && !IsSpace(weekdays[0]) && !IsSpace(weekdays[|weekdays| - 1])
    requires weekends != [] && !IsSpace(weekends[0]) && !IsSpace(weekends[|weekends| - 1])
    requires ',' !in weekdays
    ensures var s := weekdays + ", " + weekends;
      && s != DEFAULT_OPERATING_HOURS
      && Split2(s, ',') == [weekdays, " " + weekends]
      && Trim(weekdays) == weekdays
      && Trim(" " + weekends) == weekends
  {
    var s := weekdays + ", " + weekends;
    var k := |weekdays|;
    assert s[..k] == weekdays && s[k + 1..] == " " + weekends;
    SplitAtFirst(s, ',', k);
    TrimUntouched(weekdays);
    TrimOneSpace(weekends);
  }

  /** The documented format "HHmm-HHmm, HHmm-HHmm" of accepted times is accepted. */
  lemma FormatIsAccepted(a: string, b: string, c: string, d: string)
    requires IsValidTime(a) && IsValidTime(b) && IsValidTime(c) && IsValidTime(d)
    ensures IsValidOperatingHours((a + "-" + b) + ", " + (c + "-" + d))
  {
    RangeShape(a, b);
    RangeShape(c, d);
    JoinedRanges(a + "-" + b, c + "-" + d);
    RangeIsAccepted(a, b);
    RangeIsAccepted(c, d);
  }

  /** The constructor's halves are the trimmed parts of the split at the first ','. */
  lemma ConstructedHalves(s: string, before: string, after: string)
    requires IsValidOperatingHours(s) && s != DEFAULT_OPERATING_HOURS
    requires Split2(s, ',') == [before, after]
    ensures NewOperatingHours(s) == Success(OperatingHours(s, Trim(before), Trim(after)))
  {
  }

  /**
   * The constructor keeps the two ranges of the documented format, with no check that
   * a range opens before it closes, and toString labels them.
   */
  lemma FormatIsKept(a: string, b: string, c: string, d: string)
    requires IsValidTime(a) && IsValidTime(b) && IsValidTime(c) && IsValidTime(d)
    ensures var weekdays, weekends := a + "-" + b, c + "-" + d;
      var s := weekdays + ", " + weekends;
      && NewOperatingHours(s) == Success(OperatingHours(s, weekdays, weekends))
      && ToString(NewOperatingHours(s).value) == "Weekdays: " + weekdays + ", Weekends: " + weekends
  {
    FormatIsAccepted(a, b, c, d);
    var weekdays, weekends := a + "-" + b, c + "-" + d;
    RangeShape(a, b);
    RangeShape(c, d);
    JoinedRanges(weekdays, weekends);
    ConstructedHalves(weekdays + ", " + weekends, weekdays, " " + weekends);
  }

  /** The documented format, read by position: four accepted times at the places the format gives them. */
  lemma FormatByPosition(s: string)
    requires |s| == 20 && s[4] == '-' && s[9] == ',' && s[10] == ' ' && s[15] == '-'
    requires IsValidTime(s[..4]) && IsValidTime(s[5..9]) && IsValidTime(s[11..15]) && IsValidTime(s[16..])
    ensures IsValidOperatingHours(s)
  {
    var a, b, c, d := s[..4], s[5..9], s[11..15], s[16..];
    assert s == (a + "-" + b) + ", " + (c + "-" + d);
    FormatIsAccepted(a, b, c, d);
  }

  /** The well-formed example of the parser tests is accepted. */
  lemma ExampleIsAccepted()
    ensures IsValidOperatingHours("0900-2200, 0900-1800")
  {
    var s := "0900-2200, 0900-1800";
    TimeLiteral(s[..4]);
    TimeLiteral(s[5..9]);
    TimeLiteral(s[11..15]);
    TimeLiteral(s[16..]);
    FormatByPosition(s);
  }

  /** A range that closes before it opens is accepted, although the interval check would refuse it. */
  lemma UnorderedRangeIsAccepted()
    ensures IsValidOperatingHours("2200-0900, 0900-1800")
    ensures IsValidTimeInterval("2200", "0900") == Some(false)
  {
    var s := "2200-0900, 0900-1800";
    TimeLiteral(s[..4]);
    TimeLiteral(s[5..9]);
    TimeLiteral(s[11..15]);
    TimeLiteral(s[16..]);
    FormatByPosition(s);
    UnorderedIntervalIsRefused();
  }

  /** The interval check refuses the range 2200-0900. */
  lemma UnorderedIntervalIsRefused()
    ensures IsValidTimeInterval("2200", "0900") == Some(false)
  {
    TimeLiteral("2200");
    TimeLiteral("0900");
    TimeIntervalIsOrder("2200", "0900");
  }

  /** The pattern test on a four-character literal. */
  lemma TimeLiteral(t: string)
    requires |t| == 4 && IsDigit(t[0]) && IsDigit(t[1]) && IsDigit(t[2]) && IsDigit(t[3])
    requires HourOf(t) < 24 && MinuteOf(t) < 60
    ensures IsValidTime(t)
  {
    ValidTimeIsClockTime(t);
  }

  /** The malformed example of the parser tests, with one- and two-digit times, is rejected. */
  lemma ShortTimesAreRejected()
    ensures !IsValidOperatingHours("9-10, 9-6")
  {
    var s := "9-10, 9-6";
    assert s[..4] == "9-10" && s[5..] == " 9-6";
    HoursAt(s, 4);
    TrimUntouched("9-10");
    ShortRangeIsRejected();
  }

  /** Its weekday range fails on the one-digit opening time. */
  lemma ShortRangeIsRejected()
    ensures !IsValidOperatingHour("9-10")
  {
    var r := "9-10";
    assert r[..1] == "9";
    RangeAt(r, 1);
    TrimUntouched("9");
  }
}
