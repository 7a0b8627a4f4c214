/**
 * The scan timestamp: the local date and time fields of a JavaScript Date,
 * rendered as "DD/MM/YYYY HH:MM:SS", and the reading that undoes it.
 */
module Timestamps {
  import opened Text

  datatype Option<T> = None | Some(value: T)

  /**
   * The fields the formatter reads from a Date: getDate(), getMonth() (zero-based),
   * getFullYear(), getHours(), getMinutes() and getSeconds().
   */
  datatype DateTime = DateTime(day: nat, month0: nat, year: int, hours: nat, minutes: nat, seconds: nat)
  {
    /** The ranges the Date getters return. */
    predicate Valid()
    {
      1 <= day <= 31 && month0 <= 11 && hours <= 23 && minutes <= 59 && seconds <= 59
    }
  }

  /** The template literal `${day}/${month}/${year} ${hours}:${minutes}:${seconds}`. */
  function Template(day: string, month: string, year: string, hours: string, minutes: string, seconds: string): string
  {
    day + "/" + month + "/" + year + " " + hours + ":" + minutes + ":" + seconds
  }

  /** formatTimestamp: every field but the year padded to two digits, the month shifted to one-based. */
  function FormatTimestamp(t: DateTime): string
  {
    Template(Pad2(t.day), Pad2(t.month0 + 1), IntToString(t.year), Pad2(t.hours), Pad2(t.minutes), Pad2(t.seconds))
  }

  /** Where each piece of the template lands when every field but the year has two characters. */
  lemma TemplateLayout(day: string, month: string, year: string, hours: string, minutes: string, seconds: string)
    requires |day| == |month| == |hours| == |minutes| == |seconds| == 2
    ensures var s := Template(day, month, year, hours, minutes, seconds); var n := |s|;
            n == 15 + |year|
            && s[0..2] == day && s[2] == '/' && s[3..5] == month && s[5] == '/'
            && s[6..n - 9] == year && s[n - 9] == ' '
            && s[n - 8..n - 6] == hours && s[n - 6] == ':' && s[n - 5..n - 3] == minutes && s[n - 3] == ':'
            && s[n - 2..] == seconds
  {
    var s := Template(day, month, year, hours, minutes, seconds);
    var head := [day[0], day[1], '/', month[0], month[1], '/'];
    var tail := [' ', hours[0], hours[1], ':', minutes[0], minutes[1], ':', seconds[0], seconds[1]];
    assert day == day[0..2] && month == month[0..2];
    assert hours == hours[0..2] && minutes == minutes[0..2] && seconds == seconds[0..2];
    assert s == head + year + tail;
  }

  /** s holds two digits whose value is n. */
  predicate TwoDigits(s: string, n: nat)
  {
    |s| == 2 && AllDigits(s) && ParseDigits(s) == n
  }

  /**
   * For any year, the text is DD/MM/<year> HH:MM:SS: two-digit day and month,
   * the month one-based, the year as String(year), two-digit hours, minutes
   * and seconds, with the separators at fixed distances from either end.
   */
  lemma FormatTimestampLayout(t: DateTime)
    requires t.Valid()
    ensures var s := FormatTimestamp(t); var n := |s|;
            n == 15 + |IntToString(t.year)|
            && s[2] == '/' && s[5] == '/' && s[n - 9] == ' ' && s[n - 6] == ':' && s[n - 3] == ':'
            && TwoDigits(s[0..2], t.day) && TwoDigits(s[3..5], t.month0 + 1)
            && s[6..n - 9] == IntToString(t.year)
            && TwoDigits(s[n - 8..n - 6], t.hours) && TwoDigits(s[n - 5..n - 3], t.minutes)
            && TwoDigits(s[n - 2..], t.seconds)
  {
    Pad2Digits(t.day);
    Pad2Digits(t.month0 + 1);
    Pad2Digits(t.hours);
    Pad2Digits(t.minutes);
    Pad2Digits(t.seconds);
    TemplateLayout(Pad2(t.day), Pad2(t.month0 + 1), IntToString(t.year), Pad2(t.hours), Pad2(t.minutes), Pad2(t.seconds));
  }

  /** The month is printed one-based: month0 0..11 appears as "01".."12". */
  lemma MonthIsOneBased(t: DateTime)
    requires t.Valid()
    ensures var m := FormatTimestamp(t)[3..5];
            |m| == 2 && AllDigits(m) && ParseDigits(m) == t.month0 + 1 && 1 <= ParseDigits(m) <= 12
  {
    FormatTimestampLayout(t);
  }

  /** A four-digit year is rendered with exactly four digits. */
  lemma FourDigitYear(year: int)
    requires 1000 <= year <= 9999
    ensures |IntToString(year)| == 4 && AllDigits(IntToString(year))
    ensures ParseDigits(IntToString(year)) == year
  {
    NatToStringLength(year, 4);
    NatToStringLength(year, 3);
    ParseNatToString(year);
  }

  /** The positions of the fixed characters of "DD/MM/YYYY HH:MM:SS". */
  predicate IsSeparatorPosition(i: int)
  {
    i == 2 || i == 5 || i == 10 || i == 13 || i == 16
  }

  /**
   * s has the shape "DD/MM/YYYY HH:MM:SS": 19 characters, '/', '/', ' ', ':'
   * and ':' at positions 2, 5, 10, 13 and 16, a decimal digit everywhere else.
   */
  predicate TimestampShaped(s: string)
  {
    |s| == 19
    && s[2] == '/' && s[5] == '/' && s[10] == ' ' && s[13] == ':' && s[16] == ':'
    && forall i :: 0 <= i < 19 && !IsSeparatorPosition(i) ==> IsDigit(s[i])
  }

  /** The template filled with digit groups of the lengths 2, 2, 4, 2, 2, 2 has the timestamp shape. */
  lemma TemplateShape(day: string, month: string, year: string, hours: string, minutes: string, seconds: string)
    requires |day| == |month| == |hours| == |minutes| == |seconds| == 2 && |year| == 4
    requires AllDigits(day) && AllDigits(month) && AllDigits(year)
    requires AllDigits(hours) && AllDigits(minutes) && AllDigits(seconds)
    ensures TimestampShaped(Template(day, month, year, hours, minutes, seconds))
  {
    TemplateLayout(day, month, year, hours, minutes, seconds);
    var s := Template(day, month, year, hours, minutes, seconds);
    forall i | 0 <= i < 19 && !IsSeparatorPosition(i) ensures IsDigit(s[i]) {
      if i < 2 { assert s[i] == day[i]; }
      else if i < 5 { assert s[i] == month[i - 3]; }
      else if i < 10 { assert s[i] == year[i - 6]; }
      else if i < 13 { assert s[i] == hours[i - 11]; }
      else if i < 16 { assert s[i] == minutes[i - 14]; }
      else { assert s[i] == s[17..][i - 17] == seconds[i - 17]; }
    }
  }

  /** With a four-digit year the formatted text has the shape "DD/MM/YYYY HH:MM:SS". */
  lemma FormatTimestampShape(t: DateTime)
    requires t.Valid() && 1000 <= t.year <= 9999
    ensures TimestampShaped(FormatTimestamp(t))
  {
    Pad2Digits(t.day);
    Pad2Digits(t.month0 + 1);
    Pad2Digits(t.hours);
    Pad2Digits(t.minutes);
    Pad2Digits(t.seconds);
    FourDigitYear(t.year);
    TemplateShape(Pad2(t.day), Pad2(t.month0 + 1), IntToString(t.year), Pad2(t.hours), Pad2(t.minutes), Pad2(t.seconds));
  }

  /**
   * The fields read from the six digit groups of a timestamp; None when a
   * group holds something other than digits or the month reads as 00.
   */
  function ParseFields(day: string, month: string, year: string, hours: string, minutes: string, seconds: string): Option<DateTime>
  {
    if AllDigits(day) && AllDigits(month) && AllDigits(year)
       && AllDigits(hours) && AllDigits(minutes) && AllDigits(seconds)
       && ParseDigits(month) >= 1
    then
      Some(DateTime(ParseDigits(day), ParseDigits(month) - 1, ParseDigits(year),
                    ParseDigits(hours), ParseDigits(minutes), ParseDigits(seconds)))
    else
      None
  }

  /**
   * Reads a "DD/MM/YYYY HH:MM:SS" text back into its fields; None when the
   * text does not have that shape or the month reads as 00.
   */
  function ParseTimestamp(s: string): Option<DateTime>
  {
    if |s| == 19 && s[2] == '/' && s[5] == '/' && s[10] == ' ' && s[13] == ':' && s[16] == ':' then
      ParseFields(s[0..2], s[3..5], s[6..10], s[11..13], s[14..16], s[17..19])
    else
      None
  }

  /** Reading the filled template reads its digit groups. */
  lemma ParseTemplate(day: string, month: string, year: string, hours: string, minutes: string, seconds: string)
    requires |day| == |month| == |hours| == |minutes| == |seconds| == 2 && |year| == 4
    ensures ParseTimestamp(Template(day, month, year, hours, minutes, seconds))
            == ParseFields(day, month, year, hours, minutes, seconds)
  {
    TemplateLayout(day, month, year, hours, minutes, seconds);
    var s := Template(day, month, year, hours, minutes, seconds);
    assert s[17..19] == s[17..];
  }

  /** The digit groups of a formatted time read as that time. */
  lemma ParseFieldsOfFormat(t: DateTime)
    requires t.Valid() && 1000 <= t.year <= 9999
    ensures ParseFields(Pad2(t.day), Pad2(t.month0 + 1), IntToString(t.year), Pad2(t.hours), Pad2(t.minutes), Pad2(t.seconds))
            == Some(t)
  {
    Pad2Digits(t.day);
    Pad2Digits(t.month0 + 1);
    Pad2Digits(t.hours);
    Pad2Digits(t.minutes);
    Pad2Digits(t.seconds);
    FourDigitYear(t.year);
  }

  /** Reading a formatted timestamp gives back the fields it was made from. */
  lemma ParseFormatTimestamp(t: DateTime)
    requires t.Valid() && 1000 <= t.year <= 9999
    ensures ParseTimestamp(FormatTimestamp(t)) == Some(t)
  {
    Pad2Digits(t.day);
    Pad2Digits(t.month0 + 1);
    Pad2Digits(t.hours);
    Pad2Digits(t.minutes);
    Pad2Digits(t.seconds);
    FourDigitYear(t.year);
    ParseTemplate(Pad2(t.day), Pad2(t.month0 + 1), IntToString(t.year), Pad2(t.hours), Pad2(t.minutes), Pad2(t.seconds));
    ParseFieldsOfFormat(t);
  }

  /** A value of k digits is below 10^k. */
  lemma {:induction false} ParseDigitsBound(s: string)
    requires AllDigits(s)
    ensures ParseDigits(s) < Pow10(|s|)
    decreases |s|
  {
    if s != [] {
      var init := s[..|s| - 1];
      ParseDigitsBound(init);
      assert ParseDigits(s) <= 10 * (Pow10(|init|) - 1) + 9;
    }
  }

  /** Four digits worth at least 1000 do not start with '0'. */
  lemma NoLeadingZero(y: string)
    requires |y| == 4 && AllDigits(y) && ParseDigits(y) >= 1000
    ensures y[0] != '0'
  {
    assert Pow10(3) == 1000;
    if y[0] == '0' {
      assert y == ['0'] + y[1..];
      ParseLeadingZero(y[1..]);
      ParseDigitsBound(y[1..]);
    }
  }

  /** A 19-character text with the separators in place is the template filled with its own digit groups. */
  lemma TemplateOfSlices(s: string)
    requires |s| == 19 && s[2] == '/' && s[5] == '/' && s[10] == ' ' && s[13] == ':' && s[16] == ':'
    ensures Template(s[0..2], s[3..5], s[6..10], s[11..13], s[14..16], s[17..19]) == s
  {
    var f := Template(s[0..2], s[3..5], s[6..10], s[11..13], s[14..16], s[17..19]);
    TemplateLayout(s[0..2], s[3..5], s[6..10], s[11..13], s[14..16], s[17..19]);
    assert |f| == 19;
    forall i | 0 <= i < 19 ensures f[i] == s[i] {
      if i < 2 { assert f[i] == f[0..2][i]; }
      else if 2 < i < 5 { assert f[i] == f[3..5][i - 3]; }
      else if 5 < i < 10 { assert f[i] == f[6..10][i - 6]; }
      else if 10 < i < 13 { assert f[i] == f[11..13][i - 11]; }
      else if 13 < i < 16 { assert f[i] == f[14..16][i - 14]; }
      else if 16 < i { assert f[i] == f[17..][i - 17]; }
    }
  }

  /** Four digits worth at least 1000 are the decimal form of their value. */
  lemma YearGroup(year: string)
    requires |year| == 4 && AllDigits(year) && ParseDigits(year) >= 1000
    ensures IntToString(ParseDigits(year)) == year
  {
    NoLeadingZero(year);
    NatToStringParse(year);
  }

  /** A time whose padded fields are the given groups formats as the template filled with them. */
  lemma FormatOfGroups(t: DateTime, day: string, month: string, year: string, hours: string, minutes: string, seconds: string)
    requires Pad2(t.day) == day && Pad2(t.month0 + 1) == month && IntToString(t.year) == year
    requires Pad2(t.hours) == hours && Pad2(t.minutes) == minutes && Pad2(t.seconds) == seconds
    ensures FormatTimestamp(t) == Template(day, month, year, hours, minutes, seconds)
  {
  }

  /** Digit groups that read as a time with a year of at least 1000 are what formatting that time produces. */
  lemma FormatParsedFields(day: string, month: string, year: string, hours: string, minutes: string, seconds: string)
    requires |day| == |month| == |hours| == |minutes| == |seconds| == 2 && |year| == 4
    requires ParseFields(day, month, year, hours, minutes, seconds).Some?
    requires ParseFields(day, month, year, hours, minutes, seconds).value.year >= 1000
    ensures FormatTimestamp(ParseFields(day, month, year, hours, minutes, seconds).value)
            == Template(day, month, year, hours, minutes, seconds)
  {
    var t := ParseFields(day, month, year, hours, minutes, seconds).value;
    assert t.day == ParseDigits(day) && t.month0 + 1 == ParseDigits(month) && t.year == ParseDigits(year);
    assert t.hours == ParseDigits(hours) && t.minutes == ParseDigits(minutes) && t.seconds == ParseDigits(seconds);
    Pad2Parse(day);
    Pad2Parse(month);
    Pad2Parse(hours);
    Pad2Parse(minutes);
    Pad2Parse(seconds);
    YearGroup(year);
    FormatOfGroups(t, day, month, year, hours, minutes, seconds);
  }

  /**
   * Every text that reads as a time with a year of at least 1000 is the
   * formatted form of what it reads as: no two texts read as the same time.
   */
  lemma FormatParseTimestamp(s: string)
    requires ParseTimestamp(s).Some? && ParseTimestamp(s).value.year >= 1000
    ensures FormatTimestamp(ParseTimestamp(s).value) == s
  {
    FormatParsedFields(s[0..2], s[3..5], s[6..10], s[11..13], s[14..16], s[17..19]);
    TemplateOfSlices(s);
  }
}
