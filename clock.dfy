/** Calendar values read from the wall clock, and the three text forms the
    application writes them in: `strftime("%Y%m%d")` for the dossier number,
    `str(date)` for the collection and reception dates, and `str(datetime)`
    for every creation and update timestamp. The clock itself is not modelled:
    each reading is a parameter of the operation that makes it. */
module Clock {
  import opened Text

  // The ranges of Python's `datetime` (MINYEAR = 1, MAXYEAR = 9999).
  type Year = y: int | 1 <= y <= 9999 witness 1
  type Month = m: int | 1 <= m <= 12 witness 1
  type Day = d: int | 1 <= d <= 31 witness 1
  type Hour = h: int | 0 <= h < 24
  type Minute = m: int | 0 <= m < 60
  type Second = s: int | 0 <= s < 60
  type Microsecond = u: int | 0 <= u < 1000000

  datatype Date = Date(year: Year, month: Month, day: Day)

  datatype Timestamp = Timestamp(date: Date, hour: Hour, minute: Minute, second: Second, micro: Microsecond)

  /** `date.strftime("%Y%m%d")`, e.g. "20240101". */
  function CompactDate(d: Date): string {
    PadNumber(d.year, 4) + PadNumber(d.month, 2) + PadNumber(d.day, 2)
  }

  /** `str(date)`, e.g. "2024-01-01". */
  function IsoDate(d: Date): string {
    PadNumber(d.year, 4) + "-" + PadNumber(d.month, 2) + "-" + PadNumber(d.day, 2)
  }

  /** `str(datetime)`: "YYYY-MM-DD HH:MM:SS", followed by ".ffffff" unless the
      microseconds are zero. */
  function TimestampText(t: Timestamp): string {
    IsoDate(t.date) + TimeOfDayText(t)
  }

  /** The part of `str(datetime)` after the date: " HH:MM:SS[.ffffff]". */
  function TimeOfDayText(t: Timestamp): string {
    " " + PadNumber(t.hour, 2) + ":" + PadNumber(t.minute, 2) + ":" + PadNumber(t.second, 2)
    + (if t.micro == 0 then "" else "." + PadNumber(t.micro, 6))
  }

  lemma DateFieldsPadExactly(d: Date)
    ensures |PadNumber(d.year, 4)| == 4 && IsDigits(PadNumber(d.year, 4))
    ensures |PadNumber(d.month, 2)| == 2 && IsDigits(PadNumber(d.month, 2))
    ensures |PadNumber(d.day, 2)| == 2 && IsDigits(PadNumber(d.day, 2))
  {
    PadNumberExact(d.year, 4);
    PadNumberExact(d.month, 2);
    PadNumberExact(d.day, 2);
  }

  /** The compact date is eight digits that read back as year, month and day. */
  lemma CompactDateReadsBack(d: Date)
    ensures var c := CompactDate(d);
      |c| == 8 && IsDigits(c) &&
      ParseDigits(c[..4]) == d.year && ParseDigits(c[4..6]) == d.month && ParseDigits(c[6..]) == d.day
  {
    DateFieldsPadExactly(d);
    PadNumberReadsBack(d.year, 4);
    PadNumberReadsBack(d.month, 2);
    PadNumberReadsBack(d.day, 2);
    var c := CompactDate(d);
    assert c[..4] == PadNumber(d.year, 4);
    assert c[4..6] == PadNumber(d.month, 2);
    assert c[6..] == PadNumber(d.day, 2);
  }

  /** Different days give different compact dates. */
  lemma CompactDateInjective(d: Date, e: Date)
    requires CompactDate(d) == CompactDate(e)
    ensures d == e
  {
    CompactDateReadsBack(d);
    CompactDateReadsBack(e);
  }

  /** `str(date)` is ten characters with dashes at indexes 4 and 7. */
  lemma IsoDateShape(d: Date)
    ensures var s := IsoDate(d); |s| == 10 && s[4] == '-' && s[7] == '-'
  {
    DateFieldsPadExactly(d);
  }

  /** `str(datetime)` starts with the dashed date and a space: a '-' at index 4. */
  lemma TimestampTextShape(t: Timestamp)
    ensures var s := TimestampText(t);
      |s| > 10 && s[..10] == IsoDate(t.date) && s[4] == '-' && s[7] == '-' && s[10] == ' '
  {
    IsoDateShape(t.date);
    var s := TimestampText(t);
    assert TimeOfDayText(t)[0] == ' ';
    assert s[..10] == IsoDate(t.date);
  }

  /** No `str(datetime)` text starts with a compact "YYYYMMDD" date: index 4 is
      a digit in one and a '-' in the other. */
  lemma CompactDateNeverPrefixesTimestamp(d: Date, t: Timestamp)
    ensures !(CompactDate(d) <= TimestampText(t))
  {
    DateFieldsPadExactly(d);
    TimestampTextShape(t);
    assert CompactDate(d)[4] == PadNumber(d.month, 2)[0];
  }
}
