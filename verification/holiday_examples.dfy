/** The unit tests of `src/calender/holiday.rs`, restated as facts about the
    model. */
module HolidayExamples {
  import opened Results
  import opened Strings
  import opened Dates
  import opened IsoDate
  import opened Holiday
  import opened Filtering

  /** The sample lines: a separator followed by three holidays of 1970. */
  const TestData: seq<string> := ["---", "1970-01-01: 元日", "1970-01-15: 成人の日", "1970-02-11: 建国記念の日"]

  const NewYear: CalendarDate := Date(1970, 1, 1)
  const AdultsDay: CalendarDate := Date(1970, 1, 15)
  const FoundationDay: CalendarDate := Date(1970, 2, 11)

  const TestHolidays: Holidays := Holidays([NewYear, AdultsDay, FoundationDay])

  /** A separator line holds no date. */
  lemma SeparatorHasNoDate()
    ensures ExtractDate("---").Err?
  {
    NoLeadingCharNoOccurrence("---", ": ");
    ExtractDateWholeLine("---");
  }

  lemma ExtractDateExamples()
    ensures ExtractDate("1970-01-01: 元日") == Ok(NewYear)
    ensures ExtractDate("---").Err?
  {
    assert Format(NewYear) == "1970-01-01";
    FormattedLineAccepted("1970-01-01: 元日", NewYear);
    SeparatorHasNoDate();
  }

  lemma SampleFormats()
    ensures Format(NewYear) == "1970-01-01"
    ensures Format(AdultsDay) == "1970-01-15"
    ensures Format(FoundationDay) == "1970-02-11"
  {
    assert Format(NewYear) == "1970-01-01";
    assert Format(AdultsDay) == "1970-01-15";
  }

  lemma NewYearLine()
    ensures ExtractDate(TestData[1]) == Ok(NewYear)
  {
    SampleFormats();
    DescribedDateLine(NewYear, "元日");
    assert TestData[1] == "1970-01-01" + ": " + "元日";
  }

  lemma AdultsDayLine()
    ensures ExtractDate(TestData[2]) == Ok(AdultsDay)
  {
    SampleFormats();
    DescribedDateLine(AdultsDay, "成人の日");
    assert TestData[2] == "1970-01-15" + ": " + "成人の日";
  }

  lemma FoundationDayLine()
    ensures ExtractDate(TestData[3]) == Ok(FoundationDay)
  {
    SampleFormats();
    DescribedDateLine(FoundationDay, "建国記念の日");
    assert TestData[3] == "1970-02-11" + ": " + "建国記念の日";
  }

  /** A line without a date followed by three lines with one. */
  lemma FourLines(l0: string, l1: string, l2: string, l3: string,
                  d1: CalendarDate, d2: CalendarDate, d3: CalendarDate)
    requires ExtractDate(l0).Err?
    requires ExtractDate(l1) == Ok(d1) && ExtractDate(l2) == Ok(d2) && ExtractDate(l3) == Ok(d3)
    ensures DatesOf([l0, l1, l2, l3]) == [d1, d2, d3]
  {
    FilterMapOne(l0, LineDate);
    FilterMapOne(l1, LineDate);
    FilterMapOne(l2, LineDate);
    FilterMapOne(l3, LineDate);
    DatesOfAppend([l0], [l1]);
    DatesOfAppend([l0, l1], [l2]);
    DatesOfAppend([l0, l1, l2], [l3]);
    assert [l0] + [l1] == [l0, l1];
    assert [l0, l1] + [l2] == [l0, l1, l2];
    assert [l0, l1, l2] + [l3] == [l0, l1, l2, l3];
  }

  lemma FromStrListExample()
    ensures DatesOf(TestData) == TestHolidays.holidayList
  {
    SeparatorHasNoDate();
    NewYearLine();
    AdultsDayLine();
    FoundationDayLine();
    FourLines(TestData[0], TestData[1], TestData[2], TestData[3], NewYear, AdultsDay, FoundationDay);
    assert [TestData[0], TestData[1], TestData[2], TestData[3]] == TestData;
  }

  lemma WeekendExamples()
    ensures IsWeekend(Date(2021, 2, 20))
    ensures IsWeekend(Date(2021, 2, 21))
    ensures !IsWeekend(Date(2021, 2, 23))
  {
    assert YearStart(2021) == 18628;
  }

  /** One date of each weekday, Monday 2021-02-15 to Sunday 2021-02-21. */
  lemma WeekdayExamples()
    ensures WeekdayOf(Date(2021, 2, 15)) == Mon
    ensures WeekdayOf(Date(2021, 2, 16)) == Tue
    ensures WeekdayOf(Date(2021, 2, 17)) == Wed
    ensures WeekdayOf(Date(2021, 2, 18)) == Thu
    ensures WeekdayOf(Date(2021, 2, 19)) == Fri
    ensures WeekdayOf(Date(2021, 2, 20)) == Sat
    ensures WeekdayOf(Date(2021, 2, 21)) == Sun
  {
    assert YearStart(2021) == 18628;
    assert DaysBeforeMonth(2021, 2) == 31;
  }

  lemma ContainExamples()
    ensures Contain(TestHolidays, NewYear)
    ensures !Contain(TestHolidays, Date(1970, 1, 2))
  {
  }

  lemma IsHolidayExamples()
    ensures IsHoliday(NewYear, TestHolidays)
    ensures !IsHoliday(Date(1970, 1, 2), TestHolidays)
    ensures IsHoliday(Date(1970, 1, 3), TestHolidays)
    ensures IsHoliday(Date(1970, 1, 4), TestHolidays)
  {
    SecondOfJanuaryIsFriday();
    FirstWeekendOf1970();
  }

  /** 1970-01-02, the day after the Thursday 1970-01-01, is a Friday. */
  lemma SecondOfJanuaryIsFriday()
    ensures WeekdayOf(Date(1970, 1, 2)) == Fri
    ensures !IsWeekend(Date(1970, 1, 2))
  {
    EpochIsThursday();
    NextDayAdvancesWeekday(Epoch);
    assert NextDay(Epoch) == Date(1970, 1, 2);
  }

  /** 1970-01-03 and 1970-01-04 are the first weekend of 1970. */
  lemma FirstWeekendOf1970()
    ensures IsWeekend(Date(1970, 1, 3))
    ensures IsWeekend(Date(1970, 1, 4))
  {
    assert DaysFromEpoch(Date(1970, 1, 3)) == 2;
    assert DaysFromEpoch(Date(1970, 1, 4)) == 3;
  }

  /** A holiday file made of the sample lines: loading it and asking about
      the first four days of 1970. */
  lemma SampleFileExample()
    ensures var loaded := Holidays(DatesOf(Lines(Join(TestData, "\n"))));
            && IsHoliday(NewYear, loaded)
            && !IsHoliday(Date(1970, 1, 2), loaded)
            && IsHoliday(Date(1970, 1, 3), loaded)
            && IsHoliday(Date(1970, 1, 4), loaded)
  {
    assert forall k :: 0 <= k < |TestData| ==> '\n' !in TestData[k];
    LinesOfJoinedLines(TestData);
    FromStrListExample();
    IsHolidayExamples();
  }

  /** February 29th of the leap year 2020 is a date. */
  lemma LeapDay2020()
    ensures ParseDate("2020-02-29") == Ok(Date(2020, 2, 29))
  {
    assert Padded(2020, 4) == "2020";
    LeapDayParses("2020-02-29", 2020);
  }

  /** February 29th of the century leap year 2000 is a date. */
  lemma LeapDay2000()
    ensures ParseDate("2000-02-29") == Ok(Date(2000, 2, 29))
  {
    assert Padded(2000, 4) == "2000";
    LeapDayParses("2000-02-29", 2000);
  }

  /** 2021 is not a leap year: no February 29th. */
  lemma NoLeapDay2021()
    ensures ParseDate("2021-02-29").Err?
  {
    assert Padded(2021, 4) == "2021";
    LeapDayRejected("2021-02-29", 2021);
  }

  /** The century year 1900 is not a leap year: no February 29th. */
  lemma NoLeapDay1900()
    ensures ParseDate("1900-02-29").Err?
  {
    assert Padded(1900, 4) == "1900";
    LeapDayRejected("1900-02-29", 1900);
  }

  lemma LeapDayParses(s: string, y: int)
    requires 0 <= y <= 9999 && IsLeapYear(y)
    requires s == Padded(y, 4) + "-02-29"
    ensures ParseDate(s) == Ok(Date(y, 2, 29))
  {
    var d: CalendarDate := Date(y, 2, 29);
    assert Format(d) == s;
    ParseFormat(d);
  }

  lemma LeapDayRejected(s: string, y: int)
    requires 0 <= y <= 9999 && !IsLeapYear(y)
    requires s == Padded(y, 4) + "-02-29"
    ensures ParseDate(s).Err?
  {
    assert s[..4] == Padded(y, 4);
    NumberOfPadded(y, 4);
    assert s[5..7] == "02" && s[8..] == "29";
    assert Number("02") == 2 && Number("29") == 29;
    assert !Valid(Date(y, 2, 29));
  }
}
