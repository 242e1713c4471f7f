/** The holiday list and the day-off decision of `src/calender/holiday.rs`:
    a tolerant line-by-line loader of `YYYY-MM-DD: description` lines, a
    membership test, a weekend test and their combination. */
module Holiday {
  import opened Results
  import opened Strings
  import opened Dates
  import opened IsoDate
  import opened Filtering

  /** Why the holiday file could not be read; supplied by the caller. */
  datatype IoError = NotFound | PermissionDenied | InvalidData | Other

  /** The loaded holiday dates, in file order, duplicates allowed. */
  datatype Holidays = Holidays(holidayList: seq<CalendarDate>)

  /** The date at the head of a line: the text before the first `": "` (the
      whole line when there is none) read as `YYYY-MM-DD`. */
  function ExtractDate(line: string): (r: Result<CalendarDate, ParseError>)
    ensures r.Ok? ==> Valid(r.value) && FourDigitYear(r.value)
  {
    ParseDate(Split(line, ": ")[0])
  }

  /** A line's date as an optional value: `Some` exactly when the line parses. */
  function LineDate(line: string): (r: Option<CalendarDate>)
    ensures r.Some? <==> ExtractDate(line).Ok?
  {
    match ExtractDate(line)
    case Ok(d) => Some(d)
    case Err(_) => None
  }

  /** The dates of the lines that hold one, in order; the other lines are
      dropped. */
  function DatesOf(lines: seq<string>): seq<CalendarDate> {
    FilterMap(lines, LineDate)
  }

  /** Builds the holiday list from lines; never fails. */
  method FromStrList(strList: seq<string>) returns (r: Result<Holidays, IoError>)
    ensures r.Ok?
    ensures r.value.holidayList == DatesOf(strList)
    ensures |r.value.holidayList| <= |strList|
  {
    var list: seq<CalendarDate> := [];
    var i := 0;
    while i < |strList|
      invariant 0 <= i <= |strList|
      invariant list == DatesOf(strList[..i])
    {
      var line := strList[i];
      var dateResult := ExtractDate(line);
      assert strList[..i + 1][..i] == strList[..i];
      assert DatesOf(strList[..i + 1]) == list + Kept(LineDate(line));
      if dateResult.Ok? {
        list := list + [dateResult.value];
      }
      i := i + 1;
    }
    assert strList[..i] == strList;
    return Ok(Holidays(list));
  }

  /** The lines of a file's contents, split on line feeds. */
  function Lines(buf: string): (r: seq<string>)
    ensures |r| >= 1
    ensures forall k :: 0 <= k < |r| ==> '\n' !in r[k]
  {
    var pieces := Split(buf, "\n");
    forall k | 0 <= k < |pieces|
      ensures '\n' !in pieces[k]
    {
      NoLineFeed(pieces[k]);
    }
    pieces
  }

  /** Loads the holiday list from the result of reading the holiday file:
      a read failure is passed on unchanged, otherwise every line is
      offered to `FromStrList`. */
  method GetFromHolidayJp(contents: Result<string, IoError>) returns (r: Result<Holidays, IoError>)
    ensures contents.Err? <==> r.Err?
    ensures contents.Err? ==> r.error == contents.error
    ensures contents.Ok? ==> r.value.holidayList == DatesOf(Lines(contents.value))
  {
    if contents.Err? {
      return Err(contents.error);
    }
    var lines := Lines(contents.value);
    r := FromStrList(lines);
  }

  /** Linear scan for `date` in `list`. */
  function Scan(list: seq<CalendarDate>, date: CalendarDate): (r: bool)
    ensures r <==> exists i :: 0 <= i < |list| && list[i] == date
    decreases |list|
  {
    |list| > 0 && (list[0] == date || Scan(list[1..], date))
  }

  /** `date` is one of the loaded holidays. */
  function Contain(holidays: Holidays, date: CalendarDate): (r: bool)
    ensures r <==> date in holidays.holidayList
  {
    Scan(holidays.holidayList, date)
  }

  /** Saturday or Sunday. */
  function IsWeekend(date: CalendarDate): (r: bool)
    ensures r <==> WeekdayOf(date) == Sat || WeekdayOf(date) == Sun
    ensures r <==> DaysFromEpoch(date) % 7 == 2 || DaysFromEpoch(date) % 7 == 3
  {
    WeekendByCount(date);
    match WeekdayOf(date)
    case Sat | Sun => true
    case _ => false
  }

  /** A day off: a weekend day or a listed holiday. */
  function IsHoliday(date: CalendarDate, holidays: Holidays): (r: bool)
    ensures r <==> IsWeekend(date) || date in holidays.holidayList
  {
    IsWeekend(date) || Contain(holidays, date)
  }

  lemma NoLineFeed(s: string)
    requires !Contains(s, "\n")
    ensures '\n' !in s
  {
    forall i | 0 <= i < |s|
      ensures s[i] != '\n'
    {
      assert s[i..i + 1] == [s[i]];
      assert !OccursAt(s, "\n", i);
    }
  }

  /** Splitting the file contents into lines loses nothing: joining the lines
      with line feeds gives back the contents (the converse direction is
      `LinesOfJoinedLines`). */
  lemma LinesRoundTrip(buf: string)
    ensures Join(Lines(buf), "\n") == buf
  {
    JoinSplit(buf, "\n");
  }

  /** Lines joined with line feeds split back into the same lines. */
  lemma LinesOfJoinedLines(ps: seq<string>)
    requires |ps| >= 1
    requires forall k :: 0 <= k < |ps| ==> '\n' !in ps[k]
    ensures Lines(Join(ps, "\n")) == ps
  {
    forall k | 0 <= k < |ps|
      ensures !Contains(ps[k], "\n")
    {
      NoLeadingCharNoOccurrence(ps[k], "\n");
    }
    SplitJoin(ps, "\n");
  }

  /** The formatted form of a date holds no `": "`. */
  lemma FormatHasNoColonSpace(d: CalendarDate)
    requires FourDigitYear(d)
    ensures !Contains(Format(d), ": ")
  {
    var s := Format(d);
    var y, m, dd := Padded(d.year, 4), Padded(d.month, 2), Padded(d.day, 2);
    assert s == y + "-" + m + "-" + dd;
    forall i | 0 <= i < |s|
      ensures s[i] != ':'
    {
      if i < 4 { assert s[i] == y[i]; }
      else if 5 <= i < 7 { assert s[i] == m[i - 5]; }
      else if 8 <= i { assert s[i] == dd[i - 8]; }
    }
    NoLeadingCharNoOccurrence(s, ": ");
  }

  /** Whatever follows the first `": "` of a line is ignored. */
  lemma ExtractDateIgnoresDescription(head: string, description: string)
    requires !Contains(head, ": ")
    ensures ExtractDate(head + ": " + description) == ParseDate(head)
  {
    FirstPieceBeforeColonSpace(head, description);
  }

  /** A line without `": "` is read whole. */
  lemma ExtractDateWholeLine(line: string)
    requires !Contains(line, ": ")
    ensures ExtractDate(line) == ParseDate(line)
  {
    FirstPiece(line, ": ");
  }

  /** The lines yielding `d` are exactly `d` formatted, alone or followed by
      `": "` and any description. */
  lemma ExtractDateAccepts(line: string, d: CalendarDate)
    requires FourDigitYear(d)
    ensures ExtractDate(line) == Ok(d) <==>
            line == Format(d) || (|line| >= 12 && line[..12] == Format(d) + ": ")
  {
    if ExtractDate(line) == Ok(d) {
      AcceptedLineShape(line, d);
    }
    if line == Format(d) || (|line| >= 12 && line[..12] == Format(d) + ": ") {
      FormattedLineAccepted(line, d);
    }
  }

  lemma AcceptedLineShape(line: string, d: CalendarDate)
    requires FourDigitYear(d) && ExtractDate(line) == Ok(d)
    ensures line == Format(d) || (|line| >= 12 && line[..12] == Format(d) + ": ")
  {
    var head := Split(line, ": ")[0];
    FirstPiece(line, ": ");
    FormatParse(head);
    if head != line {
      assert OccursAt(line, ": ", |head|);
      assert line[..12] == head + line[10..12];
    }
  }

  lemma FormattedLineAccepted(line: string, d: CalendarDate)
    requires FourDigitYear(d)
    requires line == Format(d) || (|line| >= 12 && line[..12] == Format(d) + ": ")
    ensures ExtractDate(line) == Ok(d)
  {
    var f := Format(d);
    FormatHasNoColonSpace(d);
    ParseFormat(d);
    if line == f {
      ExtractDateWholeLine(line);
    } else {
      assert line == f + ": " + line[12..];
      ExtractDateIgnoresDescription(f, line[12..]);
    }
  }

  /** A line made of a formatted date, `": "` and a description yields that date. */
  lemma DescribedDateLine(d: CalendarDate, description: string)
    requires FourDigitYear(d)
    ensures ExtractDate(Format(d) + ": " + description) == Ok(d)
  {
    FormatHasNoColonSpace(d);
    ParseFormat(d);
    ExtractDateIgnoresDescription(Format(d), description);
  }

  /** The loader is a filter: the dates of a concatenation are the
      concatenation of the dates. */
  lemma DatesOfAppend(a: seq<string>, b: seq<string>)
    ensures DatesOf(a + b) == DatesOf(a) + DatesOf(b)
  {
    FilterMapAppend(a, b, LineDate);
  }

  /** A line that holds no date changes nothing, wherever it stands. */
  lemma DatesOfSkipsUnparsed(a: seq<string>, line: string, b: seq<string>)
    requires ExtractDate(line).Err?
    ensures DatesOf(a + [line] + b) == DatesOf(a + b)
  {
    FilterMapAppend(a + [line], b, LineDate);
    FilterMapAppend(a, [line], LineDate);
    FilterMapAppend(a, b, LineDate);
    FilterMapOne(line, LineDate);
  }

  /** A date is loaded exactly when some line yields it. */
  lemma DatesOfMembership(lines: seq<string>, d: CalendarDate)
    ensures d in DatesOf(lines) <==> exists i :: 0 <= i < |lines| && ExtractDate(lines[i]) == Ok(d)
  {
    FilterMapMembership(lines, LineDate, d);
    forall i | 0 <= i < |lines|
      ensures LineDate(lines[i]) == Some(d) <==> ExtractDate(lines[i]) == Ok(d)
    {
    }
  }

  /** Every line is kept exactly when every line holds a date. */
  lemma DatesOfKeepsAll(lines: seq<string>)
    ensures |DatesOf(lines)| == |lines| <==> forall i :: 0 <= i < |lines| ==> ExtractDate(lines[i]).Ok?
  {
    FilterMapKeepsAll(lines, LineDate);
  }

  /** Two days off in a row follow every Friday, and the Monday after is not
      a weekend day. */
  lemma WeekendFollowsFriday(d: CalendarDate)
    requires WeekdayOf(d) == Fri
    ensures !IsWeekend(d)
    ensures IsWeekend(NextDay(d)) && IsWeekend(NextDay(NextDay(d)))
    ensures !IsWeekend(NextDay(NextDay(NextDay(d))))
  {
    NextDayAdvancesWeekday(d);
    NextDayAdvancesWeekday(NextDay(d));
    NextDayAdvancesWeekday(NextDay(NextDay(d)));
  }
}
