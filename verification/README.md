# is-holiday_jp: holiday classification, modelled in Dafny

The program decides whether a calendar date is a non-working day in Japan:
a Saturday, a Sunday, or a date listed in a holiday file whose lines read
`YYYY-MM-DD: description`. This project models the holiday logic of
`src/calender/holiday.rs` and proves its properties:

- `Filtering` — keeping, in order, the values a partial conversion yields
  for the elements of a sequence (`FilterMap`), with its filter laws.
- `Strings` — splitting text on a separator, as Rust's `str::split`
  (`Find`, `Split`, `Join`), with the round trips between splitting and joining.
- `Dates` — proleptic Gregorian dates (`Date`, the subset type
  `CalendarDate` standing for chrono's `NaiveDate`), leap years, month
  lengths, the day count from 1970-01-01 and the weekday derived from it
  (1970-01-01 was a Thursday).
- `IsoDate` — a strict parser for the complete calendar date in extended
  format of ISO 8601:2004, section 4.1.2.2 (`YYYY-MM-DD`, four-digit years),
  and the formatter it exactly inverts.
- `Holiday` — `extract_date` (`ExtractDate`), `Holidays::from_str_list`
  (`FromStrList`, a loop, against the reference filter `DatesOf`, which is
  `FilterMap` with `ExtractDate`),
  `Holidays::get_from_holiday_jp` (`GetFromHolidayJp`, given the result of
  reading the file), `Holidays::contain` (`Contain`), `is_weekend`
  (`IsWeekend`) and `is_holiday` (`IsHoliday`).
- `HolidayExamples` — the unit tests of the same source file, as lemmas.

Reading the file is a parameter: `GetFromHolidayJp` receives either the
file's text or the `IoError` the read produced, and passes that error on
unchanged.

## Model

| member | source | states |
|---|---|---|
| Filtering.FilterMap | src/calender/holiday.rs:26-34 | the kept values are never more than the elements |
| Filtering.FilterMapAppend | src/calender/holiday.rs:27-33 | the values of a concatenation are the concatenation of the values |
| Filtering.FilterMapMembership | src/calender/holiday.rs:27-33 | a value is kept if and only if some element yields it |
| Filtering.FilterMapKeepsAll | src/calender/holiday.rs:27-33 | every element is kept exactly when every element yields a value |
| Strings.FindFrom | src/calender/holiday.rs:49 | the index returned is an occurrence of the separator with none earlier; no result means no occurrence at all |
| Strings.Split | src/calender/holiday.rs:21 | splitting yields at least one piece, and no piece contains the separator |
| Strings.JoinSplit | src/calender/holiday.rs:21 | joining the pieces with the separator gives back the original text |
| Strings.SplitJoin | src/calender/holiday.rs:21 | for a one-character separator, splitting the join of separator-free pieces gives back those pieces |
| Strings.FirstPiece | src/calender/holiday.rs:49-50 | the first piece is a prefix without the separator that is either the whole text or is followed by the separator; it is shorter than the text whenever the separator occurs |
| Strings.FirstPieceBeforeColonSpace | src/calender/holiday.rs:49-50 | for a head without `": "`, the first piece of head + `": "` + anything is the head |
| Dates.LeapYearsStep | src/calender/holiday.rs:62 | the leap-year count rises by one exactly at Gregorian leap years |
| Dates.YearStartStep | src/calender/holiday.rs:62 | the next year starts a full year length (365 or 366 days) later |
| Dates.DaysBeforeYearEnd | src/calender/holiday.rs:62 | the twelve month lengths add up to the year length |
| Dates.NextDayCountsOne | src/calender/holiday.rs:62 | the day count of the following date is one more |
| Dates.EpochIsThursday | src/calender/holiday.rs:62 | 1970-01-01 is day zero and a Thursday |
| Dates.WeekdayOfCountStep | src/calender/holiday.rs:62 | counting one day on gives the next weekday |
| Dates.WeekendOfCount | src/calender/holiday.rs:62-64 | the day numbered n from 1970-01-01 is a Saturday exactly when n mod 7 is 2 and a Sunday exactly when it is 3 |
| Dates.WeekendByCount | src/calender/holiday.rs:62-64 | a date is a Saturday exactly when its day count is 2 mod 7 and a Sunday exactly when it is 3 mod 7 |
| Dates.NextDayAdvancesWeekday | src/calender/holiday.rs:62 | the following date's weekday is the next weekday |
| Dates.NextDayIsSuccessor | src/calender/holiday.rs:62 | the following date is later and no date lies strictly between |
| Dates.DaysFromEpochOrdered | src/calender/holiday.rs:62 | one date is earlier than another exactly when its day count is smaller, and two dates are equal exactly when their counts are |
| IsoDate.ParseDate | src/calender/holiday.rs:50 | an accepted text has ten characters with dashes at positions 4 and 7, and yields a valid date with a four-digit year |
| IsoDate.ParseFormat | src/calender/holiday.rs:50 | parsing a formatted date gives the date back |
| IsoDate.FormatParse | src/calender/holiday.rs:50 | every accepted text is exactly the formatted form of its date |
| IsoDate.ParseDateExactly | src/calender/holiday.rs:50 | the parser yields date d from text s if and only if s is d formatted |
| Holiday.ExtractDate | src/calender/holiday.rs:48-51 | a line's date is a valid date (month 1..12, day within the month, February 29th only in leap years) with a four-digit year |
| Holiday.ExtractDateIgnoresDescription | src/calender/holiday.rs:48-51 | whatever follows the first `": "` is ignored |
| Holiday.ExtractDateWholeLine | src/calender/holiday.rs:48-51 | a line without `": "` is parsed whole |
| Holiday.ExtractDateAccepts | src/calender/holiday.rs:48-51 | a line yields d if and only if it is d formatted, alone or followed by `": "` and any description |
| Holiday.FromStrList | src/calender/holiday.rs:25-35 | always succeeds, its list is exactly the dates of the parseable lines in input order, and it is never longer than the input |
| Holiday.DatesOfAppend | src/calender/holiday.rs:27-33 | the dates of two concatenated line lists are the concatenation of their dates |
| Holiday.DatesOfSkipsUnparsed | src/calender/holiday.rs:29-32 | inserting a line without a date anywhere leaves the result unchanged |
| Holiday.DatesOfMembership | src/calender/holiday.rs:27-33 | a date is loaded if and only if some line yields it |
| Holiday.DatesOfKeepsAll | src/calender/holiday.rs:27-33 | as many dates as lines exactly when every line holds a date |
| Holiday.Lines | src/calender/holiday.rs:21 | at least one line, and no line contains a line feed |
| Holiday.GetFromHolidayJp | src/calender/holiday.rs:19-23 | fails exactly when reading failed, with the same error; otherwise loads the dates of the file's lines |
| Holiday.LinesRoundTrip | src/calender/holiday.rs:21 | joining the lines with line feeds restores the file text (the converse is `Holiday.LinesOfJoinedLines`) |
| Holiday.LinesOfJoinedLines | src/calender/holiday.rs:21 | lines without line feeds, joined by line feeds, split back into the same lines |
| Holiday.Scan | src/calender/holiday.rs:16 | the scan is true exactly when some list element equals the date |
| Holiday.Contain | src/calender/holiday.rs:15-17 | true exactly when the date is in the holiday list |
| Holiday.IsWeekend | src/calender/holiday.rs:61-67 | true exactly for Saturday and Sunday, i.e. on days whose count from the Thursday 1970-01-01 is 2 or 3 modulo 7 |
| Holiday.WeekendFollowsFriday | src/calender/holiday.rs:61-67 | a Friday is not a weekend day, the two days after it are, and the third is not |
| Holiday.IsHoliday | src/calender/holiday.rs:38-40 | true exactly when the date is a weekend day or is listed, so every weekend day and every listed date is a holiday |
| HolidayExamples.ExtractDateExamples | src/calender/holiday.rs:97-106 | `"1970-01-01: 元日"` yields 1970-01-01 and `"---"` yields an error |
| HolidayExamples.FromStrListExample | src/calender/holiday.rs:108-119 | the four sample lines load exactly 1970-01-01, 1970-01-15, 1970-02-11 |
| HolidayExamples.WeekendExamples | src/calender/holiday.rs:82-95 | 2021-02-20 and 2021-02-21 are weekend days, 2021-02-23 is not |
| HolidayExamples.WeekdayExamples | src/calender/holiday.rs:61-67 | 2021-02-15 to 2021-02-21 fall on Monday to Sunday |
| HolidayExamples.ContainExamples | src/calender/holiday.rs:121-140 | 1970-01-01 is in the sample list, 1970-01-02 is not |
| HolidayExamples.IsHolidayExamples | src/calender/holiday.rs:142-167 | with the sample list, 1970-01-01, -03 and -04 are holidays and 1970-01-02 is not |
| HolidayExamples.LeapDay2020 | src/calender/holiday.rs:50 | 2020-02-29 parses as a date |
| HolidayExamples.LeapDay2000 | src/calender/holiday.rs:50 | 2000-02-29 parses as a date (a century divisible by 400) |
| HolidayExamples.NoLeapDay2021 | src/calender/holiday.rs:50 | 2021-02-29 is rejected |
| HolidayExamples.NoLeapDay1900 | src/calender/holiday.rs:50 | 1900-02-29 is rejected (a century not divisible by 400) |
| HolidayExamples.SampleFileExample | src/calender/holiday.rs:169-188 | a file made of the sample lines gives the same four answers after splitting into lines and loading |

## Left out

- IsoDate.ParseDate: accepts only `YYYY-MM-DD` with exactly four year digits and two-digit month and day, with nothing around the fields; chrono's `NaiveDate::from_str`, which is not part of this model, also accepts years of one to three digits, signed years (which may be longer than four digits), one-digit months and days (`2021-1-1: 元日`), and whitespace around the fields, including a trailing carriage return left by a CRLF file on a line without a description. Such lines are dropped by the model but kept by the program.
- The kinds of chrono's `ParseError` are not distinguished; `ParseError` has one value.
- chrono's limit on the year range is not modelled: any integer year is a year, so `NextDay` never fails.
- Reading the file (`fs::read_to_string`) is a parameter of `GetFromHolidayJp`: the caller passes either the text or the `IoError`.
- `Split` requires a non-empty separator; the source only splits on `": "` and on the line feed.
- `src/main.rs` (reading today's local date from the clock, the fixed path `./res/holidays.yml`, and the exit status 1, 0 or -1) is glue around `is_holiday` and is not modelled.
- Time zones and times of day: only dates are modelled.
- Text is a sequence of Unicode characters; UTF-8 encoding is not modelled, which does not change where `": "` and line feeds are found.
