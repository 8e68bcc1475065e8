# Flight list parsing and overnight filtering, modelled in Dafny

`flight_app.py` turns airport departure boards into flight lists. The boards are pasted as plain text and
have this shape:

- a line such as `Tuesday, Mar 3` opens a day;
- a departure is a block of three lines:
  - a line `10:35 PM<TAB>NZ1` with the clock time and the flight code;
  - a line whose first parenthesised group is the destination airport, e.g. `Sydney (SYD)`;
  - a line naming the aircraft and, in a parenthesised group with a hyphen, its registration, e.g.
    `Boeing 787-9 (ZK-NZE)`.

`parse_raw_lines` scans the lines once with a current-date accumulator. It produces one record per
complete block that follows a header. Each record holds the date-time, the time text, the flight, the
destination, the normalised aircraft type and the registration.

`filter_records` then does three things:

- It picks the overnight window. The window runs from the start time on the earliest date to the end time
  on the next date a record falls on, or on the following day.
- It keeps the international flights of the allowed airlines inside that window.
- It sorts the kept records by date-time.

The model has seven modules:

| module | file | what it holds |
|---|---|---|
| `Wrappers` | `wrappers.dfy` | `Option` |
| `Text` | `text.dfy` | character classes (`\s` as `str.isspace`, `\d`, `\w`), case mapping, `str.strip`, digit strings |
| `Calendar` | `calendar.dfy` | proleptic Gregorian dates, the day after (`date + timedelta(days=1)`), the order of dates and date-times |
| `Clock` | `clock.dfy` | `strptime` with `"%I:%M %p"` and `"%H:%M"`, `strftime("%H:%M")`, `fmt_time` and `valid_hm` |
| `Patterns` | `patterns.dfy` | the four regular expressions and the airline, airport and aircraft tables |
| `Parser` | `parser.dfy` | `parse_date`, `normalize_plane_type`, `extract_plane_and_reg` and `parse_raw_lines` |
| `Filter` | `filter.dfy` | `filter_records` |

The two loops of the source are methods with loop invariants:

- `Parser.ExtractPlaneAndReg` is the reversed search for a registration.
- `Parser.ParseRawLines` is the line scan. It is proved equal to the specification function
  `Parser.ParsedRecords`, and the lemmas after it state what that function means.

Each loop step of `ParseRawLines` is the method `Parser.ScanLine`. The per-line views of the input are
ghost sequences, tied to the lines by `Parser.Linked`.

The rest of the source computes values, so it is modelled with functions and lemmas. Python exceptions
become explicit results:

- the `ValueError` of `strptime` becomes `None`;
- the `IndexError`/`AttributeError` caught by the `try` block in `parse_raw_lines` becomes a dropped
  line;
- the errors `filter_records` lets escape become `Filter.Failed`.

Four facts about the code shape the model:

- A block whose destination line has no parenthesised group is dropped.
- The registration is empty when no group holds a hyphen.
- No status line is skipped. A line that is neither a header nor a time line is simply passed over.
- A block whose time does not parse is dropped.

The source reads a record's date-time with `"%Y-%m-%d %I:%M %p"` from the text `"<date> <time>"`
(flight_app.py:118-121). The ISO date in front always parses, so the model reads the minute of the day
as the `"%I:%M %p"` reading of the time text alone (`Clock.ParseClock12`) and pairs it with the date in
scope.

## Model

| member | source | states |
|---|---|---|
| Text.Strip | flight_app.py:101 | the result is a slice of the input with only whitespace before and after it, and it neither starts nor ends with whitespace |
| Text.TrimStart | flight_app.py:101 | the result is a suffix of the input, and only whitespace was removed in front of it |
| Text.TrimEnd | flight_app.py:101 | the result is a prefix of the input, and only whitespace was removed after it |
| Text.StripKeeps | flight_app.py:101 | stripping keeps every character that is not whitespace |
| Text.CaseRoundTrips | flight_app.py:74 | `raw.upper().lower() == raw.lower()` and upper-casing is idempotent |
| Text.UpperOfLower | flight_app.py:74 | two texts with equal lower-case forms have equal upper-case forms |
| Text.Span | flight_app.py:31 | a maximal run of one character class: every character up to the end of the run is in the class, and the next one is not |
| Text.SpanStopsAt | flight_app.py:31 | a run that ends where the class stops is the span |
| Text.TwoDigits | flight_app.py:93 | the zero-padded two-digit form of n < 100 reads back as n |
| Calendar.DaysInMonth | flight_app.py:68 | every month has 28 to 31 days |
| Calendar.NextDay | flight_app.py:153 | the day after is later and is the least later date; it is missing exactly for 9999-12-31, where `timedelta` overflows |
| Clock.To24 | flight_app.py:93 | the 12-hour to 24-hour rule: 12 AM is hour 0, 12 PM is hour 12, PM adds 12 otherwise |
| Clock.SplitClock12 | flight_app.py:93 | an accepted clock time has an hour of 1..12 and a minute of 0..59 |
| Clock.Clock12Sound | flight_app.py:93 | `"%I:%M %p"` accepts only an hour field of one or two digits worth 1..12, a colon and a `"%M %p"` part, and reads the fields as written |
| Clock.MeridiemSound | flight_app.py:93 | the part after the colon is accepted only as a minute field, a non-empty run of blanks and `am`/`pm` in any case |
| Clock.ParseClock12 | flight_app.py:93 | the minute of the day keeps the minute field, agrees with the hour modulo 12, and lies in the afternoon exactly for PM |
| Clock.To24Fields | flight_app.py:93 | the minute of the day of an accepted 12-hour time keeps its minute field, agrees with its hour modulo 12, and is in the afternoon exactly for PM |
| Clock.Clock12Accepts | flight_app.py:93 | every text of the form `h:mm<blanks>AM/PM` (any case, hour 1..12) is accepted with its own fields |
| Clock.MeridiemAccepts | flight_app.py:93 | the minute field and the AM/PM marker are read as written, whatever their case |
| Clock.ParseHm | flight_app.py:275 | `strptime(t, "%H:%M")` accepts only texts of three to five characters with a colon; `Clock.ParseHmSound` and `Clock.HmAccepts` characterise it fully |
| Clock.ValidHm | flight_app.py:273-278 | `valid_hm` holds only for texts of three to five characters with a colon; `Clock.ValidHmIff` characterises it fully |
| Clock.HmAccepts | flight_app.py:273-278 | every `H:MM` or `HH:MM` with an hour up to 23 and a minute up to 59 parses to that minute of the day |
| Clock.ParseHmSound | flight_app.py:273-278 | `strptime(t, "%H:%M")` accepts nothing but such a text, and reads it as the minute it spells |
| Clock.ValidHmIff | flight_app.py:273-278 | `valid_hm` (`Clock.ValidHm`) holds exactly for the texts `H:MM`/`HH:MM` with an hour up to 23 and a %M minute field |
| Clock.Hhmm | flight_app.py:93 | `strftime("%H:%M")` prints five characters with the colon in the middle; `Clock.HhmmRoundTrip` shows they read back as the same minute |
| Clock.HhmmRoundTrip | flight_app.py:92-93 | the `%H:%M` text of every minute of the day parses back to that minute |
| Clock.FmtTime | flight_app.py:92-93 | `fmt_time` fails exactly where `"%I:%M %p"` does; otherwise it prints five characters that pass `valid_hm` and denote the same minute as the 12-hour text |
| Patterns.CanonicalIsTableValues | flight_app.py:40-47 | the canonical aircraft types are exactly the values of `PLANE_TYPE_NORMALIZE` |
| Patterns.PlaneTokensAreTableEntries | flight_app.py:49-57 | the alternatives of `PLANE_TYPE_PATTERN` are exactly the table's keys and values, values first |
| Patterns.PlaneTokensLongestFirst | flight_app.py:51-54 | the alternatives are sorted longest first: the four-letter values come before the three-letter keys |
| Patterns.TableKeysShort | flight_app.py:40-47 | every table key has three characters |
| Patterns.PlaneTokenCase | flight_app.py:40-47 | the values are upper case and the keys lower case |
| Patterns.SplitTimeLine | flight_app.py:30 | an accepted time line is the time text, a tab and the flight code, each of the shape `TIME_LINE` demands |
| Patterns.MatchTimeLine | flight_app.py:30 | `TIME_LINE.match`: an accepted line, less a final newline, is its time group, a tab and its flight group, each of the required shape; `Patterns.MatchTimeLineAccepts` is the converse |
| Patterns.TimeLineAccepts | flight_app.py:30 | every time text, tab and flight code of that shape splits back into the same two groups |
| Patterns.MatchTimeLineAccepts | flight_app.py:30 | `TIME_LINE.match` gives back the two groups of every well-shaped line |
| Patterns.SplitDateHeader | flight_app.py:31 | an accepted header splits into letters, a comma, blanks, a word, blanks and one or two digits that join back to the line |
| Patterns.MatchDateHeader | flight_app.py:31 | `DATE_HEADER.match`: an accepted line, less a final newline, is a well-shaped header that its parts join back to; `Patterns.MatchDateHeaderAccepts` is the converse |
| Patterns.DateHeaderAccepts | flight_app.py:31 | every well-shaped header splits back into its own parts |
| Patterns.MatchDateHeaderAccepts | flight_app.py:31 | `DATE_HEADER.match` accepts every well-shaped header, also one followed by a final newline |
| Patterns.ParenMatchAt | flight_app.py:32 | a group found at p is a `(`, a non-empty run without `)`, and a `)`; none is found where no such group starts |
| Patterns.SearchParens | flight_app.py:32 | `IATA_IN_PARENS.search` finds the leftmost position where a group starts |
| Patterns.FirstParenGroup | flight_app.py:115 | `IATA_IN_PARENS.search(..).group(1)` is missing exactly when no group starts anywhere, and is otherwise non-empty without `)` |
| Patterns.ParenSpansFrom | flight_app.py:84 | the matches `findall` visits start after the start position, and a parenthesised group starts at each of them and closes at its recorded `)` |
| Patterns.ParenGroupsFrom | flight_app.py:84 | `findall` returns one group per visited match, the text between its parentheses: non-empty and without `)` |
| Patterns.ParenGroups | flight_app.py:84 | `findall` on a whole text is empty exactly when no group starts anywhere, and each group is non-empty without `)` |
| Patterns.FindallSpansCons | flight_app.py:84 | the leftmost match followed by findall's matches after its `)` are findall's matches |
| Patterns.ParenSpansAreFindall | flight_app.py:84 | those matches are findall's: the first is the leftmost, each next one is the leftmost after the previous `)`, and no match starts in the gaps or after the last one |
| Patterns.FindallSpansUnique | flight_app.py:84 | only one list of matches fits that description |
| Patterns.FirstParenGroupIsFirstOfAll | flight_app.py:115 | `search` finds a group exactly when `findall` finds one, and it is the first of them |
| Patterns.SearchTokens | flight_app.py:81 | `PLANE_TYPE_PATTERN.search` reports the leftmost position with a whole-word match, and there the first alternative that matches |
| Patterns.PlaneTokenMatch | flight_app.py:81 | `PLANE_TYPE_PATTERN.search(..).group(1)` is missing exactly when no alternative matches as a whole word anywhere, and otherwise equals an alternative up to case |
| Patterns.FirstTokenAtIsFirst | flight_app.py:49-57 | the alternative chosen at a position matches there as a whole word, and no earlier alternative does |
| Patterns.FirstMatchTextIs | flight_app.py:81 | the matched text is the chosen alternative up to case, taken from the searched text |
| Patterns.SearchFindsNothingIff | flight_app.py:81 | the search fails exactly when no alternative matches as a whole word anywhere |
| Patterns.PlaneTokensInjective | flight_app.py:49-57 | the alternatives are pairwise different |
| Patterns.SameTokenUpToCase | flight_app.py:49-57 | two alternatives equal up to case are the same alternative |
| Patterns.NoBoundaryInsideLong | flight_app.py:49-57 | inside a four-character code matched at p there is no `\b` after its third character |
| Patterns.OneTokenPerPosition | flight_app.py:49-57 | at most one alternative matches as a whole word at any position, so the order among equal-length alternatives cannot change the match |
| Parser.MonthNumber | flight_app.py:68 | `%b` reads exactly the twelve English month abbreviations, in any case, as months 1..12 |
| Parser.MonthNumberOf | flight_app.py:68 | every month abbreviation reads as its own month |
| Parser.ParseDate | flight_app.py:64-70 | a parsed header date always lies in YEAR |
| Parser.ParseDateSound | flight_app.py:64-70 | a parsed date comes from a header with a full weekday name, the month's abbreviation and the day's digits |
| Parser.DateOfHeader | flight_app.py:68 | `strptime` with `"%A, %b %d %Y"` of the header parts gives a date in YEAR only for a full weekday name, with the month whose abbreviation is written and the day's digits |
| Parser.ReadHeader | flight_app.py:64-70 | `parse_date` of a well-shaped header is the `strptime` reading of its parts |
| Parser.ParseDateAccepts | flight_app.py:64-70 | a header with a weekday name, a month abbreviation and a day that exists in that month in YEAR parses to that date |
| Parser.ParseDateIgnoresWeekday | flight_app.py:68 | which weekday the header names does not change the date |
| Parser.NormalizePlaneType | flight_app.py:73-74 | a normalised type is a canonical type or the upper-cased input, and is non-empty for non-empty input |
| Parser.NormalizeByTable | flight_app.py:73-74 | a key of the table (any case) maps to its value; everything else is upper-cased |
| Parser.NormalizeIgnoresCase | flight_app.py:73-74 | normalisation does not depend on the case of its input |
| Parser.NormalizeIdempotent | flight_app.py:73-74 | normalising twice is normalising once |
| Parser.PlaneTypeOf | flight_app.py:78-82 | the plane field is empty exactly when the pattern does not match, and a canonical type otherwise |
| Parser.MatchedTokenCanonical | flight_app.py:82 | any text matching an alternative up to case normalises to a canonical type |
| Parser.MatchedLongToken | flight_app.py:82 | a matched canonical type, in any case, normalises to itself |
| Parser.MatchedShortToken | flight_app.py:82 | a matched table key, in any case, normalises to a canonical type |
| Parser.MatchCanonical | flight_app.py:82 | a text equal up to case to an alternative normalises to a non-empty canonical type |
| Parser.PlaneTypeEmptyIff | flight_app.py:78-82 | no plane type exactly when no alternative occurs as a whole word |
| Parser.LongTokenWins | flight_app.py:49-57 | a four-character code matching as a whole word at the leftmost match position is the plane field, in the table's spelling, so a word-bounded `a320` gives `A320` and not a shorter token |
| Parser.LastWithHyphen | flight_app.py:84-87 | the reversed search stops at the last group with a hyphen, and finds none when no group has one |
| Parser.RegistrationOf | flight_app.py:84-87 | the registration is empty exactly when no group holds a hyphen, and holds a hyphen otherwise |
| Parser.LastWithHyphenNone | flight_app.py:84-87 | when no group holds a hyphen, the reversed search finds none |
| Parser.ExtractPlaneAndReg | flight_app.py:77-89 | the reversed loop returns the plane type of the pattern search and the stripped last group with a hyphen |
| Parser.LastHeaderBefore | flight_app.py:103-108 | the date in scope at a line is the most recent header before it; no header before means no date |
| Parser.Origins | flight_app.py:96-135 | the origin lines of the records are increasing, each yields a record, and every line that yields one is listed |
| Parser.HeaderStep | flight_app.py:103-105 | a header line sets the current date and adds no record |
| Parser.OtherStep | flight_app.py:107-133 | any other line keeps the current date and adds exactly one record when a date is in scope and its block reads |
| Parser.EntryAt | flight_app.py:110-121 | a block read at line i has two more lines after it, a time and flight of the `TIME_LINE` shape, and a minute that is the 12-hour reading of its time; `Parser.EntryAtSpec` and `Parser.EntryAtAccepts` characterise it fully |
| Parser.ReadEntry | flight_app.py:110-121 | the try block of a time line reads the entry its block describes, or nothing when the block is incomplete |
| Parser.ScanLine | flight_app.py:100-133 | one loop step takes the date in scope and the records so far from line i to line i + 1 |
| Parser.ParseRawLines | flight_app.py:96-135 | the loop returns exactly the records of the specification scan |
| Parser.LinkedViews | flight_app.py:100-103 | the per-line ghost views of the loop are the headers and entries of the lines |
| Parser.RecordsInLineOrder | flight_app.py:100-130 | the records come out in the order of their lines, one per origin line |
| Parser.NoRecordBeforeFirstHeader | flight_app.py:107-108 | lines before the first header yield no record |
| Parser.RecordAtSpec | flight_app.py:103-133 | a line yields a record exactly when it is no header, a header came before, and its block reads; the record carries that header's date and the entry's fields |
| Parser.EntryAtSpec | flight_app.py:110-121 | `Parser.EntryAt`, the try block: a read entry's time and flight make up the stripped line, its destination is the upper-cased first group of the next line, and its plane type and registration come from the line after |
| Parser.EntryAtAccepts | flight_app.py:110-130 | every complete block with a 12-hour clock time is read, with exactly those fields |
| Parser.RecordsDatedByHeaders | flight_app.py:103-119 | every record is dated by some header |
| Parser.ParsedRecords | flight_app.py:96-135 | `parse_raw_lines` yields at most one record per line; the lemmas around it state which records and in which order |
| Parser.ScanAtMostOnePerLine | flight_app.py:100-133 | each step of the scan appends at most one record |
| Parser.ParsedRecordsInYear | flight_app.py:96-135 | every parsed record lies in YEAR |
| Parser.RecordFromEntry | flight_app.py:103-130 | the k-th record is its origin line's entry, dated by the last header before that line |
| Parser.EntryReadFromLines | flight_app.py:110-130 | a record built from a read entry reproduces the lines it came from, and its time is what `fmt_time` prints |
| Parser.ParsedRecordOrigin | flight_app.py:100-133 | of `Parser.ParsedRecords`, the records of parse_raw_lines: each parsed record reproduces its own three lines, and its date is that of the last header above them |
| Filter.EndDate | flight_app.py:152-153 | the end date is later than `dates[0]`, and is a record's date or the day after `dates[0]` |
| Filter.EarliestDate | flight_app.py:143-148 | `dates[0]` is a record's date and not after any record's date |
| Filter.NextDateAfter | flight_app.py:153 | `dates[1]` is the least record date after `dates[0]`; it is missing exactly when all records share one date |
| Filter.Prefix2 | flight_app.py:159 | `flight[:2]` is a prefix of at most two characters |
| Filter.Keep | flight_app.py:157-162 | `valid` accepts a record only when its flight has two characters or more and starts with an allowed airline |
| Filter.Select | flight_app.py:157-162 | `filter(valid, records)` keeps each record `valid` accepts exactly as often as it occurs, drops every other record, and is no longer than its input |
| Filter.KeptFrom | flight_app.py:157-162 | the indices of the accepted records are increasing and cover every accepted record |
| Filter.SelectKeepsOrder | flight_app.py:157-162 | the k-th kept record is the record at the k-th accepted index: `filter` keeps the input order |
| Filter.SelectInOrder | flight_app.py:157-162 | the same for every suffix of the records, the induction behind `Filter.SelectKeepsOrder` |
| Filter.SelectAppend | flight_app.py:157-162 | filtering distributes over concatenation |
| Filter.SelectAtTime | flight_app.py:157-164 | the records kept at one date-time are those kept among the records at that date-time, in the same order |
| Filter.AtTime | flight_app.py:164 | the records at one date-time, in order |
| Filter.AtTimeAppend | flight_app.py:164 | taking the records at one date-time distributes over concatenation |
| Filter.Insert | flight_app.py:164 | insertion adds exactly one element |
| Filter.SortByTime | flight_app.py:164 | sorting permutes its input |
| Filter.InsertSorted | flight_app.py:164 | insertion into a sorted list keeps it sorted |
| Filter.InsertStable | flight_app.py:164 | the inserted element goes after the equal date-times already present |
| Filter.SortByTimeSorted | flight_app.py:164 | the sorted list is ordered by date-time |
| Filter.SortByTimeStable | flight_app.py:164 | the sort is stable: records with equal date-times keep their input order |
| Filter.FilterRecords | flight_app.py:142-164 | the kept records are never more than the input records |
| Filter.FilterNoRecords | flight_app.py:144-145 | no records give no records and no window, whatever the times say |
| Filter.FilterWindow | flight_app.py:147-155 | the window starts at start_hm on the earliest date and ends at end_hm on the next record date, or on the day after when there is one date; it is never empty |
| Filter.FilterKept | flight_app.py:157-164 | the kept records are sorted by date-time; each allowed international record in the window occurs as often as in the input and no other record occurs; the kept records at each date-time are the accepted input records at it, in input order |
| Filter.SelectionSorted | flight_app.py:157-164 | the same for the sorted selection of any window |
| Filter.FilteredShape | flight_app.py:142-164 | a successful call with records returns the sorted selection of the window built from `dates[0]`, the end date and both times |
| Filter.FilterFails | flight_app.py:147-155 | the call fails exactly when there are records and a time is not HH:MM or the end date overflows; the error is the format error exactly when a time check fails first |
| Filter.EndDateNone | flight_app.py:152-153 | the end date overflows exactly when every record lies on 9999-12-31 |
| Filter.ParsedRecordsFilter | flight_app.py:280-282 | with both times accepted by `valid_hm`, filtering parsed records never fails |

## Left out

- Character classes: `\d`, `\w` and the case mapping of `re.IGNORECASE`, `str.lower` and `str.upper` are
  modelled for ASCII only. Unicode digits, letters and case folding (for example `ß` or dotted `İ`) are
  not modelled.
- Locale: `%A` and `%b` are modelled with the English names only, as in the C locale.
- strptime internals: only the three directive sets the program uses are modelled, with the patterns
  `strptime` builds for them. `%A` is not checked against the date, as in CPython.
- Byte input: reading the pasted text and decoding it as UTF-8 is not modelled; the lines are the input.
- Time zones and seconds: date-times are a date and a minute of the day.
- The exception of a missing destination or a short block: not modelled as an exception, only as the
  dropped line it leads to.
- Output and interface: the Streamlit interface, the DOCX and PDF export and the label numbering of
  `flight_app.py` are outside this model, as are fonts and page layout.
- Parser.ScanLine: the loop body of `parse_raw_lines` is a separate step method, so that the invariant of
  `Parser.ParseRawLines` can be checked one line at a time; it carries ghost per-line views that the
  source does not have.
- Filter.FilterRecords: its own contract states only the length bound. Its meaning is stated by
  `Filter.FilterWindow`, `Filter.FilterKept`, `Filter.FilterFails` and `Filter.FilterNoRecords`.
- Patterns.PlaneTokens: the source builds the alternation from a Python `set`, so alternatives of equal
  length come in hash order, which can differ between runs. The model fixes one order.
  `Patterns.OneTokenPerPosition` shows that the order among equal lengths cannot change the result.
- Filter.SortByTime: modelled as an insertion sort on values. Python's Timsort is another algorithm, but
  it has the same result: the stable order by date-time.
