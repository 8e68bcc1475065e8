/**
 * The parsing utilities and the line scan of flight_app.py: parse_date,
 * normalize_plane_type, extract_plane_and_reg and parse_raw_lines.
 */
module Parser {
  import opened Wrappers
  import opened Text
  import opened Calendar
  import opened Clock
  import opened Patterns

  /** YEAR: the year every date header is read in. */
  const Year := 2026

  /** The names %A accepts, case folded (English locale). */
  const WeekdayNames: seq<string> :=
    ["monday", "tuesday", "wednesday", "thursday", "friday", "saturday", "sunday"]

  /** The names %b accepts, case folded (English locale); month m is at index m - 1. */
  const MonthAbbreviations: seq<string> :=
    ["jan", "feb", "mar", "apr", "may", "jun", "jul", "aug", "sep", "oct", "nov", "dec"]

  /** The position of x in xs[k..], if it occurs there. */
  function IndexOf(xs: seq<string>, x: string, k: nat): (r: Option<nat>)
    requires k <= |xs|
    ensures r.Some? ==> k <= r.value < |xs| && xs[r.value] == x
    ensures r.None? ==> forall i :: k <= i < |xs| ==> xs[i] != x
    decreases |xs| - k
  {
    if k == |xs| then None else if xs[k] == x then Some(k) else IndexOf(xs, x, k + 1)
  }

  /** The month number a %b field names, compared without regard to case. */
  function MonthNumber(name: string): (r: Option<int>)
    ensures r.Some? ==> 1 <= r.value <= 12 && MonthAbbreviations[r.value - 1] == Lower(name)
    ensures r.None? <==> Lower(name) !in MonthAbbreviations
  {
    match IndexOf(MonthAbbreviations, Lower(name), 0)
    case None => None
    case Some(i) => Some(i + 1)
  }

  // ---------------------------------------------------------------------
  // parse_date

  /** strptime(f"{line} {YEAR}", "%A, %b %d %Y") for a line DATE_HEADER has split into p. */
  function DateOfHeader(p: HeaderParts): (r: Option<CalendarDate>)
    requires IsHeaderParts(p)
    ensures r.Some? ==> (r.value.year == Year && Lower(p.weekday) in WeekdayNames
      && MonthAbbreviations[r.value.month - 1] == Lower(p.month) && r.value.day == DigitsValue(p.day))
  {
    if Lower(p.weekday) !in WeekdayNames then None
    else match MonthNumber(p.month)
      case None => None
      case Some(m) =>
        var d := DigitsValue(p.day);
        if 1 <= d <= DaysInMonth(Year, m) then Some(Date(Year, m, d)) else None
  }

  /**
   * parse_date: a date in YEAR when the line has the header shape, names a
   * weekday in full and a month by its abbreviation, and the day exists in
   * that month; None otherwise (the ValueError is caught).
   */
  function ParseDate(line: string): (r: Option<CalendarDate>)
    ensures r.Some? ==> r.value.year == Year
  {
    match MatchDateHeader(line)
    case None => None
    case Some(p) => DateOfHeader(p)
  }

  /** A date is read only from a header line, with its weekday, month and day taken from the line. */
  lemma ParseDateSound(line: string)
    requires ParseDate(line).Some?
    ensures MatchDateHeader(line).Some?
    ensures var r, p := ParseDate(line).value, MatchDateHeader(line).value;
      Lower(p.weekday) in WeekdayNames
      && MonthAbbreviations[r.month - 1] == Lower(p.month) && r.day == DigitsValue(p.day)
  {
    var p := MatchDateHeader(line).value;
    assert DateOfHeader(p) == ParseDate(line);
  }

  /** A line of the header shape is read as its pieces say. */
  lemma ReadHeader(p: HeaderParts)
    requires IsHeaderParts(p)
    ensures ParseDate(JoinHeader(p)) == DateOfHeader(p)
  {
    MatchDateHeaderAccepts(p);
  }

  lemma MonthAbbreviationsDistinct()
    ensures forall a, b :: 0 <= a < b < |MonthAbbreviations| ==> MonthAbbreviations[a] != MonthAbbreviations[b]
  {
    var xs := MonthAbbreviations;
    forall a, b | 0 <= a < b < |xs| ensures xs[a] != xs[b] {
      assert xs[a][0] != xs[b][0] || xs[a][1] != xs[b][1] || xs[a][2] != xs[b][2];
    }
  }

  /** Each abbreviation names the month at its place in the list. */
  lemma MonthNumberOf(name: string, month: int)
    requires 1 <= month <= 12 && Lower(name) == MonthAbbreviations[month - 1]
    ensures MonthNumber(name) == Some(month)
  {
    MonthAbbreviationsDistinct();
  }

  /** Every header naming a full weekday, a month abbreviation and a day of that month is read. */
  lemma ParseDateAccepts(p: HeaderParts, month: int)
    requires IsHeaderParts(p)
    requires Lower(p.weekday) in WeekdayNames
    requires 1 <= month <= 12 && Lower(p.month) == MonthAbbreviations[month - 1]
    requires 1 <= DigitsValue(p.day) <= DaysInMonth(Year, month)
    ensures ParseDate(JoinHeader(p)) == Some(Date(Year, month, DigitsValue(p.day)))
  {
    ReadHeader(p);
    MonthNumberOf(p.month, month);
  }

  /** The weekday a header names is not checked against the date: any full name is read alike. */
  lemma ParseDateIgnoresWeekday(p: HeaderParts, w: string)
    requires IsHeaderParts(p) && IsHeaderParts(p.(weekday := w))
    requires Lower(p.weekday) in WeekdayNames && Lower(w) in WeekdayNames
    ensures ParseDate(JoinHeader(p.(weekday := w))) == ParseDate(JoinHeader(p))
  {
    ReadHeader(p);
    ReadHeader(p.(weekday := w));
  }

  // ---------------------------------------------------------------------
  // normalize_plane_type

  /** normalize_plane_type: the table entry for the lower-cased raw token, else the token upper-cased. */
  function NormalizePlaneType(raw: string): (r: string)
    ensures r in CanonicalPlaneTypes || r == Upper(raw)
    ensures |raw| > 0 ==> |r| > 0
  {
    CanonicalIsTableValues();
    if Lower(raw) in PlaneTypeNormalize then PlaneTypeNormalize[Lower(raw)] else Upper(raw)
  }

  /** A table key in any case yields its table value; any other token is upper-cased verbatim. */
  lemma NormalizeByTable(raw: string)
    ensures Lower(raw) in PlaneTypeNormalize ==> NormalizePlaneType(raw) == PlaneTypeNormalize[Lower(raw)]
    ensures Lower(raw) !in PlaneTypeNormalize ==> NormalizePlaneType(raw) == Upper(raw)
  {
  }

  /** Normalising depends on the token only up to case. */
  lemma NormalizeIgnoresCase(a: string, b: string)
    requires Lower(a) == Lower(b)
    ensures NormalizePlaneType(a) == NormalizePlaneType(b)
  {
    UpperOfLower(a, b);
  }

  /** Normalising a normalised token changes nothing. */
  lemma NormalizeIdempotent(raw: string)
    ensures NormalizePlaneType(NormalizePlaneType(raw)) == NormalizePlaneType(raw)
  {
    var r := NormalizePlaneType(raw);
    CaseRoundTrips(raw);
    if Lower(raw) in PlaneTypeNormalize {
      CanonicalIsTableValues();
      PlaneTokensAreTableEntries();
      PlaneTokensLongestFirst();
      PlaneTokenCase();
      assert r in CanonicalPlaneTypes;
      assert r in PlaneTokens[..LongTokens];
      var k :| 0 <= k < LongTokens && PlaneTokens[k] == r;
      TableKeysShort();
      assert |Lower(r)| == 4;
    }
  }

  // ---------------------------------------------------------------------
  // extract_plane_and_reg

  /**
   * The plane field: normalize_plane_type of the first PLANE_TYPE_PATTERN
   * match, or "" when there is none; never anything but a canonical code.
   */
  function PlaneTypeOf(text: string): (r: string)
    ensures r == "" <==> PlaneTokenMatch(text).None?
    ensures r == "" || r in CanonicalPlaneTypes
  {
    match PlaneTokenMatch(text)
    case None => ""
    case Some(g) =>
      MatchCanonical(g);
      NormalizePlaneType(g)
  }

  /** A text the pattern matched normalises to a canonical code. */
  lemma MatchCanonical(g: string)
    requires exists k :: 0 <= k < |PlaneTokens| && Lower(g) == Lower(PlaneTokens[k])
    ensures NormalizePlaneType(g) in CanonicalPlaneTypes && NormalizePlaneType(g) != ""
  {
    var k :| 0 <= k < |PlaneTokens| && Lower(g) == Lower(PlaneTokens[k]);
    MatchedTokenCanonical(g, k);
  }

  /** Whatever text matches an alternative normalises to a canonical code. */
  lemma MatchedTokenCanonical(g: string, k: nat)
    requires k < |PlaneTokens| && Lower(g) == Lower(PlaneTokens[k])
    ensures NormalizePlaneType(g) in CanonicalPlaneTypes
  {
    if k < LongTokens {
      MatchedLongToken(g, k);
      PlaneTokensAreTableEntries();
    } else {
      MatchedShortToken(g, k);
    }
  }

  /** A text matching a four-character alternative up to case normalises to that alternative. */
  lemma MatchedLongToken(g: string, k: nat)
    requires k < LongTokens && Lower(g) == Lower(PlaneTokens[k])
    ensures NormalizePlaneType(g) == PlaneTokens[k]
  {
    PlaneTokensAreTableEntries();
    PlaneTokensLongestFirst();
    PlaneTokenCase();
    TableKeysShort();
    assert |Lower(g)| == 4;
    UpperOfLower(g, PlaneTokens[k]);
  }

  /** A text matching a table key up to case normalises to that key's canonical code. */
  lemma MatchedShortToken(g: string, k: nat)
    requires LongTokens <= k < |PlaneTokens| && Lower(g) == Lower(PlaneTokens[k])
    ensures NormalizePlaneType(g) in CanonicalPlaneTypes
  {
    CanonicalIsTableValues();
    PlaneTokensAreTableEntries();
    PlaneTokenCase();
    assert Lower(g) == PlaneTokens[k];
  }

  /** The plane field is empty exactly when no alternative matches anywhere in the text. */
  lemma PlaneTypeEmptyIff(text: string)
    ensures PlaneTypeOf(text) == "" <==>
      forall q, k :: 0 <= q <= |text| && 0 <= k < |PlaneTokens| ==> !TokenAt(text, q, PlaneTokens[k])
  {
    SearchFindsNothingIff(text, PlaneTokens);
  }

  /**
   * At the leftmost position where any alternative matches, a four-character
   * code matching there is the plane field, written as in the table.
   */
  lemma LongTokenWins(text: string, p: nat, k: nat)
    requires k < LongTokens && TokenAt(text, p, PlaneTokens[k])
    requires forall q, j :: 0 <= q < p && 0 <= j < |PlaneTokens| ==> !TokenAt(text, q, PlaneTokens[j])
    ensures PlaneTypeOf(text) == PlaneTokens[k]
  {
    PlaneTokensLongestFirst();
    FirstTokenAtIsFirst(text, p, PlaneTokens, 0);
    var r := SearchTokens(text, 0, PlaneTokens);
    assert r.Some? && r.value.0 == p by {
      if r.None? {
        assert false;
      } else if r.value.0 < p {
        FirstTokenAtIsFirst(text, r.value.0, PlaneTokens, 0);
        assert false;
      } else if r.value.0 > p {
        assert false;
      }
    }
    var j := r.value.1;
    assert j <= k;
    TokenText(text, p, PlaneTokens[j]);
    TokenText(text, p, PlaneTokens[k]);
    assert |PlaneTokens[j]| == |PlaneTokens[k]| == 4;
    MatchedLongToken(text[p..p + 4], k);
  }

  /** The index of the last group containing "-". */
  function LastWithHyphen(groups: seq<string>): (r: Option<nat>)
    ensures r.Some? ==> r.value < |groups| && '-' in groups[r.value]
    ensures r.Some? ==> forall j :: r.value < j < |groups| ==> '-' !in groups[j]
    ensures r.None? ==> forall j :: 0 <= j < |groups| ==> '-' !in groups[j]
  {
    if |groups| == 0 then None
    else if '-' in groups[|groups| - 1] then Some(|groups| - 1)
    else LastWithHyphen(groups[..|groups| - 1])
  }

  /** No group from index i on contains "-". */
  predicate HyphenFreeFrom(groups: seq<string>, i: nat) {
    forall j :: i <= j < |groups| ==> '-' !in groups[j]
  }

  lemma HyphenFreeStep(groups: seq<string>, i: nat)
    requires i < |groups| && '-' !in groups[i] && HyphenFreeFrom(groups, i + 1)
    ensures HyphenFreeFrom(groups, i)
  {
  }

  /** The last group containing "-" is the one after which no group contains it. */
  lemma LastWithHyphenAt(groups: seq<string>, i: nat)
    requires i < |groups| && '-' in groups[i]
    requires HyphenFreeFrom(groups, i + 1)
    ensures LastWithHyphen(groups) == Some(i)
  {
  }

  /** With no group holding "-" there is no last such group. */
  lemma LastWithHyphenNone(groups: seq<string>)
    requires HyphenFreeFrom(groups, 0)
    ensures LastWithHyphen(groups) == None
  {
  }

  /** The registration field: the stripped last parenthesised group holding "-", or "". */
  function RegistrationOf(text: string): (r: string)
    ensures r == "" <==> forall j :: 0 <= j < |ParenGroups(text)| ==> '-' !in ParenGroups(text)[j]
    ensures r != "" ==> '-' in r
  {
    var groups := ParenGroups(text);
    match LastWithHyphen(groups)
    case None => ""
    case Some(i) =>
      StripKeeps(groups[i], '-');
      Strip(groups[i])
  }

  /** extract_plane_and_reg */
  method ExtractPlaneAndReg(text: string) returns (plane: string, reg: string)
    ensures plane == PlaneTypeOf(text)
    ensures reg == RegistrationOf(text)
  {
    plane := "";
    reg := "";
    var m := PlaneTokenMatch(text);
    if m.Some? {
      plane := NormalizePlaneType(m.value);
    }
    var groups := ParenGroups(text);
    var i := |groups|;
    while i > 0
      invariant 0 <= i <= |groups|
      invariant reg == ""
      invariant HyphenFreeFrom(groups, i)
      decreases i
    {
      i := i - 1;
      if '-' in groups[i] {
        LastWithHyphenAt(groups, i);
        reg := Strip(groups[i]);
        return;
      }
      HyphenFreeStep(groups, i);
    }
    LastWithHyphenNone(groups);
  }

  // ---------------------------------------------------------------------
  // parse_raw_lines

  /** One flight as parse_raw_lines stores it. */
  datatype Record = Record(dt: DateTime, time: string, flight: string, dest: string, planeType: string, reg: string)

  /** The fields the try block reads for a time line, all but the date. */
  datatype Entry = Entry(time: string, flight: string, minute: Minute, dest: string, planeType: string, reg: string)

  /** parse_date of every stripped line: the date headers of the input. */
  function Headers(lines: seq<string>): (hs: seq<Option<CalendarDate>>)
    ensures |hs| == |lines|
  {
    seq(|lines|, i requires 0 <= i < |lines| => ParseDate(Strip(lines[i])))
  }

  /**
   * The try block for line i: the TIME_LINE groups of the stripped line, the
   * first parenthesised group of line i + 1 upper-cased, the plane type and
   * registration of line i + 2, and the 12-hour clock time; None where any
   * of these is missing.
   */
  function EntryAt(lines: seq<string>, i: nat): (r: Option<Entry>)
    requires i < |lines|
    ensures r.Some? ==> (i + 2 < |lines| && IsTimeText(r.value.time) && IsFlightCode(r.value.flight)
      && ParseClock12(r.value.time) == Some(r.value.minute))
  {
    match MatchTimeLine(Strip(lines[i]))
    case None => None
    case Some((time, flight)) =>
      if i + 1 >= |lines| then None
      else match FirstParenGroup(lines[i + 1])
        case None => None
        case Some(g) =>
          if i + 2 >= |lines| then None
          else match ParseClock12(time)
            case None => None
            case Some(m) => Some(Entry(time, flight, m, Upper(g), PlaneTypeOf(lines[i + 2]), RegistrationOf(lines[i + 2])))
  }

  /** EntryAt for every line. */
  function Entries(lines: seq<string>): (es: seq<Option<Entry>>)
    ensures |es| == |lines|
  {
    seq(|lines|, i requires 0 <= i < |lines| => EntryAt(lines, i))
  }

  /** The index of the last header among hs[..i]. */
  function LastHeaderBefore(hs: seq<Option<CalendarDate>>, i: nat): (r: Option<nat>)
    requires i <= |hs|
    ensures r.Some? ==> r.value < i && hs[r.value].Some?
    ensures r.Some? ==> forall k :: r.value < k < i ==> hs[k].None?
    ensures r.None? ==> forall k :: 0 <= k < i ==> hs[k].None?
  {
    if i == 0 then None
    else if hs[i - 1].Some? then Some(i - 1)
    else LastHeaderBefore(hs, i - 1)
  }

  /** current_date when the scan reaches line i: the date of the most recent header before it. */
  function DateInScope(hs: seq<Option<CalendarDate>>, i: nat): Option<CalendarDate>
    requires i <= |hs|
  {
    match LastHeaderBefore(hs, i)
    case None => None
    case Some(h) => hs[h]
  }

  /** The record the scan appends at line i: none at a header or before the first one. */
  function RecordAt(hs: seq<Option<CalendarDate>>, es: seq<Option<Entry>>, i: nat): Option<Record>
    requires |hs| == |es| && i < |hs|
  {
    if hs[i].Some? then None
    else match DateInScope(hs, i)
      case None => None
      case Some(d) =>
        match es[i]
        case None => None
        case Some(e) => Some(Record(DateTime(d, e.minute), e.time, e.flight, e.dest, e.planeType, e.reg))
  }

  /** The records appended while scanning the first n lines, in order. */
  function Scan(hs: seq<Option<CalendarDate>>, es: seq<Option<Entry>>, n: nat): seq<Record>
    requires |hs| == |es| && n <= |hs|
  {
    if n == 0 then []
    else Scan(hs, es, n - 1) + match RecordAt(hs, es, n - 1) case None => [] case Some(r) => [r]
  }

  /** The lines among the first n that yield a record, in order. */
  function Origins(hs: seq<Option<CalendarDate>>, es: seq<Option<Entry>>, n: nat): (o: seq<nat>)
    requires |hs| == |es| && n <= |hs|
    ensures forall k :: 0 <= k < |o| ==> o[k] < n && RecordAt(hs, es, o[k]).Some?
    ensures forall k, l :: 0 <= k < l < |o| ==> o[k] < o[l]
    ensures forall i :: 0 <= i < n && RecordAt(hs, es, i).Some? ==> i in o
  {
    if n == 0 then []
    else Origins(hs, es, n - 1) + if RecordAt(hs, es, n - 1).Some? then [n - 1] else []
  }

  /** The records of parse_raw_lines(lines). */
  function ParsedRecords(lines: seq<string>): (rs: seq<Record>)
    ensures |rs| <= |lines|
  {
    ScanAtMostOnePerLine(Headers(lines), Entries(lines), |lines|);
    Scan(Headers(lines), Entries(lines), |lines|)
  }

  /** The scan of n lines yields at most one record per line. */
  lemma {:induction false} ScanAtMostOnePerLine(hs: seq<Option<CalendarDate>>, es: seq<Option<Entry>>, n: nat)
    requires |hs| == |es| && n <= |hs|
    ensures |Scan(hs, es, n)| <= n
  {
    if n > 0 {
      ScanAtMostOnePerLine(hs, es, n - 1);
    }
  }

  /** A header line moves the date in scope to its own date and yields no record. */
  lemma HeaderStep(hs: seq<Option<CalendarDate>>, es: seq<Option<Entry>>, i: nat)
    requires |hs| == |es| && i < |hs| && hs[i].Some?
    ensures DateInScope(hs, i + 1) == hs[i]
    ensures Scan(hs, es, i + 1) == Scan(hs, es, i)
  {
  }

  /** Any other line keeps the date in scope and yields at most its own entry, dated by it. */
  lemma OtherStep(hs: seq<Option<CalendarDate>>, es: seq<Option<Entry>>, i: nat)
    requires |hs| == |es| && i < |hs| && hs[i].None?
    ensures DateInScope(hs, i + 1) == DateInScope(hs, i)
    ensures DateInScope(hs, i).None? || es[i].None? ==> Scan(hs, es, i + 1) == Scan(hs, es, i)
    ensures DateInScope(hs, i).Some? && es[i].Some? ==>
      var d, e := DateInScope(hs, i).value, es[i].value;
      Scan(hs, es, i + 1) == Scan(hs, es, i) + [Record(DateTime(d, e.minute), e.time, e.flight, e.dest, e.planeType, e.reg)]
  {
  }

  /**
   * The part of the loop body of parse_raw_lines after the date checks: the
   * TIME_LINE match of the stripped line and the try block reading the two
   * lines after it.
   */
  method ReadEntry(lines: seq<string>, i: nat) returns (entry: Option<Entry>)
    requires i < |lines|
    ensures entry == EntryAt(lines, i)
  {
    var m := MatchTimeLine(Strip(lines[i]));
    if m.None? {
      return None;
    }
    var (timeStr, flight) := m.value;
    if i + 1 >= |lines| {
      return None;
    }
    var group := FirstParenGroup(lines[i + 1]);
    if group.None? {
      return None;
    }
    if i + 2 >= |lines| {
      return None;
    }
    var dest := Upper(group.value);
    var plane, reg := ExtractPlaneAndReg(lines[i + 2]);
    var minute := ParseClock12(timeStr);
    if minute.None? {
      return None;
    }
    entry := Some(Entry(timeStr, flight, minute.value, dest, plane, reg));
  }

  /**
   * hs and es hold, line by line, the header date and the flight entry read at that line.
   * The triggers keep the link from unfolding every line's parse at once.
   */
  ghost predicate Linked(lines: seq<string>, hs: seq<Option<CalendarDate>>, es: seq<Option<Entry>>)
  {
    |hs| == |lines| && |es| == |lines| &&
    (forall k {:trigger ParseDate(Strip(lines[k]))} :: 0 <= k < |lines| ==> hs[k] == ParseDate(Strip(lines[k]))) &&
    (forall k {:trigger EntryAt(lines, k)} :: 0 <= k < |lines| ==> es[k] == EntryAt(lines, k))
  }

  lemma LineViews(lines: seq<string>) returns (hs: seq<Option<CalendarDate>>, es: seq<Option<Entry>>)
    ensures Linked(lines, hs, es)
  {
    hs, es := Headers(lines), Entries(lines);
  }

  lemma LinkedViews(lines: seq<string>, hs: seq<Option<CalendarDate>>, es: seq<Option<Entry>>)
    requires Linked(lines, hs, es)
    ensures hs == Headers(lines) && es == Entries(lines)
  {
    var hs', es' := Headers(lines), Entries(lines);
    forall k | 0 <= k < |lines| ensures hs[k] == hs'[k] {
      assert hs[k] == ParseDate(Strip(lines[k]));
    }
    forall k | 0 <= k < |lines| ensures es[k] == es'[k] {
      assert es[k] == EntryAt(lines, k);
    }
  }

  /** One pass of the loop body: reads line i and moves the date in scope and the records on past it. */
  method ScanLine(lines: seq<string>, ghost hs: seq<Option<CalendarDate>>, ghost es: seq<Option<Entry>>, i: nat,
                  currentDate: Option<CalendarDate>, records: seq<Record>)
    returns (date': Option<CalendarDate>, records': seq<Record>)
    requires Linked(lines, hs, es) && i < |lines|
    requires currentDate == DateInScope(hs, i) && records == Scan(hs, es, i)
    ensures date' == DateInScope(hs, i + 1) && records' == Scan(hs, es, i + 1)
  {
    date', records' := currentDate, records;
    var d := ParseDate(Strip(lines[i]));
    if d.Some? {
      HeaderStep(hs, es, i);
      date' := d;
      return;
    }
    OtherStep(hs, es, i);
    if currentDate.None? {
      return;
    }
    var entry := ReadEntry(lines, i);
    if entry.None? {
      return;
    }
    var e := entry.value;
    records' := records + [Record(DateTime(currentDate.value, e.minute), e.time, e.flight, e.dest, e.planeType, e.reg)];
  }

  /** parse_raw_lines */
  method ParseRawLines(lines: seq<string>) returns (records: seq<Record>)
    ensures records == ParsedRecords(lines)
  {
    ghost var hs, es := LineViews(lines);
    records := [];
    var currentDate: Option<CalendarDate> := None;
    for i := 0 to |lines|
      invariant currentDate == DateInScope(hs, i)
      invariant records == Scan(hs, es, i)
    {
      currentDate, records := ScanLine(lines, hs, es, i, currentDate, records);
    }
    LinkedViews(lines, hs, es);
  }

  /** The records come one per line, in line order, from the lines Origins lists. */
  lemma {:induction false} RecordsInLineOrder(hs: seq<Option<CalendarDate>>, es: seq<Option<Entry>>, n: nat)
    requires |hs| == |es| && n <= |hs|
    ensures |Scan(hs, es, n)| == |Origins(hs, es, n)|
    ensures forall k :: 0 <= k < |Origins(hs, es, n)| ==>
      Some(Scan(hs, es, n)[k]) == RecordAt(hs, es, Origins(hs, es, n)[k])
  {
    if n > 0 {
      RecordsInLineOrder(hs, es, n - 1);
      var prev, o := Scan(hs, es, n - 1), Origins(hs, es, n - 1);
      match RecordAt(hs, es, n - 1)
      case None =>
        assert Scan(hs, es, n) == prev && Origins(hs, es, n) == o;
      case Some(r) =>
        assert Scan(hs, es, n) == prev + [r] && Origins(hs, es, n) == o + [n - 1];
    }
  }

  /** No record is produced before the first header. */
  lemma {:induction false} NoRecordBeforeFirstHeader(hs: seq<Option<CalendarDate>>, es: seq<Option<Entry>>, n: nat)
    requires |hs| == |es| && n <= |hs|
    requires forall k :: 0 <= k < n ==> hs[k].None?
    ensures Scan(hs, es, n) == []
  {
    if n > 0 {
      NoRecordBeforeFirstHeader(hs, es, n - 1);
    }
  }

  /**
   * A record at line i is the entry read there, dated by the most recent
   * header before i, and line i is itself no header.
   */
  lemma RecordAtSpec(hs: seq<Option<CalendarDate>>, es: seq<Option<Entry>>, i: nat)
    requires |hs| == |es| && i < |hs|
    ensures RecordAt(hs, es, i).Some? <==> hs[i].None? && LastHeaderBefore(hs, i).Some? && es[i].Some?
    ensures RecordAt(hs, es, i).Some? ==>
      var r, e, h := RecordAt(hs, es, i).value, es[i].value, LastHeaderBefore(hs, i).value;
      && hs[h] == Some(r.dt.date) && (forall k :: h < k < i ==> hs[k].None?)
      && r == Record(DateTime(r.dt.date, e.minute), e.time, e.flight, e.dest, e.planeType, e.reg)
  {
  }

  /** What an entry read at line i says about the lines around it. */
  lemma EntryAtSpec(lines: seq<string>, i: nat)
    requires i < |lines| && EntryAt(lines, i).Some?
    ensures var e := EntryAt(lines, i).value;
      && i + 2 < |lines|
      && Strip(lines[i]) == e.time + "\t" + e.flight
      && IsTimeText(e.time) && IsFlightCode(e.flight)
      && ParseClock12(e.time) == Some(e.minute)
      && FirstParenGroup(lines[i + 1]).Some?
      && e.dest == Upper(FirstParenGroup(lines[i + 1]).value)
      && e.planeType == PlaneTypeOf(lines[i + 2]) && e.reg == RegistrationOf(lines[i + 2])
  {
    var t := Strip(lines[i]);
    assert MatchTimeLine(t) == SplitTimeLine(t) by {
      if |t| > 0 {
        assert !IsSpace(t[|t| - 1]);
      }
    }
  }

  /** A time line is read whenever its block is complete and its time is a 12-hour clock time. */
  lemma EntryAtAccepts(lines: seq<string>, i: nat, x: string, f: string, g: string, m: Minute)
    requires i + 2 < |lines|
    requires Strip(lines[i]) == x + "\t" + f && IsTimeText(x) && IsFlightCode(f)
    requires FirstParenGroup(lines[i + 1]) == Some(g)
    requires ParseClock12(x) == Some(m)
    ensures EntryAt(lines, i) == Some(Entry(x, f, m, Upper(g), PlaneTypeOf(lines[i + 2]), RegistrationOf(lines[i + 2])))
  {
    MatchTimeLineAccepts(x, f);
  }

  /** Every record the scan produces is dated by one of the headers. */
  lemma {:induction false} RecordsDatedByHeaders(hs: seq<Option<CalendarDate>>, es: seq<Option<Entry>>, n: nat)
    requires |hs| == |es| && n <= |hs|
    ensures forall k :: 0 <= k < |Scan(hs, es, n)| ==> Some(Scan(hs, es, n)[k].dt.date) in hs
  {
    if n > 0 {
      RecordsDatedByHeaders(hs, es, n - 1);
    }
  }

  /** Every parsed record is dated in YEAR. */
  lemma ParsedRecordsInYear(lines: seq<string>)
    ensures forall k :: 0 <= k < |ParsedRecords(lines)| ==> ParsedRecords(lines)[k].dt.date.year == Year
  {
    var hs, es := LineViews(lines);
    RecordsDatedByHeaders(hs, es, |lines|);
    forall d | Some(d) in hs ensures d.year == Year {
      var k :| 0 <= k < |hs| && hs[k] == Some(d);
      assert hs[k] == ParseDate(Strip(lines[k]));
    }
    LinkedViews(lines, hs, es);
  }

  /**
   * The k-th record is read from the line i that Origins lists for it, and
   * its date is that of the most recent header h before i. hs and es are the per-line views of
   * lines (LineViews; by LinkedViews they are Headers(lines) and Entries(lines)).
   */
  lemma ParsedRecordOrigin(lines: seq<string>, hs: seq<Option<CalendarDate>>, es: seq<Option<Entry>>, k: nat)
    requires Linked(lines, hs, es) && k < |Scan(hs, es, |lines|)|
    ensures k < |Origins(hs, es, |lines|)|
    ensures var i, r := Origins(hs, es, |lines|)[k], Scan(hs, es, |lines|)[k];
      && ReadFromLines(lines, i, r)
      && exists h :: 0 <= h < i && hs[h] == Some(r.dt.date) && forall j :: h < j < i ==> hs[j].None?
  {
    var n := |lines|;
    RecordFromEntry(hs, es, n, k);
    var i := Origins(hs, es, n)[k];
    assert es[i] == EntryAt(lines, i);
    assert hs[i] == ParseDate(Strip(lines[i]));
    EntryReadFromLines(lines, i, es[i].value, Scan(hs, es, n)[k]);
  }

  /** A record built from the entry read at a line that is no header is read from the lines. */
  lemma EntryReadFromLines(lines: seq<string>, i: nat, e: Entry, r: Record)
    requires i < |lines| && EntryAt(lines, i) == Some(e) && ParseDate(Strip(lines[i])).None?
    requires r == Record(DateTime(r.dt.date, e.minute), e.time, e.flight, e.dest, e.planeType, e.reg)
    ensures ReadFromLines(lines, i, r)
  {
    EntryAtSpec(lines, i);
  }

  /**
   * Line i is no header and reads as record r: the stripped line is r's time
   * and flight, the line after holds its destination, the one after that its
   * aircraft and registration, and its clock time is what fmt_time makes of
   * its time text.
   */
  predicate ReadFromLines(lines: seq<string>, i: nat, r: Record) {
    && i + 2 < |lines|
    && ParseDate(Strip(lines[i])).None?
    && Strip(lines[i]) == r.time + "\t" + r.flight && IsTimeText(r.time) && IsFlightCode(r.flight)
    && ParseClock12(r.time) == Some(r.dt.minute) && FmtTime(r.time) == Some(Hhmm(r.dt.minute))
    && FirstParenGroup(lines[i + 1]).Some? && r.dest == Upper(FirstParenGroup(lines[i + 1]).value)
    && r.planeType == PlaneTypeOf(lines[i + 2]) && r.reg == RegistrationOf(lines[i + 2])
  }

  /** The k-th record is the entry of its origin line, dated by the last header before that line. */
  lemma RecordFromEntry(hs: seq<Option<CalendarDate>>, es: seq<Option<Entry>>, n: nat, k: nat)
    requires |hs| == |es| && n <= |hs| && k < |Scan(hs, es, n)|
    ensures k < |Origins(hs, es, n)|
    ensures var i, r := Origins(hs, es, n)[k], Scan(hs, es, n)[k];
      && i < n && hs[i].None? && es[i].Some?
      && var e := es[i].value;
      && r == Record(DateTime(r.dt.date, e.minute), e.time, e.flight, e.dest, e.planeType, e.reg)
      && exists h :: 0 <= h < i && hs[h] == Some(r.dt.date) && forall j :: h < j < i ==> hs[j].None?
  {
    RecordsInLineOrder(hs, es, n);
    var i := Origins(hs, es, n)[k];
    RecordAtSpec(hs, es, i);
    var h := LastHeaderBefore(hs, i).value;
  }
}
