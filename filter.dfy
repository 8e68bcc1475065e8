// filter_records: the window between the first two dates of the parsed
// records, the records kept inside it, and their order.

module Filter {
  import opened Wrappers
  import opened Calendar
  import opened Clock
  import opened Patterns
  import opened Parser

  // ---------------------------------------------------------------------
  // The dates the records fall on

  predicate OnSomeRecord(rs: seq<Record>, d: CalendarDate) {
    exists i :: 0 <= i < |rs| && rs[i].dt.date == d
  }

  /** dates[0]: the earliest date a record falls on. */
  function EarliestDate(rs: seq<Record>): (d: CalendarDate)
    requires |rs| > 0
    ensures OnSomeRecord(rs, d)
    ensures forall i :: 0 <= i < |rs| ==> AtOrBefore(d, rs[i].dt.date)
  {
    if |rs| == 1 then rs[0].dt.date
    else
      var rest := EarliestDate(rs[1..]);
      assert forall i :: 1 <= i < |rs| ==> rs[i] == rs[1..][i - 1];
      if Before(rs[0].dt.date, rest) then rs[0].dt.date else rest
  }

  /** The earliest date a record falls on that is later than d, if there is one. */
  function NextDateAfter(rs: seq<Record>, d: CalendarDate): (r: Option<CalendarDate>)
    ensures r.None? <==> forall i :: 0 <= i < |rs| ==> AtOrBefore(rs[i].dt.date, d)
    ensures r.Some? ==> Before(d, r.value) && OnSomeRecord(rs, r.value)
    ensures r.Some? ==> forall i :: 0 <= i < |rs| && Before(d, rs[i].dt.date) ==> AtOrBefore(r.value, rs[i].dt.date)
  {
    if |rs| == 0 then None
    else
      var rest := NextDateAfter(rs[1..], d);
      assert forall i :: 1 <= i < |rs| ==> rs[i] == rs[1..][i - 1];
      var x := rs[0].dt.date;
      if !Before(d, x) then rest
      else if rest.None? || Before(x, rest.value) then Some(x)
      else rest
  }

  // ---------------------------------------------------------------------
  // The test `valid` applies to each record

  datatype Window = Window(start: DateTime, end: DateTime)

  /** s[:2]: the first two characters, or the whole string when it is shorter. */
  function Prefix2(s: string): (p: string)
    ensures |p| == if |s| < 2 then |s| else 2
    ensures p <= s
  {
    if |s| < 2 then s else s[..2]
  }

  /** valid(r): an allowed airline, an international destination, inside the window. */
  predicate Keep(r: Record, w: Window)
    ensures Keep(r, w) ==> |r.flight| >= 2 && r.flight[..2] in AllowedAirlines
  {
    Prefix2(r.flight) in AllowedAirlines
    && r.dest !in NzDomesticIata
    && NotAfter(w.start, r.dt) && NotAfter(r.dt, w.end)
  }

  /**
   * filter(valid, records): every record the test keeps, as often as it
   * occurs, and nothing else.
   */
  function Select(rs: seq<Record>, w: Window): (kept: seq<Record>)
    ensures |kept| <= |rs|
    ensures forall x :: multiset(kept)[x] == if Keep(x, w) then multiset(rs)[x] else 0
    ensures forall x :: x in kept <==> x in rs && Keep(x, w)
  {
    if |rs| == 0 then []
    else
      assert rs == [rs[0]] + rs[1..];
      (if Keep(rs[0], w) then [rs[0]] else []) + Select(rs[1..], w)
  }

  /** The indices j >= i of the records the test keeps, in increasing order. */
  function KeptFrom(rs: seq<Record>, w: Window, i: nat): (idx: seq<nat>)
    requires i <= |rs|
    ensures forall k :: 0 <= k < |idx| ==> i <= idx[k] < |rs| && Keep(rs[idx[k]], w)
    ensures forall k, l :: 0 <= k < l < |idx| ==> idx[k] < idx[l]
    ensures forall j :: i <= j < |rs| && Keep(rs[j], w) ==> j in idx
    decreases |rs| - i
  {
    if i == |rs| then []
    else (if Keep(rs[i], w) then [i] else []) + KeptFrom(rs, w, i + 1)
  }

  /** filter keeps the input order: the k-th kept record is the k-th record the test accepts. */
  lemma {:induction false} SelectInOrder(rs: seq<Record>, w: Window, i: nat)
    requires i <= |rs|
    ensures IndexedBy(rs, Select(rs[i..], w), KeptFrom(rs, w, i))
    decreases |rs| - i
  {
    if i < |rs| {
      var sel, idx := Select(rs[i + 1..], w), KeptFrom(rs, w, i + 1);
      SelectInOrder(rs, w, i + 1);
      SelectFrom(rs, w, i);
      if Keep(rs[i], w) {
        KeptCons(rs, i, sel, idx);
        assert Select(rs[i..], w) == [rs[i]] + sel && KeptFrom(rs, w, i) == [i] + idx;
      } else {
        assert Select(rs[i..], w) == sel && KeptFrom(rs, w, i) == idx;
      }
    } else {
      assert rs[i..] == [];
    }
  }


  lemma ConcatAssoc(x: seq<Record>, y: seq<Record>, z: seq<Record>)
    ensures x + (y + z) == (x + y) + z
  {
  }

  lemma SelectCons(rs: seq<Record>, w: Window)
    requires |rs| > 0
    ensures Select(rs, w) == (if Keep(rs[0], w) then [rs[0]] else []) + Select(rs[1..], w)
  {
  }

  lemma SelectFrom(rs: seq<Record>, w: Window, i: nat)
    requires i < |rs|
    ensures Select(rs[i..], w) == (if Keep(rs[i], w) then [rs[i]] else []) + Select(rs[i + 1..], w)
  {
    assert rs[i..][0] == rs[i] && rs[i..][1..] == rs[i + 1..];
  }

  /**
   * filter(valid, records) keeps the input order: the k-th kept record is
   * the record at the k-th index the test accepts, the indices increasing
   * and covering every accepted record.
   */
  lemma SelectKeepsOrder(rs: seq<Record>, w: Window)
    ensures |Select(rs, w)| == |KeptFrom(rs, w, 0)|
    ensures forall k :: 0 <= k < |KeptFrom(rs, w, 0)| ==> Select(rs, w)[k] == rs[KeptFrom(rs, w, 0)[k]]
  {
    SelectInOrder(rs, w, 0);
    assert rs[0..] == rs;
  }

  /** sel[k] is the record at index idx[k] of rs, for every k. */
  predicate IndexedBy(rs: seq<Record>, sel: seq<Record>, idx: seq<nat>) {
    |sel| == |idx| && forall k :: 0 <= k < |idx| ==> idx[k] < |rs| && sel[k] == rs[idx[k]]
  }

  /** Putting record i and its index in front of matching lists keeps them matching. */
  lemma KeptCons(rs: seq<Record>, i: nat, sel: seq<Record>, idx: seq<nat>)
    requires i < |rs| && IndexedBy(rs, sel, idx)
    ensures IndexedBy(rs, [rs[i]] + sel, [i] + idx)
  {
    var sel', idx' := [rs[i]] + sel, [i] + idx;
    assert sel'[0] == rs[i] && idx'[0] == i;
    forall k | 0 < k < |idx'| ensures idx'[k] < |rs| && sel'[k] == rs[idx'[k]] {
      assert sel'[k] == sel[k - 1] && idx'[k] == idx[k - 1];
    }
  }

  /** The records at one date-time that filter keeps are those it keeps among the records at it. */
  lemma {:induction false} SelectAtTime(rs: seq<Record>, w: Window, t: DateTime)
    ensures AtTime(Select(rs, w), t) == Select(AtTime(rs, t), w)
  {
    if |rs| > 0 {
      SelectAtTime(rs[1..], w, t);
      var head := if Keep(rs[0], w) then [rs[0]] else [];
      AtTimeAppend(head, Select(rs[1..], w), t);
      var at := if rs[0].dt == t then [rs[0]] else [];
      assert AtTime(rs, t) == at + AtTime(rs[1..], t);
      SelectAppend(at, AtTime(rs[1..], t), w);
    }
  }

  lemma {:induction false} SelectAppend(a: seq<Record>, b: seq<Record>, w: Window)
    ensures Select(a + b, w) == Select(a, w) + Select(b, w)
  {
    if |a| > 0 {
      assert (a + b)[0] == a[0] && (a + b)[1..] == a[1..] + b;
      SelectAppend(a[1..], b, w);
      SelectCons(a + b, w);
      SelectCons(a, w);
      var head := if Keep(a[0], w) then [a[0]] else [];
      ConcatAssoc(head, Select(a[1..], w), Select(b, w));
    } else {
      assert a + b == b;
    }
  }

  // ---------------------------------------------------------------------
  // sorted(..., key=lambda r: r["dt"]): a stable sort on the datetime

  predicate SortedByTime(s: seq<Record>) {
    forall i, j :: 0 <= i < j < |s| ==> NotAfter(s[i].dt, s[j].dt)
  }

  /** The records at datetime t, in their order: what a stable sort leaves in place. */
  function AtTime(s: seq<Record>, t: DateTime): (r: seq<Record>)
    ensures forall x :: x in r <==> x in s && x.dt == t
  {
    if |s| == 0 then [] else (if s[0].dt == t then [s[0]] else []) + AtTime(s[1..], t)
  }

  lemma {:induction false} AtTimeAppend(a: seq<Record>, b: seq<Record>, t: DateTime)
    ensures AtTime(a + b, t) == AtTime(a, t) + AtTime(b, t)
  {
    if |a| > 0 {
      assert (a + b)[1..] == a[1..] + b;
      AtTimeAppend(a[1..], b, t);
    } else {
      assert a + b == b;
    }
  }

  /** x goes before the first record strictly later than it, so after those that tie with it. */
  function Insert(x: Record, ys: seq<Record>): (r: seq<Record>)
    ensures |r| == |ys| + 1
    ensures multiset(r) == multiset(ys) + multiset{x}
  {
    if |ys| == 0 then [x]
    else if Earlier(x.dt, ys[0].dt) then [x] + ys
    else
      assert ys == [ys[0]] + ys[1..];
      [ys[0]] + Insert(x, ys[1..])
  }

  function SortByTime(xs: seq<Record>): (r: seq<Record>)
    ensures |r| == |xs|
    ensures multiset(r) == multiset(xs)
  {
    if |xs| == 0 then []
    else
      assert xs == xs[..|xs| - 1] + [xs[|xs| - 1]];
      Insert(xs[|xs| - 1], SortByTime(xs[..|xs| - 1]))
  }

  predicate NoneBefore(t: DateTime, s: seq<Record>) {
    forall i :: 0 <= i < |s| ==> NotAfter(t, s[i].dt)
  }

  lemma {:induction false} InsertNoneBefore(t: DateTime, x: Record, ys: seq<Record>)
    requires NoneBefore(t, ys) && NotAfter(t, x.dt)
    ensures NoneBefore(t, Insert(x, ys))
  {
    if |ys| > 0 && !Earlier(x.dt, ys[0].dt) {
      InsertNoneBefore(t, x, ys[1..]);
    }
  }

  lemma {:induction false} InsertSorted(x: Record, ys: seq<Record>)
    requires SortedByTime(ys)
    ensures SortedByTime(Insert(x, ys))
  {
    if |ys| > 0 && !Earlier(x.dt, ys[0].dt) {
      InsertSorted(x, ys[1..]);
      InsertNoneBefore(ys[0].dt, x, ys[1..]);
      var tail := Insert(x, ys[1..]);
      var r := [ys[0]] + tail;
      assert forall j :: 0 < j < |r| ==> r[j] == tail[j - 1];
    }
  }

  lemma {:induction false} InsertStable(x: Record, ys: seq<Record>, t: DateTime)
    requires SortedByTime(ys)
    ensures AtTime(Insert(x, ys), t) == AtTime(ys, t) + AtTime([x], t)
  {
    if |ys| == 0 {
    } else if Earlier(x.dt, ys[0].dt) {
      InsertedFirst(x, ys, t);
    } else {
      assert ([ys[0]] + Insert(x, ys[1..]))[1..] == Insert(x, ys[1..]);
      InsertStable(x, ys[1..], t);
    }
  }

  /** x goes in front of records all strictly later than it, so none ties with it. */
  lemma InsertedFirst(x: Record, ys: seq<Record>, t: DateTime)
    requires SortedByTime(ys) && |ys| > 0 && Earlier(x.dt, ys[0].dt)
    ensures AtTime([x] + ys, t) == AtTime(ys, t) + AtTime([x], t)
  {
    assert ([x] + ys)[1..] == ys;
    if x.dt == t {
      forall i | 0 <= i < |ys| ensures ys[i].dt != t {
        assert NotAfter(ys[0].dt, ys[i].dt);
      }
      AtTimeAbsent(ys, t);
    }
  }

  lemma {:induction false} AtTimeAbsent(s: seq<Record>, t: DateTime)
    requires forall i :: 0 <= i < |s| ==> s[i].dt != t
    ensures AtTime(s, t) == []
  {
    if |s| > 0 {
      assert forall i :: 0 <= i < |s| - 1 ==> s[1..][i] == s[i + 1];
      AtTimeAbsent(s[1..], t);
    }
  }

  /** The sort's partner, with the multiset fact of its contract: ordered by time. */
  lemma {:induction false} SortByTimeSorted(xs: seq<Record>)
    ensures SortedByTime(SortByTime(xs))
  {
    if |xs| > 0 {
      var init := xs[..|xs| - 1];
      SortByTimeSorted(init);
      InsertSorted(xs[|xs| - 1], SortByTime(init));
    }
  }

  /** And stable: the records that tie on a datetime keep their order. */
  lemma {:induction false} SortByTimeStable(xs: seq<Record>, t: DateTime)
    ensures AtTime(SortByTime(xs), t) == AtTime(xs, t)
  {
    if |xs| > 0 {
      var init, last := xs[..|xs| - 1], xs[|xs| - 1];
      SortByTimeStable(init, t);
      SortByTimeSorted(init);
      InsertStable(last, SortByTime(init), t);
      SplitLast(xs);
      AtTimeAppend(init, [last], t);
    }
  }

  lemma SplitLast(xs: seq<Record>)
    requires |xs| > 0
    ensures xs == xs[..|xs| - 1] + [xs[|xs| - 1]]
  {
  }

  // ---------------------------------------------------------------------
  // filter_records

  datatype FilterError = InvalidTimeFormat | DateOutOfRange

  /**
   * The kept records and the (start_dt, end_dt) window; no window for no
   * records. Failed stands for the exception the source lets escape: the
   * ValueError of a time that is not HH:MM, or the OverflowError of the day
   * after 9999-12-31.
   */
  datatype FilterResult = Filtered(kept: seq<Record>, window: Option<Window>) | Failed(error: FilterError)

  /**
   * dates[1] if there are two dates, else the day after dates[0]: always a
   * later date than dates[0], a record's date or the day after dates[0].
   */
  function EndDate(rs: seq<Record>): (r: Option<CalendarDate>)
    requires |rs| > 0
    ensures r.Some? ==> Before(EarliestDate(rs), r.value)
    ensures r.Some? ==> OnSomeRecord(rs, r.value) || Some(r.value) == NextDay(EarliestDate(rs))
  {
    var first := EarliestDate(rs);
    match NextDateAfter(rs, first)
    case Some(d) => Some(d)
    case None => NextDay(first)
  }

  function FilterRecords(records: seq<Record>, startHm: string, endHm: string): (r: FilterResult)
    ensures r.Filtered? ==> |r.kept| <= |records|
  {
    if |records| == 0 then Filtered([], None)
    else match ParseHm(startHm)
      case None => Failed(InvalidTimeFormat)
      case Some(sm) =>
        match EndDate(records)
        case None => Failed(DateOutOfRange)
        case Some(ed) =>
          match ParseHm(endHm)
          case None => Failed(InvalidTimeFormat)
          case Some(em) =>
            var w := Window(DateTime(EarliestDate(records), sm), DateTime(ed, em));
            Filtered(SortByTime(Select(records, w)), Some(w))
  }

  /** No records: nothing kept and no window, whatever the times say. */
  lemma FilterNoRecords(startHm: string, endHm: string)
    ensures FilterRecords([], startHm, endHm) == Filtered([], None)
  {
  }

  /**
   * The window starts at start_hm on the earliest date and ends at end_hm on
   * the next date a record falls on, or on the day after when all fall on one
   * date; the end date is always later than the start date.
   */
  lemma FilterWindow(records: seq<Record>, startHm: string, endHm: string)
    requires FilterRecords(records, startHm, endHm).Filtered? && |records| > 0
    ensures var r := FilterRecords(records, startHm, endHm);
      r.window.Some? &&
      var w := r.window.value;
      OnSomeRecord(records, w.start.date)
      && (forall i :: 0 <= i < |records| ==> AtOrBefore(w.start.date, records[i].dt.date))
      && Some(w.start.minute) == ParseHm(startHm) && Some(w.end.minute) == ParseHm(endHm)
      && Before(w.start.date, w.end.date) && Earlier(w.start, w.end)
      && (if exists i :: 0 <= i < |records| && records[i].dt.date != w.start.date
          then OnSomeRecord(records, w.end.date)
            && forall i :: 0 <= i < |records| && Before(w.start.date, records[i].dt.date) ==>
                 AtOrBefore(w.end.date, records[i].dt.date)
          else Some(w.end.date) == NextDay(w.start.date))
  {
    var first := EarliestDate(records);
    if exists i :: 0 <= i < |records| && records[i].dt.date != first {
      var i :| 0 <= i < |records| && records[i].dt.date != first;
      assert !AtOrBefore(records[i].dt.date, first);
    }
  }

  /** The kept records are exactly those the test accepts, sorted by time, ties in input order. */
  lemma FilterKept(records: seq<Record>, startHm: string, endHm: string)
    requires FilterRecords(records, startHm, endHm).Filtered? && |records| > 0
    ensures var r := FilterRecords(records, startHm, endHm);
      r.window.Some? &&
      var kept, w := r.kept, r.window.value;
      SortedByTime(kept)
      && (forall x :: multiset(kept)[x] == if Keep(x, w) then multiset(records)[x] else 0)
      && (forall x :: x in kept <==> x in records && Keep(x, w))
      && (forall t :: AtTime(kept, t) == Select(AtTime(records, t), w))
  {
    FilteredShape(records, startHm, endHm);
    SelectionSorted(records, FilterRecords(records, startHm, endHm).window.value);
  }

  lemma SelectionSorted(records: seq<Record>, w: Window)
    ensures var kept := SortByTime(Select(records, w));
      SortedByTime(kept)
      && (forall x :: multiset(kept)[x] == if Keep(x, w) then multiset(records)[x] else 0)
      && (forall x :: x in kept <==> x in records && Keep(x, w))
      && (forall t :: AtTime(kept, t) == Select(AtTime(records, t), w))
  {
    var sel := Select(records, w);
    SortByTimeSorted(sel);
    forall t ensures AtTime(SortByTime(sel), t) == Select(AtTime(records, t), w) {
      SortByTimeStable(sel, t);
      SelectAtTime(records, w, t);
    }
    forall x ensures x in SortByTime(sel) <==> x in records && Keep(x, w) {
      assert x in SortByTime(sel) <==> x in multiset(sel);
    }
  }

  /** A successful call with records keeps the sorted selection of its window. */
  lemma FilteredShape(records: seq<Record>, startHm: string, endHm: string)
    requires FilterRecords(records, startHm, endHm).Filtered? && |records| > 0
    ensures ParseHm(startHm).Some? && EndDate(records).Some? && ParseHm(endHm).Some?
    ensures var w := Window(DateTime(EarliestDate(records), ParseHm(startHm).value),
                            DateTime(EndDate(records).value, ParseHm(endHm).value));
      FilterRecords(records, startHm, endHm) == Filtered(SortByTime(Select(records, w)), Some(w))
  {
  }

  /** When the call fails, and with which error, in the order the source evaluates. */
  lemma FilterFails(records: seq<Record>, startHm: string, endHm: string)
    ensures var r := FilterRecords(records, startHm, endHm);
      r.Failed? <==> |records| > 0 && (!ValidHm(startHm) || EndDate(records).None? || !ValidHm(endHm))
    ensures var r := FilterRecords(records, startHm, endHm);
      r == Failed(InvalidTimeFormat) <==>
        |records| > 0 && (!ValidHm(startHm) || (EndDate(records).Some? && !ValidHm(endHm)))
  {
  }

  /** The day after cannot be out of range: only when every record falls on 9999-12-31 is there none. */
  lemma EndDateNone(rs: seq<Record>)
    requires |rs| > 0
    ensures EndDate(rs).None? <==> forall i :: 0 <= i < |rs| ==> rs[i].dt.date == Date(MaxYear, 12, 31)
  {
    var first := EarliestDate(rs);
    if EndDate(rs).None? {
      forall i | 0 <= i < |rs| ensures rs[i].dt.date == Date(MaxYear, 12, 31) {
        assert AtOrBefore(rs[i].dt.date, first) && AtOrBefore(first, rs[i].dt.date);
      }
    } else if forall i :: 0 <= i < |rs| ==> rs[i].dt.date == Date(MaxYear, 12, 31) {
      var i :| 0 <= i < |rs| && rs[i].dt.date == first;
    }
  }

  /**
   * Records read from the pasted text all fall in 2026, so the overflow never
   * happens: with both times HH:MM, filtering them never fails.
   */
  lemma ParsedRecordsFilter(lines: seq<string>, startHm: string, endHm: string)
    requires ValidHm(startHm) && ValidHm(endHm)
    ensures FilterRecords(ParsedRecords(lines), startHm, endHm).Filtered?
  {
    var rs := ParsedRecords(lines);
    ParsedRecordsInYear(lines);
    if |rs| > 0 {
      EndDateNone(rs);
      assert rs[0].dt.date.year == Year;
    }
  }
}
