/**
 * Clock-time parsing and formatting with datetime.strptime / strftime:
 * the 12-hour "%I:%M %p" texts of the schedule (fmt_time), the 24-hour
 * "%H:%M" settings (valid_hm), and the "%H:%M" rendering.
 *
 * strptime turns each directive into a fixed regular expression, matches
 * case-insensitively from the start and fails unless the whole text is
 * consumed: %I is `1[0-2]|0[1-9]|[1-9]`, %H is `2[0-3]|[0-1]\d|\d`, %M is
 * `[0-5]\d|\d`, %p is `am|pm`, and a blank in the format is `\s+`.
 */
module Clock {
  import opened Wrappers
  import opened Text
  import opened Calendar

  /** The fields strptime reads from "%I:%M %p". */
  datatype Clock12 = Clock12(hour: int, minute: int, pm: bool)

  /** A %M field: one digit, or two digits whose first is at most 5. */
  predicate IsMinuteField(s: string) {
    AllDigits(s) && (|s| == 1 || (|s| == 2 && s[0] <= '5'))
  }

  /** A one- or two-digit hour field followed by ':' starts the text; its end. */
  function HourFieldEnd(t: string): (c: nat)
    ensures c <= 2 && c <= |t|
    ensures AllDigits(t[..c])
  {
    var c := Span(t, 0, IsDigit);
    if 1 <= c <= 2 && c < |t| && t[c] == ':' then c else 0
  }

  /** strptime(t, "%I:%M %p"), up to building the time. */
  function SplitClock12(t: string): (r: Option<Clock12>)
    ensures r.Some? ==> 1 <= r.value.hour <= 12 && 0 <= r.value.minute < 60
  {
    var c := HourFieldEnd(t);
    if c == 0 then None
    else
      var h := DigitsValue(t[..c]);
      match MinuteAndMeridiem(t[c + 1..])
      case None => None
      case Some((minute, pm)) => if 1 <= h <= 12 then Some(Clock12(h, minute, pm)) else None
  }

  /** The "%M %p" part that follows the colon: the minute and whether it is PM. */
  function MinuteAndMeridiem(u: string): (r: Option<(int, bool)>)
    ensures r.Some? ==> 0 <= r.value.0 < 60
  {
    var e := Span(u, 0, IsDigit);
    var w := Span(u, e, IsSpace);
    if !IsMinuteField(u[..e]) || w == e then None
    else if Lower(u[w..]) == "am" then Some((DigitsValue(u[..e]), false))
    else if Lower(u[w..]) == "pm" then Some((DigitsValue(u[..e]), true))
    else None
  }

  /** The 24-hour reading of a 12-hour time: 12 AM is hour 0, 12 PM is hour 12. */
  function To24(c: Clock12): (m: Minute)
    requires 1 <= c.hour <= 12 && 0 <= c.minute < 60
    ensures m == (c.hour % 12 + (if c.pm then 12 else 0)) * 60 + c.minute
  {
    var hour :=
      if !c.pm then (if c.hour == 12 then 0 else c.hour)
      else (if c.hour == 12 then 12 else c.hour + 12);
    hour * 60 + c.minute
  }

  /**
   * strptime(t, "%I:%M %p") as a minute of the day, or None where it raises
   * ValueError: the minute is the minute field, the hour agrees with the
   * 12-hour field modulo 12, and the time lies in the afternoon exactly for PM.
   */
  function ParseClock12(t: string): (r: Option<Minute>)
    ensures r.Some? <==> SplitClock12(t).Some?
    ensures r.Some? ==> var c := SplitClock12(t).value;
      r.value % 60 == c.minute && (r.value / 60) % 12 == c.hour % 12 && (12 * 60 <= r.value <==> c.pm)
  {
    match SplitClock12(t)
    case None => None
    case Some(c) =>
      To24Fields(c);
      Some(To24(c))
  }

  /** The 24-hour reading keeps the minute, the hour modulo 12, and puts exactly PM in the afternoon. */
  lemma To24Fields(c: Clock12)
    requires 1 <= c.hour <= 12 && 0 <= c.minute < 60
    ensures var m := To24(c);
      m % 60 == c.minute && (m / 60) % 12 == c.hour % 12 && (12 * 60 <= m <==> c.pm)
  {
    var h := c.hour % 12 + (if c.pm then 12 else 0);
    HourAndMinute(h, c.minute);
  }

  lemma HourAndMinute(h: int, minute: int)
    requires 0 <= h < 24 && 0 <= minute < 60
    ensures (h * 60 + minute) / 60 == h && (h * 60 + minute) % 60 == minute
  {
  }

  /** strftime("%H:%M") */
  function Hhmm(m: Minute): (s: string)
    ensures |s| == 5 && s[2] == ':'
  {
    TwoDigits(m / 60) + ":" + TwoDigits(m % 60)
  }

  /**
   * fmt_time: None where strptime raises ValueError; otherwise a text that
   * valid_hm accepts and that denotes the same minute as the 12-hour text.
   */
  function FmtTime(t: string): (r: Option<string>)
    ensures r.Some? <==> SplitClock12(t).Some?
    ensures r.Some? ==> |r.value| == 5 && ValidHm(r.value) && ParseHm(r.value) == ParseClock12(t)
  {
    match ParseClock12(t)
    case None => None
    case Some(m) =>
      HhmmRoundTrip(m);
      Some(Hhmm(m))
  }

  /** strptime(t, "%H:%M") as a minute of the day, or None where it raises ValueError. */
  function ParseHm(t: string): (r: Option<Minute>)
    ensures r.Some? ==> 3 <= |t| <= 5 && ':' in t
  {
    var c := HourFieldEnd(t);
    if c == 0 then None
    else
      var h := DigitsValue(t[..c]);
      var mm := t[c + 1..];
      if h <= 23 && IsMinuteField(mm) then Some(h * 60 + DigitsValue(mm)) else None
  }

  /** valid_hm */
  predicate ValidHm(t: string)
    ensures ValidHm(t) ==> 3 <= |t| <= 5 && ':' in t
  {
    ParseHm(t).Some?
  }

  lemma HourFieldOf(hs: string, rest: string)
    requires AllDigits(hs) && 1 <= |hs| <= 2
    ensures HourFieldEnd(hs + ":" + rest) == |hs|
    ensures (hs + ":" + rest)[..|hs|] == hs && (hs + ":" + rest)[|hs| + 1..] == rest
  {
    SpanStopsAt(hs + ":" + rest, 0, |hs|, IsDigit);
  }

  /**
   * Every text strptime's "%I:%M %p" pattern describes is accepted, with the
   * fields it spells.
   */
  lemma Clock12Accepts(hs: string, ms: string, ws: string, ap: string)
    requires AllDigits(hs) && 1 <= |hs| <= 2 && 1 <= DigitsValue(hs) <= 12
    requires IsMinuteField(ms)
    requires |ws| > 0 && AllSpaces(ws)
    requires Lower(ap) == "am" || Lower(ap) == "pm"
    ensures SplitClock12(hs + ":" + (ms + ws + ap))
         == Some(Clock12(DigitsValue(hs), DigitsValue(ms), Lower(ap) == "pm"))
  {
    HourFieldOf(hs, ms + ws + ap);
    MeridiemAccepts(ms, ws, ap);
  }

  lemma MeridiemAccepts(ms: string, ws: string, ap: string)
    requires IsMinuteField(ms)
    requires |ws| > 0 && AllSpaces(ws)
    requires Lower(ap) == "am" || Lower(ap) == "pm"
    ensures MinuteAndMeridiem(ms + ws + ap) == Some((DigitsValue(ms), Lower(ap) == "pm"))
  {
    var u := ms + ws + ap;
    var e := |ms|;
    assert |ap| == 2 && Lower(ap)[0] == LowerChar(ap[0]);
    assert !IsSpace(ap[0]);
    assert u[..e] == ms;
    assert u[e + |ws|..] == ap;
    SpanStopsAt(u, 0, e, IsDigit);
    SpanStopsAt(u, e, e + |ws|, IsSpace);
  }

  /** Every "%H:%M" text is valid, with the hour and minute it spells. */
  lemma HmAccepts(hs: string, ms: string)
    requires AllDigits(hs) && 1 <= |hs| <= 2 && DigitsValue(hs) <= 23
    requires IsMinuteField(ms)
    ensures ParseHm(hs + ":" + ms) == Some(DigitsValue(hs) * 60 + DigitsValue(ms))
  {
    var t := hs + ":" + ms;
    HourFieldOf(hs, ms);
    var c := HourFieldEnd(t);
    assert c == |hs| && t[..c] == hs && t[c + 1..] == ms;
  }

  /** valid_hm accepts nothing but "%H:%M" texts, and reads them as the minute they spell. */
  lemma ParseHmSound(t: string)
    requires ParseHm(t).Some?
    ensures exists hs, ms :: (t == hs + ":" + ms && AllDigits(hs) && 1 <= |hs| <= 2 && DigitsValue(hs) <= 23
      && IsMinuteField(ms) && ParseHm(t).value == DigitsValue(hs) * 60 + DigitsValue(ms))
  {
    var c := HourFieldEnd(t);
    var hs, ms := t[..c], t[c + 1..];
    assert t == hs + ":" + ms;
  }

  /** valid_hm holds exactly for the texts of the "%H:%M" shape. */
  lemma ValidHmIff(t: string)
    ensures ValidHm(t) <==> exists hs, ms :: (t == hs + ":" + ms && AllDigits(hs) && 1 <= |hs| <= 2
      && DigitsValue(hs) <= 23 && IsMinuteField(ms))
  {
    if ValidHm(t) {
      ParseHmSound(t);
    }
    if exists hs, ms :: t == hs + ":" + ms && AllDigits(hs) && 1 <= |hs| <= 2 && DigitsValue(hs) <= 23 && IsMinuteField(ms) {
      var hs, ms :| t == hs + ":" + ms && AllDigits(hs) && 1 <= |hs| <= 2 && DigitsValue(hs) <= 23 && IsMinuteField(ms);
      HmAccepts(hs, ms);
    }
  }

  /** The "%M %p" part is accepted only as a minute field, blanks and AM or PM in any case. */
  lemma MeridiemSound(u: string)
    requires MinuteAndMeridiem(u).Some?
    ensures exists ms, ws, ap :: (u == ms + ws + ap && IsMinuteField(ms) && |ws| > 0 && AllSpaces(ws)
      && (Lower(ap) == "am" || Lower(ap) == "pm")
      && MinuteAndMeridiem(u).value == (DigitsValue(ms), Lower(ap) == "pm"))
  {
    var e := Span(u, 0, IsDigit);
    var w := Span(u, e, IsSpace);
    var ms, ws, ap := u[..e], u[e..w], u[w..];
    assert u == ms + ws + ap;
    assert IsMinuteField(ms) && |ws| > 0;
    assert AllSpaces(ws) by {
      forall k | 0 <= k < |ws| ensures IsSpace(ws[k]) { assert ws[k] == u[e + k]; }
    }
    assert Lower(ap) == "am" || Lower(ap) == "pm";
    assert MinuteAndMeridiem(u).value == (DigitsValue(ms), Lower(ap) == "pm");
  }

  /**
   * "%I:%M %p" accepts only an hour 1..12, a colon and a "%M %p" part (whose
   * shape MeridiemSound gives), and reads them as written.
   */
  lemma Clock12Sound(t: string)
    requires SplitClock12(t).Some?
    ensures exists hs, u :: (t == hs + ":" + u
      && AllDigits(hs) && 1 <= |hs| <= 2 && 1 <= DigitsValue(hs) <= 12 && MinuteAndMeridiem(u).Some?
      && SplitClock12(t).value == Clock12(DigitsValue(hs), MinuteAndMeridiem(u).value.0, MinuteAndMeridiem(u).value.1))
  {
    var c := HourFieldEnd(t);
    var hs, u := t[..c], t[c + 1..];
    assert 1 <= c < |t| && t[c] == ':';
    assert t == hs + ":" + u;
    var m := MinuteAndMeridiem(u);
    assert m.Some? && 1 <= DigitsValue(hs) <= 12;
    assert SplitClock12(t).value == Clock12(DigitsValue(hs), m.value.0, m.value.1);
  }

  /** The "%H:%M" rendering reads back as the same time. */
  lemma HhmmRoundTrip(m: Minute)
    ensures ParseHm(Hhmm(m)) == Some(m)
  {
    var hs, ms := TwoDigits(m / 60), TwoDigits(m % 60);
    assert ms[0] <= '5' by { assert DigitValue(ms[0]) == (m % 60) / 10; }
    HmAccepts(hs, ms);
  }
}
