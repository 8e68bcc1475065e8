/**
 * The fixed tables of flight_app.py and its four regular expressions,
 * each written as the specific matcher it is: TIME_LINE, DATE_HEADER,
 * IATA_IN_PARENS (search and findall) and PLANE_TYPE_PATTERN (search).
 */
module Patterns {
  import opened Wrappers
  import opened Text

  /** ALLOWED_AIRLINES */
  const AllowedAirlines: set<string> := {"NZ", "QF", "JQ", "CZ", "CA", "SQ", "LA", "IE", "FX"}

  /** NZ_DOMESTIC_IATA */
  const NzDomesticIata: set<string> := {
    "AKL", "WLG", "CHC", "ZQN", "TRG", "NPE", "PMR", "NSN", "NPL", "DUD", "IVC", "TUO",
    "WRE", "BHE", "ROT", "GIS", "KKE", "WHK", "WAG", "PPQ"
  }

  /** PLANE_TYPE_NORMALIZE */
  const PlaneTypeNormalize: map<string, string> := map[
    "32q" := "A320", "320" := "A320", "32x" := "A320",
    "789" := "B789", "772" := "B772", "77w" := "B77W",
    "332" := "A332", "333" := "A333", "330" := "A330",
    "359" := "A359", "388" := "A388",
    "737" := "B737", "73h" := "B737",
    "at7" := "AT76"
  ]

  /** The canonical aircraft codes: the values of PLANE_TYPE_NORMALIZE. */
  const CanonicalPlaneTypes: set<string> :=
    {"A320", "B789", "B772", "B77W", "A332", "A333", "A330", "A359", "A388", "B737", "AT76"}

  /**
   * The alternatives of PLANE_TYPE_PATTERN: the keys and values of
   * PLANE_TYPE_NORMALIZE sorted by length, longest first.
   */
  const PlaneTokens: seq<string> := [
    "A320", "B789", "B772", "B77W", "A332", "A333", "A330", "A359", "A388", "B737", "AT76",
    "32q", "320", "32x", "789", "772", "77w", "332", "333", "330", "359", "388", "737", "73h", "at7"
  ]

  /** Number of four-character alternatives at the head of PlaneTokens. */
  const LongTokens := 11

  lemma CanonicalIsTableValues()
    ensures CanonicalPlaneTypes == PlaneTypeNormalize.Values
  {
    var m := PlaneTypeNormalize;
    assert m["32q"] == "A320" && m["789"] == "B789" && m["772"] == "B772" && m["77w"] == "B77W";
    assert m["332"] == "A332" && m["333"] == "A333" && m["330"] == "A330" && m["359"] == "A359";
    assert m["388"] == "A388" && m["737"] == "B737" && m["at7"] == "AT76";
    forall v | v in m.Values ensures v in CanonicalPlaneTypes {
      var k :| k in m && m[k] == v;
    }
  }

  /** PlaneTokens holds exactly the keys and values of the table... */
  lemma PlaneTokensAreTableEntries()
    ensures forall k :: LongTokens <= k < |PlaneTokens| ==> PlaneTokens[k] in PlaneTypeNormalize
    ensures forall k :: 0 <= k < LongTokens ==> PlaneTokens[k] in CanonicalPlaneTypes
    ensures forall a :: a in PlaneTypeNormalize ==> a in PlaneTokens[LongTokens..]
    ensures forall a :: a in CanonicalPlaneTypes ==> a in PlaneTokens[..LongTokens]
  {
    assert PlaneTokens[..LongTokens] ==
      ["A320", "B789", "B772", "B77W", "A332", "A333", "A330", "A359", "A388", "B737", "AT76"];
  }

  /** ...sorted by length, longest first. */
  lemma PlaneTokensLongestFirst()
    ensures forall k :: 0 <= k < LongTokens ==> |PlaneTokens[k]| == 4
    ensures forall k :: LongTokens <= k < |PlaneTokens| ==> |PlaneTokens[k]| == 3
  {
  }

  /** The keys of PLANE_TYPE_NORMALIZE are three characters long. */
  lemma TableKeysShort()
    ensures forall a :: a in PlaneTypeNormalize ==> |a| == 3
  {
    PlaneTokensAreTableEntries();
    PlaneTokensLongestFirst();
    forall a | a in PlaneTypeNormalize ensures |a| == 3 {
      var k :| LongTokens <= k < |PlaneTokens| && PlaneTokens[k] == a;
    }
  }

  /** The four-character alternatives are written in upper case, the table keys in lower case. */
  lemma PlaneTokenCase()
    ensures forall k :: 0 <= k < LongTokens ==> Upper(PlaneTokens[k]) == PlaneTokens[k]
    ensures forall k :: LongTokens <= k < |PlaneTokens| ==> Lower(PlaneTokens[k]) == PlaneTokens[k]
  {
    forall k | 0 <= k < LongTokens ensures Upper(PlaneTokens[k]) == PlaneTokens[k] {
      UpperIdentity(PlaneTokens[k]);
    }
    forall k | LongTokens <= k < |PlaneTokens| ensures Lower(PlaneTokens[k]) == PlaneTokens[k] {
      LowerIdentity(PlaneTokens[k]);
    }
  }

  /** Python's `$`: the end of the text, or just before a final newline. */
  function DropFinalNewline(s: string): string {
    if |s| > 0 && s[|s| - 1] == '\n' then s[..|s| - 1] else s
  }

  // ---------------------------------------------------------------------
  // TIME_LINE = ^(\d{1,2}:\d{2}\s[AP]M)\t([A-Z]{2}\d+[A-Z]?)$

  /** The first group of TIME_LINE: `\d{1,2}:\d{2}\s[AP]M`. */
  predicate IsTimeText(x: string) {
    (|x| == 7 || |x| == 8) &&
    var k := |x| - 6;
    AllDigits(x[..k]) && x[k] == ':' && IsDigit(x[k + 1]) && IsDigit(x[k + 2]) && IsSpace(x[k + 3])
    && (x[k + 4] == 'A' || x[k + 4] == 'P') && x[k + 5] == 'M'
  }

  /** The second group of TIME_LINE: `[A-Z]{2}\d+[A-Z]?`. */
  predicate IsFlightCode(f: string) {
    |f| >= 3 && IsUpper(f[0]) && IsUpper(f[1]) && IsDigit(f[2])
    && (forall k :: 2 <= k < |f| - 1 ==> IsDigit(f[k]))
    && (IsDigit(f[|f| - 1]) || IsUpper(f[|f| - 1]))
  }

  /** TIME_LINE anchored at both ends of t: the time text and the flight code. */
  function SplitTimeLine(t: string): (r: Option<(string, string)>)
    ensures r.Some? ==> t == r.value.0 + "\t" + r.value.1
    ensures r.Some? ==> IsTimeText(r.value.0) && IsFlightCode(r.value.1)
  {
    if |t| > 7 && t[7] == '\t' && IsTimeText(t[..7]) && IsFlightCode(t[8..]) then
      assert t == t[..7] + "\t" + t[8..];
      Some((t[..7], t[8..]))
    else if |t| > 8 && t[8] == '\t' && IsTimeText(t[..8]) && IsFlightCode(t[9..]) then
      assert t == t[..8] + "\t" + t[9..];
      Some((t[..8], t[9..]))
    else None
  }

  /** Every line of the TIME_LINE shape is recognised, with its two groups. */
  lemma TimeLineAccepts(x: string, f: string)
    requires IsTimeText(x) && IsFlightCode(f)
    ensures SplitTimeLine(x + "\t" + f) == Some((x, f))
  {
    var t := x + "\t" + f;
    assert t[..|x|] == x && t[|x| + 1..] == f;
    if |x| == 8 {
      assert t[1] == x[1] && IsDigit(x[1]);
    }
  }

  /** TIME_LINE.match(s) and its groups. */
  function MatchTimeLine(s: string): (r: Option<(string, string)>)
    ensures r.Some? ==> DropFinalNewline(s) == r.value.0 + "\t" + r.value.1
    ensures r.Some? ==> IsTimeText(r.value.0) && IsFlightCode(r.value.1)
  {
    SplitTimeLine(DropFinalNewline(s))
  }

  /** TIME_LINE matches every line made of a time text, a tab and a flight code. */
  lemma MatchTimeLineAccepts(x: string, f: string)
    requires IsTimeText(x) && IsFlightCode(f)
    ensures MatchTimeLine(x + "\t" + f) == Some((x, f))
  {
    TimeLineAccepts(x, f);
    var t := x + "\t" + f;
    assert t[|t| - 1] == f[|f| - 1];
  }

  // ---------------------------------------------------------------------
  // DATE_HEADER = ^[A-Za-z]+,\s+\w+\s+\d{1,2}$

  /** The pieces of a DATE_HEADER line: "<weekday>,<gap1><month><gap2><day>". */
  datatype HeaderParts = HeaderParts(weekday: string, gap1: string, month: string, gap2: string, day: string)

  predicate IsHeaderParts(p: HeaderParts) {
    |p.weekday| > 0 && (forall k :: 0 <= k < |p.weekday| ==> IsLetter(p.weekday[k]))
    && |p.gap1| > 0 && AllSpaces(p.gap1)
    && |p.month| > 0 && (forall k :: 0 <= k < |p.month| ==> IsWordChar(p.month[k]))
    && |p.gap2| > 0 && AllSpaces(p.gap2)
    && 1 <= |p.day| <= 2 && AllDigits(p.day)
  }

  function JoinHeader(p: HeaderParts): string {
    p.weekday + "," + p.gap1 + p.month + p.gap2 + p.day
  }

  /** DATE_HEADER anchored at both ends of t. */
  function SplitDateHeader(t: string): (r: Option<HeaderParts>)
    ensures r.Some? ==> IsHeaderParts(r.value) && JoinHeader(r.value) == t
  {
    var a := Span(t, 0, IsLetter);
    if a == 0 || a == |t| || t[a] != ',' then None
    else
      var b := Span(t, a + 1, IsSpace);
      var c := Span(t, b, IsWordChar);
      var e := Span(t, c, IsSpace);
      if b == a + 1 || c == b || e == c || !(1 <= |t| - e <= 2 && AllDigits(t[e..])) then None
      else
        SpansMakeHeader(t, a, b, c, e);
        Some(Header(t, a, b, c, e))
  }

  /** The runs DATE_HEADER matches, cut out of t, are pieces of the header shape. */
  lemma SpansMakeHeader(t: string, a: nat, b: nat, c: nat, e: nat)
    requires 0 < a && a + 1 < b < c < e < |t| && |t| - e <= 2 && t[a] == ',' && AllDigits(t[e..])
    requires forall k :: 0 <= k < a ==> IsLetter(t[k])
    requires forall k :: a + 1 <= k < b ==> IsSpace(t[k])
    requires forall k :: b <= k < c ==> IsWordChar(t[k])
    requires forall k :: c <= k < e ==> IsSpace(t[k])
    ensures IsHeaderParts(Header(t, a, b, c, e))
  {
    var p := Header(t, a, b, c, e);
    assert forall k :: 0 <= k < |p.weekday| ==> p.weekday[k] == t[k];
    assert forall k :: 0 <= k < |p.gap1| ==> p.gap1[k] == t[a + 1 + k];
    assert forall k :: 0 <= k < |p.month| ==> p.month[k] == t[b + k];
    assert forall k :: 0 <= k < |p.gap2| ==> p.gap2[k] == t[c + k];
  }

  /** The pieces of t cut at a, b, c and e, with the comma at a left out. */
  function Header(t: string, a: nat, b: nat, c: nat, e: nat): (p: HeaderParts)
    requires a < b <= c <= e <= |t| && t[a] == ','
    ensures JoinHeader(p) == t
  {
    JoinSlices(t, a, b, c, e);
    HeaderParts(t[..a], t[a + 1..b], t[b..c], t[c..e], t[e..])
  }

  lemma JoinSlices(t: string, a: nat, b: nat, c: nat, e: nat)
    requires a < b <= c <= e <= |t| && t[a] == ','
    ensures t[..a] + "," + t[a + 1..b] + t[b..c] + t[c..e] + t[e..] == t
  {
    var x1 := t[..a] + ",";
    assert x1 == t[..a + 1];
    var x2 := x1 + t[a + 1..b];
    assert x2 == t[..b];
    var x3 := x2 + t[b..c];
    assert x3 == t[..c];
    var x4 := x3 + t[c..e];
    assert x4 == t[..e];
    assert x4 + t[e..] == t;
  }

  /** Every line of the DATE_HEADER shape is recognised, with its pieces. */
  lemma DateHeaderAccepts(p: HeaderParts)
    requires IsHeaderParts(p)
    ensures SplitDateHeader(JoinHeader(p)) == Some(p)
  {
    var a := |p.weekday|;
    var b := a + 1 + |p.gap1|;
    var c := b + |p.month|;
    HeaderSpans(p);
    SplitAt(p, JoinHeader(p), a, b, c, c + |p.gap2|);
  }

  lemma SplitAt(p: HeaderParts, t: string, a: nat, b: nat, c: nat, e: nat)
    requires IsHeaderParts(p) && HeaderSlicesAt(p, t, a, b, c, e)
    requires Span(t, 0, IsLetter) == a && Span(t, a + 1, IsSpace) == b
    requires Span(t, b, IsWordChar) == c && Span(t, c, IsSpace) == e
    ensures SplitDateHeader(t) == Some(p)
  {
    SplitAtSpans(t, a, b, c, e);
  }

  /** DATE_HEADER.match of a line of the header shape gives back its pieces. */
  lemma MatchDateHeaderAccepts(p: HeaderParts)
    requires IsHeaderParts(p)
    ensures MatchDateHeader(JoinHeader(p)) == Some(p)
    ensures MatchDateHeader(JoinHeader(p) + "\n") == Some(p)
  {
    var t := JoinHeader(p);
    assert DropFinalNewline(t) == t by {
      assert t[|t| - 1] == p.day[|p.day| - 1];
    }
    assert DropFinalNewline(t + "\n") == t;
    DateHeaderAccepts(p);
  }

  lemma SplitAtSpans(t: string, a: nat, b: nat, c: nat, e: nat)
    requires 0 < a && a + 1 < b < c < e < |t| && |t| - e <= 2 && t[a] == ',' && AllDigits(t[e..])
    requires Span(t, 0, IsLetter) == a && Span(t, a + 1, IsSpace) == b
    requires Span(t, b, IsWordChar) == c && Span(t, c, IsSpace) == e
    ensures SplitDateHeader(t) == Some(Header(t, a, b, c, e))
  {
  }

  lemma HeaderSpans(p: HeaderParts)
    requires IsHeaderParts(p)
    ensures var t := JoinHeader(p);
      var a := |p.weekday|;
      var b := a + 1 + |p.gap1|;
      var c := b + |p.month|;
      var e := c + |p.gap2|;
      HeaderSlicesAt(p, t, a, b, c, e) &&
      Span(t, 0, IsLetter) == a && Span(t, a + 1, IsSpace) == b &&
      Span(t, b, IsWordChar) == c && Span(t, c, IsSpace) == e
  {
    HeaderSlices(p);
    var a := |p.weekday|;
    var b := a + 1 + |p.gap1|;
    var c := b + |p.month|;
    HeaderSpansAt(p, JoinHeader(p), a, b, c, c + |p.gap2|);
  }

  lemma HeaderSpansAt(p: HeaderParts, t: string, a: nat, b: nat, c: nat, e: nat)
    requires IsHeaderParts(p) && HeaderSlicesAt(p, t, a, b, c, e)
    ensures Span(t, 0, IsLetter) == a && Span(t, a + 1, IsSpace) == b
    ensures Span(t, b, IsWordChar) == c && Span(t, c, IsSpace) == e
  {
    assert t[b] == p.month[0] && t[c] == p.gap2[0] && t[e] == p.day[0];
    assert !IsSpace(p.month[0]) && !IsWordChar(p.gap2[0]) && !IsSpace(p.day[0]);
    SpanOver(t, 0, a, p.weekday, IsLetter);
    SpanOver(t, a + 1, b, p.gap1, IsSpace);
    SpanOver(t, b, c, p.month, IsWordChar);
    SpanOver(t, c, e, p.gap2, IsSpace);
  }

  /** A piece of t whose characters all satisfy q and which q cannot extend. */
  lemma SpanOver(t: string, i: nat, j: nat, piece: string, q: char -> bool)
    requires i <= j <= |t| && t[i..j] == piece
    requires forall k :: 0 <= k < |piece| ==> q(piece[k])
    requires j == |t| || !q(t[j])
    ensures Span(t, i, q) == j
  {
    forall k | i <= k < j ensures q(t[k]) { assert t[k] == piece[k - i]; }
    SpanStopsAt(t, i, j, q);
  }

  predicate HeaderSlicesAt(p: HeaderParts, t: string, a: nat, b: nat, c: nat, e: nat) {
    a < b <= c <= e <= |t| && t[a] == ',' &&
    t[..a] == p.weekday && t[a + 1..b] == p.gap1 && t[b..c] == p.month && t[c..e] == p.gap2 && t[e..] == p.day
  }

  lemma HeaderSlices(p: HeaderParts)
    ensures var a := |p.weekday|;
      var b := a + 1 + |p.gap1|;
      var c := b + |p.month|;
      var e := c + |p.gap2|;
      HeaderSlicesAt(p, JoinHeader(p), a, b, c, e)
  {
    var p1 := p.weekday + ",";
    var p2 := p1 + p.gap1;
    var p3 := p2 + p.month;
    var p4 := p3 + p.gap2;
    var t := p4 + p.day;
    var a, b, c, e := |p.weekday|, |p2|, |p3|, |p4|;
    CutConcat(p4, p.day);
    CutConcat(p3, p.gap2);
    CutConcat(p2, p.month);
    CutConcat(p1, p.gap1);
    assert t[..e][..c] == t[..c] && t[..e][c..] == t[c..e];
    assert t[..c][..b] == t[..b] && t[..c][b..] == t[b..c];
    assert t[..b][..a + 1] == t[..a + 1] && t[..b][a + 1..] == t[a + 1..b];
    assert t[..a + 1][..a] == t[..a];
  }

  lemma CutConcat(x: string, y: string)
    ensures (x + y)[..|x|] == x && (x + y)[|x|..] == y
  {
  }

  /** DATE_HEADER.match(s) */
  function MatchDateHeader(s: string): (r: Option<HeaderParts>)
    ensures r.Some? ==> IsHeaderParts(r.value) && JoinHeader(r.value) == DropFinalNewline(s)
  {
    SplitDateHeader(DropFinalNewline(s))
  }

  // ---------------------------------------------------------------------
  // IATA_IN_PARENS = \(([^)]+)\)

  predicate NotCloseParen(c: char) { c != ')' }

  /** The index of the `)` closing a match of IATA_IN_PARENS that starts at p, if one starts there. */
  function ParenMatchAt(s: string, p: nat): (r: Option<nat>)
    requires p <= |s|
    ensures r.Some? ==> p + 1 < r.value < |s| && s[p] == '(' && s[r.value] == ')' && ')' !in s[p + 1..r.value]
    ensures r.None? ==> forall j :: p + 1 < j < |s| && s[j] == ')' ==> !(s[p] == '(' && ')' !in s[p + 1..j])
  {
    if p < |s| && s[p] == '(' then
      var j := Span(s, p + 1, NotCloseParen);
      if p + 1 < j < |s| then Some(j)
      else
        None
    else None
  }

  /** IATA_IN_PARENS.search(s[from..]) as the leftmost (start, close) pair. */
  function SearchParens(s: string, from: nat): (r: Option<(nat, nat)>)
    requires from <= |s|
    ensures r.Some? ==> from <= r.value.0 < |s| && ParenMatchAt(s, r.value.0) == Some(r.value.1)
    ensures r.Some? ==> forall q :: from <= q < r.value.0 ==> ParenMatchAt(s, q).None?
    ensures r.None? ==> forall q :: from <= q <= |s| ==> ParenMatchAt(s, q).None?
    decreases |s| - from
  {
    match ParenMatchAt(s, from)
    case Some(j) => Some((from, j))
    case None => if from == |s| then None else SearchParens(s, from + 1)
  }

  /** IATA_IN_PARENS.search(s).group(1), or None where search finds nothing. */
  function FirstParenGroup(s: string): (r: Option<string>)
    ensures r.None? <==> forall q :: 0 <= q <= |s| ==> ParenMatchAt(s, q).None?
    ensures r.Some? ==> |r.value| > 0 && ')' !in r.value
  {
    match SearchParens(s, 0)
    case None => None
    case Some((p, j)) => Some(s[p + 1..j])
  }

  /**
   * IATA_IN_PARENS.findall(s[from..]): the texts between the parentheses of
   * the successive non-overlapping matches (ParenSpansFrom).
   */
  function ParenGroupsFrom(s: string, from: nat): (r: seq<string>)
    requires from <= |s|
    ensures |r| == |ParenSpansFrom(s, from)|
    ensures forall k :: 0 <= k < |r| ==> |r[k]| > 0 && ')' !in r[k]
  {
    var ps := ParenSpansFrom(s, from);
    seq(|ps|, k requires 0 <= k < |ps| => s[ps[k].0 + 1..ps[k].1])
  }

  /** IATA_IN_PARENS.findall(s) */
  function ParenGroups(s: string): (r: seq<string>)
    ensures r == [] <==> forall q :: 0 <= q <= |s| ==> ParenMatchAt(s, q).None?
    ensures forall k :: 0 <= k < |r| ==> |r[k]| > 0 && ')' !in r[k]
  {
    ParenGroupsFrom(s, 0)
  }

  /** No match of IATA_IN_PARENS starts at a position in [lo, hi). */
  predicate NoMatchIn(s: string, lo: nat, hi: nat) {
    forall q :: lo <= q < hi && q <= |s| ==> ParenMatchAt(s, q).None?
  }

  /**
   * ps lists the (open, close) pairs of findall's successive matches in
   * s[from..]: the first is the leftmost match from `from`, the rest are the
   * matches after its `)`, and no match starts anywhere when ps is empty.
   */
  predicate FindallSpans(s: string, from: nat, ps: seq<(nat, nat)>)
    decreases |ps|
  {
    from <= |s| &&
    if ps == [] then NoMatchIn(s, from, |s| + 1)
    else
      var (p, j) := ps[0];
      && from <= p <= |s| && NoMatchIn(s, from, p) && ParenMatchAt(s, p) == Some(j)
      && FindallSpans(s, j + 1, ps[1..])
  }

  /** The (open, close) pairs of the matches findall visits in s[from..]. */
  function ParenSpansFrom(s: string, from: nat): (ps: seq<(nat, nat)>)
    requires from <= |s|
    ensures forall k :: 0 <= k < |ps| ==> from <= ps[k].0 < |s| && ParenMatchAt(s, ps[k].0) == Some(ps[k].1)
    decreases |s| - from
  {
    match SearchParens(s, from)
    case None => []
    case Some((p, j)) => [(p, j)] + ParenSpansFrom(s, j + 1)
  }

  /** The pairs findall visits are its successive leftmost non-overlapping matches. */
  lemma {:induction false} ParenSpansAreFindall(s: string, from: nat)
    requires from <= |s|
    ensures FindallSpans(s, from, ParenSpansFrom(s, from))
    decreases |s| - from
  {
    match SearchParens(s, from)
    case None =>
      FindallSpansNil(s, from);
    case Some((p, j)) =>
      UnfoldSpans(s, from, p, j);
      ParenSpansAreFindall(s, j + 1);
      FindallSpansCons(s, from, p, j, ParenSpansFrom(s, j + 1));
  }

  lemma FindallSpansNil(s: string, from: nat)
    requires from <= |s| && SearchParens(s, from).None?
    ensures ParenSpansFrom(s, from) == [] && FindallSpans(s, from, [])
  {
    assert NoMatchIn(s, from, |s| + 1);
  }

  /** The leftmost match from `from`, followed by findall's matches after its `)`. */
  lemma FindallSpansCons(s: string, from: nat, p: nat, j: nat, rest: seq<(nat, nat)>)
    requires from <= |s| && SearchParens(s, from) == Some((p, j))
    requires FindallSpans(s, j + 1, rest)
    ensures FindallSpans(s, from, [(p, j)] + rest)
  {
    var ps := [(p, j)] + rest;
    assert ps[0] == (p, j) && ps[1..] == rest;
    assert NoMatchIn(s, from, p);
  }

  lemma UnfoldSpans(s: string, from: nat, p: nat, j: nat)
    requires from <= |s| && SearchParens(s, from) == Some((p, j))
    ensures j + 1 <= |s| && ParenSpansFrom(s, from) == [(p, j)] + ParenSpansFrom(s, j + 1)
  {
  }

  /** Only one list of pairs meets the findall description: it pins findall's result down. */
  lemma {:induction false} FindallSpansUnique(s: string, from: nat, ps: seq<(nat, nat)>, qs: seq<(nat, nat)>)
    requires FindallSpans(s, from, ps) && FindallSpans(s, from, qs)
    ensures ps == qs
    decreases |ps|
  {
    if ps != [] && qs != [] {
      assert ps[0] == qs[0];
      FindallSpansUnique(s, ps[0].1 + 1, ps[1..], qs[1..]);
      assert ps == [ps[0]] + ps[1..] && qs == [qs[0]] + qs[1..];
    }
  }

  /** search finds the first of the groups findall lists. */
  lemma FirstParenGroupIsFirstOfAll(s: string)
    ensures FirstParenGroup(s).None? <==> ParenGroups(s) == []
    ensures FirstParenGroup(s).Some? ==> FirstParenGroup(s).value == ParenGroups(s)[0]
  {
  }

  // ---------------------------------------------------------------------
  // PLANE_TYPE_PATTERN = \b(<PlaneTokens joined by |>)\b, re.IGNORECASE

  /** `\b` at position p of s. */
  predicate IsWordBoundary(s: string, p: nat)
    requires p <= |s|
  {
    (p > 0 && IsWordChar(s[p - 1])) != (p < |s| && IsWordChar(s[p]))
  }

  /** Alternative a matches at p, with `\b` on both sides. */
  predicate TokenAt(s: string, p: nat, a: string) {
    p + |a| <= |s| && IsWordBoundary(s, p) && IsWordBoundary(s, p + |a|)
    && forall j :: 0 <= j < |a| ==> LowerChar(s[p + j]) == LowerChar(a[j])
  }

  /** The first of the alternatives alts[k..] that matches at p, as its index in alts. */
  function FirstTokenAt(s: string, p: nat, alts: seq<string>, k: nat): (r: Option<nat>)
    requires k <= |alts|
    ensures r.Some? ==> k <= r.value < |alts| && p + |alts[r.value]| <= |s|
    decreases |alts| - k
  {
    if k == |alts| then None
    else if TokenAt(s, p, alts[k]) then Some(k)
    else FirstTokenAt(s, p, alts, k + 1)
  }

  /** The alternatives are tried in order: the one found matches and none before it does. */
  lemma {:induction false} FirstTokenAtIsFirst(s: string, p: nat, alts: seq<string>, k: nat)
    requires k <= |alts|
    ensures var r := FirstTokenAt(s, p, alts, k);
      (r.Some? ==> TokenAt(s, p, alts[r.value])) &&
      (r.Some? ==> forall i :: k <= i < r.value ==> !TokenAt(s, p, alts[i])) &&
      (r.None? ==> forall i :: k <= i < |alts| ==> !TokenAt(s, p, alts[i]))
    decreases |alts| - k
  {
    if k < |alts| && !TokenAt(s, p, alts[k]) {
      FirstTokenAtIsFirst(s, p, alts, k + 1);
    }
  }

  /** The search for an alternation `\b(alts[0]|alts[1]|...)\b` in s[from..]: the leftmost
      position and the alternative matched there. */
  function SearchTokens(s: string, from: nat, alts: seq<string>): (r: Option<(nat, nat)>)
    requires from <= |s|
    ensures r.Some? ==> from <= r.value.0 <= |s| && FirstTokenAt(s, r.value.0, alts, 0) == Some(r.value.1)
    ensures r.Some? ==> r.value.1 < |alts| && r.value.0 + |alts[r.value.1]| <= |s|
    ensures r.Some? ==> forall q :: from <= q < r.value.0 ==> FirstTokenAt(s, q, alts, 0).None?
    ensures r.None? ==> forall q :: from <= q <= |s| ==> FirstTokenAt(s, q, alts, 0).None?
    decreases |s| - from
  {
    match FirstTokenAt(s, from, alts, 0)
    case Some(k) => Some((from, k))
    case None => if from == |s| then None else SearchTokens(s, from + 1, alts)
  }

  /** m.group(1) of the search for the alternation of alts: the matched text in its own case. */
  function FirstMatchText(s: string, alts: seq<string>): (r: Option<string>)
    ensures r.Some? <==> SearchTokens(s, 0, alts).Some?
  {
    match SearchTokens(s, 0, alts)
    case None => None
    case Some((p, k)) => Some(s[p..p + |alts[k]|])
  }

  /** The text found is the leftmost match, equal up to case to the first alternative matching there. */
  lemma FirstMatchTextIs(s: string, alts: seq<string>, p: nat, k: nat)
    requires SearchTokens(s, 0, alts) == Some((p, k))
    ensures k < |alts| && p + |alts[k]| <= |s| && TokenAt(s, p, alts[k])
    ensures FirstMatchText(s, alts) == Some(s[p..p + |alts[k]|])
    ensures Lower(s[p..p + |alts[k]|]) == Lower(alts[k])
  {
    FoundTokenAt(s, alts, p, k);
    var a := alts[k];
    assert FirstMatchText(s, alts) == Some(s[p..p + |a|]);
    TokenText(s, p, a);
  }

  lemma FoundTokenAt(s: string, alts: seq<string>, p: nat, k: nat)
    requires SearchTokens(s, 0, alts) == Some((p, k))
    ensures k < |alts| && TokenAt(s, p, alts[k])
  {
    assert FirstTokenAt(s, p, alts, 0) == Some(k);
    FirstTokenAtIsFirst(s, p, alts, 0);
  }

  /** The search finds nothing exactly when no alternative matches at any position. */
  lemma SearchFindsNothingIff(s: string, alts: seq<string>)
    ensures SearchTokens(s, 0, alts).None? <==>
      forall q, k :: 0 <= q <= |s| && 0 <= k < |alts| ==> !TokenAt(s, q, alts[k])
  {
    var r := SearchTokens(s, 0, alts);
    if r.None? {
      forall q, k | 0 <= q <= |s| && 0 <= k < |alts| ensures !TokenAt(s, q, alts[k]) {
        FirstTokenAtIsFirst(s, q, alts, 0);
      }
    } else {
      FirstTokenAtIsFirst(s, r.value.0, alts, 0);
    }
  }

  /** m.group(1) of PLANE_TYPE_PATTERN.search(s). */
  function PlaneTokenMatch(s: string): (r: Option<string>)
    ensures r.None? <==> forall q, k :: 0 <= q <= |s| && 0 <= k < |PlaneTokens| ==> !TokenAt(s, q, PlaneTokens[k])
    ensures r.Some? ==> exists k :: 0 <= k < |PlaneTokens| && Lower(r.value) == Lower(PlaneTokens[k])
  {
    SearchFindsNothingIff(s, PlaneTokens);
    match SearchTokens(s, 0, PlaneTokens)
    case None => FirstMatchText(s, PlaneTokens)
    case Some((p, k)) =>
      FirstMatchTextIs(s, PlaneTokens, p, k);
      FirstMatchText(s, PlaneTokens)
  }

  /** The text an alternative matched equals it up to case. */
  lemma TokenText(s: string, p: nat, a: string)
    requires TokenAt(s, p, a)
    ensures Lower(s[p..p + |a|]) == Lower(a)
  {
  }

  /** Every character of every alternative is a `\w` character. */
  lemma PlaneTokensWordChars()
    ensures forall k, j :: 0 <= k < |PlaneTokens| && 0 <= j < |PlaneTokens[k]| ==> IsWordChar(PlaneTokens[k][j])
  {
  }

  /** The alternatives are pairwise different strings. */
  lemma PlaneTokensInjective()
    ensures forall i, j :: 0 <= i < j < |PlaneTokens| ==> PlaneTokens[i] != PlaneTokens[j]
  {
    var t := PlaneTokens;
    forall i, j | 0 <= i < j < |t| ensures t[i] != t[j] {
      if j < LongTokens || LongTokens <= i {
        assert t[i][0] != t[j][0] || t[i][1] != t[j][1] || t[i][2] != t[j][2] || t[i][3 % |t[i]|] != t[j][3 % |t[j]|];
      }
    }
  }

  /** Two alternatives equal up to case are the same alternative. */
  lemma SameTokenUpToCase(i: nat, j: nat)
    requires i < |PlaneTokens| && j < |PlaneTokens| && Lower(PlaneTokens[i]) == Lower(PlaneTokens[j])
    ensures i == j
  {
    var a, b := PlaneTokens[i], PlaneTokens[j];
    PlaneTokensLongestFirst();
    PlaneTokenCase();
    PlaneTokensInjective();
    if i < LongTokens && j < LongTokens {
      UpperOfLower(a, b);
    }
  }

  /** Lower-casing keeps a character in `\w` and out of it. */
  lemma LowerWordChar(c: char)
    ensures IsWordChar(LowerChar(c)) == IsWordChar(c)
  {
  }

  /** Inside a four-character code matched at p there is no `\b` at p + 3. */
  lemma NoBoundaryInsideLong(s: string, p: nat, k: nat)
    requires k < LongTokens && TokenAt(s, p, PlaneTokens[k])
    ensures !IsWordBoundary(s, p + 3)
  {
    var a := PlaneTokens[k];
    PlaneTokensLongestFirst();
    PlaneTokensWordChars();
    LowerWordChar(s[p + 2]);
    LowerWordChar(s[p + 3]);
    LowerWordChar(a[2]);
    LowerWordChar(a[3]);
  }

  /**
   * At most one alternative of PLANE_TYPE_PATTERN matches as a whole word at
   * any position: a three-character key cannot end at a `\b` inside a
   * four-character code, and no two alternatives agree up to case. So the
   * order among alternatives of equal length does not change what the
   * search finds.
   */
  lemma OneTokenPerPosition(s: string, p: nat, i: nat, j: nat)
    requires i < |PlaneTokens| && j < |PlaneTokens|
    requires TokenAt(s, p, PlaneTokens[i]) && TokenAt(s, p, PlaneTokens[j])
    ensures i == j
  {
    PlaneTokensLongestFirst();
    if i < LongTokens && LongTokens <= j {
      NoBoundaryInsideLong(s, p, i);
    } else if j < LongTokens && LongTokens <= i {
      NoBoundaryInsideLong(s, p, j);
    } else {
      TokenText(s, p, PlaneTokens[i]);
      TokenText(s, p, PlaneTokens[j]);
      SameTokenUpToCase(i, j);
    }
  }
}
