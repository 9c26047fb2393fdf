/**
 * `format_timedelta` (timon.py:241-256): a duration as Chinese text, largest
 * unit first, each unit written only when it is positive, and `"0秒"` when all
 * four numbers are zero.
 *
 * `ParseDuration` reads such a text back. It accepts only canonical texts:
 * the sentinel, or pieces "number unit" whose numbers are positive and have
 * no leading zero and whose units appear in strictly descending order. It is
 * the independent reference the formatting is proved against.
 */
module DurationText {
  import opened Wrappers
  import opened Decimal
  import opened Timedelta

  const ZeroText: string := "0秒"

  datatype Unit = Day | Hour | Minute | Second

  /** The unit word printed after each number. */
  function UnitText(u: Unit): (s: string)
    ensures |s| > 0 && !IsDigit(s[0])
  {
    match u
    case Day => "天"
    case Hour => "小时"
    case Minute => "分钟"
    case Second => "秒"
  }

  /** Position of a unit, largest first. */
  function Rank(u: Unit): nat {
    match u
    case Day => 0
    case Hour => 1
    case Minute => 2
    case Second => 3
  }

  /** The number `b` holds for unit `u`. */
  function Field(b: Breakdown, u: Unit): int {
    match u
    case Day => b.days
    case Hour => b.hours
    case Minute => b.minutes
    case Second => b.seconds
  }

  /**
   * One of the four appends of timon.py:252-255: the number followed by its
   * unit word when the number is positive, nothing otherwise.
   */
  function Piece(n: int, u: Unit): string {
    if n > 0 then DecimalString(n) + UnitText(u) else ""
  }

  /** The four pieces, appended in the order timon.py:251-255 appends them. */
  function Pieces(b: Breakdown): string {
    Piece(b.days, Day) + Piece(b.hours, Hour) + Piece(b.minutes, Minute) + Piece(b.seconds, Second)
  }

  /** timon.py:241-256. */
  function FormatTimedelta(td: TimeDelta): string {
    var b := Split(td);
    if b.days == 0 && b.hours == 0 && b.minutes == 0 && b.seconds == 0 then ZeroText else Pieces(b)
  }

  // ----- Reading a duration text back -----

  /** The unit whose word `s` starts with, if any (the four words begin with different characters). */
  function ParseUnit(s: string): (r: Option<Unit>)
    ensures r.Some? ==> UnitText(r.value) <= s
  {
    if |s| >= 1 && s[0] == '天' then Some(Day)
    else if |s| >= 2 && s[0] == '小' && s[1] == '时' then Some(Hour)
    else if |s| >= 2 && s[0] == '分' && s[1] == '钟' then Some(Minute)
    else if |s| >= 1 && s[0] == '秒' then Some(Second)
    else None
  }

  /** `b` with the number for unit `u` replaced by `n`. */
  function WithUnit(b: Breakdown, u: Unit, n: int): Breakdown {
    match u
    case Day => b.(days := n)
    case Hour => b.(hours := n)
    case Minute => b.(minutes := n)
    case Second => b.(seconds := n)
  }

  const NoTime := Breakdown(0, 0, 0, 0)

  /** The first piece of a text: its number, its unit, and where it ends. */
  datatype PieceAt = PieceAt(value: nat, unit: Unit, end: nat)

  /** The piece `s` starts with: a positive number with no leading zero, then a unit word. */
  function FirstPiece(s: string): (r: Option<PieceAt>)
    ensures r.Some? ==> 0 < r.value.end <= |s|
  {
    var k := DigitCount(s);
    if k == 0 || s[0] == '0' then None
    else
      match ParseUnit(s[k..])
      case None => None
      case Some(u) => Some(PieceAt(DecimalValue(s[..k]), u, k + |UnitText(u)|))
  }

  /**
   * Reads pieces whose units all have rank `from` or more, in strictly
   * descending order; a unit that does not appear reads as zero.
   */
  function ParsePieces(s: string, from: nat): Option<Breakdown>
    decreases |s|
  {
    if s == [] then Some(NoTime)
    else
      match FirstPiece(s)
      case None => None
      case Some(p) =>
        if Rank(p.unit) < from then None
        else
          match ParsePieces(s[p.end..], Rank(p.unit) + 1)
          case None => None
          case Some(b) => Some(WithUnit(b, p.unit, p.value))
  }

  /** A duration text: the sentinel, or canonical pieces. */
  function ParseDuration(s: string): Option<Breakdown> {
    if s == ZeroText then Some(NoTime) else ParsePieces(s, 0)
  }

  /** A unit word is recognized as its unit, whatever follows it. */
  lemma ParseUnitText(u: Unit, rest: string)
    ensures ParseUnit(UnitText(u) + rest) == Some(u)
  {
  }

  /** A printed piece is read back as its number and unit. */
  lemma FirstPieceOfPiece(n: nat, u: Unit, rest: string)
    requires n > 0
    ensures FirstPiece(DecimalString(n) + UnitText(u) + rest)
         == Some(PieceAt(n, u, |DecimalString(n)| + |UnitText(u)|))
  {
    var d := DecimalString(n);
    var tail := UnitText(u) + rest;
    var s := d + UnitText(u) + rest;
    assert s == d + tail;
    DigitCountStopsAt(d, tail);
    assert s[0] == d[0];
    assert s[..|d|] == d;
    assert s[|d|..] == tail;
    ParseUnitText(u, rest);
    DecimalRoundTrip(n);
  }

  /** Conversely, a piece that is read is a printed piece. */
  lemma FirstPieceIsPiece(s: string, p: PieceAt)
    requires FirstPiece(s) == Some(p)
    ensures p.value > 0
    ensures s == DecimalString(p.value) + UnitText(p.unit) + s[p.end..]
  {
    var k := DigitCount(s);
    assert k > 0 && s[0] != '0' && ParseUnit(s[k..]) == Some(p.unit);
    assert p.value == DecimalValue(s[..k]) && p.end == k + |UnitText(p.unit)|;
    assert s[..k][0] == s[0];
    CanonicalDecimal(s[..k]);
    SplitAround(s, k, UnitText(p.unit));
  }

  lemma SplitAround(s: string, k: nat, w: string)
    requires k <= |s| && w <= s[k..]
    ensures s == s[..k] + w + s[k + |w|..]
  {
    assert s[k..] == w + s[k + |w|..];
    assert s == s[..k] + s[k..];
  }

  /** A piece with a positive number parses as its unit set to that number, then the rest. */
  lemma ParsePiece(n: nat, u: Unit, rest: string, from: nat)
    requires n > 0 && Rank(u) >= from
    ensures ParsePieces(DecimalString(n) + UnitText(u) + rest, from)
         == match ParsePieces(rest, Rank(u) + 1)
            case None => None
            case Some(b) => Some(WithUnit(b, u, n))
  {
    var s := DecimalString(n) + UnitText(u) + rest;
    FirstPieceOfPiece(n, u, rest);
    assert s[|DecimalString(n)| + |UnitText(u)|..] == rest;
  }

  /** Allowing more units in front does not change what an accepted text parses to. */
  lemma ParseLooser(s: string, from: nat, from': nat)
    requires from' <= from && ParsePieces(s, from).Some?
    ensures ParsePieces(s, from') == ParsePieces(s, from)
  {
  }

  lemma ParsePieceOrEmpty(n: int, u: Unit, rest: string, b: Breakdown, from: nat)
    requires Rank(u) >= from && ParsePieces(rest, Rank(u) + 1) == Some(b)
    ensures ParsePieces(Piece(n, u) + rest, from) == Some(if n > 0 then WithUnit(b, u, n) else b)
  {
    if n > 0 {
      ParsePiece(n, u, rest, from);
    } else {
      assert Piece(n, u) + rest == rest;
      ParseLooser(rest, Rank(u) + 1, from);
    }
  }

  /** What a formatted duration reads back as: every number, a negative day count as zero. */
  function Shown(b: Breakdown): Breakdown {
    b.(days := if b.days > 0 then b.days else 0)
  }

  lemma SecondsRoundTrip(seconds: int)
    requires seconds >= 0
    ensures ParsePieces(Piece(seconds, Second), 3) == Some(NoTime.(seconds := seconds))
  {
    assert Piece(seconds, Second) + "" == Piece(seconds, Second);
    ParsePieceOrEmpty(seconds, Second, "", NoTime, 3);
  }

  lemma MinutesRoundTrip(minutes: int, seconds: int)
    requires minutes >= 0 && seconds >= 0
    ensures ParsePieces(Piece(minutes, Minute) + Piece(seconds, Second), 2)
         == Some(NoTime.(minutes := minutes, seconds := seconds))
  {
    SecondsRoundTrip(seconds);
    ParsePieceOrEmpty(minutes, Minute, Piece(seconds, Second), NoTime.(seconds := seconds), 2);
  }

  lemma HoursRoundTrip(hours: int, minutes: int, seconds: int)
    requires hours >= 0 && minutes >= 0 && seconds >= 0
    ensures ParsePieces(Piece(hours, Hour) + (Piece(minutes, Minute) + Piece(seconds, Second)), 1)
         == Some(Breakdown(0, hours, minutes, seconds))
  {
    MinutesRoundTrip(minutes, seconds);
    ParsePieceOrEmpty(hours, Hour, Piece(minutes, Minute) + Piece(seconds, Second),
                      NoTime.(minutes := minutes, seconds := seconds), 1);
  }

  /** The joined pieces read back as the four numbers, a negative day count as zero. */
  lemma PiecesRoundTrip(b: Breakdown)
    requires b.hours >= 0 && b.minutes >= 0 && b.seconds >= 0
    ensures ParsePieces(Pieces(b), 0) == Some(Shown(b))
  {
    var tail := Piece(b.hours, Hour) + (Piece(b.minutes, Minute) + Piece(b.seconds, Second));
    var rest := Breakdown(0, b.hours, b.minutes, b.seconds);
    assert Pieces(b) == Piece(b.days, Day) + tail;
    HoursRoundTrip(b.hours, b.minutes, b.seconds);
    ParsePieceOrEmpty(b.days, Day, tail, rest, 0);
    assert (if b.days > 0 then WithUnit(rest, Day, b.days) else rest) == Shown(b);
  }

  /** The sentinel is not a text of pieces: its number has a leading zero. */
  lemma ZeroTextNotPieces()
    ensures ParsePieces(ZeroText, 0) == None
  {
    assert DigitCount(ZeroText) == 1;
  }

  /**
   * Round trip: the text `format_timedelta` produces is accepted by the
   * canonical parser and reads back as the split of the duration, except that
   * a negative day count (never printed) reads as zero.
   */
  lemma FormatRoundTrip(td: TimeDelta)
    ensures ParseDuration(FormatTimedelta(td)) == Some(Shown(Split(td)))
  {
    var b := Split(td);
    if !(b.days == 0 && b.hours == 0 && b.minutes == 0 && b.seconds == 0) {
      PiecesRoundTrip(b);
      ZeroTextNotPieces();
    }
  }

  /** For a non-negative duration the text gives back every number exactly. */
  lemma FormatRoundTripNonNegative(td: TimeDelta)
    requires td.days >= 0
    ensures ParseDuration(FormatTimedelta(td)) == Some(Split(td))
  {
    FormatRoundTrip(td);
  }

  /** A positive number in front of pieces that leave its unit and the larger ones at zero. */
  lemma PiecesWithUnit(b: Breakdown, u: Unit, n: int)
    requires n > 0
    requires forall v :: Rank(v) <= Rank(u) ==> Field(b, v) == 0
    ensures Pieces(WithUnit(b, u, n)) == Piece(n, u) + Pieces(b)
  {
    assert Field(b, Day) == 0;
    match u
    case Day =>
    case Hour =>
      assert Field(b, Hour) == 0;
      PiecesWithHour(b, n);
    case Minute =>
      assert Field(b, Hour) == 0 && Field(b, Minute) == 0;
      PiecesWithMinute(b, n);
    case Second =>
      assert Field(b, Hour) == 0 && Field(b, Minute) == 0 && Field(b, Second) == 0;
      PiecesWithSecond(b, n);
  }

  lemma PiecesWithHour(b: Breakdown, n: int)
    requires b.days == 0 && b.hours == 0
    ensures Pieces(b.(hours := n)) == Piece(n, Hour) + Pieces(b)
  {
    var pd, ph := Piece(b.days, Day), Piece(b.hours, Hour);
    assert pd == "" && ph == "";
    DropEmpty(pd, ph, Piece(n, Hour), Piece(b.minutes, Minute), Piece(b.seconds, Second));
  }

  lemma DropEmpty(e1: string, e2: string, x: string, y: string, z: string)
    requires e1 == "" && e2 == ""
    ensures e1 + x + y + z == x + (e1 + e2 + y + z)
  {
  }

  lemma PiecesWithMinute(b: Breakdown, n: int)
    requires b.days == 0 && b.hours == 0 && b.minutes == 0
    ensures Pieces(b.(minutes := n)) == Piece(n, Minute) + Pieces(b)
  {
    assert Pieces(b) == Piece(b.seconds, Second);
  }

  lemma PiecesWithSecond(b: Breakdown, n: int)
    requires b.days == 0 && b.hours == 0 && b.minutes == 0 && b.seconds == 0
    ensures Pieces(b.(seconds := n)) == Piece(n, Second) + Pieces(b)
  {
  }

  /**
   * Every text of pieces the parser accepts is exactly the text
   * timon.py:251-255 builds for what it parses to: numbers non-negative, the
   * units before `from` zero.
   */
  lemma {:induction false} ParsePiecesCanonical(s: string, from: nat, b: Breakdown)
    requires ParsePieces(s, from) == Some(b)
    ensures s == Pieces(b)
    ensures b.days >= 0 && b.hours >= 0 && b.minutes >= 0 && b.seconds >= 0
    ensures forall v :: Rank(v) < from ==> Field(b, v) == 0
    decreases |s|
  {
    if s != [] {
      var p := FirstPiece(s).value;
      var rest := s[p.end..];
      var b' := ParsePieces(rest, Rank(p.unit) + 1).value;
      assert b == WithUnit(b', p.unit, p.value);
      ParsePiecesCanonical(rest, Rank(p.unit) + 1, b');
      FirstPieceIsPiece(s, p);
      PiecesWithUnit(b', p.unit, p.value);
      FieldsOfWithUnit(b', p.unit, p.value);
      forall v | Rank(v) < from ensures Field(b, v) == 0 {
        assert v != p.unit;
      }
    } else {
      assert b == NoTime;
    }
  }

  lemma FieldsOfWithUnit(b: Breakdown, u: Unit, n: int)
    ensures forall v :: Field(WithUnit(b, u, n), v) == if v == u then n else Field(b, v)
    ensures var w := WithUnit(b, u, n);
            w.days == Field(w, Day) && w.hours == Field(w, Hour)
            && w.minutes == Field(w, Minute) && w.seconds == Field(w, Second)
  {
  }

  /** The parser accepts exactly the texts `format_timedelta` can build: the sentinel or the canonical pieces. */
  lemma ParseDurationCanonical(s: string, b: Breakdown)
    requires ParseDuration(s) == Some(b)
    ensures (s == ZeroText && b == NoTime) || s == Pieces(b)
    ensures b.days >= 0 && b.hours >= 0 && b.minutes >= 0 && b.seconds >= 0
  {
    if s != ZeroText {
      ParsePiecesCanonical(s, 0, b);
    }
  }

  /** Units out of order, or a zero written as a piece, are refused. */
  lemma RejectsNonCanonical()
    ensures ParseDuration("5秒1天") == None
    ensures ParseDuration("0天5秒") == None
  {
    assert DigitCount("5秒1天") == 1;
    assert "5秒1天"[1..] == "秒1天";
    assert FirstPiece("5秒1天").Some? && FirstPiece("5秒1天").value.unit == Second;
    assert FirstPiece("5秒1天").value.end == 2;
    assert "5秒1天"[2..] == "1天";
    assert DigitCount("1天") == 1;
    assert "1天"[1..] == "天";
    assert FirstPiece("1天").Some? && FirstPiece("1天").value.unit == Day;
    assert DigitCount("0天5秒") == 1;
  }

  /** timon.py:248-249: the text is the sentinel `"0秒"` exactly when all four numbers are zero. */
  lemma ZeroSentinel(td: TimeDelta)
    ensures var b := Split(td);
            FormatTimedelta(td) == ZeroText
            <==> b.days == 0 && b.hours == 0 && b.minutes == 0 && b.seconds == 0
  {
    var b := Split(td);
    if !(b.days == 0 && b.hours == 0 && b.minutes == 0 && b.seconds == 0) {
      PiecesRoundTrip(b);
      ZeroTextNotPieces();
    }
  }

  /**
   * The text is empty only when the day count is negative and nothing else is
   * left to print; a non-negative duration always gives a non-empty text.
   */
  lemma EmptyOnlyWhenNegativeDays(td: TimeDelta)
    ensures var b := Split(td);
            FormatTimedelta(td) == ""
            <==> b.days < 0 && b.hours == 0 && b.minutes == 0 && b.seconds == 0
  {
    var b := Split(td);
    if !(b.days == 0 && b.hours == 0 && b.minutes == 0 && b.seconds == 0) {
      PiecesRoundTrip(b);
    }
  }

  /**
   * Different non-negative durations give different texts unless they differ
   * only in microseconds, which `format_timedelta` does not show.
   */
  lemma FormatInjective(a: TimeDelta, b: TimeDelta)
    requires a.days >= 0 && b.days >= 0
    requires FormatTimedelta(a) == FormatTimedelta(b)
    ensures a.days == b.days && a.seconds == b.seconds
  {
    FormatRoundTripNonNegative(a);
    FormatRoundTripNonNegative(b);
    SplitInjective(a, b);
  }

  /** The characters a duration text is made of: digits and the unit words. */
  predicate DurationChar(c: char) {
    IsDigit(c) || c in "天小时分钟秒"
  }

  lemma FormatAlphabet(td: TimeDelta)
    ensures forall i :: 0 <= i < |FormatTimedelta(td)| ==> DurationChar(FormatTimedelta(td)[i])
  {
  }
}
