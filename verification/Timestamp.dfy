/** The ISO 8601 printer of state_store.rs and the reader of ha_ws.rs (RFC 3339, section 5.6). */
module Timestamp {
  import opened Text
  import opened Decimal
  import opened Calendar

  // ---------------------------------------------------------------------------
  // Printing
  // ---------------------------------------------------------------------------

  /** A padded number, a separator and the rest. */
  function Field(n: nat, w: nat, sep: char, rest: string): string {
    Pad(n, w) + ([sep] + rest)
  }

  function DateText(t: Date): string {
    Field(t.y, 4, '-', Field(t.m, 2, '-', Pad(t.d, 2)))
  }

  function ClockText(h: nat, mi: nat, s: nat): string {
    Field(h, 2, ':', Field(mi, 2, ':', Pad(s, 2)))
  }

  function TimeText(h: nat, mi: nat, s: nat, micros: nat): string {
    ClockText(h, mi, s) + (['.'] + Pad(micros, 6))
  }

  /** The clock time of a second of the day. */
  function TimeTextOf(rest: nat, micros: nat): string {
    TimeText(rest / 3600, rest % 3600 / 60, rest % 60, micros)
  }

  function InstantText(t: Date, timeText: string): string {
    DateText(t) + (['T'] + timeText) + "+00:00"
  }

  /** The text of an instant: the civil date of its day and the clock time within it. */
  function IsoText(secs: nat, micros: nat): string {
    InstantText(CivilDate(secs / 86400), TimeTextOf(secs % 86400, micros))
  }

  /** epoch_to_parts and the format of now_iso8601, with the clock reading as a parameter. */
  method NowIso8601(secs: nat, micros: nat) returns (text: string)
    ensures text == IsoText(secs, micros)
  {
    var s := secs % 60;
    var totalMin := secs / 60;
    var mi := totalMin % 60;
    var totalHours := totalMin / 60;
    var h := totalHours % 24;
    var totalDays := totalHours / 24;
    var y, mo, d := DaysToYmd(totalDays);
    text := DateText(Date(y, mo, d)) + (['T'] + TimeText(h, mi, s, micros)) + "+00:00";
    CascadedDivision(secs);
  }

  lemma CascadedDivision(secs: nat)
    ensures secs / 60 / 60 / 24 == secs / 86400
    ensures secs / 60 / 60 % 24 == secs % 86400 / 3600
    ensures secs / 60 % 60 == secs % 86400 % 3600 / 60
    ensures secs % 60 == secs % 86400 % 60
  {
    var days, rest := secs / 86400, secs % 86400;
    var h, mi, s := rest / 3600, rest % 3600 / 60, rest % 60;
    assert secs == 60 * (60 * (24 * days + h) + mi) + s;
  }

  /** long_lived_token_store.rs prints today's date from the closed form. It is the date part of the
      timestamp state_store.rs prints in the same second. */
  function TodayText(secs: nat): string {
    var (y, m, d) := ClosedForm(secs / 86400);
    if y < 0 || m < 0 || d < 0 then "" else DateText(Date(y, m, d))
  }

  lemma TodayIsTheDateOfNow(secs: nat, micros: nat)
    ensures TodayText(secs) == DateText(CivilDate(secs / 86400))
    ensures TodayText(secs) + "T" <= IsoText(secs, micros)
  {
    ClosedFormIsCivil(secs / 86400);
  }

  /** Behind a padded number of w digits come the separator and the rest. */
  lemma FieldLayout(n: nat, w: nat, sep: char, rest: string)
    requires 1 <= w && n < Pow10(w)
    ensures var f := Field(n, w, sep, rest);
      && |f| == w + 1 + |rest| && AllDigits(f[..w]) && Value(f[..w]) == n && f[w] == sep && f[w + 1..] == rest
  {
    PadLength(n, w);
    ParsePad(n, w);
    var f := Field(n, w, sep, rest);
    assert f[..w] == Pad(n, w);
  }

  lemma ThreeFieldLayout(a: nat, w: nat, b: nat, c: nat, sep: char)
    requires 1 <= w && a < Pow10(w) && b < 100 && c < 100
    ensures var f := Field(a, w, sep, Field(b, 2, sep, Pad(c, 2)));
      && |f| == w + 6 && f[w] == sep && f[w + 3] == sep
      && AllDigits(f[..w]) && Value(f[..w]) == a
      && AllDigits(f[w + 1..w + 3]) && Value(f[w + 1..w + 3]) == b
      && AllDigits(f[w + 4..]) && Value(f[w + 4..]) == c
  {
    assert Pow10(2) == 100;
    var tail := Field(b, 2, sep, Pad(c, 2));
    var f := Field(a, w, sep, tail);
    PadLength(c, 2);
    ParsePad(c, 2);
    FieldLayout(b, 2, sep, Pad(c, 2));
    FieldLayout(a, w, sep, tail);
    assert f[w + 1..w + 3] == f[w + 1..][..2] == tail[..2];
    assert f[w + 4..] == f[w + 1..][3..] == tail[3..];
    assert f[w + 3] == f[w + 1..][2];
  }

  /** Year, month and day stand in the first ten characters; hour, minute, second and microsecond, after a T, in the
      next fifteen; then the offset of UTC. */
  lemma LayoutOfNow(secs: nat, micros: nat)
    requires micros < 1000000 && CivilDate(secs / 86400).y < 10000
    ensures var text, t, s := IsoText(secs, micros), CivilDate(secs / 86400), secs % 86400;
      && |text| == 32 && text[26..] == "+00:00" && text[10] == 'T'
      && text[4] == '-' && text[7] == '-' && text[13] == ':' && text[16] == ':' && text[19] == '.'
      && AllDigits(text[0..4]) && AllDigits(text[5..7]) && AllDigits(text[8..10])
      && AllDigits(text[11..13]) && AllDigits(text[14..16]) && AllDigits(text[17..19]) && AllDigits(text[20..26])
      && Date(Value(text[0..4]), Value(text[5..7]), Value(text[8..10])) == t
      && Value(text[11..13]) * 3600 + Value(text[14..16]) * 60 + Value(text[17..19]) == s
      && Value(text[14..16]) < 60 && Value(text[17..19]) < 60 && Value(text[20..26]) == micros
  {
    var text, t, s := IsoText(secs, micros), CivilDate(secs / 86400), secs % 86400;
    DayOfMonthBound(t);
    ClockAddsUp(s);
    assert Pow10(4) == 10000 && Pow10(2) == 100 && Pow10(6) == 1000000;
    ThreeFieldLayout(t.y, 4, t.m, t.d, '-');
    ThreeFieldLayout(s / 3600, 2, s % 3600 / 60, s % 60, ':');
    PadLength(micros, 6);
    ParsePad(micros, 6);
    var clock, fraction := ClockText(s / 3600, s % 3600 / 60, s % 60), Pad(micros, 6);
    PutTogether(text, DateText(t), clock, fraction);
  }

  lemma PutTogether(text: string, date: string, clock: string, fraction: string)
    requires |date| == 10 && |clock| == 8 && |fraction| == 6
    requires text == date + (['T'] + (clock + (['.'] + fraction))) + "+00:00"
    ensures |text| == 32 && text[26..] == "+00:00" && text[10] == 'T' && text[19] == '.'
    ensures text[4] == date[4] && text[7] == date[7] && text[13] == clock[2] && text[16] == clock[5]
    ensures text[0..4] == date[..4] && text[5..7] == date[5..7] && text[8..10] == date[8..]
    ensures text[11..13] == clock[..2] && text[14..16] == clock[3..5] && text[17..19] == clock[6..]
    ensures text[20..26] == fraction
  {
    assert text[..10] == date && text[11..19] == clock;
  }

  // ---------------------------------------------------------------------------
  // Reading
  // ---------------------------------------------------------------------------

  /** What iso_to_epoch does with a text: give a number of seconds, or hit an arithmetic fault
      (an index past the month table, an underflow or a 64-bit overflow). */
  datatype Reading = Epoch(seconds: real) | Faults

  /** `str::parse::<f64>`, of which only the behaviour on plain digits is needed. */
  type FloatParser = string -> Option<real>

  ghost predicate ReadsDigits(parseFloat: FloatParser) {
    forall s: string :: s != "" && AllDigits(s) ==> parseFloat(s) == Some(Value(s) as real)
  }

  /** `filter_map(|p| p.parse().ok())`: pieces that are not numbers disappear. */
  function Numbers(pieces: seq<string>): seq<nat> {
    if pieces == [] then []
    else
      var rest := Numbers(pieces[1..]);
      match ParseU64(pieces[0])
      case None => rest
      case Some(n) => [n] + rest
  }

  /** The sum of all parts, or a fault. */
  function Instant(date: seq<nat>, time: seq<nat>, micros: real): Reading
    requires |date| >= 3 && |time| >= 3
  {
    if !Summable(date[0], date[1], date[2]) then Faults
    else
      var secs := SummedDays(date[0], date[1], date[2]) * 86400 + time[0] * 3600 + time[1] * 60 + time[2];
      if secs < U64_LIMIT then Epoch(secs as real + micros) else Faults
  }

  function Fraction(piece: Option<string>, parseFloat: FloatParser): real {
    match piece
    case None => 0.0
    case Some(s) =>
      match parseFloat(s)
      case None => 0.0
      case Some(v) => v / 1000000.0
  }

  function WithoutOffset(text: string): string {
    TrimEndMatches(TrimEndMatches(text, "+00:00"), "Z")
  }

  function IsoToEpoch(text: string, parseFloat: FloatParser): Reading {
    match SplitOnce(WithoutOffset(text), 'T')
    case None => Epoch(0.0)
    case Some((datePart, timePart)) =>
      match SplitOnce(timePart, '.')
      case None => ReadParts(datePart, timePart, None, parseFloat)
      case Some((clock, fraction)) => ReadParts(datePart, clock, Some(fraction), parseFloat)
  }

  function ReadParts(datePart: string, clock: string, fraction: Option<string>, parseFloat: FloatParser): Reading {
    var date := Numbers(Split(datePart, '-'));
    var time := Numbers(Split(clock, ':'));
    if |date| < 3 || |time| < 3 then Epoch(0.0)
    else Instant(date, time, Fraction(fraction, parseFloat))
  }

  // ---------------------------------------------------------------------------
  // Round trip
  // ---------------------------------------------------------------------------

  lemma SplitField(n: nat, w: nat, sep: char, rest: string)
    requires !IsDigit(sep) && n < U64_LIMIT
    ensures Numbers(Split(Field(n, w, sep, rest), sep)) == [n] + Numbers(Split(rest, sep))
  {
    ParsePad(n, w);
    SplitAtSeparator(Pad(n, w), sep, rest);
    NumbersOfCons(Pad(n, w), Split(rest, sep));
  }

  lemma NumbersOfCons(piece: string, pieces: seq<string>)
    requires ParseU64(piece).Some?
    ensures Numbers([piece] + pieces) == [ParseU64(piece).value] + Numbers(pieces)
  {
    assert ([piece] + pieces)[1..] == pieces;
  }

  /** Three padded numbers between two separators are read back as those numbers. */
  lemma ThreeNumbers(a: nat, wa: nat, b: nat, c: nat, sep: char)
    requires a < U64_LIMIT && b < U64_LIMIT && c < U64_LIMIT && !IsDigit(sep)
    ensures Numbers(Split(Field(a, wa, sep, Field(b, 2, sep, Pad(c, 2))), sep)) == [a, b, c]
  {
    var inner := Field(b, 2, sep, Pad(c, 2));
    SplitField(a, wa, sep, inner);
    SplitField(b, 2, sep, Pad(c, 2));
    LastNumber(c, sep);
  }

  lemma LastNumber(c: nat, sep: char)
    requires c < U64_LIMIT && !IsDigit(sep)
    ensures Numbers(Split(Pad(c, 2), sep)) == [c]
  {
    ParsePad(c, 2);
    SplitWithoutSeparator(Pad(c, 2), sep);
    NumbersOfCons(Pad(c, 2), []);
  }

  /** Only the offset is trimmed off: what is left ends in a six-digit fraction. */
  lemma TrimmedText(head: string, fraction: string, offset: string, zulu: string)
    requires |fraction| == 6 && AllDigits(fraction)
    requires |offset| == 6 && !IsDigit(offset[0]) && |zulu| == 1 && !IsDigit(zulu[0])
    ensures TrimEndMatches(TrimEndMatches(head + fraction + offset, offset), zulu) == head + fraction
  {
    var body := head + fraction;
    assert fraction[0] in fraction && fraction[5] in fraction;
    assert body[|body| - 6..] == fraction;
    TrimOnce(body, offset);
    assert body[|body| - 1..][0] == fraction[5];
  }

  lemma YearsAreFewerThanDays(n: nat)
    ensures CivilDate(n).y <= 1970 + n
  {
    var t := CivilDate(n);
    CivilDateHasItsNumber(n);
    ManyDays(t.y);
  }

  lemma {:induction false} ManyDays(y: nat)
    requires 1970 <= y
    ensures y - 1970 <= DaysBeforeYear(y)
    decreases y
  {
    if y > 1970 {
      ManyDays(y - 1);
    }
  }

  lemma FieldCharacters(n: nat, w: nat, sep: char, rest: string, c: char)
    requires !IsDigit(c) && c != sep && c !in rest
    ensures c !in Field(n, w, sep, rest)
  {
    assert Field(n, w, sep, rest) == Pad(n, w) + [sep] + rest;
  }

  lemma SeparatorsAreSafe(t: Date, h: nat, mi: nat, s: nat)
    ensures 'T' !in DateText(t) && '.' !in ClockText(h, mi, s)
  {
    FieldCharacters(t.m, 2, '-', Pad(t.d, 2), 'T');
    FieldCharacters(t.y, 4, '-', Field(t.m, 2, '-', Pad(t.d, 2)), 'T');
    FieldCharacters(mi, 2, ':', Pad(s, 2), '.');
    FieldCharacters(h, 2, ':', Field(mi, 2, ':', Pad(s, 2)), '.');
  }

  lemma StripOffset(date: string, clock: string, fraction: string)
    requires |fraction| == 6 && AllDigits(fraction)
    ensures var ts := date + (['T'] + (clock + (['.'] + fraction)));
      WithoutOffset(ts + "+00:00") == ts
  {
    var head := date + ['T'] + clock + ['.'];
    assert date + (['T'] + (clock + (['.'] + fraction))) == head + fraction;
    TrimmedText(head, fraction, "+00:00", "Z");
  }

  /** The reader takes a printed text apart at its separators. */
  lemma ReadText(date: string, clock: string, fraction: string, parseFloat: FloatParser)
    requires 'T' !in date && '.' !in clock && |fraction| == 6 && AllDigits(fraction)
    ensures IsoToEpoch(date + (['T'] + (clock + (['.'] + fraction))) + "+00:00", parseFloat)
         == ReadParts(date, clock, Some(fraction), parseFloat)
  {
    StripOffset(date, clock, fraction);
    SplitOnceAt(date, 'T', clock + (['.'] + fraction));
    SplitOnceAt(clock, '.', fraction);
  }

  lemma FractionOfMicros(micros: nat, parseFloat: FloatParser)
    requires micros < 1000000 && ReadsDigits(parseFloat)
    ensures |Pad(micros, 6)| == 6
    ensures Fraction(Some(Pad(micros, 6)), parseFloat) == micros as real / 1000000.0
  {
    assert Pow10(6) == 1000000;
    PadLength(micros, 6);
    ParsePad(micros, 6);
  }

  /** The reader finds every field of a printed timestamp. */
  lemma ReadFields(t: Date, h: nat, mi: nat, s: nat, micros: nat, parseFloat: FloatParser)
    requires t.y < U64_LIMIT && t.m < 100 && t.d < 100 && h < 100 && mi < 100 && s < 100 && micros < 1000000
    requires ReadsDigits(parseFloat)
    ensures IsoToEpoch(InstantText(t, TimeText(h, mi, s, micros)), parseFloat)
         == Instant([t.y, t.m, t.d], [h, mi, s], micros as real / 1000000.0)
  {
    SeparatorsAreSafe(t, h, mi, s);
    FractionOfMicros(micros, parseFloat);
    ReadText(DateText(t), ClockText(h, mi, s), Pad(micros, 6), parseFloat);
    ReadDateAndClock(t, h, mi, s, Some(Pad(micros, 6)), parseFloat);
  }

  lemma ReadDateAndClock(t: Date, h: nat, mi: nat, s: nat, fraction: Option<string>, parseFloat: FloatParser)
    requires t.y < U64_LIMIT && t.m < 100 && t.d < 100 && h < 100 && mi < 100 && s < 100
    ensures ReadParts(DateText(t), ClockText(h, mi, s), fraction, parseFloat)
         == Instant([t.y, t.m, t.d], [h, mi, s], Fraction(fraction, parseFloat))
  {
    ThreeNumbers(t.y, 4, t.m, t.d, '-');
    ThreeNumbers(h, 2, mi, s, ':');
  }

  /** Reading what now_iso8601 prints gives exactly the instant that was printed. */
  lemma IsoRoundTrip(secs: nat, micros: nat, parseFloat: FloatParser)
    requires secs < U64_LIMIT && micros < 1000000
    requires ReadsDigits(parseFloat)
    ensures IsoToEpoch(IsoText(secs, micros), parseFloat) == Epoch(secs as real + micros as real / 1000000.0)
  {
    var t := CivilDate(secs / 86400);
    var rest := secs % 86400;
    YearsAreFewerThanDays(secs / 86400);
    DayOfMonthBound(t);
    ClockAddsUp(rest);
    ReadFields(t, rest / 3600, rest % 3600 / 60, rest % 60, micros, parseFloat);
    CivilDateHasItsNumber(secs / 86400);
    PartsAddUp(secs, t, micros as real / 1000000.0);
  }

  lemma PartsAddUp(secs: nat, t: Date, fraction: real)
    requires secs < U64_LIMIT && ValidDate(t) && DayNumber(t) == secs / 86400
    ensures var rest := secs % 86400;
      Instant([t.y, t.m, t.d], [rest / 3600, rest % 3600 / 60, rest % 60], fraction)
      == Epoch(secs as real + fraction)
  {
    ClockAddsUp(secs % 86400);
  }

  lemma ClockAddsUp(rest: nat)
    ensures rest < 86400 ==> rest / 3600 < 24
    ensures rest % 3600 / 60 < 60
    ensures rest / 3600 * 3600 + rest % 3600 / 60 * 60 + rest % 60 == rest
  {
    assert rest == 3600 * (rest / 3600) + rest % 3600;
    assert rest % 3600 % 60 == rest % 60;
  }

  // ---------------------------------------------------------------------------
  // Text order is time order
  // ---------------------------------------------------------------------------

  lemma FieldOrder(a: nat, b: nat, w: nat, sep: char, s: string, t: string)
    requires 1 <= w && a < Pow10(w) && b < Pow10(w)
    ensures Less(Field(a, w, sep, s), Field(b, w, sep, t)) <==> a < b || (a == b && Less(s, t))
    ensures |Field(a, w, sep, s)| == w + 1 + |s|
  {
    PadOrder(a, b, w);
    LessByHead(Pad(a, w), Pad(b, w), [sep] + s, [sep] + t);
    LessBehindSeparator(sep, s, t);
  }

  lemma ThreeFieldOrder(a: nat, b: nat, c: nat, a': nat, b': nat, c': nat, w: nat, sep: char)
    requires 1 <= w && a < Pow10(w) && a' < Pow10(w) && b < 100 && b' < 100 && c < 100 && c' < 100
    ensures var s := Field(a, w, sep, Field(b, 2, sep, Pad(c, 2)));
      var s' := Field(a', w, sep, Field(b', 2, sep, Pad(c', 2)));
      && |s| == |s'| == w + 6
      && (Less(s, s') <==> a < a' || (a == a' && (b < b' || (b == b' && c < c'))))
      && (s == s' <==> a == a' && b == b' && c == c')
  {
    assert Pow10(2) == 100;
    PadOrder(c, c', 2);
    var m, m' := Field(b, 2, sep, Pad(c, 2)), Field(b', 2, sep, Pad(c', 2));
    FieldOrder(b, b', 2, sep, Pad(c, 2), Pad(c', 2));
    FieldOrder(b', b, 2, sep, Pad(c', 2), Pad(c, 2));
    FieldOrder(a, a', w, sep, m, m');
    FieldOrder(a', a, w, sep, m', m);
    LessIsStrictTotal(Field(a, w, sep, m), Field(a', w, sep, m'));
  }

  lemma BodyOrder(p: string, q: string, u: string, v: string, offset: string)
    requires |p| == |q| && |u| == |v|
    ensures Less(p + (['T'] + u) + offset, q + (['T'] + v) + offset) <==> Less(p, q) || (p == q && Less(u, v))
  {
    LessBehindSeparator('T', u, v);
    LessByHead(p, q, ['T'] + u, ['T'] + v);
    LessIsStrictTotal(offset, offset);
    LessByHead(p + (['T'] + u), q + (['T'] + v), offset, offset);
  }

  /** Below year 10000 every timestamp has 32 characters, and sorting the text sorts the instants. */
  lemma TextOrderIsTimeOrder(a: nat, ma: nat, b: nat, mb: nat)
    requires ma < 1000000 && mb < 1000000
    requires CivilDate(a / 86400).y < 10000 && CivilDate(b / 86400).y < 10000
    ensures |IsoText(a, ma)| == 32
    ensures Less(IsoText(a, ma), IsoText(b, mb)) <==> a < b || (a == b && ma < mb)
  {
    var p, q := DateText(CivilDate(a / 86400)), DateText(CivilDate(b / 86400));
    var u, v := TimeTextOf(a % 86400, ma), TimeTextOf(b % 86400, mb);
    DateOrder(a / 86400, b / 86400);
    ClockOrder(a % 86400, b % 86400, ma, mb);
    var offset := "+00:00";
    assert IsoText(a, ma) == p + (['T'] + u) + offset && IsoText(b, mb) == q + (['T'] + v) + offset;
    BodyOrder(p, q, u, v, offset);
    assert a == 86400 * (a / 86400) + a % 86400 && b == 86400 * (b / 86400) + b % 86400;
  }

  lemma DateOrder(m: nat, n: nat)
    requires CivilDate(m).y < 10000 && CivilDate(n).y < 10000
    ensures var p, q := DateText(CivilDate(m)), DateText(CivilDate(n));
      && |p| == |q| == 10
      && (Less(p, q) <==> m < n) && (p == q <==> m == n)
  {
    var s, t := CivilDate(m), CivilDate(n);
    assert Pow10(4) == 10000;
    DayOfMonthBound(s);
    DayOfMonthBound(t);
    ThreeFieldOrder(s.y, s.m, s.d, t.y, t.m, t.d, 4, '-');
    CivilDateKeepsOrder(m, n);
    CivilDateKeepsOrder(n, m);
  }

  lemma ClockOrder(x: nat, y: nat, ma: nat, mb: nat)
    requires x < 86400 && y < 86400 && ma < 1000000 && mb < 1000000
    ensures var u, v := TimeTextOf(x, ma), TimeTextOf(y, mb);
      && |u| == |v| == 15
      && (Less(u, v) <==> x < y || (x == y && ma < mb))
  {
    assert Pow10(2) == 100 && Pow10(6) == 1000000;
    ThreeFieldOrder(x / 3600, x % 3600 / 60, x % 60, y / 3600, y % 3600 / 60, y % 60, 2, ':');
    PadOrder(ma, mb, 6);
    LessBehindSeparator('.', Pad(ma, 6), Pad(mb, 6));
    var p, q := ClockText(x / 3600, x % 3600 / 60, x % 60), ClockText(y / 3600, y % 3600 / 60, y % 60);
    LessByHead(p, q, ['.'] + Pad(ma, 6), ['.'] + Pad(mb, 6));
    ClockAddsUp(x);
    ClockAddsUp(y);
  }

  /** The bound is sharp: a later timestamp is longer, and those of the next ten thousand years sort before
      every timestamp of the years 2000 to 9999. */
  lemma TextOrderEndsAtYear10000(a: nat, ma: nat, b: nat, mb: nat)
    requires ma < 1000000
    ensures |IsoText(a, ma)| == 32 <==> CivilDate(a / 86400).y < 10000
    ensures 2000 <= CivilDate(b / 86400).y < 10000 <= CivilDate(a / 86400).y < 20000 ==>
      Less(IsoText(a, ma), IsoText(b, mb)) && b < a
  {
    var s, t := CivilDate(a / 86400), CivilDate(b / 86400);
    LengthOfText(s, a % 86400, ma);
    var u, v := TimeTextOf(a % 86400, ma), TimeTextOf(b % 86400, mb);
    assert IsoText(a, ma) == DateText(s) + (['T'] + u) + "+00:00";
    if 2000 <= t.y < 10000 <= s.y < 20000 {
      FirstDigit(s.y);
      FirstDigit(t.y);
      assert IsoText(a, ma)[0] == Pad(s.y, 4)[0] && IsoText(b, mb)[0] == Pad(t.y, 4)[0];
      CivilDateKeepsOrder(b / 86400, a / 86400);
    }
  }

  lemma FirstDigit(y: nat)
    requires 2000 <= y < 20000
    ensures if y < 10000 then Pad(y, 4)[0] >= '2' else Pad(y, 4)[0] == '1'
  {
    assert Pow10(4) == 10000 && Pow10(3) == 1000;
    DecLength(y, 4);
    DecLength(y, 3);
    if y < 10000 {
      assert y / 10 / 10 / 10 == y / 1000 < 10;
      assert Dec(y)[0] == Dec(y / 10)[0] == Dec(y / 10 / 10)[0] == Dec(y / 10 / 10 / 10)[0];
    } else {
      assert y / 10 / 10 / 10 / 10 == 1;
      assert Dec(y)[0] == Dec(y / 10)[0] == Dec(y / 10 / 10)[0] == Dec(y / 10 / 10 / 10)[0];
      assert Dec(y / 10 / 10 / 10)[0] == Dec(y / 10 / 10 / 10 / 10)[0];
    }
  }

  lemma LengthOfText(t: Date, rest: nat, micros: nat)
    requires ValidDate(t) && rest < 86400 && micros < 1000000
    ensures |DateText(t)| == 10 <==> t.y < 10000
    ensures |TimeTextOf(rest, micros)| == 15
  {
    assert Pow10(4) == 10000 && Pow10(2) == 100;
    PadLength(t.y, 4);
    DayOfMonthBound(t);
    PadOrder(t.m, t.d, 2);
    ClockOrder(rest, rest, micros, micros);
  }
}
