/** How zigbee_integration.rs prints a restored sensor value: whole numbers without decimals, others with two
    decimals of which trailing zeros are trimmed. Values are reals. */
module NumberText {
  import opened Text
  import opened Decimal

  /** `{v:.2}`: sign, whole part and two decimals of the hundredths v was rounded to. */
  function TwoDecimals(negative: bool, cents: nat): string {
    (if negative then "-" else "") + (Dec(cents / 100) + (['.'] + Pad(cents % 100, 2)))
  }

  function Trimmed(s: string): string {
    TrimEndMatches(TrimEndMatches(s, "0"), ".")
  }

  predicate IsWhole(v: real) {
    v.Floor as real == v && -1000000000.0 < v < 1000000000.0
  }

  function Abs(v: real): real {
    if v < 0.0 then -v else v
  }

  /** The printed text. The rounding of `{:.2}` is a parameter, `cents`: some nearest number of hundredths. */
  function Print(v: real, cents: nat): string {
    if IsWhole(v) then (if v < 0.0 then "-" else "") + Dec(Abs(v).Floor)
    else Trimmed(TwoDecimals(v < 0.0, cents))
  }

  predicate Nearest(v: real, cents: nat) {
    -0.5 <= Abs(v) * 100.0 - cents as real <= 0.5
  }

  // ---------------------------------------------------------------------------
  // Reading
  // ---------------------------------------------------------------------------

  /** A decimal without sign: digits, and perhaps a point and more digits. */
  function ReadUnsigned(s: string): Option<real> {
    match SplitOnce(s, '.')
    case None => if s != "" && AllDigits(s) then Some(Value(s) as real) else None
    case Some((a, b)) =>
      if a != "" && b != "" && AllDigits(a) && AllDigits(b)
      then Some(Value(a) as real + Value(b) as real / Pow10(|b|) as real) else None
  }

  function Read(s: string): Option<real> {
    if s != "" && s[0] == '-' then
      match ReadUnsigned(s[1..])
      case None => None
      case Some(x) => Some(-x)
    else ReadUnsigned(s)
  }

  // ---------------------------------------------------------------------------
  // The text is within half a hundredth of the value
  // ---------------------------------------------------------------------------

  /** What trimming leaves of the fraction. */
  function Fraction(tens: nat, ones: nat): string
    requires tens < 10 && ones < 10
  {
    if ones != 0 then ['.', Digit(tens), Digit(ones)]
    else if tens != 0 then ['.', Digit(tens)]
    else []
  }

  lemma TwoDigits(n: nat)
    requires n < 100
    ensures Pad(n, 2) == [Digit(n / 10), Digit(n % 10)]
  {
    if n < 10 {
      assert Dec(n) == [Digit(n)];
    } else {
      assert Dec(n) == Dec(n / 10) + [Digit(n % 10)] && Dec(n / 10) == [Digit(n / 10)];
    }
  }

  lemma DigitZero(k: nat)
    requires k < 10
    ensures Digit(k) == '0' <==> k == 0
    ensures Digit(k) != '.'
  {
  }

  lemma LastCharacter(s: string, c: char)
    ensures EndsWith(s, [c]) <==> s != "" && s[|s| - 1] == c
  {
    if s != "" {
      assert s[|s| - 1..] == [s[|s| - 1]];
    }
  }

  lemma TrimChar(s: string, c: char)
    ensures TrimEndMatches(s + [c], [c]) == TrimEndMatches(s, [c])
  {
    assert (s + [c])[..|s|] == s;
    LastCharacter(s + [c], c);
  }

  lemma TrimNothing(s: string, c: char)
    requires s != "" && s[|s| - 1] != c
    ensures TrimEndMatches(s, [c]) == s
  {
    LastCharacter(s, c);
  }

  lemma TrimmedFraction(head: string, tens: nat, ones: nat)
    requires tens < 10 && ones < 10 && head != "" && IsDigit(head[|head| - 1])
    ensures Trimmed(head + ['.', Digit(tens), Digit(ones)]) == head + Fraction(tens, ones)
  {
    DigitZero(tens);
    DigitZero(ones);
    var point := head + ['.'];
    var one := point + [Digit(tens)];
    assert head + ['.', Digit(tens), Digit(ones)] == one + [Digit(ones)];
    assert head + ['.', Digit(tens)] == one;
    assert head + [] == head;
    if ones != 0 {
      TrimNothing(one + [Digit(ones)], '0');
      TrimNothing(one + [Digit(ones)], '.');
    } else {
      TrimChar(one, '0');
      if tens != 0 {
        TrimNothing(one, '0');
        TrimNothing(one, '.');
      } else {
        TrimChar(point, '0');
        TrimNothing(point, '0');
        TrimChar(head, '.');
        TrimNothing(head, '.');
      }
    }
  }

  lemma ReadFraction(whole: nat, tens: nat, ones: nat)
    requires tens < 10 && ones < 10
    ensures ReadUnsigned(Dec(whole) + Fraction(tens, ones))
         == Some(whole as real + (10 * tens + ones) as real / 100.0)
  {
    ValueOfDec(whole);
    var f := Fraction(tens, ones);
    if f == [] {
      assert Dec(whole) + f == Dec(whole);
      SplitOnceMeaning(Dec(whole), '.');
    } else {
      var digits := f[1..];
      assert Dec(whole) + f == Dec(whole) + (['.'] + digits);
      SplitOnceAt(Dec(whole), '.', digits);
      FractionValue(tens, ones);
    }
  }

  lemma FractionValue(tens: nat, ones: nat)
    requires tens < 10 && ones < 10 && (tens != 0 || ones != 0)
    ensures var digits := Fraction(tens, ones)[1..];
      && digits != "" && AllDigits(digits)
      && Value(digits) as real / Pow10(|digits|) as real == (10 * tens + ones) as real / 100.0
  {
    assert Pow10(1) == 10 && Pow10(2) == 100;
    var t := [Digit(tens)];
    assert t[..0] == "" && Value(t) == tens;
    if ones != 0 {
      var digits := [Digit(tens), Digit(ones)];
      assert digits[..1] == t && Value(digits) == 10 * tens + ones;
      assert Fraction(tens, ones)[1..] == digits;
    } else {
      assert Fraction(tens, ones)[1..] == t;
    }
  }

  lemma SignedRead(negative: bool, s: string, x: real)
    requires s != "" && IsDigit(s[0]) && ReadUnsigned(s) == Some(x)
    ensures Read((if negative then "-" else "") + s) == Some(if negative then -x else x)
  {
    if negative {
      assert ("-" + s)[1..] == s && ("-" + s)[0] == '-';
    } else {
      assert "" + s == s;
    }
  }

  lemma TrimBehindSign(sign: string, whole: string, tens: nat, ones: nat)
    requires tens < 10 && ones < 10 && whole != "" && AllDigits(whole)
    ensures Trimmed(sign + (whole + (['.'] + [Digit(tens), Digit(ones)]))) == sign + (whole + Fraction(tens, ones))
  {
    var head := sign + whole;
    assert whole[|whole| - 1] in whole && head[|head| - 1] == whole[|whole| - 1];
    assert ['.'] + [Digit(tens), Digit(ones)] == ['.', Digit(tens), Digit(ones)];
    Regroup(sign, whole, ['.', Digit(tens), Digit(ones)]);
    Regroup(sign, whole, Fraction(tens, ones));
    TrimmedFraction(head, tens, ones);
  }

  lemma CentsAddUp(cents: nat)
    ensures var whole, tens, ones := cents / 100, cents % 100 / 10, cents % 100 % 10;
      tens < 10 && whole as real + (10 * tens + ones) as real / 100.0 == cents as real / 100.0
  {
    var whole, rest := cents / 100, cents % 100;
    assert cents == 100 * whole + rest && rest == 10 * (rest / 10) + rest % 10;
  }

  /** Trimmed text reads as the hundredths it was made of. */
  lemma ReadTwoDecimals(negative: bool, cents: nat)
    ensures Read(Trimmed(TwoDecimals(negative, cents)))
         == Some(if negative then -(cents as real / 100.0) else cents as real / 100.0)
  {
    var whole, tens, ones := cents / 100, cents % 100 / 10, cents % 100 % 10;
    CentsAddUp(cents);
    TwoDigits(cents % 100);
    ReadTrimmed(negative, whole, tens, ones, cents as real / 100.0);
  }

  lemma ReadTrimmed(negative: bool, whole: nat, tens: nat, ones: nat, x: real)
    requires tens < 10 && ones < 10 && x == whole as real + (10 * tens + ones) as real / 100.0
    ensures var sign := if negative then "-" else "";
      Read(Trimmed(sign + (Dec(whole) + (['.'] + [Digit(tens), Digit(ones)])))) == Some(if negative then -x else x)
  {
    ValueOfDec(whole);
    TrimBehindSign(if negative then "-" else "", Dec(whole), tens, ones);
    ReadFraction(whole, tens, ones);
    assert Dec(whole)[0] in Dec(whole);
    SignedRead(negative, Dec(whole) + Fraction(tens, ones), x);
  }

  /** The printed text of every value reads as a number within half a hundredth of it, and exactly as the value
      if that is whole and below a thousand million. */
  lemma PrintIsClose(v: real, cents: nat)
    requires Nearest(v, cents)
    ensures var r := Read(Print(v, cents));
      r.Some? && -0.005 <= r.value - v <= 0.005 && (IsWhole(v) ==> r.value == v)
  {
    if IsWhole(v) {
      var n := Abs(v).Floor;
      assert n as real == Abs(v) by {
        assert v < 0.0 ==> (-v).Floor == -v.Floor;
      }
      ValueOfDec(n);
      SplitOnceMeaning(Dec(n), '.');
      assert Dec(n)[0] in Dec(n);
      SignedRead(v < 0.0, Dec(n), n as real);
    } else {
      ReadTwoDecimals(v < 0.0, cents);
    }
  }

  // ---------------------------------------------------------------------------
  // The text is the shortest
  // ---------------------------------------------------------------------------

  /** No point, or one or two decimals behind it of which the last is not zero. */
  predicate Shortest(s: string) {
    match SplitOnce(s, '.')
    case None => true
    case Some((_, decimals)) => 1 <= |decimals| <= 2 && decimals[|decimals| - 1] != '0'
  }

  lemma ShortestBehindSign(sign: string, whole: string, tens: nat, ones: nat)
    requires tens < 10 && ones < 10 && '.' !in sign && AllDigits(whole)
    ensures Shortest(sign + (whole + Fraction(tens, ones)))
  {
    var f := Fraction(tens, ones);
    Regroup(sign, whole, f);
    assert '.' !in sign + whole;
    DigitZero(tens);
    DigitZero(ones);
    if f == [] {
      assert sign + whole + f == sign + whole;
      SplitOnceMeaning(sign + whole, '.');
    } else {
      assert f == ['.'] + f[1..];
      SplitOnceAt(sign + whole, '.', f[1..]);
    }
  }

  /** The text has at most two decimals and no zero behind them, none at all for a whole value, and a minus sign
      exactly for a negative value. */
  lemma PrintIsShortest(v: real, cents: nat)
    ensures var s := Print(v, cents);
      Shortest(s) && (IsWhole(v) ==> '.' !in s) && s != "" && (s[0] == '-' <==> v < 0.0)
  {
    var sign := if v < 0.0 then "-" else "";
    if IsWhole(v) {
      var digits := Dec(Abs(v).Floor);
      ValueOfDec(Abs(v).Floor);
      SplitOnceMeaning(sign + digits, '.');
      assert digits[0] in digits;
    } else {
      var whole, tens, ones := cents / 100, cents % 100 / 10, cents % 100 % 10;
      TwoDigits(cents % 100);
      ValueOfDec(whole);
      TrimBehindSign(sign, Dec(whole), tens, ones);
      ShortestBehindSign(sign, Dec(whole), tens, ones);
      assert Dec(whole)[0] in Dec(whole);
    }
  }
}
