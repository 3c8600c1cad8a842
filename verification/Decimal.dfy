/** Decimal integers as Rust prints and parses them. */
module Decimal {
  import opened Text

  const U64_LIMIT := 0x1_0000_0000_0000_0000

  predicate IsDigit(c: char) {
    '0' <= c <= '9'
  }

  predicate AllDigits(s: string) {
    forall c :: c in s ==> IsDigit(c)
  }

  function Digit(k: nat): (c: char)
    requires k < 10
    ensures IsDigit(c)
  {
    '0' + k as char
  }

  /** Shortest decimal form, as `{n}` prints it. */
  function Dec(n: nat): (s: string)
    ensures s != [] && AllDigits(s)
  {
    if n < 10 then [Digit(n)] else Dec(n / 10) + [Digit(n % 10)]
  }

  /** At least w digits, as `{n:0w}` prints it. */
  function Pad(n: nat, w: nat): (s: string)
    ensures s != [] && AllDigits(s)
  {
    var s := Dec(n);
    if |s| < w then Zeros(w - |s|) + s else s
  }

  function Zeros(k: nat): (s: string)
    ensures |s| == k && AllDigits(s)
  {
    seq(k, i => '0')
  }

  function DigitValue(c: char): (k: nat)
    requires IsDigit(c)
    ensures k < 10 && Digit(k) == c
  {
    c as int - '0' as int
  }

  function Value(s: string): nat
    requires AllDigits(s)
  {
    if s == [] then 0 else 10 * Value(s[..|s| - 1]) + DigitValue(s[|s| - 1])
  }

  /** `str::parse::<u64>`: an optional plus sign, then digits, and no overflow. */
  function ParseU64(s: string): Option<nat> {
    var t := if s != [] && s[0] == '+' then s[1..] else s;
    if t != [] && AllDigits(t) && Value(t) < U64_LIMIT then Some(Value(t)) else None
  }

  lemma {:induction false} ValueOfDec(n: nat)
    ensures Value(Dec(n)) == n
  {
    if n >= 10 {
      ValueOfDec(n / 10);
      assert Dec(n)[..|Dec(n)| - 1] == Dec(n / 10);
    }
  }

  lemma {:induction false} LeadingZeros(k: nat, s: string)
    requires AllDigits(s)
    ensures Value(Zeros(k) + s) == Value(s)
  {
    var z := Zeros(k) + s;
    if s != [] {
      assert z[..|z| - 1] == Zeros(k) + s[..|s| - 1];
      LeadingZeros(k, s[..|s| - 1]);
    } else if k > 0 {
      assert z[..|z| - 1] == Zeros(k - 1) + [];
      LeadingZeros(k - 1, []);
    }
  }

  /** Reading back a padded number, at any width. */
  lemma ParsePad(n: nat, w: nat)
    ensures Value(Pad(n, w)) == n
    ensures n < U64_LIMIT ==> ParseU64(Pad(n, w)) == Some(n)
  {
    ValueOfDec(n);
    if |Dec(n)| < w {
      LeadingZeros(w - |Dec(n)|, Dec(n));
    }
    assert IsDigit(Pad(n, w)[0]);
  }

  function Pow10(w: nat): (p: nat)
    ensures p >= 1
  {
    if w == 0 then 1 else 10 * Pow10(w - 1)
  }

  lemma {:induction false} DecLength(n: nat, w: nat)
    requires 1 <= w
    ensures |Dec(n)| <= w <==> n < Pow10(w)
  {
    if n < 10 {
    } else if w == 1 {
      assert Pow10(1) == 10;
    } else {
      DecLength(n / 10, w - 1);
    }
  }

  lemma PadLength(n: nat, w: nat)
    requires 1 <= w
    ensures |Pad(n, w)| == w <==> n < Pow10(w)
    ensures w <= |Pad(n, w)|
  {
    DecLength(n, w);
  }

  lemma OneMoreDigit(p: string, c: char, q: string, d: char)
    requires AllDigits(p) && AllDigits(q) && |p| == |q| && IsDigit(c) && IsDigit(d)
    requires (Less(p, q) <==> Value(p) < Value(q)) && (p == q <==> Value(p) == Value(q))
    ensures AllDigits(p + [c]) && AllDigits(q + [d])
    ensures Less(p + [c], q + [d]) <==> Value(p + [c]) < Value(q + [d])
  {
    LessByHead(p, q, [c], [d]);
    assert Less([c], [d]) <==> c < d;
    assert (p + [c])[..|p|] == p && (q + [d])[..|q|] == q;
  }

  /** At equal length, string order of digit strings is numeric order. */
  lemma {:induction false} DigitOrder(s: string, t: string)
    requires AllDigits(s) && AllDigits(t) && |s| == |t|
    ensures Less(s, t) <==> Value(s) < Value(t)
    ensures s == t <==> Value(s) == Value(t)
  {
    if s != [] {
      var p, q := s[..|s| - 1], t[..|t| - 1];
      DigitOrder(p, q);
      assert s == p + [s[|s| - 1]] && t == q + [t[|t| - 1]];
      OneMoreDigit(p, s[|s| - 1], q, t[|t| - 1]);
    }
  }

  lemma PadOrder(a: nat, b: nat, w: nat)
    requires 1 <= w && a < Pow10(w) && b < Pow10(w)
    ensures Less(Pad(a, w), Pad(b, w)) <==> a < b
    ensures Pad(a, w) == Pad(b, w) <==> a == b
    ensures |Pad(a, w)| == |Pad(b, w)| == w
  {
    PadLength(a, w);
    PadLength(b, w);
    ParsePad(a, w);
    ParsePad(b, w);
    DigitOrder(Pad(a, w), Pad(b, w));
  }
}
