/** The few operations on strings, sequences, maps and numbers of Rust's standard library that the controller is
    built from. */
module Text {

  datatype Option<+T> = None | Some(value: T)

  type Byte = b: int | 0 <= b < 256

  /** The last n elements, or all of them. */
  function LastN<T>(s: seq<T>, n: nat): seq<T> {
    if |s| <= n then s else s[|s| - n..]
  }

  function Last<T>(s: seq<T>): T
    requires s != []
  {
    s[|s| - 1]
  }

  function Lookup<K, V>(m: map<K, V>, k: K): Option<V> {
    if k in m then Some(m[k]) else None
  }

  function Without<K, V>(m: map<K, V>, k: K): map<K, V> {
    map x | x in m && x != k :: m[x]
  }

  function Min(a: real, b: real): real {
    if b < a then b else a
  }

  function Max(a: real, b: real): real {
    if a < b then b else a
  }

  /** The parts before and after the first occurrence of sep. */
  function SplitOnce<T(==)>(s: seq<T>, sep: T): (r: Option<(seq<T>, seq<T>)>)
    ensures r.Some? ==> |r.value.1| < |s|
  {
    if s == [] then None
    else if s[0] == sep then Some(([], s[1..]))
    else match SplitOnce(s[1..], sep)
      case None => None
      case Some((a, b)) => Some(([s[0]] + a, b))
  }

  /** The pieces of s between occurrences of sep: always at least one. */
  function Split<T(==)>(s: seq<T>, sep: T): (r: seq<seq<T>>)
    ensures |r| >= 1
    decreases |s|
  {
    match SplitOnce(s, sep)
    case None => [s]
    case Some((a, b)) => [a] + Split(b, sep)
  }

  function TrimEndMatches<T(==)>(s: seq<T>, suffix: seq<T>): seq<T>
    requires suffix != []
  {
    if EndsWith(s, suffix)
    then TrimEndMatches(s[..|s| - |suffix|], suffix) else s
  }

  /** Replace every occurrence of the character c by rep. */
  function Replace<T(==)>(s: seq<T>, c: T, rep: seq<T>): seq<T> {
    if s == [] then []
    else (if s[0] == c then rep else [s[0]]) + Replace(s[1..], c, rep)
  }

  lemma Regroup<T>(a: seq<T>, b: seq<T>, c: seq<T>)
    ensures a + b + c == a + (b + c)
  {
  }

  lemma {:induction false} SplitOnceAt<T>(a: seq<T>, sep: T, b: seq<T>)
    requires sep !in a
    ensures SplitOnce(a + ([sep] + b), sep) == Some((a, b))
  {
    if a == [] {
      assert a + ([sep] + b) == [sep] + b;
    } else {
      SplitOnceAt(a[1..], sep, b);
      assert [a[0]] + a[1..] == a;
      assert (a + ([sep] + b))[1..] == a[1..] + ([sep] + b);
    }
  }

  /** split_once finds the first separator, and finds one exactly when there is one. */
  lemma {:induction false} SplitOnceMeaning<T>(s: seq<T>, sep: T)
    ensures SplitOnce(s, sep).None? <==> sep !in s
    ensures SplitOnce(s, sep).Some? ==>
      var (a, b) := SplitOnce(s, sep).value; s == a + ([sep] + b) && sep !in a
  {
    if s != [] {
      SplitOnceMeaning(s[1..], sep);
      assert s == [s[0]] + s[1..];
    }
  }

  /** Splitting a concatenation at a separator splits both sides. */
  lemma {:induction false} SplitJoined<T>(a: seq<T>, sep: T, b: seq<T>)
    ensures Split(a + ([sep] + b), sep) == Split(a, sep) + Split(b, sep)
    decreases |a|
  {
    SplitOnceMeaning(a, sep);
    match SplitOnce(a, sep)
    case None =>
      SplitOnceAt(a, sep, b);
    case Some((p, q)) =>
      SplitJoined(q, sep, b);
      assert a + ([sep] + b) == p + ([sep] + (q + ([sep] + b)));
      SplitOnceAt(p, sep, q + ([sep] + b));
  }

  lemma SplitAtSeparator<T>(a: seq<T>, sep: T, b: seq<T>)
    requires sep !in a
    ensures Split(a + ([sep] + b), sep) == [a] + Split(b, sep)
  {
    SplitOnceAt(a, sep, b);
  }

  lemma SplitWithoutSeparator<T>(a: seq<T>, sep: T)
    requires sep !in a
    ensures Split(a, sep) == [a]
  {
    SplitOnceMeaning(a, sep);
  }

  // ---------------------------------------------------------------------------
  // Permutations
  // ---------------------------------------------------------------------------

  lemma SameMembers<T>(a: seq<T>, b: seq<T>)
    requires multiset(a) == multiset(b)
    ensures |a| == |b| && forall x :: x in a <==> x in b
  {
    assert |a| == |multiset(a)| == |multiset(b)| == |b|;
    forall x ensures x in a <==> x in b {
      assert x in a <==> x in multiset(a);
      assert x in b <==> x in multiset(b);
    }
  }

  function Dropped<T>(s: seq<T>, k: nat): (r: seq<T>)
    requires k < |s|
    ensures |r| == |s| - 1
  {
    s[..k] + s[k + 1..]
  }

  lemma MultisetWithout<T>(s: seq<T>, k: nat)
    requires k < |s|
    ensures multiset(Dropped(s, k)) == multiset(s) - multiset{s[k]}
  {
    assert s == s[..k] + ([s[k]] + s[k + 1..]);
  }

  /** Two permutations stay permutations when the last element of one is dropped from both. */
  lemma DropFromBoth<T>(a: seq<T>, b: seq<T>) returns (k: nat)
    requires multiset(a) == multiset(b) && a != []
    ensures k < |b| && b[k] == a[|a| - 1] && multiset(a[..|a| - 1]) == multiset(Dropped(b, k))
  {
    var n := |a| - 1;
    SameMembers(a, b);
    assert a[n] in a;
    k :| 0 <= k < |b| && b[k] == a[n];
    MultisetWithout(a, n);
    MultisetWithout(b, k);
    assert Dropped(a, n) == a[..n];
  }

  predicate EndsWith<T(==)>(s: seq<T>, suffix: seq<T>) {
    |s| >= |suffix| && s[|s| - |suffix|..] == suffix
  }

  lemma TrimOnce<T>(s: seq<T>, suffix: seq<T>)
    requires suffix != [] && !EndsWith(s, suffix)
    ensures TrimEndMatches(s + suffix, suffix) == s
  {
    assert (s + suffix)[..|s|] == s;
    assert EndsWith(s + suffix, suffix);
  }

  // ---------------------------------------------------------------------------
  // String order
  // ---------------------------------------------------------------------------

  /** Lexicographic order by character code. */
  predicate Less(a: string, b: string) {
    b != [] && (a == [] || a[0] < b[0] || (a[0] == b[0] && Less(a[1..], b[1..])))
  }

  lemma {:induction false} LessIsStrictTotal(a: string, b: string)
    ensures !Less(a, a)
    ensures a != b ==> Less(a, b) || Less(b, a)
    ensures !(Less(a, b) && Less(b, a))
  {
    if a != [] {
      LessIsStrictTotal(a[1..], a[1..]);
      if b != [] {
        LessIsStrictTotal(a[1..], b[1..]);
        assert a == [a[0]] + a[1..] && b == [b[0]] + b[1..];
      }
    }
  }

  lemma LessBehindSeparator(sep: char, s: string, t: string)
    ensures Less([sep] + s, [sep] + t) <==> Less(s, t)
  {
    LessByHead([sep], [sep], s, t);
    LessIsStrictTotal([sep], [sep]);
  }

  /** Behind heads of equal length the order is decided by the heads, then by the tails. */
  lemma {:induction false} LessByHead(p: string, q: string, s: string, t: string)
    requires |p| == |q|
    ensures Less(p + s, q + t) <==> Less(p, q) || (p == q && Less(s, t))
  {
    if p == [] {
      assert p + s == s && q + t == t;
    } else {
      LessByHead(p[1..], q[1..], s, t);
      assert (p + s)[1..] == p[1..] + s && (q + t)[1..] == q[1..] + t;
      assert p == [p[0]] + p[1..] && q == [q[0]] + q[1..];
    }
  }
}
