/** mobile_entity_store.rs: object ids made from free text, the key of a registration, and registering. */
module EntityIds {
  import opened Text
  import StateStore

  // ---------------------------------------------------------------------------
  // Sanitising: lower-case the text, split it at runs of other characters, join the words
  // ---------------------------------------------------------------------------

  function Lower(c: char): char {
    if 'A' <= c <= 'Z' then c + 32 as char else c
  }

  predicate IsWordCharacter(c: char) {
    'a' <= c <= 'z' || '0' <= c <= '9'
  }

  /** Letters and digits in lower case, an underscore for everything else. */
  function Normalized(s: string): (r: string)
    ensures |r| == |s|
  {
    seq(|s|, i requires 0 <= i < |s| => if IsWordCharacter(Lower(s[i])) then Lower(s[i]) else '_')
  }

  function NonEmpty(pieces: seq<string>): seq<string> {
    if pieces == [] then []
    else
      var before := NonEmpty(pieces[..|pieces| - 1]);
      if pieces[|pieces| - 1] == "" then before else before + [pieces[|pieces| - 1]]
  }

  function Words(s: string): seq<string> {
    NonEmpty(Split(Normalized(s), '_'))
  }

  function Join(words: seq<string>): string {
    if words == [] then ""
    else if |words| == 1 then words[0]
    else Join(words[..|words| - 1]) + (['_'] + words[|words| - 1])
  }

  function Sanitized(s: string): string {
    if Words(s) == [] then "entity" else Join(Words(s))
  }

  /** One more character that is no separator goes to the last piece. */
  lemma {:induction false} SplitExtends(s: string, sep: char, c: char)
    requires c != sep
    ensures var p := Split(s, sep); Split(s + [c], sep) == p[..|p| - 1] + [p[|p| - 1] + [c]]
    decreases |s|
  {
    SplitOnceMeaning(s, sep);
    match SplitOnce(s, sep)
    case None =>
      SplitWithoutSeparator(s + [c], sep);
    case Some((a, b)) =>
      Regroup(a, [sep] + b, [c]);
      Regroup([sep], b, [c]);
      SplitAtSeparator(a, sep, b + [c]);
      SplitExtends(b, sep, c);
      var p := Split(b, sep);
      assert ([a] + p)[..|p|] == [a] + p[..|p| - 1];
      Regroup([a], p[..|p| - 1], [p[|p| - 1] + [c]]);
  }

  lemma SplitAtEnd(s: string, sep: char)
    ensures Split(s + [sep], sep) == Split(s, sep) + [""]
  {
    SplitJoined(s, sep, "");
    assert [sep] + "" == [sep];
    SplitWithoutSeparator("", sep);
  }

  lemma NormalizedStep(value: string, i: nat)
    requires i < |value|
    ensures Normalized(value[..i + 1])
         == Normalized(value[..i]) + [if IsWordCharacter(Lower(value[i])) then Lower(value[i]) else '_']
  {
  }

  lemma NonEmptyStep(pieces: seq<string>, last: string)
    ensures NonEmpty(pieces + [last]) == if last == "" then NonEmpty(pieces) else NonEmpty(pieces) + [last]
  {
    assert (pieces + [last])[..|pieces|] == pieces;
  }

  lemma JoinStep(words: seq<string>, w: string)
    ensures Join(words + [w]) == if words == [] then w else Join(words) + (['_'] + w)
  {
    assert (words + [w])[..|words|] == words;
  }

  /** Where the loop stands behind a prefix that splits into pieces: all words joined, and an underscore if the
      last word is over. */
  predicate Reached(pieces: seq<string>, objectId: string, lastWasSeparator: bool) {
    && pieces != []
    && objectId == Join(NonEmpty(pieces)) + (if lastWasSeparator then "_" else "")
    && (lastWasSeparator <==> NonEmpty(pieces) != [] && pieces[|pieces| - 1] == "")
  }

  lemma LastWordGrows(words: seq<string>, w: string, c: char)
    ensures Join(words + [w + [c]]) == Join(words + [w]) + [c]
  {
    JoinStep(words, w);
    JoinStep(words, w + [c]);
    Regroup(['_'], w, [c]);
    Regroup(Join(words), ['_'] + w, [c]);
  }

  lemma NewWord(words: seq<string>, c: char)
    ensures Join(words + [[c]]) == Join(words) + (if words == [] then [] else ['_']) + [c]
  {
    JoinStep(words, [c]);
    Regroup(Join(words), ['_'], [c]);
  }

  lemma WordCharacterStep(pieces: seq<string>, objectId: string, lastWasSeparator: bool, c: char)
    requires Reached(pieces, objectId, lastWasSeparator)
    ensures var n := |pieces| - 1;
      Reached(pieces[..n] + [pieces[n] + [c]], objectId + [c], false)
  {
    var n := |pieces| - 1;
    assert pieces == pieces[..n] + [pieces[n]];
    var words := NonEmpty(pieces[..n]);
    NonEmptyStep(pieces[..n], pieces[n]);
    NonEmptyStep(pieces[..n], pieces[n] + [c]);
    if pieces[n] == "" {
      assert pieces[n] + [c] == [c];
      NewWord(words, c);
    } else {
      LastWordGrows(words, pieces[n], c);
    }
  }

  lemma SeparatorStep(pieces: seq<string>, objectId: string, lastWasSeparator: bool)
    requires Reached(pieces, objectId, lastWasSeparator)
    ensures var push := !lastWasSeparator && objectId != "";
      Reached(pieces + [""], if push then objectId + ['_'] else objectId, push || lastWasSeparator)
  {
    NonEmptyStep(pieces, "");
    WordsAreFilled(pieces);
    JoinIsFilled(NonEmpty(pieces));
  }

  lemma {:induction false} WordsAreFilled(pieces: seq<string>)
    ensures forall k :: 0 <= k < |NonEmpty(pieces)| ==> NonEmpty(pieces)[k] != "" && NonEmpty(pieces)[k] in pieces
  {
    if pieces != [] {
      WordsAreFilled(pieces[..|pieces| - 1]);
    }
  }

  /** Joined words do not end in an underscore, and are empty only if there are none. */
  lemma JoinIsFilled(words: seq<string>)
    requires forall k :: 0 <= k < |words| ==> words[k] != ""
    ensures words != [] ==> Join(words) != "" && Join(words)[|Join(words)| - 1] == Last(Last(words))
    ensures words == [] ==> Join(words) == ""
  {
  }

  function Pieces(value: string, i: nat): seq<string>
    requires i <= |value|
  {
    Split(Normalized(value[..i]), '_')
  }

  lemma AfterWordCharacter(value: string, i: nat, objectId: string, lastWasSeparator: bool)
    requires i < |value| && IsWordCharacter(Lower(value[i]))
    requires Reached(Pieces(value, i), objectId, lastWasSeparator)
    ensures Reached(Pieces(value, i + 1), objectId + [Lower(value[i])], false)
  {
    NormalizedStep(value, i);
    SplitExtends(Normalized(value[..i]), '_', Lower(value[i]));
    WordCharacterStep(Pieces(value, i), objectId, lastWasSeparator, Lower(value[i]));
  }

  lemma AfterSeparator(value: string, i: nat, objectId: string, lastWasSeparator: bool)
    requires i < |value| && !IsWordCharacter(Lower(value[i]))
    requires Reached(Pieces(value, i), objectId, lastWasSeparator)
    ensures var push := !lastWasSeparator && objectId != "";
      Reached(Pieces(value, i + 1), if push then objectId + ['_'] else objectId, push || lastWasSeparator)
  {
    NormalizedStep(value, i);
    SplitAtEnd(Normalized(value[..i]), '_');
    SeparatorStep(Pieces(value, i), objectId, lastWasSeparator);
  }

  method SanitizeObjectId(value: string) returns (objectId: string)
    ensures objectId == Sanitized(value)
  {
    objectId := "";
    var lastWasSeparator := false;
    SplitWithoutSeparator("", '_');
    for i := 0 to |value|
      invariant Reached(Pieces(value, i), objectId, lastWasSeparator)
    {
      var normalized := Lower(value[i]);
      if IsWordCharacter(normalized) {
        AfterWordCharacter(value, i, objectId, lastWasSeparator);
        objectId := objectId + [normalized];
        lastWasSeparator := false;
        continue;
      }
      AfterSeparator(value, i, objectId, lastWasSeparator);
      if !lastWasSeparator && objectId != "" {
        objectId := objectId + ['_'];
        lastWasSeparator := true;
      }
    }
    assert value[..|value|] == value;
    TrimUnderscores(Pieces(value, |value|), objectId, lastWasSeparator, Normalized(value));
    objectId := PopUnderscores(objectId, Join(Words(value)));
    if objectId == "" {
      objectId := "entity";
    }
  }

  /** The loop that drops trailing underscores. */
  method PopUnderscores(s: string, ghost joined: string) returns (r: string)
    requires joined != "" ==> IsWordCharacter(Last(joined))
    requires s == joined || s == joined + "_"
    ensures r == joined
  {
    r := s;
    while r != "" && r[|r| - 1] == '_'
      invariant r == joined || r == joined + "_"
      decreases |r|
    {
      assert (joined + "_")[..|joined|] == joined;
      r := r[..|r| - 1];
    }
  }

  lemma TrimUnderscores(pieces: seq<string>, objectId: string, lastWasSeparator: bool, s: string)
    requires pieces == Split(s, '_') && Reached(pieces, objectId, lastWasSeparator)
    requires forall c :: c in s ==> IsWordCharacter(c) || c == '_'
    ensures var joined := Join(NonEmpty(pieces));
      && (joined == "" <==> NonEmpty(pieces) == [])
      && (joined != "" ==> IsWordCharacter(Last(joined)))
      && (objectId == joined || objectId == joined + "_")
  {
    WordsAreFilled(pieces);
    JoinIsFilled(NonEmpty(pieces));
    PiecesAreWords(s);
    if NonEmpty(pieces) != [] {
      var w := Last(NonEmpty(pieces));
      assert w in pieces && Last(w) in w;
    }
  }

  /** The pieces hold word characters only. */
  lemma {:induction false} PiecesAreWords(s: string)
    requires forall c :: c in s ==> IsWordCharacter(c) || c == '_'
    ensures forall w, c :: w in Split(s, '_') && c in w ==> IsWordCharacter(c)
    decreases |s|
  {
    SplitOnceMeaning(s, '_');
    match SplitOnce(s, '_')
    case None =>
    case Some((a, b)) =>
      PiecesAreWords(b);
  }

  // ---------------------------------------------------------------------------
  // Sanitising twice is sanitising once
  // ---------------------------------------------------------------------------

  predicate IsWord(w: string) {
    w != "" && forall c :: c in w ==> IsWordCharacter(c)
  }

  predicate AllWords(words: seq<string>) {
    forall k :: 0 <= k < |words| ==> IsWord(words[k])
  }

  lemma NormalizedCharacters(s: string)
    ensures forall c :: c in Normalized(s) ==> IsWordCharacter(c) || c == '_'
  {
  }

  lemma WordsAreWords(s: string)
    ensures AllWords(Words(s))
  {
    NormalizedCharacters(s);
    PiecesAreWords(Normalized(s));
    WordsAreFilled(Split(Normalized(s), '_'));
  }

  lemma {:induction false} JoinedCharacters(words: seq<string>)
    requires AllWords(words)
    ensures forall c :: c in Join(words) ==> IsWordCharacter(c) || c == '_'
  {
    if |words| > 1 {
      JoinedCharacters(words[..|words| - 1]);
    }
  }

  lemma NormalizedIsFixed(s: string)
    requires forall c :: c in s ==> IsWordCharacter(c) || c == '_'
    ensures Normalized(s) == s
  {
    forall i | 0 <= i < |s|
      ensures Normalized(s)[i] == s[i]
    {
      assert s[i] in s;
    }
  }

  /** Splitting what was joined gives the words back. */
  lemma {:induction false} SplitOfJoin(words: seq<string>)
    requires AllWords(words) && words != []
    ensures Split(Join(words), '_') == words
  {
    var w := words[|words| - 1];
    assert '_' !in w;
    SplitWithoutSeparator(w, '_');
    if |words| > 1 {
      SplitOfJoin(words[..|words| - 1]);
      SplitJoined(Join(words[..|words| - 1]), '_', w);
    }
  }

  lemma {:induction false} NonEmptyIsFixed(words: seq<string>)
    requires AllWords(words)
    ensures NonEmpty(words) == words
  {
    if words != [] {
      NonEmptyIsFixed(words[..|words| - 1]);
    }
  }

  lemma WordsOfJoin(words: seq<string>)
    requires AllWords(words) && words != []
    ensures Words(Join(words)) == words
  {
    JoinedCharacters(words);
    NormalizedIsFixed(Join(words));
    SplitOfJoin(words);
    NonEmptyIsFixed(words);
  }

  lemma SanitizeIsIdempotent(s: string)
    ensures Sanitized(Sanitized(s)) == Sanitized(s)
  {
    if Words(s) == [] {
      WordsOfJoin(["entity"]);
    } else {
      WordsAreWords(s);
      WordsOfJoin(Words(s));
    }
  }

  /** The result is a slug: not empty, and fit for an entity id. */
  lemma SanitizedIsSlug(s: string)
    ensures StateStore.IsSlug(Sanitized(s))
  {
    WordsAreWords(s);
    JoinedCharacters(Words(s));
    JoinIsFilled(Words(s));
  }

  // ---------------------------------------------------------------------------
  // What sanitising keeps, told by the characters
  // ---------------------------------------------------------------------------

  /** The letters and digits of s in their order, capital letters as small ones. */
  function WordCharacters(s: string): string {
    if s == "" then ""
    else
      var c := s[|s| - 1];
      WordCharacters(s[..|s| - 1]) +
      if 'A' <= c <= 'Z' then [(c as int - 'A' as int + 'a' as int) as char]
      else if 'a' <= c <= 'z' || '0' <= c <= '9' then [c]
      else ""
  }

  lemma OneMore(s: string, c: char)
    ensures WordCharacters(s + [c])
         == WordCharacters(s) + if IsWordCharacter(Lower(c)) then [Lower(c)] else ""
  {
    assert (s + [c])[..|s|] == s;
  }

  /** A letter or digit goes to the end, behind an underscore if it begins a new word. */
  lemma GrownByWordCharacter(s: string, c: char)
    requires IsWordCharacter(Lower(c))
    ensures var joined := Join(Words(s)); var grown := Join(Words(s + [c]));
      grown == joined + [Lower(c)] || grown == joined + ['_'] + [Lower(c)]
  {
    var t, pieces := s + [c], Split(Normalized(s), '_');
    assert t[..|s|] == s && t[..|s| + 1] == t;
    var isOver := Words(s) != [] && Last(pieces) == "";
    var objectId := Join(Words(s)) + (if isOver then "_" else "");
    AfterWordCharacter(t, |s|, objectId, isOver);
    assert Join(Words(t)) + "" == objectId + [Lower(c)];
    assert Join(Words(s)) + "" == Join(Words(s)) && Join(Words(t)) + "" == Join(Words(t)) && "_" == ['_'];
  }

  lemma {:induction false} JoinedWordCharacters(s: string)
    ensures WordCharacters(Join(Words(s))) == WordCharacters(s)
  {
    if s == "" {
      SplitWithoutSeparator("", '_');
    } else {
      var t, c := s[..|s| - 1], s[|s| - 1];
      assert s == t + [c];
      JoinedWordCharacters(t);
      OneMore(t, c);
      if IsWordCharacter(Lower(c)) {
        GrownByWordCharacter(t, c);
        OneMore(Join(Words(t)), Lower(c));
        OneMore(Join(Words(t)), '_');
        OneMore(Join(Words(t)) + ['_'], Lower(c));
      } else {
        SeparatorAtEnd(t, c);
      }
    }
  }

  lemma FilledWordCharacters(words: seq<string>)
    requires AllWords(words) && words != []
    ensures WordCharacters(Join(words)) != ""
  {
    var w, joined := Last(words), Join(words);
    JoinIsFilled(words);
    assert Last(w) in w;
    OneMore(joined[..|joined| - 1], Last(joined));
    assert joined == joined[..|joined| - 1] + [Last(joined)];
  }

  /** Sanitising keeps every letter and digit, in order and in lower case; a text without any becomes "entity". */
  lemma WordCharactersSurvive(s: string)
    ensures WordCharacters(Sanitized(s)) == if WordCharacters(s) == "" then "entity" else WordCharacters(s)
  {
    JoinedWordCharacters(s);
    WordsAreWords(s);
    if Words(s) != [] {
      FilledWordCharacters(Words(s));
    }
    SmallLettersStay("entity");
  }

  lemma {:induction false} SmallLettersStay(s: string)
    requires forall k :: 0 <= k < |s| ==> 'a' <= s[k] <= 'z'
    ensures WordCharacters(s) == s
  {
    if s != "" {
      SmallLettersStay(s[..|s| - 1]);
      OneMore(s[..|s| - 1], s[|s| - 1]);
      assert s == s[..|s| - 1] + [s[|s| - 1]];
    }
  }

  lemma {:induction false} NonEmptyJoined(a: seq<string>, b: seq<string>)
    ensures NonEmpty(a + b) == NonEmpty(a) + NonEmpty(b)
  {
    if b == [] {
      assert a + b == a;
    } else {
      var init, last := b[..|b| - 1], b[|b| - 1];
      assert a + b == (a + init) + [last] && b == init + [last];
      NonEmptyJoined(a, init);
      NonEmptyStep(a + init, last);
      NonEmptyStep(init, last);
    }
  }

  /** Every other character ends a word: the words before it and behind it stay apart. */
  lemma WordsEndAtSeparators(a: string, c: char, b: string)
    requires WordCharacters([c]) == ""
    ensures Words(a + ([c] + b)) == Words(a) + Words(b)
  {
    OneMore("", c);
    assert [c] == "" + [c];
    assert Normalized(a + ([c] + b)) == Normalized(a) + (['_'] + Normalized(b));
    SplitJoined(Normalized(a), '_', Normalized(b));
    NonEmptyJoined(Split(Normalized(a), '_'), Split(Normalized(b), '_'));
  }

  /** And no letter or digit does: a text of nothing else is one word. */
  lemma WordsEndNowhereElse(a: string)
    requires a != "" && |WordCharacters(a)| == |a|
    ensures Words(a) == [WordCharacters(a)]
  {
    OneWord(a);
    SplitWithoutSeparator(Normalized(a), '_');
    NonEmptyStep([], Normalized(a));
    assert [] + [Normalized(a)] == [Normalized(a)];
  }

  /** No text has more letters and digits than characters; with as many, it holds nothing else. */
  lemma {:induction false} OneWord(s: string)
    ensures |WordCharacters(s)| <= |s|
    ensures |WordCharacters(s)| == |s| ==> Normalized(s) == WordCharacters(s) && '_' !in Normalized(s)
  {
    if s != "" {
      var t, c := s[..|s| - 1], s[|s| - 1];
      assert s == t + [c];
      OneWord(t);
      OneMore(t, c);
      NormalizedStep(s, |t|);
      assert s[..|t|] == t && s[..|t| + 1] == s;
    }
  }

  // ---------------------------------------------------------------------------
  // Keys of registrations
  // ---------------------------------------------------------------------------

  const SENSOR := "sensor"
  const BINARY_SENSOR := "binary_sensor"

  datatype Registration = Registration(webhookId: string, entityType: string, uniqueId: string, name: string,
                                       settings: map<string, string>, disabled: bool)

  predicate Valid(r: Registration) {
    && r.webhookId != "" && r.uniqueId != "" && r.name != ""
    && (r.entityType == SENSOR || r.entityType == BINARY_SENSOR)
  }

  function StoreKey(webhookId: string, entityType: string, uniqueId: string): string {
    entityType + ([':'] + (webhookId + ([':'] + uniqueId)))
  }

  function KeyOf(r: Registration): string {
    StoreKey(r.webhookId, r.entityType, r.uniqueId)
  }

  /** derive_entity_id: its callers pass keys, which have a colon. */
  function DeriveEntityId(key: string): string
    requires ':' in key
  {
    SplitOnceMeaning(key, ':');
    var (entityType, rest) := SplitOnce(key, ':').value;
    entityType + ".mobile_app_" + Sanitized(rest)
  }

  lemma TypeHasNoColon(r: Registration)
    requires Valid(r)
    ensures ':' !in r.entityType && '.' !in r.entityType && StateStore.IsSlug(r.entityType)
  {
  }

  lemma KeyHasColon(r: Registration)
    ensures ':' in KeyOf(r)
  {
    var rest := r.webhookId + ([':'] + r.uniqueId);
    assert KeyOf(r)[|r.entityType|] == ':';
  }

  predicate SameIdentity(a: Registration, b: Registration) {
    a.entityType == b.entityType && a.webhookId == b.webhookId && a.uniqueId == b.uniqueId
  }

  lemma KeysShareTail(a: Registration, b: Registration)
    requires Valid(a) && Valid(b) && KeyOf(a) == KeyOf(b)
    ensures a.entityType == b.entityType
    ensures a.webhookId + ([':'] + a.uniqueId) == b.webhookId + ([':'] + b.uniqueId)
  {
    TypeHasNoColon(a);
    TypeHasNoColon(b);
    SplitOnceAt(a.entityType, ':', a.webhookId + ([':'] + a.uniqueId));
    SplitOnceAt(b.entityType, ':', b.webhookId + ([':'] + b.uniqueId));
  }

  /** For webhook ids without a colon the key identifies the registration. */
  lemma KeysAreInjective(a: Registration, b: Registration)
    requires Valid(a) && Valid(b) && ':' !in a.webhookId && ':' !in b.webhookId
    ensures KeyOf(a) == KeyOf(b) <==> SameIdentity(a, b)
  {
    if KeyOf(a) == KeyOf(b) {
      KeysShareTail(a, b);
      SplitOnceAt(a.webhookId, ':', a.uniqueId);
      SplitOnceAt(b.webhookId, ':', b.uniqueId);
    }
  }

  /** A registration shares its key with a different valid one exactly if its webhook id has a colon behind its
      first character or its unique id has one before its last. */
  predicate Ambiguous(r: Registration) {
    || (exists i :: 1 <= i < |r.webhookId| && r.webhookId[i] == ':')
    || (exists i :: 0 <= i < |r.uniqueId| - 1 && r.uniqueId[i] == ':')
  }

  lemma CutWebhookId(a: Registration, i: nat) returns (b: Registration)
    requires Valid(a) && 1 <= i < |a.webhookId| && a.webhookId[i] == ':'
    ensures Valid(b) && KeyOf(b) == KeyOf(a) && !SameIdentity(a, b)
  {
    var head, tail := a.webhookId[..i], a.webhookId[i + 1..];
    b := a.(webhookId := head, uniqueId := tail + ([':'] + a.uniqueId));
    assert a.webhookId == head + ([':'] + tail);
    Regroup(head, [':'] + tail, [':'] + a.uniqueId);
    Regroup([':'], tail, [':'] + a.uniqueId);
  }

  lemma CutUniqueId(a: Registration, i: nat) returns (b: Registration)
    requires Valid(a) && i < |a.uniqueId| - 1 && a.uniqueId[i] == ':'
    ensures Valid(b) && KeyOf(b) == KeyOf(a) && !SameIdentity(a, b)
  {
    var head, tail := a.uniqueId[..i], a.uniqueId[i + 1..];
    b := a.(webhookId := a.webhookId + ([':'] + head), uniqueId := tail);
    assert a.uniqueId == head + ([':'] + tail);
    Regroup(a.webhookId, [':'] + head, [':'] + tail);
    Regroup([':'], head, [':'] + tail);
  }

  lemma AmbiguousKeys(a: Registration)
    requires Valid(a)
    ensures Ambiguous(a) <==> exists b :: Valid(b) && KeyOf(b) == KeyOf(a) && !SameIdentity(a, b)
  {
    if i :| 1 <= i < |a.webhookId| && a.webhookId[i] == ':' {
      var _ := CutWebhookId(a, i);
    } else if i :| 0 <= i < |a.uniqueId| - 1 && a.uniqueId[i] == ':' {
      var _ := CutUniqueId(a, i);
    }
    if b :| Valid(b) && KeyOf(b) == KeyOf(a) && !SameIdentity(a, b) {
      SharedKeyIsAmbiguous(a, b);
    }
  }

  lemma EqualHeads(p: string, s: string, q: string, t: string)
    requires p + s == q + t
    ensures |p| == |q| ==> p == q && s == t
  {
    assert (p + s)[..|p|] == p && (p + s)[|p|..] == s;
    assert (q + t)[..|q|] == q && (q + t)[|q|..] == t;
  }

  lemma SharedKeyIsAmbiguous(a: Registration, b: Registration)
    requires Valid(a) && Valid(b) && KeyOf(a) == KeyOf(b) && !SameIdentity(a, b)
    ensures Ambiguous(a)
  {
    KeysShareTail(a, b);
    var m, n := |a.webhookId|, |b.webhookId|;
    var x, y := a.webhookId + ([':'] + a.uniqueId), b.webhookId + ([':'] + b.uniqueId);
    assert x == y && |x| == m + 1 + |a.uniqueId| == n + 1 + |b.uniqueId|;
    assert x[m] == ':' && y[n] == ':';
    EqualHeads(a.webhookId, [':'] + a.uniqueId, b.webhookId, [':'] + b.uniqueId);
    assert ([':'] + a.uniqueId)[1..] == a.uniqueId && ([':'] + b.uniqueId)[1..] == b.uniqueId;
    if n < m {
      assert a.webhookId[n] == x[n] == ':';
    } else if m < n {
      assert a.uniqueId[n - m - 1] == x[n] == ':';
    }
  }

  /** Every derived id is one the state store accepts. */
  lemma DerivedIdIsValid(r: Registration)
    requires Valid(r)
    ensures ':' in KeyOf(r) && StateStore.ValidEntityId(DeriveEntityId(KeyOf(r)))
  {
    KeyHasColon(r);
    TypeHasNoColon(r);
    var rest := r.webhookId + ([':'] + r.uniqueId);
    SplitOnceAt(r.entityType, ':', rest);
    SanitizedIsSlug(rest);
    var objectId := "mobile_app_" + Sanitized(rest);
    assert r.entityType + ".mobile_app_" + Sanitized(rest) == r.entityType + (['.'] + objectId);
    SplitOnceAt(r.entityType, '.', objectId);
    assert StateStore.IsSlug("mobile_app_");
  }

  // ---------------------------------------------------------------------------
  // Shared entity ids
  // ---------------------------------------------------------------------------

  /** The words an object id is made of. */
  function IdWords(s: string): seq<string> {
    if Words(s) == [] then ["entity"] else Words(s)
  }

  lemma SameSanitized(s: string, t: string)
    ensures Sanitized(s) == Sanitized(t) <==> IdWords(s) == IdWords(t)
  {
    WordsAreWords(s);
    WordsAreWords(t);
    WordsOfJoin(IdWords(s));
    WordsOfJoin(IdWords(t));
  }

  /** What of a registration its entity id is made from. */
  function Tail(r: Registration): string {
    r.webhookId + ([':'] + r.uniqueId)
  }

  lemma DerivedId(r: Registration)
    requires Valid(r)
    ensures ':' in KeyOf(r)
    ensures DeriveEntityId(KeyOf(r)) == r.entityType + (['.'] + ("mobile_app_" + Sanitized(Tail(r))))
  {
    KeyHasColon(r);
    TypeHasNoColon(r);
    SplitOnceAt(r.entityType, ':', Tail(r));
    Regroup(r.entityType, ".mobile_app_", Sanitized(Tail(r)));
    Regroup(['.'], "mobile_app_", Sanitized(Tail(r)));
    assert ".mobile_app_" == ['.'] + "mobile_app_";
  }

  /** Two registrations get the same entity id exactly if they are of one type and their webhook and unique ids
      consist of the same words: case, the separators and where one id ends and the other begins do not matter. */
  lemma EntityIdsCollide(a: Registration, b: Registration)
    requires Valid(a) && Valid(b)
    ensures ':' in KeyOf(a) && ':' in KeyOf(b)
    ensures DeriveEntityId(KeyOf(a)) == DeriveEntityId(KeyOf(b)) <==>
      a.entityType == b.entityType && IdWords(Tail(a)) == IdWords(Tail(b))
  {
    DerivedId(a);
    DerivedId(b);
    TypeHasNoColon(a);
    TypeHasNoColon(b);
    var x, y := "mobile_app_" + Sanitized(Tail(a)), "mobile_app_" + Sanitized(Tail(b));
    SplitOnceAt(a.entityType, '.', x);
    SplitOnceAt(b.entityType, '.', y);
    assert x[11..] == Sanitized(Tail(a)) && y[11..] == Sanitized(Tail(b));
    SameSanitized(Tail(a), Tail(b));
  }

  lemma SeparatorAtEnd(s: string, c: char)
    requires !IsWordCharacter(Lower(c))
    ensures Words(s + [c]) == Words(s)
  {
    var t := s + [c];
    assert t[..|s|] == s && t[..|s| + 1] == t;
    NormalizedStep(t, |s|);
    SplitAtEnd(Normalized(s), '_');
    NonEmptyStep(Split(Normalized(s), '_'), "");
  }

  /** No entity id belongs to one registration alone. */
  lemma EveryIdIsShared(a: Registration) returns (b: Registration)
    requires Valid(a)
    ensures Valid(b) && !SameIdentity(a, b) && KeyOf(a) != KeyOf(b) && ':' in KeyOf(a) && ':' in KeyOf(b)
    ensures DeriveEntityId(KeyOf(a)) == DeriveEntityId(KeyOf(b))
  {
    b := a.(uniqueId := a.uniqueId + ['-']);
    assert |KeyOf(b)| == |KeyOf(a)| + 1;
    Regroup([':'], a.uniqueId, ['-']);
    Regroup(a.webhookId, [':'] + a.uniqueId, ['-']);
    SeparatorAtEnd(Tail(a), '-');
    EntityIdsCollide(a, b);
  }

  // ---------------------------------------------------------------------------
  // Registering
  // ---------------------------------------------------------------------------

  /** The last four fields belong to the user; a registration resets them. */
  datatype Record = Record(registration: Registration, entityId: string,
                           nameByUser: Option<string>, userAreaId: Option<string>, hiddenBy: Option<string>,
                           labels: seq<string>)

  function RecordFor(entities: map<string, Record>, r: Registration): Record {
    KeyHasColon(r);
    var id := if KeyOf(r) in entities then entities[KeyOf(r)].entityId else DeriveEntityId(KeyOf(r));
    Record(r, id, None, None, None, [])
  }

  class MobileEntityStore {
    var entities: map<string, Record>

    /** Every id is the one derived from its key, so it survives removal and re-registration. */
    ghost predicate IdsAreDerived()
      reads this
    {
      forall key :: key in entities ==> ':' in key && entities[key].entityId == DeriveEntityId(key)
    }

    constructor ()
      ensures entities == map[] && IdsAreDerived()
    {
      entities := map[];
    }

    /** `saves` says whether the file could be saved, where that is needed. */
    method Register(r: Registration, saves: bool) returns (record: Option<Record>)
      requires IdsAreDerived()
      modifies this
      ensures record.Some? <==>
        Valid(r) && (saves || Lookup(old(entities), KeyOf(r)) == Some(RecordFor(old(entities), r)))
      ensures record.None? ==> entities == old(entities)
      ensures record.Some? ==>
        && entities == old(entities)[KeyOf(r) := record.value]
        && record.value == RecordFor(old(entities), r)
        && record.value.registration == r && record.value.labels == []
        && record.value.nameByUser == None && record.value.userAreaId == None && record.value.hiddenBy == None
        && record.value.entityId == r.entityType + (['.'] + ("mobile_app_" + Sanitized(Tail(r))))
      ensures IdsAreDerived()
    {
      if !Valid(r) {
        return None;
      }
      DerivedId(r);
      var key := StoreKey(r.webhookId, r.entityType, r.uniqueId);
      var id := if key in entities then entities[key].entityId else DeriveEntityId(key);
      var made := Record(r, id, None, None, None, []);
      if key in entities && entities[key] == made {
        return Some(made);
      }
      if !saves {
        return None;
      }
      entities := entities[key := made];
      record := Some(made);
    }
  }

  /** Registering never touches another registration's record, and registering again keeps the id. */
  lemma RegisterIsLocal(entities: map<string, Record>, a: Registration, b: Registration, again: Registration)
    requires Valid(a) && Valid(b) && ':' !in a.webhookId && ':' !in b.webhookId && !SameIdentity(a, b)
    requires SameIdentity(a, again)
    ensures var after := entities[KeyOf(a) := RecordFor(entities, a)];
      && (KeyOf(b) in after <==> KeyOf(b) in entities)
      && (KeyOf(b) in entities ==> after[KeyOf(b)] == entities[KeyOf(b)])
      && RecordFor(after, again).entityId == after[KeyOf(a)].entityId
  {
    KeysAreInjective(a, b);
  }
}
