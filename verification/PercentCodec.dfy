/** Percent encoding (RFC 3986, sections 2.1 and 2.3) and the authorization redirect of ha_auth.rs.
    Strings are the bytes of their UTF-8 form. */
module PercentCodec {
  import opened Text

  type Bytes = seq<Byte>

  const PERCENT: Byte := 37
  const PLUS: Byte := 43
  const SPACE: Byte := 32

  predicate Unreserved(b: Byte) {
    65 <= b <= 90 || 97 <= b <= 122 || 48 <= b <= 57 || b == 45 || b == 95 || b == 46 || b == 126
  }

  /** Upper-case hexadecimal digit, as `{:02X}` prints it. */
  function HexDigit(n: nat): (b: Byte)
    requires n < 16
  {
    if n < 10 then 48 + n else 55 + n
  }

  function HexValue(b: Byte): (r: Option<nat>)
    ensures r.Some? ==> r.value < 16
  {
    if 48 <= b <= 57 then Some(b - 48)
    else if 97 <= b <= 102 then Some(b - 97 + 10)
    else if 65 <= b <= 70 then Some(b - 65 + 10)
    else None
  }

  // ---------------------------------------------------------------------------
  // The codec as functions
  // ---------------------------------------------------------------------------

  function EncodeByte(b: Byte): Bytes {
    if Unreserved(b) then [b] else [PERCENT, HexDigit(b / 16), HexDigit(b % 16)]
  }

  function Encode(s: Bytes): Bytes {
    if s == [] then [] else EncodeByte(s[0]) + Encode(s[1..])
  }

  /** The first decoded byte and how many bytes it took. An incomplete or malformed escape stands for itself. */
  function DecodeHead(s: Bytes): (r: (Byte, nat))
    requires s != []
    ensures 1 <= r.1 <= |s|
  {
    if s[0] == PLUS then (SPACE, 1)
    else if s[0] == PERCENT && 2 < |s| then
      match (HexValue(s[1]), HexValue(s[2]))
      case (Some(high), Some(low)) => (16 * high + low, 3)
      case _ => (s[0], 1)
    else (s[0], 1)
  }

  function Decode(s: Bytes): Bytes {
    if s == [] then [] else var (b, n) := DecodeHead(s); [b] + Decode(s[n..])
  }

  // ---------------------------------------------------------------------------
  // The loops of the source
  // ---------------------------------------------------------------------------

  lemma EncodeStep(value: Bytes, i: nat, encoded: Bytes)
    requires i < |value|
    ensures encoded + EncodeByte(value[i]) + Encode(value[i + 1..]) == encoded + Encode(value[i..])
  {
    assert value[i..][1..] == value[i + 1..];
    Regroup(encoded, EncodeByte(value[i]), Encode(value[i + 1..]));
  }

  method PercentEncode(value: Bytes) returns (encoded: Bytes)
    ensures encoded == Encode(value)
  {
    encoded := [];
    var i := 0;
    while i < |value|
      invariant i <= |value|
      invariant encoded + Encode(value[i..]) == Encode(value)
    {
      EncodeStep(value, i, encoded);
      var byte := value[i];
      var escape := if byte == SPACE then [PERCENT, 50, 48] else [PERCENT, HexDigit(byte / 16), HexDigit(byte % 16)];
      var out := if Unreserved(byte) then [byte] else escape;
      assert out == EncodeByte(byte);
      encoded := encoded + out;
      i := i + 1;
    }
  }

  lemma DecodeStep(value: Bytes, i: nat, b: Byte, n: nat, decoded: Bytes)
    requires i < |value| && DecodeHead(value[i..]) == (b, n)
    ensures i + n <= |value| && decoded + [b] + Decode(value[i + n..]) == decoded + Decode(value[i..])
  {
    assert value[i..][n..] == value[i + n..];
    Regroup(decoded, [b], Decode(value[i + n..]));
  }

  lemma HeadOfRest(value: Bytes, i: nat)
    requires i < |value|
    ensures DecodeHead(value[i..]) ==
      if value[i] == PLUS then (SPACE, 1)
      else if value[i] == PERCENT && i + 2 < |value|
              && HexValue(value[i + 1]).Some? && HexValue(value[i + 2]).Some?
      then (16 * HexValue(value[i + 1]).value + HexValue(value[i + 2]).value, 3)
      else (value[i], 1)
  {
  }

  method PercentDecode(value: Bytes) returns (decoded: Bytes)
    ensures decoded == Decode(value)
  {
    decoded := [];
    var index := 0;
    while index < |value|
      invariant index <= |value|
      invariant decoded + Decode(value[index..]) == Decode(value)
    {
      var b, n := value[index], 1;
      if value[index] == PLUS {
        b := SPACE;
      } else if value[index] == PERCENT && index + 2 < |value| {
        var high, low := HexValue(value[index + 1]), HexValue(value[index + 2]);
        if high.Some? && low.Some? {
          b, n := 16 * high.value + low.value, 3;
        }
      }
      HeadOfRest(value, index);
      assert DecodeHead(value[index..]) == (b, n);
      DecodeStep(value, index, b, n, decoded);
      decoded := decoded + [b];
      index := index + n;
    }
  }

  // ---------------------------------------------------------------------------
  // Round trip
  // ---------------------------------------------------------------------------

  lemma DecodeEncodedByte(b: Byte, rest: Bytes)
    ensures Decode(EncodeByte(b) + rest) == [b] + Decode(rest)
  {
    var s := EncodeByte(b) + rest;
    if Unreserved(b) {
      assert s[1..] == rest;
    } else {
      assert s[1] == HexDigit(b / 16) && s[2] == HexDigit(b % 16);
      assert DecodeHead(s) == (b, 3);
      assert s[3..] == rest;
    }
  }

  /** Decoding gives back every string. */
  lemma {:induction false} RoundTrip(s: Bytes)
    ensures Decode(Encode(s)) == s
  {
    if s != [] {
      RoundTrip(s[1..]);
      DecodeEncodedByte(s[0], Encode(s[1..]));
    }
  }

  /** Encoded text is made of unreserved characters and percent signs only. */
  lemma {:induction false} EncodedAlphabet(s: Bytes)
    ensures forall b :: b in Encode(s) ==> Unreserved(b) || b == PERCENT
  {
    if s != [] {
      EncodedAlphabet(s[1..]);
    }
  }

  // ---------------------------------------------------------------------------
  // The authorization redirect
  // ---------------------------------------------------------------------------

  const QUESTION: Byte := 63
  const HASH: Byte := 35
  const AMPERSAND: Byte := 38
  const EQUALS: Byte := 61

  // "code", "state", "client_id", "redirect_uri" and "response_type"
  const CODE: Bytes := [99, 111, 100, 101]
  const STATE: Bytes := [115, 116, 97, 116, 101]
  const CLIENT_ID: Bytes := [99, 108, 105, 101, 110, 116, 95, 105, 100]
  const REDIRECT_URI: Bytes := [114, 101, 100, 105, 114, 101, 99, 116, 95, 117, 114, 105]
  const RESPONSE_TYPE: Bytes := [114, 101, 115, 112, 111, 110, 115, 101, 95, 116, 121, 112, 101]

  datatype AuthorizeRequest = AuthorizeRequest(responseType: Option<Bytes>, clientId: Option<Bytes>,
                                               redirectUri: Option<Bytes>, state: Option<Bytes>)

  const NOTHING := AuthorizeRequest(None, None, None, None)

  /** String::from_utf8_lossy, of which only its behaviour on valid UTF-8 is needed: to leave it alone. */
  type Lossy = Bytes -> Bytes

  function Location(redirect: Bytes, code: Bytes, state: Option<Bytes>): Bytes {
    var separator := if QUESTION in redirect then AMPERSAND else QUESTION;
    redirect + ([separator] + Pairs(code, state))
  }

  function Pairs(code: Bytes, state: Option<Bytes>): Bytes {
    var first := CODE + ([EQUALS] + code);
    match state
    case None => first
    case Some(s) => first + ([AMPERSAND] + (STATE + ([EQUALS] + Encode(s))))
  }

  /** build_authorize_redirect. */
  method BuildAuthorizeRedirect(redirect: Bytes, code: Bytes, state: Option<Bytes>) returns (location: Bytes)
    ensures location == Location(redirect, code, state)
  {
    var separator := if QUESTION in redirect then AMPERSAND else QUESTION;
    location := redirect + ([separator] + (CODE + ([EQUALS] + code)));
    if state.Some? {
      var encoded := PercentEncode(state.value);
      location := location + ([AMPERSAND] + (STATE + ([EQUALS] + encoded)));
    }
  }

  /** The query of a URI: behind the first question mark of what comes before the fragment. */
  function Query(uri: Bytes): Option<Bytes> {
    var whole := match SplitOnce(uri, HASH) case None => uri case Some((a, _)) => a;
    match SplitOnce(whole, QUESTION)
    case None => None
    case Some((_, q)) => Some(q)
  }

  /** One key=value pair of a query. A later pair overwrites an earlier one. */
  function ReadPair(r: AuthorizeRequest, pair: Bytes, lossy: Lossy): AuthorizeRequest {
    var (key, raw) := match SplitOnce(pair, EQUALS) case None => (pair, []) case Some(kv) => kv;
    var value := Some(lossy(Decode(raw)));
    if key == RESPONSE_TYPE then r.(responseType := value)
    else if key == CLIENT_ID then r.(clientId := value)
    else if key == REDIRECT_URI then r.(redirectUri := value)
    else if key == STATE then r.(state := value)
    else r
  }

  function ReadPairs(r: AuthorizeRequest, pairs: seq<Bytes>, lossy: Lossy): AuthorizeRequest {
    if pairs == [] then r else ReadPair(ReadPairs(r, pairs[..|pairs| - 1], lossy), pairs[|pairs| - 1], lossy)
  }

  function ReadRequest(uri: Bytes, lossy: Lossy): AuthorizeRequest {
    match Query(uri)
    case None => NOTHING
    case Some(q) => ReadPairs(NOTHING, Split(q, AMPERSAND), lossy)
  }

  /** parse_authorize_request. */
  method ParseAuthorizeRequest(uri: Bytes, lossy: Lossy) returns (request: AuthorizeRequest)
    ensures request == ReadRequest(uri, lossy)
  {
    request := NOTHING;
    var query := Query(uri);
    if query == None {
      return;
    }
    var pairs := Split(query.value, AMPERSAND);
    for i := 0 to |pairs|
      invariant request == ReadPairs(NOTHING, pairs[..i], lossy)
    {
      assert pairs[..i + 1][..i] == pairs[..i];
      var key, raw := pairs[i], [];
      var cut := SplitOnce(pairs[i], EQUALS);
      if cut.Some? {
        key, raw := cut.value.0, cut.value.1;
      }
      var decoded := PercentDecode(raw);
      var value := Some(lossy(decoded));
      if key == RESPONSE_TYPE { request := request.(responseType := value); }
      else if key == CLIENT_ID { request := request.(clientId := value); }
      else if key == REDIRECT_URI { request := request.(redirectUri := value); }
      else if key == STATE { request := request.(state := value); }
    }
    assert pairs[..|pairs|] == pairs;
  }

  lemma {:induction false} ReadPairsAppends(r: AuthorizeRequest, a: seq<Bytes>, b: seq<Bytes>, lossy: Lossy)
    ensures ReadPairs(r, a + b, lossy) == ReadPairs(ReadPairs(r, a, lossy), b, lossy)
  {
    if b == [] {
      assert a + b == a;
    } else {
      ReadPairsAppends(r, a, b[..|b| - 1], lossy);
      assert (a + b)[..|a + b| - 1] == a + b[..|b| - 1];
    }
  }

  lemma KeyAndValue(key: Bytes, value: Bytes)
    requires EQUALS !in key
    ensures SplitOnce(key + ([EQUALS] + value), EQUALS) == Some((key, value))
  {
    SplitOnceAt(key, EQUALS, value);
  }

  /** The pairs the redirect adds set the state and nothing else. */
  lemma PairsSetState(r: AuthorizeRequest, code: Bytes, state: Option<Bytes>, lossy: Lossy)
    requires AMPERSAND !in code
    requires state.Some? ==> lossy(state.value) == state.value
    ensures ReadPairs(r, Split(Pairs(code, state), AMPERSAND), lossy)
         == if state.Some? then r.(state := state) else r
  {
    var first := CODE + ([EQUALS] + code);
    KeyAndValue(CODE, code);
    assert ReadPairs(r, [], lossy) == r;
    match state
    case None =>
      SplitWithoutSeparator(first, AMPERSAND);
      assert ReadPairs(r, [first], lossy) == ReadPair(ReadPairs(r, [], lossy), first, lossy);
    case Some(s) =>
      var second := STATE + ([EQUALS] + Encode(s));
      EncodedAlphabet(s);
      SplitAtSeparator(first, AMPERSAND, second);
      SplitWithoutSeparator(second, AMPERSAND);
      KeyAndValue(STATE, Encode(s));
      RoundTrip(s);
      assert [first, second][..1] == [first];
      assert ReadPairs(r, [first], lossy) == ReadPair(ReadPairs(r, [], lossy), first, lossy);
  }

  lemma NoFragment(uri: Bytes)
    requires HASH !in uri
    ensures SplitOnce(uri, HASH) == None
  {
    SplitOnceMeaning(uri, HASH);
  }

  /** The query of a redirect built on a fragment-free URI: its own query, if any, and the added pairs. */
  lemma QueryOfLocation(redirect: Bytes, code: Bytes, state: Option<Bytes>)
    requires HASH !in redirect && HASH !in code
    ensures Query(Location(redirect, code, state)) == match Query(redirect)
      case None => Some(Pairs(code, state))
      case Some(q) => Some(q + ([AMPERSAND] + Pairs(code, state)))
  {
    var added := Pairs(code, state);
    if state.Some? {
      EncodedAlphabet(state.value);
    }
    assert HASH !in added;
    NoFragment(redirect);
    NoFragment(Location(redirect, code, state));
    SplitOnceMeaning(redirect, QUESTION);
    match SplitOnce(redirect, QUESTION)
    case None =>
      SplitOnceAt(redirect, QUESTION, added);
    case Some((path, q)) =>
      Regroup(path, [QUESTION] + q, [AMPERSAND] + added);
      Regroup([QUESTION], q, [AMPERSAND] + added);
      SplitOnceAt(path, QUESTION, q + ([AMPERSAND] + added));
  }

  /** What the client parses out of the redirect is what it would parse out of its own URI, with the state it
      sent: for every fragment-free URI, whatever query or state that URI carries itself. */
  lemma StateComesBack(redirect: Bytes, code: Bytes, state: Option<Bytes>, lossy: Lossy)
    requires HASH !in redirect && HASH !in code && AMPERSAND !in code
    requires state.Some? ==> lossy(state.value) == state.value
    ensures ReadRequest(Location(redirect, code, state), lossy)
         == (var own := ReadRequest(redirect, lossy); if state.Some? then own.(state := state) else own)
  {
    QueryOfLocation(redirect, code, state);
    match Query(redirect)
    case None => PairsSetState(NOTHING, code, state, lossy);
    case Some(q) =>
      SplitJoined(q, AMPERSAND, Pairs(code, state));
      ReadPairsAppends(NOTHING, Split(q, AMPERSAND), Split(Pairs(code, state), AMPERSAND), lossy);
      PairsSetState(ReadRequest(redirect, lossy), code, state, lossy);
  }

  lemma QueryIgnoresFragment(front: Bytes, fragment: Bytes)
    requires HASH !in front
    ensures Query(front + ([HASH] + fragment)) == Query(front)
  {
    SplitOnceAt(front, HASH, fragment);
    NoFragment(front);
  }

  /** Behind a fragment neither code nor state reaches the query, so the condition above is needed. */
  lemma FragmentSwallowsState(redirect: Bytes, code: Bytes, state: Option<Bytes>, lossy: Lossy)
    requires HASH in redirect
    ensures ReadRequest(Location(redirect, code, state), lossy) == ReadRequest(redirect, lossy)
  {
    SplitOnceMeaning(redirect, HASH);
    var front, fragment := SplitOnce(redirect, HASH).value.0, SplitOnce(redirect, HASH).value.1;
    var rest := [if QUESTION in redirect then AMPERSAND else QUESTION] + Pairs(code, state);
    Regroup(front, [HASH] + fragment, rest);
    Regroup([HASH], fragment, rest);
    QueryIgnoresFragment(front, fragment + rest);
    QueryIgnoresFragment(front, fragment);
  }

  // ---------------------------------------------------------------------------
  // What any client finds in the redirect
  // ---------------------------------------------------------------------------

  function ByteOf(c: char): Byte {
    if c < 128 as char then c as int else 0
  }

  /** The bytes of an ASCII text. */
  function Ascii(s: string): Bytes {
    seq(|s|, i requires 0 <= i < |s| => ByteOf(s[i]))
  }

  lemma KeyNames()
    ensures CODE == Ascii("code") && STATE == Ascii("state") && CLIENT_ID == Ascii("client_id")
    ensures REDIRECT_URI == Ascii("redirect_uri") && RESPONSE_TYPE == Ascii("response_type")
    ensures [QUESTION, HASH, AMPERSAND, EQUALS, PERCENT, PLUS, SPACE] == Ascii("?#&=%+ ")
  {
  }

  function KeyOf(pair: Bytes): Bytes {
    match SplitOnce(pair, EQUALS) case None => pair case Some((key, _)) => key
  }

  function RawValueOf(pair: Bytes): Bytes {
    match SplitOnce(pair, EQUALS) case None => [] case Some((_, value)) => value
  }

  /** The raw value of the last pair with the key. */
  function LastValue(pairs: seq<Bytes>, key: Bytes): Option<Bytes> {
    if pairs == [] then None
    else if KeyOf(Last(pairs)) == key then Some(RawValueOf(Last(pairs)))
    else LastValue(pairs[..|pairs| - 1], key)
  }

  function PairsOf(uri: Bytes): seq<Bytes> {
    match Query(uri) case None => [] case Some(q) => Split(q, AMPERSAND)
  }

  lemma {:induction false} LastValueAppends(a: seq<Bytes>, b: seq<Bytes>, key: Bytes)
    ensures LastValue(a + b, key) == if LastValue(b, key).Some? then LastValue(b, key) else LastValue(a, key)
  {
    if b == [] {
      assert a + b == a;
    } else {
      LastValueAppends(a, b[..|b| - 1], key);
      assert (a + b)[..|a + b| - 1] == a + b[..|b| - 1];
    }
  }

  /** Each field of the parsed request is the decoded value of the last pair with its key. */
  lemma FieldsAreLastValues(uri: Bytes, lossy: Lossy)
    ensures var r, pairs := ReadRequest(uri, lossy), PairsOf(uri);
      && r.responseType == Decoded(LastValue(pairs, Ascii("response_type")), lossy)
      && r.clientId == Decoded(LastValue(pairs, Ascii("client_id")), lossy)
      && r.redirectUri == Decoded(LastValue(pairs, Ascii("redirect_uri")), lossy)
      && r.state == Decoded(LastValue(pairs, Ascii("state")), lossy)
  {
    KeyNames();
    ReadPairsLast(PairsOf(uri), lossy);
  }

  function Decoded(raw: Option<Bytes>, lossy: Lossy): Option<Bytes> {
    match raw case None => None case Some(v) => Some(lossy(Decode(v)))
  }

  lemma {:induction false} ReadPairsLast(pairs: seq<Bytes>, lossy: Lossy)
    ensures var r := ReadPairs(NOTHING, pairs, lossy);
      && r.responseType == Decoded(LastValue(pairs, RESPONSE_TYPE), lossy)
      && r.clientId == Decoded(LastValue(pairs, CLIENT_ID), lossy)
      && r.redirectUri == Decoded(LastValue(pairs, REDIRECT_URI), lossy)
      && r.state == Decoded(LastValue(pairs, STATE), lossy)
  {
    if pairs != [] {
      var before := pairs[..|pairs| - 1];
      ReadPairsLast(before, lossy);
      ReadPairByKey(ReadPairs(NOTHING, before, lossy), Last(pairs), lossy);
    }
  }

  lemma ReadPairByKey(r: AuthorizeRequest, pair: Bytes, lossy: Lossy)
    ensures var r', key, value := ReadPair(r, pair, lossy), KeyOf(pair), Some(lossy(Decode(RawValueOf(pair))));
      && r'.responseType == (if key == RESPONSE_TYPE then value else r.responseType)
      && r'.clientId == (if key == CLIENT_ID then value else r.clientId)
      && r'.redirectUri == (if key == REDIRECT_URI then value else r.redirectUri)
      && r'.state == (if key == STATE then value else r.state)
  {
    KeysDiffer();
  }

  lemma KeysDiffer()
    ensures |STATE| == 5 && |CLIENT_ID| == 9 && |REDIRECT_URI| == 12 && |RESPONSE_TYPE| == 13
  {
  }

  lemma AddedPairs(code: Bytes, state: Option<Bytes>)
    requires AMPERSAND !in code
    ensures Split(Pairs(code, state), AMPERSAND) == match state
      case None => [CODE + ([EQUALS] + code)]
      case Some(s) => [CODE + ([EQUALS] + code), STATE + ([EQUALS] + Encode(s))]
  {
    var first := CODE + ([EQUALS] + code);
    match state
    case None => SplitWithoutSeparator(first, AMPERSAND);
    case Some(s) =>
      var second := STATE + ([EQUALS] + Encode(s));
      EncodedAlphabet(s);
      SplitAtSeparator(first, AMPERSAND, second);
      SplitWithoutSeparator(second, AMPERSAND);
  }

  lemma LastOfOne(pair: Bytes, key: Bytes)
    ensures LastValue([pair], key) == if KeyOf(pair) == key then Some(RawValueOf(pair)) else None
  {
  }

  lemma AddedValues(code: Bytes, state: Option<Bytes>, key: Bytes)
    requires AMPERSAND !in code
    ensures LastValue(Split(Pairs(code, state), AMPERSAND), key) ==
      if key == CODE then Some(code)
      else if key == STATE && state.Some? then Some(Encode(state.value))
      else None
  {
    AddedPairs(code, state);
    KeyAndValue(CODE, code);
    var first := CODE + ([EQUALS] + code);
    LastOfOne(first, key);
    if state.Some? {
      var second := STATE + ([EQUALS] + Encode(state.value));
      KeyAndValue(STATE, Encode(state.value));
      LastOfOne(second, key);
      LastValueAppends([first], [second], key);
      assert [first] + [second] == [first, second];
    }
  }

  /** For every fragment-free redirect URI, whatever query or parameters it carries itself: the location begins with
      it, any client finds exactly the issued code as its last `code`, the encoded state as its last `state` if one
      was sent, and every other parameter as the URI has it. */
  lemma CodeReachesClient(redirect: Bytes, code: Bytes, state: Option<Bytes>, key: Bytes)
    requires HASH !in redirect && HASH !in code && AMPERSAND !in code
    ensures var location := Location(redirect, code, state);
      && redirect <= location
      && LastValue(PairsOf(location), key) ==
           if key == Ascii("code") then Some(code)
           else if key == Ascii("state") && state.Some? then Some(Encode(state.value))
           else LastValue(PairsOf(redirect), key)
  {
    KeyNames();
    QueryOfLocation(redirect, code, state);
    AddedValues(code, state, key);
    match Query(redirect)
    case None =>
    case Some(q) =>
      SplitJoined(q, AMPERSAND, Pairs(code, state));
      LastValueAppends(Split(q, AMPERSAND), Split(Pairs(code, state), AMPERSAND), key);
  }

  // ---------------------------------------------------------------------------
  // The codec in characters
  // ---------------------------------------------------------------------------

  const UPPER_HEX := "0123456789ABCDEF"
  const LOWER_HEX := "0123456789abcdef"

  /** Letters, digits and `-_.~` stand for themselves, every other byte is a percent sign and two upper-case digits. */
  lemma EncodedInCharacters(b: Byte)
    ensures Unreserved(b) <==>
      var c := b as char; 'A' <= c <= 'Z' || 'a' <= c <= 'z' || '0' <= c <= '9' || c in "-_.~"
    ensures Encode([b]) == if Unreserved(b) then [b]
                           else [37, UPPER_HEX[b / 16] as int, UPPER_HEX[b % 16] as int]
  {
    assert Encode([b]) == EncodeByte(b) + Encode([]);
    HexInCharacters(b / 16);
    HexInCharacters(b % 16);
  }

  lemma HexInCharacters(n: nat)
    requires n < 16
    ensures HexDigit(n) == UPPER_HEX[n] as int
    ensures HexValue(UPPER_HEX[n] as int) == Some(n) && HexValue(LOWER_HEX[n] as int) == Some(n)
  {
  }

  /** A plus sign reads as a space. */
  lemma PlusIsSpace(rest: Bytes)
    ensures Decode(Ascii("+") + rest) == Ascii(" ") + Decode(rest)
  {
    assert (Ascii("+") + rest)[1..] == rest && Ascii("+") == [43] && Ascii(" ") == [32];
  }

  /** Two hexadecimal digits of either case behind a percent sign read as their byte. */
  lemma EscapeIsByte(high: Byte, low: Byte, m: nat, n: nat, rest: Bytes)
    requires m < 16 && n < 16
    requires high == UPPER_HEX[m] as int || high == LOWER_HEX[m] as int
    requires low == UPPER_HEX[n] as int || low == LOWER_HEX[n] as int
    ensures Decode([37, high, low] + rest) == [16 * m + n] + Decode(rest)
  {
    HexInCharacters(m);
    HexInCharacters(n);
    var s := [37, high, low] + rest;
    assert s[1] == high && s[2] == low && DecodeHead(s) == (16 * m + n, 3);
    assert s[3..] == rest;
  }

  /** Every other byte stands for itself, also a percent sign that no two digits follow. */
  lemma OtherBytesStay(s: Bytes)
    requires s != [] && s[0] != 43
    requires s[0] == 37 ==> |s| < 3 || HexValue(s[1]).None? || HexValue(s[2]).None?
    ensures Decode(s) == [s[0]] + Decode(s[1..])
  {
  }

  lemma HexDigitsAre(b: Byte)
    ensures HexValue(b).Some? <==> exists n :: 0 <= n < 16 && (UPPER_HEX[n] as int == b || LOWER_HEX[n] as int == b)
  {
    if HexValue(b).Some? {
      HexInCharacters(HexValue(b).value);
      assert UPPER_HEX[HexValue(b).value] as int == b || LOWER_HEX[HexValue(b).value] as int == b;
    }
    forall n | 0 <= n < 16 && (UPPER_HEX[n] as int == b || LOWER_HEX[n] as int == b) ensures HexValue(b).Some? {
      HexInCharacters(n);
    }
  }
}
