/** The two HTML escapers, html_escape of ha_auth.rs and html_escape_str of http.rs: four global replacements run
    one after the other, in different orders. */
module HtmlEscape {
  import opened Text

  const AMP := "&amp;"
  const QUOT := "&quot;"
  const LT := "&lt;"
  const GT := "&gt;"

  function Escape(value: string): string {
    Replace(Replace(Replace(Replace(value, '&', AMP), '"', QUOT), '<', LT), '>', GT)
  }

  function EscapeStr(value: string): string {
    Replace(Replace(Replace(Replace(value, '&', AMP), '<', LT), '>', GT), '"', QUOT)
  }

  /** The substitution both should amount to. */
  function Entity(c: char): string {
    match c
    case '&' => AMP
    case '"' => QUOT
    case '<' => LT
    case '>' => GT
    case _ => [c]
  }

  function ByCharacter(s: string): string {
    if s == "" then "" else Entity(s[0]) + ByCharacter(s[1..])
  }

  lemma {:induction false} ReplaceAppends(a: string, b: string, c: char, rep: string)
    ensures Replace(a + b, c, rep) == Replace(a, c, rep) + Replace(b, c, rep)
  {
    if a == "" {
      assert a + b == b;
    } else {
      ReplaceAppends(a[1..], b, c, rep);
      assert (a + b)[1..] == a[1..] + b;
      Regroup(if a[0] == c then rep else [a[0]], Replace(a[1..], c, rep), Replace(b, c, rep));
    }
  }

  lemma {:induction false} ReplaceNothing(s: string, c: char, rep: string)
    requires c !in s
    ensures Replace(s, c, rep) == s
  {
    if s != "" {
      ReplaceNothing(s[1..], c, rep);
      assert [s[0]] + s[1..] == s;
    }
  }

  lemma ReplaceOne(x: char, c: char, rep: string)
    ensures Replace([x], c, rep) == if x == c then rep else [x]
  {
    assert [x][1..] == "";
    assert rep + "" == rep && [x] + "" == [x];
  }

  lemma EscapeAppends(a: string, b: string)
    ensures Escape(a + b) == Escape(a) + Escape(b)
    ensures EscapeStr(a + b) == EscapeStr(a) + EscapeStr(b)
  {
    ReplaceAppends(a, b, '&', AMP);
    var a1, b1 := Replace(a, '&', AMP), Replace(b, '&', AMP);
    ReplaceAppends(a1, b1, '"', QUOT);
    ReplaceAppends(Replace(a1, '"', QUOT), Replace(b1, '"', QUOT), '<', LT);
    ReplaceAppends(Replace(Replace(a1, '"', QUOT), '<', LT), Replace(Replace(b1, '"', QUOT), '<', LT), '>', GT);
    ReplaceAppends(a1, b1, '<', LT);
    ReplaceAppends(Replace(a1, '<', LT), Replace(b1, '<', LT), '>', GT);
    ReplaceAppends(Replace(Replace(a1, '<', LT), '>', GT), Replace(Replace(b1, '<', LT), '>', GT), '"', QUOT);
  }

  /** Later passes leave the entities of earlier ones alone, because the ampersands are replaced first. */
  lemma EntityStays(s: string)
    requires '"' !in s && '<' !in s && '>' !in s
    ensures Replace(Replace(Replace(s, '"', QUOT), '<', LT), '>', GT) == s
    ensures Replace(Replace(Replace(s, '<', LT), '>', GT), '"', QUOT) == s
  {
    ReplaceNothing(s, '"', QUOT);
    ReplaceNothing(s, '<', LT);
    ReplaceNothing(s, '>', GT);
  }

  lemma EscapeQuote()
    ensures Escape("\"") == QUOT && EscapeStr("\"") == QUOT
  {
    ReplaceOne('"', '&', AMP);
    ReplaceOne('"', '"', QUOT);
    ReplaceOne('"', '<', LT);
    ReplaceOne('"', '>', GT);
    ReplaceNothing(QUOT, '<', LT);
    ReplaceNothing(QUOT, '>', GT);
  }

  lemma EscapeLess()
    ensures Escape("<") == LT && EscapeStr("<") == LT
  {
    ReplaceOne('<', '&', AMP);
    ReplaceOne('<', '"', QUOT);
    ReplaceOne('<', '<', LT);
    ReplaceNothing(LT, '>', GT);
    ReplaceNothing(LT, '"', QUOT);
  }

  lemma EscapeGreater()
    ensures Escape(">") == GT && EscapeStr(">") == GT
  {
    ReplaceOne('>', '&', AMP);
    ReplaceOne('>', '"', QUOT);
    ReplaceOne('>', '<', LT);
    ReplaceOne('>', '>', GT);
    ReplaceNothing(GT, '"', QUOT);
  }

  lemma EscapeOne(c: char)
    ensures Escape([c]) == Entity(c) && EscapeStr([c]) == Entity(c)
  {
    if c == '"' {
      EscapeQuote();
    } else if c == '<' {
      EscapeLess();
    } else if c == '>' {
      EscapeGreater();
    } else {
      ReplaceOne(c, '&', AMP);
      EntityStays(Entity(c));
    }
  }

  /** Each escaper is the one substitution per character, so on every string they agree. */
  lemma {:induction false} EscapersAgree(s: string)
    ensures Escape(s) == ByCharacter(s) && EscapeStr(s) == ByCharacter(s)
  {
    if s != "" {
      EscapersAgree(s[1..]);
      EscapeOne(s[0]);
      assert s == [s[0]] + s[1..];
      EscapeAppends([s[0]], s[1..]);
    }
  }

  /** The four characters come out as their entities, in literal text, every other one as itself, and texts piece by
      piece: this fixes both escapers on every string. */
  lemma EscapedInCharacters(c: char, a: string, b: string)
    ensures Escape("") == EscapeStr("") == ""
    ensures Escape([c]) == EscapeStr([c]) ==
      if c == '&' then "&amp;" else if c == '"' then "&quot;" else if c == '<' then "&lt;"
      else if c == '>' then "&gt;" else [c]
    ensures Escape(a + b) == Escape(a) + Escape(b) && EscapeStr(a + b) == EscapeStr(a) + EscapeStr(b)
  {
    EscapeOne(c);
    EscapeAppends(a, b);
  }

  // ---------------------------------------------------------------------------
  // Nothing is lost, and nothing dangerous is left
  // ---------------------------------------------------------------------------

  /** How a browser reads the text back. */
  function Unescape(s: string): string {
    if s == "" then ""
    else if AMP <= s then ['&'] + Unescape(s[5..])
    else if QUOT <= s then ['"'] + Unescape(s[6..])
    else if LT <= s then ['<'] + Unescape(s[4..])
    else if GT <= s then ['>'] + Unescape(s[4..])
    else [s[0]] + Unescape(s[1..])
  }

  lemma UnescapeEntity(c: char, rest: string)
    ensures Unescape(Entity(c) + rest) == [c] + Unescape(rest)
  {
    var s := Entity(c) + rest;
    assert s[|Entity(c)|..] == rest;
    assert s[..|Entity(c)|] == Entity(c);
    if c == '"' || c == '<' || c == '>' || c == '&' {
      assert s[1] == Entity(c)[1];
      assert AMP[1] == 'a' && QUOT[1] == 'q' && LT[1] == 'l' && GT[1] == 'g';
    } else {
      assert s[0] == c && AMP[0] == QUOT[0] == LT[0] == GT[0] == '&';
    }
  }

  /** The escaped text reads back as the original, so escaping is injective. */
  lemma {:induction false} EscapeIsInvertible(s: string)
    ensures Unescape(Escape(s)) == s
  {
    EscapersAgree(s);
    if s != "" {
      EscapeIsInvertible(s[1..]);
      EscapersAgree(s[1..]);
      UnescapeEntity(s[0], ByCharacter(s[1..]));
    }
  }

  lemma {:induction false} ByCharacterHasNoMarkup(s: string)
    ensures '"' !in ByCharacter(s) && '<' !in ByCharacter(s) && '>' !in ByCharacter(s)
  {
    if s != "" {
      ByCharacterHasNoMarkup(s[1..]);
      assert '"' !in Entity(s[0]) && '<' !in Entity(s[0]) && '>' !in Entity(s[0]);
    }
  }

  /** No quote and no angle bracket survives. */
  lemma NoMarkupLeft(s: string)
    ensures '"' !in Escape(s) && '<' !in Escape(s) && '>' !in Escape(s)
  {
    EscapersAgree(s);
    ByCharacterHasNoMarkup(s);
  }
}
