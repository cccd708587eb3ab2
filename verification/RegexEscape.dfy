/** `postgres-regex-escape.ts`: the two regular-expression escapers. */
module RegexEscape {
  import opened Wrappers
  import opened RegexText

  // `escapePostgresRegex`: one `replace` over the special characters.
  function EscapePostgresRegex(input: string): string {
    if input == "" then "" else EscapeChar(input[0]) + EscapePostgresRegex(input[1..])
  }

  // `escapeJsonbRegex`: the replacement of one character.
  function JsonbEscapeChar(c: char): string {
    if c == '\\' then "\\\\\\\\"
    else if c == '"' then "\\\""
    else if Special(c) then "\\\\" + [c]
    else [c]
  }

  function EscapeJsonbRegex(input: string): string {
    if input == "" then "" else JsonbEscapeChar(input[0]) + EscapeJsonbRegex(input[1..])
  }

  /* A jsonpath string literal, read from just after its opening double quote. */

  // The character a backslash escape stands for; None for the numeric escapes, which are not modelled.
  function Unescape(c: char): Option<char> {
    if c == 'b' then Some('\U{0008}')
    else if c == 'f' then Some('\U{000C}')
    else if c == 'n' then Some('\n')
    else if c == 'r' then Some('\r')
    else if c == 't' then Some('\t')
    else if c == 'v' then Some('\U{000B}')
    else if c == 'u' || c == 'x' then None
    else Some(c)
  }

  // The value of the literal and the text after its closing quote.
  function ReadLiteral(text: string): Option<(string, string)> {
    if text == "" then None
    else if text[0] == '"' then Some(("", text[1..]))
    else if text[0] == '\\' && |text| < 2 then None
    else
      var width := if text[0] == '\\' then 2 else 1;
      var c := if text[0] == '\\' then Unescape(text[1]) else Some(text[0]);
      match (c, ReadLiteral(text[width..]))
      case (Some(d), Some((value, rest))) => Some(([d] + value, rest))
      case _ => None
  }

  lemma {:induction false} ReadPlain(text: string, rest: string)
    requires text != "" && text[0] != '"' && text[0] != '\\'
    ensures ReadLiteral(text + rest) ==
            match ReadLiteral(text[1..] + rest)
            case None => None
            case Some((value, after)) => Some(([text[0]] + value, after))
  {
    assert (text + rest)[1..] == text[1..] + rest;
  }

  // An escaped backslash or double quote gives that character.
  lemma {:induction false} ReadEscape(c: char, rest: string)
    requires c == '\\' || c == '"'
    ensures ReadLiteral(['\\', c] + rest) ==
            match ReadLiteral(rest)
            case None => None
            case Some((value, after)) => Some(([c] + value, after))
  {
    assert (['\\', c] + rest)[2..] == rest;
  }

  lemma JsonbBackslashReads(rest: string)
    ensures JsonbCharReads('\\', rest)
  {
    ReadEscape('\\', rest);
    ReadEscape('\\', ['\\', '\\'] + rest);
    assert JsonbEscapeChar('\\') + rest == ['\\', '\\'] + (['\\', '\\'] + rest);
    if ReadLiteral(rest).Some? {
      assert ['\\'] + (['\\'] + ReadLiteral(rest).value.0) == EscapeChar('\\') + ReadLiteral(rest).value.0;
    }
  }

  // Reading what one character was escaped to gives its regular-expression escape.
  predicate JsonbCharReads(c: char, rest: string) {
    ReadLiteral(JsonbEscapeChar(c) + rest) ==
    match ReadLiteral(rest)
    case None => None
    case Some((value, after)) => Some((EscapeChar(c) + value, after))
  }

  lemma JsonbSpecialReads(c: char, rest: string)
    requires Special(c) && c != '\\'
    ensures JsonbCharReads(c, rest)
  {
    ReadEscape('\\', [c] + rest);
    ReadPlain([c], rest);
    assert [c][1..] + rest == rest;
    assert JsonbEscapeChar(c) + rest == ['\\', '\\'] + ([c] + rest);
    if ReadLiteral(rest).Some? {
      assert ['\\'] + ([c] + ReadLiteral(rest).value.0) == EscapeChar(c) + ReadLiteral(rest).value.0;
    }
  }

  lemma JsonbCharAlwaysReads(c: char, rest: string)
    ensures JsonbCharReads(c, rest)
  {
    if c == '\\' {
      JsonbBackslashReads(rest);
    } else if Special(c) {
      JsonbSpecialReads(c, rest);
    } else if c == '"' {
      ReadEscape('"', rest);
    } else {
      ReadPlain([c], rest);
      assert [c][1..] + rest == rest;
    }
  }

  /** Read as a jsonpath string literal, the jsonb escape of a text is its regular-expression escape; the literal ends
    * at the closing quote the caller puts after it and nowhere before. */
  lemma {:induction false} JsonbDecodesToRegex(input: string, rest: string)
    ensures ReadLiteral(EscapeJsonbRegex(input) + "\"" + rest) == Some((EscapePostgresRegex(input), rest))
  {
    if input == "" {
      assert EscapeJsonbRegex(input) + "\"" + rest == "\"" + rest;
    } else {
      JsonbDecodesToRegex(input[1..], rest);
      JsonbCharAlwaysReads(input[0], EscapeJsonbRegex(input[1..]) + "\"" + rest);
      assert EscapeJsonbRegex(input) + "\"" + rest
          == JsonbEscapeChar(input[0]) + (EscapeJsonbRegex(input[1..]) + "\"" + rest);
    }
  }

  /* What the escaped pattern matches. */

  lemma EscapedCons(input: string, rest: string)
    requires input != ""
    ensures EscapePostgresRegex(input) + rest == EscapeChar(input[0]) + (EscapePostgresRegex(input[1..]) + rest)
  {
  }

  lemma SpelledCons(s: string, more: seq<Element>)
    requires s != ""
    ensures Spelled(s) + more == [Once(s[0])] + (Spelled(s[1..]) + more)
  {
  }

  lemma {:induction false} EscapedReads(input: string, rest: string)
    requires NoQuantifier(rest) && ReadPattern(rest).Some?
    ensures NoQuantifier(EscapePostgresRegex(input) + rest)
    ensures ReadPattern(EscapePostgresRegex(input) + rest) == Some(Spelled(input) + ReadPattern(rest).value)
  {
    var elements := ReadPattern(rest).value;
    if input == "" {
      assert EscapePostgresRegex(input) + rest == rest;
      assert Spelled(input) + elements == elements;
    } else {
      EscapedReads(input[1..], rest);
      EscapedCons(input, rest);
      SpelledCons(input, elements);
      ReadEscaped(input[0], EscapePostgresRegex(input[1..]) + rest);
    }
  }

  /** As a pattern, the escaped text of `s` matches `t` exactly when `s` occurs in `t`. */
  lemma EscapedMatchesOccurrences(s: string, t: string, locale: Locale)
    ensures Matches(EscapePostgresRegex(s), t, locale) <==> Occurs(s, t)
  {
    EscapedReads(s, "");
    assert EscapePostgresRegex(s) + "" == EscapePostgresRegex(s);
    assert Spelled(s) + [] == Spelled(s);
    forall at: nat | at <= |t|
      ensures MatchAt(Spelled(s), t, at, locale) <==> s <= t[at..]
    {
      MatchSpelled(s, [], t, at, locale);
      assert at + |s| <= |t| ==> t[at..][..|s|] == t[at..at + |s|];
    }
  }

  /** Between `^` and `$` it matches `s` and nothing else. */
  lemma AnchoredMatchesExactly(s: string, t: string, locale: Locale)
    ensures Matches("^" + EscapePostgresRegex(s) + "$", t, locale) <==> t == s
  {
    var pattern := "^" + EscapePostgresRegex(s) + "$";
    assert "$"[1..] == "" && ReadElement("$") == Some((LineEnd, "")) && [LineEnd] + [] == [LineEnd];
    assert ReadPattern("$") == Some([LineEnd]);
    EscapedReads(s, "$");
    assert pattern[1..] == EscapePostgresRegex(s) + "$";
    var elements := [LineStart] + (Spelled(s) + [LineEnd]);
    assert ReadPattern(pattern) == Some(elements);
    assert elements[1..] == Spelled(s) + [LineEnd];
    MatchSpelled(s, [LineEnd], t, 0, locale);
    forall at: nat | at <= |t| ensures MatchAt([LineEnd], t, at, locale) <==> at == |t| {
    }
    assert t[0..|t|] == t;
    assert MatchAt(elements, t, 0, locale) <==> t == s;
  }
}
