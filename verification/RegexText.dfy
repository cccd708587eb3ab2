/** The part of PostgreSQL's advanced regular expressions (section 9.7.3 of its manual) that the source prints:
  * how a pattern is read, and what it matches.
  */
module RegexText {
  import opened Wrappers

  datatype Class = AnyChar | Digit | Space | Exactly(c: char) | OneOf(chars: seq<char>)

  datatype Element = LineStart | LineEnd | Repeat(cls: Class, lo: nat, hi: Option<nat>)

  // The characters the source escapes: `[.*+?^${}()|[\]\\]`.
  predicate Special(c: char) {
    c in ['.', '*', '+', '?', '^', '$', '{', '}', '(', ')', '|', '[', ']', '\\']
  }

  predicate Alphanumeric(c: char) {
    '0' <= c <= '9' || 'A' <= c <= 'Z' || 'a' <= c <= 'z'
  }

  predicate Quantifier(c: char) {
    c == '*' || c == '+' || c == '?' || c == '{'
  }

  /* Reading a pattern. */

  // One character class and what follows it; None for syntax outside this subset.
  function ReadClass(text: string): (r: Option<(Class, string)>)
    ensures r.Some? ==> |r.value.1| < |text|
  {
    if text == "" then None
    else if text[0] == '\\' then
      if |text| < 2 then None
      else if text[1] == 'd' then Some((Digit, text[2..]))
      else if text[1] == 's' then Some((Space, text[2..]))
      else if Alphanumeric(text[1]) then None
      else Some((Exactly(text[1]), text[2..]))
    else if text[0] == '.' then Some((AnyChar, text[1..]))
    else if text[0] == '[' then ReadBracket(text[1..])
    else if Special(text[0]) then None
    else Some((Exactly(text[0]), text[1..]))
  }

  // A bracket expression that just lists characters.
  function ReadBracket(text: string): (r: Option<(Class, string)>)
    ensures r.Some? ==> |r.value.1| < |text|
  {
    if text == "" then None
    else if text[0] == ']' then Some((OneOf([]), text[1..]))
    else if !Alphanumeric(text[0]) then None
    else match ReadBracket(text[1..])
      case Some((OneOf(chars), rest)) => Some((OneOf([text[0]] + chars), rest))
      case _ => None
  }

  function ReadNumber(text: string, sofar: nat): (r: (nat, string))
    ensures |r.1| <= |text|
  {
    if text != "" && '0' <= text[0] <= '9' then ReadNumber(text[1..], 10 * sofar + (text[0] as nat - '0' as nat))
    else (sofar, text)
  }

  // The bounds after a class: a quantifier, or once.
  function ReadBounds(text: string): (r: Option<(nat, Option<nat>, string)>)
    ensures r.Some? ==> |r.value.2| <= |text|
  {
    if text == "" || !Quantifier(text[0]) then Some((1, Some(1), text))
    else if text[0] == '*' then Some((0, None, text[1..]))
    else if text[0] == '+' then Some((1, None, text[1..]))
    else if text[0] == '?' then Some((0, Some(1), text[1..]))
    else
      var (lo, rest) := ReadNumber(text[1..], 0);
      if rest != "" && rest[0] == '}' then Some((lo, Some(lo), rest[1..]))
      else if rest == "" || rest[0] != ',' then None
      else
        var (hi, tail) := ReadNumber(rest[1..], 0);
        if tail == "" || tail[0] != '}' then None else Some((lo, Some(hi), tail[1..]))
  }

  function ReadElement(text: string): (r: Option<(Element, string)>)
    ensures r.Some? ==> |r.value.1| < |text|
  {
    if text == "" then None
    else if text[0] == '^' then Some((LineStart, text[1..]))
    else if text[0] == '$' then Some((LineEnd, text[1..]))
    else match ReadClass(text)
      case None => None
      case Some((cls, rest)) =>
        match ReadBounds(rest)
        case None => None
        case Some((lo, hi, tail)) =>
          if tail != "" && Quantifier(tail[0]) then None else Some((Repeat(cls, lo, hi), tail))
  }

  function ReadPattern(text: string): Option<seq<Element>>
    decreases |text|
  {
    if text == "" then Some([])
    else match ReadElement(text)
      case None => None
      case Some((element, rest)) =>
        match ReadPattern(rest)
        case None => None
        case Some(elements) => Some([element] + elements)
  }

  /* Matching.  Which characters are digits and white space is the server's business. */

  datatype Locale = Locale(digit: char -> bool, space: char -> bool)

  predicate InClass(cls: Class, c: char, locale: Locale) {
    match cls
    case AnyChar => true
    case Digit => locale.digit(c)
    case Space => locale.space(c)
    case Exactly(d) => c == d
    case OneOf(chars) => c in chars
  }

  predicate AllIn(cls: Class, s: string, locale: Locale) {
    forall k :: 0 <= k < |s| ==> InClass(cls, s[k], locale)
  }

  // The elements match `t` from position `at`, ending anywhere.
  ghost predicate MatchAt(elements: seq<Element>, t: string, at: nat, locale: Locale)
    requires at <= |t|
    decreases |elements|
  {
    if elements == [] then true
    else match elements[0]
      case LineStart => at == 0 && MatchAt(elements[1..], t, at, locale)
      case LineEnd => at == |t| && MatchAt(elements[1..], t, at, locale)
      case Repeat(cls, lo, hi) =>
        exists next :: at + lo <= next <= |t| && (hi.Some? ==> next <= at + hi.value) &&
          AllIn(cls, t[at..next], locale) && MatchAt(elements[1..], t, next, locale)
  }

  // The `~` operator: the pattern can be read and matches somewhere.
  ghost predicate Matches(pattern: string, t: string, locale: Locale) {
    var elements := ReadPattern(pattern);
    elements.Some? && exists at :: 0 <= at <= |t| && MatchAt(elements.value, t, at, locale)
  }

  /* Escaping one character, as both escapers and the guard printer do. */

  function EscapeChar(c: char): string {
    if Special(c) then ['\\', c] else [c]
  }

  function Once(c: char): Element {
    Repeat(Exactly(c), 1, Some(1))
  }

  // Text after an element must not quantify it.
  predicate NoQuantifier(rest: string) {
    rest == "" || !Quantifier(rest[0])
  }

  lemma ReadEscaped(c: char, rest: string)
    requires NoQuantifier(rest)
    ensures ReadPattern(EscapeChar(c) + rest)
            == match ReadPattern(rest) case None => None case Some(es) => Some([Once(c)] + es)
    ensures NoQuantifier(EscapeChar(c) + rest)
  {
    var text := EscapeChar(c) + rest;
    ReadClassEscaped(c, rest);
    assert text[0] != '^' && text[0] != '$' && text != "";
    assert ReadElement(text) == Some((Once(c), rest));
  }

  lemma ReadClassEscaped(c: char, rest: string)
    ensures ReadClass(EscapeChar(c) + rest) == Some((Exactly(c), rest))
  {
    assert (EscapeChar(c) + rest)[|EscapeChar(c)|..] == rest;
  }

  // Exactly the text `s`, one character at a time.
  function Spelled(s: string): seq<Element> {
    if s == "" then [] else [Once(s[0])] + Spelled(s[1..])
  }

  lemma MatchOnce(c: char, more: seq<Element>, t: string, at: nat, locale: Locale)
    requires at <= |t|
    ensures MatchAt([Once(c)] + more, t, at, locale) <==> at < |t| && t[at] == c && MatchAt(more, t, at + 1, locale)
  {
    assert ([Once(c)] + more)[1..] == more;
    if at < |t| && t[at] == c {
      assert AllIn(Exactly(c), t[at..at + 1], locale);
    }
  }

  lemma {:induction false} MatchSpelled(s: string, more: seq<Element>, t: string, at: nat, locale: Locale)
    requires at <= |t|
    ensures MatchAt(Spelled(s) + more, t, at, locale)
            <==> at + |s| <= |t| && t[at..at + |s|] == s && MatchAt(more, t, at + |s|, locale)
    decreases |s|
  {
    if s == "" {
      assert Spelled(s) + more == more;
    } else {
      assert Spelled(s) + more == [Once(s[0])] + (Spelled(s[1..]) + more);
      MatchOnce(s[0], Spelled(s[1..]) + more, t, at, locale);
      if at < |t| {
        MatchSpelled(s[1..], more, t, at + 1, locale);
        if at + |s| <= |t| {
          assert t[at..at + |s|] == [t[at]] + t[at + 1..at + |s|];
          assert s == [s[0]] + s[1..];
        }
      }
    }
  }
}
