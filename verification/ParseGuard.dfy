/** `buildDatetimeParseGuardRegex`: the pattern a text must match before PostgreSQL is asked to parse it. */
module ParseGuard {
  import opened Wrappers
  import opened FormatScan
  import opened SqlText
  import opened RegexText
  import DatetimeFormat

  // The keys of DATETIME_PARSE_GUARD_TOKEN_PATTERNS, longest first.
  const GUARD_TOKENS: seq<string> := [
    "HH24", "HH12", "YYYY", "YYY", "HH", "AM", "MI", "SS", "MS", "YY", "MM", "DD", "Y"]

  const SKIPPED_TOKENS: seq<string> := ["FM", "TM", "TH"]

  function TokenPattern(token: string): string {
    if token == "AM" then "[AaPp][Mm]"
    else if token == "MS" then "\\d{1,3}"
    else if token == "YYYY" then "\\d{4}"
    else if token == "YYY" then "\\d{3}"
    else if token == "Y" then "\\d"
    else "\\d{2}"    // HH24, HH12, HH, MI, SS, YY, MM, DD
  }

  datatype GuardItem = Field(token: string) | Dropped | White | Exact(c: char)

  // `toUpperCase`, character by character; `up` may map one character to several.
  function Upper(up: char -> string, s: string): string {
    if s == "" then "" else up(s[0]) + Upper(up, s[1..])
  }

  lemma GuardTokensLongestFirst()
    ensures LongestFirst(GUARD_TOKENS)
  {
  }

  function FindGuardToken(rest: string): Option<string> {
    FindToken(GUARD_TOKENS, rest)
  }

  lemma FindGuardTokenIsSound()
    ensures LooksUp(FindGuardToken, GUARD_TOKENS) && Sound(FindGuardToken)
  {
    GuardTokensLongestFirst();
    LookupIsSound(FindGuardToken, GUARD_TOKENS);
  }

  function GuardItemAt(find: Finder, up: char -> string, literal: string, i: nat): (item: GuardItem)
    requires Sound(find) && i < |literal|
    ensures Consumed(item) > 0
  {
    var upper := Upper(up, literal[i..]);
    match find(upper)
    case Some(token) => Field(token)
    case None =>
      if (if |upper| >= 2 then upper[..2] else upper) in SKIPPED_TOKENS then Dropped
      else if IsSpace(literal[i]) then White
      else Exact(literal[i])
  }

  function Consumed(item: GuardItem): nat {
    match item
    case Field(token) => |token|
    case Dropped => 2
    case _ => 1
  }

  // Every item takes the loop further.
  ghost predicate Advances(at: nat -> GuardItem) {
    forall i :: Consumed(at(i)) > 0
  }

  // The items found one after another from `i` on, in a text of length `n`.
  function ItemsFrom(at: nat -> GuardItem, n: nat, i: nat): seq<GuardItem>
    requires Advances(at)
    decreases n - i
  {
    if i >= n then [] else [at(i)] + ItemsFrom(at, n, i + Consumed(at(i)))
  }

  function GuardAt(find: Finder, up: char -> string, literal: string): (at: nat -> GuardItem)
    requires Sound(find)
    ensures Advances(at)
  {
    (i: nat) => if i < |literal| then GuardItemAt(find, up, literal, i) else White
  }

  function GuardItems(find: Finder, up: char -> string, literal: string): seq<GuardItem>
    requires Sound(find)
  {
    ItemsFrom(GuardAt(find, up, literal), |literal|, 0)
  }

  function Print(item: GuardItem): string {
    match item
    case Field(token) => TokenPattern(token)
    case Dropped => ""
    case White => "\\s"
    case Exact(c) => EscapeChar(c)
  }

  function PrintWith(printed: GuardItem -> string, items: seq<GuardItem>): string {
    if items == [] then "" else printed(items[0]) + PrintWith(printed, items[1..])
  }

  function PrintAll(items: seq<GuardItem>): string {
    PrintWith(Print, items)
  }

  function Pattern(items: seq<GuardItem>): string {
    "^" + PrintAll(items) + ".*$"
  }

  method BuildDatetimeParseGuardRegex(up: char -> string, formatExpr: Option<string>) returns (pattern: Option<string>)
    ensures pattern == GuardPattern(up, formatExpr)
  {
    var literal := ParseLiteral(DatetimeFormat.NormalizeExpression(formatExpr));
    if literal.None? {
      return None;
    }
    FindGuardTokenIsSound();
    var text := PrintLoop(FindGuardToken, up, literal.value);
    pattern := Some(text);
  }

  method PrintLoop(find: Finder, up: char -> string, literal: string) returns (pattern: string)
    requires Sound(find)
    ensures pattern == Pattern(GuardItems(find, up, literal))
  {
    pattern := AppendItems(GuardAt(find, up, literal), Print, |literal|, "^");
    pattern := pattern + ".*$";
  }

  // The loop, whatever it finds at a place and prints for it.
  method AppendItems(at: nat -> GuardItem, printed: GuardItem -> string, n: nat, start: string)
    returns (pattern: string)
    requires Advances(at)
    ensures pattern == start + PrintWith(printed, ItemsFrom(at, n, 0))
  {
    pattern := start;
    var i := 0;
    ghost var whole := start + PrintWith(printed, ItemsFrom(at, n, 0));
    while i < n
      invariant whole == pattern + PrintWith(printed, ItemsFrom(at, n, i))
      decreases n - i
    {
      PrintStep(at, printed, n, i, pattern, whole);
      pattern := pattern + printed(at(i));
      i := i + Consumed(at(i));
    }
  }

  lemma PrintStep(at: nat -> GuardItem, printed: GuardItem -> string, n: nat, i: nat, done: string, whole: string)
    requires Advances(at) && i < n && whole == done + PrintWith(printed, ItemsFrom(at, n, i))
    ensures whole == (done + printed(at(i))) + PrintWith(printed, ItemsFrom(at, n, i + Consumed(at(i))))
  {
    assert ItemsFrom(at, n, i)[1..] == ItemsFrom(at, n, i + Consumed(at(i)));
  }

  function ScannedItems(up: char -> string, literal: string): seq<GuardItem> {
    FindGuardTokenIsSound();
    GuardItems(FindGuardToken, up, literal)
  }

  function GuardPattern(up: char -> string, formatExpr: Option<string>): Option<string> {
    match ParseLiteral(DatetimeFormat.NormalizeExpression(formatExpr))
    case None => None
    case Some(literal) => Some(Pattern(ScannedItems(up, literal)))
  }

  /* What an item stands for, without regular expressions. */

  ghost predicate Piece(item: GuardItem, s: string, locale: Locale) {
    match item
    case Dropped => s == ""
    case White => |s| == 1 && locale.space(s[0])
    case Exact(c) => s == [c]
    case Field(token) =>
      if token == "AM" then |s| == 2 && s[0] in ['A', 'a', 'P', 'p'] && s[1] in ['M', 'm']
      else
        var (fewest, most) := DigitCount(token);
        fewest <= |s| <= most && forall k :: 0 <= k < |s| ==> locale.digit(s[k])
  }

  function DigitCount(token: string): (nat, nat) {
    if token == "MS" then (1, 3)
    else if token == "YYYY" then (4, 4)
    else if token == "YYY" then (3, 3)
    else if token == "Y" then (1, 1)
    else (2, 2)
  }

  ghost predicate Splits(items: seq<GuardItem>, s: string, locale: Locale)
    decreases |items|
  {
    if items == [] then s == ""
    else exists k :: 0 <= k <= |s| && Piece(items[0], s[..k], locale) && Splits(items[1..], s[k..], locale)
  }

  /* Reading the printed pattern back. */

  function Elements(item: GuardItem): seq<Element> {
    match item
    case Dropped => []
    case White => [Repeat(Class.Space, 1, Some(1))]
    case Exact(c) => [Once(c)]
    case Field(token) =>
      if token == "AM" then [Repeat(OneOf("AaPp"), 1, Some(1)), Repeat(OneOf("Mm"), 1, Some(1))]
      else
        var (fewest, most) := DigitCount(token);
        [Repeat(Digit, fewest, Some(most))]
  }

  function AllElements(items: seq<GuardItem>): seq<Element> {
    if items == [] then [] else Elements(items[0]) + AllElements(items[1..])
  }

  const TAIL: seq<Element> := [Repeat(AnyChar, 0, None), LineEnd]

  lemma ReadOne(text: string, element: Element, rest: string)
    requires ReadElement(text) == Some((element, rest)) && ReadPattern(rest).Some?
    ensures ReadPattern(text) == Some([element] + ReadPattern(rest).value)
  {
  }

  lemma DigitReads(bounds: string, lo: nat, hi: nat, rest: string)
    requires NoQuantifier(rest)
    requires ReadBounds(bounds + rest) == Some((lo, Some(hi), rest))
    ensures ReadElement("\\d" + bounds + rest) == Some((Repeat(Digit, lo, Some(hi)), rest))
  {
    var text := "\\d" + bounds + rest;
    assert text[2..] == bounds + rest;
    assert ReadClass(text) == Some((Digit, bounds + rest));
  }

  // A bound of one digit, as in `{2}`.
  lemma CountReads(d: char, rest: string)
    requires '1' <= d <= '9'
    ensures ReadBounds(['{', d, '}'] + rest) == Some((d as nat - '0' as nat, Some(d as nat - '0' as nat), rest))
  {
    var text := ['{', d, '}'] + rest;
    var n := d as nat - '0' as nat;
    assert text[1..][1..] == "}" + rest && text[1..][0] == d;
    assert ReadNumber("}" + rest, n) == (n, "}" + rest);
    assert ReadNumber(text[1..], 0) == (n, "}" + rest);
    assert ("}" + rest)[1..] == rest;
  }

  lemma RangeReads(rest: string)
    ensures ReadBounds("{1,3}" + rest) == Some((1, Some(3), rest))
  {
    var text := "{1,3}" + rest;
    assert text[1..][1..] == ",3}" + rest;
    assert ReadNumber(",3}" + rest, 1) == (1, ",3}" + rest);
    assert ReadNumber(text[1..], 0) == (1, ",3}" + rest);
    assert (",3}" + rest)[1..][1..] == "}" + rest;
    assert ReadNumber("}" + rest, 3) == (3, "}" + rest);
    assert ReadNumber((",3}" + rest)[1..], 0) == (3, "}" + rest);
    assert ("}" + rest)[1..] == rest;
  }

  lemma FieldReads(token: string, rest: string)
    requires token != "AM" && NoQuantifier(rest)
    ensures var (fewest, most) := DigitCount(token);
            ReadElement(TokenPattern(token) + rest) == Some((Repeat(Digit, fewest, Some(most)), rest))
  {
    if token == "Y" {
      assert "" + rest == rest;
      DigitReads("", 1, 1, rest);
      assert "\\d" + "" + rest == "\\d" + rest;
    } else if token == "MS" {
      RangeReads(rest);
      DigitReads("{1,3}", 1, 3, rest);
      assert "\\d" + "{1,3}" + rest == "\\d{1,3}" + rest;
    } else {
      var d := if token == "YYYY" then '4' else if token == "YYY" then '3' else '2';
      CountReads(d, rest);
      DigitReads(['{', d, '}'], d as nat - '0' as nat, d as nat - '0' as nat, rest);
      assert "\\d" + ['{', d, '}'] + rest == TokenPattern(token) + rest;
    }
  }

  lemma TwoBracketsRead(a: string, b: string, rest: string)
    requires NoQuantifier(rest) && ReadPattern(rest).Some?
    requires forall k :: 0 <= k < |a| ==> Alphanumeric(a[k])
    requires forall k :: 0 <= k < |b| ==> Alphanumeric(b[k])
    ensures ReadPattern("[" + a + "]" + ("[" + b + "]" + rest))
            == Some([Repeat(OneOf(a), 1, Some(1)), Repeat(OneOf(b), 1, Some(1))] + ReadPattern(rest).value)
  {
    var second := "[" + b + "]" + rest;
    var es := ReadPattern(rest).value;
    BracketReads(b, rest);
    ReadOne(second, Repeat(OneOf(b), 1, Some(1)), rest);
    BracketReads(a, second);
    ReadOne("[" + a + "]" + second, Repeat(OneOf(a), 1, Some(1)), second);
    assert [Repeat(OneOf(a), 1, Some(1))] + ([Repeat(OneOf(b), 1, Some(1))] + es)
        == [Repeat(OneOf(a), 1, Some(1)), Repeat(OneOf(b), 1, Some(1))] + es;
  }

  lemma MeridiemReads(rest: string)
    requires NoQuantifier(rest) && ReadPattern(rest).Some?
    ensures ReadPattern("[AaPp][Mm]" + rest) == Some(Elements(Field("AM")) + ReadPattern(rest).value)
  {
    MeridiemText(rest);
    TwoBracketsRead("AaPp", "Mm", rest);
  }

  lemma MeridiemText(rest: string)
    ensures "[AaPp][Mm]" + rest == "[" + "AaPp" + "]" + ("[" + "Mm" + "]" + rest)
  {
  }

  lemma {:induction false} BracketListReads(chars: string, rest: string)
    requires forall k :: 0 <= k < |chars| ==> Alphanumeric(chars[k])
    ensures ReadBracket(chars + "]" + rest) == Some((OneOf(chars), rest))
  {
    var text := chars + "]" + rest;
    if chars == "" {
      assert text[1..] == rest;
    } else {
      BracketListReads(chars[1..], rest);
      assert text[1..] == chars[1..] + "]" + rest;
      assert chars == [chars[0]] + chars[1..];
    }
  }

  lemma BracketReads(chars: string, rest: string)
    requires NoQuantifier(rest) && forall k :: 0 <= k < |chars| ==> Alphanumeric(chars[k])
    ensures ReadElement("[" + chars + "]" + rest) == Some((Repeat(OneOf(chars), 1, Some(1)), rest))
  {
    BracketListReads(chars, rest);
    assert ("[" + chars + "]" + rest)[1..] == chars + "]" + rest;
  }

  lemma SpaceReads(rest: string)
    requires NoQuantifier(rest)
    ensures ReadElement("\\s" + rest) == Some((Repeat(Class.Space, 1, Some(1)), rest))
  {
    var text := "\\s" + rest;
    assert text[2..] == rest;
    assert ReadClass(text) == Some((Class.Space, rest));
  }

  lemma ItemReads(item: GuardItem, rest: string)
    requires NoQuantifier(rest) && ReadPattern(rest).Some?
    ensures NoQuantifier(Print(item) + rest)
    ensures ReadPattern(Print(item) + rest) == Some(Elements(item) + ReadPattern(rest).value)
  {
    match item {
      case Dropped =>
        assert "" + rest == rest && [] + ReadPattern(rest).value == ReadPattern(rest).value;
      case White =>
        SpaceReads(rest);
        ReadOne("\\s" + rest, Repeat(Class.Space, 1, Some(1)), rest);
      case Exact(c) =>
        ReadEscaped(c, rest);
      case Field(token) =>
        if token == "AM" {
          MeridiemReads(rest);
        } else {
          FieldReads(token, rest);
          ReadOne(TokenPattern(token) + rest, Elements(item)[0], rest);
        }
    }
  }

  lemma {:induction false} ItemsRead(items: seq<GuardItem>)
    ensures NoQuantifier(PrintAll(items) + ".*$")
    ensures ReadPattern(PrintAll(items) + ".*$") == Some(AllElements(items) + TAIL)
  {
    if items == [] {
      TailReads();
      assert "" + ".*$" == ".*$" && [] + TAIL == TAIL;
    } else {
      ItemsRead(items[1..]);
      ItemReads(items[0], PrintAll(items[1..]) + ".*$");
      assert PrintAll(items) + ".*$" == Print(items[0]) + (PrintAll(items[1..]) + ".*$");
      assert AllElements(items) + TAIL == Elements(items[0]) + (AllElements(items[1..]) + TAIL);
    }
  }

  lemma TailReads()
    ensures ReadPattern(".*$") == Some(TAIL)
  {
    assert "$"[1..] == "" && ReadElement("$") == Some((LineEnd, ""));
    ReadOne("$", LineEnd, "");
    assert ".*$"[1..] == "*$" && "*$"[1..] == "$";
    ReadOne(".*$", Repeat(AnyChar, 0, None), "$");
    assert [LineEnd] + [] == [LineEnd] && [Repeat(AnyChar, 0, None)] + [LineEnd] == TAIL;
  }

  /** Reading the printed pattern back recovers the scanned items, field by field, dropped ones gone. */
  lemma PatternReadsBack(items: seq<GuardItem>)
    ensures ReadPattern(Pattern(items)) == Some([LineStart] + (AllElements(items) + TAIL))
  {
    ItemsRead(items);
    assert Pattern(items)[1..] == PrintAll(items) + ".*$";
    ReadOne(Pattern(items), LineStart, PrintAll(items) + ".*$");
  }

  /* Matching it. */

  // A text that one repeated class takes in whole.
  predicate Fills(element: Element, s: string, locale: Locale)
    requires element.Repeat?
  {
    element.lo <= |s| && (element.hi.Some? ==> |s| <= element.hi.value) && AllIn(element.cls, s, locale)
  }

  lemma PieceFills(item: GuardItem, s: string, locale: Locale)
    requires item != Dropped && item != Field("AM")
    ensures Piece(item, s, locale) <==> Fills(Elements(item)[0], s, locale)
  {
    if !item.Field? && |s| == 1 {
      assert AllIn(Elements(item)[0].cls, s, locale) <==> InClass(Elements(item)[0].cls, s[0], locale);
    }
  }

  lemma ItemMatches(item: GuardItem, more: seq<Element>, t: string, at: nat, locale: Locale)
    requires at <= |t|
    ensures MatchAt(Elements(item) + more, t, at, locale)
            <==> exists next :: at <= next <= |t| && Piece(item, t[at..next], locale) && MatchAt(more, t, next, locale)
  {
    var elements := Elements(item) + more;
    if item.Dropped? {
      assert elements == more && t[at..at] == "";
    } else if item == Field("AM") {
      MeridiemMatches(more, t, at, locale);
    } else {
      assert elements == [Elements(item)[0]] + more && elements[1..] == more;
      forall next | at <= next <= |t|
        ensures Piece(item, t[at..next], locale) <==> Fills(Elements(item)[0], t[at..next], locale)
      {
        PieceFills(item, t[at..next], locale);
      }
    }
  }

  lemma MeridiemMatches(more: seq<Element>, t: string, at: nat, locale: Locale)
    requires at <= |t|
    ensures MatchAt(Elements(Field("AM")) + more, t, at, locale)
            <==> exists next :: at <= next <= |t| && Piece(Field("AM"), t[at..next], locale)
                                && MatchAt(more, t, next, locale)
  {
    var elements := Elements(Field("AM")) + more;
    assert elements[1..][1..] == more;
    if MatchAt(elements, t, at, locale) {
      assert at + 1 <= |t| && AllIn(OneOf("AaPp"), t[at..at + 1], locale) && MatchAt(elements[1..], t, at + 1, locale);
      assert at + 2 <= |t| && AllIn(OneOf("Mm"), t[at + 1..at + 2], locale) && MatchAt(more, t, at + 2, locale);
      assert InClass(OneOf("AaPp"), t[at..at + 1][0], locale) && InClass(OneOf("Mm"), t[at + 1..at + 2][0], locale);
      assert Piece(Field("AM"), t[at..at + 2], locale);
    }
    if exists next :: at <= next <= |t| && Piece(Field("AM"), t[at..next], locale) && MatchAt(more, t, next, locale) {
      var next :| at <= next <= |t| && Piece(Field("AM"), t[at..next], locale) && MatchAt(more, t, next, locale);
      assert t[at] == t[at..next][0] && t[at + 1] == t[at..next][1];
      assert AllIn(OneOf("Mm"), t[at + 1..at + 2], locale);
      assert MatchAt(elements[1..], t, at + 1, locale);
      assert AllIn(OneOf("AaPp"), t[at..at + 1], locale);
    }
  }

  // The items split some stretch of `t` that starts at `at` and leaves `more` to match.
  ghost predicate SplitsThen(items: seq<GuardItem>, more: seq<Element>, t: string, at: nat, locale: Locale)
    requires at <= |t|
  {
    exists next :: at <= next <= |t| && Splits(items, t[at..next], locale) && MatchAt(more, t, next, locale)
  }

  lemma SplitsThenStep(items: seq<GuardItem>, more: seq<Element>, t: string, at: nat, locale: Locale)
    requires at <= |t| && items != []
    ensures SplitsThen(items, more, t, at, locale)
            <==> exists mid :: at <= mid <= |t| && Piece(items[0], t[at..mid], locale)
                               && SplitsThen(items[1..], more, t, mid, locale)
  {
    if SplitsThen(items, more, t, at, locale) {
      var mid := SplitOff(items, more, t, at, locale);
    }
    if mid :| at <= mid <= |t| && Piece(items[0], t[at..mid], locale) && SplitsThen(items[1..], more, t, mid, locale) {
      PutInFront(items, more, t, at, mid, locale);
    }
  }

  lemma Slices(t: string, at: nat, mid: nat, next: nat)
    requires at <= mid <= next <= |t|
    ensures t[at..next][..mid - at] == t[at..mid]
    ensures t[at..next][mid - at..] == t[mid..next]
  {
  }

  lemma SplitOff(items: seq<GuardItem>, more: seq<Element>, t: string, at: nat, locale: Locale) returns (mid: nat)
    requires at <= |t| && items != [] && SplitsThen(items, more, t, at, locale)
    ensures at <= mid <= |t| && Piece(items[0], t[at..mid], locale) && SplitsThen(items[1..], more, t, mid, locale)
  {
    var next :| at <= next <= |t| && Splits(items, t[at..next], locale) && MatchAt(more, t, next, locale);
    var s := t[at..next];
    var k :| 0 <= k <= |s| && Piece(items[0], s[..k], locale) && Splits(items[1..], s[k..], locale);
    mid := at + k;
    Slices(t, at, mid, next);
    assert mid <= next && Splits(items[1..], t[mid..next], locale) && MatchAt(more, t, next, locale);
  }

  lemma PutInFront(items: seq<GuardItem>, more: seq<Element>, t: string, at: nat, mid: nat, locale: Locale)
    requires at <= mid <= |t| && items != []
    requires Piece(items[0], t[at..mid], locale) && SplitsThen(items[1..], more, t, mid, locale)
    ensures SplitsThen(items, more, t, at, locale)
  {
    var next :| mid <= next <= |t| && Splits(items[1..], t[mid..next], locale) && MatchAt(more, t, next, locale);
    Slices(t, at, mid, next);
    assert Splits(items, t[at..next], locale);
  }

  lemma {:induction false} ItemsMatch(items: seq<GuardItem>, more: seq<Element>, t: string, at: nat, locale: Locale)
    requires at <= |t|
    ensures MatchAt(AllElements(items) + more, t, at, locale) <==> SplitsThen(items, more, t, at, locale)
    decreases |items|
  {
    if items == [] {
      assert AllElements(items) + more == more;
      assert t[at..at] == "";
      assert forall next :: at <= next <= |t| && Splits(items, t[at..next], locale) ==> next == at;
    } else {
      var rest := AllElements(items[1..]) + more;
      assert AllElements(items) + more == Elements(items[0]) + rest;
      ItemMatches(items[0], rest, t, at, locale);
      SplitsThenStep(items, more, t, at, locale);
      forall mid | at <= mid <= |t|
        ensures MatchAt(rest, t, mid, locale) <==> SplitsThen(items[1..], more, t, mid, locale)
      {
        ItemsMatch(items[1..], more, t, mid, locale);
      }
    }
  }

  lemma TailMatches(t: string, at: nat, locale: Locale)
    requires at <= |t|
    ensures MatchAt(TAIL, t, at, locale)
  {
    assert TAIL[1..] == [LineEnd] && [LineEnd][1..] == [];
    assert MatchAt([LineEnd], t, |t|, locale);
    assert AllIn(AnyChar, t[at..|t|], locale);
  }

  /** The guard is exact: it accepts a text when and only when some prefix of it splits into the items of the
    * normalised format, whatever follows; and there is a guard exactly when the format is a literal. */
  lemma GuardIsExact(up: char -> string, formatExpr: Option<string>, t: string, locale: Locale)
    ensures var literal := ParseLiteral(DatetimeFormat.NormalizeExpression(formatExpr));
            match GuardPattern(up, formatExpr)
            case None => literal.None?
            case Some(pattern) =>
              && literal.Some?
              && (Matches(pattern, t, locale)
                  <==> exists k :: 0 <= k <= |t| && Splits(ScannedItems(up, literal.value), t[..k], locale))
  {
    var literal := ParseLiteral(DatetimeFormat.NormalizeExpression(formatExpr));
    if literal.Some? {
      PatternExact(ScannedItems(up, literal.value), t, locale);
    }
  }

  lemma PatternExact(items: seq<GuardItem>, t: string, locale: Locale)
    ensures Matches(Pattern(items), t, locale) <==> exists k :: 0 <= k <= |t| && Splits(items, t[..k], locale)
  {
    PatternReadsBack(items);
    var elements := [LineStart] + (AllElements(items) + TAIL);
    assert elements[1..] == AllElements(items) + TAIL;
    ItemsMatch(items, TAIL, t, 0, locale);
    assert forall at :: 0 <= at <= |t| && MatchAt(elements, t, at, locale) ==> at == 0;
    assert Matches(Pattern(items), t, locale) <==> MatchAt(elements, t, 0, locale);
    assert forall k :: 0 <= k <= |t| ==> t[0..k] == t[..k];
    forall k | 0 <= k <= |t| ensures MatchAt(TAIL, t, k, locale) {
      TailMatches(t, k, locale);
    }
  }
}
