/** Which texts the parse guard accepts: numbers and meridiems of the right shape, and no names of months or days. */
module ParseGuardAccepts {
  import opened Wrappers
  import opened FormatScan
  import opened SqlText
  import opened RegexText
  import opened ParseGuard
  import opened ParseGuardScan
  import opened ParseGuardFormats
  import DatetimeFormat

  // The specifiers that PostgreSQL writes as digits, but for the weekday number and the offsets.
  const NUMERIC: seq<string> := [
    "HH24", "HH12", "YYYY", "SSS", "MI", "MS", "SS", "YY", "MM", "DD", "HH", "hh", "mm", "ss", "M", "D", "H", "h", "m",
    "s"]
  const READABLE := NUMERIC + ["A", "a"]

  // The fewest and the most digits.
  function DigitsOf(token: string): (nat, nat) {
    if token == "MS" || token == "SSS" then (1, 3) else if token == "YYYY" then (4, 4) else (2, 2)
  }

  predicate Digits(s: string, fewest: nat, most: nat, locale: Locale) {
    fewest <= |s| <= most && forall k :: 0 <= k < |s| ==> locale.digit(s[k])
  }

  predicate Meridiem(s: string) {
    |s| == 2 && s[0] in ['A', 'a', 'P', 'p'] && s[1] in ['M', 'm']
  }

  // A text that a piece of a format stands for.
  predicate Stands(piece: Piece, s: string, locale: Locale) {
    match piece
    case Separator(c) => if IsSpace(c) then |s| == 1 && locale.space(s[0]) else s == [c]
    case Word(token) =>
      if token == "A" || token == "a" then Meridiem(s) else Digits(s, DigitsOf(token).0, DigitsOf(token).1, locale)
  }

  ghost predicate Reads(pieces: seq<Piece>, s: string, locale: Locale)
    decreases |pieces|
  {
    if pieces == [] then s == ""
    else exists k :: 0 <= k <= |s| && Stands(pieces[0], s[..k], locale) && Reads(pieces[1..], s[k..], locale)
  }

  /* What the templates are made of. */

  // The token of the guard's table that a specifier comes down to.
  function FieldOf(token: string): string {
    if token == "HH24" || token == "HH" || token == "H" then "HH24"
    else if token == "HH12" || token == "hh" || token == "h" then "HH12"
    else if token == "MI" || token == "mm" || token == "m" then "MI"
    else if token == "SS" || token == "ss" || token == "s" then "SS"
    else if token == "MS" || token == "SSS" then "MS"
    else if token == "YYYY" then "YYYY"
    else if token == "YY" then "YY"
    else if token == "MM" || token == "M" then "MM"
    else "DD"
  }

  predicate Unpadded(token: string) {
    |token| == 1
  }

  predicate Capitals(s: string) {
    forall k :: 0 <= k < |s| ==> Alphanumeric(s[k]) && Capital(s[k]) == s[k]
  }

  lemma FieldsOfNumbers(token: string)
    ensures var field := FieldOf(token);
            field in GUARD_TOKENS && field != "AM" && field[0] != 'F' && Capitals(field)
  {
    var field := FieldOf(token);
    assert GUARD_TOKENS[0] == "HH24" && GUARD_TOKENS[1] == "HH12" && GUARD_TOKENS[2] == "YYYY";
    assert GUARD_TOKENS[6] == "MI" && GUARD_TOKENS[7] == "SS" && GUARD_TOKENS[8] == "MS";
    assert GUARD_TOKENS[9] == "YY" && GUARD_TOKENS[10] == "MM" && GUARD_TOKENS[11] == "DD";
  }

  predicate IsNumberTemplate(token: string, template: string) {
    && template == (if Unpadded(token) then "FM" + FieldOf(token) else FieldOf(token))
    && DigitCount(FieldOf(token)) == DigitsOf(token)
  }

  lemma LongNumberTemplates(k: nat)
    requires k < 3
    ensures IsNumberTemplate(NUMERIC[k], DatetimeFormat.ToPostgres(NUMERIC[k]))
  {
  }

  lemma NextLongNumberTemplates(k: nat)
    requires 3 <= k < 6
    ensures IsNumberTemplate(NUMERIC[k], DatetimeFormat.ToPostgres(NUMERIC[k]))
  {
  }

  lemma MiddleNumberTemplates(k: nat)
    requires 6 <= k < 8
    ensures IsNumberTemplate(NUMERIC[k], DatetimeFormat.ToPostgres(NUMERIC[k]))
  {
  }

  lemma NextNumberTemplates(k: nat)
    requires 8 <= k < 10
    ensures IsNumberTemplate(NUMERIC[k], DatetimeFormat.ToPostgres(NUMERIC[k]))
  {
  }

  lemma PairNumberTemplates(k: nat)
    requires 10 <= k < 14
    ensures IsNumberTemplate(NUMERIC[k], DatetimeFormat.ToPostgres(NUMERIC[k]))
  {
  }

  lemma ShortNumberTemplates(k: nat)
    requires 14 <= k < 17
    ensures IsNumberTemplate(NUMERIC[k], DatetimeFormat.ToPostgres(NUMERIC[k]))
  {
  }

  lemma LastNumberTemplates(k: nat)
    requires 17 <= k < |NUMERIC|
    ensures IsNumberTemplate(NUMERIC[k], DatetimeFormat.ToPostgres(NUMERIC[k]))
  {
  }

  lemma NumberTemplates(token: string)
    requires token in NUMERIC
    ensures IsNumberTemplate(token, DatetimeFormat.ToPostgres(token))
  {
    var k :| 0 <= k < |NUMERIC| && NUMERIC[k] == token;
    if k < 3 {
      LongNumberTemplates(k);
    } else if k < 6 {
      NextLongNumberTemplates(k);
    } else if k < 8 {
      MiddleNumberTemplates(k);
    } else if k < 10 {
      NextNumberTemplates(k);
    } else if k < 14 {
      PairNumberTemplates(k);
    } else if k < 17 {
      ShortNumberTemplates(k);
    } else {
      LastNumberTemplates(k);
    }
  }

  lemma UpperOfCapitals(up: char -> string, s: string)
    requires Uppercases(up) && Capitals(s)
    ensures Upper(up, s) == s
  {
    UpperOfWord(up, s);
  }

  /* What the guard finds in them. */

  lemma NoTokenStartsWithF(upper: string)
    requires upper != "" && upper[0] == 'F'
    ensures NoneStarts(GUARD_TOKENS, upper)
  {
    forall t | t in GUARD_TOKENS ensures !(t <= upper) {
      TokenStarts(t);
    }
  }

  lemma TokenStarts(t: string)
    requires t in GUARD_TOKENS
    ensures t != "" && t[0] != 'F'
  {
  }

  // A token that makes up the rest of a text is its last item.
  lemma LastField(up: char -> string, text: string, i: nat, token: string)
    requires i < |text| && |text| - i == |token| && Upper(up, text[i..]) == token && token in GUARD_TOKENS
    ensures FollowOn(GuardFitting(GUARD_TOKENS, up, text), |text|, i, [Field(token)])
  {
    assert IsLongest(GUARD_TOKENS, token, token);
    assert [Field(token)][1..] == [];
  }

  lemma ModifierFirst(up: char -> string, text: string, items: seq<GuardItem>)
    requires "FM" <= Upper(up, text) && |text| >= 2
    requires FollowOn(GuardFitting(GUARD_TOKENS, up, text), |text|, 2, items)
    ensures FollowOn(GuardFitting(GUARD_TOKENS, up, text), |text|, 0, [Dropped] + items)
  {
    assert text[0..] == text;
    NoTokenStartsWithF(Upper(up, text));
    assert ([Dropped] + items)[1..] == items;
  }

  function NumberItems(token: string): seq<GuardItem> {
    if Unpadded(token) then [Dropped] + [Field(FieldOf(token))] else [Field(FieldOf(token))]
  }

  lemma FieldScanned(up: char -> string, field: string)
    requires Uppercases(up) && Capitals(field) && field in GUARD_TOKENS
    ensures ScannedItems(up, field) == [Field(field)]
  {
    TokenStarts(field);
    UpperOfCapitals(up, field);
    assert field[0..] == field;
    LastField(up, field, 0, field);
    GuardScanIsTheSegmentation(up, field, [Field(field)]);
  }

  lemma UnpaddedFieldScanned(up: char -> string, field: string)
    requires Uppercases(up) && Capitals(field) && field in GUARD_TOKENS
    ensures ScannedItems(up, "FM" + field) == [Dropped] + [Field(field)]
  {
    var unpadded := "FM" + field;
    TokenStarts(field);
    UpperOfCapitals(up, field);
    UpperOfCapitals(up, unpadded);
    assert unpadded[2..] == field;
    LastField(up, unpadded, 2, field);
    ModifierFirst(up, unpadded, [Field(field)]);
    GuardScanIsTheSegmentation(up, unpadded, [Dropped] + [Field(field)]);
  }

  lemma NumberScanned(up: char -> string, token: string)
    requires Uppercases(up) && token in NUMERIC
    ensures ScannedItems(up, DatetimeFormat.ToPostgres(token)) == NumberItems(token)
  {
    NumberTemplates(token);
    FieldsOfNumbers(token);
    FieldScanned(up, FieldOf(token));
    UnpaddedFieldScanned(up, FieldOf(token));
  }

  lemma MeridiemScanned(up: char -> string, token: string)
    requires Uppercases(up) && (token == "A" || token == "a")
    ensures ScannedItems(up, DatetimeFormat.ToPostgres(token)) == [Field("AM")]
  {
    var template := DatetimeFormat.ToPostgres(token);
    assert template == "AM" || template == "am";
    UpperOfWord(up, template);
    assert Upper(up, template) == "AM" && template[0..] == template;
    assert GUARD_TOKENS[5] == "AM";
    LastField(up, template, 0, "AM");
    GuardScanIsTheSegmentation(up, template, [Field("AM")]);
  }

  /* From splitting into items to reading pieces. */

  lemma FieldFirst(item: GuardItem, rest: seq<GuardItem>, s: string, locale: Locale)
    ensures Splits([item] + rest, s, locale)
            <==> exists k :: 0 <= k <= |s| && ParseGuard.Piece(item, s[..k], locale) && Splits(rest, s[k..], locale)
  {
    assert ([item] + rest)[1..] == rest;
  }

  lemma DroppedFirst(rest: seq<GuardItem>, s: string, locale: Locale)
    ensures Splits([Dropped] + rest, s, locale) <==> Splits(rest, s, locale)
  {
    FieldFirst(Dropped, rest, s, locale);
    assert s[..0] == "" && s[0..] == s;
  }

  // Splitting off the items of a piece is reading the piece.
  ghost predicate Means(items: seq<GuardItem>, piece: Piece, rest: seq<GuardItem>, s: string, locale: Locale) {
    Splits(items + rest, s, locale)
    <==> exists k :: 0 <= k <= |s| && Stands(piece, s[..k], locale) && Splits(rest, s[k..], locale)
  }

  lemma ItemMeans(item: GuardItem, piece: Piece, rest: seq<GuardItem>, s: string, locale: Locale)
    requires forall u :: ParseGuard.Piece(item, u, locale) <==> Stands(piece, u, locale)
    ensures Means([item], piece, rest, s, locale)
  {
    FieldFirst(item, rest, s, locale);
  }

  lemma NumberMeans(token: string, rest: seq<GuardItem>, s: string, locale: Locale)
    requires token in NUMERIC
    ensures Means(NumberItems(token), Word(token), rest, s, locale)
  {
    var field := Field(FieldOf(token));
    NumberTemplates(token);
    FieldsOfNumbers(token);
    NotMeridiem(token);
    ItemMeans(field, Word(token), rest, s, locale);
    if Unpadded(token) {
      DroppedFirst([field] + rest, s, locale);
      assert NumberItems(token) + rest == [Dropped] + ([field] + rest);
    }
  }

  lemma NotMeridiem(token: string)
    requires token in NUMERIC
    ensures token != "A" && token != "a"
  {
  }

  lemma MeridiemMeans(token: string, rest: seq<GuardItem>, s: string, locale: Locale)
    requires token == "A" || token == "a"
    ensures Means([Field("AM")], Word(token), rest, s, locale)
  {
    ItemMeans(Field("AM"), Word(token), rest, s, locale);
  }

  lemma SeparatorMeans(c: char, rest: seq<GuardItem>, s: string, locale: Locale)
    ensures Means([SeparatorItem(c)], Separator(c), rest, s, locale)
  {
    ItemMeans(SeparatorItem(c), Separator(c), rest, s, locale);
  }

  // What the guard looks for in the template of a specifier.
  ghost function ItemsIn(up: char -> string): Piece -> seq<GuardItem> {
    FindGuardTokenIsSound();
    PieceItems(WordItems(FindGuardToken, up), DatetimeFormat.ToPostgres)
  }

  lemma ItemsInWord(up: char -> string, token: string)
    ensures ItemsIn(up)(Word(token)) == ScannedItems(up, DatetimeFormat.ToPostgres(token))
  {
    FindGuardTokenIsSound();
    PieceItemsOf(FindGuardToken, up, DatetimeFormat.ToPostgres, token);
  }

  lemma PieceItemsOf(find: Finder, up: char -> string, body: string -> string, token: string)
    requires Sound(find)
    ensures PieceItems(WordItems(find, up), body)(Word(token)) == GuardItems(find, up, body(token))
  {
    assert WordItems(find, up)(body(token)) == GuardFrom(find, up, body(token))(0);
  }

  lemma ReadableIs(token: string)
    requires token in READABLE
    ensures token in NUMERIC || token == "A" || token == "a"
  {
  }

  lemma PieceMeans(up: char -> string, piece: Piece, rest: seq<GuardItem>, s: string, locale: Locale)
    requires Uppercases(up) && (piece.Word? ==> piece.token in READABLE)
    ensures Means(ItemsIn(up)(piece), piece, rest, s, locale)
  {
    match piece {
      case Separator(c) => SeparatorMeans(c, rest, s, locale);
      case Word(token) =>
        ItemsInWord(up, token);
        ReadableIs(token);
        if token in NUMERIC {
          NumberScanned(up, token);
          NumberMeans(token, rest, s, locale);
        } else {
          MeridiemScanned(up, token);
          MeridiemMeans(token, rest, s, locale);
        }
    }
  }

  // Where the items of each piece mean the piece, the items of all mean all.
  lemma {:induction false} AllMean(itemsOf: Piece -> seq<GuardItem>, pieces: seq<Piece>, s: string, locale: Locale)
    requires forall k, rest, u :: 0 <= k < |pieces| ==> Means(itemsOf(pieces[k]), pieces[k], rest, u, locale)
    ensures Splits(AllItems(itemsOf, pieces), s, locale) <==> Reads(pieces, s, locale)
    decreases |pieces|
  {
    if pieces != [] {
      var rest := AllItems(itemsOf, pieces[1..]);
      assert Means(itemsOf(pieces[0]), pieces[0], rest, s, locale);
      forall k | 0 <= k <= |s| ensures Splits(rest, s[k..], locale) <==> Reads(pieces[1..], s[k..], locale) {
        AllMean(itemsOf, pieces[1..], s[k..], locale);
      }
    }
  }

  lemma ReadableAreSpecifiers(token: string)
    requires token in READABLE
    ensures token in DatetimeFormat.SPECIFIERS
  {
  }

  /** The guard of a format of numbers and meridiems set apart by separators accepts exactly the texts with a prefix
    * that has these numbers, meridiems and separators in order: two digits for a number, whether padded in the format
    * or not, four for a year, one to three for milliseconds. */
  lemma GuardReadsNumbers(up: char -> string, pieces: seq<Piece>, t: string, locale: Locale)
    requires Uppercases(up) && WellSpaced(up, READABLE, pieces)
    ensures var guard := GuardPattern(up, Some(FormatOf(pieces)));
            && guard.Some?
            && (Matches(guard.value, t, locale) <==> exists k :: 0 <= k <= |t| && Reads(pieces, t[..k], locale))
  {
    forall k | 0 <= k < |pieces| && pieces[k].Word? ensures pieces[k].token in DatetimeFormat.SPECIFIERS {
      ReadableAreSpecifiers(pieces[k].token);
    }
    GuardOfPieces(up, pieces);
    PatternExact(AllItems(ItemsIn(up), pieces), t, locale);
    forall k, rest, u | 0 <= k < |pieces| ensures Means(ItemsIn(up)(pieces[k]), pieces[k], rest, u, locale) {
      PieceMeans(up, pieces[k], rest, u, locale);
    }
    forall k | 0 <= k <= |t|
      ensures Splits(AllItems(ItemsIn(up), pieces), t[..k], locale) <==> Reads(pieces, t[..k], locale)
    {
      AllMean(ItemsIn(up), pieces, t[..k], locale);
    }
  }

  /* Names of months and days. */

  lemma TokenShape(t: string)
    requires t in GUARD_TOKENS
    ensures t != "" && t[0] != 'O' && t[0] != 'N' && t[0] != 'T'
    ensures t[0] == 'M' ==> |t| == 2 && t[1] != 'O'
    ensures t[0] == 'D' ==> |t| == 2 && t[1] == 'D'
    ensures t[0] == 'A' ==> |t| == 2 && t[1] == 'M'
  {
  }

  // Where no token and no modifier can start in a name: at a letter `c` before `next`.
  predicate NameLetter(c: char, next: char) {
    || c == 'o' || c == 'n' || (c == 'M' && next == 'o')
    || (c == 'D' && (next == 'a' || next == 'y')) || (c == 'a' && next == 'y')
  }

  lemma UpperAt(up: char -> string, text: string, i: nat)
    requires Uppercases(up) && Alnum(text) && i <= |text|
    ensures |Upper(up, text[i..])| == |text| - i
    ensures forall k :: 0 <= k < |text| - i ==> Upper(up, text[i..])[k] == Capital(text[i + k])
  {
    UpperOfWord(up, text[i..]);
  }

  // The same in capitals.
  lemma NothingStarts(upper: string, c: char, next: char)
    requires NameLetter(c, next) && upper != "" && upper[0] == Capital(c)
    requires if |upper| > 1 then upper[1] == Capital(next) else next == ' '
    ensures NoneStarts(GUARD_TOKENS, upper) && !StartsModifier(upper)
  {
    forall t | t in GUARD_TOKENS ensures !(t <= upper) {
      TokenShape(t);
    }
  }

  lemma LetterFirst(up: char -> string, text: string, i: nat, items: seq<GuardItem>)
    requires Uppercases(up) && Alnum(text) && i < |text|
    requires NameLetter(text[i], if i + 1 < |text| then text[i + 1] else ' ')
    requires FollowOn(GuardFitting(GUARD_TOKENS, up, text), |text|, i + 1, items)
    ensures FollowOn(GuardFitting(GUARD_TOKENS, up, text), |text|, i, [Exact(text[i])] + items)
  {
    UpperAt(up, text, i);
    NothingStarts(Upper(up, text[i..]), text[i], if i + 1 < |text| then text[i + 1] else ' ');
    assert ([Exact(text[i])] + items)[1..] == items;
  }

  lemma OrdinalLast(up: char -> string, text: string, i: nat)
    requires Uppercases(up) && Alnum(text) && |text| == i + 2 && text[i] == 't' && text[i + 1] == 'h'
    ensures FollowOn(GuardFitting(GUARD_TOKENS, up, text), |text|, i, [Dropped])
  {
    UpperAt(up, text, i);
    assert Upper(up, text[i..]) == "TH";
    OrdinalIsModifier();
    assert GuardFitting(GUARD_TOKENS, up, text)(i, Dropped);
    assert [Dropped][1..] == [];
  }

  lemma OrdinalIsModifier()
    ensures NoneStarts(GUARD_TOKENS, "TH") && StartsModifier("TH")
  {
    forall t | t in GUARD_TOKENS ensures !(t <= "TH") {
      TokenShape(t);
    }
  }

  lemma YearLast(up: char -> string, text: string, i: nat)
    requires Uppercases(up) && Alnum(text) && |text| == i + 1 && text[i] == 'y'
    ensures FollowOn(GuardFitting(GUARD_TOKENS, up, text), |text|, i, [Field("Y")])
  {
    UpperAt(up, text, i);
    assert Upper(up, text[i..]) == "Y";
    assert GUARD_TOKENS[12] == "Y";
    LastField(up, text, i, "Y");
  }

  // A name after the modifier FM.
  lemma NameScanned(up: char -> string, text: string, items: seq<GuardItem>)
    requires Uppercases(up) && Alnum(text) && |text| >= 2 && text[0] == 'F' && text[1] == 'M'
    requires FollowOn(GuardFitting(GUARD_TOKENS, up, text), |text|, 2, items)
    ensures ScannedItems(up, text) == [Dropped] + items
  {
    UpperAt(up, text, 0);
    assert text[0..] == text;
    ModifierFirst(up, text, items);
    GuardScanIsTheSegmentation(up, text, [Dropped] + items);
  }

  // The letters Mon of a template, and what is found after them.
  lemma MonthLetters(up: char -> string, text: string, after: seq<GuardItem>)
    requires Uppercases(up) && Alnum(text) && |text| >= 5
    requires text[0] == 'F' && text[1] == 'M' && text[2] == 'M' && text[3] == 'o' && text[4] == 'n'
    requires FollowOn(GuardFitting(GUARD_TOKENS, up, text), |text|, 5, after)
    ensures ScannedItems(up, text) == [Dropped] + ([Exact('M')] + ([Exact('o')] + ([Exact('n')] + after)))
  {
    LetterFirst(up, text, 4, after);
    LetterFirst(up, text, 3, [Exact('n')] + after);
    LetterFirst(up, text, 2, [Exact('o')] + ([Exact('n')] + after));
    NameScanned(up, text, [Exact('M')] + ([Exact('o')] + ([Exact('n')] + after)));
  }

  lemma MonthScanned(up: char -> string)
    requires Uppercases(up)
    ensures ScannedItems(up, "FMMonth") == [Dropped] + ([Exact('M')] + ([Exact('o')] + ([Exact('n')] + [Dropped])))
  {
    OrdinalLast(up, "FMMonth", 5);
    MonthLetters(up, "FMMonth", [Dropped]);
  }

  lemma ShortMonthScanned(up: char -> string)
    requires Uppercases(up)
    ensures ScannedItems(up, "FMMon") == [Dropped] + ([Exact('M')] + ([Exact('o')] + ([Exact('n')] + [])))
  {
    MonthLetters(up, "FMMon", []);
  }

  lemma DayScanned(up: char -> string)
    requires Uppercases(up)
    ensures ScannedItems(up, "FMDay") == [Dropped] + ([Exact('D')] + ([Exact('a')] + [Field("Y")]))
  {
    YearLast(up, "FMDay", 4);
    LetterFirst(up, "FMDay", 3, [Field("Y")]);
    LetterFirst(up, "FMDay", 2, [Exact('a')] + [Field("Y")]);
    NameScanned(up, "FMDay", [Exact('D')] + ([Exact('a')] + [Field("Y")]));
  }

  lemma ShortDayScanned(up: char -> string)
    requires Uppercases(up)
    ensures ScannedItems(up, "FMDy") == [Dropped] + ([Exact('D')] + [Field("Y")])
  {
    YearLast(up, "FMDy", 3);
    LetterFirst(up, "FMDy", 2, [Field("Y")]);
    NameScanned(up, "FMDy", [Exact('D')] + [Field("Y")]);
  }

  lemma ExactFirst(c: char, rest: seq<GuardItem>, s: string, locale: Locale)
    ensures Splits([Exact(c)] + rest, s, locale) <==> s != "" && s[0] == c && Splits(rest, s[1..], locale)
  {
    FieldFirst(Exact(c), rest, s, locale);
    if s != "" {
      assert s[..1] == [s[0]];
    }
    assert forall k :: 0 <= k <= |s| && s[..k] == [c] ==> k == 1 && s[..k][0] == s[0];
  }

  lemma OneDigit(s: string, locale: Locale)
    ensures Splits([Field("Y")], s, locale) <==> |s| == 1 && locale.digit(s[0])
  {
    FieldFirst(Field("Y"), [], s, locale);
    assert [Field("Y")] + [] == [Field("Y")];
    assert s[..|s|] == s;
  }

  lemma MonthSplits(after: seq<GuardItem>, s: string, locale: Locale)
    requires after == [] || after == [Dropped]
    ensures Splits([Dropped] + ([Exact('M')] + ([Exact('o')] + ([Exact('n')] + after))), s, locale) <==> s == "Mon"
  {
    var on := [Exact('o')] + ([Exact('n')] + after);
    DroppedFirst([Exact('M')] + on, s, locale);
    ExactFirst('M', on, s, locale);
    if s != "" {
      ExactFirst('o', [Exact('n')] + after, s[1..], locale);
    }
    if |s| > 1 {
      ExactFirst('n', after, s[2..], locale);
      assert s[1..][1..] == s[2..];
    }
    if |s| > 2 {
      DroppedFirst([], s[3..], locale);
      assert [Dropped] + [] == [Dropped] && s[2..][1..] == s[3..];
    }
  }

  lemma DaySplits(s: string, locale: Locale)
    ensures Splits([Dropped] + ([Exact('D')] + ([Exact('a')] + [Field("Y")])), s, locale)
            <==> |s| == 3 && s[0] == 'D' && s[1] == 'a' && locale.digit(s[2])
  {
    var ay := [Exact('a')] + [Field("Y")];
    DroppedFirst([Exact('D')] + ay, s, locale);
    ExactFirst('D', ay, s, locale);
    if s != "" {
      ExactFirst('a', [Field("Y")], s[1..], locale);
    }
    if |s| > 1 {
      OneDigit(s[2..], locale);
      assert s[1..][1..] == s[2..];
    }
  }

  lemma ShortDaySplits(s: string, locale: Locale)
    ensures Splits([Dropped] + ([Exact('D')] + [Field("Y")]), s, locale)
            <==> |s| == 2 && s[0] == 'D' && locale.digit(s[1])
  {
    DroppedFirst([Exact('D')] + [Field("Y")], s, locale);
    ExactFirst('D', [Field("Y")], s, locale);
    if s != "" {
      OneDigit(s[1..], locale);
    }
  }

  // The guard of a format that is one specifier.
  lemma GuardOfSpecifier(up: char -> string, token: string, t: string, locale: Locale)
    requires Uppercases(up) && token in DatetimeFormat.SPECIFIERS
    ensures var guard := GuardPattern(up, Some("'" + token + "'"));
            && guard.Some?
            && (Matches(guard.value, t, locale)
                <==> exists k :: 0 <= k <= |t|
                       && Splits(ScannedItems(up, DatetimeFormat.ToPostgres(token)), t[..k], locale))
  {
    var pieces := [Word(token)];
    var items := ScannedItems(up, DatetimeFormat.ToPostgres(token));
    GuardOfPieces(up, pieces);
    ItemsInWord(up, token);
    OneWord(token, Itself);
    assert AllItems(ItemsIn(up), pieces) == items + [];
    assert items + [] == items;
    PatternExact(items, t, locale);
  }

  lemma OneWord(token: string, body: string -> string)
    ensures Text([Word(token)], body) == body(token)
  {
    assert [Word(token)][1..] == [] && body(token) + "" == body(token);
  }

  // The text the guard looks for where a format names a month or a weekday.
  predicate NameLead(token: string, s: string, locale: Locale) {
    if token in ["Month", "MMMM", "MMM"] then s == "Mon"
    else if token in ["Day", "dddd"] then |s| == 3 && s[0] == 'D' && s[1] == 'a' && locale.digit(s[2])
    else |s| == 2 && s[0] == 'D' && locale.digit(s[1])    // ddd, dd
  }

  const NAMES: seq<string> := ["Month", "MMMM", "MMM", "Day", "dddd", "ddd", "dd"]

  lemma NameTemplates(token: string)
    requires token in NAMES
    ensures token in DatetimeFormat.SPECIFIERS
    ensures DatetimeFormat.ToPostgres(token)
            == if token == "MMM" then "FMMon"
               else if token in ["Month", "MMMM"] then "FMMonth"
               else if token in ["Day", "dddd"] then "FMDay"
               else "FMDy"
  {
    assert DatetimeFormat.LONG_SPECIFIERS[0] == "Month" && DatetimeFormat.LONG_SPECIFIERS[6] == "MMMM";
    assert DatetimeFormat.LONG_SPECIFIERS[7] == "dddd" && DatetimeFormat.LONG_SPECIFIERS[8] == "Day";
    assert DatetimeFormat.LONG_SPECIFIERS[11] == "ddd" && DatetimeFormat.LONG_SPECIFIERS[12] == "MMM";
    assert DatetimeFormat.PAIR_SPECIFIERS[3] == "dd";
  }

  lemma NameMeans(up: char -> string, token: string, s: string, locale: Locale)
    requires Uppercases(up) && token in NAMES
    ensures Splits(ScannedItems(up, DatetimeFormat.ToPostgres(token)), s, locale) <==> NameLead(token, s, locale)
  {
    NameTemplates(token);
    MonthScanned(up);
    ShortMonthScanned(up);
    DayScanned(up);
    ShortDayScanned(up);
    MonthSplits([], s, locale);
    MonthSplits([Dropped], s, locale);
    DaySplits(s, locale);
    ShortDaySplits(s, locale);
  }

  /** No name of a month or weekday passes the guard of a format that asks for one, unless it starts with the template's
    * own letters: the guard of a month name wants the letters Mon, that of a weekday name Da or D and a digit. */
  lemma GuardReadsNoNames(up: char -> string, token: string, t: string, locale: Locale)
    requires Uppercases(up) && token in NAMES
    ensures var guard := GuardPattern(up, Some("'" + token + "'"));
            && guard.Some?
            && (Matches(guard.value, t, locale) <==> exists k :: 0 <= k <= |t| && NameLead(token, t[..k], locale))
  {
    NameTemplates(token);
    GuardOfSpecifier(up, token, t, locale);
    forall k | 0 <= k <= |t|
      ensures Splits(ScannedItems(up, DatetimeFormat.ToPostgres(token)), t[..k], locale)
              <==> NameLead(token, t[..k], locale)
    {
      NameMeans(up, token, t[..k], locale);
    }
  }
}
