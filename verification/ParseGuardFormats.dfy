/** What the parse guard of a format accepts, said without its items: formats of specifiers set apart by separators. */
module ParseGuardFormats {
  import opened Wrappers
  import opened FormatScan
  import opened SqlText
  import opened RegexText
  import opened ParseGuard
  import ParseGuardScan
  import DatetimeFormat
  import DatetimeFormatLaws
  import LocalizedFormat

  datatype Piece = Word(token: string) | Separator(c: char)

  function PieceText(piece: Piece, body: string -> string): string {
    match piece
    case Word(token) => body(token)
    case Separator(c) => [c]
  }

  function Text(pieces: seq<Piece>, body: string -> string): string {
    if pieces == [] then "" else PieceText(pieces[0], body) + Text(pieces[1..], body)
  }

  function Itself(token: string): string { token }

  // The format constant that is written with these pieces.
  function FormatOf(pieces: seq<Piece>): string {
    "'" + Text(pieces, Itself) + "'"
  }

  predicate Alnum(s: string) {
    forall k :: 0 <= k < |s| ==> Alphanumeric(s[k])
  }

  // `toUpperCase` on letters without accents and on digits.
  function Capital(c: char): char {
    if 'a' <= c <= 'z' then (c as int - 32) as char else c
  }

  ghost predicate Uppercases(up: char -> string) {
    forall c :: Alphanumeric(c) ==> up(c) == [Capital(c)]
  }

  // A character that is no letter or digit, in capitals neither, and does not end the constant.
  predicate Separates(up: char -> string, c: char) {
    c != '\'' && !Alphanumeric(c) && up(c) == [c]
  }

  // Specifiers, never two together.
  ghost predicate WellSpaced(up: char -> string, specifiers: seq<string>, pieces: seq<Piece>) {
    && (forall k :: 0 <= k < |pieces| && pieces[k].Word? ==> pieces[k].token in specifiers)
    && (forall k :: 0 <= k < |pieces| && pieces[k].Separator? ==> Separates(up, pieces[k].c))
    && (forall k :: 0 <= k < |pieces| - 1 && pieces[k].Word? ==> pieces[k + 1].Separator?)
  }

  lemma WellSpacedTail(up: char -> string, specifiers: seq<string>, pieces: seq<Piece>)
    requires WellSpaced(up, specifiers, pieces) && pieces != []
    ensures WellSpaced(up, specifiers, pieces[1..])
  {
    var tail := pieces[1..];
    forall k | 0 <= k < |tail| - 1 && tail[k].Word? ensures tail[k + 1].Separator? {
      assert pieces[k + 1].Word? && pieces[k + 2].Separator?;
    }
  }

  // Nothing of a word goes on in what follows.
  predicate Apart(rest: string) {
    rest == "" || !Alphanumeric(rest[0])
  }

  lemma WordEnds(up: char -> string, specifiers: seq<string>, pieces: seq<Piece>, body: string -> string)
    requires WellSpaced(up, specifiers, pieces) && pieces != [] && pieces[0].Word?
    ensures Apart(Text(pieces[1..], body))
    ensures |pieces| > 1 ==> pieces[1].Separator? && Separates(up, pieces[1].c)
    ensures |pieces| > 1 ==> Text(pieces[1..], body)[0] == pieces[1].c
  {
    if |pieces| > 1 {
      assert pieces[1..][0] == pieces[1];
    }
  }

  /* The specifiers of such a format. */

  ghost predicate Words(table: seq<string>) {
    forall t :: t in table ==> t != "" && Alnum(t)
  }

  lemma PrefixOfWord(u: string, word: string, rest: string)
    requires Alnum(u) && Apart(rest)
    ensures u <= word + rest <==> u <= word
  {
    if |u| > |word| && rest != "" {
      assert (word + rest)[|word|] == rest[0] && Alphanumeric(u[|word|]);
    }
  }

  lemma {:induction false} FindInWord(table: seq<string>, word: string, rest: string)
    requires Words(table) && Apart(rest)
    ensures FindToken(table, word + rest) == FindToken(table, word)
  {
    if table != [] {
      PrefixOfWord(table[0], word, rest);
      assert table == [table[0]] + table[1..];
      assert forall t :: t in table[1..] ==> t in table;
      FindInWord(table[1..], word, rest);
    }
  }

  lemma FindWord(table: seq<string>, word: string, rest: string)
    requires LongestFirst(table) && Words(table) && word in table && Apart(rest)
    ensures FindToken(table, word + rest) == Some(word)
  {
    FindInWord(table, word, rest);
    LongestMatch(table, word, word);
  }

  lemma FindNothing(table: seq<string>, rest: string)
    requires Words(table) && rest != "" && Apart(rest)
    ensures FindToken(table, rest).None?
  {
    forall u | u in table ensures !(u <= rest) {
      assert Alphanumeric(u[0]);
    }
  }

  function ItemOf(piece: Piece): Item {
    match piece
    case Word(token) => Token(token)
    case Separator(c) => Plain(c)
  }

  function ItemsOf(pieces: seq<Piece>): seq<Item> {
    if pieces == [] then [] else [ItemOf(pieces[0])] + ItemsOf(pieces[1..])
  }

  lemma {:induction false} ItemsOfEmit(pieces: seq<Piece>, body: string -> string)
    ensures Emit(ItemsOf(pieces), body) == Text(pieces, body)
  {
    if pieces != [] {
      ItemsOfEmit(pieces[1..], body);
      assert ItemsOf(pieces)[1..] == ItemsOf(pieces[1..]);
    }
  }

  // The pieces are what is left of `y` from `i` on, where no word has begun.
  ghost predicate Left(up: char -> string, table: seq<string>, y: string, i: nat, pieces: seq<Piece>) {
    && WellSpaced(up, table, pieces)
    && i <= |y| && y[i..] == Text(pieces, Itself)
    && (pieces != [] && pieces[0].Word? && i > 0 ==> !Alphanumeric(y[i - 1]))
  }

  ghost function LeftOf(up: char -> string, table: seq<string>, y: string): (nat, seq<Piece>) -> bool {
    (i: nat, pieces: seq<Piece>) => Left(up, table, y, i, pieces)
  }

  lemma PieceFound(find: Finder, table: seq<string>, up: char -> string, y: string, i: nat, pieces: seq<Piece>)
    requires LooksUp(find, table) && Words(table) && Left(up, table, y, i, pieces) && pieces != []
    ensures i < |y| && ItemAt(find, y, i) == ItemOf(pieces[0])
  {
    var rest := Text(pieces[1..], Itself);
    match pieces[0] {
      case Separator(c) =>
        assert y[i..] == [c] + rest;
        FindNothing(table, y[i..]);
      case Word(token) =>
        WordEnds(up, table, pieces, Itself);
        FindWord(table, token, rest);
        assert token in table && y[i..] == token + rest;
        if |token| == 1 && rest != "" {
          assert y[i + 1] == y[i..][1] && y[i..][1] == rest[0];
        }
    }
  }

  // Past the first piece the others are left.
  lemma PieceTaken(up: char -> string, table: seq<string>, y: string, i: nat, pieces: seq<Piece>)
    requires Words(table) && Left(up, table, y, i, pieces) && pieces != []
    ensures i < i + Width(ItemOf(pieces[0])) && Left(up, table, y, i + Width(ItemOf(pieces[0])), pieces[1..])
  {
    WellSpacedTail(up, table, pieces);
    PastText(y, i, PieceText(pieces[0], Itself), Text(pieces[1..], Itself));
    if pieces[0].Word? && |pieces| > 1 {
      assert pieces[1..][0] == pieces[1];
    }
  }

  lemma PastText(y: string, i: nat, text: string, rest: string)
    requires i <= |y| && y[i..] == text + rest
    ensures i + |text| <= |y| && y[i + |text|..] == rest
    ensures text != "" ==> y[i + |text| - 1] == text[|text| - 1]
  {
    assert y[i + |text|..] == y[i..][|text|..];
    assert text != "" ==> y[i + |text| - 1] == y[i..][|text| - 1];
  }

  // A scan that finds the first of the pieces left, wherever they are, finds them all.
  lemma {:induction false} PiecesFound(at: nat -> Item, walk: nat -> seq<Item>, n: nat,
                                       left: (nat, seq<Piece>) -> bool, i: nat, pieces: seq<Piece>)
    requires walk(n) == [] && forall j: nat :: j < n ==> walk(j) == [at(j)] + walk(j + Width(at(j)))
    requires forall j: nat, ps :: left(j, ps) && ps == [] ==> j == n
    requires forall j: nat, ps :: left(j, ps) && ps != [] ==>
               j < n && at(j) == ItemOf(ps[0]) && left(j + Width(ItemOf(ps[0])), ps[1..])
    requires left(i, pieces)
    ensures walk(i) == ItemsOf(pieces)
    decreases |pieces|
  {
    if pieces != [] {
      PiecesFound(at, walk, n, left, i + Width(ItemOf(pieces[0])), pieces[1..]);
    }
  }

  lemma PieceStep(find: Finder, table: seq<string>, up: char -> string, y: string, i: nat, pieces: seq<Piece>)
    requires LooksUp(find, table) && Words(table) && LeftOf(up, table, y)(i, pieces) && pieces != []
    ensures i < |y| && At(find, y)(i) == ItemOf(pieces[0])
    ensures LeftOf(up, table, y)(i + Width(ItemOf(pieces[0])), pieces[1..])
  {
    PieceFound(find, table, up, y, i, pieces);
    PieceTaken(up, table, y, i, pieces);
  }

  lemma ScanOfPieces(find: Finder, table: seq<string>, up: char -> string, pieces: seq<Piece>)
    requires Sound(find) && LooksUp(find, table) && Words(table) && WellSpaced(up, table, pieces)
    ensures Scan(find, Text(pieces, Itself), 0) == ItemsOf(pieces)
  {
    var y := Text(pieces, Itself);
    var at, walk, left := At(find, y), ScanFrom(find, y), LeftOf(up, table, y);
    forall j: nat | j < |y| ensures walk(j) == [at(j)] + walk(j + Width(at(j))) {
      ScanWalks(find, y, j);
    }
    forall j: nat, ps | left(j, ps) && ps != []
      ensures j < |y| && at(j) == ItemOf(ps[0]) && left(j + Width(ItemOf(ps[0])), ps[1..])
    {
      PieceStep(find, table, up, y, j, ps);
    }
    assert y[0..] == y;
    PiecesFound(at, walk, |y|, left, 0, pieces);
  }

  /* Their normal form. */

  lemma LongAreWords(t: string)
    requires t in DatetimeFormat.LONG_SPECIFIERS
    ensures t != "" && Alnum(t)
  {
  }

  lemma LongHoldNoMacro(t: string)
    requires t in DatetimeFormat.LONG_SPECIFIERS
    ensures 'L' !in t && 'l' !in t
  {
  }

  lemma PairsAreWords(t: string)
    requires t in DatetimeFormat.PAIR_SPECIFIERS
    ensures t != "" && Alnum(t) && 'L' !in t && 'l' !in t
  {
  }

  lemma LettersAreWords(t: string)
    requires t in DatetimeFormat.LETTER_SPECIFIERS
    ensures t != "" && Alnum(t) && 'L' !in t && 'l' !in t
  {
  }

  lemma SpecifierIsWord(t: string)
    requires t in DatetimeFormat.SPECIFIERS
    ensures t != "" && Alnum(t) && 'L' !in t && 'l' !in t
  {
    if t in DatetimeFormat.LONG_SPECIFIERS {
      LongAreWords(t);
      LongHoldNoMacro(t);
    } else if t in DatetimeFormat.PAIR_SPECIFIERS {
      PairsAreWords(t);
    } else {
      LettersAreWords(t);
    }
  }

  lemma SpecifiersAreWords()
    ensures Words(DatetimeFormat.SPECIFIERS)
  {
    forall t | t in DatetimeFormat.SPECIFIERS ensures t != "" && Alnum(t) {
      SpecifierIsWord(t);
    }
  }

  lemma {:induction false} NoMacroInside(up: char -> string, pieces: seq<Piece>)
    requires WellSpaced(up, DatetimeFormat.SPECIFIERS, pieces)
    ensures 'L' !in Text(pieces, Itself) && 'l' !in Text(pieces, Itself)
  {
    if pieces != [] {
      WellSpacedTail(up, DatetimeFormat.SPECIFIERS, pieces);
      NoMacroInside(up, pieces[1..]);
      if pieces[0].Word? {
        SpecifierIsWord(pieces[0].token);
      }
    }
  }

  lemma ConstantIsTrimmed(s: string)
    ensures Trim("'" + s + "'") == "'" + s + "'"
    ensures Quoted("'" + s + "'") && Inner("'" + s + "'") == s
  {
    var constant := "'" + s + "'";
    assert constant[0] == '\'' && constant[|constant| - 1] == '\'';
  }

  /** Such a format is normalised specifier by specifier. */
  lemma PiecesNormalise(up: char -> string, pieces: seq<Piece>)
    requires WellSpaced(up, DatetimeFormat.SPECIFIERS, pieces)
    ensures ParseLiteral(DatetimeFormat.NormalizeExpression(Some(FormatOf(pieces))))
            == Some(Text(pieces, DatetimeFormat.ToPostgres))
  {
    var text := Text(pieces, Itself);
    ConstantIsTrimmed(text);
    DatetimeFormatLaws.NormalizeRoundTripIff(FormatOf(pieces));
    NoMacroInside(up, pieces);
    LocalizedFormat.NoMacroNoChange(text);
    DatetimeFormat.FindSpecifierIsSound();
    SpecifiersAreWords();
    ScanOfPieces(DatetimeFormat.FindSpecifier, DatetimeFormat.SPECIFIERS, up, pieces);
    ItemsOfEmit(pieces, DatetimeFormat.ToPostgres);
  }

  /* The guard's items. */

  lemma {:induction false} UpperConcat(up: char -> string, a: string, b: string)
    ensures Upper(up, a + b) == Upper(up, a) + Upper(up, b)
  {
    if a == "" {
      assert a + b == b;
    } else {
      assert (a + b)[1..] == a[1..] + b;
      UpperConcat(up, a[1..], b);
    }
  }

  lemma {:induction false} UpperOfWord(up: char -> string, word: string)
    requires Uppercases(up) && Alnum(word)
    ensures |Upper(up, word)| == |word|
    ensures forall k :: 0 <= k < |word| ==> Upper(up, word)[k] == Capital(word[k])
  {
    if word != "" {
      UpperOfWord(up, word[1..]);
      assert word == [word[0]] + word[1..];
    }
  }

  // What follows a word keeps apart from it in capitals too.
  ghost predicate StaysApart(up: char -> string, rest: string) {
    rest == "" || Separates(up, rest[0])
  }

  lemma UpperApart(up: char -> string, rest: string)
    requires StaysApart(up, rest)
    ensures Apart(Upper(up, rest))
  {
  }

  // The scan finds in a word the same whether anything follows it or not.
  lemma SameInWord(find: Finder, table: seq<string>, up: char -> string, word: string, rest: string)
    requires LooksUp(find, table) && Sound(find) && Words(table)
    requires Uppercases(up) && Alnum(word) && word != "" && StaysApart(up, rest)
    ensures GuardItemAt(find, up, word + rest, 0) == GuardItemAt(find, up, word, 0)
    ensures Consumed(GuardItemAt(find, up, word, 0)) <= |word|
  {
    var upper, after := Upper(up, word), Upper(up, rest);
    assert (word + rest)[0..] == word + rest && word[0..] == word;
    UpperConcat(up, word, rest);
    UpperOfWord(up, word);
    UpperApart(up, rest);
    FindInWord(table, upper, after);
    assert find(upper) == FindToken(table, upper) && find(upper + after) == FindToken(table, upper + after);
    ParseGuardScan.SkipIsModifier(upper);
    ParseGuardScan.SkipIsModifier(upper + after);
    ModifierInWord(upper, after);
  }

  lemma ModifierInWord(upper: string, after: string)
    requires Apart(after)
    ensures ParseGuardScan.StartsModifier(upper + after) <==> ParseGuardScan.StartsModifier(upper)
    ensures ParseGuardScan.StartsModifier(upper) ==> |upper| >= 2
  {
    PrefixOfWord("FM", upper, after);
    PrefixOfWord("TM", upper, after);
    PrefixOfWord("TH", upper, after);
  }

  // Where a word begins, the scan goes as it goes in the word.
  ghost predicate ScansAlike(at: nat -> GuardItem, own: nat -> GuardItem, m: nat, i: nat) {
    forall j: nat :: AlikeAt(at, own, m, i, j)
  }

  predicate AlikeAt(at: nat -> GuardItem, own: nat -> GuardItem, m: nat, i: nat, j: nat) {
    j < m ==> at(i + j) == own(j) && Consumed(own(j)) <= m - j
  }

  lemma InFront<T>(x: T, a: seq<T>, b: seq<T>)
    ensures [x] + (a + b) == ([x] + a) + b
  {
  }

  // Where a stretch of length `m` is scanned alike on its own, its items come first.
  lemma {:induction false} Stretch(at: nat -> GuardItem, own: nat -> GuardItem, n: nat, m: nat, i: nat, k: nat)
    requires Advances(at) && Advances(own) && i + m <= n && k <= m
    requires ScansAlike(at, own, m, i)
    ensures ItemsFrom(at, n, i + k) == ItemsFrom(own, m, k) + ItemsFrom(at, n, i + m)
    decreases m - k
  {
    if k < m {
      ParseGuardScan.ItemsUnfold(at, n, i + k);
      ParseGuardScan.ItemsUnfold(own, m, k);
      var next := k + Consumed(own(k));
      assert AlikeAt(at, own, m, i, k);
      assert i + k + Consumed(at(i + k)) == i + next;
      Stretch(at, own, n, m, i, next);
      InFront(own(k), ItemsFrom(own, m, next), ItemsFrom(at, n, i + m));
    }
  }

  // What is found at a place depends on what is left there.
  lemma ShiftedItem(find: Finder, up: char -> string, y: string, i: nat)
    requires Sound(find) && i < |y|
    ensures GuardAt(find, up, y)(i) == GuardItemAt(find, up, y[i..], 0)
  {
    assert y[i..][0..] == y[i..];
  }

  lemma Tails(y: string, i: nat, word: string, rest: string, j: nat)
    requires i <= |y| && y[i..] == word + rest && j < |word|
    ensures i + |word| <= |y| && y[i + j..] == word[j..] + rest
  {
    assert |y| - i == |word + rest|;
    assert y[i + j..] == y[i..][j..];
  }

  lemma InWord(find: Finder, table: seq<string>, up: char -> string, y: string, i: nat, word: string, rest: string,
               j: nat)
    requires LooksUp(find, table) && Sound(find) && Words(table)
    requires Uppercases(up) && Alnum(word) && StaysApart(up, rest)
    requires i <= |y| && y[i..] == word + rest && j < |word|
    ensures GuardAt(find, up, y)(i + j) == GuardAt(find, up, word)(j)
    ensures Consumed(GuardAt(find, up, word)(j)) <= |word| - j
  {
    Tails(y, i, word, rest, j);
    SameInWord(find, table, up, word[j..], rest);
    ShiftedItem(find, up, y, i + j);
    ShiftedItem(find, up, word, j);
  }

  lemma WordAlike(find: Finder, table: seq<string>, up: char -> string, y: string, i: nat, word: string, rest: string)
    requires LooksUp(find, table) && Sound(find) && Words(table)
    requires Uppercases(up) && Alnum(word) && StaysApart(up, rest)
    requires i <= |y| && y[i..] == word + rest
    ensures ScansAlike(GuardAt(find, up, y), GuardAt(find, up, word), |word|, i)
  {
    forall j: nat ensures AlikeAt(GuardAt(find, up, y), GuardAt(find, up, word), |word|, i, j) {
      if j < |word| {
        InWord(find, table, up, y, i, word, rest, j);
      }
    }
  }

  // The items of a scan that goes on from a place.
  function Onward(at: nat -> GuardItem, n: nat): nat -> seq<GuardItem>
    requires Advances(at)
  {
    (i: nat) => ItemsFrom(at, n, i)
  }

  lemma WholeStretch(at: nat -> GuardItem, own: nat -> GuardItem, n: nat, m: nat, i: nat)
    requires Advances(at) && Advances(own) && i + m <= n && ScansAlike(at, own, m, i)
    ensures Onward(at, n)(i) == Onward(own, m)(0) + Onward(at, n)(i + m)
  {
    Stretch(at, own, n, m, i, 0);
  }

  function GuardFrom(find: Finder, up: char -> string, y: string): nat -> seq<GuardItem>
    requires Sound(find)
  {
    Onward(GuardAt(find, up, y), |y|)
  }

  lemma AlikeItems(find: Finder, up: char -> string, y: string, i: nat, word: string)
    requires Sound(find) && i + |word| <= |y|
    requires ScansAlike(GuardAt(find, up, y), GuardAt(find, up, word), |word|, i)
    ensures GuardFrom(find, up, y)(i) == GuardFrom(find, up, word)(0) + GuardFrom(find, up, y)(i + |word|)
  {
    WholeStretch(GuardAt(find, up, y), GuardAt(find, up, word), |y|, |word|, i);
  }

  lemma WordScanned(find: Finder, table: seq<string>, up: char -> string, y: string, i: nat, word: string, rest: string)
    requires LooksUp(find, table) && Sound(find) && Words(table)
    requires Uppercases(up) && Alnum(word) && StaysApart(up, rest)
    requires i <= |y| && y[i..] == word + rest
    ensures GuardFrom(find, up, y)(i) == GuardFrom(find, up, word)(0) + GuardFrom(find, up, y)(i + |word|)
  {
    PastText(y, i, word, rest);
    WordAlike(find, table, up, y, i, word, rest);
    AlikeItems(find, up, y, i, word);
  }

  function SeparatorItem(c: char): GuardItem {
    if IsSpace(c) then White else Exact(c)
  }

  lemma SeparatorScanned(find: Finder, table: seq<string>, up: char -> string, y: string, i: nat, c: char, rest: string)
    requires LooksUp(find, table) && Sound(find) && Words(table)
    requires Separates(up, c) && i <= |y| && y[i..] == [c] + rest
    ensures GuardFrom(find, up, y)(i) == [SeparatorItem(c)] + GuardFrom(find, up, y)(i + 1)
  {
    var upper := Upper(up, y[i..]);
    PastText(y, i, [c], rest);
    assert upper[0] == c;
    FindNothing(table, upper);
    assert find(upper) == FindToken(table, upper);
    ParseGuardScan.SkipIsModifier(upper);
    assert GuardAt(find, up, y)(i) == SeparatorItem(c);
    ParseGuardScan.ItemsUnfold(GuardAt(find, up, y), |y|, i);
  }

  // What a word becomes is a word.
  ghost predicate MakesWords(specifiers: seq<string>, body: string -> string) {
    forall t :: t in specifiers ==> Alnum(body(t))
  }

  // A scan `walk` of `y` that takes a word as it takes the word alone.
  predicate TakesWord(walk: nat -> seq<GuardItem>, wordItems: string -> seq<GuardItem>, up: char -> string, y: string,
                      i: nat, word: string, rest: string)
  {
    i <= |y| && y[i..] == word + rest && Alnum(word) && (rest == "" || Separates(up, rest[0]))
    ==> walk(i) == wordItems(word) + walk(i + |word|)
  }

  predicate TakesSeparator(walk: nat -> seq<GuardItem>, up: char -> string, y: string, i: nat, c: char, rest: string) {
    i <= |y| && y[i..] == [c] + rest && Separates(up, c) ==> walk(i) == [SeparatorItem(c)] + walk(i + 1)
  }

  ghost predicate Takes(walk: nat -> seq<GuardItem>, wordItems: string -> seq<GuardItem>, up: char -> string, y: string)
  {
    && (forall i: nat, word, rest :: TakesWord(walk, wordItems, up, y, i, word, rest))
    && (forall i: nat, c, rest :: TakesSeparator(walk, up, y, i, c, rest))
    && walk(|y|) == []
  }

  function WordItems(find: Finder, up: char -> string): string -> seq<GuardItem>
    requires Sound(find)
  {
    (word: string) => GuardFrom(find, up, word)(0)
  }

  lemma GuardTakes(find: Finder, table: seq<string>, up: char -> string, y: string)
    requires LooksUp(find, table) && Sound(find) && Words(table) && Uppercases(up)
    ensures Takes(GuardFrom(find, up, y), WordItems(find, up), up, y)
  {
    forall i: nat, word, rest ensures TakesWord(GuardFrom(find, up, y), WordItems(find, up), up, y, i, word, rest) {
      if i <= |y| && y[i..] == word + rest && Alnum(word) && StaysApart(up, rest) {
        WordScanned(find, table, up, y, i, word, rest);
      }
    }
    forall i: nat, c, rest ensures TakesSeparator(GuardFrom(find, up, y), up, y, i, c, rest) {
      if i <= |y| && y[i..] == [c] + rest && Separates(up, c) {
        SeparatorScanned(find, table, up, y, i, c, rest);
      }
    }
  }

  // What the guard makes of a piece of a format.
  function PieceItems(wordItems: string -> seq<GuardItem>, body: string -> string): Piece -> seq<GuardItem> {
    (piece: Piece) =>
      match piece
      case Word(token) => wordItems(body(token))
      case Separator(c) => [SeparatorItem(c)]
  }

  function AllItems(itemsOf: Piece -> seq<GuardItem>, pieces: seq<Piece>): seq<GuardItem> {
    if pieces == [] then [] else itemsOf(pieces[0]) + AllItems(itemsOf, pieces[1..])
  }

  // The pieces whose text is what is left of `y` from `i` on.
  ghost predicate Remain(up: char -> string, specifiers: seq<string>, body: string -> string, y: string, i: nat,
                         pieces: seq<Piece>)
  {
    WellSpaced(up, specifiers, pieces) && i <= |y| && y[i..] == Text(pieces, body)
  }

  ghost function Remaining(up: char -> string, specifiers: seq<string>, body: string -> string, y: string)
    : (nat, seq<Piece>) -> bool
  {
    (i: nat, pieces: seq<Piece>) => Remain(up, specifiers, body, y, i, pieces)
  }

  function WidthIn(body: string -> string): Piece -> nat {
    (piece: Piece) => |PieceText(piece, body)|
  }

  lemma RestRemains(up: char -> string, specifiers: seq<string>, body: string -> string, y: string, i: nat,
                    pieces: seq<Piece>)
    requires Remain(up, specifiers, body, y, i, pieces) && pieces != []
    ensures Remain(up, specifiers, body, y, i + |PieceText(pieces[0], body)|, pieces[1..])
  {
    WellSpacedTail(up, specifiers, pieces);
    PastText(y, i, PieceText(pieces[0], body), Text(pieces[1..], body));
  }

  lemma WordScannedFirst(walk: nat -> seq<GuardItem>, wordItems: string -> seq<GuardItem>, up: char -> string,
                         specifiers: seq<string>, body: string -> string, y: string, i: nat, pieces: seq<Piece>)
    requires Takes(walk, wordItems, up, y) && MakesWords(specifiers, body)
    requires Remain(up, specifiers, body, y, i, pieces) && pieces != [] && pieces[0].Word?
    ensures walk(i) == wordItems(body(pieces[0].token)) + walk(i + |body(pieces[0].token)|)
  {
    WordEnds(up, specifiers, pieces, body);
    assert pieces[0].token in specifiers;
    assert TakesWord(walk, wordItems, up, y, i, body(pieces[0].token), Text(pieces[1..], body));
  }

  lemma SeparatorScannedFirst(walk: nat -> seq<GuardItem>, wordItems: string -> seq<GuardItem>, up: char -> string,
                              specifiers: seq<string>, body: string -> string, y: string, i: nat, pieces: seq<Piece>)
    requires Takes(walk, wordItems, up, y)
    requires Remain(up, specifiers, body, y, i, pieces) && pieces != [] && pieces[0].Separator?
    ensures walk(i) == [SeparatorItem(pieces[0].c)] + walk(i + 1)
  {
    assert TakesSeparator(walk, up, y, i, pieces[0].c, Text(pieces[1..], body));
  }

  // The scan takes the first of the pieces that remain at a place, and leaves the others.
  predicate TakesFirst(walk: nat -> seq<GuardItem>, itemsOf: Piece -> seq<GuardItem>, width: Piece -> nat,
                       remain: (nat, seq<Piece>) -> bool, i: nat, pieces: seq<Piece>)
  {
    remain(i, pieces) && pieces != [] ==>
      remain(i + width(pieces[0]), pieces[1..]) && walk(i) == itemsOf(pieces[0]) + walk(i + width(pieces[0]))
  }

  lemma PieceScanned(walk: nat -> seq<GuardItem>, wordItems: string -> seq<GuardItem>, up: char -> string,
                     specifiers: seq<string>, body: string -> string, y: string, i: nat, pieces: seq<Piece>)
    requires Takes(walk, wordItems, up, y) && MakesWords(specifiers, body)
    ensures TakesFirst(walk, PieceItems(wordItems, body), WidthIn(body), Remaining(up, specifiers, body, y), i, pieces)
  {
    if Remain(up, specifiers, body, y, i, pieces) && pieces != [] {
      RestRemains(up, specifiers, body, y, i, pieces);
      if pieces[0].Word? {
        WordScannedFirst(walk, wordItems, up, specifiers, body, y, i, pieces);
      } else {
        SeparatorScannedFirst(walk, wordItems, up, specifiers, body, y, i, pieces);
      }
    }
  }

  // Nothing remains at the end only.
  predicate EndsAt(remain: (nat, seq<Piece>) -> bool, n: nat, i: nat) {
    remain(i, []) ==> i == n
  }

  // A scan that takes the first of the pieces that remain, wherever they are, takes them all.
  lemma {:induction false} ItemsFound(walk: nat -> seq<GuardItem>, n: nat, itemsOf: Piece -> seq<GuardItem>,
                                      width: Piece -> nat, remain: (nat, seq<Piece>) -> bool, i: nat,
                                      pieces: seq<Piece>)
    requires walk(n) == [] && forall j: nat :: EndsAt(remain, n, j)
    requires forall j: nat, ps :: TakesFirst(walk, itemsOf, width, remain, j, ps)
    requires remain(i, pieces)
    ensures walk(i) == AllItems(itemsOf, pieces)
    decreases |pieces|
  {
    if pieces == [] {
      assert EndsAt(remain, n, i);
    } else {
      assert TakesFirst(walk, itemsOf, width, remain, i, pieces);
      ItemsFound(walk, n, itemsOf, width, remain, i + width(pieces[0]), pieces[1..]);
    }
  }

  lemma StartAndEnd(up: char -> string, specifiers: seq<string>, body: string -> string, pieces: seq<Piece>)
    requires WellSpaced(up, specifiers, pieces)
    ensures Remaining(up, specifiers, body, Text(pieces, body))(0, pieces)
    ensures forall j: nat :: EndsAt(Remaining(up, specifiers, body, Text(pieces, body)), |Text(pieces, body)|, j)
  {
    assert Text(pieces, body)[0..] == Text(pieces, body);
  }

  lemma PiecesScanned(walk: nat -> seq<GuardItem>, wordItems: string -> seq<GuardItem>, up: char -> string,
                      specifiers: seq<string>, body: string -> string, pieces: seq<Piece>)
    requires Takes(walk, wordItems, up, Text(pieces, body)) && MakesWords(specifiers, body)
    requires WellSpaced(up, specifiers, pieces)
    ensures walk(0) == AllItems(PieceItems(wordItems, body), pieces)
  {
    var y := Text(pieces, body);
    var itemsOf, width, remain := PieceItems(wordItems, body), WidthIn(body), Remaining(up, specifiers, body, y);
    forall j: nat, ps ensures TakesFirst(walk, itemsOf, width, remain, j, ps) {
      PieceScanned(walk, wordItems, up, specifiers, body, y, j, ps);
    }
    StartAndEnd(up, specifiers, body, pieces);
    ItemsFound(walk, |y|, itemsOf, width, remain, 0, pieces);
  }

  lemma LongTemplateIsWord(k: nat)
    requires k < 7
    ensures Alnum(DatetimeFormat.ToPostgres(DatetimeFormat.LONG_SPECIFIERS[k]))
  {
  }

  lemma NextLongTemplateIsWord(k: nat)
    requires 7 <= k < |DatetimeFormat.LONG_SPECIFIERS|
    ensures Alnum(DatetimeFormat.ToPostgres(DatetimeFormat.LONG_SPECIFIERS[k]))
  {
  }

  lemma PairTemplateIsWord(k: nat)
    requires k < 6
    ensures Alnum(DatetimeFormat.ToPostgres(DatetimeFormat.PAIR_SPECIFIERS[k]))
  {
  }

  lemma NextPairTemplateIsWord(k: nat)
    requires 6 <= k < |DatetimeFormat.PAIR_SPECIFIERS|
    ensures Alnum(DatetimeFormat.ToPostgres(DatetimeFormat.PAIR_SPECIFIERS[k]))
  {
  }

  lemma LetterTemplateIsWord(k: nat)
    requires k < 5
    ensures Alnum(DatetimeFormat.ToPostgres(DatetimeFormat.LETTER_SPECIFIERS[k]))
  {
  }

  lemma NextLetterTemplateIsWord(k: nat)
    requires 5 <= k < |DatetimeFormat.LETTER_SPECIFIERS|
    ensures Alnum(DatetimeFormat.ToPostgres(DatetimeFormat.LETTER_SPECIFIERS[k]))
  {
  }

  lemma TemplateIsWord(token: string)
    requires token in DatetimeFormat.SPECIFIERS
    ensures Alnum(DatetimeFormat.ToPostgres(token))
  {
    if k :| 0 <= k < |DatetimeFormat.LONG_SPECIFIERS| && DatetimeFormat.LONG_SPECIFIERS[k] == token {
      if k < 7 { LongTemplateIsWord(k); } else { NextLongTemplateIsWord(k); }
    } else if k :| 0 <= k < |DatetimeFormat.PAIR_SPECIFIERS| && DatetimeFormat.PAIR_SPECIFIERS[k] == token {
      if k < 6 { PairTemplateIsWord(k); } else { NextPairTemplateIsWord(k); }
    } else {
      var k :| 0 <= k < |DatetimeFormat.LETTER_SPECIFIERS| && DatetimeFormat.LETTER_SPECIFIERS[k] == token;
      if k < 5 { LetterTemplateIsWord(k); } else { NextLetterTemplateIsWord(k); }
    }
  }

  lemma TemplatesAreWords()
    ensures MakesWords(DatetimeFormat.SPECIFIERS, DatetimeFormat.ToPostgres)
  {
    forall t | t in DatetimeFormat.SPECIFIERS ensures Alnum(DatetimeFormat.ToPostgres(t)) {
      TemplateIsWord(t);
    }
  }

  lemma GuardTokensAreWords()
    ensures Words(GUARD_TOKENS)
  {
  }

  /** The guard of such a format looks for what it would look for in each specifier's template alone, and for the
    * separators, in order. */
  lemma GuardOfPieces(up: char -> string, pieces: seq<Piece>)
    requires Uppercases(up) && WellSpaced(up, DatetimeFormat.SPECIFIERS, pieces)
    ensures Sound(FindGuardToken)
    ensures GuardPattern(up, Some(FormatOf(pieces)))
            == Some(Pattern(AllItems(PieceItems(WordItems(FindGuardToken, up), DatetimeFormat.ToPostgres), pieces)))
  {
    var y := Text(pieces, DatetimeFormat.ToPostgres);
    FindGuardTokenIsSound();
    GuardTokensAreWords();
    TemplatesAreWords();
    PiecesNormalise(up, pieces);
    GuardTakes(FindGuardToken, GUARD_TOKENS, up, y);
    PiecesScanned(GuardFrom(FindGuardToken, up, y), WordItems(FindGuardToken, up), up, DatetimeFormat.SPECIFIERS,
                  DatetimeFormat.ToPostgres, pieces);
  }
}
