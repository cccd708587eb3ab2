/** The scanner behind both the localized macro expander and the specifier tokenizer of `datetime-format-pg.ts`:
  * longest match against a table, with single letters matched only when no letter stands beside them.
  */
module FormatScan {
  import opened Wrappers

  predicate IsAlpha(c: char) {
    'A' <= c <= 'Z' || 'a' <= c <= 'z'
  }

  // `shouldMatchSingleCharToken`.
  predicate Standalone(literal: string, i: nat)
    requires i < |literal|
  {
    && !(i > 0 && IsAlpha(literal[i - 1]))
    && !(i + 1 < |literal| && IsAlpha(literal[i + 1]))
  }

  // A table as `sort((a, b) => b.length - a.length)` leaves it: no empty entry, longest first.
  ghost predicate LongestFirst(table: seq<string>) {
    && (forall k :: 0 <= k < |table| ==> table[k] != "")
    && (forall j, k :: 0 <= j < k < |table| ==> |table[j]| >= |table[k]|)
  }

  lemma LongestFirstConcat(a: seq<string>, b: seq<string>, length: nat)
    requires LongestFirst(a) && LongestFirst(b)
    requires forall k :: 0 <= k < |a| ==> |a[k]| >= length
    requires forall k :: 0 <= k < |b| ==> |b[k]| <= length
    ensures LongestFirst(a + b)
  {
  }

  // `find((candidate) => remaining.startsWith(candidate))`.
  function FindToken(table: seq<string>, rest: string): (t: Option<string>)
    ensures t.Some? ==> t.value in table && t.value <= rest
    ensures t.None? ==> forall u :: u in table ==> !(u <= rest)
    decreases |table|, |rest|
  {
    if table == [] then None
    else if table[0] <= rest then Some(table[0])
    else
      assert table == [table[0]] + table[1..];
      FindToken(table[1..], rest)
  }

  /** What `find` picks is the unique longest entry that starts the text. */
  lemma {:induction false} LongestMatch(table: seq<string>, rest: string, u: string)
    requires LongestFirst(table) && u in table && u <= rest
    ensures FindToken(table, rest).Some?
    ensures var t := FindToken(table, rest).value; |u| <= |t| && (|u| == |t| ==> u == t)
  {
    if !(table[0] <= rest) {
      var shorter := table[1..];
      assert forall j, k :: 0 <= j < k < |shorter| ==> |shorter[j]| >= |shorter[k]| by {
        forall j, k | 0 <= j < k < |shorter| ensures |shorter[j]| >= |shorter[k]| {
          assert shorter[j] == table[j + 1] && shorter[k] == table[k + 1];
        }
      }
      LongestMatch(shorter, rest, u);
    }
  }

  // How a scanner looks for a token at the start of the remaining text.
  type Finder = string -> Option<string>

  // It finds texts that are there and not empty.
  ghost predicate Sound(find: Finder) {
    forall rest :: find(rest).Some? ==> find(rest).value != "" && find(rest).value <= rest
  }

  ghost predicate LooksUp(find: Finder, table: seq<string>) {
    LongestFirst(table) && forall rest :: find(rest) == FindToken(table, rest)
  }

  lemma LookupIsSound(find: Finder, table: seq<string>)
    requires LooksUp(find, table)
    ensures Sound(find)
  {
  }

  datatype Item = Token(text: string) | Plain(c: char)

  // What the scanner does at position `i`.
  function ItemAt(find: Finder, literal: string, i: nat): (item: Item)
    requires i < |literal|
  {
    match find(literal[i..])
    case None => Plain(literal[i])
    case Some(t) => if |t| == 1 && !Standalone(literal, i) then Plain(literal[i]) else Token(t)
  }

  // One turn of the scanning loop.
  method NextItem(find: Finder, literal: string, i: nat) returns (item: Item)
    requires Sound(find) && i < |literal|
    ensures item == ItemAt(find, literal, i)
  {
    var token := find(literal[i..]);
    if token.Some? && (|token.value| > 1 || Standalone(literal, i)) {
      return Token(token.value);
    }
    item := Plain(literal[i]);
  }

  function Width(item: Item): nat {
    match item
    case Token(t) => |t|
    case Plain(_) => 1
  }

  function Scan(find: Finder, literal: string, i: nat): seq<Item>
    requires Sound(find)
    decreases |literal| - i
  {
    if i >= |literal| then []
    else
      var item := ItemAt(find, literal, i);
      [item] + Scan(find, literal, i + Width(item))
  }

  // The text of a scan, with each token replaced.
  function Emit(items: seq<Item>, body: string -> string): string {
    if items == [] then "" else ItemText(items[0], body) + Emit(items[1..], body)
  }

  function ItemText(item: Item, body: string -> string): string {
    match item
    case Token(t) => body(t)
    case Plain(c) => [c]
  }

  function Spell(items: seq<Item>): string {
    Emit(items, (t: string) => t)
  }

  lemma SpellCons(item: Item, rest: seq<Item>)
    ensures Spell([item] + rest) == Spelling(item) + Spell(rest)
  {
    assert ([item] + rest)[1..] == rest;
  }

  function Spelling(item: Item): string {
    match item
    case Token(t) => t
    case Plain(c) => [c]
  }

  lemma ItemWidth(find: Finder, literal: string, i: nat)
    requires Sound(find) && i < |literal|
    ensures 0 < Width(ItemAt(find, literal, i)) <= |literal| - i
  {
  }

  lemma ItemSpells(find: Finder, literal: string, i: nat)
    requires Sound(find) && i < |literal|
    ensures Width(ItemAt(find, literal, i)) <= |literal| - i
    ensures Spelling(ItemAt(find, literal, i)) == literal[i..i + Width(ItemAt(find, literal, i))]
  {
  }

  lemma Rejoin(literal: string, i: nat, next: nat)
    requires i <= next <= |literal|
    ensures literal[i..next] + literal[next..] == literal[i..]
  {
  }

  /** The scan loses no character and invents none. */
  lemma {:induction false} ScanSpells(find: Finder, literal: string, i: nat)
    requires Sound(find) && i <= |literal|
    ensures Spell(Scan(find, literal, i)) == literal[i..]
    decreases |literal| - i
  {
    if i < |literal| {
      var item := ItemAt(find, literal, i);
      var next := i + Width(item);
      ItemSpells(find, literal, i);
      ScanSpells(find, literal, next);
      SpellCons(item, Scan(find, literal, next));
      Rejoin(literal, i, next);
    }
  }

  // The longest entry of the table that starts `rest` is `t`.
  ghost predicate IsLongest(table: seq<string>, rest: string, t: string) {
    t in table && t <= rest && forall u :: u in table && u <= rest ==> |u| <= |t|
  }

  // A token is the longest entry at its place, a single letter only when it stands alone; a plain character stands
  // where no such token can.
  ghost predicate Fits(table: seq<string>, literal: string, i: nat, item: Item)
    requires i < |literal|
  {
    match item
    case Token(text) => IsLongest(table, literal[i..], text) && (|text| == 1 ==> NoLetterBeside(literal, i))
    case Plain(c) => c == literal[i] && NoToken(table, literal, i)
  }

  ghost predicate NoToken(table: seq<string>, literal: string, i: nat)
    requires i < |literal|
  {
    forall t :: IsLongest(table, literal[i..], t) ==> |t| == 1 && !NoLetterBeside(literal, i)
  }

  ghost predicate NoLetterBeside(literal: string, i: nat) {
    forall k :: 0 <= k < |literal| && (k == i - 1 || k == i + 1) ==>
      !('A' <= literal[k] <= 'Z') && !('a' <= literal[k] <= 'z')
  }

  ghost function Fitting(table: seq<string>, literal: string): (nat, Item) -> bool {
    (i: nat, item: Item) => i < |literal| && Fits(table, literal, i, item)
  }

  // Items that follow one another up to `n`, each fitting its place.
  ghost predicate Follow(fits: (nat, Item) -> bool, n: nat, i: nat, items: seq<Item>)
    decreases |items|
  {
    if items == [] then i == n
    else i < n && fits(i, items[0]) && Follow(fits, n, i + Width(items[0]), items[1..])
  }

  // An independent account of a segmentation.
  ghost predicate Segments(table: seq<string>, literal: string, i: nat, items: seq<Item>) {
    Follow(Fitting(table, literal), |literal|, i, items)
  }

  lemma LongestFound(table: seq<string>, rest: string)
    requires LongestFirst(table)
    ensures match FindToken(table, rest)
            case Some(t) => IsLongest(table, rest, t)
            case None => true
    ensures forall t :: IsLongest(table, rest, t) ==> FindToken(table, rest) == Some(t)
  {
    forall u | u in table && u <= rest
      ensures FindToken(table, rest).Some?
      ensures |u| <= |FindToken(table, rest).value|
      ensures |u| == |FindToken(table, rest).value| ==> u == FindToken(table, rest).value
    {
      LongestMatch(table, rest, u);
    }
  }

  lemma OnlyItemAtFits(find: Finder, table: seq<string>, literal: string, i: nat, item: Item)
    requires LooksUp(find, table) && i < |literal|
    ensures item == ItemAt(find, literal, i) <==> Fits(table, literal, i, item)
  {
    LongestFound(table, literal[i..]);
  }

  lemma HeadAndTail(items: seq<Item>, item: Item, rest: seq<Item>)
    requires items != []
    ensures items == [item] + rest <==> items[0] == item && items[1..] == rest
  {
    assert items == [items[0]] + items[1..];
    assert ([item] + rest)[1..] == rest;
  }

  // Whatever takes the only fitting item at each place is the only segmentation.
  lemma {:induction false} OnlyOneFollows(at: nat -> Item, walk: nat -> seq<Item>, fits: (nat, Item) -> bool,
                                          n: nat, i: nat, items: seq<Item>)
    requires i <= n && walk(n) == []
    requires forall j: nat :: j < n ==> 0 < Width(at(j)) <= n - j && walk(j) == [at(j)] + walk(j + Width(at(j)))
    requires forall j: nat, item :: j < n ==> (fits(j, item) <==> item == at(j))
    ensures items == walk(i) <==> Follow(fits, n, i, items)
    decreases n - i
  {
    if i < n {
      assert walk(i) == [at(i)] + walk(i + Width(at(i)));
    }
    if i < n && items != [] {
      HeadAndTail(items, at(i), walk(i + Width(at(i))));
      OnlyOneFollows(at, walk, fits, n, i + Width(at(i)), items[1..]);
    }
  }

  lemma ScanUnfolds(find: Finder, literal: string, i: nat, item: Item)
    requires Sound(find) && i < |literal| && item == ItemAt(find, literal, i)
    ensures 0 < Width(item) <= |literal| - i
    ensures Scan(find, literal, i) == [item] + Scan(find, literal, i + Width(item))
  {
    ItemWidth(find, literal, i);
  }

  function At(find: Finder, literal: string): nat -> Item {
    (i: nat) => if i < |literal| then ItemAt(find, literal, i) else Plain(' ')
  }

  function ScanFrom(find: Finder, literal: string): nat -> seq<Item>
    requires Sound(find)
  {
    (i: nat) => Scan(find, literal, i)
  }

  lemma ScanWalks(find: Finder, literal: string, i: nat)
    requires Sound(find) && i < |literal|
    ensures var item := At(find, literal)(i);
            && 0 < Width(item) <= |literal| - i
            && ScanFrom(find, literal)(i) == [item] + ScanFrom(find, literal)(i + Width(item))
  {
    ScanUnfolds(find, literal, i, ItemAt(find, literal, i));
  }

  lemma OnlyAtFits(find: Finder, table: seq<string>, literal: string, i: nat, item: Item)
    requires LooksUp(find, table) && i < |literal|
    ensures Fitting(table, literal)(i, item) <==> item == At(find, literal)(i)
  {
    OnlyItemAtFits(find, table, literal, i, item);
  }

  /** The scanner's output is exactly the segmentation the rules describe, and there is only one. */
  lemma ScanIsTheSegmentation(find: Finder, table: seq<string>, literal: string, i: nat, items: seq<Item>)
    requires Sound(find) && LooksUp(find, table) && i <= |literal|
    ensures items == Scan(find, literal, i) <==> Segments(table, literal, i, items)
  {
    var at, walk, fits := At(find, literal), ScanFrom(find, literal), Fitting(table, literal);
    forall j: nat | j < |literal|
      ensures 0 < Width(at(j)) <= |literal| - j && walk(j) == [at(j)] + walk(j + Width(at(j)))
    {
      ScanWalks(find, literal, j);
    }
    forall j: nat, item | j < |literal| ensures fits(j, item) <==> item == at(j) {
      OnlyAtFits(find, table, literal, j, item);
    }
    OnlyOneFollows(at, walk, fits, |literal|, i, items);
  }
}
