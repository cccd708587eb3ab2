/** What the scan of `buildDatetimeParseGuardRegex` finds in a format, by an account independent of its loop. */
module ParseGuardScan {
  import opened Wrappers
  import opened FormatScan
  import opened SqlText
  import opened ParseGuard

  // The modifiers that no text stands for.
  predicate StartsModifier(upper: string) {
    "FM" <= upper || "TM" <= upper || "TH" <= upper
  }

  ghost predicate NoneStarts(table: seq<string>, upper: string) {
    forall t :: t in table ==> !(t <= upper)
  }

  // A field is the longest token at its place, upper or lower case; a modifier stands only where no token does, white
  // space and a character of its own only where neither does.
  ghost predicate GuardFits(table: seq<string>, up: char -> string, literal: string, i: nat, item: GuardItem)
    requires i < |literal|
  {
    var upper := Upper(up, literal[i..]);
    match item
    case Field(token) => IsLongest(table, upper, token)
    case Dropped => NoneStarts(table, upper) && StartsModifier(upper)
    case White => NoneStarts(table, upper) && !StartsModifier(upper) && IsSpace(literal[i])
    case Exact(c) => NoneStarts(table, upper) && !StartsModifier(upper) && !IsSpace(literal[i]) && c == literal[i]
  }

  ghost function GuardFitting(table: seq<string>, up: char -> string, literal: string): (nat, GuardItem) -> bool {
    (i: nat, item: GuardItem) => i < |literal| && GuardFits(table, up, literal, i, item)
  }

  // Items that follow one another to the end of a text of length `n`, each fitting its place. The last may reach beyond
  // it, where a character has a longer upper case.
  ghost predicate FollowOn(fits: (nat, GuardItem) -> bool, n: nat, i: nat, items: seq<GuardItem>)
    decreases |items|
  {
    if items == [] then i >= n
    else i < n && fits(i, items[0]) && FollowOn(fits, n, i + Consumed(items[0]), items[1..])
  }

  lemma ItemsUnfold(at: nat -> GuardItem, n: nat, i: nat)
    requires Advances(at) && i < n
    ensures ItemsFrom(at, n, i) == [at(i)] + ItemsFrom(at, n, i + Consumed(at(i)))
  {
  }

  lemma SameItems(items: seq<GuardItem>, item: GuardItem, rest: seq<GuardItem>)
    requires items != []
    ensures items == [item] + rest <==> items[0] == item && items[1..] == rest
  {
    assert items == [items[0]] + items[1..];
    assert ([item] + rest)[1..] == rest;
  }

  lemma {:induction false} OnlyOneFollowsOn(at: nat -> GuardItem, fits: (nat, GuardItem) -> bool, n: nat, i: nat,
                                            items: seq<GuardItem>)
    requires Advances(at) && forall j: nat, item :: j < n ==> (fits(j, item) <==> item == at(j))
    ensures items == ItemsFrom(at, n, i) <==> FollowOn(fits, n, i, items)
    decreases n - i
  {
    if i < n {
      ItemsUnfold(at, n, i);
    }
    if i < n && items != [] {
      SameItems(items, at(i), ItemsFrom(at, n, i + Consumed(at(i))));
      OnlyOneFollowsOn(at, fits, n, i + Consumed(at(i)), items[1..]);
    }
  }

  lemma SkipIsModifier(upper: string)
    ensures (if |upper| >= 2 then upper[..2] else upper) in SKIPPED_TOKENS <==> StartsModifier(upper)
  {
    if |upper| >= 2 {
      assert upper[..2] == "FM" <==> "FM" <= upper;
      assert upper[..2] == "TM" <==> "TM" <= upper;
      assert upper[..2] == "TH" <==> "TH" <= upper;
    }
    assert forall s :: s in SKIPPED_TOKENS <==> s == "FM" || s == "TM" || s == "TH";
  }

  lemma OnlyGuardItemFits(find: Finder, table: seq<string>, up: char -> string, literal: string, i: nat,
                          item: GuardItem)
    requires LooksUp(find, table) && Sound(find) && i < |literal|
    ensures GuardFitting(table, up, literal)(i, item) <==> item == GuardAt(find, up, literal)(i)
  {
    var upper := Upper(up, literal[i..]);
    LongestFound(table, upper);
    SkipIsModifier(upper);
    assert find(upper) == FindToken(table, upper);
    if item.Field? && IsLongest(table, upper, item.token) {
      assert FindToken(table, upper) == Some(item.token);
    }
  }

  /** The guard's scan is the one and only sequence of items that these rules allow. */
  lemma GuardScanIsTheSegmentation(up: char -> string, literal: string, items: seq<GuardItem>)
    ensures items == ScannedItems(up, literal)
            <==> FollowOn(GuardFitting(GUARD_TOKENS, up, literal), |literal|, 0, items)
  {
    FindGuardTokenIsSound();
    GuardSegments(FindGuardToken, GUARD_TOKENS, up, literal, items);
  }

  lemma GuardSegments(find: Finder, table: seq<string>, up: char -> string, literal: string, items: seq<GuardItem>)
    requires LooksUp(find, table) && Sound(find)
    ensures items == GuardItems(find, up, literal)
            <==> FollowOn(GuardFitting(table, up, literal), |literal|, 0, items)
  {
    var at, fits := GuardAt(find, up, literal), GuardFitting(table, up, literal);
    forall j: nat, item | j < |literal| ensures fits(j, item) <==> item == at(j) {
      OnlyGuardItemFits(find, table, up, literal, j, item);
    }
    OnlyOneFollowsOn(at, fits, |literal|, 0, items);
  }
}
