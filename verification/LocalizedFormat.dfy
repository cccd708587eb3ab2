/** `expandLocalizedDatetimeFormat`: the L and l macros, replaced by the formats they stand for. */
module LocalizedFormat {
  import opened Wrappers
  import opened FormatScan

  // The keys of LOCALIZED_DATETIME_FORMAT_MAP, longest first.
  const MACROS: seq<string> := ["LLLL", "llll", "LTS", "LLL", "lll", "LT", "LL", "ll", "L", "l"]

  function MacroBody(macro: string): string {
    if macro == "LT" then "h:mm A"
    else if macro == "LTS" then "h:mm:ss A"
    else if macro == "L" then "MM/DD/YYYY"
    else if macro == "LL" then "MMMM D, YYYY"
    else if macro == "LLL" then "MMMM D, YYYY h:mm A"
    else if macro == "LLLL" then "dddd, MMMM D, YYYY h:mm A"
    else if macro == "l" then "M/D/YYYY"
    else if macro == "ll" then "MMM D, YYYY"
    else if macro == "lll" then "MMM D, YYYY h:mm A"
    else "ddd, MMM D, YYYY h:mm A"
  }

  lemma MacrosLongestFirst()
    ensures LongestFirst(MACROS)
  {
  }

  function FindMacro(rest: string): Option<string> {
    FindToken(MACROS, rest)
  }

  lemma FindMacroIsSound()
    ensures LooksUp(FindMacro, MACROS) && Sound(FindMacro)
  {
    MacrosLongestFirst();
    LookupIsSound(FindMacro, MACROS);
  }

  function Expand(literal: string): string {
    FindMacroIsSound();
    ExpandFrom(FindMacro, MacroBody, literal, 0)
  }

  // The expansion of the text from `i` on, for any macros.
  function ExpandFrom(find: Finder, body: string -> string, literal: string, i: nat): string
    requires Sound(find)
  {
    Emit(Scan(find, literal, i), body)
  }

  lemma ExpandStep(find: Finder, body: string -> string, literal: string, i: nat)
    requires Sound(find) && i < |literal|
    ensures var item := ItemAt(find, literal, i);
            ExpandFrom(find, body, literal, i)
            == ItemText(item, body) + ExpandFrom(find, body, literal, i + Width(item))
  {
    var item := ItemAt(find, literal, i);
    ScanUnfolds(find, literal, i, item);
    assert ([item] + Scan(find, literal, i + Width(item)))[1..] == Scan(find, literal, i + Width(item));
  }

  method ExpandLocalizedDatetimeFormat(literal: string) returns (result: string)
    ensures result == Expand(literal)
  {
    FindMacroIsSound();
    result := ExpandWith(FindMacro, MacroBody, literal);
  }

  // The loop of `expandLocalizedDatetimeFormat`.
  method ExpandWith(find: Finder, body: string -> string, literal: string) returns (result: string)
    requires Sound(find)
    ensures result == ExpandFrom(find, body, literal, 0)
  {
    result := "";
    var i := 0;
    ghost var whole := ExpandFrom(find, body, literal, 0);
    while i < |literal|
      invariant i <= |literal|
      invariant whole == result + ExpandFrom(find, body, literal, i)
    {
      var item := NextItem(find, literal, i);
      ItemWidth(find, literal, i);
      Progress(find, body, literal, i, result, whole);
      match item {
        case Token(t) => result := result + body(t);
        case Plain(c) => result := result + [c];
      }
      i := i + Width(item);
    }
  }

  lemma Progress(find: Finder, body: string -> string, literal: string, i: nat, done: string, whole: string)
    requires Sound(find) && i < |literal| && whole == done + ExpandFrom(find, body, literal, i)
    ensures var item := ItemAt(find, literal, i);
            whole == (done + ItemText(item, body)) + ExpandFrom(find, body, literal, i + Width(item))
  {
    ExpandStep(find, body, literal, i);
  }

  /* Expansion is idempotent: why it is so for any macros of this shape, and that ours have it. */

  predicate MacroLetter(c: char) {
    c == 'L' || c == 'l'
  }

  predicate MacroShape(macro: string) {
    && macro != "" && MacroLetter(macro[0])
    && (|macro| > 1 ==> if macro[0] == 'L' then macro[1] == 'L' || macro[1] == 'T' else macro[1] == 'l')
  }

  // A body begins with h, M or d, ends with a letter, and holds no macro letter.
  predicate BodyShape(body: string) {
    && body != "" && (body[0] == 'h' || body[0] == 'M' || body[0] == 'd') && IsAlpha(body[|body| - 1])
    && 'L' !in body && 'l' !in body
  }

  // What a finder must make of `rest`: a macro starts at every macro letter, and a lone letter is found only where no
  // longer macro starts.
  predicate FindsMacro(found: Option<string>, body: string -> string, rest: string) {
    && (rest != "" ==> (found.Some? <==> MacroLetter(rest[0])))
    && (found.Some? ==> MacroShape(found.value) && BodyShape(body(found.value)))
    && (found.Some? && |found.value| == 1 && |rest| > 1 ==> !LongerStart(rest[0], rest[1]))
  }

  ghost predicate MacroFinder(find: Finder, body: string -> string) {
    Sound(find) && forall rest :: FindsMacro(find(rest), body, rest)
  }

  lemma MacrosAreSound()
    ensures MacroFinder(FindMacro, MacroBody)
  {
    FindMacroIsSound();
    forall rest ensures FindsMacro(FindMacro(rest), MacroBody, rest) {
      MacroFound(rest);
    }
  }

  lemma MacrosHaveShape(macro: string)
    requires macro in MACROS
    ensures MacroShape(macro)
  {
  }

  lemma MacroIn(macro: string)
    requires macro == "L" || macro == "l" || macro == "LT" || macro == "LL" || macro == "ll"
    ensures macro in MACROS
  {
    assert MACROS[8] == "L" && MACROS[9] == "l" && MACROS[5] == "LT" && MACROS[6] == "LL" && MACROS[7] == "ll";
  }

  lemma MacroFound(rest: string)
    ensures FindsMacro(FindMacro(rest), MacroBody, rest)
  {
    var found := FindMacro(rest);
    MacrosLongestFirst();
    if found.Some? {
      MacrosHaveShape(found.value);
      BodiesAreSound(found.value);
    }
    if rest != "" && MacroLetter(rest[0]) {
      MacroIn([rest[0]]);
      assert [rest[0]] <= rest;
    }
    if |rest| > 1 && LongerStart(rest[0], rest[1]) {
      MacroIn([rest[0], rest[1]]);
      assert [rest[0], rest[1]] <= rest;
      LongestMatch(MACROS, rest, [rest[0], rest[1]]);
    }
  }

  lemma BodiesAreSound(macro: string)
    ensures BodyShape(MacroBody(macro))
  {
    BodyEnds(macro);
    BodyHoldsNoCapital(macro);
    BodyHoldsNoSmall(macro);
  }

  lemma BodyEnds(macro: string)
    ensures var body := MacroBody(macro);
            body != "" && (body[0] == 'h' || body[0] == 'M' || body[0] == 'd') && IsAlpha(body[|body| - 1])
  {
  }

  lemma BodyHoldsNoCapital(macro: string)
    ensures 'L' !in MacroBody(macro)
  {
  }

  lemma BodyHoldsNoSmall(macro: string)
    ensures 'l' !in MacroBody(macro)
  {
  }

  // No macro is live at `j`: an L or l starts no longer macro and has a letter beside it.
  predicate Dead(y: string, j: nat)
    requires j < |y|
  {
    && (MacroLetter(y[j]) ==> !Standalone(y, j))
    && (j + 1 < |y| ==> !LongerStart(y[j], y[j + 1]))
  }

  predicate LongerStart(c: char, next: char) {
    (c == 'L' && (next == 'L' || next == 'T')) || (c == 'l' && next == 'l')
  }

  // A dead letter is not the start of a longer macro either.
  lemma DeadIsPlain(find: Finder, body: string -> string, y: string, j: nat)
    requires MacroFinder(find, body) && j < |y| && Dead(y, j)
    ensures ItemAt(find, y, j) == Plain(y[j])
  {
    assert FindsMacro(find(y[j..]), body, y[j..]);
  }

  lemma DeadStep(find: Finder, body: string -> string, y: string, i: nat)
    requires MacroFinder(find, body) && i < |y| && Dead(y, i)
    ensures ExpandFrom(find, body, y, i) == [y[i]] + ExpandFrom(find, body, y, i + 1)
  {
    ExpandStep(find, body, y, i);
    DeadIsPlain(find, body, y, i);
  }

  lemma {:induction false} DeadIsUnchanged(find: Finder, body: string -> string, y: string, i: nat)
    requires MacroFinder(find, body) && i <= |y| && forall j :: i <= j < |y| ==> Dead(y, j)
    ensures ExpandFrom(find, body, y, i) == y[i..]
    decreases |y| - i
  {
    if i < |y| {
      DeadStep(find, body, y, i);
      DeadIsUnchanged(find, body, y, i + 1);
    }
  }

  // The first character of an expansion is the one it was expanded from, or starts a macro body.
  lemma ExpandHead(find: Finder, body: string -> string, x: string, i: nat)
    requires MacroFinder(find, body) && i < |x|
    ensures var tail := ExpandFrom(find, body, x, i);
            && tail != ""
            && (tail[0] == x[i] || (MacroLetter(x[i]) && (tail[0] == 'h' || tail[0] == 'M' || tail[0] == 'd')))
  {
    ExpandStep(find, body, x, i);
    assert FindsMacro(find(x[i..]), body, x[i..]);
    var item := ItemAt(find, x, i);
    assert item.Token? ==> BodyShape(body(item.text));
  }

  // A letter before `i` is still a letter in what came of it.
  predicate Continues(x: string, i: nat, before: string)
    requires i <= |x|
  {
    i > 0 && IsAlpha(x[i - 1]) ==> before != "" && IsAlpha(before[|before| - 1])
  }

  // A macro letter left in place is dead in the result: what was beside it is a letter still.
  lemma LeftIsDead(find: Finder, body: string -> string, x: string, i: nat, before: string, y: string)
    requires MacroFinder(find, body) && i < |x| && ItemAt(find, x, i) == Plain(x[i]) && Continues(x, i, before)
    requires y == before + [x[i]] + ExpandFrom(find, body, x, i + 1)
    ensures Dead(y, |before|)
  {
    var tail := ExpandFrom(find, body, x, i + 1);
    assert FindsMacro(find(x[i..]), body, x[i..]);
    if i + 1 < |x| {
      ExpandHead(find, body, x, i + 1);
      assert y[|before| + 1] == tail[0] && x[i..][1] == x[i + 1];
    }
    if before != "" {
      assert y[|before| - 1] == before[|before| - 1];
    }
  }

  predicate DeadBetween(y: string, i: nat, j: nat) {
    j <= |y| && forall k :: i <= k < j ==> Dead(y, k)
  }

  lemma BodyIsDead(before: string, text: string, after: string, y: string)
    requires BodyShape(text) && y == before + text + after
    ensures DeadBetween(y, |before|, |before| + |text|)
  {
    forall j | |before| <= j < |before| + |text| ensures Dead(y, j) {
      assert y[j] == text[j - |before|] && text[j - |before|] in text;
    }
  }

  // What one item becomes is dead in the text `y` it is a part of.
  lemma ItemIsDead(find: Finder, body: string -> string, x: string, i: nat, before: string, y: string)
    requires MacroFinder(find, body) && i < |x| && Continues(x, i, before)
    requires var item := ItemAt(find, x, i);
             y == before + ItemText(item, body) + ExpandFrom(find, body, x, i + Width(item))
    ensures DeadBetween(y, |before|, |before| + |ItemText(ItemAt(find, x, i), body)|)
  {
    var item := ItemAt(find, x, i);
    ItemKinds(find, body, x, i);
    if item.Plain? {
      LeftIsDead(find, body, x, i, before, y);
    } else {
      BodyIsDead(before, body(item.text), ExpandFrom(find, body, x, i + Width(item)), y);
    }
  }

  lemma ItemKinds(find: Finder, body: string -> string, x: string, i: nat)
    requires MacroFinder(find, body) && i < |x|
    ensures ItemAt(find, x, i).Plain? ==> ItemAt(find, x, i) == Plain(x[i])
    ensures ItemAt(find, x, i).Token? ==> BodyShape(body(ItemAt(find, x, i).text))
  {
    assert FindsMacro(find(x[i..]), body, x[i..]);
  }

  // It ends with a letter if the item does.
  lemma ItemEnds(find: Finder, body: string -> string, x: string, i: nat)
    requires MacroFinder(find, body) && i < |x|
    ensures i + Width(ItemAt(find, x, i)) <= |x|
    ensures var item := ItemAt(find, x, i);
            var text := ItemText(item, body);
            text != "" && (IsAlpha(x[i + Width(item) - 1]) ==> IsAlpha(text[|text| - 1]))
  {
    var item := ItemAt(find, x, i);
    assert item.Token? ==> BodyShape(body(item.text));
  }

  lemma ItemContinues(find: Finder, body: string -> string, x: string, i: nat, before: string)
    requires MacroFinder(find, body) && i < |x|
    ensures i + Width(ItemAt(find, x, i)) <= |x|
    ensures Continues(x, i + Width(ItemAt(find, x, i)), before + ItemText(ItemAt(find, x, i), body))
  {
    var text := ItemText(ItemAt(find, x, i), body);
    ItemEnds(find, body, x, i);
    assert (before + text)[|before + text| - 1] == text[|text| - 1];
  }

  lemma ExpansionSplits(find: Finder, body: string -> string, x: string, i: nat, before: string)
    requires Sound(find) && i < |x|
    ensures var item := ItemAt(find, x, i);
            before + ExpandFrom(find, body, x, i)
            == before + ItemText(item, body) + ExpandFrom(find, body, x, i + Width(item))
  {
    var item := ItemAt(find, x, i);
    ExpandStep(find, body, x, i);
    Assoc(before, ItemText(item, body), ExpandFrom(find, body, x, i + Width(item)));
  }

  lemma Assoc(a: string, b: string, c: string)
    ensures a + (b + c) == a + b + c
  {
  }

  lemma DeadTogether(y: string, i: nat, j: nat, k: nat)
    requires DeadBetween(y, i, j) && DeadBetween(y, j, k)
    ensures DeadBetween(y, i, k)
  {
  }

  // Whatever precedes it, an expansion holds no live macro: `y` is what came before and the expansion from `i` on.
  lemma {:induction false} ExpansionIsDead(find: Finder, body: string -> string, x: string, i: nat, before: string,
                                           y: string)
    requires MacroFinder(find, body) && i <= |x| && Continues(x, i, before)
    requires y == before + ExpandFrom(find, body, x, i)
    ensures DeadBetween(y, |before|, |y|)
    decreases |x| - i
  {
    if i < |x| {
      var item := ItemAt(find, x, i);
      var more := before + ItemText(item, body);
      ItemWidth(find, x, i);
      ItemContinues(find, body, x, i, before);
      ExpansionSplits(find, body, x, i, before);
      ItemIsDead(find, body, x, i, before, y);
      ExpansionIsDead(find, body, x, i + Width(item), more, y);
      DeadTogether(y, |before|, |more|, |y|);
    }
  }

  /** Expanding an expanded format changes nothing. */
  lemma ExpandIdempotent(literal: string)
    ensures Expand(Expand(literal)) == Expand(literal)
  {
    MacrosAreSound();
    IdempotentFor(FindMacro, MacroBody, literal);
  }

  lemma IdempotentFor(find: Finder, body: string -> string, literal: string)
    requires MacroFinder(find, body)
    ensures var y := ExpandFrom(find, body, literal, 0); ExpandFrom(find, body, y, 0) == y
  {
    var y := ExpandFrom(find, body, literal, 0);
    assert "" + y == y;
    ExpansionIsDead(find, body, literal, 0, "", y);
    DeadIsUnchanged(find, body, y, 0);
  }

  /** A format without L and l is its own expansion. */
  lemma NoMacroNoChange(literal: string)
    requires 'L' !in literal && 'l' !in literal
    ensures Expand(literal) == literal
  {
    MacrosAreSound();
    forall j | 0 <= j < |literal| ensures Dead(literal, j) {
      assert literal[j] in literal;
    }
    DeadIsUnchanged(FindMacro, MacroBody, literal, 0);
  }
}
