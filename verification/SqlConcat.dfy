/** Reading a `||` concatenation back from its text: operands are separated by the bars that stand outside parentheses
  * and string constants.
  */
module SqlConcat {
  import opened Wrappers
  import opened SqlText

  // Where a reader is: in code, that many parentheses deep, or in a string constant there; Broken is past a closing
  // parenthesis too many, or past a bar between operands.
  datatype Place = Code(depth: nat) | InConstant(depth: nat) | Broken

  function Move(place: Place, c: char): Place {
    match place
    case Broken => Broken
    case InConstant(depth) => if c == '\'' then Code(depth) else place
    case Code(depth) =>
      if c == '\'' then InConstant(depth)
      else if c == '(' then Code(depth + 1)
      else if c == ')' then (if depth == 0 then Broken else Code(depth - 1))
      else if c == '|' && depth == 0 then Broken
      else place
  }

  function Walk(place: Place, text: string): Place
    decreases |text|
  {
    if text == "" then place else Walk(Move(place, text[0]), text[1..])
  }

  // The text stands by itself as one operand.
  predicate Closed(text: string) {
    Walk(Code(0), text) == Code(0)
  }

  // The text may stand inside parentheses: its own, its quotes and the surrounding ones stay in balance.
  predicate Balanced(text: string) {
    Walk(Code(1), text) == Code(1)
  }

  // How far it is to the first bar between operands.
  function ToBar(place: Place, text: string): (n: nat)
    ensures n <= |text|
    decreases |text|
  {
    if text == "" || (place == Code(0) && text[0] == '|') then 0 else 1 + ToBar(Move(place, text[0]), text[1..])
  }

  function ReadConcat(text: string): Option<seq<string>>
    decreases |text|
  {
    var bar := ToBar(Code(0), text);
    if bar == |text| then Some([text])
    else if bar == 0 || text[bar - 1] != ' ' || |text| < bar + 3 || text[bar..bar + 3] != "|| " then None
    else match ReadConcat(text[bar + 3..])
      case None => None
      case Some(operands) => Some([text[..bar - 1]] + operands)
  }

  lemma {:induction false} WalkConcat(place: Place, a: string, b: string)
    ensures Walk(place, a + b) == Walk(Walk(place, a), b)
    decreases |a|
  {
    if a == "" {
      assert a + b == b;
    } else {
      assert (a + b)[1..] == a[1..] + b;
      WalkConcat(Move(place, a[0]), a[1..], b);
    }
  }

  lemma {:induction false} BrokenStays(text: string)
    ensures Walk(Broken, text) == Broken
  {
    if text != "" {
      BrokenStays(text[1..]);
    }
  }

  lemma {:induction false} ToBarPast(place: Place, a: string, b: string)
    requires Walk(place, a) != Broken
    ensures ToBar(place, a + b) == |a| + ToBar(Walk(place, a), b)
    decreases |a|
  {
    if a == "" {
      assert a + b == b;
    } else {
      assert (a + b)[1..] == a[1..] + b;
      BrokenStays(a[1..]);
      ToBarPast(Move(place, a[0]), a[1..], b);
    }
  }

  lemma ReadLast(operand: string)
    requires Closed(operand)
    ensures ReadConcat(operand) == Some([operand])
  {
    ToBarPast(Code(0), operand, "");
    assert operand + "" == operand;
  }

  lemma ReadFirst(operand: string, rest: string)
    requires Closed(operand) && ReadConcat(rest).Some?
    ensures ReadConcat(operand + " || " + rest) == Some([operand] + ReadConcat(rest).value)
  {
    var text, tail := operand + " || " + rest, " || " + rest;
    assert text == operand + tail;
    ToBarPast(Code(0), operand, tail);
    BarFollows(rest);
    var bar := |operand| + 1;
    assert text[bar - 1] == ' ' && text[bar..bar + 3] == "|| " && text[bar + 3..] == rest && text[..bar - 1] == operand;
  }

  lemma BarFollows(rest: string)
    ensures ToBar(Code(0), " || " + rest) == 1
  {
    var tail := " || " + rest;
    assert tail[1..][0] == '|';
    assert ToBar(Code(0), tail[1..]) == 0;
  }

  /* What keeps its place. */

  // No quote, parenthesis or bar.
  predicate Dull(text: string) {
    forall k :: 0 <= k < |text| ==> text[k] != '\'' && text[k] != '(' && text[k] != ')' && text[k] != '|'
  }

  lemma {:induction false} DullStays(depth: nat, text: string)
    requires Dull(text)
    ensures Walk(Code(depth), text) == Code(depth)
  {
    if text != "" {
      DullStays(depth, text[1..]);
    }
  }

  lemma {:induction false} UnquotedStays(depth: nat, text: string)
    requires '\'' !in text
    ensures Walk(InConstant(depth), text) == InConstant(depth)
  {
    if text != "" {
      UnquotedStays(depth, text[1..]);
    }
  }

  lemma WalkOne(place: Place, c: char)
    ensures Walk(place, [c]) == Move(place, c)
  {
    assert [c][1..] == "";
  }

  lemma PairStays(depth: nat)
    ensures Walk(InConstant(depth), "''") == InConstant(depth)
  {
    WalkOne(InConstant(depth), '\'');
    WalkOne(Code(depth), '\'');
    WalkConcat(InConstant(depth), "'", "'");
    assert "'" + "'" == "''";
  }

  lemma {:induction false} DoubledStays(depth: nat, text: string)
    ensures Walk(InConstant(depth), Doubled(text)) == InConstant(depth)
  {
    if text != "" {
      DoubledStays(depth, text[1..]);
      if text[0] == '\'' {
        WalkConcat(InConstant(depth), "''", Doubled(text[1..]));
        PairStays(depth);
      } else {
        WalkConcat(InConstant(depth), [text[0]], Doubled(text[1..]));
        WalkOne(InConstant(depth), text[0]);
      }
    }
  }

  lemma ConstantStays(depth: nat, inner: string)
    requires Walk(InConstant(depth), inner) == InConstant(depth)
    ensures Walk(Code(depth), "'" + inner + "'") == Code(depth)
  {
    WalkOne(Code(depth), '\'');
    WalkOne(InConstant(depth), '\'');
    WalkConcat(Code(depth), "'", inner);
    WalkConcat(Code(depth), "'" + inner, "'");
  }

  lemma QuoteStays(depth: nat, literal: string)
    ensures Walk(Code(depth), Quote(literal)) == Code(depth)
  {
    DoubledStays(depth, literal);
    ConstantStays(depth, Doubled(literal));
  }

  // What keeps its place keeps it under more parentheses too.
  function Deeper(place: Place): Place {
    match place
    case Code(depth) => Code(depth + 1)
    case InConstant(depth) => InConstant(depth + 1)
    case Broken => Broken
  }

  lemma {:induction false} WalkDeeper(place: Place, text: string)
    requires Walk(place, text) != Broken
    ensures Walk(Deeper(place), text) == Deeper(Walk(place, text))
    decreases |text|
  {
    if text != "" {
      BrokenStays(text[1..]);
      WalkDeeper(Move(place, text[0]), text[1..]);
    }
  }

  lemma {:induction false} BalancedStays(depth: nat, text: string)
    requires Balanced(text) && depth > 0
    ensures Walk(Code(depth), text) == Code(depth)
  {
    if depth > 1 {
      BalancedStays(depth - 1, text);
      WalkDeeper(Code(depth - 1), text);
    }
  }

  lemma ClosedIsBalanced(text: string)
    requires Closed(text)
    ensures Balanced(text)
  {
    WalkDeeper(Code(0), text);
  }

  // A call of a function keeps its place if its arguments do.
  lemma CallStays(depth: nat, name: string, arguments: string)
    requires Dull(name) && Walk(Code(depth + 1), arguments) == Code(depth + 1)
    ensures Walk(Code(depth), name + "(" + arguments + ")") == Code(depth)
  {
    DullStays(depth, name);
    WalkOne(Code(depth), '(');
    WalkOne(Code(depth + 1), ')');
    WalkConcat(Code(depth), name, "(");
    WalkConcat(Code(depth), name + "(", arguments);
    WalkConcat(Code(depth), name + "(" + arguments, ")");
  }

  lemma BothStay(depth: nat, a: string, b: string)
    requires Walk(Code(depth), a) == Code(depth) && Walk(Code(depth), b) == Code(depth)
    ensures Walk(Code(depth), a + b) == Code(depth)
  {
    WalkConcat(Code(depth), a, b);
  }
}
