/** The formatter's output as text: read back as SQL it is the concatenation that was meant. */
module DatetimeFormatText {
  import opened Wrappers
  import opened FormatScan
  import opened SqlText
  import opened SqlConcat
  import opened DatetimeFormat

  /* Every operand stands by itself. */

  lemma ToCharStays(depth: nat, datetimeSql: string, template: string)
    requires Balanced(datetimeSql) && '\'' !in template
    ensures Walk(Code(depth), "TO_CHAR(" + datetimeSql + ", '" + template + "')") == Code(depth)
  {
    var inside := depth + 1;
    BalancedStays(inside, datetimeSql);
    DullStays(inside, ", ");
    UnquotedStays(inside, template);
    ConstantStays(inside, template);
    BothStay(inside, datetimeSql, ", ");
    BothStay(inside, datetimeSql + ", ", "'" + template + "'");
    CallStays(depth, "TO_CHAR", datetimeSql + ", " + ("'" + template + "'"));
    ToCharText(datetimeSql, template);
  }

  lemma ToCharText(datetimeSql: string, template: string)
    ensures "TO_CHAR" + "(" + (datetimeSql + ", " + ("'" + template + "'")) + ")"
            == "TO_CHAR(" + datetimeSql + ", '" + template + "')"
  {
  }

  lemma TemplatesUnquoted(token: string)
    ensures BuilderTemplate(token).Some? ==> '\'' !in BuilderTemplate(token).value
  {
  }

  lemma WeekdayStays(datetimeSql: string)
    requires Balanced(datetimeSql)
    ensures Closed("LEFT(TO_CHAR(" + datetimeSql + ", 'FMDy'), 2)")
  {
    var toChar := "TO_CHAR(" + datetimeSql + ", '" + "FMDy" + "')";
    ToCharStays(1, datetimeSql, "FMDy");
    DullStays(1, ", 2");
    BothStay(1, toChar, ", 2");
    CallStays(0, "LEFT", toChar + ", 2");
    WeekdayText(datetimeSql);
  }

  lemma WeekdayText(datetimeSql: string)
    ensures "LEFT" + "(" + (("TO_CHAR(" + datetimeSql + ", '" + "FMDy" + "')") + ", 2") + ")"
            == "LEFT(TO_CHAR(" + datetimeSql + ", 'FMDy'), 2)"
  {
    assert "LEFT" + "(" + "TO_CHAR(" == "LEFT(TO_CHAR(";
    assert ", '" + "FMDy" + "')" + ", 2" + ")" == ", 'FMDy'), 2)";
  }

  lemma MeridiemStays(datetimeSql: string)
    requires Balanced(datetimeSql)
    ensures Closed("LOWER(TO_CHAR(" + datetimeSql + ", 'AM'))")
  {
    var toChar := "TO_CHAR(" + datetimeSql + ", '" + "AM" + "')";
    ToCharStays(1, datetimeSql, "AM");
    CallStays(0, "LOWER", toChar);
    assert "LOWER" + "(" + toChar + ")" == "LOWER(TO_CHAR(" + datetimeSql + ", 'AM'))";
  }

  lemma DayNumberStays(datetimeSql: string)
    requires Balanced(datetimeSql)
    ensures Closed("EXTRACT(DOW FROM " + datetimeSql + ")::int::text")
  {
    DullStays(1, "DOW FROM ");
    BothStay(1, "DOW FROM ", datetimeSql);
    CallStays(0, "EXTRACT", "DOW FROM " + datetimeSql);
    DullStays(0, "::int::text");
    BothStay(0, "EXTRACT" + "(" + ("DOW FROM " + datetimeSql) + ")", "::int::text");
    DayNumberText(datetimeSql);
  }

  lemma DayNumberText(datetimeSql: string)
    ensures "EXTRACT" + "(" + ("DOW FROM " + datetimeSql) + ")" + "::int::text"
            == "EXTRACT(DOW FROM " + datetimeSql + ")::int::text"
  {
    assert "EXTRACT" + "(" + "DOW FROM " == "EXTRACT(DOW FROM ";
    assert ")" + "::int::text" == ")::int::text";
  }

  lemma OffsetStays(timezoneOffsetSql: string)
    requires Closed(timezoneOffsetSql)
    ensures Closed("REPLACE(" + timezoneOffsetSql + ", ':', '')")
  {
    ClosedIsBalanced(timezoneOffsetSql);
    NoColonStays();
    BothStay(1, timezoneOffsetSql, ", ':', ''");
    CallStays(0, "REPLACE", timezoneOffsetSql + ", ':', ''");
    assert "REPLACE" + "(" + (timezoneOffsetSql + ", ':', ''") + ")" == "REPLACE(" + timezoneOffsetSql + ", ':', '')";
  }

  lemma NoColonStays()
    ensures Walk(Code(1), ", ':', ''") == Code(1)
  {
    QuoteStays(1, ":");
    QuoteStays(1, "");
    assert Quote(":") == "':'" && Quote("") == "''";
    DullStays(1, ", ");
    BothStay(1, ", ", "':'");
    BothStay(1, ", " + "':'", ", ");
    BothStay(1, ", " + "':'" + ", ", "''");
    assert ", " + "':'" + ", " + "''" == ", ':', ''";
  }

  lemma BuilderIsClosed(token: string, datetimeSql: string, timezoneOffsetSql: string)
    requires Balanced(datetimeSql) && Closed(timezoneOffsetSql)
    ensures Closed(BuilderSql(token, datetimeSql, timezoneOffsetSql))
  {
    OffsetStays(timezoneOffsetSql);
    WeekdayStays(datetimeSql);
    DayNumberStays(datetimeSql);
    MeridiemStays(datetimeSql);
    TemplatesUnquoted(token);
    var template := if BuilderTemplate(token).Some? then BuilderTemplate(token).value else "";
    ToCharStays(0, datetimeSql, template);
  }

  /* Reading the joined text back. */

  predicate AllClosed(parts: seq<Part>) {
    forall k :: 0 <= k < |parts| ==> Closed(parts[k].sql)
  }

  function Texts(parts: seq<Part>): seq<string> {
    if parts == [] then [] else [parts[0].sql] + Texts(parts[1..])
  }

  lemma {:induction false} JoinReadsBack(parts: seq<Part>)
    requires parts != [] && AllClosed(parts)
    ensures ReadConcat(JoinNonEmpty(parts)) == Some(Texts(parts))
  {
    if |parts| == 1 {
      ReadLast(parts[0].sql);
      assert parts[1..] == [] && Texts(parts) == [parts[0].sql];
    } else {
      JoinReadsBack(parts[1..]);
      ReadFirst(parts[0].sql, JoinNonEmpty(parts[1..]));
    }
  }

  // Every operand was made for a token by `sqlOf`, or is a quoted stretch of literal text.
  predicate MadeBy(part: Part, sqlOf: string -> string) {
    match part
    case Builder(token, sql) => sql == sqlOf(token)
    case Constant(sql) => Closed(sql) && ReadConstant(sql).Some? && ReadConstant(sql).value.1 == ""
  }

  lemma FlushIsMade(buffer: string, sqlOf: string -> string)
    ensures forall k :: 0 <= k < |Flush(buffer)| ==> MadeBy(Flush(buffer)[k], sqlOf)
  {
    QuoteReadsBack(buffer, "");
    assert Quote(buffer) + "" == Quote(buffer);
    QuoteStays(0, buffer);
  }

  lemma {:induction false} PartsAreMade(items: seq<Item>, buffer: string, sqlOf: string -> string)
    ensures forall k :: 0 <= k < |Parts(items, buffer, sqlOf)| ==> MadeBy(Parts(items, buffer, sqlOf)[k], sqlOf)
    decreases |items|
  {
    FlushIsMade(buffer, sqlOf);
    if items != [] {
      match items[0] {
        case Plain(c) => PartsAreMade(items[1..], buffer + [c], sqlOf);
        case Token(_) => PartsAreMade(items[1..], "", sqlOf);
      }
    }
  }

  /* Evaluating text: a string constant is its value, and `eval` says what any other expression is. */

  function EvalOperand(sql: string, eval: string -> string): string {
    match ReadConstant(sql)
    case None => eval(sql)
    case Some((value, rest)) => if rest == "" then value else eval(sql)
  }

  function EvalAll(operands: seq<string>, eval: string -> string): string {
    if operands == [] then "" else EvalOperand(operands[0], eval) + EvalAll(operands[1..], eval)
  }

  // None is a text that is not a concatenation.
  function EvalText(text: string, eval: string -> string): Option<string> {
    match ReadConcat(text)
    case None => None
    case Some(operands) => Some(EvalAll(operands, eval))
  }

  // What a token renders as, through the text made for it.
  function Rendering(datetimeSql: string, timezoneOffsetSql: string, eval: string -> string): string -> string {
    (token: string) => EvalOperand(BuilderSql(token, datetimeSql, timezoneOffsetSql), eval)
  }

  lemma {:induction false} TextsEvaluate(parts: seq<Part>, sqlOf: string -> string, eval: string -> string,
                                         render: string -> string)
    requires forall k :: 0 <= k < |parts| ==> MadeBy(parts[k], sqlOf)
    requires forall token :: render(token) == EvalOperand(sqlOf(token), eval)
    ensures EvalAll(Texts(parts), eval) == Concatenated(parts, render)
  {
    if parts != [] {
      assert MadeBy(parts[0], sqlOf);
      TextsEvaluate(parts[1..], sqlOf, eval, render);
    }
  }

  lemma JoinEvaluates(parts: seq<Part>, eval: string -> string)
    requires AllClosed(parts)
    ensures EvalText(Join(parts), eval) == Some(EvalAll(Texts(parts), eval))
  {
    if parts == [] {
      EmptyConstant(eval);
    } else {
      JoinReadsBack(parts);
    }
  }

  lemma EmptyConstant(eval: string -> string)
    ensures EvalText("''", eval) == Some("")
  {
    assert Quote("") == "''" && Quote("") + "" == Quote("");
    QuoteReadsBack("", "");
    QuoteStays(0, "");
    ReadLast("''");
    assert ["''"][1..] == [];
    assert EvalAll(["''"], eval) == "" + EvalAll([], eval);
  }

  // The format that a literal format expression denotes.
  function Effective(literal: string): string {
    if literal == "" then DEFAULT_FORMAT_LITERAL else literal
  }

  /** The text built for a literal format, read back as SQL and evaluated, is the concatenation of what each token's own
    * SQL evaluates to and of each literal character of the expanded format, in order: for every datetime expression
    * that is balanced and every offset expression that stands by itself, no operand runs into its neighbours. */
  lemma TextPreservesMeaning(datetimeSql: string, formatExpr: Option<string>, timezoneOffsetSql: string,
                             eval: string -> string)
    requires Balanced(datetimeSql) && Closed(timezoneOffsetSql)
    requires ResolveFormatLiteral(formatExpr).Some?
    ensures EvalText(FormatSql(datetimeSql, formatExpr, timezoneOffsetSql), eval)
            == Some(Emit(Items(Effective(ResolveFormatLiteral(formatExpr).value)),
                         Rendering(datetimeSql, timezoneOffsetSql, eval)))
  {
    var items := Items(Effective(ResolveFormatLiteral(formatExpr).value));
    ItemsMean(items, datetimeSql, timezoneOffsetSql, eval);
  }

  lemma ItemsMean(items: seq<Item>, datetimeSql: string, timezoneOffsetSql: string, eval: string -> string)
    requires Balanced(datetimeSql) && Closed(timezoneOffsetSql)
    ensures EvalText(Join(Parts(items, "", Builders(datetimeSql, timezoneOffsetSql))), eval)
            == Some(Emit(items, Rendering(datetimeSql, timezoneOffsetSql, eval)))
  {
    var sqlOf, render := Builders(datetimeSql, timezoneOffsetSql), Rendering(datetimeSql, timezoneOffsetSql, eval);
    var parts := Parts(items, "", sqlOf);
    PartsAreMade(items, "", sqlOf);
    forall k | 0 <= k < |parts| ensures Closed(parts[k].sql) {
      assert MadeBy(parts[k], sqlOf);
      if parts[k].Builder? {
        BuilderIsClosed(parts[k].token, datetimeSql, timezoneOffsetSql);
      }
    }
    JoinEvaluates(parts, eval);
    TextsEvaluate(parts, sqlOf, eval, render);
    PartsMean(items, "", sqlOf, render);
    StartsEmpty(Emit(items, render));
  }
}
