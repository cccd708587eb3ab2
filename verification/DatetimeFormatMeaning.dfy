/** What the formatter's output says, by the format given: missing, a constant or an expression; and what the SQL of the
  * tokens that call functions evaluates to.
  */
module DatetimeFormatMeaning {
  import opened Wrappers
  import opened FormatScan
  import opened SqlText
  import opened SqlConcat
  import opened DatetimeFormat
  import opened DatetimeFormatText
  import LocalizedFormat
  import ParseGuardFormats

  /** No format, or a blank one, is the default format. */
  lemma MissingFormatMeans(datetimeSql: string, formatExpr: Option<string>, tz: string, eval: string -> string)
    requires Balanced(datetimeSql) && Closed(tz)
    requires formatExpr.None? || Trim(formatExpr.value) == ""
    ensures EvalText(FormatSql(datetimeSql, formatExpr, tz), eval)
            == Some(Emit(Items("YYYY-MM-DD"), Rendering(datetimeSql, tz, eval)))
  {
    TextPreservesMeaning(datetimeSql, formatExpr, tz, eval);
  }

  /** A format that PostgreSQL reads as one constant is the text it denotes, or the default for an empty one. */
  lemma ConstantFormatMeans(datetimeSql: string, formatExpr: string, tz: string, eval: string -> string, format: string)
    requires Balanced(datetimeSql) && Closed(tz)
    requires ReadConstant(Trim(formatExpr)) == Some((format, ""))
    ensures EvalText(FormatSql(datetimeSql, Some(formatExpr), tz), eval)
            == Some(Emit(Items(if format == "" then "YYYY-MM-DD" else format), Rendering(datetimeSql, tz, eval)))
  {
    ConstantResolves(formatExpr, format);
    TextPreservesMeaning(datetimeSql, Some(formatExpr), tz, eval);
  }

  lemma ConstantResolves(formatExpr: string, format: string)
    requires ReadConstant(Trim(formatExpr)) == Some((format, ""))
    ensures ResolveFormatLiteral(Some(formatExpr)) == Some(format)
  {
    ParseAgreesWithPostgres(Trim(formatExpr));
  }

  /** A format that neither is blank nor begins and ends with a quote is left to PostgreSQL, as it stands: the text is
    * one operand, a call of TO_CHAR. */
  lemma ExpressionFormatMeans(datetimeSql: string, formatExpr: string, tz: string, eval: string -> string)
    requires Balanced(datetimeSql) && Balanced(formatExpr)
    requires Trim(formatExpr) != "" && !Quoted(Trim(formatExpr))
    ensures var call := "TO_CHAR(" + datetimeSql + ", " + formatExpr + ")";
            && FormatSql(datetimeSql, Some(formatExpr), tz) == call
            && ReadConcat(call) == Some([call])
            && EvalText(call, eval) == Some(eval(call))
  {
    ExpressionResolves(datetimeSql, formatExpr, tz);
    CallIsOne(datetimeSql, formatExpr);
    OneOperand("TO_CHAR(" + datetimeSql + ", " + formatExpr + ")", eval);
  }

  lemma ExpressionResolves(datetimeSql: string, formatExpr: string, tz: string)
    requires Trim(formatExpr) != "" && !Quoted(Trim(formatExpr))
    ensures FormatSql(datetimeSql, Some(formatExpr), tz) == "TO_CHAR(" + datetimeSql + ", " + formatExpr + ")"
  {
    TrimmedTwice(formatExpr);
  }

  lemma OneOperand(text: string, eval: string -> string)
    requires Closed(text) && text != "" && text[0] != '\''
    ensures ReadConcat(text) == Some([text]) && EvalText(text, eval) == Some(eval(text))
  {
    ReadLast(text);
    assert [text][1..] == [];
    assert EvalAll([text], eval) == EvalOperand(text, eval) + EvalAll([], eval);
    assert EvalOperand(text, eval) + "" == eval(text);
  }

  lemma CallIsOne(a: string, b: string)
    requires Balanced(a) && Balanced(b)
    ensures Closed("TO_CHAR(" + a + ", " + b + ")")
  {
    DullStays(1, ", ");
    BothStay(1, a, ", ");
    BothStay(1, a + ", ", b);
    CallStays(0, "TO_CHAR", a + ", " + b);
    assert "TO_CHAR" + "(" + (a + ", " + b) + ")" == "TO_CHAR(" + a + ", " + b + ")";
  }

  lemma {:induction false} TrimEndStops(s: string)
    ensures TrimEnd(TrimEnd(s)) == TrimEnd(s)
    ensures TrimEnd(s) <= s
    ensures s != "" && !IsSpace(s[0]) ==> TrimEnd(s) != ""
  {
    if s != "" && IsSpace(s[|s| - 1]) {
      TrimEndStops(s[..|s| - 1]);
    }
  }

  lemma {:induction false} TrimmedTwice(s: string)
    ensures Trim(Trim(s)) == Trim(s)
  {
    if s != "" {
      if IsSpace(s[0]) {
        TrimmedTwice(s[1..]);
      } else {
        TrimEndStops(s);
      }
    }
  }

  /* Tokens that call functions. */

  // `s` without the character `c`.
  function Without(s: string, c: char): string {
    if s == "" then "" else (if s[0] == c then "" else [s[0]]) + Without(s[1..], c)
  }

  function FirstOf(s: string, n: nat): string {
    if |s| <= n then s else s[..n]
  }

  // An evaluator that knows three functions of PostgreSQL; `lower` is the server's lower case.
  ghost predicate KnowsFunctions(eval: string -> string, lower: string -> string) {
    && (forall x :: Closed(x) ==> eval(ReplaceCall(x)) == Without(EvalOperand(x, eval), ':'))
    && (forall x :: Closed(x) ==> eval(LeftCall(x)) == FirstOf(EvalOperand(x, eval), 2))
    && (forall x :: Closed(x) ==> eval(LowerCall(x)) == lower(EvalOperand(x, eval)))
  }

  // REPLACE(x, ':', ''), LEFT(x, 2) and LOWER(x), as they are written.
  function ReplaceCall(x: string): string { "REPLACE(" + x + ", ':', '')" }

  function LeftCall(x: string): string { "LEFT(" + x + ", 2)" }

  function LowerCall(x: string): string { "LOWER(" + x + ")" }

  lemma WeekdayCall(datetimeSql: string, tz: string)
    ensures BuilderSql("dd", datetimeSql, tz) == LeftCall("TO_CHAR(" + datetimeSql + ", '" + "FMDy" + "')")
  {
    WeekdayText(datetimeSql);
    assert "LEFT" + "(" + (("TO_CHAR(" + datetimeSql + ", '" + "FMDy" + "')") + ", 2") + ")"
        == LeftCall("TO_CHAR(" + datetimeSql + ", '" + "FMDy" + "')");
  }

  lemma MeridiemCall(datetimeSql: string, tz: string)
    ensures BuilderSql("a", datetimeSql, tz) == LowerCall("TO_CHAR(" + datetimeSql + ", '" + "AM" + "')")
  {
    Nested("LOWER(", "TO_CHAR(", datetimeSql, ", 'AM')", ")");
  }

  lemma ToCharOf(datetimeSql: string, tz: string)
    ensures BuilderSql("ddd", datetimeSql, tz) == "TO_CHAR(" + datetimeSql + ", '" + "FMDy" + "')"
    ensures BuilderSql("A", datetimeSql, tz) == "TO_CHAR(" + datetimeSql + ", '" + "AM" + "')"
  {
  }

  lemma Nested(a: string, b: string, c: string, d: string, e: string)
    ensures a + (b + c + d) + e == (a + b) + c + (d + e)
  {
  }

  lemma ToCharCloses(datetimeSql: string, template: string)
    requires Balanced(datetimeSql) && '\'' !in template
    ensures Closed("TO_CHAR(" + datetimeSql + ", '" + template + "')")
  {
    ToCharStays(0, datetimeSql, template);
  }

  // What does not begin with a quote is no constant.
  lemma CallIsEvaluated(sql: string, eval: string -> string)
    requires sql != "" && sql[0] != '\''
    ensures EvalOperand(sql, eval) == eval(sql)
  {
  }

  lemma ReplaceMeans(eval: string -> string, lower: string -> string, x: string)
    requires KnowsFunctions(eval, lower) && Closed(x)
    ensures EvalOperand(ReplaceCall(x), eval) == Without(EvalOperand(x, eval), ':')
  {
    CallIsEvaluated(ReplaceCall(x), eval);
  }

  lemma LeftMeans(eval: string -> string, lower: string -> string, x: string)
    requires KnowsFunctions(eval, lower) && Closed(x)
    ensures EvalOperand(LeftCall(x), eval) == FirstOf(EvalOperand(x, eval), 2)
  {
    CallIsEvaluated(LeftCall(x), eval);
  }

  lemma LowerMeans(eval: string -> string, lower: string -> string, x: string)
    requires KnowsFunctions(eval, lower) && Closed(x)
    ensures EvalOperand(LowerCall(x), eval) == lower(EvalOperand(x, eval))
  {
    CallIsEvaluated(LowerCall(x), eval);
  }

  lemma OffsetCall(datetimeSql: string, tz: string)
    ensures BuilderSql("Z", datetimeSql, tz) == tz && BuilderSql("ZZ", datetimeSql, tz) == ReplaceCall(tz)
  {
  }

  /** ZZ is the offset without colons. */
  lemma OffsetMeans(datetimeSql: string, tz: string, eval: string -> string, lower: string -> string)
    requires Closed(tz) && KnowsFunctions(eval, lower)
    ensures var render := Rendering(datetimeSql, tz, eval);
            render("Z") == EvalOperand(tz, eval) && render("ZZ") == Without(render("Z"), ':')
  {
    OffsetCall(datetimeSql, tz);
    ReplaceMeans(eval, lower, tz);
  }

  /** The weekday dd is the first two characters of ddd. */
  lemma WeekdayMeans(datetimeSql: string, tz: string, eval: string -> string, lower: string -> string)
    requires Balanced(datetimeSql) && KnowsFunctions(eval, lower)
    ensures var render := Rendering(datetimeSql, tz, eval); render("dd") == FirstOf(render("ddd"), 2)
  {
    ToCharOf(datetimeSql, tz);
    WeekdayCall(datetimeSql, tz);
    ToCharCloses(datetimeSql, "FMDy");
    LeftMeans(eval, lower, "TO_CHAR(" + datetimeSql + ", '" + "FMDy" + "')");
  }

  /** The meridiem a is A in lower case. */
  lemma MeridiemMeans(datetimeSql: string, tz: string, eval: string -> string, lower: string -> string)
    requires Balanced(datetimeSql) && KnowsFunctions(eval, lower)
    ensures var render := Rendering(datetimeSql, tz, eval); render("a") == lower(render("A"))
  {
    ToCharOf(datetimeSql, tz);
    MeridiemCall(datetimeSql, tz);
    ToCharCloses(datetimeSql, "AM");
    LowerMeans(eval, lower, "TO_CHAR(" + datetimeSql + ", '" + "AM" + "')");
  }

  /* The localized formats. */

  function Body(macro: string): string { LocalizedFormat.MacroBody(macro) }

  lemma ShortMacros()
    ensures Body("LT") == "h:mm" + " A" && Body("LTS") == "h:mm" + ":ss" + " A"
  {
  }

  lemma NumberMacros()
    ensures Body("l") == "M/" + "D/" + "YYYY" && Body("L") == "MM/" + "DD/" + "YYYY"
  {
  }

  lemma DateMacros()
    ensures Body("ll") == "MMM" + " D, YYYY" && Body("LL") == "MMMM" + " D, YYYY"
  {
  }

  lemma LongMacro()
    ensures Body("LLL") == Body("LL") + " " + Body("LT")
  {
  }

  lemma SmallLongMacro()
    ensures Body("lll") == Body("ll") + " " + Body("LT")
  {
  }

  lemma LongestMacro()
    ensures Body("LLLL") == "dddd, " + Body("LLL")
  {
  }

  lemma SmallLongestMacro()
    ensures Body("llll") == "ddd, " + Body("lll")
  {
  }

  /** The localized formats are of one family: the longer ones add the time and then the weekday, the small ones shorten
    * the names and drop the padding. */
  lemma MacroFamilies()
    ensures Body("LT") == "h:mm" + " A" && Body("LTS") == "h:mm" + ":ss" + " A"
    ensures Body("l") == "M/" + "D/" + "YYYY" && Body("L") == "MM/" + "DD/" + "YYYY"
    ensures Body("ll") == "MMM" + " D, YYYY" && Body("LL") == "MMMM" + " D, YYYY"
    ensures Body("LLL") == Body("LL") + " " + Body("LT") && Body("lll") == Body("ll") + " " + Body("LT")
    ensures Body("LLLL") == "dddd, " + Body("LLL") && Body("llll") == "ddd, " + Body("lll")
  {
    ShortMacros();
    NumberMacros();
    DateMacros();
    LongMacro();
    SmallLongMacro();
    LongestMacro();
    SmallLongestMacro();
  }

  lemma MacrosAreWords()
    ensures ParseGuardFormats.Words(LocalizedFormat.MACROS)
  {
  }

  /** Macros set apart by separators expand one by one. */
  lemma PiecesExpand(up: char -> string, pieces: seq<ParseGuardFormats.Piece>)
    requires ParseGuardFormats.WellSpaced(up, LocalizedFormat.MACROS, pieces)
    ensures LocalizedFormat.Expand(ParseGuardFormats.Text(pieces, ParseGuardFormats.Itself))
            == ParseGuardFormats.Text(pieces, LocalizedFormat.MacroBody)
  {
    LocalizedFormat.FindMacroIsSound();
    MacrosAreWords();
    ParseGuardFormats.ScanOfPieces(LocalizedFormat.FindMacro, LocalizedFormat.MACROS, up, pieces);
    ParseGuardFormats.ItemsOfEmit(pieces, LocalizedFormat.MacroBody);
  }
}
