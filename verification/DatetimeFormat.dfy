/** `datetime-format-pg.ts`: from a format literal to the SQL that renders a datetime in it. */
module DatetimeFormat {
  import opened Wrappers
  import opened FormatScan
  import opened SqlText
  import LocalizedFormat

  const DEFAULT_FORMAT_EXPR := "'YYYY-MM-DD'"
  const DEFAULT_FORMAT_LITERAL := "YYYY-MM-DD"

  // The keys of DATETIME_FORMAT_SQL_BUILDERS, longest first.
  const LONG_SPECIFIERS: seq<string> := [
    "Month", "MONTH", "month", "HH24", "HH12", "YYYY", "MMMM", "dddd", "Day", "DAY", "day", "ddd", "MMM", "SSS"]
  const PAIR_SPECIFIERS: seq<string> := ["MI", "MS", "SS", "dd", "YY", "MM", "DD", "HH", "hh", "mm", "ss", "ZZ"]
  const LETTER_SPECIFIERS: seq<string> := ["d", "M", "D", "H", "h", "m", "s", "Z", "A", "a"]
  const SPECIFIERS := LONG_SPECIFIERS + PAIR_SPECIFIERS + LETTER_SPECIFIERS

  // DATETIME_FORMAT_TOKEN_TO_POSTGRES.
  function ToPostgres(token: string): string {
    if token == "Month" || token == "MMMM" then "FMMonth"
    else if token == "MONTH" then "FMMONTH"
    else if token == "month" then "FMmonth"
    else if token == "Day" || token == "dddd" then "FMDay"
    else if token == "DAY" then "FMDAY"
    else if token == "day" then "FMday"
    else if token == "ddd" || token == "dd" then "FMDy"
    else if token == "d" then "D"
    else if token == "MMM" then "FMMon"
    else if token == "M" then "FMMM"
    else if token == "D" then "FMDD"
    else if token == "HH" then "HH24"
    else if token == "H" then "FMHH24"
    else if token == "hh" then "HH12"
    else if token == "h" then "FMHH12"
    else if token == "mm" then "MI"
    else if token == "m" then "FMMI"
    else if token == "ss" then "SS"
    else if token == "s" then "FMSS"
    else if token == "SSS" then "MS"
    else if token == "Z" || token == "ZZ" then "OF"
    else if token == "A" then "AM"
    else if token == "a" then "am"
    else token    // HH24, HH12, MI, MS, SS, YYYY, YY, MM, DD
  }

  // The templates of the entries of DATETIME_FORMAT_SQL_BUILDERS that are a plain TO_CHAR.
  function BuilderTemplate(token: string): Option<string> {
    if token == "HH24" || token == "HH" then Some("HH24")
    else if token == "HH12" || token == "hh" then Some("HH12")
    else if token == "H" then Some("FMHH24")
    else if token == "h" then Some("FMHH12")
    else if token == "MI" || token == "mm" then Some("MI")
    else if token == "m" then Some("FMMI")
    else if token == "SS" || token == "ss" then Some("SS")
    else if token == "s" then Some("FMSS")
    else if token == "MS" || token == "SSS" then Some("MS")
    else if token == "Month" || token == "MMMM" then Some("FMMonth")
    else if token == "MONTH" then Some("FMMONTH")
    else if token == "month" then Some("FMmonth")
    else if token == "MMM" then Some("FMMon")
    else if token == "MM" then Some("MM")
    else if token == "M" then Some("FMMM")
    else if token == "Day" || token == "dddd" then Some("FMDay")
    else if token == "DAY" then Some("FMDAY")
    else if token == "day" then Some("FMday")
    else if token == "ddd" then Some("FMDy")
    else if token == "DD" then Some("DD")
    else if token == "D" then Some("FMDD")
    else if token == "YYYY" then Some("YYYY")
    else if token == "YY" then Some("YY")
    else if token == "A" then Some("AM")
    else None
  }

  // DATETIME_FORMAT_SQL_BUILDERS.
  function BuilderSql(token: string, datetimeSql: string, timezoneOffsetSql: string): string {
    if token == "Z" then timezoneOffsetSql
    else if token == "ZZ" then "REPLACE(" + timezoneOffsetSql + ", ':', '')"
    else if token == "dd" then "LEFT(TO_CHAR(" + datetimeSql + ", 'FMDy'), 2)"
    else if token == "d" then "EXTRACT(DOW FROM " + datetimeSql + ")::int::text"
    else if token == "a" then "LOWER(TO_CHAR(" + datetimeSql + ", 'AM'))"
    else
      var template := BuilderTemplate(token);
      "TO_CHAR(" + datetimeSql + ", '" + (if template.Some? then template.value else "") + "')"
  }

  lemma SpecifiersLongestFirst()
    ensures LongestFirst(SPECIFIERS)
  {
    LongSpecifiersFirst();
    PairsAreShorter();
    LettersAreShortest();
    LongestFirstConcat(LONG_SPECIFIERS, PAIR_SPECIFIERS, 2);
    LongestFirstConcat(LONG_SPECIFIERS + PAIR_SPECIFIERS, LETTER_SPECIFIERS, 1);
  }

  lemma LongSpecifiersFirst()
    ensures LongestFirst(LONG_SPECIFIERS)
    ensures forall k :: 0 <= k < |LONG_SPECIFIERS| ==> |LONG_SPECIFIERS[k]| >= 3
  {
  }

  lemma PairsAreShorter()
    ensures LongestFirst(PAIR_SPECIFIERS)
    ensures forall k :: 0 <= k < |PAIR_SPECIFIERS| ==> |PAIR_SPECIFIERS[k]| == 2
  {
  }

  lemma LettersAreShortest()
    ensures LongestFirst(LETTER_SPECIFIERS)
    ensures forall k :: 0 <= k < |LETTER_SPECIFIERS| ==> |LETTER_SPECIFIERS[k]| == 1
  {
  }

  function FindSpecifier(rest: string): Option<string> {
    FindToken(SPECIFIERS, rest)
  }

  lemma FindSpecifierIsSound()
    ensures LooksUp(FindSpecifier, SPECIFIERS) && Sound(FindSpecifier)
  {
    SpecifiersLongestFirst();
    LookupIsSound(FindSpecifier, SPECIFIERS);
  }

  // What `forEachSupportedDatetimeFormatToken` reports, in order.
  function Items(literal: string): seq<Item> {
    FindSpecifierIsSound();
    Scan(FindSpecifier, LocalizedFormat.Expand(literal), 0)
  }

  method ForEachSupportedToken(literal: string) returns (items: seq<Item>)
    ensures items == Items(literal)
  {
    var expanded := LocalizedFormat.ExpandLocalizedDatetimeFormat(literal);
    FindSpecifierIsSound();
    items := ScanLoop(FindSpecifier, expanded);
  }

  method ScanLoop(find: Finder, literal: string) returns (items: seq<Item>)
    requires Sound(find)
    ensures items == Scan(find, literal, 0)
  {
    items := [];
    var i := 0;
    ghost var whole := Scan(find, literal, 0);
    while i < |literal|
      invariant i <= |literal|
      invariant whole == items + Scan(find, literal, i)
    {
      var item := NextItem(find, literal, i);
      ScanUnfolds(find, literal, i, item);
      Advance(items, item, Scan(find, literal, i + Width(item)), whole);
      items := items + [item];
      i := i + Width(item);
    }
  }

  lemma Advance(done: seq<Item>, item: Item, rest: seq<Item>, whole: seq<Item>)
    requires whole == done + ([item] + rest)
    ensures whole == (done + [item]) + rest
  {
  }

  /* Code generation. */

  datatype Part = Constant(sql: string) | Builder(token: string, sql: string)

  // Pushing the literal buffer, if anything is in it.
  function Flush(buffer: string): seq<Part> {
    if buffer == "" then [] else [Constant(Quote(buffer))]
  }

  function Builders(datetimeSql: string, timezoneOffsetSql: string): string -> string {
    (token: string) => BuilderSql(token, datetimeSql, timezoneOffsetSql)
  }

  // The operands pushed for `items` when `buffer` is waiting.
  function Parts(items: seq<Item>, buffer: string, sqlOf: string -> string): seq<Part>
    decreases |items|
  {
    if items == [] then Flush(buffer)
    else match items[0]
      case Plain(c) => Parts(items[1..], buffer + [c], sqlOf)
      case Token(t) => Flush(buffer) + [Builder(t, sqlOf(t))] + Parts(items[1..], "", sqlOf)
  }

  // `sqlParts.join(' || ')`, or the empty constant.
  function Join(parts: seq<Part>): string {
    if parts == [] then "''" else JoinNonEmpty(parts)
  }

  function JoinNonEmpty(parts: seq<Part>): string
    requires parts != []
  {
    if |parts| == 1 then parts[0].sql else parts[0].sql + " || " + JoinNonEmpty(parts[1..])
  }

  // `flushLiteralBuffer`, but for clearing the buffer.
  method FlushBuffer(before: seq<Part>, literalBuffer: string) returns (sqlParts: seq<Part>)
    ensures sqlParts == before + Flush(literalBuffer)
  {
    sqlParts := before;
    if literalBuffer != "" {
      sqlParts := sqlParts + [Constant(Quote(literalBuffer))];
    }
  }

  lemma PartsProgress(items: seq<Item>, buffer: string, sqlOf: string -> string, done: seq<Part>, whole: seq<Part>)
    requires items != [] && whole == done + Parts(items, buffer, sqlOf)
    ensures items[0].Plain? ==> whole == done + Parts(items[1..], buffer + [items[0].c], sqlOf)
    ensures items[0].Token? ==>
              whole == ((done + Flush(buffer)) + [Builder(items[0].text, sqlOf(items[0].text))])
                       + Parts(items[1..], "", sqlOf)
  {
    if items[0].Token? {
      Regroup(done, Flush(buffer), [Builder(items[0].text, sqlOf(items[0].text))], Parts(items[1..], "", sqlOf));
    }
  }

  lemma Regroup<T>(a: seq<T>, b: seq<T>, c: seq<T>, d: seq<T>)
    ensures a + (b + c + d) == ((a + b) + c) + d
  {
  }

  method BuildFromLiteral(datetimeSql: string, literal: string, timezoneOffsetSql: string)
    returns (sql: string)
    ensures sql == Join(Parts(Items(literal), "", Builders(datetimeSql, timezoneOffsetSql)))
  {
    var items := ForEachSupportedToken(literal);
    var sqlParts := PushParts(items, Builders(datetimeSql, timezoneOffsetSql));
    sql := Join(sqlParts);
  }

  // The callback that pushes operands and buffers literal characters.
  method PushParts(items: seq<Item>, sqlOf: string -> string) returns (parts: seq<Part>)
    ensures parts == Parts(items, "", sqlOf)
  {
    var sqlParts: seq<Part>, literalBuffer := [], "";
    ghost var whole := Parts(items, "", sqlOf);
    var k := 0;
    while k < |items|
      invariant k <= |items|
      invariant whole == sqlParts + Parts(items[k..], literalBuffer, sqlOf)
    {
      PartsProgress(items[k..], literalBuffer, sqlOf, sqlParts, whole);
      assert items[k..][1..] == items[k + 1..];
      match items[k] {
        case Plain(c) =>
          literalBuffer := literalBuffer + [c];
        case Token(t) =>
          sqlParts := FlushBuffer(sqlParts, literalBuffer);
          literalBuffer := "";
          sqlParts := sqlParts + [Builder(t, sqlOf(t))];
      }
      k := k + 1;
    }
    sqlParts := FlushBuffer(sqlParts, literalBuffer);
    parts := sqlParts;
  }

  /* What the generated SQL means: constants as PostgreSQL reads them, builders as `render` says. */

  function Value(part: Part, render: string -> string): string {
    match part
    case Builder(token, _) => render(token)
    case Constant(sql) =>
      match ReadConstant(sql)
      case Some((value, rest)) => if rest == "" then value else "?"
      case None => "?"
  }

  function Concatenated(parts: seq<Part>, render: string -> string): string {
    if parts == [] then "" else Value(parts[0], render) + Concatenated(parts[1..], render)
  }

  lemma {:induction false} ConcatenatedConcat(a: seq<Part>, b: seq<Part>, render: string -> string)
    ensures Concatenated(a + b, render) == Concatenated(a, render) + Concatenated(b, render)
  {
    if a == [] {
      assert a + b == b;
    } else {
      assert (a + b)[1..] == a[1..] + b;
      ConcatenatedConcat(a[1..], b, render);
    }
  }

  lemma FlushMeans(buffer: string, render: string -> string)
    ensures Concatenated(Flush(buffer), render) == buffer
  {
    QuoteReadsBack(buffer, "");
    assert Quote(buffer) + "" == Quote(buffer);
  }

  lemma BuilderMeans(buffer: string, token: string, sql: string, rest: seq<Part>, render: string -> string)
    ensures Concatenated(Flush(buffer) + [Builder(token, sql)] + rest, render)
            == buffer + render(token) + Concatenated(rest, render)
  {
    var builder := Builder(token, sql);
    FlushMeans(buffer, render);
    ConcatenatedConcat(Flush(buffer) + [builder], rest, render);
    ConcatenatedConcat(Flush(buffer), [builder], render);
    SingleMeans(builder, render);
  }

  lemma SingleMeans(part: Part, render: string -> string)
    ensures Concatenated([part], render) == Value(part, render)
  {
    assert [part][1..] == [];
    assert Concatenated([], render) == "";
  }

  lemma Regrouped(a: string, b: string, c: string)
    ensures (a + b) + c == a + (b + c)
  {
  }

  lemma StartsEmpty(s: string)
    ensures "" + s == s
  {
  }

  lemma {:induction false} PartsMean(items: seq<Item>, buffer: string, sqlOf: string -> string,
                                     render: string -> string)
    ensures Concatenated(Parts(items, buffer, sqlOf), render) == buffer + Emit(items, render)
    decreases |items|
  {
    if items == [] {
      FlushMeans(buffer, render);
    } else {
      match items[0] {
        case Plain(c) =>
          PartsMean(items[1..], buffer + [c], sqlOf, render);
          Regrouped(buffer, [c], Emit(items[1..], render));
        case Token(t) =>
          PartsMean(items[1..], "", sqlOf, render);
          BuilderMeans(buffer, t, sqlOf(t), Parts(items[1..], "", sqlOf), render);
          Regrouped(buffer, render(t), Emit(items[1..], render));
          StartsEmpty(Emit(items[1..], render));
      }
    }
  }

  /** The compiler preserves meaning: the emitted concatenation evaluates to the rendering of each specifier and each
    * literal character of the expanded format, in order; the items spell that format and are its only segmentation. */
  lemma CompilerPreservesMeaning(literal: string, datetimeSql: string, tz: string, render: string -> string)
    ensures Concatenated(Parts(Items(literal), "", Builders(datetimeSql, tz)), render) == Emit(Items(literal), render)
    ensures Spell(Items(literal)) == LocalizedFormat.Expand(literal)
    ensures forall items :: items == Items(literal) <==> Segments(SPECIFIERS, LocalizedFormat.Expand(literal), 0, items)
  {
    PartsMean(Items(literal), "", Builders(datetimeSql, tz), render);
    FindSpecifierIsSound();
    var expanded := LocalizedFormat.Expand(literal);
    ScanSpells(FindSpecifier, expanded, 0);
    assert expanded[0..] == expanded;
    forall items ensures items == Items(literal) <==> Segments(SPECIFIERS, expanded, 0, items) {
      ScanIsTheSegmentation(FindSpecifier, SPECIFIERS, expanded, 0, items);
    }
  }

  /** In the joined text every quoted literal ends where it should: PostgreSQL reads exactly it, and is left with the
    * next ` || ` or the end. */
  lemma JoinedConstantReadsBack(parts: seq<Part>, literal: string)
    requires parts != [] && parts[0] == Constant(Quote(literal))
    ensures ReadConstant(JoinNonEmpty(parts))
            == Some((literal, if |parts| == 1 then "" else " || " + JoinNonEmpty(parts[1..])))
  {
    var rest := if |parts| == 1 then "" else " || " + JoinNonEmpty(parts[1..]);
    QuoteReadsBack(literal, rest);
    assert JoinNonEmpty(parts) == Quote(literal) + rest;
  }

  /* The public functions. */

  // `resolveFormatLiteral`; None is null or undefined.
  function ResolveFormatLiteral(formatExpr: Option<string>): Option<string> {
    if formatExpr.None? || Trim(formatExpr.value) == "" then Some(DEFAULT_FORMAT_LITERAL)
    else ParseLiteral(Trim(formatExpr.value))
  }

  function NormalizeLiteral(literal: string): string {
    Emit(Items(literal), ToPostgres)
  }

  function NormalizeExpression(formatExpr: Option<string>): string {
    if formatExpr.None? then DEFAULT_FORMAT_EXPR
    else
      var trimmed := Trim(formatExpr.value);
      if trimmed == "" then DEFAULT_FORMAT_EXPR
      else if !Quoted(trimmed) then formatExpr.value
      else Quote(NormalizeLiteral(Inner(trimmed)))
  }

  function FormatSql(datetimeSql: string, formatExpr: Option<string>, tz: string): string {
    match ResolveFormatLiteral(formatExpr)
    case None => "TO_CHAR(" + datetimeSql + ", " + NormalizeExpression(formatExpr) + ")"
    case Some(literal) =>
      var effective := if literal == "" then DEFAULT_FORMAT_LITERAL else literal;
      Join(Parts(Items(effective), "", Builders(datetimeSql, tz)))
  }

  predicate IsTimezone(token: string) {
    token == "Z" || token == "ZZ"
  }

  function HasTimezone(items: seq<Item>): bool {
    items != [] && ((items[0].Token? && IsTimezone(items[0].text)) || HasTimezone(items[1..]))
  }

  // None stands for the source's null: the format is an expression, not a literal.
  function HasTimezoneToken(formatExpr: Option<string>): Option<bool> {
    match ResolveFormatLiteral(formatExpr)
    case None => None
    case Some(literal) => Some(HasTimezone(Items(literal)))
  }

  method HasDatetimeTimezoneToken(formatExpr: Option<string>) returns (result: Option<bool>)
    ensures result == HasTimezoneToken(formatExpr)
  {
    var formatLiteral := ResolveFormatLiteral(formatExpr);
    if formatLiteral.None? {
      return None;
    }
    var items := ForEachSupportedToken(formatLiteral.value);
    var hasTimezoneToken := FindTimezone(items);
    result := Some(hasTimezoneToken);
  }

  // The callback that looks for a timezone token.
  method FindTimezone(items: seq<Item>) returns (hasTimezoneToken: bool)
    ensures hasTimezoneToken == HasTimezone(items)
  {
    hasTimezoneToken := false;
    var k := 0;
    while k < |items|
      invariant k <= |items|
      invariant HasTimezone(items) == (hasTimezoneToken || HasTimezone(items[k..]))
    {
      assert items[k..][1..] == items[k + 1..];
      if items[k].Token? && IsTimezone(items[k].text) {
        hasTimezoneToken := true;
      }
      k := k + 1;
    }
  }

  lemma EmitProgress(items: seq<Item>, k: nat, body: string -> string, done: string, whole: string)
    requires k < |items| && whole == done + Emit(items[k..], body)
    ensures whole == (done + ItemText(items[k], body)) + Emit(items[k + 1..], body)
  {
    assert items[k..][1..] == items[k + 1..];
  }

  method NormalizeDatetimeFormatLiteral(literal: string) returns (result: string)
    ensures result == NormalizeLiteral(literal)
  {
    var items := ForEachSupportedToken(literal);
    result := "";
    var k := 0;
    ghost var whole := Emit(items, ToPostgres);
    while k < |items|
      invariant k <= |items|
      invariant whole == result + Emit(items[k..], ToPostgres)
    {
      EmitProgress(items, k, ToPostgres, result, whole);
      match items[k] {
        case Token(t) => result := result + ToPostgres(t);
        case Plain(c) => result := result + [c];
      }
      k := k + 1;
    }
  }

  method BuildDatetimeFormatSql(datetimeSql: string, formatExpr: Option<string>, tz: string) returns (sql: string)
    ensures sql == FormatSql(datetimeSql, formatExpr, tz)
  {
    var formatLiteral := ResolveFormatLiteral(formatExpr);
    if formatLiteral.None? {
      return "TO_CHAR(" + datetimeSql + ", " + NormalizeExpression(formatExpr) + ")";
    }
    var effective := if formatLiteral.value == "" then DEFAULT_FORMAT_LITERAL else formatLiteral.value;
    sql := BuildFromLiteral(datetimeSql, effective, tz);
  }
}
