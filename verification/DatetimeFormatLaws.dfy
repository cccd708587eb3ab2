/** Two exact laws about the datetime formatter: when the timezone argument can matter, and when the parse guard is
  * built from the same format as the SQL it guards.
  */
module DatetimeFormatLaws {
  import opened Wrappers
  import opened FormatScan
  import opened SqlText
  import opened DatetimeFormat
  import LocalizedFormat

  /* The timezone offset. */

  lemma {:induction false} WithoutTimezone(items: seq<Item>, buffer: string, datetimeSql: string, tz1: string,
                                           tz2: string)
    requires !HasTimezone(items)
    ensures Parts(items, buffer, Builders(datetimeSql, tz1)) == Parts(items, buffer, Builders(datetimeSql, tz2))
    decreases |items|
  {
    if items != [] {
      match items[0] {
        case Plain(c) => WithoutTimezone(items[1..], buffer + [c], datetimeSql, tz1, tz2);
        case Token(t) => WithoutTimezone(items[1..], "", datetimeSql, tz1, tz2);
      }
    }
  }

  function Size(parts: seq<Part>): nat {
    if parts == [] then 0 else |parts[0].sql| + Size(parts[1..])
  }

  lemma {:induction false} SizeConcat(a: seq<Part>, b: seq<Part>)
    ensures Size(a + b) == Size(a) + Size(b)
  {
    if a == [] {
      assert a + b == b;
    } else {
      assert (a + b)[1..] == a[1..] + b;
      SizeConcat(a[1..], b);
    }
  }

  lemma {:induction false} JoinSize(parts: seq<Part>)
    requires parts != []
    ensures |JoinNonEmpty(parts)| == Size(parts) + 4 * (|parts| - 1)
  {
    if |parts| > 1 {
      JoinSize(parts[1..]);
    }
  }

  // A longer offset makes a timezone builder longer and no other.
  lemma {:induction false} WithTimezone(items: seq<Item>, buffer: string, datetimeSql: string)
    requires HasTimezone(items)
    ensures var a := Parts(items, buffer, Builders(datetimeSql, ""));
            var b := Parts(items, buffer, Builders(datetimeSql, "x"));
            |a| == |b| && a != [] && Size(a) < Size(b)
    decreases |items|
  {
    match items[0] {
      case Plain(c) => WithTimezone(items[1..], buffer + [c], datetimeSql);
      case Token(t) =>
        var a := Flush(buffer) + [Builder(t, BuilderSql(t, datetimeSql, ""))];
        var b := Flush(buffer) + [Builder(t, BuilderSql(t, datetimeSql, "x"))];
        SizeConcat(Flush(buffer), [Builder(t, BuilderSql(t, datetimeSql, ""))]);
        SizeConcat(Flush(buffer), [Builder(t, BuilderSql(t, datetimeSql, "x"))]);
        SizeConcat(a, Parts(items[1..], "", Builders(datetimeSql, "")));
        SizeConcat(b, Parts(items[1..], "", Builders(datetimeSql, "x")));
        if HasTimezone(items[1..]) {
          WithTimezone(items[1..], "", datetimeSql);
        } else {
          WithoutTimezone(items[1..], "", datetimeSql, "", "x");
        }
    }
  }

  lemma {:induction false} TimezoneNeedsZ(items: seq<Item>)
    requires HasTimezone(items)
    ensures 'Z' in Spell(items)
  {
    if items[0].Token? && IsTimezone(items[0].text) {
      assert items[0].text[0] == 'Z';
    } else {
      TimezoneNeedsZ(items[1..]);
    }
  }

  lemma PlainHasNoTimezone(literal: string)
    requires 'L' !in literal && 'l' !in literal && 'Z' !in literal
    ensures !HasTimezone(Items(literal))
  {
    LocalizedFormat.NoMacroNoChange(literal);
    FindSpecifierIsSound();
    ScanSpells(FindSpecifier, literal, 0);
    assert literal[0..] == literal;
    if HasTimezone(Items(literal)) {
      TimezoneNeedsZ(Items(literal));
    }
  }

  /** The generated SQL depends on the timezone offset exactly when `hasDatetimeTimezoneToken` says true; null, for a
    * format that is not a literal, and the default for an empty one, are among the cases where it does not. */
  lemma TimezoneNonInterference(datetimeSql: string, formatExpr: Option<string>)
    ensures HasTimezoneToken(formatExpr) == Some(true)
            <==> exists tz1, tz2 :: FormatSql(datetimeSql, formatExpr, tz1) != FormatSql(datetimeSql, formatExpr, tz2)
  {
    PlainHasNoTimezone(DEFAULT_FORMAT_LITERAL);
    PlainHasNoTimezone("");
    var resolved := ResolveFormatLiteral(formatExpr);
    if resolved.Some? {
      var items := Items(if resolved.value == "" then DEFAULT_FORMAT_LITERAL else resolved.value);
      if HasTimezone(items) {
        WithTimezone(items, "", datetimeSql);
        JoinSize(Parts(items, "", Builders(datetimeSql, "")));
        JoinSize(Parts(items, "", Builders(datetimeSql, "x")));
        assert FormatSql(datetimeSql, formatExpr, "") != FormatSql(datetimeSql, formatExpr, "x");
      } else {
        forall tz1, tz2 ensures FormatSql(datetimeSql, formatExpr, tz1) == FormatSql(datetimeSql, formatExpr, tz2) {
          WithoutTimezone(items, "", datetimeSql, tz1, tz2);
        }
      }
    }
  }

  /* Doubled quotes in a format. */

  // Neither the entries of a table nor what replaces them hold a quote.
  ghost predicate QuoteFree(table: seq<string>, body: string -> string) {
    forall t :: t in table ==> '\'' !in t && '\'' !in body(t)
  }

  lemma {:induction false} EmitKeepsQuotes(table: seq<string>, body: string -> string, items: seq<Item>)
    requires QuoteFree(table, body) && forall k :: 0 <= k < |items| && items[k].Token? ==> items[k].text in table
    ensures Quotes(Emit(items, body)) == Quotes(Spell(items))
  {
    if items != [] {
      EmitKeepsQuotes(table, body, items[1..]);
      QuotesConcat(ItemText(items[0], body), Emit(items[1..], body));
      QuotesConcat(ItemText(items[0], (t: string) => t), Spell(items[1..]));
      if items[0].Token? {
        NoQuotes(items[0].text);
        NoQuotes(body(items[0].text));
      }
    }
  }

  lemma {:induction false} TokensInTable(find: Finder, table: seq<string>, literal: string, i: nat)
    requires Sound(find) && LooksUp(find, table)
    ensures forall item :: item in Scan(find, literal, i) && item.Token? ==> item.text in table
    decreases |literal| - i
  {
    if i < |literal| {
      var item := ItemAt(find, literal, i);
      ScanUnfolds(find, literal, i, item);
      assert find(literal[i..]) == FindToken(table, literal[i..]);
      TokensInTable(find, table, literal, i + Width(item));
    }
  }

  lemma ReplaceKeepsQuotes(find: Finder, table: seq<string>, body: string -> string, literal: string)
    requires Sound(find) && LooksUp(find, table) && QuoteFree(table, body)
    ensures Quotes(Emit(Scan(find, literal, 0), body)) == Quotes(literal)
  {
    TokensInTable(find, table, literal, 0);
    EmitKeepsQuotes(table, body, Scan(find, literal, 0));
    ScanSpells(find, literal, 0);
    assert literal[0..] == literal;
  }

  lemma MacroQuoteFree(t: string)
    requires t in LocalizedFormat.MACROS
    ensures '\'' !in t
  {
  }

  lemma LongQuoteFree(t: string)
    requires t in LONG_SPECIFIERS
    ensures '\'' !in t
  {
  }

  lemma ShortQuoteFree(t: string)
    requires t in PAIR_SPECIFIERS || t in LETTER_SPECIFIERS
    ensures '\'' !in t
  {
  }

  lemma MacroBodyQuoteFree(t: string)
    ensures '\'' !in LocalizedFormat.MacroBody(t)
  {
  }

  lemma ToPostgresQuoteFree(t: string)
    requires '\'' !in t
    ensures '\'' !in ToPostgres(t)
  {
  }

  lemma BothQuoteFree()
    ensures QuoteFree(LocalizedFormat.MACROS, LocalizedFormat.MacroBody)
    ensures QuoteFree(SPECIFIERS, ToPostgres)
  {
    forall t | t in LocalizedFormat.MACROS ensures '\'' !in t && '\'' !in LocalizedFormat.MacroBody(t) {
      MacroQuoteFree(t);
      MacroBodyQuoteFree(t);
    }
    forall t | t in SPECIFIERS ensures '\'' !in t && '\'' !in ToPostgres(t) {
      if t in LONG_SPECIFIERS {
        LongQuoteFree(t);
      } else {
        ShortQuoteFree(t);
      }
      ToPostgresQuoteFree(t);
    }
  }

  lemma NormalizeKeepsQuotes(literal: string)
    ensures Quotes(NormalizeLiteral(literal)) == Quotes(literal)
  {
    LocalizedFormat.FindMacroIsSound();
    FindSpecifierIsSound();
    BothQuoteFree();
    ReplaceKeepsQuotes(LocalizedFormat.FindMacro, LocalizedFormat.MACROS, LocalizedFormat.MacroBody, literal);
    ReplaceKeepsQuotes(FindSpecifier, SPECIFIERS, ToPostgres, LocalizedFormat.Expand(literal));
  }

  /** Normalising a quoted format and reading it back gives the normal form of the format it denotes exactly when the
    * constant holds no doubled quote: `normalizeDatetimeFormatExpression` does not undouble before it doubles. */
  lemma NormalizeRoundTripIff(formatExpr: string)
    requires Quoted(Trim(formatExpr))
    ensures ParseLiteral(NormalizeExpression(Some(formatExpr))) == Some(NormalizeLiteral(Inner(Trim(formatExpr))))
    ensures ParseLiteral(formatExpr).Some?
    ensures ParseLiteral(NormalizeExpression(Some(formatExpr)))
            == Some(NormalizeLiteral(ParseLiteral(formatExpr).value))
            <==> !HasPair(Inner(Trim(formatExpr)))
  {
    var raw := Inner(Trim(formatExpr));
    ParseQuote(NormalizeLiteral(raw));
    UndoubledQuotes(raw);
    NormalizeKeepsQuotes(raw);
    NormalizeKeepsQuotes(Undoubled(raw));
  }

  /** A format for which it fails: the constant that denotes a single quote is read back as two. */
  lemma NormalizeRoundTripFails()
    ensures exists formatExpr: string ::
              && Quoted(Trim(formatExpr)) && ParseLiteral(formatExpr).Some?
              && ParseLiteral(NormalizeExpression(Some(formatExpr)))
                 != Some(NormalizeLiteral(ParseLiteral(formatExpr).value))
  {
    var formatExpr := seq(4, i => '\'');
    assert Inner(Trim(formatExpr))[0] == '\'' && Inner(Trim(formatExpr))[1] == '\'';
    NormalizeRoundTripIff(formatExpr);
  }
}
