/** Text of SQL string constants: how the source writes and reads them, and how PostgreSQL reads them
  * (section 4.1.2.1 of the PostgreSQL manual, with `standard_conforming_strings` on).
  */
module SqlText {
  import opened Wrappers

  // White space as `trim` and `/\s/` understand it.
  predicate IsSpace(c: char) {
    || '\t' <= c <= '\r' || c == ' ' || c == '\U{00A0}' || c == '\U{1680}' || '\U{2000}' <= c <= '\U{200A}'
    || c == '\U{2028}' || c == '\U{2029}' || c == '\U{202F}' || c == '\U{205F}' || c == '\U{3000}' || c == '\U{FEFF}'
  }

  function Trim(s: string): string {
    if s == "" then ""
    else if IsSpace(s[0]) then Trim(s[1..])
    else TrimEnd(s)
  }

  function TrimEnd(s: string): string {
    if s != "" && IsSpace(s[|s| - 1]) then TrimEnd(s[..|s| - 1]) else s
  }

  // `replace(/'/g, "''")`.
  function Doubled(s: string): string {
    if s == "" then "" else (if s[0] == '\'' then "''" else [s[0]]) + Doubled(s[1..])
  }

  // `replace(/''/g, "'")`: pairs are found from the left and do not overlap.
  function Undoubled(s: string): string {
    if s == "" then ""
    else if |s| >= 2 && s[0] == '\'' && s[1] == '\'' then "'" + Undoubled(s[2..])
    else [s[0]] + Undoubled(s[1..])
  }

  // `toSqlStringLiteral`.
  function Quote(literal: string): string {
    "'" + Doubled(literal) + "'"
  }

  predicate Quoted(s: string) {
    s != "" && s[0] == '\'' && s[|s| - 1] == '\''
  }

  // `slice(1, -1)`.
  function Inner(s: string): string {
    if |s| >= 2 then s[1..|s| - 1] else ""
  }

  // `parseSqlStringLiteral`.
  function ParseLiteral(expr: string): Option<string> {
    var trimmed := Trim(expr);
    if !Quoted(trimmed) then None else Some(Undoubled(Inner(trimmed)))
  }

  // PostgreSQL's reading of a constant whose opening quote has been consumed: its value and what follows it.
  function ReadBody(text: string): Option<(string, string)> {
    if text == "" then None
    else if text[0] == '\'' && (|text| == 1 || text[1] != '\'') then Some(("", text[1..]))
    else
      var width := if text[0] == '\'' then 2 else 1;
      match ReadBody(text[width..])
      case None => None
      case Some((value, rest)) => Some(([text[0]] + value, rest))
  }

  function ReadConstant(text: string): Option<(string, string)> {
    if text == "" || text[0] != '\'' then None else ReadBody(text[1..])
  }

  lemma {:induction false} ReadDoubled(s: string, rest: string)
    requires rest == "" || rest[0] != '\''
    ensures ReadBody(Doubled(s) + "'" + rest) == Some((s, rest))
  {
    var text := Doubled(s) + "'" + rest;
    if s != "" {
      ReadDoubled(s[1..], rest);
      var width := if s[0] == '\'' then 2 else 1;
      assert text[width..] == Doubled(s[1..]) + "'" + rest;
      assert s == [s[0]] + s[1..];
    }
  }

  /** A quoted literal is read back whole, and does not close early: reading stops exactly where it ends. */
  lemma QuoteReadsBack(s: string, rest: string)
    requires rest == "" || rest[0] != '\''
    ensures ReadConstant(Quote(s) + rest) == Some((s, rest))
  {
    ReadDoubled(s, rest);
    assert (Quote(s) + rest)[1..] == Doubled(s) + "'" + rest;
  }

  lemma UndoubledPair(rest: string)
    ensures Undoubled("''" + rest) == "'" + Undoubled(rest)
  {
    assert ("''" + rest)[2..] == rest;
  }

  lemma UndoubledOther(c: char, rest: string)
    requires c != '\''
    ensures Undoubled([c] + rest) == [c] + Undoubled(rest)
  {
    assert ([c] + rest)[1..] == rest;
  }

  lemma {:induction false} UndoubledDoubled(s: string)
    ensures Undoubled(Doubled(s)) == s
  {
    if s != "" {
      UndoubledDoubled(s[1..]);
      if s[0] == '\'' {
        UndoubledPair(Doubled(s[1..]));
      } else {
        UndoubledOther(s[0], Doubled(s[1..]));
      }
      assert s == [s[0]] + s[1..];
    }
  }

  /** The source's own reader undoes its writer, on every text. */
  lemma ParseQuote(s: string)
    ensures ParseLiteral(Quote(s)) == Some(s)
  {
    UndoubledDoubled(s);
    assert Inner(Quote(s)) == Doubled(s);
  }

  lemma {:induction false} ReadBodyUndoubles(text: string)
    requires ReadBody(text).Some? && ReadBody(text).value.1 == ""
    ensures text != "" && text[|text| - 1] == '\''
    ensures Undoubled(text[..|text| - 1]) == ReadBody(text).value.0
  {
    if !(text[0] == '\'' && (|text| == 1 || text[1] != '\'')) {
      var width := if text[0] == '\'' then 2 else 1;
      ReadBodyUndoubles(text[width..]);
      assert text[..|text| - 1][width..] == text[width..][..|text[width..]| - 1];
    }
  }

  /** Whatever PostgreSQL accepts as one constant, the source's reader gives the same value for. */
  lemma ParseAgreesWithPostgres(expr: string)
    requires ReadConstant(expr).Some? && ReadConstant(expr).value.1 == ""
    ensures ParseLiteral(expr) == Some(ReadConstant(expr).value.0)
  {
    ReadBodyUndoubles(expr[1..]);
    assert expr[|expr| - 1] == '\'' && Trim(expr) == expr;
    assert Inner(expr) == expr[1..][..|expr[1..]| - 1];
  }

  predicate HasPair(s: string) {
    exists i :: 0 <= i < |s| - 1 && s[i] == '\'' && s[i + 1] == '\''
  }

  function Quotes(s: string): nat {
    if s == "" then 0 else (if s[0] == '\'' then 1 else 0) + Quotes(s[1..])
  }

  lemma {:induction false} QuotesConcat(a: string, b: string)
    ensures Quotes(a + b) == Quotes(a) + Quotes(b)
  {
    if a == "" {
      assert a + b == b;
    } else {
      assert (a + b)[1..] == a[1..] + b;
      QuotesConcat(a[1..], b);
    }
  }

  lemma {:induction false} NoQuotes(s: string)
    requires '\'' !in s
    ensures Quotes(s) == 0
  {
    if s != "" {
      NoQuotes(s[1..]);
    }
  }

  /** Undoubling loses quotes exactly when there is a pair to undouble, and otherwise changes nothing. */
  lemma {:induction false} UndoubledQuotes(s: string)
    ensures Quotes(Undoubled(s)) <= Quotes(s)
    ensures HasPair(s) <==> Quotes(Undoubled(s)) < Quotes(s)
    ensures !HasPair(s) ==> Undoubled(s) == s
  {
    if s == "" {
    } else if |s| >= 2 && s[0] == '\'' && s[1] == '\'' {
      UndoubledQuotes(s[2..]);
      assert s[1..][1..] == s[2..];
    } else {
      UndoubledQuotes(s[1..]);
      assert s == [s[0]] + s[1..];
      if HasPair(s) {
        var i :| 0 <= i < |s| - 1 && s[i] == '\'' && s[i + 1] == '\'';
        assert s[1..][i - 1] == '\'' && s[1..][i] == '\'';
      }
      if HasPair(s[1..]) {
        var i :| 0 <= i < |s[1..]| - 1 && s[1..][i] == '\'' && s[1..][i + 1] == '\'';
        assert s[i + 1] == '\'' && s[i + 2] == '\'';
      }
    }
  }
}
