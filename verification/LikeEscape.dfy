/** `sql-like-escape.ts`, against LIKE as section 9.7.1 of the PostgreSQL manual describes it. */
module LikeEscape {
  import opened Wrappers

  // `escapeLikeWildcards`: `replace(/[\\%_]/g, '\\$&')`.
  function EscapeLikeWildcards(s: string): string {
    if s == "" then "" else EscapeChar(s[0]) + EscapeLikeWildcards(s[1..])
  }

  function EscapeChar(c: char): string {
    if c == '\\' || c == '%' || c == '_' then ['\\', c] else [c]
  }

  // None is the server's error "LIKE pattern must not end with escape character".
  datatype Wildcard = Char(c: char) | One | Many

  function ReadLike(pattern: string): Option<seq<Wildcard>> {
    if pattern == "" then Some([])
    else if pattern[0] == '\\' && |pattern| < 2 then None
    else
      var width := if pattern[0] == '\\' then 2 else 1;
      var first := if pattern[0] == '\\' then Char(pattern[1])
                   else if pattern[0] == '%' then Many
                   else if pattern[0] == '_' then One
                   else Char(pattern[0]);
      match ReadLike(pattern[width..])
      case None => None
      case Some(rest) => Some([first] + rest)
  }

  ghost predicate Covers(wildcards: seq<Wildcard>, t: string)
    decreases |wildcards|
  {
    if wildcards == [] then t == ""
    else match wildcards[0]
      case Char(c) => t != "" && t[0] == c && Covers(wildcards[1..], t[1..])
      case One => t != "" && Covers(wildcards[1..], t[1..])
      case Many => exists k :: 0 <= k <= |t| && Covers(wildcards[1..], t[k..])
  }

  // `t LIKE pattern ESCAPE '\'`.
  ghost predicate Like(t: string, pattern: string) {
    ReadLike(pattern).Some? && Covers(ReadLike(pattern).value, t)
  }

  function Chars(s: string): seq<Wildcard> {
    if s == "" then [] else [Char(s[0])] + Chars(s[1..])
  }

  lemma EscapedCharReads(c: char, rest: string)
    requires ReadLike(rest).Some?
    ensures ReadLike(EscapeChar(c) + rest) == Some([Char(c)] + ReadLike(rest).value)
  {
    assert (EscapeChar(c) + rest)[|EscapeChar(c)|..] == rest;
  }

  lemma EscapedCons(s: string, rest: string)
    requires s != ""
    ensures EscapeLikeWildcards(s) + rest == EscapeChar(s[0]) + (EscapeLikeWildcards(s[1..]) + rest)
  {
  }

  lemma CharsCons(s: string, more: seq<Wildcard>)
    requires s != ""
    ensures Chars(s) + more == [Char(s[0])] + (Chars(s[1..]) + more)
  {
  }

  lemma {:induction false} EscapedReads(s: string, rest: string)
    requires ReadLike(rest).Some?
    ensures ReadLike(EscapeLikeWildcards(s) + rest) == Some(Chars(s) + ReadLike(rest).value)
  {
    var wildcards := ReadLike(rest).value;
    if s == "" {
      assert EscapeLikeWildcards(s) + rest == rest;
      assert Chars(s) + wildcards == wildcards;
    } else {
      EscapedReads(s[1..], rest);
      EscapedCons(s, rest);
      EscapedCharReads(s[0], EscapeLikeWildcards(s[1..]) + rest);
      CharsCons(s, wildcards);
    }
  }

  lemma {:induction false} CoversChars(s: string, more: seq<Wildcard>, t: string)
    ensures Covers(Chars(s) + more, t) <==> s <= t && Covers(more, t[|s|..])
    decreases |s|
  {
    if s == "" {
      assert Chars(s) + more == more && t[0..] == t;
    } else if t != "" {
      var wildcards := Chars(s) + more;
      assert wildcards[0] == Char(s[0]) && wildcards[1..] == Chars(s[1..]) + more;
      CoversChars(s[1..], more, t[1..]);
      if s[0] == t[0] && s[1..] <= t[1..] {
        assert t == [t[0]] + t[1..] && s == [s[0]] + s[1..];
      }
      if s <= t {
        assert t[1..][|s[1..]|..] == t[|s|..];
      }
    } else {
      assert (Chars(s) + more)[0] == Char(s[0]);
    }
  }

  /** The escaped text of `s` matches `s` and nothing else. */
  lemma EscapedMatchesItself(s: string, t: string)
    ensures Like(t, EscapeLikeWildcards(s)) <==> t == s
  {
    EscapedReads(s, "");
    assert EscapeLikeWildcards(s) + "" == EscapeLikeWildcards(s);
    assert Chars(s) + [] == Chars(s);
    CoversChars(s, [], t);
    if s <= t && t[|s|..] == "" {
      assert t == t[..|s|];
    }
  }

  /** Between percent signs it matches exactly the texts in which `s` occurs. */
  lemma WrappedMatchesOccurrences(s: string, t: string)
    ensures Like(t, "%" + EscapeLikeWildcards(s) + "%") <==> Occurs(s, t)
  {
    var pattern := "%" + EscapeLikeWildcards(s) + "%";
    assert "%"[1..] == "" && ReadLike("") == Some([]) && [Many] + [] == [Many];
    assert ReadLike("%") == Some([Many]);
    EscapedReads(s, "%");
    assert pattern[1..] == EscapeLikeWildcards(s) + "%";
    var wildcards := [Many] + (Chars(s) + [Many]);
    assert ReadLike(pattern) == Some(wildcards) && wildcards[1..] == Chars(s) + [Many];
    forall k | 0 <= k <= |t| ensures Covers(Chars(s) + [Many], t[k..]) <==> s <= t[k..] {
      CoversChars(s, [Many], t[k..]);
      if s <= t[k..] {
        ManyCovers(t[k..][|s|..]);
      }
    }
  }

  lemma ManyCovers(t: string)
    ensures Covers([Many], t)
  {
    assert t[|t|..] == "";
    assert Covers([], t[|t|..]);
    assert [Many][1..] == [];
  }
}
