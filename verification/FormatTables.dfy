/** The two tables of `datetime-format-pg.ts` that say what a specifier is in PostgreSQL. */
module FormatTables {
  import opened Wrappers
  import opened DatetimeFormat

  predicate Agree(token: string) {
    BuilderTemplate(token) == if token in ["dd", "d", "Z", "ZZ", "a"] then None else Some(ToPostgres(token))
  }

  lemma LongNamesAgree(k: nat)
    requires k < 7
    ensures Agree(LONG_SPECIFIERS[k])
  {
  }

  lemma LongSpecifiersAgree(k: nat)
    requires 7 <= k < |LONG_SPECIFIERS|
    ensures Agree(LONG_SPECIFIERS[k])
  {
  }

  lemma FirstPairsAgree(k: nat)
    requires k < 3
    ensures Agree(PAIR_SPECIFIERS[k])
  {
  }

  lemma NextPairsAgree(k: nat)
    requires 3 <= k < 6
    ensures Agree(PAIR_SPECIFIERS[k])
  {
  }

  lemma LastPairsAgree(k: nat)
    requires 6 <= k < |PAIR_SPECIFIERS|
    ensures Agree(PAIR_SPECIFIERS[k])
  {
  }

  lemma FirstLettersAgree(k: nat)
    requires k < 5
    ensures Agree(LETTER_SPECIFIERS[k])
  {
  }

  lemma LastLettersAgree(k: nat)
    requires 5 <= k < |LETTER_SPECIFIERS|
    ensures Agree(LETTER_SPECIFIERS[k])
  {
  }

  /** The two tables give every specifier the same TO_CHAR template, but for five that are not a plain TO_CHAR when a
    * literal format is compiled: two weekday forms, the offsets, and the lower-case meridiem. */
  lemma TablesAgree(token: string)
    requires token in SPECIFIERS
    ensures BuilderTemplate(token) == if token in ["dd", "d", "Z", "ZZ", "a"] then None else Some(ToPostgres(token))
  {
    if k :| 0 <= k < |LONG_SPECIFIERS| && LONG_SPECIFIERS[k] == token {
      if k < 7 { LongNamesAgree(k); } else { LongSpecifiersAgree(k); }
    } else if k :| 0 <= k < |PAIR_SPECIFIERS| && PAIR_SPECIFIERS[k] == token {
      if k < 3 { FirstPairsAgree(k); } else if k < 6 { NextPairsAgree(k); } else { LastPairsAgree(k); }
    } else {
      var k :| 0 <= k < |LETTER_SPECIFIERS| && LETTER_SPECIFIERS[k] == token;
      if k < 5 { FirstLettersAgree(k); } else { LastLettersAgree(k); }
    }
    assert Agree(token);
  }
}
