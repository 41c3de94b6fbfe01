/** The `?` placeholders of a piece of SQL, counted. */
module PlaceholderCount {
  import opened Ast

  /** The number of `?` placeholders in a piece of SQL. */
  function Placeholders(sql: string): nat {
    if sql == [] then 0 else (if sql[0] == '?' then 1 else 0) + Placeholders(sql[1..])
  }

  /** The placeholders of several pieces of SQL together. */
  function TotalPlaceholders(parts: seq<string>): nat {
    if parts == [] then 0 else Placeholders(parts[0]) + TotalPlaceholders(parts[1..])
  }

  lemma {:induction false} TotalPlaceholdersAppend(parts: seq<string>, sql: string)
    ensures TotalPlaceholders(parts + [sql]) == TotalPlaceholders(parts) + Placeholders(sql)
  {
    if parts == [] {
      assert [] + [sql] == [sql];
      assert [sql][1..] == [];
    } else {
      assert (parts + [sql])[1..] == parts[1..] + [sql];
      TotalPlaceholdersAppend(parts[1..], sql);
    }
  }

  /** Joining with a separator that holds no placeholder adds none. */
  lemma {:induction false} JoinPlaceholders(parts: seq<string>, separator: string)
    requires Placeholders(separator) == 0
    ensures Placeholders(Join(parts, separator)) == TotalPlaceholders(parts)
  {
    if |parts| == 1 {
      assert parts[1..] == [];
    } else if |parts| > 1 {
      JoinPlaceholders(parts[1..], separator);
      PlaceholdersConcat(parts[0], separator);
      PlaceholdersConcat(parts[0] + separator, Join(parts[1..], separator));
    }
  }

  lemma {:induction false} PlaceholdersConcat(a: string, b: string)
    ensures Placeholders(a + b) == Placeholders(a) + Placeholders(b)
  {
    if a == [] {
      assert a + b == b;
    } else {
      assert (a + b)[1..] == a[1..] + b;
      PlaceholdersConcat(a[1..], b);
    }
  }

  lemma {:induction false} NoPlaceholders(s: string)
    requires '?' !in s
    ensures Placeholders(s) == 0
  {
    if s != [] {
      assert s[0] in s;
      NoPlaceholders(s[1..]);
    }
  }

  /** Text around a condition that holds no placeholder adds none. */
  lemma Wrapped(before: string, sql: string, after: string)
    requires Placeholders(before) == 0 && Placeholders(after) == 0
    ensures Placeholders(before + sql + after) == Placeholders(sql)
  {
    PlaceholdersConcat(before, sql);
    PlaceholdersConcat(before + sql, after);
  }

  /** Text around two copies of a test, holding no placeholder itself. */
  lemma Twice(before: string, test: string, between: string, after: string)
    requires Placeholders(before) == 0 && Placeholders(between) == 0 && Placeholders(after) == 0
    ensures Placeholders(before + test + between + test + after) == 2 * Placeholders(test)
  {
    PlaceholdersConcat(before, test);
    PlaceholdersConcat(before + test, between);
    PlaceholdersConcat(before + test + between, test);
    PlaceholdersConcat(before + test + between + test, after);
  }
}

/** The text of the example SQL backend's conditions, and the count of the
    `?` placeholders in it (examples/mail_sql_transformer.rb). */
module SqlText {
  import opened PlaceholderCount

  /** A test applied to the subject or the body: `(subject <test> OR body <test>)`. */
  function SubjectOrBody(test: string): string {
    "(subject " + test + " OR body " + test + ")"
  }

  /** The date compared with one bound: `date <comparison> ?`. */
  function DateBound(comparison: string): string {
    "date " + comparison + " ?"
  }

  /** Testing both columns binds the test's parameters twice. */
  lemma SubjectOrBodyPlaceholders(test: string)
    ensures Placeholders(SubjectOrBody(test)) == 2 * Placeholders(test)
  {
    SubjectTextIsPlain();
    BodyTextIsPlain();
    ClosingTextIsPlain();
    Twice("(subject ", test, " OR body ", ")");
  }

  /** The text around the two tests holds no placeholder; one lemma per
      piece keeps each proof about a single literal. */
  lemma SubjectTextIsPlain()
    ensures Placeholders("(subject ") == 0
  {
    NoPlaceholders("(subject ");
  }

  lemma BodyTextIsPlain()
    ensures Placeholders(" OR body ") == 0
  {
    NoPlaceholders(" OR body ");
  }

  lemma ClosingTextIsPlain()
    ensures Placeholders(")") == 0
  {
    NoPlaceholders(")");
  }

  /** A date bound binds one parameter, the date. */
  lemma DateBoundPlaceholders(comparison: string)
    requires '?' !in comparison
    ensures Placeholders(DateBound(comparison)) == 1
  {
    NoPlaceholders("date ");
    NoPlaceholders(comparison);
    assert Placeholders(" ?") == 1;
    PlaceholdersConcat("date ", comparison);
    PlaceholdersConcat("date " + comparison, " ?");
  }
}
