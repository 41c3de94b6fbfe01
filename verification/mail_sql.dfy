/** The example SQL backend (examples/mail_sql_transformer.rb): a transformer
    that turns a search tree into a WHERE condition over the `subject`, `body`
    and `date` columns, with its bind parameters in placeholder order. */
module MailSql {
  import opened Outcomes
  import opened Ast
  import opened PlaceholderCount
  import opened SqlText
  import T = Transformers

  /** What every callback returns: the SQL text and its bind parameters. */
  datatype Condition = Condition(sql: string, params: seq<string>)

  /** `parse_date(value).to_s`: reads the clock and Ruby's Date library, so
      it is a parameter; an unparseable date is its error. */
  type Resolver = string -> Result<string>

  /** The conditions of the three leaf classes. */
  const KeywordSql := SubjectOrBody("LIKE ?")
  const PhraseSql := SubjectOrBody("= ?")
  const SinceSql := DateBound(">=")
  const UntilSql := DateBound("<=")

  /** Which `visit_group` the transformer has: the one the example defines,
      or the corrected one. Every other callback is the same in both, and
      each recurses through the transformer it belongs to. */
  datatype Version = AsWritten | Corrected

  // ---------------------------------------------------------------------------
  // The callbacks

  /** `visit_keyword`: the value as a prefix of, or anywhere in, subject or body. */
  function VisitKeyword(n: Node): (r: Result<Condition>)
    ensures r.Ok? <==> n.Keyword? || n.NamedArgument?
    ensures r.Ok? ==> r.value == Condition(KeywordSql, [n.value + "%", "%" + n.value + "%"])
    ensures r.Err? ==> r.error == NoMethodError("value")
  {
    var v :- Value(n);
    Ok(Condition(KeywordSql, [v + "%", "%" + v + "%"]))
  }

  /** `visit_exact_phrase`: the phrase equal to subject or body. */
  function VisitExactPhrase(n: Node): (r: Result<Condition>)
    ensures r.Ok? <==> n.ExactPhrase?
    ensures r.Ok? ==> r.value == Condition(PhraseSql, [n.phrase, n.phrase])
    ensures r.Err? ==> r.error == NoMethodError("phrase")
  {
    var p :- Phrase(n);
    Ok(Condition(PhraseSql, [p, p]))
  }

  /** `visit_named_argument`: `since` and `until` bound the date; any other
      name raises ArgumentError. */
  function VisitNamedArgument(n: Node, resolve: Resolver): (r: Result<Condition>)
    ensures r.Ok? ==> n.NamedArgument? && (n.name == "since" || n.name == "until")
    ensures r.Ok? ==> resolve(n.value).Ok? && r.value.params == [resolve(n.value).value]
    ensures r.Ok? ==> r.value.sql == (if n.name == "since" then SinceSql else UntilSql)
    ensures n.NamedArgument? && n.name != "since" && n.name != "until" ==>
      r == Err(ArgumentError("Unknown argument: " + n.name))
  {
    var name :- Name(n);
    if name == "since" then
      var date :- resolve(n.value);
      Ok(Condition(SinceSql, [date]))
    else if name == "until" then
      var date :- resolve(n.value);
      Ok(Condition(UntilSql, [date]))
    else
      Err(ArgumentError("Unknown argument: " + name))
  }

  /** `visit_and` (separator " AND ") and `visit_or` (separator " OR "): the
      children's conditions joined in child order, their parameters
      concatenated in the same order; the first child that fails fails the whole. */
  function Combined(n: Node, separator: string, resolve: Resolver, v: Version): (r: Result<Condition>)
    ensures r.Ok? ==> (n.And? || n.Or?) && r.value == Condition(Join(Texts(n.children, resolve, v), separator), Flatten(ParamLists(n.children, resolve, v)))
    ensures !(n.And? || n.Or?) ==> r == Err(NoMethodError("children"))
    decreases n, 1
  {
    var cs :- Children(n);
    var gathered :- Gather(cs, resolve, v);
    Ok(Condition(Join(gathered.0, separator), gathered.1))
  }

  /** The children's conditions and concatenated parameters, in child order. */
  function Gather(cs: seq<Node>, resolve: Resolver, v: Version): (r: Result<(seq<string>, seq<string>)>)
    ensures r.Ok? ==> r.value == (Texts(cs, resolve, v), Flatten(ParamLists(cs, resolve, v)))
    decreases cs, 1
  {
    if cs == [] then Ok(([], []))
    else
      var init := cs[..|cs| - 1];
      assert forall i :: 0 <= i < |init| ==> init[i] == cs[i];
      var done :- Gather(init, resolve, v);
      var c :- Sql(cs[|cs| - 1], resolve, v);
      FlattenSnoc(ParamLists(init, resolve, v), c.params);
      Ok((done.0 + [c.sql], done.1 + c.params))
  }

  /** Each child's SQL text, in child order (empty for a child that fails). */
  function Texts(cs: seq<Node>, resolve: Resolver, v: Version): (texts: seq<string>)
    ensures |texts| == |cs|
    decreases cs, 0
  {
    if cs == [] then []
    else
      var init := cs[..|cs| - 1];
      assert forall i :: 0 <= i < |init| ==> init[i] == cs[i];
      var last := Sql(cs[|cs| - 1], resolve, v);
      Texts(init, resolve, v) + [if last.Ok? then last.value.sql else ""]
  }

  /** Each child's parameters, in child order (none for a child that fails). */
  function ParamLists(cs: seq<Node>, resolve: Resolver, v: Version): (lists: seq<seq<string>>)
    ensures |lists| == |cs|
    decreases cs, 0
  {
    if cs == [] then []
    else
      var init := cs[..|cs| - 1];
      assert forall i :: 0 <= i < |init| ==> init[i] == cs[i];
      var last := Sql(cs[|cs| - 1], resolve, v);
      ParamLists(init, resolve, v) + [if last.Ok? then last.value.params else []]
  }

  /** The lists one after another, in order. */
  function Flatten(lists: seq<seq<string>>): seq<string> {
    if lists == [] then [] else lists[0] + Flatten(lists[1..])
  }

  lemma {:induction false} FlattenSnoc(lists: seq<seq<string>>, last: seq<string>)
    ensures Flatten(lists + [last]) == Flatten(lists) + last
  {
    if lists == [] {
      assert [] + [last] == [last];
    } else {
      assert (lists + [last])[1..] == lists[1..] + [last];
      FlattenSnoc(lists[1..], last);
    }
  }

  /** `visit_not`: the expression's condition negated, its parameters kept. */
  function VisitNot(n: Node, resolve: Resolver, v: Version): (r: Result<Condition>)
    ensures r.Ok? <==> (n.Not? || n.Group?) && Sql(n.expression, resolve, v).Ok?
    ensures r.Ok? ==> r.value == Condition("NOT (" + Sql(n.expression, resolve, v).value.sql + ")",
                                           Sql(n.expression, resolve, v).value.params)
    ensures !(n.Not? || n.Group?) ==> r == Err(NoMethodError("expression"))
    decreases n, 1
  {
    var e :- Expression(n);
    var c :- Sql(e, resolve, v);
    Ok(Condition("NOT (" + c.sql + ")", c.params))
  }

  /** `visit_group` as intended: the expression's condition in parentheses. */
  function VisitGroup(n: Node, resolve: Resolver): (r: Result<Condition>)
    ensures r.Ok? <==> (n.Not? || n.Group?) && Sql(n.expression, resolve, Corrected).Ok?
    ensures r.Ok? ==> r.value == Condition("(" + Sql(n.expression, resolve, Corrected).value.sql + ")",
                                           Sql(n.expression, resolve, Corrected).value.params)
    ensures !(n.Not? || n.Group?) ==> r == Err(NoMethodError("expression"))
    decreases n, 1
  {
    var e :- Expression(n);
    var c :- Sql(e, resolve, Corrected);
    Ok(Condition("(" + c.sql + ")", c.params))
  }

  /** `visit_group` as written: it asks the node for `child`, which no node
      class defines, so Ruby raises NoMethodError before anything else. */
  function VisitGroupAsWritten(n: Node): (r: Result<Condition>)
    ensures r.Err? && r.error.NoMethodError?
  {
    Err(NoMethodError("child"))
  }

  /** `node.accept(transformer)`: the callback the node's class names
      (lib/exprify/ast.rb), or NotImplementedError for the base class. */
  function Sql(n: Node, resolve: Resolver, v: Version): Result<Condition>
    decreases n, 2
  {
    match n
    case BaseNode => Err(NotImplementedError)
    case And(_) => Combined(n, " AND ", resolve, v)
    case Or(_) => Combined(n, " OR ", resolve, v)
    case Not(_) => VisitNot(n, resolve, v)
    case Keyword(_) => VisitKeyword(n)
    case NamedArgument(_, _) => VisitNamedArgument(n, resolve)
    case Group(_) => if v.Corrected? then VisitGroup(n, resolve) else VisitGroupAsWritten(n)
    case ExactPhrase(_) => VisitExactPhrase(n)
  }

  // ---------------------------------------------------------------------------
  // The transformer object

  /** `MailSqlTransformer.new`: a `Transformers::Base` whose seven callbacks
      are overridden; `visit_group` as written or corrected. */
  function MailSqlTransformer(resolve: Resolver, v: Version): (t: T.Transformer<Condition>)
    ensures t.callbacks.Keys == T.CallbackNames
  {
    T.Transformer(map[
      "visit_keyword" := (n: Node) => VisitKeyword(n),
      "visit_and" := (n: Node) => Combined(n, " AND ", resolve, v),
      "visit_or" := (n: Node) => Combined(n, " OR ", resolve, v),
      "visit_not" := (n: Node) => VisitNot(n, resolve, v),
      "visit_exact_phrase" := (n: Node) => VisitExactPhrase(n),
      "visit_named_argument" := (n: Node) => VisitNamedArgument(n, resolve),
      "visit_group" := (n: Node) => if v.Corrected? then VisitGroup(n, resolve) else VisitGroupAsWritten(n)
    ])
  }

  /** `transform` is `Sql`: every node reaches the callback written for its
      class, and the callbacks recurse through the same transformer. */
  lemma TransformIsSql(resolve: Resolver, v: Version, n: Node)
    ensures T.Transform(MailSqlTransformer(resolve, v), n) == Sql(n, resolve, v)
  {
    var t := MailSqlTransformer(resolve, v);
    match n {
      case BaseNode =>
      case And(_) =>
        assert t.callbacks["visit_and"] == (m: Node) => Combined(m, " AND ", resolve, v);
      case Or(_) =>
        assert t.callbacks["visit_or"] == (m: Node) => Combined(m, " OR ", resolve, v);
      case Not(_) =>
        assert t.callbacks["visit_not"] == (m: Node) => VisitNot(m, resolve, v);
      case Keyword(_) =>
        assert t.callbacks["visit_keyword"] == (m: Node) => VisitKeyword(m);
      case NamedArgument(_, _) =>
        assert t.callbacks["visit_named_argument"] == (m: Node) => VisitNamedArgument(m, resolve);
      case Group(_) =>
        assert t.callbacks["visit_group"] == (m: Node) => if v.Corrected? then VisitGroup(m, resolve) else VisitGroupAsWritten(m);
      case ExactPhrase(_) =>
        assert t.callbacks["visit_exact_phrase"] == (m: Node) => VisitExactPhrase(m);
    }
  }

  // ---------------------------------------------------------------------------
  // The loop in `visit_and` and `visit_or`

  /** `visit_and` / `visit_or` as the source runs them: each child's condition
      is pushed onto `conditions` and its parameters concatenated onto
      `params`, then the conditions are joined. */
  method VisitCombined(n: Node, separator: string, resolve: Resolver, v: Version) returns (r: Result<Condition>)
    ensures r == Combined(n, separator, resolve, v)
  {
    var children := Children(n);
    if children.Err? {
      return Err(children.error);
    }
    var cs := children.value;
    var conditions: seq<string> := [];
    var params: seq<string> := [];
    var i := 0;
    while i < |cs|
      invariant i <= |cs|
      invariant Gather(cs[..i], resolve, v) == Ok((conditions, params))
    {
      var c := T.Transform(MailSqlTransformer(resolve, v), cs[i]);
      GatherNext(cs, i, resolve, v, conditions, params, c);
      if c.Err? {
        return Err(c.error);
      }
      conditions := conditions + [c.value.sql];
      params := params + c.value.params;
      i := i + 1;
    }
    assert cs[..i] == cs;
    return Ok(Condition(Join(conditions, separator), params));
  }

  /** One pass of the loop of `visit_and` / `visit_or`: the child's result
      extends what was gathered, or is the failure of the whole gathering. */
  lemma GatherNext(cs: seq<Node>, i: nat, resolve: Resolver, v: Version,
                   conditions: seq<string>, params: seq<string>, c: Result<Condition>)
    requires i < |cs| && Gather(cs[..i], resolve, v) == Ok((conditions, params))
    requires c == T.Transform(MailSqlTransformer(resolve, v), cs[i])
    ensures c.Ok? ==> Gather(cs[..i + 1], resolve, v) == Ok((conditions + [c.value.sql], params + c.value.params))
    ensures c.Err? ==> Gather(cs, resolve, v) == Err(c.error)
  {
    TransformIsSql(resolve, v, cs[i]);
    GatherStep(cs, i, resolve, v);
    if c.Err? {
      GatherKeepsError(cs, i + 1, resolve, v);
    }
  }

  /** One more child: its condition and parameters follow the earlier ones,
      or its failure is the failure of the longer prefix. */
  lemma GatherStep(cs: seq<Node>, i: nat, resolve: Resolver, v: Version)
    requires i < |cs| && Gather(cs[..i], resolve, v).Ok?
    ensures var done := Gather(cs[..i], resolve, v).value;
      Gather(cs[..i + 1], resolve, v) ==
        match Sql(cs[i], resolve, v)
        case Ok(c) => Ok((done.0 + [c.sql], done.1 + c.params))
        case Err(e) => Err(e)
  {
    var longer := cs[..i + 1];
    assert longer[..|longer| - 1] == cs[..i] && longer[|longer| - 1] == cs[i];
  }

  /** Once a prefix of the children fails, every longer prefix fails with the
      same error: the children after the first failure are never visited. */
  lemma {:induction false} GatherKeepsError(cs: seq<Node>, k: nat, resolve: Resolver, v: Version)
    requires k <= |cs| && Gather(cs[..k], resolve, v).Err?
    ensures Gather(cs, resolve, v) == Gather(cs[..k], resolve, v)
    decreases |cs| - k
  {
    if k < |cs| {
      GatherErrorStep(cs, k, resolve, v);
      GatherKeepsError(cs, k + 1, resolve, v);
    } else {
      assert cs[..k] == cs;
    }
  }

  /** A failed prefix stays failed when one more child is added. */
  lemma GatherErrorStep(cs: seq<Node>, k: nat, resolve: Resolver, v: Version)
    requires k < |cs| && Gather(cs[..k], resolve, v).Err?
    ensures Gather(cs[..k + 1], resolve, v) == Gather(cs[..k], resolve, v)
  {
    var longer := cs[..k + 1];
    assert longer[..|longer| - 1] == cs[..k];
  }

  // ---------------------------------------------------------------------------
  // Every placeholder has its parameter

  /** A keyword and a phrase each bind two parameters, one per column. */
  lemma ColumnPairPlaceholders()
    ensures Placeholders(KeywordSql) == 2 && Placeholders(PhraseSql) == 2
  {
    assert Placeholders("LIKE ?") == 1;
    assert Placeholders("= ?") == 1;
    SubjectOrBodyPlaceholders("LIKE ?");
    SubjectOrBodyPlaceholders("= ?");
  }

  /** A keyword binds its two patterns, one per `?`. */
  lemma KeywordPlaceholders(n: Node)
    requires VisitKeyword(n).Ok?
    ensures Placeholders(VisitKeyword(n).value.sql) == |VisitKeyword(n).value.params|
  {
    ColumnPairPlaceholders();
  }

  /** A phrase binds itself twice, one per `?`. */
  lemma PhrasePlaceholders(n: Node)
    requires VisitExactPhrase(n).Ok?
    ensures Placeholders(VisitExactPhrase(n).value.sql) == |VisitExactPhrase(n).value.params|
  {
    ColumnPairPlaceholders();
  }

  /** A date bound binds the one resolved date. */
  lemma DatePlaceholders(n: Node, resolve: Resolver)
    requires VisitNamedArgument(n, resolve).Ok?
    ensures Placeholders(VisitNamedArgument(n, resolve).value.sql) == |VisitNamedArgument(n, resolve).value.params|
  {
    DateBoundPlaceholders(">=");
    DateBoundPlaceholders("<=");
  }

  /** Every condition the transformer builds has exactly as many `?`
      placeholders as parameters, so the pair can be handed to a prepared
      statement as it is. */
  lemma {:induction false} PlaceholdersMatchParams(n: Node, resolve: Resolver, v: Version)
    requires Sql(n, resolve, v).Ok?
    ensures Placeholders(Sql(n, resolve, v).value.sql) == |Sql(n, resolve, v).value.params|
    decreases n, 3
  {
    match n {
      case And(_) => AndBalanced(n, resolve, v);
      case Or(_) => OrBalanced(n, resolve, v);
      case Not(_) => NotBalanced(n, resolve, v);
      case Group(_) =>
        if v.Corrected? {
          GroupBalanced(n, resolve);
        } else {
          assert false;
        }
      case Keyword(_) => KeywordPlaceholders(n);
      case ExactPhrase(_) => PhrasePlaceholders(n);
      case NamedArgument(_, _) => DatePlaceholders(n, resolve);
      case BaseNode => assert false;
    }
  }

  lemma {:induction false} AndBalanced(n: Node, resolve: Resolver, v: Version)
    requires n.And? && Sql(n, resolve, v).Ok?
    ensures Placeholders(Sql(n, resolve, v).value.sql) == |Sql(n, resolve, v).value.params|
    decreases n, 2
  {
    NoPlaceholders(" AND ");
    CombinedBalanced(n, " AND ", resolve, v);
  }

  lemma {:induction false} OrBalanced(n: Node, resolve: Resolver, v: Version)
    requires n.Or? && Sql(n, resolve, v).Ok?
    ensures Placeholders(Sql(n, resolve, v).value.sql) == |Sql(n, resolve, v).value.params|
    decreases n, 2
  {
    NoPlaceholders(" OR ");
    CombinedBalanced(n, " OR ", resolve, v);
  }

  lemma {:induction false} NotBalanced(n: Node, resolve: Resolver, v: Version)
    requires n.Not? && Sql(n, resolve, v).Ok?
    ensures Placeholders(Sql(n, resolve, v).value.sql) == |Sql(n, resolve, v).value.params|
    decreases n, 2
  {
    var inner := Sql(n.expression, resolve, v).value;
    PlaceholdersMatchParams(n.expression, resolve, v);
    NoPlaceholders("NOT (");
    NoPlaceholders(")");
    Wrapped("NOT (", inner.sql, ")");
  }

  lemma {:induction false} GroupBalanced(n: Node, resolve: Resolver)
    requires n.Group? && Sql(n, resolve, Corrected).Ok?
    ensures Placeholders(Sql(n, resolve, Corrected).value.sql) == |Sql(n, resolve, Corrected).value.params|
    decreases n, 2
  {
    var inner := Sql(n.expression, resolve, Corrected).value;
    PlaceholdersMatchParams(n.expression, resolve, Corrected);
    NoPlaceholders("(");
    NoPlaceholders(")");
    Wrapped("(", inner.sql, ")");
  }

  lemma {:induction false} CombinedBalanced(n: Node, separator: string, resolve: Resolver, v: Version)
    requires n.And? || n.Or?
    requires Placeholders(separator) == 0
    requires Combined(n, separator, resolve, v).Ok?
    ensures Placeholders(Combined(n, separator, resolve, v).value.sql) == |Combined(n, separator, resolve, v).value.params|
    decreases n, 1
  {
    var gathered := Gather(n.children, resolve, v).value;
    GatherBalanced(n.children, resolve, v);
    JoinPlaceholders(gathered.0, separator);
  }

  lemma {:induction false} GatherBalanced(cs: seq<Node>, resolve: Resolver, v: Version)
    requires Gather(cs, resolve, v).Ok?
    ensures TotalPlaceholders(Gather(cs, resolve, v).value.0) == |Gather(cs, resolve, v).value.1|
    decreases cs, 0
  {
    if cs != [] {
      var done := Gather(cs[..|cs| - 1], resolve, v).value;
      var c := Sql(cs[|cs| - 1], resolve, v).value;
      GatherBalanced(cs[..|cs| - 1], resolve, v);
      PlaceholdersMatchParams(cs[|cs| - 1], resolve, v);
      TotalPlaceholdersAppend(done.0, c.sql);
    }
  }

  // ---------------------------------------------------------------------------
  // Which trees the transformer accepts

  /** The trees the transformer turns into SQL: no bare base node, every
      named argument is `since` or `until` with a date the resolver reads,
      and, with `visit_group` as written, no group anywhere. */
  predicate Supported(n: Node, resolve: Resolver, v: Version)
    decreases n
  {
    match n
    case BaseNode => false
    case And(cs) => forall i :: 0 <= i < |cs| ==> Supported(cs[i], resolve, v)
    case Or(cs) => forall i :: 0 <= i < |cs| ==> Supported(cs[i], resolve, v)
    case Not(e) => Supported(e, resolve, v)
    case Keyword(_) => true
    case NamedArgument(name, value) => (name == "since" || name == "until") && resolve(value).Ok?
    case Group(e) => v.Corrected? && Supported(e, resolve, v)
    case ExactPhrase(_) => true
  }

  /** The transformer succeeds exactly on the supported trees. */
  lemma {:induction false} SucceedsIffSupported(n: Node, resolve: Resolver, v: Version)
    ensures Sql(n, resolve, v).Ok? <==> Supported(n, resolve, v)
    decreases n, 1
  {
    match n {
      case And(cs) =>
        GatherSucceedsIff(cs, resolve, v);
      case Or(cs) =>
        GatherSucceedsIff(cs, resolve, v);
      case Not(e) =>
        SucceedsIffSupported(e, resolve, v);
      case Group(e) =>
        if v.Corrected? {
          SucceedsIffSupported(e, resolve, v);
        }
      case BaseNode =>
      case Keyword(_) =>
      case NamedArgument(_, _) =>
      case ExactPhrase(_) =>
    }
  }

  lemma {:induction false} GatherSucceedsIff(cs: seq<Node>, resolve: Resolver, v: Version)
    ensures Gather(cs, resolve, v).Ok? <==> forall i :: 0 <= i < |cs| ==> Supported(cs[i], resolve, v)
    decreases cs, 0
  {
    if cs != [] {
      var init := cs[..|cs| - 1];
      var last := cs[|cs| - 1];
      var okInit := Gather(init, resolve, v).Ok?;
      var okLast := Sql(last, resolve, v).Ok?;
      assert Gather(cs, resolve, v).Ok? <==> okInit && okLast by {
        GatherOkStep(cs, resolve, v);
      }
      assert okInit <==> forall i :: 0 <= i < |init| ==> Supported(init[i], resolve, v) by {
        GatherSucceedsIff(init, resolve, v);
      }
      assert okLast <==> Supported(last, resolve, v) by {
        SucceedsIffSupported(last, resolve, v);
      }
      SupportedSnoc(cs, init, resolve, v);
    }
  }

  lemma SupportedSnoc(cs: seq<Node>, init: seq<Node>, resolve: Resolver, v: Version)
    requires cs != [] && init == cs[..|cs| - 1]
    ensures (forall i :: 0 <= i < |cs| ==> Supported(cs[i], resolve, v))
      <==> (forall i :: 0 <= i < |init| ==> Supported(init[i], resolve, v)) && Supported(cs[|cs| - 1], resolve, v)
  {
    assert forall i :: 0 <= i < |init| ==> init[i] == cs[i];
  }

  /** Gathering succeeds when the earlier children's gathering and the last
      child's translation both do. */
  lemma GatherOkStep(cs: seq<Node>, resolve: Resolver, v: Version)
    requires cs != []
    ensures Gather(cs, resolve, v).Ok?
      <==> Gather(cs[..|cs| - 1], resolve, v).Ok? && Sql(cs[|cs| - 1], resolve, v).Ok?
  {
  }

  /** `visit_and` and `visit_or` succeed exactly on an AND or OR node whose
      every child translates. */
  lemma CombinedSucceedsIff(n: Node, separator: string, resolve: Resolver, v: Version)
    ensures Combined(n, separator, resolve, v).Ok?
      <==> (n.And? || n.Or?) && forall i :: 0 <= i < |n.children| ==> Sql(n.children[i], resolve, v).Ok?
  {
    if n.And? || n.Or? {
      GatherSucceedsIff(n.children, resolve, v);
      forall i | 0 <= i < |n.children| {
        SucceedsIffSupported(n.children[i], resolve, v);
      }
    }
  }

  /** Condition `i` of the joined text is the SQL of child `i`. */
  lemma {:induction false} TextsAt(cs: seq<Node>, resolve: Resolver, v: Version)
    ensures forall i :: 0 <= i < |cs| && Sql(cs[i], resolve, v).Ok? ==>
      Texts(cs, resolve, v)[i] == Sql(cs[i], resolve, v).value.sql
  {
    if cs != [] {
      var init := cs[..|cs| - 1];
      TextsAt(init, resolve, v);
      var all := Texts(cs, resolve, v);
      assert all == Texts(init, resolve, v) + [all[|cs| - 1]];
      forall i | 0 <= i < |cs| && Sql(cs[i], resolve, v).Ok?
        ensures all[i] == Sql(cs[i], resolve, v).value.sql
      {
        if i < |init| {
          assert init[i] == cs[i];
        }
      }
    }
  }

  /** Parameter list `i` of the flattened parameters is the parameters of
      child `i`. */
  lemma {:induction false} ParamListsAt(cs: seq<Node>, resolve: Resolver, v: Version)
    ensures forall i :: 0 <= i < |cs| && Sql(cs[i], resolve, v).Ok? ==>
      ParamLists(cs, resolve, v)[i] == Sql(cs[i], resolve, v).value.params
  {
    if cs != [] {
      var init := cs[..|cs| - 1];
      ParamListsAt(init, resolve, v);
      var all := ParamLists(cs, resolve, v);
      assert all == ParamLists(init, resolve, v) + [all[|cs| - 1]];
      forall i | 0 <= i < |cs| && Sql(cs[i], resolve, v).Ok?
        ensures all[i] == Sql(cs[i], resolve, v).value.params
      {
        if i < |init| {
          assert init[i] == cs[i];
        }
      }
    }
  }

  // ---------------------------------------------------------------------------
  // `visit_group` as written

  /** Whether a group occurs anywhere in the tree. */
  predicate ContainsGroup(n: Node)
    decreases n, 1
  {
    match n
    case And(cs) => AnyContainsGroup(cs)
    case Or(cs) => AnyContainsGroup(cs)
    case Not(e) => ContainsGroup(e)
    case Group(_) => true
    case _ => false
  }

  /** Whether a group occurs in any of the trees. */
  predicate AnyContainsGroup(cs: seq<Node>)
    decreases cs, 0
  {
    cs != [] && (AnyContainsGroup(cs[..|cs| - 1]) || ContainsGroup(cs[|cs| - 1]))
  }

  /** On a tree the corrected transformer accepts, the transformer as written
      raises NoMethodError as soon as a group occurs anywhere, at the root or
      nested under AND, OR or NOT; on a tree without groups the two agree. */
  lemma {:induction false} GroupAsWrittenFails(n: Node, resolve: Resolver)
    requires Supported(n, resolve, Corrected)
    ensures ContainsGroup(n) ==> Sql(n, resolve, AsWritten) == Err(NoMethodError("child"))
    ensures !ContainsGroup(n) ==> Sql(n, resolve, AsWritten) == Sql(n, resolve, Corrected)
    decreases n, 1
  {
    match n {
      case And(cs) =>
        GatherAsWritten(cs, resolve);
      case Or(cs) =>
        GatherAsWritten(cs, resolve);
      case Not(e) =>
        GroupAsWrittenFails(e, resolve);
      case _ =>
    }
  }

  lemma {:induction false} GatherAsWritten(cs: seq<Node>, resolve: Resolver)
    requires forall i :: 0 <= i < |cs| ==> Supported(cs[i], resolve, Corrected)
    ensures Gather(cs, resolve, AsWritten)
      == if AnyContainsGroup(cs) then Err(NoMethodError("child")) else Gather(cs, resolve, Corrected)
    decreases cs, 0
  {
    if cs != [] {
      var init := cs[..|cs| - 1];
      assert forall i :: 0 <= i < |init| ==> init[i] == cs[i];
      GatherAsWritten(init, resolve);
      GroupAsWrittenFails(cs[|cs| - 1], resolve);
      GatherSucceedsIff(init, resolve, Corrected);
    }
  }

  /** `(ruby)` and any other grouped keyword: as written it raises,
      corrected it is the keyword's condition in parentheses. */
  lemma GroupedKeyword(resolve: Resolver, v: string)
    ensures T.Transform(MailSqlTransformer(resolve, AsWritten), Group(Keyword(v)))
      == Err(NoMethodError("child"))
    ensures T.Transform(MailSqlTransformer(resolve, Corrected), Group(Keyword(v)))
      == Ok(Condition("(" + KeywordSql + ")", [v + "%", "%" + v + "%"]))
  {
    TransformIsSql(resolve, AsWritten, Group(Keyword(v)));
    TransformIsSql(resolve, Corrected, Group(Keyword(v)));
  }

  /** `a (b)`: a group below the root raises too, as written, when the
      AND reaches it; corrected, the group's condition follows the keyword's. */
  lemma NestedGroup(resolve: Resolver, a: string, b: string)
    ensures T.Transform(MailSqlTransformer(resolve, AsWritten), And([Keyword(a), Group(Keyword(b))]))
      == Err(NoMethodError("child"))
    ensures T.Transform(MailSqlTransformer(resolve, Corrected), And([Keyword(a), Group(Keyword(b))]))
      == Ok(Condition(KeywordSql + " AND (" + KeywordSql + ")", [a + "%", "%" + a + "%", b + "%", "%" + b + "%"]))
  {
    var n := And([Keyword(a), Group(Keyword(b))]);
    TransformIsSql(resolve, AsWritten, n);
    TransformIsSql(resolve, Corrected, n);
    NestedGroupAsWritten(resolve, a, b);
    NestedGroupCorrected(resolve, a, b);
  }

  lemma NestedGroupAsWritten(resolve: Resolver, a: string, b: string)
    ensures Sql(And([Keyword(a), Group(Keyword(b))]), resolve, AsWritten) == Err(NoMethodError("child"))
  {
    var cs := [Keyword(a), Group(Keyword(b))];
    var init := cs[..1];
    assert init[..0] == [] && init[0] == cs[0] && cs[..|cs| - 1] == init;
    assert Gather(init, resolve, AsWritten).Ok?;
    assert Gather(cs, resolve, AsWritten) == Err(NoMethodError("child"));
  }

  lemma NestedGroupCorrected(resolve: Resolver, a: string, b: string)
    ensures Sql(And([Keyword(a), Group(Keyword(b))]), resolve, Corrected)
      == Ok(Condition(KeywordSql + " AND (" + KeywordSql + ")", [a + "%", "%" + a + "%", b + "%", "%" + b + "%"]))
  {
    var cs := [Keyword(a), Group(Keyword(b))];
    var first := Condition(KeywordSql, [a + "%", "%" + a + "%"]);
    var second := Condition("(" + KeywordSql + ")", [b + "%", "%" + b + "%"]);
    assert Sql(cs[1], resolve, Corrected) == Ok(second);
    PairCombined(cs, " AND ", resolve, Corrected, first, second);
    assert first.params + second.params == [a + "%", "%" + a + "%", b + "%", "%" + b + "%"];
    assert " AND " + "(" == " AND (";
    assert first.sql + " AND " + second.sql == KeywordSql + " AND (" + KeywordSql + ")";
  }

  // ---------------------------------------------------------------------------
  // The documented examples (examples/mail_sql_transformer_spec.rb)

  /** Two children that translate: their conditions joined by the separator,
      their parameters one after the other. */
  lemma PairCombined(cs: seq<Node>, separator: string, resolve: Resolver, v: Version, first: Condition, second: Condition)
    requires |cs| == 2
    requires Sql(cs[0], resolve, v) == Ok(first) && Sql(cs[1], resolve, v) == Ok(second)
    ensures Combined(And(cs), separator, resolve, v) == Ok(Condition(first.sql + separator + second.sql, first.params + second.params))
  {
    var init := cs[..1];
    assert init[..0] == [] && init[0] == cs[0] && cs[..|cs| - 1] == init;
    assert Gather(init, resolve, v).Ok?;
    assert Gather(cs, resolve, v).Ok?;
    assert Texts(init, resolve, v) == [first.sql];
    assert ParamLists(init, resolve, v) == [first.params];
    var texts := Texts(cs, resolve, v);
    var lists := ParamLists(cs, resolve, v);
    assert texts == [first.sql, second.sql];
    assert lists == [first.params, second.params];
    assert Join(texts, separator) == first.sql + separator + second.sql by {
      assert texts[1..] == [second.sql];
    }
    assert Flatten(lists) == first.params + second.params by {
      assert lists[1..] == [second.params];
      assert lists[1..][1..] == [];
    }
    assert Children(And(cs)) == Ok(cs);
  }

  /** `ruby gem`: two keywords in a row, the conditions joined by AND and
      each keyword bound as a prefix and as a substring, in order. */
  lemma AndOfKeywords(resolve: Resolver, v: Version, a: string, b: string)
    ensures Sql(And([Keyword(a), Keyword(b)]), resolve, v) == Ok(Condition(
      KeywordSql + " AND " + KeywordSql, [a + "%", "%" + a + "%", b + "%", "%" + b + "%"]))
  {
    var cs := [Keyword(a), Keyword(b)];
    var first := Condition(KeywordSql, [a + "%", "%" + a + "%"]);
    var second := Condition(KeywordSql, [b + "%", "%" + b + "%"]);
    assert Sql(cs[0], resolve, v) == Ok(first);
    assert Sql(cs[1], resolve, v) == Ok(second);
    PairCombined(cs, " AND ", resolve, v, first, second);
    assert first.params + second.params == [a + "%", "%" + a + "%", b + "%", "%" + b + "%"];
  }

  /** `-ruby`: the keyword's condition negated, its parameters kept. */
  lemma NotOfKeyword(resolve: Resolver, v: Version, w: string)
    ensures Sql(Not(Keyword(w)), resolve, v)
      == Ok(Condition("NOT (" + KeywordSql + ")", [w + "%", "%" + w + "%"]))
  {
  }

  /** `since:2024-01-01` and `until:2024-12-31` bind whatever the resolver
      reads from the value. */
  lemma DateBounds(resolve: Resolver, v: Version, w: string)
    requires resolve(w).Ok?
    ensures Sql(NamedArgument("since", w), resolve, v) == Ok(Condition(SinceSql, [resolve(w).value]))
    ensures Sql(NamedArgument("until", w), resolve, v) == Ok(Condition(UntilSql, [resolve(w).value]))
  {
    assert "until" != "since" by {
      assert "until"[0] != "since"[0];
    }
  }
}
