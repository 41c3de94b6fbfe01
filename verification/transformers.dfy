/** The transformer protocol (lib/exprify/transformers.rb, and its documented
    twin lib/exprify/transformers/base.rb): `transform` hands the tree to the
    root's `accept`, which sends back the one callback its class names. */
module Transformers {
  import opened Outcomes
  import opened Ast

  /** A transformer, as the methods it answers to. Ruby looks a callback up by
      name when `accept` sends it, and a name the receiver does not define
      raises NoMethodError. `Base` keeps no state, so a transformer is its
      callbacks and `transform` is a function of them and the tree. */
  datatype Transformer<R> = Transformer(callbacks: map<string, Node -> Result<R>>)

  /** The callbacks `Transformers::Base` defines, one per node subclass. */
  const CallbackNames: set<string> :=
    {"visit_and", "visit_or", "visit_not", "visit_keyword",
     "visit_named_argument", "visit_group", "visit_exact_phrase"}

  /** The callback each class's `accept` sends (lib/exprify/ast.rb); the base
      class sends none. */
  function CallbackOf(n: Node): (name: Option<string>)
    ensures name.Some? <==> !n.BaseNode?
    ensures name.Some? ==> name.value in CallbackNames
  {
    match n
    case BaseNode => None
    case And(_) => Some("visit_and")
    case Or(_) => Some("visit_or")
    case Not(_) => Some("visit_not")
    case Keyword(_) => Some("visit_keyword")
    case NamedArgument(_, _) => Some("visit_named_argument")
    case Group(_) => Some("visit_group")
    case ExactPhrase(_) => Some("visit_exact_phrase")
  }

  /** Sends the named callback with the node; a missing one raises NoMethodError. */
  function Send<R>(t: Transformer<R>, name: string, n: Node): (r: Result<R>)
    ensures name !in t.callbacks ==> r == Err(NoMethodError(name))
  {
    if name in t.callbacks then t.callbacks[name](n) else Err(NoMethodError(name))
  }

  /** `accept`: the base class raises NotImplementedError; each subclass sends
      its callback with the node itself. */
  function Accept<R>(n: Node, t: Transformer<R>): (r: Result<R>)
    ensures n.BaseNode? ==> r == Err(NotImplementedError)
  {
    match CallbackOf(n)
    case None => Err(NotImplementedError)
    case Some(name) => Send(t, name, n)
  }

  /** `transform(ast)`, which is `ast.accept(self)`. */
  function Transform<R>(t: Transformer<R>, ast: Node): Result<R> {
    Accept(ast, t)
  }

  /** `Transformers::Base`: all seven callbacks raise NotImplementedError. */
  function Base<R>(): (t: Transformer<R>)
    ensures t.callbacks.Keys == CallbackNames
  {
    Transformer(map name | name in CallbackNames :: (n: Node) => Err(NotImplementedError))
  }

  /** A transformer whose every callback returns the node it was sent. */
  function Echo(): (t: Transformer<Node>)
    ensures t.callbacks.Keys == CallbackNames
  {
    Transformer(map name | name in CallbackNames :: (n: Node) => Ok(n))
  }

  // ---------------------------------------------------------------------------
  // Properties of the protocol

  /** Each subclass has a callback of its own: two nodes send the same one
      exactly when they are of the same class. */
  lemma OneCallbackPerClass(m: Node, n: Node)
    requires !m.BaseNode? && !n.BaseNode?
    ensures CallbackOf(m) == CallbackOf(n) <==> ClassName(m) == ClassName(n)
  {
  }

  /** Every callback `Base` defines is sent by some class. */
  lemma EveryCallbackIsSent(name: string)
    requires name in CallbackNames
    ensures exists n :: CallbackOf(n) == Some(name)
  {
    if name == "visit_and" {
      assert CallbackOf(And([])) == Some(name);
    } else if name == "visit_or" {
      assert CallbackOf(Or([])) == Some(name);
    } else if name == "visit_not" {
      assert CallbackOf(Not(BaseNode)) == Some(name);
    } else if name == "visit_keyword" {
      assert CallbackOf(Keyword("")) == Some(name);
    } else if name == "visit_named_argument" {
      assert CallbackOf(NamedArgument("", "")) == Some(name);
    } else if name == "visit_group" {
      assert CallbackOf(Group(BaseNode)) == Some(name);
    } else {
      assert CallbackOf(ExactPhrase("")) == Some(name);
    }
  }

  /** `accept` consults one callback only: transformers that agree on the
      callback a node's class names give the same result for that node. */
  lemma AcceptReadsOneCallback<R>(n: Node, t: Transformer<R>, u: Transformer<R>)
    requires CallbackOf(n).Some? ==>
      var name := CallbackOf(n).value;
      (name in t.callbacks <==> name in u.callbacks) &&
      (name in t.callbacks ==> t.callbacks[name] == u.callbacks[name])
    ensures Accept(n, t) == Accept(n, u)
  {
  }

  /** `accept` passes the node itself: a transformer that echoes its argument
      gets back the very node it transformed. */
  lemma AcceptPassesItself(n: Node)
    ensures Transform(Echo(), n) == if n.BaseNode? then Err(NotImplementedError) else Ok(n)
  {
    if !n.BaseNode? {
      var name := CallbackOf(n).value;
      assert name in Echo().callbacks;
    }
  }

  /** `Base#transform` raises NotImplementedError on every tree. */
  lemma BaseRaisesOnEveryTree<R>(n: Node)
    ensures Transform(Base<R>(), n) == Err(NotImplementedError)
  {
    if !n.BaseNode? {
      var name := CallbackOf(n).value;
      assert name in Base<R>().callbacks;
    }
  }

  // ---------------------------------------------------------------------------
  // The routing of the per-class files under lib/exprify/ast/

  /** The callback `accept` sends in the per-class files: not_node.rb and
      keyword_node.rb send `transform_not` and `transform_keyword`, names no
      transformer defines; the others agree with lib/exprify/ast.rb. */
  function CallbackOfPerClassFiles(n: Node): Option<string> {
    match n
    case Not(_) => Some("transform_not")
    case Keyword(_) => Some("transform_keyword")
    case _ => CallbackOf(n)
  }

  function AcceptAsPerClassFiles<R>(n: Node, t: Transformer<R>): Result<R> {
    match CallbackOfPerClassFiles(n)
    case None => Err(NotImplementedError)
    case Some(name) => Send(t, name, n)
  }

  /** With the per-class files' routing, a transformer that answers to the
      seven callbacks raises NoMethodError on every `Not` and `Keyword` node,
      and agrees with lib/exprify/ast.rb everywhere else. */
  lemma PerClassRoutingMisses<R>(n: Node, t: Transformer<R>)
    requires t.callbacks.Keys == CallbackNames
    ensures n.Not? ==> AcceptAsPerClassFiles(n, t) == Err(NoMethodError("transform_not"))
    ensures n.Keyword? ==> AcceptAsPerClassFiles(n, t) == Err(NoMethodError("transform_keyword"))
    ensures !n.Not? && !n.Keyword? ==> AcceptAsPerClassFiles(n, t) == Accept(n, t)
  {
    assert "transform_not" !in CallbackNames && "transform_keyword" !in CallbackNames;
  }

  /** The keyword `ruby`: routed as in lib/exprify/ast.rb it reaches the
      callback; routed as in keyword_node.rb it raises. */
  lemma PerClassRoutingOnKeyword()
    ensures Transform(Echo(), Keyword("ruby")) == Ok(Keyword("ruby"))
    ensures AcceptAsPerClassFiles(Keyword("ruby"), Echo()) == Err(NoMethodError("transform_keyword"))
  {
    AcceptPassesItself(Keyword("ruby"));
    PerClassRoutingMisses(Keyword("ruby"), Echo());
  }
}
