/** The recursive-descent parser of `Exprify::Parser` (lib/exprify/parser.rb:21-27,
    121-198): tokens in, syntax tree out.

    The grammar it implements, one function per rule:
      expression := term ("OR" term)*
      term       := unit+                    (up to eof, `)` or an operator)
      unit       := "-" factor | factor
      factor     := keyword | phrase | named_arg | "(" expression ")"
    A single term or unit is returned as it is; two or more become an
    `Or` or an `And`. */
module Parsing {
  import opened Outcomes
  import opened Ast
  import Tok = Tokenizer

  /** A parsed item and the position of the first token after it. */
  datatype Parsed<+T> = Parsed(node: T, next: nat)

  /** The token streams `tokenize` produces: one `eof`, at the end, and no
      operator but `OR`. */
  predicate Wellformed(ts: seq<Tok.Token>) {
    Tok.SingleEofAtEnd(ts) && Tok.OperatorsAreOr(ts)
  }

  /** The tokens at which `parse_term` stops collecting. */
  predicate EndsTerm(t: Tok.Token) {
    t.Eof? || t.RParen? || t.Operator?
  }

  /** The token on which `parse_expression` continues with another term. */
  predicate IsOr(t: Tok.Token) {
    t.Operator? && t.text == "OR"
  }

  // ---------------------------------------------------------------------------
  // The parse functions

  /** `parse_expression`: a term, then more terms each after `OR`; one term is
      returned as it is, several become an `Or` in source order. It stops at a
      token that is not `OR` and that ends a term. */
  function ExpressionAt(ts: seq<Tok.Token>, pos: nat): (r: Result<Parsed<Node>>)
    requires Wellformed(ts) && pos < |ts|
    ensures r.Ok? ==> pos < r.value.next < |ts|
    ensures r.Ok? ==> EndsTerm(ts[r.value.next]) && !IsOr(ts[r.value.next])
    decreases |ts| - pos, 4
  {
    var first :- TermAt(ts, pos);
    var more :- MoreTermsAt(ts, first.next);
    var terms := [first.node] + more.node;
    Ok(Parsed(if |terms| == 1 then terms[0] else Or(terms), more.next))
  }

  /** The loop of `parse_expression`: the terms that follow, each after an `OR`. */
  function MoreTermsAt(ts: seq<Tok.Token>, pos: nat): (r: Result<Parsed<seq<Node>>>)
    requires Wellformed(ts) && pos < |ts|
    requires EndsTerm(ts[pos])
    ensures r.Ok? ==> pos <= r.value.next < |ts|
    ensures r.Ok? ==> EndsTerm(ts[r.value.next]) && !IsOr(ts[r.value.next])
    decreases |ts| - pos, 2
  {
    if IsOr(ts[pos]) then
      var term :- TermAt(ts, pos + 1);
      var more :- MoreTermsAt(ts, term.next);
      Ok(Parsed([term.node] + more.node, more.next))
    else Ok(Parsed([], pos))
  }

  /** `parse_term`: the units up to a token that ends a term; none is an error,
      one is returned as it is, several become an `And` in source order. */
  function TermAt(ts: seq<Tok.Token>, pos: nat): (r: Result<Parsed<Node>>)
    requires Wellformed(ts) && pos < |ts|
    ensures r.Ok? ==> pos < r.value.next < |ts| && EndsTerm(ts[r.value.next])
    ensures EndsTerm(ts[pos]) ==> r == Err(ExprifyError("No valid expression found"))
    decreases |ts| - pos, 3
  {
    var units :- UnitsAt(ts, pos);
    if |units.node| == 1 then Ok(Parsed(units.node[0], units.next))
    else if units.node == [] then Err(ExprifyError("No valid expression found"))
    else Ok(Parsed(And(units.node), units.next))
  }

  /** The loop of `parse_term`: units up to the first token that ends a term. */
  function UnitsAt(ts: seq<Tok.Token>, pos: nat): (r: Result<Parsed<seq<Node>>>)
    requires Wellformed(ts) && pos < |ts|
    ensures r.Ok? ==> pos <= r.value.next < |ts| && EndsTerm(ts[r.value.next])
    ensures r.Ok? && r.value.node == [] ==> r.value.next == pos
    ensures EndsTerm(ts[pos]) ==> r == Ok(Parsed([], pos))
    decreases |ts| - pos, 2
  {
    if EndsTerm(ts[pos]) then Ok(Parsed([], pos))
    else
      var unit :- UnitAt(ts, pos);
      var more :- UnitsAt(ts, unit.next);
      Ok(Parsed([unit.node] + more.node, more.next))
  }

  /** One pass of the `parse_term` loop: `-` wraps the following factor in a
      `Not`; any other token starts a factor. */
  function UnitAt(ts: seq<Tok.Token>, pos: nat): (r: Result<Parsed<Node>>)
    requires Wellformed(ts) && pos < |ts|
    ensures r.Ok? ==> pos < r.value.next < |ts|
    decreases |ts| - pos, 1
  {
    if ts[pos].Not? then
      var factor :- FactorAt(ts, pos + 1);
      Ok(Parsed(Not(factor.node), factor.next))
    else FactorAt(ts, pos)
  }

  /** `parse_factor`: a keyword, phrase or named argument is one token; `(`
      opens an expression that `)` must close; anything else is an error. */
  function FactorAt(ts: seq<Tok.Token>, pos: nat): (r: Result<Parsed<Node>>)
    requires Wellformed(ts) && pos < |ts|
    ensures r.Ok? ==> pos < r.value.next < |ts|
    ensures r.Ok? ==> ts[pos].Keyword? || ts[pos].Phrase? || ts[pos].NamedArg? || ts[pos].LParen?
    ensures ts[pos].RParen? ==> r == Err(ExprifyError("Unexpected closing parenthesis"))
    ensures ts[pos].Eof? ==> r == Err(ExprifyError("Unexpected end of input"))
    ensures ts[pos].Not? || ts[pos].Operator? ==> r == Err(ExprifyError("Unexpected token: " + Tok.KindName(ts[pos])))
    decreases |ts| - pos, 0
  {
    match ts[pos]
    case Keyword(v) => Ok(Parsed(Keyword(v), pos + 1))
    case Phrase(p) => Ok(Parsed(ExactPhrase(p), pos + 1))
    case NamedArg(name, arg) => Ok(Parsed(NamedArgument(name, arg), pos + 1))
    case LParen =>
      var inner :- ExpressionAt(ts, pos + 1);
      var next :- ExpectAt(ts, inner.next, "rparen");
      Ok(Parsed(Group(inner.node), next))
    case RParen => Err(ExprifyError("Unexpected closing parenthesis"))
    case Eof => Err(ExprifyError("Unexpected end of input"))
    case _ => Err(ExprifyError("Unexpected token: " + Tok.KindName(ts[pos])))
  }

  /** `expect`: the current token must be of the given kind; it is consumed. */
  function ExpectAt(ts: seq<Tok.Token>, pos: nat, kind: string): (r: Result<nat>)
    requires pos < |ts|
    ensures r.Ok? <==> Tok.KindName(ts[pos]) == kind
    ensures r.Ok? ==> r.value == pos + 1
    ensures r.Err? ==> r.error == ExprifyError("Expected " + kind + ", got " + Tok.KindName(ts[pos]))
  {
    if Tok.KindName(ts[pos]) != kind then Err(ExprifyError("Expected " + kind + ", got " + Tok.KindName(ts[pos])))
    else Ok(pos + 1)
  }

  /** The tree of a whole token stream; whatever follows the expression is
      not looked at. */
  function ParseTokens(ts: seq<Tok.Token>): (r: Result<Node>)
    requires Wellformed(ts)
  {
    var p :- ExpressionAt(ts, 0);
    Ok(p.node)
  }

  /** The characters `String#strip` removes: `/\s/` and NUL. */
  predicate IsStripped(c: char) {
    Tok.IsSpace(c) || c == '\0'
  }

  /** `input.strip.empty?`. */
  predicate Blank(s: string) {
    forall i :: 0 <= i < |s| ==> IsStripped(s[i])
  }

  /** `parse` (parser.rb:21-27): nil or blank input is refused, otherwise the
      tokens of the input are parsed from the first. */
  function ParseOf(input: Option<string>): (r: Result<Node>)
    ensures input.None? || Blank(input.value) ==> r == Err(ExprifyError("Empty input"))
  {
    match input
    case None => Err(ExprifyError("Empty input"))
    case Some(s) =>
      if Blank(s) then Err(ExprifyError("Empty input"))
      else
        var ts :- Tok.Tokens(s);
        ParseTokens(ts)
  }

  // ---------------------------------------------------------------------------
  // The parser object

  /** The result of a parse step without its position. */
  function NodeOf<T>(r: Result<Parsed<T>>): Result<T> {
    match r
    case Ok(p) => Ok(p.node)
    case Err(e) => Err(e)
  }

  /** A list parse continued after `prefix` has been collected. */
  function After(prefix: seq<Node>, r: Result<Parsed<seq<Node>>>): Result<Parsed<seq<Node>>> {
    match r
    case Ok(p) => Ok(Parsed(prefix + p.node, p.next))
    case Err(e) => Err(e)
  }

  lemma AfterNothing(r: Result<Parsed<seq<Node>>>)
    ensures After([], r) == r
  {
    match r
    case Ok(p) => assert [] + p.node == p.node;
    case Err(_) =>
  }

  lemma AfterOne(prefix: seq<Node>, n: Node, r: Result<Parsed<seq<Node>>>)
    ensures After(prefix, After([n], r)) == After(prefix + [n], r)
  {
    match r
    case Ok(p) => assert prefix + ([n] + p.node) == prefix + [n] + p.node;
    case Err(_) =>
  }

  /** One more pass of the `parse_term` loop: a unit, and the rest of the
      list after it; an error in the unit is the list's error. */
  lemma UnitsOnward(ts: seq<Tok.Token>, pos: nat)
    requires Wellformed(ts) && pos < |ts| && !EndsTerm(ts[pos])
    ensures UnitAt(ts, pos).Err? ==> UnitsAt(ts, pos) == Err(UnitAt(ts, pos).error)
    ensures UnitAt(ts, pos).Ok? ==>
      var unit := UnitAt(ts, pos).value;
      UnitsAt(ts, pos) == After([unit.node], UnitsAt(ts, unit.next))
  {
  }

  /** `Exprify::Parser`: the tokens of the input being parsed and the cursor. */
  class Parser {
    var tokens: seq<Tok.Token>
    var position: nat

    /** The cursor stands on a token of a stream that ends in `eof`. */
    predicate Valid()
      reads this
    {
      Wellformed(tokens) && position < |tokens|
    }

    constructor()
      ensures tokens == [] && position == 0
    {
      tokens := [];
      position := 0;
    }

    /** `current_token`. The cursor never passes `eof`, so the token exists. */
    function CurrentToken(): (t: Tok.Token)
      reads this
      requires position < |tokens|
      ensures t == tokens[position]
    {
      tokens[position]
    }

    /** `consume_token`. */
    method ConsumeToken()
      modifies this`position
      ensures position == old(position) + 1
    {
      position := position + 1;
    }

    /** `expect`. */
    method Expect(kind: string) returns (r: Result<nat>)
      requires position < |tokens|
      modifies this`position
      ensures r == ExpectAt(tokens, old(position), kind)
      ensures r.Ok? ==> position == r.value
    {
      var token := CurrentToken();
      if Tok.KindName(token) != kind {
        return Err(ExprifyError("Expected " + kind + ", got " + Tok.KindName(token)));
      }
      ConsumeToken();
      return Ok(position);
    }

    /** `parse_expression`. */
    method ParseExpression() returns (r: Result<Node>)
      requires Valid()
      modifies this`position
      ensures r == NodeOf(ExpressionAt(tokens, old(position)))
      ensures r.Ok? ==> position == ExpressionAt(tokens, old(position)).value.next
      decreases |tokens| - position, 3
    {
      ghost var start := position;
      var first := ParseTerm();
      if first.Err? {
        return Err(first.error);
      }
      var terms := [first.value];
      ghost var more: seq<Node> := [];
      ghost var afterFirst := position;
      AfterNothing(MoreTermsAt(tokens, position));
      while IsOr(CurrentToken())
        invariant Valid() && afterFirst <= position
        invariant EndsTerm(tokens[position])
        invariant terms == [first.value] + more
        invariant MoreTermsAt(tokens, afterFirst) == After(more, MoreTermsAt(tokens, position))
        decreases |tokens| - position
      {
        var term := ParseOrTerm();
        if term.Err? {
          return Err(term.error);
        }
        AfterOne(more, term.value, MoreTermsAt(tokens, position));
        terms := terms + [term.value];
        more := more + [term.value];
      }
      assert more + [] == more;
      assert MoreTermsAt(tokens, afterFirst) == Ok(Parsed(more, position));
      if |terms| == 1 {
        return Ok(terms[0]);
      }
      return Ok(Or(terms));
    }

    /** One pass of the `parse_expression` loop: the `OR` is consumed and
        the term after it parsed. */
    method ParseOrTerm() returns (r: Result<Node>)
      requires Valid() && IsOr(tokens[position])
      modifies this`position
      ensures r == NodeOf(TermAt(tokens, old(position) + 1))
      ensures r.Ok? ==> Valid() && position == TermAt(tokens, old(position) + 1).value.next
      decreases |tokens| - position, 2
    {
      ConsumeToken();
      r := ParseTerm();
    }

    /** `parse_term`. */
    method ParseTerm() returns (r: Result<Node>)
      requires Valid()
      modifies this`position
      ensures r == NodeOf(TermAt(tokens, old(position)))
      ensures r.Ok? ==> Valid() && position == TermAt(tokens, old(position)).value.next
      decreases |tokens| - position, 2
    {
      ghost var start := position;
      var nodes := [];
      AfterNothing(UnitsAt(tokens, position));
      while !EndsTerm(CurrentToken())
        invariant Valid() && start <= position
        invariant UnitsAt(tokens, start) == After(nodes, UnitsAt(tokens, position))
        decreases |tokens| - position
      {
        UnitsOnward(tokens, position);
        var unit := ParseUnit();
        if unit.Err? {
          return Err(unit.error);
        }
        AfterOne(nodes, unit.value, UnitsAt(tokens, position));
        nodes := nodes + [unit.value];
      }
      assert nodes + [] == nodes;
      if |nodes| == 1 {
        return Ok(nodes[0]);
      }
      if nodes == [] {
        return Err(ExprifyError("No valid expression found"));
      }
      return Ok(And(nodes));
    }

    /** One pass of the `parse_term` loop: `-` is consumed and the factor
        after it negated; otherwise the factor is the unit. */
    method ParseUnit() returns (r: Result<Node>)
      requires Valid()
      modifies this`position
      ensures r == NodeOf(UnitAt(tokens, old(position)))
      ensures r.Ok? ==> Valid() && position == UnitAt(tokens, old(position)).value.next
      decreases |tokens| - position, 1
    {
      if CurrentToken().Not? {
        ConsumeToken();
        var factor := ParseFactor();
        if factor.Err? {
          return Err(factor.error);
        }
        return Ok(Not(factor.value));
      }
      r := ParseFactor();
    }

    /** `parse_factor`. */
    method ParseFactor() returns (r: Result<Node>)
      requires Valid()
      modifies this`position
      ensures r == NodeOf(FactorAt(tokens, old(position)))
      ensures r.Ok? ==> Valid() && position == FactorAt(tokens, old(position)).value.next
      decreases |tokens| - position, 0
    {
      var token := CurrentToken();
      match token {
        case Keyword(v) =>
          ConsumeToken();
          return Ok(Keyword(v));
        case Phrase(p) =>
          ConsumeToken();
          return Ok(ExactPhrase(p));
        case NamedArg(name, arg) =>
          ConsumeToken();
          return Ok(NamedArgument(name, arg));
        case LParen =>
          ConsumeToken();
          var inner := ParseExpression();
          if inner.Err? {
            return Err(inner.error);
          }
          var closed := Expect("rparen");
          if closed.Err? {
            return Err(closed.error);
          }
          return Ok(Group(inner.value));
        case RParen =>
          return Err(ExprifyError("Unexpected closing parenthesis"));
        case Eof =>
          return Err(ExprifyError("Unexpected end of input"));
        case _ =>
          return Err(ExprifyError("Unexpected token: " + Tok.KindName(token)));
      }
    }

    /** `parse`. */
    method Parse(input: Option<string>) returns (r: Result<Node>)
      modifies this
      ensures r == ParseOf(input)
    {
      if input.None? || Blank(input.value) {
        return Err(ExprifyError("Empty input"));
      }
      var scanned := Tok.Tokenize(input.value);
      if scanned.Err? {
        return Err(scanned.error);
      }
      tokens := scanned.value;
      position := 0;
      r := ParseExpression();
    }
  }
}
