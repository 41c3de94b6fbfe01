/** What the parser promises about the trees it builds: their shape, that they
    account for exactly the tokens consumed, and that every tree of that shape
    is parsed back from its tokens. */
module ParserProperties {
  import opened Outcomes
  import opened Ast
  import opened Parsing
  import Tok = Tokenizer

  // ---------------------------------------------------------------------------
  // Tree shapes

  /** What `parse_factor` builds. */
  predicate IsFactor(n: Node)
    decreases n, 0
  {
    match n
    case Keyword(_) => true
    case ExactPhrase(_) => true
    case NamedArgument(name, value) => true
    case Group(e) => IsExpression(e)
    case _ => false
  }

  /** What one pass of the `parse_term` loop adds: a factor, possibly negated. */
  predicate IsUnit(n: Node)
    decreases n, 1
  {
    IsFactor(n) || (n.Not? && IsFactor(n.expression))
  }

  /** Every node of `cs` is a unit. */
  predicate AllUnits(cs: seq<Node>)
    decreases cs, 2
  {
    cs == [] || (IsUnit(cs[0]) && AllUnits(cs[1..]))
  }

  /** What `parse_term` builds: a unit, or an `And` of two or more units. */
  predicate IsTerm(n: Node)
    decreases n, 3
  {
    IsUnit(n) || (n.And? && |n.children| >= 2 && AllUnits(n.children))
  }

  /** Every node of `cs` is a term. */
  predicate AllTerms(cs: seq<Node>)
    decreases cs, 4
  {
    cs == [] || (IsTerm(cs[0]) && AllTerms(cs[1..]))
  }

  /** What `parse_expression` builds: a term, or an `Or` of two or more terms. */
  predicate IsExpression(n: Node)
    decreases n, 5
  {
    IsTerm(n) || (n.Or? && |n.children| >= 2 && AllTerms(n.children))
  }

  /** No `And` or `Or` anywhere in the tree has fewer than two children, and
      the tree holds no bare base node. */
  predicate NoShortLists(n: Node)
    decreases n
  {
    match n
    case BaseNode => false
    case And(cs) => |cs| >= 2 && forall i :: 0 <= i < |cs| ==> NoShortLists(cs[i])
    case Or(cs) => |cs| >= 2 && forall i :: 0 <= i < |cs| ==> NoShortLists(cs[i])
    case Not(e) => NoShortLists(e)
    case Group(e) => NoShortLists(e)
    case _ => true
  }

  /** A parsed tree never holds an `And` or `Or` with fewer than two children. */
  lemma {:induction false} ExpressionHasNoShortLists(n: Node)
    requires IsExpression(n)
    ensures NoShortLists(n)
    decreases n, 3
  {
    if n.Or? && !IsTerm(n) {
      TermsHaveNoShortLists(n.children);
    } else {
      TermHasNoShortLists(n);
    }
  }

  lemma {:induction false} TermsHaveNoShortLists(cs: seq<Node>)
    requires AllTerms(cs)
    ensures forall i :: 0 <= i < |cs| ==> NoShortLists(cs[i])
    decreases cs, 2
  {
    if cs != [] {
      TermHasNoShortLists(cs[0]);
      TermsHaveNoShortLists(cs[1..]);
      assert forall i :: 1 <= i < |cs| ==> cs[i] == cs[1..][i - 1];
    }
  }

  lemma {:induction false} TermHasNoShortLists(n: Node)
    requires IsTerm(n)
    ensures NoShortLists(n)
    decreases n, 2
  {
    if !IsUnit(n) {
      UnitsHaveNoShortLists(n.children);
    } else {
      UnitHasNoShortLists(n);
    }
  }

  lemma {:induction false} UnitsHaveNoShortLists(cs: seq<Node>)
    requires AllUnits(cs)
    ensures forall i :: 0 <= i < |cs| ==> NoShortLists(cs[i])
    decreases cs, 2
  {
    if cs != [] {
      UnitHasNoShortLists(cs[0]);
      UnitsHaveNoShortLists(cs[1..]);
      assert forall i :: 1 <= i < |cs| ==> cs[i] == cs[1..][i - 1];
    }
  }

  lemma {:induction false} UnitHasNoShortLists(n: Node)
    requires IsUnit(n)
    ensures NoShortLists(n)
    decreases n, 1
  {
    if n.Not? {
      FactorHasNoShortLists(n.expression);
    } else {
      FactorHasNoShortLists(n);
    }
  }

  lemma {:induction false} FactorHasNoShortLists(n: Node)
    requires IsFactor(n)
    ensures NoShortLists(n)
    decreases n, 0
  {
    if n.Group? {
      ExpressionHasNoShortLists(n.expression);
    }
  }

  // ---------------------------------------------------------------------------
  // The tokens a tree stands for

  /** The tokens a tree is parsed from: an `And` is its children one after the
      other, an `Or` its children separated by `OR`, a group is bracketed. */
  function Render(n: Node): seq<Tok.Token>
    decreases n, 1
  {
    match n
    case BaseNode => []
    case And(cs) => RenderAll(cs)
    case Or(cs) => if cs == [] then [] else Render(cs[0]) + RenderOrTail(cs[1..])
    case Not(e) => [Tok.Not] + Render(e)
    case Keyword(v) => [Tok.Keyword(v)]
    case NamedArgument(name, v) => [Tok.NamedArg(name, v)]
    case Group(e) => [Tok.LParen] + Render(e) + [Tok.RParen]
    case ExactPhrase(p) => [Tok.Phrase(p)]
  }

  /** The renderings of `cs`, one after the other. */
  function RenderAll(cs: seq<Node>): seq<Tok.Token>
    decreases cs, 0
  {
    if cs == [] then [] else Render(cs[0]) + RenderAll(cs[1..])
  }

  /** The renderings of `cs`, each after an `OR` operator. */
  function RenderOrTail(cs: seq<Node>): seq<Tok.Token>
    decreases cs, 0
  {
    if cs == [] then [] else [Tok.Operator("OR")] + Render(cs[0]) + RenderOrTail(cs[1..])
  }

  // ---------------------------------------------------------------------------
  // Parsed trees have the grammar's shape and stand for the tokens consumed

  /** `ts[from..to]` splits wherever one likes. */
  lemma Split(ts: seq<Tok.Token>, from: nat, mid: nat, to: nat)
    requires from <= mid <= to <= |ts|
    ensures ts[from..to] == ts[from..mid] + ts[mid..to]
  {
  }

  lemma {:induction false} ExpressionRenders(ts: seq<Tok.Token>, pos: nat)
    requires Wellformed(ts) && pos < |ts|
    ensures var r := ExpressionAt(ts, pos);
      r.Ok? ==> IsExpression(r.value.node) && ts[pos..r.value.next] == Render(r.value.node)
    decreases |ts| - pos, 5
  {
    var r := ExpressionAt(ts, pos);
    if r.Ok? {
      var first := TermAt(ts, pos).value;
      var more := MoreTermsAt(ts, first.next).value;
      TermRenders(ts, pos);
      MoreTermsRender(ts, first.next);
      Split(ts, pos, first.next, more.next);
      var terms := [first.node] + more.node;
      if |terms| > 1 {
        assert terms[0] == first.node && terms[1..] == more.node;
      }
    }
  }

  lemma {:induction false} MoreTermsRender(ts: seq<Tok.Token>, pos: nat)
    requires Wellformed(ts) && pos < |ts| && EndsTerm(ts[pos])
    ensures var r := MoreTermsAt(ts, pos);
      r.Ok? ==>
        && AllTerms(r.value.node)
        && ts[pos..r.value.next] == RenderOrTail(r.value.node)
    decreases |ts| - pos, 2
  {
    var r := MoreTermsAt(ts, pos);
    if r.Ok? && IsOr(ts[pos]) {
      var term := TermAt(ts, pos + 1).value;
      var more := MoreTermsAt(ts, term.next).value;
      assert r.value == Parsed([term.node] + more.node, more.next);
      assert IsTerm(term.node) && ts[pos + 1..term.next] == Render(term.node) by {
        TermRenders(ts, pos + 1);
      }
      assert AllTerms(more.node) && ts[term.next..more.next] == RenderOrTail(more.node) by {
        MoreTermsRender(ts, term.next);
      }
      OrTailJoin(ts, pos, term.node, more.node, term.next, more.next);
    }
  }

  /** An `OR`, a term's tokens and an `OR` tail, one after the other, make
      the tail of the term and the rest. */
  lemma OrTailJoin(ts: seq<Tok.Token>, pos: nat, t: Node, more: seq<Node>, mid: nat, next: nat)
    requires pos < mid <= next <= |ts| && IsOr(ts[pos])
    requires IsTerm(t) && ts[pos + 1..mid] == Render(t)
    requires AllTerms(more) && ts[mid..next] == RenderOrTail(more)
    ensures AllTerms([t] + more) && ts[pos..next] == RenderOrTail([t] + more)
  {
    var terms := [t] + more;
    assert terms[0] == t && terms[1..] == more;
    assert ts[pos] == Tok.Operator("OR");
    Split(ts, pos + 1, mid, next);
    Split(ts, pos, pos + 1, next);
    assert ts[pos..pos + 1] == [Tok.Operator("OR")];
  }

  lemma {:induction false} TermRenders(ts: seq<Tok.Token>, pos: nat)
    requires Wellformed(ts) && pos < |ts|
    ensures var r := TermAt(ts, pos);
      r.Ok? ==> IsTerm(r.value.node) && ts[pos..r.value.next] == Render(r.value.node)
    decreases |ts| - pos, 4
  {
    var r := TermAt(ts, pos);
    if r.Ok? {
      UnitsRender(ts, pos);
      var units := UnitsAt(ts, pos).value;
      if |units.node| == 1 {
        assert RenderAll(units.node) == Render(units.node[0]) + RenderAll([]);
      }
    }
  }

  lemma {:induction false} UnitsRender(ts: seq<Tok.Token>, pos: nat)
    requires Wellformed(ts) && pos < |ts|
    ensures var r := UnitsAt(ts, pos);
      r.Ok? ==>
        && AllUnits(r.value.node)
        && ts[pos..r.value.next] == RenderAll(r.value.node)
    decreases |ts| - pos, 3
  {
    var r := UnitsAt(ts, pos);
    if r.Ok? && !EndsTerm(ts[pos]) {
      var unit := UnitAt(ts, pos).value;
      var more := UnitsAt(ts, unit.next).value;
      UnitRenders(ts, pos);
      UnitsRender(ts, unit.next);
      Split(ts, pos, unit.next, more.next);
      var units := [unit.node] + more.node;
      assert units[0] == unit.node && units[1..] == more.node;
    }
  }

  lemma {:induction false} UnitRenders(ts: seq<Tok.Token>, pos: nat)
    requires Wellformed(ts) && pos < |ts|
    ensures var r := UnitAt(ts, pos);
      r.Ok? ==> IsUnit(r.value.node) && ts[pos..r.value.next] == Render(r.value.node)
    decreases |ts| - pos, 2
  {
    if ts[pos].Not? {
      FactorRenders(ts, pos + 1);
      var r := UnitAt(ts, pos);
      if r.Ok? {
        Split(ts, pos, pos + 1, r.value.next);
        assert ts[pos..pos + 1] == [Tok.Not];
      }
    } else {
      FactorRenders(ts, pos);
    }
  }

  lemma {:induction false} FactorRenders(ts: seq<Tok.Token>, pos: nat)
    requires Wellformed(ts) && pos < |ts|
    ensures var r := FactorAt(ts, pos);
      r.Ok? ==> IsFactor(r.value.node) && ts[pos..r.value.next] == Render(r.value.node)
    decreases |ts| - pos, 1
  {
    if ts[pos].LParen? {
      GroupRenders(ts, pos);
    } else if FactorAt(ts, pos).Ok? {
      assert ts[pos..pos + 1] == [ts[pos]];
    }
  }

  lemma {:induction false} GroupRenders(ts: seq<Tok.Token>, pos: nat)
    requires Wellformed(ts) && pos < |ts| && ts[pos].LParen?
    ensures var r := FactorAt(ts, pos);
      r.Ok? ==> IsFactor(r.value.node) && ts[pos..r.value.next] == Render(r.value.node)
    decreases |ts| - pos, 0
  {
    var r := FactorAt(ts, pos);
    if r.Ok? {
      GroupParts(ts, pos);
      var inner := ExpressionAt(ts, pos + 1).value;
      assert IsExpression(inner.node) && ts[pos + 1..inner.next] == Render(inner.node) by {
        ExpressionRenders(ts, pos + 1);
      }
      BracketsJoin(ts, pos, inner.next, Render(inner.node));
      GroupShape(inner.node);
    }
  }

  lemma GroupShape(e: Node)
    requires IsExpression(e)
    ensures IsFactor(Group(e)) && Render(Group(e)) == [Tok.LParen] + Render(e) + [Tok.RParen]
  {
  }

  /** A parenthesised factor is the inner expression, closed by `)`. */
  lemma GroupParts(ts: seq<Tok.Token>, pos: nat)
    requires Wellformed(ts) && pos < |ts| && ts[pos].LParen? && FactorAt(ts, pos).Ok?
    ensures ExpressionAt(ts, pos + 1).Ok?
    ensures var inner := ExpressionAt(ts, pos + 1).value;
      FactorAt(ts, pos).value == Parsed(Group(inner.node), inner.next + 1) && ts[inner.next].RParen?
  {
  }

  /** `(`, the inner tokens and `)`, one after the other, make the bracketed
      rendering. */
  lemma BracketsJoin(ts: seq<Tok.Token>, pos: nat, close: nat, r: seq<Tok.Token>)
    requires pos < close < |ts| && ts[pos].LParen? && ts[close].RParen?
    requires ts[pos + 1..close] == r
    ensures ts[pos..close + 1] == [Tok.LParen] + r + [Tok.RParen]
  {
    Split(ts, pos, pos + 1, close);
    Split(ts, pos, close, close + 1);
    assert ts[pos..pos + 1] == [Tok.LParen];
    assert ts[close..close + 1] == [Tok.RParen];
  }

  // ---------------------------------------------------------------------------
  // Every tree of the grammar's shape is parsed back from its tokens

  /** `ts` holds `part` from `pos` on, and something after it. */
  predicate HoldsAt(ts: seq<Tok.Token>, pos: nat, part: seq<Tok.Token>) {
    pos + |part| < |ts| && ts[pos..pos + |part|] == part
  }

  /** The tokens that may follow a whole expression. */
  predicate Follows(t: Tok.Token) {
    t.Eof? || t.RParen?
  }

  lemma HoldsAtSplit(ts: seq<Tok.Token>, pos: nat, a: seq<Tok.Token>, b: seq<Tok.Token>)
    requires HoldsAt(ts, pos, a + b)
    ensures HoldsAt(ts, pos, a) && HoldsAt(ts, pos + |a|, b)
  {
    assert ts[pos..pos + |a|] == (a + b)[..|a|];
    assert ts[pos + |a|..pos + |a| + |b|] == (a + b)[|a|..];
  }

  lemma {:induction false} UnitStarts(n: Node)
    requires IsUnit(n)
    ensures Render(n) != [] && !EndsTerm(Render(n)[0])
  {
    if n.Group? {
      assert Render(n)[0] == Tok.LParen;
    }
  }

  lemma ExpressionStep(ts: seq<Tok.Token>, pos: nat, t: Node, mid: nat, more: seq<Node>, end: nat)
    requires Wellformed(ts) && pos < |ts|
    requires TermAt(ts, pos) == Ok(Parsed(t, mid)) && MoreTermsAt(ts, mid) == Ok(Parsed(more, end))
    ensures ExpressionAt(ts, pos) == Ok(Parsed(if more == [] then t else Or([t] + more), end))
  {
  }

  lemma OrStep(ts: seq<Tok.Token>, pos: nat, n: Node, mid: nat, end: nat)
    requires Wellformed(ts) && pos < |ts| && n.Or? && |n.children| >= 2
    requires TermAt(ts, pos) == Ok(Parsed(n.children[0], mid))
    requires MoreTermsAt(ts, mid) == Ok(Parsed(n.children[1..], end))
    ensures ExpressionAt(ts, pos) == Ok(Parsed(n, end))
  {
    assert [n.children[0]] + n.children[1..] == n.children;
  }

  lemma MoreTermsEnd(ts: seq<Tok.Token>, pos: nat, end: nat)
    requires Wellformed(ts) && pos < |ts| && (ts[pos].Eof? || ts[pos].RParen?) && end == pos
    ensures MoreTermsAt(ts, pos) == Ok(Parsed([], end))
  {
  }

  lemma MoreTermsStep(ts: seq<Tok.Token>, pos: nat, cs: seq<Node>, mid: nat, next: nat, end: nat)
    requires Wellformed(ts) && pos + 1 < |ts| && IsOr(ts[pos]) && cs != []
    requires TermAt(ts, pos + 1) == Ok(Parsed(cs[0], mid)) && MoreTermsAt(ts, mid) == Ok(Parsed(cs[1..], next))
    requires next == end
    ensures MoreTermsAt(ts, pos) == Ok(Parsed(cs, end))
  {
    assert cs == [cs[0]] + cs[1..];
  }

  lemma UnitsEnd(ts: seq<Tok.Token>, pos: nat, end: nat)
    requires Wellformed(ts) && pos < |ts| && EndsTerm(ts[pos]) && end == pos
    ensures UnitsAt(ts, pos) == Ok(Parsed([], end))
  {
  }

  lemma UnitsStep(ts: seq<Tok.Token>, pos: nat, cs: seq<Node>, mid: nat, next: nat, end: nat)
    requires Wellformed(ts) && pos < |ts| && !EndsTerm(ts[pos]) && cs != []
    requires UnitAt(ts, pos) == Ok(Parsed(cs[0], mid)) && UnitsAt(ts, mid) == Ok(Parsed(cs[1..], next))
    requires next == end
    ensures UnitsAt(ts, pos) == Ok(Parsed(cs, end))
  {
    assert cs == [cs[0]] + cs[1..];
  }

  lemma OrTailStarts(cs: seq<Node>)
    requires cs != []
    ensures RenderOrTail(cs) != [] && RenderOrTail(cs)[0] == Tok.Operator("OR")
  {
  }

  /** Where the `OR` tail of `cs` sits: an `OR`, the first term's tokens
      followed by a token that ends a term, and the tail of the rest. */
  lemma OrTailOf(cs: seq<Node>, ts: seq<Tok.Token>, pos: nat, r: seq<Tok.Token>, tail: seq<Tok.Token>)
    requires cs != [] && HoldsAt(ts, pos, RenderOrTail(cs))
    requires r == Render(cs[0]) && tail == RenderOrTail(cs[1..])
    requires Follows(ts[pos + |RenderOrTail(cs)|])
    ensures ts[pos] == Tok.Operator("OR") && HoldsAt(ts, pos + 1, r)
    ensures HoldsAt(ts, pos + 1 + |r|, tail)
    ensures EndsTerm(ts[pos + 1 + |r|])
    ensures |RenderOrTail(cs)| == 1 + |r| + |tail|
  {
    OrTailUnfold(cs);
    OrTailAt(ts, pos, RenderOrTail(cs), r, tail);
  }

  /** An `OR` tail is an `OR`, the first term's tokens, and the tail of the
      rest, which is empty or starts with `OR` again. */
  lemma OrTailUnfold(cs: seq<Node>)
    requires cs != []
    ensures RenderOrTail(cs) == [Tok.Operator("OR")] + Render(cs[0]) + RenderOrTail(cs[1..])
    ensures RenderOrTail(cs[1..]) == [] || RenderOrTail(cs[1..])[0] == Tok.Operator("OR")
  {
    if cs[1..] != [] {
      OrTailStarts(cs[1..]);
    }
  }

  /** Where a term's tokens `r` and an `OR` tail sit, the term is followed by `OR`. */
  lemma OrHeadAt(ts: seq<Tok.Token>, pos: nat, r: seq<Tok.Token>, tail: seq<Tok.Token>)
    requires HoldsAt(ts, pos, r + tail) && tail != [] && tail[0] == Tok.Operator("OR")
    ensures HoldsAt(ts, pos, r) && HoldsAt(ts, pos + |r|, tail)
    ensures ts[pos + |r|] == Tok.Operator("OR")
  {
    HoldsAtSplit(ts, pos, r, tail);
    assert ts[pos + |r|] == ts[pos + |r|..pos + |r| + |tail|][0];
  }

  /** Where an `OR`, a term's tokens `r` and the rest of an `OR` tail sit,
      the term is followed by a token that ends it. */
  lemma OrTailAt(ts: seq<Tok.Token>, pos: nat, whole: seq<Tok.Token>, r: seq<Tok.Token>, tail: seq<Tok.Token>)
    requires whole == [Tok.Operator("OR")] + r + tail && HoldsAt(ts, pos, whole)
    requires tail == [] || tail[0] == Tok.Operator("OR")
    requires Follows(ts[pos + |whole|])
    ensures ts[pos] == Tok.Operator("OR") && HoldsAt(ts, pos + 1, r)
    ensures HoldsAt(ts, pos + 1 + |r|, tail)
    ensures EndsTerm(ts[pos + 1 + |r|])
    ensures |whole| == 1 + |r| + |tail|
  {
    HoldsAtSplit(ts, pos, [Tok.Operator("OR")] + r, tail);
    HoldsAtSplit(ts, pos, [Tok.Operator("OR")], r);
    var mid := pos + 1 + |r|;
    if tail != [] {
      assert ts[mid] == ts[mid..mid + |tail|][0];
    }
  }

  /** Where a concatenation of rendered units sits: the first unit, which
      does not start with a token that ends a term, and the rest. */
  lemma ConcatAt(cs: seq<Node>, ts: seq<Tok.Token>, pos: nat, r: seq<Tok.Token>, rest: seq<Tok.Token>)
    requires 0 < |cs| && IsUnit(cs[0]) && HoldsAt(ts, pos, RenderAll(cs))
    requires r == Render(cs[0]) && rest == RenderAll(cs[1..])
    ensures HoldsAt(ts, pos, r) && !EndsTerm(ts[pos])
    ensures HoldsAt(ts, pos + |r|, rest)
    ensures |RenderAll(cs)| == |r| + |rest|
  {
    HoldsAtSplit(ts, pos, r, rest);
    UnitStarts(cs[0]);
    assert ts[pos] == r[0];
  }

  lemma {:induction false} ExpressionOfRender(n: Node, ts: seq<Tok.Token>, pos: nat)
    requires Wellformed(ts) && IsExpression(n) && HoldsAt(ts, pos, Render(n))
    requires Follows(ts[pos + |Render(n)|])
    ensures ExpressionAt(ts, pos) == Ok(Parsed(n, pos + |Render(n)|))
    decreases n, 5
  {
    if IsTerm(n) {
      var end := pos + |Render(n)|;
      TermOfRender(n, ts, pos, end);
      ExpressionStep(ts, pos, n, end, [], end);
    } else {
      OrOfRender(n, ts, pos, pos + |Render(n)|);
    }
  }

  lemma {:induction false} OrOfRender(n: Node, ts: seq<Tok.Token>, pos: nat, end: nat)
    requires Wellformed(ts) && n.Or? && |n.children| >= 2 && AllTerms(n.children)
    requires HoldsAt(ts, pos, Render(n)) && end == pos + |Render(n)|
    requires Follows(ts[end])
    ensures ExpressionAt(ts, pos) == Ok(Parsed(n, end))
    decreases n, 4
  {
    var cs := n.children;
    var tail := RenderOrTail(cs[1..]);
    var mid := pos + |Render(cs[0])|;
    assert HoldsAt(ts, pos, Render(cs[0])) && HoldsAt(ts, mid, tail) && IsOr(ts[mid])
        && end == mid + |tail| by {
      OrTailStarts(cs[1..]);
      OrHeadAt(ts, pos, Render(cs[0]), tail);
    }
    assert TermAt(ts, pos) == Ok(Parsed(cs[0], mid)) by {
      TermOfRender(cs[0], ts, pos, mid);
    }
    assert MoreTermsAt(ts, mid) == Ok(Parsed(cs[1..], end)) by {
      MoreTermsOfRender(cs[1..], ts, mid, end);
    }
    OrStep(ts, pos, n, mid, end);
  }

  lemma {:induction false} MoreTermsOfRender(cs: seq<Node>, ts: seq<Tok.Token>, pos: nat, end: nat)
    requires Wellformed(ts) && AllTerms(cs)
    requires HoldsAt(ts, pos, RenderOrTail(cs)) && end == pos + |RenderOrTail(cs)|
    requires Follows(ts[end])
    ensures MoreTermsAt(ts, pos) == Ok(Parsed(cs, end))
    decreases cs, 3
  {
    if cs == [] {
      MoreTermsEnd(ts, pos, end);
    } else {
      MoreTermsConsOfRender(cs, ts, pos, end);
    }
  }

  lemma {:induction false} MoreTermsConsOfRender(cs: seq<Node>, ts: seq<Tok.Token>, pos: nat, end: nat)
    requires Wellformed(ts) && cs != [] && AllTerms(cs)
    requires HoldsAt(ts, pos, RenderOrTail(cs)) && end == pos + |RenderOrTail(cs)|
    requires Follows(ts[end])
    ensures MoreTermsAt(ts, pos) == Ok(Parsed(cs, end))
    decreases cs, 2
  {
    var mid := pos + 1 + |Render(cs[0])|;
    HeadTermOfRender(cs, ts, pos, end);
    MoreTermsOfRender(cs[1..], ts, mid, end);
    MoreTermsStep(ts, pos, cs, mid, end, end);
  }

  /** The `OR` and the first term of a rendered `OR` tail are parsed, and the
      tail of the rest follows. */
  lemma {:induction false} HeadTermOfRender(cs: seq<Node>, ts: seq<Tok.Token>, pos: nat, end: nat)
    requires Wellformed(ts) && cs != [] && AllTerms(cs)
    requires HoldsAt(ts, pos, RenderOrTail(cs)) && end == pos + |RenderOrTail(cs)|
    requires Follows(ts[end])
    ensures var mid := pos + 1 + |Render(cs[0])|;
      pos + 1 < |ts| && IsOr(ts[pos]) && TermAt(ts, pos + 1) == Ok(Parsed(cs[0], mid)) &&
      AllTerms(cs[1..]) && HoldsAt(ts, mid, RenderOrTail(cs[1..])) && end == mid + |RenderOrTail(cs[1..])|
    decreases cs, 1
  {
    var tail := RenderOrTail(cs[1..]);
    var mid := pos + 1 + |Render(cs[0])|;
    OrTailOf(cs, ts, pos, Render(cs[0]), tail);
    AllTermsCons(cs);
    TermOfRender(cs[0], ts, pos + 1, mid);
  }

  lemma AllTermsCons(cs: seq<Node>)
    requires cs != [] && AllTerms(cs)
    ensures IsTerm(cs[0]) && AllTerms(cs[1..])
  {
  }

  lemma {:induction false} TermOfRender(n: Node, ts: seq<Tok.Token>, pos: nat, end: nat)
    requires Wellformed(ts) && IsTerm(n) && HoldsAt(ts, pos, Render(n))
    requires end == pos + |Render(n)| && EndsTerm(ts[end])
    ensures TermAt(ts, pos) == Ok(Parsed(n, end))
    decreases n, 2
  {
    if !IsUnit(n) {
      UnitsOfRender(n.children, ts, pos, end);
    } else {
      UnitOfRender(n, ts, pos, end);
      UnitsEnd(ts, end, end);
      UnitStarts(n);
      assert ts[pos] == Render(n)[0];
      assert [n][0] == n && [n][1..] == [];
      UnitsStep(ts, pos, [n], end, end, end);
    }
  }

  lemma {:induction false} UnitsOfRender(cs: seq<Node>, ts: seq<Tok.Token>, pos: nat, end: nat)
    requires Wellformed(ts) && AllUnits(cs)
    requires HoldsAt(ts, pos, RenderAll(cs)) && end == pos + |RenderAll(cs)|
    requires EndsTerm(ts[end])
    ensures UnitsAt(ts, pos) == Ok(Parsed(cs, end))
    decreases cs, 1
  {
    if cs == [] {
      UnitsEnd(ts, pos, end);
    } else {
      UnitsConsOfRender(cs, ts, pos, end);
    }
  }

  lemma {:induction false} UnitsConsOfRender(cs: seq<Node>, ts: seq<Tok.Token>, pos: nat, end: nat)
    requires Wellformed(ts) && cs != [] && AllUnits(cs)
    requires HoldsAt(ts, pos, RenderAll(cs)) && end == pos + |RenderAll(cs)|
    requires EndsTerm(ts[end])
    ensures UnitsAt(ts, pos) == Ok(Parsed(cs, end))
    decreases cs, 0
  {
    var r := Render(cs[0]);
    var rest := RenderAll(cs[1..]);
    var mid := pos + |r|;
    assert HoldsAt(ts, pos, r) && !EndsTerm(ts[pos]) && HoldsAt(ts, mid, rest)
        && end == mid + |rest| by {
      ConcatAt(cs, ts, pos, r, rest);
    }
    assert UnitAt(ts, pos) == Ok(Parsed(cs[0], mid)) by {
      UnitOfRender(cs[0], ts, pos, mid);
    }
    assert UnitsAt(ts, mid) == Ok(Parsed(cs[1..], end)) by {
      UnitsOfRender(cs[1..], ts, mid, end);
    }
    UnitsStep(ts, pos, cs, mid, end, end);
  }

  lemma {:induction false} UnitOfRender(n: Node, ts: seq<Tok.Token>, pos: nat, end: nat)
    requires Wellformed(ts) && IsUnit(n) && HoldsAt(ts, pos, Render(n))
    requires end == pos + |Render(n)|
    ensures UnitAt(ts, pos) == Ok(Parsed(n, end))
    decreases n, 1
  {
    if n.Not? && !IsFactor(n) {
      var e := n.expression;
      assert ts[pos] == Tok.Not && HoldsAt(ts, pos + 1, Render(e)) && end == pos + 1 + |Render(e)| by {
        HoldsAtSplit(ts, pos, [Tok.Not], Render(e));
        assert ts[pos] == ts[pos..pos + 1][0];
      }
      assert FactorAt(ts, pos + 1) == Ok(Parsed(e, end)) by {
        FactorOfRender(e, ts, pos + 1, end);
      }
    } else {
      assert !ts[pos].Not? by {
        assert ts[pos] == Render(n)[0];
      }
      FactorOfRender(n, ts, pos, end);
    }
  }

  lemma {:induction false} FactorOfRender(n: Node, ts: seq<Tok.Token>, pos: nat, end: nat)
    requires Wellformed(ts) && IsFactor(n) && HoldsAt(ts, pos, Render(n))
    requires end == pos + |Render(n)|
    ensures FactorAt(ts, pos) == Ok(Parsed(n, end))
    decreases n, 0
  {
    if n.Group? {
      GroupOfRender(n.expression, ts, pos, end);
    } else {
      assert ts[pos] == Render(n)[0];
    }
  }

  lemma {:induction false} GroupOfRender(e: Node, ts: seq<Tok.Token>, pos: nat, end: nat)
    requires Wellformed(ts) && IsExpression(e)
    requires HoldsAt(ts, pos, Render(Group(e))) && end == pos + |Render(Group(e))|
    ensures FactorAt(ts, pos) == Ok(Parsed(Group(e), end))
    decreases Group(e), 0, 0
  {
    var inner := pos + 1 + |Render(e)|;
    assert ts[pos] == Tok.LParen && HoldsAt(ts, pos + 1, Render(e)) && ts[inner] == Tok.RParen
        && end == inner + 1 by {
      BracketedAt(ts, pos, Render(e));
    }
    assert ExpressionAt(ts, pos + 1) == Ok(Parsed(e, inner)) by {
      ExpressionOfRender(e, ts, pos + 1);
    }
    GroupStep(ts, pos, e, inner, end);
  }

  /** Where a bracketed rendering sits: `(`, the inner tokens, `)`. */
  lemma BracketedAt(ts: seq<Tok.Token>, pos: nat, r: seq<Tok.Token>)
    requires HoldsAt(ts, pos, [Tok.LParen] + r + [Tok.RParen])
    ensures ts[pos] == Tok.LParen && HoldsAt(ts, pos + 1, r) && ts[pos + 1 + |r|] == Tok.RParen
  {
    HoldsAtSplit(ts, pos, [Tok.LParen] + r, [Tok.RParen]);
    HoldsAtSplit(ts, pos, [Tok.LParen], r);
    assert ts[pos] == ts[pos..pos + 1][0];
    assert ts[pos + 1 + |r|] == ts[pos + 1 + |r|..pos + 2 + |r|][0];
  }

  lemma GroupStep(ts: seq<Tok.Token>, pos: nat, e: Node, inner: nat, end: nat)
    requires Wellformed(ts) && pos + 1 < |ts| && ts[pos] == Tok.LParen
    requires ExpressionAt(ts, pos + 1) == Ok(Parsed(e, inner))
    requires ts[inner] == Tok.RParen && end == inner + 1
    ensures FactorAt(ts, pos) == Ok(Parsed(Group(e), end))
  {
    assert Tok.KindName(ts[inner]) == "rparen";
  }

  // ---------------------------------------------------------------------------
  // Whole token streams

  /** The kinds of token a rendering consists of. */
  predicate IsRenderToken(t: Tok.Token) {
    !t.Eof? && (t.Operator? ==> t.text == "OR")
  }

  lemma {:induction false} TokensOf(n: Node)
    ensures forall t :: t in Render(n) ==> IsRenderToken(t)
    decreases n, 1
  {
    match n {
      case And(cs) => AllTokensOf(cs);
      case Or(cs) =>
        if cs != [] {
          TokensOf(cs[0]);
          OrTailTokensOf(cs[1..]);
        }
      case Not(e) => TokensOf(e);
      case Group(e) => TokensOf(e);
      case _ =>
    }
  }

  lemma {:induction false} AllTokensOf(cs: seq<Node>)
    ensures forall t :: t in RenderAll(cs) ==> IsRenderToken(t)
    decreases cs, 0
  {
    if cs != [] {
      TokensOf(cs[0]);
      AllTokensOf(cs[1..]);
    }
  }

  lemma {:induction false} OrTailTokensOf(cs: seq<Node>)
    ensures forall t :: t in RenderOrTail(cs) ==> IsRenderToken(t)
    decreases cs, 0
  {
    if cs != [] {
      TokensOf(cs[0]);
      OrTailTokensOf(cs[1..]);
    }
  }

  /** The parser inverts rendering: a tree of the grammar's shape, rendered and
      closed by `eof`, parses back to itself. */
  lemma ParseOfRender(n: Node)
    requires IsExpression(n)
    ensures Wellformed(Render(n) + [Tok.Eof])
    ensures ParseTokens(Render(n) + [Tok.Eof]) == Ok(n)
  {
    var ts := Render(n) + [Tok.Eof];
    TokensOf(n);
    assert forall i :: 0 <= i < |ts| - 1 ==> ts[i] == Render(n)[i] && ts[i] in Render(n);
    assert HoldsAt(ts, 0, Render(n)) by {
      assert ts[0..|Render(n)|] == Render(n);
    }
    ExpressionOfRender(n, ts, 0);
  }

  /** Rendering inverts the parser: a successful parse consumes exactly the
      tokens of the tree it returns, up to `eof` or an unmatched `)`, and the
      tree has the grammar's shape. */
  lemma RenderOfParse(ts: seq<Tok.Token>)
    requires Wellformed(ts) && ParseTokens(ts).Ok?
    ensures var p := ExpressionAt(ts, 0).value;
      && IsExpression(p.node)
      && NoShortLists(p.node)
      && ts[..p.next] == Render(p.node)
      && Follows(ts[p.next])
  {
    ExpressionRenders(ts, 0);
    ExpressionHasNoShortLists(ExpressionAt(ts, 0).value.node);
  }

  /** Whatever follows an unmatched `)` is never looked at. */
  lemma TrailingTextDropped(n: Node, more: seq<Tok.Token>)
    requires IsExpression(n)
    requires Wellformed(Render(n) + [Tok.RParen] + more)
    ensures ParseTokens(Render(n) + [Tok.RParen] + more) == Ok(n)
  {
    var ts := Render(n) + [Tok.RParen] + more;
    assert HoldsAt(ts, 0, Render(n)) by {
      assert ts[0..|Render(n)|] == Render(n);
    }
    ExpressionOfRender(n, ts, 0);
  }

  // ---------------------------------------------------------------------------
  // From query text to tree

  /** A word the tokenizer turns into a plain keyword. */
  predicate KeywordWord(w: string) {
    Tok.PlainWord(w) && w[0] != '-' && ':' !in w && w != "OR"
  }

  /** `-ruby` parses to the negated keyword. */
  lemma ParseNegatedWord(w: string)
    requires KeywordWord(w)
    ensures ParseOf(Some("-" + w)) == Ok(Not(Keyword(w)))
  {
    var n := Not(Keyword(w));
    Tok.HyphenWord(w);
    assert Render(n) + [Tok.Eof] == [Tok.Not, Tok.Keyword(w), Tok.Eof];
    assert IsFactor(Keyword(w));
    assert IsUnit(n);
    assert IsTerm(n);
    assert IsExpression(n);
    ParseOfRender(n);
    assert !IsStripped(("-" + w)[0]);
  }

  /** Two units side by side form a term, and an `And` of them renders as
      the one rendering followed by the other. */
  lemma PairOfUnits(x: Node, y: Node)
    requires IsUnit(x) && IsUnit(y)
    ensures IsExpression(And([x, y]))
    ensures Render(And([x, y])) == Render(x) + Render(y)
  {
    var cs := [x, y];
    assert cs[1..] == [y] && cs[1..][1..] == [];
    assert AllUnits(cs[1..][1..]);
    assert AllUnits(cs[1..]);
    assert AllUnits(cs);
    assert IsTerm(And(cs));
    assert RenderAll(cs[1..][1..]) == [];
    assert RenderAll(cs[1..]) == Render(y) by {
      assert Render(y) + [] == Render(y);
    }
  }

  lemma ThreeThenEof(x: Tok.Token, y: Tok.Token, z: Tok.Token)
    ensures [x] + ([y] + [z]) + [Tok.Eof] == [x, y, z, Tok.Eof]
  {
  }

  /** `ruby -java` parses to the keyword and the negated keyword under AND. */
  lemma ParseWordAndNegatedWord(a: string, b: string)
    requires KeywordWord(a) && KeywordWord(b)
    ensures ParseOf(Some(a + " -" + b)) == Ok(And([Keyword(a), Not(Keyword(b))]))
  {
    var n := And([Keyword(a), Not(Keyword(b))]);
    Tok.HyphenAfterSpace(a, b);
    assert IsUnit(Keyword(a));
    assert IsFactor(Keyword(b));
    assert IsUnit(Not(Keyword(b)));
    PairOfUnits(Keyword(a), Not(Keyword(b)));
    assert Render(Not(Keyword(b))) == [Tok.Not] + [Tok.Keyword(b)];
    ThreeThenEof(Tok.Keyword(a), Tok.Not, Tok.Keyword(b));
    ParseOfRender(n);
    assert !IsStripped((a + " -" + b)[|a| + 1]);
  }

  // ---------------------------------------------------------------------------
  // Token streams the parser rejects

  /** `()`: the group holds no unit. */
  lemma EmptyGroupRejected()
    ensures Wellformed([Tok.LParen, Tok.RParen, Tok.Eof])
    ensures ParseTokens([Tok.LParen, Tok.RParen, Tok.Eof]) == Err(ExprifyError("No valid expression found"))
  {
    var ts := [Tok.LParen, Tok.RParen, Tok.Eof];
    assert TermAt(ts, 1) == Err(ExprifyError("No valid expression found"));
  }

  /** `)`: the input opens with a token that ends a term. */
  lemma LoneClosingRejected()
    ensures Wellformed([Tok.RParen, Tok.Eof])
    ensures ParseTokens([Tok.RParen, Tok.Eof]) == Err(ExprifyError("No valid expression found"))
  {
  }

  /** `OR a`: no term before the operator. */
  lemma LeadingOrRejected(a: string)
    ensures Wellformed([Tok.Operator("OR"), Tok.Keyword(a), Tok.Eof])
    ensures ParseTokens([Tok.Operator("OR"), Tok.Keyword(a), Tok.Eof]) == Err(ExprifyError("No valid expression found"))
  {
  }

  /** `a OR`: no term after the operator. */
  lemma TrailingOrRejected(a: string)
    ensures Wellformed([Tok.Keyword(a), Tok.Operator("OR"), Tok.Eof])
    ensures ParseTokens([Tok.Keyword(a), Tok.Operator("OR"), Tok.Eof]) == Err(ExprifyError("No valid expression found"))
  {
    var ts := [Tok.Keyword(a), Tok.Operator("OR"), Tok.Eof];
    assert TermAt(ts, 0) == Ok(Parsed(Keyword(a), 1)) by {
      assert UnitsAt(ts, 1) == Ok(Parsed([], 1));
      assert UnitAt(ts, 0) == Ok(Parsed(Keyword(a), 1));
      assert [Keyword(a)] + [] == [Keyword(a)];
    }
    assert TermAt(ts, 2) == Err(ExprifyError("No valid expression found"));
    assert MoreTermsAt(ts, 1) == Err(ExprifyError("No valid expression found"));
  }

  /** `(a`: the group is never closed. */
  lemma UnclosedGroupRejected(a: string)
    ensures Wellformed([Tok.LParen, Tok.Keyword(a), Tok.Eof])
    ensures ParseTokens([Tok.LParen, Tok.Keyword(a), Tok.Eof]) == Err(ExprifyError("Expected rparen, got eof"))
  {
    var ts := [Tok.LParen, Tok.Keyword(a), Tok.Eof];
    assert ExpressionAt(ts, 1) == Ok(Parsed(Keyword(a), 2)) by {
      assert UnitsAt(ts, 2) == Ok(Parsed([], 2));
      assert UnitAt(ts, 1) == Ok(Parsed(Keyword(a), 2));
      assert [Keyword(a)] + [] == [Keyword(a)];
      assert UnitsAt(ts, 1) == Ok(Parsed([Keyword(a)], 2));
      assert TermAt(ts, 1) == Ok(Parsed(Keyword(a), 2));
      assert MoreTermsAt(ts, 2) == Ok(Parsed([], 2));
      assert [Keyword(a)] + [] == [Keyword(a)];
    }
    assert "Expected " + "rparen" + ", got " + "eof" == "Expected rparen, got eof";
    assert FactorAt(ts, 0) == Err(ExprifyError("Expected rparen, got eof"));
    assert UnitsAt(ts, 0) == Err(ExprifyError("Expected rparen, got eof"));
    assert ExpressionAt(ts, 0) == Err(ExprifyError("Expected rparen, got eof"));
  }

  /** `(-)`: a `-` must be followed by a factor, and `)` is none. */
  lemma NegatedNothingRejected()
    ensures Wellformed([Tok.LParen, Tok.Not, Tok.RParen, Tok.Eof])
    ensures ParseTokens([Tok.LParen, Tok.Not, Tok.RParen, Tok.Eof]) == Err(ExprifyError("Unexpected closing parenthesis"))
  {
    var ts := [Tok.LParen, Tok.Not, Tok.RParen, Tok.Eof];
    assert UnitAt(ts, 1) == Err(ExprifyError("Unexpected closing parenthesis"));
    assert TermAt(ts, 1) == Err(ExprifyError("Unexpected closing parenthesis"));
  }
}
