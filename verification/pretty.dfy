/** `pretty_print` of the syntax tree (node.rb and the per-class files under
    lib/exprify/ast/): what each node hands to Ruby's pretty printer, in order.
    Indentation (`nest`) and line width are the printer's business and are not
    modelled; a `breakable` is a `Break` fragment. */
module Pretty {
  import opened Ast

  datatype Fragment = Text(text: string) | Break

  // ---------------------------------------------------------------------------
  // What each node emits

  /** The fragments `pretty_print` emits for `n`. */
  function Fragments(n: Node): seq<Fragment>
    decreases n, 3
  {
    match n
    case BaseNode => [Text("Node")]
    case And(cs) => [Text("AndNode")] + ChildrenFragments("children", cs)
    case Or(cs) => [Text("OrNode")] + ChildrenFragments("children", cs)
    case Not(e) => [Text("NotNode"), Break, Text("expression: ")] + Fragments(e)
    case Keyword(v) => [Text("KeywordNode")] + Field("value: ", v)
    case NamedArgument(name, v) => [Text("NamedArgumentNode")] + Field("name: ", name) + Field("value: ", v)
    case Group(e) => [Text("GroupNode"), Break, Text("expression: ")] + Fragments(e)
    case ExactPhrase(p) => [Text("ExactPhraseNode")] + Field("phrase: ", p)
  }

  /** A labelled string attribute: a break, the label, and the string's `inspect`. */
  function Field(heading: string, v: string): seq<Fragment> {
    [Break, Text(heading), Text(Quote(v))]
  }

  /** `heading: [`, the children from the first on, and `]`. */
  function ChildrenFragments(heading: string, cs: seq<Node>): seq<Fragment>
    decreases cs, 2
  {
    [Break, Text(heading + ": [")] + ItemsFrom(cs, 0) + [Break, Text("]")]
  }

  /** The children from index `i` on. */
  function ItemsFrom(cs: seq<Node>, i: nat): seq<Fragment>
    requires i <= |cs|
    decreases cs, 1, |cs| - i
  {
    if i == |cs| then [] else Item(cs, i) + ItemsFrom(cs, i + 1)
  }

  /** Child `i`, followed by a comma unless it is the last. */
  function Item(cs: seq<Node>, i: nat): seq<Fragment>
    requires i < |cs|
    decreases cs, 0
  {
    [Break] + Fragments(cs[i]) + (if i < |cs| - 1 then [Text(",")] else [])
  }

  // ---------------------------------------------------------------------------
  // The printer

  /** The pretty printer, as the fragments handed to it so far. */
  class Printer {
    var output: seq<Fragment>

    constructor()
      ensures output == []
    {
      output := [];
    }

    /** `pp.text`. */
    method Text(s: string)
      modifies this
      ensures output == old(output) + [Fragment.Text(s)]
    {
      output := output + [Fragment.Text(s)];
    }

    /** `pp.breakable`. */
    method Breakable()
      modifies this
      ensures output == old(output) + [Break]
    {
      output := output + [Break];
    }

    /** `pp.pp` on a string: its `inspect`. Ruby splits a string that spans
        several lines into one quoted piece per line; that is not modelled. */
    method Pp(s: string)
      modifies this
      ensures output == old(output) + [Fragment.Text(Quote(s))]
    {
      Text(Quote(s));
    }

    /** `pretty_print`, which each node class defines for itself. */
    method PrettyPrint(n: Node)
      modifies this
      ensures output == old(output) + Fragments(n)
      decreases n, 2
    {
      match n {
        case BaseNode => Text("Node");
        case And(cs) => PrettyPrintList("AndNode", cs);
        case Or(cs) => PrettyPrintList("OrNode", cs);
        case Not(e) => PrettyPrintWrapper("NotNode", e);
        case Keyword(v) => PrettyPrintLeaf("KeywordNode", "value: ", v);
        case NamedArgument(name, v) => PrettyPrintNamedArgument(name, v);
        case Group(e) => PrettyPrintWrapper("GroupNode", e);
        case ExactPhrase(p) => PrettyPrintLeaf("ExactPhraseNode", "phrase: ", p);
      }
    }

    /** `AndNode#pretty_print` and `OrNode#pretty_print`. */
    method PrettyPrintList(className: string, cs: seq<Node>)
      modifies this
      ensures output == old(output) + [Fragment.Text(className)] + ChildrenFragments("children", cs)
      decreases cs, 1
    {
      Text(className);
      PrettyPrintChildren("children", cs);
    }

    /** `NotNode#pretty_print` and `GroupNode#pretty_print`. */
    method PrettyPrintWrapper(className: string, e: Node)
      modifies this
      ensures output == old(output) + [Fragment.Text(className), Break, Fragment.Text("expression: ")] + Fragments(e)
      decreases e, 3
    {
      Text(className);
      Breakable();
      Text("expression: ");
      PrettyPrint(e);
    }

    /** `KeywordNode#pretty_print` and `ExactPhraseNode#pretty_print`. */
    method PrettyPrintLeaf(className: string, field: string, v: string)
      modifies this
      ensures output == old(output) + [Fragment.Text(className)] + Field(field, v)
    {
      Text(className);
      Breakable();
      Text(field);
      Pp(v);
    }

    /** `NamedArgumentNode#pretty_print`. */
    method PrettyPrintNamedArgument(name: string, v: string)
      modifies this
      ensures output == old(output) + [Fragment.Text("NamedArgumentNode")] + Field("name: ", name) + Field("value: ", v)
    {
      Text("NamedArgumentNode");
      Breakable();
      Text("name: ");
      Pp(name);
      Breakable();
      Text("value: ");
      Pp(v);
    }

    /** `pretty_print_children`, which the And and Or nodes spell out inline. */
    method PrettyPrintChildren(heading: string, cs: seq<Node>)
      modifies this
      ensures output == old(output) + ChildrenFragments(heading, cs)
      decreases cs, 0
    {
      Breakable();
      Text(heading + ": [");
      ghost var start := output;
      assert start == old(output) + [Break, Fragment.Text(heading + ": [")];
      var index := 0;
      while index < |cs|
        invariant index <= |cs|
        invariant output + ItemsFrom(cs, index) == start + ItemsFrom(cs, 0)
        decreases |cs| - index
      {
        ghost var before := output;
        Breakable();
        PrettyPrint(cs[index]);
        if index < |cs| - 1 {
          Text(",");
        }
        ItemPrinted(cs, index, before, output);
        index := index + 1;
      }
      assert output + [] == start + ItemsFrom(cs, 0);
      ghost var items := output;
      Breakable();
      Text("]");
      assert output == items + [Break, Fragment.Text("]")];
      assert ChildrenFragments(heading, cs) == [Break, Fragment.Text(heading + ": [")] + ItemsFrom(cs, 0) + [Break, Fragment.Text("]")];
      assert output == old(output) + [Break, Fragment.Text(heading + ": [")] + ItemsFrom(cs, 0) + [Break, Fragment.Text("]")];
    }
  }

  /** Printing child `i` after `before` leaves what `ItemsFrom` lists from `i`
      on still to come after `i + 1`. */
  lemma ItemPrinted(cs: seq<Node>, i: nat, before: seq<Fragment>, after: seq<Fragment>)
    requires i < |cs|
    requires after == before + [Break] + Fragments(cs[i]) + (if i < |cs| - 1 then [Text(",")] else [])
    ensures after + ItemsFrom(cs, i + 1) == before + ItemsFrom(cs, i)
  {
    var item := Item(cs, i);
    assert after == before + item;
    assert ItemsFrom(cs, i) == item + ItemsFrom(cs, i + 1);
    assert before + item + ItemsFrom(cs, i + 1) == before + (item + ItemsFrom(cs, i + 1));
  }

  // ---------------------------------------------------------------------------
  // What the printout shows

  /** A tree's outline: each node's class name followed by what it holds, its
      strings as `inspect` shows them and its children's outlines, in order. */
  function Outline(n: Node): seq<string>
    decreases n, 1
  {
    match n
    case BaseNode => [ClassName(n)]
    case And(cs) => [ClassName(n)] + OutlineFrom(cs, 0)
    case Or(cs) => [ClassName(n)] + OutlineFrom(cs, 0)
    case Not(e) => [ClassName(n)] + Outline(e)
    case Keyword(v) => [ClassName(n), Quote(v)]
    case NamedArgument(name, v) => [ClassName(n), Quote(name), Quote(v)]
    case Group(e) => [ClassName(n)] + Outline(e)
    case ExactPhrase(p) => [ClassName(n), Quote(p)]
  }

  function OutlineFrom(cs: seq<Node>, i: nat): seq<string>
    requires i <= |cs|
    decreases cs, 0, |cs| - i
  {
    if i == |cs| then [] else Outline(cs[i]) + OutlineFrom(cs, i + 1)
  }

  /** Texts that show content: class names, which start with a capital
      letter, and strings, whose `inspect` starts with a double quote. Labels
      start with a lower-case letter, punctuation with neither. */
  predicate IsContent(s: string) {
    s != [] && ('A' <= s[0] <= 'Z' || s[0] == '"')
  }

  /** The texts of `fs` that show content, in order. */
  function Shown(fs: seq<Fragment>): seq<string> {
    if fs == [] then []
    else (if fs[0].Text? && IsContent(fs[0].text) then [fs[0].text] else []) + Shown(fs[1..])
  }

  lemma {:induction false} ShownConcat(a: seq<Fragment>, b: seq<Fragment>)
    ensures Shown(a + b) == Shown(a) + Shown(b)
  {
    if a == [] {
      assert a + b == b;
    } else {
      assert (a + b)[1..] == a[1..] + b;
      ShownConcat(a[1..], b);
    }
  }

  /** The printout, without its labels, punctuation and breaks, is the tree's
      outline: every class name, parent before children, and every string,
      as `inspect` shows it, in the order the tree holds them. */
  lemma {:induction false} PrintoutShowsOutline(n: Node)
    ensures Shown(Fragments(n)) == Outline(n)
    decreases n, 1
  {
    match n {
      case And(cs) =>
        ChildrenShowOutline(cs);
        Headed("AndNode", ChildrenFragments("children", cs), OutlineFrom(cs, 0));
      case Or(cs) =>
        ChildrenShowOutline(cs);
        Headed("OrNode", ChildrenFragments("children", cs), OutlineFrom(cs, 0));
      case Not(e) =>
        PrintoutShowsOutline(e);
        WrapperShows("NotNode", Fragments(e), Outline(e));
      case Group(e) =>
        PrintoutShowsOutline(e);
        WrapperShows("GroupNode", Fragments(e), Outline(e));
      case _ =>
        LeafShowsOutline(n);
    }
  }

  /** The base node and the three leaves: the class name, then the strings. */
  lemma LeafShowsOutline(n: Node)
    requires n.BaseNode? || n.Keyword? || n.NamedArgument? || n.ExactPhrase?
    ensures Shown(Fragments(n)) == Outline(n)
  {
    match n {
      case BaseNode =>
        Headed("Node", [], []);
        assert [Text("Node")] + [] == [Text("Node")];
      case Keyword(v) =>
        OneFieldShows("KeywordNode", "value: ", v);
      case NamedArgument(name, v) =>
        TwoFieldsShow("NamedArgumentNode", "name: ", name, "value: ", v);
      case ExactPhrase(p) =>
        OneFieldShows("ExactPhraseNode", "phrase: ", p);
    }
  }

  /** A class name and one field: the name, then the string. */
  lemma OneFieldShows(className: string, heading: string, v: string)
    requires className != [] && 'A' <= className[0] <= 'Z'
    requires heading != [] && 'a' <= heading[0] <= 'z'
    ensures Shown([Text(className)] + Field(heading, v)) == [className, Quote(v)]
  {
    FieldShows(heading, v);
    Headed(className, Field(heading, v), [Quote(v)]);
  }

  /** A class name and two fields: the name, then the two strings in order. */
  lemma TwoFieldsShow(className: string, heading1: string, v1: string, heading2: string, v2: string)
    requires className != [] && 'A' <= className[0] <= 'Z'
    requires heading1 != [] && 'a' <= heading1[0] <= 'z'
    requires heading2 != [] && 'a' <= heading2[0] <= 'z'
    ensures Shown([Text(className)] + Field(heading1, v1) + Field(heading2, v2)) == [className, Quote(v1), Quote(v2)]
  {
    var fields := Field(heading1, v1) + Field(heading2, v2);
    FieldShows(heading1, v1);
    FieldShows(heading2, v2);
    ShownConcat(Field(heading1, v1), Field(heading2, v2));
    Headed(className, fields, [Quote(v1), Quote(v2)]);
    assert [Text(className)] + Field(heading1, v1) + Field(heading2, v2) == [Text(className)] + fields;
  }

  /** `NotNode` or `GroupNode`: the class name, then the labelled expression. */
  lemma WrapperShows(className: string, inner: seq<Fragment>, outline: seq<string>)
    requires className != [] && 'A' <= className[0] <= 'Z'
    requires Shown(inner) == outline
    ensures Shown([Text(className), Break, Text("expression: ")] + inner) == [className] + outline
  {
    Labelled("expression: ", inner, outline);
    Headed(className, [Break, Text("expression: ")] + inner, outline);
    assert [Text(className), Break, Text("expression: ")] + inner
      == [Text(className)] + ([Break, Text("expression: ")] + inner);
  }

  /** A class name followed by fragments that show `outline`. */
  lemma Headed(className: string, rest: seq<Fragment>, outline: seq<string>)
    requires className != [] && 'A' <= className[0] <= 'Z'
    requires Shown(rest) == outline
    ensures Shown([Text(className)] + rest) == [className] + outline
  {
    ShownConcat([Text(className)], rest);
    assert [Text(className)][1..] == [];
  }

  /** A break and a label or punctuation in front of fragments show nothing more. */
  lemma Labelled(heading: string, rest: seq<Fragment>, outline: seq<string>)
    requires !IsContent(heading)
    requires Shown(rest) == outline
    ensures Shown([Break, Text(heading)] + rest) == outline
  {
    var lead := [Break, Text(heading)];
    ShownConcat(lead, rest);
    assert lead[1..][1..] == [];
  }

  /** A field shows its string as `inspect` shows it. */
  lemma FieldShows(heading: string, v: string)
    requires heading != [] && 'a' <= heading[0] <= 'z'
    ensures Shown(Field(heading, v)) == [Quote(v)]
  {
    var quoted := [Text(Quote(v))];
    assert Quote(v)[0] == '"';
    assert quoted[1..] == [];
    Labelled(heading, quoted, [Quote(v)]);
    assert Field(heading, v) == [Break, Text(heading)] + quoted;
  }

  lemma {:induction false} ChildrenShowOutline(cs: seq<Node>)
    ensures Shown(ChildrenFragments("children", cs)) == OutlineFrom(cs, 0)
    decreases cs, 2
  {
    var opening := [Break, Text("children: [")];
    var closing := [Break, Text("]")];
    ItemsShowOutline(cs, 0);
    Labelled("children: [", ItemsFrom(cs, 0), OutlineFrom(cs, 0));
    Labelled("]", [], []);
    assert closing + [] == closing;
    ShownConcat(opening + ItemsFrom(cs, 0), closing);
    assert "children" + ": [" == "children: [";
    assert ChildrenFragments("children", cs) == opening + ItemsFrom(cs, 0) + closing;
    assert OutlineFrom(cs, 0) + [] == OutlineFrom(cs, 0);
  }

  lemma {:induction false} ItemsShowOutline(cs: seq<Node>, i: nat)
    requires i <= |cs|
    ensures Shown(ItemsFrom(cs, i)) == OutlineFrom(cs, i)
    decreases cs, 1, |cs| - i
  {
    if i < |cs| {
      PrintoutShowsOutline(cs[i]);
      ItemsShowOutline(cs, i + 1);
      ItemShows(cs, i, Fragments(cs[i]), Outline(cs[i]));
      ShownConcat(Item(cs, i), ItemsFrom(cs, i + 1));
    }
  }

  /** Child `i` shows what its fragments show: the break and the comma show nothing. */
  lemma ItemShows(cs: seq<Node>, i: nat, f: seq<Fragment>, outline: seq<string>)
    requires i < |cs| && f == Fragments(cs[i]) && Shown(f) == outline
    ensures Shown(Item(cs, i)) == outline
  {
    var comma: seq<Fragment> := if i < |cs| - 1 then [Text(",")] else [];
    assert Item(cs, i) == [Break] + f + comma;
    ShownConcat([Break], f);
    ShownConcat([Break] + f, comma);
    assert [Break][1..] == [];
    if comma != [] {
      assert comma[1..] == [];
    }
  }
}
