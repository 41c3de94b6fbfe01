/** The syntax tree of a search expression (lib/exprify/ast.rb) and its
    `inspect` serialisation. */
module Ast {
  import opened Outcomes

  /** A node. `BaseNode` is an instance of the abstract base class `Node`
      itself; the other constructors are its seven subclasses. Constructors
      keep their arguments as given: And/Or take any number of children, in
      argument order, and nothing checks a minimum count. */
  datatype Node =
    | BaseNode
    | And(children: seq<Node>)
    | Or(children: seq<Node>)
    | Not(expression: Node)
    | Keyword(value: string)
    | NamedArgument(name: string, value: string)
    | Group(expression: Node)
    | ExactPhrase(phrase: string)

  /** The last `::` segment of the node's class name. */
  function ClassName(n: Node): string {
    match n
    case BaseNode => "Node"
    case And(_) => "AndNode"
    case Or(_) => "OrNode"
    case Not(_) => "NotNode"
    case Keyword(_) => "KeywordNode"
    case NamedArgument(_, _) => "NamedArgumentNode"
    case Group(_) => "GroupNode"
    case ExactPhrase(_) => "ExactPhraseNode"
  }

  // ---------------------------------------------------------------------------
  // attr_reader: a class answers for the attributes it declares; asking a
  // node for an attribute its class does not define raises NoMethodError

  function Children(n: Node): (r: Result<seq<Node>>)
    ensures r.Ok? <==> n.And? || n.Or?
    ensures r.Ok? ==> r.value == n.children
    ensures r.Err? ==> r.error == NoMethodError("children")
  {
    if n.And? || n.Or? then Ok(n.children) else Err(NoMethodError("children"))
  }

  function Expression(n: Node): (r: Result<Node>)
    ensures r.Ok? <==> n.Not? || n.Group?
    ensures r.Ok? ==> r.value == n.expression
    ensures r.Err? ==> r.error == NoMethodError("expression")
  {
    if n.Not? || n.Group? then Ok(n.expression) else Err(NoMethodError("expression"))
  }

  function Value(n: Node): (r: Result<string>)
    ensures r.Ok? <==> n.Keyword? || n.NamedArgument?
    ensures r.Ok? ==> r.value == n.value
    ensures r.Err? ==> r.error == NoMethodError("value")
  {
    if n.Keyword? || n.NamedArgument? then Ok(n.value) else Err(NoMethodError("value"))
  }

  function Name(n: Node): (r: Result<string>)
    ensures r.Ok? <==> n.NamedArgument?
    ensures r.Ok? ==> r.value == n.name
    ensures r.Err? ==> r.error == NoMethodError("name")
  {
    if n.NamedArgument? then Ok(n.name) else Err(NoMethodError("name"))
  }

  function Phrase(n: Node): (r: Result<string>)
    ensures r.Ok? <==> n.ExactPhrase?
    ensures r.Ok? ==> r.value == n.phrase
    ensures r.Err? ==> r.error == NoMethodError("phrase")
  {
    if n.ExactPhrase? then Ok(n.phrase) else Err(NoMethodError("phrase"))
  }

  // ---------------------------------------------------------------------------
  // String#inspect

  const Bell: char := '\U{7}'
  const Backspace: char := '\U{8}'
  const Esc: char := '\U{1B}'
  const FormFeed: char := '\U{C}'
  const VerticalTab: char := '\U{B}'

  /** The letter Ruby writes after a backslash for a character it escapes by
      name, if it has one. */
  function EscapeLetter(c: char): Option<char> {
    if c == '"' then Some('"')
    else if c == '\\' then Some('\\')
    else if c == '\n' then Some('n')
    else if c == '\t' then Some('t')
    else if c == '\r' then Some('r')
    else if c == FormFeed then Some('f')
    else if c == VerticalTab then Some('v')
    else if c == Bell then Some('a')
    else if c == Backspace then Some('b')
    else if c == Esc then Some('e')
    else None
  }

  /** The character an escape letter stands for (`\#` included). */
  function Unescape(letter: char): (r: Option<char>)
    ensures r.Some? && r.value != '#' ==> EscapeLetter(r.value) == Some(letter)
  {
    if letter == '"' then Some('"')
    else if letter == '\\' then Some('\\')
    else if letter == 'n' then Some('\n')
    else if letter == 't' then Some('\t')
    else if letter == 'r' then Some('\r')
    else if letter == 'f' then Some(FormFeed)
    else if letter == 'v' then Some(VerticalTab)
    else if letter == 'a' then Some(Bell)
    else if letter == 'b' then Some(Backspace)
    else if letter == 'e' then Some(Esc)
    else if letter == '#' then Some('#')
    else None
  }

  /** How `String#inspect` writes the first character of `s`: a `#` that would
      start an interpolation is escaped, so is a character with an escape
      letter, and any other character stands for itself. */
  function EscapeFirst(s: string): (e: string)
    requires s != []
    ensures e == [s[0]] || (|e| == 2 && e[0] == '\\' && Unescape(e[1]) == Some(s[0]))
    ensures e == [s[0]] ==> s[0] != '"' && s[0] != '\\'
  {
    if s[0] == '#' && |s| > 1 && (s[1] == '{' || s[1] == '$' || s[1] == '@') then "\\#"
    else match EscapeLetter(s[0])
      case Some(letter) => ['\\', letter]
      case None => [s[0]]
  }

  /** The text between the quotes of `String#inspect`. */
  function Escape(s: string): string {
    if s == [] then [] else EscapeFirst(s) + Escape(s[1..])
  }

  /** `String#inspect`: the escaped text in double quotes. */
  function Quote(s: string): string {
    "\"" + Escape(s) + "\""
  }

  /** Reads escaped text up to the closing double quote: the text it stands for
      and what follows the quote. */
  function ReadEscaped(s: string): (r: Option<(string, string)>)
    ensures r.Some? ==> |r.value.1| < |s|
  {
    if s == [] then None
    else if s[0] == '"' then Some(([], s[1..]))
    else if s[0] == '\\' then
      if |s| < 2 then None
      else
        var c :- Unescape(s[1]);
        var (v, t) :- ReadEscaped(s[2..]);
        Some(([c] + v, t))
    else
      var (v, t) :- ReadEscaped(s[1..]);
      Some(([s[0]] + v, t))
  }

  /** Reads a quoted string. */
  function ReadQuoted(s: string): (r: Option<(string, string)>)
    ensures r.Some? ==> |r.value.1| < |s|
  {
    if s != [] && s[0] == '"' then ReadEscaped(s[1..]) else None
  }

  /** The escaping can be undone: the reader recovers the text and stops at
      the closing quote, whatever follows it. */
  lemma {:induction false} ReadEscapedOfEscape(v: string, rest: string)
    ensures ReadEscaped(Escape(v) + "\"" + rest) == Some((v, rest))
    decreases |v|
  {
    if v == [] {
      assert Escape(v) + "\"" + rest == "\"" + rest;
    } else {
      ReadEscapedOfEscape(v[1..], rest);
      ReadEscapedStep(v, rest);
    }
  }

  /** Reading the escape of the first character, then the rest. */
  lemma ReadEscapedStep(v: string, rest: string)
    requires v != []
    requires ReadEscaped(Escape(v[1..]) + "\"" + rest) == Some((v[1..], rest))
    ensures ReadEscaped(Escape(v) + "\"" + rest) == Some((v, rest))
  {
    EscapeThenQuote(v, rest);
    ReadFirstEscape(v, Escape(v[1..]) + "\"" + rest, rest);
  }

  lemma EscapeThenQuote(v: string, rest: string)
    requires v != []
    ensures Escape(v) + "\"" + rest == EscapeFirst(v) + (Escape(v[1..]) + "\"" + rest)
  {
  }

  /** The escape of a first character, read back, followed by the rest. */
  lemma ReadFirstEscape(v: string, tail: string, rest: string)
    requires v != [] && ReadEscaped(tail) == Some((v[1..], rest))
    ensures ReadEscaped(EscapeFirst(v) + tail) == Some((v, rest))
  {
    var e := EscapeFirst(v);
    if e == [v[0]] {
      ReadPlainStep(v[0], tail, v[1..], rest);
    } else {
      assert e == ['\\', e[1]];
      ReadEscapeStep(e[1], v[0], tail, v[1..], rest);
    }
    assert [v[0]] + v[1..] == v;
  }

  /** A character that is neither a quote nor a backslash is read as itself. */
  lemma ReadPlainStep(c: char, tail: string, w: string, rest: string)
    requires c != '"' && c != '\\'
    requires ReadEscaped(tail) == Some((w, rest))
    ensures ReadEscaped([c] + tail) == Some(([c] + w, rest))
  {
    assert ([c] + tail)[1..] == tail;
  }

  /** A backslash and an escape letter are read as the character they stand for. */
  lemma ReadEscapeStep(letter: char, c: char, tail: string, w: string, rest: string)
    requires Unescape(letter) == Some(c)
    requires ReadEscaped(tail) == Some((w, rest))
    ensures ReadEscaped(['\\', letter] + tail) == Some(([c] + w, rest))
  {
    assert (['\\', letter] + tail)[2..] == tail;
  }

  /** Quoting round-trips. */
  lemma ReadQuotedOfQuote(v: string, rest: string)
    ensures ReadQuoted(Quote(v) + rest) == Some((v, rest))
  {
    assert Quote(v) + rest == "\"" + (Escape(v) + "\"" + rest);
    ReadEscapedOfEscape(v, rest);
  }

  // ---------------------------------------------------------------------------
  // inspect

  /** `Array#join`. */
  function Join(parts: seq<string>, separator: string): string {
    if |parts| == 0 then ""
    else if |parts| == 1 then parts[0]
    else parts[0] + separator + Join(parts[1..], separator)
  }

  /** The `inspect` strings of a list of nodes (`children.map(&:inspect)`). */
  function Inspects(cs: seq<Node>): (r: seq<string>)
    ensures |r| == |cs|
    ensures forall i :: 0 <= i < |cs| ==> r[i] == Inspect(cs[i])
    decreases cs, 0
  {
    seq(|cs|, i requires 0 <= i < |cs| => Inspect(cs[i]))
  }

  /** What `inspect` writes between the class name and the closing `>`: each
      attribute as ` name=` followed by its value's `inspect`, children as a
      `, `-separated list in brackets. The base class has none. */
  function Fields(n: Node): (f: string)
    ensures f == [] || f[0] == ' '
    decreases n, 1
  {
    match n
    case BaseNode => ""
    case And(cs) => " children=[" + Join(Inspects(cs), ", ") + "]"
    case Or(cs) => " children=[" + Join(Inspects(cs), ", ") + "]"
    case Not(e) => " expression=" + Inspect(e)
    case Keyword(v) => " value=" + Quote(v)
    case NamedArgument(name, v) => " name=" + Quote(name) + " value=" + Quote(v)
    case Group(e) => " expression=" + Inspect(e)
    case ExactPhrase(p) => " phrase=" + Quote(p)
  }

  /** `inspect` (lib/exprify/ast.rb): `#<`, the class name, the fields, `>`. */
  function Inspect(n: Node): string
    decreases n, 2
  {
    "#<" + ClassName(n) + Fields(n) + ">"
  }

  // ---------------------------------------------------------------------------
  // Reading `inspect` back

  /** `s` without the prefix `p`, if it starts with it. */
  function Drop(p: string, s: string): (r: Option<string>)
    ensures r.Some? ==> |r.value| == |s| - |p|
  {
    if |p| <= |s| && s[..|p|] == p then Some(s[|p|..]) else None
  }

  lemma DropPrefix(p: string, t: string)
    ensures Drop(p, p + t) == Some(t)
  {
    assert (p + t)[..|p|] == p;
    assert (p + t)[|p|..] == t;
  }

  predicate IsLetter(c: char) {
    ('A' <= c <= 'Z') || ('a' <= c <= 'z')
  }

  /** The longest run of letters at the start of `s`, and the rest. */
  function ReadName(s: string): (r: (string, string))
    ensures |r.1| <= |s|
  {
    if s != [] && IsLetter(s[0]) then
      var (name, t) := ReadName(s[1..]);
      ([s[0]] + name, t)
    else ([], s)
  }

  lemma {:induction false} ReadNameOf(name: string, t: string)
    requires forall i :: 0 <= i < |name| ==> IsLetter(name[i])
    requires t == [] || !IsLetter(t[0])
    ensures ReadName(name + t) == (name, t)
    decreases |name|
  {
    if name == [] {
      assert name + t == t;
    } else {
      assert (name + t)[1..] == name[1..] + t;
      ReadNameOf(name[1..], t);
      assert [name[0]] + name[1..] == name;
    }
  }

  lemma ClassNameIsLetters(n: Node)
    ensures forall i :: 0 <= i < |ClassName(n)| ==> IsLetter(ClassName(n)[i])
  {
  }

  /** Reads one node's `inspect` and returns the node and what follows it. */
  function ReadNode(s: string): (r: Option<(Node, string)>)
    ensures r.Some? ==> |r.value.1| < |s|
    decreases |s|, 3
  {
    var t0 :- Drop("#<", s);
    var (name, t) := ReadName(t0);
    var (n, t1) :- ReadFields(name, t);
    var t2 :- Drop(">", t1);
    Some((n, t2))
  }

  /** Reads the fields of a node of the named class. */
  function ReadFields(name: string, t: string): (r: Option<(Node, string)>)
    ensures r.Some? ==> |r.value.1| <= |t|
    decreases |t|, 2
  {
    if name == "Node" then Some((BaseNode, t))
    else if name == "AndNode" || name == "OrNode" then ReadChildList(name == "AndNode", t)
    else if name == "NotNode" || name == "GroupNode" then ReadExpression(name == "NotNode", t)
    else if name == "KeywordNode" || name == "ExactPhraseNode" then ReadText(name == "KeywordNode", t)
    else if name == "NamedArgumentNode" then ReadNameAndValue(t)
    else None
  }

  function ReadChildList(isAnd: bool, t: string): (r: Option<(Node, string)>)
    ensures r.Some? ==> |r.value.1| <= |t|
    decreases |t|, 1
  {
    var t1 :- Drop(" children=[", t);
    var (cs, t2) :- ReadChildren(t1);
    Some((if isAnd then And(cs) else Or(cs), t2))
  }

  function ReadExpression(isNot: bool, t: string): (r: Option<(Node, string)>)
    ensures r.Some? ==> |r.value.1| <= |t|
    decreases |t|, 1
  {
    var t1 :- Drop(" expression=", t);
    var (e, t2) :- ReadNode(t1);
    Some((if isNot then Not(e) else Group(e), t2))
  }

  function ReadText(isKeyword: bool, t: string): (r: Option<(Node, string)>)
    ensures r.Some? ==> |r.value.1| <= |t|
  {
    var t1 :- Drop(if isKeyword then " value=" else " phrase=", t);
    var (v, t2) :- ReadQuoted(t1);
    Some((if isKeyword then Keyword(v) else ExactPhrase(v), t2))
  }

  function ReadNameAndValue(t: string): (r: Option<(Node, string)>)
    ensures r.Some? ==> |r.value.1| <= |t|
  {
    var t1 :- Drop(" name=", t);
    var (argName, t2) :- ReadQuoted(t1);
    var t3 :- Drop(" value=", t2);
    var (v, t4) :- ReadQuoted(t3);
    Some((NamedArgument(argName, v), t4))
  }

  /** Reads a `, `-separated list of nodes closed by `]`. */
  function ReadChildren(s: string): (r: Option<(seq<Node>, string)>)
    ensures r.Some? ==> |r.value.1| < |s|
    decreases |s|, 5
  {
    if s != [] && s[0] == ']' then Some(([], s[1..])) else ReadItems(s)
  }

  /** Reads one or more `, `-separated nodes closed by `]`. */
  function ReadItems(s: string): (r: Option<(seq<Node>, string)>)
    ensures r.Some? ==> |r.value.1| < |s|
    decreases |s|, 4
  {
    var (n, t) :- ReadNode(s);
    match Drop(", ", t)
    case Some(t1) =>
      var (ns, t2) :- ReadItems(t1);
      Some(([n] + ns, t2))
    case None =>
      var t1 :- Drop("]", t);
      Some(([n], t1))
  }

  /** `inspect` can be read back: it determines the node, and the reader stops
      where the node's text ends. */
  lemma {:induction false} ReadNodeOfInspect(n: Node, rest: string)
    ensures ReadNode(Inspect(n) + rest) == Some((n, rest))
    decreases n, 2
  {
    var t := Fields(n) + (">" + rest);
    Bracketed(ClassName(n), Fields(n), rest);
    ReadClassName(n, t);
    ReadFieldsOf(n, ">" + rest);
    ReadNodeOf(ClassName(n), t, n, rest);
  }

  /** `inspect` followed by more text, regrouped the way the reader takes it apart. */
  lemma Bracketed(name: string, fields: string, rest: string)
    requires fields == [] || fields[0] == ' '
    ensures "#<" + name + fields + ">" + rest == "#<" + (name + (fields + (">" + rest)))
    ensures !IsLetter((fields + (">" + rest))[0])
  {
    assert (fields + (">" + rest))[0] == if fields == [] then '>' else ' ';
  }

  /** The class name is read back whole when no letter follows it. */
  lemma ReadClassName(n: Node, t: string)
    requires t == [] || !IsLetter(t[0])
    ensures ReadName(ClassName(n) + t) == (ClassName(n), t)
  {
    ClassNameIsLetters(n);
    ReadNameOf(ClassName(n), t);
  }

  /** The reader takes `#<`, the class name, the fields and `>` apart. */
  lemma ReadNodeOf(name: string, t: string, n: Node, rest: string)
    requires ReadName(name + t) == (name, t)
    requires ReadFields(name, t) == Some((n, ">" + rest))
    ensures ReadNode("#<" + (name + t)) == Some((n, rest))
  {
    DropPrefix("#<", name + t);
    DropPrefix(">", rest);
  }

  lemma {:induction false} ReadFieldsOf(n: Node, rest: string)
    ensures ReadFields(ClassName(n), Fields(n) + rest) == Some((n, rest))
    decreases n, 1
  {
    ReadFieldsDispatch(n, Fields(n) + rest);
    match n {
      case BaseNode => assert Fields(n) + rest == rest;
      case And(_) => ReadChildListOf(n, rest);
      case Or(_) => ReadChildListOf(n, rest);
      case Not(_) => ReadExpressionOf(n, rest);
      case Group(_) => ReadExpressionOf(n, rest);
      case Keyword(_) => ReadTextOf(n, rest);
      case ExactPhrase(_) => ReadTextOf(n, rest);
      case NamedArgument(_, _) => ReadNameAndValueOf(n, rest);
    }
  }

  /** The class name picks the reader of the fields. */
  lemma ReadFieldsDispatch(n: Node, t: string)
    ensures ReadFields(ClassName(n), t) ==
      match n
      case BaseNode => Some((BaseNode, t))
      case And(_) => ReadChildList(true, t)
      case Or(_) => ReadChildList(false, t)
      case Not(_) => ReadExpression(true, t)
      case Group(_) => ReadExpression(false, t)
      case Keyword(_) => ReadText(true, t)
      case ExactPhrase(_) => ReadText(false, t)
      case NamedArgument(_, _) => ReadNameAndValue(t)
  {
    // The names differ in length, except AndNode and NotNode, which differ
    // in their first letter.
    var name := ClassName(n);
    match n
    case BaseNode =>
    case And(_) => assert |name| == 7 && name[0] == 'A';
    case Or(_) => assert |name| == 6;
    case Not(_) => assert |name| == 7 && name[0] == 'N';
    case Group(_) => assert |name| == 9;
    case Keyword(_) => assert |name| == 11;
    case ExactPhrase(_) => assert |name| == 15;
    case NamedArgument(_, _) => assert |name| == 17;
  }

  lemma {:induction false} ReadChildListOf(n: Node, rest: string)
    requires n.And? || n.Or?
    ensures ReadChildList(n.And?, Fields(n) + rest) == Some((n, rest))
    decreases n, 0
  {
    var tag, joined, close := " children=[", Join(Inspects(n.children), ", "), "]";
    assert Fields(n) == tag + joined + close;
    assert tag + joined + close + rest == tag + (joined + close) + rest;
    ReadChildrenOfInspects(n.children, rest);
    ReadAfter(tag, joined + close, rest);
  }

  lemma {:induction false} ReadExpressionOf(n: Node, rest: string)
    requires n.Not? || n.Group?
    ensures ReadExpression(n.Not?, Fields(n) + rest) == Some((n, rest))
    decreases n, 0, 0
  {
    ReadNodeOfInspect(n.expression, rest);
    ReadAfter(" expression=", Inspect(n.expression), rest);
  }

  lemma ReadTextOf(n: Node, rest: string)
    requires n.Keyword? || n.ExactPhrase?
    ensures ReadText(n.Keyword?, Fields(n) + rest) == Some((n, rest))
  {
    var v := if n.Keyword? then n.value else n.phrase;
    ReadQuotedOfQuote(v, rest);
    ReadAfter(if n.Keyword? then " value=" else " phrase=", Quote(v), rest);
  }

  lemma ReadNameAndValueOf(n: Node, rest: string)
    requires n.NamedArgument?
    ensures ReadNameAndValue(Fields(n) + rest) == Some((n, rest))
  {
    var nameTag, valueTag := " name=", " value=";
    assert Fields(n) == nameTag + Quote(n.name) + valueTag + Quote(n.value);
    Regroup(nameTag, Quote(n.name), valueTag, Quote(n.value), rest);
    ReadQuotedPair(n.name, n.value, rest);
  }

  lemma Regroup(a: string, b: string, c: string, d: string, rest: string)
    ensures a + b + c + d + rest == a + b + (c + d + rest)
  {
  }

  /** Reads the two quoted fields of a named argument. */
  lemma ReadQuotedPair(name: string, v: string, rest: string)
    ensures ReadNameAndValue(" name=" + Quote(name) + (" value=" + Quote(v) + rest)) == Some((NamedArgument(name, v), rest))
  {
    var u := " value=" + Quote(v) + rest;
    ReadQuotedOfQuote(name, u);
    ReadAfter(" name=", Quote(name), u);
    ReadQuotedOfQuote(v, rest);
    ReadAfter(" value=", Quote(v), rest);
  }

  /** Dropping a tag leaves the text after it. */
  lemma ReadAfter(tag: string, text: string, rest: string)
    ensures Drop(tag, tag + text + rest) == Some(text + rest)
  {
    assert tag + text + rest == tag + (text + rest);
    DropPrefix(tag, text + rest);
  }

  lemma {:induction false} ReadChildrenOfInspects(cs: seq<Node>, rest: string)
    ensures ReadChildren(Join(Inspects(cs), ", ") + "]" + rest) == Some((cs, rest))
    decreases cs, 1
  {
    if cs == [] {
      assert Join(Inspects(cs), ", ") + "]" + rest == "]" + rest;
    } else {
      ReadItemsOfInspects(cs, rest);
      var parts := Inspects(cs);
      assert parts[0] == Inspect(cs[0]);
      ItemsStart(parts, rest);
    }
  }

  /** A list whose first item starts with `#` is not the empty list. */
  lemma ItemsStart(parts: seq<string>, rest: string)
    requires parts != [] && parts[0] != [] && parts[0][0] == '#'
    ensures ReadChildren(Join(parts, ", ") + "]" + rest) == ReadItems(Join(parts, ", ") + "]" + rest)
  {
    if |parts| == 1 { JoinLast(parts, rest); } else { JoinMore(parts, rest); }
  }

  lemma {:induction false} ReadItemsOfInspects(cs: seq<Node>, rest: string)
    requires cs != []
    ensures ReadItems(Join(Inspects(cs), ", ") + "]" + rest) == Some((cs, rest))
    decreases cs, 0
  {
    var parts := Inspects(cs);
    var c := cs[0];
    assert parts[0] == Inspect(c);
    if |cs| == 1 {
      JoinLast(parts, rest);
      ReadNodeOfInspect(c, "]" + rest);
      ReadLastItem(c, rest);
      assert cs == [c];
    } else {
      var more := Join(parts[1..], ", ") + "]" + rest;
      JoinMore(parts, rest);
      ReadNodeOfInspect(c, ", " + more);
      assert parts[1..] == Inspects(cs[1..]);
      ReadItemsOfInspects(cs[1..], rest);
      ReadNextItem(c, more, cs[1..], rest);
      assert cs == [c] + cs[1..];
    }
  }

  lemma JoinLast(parts: seq<string>, rest: string)
    requires |parts| == 1
    ensures Join(parts, ", ") + "]" + rest == parts[0] + ("]" + rest)
  {
  }

  lemma JoinMore(parts: seq<string>, rest: string)
    requires |parts| >= 2
    ensures Join(parts, ", ") + "]" + rest == parts[0] + (", " + (Join(parts[1..], ", ") + "]" + rest))
  {
  }

  lemma ReadLastItem(c: Node, rest: string)
    requires ReadNode(Inspect(c) + ("]" + rest)) == Some((c, "]" + rest))
    ensures ReadItems(Inspect(c) + ("]" + rest)) == Some(([c], rest))
  {
    assert Drop(", ", "]" + rest) == None by {
      if 2 <= |"]" + rest| {
        assert ("]" + rest)[..2][0] == ']';
      }
    }
    DropPrefix("]", rest);
  }

  lemma ReadNextItem(c: Node, more: string, cs: seq<Node>, rest: string)
    requires ReadNode(Inspect(c) + (", " + more)) == Some((c, ", " + more))
    requires ReadItems(more) == Some((cs, rest))
    ensures ReadItems(Inspect(c) + (", " + more)) == Some(([c] + cs, rest))
  {
    DropPrefix(", ", more);
  }

  /** Different nodes have different `inspect` strings. */
  lemma InspectInjective(m: Node, n: Node)
    requires Inspect(m) == Inspect(n)
    ensures m == n
  {
    ReadNodeOfInspect(m, "");
    ReadNodeOfInspect(n, "");
    assert Inspect(m) + "" == Inspect(m);
    assert Inspect(n) + "" == Inspect(n);
  }
}
