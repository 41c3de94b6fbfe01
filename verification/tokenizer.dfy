/** The tokenizer of `Exprify::Parser` (lib/exprify/parser.rb:29-119): a single
    left-to-right scan that turns the query text into tokens ending in `Eof`. */
module Tokenizer {
  import opened Outcomes

  /** A token. The Ruby record's `type` is the constructor; its `value` is the
      constructor's fields (the constant values "(", ")", "-" and nil of
      `lparen`, `rparen`, `not` and `eof` are left implicit). */
  datatype Token =
    | LParen
    | RParen
    | Not
    | Phrase(text: string)
    | Keyword(text: string)
    | NamedArg(name: string, arg: string)
    | Operator(text: string)
    | Eof

  /** The Ruby symbol of the token's type, as error messages print it. */
  function KindName(t: Token): string {
    match t
    case LParen => "lparen"
    case RParen => "rparen"
    case Not => "not"
    case Phrase(_) => "phrase"
    case Keyword(_) => "keyword"
    case NamedArg(_, _) => "named_arg"
    case Operator(_) => "operator"
    case Eof => "eof"
  }

  const FormFeed: char := '\U{C}'
  const VerticalTab: char := '\U{B}'

  /** Ruby's `/\s/`: space, tab, line feed, vertical tab, form feed, carriage return. */
  predicate IsSpace(c: char) {
    c == ' ' || c == '\t' || c == '\n' || c == '\r' || c == FormFeed || c == VerticalTab
  }

  /** The four characters the whitespace branch of the tokenize loop skips. */
  predicate IsSkipped(c: char) {
    c == ' ' || c == '\t' || c == '\n' || c == '\r'
  }

  /** `SPECIAL_CHARS`, the character class `[\s()"]`. */
  predicate IsSpecial(c: char) {
    IsSpace(c) || c == '(' || c == ')' || c == '"'
  }

  /** Outside quotes a word ends before whitespace or a parenthesis. */
  predicate IsBoundary(c: char) {
    IsSpace(c) || c == '(' || c == ')'
  }

  // ---------------------------------------------------------------------------
  // scan_to_boundary

  /** Where `scan_to_boundary` stops when it reaches `pos` with the given quote state. */
  function BoundaryEnd(input: string, pos: nat, inQuotes: bool): (end: nat)
    requires pos <= |input|
    ensures pos <= end <= |input|
    decreases |input| - pos
  {
    if pos == |input| then pos
    else if input[pos] == '"' then BoundaryEnd(input, pos + 1, !inQuotes)
    else if !inQuotes && IsBoundary(input[pos]) then pos
    else BoundaryEnd(input, pos + 1, inQuotes)
  }

  /** The number of double quotes in `s`. */
  function QuoteCount(s: string): nat {
    if s == [] then 0
    else QuoteCount(s[..|s| - 1]) + (if s[|s| - 1] == '"' then 1 else 0)
  }

  /** A word begun at `start` may end at `k`: the input ends there, or `k` holds
      whitespace or a parenthesis and the quotes seen since `start` are balanced. */
  predicate StopsAt(input: string, start: nat, k: nat)
    requires start <= k <= |input|
  {
    k == |input| || (IsBoundary(input[k]) && QuoteCount(input[start..k]) % 2 == 0)
  }

  /** A word ends at the first place it may end: a colon or a quote never ends
      it, and a word with an unbalanced quote runs to the end of the input. */
  lemma {:induction false} BoundaryEndIsFirstStop(input: string, start: nat)
    requires start <= |input|
    ensures StopsAt(input, start, BoundaryEnd(input, start, false))
    ensures forall k :: start <= k < BoundaryEnd(input, start, false) ==> !StopsAt(input, start, k)
    ensures var end := BoundaryEnd(input, start, false);
      end < |input| ==> input[end] != ':' && input[end] != '"' && QuoteCount(input[start..end]) % 2 == 0
  {
    assert input[start..start] == [];
    BoundaryEndFrom(input, start, start, false);
  }

  lemma {:induction false} BoundaryEndFrom(input: string, start: nat, pos: nat, inQuotes: bool)
    requires start <= pos <= |input|
    requires inQuotes == (QuoteCount(input[start..pos]) % 2 == 1)
    requires forall k :: start <= k < pos ==> !StopsAt(input, start, k)
    ensures StopsAt(input, start, BoundaryEnd(input, pos, inQuotes))
    ensures forall k :: start <= k < BoundaryEnd(input, pos, inQuotes) ==> !StopsAt(input, start, k)
    decreases |input| - pos
  {
    if pos < |input| {
      var s := input[start..pos + 1];
      assert s[..|s| - 1] == input[start..pos];
      if input[pos] == '"' {
        BoundaryEndFrom(input, start, pos + 1, !inQuotes);
      } else if !inQuotes && IsBoundary(input[pos]) {
      } else {
        BoundaryEndFrom(input, start, pos + 1, inQuotes);
      }
    }
  }

  /** `scan_to_boundary` (parser.rb:71-90): the word from `start` and where it ends. */
  method ScanToBoundary(input: string, start: nat) returns (word: string, end: nat)
    requires start <= |input|
    ensures end == BoundaryEnd(input, start, false)
    ensures word == input[start..end]
  {
    var pos := start;
    var inQuotes := false;
    while pos < |input|
      invariant start <= pos <= |input|
      invariant BoundaryEnd(input, pos, inQuotes) == BoundaryEnd(input, start, false)
      decreases |input| - pos
    {
      var c := input[pos];
      if c == '"' {
        inQuotes := !inQuotes;
      } else if !inQuotes {
        if IsSpace(c) {
          break;
        }
        if IsSpecial(c) && c != ':' && c != '"' {
          break;
        }
      }
      pos := pos + 1;
    }
    word, end := input[start..pos], pos;
  }

  // ---------------------------------------------------------------------------
  // scan_phrase

  /** The first double quote at or after `pos`, or the end of the input. */
  function PhraseEnd(input: string, pos: nat): (end: nat)
    requires pos <= |input|
    ensures pos <= end <= |input|
    ensures end < |input| ==> input[end] == '"'
    ensures forall k :: pos <= k < end ==> input[k] != '"'
    decreases |input| - pos
  {
    if pos == |input| || input[pos] == '"' then pos else PhraseEnd(input, pos + 1)
  }

  /** What `scan_phrase` returns when the opening quote stands just before `start`:
      the text up to the next quote, verbatim, and the position just past that quote. */
  function PhraseScan(input: string, start: nat): (r: Result<(string, nat)>)
    requires start <= |input|
    ensures r.Ok? <==> '"' in input[start..]
    ensures r.Err? ==> r.error == ExprifyError("Unterminated phrase")
    ensures r.Ok? ==>
      var (text, next) := r.value;
      && next == start + |text| + 1 <= |input|
      && text == input[start..next - 1]
      && input[next - 1] == '"'
      && '"' !in text
  {
    var end := PhraseEnd(input, start);
    if end >= |input| then
      assert forall k :: start <= k < |input| ==> input[k] != '"';
      assert '"' !in input[start..];
      Err(ExprifyError("Unterminated phrase"))
    else
      assert input[start..][end - start] == '"';
      Ok((input[start..end], end + 1))
  }

  /** `scan_phrase` (parser.rb:92-98). */
  method ScanPhrase(input: string, start: nat) returns (r: Result<(string, nat)>)
    requires start <= |input|
    ensures r == PhraseScan(input, start)
  {
    var pos := start;
    while pos < |input| && input[pos] != '"'
      invariant start <= pos <= |input|
      invariant PhraseEnd(input, pos) == PhraseEnd(input, start)
      decreases |input| - pos
    {
      pos := pos + 1;
    }
    if pos >= |input| {
      return Err(ExprifyError("Unterminated phrase"));
    }
    return Ok((input[start..pos], pos + 1));
  }

  // ---------------------------------------------------------------------------
  // process_word

  /** `String#index`: the position of the first `c` in `s`. */
  function IndexOf(s: string, c: char): (i: nat)
    requires c in s
    ensures i < |s| && s[i] == c
    ensures forall j :: 0 <= j < i ==> s[j] != c
  {
    if s[0] == c then 0 else 1 + IndexOf(s[1..], c)
  }

  /** In `name:value` with a colon-free name, the first colon is the one after the name. */
  lemma FirstColon(name: string, value: string)
    requires ':' !in name
    ensures IndexOf(name + ":" + value, ':') == |name|
  {
    var word := name + ":" + value;
    assert word[|name|] == ':';
    assert forall j :: 0 <= j < |name| ==> word[j] == name[j];
  }

  /** A value of length two or more wrapped in double quotes loses that one pair. */
  function Unwrapped(value: string): (v: string)
    ensures |value| >= 2 && value[0] == '"' && value[|value| - 1] == '"' ==> value == "\"" + v + "\""
    ensures !(|value| >= 2 && value[0] == '"' && value[|value| - 1] == '"') ==> v == value
  {
    if |value| >= 2 && value[0] == '"' && value[|value| - 1] == '"' then value[1..|value| - 1] else value
  }

  /** `process_word` (parser.rb:100-119): `OR` is the operator, `name:value` with a
      non-empty name and value a named argument, everything else a keyword. */
  function ProcessWord(word: string): (t: Token)
    ensures t.Operator? || t.Keyword? || t.NamedArg?
    ensures t.Operator? <==> word == "OR"
    ensures t.Operator? || t.Keyword? ==> t.text == word
    ensures ':' !in word ==> !t.NamedArg?
    ensures t.NamedArg? ==>
      && t.name != [] && ':' !in t.name && t.arg != []
      && (word == t.name + ":" + t.arg || word == t.name + ":\"" + t.arg + "\"")
  {
    if word == "OR" then Operator(word)
    else if ':' !in word then Keyword(word)
    else
      var colon := IndexOf(word, ':');
      var name := word[..colon];
      var value := word[colon + 1..];
      assert word == name + ":" + value;
      if name == [] then Keyword(word)
      else
        var v := Unwrapped(value);
        assert ":" + "\"" == ":\"";
        assert word == name + ":" + v || word == name + ":\"" + v + "\"";
        if v == [] then Keyword(word) else NamedArg(name, v)
  }

  /** A word splits at its first colon: any non-empty, colon-free name before it
      and any value that stays non-empty once unwrapped make a named argument. */
  lemma ProcessWordNamedArgument(name: string, value: string)
    requires name != [] && ':' !in name && Unwrapped(value) != []
    ensures ProcessWord(name + ":" + value) == NamedArg(name, Unwrapped(value))
  {
    var word := name + ":" + value;
    FirstColon(name, value);
    assert word[..|name|] == name;
    assert word[|name| + 1..] == value;
  }

  /** The leniency rule: an empty name, or a value that is empty once unwrapped,
      leaves the whole word a keyword. */
  lemma ProcessWordLenient(name: string, value: string)
    requires ':' !in name && (name == [] || Unwrapped(value) == [])
    ensures name + ":" + value != "OR"
    ensures ProcessWord(name + ":" + value) == Keyword(name + ":" + value)
  {
    var word := name + ":" + value;
    FirstColon(name, value);
    assert word[..|name|] == name;
    assert word[|name| + 1..] == value;
  }

  // ---------------------------------------------------------------------------
  // tokenize

  /** One iteration of the tokenize loop exactly as written (parser.rb:34-64):
      the tokens it appends and the position it moves to. */
  function StepAsWritten(input: string, pos: nat): (r: Result<(seq<Token>, nat)>)
    requires pos < |input|
    ensures r.Ok? ==> pos <= r.value.1 <= |input|
  {
    var c := input[pos];
    if IsSkipped(c) then Ok(([], pos + 1))
    else if c == '(' then Ok(([LParen], pos + 1))
    else if c == ')' then Ok(([RParen], pos + 1))
    else if c == '-' && (pos == 0 || IsSpace(input[pos - 1])) then Ok(([Not], pos + 1))
    else if c == '-' then
      var end := BoundaryEnd(input, pos, false);
      Ok(([Keyword(input[pos..end])], end))
    else if c == '"' then
      var scanned :- PhraseScan(input, pos + 1);
      Ok(([Phrase(scanned.0)], scanned.1))
    else
      var end := BoundaryEnd(input, pos, false);
      Ok(([ProcessWord(input[pos..end])], end))
  }

  /** An iteration as written stays where it is exactly at a form feed or a
      vertical tab: `/\s/` ends the word at once, an empty keyword is appended,
      and the loop repeats the same iteration for ever. */
  lemma StepAsWrittenStalls(input: string, pos: nat)
    requires pos < |input|
    ensures (StepAsWritten(input, pos).Ok? && StepAsWritten(input, pos).value.1 == pos)
        <==> (input[pos] == FormFeed || input[pos] == VerticalTab)
    ensures input[pos] == FormFeed || input[pos] == VerticalTab ==>
      StepAsWritten(input, pos) == Ok(([Keyword("")], pos))
  {
  }

  /** The position the tokenize loop as written has reached after `n` more
      iterations from `pos`; `None` once an iteration has raised. */
  function PositionAfter(input: string, pos: nat, n: nat): (r: Option<nat>)
    requires pos <= |input|
    ensures r.Some? ==> pos <= r.value <= |input|
    decreases n
  {
    if n == 0 || pos == |input| then Some(pos)
    else
      match StepAsWritten(input, pos)
      case Err(_) => None
      case Ok(step) => PositionAfter(input, step.1, n - 1)
  }

  /** "a\fb" keeps the loop as written at position 1 for any number of
      iterations, so `tokenize` never returns on it. */
  lemma {:induction false} FormFeedHangs(n: nat)
    ensures PositionAfter("a\U{C}b", 0, n + 1) == Some(1)
  {
    var input := "a\U{C}b";
    assert input[1] == FormFeed;
    assert BoundaryEnd(input, 0, false) == 1 by {
      assert BoundaryEnd(input, 1, false) == 1;
    }
    assert input[0..1] == "a";
    assert StepAsWritten(input, 0) == Ok(([Keyword("a")], 1));
    StaysAtFormFeed(n);
  }

  lemma {:induction false} StaysAtFormFeed(n: nat)
    ensures PositionAfter("a\U{C}b", 1, n) == Some(1)
  {
    var input := "a\U{C}b";
    StepAsWrittenStalls(input, 1);
    if n > 0 {
      StaysAtFormFeed(n - 1);
    }
  }

  /** One iteration with the whitespace branch covering all of `/\s/`, as the
      word scanner and the hyphen rule already do. */
  function Step(input: string, pos: nat): (r: Result<(seq<Token>, nat)>)
    requires pos < |input|
    ensures r.Ok? ==> pos < r.value.1 <= |input|
    ensures r.Ok? ==> |r.value.0| <= 1 && forall t :: t in r.value.0 ==> !t.Eof? && (t.Operator? ==> t.text == "OR")
    ensures r.Err? ==> r.error == ExprifyError("Unterminated phrase")
  {
    if IsSpace(input[pos]) then Ok(([], pos + 1)) else StepAsWritten(input, pos)
  }

  /** What one iteration does, character class by character class: `/\s/` is
      skipped, a parenthesis is its own token, a hyphen is `Not` exactly when
      it opens the input or follows whitespace and is otherwise the first
      character of a keyword that is not passed through `process_word`, a
      quote opens a phrase and fails exactly when no quote follows, and any
      other character begins a word that `process_word` classifies. */
  lemma StepCases(input: string, pos: nat)
    requires pos < |input|
    ensures IsSpace(input[pos]) ==> Step(input, pos) == Ok(([], pos + 1))
    ensures input[pos] == '(' ==> Step(input, pos) == Ok(([LParen], pos + 1))
    ensures input[pos] == ')' ==> Step(input, pos) == Ok(([RParen], pos + 1))
    ensures input[pos] == '-' ==>
      (Step(input, pos) == Ok(([Not], pos + 1)) <==> pos == 0 || IsSpace(input[pos - 1]))
    ensures input[pos] == '-' && !(pos == 0 || IsSpace(input[pos - 1])) ==>
      var end := BoundaryEnd(input, pos, false);
      Step(input, pos) == Ok(([Keyword(input[pos..end])], end))
    ensures Step(input, pos).Err? <==> input[pos] == '"' && '"' !in input[pos + 1..]
    ensures input[pos] == '"' && Step(input, pos).Ok? ==>
      var (ts, next) := Step(input, pos).value;
      && ts == [Phrase(input[pos + 1..next - 1])]
      && input[next - 1] == '"' && '"' !in input[pos + 1..next - 1]
    ensures !IsSpecial(input[pos]) && input[pos] != '-' ==>
      var end := BoundaryEnd(input, pos, false);
      Step(input, pos) == Ok(([ProcessWord(input[pos..end])], end))
  {
  }

  /** The token sequence ends in its only `Eof`. */
  predicate SingleEofAtEnd(ts: seq<Token>) {
    |ts| > 0 && ts[|ts| - 1].Eof? && forall i :: 0 <= i < |ts| - 1 ==> !ts[i].Eof?
  }

  /** Every operator token is the word `OR`. */
  predicate OperatorsAreOr(ts: seq<Token>) {
    forall i :: 0 <= i < |ts| && ts[i].Operator? ==> ts[i].text == "OR"
  }

  /** The tokens of `input` from `pos` on. */
  function TokensFrom(input: string, pos: nat): (r: Result<seq<Token>>)
    requires pos <= |input|
    ensures r.Ok? ==> SingleEofAtEnd(r.value) && OperatorsAreOr(r.value)
    ensures r.Err? ==> r.error == ExprifyError("Unterminated phrase")
    ensures r.Err? ==> exists k :: pos <= k < |input| && input[k] == '"' && '"' !in input[k + 1..]
    decreases |input| - pos
  {
    if pos == |input| then Ok([Eof])
    else
      var step :- Step(input, pos);
      var rest :- TokensFrom(input, step.1);
      assert forall i :: 0 <= i < |step.0| ==> step.0[i] in step.0;
      Ok(step.0 + rest)
  }

  /** The tokens of `input`. */
  function Tokens(input: string): Result<seq<Token>> {
    TokensFrom(input, 0)
  }

  function Prefixed(prefix: seq<Token>, r: Result<seq<Token>>): Result<seq<Token>> {
    match r
    case Ok(ts) => Ok(prefix + ts)
    case Err(e) => Err(e)
  }

  /** Taking one step moves its tokens from the rest of the scan into the prefix. */
  lemma StepMoves(input: string, pos: nat, prefix: seq<Token>, emitted: seq<Token>, next: nat)
    requires pos < next <= |input|
    requires Step(input, pos) == Ok((emitted, next))
    ensures Prefixed(prefix, TokensFrom(input, pos)) == Prefixed(prefix + emitted, TokensFrom(input, next))
  {
    match TokensFrom(input, next)
    case Ok(ts) => assert prefix + (emitted + ts) == prefix + emitted + ts;
    case Err(_) =>
  }

  /** `tokenize` (parser.rb:29-69), with the whitespace branch of `Step`. */
  method Tokenize(input: string) returns (r: Result<seq<Token>>)
    ensures r == Tokens(input)
  {
    var tokens: seq<Token> := [];
    var pos: nat := 0;
    match TokensFrom(input, pos) {
      case Ok(ts) => assert [] + ts == ts;
      case Err(_) =>
    }
    while pos < |input|
      invariant pos <= |input|
      invariant Tokens(input) == Prefixed(tokens, TokensFrom(input, pos))
      decreases |input| - pos
    {
      var step := ScanToken(input, pos);
      if step.Err? {
        return Err(step.error);
      }
      var (emitted, next) := step.value;
      StepMoves(input, pos, tokens, emitted, next);
      tokens := tokens + emitted;
      pos := next;
    }
    tokens := tokens + [Eof];
    return Ok(tokens);
  }

  /** One iteration of the loop in `tokenize`: the tokens the character at
      `pos` starts, and where the next iteration begins. */
  method ScanToken(input: string, pos: nat) returns (r: Result<(seq<Token>, nat)>)
    requires pos < |input|
    ensures r == Step(input, pos)
  {
    var c := input[pos];
    if IsSpace(c) {
      return Ok(([], pos + 1));
    } else if c == '(' {
      return Ok(([LParen], pos + 1));
    } else if c == ')' {
      return Ok(([RParen], pos + 1));
    } else if c == '-' {
      if pos == 0 || IsSpace(input[pos - 1]) {
        return Ok(([Not], pos + 1));
      }
      var word, end := ScanToBoundary(input, pos);
      return Ok(([Keyword(word)], end));
    } else if c == '"' {
      var scanned := ScanPhrase(input, pos + 1);
      if scanned.Err? {
        return Err(scanned.error);
      }
      var (text, end) := scanned.value;
      return Ok(([Phrase(text)], end));
    }
    var word, end := ScanToBoundary(input, pos);
    return Ok(([ProcessWord(word)], end));
  }

  // ---------------------------------------------------------------------------
  // Whole queries

  /** A run of ordinary characters: no whitespace, parenthesis or quote. */
  predicate PlainWord(w: string) {
    w != [] && forall i :: 0 <= i < |w| ==> !IsSpecial(w[i])
  }

  /** A word of ordinary characters ends at the first whitespace or
      parenthesis after it, or at the end of the input. */
  lemma {:induction false} BoundaryEndOfWord(input: string, pos: nat, end: nat)
    requires pos <= end <= |input|
    requires forall k :: pos <= k < end ==> !IsSpecial(input[k])
    requires end == |input| || IsBoundary(input[end])
    ensures BoundaryEnd(input, pos, false) == end
    decreases end - pos
  {
    if pos < end {
      BoundaryEndOfWord(input, pos + 1, end);
    }
  }

  /** The token of an ordinary word: `process_word`'s, unless a hyphen inside
      a word starts it. */
  function WordToken(w: string, hyphenInside: bool): Token
    requires w != []
  {
    if w[0] == '-' && hyphenInside then Keyword(w) else ProcessWord(w)
  }

  /** An ordinary word up to `end`, not a hyphen that opens the input or
      follows whitespace, is one token. */
  lemma WordStep(input: string, pos: nat, end: nat)
    requires pos < end <= |input| && PlainWord(input[pos..end])
    requires end == |input| || IsBoundary(input[end])
    requires input[pos] == '-' ==> !(pos == 0 || IsSpace(input[pos - 1]))
    ensures Step(input, pos) == Ok(([WordToken(input[pos..end], pos > 0)], end))
  {
    forall k | pos <= k < end
      ensures !IsSpecial(input[k])
    {
      assert input[k] == input[pos..end][k - pos];
    }
    BoundaryEndOfWord(input, pos, end);
    StepCases(input, pos);
  }

  /** A step followed by the rest of the scan. */
  lemma TokensFromStep(input: string, pos: nat, emitted: seq<Token>, next: nat, rest: seq<Token>)
    requires pos < next <= |input|
    requires Step(input, pos) == Ok((emitted, next)) && TokensFrom(input, next) == Ok(rest)
    ensures TokensFrom(input, pos) == Ok(emitted + rest)
  {
  }

  /** `ruby`, `well-known`: an ordinary word not starting with a hyphen is one
      token, hyphens inside it included. */
  lemma SingleWord(w: string)
    requires PlainWord(w) && w[0] != '-'
    ensures Tokens(w) == Ok([ProcessWord(w), Eof])
  {
    assert w[0..|w|] == w;
    WordStep(w, 0, |w|);
    TokensFromStep(w, 0, [ProcessWord(w)], |w|, [Eof]);
    assert [ProcessWord(w)] + [Eof] == [ProcessWord(w), Eof];
  }

  lemma WellKnown()
    ensures Tokens("well-known") == Ok([Keyword("well-known"), Eof])
  {
    var w := "well-known";
    assert PlainWord(w);
    assert ':' !in w;
    SingleWord(w);
  }

  /** `-ruby`: a leading hyphen negates the word after it; `--ruby` negates
      the keyword `-ruby`, the second hyphen following a hyphen. */
  lemma HyphenWord(w: string)
    requires PlainWord(w)
    ensures Tokens("-" + w) == Ok([Not, WordToken(w, true), Eof])
  {
    var input := "-" + w;
    assert input[1..|input|] == w;
    StepCases(input, 0);
    WordStep(input, 1, |input|);
    TokensFromStep(input, 1, [WordToken(w, true)], |input|, [Eof]);
    TokensFromStep(input, 0, [Not], 1, [WordToken(w, true)] + [Eof]);
    assert [Not] + ([WordToken(w, true)] + [Eof]) == [Not, WordToken(w, true), Eof];
  }

  lemma DoubleHyphen()
    ensures Tokens("--a") == Ok([Not, Keyword("-a"), Eof])
  {
    assert "--a" == "-" + "-a";
    HyphenWord("-a");
  }

  /** `(-ruby`: a hyphen after a parenthesis does not follow whitespace, so it
      starts the keyword `-ruby` rather than negating. */
  lemma HyphenAfterParen(w: string)
    requires PlainWord(w)
    ensures Tokens("(-" + w) == Ok([LParen, Keyword("-" + w), Eof])
  {
    var input := "(-" + w;
    assert input[1..|input|] == "-" + w;
    StepCases(input, 0);
    WordStep(input, 1, |input|);
    TokensFromStep(input, 1, [Keyword("-" + w)], |input|, [Eof]);
    TokensFromStep(input, 0, [LParen], 1, [Keyword("-" + w)] + [Eof]);
    assert [LParen] + ([Keyword("-" + w)] + [Eof]) == [LParen, Keyword("-" + w), Eof];
  }

  /** `ruby -java`: the hyphen after the space negates the second word. */
  lemma HyphenAfterSpace(a: string, b: string)
    requires PlainWord(a) && PlainWord(b) && a[0] != '-'
    ensures Tokens(a + " -" + b) == Ok([ProcessWord(a), Not, WordToken(b, true), Eof])
  {
    var input := a + " -" + b;
    var n := |a|;
    var rest := [Not, WordToken(b, true), Eof];
    SplitAt(a, " -" + b, input);
    NegatedTail(input, n, b);
    assert input[0] == input[..n][0] && input[n] == input[n..][0];
    WordThen(input, n, rest);
    OneMore(ProcessWord(a), Not, WordToken(b, true), Eof);
  }

  lemma OneMore(x: Token, y: Token, z: Token, w: Token)
    ensures [x] + [y, z, w] == [x, y, z, w]
  {
  }

  /** The two halves of a concatenation. */
  lemma SplitAt(a: string, t: string, input: string)
    requires input == a + t
    ensures input[..|a|] == a && input[|a|..] == t
  {
  }

  /** An ordinary word opening the input, ended by whitespace or a
      parenthesis, is one token before the rest of the scan. */
  lemma WordThen(input: string, n: nat, rest: seq<Token>)
    requires 0 < n < |input| && PlainWord(input[..n]) && input[0] != '-' && IsBoundary(input[n])
    requires TokensFrom(input, n) == Ok(rest)
    ensures TokensFrom(input, 0) == Ok([ProcessWord(input[..n])] + rest)
  {
    assert input[0..n] == input[..n];
    WordStep(input, 0, n);
    TokensFromStep(input, 0, [ProcessWord(input[..n])], n, rest);
  }

  /** A space, a hyphen and an ordinary word at the end of the input: the
      negated word. */
  lemma NegatedTail(input: string, n: nat, b: string)
    requires n <= |input| && input[n..] == " -" + b && PlainWord(b)
    ensures TokensFrom(input, n) == Ok([Not, WordToken(b, true), Eof])
  {
    var tail := input[n..];
    assert input[n] == tail[0] == ' ' && input[n + 1] == tail[1] == '-';
    assert input[n + 2..] == tail[2..] == b;
    assert Step(input, n) == Ok(([], n + 1));
    assert Step(input, n + 1) == Ok(([Not], n + 2));
    var t := WordToken(b, true);
    WordAtEnd(input, n + 2, b);
    TokensFromStep(input, n + 1, [Not], n + 2, [t, Eof]);
    TokensFromStep(input, n, [], n + 1, [Not] + [t, Eof]);
    assert [] + ([Not] + [t, Eof]) == [Not, t, Eof];
  }

  /** An ordinary word that ends the input, not a hyphen that follows
      whitespace: its token, then `Eof`. */
  lemma WordAtEnd(input: string, m: nat, b: string)
    requires 0 < m <= |input| && input[m..] == b && PlainWord(b) && !IsSpace(input[m - 1])
    ensures TokensFrom(input, m) == Ok([WordToken(b, true), Eof])
  {
    assert input[m..|input|] == b;
    WordStep(input, m, |input|);
    TokensFromStep(input, m, [WordToken(b, true)], |input|, [Eof]);
    assert [WordToken(b, true)] + [Eof] == [WordToken(b, true), Eof];
  }
}
