# exprify in Dafny

exprify turns a search expression such as `ruby gem -deprecated "exact phrase" since:2024-01-01`
into a syntax tree, and then hands the tree to a transformer that produces a backend
representation. This project models its core and proves properties about that model:

- the tokenizer and the recursive-descent parser of `Exprify::Parser` (`tokenizer.dfy`, `parser.dfy`).
  The parser is a class with the token list and the position as fields. Each parse method
  is proved equal to a pure grammar function (`ExpressionAt`, `TermAt`, `UnitAt`, `FactorAt`);
- the grammar's round trip (`parser_props.dfy`). Rendering a tree back to tokens and parsing
  them gives the tree again, and every successful parse consumes exactly the rendering of its
  result;
- the syntax tree `Exprify::AST` (`ast.dfy`): the seven node classes, their readers, and
  `inspect`. `inspect` is proved injective by a reader that reads every printout back;
- `pretty_print` (`pretty.dfy`): a `Printer` class that collects text and break fragments.
  Each node's printout is proved to show its outline, meaning its class names and
  strings in order;
- the transformer protocol, `Transformers::Base` (`transformers.dfy`): double dispatch
  from `accept` to the `visit_*` callbacks;
- the example SQL backend, `MailSqlTransformer` (`mail_sql.dfy`, `sql_text.dfy`). It is proved
  to succeed exactly on the supported trees, and every condition it builds is proved to hold
  one `?` placeholder per bound parameter;
- the shared error and result types (`outcomes.dfy`).

Ruby exceptions become `Err` values of one `Error` datatype:

| Ruby exception | `Error` value |
|---|---|
| `Exprify::Error` | `ExprifyError(message)` |
| `NotImplementedError` | `NotImplementedError` |
| `NoMethodError` | `NoMethodError(name)` |
| `ArgumentError` | `ArgumentError(message)` |

## Model

| member | source | states |
|---|---|---|
| Tokenizer.Tokenize | lib/exprify/parser.rb:29-69 | `tokenize`'s loop produces `Tokens(input)`. The result ends in exactly one `eof`, and every operator token is `OR`. It fails only with "Unterminated phrase", and only when some `"` in the input has no later `"` (see Findings for the whitespace branch). |
| Tokenizer.ScanToken | lib/exprify/parser.rb:33-64 | One pass of the loop body: `Step`. |
| Tokenizer.Step | lib/exprify/parser.rb:36-64 | One step strictly advances. It emits at most one token, never `eof`, and only `OR` as an operator. It fails only with "Unterminated phrase". `StepCases` gives the token for each character class. |
| Tokenizer.StepCases | lib/exprify/parser.rb:36-64 | Whitespace gives no token. `(` and `)` give `lparen` and `rparen`. A `-` gives `not` exactly when it is at position 0 or follows `/\s/`; otherwise it starts a keyword running to the word boundary, not passed through `process_word`. A `"` fails exactly when no `"` follows, and otherwise gives the phrase up to the next `"`. Any other character gives `process_word` of the word up to the boundary. |
| Tokenizer.WordStep | lib/exprify/parser.rb:47-62 | A word without whitespace, parentheses or quotes, ended by a boundary, is one token. |
| Tokenizer.BoundaryEndOfWord | lib/exprify/parser.rb:71-90 | Such a word ends at the first whitespace or parenthesis after it, or at the end of input. |
| Tokenizer.SingleWord | lib/exprify/parser.rb:29-69 | A word that does not start with `-` gives its `process_word` token, then `eof`. A hyphen inside a word stays in it. |
| Tokenizer.WellKnown | lib/exprify/parser.rb:47-55 | `well-known` is one keyword. |
| Tokenizer.HyphenWord | lib/exprify/parser.rb:47-55 | `-w` gives `not` and then the word. When the word itself starts with `-`, it is a keyword kept verbatim. |
| Tokenizer.DoubleHyphen | lib/exprify/parser.rb:47-55 | `--a` gives `not`, then the keyword `-a`. |
| Tokenizer.HyphenAfterParen | lib/exprify/parser.rb:47-55 | `(-w` gives `lparen` and then the keyword `-w`, because the hyphen does not follow whitespace. |
| Tokenizer.HyphenAfterSpace | lib/exprify/parser.rb:47-55 | `a -b` gives the word `a`, then `not`, then the word `b`. |
| Tokenizer.TokensFrom | lib/exprify/parser.rb:29-69 | The tokens of the rest of the input end in a single `eof`, and all operators are `OR`. An error means that a `"` at or after the position has no later `"`. |
| Tokenizer.StepMoves | lib/exprify/parser.rb:33-65 | The tokens from one position equal the tokens of one step followed by the tokens from where that step ends. |
| Tokenizer.ScanToBoundary | lib/exprify/parser.rb:71-90 | The loop returns `input[start..end]`, where `end` is `BoundaryEnd`. |
| Tokenizer.BoundaryEndIsFirstStop | lib/exprify/parser.rb:75-87 | The word ends at the first whitespace or special character outside double quotes, or at the end of input. No earlier position stops it. |
| Tokenizer.BoundaryEnd | lib/exprify/parser.rb:71-90 | The boundary lies between the start and the end of the input. |
| Tokenizer.ScanPhrase | lib/exprify/parser.rb:92-98 | The loop computes `PhraseScan`. |
| Tokenizer.PhraseScan | lib/exprify/parser.rb:92-98 | It succeeds exactly when a `"` follows. The phrase is the text up to the first such quote, and the position after it is returned. Otherwise the error is "Unterminated phrase". |
| Tokenizer.PhraseEnd | lib/exprify/parser.rb:94 | This is the first `"` at or after the start, or the end of input. |
| Tokenizer.IndexOf | lib/exprify/parser.rb:105 | `String#index`: the first occurrence. |
| Tokenizer.Unwrapped | lib/exprify/parser.rb:113 | A value of length two or more enclosed in quotes loses both quotes. Any other value is unchanged. |
| Tokenizer.ProcessWord | lib/exprify/parser.rb:100-119 | The word becomes an operator exactly when it is `OR`. A word without `:` is a keyword. A named argument splits at the first colon. |
| Tokenizer.ProcessWordNamedArgument | lib/exprify/parser.rb:104-118 | `name:value` with a non-empty name and a non-empty unwrapped value gives `NamedArg(name, Unwrapped(value))`. |
| Tokenizer.ProcessWordLenient | lib/exprify/parser.rb:110-116 | An empty name or an empty unwrapped value makes the whole word a keyword. |
| Tokenizer.StepAsWritten | lib/exprify/parser.rb:36-64 | The loop body as written never moves backwards. |
| Tokenizer.StepAsWrittenStalls | lib/exprify/parser.rb:37 | As written, a step stays put exactly on a form feed or a vertical tab. |
| Tokenizer.FormFeedHangs | lib/exprify/parser.rb:33-65 | On `"a\fb"`, the loop as written is still at the form feed after any number of steps. |
| Tokenizer.PositionAfter | lib/exprify/parser.rb:33-65 | After n steps as written, the position lies within the input. |
| Ast.Children | lib/exprify/ast.rb:17-34 | `children` answers exactly for `AndNode` and `OrNode`, with their children. Any other class raises `NoMethodError` for `children`. |
| Ast.Expression | lib/exprify/ast.rb:51-104 | `expression` answers exactly for `NotNode` and `GroupNode`. Any other class raises `NoMethodError` for `expression`. |
| Ast.Value | lib/exprify/ast.rb:68-86 | `value` answers exactly for `KeywordNode` and `NamedArgumentNode`. Any other class raises `NoMethodError` for `value`. |
| Ast.Name | lib/exprify/ast.rb:85 | `name` answers exactly for `NamedArgumentNode`. Any other class raises `NoMethodError` for `name`. |
| Ast.Phrase | lib/exprify/ast.rb:121 | `phrase` answers exactly for `ExactPhraseNode`. Any other class raises `NoMethodError` for `phrase`. |
| Ast.Inspects | lib/exprify/ast.rb:29 | `children.map(&:inspect)` keeps length and order. |
| Ast.Fields | lib/exprify/ast.rb:28-134 | Every node's fields part is empty or starts with a space. |
| Ast.EscapeFirst | lib/exprify/ast.rb:80 | `String#inspect` keeps a character or writes a backslash escape that reads back to it. A kept character is never `"` or `\`. |
| Ast.Unescape | lib/exprify/ast.rb:80 | Reading an escape letter undoes writing it. |
| Ast.ReadQuotedOfQuote | lib/exprify/ast.rb:80 | A string's `inspect` reads back to the string, whatever follows. |
| Ast.ReadEscapedOfEscape | lib/exprify/ast.rb:80 | An escaped body followed by its closing quote reads back to the string. |
| Ast.ReadNodeOfInspect | lib/exprify/ast.rb:11-13 | Every node's `inspect` reads back to the node, whatever text follows. |
| Ast.ReadFieldsOf | lib/exprify/ast.rb:28-134 | The fields of each class read back to the node. |
| Ast.ReadChildrenOfInspects | lib/exprify/ast.rb:29 | The joined inspects of a child list read back to the list. |
| Ast.ReadNameAndValueOf | lib/exprify/ast.rb:98-100 | `name=... value=...` reads back to the named argument. |
| Ast.InspectInjective | lib/exprify/ast.rb:11-134 | Two trees with the same `inspect` are equal. |
| Ast.ClassNameIsLetters | lib/exprify/ast.rb:12 | A class name is letters only. |
| Parsing.ExpressionAt | lib/exprify/parser.rb:121-136 | On success, parsing moved forward. It stopped at a token that ends a term and is not `OR`. |
| Parsing.MoreTermsAt | lib/exprify/parser.rb:125-131 | The loop ends at a token that ends a term and is not `OR`. |
| Parsing.TermAt | lib/exprify/parser.rb:138-157 | On success, it consumed at least one token and stopped at `eof`, `)` or an operator. When the first token is already `eof`, `)` or an operator, it fails with exactly "No valid expression found". |
| Parsing.UnitsAt | lib/exprify/parser.rb:141-151 | The loop stops at `eof`, `)` or an operator, and returns no units only if it consumed nothing. |
| Parsing.UnitAt | lib/exprify/parser.rb:145-149 | A unit consumes at least one token. |
| Parsing.FactorAt | lib/exprify/parser.rb:159-183 | A factor starts at a keyword, phrase, named argument or `(`. The errors are "Unexpected closing parenthesis", "Unexpected end of input" and "Unexpected token: not/operator". |
| Parsing.ExpectAt | lib/exprify/parser.rb:193-198 | It succeeds exactly when the token has the expected kind, and then moves one token. Otherwise it fails with "Expected kind, got kind". |
| Parsing.ParseOf | lib/exprify/parser.rb:21-27 | Nil or blank input fails with "Empty input". |
| Parsing.UnitsOnward | lib/exprify/parser.rb:141-151 | One iteration of `parse_term`'s loop: a failing unit fails the term, and otherwise the remaining units follow it. |
| Parsing.Parser.constructor | lib/exprify/parser.rb:17-19 | A fresh parser holds no tokens. |
| Parsing.Parser.CurrentToken | lib/exprify/parser.rb:185-187 | `current_token` is the token at the position. |
| Parsing.Parser.ConsumeToken | lib/exprify/parser.rb:189-191 | The position moves by one. |
| Parsing.Parser.Expect | lib/exprify/parser.rb:193-198 | `expect` returns `ExpectAt` and moves past the expected token. |
| Parsing.Parser.ParseExpression | lib/exprify/parser.rb:121-136 | The loop's result and final position are those of `ExpressionAt`. |
| Parsing.Parser.ParseOrTerm | lib/exprify/parser.rb:126-127 | It consumes `OR` and returns the term after it. |
| Parsing.Parser.ParseTerm | lib/exprify/parser.rb:138-157 | The loop's result and final position are those of `TermAt`. |
| Parsing.Parser.ParseUnit | lib/exprify/parser.rb:145-149 | A `-` followed by a factor, or a factor, as `UnitAt` says. |
| Parsing.Parser.ParseFactor | lib/exprify/parser.rb:159-183 | The method's result and position are those of `FactorAt`. |
| Parsing.Parser.Parse | lib/exprify/parser.rb:21-27 | `parse` computes `ParseOf`: the empty-input check, then tokenize, then parse from position 0. |
| ParserProperties.ParseOfRender | lib/exprify/parser.rb:121-183 | A tree of the grammar's shape, rendered to tokens and closed by `eof`, parses back to itself. |
| ParserProperties.RenderOfParse | lib/exprify/parser.rb:121-183 | A successful parse has the grammar's shape and no one-child `And`/`Or`. The consumed tokens are exactly its rendering, followed by `eof` or `)`. |
| ParserProperties.ExpressionRenders | lib/exprify/parser.rb:121-136 | The tokens `ExpressionAt` consumes are the rendering of the tree it returns. |
| ParserProperties.ExpressionOfRender | lib/exprify/parser.rb:121-136 | Parsing the rendering of an expression at any position returns it and stops right after it. |
| ParserProperties.ExpressionHasNoShortLists | lib/exprify/parser.rb:133-135 | Parsed trees never hold an `AndNode` or `OrNode` with fewer than two children. |
| ParserProperties.TrailingTextDropped | lib/exprify/parser.rb:21-27 | Tokens after an unmatched `)` are ignored: the parse returns the expression before it. |
| ParserProperties.TokensOf | lib/exprify/parser.rb:159-183 | A rendering holds no `eof`, and its only operator is `OR`. |
| ParserProperties.ParseNegatedWord | lib/exprify/parser.rb:21-27 | `parse("-w")` for a plain keyword w gives `NotNode(KeywordNode(w))`. |
| ParserProperties.ParseWordAndNegatedWord | lib/exprify/parser.rb:21-27 | `parse("a -b")` gives `AndNode([KeywordNode(a), NotNode(KeywordNode(b))])`. |
| ParserProperties.EmptyGroupRejected | lib/exprify/parser.rb:138-157 | The tokens of `()` fail with "No valid expression found": the group holds no unit. |
| ParserProperties.LoneClosingRejected | lib/exprify/parser.rb:138-157 | The tokens of `)` fail with "No valid expression found". |
| ParserProperties.LeadingOrRejected | lib/exprify/parser.rb:121-123 | The tokens of `OR a` fail with "No valid expression found": there is no term before the operator. |
| ParserProperties.TrailingOrRejected | lib/exprify/parser.rb:125-128 | The tokens of `a OR` fail with "No valid expression found". `parse_term` raises first, so the "Expected expression after OR" check is never reached. |
| ParserProperties.UnclosedGroupRejected | lib/exprify/parser.rb:171-175 | The tokens of `(a` fail with "Expected rparen, got eof". |
| ParserProperties.NegatedNothingRejected | lib/exprify/parser.rb:145-147 | The tokens of `(-)` fail with "Unexpected closing parenthesis": `-` must be followed by a factor. |
| Transformers.CallbackOf | lib/exprify/ast.rb:7-130 | Every class except the base node sends exactly one of the callbacks `Base` defines. |
| Transformers.Send | lib/exprify/ast.rb:25 | A callback the transformer does not answer to raises `NoMethodError`. |
| Transformers.Accept | lib/exprify/ast.rb:7-9 | The base node's `accept` raises `NotImplementedError`. |
| Transformers.Base | lib/exprify/transformers/base.rb:7-71 | `Base` answers to exactly the seven `visit_*` callbacks. |
| Transformers.OneCallbackPerClass | lib/exprify/ast.rb:24-130 | Two nodes send the same callback exactly when they are of the same class. |
| Transformers.EveryCallbackIsSent | lib/exprify/transformers.rb:11-37 | Every callback `Base` defines is sent by some class. |
| Transformers.AcceptReadsOneCallback | lib/exprify/ast.rb:24-130 | `accept` looks at one callback only. |
| Transformers.AcceptPassesItself | lib/exprify/transformers/base.rb:12-14 | `transform(ast)` hands the tree itself to its callback. |
| Transformers.BaseRaisesOnEveryTree | lib/exprify/transformers/base.rb:12-70 | `Base#transform` raises `NotImplementedError` on every tree. |
| Transformers.PerClassRoutingMisses | lib/exprify/ast/not_node.rb:30-32 | With the per-class files, `NotNode` and `KeywordNode` send `transform_not` and `transform_keyword`, which no transformer defines. Every other class routes as in ast.rb. |
| Transformers.PerClassRoutingOnKeyword | lib/exprify/ast/keyword_node.rb:27-29 | The keyword `ruby` reaches `visit_keyword` as ast.rb routes it. With the per-class file it raises. |
| Pretty.Printer.constructor | lib/exprify/ast/node.rb:28-30 | A fresh printer holds no fragments. |
| Pretty.Printer.Text | lib/exprify/ast/node.rb:29 | `pp.text` appends one text fragment. |
| Pretty.Printer.Breakable | lib/exprify/ast/node.rb:40 | `pp.breakable` appends one break. |
| Pretty.Printer.Pp | lib/exprify/ast/keyword_node.rb:47 | `pp.pp(string)` appends the string's `inspect`. |
| Pretty.Printer.PrettyPrint | lib/exprify/ast/node.rb:28-30 | `pretty_print` appends `Fragments(n)` and nothing else. |
| Pretty.Printer.PrettyPrintList | lib/exprify/ast/and_node.rb:40-54 | The class name, then `children: [`, the children separated by commas, and `]`. |
| Pretty.Printer.PrettyPrintWrapper | lib/exprify/ast/not_node.rb:48-55 | The class name, a break, `expression: `, then the expression's printout. |
| Pretty.Printer.PrettyPrintLeaf | lib/exprify/ast/keyword_node.rb:42-49 | The class name, a break, the label and the string's `inspect`. |
| Pretty.Printer.PrettyPrintNamedArgument | lib/exprify/ast/named_argument_node.rb:44-54 | The class name, then the labelled name and the labelled value. |
| Pretty.Printer.PrettyPrintChildren | lib/exprify/ast/node.rb:38-52 | The loop appends `ChildrenFragments`, with a comma after every child but the last. |
| Pretty.ItemPrinted | lib/exprify/ast/node.rb:43-47 | One loop iteration prints child i and leaves the children from i+1 to print. |
| Pretty.PrintoutShowsOutline | lib/exprify/ast/node.rb:28-52 | Leaving out labels, punctuation and breaks, a node's printout is its outline. The outline is the class names and strings, in tree order. |
| Pretty.ShownConcat | lib/exprify/ast/node.rb:28-52 | What a printout shows distributes over concatenation. |
| Pretty.ChildrenShowOutline | lib/exprify/ast/or_node.rb:44-53 | A child list shows its children's outlines in order. |
| MailSql.VisitKeyword | examples/mail_sql_transformer.rb:15-17 | It succeeds exactly for a node that answers `value`. It binds the value as a prefix pattern and then as a substring pattern, in `(subject LIKE ? OR body LIKE ?)`. Any other node raises `NoMethodError` for `value`. |
| MailSql.VisitExactPhrase | examples/mail_sql_transformer.rb:66-68 | It succeeds exactly for an exact phrase and binds the phrase twice in `(subject = ? OR body = ?)`. Any other node raises `NoMethodError` for `phrase`. |
| MailSql.VisitNamedArgument | examples/mail_sql_transformer.rb:83-92 | `since` gives `date >= ?` and `until` gives `date <= ?`, each binding the resolved date. Any other name raises `ArgumentError` "Unknown argument: name". |
| MailSql.Combined | examples/mail_sql_transformer.rb:23-51 | On success the node is an `AndNode`/`OrNode`. The condition is the children's conditions joined by the separator, and the parameters are the children's parameter lists concatenated in child order. Any other node raises `NoMethodError` for `children`. |
| MailSql.Gather | examples/mail_sql_transformer.rb:27-31 | On success the conditions are `Texts(cs)` and the parameters are `ParamLists(cs)` flattened. `TextsAt` and `ParamListsAt` say entry i is child i's. |
| MailSql.CombinedSucceedsIff | examples/mail_sql_transformer.rb:23-51 | `visit_and`/`visit_or` succeed exactly on an `AndNode`/`OrNode` whose every child translates. |
| MailSql.TextsAt | examples/mail_sql_transformer.rb:27-29 | Condition i of the joined list is child i's condition. |
| MailSql.ParamListsAt | examples/mail_sql_transformer.rb:27-30 | Parameter list i of the concatenation is child i's parameters. |
| MailSql.VisitNot | examples/mail_sql_transformer.rb:57-60 | It succeeds exactly when the node has an expression that translates. The condition is exactly `NOT (` + the expression's condition + `)`, and the parameters are the expression's. A node without `expression` raises `NoMethodError` for it. |
| MailSql.VisitGroup | examples/mail_sql_transformer.rb:74-77 | Intended behaviour: it succeeds exactly when the node has an expression that translates. The condition is exactly `(` + the expression's condition + `)`, and the parameters are the expression's. |
| MailSql.VisitGroupAsWritten | examples/mail_sql_transformer.rb:74-77 | As written it always raises `NoMethodError`. |
| MailSql.MailSqlTransformer | examples/mail_sql_transformer.rb:10-110 | It answers to all seven callbacks, with `visit_group` as written or corrected. `TransformIsSql` gives what it computes. |
| MailSql.TransformIsSql | examples/mail_sql_transformer.rb:15-92 | For either `visit_group`, `transform` through double dispatch equals the direct recursive translation `Sql` of that version. Every callback recurses through its own transformer. |
| MailSql.VisitCombined | examples/mail_sql_transformer.rb:23-51 | The `each` loop computes `Combined`: the conditions are joined by the separator, the parameters concatenated in child order, and the first error is propagated. |
| MailSql.GatherStep | examples/mail_sql_transformer.rb:27-31 | One iteration appends one condition and that child's parameters. |
| MailSql.GatherKeepsError | examples/mail_sql_transformer.rb:27-31 | The first failing child's error is the result. |
| MailSql.PlaceholdersMatchParams | examples/mail_sql_transformer.rb:15-92 | Every condition built has exactly one `?` per bound parameter. |
| MailSql.KeywordPlaceholders | examples/mail_sql_transformer.rb:15-17 | A keyword condition has two `?`, one per bound pattern. |
| MailSql.PhrasePlaceholders | examples/mail_sql_transformer.rb:66-68 | A phrase condition has two `?`, one per binding of the phrase. |
| MailSql.DatePlaceholders | examples/mail_sql_transformer.rb:83-92 | A date bound has one `?`, for the resolved date. |
| MailSql.CombinedBalanced | examples/mail_sql_transformer.rb:23-51 | The same holds for `AND`/`OR` joins. |
| MailSql.SucceedsIffSupported | examples/mail_sql_transformer.rb:15-92 | The transformer succeeds exactly on trees with no base node, whose every named argument is `since`/`until` with a resolvable date, and, with `visit_group` as written, no group anywhere. |
| MailSql.GatherSucceedsIff | examples/mail_sql_transformer.rb:27-31 | Gathering succeeds exactly when every child is supported. |
| MailSql.GroupAsWrittenFails | examples/mail_sql_transformer.rb:75 | On a tree the corrected transformer accepts, the transformer as written raises `NoMethodError("child")` as soon as a group occurs anywhere: at the root, or under `AND`, `OR` or `NOT`. On a tree without groups the two agree. |
| MailSql.GatherAsWritten | examples/mail_sql_transformer.rb:27-31 | Over a child list, the transformer as written raises `NoMethodError("child")` when any child contains a group. Otherwise it gathers as the corrected one does. |
| MailSql.GroupedKeyword | examples/mail_sql_transformer.rb:74-77 | `(v)` raises as written. Corrected, it gives the keyword's condition in parentheses. |
| MailSql.NestedGroup | examples/mail_sql_transformer.rb:74-77 | `a (b)` raises as written, when `visit_and` reaches the group. Corrected, it gives the keyword's condition, `AND`, and the grouped keyword's condition in parentheses, with four parameters in order. |
| MailSql.PairCombined | examples/mail_sql_transformer.rb:23-34 | Two children that translate give their conditions joined by the separator and their parameters one after the other. |
| MailSql.AndOfKeywords | examples/mail_sql_transformer_spec.rb:18-23 | `ruby gem` gives the two keyword conditions joined by `AND`, with four parameters in order. |
| MailSql.NotOfKeyword | examples/mail_sql_transformer_spec.rb:32-37 | `-ruby` gives `NOT (...)` with the keyword's parameters. |
| MailSql.DateBounds | examples/mail_sql_transformer_spec.rb:46-50 | `since:` gives `date >= ?` and `until:` gives `date <= ?`. Each binds the resolved date. |
| SqlText.SubjectOrBodyPlaceholders | examples/mail_sql_transformer.rb:16 | Testing subject and body binds the test's placeholders twice. |
| SqlText.DateBoundPlaceholders | examples/mail_sql_transformer.rb:86 | A date bound holds exactly one placeholder. |
| PlaceholderCount.JoinPlaceholders | examples/mail_sql_transformer.rb:33 | Joining with a separator that has no `?` adds no placeholder. |
| PlaceholderCount.PlaceholdersConcat | examples/mail_sql_transformer.rb:59 | Placeholders add up over concatenation. |

## Left out

- Input and output: there is no `puts` and no `pp` output device. `Printer` collects fragments in a sequence.
- The demonstration block (examples/mail_sql_transformer.rb:112-151): it prints and only calls the modelled operations.
- `parse_date` (examples/mail_sql_transformer.rb:98-109) reads the clock and Ruby's `Date` parser. It becomes the `Resolver` parameter. A resolver error stands for `Date.parse` raising.
- MailSql.DateBounds covers `since` and `until` with any resolver. It does not model concrete dates such as `Mar 5 2025` or `today`, which depend on the date library and the clock.
- Pretty.Printer.PrettyPrint: models the fragments and their order but not `nest(2)`, the line width, or where breaks turn into newlines. `PP` lays those out.
- Pretty.Printer.Pp: a string containing a newline is printed by `PP` as several concatenated parts. The model writes the single `inspect` form.
- Ast.EscapeFirst: models `String#inspect` for `"`, `\`, the named control escapes (`\n`, `\t`, `\r`, `\f`, `\v`, `\b`, `\a`, `\e`) and `#` before `{`, `$`, `@`. Other non-printable characters and encodings are kept as they are.
- Tokenizer.TokensFrom: an error is stated to imply a `"` with no later `"`. The converse needs a token to start at that quote; a quote inside a word does not open a phrase. So the converse is stated per step, in `StepCases`, and not for the whole input.
- Parsing.ParseOf: `String#strip` is taken to remove `/\s/` and NUL. The model does not use Ruby's encoding-specific whitespace.
- The `nil` checks at lib/exprify/parser.rb:123 and 128 cannot fire, because `parse_term` returns a node or raises. The model has no path for them.
- `current_token` past the end of the token list returns `nil` in Ruby. The model keeps every position within the list, because the list always ends in `eof` and nothing consumes past it.
- Node equality and `initialize` with a variable number of children: nodes are values of one datatype. `AndNode.new` with zero or one child can be built, as in Ruby.
- Token objects carry a type and a value. The model has one constructor per type, and the constant values (`(`, `)`, `-`, `nil`) are left implicit.
- Dynamic method lookup is modelled as a map from callback names to functions. Ruby's `respond_to?`, `method_missing` and subclassing beyond overriding callbacks are left out.

## Findings

| source | as written | input that shows it | evidently intended | confidence | as-written member | corrected member |
|---|---|---|---|---|---|---|
| lib/exprify/parser.rb:37 | The skip branch lists only space, tab, newline and carriage return. A form feed or vertical tab falls to `scan_to_boundary`, which stops at once on `/\s/`. `pos` never moves, so `tokenize` loops forever. | `"a\fb"` (also `"a\vb"`) | Skip every `/\s/` character, as `scan_to_boundary` and the `-` rule already treat them | high; not executed | Tokenizer.FormFeedHangs | Tokenizer.Tokenize |
| examples/mail_sql_transformer.rb:75 | `visit_group` calls `node.child`, which `GroupNode` does not define. Every parenthesised group raises `NoMethodError`, at the root or nested under `AND`, `OR` or `NOT` | `(ruby)`, `a (b)`, `-(b)` | `node.expression`, the reader `GroupNode` defines (lib/exprify/ast.rb:104) | high; not executed | MailSql.GroupAsWrittenFails | MailSql.TransformIsSql |
| lib/exprify/ast/not_node.rb:30-32 | `accept` sends `transform_not` (keyword_node.rb:27-29 sends `transform_keyword`), which neither `Transformers::Base` nor any transformer defines | `-ruby`, `ruby` with the per-class files loaded | `visit_not` / `visit_keyword`, as lib/exprify/ast.rb:58-60 and 75-77 send | medium; not executed | Transformers.PerClassRoutingMisses | Transformers.AcceptPassesItself |
