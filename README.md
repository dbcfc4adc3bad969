# laggard, modelled in Dafny

laggard is a Python library for writing recursive-descent parsers. This
project models its core and proves properties of the model.

- **The buffer** (`laggard/buffer.py`) is a cursor over the source text. It
  fetches characters, honouring an optional skip-set. It keeps a stack of
  saved indices: `with buffer:` saves the index on entry, restores it when
  the block raises and drops it otherwise. `cry` raises a `ParseException`
  that reports the position saved on top.
- **Rule builders** (`laggard/rulebuilders.py`, `laggard/functionalrulebuilders.py`)
  are nodes such as literals, charsets, options, repetitions, choices and
  sequences. They are built with `create`, `|` and `&`, named or aliased,
  and flattened before their parsers are generated.
- **Helpers** (`laggard/helpers.py`) are the `multiple`, `optional` and
  `none_or_more` factories, and `OptionallyNamedTuple`, the result of a
  sequence, which is indexable by position and by alias.
- **The grammar language.** `laggard/grammar_parser.py` reads a grammar text
  into the tree of `laggard/grammar_asts.py` and `laggard/ast.py`.
  `laggard/codegen.py` turns that tree into the Python source of a parser
  class: one function per rule and one per sub-expression.
- **`Parser`** (`laggard/abstracts.py`) is the base class of generated
  parsers.
- **The older layer** (`laggard/parserGenerators.py`, `laggard/rule.py`)
  provides `Rule`, `makeRule` and the closure generators.

## How the model is built

Values become datatypes: rule nodes (`RuleBuilders.Node`), syntax trees
(`Ast.Ast`), the objects of the older layer (`Legacy.Obj`) and the
generator's state (`CodeGen.Gen`). What a parser does to the buffer is a
function from a start index to an outcome and the index where the buffer
is left. These functions are `Parsers.Raw`, `Parsers.Complete`,
`GrammarSpec.PRule` and its siblings, and `Legacy.Call`.

The objects the source updates in place are classes with the same fields:

- `Cursor.Buffer`
- `GrammarParsing.GrammarParser`
- `ParserBase.BaseParser`
- `CodeGen.CodeGenerator`

Their methods carry the source's loops and `with buffer:` blocks. Each is
proved to end in the state the functions describe, with the buffer's stack
as it found it.

How outcomes are represented:

- A raised `ParseException` is a failure outcome that carries its message.
- An exception of another kind is a separate outcome, because no
  `except ParseException` catches it: `Crash` in the newer layer and
  `LCrash` in the older one. Options, repetitions, choices and sequences
  pass it on, abandoning their `with buffer:` blocks.
- A repetition whose inner parser succeeds without consuming input loops
  forever in the source. It is the outcome `Diverge` here.

The user's own functions are parameters of type `Parsers.Env`: the
functions of `FunctionalRuleBuilder`s and the transformers. Such a
function is assumed never to move the index backwards or past the end. It
may return a value, raise a `ParseException` or raise another exception. A
transformer does the same, and runs after the raw parser's `with buffer:`
has been left.

Python's `str`/`repr` of numbers, strings and collections is written out
where a message or a generated name depends on it. So is
`textwrap.indent`, for texts whose only line break is `\n` (see
"## Left out").

## Model

| member | source | states |
|---|---|---|
| Base.NatToString | laggard/codegen.py:114 | `str(n)` is a non-empty run of decimal digits, one digit exactly when `n < 10` |
| Base.NatToStringInjective | laggard/codegen.py:109-115 | distinct counters give distinct decimal texts |
| Base.LineEnd | laggard/codegen.py:102 | the first line of a text ends at its first line break, or at its end |
| Base.IndentKeepsLineBreaks | laggard/codegen.py:72 | `textwrap.indent` with a prefix that has no line break adds or removes no line breaks |
| Base.IndentStartsWithPrefix | laggard/codegen.py:102 | an indented text whose first character is not blank starts with the prefix followed by its own first line |
| Ast.Children | laggard/grammar_asts.py:10-47 | every node in a node's `children` list is a proper sub-term of it |
| Ast.ConstructorChildren | laggard/grammar_asts.py:4-49 | what each constructor hands to `ASTNode.__init__`: the list itself for `Combined`, `Choice` and `Grammar`; `[content]` for `Rule`, whose name is kept apart; the arguments in order for the others |
| Ast.StrRepr | laggard/ast.py:33 | `repr` of a string is quoted, with the same quote character at both ends |
| Ast.PrettyString | laggard/ast.py:20-35 | the pretty string is the node's name and then, when the depth allows, the children's texts, each on a new line, indented by two spaces |
| Ast.ChildrenString | laggard/ast.py:27-33 | the loop accumulates one line per child, in order |
| Ast.ChildString | laggard/ast.py:29-33 | a child node contributes its pretty string at the next depth; any other child contributes its `repr` |
| Ast.PrettyWithoutChildren | laggard/ast.py:20-22 | at depth 0, or any depth below -1, only the name is printed |
| Ast.PrettyStartsWithName | laggard/ast.py:21 | every pretty string starts with `get_name()` |
| Ast.DeepEnoughIsUnlimited | laggard/ast.py:20-35 | a depth at least the tree's height prints the same as the unlimited depth -1 |
| Cursor.LastNewline | laggard/buffer.py:47 | `rfind("\n")` is the index of a line break with none after it, or -1 when there is none |
| Cursor.PositionIsWalk | laggard/buffer.py:44-48 | the line and column computed with `count` and `rfind` equal those found by walking the text before the index, 1-based |
| Cursor.PositionIsOneBased | laggard/buffer.py:44-48 | every position inside the text has line and column at least 1 |
| Cursor.NextChar | laggard/buffer.py:63-71 | `fetch_char` returns `[EOF]` at the end of the text, otherwise the character just before the new index; when skipping, every character it passed over is in the skip-set and the one returned is not |
| Cursor.NextCharNoSkip | laggard/buffer.py:63-69 | without skipping, `fetch_char` takes exactly the next character |
| Cursor.NextCharEofIff | laggard/buffer.py:63-71 | with skipping, `fetch_char` returns `[EOF]` exactly when the rest of the text is all skip-set characters |
| Cursor.FetchNoSkipIsSlice | laggard/buffer.py:92-94 | without skipping, a fetch that stays inside the text returns exactly the next `count` characters |
| Cursor.FetchSkipIsSliceWhenClean | laggard/buffer.py:92-94 | with skipping, a stretch that holds no skip-set character is fetched verbatim |
| Cursor.FetchInitialSkipsOnlyLeading | laggard/buffer.py:86-94 | the `"initial"` mode drops leading skip-set characters, then takes the next `count` characters verbatim |
| Cursor.NextCharSkipsTo | laggard/buffer.py:63-69 | skipping lands on the first character outside the skip-set |
| Cursor.FetchInitialOfZero | laggard/buffer.py:87-93 | `fetch(0, "initial")` still fetches one character |
| Cursor.CryReportsStackTop | laggard/buffer.py:122-128 | the `cry` message names the position saved on top of the stack, whatever lies below it |
| Cursor.AtEofIffAtMostOneLeft | laggard/buffer.py:139-141 | `is_eof` holds exactly when at most one character is left after the index |
| Cursor.AtEofWithTrailingChar | laggard/buffer.py:141 | one unread trailing character still counts as the end of input |
| Cursor.Buffer.constructor | laggard/buffer.py:33-42 | a new buffer is at index 0 with an empty stack |
| Cursor.Buffer.FetchChar | laggard/buffer.py:63-71 | the character returned and the new index are `NextChar`'s |
| Cursor.Buffer.FetchMany | laggard/buffer.py:92-93 | the loop's text and index are those of `count` successive `fetch_char` calls; a negative count fetches nothing |
| Cursor.Buffer.Fetch | laggard/buffer.py:73-94 | the text and new index are `FetchText`'s, in each of the three skip modes |
| Cursor.Buffer.Peek | laggard/buffer.py:96-101 | `peek` returns what `fetch` would return and leaves index and stack unchanged |
| Cursor.Buffer.Mark | laggard/buffer.py:103-108 | the current index is pushed on the stack |
| Cursor.Buffer.Abandon | laggard/buffer.py:110-114 | the index returns to the popped top of the stack |
| Cursor.Buffer.Commit | laggard/buffer.py:116-120 | the top of the stack is dropped and the index is kept |
| Cursor.Buffer.Enter | laggard/buffer.py:130-131 | entering a `with` block pushes the current index |
| Cursor.Buffer.Exit | laggard/buffer.py:133-137 | leaving the block pops the stack, restoring the saved index exactly when the block raised |
| Cursor.WithBlock | laggard/buffer.py:130-137 | a whole `with buffer:` block leaves the stack as it was, and the index where the body left it, or where it was on entry after an exception |
| Primitives.ExpectP | laggard/abstracts.py:35-45 | `expect` succeeds only with the literal itself; on failure the index is unchanged; a one-character match consumes input |
| Primitives.ExpectOneOfP | laggard/abstracts.py:47-58 | `expectOneOf` returns a member of the charset, consuming it; on failure the index is unchanged |
| Primitives.ExpectOneOfNoSkip | laggard/abstracts.py:47-58 | without skipping, `expectOneOf` succeeds exactly when the character at the index is in the charset, and takes just that character |
| Primitives.RunEnd | laggard/abstracts.py:60-71 | the longest run of charset characters from an index ends at the first character outside the charset |
| Primitives.ExpectManyOutOfP | laggard/abstracts.py:60-71 | `expectManyOutOf` returns at least one character, all of them in the charset; on failure the index is unchanged |
| Primitives.ScanTo | laggard/abstracts.py:86-95 | the scan stops at the first character in the stop set, or at the end |
| Primitives.ParseUntilP | laggard/abstracts.py:86-95 | `parseUntil` returns the text before the first stop character and consumes that character; on failure the index is unchanged |
| Primitives.Expect | laggard/abstracts.py:35-45 | on a buffer: result and new index are `ExpectP`'s, and the stack is unchanged |
| Primitives.ExpectOneOf | laggard/abstracts.py:47-58 | on a buffer: result and new index are `ExpectOneOfP`'s |
| Primitives.ExpectManyOutOf | laggard/abstracts.py:60-71 | on a buffer: result and new index are `ExpectManyOutOfP`'s |
| Primitives.TakeRun | laggard/abstracts.py:60-71 | the greedy loop stops at `RunEnd` and returns exactly the characters it passed |
| Primitives.ParseUntil | laggard/abstracts.py:86-95 | on a buffer: result and new index are `ParseUntilP`'s |
| RuleBuilders.Size | laggard/rulebuilders.py:104-165 | every rule node has a positive size, used to measure flattening |
| RuleBuilders.Reconfigure | laggard/rulebuilders.py:44-46 | `reconfigure` replaces `name` and `transformer` only when given, and never touches the alias |
| RuleBuilders.ReconfigureIdempotent | laggard/rulebuilders.py:44-46 | reconfiguring twice with the same arguments is reconfiguring once, and no arguments change nothing |
| RuleBuilders.FreshHasNoAlias | laggard/rulebuilders.py:36-42 | a new rule has no alias, and has the name and transformer it was given, or `None` |
| RuleBuilders.WithAlias | laggard/rulebuilders.py:70-74 | `rule(alias)` is a copy that differs only in its alias; an aliased rule is never anonymous |
| RuleBuilders.Create | laggard/rulebuilders.py:13-34 | `create` fails, as `None`, exactly for a source that is not a rule, string or collection, with or without a flag (the source's deferred failure of a wrapper around `None` is collapsed, see "## Left out") |
| RuleBuilders.CreateOfRuleIsIdentity | laggard/rulebuilders.py:26-28 | `create` of a rule without arguments hands the rule back unchanged |
| RuleBuilders.CreateWrapper | laggard/rulebuilders.py:18-24 | both flags wrap the plain rule in zero-or-more, `multiple` alone in one-or-more, `optional` alone in an option; the wrapper carries the remaining keywords and no alias |
| RuleBuilders.CreatePlain | laggard/rulebuilders.py:25-34 | without flags, a string gives a literal, a collection a charset and a rule itself reconfigured; a given name is applied |
| RuleBuilders.OperatorsBuildGroups | laggard/rulebuilders.py:52-65 | `__or__` and `__and__` build anonymous two-member groups in operand order, converting a non-rule operand first |
| RuleBuilders.ReflectedAndIsChoice | laggard/rulebuilders.py:67-68 | `__rand__` builds the same `Choice` that `__ror__` builds |
| RuleBuilders.MembersSmaller | laggard/rulebuilders.py:111-113 | a group's members are together one smaller than the group |
| RuleBuilders.Flatten | laggard/rulebuilders.py:115-120 | `flatten` keeps a node's name, alias, transformer and kind, leaves non-groups alone and never grows a node |
| RuleBuilders.Splice | laggard/rulebuilders.py:116-120 | the enumeration never changes the children it has passed and never grows the list |
| RuleBuilders.FlattenInPlace | laggard/rulebuilders.py:115-120 | the in-place loop over the live list computes `Flatten` |
| RuleBuilders.CleanIsFlat | laggard/rulebuilders.py:115-153 | the reference reading (flatten every child, splice every anonymous child of the same kind) leaves no group with a spliceable child |
| RuleBuilders.CleanKeepsNonEmpty | laggard/rulebuilders.py:115-153 | the reference reading keeps every group non-empty |
| RuleBuilders.CleanOfFlat | laggard/rulebuilders.py:115-153 | a flat rule is its own reference reading |
| RuleBuilders.FlattenIsClean | laggard/rulebuilders.py:115-153 | without empty groups, `flatten` agrees with the reference reading |
| RuleBuilders.SpliceIsClean | laggard/rulebuilders.py:116-120 | from any index on, the enumeration splices what the reference reading splices |
| RuleBuilders.FlattenIsFlat | laggard/rulebuilders.py:115-153 | without empty groups, no group keeps an anonymous child of its own kind after `flatten` |
| RuleBuilders.FlattenIdempotent | laggard/rulebuilders.py:115-153 | without empty groups, flattening twice is flattening once |
| RuleBuilders.ExpandInCleanList | laggard/rulebuilders.py:118-120 | every member a child contributes appears in the flattened list |
| RuleBuilders.NamedChildKept | laggard/rulebuilders.py:118-120 | a named or aliased child is not spliced: its flattened form stays a member |
| RuleBuilders.ChoiceAssociates | laggard/rulebuilders.py:115-120 | a choice whose first member is the anonymous choice of `a` and `b`, followed by `c`, flattens to the three-way choice of `a`, `b` and `c`, which itself flattens to itself |
| RuleBuilders.CombinedAssociates | laggard/rulebuilders.py:148-153 | a sequence whose first part is the anonymous sequence of `a` and `b`, followed by `c`, flattens to the three-part sequence of `a`, `b` and `c`, which itself flattens to itself |
| RuleBuilders.NestedGroupFlattens | laggard/rulebuilders.py:115-120 | a group whose first member is an anonymous group of the same kind holding `a` and `b`, followed by `c`, flattens exactly as the group of `a`, `b` and `c` with the outer settings does, for any operands without empty groups and any inner transformer, which splicing drops |
| RuleBuilders.ChoiceNestingFlattens | laggard/rulebuilders.py:115-120 | the choice of (an anonymous choice of `a` and `b`) and `c` flattens as the choice of `a`, `b` and `c`, for any operands without empty groups and any outer settings |
| RuleBuilders.CombinedNestingFlattens | laggard/rulebuilders.py:148-153 | `(a & b) & c` with an anonymous inner sequence flattens as `a & b & c`, for any operands without empty groups and any outer settings |
| RuleBuilders.EmptyGroupSkipsNextChild | laggard/rulebuilders.py:116-120 | splicing an empty anonymous group leaves the child after it unvisited |
| Helpers.MappingsAreLastOccurrence | laggard/helpers.py:135-138 | a name is a key exactly when it occurs, and then it maps to its last occurrence |
| Helpers.Build | laggard/helpers.py:125-138 | the tuple is built exactly when the lengths agree, otherwise `ValueError` with the source's message; it keeps the results, and every index in it is a position |
| Helpers.NewTuple | laggard/helpers.py:125-138 | the constructor's loop builds what `Build` describes |
| Helpers.GetItem | laggard/helpers.py:150-154 | a string key succeeds exactly when it is a name, an integer exactly when it is in `-len .. len-1`; a success is one of the results |
| Helpers.CreateKeepsResults | laggard/helpers.py:140-157 | the formatter from `create` builds a tuple whose length and iteration are the results it was given |
| Helpers.NameAgreesWithPosition | laggard/helpers.py:150-154 | looking up a name gives the result at its position |
| Helpers.UnknownNameFails | laggard/helpers.py:150-152 | a name that does not occur is a `KeyError` |
| Helpers.NegativeIndexFromEnd | laggard/helpers.py:153-154 | negative indices count from the end |
| Helpers.FactoriesWrap | laggard/helpers.py:7-44 | `multiple`, `optional` and `none_or_more` wrap the rule once, in the kind each is named after, with the keywords given and no alias; an unknown source fails, as `None` (the deferred failure is collapsed, see "## Left out") |
| Helpers.FlagsCombine | laggard/helpers.py:7-44 | `multiple(optional=True)` and `optional(multiple=True)` build what `none_or_more` builds |
| Parsers.Aliases | laggard/rulebuilders.py:158 | the names of a sequence's tuple are its parts' aliases, in order |
| Parsers.Complete | laggard/rulebuilders.py:83-101 | a complete parser never moves the index backwards or past the end, whether the raw parse or the transformer fails |
| Parsers.Raw | laggard/functionalrulebuilders.py:27-172 | no raw parser moves the index backwards or past the end |
| Interpreter.RunComplete | laggard/rulebuilders.py:83-101 | the wrapper, run on a buffer, returns `Complete`'s outcome, a failure raised by the transformer included, and ends at `Complete`'s index with the stack as it was |
| Interpreter.RunRaw | laggard/functionalrulebuilders.py:27-108 | each raw parser, run on a buffer, ends where `Raw` says, with the stack as it was |
| Interpreter.RunRepeat | laggard/functionalrulebuilders.py:127-172 | the repetition loop, run on a buffer, ends where `Rep` says |
| Interpreter.RunChoice | laggard/rulebuilders.py:122-134 | the alternatives loop, run on a buffer, ends where `Raw` says for the choice |
| Interpreter.RunCombined | laggard/rulebuilders.py:155-165 | the sequence, run on a buffer, ends where `Raw` says for it |
| ParserProperties.LiteralParser | laggard/functionalrulebuilders.py:45-54 | a literal parser compares the next `len(literal)` fetched characters with the literal; on a mismatch it reports both and restores the index |
| ParserProperties.LiteralMatchesText | laggard/functionalrulebuilders.py:45-54 | text equal to the literal, with none of its characters in the skip-set, is consumed and returned |
| ParserProperties.CharsetParser | laggard/functionalrulebuilders.py:72-81 | a charset parser fetches one character and returns it when it is listed; otherwise it fails and restores the index |
| ParserProperties.CharsetAcceptsEof | laggard/functionalrulebuilders.py:75-77 | a charset that lists `[EOF]` accepts the end of input |
| ParserProperties.FunctionalIsItsFunction | laggard/functionalrulebuilders.py:27-28 | a functional rule's raw parser is its function |
| ParserProperties.CompleteAppliesTransformer | laggard/rulebuilders.py:83-101 | the complete parser applies the transformer to a success only and returns what the transformer returns or raises; other outcomes pass through; the index is always the raw parse's |
| ParserProperties.TransformerFailureKeepsIndex | laggard/rulebuilders.py:89-93 | a transformer that raises after a raw success makes the rule fail at the index the raw parse reached |
| ParserProperties.RaisingTransformerAdvances | laggard/rulebuilders.py:89-93 | the literal `"ab"` with a raising transformer fails on the text `"ab"` with the buffer at 2, not at its entry index 0 |
| ParserProperties.OptionalNeverFails | laggard/functionalrulebuilders.py:98-108 | an option never fails: the inner result, or `None` where the inner rule failed |
| ParserProperties.RepShape | laggard/functionalrulebuilders.py:127-172 | the loop keeps what it collected, in order, and fails only when one match is demanded and none was found, restoring the index |
| ParserProperties.MultipleNonEmptyOrFails | laggard/functionalrulebuilders.py:127-142 | one-or-more gives a non-empty list, or fails at the entry index |
| ParserProperties.SomeOrNoneNeverFails | laggard/functionalrulebuilders.py:160-172 | zero-or-more never fails and always gives a list |
| ParserProperties.RepeatRunsChain | laggard/functionalrulebuilders.py:133-136 | the reference attempts start at the entry index and each later one where the one before stopped; every attempt but the last succeeded and moved forward |
| ParserProperties.RepRuns | laggard/functionalrulebuilders.py:127-172 | the loop succeeds exactly when its last attempt raises a `ParseException` and a match was collected or none is demanded; the list is what was collected followed by each earlier attempt's result in order, and the buffer is where the failing attempt left it; otherwise that failure, the other exception or `Diverge` is reported at the entry |
| ParserProperties.RepetitionCollectsRuns | laggard/functionalrulebuilders.py:127-172 | item `x` of a one-or-more or zero-or-more list is the result of attempt `x`, which started where attempt `x - 1` stopped |
| ParserProperties.OtherExceptionsEscape | laggard/rulebuilders.py:126-134 | an exception other than `ParseException` passes through options, repetitions, choices and sequences, and a choice does not try its next alternative after one |
| ParserProperties.ZeroWidthRepetitionDiverges | laggard/functionalrulebuilders.py:133-135 | a repetition whose inner rule succeeds without consuming input never returns |
| ParserProperties.ChoiceFromFailRestores | laggard/rulebuilders.py:125-132 | a failing choice is back at its entry index |
| ParserProperties.ChoiceFirstSuccess | laggard/rulebuilders.py:127-129 | the first alternative that succeeds decides the choice |
| ParserProperties.ChoiceAllFail | laggard/rulebuilders.py:130-132 | when every alternative fails, the choice re-raises the last alternative's failure |
| ParserProperties.ChoiceTriesInOrder | laggard/rulebuilders.py:122-134 | the choice node tries its alternatives in list order |
| ParserProperties.SeqFromShape | laggard/rulebuilders.py:160-163 | the sequence loop from part `k` on yields a tuple with one result per part that keeps the results collected so far, named by the parts' aliases, or reports back at its entry |
| ParserProperties.PartRunsChain | laggard/rulebuilders.py:162 | the reference run of the parts starts the first part at the entry index and each later one where the one before stopped, and every run but the last succeeded |
| ParserProperties.SeqFromRuns | laggard/rulebuilders.py:160-163 | the sequence loop succeeds exactly when every part succeeds in turn; the tuple holds the earlier results, then each part's result at its own position, and the buffer is left where the last part stopped; otherwise the first unsuccessful part's outcome is reported at the entry |
| ParserProperties.CombinedTuple | laggard/rulebuilders.py:155-165 | a `Combined` node succeeds exactly when every part succeeds in turn, each from where the one before stopped; result `x` of its tuple is part `x`'s result, the names are the parts' aliases, and the buffer is left after the last part; otherwise the first unsuccessful part's outcome is reported at the entry |
| ParserProperties.FailureRestores | laggard/functionalrulebuilders.py:46-172 | every raw parser except a functional rule's own function is back at its entry index when it does not succeed, and so is the complete parser of a rule without a transformer |
| ParserProperties.NestingParsesAlike | laggard/rulebuilders.py:83-85 | the choice of (an anonymous choice of `a` and `b`) and `c` gives the same outcome and index on every input as the choice of `a`, `b` and `c` with the same outer settings, and likewise for sequences; the operands may be any rules without empty groups |
| GrammarSpec.Singletons | laggard/grammar_parser.py:101 | `list(s)` has one one-character string per character of `s` |
| GrammarSpec.SingletonsMembership | laggard/grammar_parser.py:101 | a string is in `list(s)` exactly when it is one character of `s` |
| GrammarSpec.IdentChars | laggard/grammar_parser.py:101 | the identifier charset is `list(ascii_letters + digits)`, which does not list `[EOF]` |
| GrammarSpec.IdentCharsMembers | laggard/grammar_parser.py:100-101 | every character of a parsed identifier is a letter or a digit |
| GrammarSpec.GroupShaped | laggard/grammar_parser.py:52-66 | a first node and at least one more make a group of two or more |
| GrammarSpec.PIdentifier | laggard/grammar_parser.py:100-101 | `parse_identifier` consumes input and yields an `Identifier`, or fails in place |
| GrammarSpec.PString | laggard/grammar_parser.py:103-106 | `parse_string` consumes input and yields a `Literal`, or fails in place |
| GrammarSpec.PChoice | laggard/grammar_parser.py:47-54 | `parse_choice` consumes input and yields a well-shaped node, or fails in place |
| GrammarSpec.PFragments | laggard/grammar_parser.py:51 | repeated fragments give at least one node, extending what was collected, or fail in place |
| GrammarSpec.PChoiceFragment | laggard/grammar_parser.py:56-59 | a fragment (a bar, then a combination) consumes input and yields a well-shaped node, or fails in place |
| GrammarSpec.PCombination | laggard/grammar_parser.py:61-68 | `parse_combination` consumes input and yields a well-shaped node, or fails in place |
| GrammarSpec.PElements | laggard/grammar_parser.py:65 | repeated elements give at least one node, or fail in place |
| GrammarSpec.PModified | laggard/grammar_parser.py:70-77 | `parse_modified_rule_expression` consumes input and yields a well-shaped node, or fails in place |
| GrammarSpec.PRuleMatch | laggard/grammar_parser.py:81-98 | `parse_rule_match_expression` consumes input and yields a well-shaped node, or fails in place |
| GrammarSpec.PFallback | laggard/grammar_parser.py:88-98 | the fallbacks after `(` fails (label, identifier, string) consume input, or fail in place |
| GrammarSpec.PRighthand | laggard/grammar_parser.py:43-45 | `parse_righthand` is a well-shaped choice, or fails in place |
| GrammarSpec.PRule | laggard/grammar_parser.py:24-31 | `parse_rule` consumes input and yields a well-shaped `Rule`, or fails in place |
| GrammarSpec.PRules | laggard/grammar_parser.py:14-22 | the rule loop never moves backwards or past the end |
| GrammarParsing.GrammarParser.constructor | laggard/grammar_parser.py:11-12 | a new parser's buffer is at index 0, skips blanks and has an empty stack |
| GrammarParsing.GrammarParser.Parse | laggard/grammar_parser.py:14-22 | the loop, on the buffer, ends where `PRules` says |
| GrammarParsing.GrammarParser.ParseRule | laggard/grammar_parser.py:24-31 | on the buffer: `PRule`, with the stack as it was |
| GrammarParsing.GrammarParser.ParseRighthand | laggard/grammar_parser.py:43-45 | on the buffer: `PRighthand` |
| GrammarParsing.GrammarParser.ParseChoice | laggard/grammar_parser.py:47-54 | on the buffer: `PChoice` |
| GrammarParsing.GrammarParser.ParseFragments | laggard/grammar_parser.py:51 | on the buffer: `PFragments` |
| GrammarParsing.GrammarParser.ParseChoiceFragment | laggard/grammar_parser.py:56-59 | on the buffer: `PChoiceFragment` |
| GrammarParsing.GrammarParser.ParseCombination | laggard/grammar_parser.py:61-68 | on the buffer: `PCombination` |
| GrammarParsing.GrammarParser.ParseElements | laggard/grammar_parser.py:65 | on the buffer: `PElements` |
| GrammarParsing.GrammarParser.ParseModified | laggard/grammar_parser.py:70-77 | on the buffer: `PModified` |
| GrammarParsing.GrammarParser.ParseRuleMatch | laggard/grammar_parser.py:81-98 | on the buffer: `PRuleMatch` |
| GrammarParsing.GrammarParser.Fallback | laggard/grammar_parser.py:88-98 | on the buffer: `PFallback` |
| GrammarParsing.GrammarParser.ParseIdentifier | laggard/grammar_parser.py:100-101 | on the buffer: `PIdentifier` |
| GrammarParsing.GrammarParser.ParseString | laggard/grammar_parser.py:103-106 | on the buffer: `PString` |
| GrammarParsing.ParseSource | laggard/grammar_parser.py:10-22 | `Parser(source).parse()` returns what `ParseGrammar` says |
| GrammarProperties.RulesStopAtFirstFailure | laggard/grammar_parser.py:14-22 | the loop stops where a rule fails and, when it does not accept, re-raises that failure |
| GrammarProperties.RulesAcceptAtEof | laggard/grammar_parser.py:19-22 | the loop returns a grammar exactly when `is_eof` holds where it stopped, keeping the rules read before |
| GrammarProperties.RulesAreShaped | laggard/grammar_parser.py:14-31 | every grammar the loop returns holds well-shaped rules only |
| GrammarProperties.ParsedGrammarShape | laggard/grammar_parser.py:14-31 | a parsed grammar is a list of rules named by identifiers in which every group has two or more members; it is returned exactly when at most one character is left after the last rule |
| GrammarProperties.ModifierIsNextChar | laggard/grammar_parser.py:70-77 | a modifier is read without skipping: it is taken exactly when the character right after the expression is `*`, `+` or `?` |
| GrammarProperties.LabelledWhenColonFollows | laggard/grammar_parser.py:89-94 | an identifier followed by `:` and an expression is a label with that identifier |
| GrammarProperties.EmptySourceIsEmptyGrammar | laggard/grammar_parser.py:14-22 | the empty source is the empty grammar |
| CodeGen.AddRule | laggard/codegen.py:106-107 | `add_rule` leaves the fragment counters alone |
| CodeGen.AddFragment | laggard/codegen.py:109-115 | `add_fragment` raises the rule's counter by one, starting from 1 when it is missing, and leaves other counters alone |
| CodeGen.Inner | laggard/codegen.py:56-84 | a node's content is built from one call text per sub-expression it generates |
| CodeGen.EmitItems | laggard/codegen.py:61-74 | the first `k` children of a group give `k` call texts |
| CodeGen.CodeGenerator.constructor | laggard/codegen.py:29-34 | a new generator has no code, no functions, no counters and an empty context |
| CodeGen.CodeGenerator.Generate | laggard/codegen.py:36-47 | `generate` emits every rule non-inline under its name, in order, and returns the header followed by each function indented |
| CodeGen.CodeGenerator.GenerateRules | laggard/codegen.py:37-42 | the loop over the rules ends in `EmitRules`' state |
| CodeGen.CodeGenerator.GenerateTopLevel | laggard/codegen.py:38-42 | one rule is emitted under its identifier's name |
| CodeGen.CodeGenerator.RenderFunctions | laggard/codegen.py:44-47 | the returned text is the header and each function indented by four spaces |
| CodeGen.CodeGenerator.GenerateRule | laggard/codegen.py:50-94 | `generate_rule` ends in the state `Emit` describes and returns its call text; a non-inline call clears the context |
| CodeGen.CodeGenerator.ContentFor | laggard/codegen.py:55-84 | the `isinstance` chain builds `Content` from the calls `Inner` makes |
| CodeGen.CodeGenerator.CombinedContent | laggard/codegen.py:56-67 | the `Combined` loop builds the head, one line per child in order and the closing bracket |
| CodeGen.CodeGenerator.CombinedLine | laggard/codegen.py:62-65 | one iteration appends the child's call, a comma when there are several children, and a newline |
| CodeGen.CodeGenerator.ChoiceContent | laggard/codegen.py:69-74 | every alternative is generated, but the content is the last one's `try:` block |
| CodeGen.CodeGenerator.AddToContext | laggard/codegen.py:97-98 | the name is appended to the context |
| CodeGen.CodeGenerator.AddFunction | laggard/codegen.py:100-104 | the function text is appended and its call text returned |
| CodeGen.CodeGenerator.AddRuleTo | laggard/codegen.py:106-107 | on the generator: `AddRule` |
| CodeGen.CodeGenerator.AddFragmentTo | laggard/codegen.py:109-115 | on the generator: `AddFragment` |
| CodeGen.CombinedLinesAppend | laggard/codegen.py:61-65 | one more child adds its line at the end |
| CodeGenProperties.EmitAppends | laggard/codegen.py:50-115 | `generate_rule` only appends: one function per node visited, each counted against the rule it was given, other counters unchanged |
| CodeGenProperties.InnerAppends | laggard/codegen.py:56-84 | the sub-expressions add one function per node they visit |
| CodeGenProperties.ItemsAppend | laggard/codegen.py:61-74 | a group's children add their functions in order |
| CodeGenProperties.FragmentNamesDistinct | laggard/codegen.py:114 | two fragment names of one rule are equal only for equal counters |
| CodeGenProperties.EmitCall | laggard/codegen.py:86-115 | the last function added is the node's own: `parse_<rule>_fragment<n>` with `n` the counter after all its fragments for an inline call, `parse_<rule>` otherwise; the call text names it |
| CodeGenProperties.CallTextInjective | laggard/codegen.py:104 | two call texts are equal only for equal function names |
| CodeGenProperties.LaterFragmentsDiffer | laggard/codegen.py:109-115 | a fragment generated later for the same rule gets a different function name from an earlier one |
| CodeGenProperties.FragmentCallsDiffer | laggard/codegen.py:114 | different fragment numbers give different call texts |
| CodeGenProperties.IdentifierCallsRule | laggard/codegen.py:81-82 | an identifier's fragment calls exactly the function a rule of that name is emitted as |
| CodeGenProperties.CombinedOfOne | laggard/codegen.py:56-67 | a `Combined` of one child returns that child's call on its own line |
| CodeGenProperties.ChoiceKeepsLast | laggard/codegen.py:69-74 | a `Choice`'s content depends on its last alternative only and is a `try:` block |
| CodeGenProperties.CombinedLinesInOrder | laggard/codegen.py:61-65 | the lines of the first `k` children come first, in order |
| CodeGenProperties.CombinedBrackets | laggard/codegen.py:57-67 | a `Combined` of several children opens with `return [`, then its lines, then `]` |
| CodeGenProperties.RenderExtends | laggard/codegen.py:45-46 | rendering more functions extends the text: functions appear in the order they were added |
| ParserBase.BaseParser.constructor | laggard/abstracts.py:8-16 | a new parser owns a buffer over the source that skips nothing, with both stacks empty |
| ParserBase.BaseParser.ParseStart | laggard/abstracts.py:32-33 | the base class's start rule raises `NotImplementedError` |
| ParserBase.BaseParser.Parse | laggard/abstracts.py:18-30 | an exception of the start rule passes through; its result is returned exactly when at most one character is left, otherwise "Did not consume whole file." |
| ParserBase.BaseParser.Expect | laggard/abstracts.py:35-45 | forwards to `expect` on the parser's buffer |
| ParserBase.BaseParser.ExpectOneOf | laggard/abstracts.py:47-58 | forwards to `expectOneOf` |
| ParserBase.BaseParser.ExpectManyOutOf | laggard/abstracts.py:60-71 | forwards to `expectManyOutOf` |
| ParserBase.BaseParser.ParseUntil | laggard/abstracts.py:86-95 | forwards to `parseUntil` |
| ParserBase.BaseParser.Call | laggard/abstracts.py:97-108 | `parser(name)` remembers the name and returns the parser itself |
| ParserBase.BaseParser.Enter | laggard/abstracts.py:110-113 | entering pushes the remembered name, marks the buffer and forgets the name |
| ParserBase.BaseParser.Exit | laggard/abstracts.py:115-120 | a normal exit commits the buffer's mark; after an exception the argument-less `append()` raises a `TypeError` before the buffer is abandoned |
| ParserBase.BaseParser.WithNamed | laggard/abstracts.py:97-120 | a named block keeps its name on the stack; a normal exit pops the mark and keeps the index, an exit by exception ends in the `TypeError` with the mark left behind; the error stack is the same on both paths |
| Legacy.NewRule | laggard/rule.py:9-14 | `Rule(parser, name)` is named by a truthy `name`, otherwise by the parser's `__name__`, which only callables have; the parser is kept, and a falsy name with a non-callable parser raises |
| Legacy.Quoted | laggard/parserGenerators.py:45 | one printed text per item |
| Legacy.QuotedIsRepr | laggard/parserGenerators.py:45 | each item appears as its `repr`, as `str` of a list, tuple or set prints it |
| Legacy.Run | laggard/rule.py:33-37 | calling an object never moves the index backwards or past the end |
| Legacy.Call | laggard/parserGenerators.py:7-90 | no generated closure moves the index backwards or past the end |
| Legacy.Repeat | laggard/parserGenerators.py:61-90 | the repetition loop stays between its entry index and the end |
| LegacyInterpreter.RunObj | laggard/rule.py:33-37 | calling an object on a buffer ends where `Run` says, with the stack as it was |
| LegacyInterpreter.Apply | laggard/rule.py:33-37 | `Rule.parse` and `rule(buffer)` apply the stored parser |
| LegacyInterpreter.CallObj | laggard/parserGenerators.py:24-90 | each closure, on a buffer, ends where `Call` says |
| LegacyInterpreter.RunAnd | laggard/parserGenerators.py:7-11 | the pair closure, on a buffer, ends where `Call` says |
| LegacyInterpreter.RunRepeat | laggard/parserGenerators.py:61-90 | the repetition loop, on a buffer, ends where `Repeat` says |
| LegacyProperties.OrAlwaysFails | laggard/parserGenerators.py:14-22 | `Rule.__or__` and `Rule.__ror__` never build a rule, because `generateOr` returns `None` |
| LegacyProperties.AndOperands | laggard/rule.py:16-23 | `&` builds the pair rule exactly when the other operand is callable, with the receiver first, or second for the reflected form |
| LegacyProperties.AndRunsBoth | laggard/parserGenerators.py:7-11 | the pair parser returns `[first, second]` when both rules succeed in turn; otherwise the index is back where it started |
| LegacyProperties.LiteralAgrees | laggard/parserGenerators.py:24-33 | the older literal expecter has the same outcome, message and index as the newer `LiteralExpecter` |
| LegacyProperties.CharsetAgrees | laggard/parserGenerators.py:35-47 | the older charset expecter accepts what the newer one accepts and stops at the same index |
| LegacyProperties.QuotedUsesRepr | laggard/parserGenerators.py:45 | the charset `["'", "a"]` prints as `["'", 'a']`, and an item holding a line break prints it as the escape `\n` |
| LegacyProperties.CharsetReportsName | laggard/parserGenerators.py:42-43 | a charset expecter with a truthy name reports that name on failure |
| LegacyProperties.OptionalNeverFails | laggard/parserGenerators.py:49-59 | the optional closure never raises a `ParseException`; a failing inner rule gives `None` |
| LegacyProperties.RepShape | laggard/parserGenerators.py:61-90 | the loop keeps what it collected and fails only when a match is demanded and none was found |
| LegacyProperties.MultipleNonEmptyOrFails | laggard/parserGenerators.py:61-76 | `+` returns a non-empty list or fails back at its entry |
| LegacyProperties.SomeOrNoneNeverFails | laggard/parserGenerators.py:78-90 | `*` never raises a `ParseException` and returns a list |
| LegacyProperties.FlagValuesIgnored | laggard/rule.py:41-50 | `optional` and `multiple` are recognised by presence: their values make no difference |
| LegacyProperties.PlainIsRule | laggard/rule.py:51-61 | without flags, `makeRule` returns a `Rule` or raises |
| LegacyProperties.FlagsWrapOnce | laggard/rule.py:41-50 | with flags, the rule built without them is wrapped once, named with the flags' suffix; it fails exactly when the inner rule does |
| LegacyProperties.MakeRuleDispatch | laggard/rule.py:51-61 | without flags: a `Rule` keeps its parser, a callable is wrapped, a string becomes a literal expecter, a collection a charset expecter; anything else raises `MalformedParserException` |

## Left out

- **The matching primitives.** `laggard/grammar_parser.py:7` imports
  `expect`, `expectOneOf`, `expectManyOutOf`, `parseMultipleOf` and
  `parseUntil` from `laggard.helpers`, which does not define them. Their
  bodies are not part of this model. Their behaviour is assumed from the
  docstrings of the `Parser` methods that delegate to them
  (`laggard/abstracts.py:35-95`). `parseUntil` is assumed to consume the
  closing character and to fail at the end of input.
- **`parseMultipleOf`** is modelled at its two call sites in the grammar
  parser (`PFragments`, `PElements`), not as a generic function over parsers.
- **`is_eof`** (`laggard/buffer.py:141`) holds while one character is still
  unread. The model keeps this as written. The grammar parser and
  `Parser.parse` therefore accept a source with one unconsumed trailing
  character.
- **`Parser.__exit__`** after an exception calls `self.error_stack.append()`
  without an argument. The model follows the code: a `TypeError` replaces the
  exception and the buffer is never abandoned.
- **`parse_lefthand`** (`laggard/grammar_parser.py:33-41`) is never called by
  `parse`. It is not modelled, and `RuleLeftHand` nodes are never built.
- **Output and timing.** `print` calls (`laggard/buffer.py:108`, `:140`) are
  output only and are left out. So are I/O, timing and the `decorations`
  module.
- **`RulePlaceholder`** and its `invoke`, `transformer` and operators
  (`laggard/helpers.py:46-115`) are left out, and so is the branch of
  `create` that invokes one (`laggard/rulebuilders.py:29-30`). The user's resolver function
  has no model here.
- **Aliasing.** Rule nodes are values. Two builders that share one mutable
  child list, and the effect of `flatten` on a list seen from elsewhere,
  are not modelled. `reconfigure` of an existing rule returns the updated
  value instead of mutating the object the caller holds.
- **Divergence.** A repetition whose inner parser succeeds without moving
  loops forever in the source. The model gives the outcome `Diverge`
  instead of running forever.
- **Python strings.** Iteration order of a Python `set` shown in a charset
  message is the order the model is given.
- Ast.StrRepr, Legacy.Quoted: `repr` picks the quote character and escapes
  the backslash, the quote, `\n`, `\r` and `\t` as Python does. Other
  control characters and non-printable Unicode characters, which Python
  writes as `\x..`, `\u....` escapes, are kept as they are.
- Base.LineEnd, Base.Indent: only `\n` ends a line. Python's
  `textwrap.indent` splits with `splitlines(True)`, which also breaks at
  `\r`, `\r\n`, `\v`, `\f`, `\x1c`-`\x1e`, `\x85`, `\u2028` and `\u2029`. It
  tests for blank lines with `str.strip()`, which strips all Unicode
  whitespace. A text holding those characters, such as a grammar literal with
  a raw `\r`, is indented differently by Python.
- Base.IndentStartsWithPrefix: its "first line" ends at the first `\n`, so
  it does not describe a text with another line break before its first
  `\n`, for the reason above.
- **Generated code.** A literal's value is inserted into the generated code
  without escaping, as in the source. The model does not prove that the
  generated text is valid Python.
- **The code generator's root** is modelled only as a `Grammar` of `Rule`s:
  that is what the grammar parser builds and what `generate`'s `root: Grammar`
  hint names. `generate` reads only `root.children`, each child's `name` and
  its `children[0]`, so other roots (an `Identifier` child, a `Combined` of
  `Rule`s) are accepted by Python and generate code too; those are not
  modelled.
- **`CodeGen.Header`** is the constant text `generate` puts first. It is
  written out, but no lemma is stated about it.
- **Function names.** No lemma states that all the generated function names
  are distinct. What is proved is that a fragment generated later for a rule
  never reuses the name of an earlier one.
- **`fragment_counts`** is keyed by the rule's name as a string, as in the
  source.
- **`OptionallyNamedTuple.__getitem__`** reports a `KeyError` whose text
  is not pinned to Python's exact message.
- **Legacy keyword arguments.** Only `optional`, `multiple` and `name` are
  interpreted. The value of `name` is modelled as an optional string.
- RuleBuilders.Create: with a flag and a source that is not a rule, string
  or collection, the source builds a wrapper around `None`
  (`MultipleRule(None)`), which raises `AttributeError` only when it is
  flattened or its parser generated. The model reports `None` at
  construction instead, so it does not capture a wrapper that is built but
  never used.
- RuleBuilders.Or, RuleBuilders.ROr, RuleBuilders.And, RuleBuilders.RAnd: the
  source builds the group around a `None` operand (`a | 5` is
  `Choice(a, None)`) and fails only at `flatten` or parser generation; the
  model reports `None` at once, for the same reason.
- Helpers.FactoriesWrap: `multiple`, `optional` and `none_or_more` of an
  unknown source return a wrapper around `None` in the source, collapsed into
  `None` here as for `create`. A caller's own `multiple=` or `optional=`
  keyword is overridden by the factory's flag in the model, where Python
  raises a duplicate-keyword `TypeError`, because `Kwargs` does not record
  whether a flag was supplied.
- LegacyProperties.CharsetAgrees: does not compare failure messages,
  because the two layers word them differently.
