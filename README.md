# leetcode-cli core: test harness generation and problem filtering

This project models the core of `lib/core.js` of leetcode-cli in Dafny and
proves properties of the model. Two parts of that file are modelled.

- `core.filterProblems`: query letters (`e`/`m`/`h` for the level, `d` for
  solved, `l` for locked, `s` for starred, upper case for the negation) and
  tags filter the problem list.
- The Java branch of `core.exportProblem`. It writes a `Test.main` harness
  that parses the test case text and calls the solution. Much of its logic
  is Java source held in JavaScript template strings. The model follows that
  Java as it reads after template unescaping:
  - the `TestCaseParser` literal parser, with its cursor `curPos`;
  - `TreeNode.construct`;
  - the `ListNode` chain builders;
  - `NestedInteger.deserialize`;
  - the `ListNode` and `TreeNode` result printers.
  The generator itself is modelled too: the dispatch on parameter types, the
  `extClassName` slot, the return printer, and `addQuote` on each test-case
  line.

Modules, one per file:

| module | file | models |
|---|---|---|
| `Base` | base.dfy | `Result`/`Option`, Java exceptions, `Integer.parseInt`, `Integer.toString`, ASCII `toLowerCase`, `join` |
| `LiteralSpec` | literal_spec.dfy | parser values, the functions specifying the parser, and the round trips from printed literals |
| `LiteralParser` | test_case_parser.dfy | class `TestCaseParser` with field `curPos`; its methods are proved against `LiteralSpec` |
| `TreeBuild` | tree_node.dfy | `TreeNode.construct` as child-index arrays |
| `ListChain` | list_node.dfy | the `ListNode` and `ListNode[]` argument builders |
| `NestedIntegers` | nested_integer.dfy | `NestedInteger.deserialize` and `getList` |
| `HarnessGen` | harness_gen.dfy | the parameter loop and the return switch of the Java branch |
| `AddQuoting` | add_quote.dfy | `addQuote` and the default `testcase` array |
| `Printers` | printers.dfy | the `ListNode` arrow printer and `printTree` |
| `ProblemFilter` | problem_filter.dfy | `hasTag`, `QUERY_HANDLERS` and the loops of `filterProblems` |

Imperative code is modelled as imperative Dafny:
- `TestCaseParser` is a class whose methods move `curPos`;
- `construct`, `deserialize`, the chain builders, the chain printer, the
  generator loop and the filter loops are methods with loops.

Each method is proved equal to a specification function. The properties
are then proved as lemmas about that function.

`parseString` has a `case '\\'` that would turn an escaped backslash into
one backslash (lib/core.js:673-675). It is never reached: a backslash is
tested before the escape flag (lib/core.js:663-666), so a second backslash
only sets the flag again. The model keeps that dead case in
`LiteralSpec.EscapeTarget`. `LiteralSpec.StringAt` states that
`parseString` never returns a backslash, and
`LiteralSpec.ScanDoubleBackslash` that `\\` adds nothing.

## Model

| member | source | states |
|---|---|---|
| `LiteralParser.TestCaseParser.constructor` | lib/core.js:652-653 | a new parser starts with `curPos` at 0 |
| `LiteralParser.TestCaseParser.ParseString` | lib/core.js:655-693 | the decoded string and the new `curPos` are those of `StringAt` at the old cursor |
| `LiteralParser.TestCaseParser.ParseNumber` | lib/core.js:695-717 | returns the token `NumberAt` reads and moves `curPos` past it, or throws what `NumberAt` throws |
| `LiteralParser.TestCaseParser.ParseList` | lib/core.js:719-757 | returns the elements `ListAt` reads and the cursor after them, or the exception `ListAt` gives |
| `LiteralParser.TestCaseParser.ParsePass` | lib/core.js:727-755 | one pass of the loop body is `StepAt`, and on success `curPos` is where the pass ends |
| `LiteralParser.TestCaseParser.SkipSpaceRun` | lib/core.js:724-726 | stops at the first non-space, or throws `StringIndexOutOfBounds` when only spaces remain |
| `LiteralSpec.StringAt` | lib/core.js:655-693 | if the opening quote is the last character, the whole input is returned; otherwise the result never holds a backslash, and the cursor is just past a closing `"` or, for an unterminated string, just past the opening quote |
| `LiteralSpec.StringScan` | lib/core.js:661-690 | the scan stops only at a `"`, and adds no backslash |
| `LiteralSpec.StringScanCloses` | lib/core.js:661-690 | the scan stops at the first `"` with no backslash just before it, and finds none exactly when there is no such quote |
| `LiteralSpec.StringAtCloses` | lib/core.js:655-693 | the cursor ends just past the first unescaped `"`, and stays just past the opening quote exactly when there is none |
| `LiteralSpec.ScanDropsUnknownEscape` | lib/core.js:667-683 | a backslash followed by anything but `"`, `t`, `n` or a backslash adds nothing, and that character is dropped |
| `LiteralSpec.ScanDoubleBackslash` | lib/core.js:663-675 | `\\` adds nothing: the second backslash sets the escape flag again |
| `LiteralSpec.ScanBackslashesQuote` | lib/core.js:663-687 | `\\"` adds a quote and does not end the string |
| `LiteralSpec.StringRoundTrip` | lib/core.js:655-693 | a quoted string with `"`, tab and newline escaped decodes back to itself, and the cursor lands just past the closing quote |
| `LiteralSpec.ScanChar` | lib/core.js:661-690 | a quote, tab or newline written as `\"`, `\t` or `\n`, and any other character but a backslash written as itself, decodes to that one character |
| `LiteralSpec.NumberAt` | lib/core.js:695-717 | on success the cursor moves forward within the text and the value is a number |
| `LiteralSpec.NumberAtSound` | lib/core.js:695-717 | an accepted token is valid, holds a digit, and is floating exactly when it holds a `.` |
| `LiteralSpec.NumberRoundTrip` | lib/core.js:695-717 | a valid token that no digit or dot follows is read back exactly, and the cursor moves by its length |
| `LiteralSpec.SignText` | lib/core.js:697-702 | the kept sign is `-` or nothing, so a `+` is dropped |
| `LiteralSpec.RunText` | lib/core.js:703-711 | the run holds only digits and dots, and is maximal |
| `LiteralSpec.SkipSpaces` | lib/core.js:724-726 | the first non-space at or after the cursor, with only spaces skipped; all spaces to the end throw |
| `LiteralSpec.NullAt` | lib/core.js:729-730 | `null` is recognised exactly when it is spelled out; a prefix of it at the end of the text throws |
| `LiteralSpec.StepAt` | lib/core.js:728-754 | every successful pass moves the cursor forward, so the loop terminates |
| `LiteralSpec.StepNull` | lib/core.js:729-734 | `null` adds a null element and moves 4 characters on |
| `LiteralSpec.StepComma` | lib/core.js:735-739 | a comma is skipped with the spaces after it |
| `LiteralSpec.StepList` | lib/core.js:740-742 | `[` adds the nested list that `parseList` reads |
| `LiteralSpec.StepClose` | lib/core.js:743-745 | `]` ends the list one character on |
| `LiteralSpec.StepString` | lib/core.js:746-748 | `"` adds the string that `parseString` reads |
| `LiteralSpec.StepBlank` | lib/core.js:749-750 | carriage return, newline, tab and space are skipped |
| `LiteralSpec.StepOther` | lib/core.js:751-753 | any other character starts a number, and its outcome is the pass's outcome |
| `LiteralSpec.StepNullError` | lib/core.js:729-730 | the `null` probe running off the end throws out of the pass |
| `LiteralSpec.StepCommaError` | lib/core.js:737-739 | spaces after a comma that run to the end throw |
| `LiteralSpec.StepListError` | lib/core.js:740-742 | an exception in a nested list ends the pass |
| `LiteralSpec.ListAt` | lib/core.js:719-757 | on success the cursor has moved forward and stays within the text |
| `LiteralSpec.ListLoop` | lib/core.js:727-756 | the loop keeps the cursor within the text |
| `LiteralSpec.LoopEnd` | lib/core.js:743-745 | at the end of the input, or at `]`, the loop returns what it has collected |
| `LiteralSpec.ElementRoundTrip` | lib/core.js:728-754 | one pass reads back the printed literal of any well-formed value and moves just past it |
| `LiteralSpec.ItemsRoundTrip` | lib/core.js:727-756 | the loop reads back printed items in order, whatever the padding after commas |
| `LiteralSpec.ListRoundTrip` | lib/core.js:719-757 | `parseList` reads back the printed literal of any list of well-formed values |
| `LiteralSpec.IntegerValue` | lib/core.js:263 | only a non-floating token that fits in an `int` is an `Integer` |
| `TreeBuild.Construct` | lib/core.js:554-582 | an empty list gives null; a non-null non-`Integer` throws `ClassCastException`; an index overrun throws; otherwise the values and child slots are `Vals`, `LeftSlots` and `RightSlots` |
| `TreeBuild.ValsShape` | lib/core.js:559-571 | a stored value comes from a non-null entry and fits in 32 bits; when every entry casts, exactly the null entries store nothing |
| `TreeBuild.SlotsShape` | lib/core.js:572-580 | only non-null entries get children; a right child is always the index after the left child; children indices grow with the parent's index |
| `TreeBuild.OverrunNeedsNull` | lib/core.js:572-580 | the loop can read past the array only when the list holds a null |
| `TreeBuild.Rank` | lib/core.js:572-580 | no more non-null entries come before `i` than `i` itself |
| `TreeBuild.LeftSlot` | lib/core.js:576 | a left child is unset, or an index from 1 to n-1 |
| `TreeBuild.RightSlot` | lib/core.js:577-579 | a right child is unset, or an index from 2 to n-1 |
| `TreeBuild.RankStrict` | lib/core.js:572-580 | `j` only increases: an earlier non-null entry ranks lower |
| `TreeBuild.SlotsAssignedOnce` | lib/core.js:572-580 | no index is made a child twice |
| `TreeBuild.RankAttained` | lib/core.js:572-580 | null entries take no slot: slots go to the non-null entries in order |
| `TreeBuild.SlotsWithoutGaps` | lib/core.js:572-580 | every index up to the slots taken is some node's child |
| `TreeBuild.RankWithoutNulls` | lib/core.js:572-580 | with no nulls, each entry's rank is its index |
| `TreeBuild.HeapLayout` | lib/core.js:572-580 | with no nulls, the children of entry i are 2i+1 and 2i+2 when below n, and nothing overruns |
| `TreeBuild.SelfChildExample` | lib/core.js:572-580 | for `[1,null,null,2]`, entry 3 becomes its own left child |
| `TreeBuild.OverrunExample` | lib/core.js:572-580 | for `[null,null]`, the loop reads past the array |
| `ListChain.BuildChain` | lib/core.js:258-268 | the chain holds the `Integer` items, in list order |
| `ListChain.IntegerItems` | lib/core.js:261-267 | at most one node per item, each value a 32-bit integer |
| `ListChain.IntegerItemsAppend` | lib/core.js:261-267 | the nodes for two lists in a row are the two chains in a row |
| `ListChain.IntegerItemsFrom` | lib/core.js:261-267 | every node value comes from an `Integer` item, with at most one node per item |
| `ListChain.AllIntegers` | lib/core.js:261-267 | a list of integers gives one node per item, in order |
| `ListChain.NoIntegers` | lib/core.js:261-268 | a list without `Integer` items (nulls, doubles, strings, lists) gives null |
| `ListChain.BuildChains` | lib/core.js:274-288 | the `ListNode[]` array is `Chains`, or the exception thrown |
| `ListChain.Chains` | lib/core.js:274-288 | throws only `NullPointerException` or `ClassCastException`; otherwise one chain per element |
| `ListChain.ChainsShape` | lib/core.js:274-288 | succeeds exactly when every element is a list, and then slot i holds the chain of element i |
| `NestedIntegers.Deserialize` | lib/core.js:498-533 | the result of the stack scanner is `Deserialized` |
| `NestedIntegers.Deserialized` | lib/core.js:498-533 | the only exceptions are `NumberFormatException` and `NullPointerException`, and a null result means the text holds no `[` |
| `NestedIntegers.StepShape` | lib/core.js:503-527 | one character throws only at `]` or `,` with a pending number; the pending text is cleared exactly at `[`, `]` and `,`; `[` opens one list; an open list is never lost |
| `NestedIntegers.ProcessShape` | lib/core.js:503-528 | the scanner throws only those two exceptions, and once a list is opened the stack is never emptied |
| `NestedIntegers.Flush` | lib/core.js:511-514 | adding a pending number keeps the number of open lists |
| `NestedIntegers.GetList` | lib/core.js:494-496 | null throws; otherwise the result is a list exactly for a list |
| `NestedIntegers.ProcessAppend` | lib/core.js:503-528 | scanning two texts in turn is scanning their concatenation |
| `NestedIntegers.ProcessPlain` | lib/core.js:525-527 | text without brackets or commas only adds to the pending characters |
| `NestedIntegers.ElementRoundTrip` | lib/core.js:503-528 | the text of any element, inside an open list, ends with the element added |
| `NestedIntegers.ItemsRoundTrip` | lib/core.js:510-524 | the items, then `]`, fill the open list with all the items in order and add it to the list around it |
| `NestedIntegers.DeserializeRoundTrip` | lib/core.js:498-533 | every nested integer is read back from its text, and `getList` gives back its items |
| `NestedIntegers.MixedListExample` | lib/core.js:498-533 | `[1,[2,3],4]` is the list 1, [2,3], 4 |
| `NestedIntegers.EmptyAndNumberExample` | lib/core.js:498-533 | `[]` is the empty list and `5` the integer 5 |
| `NestedIntegers.DroppedPending` | lib/core.js:504-509 | `[` drops pending characters, so text before a list is ignored |
| `NestedIntegers.TrailingNumber` | lib/core.js:529-531 | a number after the closing `]` is returned instead of the list |
| `NestedIntegers.NullCurrent` | lib/core.js:510-523 | a number followed by `,` or `]` before any `[` throws `NullPointerException` |
| `NestedIntegers.MalformedNumber` | lib/core.js:511-512 | a malformed number inside or outside a list throws `NumberFormatException`, even ` 1` |
| `NestedIntegers.EmptyTextExample` | lib/core.js:498-533 | the empty text gives null, and `getList` on it throws |
| `HarnessGen.GenerateJava` | lib/core.js:161-457 | `codeArray`, `paramArray`, `extClassName`, `returnCode`, `resEquation` and `otherFunc` are those of the specification functions |
| `HarnessGen.Entry` | lib/core.js:163-400 | the `paramArray` entry starts with the parameter name |
| `HarnessGen.CaseLines` | lib/core.js:163-400 | a known type gives its template lines, each carrying the parameter's name and index; an unknown type gives exactly one `not supported` comment |
| `HarnessGen.ParamExt` | lib/core.js:163-400 | only a known parameter type asks for an extra class, and only `ListNode`, `TreeNode` or `NestedInteger` |
| `HarnessGen.ReturnExt` | lib/core.js:403-457 | a return type asks for its own class exactly when its result is printed as a chain or a tree |
| `HarnessGen.LastWrite` | lib/core.js:256-420 | the slot holds one of the writes, or stays empty when nothing was written |
| `HarnessGen.ReturnPrinter` | lib/core.js:403-457 | `returnCode` stays padding exactly for `void` |
| `HarnessGen.ResEquation` | lib/core.js:442-444 | the result is left unassigned exactly for `void` |
| `HarnessGen.CodeLinesPrefix` | lib/core.js:161-400 | lines pushed for earlier parameters are not changed by later ones |
| `HarnessGen.CodeLinesBlock` | lib/core.js:161-400 | each parameter owns a contiguous block of the case's lines; an unknown type gives one `not supported` comment; every template line carries the parameter's name and index |
| `HarnessGen.LastWriteWins` | lib/core.js:256-392 | `extClassName` stays empty without writes, and otherwise holds the last write |
| `HarnessGen.ReturnTypeOverrides` | lib/core.js:407-420 | a return type's write wins over every parameter's |
| `HarnessGen.ListNodeParamTreeResult` | lib/core.js:459-535 | a `ListNode` parameter with a `TreeNode` result gets only the `TreeNode` class |
| `AddQuoting.EscapeQuotes` | lib/core.js:50 | escaping never shortens the text, and gives empty exactly for empty |
| `AddQuoting.EscapeRoundTrip` | lib/core.js:50 | reading `\"` back as `"` gives back the line |
| `AddQuoting.EscapeNoBareQuote` | lib/core.js:50 | every quote of the escaped text has a backslash before it |
| `AddQuoting.AddQuoteCases` | lib/core.js:45-51 | throws exactly when the line is not JSON; a JSON string is kept; anything else is quoted and escaped |
| `AddQuoting.AddQuote` | lib/core.js:45-51 | throws a `SyntaxError` exactly when the line is not JSON; otherwise the literal is at least as long as the line |
| `AddQuoting.SplitLines` | lib/core.js:637 | splitting gives at least one line |
| `AddQuoting.SplitNoNewline` | lib/core.js:637 | no line holds a newline |
| `AddQuoting.SplitJoin` | lib/core.js:637 | the lines hold no newline, and joining them with newlines gives the text back |
| `AddQuoting.QuoteLinesShape` | lib/core.js:637 | succeeds exactly when every line is JSON, and then gives one literal per line, in order |
| `AddQuoting.QuoteLines` | lib/core.js:637 | throws only a `SyntaxError`; otherwise one literal per line |
| `AddQuoting.TestcaseInit` | lib/core.js:637 | the default test case is built exactly when every line is JSON, and otherwise throws a `SyntaxError` |
| `AddQuoting.EscapedValueShrinks` | lib/core.js:50 | the Java value of an escaped line is never longer than the line, and is as long only without backslashes |
| `AddQuoting.BackslashLost` | lib/core.js:45-51 | for a non-string line holding a backslash, the Java value of the literal is not the line |
| `AddQuoting.EscapeJavaRoundTrip` | lib/core.js:50 | with backslashes and line breaks escaped too, the Java value is exactly the line |
| `AddQuoting.AddQuoteEscapedValue` | lib/core.js:45-51 | the corrected literal is quoted and its Java value is the line |
| `Printers.PrintChain` | lib/core.js:409-416 | prints the node values in order with ` -> ` between them, then a newline |
| `Printers.ArrowCount` | lib/core.js:409-416 | a chain of n nodes prints n-1 arrows |
| `Printers.ArrowsAppend` | lib/core.js:409-416 | two chains linked print as their two texts joined by one arrow |
| `Printers.PrintTree` | lib/core.js:422-439 | a tree of n nodes prints 2n+1 lines, one per node and one per null child, the first being the root's value or `<null>` |
| `Printers.Branch` | lib/core.js:431-439 | a subtree of n nodes prints 2n+1 lines, the first being the node's own line with the flag it is given |
| `Printers.BranchLabels` | lib/core.js:431-439 | as written, line k shows what is at the k-th position of a walk that visits the left child first, and carries `(R)` exactly when the last step to it goes left |
| `Printers.RootChildrenLabelled` | lib/core.js:422-430 | the root's right child is printed first with `(R)`, and its left child with `(L)` |
| `Printers.LeftChildLabelledRight` | lib/core.js:431-435 | below the root, the line after a node is its left child's, labelled `(R)` |
| `Printers.BranchFixedLabels` | lib/core.js:431-439 | in the corrected printer, line k shows what is at the k-th position, labelled `(R)` exactly when the last step to it goes right |
| `Printers.PrintTreeFixedLabels` | lib/core.js:422-439 | the corrected printer prints the root, then the corrected branches, one line per position |
| `ProblemFilter.FilterProblems` | lib/core.js:77-89 | the result of the two loops is `Filtered`: the query letters in turn, then the tags in turn |
| `ProblemFilter.Filtered` | lib/core.js:77-89 | throws exactly when the query throws, and only a `TypeError`; the tags never throw |
| `ProblemFilter.ApplyQueryError` | lib/core.js:77-81 | the only exception a query throws is a `TypeError` |
| `ProblemFilter.FilterByError` | lib/core.js:80 | `filter` throws only what the handler throws, a `TypeError` |
| `ProblemFilter.HandlerOf` | lib/core.js:58-71 | the upper-case letters are exactly the negated handlers, and the level handlers belong to `e`, `m`, `h` |
| `ProblemFilter.Test` | lib/core.js:53-56 | the predicates throw exactly for the level test on an empty level, and then a `TypeError` |
| `ProblemFilter.HasTag` | lib/core.js:41-43 | only a non-empty array can match; the empty tag matches every non-empty array |
| `ProblemFilter.HasTagIgnoresCase` | lib/core.js:41-43 | the tag's case does not matter |
| `ProblemFilter.MatchesTag` | lib/core.js:84-88 | a problem without companies or tags matches exactly the tag equal to its category |
| `ProblemFilter.ApplyThrows` | lib/core.js:53-56 | a handler throws only for a level letter on a problem with an empty level, and throws a `TypeError` |
| `ProblemFilter.UpperNegatesLower` | lib/core.js:58-71 | each upper-case letter accepts exactly what its lower-case letter rejects |
| `ProblemFilter.Unhandled` | lib/core.js:58-71 | exactly the twelve letters `emhEMHlLdDsS` have a handler |
| `ProblemFilter.FilterByOutcome` | lib/core.js:80 | `filter` throws exactly when the predicate throws on some problem; otherwise it keeps the accepted problems, in order |
| `ProblemFilter.FilterByUpperLower` | lib/core.js:58-80 | an upper-case letter keeps exactly the problems its lower-case letter drops, and the two results add up to the input |
| `ProblemFilter.ApplyQueryAppend` | lib/core.js:77-81 | the query `a + b` is the query `a`, then `b` on what remains |
| `ProblemFilter.UnhandledIgnored` | lib/core.js:78-79 | a letter with no handler can be removed from the query without changing the result |
| `ProblemFilter.ApplyQueryOrder` | lib/core.js:77-81 | the query's result is an order-preserving subsequence of its input |
| `ProblemFilter.ApplyQueryOnePass` | lib/core.js:77-81 | when nothing throws, the query keeps exactly the problems every handled letter accepts, in order |
| `ProblemFilter.FilterTagSelects` | lib/core.js:84-88 | a tag keeps the problems whose category equals it, or whose companies or tags contain its lower-case form |
| `ProblemFilter.ApplyTagsOnePass` | lib/core.js:83-89 | the tags keep exactly the problems that match every tag, in order |
| `ProblemFilter.FilteredOnePass` | lib/core.js:77-89 | when nothing throws, the result is exactly the problems that pass every letter and every tag, in their original order |
| `ProblemFilter.FilteredOrder` | lib/core.js:77-89 | the result is always an order-preserving subsequence of the problems |
| `ProblemFilter.SelectSplit` | lib/core.js:60-70 | a predicate and its negation split a list between them |
| `ProblemFilter.SubsequenceTrans` | lib/core.js:77-89 | a subsequence of a subsequence is a subsequence |

## Left out

- `getProblem`, `starProblem`, `getProblems` and the `core.next` plugin chain are not modelled. Nor are `file.exist` and `file.meta`. These are the plugin chain and filesystem I/O.
- The callback of `filterProblems` is not modelled: `FilterProblems` takes the problem list as a parameter. `opts.query` is a string (`undefined` is `""`) and `opts.tag` is a sequence (`undefined` is `[]`).
- `ProblemFilter.Problem`: a `companies` or `tags` field that is not an array is `None`. Array entries are strings, so `indexOf` on a non-string entry is not modelled.
- `toLowerCase` is modelled on ASCII letters only, in `ProblemFilter.Test`, `ProblemFilter.HasTag` and `Base.LowerString`.
- The description cleanup is not modelled: cheerio, he, wordwrap, `file.render`, `./config` and `h.langToCommentStyle` are foreign libraries.
- `percent.toFixed(2)` and the value that `Double.parseDouble` computes are not modelled. A number is kept as its token text and a floating flag.
- `Base.JavaParseInt`: `Integer.parseInt` is modelled on ASCII digits only, and so is `Character.isDigit`. Both also accept other Unicode decimal digits; for those the model throws `NumberFormatException` where Java reads a number (for example `[١]` in `NestedIntegers.Deserialized`).
- `JSON.parse` is a parameter: `AddQuoting.QuoteLines` takes what it makes of each line.
- `lodash.snakeCase` in the package name, and the `package`/`main` text around the harness, are not modelled.
- The golang branch is constant text and is not modelled.
- The emitted Java text is opaque. A `codeArray` line is the k-th template line of a case, keyed by type, parameter name and test-case index. Whether the generated Java compiles or runs is not modelled. For example, the `list<double>` case indexes a `List`.
- `TreeBuild.Construct`: the nodes are child-index arrays, not heap objects. A tree that links a node to itself (`TreeBuild.SelfChildExample`) is described by its indices and never walked.
- `Printers.PrintTree` takes a finite tree. A cyclic `TreeNode` would make `printTree` run forever; that case is not modelled.
- `System.out` is not modelled. The printers return the text or the lines they print.
- `AddQuoting.JavaLiteralValue` models only the escapes `\"`, `\\`, `\n`, `\r` and `\t`. Octal and `\u` escapes are not modelled; a line break inside a literal counts as malformed.
- `NestedIntegers.Deserialize`: lists are values and aliasing is not modelled. This is sound because each `NestedInteger` is referenced from one place only: the stack, `current`, or its parent list. None is changed after it is added to its parent.
- `AddQuoting.TestcaseInit` follows the code as written. The corrected escaping appears only in `AddQuoting.AddQuoteEscaped`.

## Findings

| source | as written | input that shows it | evidently intended | confidence | as-written member | corrected member |
|---|---|---|---|---|---|---|
| lib/core.js:45-51 | only `"` is escaped when a JSON value that is not a string becomes a Java string literal | the test-case line `["\\"]`: the Java literal's value loses a backslash | escape backslashes and line breaks too, so that the literal's value is the line | not executed; high | `AddQuoting.BackslashLost` | `AddQuoting.EscapeJavaRoundTrip` |
| lib/core.js:431-435 | below the root, `printTree` prints the left child first with the `(R)` label, and the right child with `(L)` | a root whose child has a left child: that grandchild is printed as `├──(R)` | label each child by its own side, as the root does (right child first, with `(R)`) | not executed; medium | `Printers.BranchLabels` | `Printers.BranchFixedLabels` |
