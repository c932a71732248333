# Verified models of the Nolang toolchain

Nolang's checker, its cache and its code generators rest on a handful of algorithms whose comments and tests promise
more than their types can: an annotation that may be deleted without a new diagnostic, a flat table that dumps what the
nested specification means, a graph search whose acceptance means that every struct has a finite size. This project
models those algorithms in Dafny and proves the promises for every input. `dafny verify dfyconfig.toml` checks all of it.

| files | part of the toolchain |
|---|---|
| `OverflowTree`, `OverflowLint`, `OverflowHints`, `OverflowWalk`, `OverflowRelevance`, `OverflowTheorems`, `OverflowTables`, `OverflowGoverned`, `OverflowLists`, `OverflowFormat` | the overflow lint, and the analysis that says which overflow annotations the formatter may delete |
| `AstSpec`, `AstPrinted`, `AstTape`, `AstInterp`, `Bits` | the compiler from dump specifications to a tape of instructions, and the interpreter of the tape |
| `GoComments` | the comment stripper in front of it |
| `IfaceSig`, `IfaceSame`, `IfaceMerge`, `IfaceResolve`, `IfaceTheorems` | interface merging |
| `InlineFields` | the inline-field check |
| `ModuleConsts`, `ModuleConstsProof`, `ModuleConstsExact`, `ModuleConstsGone` | the replacement of module constants by their literals |
| `Lru`, `LruTrace` | the LRU cache, and its runs |
| `Catalog`, `CatalogRoundTrip` | the renderer and the reader of locale catalogs |
| `CkSig` | the signature tables: the owner table and the binary search |
| `Sequences`, `StringOrder`, `Wrappers` | notions that several modules share |

## How the parts are modelled

**Overflow.** One tree of parser nodes, each statement with an identity, is walked twice. The lint runs on the tree in
which resolved method calls `recv.m(args)` have become `T.m(recv, args)` (`Flat`), with its own type tables; the
relevance analysis runs on the tree as parsed. Both walks are classes that fill a list or a set, proved against
recursive functions (`Lint`, `Marks`). What these give is said once more without them. A hint is given iff a path leads,
past no dot, annotated statement, `?=`, exempt let or function with a mode, to one of `+ - * /` between operands that
may be integers, of which a division has one that is not unsigned (`LintIff`). What is an integer is spelled out by the
operands that an expression comes down to (`KindIff`). The main results: the relevant set is exactly what stands above
flagged arithmetic; it covers every statement that the lint reports on; and the lint's output depends on the annotations
of relevant statements alone, so deleting the others changes nothing. They hold when lowering harms no table
(`HarmlessProgram`): each name that the unlowered tree declares as something else than a signed integer is still
declared as at most that, or, in a function of the top level, was lost and recorded so by the parser.
`DeletionIsHarmlessIfKept` says the same in terms of entries kept, lost and recorded. `AlwaysIffHarmless` shows that the
condition is exact: for given tables, both promises hold of all programs iff the tables are harmless. The analysis joins
the checker's own test of an operation (`DirectOverflow`, with type inference as an input) to the operand kinds; all
that the theorem asks of inference is one function whose calls it knows not to be integers, as it does of `char-to-str`.
Gaps are filled for functions of the top level only, so the promises fail for a nested function in which lowering loses
a declaration such as `x str = xs[i]`, whatever the parser recorded (`NestedLossIsMissed`).

The third walk gathers which statement each free-standing annotation speaks for. The map is injective, and an annotation
has its entry iff its statement list is scanned. `ScannedIff` describes the scanned lists by the ways that lead to them,
and `AllScannedIffPlaced` says when none is missed: iff every `if` and every match is the value of an expression
statement or of a let, or is a match in the head of such a match. Elsewhere the arms are overlooked, and the formatter
deletes valid annotations: `AssignedArmsAreMissed` shows it of every method that assigns to a field what a match gives.

`OverflowFormat` puts both kinds of annotations together. The parser writes the mode of an annotation that stands by
itself into the statement that it speaks for; the formatter keeps attached annotations on relevant statements, and the
others by its map. `PlacedIsHarmless`: in a program whose ifs and matches are placed, formatting changes no hint.
`GrowthIsReported`: formatting `.len = n: { #{overflow} .len = .len + 1 }` gives it a hint that it did not have.

**Dump tape.** A specification is a list of operations for each node kind; `Show` says what it prints. `EmitGo` compiles
it to five-slot instructions with a string pool and packed operands, and `SpecDump` interprets the tape. The two agree on
every tree, given fewer than 2^24 pooled strings and that every scalar that renders a node names a field that a CHILD
operation reads. `LabelIffPoolIsSmall` and `FindsItsChildIff` show that both conditions are exact. `AstPrinted` says of
the printed text, without the functions that build it, what stands in a header: the entries of exactly the scalars that
their policies print, in order, each with its key and its text.

**Comment stripper.** The lexer is a mode machine over characters. Its output is described position by position, it is
idempotent, and it agrees with an independent grammar of Go lexemes except where a raw string ends in an odd number of
backslashes.

**Interfaces.** The resolver is a class with the source's `state`, `stack`, `results` and `byName`. Its invariant records
when each interface was finished, from which follow the ranks of the parent graph, the diagnostics, and the closure.
Signatures are compared as texts joined with commas and bars. `SignatureIff` says what such a text tells: that the names
and the types of parameters and results are the same, each type read up to the method's own receiver, and no parameter at
all like a single one without a type. It does so for types in which commas and bars stand inside brackets only, as in
`fn(a,b)`, and `TidyIffNothingIsLost` shows the condition to be exact: among types that close their brackets, any other,
such as the union `int | str`, shares its signature with a different method.

**Inline fields.** A three-colour search, proved to report a cycle iff there is one, and otherwise to leave a layout in
which every struct is larger than all it embeds. An edge is defined by the fields of the definitions, and the edges that
the search collects are proved to be those.

**Module constants.** A small language with shadowing, blocks, loops, matches and closures has an evaluator with fuel,
for either of two scoping disciplines. The pass preserves every run when no binding that it overlooks shadows a constant,
and `ShadowingIsMissed` shows for each of five overlooked forms of binding that it does not otherwise. `KeepsIff` is exact
over the language: the pass keeps every run of every module that binds out of its sight only names from a given set, iff
it replaces none of these names. That it replaces what it should is shown by taking the constants away: where constants
are named only in places that the pass enters, and never as locals, every run after the pass without constants is the run
before it with them (`RunsWithoutConstants`). A function gives its
result parameter, as Nolang's `return` takes no value; the pass and the model also know a `return` with one.

**LRU.** A heap-allocated doubly linked list and a map, refined to a sequence of pairs. Runs are then studied on
sequences, and `Replay` takes the cache itself through a run.

**Catalogs, owner table, search.** Loops proved against functions and relations, whose inverses and uniqueness are
lemmas.

Where code and comments disagree, the code is modelled:

- `Closure` is documented as sorted by declaration order (`src/checker/iface_merge.go:342-343`). The code gives the order
  of a depth-first walk, the interface itself first.
- The resolver's case for a finished state is documented as a repeated failure (`src/checker/iface_merge.go:116-118`). A
  finished interface always has a result, so the case is never reached.
- `sid` is commented as giving 0 to the empty string (`scripts/gen_ast_spec.py:679`). The code pools the empty string like
  any other, under an id of at least 1.
- `strip_go_comments` is documented as keeping newlines and raw strings. A backslash before a newline in a blanked literal
  removes the newline, and a backslash before a closing backtick hides the closing.
- `raw_safe` guards against lines that would end a raw block, but only those with spaces and tabs; the reader accepts
  other blanks, such as a vertical tab.
- The direct test of an operation is documented as going by the same measure as the operand kinds
  (`src/checker/checker.go:5130-5134`). It counts `byte` among the integers and `u128` not, the operand kinds the other
  way round.
- The inline-field check says that fixed-size arrays of a struct embed it (`src/checker/checker.go:8980-8982`). The code
  rejects the annotation on an array and adds no edge.

## Model

| member | source | states |
|---|---|---|
| OverflowTree.KindFalls | src/checker/checker.go:3631-3692 | a table that makes no name more of an integer makes no operand more of an integer, in the order non-integer, unsigned, signed |
| OverflowTree.BelowIffKindsFall | src/checker/checker.go:3631-3692 | the order on tables is exactly the order on the operand kinds that they give |
| OverflowTree.MoreEntriesAreBelow | src/checker/checker.go:4141-4151 | adding entries for names that had none only lowers operand kinds |
| OverflowTree.FlatKind | src/checker/checker.go:3631-3692 | an operand keeps its kind when method calls are lowered |
| OverflowTree.FlatKids | src/checker/checker.go:11590-11625 | lowering keeps the children of every node that is not a resolved method call |
| OverflowWalk.FillGaps | src/checker/checker.go:4152-4158 | the table gets the parser's entry for a name iff the tree declares none |
| OverflowTree.KidsIffChild | src/checker/checker.go:3715-3877 | the walks enter exactly the children that stand in a node's fields, form by form; groups and leaves are not entered |
| OverflowTree.KindIff | src/checker/checker.go:3556-3692 | an operand is no integer iff something that it comes down to is a float, a text, a prefix but for a minus before an integer literal, or a name of one of eleven types; it is unsigned iff it is a name of one of five |
| OverflowHints.OwnIff | src/checker/checker.go:3703-3738 | an operation gets a hint iff it is one of `+ - * /`, both operands may be integers and, for a division, one is not unsigned |
| OverflowHints.LintIff | src/checker/checker.go:3714-3877 | the hints of a tree are exactly those of the operations that some path leads to, past no dot, annotated statement, `?=`, exempt let or function with a mode, each with the statement, file, line and types of its place |
| OverflowHints.LintProgramIff | src/checker/checker.go:4117-4171 | the hints of a program are exactly those so reached from its top-level statements, a function of the top level with its gaps filled |
| OverflowWalk.Walker.WalkInfix | src/checker/checker.go:3703-3742 | appends the hint of the operation iff it is one of `+ - * /`, both sides may be integers and, for a division, one is not unsigned; then the hints of the operands |
| OverflowWalk.Walker.WalkExpression | src/checker/checker.go:3715-3781 | appends exactly the hints of the expression, in order |
| OverflowWalk.Walker.WalkStatement | src/checker/checker.go:3791-3877 | appends exactly the hints of the statement, none when it is annotated |
| OverflowWalk.Walker.WalkFunction | src/checker/checker.go:3795-3809 | a nested function is walked with its own types, unless it carries a mode |
| OverflowWalk.Walker.WalkLet | src/checker/checker.go:3824-3851 | no hint for a let of option type, into an option variable, or into the blank name |
| OverflowWalk.WalkTop | src/checker/checker.go:4134-4169 | a top-level function is walked with the gap-filled table, any other statement with the top-level table |
| OverflowWalk.ValidateIntOverflow | src/checker/checker.go:4117-4171 | the hints of the program are those of its top-level statements, in order; together exactly those of the operations that some path leads to |
| OverflowRelevance.Scan.LookAll | src/checker/checker.go:4201-4300 | looks at every node without stopping at the first find, and adds exactly the marked statements |
| OverflowRelevance.Scan.LookAtExpression | src/checker/checker.go:4207-4307 | true iff flagged arithmetic lies at or below the expression; receivers of method calls are entered |
| OverflowRelevance.Scan.LookAtStatement | src/checker/checker.go:4311-4374 | true iff flagged arithmetic lies below the statement, which is then added |
| OverflowRelevance.StatementsWithIntOverflow | src/checker/checker.go:4182-4395 | computes the relevant set: the statements that a path leads to and from which one leads to flagged arithmetic |
| OverflowRelevance.MayBeIntegerIff | src/checker/checker.go:5120-5156 | an operand may be an integer for the checker iff nothing in it is a text or has an inferred type other than the eleven that overflow |
| OverflowRelevance.HintableIff | src/checker/checker.go:5065-5105 | the conservative test holds iff the lint would give a hint, remainders included, and the bare `.` a signed integer |
| OverflowRelevance.FlaggedIff | src/checker/checker.go:4207-4213 | arithmetic is flagged iff the checker asks for its annotation, or the lint might, remainders and the bare `.` included |
| OverflowRelevance.HasIffAbove | src/checker/checker.go:4201-4374 | the traversal finds exactly the flagged arithmetic that some path down the tree leads to |
| OverflowRelevance.RelevantIffAbove | src/checker/checker.go:4182-4395 | a statement is relevant iff some path leads to it and on to flagged arithmetic: the set is closed upwards and holds nothing else |
| OverflowTheorems.MethodCallParts | src/checker/checker.go:4251-4275 | what is found and marked in a method call is what is found and marked in its receiver and its arguments |
| OverflowTheorems.MethodCallLint | src/checker/checker.go:3745-3749 | the lint sees the receiver of a lowered call as an argument |
| OverflowTheorems.LintIsCovered | src/checker/checker.go:3791-3877 | below any node, hints on the lowered tree imply flagged arithmetic in the unlowered one, and hinted statements are marked |
| OverflowTables.Superset | test/README.md:364-365 | every statement that the lint reports on is in the relevant set, lowered calls and gap-filled tables included, when the tables are harmless |
| OverflowTables.OnlyRelevantAnnotationsMatter | src/checker/checker.go:4397-4415 | two sets of annotations that agree on the relevant statements give the same hints, when the tables are harmless |
| OverflowTables.DeletionIsHarmless | src/checker/checker.go:4173-4181 | deleting every overflow annotation outside the relevant set leaves the hints unchanged, when the tables are harmless |
| OverflowTables.DeletionIsHarmlessIfKept | src/checker/checker.go:4131-4169 | both hold when top-level code and nested functions keep their entries, and functions of the top level lose only entries that the parser recorded |
| OverflowTables.BelowIffHarmless | src/checker/checker.go:4141-4158 | a gap-filled table is below the unlowered one iff each entry of the latter that matters is carried by the lowered table or by the recorded types |
| OverflowTables.CoversIffHarmless | src/checker/checker.go:3795-3809 | over a whole program, with every nested function, the tables are in order iff each of them is harmless |
| OverflowTables.AlwaysIffHarmless | test/README.md:364-365 | for given tables, the superset property holds of all programs and annotations iff the tables are harmless, and so does the harmless deletion; inference need only know the calls of some function, such as `char-to-str`, not to be integers |
| OverflowTables.NestedLossIsMissed | src/checker/checker.go:3795-3809 | a nested function in which lowering loses the declaration `x str = xs[i]` gives a hint on a concatenation with x, and nothing is relevant, whatever the parser recorded |
| OverflowTheorems.GapsAreFilled | src/checker/checker.go:4141-4158 | the hypothesis on tables holds for a top-level function whose lost entries the parser recorded |
| OverflowTheorems.SupersetIffBelow | src/checker/checker.go:5053-5097 | for one table in all scopes, every hint is on a flagged node iff the lint's table is below the other |
| OverflowTheorems.TelltaleIsLost | src/checker/checker.go:5065-5097 | the operation that the lint reports and the analysis misses when the tables are not so ordered |
| OverflowTheorems.DirectBeyondKinds | src/checker/checker.go:4781-4828 | of the names that the operand kinds count as no integer, the direct test flags a sum iff it is of bytes |
| OverflowGoverned.NextPlain | src/checker/checker.go:4430-4448 | the first statement that is not an annotation, unless an overflow annotation comes first |
| OverflowGoverned.Collector.ScanList | src/checker/checker.go:4425-4450 | records, for each overflow annotation of the list, the statement that it speaks for |
| OverflowGoverned.Collector.Collect | src/checker/checker.go:4488-4515 | records the annotations of the list and of every list that is scanned from it |
| OverflowGoverned.Collector.CollectMatch | src/checker/checker.go:4473-4487 | the bodies of a match are scanned as whole lists, then the matches in its heads |
| OverflowGoverned.OverflowAnnotationRelevance | src/checker/checker.go:4416-4519 | both results that the formatter uses |
| OverflowGoverned.GovernsOne | src/checker/checker.go:4400-4407 | an annotation speaks for at most one statement, and a statement is spoken for by at most one annotation |
| OverflowLists.ListsAreApart | src/checker/checker.go:4416-4519 | in a tree of distinct statements no statement stands in two of its lists, nor in two scanned ones |
| OverflowLists.GovernedIff | src/checker/checker.go:4416-4519 | in a tree of distinct statements, the map sends an annotation to a statement iff some scanned list has it speak for the statement |
| OverflowLists.GovernedIsInjective | src/checker/checker.go:4416-4519 | in a tree of distinct statements, no two annotations govern the same statement |
| OverflowLists.ScannedIff | src/checker/checker.go:4451-4515 | a list is scanned iff a way leads to it: into the body of a function, block or loop, into the arms of an if or match that is a statement or bound by a let, or of a match in the head of such a match |
| OverflowLists.AllScannedIffPlaced | src/checker/checker.go:4451-4515 | all statement lists of the tree are scanned iff every if and match is the value of an expression statement or let, or a match in such a head |
| OverflowLists.EntryIffScanned | src/checker/checker.go:4416-4519 | an annotation that speaks for a statement, anywhere in the tree, has its entry iff its list is scanned |
| OverflowLists.PlacedHasAllEntries | src/checker/checker.go:4488-4515 | where every if and match is so placed, every such annotation has its entry |
| OverflowLists.KeptIff | src/fmt/stmt.go:278-294 | the formatter keeps such an annotation iff its statement is relevant and its list is scanned |
| OverflowLists.AssignedArmsAreMissed | src/checker/checker.go:4488-4515 | in every method that assigns a match to a field, an annotation in an arm that speaks for a relevant statement has no entry, and is deleted |
| OverflowLists.GrowthIsMissed | src/checker/checker.go:4455-4458 | such a method, with a field assignment in the arm, under all tables |
| OverflowFormat.OneSpeaker | src/parser/annotation.go:392-448 | in a tree of distinct statements, a statement is spoken for by one annotation at most, over all blocks |
| OverflowFormat.FormattingIsHarmless | src/fmt/stmt.go:278-314 | formatting changes no hint, attached and free-standing annotations together, when the tables are harmless and the annotations of relevant statements stand in scanned lists |
| OverflowFormat.PlacedIsHarmless | src/checker/checker.go:4397-4519 | formatting changes no hint of a program of distinct statements whose ifs and matches are placed, when the tables are harmless |
| OverflowFormat.GrowthIsReported | src/checker/checker.go:4488-4515 | formatting gives the method above a hint that it did not have, under all tables |
| Bits.PackedIffFits | scripts/gen_ast_spec.py:704-714 | two numbers packed with a shift come out again iff the low one fits |
| AstPrinted.ScalarTextIs | scripts/gen_ast_spec.py:881-926 | the text of a scalar, origin by origin: a length in decimals, a type or a node of the child that its path begins with, a kind of label, or the value at its path |
| AstPrinted.PartsAre | scripts/gen_ast_spec.py:1072-1090 | the parts of a header are the entries of exactly the scalars that their policies print, in the order of the scalars |
| AstPrinted.HeaderTextIs | scripts/gen_ast_spec.py:1068-1104 | the header that the specification means is such a line |
| AstPrinted.DecimalIsNumeral | scripts/gen_ast_spec.py:885-889 | the decimals of a length are digits without a leading zero that stand for it |
| AstPrinted.JoinedIsJoined | scripts/gen_ast_spec.py:1091 | joined parts are the parts with the separator between them |
| AstPrinted.ChildIs | scripts/gen_ast_spec.py:1112-1120 | a child prints one level in, a missing one as nil, or not at all under a guard |
| AstPrinted.KidIs | scripts/gen_ast_spec.py:1121-1127 | an element prints as the node that it refers to, by address as the struct that it is, and otherwise as nil or not at all |
| AstPrinted.HelpIs | scripts/gen_ast_spec.py:1128-1134 | a structure prints by the helper that it belongs to, and otherwise as nil, or not at all where nil is skipped |
| AstPrinted.DumpBegins | scripts/gen_ast_spec.py:834-838 | the dump of a node begins with its header line |
| AstTape.ChildOrdinals | scripts/gen_ast_spec.py:686-694 | each child field gets the ordinal of a CHILD operation that reads it |
| AstTape.Emitter.Sid | scripts/gen_ast_spec.py:675-679 | the id refers to the string in the grown pool, and the pool stays free of duplicates |
| AstTape.Emitter.EmitScalar | scripts/gen_ast_spec.py:700-715 | appends one instruction with the packed label, reference, renderer and origin |
| AstTape.Emitter.EmitOp | scripts/gen_ast_spec.py:695-730 | appends the code of the operation, a header with its scalars |
| AstTape.Emitter.EmitKind | scripts/gen_ast_spec.py:683-732 | appends the code of all operations of a kind, in one contiguous slice |
| AstTape.EmitGo | scripts/gen_ast_spec.py:669-732 | each kind's row cuts exactly the code of its operations out of the tape |
| AstInterp.LabelIffPoolIsSmall | scripts/gen_ast_spec.py:714-715 | a label survives the packing iff its id is below 2^24; below it, so does the reference |
| AstInterp.OperandDecodes | scripts/gen_ast_spec.py:707-713 | policy, renderer and origin are read back as they were written |
| AstInterp.FindsItsChildIff | scripts/gen_ast_spec.py:702-706 | a scalar's reference leads to its own child in every tree iff some CHILD operation reads the scalar's field |
| AstInterp.ScalarRenders | scripts/gen_ast_spec.py:890-930 | through its reference a faithful scalar renders what the specification says |
| AstInterp.IndexKinds | scripts/gen_ast_spec.py:813-821 | the index leads from every kind to the row with its code |
| AstInterp.State.ChildrenOf | scripts/gen_ast_spec.py:1047-1061 | the children are those that the CHILD operations read, in order |
| AstInterp.State.ScalarPart | scripts/gen_ast_spec.py:1073-1089 | one scalar gives its text after its key iff its policy is always; or nonempty and the text is not empty; or true and the text is `true`; or nonzero or count and the text is not `0` |
| AstInterp.State.ScalarParts | scripts/gen_ast_spec.py:1072-1090 | the scan after a header gives the entries of exactly those of the header's scalars that are printed, in order |
| AstInterp.State.PutHeader | scripts/gen_ast_spec.py:1068-1104 | writes the header line: four spaces for each level, the name, and in braces the joined entries, or the node that the header shows, or what stands for its absence |
| AstInterp.State.Step | scripts/gen_ast_spec.py:1064-1153 | one instruction writes what its operation means |
| AstInterp.State.RunOne | scripts/gen_ast_spec.py:1064-1067 | scalars are passed over, any other instruction is the next operation |
| AstInterp.State.VisitKids | scripts/gen_ast_spec.py:1121-1127 | nil elements are skipped or printed as the operation says |
| AstInterp.State.VisitHelped | scripts/gen_ast_spec.py:1128-1134 | elements are handed to the named helper |
| AstInterp.State.Visit | scripts/gen_ast_spec.py:1037-1156 | writes exactly what the specification of the node's kind means, or the line for an unknown kind |
| AstInterp.SpecDump | scripts/gen_ast_spec.py:834-838 | the dump of any tree by the tape equals the meaning of the nested specification, and begins with the header line of the root if its first operation is a header |
| GoComments.StripGoComments | scripts/gen_ast_spec.py:35-92 | the index loop computes the mode machine's output |
| GoComments.EachPosition | scripts/gen_ast_spec.py:35-92 | every position outside comments and blanked literals keeps its character; the others become blanks |
| GoComments.LinesKept | scripts/gen_ast_spec.py:35-92 | newlines stay and none is added, iff literals are kept or no escape in a blanked literal is a newline |
| GoComments.StrippedAgain | scripts/gen_ast_spec.py:35-92 | in every mode, stripping the output in the corresponding mode changes nothing |
| GoComments.Idempotent | scripts/gen_ast_spec.py:35-92 | stripping twice is stripping once, with and without literals |
| GoComments.RawStringTracked | scripts/gen_ast_spec.py:35-92 | the end of a raw string is recognised iff its body ends in an even number of backslashes |
| GoComments.StripsGoSource | scripts/gen_ast_spec.py:35-92 | on Go lexemes without such raw strings, exactly comments (and literals, if asked) are blanked |
| GoComments.RawHandledIff | scripts/gen_ast_spec.py:35-92 | a raw string is treated as it should be, together with whatever follows it, iff its body ends in an even number of backslashes |
| GoComments.RawBackslashHidesComment | scripts/gen_ast_spec.py:35-92 | every raw string that does not hides the comment after it |
| IfaceSig.TokensMaximal | src/checker/iface_merge.go:294-326 | the reading of a text has that text, and identifiers are as long as possible |
| IfaceSig.MaximalUnique | src/checker/iface_merge.go:294-326 | it is the only such reading |
| IfaceSig.WordEnd | src/checker/iface_merge.go:294-326 | the end of the identifier that starts there |
| IfaceSig.ReplaceIdentWord | src/checker/iface_merge.go:294-318 | replaces exactly the identifiers equal to the word |
| IfaceSig.NothingToReplace | src/checker/iface_merge.go:294-318 | a text without the identifier comes back unchanged |
| IfaceSig.ReplaceComposes | src/checker/iface_merge.go:288-318 | replacing t by a fresh u and then u is replacing t |
| IfaceSig.SignatureIgnoresReceiverName | src/checker/iface_merge.go:257-284 | the canonical signature does not depend on the name of a generic receiver |
| IfaceSame.NameIsWhole | src/checker/iface_merge.go:288-326 | a name of letters, digits, underscores and dashes is replaced as a whole or not at all |
| IfaceSame.BoundaryIsKept | src/checker/iface_merge.go:294-326 | at any other character the text falls into two that are replaced apart |
| IfaceSame.NoNameBegins | src/checker/iface_merge.go:294-322 | a digit, a dash or a mark that begins no name stays |
| IfaceSame.TypeIff | src/checker/iface_merge.go:268-277 | two type texts with the placeholder are equal iff the types are the same up to their receivers, unless one has a placeholder of its own |
| IfaceSame.PlaceholderIsTakenForReceiver | src/checker/iface_merge.go:268-288 | a type that is written as the placeholder is taken for any receiver |
| IfaceSame.SameMethodSignature | src/checker/iface_merge.go:257-284 | the same method always has the same signature |
| IfaceSame.SignatureIff | src/checker/iface_merge.go:257-284 | for types with commas and bars inside brackets only: signatures are equal iff names, parameter types and result types are, each type up to the receiver |
| IfaceSame.TidyIffNothingIsLost | src/checker/iface_merge.go:275-283 | a type that closes its brackets is never taken for something else iff no comma and no bar stands outside of them |
| IfaceMerge.LookupIff | src/checker/iface_merge.go:177-188 | a written name stands for the interface of that name, or else for the only one with its base name |
| IfaceMerge.BaseNameOfPlain | src/checker/checker.go:2870-2885 | the base name is what follows the last dot |
| IfaceMerge.BaseNameOfBrackets | src/checker/checker.go:2870-2885 | a prefix in brackets stays, and a dot after it goes |
| IfaceMerge.Collect | src/checker/iface_merge.go:61-85 | the tables hold the first declaration of each name, in order |
| IfaceMerge.LookupDeclared | src/checker/iface_merge.go:177-188 | a lookup leads to a declared interface |
| IfaceResolve.IfaceResolver.Keep | src/checker/iface_merge.go:131-146 | keeps the first method of each name and who brought it, and reports a later one with both owners iff its signature differs: never when it is the same method, always when tidy types differ |
| IfaceResolve.IfaceResolver.ReportCycle | src/checker/iface_merge.go:208-235 | the path read off the stack is a closed walk in the parent graph |
| IfaceResolve.IfaceResolver.Resolve | src/checker/iface_merge.go:109-172 | terminates, keeps the resolver's invariant, and gives nothing iff the name is undeclared or on the stack |
| IfaceResolve.IfaceResolver.MergeParents | src/checker/iface_merge.go:149-162 | parents, methods and diagnostics after all references of an interface |
| IfaceResolve.IfaceResolver.ResolveParent | src/checker/iface_merge.go:150-158 | a parent without a result is on the stack; any other is finished |
| IfaceTheorems.ResolveInterfaces | src/checker/iface_merge.go:61-95 | a complete run leaves a finished, fully reported state |
| IfaceTheorems.Results | src/checker/iface_merge.go:61-172 | exactly the declared names have results, method names are distinct, and the parents have ranks: their graph is acyclic, whatever the declarations |
| IfaceTheorems.CycleIff | src/checker/iface_merge.go:109-127 | a cycle is reported iff the parent graph has one, and every reported path is a closed walk |
| IfaceTheorems.UnknownIff | src/checker/iface_merge.go:150-154 | an unknown parent is reported iff a declared interface refers to something that no lookup finds |
| IfaceTheorems.ConflictIff | src/checker/iface_merge.go:131-166 | no conflict is reported if same-named methods are the same over every closure, in the types of parameters and results; where types are tidy, only if they are |
| IfaceTheorems.ConflictIffSignatures | src/checker/iface_merge.go:131-166 | for all types: no conflict is reported iff same-named methods agree in signature over every closure |
| IfaceTheorems.FullIsDeclared | src/checker/iface_merge.go:372-381 | a result set looks names up as the resolver does |
| IfaceTheorems.Walk | src/checker/iface_merge.go:353-367 | the walk adds exactly the ancestors, each once |
| IfaceTheorems.Closure | src/checker/iface_merge.go:344-369 | the interface itself first, then exactly its ancestors, without repetition |
| IfaceTheorems.NamesOfClosure | src/checker/iface_merge.go:329-369 | the method names of an interface are those of the methods declared over its closure |
| IfaceTheorems.OrderIndependent | src/checker/iface_merge.go:61-172 | on an acyclic graph the results depend on the lookups alone |
| IfaceTheorems.ReorderedPrograms | src/checker/iface_merge.go:61-95 | reordering the declarations of an acyclic program changes no result |
| InlineFields.CollectStructs | src/checker/checker.go:8971-8978 | the struct definitions, in order |
| InlineFields.FieldTagCheck.CheckField | src/checker/checker.go:8984-9015 | an edge iff the field is annotated by value and its type is not empty, none of nineteen names and begins with none of five marks; the diagnostic of a misused annotation; otherwise nothing |
| InlineFields.EdgeIff | src/checker/checker.go:8983-9016 | the edges collected lead exactly from a struct to a struct that some field of one of its definitions stores by value |
| InlineFields.OrdinaryIff | src/checker/checker.go:8984-9035 | the diagnostics other than a cycle are exactly the annotations without a boolean, and those on a field whose type is no struct |
| InlineFields.SelfInlineIsCycle | src/checker/checker.go:9012-9058 | a struct with a field of its own type by value makes a cycle |
| InlineFields.FieldTagCheck.CollectEdges | src/checker/checker.go:8983-9016 | the edges and the field diagnostics of all structs |
| InlineFields.CollectEnums | src/checker/checker.go:9021-9035 | the diagnostics of enum annotations |
| InlineFields.FieldTagCheck.Walk | src/checker/checker.go:9048-9067 | from an unvisited struct: a genuine cycle, or the struct and all below it are finished |
| InlineFields.FieldTagCheck.FindCycle | src/checker/checker.go:9040-9079 | one cycle diagnostic iff there is a cycle, otherwise a rank |
| InlineFields.ReportedIsCycle | src/checker/checker.go:9056-9058 | a reported path follows edges and ends at a node on it, so the graph has a cycle |
| InlineFields.FinishedIsRank | src/checker/checker.go:9065-9067 | finishing order is a rank along the edges |
| InlineFields.FiniteIffRanked | src/checker/checker.go:9072-9078 | every struct has a finite size iff the edges have a rank |
| InlineFields.CyclicHasNoLayout | src/checker/checker.go:9072-9078 | a rejected program has no finite layout |
| InlineFields.ValidateFieldTags | src/checker/checker.go:8957-9081 | reports a cycle iff there is one, as there is for a struct with a field of its own type by value; reports every misused annotation and no other; accepts only programs in which every struct has a finite size |
| ModuleConsts.LocalNames.Collect | src/checker/checker.go:11778-11815 | adds exactly the names bound in the forms that the pass knows |
| ModuleConsts.GatherLocals | src/checker/checker.go:11732-11748 | the locals of a function: the outer ones, parameters, results and collected names |
| ModuleConsts.ResolveArguments | src/checker/checker.go:11838-11843 | the argument slice is overwritten, each argument by its resolved form |
| ModuleConstsProof.SameName | src/checker/checker.go:11822-11837 | a name means the same before and after the pass |
| ModuleConstsProof.SameEval | src/checker/checker.go:11817-11938 | a resolved expression runs as the original does, in environments that answer each other |
| ModuleConstsProof.SameStep | src/checker/checker.go:11718-11777 | so does a resolved statement |
| ModuleConstsProof.SameInvoke | src/checker/checker.go:11731-11753 | so does a call of a closure whose body was resolved |
| ModuleConstsProof.RunsAreKept | src/checker/checker.go:11731-11753 | every call of every function gives the same answer after the pass, when no overlooked binding shadows a constant |
| ModuleConstsProof.TopIsKept | src/checker/checker.go:11710-11777 | running the statements of the top level leaves each variable as it was before the pass, under the same condition; the definitions of the constants may be among them |
| ModuleConstsProof.CollectedNeedNoCheck | src/checker/checker.go:11778-11815 | the bindings that the pass collects satisfy the condition by themselves |
| ModuleConstsProof.ShadowingIsMissed | src/checker/checker.go:11778-11815 | for five forms of binding that the pass overlooks, a function whose result the pass changes to the constant, or to a failure |
| ModuleConstsExact.KeepsIff | src/checker/checker.go:11710-11938 | the pass keeps every run of every module whose functions bind, in overlooked forms, only names from a set, iff it replaces none of them |
| ModuleConstsGone.NameBecomes | src/checker/checker.go:11822-11837 | a name becomes its constant iff it has one, is not local and is not `ok`, `nil` or `err` |
| ModuleConstsGone.NoneIsLeft | src/checker/checker.go:11817-11938 | where constants are named only in places that the pass enters, none of their names is left after it |
| ModuleConstsGone.RunsWithoutConstants | src/checker/checker.go:11710-11938 | every call then gives, after the pass and without the constants, the answer that it gave before the pass with them |
| ModuleConstsGone.TopRunsWithoutConstants | src/checker/checker.go:11710-11777 | and so do the statements of the top level |
| Lru.LRU.constructor | src/cache/lru.go:38-48 | an empty cache, of capacity 1024 if none is given |
| Lru.List.Remove | src/cache/lru.go:70-76 | unlinks one element and keeps the others in order |
| Lru.List.PushBack | src/cache/lru.go:77-78 | links a new element at the end |
| Lru.List.MoveToBack | src/cache/lru.go:53-55 | moves one element to the end and keeps the others in order |
| Lru.LRU.Bijection | src/cache/lru.go:24-37 | map and list have the same keys, each once |
| Lru.LRU.Get | src/cache/lru.go:50-59 | refines the lookup on a sequence of pairs: the value, and the pair moved to the end |
| Lru.LRU.Put | src/cache/lru.go:62-79 | refines the write: revalued and moved, or appended after dropping the first pair of a full cache |
| Lru.LRU.Clear | src/cache/lru.go:82-87 | an empty cache |
| LruTrace.Replay | src/cache/lru.go:38-87 | taken through any calls, an empty cache has the contents that the runs below speak of, and each read gives the value under its key then |
| LruTrace.RunInvariant | src/cache/lru.go:24-87 | after any calls: distinct keys, size within capacity, pairs in order of last use, each with the value last written |
| LruTrace.EvictsLeastRecent | src/cache/lru.go:70-79 | a key leaves iff a new key is written to a full cache and it is the least recently used |
| LruTrace.ReadThrough | src/lexer/token_cache.go:28-52 | a client that stores a function's values on a miss always gets the function's value |
| LruTrace.ServeIsRecent | src/cache/lru.go:50-87 | the contents are the most recent keys of the unbounded recency list |
| LruTrace.Inclusion | src/cache/lru.go:36-37 | the contents of a smaller cache are a suffix of those of a larger one, in every run |
| LruTrace.HitIffStackDistance | src/cache/lru.go:50-79 | a key is cached iff fewer than capacity other keys were accessed since its last access |
| LruTrace.KeyInjective | src/cache/lru.go:89-95 | keys are equal iff paths and digests are |
| Catalog.Escape | scripts/merge_doc_locale.py:36-51 | computes the escaped value |
| Catalog.Unescape | scripts/merge_doc_locale.py:20-33 | computes the unescaped value |
| Catalog.UnescapeEscape | scripts/merge_doc_locale.py:20-51 | unescaping undoes escaping |
| Catalog.EscapedOnOneLine | scripts/merge_doc_locale.py:36-51 | an escaped value has no line break |
| Catalog.UnescapedPair | scripts/merge_doc_locale.py:20-33 | what each escaped character stands for |
| Catalog.EscapedIsQuotable | scripts/merge_doc_locale.py:36-51 | in an escaped value no quote, line break, tab or carriage return stands bare |
| Catalog.EntryIffPattern | scripts/merge_doc_locale.py:68-92 | the matcher accepts a line iff it has the form of an entry, with these parts |
| Catalog.RawStartIffPattern | scripts/merge_doc_locale.py:68-92 | the matcher accepts a line iff it opens a raw block, with this key |
| Catalog.RawEndIffPattern | scripts/merge_doc_locale.py:15-17 | a line closes a raw block iff it is a backtick between blanks |
| Catalog.SpaceIff | scripts/merge_doc_locale.py:15-17 | the 29 characters that count as blanks in the patterns |
| Catalog.RenderedRawIff | scripts/merge_doc_locale.py:54-65 | a value is written raw iff it has a line break and none of its lines begins, after spaces, tabs and carriage returns, with a backtick |
| Catalog.Render | scripts/merge_doc_locale.py:95-101 | the loop writes the rendered catalog |
| Catalog.CollectRaw | scripts/merge_doc_locale.py:68-92 | a raw block reaches to the first line that closes one |
| Catalog.Parse | scripts/merge_doc_locale.py:68-92 | the loop computes the reading of the text |
| CatalogRoundTrip.ReadEntry | scripts/merge_doc_locale.py:62-92 | a rendered entry is read back, whichever syntax it was written in |
| CatalogRoundTrip.ReadBrokenEntry | scripts/merge_doc_locale.py:54-66 | a raw value that closes its own block comes back as another value |
| CatalogRoundTrip.RoundTrip | scripts/merge_doc_locale.py:20-101 | reading what was rendered gives the same header and table iff the table is non-empty, no header line opens an entry, keys have the form of keys, and no raw value closes its block |
| CatalogRoundTrip.RenderedAgain | scripts/merge_doc_locale.py:95-101 | rendering what was read back gives the same text |
| CatalogRoundTrip.OrdinaryBlanksHold | scripts/merge_doc_locale.py:54-59 | values whose blanks are spaces, tabs and carriage returns never close their block |
| CatalogRoundTrip.VerticalTabBreaks | scripts/merge_doc_locale.py:54-59 | a value that passes the guard and closes its block |
| CkSig.Lt | compiler/tools/gen_ck_sig.py:341-373 | 1 iff the first string is less in the lexicographic order of bytes, and 0 otherwise |
| CkSig.BSearch | compiler/tools/gen_ck_sig.py:378-398 | on ascending keys: the key's only index, and -1 iff there is none, with the three arms tested in sequence |
| StringOrder.LessTotal | compiler/tools/gen_ck_sig.py:336-340 | the order is total |
| StringOrder.LessTransitive | compiler/tools/gen_ck_sig.py:336-340 | the order is transitive |
| CkSig.BuildStdFuncOwner | src/checker/checker.go:10373-10423 | for every order of iteration: a name maps to a module iff it is its only known defining module |
| CkSig.OwnerMap | compiler/tools/gen_ck_sig.py:85-105 | computes the same pair of tables |
| CkSig.OwnerTableUnique | src/checker/checker.go:10373-10423 | there is only one such pair of tables |

## Left out

- `inferExprType` and `collectFuncDeclared` are inputs of the overflow model: the inferred type of an expression, and a
  table for each function.
- Lowering beyond method calls (the expansion of matches, captures and safe indexing) is modelled by its effect on the
  type tables alone.
- The report of the overflow lint carries the identity of its statement in addition to file, line and column; message
  texts are left out, here and in every other part.
- `ValidateUnhandledOverflow` and the variants that read the typed intermediate representation are not modelled.
- The parser's own attachment of an annotation to the statement after it is not modelled; the trees here are those that
  it leaves. Formatting is modelled by its effect on the annotations: a deleted one stays in the tree and has no effect.
- Reflection (`fieldOf`, `renderValue`) and the formatting inside helpers and signatures are inputs of the dump model:
  the values that each path reads, and the lines and nodes that a helper prints. An unknown helper name, at which the
  interpreter panics, prints as a nil line.
- Sources that the regular expressions of `gen_ast_spec.py` classify into operations are not modelled, nor is the Nolang
  emitter beside the Go one.
- `sorted`, as applied to the keys of a dictionary, is an input that is required to be the ascending order of the keys.
- A nil program and a nil semantic context are not modelled.
- The pass over module constants rewrites the tree in place and shares literal nodes. It is modelled on values, except
  for its map of locals and its argument slices; aliasing is not captured.
- ModuleConstsProof.RunsAreKept: for a single module the condition is sufficient, not necessary: whether an overlooked
  binding matters there depends on whether it is ever executed and read. `ModuleConstsExact.KeepsIff` is exact for all
  modules together.
- IfaceTheorems.ConflictIff: with type texts in which a comma or a bar stands outside of brackets, methods that differ may
  share a signature, and no conflict is reported between them; then only `ConflictIffSignatures` is exact.
- ModuleConstsGone.RunsWithoutConstants: a constant whose name is also local somewhere, or is read where the pass does not
  go, is still needed after the pass.
- Nested functions capture their bindings by value in the model.
- Locks of the cache, and the digest of its keys: every call is one atomic step, and the digest is an abstract function
  of fixed length.
- Reading files, universal newlines and the merging of two catalogs.
- The emission of the signature tables as Nolang text.
- Go's `container/list` is modelled as far as the cache uses it.
