# Verification of the algorithms in the Waves node repository

A Dafny model of the hardest algorithms shipped with the node, and proofs about it. Most of them are in the
JavaScript bundled with the node's API page; four are Scala or RIDE. Run `dafny verify dfyconfig.toml`.

Where the source computes by expressions the model is functions; where it changes things step by step (the
compiler objects of Handlebars, the highlighter, the six-limb scratch number, arrays, the collection, the parser,
streams) it is classes and loops proved against those functions. Properties are lemmas about the functions.

## What is modelled

**Handlebars 4.0.5** (`Handlebars*.dfy`). `HandlebarsAst` and `HandlebarsOpcodes` give the tree and its opcodes,
`HandlebarsMachine` the opcode machine with its inline part, flushed part and shared temp slots, and
`HandlebarsCodegen` a second description of the output made from the tree with no stack at all. `HandlebarsBalance`,
`HandlebarsRefinement` and `HandlebarsTheorems` show that the machine emits exactly that and when it fails.
`HandlebarsSemantics` is an evaluator of the generated JavaScript next to a meaning of the template;
`HandlebarsPreservation`, `HandlebarsRendering`, `HandlebarsPartials`, `HandlebarsRuns` and `HandlebarsMain` show they
agree, and `HandlebarsNesting` that they do so in nested programs. `HandlebarsLaws` says what the head of a mustache, block
or sub-expression stands for, without the compiler's classification.
`HandlebarsCompiler` and `HandlebarsJavaScriptCompiler` are the two objects as the source writes them.

**highlight.js 9.1.0** (`Highlight*.dfy`). Escaping and tag stripping, the events of a DOM tree, the merge of two event
streams, and the mode-stack loop with sub-languages, continuation and language detection. Regular expressions are
parameters; only that a search yields an occurrence at or after its start is used of them. `HighlightMarkup` and
`HighlightSpanMarkup` read the markup that is written, `HighlightChoices` says which mode, class or language is chosen.

**es5-shim** (`Es*.dfy`). `toFixed` with its limb arithmetic, rounding and printing, `splice` on sparse arrays,
and the day count with the ISO date check.

**backbone** (`Backbone*.dfy`), **marked's parser** (`MarkedParser.dfy`), **export and import of block files**
(`BlockFiles.dfy`), the **lease queue** of the transaction generator (`LeaseQueue.dfy`) and the **wallet** contract
(`Wallet.dfy`).

## What the code does differently from what one would expect

- Handlebars: with stringParams and trackIds both on, any parameter or hash pair of a helper call makes the compiler
  pop more than was pushed, and so does every partial; with explicitPartialContext, a partial without a context does so
  when either is on (`StatementOverdrawn`, `CompilesIff`).
- Handlebars: the values of a hash are computed from the last to the first, and the first of several equal keys is kept.
- Handlebars: with explicitPartialContext, a partial with a computed name and no context gets name and context exchanged.
- Handlebars: numbers rendered raw are added to each other where two of them open a sum, at the start of the output or of
  a run between two bare blocks, or where the output so far is one number and the next value is one too; elsewhere they are
  joined. A program that is one partial with preventIndent and an indentation renders only the indentation.
- highlight.js: an attribute value with a double quote is written unescaped, so the markup says something else.
- highlight.js: a mode that both returns and excludes its end writes the end twice; an empty lexeme that starts and
  ends nothing makes the next character disappear; elements such as `abbr`, whose name contains `br`, are not closed.
- es5-shim: `toFixed` throws for a digit count strictly between -1 and 0, where the standard takes 0.
- backbone: `set` with a list that names a new model twice leaves a length that is too small; without `add` it throws
  when the first entry matches nothing; several models added at a negative place do not stay together.
- Exporter: a chain of height 2 to 9 cannot be exported. Importer: "import to height" goes one block further.

## Model

| member | source | states |
|---|---|---|
| HandlebarsTheorems.CompilesIff | node/src/main/resources/swagger-ui/lib/handlebars-4.0.5.js:2-3 | A program compiles without "Invalid stack pop", "replaceStack on non-inline" or "content left on stack" if and only if no statement pops more than was pushed for it; then the output is exactly the lines described directly from the tree, without any stack. |
| HandlebarsTheorems.CompilesAlways | node/src/main/resources/swagger-ui/lib/handlebars-4.0.5.js:2-3 | With at most one of stringParams and trackIds on, and neither with explicitPartialContext, every program compiles. |
| HandlebarsTheorems.StatementNet | node/src/main/resources/swagger-ui/lib/handlebars-4.0.5.js:2 | The opcodes of a statement never push more entries than they pop, and pop more than they push when the statement is overdrawn. |
| HandlebarsBalance.StepMoves | node/src/main/resources/swagger-ui/lib/handlebars-4.0.5.js:2-3 | Every opcode keeps stackSlot equal to the number of computed entries on the flushed stack and moves the height by a number fixed by the opcode and the options, or fails. |
| HandlebarsBalance.RunMoves | node/src/main/resources/swagger-ui/lib/handlebars-4.0.5.js:2-3 | The same over every sequence of opcodes. |
| HandlebarsRefinement.ExprRun | node/src/main/resources/swagger-ui/lib/handlebars-4.0.5.js:2-3 | From any state the opcodes of an expression end with exactly one more entry, the one the stackless description gives for the next free temp slot, and disturb nothing else. |
| HandlebarsRefinement.HelperRun | node/src/main/resources/swagger-ui/lib/handlebars-4.0.5.js:2-3 | The opcodes of a helper call with parameters, hash and programs push exactly the described call. |
| HandlebarsRefinement.HashRun | node/src/main/resources/swagger-ui/lib/handlebars-4.0.5.js:3 | The opcodes of a hash, which push its values and assign them from the last to the first into a buffer of their own, push exactly the described literal, and leave the hashes around it as they were. |
| HandlebarsMachine.AssignSets | node/src/main/resources/swagger-ui/lib/handlebars-4.0.5.js:3 | assignToHash makes the value on top the property of that name of the open hash and leaves every other property. |
| HandlebarsRefinement.StatementRun | node/src/main/resources/swagger-ui/lib/handlebars-4.0.5.js:2-3 | From an idle machine the opcodes of a statement emit exactly the described lines and leave the machine idle. |
| HandlebarsRefinement.BodyRun | node/src/main/resources/swagger-ui/lib/handlebars-4.0.5.js:2-3 | The same for a whole program body. |
| HandlebarsPreservation.PathYields | node/src/main/resources/swagger-ui/lib/handlebars-4.0.5.js:2-3 | Although every step of a path assigns and reads one shared temp slot, the value of the generated expression is the null-safe walk of the path, and no lower slot changes. |
| HandlebarsPreservation.ExprComputes | node/src/main/resources/swagger-ui/lib/handlebars-4.0.5.js:2-3 | The JavaScript generated for any expression has the same value, the same changes of the world in the same order and the same failures as the expression means, and leaves lower temp slots alone. |
| HandlebarsPreservation.HelperComputes | node/src/main/resources/swagger-ui/lib/handlebars-4.0.5.js:2-3 | A generated helper call finds its helper, computes its parameters from left to right, then its hash, and calls with the options the source means. |
| HandlebarsPreservation.HashComputes | node/src/main/resources/swagger-ui/lib/handlebars-4.0.5.js:2-3 | The generated hash literal is the hash the source means, computed in the order of HashOrder. |
| HandlebarsHashes.FirstPairWins | node/src/main/resources/swagger-ui/lib/handlebars-4.0.5.js:2-3 | Of several pairs with one key exactly the first is computed, and every key is computed once. |
| HandlebarsHashes.LastToFirst | node/src/main/resources/swagger-ui/lib/handlebars-4.0.5.js:2-3 | With distinct keys that are no array indices the values of a hash are computed from the last pair to the first. |
| HandlebarsHashes.PutKeepsOrder | node/src/main/resources/swagger-ui/lib/handlebars-4.0.5.js:3 | Assigning a property keeps for-in order: array indices ascending, then the others as they came; an existing one keeps its place. |
| HandlebarsRendering.AmbiguousEvaluates | node/src/main/resources/swagger-ui/lib/handlebars-4.0.5.js:2-3 | A bare name calls the helper of that name if there is one that is a function, and otherwise is the path; in a block it leaves its options in the register. |
| HandlebarsRendering.BlockTracks | node/src/main/resources/swagger-ui/lib/handlebars-4.0.5.js:2-3 | The lines emitted for a block append what rendering the block means, for helper, ambiguous and plain blocks. |
| HandlebarsPartials.PartialEvaluates | node/src/main/resources/swagger-ui/lib/handlebars-4.0.5.js:2 | The generated partial call computes its target, context and options as the partial means, unless a computed name meets an implied explicit context. |
| HandlebarsPartials.SwappedPartial | node/src/main/resources/swagger-ui/lib/handlebars-4.0.5.js:2 | In that excluded family the call passes undefined as the partial and the computed name as the context. |
| HandlebarsRuns.MergedAgrees | node/src/main/resources/swagger-ui/lib/handlebars-4.0.5.js:2 | mergeSource keeps the meaning of the lines it merges into sums: same failures, same changes of the world, and the text of the values appended, joined, if and only if no sum opens with two numbers and the buffer and its first addition are not a number each (numbers being written as numerals). |
| HandlebarsRuns.SumText | node/src/main/resources/swagger-ui/lib/handlebars-4.0.5.js:2 | Adding up groups of values from left to right gives their joined texts exactly when no two numbers are added to each other, however many strings and numbers follow. |
| HandlebarsNumbers.TotalDiffers | node/src/main/resources/swagger-ui/lib/handlebars-4.0.5.js:2 | The numeral of a sum of two or more numbers and booleans is never their texts side by side. |
| HandlebarsRuns.CleanNeverMeets | node/src/main/resources/swagger-ui/lib/handlebars-4.0.5.js:2 | Where no number is appended directly behind a number, numbers never meet. |
| HandlebarsMain.TemplateRenders | node/src/main/resources/swagger-ui/lib/handlebars-4.0.5.js:2-3 | End to end: a program compiles, and running the compiled function fails and changes the world as rendering the tree means, and gives the text it means if and only if no numbers meet in the sums of the compiled body. |
| HandlebarsMain.ProgramRenders | node/src/main/resources/swagger-ui/lib/handlebars-4.0.5.js:2-3 | The same from the Compiler object on, for every program it accepts. |
| HandlebarsMain.ApartRendersText | node/src/main/resources/swagger-ui/lib/handlebars-4.0.5.js:2-3 | A program in which no two statements with raw values follow each other, but for silent ones between them, renders exactly the text it means, whatever the values are. |
| HandlebarsNesting.NestedRenders | node/src/main/resources/swagger-ui/lib/handlebars-4.0.5.js:2-3 | The same for the programs nested in it at every depth, with the environments the Compiler made for them. |
| HandlebarsNesting.NestedEnvironments | node/src/main/resources/swagger-ui/lib/handlebars-4.0.5.js:2 | The environment at every depth is that of the program there and its scope, the program was accepted, and a need for parent contexts is declared by all environments around it. |
| HandlebarsNesting.ProgramNumbers | node/src/main/resources/swagger-ui/lib/handlebars-4.0.5.js:2 | The numbers by which a block or partial knows its programs lead to those programs. |
| HandlebarsNesting.RenderConcat | node/src/main/resources/swagger-ui/lib/handlebars-4.0.5.js:2 | A body is rendered statement after statement, each with the numbers left by those before it. |
| HandlebarsAst.BlockParamIndex | node/src/main/resources/swagger-ui/lib/handlebars-4.0.5.js:2 | A name is found in the innermost list that declares it, at its first place there, and not at all only if no list declares it. |
| HandlebarsLaws.BareNameRuns | node/src/main/resources/swagger-ui/lib/handlebars-4.0.5.js:2-3 | A template of one bare name, compiled and run: a registered helper of that name is called with the context and its options, or shown if it is no function; without one the value of the context is shown, or the function there called; without that helperMissing. |
| HandlebarsLaws.KnownHelpersOnlyRuns | node/src/main/resources/swagger-ui/lib/handlebars-4.0.5.js:2-3 | With knownHelpersOnly a bare name that is not known is the value of the context. |
| HandlebarsLaws.KnownHelpersOnly | node/src/main/resources/swagger-ui/lib/handlebars-4.0.5.js:2 | There the registered helpers make no difference. |
| HandlebarsLaws.HelperCallRuns | node/src/main/resources/swagger-ui/lib/handlebars-4.0.5.js:2-3 | With parameters or a hash, or with a known name, the helper is called with the parameters from left to right, then the options with the hash. |
| HandlebarsLaws.PathWithArguments | node/src/main/resources/swagger-ui/lib/handlebars-4.0.5.js:2 | With arguments, a path, or a name no helper has, calls what the path finds, else helperMissing, else it throws. |
| HandlebarsLaws.PathsAreValues | node/src/main/resources/swagger-ui/lib/handlebars-4.0.5.js:2 | A path that is no bare name is looked up without arguments, and called if it is a function. |
| HandlebarsLaws.DeclaredNameRuns | node/src/main/resources/swagger-ui/lib/handlebars-4.0.5.js:2-3 | A name that a block around it declares is the innermost parameter of that name, whatever helpers there are. |
| HandlebarsLaws.SubExpression | node/src/main/resources/swagger-ui/lib/handlebars-4.0.5.js:2 | A sub-expression is a call of the helper even without arguments. |
| HandlebarsLaws.BareBlockHelper | node/src/main/resources/swagger-ui/lib/handlebars-4.0.5.js:2-3 | A bare block whose name is a registered helper calls it with its programs. |
| HandlebarsLaws.BareBlockValue | node/src/main/resources/swagger-ui/lib/handlebars-4.0.5.js:2-3 | A bare block whose name is no helper hands the value of the context to blockHelperMissing. |
| HandlebarsLaws.BlockCall | node/src/main/resources/swagger-ui/lib/handlebars-4.0.5.js:2-3 | A block with arguments or with a known name is a call of the helper with its programs. |
| HandlebarsLaws.NamedPartial | node/src/main/resources/swagger-ui/lib/handlebars-4.0.5.js:2 | A partial by name is invoked with the current context, or undefined where contexts are explicit, and with its name, block, data, indentation, helpers, partials and decorators. |
| HandlebarsLaws.PartialWithContext | node/src/main/resources/swagger-ui/lib/handlebars-4.0.5.js:2 | A context that is given is computed and passed instead. |
| HandlebarsLaws.DepthedLookupIsFirst | node/src/main/resources/swagger-ui/lib/handlebars-4.0.5.js:3 | In compat mode a name is taken from the innermost context that has it. |
| HandlebarsLaws.AcceptedIff | node/src/main/resources/swagger-ui/lib/handlebars-4.0.5.js:2 | Without knownHelpersOnly a program is refused exactly for a partial with more than one parameter, at any depth. |
| HandlebarsLaws.UnknownHelperRefused | node/src/main/resources/swagger-ui/lib/handlebars-4.0.5.js:2 | With it a call of another helper is refused. |
| HandlebarsMain.NumbersAreAdded | node/src/main/resources/swagger-ui/lib/handlebars-4.0.5.js:2 | Two numbers that open the output come out as the text of their sum. |
| HandlebarsMain.NumbersBehindText | node/src/main/resources/swagger-ui/lib/handlebars-4.0.5.js:2 | Behind a string the same two numbers are joined. |
| HandlebarsMain.UnreachedPartial | node/src/main/resources/swagger-ui/lib/handlebars-4.0.5.js:2 | A lone partial whose indentation is moved in front of it (preventIndent) is never invoked: only the indentation is rendered. |
| HandlebarsCompiler.EnvironmentDeclares | node/src/main/resources/swagger-ui/lib/handlebars-4.0.5.js:2 | The environment of a compiled program declares the parent contexts that its own opcodes reach. |
| HandlebarsCompiler.Compiler.Compile | node/src/main/resources/swagger-ui/lib/handlebars-4.0.5.js:2 | The Compiler object, which pushes to its opcode list, yields the opcodes, children and flags given as a function of the tree, and throws exactly for the programs not allowed. |
| HandlebarsCompiler.Compiler.AcceptHash | node/src/main/resources/swagger-ui/lib/handlebars-4.0.5.js:2 | Walking a hash pushes the opcodes of its pairs between pushHash and popHash, pushing the values before assigning them in reverse. |
| HandlebarsCompiler.Compiler.SetupParams | node/src/main/resources/swagger-ui/lib/handlebars-4.0.5.js:2 | Parameters are pushed in order, then the two programs, then the hash or an empty one. |
| HandlebarsCompiler.Compiler.AcceptStatement | node/src/main/resources/swagger-ui/lib/handlebars-4.0.5.js:2 | Every kind of statement extends opcodes and children as the functions of the tree say. |
| HandlebarsJavaScriptCompiler.JavaScriptCompiler.PopStack | node/src/main/resources/swagger-ui/lib/handlebars-4.0.5.js:3 | Pops the inline part first; a flushed entry takes a slot with it unless it is a literal asked for unwrapped, and the pop throws when the slot count is already 0; wrapped, the entry itself is returned. |
| HandlebarsJavaScriptCompiler.JavaScriptCompiler.ReplaceStack | node/src/main/resources/swagger-ui/lib/handlebars-4.0.5.js:3 | Replaces the top inline entry in place; a computed one is kept in the next temp slot, which is free again afterwards. |
| HandlebarsJavaScriptCompiler.JavaScriptCompiler.FlushInline | node/src/main/resources/swagger-ui/lib/handlebars-4.0.5.js:3 | Moves the inline entries to the flushed stack in order, one temp slot and one assignment line for each computed one. |
| HandlebarsJavaScriptCompiler.JavaScriptCompiler.ResolvePath | node/src/main/resources/swagger-ui/lib/handlebars-4.0.5.js:2 | The loop over path parts is the fold of null-safe links over the top entry. |
| HandlebarsJavaScriptCompiler.JavaScriptCompiler.SetupParams | node/src/main/resources/swagger-ui/lib/handlebars-4.0.5.js:3 | Takes hash, programs and parameters off the stack, the parameters from the last to the first, into arguments in source order. |
| HandlebarsJavaScriptCompiler.JavaScriptCompiler.Execute | node/src/main/resources/swagger-ui/lib/handlebars-4.0.5.js:2-3 | Each opcode method changes the object as the machine step says, or throws the error it says. |
| HandlebarsJavaScriptCompiler.JavaScriptCompiler.Compile | node/src/main/resources/swagger-ui/lib/handlebars-4.0.5.js:2 | The opcode loop with its final check that nothing is left on the stacks. |
| HandlebarsJavaScriptCompiler.MergeSource | node/src/main/resources/swagger-ui/lib/handlebars-4.0.5.js:2 | The loop of mergeSource over marked pieces computes the merge function used in the theorems. |
| HandlebarsQuoting.QuotedReads | node/src/main/resources/swagger-ui/lib/handlebars-4.0.5.js:3 | The literal written for any text is one JavaScript string literal and denotes that text, although the six replacements run one after the other. |
| HighlightText.UnescapeEscape | node/src/main/resources/swagger-ui/lib/highlight.9.1.0.pack.js:1 | Escaping in three passes is undone by reading the three entities, and leaves no angle bracket. |
| HighlightText.StripRender | node/src/main/resources/swagger-ui/lib/highlight.9.1.0.pack.js:1 | Dropping the tags of the merged markup leaves exactly the escaped text. |
| HighlightStreams.Recorder.Walk | node/src/main/resources/swagger-ui/lib/highlight.9.1.0.pack.js:1 | The recursive walk appends the events of a DOM tree and returns the offset behind its text. |
| HighlightStreams.StreamIsFaithful | node/src/main/resources/swagger-ui/lib/highlight.9.1.0.pack.js:1 | The events of any DOM tree are sorted by offset, well nested, end by the text length, and open at each character its ancestors, except those that get no stop event. |
| HighlightStreams.AncestorsKept | node/src/main/resources/swagger-ui/lib/highlight.9.1.0.pack.js:1 | All ancestors of all characters are kept if and only if no element whose name contains br, hr, img or input has text inside. |
| HighlightStreams.AbbreviationStaysOpen | node/src/main/resources/swagger-ui/lib/highlight.9.1.0.pack.js:1 | An abbr element with text is opened and never closed. |
| HighlightStreams.NeverClosedNames | node/src/main/resources/swagger-ui/lib/highlight.9.1.0.pack.js:1 | Every element with br, hr, img or input anywhere in its name gets no stop event. |
| HighlightMerge.MergeStreams | node/src/main/resources/swagger-ui/lib/highlight.9.1.0.pack.js:1 | The loop that empties both event arrays, reversing the array of open highlight elements in place, writes the pieces given as a function of the two streams. |
| HighlightMerge.TakeOriginals | node/src/main/resources/swagger-ui/lib/highlight.9.1.0.pack.js:1 | The inner do-while loop takes the run of original events at one offset. |
| HighlightMarkup.RenderReads | node/src/main/resources/swagger-ui/lib/highlight.9.1.0.pack.js:1 | A reader of markup, which unescapes text and attribute values, reads the text written back as its pieces, with their direction, lower-case names and attributes, if and only if no attribute value has a double quote. |
| HighlightMarkup.MergedMarkup | node/src/main/resources/swagger-ui/lib/highlight.9.1.0.pack.js:1 | For two sorted, nested streams the text that mergeStreams writes is nested markup; every character, unescaped, is in the elements the original stream has open there and, inside them, those of the highlighting, by name and attributes. |
| HighlightMarkup.MergedTreesMarkup | node/src/main/resources/swagger-ui/lib/highlight.9.1.0.pack.js:1 | For two trees over one text every character of the markup has all its ancestors of both. |
| HighlightMarkup.QuoteIsLost | node/src/main/resources/swagger-ui/lib/highlight.9.1.0.pack.js:1 | An attribute that is a double quote is written as it is, and the markup does not say it. |
| HighlightMarkup.LowerReads | node/src/main/resources/swagger-ui/lib/highlight.9.1.0.pack.js:1 | Names are written with small letters for capital ones. |
| HighlightNesting.MergeReads | node/src/main/resources/swagger-ui/lib/highlight.9.1.0.pack.js:1 | From every state of the merge the rest of the output is well nested, and around each character are the elements the original stream has open there and, inside them, those of the highlighting. |
| HighlightNesting.MergeKeeps | node/src/main/resources/swagger-ui/lib/highlight.9.1.0.pack.js:1 | All of the text is written once and in order, and every original tag in order at its own offset. |
| HighlightNesting.MergeIsFaithful | node/src/main/resources/swagger-ui/lib/highlight.9.1.0.pack.js:1 | Both together for two sorted, nested streams. |
| HighlightNesting.MergedTrees | node/src/main/resources/swagger-ui/lib/highlight.9.1.0.pack.js:1 | For the streams of two trees over one text, every character keeps all its ancestors of both trees, the original ones outermost. |
| HighlightSpans.LexemeKeeps | node/src/main/resources/swagger-ui/lib/highlight.9.1.0.pack.js:1 | One lexeme keeps the spans nested; it keeps the text if and only if it neither ends a mode that both gives its end back and writes it, nor is an empty lexeme stepped over before a character. |
| HighlightSpans.LoopKeeps | node/src/main/resources/swagger-ui/lib/highlight.9.1.0.pack.js:1 | A finished run of the lexeme loop, through sub-languages and continued modes, has written the whole text once, and the open spans are those of the modes below the language; asked of the grammars is only that no mode does the first of the two, and that on the mode chains runs can build no empty lexeme is left over unless it is illegal there. |
| HighlightSpans.ReachedKeeps | node/src/main/resources/swagger-ui/lib/highlight.9.1.0.pack.js:1 | Every state that a run reaches after any number of lexemes, whether it ends or not, has the spans of its open modes and has kept the text before its place. |
| HighlightSpans.LoopIsAfter | node/src/main/resources/swagger-ui/lib/highlight.9.1.0.pack.js:1 | A finished run is some number of lexemes, a place where none is found, and the rest of the text written. |
| HighlightExamples.EndlessLeafIsOk | node/src/main/resources/swagger-ui/lib/highlight.9.1.0.pack.js:1 | A language with a mode that has no end of its own meets the conditions; one whose end of line is an illegal empty lexeme meets them exactly when illegal lexemes are not ignored. |
| HighlightExamples.ReturningIsOk | node/src/main/resources/swagger-ui/lib/highlight.9.1.0.pack.js:1 | A mode may return its end or exclude it, just not both, and may stop at the end of the text. |
| HighlightExamples.LosesLineBreak | node/src/main/resources/swagger-ui/lib/highlight.9.1.0.pack.js:1 | With illegal lexemes ignored, such a language highlights "[", a line break and "]" as "[]". |
| HighlightExamples.RepeatsEnd | node/src/main/resources/swagger-ui/lib/highlight.9.1.0.pack.js:1 | With a mode that both returns and excludes its end x, "(x" becomes "(xx". |
| HighlightSpans.FlushKeeps | node/src/main/resources/swagger-ui/lib/highlight.9.1.0.pack.js:1 | Writing the buffer, by keywords, in a named sub-language or in a detected one, adds nested spans that hold exactly the buffer. |
| HighlightSpans.HighlightKeeps | node/src/main/resources/swagger-ui/lib/highlight.9.1.0.pack.js:1 | Every finished highlighting in such languages, also the exit at an illegal lexeme, is well nested and holds exactly the text. |
| HighlightSpans.StripSpans | node/src/main/resources/swagger-ui/lib/highlight.9.1.0.pack.js:1 | The value written strips to the escaped text. |
| HighlightSpanMarkup.HighlightedMarkup | node/src/main/resources/swagger-ui/lib/highlight.9.1.0.pack.js:1 | The value written, read as markup, is nested span elements around exactly the text; each character is in the spans with the classes its modes, keyword and language have. |
| HighlightChoices.OpensFirst | node/src/main/resources/swagger-ui/lib/highlight.9.1.0.pack.js:1 | A lexeme opens the first contained mode that begins at it, and none when none does. |
| HighlightChoices.EndsInnermost | node/src/main/resources/swagger-ui/lib/highlight.9.1.0.pack.js:1 | The innermost open mode that does not hand the lexeme on through endsWithParent decides: if it ends at it, that mode and those it is carried to by endsParent are ended, otherwise none; handed on by the language itself, it throws. |
| HighlightChoices.LexemeOpens | node/src/main/resources/swagger-ui/lib/highlight.9.1.0.pack.js:1 | A mode that begins at the lexeme is opened inside of the current one, whatever the lexeme would end, and the lexeme is consumed unless the mode returns it. |
| HighlightChoices.LexemeEnds | node/src/main/resources/swagger-ui/lib/highlight.9.1.0.pack.js:1 | When nothing begins, the modes ended are left, with their relevance, and what the outermost of them starts takes their place. |
| HighlightChoices.LexemeStays | node/src/main/resources/swagger-ui/lib/highlight.9.1.0.pack.js:1 | When nothing begins or ends the lexeme is illegal or part of the buffer, and an empty one costs a character. |
| HighlightChoices.BeginsWhere | node/src/main/resources/swagger-ui/lib/highlight.9.1.0.pack.js:1 | What begins a mode stands before its span if the mode excludes it, is not written if it returns it, and otherwise inside. |
| HighlightChoices.EndsWhere | node/src/main/resources/swagger-ui/lib/highlight.9.1.0.pack.js:1 | What ends a mode stands behind the spans that close if the mode excludes it, and otherwise inside or is given back. |
| HighlightChoices.KeywordsCount | node/src/main/resources/swagger-ui/lib/highlight.9.1.0.pack.js:1 | Every keyword found adds its relevance, as often as it is found. |
| HighlightChoices.SubLanguageContinues | node/src/main/resources/swagger-ui/lib/highlight.9.1.0.pack.js:1 | A sub-language goes on where its last buffer ended, is wrapped in a span with its name, and its relevance counts only if that of the mode is positive. |
| HighlightChoices.KeywordsColour | node/src/main/resources/swagger-ui/lib/highlight.9.1.0.pack.js:1 | Exactly the characters of words that are keywords are in a span, of the keyword's class. |
| HighlightChoices.AddedShades | node/src/main/resources/swagger-ui/lib/highlight.9.1.0.pack.js:1 | What is written stands inside of the spans of the open modes. |
| HighlightChoices.DetectsBest | node/src/main/resources/swagger-ui/lib/highlight.9.1.0.pack.js:1 | No language tried has more relevance than the one taken, which is the first of the best; without any relevance the plain text is taken. |
| HighlightProgram.Highlighter.ProcessLexeme | node/src/main/resources/swagger-ui/lib/highlight.9.1.0.pack.js:1 | The function that handles one lexeme changes output, buffer, mode, relevance and continuations as the lexeme function says, or throws as it says. |
| HighlightProgram.Highlighter.ProcessBuffer | node/src/main/resources/swagger-ui/lib/highlight.9.1.0.pack.js:1 | The buffer is written as the flush function says, calling the highlighter again for sub-languages. |
| HighlightProgram.Highlighter.Run | node/src/main/resources/swagger-ui/lib/highlight.9.1.0.pack.js:1 | The loop over the lexemes is the loop function. |
| HighlightProgram.HighlightCode | node/src/main/resources/swagger-ui/lib/highlight.9.1.0.pack.js:1 | A whole call yields the text, relevance, language and top mode of the highlight function. |
| HighlightProgram.AutoText | node/src/main/resources/swagger-ui/lib/highlight.9.1.0.pack.js:1 | Language detection yields the first most relevant result, or the plain text. |
| HighlightProgram.HighlightFuel | node/src/main/resources/swagger-ui/lib/highlight.9.1.0.pack.js:1 | What a run yields within some step bound it yields within every larger one. |
| EsToFixed.ToFixed | node/src/main/resources/swagger-ui/lib/es5-shim.js:1 | toFixed throws exactly for digit counts outside 0 to 20 and otherwise returns the text section 15.7.4.5 of ECMA-262 edition 5 asks for, for every double below 10^21 and every earlier content of the shared limbs. |
| EsToFixed.RequiredReads | node/src/main/resources/swagger-ui/lib/es5-shim.js:1 | The text of a number below 10^21 starts with a minus exactly if the number is negative; the rest are digits with d behind the point, and signed and times 10^d they are the nearest integer, of two the one further from 0. |
| EsToFixed.RequiredNative | node/src/main/resources/swagger-ui/lib/es5-shim.js:1 | NaN is "NaN"; from 10^21 on, in both directions, the text is the native one of the number itself. |
| EsToFixed.DigitsRefused | node/src/main/resources/swagger-ui/lib/es5-shim.js:1 | Refused are exactly infinite digit counts, those below 0 and those from 21 on. |
| EsToFixed.TinyIsNearest | node/src/main/resources/swagger-ui/lib/es5-shim.js:1 | The constant 1e-21 is modelled by the double within half a unit of it. |
| EsToFixed.NearestIsNearest | node/src/main/resources/swagger-ui/lib/es5-shim.js:1 | The number printed divided by 10^f is closest to the value, and of two closest the larger. |
| EsToFixed.FixedTextReads | node/src/main/resources/swagger-ui/lib/es5-shim.js:1 | The text reads back as exactly n / 10^f with f fraction digits and no superfluous leading zero. |
| EsToFixed.DigitsAgree | node/src/main/resources/swagger-ui/lib/es5-shim.js:1 | The digit count taken agrees with ToInteger of the standard on every argument but those strictly between -1 and 0, where the program throws. |
| EsToFixed.Log | node/src/main/resources/swagger-ui/lib/es5-shim.js:1 | The division loops find the exponent of the largest power of two not above the argument. |
| EsToFixed.PowFromIsPow | node/src/main/resources/swagger-ui/lib/es5-shim.js:1 | pow by repeated squaring with an accumulator is the power times the accumulator. |
| EsToFixed.FirstFactor | node/src/main/resources/swagger-ui/lib/es5-shim.js:1 | The scaled number is below 2^53 and is the value times 2^i; from 2^52 on it is whole and the shift is at most 17. |
| EsToFixed.RoundedDigits | node/src/main/resources/swagger-ui/lib/es5-shim.js:1 | Multiply by ten, divide by powers of two, add one and halve give the digits of the nearest integer; the limbs go through exactly the calls of FixedCalls. |
| EsToFixed.WholeDigits | node/src/main/resources/swagger-ui/lib/es5-shim.js:1 | For whole numbers from 2^52 on the digits followed by zeros are those of the nearest integer. |
| EsToFixed.Load | node/src/main/resources/swagger-ui/lib/es5-shim.js:1 | multiply(0, a) makes the limbs hold a, whatever they held before. |
| EsToFixed.TimesTen | node/src/main/resources/swagger-ui/lib/es5-shim.js:1 | The loop of multiplications by 10^7 and the remaining power multiplies by 10^e; the modulus is not reached. |
| EsToFixed.DivideByTwos | node/src/main/resources/swagger-ui/lib/es5-shim.js:1 | The chain of truncating divisions is one floored division by the whole power of two. |
| EsToFixed.PlacePoint | node/src/main/resources/swagger-ui/lib/es5-shim.js:1 | Point placement and zero filling give the digits with e of them after the point. |
| EsLimbs.ScratchNumber.Multiply | node/src/main/resources/swagger-ui/lib/es5-shim.js:1 | The in-place loop over six limbs computes the multiplication function on them. |
| EsLimbs.ScratchNumber.Divide | node/src/main/resources/swagger-ui/lib/es5-shim.js:1 | The in-place loop from the highest limb computes the division function. |
| EsLimbs.ScratchNumber.NumToString | node/src/main/resources/swagger-ui/lib/es5-shim.js:1 | The text of the limbs is the decimal numeral of their value, inner zero limbs included. |
| EsLimbs.MultiplyModulo | node/src/main/resources/swagger-ui/lib/es5-shim.js:1 | multiply(t, e) sets the value to (t * value + e) modulo 10^42, exactly below it. |
| EsLimbs.MultiplyExact | node/src/main/resources/swagger-ui/lib/es5-shim.js:1 | Limbs stay below 10^7 and, with the carry, hold the exact product plus e. |
| EsLimbs.DivideFloors | node/src/main/resources/swagger-ui/lib/es5-shim.js:1 | divide(t) sets the value to the floor of value / t. |
| EsRounding.MultiplyStaysSmall | node/src/main/resources/swagger-ui/lib/es5-shim.js:1 | Every sum formed by multiply on the way of toFixed is below 2^53. |
| EsRounding.DivideStaysSmall | node/src/main/resources/swagger-ui/lib/es5-shim.js:1 | Every number formed by divide, for divisors up to 2^23, is below 2^53. |
| EsRounding.FloorSurvivesRounding | node/src/main/resources/swagger-ui/lib/es5-shim.js:1 | Rounding the quotient by 10^7 to a double does not change its floor, for whole numbers below 2^53 and halves below 2^52. |
| EsRounding.FirstFactorLoads | node/src/main/resources/swagger-ui/lib/es5-shim.js:1 | The first factor loaded is such a number. |
| EsRounding.DoublesSuffice | node/src/main/resources/swagger-ui/lib/es5-shim.js:1 | For every rounding that keeps representable numbers and rounds quotients within half a unit, the whole run of calls on doubles leaves the same limbs as in exact arithmetic, whatever they held before. |
| EsSplice.SparseArray.Splice | node/src/main/resources/swagger-ui/lib/es5-shim.js:1 | For all arguments, clamped as StartsAt and CountsTo say, the array becomes the cells before, the items and the cells behind, holes moved as holes; removed cells are returned at their offsets; it fails exactly when the result would be longer than an array can be. |
| EsSplice.StartsAt | node/src/main/resources/swagger-ui/lib/es5-shim.js:1 | A start is taken without its fraction; from 0 to the length it is that, above it the length, below 0 so many from the end, and no further than the front. |
| EsSplice.CountsTo | node/src/main/resources/swagger-ui/lib/es5-shim.js:1 | A count is taken without its fraction, as none below 0 and as all there is above that. |
| EsSplice.NoNumberArguments | node/src/main/resources/swagger-ui/lib/es5-shim.js:1 | NaN is 0 and the infinities are the two ends. |
| EsSplice.SpliceCalls | node/src/main/resources/swagger-ui/lib/es5-shim.js:1 | With whole arguments the array becomes the cells before the place, the items, and the cells behind those removed. |
| EsSplice.SplicedAt | node/src/main/resources/swagger-ui/lib/es5-shim.js:1 | The same cell by cell. |
| EsSplice.SparseArray.CloseGap | node/src/main/resources/swagger-ui/lib/es5-shim.js:1 | Shifting down from the first cell overwrites nothing still to be moved, and the leftover tail is deleted. |
| EsSplice.SparseArray.OpenGap | node/src/main/resources/swagger-ui/lib/es5-shim.js:1 | Shifting up from the last cell overwrites nothing still to be moved. |
| EsSplice.SplicedCells | node/src/main/resources/swagger-ui/lib/es5-shim.js:1 | Moved tail and written items together are the splice of the cells. |
| EsSplice.SpliceUndone | node/src/main/resources/swagger-ui/lib/es5-shim.js:1 | Splicing the removed elements back restores the array if and only if no removed cell was a hole and they are put back as they were. |
| EsSplice.SplicesCommute | node/src/main/resources/swagger-ui/lib/es5-shim.js:1 | Two splices in separate ranges can be made in either order. |
| EsDates.MonthStep | node/src/main/resources/swagger-ui/lib/es5-shim.js:1 | The closed form grows by the length of the month, for every integer year. |
| EsDates.NextIsOneMore | node/src/main/resources/swagger-ui/lib/es5-shim.js:1 | The next calendar day has the next number, and the first of January 1970 has number 0. |
| EsDates.CountedForward | node/src/main/resources/swagger-ui/lib/es5-shim.js:1 | n days after a date, counted day by day, the number is n larger. |
| EsDates.NumberOrder | node/src/main/resources/swagger-ui/lib/es5-shim.js:1 | Day numbers are in calendar order and no two dates share one. |
| EsDates.YearEnds | node/src/main/resources/swagger-ui/lib/es5-shim.js:1 | Month 12 is the next year's month 0. |
| EsDates.ParseAccepts | node/src/main/resources/swagger-ui/lib/es5-shim.js:1 | Exactly the dates of the calendar with a time of day, 24:00 included, are accepted, with their instant, within the range of time values. |
| EsDates.EndOfDay | node/src/main/resources/swagger-ui/lib/es5-shim.js:1 | 24:00 parses as 00:00 of the next day. |
| BackboneCollection.Collection.Get | node/src/main/resources/swagger-ui/lib/backbone-min.js:1 | get by id, cid, model or attributes agrees with a linear search. |
| BackboneIndex.IndexIsSearch | node/src/main/resources/swagger-ui/lib/backbone-min.js:1 | While the index is kept, looking up a key is searching the list for it. |
| BackboneCollection.IdBeforeCid | node/src/main/resources/swagger-ui/lib/backbone-min.js:1 | A member is found by its id and by its cid, and where both are given the id decides. |
| BackboneCollection.Collection.Set | node/src/main/resources/swagger-ui/lib/backbone-min.js:1 | set keeps length, list and index in agreement for all options if and only if, with the default options, the list passed in does not lead to a model without an id twice; the new list is given exactly; it throws exactly when the loop does. |
| BackboneCollection.ListedTwice | node/src/main/resources/swagger-ui/lib/backbone-min.js:1 | The loop meets a model without an id twice exactly when two entries of the list are that model, are made into it or have its cid as an id, and it is a member or the first of them brings it in. |
| BackboneCollection.NewTwiceInstances | node/src/main/resources/swagger-ui/lib/backbone-min.js:1 | When no attributes have a cid as their id, that is: the same model object without an id in two places of the list. |
| BackboneCollection.Collection.Gather | node/src/main/resources/swagger-ui/lib/backbone-min.js:1 | The loop over the list keeps the index of members and additions, and with the default options gathers every model met, one with an id only where it comes first. |
| BackboneCollection.Collection.Add | node/src/main/resources/swagger-ui/lib/backbone-min.js:1 | add always keeps the agreement. |
| BackboneCollection.Collection.Remove | node/src/main/resources/swagger-ui/lib/backbone-min.js:1 | remove keeps the agreement and removes what each query finds in turn. |
| BackboneCollection.Collection.RemoveUnmet | node/src/main/resources/swagger-ui/lib/backbone-min.js:1 | set removes exactly the members the list has not met, while the index already holds the additions. |
| BackboneCollection.Collection.Reset | node/src/main/resources/swagger-ui/lib/backbone-min.js:1 | reset keeps the agreement whatever was there before. |
| BackboneCollection.Collection.ChangeId | node/src/main/resources/swagger-ui/lib/backbone-min.js:1 | A non-silent change of id moves the index entry and keeps the agreement. |
| BackboneCollection.OrderedList | node/src/main/resources/swagger-ui/lib/backbone-min.js:1 | With the default options the length counted by hand is that of the list if and only if no new model was met twice. |
| BackboneCollection.InListOrder | node/src/main/resources/swagger-ui/lib/backbone-min.js:1 | The loop over a list of different models with different ids gathers them in order, from any state. |
| BackboneCollection.SetInListOrder | node/src/main/resources/swagger-ui/lib/backbone-min.js:1 | After set with such a list and the default options the models of the collection are the list, whatever they were before, and the length is right. |
| BackboneCollection.AddInListOrder | node/src/main/resources/swagger-ui/lib/backbone-min.js:1 | add puts the models that are no members behind the old ones, or as one block at the place asked for, in the order of the list. |
| BackboneCollection.AddMakes | node/src/main/resources/swagger-ui/lib/backbone-min.js:1 | add of attributes without an id appends the models made of them. |
| BackboneCollection.BlockIff | node/src/main/resources/swagger-ui/lib/backbone-min.js:1 | Additions stay together, in every collection, if and only if the place asked for is not negative. |
| BackboneCollection.OneFromTheEnd | node/src/main/resources/swagger-ui/lib/backbone-min.js:1 | A single addition counts a negative place from the end. |
| BackboneCollection.ThrowsIff | node/src/main/resources/swagger-ui/lib/backbone-min.js:1 | set throws if and only if it may not add and the first entry is attributes that match no member. |
| BackboneCollection.NewModelTwice | node/src/main/resources/swagger-ui/lib/backbone-min.js:1 | A new model listed twice is put into the list twice and counted once. |
| MarkedParser.ParseFlatten | node/src/main/resources/swagger-ui/lib/marked.js:1 | Parsing the tokens of any nested blocks consumes them all and equals the direct rendering of the blocks, runs of text joined. |
| MarkedParser.BodyReads | node/src/main/resources/swagger-ui/lib/marked.js:1 | A block body ends at its own end token; nested end tokens are taken by their own loops. |
| MarkedParser.ParseFailsIff | node/src/main/resources/swagger-ui/lib/marked.js:1 | On every token list the parser fails if and only if some block is opened and not closed. |
| MarkedParser.LeafCalls | node/src/main/resources/swagger-ui/lib/marked.js:1 | The renderer call of each leaf, with the text through the inline lexer where it goes through it. |
| MarkedParser.TableCalls | node/src/main/resources/swagger-ui/lib/marked.js:1 | A table is the header row of header cells, then the other rows, each cell with the alignment of its column. |
| MarkedParser.TextsJoin | node/src/main/resources/swagger-ui/lib/marked.js:1 | Neighbouring text tokens are one paragraph, a line each. |
| MarkedParser.Parser.ParseAll | node/src/main/resources/swagger-ui/lib/marked.js:1 | The program, which reverses and pops the token array, computes the parse function and empties the array. |
| MarkedParser.Parser.TokHtml | node/src/main/resources/swagger-ui/lib/marked.js:1 | The switch over the current token computes one block. |
| MarkedParser.Parser.BodyHtml | node/src/main/resources/swagger-ui/lib/marked.js:1 | The while loops up to an end token compute a block body. |
| MarkedParser.Parser.ParseText | node/src/main/resources/swagger-ui/lib/marked.js:1 | The loop over following text tokens joins exactly the maximal run. |
| BlockFiles.Export | node/src/main/scala/com/wavesplatform/Exporter.scala:48-66 | The export writes the frames of heights 2 to the height and counts their bytes, and fails exactly for heights 2 to 9, where the progress test divides by 0. |
| BlockFiles.StartImport | node/src/main/scala/com/wavesplatform/Importer.scala:155-215 | The import loop over the stream leaves the chain, and ends by an exception, as the import function says, with 32-bit block counts. |
| BlockFiles.ImportExtends | node/src/main/scala/com/wavesplatform/Importer.scala:179-211 | On any file the chain only grows, each new block follows the then last one and was accepted, and at most the allowed number is added. |
| BlockFiles.ImportOfExport | node/src/main/scala/com/wavesplatform/Importer.scala:167-211 | For an exported file cut at any byte the import does not fail and leaves exactly the blocks of complete frames, up to one height past the one asked for, or the chain it had if that is longer. |
| BlockFiles.ExportThenImport | node/src/main/scala/com/wavesplatform/Exporter.scala:60-65 | With the whole file and a high enough limit the node ends with exactly the exported chain, wherever it had stopped. |
| BlockFiles.OneTooMany | node/src/main/scala/com/wavesplatform/Importer.scala:169 | The height asked for is overshot, by one block, if and only if the node is not past it and the file goes further. |
| BlockFiles.BytesOfInt | node/src/main/scala/com/wavesplatform/Importer.scala:182 | Reading the four length bytes undoes writing them. |
| LeaseQueue.Universe.Generate | node-generator/src/main/scala/com/wavesplatform/generator/NarrowTransactionGenerator.scala:50-344 | A batch is the fold over its choices from the shared queue, written back at its end. |
| LeaseQueue.RunAccounts | node-generator/src/main/scala/com/wavesplatform/generator/NarrowTransactionGenerator.scala:322-339 | Over any run of batches with fresh lease ids, the cancelled leases followed by the queue are the initial leases followed by the created ones, in order. |
| LeaseQueue.CancelledOnce | node-generator/src/main/scala/com/wavesplatform/generator/NarrowTransactionGenerator.scala:182-189 | Over any run of batches with fresh lease ids no lease is cancelled twice, and at every moment of the run each cancelled lease is an initial one or was created before. |
| LeaseQueue.CancelsOldest | node-generator/src/main/scala/com/wavesplatform/generator/NarrowTransactionGenerator.scala:182-189 | A cancel is made exactly when a lease is active, its sender known and the transaction built; it cancels the oldest lease and takes it from the queue. |
| LeaseQueue.LeasesQueueUp | node-generator/src/main/scala/com/wavesplatform/generator/NarrowTransactionGenerator.scala:328-339 | A lease made becomes the newest active one; what cannot be built changes nothing. |
| Wallet.RunKeeps | lang/shared/src/main/resources/wallet.ride:2-32 | Over any calls each entry is its caller's deposits less withdrawals, none is negative, and the sum of entries moves with the contract balance and stays covered. |
| Wallet.DepositIff | lang/shared/src/main/resources/wallet.ride:2-15 | A deposit is taken exactly for a payment in waves the recorded amount has room for, and adds to the caller's entry alone. |
| Wallet.DepositThenWithdraw | lang/shared/src/main/resources/wallet.ride:2-32 | What was paid in can be taken out at once, and the ledger is as before. |
| Wallet.AlwaysWithdrawable | lang/shared/src/main/resources/wallet.ride:17-32 | Exactly the amounts from 0 to the recorded one can be withdrawn after any run, for all 64-bit amounts. |

## Left out

- Regular expressions, the Handlebars lexer and parser tables, marked's block and inline lexers: they are parameters, or the model starts from the tree or the token list.
- Handlebars side modes: strict, assumeObjects, stringParams and trackIds take part in the stack claims, not in the meaning of the generated code.
- Handlebars text level: variable declarations, aliases, source maps, function headers and the sharing of equal child programs; generated code is a tree of JavaScript, and only string quoting is followed down to characters.
- Handlebars values: getters, conversion of objects to primitives, and `__proto__` keys; numbers and booleans are the only values that add instead of concatenating.
- Handlebars paths: a literal in the place of a path is taken as already turned into a path, and whether an identifier is scoped (`this.x`, `../x`) is a field of the path; decorators are compiled and balanced, not evaluated.
- HandlebarsMain.TemplateRenders: the other half of the text claim, that numbers which meet give another text, is for numbers written as numerals and booleans as words; numbers are integers.
- HandlebarsNesting.NestedRenders: nested programs are values to the program around them (`container.program` with its data, blockParams and depths arguments is one value); what a helper does with them is up to the host.
- HandlebarsPreservation.HelperComputes: the options object has no blockParams property, which the source adds once a block parameter has been looked up in the program or in one nested in it.
- highlight.js runs may not end, since a mode can start again and again without consuming its lexeme; the theorems are about every finished run, and the step bound carried along does not change what a run yields (HighlightFuel). The second-best language, tabReplace, useBR and all DOM updates are not modelled.
- HighlightSpans.LoopKeeps: is about the languages that the calls of a run lead to, each with illegal lexemes ignored or not; asks that an end never closes the language itself when the language has a `starts`; without one the program throws there and the model says so. Property names inherited from Object.prototype (a keyword or id such as `constructor`) are not modelled, here and in the backbone index.
- HighlightMarkup.MergedMarkup: asks that element and attribute names are as an HTML parser makes them, and that class names written by HighlightSpanMarkup need no escaping; lower case is that of the letters A to Z.
- HighlightNesting.MergedTrees: asks that the highlighted markup has no elements without a stop event, as the spans written by the highlighter are.
- es5-shim feature detection, native Date getters and the other polyfills; the text of numbers from 10^21 on is that of the native conversion, a parameter.
- EsToFixed.ToFixed: computes in exact numbers; that the limb calls lose nothing on doubles is DoublesSuffice. The scaling before them multiplies and divides by powers of two, which is exact on doubles that stay in range.
- EsSplice.SparseArray.Splice: elements are own properties; inherited ones are not looked at. The length of the array of removed elements ends at its last element, as in edition 5.
- EsDates.ParseAccepts: starts from the fields the regular expression captures, with the milliseconds as an integer; the conversion of local times is a parameter.
- backbone comparators and sorting, event handlers that change the collection while it is being changed, attributes other than the id, validation (the model made, or none, is part of the input). A model object is named by its cid.
- Block codec, signature checks and appending: an encoder with its inverse and an acceptance test are parameters; the JSON export, short reads before the end of a file and out-of-memory on a huge length are not modelled.
- LeaseQueue: which transaction a turn makes, and whether it can be built, is part of the input; two threads that generate at once are not modelled.
- Wallet: payments are not negative and are held by the contract, as the node sees to; keys stand for callers.
- Address, DistributedRandomGenerator, FirstDifferentBlock, Worker, fomo.ride, the application wiring, DOM and Ajax code: they would only add easy members or input and output.
