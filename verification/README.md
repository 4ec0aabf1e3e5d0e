# Parser core: early errors, lexing, and the encodings beneath them

A model, in Dafny, of the parts of this JavaScript engine that decide what source text means before any code is
generated: the lexer with its literals, the early-error analyzer, the text encodings both work on, the line index, and
two small coders that share their style of bit arithmetic (varints and the conversion to 16-bit floats).

## What is modelled, and how

**Early errors.** `Analysis.Analyzer` is the one mutable visitor: a label map, depth counters, five stacks and a few flags,
saved and emptied at every function and class. The reference has no state at all. A *place* is the chain of constructs
around a node (`Context`), every check is a search outwards along it, and `Sites` lists the checked nodes of a tree
with their places and says how the accepted tree is annotated. Each visit method proves that the visitor is in the
state of the place it is called at, visits exactly the listed nodes in order, and is in that state again when it
returns. `Analyze` then states the outcome of a run as an if-and-only-if. What the label map knows beyond the places,
after a duplicate label, is a function of the nodes visited so far (`LabelHistory`), which stand within the place of
their tree (`SitePlaces`). `JumpTargets` follows the label ids into the bytecode generator's lookup; `EvalContext`
compares a direct eval with its call site; `Divergences` holds concrete programs.

The listing itself is measured against the syntax. `Occurrences` says by single steps, from a node to its parts, which
nodes occur in a tree and where. `Coverage` proves that the visited nodes are exactly the checks of the nodes that occur,
`VisitOrder` that parts are visited in the order of the source. `EarlyErrors` lists what can be wrong with each kind of
node, and an analysis lists exactly these errors of the nodes that occur (`Analyze.Judges`, `Verdicts`). `Searches` says
what the searches along a chain answer in terms of the places around. For accepted trees, `BareTrees` proves that nothing
but annotations is changed, and `Annotations` and `AssignFlags` what each annotation says.

**Lexing.** `Lexer.Lexer` keeps a position and the byte there. Numbers are described by the runs of digits in them
(`Numbers`, `NumberLaws`), with bases and digits spelled out in `NumberBases`, string and template literals by a
position-by-position reading in which text outside escapes stands for its own bytes (`TextLiterals`, `TemplateLaws`,
`LiteralEnds`), with every escape spelled out in `EscapeLaws`, names by their characters and escapes (`Identifiers`),
and what may stand between tokens by `Trivia`; `TokenStarts` says which characters start which tokens. `Lexemes` puts these together into the token,
error or panic at a position and the outcome of lexing a whole source. A run has three outcomes: a result, an error,
or a panic. Panics are real: decoding a character at the end of input is one, and so is encoding what is no code
point. What the methods return is determined on all byte sequences. That the slicing and the rebuilding path of a
literal both read the reference, and when literals fail, is proved for *canonical* sources, those that are the
encoding of some code points, lone surrogates included.

**Encodings.** `Wtf8` and `Utf16` hold generalized UTF-8 (the layout of section 3 of RFC 3629, surrogates allowed) and
UTF-16 over arbitrary code units. For UTF-16 the reference says which positions start a code point without reading from
either end; the forward stream, the backward stepping and the iterator all agree with it. `WellFormed` relates the
check for unpaired surrogates, which runs on code points, to code units.

**Arithmetic.** `Rounding` states rounding to nearest with ties to even (section 4.3.1 of IEEE 754-2019) over exact
integer magnitudes; `Float16` proves the conversion correct on every bit pattern. `LineIndex` and `Varint` cover the
line index with its binary search and the varint coder.

Shifts and masks are written as arithmetic on integers with explicit widths. Methods that change state say so with
`modifies`; a ghost field records the visited nodes.

## Where code and expectation differ

- After a duplicate label the analyzer can miss an error. The label map keeps the entry of the outermost declaration of a
  name, and every declaration on a loop or switch marks that entry as a continue target. A `continue` is overlooked, that
  is, its LabelNotFound is not reported, if and only if its innermost declaration is on no loop or switch while the name
  was marked since its outermost declaration, by that declaration itself or by a duplicate
  (`LabelHistory.OverlookedMeaning`). In `L: { L: while(x); while(y) continue L; }` and in
  `L: while(x) L: { continue L; }` only the duplicate is reported (`Divergences.OverlookedContinue`,
  `Divergences.OverlookedInLoop`). Rejection is not affected; the error list equals the errors of the places if and only
  if no continue is overlooked (`Analyze.RecordsMeaning`, `LabelHistory.ExactReport`). `Labels.MarkedPopRestores` says
  when the map is restored, and `Labels.MarkedPopChanges` gives a map that is not.
- The analyzer accepts `continue` to a label on a switch inside a loop (`src/js/parser/analyze.rs:1509-1517`). The
  generator has no block to continue at for such a target (`src/js/runtime/bytecode/generator.rs:9073`, `9091-9096`).
  `Divergences.AcceptedContinueToSwitch` gives an accepted program, `JumpTargets.ContinueReachesLoop` the exact
  condition.
- Label ids are 16 bits. A labelled jump finds its statement exactly when fewer than 65536 labelled statements lie
  between (`JumpTargets.LabeledJumpFindsDeclaration`); `Divergences.DeepBreakMisses` gives an accepted program with a
  break that does not.
- In code of a direct eval directly within a static initializer `arguments` is allowed although it is not at the place
  of the call (`EvalContext.EvalAgrees`, `EvalContext.ArgumentsInEvaluatedInitializer`). Super members there refer to
  the home object of instances, at the place of the call to that of the class, since the parser does not flag static
  initializers as static (`src/js/parser/parser.rs:3907-3911`) and the recorded flags carry nothing else
  (`EvalContext.HomeInEvaluatedInitializer`).
- Code points survive UTF-16 exactly when no high surrogate stands directly before a low one (`Utf16.DecodesBack`,
  `Utf16.SplitPairMerges`).
- On a canonical source lexing panics in exactly three cases (`LiteralEnds.TokenPanics`): a hash at the end of input, a
  template part all of whose terminators are escaped, and a string with a lone backslash at the end of input. A hash
  before an ASCII character that starts no name is reported as invalid Unicode instead of as a hash without a name
  (`Identifiers.HashAlone`).
- Three punctuators are printed in error messages with the text of another token: `!` as `~`, `~` as a comma and `+=` as
  the letter a (`src/js/parser/token.rs:203-204`, `214`). Lexing the printed text gives a punctuator back if and only if
  it is none of the three (`TokenTexts.PrintedText`).
- String and template literals are sliced from the source up to the first escape and encoded again from there on. The
  two agree on a character exactly if it is in range and not overlong (`LiteralEnds.PathsAgree`); bytes that decode past
  the last code point are copied before an escape and a panic after one (`LiteralEnds.PathsDiffer`).

## Model

| member | source | states |
|---|---|---|
| `Analyze.AnalyzeProgram` | src/js/parser/analyze.rs:1686-1700 | accepts a program exactly when no node that occurs in it is wrong at its place, and lists the errors of the nodes that occur; the accepted tree carries exactly the annotations that the places determine; otherwise the errors are those of all places in the order of the visits, without LabelNotFound at a continue whose innermost declaration is on no loop or switch while its name was marked since the outermost declaration; so they are exactly those of the places if and only if no such continue exists, which holds whenever no label is declared twice |
| `Analyze.AnalyzeForEval` | src/js/parser/analyze.rs:1702-1756 | the same for code of a direct eval, whose outermost place is rebuilt from what the caller recorded |
| `Analyze.AnalyzeFunctionConstructor` | src/js/parser/analyze.rs:1758-1774 | the same for a single function |
| `Analyze.Run` | src/js/parser/analyze.rs:1686-1774 | one analysis, from whatever start, decides and annotates as the places do |
| `Analyze.RunIsCorrect` | src/js/parser/analyze.rs:1686-1700 | an error list that records the visited nodes gives the outcome that the places prescribe: acceptance exactly when all are free of errors, and otherwise the reported list with its exact condition |
| `Analyze.RecordsMeaning` | src/js/parser/analyze.rs:184-187 | the recorded errors equal those of the places exactly when no labelled continue is overlooked; a duplicate label is recorded exactly when some place has one, and without one nothing is overlooked |
| `Occurrences.OccursTransitively` | src/js/parser/ast_visitor.rs:12-35 | what occurs in an occurring node occurs: occurrence is described by single steps from a node to its parts, with no reference to the traversal |
| `Coverage.ProgramCovered` | src/js/parser/ast_visitor.rs:5-11 | the visited nodes of a program are exactly the checks of the nodes that occur in it |
| `Coverage.StmtCovered` | src/js/parser/ast_visitor.rs:12-35 | the same for every statement at every place |
| `Coverage.ExprCovered` | src/js/parser/ast_visitor.rs:36-80 | the same for every expression |
| `Coverage.RestCovered` | src/js/parser/analyze.rs:1487-1526 | the same for a group of labels, one label after the other |
| `Coverage.FuncCovered` | src/js/parser/analyze.rs:1038-1073 | the same for a function: its name, its parameters in a parameter list, its body inside |
| `Coverage.ClassCovered` | src/js/parser/analyze.rs:852-936 | the same for a class: heritage, private names and members |
| `EarlyErrors.NodeFinds` | src/js/parser/analyze.rs:459-850 | the checks of a node find exactly the errors that are listed for its kind and its place |
| `EarlyErrors.TreeFinds` | src/js/parser/analyze.rs:459-936 | an error is among those of the visited places exactly when a node that occurs in the tree is wrong in that way |
| `Analyze.ErrorsAreListed` | src/js/parser/analyze.rs:1686-1700 | the recorded list holds exactly the errors of the nodes that occur; only a labelled continue can be missing, and only beside a duplicate label |
| `Analyze.OthersAreReported` | src/js/parser/analyze.rs:184-187 | an overlooked continue hides no error of another kind |
| `Verdicts.WrongIsRejected` | src/js/parser/analyze.rs:1686-1700 | a program in which a wrong node occurs is rejected, and its error listed |
| `Verdicts.ListedIsWrong` | src/js/parser/analyze.rs:1686-1700 | every listed error is that of a node that occurs |
| `Verdicts.StatementsAreJudged` | src/js/parser/analyze.rs:493-560 | with in strict code, a return outside functions, breaks and continues without a target are rejected with their errors, wherever they occur |
| `Verdicts.ExpressionsAreJudged` | src/js/parser/analyze.rs:560-850 | the same for super members, new.target, await, yield, delete and uses of private names |
| `Verdicts.MethodMeaning` | src/js/parser/analyze.rs:1351-1398 | in the body of a class member, arrow functions included, a super call is right exactly in the constructor of a class with a heritage, super members have a static home exactly in static methods and static initializers, and a return is right exactly outside static initializers |
| `Verdicts.SuperCallIsJudged` | src/js/parser/analyze.rs:757-770 | a super call in any other member rejects the program |
| `Searches.StrictMeaning` | src/js/parser/analyze.rs:205-215 | strict code is that within a strict program, a strict function or a class |
| `Searches.BreakableMeaning` | src/js/parser/analyze.rs:189-204 | a place is breakable when a loop or switch of the same function is around it, and iterable when a loop is |
| `Searches.LabelMeaning` | src/js/parser/analyze.rs:1580-1592 | a label is found exactly when a labelled statement of the same function around the place has it |
| `Searches.ParametersMeaning` | src/js/parser/analyze.rs:820-850 | a place is in parameters when a parameter list is around it with no function between |
| `Searches.ReturnMeaning` | src/js/parser/analyze.rs:459-475 | a return belongs to the innermost function, which must not be a static initializer |
| `Searches.FunctionMeaning` | src/js/parser/analyze.rs:216-246 | the innermost function of a place is the one around it, a field initializer, or the caller of an eval |
| `Searches.NonArrowMeaning` | src/js/parser/analyze.rs:216-246 | the same, seen through arrow functions |
| `Searches.HomeMeaning` | src/js/parser/analyze.rs:739-755 | the home object of a place is that of the method or field initializer around it, seen through arrow functions |
| `Searches.ArgumentsMeaning` | src/js/parser/analyze.rs:1047-1073 | arguments is forbidden exactly in field and static initializers, arrow functions in them included |
| `Searches.PrivateMeaning` | src/js/parser/analyze.rs:1594-1619 | a private name is usable exactly within the body of a class that declares it, or in an eval that such a class calls |
| `VisitOrder.PartsInOrder` | src/js/parser/ast_visitor.rs:5-400 | of two parts of a node the one that comes first in the source is visited first, with all that occurs in it |
| `VisitOrder.PartErrorsInOrder` | src/js/parser/analyze.rs:1686-1700 | so its errors come first |
| `Verdicts.AcceptedProgram` | src/js/parser/analyze.rs:1686-1700 | an accepted program is the analyzed one but for its annotations, and every node in it carries what its place determines |
| `BareTrees.ProgramKept` | src/js/parser/ast_visitor.rs:5-11 | without label ids, flags, contexts, staticness and pair marks the annotated program equals the original |
| `Annotations.ProgramCarries` | src/js/parser/analyze.rs:385-850 | every node of the annotated program carries what its place in it determines |
| `AssignFlags.HasAssignMeaning` | src/js/parser/analyze.rs:385-390 | the flag of an expression tells whether an assignment occurs in it at the same place, that is, outside of nested functions and classes |
| `AssignFlags.StatementHasAssignMeaning` | src/js/parser/analyze.rs:392-403 | the flag of an expression statement tells whether an assignment occurs in a part of it |
| `AssignFlags.AssignmentStatement` | src/js/parser/analyze.rs:392-403 | a statement `a = b` has the flag exactly if one of its sides has an assignment |
| `LabelHistory.ExactReport` | src/js/parser/analyze.rs:184-187 | the report is never longer than the errors of the places and equals them exactly when no continue is overlooked |
| `LabelHistory.EmittedMeaning` | src/js/parser/analyze.rs:1580-1592 | an overlooked continue lacks LabelNotFound and nothing else; every other node reports exactly the errors of its place |
| `LabelHistory.OverlookedMeaning` | src/js/parser/analyze.rs:1580-1592 | a continue is overlooked exactly when its innermost declaration is on no loop or switch and the name was marked since its outermost declaration |
| `LabelHistory.TargetIsMarked` | src/js/parser/analyze.rs:1509-1526 | every label on an enclosing loop or switch of the same function is taken for a continue target, whatever was visited before |
| `LabelHistory.HomeAnswer` | src/js/parser/analyze.rs:1498-1507 | a name has an outermost declaration in a function exactly when some enclosing statement of the function declares it |
| `LabelHistory.MarksInFront` | src/js/parser/analyze.rs:248-264 | nothing visited inside a function or class marks a label declared outside of it |
| `LabelHistory.FlagsPopped` | src/js/parser/analyze.rs:1528-1537 | popping a group leaves the flags that the visited nodes account for |
| `SitePlaces.StmtPlaces` | src/js/parser/ast_visitor.rs:12-35 | every checked node of a statement stands within the place of the statement |
| `SitePlaces.ClassPartPlaces` | src/js/parser/analyze.rs:852-936 | every checked node of a heritage or class body stands behind the boundary of the class |
| `Divergences.OverlookedContinue` | src/js/parser/analyze.rs:1509-1526 | a concrete program whose places have a duplicate label and an undeclared continue target, of which only the first is reported |
| `Divergences.OverlookedInLoop` | src/js/parser/analyze.rs:1509-1526 | the same where the outer loop marks its own label and the duplicate is a block inside of it |
| `Divergences.AcceptedContinueToSwitch` | src/js/parser/analyze.rs:1509-1517 | a concrete program, accepted, whose continue ends at the target of a switch |
| `Divergences.DeepBreakMisses` | src/js/runtime/bytecode/generator.rs:9126-9139 | a program, accepted, whose break out of 65536 further labelled statements does not reach its statement |
| `Context.ErrorFree` | src/js/parser/analyze.rs:1686-1700 | no errors in all exactly when each visited place has none |
| `AnalyzerState.Answers` | src/js/parser/analyze.rs:172-246 | at every place each counter and stack answers as a search outwards along the enclosing constructs does: strict mode, breakable, iterable, arguments, functions, return, parameters, super |
| `AnalyzerState.StateDecides` | src/js/parser/analyze.rs:459-850 | every check on the counters and stacks gives the errors that the place prescribes |
| `AnalyzerState.SuperStackIsProjection` | src/js/parser/analyze.rs:1047-1073 | in ordinary code the super stack has one entry for each non-arrow function on the function stack, allowing super exactly for methods |
| `AnalyzerState.SuperAllowedMeaning` | src/js/parser/analyze.rs:739-755 | a super member is accepted exactly when the nearest non-arrow function or field initializer is a method |
| `AnalyzerState.LabelAnswer` | src/js/parser/analyze.rs:1580-1592 | the label map has a name exactly when an enclosing statement of the same function declares it, with that statement's id and target flag |
| `AnalyzerState.PrivateAnswer` | src/js/parser/analyze.rs:1594-1619 | searching the class stack finds a name exactly when an enclosing class body, or a class of the caller of an eval, declares it |
| `AnalyzerState.BreakableAnswer` | src/js/parser/analyze.rs:189-215 | the two depths are positive exactly inside a switch or loop, or inside a loop, of the same function or class |
| `AnalyzerState.FunctionState` | src/js/parser/analyze.rs:1038-1073 | entering a function turns the state of the place around it into that of the place inside |
| `AnalyzerState.ClassBodyState` | src/js/parser/analyze.rs:852-874 | entering a class body turns the state of the place around it into that of the place inside |
| `AnalyzerState.HeritageState` | src/js/parser/analyze.rs:860-874 | the heritage expression sees only outer classes and no outer labels |
| `AnalyzerState.FieldInitState` | src/js/parser/analyze.rs:1400-1461 | a field initializer is entered as a method without arguments |
| `AnalyzerState.LabelSetState` | src/js/parser/analyze.rs:1487-1526 | a group of labels extends the map by one shared id |
| `Labels.PopUndoesPush` | src/js/parser/analyze.rs:1528-1537 | popping a group leaves the names that were there before it, and the whole map if none of its labels was a duplicate |
| `Labels.MarkedPopRestores` | src/js/parser/analyze.rs:1505-1537 | after a duplicate label on a loop or switch the map is restored exactly when the outer label was a continue target already |
| `Labels.MarkedPopChanges` | src/js/parser/analyze.rs:1505-1537 | a concrete map that is not restored |
| `Labels.FreshMeaning` | src/js/parser/analyze.rs:1528-1537 | the popped names are those of the group that were not declared outside it |
| `Labels.MarkContinueTargets` | src/js/parser/analyze.rs:1505-1523 | every label of the group, and nothing else, becomes a continue target |
| `Analysis.Analyzer.VisitLabelDef` | src/js/parser/analyze.rs:1539-1560 | declares one label unless it is there already, and reports the duplicate and the labelled function |
| `Analysis.Analyzer.PushAllLabels` | src/js/parser/analyze.rs:1487-1526 | visits the labels of a group in order and enters the place below them, with the id of that place |
| `Analysis.Analyzer.PopAllLabels` | src/js/parser/analyze.rs:1528-1537 | removes exactly the labels that the group added |
| `Analysis.Analyzer.VisitLabeled` | src/js/parser/analyze.rs:435-441 | visits a labelled statement from the place below its labels and returns to the place around it |
| `Analysis.Analyzer.VisitLabelUse` | src/js/parser/analyze.rs:1580-1592 | reports a break exactly when no enclosing statement declares its label, and a continue exactly when the outermost declaration was not marked since; the id is that of the outermost declaration, which is the innermost one unless a label is declared twice |
| `Analysis.Analyzer.VisitBreak` | src/js/parser/analyze.rs:477-483 | reports exactly what the place of the break prescribes and writes the id of the declaring statement |
| `Analysis.Analyzer.VisitContinue` | src/js/parser/analyze.rs:485-491 | reports what the place of the continue and the marks made so far prescribe, and writes the id of the declaring statement |
| `Analysis.Analyzer.CheckForLabeledFunction` | src/js/parser/analyze.rs:1564-1578 | reports a labelled function as the body of another statement exactly outside strict mode |
| `JumpTargets.LabeledJumpFindsDeclaration` | src/js/runtime/bytecode/generator.rs:9126-9139 | the generator's lookup by label id ends at the statement that declares the label exactly when fewer than 65536 labelled statements lie between |
| `JumpTargets.UnlabeledJumpFindsNearest` | src/js/runtime/bytecode/generator.rs:9140-9163 | an accepted jump without a label ends at the innermost loop, or for a break at the innermost loop or switch |
| `JumpTargets.ContinueReachesLoop` | src/js/runtime/bytecode/generator.rs:9029-9084 | an accepted continue ends at a loop exactly when its label is not on a switch |
| `JumpTargets.ContinueToSwitch` | src/js/parser/analyze.rs:1509-1517 | the place of a continue to a labelled switch inside a loop: no error, and a target without a block to continue at |
| `JumpTargets.AcceptedJumpResolves` | src/js/runtime/bytecode/generator.rs:9126-9163 | every accepted jump, less than 65536 labels deep, finds its target |
| `PrivateNames.CollectClassPrivateNames` | src/js/parser/analyze.rs:1221-1349 | the single pass and the marking pass give the recorded usages, the errors in order, and a mark on the first accessor of each pair |
| `PrivateNames.Declare` | src/js/parser/analyze.rs:1228-1326 | one declaration: the new usage, its errors, and whether it completed a pair |
| `PrivateNames.MarkPairStarts` | src/js/parser/analyze.rs:1327-1349 | marks exactly the first accessor of each name that has both |
| `PrivateNames.DuplicatesReported` | src/js/parser/analyze.rs:1221-1349 | no duplicate is reported exactly when every two declarations of a name are a getter and a setter of equal staticness |
| `PrivateNames.DuplicateNames` | src/js/parser/analyze.rs:1221-1310 | a duplicate error names exactly the names with two declarations that are not a getter and a setter of the same staticness |
| `PrivateNames.ConstructorErrors` | src/js/parser/analyze.rs:1313-1317 | there are as many errors for #constructor as declarations of it |
| `PrivateNames.OtherErrors` | src/js/parser/analyze.rs:1221-1320 | all other errors of the pass are duplicates |
| `PrivateNames.PrivateErrorsMeaning` | src/js/parser/analyze.rs:1221-1320 | the errors of a class body: #constructor where it is declared, and the duplicate names |
| `PrivateNames.ClashMeaning` | src/js/parser/analyze.rs:1228-1326 | a declaration clashes with the recorded usage exactly when it is not the counterpart of some earlier declaration |
| `PrivateNames.UsagesMeaning` | src/js/parser/analyze.rs:1228-1326 | the recorded usage of a name is explained by its first declaration and the accessors after it |
| `PrivateNames.PairStartMeaning` | src/js/parser/analyze.rs:1327-1349 | in an accepted class the marked elements are exactly the accessors whose partner comes later |
| `Analysis.Analyzer.VisitPrivateNameUse` | src/js/parser/analyze.rs:1594-1619 | a use is reported exactly outside all classes or when no class around it declares the name |
| `Analysis.Analyzer.constructor` | src/js/parser/analyze.rs:144-170 | a new analyzer is in the state of its start |
| `Analysis.Analyzer.EnclosingNonArrowFunction` | src/js/parser/analyze.rs:231-236 | the last entry of the function stack that is not an arrow function |
| `Analysis.Analyzer.SaveState` | src/js/parser/analyze.rs:248-264 | empties labels and depths and returns what they were |
| `Analysis.Analyzer.RestoreState` | src/js/parser/analyze.rs:267-274 | puts back what was saved |
| `Analysis.Analyzer.EnterFunction` | src/js/parser/analyze.rs:1038-1073 | the state inside a function, and what to put back |
| `Analysis.Analyzer.ExitFunction` | src/js/parser/analyze.rs:1190-1219 | the state before the function was entered |
| `Analysis.Analyzer.VisitFunctionCommon` | src/js/parser/analyze.rs:1038-1219 | visits a function from the place inside it and returns to the place around it |
| `Analysis.Analyzer.VisitClass` | src/js/parser/analyze.rs:852-942 | visits a class, heritage before body, and returns to the place around it |
| `Analysis.Analyzer.VisitClassBody` | src/js/parser/analyze.rs:870-936 | visits the elements with the class in scope and marks its accessor pairs |
| `Analysis.Analyzer.VisitMethod` | src/js/parser/analyze.rs:1351-1398 | visits a method with the function info that its kind and its class determine |
| `Analysis.Analyzer.VisitInitializer` | src/js/parser/analyze.rs:1400-1461 | visits a field initializer as a method of its own and restores what it changed |
| `Analysis.Analyzer.IncBreakableDepth` | src/js/parser/analyze.rs:189-191 | the state inside a switch |
| `Analysis.Analyzer.DecBreakableDepth` | src/js/parser/analyze.rs:193-195 | the state around it again |
| `Analysis.Analyzer.IncIterableDepth` | src/js/parser/analyze.rs:197-201 | the state inside a loop, which is also breakable |
| `Analysis.Analyzer.DecIterableDepth` | src/js/parser/analyze.rs:203-207 | the state around it again |
| `Analysis.Analyzer.EnterHeritage` | src/js/parser/analyze.rs:860-869 | the state in the heritage expression of a class, and what to put back |
| `Analysis.Analyzer.CheckPrivateNames` | src/js/parser/analyze.rs:870-874 | reports the errors of the private names of a class and returns their usages and pair marks |
| `Analysis.Analyzer.VisitOuter` | src/js/parser/analyze.rs:385-390 | the flag says whether an assignment occurs outside nested functions and classes |
| `Analysis.Analyzer.VisitExpressionStatement` | src/js/parser/analyze.rs:392-403 | the same, not counting an assignment that is the whole statement |
| `Analysis.Analyzer.VisitAssignment` | src/js/parser/analyze.rs:627-632 | visits both sides and raises the flag |
| `Analysis.Analyzer.VisitPattern` | src/js/parser/analyze.rs:355-370 | the flag of a pattern says whether it holds an assignment |
| `Analysis.Analyzer.VisitCall` | src/js/parser/analyze.rs:792-815 | a direct eval gets the record of the nearest non-arrow function |
| `Analysis.Analyzer.VisitExpression` | src/js/parser/ast_visitor.rs:37-86 | visits exactly the checked nodes of an expression, in order, and annotates it as its place determines |
| `Analysis.Analyzer.VisitStatement` | src/js/parser/ast_visitor.rs:12-35 | visits exactly the checked nodes of a statement, in order, annotates it, and leaves the state as it was |
| `Analysis.Analyzer.VisitSwitch` | src/js/parser/analyze.rs:405-429 | discriminant and cases are visited from inside the switch |
| `Analysis.Analyzer.VisitLoop` | src/js/parser/analyze.rs:523-573 | the body of each kind of loop is visited from inside the loop, its header in the order of its kind |
| `Analysis.Analyzer.VisitIf` | src/js/parser/analyze.rs:514-521 | checks both branches for labelled functions |
| `Analysis.Analyzer.VisitWith` | src/js/parser/analyze.rs:493-512 | reports a with statement exactly in strict mode |
| `Analysis.Analyzer.VisitCatch` | src/js/parser/analyze.rs:575-597 | visits the parameter with a flag of its own, then the body |
| `Analysis.Analyzer.VisitProgram` | src/js/parser/analyze.rs:328-345 | visits exactly the checked nodes of a program |
| `Analysis.Analyzer.CheckSuperMember` | src/js/parser/analyze.rs:739-755 | reports a super member exactly where no home object exists and returns the staticness of the home object |
| `Analysis.Analyzer.CheckSuperCall` | src/js/parser/analyze.rs:757-770 | reports a super call exactly outside derived constructors |
| `Analysis.Analyzer.CheckNewTarget` | src/js/parser/analyze.rs:699-712 | reports new.target exactly outside non-arrow functions |
| `Analysis.Analyzer.CheckAwait` | src/js/parser/analyze.rs:714-729 | reports await in parameters and static initializers and notes a top-level one |
| `Analysis.Analyzer.CheckYield` | src/js/parser/analyze.rs:731-737 | reports yield in parameters |
| `Analysis.Analyzer.CheckReturn` | src/js/parser/analyze.rs:459-475 | reports a return exactly where no function allows it |
| `Analysis.Analyzer.CheckDelete` | src/js/parser/analyze.rs:772-786 | reports deletion of a name or private member exactly in strict mode |
| `Analysis.Analyzer.CheckIdentifier` | src/js/parser/analyze.rs:817-825 | reports arguments exactly where initializers forbid it |
| `Analysis.Analyzer.CheckBinding` | src/js/parser/analyze.rs:827-841 | reports arguments in initializers and eval or arguments as a target in strict mode |
| `Analysis.Analyzer.CheckParameterList` | src/js/parser/analyze.rs:1142-1165 | reports the use-strict and duplicate-parameter errors that the kind of function asks for |
| `Analysis.Analyzer.VisitUnary` | src/js/parser/analyze.rs:605-625 | the operators with a check of their own visit their operand after it |
| `Analysis.Analyzer.DefaultVisitAssignment` | src/js/parser/ast_visitor.rs:707-713 | visits both sides, left first |
| `Analysis.Analyzer.VisitExpressions` | src/js/parser/ast_visitor.rs:411-417 | visits the expressions of a list in order, all from the same place |
| `Analysis.Analyzer.VisitOptional` | src/js/parser/ast_visitor.rs:420-426 | visits what is there |
| `Analysis.Analyzer.VisitParameters` | src/js/parser/analyze.rs:1103-1111 | visits the parameters from inside the parameter list, and leaves it |
| `Analysis.Analyzer.VisitParamList` | src/js/parser/analyze.rs:1103-1111 | visits the parameters in order |
| `Analysis.Analyzer.VisitParam` | src/js/parser/analyze.rs:355-370 | visits one parameter with a flag of its own |
| `Analysis.Analyzer.VisitBody` | src/js/parser/analyze.rs:372-383 | visits a block or expression body from inside the function |
| `Analysis.Analyzer.VisitFunctionParts` | src/js/parser/analyze.rs:1083-1175 | checks the name, visits the parameters, checks their list, visits the body, in that order |
| `Analysis.Analyzer.VisitClassParts` | src/js/parser/analyze.rs:852-936 | visits heritage and body and keeps the flag of the expression around the class |
| `Analysis.Analyzer.VisitElements` | src/js/parser/analyze.rs:886-922 | visits the elements of a class in order |
| `Analysis.Analyzer.VisitElement` | src/js/parser/analyze.rs:886-922 | visits a method or a field, its key first |
| `Analysis.Analyzer.VisitKey` | src/js/parser/analyze.rs:1351-1420 | visits a computed key from outside the method or initializer |
| `Analysis.Analyzer.VisitTry` | src/js/parser/ast_visitor.rs:639-646 | visits block, handler and finalizer in order |
| `Analysis.Analyzer.VisitStatements` | src/js/parser/ast_visitor.rs:411-417 | visits the statements of a list in order and leaves the state as it was after each |
| `Analysis.Analyzer.VisitDeclarators` | src/js/parser/analyze.rs:1463-1482 | visits the declarators in order |
| `Analysis.Analyzer.VisitDeclarator` | src/js/parser/analyze.rs:843-850 | visits name and initializer, each with a flag of its own |
| `Analysis.Analyzer.VisitHeads` | src/js/parser/analyze.rs:523-573 | visits the parts of a loop header in order |
| `Analysis.Analyzer.VisitHead` | src/js/parser/analyze.rs:541-573 | visits one part of a loop header |
| `Analysis.Analyzer.VisitCases` | src/js/parser/analyze.rs:405-429 | visits the cases of a switch in order |
| `Analysis.Analyzer.VisitCase` | src/js/parser/ast_visitor.rs:571-577 | visits test and body of a case |
| `Analysis.Analyzer.Report` | src/js/parser/analyze.rs:184-187 | adds the errors of one node to the list and records the node |
| `Analysis.Analyzer.Check` | src/js/parser/analyze.rs:184-187 | reports what the state says about a node, which is what its place says |
| `Analysis.Analyzer.CheckName` | src/js/parser/analyze.rs:276-286 | reports eval and arguments as a declared name exactly in strict mode |
| `Analysis.Analyzer.ErrorIfStrictEvalOrArguments` | src/js/parser/analyze.rs:276-286 | the error for such a name |
| `Analysis.Analyzer.CheckWith` | src/js/parser/analyze.rs:493-512 | reports with exactly in strict mode |
| `Analysis.Analyzer.DeclareAll` | src/js/parser/analyze.rs:1498-1507 | declares the labels of directly nested labelled statements, one after the other, with one id |
| `EvalContext.EvalAgrees` | src/js/parser/analyze.rs:792-815 | code of a direct eval, analyzed from the flags that its call records, allows super and new.target exactly as the place of the call does; its home object is the same exactly unless a static initializer without the static flag is the nearest function, and arguments is allowed alike exactly unless it is a static initializer |
| `EvalContext.StartRecordsCaller` | src/js/runtime/bytecode/generator.rs:3544-3572 | the start of the analysis is the record of the nearest non-arrow function around the call |
| `EvalContext.HomeMeaning` | src/js/parser/analyze.rs:1062-1073 | the home object of an ordinary place is static exactly if its nearest non-arrow function is a static method or a static initializer |
| `EvalContext.HomeInEvaluatedInitializer` | src/js/parser/analyze.rs:1723-1732 | the same call, whose super members refer to the class at the place and to instances in the code |
| `EvalContext.ArgumentsInEvaluatedInitializer` | src/js/parser/analyze.rs:792-815 | a concrete call, directly in a static initializer, whose code may use arguments although the place of the call may not |
| `Float16.F64ToF16` | src/js/common/math.rs:43-71 | on every 64-bit pattern: NaN stays NaN, the sign is kept, infinity stays, and any other value becomes the nearest 16-bit float, ties to even, or infinity from the overflow threshold on |
| `Float16.NormalRounds` | src/js/common/math.rs:22-71 | adding the magic constant and the odd bit rounds the normal range correctly, carries into the exponent included |
| `Float16.SmallSum` | src/js/common/math.rs:22-71 | the magic addition leaves the correctly rounded subnormal pattern in the low bits of the sum |
| `Float16.LargeRounds` | src/js/common/math.rs:22-71 | from the infinity threshold on every value rounds to infinity |
| `Rounding.NearestEvenUnique` | src/js/common/math.rs:22-71 | at most one pattern is the nearest one with ties to even |
| `Rounding.RoundBetween` | src/js/common/math.rs:22-71 | rounding between neighbours by the distance to the lower one is rounding to nearest, ties to even |
| `Rounding.NextPattern` | src/js/common/math.rs:22-71 | consecutive patterns are consecutive values, across exponents too |
| `Unicode.ToPair` | src/js/common/unicode.rs:69-80 | the pair of a supplementary code point joins to it again |
| `Unicode.PairRoundTrip` | src/js/common/unicode.rs:82-90 | a surrogate pair splits into itself again |
| `Wtf8.EncodeCodePoint` | src/js/common/unicode.rs:337-359 | writes the encoding at the front of the buffer and leaves the rest |
| `Wtf8.StepInvertsEncode` | src/js/common/unicode.rs:381-429 | decoding an encoded code point, surrogates included, gives it back whatever follows |
| `Wtf8.DecodedIsCanonical` | src/js/common/unicode.rs:381-429 | what decodes encodes to the same bytes exactly when it is in range and not overlong |
| `Wtf8.CanonicalMeaning` | src/js/common/unicode.rs:337-429 | a string is the encoding of some code points exactly when no step of reading it fails, is overlong or is out of range |
| `Wtf8.RoundTrip` | src/js/common/wtf_8.rs:117-188 | reading encoded code points gives them back |
| `Wtf8.ReadsConcatenation` | src/js/common/wtf_8.rs:134-141 | reading distributes over concatenation |
| `Wtf8.CanonicalConcat` | src/js/common/wtf_8.rs:134-141 | joining two strings that read back gives one that does |
| `Wtf8.Wtf8String.Push` | src/js/common/wtf_8.rs:117-121 | appends the encoding of a code point |
| `Wtf8.Wtf8String.PushBytes` | src/js/common/wtf_8.rs:139-141 | appends bytes |
| `Wtf8.CodePointsIterator.Next` | src/js/common/wtf_8.rs:168-188 | reads one code point and shrinks the string by its bytes |
| `Wtf8.ReadAll` | src/js/common/wtf_8.rs:152-188 | iterating to the end reads all code points |
| `Wtf8.PushAndRead` | src/js/common/wtf_8.rs:117-188 | pushing any code points and iterating returns them |
| `WellFormed.IsWellFormed` | src/js/common/wtf_8.rs:309-335 | true exactly when encoding all code points in UTF-16 leaves no unpaired surrogate |
| `WellFormed.LoneBreaks` | src/js/common/wtf_8.rs:309-335 | a surrogate that starts no pair after a well-formed prefix is unpaired whatever follows |
| `Utf16.CodePointStream.CodePointAt` | src/js/parser/lexer_stream.rs:613-626 | the code point at a position and its length |
| `Utf16.CodePointStream.CodePointBefore` | src/js/parser/lexer_stream.rs:628-642 | the code point that ends at a boundary starts at a boundary; inside a surrogate pair it is the high surrogate alone |
| `Utf16.CodePointStream.AdvanceN` | src/js/parser/lexer_stream.rs:662-672 | moves on, at most to the end, and keeps the current code point in step |
| `Utf16.CodePointStream.ParseCodePoint` | src/js/parser/lexer_stream.rs:756-767 | one code point, or none exactly at the end |
| `Utf16.CodePointStream.PeekPrevious` | src/js/parser/lexer_stream.rs:727-734 | the code point that ends here, or inside a surrogate pair the high surrogate alone |
| `Utf16.CodePointStream.PeekNext` | src/js/parser/lexer_stream.rs:736-743 | the code point that starts here |
| `Utf16.CodePointStream.ParseAll` | src/js/parser/lexer_stream.rs:613-767 | parsing to the end gives one code point for each position that is not inside a surrogate pair, on any code units |
| `Utf16.CodePointStream.ParseAllBackward` | src/js/parser/lexer_stream.rs:628-642 | stepping back from the end gives the same code points in reverse |
| `Utf16.CodeUnitIterator.Next` | src/js/common/string_iterators.rs:95-111 | takes one unit off the front |
| `Utf16.CodeUnitIterator.Peek` | src/js/common/string_iterators.rs:132-143 | the unit at the front, which stays |
| `Utf16.CodePointIterator.Next` | src/js/common/string_iterators.rs:172-194 | takes one code point off the front |
| `Utf16.IterateAll` | src/js/common/string_iterators.rs:172-194 | iterating to the end gives the same code points as the stream |
| `Utf16.EncodeCodePoint` | src/js/common/unicode.rs:436-451 | writes one or two units and leaves the rest |
| `Utf16.EncodesBack` | src/js/common/unicode.rs:436-451 | decoding and encoding any code units gives them back |
| `Utf16.SplitPairMerges` | src/js/common/unicode.rs:436-451 | a high and a low surrogate, encoded as two code points, are read back as one |
| `Utf16.DecodesBack` | src/js/common/unicode.rs:436-451 | encoding and decoding code points gives them back exactly when no high surrogate stands directly before a low one |
| `Utf16.StartingStep` | src/js/parser/lexer_stream.rs:613-642 | between two consecutive boundaries exactly one code point starts |
| `Utf16.Latin1DecodesToItself` | src/js/common/string_iterators.rs:92-112 | one-byte strings decode to their own units |
| `LineIndex.CalculateLineOffsets` | src/js/parser/loc.rs:25-46 | zero and the position after every line feed, in order |
| `LineIndex.FindLargestOffset` | src/js/parser/loc.rs:61-75 | the binary search ends at the last offset that is not past the target |
| `LineIndex.FindLineCol` | src/js/parser/loc.rs:50-59 | one plus the number of line feeds before the position, and one plus the distance from the last line start |
| `LineIndex.StartIsListed` | src/js/parser/loc.rs:25-46 | a line start stands in the index at the number of line feeds before it |
| `Varint.EncodeVarint` | src/js/common/varint.rs:8-18 | appends the code of the value |
| `Varint.CodeMeaning` | src/js/common/varint.rs:8-18 | the code ends at its first byte without the high bit, has no superfluous byte, and stands for the value |
| `Varint.CodeLength` | src/js/common/varint.rs:8-18 | one byte for each group of seven bits, at least one, and at most ten for 64 bits |
| `Varint.DecodeVarint` | src/js/common/varint.rs:21-41 | finds the first code of a buffer and its value modulo 2^64, or why there is none |
| `Varint.CodeDecodes` | src/js/common/varint.rs:21-41 | decoding a code gives its value and length, whatever follows, and nothing else |
| `Varint.ShortestIsUnique` | src/js/common/varint.rs:8-41 | two codes without superfluous bytes that stand for the same number are the same |
| `Varint.EncodeList` | src/js/common/varint.rs:8-18 | encoding a list appends the codes of its values |
| `Varint.DecodeList` | src/js/common/varint.rs:21-41 | decoding until the buffer is used up recovers the encoded list |
| `Lexer.Lexer.constructor` | src/js/parser/lexer.rs:46-64 | starts at the first byte, or at the end marker |
| `Lexer.Lexer.AdvanceN` | src/js/parser/lexer.rs:85-93 | moves on, at most to the end, and keeps the current byte in step |
| `Lexer.Lexer.Restore` | src/js/parser/lexer.rs:70-73 | goes back to a saved place |
| `Lexer.Lexer.SkipDecimalDigits` | src/js/parser/lexer.rs:637-675 | skips the longest run of digits, reports adjacent and trailing separators, and says whether there were any |
| `Lexer.Lexer.LexDecimalLiteral` | src/js/parser/lexer.rs:677-737 | reads the literal that its runs of digits determine |
| `NumberLaws.NumberIsDecimalText` | src/js/parser/lexer.rs:677-737 | text that reaches the conversion to a double is digits, optional fraction, optional exponent with digits, and some digit before it, so the conversion cannot fail |
| `NumberLaws.DecimalAccepted` | src/js/parser/lexer.rs:677-737 | a number is read up to a position exactly when the text up to there is digits with single separators, optional fraction, optional exponent, no separators after a leading zero, and it cannot go on there |
| `NumberLaws.NumberSeparators` | src/js/parser/lexer.rs:677-737 | separators in an accepted number stand alone between digits, and never in one that starts with zero; that every number of this form is accepted is `NumberLaws.DecimalAccepted` |
| `NumberLaws.BigIntDigits` | src/js/parser/lexer.rs:687-700 | a decimal big integer has digits with single separators, and starts with zero only if it is zero |
| `Lexer.Lexer.AccumulateDigits` | src/js/parser/lexer.rs:751-797 | the accumulator is the positional value exactly while that fits 64 bits; from then on the overflow mark is set |
| `Lexer.Lexer.LexLiteralWithBase` | src/js/parser/lexer.rs:740-818 | the literal stands for the positional value of its digits, as a word or a big integer |
| `Numbers.AddDigit` | src/js/parser/lexer.rs:764-776 | one digit: the mark is set exactly when the number reaches 2^64 |
| `NumberLaws.RadixAccepted` | src/js/parser/lexer.rs:740-797 | accepted exactly when the run after the prefix is not empty and its separators stand singly between digits |
| `NumberLaws.RunMeaning` | src/js/parser/lexer.rs:650-668 | a run has only digits and allowed separators and goes on as far as it can |
| `NumberLaws.PositionalSkips` | src/js/parser/lexer.rs:740-818 | separators do not change the number |
| `Lexer.Lexer.LexLegacyOctalLiteral` | src/js/parser/lexer.rs:832-874 | the positional value of the octal digits, or nothing read when a digit eight or nine follows |
| `Lexer.Lexer.ErrorIfCannotFollowNumber` | src/js/parser/lexer.rs:876-906 | an error exactly when a digit, the start of a name or bytes that do not decode follow, and nothing is read otherwise |
| `Lexer.Lexer.LexNumber` | src/js/parser/lexer.rs:466-518 | token or error are those that the prefix, the runs of digits and the character after them determine |
| `NumberBases.RadixLiteral` | src/js/parser/lexer.rs:490-494 | after 0b, 0o and 0x in either case a literal is accepted exactly when digits of base 2, 8 or 16 with single separators follow and it may end there; its value is the sum of the digits with the powers of the base |
| `NumberBases.SeparatorErrors` | src/js/parser/lexer.rs:740-818 | separators in a row are an error, and otherwise one at the end |
| `NumberBases.PositionalIsSum` | src/js/parser/lexer.rs:740-818 | the accumulated number is the sum of the digit values with the powers of the base |
| `NumberBases.LegacyOctalLiteral` | src/js/parser/lexer.rs:494-507 | a zero before another digit is an error in strict mode; otherwise digits below eight alone are an octal number and any others are decimal |
| `NumberBases.DecimalLiteral` | src/js/parser/lexer.rs:507-517 | numbers that start otherwise are read to a position exactly when the text up to there is a decimal number that may end there |
| `NumberBases.DecimalCharacters` | src/js/parser/lexer.rs:677-737 | the characters of fractions and exponents |
| `NumberBases.FollowMeaning` | src/js/parser/lexer.rs:876-906 | a number may end exactly before what is neither a digit nor a start of a name, and bytes that do not decode are reported as such |
| `Lexer.Lexer.LexUtf8CodePoint` | src/js/parser/lexer.rs:1488-1501 | one decoded character, an error for bytes that do not decode, and a panic at the end of input |
| `Lexer.Lexer.LexCharacter` | src/js/parser/lexer.rs:1476-1485 | one character, ASCII or not |
| `Lexer.Lexer.LexUnicodeEscape` | src/js/parser/lexer.rs:1504-1557 | one to six hexadecimal digits in braces with a value in range, or exactly four; otherwise malformed, after reading only digits and braces |
| `Lexer.Lexer.LexHexEscape` | src/js/parser/lexer.rs:1035-1055 | exactly two hexadecimal digits |
| `Lexer.Lexer.LexOctalEscape` | src/js/parser/lexer.rs:993-1022 | as many octal digits, three at most, as keep the value in one byte |
| `Lexer.Lexer.LexEscape` | src/js/parser/lexer.rs:949-1083 | on any source, the bytes that an escape adds, or its error or panic; an escaped character outside ASCII is encoded again |
| `Lexer.Lexer.LexEscapedOther` | src/js/parser/lexer.rs:1068-1080 | the same for a character outside ASCII |
| `Lexer.Lexer.LexStringEscape` | src/js/parser/lexer.rs:949-1083 | the same, legacy octal and decimal escapes included, which strict mode reports |
| `Lexer.Lexer.LexStringSlow` | src/js/parser/lexer.rs:908-1101 | the rebuilding path continues the value from wherever it takes over, errors and panics included |
| `Lexer.Lexer.LexStringLiteral` | src/js/parser/lexer.rs:908-1101 | token, error or panic are those that characters and escapes determine on any source: sliced up to the first escape, encoded again from there on |
| `EscapeLaws.LetterEscapes` | src/js/parser/lexer.rs:950-982 | the escapes n, t, r, b, v and f are the bytes 0A, 09, 0D, 08, 0B and 0C, in strings and templates |
| `EscapeLaws.NullEscape` | src/js/parser/lexer.rs:983-987 | a zero that no digit follows is the null character |
| `EscapeLaws.PlainEscapes` | src/js/parser/lexer.rs:1066-1071 | every other ASCII character that is no digit, x, u or line end stands for itself |
| `EscapeLaws.LineContinuations` | src/js/parser/lexer.rs:1058-1064 | an escaped line end is left out, a carriage return with the line feed after it |
| `EscapeLaws.OtherEscapes` | src/js/parser/lexer.rs:1065-1081 | an escaped character outside ASCII is kept, but for the line and paragraph separators |
| `EscapeLaws.OctalEscapes` | src/js/parser/lexer.rs:988-1021 | octal digits are taken as long as they fit a byte; they are an error in strict mode and malformed in templates |
| `EscapeLaws.EightAndNine` | src/js/parser/lexer.rs:1022-1033 | eight and nine stand for themselves in sloppy strings only |
| `EscapeLaws.HexEscapes` | src/js/parser/lexer.rs:1034-1050 | x takes two hexadecimal digits, and is malformed otherwise |
| `EscapeLaws.UnicodeEscapes` | src/js/parser/lexer.rs:1504-1557 | u takes four hexadecimal digits, or one to six in braces that are a code point, and is malformed otherwise |
| `EscapeLaws.PlainText` | src/js/parser/lexer.rs:915-941 | text without escapes stands for itself, up to the closing quote |
| `EscapeLaws.Unterminated` | src/js/parser/lexer.rs:929-934 | a line end or the end of input before it is an error |
| `EscapeLaws.LiteralBounds` | src/js/parser/lexer.rs:908-1101 | literals end behind their last delimiter: a quote like the first, a backtick, or a dollar sign and a brace |
| `EscapeLaws.EscapeToken` | src/js/parser/lexer.rs:908-1101 | the string of a single ASCII escape has the bytes of the escape as its value |
| `EscapeLaws.LetterTokens` | src/js/parser/lexer.rs:908-1101 | two such strings, a line feed and a tab |
| `TextLiterals.StringReadMeaning` | src/js/parser/lexer.rs:908-1101 | on a canonical source both paths read the value in which text outside escapes stands for its own bytes |
| `TextLiterals.StringValueIsText` | src/js/parser/lexer.rs:908-1101 | the value of a string literal in a canonical source is itself a canonical string |
| `TextLiterals.OctalFitsByte` | src/js/parser/lexer.rs:993-1022 | a legacy octal escape stays in one byte |
| `Lexer.Lexer.LexTemplateLiteral` | src/js/parser/lexer.rs:1211-1271 | token, error or panic are those that characters and escapes determine on any source: raw and cooked text sliced up to the first escape or carriage return, the cooked text encoded again from there on |
| `TemplateLaws.TemplateReadMeaning` | src/js/parser/lexer.rs:1211-1271 | on a canonical source both paths read the raw text up to the first unescaped terminator and the cooked text in which text outside escapes stands for its own bytes |
| `Lexer.Lexer.LexTemplateSlow` | src/js/parser/lexer.rs:1273-1472 | the same for the path with escapes and carriage returns |
| `Lexer.Lexer.LexTemplateEscape` | src/js/parser/lexer.rs:1288-1398 | on any source, the bytes that an escape in a template adds, or malformed, digits other than a lone zero included |
| `Lexer.Lexer.NextTemplatePart` | src/js/parser/lexer.rs:1206-1209 | continues a template after an expression |
| `TemplateLaws.NormalizeBySplitting` | src/js/parser/lexer.rs:1436-1459 | splitting on carriage returns and joining normalizes line ends |
| `TemplateLaws.LineEndsNormalized` | src/js/parser/lexer.rs:1438-1465 | each line end of raw text becomes one line feed and all other text is kept |
| `TemplateLaws.NormalizedOnce` | src/js/parser/lexer.rs:1436-1459 | normalized text has no carriage return and is not changed by normalizing |
| `TemplateLaws.TemplateMeaning` | src/js/parser/lexer.rs:1273-1472 | the cooked text is absent exactly when some escape is malformed, and without a backslash it is the normalized raw text |
| `TemplateLaws.EndIsFirst` | src/js/parser/lexer.rs:1211-1436 | the text ends at the first terminator that is not escaped |
| `LiteralEnds.EndFails` | src/js/parser/lexer.rs:1211-1472 | in a canonical source the text of a template part has no error, and no end exactly when every terminator behind its start is escaped |
| `LiteralEnds.TemplatePanics` | src/js/parser/lexer.rs:1211-1271 | lexing a template part of a canonical source panics exactly when every terminator is escaped, and never fails otherwise |
| `LiteralEnds.StringPanics` | src/js/parser/lexer.rs:908-1101 | reading a string of a canonical source panics exactly when the source ends with the backslash of an escape and nothing before it ends the string or is an error |
| `LiteralEnds.TokenPanics` | src/js/parser/lexer.rs:172-567 | reading a token of a canonical source panics in exactly three cases: a hash at the end, a template without end, a string with a lone backslash at the end |
| `LiteralEnds.ShortestPanics` | src/js/parser/lexer.rs:172-567 | a shortest source for each of them |
| `LiteralEnds.PathsAgree` | src/js/parser/lexer.rs:908-1101 | a character adds the same bytes on the slicing and the rebuilding path exactly if it is in range and not overlong |
| `LiteralEnds.PathsDiffer` | src/js/parser/lexer.rs:908-1101 | bytes past the last code point, copied without an escape before them, and a panic after one |
| `TemplateLaws.EndAfterEscape` | src/js/parser/lexer.rs:1288-1398 | no part of an escape ends the text |
| `Lexer.Lexer.LexIdentifierAscii` | src/js/parser/lexer.rs:1560-1613 | token or error are those of the reference name: its characters and escapes as far as it goes, on the slicing and the rebuilding path alike |
| `Lexer.Lexer.LexIdentifierSlow` | src/js/parser/lexer.rs:1617-1659 | continues the reference name from wherever it takes over, its errors included |
| `Lexer.Lexer.LexIdentifierEscape` | src/js/parser/lexer.rs:1661-1674 | the code point of a unicode escape, or malformed |
| `Lexer.Lexer.LexPrivateIdentifier` | src/js/parser/lexer.rs:1676-1708 | token, error or panic are those of the hash and the name after it |
| `Identifiers.NameStopsAt` | src/js/parser/lexer.rs:1617-1659 | where a name stops and what decides there: an escape that is no part ends a name of nothing but ASCII, and is an error in any other |
| `Identifiers.NameIsText` | src/js/parser/lexer.rs:1617-1659 | the text of a name is a canonical string, whatever the source is |
| `Identifiers.NameIsSlice` | src/js/parser/lexer.rs:1560-1613 | in a canonical source a name without escapes is a slice of it |
| `Identifiers.HashAlone` | src/js/parser/lexer.rs:1676-1708 | a hash is a panic exactly at the end of input; it is reported as a hash without a name exactly before an escape or a character outside ASCII that starts no name, and as invalid Unicode, where no name starts, exactly before ASCII or bytes that do not decode |
| `Lexer.Lexer.SkipLineComment` | src/js/parser/lexer.rs:569-591 | ends where the reference line ends or fails as it does, and sets the flag exactly if a line terminator was passed |
| `Trivia.LineEndMeaning` | src/js/parser/lexer.rs:569-591 | a line comment ends right after the first line terminator, or at the end of input |
| `Lexer.Lexer.SkipBlockComment` | src/js/parser/lexer.rs:593-631 | ends where the reference comment ends or fails as it does, and sets the flag exactly if a line ends inside |
| `Trivia.BlockEndMeaning` | src/js/parser/lexer.rs:593-631 | a block comment ends right after the first closing mark |
| `Trivia.CommentsFail` | src/js/parser/lexer.rs:593-631 | in a canonical source line comments do not fail, and a block comment fails exactly when there is no closing mark, as unterminated |
| `Lexer.Lexer.SkipAsciiWhitespace` | src/js/parser/lexer.rs:158-184 | skips white space and line ends |
| `Trivia.CharacterNewline` | src/js/parser/lexer.rs:172-184 | a character holds a line terminator exactly when it is one |
| `Trivia.InsideCharacter` | src/js/parser/lexer.rs:172-184 | neither a line terminator nor a closing mark starts inside another character |
| `TokenStarts.AsciiToken` | src/js/parser/lexer.rs:180-560 | which kind of token each ASCII character starts, and that all others are unknown tokens |
| `TokenStarts.NameStarts` | src/js/parser/lexer.rs:1560-1613 | a name starts with the character at its place |
| `TokenStarts.PrivateNameStarts` | src/js/parser/lexer.rs:1676-1708 | a private name is the hash and the name behind it |
| `TokenStarts.NameCharacters` | src/js/common/unicode.rs:196-247 | names start with letters, underscore and dollar sign, and go on with these and digits |
| `TokenStarts.OtherNameCharacters` | src/js/common/unicode.rs:249-278 | outside ASCII names have the characters of the Unicode classes and, within, the two joiners |
| `TokenStarts.TriviaStarts` | src/js/common/unicode.rs:108-163 | the characters that may stand between tokens, and how comments start |
| `TokenStarts.LineEnds` | src/js/common/unicode.rs:147-163 | the four characters that end a line |
| `TokenStarts.NextMeaning` | src/js/parser/lexer.rs:172-200 | the next token is the one behind all trivia, with its place and whether a line ended before it |
| `TokenTexts.PrintedText` | src/js/parser/token.rs:172-228 | lexing the text printed for a punctuator gives it back exactly if it is not one of the three that are printed with the text of another token |
| `Punctuators.PunctuatorIsSpelled` | src/js/parser/lexer.rs:188-477 | a punctuator token is spelled out in the source |
| `Punctuators.PunctuatorIsLongest` | src/js/parser/lexer.rs:188-477 | no longer punctuator is spelled there, except `?.` before a digit |
| `Lexer.Lexer.LexToken` | src/js/parser/lexer.rs:188-548 | token, error or panic are those that the source spells at the position |
| `Lexer.Lexer.SkipComment` | src/js/parser/lexer.rs:236-247 | the comment at the position, a hashbang comment at the start included, or nothing read |
| `Lexer.Lexer.Next` | src/js/parser/lexer.rs:172-567 | skips white space, line terminators and comments as far as they go and fails where they fail; then token, error or panic are those that the source spells there, and the newline flag is set exactly when a line terminator was skipped |
| `Lexer.Lexer.LexAll` | src/js/parser/lexer.rs:172-567 | repeated lexing ends, with all tokens, their places and newline flags, or with the first error or panic, as the source determines |
| `Lexemes.CoversMeaning` | src/js/parser/lexer.rs:172-567 | it succeeds with exactly the tokens each of which stands behind the trivia after the one before, the end token last |
| `Lexemes.AsciiIsBoundary` | src/js/parser/lexer.rs:172-567 | in a canonical source the text from any ASCII byte on is canonical, so the laws of literals apply to every literal in it |
| `Lexemes.CoveringIsOrdered` | src/js/parser/lexer.rs:172-567 | the places of the tokens are in order, disjoint, not empty and inside the source; the last is its end |

## Left out

- Scope trees, scope resolution, VM locations and dynamic-access marking: calls into them are not modelled, nor is the scope stack.
- Source locations of errors: an error is modelled by its kind alone, and malformed template escapes by the absence of the cooked text.
- The analyzer's tree is an immutable value: each visit returns the annotated tree instead of writing into it, so aliasing of nodes is not captured.
- Checks without context that read one node only: several constructors, getters named constructor, static prototype, several defaults in a switch, constants without initializer, let as a bound name, duplicate `__proto__`, object-pattern initializers, catch-parameter conflicts, imports and exports.
- Options of a dynamic import: the traversal does not visit them.
- Finally scopes of the generator and the block ids of its targets: a jump target is its label id and kind.
- Overflow checks of debug builds: the 16-bit label depth wraps here.
- Float16.F64ToF16: the sum of the magic addition, a hardware operation, is a parameter constrained to be the correctly rounded sum.
- Conversions to doubles (`f64::from_str`, big integer to double): a number token carries the exact integer or the text that is converted; that the text has the form that the conversion accepts is proved.
- Keywords: a name token is not looked up in the keyword table.
- Regular expression literals, and the parser's choice between them and a division.
- The Unicode classes ID_Start and ID_Continue: two unconstrained predicates.
- The escapes that string and template literals share are written once here and twice in the source, which differ only in the backtick.
- Utf16.CodePointStream: backward advancing, `advance_code_point` and peeking several units ahead, which depend on how the current unit was decoded before; the backward iterator of strings, which removes a unit at the wrong end.
- Varint.DecodeVarint: an eleventh byte shifts by 70 bits, which is an outcome of its own here; release builds mask the shift.
- Files, the byte-order of raw slices, allocation and reference counting.
