# ftc — a Dafny model of the Fortran-to-C translator

`ftc` reads Fortran 90 source files through the ROSE compiler front end and writes one C
file per input file, together with a C header per translated file. This project models its
core in Dafny:

- **Command-line driver** (`main`, `fortran_to_cpp`). It picks out the input files of the
  ROSE project and translates each one, reporting every error thrown. Each module use then
  gets an `#include` of the header of the file that defines the module. Each translated file
  gets a header of its own, which it includes.
- **Translation visitor** (`XfVisitor`). It walks the Fortran tree with a `sync` node that
  skips a whole statement once that statement has been translated. It keeps a stack of C
  scopes, a set of headers to include, and a counter for generated names.
- **Statement handlers:**
  - procedures, with parameter intents and pointer parameters;
  - variable declarations;
  - expression statements, RETURN and IF;
  - DO loops, lowered to a C `for` with copies of the bound and the step;
  - PRINT, READ, OPEN and CLOSE.
- **Expression translation** (`xf_expr`):
  - values and operators;
  - column-major array subscripts linearised against the lower bounds and extents of the
    declaration;
  - calls, with by-reference arguments and `__argN` temporaries;
  - intrinsics.
- **Type lowering** (`xf_type`) and **format strings** (`xf_format`).
- **Header generator** (`GenVisitor`, `xf_gen_header`). It re-declares every top-level
  variable as `extern` and every function as a prototype.
- **Run-time file table** of the generated programs (`ftc_file_io.c`).

ROSE's trees become Dafny datatypes: `Ast.Node` for the Fortran side, and `Ast.Stmt`,
`Ast.Expr` and `Ast.CType` for the C side. The visitor's sync walk is one generic state
machine (`Walk`), proved equal to a plain recursive reading of the walk. The translator's
global state is the class `Translator.Translator`. Its handlers are methods, each proved
against the pure expression, type and item translations (`XfExpr`, `Lowering`). Arithmetic
expressions get an evaluation semantics (`Ast.Eval`). Array subscripts are proved correct
against it. For a DO loop it gives the number of passes that the emitted `for` makes, for
the test and update that `XfDo` builds, given the values that the `__fbound` and `__fstep`
copies hold. A loop without a step makes exactly the Fortran iteration count of passes
(`DoLoop.PlainTripCount`). A loop with a step makes that count exactly when the direction
`counter <= bound` at entry agrees with the sign of the step. Otherwise the loop never ends.

The translator does what the source does, including three defects listed under
"## Findings". Each finding also has a corrected definition, with its intended property
proved, beside the as-written one. The corrected definitions are not wired into the
translator.

## Model

| member | source | states |
|---|---|---|
| Names.NatToString | src/translator.cpp:614-620 | the counter printed in decimal is a non-empty string of digits, one digit long exactly below 10 |
| Names.NatToStringInjective | src/translator.cpp:614-620 | different counter values print differently |
| Names.GenNameInjective | src/translator.cpp:611-620 | two names generated from one prefix at different counter values differ, so generated variables never clash |
| FileNames.LastIndexOf | src/translator.cpp:1492 | `find_last_of` returns a position holding the character with none after it, and `npos` exactly when the character is absent |
| FileNames.ReplaceExt | src/translator.cpp:1491-1494 | the result is the name up to its last '.', followed by the new extension |
| FileNames.BaseName | src/main.cpp:153 | the result is a suffix of the path that starts right after a '/' (or at the start), and holds no '/' |
| FileNames.ReplaceExtTwice | src/main.cpp:148-151 | replacing ".c" and then ".h" gives the same name as replacing ".h" directly, so the header a module's user includes is named after the module's Fortran file |
| Walk.SkipTree | src/translator.cpp:1210-1211 | while `sync` holds a larger tree, all events of a subtree leave the walk unchanged |
| Walk.SkipTrees | src/translator.cpp:1210-1211 | the same for a sequence of sibling subtrees |
| Walk.RunTree | src/translator.cpp:1210-1474 | running the sync machine over a tree's events and then more events is the reference walk of the tree followed by the rest |
| Walk.RunTrees | src/translator.cpp:1210-1474 | the same for a sequence of trees |
| Walk.RunIsActed | src/translator.cpp:1210-1474 | over a whole traversal, the sync machine acts on exactly the nodes the reference walk acts on, in order, and fails exactly when it does |
| Walk.RunOfIsActedOf | src/translator.cpp:1210-1474 | the same for a sequence of trees |
| Walk.SyncVisitor.constructor | src/translator.cpp:894-897 | a new visitor has no `sync` node, has acted on nothing and has not failed |
| Walk.SyncVisitor.PreOrderVisit | src/translator.cpp:1210-1218 | while a subtree is skipped nothing changes; otherwise the node's action is recorded and `sync` is set as the node's directive says |
| Walk.SyncVisitor.PostOrderVisit | src/translator.cpp:1472-1474 | leaving the `sync` node clears it; nothing else changes |
| Walk.SyncVisitor.Traverse | src/translator.cpp:1518-1520 | a traversal acts on exactly what the reference walk of the tree acts on, and fails exactly when it does |
| Trees.NodeTree | src/translator.cpp:1518-1520 | a node's traversal tree is rooted at the node and has one subtree per child |
| Trees.NodeTrees | src/translator.cpp:1518-1520 | the traversal trees of a node sequence are each node's own tree, in order |
| Intents.EntryIntent | src/translator.cpp:77-107 | an array parameter is recorded as `in`; any other parameter gets the intent of its declaration |
| Intents.DeclEntries | src/translator.cpp:83-86 | one entry per declared variable |
| Intents.ParamNames | src/translator.cpp:153-155 | one name per parameter |
| Intents.StepsAppend | src/translator.cpp:84-114 | scanning two runs of declarations one after the other is scanning their concatenation |
| Intents.StepsStopped | src/translator.cpp:109-111 | once the scan has thrown, later declarations change nothing |
| Intents.Matching | src/translator.cpp:89-96 | the entries kept are exactly those naming a parameter |
| Intents.EarlyExitIsSafe | src/translator.cpp:109-111 | when the countdown covers all the matching declarations, the scan records exactly what a full scan records, and it stops only after the last of them |
| Intents.UpdatesLookup | src/translator.cpp:105-107 | after a scan, a name maps to the intent of its last matching declaration, and names never declared keep their old entry |
| Intents.LastIntentFound | src/translator.cpp:84-114 | a name that is declared has a last declaration |
| Intents.LastIntentMatching | src/translator.cpp:89-96 | for a parameter, filtering the entries to parameters does not change its last declaration |
| Intents.IntentVisitor.constructor | src/translator.cpp:64-67 | the visitor starts with the parameter list, a countdown of its length and no intents recorded |
| Intents.IntentVisitor.VisitDecl | src/translator.cpp:74-116 | visiting a declaration advances the scan over that declaration's variables |
| Intents.FnDeclIntents | src/translator.cpp:119-129 | the intents map is what the early-exiting scan of the procedure body records |
| Intents.OrderedIntents | src/translator.cpp:144-162 | the ordered intents exist exactly when every parameter is declared, and then list each parameter's intent in parameter order |
| Intents.EveryDeclaredParamRecorded | src/translator.cpp:119-129 | when each parameter is declared once, every parameter is recorded with the intent of its declaration, despite the early exit |
| Intents.WellDeclaredOrdered | src/translator.cpp:131-162 | when each parameter is declared once, the ordered list succeeds and gives each parameter the intent it was declared with |
| Intents.RecordedFromDecl | src/translator.cpp:74-116 | every intent the scan records was there before or comes from a declaration of that name |
| Intents.ArrayParamIsIn | src/translator.cpp:102-106 | a parameter declared only as an array is passed with intent `in` |
| Types.LowerScalar | src/translator.cpp:315-357 | void, LOGICAL, CHARACTER and the unbounded string become `void`, `int`, `char` and a string type. INTEGER kinds 1, 2, 4 and 8 and REAL kinds 4 and 8 become the C type of that byte width, with floating types exactly for REAL; no kind gives `int` and `float`. A non-literal kind, any other literal kind and any other type throw the source's messages |
| Types.Subsize | src/translator.cpp:223-240 | a dimension has an extent expression exactly when its upper bound is given, and that expression evaluates to the extent |
| Types.MulFold | src/translator.cpp:245-248 | the folded product evaluates to the product of the two factors |
| Types.ArrayLayout | src/translator.cpp:219-254 | the dimension loop yields the lower bounds, the running sizes and the total size of the layout function |
| Types.LayoutBounds | src/translator.cpp:253 | one lower bound per dimension, each the dimension's own |
| Types.FullLayout | src/translator.cpp:219-254 | with every extent known, the total size is the product of the extents, and the i-th running size is the product of the first i+1 extents |
| Types.Strides | src/translator.cpp:242-243 | the running sizes are the prefix products of the extents, whatever the last dimension is |
| Linearize.SubIndex | src/translator.cpp:512-518 | the folded sub-index evaluates to index minus lower bound |
| Linearize.Scale | src/translator.cpp:520-527 | the folded scaling evaluates to the product |
| Linearize.Accumulate | src/translator.cpp:529-535 | the folded sum evaluates to the sum |
| Linearize.Term | src/translator.cpp:508-527 | the k-th term evaluates to (subscript − lower bound) times the k-th stride |
| Linearize.LinearIndex | src/translator.cpp:506-538 | the built index evaluates to the column-major offset of the subscripts |
| Linearize.Linearize | src/translator.cpp:493-538 | subscripting succeeds exactly when the declaration has a lower bound and a stride for every subscript, and the index then evaluates to the column-major offset. A subscript past the recorded bounds or strides, undefined in the source, ends the run (`Abort`) |
| Linearize.LowerBoundsGiveZero | src/translator.cpp:506-538 | subscripting with every lower bound addresses element 0 |
| Linearize.FirstSubscriptStrideOne | src/translator.cpp:506-538 | raising the first subscript by one moves to the next element (column-major order) |
| Linearize.ColumnMajor | src/translator.cpp:506-538 | with the layout of a declaration, the offset is the element's position in Fortran's column-major element order |
| Linearize.PrefixOrder | src/translator.cpp:506-538 | the same for every prefix of the subscripts |
| CallArgs.Flags | src/translator.cpp:775-803 | an argument is flagged exactly when it is passed by reference and is neither a dereference nor a variable |
| CallArgs.RefTo | src/translator.cpp:841-846 | a by-reference argument that is a dereference passes its pointer; any other argument passes its address |
| CallArgs.FixedPlan | src/translator.cpp:805-852 | the corrected rule of the first finding: one argument per input, and the temporaries declared are named `__argN` from consecutive counter values |
| CallArgs.FixedFrom | src/translator.cpp:805-852 | the same for the first n arguments |
| CallArgs.FlagArgs | src/translator.cpp:775-803 | the first loop computes exactly the flags, and `any` holds exactly when some argument is flagged |
| CallArgs.BuildArgs | src/translator.cpp:805-852 | the second loop: with `any`, argument k is declared into `__arg(c+k)` and passed as that temporary, by address exactly when flagged; without, a by-reference argument passes its address and any other is unchanged |
| CallArgs.LowerArgs | src/translator.cpp:775-852 | the two loops build exactly the source's plan (`Plan`) |
| CallArgs.PlanCopiesInOrder | src/translator.cpp:805-830 | as written, a call that needs temporaries evaluates every argument into its own temporary, in order, and passes an address exactly for the flagged ones; an unflagged by-reference argument is passed as the bare temporary |
| CallArgs.PlanNamesDistinct | src/translator.cpp:812 | the temporaries of one call have distinct names |
| CallArgs.NoReferencePassesThrough | src/translator.cpp:832-849 | with no by-reference parameter, the arguments pass through unchanged and nothing is declared |
| CallArgs.FixedPrefix | src/translator.cpp:805-852 | lowering more arguments extends the earlier arguments and declarations |
| CallArgs.FixedPassesReferences | src/translator.cpp:823-830 | with temporaries, each by-reference argument still passes an address: its own, or its temporary's when flagged; a value argument passes its temporary |
| CallArgs.FixedNamesDistinct | src/translator.cpp:812 | the corrected plan's temporaries have distinct names |
| CallArgs.ValueTempForReference | src/translator.cpp:823-830 | as written, `call s(x, 1+2)` with two `intent(out)` parameters passes the temporary `__arg0` by value in place of `&x`; the corrected plan passes `&x` |
| ExprRules.XfValue | src/translator.cpp:364-392 | literals are kept, evaluating to the same value, and LOGICAL becomes an int 0 or 1; character and complex literals throw |
| ExprRules.XfUnop | src/translator.cpp:397-435 | `++`, `--`, `!` and `~` are rebuilt with their mode, unary plus is dropped, and minus on anything but a float literal evaluates to the negation; other operators throw |
| ExprRules.Rebuild | src/translator.cpp:440-478 | each handled binary operator is rebuilt with the translated operands; an unhandled one throws |
| ExprRules.VarRef | src/translator.cpp:634-662 | a variable bound to a pointer that is not an array is dereferenced; any other variable, bound or not, is referenced by name |
| ExprRules.Intrinsic | src/translator.cpp:714-758 | `abs` on a non-integer becomes `fabs`; `int`, `logical` and `ichar` cast to int and `real` to double; `get_environment_variable` assigns `getenv`; argument-count violations fail the assertion; other calls are kept |
| XfExpr.ExtendsTrans | src/translator.cpp:627-860 | extending the translation state is transitive |
| XfExpr.XfE | src/translator.cpp:627-860 | translating an expression only appends temporaries, named from the counter values it consumes, and only adds headers |
| XfExpr.Binary | src/translator.cpp:440-574 | the same for binary operators, subscripts and powers |
| XfExpr.XfArgs | src/translator.cpp:761-855 | the same for call arguments; one argument out per argument in |
| XfExpr.XfArgsFollowsPlan | src/translator.cpp:761-855 | after the arguments are translated in order, the call's arguments and new temporaries are those of the source's plan, with the counter moved past them |
| XfExpr.XfList | src/translator.cpp:761-855 | the same for an expression list; one expression out per expression in |
| XfExpr.TempsFresh | src/translator.cpp:812 | the temporaries a translation declares have distinct names, and none reuses a name generated earlier |
| XfExpr.ArithPreserved | src/translator.cpp:627-677 | an arithmetic expression translates without temporaries into a C expression that evaluates as the Fortran one did |
| XfExpr.FindIsFirstFound | src/translator.cpp:581-609 | the procedure lookup returns the first procedure of that name in traversal order |
| XfExpr.FindOfIsFirstFound | src/translator.cpp:581-609 | the same for a sequence of trees |
| DoLoop.StepTestReads | src/translator.cpp:1138-1144 | the loop test holds exactly when the counter has not passed the bound in the direction `__fdir` selects |
| DoLoop.EntersUp | src/translator.cpp:1138-1144 | counting up, the n-th pass is entered exactly when start + n·step ≤ bound |
| DoLoop.EntersDown | src/translator.cpp:1138-1144 | counting down, the n-th pass is entered exactly when start + n·step ≥ bound |
| DoLoop.FixedTripCount | src/translator.cpp:1121-1166 | the corrected half of the second finding: with the direction taken from the sign of the step, the loop makes exactly the Fortran iteration count of passes |
| DoLoop.AsWrittenTripCount | src/translator.cpp:1121-1166 | with `__fdir = counter <= bound` as emitted: when that agrees with the sign of the step, the loop makes exactly the Fortran iteration count of passes; otherwise it enters every pass and never ends |
| DoLoop.PlainTripCount | src/translator.cpp:1124-1127 | without a step, the loop makes exactly the Fortran iteration count of passes |
| DoLoop.AsWrittenNeverEnds | src/translator.cpp:1129-1135 | as written, a loop with a positive step whose start is past the bound enters every pass, while Fortran runs it zero times |
| Format.FormatOf | src/translator.cpp:1179-1194 | strings, integers, reals and characters get one conversion each; any other type throws |
| Format.FixedFormat | src/translator.cpp:1179-1194 | the corrected choice is defined for the same types and differs only for integers |
| Format.FixedAgrees | src/translator.cpp:1179-1194 | the corrected conversion agrees with the C type the item is declared with |
| Format.LongItemAsWritten | src/translator.cpp:1183 | as written, an `integer(kind=8)` item, declared `long`, gets `%d`, which does not agree with `long` |
| Format.ConversionsAppend | src/translator.cpp:1359 | appending formats adds their conversion counts |
| Format.NoConversions | src/translator.cpp:1362 | a text without '%' holds no conversion |
| Format.SingleCounts | src/translator.cpp:1179-1194 | each item's specification is exactly one conversion |
| Format.FormatString | src/translator.cpp:1351-1362 | the joined format of `xf_format`'s conversions exists exactly when every item's type has one |
| Format.FormatCountsItems | src/translator.cpp:1351-1364 | the format string holds exactly one conversion per item |
| Lowering.VisibleInnermost | src/translator.cpp:639 | a name is visible exactly when some scope declares it, and it resolves to the innermost declaration |
| Lowering.XfDim | src/translator.cpp:223-240 | a translated dimension keeps its shape (bounded, assumed size, extent or `*`) and only extends the state |
| Lowering.XfDims | src/translator.cpp:219-254 | one dimension out per dimension in |
| Lowering.DimsStop | src/translator.cpp:219-254 | the first dimension that throws ends the translation |
| Lowering.XfTypeOf | src/translator.cpp:199-357 | a scalar is lowered as `LowerScalar` says and changes no state. An array yields one lower bound per dimension, and is a pointer for a parameter and a C array otherwise |
| Lowering.ArithDims | src/translator.cpp:223-240 | arithmetic bounds translate without temporaries and keep their values |
| Lowering.ArrayLowerBounds | src/translator.cpp:253 | the recorded lower bounds of an array evaluate to the declared lower bounds |
| Lowering.ArithExtents | src/translator.cpp:222-239 | arithmetic bounds translate without temporaries, and each translated dimension spans as many elements in C as the declared one does in Fortran |
| Lowering.ProdSame | src/translator.cpp:242-251 | dimensions whose extents agree one for one have the same product of extents |
| Lowering.ArrayExtents | src/translator.cpp:207-259 | an array of a scalar type whose every dimension has a known extent is a pointer to the lowered element type as a parameter, and otherwise a C array of it whose size evaluates to the product of the extents; the stride recorded for dimension i + 1 evaluates to the product of the extents of dimensions 0 to i |
| Lowering.XfItems | src/translator.cpp:1357-1361 | one argument out per I/O item in |
| Lowering.ItemsStop | src/translator.cpp:1357-1361 | the first item that throws ends the item list |
| Lowering.ItemTypes | src/translator.cpp:1181 | each item's type is the type of its expression |
| Lowering.ItemsFormat | src/translator.cpp:1357-1362 | the format built with the items is `xf_format`'s conversions of their types joined in order, and an item without a format fails the statement |
| Lowering.FormatMatchesArgs | src/translator.cpp:1357-1364 | a translated PRINT or READ passes exactly one argument per conversion in its format |
| Lowering.ReadPassesPointers | src/translator.cpp:1431-1441 | READ passes each variable by address, or its pointer when it is a by-reference scalar |
| Translator.AssignStaysAssign | src/translator.cpp:1100-1101 | a translated assignment is still an assignment |
| Translator.ParamSyms | src/translator.cpp:995-998 | the body's symbol table holds exactly the parameters' names |
| Translator.Translator.constructor | src/translator.cpp:613 | a new translator has counter 0, no headers, no modules, no uses and no scopes |
| Translator.Translator.Append | src/translator.cpp:917-922 | the statement goes at the end of the innermost scope; nothing else changes |
| Translator.Translator.Push | src/translator.cpp:904-910 | a new innermost scope is pushed |
| Translator.Translator.Pop | src/translator.cpp:911-916 | the innermost scope is removed and its statements returned |
| Translator.Translator.Expr | src/translator.cpp:627-860 | translates as `XfE`, temporaries going into the innermost scope |
| Translator.Translator.XfDimension | src/translator.cpp:223-240 | translates as `XfDim` |
| Translator.Translator.XfDimensions | src/translator.cpp:219-254 | translates as `XfDims` |
| Translator.Translator.XfType | src/translator.cpp:199-357 | translates as `XfTypeOf` |
| Translator.Translator.XfExprStmt | src/translator.cpp:1272-1280 | the expression's temporaries come first, then the statement; a failure appends the statement of nothing |
| Translator.Translator.XfReturn | src/translator.cpp:1290-1307 | returns `__retv` in a function and nothing in a subroutine; outside a procedure the assertion fails |
| Translator.Translator.XfOpen | src/translator.cpp:1378-1397 | adds the file-IO header, then calls `ftc__open_file` on the translated unit and file name |
| Translator.Translator.XfClose | src/translator.cpp:1399-1417 | calls `ftc__close_file` on the translated unit, then adds the file-IO header |
| Lowering.ItemXf | src/translator.cpp:1358-1360 | one item's translation, with `xf_format`'s conversion, only adds temporaries and includes to the state (`Extends`) |
| Translator.Translator.XfItem | src/translator.cpp:1358-1360 | one item: the format error of an item without a conversion, else the item translated (its address for READ), as `ItemXf` |
| Translator.Translator.XfItemList | src/translator.cpp:1357-1361 | translates as `XfItems` |
| Translator.Translator.XfNextItem | src/translator.cpp:1357-1361 | one pass of the item loop extends the format and arguments as `XfItems` does for one more item, or ends the list with that item's error |
| Translator.Translator.XfPrint | src/translator.cpp:1346-1376 | a non-`*` format fails the assertion; otherwise `printf` gets the format and the items, and `stdio.h` is included |
| Translator.Translator.XfRead | src/translator.cpp:1419-1466 | a non-`*` format fails the assertion; otherwise `fscanf` gets the unit's stream, the format and the item pointers, and both headers are included |
| Translator.Translator.Declare | src/translator.cpp:1078-1081 | the declaration is appended and its name bound in the innermost scope |
| Translator.VarXf | src/translator.cpp:1043-1081 | an argument of the enclosing procedure is skipped and changes nothing. Otherwise the variable's declaration comes last among the state's declarations, with its name and an initial value exactly when it has one, and its name is bound to that declaration's type and layout in the scope and in the context |
| Translator.VarsXf | src/translator.cpp:1042-1082 | the names bound after a declaration statement are those bound before plus exactly its variables that are not arguments |
| Translator.VarsOtherInitFails | src/translator.cpp:1069-1072 | a variable that is not an argument and whose initializer is not an assignment fails the whole statement, wherever it stands |
| Translator.VarOtherInitFails | src/translator.cpp:1069-1072 | one variable that is not an argument and whose initializer is not an assignment fails |
| Translator.Translator.XfVarInit | src/translator.cpp:1067-1073 | no initializer gives none; an initializer that is not an assignment fails the assertion; otherwise its value is translated, as `InitXf` |
| Translator.Translator.XfVar | src/translator.cpp:1043-1081 | as `VarXf`: an argument is skipped; otherwise the initial value is translated, then the type (`XfTypeOf`), and the variable is declared with that C type, initial value and array layout and bound in the innermost scope; an error leaves the state of the translation that failed |
| Translator.Translator.XfVarNext | src/translator.cpp:1042-1082 | one pass of the variable loop advances `VarsXf` by one variable, or ends the statement with that variable's error |
| Translator.Translator.XfVarDecl | src/translator.cpp:1034-1083 | the variables in order, as `VarsXf`, each from the state, context and symbols the ones before it leave; exactly the non-argument names are bound; a non-assignment initialiser anywhere fails the statement |
| Translator.ParamXf | src/translator.cpp:979-1003 | a translated argument keeps its name, and only an argument with a recorded intent translates |
| Translator.ParamsXf | src/translator.cpp:977-1003 | one C parameter per argument, in order and with the argument's name |
| Translator.ParamsStop | src/translator.cpp:977-1003 | the first argument that fails ends the parameter list with its error |
| Translator.ParamsPrefix | src/translator.cpp:977-1003 | when the whole list translates, each prefix translates to the first parameters of the whole |
| Translator.ParamsFit | src/translator.cpp:979-1003 | each parameter the loop builds is a pointer unless its intent is `in`, with the argument's lowered type and array layout, as `ParamFits` says |
| Translator.Translator.XfParam | src/translator.cpp:979-1003 | as `ParamXf`: the argument's type is translated as a parameter's (`XfTypeOf`), then a missing intent fails the assertion; the parameter is that type, made a pointer unless the intent is `in`, with the array layout. A scalar gets the lowered type |
| Translator.Translator.XfParams | src/translator.cpp:977-1003 | translates as `ParamsXf`, the state threaded through the arguments in order; each parameter fits its argument as `ParamFits` says |
| Translator.Translator.XfParamNext | src/translator.cpp:979-1003 | one pass of the argument loop advances `ParamsXf` by one argument, or ends the list with that argument's error and state |
| Translator.Translator.XfFnHead | src/translator.cpp:975-1009 | the parameters are those of `ParamsXf` under the intents the scan records, and a function's return type is the result type translated by `XfTypeOf` in the state the parameters leave; a subroutine returns `void` |
| Translator.Translator.XfBlock | src/translator.cpp:939-959 | a block is translated in a scope of its own, which is removed again; the scope's leading statements stay in front; the nodes it translates are exactly those the sync walk acts on, in order (`ActedOf(XfDirective, ..)`) |
| Translator.Translator.XfResult | src/translator.cpp:1005-1009 | a subroutine returns `void` and changes nothing; a function returns its result type as `XfTypeOf` translates it, with that translation's state |
| Translator.Translator.XfFnDecl | src/translator.cpp:963-1029 | appends one function definition with the procedure's name and the parameters of `ParamsXf`, returning `void` for a subroutine and otherwise the type `XfTypeOf` gives the result, with a body that starts by declaring `__retv` of that type; in that body the nodes it translates are exactly those the sync walk acts on, in order (`ActedOf(XfDirective, ..)`) |
| Translator.CopyXf | src/translator.cpp:1111-1119 | the copy is a declaration of the given name with an initial value and no layout, after the expression's temporaries; a scalar copy has the lowered type of the expression's Fortran type |
| Translator.Translator.Copy | src/translator.cpp:1111-1119 | a fresh `__fbound`/`__fstep` name is taken from the counter; as `CopyXf`, its C type is the expression's type translated, and it is declared last with the translated expression as its value |
| Translator.Translator.CopyAs | src/translator.cpp:1113-1119 | under a name already taken, the expression's type is translated and the expression declared into the name, exactly as `CopyXf` builds the copy and its state |
| Translator.Translator.DeclareCopy | src/translator.cpp:1114-1119 | the expression is translated as `XfE`; its temporaries come first, then the declaration of the name with the given C type and the translated expression as its initial value; a failure leaves the translation's state |
| Translator.Translator.XfDoInit | src/translator.cpp:1094-1107 | a start that is not an assignment throws the source's message; otherwise the translated assignment, whose target is a variable, is emitted after its temporaries |
| Translator.Translator.XfDoBound | src/translator.cpp:1111-1119 | the bound is copied into `__fbound`, named from the counter, as `CopyXf` builds it from the bound's Fortran type and expression (`DoStart`) |
| Translator.DoStartLater | src/translator.cpp:1111-1162 | the start assignment and bound copy stay in place when more statements follow |
| Translator.Translator.XfDoStep | src/translator.cpp:1129-1162 | `__fdir`, named from the next counter value, is declared as `counter <= bound`; then the step is copied into `__fstep`, named from the following value, as `CopyXf` builds it from the bound's Fortran type and the step expression (`DoStep`) |
| Translator.Translator.XfDoHead | src/translator.cpp:1111-1166 | emits the bound copy and, with a step, the direction and then the step copy, each as `CopyXf` builds it, and returns the test and the update over them (`DoHead`) |
| Translator.Translator.XfDoFront | src/translator.cpp:1094-1166 | the start assignment is the translated initialization, followed by the bound copy and, with a step, the direction and the step copy, as `DoHead` states; the loop test and update built over them are returned |
| Translator.Translator.XfDo | src/translator.cpp:1087-1173 | a DO loop whose start is not an assignment fails. Otherwise it becomes its start assignment, the copies as `DoHead` states, and a `for` with `DoTest` and `DoUpdate` over those copies; in the loop body the nodes it translates are exactly those the sync walk acts on, in order (`ActedOf(XfDirective, ..)`) |
| Translator.Translator.XfIf | src/translator.cpp:1309-1344 | the condition's temporaries, then an `if` on it, with an else branch exactly when the source has one; in each branch the nodes it translates are exactly those the sync walk acts on, in order (`ActedOf(XfDirective, ..)`) |
| Translator.Translator.XfTree | src/translator.cpp:1210-1258 | the translator acts on exactly the nodes the sync walk does, and an unhandled node throws; every module and use it records belongs to the current file |
| Translator.Translator.XfStmt | src/translator.cpp:1242-1466 | a handled statement leaves the scope stack as it was, only appending statements; every module and use it records belongs to the current file |
| Translator.Translator.XfIo | src/translator.cpp:1272-1466 | the I/O statements and the expression statement leave the scope stack as it was and only append |
| Translator.Translator.XfTrees | src/translator.cpp:1210-1474 | a sequence of nodes is walked as the sync walk does |
| Translator.Translator.XfFile | src/translator.cpp:1479-1542 | a non-Fortran file and a name without '.' are rejected, leaving state unchanged. Otherwise the output is the name with ".c", and the translator acts on the nodes the sync walk does. The C file gets the collected headers and `math.h`, after which the header set is cleared. New modules and uses belong to this file |
| Header.TopDecls | src/translator.cpp:1562-1635 | only variable and function declarations are collected |
| Header.TopDecl | src/translator.cpp:1562-1635 | a statement contributes only declarations: itself when it is one, the declarations of its body when it is the global scope |
| Header.Redeclare | src/translator.cpp:1574-1633 | a variable becomes an `extern` declaration of the same type, a function a prototype with the same name, return type and parameters |
| Header.Unattributed | src/translator.cpp:1613-1621 | the prototype's parameters keep names and types only |
| Header.GenActsOnTopDecls | src/translator.cpp:1562-1639 | the header walk acts on exactly the top-level declarations, skipping function bodies and blocks |
| Header.GenActsOnTopDecl | src/translator.cpp:1562-1639 | the same for one statement |
| Header.SkipBlocks | src/translator.cpp:1569-1572 | basic blocks contribute nothing to the header |
| Header.GenHeader | src/translator.cpp:1644-1696 | the header is named after the C file with ".h", and re-declares each top-level declaration in order |
| FileIo.Find | ftc_file_io.c:13-14 | the search finds the first node with the id, and nothing exactly when no node has it |
| FileIo.FindAt | ftc_file_io.c:13-14 | the first node with the id is the one found |
| FileIo.FileTable.constructor | ftc_file_io.c:10 | the table starts empty |
| FileIo.FileTable.GetFile | ftc_file_io.c:12-18 | the stream of the first node with the id, NULL if none |
| FileIo.FileTable.OpenFile | ftc_file_io.c:20-34 | an open id has its stream closed and replaced; a new id is pushed at the head |
| FileIo.FileTable.CloseFile | ftc_file_io.c:36-47 | the id's node is unlinked and its stream closed; an unknown id changes nothing |
| FileIo.GetAfterOpen | ftc_file_io.c:20-34 | after opening, the id yields the new stream |
| FileIo.OpenLeavesOthers | ftc_file_io.c:20-34 | opening one id leaves every other id's stream as it was |
| FileIo.OpenSize | ftc_file_io.c:20-34 | reopening keeps the size; a new id adds one node at the head |
| FileIo.OpenKeepsUnique | ftc_file_io.c:20-34 | ids stay unique |
| FileIo.CloseRemovesOne | ftc_file_io.c:36-47 | closing removes exactly the first node with the id |
| FileIo.CloseKeepsUnique | ftc_file_io.c:36-47 | ids stay unique, and a closed id yields NULL |
| FileIo.CloseLeavesOthers | ftc_file_io.c:36-47 | closing one id leaves every other id's stream as it was |
| Driver.Inputs | src/main.cpp:88-101 | every listed position is that of a project file |
| Driver.InputsExact | src/main.cpp:39-55 | the input positions are exactly those of files whose command line starts with the program name, in increasing order |
| Driver.CollectInputs | src/main.cpp:88-97 | collects the global scope of every input file, in order |
| Driver.TranslateOne | src/main.cpp:115-121 | the C file of an input belongs to that input, named after it; the modules and uses recorded all belong to input files; a file that is not Fortran fails with `MsgNotFortran`, and a Fortran file whose name has no `.` ends the run (`OutOfRange`: `erase` at `npos` throws `std::out_of_range`) |
| Driver.TranslateFiles | src/main.cpp:99-132 | translates the input files in order, one outcome each (`Outcomes`). The C files are the successful outcomes and the log holds `ERROR: ` and the message of each failed one, both in order. The run ends early exactly when the last outcome is an abort, and no abort comes before it; it ends with that abort's reason. Otherwise there is one outcome per input, so the C files and the error lines together number the inputs |
| Driver.LinkPrefix | src/main.cpp:143-158 | the link loop includes, for each use up to the first it cannot handle, the header named after the defining module's C file; the use it stops at names an unknown module or a C file name without a `.` |
| Driver.LinkModules | src/main.cpp:143-158 | succeeds exactly when every used module is known, and then includes, in each using file, the header named after the module's C file; otherwise it aborts with `AssertModule`, or with `OutOfRange` only when a module's C file name has no `.` |
| Driver.LinksNameModuleHeaders | src/main.cpp:143-153 | the header a use includes is the defining Fortran file's name with ".h" |
| Driver.LinksOfInputs | src/main.cpp:143-153 | every module include links an input file to the header of an input file |
| Driver.HeaderNames | src/main.cpp:166-195 | each translated file's header is its Fortran file's name with ".h" |
| Driver.GenHeaders | src/main.cpp:166-195 | one header per C file, named after it, with the re-declarations of its top-level declarations, and included by that file |
| Driver.InputsPrefix | src/main.cpp:99-101 | the inputs among a prefix of the files are a prefix of the inputs |
| Driver.OutcomesSnoc | src/main.cpp:101-131 | one more input's outcome extends the outcomes in input order, and adds its C file or its `ERROR: ` line to the ones before |
| Driver.UnknownModule | src/main.cpp:143-153 | modules defined by input files always have a C file name with a `.`, so linking fails only on a use of an unknown module |
| Driver.OutcomesSplit | src/main.cpp:115-131 | without an abort, each outcome contributes exactly one C file or one error line |
| Driver.Finish | src/main.cpp:142-198 | an unknown module aborts the run with `AssertModule`. Otherwise the run completes: first one include per recorded use, in order, naming the defining file's header; then each file's include of its own header. Each header re-declares its file's top-level declarations |
| Driver.Run | src/main.cpp:22-205 | no arguments prints "nothing to be done." and exits 0. No project exits 1. Otherwise there is one C file or error line per input, and the exit code is 0 exactly when there is no error. Each C file gets a header named after its Fortran file that re-declares its top-level declarations. Every module include joins two input files. The log is the `ERROR: ` lines of the per-file outcomes (`ErrorLog`). The run aborts with a file's reason exactly when that file's translation aborted. Otherwise every input has an outcome, and the run aborts (with `AssertModule`) exactly when a recorded use names an unknown module; if it completes, its C files are the successful outcomes and its links are one module include per use, in order |

## Left out

- ROSE itself is not modelled: parsing, unparsing, `buildFile` and the trees it builds. The Fortran and C trees are datatypes; `frontend` is the `project` parameter of `Driver.Run`.
- The types ROSE infers for expressions are not modelled. They are parameters: `typeOf` (C) and `ftypeOf` (Fortran).
- Floating-point values are not modelled: literals are kept as text, and the minus fold on float literals is the `Neg` node.
- Integer widths are not modelled: integer literals and folds are unbounded.
- C++ undefined behaviour has no outcome of its own. An argument past the callee's recorded intents (translator.cpp:781) ends the run with `Abort(UbIntents)`. A subscript past an array's recorded lower bounds or strides (translator.cpp:510, 521) ends it with `Abort(UbSubscripts)`. A file whose command line `cmdl` is empty (`cmdl[0]`, main.cpp:47) is not an input (`Driver.IsInputFile`).
- Driver.CollectInputs: `input_globals` is computed but nothing reads it, as in the source.
- Include order and the system/quote flag of `insertHeader` are not modelled: headers are a set of names.
- `fopen` modes are not modelled: the file table takes the opened stream as a parameter.
- The lookup of the `FTC` environment variable (`getFTCVar`, translator.cpp:26-31), its throw when the variable is unset, and the dummy Fortran file path built from it are not modelled.
- Output under `DEBUG` and the node-name line printed before a throw are not modelled.
- Output for failed files: the source unparses the partly built C file of a file whose translation threw; the model produces no C file for it.
- Scope-stack residue: when a throw escapes, the source leaves the scope stack as it was. The model starts each file with a fresh global scope.
- Generated names: the source declares `__argN`, `__fbound`, `__fdir`, `__fstep` and `__retv` like any variable, so they enter the scope's symbol table. The model appends their declarations but does not bind them. No Fortran name begins with `_`, so no lookup in the translated program can tell the difference.
- Translator.Translator.XfBlock: the block's statements are stated through the walk (which nodes are translated, in order) and the statements kept in front. Its contract does not state, as one function from nodes to statements, what each translated node contributes.
- Translator.Translator.XfIf: the same for each branch: the walk over its nodes is stated, and the branch's statements are not given as a function of those nodes.
- Translator.Translator.XfDo: the same for the loop body: the walk over the DO body is stated. The `for` statement's body is a ghost result that is not given as a function of the nodes.
- Translator.Translator.XfFnDecl: the same for the function body after the `__retv` declaration.
- Translator.Translator.XfFnDecl: the function definition is appended after its body has been translated. The source appends it before, so in the model a call to the function inside its own body cannot see its C declaration.
- FileIo.FileTable.OpenFile and FileIo.FileTable.CloseFile: a stream left NULL by a failed `fopen` is later handed to `fclose`, which is undefined in C. The model records it as an ordinary close of `None`.
- Driver.Run: requires at least one command-line word, the program name, as every `main` receives.
- The `#pragma once` line that `xf_gen_header` attaches to each header as raw text is not modelled: `Header.GenHeader` yields the header's name and declarations only.
- `xf_gen_header` throws only for a file whose output language is not C. Every file the translator builds is C, so `Header.GenHeader` is total.
- `xf_get_fn_decl` searches only the file of the call, not the other input files. The model passes the current file's tree (`fortran`).
- XfExpr.XfE: its own contract states only the frame (temporaries and headers only grow). What a translation computes is stated by the lemmas `ArithPreserved`, `TempsFresh` and the `Linearize` lemmas.

## Findings

| source | as written | input that shows it | evidently intended | confidence | as-written member | corrected member |
|---|---|---|---|---|---|---|
| src/translator.cpp:823-830 | when any argument needs a temporary, a by-reference argument that is a plain variable is copied into `__argN` and that copy is passed by value | `call s(x, 1+2)` with both parameters `intent(out)` | pass `&x`, so that the callee writes to `x` | not executed | CallArgs.ValueTempForReference | CallArgs.FixedPassesReferences |
| src/translator.cpp:1129-1135 | `__fdir` is `counter <= bound` at entry, so the direction follows the initial comparison rather than the sign of the step | `do i = 5, 1, 1` (and `do i = 5, 5, -1`) | zero iterations (one for the second), as in Fortran; direction from `__fstep > 0` | not executed | DoLoop.AsWrittenTripCount | DoLoop.FixedTripCount |
| src/translator.cpp:1183 | every integer item gets `%d` | `integer(kind=8) :: n` then `print *, n` | `%ld` for `long` (and `%hd`, `%hhd` for kinds 2 and 1) | not executed | Format.LongItemAsWritten | Format.FixedAgrees |
