# A verified model of a small compiler's checker and MIPS generator

The compiler takes a small statically typed teaching language through two
passes:

- Constants, variables, functions, `if`, `while` and `return`.
- The semantic visitor infers a type for every expression and counts type
  errors. It keeps a stack of scopes (`SymbolTable.py`).
- The assembly visitor lowers the tree to MIPS text. It keeps a second stack
  of scopes with stack offsets (`AssemblyST.py`).
- The abstract syntax tree (`SintaxeAbstrata.py`) is the closed set of node
  kinds that both visitors dispatch on.

This project models those five files:

| file | source | form |
|---|---|---|
| `Ast.dfy` | `SintaxeAbstrata.py` | datatypes. `accept` becomes an exhaustive `match` in each pass. |
| `SymbolTable.dfy` | `SymbolTable.py` | class `Table` with a `frames: seq<Frame>` field. Lookups are specified by functions. |
| `AssemblyST.dfy` | `AssemblyST.py` | the same, plus the per-frame `sp` counter and slot offsets. Lemmas prove the slot discipline. |
| `Semantic.dfy` | `SemanticVisitor.py` | class `Checker` (the error counter plus the table). |
| `Assembly.dfy` | `AssemblyVisitor.py` | class `Generator` (`text`, `funcs`, `data`, label counters, the table). |
| `AssemblyFacts.dfy` | `AssemblyVisitor.py` | lemmas about what the generator emits. |
| `Numerals.dfy` | — | decimal rendering of numbers, as the f-strings print them. |
| `Mips.dfy` | — | an evaluator for the instructions used to lower operators. |
| `Ordering.dfy` | — | Python's string order and `sorted` on a set. |
| `Optional.dfy` | — | `Option`. |

**How each visitor is modelled.**

- Each visitor is a class whose methods walk the tree as the source does.
- Pure functions give the meaning of the same visit on a value:
  - `TypeExpr`, `CheckStmt`, `CheckBlock` and `CheckProgram` for the checker;
  - `ExprCode`, `GenStmt`, `GenIf`, `GenWhile`, `GenBlock`, `GenItem` and `GenProgram` for the generator.
- Every visitor method is proved to leave exactly the state these functions compute.
- The properties of the compiler are then lemmas about the functions.

**Properties proved.**

- Coercion is symmetric and widens numbers.
- A use of an undeclared name is always reported.
- A scope leaves no trace once popped.
- A function item leaves only its own binding behind.
- Each distinct parameter name gets its own slot: `-4`, `-8`, ... in the order of its first occurrence; a repeated name keeps the slot it first took.
- The arithmetic and comparison lowerings compute the operator's value on 32-bit words.
- `add` and `sub` trap on overflow.
- Every control-flow label the generator draws is fresh, and is defined at most once in the output.
- The data section lists each global once, in sorted order.
- Five end-to-end examples get the error counts the code produces.

## Model

| member | source | states |
|---|---|---|
| Ast.ParamNames | SintaxeAbstrata.py:70-98 | the names of a function's parameters, one per parameter, in declaration order |
| SymbolTable.Innermost | SymbolTable.py:63-68 | finds the last frame that binds the name, and no later frame binds it; `None` only when no frame binds it |
| SymbolTable.CurrentScope | SymbolTable.py:79-83 | `None` exactly on the empty stack, otherwise the tag of the last frame |
| SymbolTable.LookupIsInnermost | SymbolTable.py:63-76 | when frame `i` binds `n` and no later frame does, `getBindable` returns frame `i`'s binding and `getScope` returns its tag |
| SymbolTable.LookupAndScopeAgree | SymbolTable.py:63-76 | `getBindable` and `getScope` fail on the same names: exactly those no frame binds |
| SymbolTable.BeginScopeFacts | SymbolTable.py:32-42 | a pushed empty frame becomes the current scope, hides nothing, and `endScope` pops back to the old stack |
| SymbolTable.BindFacts | SymbolTable.py:45-60 | a write to the top frame keeps the depth, the lower frames and the current scope; the name resolves to the new binding in the current scope; every other name resolves as before |
| SymbolTable.ShadowingAndRestore | SymbolTable.py:32-68 | an inner binding shadows outer ones while its frame is on top; after the pop the name resolves as before, or not at all |
| SymbolTable.ScopeLeavesNoTrace | SymbolTable.py:32-60 | push, any run of declarations, pop: the stack and every lookup are as before |
| SymbolTable.BindAllKeepsLower | SymbolTable.py:45-60 | a run of declarations keeps the depth, the lower frames and the current scope |
| SymbolTable.BindAllOther | SymbolTable.py:45-76 | a run of declarations leaves every name it does not declare resolving as before, in the same scope |
| SymbolTable.BindAllLast | SymbolTable.py:45-76 | after a run of declarations, a declared name resolves to its last declaration, in the current scope |
| SymbolTable.Table.constructor | SymbolTable.py:1 | the table starts empty |
| SymbolTable.Table.BeginScope | SymbolTable.py:32-36 | appends an empty frame tagged with the scope name |
| SymbolTable.Table.EndScope | SymbolTable.py:39-42 | drops the last frame; an empty stack stays empty |
| SymbolTable.Table.AddVar | SymbolTable.py:45-48 | binds a variable of the given type and offset in the top frame, replacing any earlier entry |
| SymbolTable.Table.AddConst | SymbolTable.py:51-54 | binds a constant in the top frame |
| SymbolTable.Table.AddFunction | SymbolTable.py:57-60 | binds a function with its flattened parameter list and return type in the top frame |
| SymbolTable.Table.GetBindable | SymbolTable.py:63-68 | the backwards search returns the innermost binding, or `None` |
| SymbolTable.Table.GetScope | SymbolTable.py:71-76 | the backwards search returns the tag of the innermost binding frame, or `None` |
| SymbolTable.Table.GetCurrentScope | SymbolTable.py:79-83 | the tag of the last frame, or `None` on the empty stack |
| AssemblyST.Innermost | AssemblyST.py:72-77 | the last frame binding the name, and no later frame binds it; `None` only when none does |
| AssemblyST.CurrentScope | AssemblyST.py:88-92 | `None` exactly on the empty stack, otherwise the tag of the last frame |
| AssemblyST.DeclareSlot | AssemblyST.py:42-58 | a new name takes the slot 4 bytes below the counter and lowers it by 4; a re-declared name keeps its slot and the counter; the kind and type are replaced; the other names are untouched |
| AssemblyST.DeclarePreservesSlots | AssemblyST.py:42-58 | declarations keep the frame's slot discipline: the counter is -4 times the number of names, the slots lie between the counter and -4, and no two names share a slot |
| AssemblyST.FreshNameKeepsSlots | AssemblyST.py:44-46 | the new-name branch keeps the slot discipline |
| AssemblyST.KnownNameKeepsSlots | AssemblyST.py:47-48 | the re-declaration branch keeps the slot discipline |
| AssemblyST.DeclareAllSlots | AssemblyST.py:42-49 | the parameters declared into a fresh frame bind exactly their names as variables; the counter ends at -4 times the number of distinct names; the slot discipline holds |
| AssemblyST.DeclareAllSlotsStep | AssemblyST.py:42-49 | one more parameter keeps the slot discipline and the count of distinct names |
| AssemblyST.DeclareAllKeys | AssemblyST.py:42-49 | the same run binds exactly its names and counts them |
| AssemblyST.DistinctParamOffsets | AssemblyST.py:42-49 | with no repeated name, the i-th parameter sits at offset -4*(i+1) |
| AssemblyST.DistinctElems | AssemblyST.py:42-49 | a list of distinct names has as many elements as names (used for the offsets above) |
| AssemblyST.FirstOccurrencesFacts | AssemblyST.py:42-49 | the parameter names in order of first occurrence hold every name once and no name twice |
| AssemblyST.ParamOffsetsInOrder | AssemblyST.py:42-49 | with repeated names allowed, the k-th distinct name by first occurrence sits at offset -4*(k+1) |
| AssemblyST.AddSpFacts | AssemblyST.py:65-70 | `addSP` moves only the top counter, successive moves add up, a move by 0 changes nothing, and no lookup changes |
| AssemblyST.Table.constructor | AssemblyST.py:3 | the table starts empty |
| AssemblyST.Table.BeginScope | AssemblyST.py:30-35 | appends a frame with the scope name and counter 0 |
| AssemblyST.Table.EndScope | AssemblyST.py:37-40 | drops the last frame; an empty stack stays empty |
| AssemblyST.Table.AddVar | AssemblyST.py:42-49 | declares a variable in the top frame with the slot rule of `DeclareIn` |
| AssemblyST.Table.AddConst | AssemblyST.py:51-58 | declares a constant with the same slot rule |
| AssemblyST.Table.AddFunction | AssemblyST.py:60-63 | binds a function in the top frame and leaves the counter alone |
| AssemblyST.Table.AddSP | AssemblyST.py:65-67 | adds the value to the top frame's counter |
| AssemblyST.Table.GetSP | AssemblyST.py:69-70 | the top frame's counter |
| AssemblyST.Table.GetBindable | AssemblyST.py:72-77 | the innermost binding, or `None` |
| AssemblyST.Table.GetScope | AssemblyST.py:79-86 | without a name, the current tag; with a name, the tag of the innermost frame binding it, or the current tag when none does |
| AssemblyST.Table.GetCurrentScope | AssemblyST.py:88-92 | `None` exactly on the empty stack, otherwise the tag of the last frame |
| Semantic.Coercion | SemanticVisitor.py:6-18 | defined exactly when both types are known and equal or both numeric; the result is one of the two; two numbers meet at `int` only when both are `int` |
| Semantic.CoercionSymmetric | SemanticVisitor.py:6-18 | coercion does not depend on argument order |
| Semantic.LitType | SemanticVisitor.py:207-219 | a literal is `bool` exactly for booleans (tested before `int`) and `int` exactly for integers |
| Semantic.ExpectedTypes | SemanticVisitor.py:254-265 | `paramsList[1::2]`: half as many entries, the k-th being element 2k+1 |
| Semantic.Mismatches | SemanticVisitor.py:270-276 | at most one error per argument; zero exactly when no argument has a known, different, incoercible type |
| Semantic.Types | SemanticVisitor.py:266-268 | the argument types, position by position |
| Semantic.TypeArgs | SemanticVisitor.py:266-268 | the visits of the arguments, left to right, each on the same stack |
| Semantic.UndeclaredIsReported | SemanticVisitor.py:221-242 | an expression that mentions a name no frame binds counts at least one error |
| Semantic.ErrorSumPositive | SemanticVisitor.py:266-268 | one argument with an error makes the sum of the argument errors positive |
| Semantic.TypeExprDependsOnMentionedNames | SemanticVisitor.py:157-278 | the type and error count of an expression depend only on how its mentioned names resolve |
| Semantic.CheckDecl | SemanticVisitor.py:33-63 | a declaration keeps the stack's depth, lower frames and current scope |
| Semantic.DeclFacts | SemanticVisitor.py:33-63 | an annotated declaration binds the annotation and counts one error exactly when the value's type is known, differs and does not coerce; an unannotated one binds the inferred type; the kind matches; other names keep their meaning |
| Semantic.CheckStmt | SemanticVisitor.py:85-155 | any statement keeps the stack's depth, lower frames and current scope |
| Semantic.CheckBlock | SemanticVisitor.py:85-87 | so does a block, which opens no scope |
| Semantic.CheckBlockSnoc | SemanticVisitor.py:85-87 | a block is its prefix followed by its last statement, on the stack the prefix left |
| Semantic.Flatten | SemanticVisitor.py:66-69 | `[name, type, ...]`: twice as long, names at even and types at odd positions |
| Semantic.ParamDecls | SemanticVisitor.py:76-77 | one declaration per parameter, in order: its name bound to a variable of its declared type with no offset |
| Semantic.BodyFramesBindsParam | SemanticVisitor.py:71-77 | in the body, a parameter resolves in the function's own scope to a variable of its declared type; of two parameters with one name the later wins |
| Semantic.BodyFramesOtherNames | SemanticVisitor.py:71-77 | in the body, any other name resolves as before the function, except the function's own name, which resolves to its new binding in the enclosing scope |
| Semantic.BodyFrames | SemanticVisitor.py:71-77 | the body's stack is one frame deeper, below it the caller's stack with the function bound, and its current scope is the function |
| Semantic.FunctionLeavesOnlyItsBinding | SemanticVisitor.py:65-80 | after a function item the stack is the caller's plus the function's binding; no other name changes meaning |
| Semantic.CheckProgram | SemanticVisitor.py:29-31 | the items keep the depth of the stack |
| Semantic.CheckProgramSnoc | SemanticVisitor.py:29-31 | a program is its prefix followed by its last item |
| Semantic.CheckProgramStep | SemanticVisitor.py:29-31 | checking one more item continues from the stack and count the prefix left |
| Semantic.AssignOutcomes | SemanticVisitor.py:92-113 | undeclared target: one error; constant target: one error; otherwise one error exactly when both types are known, differ and are not both numbers; the stack never changes |
| Semantic.ConditionMustBeBool | SemanticVisitor.py:136-155 | `if` and `while` count the condition's errors, one more when its type is not exactly `bool` (unknown included), then every error of the body, and of the else branch on the stack the then branch left |
| Semantic.ReturnOutcomes | SemanticVisitor.py:115-134 | `return` keeps the stack; a bare `return` is `void`; at most one error of its own, counted exactly when the current scope names a function whose return type differs from the value's and the two are not both numbers |
| Semantic.BinaryTyping | SemanticVisitor.py:157-189 | comparisons are `bool`, arithmetic has the operands' meeting type (float when either side is), both count one error when the operand types do not meet; `and`/`or` are `bool` and count one error unless both sides are `bool`; other operators count nothing |
| Semantic.UnaryTyping | SemanticVisitor.py:191-204 | `!` is `bool` with one error unless its operand is `bool`; `-`/`+` keep the type with one error unless it is a number; others pass the operand through |
| Semantic.CallOutcomes | SemanticVisitor.py:231-278 | undeclared or non-function callee: untyped, one error; `print`: `void`, one error unless exactly one argument, whose errors count; wrong arity: the return type, one error, arguments unvisited; otherwise the return type, the arguments' errors plus one per clashing argument |
| Semantic.ClashingArgument | SemanticVisitor.py:270-276 | argument `k` clashes exactly when its type is known, differs from element `2k+1` of the parameter list and the two are not both numbers |
| Semantic.MismatchesCountsClashes | SemanticVisitor.py:270-276 | the mismatch loop's count is the number of clashing positions |
| Semantic.ProgramKeepsOtherNames | SemanticVisitor.py:29-31 | after a program, every name no item declares resolves as before: no function's scope survives |
| Semantic.InitialFrames | SemanticVisitor.py:22-27 | one frame, the current scope `global` |
| Semantic.ExampleIncompatibleConstant | SemanticVisitor.py:33-47 | `const x: int = 10; const y: bool = x;` counts exactly one error |
| Semantic.ExampleUndeclaredReturn | SemanticVisitor.py:115-134 | `fn main() void { return z; }` counts two errors: the undeclared use and the unknown return type |
| Semantic.ExampleAddIsClean | SemanticVisitor.py:65-80 | `fn add(a: int, b: int) int { return a + b; }` counts no error and leaves only its binding |
| Semantic.AddScope | SemanticVisitor.py:71-77 | inside `add`, `a` and `b` are `int` variables and `add` is the function itself |
| Semantic.AddBodyClean | SemanticVisitor.py:115-134 | `return a + b;` in `add` counts no error |
| Semantic.ExampleAddProgram | SemanticVisitor.py:29-31 | the program holding only `add` counts no error and binds `add` |
| Semantic.ExampleShortCall | SemanticVisitor.py:253-262 | `var c: int = add(1);` inside `main` counts one arity error |
| Semantic.ShortCallScope | SemanticVisitor.py:231-242 | inside `main` after `add`, the callee `add` resolves to its declaration |
| Semantic.ExampleArity | SemanticVisitor.py:253-262 | the arity example program counts exactly one error |
| Semantic.CleanMainScope | SemanticVisitor.py:71-77 | in the well-typed example's `main`, `x`, `y` and `main` resolve to their declarations |
| Semantic.ExampleCleanMain | SemanticVisitor.py:136-146 | the well-typed example's `main`, with its `if`/`else`, counts no error |
| Semantic.CleanIfIsClean | SemanticVisitor.py:136-146 | the example's `if`/`else` counts no error and leaves the stack unchanged |
| Semantic.CleanMainBody | SemanticVisitor.py:85-87 | the example's `main` body, the `if` then `return;`, counts no error |
| Semantic.ExampleDeclsXY | SemanticVisitor.py:33-63 | `const x: int = 10; var y: int = 5;` counts no error and binds both |
| Semantic.ExampleWellTyped | SemanticVisitor.py:29-31 | the whole well-typed example counts no error |
| Semantic.Checker.constructor | SemanticVisitor.py:22-27 | opens `global` and registers `print` with error count 0 |
| Semantic.Checker.GetNErrors | SemanticVisitor.py:280-281 | the error count |
| Semantic.Checker.VisitExpr | SemanticVisitor.py:157-229 | returns the type `TypeExpr` gives and adds its errors to the count |
| Semantic.Checker.VisitFunctionCall | SemanticVisitor.py:231-278 | the same for a call: callee, `print`, arity, then argument types |
| Semantic.Checker.VisitArgs | SemanticVisitor.py:266-268 | the loop visits every argument and keeps its type |
| Semantic.Checker.CountMismatches | SemanticVisitor.py:270-276 | the loop adds one error per known, incoercible argument type |
| Semantic.Checker.VisitDecl | SemanticVisitor.py:33-63 | leaves the stack and count `CheckDecl` gives |
| Semantic.Checker.VisitStmt | SemanticVisitor.py:89-155 | leaves the stack and count `CheckStmt` gives |
| Semantic.Checker.VisitBlock | SemanticVisitor.py:85-87 | leaves the stack and count `CheckBlock` gives |
| Semantic.Checker.VisitFunction | SemanticVisitor.py:65-80 | leaves the stack and count `CheckItem` gives |
| Semantic.Checker.ParamList | SemanticVisitor.py:66-69 | builds `Flatten` of the parameters |
| Semantic.Checker.DeclareParams | SemanticVisitor.py:76-77 | binds every parameter as a variable, in order |
| Semantic.Checker.VisitItem | SemanticVisitor.py:29-31 | dispatches an item and agrees with `CheckItem` |
| Semantic.Checker.VisitProgram | SemanticVisitor.py:29-31 | leaves the stack and count `CheckProgram` gives |
| Numerals.NatToString | AssemblyVisitor.py:21-26 | non-empty decimal digits with no leading zero |
| Numerals.NatToStringRoundTrip | AssemblyVisitor.py:21-26 | reading back the digits gives the number |
| Numerals.ValueOfSnoc | AssemblyVisitor.py:21-26 | one more digit at the end multiplies the value by ten and adds the digit |
| Numerals.NatToStringInjective | AssemblyVisitor.py:21-26 | different numbers render differently |
| Numerals.IntToString | AssemblyVisitor.py:54 | a minus sign exactly for negative numbers, then the digits of the magnitude |
| Numerals.IntToStringInjective | AssemblyVisitor.py:54 | different offsets render differently |
| Assembly.LabelInjective | AssemblyVisitor.py:21-26 | a label determines its base and its number |
| Assembly.NewLabelFresh | AssemblyVisitor.py:21-26 | `novo_rotulo` returns the base with its current count, raises only that count, and the label was never issued before |
| Assembly.NextLabelUnissued | AssemblyVisitor.py:21-26 | the label a base's current count names has not been issued yet |
| Assembly.IssuedAfterNewLabel | AssemblyVisitor.py:21-26 | raising a base's count issues exactly one new label: the one just returned |
| Assembly.SiblingIfLabels | AssemblyVisitor.py:107-110 | two sibling `if`s draw `else_0`/`fim_if_0`, then `else_1`/`fim_if_1` |
| Assembly.Truncate | AssemblyVisitor.py:196-197 | `int(value)` of a float keeps the sign and drops the fraction |
| Assembly.ArithmeticCodeComputes | AssemblyVisitor.py:150-162 | `+ - * / %` leave the operator's value in `$v0` whenever it is a word, except `%` of the least word by -1 |
| Assembly.ComparisonCodeComputes | AssemblyVisitor.py:163-180 | the six comparisons leave 1 when they hold and 0 when they do not |
| Assembly.StrictComparisonComputes | AssemblyVisitor.py:163-166 | `<` and `>` are one `slt` that leaves 1 exactly when the comparison holds |
| Assembly.NonStrictComparisonComputes | AssemblyVisitor.py:167-174 | `<=` and `>=` are the flipped `slt` of the opposite strict comparison |
| Assembly.EqualityComputes | AssemblyVisitor.py:175-180 | `==` and `!=` test the difference against zero when it is a word |
| Assembly.AddTrapsOnOverflow | AssemblyVisitor.py:151-152 | a sum outside the word range traps |
| Assembly.EqualityTrapsOnOverflow | AssemblyVisitor.py:175-177 | `==` traps on the least word compared with 1 |
| Assembly.RemainderOfLeastWordUndefined | AssemblyVisitor.py:160-162 | `%` of the least word by -1 is 0, yet the emitted `div`/`mfhi` has no defined result |
| Assembly.UnaryCodeComputes | AssemblyVisitor.py:182-189 | `-` negates, `!` flips a boolean, `+` emits nothing |
| Assembly.AddSpReady | AssemblyVisitor.py:141-148 | moving the counter touches only the current frame's counter |
| Assembly.AddSpLookups | AssemblyVisitor.py:141-148 | moving the counter changes no lookup and no scope |
| Assembly.LocalIsNotFunction | AssemblyVisitor.py:211-218 | a name bound outside `global` frames is a variable or constant, so it has an offset |
| Assembly.NewLabelExtends | AssemblyVisitor.py:21-26 | drawing a label only raises counters |
| Assembly.DeclareReady | AssemblyVisitor.py:43-54 | `addVar`/`addConst` during a visit changes only the current frame, which then binds the name |
| Assembly.GenDecl | AssemblyVisitor.py:36-54 | a declaration changes only the current frame, keeps the labels and appends only; at top level it leaves `funcs` alone |
| Assembly.GenStmt | AssemblyVisitor.py:81-134 | a statement changes only the current frame, only appends code, only adds globals and only raises label counters |
| Assembly.GenAssign | AssemblyVisitor.py:88-98 | the same for an assignment, which draws no label and adds no global |
| Assembly.GenIf | AssemblyVisitor.py:107-123 | the same for an `if` |
| Assembly.GenWhile | AssemblyVisitor.py:125-134 | the same for a `while` |
| Assembly.GenBlock | AssemblyVisitor.py:81-83 | the same for a block |
| Assembly.ParamPairs | AssemblyVisitor.py:57-60 | `[name, ".word", ...]`, one pair per parameter |
| Assembly.BodyFrames | AssemblyVisitor.py:63-73 | the body's stack is the caller's with the function bound, plus one frame holding the parameters |
| Assembly.GenItem | AssemblyVisitor.py:56-76 | an item keeps the stack's depth and lower frames and only extends the output |
| Assembly.GenProgram | AssemblyVisitor.py:32-34 | a successful program keeps the stack's depth and only extends the output |
| Assembly.GenProgramFails | AssemblyVisitor.py:32-34 | once an item raises, the whole program raises |
| Assembly.BinaryCodeShape | AssemblyVisitor.py:136-180 | left value, push, right value, pop into `$t0`, operator |
| Assembly.CallCodeShape | AssemblyVisitor.py:220-240 | save `$ra`/`$fp`, store the arguments, `jal`, restore |
| Assembly.CallFrames | AssemblyVisitor.py:223-240 | after the arguments, the two counter corrections restore the stack exactly |
| Assembly.ArgStep | AssemblyVisitor.py:229-232 | each argument adds its code and a store one slot further down |
| Assembly.DataLines | AssemblyVisitor.py:247-248 | one directive per name, in the same order |
| Assembly.Generator.constructor | AssemblyVisitor.py:12-19 | opens `global`; `text` starts with `.text` and the frame-pointer set-up; no globals, no labels |
| Assembly.Generator.NovoRotulo | AssemblyVisitor.py:21-26 | returns the next label and raises its base's counter |
| Assembly.Generator.GetList | AssemblyVisitor.py:29-30 | chooses `text` exactly when the current scope is `global` |
| Assembly.Generator.Append | AssemblyVisitor.py:29-30 | appends to the chosen list, leaving the other alone |
| Assembly.Generator.VisitExpr | AssemblyVisitor.py:136-240 | appends `ExprCode` to the current list and leaves the stack as it was |
| Assembly.Generator.VisitBinaryExpr | AssemblyVisitor.py:136-180 | the same for a binary expression |
| Assembly.Generator.VisitIdentifier | AssemblyVisitor.py:211-218 | loads by name when bound globally, from its slot otherwise, nothing when unbound |
| Assembly.Generator.VisitFunctionCall | AssemblyVisitor.py:220-240 | appends the call sequence and restores the counter |
| Assembly.Generator.SaveFrame | AssemblyVisitor.py:222-227 | lowers the counter by 8, returns the lowered counter and appends the save of `$ra` and `$fp` |
| Assembly.Generator.RestoreFrame | AssemblyVisitor.py:233-240 | appends `jal` and the restore, and the two counter corrections give back the stack from before the call |
| Assembly.Generator.PushArgs | AssemblyVisitor.py:229-232 | the argument loop appends `ArgsCode` and lowers the counter 4 bytes per argument |
| Assembly.Generator.PushArg | AssemblyVisitor.py:229-232 | one turn of that loop |
| Assembly.Generator.VisitConstDecl | AssemblyVisitor.py:36-41 | leaves the state `GenDecl` gives |
| Assembly.Generator.VisitVarDecl | AssemblyVisitor.py:43-54 | leaves the state `GenDecl` gives |
| Assembly.Generator.VisitStmt | AssemblyVisitor.py:81-134 | leaves the state `GenStmt` gives |
| Assembly.Generator.VisitAssignStmt | AssemblyVisitor.py:88-98 | leaves the state `GenAssign` gives |
| Assembly.Generator.StoreAssigned | AssemblyVisitor.py:91-98 | declares a new target, then stores by name when the target is global and to its slot otherwise, completing `GenAssign` |
| Assembly.Generator.VisitReturnStmt | AssemblyVisitor.py:100-105 | appends the value's code, `move $sp, $fp` and `jr $ra` |
| Assembly.Generator.VisitIfStmt | AssemblyVisitor.py:107-123 | leaves the state `GenIf` gives |
| Assembly.Generator.VisitWhileStmt | AssemblyVisitor.py:125-134 | leaves the state `GenWhile` gives |
| Assembly.Generator.VisitBlock | AssemblyVisitor.py:81-83 | leaves the state `GenBlock` gives |
| Assembly.Generator.VisitFunction | AssemblyVisitor.py:56-76 | leaves the state `GenItem` gives |
| Assembly.Generator.ParamList | AssemblyVisitor.py:57-60 | builds `ParamPairs` |
| Assembly.Generator.OpenFunction | AssemblyVisitor.py:63-74 | binds the function, opens its scope, emits its label and frame set-up, and declares the parameters |
| Assembly.Generator.DeclareParams | AssemblyVisitor.py:70-72 | declares every parameter in order |
| Assembly.Generator.VisitItem | AssemblyVisitor.py:32-34 | leaves the state `GenItem` gives |
| Assembly.Generator.Raises | AssemblyVisitor.py:36-54 | detects exactly the declaration the visitor would crash on |
| Assembly.Generator.VisitProgram | AssemblyVisitor.py:32-34 | succeeds exactly when `GenProgram` does and then leaves its state |
| Assembly.Generator.GetCode | AssemblyVisitor.py:243-253 | the joined listing: data section, `text`, `j end`, `funcs`, exit |
| Assembly.Generator.DataDirectives | AssemblyVisitor.py:244-248 | the data section of the current globals |
| Assembly.AppendDataLines | AssemblyVisitor.py:247-248 | appends one directive per name |
| Ordering.StrLtIrreflexive | AssemblyVisitor.py:247 | no string sorts before itself |
| Ordering.StrLtTransitive | AssemblyVisitor.py:247 | the string order is transitive |
| Ordering.StrLtTotal | AssemblyVisitor.py:247 | any two different strings are ordered |
| Ordering.Listing | AssemblyVisitor.py:247 | `sorted(data)`: strictly increasing, the same elements, one per element |
| Ordering.SortedUnique | AssemblyVisitor.py:247 | a set has only one strictly increasing listing |
| Ordering.LeastOf | AssemblyVisitor.py:247 | the least element of a non-empty set |
| Ordering.SortedNames | AssemblyVisitor.py:247 | repeated selection of the least element yields `Listing` |
| Ordering.ListingStep | AssemblyVisitor.py:247 | appending the least remaining name keeps the listing sorted and accounts for every name |
| AssemblyFacts.ExprCodeIndented | AssemblyVisitor.py:136-240 | an expression's code is instructions only and defines no label |
| AssemblyFacts.BinaryIndented | AssemblyVisitor.py:136-180 | a binary expression adds only instructions around its operands' code |
| AssemblyFacts.CallIndented | AssemblyVisitor.py:220-240 | a call adds only instructions around its arguments' code |
| AssemblyFacts.ArgsCodeIndented | AssemblyVisitor.py:229-232 | the same for a call's arguments |
| AssemblyFacts.TwoLabels | AssemblyVisitor.py:109-110 | drawing labels of two bases defines nothing and makes exactly those two fresh |
| AssemblyFacts.StmtDefinesFresh | AssemblyVisitor.py:81-134 | every label a statement defines was drawn during it, and none is defined twice |
| AssemblyFacts.AssignDefinesFresh | AssemblyVisitor.py:88-98 | an assignment defines no label |
| AssemblyFacts.ReturnDefinesFresh | AssemblyVisitor.py:100-105 | a `return` defines no label |
| AssemblyFacts.DeclDefinesFresh | AssemblyVisitor.py:36-54 | a declaration defines no label |
| AssemblyFacts.BlockDefinesFresh | AssemblyVisitor.py:81-83 | a block defines only labels it drew, each at most once |
| AssemblyFacts.NotRedefined | AssemblyVisitor.py:21-26 | code that defines only labels drawn during it cannot define a label issued before it |
| AssemblyFacts.IfDefinesFresh | AssemblyVisitor.py:107-123 | an `if` defines only labels drawn during it, none twice; its `fim_if` label exactly once; its `else` label once with an else branch and not at all without |
| AssemblyFacts.WhileDefinesFresh | AssemblyVisitor.py:125-134 | a `while` defines only labels drawn during it, none twice, and its own `while` and `fim_while` labels exactly once each |
| AssemblyFacts.ItemDefines | AssemblyVisitor.py:56-76 | a function item defines its entry label; beyond that one line it defines only labels drawn inside it, each at most once; a declaration defines none |
| AssemblyFacts.PrologueDefines | AssemblyVisitor.py:66-74 | a function's prologue defines exactly its name as a label and draws no label |
| AssemblyFacts.ProgramDefines | AssemblyVisitor.py:32-34 | a whole program defines every function's entry label; beyond one entry line per function item it defines only labels drawn during the visit, each at most once |
| AssemblyFacts.DeclLowering | AssemblyVisitor.py:36-54 | the counter and slot a declaration gets; constants and top-level variables join `data` and are stored by name into `text`; locals are stored to their slot in `funcs` |
| AssemblyFacts.AssignUndeclared | AssemblyVisitor.py:88-98 | an undeclared target becomes a variable 4 bytes below the counter and is stored by name at top level, to that slot otherwise |
| AssemblyFacts.AssignDeclared | AssemblyVisitor.py:91-98 | a declared target leaves the stack alone and is stored by name when its binding is global, to its slot otherwise |
| AssemblyFacts.FunctionPrologue | AssemblyVisitor.py:56-76 | the frame is 4 bytes per distinct parameter; the label and prologue precede the body in `funcs`; afterwards only the function's binding is new |
| AssemblyFacts.FunctionFrames | AssemblyVisitor.py:56-76 | the body's counter is 4 bytes per distinct parameter; the body goes to `text` only for a function named `global`; afterwards the stack holds only the new binding |
| AssemblyFacts.DataLineInjective | AssemblyVisitor.py:248 | different globals get different directives |
| AssemblyFacts.DataSectionOnce | AssemblyVisitor.py:243-248 | no data section without globals; otherwise `.data` and one directive per global, each exactly once |

## Left out

**Front end and output**

- The lexer and parser (`lex.py`, `ExpressionLanguageLex.py`, `sintatico.py`) are not part of this model. The tree is the input.
- The pretty-printing visitor (`Visitor.py`) and the abstract visitor interface (`AbstractVisitor.py`) are not part of this model. Dispatch is a `match`.
- Diagnostic messages, `printTable`/`DEBUG` tracing and the `main` drivers are left out. They are console output only; the model keeps the error count.

**Tables and names**

- The symbol tables are module-level lists in the source. Here each is a `Table` object passed to its visitor, because Dafny has no mutable module state.
- A binding named `scope` (or `sp` in the generator) would overwrite a frame's bookkeeping entry in the source. Every table operation and visitor requires names to avoid these keys, so that collision is not modelled.

**The generator's crash path**

- The generator crashes with a `KeyError` when a declaration or an assignment reads the offset of a function binding.
  - At top level this is modelled as failure: `GenProgram` gives `None` and `VisitProgram` returns `false`.
  - The output the source emits before the crash is not modelled.
  - Inside a function body, the same case is excluded by precondition: `StmtReady` requires the current frame to hold no function bindings, as the source only binds functions in the global frame.

**Operator proofs: weaker than exact MIPS behaviour**

- Assembly.ComparisonCodeComputes: for `==` and `!=` it requires the difference to fit in a word, because the emitted `sub` traps otherwise. `EqualityTrapsOnOverflow` exhibits the trap.
- Assembly.EqualityComputes: the same requirement on the difference, for the same reason.
- Assembly.ArithmeticCodeComputes: it covers only results that fit in a word. An overflowing `add`/`sub` traps (`AddTrapsOnOverflow`). `mul` keeps the low word, and its overflow is not stated.
- Assembly.ArithmeticCodeComputes: it also leaves out `%` of the least word by -1. The remainder 0 is a word, but MIPS `div` gives no defined result when the quotient overflows, so the emitted code computes nothing there (`RemainderOfLeastWordUndefined`).
- Mips evaluates only the instructions used to lower operators. Loads, stores, jumps and calls are not executed, so the model states what text is emitted, not what the emitted program does.

**Values**

- Floating-point values are real numbers. `Truncate` models `int()`; no float arithmetic is modelled.

**`sorted`**

- `sorted(self.data)` is modelled by its result. `SortedNames` reaches it by repeated selection, not by Python's sorting algorithm.

**Behaviours kept as the code has them**

- `fn main() void { return z; }` counts two errors, not one: the undeclared `z`, and the `None` return type that fails the `void` check. The model follows the code (`ExampleUndeclaredReturn`).
- The frame-size instruction is emitted from the counter right after the parameters are declared, not patched after the body. Locals and temporaries in the body are therefore not counted in it, and the model emits it the same way.
- `visitConstDecl` stores into `text` even inside a function, and adds the name to `data`. The model does the same (`DeclLowering`).
- An `if` without `else` still draws an `else_n` label that it never defines. `IfDefinesFresh` states that count as zero; a block's nested labels are stated as "at most once", not "exactly once".
- AssemblyFacts.ItemDefines: does not promise that the entry label is defined only once. A function whose name has the form of a label its body draws (`while_0`, say) defines that line twice, and the source does nothing to prevent it.
- AssemblyFacts.ProgramDefines: does not promise each entry label once. Two function items with the same name both emit it, and neither pass rejects the repeat; the bound allows one entry line per function item.
- An assignment to an undeclared name is an error for the checker, but the generator silently declares the name. Both passes keep their own behaviour.
