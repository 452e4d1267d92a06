# Proofs about the hzcc C compiler

hzcc compiles a subset of C to JVM assembly. This project models four parts of
it in Dafny and proves what they are for.

**Code generation.** `Ast` has the trees the visitors see, `CSemantics` the
meaning C gives them (sections 6.5 and 6.8 of ISO/IEC 9899:2011, 32-bit wrapping
ints, arrays, calls with a trace), `Jvm` a step machine for the instructions
that are emitted (section 6.5 of the Java Virtual Machine Specification), whose
instructions `InstructionLaws` relates to each other. `Generator` holds the
visitors as methods of one class with the generator's state: output cache, three
context flags, pending comparison, return-name stack, scope stack with loop
count, label counter. Its methods are proved to emit what `CodeSpec` describes,
and `ExpressionSimulation`, `ConditionSimulation`, `StatementSimulation` and
`FunctionCorrectness` prove that this code does what `CSemantics` says.
`ExpressionLaws` and `StatementLaws` say what `CSemantics` comes to, without its
tables: that `x -= e` is `x = x - e`, that `/` truncates, that `for` is a
`while`, operator by operator. `CSemantics` keeps one object per name, as the
generator keeps one slot per name; `BlockScopes` has the scope rules of C
(section 6.2.1), and `ScopeAgreement` proves when the two mean the same.
`LabelManager` is about the loop counter, `LabelUniqueness` and `StackHeight`
prove the code well formed, `StackBound` proves the analyser's operand-stack
bound and when it is exact, `Folding` the compile-time arithmetic, and `Passes`
the optimiser. `Compiler` puts all of it together: the method `Compile` runs the
passes and the visitors, and what is then in the buffer is proved to do what C
says the function does.

The fragment (`CodeSpec.InFragment`): int scalars, local or global, and int
arrays; int literals, variables, arithmetic, unary minus, calls, element reads,
`= += -= *= /=`, `++`/`--` of scalars; statements made of assignments,
increments, calls, `if`/`else if`/`else`, `while`, `do`, `for`, `break`,
`continue` (not in `do`), `return`, blocks; initialisers of scalars, but not a
bare variable or element; local arrays without an initialiser, whose name no
global has; conditions without side effects other than calls inside operands,
each a relation, an arithmetic value, a variable or element, or a chain of one
logical operator (`||` only in `if`, `else if` and `do`); the code does not
support more. Constant subtrees are ones that are folded rightly
(`Folding.Safe`) to an int. For C's scope rules (`ScopeAgreement.TidyAll`) each
local name is declared once, at the top level of the function or in blocks
there, and used only behind its declaration and in its block. Integer division
by zero, an array index out of bounds, a read of an unset variable and a failing
callee are errors on both sides.

**Expression parser.** `Tokens` is the token list with its qualifier cache,
`Grammar` the grammar that the fourteen mutually recursive functions implement
(right grouping at every binary level, as in the code), `ParserSpec` the parser
as functions, `ParserCorrectness` its equivalence with the grammar,
`ExprPrinter` a printer and the round trip, `Precedence` how operators written
out as one ladder bind in input of any length, `ExprParser` the parser as
methods over the one mutable list.

**Status and StatusOr.** `StatusRefcount` is a machine of threads that copy,
assign, move, swap, modify and destroy status objects, interleaved at each
access to a shared counter; `StatusOr` has the union-based holder as a class
over a store of constructed values, and runs of its operations.

**Lexer and scopes.** `LexerSpec`, `LexerProperties` and `Lexer` have the line
lexer as functions, its properties, and as a class; `Lexemes` proves that what
is written, by character tables of its own, is what is lexed; `ScopeSpec` and
`SymbTbl` have the scope tree as values and as linked objects.

`dafny verify dfyconfig.toml` checks everything.

Where the code and its comments disagree, the code is followed. Examples that
the proofs bring out, each with its exact condition: a constant `%` is folded to
a quotient, and a constant division is done before narrowing
(`Folding.FoldingIsExact`); declarations of one name in two blocks share a slot
(`ScopeAgreement.InnerDeclaration`, `ScopeAgreement.LateDeclaration`); a local
array that shares its name with a global overwrites it
(`StatementSimulation.ArrayDeclExact`); a reset forgets the scopes but not the
loop count (`LabelManager.CounterIsRight`); `get_type` drops qualifiers for
types of outer scopes (`SymbTbl.GetType`). A cast is recognised by `)`
(`ParserCorrectness.UsualCastFails`), no comma or assignment is taken between
`?` and `:` (`Precedence.ConditionalMiddle`), a word of the source text swallows
a quote (`LexerProperties.WordSwallowsQuote`) and a tab
(`Lexemes.TabJoinsWords`, `Lexemes.WordTaken`), and an exponent without a sign
leaves a number an integer (`Lexemes.UnsignedExponent`).

## Model

| member | source | states |
|---|---|---|
| `Compiler.Compile` | hzcc/codegen/jvm/visitor_impl/stmt/function_decl_visitor.cc:124-131 | the compiler as it runs: the passes rewrite the function in place, the generator's visitors fill its buffer, and for every callee, call and result the emitted buffer halts with that result iff C's block-scoped semantics finishes with it; no run is malformed |
| `Compiler.CompiledCallCorrect` | hzcc/optimization/PassManagerImpl.cc:34-60 | the same for the code as a function of the body, under source conditions only: in the fragment, scopes at distinct places, names declared and used tidily |
| `ScopeAgreement.FlatIsScoped` | hzcc/codegen/jvm/StackManager.cc:98-103 | the generator keeps one slot per name, C one object per declaration and block: for every tidy function (`TidyAll`) both ways of running it end alike for every fuel, with the same value, world or error |
| `ScopeAgreement.TidyAllEnds` | hzcc/codegen/jvm/FuncAnalyzer.cc:271-281 | the same for any statement list inside any nest of blocks, with the state correspondence it keeps |
| `ScopeAgreement.InnerDeclaration` | hzcc/codegen/jvm/FuncAnalyzer.cc:271-281 | a declaration in an inner block: `int x = a; { int y = b; } return x;` gives `a` in C; with one slot per name it does iff the names differ or the values do not |
| `ScopeAgreement.LateDeclaration` | hzcc/codegen/jvm/StackManager.cc:98-103 | a declaration behind a use: `x = a; int y = b;` sets the global `x` in C; with one slot per name it does iff the names differ or the global already was `a` |
| `Passes.CompiledFunctionCorrect` | hzcc/optimization/PassManagerImpl.cc:34-60 | the whole way from a source function through any sequence of passes to machine code: for every fragment function whose scopes have distinct places, the generated method halts in a configuration iff the original function finishes with that result (value, globals, arrays, call trace, or the same error); no run is malformed |
| `FunctionCorrectness.MethodCorrect` | hzcc/codegen/jvm/visitor_impl/stmt/function_decl_visitor.cc:124-131 | both directions for one function body: the method halts in `h` iff the source finishes with `h` for some fuel, so the one diverges iff the other does |
| `FunctionCorrectness.MethodRuns` | hzcc/codegen/jvm/visitor_impl/stmt/function_decl_visitor.cc:124-131 | for every fuel: the method reaches the result of the body, or runs at least as many steps as the source had fuel |
| `FunctionCorrectness.NoFallThrough` | hzcc/codegen/jvm/visitor_impl/stmt/function_decl_visitor.cc:127-131 | a body whose last statement is `return` never ends normally, so the omitted `return` instruction is not missed |
| `ExpressionLaws.SumsAndProducts` | hzcc/codegen/jvm/visitor_impl/expr/operator/arithmetic_visitor.cc:10-39 | `+`, `-`, `*` give the int that differs from the true result by a multiple of 2^32 |
| `ExpressionLaws.QuotientAndRemainder` | hzcc/codegen/jvm/visitor_impl/expr/operator/arithmetic_visitor.cc:10-39 | `/` truncates toward zero and `%` has the dividend's sign, with a = (a / b) * b + a % b; zero is an error; the one quotient that is no int wraps |
| `ExpressionLaws.Negation` | hzcc/codegen/jvm/visitor_impl/expr/unary_visitor.cc:144-154 | unary minus, modulo 2^32 |
| `ExpressionLaws.Relations` | hzcc/codegen/jvm/visitor_impl/expr/operator/relational_visitor.cc:18-71 | the six relations, each 1 if it holds and 0 otherwise |
| `ExpressionLaws.LogicalOperators` | hzcc/codegen/jvm/visitor_impl/expr/operator/logical_visitor.cc:116-128 | the right operand is evaluated only if the left one does not decide |
| `ExpressionLaws.CompoundAssignment` | hzcc/codegen/jvm/visitor_impl/expr/operator/assign_visitor.cc:9-10 | `x op= e` is `x = x op e`, for the pairs of `op=` and `op` written out, in every state |
| `ExpressionLaws.CompoundElement` | hzcc/codegen/jvm/visitor_impl/expr/operator/assign_visitor.cc:58-97 | `a[i] op= e` stores the old element combined with `e` by the operator itself, in that element only; an index out of bounds and a zero divisor are errors |
| `ExpressionLaws.CompoundCode` | hzcc/codegen/jvm/visitor_impl/expr/operator/assign_visitor.cc:80-84 | the code of `op=` has the instruction of `op` in front of the store |
| `ExpressionLaws.SimpleAssignment` | hzcc/codegen/jvm/visitor_impl/expr/operator/assign_visitor.cc:52-98 | `=` stores the value, gives it, and changes no other variable, array or event |
| `ExpressionLaws.ElementAssignment` | hzcc/codegen/jvm/visitor_impl/expr/operator/assign_visitor.cc:52-98 | `a[i] = e` changes that element only; the element is chosen before `e` is evaluated |
| `ExpressionLaws.ElementRead` | hzcc/codegen/jvm/visitor_impl/expr/array_visitor.cc:20-35 | an element's value, or the out-of-bounds error |
| `ExpressionLaws.PrefixIncrement` | hzcc/codegen/jvm/visitor_impl/expr/unary_visitor.cc:37-90 | `++x` is `x += 1`, `--x` is `x -= 1` |
| `ExpressionLaws.PostfixIncrement` | hzcc/codegen/jvm/visitor_impl/expr/unary_visitor.cc:91-142 | `x++` stores what `++x` does and gives the old value |
| `ExpressionLaws.NewArray` | hzcc/codegen/jvm/visitor_impl/stmt/value_decl_visitor.cc:26-59 | a declared array is a new one, all zeros; every other array and variable stays |
| `ExpressionLaws.Calls` | hzcc/codegen/jvm/visitor_impl/stmt/func_call_visitor.cc:14-37 | the callee gets the argument values and a world in which the call is the last event |
| `ExpressionLaws.ArgumentsInOrder` | hzcc/codegen/jvm/visitor_impl/stmt/func_call_visitor.cc:14-37 | arguments are evaluated from the left |
| `ExpressionLaws.FoldedValues` | hzcc/ast/expr/biop/ArithmeticExpr.cc:64-89 | what is folded, and to what: literals and operations on folded operands, in 64 bits, a `%` to the quotient |
| `ExpressionLaws.NothingElseFolds` | hzcc/ast/Stmt.h:146-148 | nothing else is folded |
| `StatementLaws.IfChooses` | hzcc/codegen/jvm/visitor_impl/stmt/if_visitor.cc:54-115 | the condition decides between the branches |
| `StatementLaws.ElseIfNests` | hzcc/codegen/jvm/visitor_impl/stmt/if_visitor.cc:78-108 | `else if` is an `if` in an `else`, for any number of them |
| `StatementLaws.WhileUnrolls` | hzcc/codegen/jvm/visitor_impl/stmt/while_visitor.cc:22-43 | one turn of `while`, with each outcome of the body |
| `StatementLaws.ForUnrolls` | hzcc/codegen/jvm/visitor_impl/stmt/for_visitor.cc:43-86 | one turn of `for`: the step is run behind the body and behind `continue`, not behind `break` |
| `StatementLaws.ForIsWhile` | hzcc/codegen/jvm/visitor_impl/stmt/for_visitor.cc:43-86 | `for (i; c; s) b` is `{ i; while (c) { b s } }` for every body that does not continue, with the same outcome for every fuel; no condition is a true one |
| `StatementLaws.DoUnrolls` | hzcc/codegen/jvm/visitor_impl/stmt/do_visitor.cc:22-49 | one turn of `do`: the body before the test |
| `InstructionLaws.StoredIsLoaded` | hzcc/codegen/jvm/StackManager.cc:29-85 | a value stored and loaded again is back on the stack, in its variable and nowhere else |
| `InstructionLaws.Arithmetic` | hzcc/codegen/jvm/visitor_impl/expr/operator/arithmetic_visitor.cc:36-39 | the arithmetic instructions, with the operand below the top as the first one |
| `InstructionLaws.NegationSubtracts` | hzcc/codegen/jvm/visitor_impl/expr/unary_visitor.cc:144-154 | `ineg` is a subtraction from zero |
| `InstructionLaws.IncrementAdds` | hzcc/codegen/jvm/visitor_impl/expr/unary_visitor.cc:45-48 | `iinc` stands for load, push, add and store, also in its errors |
| `InstructionLaws.BranchTaken` | hzcc/codegen/jvm/visitor_impl/stmt/if_visitor.cc:59-65 | a comparing branch goes to its label iff the relation, written out, holds |
| `InstructionLaws.ZeroBranchTaken` | hzcc/codegen/jvm/visitor_impl/stmt/if_visitor.cc:59-65 | the same against zero; `goto` goes always |
| `InstructionLaws.Copies` | hzcc/codegen/jvm/visitor_impl/expr/operator/assign_visitor.cc:88-94 | `dup`, `dup2`, `dup_x2` and `pop` |
| `InstructionLaws.Elements` | hzcc/codegen/jvm/visitor_impl/expr/array_visitor.cc:20-35 | an element is read and written where it exists, and only it changes |
| `InstructionLaws.CallTakesArguments` | hzcc/codegen/jvm/visitor_impl/stmt/func_call_visitor.cc:14-37 | a call takes its arguments in order and leaves its result |
| `StatementSimulation.StmtRuns` | hzcc/codegen/jvm/visitor_impl/stmt/if_visitor.cc:54-115 | simulation of every statement of the fragment: from an empty operand stack its code ends behind itself, at the innermost loop's exit label (`break`) or entry label (`continue`), returned, or stopped with the same error, always with the source's store and trace and an empty stack; a source still looping means code still running |
| `StatementSimulation.IfRuns` | hzcc/codegen/jvm/visitor_impl/stmt/if_visitor.cc:54-115 | the whole if / else-if / else jump layout ends as section 6.8.4 of ISO/IEC 9899:2011 says |
| `StatementSimulation.ArmRuns` | hzcc/codegen/jvm/visitor_impl/stmt/if_visitor.cc:79-100 | one arm: a true condition runs its body and leaves for the common end, a false one goes on behind the arm |
| `StatementSimulation.ElseRuns` | hzcc/codegen/jvm/visitor_impl/stmt/if_visitor.cc:78-108 | the else-if arms from any index on, and the else branch |
| `StatementSimulation.LoopRuns` | hzcc/codegen/jvm/visitor_impl/stmt/for_visitor.cc:43-86 | `while` and `for` from the first test on: normal end at the exit label, `break` and `continue` from the body caught, step executed after the body and after `continue`, outer jumps and returns passed on |
| `StatementSimulation.IterationRuns` | hzcc/codegen/jvm/visitor_impl/stmt/while_visitor.cc:22-43 | one turn: test, body, and how each outcome of the body is handled |
| `StatementSimulation.AgainRuns` | hzcc/codegen/jvm/visitor_impl/stmt/for_visitor.cc:66-83 | the tail of a loop: label, step, jump back to the test |
| `StatementSimulation.DoRuns` | hzcc/codegen/jvm/visitor_impl/stmt/do_visitor.cc:22-49 | `do` runs its body first and repeats while the condition is true |
| `StatementSimulation.BodyRuns` | hzcc/codegen/jvm/visitor_impl/stmt/compound_visitor.cc:16-35 | statement lists run in order and stop at the first abrupt outcome; line labels change nothing |
| `StatementSimulation.ReturnRuns` | hzcc/codegen/jvm/visitor_impl/stmt/return_visitor.cc:17-27 | `return` with and without a value |
| `StatementSimulation.DeclRuns` | hzcc/codegen/jvm/visitor_impl/stmt/value_decl_visitor.cc:61-69 | a scalar declaration with an initialiser stores its value |
| `StatementSimulation.ArrayDeclRuns` | hzcc/codegen/jvm/visitor_impl/stmt/value_decl_visitor.cc:26-59 | an array declaration stores a new zeroed array in the local, when no global has its name |
| `StatementSimulation.ShadowingArrayDecl` | hzcc/codegen/jvm/visitor_impl/stmt/value_decl_visitor.cc:50-58 | when a global has its name, the declaration overwrites the global and leaves the local unset |
| `StatementSimulation.ArrayDeclExact` | hzcc/codegen/jvm/visitor_impl/stmt/value_decl_visitor.cc:26-59 | the three instructions reach the state C asks for iff no global has the name (or both already held the reference that is yet to be made) |
| `ConditionSimulation.ChainRuns` | hzcc/codegen/jvm/visitor_impl/expr/operator/logical_visitor.cc:116-128 | chains of one logical operator of any length and nesting: operands left to right, stop at the first that decides, then branch to the exit label (`&&`) or entry label (`\|\|`); otherwise the last comparison is left pending with the truth of the chain |
| `ConditionSimulation.GuardRuns` | hzcc/codegen/jvm/visitor_impl/stmt/if_visitor.cc:59-65 | the test before an arm or body goes on when the condition is true and to the exit label when it is false, also for `\|\|` when the entry label stands right behind |
| `ConditionSimulation.DoGuardRuns` | hzcc/codegen/jvm/visitor_impl/stmt/do_visitor.cc:35-48 | the test behind a `do` body goes to the entry label when true and falls through to the exit label when false |
| `ConditionSimulation.RelationRuns` | hzcc/codegen/jvm/visitor_impl/expr/operator/relational_visitor.cc:18-71 | a relation leaves its two operands and a pending comparison that decides its truth |
| `ExpressionSimulation.OperandRuns` | hzcc/codegen/jvm/utils/macro.h:71-95 | an operand, folded at compile time or not, pushes exactly its value and has exactly its effects |
| `ExpressionSimulation.CodeRuns` | hzcc/codegen/jvm/visitor_impl/expr/operator/arithmetic_visitor.cc:18-45 | every value expression pushes its value above whatever is on the stack, with the store and trace of its evaluation, or stops with the same error |
| `ExpressionSimulation.CallRuns` | hzcc/codegen/jvm/visitor_impl/stmt/func_call_visitor.cc:14-37 | arguments are evaluated left to right and passed in that order; the call is recorded |
| `ExpressionSimulation.IndexRuns` | hzcc/codegen/jvm/visitor_impl/expr/array_visitor.cc:20-35 | an element read yields the element, or the out-of-bounds error |
| `ExpressionSimulation.AssignRuns` | hzcc/codegen/jvm/visitor_impl/expr/operator/assign_visitor.cc:52-98 | plain and compound assignment to a scalar or an element, as a value (`dup`, `dup_x2`) or a statement, with the old value read before the right side |
| `ExpressionSimulation.AssignElemRuns` | hzcc/codegen/jvm/visitor_impl/expr/operator/assign_visitor.cc:61-98 | the element forms with `dup2`/`dup_x2`, including where each bounds error arises |
| `ExpressionSimulation.BumpRuns` | hzcc/codegen/jvm/visitor_impl/expr/unary_visitor.cc:36-156 | `++` and `--`, before and after, by `iinc` or through the stack: the right one of old and new value is left, or none |
| `ExpressionSimulation.EffectRuns` | hzcc/codegen/jvm/visitor_impl/stmt/func_call_visitor.cc:28-36 | an expression statement leaves the stack as it was; an unused call result is popped |
| `Folding.FoldingIsSound` | hzcc/ast/expr/biop/ArithmeticExpr.cc:64-89 | a constant tree of any shape, folded in 64 bits and narrowed, equals its 32-bit evaluation when each of its operations is safe (`SafeOp`) |
| `Folding.FoldingIsExact` | hzcc/ast/DeduceValue.cc:96-140 | exactly when an operation on any two rightly folded constant trees is itself folded rightly: sums, differences and products always, when they do not leave 64 bits; a division by an int iff 2^32-multiples taken off the dividend are multiples of the divisor too and its sign is kept or the narrowed dividend is such a multiple; a `%` of ints iff the dividend is zero, or the divisor `b` is positive and the magnitude of the dividend is a multiple of `b + 1` below `b * (b + 1)` |
| `Folding.SafeOpExact` | hzcc/ast/DeduceValue.cc:96-140 | the same for one operation on 64-bit numbers: narrowing its result agrees with the 32-bit operation on narrowed operands iff it is safe |
| `Int32.DivisionNarrows` | hzcc/ast/DeduceValue.cc:127-136 | dividing a number of any width and narrowing is dividing the narrowed number, iff the stated divisibility and sign condition holds |
| `Folding.FoldedRemainderIsWrong` | hzcc/ast/DeduceValue.cc:138-140 | an input that fails the condition on `%`: 7 % 3 is folded to 2 but evaluates to 1 |
| `Folding.FoldedWideDivisionIsWrong` | hzcc/ast/DeduceValue.cc:127-136 | an input that fails the condition on division: (2147483647 + 1) / 2 folds to the negative of what it evaluates to |
| `Folding.PushInstrDenotes` | hzcc/codegen/jvm/jvm_instr/ConstInstr.cc:28-58 | the chosen instruction, with its operand's sign extension, pushes the value iff it is an int (a wider number would be printed as it is), and no other push instruction for the value takes less space |
| `Int32.WrapProduct` | hzcc/ast/DeduceValue.cc:116-125 | narrowing before or after a product gives the same low 32 bits |
| `Generator.JvmGenerator.VisitStmt` | hzcc/codegen/jvm/visitor_impl/stmt/compound_visitor.cc:30-33 | appends exactly the specified code; context flags, pending hint, scope stack and loop count are back to their state between statements; line labels counted |
| `Generator.JvmGenerator.VisitFunctionBody` | hzcc/codegen/jvm/visitor_impl/stmt/function_decl_visitor.cc:124-131 | emits exactly the method code that the correctness theorem is about, with no scope left open; names left on the return stack stay below |
| `Generator.JvmGenerator.VisitFunction` | hzcc/codegen/jvm/visitor_impl/stmt/function_decl_visitor.cc:31-131 | labels reset, then the body: the buffer grows by the method code of this function whatever was emitted before, and the state between statements (flags, hint, scopes, loop count) holds again for the next function |
| `Generator.JvmGenerator.VisitIf` | hzcc/codegen/jvm/visitor_impl/stmt/if_visitor.cc:54-115 | the if layout as code; scopes and flags restored |
| `Generator.JvmGenerator.VisitFor` | hzcc/codegen/jvm/visitor_impl/stmt/for_visitor.cc:43-86 | the for layout as code; scopes and flags restored |
| `Generator.JvmGenerator.VisitWhile` | hzcc/codegen/jvm/visitor_impl/stmt/while_visitor.cc:22-43 | the while layout as code; scopes and flags restored |
| `Generator.JvmGenerator.VisitDo` | hzcc/codegen/jvm/visitor_impl/stmt/do_visitor.cc:22-49 | the do layout as code with the positive branch; scopes and flags restored |
| `Generator.JvmGenerator.VisitVarDecl` | hzcc/codegen/jvm/visitor_impl/stmt/value_decl_visitor.cc:61-69 | the initialiser and the store |
| `Generator.JvmGenerator.VisitArrayDecl` | hzcc/codegen/jvm/visitor_impl/stmt/value_decl_visitor.cc:26-59 | size, `newarray`, and a store to the global of that name if there is one |
| `Generator.JvmGenerator.VisitCompound` | hzcc/codegen/jvm/visitor_impl/stmt/compound_visitor.cc:16-35 | a loop over the statements, each behind its own line label |
| `Generator.JvmGenerator.VisitExpr` | hzcc/codegen/jvm/JVMGenerator.h:93-109 | every expression visit, in each of the six contexts it can be in, appends the code of that context and restores the three flags; the hint is pending only for a condition; the return stack gains exactly the name a context asks for, or the array names that element reads leave behind (`Remains`) |
| `Generator.JvmGenerator.UseDeduced` | hzcc/codegen/jvm/utils/macro.h:71-95 | the folded constant instead of the code when there is one |
| `Generator.JvmGenerator.VisitLogical` | hzcc/codegen/jvm/visitor_impl/expr/operator/logical_visitor.cc:116-128 | a chain emits its operands and branches in order and leaves the last operand's hint |
| `Generator.JvmGenerator.VisitRelational` | hzcc/codegen/jvm/visitor_impl/expr/operator/relational_visitor.cc:18-71 | pushes both operands and sets the hint |
| `Generator.JvmGenerator.VisitAssign` | hzcc/codegen/jvm/visitor_impl/expr/operator/assign_visitor.cc:52-98 | consumes the name its left side left and emits load, operation, duplicate and store |
| `Generator.JvmGenerator.VisitIncDec` | hzcc/codegen/jvm/visitor_impl/expr/unary_visitor.cc:36-156 | emits `iinc` unless the name is a global's |
| `Generator.JvmGenerator.VisitArraySubscript` | hzcc/codegen/jvm/visitor_impl/expr/array_visitor.cc:20-35 | base, subscript, and a load unless an address is wanted |
| `Generator.JvmGenerator.VisitDeclRef` | hzcc/codegen/jvm/visitor_impl/expr/decl_ref_visitor.cc:19-44 | loads a scalar, loads an array and leaves its name, or only leaves the name |
| `Generator.JvmGenerator.VisitFuncCall` | hzcc/codegen/jvm/visitor_impl/stmt/func_call_visitor.cc:14-37 | arguments in order, the call, and a pop exactly when the result is not wanted |
| `Generator.JvmGenerator.EnterScope` | hzcc/codegen/LabelManager.cc:97-109 | scope stack, loop counter and label counter change as `LabelManager.Serve` says for this request, the counter updated in place |
| `Generator.JvmGenerator.LeaveScope` | hzcc/codegen/LabelManager.cc:83-95 | the same for leaving |
| `Generator.JvmGenerator.ResetLabels` | hzcc/codegen/LabelManager.cc:118-123 | clears scopes and labels but not the loop counter |
| `Generator.JvmGenerator.GenerateLineLabel` | hzcc/codegen/LabelManager.cc:134-140 | hands out the line labels in order and counts them |
| `Generator.JvmGenerator.GetLastOpHint` | hzcc/codegen/jvm/JVMGenerator.h:93-97 | reading the hint resets it |
| `LabelManager.CounterIsRight` | hzcc/codegen/LabelManager.cc:83-123 | over every sequence of enters, leaves, line labels and resets: the separately kept loop counter is never negative, is the number of open loops iff no reset came while a loop was open, and then is positive iff break and continue find a loop |
| `LabelManager.CounterExact` | hzcc/codegen/LabelManager.cc:83-123 | from any state: by how much the counter is off is what it was off before plus the loops that were open at resets |
| `LabelManager.ResetInsideLoop` | hzcc/codegen/LabelManager.cc:118-123 | the input where it fails: a loop left open at a reset is counted for ever |
| `Labels.TextInjective` | hzcc/codegen/LabelManager.cc:45-81 | the text format is injective over positions, kinds, suffixes and line labels: different labels never share a text |
| `Labels.ScopeLabelTexts` | hzcc/codegen/LabelManager.cc:45-81 | the texts of a scope's labels, kind by kind |
| `Labels.DecimalNotation` | hzcc/codegen/LabelManager.cc:45-81 | numbers in labels are their decimal digits, without leading zeros |
| `LabelUniqueness.LabelsUnique` | hzcc/codegen/LabelManager.cc:97-109 | the generated method defines every label once iff no two scopes of the function share row, column and kind |
| `LabelUniqueness.JumpsLand` | hzcc/codegen/LabelManager.cc:45-81 | every jump of a generated method names a label that the method defines, and exactly once when the scopes are distinct |
| `LabelUniqueness.CountMethod` | hzcc/codegen/LabelManager.cc:134-140 | how often a label occurs: at most once per scope of its place and kind, exactly so for exit labels, and at most once for a line label |
| `StackHeight.MethodNeverMalformed` | hzcc/codegen/jvm/visitor_impl/stmt/function_decl_visitor.cc:124-131 | for any callees, frame and number of steps: a generated method is at the one height its text gives that point, never above the peak, with an empty stack at every label, and is never stopped by a short stack, a missing label or the end of the code (section 2.6.2 of the Java Virtual Machine Specification) |
| `StackHeight.StmtHeight` | hzcc/codegen/jvm/visitor_impl/stmt/compound_visitor.cc:16-35 | every statement's code starts and ends at height zero and fits at every point between |
| `StackHeight.OperandHeight` | hzcc/codegen/jvm/utils/macro.h:71-95 | every value adds one slot at any height |
| `StackHeight.AssignHeight` | hzcc/codegen/jvm/visitor_impl/expr/operator/assign_visitor.cc:52-98 | assignments add one slot if the value is wanted and none otherwise, through `dup`, `dup2` and `dup_x2` |
| `StackHeight.BumpHeight` | hzcc/codegen/jvm/visitor_impl/expr/unary_visitor.cc:36-156 | the same for increments in all forms |
| `StackHeight.ConditionHeight` | hzcc/codegen/jvm/visitor_impl/expr/operator/logical_visitor.cc:116-128 | a condition leaves exactly the operands its pending comparison needs, and every branch inside it leaves an empty stack |
| `StackBound.FuncAnalyzer.Analyze` | hzcc/codegen/jvm/FuncAnalyzer.cc:381-390 | `GetMaxStackSize` is at least 20 above the greatest height of the emitted method, for every straight-line body of the fragment, and exactly 20 above it when no operation folds away, no global is incremented, no increment is a statement and nothing follows a `return`; `hasReturn` iff a return occurs |
| `StackBound.FuncAnalyzer.VisitValue` | hzcc/codegen/jvm/FuncAnalyzer.cc:45-60 | after any counted value the running size covers the true height plus one and the maximum covers every height on the way; for plain values the size grows by one and the maximum to just the greatest height of the code; flags and tables unchanged |
| `StackBound.FuncAnalyzer.VisitAssign` | hzcc/codegen/jvm/FuncAnalyzer.cc:62-128 | the same for assignments in value position |
| `StackBound.FuncAnalyzer.VisitStore` | hzcc/codegen/jvm/FuncAnalyzer.cc:62-128 | stores to scalars: the size never falls below the true height although loads and stores are counted separately |
| `StackBound.FuncAnalyzer.VisitElementStore` | hzcc/codegen/jvm/FuncAnalyzer.cc:62-128 | stores to elements, with the array adjustments of the load and save tables |
| `StackBound.FuncAnalyzer.VisitCall` | hzcc/codegen/jvm/FuncAnalyzer.cc:298-318 | calls: the arguments' slots are released and the result's is counted; exact for plain arguments |
| `StackBound.FuncAnalyzer.VisitIndex` | hzcc/codegen/jvm/FuncAnalyzer.cc:205-218 | element reads |
| `StackBound.FuncAnalyzer.VisitUnary` | hzcc/codegen/jvm/FuncAnalyzer.cc:250-269 | an increment is counted as one slot that stays, of a global as three, with four on the way, whether or not its value is wanted; enough for every form |
| `StackBound.FuncAnalyzer.VisitCompound` | hzcc/codegen/jvm/FuncAnalyzer.cc:271-281 | a list of statements: the maximum covers the code so far, statement by statement; exact for plain ones, and only a `return` leaves a slot |
| `StackBound.MethodPeak` | hzcc/codegen/jvm/visitor_impl/stmt/function_decl_visitor.cc:85-88 | the method goes as high as its body: line labels and the last `return` add nothing |
| `StackBound.ArithPeak` | hzcc/codegen/jvm/visitor_impl/expr/operator/arithmetic_visitor.cc:31-39 | the greatest height of an operation's code is that of its left operand or of its right one above a slot |
| `StackBound.CallPeak` | hzcc/codegen/jvm/visitor_impl/stmt/func_call_visitor.cc:14-37 | a call's is that of its arguments, or of its result |
| `StackBound.StorePeak` | hzcc/codegen/jvm/visitor_impl/expr/operator/assign_visitor.cc:52-98 | an assignment's is that of its right side, or of the copy that is left |
| `StackBound.ElementStorePeak` | hzcc/codegen/jvm/visitor_impl/expr/operator/assign_visitor.cc:52-98 | the same for elements, through `dup2` and `dup_x2` |
| `StackBound.BodyPeak` | hzcc/codegen/jvm/visitor_impl/stmt/compound_visitor.cc:16-35 | a body's is that of its highest statement |
| `Passes.FuncDecl.EliminateDeadCode` | hzcc/optimization/pass_impl/DeadCodeElimination.cc:15-35 | the list loop leaves everything up to the first top-level return; reports a change iff there is a return |
| `Passes.FuncDecl.RemoveEmptyStatements` | hzcc/optimization/pass_impl/EmptyStatementRemoval.cc:30-41 | the erasing iterator loop leaves exactly the non-empty statements, in order |
| `Passes.FuncDecl.RunFunctionPass` | hzcc/optimization/PassManagerImpl.cc:34-60 | the passes run one after the other in the order given |
| `Passes.OrderDoesNotMatter` | hzcc/optimization/PassManagerImpl.cc:38-58 | any sequence of the passes, in any order and with repetitions, gives what its set of passes gives |
| `Passes.PassesCommute` | hzcc/optimization/PassManagerImpl.cc:38-58 | the two passes commute on every body |
| `Passes.UpToReturnIdempotent` | hzcc/optimization/pass_impl/DeadCodeElimination.cc:25-34 | running it twice changes nothing more |
| `Passes.WithoutEmptyIdempotent` | hzcc/optimization/pass_impl/EmptyStatementRemoval.cc:30-41 | running it twice changes nothing more |
| `Passes.NothingFollowsReturn` | hzcc/optimization/pass_impl/DeadCodeElimination.cc:25-34 | afterwards only the last statement can be a `return`, and the statements are the first ones of the list |
| `Passes.NoneEmpty` | hzcc/optimization/pass_impl/EmptyStatementRemoval.cc:30-41 | afterwards no statement is empty |
| `Passes.OnlyEmptyGoes` | hzcc/optimization/pass_impl/EmptyStatementRemoval.cc:30-41 | every other statement occurs as often as before |
| `Passes.PassesKeepMeaning` | hzcc/optimization/PassManagerImpl.cc:34-60 | any sequence of passes keeps the outcome of a body for every store and fuel: normal, return, break, continue, error or still running |
| `Passes.PassesKeepFragment` | hzcc/optimization/PassManagerImpl.cc:34-60 | passes keep a body in the fragment and its scopes distinct |
| `ParserCorrectness.ParseExactly` | hzcc/parser/syntax/parser/statement_parser.cc:103-668 | at every level, parsing succeeds with a derivation and a rest iff the input is that derivation's tokens followed by that rest, the derivation belongs to the level, and the next token does not continue it |
| `ParserCorrectness.ParseSound` | hzcc/parser/syntax/parser/statement_parser.cc:103-668 | a success consumed at least one token, left a suffix of the input, and what it consumed is a derivation of the returned tree at that level; with right grouping of every binary level |
| `ParserCorrectness.ParseComplete` | hzcc/parser/syntax/parser/statement_parser.cc:103-668 | every derivation followed by a token that does not continue it is parsed back |
| `ParserCorrectness.Unambiguous` | hzcc/parser/syntax/parser/statement_parser.cc:103-668 | two derivations with the same tokens are the same derivation |
| `ParserCorrectness.UnarySound` | hzcc/parser/syntax/parser/statement_parser.cc:445-495 | prefix operators |
| `ParserCorrectness.PostfixSound` | hzcc/parser/syntax/parser/statement_parser.cc:500-575 | subscript, member and increment chains, which the code does not mix |
| `ParserCorrectness.PrimarySound` | hzcc/parser/syntax/parser/statement_parser.cc:580-668 | names, calls with their arguments, literals, adjacent strings, parentheses |
| `ParserCorrectness.UsualCastFails` | hzcc/parser/syntax/parser/statement_parser.cc:421-440 | a cast written the usual way, `(type) e`, fails at every level: the code looks for `)` in front of the type |
| `Precedence.ChainsGroup` | hzcc/parser/syntax/parser/statement_parser.cc:103-376 | any number of operands and operators: the tree is split at the loosest operator of the ladder, the leftmost where several are loosest, and both sides likewise; the ladder is written out operator by operator |
| `Precedence.TwoOperators` | hzcc/parser/syntax/parser/statement_parser.cc:103-376 | `a p b q c` is `a p (b q c)` if `q` is as tight as `p` or tighter, `(a p b) q c` otherwise |
| `Precedence.BeforeQuestion` | hzcc/parser/syntax/parser/statement_parser.cc:155-177 | `a p b ? c : d`: the operator belongs to the condition, unless it is a comma or an assignment |
| `Precedence.AfterColon` | hzcc/parser/syntax/parser/statement_parser.cc:155-177 | likewise behind the colon |
| `Precedence.ConditionalMiddle` | hzcc/parser/syntax/parser/statement_parser.cc:155-177 | `a ? b p c : d` is accepted iff `p` is no comma and no assignment, where C takes any expression |
| `Precedence.PrefixBeforeBinary` | hzcc/parser/syntax/parser/statement_parser.cc:445-495 | prefix operators are tighter than every binary operator, on either side |
| `Precedence.PostfixBeforePrefix` | hzcc/parser/syntax/parser/statement_parser.cc:445-575 | postfix operators are tighter than prefix operators |
| `Precedence.CastOperands` | hzcc/parser/syntax/parser/statement_parser.cc:380-495 | a prefix operator takes a cast, with any number of stars, iff it is one of `-`, `*`, `~`, `!`, `&` |
| `Precedence.PostfixChain` | hzcc/parser/syntax/parser/statement_parser.cc:500-575 | subscripts, members or increments in any number: each link is about all that is left of it; the token that member access skips decides between `.` and `->` |
| `Precedence.PostfixUnmixed` | hzcc/parser/syntax/parser/statement_parser.cc:500-575 | behind links of one kind a link of another kind is not taken: `a[x]++` ends in front of `++` |
| `Precedence.Literals` | hzcc/parser/syntax/parser/statement_parser.cc:580-668 | a literal is its token's kind and text |
| `Precedence.StringsJoin` | hzcc/parser/syntax/parser/statement_parser.cc:580-668 | strings next to each other are one, in their order, for any number of them |
| `Precedence.Parentheses` | hzcc/parser/syntax/parser/statement_parser.cc:580-668 | parentheses group, whatever the operators, and leave no node |
| `Precedence.CallArguments` | hzcc/parser/syntax/parser/statement_parser.cc:580-668 | a call with any number of arguments has these in their order |
| `Precedence.NoOtherOperator` | hzcc/parser/syntax/parser/statement_parser.cc:103-376 | a symbol that is not on the ladder ends the expression |
| `Precedence.NoOtherStart` | hzcc/parser/syntax/parser/statement_parser.cc:445-495 | no expression begins with another symbol |
| `ExprPrinter.RoundTrip` | hzcc/parser/syntax/parser/statement_parser.cc:103-668 | printing any writable tree with the parentheses the levels and the right grouping need, then parsing, gives back the tree and leaves exactly the tokens that followed |
| `ExprPrinter.WritableIffDerivable` | hzcc/parser/syntax/parser/statement_parser.cc:103-668 | a tree can be written iff some derivation has it as its tree, so the round trip covers every tree the parser can return |
| `ExprPrinter.FewestTokens` | hzcc/parser/syntax/parser/statement_parser.cc:103-668 | no token sequence that parses to the tree is shorter than its printed form |
| `ExprParser.ParseExpression` | hzcc/parser/syntax/parser/statement_parser.cc:103-149 | the mutable descent over the shared token list returns exactly the outcome of the grammar's parser and leaves exactly its rest in the list |
| `ExprParser.ParseExpr` | hzcc/parser/syntax/parser/statement_parser.cc:337-376 | each binary level, recursing on itself on the right; terminates by tokens left and level |
| `ExprParser.ParseConditionalExpr` | hzcc/parser/syntax/parser/statement_parser.cc:155-177 | `? :` over the mutable list |
| `ExprParser.ParseUnaryExpr` | hzcc/parser/syntax/parser/statement_parser.cc:445-495 | prefix operators over the mutable list |
| `ExprParser.ParseCastExpr` | hzcc/parser/syntax/parser/statement_parser.cc:421-440 | the cast as the code recognises it |
| `ExprParser.ParsePostfixExpr` | hzcc/parser/syntax/parser/statement_parser.cc:500-575 | chains rebuilt by loops over the mutable list |
| `ExprParser.ParseMemberAccess` | hzcc/parser/syntax/parser/statement_parser.cc:541-558 | member access takes one token more than it shows |
| `ExprParser.ParseAccessExpr` | hzcc/parser/syntax/parser/statement_parser.cc:580-667 | primary expressions over the mutable list |
| `ExprParser.ParseArgs` | hzcc/parser/syntax/parser/statement_parser.cc:588-615 | the argument loop collects the arguments in order |
| `ExprParser.ParseStringLit` | hzcc/parser/syntax/parser/statement_parser.cc:647-656 | adjacent string tokens are joined in order |
| `Tokens.CachedList.Pop` | hzcc/utils/cached_list.h:32-41 | qualifiers in front go to the cache in order, the next token is returned |
| `Tokens.CachedList.Push` | hzcc/utils/cached_list.h:43-47 | a pushed token is the next one |
| `Tokens.CachedList.CacheAttrList` | hzcc/utils/cached_list.h:75-79 | hands out the cached qualifiers and empties the cache |
| `StatusRefcount.EveryRunIsSafe` | hzcc/utils/status/status.cc:119-128 | over every interleaving of any threads: no next step touches a deleted rep, every rep a status object points to is alive with a count equal to its number of owners, and every rep ever made is alive or was deleted exactly once |
| `StatusRefcount.NothingLeaks` | hzcc/utils/status/status.cc:119-128 | when every object is gone and every thread idle, every rep ever made has been deleted |
| `StatusRefcount.StepFine` | hzcc/utils/status/status.h:756-792 | each of the thirteen steps, taken in any state that satisfies the invariant, succeeds and keeps it |
| `StatusRefcount.ReleaseLoadFine` | hzcc/utils/status/status.cc:124-126 | the fast path: a loaded count of one means this thread is the only owner, so deleting without subtracting is safe |
| `StatusRefcount.ReleaseSubFine` | hzcc/utils/status/status.cc:124-127 | load and subtraction as separate steps: whoever subtracts to zero is the last owner, whatever happened between |
| `StatusRefcount.ReleaseDeleteFine` | hzcc/utils/status/status.cc:126 | deletion leaves no object pointing to the rep |
| `StatusRefcount.CopyRefFine` | hzcc/utils/status/status.h:756 | copy: reading the word and counting up are separate steps |
| `StatusRefcount.AssignRefFine` | hzcc/utils/status/status.h:758-766 | copy assignment counts up before it lets the old rep go |
| `StatusRefcount.MoveAssignFine` | hzcc/utils/status/status.h:770-778 | move assignment passes ownership on and releases the old rep |
| `StatusRefcount.SwapFine` | hzcc/utils/status/status.h:817-820 | swap exchanges owners and keeps counts |
| `StatusRefcount.PrepareIsExclusive` | hzcc/utils/status/status.cc:149-170 | after PrepareToModify the object is the only owner of its rep; the code is kept, and so is the text, but that of a moved-from status becomes empty |
| `StatusRefcount.StepValues` | hzcc/utils/status/status.h:756-820 | copies and moves carry the value over, assignment takes the source's, swap exchanges the two; a source that was moved from shows code 13 and the text "Status accessed after move."; an assignment between equal words changes nothing |
| `StatusRefcount.OthersKeepValue` | hzcc/utils/status/status.h:756-820 | no step changes the value of an object it is not about, even if they share a rep |
| `StatusRefcount.RoundTrip` | hzcc/utils/status/status.h:822-848 | decoding the tagged word gives back what was encoded |
| `StatusRefcount.EncodeInjective` | hzcc/utils/status/status.h:822-848 | words are equal iff they stand for the same; a moved-from status is not OK |
| `StatusRefcount.WordLayout` | hzcc/utils/status/status.h:822-848 | the tagged word as a number: four times the code, two more when moved from, a pointer plus one; OK is the only zero |
| `StatusRefcount.OkIsCodeZero` | hzcc/utils/status/status.h:756-820 | over every interleaving: an object's word is OK iff its code is zero, and then it has no text |
| `StatusRefcount.NoThreadStuck` | hzcc/utils/status/status.cc:124-127 | a thread inside an operation can always take its next step |
| `StatusRefcount.AllCanBegin` | hzcc/utils/status/status.h:756-820 | an idle thread can begin any operation on objects the others leave alone; PrepareToModify iff the status is not OK |
| `StatusRefcount.ReadersShare` | hzcc/utils/status/status.h:756-766 | any number of threads can copy and assign from one object at a time |
| `StatusOr.EveryRunIsSound` | hzcc/utils/status/internal/statusor_internal.h:148-302 | over every sequence of operations: each object holds a live value exactly when its status is OK, no two objects share one, and every value was begun once and ended at most once |
| `StatusOr.AllEnded` | hzcc/utils/status/internal/statusor_internal.h:228-235 | once all objects are destroyed, every value ever constructed has been destroyed exactly once |
| `StatusOr.StepViews` | hzcc/utils/status/internal/statusor_internal.h:156-252 | what each operation makes of status and value of its object and of its source, with the codes and texts written out: an OK status given to an object becomes code 13, a moved status leaves its source marked, a moved value leaves its source with a value |
| `StatusOr.OthersKeepView` | hzcc/utils/status/internal/statusor_internal.h:156-252 | an operation changes no other object |
| `StatusOr.StepEnds` | hzcc/utils/status/internal/statusor_internal.h:203-302 | a value ends when its object gets an error or is destroyed, and in emplace; no other value ends |
| `StatusOr.StepBegins` | hzcc/utils/status/internal/statusor_internal.h:156-302 | a value begins when an object without one gets one, and in emplace; otherwise the old one is written over |
| `StatusOr.AllAllowed` | hzcc/utils/status/internal/statusor_internal.h:148-302 | every operation can be done to every object there is |
| `StatusOr.StatusOrData.CopyOf` | hzcc/utils/status/internal/statusor_internal.h:156-163 | copies value or status; the source is unchanged |
| `StatusOr.StatusOrData.MovedFromOther` | hzcc/utils/status/internal/statusor_internal.h:165-172 | takes the value or the status over; a moved status leaves its source marked |
| `StatusOr.StatusOrData.FromStatus` | hzcc/utils/status/internal/statusor_internal.h:203-208 | an OK status is turned into an internal error, so that no value is expected |
| `StatusOr.StatusOrData.Assign` | hzcc/utils/status/internal/statusor_internal.h:237-245 | assigns onto a live value or constructs one and sets OK |
| `StatusOr.StatusOrData.AssignStatus` | hzcc/utils/status/internal/statusor_internal.h:247-252 | ends the value if there is one; never OK afterwards |
| `StatusOr.StatusOrData.CopyAssign` | hzcc/utils/status/internal/statusor_internal.h:210-217 | also for self-assignment |
| `StatusOr.StatusOrData.MoveAssign` | hzcc/utils/status/internal/statusor_internal.h:219-226 | also for self-assignment |
| `StatusOr.StatusOrData.Emplace` | hzcc/utils/status/statusor.h:588-598 | the old value ends before the new one begins |
| `StatusOr.StatusOrData.Destroy` | hzcc/utils/status/internal/statusor_internal.h:228-235 | ends the value iff there is one |
| `LexerProperties.CommentsAreSpaces` | hzcc/parser/lexical/LexicalParser.cc:444-494 | lexing line by line with the comment flag gives, for any number of lines and comments, the tokens and positions of the text in which a character scanner has blanked every comment, and fails for an open comment iff the scanner ends inside one; for texts whose quotes start tokens |
| `LexerProperties.LinesAgree` | hzcc/parser/lexical/LexicalParser.cc:372-442 | the same for the rest of one line from any column in code |
| `LexerProperties.WordSwallowsQuote` | hzcc/parser/lexical/LexicalParser.cc:400-408 | a concrete line for which it fails when a quote does not start a token: a word runs on over it |
| `LexerProperties.BlankedTwice` | hzcc/parser/lexical/LexicalParser.cc:101-127 | the reference scanner leaves no comment and makes none |
| `LexerProperties.LexInOrder` | hzcc/parser/lexical/LexicalParser.cc:372-494 | on every input the tokens have strictly increasing (row, column) and lie inside their lines |
| `LexerProperties.LiteralRoundTrip` | hzcc/parser/common/Token.cc:107-121 | lexing a closed string literal and printing the token with escaping gives back its source text iff that has no raw control character |
| `LexerProperties.EscapePrints` | hzcc/parser/lexical/utils/symbol_utils.h:174-232 | the two escape tables are inverse on the escapes |
| `LexerSpec.HandleAdvances` | hzcc/parser/lexical/LexicalParser.cc:372-442 | every handler moves the column forward, so a line is finished |
| `Lexemes.WhatIsWrittenIsLexed` | hzcc/parser/lexical/LexicalParser.cc:372-494 | round trip: any lines of operators, names, numbers, string and character literals, with any blanks around spaces between them, are lexed to just these, in order and in place |
| `Lexemes.SymbolTaken` | hzcc/parser/lexical/utils/symbol_utils.h:145-158 | a symbol is taken with the next character iff that is a symbol too and the table, written out, has the pair |
| `Lexemes.DoubleIsInTable` | hzcc/enums.h:140-141 | two symbols are one operator iff they are a pair of the table |
| `Lexemes.SymbolIsSingle` | hzcc/parser/lexical/utils/symbol_utils.h:145-149 | the single symbols, written out |
| `Lexemes.EscapesAre` | hzcc/parser/lexical/utils/symbol_utils.h:174-195 | the escapes, each with its code |
| `Lexemes.WordTaken` | hzcc/parser/lexical/LexicalParser.cc:400-434 | a word goes on up to the next space or symbol |
| `Lexemes.TabJoinsWords` | hzcc/parser/lexical/LexicalParser.cc:403-406 | a tab does not end a word: two names with a tab between are one word |
| `Lexemes.UnsignedExponent` | hzcc/parser/lexical/LexicalParser.cc:221-370 | `1e5`: without a sign the number is taken for an integer, where C has a floating constant |
| `Lexer.Lexer.ParseToToken` | hzcc/parser/lexical/LexicalParser.cc:444-494 | the loop over the lines, with row, column, comment flag and token list updated in place, gives exactly the specified tokens or failure |
| `Lexer.Lexer.AnalyzeLine` | hzcc/parser/lexical/LexicalParser.cc:372-442 | the loop over one line appends exactly the specified tokens; terminates |
| `Lexer.Lexer.SymbolHandler` | hzcc/parser/lexical/LexicalParser.cc:75-99 | one or two characters as `GetSymbolType` says; the position of a double symbol is its second column |
| `Lexer.Lexer.CommentHandler` | hzcc/parser/lexical/LexicalParser.cc:101-127 | line comments, closed and open block comments, or a division sign |
| `Lexer.Lexer.StrLitHandler` | hzcc/parser/lexical/LexicalParser.cc:129-176 | the escape-resolving loop and the unclosed literal |
| `Lexer.Lexer.CharLitHandler` | hzcc/parser/lexical/LexicalParser.cc:178-219 | one character or escape, or a failure |
| `Lexer.Lexer.NumLitHandler` | hzcc/parser/lexical/LexicalParser.cc:221-370 | where a number ends and whether it is real |
| `ScopeSpec.TreeRefinesStack` | hzcc/ast/SymbTbl.cc:22-109 | after any run of entering and adding, what a scope sees is its old stack of maps with just the operations on its own chain replayed, in order |
| `ScopeSpec.OthersChangeNothing` | hzcc/ast/SymbTbl.cc:75-92 | work in child, sibling or any other scope off its chain never changes what a scope sees |
| `ScopeSpec.EnterPushes` | hzcc/ast/SymbTbl.cc:87-92 | entering pushes an empty map on the parent's stack |
| `ScopeSpec.BindingsStay` | hzcc/ast/SymbTbl.cc:75-85 | at its own place a binding stays for good, with its first value |
| `ScopeSpec.AddedIsSeen` | hzcc/ast/SymbTbl.cc:75-85 | right after a name is added every scope whose chain holds that scope sees it, there with the new value if it was new and nothing further in declares it |
| `ScopeSpec.AddedTypeIsSeen` | hzcc/ast/SymbTbl.cc:33-42 | the same for struct names, which are added only if they are not seen at all |
| `ScopeSpec.AddedStays` | hzcc/ast/SymbTbl.cc:75-92 | and sees it for good, after any further operations |
| `ScopeSpec.OtherNamesStay` | hzcc/ast/SymbTbl.cc:75-85 | adding a name changes no other name, in any scope |
| `SymbTbl.SymbTbl.HasVar` | hzcc/ast/SymbTbl.cc:61-73 | found iff some visible scope declares it, or just this one when asked for that; terminates because chains have no cycle |
| `SymbTbl.SymbTbl.VarDefPos` | hzcc/ast/SymbTbl.cc:95-109 | the position of the innermost visible declaration |
| `SymbTbl.SymbTbl.GetType` | hzcc/ast/SymbTbl.cc:45-58 | the innermost visible type; the qualifiers asked for are on it iff this scope itself defines it or there are none |
| `SymbTbl.SymbTbl.AddVar` | hzcc/ast/SymbTbl.cc:75-85 | afterwards the name is in this scope, with the new position and type if it was new and with its old entry otherwise; every other name and every other scope is as before; asking for it here finds it |
| `SymbTbl.SymbTbl.AddStructType` | hzcc/ast/SymbTbl.cc:33-42 | adds iff the struct name is not visible at all; afterwards it is visible, and is the new type iff it was added |
| `SymbTbl.SymbTbl.EnterScope` | hzcc/ast/SymbTbl.cc:87-92 | a fresh scope that sees an empty map in front of its parent's stack; nothing else changes |

## Left out

Code generation:

- Floating point, char, pointers, structs and functions of other than int values; float comparisons negate the hint twice (relational_visitor.cc:39-63).
- Logical operators used as values, chains that mix `&&` and `||`, and `||` in `while` and `for`: the jump layout gives them another meaning (logical_visitor.cc:34-128).
- Conditions with assignment or increment (a name is loaded instead of left, decl_ref_visitor.cc:19), bare calls as conditions (the result is popped, func_call_visitor.cc:30), constant `while` conditions (skipped, while_visitor.cc:30).
- `continue` in `do`: it aims at the start of the body, not at the test (do_visitor.cc:22-49).
- Initialisers that are a bare variable or element: no load context is set (value_decl_visitor.cc:64). Array initialisers.
- A local array whose name a global has: its declaration overwrites the global (`StatementSimulation.ArrayDeclExact`), so it is outside the fragment.
- `iinc` for a compound assignment (assign_visitor.cc:36-50): it needs a left side with a compile-time value, which no variable has, so that branch cannot be taken.
- Debug assertions: the model is of a release build. Constant trees that are folded wrongly, leave 64 bits or are no int in the end are outside the fragment.
- Folding.FoldingIsExact: for divisors that are ints, and ints on both sides of `%`; a wider operand of these, which no literal but only a constant sum, difference or product can be, is left out.
- The refusal of a function with a result type and no `return` (function_decl_visitor.cc:55-66).
- Comment and `.linenumbertable` lines of the output, the header directives, the class initialiser for globals, the special code for the result of `main`.
- Declarations under `if` and loops: the analyser does not look there, so their names get no slot (FuncAnalyzer.cc:283-342). Two declarations of one name, and a use of a global in front of a local of its name, which the code takes for the local (`ScopeAgreement.InnerDeclaration`, `ScopeAgreement.LateDeclaration`).
- The order in which a compound assignment reads its old value and evaluates its right side, which C leaves open, is the code's.
- Callees are a parameter: any function of name, arguments and world. Recursion depth and memory limits of the JVM are not modelled.
- StackBound.FuncAnalyzer.Analyze: for straight-line bodies where assignments are statements, right-hand sides or return values, and exact for plain ones only, because the analyser counts folded operations, increments and returned values otherwise than the code; the analyser does not enter control flow (FuncAnalyzer.cc:289-297, 326-342), undercounts call initialisers (313, 373), and dereferences null for `return;`.

Parser:

- `has_type` is always false, as for a parser run without declared struct types, so `(` never starts a cast or `sizeof` of such a type.
- Qualifiers in expressions: peeking at one does not return (cached_list.h:53-59), so token lists are free of them there; popping them is modelled.
- The end of the list, which the source does not check before peeking, is an end token that nothing accepts.
- Node locations, except that a tree tells prefix from postfix increments, which the source decides by location. Declarations, statements, type names beyond name and stars, error messages.

Status and StatusOr:

- Handles are steps of a machine, not objects with methods, so that threads can interleave inside an operation; atomic accesses are sequentially consistent and the count does not overflow.
- Callers keep the usual duty: no two threads use one object when one of them writes it.
- Payloads, `EqualsSlow`, error-code mapping, conversions between value types. What a move leaves in a value is a parameter.

Lexer and scopes:

- The number formats and ranges (regular expressions, `std::stoll`) are a parameter; so is the truncation of long reals. Keywords and type names are told from words by text alone and are one kind here.
- Reading behind the end of a line gives the terminating null; the code reads one further in a few places.
- LexerProperties.CommentsAreSpaces: for texts in which no number or word runs into a quote (`QuotesInText`); without that it is false (`WordSwallowsQuote`). The exact set of texts for which both agree has no simple description.
- Parent links do not expire, since parents own their children; messages that end the process are a failure result. `CompilationUnit`, which keeps the current scope, is not modelled.

Elsewhere: the semantic analyser, cast rules, declaration and struct parsing, the preprocessor, printing of trees, the command line, logging and file output.
