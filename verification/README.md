# A model of rcc

`rcc` is a small C compiler. This project models the parts of it in which a mistake would be
hardest to see — the x86-64 code generator and its peephole optimizer, bit-field layout and access,
the AST optimizer, the variadic calling protocol, the preprocessor, global data, Unicode text and
interned strings — and proves what each of them has to keep. The System V x86-64 branches of the
`#ifdef`s are followed throughout.

Every property is stated for all inputs, all runs or all reachable states. Where the code does not
meet a property on all inputs, the project gives an input on which it fails and, wherever a condition
on the input decides it, proves that condition.

Code that works by changing things step by step is a method over the same state (a class with the
program's fields, an array rewritten in place, a list that is relinked); each such method is proved
to compute a specification function, and the properties are lemmas about that function.

## How it is organised

Code generation (`src/codegen.c`):

- `Words`, `Machine`: 32-bit words, and a machine with the eight pool registers, rax, rcx, rdx,
  flags, frame memory and labels. Reading a register half or a flag that was never set has no value,
  so a run that has a result never depends on one.
- `Source`: integer expressions and structured statements of C, with wrap-around at 32 bits and no
  value for an undefined division.
- `CodegenSpec`, `StmtSpec`: `gen` as functions from a generator state to code. `CodeGenerator`:
  the generator itself, a class with the compiler's variables.
- `ExprCorrect`, `ExprSimulation`, `StmtSimulation`, `Labels`: the code computes what C says;
  `Divergence`: and it goes on where C does. `SpillLimits`: where there are too few registers.
- `Peephole`, `PeepholeWindow`, `PeepholeCorrect`, `PeepholeSettled`, `PeepholeLimits`: the optimizer,
  its window in an array, termination, preservation of meaning and of divergence, what it leaves
  behind, and where it fails.
- `OptimizedBody`: generator and optimizer together.

Bit-fields: `BitFieldAccess` (`src/codegen.c`), `BitFieldLayout` (`src/parser.c`), which also joins the two.

AST optimizer (`src/opt.c`): `Interpreter`, `EvalAst` (the same over an array of slots), `Optimizer`
(the tree is rewritten in place, and the interpreter sees the program as it stands), `OptimizerViews`
(why that does not matter), `ProgramRefinement`, `OptimizerCorrect`, `Folding` (what becomes of
constants), `NullNames`, `ExactCalls`, `OptimizerLimits`; `OptimizerTrees`, `OptimizeNodes` and `OptimizeProgram` are the optimizer over nodes
whose links are rewritten.

Calls: `Varargs`, `ArgPlacement` (`src/codegen.c`).

Preprocessor (`src/preprocess.c`): `Conditionals`, `MacroTable`; macro expansion in
`MacroExpansion`, `MacroCalls`, `ObjectMacros`, `CompleteCalls` and `CallDepth` (lines that are
expanded lawfully, told from the line and the table), `CallMeaning` (what they are expanded to),
`CommaFree`, `ExpansionLimits`, `Expander`.

Data and text: `GlobalData` and `GlobalImage` (`src/parser.c`, `src/codegen.c`), `Reorder`,
`ReorderText` and `Utf8` (`src/unicode.c`), `Interning` (`src/alloc.c`), `Hashing`, `Options`.

## What was found

Each of these is proved, with a concrete input.

- The AST interpreter keys locals by `offset / 8`, but the parser gives three `int` parameters the
  offsets 84, 88 and 92: `f(1, 2, 3)` with `return b`, called where `f` has not been declared yet, is
  folded to 3 (`OptimizerLimits.ThreeInts`).
- A call of a function that has been declared has no name in its node, and the interpreter passes the
  null name to `strcmp`: `int main(void) { return f(3); } int f(int n) { if (n) return f(n - 1); return 7; }`
  ends the compiler at -O1 (`OptimizerLimits.NullNameMet`). It does not happen if the functions that
  are called by name make only calls by name (`NullNames.NoNullName`). On a call by name with constant
  arguments, to functions without anything on which the interpreter gives up (a loop, `&&`, `?:`), and
  to which C gives a value, it happens exactly if C's run makes an unnamed call (`ExactCalls.CallExact`).
- Constants that are ints can be folded to INT64_MIN, which the compiler divides by -1 when it meets
  `-2147483648 * 65536 * 65536 / -1`, and stops (`Folding.SmallConstantsStop`, `OptimizeDoneIff`).
- Where no register but perhaps the last is free, both operands of an operation are loaded into the
  last one (`SpillLimits.OperandLostIff`):
  of `x1 + (x2 + ... (x8 + x9))` with variables, x9 is lost.
- Peephole pattern 5 reads `mov D, X` as a move into D, the other operand order: it overwrites a
  live register, and is right only where D is X (`PeepholeLimits.Pattern5Iff`, `LostIsWrong`), and
  even there not where pattern 1 has put another register for X first (`PeepholeLimits.NotFineHarmed`).
  The generator never emits such lines for int code (`OptimizedBody.StmtTidy`); an `asm` statement
  can, since its text goes through the same buffer.
- Of three jumps to the next label, the optimizer leaves the first (`PeepholeLimits.FirstJumpStays`).
- An #elif outside of all groups silences the rest of the file (`Conditionals.StrayLines`).
- Pattern 2 turns a dword store followed by a qword load into a move between registers of different
  widths (`PeepholeLimits.Pattern2Accepted`).
- A compound assignment to a bit-field that reaches into a ninth byte leaves that byte unwritten
  (`BitFieldAccess.CompoundCorrectIff`, `BitFieldLayout.NinthByteArises`).
- In a variadic function, copying a named struct or stack argument goes through rax and overwrites
  al before the vector registers are saved, so unnamed doubles are lost (`Varargs.NamedStructThenDouble`).
- A named struct of more than eight bytes that is passed on the stack is received as its address:
  the callee copies the slot, not what it points to (`Varargs.SeventhStructLost`).
- The eighth register argument is evaluated into rsi, which is also the second argument register: a
  double there is overwritten (`ArgPlacement.SecondDoubleLost`).
- A call with too many arguments is copied without marking the words in it, so a macro can be
  substituted in its own expansion (`ExpansionLimits.TooManyArguments`); so can the last of a chain
  of 21 macros, because of the depth cap (`ExpansionLimits.AlwaysLawfulIff`).
- A macro call may have 33 arguments, one more than the array that holds them has places: exactly if
  it has 32 commas of its own (`MacroCalls.OneMoreThanFits`).
- Reordering into a buffer that is too short for the text is refused before anything is written behind
  its end only where a run has exactly as many code points as bytes are left
  (`ReorderText.ReorderBytes`, `RunEnding`); the buffer that the compiler passes is never too short.
- In an initialized aggregate, a scalar written inside the eight bytes of an earlier label, and not at
  its start, is hidden by the label (`GlobalImage.ScalarHidden`, `EmitInitialised`).
- Values from 2^21 on do not survive `encode_utf8` and `decode_utf8` (`Utf8.RoundTripIff`).

## Model

| member | source | states |
|---|---|---|
| Words.PowerOfTwoTest | src/codegen.c:6401-6409 | an immediate that passes the bit test for strength reduction is a power of two, and the loop's shift count is its logarithm |
| Words.BitwiseDigits | src/codegen.c:6330-6350 | and, or and xor work on each binary digit by itself |
| Words.SarDivides | src/codegen.c:6300-6315 | a right shift of a signed value divides by a power of two and rounds down |
| Words.TruncLaw | src/codegen.c:6270-6290 | division truncates: the remainder is smaller than the divisor and has the sign of the dividend |
| Machine.FlagsCompare | src/codegen.c:6480-6505 | after a compare, each condition code holds exactly when the signed comparison it stands for does |
| ExprCorrect.IdentityMeaning | src/codegen.c:6359-6364 | the immediate operations gen leaves out would not have changed the operand |
| ExprCorrect.NothingEmittedIff | src/codegen.c:6359-6364 | of +, -, *, or and xor with a constant, exactly the operations that change no operand are left out |
| ExprCorrect.StrengthReduction | src/codegen.c:6401-6413 | a multiplication by a power of two is the shift emitted for it |
| ExprCorrect.ShiftEmittedIff | src/codegen.c:6401-6413 | a multiplication by a constant is emitted as a shift exactly if the constant is a power of two above 1 |
| ExprCorrect.ConstantInPlace | src/codegen.c:6352-6420 | a constant on the right takes no register, except in a division |
| CodegenSpec.GenDiscipline | src/codegen.c:2550-2596 | with Need(e) registers free, gen never spills, returns a register that was free, and adds only that one to those in use |
| SpillLimits.OperandLostIff | src/codegen.c:2550-2583 | two variables are loaded into one register, and combined with each other there, exactly if no register but perhaps the last is free |
| SpillLimits.SpilledIsFree | src/codegen.c:2558-2596 | a register that was spilled comes back with its value, but as a free one, and is handed out again without being saved |
| ExprSimulation.ExprRun | src/codegen.c:3125-3160 | wherever the code of an expression stands in a program with unique labels, running it leaves the C value in its register, the locals as C leaves them, every register in use and the rest of the frame unchanged |
| ExprSimulation.LogicalRun | src/codegen.c:4762-4825 | the same for && and \|\|, nested in any way although all share one byte of the frame |
| ExprSimulation.CondRun | src/codegen.c:4826-4857 | the same for the conditional operator: one arm is evaluated, into a register that the other arm cannot disturb |
| ExprSimulation.PostRun | src/codegen.c:3927-4111 | postfix increment and decrement: the old value in the second register drawn, the new one in the local |
| ExprSimulation.BinaryRegRun | src/codegen.c:6255-6505 | binary operators on two registers, including division through rax and rdx and shifts through rcx |
| StmtSpec.StmtBalanced | src/codegen.c:4954-5137 | a statement gives back every register and restores both label stacks, and generation fails exactly for a break or continue outside a loop |
| StmtSimulation.BranchInvRun | src/codegen.c:3059-3121 | gen_cond_branch_inv jumps to its label exactly when the condition is 0, with comparisons fused into the jump or not |
| StmtSimulation.StmtRun | src/codegen.c:4460-5137 | every terminating run of a statement: the code reaches the exit that belongs to its outcome (falling through, the loop's end or continue label, the return label with the value in rax) with the locals C computes |
| StmtSimulation.ForLoop | src/codegen.c:4954-4987 | every iteration of a for loop, with its test, continue target and increment in the right order |
| StmtSimulation.DoLoop | src/codegen.c:4988-5010 | every iteration of a do loop, continue going to its test |
| Divergence.StmtGoes | src/codegen.c:4460-5137 | if C has not finished a statement after n loop iterations, its code makes at least n steps, wherever it stands |
| Divergence.ForLoopGoes | src/codegen.c:4954-4987 | each iteration of a for loop takes at least one step, also where test, body and increment have no code |
| Divergence.DoLoopGoes | src/codegen.c:4988-5010 | so does each iteration of a do loop |
| Labels.ExprLabels | src/codegen.c:4762-4857 | each label of an expression is drawn from the counter while it is generated, and defined at most once |
| Labels.StmtLabels | src/codegen.c:4858-5010 | the same for statements |
| Labels.BodyUniqueLabels | src/codegen.c:4858-5010 | no label is defined twice in a function body |
| Labels.BodyCorrect | src/codegen.c:4460-5137 | from any frame that holds the locals, the code of a body runs to its end with the locals and the returned value of C, and touches nothing else in the frame |
| Divergence.BodyRunning | src/codegen.c:8040-8066 | if C needs more than n + 2 iterations for a function body, the machine has not got to the return label after n steps |
| Divergence.EmptyLoopDiverges | src/codegen.c:4954-4987 | for (;;) ; runs for ever in C, so what is said of divergence is not empty |
| CodeGenerator.Generator.SpillOffset | src/codegen.c:152-157 | a register's spill slot, allocated on first use |
| CodeGenerator.Generator.AllocReg | src/codegen.c:2550-2583 | hands out the first free register, or spills, as Alloc says |
| CodeGenerator.Generator.FreeReg | src/codegen.c:2585-2596 | gives a register back, or restores what it held before a spill |
| CodeGenerator.Generator.ShiftCount | src/codegen.c:6401-6408 | the loop computes the logarithm |
| CodeGenerator.Generator.GenExpr | src/codegen.c:3125-3160 | appends exactly the code of GenE to the output, with the same register and state |
| CodeGenerator.Generator.GenLogical | src/codegen.c:4762-4825 | appends exactly the code of a logical operator |
| CodeGenerator.Generator.GenCond | src/codegen.c:4826-4857 | appends exactly the code of a conditional expression |
| CodeGenerator.Generator.GenPostOp | src/codegen.c:3927-4111 | appends exactly the code of a postfix operator |
| CodeGenerator.Generator.GenCondBranchInv | src/codegen.c:3059-3121 | appends exactly the code of the inverted branch |
| CodeGenerator.Generator.GenStatement | src/codegen.c:4460-5137 | appends exactly the code of GenS, for statements whose loops nest at most 128 deep |
| CodeGenerator.Generator.GenFor | src/codegen.c:4954-4987 | pushes the loop's labels, generates its parts, pops them |
| CodeGenerator.Generator.GenDo | src/codegen.c:4988-5010 | pushes the loop's labels, generates its parts, pops them |
| Peephole.RewriteDrops | src/codegen.c:7027-7070 | every rewrite, by any of the five patterns, makes a lexicographic measure of the window smaller, so the do-while ends |
| Peephole.CopyDrops | src/codegen.c:7037-7048 | propagating a copy settles its own pair and unsettles no earlier one |
| PeepholeCorrect.EffectLe | src/codegen.c:6988-7071 | a line behaves alike in two states that agree on what is defined |
| PeepholeCorrect.PairLocal | src/codegen.c:6776-6880 | behind the first line of a pair, the rewritten second line does what the original did (patterns 1, 2, 4) |
| PeepholeCorrect.PairRun | src/codegen.c:6776-6880 | a whole run of a program is matched by a run of the program with one pair rewritten, jumps included (patterns 1 to 4) |
| PeepholeCorrect.SlideRefined | src/codegen.c:6988-7071 | the same for the whole pass of the window over the body |
| PeepholeCorrect.RunPrinted | src/codegen.c:7009-7018 | dropping the emptied lines does not change any run |
| PeepholeCorrect.TripleRefined | src/codegen.c:6932-6955 | whole runs with pattern 5 applied to three lines whose D is X |
| PeepholeCorrect.OptimizedRun | src/codegen.c:6982-7072 | every run of a body on which pattern 5 does no harm, followed by the rest of the function, is matched by a run of the optimized body with the same registers, memory and flags, to the corresponding line |
| PeepholeCorrect.OptimizedGoes | src/codegen.c:6982-7072 | a body that goes on for long enough goes on, in any number of steps, after it has been optimized |
| PeepholeWindow.TryPatterns | src/codegen.c:7028-7069 | one pass of the inner loop applies the first rewrite that matches, and says whether there was one |
| PeepholeWindow.SettleWindow | src/codegen.c:7025-7070 | the do-while brings the window to its fixpoint |
| PeepholeSettled.WindowSettled | src/codegen.c:7025-7070 | what a settled window cannot hold, told on the lines: a jump to the next line, a register moved twice, a load of what was just stored, an operation on a constant in a register, a value loaded, worked on and moved on |
| PeepholeSettled.OptimizedSettled | src/codegen.c:6982-7072 | in the whole text that is written, no two lines with at most one deleted line between them are such a pair |
| PeepholeSettled.LiveWithin30 | src/codegen.c:6887-6930 | the liveness scan sees a label or a mention of the register in the next 30 lines, and nothing beyond |
| PeepholeSettled.CopyOutput | src/codegen.c:7039-7048 | what two register moves in a row become |
| PeepholeSettled.LoadOutput | src/codegen.c:6789-6819 | what a store and a load of the same slot become |
| PeepholeSettled.JumpGone | src/codegen.c:6823-6839 | a jump to the next line is deleted, whatever its label |
| PeepholeSettled.ConstantOutput | src/codegen.c:6842-6884 | what an operation on a register just loaded with a constant becomes |
| PeepholeWindow.EmitPeepholeBody | src/codegen.c:6982-7072 | the driver writes the optimized body, or the body itself at -O0; of a jump and its label it writes the label |
| PeepholeLimits.Pattern5Iff | src/codegen.c:6932-6955 | on lines that can run, what pattern 5 writes leaves every register but X as the original lines do, from every state, exactly if D is X |
| PeepholeLimits.Pattern5Differs | src/codegen.c:6932-6955 | for every other triple that it fires on, a state that shows the difference |
| PeepholeLimits.NotFineHarmed | src/codegen.c:6932-6980 | every three lines that OptimizedRun does not allow, if they can run, come out of the patterns as lines that differ in some state |
| PeepholeLimits.Pattern5Same | src/codegen.c:6932-6955 | where D is X the rewritten lines do all that the original ones do |
| PeepholeLimits.LostIsWrong | src/codegen.c:6932-6980 | three lines of int code that are rewritten wrongly |
| PeepholeLimits.Pattern5Fires | src/codegen.c:6932-6980 | three lines for which pattern 5 is applied |
| PeepholeLimits.Pattern5Wrong | src/codegen.c:6932-6980 | a state from which those lines leave 7 in the register and their rewritten form 1 |
| PeepholeLimits.Pattern2Accepted | src/codegen.c:6791-6817 | pattern 2 produces an acceptable line exactly unless a dword store is followed by a qword load |
| PeepholeLimits.Pattern4Accepted | src/codegen.c:6841-6880 | putting the constant into an operation produces an acceptable line exactly unless that has a memory operand and no suffix |
| PeepholeLimits.Pattern4UpperHalf | src/codegen.c:6841-6880 | deleting an operation without effect on the low half keeps the register exactly if its upper half was clear |
| PeepholeLimits.FirstJumpStays | src/codegen.c:7013-7023 | of three jumps to the next label the first stays, because it has left the window when the others go |
| OptimizedBody.StmtTidy | src/codegen.c:4460-5137 | what the code generator emits meets the optimizer's conditions: matched widths, no flag read that a compare did not set |
| OptimizedBody.TidyCodeOk | src/codegen.c:6988-7071 | those conditions are the ones OptimizedRun needs |
| OptimizedBody.CompiledBodyCorrect | src/codegen.c:8040-8066 | generated and optimized, a function body computes what C says |
| OptimizedBody.CompiledBodyDiverges | src/codegen.c:8040-8066 | where C runs for ever, the generated and optimized body never gets to its return label |
| OptimizedBody.CompiledBodyEndsIff | src/codegen.c:8040-8066 | where C leaves nothing undefined, the body returns exactly if C comes to an end |
| OptimizedBody.CompileBody | src/codegen.c:8040-8066 | the compiler's path for a body fails exactly for a stray break or continue, and otherwise writes code that computes what C says, for all locals and all runs, and that does not return where C does not |
| BitFieldAccess.StoreCorrect | src/codegen.c:3734-3763 | a simple store changes exactly the field's bits, to the low bits of the value, also in a ninth byte |
| BitFieldAccess.LoadCorrect | src/codegen.c:4137-4258 | a load yields exactly the field's bits, zero- or sign-extended, also from a ninth byte |
| BitFieldAccess.CompoundCorrectIff | src/codegen.c:3685-3731 | an assignment that reads the field stores all of it exactly if it does not reach into a ninth byte |
| BitFieldAccess.ReadAfterWrite | src/codegen.c:3734-3762 | a field read after a store has the stored value, truncated to its width |
| BitFieldAccess.ReadUnchanged | src/codegen.c:4184-4215 | a load depends on nothing but the field's own bits |
| BitFieldLayout.AlignToRoundUp | src/parser.c:114-116 | align_to is the least multiple that is not smaller, for powers of two |
| BitFieldLayout.PlaceLeast | src/parser.c:1434-1490 | each declaration goes to the least admissible bit behind the previous one (GCC and packed rules, zero-width fields included) |
| BitFieldLayout.MemberPlaced | src/parser.c:1434-1507 | offset and bit offset recorded for a member denote that bit, the field fits its unit or load size, and ordinary members are aligned |
| BitFieldLayout.ExpectedGood | src/parser.c:1403-1541 | for every member list, bit ranges are in order and disjoint and every field fits |
| BitFieldLayout.PlaceInUnit | src/parser.c:1460-1490 | the GCC branch: place in the aligned unit that holds the cursor, or in the next; offset stays ceil(bit_pos / 8) |
| BitFieldLayout.CloseUnit | src/parser.c:1360-1368 | a zero-width field moves to the next unit boundary; offset stays ceil(bit_pos / 8) |
| BitFieldLayout.PlaceDense | src/parser.c:1434-1459 | the packed branch: place at the cursor and record the load size; offset stays ceil(bit_pos / 8) |
| BitFieldLayout.PlaceInRun | src/parser.c:1416-1433 | the Microsoft branch: join the unit of an adjacent field of the same kind with room for it, or open a new one |
| BitFieldLayout.MsNeighbours | src/parser.c:1412-1433 | two neighbouring bit-fields share a unit exactly if they have the same kind and the second fits behind the first |
| BitFieldLayout.PlaceField | src/parser.c:1403-1480 | a bit-field in any of the three modes goes where the rules put it |
| BitFieldLayout.PlaceGap | src/parser.c:1340-1388 | so does an unnamed one |
| BitFieldLayout.RunStep | src/parser.c:1416-1433 | a Microsoft field of non-zero width keeps everything laid out so far disjoint, in order and inside its unit |
| BitFieldLayout.Layout | src/parser.c:1230-1566 | the whole loop computes the members the rules give in all three modes; the alignment is the largest that the declarations ask for, capped by packing and raised by an attribute, and the size the least multiple of it that holds them; ranges are disjoint and in order (Microsoft mode: without zero-width fields), units lie inside the struct |
| BitFieldLayout.LargestUnique | src/parser.c:1558-1565 | no two alignments are both the largest that the declarations ask for, so Layout determines the alignment and the size |
| BitFieldLayout.EndToEnd | src/codegen.c:3734-3763 | for any laid-out member list: after a store to one bit-field a load of it gives the truncated value, every other bit-field reads as before, and no bit outside it changes |
| BitFieldLayout.MsRun | src/parser.c:1403-1541 | Microsoft layout of any list without zero-width fields keeps ranges in order and disjoint, each in its unit |
| BitFieldLayout.DeclaredFields | src/parser.c:1252-1566 | the same from the declarations, in all three modes: what is laid out can be written and read back field by field |
| BitFieldLayout.NinthByteArises | src/parser.c:1446-1459 | a packed struct in which a field does reach into a ninth byte |
| Interpreter.ExprAgrees | src/opt.c:10-91 | if C gives an expression a value and the interpreter succeeds, value and locals agree |
| Interpreter.StmtAgrees | src/opt.c:28-54 | the same for statements, with early return through blocks, ifs and loops |
| Interpreter.BodyAgrees | src/opt.c:28-33 | the same for lists of statements |
| Interpreter.FunctionAgrees | src/opt.c:92-129 | the same for a call and for the calls by name that it makes in turn, with slots asked only of the functions that these reach |
| Interpreter.StuckStmts | src/opt.c:10-134 | statements with a loop, a logical operator or an unnamed call that cannot be passed by never end well |
| EvalAst.EvalExpr | src/opt.c:10-91 | the interpreter over the array it updates in place computes the interpreter on values |
| EvalAst.EvalCall | src/opt.c:92-129 | the same for a call, which gets an array of its own; it is lost if there is no name in its node |
| EvalAst.EvalArgList | src/opt.c:93-102 | at most nine arguments are evaluated, in order |
| EvalAst.BindParams | src/opt.c:111-118 | arguments are stored in the parameters' slots, later ones over earlier ones |
| EvalAst.EvalStmt | src/opt.c:28-54 | the same for statements |
| EvalAst.EvalBody | src/opt.c:119-125 | statements are executed up to the first return |
| OptimizerTrees.SameE | src/opt.c:152-248 | rewriting all children in one order, then lists, then the node, is on expressions what Optimizer says case by case |
| OptimizerTrees.SameS | src/opt.c:152-248 | the same on statements |
| OptimizeNodes.OptimizeKid | src/opt.c:154-160 | a child is replaced by what it becomes, and the other nodes stay as they were |
| OptimizeNodes.OptimizeKids | src/opt.c:154-160 | all children in the order of the code; the first that stops the compiler stops it |
| OptimizeNodes.OptimizeNext | src/opt.c:164-179 | one round of a list: the node is rewritten, and the one before it linked to what it became |
| OptimizeNodes.OptimizeList | src/opt.c:164-179 | relinking while walking keeps the length and order of a list, although nodes in it are replaced |
| OptimizeNodes.ConstantsIn | src/opt.c:202-211 | whether all arguments are numbers, and the values of the first ten |
| OptimizeNodes.RunTarget | src/opt.c:220-236 | the interpreter on the target gives what RunCall says |
| OptimizeNodes.FoldNode | src/opt.c:181-247 | a node is replaced by a new number, left as it is, or ends the compiler, as FoldTree says |
| OptimizeNodes.OptimizeNode | src/opt.c:152-248 | nodes of which none is in two places, rewritten in place, make the tree that RewriteTree gives; no other node changes, and the links behind the node stay |
| OptimizeProgram.OptimizeAll | src/opt.c:250-264 | after all functions the nodes make the program Optimize gives, and none of them is in two places |
| Optimizer.FoldAgrees | src/opt.c:181-199 | folding two constants gives the value C gives, where C gives one |
| Folding.ConstantsFolded | src/opt.c:181-199 | arithmetic on two constants becomes the number C gives, where C gives one, and otherwise the low 64 bits of the result; a zero divisor is left alone, and the compiler stops exactly for INT64_MIN / -1 and INT64_MIN % -1 |
| Folding.OptFolds | src/opt.c:153-199 | without calls by name, an expression becomes a number exactly if it is a constant expression, of its 64-bit value, and the compiler gets through it exactly if no such division is in it |
| Folding.OptimizeFolds | src/opt.c:248-278 | whatever the program, no arithmetic on two constants is left in it but divisions by zero |
| Folding.OptimizeDoneIff | src/opt.c:248-278 | if nothing is called by name, the compiler gets through a program exactly if no constant INT64_MIN is divided by a constant -1 |
| Folding.SmallConstantsStop | src/opt.c:181-199 | constants that are ints are not enough for that: -2147483648 * 65536 * 65536 / -1 |
| Folding.IntProgramDone | src/opt.c:181-199 | it is enough that all constant expressions have values that are ints |
| Optimizer.CallPreserved | src/opt.c:201-245 | replacing a named call by the number the interpreter computed preserves its meaning |
| OptimizerViews.EvalBehindE | src/opt.c:104-110 | what is run from function k on gets only to functions behind it, whatever the others have become, and ends |
| OptimizerViews.FoldBehind | src/opt.c:201-245 | so a call becomes the same whatever the function that it is in looks like at the moment |
| OptimizerViews.InPlaceE | src/opt.c:152-248 | an expression rewritten part by part, with the interpreter seeing the program as it stands, lists cut short included, becomes what it would with the interpreter on the original program |
| OptimizerViews.InPlaceS | src/opt.c:152-248 | the same for statements |
| OptimizerViews.RewrittenInPlace | src/opt.c:250-264 | the same for whole programs from the parser, and the interpreter never nests deeper than there are functions |
| OptimizerCorrect.PreservedE | src/opt.c:152-248 | a rewritten expression has the same value and effects wherever it had any |
| OptimizerCorrect.PreservedS | src/opt.c:152-171 | the same for statements |
| OptimizerCorrect.PreservedBody | src/opt.c:164-171 | and for lists of statements |
| OptimizerCorrect.OptimizePreserves | src/opt.c:250-264 | every program from the parser is preserved, if the compiler gets to the end of it, provided that the functions called by name have slots of their own for their variables or hold something that the interpreter cannot get through |
| OptimizerCorrect.NoNamesPreserved | src/opt.c:250-264 | in particular every program in which nothing is called before it is declared |
| NullNames.NoNullName | src/opt.c:104-110 | no null name is compared if every function that is called by name makes only calls by name |
| ExactCalls.ExactE | src/opt.c:10-91 | in functions of the interpreter's language, on an expression that C gives a value to, the interpreter succeeds if C's run makes no unnamed call, and otherwise compares a null name |
| ExactCalls.CallExact | src/opt.c:201-245 | a foldable call that C gives a value to is folded to it exactly if C's run makes only calls by name, and otherwise a null name is compared |
| OptimizerLimits.FaithfulIff | src/opt.c:210-229 | parameters read back as the arguments exactly if there are at most ten, in pairwise different slots below 256 |
| OptimizerLimits.ThreeInts | src/opt.c:222-229 | three int parameters at the offsets the parser gives them collide, and a named call is folded to a wrong number |
| OptimizerLimits.NullNameMet | src/opt.c:104-110 | a program from the parser, with slots of their own and a value in C, on which a null name is compared |
| OptimizerLimits.ZeroDivisorKept | src/opt.c:188-195 | a division or remainder by the constant zero is never folded |
| OptimizerLimits.UnnamedKept | src/opt.c:201-213 | of a call without a name, or of printf, only the arguments are rewritten |
| OptimizerLimits.CleanupKept | src/opt.c:136-142 | a call of a function with a cleanup local is never folded |
| OptimizerLimits.ZeroGivesUp | src/opt.c:68-82 | the interpreter gives up on a division by zero |
| OptimizerLimits.NineArguments | src/opt.c:91-102 | the interpreter passes at most nine arguments on |
| Varargs.LocsDiffer | src/codegen.c:1487-1530 | no two arguments share a register or a stack slot |
| Varargs.RegistersFirst | src/codegen.c:1487-1530 | six general registers, a hidden result pointer's included, and eight vector registers are handed out, and the rest goes on the stack in order |
| Varargs.ClassifyArgs | src/codegen.c:1487-1530 | the caller's loop gives every argument its place by class and position, and reserves the 16-aligned stack for them |
| Varargs.SaveParams | src/codegen.c:7384-7534 | the callee stores each named parameter from its place, a struct on the stack from its slot and not from where that points; its counters end where the caller's were |
| Varargs.ReceivedIff | src/codegen.c:7490-7532 | every named parameter is received, whatever the values, exactly if no named struct of more than eight bytes is passed on the stack |
| Varargs.SeventhStructLost | src/codegen.c:7512-7522 | six integers and a struct: the struct's parameter is not what was passed |
| Varargs.VaFollows | src/codegen.c:5804-5834 | at every step va_arg reads the save-area or stack slot that belongs to the place of that argument, for every split into named and unnamed |
| Varargs.ReadsOne | src/codegen.c:5804-5834 | an unnamed argument is read back with its value, provided al is not zero if it came in a vector register |
| Varargs.ReadsAll | src/codegen.c:7539-7588 | all unnamed arguments are read back if no named parameter overwrites al or none of them is in a vector register |
| Varargs.AgreementIff | src/codegen.c:7490-7588 | the protocol agrees for all values exactly under that condition |
| Varargs.NamedStructThenDouble | src/codegen.c:7490-7588 | it does not for a named struct of more than eight bytes and an unnamed double |
| ArgPlacement.PlaceArgs | src/codegen.c:1986-2021 | what the two passes over the evaluated arguments leave in each argument register |
| ArgPlacement.PlacementIff | src/codegen.c:1986-2021 | every argument arrives exactly unless a double was evaluated into rsi and the second integer register is used |
| ArgPlacement.SecondDoubleLost | src/codegen.c:1986-2021 | six integers and two doubles: the second double is lost |
| Conditionals.ItemsRun | src/preprocess.c:1625-1712 | a stretch of well-nested text is kept as the standard says if the state is active, has no effect otherwise, and restores the state |
| Conditionals.BranchesRun | src/preprocess.c:1643-1705 | the #elif and #else branches of a group: the first true one is kept, and none after it |
| Conditionals.Refines | src/preprocess.c:1625-1712 | from an active state, exactly the lines of well-nested text are kept, and the macros defined, that the tree semantics of section 6.10.1 of ISO/IEC 9899:2011 gives |
| Conditionals.WellNestedIff | src/preprocess.c:1625-1712 | text is well nested exactly if it is the lines of some tree |
| Conditionals.StepOk | src/preprocess.c:66-71 | every line, well nested or not, keeps the invariant of the stack |
| Conditionals.OneBranch | src/preprocess.c:1643-1705 | once a branch of a group was taken, no other is activated |
| Conditionals.LatestDecides | src/preprocess.c:1665-1700 | #ifdef and #ifndef take the branch that the latest #define or #undef of their name decides, whatever stands between |
| Conditionals.StrayLines | src/preprocess.c:1646-1712 | an #elif outside of all groups silences the rest of the file, whatever follows; an #else or #endif there is ignored |
| Conditionals.Scanner.Scan | src/preprocess.c:1625-1712 | the scanner's state after a line is that of the machine |
| Conditionals.Scanner.ScanFile | src/preprocess.c:1625-1712 | and after all lines of a file |
| MacroTable.OtherName | src/preprocess.c:468-552 | what is done to one name does not concern another |
| MacroTable.LatestCounts | src/preprocess.c:476-552 | the latest definition of a name counts, until the name is undefined |
| MacroTable.PushPopRestores | src/preprocess.c:476-534 | push_macro and the pop_macro that matches it restore the definition or absence of the name, whatever happens between |
| MacroTable.RemoveOk | src/preprocess.c:51-59 | unlinking a macro from list and index keeps them in agreement |
| MacroTable.AddOk | src/preprocess.c:44-49 | so does adding one |
| MacroTable.ChangeOk | src/preprocess.c:536-552 | so does redefining one in place |
| MacroTable.LookupFound | src/preprocess.c:468-474 | a search of one hash chain finds the definition, or there is none |
| MacroTable.DistinctIff | src/preprocess.c:106-111 | list and the index built from it agree on every name exactly if the names in the list are distinct |
| MacroTable.StartOk | src/preprocess.c:106-111 | with distinct names they are in agreement from the start, and still are when a name is removed from both |
| MacroTable.Macros.FindMacro | src/preprocess.c:468-474 | returns the node that holds the current definition, or reports that there is none |
| MacroTable.Macros.DefineMacro | src/preprocess.c:536-552 | the table is the old one with the definition added or replaced |
| MacroTable.Macros.UndefMacro | src/preprocess.c:1546-1563 | the table is the old one without the name |
| MacroTable.Macros.PushMacro | src/preprocess.c:476-495 | saves the current definition or its absence for the name |
| MacroTable.Macros.PopMacro | src/preprocess.c:497-534 | restores what was saved last for the name, and takes it off the stack |
| CallDepth.LineLawful | src/preprocess.c:885-1037 | a line whose calls are complete, over macros whose bodies are balanced and complete, and whose nesting as computed from line and table is within the cap: no macro is substituted in its own expansion in any rescan, no marked word is substituted, and nothing is left to substitute |
| CallDepth.FewCalls | src/preprocess.c:885-887 | that is so if n macros with parentheses p deep and a line with parentheses q deep have n (p + 1) + q at most 20 |
| CallDepth.ExpandFits | src/preprocess.c:885-1037 | within the bound the cap is never reached and everything is substituted |
| CompleteCalls.ExpandComplete | src/preprocess.c:999-1009 | a complete line is never an error, no call in it is ever copied, and what it becomes is complete |
| CompleteCalls.MarkedThrough | src/preprocess.c:893-900 | a marked word outside of calls stays in place, unexpanded, through every rescan |
| CompleteCalls.PlainIsAlike | src/preprocess.c:1036-1037 | the comparison that decides on a rescan finds two texts equal exactly if their tokens and marks are |
| CommaFree.CommaFreeLawful | src/preprocess.c:999-1009 | without commas in line and bodies, and with a parameter for every function-like macro, only the cap can make an expansion unlawful |
| MacroExpansion.ExpandFlagged | src/preprocess.c:885-1037 | in every run whatever, no marked word is substituted and no macro while it is being expanded |
| MacroExpansion.ExpandLawful | src/preprocess.c:885-1037 | in an expansion that does not reach the depth cap and copies no call, no word is substituted that came from an expansion of its own macro, in any rescan; no object-like macro remains in the result |
| MacroCalls.ParsedArguments | src/preprocess.c:831-883 | what is read as arguments is trimmed, balanced and without a top-level comma, and there are at most 33 |
| MacroCalls.TrimEnds | src/preprocess.c:831-883 | an argument loses the white space at both ends, and nothing else |
| MacroCalls.ParseBack | src/preprocess.c:831-883 | such arguments written with commas between them are read back |
| MacroCalls.CopiedCall | src/preprocess.c:999-1009 | a call copied because of its number of arguments is read again as it was, except that M( ) becomes M() |
| MacroCalls.ArgumentCount | src/preprocess.c:831-883 | the commas decide the number of arguments, and more than 32 of them are an error |
| MacroCalls.OneMoreThanFits | src/preprocess.c:831-883 | more arguments than the array has places are read exactly if there are 32 commas |
| MacroCalls.ParameterReplaced | src/preprocess.c:802-820 | a parameter in a body is replaced by the argument of its own position |
| CallMeaning.EachExpanded | src/preprocess.c:1011-1021 | text i that the substitution gets is the expansion of argument i |
| CallMeaning.OwnValue | src/preprocess.c:802-820 | a parameter stands for its own value |
| CallMeaning.CallExpands | src/preprocess.c:980-1026 | a call at the start of a complete line within the cap becomes the body, each parameter replaced by the expansion of its own argument and the whole expanded again without the macro, followed by the expansion of the rest of the line |
| CallMeaning.CallOfPlainBody | src/preprocess.c:980-1026 | with nothing to substitute in the body itself, it becomes just that |
| CallMeaning.QuietCall | src/preprocess.c:980-1026 | over any table: a call with nothing to substitute in its arguments and body becomes the body with each parameter replaced by its own argument |
| CallMeaning.NotCalled | src/preprocess.c:980-993 | the name of a function-like macro that no parenthesis follows stays where it is |
| CallMeaning.ExpandMeaning | src/preprocess.c:885-1037 | every complete line within the cap is expanded to its meaning, which is told without rescans and without depth |
| ObjectMacros.ExpandMeans | src/preprocess.c:885-1037 | with object-like macros, the expansion is cut exactly when the text nests deeper than the levels left, and otherwise is the text with every word replaced that did not come from its own expansion |
| ObjectMacros.FewMacros | src/preprocess.c:885-887 | with at most 20 object-like macros it never is cut |
| ExpansionLimits.AlwaysLawfulIff | src/preprocess.c:885-887 | every line over every table of n object-like macros is expanded lawfully exactly if n is at most 20 |
| ExpansionLimits.ChainBreaks | src/preprocess.c:885-887 | in any chain of 21 macros the last is substituted in its own expansion |
| ExpansionLimits.TooManyArguments | src/preprocess.c:999-1009 | a line in which a macro is substituted in its own expansion although the cap is far |
| Expander.ParseMacroArgs | src/preprocess.c:831-883 | the loop returns the arguments and the end of the call, or fails where the program exits |
| Expander.Expander.ExpandText | src/preprocess.c:885-1037 | the expansion with flags set and cleared in the table is the function, and every flag is left as it was found |
| Expander.Expander.ExpandCall | src/preprocess.c:986-1027 | the same for a call: arguments first, then the body with the flag set |
| GlobalData.Global.AppendReloc | src/parser.c:1832-1863 | the list stays strictly sorted; the offset now has the new label and every other offset is unchanged |
| GlobalData.Global.RemoveReloc | src/parser.c:2211-2223 | the offset now has no label and every other offset is unchanged |
| GlobalData.Global.EnsureInitSize | src/parser.c:2225-2236 | data grows to the size asked for, by zeros |
| GlobalData.Global.WriteScalarBytes | src/parser.c:2238-2259 | the scalar's little-endian bytes replace data and a label at their offset, and nothing else changes |
| GlobalData.BytesHold | src/parser.c:2238-2259 | the n bytes that are written for a scalar hold its low 8n bits |
| GlobalData.Initialise | src/parser.c:2211-2259 | after any mix of label and scalar writes, the label at each offset and each byte of the data are those of the last write there, and the data reaches as far as the type and the scalars do |
| GlobalData.Global.Emit | src/codegen.c:7267-7288 | the emitted image has the size of the type and is the data with each label at its offset if labels are at least eight bytes apart; all labels are at their offsets exactly then, and otherwise each directly behind the one before |
| GlobalData.NotPlaced | src/codegen.c:7267-7288 | labels that overlap cannot all be at their offsets |
| GlobalImage.EmitInitialised | src/parser.c:2211-2259 | every byte of the emitted image is that of the last write to it exactly if each label is left alone afterwards, or overwritten from its start and altogether |
| GlobalImage.ScalarHidden | src/parser.c:2211-2223 | after a label and then a scalar inside it, the emitted bytes are all the label's |
| Reorder.SortFacts | src/unicode.c:937-952 | a run is permuted, ends up sorted by class, and keeps its order within each class |
| Reorder.ReorderedCanonical | src/unicode.c:972-1043 | starters stay in place and each maximal run of non-zero classes is stably sorted (section 3.11 of the Unicode Standard) |
| Reorder.Idempotent | src/unicode.c:972-1043 | reordering twice is reordering once |
| Reorder.SortingUnique | src/unicode.c:944-952 | class and position decide the order, so any correct qsort gives the same result |
| Reorder.SpecOrderSorts | src/unicode.c:944-952 | sorting by class and position is the stable sort by class |
| Reorder.Flush | src/unicode.c:1012-1029 | flushing a collected run writes its stable sort |
| ReorderText.EncUtf8 | src/unicode.c:648-672 | the table-driven encoder writes the bytes of Encode and a NUL behind them |
| ReorderText.DecUtf8 | src/unicode.c:625-645 | the table-driven decoder reads back what was encoded |
| ReorderText.ReorderBytes | src/unicode.c:972-1043 | for every text and every size passed for the buffer: succeeds exactly if text and NUL fit, and then the buffer holds the encoding of the reordered code points; writes behind the end exactly where EndingOf says so |
| ReorderText.Output | src/unicode.c:1011-1036 | a run and its starter, sorted and encoded, bring the buffer to the next stage of the reordered text, or end the call as EndingOf says: refused with nothing written, or all cleared after a write behind the end |
| ReorderText.FitsIff | src/unicode.c:1012-1036 | everything is written exactly if the text is shorter than the buffer |
| ReorderText.RunEnding | src/unicode.c:1012-1016 | a single run that does not fit is refused exactly if it has as many code points as bytes are left, and otherwise written behind the end |
| Utf8.DecodeEncoded | src/unicode.c:1327-1386 | decoding what was encoded consumes exactly its bytes and gives its 21 low bits, whatever follows |
| Utf8.RoundTripIff | src/unicode.c:1327-1386 | a value survives exactly if it is below 2^21 |
| Utf8.RoundTrip | src/unicode.c:1327-1386 | every sequence of code points up to 0x10FFFF is read back from its concatenated encodings |
| Utf8.EncodeInjective | src/unicode.c:1327-1351 | a text determines its code points |
| Utf8.EncodeInto | src/unicode.c:1327-1351 | writes the encoding at its place in the buffer and nothing else |
| Utf8.DecodeFront | src/unicode.c:1355-1386 | the decoder's loop over continuation bytes computes Decode, malformed input included |
| Utf8.AcceptedIff | src/unicode.c:1355-1386 | a text is accepted exactly if its first byte is not one of 0x80 to 0xbf and as many bytes as it announces follow that are |
| Utf8.DecodeText | src/unicode.c:1355-1386 | decoding code point by code point computes DecodeAll |
| Interning.BlockAdded | src/alloc.c:19-37 | a block cut from the current chunk is disjoint from all others |
| Interning.OtherTexts | src/alloc.c:83-91 | writing into a new block changes no text handed out before |
| Interning.ObjectsDiffer | src/alloc.c:75-92 | two interned strings are one object exactly if they are equal |
| Interning.Lookup | src/alloc.c:78-81 | the search of a hash chain finds the object of a string, or it was never interned |
| Interning.Pool.ArenaAlloc | src/alloc.c:19-37 | returns zeroed memory that overlaps no block handed out before |
| Interning.Pool.Intern | src/alloc.c:75-92 | returns the object of the string; all earlier objects stay what they were |
| Interning.InternAll | src/alloc.c:75-92 | over a whole run, results are equal exactly if the strings are, and all still read as their strings at the end |

## Left out

Code generator and peephole optimizer

- Prologue, epilogue and the callee-saved pushes; a function is modelled from the first to the last line of its body.
- Spilling: AllocReg and FreeReg spill as the code does, but the meaning of code is claimed only within the bound Need, under which nothing spills; SpillLimits says what the code does then.
- Types other than int, pointers, calls, goto, switch and variable-length arrays in generated code.
- The arm of an if with a constant condition that is not generated is not checked for a stray break, as in the code.
- Loops nested more than 128 deep, for which the label stacks have no room.
- PeepholeCorrect.OptimizedRun: asks that no dword store stands right before a qword load of its slot, where pattern 2 makes a line that no assembler accepts (PeepholeLimits.Pattern2Accepted), and that no operation which the optimizer knows goes to memory without a suffix, where pattern 4 can make one (PeepholeLimits.Pattern4Accepted).
- The text of assembler lines: instructions are data, and the optimizer's parsing of lines is modelled by their operands and suffixes.

Bit-fields

- Unions, flexible and variable-length members, bit-field types with an alignment above their size, pack values that are no power of two, overflow of the int that holds bit_pos.
- Zero-width fields in Microsoft mode are laid out, but disjointness is not claimed for lists that hold them.
- EndToEnd: fields of 64 bits, whose mask the shift cannot build, are not covered.
- The value of an assignment expression to a bit-field, and static initialisers of bit-fields.

AST optimizer

- Globals, unsigned and wider types in the interpreter; break, continue, goto and pointers in the functions it runs.
- OptimizeNodes.OptimizeNode: the interpreter is given the program as it was; that it would see nothing else in the nodes is OptimizerViews.RewrittenInPlace.
- OptimizerCorrect.OptimizePreserves: a function called by name whose variables share slots may be preserved all the same, if its values happen not to clash or it is never called with constants.
- NullNames.NoNullName: its condition is sufficient; the exact one, of ExactCalls.CallExact, is about the runs of C.
- Calls through variables, casts around arguments, and functions without a value.

Calls

- long double, 4-byte float and struct arguments of floating class; sizes of large structs that are no multiple of eight; the evaluation of arguments itself.

Preprocessor

- Files, #include, #pragma other than push_macro and pop_macro, the value of an #if expression, which is a parameter.
- Expansion works on tokens: two pieces that become one word when they touch, unbalanced quotes and the rule for suffixes of numbers are not modelled.
- Variadic macros, # and ##, __LINE__, __FILE__, __COUNTER__ and __has_include.
- MacroExpansion.ExpandLawful: its condition is on the run; the conditions on line and table are those of CallDepth.LineLawful, CommaFree.CommaFreeLawful and ObjectMacros.ExpandMeans, which are sufficient and do not cover names of function-like macros that stand without a call, unless there are no commas.
- The array of 32 arguments itself: what is written past its end.

Data and text

- Scalars of a size other than 1, 2, 4 and 8, and relocations outside the data.
- ReorderText.ReorderBytes: texts that are not UTF-8, and hold NUL; the combining-class table is a parameter, and the growing array of a run is a sequence.
- Identifier rules of Unicode, and decoding of characters other than UTF-8.
- Freeing the arena.

Everywhere: the ARM64, Windows and Apple branches, diagnostics and debug information.
