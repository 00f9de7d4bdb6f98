# mavix bytecode core in Dafny

This project models the bytecode half of mavix, a small clox-style
expression compiler written in C. It covers:

- the single-pass Pratt compiler of `src/compiler.c`, which turns a token
  stream into a chunk;
- the chunk itself (`src/chunk.c`): a byte buffer, a run-length line table
  and a constant pool;
- the fetch loop of the virtual machine (`src/vm.c`);
- the disassembler (`src/debug.c`);
- the tagged `Value` and its growable array (`include/value.h`,
  `src/value.c`) and the growth rule of `include/memory.h`;
- the fixed-size operand stack of `tests/stack_size.c`.

Modules follow the source files:

| module | models |
|---|---|
| `Values` | `include/value.h`: the tag, the payload and the `IS_*`, `AS_*` and `*_VAL` macros |
| `ValueArrays` | `src/value.c`: class `ValueArray`, a growable buffer (a `seq` whose live prefix is `count`) |
| `Memory` | `GROW_CAPACITY` |
| `Opcodes` | the instruction set, the byte type, and what a well-formed instruction stream is |
| `Chunks` | `src/chunk.c`: class `Chunk`, plus the line table as a pure run-length encoding |
| `Tokens` | the token stream the scanner hands to the compiler |
| `CompilerSpec` | `src/compiler.c` as pure functions over one state value (parser, token position, emitted code, lines, constants, diagnostics) |
| `Compilers` | class `Compiler`: the global parser and `compilingChunk` as fields; every C function except getRule (a pure lookup) and currentChunk (the field itself) is a method proved to compute the matching `CompilerSpec` function |
| `Pratt` | what the compiler computes on well-formed input: expression trees, their postfix code, and the theorem that parsing emits exactly that |
| `Vm` | `src/vm.c`: the run loop as a function `Exec` and as class `VM`, whose `Run` loop is proved to compute `Exec` |
| `Debug` | `src/debug.c`, with each printed line kept as an `Entry` value |
| `StackSize` | `tests/stack_size.c`: class `Machine` over an `array` of `STACK_MAX` slots |
| `Pipeline` | lemmas across components: compiling then running, and the two constant encodings side by side |
| `Wrappers` | `Option` and sequence-associativity helpers |

The repository contains two constant encodings, and they do not agree:

- `compiler.c` and `vm.c` use `OP_CONSTANT` for indices up to 255. Larger
  indices use `OP_CONSTANT_LONG` with a big-endian 24-bit operand.
- `chunk.c`'s `writeConstant` and `debug.c` use the short form only below
  255. Larger indices use a little-endian 24-bit operand.

Each matching pair is proved to round-trip
(`Pipeline.VmReadsEmittedConstant`, `Pipeline.DebugReadsWrittenConstant`).
A concrete input shows each mismatched pair misreading
(`Pipeline.DebugMisreadsEmittedConstant`, `Pipeline.VmMisreadsWrittenConstant`).

Opcode byte values: `include/chunk.h` in this revision declares only
`OP_RETURN`, so no file fixes these values. The model numbers the opcodes
0 to 14, in the order of the `switch` in `debug.c`.

## Model

| member | source | states |
|---|---|---|
| Values.BoolVal | include/value.h:22-33 | BOOL_VAL(b) builds a value that is IS_BOOL, not IS_NULL and not IS_NUMBER, and AS_BOOL gives back b |
| Values.NullVal | include/value.h:23-34 | NULL_VAL has tag VAL_NULL: it is IS_NULL and neither IS_BOOL nor IS_NUMBER |
| Values.NumberVal | include/value.h:24-35 | NUMBER_VAL(x) is IS_NUMBER only, and AS_NUMBER gives back x |
| Values.TypeOf | include/value.h:12-18 | the tag of the struct; it carries no contract of its own, and ExactlyOneTag and EveryValueIsConstructed state that each value has one tag and the payload that tag selects |
| Values.IsBool | include/value.h:22 | IS_BOOL compares the tag with VAL_BOOL; ExactlyOneTag states it holds of exactly the boolean values |
| Values.IsNull | include/value.h:23 | IS_NULL compares the tag with VAL_NULL; ExactlyOneTag states it holds of exactly null |
| Values.IsNumber | include/value.h:24 | IS_NUMBER compares the tag with VAL_NUMBER; ExactlyOneTag states it holds of exactly the numbers |
| Values.AsBool | include/value.h:28 | AS_BOOL reads the boolean member, and only of a value tagged VAL_BOOL; BoolVal and EveryValueIsConstructed state that it inverts BOOL_VAL |
| Values.AsNumber | include/value.h:29 | AS_NUMBER reads the number member, and only of a value tagged VAL_NUMBER; NumberVal and EveryValueIsConstructed state that it inverts NUMBER_VAL |
| Values.BoolValInjective | include/value.h:33 | BOOL_VAL builds equal values exactly for equal booleans |
| Values.NumberValInjective | include/value.h:35 | NUMBER_VAL builds equal values exactly for equal numbers |
| Values.ExactlyOneTag | include/value.h:5-24 | every value satisfies exactly one of IS_BOOL, IS_NULL and IS_NUMBER |
| Values.EveryValueIsConstructed | include/value.h:12-35 | every value is the *_VAL of what its AS_* reads, so the macros reach every tag/payload pair |
| ValueArrays.ValueArray.constructor | src/value.c:14-18 | a new array is empty, with count 0 and capacity 0 |
| ValueArrays.ValueArray.Init | src/value.c:14-18 | initValueArray resets to count 0, capacity 0 and no contents |
| ValueArrays.ValueArray.Write | src/value.c:31-41 | the value goes at index count and count grows by one; earlier values are unchanged; a full array grows to GROW_CAPACITY of its old capacity, otherwise capacity stays; count <= capacity is kept |
| ValueArrays.ValueArray.Free | src/value.c:54-58 | freeValueArray leaves the empty state |
| Memory.GrowCapacity | include/memory.h:7-8 | the new capacity is strictly larger than the old one and at least 8 |
| Memory.GrowSmall | include/memory.h:7-8 | a capacity below 8 grows to 8 |
| Memory.GrowDoubles | include/memory.h:7-8 | a capacity of 8 or more doubles |
| Memory.GrowthSequence | include/memory.h:7-8 | growing from 0 gives 8, 16, 32, ...: after n+1 steps the capacity is 8 * 2^n |
| Opcodes.FromByte | src/debug.c:84-131 | a byte names an opcode exactly when it is below 15, and that opcode encodes back to the byte; every other byte is an unknown opcode |
| Opcodes.ToByte | src/debug.c:84-129 | the byte of each opcode, numbered in the order of debug.c's cases; FromToByte and ToByteInjective state that the numbering is one to one and FromByte inverts it |
| Opcodes.Low8 | src/compiler.c:172-177 | the `(uint8_t)` cast and the `& 0xFF` mask: the low eight bits; CompilerSpec.LongOperandBytes and Debug.LittleEndianBytes state that the three masked bytes of an index give it back mod 2^24 |
| Opcodes.BigEndian24 | src/vm.c:26-32 | readLongIndex's b0<<16 \| b1<<8 \| b2, always below 2^24; Vm.VM.ReadLongIndex is proved to compute it, and CompilerSpec.LongOperandBytes states that it reads compiler.c's encoding back |
| Opcodes.Width | src/vm.c:61-77 | the length of an instruction, between 1 and 4: two bytes for OP_CONSTANT, four for OP_CONSTANT_LONG, one otherwise; Debug.NextOffsets states that debug.c steps by the same lengths |
| Opcodes.FromToByte | src/debug.c:84-129 | decoding an opcode's byte gives the opcode back |
| Opcodes.ToByteInjective | src/debug.c:84-129 | distinct opcodes have distinct bytes |
| Tokens.ScanToken | include/scanner.h:35-43 | the scanner hands out the stream's tokens in order, moving on after every token but TOKEN_EOF and staying put exactly at TOKEN_EOF, which ends the stream and occurs nowhere before its end |
| Tokens.ValidStream | include/scanner.h:35-43 | what the scanner's calls yield for one source: a non-empty token sequence whose last token, and only that one, is TOKEN_EOF; Pipeline.ExpressionStream states that every expression's tokens followed by EOF are one |
| Chunks.RecordLineExpands | src/chunk.c:57-72 | the line-table update of one write appends exactly that write's line to the lines the table describes |
| Chunks.RecordLineWellFormed | src/chunk.c:57-72 | the update keeps every run non-empty and adjacent runs on distinct lines |
| Chunks.RecordLinesExpands | src/chunk.c:41-75 | any sequence of writes leaves a table describing the old lines followed by the new ones |
| Chunks.RecordLinesWellFormed | src/chunk.c:41-75 | any sequence of writes keeps the table well formed |
| Chunks.SameLineIsOneRun | src/chunk.c:57-72 | n consecutive writes on one line into an empty table give a single run of length n |
| Chunks.SameLineExtendsRun | src/chunk.c:64-67 | n more writes on the line of the last run lengthen that run by n and add no run |
| Chunks.LineAtExpand | src/chunk.c:85-100 | getLine's subtraction walk, for 0 <= i < length, gives the line of byte i; past the end it gives -1; a negative index gives the first run's line |
| Chunks.CanonicalTable | src/chunk.c:57-72 | a well-formed table is determined by the lines it describes, so the encoding writeChunk builds is the unique one |
| Chunks.LineAt | src/chunk.c:85-100 | the pure function Chunk.GetLine is proved to compute; LineAtExpand states what it returns inside, past and before the table |
| Chunks.RecordLine | src/chunk.c:57-72 | the pure update Chunk.RecordLineOfByte is proved to compute; RecordLineExpands and RecordLineWellFormed carry its properties |
| Chunks.WriteConstantBytes | src/chunk.c:138-155 | the bytes Chunk.WriteConstant is proved to emit; Debug.WriteConstantListing and Pipeline.DebugReadsWrittenConstant state that the disassembler reads them back, and Pipeline.VmMisreadsWrittenConstant that the VM does not |
| Chunks.Chunk.constructor | src/chunk.c:7-19 | initChunk gives empty code, an empty line table and an empty pool, with capacities 0 |
| Chunks.Chunk.Free | src/chunk.c:22-27 | freeChunk returns the chunk to the initial empty state |
| Chunks.Chunk.WriteChunk | src/chunk.c:41-75 | the byte is appended and count grows by one, and earlier bytes are unchanged. The line table gets writeChunk's update: a new run or a longer last run. Byte i's recorded line is the line of the write that produced it. Capacity grows by GROW_CAPACITY only when full. The invariant is kept: runs are non-empty, adjacent runs differ, run lengths sum to count, count <= capacity |
| Chunks.Chunk.StoreByte | src/chunk.c:43-53 | the growth step and the store at code[count]: earlier bytes unchanged, capacity grown only when full |
| Chunks.Chunk.RecordLineOfByte | src/chunk.c:57-72 | the in-place line-table update equals RecordLine and keeps the table well formed |
| Chunks.Chunk.GetLine | src/chunk.c:85-100 | for 0 <= index < count, the loop returns the line the byte was written with; past the end -1; a negative index gives the first run's line |
| Chunks.Chunk.AddConstant | src/chunk.c:119-125 | the value is appended to the pool and the returned index is the new last index, the old pool size |
| Chunks.Chunk.WriteConstant | src/chunk.c:138-155 | the value is appended to the pool. The code gets writeConstant's encoding of its index: short form below 255; otherwise OP_CONSTANT_LONG and the low, middle and high bytes. Every emitted byte carries the given line |
| CompilerSpec.InfixRuleExists | src/compiler.c:276-317 | a token's rule has precedence above PREC_NONE exactly when the token is + - * /, which are exactly the tokens with an infix handler (binary) |
| CompilerSpec.OperatorPrecedences | src/compiler.c:276-317 | * and / are PREC_FACTOR, + and - are PREC_TERM, PREC_TERM < PREC_FACTOR < PREC_UNARY, and no rule reaches PREC_UNARY |
| CompilerSpec.PrefixRules | src/compiler.c:276-317 | exactly ( - number false null true have a prefix handler |
| CompilerSpec.PrefixHandlers | src/compiler.c:276-317 | ( maps to grouping, - to unary, a number to number, and false/null/true to literal |
| CompilerSpec.GetRule | src/compiler.c:276-317 | the rules table that getRule (src/compiler.c:355-357) looks up; InfixRuleExists, OperatorPrecedences, PrefixRules and PrefixHandlers state its rows |
| CompilerSpec.Report | src/compiler.c:59-75 | a diagnostic carries the token's line and the message; it says "at end" exactly for TOKEN_EOF and names no lexeme exactly for an error token |
| CompilerSpec.ErrorAt | src/compiler.c:59-75 | reporting an error never touches the tokens, the position, the code or the pool |
| CompilerSpec.ErrorAtReports | src/compiler.c:59-75 | in panic mode errorAt changes nothing; otherwise it sets panicMode and hadError and appends exactly one diagnostic; the flags it sets are never cleared |
| CompilerSpec.ErrorAtPrevious | src/compiler.c:79-81 | error() is errorAt at parser.previous; the pure function Compilers.Compiler.ErrorAtPrevious is proved to compute, and ErrorAtReports states its effect |
| CompilerSpec.ErrorAtCurrent | src/compiler.c:85-87 | errorAtCurrent is errorAt at parser.current; the pure function Compilers.Compiler.ErrorAtCurrent is proved to compute, and ErrorAtReports states its effect |
| CompilerSpec.FirstNonError | src/compiler.c:100-107 | the scan stops at the first token from position i that is not TOKEN_ERROR; every token skipped is one |
| CompilerSpec.ScanLoop | src/compiler.c:100-107 | the scan loop never moves back; it moves forward unless it ends on TOKEN_EOF, and it leaves previous alone |
| CompilerSpec.ScanLoopTurn | src/compiler.c:100-107 | one turn of advance's loop: stop at a non-error token, or report the error token's lexeme and scan on |
| CompilerSpec.ScanLoopResult | src/compiler.c:100-107 | the loop ends on a non-error token. It emits nothing and never clears an error flag. An error token first in line is reported with its own lexeme unless already in panic mode; otherwise nothing is reported |
| CompilerSpec.Advance | src/compiler.c:97-108 | previous becomes the old current and the position stays inside the stream without increasing the work left |
| CompilerSpec.AdvanceResult | src/compiler.c:97-108 | after advance, previous is the old current and current is the first non-error token ahead, never TOKEN_ERROR. Nothing is emitted. A skipped error token is reported unless in panic mode |
| CompilerSpec.Consume | src/compiler.c:120-127 | consume stays inside the stream and never increases the work left |
| CompilerSpec.ConsumeResult | src/compiler.c:120-127 | on the expected kind consume is exactly advance; otherwise current, previous, position and code are unchanged, panicMode is set, and outside panic mode hadError is set and the message reported at current |
| CompilerSpec.EmitByteResult | src/compiler.c:132-134 | emitByte appends the byte with the line of parser.previous and changes nothing else |
| CompilerSpec.EmitByte | src/compiler.c:132-134 | the pure function Compiler.EmitByte is proved to compute; EmitByteResult states its effect |
| CompilerSpec.EmitBytes | src/compiler.c:137-140 | two emitByte calls in order; the pure function Compilers.Compiler.EmitBytes is proved to compute, and EmitByteResult, applied to each byte, states its effect |
| CompilerSpec.EmitReturn | src/compiler.c:142-144 | emitByte of OP_RETURN; the pure function Compilers.Compiler.EmitReturn is proved to compute, and EmitByteResult states its effect |
| CompilerSpec.AddConstant | src/compiler.c:150 | the value is appended to the pool and the index returned is its position |
| CompilerSpec.MakeConstant | src/compiler.c:149-162 | the pure function Compiler.MakeConstant is proved to compute; MakeConstantResult states its result in all three ranges |
| CompilerSpec.MakeConstantResult | src/compiler.c:149-162 | the value is always appended and no code is emitted. Index <= 255 returns the index. 256..0xFFFFFF returns the index truncated to 8 bits, as the uint8_t return type does. Above 0xFFFFFF it reports "Too many constants in one chunk." and returns 0 |
| CompilerSpec.EmittedConstantForm | src/compiler.c:167-179 | emitConstant's bytes are [OP_CONSTANT, index] for index <= 255, otherwise OP_CONSTANT_LONG followed by three bytes whose big-endian reading is the index mod 2^24 (no check above 0xFFFFFF) |
| CompilerSpec.LongOperandBytes | src/compiler.c:174-177 | the high, middle and low bytes read back big-endian give the index mod 2^24 |
| CompilerSpec.ConstantAppend | src/compiler.c:167-179 | appending an emitted constant to well-formed code gives well-formed code whose operand indexes the grown pool |
| CompilerSpec.ConstantInstruction | src/compiler.c:167-179 | the emitted constant instruction is complete and indexes the new entry |
| CompilerSpec.EmitConstantResult | src/compiler.c:167-179 | emitConstant appends the value to the pool and its encoding to the code, every byte on previous's line, and leaves parser, position and diagnostics alone |
| CompilerSpec.EmitConstant | src/compiler.c:167-179 | the pure function Compiler.EmitConstant is proved to compute; EmitConstantResult and EmittedConstantForm state the pool append and the encoding |
| CompilerSpec.Literal | src/compiler.c:225-233 | the pure function Compiler.Literal is proved to compute; LiteralResult states what each literal emits |
| CompilerSpec.Number | src/compiler.c:248-252 | the pure function Compiler.Number is proved to compute; Pratt.NumCompiles states that it emits one constant instruction for the next pool index |
| CompilerSpec.Binary | src/compiler.c:208-221 | binary stays inside the stream and never increases the work left; it is the pure function Compiler.Binary is proved to compute, and BinarySteps and Pratt.BinaryCompiles carry its effect |
| CompilerSpec.Unary | src/compiler.c:257-268 | unary stays inside the stream and never increases the work left; it is the pure function Compiler.Unary is proved to compute, and UnarySteps and Pratt.NegCompiles carry its effect |
| CompilerSpec.Grouping | src/compiler.c:240-243 | grouping stays inside the stream and never increases the work left; it is the pure function Compiler.Grouping is proved to compute, and GroupingSteps and Pratt.GroupCompiles carry its effect |
| CompilerSpec.Prefix | src/compiler.c:341 | the `prefixRule()` call: it stays inside the stream and never increases the work left; it is the pure function Compilers.Compiler.Prefix is proved to compute, and PrefixSteps and Pratt.PrefixCompiles carry its effect |
| CompilerSpec.LiteralResult | src/compiler.c:225-233 | false, null and true each emit exactly their one opcode byte on previous's line; any other token emits nothing |
| CompilerSpec.BinaryOpcode | src/compiler.c:213-220 | every binary operator maps to one of OP_ADD, OP_SUBTRACT, OP_MULTIPLY, OP_DIVIDE |
| CompilerSpec.IsBinaryOperator | src/compiler.c:213-217 | the four tokens binary's switch has a case for; InfixRuleExists states that they are exactly the tokens with an infix rule |
| CompilerSpec.OperandPrecedence | src/compiler.c:210-211 | the precedence binary parses its right operand at, one above the operator's, never below PREC_ASSIGNMENT |
| CompilerSpec.EmitOperator | src/compiler.c:213-220 | the switch that ends binary: the operator's opcode for + - * /, and nothing for the default case; Pratt.BinaryCompiles states that it follows both operands |
| CompilerSpec.EmitNegation | src/compiler.c:264-267 | the switch that ends unary: OP_NEGATE for `-`, and nothing for the default case; Pratt.NegCompiles states that it follows the operand |
| CompilerSpec.ParsePrecedence | src/compiler.c:332-350 | parsePrecedence stays inside the stream and never increases the work left, which bounds the mutual recursion |
| CompilerSpec.InfixLoop | src/compiler.c:344-348 | the infix loop stops exactly at a current token whose rule's precedence is below the requested one |
| CompilerSpec.BinarySteps | src/compiler.c:208-221 | binary only appends to code, lines, pool and diagnostics, never clears hadError or panicMode, never moves back |
| CompilerSpec.UnarySteps | src/compiler.c:257-268 | unary only appends and never clears the error flags |
| CompilerSpec.GroupingSteps | src/compiler.c:240-243 | grouping only appends and never clears the error flags |
| CompilerSpec.PrefixSteps | src/compiler.c:240-268 | every prefix handler only appends and never clears the error flags |
| CompilerSpec.ParsePrecedenceSteps | src/compiler.c:332-350 | parsePrecedence only appends and never clears the error flags |
| CompilerSpec.InfixLoopSteps | src/compiler.c:344-348 | the infix loop only appends and never clears the error flags |
| CompilerSpec.ExpressionSteps | src/compiler.c:362-364 | expression only appends and never clears the error flags |
| CompilerSpec.Expression | src/compiler.c:362-364 | expression stays inside the stream and never increases the work left; it is the pure function Compiler.Expression is proved to compute, and ExpressionSteps and Pipeline.ParseExpression carry its effect |
| CompilerSpec.EndCompiler | src/compiler.c:184-195 | the pure function Compiler.EndCompiler is proved to compute: OP_RETURN appended on previous's line, as EmitByteResult states |
| CompilerSpec.Compile | src/compiler.c:382-395 | the pure function Compiler.Compile is proved to compute; CompileOutcome, Pipeline.CompileExpression and Pipeline.CompiledRuns state what it produces |
| CompilerSpec.CompileOutcome | src/compiler.c:382-395 | compile always ends the chunk with OP_RETURN, even on failure. It only appends code (one line per byte) and constants. Well-formed code stays well-formed. It reports at most one diagnostic, since panic mode is never left, and fails exactly when it reported one |
| Compilers.Compiler.constructor | src/compiler.c:50-51 | the zero-initialised globals: no chunk, no error, not in panic mode |
| Compilers.Compiler.ScanToken | include/scanner.h:43 | the compiler's scanner call returns the next token of the stream and moves past any error token |
| Compilers.Compiler.ErrorAt | src/compiler.c:59-75 | the new parser state is CompilerSpec.ErrorAt of the old one |
| Compilers.Compiler.ErrorAtPrevious | src/compiler.c:79-81 | error() reports at parser.previous |
| Compilers.Compiler.ErrorAtCurrent | src/compiler.c:85-87 | errorAtCurrent reports at parser.current |
| Compilers.Compiler.Advance | src/compiler.c:97-108 | the in-place advance computes CompilerSpec.Advance; previous is the old current |
| Compilers.Compiler.ScanLoop | src/compiler.c:100-107 | the for(;;) loop computes CompilerSpec.ScanLoop |
| Compilers.Compiler.ScanCurrent | src/compiler.c:101 | one scan stores the scanner's token as current |
| Compilers.Compiler.Consume | src/compiler.c:120-127 | the in-place consume computes CompilerSpec.Consume |
| Compilers.Compiler.EmitByte | src/compiler.c:132-134 | writing to compilingChunk computes CompilerSpec.EmitByte; no other compiler state changes |
| Compilers.Compiler.EmitBytes | src/compiler.c:137-140 | the two bytes are appended in order |
| Compilers.Compiler.EmitReturn | src/compiler.c:142-144 | OP_RETURN is appended |
| Compilers.Compiler.MakeConstant | src/compiler.c:149-162 | the pool append, the uint8_t result and the overflow error are those of CompilerSpec.MakeConstant |
| Compilers.Compiler.EmitConstant | src/compiler.c:167-179 | the pool append and the short or big-endian long encoding are CompilerSpec.EmitConstant's |
| Compilers.Compiler.EndCompiler | src/compiler.c:184-195 | endCompiler appends OP_RETURN |
| Compilers.Compiler.Binary | src/compiler.c:208-221 | binary parses its right operand at one above the operator's precedence and then emits the operator's opcode, as CompilerSpec.Binary |
| Compilers.Compiler.Literal | src/compiler.c:225-233 | literal computes CompilerSpec.Literal |
| Compilers.Compiler.Grouping | src/compiler.c:240-243 | grouping parses an expression and then consumes ')' |
| Compilers.Compiler.Number | src/compiler.c:248-252 | number emits the literal's value as a constant |
| Compilers.Compiler.Unary | src/compiler.c:257-268 | unary parses its operand at PREC_UNARY and then emits OP_NEGATE on the line of the operand's last token (parser.previous once the operand is parsed) |
| Compilers.Compiler.ParsePrecedence | src/compiler.c:332-350 | the in-place parsePrecedence computes CompilerSpec.ParsePrecedence |
| Compilers.Compiler.Prefix | src/compiler.c:341 | calling the prefix handler of the rule dispatches to grouping, unary, number or literal |
| Compilers.Compiler.InfixLoop | src/compiler.c:344-348 | the while loop computes CompilerSpec.InfixLoop |
| Compilers.Compiler.InfixOperator | src/compiler.c:345-347 | one turn of the loop is advance followed by binary, and it shrinks the work left |
| Compilers.Compiler.Expression | src/compiler.c:362-364 | expression is parsePrecedence at PREC_ASSIGNMENT |
| Compilers.Compiler.Compile | src/compiler.c:382-395 | compile resets the error flags, runs advance, expression, consume(EOF) and endCompiler on the given chunk, and returns !hadError; the result is CompilerSpec.Compile of the initial state |
| Pratt.FirstToken | src/compiler.c:276-317 | a well-precedenced expression starts with a token that has a prefix rule |
| Pratt.NumCompiles | src/compiler.c:248-252 | a number compiles to one constant instruction for the next pool index, on its line |
| Pratt.LitCompiles | src/compiler.c:225-233 | a literal compiles to its single opcode |
| Pratt.NegCompiles | src/compiler.c:257-268 | -x compiles to the code of x followed by OP_NEGATE |
| Pratt.GroupCompiles | src/compiler.c:240-243 | (x) compiles to the code of x, consuming both parentheses |
| Pratt.BinaryCompiles | src/compiler.c:208-221 | after the left operand, the operator and its right operand compile to left, right, opcode |
| Pratt.InfixStep | src/compiler.c:344-348 | one infix-loop turn extends the compiled left operand to the whole binary expression |
| Pratt.PrefixCompiles | src/compiler.c:332-341 | the prefix step of parsePrecedence compiles a prefix-started expression exactly |
| Pratt.ParseAll | src/compiler.c:332-350 | for a well-precedenced expression followed by a token that binds more loosely, parsePrecedence emits exactly its postfix code, lines and pool entries and reports nothing |
| Pipeline.ExpressionStream | src/compiler.c:382-395 | an expression's tokens followed by EOF form a valid stream that the expression occupies |
| Pipeline.ParseExpression | src/compiler.c:362-364 | expression compiles the whole expression and stops on the EOF token |
| Pipeline.ConsumeEof | src/compiler.c:120-127 | consuming the final EOF emits nothing and makes it previous |
| Pipeline.FirstAdvance | src/compiler.c:390 | compile's first advance positions the parser on the first token without reporting |
| Pipeline.CompileOccupied | src/compiler.c:382-395 | compile of expression tokens plus EOF gives the postfix code, then OP_RETURN on the EOF's line, and the expression's numbers; the parser ends on EOF with no error |
| Pipeline.CompileExpression | src/compiler.c:382-395 | compiling any well-precedenced expression succeeds with no diagnostic, emitting its postfix code, OP_RETURN, one line per byte and one pool entry per number |
| Pipeline.MissingExpression | src/compiler.c:334-339 | a first token with no prefix rule fails with exactly "Expect expression." at that token, and the chunk still gets OP_RETURN |
| Pipeline.EmptySource | src/compiler.c:334-339 | an empty source fails with "Expect expression." reported at end |
| Pipeline.LeftAssociative | src/compiler.c:208-221 | a - b - c compiles to a b SUB c SUB RETURN |
| Pipeline.LeftAssociativeTree | src/compiler.c:208-221 | the left-nested tree is the well-precedenced reading of a - b - c |
| Pipeline.FactorBeforeTerm | src/compiler.c:276-317 | a + b * c compiles to a b c MUL ADD RETURN |
| Pipeline.FactorBeforeTermTree | src/compiler.c:276-317 | a + (b * c) is the well-precedenced reading of a + b * c |
| Pipeline.UnaryBeforeBinary | src/compiler.c:257-268 | -a + b compiles to a NEG b ADD RETURN |
| Pipeline.UnaryBeforeBinaryTree | src/compiler.c:257-268 | (-a) + b is the well-precedenced reading of -a + b |
| Pipeline.NumShape | src/compiler.c:170-171 | a number with pool index up to 255 compiles to [OP_CONSTANT, index], and its pool is that one number |
| Pipeline.BinShape | src/compiler.c:208-221 | a binary node's code is its left's, its right's, then the opcode; its pool is left's then right's |
| Pipeline.PostfixLoads | src/vm.c:51-82 | postfix code of a well-precedenced expression is well-formed bytecode with no OP_RETURN, and running it fetches its numbers in order |
| Pipeline.CompileThenRun | src/vm.c:37-88 | running what compile emits for a well-precedenced expression ends with INTERPRET_OK, after fetching and printing exactly its numbers in order |
| Pipeline.CompiledRuns | src/vm.c:51-82 | for any token stream, whether compile succeeds or reports an error, the chunk it leaves (complete instructions before) runs to its final OP_RETURN and ends with INTERPRET_OK, never reading past the code or the pool |
| Pipeline.RunPostfix | src/vm.c:51-82 | running postfix code followed by OP_RETURN prints the pool in order and ends OK |
| Pipeline.VmReadsEmittedConstant | src/vm.c:26-32 | the VM decodes compiler.c's encoding of any index to that pool entry (mod 2^24) and steps over exactly its bytes |
| Pipeline.DebugReadsWrittenConstant | src/debug.c:30-46 | the disassembler decodes writeConstant's encoding of any index to that entry (mod 2^24) and steps over exactly its bytes |
| Pipeline.DebugMisreadsEmittedConstant | src/debug.c:39-42 | compiler.c's long encoding of 300, [LONG, 0, 1, 44], is read by debug.c as index 2883840 |
| Pipeline.VmMisreadsWrittenConstant | src/vm.c:70-77 | writeConstant's encoding of index 255 is [LONG, 255, 0, 0], which vm.c reads big-endian as an index past a 256-entry pool, so the run stops without a result |
| Vm.ReturnsOk | src/vm.c:79-81 | well-formed code followed by OP_RETURN always ends with INTERPRET_OK and never reads past the code or the pool |
| Vm.RunsToReturn | src/vm.c:51-82 | with no OP_RETURN before the final one, the run prints exactly the constants the instructions fetch, in order, and returns OK |
| Vm.StepOver | src/vm.c:61-77 | a non-return instruction prints what it loads and continues after its width |
| Vm.UnknownOpcodeSkipped | src/vm.c:61-82 | a byte with no case in run (OP_ADD for instance) advances ip by one and has no other effect |
| Vm.FetchedAppend | src/vm.c:51-82 | the constants fetched by concatenated code are each part's in order |
| Vm.Decode | src/vm.c:61-82 | one turn of run's loop; a turn that goes on consumes between one byte and the rest of the code and prints at most one value; StepOver, UnknownOpcodeSkipped and Pipeline.VmReadsEmittedConstant state each case |
| Vm.Exec | src/vm.c:51-82 | the function VM.Run is proved to compute; ReturnsOk, RunsToReturn and Pipeline.CompiledRuns state how it ends and what it prints |
| Vm.VM.constructor | src/vm.c:9-11 | initVM: no chunk, ip at 0, nothing printed |
| Vm.VM.ReadByte | src/vm.c:48 | READ_BYTE returns the byte at ip and advances ip by one |
| Vm.VM.ReadLongIndex | src/vm.c:26-32 | readLongIndex returns b0<<16 \| b1<<8 \| b2 of the next three bytes, below 2^24, and advances ip by exactly three |
| Vm.VM.Step | src/vm.c:61-82 | one turn of the fetch loop performs the decoded instruction: it stops with its outcome or moves ip forward by its width, printing what it loads |
| Vm.VM.Run | src/vm.c:37-88 | the loop's outcome and printed values are those of Exec from the current ip |
| Vm.VM.Interpret | src/vm.c:91-95 | interpret points ip at offset 0 of the chunk and runs it: outcome and output are Exec of the chunk's code |
| Debug.NextOffsets | src/debug.c:69-133 | the next offset is offset+2 for OP_CONSTANT, +4 for OP_CONSTANT_LONG, +1 for every other byte including unknown ones |
| Debug.ListingEntry | src/debug.c:69-133 | each entry records its offset, the opcode's name ("Unknown opcode" for others) and the line column; non-constant instructions have no operand |
| Debug.DisassemblyOffsets | src/debug.c:11-17 | the listing starts at the given offset, is empty exactly past the end, and its offsets increase strictly and stay inside the code |
| Debug.LineMarkLines | src/debug.c:73-80 | the "\|" marker is chosen exactly when offset > 0 and the byte's line equals the previous byte's; otherwise the line number is printed |
| Debug.LittleEndianBytes | src/debug.c:39-42 | the little-endian reading of writeConstant's low, middle, high bytes is the index mod 2^24 |
| Debug.WriteConstantListing | src/debug.c:30-46 | disassembling writeConstant's encoding reports that index's pool entry and moves past it |
| Debug.ShortListing | src/debug.c:31-36 | the OP_CONSTANT operand is code[offset+1], and the next offset is offset+2 |
| Debug.LongListing | src/debug.c:39-46 | the OP_CONSTANT_LONG operand is read least significant byte first, and the next offset is offset+4 |
| Debug.LittleEndian24 | src/debug.c:40-42 | debug.c's b0 \| b1<<8 \| b2<<16, always below 2^24; LittleEndianBytes states that it reads writeConstant's encoding back |
| Debug.Load | src/debug.c:34-44 | the pool entry a decoded index names, marked missing past the end of the pool; WriteConstantListing states that listing a written constant loads the entry its index names, mod 2^24 |
| Debug.OpName | src/debug.c:84-131 | the name printed for each opcode byte, including the source's spelling "OP_SUBSTRACT", and "Unknown opcode" for any other byte; the method DisassembleInstruction is proved to print it, and ListingEntry states that each entry carries it |
| Debug.ConstantInstruction | src/debug.c:30-51 | constantInstruction's operand and next offset; ShortListing, LongListing and NextOffsets state each case |
| Debug.LineMark | src/debug.c:73-80 | the line column of one listing line; LineMarkLines states when it is the marker |
| Debug.InstructionListing | src/debug.c:69-133 | the function DisassembleInstruction is proved to compute; ListingEntry and NextOffsets state its entry and its next offset |
| Debug.Disassembly | src/debug.c:11-17 | the function DisassembleChunk's loop is proved to compute; DisassemblyOffsets states its offsets |
| Debug.DisassembleInstruction | src/debug.c:69-133 | the method's entry and next offset are those of InstructionListing on the chunk |
| Debug.DisassembleChunk | src/debug.c:11-17 | the loop from offset 0 yields exactly Disassembly of the chunk |
| StackSize.PushAsWritten | tests/stack_size.c:18-25 | push with its guard as written: a stored push puts the value on top |
| StackSize.AsWrittenWritesPastEnd | tests/stack_size.c:19-23 | the guard as written lets a push through and writes outside the array exactly when all STACK_MAX slots are taken |
| StackSize.FifthPushOutOfBounds | tests/stack_size.c:39-44 | the test's four pushes fill the stack; the fifth, as written, stores at index 4 of the 4-slot array |
| StackSize.Pushed | tests/stack_size.c:18-25 | push with the intended guard succeeds exactly when a slot is free |
| StackSize.Popped | tests/stack_size.c:27-34 | pop fails exactly on an empty stack; otherwise it returns the top and the stack below it |
| StackSize.PushPop | tests/stack_size.c:18-34 | a pop right after a push returns the pushed value and the earlier stack |
| StackSize.PushAllAppends | tests/stack_size.c:18-25 | pushes that fit append their values in order; more than fit overflow |
| StackSize.LastInFirstOut | tests/stack_size.c:18-34 | pushing values and popping as many gives them back in reverse order and restores the stack |
| StackSize.Machine.constructor | tests/stack_size.c:7-12 | the global VM starts with an empty stack of STACK_MAX slots |
| StackSize.Machine.InitVM | tests/stack_size.c:14-16 | initVM makes the stack empty |
| StackSize.Machine.Push | tests/stack_size.c:18-25 | with the intended `>=` guard (see ## Findings): a full stack exits with code 1 and is unchanged; otherwise the value is stored on top and the depth grows by one |
| StackSize.Machine.Pop | tests/stack_size.c:27-34 | an empty stack exits with code 1; otherwise the top value is returned and the depth drops by one |
| StackSize.Machine.OverflowTest | tests/stack_size.c:36-48 | with the intended `>=` guard (see ## Findings): four pushes fill the stack with 1.1 to 4.4, and the fifth exits with code 1 |

## Left out

- The scanner: `scanToken` is not part of this model. Tokens arrive as a
  finite sequence (kind, lexeme, line) that ends in TOKEN_EOF. The token
  kinds follow the names `compiler.c` uses; `include/scanner.h`'s
  declarations spell them differently.
- Tokens.ScanToken: that the scanner returns TOKEN_EOF only at the end of
  the source and then keeps returning it is an assumption about the
  scanner, whose code is not part of this model.
- Doubles: `strtod` in `number()` and all floating point are left out. A
  number is identified by its literal text.
- Printing: `printf`, `fprintf` and `printValue` are left out.
  - The compiler's error messages are kept as a list of diagnostics.
  - The VM's output is kept as the list of values it printed.
  - The disassembler's output is kept as one entry per instruction; the
    "== name ==" header line is dropped.
- The debug `printf` in `parsePrecedence` (src/compiler.c:336) and the
  `DEBUG_PRINT_CODE` / `DEBUG_TRACE_EXECUTION` blocks are not modelled.
- Memory management: `reallocate`, `malloc`, `realloc` and `free` are not
  modelled, nor the byte sizes of `GROW_ARRAY` / `FREE_ARRAY`. Buffers are
  sequences with an abstract capacity. This leaves out:
  - the wrong element size freed at src/chunk.c:24;
  - the zero-size allocation at src/chunk.c:15.
- Capacity arithmetic is unbounded: `int` overflow of `count` or
  `capacity` is not modelled.
- Undefined behaviour: the C code reads past the code buffer or the pool on
  malformed bytecode. The model stops instead; that is not a claim that the
  C code does so.
  - The VM ends with the outcomes `ReadPastCode` / `ReadPastPool`.
  - The disassembler reports an `Unwritten` operand or a missing constant.
- `initVM` and `freeVM` in src/vm.c are empty. The VM constructor stands for
  `initVM`, and `freeVM` has nothing to model.
- The VM has no arithmetic, no OP_NOT or OP_NEGATE semantics and no operand
  stack, because this revision's `run` has none. Those opcodes are skipped,
  as the C loop skips them.
- `valuesEqual` is declared but defined nowhere in the repository, so it is
  not modelled.
- src/main.c, tests/size_opr.c, tests/print_linenumber.c and
  tests/union_usage.c are drivers and printing or type-punning demos, so
  they are not modelled.
- The stale headers (include/chunk.h, include/vm.h, include/scanner.h) only
  supply type names.
- Chunks.Chunk.GetLine: for a negative index, the loop as written returns
  the first run's line rather than -1, and the model keeps that.
- CompilerSpec.MakeConstantResult: for indices 256 to 0xFFFFFF,
  `makeConstant` truncates to its `uint8_t` return type, and the model keeps
  that. No caller in this revision uses that result.
- The two constant encodings are exhibited, not reconciled: each component
  keeps its own as written.
- Pipeline.MissingExpression: it also requires that the token after the
  first is not an error token. Without that, advance's error report would
  come before "Expect expression.".
- Compilers.Compiler.ScanLoop, Compilers.Compiler.InfixOperator and
  Vm.VM.Step are loop bodies split out of their C functions. Each is proved
  against the same specification as the loop it came from.

## Findings

| source | as written | input that shows it | evidently intended | confidence | as-written member | corrected member |
|---|---|---|---|---|---|---|
| tests/stack_size.c:19 | the overflow guard is `stackTop > stack + STACK_MAX`, so a push with all 4 slots taken passes and line 23 writes `stack[4]` | the test's fifth push, `push(5.5)` after four pushes | `stackTop >= stack + STACK_MAX`, rejecting a push onto a full stack | not executed | StackSize.FifthPushOutOfBounds | StackSize.Machine.Push |
