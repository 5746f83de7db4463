# Cider compiler: model and proofs

Cider is a small language of typed integer and boolean expressions. Its compiler lexes and parses program text,
resolves symbols and types, emits three-address IR over virtual registers, and lowers the IR to RV32IM machine
code with a local register allocator. This project models that path and proves that it preserves meaning: the
machine code of a program, run from its first instruction, ends with the value of what `main` returns.

## How the model is built

- **Values.** Words are integers in `[0, 2^32)`; every wrap-around, sign extension and shift is written out
  (`Words`). Each machine type has its range and its two's complement wrap-around (`IrTypes`).
- **Source meaning** (`SourceSemantics`). A typed value computed with mathematical integers: wrap-around
  arithmetic, division that truncates toward zero, all ones for a quotient by zero, the dividend for a remainder
  by zero, shift amounts modulo 32, arithmetic right shift of signed values.
- **IR meaning** (`IrSemantics`). A block is run over a map from registers to values.
- **Machine** (`Riscv`, `Encoding`, `Text`). Registers, byte memory, the RV32IM instructions the back end uses,
  a decoder, and a step function that fetches from program text. It follows "The RISC-V Instruction Set Manual,
  Volume I: Unprivileged ISA", version 20191213: sections 2.2 and 2.3 (formats and immediates), 2.4 (integer
  operations), 2.5 (jumps), 2.6 (loads and stores), 7.1 and 7.2 (multiplication, division).
- **Two forms of every imperative component.** The lexer, the parser, symbol tables, symbol and type resolution,
  the IR writer, the code buffers, the register allocator and the code generator are classes and methods that
  change state as the compiler does (`Lexing.Lexer`, `Parsing`, `ProgramParsing`, `Symbols`, `TypeResolution`,
  `IrWriting`, `CodeGeneration`, `Driver`). Each method is specified by a function of the old state; the lemmas
  are about those functions.
- **Reading that never ends.** A comment without a newline keeps the lexer for ever. The token stream of a text
  (`Stream`) ends in the mark `STUCK` there, and what reads that mark has the outcome `Divergence`. Methods
  demand only that their own reading does not come to it; what lies behind the tokens they read does not matter.

## The argument

1. **Text to trees.** Lexing comes to the end of its input exactly when every line comment ends in a newline and
   no byte 0xFF outside comments has anything behind it (`ReachesEnd`). What is read, and as what, is known
   exactly at every stage, in terms of what was written. The lexer reads exactly the tokens that a text consists
   of, separated by any blanks and closed comments, or by nothing where they do not run into one (`StreamIff`).
   At every level the expression parser returns the value of a properly parenthesised tree, from tokens that
   begin with that tree and go on where the tree stops, and accepts nothing else (`ParsesIff`). Functions and
   programs are read exactly from written functions (`FunctionIff`, `ProgramIff`), and together: a text is read
   as certain definitions if and only if it is a text of them (`ProgramTextIff`). All other texts are syntax
   errors, unless a literal is at fault (`RejectedText`); what each literal means is `LiteralMeans`. Every
   program can be written down (`HasText`), with as few parentheses as the levels allow (`RoundTrip`).
2. **Trees to IR.** Symbol resolution fails exactly for names that no function has, and that, with names
   declared twice, is all that ends in a name error (`NameErrorIff`). A tree has a value exactly when it has
   neither identifiers nor calls and type resolution accepts it (`ResolveExactlyEvaluates`), and these are the
   resolved trees that there is code for (`EmitsIff`). The types and type errors of all trees are those of a
   table of rules (`ResolveVerdict`), and so it is known how a program is rejected (`BuildOutcome`): with a name
   error, else a type error, else an unimplemented one, else a semantic error for want of a main. From any
   writer state, emission leaves the value of a tree in the register it returns, which is defined last
   (`EmitCorrect`).
3. **The allocator as a queue.** While fifteen slots hold values, the round robin spills them in the order of
   their definition: the last d definitions sit, dirty, in the slots from `next` on, and everything older has a
   stack slot (`Window`). Loading a result and then two operands is not safe for arbitrary IR: it is safe
   exactly when the operands are the same register, or both are among the last fourteen definitions, or one is
   among the last thirteen (`OperandsHeldIff`). `SumOfOldConstants` is well-typed IR for which it fails: the
   emitted code leaves 2 where the sum is 1. The IR of expression trees meets the condition, because one operand
   was always defined last.
4. **Values in registers.** A register of a narrow type agrees with its value modulo 2^(8 size); the bits above
   may be junk. Every operation either does not depend on them or is preceded by truncations (`ResultAgrees`).
   After each lowered instruction, slots and stack bytes agree with the IR values (`BlockSim`).
5. **Functions and programs.** Prologue, body, the patched jump and epilogue run to the caller, with the value
   in x10 and every other promise of the calling convention kept (`FunctionRuns`); a function that begins with
   `return;` leaves x10 as it was. With the runtime stub in front, the program reaches the exit call
   (`ProgramCorrect`, `CompilerCorrect`, `TextCorrect`).
6. **Fixed points.** What the model and its specifications share is pinned down in plain numbers and characters:
   the ranges and sizes behind the names of the types (`NamedRanges`, `NamedWraps`, `TruncateExact`), bit
   operations and quotients (`BitwiseBits`, `QuotientTruncates`), the characters (`Lexemes`), the registers of
   the calling convention (`Returned`, `AtExit`), and the words of the stub (`StubWords`).

## Where the code does not do what it is meant to do

- The padded frame is one word short of the lowest stack slot exactly when the number of registers is 2 modulo 4
  (`FrameReachesLowestSlot`). Only spills after the jump to the epilogue use that slot (`ReachedSlotsFit`), so
  no run is affected.
- The stub enters `main` exactly when bit 11 of its shifted offset is clear (`StubCalls`): the upper immediate
  of `auipc` is not compensated for the sign of the immediate of `jalr`, and otherwise the jump goes 4096 bytes
  too low. The correctness theorems say so, in both directions (`RunsMain`). `CrowdNeverExits` is an acceptable
  program of twenty-seven small functions, twenty-six of them lowered before `main`, that is compiled, linked
  and then never exits. If `main` is lowered first, as in every program of one function, the condition holds and
  none is left (`MainFirst`).
- A byte 0xFF is taken for the end of the input (`EndByteIsNoEnd`), so a text is compiled up to the first such
  byte outside comments. A comment that is not ended by a newline is never left (`CommentWithoutEnd`).
  `ReachesEnd` and `ReachesFirstEnd` are the exact conditions on the characters.
- grammar.ebnf lets every binary level repeat, and TODO.md excepts only equality and comparison from left
  association. In the code only the additive and multiplicative levels repeat; every other level takes at most
  one operator (`SecondOperatorStays`). The model follows the code.
- Frames of more than 506 registers are not set up as they should be (`FrameFits`, `FrameSetUpIff`).
- The digits of a literal that its base does not have end the number without an error (`LiteralMeans`): `0b12u8`
  is 1. A value from 2^32 on is cut to 32 bits.
- The parenthesis that closes an empty parameter list may be missing (`ParenthesisOptional`).
- Identifiers and calls pass the checks where their types fit, with the type that the function declares
  (`CallHasReturnType`), but there is no code for them (`EmitsIff`), so no program that has them in a statement
  compiles (`CompiledGround`).
- The digits of a literal end at the first character that is not a decimal digit, so hexadecimal literals with
  letters are rejected (`HexLetterRejected`).

## Model

| member | source | states |
|---|---|---|
| Compiler.TextCorrect | src/compile.cpp:56-112 | Every text of an acceptable program - with any parentheses, blanks and comments that the language allows - is lexed, parsed, checked, emitted, lowered and linked into the image of its functions in the given order; the image, placed anywhere, runs from its first instruction, enters main exactly when bit 11 of its shifted offset is clear, and then reaches the exit call, with the value of what main returns in x10, or with x10 as it was at the start if main returns nothing. |
| Compiler.BuildCorrect | src/compile.cpp:69-112 | The same for any tokens that parse to an acceptable program: the image is that of the compiled functions, by name, in the given order. |
| Compiler.CompilerCorrect | src/compile.cpp:69-112 | The same from definitions, for every order in which the functions are lowered and every earlier use of the slots. |
| Compiler.MainFirst | src/compile.cpp:92-112 | Without any condition on offsets: if main is lowered first, as in every program of one function, the program exits, with its value if it has one. |
| MisplacedMain.CrowdNeverExits | src/backend/codegen/riscv/CodeGenerator_riscv32.cpp:1055-1082 | A program that is acceptable, compiles and links, and whose image, placed above the first page, never reaches its exit call. |
| MisplacedMain.OneCode | src/backend/codegen/riscv/CodeGenerator_riscv32.cpp:571-1040 | A function that returns the constant 1 takes twenty instructions, whatever the slots held before. |
| MisplacedMain.CrowdLowered | src/backend/codegen/riscv/CodeGenerator_riscv32.cpp:1026-1053 | Any number of such functions lower to eighty bytes each, and function k lies at 80 * k. |
| Compiler.AcceptableLinks | src/backend/codegen/riscv/CodeGenerator_riscv32.cpp:1042-1053 | A program whose functions all compile and return also lowers, in any order. |
| Compiler.CompileProgramEach | src/frontend/AST.cpp:32-73 | A program compiles exactly when its function names differ and each function compiles on its own, and then yields those functions; the lookup of symbols changes nothing in a program that compiles. |
| Compiler.NameErrorIff | src/frontend/AST.cpp:32-45 | Compiling ends with a name error exactly when a name is declared twice or a statement mentions one that is not declared, whatever else is wrong with the program. |
| Outcomes.CompileOutcome | src/frontend/AST.cpp:32-51 | What becomes of a program without logical operators: a name error if a name is declared twice or not at all, else a type error if a statement or a tail does not have the declared type, else an unimplemented one if identifiers or calls are used, and otherwise IR. |
| Outcomes.BuildOutcome | src/compile.cpp:69-112 | What becomes of the text of such a program: the errors of compiling, in this order, then an unimplemented one if a function does not return, then a semantic error if no function is called main, and otherwise an image. |
| Outcomes.ResolveVerdict | src/frontend/AST_semantics.cpp:46-230 | Type resolution finds exactly the types, and fails with exactly the errors, that a table of the operators' rules gives from the leaves to the root, left before right; identifiers, calls and logical operators included. |
| Outcomes.EmitVerdict | src/frontend/AST_emitIr.cpp:10-133 | A tree that has a type is emitted, or fails as unimplemented because it has identifiers or calls. |
| Compiler.BuildComesBack | src/frontend/AST.cpp:19-31 | Reading a text comes back if its line comments, up to the first end, end in newlines. |
| Compiler.MainFound | src/compile.cpp:97-109 | However the functions are arranged, the search by name finds the code of the main definition. |
| Driver.CompileText | src/compile.cpp:56-112 | The objects of the pipeline, run one after the other, produce what the specification of the pipeline says: the image, or the kind of the first error, undeclared names included. |
| Driver.Compile | src/compile.cpp:69-112 | Declaring, looking up, checking, emission with one writer and lowering with one generator give the linked image of the specification, or the first error. |
| Driver.DeclareProgram | src/frontend/AST.cpp:32-39 | The loop puts every function into the global table, or stops at the first name that is there already. |
| Driver.ResolveProgram | src/frontend/AST.cpp:41-45 | The loop looks up the identifiers of every function from a table inside the global one, or stops at the first that is not found. |
| Driver.CheckProgram | src/frontend/AST.cpp:46-51 | The loop over definitions stops at the first one that fails its check. |
| Driver.EmitProgram | src/frontend/AST.cpp:63-73 | One writer, used for all definitions in turn, holds the functions that each would emit alone. |
| Program.ProgramCorrect | src/compile.cpp:92-112 | If the first function called main compiles from a definition that returns and needs at most 506 registers, the linked image enters main exactly when bit 11 of its shifted offset is clear, and if it does, reaches the exit call with the value of the returned expression in x10, or with x10 unchanged after `return;`. |
| Program.PlacedRuns | src/backend/codegen/riscv/CodeGenerator_riscv32.cpp:571-1040 | A compiled function, wherever its code lies, entered at its first instruction, runs back to its caller with the value of its source expression, or with nothing changed in x10 if it begins with `return;`. |
| Program.LowerIrPlaces | src/backend/codegen/riscv/CodeGenerator_riscv32.cpp:1026-1053 | The function table is right: each function's code lies at the recorded, word-aligned offset. |
| Program.LinkNeedsMain | src/compile.cpp:96-109 | Functions that lower link exactly when one of them is called main; otherwise the error is a semantic one. |
| Program.LinkPlaces | src/compile.cpp:96-112 | After linking, the stub is at the start and main sixteen bytes behind its recorded offset. |
| Program.FirstAtStart | src/backend/codegen/riscv/CodeGenerator_riscv32.cpp:1042-1053 | The function that is lowered first lies at offset 0. |
| Lexing.ReachesEnd | src/frontend/Lexer.cpp:44-259 | For every input: repeated lexing reaches its end exactly when every line comment ends in a newline and no byte 0xFF outside comments has anything behind it. |
| Lexing.ReachesFirstEnd | src/frontend/Lexer.cpp:44-259 | For every input: lexing reaches the first token that it takes for the end exactly when the line comments before it end in newlines. |
| Lexing.WithoutEndByte | src/frontend/Lexer.cpp:56-62 | Without a byte 0xFF both conditions are one: every line comment ends in a newline. |
| Lexing.StreamIsAll | src/frontend/Lexer.cpp:44-62 | If lexing comes to the end of the input, the tokens up to the first end are all of them. |
| Lexemes.StreamIff | src/frontend/Lexer.cpp:44-259 | Exactly which texts are read as which tokens up to the first end: the tokens in order, each spelled out, with any of the six blank characters and any comments closed by a newline between them, or nothing where two tokens would not run into one. Stated on characters of its own. |
| Lexemes.AllTokensIff | src/frontend/Lexer.cpp:44-259 | The same for whole inputs; nothing may follow but one byte 0xFF. |
| Lexing.TakesInOrder | src/frontend/Lexer.cpp:44-62 | The n-th token taken is the n-th token of the input, and from the last one on every further token is the end. |
| Lexing.SpellRoundTrip | src/frontend/Lexer.cpp:44-259 | Lexable tokens, spelled with a space after each, are lexed into the same kinds and strings. |
| Lexing.NextOfSymbol | src/frontend/Lexer.cpp:58-202 | Every operator and bracket, of one or two characters, is recognised whole. |
| Lexing.NextOfWord | src/frontend/Lexer.cpp:212-248 | A maximal run of letters, digits and underscores becomes one keyword, identifier or literal token. |
| Lexing.EndByteIsNoEnd | src/frontend/Lexer.cpp:56-62 | The byte 0xFF yields the end token although tokens follow. |
| Lexing.CommentWithoutEnd | src/frontend/Lexer.cpp:186-194 | A comment without a newline yields no token at all. |
| Lexing.Lexer.TakeChar | src/frontend/Lexer.cpp:7-31 | Consumes one character, or reports the end and stays there. |
| Lexing.Lexer.SkipComment | src/frontend/Lexer.cpp:189-191 | The loop stops right behind the first newline. |
| Lexing.Lexer.SkipWhitespace | src/frontend/Lexer.cpp:204-211 | The loop drops the longest prefix of whitespace and nothing else; which characters these are follows from StreamIff. |
| Lexing.Lexer.TakeWord | src/frontend/Lexer.cpp:214-220 | The loop collects the longest run of characters up to a delimiter. |
| Lexing.Lexer.Scan | src/frontend/Lexer.cpp:53-258 | Returns the next token and leaves exactly the characters behind it, whatever these are. |
| Lexing.Lexer.Take | src/frontend/Lexer.cpp:44-51 | Returns and removes the head of the pending tokens, peeked at before or not. |
| Lexing.Lexer.Peek | src/frontend/Lexer.cpp:261-268 | Returns the head of the pending tokens and removes nothing, so that taking it afterwards gives the same token. |
| Lexing.Lexer.Expect | src/frontend/Lexer.cpp:270-276 | Removes the head; succeeds exactly when it has the expected kind, and is a syntax error otherwise. |
| Rendering.ParsesIff | src/frontend/Parser.cpp:143-519 | Exactly what the parser accepts: parsing at a level returns e and leaves rest if and only if the tokens are a properly parenthesised tree with the value e, followed by rest, and that tree stops at rest. |
| Rendering.Sound | src/frontend/Parser.cpp:143-519 | Whatever is parsed was written: the tokens consumed are those of a tree whose operands are as tight as their places demand and whose value is the result. |
| Rendering.Complete | src/frontend/Parser.cpp:143-519 | Whatever is written so is parsed, at the level of the tree and every looser one, up to where the tree stops. |
| Rendering.MinimalMeans | src/frontend/Parser.cpp:143-587 | Every tree as the parser builds it can be written at every level with parentheses only where it is looser than its place, and means itself. |
| Rendering.RoundTrip | src/frontend/Parser.cpp:143-519 | At any level, a tree as the parser builds it, rendered with minimal parentheses, parses into itself and leaves any suffix that no level on the way goes on with. |
| Rendering.SecondOperatorStays | src/frontend/Parser.cpp:151-365 | After an operator of a level other than the two chaining ones, a second operator of the same level is left unconsumed, whatever follows it. |
| Rendering.ChainOperand | src/frontend/Parser.cpp:367-436 | A left operand of an additive or multiplicative chain, before any tokens that the levels below do not go on with, puts the loop into the state where that operand is the tree so far: chains associate to the left. |
| Literals.LiteralMeans | src/frontend/Parser.cpp:530-578 | What every literal with a digit of its base means: leading zeros do not matter, decimal digits that the base does not have end the number, an unknown type name is a type error, a value of 2^63 or more an uncaught one, and any other value is cut to 32 bits. |
| Literals.LiteralEmpty | src/frontend/Parser.cpp:530-578 | A prefix without a digit of its base behind it is an uncaught error, or a type error if the type name is unknown. |
| Literals.IntegerRoundTrip | src/frontend/Parser.cpp:530-578 | Every 32-bit value, written in binary, octal, decimal or hexadecimal with its type, is read back if its digits are all decimal ones. |
| Literals.HexLetterRejected | src/frontend/Parser.cpp:562-573 | A hexadecimal literal with a letter among its digits is a type error, because the annotation is taken to begin there. |
| Parsing.ParseComesBack | src/frontend/Parser.cpp:143-519 | At every level, if no comment among the tokens is left open, parsing comes back, with some of the tokens left or with a syntax error or the error of one of the literals. |
| Parsing.NoMatchIff | src/frontend/Parser.cpp:143-519 | Nothing matches, and nothing is consumed, exactly where no expression of the level begins; whatever begins like one and is none is an error. |
| Parsing.TryParse | src/frontend/Parser.cpp:143-519 | At each level the parser consumes from the lexer exactly what the specification parses, consumes nothing if nothing matches, and terminates; what lies behind the tokens it reads may be anything. |
| Parsing.TryParseBinary | src/frontend/Parser.cpp:151-365 | One binary level: operand, then at most one operator and operand, or the loop of a chain. |
| Parsing.ParseMore | src/frontend/Parser.cpp:374-394 | The loop that extends a chain to the left until no operator of the level follows. |
| Parsing.TryParseUnary | src/frontend/Parser.cpp:438-461 | Prefix operators nest; an operator without operand is a syntax error. |
| Parsing.TryParsePostfix | src/frontend/Parser.cpp:463-487 | At most one empty call after a primary expression. |
| Parsing.TryParsePrimary | src/frontend/Parser.cpp:490-587 | Identifiers, literals and parenthesised expressions, with the errors of each. |
| ProgramTexts.ProgramTextIff | src/frontend/AST.cpp:14-29 | Exactly which texts are read as which programs: the token-wise spellings of written functions with these definitions, up to the first end. |
| ProgramTexts.RejectedText | src/frontend/AST.cpp:14-29 | A text of tokens that is no text of a program is rejected, with a syntax error or with the error of one of its literals. |
| ProgramTexts.HasText | src/frontend/AST.cpp:14-29 | Every program whose names are words and whose types have names has a text: its rendered tokens with a space after each. |
| Grammar.ProgramIff | src/frontend/AST.cpp:14-29 | Exactly which tokens are read as which programs: written functions one after the other, and then the end. |
| Grammar.FunctionIff | src/frontend/Parser.cpp:24-89 | Exactly which tokens are read as which function: keyword, name, a parameter list without parameters that may be left open, an arrow with the name of a type from a table of its own or none for void, the bracket, return statements each ended by a semicolon, a tail or none, and the closing bracket. |
| ProgramTexts.TextTrip | src/frontend/AST.cpp:14-29 | The rendered tokens of a program, however they are separated, are read as its definitions. |
| ProgramTexts.FunctionTrip | src/frontend/Parser.cpp:24-89 | A rendered function definition parses into itself, and what follows it is left alone. |
| Grammar.StatementsComplete | src/frontend/Parser.cpp:107-139 | Written return statements, with and without expression, each ended by a semicolon, are read as such up to the first token that is no return. |
| ProgramTexts.ParenthesisOptional | src/frontend/Parser.cpp:36-55 | A definition written without the closing parenthesis of its parameter list is read as the same definition, and what follows it is left alone. |
| ProgramParsing.TryParseReturnStmt | src/frontend/Parser.cpp:116-139 | Consumes a return statement, or nothing if there is none, with the errors of a missing expression and a missing semicolon. |
| ProgramParsing.ParseBodyStatements | src/frontend/Parser.cpp:68-77 | The loop collects all statements in order. |
| ProgramParsing.ParseArguments | src/frontend/Parser.cpp:36-55 | An argument fails for want of a colon; otherwise an optional closing parenthesis is consumed. |
| ProgramParsing.ParseFunctionSignature | src/frontend/Parser.cpp:30-67 | Name, empty parameter list and return type, void if there is none or if it is called void. |
| ProgramParsing.ParseFunctionBody | src/frontend/Parser.cpp:68-86 | Statements, an optional tail expression and the closing bracket. |
| ProgramParsing.TryParseFunctionDefinition | src/frontend/Parser.cpp:24-89 | Consumes a whole definition, or nothing if the keyword is missing. |
| ProgramParsing.ParseText | src/frontend/AST.cpp:14-29 | Parses definitions until none follows, and then requires the end of the input, or the first byte that is taken for it. |
| ProgramParsing.ProgramComesBack | src/frontend/AST.cpp:19-31 | If no comment before its end is left open, reading a program comes back; it fails with a syntax error, with the error of one of its literals, or because of an argument. |
| TypeNames.NamedRanges | src/frontend/FrontendType.cpp:150-203 | The names u8 to i32 and bool stand for types of one, two or four bytes with their ranges, in plain numbers; void stands for none. |
| TypeNames.NamedWraps | src/ir/IrType.cpp:8-40 | Wrapping around for the type with a name gives a value in its range that differs by a multiple of 2^8, 2^16 or 2^32. |
| TypeNames.NamedIs | src/frontend/FrontendType.cpp:150-173 | The type with a name is the one in a table; all other names stand for one unknown type. |
| Words.BitwiseBits | src/backend/codegen/riscv/CodeGenerator_riscv32.cpp:710-733 | The three bit operations, bit by bit, for bits at any position. |
| Words.BitmaskBits | src/utils/common.hpp:68-77 | The mask of the n lowest bits has exactly these bits, and exactly the thirty-two bits of a word if n is larger. |
| Words.QuotientTruncates | src/backend/codegen/riscv/CodeGenerator_riscv32.cpp:676-709 | The quotient is rounded toward zero: the remainder is smaller than the divisor and has the sign of the dividend. |
| SourceSemantics.DocumentedShifts | TODO.md:64-70 | The meaning of shifts agrees with every example worked out in the notes: masking to five bits, truncation to the type, amounts of another width, signed amounts rejected. |
| Symbols.DeclareIff | src/frontend/AST.cpp:87-94 | Declaring the functions fails, with a name error, exactly when two have the same name; otherwise exactly their names can be found. |
| Symbols.DeclaredType | src/frontend/AST.hpp:344-351 | Each function is found under its name, with the type that it declares. |
| Symbols.ResolveSymbolsIff | src/frontend/AST_semantics.cpp:39-59 | Lookup fails, with a name error, exactly when a name that occurs is not declared; otherwise every identifier gets its symbol, and a tree without identifiers and calls stays as it is. |
| Symbols.CallHasReturnType | src/frontend/AST_semantics.cpp:222-230 | A call of a declared function is accepted, wherever the function stands, and has the type that it declares to return. |
| Symbols.SymbolScope.Find | src/frontend/AST.cpp:77-85 | Finds the innermost symbol with a name, in the table itself or, if asked to, in those around it. |
| Symbols.SymbolScope.Add | src/frontend/AST.cpp:87-94 | Adds a symbol to the table itself, or changes nothing if the name is there already. |
| TypeResolution.Node.ResolveSymbols | src/frontend/AST_semantics.cpp:39-59 | Writes into every identifier of the tree its symbol, or stops with a name error at the first that has none. |
| Semantics.ResolveExactlyEvaluates | src/frontend/AST_semantics.cpp:46-230 | Type soundness and its converse: an annotated tree has a value exactly when it has neither identifiers nor calls and is accepted; then every node of the resolved tree holds the concrete type of its value, and the value is unchanged. |
| Semantics.CheckBinaryExact | src/frontend/AST_semantics.cpp:72-158 | The operand checks of an operator succeed exactly when the operation has a value, and yield its type. |
| Semantics.CheckUnaryExact | src/frontend/AST_semantics.cpp:181-207 | The same for the unary operators. |
| Semantics.ResolveIdempotent | src/frontend/AST_semantics.cpp:46-230 | Resolving a resolved tree changes nothing. |
| Semantics.CheckStatementIff | src/frontend/AST_semantics.cpp:245-269 | A return statement is accepted and has code exactly when its value has the declared type, or there is neither value nor type. |
| TypeResolution.Node.ResolveType | src/frontend/AST_semantics.cpp:46-230 | Writes into every node the type of the specification - that of its symbol into an identifier, the return type into a call - or stops with its error; the tree keeps its shape. |
| TypeResolution.CheckReturnStatement | src/frontend/AST_semantics.cpp:245-269 | Resolves in place and compares with the return type of the current function; outside any function, a type error of the tree or else an internal error. |
| IrSemantics.RunDefines | src/ir/IrWriter.cpp:55-93 | A block fit for the back end defines each of its registers once, with a value in the range of its type, and no other register. |
| IrEmission.EmitCorrect | src/frontend/AST_emitIr.cpp:10-128 | From any writer state, the appended instructions leave the value of the tree in the returned register, define it last, keep all earlier registers, stay fit for the back end and keep every cached constant. |
| IrEmission.EmitSucceeds | src/frontend/AST_emitIr.cpp:10-128 | On resolved trees emission never reaches a failing type conversion, and appends one instruction for each register it allocates. |
| IrEmission.EmitsIff | src/frontend/AST_emitIr.cpp:10-133 | A tree that passed type resolution is emitted exactly when it has neither identifiers nor calls. |
| IrEmission.OpcodeMeaning | src/frontend/AST_emitIr.cpp:39-92 | The emitted opcode computes on register values what the operator means on source values. |
| IrEmission.ConstantCorrect | src/ir/IrWriter.cpp:64-84 | Hit or miss, the register of a constant holds it with its type; registers that are allocated but not yet defined stay undefined. |
| IrEmission.XorOneNegates | src/frontend/AST_emitIr.cpp:113-118 | Exclusive or with the constant 1 negates a boolean. |
| FunctionEmission.CompiledEntry | src/frontend/AST_emitIr.cpp:135-170 | The entry block of a compiled function computes and returns the value of its first return, however many statements follow, with the declared type. |
| StatementEmission.AllBlocks | src/frontend/AST_emitIr.cpp:135-170 | A compiled function as a whole: one block for each return statement and for the tail, numbered in order, which returns its value when it is run after the blocks before it, whose cached constants it may use; and a last block that is empty and open. |
| FunctionEmission.CompiledGround | src/frontend/AST_emitIr.cpp:29-146 | A function that compiles has neither identifiers nor calls in its return statements, whatever the checks let pass. |
| FunctionEmission.CompilesIff | src/frontend/AST_semantics.cpp:302-332 | A function compiles exactly when every return statement fits the declared type and a tail has it unresolved. |
| FunctionEmission.TailIsLiteral | src/frontend/AST_semantics.cpp:318-329 | The tail of a function that passes its check is a literal, because other trees are compared before their type is resolved. |
| FunctionEmission.EmitCount | src/ir/IrWriter.cpp:55-84 | A tree takes as many registers as it has nodes, and one more for the first logical negation. |
| IrWriting.EmitExpr | src/frontend/AST_emitIr.cpp:10-133 | Appends to the writer exactly the instructions, registers and cached constants of the specification, or fails with its error; before the first function, with the error that is met first. |
| IrWriting.EmitReturn | src/frontend/AST_emitIr.cpp:135-146 | Emits the expression and closes the block; before the first function, the error of the expression, or an internal error if there is none. |
| IrWriting.EmitFunction | src/frontend/AST_emitIr.cpp:148-170 | Begins a function, emits all statements and the tail, and adds the function to those written before. |
| IrWriting.IrWriter.NewFunction | src/ir/IrWriter.cpp:10-22 | Keeps the previous function and starts an empty one with an empty constant cache. |
| IrWriting.IrWriter.NewVreg | src/ir/IrWriter.cpp:55-62 | Numbers registers densely from zero; an internal error before the first function. |
| IrWriting.IrWriter.GetConstVreg | src/ir/IrWriter.cpp:64-84 | Returns the cached register, or allocates one, caches it and loads the constant. |
| IrWriting.IrWriter.AddInstr | src/ir/IrWriter.cpp:86-93 | Appends one instruction to the open block; an internal error before the first function. |
| IrWriting.IrWriter.AddReturn | src/ir/IrWriter.cpp:95-116 | Closes the open block with a return and opens the next. |
| IrWriting.IrWriter.GetObject | src/ir/IrWriter.hpp:60-60 | Hands out all functions written so far. |
| Allocator.OperandsHeldIff | src/backend/codegen/riscv/CodeGenerator_riscv32.cpp:451-556 | After the result and both operands have been placed, all three slots hold their registers exactly when the operands are equal, or both among the last fourteen definitions, or one among the last thirteen. |
| Allocator.ScratchHeldIff | src/backend/codegen/riscv/CodeGenerator_riscv32.cpp:734-755 | The scratch register of a 16-bit complement spares result and operand exactly when the operand is among the last thirteen definitions. |
| Allocator.OldPairCollides | src/backend/codegen/riscv/CodeGenerator_riscv32.cpp:535-543 | Two different operands that both have to be loaded get the same slot; it holds the second one, and the result keeps its own. |
| Allocator.CacheDiscipline | src/backend/codegen/riscv/CodeGenerator_riscv32.hpp:75-82 | Dirty slots are occupied, occupied clean ones have a stack copy, nothing is resident twice, and every defined register is in a slot or on the stack. |
| Allocator.EmptySlotSpill | src/backend/codegen/riscv/CodeGenerator_riscv32.cpp:545-555 | With all slots dirty the victim is the oldest definition; it is stored at the next free offset and nothing else moves. |
| Allocator.EmptySlotWindow | src/backend/codegen/riscv/CodeGenerator_riscv32.cpp:526-556 | Making room keeps the queue, and the freed slot is the one behind the newest definition. |
| Allocator.LoadDestWindow | src/backend/codegen/riscv/CodeGenerator_riscv32.cpp:487-494 | A result becomes the newest element of the queue. |
| Allocator.LoadSourceFound | src/backend/codegen/riscv/CodeGenerator_riscv32.cpp:453-458 | A resident register is found in its slot and nothing changes. |
| Allocator.LoadSourceMissing | src/backend/codegen/riscv/CodeGenerator_riscv32.cpp:460-484 | A register without a slot is loaded, with its width and sign, from the offset it was spilled to, and the queue is kept. |
| Allocator.LoadSourceUnknown | src/backend/codegen/riscv/CodeGenerator_riscv32.cpp:460-484 | A register that was never defined is read from the frame pointer itself, and keeps that place in the spill map. |
| FunctionCorrectness.SumOfOldConstants | src/backend/codegen/riscv/CodeGenerator_riscv32.cpp:648-656 | Well-typed IR that is compiled wrongly: after sixteen constants, both operands of the sum of the first two are in one register, and the code leaves 2 in the register of the result where the IR gives 1. |
| Simulation.SpillSim | src/backend/codegen/riscv/CodeGenerator_riscv32.cpp:496-524 | Spilling the oldest register stores its low bytes in its own stack slot and leaves all other slots and stack slots in agreement. |
| Simulation.EmptySlotSim | src/backend/codegen/riscv/CodeGenerator_riscv32.cpp:526-556 | The code written to make room keeps the agreement of registers, stack and IR values. |
| Simulation.LoadDestSim | src/backend/codegen/riscv/CodeGenerator_riscv32.cpp:487-494 | Placing a result keeps the agreement of all other registers. |
| Simulation.LoadSourceSim | src/backend/codegen/riscv/CodeGenerator_riscv32.cpp:451-485 | After loading an operand its slot agrees with its value, and everything else still does. |
| Instructions.BlockSim | src/backend/codegen/riscv/CodeGenerator_riscv32.cpp:619-890 | Allocator refinement: a block fit for the back end lowers, and after running its code slots and stack agree with the IR values of all defined registers. |
| Instructions.InstructionSim | src/backend/codegen/riscv/CodeGenerator_riscv32.cpp:620-890 | One lowered instruction takes the machine from agreement to agreement with the extended IR state. |
| Instructions.BinarySim | src/backend/codegen/riscv/CodeGenerator_riscv32.cpp:648-886 | The same for every two-operand instruction, with its truncations. |
| Instructions.BitNotSim | src/backend/codegen/riscv/CodeGenerator_riscv32.cpp:734-762 | The same for a complement, with immediate mask or scratch register. |
| Instructions.ExecuteTruncate | src/backend/codegen/riscv/CodeGenerator_riscv32.cpp:558-569 | Running the two shifts leaves the canonical word in the register and touches nothing else. |
| Instructions.ExecuteLoadImm | src/backend/codegen/riscv/CodeGenerator_riscv32.cpp:624-647 | Running the constant's instructions leaves exactly the constant in the register, for every 32-bit value. |
| Instructions.ExecuteOperation | src/backend/codegen/riscv/CodeGenerator_riscv32.cpp:648-886 | Running the operation's instructions changes the result register only, even where two instructions are needed. |
| LoweredValues.ResultAgrees | src/backend/codegen/riscv/CodeGenerator_riscv32.cpp:648-886 | Junk bits are harmless: for all register contents that agree with the operands, truncated where the code truncates, the result agrees with the value of the operation. |
| LoweredValues.DivAgrees | src/backend/codegen/riscv/CodeGenerator_riscv32.cpp:676-692 | Division on canonical registers gives the source quotient, zero divisors and overflow included. |
| LoweredValues.RemAgrees | src/backend/codegen/riscv/CodeGenerator_riscv32.cpp:693-709 | The same for remainders. |
| LoweredValues.CompareResult | src/backend/codegen/riscv/CodeGenerator_riscv32.cpp:792-886 | Each of the six comparisons on canonical registers gives exactly 0 or 1 as the source comparison does. |
| LoweredValues.NegAgrees | src/backend/codegen/riscv/CodeGenerator_riscv32.cpp:785-791 | Subtracting from zero negates modulo the type, whatever the upper bits are. |
| LoweredValues.ComplementAgrees | src/backend/codegen/riscv/CodeGenerator_riscv32.cpp:734-762 | Exclusive or with the mask complements modulo the type, whatever the upper bits are. |
| LoweredValues.FlipMaskExact | src/backend/codegen/riscv/CodeGenerator_riscv32.cpp:739-760 | The compensated mask, as immediate or through lui and addi, is exactly the ones of the type; only 16-bit types need the scratch register. |
| LoweredValues.CompensationExact | src/backend/codegen/riscv/CodeGenerator_riscv32.cpp:628-644 | Adding 2^12 when bit 11 is set, wrap-around included, makes lui and addi, or addi alone, produce the original value. |
| LoweredValues.TruncateExact | src/backend/codegen/riscv/CodeGenerator_riscv32.cpp:558-569 | Shifting by (32 - 8) * size, of which five bits are kept, and back leaves the low 8, 16 or 32 bits, zero- or sign-extended, in plain numbers per type; truncation is idempotent and keeps the low bits. |
| LoweredValues.LoadedCut | src/backend/codegen/riscv/CodeGenerator_riscv32.cpp:460-484 | Loading a spilled register with the width and sign of its type leaves its low bits, zero- or sign-extended, in plain numbers per type. |
| FrameLayout.SpillAccounting | src/backend/codegen/riscv/CodeGenerator_riscv32.cpp:498-510 | At the end of a block exactly the defined registers have stack slots, distinct and word-aligned, from -16 down to -4n - 12. |
| FrameLayout.FrameReachesLowestSlot | src/backend/codegen/riscv/CodeGenerator_riscv32.cpp:1001-1003 | The padded frame reaches the lowest slot exactly when n is not 2 modulo 4, and is one word short otherwise. |
| FrameLayout.FrameFits | src/backend/codegen/riscv/CodeGenerator_riscv32.cpp:1001-1013 | The frame's immediates fit twelve bits exactly up to 506 registers. |
| FrameLayout.ReachedSlotsFit | src/backend/codegen/riscv/CodeGenerator_riscv32.cpp:914-919 | Code that is reached stores above the stack pointer only. |
| FunctionCorrectness.BodyCorrect | src/backend/codegen/riscv/CodeGenerator_riscv32.cpp:599-912 | The body up to its jump computes the returned value, in canonical form, into x10, or leaves x10 alone if it only returns, and changes nothing but slot registers and the frame below the saved words. |
| FunctionCorrectness.PrologueEffect | src/backend/codegen/riscv/CodeGenerator_riscv32.cpp:1006-1013 | Moves sp, sets fp, saves ra and fp in the two highest words, and changes nothing else. |
| FunctionCorrectness.FrameSetUpIff | src/backend/codegen/riscv/CodeGenerator_riscv32.cpp:999-1013 | The prologue moves sp down by the size of the frame and sets fp to the old sp exactly for frames of at most 2047 bytes; for larger ones the immediates do not fit. |
| FunctionCorrectness.RestoreEffect | src/backend/codegen/riscv/CodeGenerator_riscv32.cpp:1017-1022 | Restores sp, fp and ra from fp and the saved words, and changes nothing else. |
| FunctionCorrectness.FunctionRuns | src/backend/codegen/riscv/CodeGenerator_riscv32.cpp:571-1040 | Up to 506 registers, a lowered, encoded and placed function, with or without a returned value, runs from its entry to its caller with its answer in x10; x1, x2, x8 and all other registers that the slots do not use are as before, and no byte outside the frame has changed. |
| FunctionCorrectness.PartsRun | src/backend/codegen/riscv/CodeGenerator_riscv32.cpp:930-1037 | The patched jump lands on the first instruction of the epilogue, past the trailing spills and no-ops. |
| Backpatching.PatchExact | src/backend/codegen/riscv/CodeGenerator_riscv32.cpp:973-986 | Patching an encoded jal gives the word that encoding it afresh with the offset gives, whatever offset it had. |
| Encoding.DecodeEncode | src/backend/codegen/riscv/CodeGenerator_riscv32.cpp:29-448 | Every word the back end writes is decoded as the instruction it is named after, with its immediate cut to the bits of the format. |
| Encoding.NormalSame | src/backend/codegen/riscv/CodeGenerator_riscv32.cpp:29-448 | Cutting the immediate to the bits of the format does not change what the instruction does. |
| Encoding.DecodeRType | src/backend/codegen/riscv/CodeGenerator_riscv32.cpp:1084-1093 | The fields of an R-type word come back. |
| Encoding.DecodeIType | src/backend/codegen/riscv/CodeGenerator_riscv32.cpp:1095-1103 | The fields and the twelve immediate bits of an I-type word come back. |
| Encoding.DecodeSType | src/backend/codegen/riscv/CodeGenerator_riscv32.cpp:1105-1117 | The fields and the split immediate of an S-type word come back. |
| Encoding.DecodeJType | src/backend/codegen/riscv/CodeGenerator_riscv32.cpp:1119-1135 | The register and the scrambled offset of a J-type word come back. |
| Encoding.UTypeValue | src/backend/codegen/riscv/CodeGenerator_riscv32.cpp:1137-1143 | A U-type word is the sum of opcode, register and the upper twenty bits of the immediate. |
| Text.FetchContained | src/backend/codegen/riscv/CodeGenerator_riscv32.cpp:18-27 | Fetching from dumped bytes gives the dumped words back. |
| Text.RunStraight | src/backend/codegen/riscv/CodeGenerator_riscv32.cpp:18-27 | Straight-line code in the text runs through with the effect of its instructions. |
| Runtime.StubCalls | src/backend/codegen/riscv/CodeGenerator_riscv32.cpp:1061-1067 | Two instructions put the return address into ra and end at main, or 4096 bytes below it; they reach the first instruction of main exactly when bit 11 of the shifted offset is clear. |
| Runtime.MissedMainNeverExits | src/backend/codegen/riscv/CodeGenerator_riscv32.cpp:1061-1067 | If the stub misses main and lands in front of the text, no run gets to the exit call. |
| Runtime.StubExits | src/backend/codegen/riscv/CodeGenerator_riscv32.cpp:1068-1071 | Back from main, the machine reaches ecall with 93 in x17 and all other registers as main left them. |
| Runtime.StubWords | src/backend/codegen/riscv/CodeGenerator_riscv32.cpp:1055-1082 | The four words of the stub, as numbers. |
| Runtime.StubRuns | src/backend/codegen/riscv/CodeGenerator_riscv32.cpp:1055-1082 | If main runs from its first instruction to its caller, the program runs from its first instruction to the exit call with main's result. |
| CodeGeneration.CodeBuffer.Write | src/backend/codegen/riscv/CodeGenerator_riscv32.cpp:29-448 | Pushes the encoding of one instruction and returns its position. |
| CodeGeneration.CodeBuffer.DumpToBytes | src/backend/codegen/riscv/CodeGenerator_riscv32.cpp:18-27 | Appends the little-endian bytes of all words. |
| CodeGeneration.CodeBuffer.Patch | src/backend/codegen/riscv/CodeGenerator_riscv32.cpp:934-995 | Rewrites one word in place by its format; a patched jump is the encoding of the jump with that offset. |
| CodeGeneration.CodeGenerator.SpillSlot | src/backend/codegen/riscv/CodeGenerator_riscv32.cpp:496-524 | Writes a slot back to its old or its new stack offset and cleans it. |
| CodeGeneration.CodeGenerator.GetEmptySlot | src/backend/codegen/riscv/CodeGenerator_riscv32.cpp:526-556 | The two scans and the round robin change slots, spill map, counter and code as specified. |
| CodeGeneration.CodeGenerator.LoadSource | src/backend/codegen/riscv/CodeGenerator_riscv32.cpp:451-485 | Finds or loads a register. |
| CodeGeneration.CodeGenerator.LoadDest | src/backend/codegen/riscv/CodeGenerator_riscv32.cpp:487-494 | Places a result in an empty slot and marks it dirty. |
| CodeGeneration.CodeGenerator.TruncateReg | src/backend/codegen/riscv/CodeGenerator_riscv32.cpp:558-569 | Writes the truncation of the slot's resident type. |
| CodeGeneration.CodeGenerator.WriteOperation | src/backend/codegen/riscv/CodeGenerator_riscv32.cpp:648-886 | Writes the one or two instructions of each operation, by signedness. |
| CodeGeneration.CodeGenerator.LowerBinary | src/backend/codegen/riscv/CodeGenerator_riscv32.cpp:648-886 | Result, operands, truncations and operation, in this order. |
| CodeGeneration.CodeGenerator.LowerNeg | src/backend/codegen/riscv/CodeGenerator_riscv32.cpp:785-791 | Result and operand, then a subtraction from zero. |
| CodeGeneration.CodeGenerator.LowerBitNot | src/backend/codegen/riscv/CodeGenerator_riscv32.cpp:734-762 | Result and operand, then the mask as immediate or in a scratch register. |
| CodeGeneration.CodeGenerator.LowerLoadImm | src/backend/codegen/riscv/CodeGenerator_riscv32.cpp:624-647 | Result, then one or two instructions for the constant. |
| CodeGeneration.CodeGenerator.LowerInstruction | src/backend/codegen/riscv/CodeGenerator_riscv32.cpp:620-890 | Dispatches on the opcode; opcodes without a lowering are an error. |
| CodeGeneration.CodeGenerator.LowerBlock | src/backend/codegen/riscv/CodeGenerator_riscv32.cpp:619-890 | The loop over a block's instructions, up to the first error. |
| CodeGeneration.CodeGenerator.ClearSlots | src/backend/codegen/riscv/CodeGenerator_riscv32.cpp:612-617 | Empties all slots; residents keep their names. |
| CodeGeneration.CodeGenerator.SpillDirty | src/backend/codegen/riscv/CodeGenerator_riscv32.cpp:914-919 | Spills every dirty slot in order. |
| CodeGeneration.CodeGenerator.LowerToReturn | src/backend/codegen/riscv/CodeGenerator_riscv32.cpp:619-912 | A block and its return, up to the jump that is still to be patched. |
| CodeGeneration.CodeGenerator.LowerBlocks | src/backend/codegen/riscv/CodeGenerator_riscv32.cpp:594-920 | The worklist lowers each reached block once; with returns only, that is the entry. |
| CodeGeneration.CodeGenerator.WritePrologue | src/backend/codegen/riscv/CodeGenerator_riscv32.cpp:999-1013 | The four instructions of the prologue. |
| CodeGeneration.CodeGenerator.WriteEpilogue | src/backend/codegen/riscv/CodeGenerator_riscv32.cpp:1015-1024 | The four instructions of the epilogue. |
| CodeGeneration.CodeGenerator.PadAndPatch | src/backend/codegen/riscv/CodeGenerator_riscv32.cpp:922-995 | Adds six no-ops and aims every recorded jump at the end of the body. |
| CodeGeneration.CodeGenerator.LowerFunction | src/backend/codegen/riscv/CodeGenerator_riscv32.cpp:571-1040 | Appends exactly the bytes of the specified code to the object and registers its offset; on an error the object is unchanged. |
| CodeGeneration.CodeGenerator.LowerIr | src/backend/codegen/riscv/CodeGenerator_riscv32.cpp:1042-1053 | Lowers all functions into one object, slots carried over from one to the next. |
| CodeGeneration.CodeGenerator.BuildRuntimeCode | src/backend/codegen/riscv/CodeGenerator_riscv32.cpp:1055-1082 | The bytes of the four instructions of the stub. |
| CodeGeneration.BuildExecutable | src/compile.cpp:92-112 | Finds the first function called main, or fails, and puts the stub in front of the code. |
| ControlFlow.ReachableBlocks | src/ir/IrPrinter.cpp:144-169 | On any finite graph with unique ids, returns exactly the blocks reachable from the entry, each once, the entry first, and terminates. |
| ControlFlow.ClosedReaches | src/ir/IrPrinter.cpp:150-167 | A set of blocks that contains all its successors contains everything it reaches. |

## Left out

- Compiler.CompilerCorrect: main may define at most 506 registers; with larger frames the immediates of the prologue no longer fit, as the source notes beside them, and FrameSetUpIff says that they then go wrong. The run needs room for the frame below sp.
- Semantics.ResolveExactlyEvaluates: identifiers and calls get types but no values, because emission has no code for them; `&&` and `||` are rejected by type resolution itself.
- Backpatching.PatchExact: proved for jumps, the only instructions that are ever patched. The branches for I-type and S-type words are in `PatchWord` without a theorem.
- Driver.CompileText: requires that parsing the text does not come to a comment that is never left, as do ParseText and the parsing methods for what they read; the source does not come back otherwise. `BuildComesBack` gives a condition on the characters.
- Lexing.Lexer.SkipComment: requires that the comment ends in a newline; the source's loop does not come back otherwise. For the same reason Lexer.Scan, Take, Peek and Expect require that the next token exists.
- ControlFlow.ReachableBlocks: terminators are initialised and successors named by their ids; block arguments and the printed text are not modelled.
- Parameters of functions: the lexer produces no colon, so none can be written, and the check of a parameter is unimplemented in the source.
- Functions without a return: the source reads a terminator that was never initialised; the model rejects them as unimplemented.
- Blocks other than the entry: nothing emits jumps or branches, and their lowering is unimplemented in the source.
- Function checks and symbol lookup over several statements work on values (`Semantics.CheckFunction`, `Symbols.ResolveFunction`); only expression nodes and single return statements are resolved in place. The order in which checks fail is kept.
- Symbols: a node keeps the type of its symbol, not a pointer to it; symbols never change once they are added. Resolving the type of an identifier without a symbol, a null pointer in the source, is an uncaught error here; the compiler looks up all symbols before.
- IR functions and blocks are values held by the writer, not objects shared by pointer; a dense list of types stands for the map from registers to types.
- Errors keep their kind; messages and source locations are left out.
- Outcomes.BuildOutcome: programs with `&&` or `||` do not compile, and ResolveVerdict gives the error of each of their trees; which tree of a program fails first is not stated.
- Program text and data memory are separate, so a store does not change the code; the frame is assumed to lie elsewhere.
- The run ends at the exit call; what the operating system does with it, ELF headers and segments, and the choice of a target are left out.
- The write_ functions that lowering never calls, and the register names it never uses.
- File and stream handling, logging, the command line, AST and IR printing.
