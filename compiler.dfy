/**
 * src/compiler.c as it runs: the global `parser` and `compilingChunk`
 * become the fields of a Compiler object, and every static function a
 * method that updates them in place.  Each method is proved to produce the
 * state the matching CompilerSpec function computes.
 */
module Compilers {
  import opened Tokens
  import opened Opcodes
  import opened CompilerSpec
  import V = Values
  import opened Chunks

  class Compiler {
    // The global `Parser parser`.
    var current: Token
    var previous: Token
    var hadError: bool
    var panicMode: bool
    // The scanner: the tokens of the source being compiled and the position
    // of the next one scanToken returns.
    var tokens: seq<Token>
    var next: nat
    // `Chunk* compilingChunk`.
    var compilingChunk: Chunk?
    // What errorAt has printed to stderr.
    var diagnostics: seq<Diagnostic>

    /** The objects the compiler writes to: itself, the chunk and its constant pool. */
    ghost function ChunkParts(): set<object>
      reads this
    {
      if compilingChunk == null then {} else {compilingChunk, compilingChunk.constants}
    }

    ghost predicate Valid()
      reads this, ChunkParts()
    {
      && ValidStream(tokens) && next < |tokens|
      && compilingChunk != null && compilingChunk.Valid()
    }

    /** The compiler state as CompilerSpec describes it. */
    ghost function Snapshot(): State
      reads this, ChunkParts()
      requires Valid()
    {
      State(Parser(current, previous, hadError, panicMode), next,
            compilingChunk.Code(), compilingChunk.Lines(), compilingChunk.Constants(), diagnostics)
    }

    /** The parser's remaining work, the measure that makes the recursion terminate. */
    ghost function Work(): nat
      reads this, ChunkParts()
      requires Valid()
    {
      Pending(tokens, Snapshot())
    }

    /**
     * The zero-initialised globals before the first compile: no chunk, no
     * error, no tokens (a zeroed Token has type 0, TOKEN_LEFT_PAREN).
     */
    constructor ()
      ensures compilingChunk == null && tokens == [] && next == 0 && diagnostics == []
      ensures !hadError && !panicMode
    {
      current := Token(LeftParen, "", 0);
      previous := Token(LeftParen, "", 0);
      hadError, panicMode := false, false;
      tokens, next := [], 0;
      compilingChunk := null;
      diagnostics := [];
    }

    /** scanToken: the next token of the source; EOF again once the end is reached. */
    method ScanToken() returns (token: Token)
      requires ValidStream(tokens) && next < |tokens|
      modifies this`next
      ensures (token, next) == Tokens.ScanToken(tokens, old(next))
      ensures token == tokens[old(next)] && (token.kind == Error ==> next == old(next) + 1)
    {
      token := tokens[next];
      if next < |tokens| - 1 {
        next := next + 1;
      }
    }

    method ErrorAt(token: Token, message: string)
      requires Valid()
      modifies this`hadError, this`panicMode, this`diagnostics
      ensures Valid()
      ensures Snapshot() == CompilerSpec.ErrorAt(old(Snapshot()), token, message)
    {
      if panicMode {
        return;
      }
      panicMode := true;
      diagnostics := diagnostics + [Report(token, message)];
      hadError := true;
    }

    method ErrorAtPrevious(message: string)
      requires Valid()
      modifies this`hadError, this`panicMode, this`diagnostics
      ensures Valid()
      ensures Snapshot() == CompilerSpec.ErrorAtPrevious(old(Snapshot()), message)
    {
      ErrorAt(previous, message);
    }

    method ErrorAtCurrent(message: string)
      requires Valid()
      modifies this`hadError, this`panicMode, this`diagnostics
      ensures Valid()
      ensures Snapshot() == CompilerSpec.ErrorAtCurrent(old(Snapshot()), message)
    {
      ErrorAt(current, message);
    }

    /** advance: `previous` takes `current`, then the scan loop fills `current`. */
    method Advance()
      requires Valid()
      modifies this`current, this`previous, this`next, this`hadError, this`panicMode, this`diagnostics
      ensures Valid()
      ensures Snapshot() == CompilerSpec.Advance(tokens, old(Snapshot()))
      ensures previous == old(current) && Work() < |tokens| - old(next) + 1
    {
      ghost var s0 := Snapshot();
      previous := current;
      assert Snapshot() == s0.(parser := s0.parser.(previous := s0.parser.current));
      ScanLoop();
      assert Snapshot() == CompilerSpec.Advance(tokens, s0);
    }

    /** The `for (;;)` loop of advance: skip error tokens, reporting each. */
    method ScanLoop()
      requires Valid()
      modifies this`current, this`next, this`hadError, this`panicMode, this`diagnostics
      ensures Valid()
      ensures Snapshot() == CompilerSpec.ScanLoop(tokens, old(Snapshot()))
    {
      while true
        invariant Valid()
        invariant CompilerSpec.ScanLoop(tokens, Snapshot()) == CompilerSpec.ScanLoop(tokens, old(Snapshot()))
        decreases |tokens| - next
      {
        ghost var before := Snapshot();
        ScanCurrent();
        CompilerSpec.ScanLoopTurn(tokens, before, Snapshot());
        if current.kind != Error {
          return;
        }
        ErrorAtCurrent(current.lexeme);
      }
    }

    /** `parser.current = scanToken();`, the first statement of the scan loop. */
    method ScanCurrent()
      requires Valid()
      modifies this`current, this`next
      ensures Valid()
      ensures Snapshot() == old(Snapshot()).(parser := old(Snapshot()).parser.(current := Tokens.ScanToken(tokens, old(next)).0),
                                            next := Tokens.ScanToken(tokens, old(next)).1)
    {
      var token := ScanToken();
      current := token;
    }

    method Consume(kind: TokenKind, message: string)
      requires Valid()
      modifies this`current, this`previous, this`next, this`hadError, this`panicMode, this`diagnostics
      ensures Valid()
      ensures Snapshot() == CompilerSpec.Consume(tokens, old(Snapshot()), kind, message)
    {
      if current.kind == kind {
        Advance();
        return;
      }
      ErrorAtCurrent(message);
    }

    method EmitByte(b: byte)
      requires Valid()
      modifies compilingChunk
      ensures Valid()
      ensures Snapshot() == CompilerSpec.EmitByte(old(Snapshot()), b)
    {
      compilingChunk.WriteChunk(b, previous.line);
    }

    method EmitBytes(b1: byte, b2: byte)
      requires Valid()
      modifies compilingChunk
      ensures Valid()
      ensures Snapshot() == CompilerSpec.EmitBytes(old(Snapshot()), b1, b2)
    {
      EmitByte(b1);
      EmitByte(b2);
    }

    method EmitReturn()
      requires Valid()
      modifies compilingChunk
      ensures Valid()
      ensures Snapshot() == CompilerSpec.EmitReturn(old(Snapshot()))
    {
      EmitByte(ToByte(OpReturn));
    }

    method MakeConstant(value: V.Value) returns (index: byte)
      requires Valid()
      modifies compilingChunk.constants, this`hadError, this`panicMode, this`diagnostics
      ensures Valid()
      ensures (Snapshot(), index) == CompilerSpec.MakeConstant(old(Snapshot()), value)
    {
      var constant := compilingChunk.AddConstant(value);
      if constant <= 255 {
        return constant as byte;
      }
      if constant > 0xFF_FFFF {
        ErrorAtPrevious("Too many constants in one chunk.");
        return 0;
      }
      return Low8(constant);
    }

    method EmitConstant(value: V.Value)
      requires Valid()
      modifies compilingChunk, compilingChunk.constants
      ensures Valid()
      ensures Snapshot() == CompilerSpec.EmitConstant(old(Snapshot()), value)
    {
      ghost var s0 := Snapshot();
      var constant := compilingChunk.AddConstant(value);
      assert Snapshot() == CompilerSpec.AddConstant(s0, value).0;
      if constant <= 255 {
        EmitBytes(ToByte(OpConstant), constant as byte);
      } else {
        EmitByte(ToByte(OpConstantLong));
        EmitByte(Low8(constant / 0x1_0000));
        EmitByte(Low8(constant / 0x100));
        EmitByte(Low8(constant));
      }
    }

    method EndCompiler()
      requires Valid()
      modifies compilingChunk
      ensures Valid()
      ensures Snapshot() == CompilerSpec.EndCompiler(old(Snapshot()))
    {
      EmitReturn();
    }

    method Binary()
      requires Valid()
      modifies this`current, this`previous, this`next, this`hadError, this`panicMode, this`diagnostics
      modifies compilingChunk, compilingChunk.constants
      ensures Valid()
      ensures Snapshot() == CompilerSpec.Binary(tokens, old(Snapshot()))
      decreases Work() + 1, 0
    {
      ghost var s0 := Snapshot();
      var operatorType := previous.kind;
      var rule := GetRule(operatorType);
      var precedence := rule.precedence + 1;
      assert precedence == OperandPrecedence(operatorType);
      ParsePrecedence(precedence);
      // The switch on the operator: one arithmetic opcode per operator token.
      if IsBinaryOperator(operatorType) {
        EmitByte(ToByte(BinaryOpcode(operatorType)));
      }
    }

    method Literal()
      requires Valid()
      modifies compilingChunk
      ensures Valid()
      ensures Snapshot() == CompilerSpec.Literal(old(Snapshot()))
    {
      // The switch on the literal's token type; any other type emits nothing.
      var kind := previous.kind;
      if kind == False {
        EmitByte(ToByte(OpFalse));
      } else if kind == Null {
        EmitByte(ToByte(OpNull));
      } else if kind == True {
        EmitByte(ToByte(OpTrue));
      }
    }

    method Grouping()
      requires Valid()
      modifies this`current, this`previous, this`next, this`hadError, this`panicMode, this`diagnostics
      modifies compilingChunk, compilingChunk.constants
      ensures Valid()
      ensures Snapshot() == CompilerSpec.Grouping(tokens, old(Snapshot()))
      decreases Work() + 1, 0
    {
      Expression();
      Consume(RightParen, "Expect ')' after expression.");
    }

    method Number()
      requires Valid()
      modifies compilingChunk, compilingChunk.constants
      ensures Valid()
      ensures Snapshot() == CompilerSpec.Number(old(Snapshot()))
    {
      EmitConstant(V.NumberVal(V.Number(previous.lexeme)));
    }

    method Unary()
      requires Valid()
      modifies this`current, this`previous, this`next, this`hadError, this`panicMode, this`diagnostics
      modifies compilingChunk, compilingChunk.constants
      ensures Valid()
      ensures Snapshot() == CompilerSpec.Unary(tokens, old(Snapshot()))
      decreases Work() + 1, 0
    {
      var operatorType := previous.kind;
      ParsePrecedence(PrecUnary);
      // The switch on the operator: only `-` has a case.
      if operatorType == Minus {
        EmitByte(ToByte(OpNegate));
      }
    }

    method ParsePrecedence(precedence: nat)
      requires Valid() && precedence >= PrecAssignment
      modifies this`current, this`previous, this`next, this`hadError, this`panicMode, this`diagnostics
      modifies compilingChunk, compilingChunk.constants
      ensures Valid()
      ensures Snapshot() == CompilerSpec.ParsePrecedence(tokens, old(Snapshot()), precedence)
      decreases Work(), 3
    {
      ghost var s0 := Snapshot();
      Advance();
      ghost var s1 := Snapshot();
      var prefixRule := GetRule(previous.kind).prefix;
      CompilerSpec.ParsePrecedenceWithRule(tokens, s0, precedence, s1, prefixRule);
      if prefixRule == NoPrefix {
        ErrorAtPrevious("Expect expression.");
        return;
      }
      // EOF has no prefix rule, so a handler runs only after real progress.
      CompilerSpec.AdvanceProgress(tokens, s0, s1);
      Prefix(prefixRule);
      InfixLoop(precedence);
    }

    /** The call `prefixRule()`: run the prefix handler of the token just consumed. */
    method Prefix(prefixRule: PrefixFn)
      requires Valid() && prefixRule != NoPrefix
      modifies this`current, this`previous, this`next, this`hadError, this`panicMode, this`diagnostics
      modifies compilingChunk, compilingChunk.constants
      ensures Valid()
      ensures Snapshot() == CompilerSpec.Prefix(tokens, old(Snapshot()), prefixRule)
      decreases Work() + 1, 1
    {
      match prefixRule {
        case GroupingFn => Grouping();
        case UnaryFn => Unary();
        case NumberFn => Number();
        case LiteralFn => Literal();
      }
    }

    /**
     * The `while` loop of parsePrecedence: consume each operator at least
     * as tight as `precedence` and run its infix handler.
     */
    method InfixLoop(precedence: nat)
      requires Valid() && precedence >= PrecAssignment
      modifies this`current, this`previous, this`next, this`hadError, this`panicMode, this`diagnostics
      modifies compilingChunk, compilingChunk.constants
      ensures Valid()
      ensures Snapshot() == CompilerSpec.InfixLoop(tokens, old(Snapshot()), precedence)
      decreases Work(), 2
    {
      while precedence <= GetRule(current.kind).precedence
        invariant Valid() && Work() <= old(Work())
        invariant CompilerSpec.InfixLoop(tokens, Snapshot(), precedence)
               == CompilerSpec.InfixLoop(tokens, old(Snapshot()), precedence)
        decreases Work()
      {
        ghost var s2 := Snapshot();
        CompilerSpec.InfixLoopDefinition(tokens, s2, precedence);
        InfixOperator(precedence);
      }
      ghost var s3 := Snapshot();
      CompilerSpec.InfixLoopDefinition(tokens, s3, precedence);
    }

    /**
     * The body of that loop: consume the operator, then call its infix
     * handler, which for every token that passes the loop test is binary.
     */
    method InfixOperator(precedence: nat)
      requires Valid() && precedence >= PrecAssignment
      requires precedence <= GetRule(current.kind).precedence
      modifies this`current, this`previous, this`next, this`hadError, this`panicMode, this`diagnostics
      modifies compilingChunk, compilingChunk.constants
      ensures Valid() && Work() < old(Work())
      ensures Snapshot() == CompilerSpec.Binary(tokens, CompilerSpec.Advance(tokens, old(Snapshot())))
      decreases Work(), 1
    {
      ghost var s0 := Snapshot();
      CompilerSpec.InfixProgress(tokens, s0, precedence);
      Advance();
      ghost var s1 := Snapshot();
      assert s1 == CompilerSpec.Advance(tokens, s0);
      // infixRule(): binary is the only infix handler in the table.
      InfixRuleExists(previous.kind);
      var infixRule := GetRule(previous.kind).infix;
      assert infixRule == BinaryFn;
      Binary();
      assert tokens == old(tokens);
      assert Snapshot() == CompilerSpec.Binary(tokens, s1);
    }

    method Expression()
      requires Valid()
      modifies this`current, this`previous, this`next, this`hadError, this`panicMode, this`diagnostics
      modifies compilingChunk, compilingChunk.constants
      ensures Valid()
      ensures Snapshot() == CompilerSpec.Expression(tokens, old(Snapshot()))
      decreases Work(), 4
    {
      ParsePrecedence(PrecAssignment);
    }

    /**
     * compile: point the scanner at the source and the compiler at `chunk`,
     * clear the error flags, compile one expression and report success.
     */
    method Compile(source: seq<Token>, chunk: Chunk) returns (ok: bool)
      requires ValidStream(source) && chunk.Valid()
      modifies this, chunk, chunk.constants
      ensures Valid() && compilingChunk == chunk && tokens == source
      ensures Snapshot() == CompilerSpec.Compile(source,
        old(State(Parser(current, previous, hadError, panicMode), next,
                  chunk.Code(), chunk.Lines(), chunk.Constants(), diagnostics)))
      ensures ok == Succeeded(Snapshot())
    {
      ghost var init := State(Parser(current, previous, hadError, panicMode), next,
                              chunk.Code(), chunk.Lines(), chunk.Constants(), diagnostics);
      tokens, next := source, 0;
      compilingChunk := chunk;
      hadError := false;
      panicMode := false;
      ghost var s0 := Snapshot();
      assert s0 == init.(parser := init.parser.(hadError := false, panicMode := false), next := 0);
      Advance();
      ghost var s1 := Snapshot();
      assert s1 == CompilerSpec.Advance(source, s0);
      Expression();
      ghost var s2 := Snapshot();
      assert s2 == CompilerSpec.Expression(source, s1);
      Consume(Eof, "Expect end of expression.");
      ghost var s3 := Snapshot();
      assert s3 == CompilerSpec.Consume(source, s2, Eof, "Expect end of expression.");
      EndCompiler();
      assert Snapshot() == CompilerSpec.EndCompiler(s3);
      return !hadError;
    }
  }
}
