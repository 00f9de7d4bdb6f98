/**
 * How the parts fit together: what compile leaves in a chunk for a
 * well-formed expression, what the VM then does with that chunk, and how
 * the encodings of a constant's pool index agree or disagree between the
 * compiler (src/compiler.c), writeConstant (src/chunk.c), the VM
 * (src/vm.c) and the disassembler (src/debug.c).
 */
module Pipeline {
  import opened Wrappers
  import opened Tokens
  import opened Opcodes
  import opened CompilerSpec
  import opened Pratt
  import opened Chunks
  import Vm
  import Debug
  import V = Values

  /** An opcode without operands other than OP_RETURN loads nothing and lets the run go on. */
  lemma SimpleLoads(b: byte, pool: seq<V.Value>)
    requires b != ToByte(OpConstant) && b != ToByte(OpConstantLong) && b != ToByte(OpReturn)
    ensures Instructions([b], |pool|) && Vm.ReturnFree([b]) && Vm.Fetched([b], pool) == []
  {
    assert [b][1..] == [];
  }

  /** The constant instruction for index n loads pool entry n, in either of its forms. */
  lemma ConstantLoads(n: nat, pool: seq<V.Value>)
    requires n < |pool| && n < 0x100_0000
    ensures var code := EmittedConstant(n);
      Instructions(code, |pool|) && Vm.ReturnFree(code) && Vm.Fetched(code, pool) == [pool[n]]
  {
    var code := EmittedConstant(n);
    EmittedConstantForm(n);
    ConstantInstruction(n);
    InstructionsMonotonic(code, n + 1, |pool|);
    assert code[Width(code[0])..] == [];
  }

  /** A window of the pool that holds a + b holds a, then b. */
  lemma PoolWindow(pool: seq<V.Value>, n: nat, m: nat, a: seq<V.Value>, b: seq<V.Value>)
    requires m == n + |a| && n + |a| + |b| <= |pool| && pool[n..n + |a| + |b|] == a + b
    ensures pool[n..m] == a && pool[m..m + |b|] == b
  {
    assert pool[n..m] == pool[n..n + |a| + |b|][..|a|];
    assert pool[m..m + |b|] == pool[n..n + |a| + |b|][|a|..];
  }

  /**
   * `code` is a stream of complete instructions without OP_RETURN whose
   * constant instructions load `values` from `pool`, in order.
   */
  predicate Loads(code: seq<byte>, pool: seq<V.Value>, values: seq<V.Value>)
  {
    Instructions(code, |pool|) && Vm.ReturnFree(code) && Vm.Fetched(code, pool) == values
  }

  /**
   * The postfix code of a well-formed expression loads exactly the
   * expression's numbers, left to right, from the pool window where they
   * were added.
   */
  lemma {:induction false} PostfixLoads(e: Expr, n: nat, pool: seq<V.Value>)
    requires WellPrec(e) && n + |Pool(e)| <= |pool| && n + |Pool(e)| <= 0x100_0000
    requires pool[n..n + |Pool(e)|] == Pool(e)
    ensures Loads(Postfix(e, n), pool, Pool(e))
    decreases e, 1
  {
    if e.Num? {
      NumLoads(e, n, pool);
    } else if e.Lit? {
      SimpleLoads(ToByte(LiteralOp(e.literal.kind)), pool);
    } else if e.Neg? {
      PostfixLoads(e.operand, n, pool);
      NegLoads(e, n, pool);
    } else if e.Group? {
      PostfixLoads(e.inner, n, pool);
    } else {
      BinCaseLoads(e, n, pool);
    }
  }

  /** The binary case of PostfixLoads: each operand loads its own part of the window. */
  lemma {:induction false} BinCaseLoads(e: Expr, n: nat, pool: seq<V.Value>)
    requires e.Bin? && WellPrec(e) && n + |Pool(e)| <= |pool| && n + |Pool(e)| <= 0x100_0000
    requires pool[n..n + |Pool(e)|] == Pool(e)
    ensures Loads(Postfix(e, n), pool, Pool(e))
    decreases e, 0
  {
    var l, r := e.left, e.right;
    var m := n + |Pool(l)|;
    assert Pool(e) == Pool(l) + Pool(r);
    PoolWindow(pool, n, m, Pool(l), Pool(r));
    PostfixLoads(l, n, pool);
    PostfixLoads(r, m, pool);
    BinLoads(e, n, m, pool);
  }

  lemma NumLoads(e: Expr, n: nat, pool: seq<V.Value>)
    requires e.Num? && n + 1 <= |pool| && n + 1 <= 0x100_0000 && pool[n..n + 1] == Pool(e)
    ensures Loads(Postfix(e, n), pool, Pool(e))
  {
    assert pool[n] == pool[n..n + 1][0];
    ConstantLoads(n, pool);
  }

  lemma NegLoads(e: Expr, n: nat, pool: seq<V.Value>)
    requires e.Neg? && Loads(Postfix(e.operand, n), pool, Pool(e.operand))
    ensures Loads(Postfix(e, n), pool, Pool(e))
  {
    var c := Postfix(e.operand, n);
    var vs := Pool(e.operand);
    assert Postfix(e, n) == c + [ToByte(OpNegate)];
    SimpleLoads(ToByte(OpNegate), pool);
    Vm.FetchedAppend(c, [ToByte(OpNegate)], pool);
    Vm.ReturnFreeAppend(c, [ToByte(OpNegate)], pool);
    assert vs + [] == vs;
  }

  lemma BinLoads(e: Expr, n: nat, m: nat, pool: seq<V.Value>)
    requires e.Bin? && IsBinaryOperator(e.op.kind) && m == n + |Pool(e.left)|
    requires Loads(Postfix(e.left, n), pool, Pool(e.left)) && Loads(Postfix(e.right, m), pool, Pool(e.right))
    ensures Loads(Postfix(e, n), pool, Pool(e))
  {
    var cl, cr, o := Postfix(e.left, n), Postfix(e.right, m), OperatorCode(e.op.kind);
    var vl, vr := Pool(e.left), Pool(e.right);
    assert Postfix(e, n) == cl + cr + o;
    assert Pool(e) == vl + vr;
    OperatorCodeLoads(e.op.kind, pool);
    OperandsLoad(cl, cr, pool, vl, vr);
    OperatorLoads(cl + cr, o, pool, vl + vr);
  }

  /** A binary operator's opcode byte is a complete instruction that loads nothing. */
  lemma OperatorCodeLoads(kind: TokenKind, pool: seq<V.Value>)
    requires IsBinaryOperator(kind)
    ensures Loads(OperatorCode(kind), pool, [])
  {
    var op := BinaryOpcode(kind);
    assert op in {OpAdd, OpSubtract, OpMultiply, OpDivide};
    SimpleLoads(ToByte(op), pool);
  }

  /** The code of two operands, one after the other, loads both operands' values in order. */
  lemma OperandsLoad(cl: seq<byte>, cr: seq<byte>, pool: seq<V.Value>, vl: seq<V.Value>, vr: seq<V.Value>)
    requires Loads(cl, pool, vl) && Loads(cr, pool, vr)
    ensures Loads(cl + cr, pool, vl + vr)
  {
    Vm.FetchedAppend(cl, cr, pool);
    Vm.ReturnFreeAppend(cl, cr, pool);
  }

  /** An operator byte after the operands' code loads nothing more. */
  lemma OperatorLoads(c: seq<byte>, o: seq<byte>, pool: seq<V.Value>, vs: seq<V.Value>)
    requires Loads(c, pool, vs) && Loads(o, pool, [])
    ensures Loads(c + o, pool, vs)
  {
    Vm.FetchedAppend(c, o, pool);
    Vm.ReturnFreeAppend(c, o, pool);
    assert vs + [] == vs;
  }

  /** The first advance of compile, from the start of a stream whose first token is no error token. */
  lemma FirstAdvance(tokens: seq<Token>, s: State)
    requires ValidStream(tokens) && s.next == 0 && tokens[0].kind != Error
    ensures At(tokens, Advance(tokens, s), 0) && SameOutput(s, Advance(tokens, s))
  {
    AdvanceResult(tokens, s);
  }

  /** consume(TOKEN_EOF, …) at the final EOF: `previous` becomes the EOF and nothing else changes. */
  lemma ConsumeEof(tokens: seq<Token>, s: State)
    requires ValidStream(tokens) && At(tokens, s, |tokens| - 1)
    ensures var r := Consume(tokens, s, Eof, "Expect end of expression.");
      SameOutput(s, r) && r.parser.previous == tokens[|tokens| - 1]
  {
    AdvanceResult(tokens, s);
  }

  /** The tokens of an expression and then EOF form a stream the expression occupies from its start. */
  lemma ExpressionStream(tokens: seq<Token>, e: Expr, eof: Token)
    requires WellPrec(e) && eof.kind == Eof && tokens == ExprTokens(e) + [eof]
    ensures ValidStream(tokens) && Occupies(tokens, 0, e, [eof]) && tokens[0].kind != Error
    ensures |tokens| - 1 == |ExprTokens(e)|
  {
    assert tokens[0..] == ExprTokens(e) + [eof];
    FirstToken(e);
    NoEof(e);
    EofOnlyAtEndAppend(ExprTokens(e), eof);
  }

  /** Priming the parser and parsing one expression compiles exactly the expression. */
  lemma ParseExpression(tokens: seq<Token>, s0: State, s1: State, e: Expr, eof: Token, j: nat)
    requires ValidStream(tokens) && Occupies(tokens, 0, e, [eof]) && tokens[0].kind != Error
    requires WellPrec(e) && eof.kind == Eof && s0.next == 0 && j == |ExprTokens(e)| == |tokens| - 1
    requires s1 == Advance(tokens, s0)
    ensures SameOutput(s0, s1)
    ensures Expression(tokens, s1) == Compiled(tokens, s1, 0, e) && At(tokens, Expression(tokens, s1), j)
  {
    PrecPositive(e);
    InfixRuleExists(Eof);
    FirstAdvance(tokens, s0);
    ParseAll(tokens, s1, 0, e, [eof], PrecAssignment);
    CompiledAt(tokens, s1, 0, e, j);
  }

  /** compile over a stream that one well-formed expression occupies up to the final EOF. */
  lemma CompileOccupied(tokens: seq<Token>, s: State, e: Expr, eof: Token, j: nat)
    requires ValidStream(tokens) && Occupies(tokens, 0, e, [eof]) && tokens[0].kind != Error
    requires WellPrec(e) && eof.kind == Eof && j == |tokens| - 1 == |ExprTokens(e)|
    ensures Compile(tokens, s) == s.(
      parser := Parser(eof, eof, false, false), next := j,
      code := s.code + Postfix(e, |s.constants|) + [ToByte(OpReturn)],
      lines := s.lines + PostfixLines(e, |s.constants|) + [eof.line],
      constants := s.constants + Pool(e))
  {
    var s0 := s.(parser := s.parser.(hadError := false, panicMode := false), next := 0);
    var s1 := Advance(tokens, s0);
    ParseExpression(tokens, s0, s1, e, eof, j);
    var s2 := Expression(tokens, s1);
    ConsumeEof(tokens, s2);
  }

  /**
   * compile on the tokens of a well-formed expression followed by EOF
   * succeeds without a report and appends the expression's postfix code,
   * then OP_RETURN on the line of the EOF; the numbers go to the pool in
   * source order.
   */
  lemma CompileExpression(tokens: seq<Token>, s: State, e: Expr, eof: Token)
    requires WellPrec(e) && eof.kind == Eof && tokens == ExprTokens(e) + [eof]
    ensures ValidStream(tokens)
    ensures var r := Compile(tokens, s);
      && Succeeded(r) && r.diagnostics == s.diagnostics
      && r.code == s.code + Postfix(e, |s.constants|) + [ToByte(OpReturn)]
      && r.lines == s.lines + PostfixLines(e, |s.constants|) + [eof.line]
      && r.constants == s.constants + Pool(e)
  {
    ExpressionStream(tokens, e, eof);
    CompileOccupied(tokens, s, e, eof, |ExprTokens(e)|);
  }

  /**
   * When the first token cannot start an expression (EOF included), compile
   * reports "Expect expression." at it, nothing else, and fails; the chunk
   * gets only the final OP_RETURN.  (An error token right after it would be
   * reported first, and the missing expression not at all.)
   */
  lemma MissingExpression(tokens: seq<Token>, s: State)
    requires ValidStream(tokens) && tokens[0].kind != Error && GetRule(tokens[0].kind).prefix == NoPrefix
    requires tokens[After(tokens, 0)].kind != Error
    ensures var r := Compile(tokens, s);
      && !Succeeded(r)
      && r.diagnostics == s.diagnostics + [Report(tokens[0], "Expect expression.")]
      && r.code == s.code + [ToByte(OpReturn)] && r.constants == s.constants
  {
    var s0 := s.(parser := s.parser.(hadError := false, panicMode := false), next := 0);
    FirstAdvance(tokens, s0);
    var s1 := Advance(tokens, s0);
    var s1a := Advance(tokens, s1);
    AdvanceResult(tokens, s1);
    ParsePrecedenceDefinition(tokens, s1, PrecAssignment, s1a);
    var s2 := Expression(tokens, s1);
    assert s2 == ErrorAtPrevious(s1a, "Expect expression.");
    ErrorAtReports(s1a, s1a.parser.previous, "Expect expression.");
    ConsumeResult(tokens, s2, Eof, "Expect end of expression.");
  }

  /** An empty source, which scans to EOF alone, is reported at the end as a missing expression. */
  lemma EmptySource(eof: Token, s: State)
    requires eof.kind == Eof
    ensures var r := Compile([eof], s);
      && !Succeeded(r) && r.diagnostics == s.diagnostics + [Report(eof, "Expect expression.")]
      && Report(eof, "Expect expression.").location == AtEnd
  {
    MissingExpression([eof], s);
  }

  /**
   * End to end: compiling a well-formed expression into an empty chunk and
   * interpreting that chunk prints the expression's numbers in source
   * order and returns INTERPRET_OK, as long as the pool indices fit the
   * three-byte operand.
   */
  lemma CompileThenRun(tokens: seq<Token>, s: State, e: Expr, eof: Token)
    requires WellPrec(e) && eof.kind == Eof && tokens == ExprTokens(e) + [eof]
    requires s.code == [] && s.constants == [] && |Pool(e)| <= 0x100_0000
    ensures ValidStream(tokens)
    ensures var r := Compile(tokens, s);
      Vm.Exec(r.code, r.constants) == Vm.Execution(Vm.Finished(Vm.InterpretOk), Pool(e))
  {
    CompileExpression(tokens, s, e, eof);
    var r := Compile(tokens, s);
    assert r.constants == Pool(e) && r.code == Postfix(e, 0) + [ToByte(OpReturn)];
    RunPostfix(e, r.constants);
  }

  /**
   * Whatever the tokens, and whether or not compile reports an error, the
   * chunk it leaves runs to its final OP_RETURN and ends with INTERPRET_OK,
   * provided the chunk held complete instructions before.
   */
  lemma CompiledRuns(tokens: seq<Token>, s: State)
    requires ValidStream(tokens) && Instructions(s.code, |s.constants|)
    ensures var r := Compile(tokens, s);
      Vm.Exec(r.code, r.constants).outcome == Vm.Finished(Vm.InterpretOk)
  {
    var s0 := s.(parser := s.parser.(hadError := false, panicMode := false), next := 0);
    var s3 := BeforeReturn(tokens, s0);
    BeforeReturnStep(tokens, s0);
    var r := EmitByte(s3, ToByte(OpReturn));
    assert Compile(tokens, s) == r;
    EmitByteResult(s3, ToByte(OpReturn));
    assert r.code == s3.code + [ToByte(OpReturn)] + [];
    Vm.ReturnsOk(s3.code, [], s3.constants);
  }

  /** The postfix code of a well-formed expression, with its pool and a final OP_RETURN, prints the pool. */
  lemma RunPostfix(e: Expr, pool: seq<V.Value>)
    requires WellPrec(e) && pool == Pool(e) && |pool| <= 0x100_0000
    ensures Vm.Exec(Postfix(e, 0) + [ToByte(OpReturn)], pool) == Vm.Execution(Vm.Finished(Vm.InterpretOk), pool)
  {
    var body := Postfix(e, 0);
    assert pool[0..|pool|] == pool;
    PostfixLoads(e, 0, pool);
    Vm.RunsToReturn(body, [], pool);
    assert body + [ToByte(OpReturn)] + [] == body + [ToByte(OpReturn)];
  }

  /*
   * The encodings of a constant's pool index.  The compiler and the VM
   * agree (the long form most significant byte first); writeConstant and
   * the disassembler agree (least significant byte first, and the short
   * form only below 255).  Across the two pairs they do not.
   */

  /** The VM reads back every index the compiler writes (modulo 2^24). */
  lemma VmReadsEmittedConstant(index: nat, pool: seq<V.Value>, tail: seq<byte>)
    requires index % 0x100_0000 < |pool|
    ensures Vm.Decode(EmittedConstant(index) + tail, pool)
      == Vm.Continue([pool[index % 0x100_0000]], |EmittedConstant(index)|)
  {
    EmittedConstantForm(index);
    var code := EmittedConstant(index) + tail;
    assert code[0] == EmittedConstant(index)[0];
    if index > 255 {
      assert code[1..4] == EmittedConstant(index)[1..4];
    } else {
      assert code[1] == index as byte;
    }
  }

  /** The disassembler reads back every index writeConstant writes (modulo 2^24). */
  lemma DebugReadsWrittenConstant(index: nat, pool: seq<V.Value>, tail: seq<byte>, table: seq<LineEntry>)
    ensures var code := WriteConstantBytes(index) + tail;
      var (entry, next) := Debug.InstructionListing(code, table, pool, 0);
      next == |WriteConstantBytes(index)| && entry.operand == Debug.Load(pool, index % 0x100_0000)
  {
    var code := WriteConstantBytes(index) + tail;
    assert code[0..|WriteConstantBytes(index)|] == WriteConstantBytes(index);
    Debug.WriteConstantListing(code, table, pool, 0, index);
  }

  /**
   * The disassembler misreads the compiler's long form: the compiler writes
   * index 300 as OP_CONSTANT_LONG 0x00 0x01 0x2C and the disassembler lists
   * it as index 0x2C0100 = 2883840.
   */
  lemma DebugMisreadsEmittedConstant(pool: seq<V.Value>, table: seq<LineEntry>)
    ensures EmittedConstant(300) == [ToByte(OpConstantLong), 0, 1, 44]
    ensures Debug.InstructionListing(EmittedConstant(300), table, pool, 0).0.operand == Debug.Load(pool, 2883840)
  {
  }

  /**
   * The VM misreads writeConstant's long form: writeConstant writes index
   * 255 as OP_CONSTANT_LONG 0xFF 0x00 0x00, which the VM reads as index
   * 0xFF0000; with 256 constants in the pool that load runs past the pool.
   */
  lemma VmMisreadsWrittenConstant(pool: seq<V.Value>)
    requires |pool| == 256
    ensures WriteConstantBytes(255) == [ToByte(OpConstantLong), 255, 0, 0]
    ensures Vm.Exec(WriteConstantBytes(255) + [ToByte(OpReturn)], pool).outcome == Vm.ReadPastPool
  {
    var code := WriteConstantBytes(255) + [ToByte(OpReturn)];
    assert BigEndian24(code[1], code[2], code[3]) == 16711680;
  }

  /** The pool entry of a number token. */
  function NumberOf(t: Token): V.Value
  {
    V.NumberVal(V.Number(t.lexeme))
  }

  /** A number compiled with pool index n <= 255 is the two-byte OP_CONSTANT n. */
  lemma NumShape(t: Token, n: nat)
    requires n <= 255
    ensures Postfix(Expr.Num(t), n) == [ToByte(OpConstant), n as byte] && Pool(Expr.Num(t)) == [NumberOf(t)]
  {
  }

  /** A binary node's code: its left operand's, its right operand's, then the operator. */
  lemma BinShape(e: Expr, n: nat, m: nat)
    requires e.Bin? && IsBinaryOperator(e.op.kind) && m == n + |Pool(e.left)|
    ensures Postfix(e, n) == Postfix(e.left, n) + Postfix(e.right, m) + [ToByte(BinaryOpcode(e.op.kind))]
    ensures Pool(e) == Pool(e.left) + Pool(e.right)
  {
  }

  /** `a - b - c` groups to the left, as (a - b) - c. */
  lemma LeftAssociative(a: Token, m1: Token, b: Token, m2: Token, c: Token, eof: Token, s: State)
    requires a.kind == NumberLiteral && b.kind == NumberLiteral && c.kind == NumberLiteral
    requires m1.kind == Minus && m2.kind == Minus && eof.kind == Eof
    requires s.code == [] && s.constants == []
    ensures ValidStream([a, m1, b, m2, c, eof])
    ensures var r := Compile([a, m1, b, m2, c, eof], s);
      && Succeeded(r)
      && r.code == [ToByte(OpConstant), 0, ToByte(OpConstant), 1, ToByte(OpSubtract),
                    ToByte(OpConstant), 2, ToByte(OpSubtract), ToByte(OpReturn)]
      && r.constants == [NumberOf(a), NumberOf(b), NumberOf(c)]
  {
    var e := Bin(m2, Bin(m1, Expr.Num(a), Expr.Num(b)), Expr.Num(c));
    LeftAssociativeTree(a, m1, b, m2, c, eof);
    CompileExpression([a, m1, b, m2, c, eof], s, e, eof);
  }

  lemma LeftAssociativeTree(a: Token, m1: Token, b: Token, m2: Token, c: Token, eof: Token)
    requires a.kind == NumberLiteral && b.kind == NumberLiteral && c.kind == NumberLiteral
    requires m1.kind == Minus && m2.kind == Minus
    ensures var e := Bin(m2, Bin(m1, Expr.Num(a), Expr.Num(b)), Expr.Num(c));
      && WellPrec(e) && ExprTokens(e) + [eof] == [a, m1, b, m2, c, eof]
      && Postfix(e, 0) + [ToByte(OpReturn)]
         == [ToByte(OpConstant), 0, ToByte(OpConstant), 1, ToByte(OpSubtract),
             ToByte(OpConstant), 2, ToByte(OpSubtract), ToByte(OpReturn)]
      && Pool(e) == [NumberOf(a), NumberOf(b), NumberOf(c)]
  {
    var left := Bin(m1, Expr.Num(a), Expr.Num(b));
    var e := Bin(m2, left, Expr.Num(c));
    OperatorPrecedences(Minus);
    NumShape(a, 0);
    NumShape(b, 1);
    NumShape(c, 2);
    BinShape(left, 0, 1);
    BinShape(e, 0, 2);
    assert ExprTokens(left) == [a, m1, b];
  }

  /** In `a + b * c` the product binds tighter, as a + (b * c). */
  lemma FactorBeforeTerm(a: Token, p: Token, b: Token, t: Token, c: Token, eof: Token, s: State)
    requires a.kind == NumberLiteral && b.kind == NumberLiteral && c.kind == NumberLiteral
    requires p.kind == Plus && t.kind == Asterisk && eof.kind == Eof
    requires s.code == [] && s.constants == []
    ensures ValidStream([a, p, b, t, c, eof])
    ensures var r := Compile([a, p, b, t, c, eof], s);
      && Succeeded(r)
      && r.code == [ToByte(OpConstant), 0, ToByte(OpConstant), 1, ToByte(OpConstant), 2,
                    ToByte(OpMultiply), ToByte(OpAdd), ToByte(OpReturn)]
      && r.constants == [NumberOf(a), NumberOf(b), NumberOf(c)]
  {
    var e := Bin(p, Expr.Num(a), Bin(t, Expr.Num(b), Expr.Num(c)));
    FactorBeforeTermTree(a, p, b, t, c, eof);
    CompileExpression([a, p, b, t, c, eof], s, e, eof);
  }

  lemma FactorBeforeTermTree(a: Token, p: Token, b: Token, t: Token, c: Token, eof: Token)
    requires a.kind == NumberLiteral && b.kind == NumberLiteral && c.kind == NumberLiteral
    requires p.kind == Plus && t.kind == Asterisk
    ensures var e := Bin(p, Expr.Num(a), Bin(t, Expr.Num(b), Expr.Num(c)));
      && WellPrec(e) && ExprTokens(e) + [eof] == [a, p, b, t, c, eof]
      && Postfix(e, 0) + [ToByte(OpReturn)]
         == [ToByte(OpConstant), 0, ToByte(OpConstant), 1, ToByte(OpConstant), 2,
             ToByte(OpMultiply), ToByte(OpAdd), ToByte(OpReturn)]
      && Pool(e) == [NumberOf(a), NumberOf(b), NumberOf(c)]
  {
    var right := Bin(t, Expr.Num(b), Expr.Num(c));
    var e := Bin(p, Expr.Num(a), right);
    OperatorPrecedences(Plus);
    OperatorPrecedences(Asterisk);
    NumShape(a, 0);
    NumShape(b, 1);
    NumShape(c, 2);
    BinShape(right, 1, 2);
    BinShape(e, 0, 1);
    assert ExprTokens(right) == [b, t, c];
  }

  /** In `-a + b` the negation binds tighter, as (-a) + b. */
  lemma UnaryBeforeBinary(m: Token, a: Token, p: Token, b: Token, eof: Token, s: State)
    requires a.kind == NumberLiteral && b.kind == NumberLiteral
    requires m.kind == Minus && p.kind == Plus && eof.kind == Eof
    requires s.code == [] && s.constants == []
    ensures ValidStream([m, a, p, b, eof])
    ensures var r := Compile([m, a, p, b, eof], s);
      && Succeeded(r)
      && r.code == [ToByte(OpConstant), 0, ToByte(OpNegate), ToByte(OpConstant), 1, ToByte(OpAdd), ToByte(OpReturn)]
      && r.constants == [NumberOf(a), NumberOf(b)]
  {
    var e := Bin(p, Neg(m, Expr.Num(a)), Expr.Num(b));
    UnaryBeforeBinaryTree(m, a, p, b, eof);
    CompileExpression([m, a, p, b, eof], s, e, eof);
  }

  lemma UnaryBeforeBinaryTree(m: Token, a: Token, p: Token, b: Token, eof: Token)
    requires a.kind == NumberLiteral && b.kind == NumberLiteral
    requires m.kind == Minus && p.kind == Plus
    ensures var e := Bin(p, Neg(m, Expr.Num(a)), Expr.Num(b));
      && WellPrec(e) && ExprTokens(e) + [eof] == [m, a, p, b, eof]
      && Postfix(e, 0) + [ToByte(OpReturn)]
         == [ToByte(OpConstant), 0, ToByte(OpNegate), ToByte(OpConstant), 1, ToByte(OpAdd), ToByte(OpReturn)]
      && Pool(e) == [NumberOf(a), NumberOf(b)]
  {
    var left := Neg(m, Expr.Num(a));
    var e := Bin(p, left, Expr.Num(b));
    OperatorPrecedences(Plus);
    NumShape(a, 0);
    NumShape(b, 1);
    assert Postfix(left, 0) == [ToByte(OpConstant), 0, ToByte(OpNegate)];
    assert WellPrec(left);
    BinShape(e, 0, 1);
    assert ExprTokens(left) == [m, a];
  }
}
