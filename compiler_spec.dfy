/**
 * The single-pass compiler of src/compiler.c written as functions from one
 * compiler state to the next.  A State holds the global `parser`, the
 * scanner's position in the token sequence, and what the compiler has
 * written into `compilingChunk` so far: the code bytes, the line of each
 * byte, the constant pool, and the log of error reports that errorAt prints
 * to stderr.  The Compiler class proves its methods against these functions.
 */
module CompilerSpec {
  import opened Tokens
  import opened Opcodes
  import V = Values

  // The precedence levels, lowest to highest.
  const PrecNone: nat := 0
  const PrecAssignment: nat := 1
  const PrecOr: nat := 2
  const PrecAnd: nat := 3
  const PrecEquality: nat := 4
  const PrecComparison: nat := 5
  const PrecTerm: nat := 6
  const PrecFactor: nat := 7
  const PrecUnary: nat := 8
  const PrecCall: nat := 9
  const PrecPrimary: nat := 10

  /** The prefix handlers of the rule table (NULL is NoPrefix). */
  datatype PrefixFn = NoPrefix | GroupingFn | UnaryFn | NumberFn | LiteralFn

  /** The infix handlers of the rule table (NULL is NoInfix). */
  datatype InfixFn = NoInfix | BinaryFn

  datatype ParseRule = ParseRule(prefix: PrefixFn, infix: InfixFn, precedence: nat)

  /** The `rules` table, looked up by `getRule`. */
  function GetRule(kind: TokenKind): ParseRule
  {
    if kind == LeftParen then ParseRule(GroupingFn, NoInfix, PrecNone)
    else if kind == Minus then ParseRule(UnaryFn, BinaryFn, PrecTerm)
    else if kind == Plus then ParseRule(NoPrefix, BinaryFn, PrecTerm)
    else if kind == Slash then ParseRule(NoPrefix, BinaryFn, PrecFactor)
    else if kind == Asterisk then ParseRule(NoPrefix, BinaryFn, PrecFactor)
    else if kind == NumberLiteral then ParseRule(NumberFn, NoInfix, PrecNone)
    else if kind == False || kind == Null || kind == True then ParseRule(LiteralFn, NoInfix, PrecNone)
    // Every other token type's row is {NULL, NULL, PREC_NONE}.
    else ParseRule(NoPrefix, NoInfix, PrecNone)
  }

  /** The four binary operators, the only tokens with an infix handler. */
  predicate IsBinaryOperator(kind: TokenKind)
  {
    kind == Plus || kind == Minus || kind == Asterisk || kind == Slash
  }

  /**
   * The infix loop runs a token's infix handler only when its precedence is
   * at least PREC_ASSIGNMENT; exactly the binary operators reach that level,
   * and each of them has the `binary` handler.
   */
  lemma InfixRuleExists(kind: TokenKind)
    ensures GetRule(kind).precedence >= PrecAssignment <==> IsBinaryOperator(kind)
    ensures IsBinaryOperator(kind) <==> GetRule(kind).infix == BinaryFn
  {
  }

  /** `*` and `/` bind tighter than `+` and `-`, and no operator reaches PREC_UNARY. */
  lemma OperatorPrecedences(kind: TokenKind)
    ensures kind == Asterisk || kind == Slash ==> GetRule(kind).precedence == PrecFactor
    ensures kind == Plus || kind == Minus ==> GetRule(kind).precedence == PrecTerm
    ensures PrecTerm < PrecFactor < PrecUnary
    ensures GetRule(kind).precedence < PrecUnary
  {
  }

  /** The tokens that can start an expression. */
  lemma PrefixRules(kind: TokenKind)
    ensures GetRule(kind).prefix != NoPrefix <==>
              kind in {LeftParen, Minus, NumberLiteral, False, Null, True}
  {
  }

  /** Which prefix handler each such token runs. */
  lemma PrefixHandlers(kind: TokenKind)
    ensures kind == LeftParen ==> GetRule(kind).prefix == GroupingFn
    ensures kind == Minus ==> GetRule(kind).prefix == UnaryFn
    ensures kind == NumberLiteral ==> GetRule(kind).prefix == NumberFn
    ensures kind in {False, Null, True} ==> GetRule(kind).prefix == LiteralFn
  {
  }

  datatype Parser = Parser(current: Token, previous: Token, hadError: bool, panicMode: bool)

  /** Where errorAt says an error is: " at end", nothing, or " at '<lexeme>'". */
  datatype Location = AtEnd | AtErrorToken | AtLexeme(lexeme: string)

  /** One report errorAt writes to stderr. */
  datatype Diagnostic = Diagnostic(line: int, location: Location, message: string)

  datatype State = State(
    parser: Parser,
    next: nat,
    code: seq<byte>,
    lines: seq<int>,
    constants: seq<V.Value>,
    diagnostics: seq<Diagnostic>)

  /** The report errorAt writes for an error at `token`. */
  function Report(token: Token, message: string): (d: Diagnostic)
    ensures d.line == token.line && d.message == message
    ensures d.location == AtEnd <==> token.kind == Eof
    ensures d.location == AtErrorToken <==> token.kind == Error
  {
    var location :=
      if token.kind == Eof then AtEnd
      else if token.kind == Error then AtErrorToken
      else AtLexeme(token.lexeme);
    Diagnostic(token.line, location, message)
  }

  /**
   * What any step of the compiler may do to the error flags and the log:
   * in panic mode nothing; otherwise either nothing, or exactly one report
   * that sets both `hadError` and `panicMode`.  Neither flag is ever cleared.
   */
  predicate ErrorStep(s: State, r: State)
  {
    if s.parser.panicMode then
      r.parser.panicMode && r.parser.hadError == s.parser.hadError && r.diagnostics == s.diagnostics
    else
      (r.parser.panicMode == s.parser.panicMode && r.parser.hadError == s.parser.hadError
        && r.diagnostics == s.diagnostics)
      || (r.parser.panicMode && r.parser.hadError
        && |r.diagnostics| == |s.diagnostics| + 1 && s.diagnostics <= r.diagnostics)
  }

  /**
   * What any step may do to the chunk: append code bytes with one line per
   * byte and append constants; a chunk made of complete instructions stays
   * so.
   */
  predicate Grows(s: State, r: State)
  {
    s.code <= r.code && s.lines <= r.lines && |r.lines| - |s.lines| == |r.code| - |s.code|
    && s.constants <= r.constants
    && (Instructions(s.code, |s.constants|) ==> Instructions(r.code, |r.constants|))
  }

  /** The work left for the parser: tokens not yet scanned, plus `current` unless it is EOF. */
  function Pending(tokens: seq<Token>, s: State): nat
    requires s.next <= |tokens|
  {
    |tokens| - s.next + (if s.parser.current.kind == Eof then 0 else 1)
  }

  /** The properties every parsing function keeps. */
  predicate Step(tokens: seq<Token>, s: State, r: State)
  {
    s.next <= |tokens| && r.next < |tokens| && Pending(tokens, r) <= Pending(tokens, s)
    && Grows(s, r) && ErrorStep(s, r)
  }

  /** errorAt: report once, then stay silent while in panic mode. */
  function ErrorAt(s: State, token: Token, message: string): (r: State)
    ensures r.parser.current == s.parser.current && r.parser.previous == s.parser.previous
    ensures r.next == s.next && r.code == s.code && r.lines == s.lines && r.constants == s.constants
  {
    if s.parser.panicMode then s
    else
      s.(parser := s.parser.(panicMode := true, hadError := true),
         diagnostics := s.diagnostics + [Report(token, message)])
  }

  /**
   * errorAt does nothing in panic mode; otherwise it logs exactly one report
   * for `token` and sets both flags.
   */
  lemma ErrorAtReports(s: State, token: Token, message: string)
    ensures var r := ErrorAt(s, token, message);
      ErrorStep(s, r) && r.parser.panicMode
      && (s.parser.panicMode ==> r == s)
      && (!s.parser.panicMode ==>
            r.parser.hadError && r.diagnostics == s.diagnostics + [Report(token, message)])
  {
  }

  /** error: an error at the previous token. */
  function ErrorAtPrevious(s: State, message: string): State
  {
    ErrorAt(s, s.parser.previous, message)
  }

  /** errorAtCurrent: an error at the current token. */
  function ErrorAtCurrent(s: State, message: string): State
  {
    ErrorAt(s, s.parser.current, message)
  }

  /** The position of the first token at or after `i` that is not an error token. */
  function FirstNonError(tokens: seq<Token>, i: nat): (j: nat)
    requires ValidStream(tokens) && i < |tokens|
    ensures i <= j < |tokens| && tokens[j].kind != Error
    ensures forall k :: i <= k < j ==> tokens[k].kind == Error
    decreases |tokens| - i
  {
    if tokens[i].kind != Error then i else FirstNonError(tokens, i + 1)
  }

  /** The scanner position after the token at `j` was returned. */
  function After(tokens: seq<Token>, j: nat): nat
    requires j < |tokens|
  {
    if j < |tokens| - 1 then j + 1 else j
  }

  /**
   * The state the `for (;;)` loop of advance leaves: `current` is the first
   * token at or after the scanner position that is not an error token, and
   * the scanner is just after it.  Each error token passed on the way goes
   * to errorAtCurrent; the first of them enters panic mode, so at most that
   * one is reported.
   */
  function ScanLoop(tokens: seq<Token>, s: State): (r: State)
    requires ValidStream(tokens) && s.next < |tokens|
    ensures s.next <= r.next < |tokens| && r.parser.previous == s.parser.previous
    ensures r.parser.current.kind != Eof ==> s.next < r.next
  {
    var j := FirstNonError(tokens, s.next);
    var s1 := if tokens[s.next].kind == Error then ErrorAt(s, tokens[s.next], tokens[s.next].lexeme) else s;
    s1.(parser := s1.parser.(current := tokens[j]), next := After(tokens, j))
  }

  /**
   * One turn of the loop: scan a token and stop there unless it is an
   * error token, which errorAtCurrent reports before the loop goes on.
   * This is the recursion the loop follows, and the loop's invariant.
   */
  lemma ScanLoopTurn(tokens: seq<Token>, s: State, s1: State)
    requires ValidStream(tokens) && s.next < |tokens|
    requires s1 == s.(parser := s.parser.(current := ScanToken(tokens, s.next).0), next := ScanToken(tokens, s.next).1)
    ensures s1.parser.current.kind == Error ==> s.next < s1.next < |tokens|
    ensures ScanLoop(tokens, s) ==
      if s1.parser.current.kind != Error then s1
      else ScanLoop(tokens, ErrorAtCurrent(s1, s1.parser.current.lexeme))
  {
  }

  /**
   * The scan loop only moves the scanner and `current` and may report the
   * first error token it passes, and only outside panic mode.
   */
  lemma ScanLoopResult(tokens: seq<Token>, s: State)
    requires ValidStream(tokens) && s.next < |tokens|
    ensures var r := ScanLoop(tokens, s);
      && r.parser.current.kind != Error
      && r.code == s.code && r.lines == s.lines && r.constants == s.constants
      && ErrorStep(s, r)
      && if s.parser.panicMode || tokens[s.next].kind != Error then
           r.diagnostics == s.diagnostics && r.parser.hadError == s.parser.hadError
           && r.parser.panicMode == s.parser.panicMode
         else
           r.diagnostics == s.diagnostics + [Report(tokens[s.next], tokens[s.next].lexeme)]
           && r.parser.hadError && r.parser.panicMode
  {
  }

  /** advance: `previous` takes the old `current`, `current` the next token that is not an error. */
  function Advance(tokens: seq<Token>, s: State): (r: State)
    requires ValidStream(tokens) && s.next < |tokens|
    ensures r.next < |tokens| && Pending(tokens, r) <= |tokens| - s.next
    ensures r.parser.previous == s.parser.current
  {
    ScanLoop(tokens, s.(parser := s.parser.(previous := s.parser.current)))
  }

  /**
   * After advance, `previous` is the old `current` and `current` is the
   * first token that is not an error token; a skipped error token is
   * reported unless the parser is already in panic mode.
   */
  lemma AdvanceResult(tokens: seq<Token>, s: State)
    requires ValidStream(tokens) && s.next < |tokens|
    ensures var r := Advance(tokens, s);
      && r.parser.previous == s.parser.current
      && r.parser.current == tokens[FirstNonError(tokens, s.next)]
      && r.parser.current.kind != Error
      && r.next == After(tokens, FirstNonError(tokens, s.next))
      && r.code == s.code && r.lines == s.lines && r.constants == s.constants
      && Step(tokens, s, r)
      && (tokens[s.next].kind != Error ==>
            r.diagnostics == s.diagnostics && r.parser.hadError == s.parser.hadError
            && r.parser.panicMode == s.parser.panicMode)
      && (tokens[s.next].kind == Error && !s.parser.panicMode ==>
            r.diagnostics == s.diagnostics + [Report(tokens[s.next], tokens[s.next].lexeme)])
  {
    ScanLoopResult(tokens, s.(parser := s.parser.(previous := s.parser.current)));
  }

  /** consume: advance when `current` has the expected type, otherwise report `message` at it. */
  function Consume(tokens: seq<Token>, s: State, kind: TokenKind, message: string): (r: State)
    requires ValidStream(tokens) && s.next < |tokens|
    ensures r.next < |tokens| && Pending(tokens, r) <= Pending(tokens, s)
  {
    if s.parser.current.kind == kind then Advance(tokens, s)
    else ErrorAtCurrent(s, message)
  }

  /**
   * consume advances exactly when `current` has the expected type;
   * otherwise it reports the message at `current` (outside panic mode) and
   * moves neither `current` nor `previous`.
   */
  lemma ConsumeResult(tokens: seq<Token>, s: State, kind: TokenKind, message: string)
    requires ValidStream(tokens) && s.next < |tokens|
    ensures var r := Consume(tokens, s, kind, message);
      && Step(tokens, s, r)
      && (s.parser.current.kind == kind ==> r == Advance(tokens, s))
      && (s.parser.current.kind != kind ==>
            r.parser.current == s.parser.current && r.parser.previous == s.parser.previous
            && r.next == s.next && r.code == s.code && r.parser.panicMode
            && (!s.parser.panicMode ==>
                  r.parser.hadError && r.diagnostics == s.diagnostics + [Report(s.parser.current, message)]))
  {
    AdvanceResult(tokens, s);
    ErrorAtReports(s, s.parser.current, message);
  }

  /** emitByte: append a byte to the chunk. */
  function EmitByte(s: State, b: byte): State
  {
    s.(code := s.code + [b], lines := s.lines + [s.parser.previous.line])
  }

  /**
   * emitByte appends exactly one byte, tagged with the line of the previous
   * token, and changes nothing else; an opcode without operands keeps the
   * code a stream of complete instructions.
   */
  lemma EmitByteResult(s: State, b: byte)
    ensures var r := EmitByte(s, b);
      && r.code == s.code + [b] && r.lines == s.lines + [s.parser.previous.line]
      && r.parser == s.parser && r.next == s.next
      && r.constants == s.constants && r.diagnostics == s.diagnostics
      && (b != ToByte(OpConstant) && b != ToByte(OpConstantLong) ==> Grows(s, r))
  {
    SimpleAppend(s.code, b, |s.constants|);
  }

  /** Emitting an opcode without operands is a step. */
  lemma EmitOpStep(tokens: seq<Token>, s: State, op: OpCode)
    requires s.next < |tokens| && op != OpConstant && op != OpConstantLong
    ensures Step(tokens, s, EmitByte(s, ToByte(op)))
  {
    ToByteInjective(op, OpConstant);
    ToByteInjective(op, OpConstantLong);
    EmitByteResult(s, ToByte(op));
  }

  function EmitBytes(s: State, b1: byte, b2: byte): State
  {
    EmitByte(EmitByte(s, b1), b2)
  }

  function EmitReturn(s: State): State
  {
    EmitByte(s, ToByte(OpReturn))
  }

  /** addConstant on the chunk: append to the pool and return the new last index. */
  function AddConstant(s: State, value: V.Value): (r: (State, nat))
    ensures r.0.constants == s.constants + [value] && r.1 == |r.0.constants| - 1
  {
    (s.(constants := s.constants + [value]), |s.constants|)
  }

  /** makeConstant: add a constant and return its index as a `uint8_t`. */
  function MakeConstant(s: State, value: V.Value): (State, byte)
  {
    var (s1, index) := AddConstant(s, value);
    if index <= 255 then (s1, index as byte)
    else if index > 0xFF_FFFF then (ErrorAtPrevious(s1, "Too many constants in one chunk."), 0)
    else (s1, Low8(index))
  }

  /**
   * makeConstant always adds the value.  Up to 255 it returns the index;
   * beyond 0xFFFFFF it reports "Too many constants in one chunk." and
   * returns 0; in between the `uint8_t` result keeps only the index's low
   * byte, and no error is reported.
   */
  lemma MakeConstantResult(s: State, value: V.Value)
    ensures var (r, index) := MakeConstant(s, value);
      && r.constants == s.constants + [value] && r.code == s.code && r.lines == s.lines
      && (|s.constants| <= 255 ==> index as nat == |s.constants| && r.diagnostics == s.diagnostics)
      && (255 < |s.constants| <= 0xFF_FFFF ==>
            index as nat == |s.constants| % 256 && r.diagnostics == s.diagnostics)
      && (|s.constants| > 0xFF_FFFF ==>
            index == 0 && r.parser.panicMode
            && (!s.parser.panicMode ==>
                  r.parser.hadError
                  && r.diagnostics == s.diagnostics + [Report(s.parser.previous, "Too many constants in one chunk.")]))
  {
  }

  /**
   * The bytes emitConstant writes for pool index `index`: the two-byte form
   * up to 255, otherwise OP_CONSTANT_LONG and the index's three low bytes,
   * most significant first.
   */
  function EmittedConstant(index: nat): seq<byte>
  {
    if index <= 255 then [ToByte(OpConstant), index as byte]
    else [ToByte(OpConstantLong), Low8(index / 0x1_0000), Low8(index / 0x100), Low8(index)]
  }

  /** The line of each byte of EmittedConstant(index), all on one line. */
  function ConstantLines(index: nat, line: int): seq<int>
  {
    if index <= 255 then [line, line] else [line, line, line, line]
  }

  /** The short form carries the index itself, the long form its value modulo 2^24, most significant byte first. */
  lemma EmittedConstantForm(index: nat)
    ensures var bytes := EmittedConstant(index);
      && |ConstantLines(index, 0)| == |bytes|
      && (index <= 255 ==> bytes == [ToByte(OpConstant), index as byte])
      && (index > 255 ==> |bytes| == 4 && bytes[0] == ToByte(OpConstantLong)
                          && BigEndian24(bytes[1], bytes[2], bytes[3]) == index % 0x100_0000)
  {
    if index > 255 {
      LongOperandBytes(index);
    }
  }

  /** Shifting and masking three bytes out and back in leaves the index modulo 2^24. */
  lemma LongOperandBytes(index: nat)
    ensures BigEndian24(Low8(index / 0x1_0000), Low8(index / 0x100), Low8(index)) == index % 0x100_0000
  {
    var q := index / 0x100;
    var q2 := q / 0x100;
    assert index == q * 0x100 + index % 0x100;
    assert q == q2 * 0x100 + q % 0x100;
    assert index / 0x1_0000 == q2;
    assert index == q2 * 0x1_0000 + (q % 0x100) * 0x100 + index % 0x100;
    assert q2 % 0x100 * 0x1_0000 + (q % 0x100) * 0x100 + index % 0x100 == index % 0x100_0000 by {
      assert q2 == (q2 / 0x100) * 0x100 + q2 % 0x100;
      assert index == (q2 / 0x100) * 0x100_0000 + (q2 % 0x100 * 0x1_0000 + (q % 0x100) * 0x100 + index % 0x100);
    }
  }

  /** A constant instruction whose index is the last pool entry is a complete instruction. */
  lemma ConstantAppend(code: seq<byte>, n: nat)
    ensures Instructions(code, n) ==> Instructions(code + EmittedConstant(n), n + 1)
  {
    if Instructions(code, n) {
      InstructionsMonotonic(code, n, n + 1);
      ConstantInstruction(n);
      InstructionsAppend(code, EmittedConstant(n), n + 1);
    }
  }

  /** The constant instruction for pool index n, alone, is an instruction stream over n + 1 entries. */
  lemma ConstantInstruction(n: nat)
    ensures Instructions(EmittedConstant(n), n + 1)
  {
    var e := EmittedConstant(n);
    EmittedConstantForm(n);
    assert OperandOk(e, n + 1);
    if n <= 255 {
      assert e[2..] == [];
    } else {
      assert e[4..] == [];
    }
  }

  /** emitConstant: add the value to the pool and emit the short or the long form. */
  function EmitConstant(s: State, value: V.Value): State
  {
    var (s1, index) := AddConstant(s, value);
    if index <= 255 then EmitBytes(s1, ToByte(OpConstant), index as byte)
    else
      EmitByte(EmitByte(EmitByte(EmitByte(s1, ToByte(OpConstantLong)),
        Low8(index / 0x1_0000)), Low8(index / 0x100)), Low8(index))
  }

  /**
   * emitConstant appends the value to the pool and the encoding of its
   * index to the code (with no check against 0xFFFFFF, unlike
   * makeConstant), every byte on the line of the previous token.
   */
  lemma EmitConstantResult(s: State, value: V.Value)
    ensures var r := EmitConstant(s, value);
      && r.constants == s.constants + [value]
      && r.code == s.code + EmittedConstant(|s.constants|)
      && r.lines == s.lines + ConstantLines(|s.constants|, s.parser.previous.line)
      && r.parser == s.parser && r.next == s.next && r.diagnostics == s.diagnostics
      && Grows(s, r)
  {
    var index := |s.constants|;
    ConstantAppend(s.code, index);
  }

  /** literal: `false`, `null` and `true` each emit their one opcode. */
  function Literal(s: State): State
  {
    var kind := s.parser.previous.kind;
    if kind == False then EmitByte(s, ToByte(OpFalse))
    else if kind == Null then EmitByte(s, ToByte(OpNull))
    else if kind == True then EmitByte(s, ToByte(OpTrue))
    else s
  }

  /** `false`, `null` and `true` each emit exactly their one opcode, on the literal's line. */
  lemma LiteralResult(s: State)
    ensures var r := Literal(s);
      && r.parser == s.parser && r.next == s.next && r.diagnostics == s.diagnostics
      && r.constants == s.constants && Grows(s, r)
      && (s.parser.previous.kind == False ==> r.code == s.code + [ToByte(OpFalse)])
      && (s.parser.previous.kind == Null ==> r.code == s.code + [ToByte(OpNull)])
      && (s.parser.previous.kind == True ==> r.code == s.code + [ToByte(OpTrue)])
      && (s.parser.previous.kind in {False, Null, True} ==> r.lines == s.lines + [s.parser.previous.line])
      && (s.parser.previous.kind !in {False, Null, True} ==> r == s)
  {
    EmitByteResult(s, ToByte(OpFalse));
    EmitByteResult(s, ToByte(OpNull));
    EmitByteResult(s, ToByte(OpTrue));
  }

  /** number: the literal becomes a constant (its text stands for the double strtod would read). */
  function Number(s: State): State
  {
    EmitConstant(s, V.NumberVal(V.Number(s.parser.previous.lexeme)))
  }

  /** The opcode binary emits for an operator token. */
  function BinaryOpcode(kind: TokenKind): (op: OpCode)
    requires IsBinaryOperator(kind)
    ensures op in {OpAdd, OpSubtract, OpMultiply, OpDivide}
  {
    match kind
    case Plus => OpAdd
    case Minus => OpSubtract
    case Asterisk => OpMultiply
    case Slash => OpDivide
  }

  /** binary: compile the right operand one level above the operator's own, then the operator. */
  function Binary(tokens: seq<Token>, s: State): (r: State)
    requires ValidStream(tokens) && s.next < |tokens|
    ensures r.next < |tokens| && Pending(tokens, r) <= Pending(tokens, s)
    decreases Pending(tokens, s) + 1, 0
  {
    EmitOperator(ParsePrecedence(tokens, s, OperandPrecedence(s.parser.previous.kind)), s.parser.previous.kind)
  }

  /** The precedence binary parses its right operand at, one level above the operator's. */
  function OperandPrecedence(kind: TokenKind): (p: nat)
    ensures p >= PrecAssignment
  {
    GetRule(kind).precedence + 1
  }

  /** The switch that ends binary: one arithmetic opcode per operator token, nothing for any other. */
  function EmitOperator(s: State, operatorType: TokenKind): State
  {
    if IsBinaryOperator(operatorType) then EmitByte(s, ToByte(BinaryOpcode(operatorType))) else s
  }

  /** unary: compile the operand at PREC_UNARY, then negate it. */
  function Unary(tokens: seq<Token>, s: State): (r: State)
    requires ValidStream(tokens) && s.next < |tokens|
    ensures r.next < |tokens| && Pending(tokens, r) <= Pending(tokens, s)
    decreases Pending(tokens, s) + 1, 0
  {
    var operatorType := s.parser.previous.kind;
    var s1 := ParsePrecedence(tokens, s, PrecUnary);
    EmitNegation(s1, operatorType)
  }

  /** The switch that ends unary: OP_NEGATE for `-`, nothing for any other token. */
  function EmitNegation(s: State, operatorType: TokenKind): State
  {
    if operatorType == Minus then EmitByte(s, ToByte(OpNegate)) else s
  }

  /** grouping: an expression, then the closing parenthesis. */
  function Grouping(tokens: seq<Token>, s: State): (r: State)
    requires ValidStream(tokens) && s.next < |tokens|
    ensures r.next < |tokens| && Pending(tokens, r) <= Pending(tokens, s)
    decreases Pending(tokens, s) + 1, 0
  {
    var s1 := Expression(tokens, s);
    Consume(tokens, s1, RightParen, "Expect ')' after expression.")
  }

  /** The call `prefixRule()`: run the prefix handler of the token just consumed. */
  function Prefix(tokens: seq<Token>, s: State, prefix: PrefixFn): (r: State)
    requires ValidStream(tokens) && s.next < |tokens| && prefix != NoPrefix
    ensures r.next < |tokens| && Pending(tokens, r) <= Pending(tokens, s)
    decreases Pending(tokens, s) + 1, 1
  {
    match prefix
    case GroupingFn => Grouping(tokens, s)
    case UnaryFn => Unary(tokens, s)
    case NumberFn => Number(s)
    case LiteralFn => Literal(s)
  }

  /**
   * parsePrecedence: consume a token and run its prefix handler (reporting
   * "Expect expression." when it has none), then the infix loop.
   */
  function ParsePrecedence(tokens: seq<Token>, s: State, precedence: nat): (r: State)
    requires ValidStream(tokens) && s.next < |tokens| && precedence >= PrecAssignment
    ensures r.next < |tokens| && Pending(tokens, r) <= Pending(tokens, s)
    decreases Pending(tokens, s), 3
  {
    var s1 := Advance(tokens, s);
    var prefixRule := GetRule(s1.parser.previous.kind).prefix;
    if prefixRule == NoPrefix then ErrorAtPrevious(s1, "Expect expression.")
    else
      // EOF has no prefix rule, so a prefix handler runs only after real progress.
      AdvanceProgress(tokens, s, s1);
      InfixLoop(tokens, Prefix(tokens, s1, prefixRule), precedence)
  }

  /**
   * The `while` loop of parsePrecedence: as long as the current token's
   * precedence is at least `precedence`, consume it and run its infix
   * handler, which is always `binary`.
   */
  function InfixLoop(tokens: seq<Token>, s: State, precedence: nat): (r: State)
    requires ValidStream(tokens) && s.next < |tokens| && precedence >= PrecAssignment
    ensures r.next < |tokens| && Pending(tokens, r) <= Pending(tokens, s)
    ensures GetRule(r.parser.current.kind).precedence < precedence
    decreases Pending(tokens, s), 2
  {
    if precedence <= GetRule(s.parser.current.kind).precedence then
      // Only a binary operator has a precedence this high, so the token consumed is not EOF.
      InfixRuleExists(s.parser.current.kind);
      var s1 := Advance(tokens, s);
      InfixLoop(tokens, Binary(tokens, s1), precedence)
    else s
  }

  /** parsePrecedence in one step, for callers whose context is too large to unfold it cheaply. */
  lemma ParsePrecedenceDefinition(tokens: seq<Token>, s: State, precedence: nat, s1: State)
    requires ValidStream(tokens) && s.next < |tokens| && precedence >= PrecAssignment
    requires s1 == Advance(tokens, s)
    ensures ParsePrecedence(tokens, s, precedence) ==
      if GetRule(s1.parser.previous.kind).prefix == NoPrefix then ErrorAtPrevious(s1, "Expect expression.")
      else InfixLoop(tokens, Prefix(tokens, s1, GetRule(s1.parser.previous.kind).prefix), precedence)
  {
  }

  /** parsePrecedence once the prefix rule of the consumed token is known. */
  lemma ParsePrecedenceWithRule(tokens: seq<Token>, s: State, precedence: nat, s1: State, rule: PrefixFn)
    requires ValidStream(tokens) && s.next < |tokens| && precedence >= PrecAssignment
    requires s1 == Advance(tokens, s) && rule == GetRule(s1.parser.previous.kind).prefix
    ensures rule == NoPrefix ==> ParsePrecedence(tokens, s, precedence) == ErrorAtPrevious(s1, "Expect expression.")
    ensures rule != NoPrefix ==> ParsePrecedence(tokens, s, precedence) == InfixLoop(tokens, Prefix(tokens, s1, rule), precedence)
  {
    ParsePrecedenceDefinition(tokens, s, precedence, s1);
  }

  /** A token with a prefix rule is not EOF, so consuming it shrinks the parser's remaining work. */
  lemma AdvanceProgress(tokens: seq<Token>, s: State, s1: State)
    requires ValidStream(tokens) && s.next < |tokens|
    requires s1 == Advance(tokens, s) && GetRule(s1.parser.previous.kind).prefix != NoPrefix
    ensures Pending(tokens, s1) < Pending(tokens, s)
  {
    PrefixRules(s1.parser.previous.kind);
  }

  /** An operator that passes the infix loop's test is not EOF, so consuming it shrinks the remaining work. */
  lemma InfixProgress(tokens: seq<Token>, s: State, precedence: nat)
    requires ValidStream(tokens) && s.next < |tokens| && precedence >= PrecAssignment
    requires precedence <= GetRule(s.parser.current.kind).precedence
    ensures Pending(tokens, Advance(tokens, s)) < Pending(tokens, s)
  {
    InfixRuleExists(s.parser.current.kind);
  }

  /** One turn of the infix loop, or its exit. */
  lemma InfixLoopDefinition(tokens: seq<Token>, s: State, precedence: nat)
    requires ValidStream(tokens) && s.next < |tokens| && precedence >= PrecAssignment
    ensures InfixLoop(tokens, s, precedence) ==
      if precedence <= GetRule(s.parser.current.kind).precedence
      then InfixLoop(tokens, Binary(tokens, Advance(tokens, s)), precedence) else s
  {
  }

  /** expression: parse at the lowest precedence that admits an operator. */
  function Expression(tokens: seq<Token>, s: State): (r: State)
    requires ValidStream(tokens) && s.next < |tokens|
    ensures r.next < |tokens| && Pending(tokens, r) <= Pending(tokens, s)
    decreases Pending(tokens, s), 4
  {
    ParsePrecedence(tokens, s, PrecAssignment)
  }

  /** Two steps in a row are a step. */
  lemma StepTrans(tokens: seq<Token>, s: State, m: State, r: State)
    requires Step(tokens, s, m) && Step(tokens, m, r)
    ensures Step(tokens, s, r)
  {
  }

  /*
   * Every parsing function only appends to the chunk, keeps it a stream of
   * complete instructions, and reports at most one error, entering panic
   * mode when it does.  The lemmas follow the recursion of the functions.
   */

  lemma {:induction false} BinarySteps(tokens: seq<Token>, s: State)
    requires ValidStream(tokens) && s.next < |tokens|
    ensures Step(tokens, s, Binary(tokens, s))
    decreases Pending(tokens, s) + 1, 0
  {
    var operatorType := s.parser.previous.kind;
    var s1 := ParsePrecedence(tokens, s, OperandPrecedence(operatorType));
    ParsePrecedenceSteps(tokens, s, OperandPrecedence(operatorType));
    if IsBinaryOperator(operatorType) {
      var op := BinaryOpcode(operatorType);
      EmitOpStep(tokens, s1, op);
      StepTrans(tokens, s, s1, EmitByte(s1, ToByte(op)));
    }
  }

  lemma {:induction false} UnarySteps(tokens: seq<Token>, s: State)
    requires ValidStream(tokens) && s.next < |tokens|
    ensures Step(tokens, s, Unary(tokens, s))
    decreases Pending(tokens, s) + 1, 0
  {
    var s1 := ParsePrecedence(tokens, s, PrecUnary);
    ParsePrecedenceSteps(tokens, s, PrecUnary);
    if s.parser.previous.kind == Minus {
      EmitOpStep(tokens, s1, OpNegate);
      StepTrans(tokens, s, s1, EmitByte(s1, ToByte(OpNegate)));
    }
  }

  lemma {:induction false} GroupingSteps(tokens: seq<Token>, s: State)
    requires ValidStream(tokens) && s.next < |tokens|
    ensures Step(tokens, s, Grouping(tokens, s))
    decreases Pending(tokens, s) + 1, 0
  {
    var s1 := Expression(tokens, s);
    ExpressionSteps(tokens, s);
    ConsumeResult(tokens, s1, RightParen, "Expect ')' after expression.");
    StepTrans(tokens, s, s1, Grouping(tokens, s));
  }

  lemma {:induction false} PrefixSteps(tokens: seq<Token>, s: State, prefix: PrefixFn)
    requires ValidStream(tokens) && s.next < |tokens| && prefix != NoPrefix
    ensures Step(tokens, s, Prefix(tokens, s, prefix))
    decreases Pending(tokens, s) + 1, 1
  {
    match prefix
    case GroupingFn => GroupingSteps(tokens, s);
    case UnaryFn => UnarySteps(tokens, s);
    case NumberFn => EmitConstantResult(s, V.NumberVal(V.Number(s.parser.previous.lexeme)));
    case LiteralFn => LiteralResult(s);
  }

  lemma {:induction false} ParsePrecedenceSteps(tokens: seq<Token>, s: State, precedence: nat)
    requires ValidStream(tokens) && s.next < |tokens| && precedence >= PrecAssignment
    ensures Step(tokens, s, ParsePrecedence(tokens, s, precedence))
    decreases Pending(tokens, s), 3
  {
    var s1 := Advance(tokens, s);
    AdvanceResult(tokens, s);
    var prefixRule := GetRule(s1.parser.previous.kind).prefix;
    if prefixRule == NoPrefix {
      ErrorAtReports(s1, s1.parser.previous, "Expect expression.");
      StepTrans(tokens, s, s1, ParsePrecedence(tokens, s, precedence));
    } else {
      AdvanceProgress(tokens, s, s1);
      var s2 := Prefix(tokens, s1, prefixRule);
      PrefixSteps(tokens, s1, prefixRule);
      InfixLoopSteps(tokens, s2, precedence);
      StepTrans(tokens, s, s1, s2);
      StepTrans(tokens, s, s2, ParsePrecedence(tokens, s, precedence));
    }
  }

  lemma {:induction false} InfixLoopSteps(tokens: seq<Token>, s: State, precedence: nat)
    requires ValidStream(tokens) && s.next < |tokens| && precedence >= PrecAssignment
    ensures Step(tokens, s, InfixLoop(tokens, s, precedence))
    decreases Pending(tokens, s), 2
  {
    if precedence <= GetRule(s.parser.current.kind).precedence {
      InfixRuleExists(s.parser.current.kind);
      var s1 := Advance(tokens, s);
      AdvanceResult(tokens, s);
      var s2 := Binary(tokens, s1);
      BinarySteps(tokens, s1);
      InfixLoopSteps(tokens, s2, precedence);
      StepTrans(tokens, s, s1, s2);
      StepTrans(tokens, s, s2, InfixLoop(tokens, s, precedence));
    }
  }

  lemma {:induction false} ExpressionSteps(tokens: seq<Token>, s: State)
    requires ValidStream(tokens) && s.next < |tokens|
    ensures Step(tokens, s, Expression(tokens, s))
    decreases Pending(tokens, s), 4
  {
    ParsePrecedenceSteps(tokens, s, PrecAssignment);
  }

  function EndCompiler(s: State): State
  {
    EmitReturn(s)
  }

  /**
   * compile: clear both error flags, restart the scanner, prime the parser,
   * parse one expression, expect EOF and end the chunk.  `s` holds the
   * parser left by an earlier call and what the chunk already contains.
   */
  function Compile(tokens: seq<Token>, s: State): State
    requires ValidStream(tokens)
  {
    EndCompiler(BeforeReturn(tokens, s.(parser := s.parser.(hadError := false, panicMode := false), next := 0)))
  }

  /** The result compile returns. */
  function Succeeded(r: State): bool
  {
    !r.parser.hadError
  }

  /**
   * What compile promises whatever the tokens: the chunk only grows and
   * always ends with OP_RETURN, complete instructions stay complete, and
   * compile fails exactly when it has reported one error (never more).
   */
  lemma CompileOutcome(tokens: seq<Token>, s: State)
    requires ValidStream(tokens)
    ensures var r := Compile(tokens, s);
      && s.code < r.code && r.code[|r.code| - 1] == ToByte(OpReturn)
      && s.lines <= r.lines && |r.lines| - |s.lines| == |r.code| - |s.code|
      && s.constants <= r.constants
      && (Instructions(s.code, |s.constants|) ==> Instructions(r.code, |r.constants|))
      && s.diagnostics <= r.diagnostics && |r.diagnostics| <= |s.diagnostics| + 1
      && (!Succeeded(r) <==> |r.diagnostics| == |s.diagnostics| + 1)
  {
    var s0 := s.(parser := s.parser.(hadError := false, panicMode := false), next := 0);
    var s3 := BeforeReturn(tokens, s0);
    BeforeReturnStep(tokens, s0);
    var r := EmitByte(s3, ToByte(OpReturn));
    assert Compile(tokens, s) == r;
    EmitByteResult(s3, ToByte(OpReturn));
    GrowsTrans(s0, s3, r);
    assert s0.code == s.code && s0.lines == s.lines && s0.constants == s.constants && s0.diagnostics == s.diagnostics;
  }

  lemma GrowsTrans(s: State, m: State, r: State)
    requires Grows(s, m) && Grows(m, r)
    ensures Grows(s, r)
  {
  }

  /** compile up to the final emitReturn: advance, expression, consume(TOKEN_EOF, …). */
  function BeforeReturn(tokens: seq<Token>, s0: State): State
    requires ValidStream(tokens) && s0.next == 0
  {
    Consume(tokens, Expression(tokens, Advance(tokens, s0)), Eof, "Expect end of expression.")
  }

  lemma BeforeReturnStep(tokens: seq<Token>, s0: State)
    requires ValidStream(tokens) && s0.next == 0
    ensures Step(tokens, s0, BeforeReturn(tokens, s0))
  {
    var s1 := Advance(tokens, s0);
    AdvanceResult(tokens, s0);
    var s2 := Expression(tokens, s1);
    ExpressionSteps(tokens, s1);
    var s3 := Consume(tokens, s2, Eof, "Expect end of expression.");
    ConsumeResult(tokens, s2, Eof, "Expect end of expression.");
    StepTrans(tokens, s0, s1, s2);
    StepTrans(tokens, s0, s2, s3);
  }
}
