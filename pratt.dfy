/**
 * What src/compiler.c computes on well-formed input.  An expression tree
 * records the tokens it is written with; a tree is well-precedenced when
 * writing it out needs no extra parentheses, which makes the written form
 * the one a precedence-climbing parser reads back.  The theorem: compiling
 * the tokens of such an expression emits its postfix code, with one pool
 * entry per number, every byte tagged with the line of the token just
 * consumed, and no error.
 */
module Pratt {
  import opened Wrappers
  import opened Tokens
  import opened Opcodes
  import opened CompilerSpec
  import V = Values

  datatype Expr =
    | Num(number: Token)
    | Lit(literal: Token)
    | Neg(minus: Token, operand: Expr)
    | Group(open: Token, inner: Expr, close: Token)
    | Bin(op: Token, left: Expr, right: Expr)

  /** The precedence an expression binds with: its operator's, or above every operator. */
  function Prec(e: Expr): nat
  {
    match e
    case Bin(op, _, _) => GetRule(op.kind).precedence
    case Neg(_, _) => PrecUnary
    case _ => PrecPrimary
  }

  /**
   * Right token kinds everywhere; a binary node's left operand binds at
   * least as tightly as the node and its right operand strictly more
   * tightly (left associativity); a negated operand binds at least at
   * PREC_UNARY.
   */
  predicate WellPrec(e: Expr)
  {
    match e
    case Num(t) => t.kind == NumberLiteral
    case Lit(t) => t.kind in {False, Null, True}
    case Neg(m, x) => m.kind == Minus && Prec(x) >= PrecUnary && WellPrec(x)
    case Group(o, x, c) => o.kind == LeftParen && c.kind == RightParen && WellPrec(x)
    case Bin(op, l, r) =>
      && IsBinaryOperator(op.kind)
      && Prec(l) >= Prec(e) && Prec(r) > Prec(e)
      && WellPrec(l) && WellPrec(r)
  }

  /** The tokens the expression is written with, in source order. */
  function ExprTokens(e: Expr): (ts: seq<Token>)
    ensures |ts| >= 1
  {
    match e
    case Num(t) => [t]
    case Lit(t) => [t]
    case Neg(m, x) => [m] + ExprTokens(x)
    case Group(o, x, c) => [o] + ExprTokens(x) + [c]
    case Bin(op, l, r) => ExprTokens(l) + [op] + ExprTokens(r)
  }

  /** The last token of the expression. */
  function LastToken(e: Expr): Token
  {
    match e
    case Num(t) => t
    case Lit(t) => t
    case Neg(_, x) => LastToken(x)
    case Group(_, _, c) => c
    case Bin(_, _, r) => LastToken(r)
  }

  /** The number literals, left to right: what compiling adds to the constant pool. */
  function Pool(e: Expr): seq<V.Value>
  {
    match e
    case Num(t) => [V.NumberVal(V.Number(t.lexeme))]
    case Lit(_) => []
    case Neg(_, x) => Pool(x)
    case Group(_, x, _) => Pool(x)
    case Bin(_, l, r) => Pool(l) + Pool(r)
  }

  /** The opcode of a literal token. */
  function LiteralOp(kind: TokenKind): OpCode
  {
    if kind == False then OpFalse else if kind == Null then OpNull else OpTrue
  }

  /** The opcode byte a binary operator token emits; none for any other token, as in binary(). */
  function OperatorCode(kind: TokenKind): seq<byte>
  {
    if IsBinaryOperator(kind) then [ToByte(BinaryOpcode(kind))] else []
  }

  /**
   * Postfix code: operands before their operator.  The i-th number takes
   * pool index `n + i`.
   */
  function Postfix(e: Expr, n: nat): seq<byte>
  {
    match e
    case Num(_) => EmittedConstant(n)
    case Lit(t) => [ToByte(LiteralOp(t.kind))]
    case Neg(_, x) => Postfix(x, n) + [ToByte(OpNegate)]
    case Group(_, x, _) => Postfix(x, n)
    case Bin(op, l, r) => Postfix(l, n) + Postfix(r, n + |Pool(l)|) + OperatorCode(op.kind)
  }

  /**
   * The line of every byte of Postfix(e, n): a constant is on the line of its
   * number, an operator on the line of the last token of its (right) operand.
   */
  function PostfixLines(e: Expr, n: nat): seq<int>
  {
    match e
    case Num(t) => ConstantLines(n, t.line)
    case Lit(t) => [t.line]
    case Neg(_, x) => PostfixLines(x, n) + [LastToken(x).line]
    case Group(_, x, _) => PostfixLines(x, n)
    case Bin(op, l, r) =>
      PostfixLines(l, n) + PostfixLines(r, n + |Pool(l)|) + (if IsBinaryOperator(op.kind) then [LastToken(r).line] else [])
  }

  /** The parser is at position k: `current` is tokens[k] and the scanner is just past it. */
  predicate At(tokens: seq<Token>, s: State, k: nat)
  {
    k < |tokens| && s.parser.current == tokens[k] && s.next == After(tokens, k)
  }

  /** The expression occupies tokens[k..] up to the rest `rest`, whose first token is no error token. */
  predicate Occupies(tokens: seq<Token>, k: nat, e: Expr, rest: seq<Token>)
  {
    k <= |tokens| && tokens[k..] == ExprTokens(e) + rest && rest != [] && rest[0].kind != Error
  }

  /**
   * The state after compiling e from position k: positioned on the token
   * following e, with e's last token as `previous`, the postfix code, its
   * lines and its numbers appended, and the error state untouched.
   */
  function Compiled(tokens: seq<Token>, s: State, k: nat, e: Expr): State
    requires k + |ExprTokens(e)| < |tokens|
  {
    var j := k + |ExprTokens(e)|;
    s.(parser := s.parser.(current := tokens[j], previous := LastToken(e)),
       next := After(tokens, j),
       code := s.code + Postfix(e, |s.constants|),
       lines := s.lines + PostfixLines(e, |s.constants|),
       constants := s.constants + Pool(e))
  }

  /** The state after an expression is positioned on the token that follows it. */
  lemma CompiledAt(tokens: seq<Token>, s: State, k: nat, e: Expr, j: nat)
    requires j == k + |ExprTokens(e)| < |tokens|
    ensures At(tokens, Compiled(tokens, s, k, e), j) && Compiled(tokens, s, k, e).parser.previous == LastToken(e)
  {
  }

  /** Dropping a known prefix of a suffix. */
  lemma DropPrefix(tokens: seq<Token>, k: nat, a: seq<Token>, b: seq<Token>)
    requires k <= |tokens| && tokens[k..] == a + b
    ensures k + |a| <= |tokens| && tokens[k + |a|..] == b
  {
    assert tokens[k + |a|..] == tokens[k..][|a|..];
  }

  /** A suffix that starts with a token: that token, then the rest. */
  lemma ConsSuffix(tokens: seq<Token>, k: nat, o: Token, tail: seq<Token>)
    requires k <= |tokens| && tokens[k..] == [o] + tail
    ensures k < |tokens| && tokens[k] == o && tokens[k + 1..] == tail
  {
    assert tokens[k] == tokens[k..][0];
    DropPrefix(tokens, k, [o], tail);
  }

  /** The first token of a non-empty suffix. */
  lemma SuffixHead(tokens: seq<Token>, k: nat, a: seq<Token>, b: seq<Token>)
    requires k <= |tokens| && tokens[k..] == a + b && a != []
    ensures k < |tokens| && tokens[k] == a[0]
  {
    assert tokens[k] == tokens[k..][0];
  }

  /** Advancing over the token at k, which is followed by a token other than an error token at k1 = k + 1. */
  lemma AdvanceAt(tokens: seq<Token>, s: State, k: nat, k1: nat)
    requires ValidStream(tokens) && At(tokens, s, k) && k1 == k + 1 && k1 < |tokens| && tokens[k1].kind != Error
    ensures var r := Advance(tokens, s);
      At(tokens, r, k1) && r.parser.previous == tokens[k] && SameOutput(s, r)
  {
    AdvanceResult(tokens, s);
  }

  /** A well-precedenced expression starts with a token that has a prefix rule. */
  lemma FirstToken(e: Expr)
    requires WellPrec(e)
    ensures GetRule(ExprTokens(e)[0].kind).prefix != NoPrefix && ExprTokens(e)[0].kind != Error
  {
    match e {
      case Num(_) =>
      case Lit(_) =>
      case Neg(_, _) =>
      case Group(_, _, _) =>
      case Bin(_, l, _) =>
        FirstToken(l);
        assert ExprTokens(e)[0] == ExprTokens(l)[0];
    }
  }

  /**
   * A well-precedenced expression holds no EOF token: every token kind in it
   * is fixed by WellPrec.
   */
  lemma {:induction false} NoEof(e: Expr)
    requires WellPrec(e)
    ensures forall t :: t in ExprTokens(e) ==> t.kind != Eof
  {
    match e {
      case Num(_) =>
      case Lit(_) =>
      case Neg(_, x) => NoEof(x);
      case Group(_, x, _) => NoEof(x);
      case Bin(_, l, r) => NoEof(l); NoEof(r);
    }
  }

  /** No token's precedence reaches PREC_UNARY. */
  lemma BelowUnary(kind: TokenKind)
    ensures GetRule(kind).precedence < PrecUnary
  {
    OperatorPrecedences(kind);
  }

  /** Every well-precedenced expression binds at least at PREC_ASSIGNMENT. */
  lemma PrecPositive(e: Expr)
    requires WellPrec(e)
    ensures Prec(e) >= PrecAssignment
  {
    if e.Bin? {
      InfixRuleExists(e.op.kind);
    }
  }

  /** parsePrecedence when the first token has a prefix rule: the handler, then the infix loop. */
  lemma ParsePrecedenceUnfold(tokens: seq<Token>, s: State, p: nat, s1: State, rule: PrefixFn, x: State)
    requires ValidStream(tokens) && s.next < |tokens| && p >= PrecAssignment
    requires s1 == Advance(tokens, s) && rule == GetRule(s1.parser.previous.kind).prefix && rule != NoPrefix
    requires Prefix(tokens, s1, rule) == x
    ensures ParsePrecedence(tokens, s, p) == InfixLoop(tokens, x, p)
  {
  }

  /** One turn of the infix loop: consume the operator and run binary. */
  lemma InfixLoopUnfold(tokens: seq<Token>, s: State, p: nat)
    requires ValidStream(tokens) && s.next < |tokens| && p >= PrecAssignment
    requires p <= GetRule(s.parser.current.kind).precedence
    ensures InfixLoop(tokens, s, p) == InfixLoop(tokens, Binary(tokens, Advance(tokens, s)), p)
  {
  }

  /** binary after a binary operator: the right operand, then the operator's opcode. */
  lemma BinaryUnfold(tokens: seq<Token>, s: State, op: Token, p: nat)
    requires ValidStream(tokens) && s.next < |tokens| && s.parser.previous == op && IsBinaryOperator(op.kind)
    requires p == OperandPrecedence(op.kind)
    ensures Binary(tokens, s) == EmitByte(ParsePrecedence(tokens, s, p), ToByte(BinaryOpcode(op.kind)))
  {
  }

  /**
   * Parsing a well-precedenced expression at a precedence it satisfies runs
   * through the whole expression and hands the state after it to the infix
   * loop, provided the token after it does not bind more tightly than it.
   */
  lemma {:induction false} ParseThenLoop(tokens: seq<Token>, s: State, k: nat, e: Expr, rest: seq<Token>, p: nat)
    requires ValidStream(tokens) && At(tokens, s, k) && Occupies(tokens, k, e, rest)
    requires WellPrec(e) && PrecAssignment <= p <= Prec(e)
    requires GetRule(rest[0].kind).precedence <= Prec(e)
    ensures k + |ExprTokens(e)| < |tokens|
    ensures ParsePrecedence(tokens, s, p) == InfixLoop(tokens, Compiled(tokens, s, k, e), p)
    decreases e, 3
  {
    if e.Bin? {
      BinThenLoop(tokens, s, k, e, rest, p);
    } else {
      PrefixThenLoop(tokens, s, k, e, rest, p);
    }
  }

  /** A binary node: its left operand is parsed first, the infix loop then takes the operator. */
  lemma {:induction false} BinThenLoop(tokens: seq<Token>, s: State, k: nat, e: Expr, rest: seq<Token>, p: nat)
    requires ValidStream(tokens) && At(tokens, s, k) && Occupies(tokens, k, e, rest)
    requires WellPrec(e) && e.Bin? && PrecAssignment <= p <= Prec(e)
    requires GetRule(rest[0].kind).precedence <= Prec(e)
    ensures k + |ExprTokens(e)| < |tokens|
    ensures ParsePrecedence(tokens, s, p) == InfixLoop(tokens, Compiled(tokens, s, k, e), p)
    decreases e, 2
  {
    BinPositions(tokens, k, k + |ExprTokens(e.left)|, k + |ExprTokens(e.left)| + 1, e, rest);
    ParseThenLoop(tokens, s, k, e.left, [e.op] + ExprTokens(e.right) + rest, p);
    InfixStep(tokens, s, k, e, rest, p);
  }

  /** Any other node is compiled by the prefix handler before the infix loop. */
  lemma {:induction false} PrefixThenLoop(tokens: seq<Token>, s: State, k: nat, e: Expr, rest: seq<Token>, p: nat)
    requires ValidStream(tokens) && At(tokens, s, k) && Occupies(tokens, k, e, rest)
    requires WellPrec(e) && !e.Bin? && PrecAssignment <= p
    ensures k + |ExprTokens(e)| < |tokens|
    ensures ParsePrecedence(tokens, s, p) == InfixLoop(tokens, Compiled(tokens, s, k, e), p)
    decreases e, 2
  {
    PrefixCompiles(tokens, s, k, e, rest);
    var s1 := Advance(tokens, s);
    var rule := GetRule(tokens[k].kind).prefix;
    ParsePrecedenceUnfold(tokens, s, p, s1, rule, Compiled(tokens, s, k, e));
  }

  /**
   * An expression that is not a binary node is compiled entirely by the
   * prefix handler of its first token.
   */
  lemma {:induction false} PrefixCompiles(tokens: seq<Token>, s: State, k: nat, e: Expr, rest: seq<Token>)
    requires ValidStream(tokens) && At(tokens, s, k) && Occupies(tokens, k, e, rest)
    requires WellPrec(e) && !e.Bin?
    ensures k + |ExprTokens(e)| < |tokens|
    ensures Advance(tokens, s).parser.previous == tokens[k]
    ensures GetRule(tokens[k].kind).prefix != NoPrefix
    ensures Prefix(tokens, Advance(tokens, s), GetRule(tokens[k].kind).prefix) == Compiled(tokens, s, k, e)
    decreases e, 1
  {
    PrefixDispatch(tokens, Advance(tokens, s));
    match e {
      case Num(_) => NumCompiles(tokens, s, k, e, rest);
      case Lit(_) => LitCompiles(tokens, s, k, e, rest);
      case Neg(_, _) => NegCompiles(tokens, s, k, e, rest);
      case Group(_, _, _) => GroupCompiles(tokens, s, k, e, rest);
    }
  }

  /** The call `prefixRule()` for each of the four prefix handlers. */
  lemma PrefixDispatch(tokens: seq<Token>, s: State)
    requires ValidStream(tokens) && s.next < |tokens|
    ensures Prefix(tokens, s, NumberFn) == Number(s) && Prefix(tokens, s, LiteralFn) == Literal(s)
    ensures Prefix(tokens, s, UnaryFn) == Unary(tokens, s) && Prefix(tokens, s, GroupingFn) == Grouping(tokens, s)
  {
  }

  /** A one-token expression is followed directly by `rest`. */
  lemma SingleToken(tokens: seq<Token>, s: State, k: nat, e: Expr, rest: seq<Token>)
    requires ValidStream(tokens) && At(tokens, s, k) && Occupies(tokens, k, e, rest)
    requires e.Num? || e.Lit?
    ensures k + 1 < |tokens| && tokens[k] == ExprTokens(e)[0] && tokens[k + 1] == rest[0]
    ensures var s1 := Advance(tokens, s);
      At(tokens, s1, k + 1) && s1.parser.previous == tokens[k] && SameOutput(s, s1)
  {
    DropPrefix(tokens, k, ExprTokens(e), rest);
    assert tokens[k] == tokens[k..][0];
    AdvanceAt(tokens, s, k, k + 1);
  }

  /** number: the constant, added to the pool and emitted on the number's line. */
  lemma {:induction false} NumCompiles(tokens: seq<Token>, s: State, k: nat, e: Expr, rest: seq<Token>)
    requires ValidStream(tokens) && At(tokens, s, k) && Occupies(tokens, k, e, rest)
    requires WellPrec(e) && e.Num?
    ensures k + 1 < |tokens| && Advance(tokens, s).parser.previous == tokens[k]
    ensures GetRule(tokens[k].kind).prefix == NumberFn
    ensures Number(Advance(tokens, s)) == Compiled(tokens, s, k, e)
    decreases e, 0
  {
    SingleToken(tokens, s, k, e, rest);
    PrefixHandlers(tokens[k].kind);
    EmitConstantResult(Advance(tokens, s), V.NumberVal(V.Number(e.number.lexeme)));
  }

  /** literal: the literal's opcode on its line. */
  lemma {:induction false} LitCompiles(tokens: seq<Token>, s: State, k: nat, e: Expr, rest: seq<Token>)
    requires ValidStream(tokens) && At(tokens, s, k) && Occupies(tokens, k, e, rest)
    requires WellPrec(e) && e.Lit?
    ensures k + 1 < |tokens| && Advance(tokens, s).parser.previous == tokens[k]
    ensures GetRule(tokens[k].kind).prefix == LiteralFn
    ensures Literal(Advance(tokens, s)) == Compiled(tokens, s, k, e)
    decreases e, 0
  {
    SingleToken(tokens, s, k, e, rest);
    PrefixHandlers(tokens[k].kind);
    LiteralResult(Advance(tokens, s));
  }

  /** The two states agree on everything but the parser's position. */
  predicate SameOutput(s: State, r: State)
  {
    && r.code == s.code && r.lines == s.lines && r.constants == s.constants
    && r.diagnostics == s.diagnostics
    && r.parser.hadError == s.parser.hadError && r.parser.panicMode == s.parser.panicMode
  }

  /** The code of a negation: its operand's, then OP_NEGATE on the operand's last line. */
  lemma NegSequences(c: seq<byte>, ls: seq<int>, e: Expr, n: nat)
    requires e.Neg?
    ensures c + Postfix(e.operand, n) + [ToByte(OpNegate)] == c + Postfix(e, n)
    ensures ls + PostfixLines(e.operand, n) + [LastToken(e.operand).line] == ls + PostfixLines(e, n)
  {
    Assoc3(c, Postfix(e.operand, n), [ToByte(OpNegate)]);
    Assoc3(ls, PostfixLines(e.operand, n), [LastToken(e.operand).line]);
  }

  /** unary after a minus sign: the operand at PREC_UNARY, then OP_NEGATE. */
  lemma UnaryUnfold(tokens: seq<Token>, s: State, s2: State)
    requires ValidStream(tokens) && s.next < |tokens| && s.parser.previous.kind == Minus
    requires ParsePrecedence(tokens, s, PrecUnary) == s2
    ensures Unary(tokens, s) == EmitByte(s2, ToByte(OpNegate))
  {
  }

  /** The state after a negation. */
  lemma NegAlgebra(tokens: seq<Token>, s: State, s1: State, k: nat, k1: nat, e: Expr)
    requires e.Neg? && k + |ExprTokens(e)| < |tokens| && SameOutput(s, s1) && k1 == k + 1
    ensures EmitByte(Compiled(tokens, s1, k1, e.operand), ToByte(OpNegate)) == Compiled(tokens, s, k, e)
  {
    NegSequences(s.code, s.lines, e, |s.constants|);
  }

  /** Where the operand of a negation lies among the tokens. */
  lemma NegPositions(tokens: seq<Token>, k: nat, e: Expr, rest: seq<Token>)
    requires Occupies(tokens, k, e, rest) && e.Neg? && WellPrec(e)
    ensures k + 1 < |tokens| && tokens[k] == e.minus && tokens[k + 1].kind != Error
    ensures GetRule(tokens[k].kind).prefix == UnaryFn
    ensures Occupies(tokens, k + 1, e.operand, rest)
    ensures k + 1 + |ExprTokens(e.operand)| == k + |ExprTokens(e)| < |tokens|
  {
    ConsSuffix(tokens, k, e.minus, ExprTokens(e.operand) + rest);
    FirstToken(e.operand);
    SuffixHead(tokens, k + 1, ExprTokens(e.operand), rest);
  }

  /** unary: the operand, compiled at PREC_UNARY, then OP_NEGATE. */
  lemma {:induction false} NegCompiles(tokens: seq<Token>, s: State, k: nat, e: Expr, rest: seq<Token>)
    requires ValidStream(tokens) && At(tokens, s, k) && Occupies(tokens, k, e, rest)
    requires WellPrec(e) && e.Neg?
    ensures k + |ExprTokens(e)| < |tokens| && Advance(tokens, s).parser.previous == tokens[k]
    ensures GetRule(tokens[k].kind).prefix == UnaryFn
    ensures Unary(tokens, Advance(tokens, s)) == Compiled(tokens, s, k, e)
    decreases e, 0
  {
    var x := e.operand;
    NegPositions(tokens, k, e, rest);
    var k1 := k + 1;
    AdvanceAt(tokens, s, k, k1);
    var s1 := Advance(tokens, s);
    BelowUnary(rest[0].kind);
    ParseAll(tokens, s1, k1, x, rest, PrecUnary);
    UnaryUnfold(tokens, s1, Compiled(tokens, s1, k1, x));
    NegAlgebra(tokens, s, s1, k, k1, e);
  }

  /** Where the parts of a parenthesised expression lie among the tokens. */
  lemma GroupPositions(tokens: seq<Token>, k: nat, e: Expr, rest: seq<Token>)
    requires Occupies(tokens, k, e, rest) && e.Group? && WellPrec(e)
    ensures k + 1 < |tokens| && tokens[k] == e.open && tokens[k + 1].kind != Error
    ensures GetRule(tokens[k].kind).prefix == GroupingFn
    ensures Occupies(tokens, k + 1, e.inner, [e.close] + rest)
    ensures k + 1 + |ExprTokens(e.inner)| + 1 == k + |ExprTokens(e)| < |tokens|
    ensures tokens[k + 1 + |ExprTokens(e.inner)|] == e.close && tokens[k + |ExprTokens(e)|] == rest[0]
    ensures tokens[k + 1 + |ExprTokens(e.inner)| + 1] == rest[0] && rest[0].kind != Error
  {
    var inner := ExprTokens(e.inner);
    assert ExprTokens(e) == [e.open] + inner + [e.close];
    SplitBetween(tokens, k, e.open, inner, e.close, rest);
    FirstToken(e.inner);
    SuffixHead(tokens, k + 1, inner, [e.close] + rest);
  }

  /** A suffix made of the token o, then a, then the token c and a non-empty rest: where each part lies. */
  lemma SplitBetween(tokens: seq<Token>, k: nat, o: Token, a: seq<Token>, c: Token, rest: seq<Token>)
    requires k <= |tokens| && tokens[k..] == [o] + a + [c] + rest && rest != []
    ensures k + 1 + |a| + 1 < |tokens| && tokens[k] == o && tokens[k + 1..] == a + ([c] + rest)
    ensures tokens[k + 1 + |a|] == c && tokens[k + 1 + |a| + 1] == rest[0]
  {
    Assoc4([o], a, [c], rest);
    ConsSuffix(tokens, k, o, a + [c] + rest);
    Assoc3(a, [c], rest);
    var jc := k + 1 + |a|;
    DropPrefix(tokens, k + 1, a, [c] + rest);
    ConsSuffix(tokens, jc, c, rest);
    SuffixHead(tokens, jc + 1, rest, []);
  }

  /** grouping when the inner expression is followed by `)`: the expression, then advance over `)`. */
  lemma GroupingUnfold(tokens: seq<Token>, s: State, s2: State)
    requires ValidStream(tokens) && s.next < |tokens|
    requires ParsePrecedence(tokens, s, PrecAssignment) == s2 && s2.parser.current.kind == RightParen
    ensures Grouping(tokens, s) == Advance(tokens, s2)
  {
  }

  /** The state after a parenthesised expression is the one after the inner expression and `)`. */
  lemma GroupAlgebra(tokens: seq<Token>, s: State, s1: State, s3: State, k: nat, k1: nat, j: nat, e: Expr)
    requires e.Group? && k1 == k + 1 && j == k + |ExprTokens(e)| < |tokens| && SameOutput(s, s1)
    requires k1 + |ExprTokens(e.inner)| < |tokens|
    requires SameOutput(Compiled(tokens, s1, k1, e.inner), s3)
    requires At(tokens, s3, j) && s3.parser.previous == e.close
    ensures s3 == Compiled(tokens, s, k, e)
  {
  }

  /** grouping: the inner expression, then the closing parenthesis is consumed. */
  lemma {:induction false} GroupCompiles(tokens: seq<Token>, s: State, k: nat, e: Expr, rest: seq<Token>)
    requires ValidStream(tokens) && At(tokens, s, k) && Occupies(tokens, k, e, rest)
    requires WellPrec(e) && e.Group?
    ensures k + |ExprTokens(e)| < |tokens| && Advance(tokens, s).parser.previous == tokens[k]
    ensures GetRule(tokens[k].kind).prefix == GroupingFn
    ensures Grouping(tokens, Advance(tokens, s)) == Compiled(tokens, s, k, e)
    decreases e, 0
  {
    GroupPositions(tokens, k, e, rest);
    var k1 := k + 1;
    AdvanceAt(tokens, s, k, k1);
    var s1 := Advance(tokens, s);
    PrecPositive(e.inner);
    InfixRuleExists(e.close.kind);
    ParseAll(tokens, s1, k1, e.inner, [e.close] + rest, PrecAssignment);
    GroupClose(tokens, s, s1, k, k1, e, rest);
  }

  /** Once the inner expression is compiled, grouping consumes `)` and stops after the whole group. */
  lemma GroupClose(tokens: seq<Token>, s: State, s1: State, k: nat, k1: nat, e: Expr, rest: seq<Token>)
    requires ValidStream(tokens) && Occupies(tokens, k, e, rest) && WellPrec(e) && e.Group?
    requires k1 == k + 1 && k1 + |ExprTokens(e.inner)| < |tokens| && SameOutput(s, s1) && s1.next < |tokens|
    requires ParsePrecedence(tokens, s1, PrecAssignment) == Compiled(tokens, s1, k1, e.inner)
    ensures k + |ExprTokens(e)| < |tokens|
    ensures Grouping(tokens, s1) == Compiled(tokens, s, k, e)
  {
    GroupPositions(tokens, k, e, rest);
    var jx := k1 + |ExprTokens(e.inner)|;
    var j := jx + 1;
    var s2 := Compiled(tokens, s1, k1, e.inner);
    CompiledAt(tokens, s1, k1, e.inner, jx);
    AdvanceAt(tokens, s2, jx, j);
    GroupingUnfold(tokens, s1, s2);
    GroupAlgebra(tokens, s, s1, Advance(tokens, s2), k, k1, j, e);
  }


  /** The code of a binary node: its left operand's, its right operand's (numbered from m), then its operator. */
  lemma BinCode(c: seq<byte>, e: Expr, n: nat, m: nat)
    requires e.Bin? && m == n + |Pool(e.left)|
    ensures c + Postfix(e.left, n) + Postfix(e.right, m) + OperatorCode(e.op.kind) == c + Postfix(e, n)
  {
    var left, right, op := Postfix(e.left, n), Postfix(e.right, m), OperatorCode(e.op.kind);
    assert Postfix(e, n) == left + right + op;
    Assoc4(c, left, right, op);
  }

  /** The lines of a binary node's code: its operands', then the right operand's last line. */
  lemma BinLines(c: seq<int>, e: Expr, n: nat, m: nat)
    requires e.Bin? && IsBinaryOperator(e.op.kind) && m == n + |Pool(e.left)|
    ensures c + PostfixLines(e.left, n) + PostfixLines(e.right, m) + [LastToken(e.right).line]
         == c + PostfixLines(e, n)
  {
    var left, right, op := PostfixLines(e.left, n), PostfixLines(e.right, m), [LastToken(e.right).line];
    assert PostfixLines(e, n) == left + right + op;
    Assoc4(c, left, right, op);
  }

  /** The numbers of a binary node: its left operand's, then its right operand's. */
  lemma BinPool(c: seq<V.Value>, e: Expr)
    requires e.Bin?
    ensures c + Pool(e.left) + Pool(e.right) == c + Pool(e)
  {
    Assoc3(c, Pool(e.left), Pool(e.right));
  }

  /** The state after a binary node: both operands compiled, then the operator on the right operand's last line. */
  lemma BinAlgebra(tokens: seq<Token>, s: State, t1: State, k: nat, kr: nat, e: Expr)
    requires e.Bin? && IsBinaryOperator(e.op.kind) && k + |ExprTokens(e)| < |tokens|
    requires kr == k + |ExprTokens(e.left)| + 1
    requires SameOutput(Compiled(tokens, s, k, e.left), t1)
    ensures EmitByte(Compiled(tokens, t1, kr, e.right), ToByte(BinaryOpcode(e.op.kind))) == Compiled(tokens, s, k, e)
  {
    var n := |s.constants|;
    assert |t1.constants| == n + |Pool(e.left)|;
    var m := |t1.constants|;
    BinCode(s.code, e, n, m);
    BinLines(s.lines, e, n, m);
    BinPool(s.constants, e);
  }

  /** The precedences around a well-precedenced binary node: its right operand is parsed one level above it. */
  lemma BinPrecedences(e: Expr, p: nat)
    requires WellPrec(e) && e.Bin? && p == OperandPrecedence(e.op.kind)
    ensures p == Prec(e) + 1 && PrecAssignment <= p <= Prec(e.right)
    ensures IsBinaryOperator(e.op.kind) && WellPrec(e.left) && WellPrec(e.right) && Prec(e.left) >= Prec(e)
  {
  }

  /** Where the parts of a binary node lie among the tokens. */
  lemma BinPositions(tokens: seq<Token>, k: nat, kl: nat, kr: nat, e: Expr, rest: seq<Token>)
    requires Occupies(tokens, k, e, rest) && e.Bin? && WellPrec(e)
    requires kl == k + |ExprTokens(e.left)| && kr == kl + 1
    ensures Occupies(tokens, k, e.left, [e.op] + ExprTokens(e.right) + rest)
    ensures kr < |tokens| && tokens[kl] == e.op && tokens[kr].kind != Error
    ensures Occupies(tokens, kr, e.right, rest)
    ensures kr + |ExprTokens(e.right)| == k + |ExprTokens(e)| < |tokens|
  {
    var left, right := ExprTokens(e.left), ExprTokens(e.right);
    assert ExprTokens(e) == left + [e.op] + right;
    SplitAround(tokens, k, left, e.op, right, rest);
    FirstToken(e.right);
    SuffixHead(tokens, kr, right, rest);
  }

  /** A suffix made of a, then the token o, then b and rest: where o and what follows it lie. */
  lemma SplitAround(tokens: seq<Token>, k: nat, a: seq<Token>, o: Token, b: seq<Token>, rest: seq<Token>)
    requires k <= |tokens| && tokens[k..] == a + [o] + b + rest
    ensures tokens[k..] == a + ([o] + b + rest)
    ensures k + |a| < |tokens| && tokens[k + |a|] == o && tokens[k + |a| + 1..] == b + rest
  {
    Assoc4(a, [o], b, rest);
    DropPrefix(tokens, k, a, [o] + b + rest);
    ConsSuffix(tokens, k + |a|, o, b + rest);
  }

  /**
   * binary over a binary node whose left operand is compiled and whose
   * operator was just consumed: compile the right operand one level above
   * the operator, then emit the operator.
   */
  lemma {:induction false} BinaryCompiles(tokens: seq<Token>, s: State, k: nat, e: Expr, rest: seq<Token>)
    requires ValidStream(tokens) && At(tokens, s, k) && Occupies(tokens, k, e, rest)
    requires WellPrec(e) && e.Bin? && GetRule(rest[0].kind).precedence <= Prec(e)
    ensures k + |ExprTokens(e)| < |tokens| && k + |ExprTokens(e.left)| < |tokens|
    ensures Compiled(tokens, s, k, e.left).parser.current == e.op
    ensures Binary(tokens, Advance(tokens, Compiled(tokens, s, k, e.left))) == Compiled(tokens, s, k, e)
    decreases e, 0
  {
    var kl := k + |ExprTokens(e.left)|;
    var kr := kl + 1;
    BinPositions(tokens, k, kl, kr, e, rest);
    var t := Compiled(tokens, s, k, e.left);
    AdvanceAt(tokens, t, kl, kr);
    var t1 := Advance(tokens, t);
    var p := OperandPrecedence(e.op.kind);
    BinPrecedences(e, p);
    BinaryUnfold(tokens, t1, e.op, p);
    ParseAll(tokens, t1, kr, e.right, rest, p);
    BinAlgebra(tokens, s, t1, k, kr, e);
  }

  /** One round of the infix loop compiles a binary node whose left operand is compiled. */
  lemma {:induction false} InfixStep(tokens: seq<Token>, s: State, k: nat, e: Expr, rest: seq<Token>, p: nat)
    requires ValidStream(tokens) && At(tokens, s, k) && Occupies(tokens, k, e, rest)
    requires WellPrec(e) && e.Bin? && PrecAssignment <= p <= Prec(e)
    requires GetRule(rest[0].kind).precedence <= Prec(e)
    ensures k + |ExprTokens(e)| < |tokens| && k + |ExprTokens(e.left)| < |tokens|
    ensures InfixLoop(tokens, Compiled(tokens, s, k, e.left), p) == InfixLoop(tokens, Compiled(tokens, s, k, e), p)
    decreases e, 1
  {
    BinaryCompiles(tokens, s, k, e, rest);
    InfixLoopUnfold(tokens, Compiled(tokens, s, k, e.left), p);
  }

  /**
   * Parsing a well-precedenced expression at a precedence it satisfies,
   * followed by a token that binds less tightly than that precedence,
   * compiles exactly the expression.
   */
  lemma {:induction false} ParseAll(tokens: seq<Token>, s: State, k: nat, e: Expr, rest: seq<Token>, p: nat)
    requires ValidStream(tokens) && At(tokens, s, k) && Occupies(tokens, k, e, rest)
    requires WellPrec(e) && PrecAssignment <= p <= Prec(e)
    requires GetRule(rest[0].kind).precedence < p
    ensures k + |ExprTokens(e)| < |tokens|
    ensures ParsePrecedence(tokens, s, p) == Compiled(tokens, s, k, e)
    decreases e, 4
  {
    ParseThenLoop(tokens, s, k, e, rest, p);
    DropPrefix(tokens, k, ExprTokens(e), rest);
  }
}
