/**
 * The instruction set.  include/chunk.h in this revision declares only
 * OP_RETURN; the opcodes below are the ones src/debug.c and src/compiler.c
 * use.  Their numeric values are not fixed by any file of the repository, so
 * they are numbered in the order of debug.c's switch.
 */
module Opcodes {
  import opened Wrappers

  /** `uint8_t`. */
  newtype byte = x: int | 0 <= x < 256

  datatype OpCode =
    | OpConstant | OpConstantLong | OpNull | OpTrue | OpFalse
    | OpEqual | OpGreater | OpLess
    | OpAdd | OpSubtract | OpMultiply | OpDivide
    | OpNot | OpNegate | OpReturn

  function ToByte(op: OpCode): byte
  {
    match op
    case OpConstant => 0
    case OpConstantLong => 1
    case OpNull => 2
    case OpTrue => 3
    case OpFalse => 4
    case OpEqual => 5
    case OpGreater => 6
    case OpLess => 7
    case OpAdd => 8
    case OpSubtract => 9
    case OpMultiply => 10
    case OpDivide => 11
    case OpNot => 12
    case OpNegate => 13
    case OpReturn => 14
  }

  /** The opcode a byte stands for, if any (bytes 15..255 are unknown opcodes). */
  function FromByte(b: byte): (r: Option<OpCode>)
    ensures r.Some? ==> ToByte(r.value) == b
    ensures r.None? <==> b >= 15
  {
    if b == 0 then Some(OpConstant)
    else if b == 1 then Some(OpConstantLong)
    else if b == 2 then Some(OpNull)
    else if b == 3 then Some(OpTrue)
    else if b == 4 then Some(OpFalse)
    else if b == 5 then Some(OpEqual)
    else if b == 6 then Some(OpGreater)
    else if b == 7 then Some(OpLess)
    else if b == 8 then Some(OpAdd)
    else if b == 9 then Some(OpSubtract)
    else if b == 10 then Some(OpMultiply)
    else if b == 11 then Some(OpDivide)
    else if b == 12 then Some(OpNot)
    else if b == 13 then Some(OpNegate)
    else if b == 14 then Some(OpReturn)
    else None
  }

  lemma FromToByte(op: OpCode)
    ensures FromByte(ToByte(op)) == Some(op)
  {
  }

  /** Distinct opcodes have distinct bytes. */
  lemma ToByteInjective(a: OpCode, b: OpCode)
    ensures ToByte(a) == ToByte(b) <==> a == b
  {
    FromToByte(a);
    FromToByte(b);
  }

  /** The low eight bits of a non-negative int: `(uint8_t)x`, `x & 0xFF`. */
  function Low8(x: nat): byte
  {
    (x % 256) as byte
  }

  /**
   * A three-byte operand read most significant byte first
   * (`b0 << 16 | b1 << 8 | b2`), the order compiler.c writes.
   */
  function BigEndian24(b0: byte, b1: byte, b2: byte): (r: nat)
    ensures r < 0x100_0000
  {
    b0 as nat * 0x1_0000 + b1 as nat * 0x100 + b2 as nat
  }

  /**
   * The stream of complete instructions the compiler emits: each opcode is
   * followed by its operand bytes (1 for OP_CONSTANT, 3 big-endian for
   * OP_CONSTANT_LONG, none otherwise) and every constant operand indexes one
   * of the `n` pool entries.
   */
  predicate Instructions(code: seq<byte>, n: nat)
    decreases |code|
  {
    code == [] || (OperandOk(code, n) && Instructions(code[Width(code[0])..], n))
  }

  /** The length of an instruction that starts with `op`: the opcode and its operand bytes. */
  function Width(op: byte): (w: nat)
    ensures 1 <= w <= 4
  {
    if op == ToByte(OpConstant) then 2 else if op == ToByte(OpConstantLong) then 4 else 1
  }

  /** The instruction at code[0] is complete and a constant operand is below `n`. */
  predicate OperandOk(code: seq<byte>, n: nat)
    requires code != []
  {
    && |code| >= Width(code[0])
    && (code[0] == ToByte(OpConstant) ==> code[1] as nat < n)
    && (code[0] == ToByte(OpConstantLong) ==> BigEndian24(code[1], code[2], code[3]) < n)
  }

  /** Concatenating two instruction streams gives an instruction stream. */
  lemma {:induction false} InstructionsAppend(a: seq<byte>, b: seq<byte>, n: nat)
    requires Instructions(a, n) && Instructions(b, n)
    ensures Instructions(a + b, n)
    decreases |a|
  {
    if a == [] {
      assert a + b == b;
    } else {
      var w := Width(a[0]);
      InstructionsAppend(a[w..], b, n);
      FirstInstructionAppend(a, b, n);
    }
  }

  /** The first instruction of `a` is also the first instruction of `a + b`. */
  lemma FirstInstructionAppend(a: seq<byte>, b: seq<byte>, n: nat)
    requires a != [] && OperandOk(a, n)
    ensures (a + b)[0] == a[0] && OperandOk(a + b, n)
    ensures (a + b)[Width(a[0])..] == a[Width(a[0])..] + b
  {
    var ab := a + b;
    assert ab[0] == a[0];
    if Width(a[0]) >= 2 {
      assert ab[1] == a[1];
    }
    if Width(a[0]) == 4 {
      assert ab[2] == a[2] && ab[3] == a[3];
    }
  }

  /** A larger constant pool keeps every operand in range. */
  lemma {:induction false} InstructionsMonotonic(code: seq<byte>, n: nat, m: nat)
    requires Instructions(code, n) && n <= m
    ensures Instructions(code, m)
    decreases |code|
  {
    if code != [] {
      InstructionsMonotonic(code[Width(code[0])..], n, m);
    }
  }

  /** Appending one byte that is not a constant opcode keeps an instruction stream. */
  lemma SimpleAppend(code: seq<byte>, b: byte, n: nat)
    ensures (b != ToByte(OpConstant) && b != ToByte(OpConstantLong) && Instructions(code, n)) ==>
              Instructions(code + [b], n)
  {
    if b != ToByte(OpConstant) && b != ToByte(OpConstantLong) && Instructions(code, n) {
      assert Instructions([b], n) by {
        assert [b][1..] == [];
      }
      InstructionsAppend(code, [b], n);
    }
  }
}
