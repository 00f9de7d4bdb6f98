/**
 * The disassembler of src/debug.c with its printing replaced by the entry
 * each instruction prints: the offset, the line column (a line number, or
 * the "|" marker for a byte on the same line as the byte before it), the
 * opcode's name and, for the two constant instructions, the pool index and
 * the constant.  Operand bytes past the written code are reported as
 * unwritten and a pool index past the pool as having no value; the C code
 * reads beyond the buffers there.
 */
module Debug {
  import opened Wrappers
  import opened Opcodes
  import opened Chunks
  import V = Values

  /**
   * The operand of OP_CONSTANT_LONG as debug.c reads it, least significant
   * byte first: `code[o+1] | code[o+2] << 8 | code[o+3] << 16`.
   */
  function LittleEndian24(b0: byte, b1: byte, b2: byte): (r: nat)
    ensures r < 0x100_0000
  {
    b0 as nat + b1 as nat * 0x100 + b2 as nat * 0x1_0000
  }

  /** The line column of a listing entry: "   | " or the line number. */
  datatype LineColumn = SameLine | LineNumber(line: int)

  /** What follows the opcode's name. */
  datatype Operand =
    | NoOperand
    | Constant(index: nat, value: Option<V.Value>)
    | Unwritten

  /** One line of the listing. */
  datatype Entry = Entry(offset: nat, line: LineColumn, name: string, operand: Operand)

  /** The name disassembleInstruction prints for an opcode byte, spelled as debug.c spells it. */
  function OpName(b: byte): string
  {
    match FromByte(b)
    case Some(OpConstant) => "OP_CONSTANT"
    case Some(OpConstantLong) => "OP_CONSTANT_LONG"
    case Some(OpNull) => "OP_NULL"
    case Some(OpTrue) => "OP_TRUE"
    case Some(OpFalse) => "OP_FALSE"
    case Some(OpEqual) => "OP_EQUAL"
    case Some(OpGreater) => "OP_GREATER"
    case Some(OpLess) => "OP_LESS"
    case Some(OpAdd) => "OP_ADD"
    case Some(OpSubtract) => "OP_SUBSTRACT"
    case Some(OpMultiply) => "OP_MULTIPLY"
    case Some(OpDivide) => "OP_DIVIDE"
    case Some(OpNot) => "OP_NOT"
    case Some(OpNegate) => "OP_NEGATE"
    case Some(OpReturn) => "OP_RETURN"
    case None => "Unknown opcode"
  }

  /** The pool entry a decoded index names, if the pool has one. */
  function Load(pool: seq<V.Value>, index: nat): Operand
  {
    Constant(index, if index < |pool| then Some(pool[index]) else None)
  }

  /**
   * constantInstruction: the operand of the constant instruction at
   * `offset` and the offset after it.  OP_CONSTANT has a one-byte index,
   * OP_CONSTANT_LONG a three-byte little-endian one; any other byte is an
   * "Unknown constant instruction!" that moves on by one.
   */
  function ConstantInstruction(code: seq<byte>, pool: seq<V.Value>, offset: nat): (r: (Operand, nat))
    requires offset < |code|
  {
    if code[offset] == ToByte(OpConstant) then
      (if offset + 1 < |code| then Load(pool, code[offset + 1] as nat) else Unwritten, offset + 2)
    else if code[offset] == ToByte(OpConstantLong) then
      (if offset + 3 < |code| then Load(pool, LittleEndian24(code[offset + 1], code[offset + 2], code[offset + 3]))
       else Unwritten,
       offset + 4)
    else (NoOperand, offset + 1)
  }

  /**
   * The line column at `offset`: the marker exactly when the offset is not
   * the first and getLine gives it the line of the byte before it.
   */
  function LineMark(table: seq<LineEntry>, offset: nat): LineColumn
  {
    if offset > 0 && LineAt(table, offset) == LineAt(table, offset - 1) then SameLine
    else LineNumber(LineAt(table, offset))
  }

  /**
   * disassembleInstruction: the entry for the instruction at `offset` and
   * the offset of the next one.  The constant instructions go through
   * constantInstruction; every other byte, known or not, is one byte long.
   */
  function InstructionListing(code: seq<byte>, table: seq<LineEntry>, pool: seq<V.Value>, offset: nat): (r: (Entry, nat))
    requires offset < |code|
  {
    var b := code[offset];
    var (operand, next) :=
      if b == ToByte(OpConstant) || b == ToByte(OpConstantLong) then ConstantInstruction(code, pool, offset)
      else (NoOperand, offset + 1);
    (Entry(offset, LineMark(table, offset), OpName(b), operand), next)
  }

  /** disassembleChunk from `offset` on: an entry per instruction until the end of the code. */
  function Disassembly(code: seq<byte>, table: seq<LineEntry>, pool: seq<V.Value>, offset: nat): seq<Entry>
    decreases |code| - offset
  {
    if offset >= |code| then []
    else
      NextOffsets(code, table, pool, offset);
      var (entry, next) := InstructionListing(code, table, pool, offset);
      [entry] + Disassembly(code, table, pool, next)
  }

  /**
   * disassembleInstruction returns offset + 2 for OP_CONSTANT, offset + 4
   * for OP_CONSTANT_LONG and offset + 1 for every other byte: the
   * instruction lengths the compiler and the VM use.
   */
  lemma NextOffsets(code: seq<byte>, table: seq<LineEntry>, pool: seq<V.Value>, offset: nat)
    requires offset < |code|
    ensures var next := InstructionListing(code, table, pool, offset).1;
      && (code[offset] == ToByte(OpConstant) ==> next == offset + 2)
      && (code[offset] == ToByte(OpConstantLong) ==> next == offset + 4)
      && (code[offset] != ToByte(OpConstant) && code[offset] != ToByte(OpConstantLong) ==> next == offset + 1)
      && next == offset + Width(code[offset])
  {
  }

  /** The entry at `offset` is for `offset`; its name is the opcode's. */
  lemma ListingEntry(code: seq<byte>, table: seq<LineEntry>, pool: seq<V.Value>, offset: nat)
    requires offset < |code|
    ensures var entry := InstructionListing(code, table, pool, offset).0;
      entry.offset == offset && entry.name == OpName(code[offset]) && entry.line == LineMark(table, offset)
      && (code[offset] != ToByte(OpConstant) && code[offset] != ToByte(OpConstantLong) ==> entry.operand == NoOperand)
  {
  }

  /**
   * disassembleChunk visits strictly increasing offsets, starting at the
   * given one, all inside the code.
   */
  lemma {:induction false} DisassemblyOffsets(code: seq<byte>, table: seq<LineEntry>, pool: seq<V.Value>, offset: nat)
    ensures var listing := Disassembly(code, table, pool, offset);
      && (offset < |code| <==> listing != [])
      && (listing != [] ==> listing[0].offset == offset)
      && (forall i :: 0 <= i < |listing| ==> offset <= listing[i].offset < |code|)
      && (forall i, j :: 0 <= i < j < |listing| ==> listing[i].offset < listing[j].offset)
    decreases |code| - offset
  {
    if offset < |code| {
      NextOffsets(code, table, pool, offset);
      var (entry, next) := InstructionListing(code, table, pool, offset);
      DisassemblyOffsets(code, table, pool, next);
      var rest := Disassembly(code, table, pool, next);
      var listing := [entry] + rest;
      assert Disassembly(code, table, pool, offset) == listing;
      assert forall i :: 0 < i < |listing| ==> listing[i] == rest[i - 1];
    }
  }

  /**
   * The marker is chosen exactly when the offset is not the first and the
   * byte there was written with the same line as the byte before it;
   * otherwise the entry shows that byte's line.
   */
  lemma LineMarkLines(table: seq<LineEntry>, offset: nat)
    requires offset < |Expand(table)|
    ensures LineMark(table, offset) == SameLine <==> offset > 0 && Expand(table)[offset] == Expand(table)[offset - 1]
    ensures LineMark(table, offset) != SameLine ==> LineMark(table, offset) == LineNumber(Expand(table)[offset])
  {
    LineAtExpand(table, offset);
    if offset > 0 {
      LineAtExpand(table, offset - 1);
    }
  }

  /** The three bytes writeConstant stores, read back least significant first, give the index modulo 2^24. */
  lemma LittleEndianBytes(index: nat)
    ensures LittleEndian24(Low8(index), Low8(index / 0x100), Low8(index / 0x1_0000)) == index % 0x100_0000
  {
    var q := index / 0x100;
    var q2 := q / 0x100;
    assert index == q * 0x100 + index % 0x100;
    assert q == q2 * 0x100 + q % 0x100;
    assert index / 0x1_0000 == q2;
    assert index == q2 * 0x1_0000 + (q % 0x100) * 0x100 + index % 0x100;
    assert index % 0x100 + (q % 0x100) * 0x100 + q2 % 0x100 * 0x1_0000 == index % 0x100_0000 by {
      assert q2 == (q2 / 0x100) * 0x100 + q2 % 0x100;
      assert index == (q2 / 0x100) * 0x100_0000 + (index % 0x100 + (q % 0x100) * 0x100 + q2 % 0x100 * 0x1_0000);
    }
  }

  /**
   * The disassembler reads back what writeConstant (src/chunk.c) writes:
   * wherever its bytes for `index` sit in the code, the listing names
   * that index (modulo 2^24) and the next instruction starts right after.
   */
  lemma WriteConstantListing(code: seq<byte>, table: seq<LineEntry>, pool: seq<V.Value>, offset: nat, index: nat)
    requires offset + |WriteConstantBytes(index)| <= |code|
    requires code[offset..offset + |WriteConstantBytes(index)|] == WriteConstantBytes(index)
    ensures var (entry, next) := InstructionListing(code, table, pool, offset);
      && next == offset + |WriteConstantBytes(index)|
      && entry.operand == Load(pool, index % 0x100_0000)
  {
    if index < 255 {
      ShortListing(code, table, pool, offset, index as byte);
    } else {
      LongListing(code, table, pool, offset, Low8(index), Low8(index / 0x100), Low8(index / 0x1_0000));
      LittleEndianBytes(index);
    }
  }

  /** The listing of OP_CONSTANT b. */
  lemma ShortListing(code: seq<byte>, table: seq<LineEntry>, pool: seq<V.Value>, offset: nat, b: byte)
    requires offset + 2 <= |code| && code[offset..offset + 2] == [ToByte(OpConstant), b]
    ensures InstructionListing(code, table, pool, offset).1 == offset + 2
    ensures InstructionListing(code, table, pool, offset).0.operand == Load(pool, b as nat)
  {
    assert code[offset] == code[offset..offset + 2][0];
    assert code[offset + 1] == code[offset..offset + 2][1];
  }

  /** The listing of OP_CONSTANT_LONG b0 b1 b2. */
  lemma LongListing(code: seq<byte>, table: seq<LineEntry>, pool: seq<V.Value>, offset: nat, b0: byte, b1: byte, b2: byte)
    requires offset + 4 <= |code| && code[offset..offset + 4] == [ToByte(OpConstantLong), b0, b1, b2]
    ensures InstructionListing(code, table, pool, offset).1 == offset + 4
    ensures InstructionListing(code, table, pool, offset).0.operand == Load(pool, LittleEndian24(b0, b1, b2))
  {
    var w := code[offset..offset + 4];
    assert code[offset] == w[0] && code[offset + 1] == w[1] && code[offset + 2] == w[2] && code[offset + 3] == w[3];
  }

  /**
   * disassembleInstruction on a chunk: look up the line twice through
   * getLine (the second time only when the offset is not the first), then
   * decode the instruction.
   */
  method DisassembleInstruction(chunk: Chunk, offset: nat) returns (entry: Entry, next: nat)
    requires chunk.Valid() && offset < chunk.count
    ensures (entry, next) == InstructionListing(chunk.Code(), chunk.LineTable(), chunk.Constants(), offset)
  {
    var lineNumber := chunk.GetLine(offset);
    var mark := LineNumber(lineNumber);
    if offset > 0 {
      var previousLine := chunk.GetLine(offset - 1);
      if lineNumber == previousLine {
        mark := SameLine;
      }
    }
    var code := chunk.code[..chunk.count];
    var instruction := code[offset];
    if instruction == ToByte(OpConstant) || instruction == ToByte(OpConstantLong) {
      var operand, n := ConstantInstruction(code, chunk.constants.values[..chunk.constants.count], offset).0,
                        ConstantInstruction(code, chunk.constants.values[..chunk.constants.count], offset).1;
      entry, next := Entry(offset, mark, OpName(instruction), operand), n;
    } else {
      // simpleInstruction: the name alone, one byte.
      entry, next := Entry(offset, mark, OpName(instruction), NoOperand), offset + 1;
    }
  }

  /** disassembleChunk: from offset 0, one instruction after another while the offset is inside the code. */
  method DisassembleChunk(chunk: Chunk) returns (listing: seq<Entry>)
    requires chunk.Valid()
    ensures listing == Disassembly(chunk.Code(), chunk.LineTable(), chunk.Constants(), 0)
  {
    ghost var code, table, pool := chunk.Code(), chunk.LineTable(), chunk.Constants();
    listing := [];
    var offset := 0;
    while offset < chunk.count
      invariant listing + Disassembly(code, table, pool, offset) == Disassembly(code, table, pool, 0)
      decreases chunk.count - offset
    {
      var entry, next := DisassembleInstruction(chunk, offset);
      NextOffsets(code, table, pool, offset);
      assert Disassembly(code, table, pool, offset) == [entry] + Disassembly(code, table, pool, next);
      Assoc3(listing, [entry], Disassembly(code, table, pool, next));
      listing := listing + [entry];
      offset := next;
    }
  }
}
