/**
 * The bytecode interpreter of src/vm.c.  This revision's `run` knows three
 * opcodes: OP_CONSTANT and OP_CONSTANT_LONG fetch a constant and print it,
 * OP_RETURN stops with INTERPRET_OK, and every other byte is skipped.  What
 * printValue prints is kept as the list of values printed.  The C code reads
 * on past the written code or past the constant pool when the bytecode is
 * malformed, which is undefined behaviour; the model stops there instead and
 * says so in its outcome.
 */
module Vm {
  import opened Wrappers
  import opened Opcodes
  import opened Chunks
  import V = Values

  /** include/vm.h's InterpretResult. */
  datatype InterpretResult = InterpretOk | InterpretCompileError | InterpretRuntimeError

  /**
   * How a run ends: `run` returns a result, or (in the model only) the next
   * read would be past the written code or past the constant pool.
   */
  datatype Outcome = Finished(result: InterpretResult) | ReadPastCode | ReadPastPool

  /** A run: how it ended and the constants it printed, in order. */
  datatype Execution = Execution(outcome: Outcome, printed: seq<V.Value>)

  /** A run that prints `vs` and then continues as `e`. */
  function Printing(vs: seq<V.Value>, e: Execution): (r: Execution)
    ensures r.outcome == e.outcome && |r.printed| == |vs| + |e.printed|
  {
    e.(printed := vs + e.printed)
  }

  /** One turn of run's loop: it ends the run, or prints and moves `ip` on by `width`. */
  datatype Turn = Stop(outcome: Outcome) | Continue(printed: seq<V.Value>, width: nat)

  /**
   * One turn of the fetch loop on the bytes `code` from the instruction
   * pointer on: read one opcode, then its operand bytes (one pool index
   * after OP_CONSTANT, three, most significant first, after
   * OP_CONSTANT_LONG) and print the constant; OP_RETURN ends the run with
   * INTERPRET_OK and any other opcode has no case and does nothing.
   */
  function Decode(code: seq<byte>, pool: seq<V.Value>): (t: Turn)
    ensures t.Continue? ==> 1 <= t.width <= |code| && |t.printed| <= 1
  {
    if code == [] then Stop(ReadPastCode)
    else if code[0] == ToByte(OpConstant) then
      if |code| < 2 then Stop(ReadPastCode)
      else if code[1] as nat >= |pool| then Stop(ReadPastPool)
      else Continue([pool[code[1]]], 2)
    else if code[0] == ToByte(OpConstantLong) then
      if |code| < 4 then Stop(ReadPastCode)
      else
        var index := BigEndian24(code[1], code[2], code[3]);
        if index >= |pool| then Stop(ReadPastPool) else Continue([pool[index]], 4)
    else if code[0] == ToByte(OpReturn) then Stop(Finished(InterpretOk))
    else Continue([], 1)
  }

  /** The whole fetch loop: turn after turn until one ends the run. */
  function Exec(code: seq<byte>, pool: seq<V.Value>): Execution
    decreases |code|
  {
    var t := Decode(code, pool);
    if t.Stop? then Execution(t.outcome, []) else Printing(t.printed, Exec(code[t.width..], pool))
  }

  /** A turn that continues from `ip0` to `ip` prints what it prints and hands over at `ip`. */
  lemma ExecTurn(code: seq<byte>, pool: seq<V.Value>, ip0: nat, ip: nat, vs: seq<V.Value>)
    requires ip0 <= ip <= |code| && Decode(code[ip0..], pool) == Continue(vs, ip - ip0)
    ensures Exec(code[ip0..], pool) == Printing(vs, Exec(code[ip..], pool))
  {
    assert code[ip0..][ip - ip0..] == code[ip..];
  }

  /**
   * The constants a stream of complete instructions loads, in order: an
   * independent reading of the instruction stream, one instruction at a
   * time.
   */
  function Fetched(code: seq<byte>, pool: seq<V.Value>): seq<V.Value>
    requires Instructions(code, |pool|)
    decreases |code|
  {
    if code == [] then [] else Loaded(code, pool) + Fetched(code[Width(code[0])..], pool)
  }

  /** The constant the first instruction loads, if it is a constant instruction. */
  function Loaded(code: seq<byte>, pool: seq<V.Value>): seq<V.Value>
    requires code != [] && OperandOk(code, |pool|)
  {
    if code[0] == ToByte(OpConstant) then [pool[code[1]]]
    else if code[0] == ToByte(OpConstantLong) then [pool[BigEndian24(code[1], code[2], code[3])]]
    else []
  }

  /** The first instruction of `a` loads the same in `a + b`. */
  lemma LoadedAppend(a: seq<byte>, b: seq<byte>, pool: seq<V.Value>)
    requires a != [] && OperandOk(a, |pool|)
    ensures OperandOk(a + b, |pool|) && Loaded(a + b, pool) == Loaded(a, pool)
    ensures (a + b)[Width(a[0])..] == a[Width(a[0])..] + b
  {
    FirstInstructionAppend(a, b, |pool|);
    var ab := a + b;
    if Width(a[0]) >= 2 {
      assert ab[1] == a[1];
    }
    if Width(a[0]) == 4 {
      assert ab[2] == a[2] && ab[3] == a[3];
    }
  }

  /** No instruction of the stream is OP_RETURN (operand bytes may have any value). */
  predicate ReturnFree(code: seq<byte>)
    decreases |code|
  {
    code == [] || (|code| >= Width(code[0]) && code[0] != ToByte(OpReturn) && ReturnFree(code[Width(code[0])..]))
  }

  /** Loading the constants of two streams in a row loads those of the first, then those of the second. */
  lemma {:induction false} FetchedAppend(a: seq<byte>, b: seq<byte>, pool: seq<V.Value>)
    requires Instructions(a, |pool|) && Instructions(b, |pool|)
    ensures Instructions(a + b, |pool|) && Fetched(a + b, pool) == Fetched(a, pool) + Fetched(b, pool)
    decreases |a|
  {
    InstructionsAppend(a, b, |pool|);
    if a == [] {
      assert a + b == b;
    } else {
      var w := Width(a[0]);
      LoadedAppend(a, b, pool);
      FetchedAppend(a[w..], b, pool);
      Assoc3(Loaded(a, pool), Fetched(a[w..], pool), Fetched(b, pool));
    }
  }

  /** Two streams without OP_RETURN make one. */
  lemma {:induction false} ReturnFreeAppend(a: seq<byte>, b: seq<byte>, pool: seq<V.Value>)
    requires Instructions(a, |pool|) && ReturnFree(a) && ReturnFree(b)
    ensures ReturnFree(a + b)
    decreases |a|
  {
    if a == [] {
      assert a + b == b;
    } else {
      var w := Width(a[0]);
      FirstInstructionAppend(a, b, |pool|);
      ReturnFreeAppend(a[w..], b, pool);
    }
  }

  /**
   * Complete instructions whose constants are all in the pool, followed by
   * OP_RETURN, run to INTERPRET_OK without reading past the code or the
   * pool, whatever follows the OP_RETURN.
   */
  lemma {:induction false} ReturnsOk(body: seq<byte>, tail: seq<byte>, pool: seq<V.Value>)
    requires Instructions(body, |pool|)
    ensures Exec(body + [ToByte(OpReturn)] + tail, pool).outcome == Finished(InterpretOk)
    decreases |body|
  {
    var code := body + [ToByte(OpReturn)] + tail;
    if body != [] && body[0] != ToByte(OpReturn) {
      var w := Width(body[0]);
      StepOver(body, tail, pool);
      ReturnsOk(body[w..], tail, pool);
    } else if body != [] {
      assert code[0] == body[0];
    } else {
      assert code[0] == ToByte(OpReturn);
    }
  }

  /**
   * Without an OP_RETURN before the final one, the run prints exactly the
   * constants the instructions load, in order, and returns INTERPRET_OK.
   */
  lemma {:induction false} RunsToReturn(body: seq<byte>, tail: seq<byte>, pool: seq<V.Value>)
    requires Instructions(body, |pool|) && ReturnFree(body)
    ensures Exec(body + [ToByte(OpReturn)] + tail, pool) == Execution(Finished(InterpretOk), Fetched(body, pool))
    decreases |body|
  {
    var code := body + [ToByte(OpReturn)] + tail;
    if body == [] {
      assert code[0] == ToByte(OpReturn);
    } else {
      var w := Width(body[0]);
      StepOver(body, tail, pool);
      RunsToReturn(body[w..], tail, pool);
    }
  }

  /**
   * One turn of the fetch loop over a complete instruction other than
   * OP_RETURN: print what it loads and continue after it.
   */
  lemma StepOver(body: seq<byte>, tail: seq<byte>, pool: seq<V.Value>)
    requires body != [] && OperandOk(body, |pool|) && body[0] != ToByte(OpReturn)
    ensures Exec(body + [ToByte(OpReturn)] + tail, pool)
        == Printing(Loaded(body, pool), Exec(body[Width(body[0])..] + [ToByte(OpReturn)] + tail, pool))
  {
    var code := body + [ToByte(OpReturn)] + tail;
    var w := Width(body[0]);
    assert code[0] == body[0];
    if w >= 2 {
      assert code[1] == body[1];
    }
    if w == 4 {
      assert code[2] == body[2] && code[3] == body[3];
    }
    assert code[w..] == body[w..] + [ToByte(OpReturn)] + tail;
  }

  /** An opcode that run has no case for does nothing but move on by one byte. */
  lemma UnknownOpcodeSkipped(b: byte, rest: seq<byte>, pool: seq<V.Value>)
    requires b != ToByte(OpConstant) && b != ToByte(OpConstantLong) && b != ToByte(OpReturn)
    ensures Exec([b] + rest, pool) == Exec(rest, pool)
  {
    assert ([b] + rest)[1..] == rest;
  }

  lemma PrintingTwice(a: seq<V.Value>, b: seq<V.Value>, e: Execution)
    ensures Printing(a, Printing(b, e)) == Printing(a + b, e)
  {
    assert a + (b + e.printed) == a + b + e.printed;
  }

  /** run's loop invariant survives a turn that continues. */
  lemma RunGoesOn(code: seq<byte>, pool: seq<V.Value>, start: nat, ip0: nat, ip: nat, printed: seq<V.Value>, vs: seq<V.Value>)
    requires start <= ip0 <= ip <= |code| && Decode(code[ip0..], pool) == Continue(vs, ip - ip0)
    requires Printing(printed, Exec(code[ip0..], pool)) == Exec(code[start..], pool)
    ensures Printing(printed + vs, Exec(code[ip..], pool)) == Exec(code[start..], pool)
  {
    ExecTurn(code, pool, ip0, ip, vs);
    PrintingTwice(printed, vs, Exec(code[ip..], pool));
  }

  /** A turn that stops ends the whole run with what was printed before it. */
  lemma RunEnds(code: seq<byte>, pool: seq<V.Value>, start: nat, ip0: nat, printed: seq<V.Value>, outcome: Outcome)
    requires start <= ip0 <= |code| && Decode(code[ip0..], pool) == Stop(outcome)
    requires Printing(printed, Exec(code[ip0..], pool)) == Exec(code[start..], pool)
    ensures Exec(code[start..], pool) == Execution(outcome, printed)
  {
    assert Exec(code[ip0..], pool) == Execution(outcome, []);
    assert printed + [] == printed;
  }

  /** The global `VM vm`: the chunk being run and the instruction pointer into its code. */
  class VM {
    var chunk: Chunk?
    var ip: nat
    // What printValue has printed so far.
    var output: seq<V.Value>

    ghost predicate Valid()
      reads this, chunk, if chunk == null then {} else {chunk.constants}
    {
      chunk != null && chunk.Valid() && ip <= chunk.count
    }

    /** initVM: nothing to set up in this revision. */
    constructor ()
      ensures chunk == null && ip == 0 && output == []
    {
      chunk, ip, output := null, 0, [];
    }

    /** READ_BYTE(): the byte at `ip`, then `ip` moves on by one. */
    method ReadByte() returns (b: byte)
      requires Valid() && ip < chunk.count
      modifies this`ip
      ensures Valid() && ip == old(ip) + 1
      ensures b == chunk.Code()[old(ip)]
    {
      b := chunk.code[ip];
      ip := ip + 1;
    }

    /**
     * readLongIndex: three bytes, most significant first, combined with
     * `index |= byte << k` (on disjoint bit positions `|` adds); `ip` moves
     * on by exactly three.
     */
    method ReadLongIndex() returns (index: nat)
      requires Valid() && ip + 3 <= chunk.count
      modifies this`ip
      ensures Valid() && ip == old(ip) + 3
      ensures index == BigEndian24(chunk.Code()[old(ip)], chunk.Code()[old(ip) + 1], chunk.Code()[old(ip) + 2])
      ensures index < 0x100_0000
    {
      index := 0;
      var b := ReadByte();
      index := index + b as nat * 0x1_0000;
      b := ReadByte();
      index := index + b as nat * 0x100;
      b := ReadByte();
      index := index + b as nat;
    }

    /**
     * run: fetch and dispatch until OP_RETURN.  The result and what is
     * printed are those of Exec on the code from the instruction pointer on.
     */
    method Run() returns (outcome: Outcome)
      requires Valid()
      modifies this`ip, this`output
      ensures Valid()
      ensures var e := Exec(chunk.Code()[old(ip)..], chunk.Constants());
        outcome == e.outcome && output == old(output) + e.printed
    {
      ghost var start := old(ip);
      ghost var code, pool := chunk.Code(), chunk.Constants();
      ghost var printed := [];
      while true
        invariant Valid() && output == old(output) + printed
        invariant chunk == old(chunk) && chunk.Code() == code && chunk.Constants() == pool
        invariant Printing(printed, Exec(code[ip..], pool)) == Exec(code[start..], pool)
        decreases chunk.count - ip
      {
        ghost var ip0 := ip;
        var stop, vs := Step();
        if stop.Some? {
          RunEnds(code, pool, start, ip0, printed, stop.value);
          return stop.value;
        }
        RunGoesOn(code, pool, start, ip0, ip, printed, vs);
        Assoc3(old(output), printed, vs);
        printed := printed + vs;
      }
    }

    /**
     * One turn of run's loop: read an opcode and its operands, print a
     * fetched constant (`vs` is what is printed).  `stop` is the outcome when
     * the loop ends here.
     */
    method Step() returns (stop: Option<Outcome>, ghost vs: seq<V.Value>)
      requires Valid()
      modifies this`ip, this`output
      ensures Valid() && output == old(output) + vs && old(ip) <= ip
      ensures stop.None? ==> old(ip) < ip
      ensures var t := Decode(chunk.Code()[old(ip)..], chunk.Constants());
        if stop.Some? then t == Stop(stop.value) && vs == [] else t == Continue(vs, ip - old(ip))
    {
      vs := [];
      ghost var all, start := chunk.Code(), ip;
      ghost var code := all[start..];
      if ip >= chunk.count {
        assert code == [];
        return Some(ReadPastCode), [];
      }
      var instruction := ReadByte();
      assert code[0] == instruction;
      if instruction == ToByte(OpConstant) {
        if ip >= chunk.count {
          return Some(ReadPastCode), [];
        }
        // READ_CONSTANT(): constants.values[READ_BYTE()]
        var index := ReadByte();
        assert code[1] == index;
        if index as nat >= chunk.constants.count {
          return Some(ReadPastPool), [];
        }
        var constant := chunk.constants.values[index];
        output := output + [constant];
        vs := [constant];
        assert code[2..] == all[ip..];
      } else if instruction == ToByte(OpConstantLong) {
        if ip + 3 > chunk.count {
          return Some(ReadPastCode), [];
        }
        var index := ReadLongIndex();
        assert code[1] == all[ip - 3] && code[2] == all[ip - 2] && code[3] == all[ip - 1];
        if index >= chunk.constants.count {
          return Some(ReadPastPool), [];
        }
        var constant := chunk.constants.values[index];
        output := output + [constant];
        vs := [constant];
        assert code[4..] == all[ip..];
      } else if instruction == ToByte(OpReturn) {
        return Some(Finished(InterpretOk)), [];
      } else {
        assert code[1..] == all[ip..];
      }
      return None, vs;
    }

    /** interpret: point `ip` at the start of the chunk's code and run it. */
    method Interpret(c: Chunk) returns (outcome: Outcome)
      requires c.Valid()
      modifies this
      ensures Valid() && chunk == c
      ensures var e := Exec(c.Code(), c.Constants());
        outcome == e.outcome && output == old(output) + e.printed
    {
      chunk := c;
      ip := 0;
      assert chunk.Code()[0..] == c.Code();
      outcome := Run();
    }
  }
}
