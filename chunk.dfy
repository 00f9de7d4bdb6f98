/**
 * The bytecode container of src/chunk.c: an append-only code buffer, a
 * run-length encoded table giving the source line of every byte, and a
 * constant pool.
 */
module Chunks {
  import opened Opcodes
  import opened Values
  import opened ValueArrays
  import opened Memory

  /** One run of the line table: `count` consecutive bytes from `lineNumber`. */
  datatype LineEntry = LineEntry(lineNumber: int, count: nat)

  /** The line of every byte, in order: the run-length table expanded. */
  function Expand(table: seq<LineEntry>): seq<int>
  {
    if table == [] then [] else seq(table[0].count, _ => table[0].lineNumber) + Expand(table[1..])
  }

  /** Every run is non-empty and two adjacent runs never share a line. */
  predicate WellFormedTable(table: seq<LineEntry>)
  {
    && (forall i :: 0 <= i < |table| ==> table[i].count >= 1)
    && (forall i :: 0 < i < |table| ==> table[i - 1].lineNumber != table[i].lineNumber)
  }

  /**
   * What getLine computes: walk the runs, subtracting each run's length
   * from the index until the index falls inside a run; -1 past the end.
   */
  function LineAt(table: seq<LineEntry>, index: int): int
  {
    if table == [] then -1
    else if index < table[0].count then table[0].lineNumber
    else LineAt(table[1..], index - table[0].count)
  }

  /**
   * The line-table update of writeChunk: a new run when the table is empty
   * or the last run is for another line, otherwise the last run grows.
   */
  function RecordLine(table: seq<LineEntry>, line: int): seq<LineEntry>
  {
    if table == [] || table[|table| - 1].lineNumber != line then table + [LineEntry(line, 1)]
    else table[..|table| - 1] + [LineEntry(line, table[|table| - 1].count + 1)]
  }

  /** The table after writing bytes with the given lines, one after another. */
  function RecordLines(table: seq<LineEntry>, lineSeq: seq<int>): seq<LineEntry>
    decreases |lineSeq|
  {
    if lineSeq == [] then table
    else RecordLines(RecordLine(table, lineSeq[0]), lineSeq[1..])
  }

  lemma Append2<T>(s: seq<T>, a: T, b: T)
    ensures s + [a] + [b] == s + [a, b]
  {
  }

  lemma Append4<T>(s: seq<T>, a: T, b: T, c: T, d: T)
    ensures s + [a] + [b] + [c] + [d] == s + [a, b, c, d]
  {
  }

  lemma SameLine(line: int)
    ensures seq(2, _ => line) == [line, line]
    ensures seq(4, _ => line) == [line, line, line, line]
  {
  }

  /** The encoding writeConstant emits: short form only below 255, long form least significant byte first. */
  function WriteConstantBytes(index: nat): seq<byte>
  {
    if index < 255 then [ToByte(OpConstant), index as byte]
    else [ToByte(OpConstantLong), Low8(index), Low8(index / 0x100), Low8(index / 0x1_0000)]
  }

  lemma {:induction false} ExpandAppend(table: seq<LineEntry>, e: LineEntry)
    ensures Expand(table + [e]) == Expand(table) + seq(e.count, _ => e.lineNumber)
    decreases |table|
  {
    if table == [] {
      assert [e][1..] == [];
    } else {
      assert (table + [e])[1..] == table[1..] + [e];
      ExpandAppend(table[1..], e);
    }
  }

  /** Recording one line appends exactly that line to the expansion. */
  lemma RecordLineExpands(table: seq<LineEntry>, line: int)
    ensures Expand(RecordLine(table, line)) == Expand(table) + [line]
  {
    if table == [] || table[|table| - 1].lineNumber != line {
      ExpandAppend(table, LineEntry(line, 1));
    } else {
      var k := |table| - 1;
      var last := table[k];
      assert table == table[..k] + [last];
      ExpandAppend(table[..k], last);
      ExpandAppend(table[..k], LineEntry(line, last.count + 1));
      assert seq(last.count + 1, _ => line) == seq(last.count, _ => line) + [line];
    }
  }

  /** Recording one line keeps the table well formed. */
  lemma RecordLineWellFormed(table: seq<LineEntry>, line: int)
    requires WellFormedTable(table)
    ensures WellFormedTable(RecordLine(table, line))
  {
  }

  lemma ConsAppend<T>(prefix: seq<T>, s: seq<T>)
    requires s != []
    ensures prefix + [s[0]] + s[1..] == prefix + s
  {
    assert [s[0]] + s[1..] == s;
  }

  /** Recording a sequence of lines appends exactly those lines to the expansion. */
  lemma {:induction false} RecordLinesExpands(table: seq<LineEntry>, lineSeq: seq<int>)
    ensures Expand(RecordLines(table, lineSeq)) == Expand(table) + lineSeq
    decreases |lineSeq|
  {
    if lineSeq != [] {
      var next := RecordLine(table, lineSeq[0]);
      RecordLineExpands(table, lineSeq[0]);
      RecordLinesExpands(next, lineSeq[1..]);
      ConsAppend(Expand(table), lineSeq);
    }
  }

  /** Recording a sequence of lines keeps the table well formed. */
  lemma {:induction false} RecordLinesWellFormed(table: seq<LineEntry>, lineSeq: seq<int>)
    requires WellFormedTable(table)
    ensures WellFormedTable(RecordLines(table, lineSeq))
    decreases |lineSeq|
  {
    if lineSeq != [] {
      RecordLineWellFormed(table, lineSeq[0]);
      RecordLinesWellFormed(RecordLine(table, lineSeq[0]), lineSeq[1..]);
    }
  }

  /** N consecutive writes on the same line into an empty table give a single run of length N. */
  lemma {:induction false} SameLineIsOneRun(line: int, n: nat)
    requires n >= 1
    ensures RecordLines([], seq(n, _ => line)) == [LineEntry(line, n)]
  {
    SameLineExtendsRun([LineEntry(line, 1)], line, n - 1);
    assert seq(n, _ => line) == [line] + seq(n - 1, _ => line);
  }

  lemma {:induction false} SameLineExtendsRun(prefix: seq<LineEntry>, line: int, n: nat)
    requires prefix != [] && prefix[|prefix| - 1].lineNumber == line
    ensures RecordLines(prefix, seq(n, _ => line))
         == prefix[..|prefix| - 1] + [LineEntry(line, prefix[|prefix| - 1].count + n)]
    decreases n
  {
    var k := |prefix| - 1;
    if n == 0 {
      assert prefix == prefix[..k] + [prefix[k]];
    } else {
      var grown := prefix[..k] + [LineEntry(line, prefix[k].count + 1)];
      assert RecordLine(prefix, line) == grown;
      assert seq(n, _ => line)[1..] == seq(n - 1, _ => line);
      SameLineExtendsRun(grown, line, n - 1);
      assert grown[..k] == prefix[..k];
    }
  }

  /** getLine returns the line of byte `index` for every index inside the code, and -1 past its end. */
  lemma {:induction false} LineAtExpand(table: seq<LineEntry>, index: int)
    ensures 0 <= index < |Expand(table)| ==> LineAt(table, index) == Expand(table)[index]
    ensures index >= |Expand(table)| ==> LineAt(table, index) == -1
    ensures index < 0 && table != [] ==> LineAt(table, index) == table[0].lineNumber
    decreases |table|
  {
    if table != [] {
      LineAtExpand(table[1..], index - table[0].count);
    }
  }

  /**
   * A well-formed table is the unique run-length encoding of its expansion:
   * two well-formed tables that give every byte the same line are equal.
   */
  lemma {:induction false} CanonicalTable(t1: seq<LineEntry>, t2: seq<LineEntry>)
    requires WellFormedTable(t1) && WellFormedTable(t2)
    requires Expand(t1) == Expand(t2)
    ensures t1 == t2
    decreases |t1|
  {
    if t1 != [] && t2 != [] {
      var a, b := t1[0], t2[0];
      var e1, e2 := Expand(t1), Expand(t2);
      assert e1[0] == a.lineNumber && e2[0] == b.lineNumber;
      if a.count < b.count {
        FirstOfRest(t1);
        assert false;
      } else if b.count < a.count {
        FirstOfRest(t2);
        assert false;
      }
      assert a == b;
      assert e1 == seq(a.count, _ => a.lineNumber) + Expand(t1[1..]);
      assert e2 == seq(a.count, _ => a.lineNumber) + Expand(t2[1..]);
      assert Expand(t1[1..]) == e1[a.count..] == Expand(t2[1..]);
      CanonicalTable(t1[1..], t2[1..]);
      assert t1 == [a] + t1[1..] && t2 == [b] + t2[1..];
    }
  }

  /** In a well-formed table the byte after the first run starts a run with a different line. */
  lemma FirstOfRest(table: seq<LineEntry>)
    requires WellFormedTable(table) && |table| >= 1
    ensures |table| >= 2 ==> |Expand(table)| > table[0].count
                             && Expand(table)[table[0].count] == table[1].lineNumber != table[0].lineNumber
    ensures |table| == 1 ==> |Expand(table)| == table[0].count
  {
    if |table| >= 2 {
      assert Expand(table[1..]) == seq(table[1].count, _ => table[1].lineNumber) + Expand(table[2..]);
    } else {
      assert table[1..] == [];
    }
  }

  class Chunk {
    // code, count, capacity: the byte buffer; |code| is the allocated capacity.
    var code: seq<byte>
    var count: nat
    var capacity: nat
    // lines, lineCount, lineCapacity: the run-length line table.
    var lines: seq<LineEntry>
    var lineCount: nat
    var lineCapacity: nat
    // constants: the constant pool.
    const constants: ValueArray
    // The bytes written so far, and the line of each: the live prefix of
    // `code` and the line table expanded.
    ghost var written: seq<byte>
    ghost var byteLines: seq<int>

    ghost predicate Valid()
      reads this, constants
    {
      && count <= capacity && |code| == capacity
      && code[..count] == written
      && lineCount <= lineCapacity && |lines| == lineCapacity
      && constants.Valid()
      && WellFormedTable(lines[..lineCount])
      && Expand(lines[..lineCount]) == byteLines
      && |byteLines| == count
    }

    /** The bytes written so far. */
    ghost function Code(): seq<byte>
      reads this
    {
      written
    }

    /** The runs of the line table that are in use. */
    ghost function LineTable(): seq<LineEntry>
      reads this
      requires lineCount <= |lines|
    {
      lines[..lineCount]
    }

    /** The source line of every byte written so far. */
    ghost function Lines(): seq<int>
      reads this
    {
      byteLines
    }

    /** The constants added so far. */
    ghost function Constants(): seq<Value>
      reads this, constants
      requires constants.Valid()
    {
      constants.Contents()
    }

    /** initChunk: empty code, empty line table, empty constant pool. */
    constructor ()
      ensures Valid() && fresh(constants)
      ensures Code() == [] && LineTable() == [] && Constants() == []
      ensures capacity == 0 && lineCapacity == 0
    {
      code, count, capacity := [], 0, 0;
      lines, lineCount, lineCapacity := [], 0, 0;
      written, byteLines := [], [];
      constants := new ValueArray();
    }

    /** freeChunk: release everything and reinitialise. */
    method Free()
      requires Valid()
      modifies this, constants
      ensures Valid()
      ensures Code() == [] && LineTable() == [] && Constants() == []
      ensures capacity == 0 && lineCapacity == 0
    {
      code, count, capacity := [], 0, 0;
      lines, lineCount, lineCapacity := [], 0, 0;
      written, byteLines := [], [];
      constants.Free();
    }

    /**
     * writeChunk: store `b` at code[count] (growing the buffer when full),
     * record its line in the run-length table and bump `count`.
     */
    method WriteChunk(b: byte, line: int)
      requires Valid()
      modifies this
      ensures Valid() && Constants() == old(Constants())
      ensures count == old(count) + 1
      ensures Code() == old(Code()) + [b]
      ensures LineTable() == RecordLine(old(LineTable()), line)
      ensures Lines() == old(Lines()) + [line]
      ensures capacity == if old(capacity) < old(count) + 1 then GrowCapacity(old(capacity)) else old(capacity)
    {
      StoreByte(b);
      RecordLineOfByte(line);
      count := count + 1;
      written, byteLines := written + [b], byteLines + [line];
    }

    /** The first half of writeChunk: grow the code buffer when full and store `b` at code[count]. */
    method StoreByte(b: byte)
      requires count <= capacity && |code| == capacity
      modifies this`code, this`capacity
      ensures count < capacity && |code| == capacity
      ensures code[..count] == old(code[..count]) && code[count] == b
      ensures capacity == if old(capacity) < count + 1 then GrowCapacity(old(capacity)) else old(capacity)
    {
      if capacity < count + 1 {
        var oldCapacity := capacity;
        capacity := GrowCapacity(oldCapacity);
        // realloc leaves the new slots unspecified; they are zero here.
        code := code + seq(capacity - oldCapacity, _ => 0);
      }
      code := code[count := b];
    }

    /** The second half of writeChunk: open a new run or lengthen the last one. */
    method RecordLineOfByte(line: int)
      requires lineCount <= lineCapacity && |lines| == lineCapacity
      requires WellFormedTable(lines[..lineCount])
      modifies this`lines, this`lineCount, this`lineCapacity
      ensures lineCount <= lineCapacity && |lines| == lineCapacity
      ensures lines[..lineCount] == RecordLine(old(lines[..lineCount]), line)
      ensures WellFormedTable(lines[..lineCount])
      ensures Expand(lines[..lineCount]) == Expand(old(lines[..lineCount])) + [line]
    {
      ghost var oldTable := lines[..lineCount];
      RecordLineExpands(oldTable, line);
      RecordLineWellFormed(oldTable, line);
      if lineCount == 0 || lines[lineCount - 1].lineNumber != line {
        if lineCount >= lineCapacity {
          var oldLineCapacity := lineCapacity;
          lineCapacity := GrowCapacity(oldLineCapacity);
          lines := lines + seq(lineCapacity - oldLineCapacity, _ => LineEntry(0, 0));
        }
        lines := lines[lineCount := LineEntry(line, 1)];
        lineCount := lineCount + 1;
        assert lines[..lineCount] == oldTable + [LineEntry(line, 1)];
      } else {
        lines := lines[lineCount - 1 := LineEntry(line, lines[lineCount - 1].count + 1)];
        assert lines[..lineCount] == oldTable[..lineCount - 1] + [LineEntry(line, oldTable[lineCount - 1].count + 1)];
      }
    }

    /**
     * getLine: the line of the byte at `index`, found by subtracting run
     * lengths; -1 when the index is past the written code.
     */
    method GetLine(index: int) returns (line: int)
      requires Valid()
      ensures line == LineAt(LineTable(), index)
      ensures 0 <= index < count ==> line == Lines()[index]
      ensures index >= count ==> line == -1
      ensures index < 0 && count > 0 ==> line == LineTable()[0].lineNumber
    {
      LineAtExpand(lines[..lineCount], index);
      var i := 0;
      var rest := index;
      while i < lineCount
        invariant 0 <= i <= lineCount
        invariant LineAt(lines[i..lineCount], rest) == LineAt(LineTable(), index)
      {
        if rest < lines[i].count {
          return lines[i].lineNumber;
        }
        assert lines[i..lineCount][1..] == lines[i + 1..lineCount];
        rest := rest - lines[i].count;
        i := i + 1;
      }
      return -1;
    }

    /** addConstant: append to the pool and return the new last index. */
    method AddConstant(value: Value) returns (index: int)
      requires Valid()
      modifies constants
      ensures Valid()
      ensures Constants() == old(Constants()) + [value]
      ensures index == |Constants()| - 1 == |old(Constants())|
    {
      constants.Write(value);
      return constants.count - 1;
    }

    /**
     * writeConstant: add the value to the pool, then emit the two-byte form
     * when the index is below 255 and the four-byte little-endian form
     * otherwise, every byte on `line`.
     */
    method WriteConstant(value: Value, line: int)
      requires Valid()
      modifies this, constants
      ensures Valid()
      ensures Constants() == old(Constants()) + [value]
      ensures Code() == old(Code()) + WriteConstantBytes(|old(Constants())|)
      ensures Lines() == old(Lines()) + seq(|WriteConstantBytes(|old(Constants())|)|, _ => line)
    {
      ghost var code0, lines0 := written, byteLines;
      var index := AddConstant(value);
      ghost var bytes := WriteConstantBytes(index);
      SameLine(line);
      if index < 255 {
        Append2(code0, ToByte(OpConstant), index as byte);
        Append2(lines0, line, line);
        WriteChunk(ToByte(OpConstant), line);
        WriteChunk(index as byte, line);
      } else {
        var low, middle, high := Low8(index), Low8(index / 0x100), Low8(index / 0x1_0000);
        assert bytes == [ToByte(OpConstantLong), low, middle, high];
        Append4(code0, ToByte(OpConstantLong), low, middle, high);
        Append4(lines0, line, line, line, line);
        WriteChunk(ToByte(OpConstantLong), line);
        WriteChunk(low, line);
        WriteChunk(middle, line);
        WriteChunk(high, line);
      }
    }
  }
}
