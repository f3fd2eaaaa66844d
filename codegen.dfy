// Bytecode emission (src/codegen.cc): appending bytes to the current
// chunk, 16-bit constant operands, forward jumps with placeholders that
// are patched once the target is known, backward loops and the implicit
// return. The byte sequences each operation appends or rewrites are
// defined here once and shared with the compiler's own copies of these
// operations (compiler.dfy) and with the virtual machine's decoding of
// jumps (vm.dfy).
module CodeGen {
  import opened Chunks
  import opened Value
  import Errors
  import Contexts

  const TooMuchCode := "Too much code to jump over."
  const LoopTooLarge := "Loop body too large."
  const TooManyConstants := "Too many constants in one chunk."

  /** size_t arithmetic: results are taken modulo 2^64. */
  function Size(x: int): (r: nat)
    ensures r < Contexts.TwoTo64
    ensures 0 <= x < Contexts.TwoTo64 ==> r == x
  {
    x % Contexts.TwoTo64
  }

  /** emitByteConst: the opcode, then the index high byte first. */
  function ConstCode(op: byte, c: nat): seq<byte>
  {
    [op, HighByte(c), LowByte(c)]
  }

  /** emitJump: the opcode and two 0xff placeholders. */
  function JumpCode(op: byte): seq<byte>
  {
    [op, 0xff, 0xff]
  }

  /** The distance patchJump stores: from the byte after the two operand
      bytes at `offset` to the end of the code written so far. */
  function JumpDistance(count: nat, offset: nat): nat
    requires offset + 2 <= count
  {
    count - offset - 2
  }

  /** patchJump on the code written so far: the two bytes at `offset`
      replaced by the distance, big-endian. */
  function Patched(code: seq<byte>, offset: nat): (r: seq<byte>)
    requires offset + 2 <= |code|
  {
    code[offset := HighByte(JumpDistance(|code|, offset))][offset + 1 := LowByte(JumpDistance(|code|, offset))]
  }

  /** The loop offset emitLoop writes, computed once LOOP itself is in the
      chunk (so over count + 1 bytes), as a size_t. */
  function LoopOffset(count: nat, loopStart: int): nat
  {
    Size(count + 1 - loopStart + 2)
  }

  /** emitLoop on a chunk of `count` bytes. */
  function LoopCode(count: nat, loopStart: int): seq<byte>
  {
    [OP_LOOP, HighByte(LoopOffset(count, loopStart)), LowByte(LoopOffset(count, loopStart))]
  }

  /** emitReturn: an initializer returns its receiver (local slot 0),
      everything else returns nil. */
  function ReturnCode(ftype: Contexts.FunctionType): seq<byte>
  {
    if ftype == Contexts.TYPE_INITIALIZER then [OP_GET_LOCAL, 0, OP_RETURN] else [OP_NIL, OP_RETURN]
  }

  // ---------------------------------------------------------------------
  // What the emitted code means.

  /** The constant operand reads back as the index it encodes, for every
      index a 16-bit operand can hold. */
  lemma ConstOperandRoundTrip(op: byte, c: nat)
    requires c <= Uint16Max
    ensures ConstCode(op, c)[0] == op && ReadShort(ConstCode(op, c)[1], ConstCode(op, c)[2]) == c
  {
    ShortRoundTrip(c);
  }

  /** Patching rewrites exactly the two placeholder bytes, and they then
      read back as the distance when it fits in 16 bits. */
  lemma PatchedRewritesOperand(code: seq<byte>, offset: nat)
    requires offset + 2 <= |code|
    ensures |Patched(code, offset)| == |code|
    ensures forall i :: 0 <= i < |code| && i != offset && i != offset + 1 ==> Patched(code, offset)[i] == code[i]
    ensures JumpDistance(|code|, offset) <= Uint16Max ==>
              ReadShort(Patched(code, offset)[offset], Patched(code, offset)[offset + 1]) == JumpDistance(|code|, offset)
  {
    ShortRoundTrip(JumpDistance(|code|, offset));
  }

  /** The loop operand reads back as the distance from the byte after the
      instruction to loopStart, whenever loopStart lies within the code and
      the distance fits in 16 bits. */
  lemma LoopOperandRoundTrip(count: nat, loopStart: int)
    requires 0 <= loopStart <= count && count + 3 - loopStart <= Uint16Max
    ensures ReadShort(LoopCode(count, loopStart)[1], LoopCode(count, loopStart)[2]) == count + 3 - loopStart
  {
    ShortRoundTrip(LoopOffset(count, loopStart));
  }

  // ---------------------------------------------------------------------
  // The code generator.

  class CodeGen {
    var cur: Chunk
    var linenumber: nat
    const err: Errors.ErrorManager

    ghost predicate Valid()
      reads this, cur, cur.constants
    {
      cur.Valid()
    }

    constructor (err: Errors.ErrorManager, cur: Chunk)
      ensures this.err == err && this.cur == cur && linenumber == 0
    {
      this.err := err;
      this.cur := cur;
      linenumber := 0;
    }

    method SetChunk(c: Chunk)
      modifies this
      ensures cur == c && linenumber == old(linenumber)
    {
      cur := c;
    }

    method SetLinenumber(l: nat)
      modifies this
      ensures linenumber == l && cur == old(cur)
    {
      linenumber := l;
    }

    method GetLinenumber() returns (l: nat)
      ensures l == linenumber
    {
      l := linenumber;
    }

    /** get_position: the number of bytes written so far. */
    method GetPosition() returns (p: nat)
      requires Valid()
      ensures p == |cur.Code()|
    {
      p := cur.count;
    }

    /** emitByte: one byte, tagged with the current line number. */
    method EmitByte(b: byte)
      requires Valid()
      modifies cur, cur.code
      ensures Valid() && cur == old(cur) && cur.constants == old(cur.constants)
      ensures cur.Code() == old(cur.Code()) + [b]
      ensures cur.lines == old(cur.lines) + [linenumber]
      ensures cur.code == old(cur.code) || fresh(cur.code)
    {
      cur.Write(b, linenumber);
    }

    method EmitBytes(b1: byte, b2: byte)
      requires Valid()
      modifies cur, cur.code
      ensures Valid() && cur == old(cur) && cur.constants == old(cur.constants)
      ensures cur.Code() == old(cur.Code()) + [b1, b2]
      ensures cur.lines == old(cur.lines) + [linenumber, linenumber]
      ensures cur.code == old(cur.code) || fresh(cur.code)
    {
      EmitByte(b1);
      EmitByte(b2);
    }

    method EmitByteConst(op: byte, c: nat)
      requires Valid()
      modifies cur, cur.code
      ensures Valid() && cur == old(cur) && cur.constants == old(cur.constants)
      ensures cur.Code() == old(cur.Code()) + ConstCode(op, c)
      ensures cur.lines == old(cur.lines) + [linenumber, linenumber, linenumber]
      ensures cur.code == old(cur.code) || fresh(cur.code)
    {
      EmitByte(op);
      EmitByte(HighByte(c));
      EmitByte(LowByte(c));
    }

    /** emitLoop: LOOP and the offset back to loopStart; an offset beyond
        16 bits is reported at the line of the last byte, and its low 16
        bits are written all the same. */
    method EmitLoop(loopStart: int)
      requires Valid()
      modifies cur, cur.code, err
      ensures Valid() && cur == old(cur) && cur.constants == old(cur.constants)
      ensures cur.Code() == old(cur.Code()) + LoopCode(old(cur.count), loopStart)
      ensures cur.lines == old(cur.lines) + [linenumber, linenumber, linenumber]
      ensures cur.code == old(cur.code) || fresh(cur.code)
      ensures err.State() == if LoopOffset(old(cur.count), loopStart) > Uint16Max
                             then Errors.Report(old(err.State()), Errors.LineError(linenumber, LoopTooLarge))
                             else old(err.State())
    {
      EmitByte(OP_LOOP);
      var offset := Size(cur.count - loopStart + 2);
      if offset > Uint16Max {
        err.ErrorAtLine(cur.LineLast(), LoopTooLarge);
      }
      EmitBytes(HighByte(offset), LowByte(offset));
    }

    /** emitJump: the position of the first of the two placeholders. */
    method EmitJump(op: byte) returns (r: int)
      requires Valid()
      modifies cur, cur.code
      ensures Valid() && cur == old(cur) && cur.constants == old(cur.constants)
      ensures cur.Code() == old(cur.Code()) + JumpCode(op)
      ensures cur.lines == old(cur.lines) + [linenumber, linenumber, linenumber]
      ensures cur.code == old(cur.code) || fresh(cur.code)
      ensures r == old(cur.count) + 1 && cur.Code()[r - 1] == op
      ensures cur.Code()[r] == 0xff && cur.Code()[r + 1] == 0xff
    {
      EmitByte(op);
      EmitByte(0xff);
      EmitByte(0xff);
      r := cur.count - 2;
    }

    method EmitReturn(ftype: Contexts.FunctionType)
      requires Valid()
      modifies cur, cur.code
      ensures Valid() && cur == old(cur) && cur.constants == old(cur.constants)
      ensures cur.Code() == old(cur.Code()) + ReturnCode(ftype)
      ensures cur.code == old(cur.code) || fresh(cur.code)
      ensures cur.lines == old(cur.lines) +
                (if ftype == Contexts.TYPE_INITIALIZER then [linenumber, linenumber, linenumber] else [linenumber, linenumber])
    {
      if ftype == Contexts.TYPE_INITIALIZER {
        EmitBytes(OP_GET_LOCAL, 0);
      } else {
        EmitByte(OP_NIL);
      }
      EmitByte(OP_RETURN);
    }

    /** makeConstant: the index the constant pool gave the value; an index
        beyond 16 bits is reported and replaced by 0. */
    method MakeConstant(value: Word) returns (r: nat)
      requires Valid()
      modifies cur.constants, cur.constants.values, err
      ensures Valid()
      ensures cur.constants.Contents() == old(cur.constants.Contents()) + [value]
      ensures cur.constants.values == old(cur.constants.values) || fresh(cur.constants.values)
      ensures old(cur.constants.count) <= Uint16Max ==> r == old(cur.constants.count) && err.State() == old(err.State())
      ensures old(cur.constants.count) > Uint16Max ==>
                r == 0 && err.State() == Errors.Report(old(err.State()), Errors.LineError(linenumber, TooManyConstants))
    {
      var constant := cur.AddConstant(value);
      if constant > Uint16Max {
        err.ErrorAtLine(linenumber, TooManyConstants);
        return 0;
      }
      return constant;
    }

    /** emitConstant: CONSTANT and the index makeConstant gave. */
    method EmitConstant(value: Word)
      requires Valid()
      modifies cur, cur.code, cur.constants, cur.constants.values, err
      ensures Valid() && cur == old(cur) && cur.constants == old(cur.constants)
      ensures cur.constants.Contents() == old(cur.constants.Contents()) + [value]
      ensures cur.Code() == old(cur.Code()) +
                ConstCode(OP_CONSTANT, if old(cur.constants.count) <= Uint16Max then old(cur.constants.count) else 0)
      ensures cur.code == old(cur.code) || fresh(cur.code)
      ensures cur.lines == old(cur.lines) + [linenumber, linenumber, linenumber]
    {
      var c := MakeConstant(value);
      EmitByteConst(OP_CONSTANT, c);
    }

    /** patchJump: overwrite the two placeholders at `offset` with the
        distance to the end of the code; a distance beyond 16 bits is
        reported and its low 16 bits are written. */
    method PatchJump(offset: nat)
      requires Valid() && offset + 2 <= cur.count
      modifies cur.code, err
      ensures Valid()
      ensures cur.Code() == Patched(old(cur.Code()), offset)
      ensures cur.lines == old(cur.lines)
      ensures JumpDistance(cur.count, offset) > Uint16Max ==>
                err.State() == Errors.Report(old(err.State()), Errors.LineError(linenumber, TooMuchCode))
      ensures JumpDistance(cur.count, offset) <= Uint16Max ==> err.State() == old(err.State())
    {
      var jump := cur.count - offset - 2;
      if jump > Uint16Max {
        err.ErrorAtLine(linenumber, TooMuchCode);
      }
      cur.code[offset] := HighByte(jump);
      cur.code[offset + 1] := LowByte(jump);
    }
  }
}
