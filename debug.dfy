// The disassembler of src/debug.cc, reduced to its arithmetic: which
// helper each opcode goes to, how many bytes each instruction takes, the
// target each jump reports, and the walk over a chunk's code from one
// instruction to the next. Everything the helpers print is left out.
module Debug {
  import opened Chunks
  import opened Wrappers
  import CodeGen

  /** The helper disassembleInstruction hands an opcode to. */
  datatype Format =
    | Simple            // simpleInstruction
    | ByteOperand       // byteInstruction
    | ConstantOperand   // constantInstruction
    | Invoke            // invokeInstruction
    | Jump(sign: int)   // jumpInstruction, forwards (+1) or backwards (-1)
    | Closure           // the CLOSURE case
    | Unknown           // the default case

  function FormatOf(op: byte): Format
  {
    if op in {OP_NIL, OP_TRUE, OP_FALSE, OP_POP, OP_EQUAL, OP_GREATER, OP_LESS, OP_ADD, OP_SUBTRACT,
              OP_MULTIPLY, OP_DIVIDE, OP_NOT, OP_NEGATE, OP_PRINT, OP_CLOSE_UPVALUE, OP_RETURN, OP_INHERIT}
    then Simple
    else if op in {OP_GET_LOCAL, OP_SET_LOCAL, OP_GET_UPVALUE, OP_SET_UPVALUE, OP_CALL} then ByteOperand
    else if op in {OP_CONSTANT, OP_GET_GLOBAL, OP_DEFINE_GLOBAL, OP_SET_GLOBAL, OP_GET_PROPERTY,
                   OP_SET_PROPERTY, OP_GET_SUPER, OP_CLASS, OP_METHOD}
    then ConstantOperand
    else if op == OP_INVOKE || op == OP_SUPER_INVOKE then Invoke
    else if op == OP_JUMP || op == OP_JUMP_IF_FALSE then Jump(1)
    else if op == OP_LOOP then Jump(-1)
    else if op == OP_CLOSURE then Closure
    else Unknown
  }

  /** get_code(i) on the bytes written so far. The source does not check
      the index; a byte past the written ones is read here as 0. */
  function CodeAt(code: seq<byte>, i: int): byte
  {
    if 0 <= i < |code| then code[i] else 0
  }

  /** The 16-bit operand of the jump at `offset`, high byte first. */
  function JumpOperand(code: seq<byte>, offset: nat): nat
  {
    ReadShort(CodeAt(code, offset + 1), CodeAt(code, offset + 2))
  }

  /** The target jumpInstruction reports: the offset of the byte after the
      instruction, moved by the operand in the direction of `sign`. */
  function JumpTarget(code: seq<byte>, offset: nat, sign: int): int
  {
    offset + 3 + sign * JumpOperand(code, offset)
  }

  /** The number of bytes the instruction at `offset` occupies.
      `upvalues(c)` is the upvalue count of the function stored as
      constant c, which is what the CLOSURE case reads from the pool. */
  function Length(code: seq<byte>, offset: nat, upvalues: byte -> nat): nat
  {
    match FormatOf(CodeAt(code, offset))
    case Simple => 1
    case Unknown => 1
    case ByteOperand => 2
    case ConstantOperand => 2
    case Invoke => 3
    case Jump(_) => 3
    case Closure => 2 + 2 * upvalues(CodeAt(code, offset + 1))
  }

  /** Every instruction takes at least its opcode byte, so the walk always
      advances; and only CLOSURE takes a length that depends on anything
      but the opcode. */
  lemma LengthPositive(code: seq<byte>, offset: nat, upvalues: byte -> nat)
    ensures Length(code, offset, upvalues) >= 1
    ensures FormatOf(CodeAt(code, offset)) != Closure ==> Length(code, offset, upvalues) <= 3
  {
  }

  /** The offsets disassembleChunk visits, starting from `from`. */
  function Walk(code: seq<byte>, from: nat, upvalues: byte -> nat): seq<nat>
    decreases |code| - from
  {
    if from >= |code| then []
    else LengthPositive(code, from, upvalues);
         [from] + Walk(code, from + Length(code, from, upvalues), upvalues)
  }

  /** One step of the walk. */
  lemma WalkStep(code: seq<byte>, from: nat, upvalues: byte -> nat)
    requires from < |code|
    ensures Length(code, from, upvalues) >= 1
    ensures Walk(code, from, upvalues) == [from] + Walk(code, from + Length(code, from, upvalues), upvalues)
  {
    LengthPositive(code, from, upvalues);
  }

  /** The walk visits strictly increasing offsets inside the code, starts
      where it was asked to (when that is inside the code), and goes from
      each instruction to the one right after it. */
  lemma {:induction false} WalkIsOrdered(code: seq<byte>, from: nat, upvalues: byte -> nat)
    ensures forall k :: 0 <= k < |Walk(code, from, upvalues)| ==> from <= Walk(code, from, upvalues)[k] < |code|
    ensures forall k :: 0 <= k < |Walk(code, from, upvalues)| - 1 ==>
              Walk(code, from, upvalues)[k + 1] == Walk(code, from, upvalues)[k] + Length(code, Walk(code, from, upvalues)[k], upvalues)
    ensures forall k, l :: 0 <= k < l < |Walk(code, from, upvalues)| ==> Walk(code, from, upvalues)[k] < Walk(code, from, upvalues)[l]
    ensures from < |code| <==> |Walk(code, from, upvalues)| > 0
    ensures from < |code| ==> Walk(code, from, upvalues)[0] == from
    decreases |code| - from
  {
    if from < |code| {
      LengthPositive(code, from, upvalues);
      var next := from + Length(code, from, upvalues);
      WalkIsOrdered(code, next, upvalues);
      var w := Walk(code, from, upvalues);
      assert w == [from] + Walk(code, next, upvalues);
      forall k, l | 0 <= k < l < |w|
        ensures w[k] < w[l]
      {
        if k > 0 {
          assert w[k] == Walk(code, next, upvalues)[k - 1];
        }
        assert w[l] == Walk(code, next, upvalues)[l - 1];
      }
    }
  }

  /** The last instruction the walk visits ends at or past the end of the
      code; no instruction start beyond it is visited. */
  lemma {:induction false} WalkEndsPastCode(code: seq<byte>, from: nat, upvalues: byte -> nat)
    requires from < |code|
    ensures var w := Walk(code, from, upvalues);
            |w| > 0 && w[|w| - 1] + Length(code, w[|w| - 1], upvalues) >= |code|
    decreases |code| - from
  {
    WalkStep(code, from, upvalues);
    var next := from + Length(code, from, upvalues);
    var rest := Walk(code, next, upvalues);
    var w := Walk(code, from, upvalues);
    if next < |code| {
      WalkEndsPastCode(code, next, upvalues);
      assert w[|w| - 1] == rest[|rest| - 1];
    } else {
      assert rest == [];
      assert w == [from];
    }
  }

  // ---------------------------------------------------------------------
  // The disassembler proper.

  /** get_code on a chunk, with the same default as CodeAt. */
  method GetCode(chunk: Chunk, i: int) returns (b: byte)
    requires chunk.Valid()
    ensures b == CodeAt(chunk.Code(), i)
  {
    if 0 <= i < chunk.count {
      b := chunk.code[i];
    } else {
      b := 0;
    }
  }

  /** disassembleInstruction: the offset of the next instruction, and the
      target a jump reports. */
  method DisassembleInstruction(chunk: Chunk, offset: nat, upvalues: byte -> nat) returns (next: nat, target: Option<int>)
    requires chunk.Valid()
    ensures next == offset + Length(chunk.Code(), offset, upvalues)
    ensures FormatOf(CodeAt(chunk.Code(), offset)).Jump? <==> target.Some?
    ensures FormatOf(CodeAt(chunk.Code(), offset)).Jump? ==>
              target == Some(JumpTarget(chunk.Code(), offset, FormatOf(CodeAt(chunk.Code(), offset)).sign))
  {
    var instruction := GetCode(chunk, offset);
    target := None;
    var format := FormatOf(instruction);
    match format {
      case Simple => next := offset + 1;
      case Unknown => next := offset + 1;
      case ByteOperand => next := offset + 2;
      case ConstantOperand => next := offset + 2;
      case Invoke => next := offset + 3;
      case Jump(sign) =>
        var hi := GetCode(chunk, offset + 1);
        var lo := GetCode(chunk, offset + 2);
        var jump := ReadShort(hi, lo);
        target := Some(offset + 3 + sign * jump);
        next := offset + 3;
      case Closure =>
        next := offset + 1;
        var constant := GetCode(chunk, next);
        next := next + 1;
        var j := 0;
        while j < upvalues(constant)
          invariant 0 <= j <= upvalues(constant)
          invariant next == offset + 2 + 2 * j
        {
          // each upvalue is described by its isLocal byte and its index
          next := next + 2;
          j := j + 1;
        }
    }
  }

  /** disassembleChunk: the offsets of the instructions it lists, in the
      order it lists them. */
  method DisassembleChunk(chunk: Chunk, upvalues: byte -> nat) returns (offsets: seq<nat>)
    requires chunk.Valid()
    ensures offsets == Walk(chunk.Code(), 0, upvalues)
  {
    offsets := [];
    var offset: nat := 0;
    ghost var code := chunk.Code();
    while offset < chunk.count
      invariant offsets + Walk(code, offset, upvalues) == Walk(code, 0, upvalues)
      decreases chunk.count - offset
    {
      WalkStep(code, offset, upvalues);
      var next, target := DisassembleInstruction(chunk, offset, upvalues);
      Regroup(offsets, offset, Walk(code, next, upvalues));
      offsets, offset := offsets + [offset], next;
    }
  }

  lemma Regroup(done: seq<nat>, x: nat, rest: seq<nat>)
    ensures done + ([x] + rest) == (done + [x]) + rest
  {
  }

  // ---------------------------------------------------------------------
  // The targets reported for the code the compiler emits.

  /** A forward jump patched when the code had `|code|` bytes reports
      exactly that position as its target. */
  lemma PatchedJumpTarget(code: seq<byte>, offset: nat)
    requires 1 <= offset && offset + 2 <= |code|
    requires code[offset - 1] == OP_JUMP || code[offset - 1] == OP_JUMP_IF_FALSE
    requires CodeGen.JumpDistance(|code|, offset) <= Uint16Max
    ensures FormatOf(CodeAt(CodeGen.Patched(code, offset), offset - 1)) == Jump(1)
    ensures JumpTarget(CodeGen.Patched(code, offset), offset - 1, 1) == |code|
  {
    CodeGen.PatchedRewritesOperand(code, offset);
  }

  /** A loop emitted at the end of the code reports its loop start as its
      target. */
  lemma LoopTarget(code: seq<byte>, loopStart: int)
    requires 0 <= loopStart <= |code| && |code| + 3 - loopStart <= Uint16Max
    ensures FormatOf(CodeAt(code + CodeGen.LoopCode(|code|, loopStart), |code|)) == Jump(-1)
    ensures JumpTarget(code + CodeGen.LoopCode(|code|, loopStart), |code|, -1) == loopStart
  {
    var full := code + CodeGen.LoopCode(|code|, loopStart);
    assert full[|code|..] == CodeGen.LoopCode(|code|, loopStart);
    CodeGen.LoopOperandRoundTrip(|code|, loopStart);
  }
}
