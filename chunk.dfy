// Bytecode chunks (src/chunk.hh, src/chunk.cc): a growable byte buffer
// with one source line per byte and a constant pool.
module Chunks {
  import opened Value
  import Capacity
  import ValArray

  newtype byte = x: int | 0 <= x < 256

  // The opcodes, numbered in the order of the OpCode enumeration of
  // src/chunk.hh. The compiler and the virtual machine also use ZERO,
  // ONE, NOT_EQUAL, NOT_GREATER and NOT_LESS, which that enumeration does
  // not list; they are numbered after it.
  const OP_CONSTANT: byte := 0
  const OP_NIL: byte := 1
  const OP_TRUE: byte := 2
  const OP_FALSE: byte := 3
  const OP_POP: byte := 4
  const OP_GET_LOCAL: byte := 5
  const OP_SET_LOCAL: byte := 6
  const OP_GET_GLOBAL: byte := 7
  const OP_DEFINE_GLOBAL: byte := 8
  const OP_SET_GLOBAL: byte := 9
  const OP_GET_UPVALUE: byte := 10
  const OP_SET_UPVALUE: byte := 11
  const OP_GET_PROPERTY: byte := 12
  const OP_SET_PROPERTY: byte := 13
  const OP_GET_SUPER: byte := 14
  const OP_EQUAL: byte := 15
  const OP_GREATER: byte := 16
  const OP_LESS: byte := 17
  const OP_ADD: byte := 18
  const OP_SUBTRACT: byte := 19
  const OP_MULTIPLY: byte := 20
  const OP_DIVIDE: byte := 21
  const OP_NOT: byte := 22
  const OP_NEGATE: byte := 23
  const OP_PRINT: byte := 24
  const OP_JUMP: byte := 25
  const OP_JUMP_IF_FALSE: byte := 26
  const OP_LOOP: byte := 27
  const OP_CALL: byte := 28
  const OP_INVOKE: byte := 29
  const OP_SUPER_INVOKE: byte := 30
  const OP_CLOSURE: byte := 31
  const OP_CLOSE_UPVALUE: byte := 32
  const OP_RETURN: byte := 33
  const OP_CLASS: byte := 34
  const OP_INHERIT: byte := 35
  const OP_METHOD: byte := 36
  const OP_ZERO: byte := 37
  const OP_ONE: byte := 38
  const OP_NOT_EQUAL: byte := 39
  const OP_NOT_GREATER: byte := 40
  const OP_NOT_LESS: byte := 41

  const Uint16Max: nat := 65535

  /** `(n >> 8) & 0xff`: the high byte of the low 16 bits of n. */
  function HighByte(n: nat): (b: byte)
    ensures b as int == (n / 256) % 256
  {
    ((n / 256) % 256) as byte
  }

  /** `n & 0xff`. */
  function LowByte(n: nat): (b: byte)
    ensures b as int == n % 256
  {
    (n % 256) as byte
  }

  /** `(uint16_t)(hi << 8) | lo`: a big-endian 16-bit operand. */
  function ReadShort(hi: byte, lo: byte): (n: nat)
    ensures n <= Uint16Max
  {
    hi as nat * 256 + lo as nat
  }

  /** Writing a 16-bit quantity high byte first and reading it back gives
      the quantity; a larger one comes back reduced modulo 65536. */
  lemma ShortRoundTrip(n: nat)
    ensures ReadShort(HighByte(n), LowByte(n)) == n % 65536
    ensures n <= Uint16Max ==> ReadShort(HighByte(n), LowByte(n)) == n
  {
  }

  /** Big-endian encoding is injective on 16-bit quantities. */
  lemma ShortEncodingInjective(m: nat, n: nat)
    requires m <= Uint16Max && n <= Uint16Max
    requires HighByte(m) == HighByte(n) && LowByte(m) == LowByte(n)
    ensures m == n
  {
    ShortRoundTrip(m);
    ShortRoundTrip(n);
  }

  class Chunk {
    var count: nat
    var capacity: nat
    var code: array<byte>
    var lines: seq<nat>
    var constants: ValArray.ValueArray

    ghost predicate Valid()
      reads this, constants
    {
      && code.Length == capacity
      && count <= capacity
      && |lines| == count
      && constants.Valid()
      && code as object != constants.values as object
    }

    /** The bytes written so far. */
    ghost function Code(): seq<byte>
      reads this, code
      requires code.Length >= count
    {
      code[..count]
    }

    /** An empty chunk with an empty constant pool. */
    constructor ()
      ensures Valid() && count == 0 && capacity == 0 && lines == []
      ensures fresh(constants) && constants.count == 0
    {
      count, capacity := 0, 0;
      code := new byte[0];
      lines := [];
      constants := new ValArray.ValueArray();
    }

    /** write: append one byte and its line, growing the buffer when full.
        Earlier bytes are kept. */
    method Write(b: byte, line: nat)
      requires Valid()
      modifies this, code
      ensures Valid()
      ensures Code() == old(Code()) + [b]
      ensures lines == old(lines) + [line]
      ensures count == old(count) + 1
      ensures capacity == if old(capacity) < old(count) + 1 then Capacity.GrowCapacity(old(capacity)) else old(capacity)
      ensures code == old(code) || fresh(code)
      ensures constants == old(constants)
    {
      if capacity < count + 1 {
        var oldCapacity := capacity;
        capacity := Capacity.GrowCapacity(oldCapacity);
        code := Capacity.GrowArray(code, count, capacity);
      }
      code[count] := b;
      lines := lines + [line];
      count := count + 1;
    }

    /** add_constant: append to the constant pool and return the index
        the value was stored at. */
    method AddConstant(value: Word) returns (index: nat)
      requires Valid()
      modifies constants, constants.values
      ensures Valid()
      ensures index == old(constants.count)
      ensures constants.Contents() == old(constants.Contents()) + [value]
      ensures constants.Contents()[index] == value
      ensures constants.values == old(constants.values) || fresh(constants.values)
    {
      constants.WriteValueArray(value);
      index := constants.count - 1;
    }

    /** The line of the last byte written (0 for an empty chunk). */
    function LineLast(): nat
      reads this
    {
      if |lines| == 0 then 0 else lines[|lines| - 1]
    }
  }
}
