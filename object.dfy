// Heap objects (src/object.hh, src/object.cc): the string hash, the
// constructors of strings, functions, closures and upvalues, and the
// printed form of every object kind.
//
// Objects are Dafny class instances, so pointer identity is reference
// identity. Allocation bookkeeping (allocateObject: the byte count, the
// collector trigger and the link into the object list) is modelled by
// Gc.GC.Trigger and Gc.GC.PlaceObject, which work on object addresses.
module Object {
  import opened Wrappers
  import opened Value
  import Chunks

  // ---------------------------------------------------------------------
  // hashString: 32-bit FNV-1a.

  /** uint32_t, as an integer in range: wrap-around is written out as `% 2^32`. */
  type Uint32 = x: int | 0 <= x < 0x1_0000_0000

  const FnvOffsetBasis: Uint32 := 2166136261
  const FnvPrime: Uint32 := 16777619

  /** `(uint8_t)c`: the low eight bits of a character. */
  function ByteOf(c: char): (b: nat)
    ensures b < 256
  {
    (c as int) % 256
  }

  /** `h ^ b` for a byte b: the high 24 bits of h are kept and the low
      eight are xor-ed with b. */
  function XorByte(h: Uint32, b: nat): (r: Uint32)
    requires b < 256
    ensures r / 256 == h / 256
    ensures r % 256 == (((h % 256) as bv8) ^ (b as bv8)) as int
  {
    var x := (((h % 256) as bv8) ^ (b as bv8)) as int;
    var q := h / 256;
    assert q < 0x100_0000;
    DivMod256(q, x);
    q * 256 + x
  }

  /** Splitting a number into its value above and below 256. */
  lemma DivMod256(q: int, x: int)
    requires 0 <= x < 256
    ensures (q * 256 + x) / 256 == q && (q * 256 + x) % 256 == x
  {
  }

  /** Unsigned 32-bit wrap-around. */
  function Wrap32(x: int): (r: Uint32)
    ensures 0 <= x < 0x1_0000_0000 ==> r == x
  {
    x % 0x1_0000_0000
  }

  /** One round of FNV-1a: `hash ^= (uint8_t)c; hash *= 16777619;`. */
  function FnvStep(h: Uint32, c: char): Uint32
  {
    Wrap32(XorByte(h, ByteOf(c)) * FnvPrime)
  }

  /** The hash reached from h after folding in the characters of s, first to last. */
  function FnvFrom(h: Uint32, s: string): Uint32
    decreases |s|
  {
    if s == [] then h else FnvStep(FnvFrom(h, s[..|s| - 1]), s[|s| - 1])
  }

  function Fnv1a(s: string): Uint32
  {
    FnvFrom(FnvOffsetBasis, s)
  }

  /** Hashing a concatenation continues from the hash of the first part. */
  lemma {:induction false} FnvFromAppend(h: Uint32, s: string, t: string)
    ensures FnvFrom(h, s + t) == FnvFrom(FnvFrom(h, s), t)
    decreases |t|
  {
    if t == [] {
      assert s + t == s;
    } else {
      var t' := t[..|t| - 1];
      assert (s + t)[..|s + t| - 1] == s + t';
      assert (s + t)[|s + t| - 1] == t[|t| - 1];
      FnvFromAppend(h, s, t');
    }
  }

  /** The hash sees only the low byte of each character: texts whose
      bytes agree hash alike. The empty text hashes to the offset basis. */
  lemma {:induction false} FnvSeesBytes(s: string, t: string)
    requires |s| == |t|
    requires forall i :: 0 <= i < |s| ==> ByteOf(s[i]) == ByteOf(t[i])
    ensures Fnv1a(s) == Fnv1a(t)
    ensures s == [] ==> Fnv1a(s) == FnvOffsetBasis
    decreases |s|
  {
    if s != [] {
      FnvSeesBytes(s[..|s| - 1], t[..|t| - 1]);
    }
  }

  /** hashString: the loop over the characters computes Fnv1a. */
  method HashString(s: string) returns (hash: Uint32)
    ensures hash == Fnv1a(s)
  {
    hash := FnvOffsetBasis;
    var i := 0;
    while i < |s|
      invariant 0 <= i <= |s|
      invariant hash == Fnv1a(s[..i])
    {
      assert s[..i + 1][..i] == s[..i];
      ghost var before := hash;
      hash := XorByte(hash, ByteOf(s[i]));
      hash := Wrap32(hash * FnvPrime);
      assert hash == FnvStep(before, s[i]);
      i := i + 1;
    }
    assert s[..i] == s;
  }

  // ---------------------------------------------------------------------
  // Object kinds.

  /** ObjString: the text and its hash, neither of which changes after
      creation. `isMarked` is the header bit the collector sets and the
      hash table's removeWhite reads. */
  class ObjString {
    const str: string
    const hash: Uint32
    var isMarked: bool

    /** newString: store the text and its hash. Every call allocates a new
        object (there is no interning), so equal texts give distinct objects. */
    constructor NewString(s: string)
      ensures str == s && hash == Fnv1a(s) && !isMarked
    {
      var h := HashString(s);
      str := s;
      hash := h;
      isMarked := false;
    }
  }

  /** ObjFunction: arity, number of upvalues, its own chunk and an optional name. */
  class ObjFunction {
    var arity: int
    var upvalueCount: int
    var chunk: Chunks.Chunk
    var name: ObjString?

    /** newFunction: arity 0, no upvalues, no name, an empty chunk. */
    constructor NewFunction()
      ensures arity == 0 && upvalueCount == 0 && name == null
      ensures fresh(chunk) && chunk.Valid() && chunk.count == 0
    {
      arity := 0;
      upvalueCount := 0;
      name := null;
      chunk := new Chunks.Chunk();
    }
  }

  /** Where an upvalue's value lives: a slot of the value stack while it is
      open, its own `closed` field once closed. */
  datatype Location = StackSlot(slot: nat) | OwnClosed

  /** ObjUpvalue: the location, the closed-over value and the next link of
      the virtual machine's list of open upvalues. */
  class ObjUpvalue {
    var location: Location
    var closed: Word
    var next: ObjUpvalue?

    /** newUpvalue: open on the given stack slot, closed value nil, unlinked. */
    constructor NewUpvalue(slot: nat)
      ensures location == StackSlot(slot) && closed == NilVal && next == null
    {
      closed := NilVal;
      location := StackSlot(slot);
      next := null;
    }
  }

  /** ObjClosure: a function with one upvalue slot per captured variable. */
  class ObjClosure {
    var func: ObjFunction
    var upvalues: array<ObjUpvalue?>
    var upvalueCount: int

    /** newClosure: function->upvalueCount slots, all null. */
    constructor NewClosure(func: ObjFunction)
      requires func.upvalueCount >= 0
      ensures this.func == func
      ensures fresh(upvalues) && upvalues.Length == func.upvalueCount
      ensures upvalueCount == func.upvalueCount
      ensures forall i :: 0 <= i < upvalues.Length ==> upvalues[i] == null
    {
      var slots := new ObjUpvalue?[func.upvalueCount];
      var i := 0;
      while i < func.upvalueCount
        invariant 0 <= i <= func.upvalueCount
        invariant forall k :: 0 <= k < i ==> slots[k] == null
      {
        slots[i] := null;
        i := i + 1;
      }
      this.func := func;
      upvalues := slots;
      upvalueCount := func.upvalueCount;
    }
  }

  // ---------------------------------------------------------------------
  // printFunction / printObject.

  /** What printing reads from an object of each kind: the name of the
      function behind a bound method, closure or function (None for the
      top-level script), the name of a class or of an instance's class, and
      a string's characters. */
  datatype ObjView =
    | BoundMethodObj(methodName: Option<string>)
    | ClassObj(className: string)
    | ClosureObj(closureName: Option<string>)
    | FunctionObj(functionName: Option<string>)
    | InstanceObj(instanceClass: string)
    | NativeObj
    | StringObj(chars: string)
    | UpvalueObj

  /** Text written to the stream argument and text written to standard
      output: printObject sends a class's name to standard output instead of
      to the stream it was given. */
  datatype Printed = Printed(os: string, stdout: string)

  /** printFunction: `<script>` for the unnamed top-level function, `<fn name>` otherwise. */
  function PrintFunction(name: Option<string>): (r: string)
    ensures |r| >= 2 && r[0] == '<' && r[|r| - 1] == '>'
    ensures name.None? <==> r == "<script>"
    ensures name.Some? ==> |r| == |name.value| + 5 && r[..4] == "<fn " && r[4..|r| - 1] == name.value
  {
    match name
    case None => "<script>"
    case Some(n) =>
      var r := "<fn " + n + ">";
      assert r[1] == 'f';
      r
  }

  /** Different function names print differently, and no name prints like the script. */
  lemma PrintFunctionInjective(a: Option<string>, b: Option<string>)
    requires PrintFunction(a) == PrintFunction(b)
    ensures a == b
  {
    if a.Some? && b.Some? {
      assert a.value == PrintFunction(a)[4..|PrintFunction(a)| - 1];
    }
  }

  function PrintObject(o: ObjView): (r: Printed)
    ensures !o.ClassObj? ==> r.stdout == ""
    ensures o.ClassObj? ==> r == Printed("", o.className)
    ensures o.BoundMethodObj? ==> r.os == PrintFunction(o.methodName)
    ensures o.ClosureObj? ==> r.os == PrintFunction(o.closureName)
    ensures o.FunctionObj? ==> r.os == PrintFunction(o.functionName)
    ensures o.InstanceObj? ==> r.os == o.instanceClass + " instance"
    ensures o.StringObj? ==> r.os == o.chars
  {
    match o
    case BoundMethodObj(n) => Printed(PrintFunction(n), "")
    case ClassObj(n) => Printed("", n)
    case ClosureObj(n) => Printed(PrintFunction(n), "")
    case FunctionObj(n) => Printed(PrintFunction(n), "")
    case InstanceObj(c) => Printed(c + " instance", "")
    case NativeObj => Printed("<native fn>", "")
    case StringObj(s) => Printed(s, "")
    case UpvalueObj => Printed("upvalue", "")
  }

  /** A bound method, its closure and the closure's function all print alike. */
  lemma CallablesPrintAlike(name: Option<string>)
    ensures PrintObject(BoundMethodObj(name)) == PrintObject(ClosureObj(name))
    ensures PrintObject(ClosureObj(name)) == PrintObject(FunctionObj(name))
    ensures PrintObject(FunctionObj(name)).os != PrintObject(NativeObj).os
  {
    assert PrintObject(NativeObj).os[1] == 'n';
    if name.Some? {
      assert PrintFunction(name)[1] == 'f';
    }
  }
}
