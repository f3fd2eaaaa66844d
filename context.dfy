// The per-function compilation context of src/context.cc and
// src/context.hh: the enclosing context, the function being compiled, the
// fixed arrays of 256 locals and upvalues, and the break/continue
// bookkeeping that loops save and restore as a triple.
module Contexts {
  import Object
  import Chunks

  /** UINT8_COUNT: the size of the locals and upvalues arrays. */
  const Uint8Count: nat := 256

  /** A local variable: its name, its scope depth (-1 while its
      initialiser is being compiled) and whether a closure captures it. */
  datatype Local = Local(name: string, depth: int, isCaptured: bool)

  /** An upvalue: the slot it refers to and whether that slot is a local of
      the immediately enclosing function (otherwise one of its upvalues). */
  datatype Upvalue = Upvalue(index: Chunks.byte, isLocal: bool)

  datatype FunctionType = TYPE_FUNCTION | TYPE_INITIALIZER | TYPE_METHOD | TYPE_SCRIPT

  // ---------------------------------------------------------------------
  // Break contexts. The saved triple is a tuple of three `int`s, while
  // last_continue and last_break are `size_t`: saving narrows them to
  // 32 bits and restoring widens the stored `int` back to `size_t`.

  const TwoTo31: int := 0x8000_0000
  const TwoTo32: int := 0x1_0000_0000
  const TwoTo64: int := 0x1_0000_0000_0000_0000

  /** size_t to int: the value modulo 2^32, read as a signed number. */
  function ToInt(x: nat): (i: int)
    ensures -TwoTo31 <= i < TwoTo31
    ensures x < TwoTo31 ==> i == x
  {
    var r := x % TwoTo32;
    if r < TwoTo31 then r else r - TwoTo32
  }

  /** int to size_t: the value modulo 2^64. */
  function ToSize(i: int): (x: nat)
    ensures x < TwoTo64
    ensures 0 <= i < TwoTo64 ==> x == i
  {
    i % TwoTo64
  }

  /** BreakContext: (last_continue, last_break, last_scope_depth). */
  datatype BreakContext = BreakContext(continueAt: int, breakAt: int, scopeDepth: int)

  /** The fields save_break_context and restore_break_context touch. */
  datatype BreakFields = BreakFields(lastContinue: nat, lastBreak: nat, lastScopeDepth: int)

  function Saved(f: BreakFields): BreakContext
  {
    BreakContext(ToInt(f.lastContinue), ToInt(f.lastBreak), f.lastScopeDepth)
  }

  function Restored(c: BreakContext): BreakFields
  {
    BreakFields(ToSize(c.continueAt), ToSize(c.breakAt), c.scopeDepth)
  }

  /** Restoring what was saved gives back every field that fits in an
      `int`; saving itself changes only last_scope_depth. */
  lemma SaveRestoreRoundTrip(f: BreakFields, scopeDepth: int)
    requires f.lastContinue < TwoTo31 && f.lastBreak < TwoTo31
    ensures Restored(Saved(f)) == f
    ensures Restored(Saved(f.(lastScopeDepth := scopeDepth))).lastScopeDepth == scopeDepth
  {
  }

  /** A jump position of 2^31 or more does not survive the round trip: it
      comes back as a different `size_t`. */
  lemma LargePositionsNarrow(f: BreakFields)
    requires TwoTo31 <= f.lastContinue < TwoTo32
    ensures Restored(Saved(f)).lastContinue == TwoTo64 + f.lastContinue - TwoTo32
    ensures Restored(Saved(f)).lastContinue != f.lastContinue
  {
  }

  class Context {
    var enclosing: Context?
    var func: Object.ObjFunction?   // `function` in the source
    var ftype: FunctionType
    const locals: array<Local>
    var localCount: int
    const upvalues: array<Upvalue>
    var scopeDepth: int
    var lastContinue: nat
    var lastBreak: nat
    var lastScopeDepth: int
    var enclosingLoop: int

    function Fields(): BreakFields
      reads this
    {
      BreakFields(lastContinue, lastBreak, lastScopeDepth)
    }

    /** A context as declared: no enclosing context and no function yet,
        256 default locals and upvalues, every counter 0. `type` has no
        initialiser, so its starting value is a parameter. */
    constructor (initial: FunctionType)
      ensures enclosing == null && func == null && ftype == initial
      ensures fresh(locals) && locals.Length == Uint8Count
      ensures fresh(upvalues) && upvalues.Length == Uint8Count
      ensures forall i :: 0 <= i < Uint8Count ==> locals[i] == Local("", 0, false)
      ensures forall i :: 0 <= i < Uint8Count ==> upvalues[i] == Upvalue(0, false)
      ensures localCount == 0 && scopeDepth == 0
      ensures lastContinue == 0 && lastBreak == 0 && lastScopeDepth == 0 && enclosingLoop == 0
    {
      enclosing := null;
      func := null;
      ftype := initial;
      locals := new Local[Uint8Count](_ => Local("", 0, false));
      upvalues := new Upvalue[Uint8Count](_ => Upvalue(0, false));
      localCount := 0;
      scopeDepth := 0;
      lastContinue, lastBreak, lastScopeDepth, enclosingLoop := 0, 0, 0, 0;
    }

    /** init: link to the enclosing context, set the function type and
        start a fresh function; nothing else changes. */
    method Init(enclosing: Context?, ftype: FunctionType)
      modifies this
      ensures this.enclosing == enclosing && this.ftype == ftype
      ensures func != null && fresh(func)
      ensures func.arity == 0 && func.upvalueCount == 0 && func.name == null
      ensures fresh(func.chunk) && func.chunk.Valid() && func.chunk.count == 0
      ensures localCount == old(localCount) && scopeDepth == old(scopeDepth)
      ensures Fields() == old(Fields()) && enclosingLoop == old(enclosingLoop)
    {
      this.enclosing := enclosing;
      this.ftype := ftype;
      func := new Object.ObjFunction.NewFunction();
    }

    /** save_break_context: return the triple as it was, then record the
        current scope depth as last_scope_depth. */
    method SaveBreakContext() returns (c: BreakContext)
      modifies this
      ensures c == Saved(old(Fields()))
      ensures Fields() == old(Fields()).(lastScopeDepth := old(scopeDepth))
      ensures enclosing == old(enclosing) && func == old(func) && ftype == old(ftype)
      ensures localCount == old(localCount) && scopeDepth == old(scopeDepth) && enclosingLoop == old(enclosingLoop)
    {
      c := BreakContext(ToInt(lastContinue), ToInt(lastBreak), lastScopeDepth);
      lastScopeDepth := scopeDepth;
    }

    /** restore_break_context: write the three fields back from the triple. */
    method RestoreBreakContext(c: BreakContext)
      modifies this
      ensures Fields() == Restored(c)
      ensures enclosing == old(enclosing) && func == old(func) && ftype == old(ftype)
      ensures localCount == old(localCount) && scopeDepth == old(scopeDepth) && enclosingLoop == old(enclosingLoop)
    {
      lastContinue := ToSize(c.continueAt);
      lastBreak := ToSize(c.breakAt);
      lastScopeDepth := c.scopeDepth;
    }
  }
}
