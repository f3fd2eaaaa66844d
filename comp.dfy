// The older compilation context of src/comp.cc and src/comp.hh: the same
// init and break-context logic as src/context.cc, with every break field
// an `int` and locals named by their token.
module Comp {
  import Object
  import Scanner
  import Contexts

  datatype Local = Local(name: Scanner.Token, depth: int, isCaptured: bool)

  /** The fields save_break_context and restore_break_context touch; all
      three have the type of the saved triple's components. */
  datatype BreakFields = BreakFields(lastContinue: int, lastBreak: int, lastScopeDepth: int)

  function Saved(f: BreakFields): (c: Contexts.BreakContext)
  {
    Contexts.BreakContext(f.lastContinue, f.lastBreak, f.lastScopeDepth)
  }

  function Restored(c: Contexts.BreakContext): BreakFields
  {
    BreakFields(c.continueAt, c.breakAt, c.scopeDepth)
  }

  /** With no conversion in between, save followed by restore is the
      identity, and restore followed by save returns the triple given. */
  lemma SaveRestoreRoundTrip(f: BreakFields, c: Contexts.BreakContext)
    ensures Restored(Saved(f)) == f
    ensures Saved(Restored(c)) == c
  {
  }

  class Compiler {
    var enclosing: Compiler?
    var func: Object.ObjFunction?   // `function` in the source
    var ftype: Contexts.FunctionType
    const locals: array<Local>
    var localCount: int
    const upvalues: array<Contexts.Upvalue>
    var scopeDepth: int
    var lastContinue: int
    var lastBreak: int
    var lastScopeDepth: int
    var enclosingLoop: int

    function Fields(): BreakFields
      reads this
    {
      BreakFields(lastContinue, lastBreak, lastScopeDepth)
    }

    /** A compiler as declared: no enclosing compiler, no function, 256
        locals and upvalues, every counter 0; the starting type is a
        parameter because the field has no initialiser. */
    constructor (initial: Contexts.FunctionType, blank: Scanner.Token)
      ensures enclosing == null && func == null && ftype == initial
      ensures fresh(locals) && locals.Length == Contexts.Uint8Count
      ensures fresh(upvalues) && upvalues.Length == Contexts.Uint8Count
      ensures forall i :: 0 <= i < Contexts.Uint8Count ==> locals[i] == Local(blank, 0, false)
      ensures forall i :: 0 <= i < Contexts.Uint8Count ==> upvalues[i] == Contexts.Upvalue(0, false)
      ensures localCount == 0 && scopeDepth == 0
      ensures lastContinue == 0 && lastBreak == 0 && lastScopeDepth == 0 && enclosingLoop == 0
    {
      enclosing := null;
      func := null;
      ftype := initial;
      locals := new Local[Contexts.Uint8Count](_ => Local(blank, 0, false));
      upvalues := new Contexts.Upvalue[Contexts.Uint8Count](_ => Contexts.Upvalue(0, false));
      localCount := 0;
      scopeDepth := 0;
      lastContinue, lastBreak, lastScopeDepth, enclosingLoop := 0, 0, 0, 0;
    }

    /** init: link to the enclosing compiler, set the type, start a fresh
        function. */
    method Init(enclosing: Compiler?, ftype: Contexts.FunctionType)
      modifies this
      ensures this.enclosing == enclosing && this.ftype == ftype
      ensures func != null && fresh(func)
      ensures func.arity == 0 && func.upvalueCount == 0 && func.name == null
      ensures fresh(func.chunk) && func.chunk.Valid() && func.chunk.count == 0
      ensures localCount == old(localCount) && scopeDepth == old(scopeDepth)
      ensures Fields() == old(Fields()) && enclosingLoop == old(enclosingLoop)
    {
      this.enclosing := enclosing;
      this.ftype := ftype;
      func := new Object.ObjFunction.NewFunction();
    }

    /** save_break_context: return the old triple, then record the scope
        depth. */
    method SaveBreakContext() returns (c: Contexts.BreakContext)
      modifies this
      ensures c == Saved(old(Fields()))
      ensures Fields() == old(Fields()).(lastScopeDepth := old(scopeDepth))
      ensures enclosing == old(enclosing) && func == old(func) && ftype == old(ftype)
      ensures localCount == old(localCount) && scopeDepth == old(scopeDepth) && enclosingLoop == old(enclosingLoop)
    {
      c := Contexts.BreakContext(lastContinue, lastBreak, lastScopeDepth);
      lastScopeDepth := scopeDepth;
    }

    /** restore_break_context: write the three fields from the triple. */
    method RestoreBreakContext(c: Contexts.BreakContext)
      modifies this
      ensures Fields() == Restored(c)
      ensures enclosing == old(enclosing) && func == old(func) && ftype == old(ftype)
      ensures localCount == old(localCount) && scopeDepth == old(scopeDepth) && enclosingLoop == old(enclosingLoop)
    {
      lastContinue := c.continueAt;
      lastBreak := c.breakAt;
      lastScopeDepth := c.scopeDepth;
    }
  }
}
