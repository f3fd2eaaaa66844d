// The single-pass compiler's code emission and its resolution of local
// variables and upvalues (src/compiler.cc). Bytes go to the chunk of the
// function being compiled (`currentChunk()`), tagged with the line of the
// parser's previous token; every error is reported at the line of the last
// byte of that chunk. Locals and upvalues live in the fixed 256-entry
// arrays of a compilation context.
module Compiler {
  import opened Chunks
  import opened Value
  import opened Wrappers
  import Scanner
  import Errors
  import Contexts
  import Object
  import CodeGen

  type Local = Contexts.Local
  type Upvalue = Contexts.Upvalue

  const LocalInOwnInitializer := "Can't read local variable in its own initializer."
  const TooManyClosureVariables := "Too many closure variables in function."
  const TooManyLocals := "Too many local variables in function."
  const AlreadyDeclared := "Already a variable with this name in this scope."

  /** A context from init on: its fixed arrays, counters that stay within
      them, and the function being compiled. */
  ghost predicate ContextOk(c: Contexts.Context)
    reads c, c.func
  {
    && c.locals.Length == Contexts.Uint8Count
    && c.upvalues.Length == Contexts.Uint8Count
    && 0 <= c.localCount <= Contexts.Uint8Count
    && c.func != null
    && 0 <= c.func.upvalueCount <= Contexts.Uint8Count
  }

  // ---------------------------------------------------------------------
  // Locals.

  /** resolveLocal's answer: the highest index holding the name, or -1. */
  function LastIndexOf(locals: seq<Local>, name: string): (r: int)
    ensures -1 <= r < |locals|
    ensures r == -1 <==> forall i :: 0 <= i < |locals| ==> locals[i].name != name
    ensures r >= 0 ==> locals[r].name == name && forall i :: r < i < |locals| ==> locals[i].name != name
  {
    if locals == [] then -1
    else if locals[|locals| - 1].name == name then |locals| - 1
    else LastIndexOf(locals[..|locals| - 1], name)
  }

  /** How many locals adjust_locals keeps: it drops trailing locals while
      they are deeper than `depth`. */
  function Kept(locals: seq<Local>, depth: int): (k: nat)
    ensures k <= |locals|
    ensures k == 0 || locals[k - 1].depth <= depth
    ensures forall i :: k <= i < |locals| ==> locals[i].depth > depth
  {
    if locals == [] || locals[|locals| - 1].depth <= depth then |locals|
    else Kept(locals[..|locals| - 1], depth)
  }

  /** The byte adjust_locals emits for one dropped local. */
  function PopOp(l: Local): byte
  {
    if l.isCaptured then OP_CLOSE_UPVALUE else OP_POP
  }

  /** The bytes adjust_locals emits while dropping the locals from the
      innermost one down to index n. */
  function PopsDown(locals: seq<Local>, n: nat): seq<byte>
    decreases |locals| - n
  {
    if n >= |locals| then [] else PopsDown(locals, n + 1) + [PopOp(locals[n])]
  }

  /** Where adjust_locals' loop stops is the count Kept describes. */
  lemma {:induction false} KeptIsWhereScanStops(locals: seq<Local>, depth: int, n: nat)
    requires n <= |locals|
    requires n == 0 || locals[n - 1].depth <= depth
    requires forall i :: n <= i < |locals| ==> locals[i].depth > depth
    ensures Kept(locals, depth) == n
  {
    if n < |locals| {
      var front := locals[..|locals| - 1];
      KeptIsWhereScanStops(front, depth, n);
    }
  }

  /** One byte per dropped local, the innermost first: a captured local is
      closed (its value moves off the stack), any other is popped. */
  lemma {:induction false} PopsDownMatchDropped(locals: seq<Local>, n: nat)
    requires n <= |locals|
    ensures |PopsDown(locals, n)| == |locals| - n
    ensures forall j :: 0 <= j < |locals| - n ==> PopsDown(locals, n)[j] == PopOp(locals[|locals| - 1 - j])
    decreases |locals| - n
  {
    if n < |locals| {
      PopsDownMatchDropped(locals, n + 1);
    }
  }

  /** The locals of the innermost scope: those above the last local that is
      initialised and belongs to an enclosing scope. */
  function ScopeStart(locals: seq<Local>, scopeDepth: int): (s: nat)
    ensures s <= |locals|
    ensures s == 0 || (locals[s - 1].depth != -1 && locals[s - 1].depth < scopeDepth)
    ensures forall i :: s <= i < |locals| ==> locals[i].depth == -1 || locals[i].depth >= scopeDepth
  {
    if locals == [] then 0
    else if locals[|locals| - 1].depth != -1 && locals[|locals| - 1].depth < scopeDepth then |locals|
    else ScopeStart(locals[..|locals| - 1], scopeDepth)
  }

  /** declareVariable's duplicate test, as its loop makes it: scanning down
      from the innermost local until one that is initialised and belongs to
      an enclosing scope, some local has the name. */
  predicate DeclaredInScope(locals: seq<Local>, scopeDepth: int, name: string)
  {
    if locals == [] then false
    else
      var l := locals[|locals| - 1];
      if l.depth != -1 && l.depth < scopeDepth then false
      else l.name == name || DeclaredInScope(locals[..|locals| - 1], scopeDepth, name)
  }

  /** The test is exactly: some local of the innermost scope has the name. */
  lemma {:induction false} DeclaredInScopeMeans(locals: seq<Local>, scopeDepth: int, name: string)
    ensures DeclaredInScope(locals, scopeDepth, name) <==>
              exists i :: ScopeStart(locals, scopeDepth) <= i < |locals| && locals[i].name == name
  {
    if locals != [] {
      var l := locals[|locals| - 1];
      var front := locals[..|locals| - 1];
      if !(l.depth != -1 && l.depth < scopeDepth) {
        DeclaredInScopeMeans(front, scopeDepth, name);
        assert ScopeStart(locals, scopeDepth) == ScopeStart(front, scopeDepth);
        if DeclaredInScope(locals, scopeDepth, name) && l.name != name {
          var i :| ScopeStart(front, scopeDepth) <= i < |front| && front[i].name == name;
          assert locals[i] == front[i];
        }
        if exists i :: ScopeStart(locals, scopeDepth) <= i < |locals| && locals[i].name == name {
          var i :| ScopeStart(locals, scopeDepth) <= i < |locals| && locals[i].name == name;
          if i < |front| {
            assert front[i] == locals[i];
          }
        }
      }
    }
  }

  // ---------------------------------------------------------------------
  // Upvalues.

  /** The first index holding the upvalue, or -1. */
  function IndexOf(ups: seq<Upvalue>, u: Upvalue): (r: int)
    ensures -1 <= r < |ups|
    ensures r == -1 <==> u !in ups
    ensures r >= 0 ==> ups[r] == u && u !in ups[..r]
  {
    if ups == [] then -1
    else if ups[0] == u then 0
    else
      var r := IndexOf(ups[1..], u);
      assert ups[1..][..if r < 0 then 0 else r] == ups[1..1 + if r < 0 then 0 else r];
      if r == -1 then -1 else 1 + r
  }

  /** No upvalue appears twice. */
  predicate Distinct(ups: seq<Upvalue>)
  {
    forall i, j :: 0 <= i < j < |ups| ==> ups[i] != ups[j]
  }

  /** What addUpvalue leaves behind: the index it returns, the upvalue
      array, the function's upvalue count and the error state. */
  datatype Added = Added(index: int, slots: seq<Upvalue>, count: nat, errors: Errors.ErrorState)

  /** addUpvalue on the upvalue array `slots` of which `count` are in use,
      reporting at `line`. */
  function AddUpvalueSpec(slots: seq<Upvalue>, count: nat, u: Upvalue, e: Errors.ErrorState, line: int): (a: Added)
    requires count <= |slots| == Contexts.Uint8Count
    ensures |a.slots| == |slots| && a.count <= Contexts.Uint8Count
    ensures 0 <= a.index < Contexts.Uint8Count
    ensures u in slots[..count] ==> a == Added(IndexOf(slots[..count], u), slots, count, e)
    ensures u !in slots[..count] && count == Contexts.Uint8Count ==>
              a == Added(0, slots, count, Errors.Report(e, Errors.LineError(line, TooManyClosureVariables)))
    ensures u !in slots[..count] && count < Contexts.Uint8Count ==>
              a == Added(count, slots[count := u], count + 1, e)
  {
    var found := IndexOf(slots[..count], u);
    if found != -1 then Added(found, slots, count, e)
    else if count == Contexts.Uint8Count then
      Added(0, slots, count, Errors.Report(e, Errors.LineError(line, TooManyClosureVariables)))
    else Added(count, slots[count := u], count + 1, e)
  }

  /** Unless the array is full, the upvalue is in use at the index returned
      afterwards; the ones in use before are kept, and no upvalue in use
      ever appears twice. */
  lemma AddUpvalueDeduplicates(slots: seq<Upvalue>, count: nat, u: Upvalue, e: Errors.ErrorState, line: int)
    requires count <= |slots| == Contexts.Uint8Count
    requires Distinct(slots[..count])
    ensures var a := AddUpvalueSpec(slots, count, u, e, line);
      && a.slots[..count] == slots[..count]
      && Distinct(a.slots[..a.count])
      && (u in slots[..count] || count < Contexts.Uint8Count ==> a.index < a.count && a.slots[a.index] == u)
  {
    var a := AddUpvalueSpec(slots, count, u, e, line);
    if u !in slots[..count] && count < Contexts.Uint8Count {
      assert a.slots[..a.count] == slots[..count] + [u];
    }
  }

  // ---------------------------------------------------------------------
  // Resolving a name through the enclosing functions.

  /** What resolution reads and writes of one context: its locals and
      upvalues arrays with their counts. */
  datatype View = View(locals: seq<Local>, localCount: int, upvalues: seq<Upvalue>, upvalueCount: int)

  ghost predicate ViewOk(v: View)
  {
    |v.locals| == Contexts.Uint8Count && |v.upvalues| == Contexts.Uint8Count &&
    0 <= v.localCount <= Contexts.Uint8Count && 0 <= v.upvalueCount <= Contexts.Uint8Count
  }

  /** What resolveUpvalue leaves behind: the index it returns, the views
      of every context of the chain, and the error state. */
  datatype Resolved = Resolved(index: int, views: seq<View>, errors: Errors.ErrorState)

  ghost predicate ViewsOk(vs: seq<View>)
  {
    forall k :: 0 <= k < |vs| ==> ViewOk(vs[k])
  }

  /** A view with the upvalues addUpvalue left. */
  function WithUpvalues(v: View, a: Added): View
  {
    v.(upvalues := a.slots, upvalueCount := a.count)
  }

  /** A view with local `local` marked captured. */
  function MarkCaptured(v: View, local: nat): (w: View)
    requires local < |v.locals|
    ensures |w.locals| == |v.locals| && w.localCount == v.localCount && w.upvalues == v.upvalues
  {
    v.(locals := v.locals[local := v.locals[local].(isCaptured := true)])
  }

  /** addUpvalue on the context of view vs[i]: the index it returns, the
      views with that context's upvalues updated, and the error state. */
  ghost function AddedTo(vs: seq<View>, i: nat, u: Upvalue, e: Errors.ErrorState, line: int): (res: Resolved)
    requires i < |vs| && ViewsOk(vs)
    ensures |res.views| == |vs| && ViewsOk(res.views)
    ensures forall k :: 0 <= k < |vs| && k != i ==> res.views[k] == vs[k]
    ensures 0 <= res.index < Contexts.Uint8Count
  {
    assert ViewOk(vs[i]);
    var a := AddUpvalueSpec(vs[i].upvalues, vs[i].upvalueCount, u, e, line);
    Resolved(a.index, vs[i := WithUpvalues(vs[i], a)], a.errors)
  }

  /** resolveUpvalue on vs[i] once local `local` of the enclosing vs[i + 1]
      holds the name: that local is captured and becomes an upvalue of
      vs[i]. */
  ghost function CaptureSpec(vs: seq<View>, i: nat, local: nat, e: Errors.ErrorState, line: int): (res: Resolved)
    requires i + 1 < |vs| && ViewsOk(vs) && local < vs[i + 1].localCount
    ensures |res.views| == |vs| && ViewsOk(res.views)
    ensures forall k :: 0 <= k < i ==> res.views[k] == vs[k]
    ensures 0 <= res.index < Contexts.Uint8Count
  {
    assert ViewOk(vs[i + 1]);
    AddedTo(vs[i + 1 := MarkCaptured(vs[i + 1], local)], i, Contexts.Upvalue(local as byte, true), e, line)
  }

  /** resolveUpvalue on vs[i] once the enclosing context has answered
      `outer`: an upvalue found there becomes an upvalue of vs[i]. */
  ghost function OutwardSpec(vs: seq<View>, i: nat, outer: Resolved, line: int): (res: Resolved)
    requires i < |vs| && |outer.views| == |vs| && ViewsOk(outer.views)
    requires -1 <= outer.index < Contexts.Uint8Count
    ensures |res.views| == |vs| && ViewsOk(res.views)
    ensures forall k :: 0 <= k < |vs| && k != i ==> res.views[k] == outer.views[k]
    ensures -1 <= res.index < Contexts.Uint8Count
  {
    if outer.index == -1 then outer
    else AddedTo(outer.views, i, Contexts.Upvalue(outer.index as byte, false), outer.errors, line)
  }

  /** The error state once resolveLocal has looked for the name in view v. */
  function AfterLookup(v: View, name: string, e: Errors.ErrorState, line: int): Errors.ErrorState
    requires 0 <= v.localCount <= |v.locals|
  {
    var local := LastIndexOf(v.locals[..v.localCount], name);
    if local >= 0 && v.locals[local].depth == -1
    then Errors.Report(e, Errors.LineError(line, LocalInOwnInitializer)) else e
  }

  /** resolveUpvalue on vs[i], whose enclosing contexts are vs[i + 1..]:
      the name is looked up among the locals of the enclosing context,
      which is then captured; failing that, among its upvalues,
      recursively. The contexts inside vs[i] are left alone. */
  ghost function ResolveFrom(vs: seq<View>, i: nat, name: string, e: Errors.ErrorState, line: int): (res: Resolved)
    requires i < |vs| && ViewsOk(vs)
    ensures |res.views| == |vs| && ViewsOk(res.views)
    ensures forall k :: 0 <= k < i ==> res.views[k] == vs[k]
    ensures -1 <= res.index < Contexts.Uint8Count
    decreases |vs| - i
  {
    if i == |vs| - 1 then Resolved(-1, vs, e)
    else
      assert ViewOk(vs[i + 1]);
      var local := LastIndexOf(vs[i + 1].locals[..vs[i + 1].localCount], name);
      var e1 := AfterLookup(vs[i + 1], name, e, line);
      if local != -1 then CaptureSpec(vs, i, local, e1, line)
      else OutwardSpec(vs, i, ResolveFrom(vs, i + 1, name, e1, line), line)
  }

  /** No local in use has the name when resolveLocal finds none. */
  lemma NoneInPrefix(locals: seq<Local>, count: nat, name: string)
    requires count <= |locals| && LastIndexOf(locals[..count], name) == -1
    ensures forall i :: 0 <= i < count ==> locals[i].name != name
  {
    forall i | 0 <= i < count
      ensures locals[i].name != name
    {
      assert locals[..count][i] == locals[i];
    }
  }

  /** Some context enclosing vs[i] declares the name. */
  ghost predicate DeclaredOutside(vs: seq<View>, i: nat, name: string)
    requires ViewsOk(vs)
  {
    exists k, j :: i < k < |vs| && 0 <= j < vs[k].localCount && vs[k].locals[j].name == name
  }

  /** resolveUpvalue finds an upvalue exactly when some enclosing function
      declares the name (the index is 0 when the upvalue array is full). */
  lemma {:induction false} ResolveUpvalueFinds(vs: seq<View>, i: nat, name: string, e: Errors.ErrorState, line: int)
    requires i < |vs| && ViewsOk(vs)
    ensures ResolveFrom(vs, i, name, e, line).index != -1 <==> DeclaredOutside(vs, i, name)
    decreases |vs| - i
  {
    if i < |vs| - 1 {
      assert ViewOk(vs[i + 1]);
      var enclosing := vs[i + 1];
      var local := LastIndexOf(enclosing.locals[..enclosing.localCount], name);
      var e1 := AfterLookup(enclosing, name, e, line);
      if local != -1 {
        assert vs[i + 1].locals[local].name == name;
      } else {
        ResolveUpvalueFinds(vs, i + 1, name, e1, line);
        NoneInPrefix(enclosing.locals, enclosing.localCount, name);
        if DeclaredOutside(vs, i, name) {
          var k, j :| i < k < |vs| && 0 <= j < vs[k].localCount && vs[k].locals[j].name == name;
          assert k != i + 1;
        }
      }
    }
  }

  /** The contexts from cs[0] outwards along `enclosing`, each with a
      function, no two sharing an array or a function. */
  ghost predicate Chain(cs: seq<Contexts.Context>)
    reads cs
  {
    && |cs| >= 1
    && (forall k :: 0 <= k < |cs| - 1 ==> cs[k].enclosing == cs[k + 1])
    && cs[|cs| - 1].enclosing == null
    && (forall k :: 0 <= k < |cs| ==> cs[k].func != null)
    && (forall k, l :: 0 <= k < |cs| && 0 <= l < |cs| && k != l ==>
          cs[k].locals != cs[l].locals && cs[k].upvalues != cs[l].upvalues && cs[k].func != cs[l].func)
  }

  /** What resolution from cs[i] outwards may write: the locals arrays,
      the upvalue arrays and the functions of those contexts. */
  ghost function LocalsFrom(cs: seq<Contexts.Context>, i: nat): set<array<Local>>
    reads cs
    decreases |cs| - i
  {
    if i >= |cs| then {} else {cs[i].locals} + LocalsFrom(cs, i + 1)
  }

  ghost function UpvaluesFrom(cs: seq<Contexts.Context>, i: nat): set<array<Upvalue>>
    reads cs
    decreases |cs| - i
  {
    if i >= |cs| then {} else {cs[i].upvalues} + UpvaluesFrom(cs, i + 1)
  }

  ghost function FuncsFrom(cs: seq<Contexts.Context>, i: nat): set<Object.ObjFunction>
    reads cs
    decreases |cs| - i
  {
    if i >= |cs| then {} else (if cs[i].func != null then {cs[i].func} else {}) + FuncsFrom(cs, i + 1)
  }

  /** What resolution sees of a context. */
  ghost function ViewOf(c: Contexts.Context): (v: View)
    reads c, c.locals, c.upvalues, c.func
  {
    View(c.locals[..], c.localCount, c.upvalues[..], if c.func == null then -1 else c.func.upvalueCount)
  }

  // ---------------------------------------------------------------------
  // Resolution as the compiler runs it. Its error manager and the line
  // errors are reported at are parameters: that line is the last one of the
  // current chunk, which does not change while a name is resolved, since
  // resolution emits no code.

  /** resolveLocal on `compiler`: the innermost local with the name, or
      -1; finding it while its initialiser is compiled is an error. */
  method ResolveLocal(err: Errors.ErrorManager, line: int, compiler: Contexts.Context, name: string) returns (r: int)
    requires ContextOk(compiler)
    modifies err
    ensures r == LastIndexOf(compiler.locals[..compiler.localCount], name)
    ensures err.State() == if r >= 0 && compiler.locals[r].depth == -1
                           then Errors.Report(old(err.State()), Errors.LineError(line, LocalInOwnInitializer))
                           else old(err.State())
  {
    var i := compiler.localCount - 1;
    while i >= 0
      invariant -1 <= i < compiler.localCount
      invariant LastIndexOf(compiler.locals[..compiler.localCount], name) == LastIndexOf(compiler.locals[..i + 1], name)
      invariant err.State() == old(err.State())
    {
      assert compiler.locals[..i + 1][..i] == compiler.locals[..i];
      if compiler.locals[i].name == name {
        if compiler.locals[i].depth == -1 {
          err.ErrorAtLine(line, LocalInOwnInitializer);
        }
        return i;
      }
      i := i - 1;
    }
    return -1;
  }

  /** addUpvalue on `compiler`: as AddUpvalueSpec describes. */
  method AddUpvalue(err: Errors.ErrorManager, line: int, compiler: Contexts.Context, index: byte, isLocal: bool) returns (r: int)
    requires ContextOk(compiler)
    modifies compiler.upvalues, compiler.func, err
    ensures ContextOk(compiler)
    ensures compiler.func.chunk == old(compiler.func.chunk) && compiler.func.name == old(compiler.func.name)
    ensures compiler.func.arity == old(compiler.func.arity)
    ensures Added(r, compiler.upvalues[..], compiler.func.upvalueCount, err.State()) ==
              AddUpvalueSpec(old(compiler.upvalues[..]), old(compiler.func.upvalueCount), Contexts.Upvalue(index, isLocal),
                             old(err.State()), line)
  {
    var upvalueCount := compiler.func.upvalueCount;
    ghost var u := Contexts.Upvalue(index, isLocal);
    for i := 0 to upvalueCount
      invariant u !in compiler.upvalues[..i]
    {
      if compiler.upvalues[i].index == index && compiler.upvalues[i].isLocal == isLocal {
        assert compiler.upvalues[..upvalueCount][..i + 1] == compiler.upvalues[..i + 1];
        return i;
      }
      assert compiler.upvalues[..i + 1] == compiler.upvalues[..i] + [compiler.upvalues[i]];
    }
    assert compiler.upvalues[..upvalueCount] == compiler.upvalues[..upvalueCount];

    if upvalueCount == Contexts.Uint8Count {
      err.ErrorAtLine(line, TooManyClosureVariables);
      return 0;
    }

    compiler.upvalues[upvalueCount] := Contexts.Upvalue(index, isLocal);
    r := compiler.func.upvalueCount;
    compiler.func.upvalueCount := compiler.func.upvalueCount + 1;
  }

  /** resolveUpvalue on `compiler`, which is cs[i] of the chain cs: as
      ResolveFrom describes on the views vs the chain has at the call. */
  method ResolveUpvalue(err: Errors.ErrorManager, line: int, compiler: Contexts.Context, name: string,
                        ghost cs: seq<Contexts.Context>, ghost i: nat, ghost vs: seq<View>) returns (r: int, ghost res: Resolved)
    requires Chain(cs) && i < |cs| && cs[i] == compiler
    requires |vs| == |cs| && ViewsOk(vs) && forall k :: 0 <= k < |cs| ==> vs[k] == ViewOf(cs[k])
    modifies LocalsFrom(cs, i + 1), UpvaluesFrom(cs, i), FuncsFrom(cs, i), err
    ensures res == ResolveFrom(vs, i, name, old(err.State()), line)
    ensures r == res.index && err.State() == res.errors
    ensures forall k :: 0 <= k < |cs| ==> ViewOf(cs[k]) == res.views[k]
    decreases |cs| - i, 2
  {
    res := ResolveFrom(vs, i, name, err.State(), line);
    if compiler.enclosing == null {
      return -1, res;
    }
    r := ResolveEnclosed(err, line, compiler, name, cs, i, vs);
  }

  /** resolveUpvalue on a `compiler` that has an enclosing context. */
  method ResolveEnclosed(err: Errors.ErrorManager, line: int, compiler: Contexts.Context, name: string,
                         ghost cs: seq<Contexts.Context>, ghost i: nat, ghost vs: seq<View>) returns (r: int)
    requires Chain(cs) && i < |cs| && cs[i] == compiler && compiler.enclosing != null
    requires |vs| == |cs| && ViewsOk(vs) && forall k :: 0 <= k < |cs| ==> vs[k] == ViewOf(cs[k])
    modifies LocalsFrom(cs, i + 1), UpvaluesFrom(cs, i), FuncsFrom(cs, i), err
    ensures r == ResolveFrom(vs, i, name, old(err.State()), line).index
    ensures err.State() == ResolveFrom(vs, i, name, old(err.State()), line).errors
    ensures forall k :: 0 <= k < |cs| ==> ViewOf(cs[k]) == ResolveFrom(vs, i, name, old(err.State()), line).views[k]
    decreases |cs| - i, 1
  {
    var enclosing := compiler.enclosing;
    assert enclosing == cs[i + 1];
    var local := ResolveLocal(err, line, enclosing, name);
    assert vs[i + 1].locals[..vs[i + 1].localCount] == enclosing.locals[..enclosing.localCount];
    assert forall k :: 0 <= k < |cs| ==> ViewOf(cs[k]) == vs[k];
    if local != -1 {
      r := CaptureLocal(err, line, compiler, enclosing, local, cs, i, vs);
    } else {
      r := ResolveThrough(err, line, compiler, enclosing, name, cs, i, vs);
    }
  }

  /** addUpvalue on cs[i], as it shows on the views ws the chain has at
      the call. */
  method AddUpvalueIn(err: Errors.ErrorManager, line: int, compiler: Contexts.Context, index: byte, isLocal: bool,
                      ghost cs: seq<Contexts.Context>, ghost i: nat, ghost ws: seq<View>) returns (r: int)
    requires Chain(cs) && i < |cs| && cs[i] == compiler
    requires |ws| == |cs| && ViewsOk(ws) && forall k :: 0 <= k < |cs| ==> ws[k] == ViewOf(cs[k])
    modifies compiler.upvalues, compiler.func, err
    ensures r == AddedTo(ws, i, Contexts.Upvalue(index, isLocal), old(err.State()), line).index
    ensures err.State() == AddedTo(ws, i, Contexts.Upvalue(index, isLocal), old(err.State()), line).errors
    ensures forall k :: 0 <= k < |cs| ==> ViewOf(cs[k]) == AddedTo(ws, i, Contexts.Upvalue(index, isLocal), old(err.State()), line).views[k]
  {
    assert ViewOk(ws[i]);
    r := AddUpvalue(err, line, compiler, index, isLocal);
    assert forall k :: 0 <= k < |cs| && k != i ==> ViewOf(cs[k]) == old(ViewOf(cs[k]));
  }

  /** resolveUpvalue once local `local` of the enclosing context holds the
      name: mark it captured and add it as an upvalue of `compiler`. */
  method CaptureLocal(err: Errors.ErrorManager, line: int, compiler: Contexts.Context, enclosing: Contexts.Context, local: int,
                      ghost cs: seq<Contexts.Context>, ghost i: nat, ghost vs: seq<View>) returns (r: int)
    requires Chain(cs) && i + 1 < |cs| && cs[i] == compiler && cs[i + 1] == enclosing
    requires |vs| == |cs| && ViewsOk(vs) && forall k :: 0 <= k < |cs| ==> vs[k] == ViewOf(cs[k])
    requires 0 <= local < vs[i + 1].localCount
    modifies enclosing.locals, compiler.upvalues, compiler.func, err
    ensures r == CaptureSpec(vs, i, local, old(err.State()), line).index
    ensures err.State() == CaptureSpec(vs, i, local, old(err.State()), line).errors
    ensures forall k :: 0 <= k < |cs| ==> ViewOf(cs[k]) == CaptureSpec(vs, i, local, old(err.State()), line).views[k]
  {
    assert ViewOk(vs[i + 1]);
    enclosing.locals[local] := enclosing.locals[local].(isCaptured := true);
    ghost var ws := vs[i + 1 := MarkCaptured(vs[i + 1], local)];
    assert ViewOf(cs[i + 1]) == ws[i + 1];
    assert forall k :: 0 <= k < |cs| && k != i + 1 ==> ViewOf(cs[k]) == ws[k];
    r := AddUpvalueIn(err, line, compiler, local as byte, true, cs, i, ws);
  }

  /** resolveUpvalue once the enclosing context holds no local with the
      name: resolve it as an upvalue of the enclosing context, and add what
      that finds as an upvalue of `compiler`. */
  method ResolveThrough(err: Errors.ErrorManager, line: int, compiler: Contexts.Context, enclosing: Contexts.Context, name: string,
                        ghost cs: seq<Contexts.Context>, ghost i: nat, ghost vs: seq<View>) returns (r: int)
    requires Chain(cs) && i + 1 < |cs| && cs[i] == compiler && cs[i + 1] == enclosing
    requires |vs| == |cs| && ViewsOk(vs) && forall k :: 0 <= k < |cs| ==> vs[k] == ViewOf(cs[k])
    modifies LocalsFrom(cs, i + 1), UpvaluesFrom(cs, i), FuncsFrom(cs, i), err
    ensures r == OutwardSpec(vs, i, ResolveFrom(vs, i + 1, name, old(err.State()), line), line).index
    ensures err.State() == OutwardSpec(vs, i, ResolveFrom(vs, i + 1, name, old(err.State()), line), line).errors
    ensures forall k :: 0 <= k < |cs| ==> ViewOf(cs[k]) == OutwardSpec(vs, i, ResolveFrom(vs, i + 1, name, old(err.State()), line), line).views[k]
    decreases |cs| - i, 0
  {
    assert compiler.upvalues in UpvaluesFrom(cs, i) && compiler.func in FuncsFrom(cs, i);
    var upvalue, outer := ResolveUpvalue(err, line, enclosing, name, cs, i + 1, vs);
    r := LinkOuter(err, line, compiler, upvalue, cs, i, vs, outer);
  }

  /** The end of resolveUpvalue once the enclosing context has answered
      `upvalue` (`outer` on the views): -1 stays -1, anything else becomes
      a non-local upvalue of `compiler`. */
  method LinkOuter(err: Errors.ErrorManager, line: int, compiler: Contexts.Context, upvalue: int,
                   ghost cs: seq<Contexts.Context>, ghost i: nat, ghost vs: seq<View>, ghost outer: Resolved) returns (r: int)
    requires Chain(cs) && i < |cs| && cs[i] == compiler && |vs| == |cs|
    requires |outer.views| == |cs| && ViewsOk(outer.views) && forall k :: 0 <= k < |cs| ==> outer.views[k] == ViewOf(cs[k])
    requires upvalue == outer.index && -1 <= upvalue < 256 && err.State() == outer.errors
    modifies compiler.upvalues, compiler.func, err
    ensures r == OutwardSpec(vs, i, outer, line).index
    ensures err.State() == OutwardSpec(vs, i, outer, line).errors
    ensures forall k :: 0 <= k < |cs| ==> ViewOf(cs[k]) == OutwardSpec(vs, i, outer, line).views[k]
  {
    if upvalue == -1 {
      return -1;
    }
    r := AddUpvalueIn(err, line, compiler, upvalue as byte, false, cs, i, outer.views);
  }

  // ---------------------------------------------------------------------
  // Binary operators.

  /** The instruction binary() emits after both operands of an operator;
      `and` and `or` compile to jumps instead and the rest emit nothing. */
  function BinaryOpcode(op: Scanner.TokenType): Option<byte>
  {
    if op == Scanner.BANG_EQUAL then Some(OP_NOT_EQUAL)
    else if op == Scanner.EQUAL_EQUAL then Some(OP_EQUAL)
    else if op == Scanner.GREATER then Some(OP_GREATER)
    else if op == Scanner.GREATER_EQUAL then Some(OP_NOT_LESS)
    else if op == Scanner.LESS then Some(OP_LESS)
    else if op == Scanner.LESS_EQUAL then Some(OP_NOT_GREATER)
    else if op == Scanner.PLUS then Some(OP_ADD)
    else if op == Scanner.MINUS then Some(OP_SUBTRACT)
    else if op == Scanner.ASTERIX then Some(OP_MULTIPLY)
    else if op == Scanner.SLASH then Some(OP_DIVIDE)
    else None
  }

  /** The operator an arithmetic or comparison instruction stands for. */
  function OperatorOf(b: byte): Option<Scanner.TokenType>
  {
    if b == OP_NOT_EQUAL then Some(Scanner.BANG_EQUAL)
    else if b == OP_EQUAL then Some(Scanner.EQUAL_EQUAL)
    else if b == OP_GREATER then Some(Scanner.GREATER)
    else if b == OP_NOT_LESS then Some(Scanner.GREATER_EQUAL)
    else if b == OP_LESS then Some(Scanner.LESS)
    else if b == OP_NOT_GREATER then Some(Scanner.LESS_EQUAL)
    else if b == OP_ADD then Some(Scanner.PLUS)
    else if b == OP_SUBTRACT then Some(Scanner.MINUS)
    else if b == OP_MULTIPLY then Some(Scanner.ASTERIX)
    else if b == OP_DIVIDE then Some(Scanner.SLASH)
    else None
  }

  /** Each operator has its own instruction, and an instruction gives back
      the operator it was emitted for: the mapping is one-to-one. */
  lemma BinaryOpcodeInverse(op: Scanner.TokenType, b: byte)
    ensures BinaryOpcode(op) == Some(b) <==> OperatorOf(b) == Some(op)
  {
  }

  /** `>=` and `<=` are the negations of `<` and `>`, not instructions of
      their own, and `and`/`or` have no instruction. */
  lemma ComparisonsNegate()
    ensures BinaryOpcode(Scanner.GREATER_EQUAL) == Some(OP_NOT_LESS)
    ensures BinaryOpcode(Scanner.LESS_EQUAL) == Some(OP_NOT_GREATER)
    ensures BinaryOpcode(Scanner.AND) == None && BinaryOpcode(Scanner.OR) == None
  {
  }

  // ---------------------------------------------------------------------
  // The compiler.

  class Compiler {
    var current: Contexts.Context
    var line: nat                   // the line of the parser's previous token
    const err: Errors.ErrorManager

    ghost predicate Valid()
      reads this, current, current.func
      reads if current.func != null then {current.func.chunk, current.func.chunk.constants} else {}
    {
      ContextOk(current) && current.func.chunk.Valid()
    }

    /** currentChunk(). */
    function CurrentChunk(): Chunk
      reads this, current, current.func
      requires current.func != null
    {
      current.func.chunk
    }

    constructor (err: Errors.ErrorManager, current: Contexts.Context)
      ensures this.err == err && this.current == current && line == 0
    {
      this.err := err;
      this.current := current;
      line := 0;
    }

    /** emitByte: one byte at the previous token's line. */
    method EmitByte(b: byte)
      requires Valid()
      modifies CurrentChunk(), CurrentChunk().code
      ensures Valid() && CurrentChunk().constants == old(CurrentChunk().constants)
      ensures CurrentChunk().Code() == old(CurrentChunk().Code()) + [b]
      ensures CurrentChunk().lines == old(CurrentChunk().lines) + [line]
      ensures CurrentChunk().code == old(CurrentChunk().code) || fresh(CurrentChunk().code)
    {
      CurrentChunk().Write(b, line);
    }

    method EmitBytes(b1: byte, b2: byte)
      requires Valid()
      modifies CurrentChunk(), CurrentChunk().code
      ensures Valid() && CurrentChunk().constants == old(CurrentChunk().constants)
      ensures CurrentChunk().Code() == old(CurrentChunk().Code()) + [b1, b2]
      ensures CurrentChunk().lines == old(CurrentChunk().lines) + [line, line]
      ensures CurrentChunk().code == old(CurrentChunk().code) || fresh(CurrentChunk().code)
    {
      EmitByte(b1);
      EmitByte(b2);
    }

    method EmitByteConst(op: byte, c: nat)
      requires Valid()
      modifies CurrentChunk(), CurrentChunk().code
      ensures Valid() && CurrentChunk().constants == old(CurrentChunk().constants)
      ensures CurrentChunk().Code() == old(CurrentChunk().Code()) + CodeGen.ConstCode(op, c)
      ensures CurrentChunk().lines == old(CurrentChunk().lines) + [line, line, line]
      ensures CurrentChunk().code == old(CurrentChunk().code) || fresh(CurrentChunk().code)
    {
      EmitByte(op);
      EmitBytes(HighByte(c), LowByte(c));
    }

    method EmitLoop(loopStart: int)
      requires Valid()
      modifies CurrentChunk(), CurrentChunk().code, err
      ensures Valid() && CurrentChunk().constants == old(CurrentChunk().constants)
      ensures CurrentChunk().Code() == old(CurrentChunk().Code()) + CodeGen.LoopCode(old(CurrentChunk().count), loopStart)
      ensures CurrentChunk().lines == old(CurrentChunk().lines) + [line, line, line]
      ensures CurrentChunk().code == old(CurrentChunk().code) || fresh(CurrentChunk().code)
      ensures err.State() == if CodeGen.LoopOffset(old(CurrentChunk().count), loopStart) > Uint16Max
                             then Errors.Report(old(err.State()), Errors.LineError(line, CodeGen.LoopTooLarge))
                             else old(err.State())
    {
      EmitByte(OP_LOOP);
      var offset := CodeGen.Size(CurrentChunk().count - loopStart + 2);
      if offset > Uint16Max {
        err.ErrorAtLine(CurrentChunk().LineLast(), CodeGen.LoopTooLarge);
      }
      EmitBytes(HighByte(offset), LowByte(offset));
    }

    /** emitJump: the position of the first of the two placeholders. */
    method EmitJump(op: byte) returns (r: int)
      requires Valid()
      modifies CurrentChunk(), CurrentChunk().code
      ensures Valid() && CurrentChunk().constants == old(CurrentChunk().constants)
      ensures CurrentChunk().Code() == old(CurrentChunk().Code()) + CodeGen.JumpCode(op)
      ensures CurrentChunk().lines == old(CurrentChunk().lines) + [line, line, line]
      ensures CurrentChunk().code == old(CurrentChunk().code) || fresh(CurrentChunk().code)
      ensures r == old(CurrentChunk().count) + 1
    {
      EmitByte(op);
      EmitBytes(0xff, 0xff);
      r := CurrentChunk().count - 2;
    }

    /** emitReturn for the function being compiled. */
    method EmitReturn()
      requires Valid()
      modifies CurrentChunk(), CurrentChunk().code
      ensures Valid() && CurrentChunk().constants == old(CurrentChunk().constants)
      ensures CurrentChunk().Code() == old(CurrentChunk().Code()) + CodeGen.ReturnCode(current.ftype)
      ensures CurrentChunk().code == old(CurrentChunk().code) || fresh(CurrentChunk().code)
    {
      if current.ftype == Contexts.TYPE_INITIALIZER {
        EmitBytes(OP_GET_LOCAL, 0);
      } else {
        EmitByte(OP_NIL);
      }
      EmitByte(OP_RETURN);
    }

    /** makeConstant: the pool index, or 0 after an error once the index no
        longer fits in 16 bits. */
    method MakeConstant(value: Word) returns (r: nat)
      requires Valid()
      modifies CurrentChunk().constants, CurrentChunk().constants.values, err
      ensures Valid()
      ensures CurrentChunk().constants.Contents() == old(CurrentChunk().constants.Contents()) + [value]
      ensures CurrentChunk().constants.values == old(CurrentChunk().constants.values) || fresh(CurrentChunk().constants.values)
      ensures r == if old(CurrentChunk().constants.count) <= Uint16Max then old(CurrentChunk().constants.count) else 0
      ensures err.State() == if old(CurrentChunk().constants.count) <= Uint16Max then old(err.State())
                             else Errors.Report(old(err.State()), Errors.LineError(CurrentChunk().LineLast(), CodeGen.TooManyConstants))
    {
      var constant := CurrentChunk().AddConstant(value);
      if constant > Uint16Max {
        err.ErrorAtLine(CurrentChunk().LineLast(), CodeGen.TooManyConstants);
        return 0;
      }
      return constant;
    }

    method EmitConstant(value: Word)
      requires Valid()
      modifies CurrentChunk(), CurrentChunk().code, CurrentChunk().constants, CurrentChunk().constants.values, err
      ensures Valid() && CurrentChunk().constants == old(CurrentChunk().constants)
      ensures CurrentChunk().constants.Contents() == old(CurrentChunk().constants.Contents()) + [value]
      ensures CurrentChunk().Code() == old(CurrentChunk().Code()) +
                CodeGen.ConstCode(OP_CONSTANT, if old(CurrentChunk().constants.count) <= Uint16Max then old(CurrentChunk().constants.count) else 0)
      ensures CurrentChunk().code == old(CurrentChunk().code) || fresh(CurrentChunk().code)
    {
      var c := MakeConstant(value);
      EmitByteConst(OP_CONSTANT, c);
    }

    /** patchJump: the placeholders at `offset` get the distance to the end
        of the code. */
    method PatchJump(offset: nat)
      requires Valid() && offset + 2 <= CurrentChunk().count
      modifies CurrentChunk().code, err
      ensures Valid()
      ensures CurrentChunk().Code() == CodeGen.Patched(old(CurrentChunk().Code()), offset)
      ensures err.State() == if CodeGen.JumpDistance(CurrentChunk().count, offset) > Uint16Max
                             then Errors.Report(old(err.State()), Errors.LineError(CurrentChunk().LineLast(), CodeGen.TooMuchCode))
                             else old(err.State())
    {
      var jump := CurrentChunk().count - offset - 2;
      if jump > Uint16Max {
        err.ErrorAtLine(CurrentChunk().LineLast(), CodeGen.TooMuchCode);
      }
      CurrentChunk().code[offset] := HighByte(jump);
      CurrentChunk().code[offset + 1] := LowByte(jump);
    }

    /** number: 0 and 1 have instructions of their own, any other number
        goes to the constant pool. `boxed` is the number's value word. */
    method Number(value: int, boxed: Word)
      requires Valid()
      modifies CurrentChunk(), CurrentChunk().code, CurrentChunk().constants, CurrentChunk().constants.values, err
      ensures Valid() && CurrentChunk().constants == old(CurrentChunk().constants)
      ensures value == 0 ==> CurrentChunk().Code() == old(CurrentChunk().Code()) + [OP_ZERO]
      ensures value == 1 ==> CurrentChunk().Code() == old(CurrentChunk().Code()) + [OP_ONE]
      ensures value == 0 || value == 1 ==>
                CurrentChunk().constants.Contents() == old(CurrentChunk().constants.Contents()) && err.State() == old(err.State())
      ensures value != 0 && value != 1 ==>
                && CurrentChunk().constants.Contents() == old(CurrentChunk().constants.Contents()) + [boxed]
                && CurrentChunk().Code() == old(CurrentChunk().Code()) +
                     CodeGen.ConstCode(OP_CONSTANT, if old(CurrentChunk().constants.count) <= Uint16Max then old(CurrentChunk().constants.count) else 0)
    {
      if value == 0 {
        EmitByte(OP_ZERO);
        return;
      }
      if value == 1 {
        EmitByte(OP_ONE);
        return;
      }
      EmitConstant(boxed);
    }

    /** The operator instruction binary() emits once both operands are
        compiled. */
    method BinaryOperator(op: Scanner.TokenType)
      requires Valid()
      modifies CurrentChunk(), CurrentChunk().code
      ensures Valid() && CurrentChunk().constants == old(CurrentChunk().constants)
      ensures CurrentChunk().Code() == old(CurrentChunk().Code()) +
                match BinaryOpcode(op) { case Some(b) => [b] case None => [] }
    {
      match BinaryOpcode(op) {
        case Some(b) => EmitByte(b);
        case None =>
      }
    }

    // -------------------------------------------------------------------
    // Scopes and locals.

    method BeginScope()
      requires Valid()
      modifies current
      ensures current.func == old(current.func)
      ensures Valid()
      ensures current.scopeDepth == old(current.scopeDepth) + 1
      ensures current.localCount == old(current.localCount)
    {
      current.scopeDepth := current.scopeDepth + 1;
    }

    /** adjust_locals: drop the trailing locals deeper than `depth`,
        closing the captured ones and popping the others. */
    method AdjustLocals(depth: int)
      requires Valid()
      modifies current, CurrentChunk(), CurrentChunk().code
      ensures current.func == old(current.func)
      ensures Valid() && CurrentChunk().constants == old(CurrentChunk().constants)
      ensures current.localCount == Kept(old(current.locals[..current.localCount]), depth)
      ensures CurrentChunk().Code() == old(CurrentChunk().Code()) + PopsDown(old(current.locals[..current.localCount]), current.localCount)
      ensures CurrentChunk().code == old(CurrentChunk().code) || fresh(CurrentChunk().code)
      ensures current.scopeDepth == old(current.scopeDepth)
    {
      ghost var locals := current.locals[..current.localCount];
      while current.localCount > 0 && current.locals[current.localCount - 1].depth > depth
        invariant current.func == old(current.func) && Valid()
        invariant CurrentChunk().constants == old(CurrentChunk().constants)
        invariant current.localCount <= |locals|
        invariant forall i :: current.localCount <= i < |locals| ==> locals[i].depth > depth
        invariant CurrentChunk().Code() == old(CurrentChunk().Code()) + PopsDown(locals, current.localCount)
        invariant CurrentChunk().code == old(CurrentChunk().code) || fresh(CurrentChunk().code)
        invariant current.scopeDepth == old(current.scopeDepth)
        decreases current.localCount
      {
        assert current.locals[current.localCount - 1] == locals[current.localCount - 1];
        EmitByte(PopOp(current.locals[current.localCount - 1]));
        current.localCount := current.localCount - 1;
      }
      assert current.localCount == 0 || locals[current.localCount - 1] == current.locals[current.localCount - 1];
      KeptIsWhereScanStops(locals, depth, current.localCount);
    }

    /** endScope: leave the scope and drop its locals. */
    method EndScope()
      requires Valid()
      modifies current, CurrentChunk(), CurrentChunk().code
      ensures current.func == old(current.func)
      ensures Valid() && CurrentChunk().constants == old(CurrentChunk().constants)
      ensures current.scopeDepth == old(current.scopeDepth) - 1
      ensures current.localCount == Kept(old(current.locals[..current.localCount]), current.scopeDepth)
      ensures CurrentChunk().Code() == old(CurrentChunk().Code()) + PopsDown(old(current.locals[..current.localCount]), current.localCount)
    {
      current.scopeDepth := current.scopeDepth - 1;
      AdjustLocals(current.scopeDepth);
    }

    /** addLocal: a new local at depth -1 (declared, not yet initialised),
        unless all 256 slots are taken. */
    method AddLocal(name: string)
      requires Valid()
      modifies current, current.locals, err
      ensures current.func == old(current.func)
      ensures Valid()
      ensures current.scopeDepth == old(current.scopeDepth)
      ensures old(current.localCount) == Contexts.Uint8Count ==>
                && current.localCount == old(current.localCount)
                && current.locals[..] == old(current.locals[..])
                && err.State() == Errors.Report(old(err.State()), Errors.LineError(CurrentChunk().LineLast(), TooManyLocals))
      ensures old(current.localCount) < Contexts.Uint8Count ==>
                && current.localCount == old(current.localCount) + 1
                && current.locals[..] == old(current.locals[..])[old(current.localCount) := Contexts.Local(name, -1, false)]
                && err.State() == old(err.State())
    {
      if current.localCount == Contexts.Uint8Count {
        err.ErrorAtLine(CurrentChunk().LineLast(), TooManyLocals);
        return;
      }
      current.locals[current.localCount] := Contexts.Local(name, -1, false);
      current.localCount := current.localCount + 1;
    }

    /** declareVariable: at global scope nothing happens; otherwise a name
        already declared in the innermost scope is an error, and the local
        is added either way. */
    method DeclareVariable(name: string)
      requires Valid()
      modifies current, current.locals, err
      ensures current.func == old(current.func)
      ensures Valid()
      ensures current.scopeDepth == old(current.scopeDepth)
      ensures old(current.scopeDepth) == 0 ==>
                current.localCount == old(current.localCount) && current.locals[..] == old(current.locals[..]) &&
                err.State() == old(err.State())
      ensures old(current.scopeDepth) != 0 ==>
                var declared := if DeclaredInScope(old(current.locals[..current.localCount]), old(current.scopeDepth), name)
                                then Errors.Report(old(err.State()), Errors.LineError(CurrentChunk().LineLast(), AlreadyDeclared))
                                else old(err.State());
                if old(current.localCount) == Contexts.Uint8Count then
                  && current.localCount == old(current.localCount)
                  && current.locals[..] == old(current.locals[..])
                  && err.State() == Errors.Report(declared, Errors.LineError(CurrentChunk().LineLast(), TooManyLocals))
                else
                  && current.localCount == old(current.localCount) + 1
                  && current.locals[..] == old(current.locals[..])[old(current.localCount) := Contexts.Local(name, -1, false)]
                  && err.State() == declared
    {
      if current.scopeDepth == 0 {
        return;
      }
      ghost var locals := current.locals[..current.localCount];
      ghost var e0 := err.State();
      ghost var found := false;
      var i := current.localCount - 1;
      assert locals[..i + 1] == locals;
      while i >= 0
        modifies err
        invariant -1 <= i < current.localCount
        invariant DeclaredInScope(locals, current.scopeDepth, name) ==
                    (found || DeclaredInScope(locals[..i + 1], current.scopeDepth, name))
        invariant err.State() == if found then Errors.Report(e0, Errors.LineError(CurrentChunk().LineLast(), AlreadyDeclared)) else e0
      {
        var local := current.locals[i];
        assert local == locals[..i + 1][i];
        if local.depth != -1 && local.depth < current.scopeDepth {
          break;
        }
        assert locals[..i + 1][..i] == locals[..i];
        if name == local.name {
          err.ErrorAtLine(CurrentChunk().LineLast(), AlreadyDeclared);
          found := true;
        }
        i := i - 1;
      }
      AddLocal(name);
    }

    /** markInitialized: the innermost local becomes usable at the current
        depth; nothing happens at global scope. */
    method MarkInitialized()
      requires Valid()
      requires current.scopeDepth != 0 ==> current.localCount > 0
      modifies current.locals
      ensures current.scopeDepth == 0 ==> current.locals[..] == old(current.locals[..])
      ensures current.scopeDepth != 0 ==>
                current.locals[..] == old(current.locals[..])[current.localCount - 1 :=
                  old(current.locals[current.localCount - 1]).(depth := current.scopeDepth)]
    {
      if current.scopeDepth == 0 {
        return;
      }
      current.locals[current.localCount - 1] := current.locals[current.localCount - 1].(depth := current.scopeDepth);
    }
  }


}
