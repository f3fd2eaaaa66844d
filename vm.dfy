// The virtual machine of src/vm.cc and src/vm.hh: the value stack, the
// call frames, the sorted list of open upvalues, the globals table, and
// the effect of the core instructions of the dispatch loop on them.
// Numbers stay abstract: no arithmetic instruction is modelled.
module VM {
  import opened Value
  import opened Chunks
  import Object
  import Table
  import Errors
  import Contexts
  import CodeGen
  import ValueOps

  const FramesMax: nat := 64
  const StackMax: nat := FramesMax * Contexts.Uint8Count

  /** A call frame: the closure running, its instruction pointer (an
      offset into the closure's code) and the stack index of its slot 0. */
  datatype CallFrame = CallFrame(closure: Object.ObjClosure?, ip: int, slots: int)

  /** isFalsey: nil and false. */
  predicate IsFalsey(v: Word)
  {
    IsNil(v) || (IsBool(v) && !AsBool(v))
  }

  lemma FalseyExactly(v: Word)
    ensures IsFalsey(v) <==> v == NilVal || v == FalseVal
  {
    BoolAndNilClassification(v);
    SingletonsAreDistinct();
  }

  /** The error call reports for a wrong number of arguments. */
  function ArityMessage(arity: int, argCount: int): string
  {
    "Expected " + Errors.IntToString(arity) + " arguments but got " + Errors.IntToString(argCount) + "."
  }

  // ---------------------------------------------------------------------
  // Jumps. `ip` is the offset just past the opcode; READ_SHORT reads the
  // two operand bytes high byte first and leaves ip past them.

  /** Where JUMP (and JUMP_IF_FALSE when it jumps) leaves ip. */
  function JumpDestination(code: seq<byte>, ip: int): int
    requires 0 <= ip && ip + 2 <= |code|
  {
    ip + 2 + ReadShort(code[ip], code[ip + 1])
  }

  /** Where LOOP leaves ip. */
  function LoopDestination(code: seq<byte>, ip: int): int
    requires 0 <= ip && ip + 2 <= |code|
  {
    ip + 2 - ReadShort(code[ip], code[ip + 1])
  }

  /** A jump emitted by emitJump and patched by patchJump when the code
      had `|code|` bytes lands exactly on the byte written next after the
      patch. */
  lemma JumpLandsAtPatchPoint(code: seq<byte>, offset: nat)
    requires offset + 2 <= |code| && CodeGen.JumpDistance(|code|, offset) <= Uint16Max
    ensures |CodeGen.Patched(code, offset)| == |code|
    ensures JumpDestination(CodeGen.Patched(code, offset), offset) == |code|
  {
    CodeGen.PatchedRewritesOperand(code, offset);
  }

  /** A loop emitted by emitLoop at the end of the code goes back exactly
      to its loop start. */
  lemma LoopLandsAtLoopStart(code: seq<byte>, loopStart: int)
    requires 0 <= loopStart <= |code| && |code| + 3 - loopStart <= Uint16Max
    ensures LoopDestination(code + CodeGen.LoopCode(|code|, loopStart), |code| + 1) == loopStart
  {
    var full := code + CodeGen.LoopCode(|code|, loopStart);
    assert full[|code| + 1] == CodeGen.LoopCode(|code|, loopStart)[1];
    assert full[|code| + 2] == CodeGen.LoopCode(|code|, loopStart)[2];
    CodeGen.LoopOperandRoundTrip(|code|, loopStart);
  }

  // ---------------------------------------------------------------------
  // The open-upvalue list, by the stack slots its upvalues point at.

  /** Strictly decreasing: the order captureUpvalue keeps, stated one
      neighbour at a time. */
  ghost predicate Decreasing(s: seq<nat>)
  {
    |s| <= 1 || (s[0] > s[1] && Decreasing(s[1..]))
  }

  /** In a strictly decreasing list every slot lies above every later one. */
  lemma {:induction false} DecreasingOrder(s: seq<nat>)
    requires Decreasing(s)
    ensures forall k, l :: 0 <= k < l < |s| ==> s[k] > s[l]
  {
    if |s| > 1 {
      DecreasingOrder(s[1..]);
      forall k, l | 0 <= k < l < |s| ensures s[k] > s[l] {
        assert s[l] == s[1..][l - 1];
        if k > 0 {
          assert s[k] == s[1..][k - 1];
        } else if l > 1 {
          assert s[1] == s[1..][0];
        }
      }
    }
  }

  /** And a list ordered that way is strictly decreasing. */
  lemma {:induction false} OrderDecreasing(s: seq<nat>)
    requires forall k, l :: 0 <= k < l < |s| ==> s[k] > s[l]
    ensures Decreasing(s)
  {
    if |s| > 1 {
      forall k, l | 0 <= k < l < |s[1..]| ensures s[1..][k] > s[1..][l] {
        assert s[1..][k] == s[k + 1] && s[1..][l] == s[l + 1];
      }
      OrderDecreasing(s[1..]);
    }
  }

  /** The slots after captureUpvalue(x): x joins the list in its place,
      unless it is already there. */
  function InsertSlot(s: seq<nat>, x: nat): seq<nat>
  {
    if |s| == 0 then [x]
    else if s[0] > x then [s[0]] + InsertSlot(s[1..], x)
    else if s[0] == x then s
    else [x] + s
  }

  /** The slots after closeUpvalues(last): the leading slots at or above
      `last` are gone. */
  function Below(s: seq<nat>, last: nat): seq<nat>
  {
    if |s| == 0 || s[0] < last then s else Below(s[1..], last)
  }

  /** The tail of a strictly decreasing list is strictly decreasing and
      lies below its head. */
  lemma DecreasingTail(s: seq<nat>)
    requires Decreasing(s) && |s| > 0
    ensures Decreasing(s[1..])
    ensures forall y :: y in s[1..] ==> y < s[0]
  {
    DecreasingOrder(s);
    forall y | y in s[1..] ensures y < s[0] {
      var j :| 0 <= j < |s[1..]| && s[1..][j] == y;
      assert s[j + 1] == y;
    }
  }

  /** Inserting adds exactly x. */
  lemma {:induction false} InsertSlotMembers(s: seq<nat>, x: nat)
    ensures forall y :: y in InsertSlot(s, x) <==> y in s || y == x
  {
    if |s| > 0 && s[0] > x {
      InsertSlotMembers(s[1..], x);
      assert s == [s[0]] + s[1..];
    }
  }

  /** Inserting into a strictly decreasing list changes nothing when x is
      already there and lengthens it by one otherwise. */
  lemma {:induction false} InsertSlotLength(s: seq<nat>, x: nat)
    requires Decreasing(s)
    ensures x in s ==> InsertSlot(s, x) == s
    ensures x !in s ==> |InsertSlot(s, x)| == |s| + 1
  {
    if |s| > 0 {
      DecreasingTail(s);
      assert s == [s[0]] + s[1..];
      if s[0] > x {
        InsertSlotLength(s[1..], x);
      } else if s[0] < x {
        assert x !in s[1..];
      }
    }
  }

  /** Inserting keeps the list strictly decreasing. */
  lemma {:induction false} InsertSlotOrdered(s: seq<nat>, x: nat)
    requires Decreasing(s)
    ensures Decreasing(InsertSlot(s, x))
  {
    if |s| > 0 {
      DecreasingTail(s);
      DecreasingOrder(s);
      if s[0] > x {
        InsertSlotOrdered(s[1..], x);
        InsertSlotMembers(s[1..], x);
        var t := InsertSlot(s[1..], x);
        DecreasingOrder(t);
        forall k, l | 0 <= k < l < |[s[0]] + t| ensures ([s[0]] + t)[k] > ([s[0]] + t)[l] {
          assert ([s[0]] + t)[l] == t[l - 1] && t[l - 1] in t;
          if k > 0 {
            assert ([s[0]] + t)[k] == t[k - 1];
          }
        }
        OrderDecreasing([s[0]] + t);
      } else if s[0] < x {
        forall k, l | 0 <= k < l < |[x] + s| ensures ([x] + s)[k] > ([x] + s)[l] {
          assert ([x] + s)[l] == s[l - 1];
          if k > 0 {
            assert ([x] + s)[k] == s[k - 1];
          }
        }
        OrderDecreasing([x] + s);
      }
    }
  }

  /** Where captureUpvalue's walk stops, at the first slot not above x:
      there x is found, or inserted. */
  lemma {:induction false} InsertSlotAt(s: seq<nat>, x: nat, k: nat)
    requires Decreasing(s) && k <= |s|
    requires forall j :: 0 <= j < k ==> s[j] > x
    requires k < |s| ==> s[k] <= x
    ensures InsertSlot(s, x) == if k < |s| && s[k] == x then s else s[..k] + [x] + s[k..]
  {
    if k > 0 {
      DecreasingTail(s);
      forall j | 0 <= j < k - 1 ensures s[1..][j] > x {
        assert s[1..][j] == s[j + 1];
      }
      InsertSlotAt(s[1..], x, k - 1);
      assert s == [s[0]] + s[1..];
      assert s[..k] == [s[0]] + s[1..][..k - 1];
      assert s[k..] == s[1..][k - 1..];
    }
  }

  /** What closing keeps is a suffix of the list, and what it drops are
      slots at or above `last`. */
  lemma {:induction false} BelowIsSuffix(s: seq<nat>, last: nat)
    ensures |Below(s, last)| <= |s| && Below(s, last) == s[|s| - |Below(s, last)|..]
    ensures forall k :: 0 <= k < |s| - |Below(s, last)| ==> s[k] >= last
  {
    if |s| > 0 && s[0] >= last {
      BelowIsSuffix(s[1..], last);
      var b := Below(s[1..], last);
      assert s[1..][|s[1..]| - |b|..] == s[|s| - |b|..];
      forall k | 0 <= k < |s| - |b| ensures s[k] >= last {
        if k > 0 {
          assert s[k] == s[1..][k - 1];
        }
      }
    }
  }

  /** On a strictly decreasing list, closing keeps exactly the slots below
      `last`. */
  lemma {:induction false} BelowMembers(s: seq<nat>, last: nat)
    requires Decreasing(s)
    ensures forall y :: y in Below(s, last) <==> y in s && y < last
  {
    if |s| > 0 && s[0] >= last {
      DecreasingTail(s);
      BelowMembers(s[1..], last);
      assert s == [s[0]] + s[1..];
    } else if |s| > 0 {
      AllBelow(s, last);
    }
  }

  /** Once the head of a strictly decreasing list is below `last`, all of
      it is. */
  lemma AllBelow(s: seq<nat>, last: nat)
    requires Decreasing(s) && |s| > 0 && s[0] < last
    ensures forall y :: y in s ==> y < last
  {
    DecreasingOrder(s);
    forall y | y in s ensures y < last {
      var j :| 0 <= j < |s| && s[j] == y;
      assert j == 0 || s[0] > s[j];
    }
  }

  /** Closing stops after the leading slots at or above `last`. */
  lemma {:induction false} BelowPrefix(s: seq<nat>, last: nat, n: nat)
    requires n <= |s| && forall j :: 0 <= j < n ==> s[j] >= last
    requires n == |s| || s[n] < last
    ensures Below(s, last) == s[n..]
  {
    if n > 0 {
      BelowPrefix(s[1..], last, n - 1);
      assert s[1..][n - 1..] == s[n..];
    }
  }

  /** Where the elements of a list land when x is put in at position k. */
  lemma Splice<T>(o: seq<T>, x: T, k: nat)
    requires k <= |o|
    ensures |o[..k] + [x] + o[k..]| == |o| + 1 && (o[..k] + [x] + o[k..])[k] == x
    ensures forall j :: 0 <= j < k ==> (o[..k] + [x] + o[k..])[j] == o[j]
    ensures forall j :: k < j <= |o| ==> (o[..k] + [x] + o[k..])[j] == o[j - 1]
  {
  }

  /** Putting x in where captureUpvalue's walk stopped keeps the slots
      strictly decreasing and bounded. */
  lemma SpliceDecreasing(s: seq<nat>, x: nat, k: nat)
    requires Decreasing(s) && k <= |s|
    requires forall j :: 0 <= j < |s| ==> s[j] < StackMax
    requires forall j :: 0 <= j < k ==> s[j] > x
    requires k < |s| ==> s[k] < x
    requires x < StackMax
    ensures Decreasing(s[..k] + [x] + s[k..])
    ensures forall j :: 0 <= j < |s| + 1 ==> (s[..k] + [x] + s[k..])[j] < StackMax
  {
    InsertSlotAt(s, x, k);
    InsertSlotOrdered(s, x);
    var t := s[..k] + [x] + s[k..];
    assert InsertSlot(s, x) == t;
    Splice(s, x, k);
  }

  /** The upvalue after position k of the list, or null after its last. */
  function Successor(s: seq<Object.ObjUpvalue>, k: nat): Object.ObjUpvalue?
  {
    if k + 1 < |s| then s[k + 1] else null
  }

  // ---------------------------------------------------------------------
  // The machine.

  /** A valid table whose buffer is not the given array. */
  ghost predicate GlobalsApart(t: Table.Table, a: array<Word>)
    reads t, t.entries
  {
    t.Valid() && t.entries as object != a as object
  }

  /** Adding a new key and removing it again leaves the map as it was. */
  lemma SetThenRemove<K, V>(m: map<K, V>, k: K, v: V)
    requires k !in m
    ensures m[k := v] - {k} == m
  {
  }

  /** The table work of SET_GLOBAL: set, and when that created the entry,
      delete it again. Returns whether the name was defined. */
  method AssignIn(t: Table.Table, a: array<Word>, name: Object.ObjString, v: Word) returns (defined: bool)
    requires GlobalsApart(t, a)
    modifies t, t.entries
    ensures GlobalsApart(t, a)
    ensures defined <==> name in old(t.Map())
    ensures defined ==> t.Map() == old(t.Map())[name := v]
    ensures !defined ==> t.Map() == old(t.Map())
  {
    var isNewKey := t.Set(name, v);
    if isNewKey {
      var _ := t.Del(name);
      SetThenRemove(old(t.Map()), name, v);
    }
    defined := !isNewKey;
  }

  class Machine {
    const stack: array<Word>
    var stackTop: int
    const frames: array<CallFrame>
    var frameCount: int
    /** run()'s instruction pointer into the current frame's code. */
    var ip: int
    var openUpvalues: Object.ObjUpvalue?
    /** The open upvalues in list order, and the slots they point at. */
    ghost var open: seq<Object.ObjUpvalue>
    ghost var openSlots: seq<nat>
    const globals: Table.Table
    /** The global error flags runtimeError sets, when present. */
    const errors: Errors.ErrorManager?
    /** The error stream runtime errors are written to. */
    var errOut: string

    ghost predicate StackOk()
      reads this
    {
      && stack.Length == StackMax && 0 <= stackTop <= StackMax
      && frames.Length == FramesMax && 0 <= frameCount <= FramesMax
    }

    ghost predicate UpvaluesOk()
      reads this, open
    {
      && |openSlots| == |open|
      && openUpvalues == (if |open| == 0 then null else open[0])
      && (forall k {:trigger open[k].next} :: 0 <= k < |open| ==> open[k].next == Successor(open, k))
      && (forall k :: 0 <= k < |open| ==> open[k].location == Object.StackSlot(openSlots[k]))
      && Decreasing(openSlots)
      && (forall k :: 0 <= k < |openSlots| ==> openSlots[k] < StackMax)
    }

    /** The machine's invariant over its stack, frames and open upvalues. */
    ghost predicate Valid()
      reads this, open
    {
      StackOk() && UpvaluesOk()
    }

    /** The invariant of the globals table, whose buffer is a different
        array from the value stack. */
    ghost predicate GlobalsOk()
      reads this, globals, globals.entries
    {
      GlobalsApart(globals, stack)
    }

    /** A machine as init() leaves it, before the natives and the "init"
        string are installed: empty stack, no frames, no open upvalues, no
        globals. */
    constructor (errors: Errors.ErrorManager?)
      ensures Valid() && GlobalsOk() && fresh(stack) && fresh(frames) && fresh(globals)
      ensures Stack() == [] && Frames() == [] && globals.Map() == map[]
      ensures this.errors == errors && errOut == "" && ip == 0
    {
      stack := new Word[StackMax](_ => NilVal);
      frames := new CallFrame[FramesMax](_ => CallFrame(null, 0, 0));
      globals := new Table.Table();
      this.errors := errors;
      errOut := "";
      ip := 0;
      stackTop, frameCount := 0, 0;
      openUpvalues := null;
      open, openSlots := [], [];
    }

    /** The fields the upvalue operations leave alone: the stack top, the
        frame count, the instruction pointer and the error stream. */
    ghost function Registers(): (int, int, int, string)
      reads this
    {
      (stackTop, frameCount, ip, errOut)
    }

    /** The values on the stack, bottom first. */
    ghost function Stack(): seq<Word>
      reads this, stack
    {
      if 0 <= stackTop <= stack.Length then stack[..stackTop] else []
    }

    /** The active frames, outermost first. */
    ghost function Frames(): seq<CallFrame>
      reads this, frames
    {
      if 0 <= frameCount <= frames.Length then frames[..frameCount] else []
    }

    /** resetStack: empty stack, no frames, no open upvalues. */
    method ResetStack()
      modifies this
      ensures stackTop == 0 && frameCount == 0 && openUpvalues == null && open == [] && openSlots == []
      ensures Stack() == [] && Frames() == [] && UpvaluesOk()
      ensures ip == old(ip) && errOut == old(errOut)
    {
      stackTop := 0;
      frameCount := 0;
      openUpvalues := null;
      open, openSlots := [], [];
    }

    /** runtimeError: write the message and a newline, reset the stack and
        set the error flag. */
    method RuntimeError(message: string)
      modifies this, errors
      ensures errOut == old(errOut) + message + "\n"
      ensures stackTop == 0 && frameCount == 0 && openUpvalues == null && open == [] && openSlots == []
      ensures Stack() == [] && Frames() == [] && UpvaluesOk()
      ensures ip == old(ip)
      ensures errors != null ==> errors.hadError && errors.panicMode == old(errors.panicMode) && errors.cerr == old(errors.cerr)
    {
      errOut := errOut + message + "\n";
      ResetStack();
      if errors != null {
        errors.hadError := true;
      }
    }

    /** push: the value goes on top. */
    method Push(v: Word)
      requires Valid() && stackTop < StackMax
      modifies this, stack
      ensures Valid() && Stack() == old(Stack()) + [v] && stackTop == old(stackTop) + 1
      ensures Frames() == old(Frames()) && ip == old(ip) && errOut == old(errOut)
      ensures OpenList() == old(OpenList())
      ensures forall i :: 0 <= i < stack.Length && i != old(stackTop) ==> stack[i] == old(stack[i])
    {
      stack[stackTop] := v;
      stackTop := stackTop + 1;
    }

    /** pop: the top value comes off. */
    method Pop() returns (v: Word)
      requires Valid() && stackTop > 0
      modifies this
      ensures Valid() && v == old(Stack())[|old(Stack())| - 1]
      ensures Stack() == old(Stack())[..|old(Stack())| - 1] && stackTop == old(stackTop) - 1
      ensures Frames() == old(Frames()) && ip == old(ip) && errOut == old(errOut)
      ensures OpenList() == old(OpenList())
    {
      stackTop := stackTop - 1;
      v := stack[stackTop];
    }

    /** peek(distance): `distance` below the top. */
    method Peek(distance: nat) returns (v: Word)
      requires StackOk() && distance < stackTop
      ensures v == stack[stackTop - 1 - distance] && v == Stack()[|Stack()| - 1 - distance]
    {
      v := stack[stackTop - 1 - distance];
    }

    /** The open upvalues are distinct objects: they point at distinct
        slots. */
    lemma OpenDistinct()
      requires UpvaluesOk()
      ensures forall j, l :: 0 <= j < l < |open| ==> open[j] != open[l]
    {
      DecreasingOrder(openSlots);
      forall j, l | 0 <= j < l < |open| ensures open[j] != open[l] {
        assert open[j].location == Object.StackSlot(openSlots[j]);
        assert open[l].location == Object.StackSlot(openSlots[l]);
      }
    }

    /** The walk at the start of captureUpvalue: past every upvalue whose
        slot is above `local`. */
    method FindSlot(local: nat) returns (prevUpvalue: Object.ObjUpvalue?, upvalue: Object.ObjUpvalue?, ghost k: nat)
      requires UpvaluesOk()
      ensures k <= |open| && upvalue == (if k < |open| then open[k] else null)
      ensures prevUpvalue == (if k == 0 then null else open[k - 1])
      ensures forall j :: 0 <= j < k ==> openSlots[j] > local
      ensures k < |open| ==> openSlots[k] <= local
      ensures (upvalue != null && upvalue.location == Object.StackSlot(local)) <==> local in openSlots
      ensures InsertSlot(openSlots, local) == if local in openSlots then openSlots else openSlots[..k] + [local] + openSlots[k..]
      ensures local !in openSlots && k < |open| ==> openSlots[k] < local
    {
      prevUpvalue := null;
      upvalue := openUpvalues;
      k := 0;
      while upvalue != null && upvalue.location.slot > local
        invariant 0 <= k <= |open| && UpvaluesOk()
        invariant upvalue == (if k < |open| then open[k] else null)
        invariant prevUpvalue == (if k == 0 then null else open[k - 1])
        invariant forall j :: 0 <= j < k ==> openSlots[j] > local
        decreases |open| - k
      {
        assert open[k].next == Successor(open, k);
        prevUpvalue := upvalue;
        upvalue := upvalue.next;
        k := k + 1;
      }
      InsertSlotAt(openSlots, local, k);
      InsertSlotLength(openSlots, local);
      if k < |open| {
        assert open[k].location == Object.StackSlot(openSlots[k]);
      }
    }

    /** The pointer work of captureUpvalue's insertion: a new upvalue for
        `local` whose next is `upvalue`, made the successor of prevUpvalue,
        or the head of the list when there is none. */
    method NewLinked(local: nat, prevUpvalue: Object.ObjUpvalue?, upvalue: Object.ObjUpvalue?)
      returns (created: Object.ObjUpvalue)
      modifies this, prevUpvalue
      ensures fresh(created) && created.location == Object.StackSlot(local) && created.next == upvalue
      ensures prevUpvalue == null ==> openUpvalues == created
      ensures prevUpvalue != null ==> prevUpvalue.next == created && openUpvalues == old(openUpvalues)
      ensures prevUpvalue != null ==> prevUpvalue.location == old(prevUpvalue.location) && prevUpvalue.closed == old(prevUpvalue.closed)
      ensures open == old(open) && openSlots == old(openSlots)
      ensures Registers() == old(Registers())
    {
      created := new Object.ObjUpvalue.NewUpvalue(local);
      created.next := upvalue;
      if prevUpvalue == null {
        openUpvalues := created;
      } else {
        prevUpvalue.next := created;
      }
    }

    /** The ghost bookkeeping of captureUpvalue's insertion: once the
        pointers are relinked, `created` stands at position k of the list. */
    ghost method Relink(local: nat, prevUpvalue: Object.ObjUpvalue?, created: Object.ObjUpvalue, k: nat)
      requires |openSlots| == |open| && k <= |open| && created !in open && local < StackMax
      requires forall j {:trigger open[j].next} :: 0 <= j < |open| && j != k - 1 ==> open[j].next == Successor(open, j)
      requires prevUpvalue == (if k == 0 then null else open[k - 1])
      requires prevUpvalue != null ==> prevUpvalue.next == created
      requires openUpvalues == (if k == 0 then created else open[0])
      requires created.next == (if k < |open| then open[k] else null) && created.location == Object.StackSlot(local)
      requires forall j :: 0 <= j < |open| ==> open[j].location == Object.StackSlot(openSlots[j])
      requires Decreasing(openSlots) && forall j :: 0 <= j < |openSlots| ==> openSlots[j] < StackMax
      requires forall j :: 0 <= j < k ==> openSlots[j] > local
      requires k < |open| ==> openSlots[k] < local
      modifies this
      ensures open == old(open)[..k] + [created] + old(open)[k..]
      ensures openSlots == old(openSlots)[..k] + [local] + old(openSlots)[k..]
      ensures UpvaluesOk()
      ensures openUpvalues == old(openUpvalues)
      ensures Registers() == old(Registers())
    {
      ghost var o := open;
      ghost var s := openSlots;
      SpliceDecreasing(s, local, k);
      Splice(o, created, k);
      Splice(s, local, k);
      open := o[..k] + [created] + o[k..];
      openSlots := s[..k] + [local] + s[k..];
      forall j | 0 <= j < |open|
        ensures open[j].next == Successor(open, j)
      {
        if j < k - 1 {
          assert open[j].next == Successor(o, j);
        } else if j > k {
          assert open[j].next == Successor(o, j - 1);
        }
      }
    }

    /** The second half of captureUpvalue: a new upvalue for `local`,
        linked in between the walk's prevUpvalue and upvalue. */
    method LinkUpvalue(local: nat, prevUpvalue: Object.ObjUpvalue?, upvalue: Object.ObjUpvalue?, ghost k: nat)
      returns (created: Object.ObjUpvalue)
      requires UpvaluesOk() && local < StackMax
      requires k <= |open| && upvalue == (if k < |open| then open[k] else null)
      requires prevUpvalue == (if k == 0 then null else open[k - 1])
      requires forall j :: 0 <= j < k ==> openSlots[j] > local
      requires k < |open| ==> openSlots[k] < local
      modifies this, prevUpvalue
      ensures fresh(created) && created.location == Object.StackSlot(local)
      ensures open == old(open)[..k] + [created] + old(open)[k..]
      ensures openSlots == old(openSlots)[..k] + [local] + old(openSlots)[k..]
      ensures UpvaluesOk()
      ensures forall j :: 0 <= j < |old(open)| ==>
                old(open)[j].location == old(open[j].location) && old(open)[j].closed == old(open[j].closed)
      ensures Registers() == old(Registers())
    {
      OpenDistinct();
      created := NewLinked(local, prevUpvalue, upvalue);
      forall j | 0 <= j < |open| && j != k - 1
        ensures open[j].next == Successor(open, j)
      {
        assert open[j] != prevUpvalue && open[j].next == old(open[j].next);
      }
      Relink(local, prevUpvalue, created, k);
    }

    /** captureUpvalue: walk the list past the slots above `local`; return
        the upvalue found there for `local`, or link in a new one. */
    method CaptureUpvalue(local: nat) returns (u: Object.ObjUpvalue, ghost k: nat)
      requires UpvaluesOk() && local < StackMax
      modifies this, open
      ensures UpvaluesOk()
      ensures openSlots == InsertSlot(old(openSlots), local)
      ensures k <= |old(open)| && k < |open| && open[k] == u && u.location == Object.StackSlot(local)
      ensures local in old(openSlots) ==> open == old(open)
      ensures local !in old(openSlots) ==> fresh(u) && open == old(open)[..k] + [u] + old(open)[k..]
      ensures forall j :: 0 <= j < |old(open)| ==>
                old(open)[j].location == old(open[j].location) && old(open)[j].closed == old(open[j].closed)
      ensures Registers() == old(Registers())
    {
      var prevUpvalue, upvalue;
      prevUpvalue, upvalue, k := FindSlot(local);
      if upvalue != null && upvalue.location == Object.StackSlot(local) {
        assert UpvaluesOk();
        return upvalue, k;
      }
      Splice(openSlots, local, k);
      u := LinkUpvalue(local, prevUpvalue, upvalue, k);
      assert UpvaluesOk();
    }

    /** One step of closeUpvalues: the head of the list takes the value of
        its slot, points at its own copy, and leaves the list. */
    method CloseHead()
      requires StackOk() && UpvaluesOk() && |open| > 0
      modifies this, open[0]
      ensures UpvaluesOk()
      ensures open == old(open)[1..] && openSlots == old(openSlots)[1..]
      ensures old(open)[0].location == Object.OwnClosed && old(open)[0].closed == stack[old(openSlots)[0]]
      ensures Registers() == old(Registers())
    {
      OpenDistinct();
      ghost var o := open;
      var upvalue := openUpvalues;
      upvalue.closed := stack[upvalue.location.slot];
      upvalue.location := Object.OwnClosed;
      openUpvalues := upvalue.next;
      open, openSlots := open[1..], openSlots[1..];
      forall j | 0 <= j < |open|
        ensures open[j].next == Successor(open, j) && open[j].location == Object.StackSlot(openSlots[j])
      {
        assert open[j] == o[j + 1] && o[j + 1] != o[0];
        assert Successor(open, j) == Successor(o, j + 1);
      }
      DecreasingTail(old(openSlots));
    }

    /** closeUpvalues(last): close every open upvalue at or above slot
        `last`, copying the slot's value into it; they are the head of the
        list. */
    method CloseUpvalues(last: nat)
      requires StackOk() && UpvaluesOk()
      modifies this, open
      ensures UpvaluesOk()
      ensures openSlots == Below(old(openSlots), last)
      ensures |open| <= |old(open)| && open == old(open)[|old(open)| - |open|..]
      ensures forall j :: 0 <= j < |old(open)| - |open| ==>
                old(open)[j].location == Object.OwnClosed && old(open)[j].closed == stack[old(openSlots)[j]]
      ensures Registers() == old(Registers())
    {
      OpenDistinct();
      ghost var n := 0;
      while openUpvalues != null && openUpvalues.location.slot >= last
        invariant 0 <= n <= |old(open)|
        invariant open == old(open)[n..] && openSlots == old(openSlots)[n..]
        invariant UpvaluesOk() && StackOk() && Registers() == old(Registers())
        invariant forall j :: 0 <= j < n ==> old(openSlots)[j] >= last
        invariant forall j :: 0 <= j < n ==>
                    old(open)[j].location == Object.OwnClosed && old(open)[j].closed == stack[old(openSlots)[j]]
        decreases |open|
      {
        assert open[0] == old(open)[n] && openSlots[0] == old(openSlots)[n];
        CloseHead();
        n := n + 1;
      }
      BelowPrefix(old(openSlots), last, n);
    }

    /** call: check the argument count and the frame limit, then push a
        frame whose slot 0 is the callee, below its arguments. */
    method Call(closure: Object.ObjClosure, argCount: int) returns (ok: bool)
      requires StackOk() && 0 <= argCount < stackTop
      modifies this, frames, errors
      ensures StackOk()
      ensures argCount != old(closure.func.arity) ==>
                !ok && errOut == old(errOut) + ArityMessage(old(closure.func.arity), argCount) + "\n" &&
                Stack() == [] && Frames() == [] && open == [] && (errors != null ==> errors.hadError)
      ensures argCount == old(closure.func.arity) && old(frameCount) == FramesMax ==>
                !ok && errOut == old(errOut) + "Stack overflow.\n" && Stack() == [] && Frames() == [] && open == []
                && (errors != null ==> errors.hadError)
      ensures argCount == old(closure.func.arity) && old(frameCount) < FramesMax ==>
                && ok && Frames() == old(Frames()) + [CallFrame(closure, 0, old(stackTop) - argCount - 1)]
                && stackTop == old(stackTop) && errOut == old(errOut)
                && openUpvalues == old(openUpvalues) && open == old(open) && openSlots == old(openSlots)
    {
      if argCount != closure.func.arity {
        RuntimeError(ArityMessage(closure.func.arity, argCount));
        return false;
      }
      if frameCount == FramesMax {
        RuntimeError("Stack overflow.");
        return false;
      }
      frames[frameCount] := CallFrame(closure, 0, stackTop - argCount - 1);
      frameCount := frameCount + 1;
      return true;
    }

    // -------------------------------------------------------------------
    // The instructions of run(). `ip` is just past the opcode byte, and
    // `code` is the code of the frame being run.

    /** The open-upvalue list as a whole. */
    ghost function OpenList(): (Object.ObjUpvalue?, seq<Object.ObjUpvalue>, seq<nat>)
      reads this
    {
      (openUpvalues, open, openSlots)
    }

    /** CONSTANT: push the constant its 16-bit operand names. */
    method OpConstant(code: seq<byte>, constants: seq<Word>)
      requires Valid() && stackTop < StackMax
      requires 0 <= ip && ip + 2 <= |code| && ReadShort(code[ip], code[ip + 1]) < |constants|
      modifies this, stack
      ensures Valid() && ip == old(ip) + 2
      ensures Stack() == old(Stack()) + [constants[ReadShort(code[old(ip)], code[old(ip) + 1])]]
      ensures Frames() == old(Frames()) && OpenList() == old(OpenList()) && errOut == old(errOut)
    {
      var index := ReadShort(code[ip], code[ip + 1]);
      ip := ip + 2;
      Push(constants[index]);
    }

    /** NIL: push nil. */
    method OpNil()
      requires Valid() && stackTop < StackMax
      modifies this, stack
      ensures Valid() && ip == old(ip)
      ensures Stack() == old(Stack()) + [NilVal]
      ensures Frames() == old(Frames()) && OpenList() == old(OpenList()) && errOut == old(errOut)
    {
      Push(NilVal);
    }

    /** POP: drop the top of the stack. */
    method OpPop()
      requires Valid() && stackTop > 0
      modifies this
      ensures Valid() && ip == old(ip)
      ensures Stack() == old(Stack())[..|old(Stack())| - 1]
      ensures Frames() == old(Frames()) && OpenList() == old(OpenList()) && errOut == old(errOut)
    {
      var _ := Pop();
    }

    /** GET_LOCAL: push the value in the slot its byte operand names,
        counted from the current frame's slot 0. */
    method OpGetLocal(code: seq<byte>)
      requires Valid() && stackTop < StackMax && frameCount > 0
      requires 0 <= ip < |code| && 0 <= frames[frameCount - 1].slots
      requires frames[frameCount - 1].slots + code[ip] as int < StackMax
      modifies this, stack
      ensures Valid() && ip == old(ip) + 1
      ensures Stack() == old(Stack()) + [old(stack[frames[frameCount - 1].slots + code[ip] as int])]
      ensures Frames() == old(Frames()) && OpenList() == old(OpenList()) && errOut == old(errOut)
    {
      var slot := code[ip];
      ip := ip + 1;
      Push(stack[frames[frameCount - 1].slots + slot as int]);
    }

    /** SET_LOCAL: copy the top of the stack into the slot its byte operand
        names; the value stays on the stack. */
    method OpSetLocal(code: seq<byte>)
      requires Valid() && stackTop > 0 && frameCount > 0
      requires 0 <= ip < |code| && 0 <= frames[frameCount - 1].slots
      requires frames[frameCount - 1].slots + code[ip] as int < StackMax
      modifies this, stack
      ensures Valid() && ip == old(ip) + 1 && stackTop == old(stackTop)
      ensures stack[..] == old(stack[..][frames[frameCount - 1].slots + code[ip] as int := stack[stackTop - 1]])
      ensures Frames() == old(Frames()) && OpenList() == old(OpenList()) && errOut == old(errOut)
    {
      var slot := code[ip];
      ip := ip + 1;
      var v := Peek(0);
      stack[frames[frameCount - 1].slots + slot as int] := v;
    }

    /** Move ip past an instruction's operand bytes. */
    method Skip(n: nat)
      requires Valid()
      modifies this
      ensures Valid() && ip == old(ip) + n
      ensures stackTop == old(stackTop) && frameCount == old(frameCount) && errOut == old(errOut)
      ensures OpenList() == old(OpenList())
    {
      ip := ip + n;
    }

    /** The message GET_GLOBAL and SET_GLOBAL report for a name that has no
        global. */
    function UndefinedVariable(name: string): string
    {
      "Undefined variable '" + name + "'."
    }

    /** GET_GLOBAL: push the global's value; an undefined name is a runtime
        error. `name` is the string object the 16-bit constant operand
        holds. */
    method OpGetGlobal(code: seq<byte>, name: Object.ObjString) returns (ok: bool)
      requires Valid() && GlobalsOk() && stackTop < StackMax && 0 <= ip && ip + 2 <= |code|
      modifies this, stack, errors
      ensures Valid() && ip == old(ip) + 2
      ensures ok <==> name in old(globals.Map())
      ensures ok ==> && Stack() == old(Stack()) + [old(globals.Map())[name]]
                     && Frames() == old(Frames()) && OpenList() == old(OpenList()) && errOut == old(errOut)
      ensures !ok ==> && errOut == old(errOut) + UndefinedVariable(name.str) + "\n"
                      && Stack() == [] && Frames() == [] && open == []
    {
      var value;
      ok, value := globals.Get(name);
      Skip(2);
      if ok {
        Push(value);
      } else {
        RuntimeError(UndefinedVariable(name.str));
      }
    }

    /** DEFINE_GLOBAL: bind the name to the top of the stack, then pop it. */
    method OpDefineGlobal(code: seq<byte>, name: Object.ObjString)
      requires Valid() && GlobalsOk() && stackTop > 0 && 0 <= ip && ip + 2 <= |code|
      modifies this, globals, globals.entries
      ensures Valid() && GlobalsOk() && ip == old(ip) + 2
      ensures globals.Map() == old(globals.Map())[name := old(stack[stackTop - 1])]
      ensures Stack() == old(Stack())[..|old(Stack())| - 1]
      ensures Frames() == old(Frames()) && OpenList() == old(OpenList()) && errOut == old(errOut)
    {
      DefineGlobal(name);
      Skip(2);
      var _ := Pop();
    }

    /** DEFINE_GLOBAL's table work on the top of the stack. */
    method DefineGlobal(name: Object.ObjString)
      requires Valid() && GlobalsOk() && stackTop > 0
      modifies globals, globals.entries
      ensures Valid()
      ensures GlobalsOk()
      ensures globals.Map() == old(globals.Map())[name := old(stack[stackTop - 1])]
    {
      var _ := globals.Set(name, stack[stackTop - 1]);
    }

    /** SET_GLOBAL: rebind a defined name to the top of the stack, which
        stays there. On an undefined name the entry set just created is
        deleted again and a runtime error is reported. */
    method OpSetGlobal(code: seq<byte>, name: Object.ObjString) returns (ok: bool)
      requires Valid() && GlobalsOk() && stackTop > 0 && 0 <= ip && ip + 2 <= |code|
      modifies this, globals, globals.entries, errors
      ensures Valid() && GlobalsOk() && ip == old(ip) + 2
      ensures ok <==> name in old(globals.Map())
      ensures ok ==> && globals.Map() == old(globals.Map())[name := old(stack[stackTop - 1])]
                     && Stack() == old(Stack()) && Frames() == old(Frames())
                     && OpenList() == old(OpenList()) && errOut == old(errOut)
      ensures !ok ==> && globals.Map() == old(globals.Map())
                      && errOut == old(errOut) + UndefinedVariable(name.str) + "\n"
                      && Stack() == [] && Frames() == [] && open == []
    {
      ok := AssignGlobal(name);
      Skip(2);
      if !ok {
        RuntimeError(UndefinedVariable(name.str));
      }
    }

    /** SET_GLOBAL's table work on the top of the stack. */
    method AssignGlobal(name: Object.ObjString) returns (ok: bool)
      requires Valid() && GlobalsOk() && stackTop > 0
      modifies globals, globals.entries
      ensures Valid()
      ensures GlobalsOk()
      ensures ok <==> name in old(globals.Map())
      ensures ok ==> globals.Map() == old(globals.Map())[name := old(stack[stackTop - 1])]
      ensures !ok ==> globals.Map() == old(globals.Map())
    {
      ok := AssignIn(globals, stack, name, stack[stackTop - 1]);
    }

    /** EQUAL: replace the two top values by whether they are equal. */
    method OpEqual(strings: map<Word, string>)
      requires Valid() && stackTop >= 2
      modifies this, stack
      ensures Valid() && ip == old(ip)
      ensures Stack() == old(Stack())[..|old(Stack())| - 2] +
                [BoolVal(ValueOps.ValuesEqual(old(Stack())[|old(Stack())| - 2], old(Stack())[|old(Stack())| - 1], strings))]
      ensures Frames() == old(Frames()) && OpenList() == old(OpenList()) && errOut == old(errOut)
    {
      var b := Pop();
      var a := Pop();
      Push(BoolVal(ValueOps.ValuesEqual(a, b, strings)));
    }

    /** NOT: replace the top value by whether it is falsey. */
    method OpNot()
      requires Valid() && stackTop > 0
      modifies this, stack
      ensures Valid() && ip == old(ip)
      ensures Stack() == old(Stack())[..|old(Stack())| - 1] + [BoolVal(IsFalsey(old(Stack())[|old(Stack())| - 1]))]
      ensures Frames() == old(Frames()) && OpenList() == old(OpenList()) && errOut == old(errOut)
    {
      var v := Pop();
      Push(BoolVal(IsFalsey(v)));
    }

    /** JUMP: skip forwards by the 16-bit operand. */
    method OpJump(code: seq<byte>)
      requires Valid() && 0 <= ip && ip + 2 <= |code|
      modifies this
      ensures Valid() && ip == JumpDestination(code, old(ip))
      ensures Stack() == old(Stack()) && Frames() == old(Frames()) && OpenList() == old(OpenList()) && errOut == old(errOut)
    {
      var offset := ReadShort(code[ip], code[ip + 1]);
      ip := ip + 2;
      ip := ip + offset;
    }

    /** JUMP_IF_FALSE: jump like JUMP when the top value is falsey; the
        value stays on the stack either way. */
    method OpJumpIfFalse(code: seq<byte>)
      requires Valid() && stackTop > 0 && 0 <= ip && ip + 2 <= |code|
      modifies this
      ensures Valid()
      ensures ip == if IsFalsey(old(Stack())[|old(Stack())| - 1]) then JumpDestination(code, old(ip)) else old(ip) + 2
      ensures Stack() == old(Stack()) && Frames() == old(Frames()) && OpenList() == old(OpenList()) && errOut == old(errOut)
    {
      var offset := ReadShort(code[ip], code[ip + 1]);
      ip := ip + 2;
      var top := Peek(0);
      if IsFalsey(top) {
        ip := ip + offset;
      }
    }

    /** LOOP: go back by the 16-bit operand. */
    method OpLoop(code: seq<byte>)
      requires Valid() && 0 <= ip && ip + 2 <= |code|
      modifies this
      ensures Valid() && ip == LoopDestination(code, old(ip))
      ensures Stack() == old(Stack()) && Frames() == old(Frames()) && OpenList() == old(OpenList()) && errOut == old(errOut)
    {
      var offset := ReadShort(code[ip], code[ip + 1]);
      ip := ip + 2;
      ip := ip - offset;
    }

    /** CLOSE_UPVALUE: close the upvalues of the top slot, then pop it. */
    method OpCloseUpvalue()
      requires Valid() && stackTop > 0
      modifies this, open
      ensures Valid() && ip == old(ip)
      ensures openSlots == Below(old(openSlots), old(stackTop) - 1)
      ensures Stack() == old(Stack())[..|old(Stack())| - 1]
      ensures Frames() == old(Frames()) && errOut == old(errOut)
    {
      CloseUpvalues(stackTop - 1);
      var _ := Pop();
    }

    /** The first half of RETURN: pop the result, close the upvalues of
        the frame's slots and drop the frame. */
    method LeaveFrame() returns (result: Word, slots: int)
      requires Valid() && frameCount > 0
      requires 0 <= frames[frameCount - 1].slots && frames[frameCount - 1].slots + 2 <= stackTop
      modifies this, open
      ensures Valid() && errOut == old(errOut) && ip == old(ip)
      ensures slots == old(frames[frameCount - 1].slots) && 0 <= slots && slots + 1 <= stackTop
      ensures result == old(stack[stackTop - 1])
      ensures frameCount == old(frameCount) - 1 && Frames() == old(Frames())[..old(frameCount) - 1]
      ensures openSlots == Below(old(openSlots), slots)
      ensures Stack() == old(Stack())[..|old(Stack())| - 1]
    {
      slots := frames[frameCount - 1].slots;
      result := Pop();
      CloseUpvalues(slots);
      frameCount := frameCount - 1;
    }

    /** The second half of RETURN when a caller remains: cut the stack
        back to the returning frame's slot 0, push the result there and
        resume the caller's ip. */
    method ResumeCaller(result: Word, slots: int)
      requires Valid() && frameCount > 0 && 0 <= slots < stackTop
      modifies this, stack
      ensures Valid() && errOut == old(errOut) && ip == old(frames[frameCount - 1].ip)
      ensures Stack() == old(Stack())[..slots] + [result]
      ensures Frames() == old(Frames()) && OpenList() == old(OpenList())
    {
      stackTop := slots;
      Push(result);
      ip := frames[frameCount - 1].ip;
    }

    /** RETURN: pop the result, close the frame's upvalues and drop the
        frame. Leaving the last frame pops the script's slot 0 as well and
        ends the run (done); otherwise the stack is cut back to the
        frame's slot 0, the result goes on top, and the caller's ip is
        resumed. */
    method OpReturn() returns (done: bool)
      requires Valid() && frameCount > 0
      requires 0 <= frames[frameCount - 1].slots && frames[frameCount - 1].slots + 2 <= stackTop
      modifies this, stack, open
      ensures Valid() && errOut == old(errOut)
      ensures done <==> old(frameCount) == 1
      ensures Frames() == old(Frames())[..old(frameCount) - 1]
      ensures openSlots == Below(old(openSlots), old(frames[frameCount - 1].slots))
      ensures done ==> Stack() == old(Stack())[..|old(Stack())| - 2]
      ensures !done ==> && Stack() == old(Stack())[..old(frames[frameCount - 1].slots)] + [old(Stack())[|old(Stack())| - 1]]
                        && ip == old(frames[frameCount - 2].ip)
    {
      ghost var before := Stack();
      var result, slots := LeaveFrame();
      done := frameCount == 0;
      if done {
        var _ := Pop();
      } else {
        assert before[..|before| - 1][..slots] == before[..slots];
        ResumeCaller(result, slots);
      }
    }
  }
}
