// The mark-and-sweep collector of src/memory.cc. Objects are identified
// by their address (0 is the null pointer); the intrusive `objects`
// list is a sequence in list order, the `isMarked` flags a set, and the
// gray stack keeps its array and its grow-when-full policy. What an
// object points to (the per-type walk of blackenObject) is given as a
// map from an object to its outgoing pointers.
module Gc {
  import opened Value
  import Capacity

  const GcHeapGrowFactor: int := 2

  type Refs = map<Word, seq<Word>>

  /** A chain of non-null pointers, each one stored in the previous object. */
  ghost predicate IsPath(refs: Refs, p: seq<Word>)
  {
    && |p| > 0
    && (forall i :: 0 <= i < |p| ==> p[i] != 0)
    && (forall i :: 0 <= i < |p| - 1 ==> p[i] in refs && p[i + 1] in refs[p[i]])
  }

  /** `o` can be reached from one of `sources` by following pointers. */
  ghost predicate ReachableFrom(refs: Refs, sources: set<Word>, o: Word)
  {
    exists p :: IsPath(refs, p) && p[0] in sources && p[|p| - 1] == o
  }

  /** Every non-null pointer stored in a member of `s` points into `s`. */
  ghost predicate ClosedUnder(refs: Refs, s: set<Word>)
  {
    forall o, c :: o in s && o in refs && c in refs[o] && c != 0 ==> c in s
  }

  lemma ReachableFromItself(refs: Refs, sources: set<Word>, o: Word)
    requires o in sources && o != 0
    ensures ReachableFrom(refs, sources, o)
  {
    assert IsPath(refs, [o]);
  }

  lemma ReachableStep(refs: Refs, sources: set<Word>, o: Word, c: Word)
    requires ReachableFrom(refs, sources, o)
    requires o in refs && c in refs[o] && c != 0
    ensures ReachableFrom(refs, sources, c)
  {
    var p :| IsPath(refs, p) && p[0] in sources && p[|p| - 1] == o;
    var q := p + [c];
    assert forall i :: 0 <= i < |q| - 1 ==> q[i] in refs && q[i + 1] in refs[q[i]] by {
      forall i | 0 <= i < |q| - 1 ensures q[i] in refs && q[i + 1] in refs[q[i]] {
        if i < |p| - 1 {
          assert q[i] == p[i] && q[i + 1] == p[i + 1];
        } else {
          assert q[i] == o && q[i + 1] == c;
        }
      }
    }
    assert IsPath(refs, q);
  }

  /** A closed set that holds the start of a path holds all of it. */
  lemma {:induction false} PathStaysInClosedSet(refs: Refs, s: set<Word>, p: seq<Word>)
    requires ClosedUnder(refs, s) && IsPath(refs, p) && p[0] in s
    ensures p[|p| - 1] in s
    decreases |p|
  {
    if |p| > 1 {
      var q := p[..|p| - 1];
      assert IsPath(refs, q) by {
        assert forall i :: 0 <= i < |q| ==> q[i] == p[i];
      }
      PathStaysInClosedSet(refs, s, q);
      assert p[|p| - 2] in refs && p[|p| - 1] in refs[p[|p| - 2]];
    }
  }

  lemma ClosedSetHoldsReachable(refs: Refs, s: set<Word>, sources: set<Word>, o: Word)
    requires ClosedUnder(refs, s) && sources <= s
    requires ReachableFrom(refs, sources, o)
    ensures o in s
  {
    var p :| IsPath(refs, p) && p[0] in sources && p[|p| - 1] == o;
    PathStaysInClosedSet(refs, s, p);
  }

  /** The non-null pointers among `s`. */
  ghost function NonNull(s: seq<Word>): set<Word>
  {
    set c | c in s && c != 0
  }

  lemma NonNullSnoc(s: seq<Word>, j: nat)
    requires j < |s|
    ensures NonNull(s[..j + 1]) == NonNull(s[..j]) + (if s[j] != 0 then {s[j]} else {})
  {
    assert s[..j + 1] == s[..j] + [s[j]];
  }

  /** From gray stack g0 and mark set m0 to g and m, objects were only
      pushed, each one newly marked and pushed once. */
  ghost predicate PushedOnly(g0: seq<Word>, m0: set<Word>, g: seq<Word>, m: set<Word>)
  {
    && |g0| <= |g| && g[..|g0|] == g0
    && (forall k :: |g0| <= k < |g| ==> g[k] !in m0)
    && |g| - |g0| == |m| - |m0|
    && (forall x :: x in m && x !in m0 ==> x in g)
  }

  lemma PushedOnlyPush(g0: seq<Word>, m0: set<Word>, g: seq<Word>, m: set<Word>, o: Word)
    requires PushedOnly(g0, m0, g, m) && m0 <= m && o !in m
    ensures PushedOnly(g0, m0, g + [o], m + {o})
  {
    assert (g + [o])[..|g0|] == g[..|g0|];
  }

  /** The effect of markObject(o) on the mark set and the gray stack:
      a null or already marked object is left alone, any other object is
      marked and pushed. */
  ghost predicate MarkedOne(o: Word, m0: set<Word>, g0: seq<Word>, m: set<Word>, g: seq<Word>)
  {
    if o == 0 || o in m0 then m == m0 && g == g0 else m == m0 + {o} && g == g0 + [o]
  }

  lemma MarkAllStep(ps: seq<Word>, j: nat, ms: set<Word>, gs: seq<Word>,
                    m0: set<Word>, g0: seq<Word>, m: set<Word>, g: seq<Word>)
    requires j < |ps| && m0 == ms + NonNull(ps[..j]) && PushedOnly(gs, ms, g0, m0)
    requires MarkedOne(ps[j], m0, g0, m, g)
    ensures m == ms + NonNull(ps[..j + 1]) && PushedOnly(gs, ms, g, m)
  {
    NonNullSnoc(ps, j);
    if ps[j] != 0 && ps[j] !in m0 {
      PushedOnlyPush(gs, ms, g0, m0, ps[j]);
    }
  }

  /** The collector's colour invariant: a marked object that is no
      longer gray (black) points only to marked objects. */
  ghost predicate Tricolor(refs: Refs, marked: set<Word>, gray: seq<Word>)
  {
    forall o, c :: o in marked && o !in gray && o in refs && c in refs[o] && c != 0 ==> c in marked
  }

  /** Popping the top gray object and marking its children keeps the
      colour invariant. */
  lemma BlackenKeepsTricolor(refs: Refs, m0: set<Word>, whole: seq<Word>, m: set<Word>, g: seq<Word>)
    requires |whole| > 0 && whole[|whole| - 1] in refs
    requires Tricolor(refs, m0, whole)
    requires m == m0 + NonNull(refs[whole[|whole| - 1]])
    requires PushedOnly(whole[..|whole| - 1], m0, g, m)
    ensures Tricolor(refs, m, g)
  {
    var o := whole[|whole| - 1];
    var rest := whole[..|whole| - 1];
    assert whole == rest + [o];
    forall p, c | p in m && p !in g && p in refs && c in refs[p] && c != 0
      ensures c in m
    {
      if p != o {
        if p in m0 {
          assert p !in rest;
          assert p !in whole;
        }
      }
    }
  }

  /** Marking the children of a reachable object marks only reachable objects. */
  lemma BlackenKeepsReachable(refs: Refs, sources: set<Word>, ms: set<Word>, m0: set<Word>, o: Word, m: set<Word>)
    requires o in refs && ReachableFrom(refs, sources, o)
    requires forall x :: x in m0 && x !in ms ==> ReachableFrom(refs, sources, x)
    requires m == m0 + NonNull(refs[o])
    ensures forall x :: x in m && x !in ms ==> ReachableFrom(refs, sources, x)
  {
    forall x | x in m && x !in ms
      ensures ReachableFrom(refs, sources, x)
    {
      if x !in m0 {
        ReachableStep(refs, sources, o, x);
      }
    }
  }

  /** The tracing loop's measure: unmarked objects plus gray entries. */
  lemma TraceMeasureDrops(all: set<Word>, m0: set<Word>, m: set<Word>, gray0: nat, gray: nat)
    requires m0 <= m <= all && gray - gray0 == |m| - |m0|
    ensures |all - m| + gray < |all - m0| + gray0 + 1
  {
    assert |all - m| == |all| - |m|;
    assert |all - m0| == |all| - |m0|;
  }

  /** What the tracing loop keeps, starting from marks m0 and gray
      objects `sources`: the colour invariant, every new mark reachable
      from a source, every gray object a source or newly marked. */
  ghost predicate TraceInvariant(refs: Refs, sources: set<Word>, m0: set<Word>, all: set<Word>,
                                 marked: set<Word>, gray: seq<Word>)
  {
    && Tricolor(refs, marked, gray)
    && m0 <= marked <= all
    && (forall x :: x in marked && x !in m0 ==> ReachableFrom(refs, sources, x))
    && (forall x :: x in gray ==> x in sources || x !in m0)
  }

  /** One iteration of the tracing loop: pop the top gray object and
      blacken it. */
  lemma TraceStep(refs: Refs, sources: set<Word>, m0: set<Word>, all: set<Word>,
                  mb: set<Word>, whole: seq<Word>, m: set<Word>, g: seq<Word>)
    requires TraceInvariant(refs, sources, m0, all, mb, whole)
    requires |whole| > 0 && whole[|whole| - 1] != 0 && whole[|whole| - 1] in refs
    requires whole[|whole| - 1] in mb && whole[|whole| - 1] !in whole[..|whole| - 1]
    requires m == mb + NonNull(refs[whole[|whole| - 1]]) && m <= all
    requires PushedOnly(whole[..|whole| - 1], mb, g, m)
    ensures TraceInvariant(refs, sources, m0, all, m, g)
    ensures |all - m| + |g| < |all - mb| + |whole|
  {
    var o := whole[|whole| - 1];
    assert ReachableFrom(refs, sources, o) by {
      if o in sources {
        ReachableFromItself(refs, sources, o);
      }
    }
    BlackenKeepsTricolor(refs, mb, whole, m, g);
    BlackenKeepsReachable(refs, sources, m0, mb, o, m);
    TraceMeasureDrops(all, mb, m, |whole| - 1, |g|);
    forall x | x in g
      ensures x in sources || x !in m0
    {
      if x in whole[..|whole| - 1] {
        assert x in whole;
      }
    }
  }

  /** The objects of `objects` that are marked, in list order. */
  function Survivors(objects: seq<Word>, marked: set<Word>): (r: seq<Word>)
    ensures forall o :: o in r <==> o in objects && o in marked
    ensures |r| <= |objects|
  {
    if objects == [] then []
    else if objects[0] in marked then [objects[0]] + Survivors(objects[1..], marked)
    else Survivors(objects[1..], marked)
  }

  lemma {:induction false} SurvivorsOfPrefix(objects: seq<Word>, marked: set<Word>, i: nat)
    requires i < |objects|
    ensures Survivors(objects[..i + 1], marked)
         == Survivors(objects[..i], marked) + (if objects[i] in marked then [objects[i]] else [])
    decreases i
  {
    if i == 0 {
      assert objects[..1] == [objects[0]];
      assert objects[..1][1..] == [];
    } else {
      var tail := objects[1..];
      assert objects[..i + 1][1..] == tail[..i];
      assert objects[..i][1..] == tail[..i - 1];
      SurvivorsOfPrefix(tail, marked, i - 1);
    }
  }

  /** Pushing onto an empty gray stack from an empty mark set leaves
      exactly the marked objects gray. */
  lemma GrayFromNothing(g: seq<Word>, m: set<Word>)
    requires PushedOnly([], {}, g, m) && forall o :: o in g ==> o in m
    ensures (set x | x in g) == m
  {
    var gs := set x | x in g;
    forall x
      ensures x in gs <==> x in m
    {
      if x in m {
        assert x in g;
      }
    }
    assert gs == m;
  }

  /** Roots are reachable from themselves, so a mark set made of the roots
      and of objects reachable from them holds only reachable objects. */
  lemma MarkedAreReachable(refs: Refs, roots: set<Word>, m: set<Word>)
    requires 0 !in roots
    requires forall o :: o in m && o !in roots ==> ReachableFrom(refs, roots, o)
    ensures forall o :: o in m ==> ReachableFrom(refs, roots, o)
  {
    forall o | o in m
      ensures ReachableFrom(refs, roots, o)
    {
      if o in roots {
        ReachableFromItself(refs, roots, o);
      }
    }
  }

  /** Sweeping by a closed set of reachable objects that holds the roots
      keeps exactly the reachable objects. */
  lemma SurvivorsAreReachable(refs: Refs, roots: set<Word>, live: set<Word>, objects: seq<Word>)
    requires ClosedUnder(refs, live) && roots <= live
    requires forall o :: o in live ==> ReachableFrom(refs, roots, o)
    ensures forall o :: o in Survivors(objects, live) <==> o in objects && ReachableFrom(refs, roots, o)
  {
    forall o | o in objects && ReachableFrom(refs, roots, o)
      ensures o in live
    {
      ClosedSetHoldsReachable(refs, live, roots, o);
    }
  }

  class GC {
    var bytesAllocated: int
    var nextGC: int
    var objects: seq<Word>
    var marked: set<Word>
    var grayStack: array<Word>
    var grayCount: nat
    var grayCapacity: nat
    /** The contents of the gray stack, bottom first. */
    ghost var gray: seq<Word>

    ghost predicate Valid()
      reads this, grayStack
    {
      && grayStack.Length == grayCapacity
      && grayCount <= grayCapacity
      && 0 !in objects
      && (forall o :: o in marked ==> o in objects)
      && grayStack[..grayCount] == gray
      && (forall o :: o in gray ==> o in marked)
      && (forall i, j :: 0 <= i < j < |gray| ==> gray[i] != gray[j])
    }

    ghost function ObjectSet(): set<Word>
      reads this
    {
      set o | o in objects
    }

    /** Between collections no object is marked and the gray stack is empty. */
    ghost predicate Idle()
      reads this
    {
      marked == {} && grayCount == 0
    }

    /** Every object has a known pointer list, and its pointers are null or objects. */
    ghost predicate HeapClosed(refs: Refs)
      reads this
    {
      && (forall o :: o in objects ==> o in refs)
      && (forall o, c :: o in objects && o in refs && c in refs[o] && c != 0 ==> c in objects)
    }

    /** The zero-initialised global collector. */
    constructor ()
      ensures Valid() && Idle()
      ensures objects == [] && bytesAllocated == 0 && nextGC == 0 && grayCapacity == 0
    {
      bytesAllocated, nextGC := 0, 0;
      objects, marked := [], {};
      grayStack := new Word[0];
      grayCount, grayCapacity := 0, 0;
      gray := [];
    }

    /** placeObject: a new object goes to the front of the list, unmarked. */
    method PlaceObject(o: Word)
      requires Valid() && o != 0 && o !in objects
      modifies this
      ensures Valid()
      ensures objects == [o] + old(objects) && o !in marked && marked == old(marked)
      ensures grayCount == old(grayCount) && grayStack == old(grayStack)
      ensures bytesAllocated == old(bytesAllocated) && nextGC == old(nextGC)
    {
      objects := [o] + objects;
    }

    method MarkObject(o: Word)
      requires Valid() && (o == 0 || o in objects)
      modifies this, grayStack
      ensures grayStack == old(grayStack) || fresh(grayStack)
      ensures Valid()
      ensures objects == old(objects) && bytesAllocated == old(bytesAllocated) && nextGC == old(nextGC)
      ensures MarkedOne(o, old(marked), old(gray), marked, gray)
      ensures grayCapacity ==
                if o != 0 && o !in old(marked) && old(grayCapacity) < old(grayCount) + 1
                then Capacity.GrowCapacity(old(grayCapacity)) else old(grayCapacity)
    {
      if o == 0 {
        return;
      }
      if o in marked {
        return;
      }
      marked := marked + {o};
      if grayCapacity < grayCount + 1 {
        var newCapacity := Capacity.GrowCapacity(grayCapacity);
        var bigger := Capacity.GrowArray(grayStack, grayCount, newCapacity);
        grayStack, grayCapacity := bigger, newCapacity;
      }
      grayStack[grayCount] := o;
      grayCount := grayCount + 1;
      gray := gray + [o];
    }

    /** markValue: only object words are followed. */
    method MarkValue(v: Word)
      requires Valid() && (IsObj(v) ==> AsObj(v) == 0 || AsObj(v) in objects)
      modifies this, grayStack
      ensures grayStack == old(grayStack) || fresh(grayStack)
      ensures Valid()
      ensures objects == old(objects) && bytesAllocated == old(bytesAllocated) && nextGC == old(nextGC)
      ensures MarkedOne(if IsObj(v) then AsObj(v) else 0, old(marked), old(gray), marked, gray)
    {
      if IsObj(v) {
        MarkObject(AsObj(v));
      }
    }

    /** Mark each pointer of `ps` in turn (the loops of blackenObject,
        markArray and the root walk). */
    method MarkAll(ps: seq<Word>)
      requires Valid() && forall c :: c in ps ==> c == 0 || c in objects
      modifies this, grayStack
      ensures grayStack == old(grayStack) || fresh(grayStack)
      ensures Valid()
      ensures objects == old(objects) && bytesAllocated == old(bytesAllocated) && nextGC == old(nextGC)
      ensures marked == old(marked) + NonNull(ps)
      ensures PushedOnly(old(gray), old(marked), gray, marked)
    {
      ghost var g0, m0 := gray, marked;
      var j := 0;
      while j < |ps|
        invariant 0 <= j <= |ps|
        invariant Valid()
        invariant objects == old(objects) && bytesAllocated == old(bytesAllocated) && nextGC == old(nextGC)
        invariant marked == m0 + NonNull(ps[..j])
        invariant grayStack == old(grayStack) || fresh(grayStack)
        invariant PushedOnly(g0, m0, gray, marked)
      {
        ghost var before := gray;
        ghost var markedBefore := marked;
        MarkObject(ps[j]);
        MarkAllStep(ps, j, m0, g0, markedBefore, before, marked, gray);
        j := j + 1;
      }
      assert ps[..j] == ps;
    }

    /** blackenObject: mark everything the object points to. */
    method BlackenObject(o: Word, refs: Refs)
      requires Valid() && HeapClosed(refs) && o in objects
      modifies this, grayStack
      ensures grayStack == old(grayStack) || fresh(grayStack)
      ensures Valid()
      ensures objects == old(objects) && bytesAllocated == old(bytesAllocated) && nextGC == old(nextGC)
      ensures marked == old(marked) + NonNull(refs[o])
      ensures PushedOnly(old(gray), old(marked), gray, marked)
    {
      MarkAll(refs[o]);
    }

    /** One round of traceReferences: pop the top of the gray stack and
        blacken it. */
    method BlackenTop(refs: Refs, ghost sources: set<Word>, ghost m0: set<Word>, ghost all: set<Word>)
      requires Valid() && HeapClosed(refs) && grayCount > 0
      requires all == set x | x in objects
      requires TraceInvariant(refs, sources, m0, all, marked, gray)
      modifies this, grayStack
      ensures grayStack == old(grayStack) || fresh(grayStack)
      ensures Valid()
      ensures objects == old(objects) && bytesAllocated == old(bytesAllocated) && nextGC == old(nextGC)
      ensures TraceInvariant(refs, sources, m0, all, marked, gray)
      ensures |all - marked| + grayCount < |all - old(marked)| + old(grayCount)
    {
      var o := grayStack[grayCount - 1];
      ghost var whole := gray;
      ghost var markedBefore := marked;
      assert o == whole[|whole| - 1];
      grayCount := grayCount - 1;
      gray := whole[..|whole| - 1];
      BlackenObject(o, refs);
      assert marked <= all by {
        forall x | x in marked ensures x in all {
          assert x in objects;
        }
      }
      TraceStep(refs, sources, m0, all, markedBefore, whole, marked, gray);
    }

    /** traceReferences: blacken gray objects until the gray stack is empty.
        Afterwards the marked objects are exactly those marked before and
        those reachable from an object that was gray. */
    method TraceReferences(refs: Refs)
      requires Valid() && HeapClosed(refs) && Tricolor(refs, marked, gray)
      modifies this, grayStack
      ensures grayStack == old(grayStack) || fresh(grayStack)
      ensures Valid() && grayCount == 0
      ensures objects == old(objects) && bytesAllocated == old(bytesAllocated) && nextGC == old(nextGC)
      ensures old(marked) <= marked
      ensures ClosedUnder(refs, marked)
      ensures forall o :: o in marked && o !in old(marked) ==> ReachableFrom(refs, (set x | x in old(gray)), o)
    {
      ghost var sources := set x | x in gray;
      ghost var m0 := marked;
      ghost var all := set x | x in objects;
      assert marked <= all by {
        forall x | x in marked ensures x in all {
          assert x in objects;
        }
      }
      while grayCount > 0
        invariant Valid()
        invariant objects == old(objects) && bytesAllocated == old(bytesAllocated) && nextGC == old(nextGC)
        invariant grayStack == old(grayStack) || fresh(grayStack)
        invariant TraceInvariant(refs, sources, m0, all, marked, gray)
        decreases |all - marked| + grayCount
      {
        BlackenTop(refs, sources, m0, all);
      }
      assert gray == [];
    }

    /** sweep: unlink and free every unmarked object, clear the marks of the rest. */
    method Sweep()
      requires Valid() && grayCount == 0
      modifies this
      ensures Valid() && Idle()
      ensures objects == Survivors(old(objects), old(marked))
      ensures grayStack == old(grayStack) && grayCapacity == old(grayCapacity)
      ensures bytesAllocated == old(bytesAllocated) && nextGC == old(nextGC)
    {
      var kept: seq<Word> := [];
      var i := 0;
      while i < |objects|
        invariant 0 <= i <= |objects|
        invariant kept == Survivors(objects[..i], marked)
        invariant objects == old(objects) && marked == old(marked) && grayCount == 0
        invariant grayStack == old(grayStack) && grayCapacity == old(grayCapacity) && gray == old(gray)
        invariant bytesAllocated == old(bytesAllocated) && nextGC == old(nextGC)
      {
        SurvivorsOfPrefix(objects, marked, i);
        if objects[i] in marked {
          kept := kept + [objects[i]];
        }
        i := i + 1;
      }
      assert objects[..i] == objects;
      assert forall o :: o in kept ==> o in objects;
      objects, marked := kept, {};
    }

    /** collectGarbage: mark from the roots, trace, sweep, and set the next
        threshold to twice the live size. Exactly the allocated objects
        reachable from a root survive; every other object is freed. */
    method CollectGarbage(roots: seq<Word>, refs: Refs)
      requires Valid() && Idle() && HeapClosed(refs)
      requires forall r :: r in roots ==> r == 0 || r in objects
      modifies this, grayStack
      ensures grayStack == old(grayStack) || fresh(grayStack)
      ensures Valid() && Idle()
      ensures nextGC == GcHeapGrowFactor * bytesAllocated && bytesAllocated == old(bytesAllocated)
      ensures forall o :: o in objects <==> o in old(objects) && ReachableFrom(refs, NonNull(roots), o)
    {
      ghost var rootSet := NonNull(roots);
      // vm->markRoots()
      MarkAll(roots);
      GrayFromNothing(gray, marked);
      assert Tricolor(refs, marked, gray);
      TraceReferences(refs);
      ghost var live := marked;
      MarkedAreReachable(refs, rootSet, live);
      Sweep();
      SurvivorsAreReachable(refs, rootSet, live, old(objects));
      nextGC := bytesAllocated * GcHeapGrowFactor;
    }

    /** trigger: account for an allocation of newSize bytes replacing
        oldSize bytes; only a growing allocation can start a collection. */
    method Trigger(oldSize: int, newSize: int, roots: seq<Word>, refs: Refs)
      requires Valid() && Idle() && HeapClosed(refs)
      requires forall r :: r in roots ==> r == 0 || r in objects
      modifies this, grayStack
      ensures grayStack == old(grayStack) || fresh(grayStack)
      ensures Valid() && Idle()
      ensures bytesAllocated == old(bytesAllocated) + newSize - oldSize
      ensures newSize <= oldSize || bytesAllocated <= old(nextGC) ==>
                objects == old(objects) && nextGC == old(nextGC)
      ensures newSize > oldSize && bytesAllocated > old(nextGC) ==>
                nextGC == GcHeapGrowFactor * bytesAllocated
      ensures newSize > oldSize && bytesAllocated > old(nextGC) ==>
                forall o :: o in objects <==> o in old(objects) && ReachableFrom(refs, NonNull(roots), o)
      ensures forall o :: o in objects ==> o in old(objects)
      ensures forall o :: o in old(objects) && ReachableFrom(refs, NonNull(roots), o) ==> o in objects
    {
      bytesAllocated := bytesAllocated + (newSize - oldSize);
      if newSize > oldSize {
        if bytesAllocated > nextGC {
          CollectGarbage(roots, refs);
        }
      }
    }
  }
}
