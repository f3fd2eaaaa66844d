// The hash table of src/table.cc: open addressing with linear probing
// and tombstones, keyed by string objects compared by identity.
//
// An entry with a null key is either empty (value nil) or a tombstone
// (any other value; del writes `true`). `count` counts every entry that
// is not empty, live or tombstone. The probe start `hash & (capacity - 1)`
// and the step `(index + 1) & (capacity - 1)` are computed with the mask
// (BitAnd); the proofs reason with `% capacity`, which is the same number
// because every capacity is a power of two (MaskIsRemainder,
// Capacity.GrowKeepsPowerOfTwo).
module Table {
  import opened Value
  import Capacity
  import Object

  datatype Entry = Entry(key: Object.ObjString?, value: Word)

  const EmptyEntry := Entry(null, NilVal)
  /** The entry del leaves behind: a null key and `BOOL_VAL(true)`. */
  const Tombstone := Entry(null, TrueVal)

  predicate IsEmpty(e: Entry) { e.key == null && IsNil(e.value) }
  predicate IsTombstone(e: Entry) { e.key == null && !IsNil(e.value) }

  // ---------------------------------------------------------------------
  // Probe sequences. The d-th slot probed from `home` in a table of `c`
  // slots, and the number of steps from `home` to slot j.

  function Probe(home: nat, d: nat, c: nat): (r: nat)
    requires home < c && d < c
    ensures r < c
  {
    if home + d < c then home + d else home + d - c
  }

  function Dist(home: nat, j: nat, c: nat): (d: nat)
    requires home < c && j < c
    ensures d < c
  {
    if home <= j then j - home else j + c - home
  }

  lemma ProbeDist(home: nat, j: nat, c: nat)
    requires home < c && j < c
    ensures Probe(home, Dist(home, j, c), c) == j
  {
  }

  lemma DistProbe(home: nat, d: nat, c: nat)
    requires home < c && d < c
    ensures Dist(home, Probe(home, d, c), c) == d
  {
  }

  // ---------------------------------------------------------------------
  // The probe mask.

  /** `a & b` on non-negative integers, bit by bit from the lowest. */
  function BitAnd(a: nat, b: nat): nat
    decreases a
  {
    if a == 0 || b == 0 then 0
    else 2 * BitAnd(a / 2, b / 2) + (if a % 2 == 1 && b % 2 == 1 then 1 else 0)
  }

  /** The remainder is the only one: x == c * m + t with 0 <= t < c. */
  lemma RemainderUnique(x: int, c: int, m: int, t: int)
    requires c > 0 && 0 <= t < c && x == c * m + t
    ensures x % c == t
  {
    var k := x / c - m;
    assert c * k == t - x % c;
    assert -c < c * k < c;
  }

  lemma RemainderOfHalves(x: nat, h: nat)
    requires h > 0
    ensures x % (2 * h) == 2 * ((x / 2) % h) + x % 2
  {
    var q, r := x / 2, x % 2;
    var m, t := q / h, q % h;
    assert x == (2 * h) * m + (2 * t + r) by {
      assert q == h * m + t;
      assert x == 2 * q + r;
    }
    RemainderUnique(x, 2 * h, m, 2 * t + r);
  }

  /** For a power of two c, masking with c - 1 keeps the remainder modulo c:
      the reason the table's capacity must be a power of two. */
  lemma {:induction false} MaskIsRemainder(x: nat, c: nat)
    requires Capacity.IsPowerOfTwo(c)
    ensures BitAnd(x, c - 1) == x % c
    decreases c
  {
    if c != 1 && x != 0 {
      var h := c / 2;
      assert Capacity.IsPowerOfTwo(h);
      assert c == 2 * h;
      MaskIsRemainder(x / 2, h);
      assert (c - 1) / 2 == h - 1 && (c - 1) % 2 == 1;
      RemainderOfHalves(x, h);
    }
  }

  /** `(index + 1) & (capacity - 1)`, which is `(index + 1) % capacity`
      when the capacity is a power of two, moves one step along the probe
      sequence. */
  lemma ProbeNext(home: nat, d: nat, c: nat)
    requires home < c && d + 1 < c
    ensures Probe(home, d + 1, c) == (Probe(home, d, c) + 1) % c
    ensures Capacity.IsPowerOfTwo(c) ==> Probe(home, d + 1, c) == BitAnd(Probe(home, d, c) + 1, c - 1)
  {
    var next := Probe(home, d, c) + 1;
    assert Probe(home, d + 1, c) == next % c;
    if Capacity.IsPowerOfTwo(c) {
      MaskIsRemainder(next, c);
    }
  }

  /** The slot a key's probe sequence starts at. */
  function Home(k: Object.ObjString, c: nat): (h: nat)
    requires c > 0
    ensures h < c
  {
    k.hash % c
  }

  /** `hash & (capacity - 1)` is the home slot. */
  lemma HomeIsMask(k: Object.ObjString, c: nat)
    requires Capacity.IsPowerOfTwo(c)
    ensures Home(k, c) == BitAnd(k.hash, c - 1)
  {
    MaskIsRemainder(k.hash, c);
  }

  // ---------------------------------------------------------------------
  // Invariants of the entry array, on its contents.

  /** No key is stored twice. */
  ghost predicate KeysUnique(es: seq<Entry>)
  {
    forall i, j :: 0 <= i < |es| && 0 <= j < |es| && es[i].key != null && es[i].key == es[j].key ==> i == j
  }

  /** The first n slots probed from home are all in use (live or tombstone). */
  ghost predicate ClearPath(es: seq<Entry>, home: nat, n: nat)
    requires home < |es| && n <= |es|
  {
    forall d {:trigger Probe(home, d, |es|)} :: 0 <= d < n ==> !IsEmpty(es[Probe(home, d, |es|)])
  }

  /** The first n slots probed from home all hold live keys. */
  ghost predicate LivePath(es: seq<Entry>, home: nat, n: nat)
    requires home < |es| && n <= |es|
  {
    forall d {:trigger Probe(home, d, |es|)} :: 0 <= d < n ==> es[Probe(home, d, |es|)].key != null
  }

  /** Every live key is reached from its home slot without passing an
      empty slot: the property that lets a probe stop at the first empty one. */
  ghost predicate ProbeOk(es: seq<Entry>)
  {
    forall j :: 0 <= j < |es| && es[j].key != null ==>
      ClearPath(es, Home(es[j].key, |es|), Dist(Home(es[j].key, |es|), j, |es|))
  }

  /** The key-value pairs the entries hold. */
  ghost function Contents(es: seq<Entry>): map<Object.ObjString, Word>
    requires KeysUnique(es)
  {
    map i | 0 <= i < |es| && es[i].key != null :: es[i].key as Object.ObjString := es[i].value
  }

  /** The number of entries in use. */
  function UsedCount(es: seq<Entry>): nat
  {
    if es == [] then 0 else UsedCount(es[..|es| - 1]) + (if IsEmpty(es[|es| - 1]) then 0 else 1)
  }

  /** The number of live entries. */
  function LiveCount(es: seq<Entry>): nat
  {
    if es == [] then 0 else LiveCount(es[..|es| - 1]) + (if es[|es| - 1].key == null then 0 else 1)
  }

  lemma KeyInContents(es: seq<Entry>, k: Object.ObjString)
    requires KeysUnique(es)
    ensures k in Contents(es) <==> exists i :: 0 <= i < |es| && es[i].key == k
  {
    if exists i :: 0 <= i < |es| && es[i].key == k {
      var i :| 0 <= i < |es| && es[i].key == k;
      assert es[i].key as Object.ObjString == k;
    }
  }

  lemma ValueInContents(es: seq<Entry>, i: nat)
    requires KeysUnique(es) && i < |es| && es[i].key != null
    ensures es[i].key in Contents(es) && Contents(es)[es[i].key] == es[i].value
  {
    assert es[i].key as Object.ObjString in Contents(es);
  }

  /** Two entry arrays with the same live (key, value) pairs slot by slot
      hold the same contents. */
  lemma SameContents(es': seq<Entry>, m: map<Object.ObjString, Word>)
    requires KeysUnique(es')
    requires forall x :: x in m ==> exists j :: 0 <= j < |es'| && es'[j] == Entry(x, m[x])
    requires forall j :: 0 <= j < |es'| && es'[j].key != null ==> es'[j].key in m && m[es'[j].key] == es'[j].value
    ensures Contents(es') == m
  {
    var m' := Contents(es');
    forall x | x in m'
      ensures x in m && m'[x] == m[x]
    {
      KeyInContents(es', x);
      var j :| 0 <= j < |es'| && es'[j].key == x;
      ValueInContents(es', j);
    }
    forall x | x in m
      ensures x in m'
    {
      var j :| 0 <= j < |es'| && es'[j] == Entry(x, m[x]);
      ValueInContents(es', j);
    }
  }

  /** Storing key k at slot i, where slot i held k or was free and k was
      stored nowhere else, maps k to the new value. */
  lemma ContentsAfterStore(es: seq<Entry>, i: nat, k: Object.ObjString, v: Word)
    requires KeysUnique(es) && i < |es|
    requires es[i].key == k || (es[i].key == null && forall j :: 0 <= j < |es| ==> es[j].key != k)
    ensures KeysUnique(es[i := Entry(k, v)])
    ensures Contents(es[i := Entry(k, v)]) == Contents(es)[k := v]
  {
    var es' := es[i := Entry(k, v)];
    var m := Contents(es)[k := v];
    forall x | x in m
      ensures exists j :: 0 <= j < |es'| && es'[j] == Entry(x, m[x])
    {
      if x == k {
        assert es'[i] == Entry(x, m[x]);
      } else {
        KeyInContents(es, x);
        var j :| 0 <= j < |es| && es[j].key == x;
        ValueInContents(es, j);
        assert es'[j] == Entry(x, m[x]);
      }
    }
    forall j | 0 <= j < |es'| && es'[j].key != null
      ensures es'[j].key in m && m[es'[j].key] == es'[j].value
    {
      if j != i {
        ValueInContents(es, j);
      }
    }
    SameContents(es', m);
  }

  /** Turning the live entry of k into a tombstone removes k. */
  lemma ContentsAfterDelete(es: seq<Entry>, i: nat)
    requires KeysUnique(es) && i < |es| && es[i].key != null
    ensures KeysUnique(es[i := Tombstone])
    ensures Contents(es[i := Tombstone]) == Contents(es) - {es[i].key}
  {
    var es' := es[i := Tombstone];
    var m := Contents(es) - {es[i].key};
    forall x | x in m
      ensures exists j :: 0 <= j < |es'| && es'[j] == Entry(x, m[x])
    {
      KeyInContents(es, x);
      var j :| 0 <= j < |es| && es[j].key == x;
      ValueInContents(es, j);
      assert es'[j] == Entry(x, m[x]);
    }
    forall j | 0 <= j < |es'| && es'[j].key != null
      ensures es'[j].key in m && m[es'[j].key] == es'[j].value
    {
      ValueInContents(es, j);
    }
    SameContents(es', m);
  }

  lemma {:induction false} UsedCountUpdate(es: seq<Entry>, i: nat, e: Entry)
    requires i < |es|
    ensures UsedCount(es[i := e]) ==
      UsedCount(es) - (if IsEmpty(es[i]) then 0 else 1) + (if IsEmpty(e) then 0 else 1)
    decreases |es|
  {
    var es' := es[i := e];
    if i == |es| - 1 {
      assert es'[..|es'| - 1] == es[..|es| - 1];
    } else {
      assert es'[..|es'| - 1] == es[..|es| - 1][i := e];
      UsedCountUpdate(es[..|es| - 1], i, e);
    }
  }

  /** Fewer used entries than slots leaves an empty slot. */
  lemma {:induction false} EmptySlotExists(es: seq<Entry>)
    requires UsedCount(es) < |es|
    ensures exists i :: 0 <= i < |es| && IsEmpty(es[i])
    decreases |es|
  {
    var last := |es| - 1;
    if !IsEmpty(es[last]) {
      EmptySlotExists(es[..last]);
      var i :| 0 <= i < last && IsEmpty(es[..last][i]);
      assert IsEmpty(es[i]);
    }
  }

  /** A table with no used entry holds nothing. */
  lemma {:induction false} NothingUsedMeansEmpty(es: seq<Entry>)
    requires UsedCount(es) == 0
    ensures forall i :: 0 <= i < |es| ==> IsEmpty(es[i])
    decreases |es|
  {
    if es != [] {
      NothingUsedMeansEmpty(es[..|es| - 1]);
      assert forall i :: 0 <= i < |es| - 1 ==> es[i] == es[..|es| - 1][i];
    }
  }

  lemma {:induction false} AllEmptyUsedCount(es: seq<Entry>)
    requires forall i :: 0 <= i < |es| ==> IsEmpty(es[i])
    ensures UsedCount(es) == 0
    decreases |es|
  {
    if es != [] {
      AllEmptyUsedCount(es[..|es| - 1]);
    }
  }

  lemma {:induction false} LiveAtMostUsed(es: seq<Entry>)
    ensures LiveCount(es) <= UsedCount(es)
    decreases |es|
  {
    if es != [] {
      LiveAtMostUsed(es[..|es| - 1]);
    }
  }

  lemma {:induction false} LiveCountOfPrefix(es: seq<Entry>, i: nat)
    requires i <= |es|
    ensures LiveCount(es[..i]) <= LiveCount(es)
    decreases |es| - i
  {
    if i < |es| {
      LiveCountOfPrefix(es, i + 1);
      assert es[..i + 1][..i] == es[..i];
    } else {
      assert es[..i] == es;
    }
  }

  lemma KeysUniquePrefix(es: seq<Entry>, i: nat)
    requires KeysUnique(es) && i <= |es|
    ensures KeysUnique(es[..i])
  {
  }

  /** The contents of a prefix grow by one pair per live entry. */
  lemma ContentsSnoc(es: seq<Entry>, i: nat)
    requires KeysUnique(es) && i < |es|
    ensures KeysUnique(es[..i]) && KeysUnique(es[..i + 1])
    ensures es[i].key != null ==> es[i].key !in Contents(es[..i])
    ensures Contents(es[..i + 1]) ==
      if es[i].key == null then Contents(es[..i]) else Contents(es[..i])[es[i].key := es[i].value]
  {
    var p, q := es[..i], es[..i + 1];
    var k := es[i].key;
    if k != null {
      KeyInContents(p, k);
    }
    var m := if k == null then Contents(p) else Contents(p)[k := es[i].value];
    forall x | x in m
      ensures exists j :: 0 <= j < |q| && q[j] == Entry(x, m[x])
    {
      if x == k {
        assert q[i] == Entry(x, m[x]);
      } else {
        KeyInContents(p, x);
        var j :| 0 <= j < |p| && p[j].key == x;
        ValueInContents(p, j);
        assert q[j] == Entry(x, m[x]);
      }
    }
    forall j | 0 <= j < |q| && q[j].key != null
      ensures q[j].key in m && m[q[j].key] == q[j].value
    {
      if j != i {
        ValueInContents(p, j);
      }
    }
    SameContents(q, m);
  }

  /** Writing a non-empty entry keeps every path clear, and a key stored at
      the end of a path of used slots from its home keeps ProbeOk. */
  lemma StoreKeepsProbeOk(es: seq<Entry>, i: nat, e: Entry)
    requires ProbeOk(es) && i < |es| && !IsEmpty(e)
    requires e.key != null && es[i].key != e.key ==>
      ClearPath(es, Home(e.key, |es|), Dist(Home(e.key, |es|), i, |es|))
    ensures ProbeOk(es[i := e])
  {
    var es' := es[i := e];
    forall j | 0 <= j < |es'| && es'[j].key != null
      ensures ClearPath(es', Home(es'[j].key, |es'|), Dist(Home(es'[j].key, |es'|), j, |es'|))
    {
      var h := Home(es'[j].key, |es'|);
      forall d | 0 <= d < Dist(h, j, |es'|)
        ensures !IsEmpty(es'[Probe(h, d, |es'|)])
      {
        if j == i && es[i].key != e.key {
          assert ClearPath(es, h, Dist(h, i, |es|));
        } else {
          assert ClearPath(es, h, Dist(h, j, |es|));
        }
      }
    }
  }

  /** A probe from k's home that stops at an empty slot, having passed
      no slot holding k, shows k is not in the table. */
  lemma AbsentBeforeEmpty(es: seq<Entry>, k: Object.ObjString, s: nat)
    requires ProbeOk(es) && |es| > 0 && s < |es|
    requires IsEmpty(es[Probe(Home(k, |es|), s, |es|)])
    requires forall d :: 0 <= d < s ==> es[Probe(Home(k, |es|), d, |es|)].key != k
    ensures forall j :: 0 <= j < |es| ==> es[j].key != k
  {
    var h := Home(k, |es|);
    forall j | 0 <= j < |es|
      ensures es[j].key != k
    {
      if es[j].key == k {
        ProbeDist(h, j, |es|);
      }
    }
  }

  /** The invariants of the entry array after storing (k, v) at a slot
      findEntry returned: uniqueness and probe paths are kept, the used
      count grows exactly when the slot was empty, and k now maps to v. */
  lemma StoreStep(es: seq<Entry>, index: nat, k: Object.ObjString, v: Word)
    requires KeysUnique(es) && ProbeOk(es) && index < |es|
    requires es[index].key == k ||
      (es[index].key == null && (forall j :: 0 <= j < |es| ==> es[j].key != k) &&
       LivePath(es, Home(k, |es|), Dist(Home(k, |es|), index, |es|)))
    ensures KeysUnique(es[index := Entry(k, v)]) && ProbeOk(es[index := Entry(k, v)])
    ensures UsedCount(es[index := Entry(k, v)]) == UsedCount(es) + (if IsEmpty(es[index]) then 1 else 0)
    ensures Contents(es[index := Entry(k, v)]) == Contents(es)[k := v]
  {
    ContentsAfterStore(es, index, k, v);
    UsedCountUpdate(es, index, Entry(k, v));
    StoreKeepsProbeOk(es, index, Entry(k, v));
  }

  /** The invariant of a table's entry array and its count: at most three
      quarters of the slots in use, count equal to the slots in use, keys
      unique, every key reachable along its probe sequence. */
  ghost predicate Inv(es: seq<Entry>, count: nat)
  {
    && 4 * count <= 3 * |es|
    && count == UsedCount(es)
    && KeysUnique(es)
    && ProbeOk(es)
  }

  /** Capacities are 0 or a power of two of at least 8. */
  ghost predicate GoodCapacity(c: nat)
  {
    c == 0 || (c >= Capacity.MinCapacity && Capacity.IsPowerOfTwo(c))
  }

  lemma InvAfterStore(es: seq<Entry>, count: nat, index: nat, k: Object.ObjString, v: Word)
    requires Inv(es, count) && 4 * (count + 1) <= 3 * |es| && index < |es|
    requires es[index].key == k ||
      (es[index].key == null && (forall j :: 0 <= j < |es| ==> es[j].key != k) &&
       LivePath(es, Home(k, |es|), Dist(Home(k, |es|), index, |es|)))
    ensures Inv(es[index := Entry(k, v)], count + (if IsEmpty(es[index]) then 1 else 0))
    ensures Contents(es[index := Entry(k, v)]) == Contents(es)[k := v]
  {
    StoreStep(es, index, k, v);
  }

  /** The invariants after turning the live entry at slot i into a
      tombstone: the used count is unchanged and its key is removed. */
  lemma InvAfterDelete(es: seq<Entry>, count: nat, i: nat)
    requires Inv(es, count) && i < |es| && es[i].key != null
    ensures Inv(es[i := Tombstone], count)
    ensures Contents(es[i := Tombstone]) == Contents(es) - {es[i].key}
  {
    ContentsAfterDelete(es, i);
    UsedCountUpdate(es, i, Tombstone);
    StoreKeepsProbeOk(es, i, Tombstone);
  }

  /** A probe for (chars, hash) that reaches an empty slot, having passed
      no live key with that text and hash, shows no such key is stored. */
  lemma NoMatchBeforeEmpty(es: seq<Entry>, chars: string, hash: Object.Uint32, s: nat)
    requires ProbeOk(es) && |es| > 0 && s < |es|
    requires IsEmpty(es[Probe(hash % |es|, s, |es|)])
    requires forall d :: 0 <= d < s ==> !Matches(es[Probe(hash % |es|, d, |es|)], chars, hash)
    ensures forall j :: 0 <= j < |es| ==> !Matches(es[j], chars, hash)
  {
    var h := hash % |es|;
    forall j | 0 <= j < |es|
      ensures !Matches(es[j], chars, hash)
    {
      if Matches(es[j], chars, hash) {
        ProbeDist(h, j, |es|);
      }
    }
  }

  /** The test findString applies to an entry: a live key with this text and hash. */
  predicate Matches(e: Entry, chars: string, hash: Object.Uint32)
  {
    e.key != null && e.key.str == chars && e.key.hash == hash
  }

  /** Tombstoning the entries whose keys are not in keep leaves the pairs
      whose keys are. */
  lemma ContentsAfterFilter(es: seq<Entry>, es': seq<Entry>, keep: set<Object.ObjString>)
    requires KeysUnique(es) && |es'| == |es|
    requires forall j :: 0 <= j < |es| ==>
      es'[j] == if es[j].key != null && es[j].key !in keep then Tombstone else es[j]
    ensures KeysUnique(es')
    ensures Contents(es') == map k | k in Contents(es) && k in keep :: Contents(es)[k]
  {
    var m := map k | k in Contents(es) && k in keep :: Contents(es)[k];
    forall x | x in m
      ensures exists j :: 0 <= j < |es'| && es'[j] == Entry(x, m[x])
    {
      KeyInContents(es, x);
      var j :| 0 <= j < |es| && es[j].key == x;
      ValueInContents(es, j);
      assert es'[j] == Entry(x, m[x]);
    }
    forall j | 0 <= j < |es'| && es'[j].key != null
      ensures es'[j].key in m && m[es'[j].key] == es'[j].value
    {
      ValueInContents(es, j);
    }
    SameContents(es', m);
  }

  /** `allocate_array<Entry>(capacity)` followed by the loop that sets
      every key to null and every value to nil. */
  method EmptyEntries(capacity: nat) returns (entries: array<Entry>)
    ensures fresh(entries) && entries.Length == capacity
    ensures forall j :: 0 <= j < capacity ==> entries[j] == EmptyEntry
    ensures UsedCount(entries[..]) == 0 && KeysUnique(entries[..]) && ProbeOk(entries[..])
    ensures Contents(entries[..]) == map[]
  {
    entries := new Entry[capacity];
    var i := 0;
    while i < capacity
      invariant 0 <= i <= capacity
      invariant forall j :: 0 <= j < i ==> entries[j] == EmptyEntry
    {
      entries[i] := EmptyEntry;
      i := i + 1;
    }
    AllEmptyUsedCount(entries[..]);
    assert Contents(entries[..]) == map[];
  }

  /** findEntry: probe from the key's home slot. Returns the slot holding
      the key if there is one; otherwise the first tombstone on the way,
      or the empty slot that ended the probe if there was none. Either way
      every slot probed before the one returned holds a live key other
      than this one. */
  method FindEntry(entries: array<Entry>, capacity: nat, key: Object.ObjString) returns (index: nat)
    requires entries.Length == capacity && capacity > 0 && Capacity.IsPowerOfTwo(capacity)
    requires KeysUnique(entries[..]) && ProbeOk(entries[..])
    requires exists i :: 0 <= i < capacity && IsEmpty(entries[i])
    ensures index < capacity
    ensures (exists j :: 0 <= j < capacity && entries[j].key == key) ==> entries[index].key == key
    ensures (forall j :: 0 <= j < capacity ==> entries[j].key != key) ==>
      && entries[index].key == null
      && LivePath(entries[..], Home(key, capacity), Dist(Home(key, capacity), index, capacity))
  {
    ghost var es := entries[..];
    ghost var home := Home(key, capacity);
    HomeIsMask(key, capacity);
    index := BitAnd(key.hash, capacity - 1);
    var tombstone: int := -1;
    ghost var steps: nat := 0;
    ghost var e :| 0 <= e < capacity && IsEmpty(entries[e]);
    ghost var de := Dist(home, e, capacity);
    ProbeDist(home, e, capacity);
    while true
      invariant steps <= de
      invariant index == Probe(home, steps, capacity)
      invariant forall d :: 0 <= d < steps ==> !IsEmpty(es[Probe(home, d, capacity)]) && es[Probe(home, d, capacity)].key != key
      invariant tombstone == -1 ==> LivePath(es, home, steps)
      invariant tombstone != -1 ==>
        && 0 <= tombstone < capacity && IsTombstone(es[tombstone])
        && Dist(home, tombstone, capacity) < steps
        && LivePath(es, home, Dist(home, tombstone, capacity))
      decreases de - steps
    {
      if entries[index].key == null {
        if IsNil(entries[index].value) {
          AbsentBeforeEmpty(es, key, steps);
          if tombstone != -1 {
            index := tombstone;
          }
          return;
        }
        if tombstone == -1 {
          tombstone := index;
          DistProbe(home, steps, capacity);
        }
      } else if entries[index].key == key {
        return;
      }
      ProbeNext(home, steps, capacity);
      index := BitAnd(index + 1, capacity - 1);
      steps := steps + 1;
    }
  }

  /** One step of adjustCapacity's loop: findEntry in a tombstone-free
      array and store a live entry whose key is not there yet. */
  method Reinsert(dest: array<Entry>, entry: Entry)
    requires entry.key != null
    requires KeysUnique(dest[..]) && ProbeOk(dest[..]) && UsedCount(dest[..]) < dest.Length
    requires Capacity.IsPowerOfTwo(dest.Length)
    requires forall j :: 0 <= j < dest.Length ==> !IsTombstone(dest[j])
    requires entry.key !in Contents(dest[..])
    modifies dest
    ensures KeysUnique(dest[..]) && ProbeOk(dest[..])
    ensures UsedCount(dest[..]) == old(UsedCount(dest[..])) + 1
    ensures forall j :: 0 <= j < dest.Length ==> !IsTombstone(dest[j])
    ensures Contents(dest[..]) == old(Contents(dest[..]))[entry.key := entry.value]
  {
    EmptySlotExists(dest[..]);
    KeyInContents(dest[..], entry.key);
    var index := FindEntry(dest, dest.Length, entry.key);
    ghost var before := dest[..];
    StoreStep(before, index, entry.key, entry.value);
    dest[index] := entry;
    assert dest[..] == before[index := entry];
  }

  /** The loop of adjustCapacity: a fresh array of the new size holding
      the live entries of src and no tombstone, and the number of them. */
  method Rehash(src: array<Entry>, newCapacity: nat) returns (dest: array<Entry>, live: nat)
    requires KeysUnique(src[..]) && LiveCount(src[..]) < newCapacity && Capacity.IsPowerOfTwo(newCapacity)
    ensures fresh(dest) && dest.Length == newCapacity
    ensures live == LiveCount(src[..]) && live == UsedCount(dest[..])
    ensures KeysUnique(dest[..]) && ProbeOk(dest[..])
    ensures Contents(dest[..]) == Contents(src[..])
    ensures forall j :: 0 <= j < newCapacity ==> !IsTombstone(dest[j])
  {
    dest := EmptyEntries(newCapacity);
    ghost var es := src[..];
    assert Contents(es[..0]) == map[];
    live := 0;
    var i := 0;
    while i < src.Length
      invariant 0 <= i <= src.Length
      invariant fresh(dest) && dest.Length == newCapacity
      invariant live == UsedCount(dest[..]) && live == LiveCount(es[..i])
      invariant KeysUnique(dest[..]) && ProbeOk(dest[..])
      invariant forall j :: 0 <= j < newCapacity ==> !IsTombstone(dest[j])
      invariant Contents(dest[..]) == Contents(es[..i])
    {
      ContentsSnoc(es, i);
      assert es[..i + 1][..i] == es[..i];
      var entry := src[i];
      if entry.key != null {
        LiveCountOfPrefix(es, i);
        Reinsert(dest, entry);
        live := live + 1;
      }
      i := i + 1;
    }
    assert es[..i] == es;
  }

  /** findEntry followed by the store of set: the slot found now holds the
      pair; it was empty (and the used count grows) or held the key or a
      tombstone. */
  method Put(entries: array<Entry>, ghost count: nat, key: Object.ObjString, value: Word)
    returns (index: nat, isNewKey: bool, grew: bool)
    requires Inv(entries[..], count) && 4 * (count + 1) <= 3 * entries.Length
    requires exists i :: 0 <= i < entries.Length && IsEmpty(entries[i])
    requires Capacity.IsPowerOfTwo(entries.Length)
    modifies entries
    ensures index < entries.Length && entries[..] == old(entries[..])[index := Entry(key, value)]
    ensures grew <==> IsEmpty(old(entries[index]))
    ensures isNewKey <==> key !in old(Contents(entries[..]))
    ensures isNewKey <==> old(entries[index]).key == null
    ensures Inv(entries[..], count + (if grew then 1 else 0))
    ensures Contents(entries[..]) == old(Contents(entries[..]))[key := value]
  {
    KeyInContents(entries[..], key);
    index := FindEntry(entries, entries.Length, key);
    isNewKey := entries[index].key == null;
    grew := IsEmpty(entries[index]);
    ghost var before := entries[..];
    InvAfterStore(before, count, index, key, value);
    entries[index] := Entry(key, value);
    assert entries[..] == before[index := Entry(key, value)];
  }

  /** The part of del after the count check: findEntry, and a tombstone
      in place of the key's entry if it was found. */
  method Remove(entries: array<Entry>, ghost count: nat, key: Object.ObjString) returns (deleted: bool)
    requires Inv(entries[..], count) && exists i :: 0 <= i < entries.Length && IsEmpty(entries[i])
    requires Capacity.IsPowerOfTwo(entries.Length)
    modifies entries
    ensures Inv(entries[..], count)
    ensures deleted <==> key in old(Contents(entries[..]))
    ensures Contents(entries[..]) == old(Contents(entries[..])) - {key}
    ensures forall j :: 0 <= j < entries.Length ==>
      entries[j] == if old(entries[j]).key == key then Tombstone else old(entries[j])
  {
    KeyInContents(entries[..], key);
    var index := FindEntry(entries, entries.Length, key);
    if entries[index].key == null {
      assert Contents(entries[..]) - {key} == Contents(entries[..]);
      return false;
    }
    ghost var before := entries[..];
    InvAfterDelete(before, count, index);
    entries[index] := Tombstone;
    assert entries[..] == before[index := Tombstone];
    return true;
  }

  /** The probe loop of findString, from `hash & (capacity - 1)`. */
  method FindKey(entries: array<Entry>, chars: string, hash: Object.Uint32) returns (r: Object.ObjString?)
    requires ProbeOk(entries[..]) && exists i :: 0 <= i < entries.Length && IsEmpty(entries[i])
    requires Capacity.IsPowerOfTwo(entries.Length)
    ensures r != null ==> r.str == chars && r.hash == hash && exists j :: 0 <= j < entries.Length && entries[j].key == r
    ensures r == null ==> forall j :: 0 <= j < entries.Length ==> !Matches(entries[j], chars, hash)
  {
    ghost var es := entries[..];
    var capacity := entries.Length;
    ghost var home := hash % capacity;
    MaskIsRemainder(hash, capacity);
    var index := BitAnd(hash, capacity - 1);
    ghost var steps: nat := 0;
    ghost var e :| 0 <= e < capacity && IsEmpty(entries[e]);
    ghost var de := Dist(home, e, capacity);
    ProbeDist(home, e, capacity);
    while true
      invariant steps <= de
      invariant index == Probe(home, steps, capacity)
      invariant forall d :: 0 <= d < steps ==> !Matches(es[Probe(home, d, capacity)], chars, hash)
      decreases de - steps
    {
      var entry := entries[index];
      if entry.key == null {
        if IsNil(entry.value) {
          NoMatchBeforeEmpty(es, chars, hash, steps);
          return null;
        }
      } else if entry.key.str == chars && entry.key.hash == hash {
        return entry.key;
      }
      ProbeNext(home, steps, capacity);
      index := BitAnd(index + 1, capacity - 1);
      steps := steps + 1;
    }
  }

  /** The entries with every live key before slot i that is not in keep
      turned into a tombstone. */
  function FilterUpTo(es: seq<Entry>, keep: set<Object.ObjString>, i: nat): (r: seq<Entry>)
    ensures |r| == |es|
    ensures forall j :: 0 <= j < |es| ==>
      r[j] == if j < i && es[j].key != null && es[j].key !in keep then Tombstone else es[j]
  {
    seq(|es|, j requires 0 <= j < |es| =>
      if j < i && es[j].key != null && es[j].key !in keep then Tombstone else es[j])
  }

  /** One more slot of the filter: slot i becomes a tombstone if its key is
      dropped, and no other slot holds that key. */
  lemma FilterStep(es: seq<Entry>, keep: set<Object.ObjString>, i: nat)
    requires KeysUnique(es) && i < |es|
    ensures es[i].key != null && es[i].key !in keep ==>
      && FilterUpTo(es, keep, i + 1) == FilterUpTo(es, keep, i)[i := Tombstone]
      && forall j :: 0 <= j < |es| && FilterUpTo(es, keep, i)[j].key == es[i].key ==> j == i
    ensures !(es[i].key != null && es[i].key !in keep) ==> FilterUpTo(es, keep, i + 1) == FilterUpTo(es, keep, i)
  {
  }

  /** The loop of removeWhite: del on every live key whose string is not
      marked; keep is the set of marked keys. */
  method RemoveUnmarked(entries: array<Entry>, ghost count: nat, ghost keep: set<Object.ObjString>)
    requires Inv(entries[..], count)
    requires forall j :: 0 <= j < entries.Length && entries[j].key != null ==>
      (entries[j].key in keep <==> entries[j].key.isMarked)
    requires entries.Length == 0 || Capacity.IsPowerOfTwo(entries.Length)
    modifies entries
    ensures Inv(entries[..], count)
    ensures entries[..] == FilterUpTo(old(entries[..]), keep, entries.Length)
  {
    ghost var es := entries[..];
    var i := 0;
    while i < entries.Length
      invariant 0 <= i <= entries.Length
      invariant Inv(entries[..], count)
      invariant entries[..] == FilterUpTo(es, keep, i)
      invariant KeysUnique(es) && |es| == entries.Length
    {
      RemoveIfUnmarked(entries, count, keep, es, i);
      i := i + 1;
    }
  }

  /** One iteration of removeWhite's loop, at slot i. */
  method RemoveIfUnmarked(entries: array<Entry>, ghost count: nat, ghost keep: set<Object.ObjString>,
                          ghost es: seq<Entry>, i: nat)
    requires Inv(entries[..], count) && KeysUnique(es) && i < |es| == entries.Length
    requires Capacity.IsPowerOfTwo(entries.Length)
    requires es[i].key != null ==> (es[i].key in keep <==> es[i].key.isMarked)
    requires entries[..] == FilterUpTo(es, keep, i)
    modifies entries
    ensures Inv(entries[..], count)
    ensures entries[..] == FilterUpTo(es, keep, i + 1)
  {
    FilterStep(es, keep, i);
    var entry := entries[i];
    if entry.key != null && !entry.key.isMarked {
      EmptySlotExists(entries[..]);
      ghost var prev := entries[..];
      var _ := Remove(entries, count, entry.key);
      assert entries[..] == prev[i := Tombstone];
    }
  }

  /** The keys of es whose strings are marked. */
  ghost function MarkedKeys(es: seq<Entry>): (keep: set<Object.ObjString>)
    reads set j | 0 <= j < |es| && es[j].key != null :: es[j].key
    ensures forall j :: 0 <= j < |es| && es[j].key != null ==> (es[j].key in keep <==> es[j].key.isMarked)
  {
    set j | 0 <= j < |es| && es[j].key != null && es[j].key.isMarked :: es[j].key
  }

  /** es with every entry whose key is not marked turned into a tombstone. */
  ghost function Unmarked(es: seq<Entry>): (r: seq<Entry>)
    reads set j | 0 <= j < |es| && es[j].key != null :: es[j].key
  {
    FilterUpTo(es, MarkedKeys(es), |es|)
  }

  /** What removeWhite leaves: the pairs whose key is marked. */
  lemma FilterUnmarked(es: seq<Entry>)
    requires KeysUnique(es)
    ensures KeysUnique(Unmarked(es))
    ensures forall k :: k in Contents(Unmarked(es)) <==> k in Contents(es) && k.isMarked
    ensures forall k :: k in Contents(Unmarked(es)) ==> Contents(Unmarked(es))[k] == Contents(es)[k]
  {
    var keep := MarkedKeys(es);
    ContentsAfterFilter(es, Unmarked(es), keep);
    forall k | k in Contents(es)
      ensures k in keep <==> k.isMarked
    {
      KeyInContents(es, k);
    }
  }

  /** Updating a union updates its right operand. */
  lemma UnionUpdate<K, V>(a: map<K, V>, b: map<K, V>, k: K, v: V)
    ensures (a + b)[k := v] == a + b[k := v]
  {
  }

  class Table {
    var count: nat
    var capacity: nat
    var entries: array<Entry>

    ghost predicate Valid()
      reads this, entries
    {
      && entries.Length == capacity
      && GoodCapacity(capacity)
      && Inv(entries[..], count)
    }

    /** The key-value pairs the table holds. */
    ghost function Map(): map<Object.ObjString, Word>
      reads this, entries
      requires Valid()
    {
      Contents(entries[..])
    }

    /** `Table() = default`: no entries, no buffer. */
    constructor ()
      ensures Valid() && Map() == map[] && count == 0 && capacity == 0
    {
      count, capacity := 0, 0;
      entries := new Entry[0];
      new;
      assert Contents(entries[..]) == map[];
    }

    /** A table whose count is below three quarters of its capacity has an empty slot. */
    lemma HasEmptySlot()
      requires Valid() && capacity > 0
      ensures exists i :: 0 <= i < capacity && IsEmpty(entries[i])
    {
      EmptySlotExists(entries[..]);
      var i :| 0 <= i < |entries[..]| && IsEmpty(entries[..][i]);
      assert IsEmpty(entries[i]);
    }

    /** get: false at once when count is 0; otherwise the value of the
        entry holding the key, if any. */
    method Get(key: Object.ObjString) returns (found: bool, value: Word)
      requires Valid()
      ensures found <==> key in Map()
      ensures found ==> value == Map()[key]
    {
      KeyInContents(entries[..], key);
      if count == 0 {
        NothingUsedMeansEmpty(entries[..]);
        return false, NilVal;
      }
      HasEmptySlot();
      var index := FindEntry(entries, capacity, key);
      if entries[index].key == null {
        return false, NilVal;
      }
      ValueInContents(entries[..], index);
      return true, entries[index].value;
    }

    /** del: false at once when count is 0; otherwise, if the key is
        present, its entry becomes a tombstone. count is unchanged: a
        tombstone is still a used slot. */
    method Del(key: Object.ObjString) returns (deleted: bool)
      requires Valid()
      modifies entries
      ensures Valid()
      ensures deleted <==> key in old(Map())
      ensures Map() == old(Map()) - {key}
      ensures forall j :: 0 <= j < capacity ==>
        entries[j] == if old(entries[j]).key == key then Tombstone else old(entries[j])
    {
      if count == 0 {
        NothingUsedMeansEmpty(entries[..]);
        KeyInContents(entries[..], key);
        assert Map() - {key} == Map();
        return false;
      }
      HasEmptySlot();
      deleted := Remove(entries, count, key);
    }

    /** findString: look a string up by its text and hash, stopping at the
        first empty slot. Returns the key found, or null. */
    method FindString(chars: string, hash: Object.Uint32) returns (r: Object.ObjString?)
      requires Valid()
      ensures r != null ==> r in Map() && r.str == chars && r.hash == hash
      ensures r == null ==> forall k :: k in Map() ==> !(k.str == chars && k.hash == hash)
    {
      if count == 0 {
        NothingUsedMeansEmpty(entries[..]);
        forall k | k in Map()
          ensures false
        {
          KeyInContents(entries[..], k);
        }
        return null;
      }
      HasEmptySlot();
      r := FindKey(entries, chars, hash);
      if r != null {
        KeyInContents(entries[..], r);
      } else {
        forall k | k in Map()
          ensures !(k.str == chars && k.hash == hash)
        {
          KeyInContents(entries[..], k);
        }
      }
    }

    /** removeWhite: delete every key whose string is not marked by the
        collector, leaving the marked ones and their values. */
    method RemoveWhite()
      requires Valid()
      modifies entries
      ensures Valid()
      ensures entries[..] == Unmarked(old(entries[..]))
    {
      ghost var es := entries[..];
      ghost var keep := MarkedKeys(es);
      RemoveUnmarked(entries, count, keep);
      FilterUnmarked(es);
    }

    /** adjustCapacity: move every live entry into a fresh array of the
        new size, dropping tombstones; count becomes the number of live
        entries. */
    method AdjustCapacity(newCapacity: nat)
      requires Valid()
      requires newCapacity >= Capacity.MinCapacity && Capacity.IsPowerOfTwo(newCapacity)
      requires 4 * (count + 1) <= 3 * newCapacity
      modifies this
      ensures Valid() && fresh(entries) && capacity == newCapacity
      ensures Map() == old(Map())
      ensures count == LiveCount(old(entries[..])) && count <= old(count)
      ensures forall i :: 0 <= i < capacity ==> !IsTombstone(entries[i])
    {
      ghost var es := entries[..];
      LiveAtMostUsed(es);
      var dest, live := Rehash(entries, newCapacity);
      entries, capacity, count := dest, newCapacity, live;
    }

    /** set: grow when one more entry would pass three quarters of the
        capacity, then store the pair. Returns whether the key was new. */
    method Set(key: Object.ObjString, value: Word) returns (isNewKey: bool)
      requires Valid()
      modifies this, entries
      ensures Valid()
      ensures isNewKey <==> key !in old(Map())
      ensures Map() == old(Map())[key := value]
      ensures entries == old(entries) || fresh(entries)
      ensures old(4 * (count + 1) <= 3 * capacity) ==>
        && entries == old(entries)
        && (count == old(count) || count == old(count) + 1)
        && (count == old(count) + 1 <==> exists i :: 0 <= i < capacity && IsEmpty(old(entries[i])) && entries[i].key == key)
      ensures old(4 * (count + 1) <= 3 * capacity) ==> capacity == old(capacity)
      ensures old(4 * (count + 1) > 3 * capacity) ==>
        && fresh(entries) && capacity == Capacity.GrowCapacity(old(capacity))
        && count == LiveCount(old(entries[..])) + (if isNewKey then 1 else 0)
    {
      if 4 * (count + 1) > 3 * capacity {
        var newCapacity := Capacity.GrowCapacity(capacity);
        Capacity.GrowKeepsPowerOfTwo(capacity);
        AdjustCapacity(newCapacity);
      }
      isNewKey := Store(key, value);
    }

    /** The part of set after the growth check: find the slot and store
        the pair there. count grows only when the slot was never used;
        reusing a tombstone leaves it unchanged. */
    method Store(key: Object.ObjString, value: Word) returns (isNewKey: bool)
      requires Valid() && 4 * (count + 1) <= 3 * capacity
      modifies this, entries
      ensures Valid() && entries == old(entries) && capacity == old(capacity)
      ensures isNewKey <==> key !in old(Map())
      ensures Map() == old(Map())[key := value]
      ensures count == old(count) || count == old(count) + 1
      ensures count == old(count) + 1 <==> exists i :: 0 <= i < capacity && IsEmpty(old(entries[i])) && entries[i].key == key
      ensures (forall i :: 0 <= i < capacity ==> !IsTombstone(old(entries[i]))) ==> (count == old(count) + 1 <==> isNewKey)
    {
      HasEmptySlot();
      var index, grew;
      index, isNewKey, grew := Put(entries, count, key, value);
      if grew {
        count := count + 1;
      }
      assert forall i :: 0 <= i < capacity && IsEmpty(old(entries[i])) && entries[i].key == key ==> i == index;
    }

    /** One iteration of addAll's loop: set the pair at slot i, if live. */
    static method AddEntry(entry: Entry, to: Table, ghost fes: seq<Entry>, ghost start: map<Object.ObjString, Word>, i: nat)
      requires to.Valid() && KeysUnique(fes) && i < |fes| && fes[i] == entry
      requires to.Map() == start + Contents(fes[..i])
      modifies to, to.entries
      ensures to.Valid()
      ensures to.entries == old(to.entries) || fresh(to.entries)
      ensures to.Map() == start + Contents(fes[..i + 1])
    {
      ContentsSnoc(fes, i);
      if entry.key != null {
        UnionUpdate(start, Contents(fes[..i]), entry.key, entry.value);
        var _ := to.Set(entry.key, entry.value);
      }
    }

    /** addAll: set every live entry of `from` into `to`, in slot order.
        Pairs of `from` replace those of `to` with the same key. */
    static method AddAll(from: Table, to: Table)
      requires from.Valid() && to.Valid()
      requires from != to && from.entries != to.entries
      modifies to, to.entries
      ensures to.Valid()
      ensures to.Map() == old(to.Map()) + from.Map()
    {
      ghost var fes := from.entries[..];
      ghost var start := to.Map();
      assert fes[..0] == [];
      assert start + Contents(fes[..0]) == start;
      var i := 0;
      while i < from.capacity
        invariant 0 <= i <= from.capacity == |fes|
        invariant to.Valid() && to.entries != from.entries
        invariant from.entries[..] == fes && KeysUnique(fes)
        invariant to.entries == old(to.entries) || fresh(to.entries)
        invariant to.Map() == start + Contents(fes[..i])
      {
        AddEntry(from.entries[i], to, fes, start, i);
        i := i + 1;
      }
      assert fes[..i] == fes;
    }
  }
}
