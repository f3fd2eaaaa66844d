# alox-cc in Dafny

A verified model of the core of alox-cc, a clox-style bytecode interpreter for the Lox language written in C++. The model also covers the TypeScript conformance harness that runs the interpreter on annotated test files.

The model follows the interpreter's pipeline, one Dafny module per source file:

- **Front end.**
  - `scanner.dfy` (`Scanner`) is the character-cursor lexer: keywords, two-character operators, numbers, strings, comments and line counting.
  - `parser.dfy` (`Parser`) is the token cursor with panic-mode recovery and the small grammar `src/parser.cc` implements.
  - `error.dfy` (`Errors`) is the error manager, with its message format and first-error-only suppression.
  - `printer.dfy` (`Printer`) is the fully parenthesised AST printer.
- **Bytecode emission and layout.**
  - `chunk.dfy` (`Chunks`) is the bytecode chunk; `val_array.dfy` (`ValArray`) is its constant pool.
  - `codegen.dfy` (`CodeGen`) and `compiler.dfy` (`Compiler`) emit bytes, 16-bit constant operands, patched forward jumps, backward loops and implicit returns. `Compiler` also resolves locals and upvalues on the fixed 256-entry arrays of a compilation context.
  - `context.dfy` (`Contexts`) and `comp.dfy` (`Comp`) are the two compilation contexts, with their break bookkeeping saved and restored as a triple.
  - `debug.dfy` (`Debug`) is the disassembler's instruction-length and jump-target arithmetic.
- **Runtime.**
  - `value.dfy` (`Value`) is the NaN-boxed value word, plus the tagged-union alternative. `value_ops.dfy` (`ValueOps`) holds value equality and printing.
  - `object.dfy` (`Object`) holds heap objects, the FNV-1a string hash and the printed form of objects.
  - `table.dfy` (`Table`) is the open-addressing hash table with tombstones.
  - `gc.dfy` (`Gc`) is the mark-and-sweep collector with its gray stack.
  - `capacity.dfy` (`Capacity`) is the shared growth policy of all buffers.
  - `vm.dfy` (`VM`) holds the value stack, the call frames, the sorted list of open upvalues, the globals, and the core instructions of the dispatch loop.
- **Harness.** `xtest.dfy` (`Xtest`) covers how `tools/xtest.test.ts` reads `// expect:`, `// error:` and `// option:` annotations, how it compares captured output, and which files it runs.

Where the source mutates state, the model is a class whose methods are proved against value-level functions, and the properties of those functions are proved as lemmas. Pure source code, such as the value encoding and the growth policy, becomes functions and lemmas.

Several headers of the tree disagree with their `.cc` files. In every such case the model follows the `.cc` file.

## Model

| member | source | states |
|---|---|---|
| Capacity.GrowCapacity | src/memory.hh:20-22 | below 8 the capacity becomes 8, otherwise it doubles |
| Capacity.GrowIsLarger | src/memory.hh:20-22 | a grown capacity is at least 8 and strictly larger than the old one, so a full buffer always gains room |
| Capacity.GrowIsMonotone | src/memory.hh:20-22 | a larger capacity never grows to a smaller one |
| Capacity.DoublingKeepsPowerOfTwo | src/memory.hh:20-22 | doubling a power of two gives a power of two |
| Capacity.GrownFromEmptyIsPowerOfTwo | src/memory.hh:20-22 | every capacity reached by growing from 0 is a power of two of at least 8, as the table's probe mask needs |
| Capacity.GrowKeepsPowerOfTwo | src/memory.hh:20-22 | growing 0 or a power of two gives a power of two |
| Capacity.GrowArray | src/memory.hh:24-27 | the new buffer has the requested length and keeps the first `count` old elements |
| Value.BoolVal | src/value.hh:71-73 | a boxed boolean is classified as a boolean only, and as<bool> reads the same truth value back |
| Value.ObjVal | src/value.hh:79-82 | a boxed pointer is classified as an object and as nothing else |
| Value.SingletonsAreDistinct | src/value.hh:20-31 | true, false and nil are three different words, none of them a number |
| Value.BoolAndNilClassification | src/value.hh:35-41 | is<bool> holds exactly for the two boolean words and is<nullptr_t> exactly for nil, never both |
| Value.BoolRoundTrip | src/value.hh:53-55 | as<bool>(value<bool>(b)) == b |
| Value.ObjRoundTrip | src/value.hh:75-82 | boxing a pointer and unboxing it gives the pointer back |
| Value.ObjValInjective | src/value.hh:79-82 | distinct pointers box to distinct words |
| Value.ObjExcludesOtherKinds | src/value.hh:43-49 | an object word is not a number, boolean or nil |
| Value.BoolValT | src/value.hh:134-136 | BOOL_VAL builds a boolean and nothing else, holding the given truth value |
| Value.NilValT | src/value.hh:138 | NIL_VAL is nil and nothing else |
| Value.NumberValT | src/value.hh:140-142 | NUMBER_VAL builds a number and nothing else, holding the given number |
| Value.ObjValT | src/value.hh:144-146 | OBJ_VAL builds an object and nothing else, holding the given pointer |
| ValueOps.ValuesEqualSymmetric | src/value.cc:44-53 | valuesEqual(a, b) == valuesEqual(b, a) |
| ValueOps.ValuesEqualReflexive | src/value.cc:44-53 | every value equals itself except a NaN, which equals nothing |
| ValueOps.StringsCompareByText | src/value.cc:49-52 | two strings are equal exactly when their texts are, whether or not they are one object |
| ValueOps.OtherObjectsCompareByIdentity | src/value.cc:49-53 | objects that are not both strings are equal exactly when they are the same word |
| ValueOps.KindsCompareApart | src/value.cc:44-53 | a number never equals a non-number, booleans compare by truth value, nil equals only nil |
| ValueOps.PrintValue | src/value.cc:15-25 | every value except a number gets a printed form; objects print as printObject does |
| ValueOps.PrintBoolAndNil | src/value.cc:17-20 | booleans print `true`/`false` and nil prints `nil`, and the two booleans print differently |
| ValueOps.TaggedEquality | src/value.cc:54-73 | values of different types are unequal, nil equals nil, booleans compare by value, non-string objects by identity, and the relation is an equivalence |
| ValueOps.PrintValueT | src/value.cc:27-40 | every tagged value except a number gets a printed form |
| ValueOps.PrintAgreesAcrossRepresentations | src/value.cc:15-40 | both representations print booleans and nil identically |
| Chunks.ReadShort | src/vm.cc:255 | a 16-bit operand read high byte first never exceeds 65535 |
| Chunks.ShortRoundTrip | src/codegen.cc:20-21 | writing a quantity as two bytes and reading it back gives it modulo 2^16, and exactly for quantities up to 65535 |
| Chunks.ShortEncodingInjective | src/codegen.cc:20-21 | two 16-bit quantities with the same two bytes are equal |
| Chunks.Chunk.constructor | src/chunk.hh:51-79 | an empty chunk with no lines and an empty constant pool |
| Chunks.Chunk.Write | src/chunk.cc:14-24 | the byte and its line are appended, the count rises by one, and the capacity grows by grow_capacity exactly when the buffer was full |
| Chunks.Chunk.AddConstant | src/chunk.cc:26-28 | the value is appended to the pool and its index is the old pool size |
| ValArray.ObjPointers | src/val_array.cc:31-35 | one entry per value: the object pointer it holds, or 0 |
| ValArray.ValueArray.constructor | src/val_array.cc:20-24 | capacity and count are 0 and nothing is stored |
| ValArray.ValueArray.Init | src/val_array.cc:20-24 | capacity and count are 0 and nothing is stored |
| ValArray.ValueArray.FreeValueArray | src/val_array.cc:26-29 | the array returns to the state init leaves |
| ValArray.ValueArray.WriteValueArray | src/val_array.cc:9-18 | the value is appended, the count rises by one, and the capacity grows exactly when the buffer was full |
| ValArray.ValueArray.MarkArray | src/val_array.cc:31-35 | every object referenced by the values in use, and nothing else, becomes marked; only newly marked objects are pushed gray |
| Contexts.ToInt | src/context.cc:15 | size_t to int keeps values below 2^31 and always lands in the int range |
| Contexts.ToSize | src/context.cc:21-22 | int to size_t keeps non-negative values and always lands below 2^64 |
| Contexts.SaveRestoreRoundTrip | src/context.cc:14-24 | restoring a saved triple gives back every field that fits in an int, and restores the scope depth recorded at save time |
| Contexts.LargePositionsNarrow | src/context.cc:14-24 | a jump position of 2^31 or more does not survive save and restore |
| Contexts.Context.constructor | src/context.hh:29-49 | no enclosing context and no function, 256 blank locals and upvalues, every counter 0 |
| Contexts.Context.Init | src/context.cc:7-12 | links the enclosing context, sets the type and starts a fresh empty function, nothing else changes |
| Contexts.Context.SaveBreakContext | src/context.cc:14-18 | returns the old triple, narrowed, then records the current scope depth; nothing else changes |
| Contexts.Context.RestoreBreakContext | src/context.cc:20-24 | the three fields are set from the triple, widened; nothing else changes |
| Comp.SaveRestoreRoundTrip | src/comp.cc:14-24 | with every field an int, save followed by restore is the identity in both directions |
| Comp.Compiler.constructor | src/comp.hh:29-49 | no enclosing compiler and no function, 256 blank locals and upvalues, every counter 0 |
| Comp.Compiler.Init | src/comp.cc:7-12 | links the enclosing compiler, sets the type and starts a fresh function with an empty chunk, nothing else changes |
| Comp.Compiler.SaveBreakContext | src/comp.cc:14-18 | returns the old triple, then records the current scope depth; nothing else changes |
| Comp.Compiler.RestoreBreakContext | src/comp.cc:20-24 | the three fields are set from the triple; nothing else changes |
| Object.ByteOf | src/object.cc:66 | `(uint8_t)c` is a byte |
| Object.XorByte | src/object.cc:66 | xor with a byte keeps the high 24 bits of the hash and xors the low eight |
| Object.Wrap32 | src/object.cc:67 | uint32_t arithmetic wraps modulo 2^32 and leaves values in range unchanged |
| Object.FnvFromAppend | src/object.cc:63-70 | hashing a concatenation continues from the hash of its first part |
| Object.FnvSeesBytes | src/object.cc:63-70 | texts whose bytes agree hash alike, and the empty text hashes to 2166136261 |
| Object.HashString | src/object.cc:63-70 | the loop computes 32-bit FNV-1a of the text: from 2166136261, xor each byte then multiply by 16777619 modulo 2^32 |
| Object.ObjString.NewString | src/object.cc:72-77 | a new unmarked string holding the text and its FNV-1a hash; a fresh object each call, so equal texts give distinct objects |
| Object.ObjFunction.NewFunction | src/object.cc:43-49 | arity 0, no upvalues, no name, an empty chunk |
| Object.ObjUpvalue.NewUpvalue | src/object.cc:79-85 | open on the given slot, closed value nil, not linked |
| Object.ObjClosure.NewClosure | src/object.cc:30-41 | the closure's function is the given one, with function->upvalueCount upvalue slots, all null |
| Object.PrintFunction | src/object.cc:87-93 | an unnamed function prints `<script>` and a named one `<fn name>` |
| Object.PrintFunctionInjective | src/object.cc:87-93 | two functions print alike only when they have the same name, or both have none |
| Object.PrintObject | src/object.cc:95-122 | each kind's printed form; only a class's name goes to standard output rather than the stream |
| Object.CallablesPrintAlike | src/object.cc:97-108 | a bound method, a closure and a function with the same name print alike, and never like a native |
| Gc.ReachableFromItself | src/memory.cc:180-189 | every source object is reachable from the sources |
| Gc.ReachableStep | src/memory.cc:80-127 | a child of a reachable object is reachable |
| Gc.PathStaysInClosedSet | src/memory.cc:184-189 | a set closed under pointers that holds the start of a path holds its end |
| Gc.ClosedSetHoldsReachable | src/memory.cc:184-189 | a closed set holding all sources holds every reachable object |
| Gc.NonNullSnoc | src/memory.cc:45-48 | the non-null pointers of a longer prefix gain the new pointer exactly when it is not null |
| Gc.PushedOnlyPush | src/memory.cc:59-71 | pushing a newly marked object keeps the record that only newly marked objects were pushed |
| Gc.MarkAllStep | src/memory.cc:45-72 | marking one more pointer extends the marked set by the non-null pointers seen so far |
| Gc.BlackenKeepsTricolor | src/memory.cc:184-189 | popping the top gray object and marking its children keeps every child of a non-gray marked object marked |
| Gc.BlackenKeepsReachable | src/memory.cc:184-189 | blackening a reachable object marks only reachable objects |
| Gc.TraceMeasureDrops | src/memory.cc:184-189 | unmarked objects plus gray entries decrease with each round, so tracing terminates |
| Gc.TraceStep | src/memory.cc:184-189 | one round of the tracing loop keeps the loop invariant and decreases its measure |
| Gc.Survivors | src/memory.cc:191-211 | the survivors are exactly the objects of the list that are marked |
| Gc.SurvivorsOfPrefix | src/memory.cc:191-211 | the survivors of a prefix one longer gain that object exactly when it is marked |
| Gc.GC.constructor | src/memory.hh:33-41 | an empty, idle collector: no objects, no marks, an empty gray stack |
| Gc.GC.PlaceObject | src/memory.cc:29-35 | the new object is prepended to the list, unmarked, and nothing else changes |
| Gc.GC.MarkObject | src/memory.cc:45-72 | null or an already-marked object changes nothing; otherwise the object is marked and pushed gray once, the stack growing by grow_capacity when full |
| Gc.GC.MarkValue | src/memory.cc:74-78 | only an object word is marked |
| Gc.GC.MarkAll | src/memory.cc:97-118 | marking a list of pointers marks exactly its non-null members |
| Gc.GC.BlackenObject | src/memory.cc:80-127 | exactly the object's non-null children become marked |
| Gc.GC.BlackenTop | src/memory.cc:185-188 | one round of the loop: keeps the tricolor invariant and decreases the measure |
| Gc.GC.TraceReferences | src/memory.cc:184-189 | ends with an empty gray stack and a marked set closed under pointers, having newly marked only objects reachable from the gray ones |
| Gc.GC.Sweep | src/memory.cc:191-211 | the list keeps exactly its marked objects, in their original order, and every mark is cleared |
| Gc.GC.CollectGarbage | src/memory.cc:213-225 | an object survives exactly when it was allocated and is reachable from a non-null root (every unreachable object is freed), and nextGC becomes twice bytesAllocated |
| Gc.GrayFromNothing | src/memory.cc:220 | after marking the roots from an empty gray stack, the gray stack holds exactly the marked objects |
| Gc.MarkedAreReachable | src/memory.cc:220-221 | once every marked non-root object is reachable from the roots, every marked object is |
| Gc.SurvivorsAreReachable | src/memory.cc:220-223 | sweeping by a closed set of reachable marked objects that holds the roots keeps exactly the reachable objects |
| Gc.GC.Trigger | src/memory.cc:17-27 | bytesAllocated changes by newSize - oldSize; a collection happens exactly when the allocation grows past nextGC, and then exactly the reachable allocated objects survive |
| Table.Probe | src/table.cc:21-41 | the d-th slot probed from a home slot is a slot of the table |
| Table.Dist | src/table.cc:21-41 | the number of probe steps from a home slot to any slot is below the capacity |
| Table.ProbeDist | src/table.cc:21-41 | probing the distance from home to a slot reaches that slot |
| Table.DistProbe | src/table.cc:21-41 | the distance to the d-th probed slot is d |
| Table.ProbeNext | src/table.cc:41 | the next probed slot is `(index + 1) % capacity`, which for a power-of-two capacity is the mask `(index + 1) & (capacity - 1)` |
| Table.MaskIsRemainder | src/table.cc:21-41 | for a power-of-two capacity c, masking with `c - 1` is the remainder by c |
| Table.HomeIsMask | src/table.cc:21 | for a power-of-two capacity the home slot `hash & (capacity - 1)` is the hash modulo the capacity |
| Table.Home | src/table.cc:21 | the probe starts at a slot of the table |
| Table.KeyInContents | src/table.cc:12-15 | a key is in the table exactly when some entry holds it |
| Table.ValueInContents | src/table.cc:45-57 | the value a key maps to is the value stored beside it |
| Table.SameContents | src/table.cc:59-82 | entry arrays holding the same live pairs hold the same map |
| Table.ContentsAfterStore | src/table.cc:96-97 | storing a key in its own slot or in a free one maps the key to the new value and changes nothing else |
| Table.ContentsAfterDelete | src/table.cc:112-114 | turning a key's entry into a tombstone removes exactly that key |
| Table.UsedCountUpdate | src/table.cc:91-94 | overwriting one slot changes the number of used slots by whether the old and new entries are empty |
| Table.EmptySlotExists | src/table.cc:85-88 | fewer used slots than slots leaves an empty slot, so every probe stops |
| Table.NothingUsedMeansEmpty | src/table.cc:45-48 | a count of 0 means every slot is empty, so get and del may answer without probing |
| Table.AllEmptyUsedCount | src/table.cc:60-66 | a freshly cleared array has no used slot |
| Table.LiveAtMostUsed | src/table.cc:59-82 | live entries never outnumber used slots, so resizing never increases count |
| Table.LiveCountOfPrefix | src/table.cc:67-77 | a prefix holds no more live entries than the whole array |
| Table.KeysUniquePrefix | src/table.cc:67-77 | a prefix of an array with distinct keys has distinct keys |
| Table.ContentsSnoc | src/table.cc:67-77 | the pairs of a prefix grow by one pair for each live entry |
| Table.StoreKeepsProbeOk | src/table.cc:20-43 | storing a non-empty entry at the end of a used probe path keeps every key reachable from its home slot |
| Table.AbsentBeforeEmpty | src/table.cc:26-30 | a probe that reaches an empty slot without passing the key shows the key is absent |
| Table.StoreStep | src/table.cc:90-97 | a store at the slot findEntry returned keeps keys distinct and reachable, grows the used count exactly when the slot was empty, and maps the key to the value |
| Table.InvAfterStore | src/table.cc:84-99 | a store within the load limit keeps the table invariant with the count updated |
| Table.InvAfterDelete | src/table.cc:112-115 | a tombstone keeps the invariant with count unchanged and removes its key |
| Table.NoMatchBeforeEmpty | src/table.cc:135-139 | a findString probe that reaches an empty slot without a match shows no key has that text and hash |
| Table.ContentsAfterFilter | src/table.cc:150-157 | tombstoning the keys outside a set leaves exactly the pairs whose keys are in it |
| Table.EmptyEntries | src/table.cc:60-64 | a fresh array of the new capacity with every slot empty, holding nothing |
| Table.FindEntry | src/table.cc:20-43 | probing with the mask from `hash & (capacity - 1)`, returns the slot holding the key if any; otherwise the first tombstone on the probe path, or the empty slot that ended it |
| Table.Reinsert | src/table.cc:73-76 | re-inserting a live entry into a tombstone-free array adds its pair and one used slot |
| Table.Rehash | src/table.cc:59-78 | a fresh array of the new size with the same pairs, no tombstone, and as many used slots as there were live entries |
| Table.Put | src/table.cc:90-98 | the slot found now holds the pair; isNewKey holds exactly when the key was absent, which is when the slot held no key, and a never-used slot was taken exactly when the used count grows |
| Table.Remove | src/table.cc:106-115 | a present key's entry becomes a tombstone and the key is removed; an absent key changes nothing |
| Table.FindKey | src/table.cc:132-147 | probing with the mask, returns a stored key with the given text and hash, or null exactly when none is stored |
| Table.FilterUpTo | src/table.cc:150-157 | slots before i with an unkept key become tombstones and every other slot is unchanged |
| Table.FilterStep | src/table.cc:151-156 | each iteration tombstones at most slot i |
| Table.RemoveUnmarked | src/table.cc:150-157 | slot by slot, every entry whose key is unmarked becomes a tombstone; the invariant is kept |
| Table.MarkedKeys | src/table.cc:153 | the kept keys are exactly the marked ones |
| Table.FilterUnmarked | src/table.cc:150-157 | after removeWhite the table holds exactly its marked keys, with their old values |
| Table.Table.constructor | src/table.hh:23-37 | count and capacity 0, an empty map |
| Table.Table.HasEmptySlot | src/table.cc:10 | a non-empty table within the 0.75 load factor has an empty slot |
| Table.Table.Get | src/table.cc:45-57 | found holds exactly when the key is in the table, and then the value is the stored one |
| Table.Table.Del | src/table.cc:101-116 | true exactly when the key was present; the key is removed, its slot becomes a tombstone (null key, value true), and count is unchanged |
| Table.Table.FindString | src/table.cc:127-148 | a returned key is stored and has the text and hash; null means no stored key has both |
| Table.Table.RemoveWhite | src/table.cc:150-157 | the entries become those of the old array with each unmarked key tombstoned |
| Table.RemoveIfUnmarked | src/table.cc:152-155 | one turn of the loop: the slot is tombstoned exactly when its key is unmarked, deleting keeps the table invariant, and the other slots are unchanged |
| Table.Table.AdjustCapacity | src/table.cc:59-82 | the same pairs in a fresh array of the new capacity, no tombstones, and count equal to the number of live entries |
| Table.Table.Set | src/table.cc:84-99 | when 4(count+1) > 3 capacity the table grows to grow_capacity of the old capacity in a fresh array, and count becomes the live entries plus one for a new key; otherwise the capacity and the array stay; true exactly when the key was absent, and afterwards the key maps to the value |
| Table.Table.Store | src/table.cc:90-98 | count grows exactly when the key lands in a never-used slot; reusing a tombstone leaves it unchanged; in a table without tombstones count grows exactly for a new key |
| Table.Table.AddEntry | src/table.cc:120-123 | one iteration of addAll sets the pair of a live slot |
| Table.Table.AddAll | src/table.cc:118-125 | `to` ends holding its old pairs overridden by every pair of `from` |
| Scanner.RunEnd | src/scanner.cc:146-148 | the loops of identifier, number, string and the comment skip stop at the first character outside their class, never past the end of the text |
| Scanner.NewlinesAppend | src/scanner.cc:57-59 | the newlines of two adjacent stretches of text add up |
| Scanner.SkipEnd | src/scanner.cc:48-75 | skipWhitespace never moves backwards and never past the end |
| Scanner.SkipEndStops | src/scanner.cc:48-75 | skipWhitespace stops at neither a blank nor the start of a `//` comment |
| Scanner.SkipEndAtToken | src/scanner.cc:71-72 | a text starting with neither a blank nor `//` is not skipped at all |
| Scanner.CheckKeyword | src/scanner.cc:77-82 | the keyword's type exactly when the whole lexeme is the prefix followed by the rest, IDENTIFIER otherwise |
| Scanner.IdentifierTypeIsKeyword | src/scanner.cc:84-143 | the trie gives a keyword type exactly for the 18 reserved words, so `andy` and `fo` are identifiers |
| Scanner.KeywordsRecognised0 | src/scanner.cc:86-96 | `and`, `break` and `class` scan as their keywords |
| Scanner.KeywordsRecognised1 | src/scanner.cc:96-106 | `continue`, `else` and `false` scan as their keywords |
| Scanner.KeywordsRecognised2 | src/scanner.cc:107-115 | `for`, `fun` and `if` scan as their keywords |
| Scanner.KeywordsRecognised3 | src/scanner.cc:116-121 | `nil`, `or` and `print` scan as their keywords |
| Scanner.KeywordsRecognised4 | src/scanner.cc:122-130 | `return`, `super` and `this` scan as their keywords |
| Scanner.KeywordsRecognised5 | src/scanner.cc:131-139 | `true`, `var` and `while` scan as their keywords |
| Scanner.Spelled | src/scanner.cc:77-82 | a lexeme checkKeyword accepts is its switched-on prefix followed by the rest |
| Scanner.OnlyKeywords | src/scanner.cc:84-143 | whatever the trie does not map to IDENTIFIER is a reserved word |
| Scanner.OnlyKeywordsABC | src/scanner.cc:86-99 | the a, b and c branches accept only `and`, `break`, `class`, `continue` |
| Scanner.OnlyKeywordsEF | src/scanner.cc:100-113 | the e and f branches accept only `else`, `false`, `for`, `fun` |
| Scanner.OnlyKeywordsINO | src/scanner.cc:114-119 | the i, n and o branches accept only `if`, `nil`, `or` |
| Scanner.OnlyKeywordsPRS | src/scanner.cc:120-125 | the p, r and s branches accept only `print`, `return`, `super` |
| Scanner.OnlyKeywordsTVW | src/scanner.cc:126-139 | the t, v and w branches accept only `this`, `true`, `var`, `while` |
| Scanner.NumberEnd | src/scanner.cc:152-168 | number() ends inside the text, after where it began |
| Scanner.NumberShape | src/scanner.cc:152-168 | a number lexeme is digits with at most one `.`, each `.` followed by a digit, and it ends where no digit (and, without a fraction, no `.` and digit) follows |
| Scanner.Lex | src/scanner.cc:187-239 | a token never moves the cursor backwards or past the end |
| Scanner.LexIdentifier | src/scanner.cc:145-150 | an identifier takes at least its first character |
| Scanner.LexNumber | src/scanner.cc:152-168 | a number takes at least its first digit |
| Scanner.LexString | src/scanner.cc:170-185 | a string takes at least its opening quote |
| Scanner.LexPunctuation | src/scanner.cc:203-238 | punctuation and the error for an unexpected character take at least one character |
| Scanner.LexedText | src/scanner.cc:32-38 | every non-error token's text is the slice from start to current; EOFS comes exactly at the end, is empty and does not move |
| Scanner.TwoCharOperators | src/scanner.cc:226-233 | `!`, `=`, `<` and `>` absorb a following `=` into BANG_EQUAL, EQUAL_EQUAL, LESS_EQUAL or GREATER_EQUAL, and only then |
| Scanner.IdentifierShape | src/scanner.cc:145-150 | an identifier is the longest run of letters, digits and `_`, and is IDENTIFIER exactly when it is not a reserved word |
| Scanner.StringShape | src/scanner.cc:170-185 | a string runs to the next quote, counting newlines; with no quote it is the error "Unterminated string." |
| Scanner.EndRepeats | src/scanner.cc:191-193 | at the end the token is EOFS with empty text, and scanning again gives EOFS again |
| Scanner.NumberExamples | src/scanner.cc:158-165 | `1.` scans as `1` and `1.2.` as `1.2` |
| Scanner.Scanner.constructor | src/scanner.cc:11 | start and current at the beginning of the text, on line 1 |
| Scanner.Scanner.PeekNext | src/scanner.cc:62 | at the end the next character is '\0' |
| Scanner.Scanner.Advance | src/scanner.cc:195 | steps over the current character and returns it |
| Scanner.Scanner.Match | src/scanner.cc:21-30 | steps over the current character exactly when it is the expected one and not the end, and says whether it did |
| Scanner.Scanner.MakeToken | src/scanner.cc:32-38 | the token's text is the source from start to current, on the current line |
| Scanner.Scanner.ErrorToken | src/scanner.cc:40-46 | an ERROR token whose text is the message, on the current line |
| Scanner.Scanner.SkipWhitespace | src/scanner.cc:48-75 | the cursor moves to where SkipEnd says and the line grows by the newlines skipped |
| Scanner.Scanner.AdvanceCounting | src/scanner.cc:57-59 | one step, counting a newline |
| Scanner.Scanner.SkipComment | src/scanner.cc:64-66 | the comment is skipped up to the newline or the end |
| Scanner.Scanner.Identifier | src/scanner.cc:145-150 | the identifier runs to the end of its letters and digits, typed by identifierType |
| Scanner.Scanner.Number | src/scanner.cc:152-168 | the cursor ends where NumberEnd says and the token is NUMBER |
| Scanner.Scanner.SkipDigits | src/scanner.cc:153-155 | the cursor ends after the digit run |
| Scanner.Scanner.String | src/scanner.cc:170-185 | up to and past the closing quote with a STRING token, or at the end with "Unterminated string.", counting newlines |
| Scanner.Scanner.ScanToken | src/scanner.cc:187-239 | skipWhitespace, then start at the cursor and return the token Lex describes, moving the cursor and the line as it says |
| Scanner.Scanner.ScanAt | src/scanner.cc:189-239 | the token read from start is the one Lex describes |
| Scanner.Scanner.Punctuation | src/scanner.cc:203-238 | the switch on a punctuation character agrees with LexPunctuation |
| Scanner.NewlinesNone | src/scanner.cc:64-66 | skipping a comment adds no newline |
| Scanner.NoNewlines | src/scanner.cc:64-66 | text without '\n' has no newline |
| Errors.DigitChar | src/error.cc:18 | a decimal digit is one of '0'..'9' |
| Errors.Decimal | src/error.cc:18 | `{}` writes at least one digit, only digits, and no leading zero |
| Errors.DecimalRoundTrip | src/error.cc:18 | reading the written digits back gives the number |
| Errors.DigitCharValue | src/error.cc:18 | each digit character stands for its digit |
| Errors.DecimalInjective | src/error.cc:18 | different line numbers are written differently |
| Errors.IntToString | src/error.cc:18 | an integer is written as an optional '-' and digits |
| Errors.IntRoundTrip | src/error.cc:18 | the sign is written exactly for negative numbers, and parsing the text gives the integer back |
| Errors.NegativeRoundTrip | src/error.cc:18 | a negative integer is written with '-' and reads back as itself |
| Errors.ParseNegative | src/error.cc:18 | '-' followed by digits denotes the negated number |
| Errors.Where | src/error.cc:31-37 | ` at end` for EOFS, nothing for ERROR, ` at 'text'` otherwise |
| Errors.OverloadsAgree | src/error.cc:13-40 | on an ERROR token both overloads write the same text; every message opens with `[line ` and ends with a newline |
| Errors.HeaderNamesLine | src/error.cc:18 | the text after `[line ` is the line number, followed by `]` |
| Errors.Report | src/error.cc:14-21 | in panic mode nothing is written and the flags stay; otherwise the text is written and both flags are set |
| Errors.FirstErrorOnly | src/error.cc:14-17 | of a run of errors only the first is written; in panic mode nothing changes |
| Errors.ErrorManager.constructor | src/error.hh:11-22 | both flags false, nothing written |
| Errors.ErrorManager.ErrorAtLine | src/error.cc:13-22 | writes exactly `[line N] Error: msg` and a newline unless in panic mode, setting both flags |
| Errors.ErrorManager.ErrorAtToken | src/error.cc:24-40 | writes `[line N] Error`, the token's position, `: msg` and a newline unless in panic mode, setting both flags |
| Errors.ErrorManager.Reset | src/error.hh:16-19 | both flags cleared, the written text kept |
| Parser.EndToken | src/scanner.cc:187-192 | the token read once the scanner's tokens are used up is an EOFS token |
| Parser.Report | src/parser.cc:98-114 | in panic mode nothing changes; otherwise the message is added to those written and both panicMode and hadError are set |
| Parser.ReportAgrees | src/parser.cc:98-114 | on the text of the error stream, the parser's errorAt is the error module's report of the token's message |
| Parser.AfterErrorAt | src/parser.cc:98-114 | errorAt moves no token: position, current and previous stay, only the error log changes |
| Parser.ScanLoop | src/parser.cc:144-150 | the loop reads at least one token while any is left, never stops on an error token, and stays inside the token stream |
| Parser.AfterAdvance | src/parser.cc:141-151 | advance makes the old current token the previous one, leaves a current token that is not an error, and consumes input unless current was EOFS |
| Parser.AfterMatch | src/parser.cc:161-167 | match is true exactly when the current token has the type, and advances exactly then |
| Parser.AfterConsume | src/parser.cc:153-159 | consume advances past a token of the type and otherwise reports the message at the current token without moving |
| Parser.SyncLoop | src/parser.cc:119-138 | the loop never reads past the token stream and never adds input |
| Parser.AfterSynchronize | src/parser.cc:116-139 | synchronize clears panic mode and then only moves forward |
| Parser.AfterNumberAsWritten | src/parser.cc:89-96 | number as written consumes a NUMBER token when there is one and never adds input |
| Parser.AfterNumber | src/parser.cc:89-96 | the corrected number always reads the current token, so it consumes input whenever current is not EOFS |
| Parser.AfterExpr | src/parser.cc:76-87 | expr (primary, then `;`) never adds input, and with the corrected number it consumes input unless at EOFS |
| Parser.AfterStatement | src/parser.cc:50-74 | statement never adds input, and with the corrected number it consumes input unless at EOFS |
| Parser.AfterDeclaration | src/parser.cc:34-48 | declaration never adds input, and with the corrected number it consumes input unless at EOFS |
| Parser.ParseLoop | src/parser.cc:28-30 | the corrected parse loop ends, and it ends having matched EOFS |
| Parser.AfterParse | src/parser.cc:24-32 | the corrected parse ends on every token stream, having matched EOFS |
| Parser.ParseLoopAsWritten | src/parser.cc:28-30 | whenever the as-written loop finishes within its iterations it has matched EOFS |
| Parser.NextNonError | src/parser.cc:144-150 | the first index from a start that holds no error token, every index before it holding one |
| Parser.ScanLoopSkipsErrors | src/parser.cc:141-151 | advance reads up to the first token that is not an error; of the error tokens skipped only the first is reported, with its own text as message, and only outside panic mode |
| Parser.SyncLoopStops | src/parser.cc:116-139 | synchronize stops at EOFS, after a `;` or before a declaration keyword, and reports nothing when no error tokens are left |
| Parser.ScanLoopErrorStep | src/parser.cc:145-149 | an error token is read, reported at itself with its own text, and the loop goes on |
| Parser.AdvanceStep | src/parser.cc:141-151 | advance over a token that is not an error reads exactly that token; at the end of input it reads EOFS and stays |
| Parser.NumberStatement | src/parser.cc:34-96 | the declaration `NUMBER ;` reads both tokens, reports nothing and yields one expression statement holding the number's text |
| Parser.ParsesProgram | src/parser.cc:28-30 | from any point of a `NUMBER ;`* EOFS program the loop yields one statement per remaining number, in order, reporting nothing |
| Parser.ParseLoopEnds | src/parser.cc:28 | at EOFS the parse loop stops with the statements it has, reporting nothing |
| Parser.ParseLoopContinues | src/parser.cc:28-30 | at `NUMBER ;` the parse loop goes on from the token after `;` with one more statement |
| Parser.ParsesWholeProgram | src/parser.cc:24-32 | a whole `NUMBER ;`* EOFS program parses without any report into one expression statement per number, in order |
| Parser.StuckDeclaration | src/parser.cc:89-96 | on `;)`, a declaration from the state after the first one reads nothing and returns to that state |
| Parser.StuckForever | src/parser.cc:28-30 | from that state the as-written parse loop never reaches EOFS, whatever the number of iterations |
| Parser.ParseAsWrittenLoops | src/parser.cc:24-32 | parse as written never finishes on `;)`, whatever the initial token and the number of iterations |
| Parser.ParseEndsOnLoopTokens | src/parser.cc:24-32 | the corrected parse of `;)` ends at EOFS, with `;` and then `)` reported as "expecting number" |
| Parser.Parser.constructor | src/parser.hh:13 | a parser over the scanner's tokens, none read, not in panic mode, without errors |
| Parser.Parser.ScanToken | src/scanner.cc:187-192 | the next token of the stream, or EOFS once it is used up; nothing else changes |
| Parser.Parser.ErrorAt | src/parser.cc:98-114 | the parser's new state is errorAt's: the message is written unless in panic mode |
| Parser.Parser.ErrorAtCurrent | src/parser.hh:18-20 | errorAt at the current token |
| Parser.Parser.Error | src/parser.hh:17 | errorAt at the previous token |
| Parser.Parser.Advance | src/parser.cc:141-151 | the loop leaves the parser in the state advance's specification gives |
| Parser.Parser.Consume | src/parser.cc:153-159 | the parser's new state is consume's specification |
| Parser.Parser.Match | src/parser.cc:161-167 | the result and new state are match's specification |
| Parser.Parser.Synchronize | src/parser.cc:116-139 | the loop leaves the parser in the state synchronize's specification gives |
| Parser.Parser.Number | src/parser.cc:89-96 | the corrected number: the state and expression of its specification |
| Parser.Parser.ExprRule | src/parser.cc:76-87 | the state and expression of expr's specification |
| Parser.Parser.StatementRule | src/parser.cc:50-74 | the state and statement of statement's specification |
| Parser.Parser.DeclarationRule | src/parser.cc:34-48 | the state and appended statements of declaration's specification |
| Parser.Parser.Parse | src/parser.cc:24-32 | the loop ends, leaving the state and tree of parse's specification |
| Printer.Spaces | src/printer.cc:106-113 | the indentation of a block entry is exactly `indent` spaces |
| Printer.ParamsPrefixJoins | src/printer.cc:57-71 | after n turns the parameter loop has written the first n parameters joined by ", ", plus a separator exactly when more follow |
| Printer.ParamsJoined | src/printer.cc:57-71 | funDec writes the parameters joined by ", " with no trailing separator |
| Printer.ArgTexts | src/printer.cc:331-340 | one printed text per argument, each the printed form of that argument |
| Printer.ArgsPrefixAsParams | src/printer.cc:331-340 | the argument loop writes the printed arguments as the parameter loop writes names |
| Printer.ArgsJoined | src/printer.cc:331-340 | args writes the printed arguments in parentheses, joined by ", " |
| Printer.DeclEndsWithNewline | src/printer.cc:34-46 | every printed declaration or block entry ends with the printer's newline character |
| Printer.ProgramEndsWithNewline | src/printer.cc:24-32 | a non-empty program printed ends with the newline character |
| Printer.ProgramAppend | src/printer.cc:28-32 | printing a program with one more declaration appends exactly that declaration's text |
| Printer.ProgramPrefixStable | src/printer.cc:28-32 | the text of the first n declarations does not depend on what follows them |
| Printer.OccurrencesAppend | src/printer.cc:210-258 | a character occurs in a concatenation as often as in both parts together |
| Printer.OccurrencesAbsent | src/printer.cc:210-258 | a character that a text does not hold occurs in it zero times |
| Printer.NoParenInOperator | src/printer.cc:212-254 | no operator text binary writes holds a parenthesis |
| Printer.ParenthesesBalance | src/printer.cc:210-298 | the output is fully parenthesised: an arithmetic expression holds exactly one `(` and one `)` per binary node |
| Printer.BinaryExample | test/parse.test.cc:75 | `2 * (3 + 4)` is printed as `(2 * (3 + 4));` |
| Printer.UnaryExample | test/parse.test.cc:38 | `-!-2` is printed as `-!-2;` |
| Printer.VarExample | test/parse.test.cc:103-104 | `var x = 1; var x;` is printed back as written |
| Printer.PrintExample | test/parse.test.cc:91 | `print "a";` is printed back as written, with the quotes |
| Printer.AstPrinter.constructor | src/printer.hh:24 | a printer writing to the stream with the given newline character and indentation |
| Printer.AstPrinter.Print | src/printer.cc:24-26 | the stream gains exactly the program's printed text |
| Printer.AstPrinter.Declaration | src/printer.cc:28-32 | the loop appends each declaration's text in order, and nothing else |
| Printer.AstPrinter.DecsStatement | src/printer.cc:34-46 | appends the entry, a `;` after a variable declaration, then the newline |
| Printer.AstPrinter.VarDecMethod | src/printer.cc:48-55 | appends `var name`, then ` = ` and the initialiser only when there is one |
| Printer.AstPrinter.FunDecMethod | src/printer.cc:57-71 | appends `fun ` only for a function, the name, the parameters and the body block |
| Printer.AstPrinter.ClassDecMethod | src/printer.cc:73-84 | appends the class header, each method followed by the newline, and the closing brace |
| Printer.AstPrinter.SuperClause | src/printer.cc:75-77 | appends ` < super` only when there is a superclass |
| Printer.AstPrinter.Statement | src/printer.cc:86-104 | appends the printed form of whichever statement kind it is given |
| Printer.AstPrinter.BlockMethod | src/printer.cc:106-113 | appends the braces, each entry indented by `indent` spaces |
| Printer.AstPrinter.IfStat | src/printer.cc:115-124 | appends the condition and branch, and the else branch only when there is one |
| Printer.AstPrinter.ForStat | src/printer.cc:126-145 | appends the three clauses, each possibly empty, and the body |
| Printer.AstPrinter.ForInitMethod | src/printer.cc:128-134 | appends a variable, an expression or nothing as the initialiser |
| Printer.AstPrinter.OptExprMethod | src/printer.cc:135-142 | appends the clause only when present |
| Printer.AstPrinter.WhileStat | src/printer.cc:147-152 | appends the condition in parentheses and the body |
| Printer.AstPrinter.ReturnStat | src/printer.cc:154-161 | appends `return`, the value only when present, and `;` |
| Printer.AstPrinter.BreakStat | src/printer.cc:163-169 | a BREAK token gives `break;`, any other token `continue;` |
| Printer.AstPrinter.PrintStatement | src/printer.cc:171-175 | appends `print`, the expression and `;` |
| Printer.AstPrinter.ExprStatement | src/printer.cc:177-180 | appends the expression and `;` |
| Printer.AstPrinter.ExprMethod | src/printer.cc:182-208 | appends the printed form of the node's kind; kinds without a branch append nothing |
| Printer.AstPrinter.BinaryMethod | src/printer.cc:210-258 | appends both operands with the operator between them, in parentheses |
| Printer.AstPrinter.AssignMethod | src/printer.cc:260-264 | appends target ` = ` value |
| Printer.AstPrinter.CallMethod | src/printer.cc:266-269 | appends the callee and its arguments |
| Printer.AstPrinter.DotMethod | src/printer.cc:271-284 | appends `left.id`, then a set value or call arguments as the tail says |
| Printer.AstPrinter.UnaryMethod | src/printer.cc:286-298 | `!` and `-` prefix the operand; any other operator appends nothing |
| Printer.AstPrinter.ThisMethod | src/printer.cc:320-329 | `this`, or `super.id` with arguments only when the node has them |
| Printer.AstPrinter.Args | src/printer.cc:331-340 | the loop appends the printed arguments, separated by ", ", in parentheses |
| CodeGen.Size | src/codegen.cc:27 | size_t arithmetic: every result is below 2^64 and a value already in range is kept |
| CodeGen.ConstOperandRoundTrip | src/codegen.cc:18-22 | the two operand bytes of emitByteConst read back, high byte first, as the constant index whenever it fits in 16 bits |
| CodeGen.PatchedRewritesOperand | src/codegen.cc:66-76 | patchJump leaves every byte but the two placeholders alone, keeps the length, and the placeholders read back as the distance when it fits in 16 bits |
| CodeGen.LoopOperandRoundTrip | src/codegen.cc:24-34 | the loop operand reads back as the distance from the byte after the instruction back to loopStart |
| CodeGen.CodeGen.constructor | src/codegen.hh:16 | a generator reporting to the error manager, at line 0, writing to the given chunk |
| CodeGen.CodeGen.SetChunk | src/codegen.hh:35 | the chunk written to changes and the line number stays |
| CodeGen.CodeGen.SetLinenumber | src/codegen.hh:37 | the line number changes and the chunk stays |
| CodeGen.CodeGen.GetLinenumber | src/codegen.hh:38 | the current line number |
| CodeGen.CodeGen.GetPosition | src/codegen.hh:40 | the number of bytes written to the chunk so far |
| CodeGen.CodeGen.EmitByte | src/codegen.cc:9-11 | the chunk's code gains exactly the byte, and its line table the current line |
| CodeGen.CodeGen.EmitBytes | src/codegen.cc:13-16 | the code gains both bytes, in order, both at the current line |
| CodeGen.CodeGen.EmitByteConst | src/codegen.cc:18-22 | the code gains the opcode and the index, high byte first |
| CodeGen.CodeGen.EmitLoop | src/codegen.cc:24-34 | the code gains LOOP and the offset back to loopStart as a size_t; an offset beyond 16 bits is reported as "Loop body too large." and no other error is reported |
| CodeGen.CodeGen.EmitJump | src/codegen.cc:36-41 | the code gains the opcode and two 0xff placeholders, and the result is the position of the first placeholder |
| CodeGen.CodeGen.EmitReturn | src/codegen.cc:43-51 | an initializer returns local slot 0, every other kind of function returns nil; each byte gets the current line |
| CodeGen.CodeGen.MakeConstant | src/codegen.cc:53-60 | the value is appended to the pool; its index is returned when it fits in 16 bits, otherwise 0 and "Too many constants in one chunk." is reported |
| CodeGen.CodeGen.EmitConstant | src/codegen.cc:62-64 | the pool gains the value and the code gains CONSTANT with makeConstant's index, each byte at the current line |
| CodeGen.CodeGen.PatchJump | src/codegen.cc:66-76 | the placeholders become the distance to the end of the code; a distance beyond 16 bits is reported as "Too much code to jump over.", otherwise nothing is reported |
| Compiler.LastIndexOf | src/compiler.cc:175-187 | the highest index whose local has the name, with no later local having it; -1 exactly when no local has it |
| Compiler.Kept | src/compiler.cc:161-173 | the locals kept are a prefix whose last one is at most `depth` deep, and every local dropped is deeper |
| Compiler.KeptIsWhereScanStops | src/compiler.cc:163-164 | wherever the downward scan stops by its own test is exactly the count Kept describes |
| Compiler.PopsDownMatchDropped | src/compiler.cc:163-172 | one byte per dropped local, innermost first: CLOSE_UPVALUE for a captured local, POP for any other |
| Compiler.ScopeStart | src/compiler.cc:246-250 | the start of the innermost scope: the local below it is initialised and belongs to an enclosing scope, and none above it does |
| Compiler.DeclaredInScopeMeans | src/compiler.cc:241-258 | declareVariable's duplicate test holds exactly when some local of the innermost scope has the name |
| Compiler.IndexOf | src/compiler.cc:192-197 | the first index holding the upvalue, with none before it; -1 exactly when it is absent |
| Compiler.AddUpvalueSpec | src/compiler.cc:189-208 | an upvalue already present gives its index and changes nothing; a full array is reported as "Too many closure variables in function." and gives 0; otherwise the upvalue goes in the next slot, and that slot's index is returned |
| Compiler.AddUpvalueDeduplicates | src/compiler.cc:189-208 | the upvalues in use are kept, none appears twice, and (unless the array is full) the upvalue is in use at the index returned |
| Compiler.MarkCaptured | src/compiler.cc:217 | marking a local captured changes no count and no upvalue |
| Compiler.AddedTo | src/compiler.cc:218 | addUpvalue on one context of the chain leaves every other context alone and returns an index of the array |
| Compiler.CaptureSpec | src/compiler.cc:215-219 | capturing a local of the enclosing context leaves the contexts inside the current one alone |
| Compiler.OutwardSpec | src/compiler.cc:221-226 | an upvalue found further out becomes an upvalue of the current context, and -1 stays -1 without any change |
| Compiler.ResolveFrom | src/compiler.cc:210-227 | resolution changes no context inside the one it starts from, and gives -1 or an index of the upvalue array |
| Compiler.NoneInPrefix | src/compiler.cc:176-186 | when resolveLocal answers -1, no local in use has the name |
| Compiler.ResolveUpvalueFinds | src/compiler.cc:210-227 | resolveUpvalue answers an upvalue exactly when some enclosing function declares the name |
| Compiler.ResolveLocal | src/compiler.cc:175-187 | the loop returns the innermost local with the name or -1, and reports "Can't read local variable in its own initializer." exactly when that local is not yet initialised |
| Compiler.AddUpvalue | src/compiler.cc:189-208 | the upvalue array, count, index and errors are those of its specification; the function is otherwise unchanged |
| Compiler.ResolveUpvalue | src/compiler.cc:210-227 | the index, the errors and every context of the chain end as the recursive specification says |
| Compiler.ResolveEnclosed | src/compiler.cc:215-226 | the enclosing context is searched for a local first and then for an upvalue, as the specification says |
| Compiler.AddUpvalueIn | src/compiler.cc:218 | addUpvalue on one context of the chain, as it shows on the whole chain |
| Compiler.CaptureLocal | src/compiler.cc:216-219 | the enclosing local is marked captured and added as a local upvalue |
| Compiler.ResolveThrough | src/compiler.cc:221-226 | the recursive call and the upvalue it links, as the specification says |
| Compiler.LinkOuter | src/compiler.cc:222-226 | a found upvalue becomes a non-local upvalue, and -1 is passed on with nothing changed |
| Compiler.BinaryOpcodeInverse | src/compiler.cc:595-627 | each operator has its own instruction, and the instruction gives back its operator: the mapping is one-to-one |
| Compiler.ComparisonsNegate | src/compiler.cc:583-612 | `>=` and `<=` compile to NOT_LESS and NOT_GREATER, and `and`/`or` emit no operator instruction |
| Compiler.Compiler.constructor | src/compiler.hh:27 | a compiler reporting to the error manager with the given context |
| Compiler.Compiler.EmitByte | src/compiler.cc:48-50 | the current chunk gains the byte at the previous token's line |
| Compiler.Compiler.EmitBytes | src/compiler.cc:52-55 | the current chunk gains both bytes, in order |
| Compiler.Compiler.EmitByteConst | src/compiler.cc:57-61 | the current chunk gains the opcode and the 16-bit index, high byte first |
| Compiler.Compiler.EmitLoop | src/compiler.cc:63-73 | the current chunk gains LOOP and the offset back to loopStart, with "Loop body too large." reported exactly when it exceeds 16 bits |
| Compiler.Compiler.EmitJump | src/compiler.cc:75-80 | the current chunk gains the opcode and two placeholders, and the first placeholder's position is returned |
| Compiler.Compiler.EmitReturn | src/compiler.cc:82-90 | an initializer returns local slot 0, every other function nil |
| Compiler.Compiler.MakeConstant | src/compiler.cc:92-99 | the value is appended to the pool; its index is returned, or 0 with "Too many constants in one chunk." reported once it exceeds 16 bits |
| Compiler.Compiler.EmitConstant | src/compiler.cc:101-103 | the pool gains the value, the code CONSTANT with makeConstant's index |
| Compiler.Compiler.PatchJump | src/compiler.cc:105-115 | the placeholders become the distance to the end of the code, with "Too much code to jump over." reported exactly when it exceeds 16 bits |
| Compiler.Compiler.Number | src/compiler.cc:672-682 | 0 and 1 emit ZERO and ONE and touch no constant; any other number is appended to the pool and loaded by CONSTANT |
| Compiler.Compiler.BinaryOperator | src/compiler.cc:595-627 | after the operands, exactly the operator's instruction is emitted, and nothing for an operator without one |
| Compiler.Compiler.BeginScope | src/compiler.cc:152-154 | the scope is one deeper and the locals are unchanged |
| Compiler.Compiler.AdjustLocals | src/compiler.cc:161-173 | the locals kept are those Kept describes, and the code gains one CLOSE_UPVALUE or POP per dropped local |
| Compiler.Compiler.EndScope | src/compiler.cc:156-159 | the scope is one shallower and its locals are dropped as adjust_locals does |
| Compiler.Compiler.AddLocal | src/compiler.cc:229-239 | a full array is reported as "Too many local variables in function." and changes nothing; otherwise a new uninitialised, uncaptured local with the name is added |
| Compiler.Compiler.DeclareVariable | src/compiler.cc:241-258 | at global scope nothing happens; otherwise "Already a variable with this name in this scope." is reported when the innermost scope has the name, and the local is added either way |
| Compiler.Compiler.MarkInitialized | src/compiler.cc:260-265 | at global scope nothing changes; otherwise the innermost local becomes initialised at the current depth and nothing else changes |
| Debug.LengthPositive | src/debug.cc:56-158 | every instruction takes at least its opcode byte, and only CLOSURE takes more than three |
| Debug.WalkStep | src/debug.cc:16-18 | the listing from an offset inside the code is that offset, then the listing from the next instruction |
| Debug.WalkIsOrdered | src/debug.cc:16-18 | disassembleChunk lists strictly increasing offsets inside the code, starting where asked, each instruction followed by the one right after it |
| Debug.WalkEndsPastCode | src/debug.cc:16-18 | the last instruction listed reaches the end of the code, so no instruction start is left out |
| Debug.GetCode | src/chunk.hh:69 | the byte at an index inside the code, and 0 past it |
| Debug.DisassembleInstruction | src/debug.cc:56-158 | the next offset is the instruction's length further on (CLOSURE: two bytes per upvalue of its function); a target is reported exactly for jumps, and it is the byte after the jump moved by the operand forwards, or backwards for LOOP |
| Debug.DisassembleChunk | src/debug.cc:13-19 | the loop lists exactly the offsets of the walk from 0 |
| Debug.PatchedJumpTarget | src/debug.cc:49-54 | a forward jump patched at the end of the code is listed with the end of the code as its target |
| Debug.LoopTarget | src/debug.cc:49-54 | a LOOP emitted at the end of the code is listed with its loop start as its target |
| VM.FalseyExactly | src/vm.hh:58-60 | the falsey values are exactly nil and false |
| VM.JumpLandsAtPatchPoint | src/vm.cc:470-474 | a jump that patchJump patched when the code had n bytes lands on offset n, the first byte written after the patch |
| VM.LoopLandsAtLoopStart | src/vm.cc:481-485 | a LOOP that emitLoop emitted goes back exactly to its loop start |
| VM.DecreasingOrder | src/vm.cc:197-219 | in the open-upvalue list each slot lies above every later one |
| VM.OrderDecreasing | src/vm.cc:197-219 | a list ordered that way is in the order captureUpvalue keeps |
| VM.DecreasingTail | src/vm.cc:221-228 | after the head of the list comes a decreasing list, all of it below the head |
| VM.InsertSlotMembers | src/vm.cc:197-219 | captureUpvalue adds exactly the captured slot to the list |
| VM.InsertSlotLength | src/vm.cc:205-207 | capturing a slot already in the list changes nothing; otherwise the list grows by one |
| VM.InsertSlotOrdered | src/vm.cc:197-219 | capturing keeps the list strictly decreasing, so no slot has two open upvalues |
| VM.InsertSlotAt | src/vm.cc:200-216 | where the walk stops, the slot is either found or inserted |
| VM.BelowIsSuffix | src/vm.cc:221-228 | closeUpvalues keeps a suffix of the list and drops only slots at or above `last` |
| VM.BelowMembers | src/vm.cc:221-228 | on the sorted list, closing keeps exactly the slots below `last` |
| VM.AllBelow | src/vm.cc:222 | once the head is below `last`, the whole list is, which is why the loop can stop there |
| VM.BelowPrefix | src/vm.cc:222-227 | the loop stops after the leading slots at or above `last` |
| VM.SpliceDecreasing | src/vm.cc:209-216 | linking the new upvalue in where the walk stopped keeps the list sorted and inside the stack |
| VM.SetThenRemove | src/vm.cc:342-343 | setting an absent global and deleting it again leaves the globals as they were |
| VM.AssignIn | src/vm.cc:340-349 | SET_GLOBAL's table work: true exactly when the name was defined, and then the name is rebound; otherwise the globals are unchanged |
| VM.Machine.constructor | src/vm.cc:66-73 | the machine init() leaves (before the natives): empty stack, no frames, no open upvalues, no globals |
| VM.Machine.ResetStack | src/vm.cc:32-36 | the stack, the frames and the open upvalues are emptied; nothing else changes |
| VM.Machine.RuntimeError | src/vm.cc:38-59 | the message and a newline are written, the stack is reset and the error flag set |
| VM.Machine.Push | src/vm.hh:42 | the value goes on top, and nothing else changes |
| VM.Machine.Pop | src/vm.hh:43 | the top value is returned and removed, and nothing else changes |
| VM.Machine.Peek | src/vm.hh:44 | the value `distance` below the top of the stack |
| VM.Machine.OpenDistinct | src/vm.cc:197-219 | no upvalue appears twice in the open list |
| VM.Machine.FindSlot | src/vm.cc:198-203 | the walk stops at the first upvalue whose slot is not above the local, and it finds one for that slot exactly when the slot is in the list |
| VM.Machine.NewLinked | src/vm.cc:209-216 | a fresh upvalue for the slot, linked before `upvalue` and after prevUpvalue, or at the head |
| VM.Machine.Relink | src/vm.cc:209-216 | the new upvalue stands at the walk's position, and the list invariant holds again |
| VM.Machine.LinkUpvalue | src/vm.cc:209-218 | the new upvalue is inserted at the walk's position, and no other upvalue changes |
| VM.Machine.CaptureUpvalue | src/vm.cc:197-219 | the upvalue for the slot is in the list afterwards: the existing one, or a fresh one linked in its sorted place; the list stays sorted |
| VM.Machine.CloseHead | src/vm.cc:223-226 | the head upvalue takes its slot's value, points at its own copy, and leaves the list |
| VM.Machine.CloseUpvalues | src/vm.cc:221-228 | every open upvalue at or above `last` is closed with the value of its slot; the rest stay open, in order |
| VM.Machine.Call | src/vm.cc:99-116 | a wrong argument count or a full frame array is a runtime error with its message that sets hadError; otherwise a frame is pushed whose slot 0 is the callee, below its arguments |
| VM.Machine.OpConstant | src/vm.cc:290-294 | the constant named by the 16-bit operand is pushed |
| VM.Machine.OpNil | src/vm.cc:295-297 | nil is pushed |
| VM.Machine.OpPop | src/vm.cc:310-312 | the top value is dropped |
| VM.Machine.OpGetLocal | src/vm.cc:313-317 | the value in the frame slot named by the operand is pushed |
| VM.Machine.OpSetLocal | src/vm.cc:318-322 | the top value is copied into the frame slot and stays on the stack |
| VM.Machine.Skip | src/vm.cc:255 | ip moves past the operand bytes, and nothing else changes |
| VM.Machine.OpGetGlobal | src/vm.cc:323-333 | a defined global's value is pushed; an undefined name is the runtime error "Undefined variable '...'." |
| VM.Machine.OpDefineGlobal | src/vm.cc:334-339 | the name is bound to the top value, which is popped |
| VM.Machine.DefineGlobal | src/vm.cc:336 | the name is bound to the top value, whether it was defined or not |
| VM.Machine.OpSetGlobal | src/vm.cc:340-349 | a defined name is rebound and the value stays on the stack; an undefined one leaves the globals unchanged and is a runtime error |
| VM.Machine.AssignGlobal | src/vm.cc:342-343 | true exactly when the name was defined, and then it is rebound; otherwise the globals are unchanged |
| VM.Machine.OpEqual | src/vm.cc:407-412 | the two top values are replaced by whether they are equal |
| VM.Machine.OpNot | src/vm.cc:454-456 | the top value is replaced by whether it is falsey |
| VM.Machine.OpJump | src/vm.cc:470-474 | ip moves forwards by the operand, past the operand bytes |
| VM.Machine.OpJumpIfFalse | src/vm.cc:475-480 | ip jumps exactly when the top value is falsey, which stays on the stack |
| VM.Machine.OpLoop | src/vm.cc:481-485 | ip moves back by the operand |
| VM.Machine.OpCloseUpvalue | src/vm.cc:537-540 | the upvalues of the top slot are closed and the value is popped |
| VM.Machine.LeaveFrame | src/vm.cc:542-544 | the result is popped, the frame's upvalues are closed and the frame is dropped |
| VM.Machine.ResumeCaller | src/vm.cc:551-554 | the stack is cut back to the frame's slot 0, the result goes there and the caller's ip resumes |
| VM.Machine.OpReturn | src/vm.cc:541-556 | the run ends exactly when the last frame returns, popping the script's slot 0; otherwise the result replaces the frame's slots and the caller resumes |
| Xtest.Split | tools/xtest.test.ts:81 | `split("\n")` always gives at least one piece |
| Xtest.SplitJoin | tools/xtest.test.ts:120 | gluing the split lines back with newlines gives the captured text back |
| Xtest.SplitPiecesNoNewline | tools/xtest.test.ts:81 | no piece of a split holds a newline |
| Xtest.JoinSplit | tools/xtest.test.ts:120 | splitting lines that were joined with newlines gives those lines back, when none holds a newline |
| Xtest.SplitNoNewline | tools/xtest.test.ts:81 | a newline-free text splits into itself alone |
| Xtest.SplitAfter | tools/xtest.test.ts:81 | a newline-free line in front of a newline is a piece of its own |
| Xtest.FindIsFirst | tools/xtest.test.ts:72-74 | the regular expression's match starts at the first occurrence of the marker, and there is none exactly when the marker does not occur |
| Xtest.ToTerminator | tools/xtest.test.ts:72-74 | `.*` takes the longest prefix without a line terminator: the text stops at one, or at the end |
| Xtest.Captured | tools/xtest.test.ts:72-74 | the `expect` group exists exactly when the marker occurs, and it holds no line terminator |
| Xtest.LeadingSpaces | tools/xtest.test.ts:98 | the number of white-space characters at the front, followed by one that is not |
| Xtest.TrailingSpaces | tools/xtest.test.ts:98 | the number of white-space characters at the end, preceded by one that is not |
| Xtest.TrimProperties | tools/xtest.test.ts:98 | `trim()` gives a stretch of the input with only white space around it, neither starting nor ending with white space |
| Xtest.TrimIdempotent | tools/xtest.test.ts:98 | trimming an option twice is trimming it once |
| Xtest.LinePayload | tools/xtest.test.ts:82-99 | a line adds one payload to a list exactly when it carries that list's marker, and that payload is the captured group |
| Xtest.GetExpected | tools/xtest.test.ts:76-102 | the loop gathers, in line order, the expect payloads, the error payloads and the trimmed option payloads, with status 0 |
| Xtest.ClassifyLine | tools/xtest.test.ts:82-99 | one line extends each list by what it carries for that list's own marker |
| Xtest.PayloadsStep | tools/xtest.test.ts:81 | one more line adds only its own payload |
| Xtest.TrimAllAppend | tools/xtest.test.ts:98 | the options are trimmed one by one |
| Xtest.LinesClassifiedIndependently | tools/xtest.test.ts:81-100 | the three patterns are tried independently: a line with two markers lands in both lists, a line with none changes nothing |
| Xtest.PayloadsOfLine | tools/xtest.test.ts:82-87 | a one-line file gives that line's payload, if any |
| Xtest.CapturedPayload | tools/xtest.test.ts:72 | a marker followed by a payload without line terminators captures exactly that payload |
| Xtest.ToTerminatorWhole | tools/xtest.test.ts:72 | a text without line terminators is taken whole by `.*` |
| Xtest.ExpectLines | tools/xtest.test.ts:72 | the file lines `// expect: p`, one per payload, in order |
| Xtest.ExpectRoundTrip | tools/xtest.test.ts:76-102 | a file made of `// expect: ` lines expects exactly their payloads, in order, and no error and no option |
| Xtest.ExpectPayloads | tools/xtest.test.ts:82-87 | the expect payloads of such lines are the payloads written |
| Xtest.NoOtherPayloads | tools/xtest.test.ts:88-99 | such lines with slash-free payloads give no error and no option |
| Xtest.NotAfterExpectMarker | tools/xtest.test.ts:72-74 | the error and option patterns do not match an expect line with a slash-free payload |
| Xtest.SlashesOnlyInMarker | tools/xtest.test.ts:72 | in an expect line with a slash-free payload, the only slashes are the two that open the marker |
| Xtest.ExitStatus | tools/xtest.test.ts:39-41 | an exit without a code counts as status 0, otherwise the code is the status |
| Xtest.Outcome | tools/xtest.test.ts:117-122 | the result of a run has no options and the exit status |
| Xtest.OutcomeKeepsText | tools/xtest.test.ts:120 | the result's lines, glued back with newlines, are exactly what the interpreter wrote to each stream |
| Xtest.FirstMismatch | tools/xtest.test.ts:133-135 | the first index below both lengths where the lists differ; none exactly when they agree on every common line |
| Xtest.CheckResult | tools/xtest.test.ts:129-141 | the test fails exactly when an output line differs, or, for a non-zero status, an error line does; the failure named is a real mismatch, output first |
| Xtest.TrailingLinesNeverFail | tools/xtest.test.ts:133-139 | extra lines written, or expected lines never written, do not make a test fail |
| Xtest.ErrorsIgnoredOnSuccess | tools/xtest.test.ts:136-140 | with status 0 the error lines do not matter |
| Xtest.ExactOutputPasses | tools/xtest.test.ts:117-141 | a run that wrote exactly the expected lines, with or without a trailing newline, and exited with 0 passes |
| Xtest.Prefixed | tools/xtest.test.ts:57 | every name of a subdirectory's listing gets the directory's name and a slash in front, in order |
| Xtest.FoundEndWithSuffix | tools/xtest.test.ts:48-62 | every path find_files lists ends with the suffix |
| Xtest.FoundInEndWithSuffix | tools/xtest.test.ts:51-61 | every path one entry contributes ends with the suffix |
| Xtest.FoundAreFiles | tools/xtest.test.ts:48-62 | every path find_files lists is the path of a file in the tree whose name ends with the suffix |
| Xtest.FoundPath | tools/xtest.test.ts:48-62 | for a listed path, yields the directories and the file name under which that file sits in the listing |
| Xtest.FoundInPath | tools/xtest.test.ts:51-61 | for a path one entry contributes, yields the directories below that entry and the file name it names |
| Xtest.FilesAreFound | tools/xtest.test.ts:48-62 | every file of the tree whose name ends with the suffix is listed, under its path of directory names |
| Xtest.InListing | tools/xtest.test.ts:51 | the listing of a directory holds what each of its entries contributes |
| Xtest.FlatDirectory | tools/xtest.test.ts:52-53 | the files directly in the directory come back under their bare names, in listing order |
| Xtest.Files | tools/xtest.test.ts:49 | a directory listing made only of files, one per name, in order |
| Xtest.FlatListing | tools/xtest.test.ts:48-62 | the recursion over a flat listing gives back the names |
| ValueOps.ValuesEqual | src/value.cc:44-53 | definition of value equality under NaN boxing: two numbers by double equality, two strings by their text, anything else by the word |
| Object.Fnv1a | src/object.cc:63-70 | definition of the string hash: FNV-1a from offset basis 2166136261, each byte xor-ed in and multiplied by 16777619 modulo 2^32 |
| Scanner.IdentifierType | src/scanner.cc:84-143 | definition of the keyword trie: the first character, and for c, f and t the second, selects the keyword whose rest must match, otherwise IDENTIFIER |
| Debug.FormatOf | src/debug.cc:56-158 | definition of the instruction format disassembleInstruction's switch picks for each opcode |
| Debug.Length | src/debug.cc:56-158 | definition of the number of bytes each instruction format occupies; CLOSURE takes two more per upvalue of its function |
| Debug.Walk | src/debug.cc:13-19 | definition of the offsets disassembleChunk visits, one instruction after the other |
| CodeGen.ConstCode | src/codegen.cc:18-22 | definition of the bytes emitByteConst writes: the opcode, then the constant index high byte first |
| CodeGen.LoopCode | src/codegen.cc:24-34 | definition of the bytes emitLoop writes: LOOP and the backward offset past its own operand, high byte first |
| CodeGen.JumpCode | src/codegen.cc:36-41 | definition of the bytes emitJump writes: the opcode and two 0xff placeholders |
| CodeGen.ReturnCode | src/codegen.cc:43-51 | definition of the bytes emitReturn writes: an initializer returns local slot 0, anything else nil |
| CodeGen.Patched | src/codegen.cc:66-76 | definition of the code after patchJump: the two placeholder bytes replaced by the distance to the end, big-endian |
| Compiler.PopsDown | src/compiler.cc:161-173 | definition of the bytes adjust_locals emits: one POP or CLOSE_UPVALUE per dropped local, innermost first |
| Compiler.DeclaredInScope | src/compiler.cc:241-258 | definition of declareVariable's duplicate test: a local of the current scope, scanned from the innermost, has the name |
| Compiler.BinaryOpcode | src/compiler.cc:583-627 | definition of the instruction binary() emits for each arithmetic and comparison operator |
| Errors.LineError | src/error.cc:13-22 | definition of the text errorAt(line, message) writes: `[line N] Error: message` and a newline |
| Errors.TokenError | src/error.cc:24-40 | definition of the text errorAt(token, message) writes: the header, where the token is (end, nothing for an error token, or its lexeme), then the message |
| Errors.ReportAll | src/error.cc:24-40 | definition of a run of reports, each one suppressed while in panic mode |
| VM.IsFalsey | src/vm.hh:58-60 | definition of falsiness: nil, or the boolean false |
| VM.InsertSlot | src/vm.cc:197-219 | definition of the open-upvalue slots after captureUpvalue: the slot joins the list in decreasing order unless it is already there |
| VM.Below | src/vm.cc:221-228 | definition of the open-upvalue slots after closeUpvalues: the leading slots at or above `last` are dropped |
| Table.Contents | src/table.cc:45-57 | definition of the map the table stands for: each key of a live entry to the value stored with it |
| ValArray.ValueArray.Contents | src/val_array.cc:9-18 | definition of the values in use, in the order they were written |
| Printer.ProgramText | src/printer.cc:24 | definition of print: the text of every declaration, in order |
| Printer.ProgramPrefix | src/printer.cc:24 | definition of the text of the first n declarations |
| Printer.DeclText | src/printer.cc:28-32 | definition of declaration: the text of a class, function, variable declaration or statement |
| Printer.StatText | src/printer.cc:86-104 | definition of statement: the text of each kind of statement |
| Printer.VarDecText | src/printer.cc:48-55 | definition of varDec: `var name` and the initializer if any (decs_statement adds the `;`) |
| Printer.InitializerText | src/printer.cc:48-55 | definition of the ` = expr` part of varDec, empty without an initializer |
| Printer.FunDecText | src/printer.cc:57-71 | definition of funDec: `fun` for a function, the name, the parameters, the body |
| Printer.ParamsPrefix | src/printer.cc:57-71 | definition of the first n parameters, comma separated |
| Printer.ClassDecText | src/printer.cc:73-84 | definition of classDec: `class name`, the superclass if any, the methods in braces |
| Printer.SuperText | src/printer.cc:75-77 | definition of ` < super`, empty without a superclass |
| Printer.MethodsPrefix | src/printer.cc:73-84 | definition of the text of the first n methods |
| Printer.BlockText | src/printer.cc:106-113 | definition of block: its declarations between braces, each after `indent` spaces |
| Printer.BlockPrefix | src/printer.cc:106-113 | definition of the text of the first n declarations of a block |
| Printer.IfText | src/printer.cc:115-124 | definition of if_stat: `if (cond)`, the then branch, the else branch if any |
| Printer.ElseText | src/printer.cc:115-124 | definition of the else part of if_stat, empty without one |
| Printer.ForText | src/printer.cc:126-145 | definition of for_stat: the initializer, the condition and the increment in parentheses, then the body |
| Printer.ForInitText | src/printer.cc:128-134 | definition of the initializer part: a variable declaration, an expression, or nothing |
| Printer.OptExprText | src/printer.cc:136-142 | definition of an optional condition or increment, empty when absent |
| Printer.WhileText | src/printer.cc:147-152 | definition of while_stat: `while (cond)` then the body |
| Printer.ReturnText | src/printer.cc:154-161 | definition of return_stat: `return`, the value if any, `;` |
| Printer.BreakText | src/printer.cc:163-169 | definition of break_stat: `break;` or `continue;` |
| Printer.PrintText | src/printer.cc:171-175 | definition of printStatement: `print expr;` |
| Printer.ExprText | src/printer.cc:182-208 | definition of expr: the text of each kind of expression |
| Printer.BinaryText | src/printer.cc:210-258 | definition of binary: the left operand, the operator, the right operand, in parentheses |
| Printer.BinaryOpText | src/printer.cc:212-254 | definition of the spelling of each binary operator |
| Printer.AssignText | src/printer.cc:260-264 | definition of assign: target ` = ` value |
| Printer.CallText | src/printer.cc:266-269 | definition of call: the callee, then the arguments |
| Printer.DotText | src/printer.cc:271-284 | definition of dot: the object, `.name`, then an assignment or call tail if any |
| Printer.DotTailText | src/printer.cc:271-284 | definition of the tail of a property access: ` = value`, the arguments, or nothing |
| Printer.UnaryText | src/printer.cc:286-298 | definition of unary: `!` or `-` then the operand; any other operator prints nothing |
| Printer.ThisText | src/printer.cc:320-329 | definition of this_: `this`, or `super.name` followed by the arguments when it is a call |
| Printer.ArgsText | src/printer.cc:331-340 | definition of args: the arguments, comma separated, in parentheses |
| Printer.ArgsPrefix | src/printer.cc:331-340 | definition of the first n arguments, comma separated |
| Printer.Join | src/printer.cc:331-340 | definition of items separated by a separator |
| Xtest.FindFiles | tools/xtest.test.ts:48-62 | definition of find_files: the matching files of each entry, in order |
| Xtest.FindIn | tools/xtest.test.ts:51-60 | definition of what one entry contributes: a file whose name ends with the suffix, or a directory's files prefixed by its name |
| Xtest.Trim | tools/xtest.test.ts:98 | definition of trim: leading then trailing white space dropped |
| Xtest.Expected | tools/xtest.test.ts:76-102 | definition of what get_expected reads: the expect, error and option lines of the file |
| Xtest.Passes | tools/xtest.test.ts:129-141 | definition of a passing run: output agrees on the common lines and, on a non-zero status, so do the error lines |

## Left out

- Floating-point arithmetic and number formatting. A number's value is kept abstract. This covers the value of `strtod` in `Parser::number`, `{:g}` printing, and the arithmetic opcodes. A printed Number node's text is given to the printer as it is printed.
- ValueOps.TaggedEquality: numbers of the tagged representation are compared as integers, so there is no NaN case in that branch.
- Process and file-system plumbing of the harness is left out: spawning the interpreter, jest registration, timeouts, `Promise.allSettled`, and the calls to `readdirSync`/`readFileSync`. `find_files` works on a directory-tree datatype and `get_expected` works on the file text.
- Xtest.ExpectRoundTrip: stated only for payloads free of slashes and line terminators, because a slash in a payload could start another marker on the same line.
- The main program, the REPL, the option parser, the native functions (`def_stdlib`), `initString` and the benchmarks are outside the interpreter core and are not part of this model.
- Opcode numbering: the `OP_` enum of `src/chunk.hh` does not declare ZERO, ONE, NOT_EQUAL, NOT_GREATER and NOT_LESS, although the compiler and the VM use them. The model gives them the codes 37 to 41.
- The keyword constant `ASTÉRIX` of the scanner is spelled `ASTERIX`.
- Debug: nothing the disassembler prints is modelled, only which instructions it visits, their lengths and the jump targets it reports. A byte past the written code reads as 0, because the source does not check the index. Constant instructions are read with one-byte indices as `src/debug.cc` does, although the compiler writes two bytes. The upvalue count that the CLOSURE case reads from the function constant in the pool (src/debug.cc:139-152) is the parameter `upvalues`. The model does not tie it to the constant pool, so any count is allowed.
- CodeGen: the source's constructor leaves the current chunk unset; the model's constructor takes the chunk.
- CodeGen.CodeGen.PatchJump and Compiler.Compiler.PatchJump require the two placeholders to lie inside the code written so far. The source never calls them otherwise.
- Constant indices (`const_index_t`) are natural numbers.
- Compiler: only code emission, the `binary` opcode mapping, `number` and the resolution of locals and upvalues are modelled. Walking the AST is not: `and_`/`or_`, statements, `initCompiler`/`endCompiler` and `parseVariable`/`defineVariable` are left out. A resolution error is reported through the error manager, which is passed as a parameter with the line it reports.
- Compiler.Compiler.MarkInitialized requires a local to exist when the scope is not global, because the source would write `locals[-1]`.
- VM: only the listed instructions are modelled: CONSTANT, NIL, POP, GET_LOCAL, SET_LOCAL, GET_GLOBAL, DEFINE_GLOBAL, SET_GLOBAL, EQUAL, NOT, JUMP, JUMP_IF_FALSE, LOOP, CLOSE_UPVALUE and RETURN, plus the calls. The dispatch loop itself is not modelled, and neither are the opcodes that need arithmetic, upvalue access, closures or classes: TRUE/FALSE/ZERO/ONE, the comparisons, GET/SET_UPVALUE, CALL, CLOSURE, INVOKE and the class instructions. The execution trace is not modelled either.
- VM: the stack depth and the slot indices an instruction reads are preconditions; the source does not check them. The constant name READ_STRING would read is given as a parameter, and the frame's `ip` is a separate value, not stored back into the frame.
- VM: runtimeError's stack-trace lines are not modelled; its message and the reset of the stack are.
- Table.Table.AdjustCapacity requires room for every live entry. Table.Table.AddAll requires two distinct tables. `Table::free` and `Table::mark` are not modelled.
- Gc: `freeObject`, `freeObjects`, `free` and `init` are not modelled: they free memory. The per-type walk of `blackenObject` is a map from an object to its pointers. `bytesAllocated` is kept as an integer without the size_t wrap. The roots are a parameter. CollectGarbage does not call the string-table cleanup (`removeWhite`), which is modelled on its own in `Table`.
- Text is a sequence of characters, and each character stands for one byte of the source's `std::string` or `const char *`. Object.ByteOf keeps the low eight bits of a character for Object.HashString, and the Scanner reads one character per step. So a character outside 0..255 is outside the source's domain: the source would see e.g. `é` as the two UTF-8 bytes 0xC3 0xA9, and the model sees one character.
- Table: the probing methods (FindEntry, FindKey, Put, Remove, Rehash and the sweeping of unmarked keys) require a power-of-two capacity. The source computes slots with `& (capacity - 1)`, which relies on this. The growth policy keeps it (Capacity.GrowKeepsPowerOfTwo).
- Object: `newBoundMethod`, `newClass`, `newInstance` and `newNative` are not modelled. Allocation bookkeeping is left to `Gc`.
- Parser: the constructor takes, as its parameter `initial`, the token that the source leaves default-initialised in `current` and `previous`.

## Findings

| source | as written | input that shows it | evidently intended | confidence | as-written member | corrected member |
|---|---|---|---|---|---|---|
| src/parser.cc:89-96 | `number()` consumes only a NUMBER token and does not advance otherwise. After the error, `synchronize` (src/parser.cc:116-122) stops at once because the previous token is `;`. So the `parse` loop repeats on the same token forever. | the tokens `;` `)` then end of input | every declaration consumes at least one token, so `parse` ends at the end of input | not executed | Parser.ParseAsWrittenLoops | Parser.ParseEndsOnLoopTokens |
