// Value equality and printing (src/value.cc).
//
// Numbers stay abstract apart from one thing equality needs: `==` on two
// doubles, which is stated on their IEEE-754 bit patterns (NaN equals
// nothing, +0 equals -0, any other pair is equal exactly when the bits
// are). Which objects are strings, and their text, is given by a map
// from object address to the string's characters.
module ValueOps {
  import opened Wrappers
  import opened Value
  import Object

  const ExponentMask: Word := 0x7ff0_0000_0000_0000
  const MantissaMask: Word := 0x000f_ffff_ffff_ffff

  predicate IsNaNBits(v: Word) { v & ExponentMask == ExponentMask && v & MantissaMask != 0 }
  predicate IsZeroBits(v: Word) { v & !SignBit == 0 }

  /** `AS_NUMBER(a) == AS_NUMBER(b)` on the bit patterns of two doubles. */
  predicate DoubleEqual(a: Word, b: Word)
  {
    !IsNaNBits(a) && !IsNaNBits(b) && (a == b || (IsZeroBits(a) && IsZeroBits(b)))
  }

  /** IS_STRING: an object whose address is that of a string. */
  predicate IsString(v: Word, strings: map<Word, string>)
  {
    IsObj(v) && AsObj(v) in strings
  }

  /** valuesEqual, NaN-boxing branch: numbers by double equality, strings by
      their text, everything else by the word. */
  function ValuesEqual(a: Word, b: Word, strings: map<Word, string>): bool
  {
    if IsNumber(a) && IsNumber(b) then DoubleEqual(a, b)
    else if IsString(a, strings) && IsString(b, strings) then strings[AsObj(a)] == strings[AsObj(b)]
    else a == b
  }

  /** Equality is symmetric. */
  lemma ValuesEqualSymmetric(a: Word, b: Word, strings: map<Word, string>)
    ensures ValuesEqual(a, b, strings) == ValuesEqual(b, a, strings)
  {
  }

  /** Every value other than a NaN equals itself; a NaN equals nothing. */
  lemma ValuesEqualReflexive(a: Word, strings: map<Word, string>)
    ensures ValuesEqual(a, a, strings) <==> !(IsNumber(a) && IsNaNBits(a))
  {
  }

  /** Two strings are equal exactly when their texts are, whether or not
      they are the same object; distinct non-string objects never are. */
  lemma StringsCompareByText(a: Word, b: Word, strings: map<Word, string>)
    requires IsString(a, strings) && IsString(b, strings)
    ensures ValuesEqual(a, b, strings) <==> strings[AsObj(a)] == strings[AsObj(b)]
  {
    assert !IsNumber(a) by { ObjExcludesOtherKinds(a); }
  }

  lemma OtherObjectsCompareByIdentity(a: Word, b: Word, strings: map<Word, string>)
    requires IsObj(a) && IsObj(b) && !(IsString(a, strings) && IsString(b, strings))
    ensures ValuesEqual(a, b, strings) <==> a == b
  {
    ObjExcludesOtherKinds(a);
  }

  /** A number never equals a non-number; booleans compare by truth value;
      nil equals only nil. */
  lemma KindsCompareApart(a: Word, b: Word, strings: map<Word, string>)
    ensures IsNumber(a) && !IsNumber(b) ==> !ValuesEqual(a, b, strings)
    ensures IsBool(a) ==> (ValuesEqual(a, b, strings) <==> IsBool(b) && AsBool(a) == AsBool(b))
    ensures IsNil(a) ==> (ValuesEqual(a, b, strings) <==> IsNil(b))
  {
    BoolAndNilClassification(a);
    BoolAndNilClassification(b);
  }

  /** printValue for the values whose form does not involve number
      formatting: booleans, nil and objects. None for a number. */
  function PrintValue(v: Word, objects: map<Word, Object.ObjView>): (r: Option<Object.Printed>)
    requires IsObj(v) ==> AsObj(v) in objects
    ensures r.None? <==> IsNumber(v)
  {
    if IsBool(v) then Some(Object.Printed(if AsBool(v) then "true" else "false", ""))
    else if IsNil(v) then Some(Object.Printed("nil", ""))
    else if IsNumber(v) then None
    else if IsObj(v) then Some(Object.PrintObject(objects[AsObj(v)]))
    else Some(Object.Printed("", ""))
  }

  /** The printed booleans read back as the boolean; nil prints `nil`. */
  lemma PrintBoolAndNil(b: bool, objects: map<Word, Object.ObjView>)
    ensures PrintValue(BoolVal(b), objects) == Some(Object.Printed(if b then "true" else "false", ""))
    ensures PrintValue(NilVal, objects) == Some(Object.Printed("nil", ""))
    ensures PrintValue(BoolVal(b), objects) != PrintValue(BoolVal(!b), objects)
  {
  }

  // ---------------------------------------------------------------------
  // The tagged-union branch.

  predicate IsStringT(v: TaggedValue, strings: map<Word, string>)
  {
    IsObjT(v) && v.obj in strings
  }

  function ValuesEqualT(a: TaggedValue, b: TaggedValue, strings: map<Word, string>): bool
  {
    if a.vtype != b.vtype then false
    else match a.vtype
      case VAL_BOOL => a.boolean == b.boolean
      case VAL_NIL => true
      case VAL_NUMBER => a.number == b.number
      case VAL_OBJ =>
        if IsStringT(a, strings) && IsStringT(b, strings) then strings[a.obj] == strings[b.obj]
        else a.obj == b.obj
  }

  /** Values of different types are never equal; nil equals nil; booleans
      compare by value; non-string objects by identity; and the relation
      is an equivalence. */
  lemma TaggedEquality(a: TaggedValue, b: TaggedValue, c: TaggedValue, strings: map<Word, string>)
    ensures a.vtype != b.vtype ==> !ValuesEqualT(a, b, strings)
    ensures IsNilT(a) && IsNilT(b) ==> ValuesEqualT(a, b, strings)
    ensures IsBoolT(a) && IsBoolT(b) ==> (ValuesEqualT(a, b, strings) <==> a.boolean == b.boolean)
    ensures IsObjT(a) && IsObjT(b) && !(IsStringT(a, strings) && IsStringT(b, strings)) ==>
              (ValuesEqualT(a, b, strings) <==> a.obj == b.obj)
    ensures ValuesEqualT(a, a, strings)
    ensures ValuesEqualT(a, b, strings) == ValuesEqualT(b, a, strings)
    ensures ValuesEqualT(a, b, strings) && ValuesEqualT(b, c, strings) ==> ValuesEqualT(a, c, strings)
  {
  }

  function PrintValueT(v: TaggedValue, objects: map<Word, Object.ObjView>): (r: Option<Object.Printed>)
    requires IsObjT(v) ==> v.obj in objects
    ensures r.None? <==> IsNumberT(v)
  {
    match v.vtype
    case VAL_BOOL => Some(Object.Printed(if v.boolean then "true" else "false", ""))
    case VAL_NIL => Some(Object.Printed("nil", ""))
    case VAL_NUMBER => None
    case VAL_OBJ => Some(Object.PrintObject(objects[v.obj]))
  }

  /** Both representations print booleans and nil the same way. */
  lemma PrintAgreesAcrossRepresentations(b: bool, objects: map<Word, Object.ObjView>)
    ensures PrintValueT(BoolValT(b), objects) == PrintValue(BoolVal(b), objects)
    ensures PrintValueT(NilValT(), objects) == PrintValue(NilVal, objects)
  {
  }
}
