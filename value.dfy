// The representation of Lox values (src/value.hh). With NAN_BOXING
// defined (src/common.hh) a value is one 64-bit word: numbers are the
// IEEE-754 bits of a double, and everything else lives inside the
// quiet-NaN space, tagged by the low bits (nil, false, true) or by the
// sign bit (object pointers). The tagged-union representation used when
// NAN_BOXING is off is modelled at the end of the module.
module Value {

  type Word = bv64

  const SignBit: Word := 0x8000_0000_0000_0000
  const Qnan: Word := 0x7ffc_0000_0000_0000

  const TagNil: Word := 1
  const TagFalse: Word := 2
  const TagTrue: Word := 3

  const FalseVal: Word := Qnan | TagFalse
  const TrueVal: Word := Qnan | TagTrue
  const NilVal: Word := Qnan | TagNil

  // is<bool>, is<nullptr_t>, is<double>, is<Obj>
  predicate IsBool(v: Word) { v | 1 == TrueVal }
  predicate IsNil(v: Word) { v == NilVal }
  predicate IsNumber(v: Word) { v & Qnan != Qnan }
  predicate IsObj(v: Word) { v & (Qnan | SignBit) == Qnan | SignBit }

  // as<bool>, value<bool>
  function AsBool(v: Word): bool { v == TrueVal }

  function BoolVal(b: bool): (v: Word)
    ensures IsBool(v) && !IsNil(v) && !IsNumber(v) && !IsObj(v)
    ensures AsBool(v) == b
  {
    if b then TrueVal else FalseVal
  }

  /** A pointer that can be boxed: the bits used for the tag are clear
      (true of every user-space address on the platforms it targets). */
  predicate IsBoxablePointer(p: Word) { p & (SignBit | Qnan) == 0 }

  // value<Obj*>, as<Obj*>
  function ObjVal(p: Word): (v: Word)
    ensures IsBoxablePointer(p) ==> IsObj(v) && !IsNumber(v) && !IsBool(v) && !IsNil(v)
  {
    SignBit | Qnan | p
  }

  function AsObj(v: Word): Word { v & !(SignBit | Qnan) }

  /** The three singleton words are distinct and none of them reads as a number. */
  lemma SingletonsAreDistinct()
    ensures TrueVal != FalseVal && TrueVal != NilVal && FalseVal != NilVal
    ensures !IsNumber(TrueVal) && !IsNumber(FalseVal) && !IsNumber(NilVal)
  {
  }

  /** is<bool> holds exactly for the two boolean words, is<nullptr_t> exactly for nil. */
  lemma BoolAndNilClassification(v: Word)
    ensures IsBool(v) <==> (v == TrueVal || v == FalseVal)
    ensures IsNil(v) <==> v == NilVal
    ensures IsNil(v) ==> !IsBool(v)
  {
  }

  lemma BoolRoundTrip(b: bool)
    ensures AsBool(BoolVal(b)) == b
  {
  }

  /** Boxing a pointer and unboxing it gives the pointer back. */
  lemma ObjRoundTrip(p: Word)
    requires IsBoxablePointer(p)
    ensures IsObj(ObjVal(p))
    ensures AsObj(ObjVal(p)) == p
  {
  }

  /** Boxing is injective on boxable pointers. */
  lemma ObjValInjective(p: Word, q: Word)
    requires IsBoxablePointer(p) && IsBoxablePointer(q)
    requires ObjVal(p) == ObjVal(q)
    ensures p == q
  {
    ObjRoundTrip(p);
    ObjRoundTrip(q);
  }

  /** An object word is none of number, bool or nil. */
  lemma ObjExcludesOtherKinds(v: Word)
    requires IsObj(v)
    ensures !IsNumber(v) && !IsBool(v) && !IsNil(v)
  {
  }

  // ---------------------------------------------------------------------
  // The tagged-union branch (NAN_BOXING undefined). Numbers are kept
  // abstract; the union is modelled as one field per alternative.

  datatype ValueType = VAL_BOOL | VAL_NIL | VAL_NUMBER | VAL_OBJ

  type Number = int

  datatype TaggedValue = TaggedValue(vtype: ValueType, boolean: bool, number: Number, obj: Word)

  predicate IsBoolT(v: TaggedValue) { v.vtype == VAL_BOOL }
  predicate IsNilT(v: TaggedValue) { v.vtype == VAL_NIL }
  predicate IsNumberT(v: TaggedValue) { v.vtype == VAL_NUMBER }
  predicate IsObjT(v: TaggedValue) { v.vtype == VAL_OBJ }

  function BoolValT(b: bool): (v: TaggedValue)
    ensures IsBoolT(v) && !IsNilT(v) && !IsNumberT(v) && !IsObjT(v)
    ensures v.boolean == b
  {
    TaggedValue(VAL_BOOL, b, 0, 0)
  }

  /** NIL_VAL stores 0 in the number member of the union. */
  function NilValT(): (v: TaggedValue)
    ensures IsNilT(v) && !IsBoolT(v) && !IsNumberT(v) && !IsObjT(v)
  {
    TaggedValue(VAL_NIL, false, 0, 0)
  }

  function NumberValT(n: Number): (v: TaggedValue)
    ensures IsNumberT(v) && !IsBoolT(v) && !IsNilT(v) && !IsObjT(v)
    ensures v.number == n
  {
    TaggedValue(VAL_NUMBER, false, n, 0)
  }

  function ObjValT(p: Word): (v: TaggedValue)
    ensures IsObjT(v) && !IsBoolT(v) && !IsNilT(v) && !IsNumberT(v)
    ensures v.obj == p
  {
    TaggedValue(VAL_OBJ, false, 0, p)
  }
}
