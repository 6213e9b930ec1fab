/**
 The types that can be wired, their values, and the constants `FIXED_SIZE` and `MIXED`
 that the encoder (`Wiring`) and the decoder (`Unwiring`) attach to each of them.
 */
module WireTypes {
  import opened Bytes

  /**
   Signed integers are values of their bit pattern, floats of their bits.
   `TStruct` is a derived struct, `TTuple` one of the built-in tuples, `TUnitStruct` a derived
   struct without a field list.  The fields that a struct marks as one `#[fixed]` group stand as a
   single field in it, a `TStruct` with `group`: that is written through one buffer and is
   otherwise like its fields in a row.
   */
  datatype Ty =
    | TInt(width: nat, signed: bool) | TFloat(width: nat) | TBool | TUnit | TString | TUnitStruct
    | TOption(some: Ty) | TVec(elem: Ty) | TArray(elem: Ty, len: nat)
    | TTuple(fields: seq<Ty>) | TStruct(fields: seq<Ty>, group: bool)
    | TEnum(tag: nat, variants: seq<Variant>)

  /** `unit`: declared without a field list. */
  datatype Variant = Variant(unit: bool, fields: seq<Ty>)

  datatype Value =
    | VInt(n: nat) | VBool(b: bool) | VUnit | VString(bytes: seq<byte>)
    | VNone | VSome(v: Value) | VList(vs: seq<Value>)
    | VVariant(index: nat, vs: seq<Value>)

  /** What the Rust compiler and the derive macros accept. */
  predicate Valid(t: Ty) {
    match t
    case TInt(w, _) => w in {1, 2, 4, 8, 16}
    case TFloat(w) => w == 4 || w == 8
    case TOption(e) => Valid(e)
    case TVec(e) => Valid(e)
    case TArray(e, _) => Valid(e)
    case TTuple(ts) => 2 <= |ts| <= 3 && AllValid(ts)
    // a group of other types is not written as its encoding, see DeriveMeaning
    case TStruct(ts, group) => ts != [] && AllValid(ts) && (group ==> AllEligible(ts, true))
    case TEnum(tag, variants) =>
      && tag in {1, 2, 4}
      && variants != []
      // get_tag refuses more than u16::MAX variants for u8 too, and does not check its default u16
      && (tag == 1 ==> |variants| <= 0xFFFF)
      && (tag == 4 ==> |variants| <= 0xFFFF_FFFF)
      && forall i :: 0 <= i < |variants| ==>
           AllValid(variants[i].fields) && (variants[i].unit ==> variants[i].fields == [])
    case _ => true
  }

  predicate AllValid(ts: seq<Ty>) {
    ts == [] || (Valid(ts[0]) && AllValid(ts[1..]))
  }

  predicate HasType(t: Ty, v: Value)
    decreases t, 0, 0
  {
    match t
    case TInt(w, _) => v.VInt? && v.n < Pow256(w)
    case TFloat(w) => v.VInt? && v.n < Pow256(w)
    case TBool => v.VBool?
    case TUnit => v.VUnit?
    case TUnitStruct => v.VUnit?
    case TString => v.VString? && ValidUtf8(v.bytes) && |v.bytes| < U64_LIMIT
    case TOption(e) => v.VNone? || (v.VSome? && HasType(e, v.v))
    case TVec(e) => v.VList? && |v.vs| < U64_LIMIT && AllHaveType(e, v.vs)
    case TArray(e, n) => v.VList? && |v.vs| == n && AllHaveType(e, v.vs)
    case TTuple(ts) => v.VList? && FieldsHaveType(ts, v.vs)
    case TStruct(ts, _) => v.VList? && FieldsHaveType(ts, v.vs)
    case TEnum(_, variants) =>
      v.VVariant? && v.index < |variants| && FieldsHaveType(variants[v.index].fields, v.vs)
  }

  /** Every element has type `t`. */
  predicate AllHaveType(t: Ty, vs: seq<Value>)
    decreases t, 1, |vs|
  {
    vs == [] || (HasType(t, vs[0]) && AllHaveType(t, vs[1..]))
  }

  predicate FieldsHaveType(ts: seq<Ty>, vs: seq<Value>)
    decreases ts, 0, 0
  {
    if ts == [] then vs == []
    else vs != [] && HasType(ts[0], vs[0]) && FieldsHaveType(ts[1..], vs[1..])
  }

  /** Some value of every type. */
  function Default(t: Ty): (v: Value)
    requires Valid(t)
    ensures HasType(t, v)
    decreases t, 0, 0
  {
    match t
    case TInt(w, _) => VInt(0)
    case TFloat(w) => VInt(0)
    case TBool => VBool(false)
    case TUnit => VUnit
    case TUnitStruct => VUnit
    case TString => VString([])
    case TOption(_) => VNone
    case TVec(_) => VList([])
    case TArray(e, n) => VList(Repeat(e, Default(e), n))
    case TTuple(ts) => VList(Defaults(ts))
    case TStruct(ts, _) => VList(Defaults(ts))
    case TEnum(_, variants) => VVariant(0, Defaults(variants[0].fields))
  }

  function Repeat(t: Ty, v: Value, n: nat): (vs: seq<Value>)
    requires HasType(t, v)
    ensures |vs| == n && AllHaveType(t, vs)
    decreases t, 1, n
  {
    if n == 0 then [] else [v] + Repeat(t, v, n - 1)
  }

  function Defaults(ts: seq<Ty>): (vs: seq<Value>)
    requires AllValid(ts)
    ensures FieldsHaveType(ts, vs)
    decreases ts, 0, 0
  {
    if ts == [] then [] else [Default(ts[0])] + Defaults(ts[1..])
  }

  /** Values are written without any byte. */
  predicate Empty(t: Ty) {
    match t
    case TArray(e, n) => n == 0 || Empty(e)
    case TTuple(ts) => AllEmpty(ts)
    case TStruct(ts, _) => AllEmpty(ts)
    case _ => false
  }

  predicate AllEmpty(ts: seq<Ty>) {
    ts == [] || (Empty(ts[0]) && AllEmpty(ts[1..]))
  }

  /**
   The types whose values `concat_array` writes correctly: into any slice or, `zeroed`, into one
   of zeros, where a variant it skips may still come out right.
   */
  predicate Eligible(t: Ty, zeroed: bool) {
    match t
    case TInt(_, _) => true
    case TFloat(_) => true
    case TBool => true
    case TArray(e, n) => n == 0 || Eligible(e, zeroed)
    case TTuple(ts) => AllEligible(ts, zeroed)
    case TStruct(ts, _) => AllEligible(ts, zeroed)
    case TEnum(tag, variants) => forall i :: 0 <= i < |variants| ==> EligibleVariant(tag, i, variants[i], zeroed)
    case _ => false
  }

  predicate EligibleVariant(tag: nat, i: nat, x: Variant, zeroed: bool) {
    if x.unit then x.fields == [] else zeroed && AllEmpty(x.fields) && EncodeInt(tag, i) == Zeros(tag)
  }

  predicate AllEligible(ts: seq<Ty>, zeroed: bool) {
    ts == [] || (Eligible(ts[0], zeroed) && AllEligible(ts[1..], zeroed))
  }

  // ----- the constants -----

  /** `<T as Unwiring>::FIXED_SIZE` */
  function UnwireSize(t: Ty): nat {
    match t
    case TInt(w, _) => w
    case TUnitStruct => 1
    case TArray(e, n) => UnwireSize(e) * n
    case TTuple(ts) => UnwireSizes(ts)
    case TStruct(ts, _) => UnwireSizes(ts)
    case _ => 0
  }

  function UnwireSizes(ts: seq<Ty>): nat {
    if ts == [] then 0 else UnwireSize(ts[0]) + UnwireSizes(ts[1..])
  }

  /** `<T as Unwiring>::MIXED`: tuples ask whether all fields are mixed, structs whether any is. */
  predicate UnwireMixed(t: Ty) {
    match t
    case TInt(_, _) => false
    case TFloat(_) => false
    case TUnitStruct => false
    case TArray(e, _) => UnwireMixed(e)
    case TTuple(ts) => forall i :: 0 <= i < |ts| ==> UnwireMixed(ts[i])
    case TStruct(ts, _) => exists i :: 0 <= i < |ts| && UnwireMixed(ts[i])
    case _ => true
  }

  /** `<T as Wiring>::FIXED_SIZE` */
  function WireSize(t: Ty): nat {
    match t
    case TInt(w, _) => w
    case TFloat(w) => w
    case TBool => 1
    case TUnitStruct => 1
    case TArray(e, n) => WireSize(e) * n
    case TTuple(ts) => WireSizes(ts)
    case TStruct(ts, _) => WireSizes(ts)
    case TEnum(tag, _) => tag
    case _ => 0
  }

  function WireSizes(ts: seq<Ty>): nat {
    if ts == [] then 0 else WireSize(ts[0]) + WireSizes(ts[1..])
  }

  /** `<T as Wiring>::MIXED`: a pair only asks its first field, a triple and f64 keep the default. */
  predicate WireMixed(t: Ty) {
    match t
    case TInt(_, _) => false
    case TFloat(w) => w == 8
    case TBool => false
    case TUnitStruct => false
    case TArray(e, _) => WireMixed(e)
    case TTuple(ts) => |ts| != 2 || WireMixed(ts[0])
    case TStruct(ts, _) => exists i :: 0 <= i < |ts| && WireMixed(ts[i])
    case _ => true
  }

  /** The constants of a pair of a u16 and a bool, and of an f64, in both directions. */
  lemma ConstantsDiffer()
    ensures var t := TTuple([TInt(2, false), TBool]);
      && WireSize(t) == 3 && !WireMixed(t) && UnwireSize(t) == 2 && !UnwireMixed(t)
    ensures WireSize(TFloat(8)) == 8 && WireMixed(TFloat(8)) && UnwireSize(TFloat(8)) == 0 && !UnwireMixed(TFloat(8))
    ensures WireSize(TUnit) == 0 && WireMixed(TUnit) && UnwireSize(TUnit) == 0 && UnwireMixed(TUnit)
    ensures WireSize(TUnitStruct) == 1 && !WireMixed(TUnitStruct) && UnwireSize(TUnitStruct) == 1 && !UnwireMixed(TUnitStruct)
  {
    var ts, rest := [TInt(2, false), TBool], [TBool];
    assert ts[1..] == rest && rest[1..] == [] && ts[0] == TInt(2, false);
    assert WireSizes(rest) == 1 && UnwireSizes(rest) == 0;
  }
}
