/**
 How long vectors can get.  Room for all elements of a vector is reserved when its length has been
 read, which ends the run if there is not so much memory.
 */
module Capacity {
  import opened Bytes
  import opened Sums
  import opened WireTypes
  import opened Codec
  import opened Truncation

  /** For each element type the longest vector that can be allocated: a matter of compiler and machine. */
  type Machine = cap: Ty -> nat | forall e :: 1 <= cap(e) < U64_LIMIT witness (e: Ty) => 1

  /** The largest isize, which bounds the bytes of a slice and of an allocation. */
  const ISIZE_MAX: nat := 0x7FFF_FFFF_FFFF_FFFF

  /** All that Rust guarantees of `reserve_exact`, for a layout with `size_of`: elements without a size need no memory. */
  function AddressSpace(sizeOf: Ty -> nat): Machine {
    (e: Ty) => if sizeOf(e) == 0 then U64_LIMIT - 1 else if sizeOf(e) > ISIZE_MAX then 1 else ISIZE_MAX / sizeOf(e)
  }

  // ----- decoding -----

  /** No vector that decoding comes to is too long to be allocated. */
  predicate Affordable(cap: Machine, t: Ty, b: seq<byte>, pos: nat)
    requires pos <= |b|
    decreases t, 0, 0
  {
    match t
    case TOption(e) =>
      var r := ReadInt(b, pos, 1);
      r.Ok? && r.value == 1 ==> Affordable(cap, e, b, r.pos)
    case TVec(e) =>
      var r := ReadInt(b, pos, 8);
      r.Ok? ==> r.value <= cap(e) && AllAffordable(cap, e, r.value, b, r.pos)
    case TArray(e, n) => AllAffordable(cap, e, n, b, pos)
    case TTuple(ts) => FieldsAffordable(cap, ts, b, pos)
    case TStruct(ts, _) => FieldsAffordable(cap, ts, b, pos)
    case TEnum(tag, variants) =>
      var r := ReadInt(b, pos, tag);
      r.Ok? && r.value < |variants| ==> FieldsAffordable(cap, variants[r.value].fields, b, r.pos)
    case _ => true
  }

  predicate AllAffordable(cap: Machine, t: Ty, n: nat, b: seq<byte>, pos: nat)
    requires pos <= |b|
    decreases t, 1, n
  {
    n == 0 ||
      (&& Affordable(cap, t, b, pos)
       && (Decode(t, b, pos).Ok? ==> AllAffordable(cap, t, n - 1, b, Decode(t, b, pos).pos)))
  }

  predicate FieldsAffordable(cap: Machine, ts: seq<Ty>, b: seq<byte>, pos: nat)
    requires pos <= |b|
    decreases ts, 0, 0
  {
    ts == [] ||
      (&& Affordable(cap, ts[0], b, pos)
       && (Decode(ts[0], b, pos).Ok? ==> FieldsAffordable(cap, ts[1..], b, Decode(ts[0], b, pos).pos)))
  }

  // ----- arrays in a row -----

  /** The part of a result that the scan is compared with. */
  function Outcome<T>(r: Parsed<T>): Parsed<()> {
    if r.Ok? then Ok((), r.pos) else Err(r.error)
  }

  lemma FirstOutcome(t: Ty, n: nat, b: seq<byte>, pos: nat)
    requires n > 0 && pos <= |b|
    ensures var r := Decode(t, b, pos);
      Outcome(DecodeAll(t, n, b, pos)) == if r.Ok? then Outcome(DecodeAll(t, n - 1, b, r.pos)) else Outcome(r)
  {
  }

  /** Decoding goes on behind `o`, if that was a success. */
  function Onward(t: Ty, n: nat, b: seq<byte>, o: Parsed<()>): Parsed<()>
    requires o.Ok? ==> o.pos <= |b|
  {
    if o.Ok? then Outcome(DecodeAll(t, n, b, o.pos)) else o
  }

  lemma {:induction false} DecodeAllAdds(t: Ty, m: nat, n: nat, b: seq<byte>, pos: nat)
    requires pos <= |b|
    ensures Outcome(DecodeAll(t, m + n, b, pos)) == Onward(t, n, b, Outcome(DecodeAll(t, m, b, pos)))
    decreases m
  {
    if m > 0 {
      var r := Decode(t, b, pos);
      FirstOutcome(t, m + n, b, pos);
      FirstOutcome(t, m, b, pos);
      if r.Ok? {
        DecodeAllAdds(t, m - 1, n, b, r.pos);
        assert m - 1 + n == m + n - 1;
      }
    }
  }

  /** `count` arrays are decoded like all their elements in a row. */
  lemma {:induction false} DecodeArrays(e: Ty, n: nat, count: nat, b: seq<byte>, pos: nat)
    requires pos <= |b|
    ensures n * count >= 0
    ensures Outcome(DecodeAll(TArray(e, n), count, b, pos)) == Outcome(DecodeAll(e, n * count, b, pos))
  {
    if count > 0 {
      Times(n, count);
      var others := n * (count - 1);
      DecodeAllAdds(e, n, others, b, pos);
      FirstOutcome(TArray(e, n), count, b, pos);
      ArrayOutcome(e, n, b, pos);
      var r := DecodeAll(e, n, b, pos);
      if r.Ok? { DecodeArrays(e, n, count - 1, b, r.pos); }
    }
  }

  lemma ArrayOutcome(e: Ty, n: nat, b: seq<byte>, pos: nat)
    requires pos <= |b|
    ensures Outcome(Decode(TArray(e, n), b, pos)) == Outcome(DecodeAll(e, n, b, pos))
  {
  }

  predicate AffordableOnward(cap: Machine, t: Ty, n: nat, b: seq<byte>, o: Parsed<()>)
    requires o.Ok? ==> o.pos <= |b|
  {
    o.Ok? ==> AllAffordable(cap, t, n, b, o.pos)
  }

  lemma FirstAffordable(cap: Machine, t: Ty, n: nat, b: seq<byte>, pos: nat)
    requires n > 0 && pos <= |b|
    ensures var r := Decode(t, b, pos);
      AllAffordable(cap, t, n, b, pos) <==> Affordable(cap, t, b, pos) && (r.Ok? ==> AllAffordable(cap, t, n - 1, b, r.pos))
  {
  }

  lemma {:induction false} AffordableAdds(cap: Machine, t: Ty, m: nat, n: nat, b: seq<byte>, pos: nat)
    requires pos <= |b| && AllAffordable(cap, t, m, b, pos)
    requires AffordableOnward(cap, t, n, b, Outcome(DecodeAll(t, m, b, pos)))
    ensures AllAffordable(cap, t, m + n, b, pos)
  {
    if m > 0 {
      var r := Decode(t, b, pos);
      FirstAffordable(cap, t, m, b, pos);
      FirstAffordable(cap, t, m + n, b, pos);
      if r.Ok? {
        FirstOutcome(t, m, b, pos);
        AffordableAdds(cap, t, m - 1, n, b, r.pos);
      }
    }
  }

  lemma {:induction false} AffordableArrays(cap: Machine, e: Ty, n: nat, count: nat, b: seq<byte>, pos: nat)
    requires pos <= |b| && AllAffordable(cap, TArray(e, n), count, b, pos)
    ensures n * count >= 0 && AllAffordable(cap, e, n * count, b, pos)
  {
    if count > 0 {
      Times(n, count);
      var r := DecodeAll(e, n, b, pos);
      if r.Ok? { AffordableArrays(cap, e, n, count - 1, b, r.pos); }
      AffordableAdds(cap, e, n, n * (count - 1), b, pos);
    }
  }

  // ----- values that fit -----

  /** No vector in `v` is too long. */
  predicate Modest(cap: Machine, t: Ty, v: Value)
    decreases t, 0, 0
  {
    match (t, v)
    case (TOption(e), VSome(x)) => Modest(cap, e, x)
    case (TVec(e), VList(vs)) => |vs| <= cap(e) && AllModest(cap, e, vs)
    case (TArray(e, _), VList(vs)) => AllModest(cap, e, vs)
    case (TTuple(ts), VList(vs)) => FieldsModest(cap, ts, vs)
    case (TStruct(ts, _), VList(vs)) => FieldsModest(cap, ts, vs)
    case (TEnum(_, variants), VVariant(i, vs)) => i < |variants| ==> FieldsModest(cap, variants[i].fields, vs)
    case _ => true
  }

  predicate AllModest(cap: Machine, t: Ty, vs: seq<Value>)
    decreases t, 1, |vs|
  {
    vs == [] || (Modest(cap, t, vs[0]) && AllModest(cap, t, vs[1..]))
  }

  predicate FieldsModest(cap: Machine, ts: seq<Ty>, vs: seq<Value>)
    decreases ts, 0, 0
  {
    ts == [] || vs == [] || (Modest(cap, ts[0], vs[0]) && FieldsModest(cap, ts[1..], vs[1..]))
  }

  lemma {:induction false} DefaultIsModest(cap: Machine, t: Ty)
    requires Valid(t)
    ensures Modest(cap, t, Default(t))
    decreases t, 0, 0
  {
    match t
    case TArray(e, n) => RepeatIsModest(cap, e, n);
    case TTuple(ts) => DefaultsAreModest(cap, ts);
    case TStruct(ts, _) => DefaultsAreModest(cap, ts);
    case TEnum(_, variants) => DefaultsAreModest(cap, variants[0].fields);
    case _ =>
  }

  lemma {:induction false} RepeatIsModest(cap: Machine, t: Ty, n: nat)
    requires Valid(t)
    ensures AllModest(cap, t, Repeat(t, Default(t), n))
    decreases t, 1, n
  {
    if n > 0 {
      var rest := Repeat(t, Default(t), n - 1);
      DefaultIsModest(cap, t);
      RepeatIsModest(cap, t, n - 1);
      assert ([Default(t)] + rest)[1..] == rest;
    }
  }

  lemma {:induction false} DefaultsAreModest(cap: Machine, ts: seq<Ty>)
    requires AllValid(ts)
    ensures FieldsModest(cap, ts, Defaults(ts))
    decreases ts, 0, 0
  {
    if ts != [] {
      DefaultIsModest(cap, ts[0]);
      DefaultsAreModest(cap, ts[1..]);
      assert Defaults(ts)[1..] == Defaults(ts[1..]);
    }
  }

  // ----- their encodings can be decoded -----

  /** `s` stands in `b` at `pos`, or as much of it as there is. */
  predicate Begins(b: seq<byte>, pos: nat, s: seq<byte>) {
    Stands(b, pos, s) || Cut(b, pos, s)
  }

  lemma BeginsSplit(b: seq<byte>, pos: nat, s: seq<byte>, t: seq<byte>)
    requires Begins(b, pos, s + t)
    ensures Cut(b, pos, s) || (Stands(b, pos, s) && Begins(b, pos + |s|, t))
  {
    if Cut(b, pos, s + t) { CutSplit(b, pos, s, t); } else { StandsSplit(b, pos, s, t); }
  }

  lemma {:induction false} ModestIsAffordable(cap: Machine, t: Ty, v: Value, b: seq<byte>, pos: nat)
    requires TagsFit(t) && HasType(t, v) && Modest(cap, t, v) && Begins(b, pos, Encode(t, v))
    ensures Affordable(cap, t, b, pos)
    decreases t, 1, 0
  {
    match t
    case TOption(e) =>
      if v.VSome? {
        BeginsSplit(b, pos, [1], Encode(e, v.v));
        if Stands(b, pos, [1]) { ModestIsAffordable(cap, e, v.v, b, pos + 1); }
      } else if Stands(b, pos, [0]) {
        ReadByteBack(b, pos, 0);
      }
    case TVec(e) => ModestVec(cap, e, v.vs, b, pos);
    case TArray(e, n) => ModestAll(cap, e, v.vs, b, pos);
    case TTuple(ts) => ModestFields(cap, ts, v.vs, b, pos);
    case TStruct(ts, _) => ModestFields(cap, ts, v.vs, b, pos);
    case TEnum(_, _) => ModestEnum(cap, t, v, b, pos);
    case _ =>
  }

  lemma {:induction false} ModestVec(cap: Machine, e: Ty, vs: seq<Value>, b: seq<byte>, pos: nat)
    requires TagsFit(e) && AllHaveType(e, vs) && AllModest(cap, e, vs) && |vs| <= cap(e)
    requires Begins(b, pos, EncodeInt(8, |vs|) + EncodeAll(e, vs))
    ensures Affordable(cap, TVec(e), b, pos)
    decreases e, 2, 0
  {
    BeginsSplit(b, pos, EncodeInt(8, |vs|), EncodeAll(e, vs));
    LengthOrEof(b, pos, |vs|);
    if Stands(b, pos, EncodeInt(8, |vs|)) { ModestAll(cap, e, vs, b, pos + 8); }
  }

  lemma {:induction false} ModestEnum(cap: Machine, t: Ty, v: Value, b: seq<byte>, pos: nat)
    requires t.TEnum? && TagsFit(t) && HasType(t, v) && Modest(cap, t, v) && Begins(b, pos, Encode(t, v))
    ensures Affordable(cap, t, b, pos)
    decreases t, 0, 0
  {
    var ts, i := t.variants[v.index].fields, EncodeInt(t.tag, v.index);
    assert FieldsHaveType(ts, v.vs) && FieldsModest(cap, ts, v.vs) && AllTagsFit(ts);
    assert Encode(t, v) == i + EncodeFields(ts, v.vs);
    BeginsSplit(b, pos, i, EncodeFields(ts, v.vs));
    if Stands(b, pos, i) {
      ReadIntBack(b, pos, t.tag, v.index);
      ModestFields(cap, ts, v.vs, b, pos + t.tag);
    }
  }

  /** A value in front of others is either cut off or decoded. */
  lemma CutOrDecoded(t: Ty, v: Value, rest: seq<byte>, b: seq<byte>, pos: nat)
    requires TagsFit(t) && HasType(t, v) && Begins(b, pos, Encode(t, v) + rest)
    ensures Begins(b, pos, Encode(t, v))
    ensures var r := Decode(t, b, pos); r.Ok? ==> Begins(b, r.pos, rest)
  {
    var s := Encode(t, v);
    BeginsSplit(b, pos, s, rest);
    if Cut(b, pos, s) { TruncationIsEof(t, v, b, pos); } else { RoundTrip(t, v, b, pos); }
  }

  lemma {:induction false} ModestAll(cap: Machine, t: Ty, vs: seq<Value>, b: seq<byte>, pos: nat)
    requires vs == [] || TagsFit(t)
    requires AllHaveType(t, vs) && AllModest(cap, t, vs) && Begins(b, pos, EncodeAll(t, vs))
    ensures AllAffordable(cap, t, |vs|, b, pos)
    decreases t, 1, |vs| + 1
  {
    if vs != [] {
      CutOrDecoded(t, vs[0], EncodeAll(t, vs[1..]), b, pos);
      ModestIsAffordable(cap, t, vs[0], b, pos);
      var r := Decode(t, b, pos);
      if r.Ok? { ModestAll(cap, t, vs[1..], b, r.pos); }
    }
  }

  lemma {:induction false} ModestFields(cap: Machine, ts: seq<Ty>, vs: seq<Value>, b: seq<byte>, pos: nat)
    requires AllTagsFit(ts) && FieldsHaveType(ts, vs) && FieldsModest(cap, ts, vs) && Begins(b, pos, EncodeFields(ts, vs))
    ensures FieldsAffordable(cap, ts, b, pos)
    decreases ts, 0, 0
  {
    if ts != [] {
      CutOrDecoded(ts[0], vs[0], EncodeFields(ts[1..], vs[1..]), b, pos);
      ModestIsAffordable(cap, ts[0], vs[0], b, pos);
      var r := Decode(ts[0], b, pos);
      if r.Ok? { ModestFields(cap, ts[1..], vs[1..], b, r.pos); }
    }
  }
}
