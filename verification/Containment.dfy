/** Which values are written without a raw copy leaving the allocation. */
module Containment {
  import opened Bytes
  import opened WireTypes
  import opened Codec
  import opened Reserve
  import opened RawCopies

  /** Every slice of `v` that makes a reservation stays within it; slices inside one make none. */
  predicate Contained(t: Ty, v: Value)
    decreases t, 0, 0
  {
    match (t, v)
    case (TOption(e), VSome(x)) => Contained(e, x)
    case (TVec(e), VList(vs)) => if WireMixed(e) then AllContained(e, vs) else SliceFits(e, vs)
    case (TArray(e, _), VList(vs)) => AllContained(e, vs)
    case (TTuple(ts), VList(vs)) => FieldsContained(ts, vs)
    case (TStruct(ts, _), VList(vs)) => FieldsContained(ts, vs)
    case (TEnum(_, variants), VVariant(i, vs)) => i < |variants| ==> FieldsContained(variants[i].fields, vs)
    case _ => true
  }

  predicate AllContained(t: Ty, vs: seq<Value>)
    decreases t, 1, |vs|
  {
    vs == [] || (Contained(t, vs[0]) && AllContained(t, vs[1..]))
  }

  predicate FieldsContained(ts: seq<Ty>, vs: seq<Value>)
    decreases ts, 0, 0
  {
    ts == [] || vs == [] || (Contained(ts[0], vs[0]) && FieldsContained(ts[1..], vs[1..]))
  }

  /** Every vector that can be reached and reserves for its elements reserves enough. */
  predicate Reservable(t: Ty) {
    match t
    case TOption(e) => Reservable(e)
    case TVec(e) => if WireMixed(e) then Reservable(e) else SizeHolds(e) || AllChecked(e)
    case TArray(e, n) => n == 0 || Reservable(e)
    case TTuple(ts) => AllReservable(ts)
    case TStruct(ts, _) => AllReservable(ts)
    case TEnum(_, variants) => forall i :: 0 <= i < |variants| ==> AllReservable(variants[i].fields)
    case _ => true
  }

  predicate AllReservable(ts: seq<Ty>) {
    ts == [] || (Reservable(ts[0]) && AllReservable(ts[1..]))
  }

  lemma {:induction false} ReservableIsContained(t: Ty, v: Value)
    requires Reservable(t) && HasType(t, v)
    ensures Contained(t, v)
    decreases t, 1, 0
  {
    match t
    case TOption(e) => if v.VSome? { ReservableIsContained(e, v.v); }
    case TVec(e) => if WireMixed(e) { ReservableAreContained(e, v.vs); } else { SliceFitsIf(e, v.vs); }
    case TArray(e, n) => if n > 0 { ReservableAreContained(e, v.vs); }
    case TTuple(ts) => ReservableFieldsAreContained(ts, v.vs);
    case TStruct(ts, _) => ReservableFieldsAreContained(ts, v.vs);
    case TEnum(_, variants) => ReservableFieldsAreContained(variants[v.index].fields, v.vs);
    case _ =>
  }

  lemma {:induction false} ReservableAreContained(t: Ty, vs: seq<Value>)
    requires Reservable(t) && AllHaveType(t, vs)
    ensures AllContained(t, vs)
    decreases t, 1, |vs| + 1
  {
    if vs != [] {
      ReservableIsContained(t, vs[0]);
      ReservableAreContained(t, vs[1..]);
    }
  }

  lemma {:induction false} ReservableFieldsAreContained(ts: seq<Ty>, vs: seq<Value>)
    requires AllReservable(ts) && FieldsHaveType(ts, vs)
    ensures FieldsContained(ts, vs)
    decreases ts, 0, 0
  {
    if ts != [] {
      ReservableIsContained(ts[0], vs[0]);
      ReservableFieldsAreContained(ts[1..], vs[1..]);
    }
  }

  // ----- exactly when -----

  /** `FIXED_SIZE` of what vectors hold is a usize, short of the largest one. */
  predicate Countable(t: Ty) {
    match t
    case TOption(e) => Countable(e)
    case TVec(e) => WireSize(e) + 1 < U64_LIMIT && Countable(e)
    case TArray(e, n) => Countable(e)
    case TTuple(ts) => AllCountable(ts)
    case TStruct(ts, _) => AllCountable(ts)
    case TEnum(_, variants) => forall i :: 0 <= i < |variants| ==> AllCountable(variants[i].fields)
    case _ => true
  }

  predicate AllCountable(ts: seq<Ty>) {
    ts == [] || (Countable(ts[0]) && AllCountable(ts[1..]))
  }

  ghost predicate Overruns(t: Ty, v: Value) {
    HasType(t, v) && !Contained(t, v)
  }

  ghost predicate FieldsOverrun(ts: seq<Ty>, vs: seq<Value>) {
    FieldsHaveType(ts, vs) && !FieldsContained(ts, vs)
  }

  lemma {:induction false} UnreservableOverruns(t: Ty) returns (v: Value)
    requires Valid(t) && Countable(t) && !Reservable(t)
    ensures Overruns(t, v)
    decreases t, 0, 0
  {
    match t
    case TOption(e) =>
      var x := UnreservableOverruns(e);
      v := VSome(x);
    case TVec(e) =>
      if WireMixed(e) {
        var x := UnreservableOverruns(e);
        v := VList([x]);
        EncodeOne(e, x);
      } else {
        var vs := Overrun(e);
        v := VList(vs);
      }
    case TArray(e, n) =>
      var x := UnreservableOverruns(e);
      v := ArrayOverruns(e, n, x);
    case TTuple(ts) =>
      var vs := UnreservableFieldsOverrun(ts);
      v := VList(vs);
    case TStruct(ts, _) =>
      var vs := UnreservableFieldsOverrun(ts);
      v := VList(vs);
    case TEnum(_, variants) =>
      var i: nat :| i < |variants| && !AllReservable(variants[i].fields);
      var vs := UnreservableFieldsOverrun(variants[i].fields);
      v := VVariant(i, vs);
  }

  lemma ArrayOverruns(e: Ty, n: nat, x: Value) returns (v: Value)
    requires Valid(e) && n > 0 && Overruns(e, x)
    ensures Overruns(TArray(e, n), v)
  {
    var rest := Repeat(e, Default(e), n - 1);
    v := VList([x] + rest);
    assert ([x] + rest)[1..] == rest;
  }

  lemma {:induction false} UnreservableFieldsOverrun(ts: seq<Ty>) returns (vs: seq<Value>)
    requires AllValid(ts) && AllCountable(ts) && !AllReservable(ts)
    ensures FieldsOverrun(ts, vs)
    decreases ts, 0, 0
  {
    var v, rest := Default(ts[0]), Defaults(ts[1..]);
    if !Reservable(ts[0]) {
      v := UnreservableOverruns(ts[0]);
    } else {
      rest := UnreservableFieldsOverrun(ts[1..]);
    }
    vs := [v] + rest;
    assert vs[1..] == rest;
  }

  ghost predicate ContainedIfTyped(t: Ty, v: Value) {
    HasType(t, v) ==> Contained(t, v)
  }

  /** Every value is written with all raw copies inside the allocation exactly for the reservable types. */
  lemma ContainedExactlyWhenReservable(t: Ty)
    requires Valid(t) && Countable(t)
    ensures Reservable(t) <==> forall v :: ContainedIfTyped(t, v)
  {
    if Reservable(t) {
      forall v ensures ContainedIfTyped(t, v) {
        if HasType(t, v) { ReservableIsContained(t, v); }
      }
    } else {
      var v := UnreservableOverruns(t);
      assert !ContainedIfTyped(t, v);
    }
  }

  // ----- examples -----

  lemma PairWrites()
    ensures var t, v := TTuple([TInt(1, false), TUnit]), VList([VInt(0), VUnit]);
      HasType(t, v) && WireSize(t) == 1 && WritesOf(t, v) == [Write(true, 1)] + [Write(true, 1)]
  {
    var ts, vs := [TInt(1, false), TUnit], [VInt(0), VUnit];
    assert ts[1..] == [TUnit] && [TUnit][1..] == [] && vs[1..] == [VUnit] && [VUnit][1..] == [];
    assert WireSizes([TUnit]) == 0 && FieldsHaveType([TUnit], [VUnit]);
    assert WritesOfFields([TUnit], [VUnit]) == [Write(true, 1)] + WritesOfFields([], []) == [Write(true, 1)];
  }

  /**
   A pair of a byte and a unit is not MIXED.  One pair reserves one byte, and the raw copy of the
   unit ends at the second.
   */
  lemma PairOverrun()
    ensures var t, v := TTuple([TInt(1, false), TUnit]), VList([VInt(0), VUnit]);
      && !WireMixed(t) && WireSize(t) == 1 && WritesOfAll(t, [v]) == [Write(true, 1), Write(true, 1)]
      && !Fit(WritesOfAll(t, [v]), 8, 8 + WireSize(t) * 1) && Overruns(TVec(t), VList([v]))
  {
    var t, v := TTuple([TInt(1, false), TUnit]), VList([VInt(0), VUnit]);
    PairWrites();
    TwoRawBytes();
    assert [v][1..] == [] && WritesOfAll(t, [v]) == WritesOf(t, v) + [];
    EncodeOne(t, v);
  }

  lemma TwoRawBytes()
    ensures var ws := [Write(true, 1)] + [Write(true, 1)];
      ws == [Write(true, 1), Write(true, 1)] == ws + [] && LastRaw(ws) == 2 && !Fit(ws, 8, 9)
  {
    var ws := [Write(true, 1)] + [Write(true, 1)];
    One(Write(true, 1));
    Join([Write(true, 1)], [Write(true, 1)]);
    FitExactlyWhenLastRawDoes(ws, 8, 9);
  }

  /** A pair of a u64 and a vector of u64 outgrows its size too, but makes no raw copy. */
  lemma CheckedPairIsReservable()
    ensures var t := TTuple([TInt(8, false), TVec(TInt(8, false))]);
      !WireMixed(t) && !SizeHolds(t) && AllChecked(t) && Reservable(TVec(t))
  {
    var u, ts := [TVec(TInt(8, false))], [TInt(8, false), TVec(TInt(8, false))];
    assert u[1..] == [] && ts[1..] == u;
    assert AreAllChecked(u) && !AllSizesHold(u);
    assert AreAllChecked(ts) && !AllSizesHold(ts);
  }

  lemma TwoGrouped()
    ensures var u := TInt(8, false); var g := TStruct([u, u], true);
      Valid(g) && !AllChecked(g)
  {
    var u := TInt(8, false);
    var one, two := [u], [u, u];
    assert one[1..] == [] && two[1..] == one && two[0] == u;
    assert Valid(u) && Eligible(u, true) && !Empty(u);
    assert AllEligible([], true) && AllValid([]);
    assert AllEligible(one, true) && AllValid(one);
    assert AllEligible(two, true) && AllValid(two);
    assert !AllEmpty(two);
  }

  lemma FirstDecides(t: Ty, ts: seq<Ty>)
    ensures AllValid([t] + ts) <==> Valid(t) && AllValid(ts)
    ensures AreAllChecked([t] + ts) <==> AllChecked(t) && AreAllChecked(ts)
    ensures AllSizesHold([t] + ts) <==> SizeHolds(t) && AllSizesHold(ts)
  {
    assert ([t] + ts)[1..] == ts;
  }

  /** If the structure behind the u64 groups two of its fields, those are one raw copy. */
  lemma GroupedPairIsNotReservable()
    ensures var u := TInt(8, false); var t := TTuple([u, TStruct([TStruct([u, u], true), TVec(u)], false)]);
      Valid(t) && !WireMixed(t) && !SizeHolds(t) && !AllChecked(t) && !Reservable(TVec(t))
  {
    var u := TInt(8, false);
    var g, v := TStruct([u, u], true), TVec(u);
    var s := TStruct([g, v], false);
    TwoGrouped();
    FirstDecides(v, []);
    FirstDecides(g, [v]);
    assert [v] + [] == [v] && [g] + [v] == [g, v];
    assert Valid(s) && !SizeHolds(s) && !AllChecked(s);
    FirstDecides(s, []);
    FirstDecides(u, [s]);
    assert [s] + [] == [s] && [u] + [s] == [u, s];
  }
}
