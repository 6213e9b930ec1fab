/** The async forms of a derived struct, which put a length in front of each group. */
module DeriveAsync {
  import opened Wrappers
  import opened Bytes
  import opened ShiftedBytes
  import opened AsyncChunks
  import opened WireTypes
  import opened Codec
  import opened ZeroValues
  import opened Derive
  import opened DeriveRuns
  import opened DeriveMeaning

  function Groups(stmts: seq<Stmt>): nat {
    if stmts == [] then 0 else (if stmts[0].Group? then 1 else 0) + Groups(stmts[1..])
  }

  lemma {:induction false} AsyncAddsLengths(ts: seq<Ty>, vs: seq<Value>, stmts: seq<Stmt>)
    requires |ts| == |vs| && Run(ts, vs, stmts, false).Some?
    ensures Run(ts, vs, stmts, true).Some?
    ensures |Run(ts, vs, stmts, true).value| == |Run(ts, vs, stmts, false).value| + 8 * Groups(stmts)
    ensures Groups(stmts) == 0 ==> Run(ts, vs, stmts, true) == Run(ts, vs, stmts, false)
  {
    if stmts != [] { AsyncAddsLengths(ts, vs, stmts[1..]); }
  }

  /** Where groups are eligible the async forms, which put a length before each, agree with the plain encoding only without groups. */
  lemma AsyncExactlyWhenUngrouped(ts: seq<Ty>, vs: seq<Value>, marks: seq<seq<Attr>>, stmts: seq<Stmt>)
    requires FieldsHaveType(ts, vs) && |marks| == |ts| == |vs| && Plan(marks, 0) == Done(stmts)
    requires GroupsEligible(ts, stmts)
    ensures Run(ts, vs, stmts, true) == Some(EncodeFields(ts, vs)) <==> Groups(stmts) == 0
  {
    GroupingPreservesMeaning(ts, vs, marks, stmts);
    AsyncAddsLengths(ts, vs, stmts);
  }

  /** In general they agree only if the groups leave out just as many bytes as their lengths take. */
  lemma AsyncNeedsMissingBytes(ts: seq<Ty>, vs: seq<Value>, marks: seq<seq<Attr>>, stmts: seq<Stmt>)
    requires FieldsHaveType(ts, vs) && |marks| == |ts| == |vs| && Plan(marks, 0) == Done(stmts)
    requires Run(ts, vs, stmts, true) == Some(EncodeFields(ts, vs))
    ensures Run(ts, vs, stmts, false).Some?
    ensures |EncodeFields(ts, vs)| == |Run(ts, vs, stmts, false).value| + 8 * Groups(stmts)
  {
    TypedFields(ts, vs);
    RunFrom(ts, vs, marks, 0, stmts);
    AsyncAddsLengths(ts, vs, stmts);
  }

  /** Two bytes in a group, 1 and 2: the async form is not their encoding. */
  lemma TwoGroupedBytes()
    ensures Plan([[Fixed], []], 0) == Done([Block(0, 2)])
    ensures var ts, vs := [TInt(1, false), TInt(1, false)], [VInt(1), VInt(2)];
      Run(ts, vs, [Block(0, 2)], true) != Some(EncodeFields(ts, vs))
  {
    var t, marks: seq<seq<Attr>> := TInt(1, false), [[Fixed], []];
    var ts, vs, stmts := [t, t], [VInt(1), VInt(2)], [Block(0, 2)];
    BareMarkOnTwoFields();
    assert Typed(ts, vs);
    TypedFields(ts, vs);
    BlockEligible(ts, 0, 2);
    assert Eligible(t, true) && GroupEligible(ts, stmts[0]) && stmts[1..] == [];
    assert Groups(stmts) == 1 + Groups([]);
    AsyncExactlyWhenUngrouped(ts, vs, marks, stmts);
  }

  lemma {:induction false} UnmarkedGroup(marks: seq<seq<Attr>>, s: nat, t: nat, k: nat)
    requires s < k <= s + t <= |marks| && forall j :: k <= j < s + t ==> !AnyFixed(marks[j])
    ensures InGroup(marks, s, t, k) == Prefixed([Block(s, t)], Plan(marks, s + t))
    decreases s + t - k
  {
    if k < s + t { UnmarkedGroup(marks, s, t, k + 1); }
  }

  function Units(n: nat): seq<Ty> { seq(n, _ => TUnit) }

  function UnitValues(n: nat): seq<Value> { seq(n, _ => VUnit) }

  lemma {:induction false} UnitsLeaveNothing(n: nat, k: nat, m: nat)
    requires k + m <= n
    ensures Blanks(StructOf(Units(n), UnitValues(n)), k, m) == []
    ensures EncodeRange(Units(n), UnitValues(n), k, m) == Zeros(m)
    decreases m
  {
    if m > 0 {
      UnitsLeaveNothing(n, k + 1, m - 1);
      BlanksCons(Units(n), UnitValues(n), k, m);
      assert Piece(TUnit, VUnit) == [];
    }
  }

  /** Eight units in a group: the group is empty, and its length is eight zero bytes, just like their encodings. */
  lemma EightGroupedUnits()
    ensures var ts, vs := Units(8), UnitValues(8); var marks: seq<seq<Attr>> := [[Fixed], [], [], [], [], [], [], []];
      && Plan(marks, 0) == Done([Block(0, 8)]) && !GroupsEligible(ts, [Block(0, 8)])
      && RunOne(ts, vs, Block(0, 8), true) == Some(EncodeFields(ts, vs))
  {
    MarkedEight();
    UnitGroupRuns();
    UnitEncodings();
    BlockEligible(Units(8), 0, 8);
    assert !Eligible(Units(8)[0], true);
  }

  lemma UnitGroupRuns()
    ensures RunOne(Units(8), UnitValues(8), Block(0, 8), true) == Some(EncodeInt(8, 0))
  {
    BlockRuns(Units(8), UnitValues(8), 0, 8);
    UnitsLeaveNothing(8, 0, 8);
    assert EncodeInt(8, 0) + [] == EncodeInt(8, 0);
  }

  lemma UnitEncodings()
    ensures EncodeFields(Units(8), UnitValues(8)) == EncodeInt(8, 0)
  {
    var ts, vs := Units(8), UnitValues(8);
    UnitsLeaveNothing(8, 0, 8);
    EncodeFromJoin(ts, vs, 0, 8);
    EncodeFromIsFields(ts, vs, 0);
    assert ts[0..] == ts && vs[0..] == vs && EncodeFrom(ts, vs, 8) == [] && Zeros(8) + [] == Zeros(8);
    ZeroInt(8);
  }

  lemma MarkedEight()
    ensures Plan([[Fixed], [], [], [], [], [], [], []], 0) == Done([Block(0, 8)])
  {
    var marks: seq<seq<Attr>> := [[Fixed], [], [], [], [], [], [], []];
    var attrs: seq<Attr> := [Fixed];
    assert marks[0] == attrs && attrs[1..] == [];
    assert Opening(attrs, 8, 8, None) == Done(Some(8));
    assert forall j :: 1 <= j < 8 ==> marks[j] == [];
    assert Plan(marks, 8) == Done([]) && [Block(0, 8)] + [] == [Block(0, 8)];
    UnmarkedGroup(marks, 0, 8, 1);
    assert Plan(marks, 0) == InGroup(marks, 0, 8, 1);
  }

  // ----- exactly when -----

  /** Types of which the only encoding is one of zeros. */
  predicate ZeroOnly(t: Ty) {
    match t
    case TUnit => true
    case TUnitStruct => true
    case TArray(e, n) => n == 0 || ZeroOnly(e)
    case TTuple(ts) => AllZeroOnly(ts)
    case TStruct(ts, _) => AllZeroOnly(ts)
    case TEnum(_, variants) => |variants| == 1 && AllZeroOnly(variants[0].fields)
    case _ => false
  }

  predicate AllZeroOnly(ts: seq<Ty>) {
    ts == [] || (ZeroOnly(ts[0]) && AllZeroOnly(ts[1..]))
  }

  /** They have a single value. */
  lemma {:induction false} ZeroOnlyIsDefault(t: Ty, v: Value)
    requires Valid(t) && ZeroOnly(t) && HasType(t, v)
    ensures v == Default(t)
    decreases t, 1, 0
  {
    match t
    case TArray(e, n) => if n > 0 { ZeroOnlyAreDefaults(e, v.vs); }
    case TTuple(ts) => ZeroOnlyFieldsAreDefaults(ts, v.vs);
    case TStruct(ts, _) => ZeroOnlyFieldsAreDefaults(ts, v.vs);
    case TEnum(_, variants) => ZeroOnlyFieldsAreDefaults(variants[0].fields, v.vs);
    case _ =>
  }

  lemma {:induction false} ZeroOnlyAreDefaults(t: Ty, vs: seq<Value>)
    requires Valid(t) && ZeroOnly(t) && AllHaveType(t, vs)
    ensures vs == Repeat(t, Default(t), |vs|)
    decreases t, 1, |vs| + 1
  {
    if vs != [] {
      ZeroOnlyIsDefault(t, vs[0]);
      ZeroOnlyAreDefaults(t, vs[1..]);
      assert vs == [vs[0]] + vs[1..];
    }
  }

  lemma {:induction false} ZeroOnlyFieldsAreDefaults(ts: seq<Ty>, vs: seq<Value>)
    requires AllValid(ts) && AllZeroOnly(ts) && FieldsHaveType(ts, vs)
    ensures vs == Defaults(ts)
    decreases ts, 0, 0
  {
    if ts != [] {
      ZeroOnlyIsDefault(ts[0], vs[0]);
      ZeroOnlyFieldsAreDefaults(ts[1..], vs[1..]);
      assert vs == [vs[0]] + vs[1..];
    }
  }

  /** All others have an encoding that is not zero. */
  lemma {:induction false} NonZeroValue(t: Ty) returns (v: Value)
    requires Valid(t) && !ZeroOnly(t)
    ensures HasType(t, v) && !IsZeros(Encode(t, v))
    decreases t, 1
  {
    match t
    case TInt(w, _) =>
      v := VInt(1);
      NonZeroInt(w, 1);
    case TFloat(w) =>
      v := VInt(1);
      NonZeroInt(w, 1);
    case TBool =>
      v := VBool(true);
      assert Encode(t, v)[0] == 1;
    case TString =>
      v := VString([0x61]);
      assert [0x61][1..] == [] && Utf8Char([0x61]) == 1;
      assert [0x61][0] != 0;
      NonZeroJoin(EncodeInt(8, 1), [0x61]);
    case TOption(e) =>
      v := VSome(Default(e));
      assert [1][0] != 0;
      NonZeroJoin([1], Encode(e, Default(e)));
    case TVec(e) =>
      v := VList([Default(e)]);
      EncodeOne(e, Default(e));
      U64Limit();
      NonZeroInt(8, 1);
      NonZeroJoin(EncodeInt(8, 1), EncodeAll(e, [Default(e)]));
    case TArray(e, n) =>
      var x := NonZeroValue(e);
      v := NonZeroArray(e, n, x);
    case TTuple(ts) =>
      var vs := NonZeroFields(ts);
      v := VList(vs);
    case TStruct(ts, _) =>
      var vs := NonZeroFields(ts);
      v := VList(vs);
    case TEnum(_, _) => v := NonZeroVariant(t);
  }

  lemma NonZeroArray(e: Ty, n: nat, x: Value) returns (v: Value)
    requires Valid(e) && n > 0 && HasType(e, x) && !IsZeros(Encode(e, x))
    ensures HasType(TArray(e, n), v) && !IsZeros(Encode(TArray(e, n), v))
  {
    var rest := Repeat(e, Default(e), n - 1);
    v := VList([x] + rest);
    assert ([x] + rest)[1..] == rest;
    NonZeroJoin(Encode(e, x), EncodeAll(e, rest));
  }

  lemma {:induction false} NonZeroVariant(t: Ty) returns (v: Value)
    requires t.TEnum? && Valid(t) && !ZeroOnly(t)
    ensures HasType(t, v) && !IsZeros(Encode(t, v))
    decreases t, 0
  {
    var i := if |t.variants| > 1 then 1 else 0;
    var ts := t.variants[i].fields;
    var vs := Defaults(ts);
    if i == 1 {
      assert Pow256(t.tag) == 256 * Pow256(t.tag - 1);
      NonZeroInt(t.tag, 1);
    } else {
      vs := NonZeroFields(ts);
    }
    v := VVariant(i, vs);
    NonZeroJoin(EncodeInt(t.tag, i), EncodeFields(ts, vs));
  }

  lemma {:induction false} NonZeroFields(ts: seq<Ty>) returns (vs: seq<Value>)
    requires AllValid(ts) && !AllZeroOnly(ts)
    ensures FieldsHaveType(ts, vs) && !IsZeros(EncodeFields(ts, vs))
    decreases ts, 0
  {
    var v, rest := Default(ts[0]), Defaults(ts[1..]);
    if !ZeroOnly(ts[0]) {
      v := NonZeroValue(ts[0]);
    } else {
      rest := NonZeroFields(ts[1..]);
    }
    vs := [v] + rest;
    assert vs[1..] == rest;
    NonZeroJoin(Encode(ts[0], v), EncodeFields(ts[1..], rest));
  }

  // ----- the chunks of a struct -----

  function FieldOf(t: Ty): Field
    requires Valid(t)
  {
    Field(WireSize(t), ZeroOnly(t), DefaultSize(t))
  }

  function FieldShapes(ts: seq<Ty>): (xs: seq<Field>)
    requires AllValid(ts)
    ensures |xs| == |ts|
  {
    if ts == [] then [] else [FieldOf(ts[0])] + FieldShapes(ts[1..])
  }

  lemma {:induction false} FieldShapesAt(ts: seq<Ty>, i: nat)
    requires AllValid(ts) && i < |ts|
    ensures Valid(ts[i]) && FieldShapes(ts)[i] == FieldOf(ts[i])
  {
    if i > 0 { FieldShapesAt(ts[1..], i - 1); }
  }

  lemma {:induction false} SizesAgree(ts: seq<Ty>, k: nat)
    requires AllValid(ts) && k <= |ts|
    ensures SizeIn(FieldShapes(ts), k, |ts| - k) == WireSizes(ts[k..])
    decreases |ts| - k
  {
    if k < |ts| {
      SizesAgree(ts, k + 1);
      FieldShapesAt(ts, k);
      assert ts[k..][1..] == ts[k + 1..];
    }
  }

  lemma FieldHolds(t: Ty, v: Value)
    requires Valid(t) && HasType(t, v)
    ensures Holds(FieldOf(t), Piece(t, v), Encode(t, v))
  {
    PieceIsEncoding(t, v);
    if ZeroOnly(t) {
      ZeroOnlyIsDefault(t, v);
      DefaultIsZeros(t);
    }
  }

  lemma FieldsHold(ts: seq<Ty>, vs: seq<Value>)
    requires AllValid(ts) && Typed(ts, vs)
    ensures AllHold(FieldShapes(ts), Pieces(ts, vs), Encodings(ts, vs))
  {
    forall i | 0 <= i < |ts| ensures Holds(FieldShapes(ts)[i], Pieces(ts, vs)[i], Encodings(ts, vs)[i]) {
      FieldShapesAt(ts, i);
      FieldHolds(ts[i], vs[i]);
    }
  }

  /** How many fields each statement writes. */
  function Spans(stmts: seq<Stmt>): seq<nat> {
    if stmts == [] then []
    else [if stmts[0].Plain? then 1 else |stmts[0].sizes|] + Spans(stmts[1..])
  }

  lemma SpansFirst(k: nat, t: nat, rest: seq<Stmt>)
    requires t >= 1
    ensures Spans([StmtAt(k, t)] + rest) == [t] + Spans(rest)
  {
    var stmts := [StmtAt(k, t)] + rest;
    assert stmts[0] == StmtAt(k, t) && stmts[1..] == rest;
    RangeLength(k, t);
  }

  lemma InOrderCons(t: nat, spans: seq<nat>, k: nat, n: nat)
    requires t >= 1 && k + t <= n && InOrder(spans, k + t, n)
    ensures InOrder([t] + spans, k, n)
  {
    assert ([t] + spans)[1..] == spans;
  }

  lemma {:induction false} PlanIsInOrder(marks: seq<seq<Attr>>, k: nat, stmts: seq<Stmt>)
    requires k <= |marks| && Plan(marks, k) == Done(stmts)
    ensures InOrder(Spans(stmts), k, |marks|)
    decreases |marks| - k
  {
    if k < |marks| {
      var t, rest := Step(marks, k, stmts);
      PlanIsInOrder(marks, k + t, rest);
      SpansFirst(k, t, rest);
      InOrderCons(t, Spans(rest), k, |marks|);
    }
  }

  lemma FirstChunk(ts: seq<Ty>, vs: seq<Value>, k: nat, t: nat, rest: seq<Stmt>)
    requires Typed(ts, vs) && t >= 1 && k + t <= |ts| && Run(ts, vs, rest, true).Some?
    ensures var c := ChunkOf(Pieces(ts, vs), Encodings(ts, vs), k, t);
      && Run(ts, vs, [StmtAt(k, t)] + rest, true) == Some(c.written + Run(ts, vs, rest, true).value)
      && EncodeFrom(ts, vs, k) == c.expected + EncodeFrom(ts, vs, k + t)
  {
    assert ([StmtAt(k, t)] + rest)[1..] == rest;
    EncodeFromJoin(ts, vs, k, t);
    EncodeRangeIsJoined(ts, vs, k, t);
    if t > 1 {
      BlockRuns(ts, vs, k, t);
      BlanksAreJoined(ts, vs, k, t);
    } else {
      assert Joined(Encodings(ts, vs), k, 1) == Encode(ts[k], vs[k]) + Joined(Encodings(ts, vs), k + 1, 0);
    }
  }

  /** The chunks are what the statements write and what they should. */
  lemma {:induction false} RunIsChunks(ts: seq<Ty>, vs: seq<Value>, marks: seq<seq<Attr>>, k: nat, stmts: seq<Stmt>)
    requires Typed(ts, vs) && |marks| == |ts| && k <= |ts| && Plan(marks, k) == Done(stmts)
    ensures InOrder(Spans(stmts), k, |ts|)
    ensures Run(ts, vs, stmts, true) == Some(AllWritten(Chunks(Pieces(ts, vs), Encodings(ts, vs), Spans(stmts), k)))
    ensures EncodeFrom(ts, vs, k) == AllExpected(Chunks(Pieces(ts, vs), Encodings(ts, vs), Spans(stmts), k))
    decreases |ts| - k
  {
    PlanIsInOrder(marks, k, stmts);
    if k < |ts| {
      var t, rest := Step(marks, k, stmts);
      RunIsChunks(ts, vs, marks, k + t, rest);
      SpansFirst(k, t, rest);
      ChunksCons(Pieces(ts, vs), Encodings(ts, vs), t, Spans(rest), k);
      FirstChunk(ts, vs, k, t, rest);
    }
  }

  lemma SameIsEncoding(ts: seq<Ty>, vs: seq<Value>, marks: seq<seq<Attr>>, stmts: seq<Stmt>)
    requires Typed(ts, vs) && |marks| == |ts| && Plan(marks, 0) == Done(stmts)
    ensures InOrder(Spans(stmts), 0, |ts|)
    ensures SameBytes(Pieces(ts, vs), Encodings(ts, vs), Spans(stmts)) <==> Run(ts, vs, stmts, true) == Some(EncodeFields(ts, vs))
  {
    RunIsChunks(ts, vs, marks, 0, stmts);
    EncodeFromIsFields(ts, vs, 0);
    assert ts[0..] == ts && vs[0..] == vs;
  }

  /** Default values, but for one of field `f` that is not zero. */
  lemma {:induction false} ValuesBut(ts: seq<Ty>, f: nat) returns (vs: seq<Value>)
    requires AllValid(ts) && f <= |ts| && (f < |ts| ==> !FieldShapes(ts)[f].zero)
    ensures Typed(ts, vs) && ZeroBut(Encodings(ts, vs), f)
  {
    vs := Defaults(ts);
    TypedFields(ts, vs);
    forall i | 0 <= i < |ts| ensures Valid(ts[i]) && vs[i] == Default(ts[i]) && IsZeros(Encode(ts[i], vs[i])) {
      AllValidAt(ts, i);
      DefaultsAt(ts, i);
      DefaultIsZeros(ts[i]);
    }
    if f < |ts| {
      FieldShapesAt(ts, f);
      var v := NonZeroValue(ts[f]);
      vs := vs[f := v];
    }
  }

  lemma {:induction false} DefaultsAt(ts: seq<Ty>, i: nat)
    requires AllValid(ts) && i < |ts| == |Defaults(ts)| && Valid(ts[i])
    ensures Defaults(ts)[i] == Default(ts[i])
  {
    if i > 0 {
      assert Defaults(ts)[1..] == Defaults(ts[1..]);
      DefaultsAt(ts[1..], i - 1);
    }
  }

  // ----- exactly when -----

  ghost predicate WritesFieldsAsync(ts: seq<Ty>, vs: seq<Value>, stmts: seq<Stmt>) {
    FieldsHaveType(ts, vs) && |ts| == |vs| ==> Run(ts, vs, stmts, true) == Some(EncodeFields(ts, vs))
  }

  lemma TotalIsSize(ts: seq<Ty>)
    requires AllValid(ts)
    ensures Total(FieldShapes(ts)) == WireSizes(ts)
  {
    SizesAgree(ts, 0);
    assert ts[0..] == ts;
  }

  lemma AsyncAgrees(ts: seq<Ty>, vs: seq<Value>, marks: seq<seq<Attr>>, stmts: seq<Stmt>)
    requires AllValid(ts) && WireSizes(ts) < U64_LIMIT && |marks| == |ts| && Plan(marks, 0) == Done(stmts)
    requires Typed(ts, vs) && InOrder(Spans(stmts), 0, |ts|) && Lands(Shapes(FieldShapes(ts), Spans(stmts), 0), 0, 0)
    ensures Run(ts, vs, stmts, true) == Some(EncodeFields(ts, vs))
  {
    TotalIsSize(ts);
    FieldsHold(ts, vs);
    LandsIsSame(FieldShapes(ts), Pieces(ts, vs), Encodings(ts, vs), Spans(stmts));
    SameIsEncoding(ts, vs, marks, stmts);
  }

  lemma AsyncDiffers(ts: seq<Ty>, marks: seq<seq<Attr>>, stmts: seq<Stmt>) returns (vs: seq<Value>)
    requires AllValid(ts) && WireSizes(ts) < U64_LIMIT && |marks| == |ts| && Plan(marks, 0) == Done(stmts)
    requires InOrder(Spans(stmts), 0, |ts|) && !Lands(Shapes(FieldShapes(ts), Spans(stmts), 0), 0, 0)
    ensures Typed(ts, vs) && Run(ts, vs, stmts, true) != Some(EncodeFields(ts, vs))
  {
    var xs := FieldShapes(ts);
    var f := Witness(xs, Spans(stmts));
    vs := ValuesBut(ts, f);
    TotalIsSize(ts);
    FieldsHold(ts, vs);
    MissIsDifferent(xs, Pieces(ts, vs), Encodings(ts, vs), Spans(stmts), f);
    SameIsEncoding(ts, vs, marks, stmts);
  }

  /**
   For any accepted placement the async forms write the plain encoding, whatever the values, exactly
   if no group has a size and the zeros written for the lengths come out where those of the fields
   should.
   */
  lemma AsyncExactlyWhenLengthsLand(ts: seq<Ty>, marks: seq<seq<Attr>>, stmts: seq<Stmt>)
    requires AllValid(ts) && WireSizes(ts) < U64_LIMIT && |marks| == |ts| && Plan(marks, 0) == Done(stmts)
    ensures InOrder(Spans(stmts), 0, |ts|)
    ensures Lands(Shapes(FieldShapes(ts), Spans(stmts), 0), 0, 0) <==> forall vs :: WritesFieldsAsync(ts, vs, stmts)
  {
    PlanIsInOrder(marks, 0, stmts);
    var xs := FieldShapes(ts);
    if Lands(Shapes(xs, Spans(stmts), 0), 0, 0) {
      forall vs ensures WritesFieldsAsync(ts, vs, stmts) {
        TypedFields(ts, vs);
        if Typed(ts, vs) { AsyncAgrees(ts, vs, marks, stmts); }
      }
    } else {
      var vs := AsyncDiffers(ts, marks, stmts);
      TypedFields(ts, vs);
      assert !WritesFieldsAsync(ts, vs, stmts);
    }
  }
}
