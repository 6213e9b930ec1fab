/** What a derived struct writes, compared with the plain field-by-field encoding. */
module DeriveMeaning {
  import opened Wrappers
  import opened Bytes
  import opened WireTypes
  import opened Codec
  import opened Reserve
  import opened ConcatArray
  import opened Derive
  import opened DeriveRuns

  function StructOf(ts: seq<Ty>, vs: seq<Value>): (x: Struct)
    requires |ts| == |vs|
    ensures x.KeepsLength() && |x.sizes| == |ts|
  {
    Struct(seq(|ts|, i requires 0 <= i < |ts| => WireSize(ts[i])),
           (f: nat, s: seq<byte>) => if f < |ts| then Concat(ts[f], vs[f], s) else s)
  }

  /** In the async forms a group is written as a slice of bytes, behind its length. */
  function RunOne(ts: seq<Ty>, vs: seq<Value>, stmt: Stmt, isAsync: bool): Option<seq<byte>>
    requires |ts| == |vs|
  {
    match stmt
    case Plain(f) => if f < |ts| then Some(Encode(ts[f], vs[f])) else None
    case Group(sizes, calls) =>
      match RunGroup(StructOf(ts, vs), sizes, calls)
      case Some(s) => Some(if isAsync then EncodeInt(8, |s|) + s else s)
      case None => None
  }

  /** The bytes the statements write, or `None` where a slice is out of range. */
  function Run(ts: seq<Ty>, vs: seq<Value>, stmts: seq<Stmt>, isAsync: bool): Option<seq<byte>>
    requires |ts| == |vs|
  {
    if stmts == [] then Some([])
    else
      match (RunOne(ts, vs, stmts[0], isAsync), Run(ts, vs, stmts[1..], isAsync))
      case (Some(s), Some(rest)) => Some(s + rest)
      case _ => None
  }

  // ----- fields by their index -----

  ghost predicate Typed(ts: seq<Ty>, vs: seq<Value>) {
    |ts| == |vs| && forall i :: 0 <= i < |ts| ==> HasType(ts[i], vs[i])
  }

  lemma {:induction false} TypedFields(ts: seq<Ty>, vs: seq<Value>)
    ensures Typed(ts, vs) <==> FieldsHaveType(ts, vs)
  {
    if ts != [] && vs != [] {
      TypedFields(ts[1..], vs[1..]);
      if Typed(ts[1..], vs[1..]) && HasType(ts[0], vs[0]) {
        forall i | 0 <= i < |ts| ensures HasType(ts[i], vs[i]) {
          if i > 0 { assert ts[i] == ts[1..][i - 1] && vs[i] == vs[1..][i - 1]; }
        }
      }
    }
  }

  /** The encodings of the fields `k..k + m`. */
  function EncodeRange(ts: seq<Ty>, vs: seq<Value>, k: nat, m: nat): seq<byte>
    requires k + m <= |ts| == |vs|
    decreases m
  {
    if m == 0 then [] else Encode(ts[k], vs[k]) + EncodeRange(ts, vs, k + 1, m - 1)
  }

  /** The encodings of the fields from `k` on. */
  function EncodeFrom(ts: seq<Ty>, vs: seq<Value>, k: nat): seq<byte>
    requires k <= |ts| == |vs|
    decreases |ts| - k
  {
    if k == |ts| then [] else Encode(ts[k], vs[k]) + EncodeFrom(ts, vs, k + 1)
  }

  lemma {:induction false} EncodeFromJoin(ts: seq<Ty>, vs: seq<Value>, k: nat, m: nat)
    requires k + m <= |ts| == |vs|
    ensures EncodeFrom(ts, vs, k) == EncodeRange(ts, vs, k, m) + EncodeFrom(ts, vs, k + m)
    decreases m
  {
    if m > 0 {
      EncodeFromJoin(ts, vs, k + 1, m - 1);
      Assoc(Encode(ts[k], vs[k]), EncodeRange(ts, vs, k + 1, m - 1), EncodeFrom(ts, vs, k + m));
    }
  }

  lemma {:induction false} EncodeFromIsFields(ts: seq<Ty>, vs: seq<Value>, k: nat)
    requires k <= |ts| == |vs|
    ensures EncodeFrom(ts, vs, k) == EncodeFields(ts[k..], vs[k..])
    decreases |ts| - k
  {
    if k < |ts| {
      EncodeFromIsFields(ts, vs, k + 1);
      assert ts[k..][1..] == ts[k + 1..] && vs[k..][1..] == vs[k + 1..];
    }
  }

  // ----- one group -----

  /** The group `k..k + m` holds only types that `concat_array` writes correctly into zeros. */
  ghost predicate AllGroupable(ts: seq<Ty>, k: nat, m: nat) {
    k + m <= |ts| && forall f :: k <= f < k + m ==> Eligible(ts[f], true)
  }

  function Piece(t: Ty, v: Value): seq<byte> {
    Concat(t, v, Zeros(WireSize(t)))
  }

  lemma PieceIsEncoding(t: Ty, v: Value)
    requires HasType(t, v)
    ensures |Piece(t, v)| == WireSize(t) <= |Encode(t, v)|
    ensures Eligible(t, true) ==> Piece(t, v) == Encode(t, v)
  {
    SizeOfValue(t, v);
    if Eligible(t, true) { EligibleIsExact(t, v, Zeros(WireSize(t)), true); }
  }

  /** The entries `k..k + m` of a list of byte strings, in a row. */
  function Joined(p: seq<seq<byte>>, k: nat, m: nat): seq<byte>
    requires k + m <= |p|
    decreases m
  {
    if m == 0 then [] else p[k] + Joined(p, k + 1, m - 1)
  }

  ghost predicate NoLonger(p: seq<seq<byte>>, q: seq<seq<byte>>) {
    |p| == |q| && forall i :: 0 <= i < |p| ==> |p[i]| <= |q[i]|
  }

  lemma {:induction false} JoinedNoLonger(p: seq<seq<byte>>, q: seq<seq<byte>>, k: nat, m: nat)
    requires NoLonger(p, q) && k + m <= |p|
    ensures |Joined(p, k, m)| <= |Joined(q, k, m)|
    ensures (forall f :: k <= f < k + m ==> p[f] == q[f]) ==> Joined(p, k, m) == Joined(q, k, m)
    decreases m
  {
    if m > 0 { JoinedNoLonger(p, q, k + 1, m - 1); }
  }

  lemma {:induction false} JoinedEqual(p: seq<seq<byte>>, q: seq<seq<byte>>, k: nat, m: nat, f: nat)
    requires NoLonger(p, q) && k <= f < k + m <= |p| && Joined(p, k, m) == Joined(q, k, m)
    ensures p[f] == q[f]
    decreases m
  {
    JoinedNoLonger(p, q, k + 1, m - 1);
    JoinInjective(p[k], Joined(p, k + 1, m - 1), q[k], Joined(q, k + 1, m - 1));
    if k < f { JoinedEqual(p, q, k + 1, m - 1, f); }
  }

  function Pieces(ts: seq<Ty>, vs: seq<Value>): seq<seq<byte>>
    requires |ts| == |vs|
  {
    seq(|ts|, i requires 0 <= i < |ts| => Piece(ts[i], vs[i]))
  }

  function Encodings(ts: seq<Ty>, vs: seq<Value>): seq<seq<byte>>
    requires |ts| == |vs|
  {
    seq(|ts|, i requires 0 <= i < |ts| => Encode(ts[i], vs[i]))
  }

  lemma BlanksCons(ts: seq<Ty>, vs: seq<Value>, k: nat, m: nat)
    requires m > 0 && k + m <= |ts| == |vs|
    ensures Blanks(StructOf(ts, vs), k, m) == Piece(ts[k], vs[k]) + Blanks(StructOf(ts, vs), k + 1, m - 1)
  {
  }

  lemma {:induction false} BlanksAreJoined(ts: seq<Ty>, vs: seq<Value>, k: nat, m: nat)
    requires k + m <= |ts| == |vs|
    ensures Blanks(StructOf(ts, vs), k, m) == Joined(Pieces(ts, vs), k, m)
    decreases m
  {
    if m > 0 {
      BlanksAreJoined(ts, vs, k + 1, m - 1);
      BlanksCons(ts, vs, k, m);
    }
  }

  lemma {:induction false} EncodeRangeIsJoined(ts: seq<Ty>, vs: seq<Value>, k: nat, m: nat)
    requires k + m <= |ts| == |vs|
    ensures EncodeRange(ts, vs, k, m) == Joined(Encodings(ts, vs), k, m)
    decreases m
  {
    if m > 0 { EncodeRangeIsJoined(ts, vs, k + 1, m - 1); }
  }

  lemma PiecesNoLonger(ts: seq<Ty>, vs: seq<Value>)
    requires Typed(ts, vs)
    ensures NoLonger(Pieces(ts, vs), Encodings(ts, vs))
    ensures forall f :: 0 <= f < |ts| && Eligible(ts[f], true) ==> Piece(ts[f], vs[f]) == Encode(ts[f], vs[f])
  {
    forall f | 0 <= f < |ts|
      ensures |Piece(ts[f], vs[f])| <= |Encode(ts[f], vs[f])|
      ensures Eligible(ts[f], true) ==> Piece(ts[f], vs[f]) == Encode(ts[f], vs[f])
    {
      PieceIsEncoding(ts[f], vs[f]);
    }
  }

  lemma BlanksAreEncodings(ts: seq<Ty>, vs: seq<Value>, k: nat, m: nat)
    requires Typed(ts, vs) && k + m <= |ts|
    ensures |Blanks(StructOf(ts, vs), k, m)| <= |EncodeRange(ts, vs, k, m)|
    ensures AllGroupable(ts, k, m) ==> Blanks(StructOf(ts, vs), k, m) == EncodeRange(ts, vs, k, m)
  {
    PiecesNoLonger(ts, vs);
    BlanksAreJoined(ts, vs, k, m);
    EncodeRangeIsJoined(ts, vs, k, m);
    JoinedNoLonger(Pieces(ts, vs), Encodings(ts, vs), k, m);
  }

  lemma EqualBlanks(ts: seq<Ty>, vs: seq<Value>, k: nat, m: nat, f: nat)
    requires Typed(ts, vs) && k <= f < k + m <= |ts|
    requires Blanks(StructOf(ts, vs), k, m) == EncodeRange(ts, vs, k, m)
    ensures Piece(ts[f], vs[f]) == Encode(ts[f], vs[f])
  {
    PiecesNoLonger(ts, vs);
    BlanksAreJoined(ts, vs, k, m);
    EncodeRangeIsJoined(ts, vs, k, m);
    JoinedEqual(Pieces(ts, vs), Encodings(ts, vs), k, m, f);
  }

  lemma BlockRuns(ts: seq<Ty>, vs: seq<Value>, k: nat, t: nat)
    requires Typed(ts, vs) && t >= 2 && k + t <= |ts|
    ensures RunGroup(StructOf(ts, vs), Range(k, t), Calls(k, t)) == Some(Blanks(StructOf(ts, vs), k, t))
  {
    var x := StructOf(ts, vs);
    ZerosSplit(Sizes(x, k, t), x.sizes[k]);
    ConcatTouchesFront(ts[k], vs[k], Zeros(Sizes(x, k, t)));
    RunBlock(x, k, t);
  }

  // ----- the whole struct -----

  /** Every group that `stmts` writes holds only groupable types. */
  ghost predicate GroupsEligible(ts: seq<Ty>, stmts: seq<Stmt>) {
    stmts == [] || (GroupEligible(ts, stmts[0]) && GroupsEligible(ts, stmts[1..]))
  }

  ghost predicate GroupEligible(ts: seq<Ty>, stmt: Stmt) {
    stmt.Group? ==> forall j :: 0 <= j < |stmt.sizes| ==> stmt.sizes[j] < |ts| && Eligible(ts[stmt.sizes[j]], true)
  }

  ghost predicate EligibleStmt(ts: seq<Ty>, k: nat, t: nat) {
    t == 1 || AllGroupable(ts, k, t)
  }

  lemma {:induction false} RangeAt(k: nat, t: nat, j: nat)
    requires j < t
    ensures |Range(k, t)| == t && Range(k, t)[j] == k + j
    decreases t
  {
    RangeJoin(k, j, t - j);
    RangeLength(k, j);
    RangeLength(k + j, t - j);
  }

  lemma {:induction false} RangeLength(k: nat, t: nat)
    ensures |Range(k, t)| == t
    decreases t
  {
    if t > 0 { RangeLength(k + 1, t - 1); }
  }

  lemma EligibleFirst(ts: seq<Ty>, k: nat, t: nat, rest: seq<Stmt>)
    requires t >= 1 && k + t <= |ts|
    ensures GroupsEligible(ts, [StmtAt(k, t)] + rest) <==> EligibleStmt(ts, k, t) && GroupsEligible(ts, rest)
  {
    assert ([StmtAt(k, t)] + rest)[1..] == rest;
    if t > 1 { BlockEligible(ts, k, t); }
  }

  lemma BlockEligible(ts: seq<Ty>, k: nat, t: nat)
    requires t >= 1 && k + t <= |ts|
    ensures GroupEligible(ts, Block(k, t)) <==> AllGroupable(ts, k, t)
  {
    var sizes := Block(k, t).sizes;
    RangeLength(k, t);
    forall j | 0 <= j < t ensures sizes[j] == k + j { RangeAt(k, t, j); }
    if GroupEligible(ts, Block(k, t)) {
      forall f | k <= f < k + t ensures Eligible(ts[f], true) { assert sizes[f - k] == f; }
    }
  }

  /** What the first statement writes, for `t` fields. */
  function Output(ts: seq<Ty>, vs: seq<Value>, k: nat, t: nat): seq<byte>
    requires k + t <= |ts| == |vs| && t >= 1
  {
    if t == 1 then Encode(ts[k], vs[k]) else Blanks(StructOf(ts, vs), k, t)
  }

  lemma RunFirst(ts: seq<Ty>, vs: seq<Value>, k: nat, t: nat, rest: seq<Stmt>)
    requires Typed(ts, vs) && t >= 1 && k + t <= |ts|
    ensures Run(ts, vs, [StmtAt(k, t)] + rest, false)
      == match Run(ts, vs, rest, false)
         case Some(s) => Some(Output(ts, vs, k, t) + s)
         case None => None
  {
    assert ([StmtAt(k, t)] + rest)[1..] == rest;
    if t > 1 { BlockRuns(ts, vs, k, t); }
  }

  lemma OutputIsEncoding(ts: seq<Ty>, vs: seq<Value>, k: nat, t: nat)
    requires Typed(ts, vs) && t >= 1 && k + t <= |ts|
    ensures |Output(ts, vs, k, t)| <= |EncodeRange(ts, vs, k, t)|
    ensures EligibleStmt(ts, k, t) ==> Output(ts, vs, k, t) == EncodeRange(ts, vs, k, t)
  {
    if t == 1 {
      assert EncodeRange(ts, vs, k, 1) == Encode(ts[k], vs[k]) + EncodeRange(ts, vs, k + 1, 0);
    } else {
      BlanksAreEncodings(ts, vs, k, t);
    }
  }

  /** `stmts`, for the fields from `k` on, do not fail and write at most what they should. */
  ghost predicate WritesRange(ts: seq<Ty>, vs: seq<Value>, stmts: seq<Stmt>, k: nat)
    requires k <= |ts| == |vs|
  {
    var r := Run(ts, vs, stmts, false);
    var e := EncodeFrom(ts, vs, k);
    r.Some? && |r.value| <= |e| && (GroupsEligible(ts, stmts) ==> r.value == e)
  }

  lemma FirstAndRest(ts: seq<Ty>, vs: seq<Value>, k: nat, t: nat, rest: seq<Stmt>)
    returns (o: seq<byte>, r: seq<byte>, e: seq<byte>, f: seq<byte>)
    requires Typed(ts, vs) && t >= 1 && k + t <= |ts| && Run(ts, vs, rest, false).Some?
    ensures o == Output(ts, vs, k, t) && r == Run(ts, vs, rest, false).value && f == EncodeFrom(ts, vs, k + t)
    ensures Run(ts, vs, [StmtAt(k, t)] + rest, false) == Some(o + r) && EncodeFrom(ts, vs, k) == e + f
    ensures |o| <= |e| && (EligibleStmt(ts, k, t) ==> o == e)
    ensures o == e && t > 1 ==> forall g :: k <= g < k + t ==> Piece(ts[g], vs[g]) == Encode(ts[g], vs[g])
  {
    o, e := Output(ts, vs, k, t), EncodeRange(ts, vs, k, t);
    r, f := Run(ts, vs, rest, false).value, EncodeFrom(ts, vs, k + t);
    RunFirst(ts, vs, k, t, rest);
    EncodeFromJoin(ts, vs, k, t);
    OutputIsEncoding(ts, vs, k, t);
    if o == e && t > 1 {
      forall g | k <= g < k + t ensures Piece(ts[g], vs[g]) == Encode(ts[g], vs[g]) { EqualBlanks(ts, vs, k, t, g); }
    }
  }

  lemma WritesFirst(ts: seq<Ty>, vs: seq<Value>, k: nat, t: nat, rest: seq<Stmt>)
    requires Typed(ts, vs) && t >= 1 && k + t <= |ts| && WritesRange(ts, vs, rest, k + t)
    ensures WritesRange(ts, vs, [StmtAt(k, t)] + rest, k)
  {
    var o, r, e, f := FirstAndRest(ts, vs, k, t, rest);
    EligibleFirst(ts, k, t, rest);
  }

  lemma {:induction false} RunFrom(ts: seq<Ty>, vs: seq<Value>, marks: seq<seq<Attr>>, k: nat, stmts: seq<Stmt>)
    requires Typed(ts, vs) && |marks| == |ts| && k <= |ts| && Plan(marks, k) == Done(stmts)
    ensures WritesRange(ts, vs, stmts, k)
    decreases |ts| - k
  {
    if k < |ts| {
      var t, rest := Step(marks, k, stmts);
      RunFrom(ts, vs, marks, k + t, rest);
      WritesFirst(ts, vs, k, t, rest);
    }
  }

  /**
   For every accepted placement, several groups included, the statements write exactly the
   concatenated encodings of the fields, with every slice in range, if the groups are eligible.
   */
  lemma GroupingPreservesMeaning(ts: seq<Ty>, vs: seq<Value>, marks: seq<seq<Attr>>, stmts: seq<Stmt>)
    requires FieldsHaveType(ts, vs) && |marks| == |ts| == |vs| && Plan(marks, 0) == Done(stmts)
    requires GroupsEligible(ts, stmts)
    ensures Run(ts, vs, stmts, false) == Some(EncodeFields(ts, vs))
  {
    TypedFields(ts, vs);
    RunFrom(ts, vs, marks, 0, stmts);
    EncodeFromIsFields(ts, vs, 0);
    assert ts[0..] == ts && vs[0..] == vs;
  }

  // ----- exactly when -----

  lemma BadGroup(ts: seq<Ty>, k: nat, t: nat) returns (vs: seq<Value>)
    requires AllValid(ts) && k + t <= |ts| && !EligibleStmt(ts, k, t)
    ensures Typed(ts, vs) && t > 1 ==> exists g :: k <= g < k + t && Piece(ts[g], vs[g]) != Encode(ts[g], vs[g])
    ensures Typed(ts, vs)
  {
    var f :| k <= f < k + t && !Eligible(ts[f], true);
    vs := BadField(ts, f);
  }

  /** Some values for which the statements from `k` on write something else. */
  lemma {:induction false} IneligibleGroupDiffers(ts: seq<Ty>, marks: seq<seq<Attr>>, k: nat, stmts: seq<Stmt>)
    returns (vs: seq<Value>)
    requires AllValid(ts) && |marks| == |ts| && k <= |ts| && Plan(marks, k) == Done(stmts)
    requires !GroupsEligible(ts, stmts)
    ensures Typed(ts, vs) && Run(ts, vs, stmts, false) != Some(EncodeFrom(ts, vs, k))
    decreases |ts| - k
  {
    var t, rest := Step(marks, k, stmts);
    EligibleFirst(ts, k, t, rest);
    if EligibleStmt(ts, k, t) {
      vs := IneligibleGroupDiffers(ts, marks, k + t, rest);
    } else {
      vs := BadGroup(ts, k, t);
    }
    RunFrom(ts, vs, marks, k + t, rest);
    DiffersFirst(ts, vs, k, t, rest);
  }

  lemma DiffersFirst(ts: seq<Ty>, vs: seq<Value>, k: nat, t: nat, rest: seq<Stmt>)
    requires Typed(ts, vs) && t >= 1 && k + t <= |ts| && WritesRange(ts, vs, rest, k + t)
    requires || Run(ts, vs, rest, false) != Some(EncodeFrom(ts, vs, k + t))
             || (t > 1 && exists g :: k <= g < k + t && Piece(ts[g], vs[g]) != Encode(ts[g], vs[g]))
    ensures Run(ts, vs, [StmtAt(k, t)] + rest, false) != Some(EncodeFrom(ts, vs, k))
  {
    var o, r, e, f := FirstAndRest(ts, vs, k, t, rest);
    JoinInjective(o, r, e, f);
  }

  lemma BadField(ts: seq<Ty>, f: nat) returns (vs: seq<Value>)
    requires AllValid(ts) && f < |ts| && !Eligible(ts[f], true)
    ensures Typed(ts, vs) && Piece(ts[f], vs[f]) != Encode(ts[f], vs[f])
  {
    AllValidAt(ts, f);
    var v, s := IneligibleDiffers(ts[f], true);
    ZerosIff(s);
    var defaults := Defaults(ts);
    TypedFields(ts, defaults);
    vs := defaults[f := v];
  }

  lemma {:induction false} AllValidAt(ts: seq<Ty>, f: nat)
    requires AllValid(ts) && f < |ts|
    ensures Valid(ts[f])
  {
    if f > 0 { AllValidAt(ts[1..], f - 1); }
  }

  ghost predicate WritesFields(ts: seq<Ty>, vs: seq<Value>, stmts: seq<Stmt>) {
    FieldsHaveType(ts, vs) && |ts| == |vs| ==> Run(ts, vs, stmts, false) == Some(EncodeFields(ts, vs))
  }

  /** An accepted placement keeps the meaning of a struct exactly if its groups are eligible. */
  lemma MeaningKeptExactlyWhenEligible(ts: seq<Ty>, marks: seq<seq<Attr>>, stmts: seq<Stmt>)
    requires AllValid(ts) && |marks| == |ts| && Plan(marks, 0) == Done(stmts)
    ensures GroupsEligible(ts, stmts) <==> forall vs :: WritesFields(ts, vs, stmts)
  {
    if GroupsEligible(ts, stmts) {
      forall vs ensures WritesFields(ts, vs, stmts) {
        TypedFields(ts, vs);
        if FieldsHaveType(ts, vs) { GroupingPreservesMeaning(ts, vs, marks, stmts); }
      }
    } else {
      var vs := IneligibleGroupDiffers(ts, marks, 0, stmts);
      TypedFields(ts, vs);
      EncodeFromIsFields(ts, vs, 0);
      assert ts[0..] == ts && vs[0..] == vs;
      assert !WritesFields(ts, vs, stmts);
    }
  }

  // ----- a grouped unit struct -----

  lemma BareMarkOnTwoFields()
    ensures Plan([[Fixed], []], 0) == Done([Block(0, 2)])
  {
    var marks: seq<seq<Attr>> := [[Fixed], []];
    var attrs: seq<Attr> := [Fixed];
    assert marks[0] == attrs && attrs[1..] == [];
    assert Opening(attrs, 2, 2, None) == Done(Some(2));
    assert Plan(marks, 2) == Done([]) && [Block(0, 2)] + [] == [Block(0, 2)];
    assert InGroup(marks, 0, 2, 2) == Done([Block(0, 2)] + []);
    assert marks[1] == [] && InGroup(marks, 0, 2, 1) == InGroup(marks, 0, 2, 2);
    assert Plan(marks, 0) == InGroup(marks, 0, 2, 1);
  }

  lemma UnitAndBool()
    ensures Blanks(StructOf([TUnitStruct, TBool], [VUnit, VBool(false)]), 0, 2) == [1, 0]
  {
    var ts, vs := [TUnitStruct, TBool], [VUnit, VBool(false)];
    assert Piece(TUnitStruct, VUnit) == [1] && Piece(TBool, VBool(false)) == [0];
    BlanksCons(ts, vs, 0, 2);
    BlanksCons(ts, vs, 1, 1);
    assert Blanks(StructOf(ts, vs), 2, 0) == [];
    assert [1] + ([0] + []) == [1, 0];
  }

  /** A unit struct in a group is written as 1, which is not its encoding and cannot be read. */
  lemma GroupedUnitStruct()
    ensures Plan([[Fixed], []], 0) == Done([Block(0, 2)])
    ensures var ts, vs := [TUnitStruct, TBool], [VUnit, VBool(false)];
      && RunOne(ts, vs, Block(0, 2), false) == Some([1, 0])
      && EncodeFields(ts, vs) == [0, 0]
      && DecodeFields(ts, [1, 0], 0) == Err(Invalid)
  {
    BareMarkOnTwoFields();
    UnitAndBool();
    var ts, vs := [TUnitStruct, TBool], [VUnit, VBool(false)];
    BlockRuns(ts, vs, 0, 2);
    assert RunOne(ts, vs, Block(0, 2), false) == Some(Blanks(StructOf(ts, vs), 0, 2));
    assert ts[1..] == [TBool] && vs[1..] == [VBool(false)] && [TBool][1..] == [] && [VBool(false)][1..] == [];
    assert EncodeFields([TBool], [VBool(false)]) == [0] + [];
    assert Stands([1, 0], 0, [1]);
    ReadByteBack([1, 0], 0, 1);
  }
}
