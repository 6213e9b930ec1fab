/** What `#[fixed]` and `#[fixed(n)]` ask for, on the marks alone: which are accepted, and which fields they group. */
module DeriveMarks {
  import opened Wrappers
  import opened Derive
  import opened DeriveRuns

  /** An attribute at field `k` opens a group that goes on behind field `j`. */
  predicate Reaches(a: Attr, k: nat, j: nat) {
    match a
    case FixedList(n) => n.Some? && j + 1 < k + n.value
    case Fixed => true
    case OtherAttr => false
  }

  ghost predicate ReachesFrom(marks: seq<seq<Attr>>, k: nat, j: nat)
    requires k < |marks|
  {
    exists i :: 0 <= i < |marks[k]| && Reaches(marks[k][i], k, j)
  }

  /** Some field from `first` to `j` opens a group that goes on behind `j`. */
  ghost predicate Linked(marks: seq<seq<Attr>>, first: nat, j: nat)
    requires j < |marks|
  {
    exists k :: first <= k <= j && ReachesFrom(marks, k, j)
  }

  /** One statement writes both fields through one buffer. */
  ghost predicate SameGroup(stmts: seq<Stmt>, i: nat, j: nat) {
    exists g :: 0 <= g < |stmts| && stmts[g].Group? && i in stmts[g].sizes && j in stmts[g].sizes
  }

  // ----- the attributes of one field -----

  /** `attrs` hold one attribute of this macro, `attrs[i]`. */
  predicate OnlyAt(attrs: seq<Attr>, i: nat) {
    i < |attrs| && forall j :: 0 <= j < |attrs| ==> (attrs[j].OtherAttr? <==> j != i)
  }

  /** A group of `t` fields is what the attribute asks for, with `left` fields to go. */
  predicate AsksFor(a: Attr, len: nat, left: nat, t: nat) {
    match a
    case FixedList(n) => len != 1 && n == Some(t) && t != 1 && t <= left
    case Fixed => t == left != 1
    case OtherAttr => false
  }

  /** They ask for a group of `t` fields, and for nothing else. */
  ghost predicate Asks(attrs: seq<Attr>, len: nat, left: nat, t: nat) {
    exists i: nat :: OnlyAt(attrs, i) && AsksFor(attrs[i], len, left, t)
  }

  lemma {:induction false} OpeningNone(attrs: seq<Attr>, len: nat, left: nat)
    ensures Opening(attrs, len, left, None) == Done(None) <==> !AnyFixed(attrs)
  {
    if attrs != [] {
      OpeningNone(attrs[1..], len, left);
      if AnyFixed(attrs) && attrs[0].OtherAttr? {
        var j :| 0 <= j < |attrs| && !attrs[j].OtherAttr?;
        assert !attrs[1..][j - 1].OtherAttr?;
      }
    }
  }

  lemma {:induction false} OpeningSome(attrs: seq<Attr>, len: nat, left: nat) returns (i: nat)
    requires Opening(attrs, len, left, None).Done? && Opening(attrs, len, left, None).value.Some?
    ensures OnlyAt(attrs, i) && AsksFor(attrs[i], len, left, Opening(attrs, len, left, None).value.value)
  {
    if attrs[0].OtherAttr? {
      var j := OpeningSome(attrs[1..], len, left);
      i := j + 1;
      assert forall k :: 0 < k < |attrs| ==> attrs[k] == attrs[1..][k - 1];
    } else {
      i := 0;
      assert forall k :: 0 < k < |attrs| ==> attrs[k] == attrs[1..][k - 1];
    }
  }

  lemma {:induction false} OpeningAsked(attrs: seq<Attr>, len: nat, left: nat, i: nat, t: nat)
    requires OnlyAt(attrs, i) && AsksFor(attrs[i], len, left, t)
    ensures Opening(attrs, len, left, None) == Done(Some(t))
  {
    assert forall k :: 0 < k < |attrs| ==> attrs[k] == attrs[1..][k - 1];
    if i > 0 {
      OpeningAsked(attrs[1..], len, left, i - 1, t);
    } else {
      assert !AnyFixed(attrs[1..]);
    }
  }

  ghost predicate AsksAt(marks: seq<seq<Attr>>, k: nat, t: nat)
    requires k < |marks|
  {
    t > 0 && Asks(marks[k], |marks|, |marks| - k, t)
  }

  // ----- one statement -----

  /** What the marks of the first statement's fields are. */
  ghost predicate FirstMarks(marks: seq<seq<Attr>>, k: nat, t: nat) {
    && 1 <= t && k + t <= |marks|
    && (forall m :: k < m < k + t ==> !AnyFixed(marks[m]))
    && if t == 1 then !AnyFixed(marks[k])
       else Asks(marks[k], |marks|, |marks| - k, t)
  }

  lemma {:induction false} InGroupUnmarked(marks: seq<seq<Attr>>, s: nat, t: nat, k: nat)
    requires s < k <= s + t <= |marks|
    ensures InGroup(marks, s, t, k).Done? <==>
      (forall m :: k <= m < s + t ==> !AnyFixed(marks[m])) && Plan(marks, s + t).Done?
    decreases s + t - k
  {
    if k < s + t { InGroupUnmarked(marks, s, t, k + 1); }
  }

  lemma StepMarks(marks: seq<seq<Attr>>, k: nat, stmts: seq<Stmt>) returns (t: nat, rest: seq<Stmt>)
    requires k < |marks| && Plan(marks, k) == Done(stmts)
    ensures FirstMarks(marks, k, t) && Plan(marks, k + t) == Done(rest) && stmts == [StmtAt(k, t)] + rest
  {
    var left := |marks| - k;
    var r := Opening(marks[k], |marks|, left, None).value;
    if r.None? {
      t := 1;
      OpeningNone(marks[k], |marks|, left);
    } else {
      t := r.value;
      var i := OpeningSome(marks[k], |marks|, left);
      InGroupUnmarked(marks, k, t, k + 1);
      GroupCompletes(marks, k, t, k + 1);
    }
    rest := Plan(marks, k + t).value;
  }

  // ----- which fields are grouped -----

  lemma {:induction false} InRange(k: nat, t: nat, f: nat)
    ensures f in Range(k, t) <==> k <= f < k + t
    decreases t
  {
    if t > 0 { InRange(k + 1, t - 1, f); }
  }

  lemma {:induction false} LaterFields(marks: seq<seq<Attr>>, k: nat, stmts: seq<Stmt>, f: nat, g: nat)
    requires k <= |marks| && Plan(marks, k) == Done(stmts) && g < |stmts| && stmts[g].Group? && f in stmts[g].sizes
    ensures f >= k
    decreases |marks| - k
  {
    if k < |marks| {
      var t, rest := StepMarks(marks, k, stmts);
      if g == 0 {
        InRange(k, t, f);
      } else {
        assert stmts[g] == rest[g - 1];
        LaterFields(marks, k + t, rest, f, g - 1);
      }
    }
  }

  lemma SameGroupFirst(marks: seq<seq<Attr>>, k: nat, t: nat, rest: seq<Stmt>, j: nat)
    requires t >= 1 && k <= j && k + t <= |marks| && Plan(marks, k + t) == Done(rest)
    ensures SameGroup([StmtAt(k, t)] + rest, j, j + 1) <==> if j < k + t then j + 1 < k + t else SameGroup(rest, j, j + 1)
  {
    var stmts := [StmtAt(k, t)] + rest;
    InRange(k, t, j);
    InRange(k, t, j + 1);
    if j + 1 < k + t { assert stmts[0] == Block(k, t) && j in stmts[0].sizes && j + 1 in stmts[0].sizes; }
    if SameGroup(stmts, j, j + 1) {
      var g :| 0 <= g < |stmts| && stmts[g].Group? && j in stmts[g].sizes && j + 1 in stmts[g].sizes;
      if g > 0 {
        assert stmts[g] == rest[g - 1];
        LaterFields(marks, k + t, rest, j, g - 1);
      }
    }
    if SameGroup(rest, j, j + 1) {
      var g :| 0 <= g < |rest| && rest[g].Group? && j in rest[g].sizes && j + 1 in rest[g].sizes;
      assert stmts[g + 1] == rest[g];
      LaterFields(marks, k + t, rest, j, g);
    }
  }

  lemma LinkedFirst(marks: seq<seq<Attr>>, k: nat, t: nat, j: nat)
    requires FirstMarks(marks, k, t) && k <= j && j + 1 < |marks|
    ensures Linked(marks, k, j) <==> if j < k + t then j + 1 < k + t else Linked(marks, k + t, j)
  {
    forall m | k < m < k + t && m <= j ensures !ReachesFrom(marks, m, j) { assert !AnyFixed(marks[m]); }
    if t == 1 {
      assert !ReachesFrom(marks, k, j) by { assert !AnyFixed(marks[k]); }
    } else {
      var i: nat :| OnlyAt(marks[k], i) && AsksFor(marks[k][i], |marks|, |marks| - k, t);
      assert ReachesFrom(marks, k, j) <==> Reaches(marks[k][i], k, j);
      assert Reaches(marks[k][i], k, j) <==> j + 1 < k + t;
    }
  }

  lemma {:induction false} GroupedFrom(marks: seq<seq<Attr>>, k: nat, stmts: seq<Stmt>, j: nat)
    requires k <= j && j + 1 < |marks| && Plan(marks, k) == Done(stmts)
    ensures SameGroup(stmts, j, j + 1) <==> Linked(marks, k, j)
    decreases |marks| - k
  {
    var t, rest := StepMarks(marks, k, stmts);
    SameGroupFirst(marks, k, t, rest, j);
    LinkedFirst(marks, k, t, j);
    if k + t <= j { GroupedFrom(marks, k + t, rest, j); }
  }

  /**
   Of an accepted placement, two neighbours are written through one buffer exactly if a field up to
   the first one carries a `fixed(n)` that counts the second one in, or a bare `fixed`.
   */
  lemma GroupedExactlyWhenMarked(marks: seq<seq<Attr>>, stmts: seq<Stmt>, j: nat)
    requires j + 1 < |marks| && Plan(marks, 0) == Done(stmts)
    ensures SameGroup(stmts, j, j + 1) <==> Linked(marks, 0, j)
  {
    GroupedFrom(marks, 0, stmts, j);
  }

  // ----- which marks are accepted -----

  /** The attributes of field `k` are in order, and no group from `first` on is still open there. */
  ghost predicate FieldAccepted(marks: seq<seq<Attr>>, first: nat, k: nat)
    requires k < |marks|
  {
    AnyFixed(marks[k]) ==>
      && (exists t: nat :: AsksAt(marks, k, t))
      && (k > first ==> !Linked(marks, first, k - 1))
  }

  ghost predicate Acceptable(marks: seq<seq<Attr>>, first: nat) {
    forall k :: first <= k < |marks| ==> FieldAccepted(marks, first, k)
  }

  lemma SkipField(marks: seq<seq<Attr>>, k: nat, t: nat, m: nat)
    requires FirstMarks(marks, k, t) && k <= m < |marks|
    ensures FieldAccepted(marks, k, m) <==> m < k + t || FieldAccepted(marks, k + t, m)
  {
    if m == k && t > 1 { assert AsksAt(marks, k, t); }
    if m > k { LinkedFirst(marks, k, t, m - 1); }
  }

  lemma SkipFirst(marks: seq<seq<Attr>>, k: nat, t: nat)
    requires FirstMarks(marks, k, t)
    ensures Acceptable(marks, k) <==> Acceptable(marks, k + t)
  {
    var next := k + t;
    if Acceptable(marks, k) {
      forall m | next <= m < |marks| ensures FieldAccepted(marks, next, m) {
        assert FieldAccepted(marks, k, m);
        SkipField(marks, k, t, m);
      }
    }
    if Acceptable(marks, k + t) {
      forall m | k <= m < |marks| ensures FieldAccepted(marks, k, m) {
        if m >= next { assert FieldAccepted(marks, next, m); }
        SkipField(marks, k, t, m);
      }
    }
  }

  lemma AcceptedStarts(marks: seq<seq<Attr>>, k: nat) returns (t: nat)
    requires k < |marks| && Acceptable(marks, k)
    ensures FirstMarks(marks, k, t) && (Plan(marks, k + t).Done? ==> Plan(marks, k).Done?)
  {
    var left := |marks| - k;
    assert FieldAccepted(marks, k, k);
    if !AnyFixed(marks[k]) {
      t := 1;
      OpeningNone(marks[k], |marks|, left);
    } else {
      t :| AsksAt(marks, k, t);
      var i: nat :| OnlyAt(marks[k], i) && AsksFor(marks[k][i], |marks|, left, t);
      OpeningAsked(marks[k], |marks|, left, i, t);
      forall m | k < m < k + t ensures !AnyFixed(marks[m]) {
        assert FieldAccepted(marks, k, m);
        assert Reaches(marks[k][i], k, m - 1) && ReachesFrom(marks, k, m - 1);
      }
      InGroupUnmarked(marks, k, t, k + 1);
    }
  }

  lemma {:induction false} AcceptedFrom(marks: seq<seq<Attr>>, k: nat)
    requires k <= |marks|
    ensures Plan(marks, k).Done? <==> Acceptable(marks, k)
    decreases |marks| - k
  {
    if k < |marks| {
      if Plan(marks, k).Done? {
        var t, rest := StepMarks(marks, k, Plan(marks, k).value);
        AcceptedFrom(marks, k + t);
        SkipFirst(marks, k, t);
      }
      if Acceptable(marks, k) {
        var t := AcceptedStarts(marks, k);
        AcceptedFrom(marks, k + t);
        SkipFirst(marks, k, t);
      }
    }
  }

  /**
   A placement is accepted exactly if no field has two such attributes, each asks for two fields at
   least and for no more than there are, and none stands where a group is open.
   */
  lemma AcceptedExactlyWhen(marks: seq<seq<Attr>>)
    ensures Plan(marks, 0).Done? <==> Acceptable(marks, 0)
  {
    AcceptedFrom(marks, 0);
  }

  // ----- why the others are refused -----

  /** What the attributes of a field with `left` fields to go hold for the macro to panic like this. */
  ghost predicate Fault(attrs: seq<Attr>, len: nat, left: nat, p: Panic) {
    match p
    case Conflict => exists i, j :: 0 <= i < j < |attrs| && !attrs[i].OtherAttr? && !attrs[j].OtherAttr?
    case OneField => len == 1 && exists i :: 0 <= i < |attrs| && attrs[i].FixedList?
    case NotANumber => FixedList(None) in attrs
    case TooFew => FixedList(Some(1)) in attrs || (left == 1 && Fixed in attrs)
    case TooMany => exists i :: 0 <= i < |attrs| && attrs[i].FixedList? && attrs[i].n.Some? && attrs[i].n.value > left
    case Underflow => FixedList(Some(0)) in attrs
  }

  lemma {:induction false} OpeningFault(attrs: seq<Attr>, len: nat, left: nat, p: Panic)
    requires Opening(attrs, len, left, None) == Panicked(p)
    ensures Fault(attrs, len, left, p)
  {
    assert forall i :: 0 < i < |attrs| ==> attrs[i] == attrs[1..][i - 1];
    if attrs[0].OtherAttr? {
      OpeningFault(attrs[1..], len, left, p);
      assert forall i :: 0 <= i < |attrs[1..]| ==> attrs[1..][i] == attrs[i + 1];
    } else if AnyFixed(attrs[1..]) {
      var j :| 0 <= j < |attrs[1..]| && !attrs[1..][j].OtherAttr?;
      assert !attrs[0].OtherAttr? && !attrs[j + 1].OtherAttr?;
    }
  }

  /** A field at fault, or one with an attribute of the macro inside a group that is open there. */
  ghost predicate FieldFault(marks: seq<seq<Attr>>, k: nat, p: Panic)
    requires k < |marks|
  {
    || Fault(marks[k], |marks|, |marks| - k, p)
    || (p.Conflict? && AnyFixed(marks[k]) && k > 0 && Linked(marks, 0, k - 1))
  }

  lemma {:induction false} GroupFault(marks: seq<seq<Attr>>, s: nat, t: nat, k: nat, p: Panic)
    requires s < k <= s + t <= |marks| && InGroup(marks, s, t, k) == Panicked(p)
    requires t > 1 && Asks(marks[s], |marks|, |marks| - s, t)
    ensures Plan(marks, s + t) == Panicked(p) || exists m :: s < m < s + t && FieldFault(marks, m, p)
    decreases s + t - k
  {
    if k < s + t {
      if AnyFixed(marks[k]) {
        var i: nat :| OnlyAt(marks[s], i) && AsksFor(marks[s][i], |marks|, |marks| - s, t);
        assert Reaches(marks[s][i], s, k - 1) && ReachesFrom(marks, s, k - 1) && Linked(marks, 0, k - 1);
        assert FieldFault(marks, k, p);
      } else {
        GroupFault(marks, s, t, k + 1, p);
      }
    }
  }

  lemma {:induction false} PlanFault(marks: seq<seq<Attr>>, k: nat, p: Panic)
    requires k <= |marks| && Plan(marks, k) == Panicked(p)
    ensures exists m :: k <= m < |marks| && FieldFault(marks, m, p)
    decreases |marks| - k
  {
    var left := |marks| - k;
    var r := Opening(marks[k], |marks|, left, None);
    if r.Panicked? {
      OpeningFault(marks[k], |marks|, left, p);
      assert FieldFault(marks, k, p);
    } else if r.value.None? {
      PlanFault(marks, k + 1, p);
    } else {
      var i := OpeningSome(marks[k], |marks|, left);
      if r.value.value == 0 {
        assert FieldFault(marks, k, p);
      } else {
        GroupFault(marks, k, r.value.value, k + 1, p);
        if Plan(marks, k + r.value.value) == Panicked(p) { PlanFault(marks, k + r.value.value, p); }
      }
    }
  }

  /** Every panic has its reason in the marks. */
  lemma PanicHasReason(marks: seq<seq<Attr>>, p: Panic)
    requires Plan(marks, 0) == Panicked(p)
    ensures exists k :: 0 <= k < |marks| && FieldFault(marks, k, p)
  {
    PlanFault(marks, 0, p);
  }

  // ----- an example -----

  /** `fixed(2)` on the first of three fields: the third one stands alone. */
  lemma TwoOfThree()
    ensures Plan([[FixedList(Some(2))], [], []], 0) == Done([Block(0, 2), Plain(2)])
  {
    var marks: seq<seq<Attr>> := [[FixedList(Some(2))], [], []];
    assert marks[0] == [FixedList(Some(2))] && marks[1] == [] && marks[2] == [];
    OpeningAsked(marks[0], 3, 3, 0, 2);
    OpeningNone(marks[2], 3, 1);
    assert Plan(marks, 3) == Done([]);
    assert Plan(marks, 2) == Prefixed([Plain(2)], Plan(marks, 3)) == Done([Plain(2)] + []);
    assert InGroup(marks, 0, 2, 2) == Prefixed([Block(0, 2)], Plan(marks, 2));
    assert InGroup(marks, 0, 2, 1) == InGroup(marks, 0, 2, 2);
    assert [Block(0, 2)] + [Plain(2)] == [Block(0, 2), Plain(2)] && [Plain(2)] + [] == [Plain(2)];
  }
}
