/** Running the emitted statements on a struct of which only the sizes and `concat_array` matter. */
module DeriveRuns {
  import opened Wrappers
  import opened Bytes
  import opened Derive

  // ----- every field once, in order -----

  function CallFields(calls: seq<Call>): seq<nat> {
    if calls == [] then [] else [calls[0].field] + CallFields(calls[1..])
  }

  function StmtFields(stmts: seq<Stmt>): seq<nat> {
    if stmts == [] then [] else FieldsOf(stmts[0]) + StmtFields(stmts[1..])
  }

  function FieldsOf(stmt: Stmt): seq<nat> {
    if stmt.Plain? then [stmt.field] else CallFields(stmt.calls)
  }

  lemma {:induction false} RestFields(k: nat, m: nat)
    ensures CallFields(Rest(k, m)) == Range(k, m)
    decreases m
  {
    if m == 1 {
      assert Rest(k, 1)[1..] == [];
    } else if m > 1 {
      RestFields(k + 1, m - 1);
      assert Rest(k, m)[1..] == Rest(k + 1, m - 1);
    }
  }

  lemma BlockFields(s: nat, t: nat)
    requires t >= 1
    ensures CallFields(Calls(s, t)) == Range(s, t)
  {
    RestFields(s + 1, t - 1);
    assert Calls(s, t)[1..] == Rest(s + 1, t - 1);
  }

  /** An accepted placement emits each of the `n` fields from `k` on exactly once, in order. */
  lemma {:induction false} FieldsOnceInOrder(marks: seq<seq<Attr>>, k: nat, n: nat, stmts: seq<Stmt>)
    requires k + n == |marks| && Plan(marks, k) == Done(stmts)
    ensures StmtFields(stmts) == Range(k, n)
    decreases n
  {
    if n > 0 {
      var t, rest := Step(marks, k, stmts);
      FieldsOnceInOrder(marks, k + t, n - t, rest);
      FirstStmt(k, t, n, rest);
    }
  }

  lemma FirstStmt(k: nat, t: nat, n: nat, rest: seq<Stmt>)
    requires 1 <= t <= n && StmtFields(rest) == Range(k + t, n - t)
    ensures StmtFields([StmtAt(k, t)] + rest) == Range(k, n)
  {
    var stmts := [StmtAt(k, t)] + rest;
    assert stmts[1..] == rest;
    FieldsOfStmt(k, t);
    RangeJoin(k, t, n - t);
  }

  function StmtAt(k: nat, t: nat): Stmt
    requires t >= 1
  {
    if t == 1 then Plain(k) else Block(k, t)
  }

  lemma FieldsOfStmt(k: nat, t: nat)
    requires t >= 1
    ensures FieldsOf(StmtAt(k, t)) == Range(k, t)
  {
    if t == 1 { assert Range(k, 1) == [k]; } else { BlockFields(k, t); }
  }

  /** The plan from field `k` on starts with one statement, for `t` fields. */
  lemma Step(marks: seq<seq<Attr>>, k: nat, stmts: seq<Stmt>) returns (t: nat, rest: seq<Stmt>)
    requires k < |marks| && Plan(marks, k) == Done(stmts)
    ensures 1 <= t <= |marks| - k && Plan(marks, k + t) == Done(rest) && stmts == [StmtAt(k, t)] + rest
  {
    var r := Opening(marks[k], |marks|, |marks| - k, None).value;
    if r.None? {
      t := 1;
    } else {
      t := r.value;
      GroupCompletes(marks, k, t, k + 1);
    }
    rest := Plan(marks, k + t).value;
  }

  lemma {:induction false} GroupCompletes(marks: seq<seq<Attr>>, s: nat, t: nat, k: nat)
    requires s < k <= s + t <= |marks| && InGroup(marks, s, t, k).Done?
    ensures InGroup(marks, s, t, k) == Prefixed([Block(s, t)], Plan(marks, s + t))
    decreases s + t - k
  {
    if k < s + t { GroupCompletes(marks, s, t, k + 1); }
  }

  // ----- running the statements -----

  /** A struct as the statements see it: the sizes of its fields, and what field f makes of a slice s. */
  datatype Struct = Struct(sizes: seq<nat>, concat: (nat, seq<byte>) -> seq<byte>)
  {
    ghost predicate KeepsLength() {
      forall f, s :: |concat(f, s)| == |s|
    }
  }

  /** The bytes the calls of a group write at its end; `None` if a slice is out of range or no call ends it. */
  function RunCalls(x: Struct, calls: seq<Call>, buf: seq<byte>, i: nat): Option<seq<byte>> {
    if calls == [] || calls[0].field >= |x.sizes| then None
    else
      var f := calls[0].field;
      var w := x.sizes[f];
      match calls[0]
      case Start(_) => if w > |buf| then None else RunCalls(x, calls[1..], x.concat(f, buf), w)
      case Mid(_) => if i + w > |buf| then None else RunCalls(x, calls[1..], Written(x, f, buf, i), i + w)
      case End(_) =>
        var b := Written(x, f, buf, i);
        if i + w > |buf| || i + w > |b| then None else Some(b[..i + w])
  }

  /** `self.f.concat_array(&mut _a_[_i_.._i_ + FIXED_SIZE])` */
  function Written(x: Struct, f: nat, buf: seq<byte>, i: nat): seq<byte>
    requires f < |x.sizes|
  {
    var j := i + x.sizes[f];
    if j <= |buf| then buf[..i] + x.concat(f, buf[i..j]) + buf[j..] else []
  }

  function SizeSum(x: Struct, fields: seq<nat>): nat {
    if fields == [] then 0 else (if fields[0] < |x.sizes| then x.sizes[fields[0]] else 0) + SizeSum(x, fields[1..])
  }

  function RunGroup(x: Struct, sizes: seq<nat>, calls: seq<Call>): Option<seq<byte>> {
    RunCalls(x, calls, Zeros(SizeSum(x, sizes)), 0)
  }

  // ----- a group writes what concat_array makes of its fields, each in a slice of zeros -----

  function Sizes(x: Struct, k: nat, m: nat): nat
    requires k + m <= |x.sizes|
    decreases m
  {
    if m == 0 then 0 else x.sizes[k] + Sizes(x, k + 1, m - 1)
  }

  function Blanks(x: Struct, k: nat, m: nat): seq<byte>
    requires k + m <= |x.sizes|
    decreases m
  {
    if m == 0 then [] else x.concat(k, Zeros(x.sizes[k])) + Blanks(x, k + 1, m - 1)
  }

  lemma WrittenBlank(x: Struct, f: nat, done: seq<byte>, n: nat)
    requires f < |x.sizes| && x.sizes[f] <= n
    ensures Written(x, f, done + Zeros(n), |done|) == done + x.concat(f, Zeros(x.sizes[f])) + Zeros(n - x.sizes[f])
  {
    var b, i, w := done + Zeros(n), |done|, x.sizes[f];
    assert b[..i] == done;
    assert b[i..i + w] == Zeros(w);
    assert b[i + w..] == Zeros(n - w);
  }

  lemma RunMid(x: Struct, k: nat, m: nat, done: seq<byte>, n: nat)
    requires x.KeepsLength() && m > 1 && k < |x.sizes| && x.sizes[k] <= n
    ensures var d := done + x.concat(k, Zeros(x.sizes[k]));
      |d| == |done| + x.sizes[k]
      && RunCalls(x, Rest(k, m), done + Zeros(n), |done|) == RunCalls(x, Rest(k + 1, m - 1), d + Zeros(n - x.sizes[k]), |d|)
  {
    WrittenBlank(x, k, done, n);
    assert Rest(k, m)[1..] == Rest(k + 1, m - 1);
  }

  lemma RunEnd(x: Struct, k: nat, done: seq<byte>, n: nat)
    requires x.KeepsLength() && k < |x.sizes| && x.sizes[k] <= n
    ensures RunCalls(x, Rest(k, 1), done + Zeros(n), |done|) == Some(done + x.concat(k, Zeros(x.sizes[k])))
  {
    WrittenBlank(x, k, done, n);
    FrontOf(done + x.concat(k, Zeros(x.sizes[k])), Zeros(n - x.sizes[k]));
  }

  lemma FrontOf(s: seq<byte>, z: seq<byte>)
    ensures (s + z)[..|s|] == s
  {
  }

  lemma BlanksFirst(x: Struct, k: nat, m: nat, done: seq<byte>)
    requires m >= 1 && k + m <= |x.sizes|
    ensures done + Blanks(x, k, m) == (done + x.concat(k, Zeros(x.sizes[k]))) + Blanks(x, k + 1, m - 1)
  {
    Assoc(done, x.concat(k, Zeros(x.sizes[k])), Blanks(x, k + 1, m - 1));
  }

  lemma {:induction false} RunRest(x: Struct, k: nat, m: nat, done: seq<byte>, n: nat)
    requires x.KeepsLength() && m >= 1 && k + m <= |x.sizes| && n == Sizes(x, k, m)
    ensures RunCalls(x, Rest(k, m), done + Zeros(n), |done|) == Some(done + Blanks(x, k, m))
    decreases m
  {
    var d := done + x.concat(k, Zeros(x.sizes[k]));
    BlanksFirst(x, k, m, done);
    if m > 1 {
      RunMid(x, k, m, done, n);
      RunRest(x, k + 1, m - 1, d, n - x.sizes[k]);
    } else {
      RunEnd(x, k, done, n);
      assert Blanks(x, k + 1, 0) == [] && d + [] == d;
    }
  }

  lemma {:induction false} SizesOfRange(x: Struct, k: nat, m: nat)
    requires k + m <= |x.sizes|
    ensures SizeSum(x, Range(k, m)) == Sizes(x, k, m)
    decreases m
  {
    if m > 0 {
      assert Range(k, m)[1..] == Range(k + 1, m - 1);
      SizesOfRange(x, k + 1, m - 1);
    }
  }

  /** The first call is given the whole buffer, and must still only touch its own part. */
  lemma RunBlock(x: Struct, k: nat, t: nat)
    requires x.KeepsLength() && t >= 2 && k + t <= |x.sizes|
    requires x.concat(k, Zeros(Sizes(x, k, t))) == x.concat(k, Zeros(x.sizes[k])) + Zeros(Sizes(x, k + 1, t - 1))
    ensures RunGroup(x, Range(k, t), Calls(k, t)) == Some(Blanks(x, k, t))
  {
    var n, r := Sizes(x, k, t), Sizes(x, k + 1, t - 1);
    var z, s := Zeros(n), x.concat(k, Zeros(x.sizes[k]));
    SizesOfRange(x, k, t);
    assert RunGroup(x, Range(k, t), Calls(k, t)) == RunCalls(x, Calls(k, t), z, 0);
    RunStart(x, k, t, z);
    assert x.concat(k, z) == s + Zeros(r) && x.sizes[k] == |s|;
    RunRest(x, k + 1, t - 1, s, r);
  }

  lemma RunStart(x: Struct, k: nat, t: nat, z: seq<byte>)
    requires t >= 2 && k < |x.sizes| && x.sizes[k] <= |z|
    ensures RunCalls(x, Calls(k, t), z, 0) == RunCalls(x, Rest(k + 1, t - 1), x.concat(k, z), x.sizes[k])
  {
    assert Calls(k, t)[1..] == Rest(k + 1, t - 1);
  }
}
