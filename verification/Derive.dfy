/**
 The derive macro's treatment of `#[fixed]` and `#[fixed(n)]`: one pass over the fields of a
 struct emits the statements of `sync_wiring`, which write a marked run of fields through one
 stack buffer.
 */
module Derive {
  import opened Wrappers
  import opened Bytes

  /** `fixed(n)`, with `None` for anything that is not a number, `fixed`, or an attribute of another macro. */
  datatype Attr = FixedList(n: Option<nat>) | Fixed | OtherAttr

  datatype Panic = Conflict | OneField | NotANumber | TooFew | TooMany | Underflow

  datatype Outcome<+T> = Done(value: T) | Panicked(panic: Panic)

  /** `Group`: a buffer of the summed sizes of some fields, and the calls that fill it. */
  datatype Stmt = Plain(field: nat) | Group(sizes: seq<nat>, calls: seq<Call>)

  datatype Call = Start(field: nat) | Mid(field: nat) | End(field: nat)

  // ----- what the attributes ask for -----

  /**
   The group that is open after the attributes of a field, if `open` was open before; the struct
   has `len` fields of which `left` are still to come, this one included.
   */
  function Opening(attrs: seq<Attr>, len: nat, left: nat, open: Option<nat>): (r: Outcome<Option<nat>>)
    ensures open.None? && r.Done? && r.value.Some? ==> r.value.value != 1 && r.value.value <= left
  {
    if attrs == [] then Done(open)
    else
      match attrs[0]
      case OtherAttr => Opening(attrs[1..], len, left, open)
      case FixedList(n) =>
        if open.Some? then Panicked(Conflict)
        else if len == 1 then Panicked(OneField)
        else if n.None? then Panicked(NotANumber)
        else if n.value == 1 then Panicked(TooFew)
        else if n.value > left then Panicked(TooMany)
        else OpenedBy(n.value, attrs[1..])
      case Fixed =>
        if open.Some? then Panicked(Conflict)
        else if left == 1 then Panicked(TooFew)
        else OpenedBy(left, attrs[1..])
  }

  /** A group of `t` fields was opened; no later attribute may be another `fixed`. */
  function OpenedBy(t: nat, attrs: seq<Attr>): Outcome<Option<nat>> {
    if AnyFixed(attrs) then Panicked(Conflict) else Done(Some(t))
  }

  predicate AnyFixed(attrs: seq<Attr>) {
    exists j :: 0 <= j < |attrs| && !attrs[j].OtherAttr?
  }

  lemma {:induction false} OpeningOpen(attrs: seq<Attr>, len: nat, left: nat, t: nat)
    ensures Opening(attrs, len, left, Some(t)) == OpenedBy(t, attrs)
  {
    if attrs != [] {
      OpeningOpen(attrs[1..], len, left, t);
      if AnyFixed(attrs) && attrs[0].OtherAttr? {
        var j :| 0 <= j < |attrs| && !attrs[j].OtherAttr?;
        assert !attrs[1..][j - 1].OtherAttr?;
      }
    }
  }

  // ----- the plan: which fields stand alone and which are grouped -----

  function Rest(k: nat, m: nat): seq<Call>
    decreases m
  {
    if m == 0 then [] else if m == 1 then [End(k)] else [Mid(k)] + Rest(k + 1, m - 1)
  }

  function Calls(s: nat, t: nat): seq<Call>
    requires t >= 1
  {
    [Start(s)] + Rest(s + 1, t - 1)
  }

  function Range(k: nat, n: nat): seq<nat>
    decreases n
  {
    if n == 0 then [] else [k] + Range(k + 1, n - 1)
  }

  lemma {:induction false} RangeJoin(k: nat, m: nat, n: nat)
    ensures Range(k, m) + Range(k + m, n) == Range(k, m + n)
    decreases m
  {
    if m > 0 { RangeJoin(k + 1, m - 1, n); }
  }

  /** The statement for the fields `s..s + t`. */
  function Block(s: nat, t: nat): Stmt
    requires t >= 1
  {
    Group(Range(s, t), Calls(s, t))
  }

  function Prefixed(stmts: seq<Stmt>, r: Outcome<seq<Stmt>>): Outcome<seq<Stmt>> {
    if r.Done? then Done(stmts + r.value) else r
  }

  /** The statements for the fields from `k` on, of a struct whose fields carry `marks`. */
  function Plan(marks: seq<seq<Attr>>, k: nat): Outcome<seq<Stmt>>
    requires k <= |marks|
    decreases |marks| - k, 1
  {
    if k == |marks| then Done([])
    else
      match Opening(marks[k], |marks|, |marks| - k, None)
      case Panicked(p) => Panicked(p)
      case Done(None) => Prefixed([Plain(k)], Plan(marks, k + 1))
      case Done(Some(t)) => if t == 0 then Panicked(Underflow) else InGroup(marks, k, t, k + 1)
  }

  /** The same inside the group of `s..s + t`, whose fields before `k` carry no second mark. */
  function InGroup(marks: seq<seq<Attr>>, s: nat, t: nat, k: nat): Outcome<seq<Stmt>>
    requires s < k <= s + t <= |marks|
    decreases |marks| - k, 2
  {
    if k == s + t then Prefixed([Block(s, t)], Plan(marks, k))
    else if AnyFixed(marks[k]) then Panicked(Conflict)
    else InGroup(marks, s, t, k + 1)
  }

  // ----- the pass -----

  /** The pass stands before field `k`, with `stmts` emitted and no group open. */
  ghost predicate Between(marks: seq<seq<Attr>>, k: nat, stmts: seq<Stmt>) {
    k <= |marks| && Plan(marks, 0) == Prefixed(stmts, Plan(marks, k))
  }

  /** The same inside the group `s..k + c`, of which `calls` and `sizes` are pending. */
  ghost predicate Inside(marks: seq<seq<Attr>>, s: nat, k: nat, c: nat, sizes: seq<nat>, calls: seq<Call>, stmts: seq<Stmt>) {
    && c >= 1 && s < k && k + c <= |marks|
    && sizes == Range(s, k - s) && calls + Rest(k, c) == Calls(s, k + c - s)
    && Plan(marks, 0) == Prefixed(stmts, InGroup(marks, s, k + c - s, k))
  }

  ghost predicate Passed(marks: seq<seq<Attr>>, k: nat, start: Option<nat>, sizes: seq<nat>, calls: seq<Call>, stmts: seq<Stmt>) {
    match start
    case None => sizes == [] && calls == [] && Between(marks, k, stmts)
    case Some(c) => |sizes| <= k && Inside(marks, k - |sizes|, k, c, sizes, calls, stmts)
  }

  lemma PassedAtStart(marks: seq<seq<Attr>>)
    ensures Passed(marks, 0, None, [], [], [])
  {
    var r := Plan(marks, 0);
    if r.Done? { assert [] + r.value == r.value; }
  }

  lemma PassedAlone(marks: seq<seq<Attr>>, k: nat, stmts: seq<Stmt>)
    requires k < |marks| && Passed(marks, k, None, [], [], stmts)
    requires Opening(marks[k], |marks|, |marks| - k, None) == Done(None)
    ensures Passed(marks, k + 1, None, [], [], stmts + [Plain(k)])
  {
    var r := Plan(marks, k + 1);
    if r.Done? { assert stmts + ([Plain(k)] + r.value) == (stmts + [Plain(k)]) + r.value; }
  }

  lemma PassedOpening(marks: seq<seq<Attr>>, k: nat, stmts: seq<Stmt>, t: nat)
    requires k < |marks| && Passed(marks, k, None, [], [], stmts) && t != 0
    requires Opening(marks[k], |marks|, |marks| - k, None) == Done(Some(t))
    ensures Passed(marks, k + 1, Some(t - 1), [k], [Start(k)], stmts)
  {
    assert Range(k, 1) == [k];
    assert Inside(marks, k, k + 1, t - 1, [k], [Start(k)], stmts);
  }

  lemma PassedMid(marks: seq<seq<Attr>>, k: nat, c: nat, sizes: seq<nat>, calls: seq<Call>, stmts: seq<Stmt>)
    requires k < |marks| && Passed(marks, k, Some(c), sizes, calls, stmts) && !AnyFixed(marks[k])
    ensures c > 1 ==> Passed(marks, k + 1, Some(c - 1), sizes + [k], calls + [Mid(k)], stmts)
    ensures c == 1 ==> Passed(marks, k + 1, None, [], [], stmts + [Group(sizes + [k], calls + [End(k)])])
  {
    var s := k - |sizes|;
    RangeJoin(s, k - s, 1);
    assert Range(k, 1) == [k] && sizes + [k] == Range(s, k + 1 - s);
    if c > 1 {
      assert calls + Rest(k, c) == (calls + [Mid(k)]) + Rest(k + 1, c - 1);
    } else {
      var r, x := Plan(marks, k + 1), Block(s, k + 1 - s);
      assert Rest(k, 1) == [End(k)];
      assert x == Group(sizes + [k], calls + [End(k)]);
      assert InGroup(marks, s, k + 1 - s, k) == InGroup(marks, s, k + 1 - s, k + 1) == Prefixed([x], r);
      if r.Done? { assert stmts + ([x] + r.value) == (stmts + [x]) + r.value; }
    }
  }

  /** The attributes of one field: whether it opens a group, and the countdown afterwards. */
  method ReadAttrs(attrs: seq<Attr>, len: nat, fieldCount: nat, open: Option<nat>)
    returns (r: Outcome<Option<nat>>, isStart: bool)
    requires 1 <= fieldCount <= len
    ensures r == Opening(attrs, len, len - (fieldCount - 1), open)
    ensures r.Done? ==> if isStart then open.None? && r.value.Some? else r.value == open
  {
    var concatStart := open;
    isStart := false;
    for j := 0 to |attrs|
      invariant if isStart then open.None? && concatStart.Some? else concatStart == open
      invariant Opening(attrs, len, len - (fieldCount - 1), open) == Opening(attrs[j..], len, len - (fieldCount - 1), concatStart)
    {
      assert attrs[j..][1..] == attrs[j + 1..];
      match attrs[j]
      case FixedList(n) =>
        if concatStart.Some? { return Panicked(Conflict), isStart; }
        if len == 1 { return Panicked(OneField), isStart; }
        if n.None? { return Panicked(NotANumber), isStart; }
        if n.value == 1 { return Panicked(TooFew), isStart; }
        if n.value > len - (fieldCount - 1) { return Panicked(TooMany), isStart; }
        OpeningOpen(attrs[j + 1..], len, len - (fieldCount - 1), n.value);
        concatStart, isStart := n, true;
      case Fixed =>
        if concatStart.Some? { return Panicked(Conflict), isStart; }
        var t := len - (fieldCount - 1);
        if t == 1 { return Panicked(TooFew), isStart; }
        OpeningOpen(attrs[j + 1..], len, t, t);
        concatStart, isStart := Some(t), true;
      case OtherAttr =>
    }
    r := Done(concatStart);
  }

  /** One field off the countdown of the open group, which ends at zero. */
  method CountDown(open: Option<nat>, isStart: bool) returns (r: Outcome<Option<nat>>, isMid: bool, isEnd: bool)
    requires isStart ==> open.Some?
    ensures open == Some(0) ==> r == Panicked(Underflow)
    ensures open.None? ==> r == Done(None)
    ensures open.Some? && open.value > 0 ==> r == Done(if isEnd then None else Some(open.value - 1))
    ensures isEnd <==> !isStart && open == Some(1)
    ensures isMid <==> !isStart && open.Some? && open.value > 1
  {
    var concatStart := open;
    isMid, isEnd := false, false;
    if concatStart.Some? {
      if concatStart.value == 0 { return Panicked(Underflow), isMid, isEnd; }
      concatStart := Some(concatStart.value - 1);
      if !isStart {
        isEnd := concatStart.value == 0;
        isMid := !isEnd;
      }
    }
    if isEnd { concatStart := None; }
    r := Done(concatStart);
  }

  method FixedPass(marks: seq<seq<Attr>>) returns (r: Outcome<seq<Stmt>>)
    ensures r == Plan(marks, 0)
  {
    var fieldCount: nat, concatStart: Option<nat> := 0, None;
    var sizes: seq<nat>, calls: seq<Call>, stmts: seq<Stmt> := [], [], [];
    PassedAtStart(marks);
    for index := 0 to |marks|
      invariant fieldCount == index && Passed(marks, index, concatStart, sizes, calls, stmts)
    {
      fieldCount := fieldCount + 1;
      ghost var before := concatStart;
      if before.Some? { OpeningOpen(marks[index], |marks|, |marks| - index, before.value); }
      var marked, isStart := ReadAttrs(marks[index], |marks|, fieldCount, concatStart);
      if marked.Panicked? { return Panicked(marked.panic); }
      concatStart := marked.value;

      var counted, isMid, isEnd := CountDown(concatStart, isStart);
      if counted.Panicked? { return Panicked(counted.panic); }
      concatStart := counted.value;

      if isStart {
        PassedOpening(marks, index, stmts, concatStart.value + 1);
        sizes, calls := sizes + [index], calls + [Start(index)];
      } else if isMid {
        PassedMid(marks, index, before.value, sizes, calls, stmts);
        sizes, calls := sizes + [index], calls + [Mid(index)];
      } else if isEnd {
        PassedMid(marks, index, before.value, sizes, calls, stmts);
        stmts := stmts + [Group(sizes + [index], calls + [End(index)])];
        sizes, calls := [], [];
      } else {
        PassedAlone(marks, index, stmts);
        stmts := stmts + [Plain(index)];
      }
    }
    assert stmts + [] == stmts;
    r := Done(stmts);
  }

  // ----- the tag of an enum -----

  datatype TagName = U8 | U16 | U32 | OtherName

  /** The width of the tag: the last name wins, and u16 is the default, for which nothing is checked. */
  function TagWidth(names: seq<TagName>, len: nat, width: nat): Option<nat> {
    if names == [] then Some(width)
    else
      match names[0]
      case U8 => if len > 0xFFFF then None else TagWidth(names[1..], len, 1)
      case U16 => if len > 0xFFFF then None else TagWidth(names[1..], len, 2)
      case U32 => if len > 0xFFFF_FFFF then None else TagWidth(names[1..], len, 4)
      case OtherName => None
  }

  method GetTag(names: seq<TagName>, len: nat) returns (tag: Option<nat>)
    ensures tag == TagWidth(names, len, 2)
  {
    var width := 2;
    for i := 0 to |names|
      invariant TagWidth(names, len, 2) == TagWidth(names[i..], len, width)
    {
      assert names[i..][1..] == names[i + 1..];
      match names[i]
      case U8 =>
        if len > 0xFFFF { return None; }
        width := 1;
      case U16 =>
        if len > 0xFFFF { return None; }
        width := 2;
      case U32 =>
        if len > 0xFFFF_FFFF { return None; }
        width := 4;
      case OtherName => return None;
    }
    tag := Some(width);
  }

  /**
   An accepted tag has a number for each of `len` variants unless it is a u8 and there are more
   than 256, or no tag was asked for and there are more than 65536.
   */
  lemma {:induction false} TagFitsExactlyWhen(names: seq<TagName>, len: nat, width: nat)
    requires TagWidth(names, len, width).Some?
    ensures var last := if names == [] then OtherName else names[|names| - 1];
      len <= Pow256(TagWidth(names, len, width).value)
      <==> (last == U8 ==> len <= 256) && (names == [] ==> len <= Pow256(width))
  {
    assert Pow256(1) == 256 && Pow256(2) == 0x1_0000 && Pow256(4) == 0x1_0000_0000;
    if |names| > 1 {
      var w := if names[0].U8? then 1 else if names[0].U16? then 2 else 4;
      TagFitsExactlyWhen(names[1..], len, w);
    } else if |names| == 1 {
      assert names[1..] == [];
    }
  }

  /** The bits of the integer that is named. */
  function Bits(name: TagName): nat {
    match name
    case U8 => 8
    case U16 => 16
    case U32 => 32
    case OtherName => 0
  }

  /**
   A tag is accepted exactly if all names are known and none is for fewer variants, by the
   macro's count, which takes a u8 for a u16; it has the bits of the last one.
   */
  lemma {:induction false} TagExactlyWhen(names: seq<TagName>, len: nat, width: nat, w: nat)
    ensures TagWidth(names, len, width) == Some(w) <==>
      && (forall i :: 0 <= i < |names| ==> names[i] != OtherName && len <= if names[i] == U32 then 0xFFFF_FFFF else 0xFFFF)
      && 8 * w == if names == [] then 8 * width else Bits(names[|names| - 1])
  {
    if names != [] {
      var rest := names[1..];
      assert forall i :: 0 < i < |names| ==> names[i] == rest[i - 1];
      assert forall i :: 0 <= i < |rest| ==> rest[i] == names[i + 1];
      if names[0] != OtherName { TagExactlyWhen(rest, len, Bits(names[0]) / 8, w); }
    }
  }
}
