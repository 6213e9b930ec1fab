/**
 The readers of unwire.rs.  A checked reader stands for `&[u8]`, an unchecked one for
 `UnsafeReader`: they share all decoders and differ only in whether reading past the end of
 the buffer is an error or must never happen.
 */
module Reader {
  import opened Bytes
  import opened Sums
  import opened WireTypes
  import opened Codec
  import opened Capacity
  import opened PreScan

  // ----- vectors and arrays under construction -----

  /** A `MaybeUninit`: not yet written, holding a value, or emptied by a drop or a move. */
  datatype Slot = Uninit | Full(value: Value) | Emptied

  /** `SafeInitVec` and `SafeInitArray`.  Taking the storage out leaves none behind. */
  class SafeInit {
    var slots: array<Slot>
    var initializedCount: nat

    ghost predicate Valid()
      reads this, slots
    {
      slots.Length > 0 ==>
        && initializedCount <= slots.Length
        && (forall i :: 0 <= i < initializedCount ==> slots[i].Full?)
        && (forall i :: initializedCount <= i < slots.Length ==> slots[i].Uninit?)
    }

    /** The values it owns. */
    ghost function Contents(): (vs: seq<Value>)
      requires Valid()
      reads this, slots
    {
      if slots.Length == 0 then []
      else seq(initializedCount, i requires 0 <= i < initializedCount reads this, slots requires Valid() && slots.Length > 0 => slots[i].value)
    }

    constructor (n: nat)
      ensures Valid() && fresh(slots) && slots.Length == n && initializedCount == 0 && Contents() == []
    {
      slots := new Slot[n](_ => Uninit);
      initializedCount := 0;
    }

    method Put(v: Value)
      requires Valid() && initializedCount < slots.Length
      modifies this`initializedCount, slots
      ensures Valid() && Contents() == old(Contents()) + [v] && initializedCount == old(initializedCount) + 1
    {
      slots[initializedCount] := Full(v);
      initializedCount := initializedCount + 1;
    }

    /**
     The destructor, which runs on every exit: unless the storage was taken out it drops the first
     `initializedCount` slots in place, each of which must hold a value.
     */
    method Drop() returns (dropped: seq<Value>)
      requires Valid()
      modifies slots
      ensures dropped == old(Contents())
      ensures forall i :: 0 <= i < slots.Length ==> !slots[i].Full?
    {
      dropped := [];
      if slots.Length > 0 {
        var i := 0;
        while i < initializedCount
          invariant 0 <= i <= initializedCount
          invariant forall j :: 0 <= j < i ==> slots[j].Emptied?
          invariant forall j :: i <= j < slots.Length ==> slots[j] == old(slots[j])
          invariant dropped == old(Contents())[..i]
        {
          dropped := dropped + [slots[i].value];
          slots[i] := Emptied;
          i := i + 1;
        }
      }
    }

    /**
     `mem::take` or `Option::take`, then `transmute` or `array_assume_init`: every slot must hold a
     value; they move to the caller, and the count stays as it is.
     */
    method Take() returns (vs: seq<Value>)
      requires Valid() && (slots.Length > 0 ==> initializedCount == slots.Length)
      modifies this`slots
      ensures vs == old(Contents())
      ensures Valid() && Contents() == [] && fresh(slots) && slots.Length == 0
    {
      var data := slots;
      slots := new Slot[0];
      vs := [];
      for i := 0 to data.Length
        invariant vs == old(Contents())[..i]
      {
        vs := vs + [data[i].value];
      }
    }
  }

  /** The elements decoded before the first failure. */
  function Built(t: Ty, n: nat, b: seq<byte>, pos: nat): (vs: seq<Value>)
    requires pos <= |b|
    ensures |vs| <= n
  {
    if n == 0 || Decode(t, b, pos).Err? then []
    else [Decode(t, b, pos).value] + Built(t, n - 1, b, Decode(t, b, pos).pos)
  }

  /** They decode by themselves; they are all `n` of them, or the next one fails and its error is reported. */
  lemma {:induction false} BuiltUpToTheFailure(t: Ty, n: nat, b: seq<byte>, pos: nat) returns (p: nat)
    requires pos <= |b|
    ensures p <= |b| && DecodeAll(t, |Built(t, n, b, pos)|, b, pos) == Ok(Built(t, n, b, pos), p)
    ensures FailsAfter(t, n - |Built(t, n, b, pos)|, b, p, Outcome(DecodeAll(t, n, b, pos)))
  {
    var r := Decode(t, b, pos);
    if n > 0 && r.Ok? {
      p := BuiltUpToTheFailure(t, n - 1, b, r.pos);
      var rest := Built(t, n - 1, b, r.pos);
      FirstOutcome(t, n, b, pos);
      assert n - |[r.value] + rest| == n - 1 - |rest|;
      assert Built(t, n, b, pos) == [r.value] + rest && |[r.value] + rest| == |rest| + 1;
      AllDecode(t, |rest|, b, pos, r.value, r.pos, rest, p);
    } else {
      p := pos;
    }
  }

  /** With `left` elements to go at `p`: either none, and the whole is decoded, or the next fails the whole. */
  predicate FailsAfter(t: Ty, left: nat, b: seq<byte>, p: nat, whole: Parsed<()>)
    requires p <= |b|
  {
    if left == 0 then whole.Ok? && whole.pos == p
    else whole.Err? && Decode(t, b, p) == Err(whole.error)
  }

  // ----- scans of many values -----

  /** A scan seen from where it started. */
  function Measured(s: Scanned, start: nat): Parsed<nat>
    requires s.Ok? ==> start <= s.pos
  {
    if s.Ok? then Ok(s.pos - start, s.pos) else Err(s.error)
  }

  /** The bytes of a value that its type alone determines. */
  function HeadSize(t: Ty): nat {
    match t
    case TString => 8
    case TVec(_) => 8
    case TOption(_) => 1
    case TEnum(tag, _) => tag
    case _ => 0
  }

  /** `todo` of `count` values are still to be counted at `pos`; `total` is ahead by their heads, as far as a u64 goes. */
  ghost predicate Counted(t: Ty, count: nat, b: seq<byte>, start: nat, todo: int, pos: nat, total: nat)
    requires !IsFlat(t) && !t.TArray?
  {
    && start <= pos <= |b| && todo >= 0
    && ScanEach(t, count, b, start) == ScanEach(t, todo, b, pos)
    && total == Wrap(pos - start + Sum(HeadSize(t), todo))
  }

  lemma CountStarts(t: Ty, count: nat, b: seq<byte>, start: nat)
    requires !IsFlat(t) && !t.TArray? && start <= |b|
    ensures HeadSize(t) * count >= 0 && Counted(t, count, b, start, count, start, Wrap(HeadSize(t) * count))
  {
    SumIsProduct(HeadSize(t), count);
  }

  lemma CountEnds(t: Ty, count: nat, b: seq<byte>, start: nat, pos: nat, total: nat)
    requires !IsFlat(t) && !t.TArray? && Counted(t, count, b, start, 0, pos, total) && |b| < U64_LIMIT
    ensures ScanEach(t, count, b, start) == Ok((), pos) && total == pos - start
  {
  }

  /** One more of them was counted, with `len` the length of its body. */
  lemma CountOne(t: Ty, count: nat, b: seq<byte>, start: nat, todo: nat, pos: nat, total: nat, len: Parsed<nat>)
    requires !IsFlat(t) && !t.TArray? && todo > 0 && Counted(t, count, b, start, todo, pos, total)
    requires len.Ok? && len.pos == pos + HeadSize(t) + len.value <= |b|
    requires ScanEach(t, todo, b, pos) == ScanEach(t, todo - 1, b, len.pos)
    ensures Counted(t, count, b, start, todo - 1, len.pos, Wrap(total + len.value))
  {
    var h := HeadSize(t);
    TotalGrows(h, todo, pos - start, len.value);
    assert len.pos - start == (pos - start) + (h + len.value);
  }

  lemma TotalGrows(h: nat, todo: nat, done: nat, len: nat)
    requires todo > 0
    ensures Wrap(Wrap(done + Sum(h, todo)) + len) == Wrap(done + (h + len) + Sum(h, todo - 1))
  {
    WrapTwice(done + Sum(h, todo), len);
    assert done + Sum(h, todo) + len == done + (h + len) + Sum(h, todo - 1);
  }

  /** The first of `n` values, with `len` the length of its body. */
  lemma FirstOfEach(t: Ty, n: nat, b: seq<byte>, pos: nat, len: Parsed<nat>)
    requires !IsFlat(t) && !t.TArray? && n > 0 && pos <= |b| && IsBody(t, b, pos, len)
    ensures len.Ok? ==> len.pos == pos + HeadSize(t) + len.value <= |b| && ScanEach(t, n, b, pos) == ScanEach(t, n - 1, b, len.pos)
    ensures len.Err? ==> ScanEach(t, n, b, pos) == Err(len.error)
  {
  }

  predicate IsBody(t: Ty, b: seq<byte>, pos: nat, len: Parsed<nat>)
    requires !IsFlat(t) && !t.TArray? && pos <= |b|
  {
    var s := ScanOne(t, b, pos);
    (s.Ok? ==> s.pos >= pos + HeadSize(t)) && len == Measured(s, pos + HeadSize(t))
  }

  lemma HeadIsScanned(t: Ty, b: seq<byte>, pos: nat)
    requires !IsFlat(t) && !t.TArray? && pos <= |b|
    ensures ScanOne(t, b, pos).Ok? ==> ScanOne(t, b, pos).pos >= pos + HeadSize(t)
  {
  }

  // ----- the readers -----

  class Reader {
    const buf: seq<byte>
    const checked: bool
    var position: nat
    ghost var strayed: bool

    predicate Valid()
      reads this
    {
      position <= |buf| <= ISIZE_MAX
    }

    constructor (buf: seq<byte>, checked: bool)
      requires |buf| <= ISIZE_MAX
      ensures Valid() && this.buf == buf && this.checked == checked && position == 0 && !strayed
    {
      this.buf, this.checked, position, strayed := buf, checked, 0, false;
    }

    /** An unchecked reader strays exactly where a checked one reports the end of the buffer. */
    twostate predicate Stays<T>(r: Parsed<T>)
      reads this
    {
      strayed == (old(strayed) || (!checked && r == Err(Eof)))
    }

    /**
     `read_exact`, `unwire_slice`, `sync_unwire_u64` and the like.  The unchecked forms look at no
     length; nothing is defined about a run once one has left the buffer, so the model only records
     it and ends there.
     */
    method ReadExact(n: nat) returns (r: Parsed<seq<byte>>)
      requires Valid()
      modifies this
      ensures Valid() && r == Read(buf, old(position), n) && (r.Ok? ==> position == r.pos)
      ensures Stays(r)
    {
      if n > |buf| - position {
        strayed := strayed || !checked;
        return Err(Eof);
      }
      r := Ok(buf[position..position + n], position + n);
      position := position + n;
    }

    method ReadUint(w: nat) returns (r: Parsed<nat>)
      requires Valid()
      modifies this
      ensures Valid() && r == ReadInt(buf, old(position), w) && (r.Ok? ==> position == r.pos)
      ensures Stays(r)
    {
      var s := ReadExact(w);
      match s
      case Ok(bytes, p) => r := Ok(DecodeInt(bytes), p);
      case Err(e) => r := Err(e);
    }

    method AdvancePosition(n: nat) returns (r: Scanned)
      requires Valid() && checked
      modifies this
      ensures Valid() && r == Skip(buf, old(position), n) && (r.Ok? ==> position == r.pos)
    {
      if n > |buf| - position { return Err(Eof); }
      position := position + n;
      r := Ok((), position);
    }

    /** `sync_unwiring` */
    method Unwiring(t: Ty) returns (r: Parsed<Value>)
      requires Valid()
      modifies this
      ensures Valid() && r == Decode(t, buf, old(position)) && (r.Ok? ==> position == r.pos)
      ensures Stays(r)
      decreases t, 0, 0
    {
      match t
      case TInt(w, _) => r := UnwiringWidth(w);
      case TFloat(w) => r := UnwiringWidth(w);
      case TBool =>
        var n := ReadUint(1);
        r := if n.Ok? then Ok(VBool(n.value != 0), position) else Err(n.error);
      case TUnit => r := UnwiringUnit();
      case TUnitStruct => r := UnwiringUnit();
      case TString => r := UnwiringString();
      case TOption(e) =>
        var n := ReadUint(1);
        if n.Err? { return Err(n.error); }
        match n.value {
          case 0 => return Ok(VNone, position);
          case 1 =>
            var v := Unwiring(e);
            r := if v.Ok? then Ok(VSome(v.value), position) else Err(v.error);
          case _ => return Err(Invalid);
        }
      case TVec(e) =>
        var n := ReadUint(8);
        if n.Err? { return Err(n.error); }
        var vs, _ := UnwiringElements(e, n.value);
        r := AsList(vs);
      case TArray(e, n) =>
        var vs, _ := UnwiringElements(e, n);
        r := AsList(vs);
      case TTuple(ts) =>
        var vs := UnwiringFields(ts);
        r := AsList(vs);
      case TStruct(ts, _) =>
        var vs := UnwiringFields(ts);
        r := AsList(vs);
      case TEnum(tag, variants) =>
        var n := ReadUint(tag);
        if n.Err? { return Err(n.error); }
        if n.value >= |variants| { return Err(Invalid); }
        var vs := UnwiringFields(variants[n.value].fields);
        r := if vs.Ok? then Ok(VVariant(n.value, vs.value), position) else Err(vs.error);
    }

    method UnwiringWidth(w: nat) returns (r: Parsed<Value>)
      requires Valid()
      modifies this
      ensures Valid() && r == DecodeWidth(buf, old(position), w) && (r.Ok? ==> position == r.pos)
      ensures Stays(r)
    {
      var n := ReadUint(w);
      r := if n.Ok? then Ok(VInt(n.value), position) else Err(n.error);
    }

    method UnwiringUnit() returns (r: Parsed<Value>)
      requires Valid()
      modifies this
      ensures Valid() && r == DecodeUnit(buf, old(position)) && (r.Ok? ==> position == r.pos)
      ensures Stays(r)
    {
      var n := ReadUint(1);
      if n.Err? { return Err(n.error); }
      r := if n.value == 0 then Ok(VUnit, position) else Err(Invalid);
    }

    method UnwiringString() returns (r: Parsed<Value>)
      requires Valid()
      modifies this
      ensures Valid() && r == Decode(TString, buf, old(position)) && (r.Ok? ==> position == r.pos)
      ensures Stays(r)
    {
      var n := ReadUint(8);
      if n.Err? { return Err(n.error); }
      var s := ReadExact(n.value);
      if s.Err? { return Err(s.error); }
      r := if ValidUtf8(s.value) then Ok(VString(s.value), position) else Err(Invalid);
    }

    /**
     `sync_unwiring_vec` behind its length, `sync_unwiring_array`: what was decoded is returned,
     or dropped when a later element fails.
     */
    method UnwiringElements(t: Ty, n: nat) returns (r: Parsed<seq<Value>>, dropped: seq<Value>)
      requires Valid()
      modifies this
      ensures Valid() && r == DecodeAll(t, n, buf, old(position)) && (r.Ok? ==> position == r.pos)
      ensures Stays(r)
      ensures if r.Ok? then dropped == [] else dropped == Built(t, n, buf, old(position))
      decreases t, 1, 0
    {
      ghost var start := position;
      ProgressStarts(t, n, buf, start);
      var v := new SafeInit(n);
      var i := 0;
      while i < n
        invariant 0 <= i <= n && Valid() && v.Valid() && fresh(v) && fresh(v.slots) && v.slots.Length == n
        invariant i == v.initializedCount
        invariant Progress(t, n, buf, start, v.Contents(), position) && strayed == old(strayed)
      {
        ghost var at := position;
        ProgressGoesOn(t, n, buf, start, v.Contents(), at, Decode(t, buf, at));
        var x := Unwiring(t);
        if x.Err? {
          dropped := v.Drop();
          return Err(x.error), dropped;
        }
        v.Put(x.value);
        i := i + 1;
      }
      var vs := v.Take();
      assert vs + [] == vs;
      dropped := v.Drop();
      r := Ok(vs, position);
    }

    method UnwiringFields(ts: seq<Ty>) returns (r: Parsed<seq<Value>>)
      requires Valid()
      modifies this
      ensures Valid() && r == DecodeFields(ts, buf, old(position)) && (r.Ok? ==> position == r.pos)
      ensures Stays(r)
      decreases ts, 0, 0
    {
      if ts == [] { return Ok([], position); }
      var v := Unwiring(ts[0]);
      if v.Err? { return Err(v.error); }
      var vs := UnwiringFields(ts[1..]);
      r := if vs.Ok? then Ok([v.value] + vs.value, position) else Err(vs.error);
    }

    /**
     `bytes_length(wire, count)`: passes over `count` values and returns how many bytes that were.
     Only ever called on a checked slice.  All arithmetic is that of u64s.
     */
    method BytesLength(t: Ty, count: nat) returns (r: Parsed<nat>)
      requires Valid() && checked
      modifies this
      ensures Valid() && r == Measured(ScanAll(t, count, buf, old(position)), old(position))
      ensures r.Ok? ==> position == r.pos
      decreases t, 2
    {
      if IsFlat(t) {
        var len := Wrap(FlatSize(t) * count);
        var s := AdvancePosition(len);
        r := if s.Ok? then Ok(len, position) else Err(s.error);
      } else if t.TArray? {
        r := BytesLength(t.elem, Wrap(t.len * count));
      } else {
        r := LoopLength(t, count);
      }
    }

    /** The types that have to look at each value: the lengths of their heads are added up front. */
    method LoopLength(t: Ty, count: nat) returns (r: Parsed<nat>)
      requires Valid() && checked && !IsFlat(t) && !t.TArray?
      modifies this
      ensures Valid() && r == Measured(ScanEach(t, count, buf, old(position)), old(position))
      ensures r.Ok? ==> position == r.pos
      decreases t, 1
    {
      ghost var start := position;
      var total := Wrap(HeadSize(t) * count);
      CountStarts(t, count, buf, start);
      ghost var todo := count;
      for i := 0 to count
        invariant Valid() && todo == count - i
        invariant Counted(t, count, buf, start, todo, position, total)
      {
        ghost var at, before := position, total;
        var len := BodyLength(t);
        FirstOfEach(t, todo, buf, at, len);
        if len.Err? { return Err(len.error); }
        CountOne(t, count, buf, start, todo, at, before, len);
        total := Wrap(total + len.value);
        todo := todo - 1;
      }
      CountEnds(t, count, buf, start, position, total);
      r := Ok(total, position);
    }

    /** One pass through the loop: the length of a value without its head. */
    method BodyLength(t: Ty) returns (r: Parsed<nat>)
      requires Valid() && checked && !IsFlat(t) && !t.TArray?
      modifies this
      ensures Valid() && IsBody(t, buf, old(position), r)
      ensures r.Ok? ==> position == r.pos
      decreases t, 0
    {
      HeadIsScanned(t, buf, position);
      match t
      case TString =>
        var n := ReadUint(8);
        if n.Err? { return Err(n.error); }
        var s := AdvancePosition(n.value);
        r := if s.Ok? then Ok(n.value, position) else Err(s.error);
      case TOption(e) =>
        var n := ReadUint(1);
        if n.Err? { return Err(n.error); }
        if n.value != 1 { return Ok(0, position); }
        r := BytesLength(e, 1);
      case TVec(e) =>
        var n := ReadUint(8);
        if n.Err? { return Err(n.error); }
        if !UnwireMixed(e) {
          var len := Wrap(UnwireSize(e) * n.value);
          var s := AdvancePosition(len);
          r := if s.Ok? then Ok(len, position) else Err(s.error);
        } else {
          r := BytesLength(e, n.value);
        }
      case TTuple(ts) => r := FieldsLength(ts);
      case TStruct(ts, _) => r := FieldsLength(ts);
      case TEnum(tag, variants) =>
        var n := ReadUint(tag);
        if n.Err? { return Err(n.error); }
        if n.value >= |variants| { return Err(Invalid); }
        r := FieldsLength(variants[n.value].fields);
    }

    method FieldsLength(ts: seq<Ty>) returns (r: Parsed<nat>)
      requires Valid() && checked
      modifies this
      ensures Valid() && r == Measured(ScanFields(ts, buf, old(position)), old(position))
      ensures r.Ok? ==> position == r.pos
      decreases ts, 0
    {
      if ts == [] { return Ok(0, position); }
      var first := BytesLength(ts[0], 1);
      if first.Err? { return first; }
      var rest := FieldsLength(ts[1..]);
      r := if rest.Ok? then Ok(first.value + rest.value, position) else rest;
    }
  }

  // ----- the loop over elements -----

  /** `vs` stand decoded, the reader is at `pos`, and what is left decides about the whole. */
  ghost predicate Progress(t: Ty, n: nat, b: seq<byte>, start: nat, vs: seq<Value>, pos: nat) {
    && start <= |b| && pos <= |b| && |vs| <= n
    && DecodeAll(t, n, b, start) == Prepend(vs, DecodeAll(t, n - |vs|, b, pos))
    && Built(t, n, b, start) == vs + Built(t, n - |vs|, b, pos)
  }

  lemma ProgressStarts(t: Ty, n: nat, b: seq<byte>, start: nat)
    requires start <= |b|
    ensures Progress(t, n, b, start, [], start)
  {
    var rest := DecodeAll(t, n, b, start);
    if rest.Ok? { assert [] + rest.value == rest.value; }
  }

  lemma ProgressGoesOn(t: Ty, n: nat, b: seq<byte>, start: nat, vs: seq<Value>, pos: nat, x: Parsed<Value>)
    requires Progress(t, n, b, start, vs, pos) && |vs| < n && x == Decode(t, b, pos)
    ensures x.Ok? ==> Progress(t, n, b, start, vs + [x.value], x.pos)
    ensures x.Err? ==> DecodeAll(t, n, b, start) == Err(x.error) && Built(t, n, b, start) == vs
  {
    if x.Ok? { Shift(t, n - |vs|, b, pos, vs); }
  }

  function Prepend(vs: seq<Value>, r: Parsed<seq<Value>>): Parsed<seq<Value>> {
    if r.Ok? then Ok(vs + r.value, r.pos) else r
  }

  lemma Shift(t: Ty, m: nat, b: seq<byte>, pos: nat, vs: seq<Value>)
    requires m > 0 && pos <= |b| && Decode(t, b, pos).Ok?
    ensures var x := Decode(t, b, pos);
      && Prepend(vs, DecodeAll(t, m, b, pos)) == Prepend(vs + [x.value], DecodeAll(t, m - 1, b, x.pos))
      && vs + Built(t, m, b, pos) == vs + [x.value] + Built(t, m - 1, b, x.pos)
  {
    var x := Decode(t, b, pos);
    var rest := DecodeAll(t, m - 1, b, x.pos);
    if rest.Ok? { assert vs + ([x.value] + rest.value) == vs + [x.value] + rest.value; }
  }

  // ----- the buffer reader -----

  /** The bounds check of `UnsafeReader::sync_unwire`: the scan starts at the front of the buffer. */
  function Guard(t: Ty, b: seq<byte>, pos: nat): Parsed<()> {
    match Scan(t, b, 0)
    case Ok(_, len) => if pos + len <= |b| then Ok((), len) else Err(OutOfBounds)
    case Err(e) => Err(e)
  }

  /** No unchecked read behind the guard leaves the buffer. */
  predicate StaysInside(t: Ty, b: seq<byte>, pos: nat)
    requires pos <= |b|
  {
    Guard(t, b, pos).Ok? ==> Decode(t, b, pos) != Err(Eof)
  }

  /** What `BufUnWire::unwire` returns, as far as it stays inside the buffer. */
  function Unwired(t: Ty, b: seq<byte>, pos: nat): (r: Parsed<Value>)
    requires pos <= |b|
  {
    match Guard(t, b, pos)
    case Ok(_, _) => Decode(t, b, pos)
    case Err(e) => Err(e)
  }

  class BufUnWire {
    const reader: Reader

    ghost predicate Valid()
      reads this, reader
    {
      reader.Valid() && !reader.checked
    }

    constructor (buf: seq<byte>)
      requires |buf| <= ISIZE_MAX
      ensures Valid() && fresh(reader) && reader.buf == buf && reader.position == 0 && !reader.strayed
    {
      reader := new Reader(buf, false);
    }

    method Unwire(t: Ty) returns (r: Parsed<Value>)
      requires Valid()
      modifies reader
      ensures Valid() && r == Unwired(t, reader.buf, old(reader.position))
      ensures r.Ok? ==> reader.position == r.pos
      ensures reader.strayed <==> old(reader.strayed) || !StaysInside(t, reader.buf, old(reader.position))
    {
      var pos := reader.position;
      var temp := new Reader(reader.buf, true);
      var len := temp.BytesLength(t, 1);
      if len.Err? { return Err(len.error); }
      if pos + len.value <= |reader.buf| {
        reader.position := pos;
        r := reader.Unwiring(t);
      } else {
        r := Err(OutOfBounds);
      }
    }
  }
}
