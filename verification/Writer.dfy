/** The in-memory writer of wire.rs: a growing byte buffer and the encoders writing to it. */
module Writer {
  import opened Bytes
  import opened WireTypes
  import opened Codec
  import opened ConcatArray
  import opened RawCopies
  import opened Containment

  /** A `Vec<u8>`: the first `len` bytes of an allocation.  `log` remembers the writes. */
  class VecBuf {
    var data: array<byte>
    var len: nat
    ghost var log: seq<Write>

    ghost predicate Valid()
      reads this
    {
      len <= data.Length
    }

    ghost function Contents(): seq<byte>
      requires Valid()
      reads this, data
    {
      data[..len]
    }

    /** `bytes` were appended and nothing else changed; the allocation never shrinks. */
    twostate predicate Appended(bytes: seq<byte>)
      requires old(Valid())
      reads this, data
    {
      && Valid() && Contents() == old(Contents()) + bytes
      && data.Length >= old(data.Length) && (data == old(data) || fresh(data))
    }

    /** On an `Unchecked` wire exactly the writes `ws` were made. */
    twostate predicate Logged(unchecked: bool, ws: seq<Write>)
      reads this
    {
      unchecked ==> log == old(log) + ws
    }

    /** The raw copies among `ws` end within the allocation. */
    ghost predicate Room(ws: seq<Write>)
      reads this
    {
      Valid() && len + LastRaw(ws) <= data.Length
    }

    /** `v` can be written here: wrapped, with room for its raw copies, or unwrapped, if each slice makes enough. */
    ghost predicate MayWrite(t: Ty, v: Value, unchecked: bool)
      reads this
    {
      WireTypes.Valid(t) && HasType(t, v) && if unchecked then Room(WritesOf(t, v)) else Contained(t, v)
    }

    ghost predicate MayWriteAll(t: Ty, vs: seq<Value>, unchecked: bool)
      reads this
    {
      WireTypes.Valid(t) && AllHaveType(t, vs) && if unchecked then Room(WritesOfAll(t, vs)) else AllContained(t, vs)
    }

    /** The first one may be written, and leaves what the others need. */
    lemma MayWriteFirst(t: Ty, vs: seq<Value>, unchecked: bool)
      requires Valid() && MayWriteAll(t, vs, unchecked) && vs != []
      ensures MayWrite(t, vs[0], unchecked) && AllHaveType(t, vs[1..]) && (!unchecked ==> AllContained(t, vs[1..]))
      ensures var more := LastRaw(WritesOfAll(t, vs[1..]));
        unchecked && more > 0 ==> len + |Encode(t, vs[0])| + more <= data.Length
    {
      SizeIsEncoding(t, vs[0]);
      if unchecked { RoomSplit(WritesOf(t, vs[0]), WritesOfAll(t, vs[1..]), len, data.Length); }
    }

    constructor ()
      ensures Valid() && fresh(data) && Contents() == []
    {
      data := new byte[0];
      len := 0;
      log := [];
    }

    /** `BufWire::new`: the length is reset, the allocation kept. */
    method Clear()
      requires Valid()
      modifies this`len
      ensures Valid() && Contents() == []
    {
      len := 0;
    }

    /** `Vec::reserve` */
    method Reserve(add: nat)
      requires Valid()
      modifies this
      ensures Appended([]) && len == old(len) && log == old(log) && data.Length - len >= add
    {
      if data.Length - len < add {
        var grown := new byte[len + add + data.Length](_ => 0);
        var i := 0;
        while i < len
          invariant 0 <= i <= len && grown[..i] == data[..i]
          modifies grown
        {
          grown[i] := data[i];
          i := i + 1;
        }
        data := grown;
      }
    }

    /** `sync_wire_all::<CHECK>`: the unchecked form copies behind the end and must have the room. */
    method SyncWireAll(bytes: seq<byte>, check: bool)
      requires Valid() && (check || len + |bytes| <= data.Length)
      modifies this, data
      ensures Appended(bytes) && len == old(len) + |bytes| && log == old(log) + [Write(!check, |bytes|)]
    {
      if check { Reserve(|bytes|); }
      var i := 0;
      ghost var was := data[..len];
      while i < |bytes|
        invariant 0 <= i <= |bytes| && data[..len + i] == was + bytes[..i]
        modifies data
      {
        data[len + i] := bytes[i];
        i := i + 1;
      }
      len := len + |bytes|;
      log := log + [Write(!check, |bytes|)];
    }

    /**
     `sync_wiring`, on the buffer itself or, `unchecked`, on its `Unchecked` wrapper.  Wrapped, the
     caller must have made room for the raw copies; unwrapped, each slice must for its own.
     */
    method Wiring(t: Ty, v: Value, unchecked: bool)
      requires Valid() && MayWrite(t, v, unchecked)
      modifies this, data
      ensures Appended(Encode(t, v)) && Logged(unchecked, WritesOf(t, v))
      decreases t, 1, 0
    {
      match t
      case TString => WiringBytes(v.bytes, unchecked);
      case TOption(e) => WiringOption(e, v, unchecked);
      case TVec(e) => WiringSlice(e, v.vs, unchecked);
      case TArray(e, n) => WiringArray(e, v.vs, unchecked);
      case TTuple(ts) => WiringFields(ts, v.vs, unchecked);
      case TStruct(ts, group) =>
        if group { WiringGroup(ts, v.vs, unchecked); } else { WiringFields(ts, v.vs, unchecked); }
      case TEnum(tag, variants) => WiringVariant(tag, v.index, variants[v.index].fields, v.vs, unchecked);
      case _ =>
        One(Write(!AlwaysChecked(t), |Encode(t, v)|));
        SyncWireAll(Encode(t, v), !unchecked || AlwaysChecked(t));
    }

    /** A group of fixed fields: a buffer of zeros is filled by `concat_array` and written in one go. */
    method WiringGroup(ts: seq<Ty>, vs: seq<Value>, unchecked: bool)
      requires Valid() && AllEligible(ts, true) && FieldsHaveType(ts, vs)
      requires unchecked ==> Room([Write(true, |EncodeFields(ts, vs)|)])
      modifies this, data
      ensures Appended(EncodeFields(ts, vs)) && Logged(unchecked, [Write(true, |EncodeFields(ts, vs)|)])
    {
      One(Write(true, |EncodeFields(ts, vs)|));
      var bytes := GroupBytes(ts, vs);
      SyncWireAll(bytes, !unchecked);
    }

    method WiringBytes(bytes: seq<byte>, unchecked: bool)
      requires Valid() && (unchecked ==> Room([Write(false, 8), Write(true, |bytes|)]))
      modifies this, data
      ensures Appended(EncodeInt(8, |bytes|) + bytes)
      ensures Logged(unchecked, [Write(false, 8), Write(true, |bytes|)])
    {
      TwoWrites(Write(false, 8), Write(true, |bytes|));
      SyncWireAll(EncodeInt(8, |bytes|), true);
      SyncWireAll(bytes, !unchecked);
    }

    method WiringOption(e: Ty, v: Value, unchecked: bool)
      requires Valid() && WireTypes.Valid(e) && HasType(TOption(e), v)
      requires if unchecked then Room(WritesOf(TOption(e), v)) else Contained(TOption(e), v)
      modifies this, data
      ensures Appended(Encode(TOption(e), v)) && Logged(unchecked, WritesOf(TOption(e), v))
      decreases e, 2, 0
    {
      ghost var tag := Write(true, 1);
      One(tag);
      if v.VSome? {
        if unchecked { RoomSplit([tag], WritesOf(e, v.v), len, data.Length); }
        Assoc(Contents(), [1], Encode(e, v.v));
        LogAssoc(log, [tag], WritesOf(e, v.v));
        SyncWireAll([1], !unchecked);
        Wiring(e, v.v, unchecked);
      } else {
        SyncWireAll([0], !unchecked);
      }
    }

    method WiringVariant(tag: nat, i: nat, ts: seq<Ty>, vs: seq<Value>, unchecked: bool)
      requires Valid() && AllValid(ts) && FieldsHaveType(ts, vs)
      requires if unchecked then Room([Write(true, tag)] + WritesOfFields(ts, vs)) else FieldsContained(ts, vs)
      modifies this, data
      ensures Appended(EncodeInt(tag, i) + EncodeFields(ts, vs))
      ensures Logged(unchecked, [Write(true, tag)] + WritesOfFields(ts, vs))
      decreases ts, 1, 0
    {
      One(Write(true, tag));
      if unchecked { RoomSplit([Write(true, tag)], WritesOfFields(ts, vs), len, data.Length); }
      Assoc(Contents(), EncodeInt(tag, i), EncodeFields(ts, vs));
      LogAssoc(log, [Write(true, tag)], WritesOfFields(ts, vs));
      SyncWireAll(EncodeInt(tag, i), !unchecked);
      WiringFields(ts, vs, unchecked);
    }

    /** `sync_wiring_array`; the forms of u8 and u32 are one write. */
    method WiringArray(e: Ty, vs: seq<Value>, unchecked: bool)
      requires Valid() && WireTypes.Valid(e) && AllHaveType(e, vs)
      requires if unchecked then Room(WritesOf(TArray(e, |vs|), VList(vs))) else AllContained(e, vs)
      modifies this, data
      ensures Appended(EncodeAll(e, vs)) && Logged(unchecked, WritesOf(TArray(e, |vs|), VList(vs)))
      decreases e, 3, 0
    {
      if e == TInt(1, false) || e == TInt(4, false) {
        One(Write(true, |EncodeAll(e, vs)|));
        SyncWireAll(EncodeAll(e, vs), !unchecked);
      } else {
        WiringAll(e, vs, unchecked);
      }
    }

    /** `sync_wiring_slice` */
    method WiringSlice(e: Ty, vs: seq<Value>, unchecked: bool)
      requires Valid() && WireTypes.Valid(e) && AllHaveType(e, vs)
      requires if unchecked then Room([Write(false, 8)] + WritesOfSlice(e, vs)) else Contained(TVec(e), VList(vs))
      modifies this, data
      ensures Appended(EncodeInt(8, |vs|) + EncodeAll(e, vs))
      ensures Logged(unchecked, [Write(false, 8)] + WritesOfSlice(e, vs))
      decreases e, 4, 0
    {
      One(Write(false, 8));
      if unchecked { RoomSplit([Write(false, 8)], WritesOfSlice(e, vs), len, data.Length); }
      Assoc(Contents(), EncodeInt(8, |vs|), EncodeAll(e, vs));
      LogAssoc(log, [Write(false, 8)], WritesOfSlice(e, vs));
      SyncWireAll(EncodeInt(8, |vs|), true);
      WiringElements(e, vs, unchecked);
    }

    /**
     ... behind the length: the bytes of a byte slice are one write, and elements that are not
     MIXED are written on a wrapper after one reservation.
     */
    method WiringElements(e: Ty, vs: seq<Value>, unchecked: bool)
      requires Valid() && WireTypes.Valid(e) && AllHaveType(e, vs)
      requires if unchecked then Room(WritesOfSlice(e, vs)) else Contained(TVec(e), VList(vs))
      modifies this, data
      ensures Appended(EncodeAll(e, vs)) && Logged(unchecked, WritesOfSlice(e, vs))
      decreases e, 3, 0
    {
      if e == TInt(1, false) {
        One(Write(true, |EncodeAll(e, vs)|));
        SyncWireAll(EncodeAll(e, vs), !unchecked);
      } else if WireMixed(e) {
        WiringAll(e, vs, unchecked);
      } else {
        WiringFixed(e, vs, unchecked);
      }
    }

    /** Wrapped already, `reserve_capacity` does nothing. */
    method WiringFixed(e: Ty, vs: seq<Value>, unchecked: bool)
      requires Valid() && WireTypes.Valid(e) && AllHaveType(e, vs)
      requires if unchecked then Room(WritesOfAll(e, vs)) else SliceFits(e, vs)
      modifies this, data
      ensures Appended(EncodeAll(e, vs)) && Logged(unchecked, WritesOfAll(e, vs))
      decreases e, 2, 1
    {
      if !unchecked { Reserve(WireSize(e) * |vs|); }
      WiringAll(e, vs, true);
    }

    method WiringAll(t: Ty, vs: seq<Value>, unchecked: bool)
      requires Valid() && MayWriteAll(t, vs, unchecked)
      modifies this, data
      ensures Appended(EncodeAll(t, vs)) && Logged(unchecked, WritesOfAll(t, vs))
      decreases t, 2, 0
    {
      ghost var was, done := Contents(), [];
      ghost var logged, made := log, [];
      var left := vs;
      while left != []
        invariant Partly(t, vs, left, done, made) && MayWriteAll(t, left, unchecked)
        invariant Appended(done) && Logged(unchecked, made)
        decreases |left|
      {
        var v, more := left[0], left[1..];
        PartlyNext(t, vs, left, done, made);
        MayWriteFirst(t, left, unchecked);
        Wiring(t, v, unchecked);
        Assoc(was, done, Encode(t, v));
        LogAssoc(logged, made, WritesOf(t, v));
        done, made, left := done + Encode(t, v), made + WritesOf(t, v), more;
      }
    }

    method WiringFields(ts: seq<Ty>, vs: seq<Value>, unchecked: bool)
      requires Valid() && AllValid(ts) && FieldsHaveType(ts, vs)
      requires if unchecked then Room(WritesOfFields(ts, vs)) else FieldsContained(ts, vs)
      modifies this, data
      ensures Appended(EncodeFields(ts, vs)) && Logged(unchecked, WritesOfFields(ts, vs))
      decreases ts, 0, 0
    {
      if ts != [] {
        ghost var ws, more := WritesOf(ts[0], vs[0]), WritesOfFields(ts[1..], vs[1..]);
        SizeIsEncoding(ts[0], vs[0]);
        if unchecked { RoomSplit(ws, more, len, data.Length); }
        Assoc(Contents(), Encode(ts[0], vs[0]), EncodeFields(ts[1..], vs[1..]));
        LogAssoc(log, ws, more);
        Wiring(ts[0], vs[0], unchecked);
        WiringFields(ts[1..], vs[1..], unchecked);
      }
    }
  }

  /** All but `left` were written: the bytes `done`, by the writes `made`. */
  ghost predicate Partly(t: Ty, vs: seq<Value>, left: seq<Value>, done: seq<byte>, made: seq<Write>) {
    done + EncodeAll(t, left) == EncodeAll(t, vs) && made + WritesOfAll(t, left) == WritesOfAll(t, vs)
  }

  lemma PartlyNext(t: Ty, vs: seq<Value>, left: seq<Value>, done: seq<byte>, made: seq<Write>)
    requires left != [] && Partly(t, vs, left, done, made)
    ensures Partly(t, vs, left[1..], done + Encode(t, left[0]), made + WritesOf(t, left[0]))
  {
    Assoc(done, Encode(t, left[0]), EncodeAll(t, left[1..]));
    LogAssoc(made, WritesOf(t, left[0]), WritesOfAll(t, left[1..]));
  }

  lemma LogAssoc(a: seq<Write>, b: seq<Write>, c: seq<Write>)
    ensures a + (b + c) == (a + b) + c
  {
  }

  lemma TwoWrites(x: Write, y: Write)
    ensures LastRaw([x, y]) == if y.raw && y.n > 0 then x.n + y.n else if x.raw then x.n else 0
  {
    assert [x, y][1..] == [y];
    One(y);
  }
}
