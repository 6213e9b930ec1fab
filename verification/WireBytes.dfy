/** What stands where on the wire, byte by byte. */
module WireBytes {
  import opened Bytes
  import opened WireTypes
  import opened Codec
  import opened Events

  // ----- integers and lengths, for all values -----

  /** Byte `i` of an integer of `w` bytes, the most significant one first. */
  function ByteOf(w: nat, n: nat, i: nat): nat
    requires i < w
  {
    (n / Pow256(w - 1 - i)) % 256
  }

  lemma IntegerBytes(w: nat, signed: bool, n: nat, i: nat)
    requires i < w
    ensures Encode(TInt(w, signed), VInt(n))[i] == Encode(TFloat(w), VInt(n))[i] == ByteOf(w, n, i)
  {
    BigEndian(w, n, i);
  }

  /** Eight bytes of length stand in front of strings and vectors, ... */
  lemma LengthBytes(e: Ty, vs: seq<Value>, s: seq<byte>, i: nat)
    requires i < 8
    ensures Encode(TVec(e), VList(vs))[i] == ByteOf(8, |vs|, i)
    ensures Encode(TString, VString(s))[i] == ByteOf(8, |s|, i) && Encode(TString, VString(s))[8..] == s
  {
    BigEndian(8, |vs|, i);
    BigEndian(8, |s|, i);
  }

  /** ... and the number of the variant, as wide as its tag, in front of its fields. */
  lemma TagBytes(t: Ty, v: Value, i: nat)
    requires t.TEnum? && HasType(t, v) && i < t.tag
    ensures Encode(t, v)[i] == ByteOf(t.tag, v.index, i)
  {
    BigEndian(t.tag, v.index, i);
  }

  /** An integer that is read is the sum of its bytes by their place. */
  function Placed(s: seq<byte>): nat {
    if s == [] then 0 else s[0] * Pow256(|s| - 1) + Placed(s[1..])
  }

  lemma Shifted(x: nat, p: nat, m: nat, r: nat)
    ensures 256 * (x * p + m) + r == x * (256 * p) + (256 * m + r)
  {
  }

  lemma {:induction false} PlacedBehind(s: seq<byte>, x: byte)
    ensures Placed(s + [x]) == 256 * Placed(s) + x
  {
    if s == [] {
      assert s + [x] == [x] && [x][1..] == [];
      assert Placed([x]) == x * Pow256(0) + Placed([]);
    } else {
      PlacedBehind(s[1..], x);
      assert (s + [x])[1..] == s[1..] + [x];
      Shifted(s[0], Pow256(|s| - 1), Placed(s[1..]), x);
    }
  }

  lemma {:induction false} IntegerRead(s: seq<byte>)
    ensures DecodeInt(s) == Placed(s)
  {
    if s != [] {
      var front, last := s[..|s| - 1], s[|s| - 1];
      IntegerRead(front);
      PlacedBehind(front, last);
      assert front + [last] == s;
    }
  }

  // ----- the bytes of some values -----

  /** A number below 256 in `w` bytes. */
  function Small(w: nat, n: byte): seq<byte>
    requires w > 0
  {
    Zeros(w - 1) + [n]
  }

  lemma SmallInt(w: nat, n: byte)
    requires w > 0
    ensures EncodeInt(w, n) == Small(w, n)
  {
    assert n / 256 == 0 && n % 256 == n;
    ZeroInt(w - 1);
  }

  lemma OneByte(n: byte)
    ensures EncodeInt(1, n) == [n]
  {
    assert n / 256 == 0 && n % 256 == n && EncodeInt(0, 0) == [];
  }

  lemma TwoBytes(m: byte, n: byte)
    ensures EncodeInt(2, 256 * m + n) == [m, n]
  {
    assert (256 * m + n) / 256 == m && (256 * m + n) % 256 == n;
    OneByte(m);
  }

  lemma FourBytes(k: byte, l: byte, m: byte, n: byte)
    ensures EncodeInt(4, ((k * 256 + l) * 256 + m) * 256 + n) == [k, l, m, n]
  {
    var x, y := (k * 256 + l) * 256 + m, k * 256 + l;
    assert (x * 256 + n) / 256 == x && (x * 256 + n) % 256 == n;
    assert x / 256 == y && x % 256 == m;
    TwoBytes(k, l);
  }

  /** 258 as a u16, -2 as an i32 and 1.0 as an f32 by their bits, the two booleans, a unit and a unit struct. */
  lemma ScalarBytes()
    ensures Encode(TInt(2, false), VInt(258)) == [1, 2]
    ensures Encode(TInt(4, true), VInt(0xFFFF_FFFE)) == [0xFF, 0xFF, 0xFF, 0xFE]
    ensures Encode(TFloat(4), VInt(0x3F80_0000)) == [0x3F, 0x80, 0, 0]
    ensures Encode(TBool, VBool(true)) == [1] && Encode(TBool, VBool(false)) == [0]
    ensures Encode(TUnit, VUnit) == [0] && Encode(TUnitStruct, VUnit) == [0]
  {
    TwoBytes(1, 2);
    FourBytes(0xFF, 0xFF, 0xFF, 0xFE);
    FourBytes(0x3F, 0x80, 0, 0);
  }

  /** The string "A", a missing and a present byte. */
  lemma OptionBytes()
    ensures Encode(TString, VString([0x41])) == Small(8, 1) + [0x41]
    ensures Encode(TOption(TInt(1, false)), VNone) == [0]
    ensures Encode(TOption(TInt(1, false)), VSome(VInt(7))) == [1, 7]
  {
    SmallInt(8, 1);
    OneByte(7);
    assert [1] + [7] == [1, 7];
  }

  lemma PairOfBytes(x: byte, y: byte)
    ensures EncodeAll(TInt(1, false), [VInt(x), VInt(y)]) == [x, y]
    ensures EncodeFields([TInt(1, false), TInt(1, false)], [VInt(x), VInt(y)]) == [x, y]
  {
    OneByte(x);
    OneByte(y);
    var t, vs := TInt(1, false), [VInt(x), VInt(y)];
    var ts := [t, t];
    assert vs[1..] == [VInt(y)] && ts[1..] == [t];
    EncodeOne(t, VInt(y));
    assert [VInt(y)][1..] == [] && [t][1..] == [];
    assert EncodeFields([t], [VInt(y)]) == [y] + EncodeFields([], []) == [y];
    assert [x] + [y] == [x, y];
  }

  /** Two bytes as a vector, an array, a pair and a struct. */
  lemma CompoundBytes(x: byte, y: byte)
    ensures var t, vs := TInt(1, false), [VInt(x), VInt(y)];
      && Encode(TVec(t), VList(vs)) == Small(8, 2) + [x, y]
      && Encode(TArray(t, 2), VList(vs)) == [x, y]
      && Encode(TTuple([t, t]), VList(vs)) == Encode(TStruct([t, t], false), VList(vs)) == [x, y]
  {
    PairOfBytes(x, y);
    SmallInt(8, 2);
  }

  /** They follow the number of their variant, in the width of its tag. */
  lemma VariantBytes(x: byte, y: byte)
    ensures var t, vs := TInt(1, false), [VInt(x), VInt(y)];
      Encode(TEnum(2, [Variant(true, []), Variant(false, [t, t])]), VVariant(1, vs)) == [0, 1] + [x, y]
  {
    PairOfBytes(x, y);
    TwoBytes(0, 1);
  }

  // ----- the bytes of frames and events -----

  /** The message 9 and the drop of stream 5; the flag is the one that is written. */
  lemma FrameBytes(t: EventTy, last: nat)
    ensures EncodeFrame(t, MessageFrame(5, true, [9]), last) == [1] + (Small(8, 5) + ([1] + (Small(8, 1) + [9])))
    ensures EncodeFrame(t, DropFrame(5, false), last) == [2] + (Small(8, 5) + [0])
  {
    SmallInt(8, 5);
    SmallInt(8, 1);
  }

  /** An event of a channel, a byte and another channel, when stream 3 was the last one. */
  lemma EventBytes()
    ensures var t := Fields([Channel, Plain(TInt(1, false)), Channel]);
      var e := FieldsEvent([ChannelEvent, PlainEvent(VInt(7)), ChannelEvent]);
      EncodeFrame(t, EventFrame(e), 3) == [0] + (Small(8, 4) + ([7] + Small(8, 5)))
  {
    var p, x := Plain(TInt(1, false)), PlainEvent(VInt(7));
    OneByte(7);
    LastChannelBytes(p, x);
    SmallInt(8, 4);
    var t2, e2 := [p, Channel], [x, ChannelEvent];
    var t3, e3 := [Channel, p, Channel], [ChannelEvent, x, ChannelEvent];
    assert t3[1..] == t2 && e3[1..] == e2;
  }

  lemma LastChannelBytes(p: EventTy, x: Event)
    requires Leaves(x) == 0
    ensures EncodeEventFields([p, Channel], [x, ChannelEvent], 4) == EncodeEvent(p, x, 4) + Small(8, 5)
  {
    var t1, e1 := [Channel], [ChannelEvent];
    var t2, e2 := [p, Channel], [x, ChannelEvent];
    assert t1[1..] == [] && e1[1..] == [] && t2[1..] == t1 && e2[1..] == e1;
    SmallInt(8, 5);
    assert EncodeEventFields(t1, e1, 4) == EncodeInt(8, 5) + EncodeEventFields([], [], 5) == Small(8, 5);
  }
}
