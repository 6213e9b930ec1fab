/** The encodings of default values: nothing but zeros. */
module ZeroValues {
  import opened Bytes
  import opened Sums
  import opened WireTypes
  import opened Codec

  lemma ZerosJoin(s: seq<byte>, t: seq<byte>)
    requires IsZeros(s) && IsZeros(t)
    ensures IsZeros(s + t)
  {
  }

  lemma {:induction false} DefaultIsZeros(t: Ty)
    requires Valid(t)
    ensures IsZeros(Encode(t, Default(t)))
    decreases t, 1, 0
  {
    match t
    case TInt(w, _) => ZeroInt(w);
    case TFloat(w) => ZeroInt(w);
    case TString => ZeroInt(8);
    case TVec(_) => ZeroInt(8);
    case TArray(e, n) => RepeatIsZeros(e, n);
    case TTuple(ts) => DefaultsAreZeros(ts);
    case TStruct(ts, _) => DefaultsAreZeros(ts);
    case TEnum(tag, variants) =>
      ZeroInt(tag);
      DefaultsAreZeros(variants[0].fields);
      ZerosJoin(EncodeInt(tag, 0), EncodeFields(variants[0].fields, Defaults(variants[0].fields)));
    case _ =>
  }

  lemma {:induction false} RepeatIsZeros(t: Ty, n: nat)
    requires Valid(t)
    ensures IsZeros(EncodeAll(t, Repeat(t, Default(t), n)))
    decreases t, 1, n + 1
  {
    if n > 0 {
      DefaultIsZeros(t);
      RepeatIsZeros(t, n - 1);
      assert Repeat(t, Default(t), n)[1..] == Repeat(t, Default(t), n - 1);
      ZerosJoin(Encode(t, Default(t)), EncodeAll(t, Repeat(t, Default(t), n - 1)));
    }
  }

  lemma {:induction false} DefaultsAreZeros(ts: seq<Ty>)
    requires AllValid(ts)
    ensures IsZeros(EncodeFields(ts, Defaults(ts)))
    decreases ts, 0, 0
  {
    if ts != [] {
      DefaultIsZeros(ts[0]);
      DefaultsAreZeros(ts[1..]);
      assert Defaults(ts)[1..] == Defaults(ts[1..]);
      ZerosJoin(Encode(ts[0], Default(ts[0])), EncodeFields(ts[1..], Defaults(ts[1..])));
    }
  }

  function DefaultSize(t: Ty): nat
    requires Valid(t)
  {
    |Encode(t, Default(t))|
  }

  function DefaultSizes(ts: seq<Ty>): nat
    requires AllValid(ts)
  {
    |EncodeFields(ts, Defaults(ts))|
  }

  lemma DefaultBytes(t: Ty)
    requires Valid(t)
    ensures Encode(t, Default(t)) == Zeros(DefaultSize(t))
    ensures !Empty(t) ==> DefaultSize(t) > 0
  {
    DefaultIsZeros(t);
    ZerosIff(Encode(t, Default(t)));
    EmptyEncoding(t, Default(t));
  }

  lemma {:induction false} RepeatBytes(t: Ty, n: nat)
    requires Valid(t)
    ensures EncodeAll(t, Repeat(t, Default(t), n)) == Zeros(Sum(DefaultSize(t), n))
  {
    RepeatIsZeros(t, n);
    ZerosIff(EncodeAll(t, Repeat(t, Default(t), n)));
    RepeatSize(t, n);
  }

  lemma {:induction false} RepeatSize(t: Ty, n: nat)
    requires Valid(t)
    ensures |EncodeAll(t, Repeat(t, Default(t), n))| == Sum(DefaultSize(t), n)
  {
    if n > 0 {
      RepeatSize(t, n - 1);
      assert Repeat(t, Default(t), n)[1..] == Repeat(t, Default(t), n - 1);
    }
  }

  lemma DefaultsBytes(ts: seq<Ty>)
    requires AllValid(ts)
    ensures EncodeFields(ts, Defaults(ts)) == Zeros(DefaultSizes(ts))
    ensures ts != [] ==> DefaultSizes(ts) == DefaultSize(ts[0]) + DefaultSizes(ts[1..])
  {
    DefaultsAreZeros(ts);
    ZerosIff(EncodeFields(ts, Defaults(ts)));
    if ts != [] { assert Defaults(ts)[1..] == Defaults(ts[1..]); }
  }

  lemma ArraySize(e: Ty, n: nat)
    requires Valid(e)
    ensures DefaultSize(TArray(e, n)) == Sum(DefaultSize(e), n)
  {
    RepeatSize(e, n);
  }

  lemma EnumSize(t: Ty)
    requires t.TEnum? && Valid(t)
    ensures DefaultSize(t) == t.tag + DefaultSizes(t.variants[0].fields)
  {
  }
}
