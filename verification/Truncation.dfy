/** Encodings of which the end is missing. */
module Truncation {
  import opened Bytes
  import opened WireTypes
  import opened Codec

  /** `b` ends from `pos` on with a proper prefix of `s`. */
  predicate Cut(b: seq<byte>, pos: nat, s: seq<byte>) {
    pos <= |b| < pos + |s| && b[pos..] == s[..|b| - pos]
  }

  lemma CutSplit(b: seq<byte>, pos: nat, s: seq<byte>, t: seq<byte>)
    requires Cut(b, pos, s + t)
    ensures Cut(b, pos, s) || (Stands(b, pos, s) && Cut(b, pos + |s|, t))
  {
    var k := |b| - pos;
    if k < |s| {
      assert (s + t)[..k] == s[..k];
    } else {
      assert (s + t)[..k] == s + t[..k - |s|];
      assert b[pos..pos + |s|] == b[pos..][..|s|] == s;
      assert b[pos + |s|..] == b[pos..][|s|..] == t[..k - |s|];
    }
  }

  /** A truncated encoding is reported as such, never decoded to something else. */
  lemma {:induction false} TruncationIsEof(t: Ty, v: Value, b: seq<byte>, pos: nat)
    requires TagsFit(t) && HasType(t, v) && Cut(b, pos, Encode(t, v))
    ensures Decode(t, b, pos) == Err(Eof)
    decreases t, 1, 0
  {
    match t
    case TString =>
      CutSplit(b, pos, EncodeInt(8, |v.bytes|), v.bytes);
      LengthOrEof(b, pos, |v.bytes|);
    case TOption(e) => if v.VSome? { TruncatedOption(e, v, b, pos); }
    case TVec(e) => TruncatedVec(e, v.vs, b, pos);
    case TArray(e, n) =>
      assert Encode(t, v) == EncodeAll(e, v.vs) && |v.vs| == n;
      if n > 0 { TruncatedAll(e, v.vs, b, pos); }
    case TTuple(ts) => TruncatedFields(ts, v.vs, b, pos);
    case TStruct(ts, _) => TruncatedFields(ts, v.vs, b, pos);
    case TEnum(_, _) => TruncatedEnum(t, v, b, pos);
    case _ =>
  }

  lemma LengthOrEof(b: seq<byte>, pos: nat, n: nat)
    requires n < U64_LIMIT
    ensures Cut(b, pos, EncodeInt(8, n)) ==> ReadInt(b, pos, 8) == Err(Eof)
    ensures Stands(b, pos, EncodeInt(8, n)) ==> ReadInt(b, pos, 8) == Ok(n, pos + 8)
  {
    U64Limit();
    if Stands(b, pos, EncodeInt(8, n)) { ReadIntBack(b, pos, 8, n); }
  }

  lemma {:induction false} TruncatedOption(e: Ty, v: Value, b: seq<byte>, pos: nat)
    requires TagsFit(e) && HasType(TOption(e), v) && v.VSome? && Cut(b, pos, Encode(TOption(e), v))
    ensures Decode(TOption(e), b, pos) == Err(Eof)
    decreases e, 2, 0
  {
    CutSplit(b, pos, [1], Encode(e, v.v));
    if Stands(b, pos, [1]) {
      ReadByteBack(b, pos, 1);
      TruncationIsEof(e, v.v, b, pos + 1);
    }
  }

  lemma {:induction false} TruncatedVec(e: Ty, vs: seq<Value>, b: seq<byte>, pos: nat)
    requires TagsFit(e) && AllHaveType(e, vs) && |vs| < U64_LIMIT && Cut(b, pos, EncodeInt(8, |vs|) + EncodeAll(e, vs))
    ensures Decode(TVec(e), b, pos) == Err(Eof)
    decreases e, 4, 0
  {
    CutSplit(b, pos, EncodeInt(8, |vs|), EncodeAll(e, vs));
    LengthOrEof(b, pos, |vs|);
    if Stands(b, pos, EncodeInt(8, |vs|)) { TruncatedAll(e, vs, b, pos + 8); }
  }

  lemma {:induction false} TruncatedEnum(t: Ty, v: Value, b: seq<byte>, pos: nat)
    requires t.TEnum? && TagsFit(t) && HasType(t, v) && Cut(b, pos, Encode(t, v))
    ensures Decode(t, b, pos) == Err(Eof)
    decreases t, 0, 0
  {
    var ts := t.variants[v.index].fields;
    CutSplit(b, pos, EncodeInt(t.tag, v.index), EncodeFields(ts, v.vs));
    if Stands(b, pos, EncodeInt(t.tag, v.index)) {
      ReadIntBack(b, pos, t.tag, v.index);
      TruncatedFields(ts, v.vs, b, pos + t.tag);
    }
  }

  /** A value in front of others: cut off itself, or decoded before the cut. */
  lemma {:induction false} CutFirst(t: Ty, v: Value, rest: seq<byte>, b: seq<byte>, pos: nat)
    requires TagsFit(t) && HasType(t, v) && Cut(b, pos, Encode(t, v) + rest)
    ensures var r := Decode(t, b, pos); if r.Ok? then Cut(b, r.pos, rest) else r == Err(Eof)
    decreases t, 2, 0
  {
    var s := Encode(t, v);
    CutSplit(b, pos, s, rest);
    if Cut(b, pos, s) { TruncationIsEof(t, v, b, pos); } else { RoundTrip(t, v, b, pos); }
  }

  lemma {:induction false} TruncatedAll(t: Ty, vs: seq<Value>, b: seq<byte>, pos: nat)
    requires TagsFit(t) && AllHaveType(t, vs) && Cut(b, pos, EncodeAll(t, vs))
    ensures DecodeAll(t, |vs|, b, pos) == Err(Eof)
    decreases t, 3, |vs|
  {
    CutFirst(t, vs[0], EncodeAll(t, vs[1..]), b, pos);
    var r := Decode(t, b, pos);
    if r.Ok? { TruncatedAll(t, vs[1..], b, r.pos); }
  }

  lemma {:induction false} TruncatedFields(ts: seq<Ty>, vs: seq<Value>, b: seq<byte>, pos: nat)
    requires AllTagsFit(ts) && FieldsHaveType(ts, vs) && Cut(b, pos, EncodeFields(ts, vs))
    ensures DecodeFields(ts, b, pos) == Err(Eof)
    decreases ts, 0, 0
  {
    CutFirst(ts[0], vs[0], EncodeFields(ts[1..], vs[1..]), b, pos);
    var r := Decode(ts[0], b, pos);
    if r.Ok? { TruncatedFields(ts[1..], vs[1..], b, r.pos); }
  }
}
