/** The decoder reports the end of the buffer exactly where more bytes could have changed its result. */
module MissingBytes {
  import opened Bytes
  import opened WireTypes
  import opened Codec

  /** The result stands, unless it was the end of the buffer. */
  predicate Kept<T(==)>(r: Parsed<T>, longer: Parsed<T>) {
    r != Err(Eof) ==> longer == r
  }

  lemma ReadKept(b: seq<byte>, pos: nat, n: nat, ext: seq<byte>)
    requires pos <= |b|
    ensures Kept(Read(b, pos, n), Read(b + ext, pos, n)) && Kept(ReadInt(b, pos, n), ReadInt(b + ext, pos, n))
  {
    if pos + n <= |b| { assert (b + ext)[pos..pos + n] == b[pos..pos + n]; }
  }

  /** What is decided does not depend on the bytes behind it. */
  lemma {:induction false} DecodeKept(t: Ty, b: seq<byte>, pos: nat, ext: seq<byte>)
    requires pos <= |b|
    ensures Kept(Decode(t, b, pos), Decode(t, b + ext, pos))
    decreases t, 1, 0
  {
    match t
    case TInt(w, _) => ReadKept(b, pos, w, ext);
    case TFloat(w) => ReadKept(b, pos, w, ext);
    case TBool => ReadKept(b, pos, 1, ext);
    case TUnit => ReadKept(b, pos, 1, ext);
    case TUnitStruct => ReadKept(b, pos, 1, ext);
    case TString => StringKept(b, pos, ext);
    case TOption(e) => OptionKept(e, b, pos, ext);
    case TVec(e) => VecKept(e, b, pos, ext);
    case TArray(e, n) => AllKept(e, n, b, pos, ext);
    case TTuple(ts) => FieldsKept(ts, b, pos, ext);
    case TStruct(ts, _) => FieldsKept(ts, b, pos, ext);
    case TEnum(_, _) => EnumKept(t, b, pos, ext);
  }

  lemma StringKept(b: seq<byte>, pos: nat, ext: seq<byte>)
    requires pos <= |b|
    ensures Kept(Decode(TString, b, pos), Decode(TString, b + ext, pos))
  {
    ReadKept(b, pos, 8, ext);
    var r := ReadInt(b, pos, 8);
    if r.Ok? { ReadKept(b, r.pos, r.value, ext); }
  }

  lemma {:induction false} OptionKept(e: Ty, b: seq<byte>, pos: nat, ext: seq<byte>)
    requires pos <= |b|
    ensures Kept(Decode(TOption(e), b, pos), Decode(TOption(e), b + ext, pos))
    decreases e, 2, 0
  {
    ReadKept(b, pos, 1, ext);
    var r := ReadInt(b, pos, 1);
    if r.Ok? { DecodeKept(e, b, r.pos, ext); }
  }

  lemma {:induction false} VecKept(e: Ty, b: seq<byte>, pos: nat, ext: seq<byte>)
    requires pos <= |b|
    ensures Kept(Decode(TVec(e), b, pos), Decode(TVec(e), b + ext, pos))
    decreases e, 2, 0
  {
    ReadKept(b, pos, 8, ext);
    var r := ReadInt(b, pos, 8);
    if r.Ok? { AllKept(e, r.value, b, r.pos, ext); }
  }

  lemma {:induction false} EnumKept(t: Ty, b: seq<byte>, pos: nat, ext: seq<byte>)
    requires t.TEnum? && pos <= |b|
    ensures Kept(Decode(t, b, pos), Decode(t, b + ext, pos))
    decreases t, 0, 0
  {
    ReadKept(b, pos, t.tag, ext);
    var r := ReadInt(b, pos, t.tag);
    if r.Ok? && r.value < |t.variants| { FieldsKept(t.variants[r.value].fields, b, r.pos, ext); }
  }

  lemma {:induction false} AllKept(t: Ty, n: nat, b: seq<byte>, pos: nat, ext: seq<byte>)
    requires pos <= |b|
    ensures Kept(DecodeAll(t, n, b, pos), DecodeAll(t, n, b + ext, pos))
    decreases t, 1, n + 1
  {
    if n > 0 {
      DecodeKept(t, b, pos, ext);
      var r := Decode(t, b, pos);
      if r.Ok? { AllKept(t, n - 1, b, r.pos, ext); }
    }
  }

  lemma {:induction false} FieldsKept(ts: seq<Ty>, b: seq<byte>, pos: nat, ext: seq<byte>)
    requires pos <= |b|
    ensures Kept(DecodeFields(ts, b, pos), DecodeFields(ts, b + ext, pos))
    decreases ts, 0, 0
  {
    if ts != [] {
      DecodeKept(ts[0], b, pos, ext);
      var r := Decode(ts[0], b, pos);
      if r.Ok? { FieldsKept(ts[1..], b, r.pos, ext); }
    }
  }

  // ----- enough bytes -----

  lemma Longer(b: seq<byte>, m: nat, n: nat)
    ensures (b + Zeros(m)) + Zeros(n) == b + Zeros(m + n)
  {
    ZerosAdd(m, n);
    Assoc(b, Zeros(m), Zeros(n));
  }

  /** With enough zeros behind the buffer the decoder gets by. */
  lemma {:induction false} ZerosSuffice(t: Ty, b: seq<byte>, pos: nat) returns (n: nat)
    requires Valid(t) && pos <= |b|
    ensures Decode(t, b + Zeros(n), pos) != Err(Eof)
    decreases t, 1, 0
  {
    match t
    case TInt(w, _) => n := w;
    case TFloat(w) => n := w;
    case TBool => n := 1;
    case TUnit => n := 1;
    case TUnitStruct => n := 1;
    case TString => n := StringSuffices(b, pos);
    case TOption(e) => n := OptionSuffices(e, b, pos);
    case TVec(e) => n := VecSuffices(e, b, pos);
    case TArray(e, m) => n := AllSuffice(e, m, b, pos);
    case TTuple(ts) => n := FieldsSuffice(ts, b, pos);
    case TStruct(ts, _) => n := FieldsSuffice(ts, b, pos);
    case TEnum(_, _) => n := EnumSuffices(t, b, pos);
  }

  lemma StringSuffices(b: seq<byte>, pos: nat) returns (n: nat)
    requires pos <= |b|
    ensures Decode(TString, b + Zeros(n), pos) != Err(Eof)
  {
    var c := b + Zeros(8);
    var r := ReadInt(c, pos, 8);
    n := 8 + r.value;
    Longer(b, 8, r.value);
    ReadKept(c, pos, 8, Zeros(r.value));
  }

  lemma {:induction false} OptionSuffices(e: Ty, b: seq<byte>, pos: nat) returns (n: nat)
    requires Valid(e) && pos <= |b|
    ensures Decode(TOption(e), b + Zeros(n), pos) != Err(Eof)
    decreases e, 2, 0
  {
    var c := b + Zeros(1);
    var r := ReadInt(c, pos, 1);
    n := 1;
    if r.value == 1 {
      var m := ZerosSuffice(e, c, r.pos);
      n := 1 + m;
      Longer(b, 1, m);
      ReadKept(c, pos, 1, Zeros(m));
      PresentSuffices(e, b + Zeros(n), pos);
    }
  }

  lemma PresentSuffices(e: Ty, b: seq<byte>, pos: nat)
    requires pos < |b| && ReadInt(b, pos, 1) == Ok(1, pos + 1) && Decode(e, b, pos + 1) != Err(Eof)
    ensures Decode(TOption(e), b, pos) != Err(Eof)
  {
  }

  lemma {:induction false} VecSuffices(e: Ty, b: seq<byte>, pos: nat) returns (n: nat)
    requires Valid(e) && pos <= |b|
    ensures Decode(TVec(e), b + Zeros(n), pos) != Err(Eof)
    decreases e, 2, 0
  {
    var c := b + Zeros(8);
    var r := ReadInt(c, pos, 8);
    var m := AllSuffice(e, r.value, c, pos + 8);
    n := 8 + m;
    Longer(b, 8, m);
    ReadKept(c, pos, 8, Zeros(m));
  }

  lemma {:induction false} EnumSuffices(t: Ty, b: seq<byte>, pos: nat) returns (n: nat)
    requires t.TEnum? && Valid(t) && pos <= |b|
    ensures Decode(t, b + Zeros(n), pos) != Err(Eof)
    decreases t, 0, 0
  {
    var c := b + Zeros(t.tag);
    var r := ReadInt(c, pos, t.tag);
    var m: nat := 0;
    if r.value < |t.variants| { m := FieldsSuffice(t.variants[r.value].fields, c, r.pos); }
    n := t.tag + m;
    Longer(b, t.tag, m);
    ReadKept(c, pos, t.tag, Zeros(m));
  }

  lemma {:induction false} AllSuffice(t: Ty, k: nat, b: seq<byte>, pos: nat) returns (n: nat)
    requires Valid(t) && pos <= |b|
    ensures DecodeAll(t, k, b + Zeros(n), pos) != Err(Eof)
    decreases t, 1, k + 1
  {
    n := 0;
    if k > 0 {
      n := ZerosSuffice(t, b, pos);
      var c := b + Zeros(n);
      var r := Decode(t, c, pos);
      if r.Ok? {
        var m := AllSuffice(t, k - 1, c, r.pos);
        var d := c + Zeros(m);
        DecodeKept(t, c, pos, Zeros(m));
        Longer(b, n, m);
        OthersSuffice(t, k, d, pos);
        n := n + m;
      }
    }
  }

  lemma OthersSuffice(t: Ty, k: nat, b: seq<byte>, pos: nat)
    requires k > 0 && pos <= |b| && Decode(t, b, pos).Ok? && DecodeAll(t, k - 1, b, Decode(t, b, pos).pos) != Err(Eof)
    ensures DecodeAll(t, k, b, pos) != Err(Eof)
  {
  }

  lemma {:induction false} FieldsSuffice(ts: seq<Ty>, b: seq<byte>, pos: nat) returns (n: nat)
    requires AllValid(ts) && pos <= |b|
    ensures DecodeFields(ts, b + Zeros(n), pos) != Err(Eof)
    decreases ts, 0, 0
  {
    n := 0;
    if ts != [] {
      n := ZerosSuffice(ts[0], b, pos);
      var c := b + Zeros(n);
      var r := Decode(ts[0], c, pos);
      if r.Ok? {
        var m := FieldsSuffice(ts[1..], c, r.pos);
        DecodeKept(ts[0], c, pos, Zeros(m));
        Longer(b, n, m);
        n := n + m;
      }
    }
  }

  /** The end of the buffer is reported exactly if some bytes behind it would have made a difference. */
  lemma EofExactlyWhenBytesAreMissing(t: Ty, b: seq<byte>, pos: nat)
    requires Valid(t) && pos <= |b|
    ensures Decode(t, b, pos) == Err(Eof) <==> exists ext :: Decode(t, b + ext, pos) != Decode(t, b, pos)
  {
    if Decode(t, b, pos) == Err(Eof) {
      var n := ZerosSuffice(t, b, pos);
    } else {
      forall ext ensures Decode(t, b + ext, pos) == Decode(t, b, pos) { DecodeKept(t, b, pos, ext); }
    }
  }
}
