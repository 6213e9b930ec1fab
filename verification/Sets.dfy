/** Hash sets: written in iteration order behind their size, read back by inserting. */
module Sets {
  import opened Bytes
  import opened WireTypes
  import opened Codec
  import opened Reader
  import opened Writer
  import opened Containment

  /** The elements of a sequence. */
  function Elements(vs: seq<Value>): set<Value> {
    if vs == [] then {} else {vs[0]} + Elements(vs[1..])
  }

  lemma {:induction false} ElementsAppend(vs: seq<Value>, v: Value)
    ensures Elements(vs + [v]) == Elements(vs) + {v}
  {
    if vs == [] {
      assert [] + [v] == [v] && [v][1..] == [];
    } else {
      assert (vs + [v])[1..] == vs[1..] + [v];
      ElementsAppend(vs[1..], v);
    }
  }

  function AsSet(r: Parsed<seq<Value>>): Parsed<set<Value>> {
    if r.Ok? then Ok(Elements(r.value), r.pos) else Err(r.error)
  }

  /** What reading a set amounts to. */
  function DecodeSet(e: Ty, b: seq<byte>, pos: nat): Parsed<set<Value>>
    requires pos <= |b|
  {
    match ReadInt(b, pos, 8)
    case Ok(n, p) => AsSet(DecodeAll(e, n, b, p))
    case Err(er) => Err(er)
  }

  method UnwiringSet(e: Ty, wire: Reader) returns (r: Parsed<set<Value>>)
    requires wire.Valid() && wire.checked
    modifies wire
    ensures wire.Valid() && r == DecodeSet(e, wire.buf, old(wire.position))
    ensures r.Ok? ==> wire.position == r.pos
  {
    var n := wire.ReadUint(8);
    if n.Err? { return Err(n.error); }
    var len, s := n.value, {};
    ghost var start, vs := wire.position, [];
    ProgressStarts(e, len, wire.buf, start);
    while len > 0
      invariant wire.Valid() && len == n.value - |vs| && s == Elements(vs)
      invariant Progress(e, n.value, wire.buf, start, vs, wire.position)
    {
      len := len - 1;
      ProgressGoesOn(e, n.value, wire.buf, start, vs, wire.position, Decode(e, wire.buf, wire.position));
      var t := wire.Unwiring(e);
      if t.Err? { return Err(t.error); }
      ElementsAppend(vs, t.value);
      s := s + {t.value};
      vs := vs + [t.value];
    }
    assert vs + [] == vs;
    r := Ok(s, wire.position);
  }

  /** `order` is one of the orders in which the set may be iterated. */
  ghost predicate Enumerates(order: seq<Value>, s: set<Value>) {
    && (forall i, j :: 0 <= i < j < |order| ==> order[i] != order[j])
    && (forall v :: v in s <==> v in order)
  }

  lemma {:induction false} ElementsOf(vs: seq<Value>, v: Value)
    ensures v in Elements(vs) <==> v in vs
  {
    if vs != [] { ElementsOf(vs[1..], v); }
  }

  method WiringSet(e: Ty, order: seq<Value>, wire: VecBuf)
    requires wire.Valid() && Valid(e) && AllHaveType(e, order) && AllContained(e, order)
    modifies wire, wire.data
    ensures wire.Appended(EncodeInt(8, |order|) + EncodeAll(e, order))
  {
    ghost var was := wire.Contents();
    wire.SyncWireAll(EncodeInt(8, |order|), true);
    wire.WiringAll(e, order, false);
    Assoc(was, EncodeInt(8, |order|), EncodeAll(e, order));
  }

  /** In whatever order a set is written, the same set is read back, and nothing behind it. */
  lemma SetRoundTrip(e: Ty, s: set<Value>, order: seq<Value>, b: seq<byte>, pos: nat)
    requires TagsFit(e) && AllHaveType(e, order) && |order| < U64_LIMIT && Enumerates(order, s)
    requires Stands(b, pos, EncodeInt(8, |order|) + EncodeAll(e, order))
    ensures DecodeSet(e, b, pos) == Ok(s, pos + 8 + |EncodeAll(e, order)|)
  {
    VecStands(e, order, b, pos);
    RoundTripAll(e, order, b, pos + 8);
    forall v ensures v in Elements(order) <==> v in s { ElementsOf(order, v); }
    assert Elements(order) == s;
  }
}
