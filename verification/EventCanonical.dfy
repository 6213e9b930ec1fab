/** What is read as an event or a frame was written as one. */
module EventCanonical {
  import opened Bytes
  import opened Codec
  import opened Canonical
  import opened EventRuns
  import opened Events

  /** The types in an event have one encoding for each value. */
  predicate Canonic(t: EventTy) {
    match t
    case Plain(ty) => BoolFree(ty) && TagsFit(ty)
    case Channel => true
    case Fields(ts) => AllCanonic(ts)
    case Many(t') => Canonic(t')
    case Choice(_, variants) => forall i :: 0 <= i < |variants| ==> AllCanonic(variants[i].tys)
  }

  predicate AllCanonic(ts: seq<EventTy>) {
    ts == [] || (Canonic(ts[0]) && AllCanonic(ts[1..]))
  }

  /** An event, as many ids as it has channels, and, if they are those behind `last`, its bytes. */
  ghost predicate WasWritten(t: EventTy, a: Accepted<Event>, last: nat, b: seq<byte>, pos: nat, end: nat) {
    && IsEvent(t, a.value) && |a.ids| == Leaves(a.value)
    && (a.ids == Ids(last, Leaves(a.value)) ==>
          Stands(b, pos, EncodeEvent(t, a.value, last)) && end == pos + |EncodeEvent(t, a.value, last)|)
  }

  ghost predicate AllWereWritten(t: EventTy, a: Accepted<seq<Event>>, last: nat, b: seq<byte>, pos: nat, end: nat) {
    && AreAll(t, a.value) && |a.ids| == AllLeaves(a.value)
    && (a.ids == Ids(last, AllLeaves(a.value)) ==>
          Stands(b, pos, EncodeEvents(t, a.value, last)) && end == pos + |EncodeEvents(t, a.value, last)|)
  }

  ghost predicate FieldsWereWritten(ts: seq<EventTy>, a: Accepted<seq<Event>>, last: nat, b: seq<byte>, pos: nat, end: nat) {
    && AreFields(ts, a.value) && |a.ids| == AllLeaves(a.value)
    && (a.ids == Ids(last, AllLeaves(a.value)) ==>
          Stands(b, pos, EncodeEventFields(ts, a.value, last)) && end == pos + |EncodeEventFields(ts, a.value, last)|)
  }

  lemma {:induction false} IdsLength(last: nat, n: nat)
    ensures |Ids(last, n)| == n
    decreases n
  {
    if n > 0 { IdsLength(last + 1, n - 1); }
  }

  lemma IdsSplit(x: seq<nat>, y: seq<nat>, last: nat)
    ensures x + y == Ids(last, |x| + |y|) ==> x == Ids(last, |x|) && y == Ids(last + |x|, |y|)
  {
    IdsJoin(last, |x|, |y|);
    IdsLength(last, |x|);
    if x + y == Ids(last, |x| + |y|) {
      assert x == (x + y)[..|x|] && y == (x + y)[|x|..];
    }
  }

  /** A number that was read is written the same way. */
  lemma NumberStands(b: seq<byte>, pos: nat, w: nat)
    requires pos <= |b| && ReadInt(b, pos, w).Ok?
    ensures Stands(b, pos, EncodeInt(w, ReadInt(b, pos, w).value))
  {
    EncodeDecodeInt(b[pos..pos + w]);
  }

  lemma {:induction false} EventWasWritten(t: EventTy, b: seq<byte>, pos: nat, last: nat)
    requires Canonic(t) && pos <= |b| && DecodeEvent(t, b, pos).Ok?
    ensures WasWritten(t, DecodeEvent(t, b, pos).value, last, b, pos, DecodeEvent(t, b, pos).pos)
    decreases t, 1, 0
  {
    match t
    case Plain(ty) => DecodeIsCanonical(ty, b, pos);
    case Channel => ChannelWasWritten(b, pos, last);
    case Fields(ts) => EventFieldsWereWritten(ts, b, pos, last);
    case Many(t') => ManyWereWritten(t', b, pos, last);
    case Choice(_, _) => ChoiceWasWritten(t, b, pos, last);
  }

  lemma ChannelWasWritten(b: seq<byte>, pos: nat, last: nat)
    requires pos <= |b| && DecodeEvent(Channel, b, pos).Ok?
    ensures WasWritten(Channel, DecodeEvent(Channel, b, pos).value, last, b, pos, DecodeEvent(Channel, b, pos).pos)
  {
    NumberStands(b, pos, 8);
    OneId(last);
  }

  lemma {:induction false} ManyWereWritten(e: EventTy, b: seq<byte>, pos: nat, last: nat)
    requires Canonic(e) && pos <= |b| && DecodeEvent(Many(e), b, pos).Ok?
    ensures WasWritten(Many(e), DecodeEvent(Many(e), b, pos).value, last, b, pos, DecodeEvent(Many(e), b, pos).pos)
    decreases e, 2, 0
  {
    var r := ReadInt(b, pos, 8);
    NumberStands(b, pos, 8);
    U64Limit();
    EventsWereWritten(e, r.value, b, r.pos, last);
    var es := DecodeEvents(e, r.value, b, r.pos).value.value;
    StandsSplit(b, pos, EncodeInt(8, r.value), EncodeEvents(e, es, last));
  }

  lemma {:induction false} ChoiceWasWritten(t: EventTy, b: seq<byte>, pos: nat, last: nat)
    requires t.Choice? && Canonic(t) && pos <= |b| && DecodeEvent(t, b, pos).Ok?
    ensures WasWritten(t, DecodeEvent(t, b, pos).value, last, b, pos, DecodeEvent(t, b, pos).pos)
    decreases t, 0, 0
  {
    var r := ReadInt(b, pos, t.tag);
    var ts := t.variants[r.value].tys;
    NumberStands(b, pos, t.tag);
    EventFieldsWereWritten(ts, b, r.pos, last);
    var es := DecodeEventFields(ts, b, r.pos).value.value;
    StandsSplit(b, pos, EncodeInt(t.tag, r.value), EncodeEventFields(ts, es, last));
  }

  lemma {:induction false} EventsWereWritten(t: EventTy, n: nat, b: seq<byte>, pos: nat, last: nat)
    requires Canonic(t) && pos <= |b| && DecodeEvents(t, n, b, pos).Ok?
    ensures |DecodeEvents(t, n, b, pos).value.value| == n
    ensures AllWereWritten(t, DecodeEvents(t, n, b, pos).value, last, b, pos, DecodeEvents(t, n, b, pos).pos)
    decreases t, 1, n + 1
  {
    if n > 0 {
      var r := DecodeEvent(t, b, pos);
      var x := r.value;
      var rest := DecodeEvents(t, n - 1, b, r.pos);
      EventWasWritten(t, b, pos, last);
      EventsWereWritten(t, n - 1, b, r.pos, last + Leaves(x.value));
      FirstEvent(t, n, b, pos);
      EventsBehind(t, x, rest.value, last, b, pos, r.pos, rest.pos);
    }
  }

  lemma FirstEvent(t: EventTy, n: nat, b: seq<byte>, pos: nat)
    requires n > 0 && pos <= |b| && DecodeEvents(t, n, b, pos).Ok?
    ensures var r := DecodeEvent(t, b, pos);
      r.Ok? && var rest := DecodeEvents(t, n - 1, b, r.pos);
      rest.Ok? && DecodeEvents(t, n, b, pos) == Ok(Accepted([r.value.value] + rest.value.value, r.value.ids + rest.value.ids), rest.pos)
  {
  }

  lemma EventsBehind(t: EventTy, x: Accepted<Event>, xs: Accepted<seq<Event>>, last: nat, b: seq<byte>, pos: nat, p: nat, q: nat)
    requires WasWritten(t, x, last, b, pos, p) && AllWereWritten(t, xs, last + Leaves(x.value), b, p, q)
    ensures AllWereWritten(t, Accepted([x.value] + xs.value, x.ids + xs.ids), last, b, pos, q)
  {
    var es := [x.value] + xs.value;
    assert es[1..] == xs.value;
    IdsSplit(x.ids, xs.ids, last);
    StandsSplit(b, pos, EncodeEvent(t, x.value, last), EncodeEvents(t, xs.value, last + Leaves(x.value)));
  }

  lemma {:induction false} EventFieldsWereWritten(ts: seq<EventTy>, b: seq<byte>, pos: nat, last: nat)
    requires AllCanonic(ts) && pos <= |b| && DecodeEventFields(ts, b, pos).Ok?
    ensures FieldsWereWritten(ts, DecodeEventFields(ts, b, pos).value, last, b, pos, DecodeEventFields(ts, b, pos).pos)
    decreases ts, 0, 0
  {
    if ts != [] {
      var r := DecodeEvent(ts[0], b, pos);
      var x := r.value;
      var rest := DecodeEventFields(ts[1..], b, r.pos);
      EventWasWritten(ts[0], b, pos, last);
      EventFieldsWereWritten(ts[1..], b, r.pos, last + Leaves(x.value));
      FirstEventField(ts, b, pos);
      FieldsBehind(ts, x, rest.value, last, b, pos, r.pos, rest.pos);
    }
  }

  lemma FirstEventField(ts: seq<EventTy>, b: seq<byte>, pos: nat)
    requires ts != [] && pos <= |b| && DecodeEventFields(ts, b, pos).Ok?
    ensures var r := DecodeEvent(ts[0], b, pos);
      r.Ok? && var rest := DecodeEventFields(ts[1..], b, r.pos);
      rest.Ok? && DecodeEventFields(ts, b, pos) == Ok(Accepted([r.value.value] + rest.value.value, r.value.ids + rest.value.ids), rest.pos)
  {
  }

  lemma FieldsBehind(ts: seq<EventTy>, x: Accepted<Event>, xs: Accepted<seq<Event>>, last: nat, b: seq<byte>, pos: nat, p: nat, q: nat)
    requires ts != [] && WasWritten(ts[0], x, last, b, pos, p)
    requires FieldsWereWritten(ts[1..], xs, last + Leaves(x.value), b, p, q)
    ensures FieldsWereWritten(ts, Accepted([x.value] + xs.value, x.ids + xs.ids), last, b, pos, q)
  {
    var es := [x.value] + xs.value;
    assert es[1..] == xs.value;
    IdsSplit(x.ids, xs.ids, last);
    StandsSplit(b, pos, EncodeEvent(ts[0], x.value, last), EncodeEventFields(ts[1..], xs.value, last + Leaves(x.value)));
  }

  // ----- frames -----

  /** Any flag but 0 is true. */
  lemma FlagIsNonZero(id: nat, x: byte, b: seq<byte>, pos: nat)
    requires id < U64_LIMIT && Stands(b, pos, EncodeInt(8, id) + [x])
    ensures ReadStreamFlag(b, pos) == Ok((id, x != 0), pos + 9)
  {
    LengthBack(id, [x], b, pos);
    ReadByteBack(b, pos + 8, x);
  }

  /** The first byte of a frame tells which of the three it is; others are refused. */
  lemma FrameIsNumbered(t: EventTy, b: seq<byte>, pos: nat)
    requires pos < |b|
    ensures var r := DecodeFrame(t, b, pos);
      && (r.Ok? ==> b[pos] == match r.value.value case EventFrame(_) => 0 case MessageFrame(_, _, _) => 1 case DropFrame(_, _) => 2)
      && (b[pos] > 2 ==> r == Err(Invalid))
  {
    assert Stands(b, pos, [b[pos]]);
    ReadByteBack(b, pos, b[pos]);
  }
}
