/**
 The frames of the wire in bytes, and events that carry channels: every channel is written as
 the id of a stream opened on the spot, and read back by accepting the stream of that id.
 */
module Events {
  import opened Bytes
  import opened WireTypes
  import opened Codec
  import opened EventRuns

  /** Types with channels in them. Arrays and tuples are `Fields`, an option is a `Choice` of a u8 tag. */
  datatype EventTy =
    | Plain(ty: Ty) | Channel
    | Fields(tys: seq<EventTy>) | Many(elem: EventTy)
    | Choice(tag: nat, variants: seq<Alternative>)

  datatype Alternative = Alternative(tys: seq<EventTy>)

  datatype Event =
    | PlainEvent(v: Value) | ChannelEvent
    | FieldsEvent(vs: seq<Event>) | ManyEvent(vs: seq<Event>)
    | ChoiceEvent(index: nat, vs: seq<Event>)

  predicate IsEvent(t: EventTy, e: Event)
    decreases t, 0, 0
  {
    match (t, e)
    case (Plain(ty), PlainEvent(v)) => HasType(ty, v) && TagsFit(ty)
    case (Channel, ChannelEvent) => true
    case (Fields(ts), FieldsEvent(es)) => AreFields(ts, es)
    case (Many(t'), ManyEvent(es)) => |es| < U64_LIMIT && AreAll(t', es)
    case (Choice(tag, variants), ChoiceEvent(i, es)) =>
      i < |variants| && i < Pow256(tag) && AreFields(variants[i].tys, es)
    case _ => false
  }

  predicate AreFields(ts: seq<EventTy>, es: seq<Event>)
    decreases ts, 0, 0
  {
    if ts == [] then es == [] else es != [] && IsEvent(ts[0], es[0]) && AreFields(ts[1..], es[1..])
  }

  predicate AreAll(t: EventTy, es: seq<Event>)
    decreases t, 1, |es|
  {
    es == [] || (IsEvent(t, es[0]) && AreAll(t, es[1..]))
  }

  /** The number of channels. */
  function Leaves(e: Event): nat
    decreases e
  {
    match e
    case PlainEvent(_) => 0
    case ChannelEvent => 1
    case FieldsEvent(es) => AllLeaves(es)
    case ManyEvent(es) => AllLeaves(es)
    case ChoiceEvent(_, es) => AllLeaves(es)
  }

  function AllLeaves(es: seq<Event>): nat
    decreases es
  {
    if es == [] then 0 else Leaves(es[0]) + AllLeaves(es[1..])
  }

  // ----- writing and reading events -----

  /** The bytes of an event when `last` was the last id given out. */
  function EncodeEvent(t: EventTy, e: Event, last: nat): seq<byte>
    decreases t, 0, 0
  {
    match (t, e)
    case (Plain(ty), PlainEvent(v)) => Encode(ty, v)
    case (Channel, ChannelEvent) => EncodeInt(8, last + 1)
    case (Fields(ts), FieldsEvent(es)) => EncodeEventFields(ts, es, last)
    case (Many(t'), ManyEvent(es)) => EncodeInt(8, |es|) + EncodeEvents(t', es, last)
    case (Choice(tag, variants), ChoiceEvent(i, es)) =>
      if i < |variants| then EncodeInt(tag, i) + EncodeEventFields(variants[i].tys, es, last) else []
    case _ => []
  }

  function EncodeEventFields(ts: seq<EventTy>, es: seq<Event>, last: nat): seq<byte>
    decreases ts, 0, 0
  {
    if ts == [] || es == [] then []
    else EncodeEvent(ts[0], es[0], last) + EncodeEventFields(ts[1..], es[1..], last + Leaves(es[0]))
  }

  function EncodeEvents(t: EventTy, es: seq<Event>, last: nat): seq<byte>
    decreases t, 1, |es|
  {
    if es == [] then [] else EncodeEvent(t, es[0], last) + EncodeEvents(t, es[1..], last + Leaves(es[0]))
  }

  function DecodeEvent(t: EventTy, b: seq<byte>, pos: nat): (r: Parsed<Accepted<Event>>)
    requires pos <= |b|
    ensures r.Ok? ==> pos <= r.pos <= |b|
    decreases t, 0, 0
  {
    match t
    case Plain(ty) =>
      (match Decode(ty, b, pos)
       case Ok(v, p) => Ok(Accepted(PlainEvent(v), []), p)
       case Err(er) => Err(er))
    case Channel =>
      (match ReadInt(b, pos, 8)
       case Ok(id, p) => Ok(Accepted(ChannelEvent, [id]), p)
       case Err(er) => Err(er))
    case Fields(ts) =>
      (match DecodeEventFields(ts, b, pos)
       case Ok(a, p) => Ok(Accepted(FieldsEvent(a.value), a.ids), p)
       case Err(er) => Err(er))
    case Many(t') =>
      (match ReadInt(b, pos, 8)
       case Ok(n, p) =>
         (match DecodeEvents(t', n, b, p)
          case Ok(a, q) => Ok(Accepted(ManyEvent(a.value), a.ids), q)
          case Err(er) => Err(er))
       case Err(er) => Err(er))
    case Choice(tag, variants) =>
      (match ReadInt(b, pos, tag)
       case Ok(i, p) =>
         if i < |variants| then
           (match DecodeEventFields(variants[i].tys, b, p)
            case Ok(a, q) => Ok(Accepted(ChoiceEvent(i, a.value), a.ids), q)
            case Err(er) => Err(er))
         else Err(Invalid)
       case Err(er) => Err(er))
  }

  function DecodeEventFields(ts: seq<EventTy>, b: seq<byte>, pos: nat): (r: Parsed<Accepted<seq<Event>>>)
    requires pos <= |b|
    ensures r.Ok? ==> pos <= r.pos <= |b|
    decreases ts, 0, 0
  {
    if ts == [] then Ok(Accepted([], []), pos)
    else
      match DecodeEvent(ts[0], b, pos)
      case Ok(a, p) => Cons(a, DecodeEventFields(ts[1..], b, p))
      case Err(er) => Err(er)
  }

  function DecodeEvents(t: EventTy, n: nat, b: seq<byte>, pos: nat): (r: Parsed<Accepted<seq<Event>>>)
    requires pos <= |b|
    ensures r.Ok? ==> pos <= r.pos <= |b|
    decreases t, 1, n
  {
    if n == 0 then Ok(Accepted([], []), pos)
    else
      match DecodeEvent(t, b, pos)
      case Ok(a, p) => Cons(a, DecodeEvents(t, n - 1, b, p))
      case Err(er) => Err(er)
  }

  // ----- round trip -----

  lemma LengthBack(n: nat, rest: seq<byte>, b: seq<byte>, pos: nat)
    requires n < U64_LIMIT && Stands(b, pos, EncodeInt(8, n) + rest)
    ensures ReadInt(b, pos, 8) == Ok(n, pos + 8) && Stands(b, pos + 8, rest)
  {
    U64Limit();
    StandsSplit(b, pos, EncodeInt(8, n), rest);
    ReadIntBack(b, pos, 8, n);
  }

  /** Reading an event gives it back, and accepts the ids that writing it gave out, in order. */
  lemma {:induction false} EventRoundTrip(t: EventTy, e: Event, last: nat, b: seq<byte>, pos: nat)
    requires IsEvent(t, e) && last + Leaves(e) < U64_LIMIT && Stands(b, pos, EncodeEvent(t, e, last))
    ensures DecodeEvent(t, b, pos) == Ok(Accepted(e, Ids(last, Leaves(e))), pos + |EncodeEvent(t, e, last)|)
    decreases t, 1, 0
  {
    match t
    case Plain(ty) => RoundTrip(ty, e.v, b, pos);
    case Channel =>
      OneId(last);
      assert EncodeInt(8, last + 1) + [] == EncodeInt(8, last + 1);
      LengthBack(last + 1, [], b, pos);
    case Fields(ts) => FieldsRoundTrip(ts, e.vs, last, b, pos);
    case Many(t') =>
      LengthBack(|e.vs|, EncodeEvents(t', e.vs, last), b, pos);
      ManyRoundTrip(t', e.vs, last, b, pos + 8);
    case Choice(_, _) => ChoiceRoundTrip(t, e, last, b, pos);
  }

  lemma {:induction false} ChoiceRoundTrip(t: EventTy, e: Event, last: nat, b: seq<byte>, pos: nat)
    requires t.Choice? && IsEvent(t, e) && last + Leaves(e) < U64_LIMIT && Stands(b, pos, EncodeEvent(t, e, last))
    ensures DecodeEvent(t, b, pos) == Ok(Accepted(e, Ids(last, Leaves(e))), pos + |EncodeEvent(t, e, last)|)
    decreases t, 0, 0
  {
    var ts := t.variants[e.index].tys;
    StandsSplit(b, pos, EncodeInt(t.tag, e.index), EncodeEventFields(ts, e.vs, last));
    ReadIntBack(b, pos, t.tag, e.index);
    FieldsRoundTrip(ts, e.vs, last, b, pos + t.tag);
  }

  lemma FieldsStep(ts: seq<EventTy>, es: seq<Event>, b: seq<byte>, pos: nat, p: nat, q: nat, ids: seq<nat>, more: seq<nat>)
    requires ts != [] && es != [] && pos <= |b| && p <= |b|
    requires DecodeEvent(ts[0], b, pos) == Ok(Accepted(es[0], ids), p)
    requires DecodeEventFields(ts[1..], b, p) == Ok(Accepted(es[1..], more), q)
    ensures DecodeEventFields(ts, b, pos) == Ok(Accepted(es, ids + more), q)
  {
    assert [es[0]] + es[1..] == es;
  }

  lemma FieldsIds(ts: seq<EventTy>, es: seq<Event>, last: nat, m: nat, n: nat, b: seq<byte>, pos: nat, p: nat, q: nat)
    requires ts != [] && es != [] && pos <= |b| && p <= |b|
    requires DecodeEvent(ts[0], b, pos) == Ok(Accepted(es[0], Ids(last, m)), p)
    requires DecodeEventFields(ts[1..], b, p) == Ok(Accepted(es[1..], Ids(last + m, n)), q)
    ensures DecodeEventFields(ts, b, pos) == Ok(Accepted(es, Ids(last, m + n)), q)
  {
    FieldsStep(ts, es, b, pos, p, q, Ids(last, m), Ids(last + m, n));
    IdsJoin(last, m, n);
  }

  /** The first field stands in front of the others. */
  lemma EventFieldsStand(ts: seq<EventTy>, es: seq<Event>, last: nat, b: seq<byte>, pos: nat) returns (p: nat, q: nat)
    requires ts != [] && es != [] && Stands(b, pos, EncodeEventFields(ts, es, last))
    ensures Stands(b, pos, EncodeEvent(ts[0], es[0], last)) && p == pos + |EncodeEvent(ts[0], es[0], last)|
    ensures Stands(b, p, EncodeEventFields(ts[1..], es[1..], last + Leaves(es[0])))
    ensures q == p + |EncodeEventFields(ts[1..], es[1..], last + Leaves(es[0]))| == pos + |EncodeEventFields(ts, es, last)|
  {
    var s, rest := EncodeEvent(ts[0], es[0], last), EncodeEventFields(ts[1..], es[1..], last + Leaves(es[0]));
    StandsSplit(b, pos, s, rest);
    p, q := pos + |s|, pos + |s| + |rest|;
  }

  lemma {:induction false} FieldsRoundTrip(ts: seq<EventTy>, es: seq<Event>, last: nat, b: seq<byte>, pos: nat)
    requires AreFields(ts, es) && last + AllLeaves(es) < U64_LIMIT && Stands(b, pos, EncodeEventFields(ts, es, last))
    ensures DecodeEventFields(ts, b, pos)
      == Ok(Accepted(es, Ids(last, AllLeaves(es))), pos + |EncodeEventFields(ts, es, last)|)
    decreases ts, 0, 0
  {
    if ts != [] {
      var p, q := EventFieldsStand(ts, es, last, b, pos);
      EventRoundTrip(ts[0], es[0], last, b, pos);
      FieldsRoundTrip(ts[1..], es[1..], last + Leaves(es[0]), b, p);
      FieldsIds(ts, es, last, Leaves(es[0]), AllLeaves(es[1..]), b, pos, p, q);
    }
  }

  function EventFormat(t: EventTy, b: seq<byte>): Format<Event> {
    Format((e: Event, last: nat) => EncodeEvent(t, e, last), (e: Event) => Leaves(e),
           (pos: nat) => if pos <= |b| then DecodeEvent(t, b, pos) else Err(Eof))
  }

  lemma {:induction false} LeavesOfRun(t: EventTy, es: seq<Event>, b: seq<byte>)
    ensures AllLeaves(es) == RunLeaves(EventFormat(t, b), es)
    decreases |es|
  {
    if es != [] { LeavesOfRun(t, es[1..], b); }
  }

  lemma {:induction false} EncodeEventsIsRun(t: EventTy, es: seq<Event>, last: nat, b: seq<byte>)
    ensures EncodeEvents(t, es, last) == WriteRun(EventFormat(t, b), es, last)
    decreases |es|
  {
    if es != [] { EncodeEventsIsRun(t, es[1..], last + Leaves(es[0]), b); }
  }

  lemma {:induction false} DecodeEventsIsRun(t: EventTy, n: nat, b: seq<byte>, pos: nat)
    requires pos <= |b|
    ensures DecodeEvents(t, n, b, pos) == ReadRun(EventFormat(t, b), n, pos)
  {
    if n > 0 && DecodeEvent(t, b, pos).Ok? { DecodeEventsIsRun(t, n - 1, b, DecodeEvent(t, b, pos).pos); }
  }

  lemma {:induction false} EventBack(t: EventTy, e: Event, b: seq<byte>)
    requires IsEvent(t, e)
    ensures Back(EventFormat(t, b), b, e)
    decreases t, 2, 0
  {
    forall last: nat, pos: nat | last + Leaves(e) < U64_LIMIT && Stands(b, pos, EncodeEvent(t, e, last))
      ensures DecodeEvent(t, b, pos) == Ok(Accepted(e, Ids(last, Leaves(e))), pos + |EncodeEvent(t, e, last)|)
    {
      EventRoundTrip(t, e, last, b, pos);
    }
  }

  lemma {:induction false} EventsBack(t: EventTy, es: seq<Event>, b: seq<byte>)
    requires AreAll(t, es)
    ensures AllBack(EventFormat(t, b), b, es)
    decreases t, 3, |es|
  {
    if es != [] {
      EventBack(t, es[0], b);
      EventsBack(t, es[1..], b);
    }
  }

  lemma {:induction false} ManyRoundTrip(t: EventTy, es: seq<Event>, last: nat, b: seq<byte>, pos: nat)
    requires AreAll(t, es) && last + AllLeaves(es) < U64_LIMIT && Stands(b, pos, EncodeEvents(t, es, last))
    ensures DecodeEvents(t, |es|, b, pos) == Ok(Accepted(es, Ids(last, AllLeaves(es))), pos + |EncodeEvents(t, es, last)|)
    decreases t, 4, 0
  {
    var f := EventFormat(t, b);
    EventsBack(t, es, b);
    LeavesOfRun(t, es, b);
    EncodeEventsIsRun(t, es, last, b);
    DecodeEventsIsRun(t, |es|, b, pos);
    RunBack(f, b, es, last, pos);
  }

  // ----- frames -----

  /** `WiringEvent`, with the flag as it is written. */
  datatype WireFrame =
    | EventFrame(event: Event)
    | MessageFrame(id: nat, local: bool, message: seq<byte>)
    | DropFrame(id: nat, local: bool)

  predicate IsFrame(t: EventTy, f: WireFrame) {
    match f
    case EventFrame(e) => IsEvent(t, e)
    case MessageFrame(id, _, m) => id < U64_LIMIT && |m| < U64_LIMIT
    case DropFrame(id, _) => id < U64_LIMIT
  }

  function FrameLeaves(f: WireFrame): nat {
    if f.EventFrame? then Leaves(f.event) else 0
  }

  function EncodeFrame(t: EventTy, f: WireFrame, last: nat): seq<byte> {
    match f
    case EventFrame(e) => [0] + EncodeEvent(t, e, last)
    case MessageFrame(id, local, m) => [1] + (EncodeInt(8, id) + ([if local then 1 else 0] + (EncodeInt(8, |m|) + m)))
    case DropFrame(id, local) => [2] + (EncodeInt(8, id) + [if local then 1 else 0])
  }

  function DecodeFrame(t: EventTy, b: seq<byte>, pos: nat): (r: Parsed<Accepted<WireFrame>>)
    requires pos <= |b|
    ensures r.Ok? ==> pos <= r.pos <= |b|
  {
    match ReadInt(b, pos, 1)
    case Err(er) => Err(er)
    case Ok(n, p) =>
      if n == 0 then
        match DecodeEvent(t, b, p)
        case Ok(a, q) => Ok(Accepted(EventFrame(a.value), a.ids), q)
        case Err(er) => Err(er)
      else if n > 2 then Err(Invalid)
      else
        match ReadStreamFlag(b, p)
        case Err(er) => Err(er)
        case Ok((id, local), q) =>
          if n == 2 then Ok(Accepted(DropFrame(id, local), []), q)
          else
            match ReadInt(b, q, 8)
            case Err(er) => Err(er)
            case Ok(len, o) =>
              match Read(b, o, len)
              case Err(er) => Err(er)
              case Ok(m, end) => Ok(Accepted(MessageFrame(id, local, m), []), end)
  }

  function ReadStreamFlag(b: seq<byte>, pos: nat): (r: Parsed<(nat, bool)>)
    requires pos <= |b|
    ensures r.Ok? ==> pos <= r.pos <= |b|
  {
    match ReadInt(b, pos, 8)
    case Err(er) => Err(er)
    case Ok(id, p) =>
      match ReadInt(b, p, 1)
      case Err(er) => Err(er)
      case Ok(x, q) => Ok((id, x != 0), q)
  }

  lemma StreamFlagBack(id: nat, local: bool, rest: seq<byte>, b: seq<byte>, pos: nat)
    requires id < U64_LIMIT && Stands(b, pos, EncodeInt(8, id) + ([if local then 1 else 0] + rest))
    ensures ReadStreamFlag(b, pos) == Ok((id, local), pos + 9) && Stands(b, pos + 9, rest)
  {
    LengthBack(id, [if local then 1 else 0] + rest, b, pos);
    StandsSplit(b, pos + 8, [if local then 1 else 0], rest);
    ReadByteBack(b, pos + 8, if local then 1 else 0);
  }

  lemma MessageRoundTrip(t: EventTy, id: nat, local: bool, m: seq<byte>, b: seq<byte>, pos: nat)
    requires IsFrame(t, MessageFrame(id, local, m)) && Stands(b, pos, EncodeFrame(t, MessageFrame(id, local, m), 0))
    ensures DecodeFrame(t, b, pos) == Ok(Accepted(MessageFrame(id, local, m), []), pos + 18 + |m|)
  {
    StandsSplit(b, pos, [1], EncodeInt(8, id) + ([if local then 1 else 0] + (EncodeInt(8, |m|) + m)));
    ReadByteBack(b, pos, 1);
    StreamFlagBack(id, local, EncodeInt(8, |m|) + m, b, pos + 1);
    LengthBack(|m|, m, b, pos + 10);
  }

  lemma DropRoundTrip(t: EventTy, id: nat, local: bool, b: seq<byte>, pos: nat)
    requires id < U64_LIMIT && Stands(b, pos, EncodeFrame(t, DropFrame(id, local), 0))
    ensures DecodeFrame(t, b, pos) == Ok(Accepted(DropFrame(id, local), []), pos + 10)
  {
    StandsSplit(b, pos, [2], EncodeInt(8, id) + [if local then 1 else 0]);
    ReadByteBack(b, pos, 2);
    assert [if local then 1 else 0] + [] == [if local then 1 else 0];
    StreamFlagBack(id, local, [], b, pos + 1);
  }

  /** Every frame is read back as it was written, with the ids its channels were given. */
  lemma FrameRoundTrip(t: EventTy, f: WireFrame, last: nat, b: seq<byte>, pos: nat)
    requires IsFrame(t, f) && last + FrameLeaves(f) < U64_LIMIT && Stands(b, pos, EncodeFrame(t, f, last))
    ensures DecodeFrame(t, b, pos) == Ok(Accepted(f, Ids(last, FrameLeaves(f))), pos + |EncodeFrame(t, f, last)|)
  {
    match f
    case EventFrame(e) =>
      StandsSplit(b, pos, [0], EncodeEvent(t, e, last));
      ReadByteBack(b, pos, 0);
      EventRoundTrip(t, e, last, b, pos + 1);
    case MessageFrame(id, local, m) => MessageRoundTrip(t, id, local, m, b, pos);
    case DropFrame(id, local) => DropRoundTrip(t, id, local, b, pos);
  }

  // ----- whole connections -----

  function FrameFormat(t: EventTy, b: seq<byte>): Format<WireFrame> {
    Format((f: WireFrame, last: nat) => EncodeFrame(t, f, last), (f: WireFrame) => FrameLeaves(f),
           (pos: nat) => if pos <= |b| then DecodeFrame(t, b, pos) else Err(Eof))
  }

  /** One direction of a connection: the frames come out as they went in, the ids consecutive throughout. */
  lemma ConnectionRoundTrip(t: EventTy, fs: seq<WireFrame>, last: nat, b: seq<byte>, pos: nat)
    requires forall i :: 0 <= i < |fs| ==> IsFrame(t, fs[i])
    requires var f := FrameFormat(t, b);
      last + RunLeaves(f, fs) < U64_LIMIT && Stands(b, pos, WriteRun(f, fs, last))
    ensures var f := FrameFormat(t, b);
      ReadRun(f, |fs|, pos) == Ok(Accepted(fs, Ids(last, RunLeaves(f, fs))), pos + |WriteRun(f, fs, last)|)
  {
    var f := FrameFormat(t, b);
    FramesBack(t, fs, b);
    RunBack(f, b, fs, last, pos);
  }

  lemma {:induction false} FramesBack(t: EventTy, fs: seq<WireFrame>, b: seq<byte>)
    requires forall i :: 0 <= i < |fs| ==> IsFrame(t, fs[i])
    ensures AllBack(FrameFormat(t, b), b, fs)
  {
    if fs != [] {
      FrameBack(t, fs[0], b);
      FramesBack(t, fs[1..], b);
    }
  }

  lemma FrameBack(t: EventTy, x: WireFrame, b: seq<byte>)
    requires IsFrame(t, x)
    ensures Back(FrameFormat(t, b), b, x)
  {
    forall last: nat, pos: nat | last + FrameLeaves(x) < U64_LIMIT && Stands(b, pos, EncodeFrame(t, x, last))
      ensures DecodeFrame(t, b, pos) == Ok(Accepted(x, Ids(last, FrameLeaves(x))), pos + |EncodeFrame(t, x, last)|)
    {
      FrameRoundTrip(t, x, last, b, pos);
    }
  }
}
