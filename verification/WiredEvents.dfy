/** The streams that an event opens at both ends: the steps of the system and the bytes agree. */
module WiredEvents {
  import opened Bytes
  import opened EventRuns
  import opened Events
  import opened WiredSystem

  function Registers(ids: seq<nat>, local: bool): seq<UnwiredEvent> {
    if ids == [] then [] else [URegister(Key(ids[0], local))] + Registers(ids[1..], local)
  }

  function Opens(ids: seq<nat>): seq<Frame> {
    if ids == [] then [] else [FOpen(ids[0])] + Opens(ids[1..])
  }

  function WriteRegisters(ids: seq<nat>): seq<WiredEvent> {
    if ids == [] then [] else [WRegister(ids[0])] + WriteRegisters(ids[1..])
  }

  function Keys(ids: seq<nat>, local: bool): set<Key> {
    if ids == [] then {} else {Key(ids[0], local)} + Keys(ids[1..], local)
  }

  /** `n` channels of the event at hand are encoded. */
  function Leafs(e: End, n: nat): End
    requires e.pc.Encoding? && n <= e.pc.leaves
    decreases n
  {
    if n == 0 then e else Leafs(LocalMove(e, Leaf), n - 1)
  }

  /** The ids of an event's channels are read. */
  function Accepts(e: End, ids: seq<nat>): End
    decreases |ids|
  {
    if ids == [] then e else Accepts(HandleFrame(e, FOpen(ids[0])), ids[1..])
  }

  lemma {:induction false} LeafsOpen(e: End, n: nat)
    requires e.pc.Encoding? && n <= e.pc.leaves
    ensures var ids, e' := Ids(e.streamId, n), Leafs(e, n);
      && e'.streamId == e.streamId + n && e'.pc == Encoding(e.pc.leaves - n)
      && e'.wire == e.wire + Opens(ids) && e'.uq == e.uq + Registers(ids, true)
      && e'.streams == e.streams + Keys(ids, true) && e'.reading == e.reading && e'.wq == e.wq
      && e'.removed == e.removed
    decreases n
  {
    if n > 0 {
      var d := LocalMove(e, Leaf);
      LeafsOpen(d, n - 1);
      var ids := Ids(e.streamId, n);
      assert ids[1..] == Ids(d.streamId, n - 1) && ids[0] == e.streamId + 1;
    }
  }

  lemma {:induction false} AcceptsRegister(e: End, ids: seq<nat>)
    ensures var e' := Accepts(e, ids);
      && e'.uq == e.uq + Registers(ids, false) && e'.wq == e.wq + WriteRegisters(ids)
      && e'.streamId == e.streamId && e'.wire == e.wire
      && e'.streams == e.streams && e'.reading == e.reading && e'.pc == e.pc
    decreases |ids|
  {
    if ids != [] { AcceptsRegister(HandleFrame(e, FOpen(ids[0])), ids[1..]); }
  }

  /**
   Taking an event off its queue and writing it opens a stream per channel, with consecutive new ids in
   the order of the channels; wherever its bytes stand the peer reads the same event and accepts the
   same ids in the same order, with the opposite flag.
   */
  lemma EventOpensSameStreams(t: EventTy, event: Event, writer: End, reader: End, b: seq<byte>, pos: nat)
    requires IsEvent(t, event) && writer.streamId + Leaves(event) < U64_LIMIT
    requires writer.pc.Ready? && writer.wq != [] && writer.wq[0] == WEvent(Leaves(event))
    requires Stands(b, pos, EncodeEvent(t, event, writer.streamId))
    ensures var taken, r := LocalMove(writer, Take), DecodeEvent(t, b, pos);
      && r.Ok? && r.value.value == event && r.pos == pos + |EncodeEvent(t, event, writer.streamId)|
      && r.value.ids == Ids(writer.streamId, Leaves(event))
      && taken.pc == Encoding(Leaves(event)) && taken.wire == writer.wire + [FEvent] && taken.wq == writer.wq[1..]
      && Accepts(reader, r.value.ids).uq == reader.uq + Registers(r.value.ids, false)
      && Accepts(reader, r.value.ids).wq == reader.wq + WriteRegisters(r.value.ids)
    ensures var w, ids := Leafs(LocalMove(writer, Take), Leaves(event)), Ids(writer.streamId, Leaves(event));
      && w.pc == Encoding(0) && LocalMove(w, Leaf) == w.(pc := Ready) && w.streamId == writer.streamId + Leaves(event)
      && w.wire == writer.wire + [FEvent] + Opens(ids)
      && w.streams == writer.streams + Keys(ids, true) && w.uq == writer.uq + Registers(ids, true)
  {
    EventRoundTrip(t, event, writer.streamId, b, pos);
    LeafsOpen(LocalMove(writer, Take), Leaves(event));
    AcceptsRegister(reader, Ids(writer.streamId, Leaves(event)));
  }

  /** The ids are distinct and larger than any before. */
  lemma {:induction false} IdsAreNew(last: nat, n: nat, i: nat)
    requires i < n
    ensures |Ids(last, n)| == n && Ids(last, n)[i] == last + 1 + i
    decreases n
  {
    if n > 1 {
      IdsAreNew(last + 1, n - 1, if i > 0 then i - 1 else 0);
    } else {
      OneId(last);
    }
  }
}
