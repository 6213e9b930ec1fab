/**
 The tasks of one endpoint as they are written: objects that update their maps and counters and
 share queues.  Their methods carry out the steps of `WiredSystem`; `Represents` says which
 fields of an `End` an object stands for.
 */
module WiredTasks {
  import opened Bytes
  import opened WiredSystem
  import opened EventRuns
  import opened WiredEvents

  /** An unbounded channel. `offered` remembers everything that was ever sent. */
  class Channel {
    var items: seq<seq<byte>>
    var receiverAlive: bool
    var senderAlive: bool
    ghost var offered: seq<seq<byte>>

    constructor ()
      ensures items == [] && offered == [] && receiverAlive && senderAlive
    {
      items, offered, receiverAlive, senderAlive := [], [], true, true;
    }

    method Send(m: seq<byte>) returns (ok: bool)
      modifies this
      ensures ok == receiverAlive == old(receiverAlive) && senderAlive == old(senderAlive)
      ensures items == (if ok then old(items) + [m] else old(items)) && offered == old(offered) + [m]
    {
      ok := receiverAlive;
      if ok { items := items + [m]; }
      offered := offered + [m];
    }
  }

  /** The internal queues, whose receivers live as long as the endpoint. */
  class Queue<T> {
    var items: seq<T>

    constructor ()
      ensures items == []
    {
      items := [];
    }

    method Send(x: T)
      modifies this
      ensures items == old(items) + [x]
    {
      items := items + [x];
    }
  }

  /** `WiredEvent`, with the receiver that a registration carries. */
  datatype WiredTask =
    | Event(leaves: nat)
    | RegisterWriteHalf(id: nat, rx: Channel)
    | SendMessage(key: Key)
    | DropStream(key: Key, broadcastToRemote: bool)

  function EventOf(t: WiredTask): WiredEvent {
    match t
    case Event(n) => WEvent(n)
    case RegisterWriteHalf(id, _) => WRegister(id)
    case SendMessage(k) => WMessage(k)
    case DropStream(k, b) => WDrop(k, b)
  }

  function EventsOf(ts: seq<WiredTask>): seq<WiredEvent> {
    seq(|ts|, i requires 0 <= i < |ts| => EventOf(ts[i]))
  }

  /** `UnwiredEvent`, with the sender that a registration carries. */
  datatype HelperTask =
    | Deliver(key: Key, message: seq<byte>)
    | RegisterStream(key: Key, tx: Channel)
    | EndStream(key: Key, broadcastToWire: bool)

  function UnwiredOf(t: HelperTask): UnwiredEvent {
    match t
    case Deliver(k, m) => UMessage(k, m)
    case RegisterStream(k, _) => URegister(k)
    case EndStream(k, b) => UDrop(k, b)
  }

  function UnwiredsOf(ts: seq<HelperTask>): seq<UnwiredEvent> {
    seq(|ts|, i requires 0 <= i < |ts| => UnwiredOf(ts[i]))
  }

  /** The whole of what `Wired::run` does for an event: its steps up to the next one. */
  function Handled(e: End, event: WiredEvent): End {
    var d := HandleWired(e.(pc := Ready), event);
    match d.pc
    case Ready => d
    case Encoding(n) => Leafs(d, n).(pc := Ready)
    case Telling(_) => LocalMove(d, Tell)
  }

  /** An event opens one stream for each of its channels: the next ids, in order, behind the event on the wire. */
  lemma EventOpens(e: End, n: nat)
    ensures var h, ids := Handled(e, WEvent(n)), Ids(e.streamId, n);
      && h.streamId == e.streamId + n && h.wire == e.wire + [FEvent] + Opens(ids)
      && h.streams == e.streams + Keys(ids, true) && h.uq == e.uq + Registers(ids, true)
      && h.wq == e.wq && h.reading == e.reading && h.removed == e.removed && h.pc.Ready?
  {
    LeafsOpen(HandleWired(e.(pc := Ready), WEvent(n)), n);
  }

  lemma LeafIsConnect(d: End, n: nat, next: End)
    requires d.pc == Encoding(n) && n > 0 && next == Connect(d.(pc := Encoding(n - 1)))
    ensures next.pc == Encoding(n - 1) && Leafs(d, n) == Leafs(next, n - 1)
  {
    assert LocalMove(d, Leaf) == next;
  }

  // ----- the writer task -----

  class Wired {
    var streamId: nat
    var streams: map<Key, Channel>
    var wire: seq<Frame>
    const unwired: Queue<HelperTask>

    constructor (unwired: Queue<HelperTask>)
      ensures streamId == 0 && streams == map[] && wire == [] && this.unwired == unwired
    {
      this.unwired := unwired;
      streamId, streams, wire := 0, map[], [];
    }

    /** Different keys have different channels. */
    ghost predicate Separate()
      reads this
    {
      forall k, l :: k in streams && l in streams && k != l ==> streams[k] != streams[l]
    }

    ghost predicate Represents(e: End)
      reads this, unwired, streams.Values
    {
      && Separate()
      && e.streamId == streamId && e.streams == streams.Keys
      && e.wire == wire && e.uq == UnwiredsOf(unwired.items)
      && forall k :: k in streams ==> k in e.chan && e.chan[k] == streams[k].items && streams[k].receiverAlive
    }

    /** The two halves of the new stream write to `tx` and read from `rx`. */
    method Connect(ghost e: End) returns (key: Key, tx: Channel, rx: Channel)
      requires Represents(e)
      modifies this, unwired
      ensures key == Key(old(streamId) + 1, true) && fresh(tx) && fresh(rx) && tx != rx
      ensures rx.offered == [] && rx.senderAlive
      ensures streams == old(streams)[key := tx] && unwired.items == old(unwired.items) + [RegisterStream(key, rx)]
      ensures Represents(WiredSystem.Connect(e))
    {
      streamId := streamId + 1;
      key := Key(streamId, true);
      tx := new Channel();
      streams := streams[key := tx];
      rx := new Channel();
      unwired.Send(RegisterStream(key, rx));
      wire := wire + [FOpen(streamId)];
    }

    /** The body of the loop in `run`. */
    method Handle(task: WiredTask, ghost e: End)
      requires Represents(e)
      requires task.RegisterWriteHalf? ==>
        && task.rx !in streams.Values && task.rx.receiverAlive
        && Key(task.id, false) in e.chan && e.chan[Key(task.id, false)] == task.rx.items
      modifies this, unwired, streams.Values
      ensures Represents(Handled(e, EventOf(task)))
    {
      match task
      case Event(leaves) => WireEvent(leaves, e);
      case RegisterWriteHalf(id, rx) => streams := streams[Key(id, false) := rx];
      case DropStream(key, broadcastToRemote) => RemoveStream(key, broadcastToRemote, e);
      case SendMessage(key) => ForwardMessage(key, e);
    }

    /** Writing an event connects a stream for each of its channels. */
    method WireEvent(leaves: nat, ghost e: End)
      requires Represents(e)
      modifies this, unwired
      ensures Represents(Handled(e, WEvent(leaves)))
      ensures var ids := Ids(old(streamId), leaves);
        && streamId == old(streamId) + leaves && wire == old(wire) + [FEvent] + Opens(ids)
        && streams.Keys == old(streams.Keys) + Keys(ids, true)
        && UnwiredsOf(unwired.items) == UnwiredsOf(old(unwired.items)) + Registers(ids, true)
    {
      EventOpens(e, leaves);
      wire := wire + [FEvent];
      ghost var d := HandleWired(e.(pc := Ready), WEvent(leaves));
      WireLeaves(leaves, d, Leafs(d, leaves));
    }

    method WireLeaves(leaves: nat, ghost e: End, ghost target: End)
      requires Represents(e) && e.pc == Encoding(leaves) && target == Leafs(e, leaves)
      modifies this, unwired
      ensures Represents(target)
    {
      if leaves > 0 {
        ghost var before := e.(pc := Encoding(leaves - 1));
        ghost var next := WiredSystem.Connect(before);
        LeafIsConnect(e, leaves, next);
        var _, _, _ := Connect(before);
        WireLeaves(leaves - 1, next, target);
      }
    }

    /** The receiver goes with its entry, so that later flushes fail. */
    method RemoveStream(key: Key, broadcastToRemote: bool, ghost e: End)
      requires Represents(e)
      modifies this, unwired, streams.Values
      ensures Represents(Handled(e, WDrop(key, broadcastToRemote)))
      ensures streams == old(streams) - {key}
      ensures wire == old(wire) + if key in old(streams) && broadcastToRemote then [FDrop(key.id, !key.local)] else []
      ensures unwired.items == old(unwired.items) + if key in old(streams) then [EndStream(key, false)] else []
      ensures key in old(streams) ==> !old(streams)[key].receiverAlive
    {
      if key in streams {
        streams[key].receiverAlive := false;
        streams := streams - {key};
        if broadcastToRemote { wire := wire + [FDrop(key.id, !key.local)]; }
        unwired.Send(EndStream(key, false));
      }
    }

    method ForwardMessage(key: Key, ghost e: End)
      requires Represents(e)
      modifies this, streams.Values
      ensures Represents(Handled(e, WMessage(key))) && streams == old(streams)
      ensures if key in streams && old(streams[key].items) != []
              then streams[key].items == old(streams[key].items)[1..]
                && wire == old(wire) + [FMessage(key.id, !key.local, old(streams[key].items)[0])]
              else wire == old(wire)
    {
      if key in streams {
        var rx := streams[key];
        if rx.items != [] {
          var message := rx.items[0];
          rx.items := rx.items[1..];
          wire := wire + [FMessage(key.id, !key.local, message)];
        }
      }
    }
  }

  // ----- the reader task -----

  class Unwired {
    const unwired: Queue<HelperTask>
    const wired: Queue<WiredTask>

    constructor (unwired: Queue<HelperTask>, wired: Queue<WiredTask>)
      ensures this.unwired == unwired && this.wired == wired
    {
      this.unwired, this.wired := unwired, wired;
    }

    ghost predicate Represents(e: End)
      reads unwired, wired
    {
      e.uq == UnwiredsOf(unwired.items) && e.wq == EventsOf(wired.items)
    }

    /** The id of a stream was read: its write half is registered before its read half. */
    method Connect(id: nat, ghost e: End) returns (tx: Channel, rx: Channel)
      requires Represents(e)
      modifies unwired, wired
      ensures Represents(HandleFrame(e, FOpen(id)))
      ensures fresh(tx) && fresh(rx) && tx != rx
      ensures tx.items == rx.offered == [] && tx.receiverAlive && rx.senderAlive
      ensures wired.items == old(wired.items) + [RegisterWriteHalf(id, tx)]
      ensures unwired.items == old(unwired.items) + [RegisterStream(Key(id, false), rx)]
    {
      tx := new Channel();
      wired.Send(RegisterWriteHalf(id, tx));
      rx := new Channel();
      unwired.Send(RegisterStream(Key(id, false), rx));
    }

    /** The body of the loop in `run`, for the frames that reach it whole. */
    method Handle(frame: Frame, ghost e: End)
      requires Represents(e) && !frame.FOpen?
      modifies unwired
      ensures Represents(HandleFrame(e, frame))
      ensures unwired.items == old(unwired.items) + match frame
        case FMessage(id, local, message) => [Deliver(Key(id, local), message)]
        case FDrop(id, local) => [EndStream(Key(id, local), true)]
        case _ => []
    {
      match frame
      case FEvent =>
      case FMessage(id, local, message) => unwired.Send(Deliver(Key(id, local), message));
      case FDrop(id, local) => unwired.Send(EndStream(Key(id, local), true));
    }
  }

  // ----- the helper task -----

  class Helper {
    var streams: map<Key, Channel>
    const wired: Queue<WiredTask>

    constructor (wired: Queue<WiredTask>)
      ensures streams == map[] && this.wired == wired
    {
      this.wired := wired;
      streams := map[];
    }

    ghost predicate Separate()
      reads this
    {
      forall k, l :: k in streams && l in streams && k != l ==> streams[k] != streams[l]
    }

    ghost predicate Represents(e: End)
      reads this, wired, streams.Values
    {
      && Separate()
      && e.reading == streams.Keys && e.wq == EventsOf(wired.items)
      && forall k :: k in streams ==> LogOf(e, k).delivered == streams[k].offered && streams[k].senderAlive
    }

    /** The body of the loop in `helper_task`. */
    method Handle(task: HelperTask, ghost e: End)
      requires Represents(e)
      requires task.RegisterStream? ==>
        task.tx !in streams.Values && task.tx.senderAlive && task.tx.offered == LogOf(e, task.key).delivered
      modifies this, wired, streams.Values
      ensures Represents(HandleUnwired(e, UnwiredOf(task)))
      ensures task.Deliver? && task.key in old(streams) ==>
        streams == old(streams) && streams[task.key].offered == old(streams[task.key].offered) + [task.message]
      ensures task.RegisterStream? ==> streams == old(streams)[task.key := task.tx]
      ensures task.EndStream? ==> streams == old(streams) - {task.key}
      ensures task.EndStream? && task.key in old(streams) ==> !old(streams)[task.key].senderAlive
    {
      match task
      case Deliver(key, message) =>
        if key in streams { var _ := streams[key].Send(message); }
      case RegisterStream(key, tx) => streams := streams[key := tx];
      case EndStream(key, broadcastToWire) => RemoveStream(key, broadcastToWire, e);
    }

    /** The sender goes with its entry, so that the reader sees the end of the stream. */
    method RemoveStream(key: Key, broadcastToWire: bool, ghost e: End)
      requires Represents(e)
      modifies this, wired, streams.Values
      ensures Represents(HandleUnwired(e, UDrop(key, broadcastToWire)))
      ensures streams == old(streams) - {key}
      ensures key in old(streams) ==> !old(streams)[key].senderAlive
      ensures wired.items == old(wired.items) + if key in old(streams) && broadcastToWire then [DropStream(key, false)] else []
    {
      if key in streams {
        streams[key].senderAlive := false;
        streams := streams - {key};
        if broadcastToWire { wired.Send(DropStream(key, false)); }
      }
    }
  }

  // ----- the halves of a stream -----

  class InternalWriteHalf {
    const key: Key
    const wired: Queue<WiredTask>
    const tx: Channel
    var buf: seq<byte>

    constructor (key: Key, wired: Queue<WiredTask>, tx: Channel)
      ensures this.key == key && this.wired == wired && this.tx == tx && buf == []
    {
      this.key, this.wired, this.tx, buf := key, wired, tx, [];
    }

    ghost predicate Represents(e: End)
      reads wired, tx
    {
      && e.wq == EventsOf(wired.items)
      && (key in e.chan <==> tx.receiverAlive) && (key in e.chan ==> e.chan[key] == tx.items)
    }

    method PollWrite(bytes: seq<byte>)
      modifies this
      ensures buf == old(buf) + bytes
    {
      buf := buf + bytes;
    }

    /** What was written since the last flush becomes one message: first its data, then its token. */
    method PollFlush(ghost e: End) returns (ok: bool)
      requires Represents(e)
      modifies this, tx, wired
      ensures buf == [] && ok == old(tx.receiverAlive)
      ensures Represents(if ok then PushToken(PushData(e, key, old(buf)), key) else PushData(e, key, old(buf)))
      ensures tx.items == (if ok then old(tx.items) + [old(buf)] else old(tx.items))
      ensures wired.items == (if ok then old(wired.items) + [SendMessage(key)] else old(wired.items))
    {
      var message := buf;
      buf := [];
      ok := tx.Send(message);
      if ok { wired.Send(SendMessage(key)); }
    }

    /** `poll_shutdown`, and the drop of a handle */
    method Close(ghost e: End)
      requires Represents(e)
      modifies wired
      ensures Represents(UserDrop(e, key)) && wired.items == old(wired.items) + [DropStream(key, true)]
    {
      wired.Send(DropStream(key, true));
    }
  }
}
