/**
 Two endpoints sharing one byte connection (`wiring/src/core/wired.rs`).

 Each end has a writer task (`Wired::run`), a reader task (`Unwired::run`) and a helper
 task, joined by two unbounded FIFO queues, and writes to its own direction of the wire.
 A run is any interleaving of the steps below.  Queue sends inside one handler are one
 step where nothing else can tell them apart; the two sends of `poll_flush` and the
 wire-then-helper order of a removal are separate steps.
 */
module WiredSystem {
  import opened Wrappers
  import opened WiredStream

  /** The map key: a stream id and whether this end opened it. */
  datatype Key = Key(id: nat, local: bool)

  function Flip(k: Key): Key { Key(k.id, !k.local) }

  /** An event carries some number of channels, each of which becomes a stream. */
  datatype WiredEvent =
    | WEvent(leaves: nat)
    | WRegister(id: nat)
    | WMessage(key: Key)
    | WDrop(key: Key, broadcastToRemote: bool)

  datatype UnwiredEvent =
    | URegister(key: Key)
    | UMessage(key: Key, message: Message)
    | UDrop(key: Key, broadcastToWire: bool)

  /** Frames. `local` is already flipped: it is the receiver's flag. */
  datatype Frame =
    | FEvent
    | FOpen(id: nat)
    | FMessage(id: nat, local: bool, message: Message)
    | FDrop(id: nat, local: bool)

  /**
   Where the writer task stands: between two events, inside an event with so many channels
   still to encode, or between removing a stream and telling the helper.
   */
  datatype Pc = Ready | Encoding(leaves: nat) | Telling(key: Key)

  datatype Halves = Halves(write: WriteHalf, readAlive: bool)

  /**
   One endpoint. `streams` and `reading` are the keys of the writer's and the helper's map;
   `chan` is what waits in the data queue of each live receiver. `removed` and `ended`
   remember which keys left the two maps.
   */
  datatype End = End(
    streamId: nat, streams: set<Key>, removed: set<Key>, chan: map<Key, seq<Message>>,
    pc: Pc, wq: seq<WiredEvent>,
    reading: set<Key>, ended: set<Key>, uq: seq<UnwiredEvent>,
    wire: seq<Frame>, halves: map<Key, Halves>, log: map<Key, Log>)

  const NEW_END := End(0, {}, {}, map[], Ready, [], {}, {}, [], [], map[], map[])

  datatype Side = Left | Right

  function Other(side: Side): Side { if side.Left? then Right else Left }

  datatype System = System(left: End, right: End)

  const INIT := System(NEW_END, NEW_END)

  function At(s: System, side: Side): End { if side.Left? then s.left else s.right }

  function Put(s: System, side: Side, e: End): System {
    if side.Left? then s.(left := e) else s.(right := e)
  }

  datatype Move =
    | Take | Leaf | Tell | Help | Receive      // the tasks; Leaf encodes a channel or ends the event
    | Send(leaves: nat)                        // the users
    | FlushData(key: Key, message: Message) | FlushToken(key: Key)
    | Shutdown(key: Key) | DropWrite(key: Key) | DropRead(key: Key)

  datatype Step = Step(side: Side, move: Move)

  function LogOf(e: End, k: Key): Log { if k in e.log then e.log[k] else EMPTY_LOG }

  function HalvesOf(e: End, k: Key): Halves {
    if k in e.halves then e.halves[k] else Halves(NoHalf, false)
  }

  // ----- the tasks -----

  /** `Wired::connect` */
  function Connect(e: End): End {
    var k := Key(e.streamId + 1, true);
    e.(streamId := e.streamId + 1,
       streams := e.streams + {k},
       chan := e.chan[k := []],
       uq := e.uq + [URegister(k)],
       wire := e.wire + [FOpen(k.id)],
       halves := e.halves[k := Halves(Idle, true)])
  }

  /** The body of the loop in `Wired::run`. */
  function HandleWired(e: End, event: WiredEvent): End {
    match event
    case WEvent(leaves) =>
      e.(pc := Encoding(leaves), wire := e.wire + [FEvent])
    case WRegister(id) => e.(streams := e.streams + {Key(id, false)})
    case WDrop(k, broadcast) =>
      if k in e.streams then
        e.(streams := e.streams - {k}, removed := e.removed + {k}, chan := e.chan - {k},
           pc := Telling(k),
           wire := if broadcast then e.wire + [FDrop(k.id, !k.local)] else e.wire,
           log := if broadcast then e.log[k := LogOf(e, k).(drops := LogOf(e, k).drops + 1)] else e.log)
      else e
    case WMessage(k) =>
      if k in e.streams && k in e.chan && e.chan[k] != [] then
        var m := e.chan[k][0];
        e.(chan := e.chan[k := e.chan[k][1..]],
           wire := e.wire + [FMessage(k.id, !k.local, m)],
           log := e.log[k := LogOf(e, k).(sent := LogOf(e, k).sent + [m])])
      else e
  }

  /** The body of the loop in `helper_task`. */
  function HandleUnwired(e: End, event: UnwiredEvent): End {
    match event
    case UMessage(k, m) =>
      if k in e.reading then
        e.(log := e.log[k := LogOf(e, k).(delivered := LogOf(e, k).delivered + [m])])
      else e
    case URegister(k) => e.(reading := e.reading + {k})
    case UDrop(k, broadcast) =>
      if k in e.reading then
        e.(reading := e.reading - {k}, ended := e.ended + {k},
           wq := if broadcast then e.wq + [WDrop(k, false)] else e.wq)
      else e
  }

  /** The body of the loop in `Unwired::run`, with `Unwired::connect` for an id. */
  function HandleFrame(e: End, frame: Frame): End {
    match frame
    case FEvent => e
    case FOpen(id) =>
      var k := Key(id, false);
      e.(chan := e.chan[k := []],
         wq := e.wq + [WRegister(id)],
         uq := e.uq + [URegister(k)],
         halves := e.halves[k := Halves(Idle, true)])
    case FMessage(id, local, m) => e.(uq := e.uq + [UMessage(Key(id, local), m)])
    case FDrop(id, local) => e.(uq := e.uq + [UDrop(Key(id, local), true)])
  }

  // ----- the users -----

  /** `Drop for WiredStreamHandle` and `poll_shutdown` */
  function UserDrop(e: End, k: Key): End {
    e.(wq := e.wq + [WDrop(k, true)],
       log := if LogOf(e, k).cut.None?
              then e.log[k := LogOf(e, k).(cut := Some(LogOf(e, k).tokens))] else e.log)
  }

  /** The first half of `poll_flush`: with the receiver gone it fails and ends there. */
  function PushData(e: End, k: Key, m: Message): End {
    if k in e.chan then
      e.(chan := e.chan[k := e.chan[k] + [m]],
         halves := e.halves[k := HalvesOf(e, k).(write := MidFlush)],
         log := e.log[k := LogOf(e, k).(flushed := LogOf(e, k).flushed + [m])])
    else e
  }

  /** The second half of `poll_flush`. */
  function PushToken(e: End, k: Key): End {
    e.(wq := e.wq + [WMessage(k)],
       halves := e.halves[k := HalvesOf(e, k).(write := Idle)],
       log := e.log[k := LogOf(e, k).(tokens := LogOf(e, k).tokens + 1)])
  }

  // ----- steps and runs -----

  predicate LocalEnabled(e: End, move: Move) {
    match move
    case Take => e.pc.Ready? && e.wq != []
    case Leaf => e.pc.Encoding?
    case Tell => e.pc.Telling?
    case Help => e.uq != []
    case Receive => false
    case Send(_) => true
    case FlushData(k, _) => HalvesOf(e, k).write.Idle?
    case FlushToken(k) => HalvesOf(e, k).write.MidFlush?
    case Shutdown(k) => HalvesOf(e, k).write.Idle?
    case DropWrite(k) => HalvesOf(e, k).write.Idle?
    case DropRead(k) => HalvesOf(e, k).readAlive
  }

  function LocalMove(e: End, move: Move): End
    requires LocalEnabled(e, move)
  {
    match move
    case Take => HandleWired(e.(wq := e.wq[1..]), e.wq[0])
    case Leaf => if e.pc.leaves == 0 then e.(pc := Ready) else Connect(e).(pc := Encoding(e.pc.leaves - 1))
    case Tell => e.(pc := Ready, uq := e.uq + [UDrop(e.pc.key, false)])
    case Help => HandleUnwired(e.(uq := e.uq[1..]), e.uq[0])
    case Send(leaves) => e.(wq := e.wq + [WEvent(leaves)])
    case FlushData(k, m) => PushData(e, k, m)
    case FlushToken(k) => PushToken(e, k)
    case Shutdown(k) => UserDrop(e, k)
    case DropWrite(k) => UserDrop(e.(halves := e.halves[k := HalvesOf(e, k).(write := Dropped)]), k)
    case DropRead(k) => UserDrop(e.(halves := e.halves[k := HalvesOf(e, k).(readAlive := false)]), k)
  }

  predicate Enabled(s: System, step: Step) {
    if step.move.Receive? then At(s, Other(step.side)).wire != []
    else LocalEnabled(At(s, step.side), step.move)
  }

  function Apply(s: System, step: Step): System
    requires Enabled(s, step)
  {
    var e, far := At(s, step.side), At(s, Other(step.side));
    if step.move.Receive? then
      Put(Put(s, Other(step.side), far.(wire := far.wire[1..])), step.side, HandleFrame(e, far.wire[0]))
    else
      Put(s, step.side, LocalMove(e, step.move))
  }

  /** The state after a run, or None when some step was not enabled. */
  function Run(s: System, steps: seq<Step>): Option<System> {
    if steps == [] then Some(s)
    else
      var before := Run(s, steps[..|steps| - 1]);
      if before.Some? && Enabled(before.value, steps[|steps| - 1])
      then Some(Apply(before.value, steps[|steps| - 1])) else None
  }

  ghost predicate Reachable(s: System) {
    exists steps :: Run(INIT, steps) == Some(s)
  }
}
