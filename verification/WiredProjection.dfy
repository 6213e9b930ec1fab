/**
 Isolation: seen through one stream, the two-endpoint system is that stream alone.
 Every step of the system is one step of `WiredStream` for the stream it is about and no
 step at all for every other stream, even one with the same numeric id opened from the
 other side.
 */
module WiredProjection {
  import opened Wrappers
  import opened WiredStream
  import opened WiredSystem

  function PhaseOf(k: Key, live: set<Key>, gone: set<Key>): Phase {
    if k in live then Present else if k in gone then Gone else Before
  }

  function WItemOf(e: WiredEvent, k: Key): Option<WItem> {
    match e
    case WEvent(_) => None
    case WRegister(id) => if k == Key(id, false) then Some(WiRegister) else None
    case WMessage(key) => if k == key then Some(WiMessage) else None
    case WDrop(key, b) => if k == key then Some(WiDrop(b)) else None
  }

  function UItemOf(e: UnwiredEvent, k: Key): Option<UItem> {
    match e
    case URegister(key) => if k == key then Some(UiRegister) else None
    case UMessage(key, m) => if k == key then Some(UiMessage(m)) else None
    case UDrop(key, b) => if k == key then Some(UiDrop(b)) else None
  }

  /** `k` is the sender's key, so the flag on the frame is the opposite one. */
  function FItemOf(f: Frame, k: Key): Option<FItem> {
    match f
    case FEvent => None
    case FOpen(id) => if k == Key(id, true) then Some(FiOpen) else None
    case FMessage(id, local, m) => if k == Key(id, !local) then Some(FiMessage(m)) else None
    case FDrop(id, local) => if k == Key(id, !local) then Some(FiDrop) else None
  }

  function Unit<T>(o: Option<T>): seq<T> { if o.Some? then [o.value] else [] }

  function WqOf(q: seq<WiredEvent>, k: Key): seq<WItem> {
    if q == [] then [] else Unit(WItemOf(q[0], k)) + WqOf(q[1..], k)
  }

  function UqOf(q: seq<UnwiredEvent>, k: Key): seq<UItem> {
    if q == [] then [] else Unit(UItemOf(q[0], k)) + UqOf(q[1..], k)
  }

  function WireOf(q: seq<Frame>, k: Key): seq<FItem> {
    if q == [] then [] else Unit(FItemOf(q[0], k)) + WireOf(q[1..], k)
  }

  /** One end, seen through one stream. */
  function View(e: End, k: Key): EndView {
    EndView(PhaseOf(k, e.streams, e.removed), if k in e.chan then Some(e.chan[k]) else None,
            e.pc == Telling(k), WqOf(e.wq, k),
            PhaseOf(k, e.reading, e.ended), UqOf(e.uq, k), WireOf(e.wire, k),
            HalvesOf(e, k).write, HalvesOf(e, k).readAlive, LogOf(e, k))
  }

  lemma {:induction false} WqAppend(q: seq<WiredEvent>, e: WiredEvent, k: Key)
    ensures WqOf(q + [e], k) == WqOf(q, k) + Unit(WItemOf(e, k))
  {
    if q == [] {
      assert q + [e] == [e];
    } else {
      WqAppend(q[1..], e, k);
      assert (q + [e])[1..] == q[1..] + [e];
    }
  }

  lemma {:induction false} UqAppend(q: seq<UnwiredEvent>, e: UnwiredEvent, k: Key)
    ensures UqOf(q + [e], k) == UqOf(q, k) + Unit(UItemOf(e, k))
  {
    if q == [] {
      assert q + [e] == [e];
    } else {
      UqAppend(q[1..], e, k);
      assert (q + [e])[1..] == q[1..] + [e];
    }
  }

  lemma {:induction false} WireAppend(q: seq<Frame>, f: Frame, k: Key)
    ensures WireOf(q + [f], k) == WireOf(q, k) + Unit(FItemOf(f, k))
  {
    if q == [] {
      assert q + [f] == [f];
    } else {
      WireAppend(q[1..], f, k);
      assert (q + [f])[1..] == q[1..] + [f];
    }
  }

  /** Which step of stream `k`, if any, a move of its end is. */
  function ActOf(e: End, move: Move, k: Key): Option<Act>
    requires LocalEnabled(e, move)
  {
    match move
    case Take => if WItemOf(e.wq[0], k).Some? then Some(Write) else None
    case Leaf => None
    case Tell => if k == e.pc.key then Some(FinishClose) else None
    case Help => if UItemOf(e.uq[0], k).Some? then Some(Act.Help) else None
    case Send(_) => None
    case FlushData(key, m) => if k == key then Some(Act.FlushData(m)) else None
    case FlushToken(key) => if k == key then Some(Act.FlushToken) else None
    case Shutdown(key) => if k == key then Some(Act.Shutdown) else None
    case DropWrite(key) => if k == key then Some(Act.DropWrite) else None
    case DropRead(key) => if k == key then Some(Act.DropRead) else None
  }

  /** The view of an end after a move is the view before it, or one step of the stream further. */
  ghost predicate Follows(before: EndView, act: Option<Act>, after: EndView) {
    if act.None? then after == before
    else WiredStream.Enabled(before, act.value) && after == Perform(before, act.value)
  }

  /** Taking an event off a queue takes it off the queue of the one stream it is about. */
  lemma PopWq(e: End, k: Key)
    requires e.wq != []
    ensures var v := View(e, k);
            match WItemOf(e.wq[0], k)
            case None => View(e.(wq := e.wq[1..]), k) == v
            case Some(item) =>
              v.wq != [] && v.wq[0] == item && View(e.(wq := e.wq[1..]), k) == v.(wq := v.wq[1..])
  {
    var t := WqOf(e.wq[1..], k);
    match WItemOf(e.wq[0], k)
    case None => assert [] + t == t;
    case Some(item) => assert ([item] + t)[1..] == t;
  }

  lemma PopUq(e: End, k: Key)
    requires e.uq != []
    ensures var v := View(e, k);
            match UItemOf(e.uq[0], k)
            case None => View(e.(uq := e.uq[1..]), k) == v
            case Some(item) =>
              v.uq != [] && v.uq[0] == item && View(e.(uq := e.uq[1..]), k) == v.(uq := v.uq[1..])
  {
    var t := UqOf(e.uq[1..], k);
    match UItemOf(e.uq[0], k)
    case None => assert [] + t == t;
    case Some(item) => assert ([item] + t)[1..] == t;
  }

  /** One event of the writer task, seen through stream `k`. */
  function WriterStep(v: EndView, item: Option<WItem>): EndView {
    if item.Some? then WiredStream.HandleWired(v, item.value) else v
  }

  /** One event of the helper task, seen through stream `k`. */
  function HelperStep(v: EndView, item: Option<UItem>): EndView {
    if item.Some? then WiredStream.HandleUnwired(v, item.value) else v
  }

  lemma MessageFollows(e: End, key: Key, k: Key)
    ensures View(WiredSystem.HandleWired(e, WMessage(key)), k) == WriterStep(View(e, k), WItemOf(WMessage(key), k))
  {
    if key in e.streams && key in e.chan && e.chan[key] != [] {
      WireAppend(e.wire, FMessage(key.id, !key.local, e.chan[key][0]), k);
    }
  }

  lemma DropFollowsOwn(e: End, key: Key, b: bool)
    requires e.pc.Ready?
    ensures View(WiredSystem.HandleWired(e, WDrop(key, b)), key) == WiredStream.HandleWired(View(e, key), WiDrop(b))
  {
    if key in e.streams && b { WireAppend(e.wire, FDrop(key.id, !key.local), key); }
  }

  lemma DropLeavesOthers(e: End, key: Key, b: bool, k: Key)
    requires e.pc.Ready? && k != key
    ensures View(WiredSystem.HandleWired(e, WDrop(key, b)), k) == View(e, k)
  {
    if key in e.streams && b { WireAppend(e.wire, FDrop(key.id, !key.local), k); }
  }

  lemma DropFollows(e: End, key: Key, b: bool, k: Key)
    requires e.pc.Ready?
    ensures View(WiredSystem.HandleWired(e, WDrop(key, b)), k) == WriterStep(View(e, k), WItemOf(WDrop(key, b), k))
  {
    if k == key { DropFollowsOwn(e, key, b); } else { DropLeavesOthers(e, key, b, k); }
  }

  lemma WiredFollows(e: End, event: WiredEvent, k: Key)
    requires e.pc.Ready?
    ensures View(WiredSystem.HandleWired(e, event), k) == WriterStep(View(e, k), WItemOf(event, k))
  {
    match event
    case WEvent(_) => WireAppend(e.wire, FEvent, k);
    case WRegister(_) =>
    case WDrop(key, b) => DropFollows(e, key, b, k);
    case WMessage(key) => MessageFollows(e, key, k);
  }

  lemma TakeFollows(e: End, k: Key)
    requires LocalEnabled(e, Take)
    ensures Follows(View(e, k), ActOf(e, Take, k), View(LocalMove(e, Take), k))
  {
    PopWq(e, k);
    WiredFollows(e.(wq := e.wq[1..]), e.wq[0], k);
  }

  lemma UnwiredDropFollows(e: End, key: Key, b: bool, k: Key)
    ensures View(WiredSystem.HandleUnwired(e, UDrop(key, b)), k) == HelperStep(View(e, k), UItemOf(UDrop(key, b), k))
  {
    if key in e.reading && b {
      WqAppend(e.wq, WDrop(key, false), k);
    }
  }

  lemma RegisterFollows(e: End, key: Key, k: Key)
    ensures View(WiredSystem.HandleUnwired(e, URegister(key)), k) == HelperStep(View(e, k), UItemOf(URegister(key), k))
  {
  }

  lemma DeliveryFollows(e: End, key: Key, m: Message, k: Key)
    ensures View(WiredSystem.HandleUnwired(e, UMessage(key, m)), k) == HelperStep(View(e, k), UItemOf(UMessage(key, m), k))
  {
  }

  lemma UnwiredFollows(e: End, event: UnwiredEvent, k: Key)
    ensures View(WiredSystem.HandleUnwired(e, event), k) == HelperStep(View(e, k), UItemOf(event, k))
  {
    match event
    case URegister(key) => RegisterFollows(e, key, k);
    case UMessage(key, m) => DeliveryFollows(e, key, m, k);
    case UDrop(key, b) => UnwiredDropFollows(e, key, b, k);
  }

  lemma HelpFollows(e: End, k: Key)
    requires LocalEnabled(e, Move.Help)
    ensures Follows(View(e, k), ActOf(e, Move.Help, k), View(LocalMove(e, Move.Help), k))
  {
    PopUq(e, k);
    UnwiredFollows(e.(uq := e.uq[1..]), e.uq[0], k);
  }

  lemma UserDropFollows(e: End, key: Key, k: Key)
    ensures View(WiredSystem.UserDrop(e, key), k) ==
            if k == key then WiredStream.UserDrop(View(e, k)) else View(e, k)
  {
    WqAppend(e.wq, WDrop(key, true), k);
  }

  lemma FlushFollows(e: End, key: Key, m: Message, k: Key)
    ensures View(PushData(e, key, m), k) ==
            if k == key && k in e.chan
            then View(e, k).(rx := Some(e.chan[k] + [m]), write := MidFlush,
                             log := LogOf(e, k).(flushed := LogOf(e, k).flushed + [m]))
            else View(e, k)
    ensures View(PushToken(e, key), k) ==
            if k == key
            then View(e, k).(wq := WqOf(e.wq, k) + [WiMessage], write := Idle,
                             log := LogOf(e, k).(tokens := LogOf(e, k).tokens + 1))
            else View(e, k)
  {
    WqAppend(e.wq, WMessage(key), k);
  }

  lemma TaskFollows(e: End, move: Move, k: Key)
    requires LocalEnabled(e, move) && (move.Tell? || move.Send?)
    ensures Follows(View(e, k), ActOf(e, move, k), View(LocalMove(e, move), k))
  {
    match move
    case Tell => UqAppend(e.uq, UDrop(e.pc.key, false), k);
    case Send(leaves) => WqAppend(e.wq, WEvent(leaves), k);
  }

  lemma FlushMoveFollows(e: End, move: Move, k: Key)
    requires LocalEnabled(e, move) && (move.FlushData? || move.FlushToken?)
    ensures Follows(View(e, k), ActOf(e, move, k), View(LocalMove(e, move), k))
  {
    match move
    case FlushData(key, m) => FlushFollows(e, key, m, k);
    case FlushToken(key) => FlushFollows(e, key, [], k);
  }

  lemma HalvesFollow(e: End, key: Key, h: Halves, k: Key)
    ensures View(e.(halves := e.halves[key := h]), k) ==
            if k == key then View(e, k).(write := h.write, readAlive := h.readAlive) else View(e, k)
  {
  }

  lemma DropMoveFollows(e: End, move: Move, k: Key)
    requires LocalEnabled(e, move) && (move.Shutdown? || move.DropWrite? || move.DropRead?)
    ensures Follows(View(e, k), ActOf(e, move, k), View(LocalMove(e, move), k))
  {
    match move
    case Shutdown(key) => UserDropFollows(e, key, k);
    case DropWrite(key) => DropHalfFollows(e, key, HalvesOf(e, key).(write := Dropped), k);
    case DropRead(key) => DropHalfFollows(e, key, HalvesOf(e, key).(readAlive := false), k);
  }

  lemma DropHalfFollows(e: End, key: Key, h: Halves, k: Key)
    ensures View(WiredSystem.UserDrop(e.(halves := e.halves[key := h]), key), k) ==
            if k == key then WiredStream.UserDrop(View(e, k).(write := h.write, readAlive := h.readAlive)) else View(e, k)
  {
    HalvesFollow(e, key, h, k);
    UserDropFollows(e.(halves := e.halves[key := h]), key, k);
  }

  /** A move is one step of the stream it is about and invisible to every other stream. */
  lemma MoveFollows(e: End, move: Move, k: Key)
    requires LocalEnabled(e, move) && !move.Leaf?
    ensures Follows(View(e, k), ActOf(e, move, k), View(LocalMove(e, move), k))
  {
    match move
    case Take => TakeFollows(e, k);
    case Help => HelpFollows(e, k);
    case Tell => TaskFollows(e, move, k);
    case Send(_) => TaskFollows(e, move, k);
    case FlushData(_, _) => FlushMoveFollows(e, move, k);
    case FlushToken(_) => FlushMoveFollows(e, move, k);
    case _ => DropMoveFollows(e, move, k);
  }

  /** A channel leaf opens exactly one stream: the one with the next id. */
  lemma LeafFollows(e: End, k: Key)
    requires LocalEnabled(e, Leaf)
    ensures View(LocalMove(e, Leaf), k) ==
            if e.pc.leaves > 0 && k == Key(e.streamId + 1, true) then Opened(View(e, k)) else View(e, k)
  {
    if e.pc.leaves > 0 { ConnectFollows(e, k); }
  }

  lemma ConnectFollows(e: End, k: Key)
    requires e.pc.Encoding?
    ensures View(Connect(e), k) == if k == Key(e.streamId + 1, true) then Opened(View(e, k)) else View(e, k)
  {
    UqAppend(e.uq, URegister(Key(e.streamId + 1, true)), k);
    WireAppend(e.wire, FOpen(e.streamId + 1), k);
  }

  /** An id opens exactly the stream it numbers. */
  lemma AcceptFollows(e: End, id: nat, k: Key)
    ensures View(HandleFrame(e, FOpen(id)), k) ==
            if k == Key(id, false) then Received(View(e, k), FiOpen) else View(e, k)
  {
    WqAppend(e.wq, WRegister(id), k);
    UqAppend(e.uq, URegister(Key(id, false)), k);
  }

  lemma FlipKey(id: nat, local: bool, k: Key)
    ensures k == Key(id, local) <==> Flip(k) == Key(id, !local)
  {
  }

  lemma ForwardFollows(e: End, u: UnwiredEvent, k: Key)
    requires !u.URegister?
    ensures View(e.(uq := e.uq + [u]), k) ==
            if UItemOf(u, k).Some? then View(e, k).(uq := View(e, k).uq + [UItemOf(u, k).value]) else View(e, k)
  {
    UqAppend(e.uq, u, k);
    assert UqOf(e.uq, k) + [] == UqOf(e.uq, k);
  }

  /** A frame reaches exactly the stream it was sent for. */
  lemma ReceiveFollows(e: End, f: Frame, k: Key)
    ensures View(HandleFrame(e, f), k) ==
            match FItemOf(f, Flip(k)) case None => View(e, k) case Some(item) => Received(View(e, k), item)
  {
    match f
    case FEvent =>
    case FOpen(id) => AcceptFollows(e, id, k);
    case FMessage(id, local, m) =>
      FlipKey(id, local, k);
      ForwardFollows(e, UMessage(Key(id, local), m), k);
    case FDrop(id, local) =>
      FlipKey(id, local, k);
      ForwardFollows(e, UDrop(Key(id, local), true), k);
  }

  /** Taking a frame off the wire takes it off the wire of the one stream it is about. */
  lemma PopWire(e: End, k: Key)
    requires e.wire != []
    ensures var v := View(e, k);
            match FItemOf(e.wire[0], k)
            case None => View(e.(wire := e.wire[1..]), k) == v
            case Some(item) =>
              v.wire != [] && v.wire[0] == item && View(e.(wire := e.wire[1..]), k) == v.(wire := v.wire[1..])
  {
    var t := WireOf(e.wire[1..], k);
    match FItemOf(e.wire[0], k)
    case None => assert [] + t == t;
    case Some(item) => assert ([item] + t)[1..] == t;
  }
}
