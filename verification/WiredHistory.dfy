/**
 What the users did to a stream, read off the steps of a run, and what has become of it: nothing here
 depends on the logs that the states carry.
 */
module WiredHistory {
  import opened Wrappers
  import opened WiredStream
  import opened WiredSystem
  import opened WiredProjection
  import opened WiredSafety
  import opened WiredTermination

  /**
   The user steps of one end for one stream: whether the write half, the read half, or any half was
   dropped or shut down, the messages given to the write half, and the flushes completed.
   */
  datatype History = History(writeDropped: bool, readDropped: bool, closed: bool, messages: seq<Message>, flushes: nat)

  const NOTHING := History(false, false, false, [], 0)

  function Recall(steps: seq<Step>, side: Side, k: Key): History {
    if steps == [] then NOTHING
    else
      var h, x := Recall(steps[..|steps| - 1], side, k), steps[|steps| - 1];
      if x.side != side then h
      else
        match x.move
        case Shutdown(key) => if key == k then h.(closed := true) else h
        case DropWrite(key) => if key == k then h.(closed := true, writeDropped := true) else h
        case DropRead(key) => if key == k then h.(closed := true, readDropped := true) else h
        case FlushData(key, m) => if key == k then h.(messages := h.messages + [m]) else h
        case FlushToken(key) => if key == k then h.(flushes := h.flushes + 1) else h
        case _ => h
  }

  /** One of these steps is in the run. */
  ghost predicate ClosedIn(steps: seq<Step>, side: Side, k: Key) {
    Step(side, Move.Shutdown(k)) in steps || Step(side, Move.DropWrite(k)) in steps || Step(side, Move.DropRead(k)) in steps
  }

  lemma {:induction false} RecallCloses(steps: seq<Step>, side: Side, k: Key)
    ensures Recall(steps, side, k).closed <==> ClosedIn(steps, side, k)
    ensures Recall(steps, side, k).writeDropped <==> Step(side, Move.DropWrite(k)) in steps
    ensures Recall(steps, side, k).readDropped <==> Step(side, Move.DropRead(k)) in steps
  {
    if steps != [] {
      var front, x := steps[..|steps| - 1], steps[|steps| - 1];
      RecallCloses(front, side, k);
      assert steps == front + [x];
    }
  }

  // ----- one stream -----

  /** What an end of a stream has to show for its history. */
  ghost predicate Remembers(x: EndView, h: History) {
    && (x.log.cut.Some? <==> h.closed)
    && (x.write.Dropped? <==> h.writeDropped)
    && (Created(x) && !x.readAlive <==> h.readDropped)
    && x.log.tokens == h.flushes
    && x.log.flushed <= h.messages && (x.rx.Some? ==> x.log.flushed == h.messages)
    && (!Created(x) ==> h == NOTHING)
  }

  function After(h: History, act: Option<Act>): History {
    match act
    case None => h
    case Some(Shutdown) => h.(closed := true)
    case Some(DropWrite) => h.(closed := true, writeDropped := true)
    case Some(DropRead) => h.(closed := true, readDropped := true)
    case Some(FlushData(m)) => h.(messages := h.messages + [m])
    case Some(FlushToken) => h.(flushes := h.flushes + 1)
    case _ => h
  }

  lemma TaskRemembers(x: EndView, h: History, act: Act)
    requires (x.rx.Some? ==> Created(x)) && WiredStream.Enabled(x, act) && Remembers(x, h)
    requires act.Write? || act.FinishClose? || act.Help?
    ensures Remembers(Perform(x, act), h)
  {
  }

  lemma UserRemembers(x: EndView, h: History, act: Act)
    requires WiredStream.Enabled(x, act) && Remembers(x, h) && (x.readAlive ==> Created(x))
    requires !act.Write? && !act.FinishClose? && !act.Help?
    ensures Remembers(Perform(x, act), After(h, Some(act)))
  {
  }

  lemma ActRemembers(x: EndView, h: History, act: Act)
    requires EndInv(x) && WiredStream.Enabled(x, act) && Remembers(x, h)
    ensures Remembers(Perform(x, act), After(h, Some(act)))
  {
    assert !Created(x) ==> x == FRESH;
    if act.Write? || act.FinishClose? || act.Help? { TaskRemembers(x, h, act); } else { UserRemembers(x, h, act); }
  }

  lemma OpenRemembers(h: History)
    requires Remembers(FRESH, h)
    ensures Remembers(Opened(FRESH), h) && Remembers(Received(FRESH, FiOpen), h)
  {
  }

  lemma FrameRemembers(x: EndView, h: History, f: FItem)
    requires Remembers(x, h) && (f.FiOpen? ==> x == FRESH)
    ensures Remembers(Received(x, f), h)
  {
    if f.FiOpen? { OpenRemembers(h); }
  }

  // ----- runs -----

  /** The user step of a move, if it is one for stream `k`. */
  lemma MoveIsRecalled(e: End, move: Move, k: Key, front: seq<Step>, side: Side)
    requires LocalEnabled(e, move) && !move.Leaf?
    ensures Recall(front + [Step(side, move)], side, k) == After(Recall(front, side, k), ActOf(e, move, k))
  {
    var steps := front + [Step(side, move)];
    assert steps[..|steps| - 1] == front && steps[|steps| - 1] == Step(side, move);
  }

  lemma OthersAreNotRecalled(x: Step, k: Key, front: seq<Step>, side: Side)
    requires x.side != side || x.move.Leaf? || x.move.Receive?
    ensures Recall(front + [x], side, k) == Recall(front, side, k)
  {
    var steps := front + [x];
    assert steps[..|steps| - 1] == front && steps[|steps| - 1] == x;
  }

  lemma LocalRemembers(s: System, x: Step, side: Side, k: Key, front: seq<Step>)
    requires Reachable(s) && WiredSystem.Enabled(s, x) && x.side == side && !x.move.Leaf? && !x.move.Receive?
    requires Remembers(View(At(s, side), k), Recall(front, side, k))
    ensures Remembers(View(At(Apply(s, x), side), k), Recall(front + [x], side, k))
  {
    var e, h := At(s, side), Recall(front, side, k);
    var act := ActOf(e, x.move, k);
    MoveFollows(e, x.move, k);
    MoveIsRecalled(e, x.move, k, front, side);
    Ends(s, side, k);
    if act.Some? { ActRemembers(View(e, k), h, act.value); }
  }

  lemma LeafRemembers(s: System, x: Step, side: Side, k: Key, front: seq<Step>)
    requires Reachable(s) && WiredSystem.Enabled(s, x) && x.side == side && x.move.Leaf?
    requires Remembers(View(At(s, side), k), Recall(front, side, k))
    ensures Remembers(View(At(Apply(s, x), side), k), Recall(front + [x], side, k))
  {
    var e := At(s, side);
    LeafFollows(e, k);
    OthersAreNotRecalled(x, k, front, side);
    NewIdsAreFresh(s, side);
    if k == Key(e.streamId + 1, true) { OpenRemembers(Recall(front, side, k)); }
  }

  /** An id is only received by an end that does not know the stream yet. */
  lemma OpenIsForFresh(s: System, side: Side, k: Key)
    requires Reachable(s) && At(s, Other(side)).wire != []
    requires FItemOf(At(s, Other(side)).wire[0], Flip(k)) == Some(FiOpen)
    ensures View(At(s, side), k) == FRESH
  {
    ReachableInv(s);
    assert OneStreamInv(s, if k.local then side else Other(side), k.id);
    PopWire(At(s, Other(side)), Flip(k));
  }

  lemma ReceiveRemembers(s: System, x: Step, side: Side, k: Key, front: seq<Step>)
    requires Reachable(s) && WiredSystem.Enabled(s, x) && x.side == side && x.move.Receive?
    requires Remembers(View(At(s, side), k), Recall(front, side, k))
    ensures Remembers(View(At(Apply(s, x), side), k), Recall(front + [x], side, k))
  {
    var f := At(s, Other(side)).wire[0];
    ReceiveFollows(At(s, side), f, k);
    OthersAreNotRecalled(x, k, front, side);
    var item := FItemOf(f, Flip(k));
    if item == Some(FiOpen) { OpenIsForFresh(s, side, k); }
    if item.Some? { FrameRemembers(View(At(s, side), k), Recall(front, side, k), item.value); }
  }

  /** A step of the other end leaves this one as it is, but for its wire. */
  lemma FarRemembers(s: System, x: Step, side: Side, k: Key, front: seq<Step>)
    requires WiredSystem.Enabled(s, x) && x.side != side
    requires Remembers(View(At(s, side), k), Recall(front, side, k))
    ensures Remembers(View(At(Apply(s, x), side), k), Recall(front + [x], side, k))
  {
    OthersAreNotRecalled(x, k, front, side);
    if x.move.Receive? { PopWire(At(s, side), k); }
  }

  lemma {:induction false} RunRemembers(steps: seq<Step>, s: System, side: Side, k: Key)
    requires Run(INIT, steps) == Some(s)
    ensures Remembers(View(At(s, side), k), Recall(steps, side, k))
  {
    if steps != [] {
      var front, x := steps[..|steps| - 1], steps[|steps| - 1];
      var before := Run(INIT, front).value;
      RunRemembers(front, before, side, k);
      assert front + [x] == steps;
      if x.side != side { FarRemembers(before, x, side, k, front); }
      else if x.move.Receive? { ReceiveRemembers(before, x, side, k, front); }
      else if x.move.Leaf? { LeafRemembers(before, x, side, k, front); }
      else { LocalRemembers(before, x, side, k, front); }
    }
  }

  // ----- closing -----

  /**
   Once a run has drained, an opened stream has its entries exactly if no half of it was dropped or
   shut down in the run, at either end.
   */
  lemma GoneExactlyWhenClosed(steps: seq<Step>, s: System, side: Side, id: nat)
    requires Run(INIT, steps) == Some(s) && Quiet(s) && 1 <= id <= At(s, side).streamId
    ensures var k, e, far := Key(id, true), At(s, side), At(s, Other(side));
      var open := !ClosedIn(steps, side, k) && !ClosedIn(steps, Other(side), Flip(k));
      && (k in e.streams <==> open) && (k in e.reading <==> open)
      && (Flip(k) in far.streams <==> open) && (Flip(k) in far.reading <==> open)
  {
    var k := Key(id, true);
    DroppedStreamsLeaveNoEntry(s, side, id);
    MapsAgreeWhenQuiet(s, side, k);
    RunRemembers(steps, s, side, k);
    RunRemembers(steps, s, Other(side), Flip(k));
    RecallCloses(steps, side, k);
    RecallCloses(steps, Other(side), Flip(k));
  }

  /** A stream with a dropped half is in none of the four maps of a quiet system. */
  lemma DroppedHalfIsGone(s: System, side: Side, k: Key)
    requires Reachable(s) && Quiet(s)
    requires var h := HalvesOf(At(s, side), k); h.write.Dropped? || (!h.write.NoHalf? && !h.readAlive)
    ensures k !in At(s, side).streams + At(s, side).reading
    ensures Flip(k) !in At(s, Other(side)).streams + At(s, Other(side)).reading
  {
    var steps :| Run(INIT, steps) == Some(s);
    RunRemembers(steps, s, side, k);
    RecallCloses(steps, side, k);
    ReachableInv(s);
    var opener := if k.local then side else Other(side);
    assert OneStreamInv(s, opener, k.id);
    GoneExactlyWhenClosed(steps, s, opener, k.id);
    assert Other(Other(side)) == side;
  }

  // ----- which steps the users can take -----

  /** The end has the halves of the stream: it opened it, or has received its id. */
  ghost predicate Known(s: System, side: Side, k: Key) {
    var far := At(s, Other(side));
    if k.local then 1 <= k.id <= At(s, side).streamId else 1 <= k.id <= far.streamId && FOpen(k.id) !in far.wire
  }

  lemma {:induction false} OpenOnWire(q: seq<Frame>, id: nat)
    ensures Holds(WireOf(q, Key(id, true)), FiOpen) <==> FOpen(id) in q
  {
    if q != [] {
      var k, rest := Key(id, true), WireOf(q[1..], Key(id, true));
      OpenOnWire(q[1..], id);
      match FItemOf(q[0], k)
      case None => assert [] + rest == rest;
      case Some(item) => assert ([item] + rest)[1..] == rest;
    }
  }

  lemma KnownIsCreated(s: System, side: Side, k: Key)
    requires Reachable(s)
    ensures Created(View(At(s, side), k)) <==> Known(s, side, k)
  {
    ReachableInv(s);
    var opener := if k.local then side else Other(side);
    assert OneStreamInv(s, opener, k.id);
    if !k.local {
      OpenOnWire(At(s, opener).wire, k.id);
      assert Flip(k) == Key(k.id, true);
    }
  }

  /** The state of the halves, told by the history. */
  lemma HalvesTell(x: EndView, h: History)
    requires EndInv(x) && Remembers(x, h)
    ensures x.write.Idle? <==> Created(x) && !h.writeDropped && h.flushes == |x.log.flushed|
    ensures x.write.MidFlush? <==> h.flushes < |x.log.flushed|
    ensures x.readAlive <==> Created(x) && !h.readDropped
  {
  }

  lemma HalvesAt(steps: seq<Step>, s: System, side: Side, k: Key)
    requires Run(INIT, steps) == Some(s)
    ensures var e, h := At(s, side), Recall(steps, side, k);
      var x, n := HalvesOf(e, k), |LogOf(e, k).flushed|;
      && (x.write.Idle? <==> Known(s, side, k) && !h.writeDropped && h.flushes == n)
      && (x.write.MidFlush? <==> h.flushes < n)
      && (x.readAlive <==> Known(s, side, k) && !h.readDropped)
  {
    RunRemembers(steps, s, side, k);
    Ends(s, side, k);
    HalvesTell(View(At(s, side), k), Recall(steps, side, k));
    KnownIsCreated(s, side, k);
  }

  /** The write half can be used. */
  ghost predicate Usable(steps: seq<Step>, s: System, side: Side, k: Key) {
    && Known(s, side, k) && Step(side, Move.DropWrite(k)) !in steps
    && Recall(steps, side, k).flushes == |LogOf(At(s, side), k).flushed|
  }

  lemma UsableIsIdle(steps: seq<Step>, s: System, side: Side, k: Key)
    requires Run(INIT, steps) == Some(s)
    ensures Usable(steps, s, side, k) <==> HalvesOf(At(s, side), k).write.Idle?
    ensures Recall(steps, side, k).flushes < |LogOf(At(s, side), k).flushed| <==> HalvesOf(At(s, side), k).write.MidFlush?
    ensures Known(s, side, k) && Step(side, Move.DropRead(k)) !in steps <==> HalvesOf(At(s, side), k).readAlive
  {
    HalvesAt(steps, s, side, k);
    RecallCloses(steps, side, k);
  }

  /**
   A known write half can be used until it is dropped, except in the middle of a flush, which can then
   be completed; a known read half can be dropped once.
   */
  lemma UserStepsExactlyWhen(steps: seq<Step>, s: System, side: Side, k: Key, m: Message)
    requires Run(INIT, steps) == Some(s)
    ensures var e := At(s, side);
      && (LocalEnabled(e, Move.FlushData(k, m)) <==> Usable(steps, s, side, k))
      && (LocalEnabled(e, Move.Shutdown(k)) <==> Usable(steps, s, side, k))
      && (LocalEnabled(e, Move.DropWrite(k)) <==> Usable(steps, s, side, k))
      && (LocalEnabled(e, Move.FlushToken(k)) <==> Recall(steps, side, k).flushes < |LogOf(e, k).flushed|)
      && (LocalEnabled(e, Move.DropRead(k)) <==> Known(s, side, k) && Step(side, Move.DropRead(k)) !in steps)
  {
    UsableIsIdle(steps, s, side, k);
  }

  // ----- messages -----

  /** What was handed to the read half is a prefix of what the peer's user gave to the write half. */
  lemma DeliveredIsPrefixOfWritten(steps: seq<Step>, s: System, side: Side, k: Key)
    requires Run(INIT, steps) == Some(s)
    ensures LogOf(At(s, Other(side)), Flip(k)).delivered <= Recall(steps, side, k).messages
  {
    RunRemembers(steps, s, side, k);
    DeliveredIsPrefixOfFlushed(s, side, k);
  }

  /** Of a stream that nobody closed, everything that was written is delivered once the run has drained. */
  lemma OpenStreamDeliversAll(steps: seq<Step>, s: System, side: Side, k: Key)
    requires Run(INIT, steps) == Some(s) && Quiet(s)
    requires !ClosedIn(steps, side, k) && !ClosedIn(steps, Other(side), Flip(k))
    requires !HalvesOf(At(s, side), k).write.MidFlush?
    ensures LogOf(At(s, Other(side)), Flip(k)).delivered == Recall(steps, side, k).messages
  {
    RunRemembers(steps, s, side, k);
    RunRemembers(steps, s, Other(side), Flip(k));
    RecallCloses(steps, side, k);
    RecallCloses(steps, Other(side), Flip(k));
    Ends(s, side, k);
    QuietDeliversAll(s, side, k);
    var log := LogOf(At(s, side), k);
    assert log.flushed[..|log.flushed|] == log.flushed;
  }

  // ----- it works -----

  lemma {:induction false} RunJoin(s: System, a: seq<Step>, mid: System, b: seq<Step>)
    requires Run(s, a) == Some(mid)
    ensures Run(s, a + b) == Run(mid, b)
    decreases |b|
  {
    if b == [] {
      assert a + b == a;
    } else {
      var front := b[..|b| - 1];
      RunJoin(s, a, mid, front);
      assert (a + b)[..|a + b| - 1] == a + front;
    }
  }

  lemma {:induction false} TasksAreNotRecalled(steps: seq<Step>, tasks: seq<Step>, side: Side, k: Key)
    requires forall i :: 0 <= i < |tasks| ==> IsTaskStep(tasks[i])
    ensures Recall(steps + tasks, side, k) == Recall(steps, side, k)
    decreases |tasks|
  {
    if tasks == [] {
      assert steps + tasks == steps;
    } else {
      var front := tasks[..|tasks| - 1];
      TasksAreNotRecalled(steps, front, side, k);
      var all := steps + tasks;
      assert all[..|all| - 1] == steps + front && all[|all| - 1] == tasks[|tasks| - 1];
    }
  }

  /** The two steps of a flush. */
  lemma FlushRuns(steps: seq<Step>, s: System, side: Side, k: Key, m: Message) returns (next: System)
    requires Run(INIT, steps) == Some(s) && LocalEnabled(At(s, side), Move.FlushData(k, m)) && k in At(s, side).chan
    ensures Run(INIT, steps + [Step(side, Move.FlushData(k, m)), Step(side, Move.FlushToken(k))]) == Some(next)
    ensures HalvesOf(At(next, side), k).write.Idle?
  {
    var x, y := Step(side, Move.FlushData(k, m)), Step(side, Move.FlushToken(k));
    var mid := Apply(s, x);
    next := Apply(mid, y);
    RunExtends(INIT, steps, s, x);
    RunExtends(INIT, steps + [x], mid, y);
    assert (steps + [x]) + [y] == steps + [x, y];
  }

  lemma FlushIsRecalled(steps: seq<Step>, side: Side, k: Key, m: Message, at: Side, key: Key)
    ensures var all := steps + [Step(side, Move.FlushData(k, m)), Step(side, Move.FlushToken(k))];
      && Recall(all, at, key).messages == Recall(steps, at, key).messages + (if at == side && key == k then [m] else [])
      && Recall(all, at, key).closed == Recall(steps, at, key).closed
  {
    var x, y := Step(side, Move.FlushData(k, m)), Step(side, Move.FlushToken(k));
    var all := steps + [x, y];
    assert all[..|all| - 1] == steps + [x] && all[|all| - 1] == y;
    assert (steps + [x])[..|steps + [x]| - 1] == steps && (steps + [x])[|steps + [x]| - 1] == x;
  }

  lemma {:induction false} TasksKeepHalves(s: System, tasks: seq<Step>, end: System, side: Side, k: Key)
    requires Run(s, tasks) == Some(end) && forall i :: 0 <= i < |tasks| ==> IsTaskStep(tasks[i])
    requires HalvesOf(At(s, side), k).write.Idle?
    ensures HalvesOf(At(end, side), k).write.Idle?
  {
    if tasks != [] {
      var front := tasks[..|tasks| - 1];
      var before := Run(s, front).value;
      TasksKeepHalves(s, front, before, side, k);
      TaskKeepsHalf(before, tasks[|tasks| - 1], side, k);
    }
  }

  lemma TaskKeepsHalf(s: System, x: Step, side: Side, k: Key)
    requires WiredSystem.Enabled(s, x) && IsTaskStep(x) && HalvesOf(At(s, side), k).write.Idle?
    ensures HalvesOf(At(Apply(s, x), side), k).write.Idle?
  {
  }

  /**
   From any reachable state in which a write half is idle and nobody has closed its stream, a message
   flushed there is delivered at the other end, behind all that was written before, by the tasks alone.
   */
  lemma MessageGetsThrough(steps: seq<Step>, s: System, side: Side, k: Key, m: Message)
    returns (all: seq<Step>, end: System)
    requires Run(INIT, steps) == Some(s) && LocalEnabled(At(s, side), Move.FlushData(k, m))
    requires !ClosedIn(steps, side, k) && !ClosedIn(steps, Other(side), Flip(k))
    ensures Run(INIT, all) == Some(end) && Quiet(end)
    ensures steps + [Step(side, Move.FlushData(k, m)), Step(side, Move.FlushToken(k))] <= all
    ensures forall i :: |steps| + 2 <= i < |all| ==> IsTaskStep(all[i])
    ensures LogOf(At(end, Other(side)), Flip(k)).delivered == Recall(steps, side, k).messages + [m]
  {
    OpenHasReceiver(steps, s, side, k);
    var next := FlushRuns(steps, s, side, k, m);
    var flushed := steps + [Step(side, Move.FlushData(k, m)), Step(side, Move.FlushToken(k))];
    var tasks;
    tasks, end := TasksDrain(next);
    all := flushed + tasks;
    RunJoin(INIT, flushed, next, tasks);
    TasksKeepHalves(next, tasks, end, side, k);
    StaysOpen(steps, tasks, side, k, m, side, k);
    StaysOpen(steps, tasks, side, k, m, Other(side), Flip(k));
    OpenStreamDeliversAll(all, end, side, k);
  }

  lemma StaysOpen(steps: seq<Step>, tasks: seq<Step>, side: Side, k: Key, m: Message, at: Side, key: Key)
    requires !ClosedIn(steps, at, key) && forall i :: 0 <= i < |tasks| ==> IsTaskStep(tasks[i])
    ensures var all := steps + [Step(side, Move.FlushData(k, m)), Step(side, Move.FlushToken(k))] + tasks;
      && !ClosedIn(all, at, key)
      && Recall(all, at, key).messages == Recall(steps, at, key).messages + (if at == side && key == k then [m] else [])
  {
    var flushed := steps + [Step(side, Move.FlushData(k, m)), Step(side, Move.FlushToken(k))];
    FlushIsRecalled(steps, side, k, m, at, key);
    TasksAreNotRecalled(flushed, tasks, at, key);
    RecallCloses(steps, at, key);
    RecallCloses(flushed + tasks, at, key);
  }

  lemma OpenHasReceiver(steps: seq<Step>, s: System, side: Side, k: Key)
    requires Run(INIT, steps) == Some(s) && HalvesOf(At(s, side), k).write.Idle?
    requires !ClosedIn(steps, side, k) && !ClosedIn(steps, Other(side), Flip(k))
    ensures k in At(s, side).chan
  {
    RunRemembers(steps, s, side, k);
    RunRemembers(steps, s, Other(side), Flip(k));
    RecallCloses(steps, side, k);
    RecallCloses(steps, Other(side), Flip(k));
    Ends(s, side, k);
  }

  // ----- channels of events -----

  function SentLeaves(steps: seq<Step>, side: Side): nat {
    if steps == [] then 0
    else
      var x := steps[|steps| - 1];
      SentLeaves(steps[..|steps| - 1], side) + if x.side == side && x.move.Send? then x.move.leaves else 0
  }

  function QueuedLeaves(q: seq<WiredEvent>): nat {
    if q == [] then 0 else (if q[0].WEvent? then q[0].leaves else 0) + QueuedLeaves(q[1..])
  }

  lemma {:induction false} QueuedAppends(q: seq<WiredEvent>, x: WiredEvent)
    ensures QueuedLeaves(q + [x]) == QueuedLeaves(q) + if x.WEvent? then x.leaves else 0
  {
    if q != [] {
      QueuedAppends(q[1..], x);
      assert (q + [x])[1..] == q[1..] + [x];
    }
  }

  /** The channels of one end: those that are streams, those of the event at hand, and those still queued. */
  function Channels(e: End): nat {
    e.streamId + (if e.pc.Encoding? then e.pc.leaves else 0) + QueuedLeaves(e.wq)
  }

  lemma MoveKeepsChannels(e: End, move: Move)
    requires LocalEnabled(e, move)
    ensures Channels(LocalMove(e, move)) == Channels(e) + if move.Send? then move.leaves else 0
  {
    match move
    case Help => if e.uq[0].UDrop? { QueuedAppends(e.wq, WDrop(e.uq[0].key, false)); }
    case Send(leaves) => QueuedAppends(e.wq, WEvent(leaves));
    case FlushToken(k) => QueuedAppends(e.wq, WMessage(k));
    case Shutdown(k) => QueuedAppends(e.wq, WDrop(k, true));
    case DropWrite(k) => QueuedAppends(e.wq, WDrop(k, true));
    case DropRead(k) => QueuedAppends(e.wq, WDrop(k, true));
    case _ =>
  }

  lemma FrameKeepsChannels(e: End, f: Frame)
    ensures Channels(HandleFrame(e, f)) == Channels(e)
  {
    if f.FOpen? { QueuedAppends(e.wq, WRegister(f.id)); }
  }

  lemma {:induction false} RunKeepsChannels(steps: seq<Step>, s: System, side: Side)
    requires Run(INIT, steps) == Some(s)
    ensures Channels(At(s, side)) == SentLeaves(steps, side)
  {
    if steps != [] {
      var before, x := Run(INIT, steps[..|steps| - 1]).value, steps[|steps| - 1];
      RunKeepsChannels(steps[..|steps| - 1], before, side);
      if x.side == side {
        if x.move.Receive? { FrameKeepsChannels(At(before, side), At(before, Other(side)).wire[0]); }
        else { MoveKeepsChannels(At(before, side), x.move); }
      }
    }
  }

  /**
   Once a run has drained, every channel of every event that was sent is a stream, numbered from 1,
   and the other end has accepted exactly these.
   */
  lemma EveryChannelIsAStream(steps: seq<Step>, s: System, side: Side, id: nat)
    requires Run(INIT, steps) == Some(s) && Quiet(s)
    ensures At(s, side).streamId == SentLeaves(steps, side)
    ensures 1 <= id <= SentLeaves(steps, side) <==> !HalvesOf(At(s, side), Key(id, true)).write.NoHalf?
    ensures 1 <= id <= SentLeaves(steps, side) <==> !HalvesOf(At(s, Other(side)), Key(id, false)).write.NoHalf?
  {
    RunKeepsChannels(steps, s, side);
    assert At(s, side).wq == [] && At(s, side).pc.Ready? && At(s, side).wire == [];
    KnownIsCreated(s, side, Key(id, true));
    KnownIsCreated(s, Other(side), Key(id, false));
    assert Other(Other(side)) == side;
  }
}
