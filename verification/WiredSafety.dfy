/** What holds in every reachable state of the two-endpoint system. */
module WiredSafety {
  import opened Wrappers
  import opened WiredStream
  import opened WiredSystem
  import opened WiredProjection

  function OpenerView(s: System, side: Side, id: nat): EndView {
    View(At(s, side), Key(id, true))
  }

  function AcceptorView(s: System, side: Side, id: nat): EndView {
    View(At(s, Other(side)), Key(id, false))
  }

  /** The stream that `side` opened, or will open, under number `id`. */
  ghost predicate OneStreamInv(s: System, side: Side, id: nat) {
    && StreamInv(OpenerView(s, side, id), AcceptorView(s, side, id))
    && (1 <= id <= At(s, side).streamId <==> Created(OpenerView(s, side, id)))
  }

  ghost predicate SystemInv(s: System) {
    forall side, id: nat :: OneStreamInv(s, side, id)
  }

  lemma OpenerMoves(o: EndView, a: EndView, act: Option<Act>, o': EndView)
    requires StreamInv(o, a) && Follows(o, act, o')
    ensures StreamInv(o', a) && (Created(o) <==> Created(o'))
  {
    if act.Some? { OpenerActKeeps(o, a, act.value); ActKeepsOpening(o, act.value); }
  }

  lemma AcceptorMoves(o: EndView, a: EndView, act: Option<Act>, a': EndView)
    requires StreamInv(o, a) && Follows(a, act, a')
    ensures StreamInv(o, a')
  {
    if act.Some? { AcceptorActKeeps(o, a, act.value); }
  }

  lemma MoveKeepsStreamId(e: End, move: Move)
    requires LocalEnabled(e, move) && !move.Leaf?
    ensures LocalMove(e, move).streamId == e.streamId
  {
  }

  lemma LocalStepKeeps(s: System, step: Step, side: Side, id: nat)
    requires OneStreamInv(s, side, id) && WiredSystem.Enabled(s, step)
    requires !step.move.Receive? && !step.move.Leaf?
    ensures OneStreamInv(Apply(s, step), side, id)
  {
    var o, a := OpenerView(s, side, id), AcceptorView(s, side, id);
    var e, k := At(s, step.side), Key(id, step.side == side);
    var e' := LocalMove(e, step.move);
    var s' := Apply(s, step);
    assert At(s', step.side) == e' && At(s', Other(step.side)) == At(s, Other(step.side));
    MoveFollows(e, step.move, k);
    MoveKeepsStreamId(e, step.move);
    if step.side == side {
      OpenerMoves(o, a, ActOf(e, step.move, k), View(e', k));
    } else {
      AcceptorMoves(o, a, ActOf(e, step.move, k), View(e', k));
    }
  }

  lemma LeafStepKeeps(s: System, step: Step, side: Side, id: nat)
    requires OneStreamInv(s, side, id) && WiredSystem.Enabled(s, step) && step.move.Leaf?
    ensures OneStreamInv(Apply(s, step), side, id)
  {
    var e := At(s, step.side);
    LeafFollows(e, Key(id, step.side == side));
    if step.side == side && e.pc.leaves > 0 && id == e.streamId + 1 {
      assert AcceptorView(s, side, id) == FRESH;
      OpenKeeps();
    }
  }

  /** What a wire looks like to a stream once its head is gone. */
  ghost predicate Popped(y: EndView, item: Option<FItem>, y': EndView) {
    if item.None? then y' == y
    else y.wire != [] && y.wire[0] == item.value && y' == y.(wire := y.wire[1..])
  }

  ghost predicate Forwarded(x: EndView, item: Option<FItem>, x': EndView) {
    x' == if item.None? then x else Received(x, item.value)
  }

  lemma OpenerReceives(o: EndView, a: EndView, item: Option<FItem>, o': EndView, a': EndView)
    requires StreamInv(o, a) && Popped(a, item, a') && Forwarded(o, item, o')
    ensures StreamInv(o', a') && (Created(o) <==> Created(o'))
  {
    if item.Some? { ReceiveByOpenerKeeps(o, a); }
  }

  lemma AcceptorReceives(o: EndView, a: EndView, item: Option<FItem>, o': EndView, a': EndView)
    requires StreamInv(o, a) && Popped(o, item, o') && Forwarded(a, item, a')
    ensures StreamInv(o', a') && (Created(o) <==> Created(o'))
  {
    if item.Some? {
      if o.wire[0].FiOpen? { AcceptKeeps(o, a); } else { ReceiveByAcceptorKeeps(o, a); }
    }
  }

  lemma FrameSeen(e: End, far: End, k: Key)
    requires far.wire != []
    ensures Popped(View(far, Flip(k)), FItemOf(far.wire[0], Flip(k)), View(far.(wire := far.wire[1..]), Flip(k)))
    ensures Forwarded(View(e, k), FItemOf(far.wire[0], Flip(k)), View(HandleFrame(e, far.wire[0]), k))
    ensures HandleFrame(e, far.wire[0]).streamId == e.streamId
  {
    FramePopped(far, Flip(k));
    ReceiveFollows(e, far.wire[0], k);
  }

  lemma FramePopped(far: End, k: Key)
    requires far.wire != []
    ensures Popped(View(far, k), FItemOf(far.wire[0], k), View(far.(wire := far.wire[1..]), k))
  {
    PopWire(far, k);
  }

  lemma ReceiveStepKeeps(s: System, step: Step, side: Side, id: nat)
    requires OneStreamInv(s, side, id) && WiredSystem.Enabled(s, step) && step.move.Receive?
    ensures OneStreamInv(Apply(s, step), side, id)
  {
    var o, a := OpenerView(s, side, id), AcceptorView(s, side, id);
    var s' := Apply(s, step);
    var o', a' := OpenerView(s', side, id), AcceptorView(s', side, id);
    var e, far := At(s, step.side), At(s, Other(step.side));
    if step.side == side {
      FrameSeen(e, far, Key(id, true));
      OpenerReceives(o, a, FItemOf(far.wire[0], Key(id, false)), o', a');
    } else {
      FrameSeen(e, far, Key(id, false));
      AcceptorReceives(o, a, FItemOf(far.wire[0], Key(id, true)), o', a');
    }
  }

  lemma StepKeeps(s: System, step: Step)
    requires SystemInv(s) && WiredSystem.Enabled(s, step)
    ensures SystemInv(Apply(s, step))
  {
    forall side, id: nat ensures OneStreamInv(Apply(s, step), side, id) {
      assert OneStreamInv(s, side, id);
      if step.move.Receive? {
        ReceiveStepKeeps(s, step, side, id);
      } else if step.move.Leaf? {
        LeafStepKeeps(s, step, side, id);
      } else {
        LocalStepKeeps(s, step, side, id);
      }
    }
  }

  lemma {:induction false} RunKeeps(steps: seq<Step>, s: System)
    requires Run(INIT, steps) == Some(s)
    ensures SystemInv(s)
  {
    if steps == [] {
      forall side, id: nat ensures OneStreamInv(INIT, side, id) { OpenKeeps(); }
    } else {
      var before := Run(INIT, steps[..|steps| - 1]).value;
      RunKeeps(steps[..|steps| - 1], before);
      StepKeeps(before, steps[|steps| - 1]);
    }
  }

  lemma ReachableInv(s: System)
    requires Reachable(s)
    ensures SystemInv(s)
  {
    var steps :| Run(INIT, steps) == Some(s);
    RunKeeps(steps, s);
  }

  /** Both ends of the stream known at `side` as `k`, whoever opened it. */
  lemma Ends(s: System, side: Side, k: Key)
    requires Reachable(s)
    ensures var x, y := View(At(s, side), k), View(At(s, Other(side)), Flip(k));
            EndInv(x) && EndInv(y) && PairInv(x, y) && PairInv(y, x)
  {
    ReachableInv(s);
    assert OneStreamInv(s, if k.local then side else Other(side), k.id);
  }

  // ----- delivery -----

  /**
   Messages handed to the read half are a prefix of the messages flushed on the peer's write
   half of the same stream: in order, none twice, none from another stream.
   */
  lemma DeliveredIsPrefixOfFlushed(s: System, side: Side, k: Key)
    requires Reachable(s)
    ensures LogOf(At(s, Other(side)), Flip(k)).delivered <= LogOf(At(s, side), k).flushed
  {
    Ends(s, side, k);
    var x, y := View(At(s, side), k), View(At(s, Other(side)), Flip(k));
    assert y.log.delivered <= x.log.sent <= x.log.flushed;
  }

  /**
   Every live receiver holds exactly one item per pending token, plus the item of a flush that
   has not sent its token yet; the writer sends the oldest unsent message.
   */
  lemma TokensPairWithData(s: System, side: Side, k: Key)
    requires Reachable(s) && k in At(s, side).chan
    ensures var e := At(s, side);
            && |e.chan[k]| == Tokens(WqOf(e.wq, k)) + (if HalvesOf(e, k).write.MidFlush? then 1 else 0)
            && LogOf(e, k).flushed == LogOf(e, k).sent + e.chan[k]
  {
    Ends(s, side, k);
  }

  /** A token at the front of the queue of a registered stream finds its message. */
  lemma TokenFindsMessage(s: System, side: Side, k: Key)
    requires Reachable(s)
    requires var e := At(s, side); k in e.streams && e.wq != [] && e.wq[0] == WMessage(k)
    ensures var e := At(s, side); k in e.chan && e.chan[k] != []
  {
    Ends(s, side, k);
    PopWq(At(s, side), k);
  }

  // ----- registration -----

  /** An event about a stream that finds no entry is about a stream that was closed before. */
  lemma AbsentMeansClosed(s: System, side: Side)
    requires Reachable(s)
    ensures var e := At(s, side);
            && (e.wq != [] && (e.wq[0].WMessage? || e.wq[0].WDrop?) ==> e.wq[0].key in e.streams + e.removed)
            && (e.uq != [] && !e.uq[0].URegister? ==> e.uq[0].key in e.reading + e.ended)
  {
    var e := At(s, side);
    if e.wq != [] && (e.wq[0].WMessage? || e.wq[0].WDrop?) {
      Ends(s, side, e.wq[0].key);
      PopWq(e, e.wq[0].key);
    }
    if e.uq != [] && !e.uq[0].URegister? {
      Ends(s, side, e.uq[0].key);
      PopUq(e, e.uq[0].key);
    }
  }

  /** Registering a write half never replaces an entry or brings a closed stream back. */
  lemma WriteHalvesAreFresh(s: System, side: Side)
    requires Reachable(s)
    requires var e := At(s, side); e.wq != [] && e.wq[0].WRegister?
    ensures var e := At(s, side); Key(e.wq[0].id, false) !in e.streams + e.removed
  {
    var e := At(s, side);
    Ends(s, side, Key(e.wq[0].id, false));
    PopWq(e, Key(e.wq[0].id, false));
  }

  /** Neither does registering a read half ... */
  lemma ReadHalvesAreFresh(s: System, side: Side)
    requires Reachable(s)
    requires var e := At(s, side); e.uq != [] && e.uq[0].URegister?
    ensures var e := At(s, side); e.uq[0].key !in e.reading + e.ended
  {
    var e := At(s, side);
    Ends(s, side, e.uq[0].key);
    PopUq(e, e.uq[0].key);
  }

  /** ... or opening a stream, for which both ends still have nothing at all. */
  lemma NewIdsAreFresh(s: System, side: Side)
    requires Reachable(s)
    ensures var k := Key(At(s, side).streamId + 1, true);
            View(At(s, side), k) == FRESH && View(At(s, Other(side)), Flip(k)) == FRESH
  {
    ReachableInv(s);
    assert OneStreamInv(s, side, At(s, side).streamId + 1);
  }

  // ----- closing -----

  /** Nothing is queued, nothing is on the wires and both writers stand between two events. */
  ghost predicate Quiet(s: System) {
    forall side :: var e := At(s, side); e.wq == [] && e.uq == [] && e.wire == [] && e.pc.Ready?
  }

  /** Once everything has drained the four maps agree about every stream. */
  lemma MapsAgreeWhenQuiet(s: System, side: Side, k: Key)
    requires Reachable(s) && Quiet(s)
    ensures var e, far := At(s, side), At(s, Other(side));
            && (k in e.streams <==> k in e.reading)
            && (k in e.streams <==> Flip(k) in far.streams)
            && (k in e.streams <==> Flip(k) in far.reading)
  {
    ReachableInv(s);
    assert OneStreamInv(s, if k.local then side else Other(side), k.id);
    var e, far := At(s, side), At(s, Other(side));
    assert e.wq == [] && far.wq == [] && e.pc.Ready? && far.pc.Ready?;
  }

  /** ... and an opened stream has entries exactly if no half of it was dropped at either end. */
  lemma DroppedStreamsLeaveNoEntry(s: System, side: Side, id: nat)
    requires Reachable(s) && Quiet(s) && 1 <= id <= At(s, side).streamId
    ensures var k, e, far := Key(id, true), At(s, side), At(s, Other(side));
            k in e.streams <==> LogOf(e, k).cut.None? && LogOf(far, Flip(k)).cut.None?
  {
    ReachableInv(s);
    assert OneStreamInv(s, side, id);
    MapsAgreeWhenQuiet(s, side, Key(id, true));
    var e, far := At(s, side), At(s, Other(side));
    assert e.wq == [] && far.wq == [] && e.pc.Ready? && far.pc.Ready?;
  }

  /** At most one Drop frame per stream and direction, over any run. */
  lemma AtMostOneDrop(s: System, side: Side, k: Key)
    requires Reachable(s)
    ensures LogOf(At(s, side), k).drops <= 1
  {
    Ends(s, side, k);
  }

  /**
   When a Drop frame has been sent, exactly the flushes completed before the first local drop
   precede it on the wire.
   */
  lemma DropFollowsFlushed(s: System, side: Side, k: Key)
    requires Reachable(s) && LogOf(At(s, side), k).drops == 1
    ensures var log := LogOf(At(s, side), k);
            log.cut.Some? && log.cut.value <= |log.flushed| && log.sent == log.flushed[..log.cut.value]
  {
    Ends(s, side, k);
  }

  /** ... and all of them reach a peer that has not dropped the stream itself. */
  lemma NothingFlushedIsLost(s: System, side: Side, k: Key)
    requires Reachable(s) && LogOf(At(s, side), k).drops == 1
    requires Flip(k) in At(s, Other(side)).ended && LogOf(At(s, Other(side)), Flip(k)).drops == 0
    ensures var log := LogOf(At(s, side), k);
            log.cut.Some? && log.cut.value <= |log.flushed|
            && LogOf(At(s, Other(side)), Flip(k)).delivered == log.flushed[..log.cut.value]
  {
    Ends(s, side, k);
    InEndedIsGone(s, Other(side), Flip(k));
    DropFollowsFlushed(s, side, k);
  }

  /** A key that left the helper's map never comes back. */
  lemma InEndedIsGone(s: System, side: Side, k: Key)
    requires Reachable(s) && k in At(s, side).ended
    ensures k !in At(s, side).reading
  {
    var steps :| Run(INIT, steps) == Some(s);
    RunEnded(steps, s, side);
  }

  lemma MoveKeepsEnded(e: End, move: Move)
    requires LocalEnabled(e, move) && e.reading !! e.ended
    requires e.uq != [] && e.uq[0].URegister? ==> e.uq[0].key !in e.reading + e.ended
    ensures LocalMove(e, move).reading !! LocalMove(e, move).ended
  {
  }

  lemma StepKeepsEnded(s: System, step: Step, side: Side)
    requires WiredSystem.Enabled(s, step)
    requires var e := At(s, side);
             e.reading !! e.ended
             && (e.uq != [] && e.uq[0].URegister? ==> e.uq[0].key !in e.reading + e.ended)
    ensures At(Apply(s, step), side).reading !! At(Apply(s, step), side).ended
  {
    if step.side == side && !step.move.Receive? { MoveKeepsEnded(At(s, side), step.move); }
  }

  lemma {:induction false} RunEnded(steps: seq<Step>, s: System, side: Side)
    requires Run(INIT, steps) == Some(s)
    ensures At(s, side).reading !! At(s, side).ended
  {
    if steps != [] {
      var before := Run(INIT, steps[..|steps| - 1]).value;
      RunEnded(steps[..|steps| - 1], before, side);
      var e := At(before, side);
      if e.uq != [] && e.uq[0].URegister? { ReadHalvesAreFresh(before, side); }
      StepKeepsEnded(before, steps[|steps| - 1], side);
    }
  }

  /** Without any drop, a quiet system has delivered every completed flush. */
  lemma QuietDeliversAll(s: System, side: Side, k: Key)
    requires Reachable(s) && Quiet(s)
    requires LogOf(At(s, side), k).drops == 0 && LogOf(At(s, Other(side)), Flip(k)).drops == 0
    ensures var log := LogOf(At(s, side), k);
            log.tokens <= |log.flushed|
            && LogOf(At(s, Other(side)), Flip(k)).delivered == log.flushed[..log.tokens]
  {
    Ends(s, side, k);
    var e, far := At(s, side), At(s, Other(side));
    assert e.wq == [] && far.wq == [] && e.uq == [] && far.uq == [] && e.wire == [] && far.wire == [];
  }
}
