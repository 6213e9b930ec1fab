/** The tasks drain: without new user input every run of them ends, and ends quietly. */
module WiredTermination {
  import opened Wrappers
  import opened WiredSystem
  import opened WiredSafety

  /** How many steps an event can still cause, itself included. */
  function WiredWeight(e: WiredEvent): nat {
    match e
    case WEvent(leaves) => 5 * leaves + 3
    case WRegister(_) => 1
    case WMessage(_) => 3
    case WDrop(_, broadcast) => if broadcast then 8 else 3
  }

  function UnwiredWeight(e: UnwiredEvent): nat {
    match e
    case URegister(_) => 1
    case UMessage(_, _) => 1
    case UDrop(_, broadcast) => if broadcast then 4 else 1
  }

  function FrameWeight(f: Frame): nat {
    match f
    case FEvent => 1
    case FOpen(_) => 3
    case FMessage(_, _, _) => 2
    case FDrop(_, _) => 5
  }

  function PcWeight(pc: Pc): nat {
    match pc
    case Ready => 0
    case Encoding(leaves) => 5 * leaves + 1
    case Telling(_) => 2
  }

  function WqWeight(q: seq<WiredEvent>): nat { if q == [] then 0 else WiredWeight(q[0]) + WqWeight(q[1..]) }
  function UqWeight(q: seq<UnwiredEvent>): nat { if q == [] then 0 else UnwiredWeight(q[0]) + UqWeight(q[1..]) }
  function WireWeight(q: seq<Frame>): nat { if q == [] then 0 else FrameWeight(q[0]) + WireWeight(q[1..]) }

  function EndWeight(e: End): nat {
    WqWeight(e.wq) + UqWeight(e.uq) + WireWeight(e.wire) + PcWeight(e.pc)
  }

  function Weight(s: System): nat { EndWeight(s.left) + EndWeight(s.right) }

  lemma {:induction false} WqAppend(q: seq<WiredEvent>, e: WiredEvent)
    ensures WqWeight(q + [e]) == WqWeight(q) + WiredWeight(e)
  {
    if q != [] {
      WqAppend(q[1..], e);
      assert (q + [e])[1..] == q[1..] + [e];
    }
  }

  lemma {:induction false} UqAppend(q: seq<UnwiredEvent>, e: UnwiredEvent)
    ensures UqWeight(q + [e]) == UqWeight(q) + UnwiredWeight(e)
  {
    if q != [] {
      UqAppend(q[1..], e);
      assert (q + [e])[1..] == q[1..] + [e];
    }
  }

  lemma {:induction false} WireAppend(q: seq<Frame>, f: Frame)
    ensures WireWeight(q + [f]) == WireWeight(q) + FrameWeight(f)
  {
    if q != [] {
      WireAppend(q[1..], f);
      assert (q + [f])[1..] == q[1..] + [f];
    }
  }

  /** Steps of the tasks, as opposed to those of the users. */
  predicate IsTaskStep(step: Step) {
    step.move.Take? || step.move.Leaf? || step.move.Tell? || step.move.Help? || step.move.Receive?
  }

  lemma TakeDecreases(e: End)
    requires LocalEnabled(e, Take)
    ensures EndWeight(LocalMove(e, Take)) < EndWeight(e)
  {
    match e.wq[0]
    case WEvent(_) => WireAppend(e.wire, FEvent);
    case WRegister(_) =>
    case WMessage(k) =>
      if k in e.chan && e.chan[k] != [] { WireAppend(e.wire, FMessage(k.id, !k.local, e.chan[k][0])); }
    case WDrop(k, _) => WireAppend(e.wire, FDrop(k.id, !k.local));
  }

  lemma LeafDecreases(e: End)
    requires LocalEnabled(e, Leaf)
    ensures EndWeight(LocalMove(e, Leaf)) < EndWeight(e)
  {
    UqAppend(e.uq, URegister(Key(e.streamId + 1, true)));
    WireAppend(e.wire, FOpen(e.streamId + 1));
  }

  lemma TellDecreases(e: End)
    requires LocalEnabled(e, Tell)
    ensures EndWeight(LocalMove(e, Tell)) < EndWeight(e)
  {
    UqAppend(e.uq, UDrop(e.pc.key, false));
  }

  lemma HelpDecreases(e: End)
    requires LocalEnabled(e, Move.Help)
    ensures EndWeight(LocalMove(e, Move.Help)) < EndWeight(e)
  {
    if e.uq[0].UDrop? { WqAppend(e.wq, WDrop(e.uq[0].key, false)); }
  }

  /** A frame weighs more than the events it turns into. */
  lemma FrameDecreases(e: End, f: Frame)
    ensures EndWeight(HandleFrame(e, f)) < EndWeight(e) + FrameWeight(f)
  {
    match f
    case FEvent =>
    case FOpen(id) =>
      WqAppend(e.wq, WRegister(id));
      UqAppend(e.uq, URegister(Key(id, false)));
    case FMessage(id, local, m) => UqAppend(e.uq, UMessage(Key(id, local), m));
    case FDrop(id, local) => UqAppend(e.uq, UDrop(Key(id, local), true));
  }

  /** Every step of a task makes the system lighter, from any state. */
  lemma TaskStepDecreases(s: System, step: Step)
    requires WiredSystem.Enabled(s, step) && IsTaskStep(step)
    ensures Weight(Apply(s, step)) < Weight(s)
  {
    var e := At(s, step.side);
    match step.move
    case Take => TakeDecreases(e);
    case Leaf => LeafDecreases(e);
    case Tell => TellDecreases(e);
    case Help => HelpDecreases(e);
    case Receive => FrameDecreases(e, At(s, Other(step.side)).wire[0]);
  }

  /** A run of the tasks alone is no longer than the weight it starts with. */
  lemma {:induction false} TaskRunsAreBounded(s: System, steps: seq<Step>, end: System)
    requires Run(s, steps) == Some(end) && forall i :: 0 <= i < |steps| ==> IsTaskStep(steps[i])
    ensures |steps| + Weight(end) <= Weight(s)
  {
    if steps != [] {
      var before := Run(s, steps[..|steps| - 1]).value;
      TaskRunsAreBounded(s, steps[..|steps| - 1], before);
      TaskStepDecreases(before, steps[|steps| - 1]);
    }
  }

  /** The tasks are stuck only when the system is quiet. */
  lemma QuietIffNoTaskStep(s: System)
    ensures Quiet(s) <==> forall step :: IsTaskStep(step) ==> !WiredSystem.Enabled(s, step)
  {
    if !Quiet(s) {
      var side :| !(var e := At(s, side); e.wq == [] && e.uq == [] && e.wire == [] && e.pc.Ready?);
      var e := At(s, side);
      var step :=
        if e.uq != [] then Step(side, Move.Help)
        else if e.wire != [] then Step(Other(side), Receive)
        else if e.pc.Encoding? then Step(side, Leaf)
        else if e.pc.Telling? then Step(side, Tell)
        else Step(side, Take);
      assert Other(Other(side)) == side;
      assert IsTaskStep(step) && WiredSystem.Enabled(s, step);
    } else {
      forall step | IsTaskStep(step) ensures !WiredSystem.Enabled(s, step) {
        assert var e := At(s, step.side); e.wq == [] && e.uq == [] && e.pc.Ready?;
        assert At(s, Other(step.side)).wire == [];
      }
    }
  }

  lemma {:induction false} RunExtends(s: System, steps: seq<Step>, mid: System, step: Step)
    requires Run(s, steps) == Some(mid) && WiredSystem.Enabled(mid, step)
    ensures Run(s, steps + [step]) == Some(Apply(mid, step))
  {
    assert (steps + [step])[..|steps + [step]| - 1] == steps;
  }

  /** From every reachable state the tasks can drain, and then the four maps agree on every stream. */
  lemma {:induction false} TasksDrain(s: System) returns (steps: seq<Step>, end: System)
    requires Reachable(s)
    ensures Run(s, steps) == Some(end) && (forall i :: 0 <= i < |steps| ==> IsTaskStep(steps[i]))
    ensures Quiet(end) && Reachable(end)
    ensures forall side, k: Key ::
              && (k in At(end, side).streams <==> k in At(end, side).reading)
              && (k in At(end, side).streams <==> Flip(k) in At(end, Other(side)).streams)
  {
    var first :| Run(INIT, first) == Some(s);
    steps, end := [], s;
    while !Quiet(end)
      invariant Run(s, steps) == Some(end) && Run(INIT, first) == Some(end)
      invariant forall i :: 0 <= i < |steps| ==> IsTaskStep(steps[i])
      decreases Weight(end)
    {
      QuietIffNoTaskStep(end);
      var step :| IsTaskStep(step) && WiredSystem.Enabled(end, step);
      TaskStepDecreases(end, step);
      RunExtends(s, steps, end, step);
      RunExtends(INIT, first, end, step);
      steps, first, end := steps + [step], first + [step], Apply(end, step);
    }
    forall side, k: Key
      ensures && (k in At(end, side).streams <==> k in At(end, side).reading)
              && (k in At(end, side).streams <==> Flip(k) in At(end, Other(side)).streams)
    {
      MapsAgreeWhenQuiet(end, side, k);
    }
  }
}
