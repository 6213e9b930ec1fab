/**
 One multiplexed stream on its own.

 The two-endpoint system of `WiredSystem` carries many streams over one connection.
 This module is what a single stream sees of it: the events about that stream in each
 queue, its entry in each of the four stream maps, its data queues and the state of the
 user's halves.  `WiredProjection` proves that the whole system, seen through one stream,
 moves exactly by the steps defined here.
 */
module WiredStream {
  import opened Bytes
  import opened Wrappers

  type Message = seq<byte>

  /** The life of one map entry: registered at most once, removed at most once. */
  datatype Phase = Before | Present | Gone

  /** Events about this stream waiting for the writer task. */
  datatype WItem = WiRegister | WiMessage | WiDrop(broadcastToRemote: bool)
  /** Events about this stream waiting for the helper task. */
  datatype UItem = UiRegister | UiMessage(message: Message) | UiDrop(broadcastToWire: bool)
  /** Frames about this stream travelling to the other end. */
  datatype FItem = FiOpen | FiMessage(message: Message) | FiDrop

  /** `MidFlush`: the data is queued, its token is not yet sent. */
  datatype WriteHalf = NoHalf | Idle | MidFlush | Dropped

  /**
   What happened to one stream at one end.
   `flushed`: data accepted by `poll_flush`; `sent`: messages written to the wire;
   `delivered`: messages handed to the read half; `tokens`: completed flushes;
   `cut`: completed flushes when a half was first dropped or shut down; `drops`: Drop frames sent.
   */
  datatype Log = Log(flushed: seq<Message>, sent: seq<Message>, delivered: seq<Message>,
                     tokens: nat, cut: Option<nat>, drops: nat)

  const EMPTY_LOG := Log([], [], [], 0, None, 0)

  /** One end of the stream. `rx` is the data queue, while its receiver is alive. */
  datatype EndView = EndView(w: Phase, rx: Option<seq<Message>>, closing: bool, wq: seq<WItem>,
                             h: Phase, uq: seq<UItem>, wire: seq<FItem>,
                             write: WriteHalf, readAlive: bool, log: Log)

  const FRESH := EndView(Before, None, false, [], Before, [], [], NoHalf, false, EMPTY_LOG)

  /** The steps one end takes without looking at the other. */
  datatype Act =
    | Write                    // the writer task takes its next event
    | FinishClose              // ... and tells the helper about a removed stream
    | Help                     // the helper task takes its next event
    | FlushData(message: Message)
    | FlushToken
    | Shutdown
    | DropWrite
    | DropRead

  // ----- steps -----

  /** `Wired::run`: one event. */
  function HandleWired(x: EndView, item: WItem): EndView {
    match item
    case WiRegister => x.(w := Present)
    case WiMessage =>
      if x.w.Present? && x.rx.Some? && x.rx.value != [] then
        x.(rx := Some(x.rx.value[1..]),
           wire := x.wire + [FiMessage(x.rx.value[0])],
           log := x.log.(sent := x.log.sent + [x.rx.value[0]]))
      else x
    case WiDrop(broadcast) =>
      if x.w.Present? then
        x.(w := Gone, rx := None, closing := true,
           wire := if broadcast then x.wire + [FiDrop] else x.wire,
           log := if broadcast then x.log.(drops := x.log.drops + 1) else x.log)
      else x
  }

  /** `helper_task`: one event. */
  function HandleUnwired(x: EndView, item: UItem): EndView {
    match item
    case UiRegister => x.(h := Present)
    case UiMessage(m) =>
      if x.h.Present? then x.(log := x.log.(delivered := x.log.delivered + [m])) else x
    case UiDrop(broadcast) =>
      if x.h.Present? then
        x.(h := Gone, wq := if broadcast then x.wq + [WiDrop(false)] else x.wq)
      else x
  }

  /** A user half is dropped or shut down. */
  function UserDrop(x: EndView): EndView {
    x.(wq := x.wq + [WiDrop(true)],
       log := if x.log.cut.None? then x.log.(cut := Some(x.log.tokens)) else x.log)
  }

  predicate Enabled(x: EndView, act: Act) {
    match act
    case Write => x.wq != []
    case FinishClose => x.closing
    case Help => x.uq != []
    case FlushData(_) => x.write.Idle?
    case FlushToken => x.write.MidFlush?
    case Shutdown => x.write.Idle?
    case DropWrite => x.write.Idle?
    case DropRead => x.readAlive
  }

  function Perform(x: EndView, act: Act): EndView
    requires Enabled(x, act)
  {
    match act
    case Write => HandleWired(x.(wq := x.wq[1..]), x.wq[0])
    case FinishClose => x.(closing := false, uq := x.uq + [UiDrop(false)])
    case Help => HandleUnwired(x.(uq := x.uq[1..]), x.uq[0])
    case FlushData(m) =>
      // with the receiver gone the send fails and no token follows
      if x.rx.Some? then
        x.(rx := Some(x.rx.value + [m]), write := MidFlush,
           log := x.log.(flushed := x.log.flushed + [m]))
      else x
    case FlushToken =>
      x.(write := Idle, wq := x.wq + [WiMessage], log := x.log.(tokens := x.log.tokens + 1))
    case Shutdown => UserDrop(x)
    case DropWrite => UserDrop(x.(write := Dropped))
    case DropRead => UserDrop(x.(readAlive := false))
  }

  /** `Wired::connect`: the opener inserts, registers and writes the id. */
  function Opened(x: EndView): EndView {
    x.(w := Present, rx := Some([]), uq := x.uq + [UiRegister], wire := x.wire + [FiOpen],
       write := Idle, readAlive := true)
  }

  /** `Unwired::run` reads one frame: `Unwired::connect` for an id, a forward otherwise. */
  function Received(x: EndView, frame: FItem): EndView {
    match frame
    case FiOpen =>
      x.(rx := Some([]), wq := x.wq + [WiRegister], uq := x.uq + [UiRegister],
         write := Idle, readAlive := true)
    case FiMessage(m) => x.(uq := x.uq + [UiMessage(m)])
    case FiDrop => x.(uq := x.uq + [UiDrop(true)])
  }

  // ----- the invariant -----

  function Tokens(q: seq<WItem>): nat {
    if q == [] then 0 else (if q[0].WiMessage? then 1 else 0) + Tokens(q[1..])
  }

  /** Tokens that are in front of every user drop. */
  function TokensBeforeDrop(q: seq<WItem>): nat {
    if q == [] || q[0] == WiDrop(true) then 0
    else (if q[0].WiMessage? then 1 else 0) + TokensBeforeDrop(q[1..])
  }

  function QueuedMessages(q: seq<UItem>): seq<Message> {
    if q == [] then [] else (if q[0].UiMessage? then [q[0].message] else []) + QueuedMessages(q[1..])
  }

  function FramedMessages(q: seq<FItem>): seq<Message> {
    if q == [] then [] else (if q[0].FiMessage? then [q[0].message] else []) + FramedMessages(q[1..])
  }

  ghost predicate Holds<T>(q: seq<T>, t: T) {
    q != [] && (q[0] == t || Holds(q[1..], t))
  }

  function Rest<T>(q: seq<T>): seq<T> {
    if q == [] then [] else q[1..]
  }

  ghost predicate Created(x: EndView) { !x.write.NoHalf? }

  ghost predicate StartsWith<T>(q: seq<T>, t: T) { q != [] && q[0] == t }

  /** Registration comes first in each queue, once, exactly while the entry is still missing. */
  ghost predicate Registration(x: EndView) {
    && (x.w.Before? <==> StartsWith(x.wq, WiRegister))
    && !Holds(Rest(x.wq), WiRegister)
    && (x.h.Before? <==> StartsWith(x.uq, UiRegister))
    && !Holds(Rest(x.uq), UiRegister)
  }

  /** Data and tokens pair up, and account for every flushed message. */
  ghost predicate Pairing(x: EndView) {
    && (x.rx.Some? <==> !x.w.Gone?)
    && (x.rx.Some? ==>
          && |x.rx.value| == Tokens(x.wq) + (if x.write.MidFlush? then 1 else 0)
          && x.log.sent + x.rx.value == x.log.flushed)
    && x.log.sent <= x.log.flushed
    && x.log.tokens + (if x.write.MidFlush? then 1 else 0) == |x.log.flushed|
  }

  /** The two maps of one end: whichever entry is removed first, the removal of the other is on its way. */
  ghost predicate Closing(x: EndView) {
    && (x.closing ==> x.w.Gone?)
    && (Holds(x.uq, UiDrop(false)) ==> x.w.Gone?)
    && (x.w.Gone? && !x.h.Gone? ==> (x.closing || Holds(x.uq, UiDrop(false))) && x.log.drops == 1)
    && (x.h.Gone? && !x.w.Gone? ==> Holds(x.wq, WiDrop(false)))
    && (Holds(x.wq, WiDrop(false)) ==> x.h.Gone?)
  }

  /** Everything flushed before the first local drop is on the wire before the Drop frame. */
  ghost predicate Cut(x: EndView) {
    && x.log.drops <= 1
    && (x.log.drops == 1 ==> x.w.Gone? && x.log.cut == Some(|x.log.sent|))
    && (x.log.cut.None? ==> !Holds(x.wq, WiDrop(true)))
    && (x.log.cut.Some? && !x.w.Gone? ==>
          Holds(x.wq, WiDrop(true)) && |x.log.sent| + TokensBeforeDrop(x.wq) == x.log.cut.value)
  }

  ghost predicate EndInv(x: EndView) {
    if Created(x) then Registration(x) && Pairing(x) && Closing(x) && Cut(x) else x == FRESH
  }

  /** No message follows the remote Drop in the helper's queue. */
  ghost predicate NothingAfterDrop(q: seq<UItem>) {
    q == [] || ((q[0] == UiDrop(true) ==> QueuedMessages(q[1..]) == []) && NothingAfterDrop(q[1..]))
  }

  /** Nothing follows a Drop frame on the wire. */
  ghost predicate DropIsLast(q: seq<FItem>) {
    q == [] || ((q[0] == FiDrop ==> q[1..] == []) && DropIsLast(q[1..]))
  }

  /** From `x` to `y`: a sent Drop is the last frame, and is still on its way or has acted. */
  ghost predicate DropTravels(x: EndView, y: EndView) {
    && (Holds(x.wire, FiDrop) || Holds(y.uq, UiDrop(true)) || Holds(y.wq, WiDrop(false)) ==> x.log.drops == 1)
    && (x.w.Gone? ==> x.log.drops == 1 || y.log.drops == 1)
    && (x.log.drops == 1 && !y.h.Gone? ==> Holds(x.wire, FiDrop) || Holds(y.uq, UiDrop(true)))
    && DropIsLast(x.wire)
    && (Holds(y.uq, UiDrop(true)) ==> x.wire == [])
    && NothingAfterDrop(y.uq)
  }

  /** From `x` to `y`: every sent message is delivered, queued or on the wire, in order. */
  ghost predicate Conserved(x: EndView, y: EndView) {
    && (!y.h.Gone? ==> y.log.delivered + (QueuedMessages(y.uq) + FramedMessages(x.wire)) == x.log.sent)
    && y.log.delivered <= x.log.sent
    && (y.h.Gone? && y.log.drops == 0 ==> y.log.delivered == x.log.sent)
  }

  ghost predicate PairInv(x: EndView, y: EndView) {
    DropTravels(x, y) && Conserved(x, y)
  }

  /** The opener's id travels first, exactly while the acceptor does not know the stream. */
  ghost predicate Opening(o: EndView, a: EndView) {
    && (Created(o) && !Created(a) <==> StartsWith(o.wire, FiOpen))
    && !Holds(Rest(o.wire), FiOpen)
    && !Holds(a.wire, FiOpen)
    && (Created(a) ==> Created(o))
  }

  /** `o` opened the stream, `a` accepted it. */
  ghost predicate StreamInv(o: EndView, a: EndView) {
    && EndInv(o) && EndInv(a)
    && Opening(o, a)
    && PairInv(o, a) && PairInv(a, o)
  }

  // ----- queue lemmas -----

  lemma {:induction false} HoldsAppend<T>(q: seq<T>, e: T, t: T)
    ensures Holds(q + [e], t) <==> Holds(q, t) || e == t
  {
    if q != [] {
      HoldsAppend(q[1..], e, t);
      assert (q + [e])[1..] == q[1..] + [e];
    }
  }

  /** Appending to the writer's queue. */
  lemma WqAppend(q: seq<WItem>, e: WItem)
    ensures forall t :: Holds(q + [e], t) <==> Holds(q, t) || e == t
    ensures q != [] ==> forall t :: Holds(Rest(q + [e]), t) <==> Holds(Rest(q), t) || e == t
    ensures Tokens(q + [e]) == Tokens(q) + (if e.WiMessage? then 1 else 0)
    ensures TokensBeforeDrop(q + [e]) ==
            TokensBeforeDrop(q) + (if e.WiMessage? && !Holds(q, WiDrop(true)) then 1 else 0)
    ensures !Holds(q, WiDrop(true)) ==> TokensBeforeDrop(q) == Tokens(q)
  {
    TokensAppend(q, e);
    forall t ensures Holds(q + [e], t) <==> Holds(q, t) || e == t { HoldsAppend(q, e, t); }
    if q != [] {
      assert Rest(q + [e]) == Rest(q) + [e];
      forall t ensures Holds(Rest(q + [e]), t) <==> Holds(Rest(q), t) || e == t { HoldsAppend(Rest(q), e, t); }
    }
  }

  /** Appending to the helper's queue. */
  lemma UqAppend(q: seq<UItem>, e: UItem)
    ensures forall t :: Holds(q + [e], t) <==> Holds(q, t) || e == t
    ensures q != [] ==> forall t :: Holds(Rest(q + [e]), t) <==> Holds(Rest(q), t) || e == t
    ensures QueuedMessages(q + [e]) == QueuedMessages(q) + (if e.UiMessage? then [e.message] else [])
    ensures NothingAfterDrop(q) && (e.UiMessage? ==> !Holds(q, UiDrop(true))) ==> NothingAfterDrop(q + [e])
  {
    QueuedAppend(q, e);
    forall t ensures Holds(q + [e], t) <==> Holds(q, t) || e == t { HoldsAppend(q, e, t); }
    if q != [] {
      assert Rest(q + [e]) == Rest(q) + [e];
      forall t ensures Holds(Rest(q + [e]), t) <==> Holds(Rest(q), t) || e == t { HoldsAppend(Rest(q), e, t); }
    }
  }

  /** Appending to the wire. */
  lemma WireAppend(q: seq<FItem>, e: FItem)
    ensures forall t :: Holds(q + [e], t) <==> Holds(q, t) || e == t
    ensures q != [] ==> forall t :: Holds(Rest(q + [e]), t) <==> Holds(Rest(q), t) || e == t
    ensures FramedMessages(q + [e]) == FramedMessages(q) + (if e.FiMessage? then [e.message] else [])
    ensures DropIsLast(q) && !Holds(q, FiDrop) ==> DropIsLast(q + [e])
  {
    FramedAppend(q, e);
    forall t ensures Holds(q + [e], t) <==> Holds(q, t) || e == t { HoldsAppend(q, e, t); }
    if q != [] {
      assert Rest(q + [e]) == Rest(q) + [e];
      forall t ensures Holds(Rest(q + [e]), t) <==> Holds(Rest(q), t) || e == t { HoldsAppend(Rest(q), e, t); }
    }
  }

  lemma {:induction false} TokensAppend(q: seq<WItem>, t: WItem)
    ensures Tokens(q + [t]) == Tokens(q) + (if t.WiMessage? then 1 else 0)
    ensures TokensBeforeDrop(q + [t]) ==
            TokensBeforeDrop(q) + (if t.WiMessage? && !Holds(q, WiDrop(true)) then 1 else 0)
    ensures !Holds(q, WiDrop(true)) ==> TokensBeforeDrop(q) == Tokens(q)
  {
    if q != [] {
      TokensAppend(q[1..], t);
      assert (q + [t])[1..] == q[1..] + [t];
    }
  }

  lemma {:induction false} QueuedAppend(q: seq<UItem>, t: UItem)
    ensures NothingAfterDrop(q) && (t.UiMessage? ==> !Holds(q, UiDrop(true))) ==> NothingAfterDrop(q + [t])
    ensures QueuedMessages(q + [t]) == QueuedMessages(q) + (if t.UiMessage? then [t.message] else [])
  {
    if q == [] {
      assert q + [t] == [t];
    } else {
      QueuedAppend(q[1..], t);
      assert (q + [t])[1..] == q[1..] + [t];
    }
  }

  lemma {:induction false} FramedAppend(q: seq<FItem>, t: FItem)
    ensures DropIsLast(q) && !Holds(q, FiDrop) ==> DropIsLast(q + [t])
    ensures FramedMessages(q + [t]) == FramedMessages(q) + (if t.FiMessage? then [t.message] else [])
  {
    if q == [] {
      assert q + [t] == [t];
    } else {
      FramedAppend(q[1..], t);
      assert (q + [t])[1..] == q[1..] + [t];
    }
  }

  // ----- every step keeps the invariant -----

  /** What a step at `x` has to keep, whichever end of the stream `x` is. */
  ghost predicate BothInv(x: EndView, y: EndView) {
    EndInv(x) && PairInv(x, y) && PairInv(y, x)
  }

  lemma WriteRegisterKeeps(x: EndView, y: EndView)
    requires Created(x) && BothInv(x, y) && StartsWith(x.wq, WiRegister)
    ensures BothInv(Perform(x, Write), y)
  {
  }

  lemma WriteMessageKeepsEnd(x: EndView)
    requires Created(x) && EndInv(x) && StartsWith(x.wq, WiMessage)
    ensures EndInv(Perform(x, Write))
  {
    if x.w.Present? {
      assert x.log.sent + x.rx.value == (x.log.sent + [x.rx.value[0]]) + x.rx.value[1..];
    }
  }

  lemma WriteDropKeepsEnd(x: EndView)
    requires Created(x) && EndInv(x) && x.wq != [] && x.wq[0].WiDrop?
    ensures EndInv(Perform(x, Write))
  {
  }

  lemma WriteMessageKeepsDrops(x: EndView, y: EndView)
    requires Created(x) && EndInv(x) && DropTravels(x, y) && DropTravels(y, x) && StartsWith(x.wq, WiMessage)
    ensures DropTravels(Perform(x, Write), y) && DropTravels(y, Perform(x, Write))
  {
    if x.w.Present? {
      WireAppend(x.wire, FiMessage(x.rx.value[0]));
    }
  }

  lemma WriteDropKeepsDrops(x: EndView, y: EndView)
    requires Created(x) && EndInv(x) && DropTravels(x, y) && DropTravels(y, x) && x.wq != [] && x.wq[0].WiDrop?
    ensures DropTravels(Perform(x, Write), y) && DropTravels(y, Perform(x, Write))
  {
    WireAppend(x.wire, FiDrop);
  }

  /** While an end can still send, the other end has not seen its Drop. */
  lemma OpenEndIsHeard(x: EndView, y: EndView)
    requires EndInv(x) && EndInv(y) && DropTravels(x, y) && DropTravels(y, x)
    requires !x.w.Gone? && y.h.Gone?
    ensures y.log.drops == 1
  {
  }

  lemma WriteMessageKeepsMessages(x: EndView, y: EndView)
    requires Pairing(x) && Conserved(x, y) && Conserved(y, x) && StartsWith(x.wq, WiMessage)
    requires !x.w.Gone? && y.h.Gone? ==> y.log.drops == 1
    ensures Conserved(Perform(x, Write), y) && Conserved(y, Perform(x, Write))
  {
    if x.w.Present? {
      var m := x.rx.value[0];
      FramedAppend(x.wire, FiMessage(m));
      var t := QueuedMessages(y.uq) + FramedMessages(x.wire);
      assert QueuedMessages(y.uq) + (FramedMessages(x.wire) + [m]) == t + [m];
      assert y.log.delivered + (t + [m]) == (y.log.delivered + t) + [m];
    }
  }

  lemma WriteDropKeepsMessages(x: EndView, y: EndView)
    requires Conserved(x, y) && Conserved(y, x) && x.wq != [] && x.wq[0].WiDrop?
    requires x.h.Gone? && x.log.drops == 0 ==> x.log.delivered == y.log.sent
    ensures Conserved(Perform(x, Write), y) && Conserved(y, Perform(x, Write))
  {
    FramedAppend(x.wire, FiDrop);
  }

  lemma WriteKeeps(x: EndView, y: EndView)
    requires Created(x) && BothInv(x, y) && EndInv(y) && Enabled(x, Write)
    ensures BothInv(Perform(x, Write), y)
  {
    match x.wq[0]
    case WiRegister => WriteRegisterKeeps(x, y);
    case WiMessage =>
      if !x.w.Gone? && y.h.Gone? { OpenEndIsHeard(x, y); }
      WriteMessageKeepsEnd(x); WriteMessageKeepsDrops(x, y); WriteMessageKeepsMessages(x, y);
    case WiDrop(_) =>
      WriteDropKeepsEnd(x); WriteDropKeepsDrops(x, y); WriteDropKeepsMessages(x, y);
  }

  lemma FinishCloseKeeps(x: EndView, y: EndView)
    requires Created(x) && BothInv(x, y) && Enabled(x, FinishClose)
    ensures BothInv(Perform(x, FinishClose), y)
  {
    UqAppend(x.uq, UiDrop(false));
  }

  lemma HelpRegisterKeeps(x: EndView, y: EndView)
    requires Created(x) && BothInv(x, y) && StartsWith(x.uq, UiRegister)
    ensures BothInv(Perform(x, Help), y)
  {
  }

  lemma HelpMessageKeepsEnd(x: EndView, y: EndView)
    requires Created(x) && EndInv(x) && DropTravels(x, y) && DropTravels(y, x) && x.uq != [] && x.uq[0].UiMessage?
    ensures EndInv(Perform(x, Help)) && DropTravels(Perform(x, Help), y) && DropTravels(y, Perform(x, Help))
  {
  }

  lemma HelpMessageKeepsMessages(x: EndView, y: EndView)
    requires Registration(x) && Conserved(x, y) && Conserved(y, x) && x.uq != [] && x.uq[0].UiMessage?
    ensures Conserved(Perform(x, Help), y) && Conserved(y, Perform(x, Help))
  {
    var m := x.uq[0].message;
    var t := QueuedMessages(x.uq[1..]) + FramedMessages(y.wire);
    assert ([m] + QueuedMessages(x.uq[1..])) + FramedMessages(y.wire) == [m] + t;
    assert x.log.delivered + ([m] + t) == (x.log.delivered + [m]) + t;
  }

  lemma HelpDropKeepsEnd(x: EndView)
    requires Created(x) && EndInv(x) && x.uq != [] && x.uq[0].UiDrop?
    ensures EndInv(Perform(x, Help))
  {
    WqAppend(x.wq, WiDrop(false));
  }

  lemma HelpDropKeepsDrops(x: EndView, y: EndView)
    requires Created(x) && EndInv(x) && DropTravels(x, y) && DropTravels(y, x) && x.uq != [] && x.uq[0].UiDrop?
    ensures DropTravels(Perform(x, Help), y) && DropTravels(y, Perform(x, Help))
  {
    WqAppend(x.wq, WiDrop(false));
  }

  lemma HelpDropKeepsMessages(x: EndView, y: EndView)
    requires Registration(x) && Closing(x) && DropTravels(y, x) && Conserved(x, y) && Conserved(y, x)
    requires x.uq != [] && x.uq[0].UiDrop?
    ensures Conserved(Perform(x, Help), y) && Conserved(y, Perform(x, Help))
  {
  }

  lemma HelpKeeps(x: EndView, y: EndView)
    requires Created(x) && BothInv(x, y) && Enabled(x, Help)
    ensures BothInv(Perform(x, Help), y)
  {
    match x.uq[0]
    case UiRegister => HelpRegisterKeeps(x, y);
    case UiMessage(_) => HelpMessageKeepsEnd(x, y); HelpMessageKeepsMessages(x, y);
    case UiDrop(_) => HelpDropKeepsEnd(x); HelpDropKeepsDrops(x, y); HelpDropKeepsMessages(x, y);
  }

  lemma FlushKeeps(x: EndView, y: EndView, act: Act)
    requires Created(x) && BothInv(x, y) && Enabled(x, act)
    requires act.FlushData? || act.FlushToken?
    ensures BothInv(Perform(x, act), y)
  {
    WqAppend(x.wq, WiMessage);
  }

  lemma UserDropKeeps(x: EndView, y: EndView, act: Act)
    requires Created(x) && BothInv(x, y) && Enabled(x, act)
    requires act.Shutdown? || act.DropWrite? || act.DropRead?
    ensures BothInv(Perform(x, act), y)
  {
    WqAppend(x.wq, WiDrop(true));
  }

  lemma ActKeeps(x: EndView, y: EndView, act: Act)
    requires BothInv(x, y) && EndInv(y) && Enabled(x, act)
    ensures BothInv(Perform(x, act), y)
  {
    match act
    case Write => WriteKeeps(x, y);
    case FinishClose => FinishCloseKeeps(x, y);
    case Help => HelpKeeps(x, y);
    case FlushData(_) => FlushKeeps(x, y, act);
    case FlushToken => FlushKeeps(x, y, act);
    case _ => UserDropKeeps(x, y, act);
  }

  /** Writing a message or a Drop does not touch the opening id. */
  lemma AppendKeepsOpening(wire: seq<FItem>, f: FItem)
    requires !f.FiOpen?
    ensures StartsWith(wire + [f], FiOpen) <==> StartsWith(wire, FiOpen)
    ensures Holds(wire + [f], FiOpen) <==> Holds(wire, FiOpen)
    ensures Holds(Rest(wire + [f]), FiOpen) <==> Holds(Rest(wire), FiOpen)
  {
    WireAppend(wire, f);
  }

  lemma ActKeepsOpening(x: EndView, act: Act)
    requires Created(x) && (x.rx.Some? <==> !x.w.Gone?) && Enabled(x, act)
    ensures Created(Perform(x, act))
    ensures StartsWith(Perform(x, act).wire, FiOpen) <==> StartsWith(x.wire, FiOpen)
    ensures Holds(Perform(x, act).wire, FiOpen) <==> Holds(x.wire, FiOpen)
    ensures Holds(Rest(Perform(x, act).wire), FiOpen) <==> Holds(Rest(x.wire), FiOpen)
  {
    if act.Write? && x.w.Present? {
      if x.wq[0].WiMessage? && x.rx.value != [] {
        AppendKeepsOpening(x.wire, FiMessage(x.rx.value[0]));
      } else if x.wq[0].WiDrop? {
        AppendKeepsOpening(x.wire, FiDrop);
      }
    }
  }

  /** A step at the opener keeps the invariant of the whole stream. */
  lemma OpenerActKeeps(o: EndView, a: EndView, act: Act)
    requires StreamInv(o, a) && Enabled(o, act)
    ensures StreamInv(Perform(o, act), a)
  {
    ActKeeps(o, a, act);
    ActKeepsOpening(o, act);
  }

  /** A step at the acceptor keeps the invariant of the whole stream. */
  lemma AcceptorActKeeps(o: EndView, a: EndView, act: Act)
    requires StreamInv(o, a) && Enabled(a, act)
    ensures StreamInv(o, Perform(a, act))
  {
    ActKeeps(a, o, act);
    ActKeepsOpening(a, act);
  }

  lemma Singletons()
    ensures forall t :: Holds([UiRegister], t) <==> t == UiRegister
    ensures forall t :: Holds([WiRegister], t) <==> t == WiRegister
    ensures forall t :: Holds([FiOpen], t) <==> t == FiOpen
    ensures QueuedMessages([UiRegister]) == [] && FramedMessages([FiOpen]) == []
    ensures Tokens([WiRegister]) == 0 && TokensBeforeDrop([WiRegister]) == 0
  {
  }

  lemma OpenKeeps()
    ensures StreamInv(FRESH, FRESH)
    ensures StreamInv(Opened(FRESH), FRESH)
  {
    var o := Opened(FRESH);
    assert o.uq == [UiRegister] && o.wire == [FiOpen];
    Singletons();
  }

  /** Reading a frame keeps the invariant of the receiving end. */
  lemma ReceiveKeepsEnd(x: EndView, y: EndView)
    requires Created(x) && EndInv(x) && DropTravels(y, x) && y.wire != [] && !y.wire[0].FiOpen?
    ensures EndInv(Received(x, y.wire[0]))
    ensures DropTravels(y.(wire := y.wire[1..]), Received(x, y.wire[0]))
  {
    var f := y.wire[0];
    UqAppend(x.uq, if f.FiMessage? then UiMessage(f.message) else UiDrop(true));
  }

  lemma ReceiveKeepsMessages(x: EndView, y: EndView)
    requires Conserved(y, x) && y.wire != [] && !y.wire[0].FiOpen?
    ensures Conserved(y.(wire := y.wire[1..]), Received(x, y.wire[0]))
  {
    match y.wire[0]
    case FiMessage(m) =>
      QueuedAppend(x.uq, UiMessage(m));
      assert (QueuedMessages(x.uq) + [m]) + FramedMessages(y.wire[1..])
          == QueuedMessages(x.uq) + ([m] + FramedMessages(y.wire[1..]));
    case FiDrop =>
      QueuedAppend(x.uq, UiDrop(true));
  }

  /** Only the receiver's helper queue and the head of the wire change. */
  lemma ReceiveKeepsOther(x: EndView, y: EndView)
    requires EndInv(y) && PairInv(x, y) && Created(y) && y.wire != [] && !y.wire[0].FiOpen?
    ensures EndInv(y.(wire := y.wire[1..])) && PairInv(Received(x, y.wire[0]), y.(wire := y.wire[1..]))
  {
  }

  lemma ReceiveByAcceptorKeeps(o: EndView, a: EndView)
    requires StreamInv(o, a) && o.wire != [] && !o.wire[0].FiOpen?
    ensures StreamInv(o.(wire := o.wire[1..]), Received(a, o.wire[0]))
  {
    ReceiveKeepsEnd(a, o);
    ReceiveKeepsMessages(a, o);
    ReceiveKeepsOther(a, o);
  }

  /** The id arrives: both queues of the acceptor start with the registration. */
  lemma AcceptKeeps(o: EndView, a: EndView)
    requires StreamInv(o, a) && StartsWith(o.wire, FiOpen)
    ensures StreamInv(o.(wire := o.wire[1..]), Received(a, FiOpen))
  {
    var a' := Received(a, FiOpen);
    assert a'.uq == [UiRegister] && a'.wq == [WiRegister];
    Singletons();
  }

  lemma ReceiveByOpenerKeeps(o: EndView, a: EndView)
    requires StreamInv(o, a) && a.wire != []
    ensures StreamInv(Received(o, a.wire[0]), a.(wire := a.wire[1..]))
  {
    ReceiveKeepsEnd(o, a);
    ReceiveKeepsMessages(o, a);
    ReceiveKeepsOther(o, a);
  }
}
