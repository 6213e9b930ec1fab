/** The read half of a stream: what a reader can get out of the messages handed to it. */
module WiredReads {
  import opened Bytes
  import opened WiredTasks

  datatype Polled = Pending | Got(bytes: seq<byte>)

  /** The buffer of a read half, how much of it was read, and the messages behind it. */
  datatype Reading = Reading(buf: seq<byte>, position: nat, queue: seq<seq<byte>>)

  /** One `poll_read` into `n` bytes. */
  function Poll(r: Reading, n: nat, senderAlive: bool): (Reading, Polled)
    requires r.position <= |r.buf|
  {
    if r.buf == [] && r.queue == [] then (r, if senderAlive then Pending else Got([]))
    else
      var now := if r.buf == [] then Reading(r.queue[0], 0, r.queue[1..]) else r;
      var left := |now.buf| - now.position;
      var k := if n < left then n else left;
      (now.(position := now.position + k), Got(now.buf[now.position..now.position + k]))
  }

  class InternalReadHalf {
    var buf: seq<byte>
    var position: nat
    const rx: Channel

    constructor (rx: Channel)
      ensures buf == [] && position == 0 && this.rx == rx
    {
      this.rx, buf, position := rx, [], 0;
    }

    function State(): Reading
      reads this, rx
    {
      Reading(buf, position, rx.items)
    }

    /** A message is only fetched while the buffer holds none, however much of it was read. */
    method PollRead(n: nat) returns (r: Polled)
      requires position <= |buf|
      modifies this, rx
      ensures position <= |buf|
      ensures (State(), r) == Poll(old(State()), n, old(rx.senderAlive))
    {
      if buf == [] {
        if rx.items == [] {
          return if rx.senderAlive then Pending else Got([]);
        }
        buf := rx.items[0];
        rx.items := rx.items[1..];
        position := 0;
      }
      var left := |buf| - position;
      var k := if n < left then n else left;
      r := Got(buf[position..position + k]);
      position := position + k;
    }
  }

  // ----- what one read returns -----

  /** There is a message being read, or one to fetch. */
  predicate AtHand(r: Reading) {
    r.buf != [] || r.queue != []
  }

  /** What is left of it. */
  function Unread(r: Reading): seq<byte>
    requires r.position <= |r.buf|
  {
    if r.buf != [] then r.buf[r.position..] else if r.queue != [] then r.queue[0] else []
  }

  /** The first `n` bytes of `s`, or all if there are fewer. */
  function Front(s: seq<byte>, n: nat): (f: seq<byte>)
    ensures f <= s && |f| == if n < |s| then n else |s|
  {
    if n < |s| then s[..n] else s
  }

  /**
   With a message at hand a read returns as many of its bytes as fit; otherwise it waits, or returns
   nothing if the sender is gone.  So it returns nothing where bytes fit, which a reader takes as the
   end, exactly if the message is used up or there can be no more.
   */
  lemma PollReturnsWhatFits(r: Reading, n: nat, senderAlive: bool)
    requires r.position <= |r.buf|
    ensures var (now, got) := Poll(r, n, senderAlive);
      && now.position <= |now.buf|
      && got == (if AtHand(r) then Got(Front(Unread(r), n)) else if senderAlive then Pending else Got([]))
      && now.queue == (if r.buf == [] && r.queue != [] then r.queue[1..] else r.queue)
      && (AtHand(r) && Unread(r) != [] ==> now.buf != [] && Unread(r) == Front(Unread(r), n) + Unread(now))
      && (n > 0 ==> (got == Got([]) <==> if AtHand(r) then Unread(r) == [] else !senderAlive))
  {
    if AtHand(r) && Unread(r) != [] { FrontIsTaken(r, n, senderAlive); }
  }

  lemma FrontIsTaken(r: Reading, n: nat, senderAlive: bool)
    requires r.position <= |r.buf| && AtHand(r) && Unread(r) != []
    ensures var (now, got) := Poll(r, n, senderAlive);
      && now.position <= |now.buf| && now.buf != [] && got == Got(Front(Unread(r), n))
      && Unread(r) == Front(Unread(r), n) + Unread(now)
  {
    var (now, got) := Poll(r, n, senderAlive);
    var s := Unread(r);
    var k := if n < |s| then n else |s|;
    assert s == s[..k] + s[k..];
    assert Unread(now) == s[k..] && Front(s, n) == s[..k];
  }

  // ----- what can be read -----

  /** Messages arrive between reads, and the sender may go. */
  datatype ReadStep = Arrive(message: seq<byte>) | Read(n: nat, senderAlive: bool)

  /** The bytes of a series of reads. */
  function Reads(r: Reading, steps: seq<ReadStep>): seq<byte>
    requires r.position <= |r.buf|
    decreases |steps|
  {
    if steps == [] then []
    else
      match steps[0]
      case Arrive(m) => Reads(r.(queue := r.queue + [m]), steps[1..])
      case Read(n, senderAlive) =>
        var (now, got) := Poll(r, n, senderAlive);
        (if got.Got? then got.bytes else []) + Reads(now, steps[1..])
  }

  function Arrivals(steps: seq<ReadStep>): seq<seq<byte>> {
    if steps == [] then []
    else (if steps[0].Arrive? then [steps[0].message] else []) + Arrivals(steps[1..])
  }

  function FirstNonEmpty(queue: seq<seq<byte>>): seq<byte> {
    if queue == [] then [] else if queue[0] != [] then queue[0] else FirstNonEmpty(queue[1..])
  }

  function Join(queue: seq<seq<byte>>): seq<byte> {
    if queue == [] then [] else queue[0] + Join(queue[1..])
  }

  /** What is left of the message being read, or the first one that is not empty, with `more` still to arrive. */
  function Readable(r: Reading, more: seq<seq<byte>>): seq<byte>
    requires r.position <= |r.buf|
  {
    if r.buf == [] then FirstNonEmpty(r.queue + more) else r.buf[r.position..]
  }

  lemma PollOfOne(r: Reading, n: nat, senderAlive: bool)
    requires r.position <= |r.buf| && r.buf != []
    ensures var (now, got) := Poll(r, n, senderAlive);
      && now.position <= |now.buf| && now.buf != [] && got == Got(Front(r.buf[r.position..], n))
      && r.buf[r.position..] == Front(r.buf[r.position..], n) + now.buf[now.position..]
  {
    if Unread(r) != [] { FrontIsTaken(r, n, senderAlive); }
  }

  /** Either the buffer holds a message, or the first queued one is fetched. */
  lemma PollOfFetched(r: Reading, n: nat, senderAlive: bool)
    requires r.position <= |r.buf| && r.buf == [] && r.queue != []
    ensures var fetched := Reading(r.queue[0], 0, r.queue[1..]);
      r.queue[0] != [] ==> Poll(r, n, senderAlive) == Poll(fetched, n, senderAlive)
    ensures r.queue[0] == [] ==> Poll(r, n, senderAlive) == (Reading([], 0, r.queue[1..]), Got([]))
  {
  }

  lemma FetchedReadable(r: Reading, more: seq<seq<byte>>)
    requires r.position <= |r.buf| && r.buf == [] && r.queue != []
    ensures Readable(r, more) == Readable(Reading(r.queue[0], 0, r.queue[1..]), more)
  {
    var all := r.queue + more;
    assert all[0] == r.queue[0] && all[1..] == r.queue[1..] + more;
  }

  lemma PollTakesFront(r: Reading, n: nat, senderAlive: bool, more: seq<seq<byte>>)
    requires r.position <= |r.buf|
    ensures var (now, got) := Poll(r, n, senderAlive);
      now.position <= |now.buf| && Readable(r, more) == (if got.Got? then got.bytes else []) + Readable(now, more)
  {
    if r.buf != [] {
      PollOfOne(r, n, senderAlive);
    } else if r.queue != [] {
      PollOfFetched(r, n, senderAlive);
      FetchedReadable(r, more);
      if r.queue[0] != [] { PollOfOne(Reading(r.queue[0], 0, r.queue[1..]), n, senderAlive); }
    }
  }

  lemma ArriveReadable(r: Reading, m: seq<byte>, more: seq<seq<byte>>)
    requires r.position <= |r.buf|
    ensures Readable(r.(queue := r.queue + [m]), more) == Readable(r, [m] + more)
  {
    assert (r.queue + [m]) + more == r.queue + ([m] + more);
  }

  lemma ReadFirst(r: Reading, n: nat, senderAlive: bool, steps: seq<ReadStep>)
    requires r.position <= |r.buf| && steps != [] && steps[0] == Read(n, senderAlive)
    ensures var (now, got) := Poll(r, n, senderAlive);
      Reads(r, steps) == (if got.Got? then got.bytes else []) + Reads(now, steps[1..])
    ensures Arrivals(steps) == Arrivals(steps[1..])
  {
  }

  /** No series of reads gets further than the first message that is not empty, whenever messages arrive. */
  lemma {:induction false} OnlyOneMessageIsRead(r: Reading, steps: seq<ReadStep>)
    requires r.position <= |r.buf|
    ensures Reads(r, steps) <= Readable(r, Arrivals(steps))
    decreases |steps|
  {
    if steps != [] {
      match steps[0]
      case Arrive(m) =>
        var now := r.(queue := r.queue + [m]);
        OnlyOneMessageIsRead(now, steps[1..]);
        ArriveReadable(r, m, Arrivals(steps[1..]));
      case Read(n, senderAlive) =>
        var rest, more := steps[1..], Arrivals(steps[1..]);
        ReadFirst(r, n, senderAlive, steps);
        PollTakesFront(r, n, senderAlive, more);
        OnlyOneMessageIsRead(Poll(r, n, senderAlive).0, rest);
    }
  }

  /** Enough large reads get all of it. */
  lemma {:induction false} OneMessageCanBeRead(queue: seq<seq<byte>>) returns (steps: seq<ReadStep>)
    ensures Arrivals(steps) == [] && Reads(Reading([], 0, queue), steps) == FirstNonEmpty(queue)
  {
    if queue == [] {
      steps := [];
    } else {
      var n := |queue[0]|;
      var rest: seq<ReadStep> := [];
      if n == 0 {
        rest := OneMessageCanBeRead(queue[1..]);
      }
      steps := [Read(n, true)] + rest;
      assert steps[1..] == rest;
      assert queue[0][0..n] == queue[0] && queue[0] + [] == queue[0];
    }
  }

  lemma ArriveOne(queue: seq<seq<byte>>, m: seq<byte>, rest: seq<ReadStep>)
    ensures Reads(Reading([], 0, queue), [Arrive(m)] + rest) == Reads(Reading([], 0, queue + [m]), rest)
    ensures Arrivals([Arrive(m)] + rest) == [m] + Arrivals(rest)
  {
    assert ([Arrive(m)] + rest)[1..] == rest;
  }

  /** First all messages arrive, then `steps` happen. */
  lemma {:induction false} ArriveFirst(queue: seq<seq<byte>>, messages: seq<seq<byte>>, steps: seq<ReadStep>)
    returns (all: seq<ReadStep>)
    ensures Arrivals(all) == messages + Arrivals(steps)
    ensures Reads(Reading([], 0, queue), all) == Reads(Reading([], 0, queue + messages), steps)
    decreases |messages|
  {
    if messages == [] {
      all := steps;
      assert queue + [] == queue;
    } else {
      var m, later := messages[0], messages[1..];
      var rest := ArriveFirst(queue + [m], later, steps);
      ArriveOne(queue, m, rest);
      all := [Arrive(m)] + rest;
      assert [m] + later == messages && queue + [m] + later == queue + messages;
    }
  }

  /** Some series of reads, while exactly these messages arrive, gets all of their bytes. */
  ghost predicate AllCanBeRead(messages: seq<seq<byte>>) {
    exists steps :: Arrivals(steps) == messages && Reads(Reading([], 0, []), steps) == Join(messages)
  }

  predicate AtMostOneNonEmpty(messages: seq<seq<byte>>) {
    forall i, j :: 0 <= i < j < |messages| ==> messages[i] == [] || messages[j] == []
  }

  lemma {:induction false} JoinIsEmpty(messages: seq<seq<byte>>)
    ensures Join(messages) == [] <==> forall i :: 0 <= i < |messages| ==> messages[i] == []
  {
    if messages != [] {
      var rest := messages[1..];
      JoinIsEmpty(rest);
      if Join(messages) == [] {
        forall i | 0 <= i < |messages| ensures messages[i] == [] {
          if i > 0 { assert messages[i] == rest[i - 1]; }
        }
      } else if messages[0] == [] {
        var k :| 0 <= k < |rest| && rest[k] != [];
        assert messages[k + 1] != [];
      }
    }
  }

  lemma {:induction false} JoinIsFirst(messages: seq<seq<byte>>)
    ensures |FirstNonEmpty(messages)| <= |Join(messages)|
    ensures Join(messages) == FirstNonEmpty(messages) <==> AtMostOneNonEmpty(messages)
  {
    if messages != [] {
      var rest := messages[1..];
      JoinIsFirst(rest);
      JoinIsEmpty(rest);
      assert forall i :: 0 < i < |messages| ==> messages[i] == rest[i - 1];
      assert forall i :: 0 <= i < |rest| ==> rest[i] == messages[i + 1];
      if messages[0] != [] {
        assert Join(messages) == messages[0] <==> Join(rest) == [];
      }
    }
  }

  /** All bytes handed over can be read exactly if at most one of the messages is not empty. */
  lemma AllCanBeReadExactlyWhen(messages: seq<seq<byte>>)
    ensures AllCanBeRead(messages) <==> AtMostOneNonEmpty(messages)
  {
    JoinIsFirst(messages);
    if AtMostOneNonEmpty(messages) {
      var later := OneMessageCanBeRead(messages);
      var steps := ArriveFirst([], messages, later);
      assert [] + messages == messages && messages + [] == messages;
    }
    if AllCanBeRead(messages) {
      var steps :| Arrivals(steps) == messages && Reads(Reading([], 0, []), steps) == Join(messages);
      OnlyOneMessageIsRead(Reading([], 0, []), steps);
      assert [] + messages == messages;
    }
  }

  // ----- exactly what a series of reads returns -----

  predicate OnlyReads(steps: seq<ReadStep>) {
    forall i :: 0 <= i < |steps| ==> steps[i].Read?
  }

  /** The room that the reads have, without the first `skip` of them. */
  function Room(steps: seq<ReadStep>, skip: nat): nat
    requires OnlyReads(steps)
  {
    if steps == [] then 0
    else if skip > 0 then Room(steps[1..], skip - 1)
    else steps[0].n + Room(steps[1..], 0)
  }

  /** The empty messages in front: each is what one read returns. */
  function EmptyInFront(queue: seq<seq<byte>>): nat {
    if queue == [] || queue[0] != [] then 0 else 1 + EmptyInFront(queue[1..])
  }

  lemma FrontOfFront(s: seq<byte>, m: nat, n: nat, rest: seq<byte>)
    requires s == Front(s, m) + rest
    ensures Front(s, m) + Front(rest, n) == Front(s, m + n)
  {
    if m < |s| { assert rest == s[m..]; } else { assert rest == []; }
  }

  lemma {:induction false} NothingToRead(r: Reading, steps: seq<ReadStep>)
    requires r.position <= |r.buf| && OnlyReads(steps) && !AtHand(r)
    ensures Reads(r, steps) == []
    decreases |steps|
  {
    if steps != [] {
      var x := steps[0];
      ReadFirst(r, x.n, x.senderAlive, steps);
      PollReturnsWhatFits(r, x.n, x.senderAlive);
      NothingToRead(r, steps[1..]);
    }
  }

  lemma {:induction false} ReadsOfOne(r: Reading, steps: seq<ReadStep>)
    requires r.position <= |r.buf| && OnlyReads(steps) && r.buf != []
    ensures Reads(r, steps) == Front(r.buf[r.position..], Room(steps, 0))
    decreases |steps|
  {
    if steps != [] {
      var x, s, rest := steps[0], r.buf[r.position..], steps[1..];
      var (now, got) := Poll(r, x.n, x.senderAlive);
      ReadFirst(r, x.n, x.senderAlive, steps);
      PollOfOne(r, x.n, x.senderAlive);
      ReadsOfOne(now, rest);
      FrontOfFront(s, x.n, Room(rest, 0), now.buf[now.position..]);
    }
  }

  /**
   Once its messages have arrived, any reads together return as much of the first one that is not
   empty as they have room for, after one read for each empty message in front of it.
   */
  lemma {:induction false} ReadsReturnWhatFits(queue: seq<seq<byte>>, steps: seq<ReadStep>)
    requires OnlyReads(steps)
    ensures Reads(Reading([], 0, queue), steps) == Front(FirstNonEmpty(queue), Room(steps, EmptyInFront(queue)))
    decreases |steps|
  {
    var r := Reading([], 0, queue);
    if queue == [] {
      NothingToRead(r, steps);
    } else if steps != [] {
      var x := steps[0];
      var (now, got) := Poll(r, x.n, x.senderAlive);
      ReadFirst(r, x.n, x.senderAlive, steps);
      PollReturnsWhatFits(r, x.n, x.senderAlive);
      if queue[0] == [] {
        assert now == Reading([], 0, queue[1..]);
        ReadsReturnWhatFits(queue[1..], steps[1..]);
      } else {
        ReadsOfOne(now, steps[1..]);
        FrontOfFront(queue[0], x.n, Room(steps[1..], 0), Unread(now));
      }
    }
  }

  // ----- an example -----

  /** Two messages of one byte each: the second byte is never read. */
  lemma SecondMessageIsLost()
    ensures !AllCanBeRead([[1], [2]])
  {
    var messages: seq<seq<byte>> := [[1], [2]];
    AllCanBeReadExactlyWhen(messages);
    assert messages[0] != [] && messages[1] != [];
  }
}
