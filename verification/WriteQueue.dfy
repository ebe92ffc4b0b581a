/** The outbound queue of a connection: replies wait until the socket accepts bytes, and the
    write event is one-shot (ocssd_libevent_server.cc, 206-255; ocssd_conn.h, 23-38, 329-336, 377-379). */
module WriteQueue {
  import opened Bytes

  /** A reply buffer; its first `offset` bytes have been written. */
  datatype Buffer = Buffer(data: seq<Byte>, offset: nat)

  /** What write(2) reports: bytes accepted, try again later, or a broken socket. */
  datatype Outcome = Wrote(n: nat) | Retry | Broken

  /** `wire` and `replies` record what was written and what was enqueued so far. */
  datatype Queue = Queue(bufs: seq<Buffer>, armed: bool, running: bool, wire: seq<Byte>, replies: seq<seq<Byte>>)

  datatype Event = Enqueue(data: seq<Byte>) | Writable(outcome: Outcome)

  const EMPTY := Queue([], false, true, [], [])

  function Remaining(b: Buffer): seq<Byte> { if b.offset <= |b.data| then b.data[b.offset..] else [] }

  function Pending(bufs: seq<Buffer>): seq<Byte> {
    if bufs == [] then [] else Remaining(bufs[0]) + Pending(bufs[1..])
  }

  function Concat(replies: seq<seq<Byte>>): seq<Byte> {
    if replies == [] then [] else Concat(replies[..|replies| - 1]) + replies[|replies| - 1]
  }

  /** libevent runs the write callback only while the event is armed; write(2) accepts no more
      bytes than it is offered. A broken socket ends the process. */
  predicate Possible(q: Queue, e: Event) {
    && q.running
    && (e.Writable? ==> q.armed)
    && (e.Writable? && e.outcome.Wrote? && q.bufs != [] ==> e.outcome.n <= |Remaining(q.bufs[0])|)
  }

  /** The effect of one event. Reading the front of an empty queue is undefined; the model stops
      there, and the runs below never reach it. */
  function Handle(q: Queue, e: Event): Queue {
    match e
    case Enqueue(data) => q.(bufs := q.bufs + [Buffer(data, 0)], armed := true, replies := q.replies + [data])
    case Writable(outcome) =>
      if q.bufs == [] then q.(running := false) else
        var b := q.bufs[0];
        match outcome
        case Broken => q.(armed := false, running := false)
        case Retry => q.(armed := true)
        case Wrote(n) =>
          var wire := q.wire + Remaining(b)[..Min(n, |Remaining(b)|)];
          if b.offset + n < |b.data| then
            q.(bufs := [b.(offset := b.offset + n)] + q.bufs[1..], armed := true, wire := wire)
          else q.(bufs := q.bufs[1..], armed := |q.bufs| > 1, wire := wire)
  }

  // ---------------------------------------------------------------- the code

  class Connection {
    var writeq: seq<Buffer>
    var armed: bool
    ghost var running: bool
    var wire: seq<Byte>  // what the socket has accepted
    ghost var replies: seq<seq<Byte>>

    ghost function View(): Queue
      reads this
    {
      Queue(writeq, armed, running, wire, replies)
    }

    constructor ()
      ensures View() == EMPTY
    {
      writeq, armed, running, wire, replies := [], false, true, [], [];
    }

    method EnqueueReply(data: seq<Byte>)
      modifies this
      ensures View() == Handle(old(View()), Enqueue(data))
    {
      writeq := writeq + [Buffer(data, 0)];
      replies := replies + [data];
      armed := true;
    }

    /** The write callback. The event disarms itself before the callback runs; the front of the
        queue is read without a test, which the invariant justifies. */
    method OnWrite(outcome: Outcome)
      requires Possible(View(), Writable(outcome)) && Safe(View())
      modifies this
      ensures View() == Handle(old(View()), Writable(outcome))
    {
      armed := false;
      var b := writeq[0];
      match outcome {
        case Retry =>
          armed := true;
          return;
        case Broken =>
          running := false;
          return;
        case Wrote(n) =>
          wire := wire + Remaining(b)[..n];
          if b.offset + n < |b.data| {
            writeq := writeq[0 := b.(offset := b.offset + n)];
            armed := true;
            return;
          }
      }
      writeq := writeq[1..];
      if |writeq| > 0 {
        armed := true;
      }
    }
  }

  // ---------------------------------------------------------------- every run

  /** What holds between callbacks of a running server. */
  predicate Safe(q: Queue) {
    && (q.armed <==> q.bufs != [])
    && (forall i :: 0 <= i < |q.bufs| ==> q.bufs[i].offset <= |q.bufs[i].data|)
    && q.wire + Pending(q.bufs) == Concat(q.replies)
  }

  lemma {:induction false} PendingSnoc(bufs: seq<Buffer>, b: Buffer)
    ensures Pending(bufs + [b]) == Pending(bufs) + Remaining(b)
  {
    if bufs == [] {
      assert bufs + [b] == [b] && [b][1..] == [];
    } else {
      assert (bufs + [b])[1..] == bufs[1..] + [b];
      PendingSnoc(bufs[1..], b);
      assert Remaining(bufs[0]) + (Pending(bufs[1..]) + Remaining(b)) ==
             Remaining(bufs[0]) + Pending(bufs[1..]) + Remaining(b);
    }
  }

  lemma HandleEnqueue(q: Queue, data: seq<Byte>)
    requires Safe(q)
    ensures Safe(Handle(q, Enqueue(data)))
  {
    hide Pending, Concat;
    var b := Buffer(data, 0);
    PendingSnoc(q.bufs, b);
    assert Remaining(b) == data;
    ConcatSnoc(q.replies, data);
    assert q.wire + (Pending(q.bufs) + data) == q.wire + Pending(q.bufs) + data;
  }

  lemma {:induction false} ConcatSnoc(replies: seq<seq<Byte>>, data: seq<Byte>)
    ensures Concat(replies + [data]) == Concat(replies) + data
  {
    assert (replies + [data])[..|replies|] == replies;
  }

  lemma HandleWrote(q: Queue, n: nat)
    requires Safe(q) && Possible(q, Writable(Wrote(n)))
    ensures Safe(Handle(q, Writable(Wrote(n))))
  {
    hide Concat, Pending;
    var b, rest := q.bufs[0], Pending(q.bufs[1..]);
    var r := Remaining(b);
    PendingFront(q.bufs);
    Shift(q.wire, r, n, rest);
    var b' := b.(offset := b.offset + n);
    if b.offset + n < |b.data| {
      assert Remaining(b') == r[n..];
      var bufs := [b'] + q.bufs[1..];
      assert bufs[1..] == q.bufs[1..];
      PendingFront(bufs);
    } else {
      assert r[n..] == [] && [] + rest == rest;
    }
  }

  lemma {:induction false} PendingFront(bufs: seq<Buffer>)
    requires bufs != []
    ensures Pending(bufs) == Remaining(bufs[0]) + Pending(bufs[1..])
  {
  }

  lemma Shift(wire: seq<Byte>, r: seq<Byte>, n: nat, rest: seq<Byte>)
    requires n <= |r|
    ensures wire + (r + rest) == wire + r[..n] + (r[n..] + rest)
  {
    assert r == r[..n] + r[n..];
  }

  lemma HandleSafe(q: Queue, e: Event)
    requires Safe(q) && Possible(q, e)
    ensures var q' := Handle(q, e); q'.running ==> Safe(q')
    ensures q.bufs == [] ==> e.Enqueue?
    ensures q.wire <= Handle(q, e).wire
  {
    hide Concat, Pending;
    match e
    case Enqueue(data) => HandleEnqueue(q, data);
    case Writable(outcome) => if outcome.Wrote? { HandleWrote(q, outcome.n); }
  }

  /** A reply goes behind what is pending; a write takes exactly the bytes it reports from the front
      of what is pending onto the wire, and with the last byte of a buffer the buffer; an interrupted
      write changes nothing; a broken socket ends the process. */
  lemma EventMoves(q: Queue, e: Event)
    requires Safe(q) && Possible(q, e)
    ensures var p := Handle(q, e);
            match e
            case Enqueue(data) =>
              && p.running && p.wire == q.wire && p.replies == q.replies + [data]
              && Pending(p.bufs) == Pending(q.bufs) + data && |p.bufs| == |q.bufs| + 1
            case Writable(Retry) => p == q
            case Writable(Broken) => !p.running && p.wire == q.wire && p.replies == q.replies
            case Writable(Wrote(n)) =>
              && p.running && p.replies == q.replies && n <= |Pending(q.bufs)|
              && p.wire == q.wire + Pending(q.bufs)[..n] && Pending(p.bufs) == Pending(q.bufs)[n..]
              && |p.bufs| == |q.bufs| - if n == |Remaining(q.bufs[0])| then 1 else 0
  {
    hide Concat, Pending;
    match e
    case Enqueue(data) =>
      PendingSnoc(q.bufs, Buffer(data, 0));
    case Writable(Wrote(n)) =>
      var b := q.bufs[0];
      PendingFront(q.bufs);
      var r, rest := Remaining(b), Pending(q.bufs[1..]);
      assert (r + rest)[..n] == r[..n] && (r + rest)[n..] == r[n..] + rest;
      if b.offset + n < |b.data| {
        var bufs := [b.(offset := b.offset + n)] + q.bufs[1..];
        PendingFront(bufs);
        assert bufs[1..] == q.bufs[1..] && Remaining(bufs[0]) == r[n..];
      } else {
        assert r[n..] == [] && [] + rest == rest;
      }
    case _ =>
  }

  predicate PossibleRun(q: Queue, es: seq<Event>)
    decreases |es|
  {
    es == [] || (Possible(q, es[0]) && PossibleRun(Handle(q, es[0]), es[1..]))
  }

  function HandleAll(q: Queue, es: seq<Event>): Queue
    decreases |es|
  {
    if es == [] then q else HandleAll(Handle(q, es[0]), es[1..])
  }

  predicate Prefixed(q: Queue) { q.wire <= Concat(q.replies) }

  lemma BrokenKeepsPrefix(q: Queue, e: Event)
    requires Safe(q) && Possible(q, e) && !Handle(q, e).running
    ensures Prefixed(Handle(q, e))
  {
  }

  lemma {:induction false} RunKeeps(q: Queue, es: seq<Event>)
    requires Prefixed(q) && (q.running ==> Safe(q)) && PossibleRun(q, es)
    ensures var q' := HandleAll(q, es); Prefixed(q') && (q'.running ==> Safe(q'))
    decreases |es|
  {
    hide Safe, Handle, Concat;
    if es != [] {
      HandleSafe(q, es[0]);
      var q' := Handle(q, es[0]);
      if q'.running {
        SafeIsPrefixed(q');
      } else {
        BrokenKeepsPrefix(q, es[0]);
      }
      RunKeeps(q', es[1..]);
    }
  }

  lemma SafeIsPrefixed(q: Queue)
    requires Safe(q)
    ensures Prefixed(q)
  {
  }

  /** Over every run, the bytes on the wire are a prefix of the replies in the order they were
      enqueued; as long as the server runs, the event is armed exactly while something is
      queued; and with nothing queued every reply is out completely. */
  lemma {:induction false} WireFollowsReplies(es: seq<Event>)
    requires PossibleRun(EMPTY, es)
    ensures var q := HandleAll(EMPTY, es);
            && q.wire <= Concat(q.replies)
            && (q.running ==> (q.armed <==> q.bufs != []))
            && (q.running && q.bufs == [] ==> q.wire == Concat(q.replies))
  {
    hide Handle;
    RunKeeps(EMPTY, es);
    var q := HandleAll(EMPTY, es);
    if q.running && q.bufs == [] {
      assert q.wire + [] == q.wire;
    }
  }

  /** Bytes plus buffers still queued. */
  function Backlog(q: Queue): nat { |Pending(q.bufs)| + |q.bufs| }

  /** Every callback that gets a byte accepted, or finds an empty buffer, brings the queue closer
      to empty. */
  lemma ProgressShrinksBacklog(q: Queue, n: nat)
    requires Safe(q) && Possible(q, Writable(Wrote(n))) && (n > 0 || Remaining(q.bufs[0]) == [])
    ensures Backlog(Handle(q, Writable(Wrote(n)))) < Backlog(q)
  {
    hide Concat;
    var b := q.bufs[0];
    var b' := b.(offset := b.offset + n);
    if b.offset + n < |b.data| {
      assert ([b'] + q.bufs[1..])[1..] == q.bufs[1..];
    }
  }

  lemma EnqueueBacklog(q: Queue, data: seq<Byte>)
    ensures Backlog(Handle(q, Enqueue(data))) == Backlog(q) + |data| + 1
  {
    PendingSnoc(q.bufs, Buffer(data, 0));
  }

  // ---------------------------------------------------------------- rounds of callbacks

  /** What write(2) can report of the bytes it is offered. */
  function Clip(q: Queue, outcome: Outcome): Outcome {
    if outcome.Wrote? && q.bufs != [] then Wrote(Min(outcome.n, |Remaining(q.bufs[0])|)) else outcome
  }

  /** The write event comes up once per outcome, and calls back while it is armed. */
  function Callbacks(q: Queue, outcomes: seq<Outcome>): Queue {
    if outcomes == [] then q else
      var p := Callbacks(q, outcomes[..|outcomes| - 1]);
      if p.running && p.armed then Handle(p, Writable(Clip(p, outcomes[|outcomes| - 1]))) else p
  }

  predicate NoneBroken(outcomes: seq<Outcome>) { forall i :: 0 <= i < |outcomes| ==> !outcomes[i].Broken? }

  /** Outcomes in which the socket accepts something. */
  function Progress(outcomes: seq<Outcome>): nat {
    if outcomes == [] then 0 else
      var last := outcomes[|outcomes| - 1];
      Progress(outcomes[..|outcomes| - 1]) + if last.Wrote? && last.n > 0 then 1 else 0
  }

  function Less(a: nat, b: nat): nat { if a <= b then 0 else a - b }

  lemma CallbackStep(p: Queue, outcome: Outcome)
    requires Safe(p) && p.running && p.armed
    ensures var q := Handle(p, Writable(Clip(p, outcome)));
            && q.replies == p.replies && Prefixed(q)
            && (q.running <==> !outcome.Broken?)
            && (q.running ==> Safe(q))
            && (q.running ==> Backlog(q) <= Less(Backlog(p), if outcome.Wrote? && outcome.n > 0 then 1 else 0))
    ensures p.bufs != [] && (outcome.Wrote? ==>
              var r := Remaining(p.bufs[0]);
              Handle(p, Writable(Clip(p, outcome))).wire == p.wire + r[..Min(outcome.n, |r|)])
  {
    hide Safe, Concat, Pending, Handle, Backlog;
    var o := Clip(p, outcome);
    ArmedHasFront(p);
    if o.Wrote? {
      EventMoves(p, Writable(o));
      PendingFront(p.bufs);
      assert Pending(p.bufs)[..o.n] == Remaining(p.bufs[0])[..o.n];
    }
    HandleSafe(p, Writable(o));
    CallbackEffect(p, o);
    if o.Broken? {
      BrokenKeepsPrefix(p, Writable(o));
    } else {
      SafeIsPrefixed(Handle(p, Writable(o)));
    }
    if outcome.Wrote? && outcome.n > 0 { ProgressShrinksBacklog(p, o.n); }
  }

  lemma ArmedHasFront(p: Queue)
    requires Safe(p) && p.armed
    ensures p.bufs != []
  {
  }

  lemma CallbackEffect(p: Queue, o: Outcome)
    requires Safe(p) && Possible(p, Writable(o)) && p.bufs != []
    ensures var q := Handle(p, Writable(o));
            q.replies == p.replies && (q.running <==> !o.Broken?) && (q.running ==> Backlog(q) <= Backlog(p))
  {
    hide Concat;
    if o.Wrote? {
      var b := p.bufs[0];
      var b' := b.(offset := b.offset + o.n);
      assert ([b'] + p.bufs[1..])[1..] == p.bufs[1..];
    }
  }

  /** A round of callbacks keeps the wire a prefix of the replies, ends the process only at a broken
      socket, and shrinks the backlog with every outcome that accepts something until it is gone. */
  lemma {:induction false} CallbacksKeep(q: Queue, outcomes: seq<Outcome>)
    requires Safe(q) && q.running
    ensures var p := Callbacks(q, outcomes);
            && p.replies == q.replies && Prefixed(p)
            && (p.running ==> Safe(p) && Backlog(p) <= Less(Backlog(q), Progress(outcomes)))
            && (!p.running ==> !NoneBroken(outcomes))
    decreases |outcomes|
  {
    hide Safe, Concat, Pending, Handle, Backlog, Clip, Prefixed;
    if outcomes == [] {
      SafeIsPrefixed(q);
    } else {
      var n := |outcomes| - 1;
      var p := Callbacks(q, outcomes[..n]);
      CallbacksKeep(q, outcomes[..n]);
      if p.running {
        if p.armed { CallbackStep(p, outcomes[n]); } else { IdleIsEmpty(p); }
      } else {
        assert !NoneBroken(outcomes[..n]);
      }
    }
  }

  /** Rounds may be split anywhere: the outcomes are met in order, one at a time. */
  lemma {:induction false} CallbacksConcat(q: Queue, a: seq<Outcome>, b: seq<Outcome>)
    ensures Callbacks(q, a + b) == Callbacks(Callbacks(q, a), b)
    decreases |b|
  {
    hide Handle, Clip;
    if b == [] {
      assert a + b == a;
    } else {
      var n := |b| - 1;
      CallbacksConcat(q, a, b[..n]);
      assert (a + b)[..|a + b| - 1] == a + b[..n];
    }
  }

  lemma IdleIsEmpty(p: Queue)
    requires Safe(p) && !p.armed
    ensures Backlog(p) == 0
  {
  }
}
