/** A whole session: the bytes a client sends, in any chunks, become requests served in order, and
    the bytes the server gets onto the wire, in any pieces, decode to the answers. */
module Session {
  import opened Bytes
  import opened VirtualSsd
  import opened Allocation
  import opened Ownership
  import opened Manager
  import opened ReplySize
  import opened NodeReply
  import opened DeviceNames
  import opened Striping
  import opened Framing
  import opened Service
  import opened ClientStream
  import opened Requests
  import WriteQueue

  /** What the environment decides: which attempts at a vblk pass their test and what a read finds,
      by the position of the message in the session. */
  datatype World = World(test: nat -> nat -> bool, content: nat -> nat -> Byte)

  // ---------------------------------------------------------------- what the messages come to

  /** The node, the number of vblks of the connection, and the answers so far. */
  datatype Progressed = Progressed(node: System, vblks: nat, answers: seq<Answer>)

  /** The stripes kept for a remote client when its request, message number `k`, is granted `v`. */
  function StripesFor(req: AllocRequest, v: VSsd, k: nat, world: World): seq<seq<Addr>> {
    if v.units == [] || req.remote == 0 then [] else
      Kept(StripesFrom(Extents(v.units[0].channels, v.units[0].geo.nblocks), 0), 0, world.test(k))
  }

  /** A read is answered with exactly the bytes it asked for. */
  function ReadData(count: nat, k: nat, world: World): (r: seq<Byte>)
    ensures |r| == count
  {
    seq(count, j requires 0 <= j => ReadByte(k, j, world))
  }

  function ReadByte(k: nat, j: nat, world: World): Byte { world.content(k)(j) }

  function ServeOne(p: Progressed, m: Message, k: nat, world: World): Progressed {
    match m
    case AllocMsg(req) =>
      var r := Alloc(p.node, req);
      var answer := if r.1.units != [] then [Ssd(r.1)] else [];
      Progressed(r.0, p.vblks + |StripesFor(req, r.1, k, world)|, p.answers + answer)
    case ReadMsg(io) => p.(answers := p.answers + [Data(ReadData(io.count, k, world))])
    case _ => p
  }

  /** Handling the messages in order on a node in state `s`. */
  function Served(s: System, ms: seq<Message>, world: World): Progressed {
    if ms == [] then Progressed(s, 0, []) else
      ServeOne(Served(s, ms[..|ms| - 1], world), ms[|ms| - 1], |ms| - 1, world)
  }

  /** The vblk count that decides which write frames carry a payload: the one the session itself
      produces. */
  function CountIn(s: System, world: World): BlockCount { (ms: seq<Message>) => Served(s, ms, world).vblks }

  lemma {:induction false} ServedSnoc(s: System, ms: seq<Message>, k: nat, world: World)
    requires k < |ms|
    ensures Served(s, ms[..k + 1], world) == ServeOne(Served(s, ms[..k], world), ms[k], k, world)
  {
    hide ServeOne;
    assert ms[..k + 1][..k] == ms[..k];
  }

  lemma {:induction false} AnswersGrow(s: System, a: seq<Message>, b: seq<Message>, world: World)
    ensures Served(s, a, world).answers <= Served(s, a + b, world).answers
    decreases |b|
  {
    hide Alloc;
    if b == [] {
      assert a + b == a;
    } else {
      var n := |b| - 1;
      AnswersGrow(s, a, b[..n], world);
      assert (a + b)[..|a + b| - 1] == a + b[..n];
    }
  }

  // ---------------------------------------------------------------- relation to runs

  /** The allocation requests among the messages. */
  function AllocOps(ms: seq<Message>): (ops: seq<Op>)
    ensures OnlyRequests(ops)
  {
    if ms == [] then [] else
      var m := ms[|ms| - 1];
      AllocOps(ms[..|ms| - 1]) + if m.AllocMsg? then [Request(m.alloc)] else []
  }

  function Granting(gs: seq<VSsd>): seq<VSsd> {
    if gs == [] then [] else Granting(gs[..|gs| - 1]) + if gs[|gs| - 1].units != [] then [gs[|gs| - 1]] else []
  }

  function SsdsAmong(answers: seq<Answer>): seq<VSsd> {
    if answers == [] then [] else
      var a := answers[|answers| - 1];
      SsdsAmong(answers[..|answers| - 1]) + if a.Ssd? then [a.value] else []
  }

  lemma {:induction false} RunSnoc(s: System, ops: seq<Op>, op: Op)
    ensures var r := Run(s, ops); var q := Step(r.0, op); Run(s, ops + [op]) == (q.0, r.1 + q.1)
    decreases |ops|
  {
    hide Step;
    if ops == [] {
      assert ops + [op] == [op] && [op][1..] == [];
      var q := Step(s, op);
      assert Run(q.0, []) == (q.0, []);
      assert q.1 + [] == q.1 == [] + q.1;
    } else {
      var first := Step(s, ops[0]);
      assert (ops + [op])[0] == ops[0] && (ops + [op])[1..] == ops[1..] + [op];
      RunSnoc(first.0, ops[1..], op);
      var r := Run(first.0, ops[1..]);
      var q := Step(r.0, op);
      assert first.1 + (r.1 + q.1) == first.1 + r.1 + q.1;
    }
  }

  /** The node goes through the run of the allocation requests, and the virtual SSDs among the
      answers are the non-empty grants of that run, in order. */
  lemma {:induction false} ServedIsRun(s: System, ms: seq<Message>, world: World)
    ensures var p := Served(s, ms, world); var r := Run(s, AllocOps(ms));
            p.node == r.0 && SsdsAmong(p.answers) == Granting(r.1)
    decreases |ms|
  {
    hide ServeOne, Run, SsdsAmong, Granting;
    if ms == [] {
      RunOfNone(s);
    } else {
      var n := |ms| - 1;
      ServedIsRun(s, ms[..n], world);
      OneMessageIsStep(s, AllocOps(ms[..n]), Served(s, ms[..n], world), ms[n], n, world);
    }
  }

  lemma {:induction false} OneMessageIsStep(s: System, ops: seq<Op>, p: Progressed, m: Message, k: nat, world: World)
    requires p.node == Run(s, ops).0 && SsdsAmong(p.answers) == Granting(Run(s, ops).1)
    ensures var q := ServeOne(p, m, k, world);
            var r := Run(s, ops + if m.AllocMsg? then [Request(m.alloc)] else []);
            q.node == r.0 && SsdsAmong(q.answers) == Granting(r.1)
  {
    hide Alloc, Run, StripesFor, ReadData;
    if m.AllocMsg? {
      RunSnoc(s, ops, Request(m.alloc));
      var gs, g := Run(s, ops).1, Alloc(p.node, m.alloc).1;
      assert (gs + [g])[..|gs|] == gs;
      SsdsSnoc(p.answers, Ssd(g));
      assert p.answers + [] == p.answers && Granting(gs) + [] == Granting(gs);
    } else {
      assert ops + [] == ops;
      if m.ReadMsg? { SsdsSnoc(p.answers, Data(ReadData(m.io.count, k, world))); }
    }
  }

  lemma {:induction false} RunOfNone(s: System)
    ensures Run(s, []) == (s, []) && Granting([]) == [] && SsdsAmong([]) == []
  {
  }

  lemma {:induction false} SsdsSnoc(answers: seq<Answer>, a: Answer)
    ensures SsdsAmong(answers + [a]) == SsdsAmong(answers) + if a.Ssd? then [a.value] else []
  {
    assert (answers + [a])[..|answers|] == answers;
  }

  // ---------------------------------------------------------------- what each message is answered

  /** The places of the read messages, in order. */
  function ReadPlaces(ms: seq<Message>): (ps: seq<nat>)
    ensures forall i :: 0 <= i < |ps| ==> ps[i] < |ms| && ms[ps[i]].ReadMsg?
    ensures forall i, j :: 0 <= i < j < |ps| ==> ps[i] < ps[j]
    ensures forall k :: 0 <= k < |ms| && ms[k].ReadMsg? ==> k in ps
  {
    if ms == [] then [] else
      var n := |ms| - 1;
      ReadPlaces(ms[..n]) + if ms[n].ReadMsg? then [n] else []
  }

  /** The data among the answers, in order. */
  function DataAmong(answers: seq<Answer>): seq<seq<Byte>> {
    if answers == [] then [] else
      var a := answers[|answers| - 1];
      DataAmong(answers[..|answers| - 1]) + if a.Data? then [a.bytes] else []
  }

  lemma {:induction false} DataSnoc(answers: seq<Answer>, a: Answer)
    ensures DataAmong(answers + [a]) == DataAmong(answers) + if a.Data? then [a.bytes] else []
  {
    assert (answers + [a])[..|answers|] == answers;
  }

  /** `data` is what a read of `count` bytes that is message `k` finds. */
  ghost predicate ReadFrom(data: seq<Byte>, count: nat, k: nat, world: World) {
    |data| == count && forall j :: 0 <= j < count ==> data[j] == world.content(k)(j)
  }

  /** Every read of an existing vblk is answered, in order, with as many bytes as it asked for and
      with the bytes it found; nothing else is answered with data. */
  lemma {:induction false} ReadsAreAnswered(s: System, ms: seq<Message>, world: World)
    ensures var data, ps := DataAmong(Served(s, ms, world).answers), ReadPlaces(ms);
            && |data| == |ps|
            && forall i :: 0 <= i < |data| ==> ReadFrom(data[i], ms[ps[i]].io.count, ps[i], world)
    decreases |ms|
  {
    hide ServeOne, ReadFrom, DataAmong;
    if ms == [] {
      NoData();
    } else {
      var n := |ms| - 1;
      var p := Served(s, ms[..n], world);
      ReadsAreAnswered(s, ms[..n], world);
      OneMessageIsAnswered(p, ms[n], n, world);
      var ps := ReadPlaces(ms[..n]);
      forall i | 0 <= i < |ps| ensures ms[ps[i]] == ms[..n][ps[i]] {}
    }
  }

  lemma NoData()
    ensures DataAmong([]) == []
  {
  }

  lemma {:induction false} OneMessageIsAnswered(p: Progressed, m: Message, k: nat, world: World)
    ensures var data, after := DataAmong(p.answers), DataAmong(ServeOne(p, m, k, world).answers);
            if m.ReadMsg? then |after| == |data| + 1 && after[..|data|] == data
                               && ReadFrom(after[|data|], m.io.count, k, world)
            else after == data
  {
    hide Alloc, DataAmong;
    match m
    case AllocMsg(req) =>
      DataSnoc(p.answers, Ssd(Alloc(p.node, req).1));
      assert p.answers + [] == p.answers && DataAmong(p.answers) + [] == DataAmong(p.answers);
    case ReadMsg(io) => DataSnoc(p.answers, Data(ReadData(io.count, k, world)));
    case _ =>
  }

  /** Message by message: an allocation request takes the node one request step on and, if anything
      is granted, is answered with the grant and, if it is remote, gets the vblks that pass their
      test; a read is answered with its data; nothing else changes or is answered. The answers
      stand in the order of the messages. */
  lemma {:induction false} MessageIsAnswered(s: System, ms: seq<Message>, k: nat, world: World)
    requires k < |ms|
    ensures var before, after := Served(s, ms[..k], world), Served(s, ms[..k + 1], world);
            && after.answers <= Served(s, ms, world).answers
            && match ms[k]
               case AllocMsg(req) =>
                 var r := Alloc(Run(s, AllocOps(ms[..k])).0, req);
                 && after.node == r.0
                 && after.answers == before.answers + (if r.1.units == [] then [] else [Ssd(r.1)])
                 && after.vblks == before.vblks + (
                      if r.1.units == [] || req.remote == 0 then 0 else
                        var u := r.1.units[0];
                        Passing(0, Longest(Extents(u.channels, u.geo.nblocks)), world.test(k)))
               case ReadMsg(io) =>
                 && after.node == before.node && after.vblks == before.vblks
                 && |after.answers| == |before.answers| + 1 && after.answers[..|before.answers|] == before.answers
                 && var answer := after.answers[|before.answers|];
                    answer.Data? && ReadFrom(answer.bytes, io.count, k, world)
               case _ => after == before
  {
    hide Alloc, Served, Run, AllocOps, Kept, StripesFrom, Extents, Longest, Passing;
    ServedSnoc(s, ms, k, world);
    ServedIsRun(s, ms[..k], world);
    assert ms == ms[..k + 1] + ms[k + 1..];
    AnswersGrow(s, ms[..k + 1], ms[k + 1..], world);
    if ms[k].AllocMsg? {
      var v := Alloc(Served(s, ms[..k], world).node, ms[k].alloc).1;
      if v.units != [] {
        var es := Extents(v.units[0].channels, v.units[0].geo.nblocks);
        StripesInOrder(es, 0);
        KeptAreThosePassing(StripesFrom(es, 0), 0, world.test(k));
      }
    }
  }

  // ---------------------------------------------------------------- how much is left to write

  /** The most a message can add to the backlog: a full reply buffer, or the bytes of a read. */
  function Cost(m: Message): nat {
    match m
    case AllocMsg(_) => VSSD_BUFFER_SIZE + 1
    case ReadMsg(io) => io.count + 1
    case _ => 0
  }

  /** A bound on the backlog after the messages, each followed by a round of write callbacks. */
  function Lag(ms: seq<Message>, writes: nat -> seq<WriteQueue.Outcome>): nat {
    if ms == [] then 0 else
      var n := |ms| - 1;
      WriteQueue.Less(Lag(ms[..n], writes) + Cost(ms[n]), WriteQueue.Progress(writes(n)))
  }

  predicate NeverBroken(writes: nat -> seq<WriteQueue.Outcome>, n: nat) {
    forall k :: 0 <= k < n ==> WriteQueue.NoneBroken(writes(k))
  }

  /** If the socket accepts 1025 times after each allocation request, and once more than it asked for
      bytes after each read, nothing lags. */
  lemma {:induction false} PromptWritesDoNotLag(ms: seq<Message>, writes: nat -> seq<WriteQueue.Outcome>)
    requires forall k :: 0 <= k < |ms| && ms[k].AllocMsg? ==> WriteQueue.Progress(writes(k)) >= 1025
    requires forall k :: 0 <= k < |ms| && ms[k].ReadMsg? ==> WriteQueue.Progress(writes(k)) > ms[k].io.count
    ensures Lag(ms, writes) == 0
  {
    if ms != [] { PromptWritesDoNotLag(ms[..|ms| - 1], writes); }
  }

  // ---------------------------------------------------------------- serving

  /** One round of write callbacks. */
  method WriteCallbacks(conn: WriteQueue.Connection, outcomes: seq<WriteQueue.Outcome>) returns (stopped: bool)
    requires conn.View().running && WriteQueue.Safe(conn.View())
    modifies conn
    ensures conn.View() == WriteQueue.Callbacks(old(conn.View()), outcomes)
    ensures stopped <==> !conn.View().running
  {
    hide WriteQueue.Safe, WriteQueue.Handle;
    ghost var q := conn.View();
    stopped := false;
    assert outcomes[..0] == [];
    for i := 0 to |outcomes|
      invariant conn.View() == WriteQueue.Callbacks(q, outcomes[..i]) && (stopped <==> !conn.View().running)
    {
      assert outcomes[..i + 1][..i] == outcomes[..i] && outcomes[..i + 1][i] == outcomes[i];
      WriteQueue.CallbacksKeep(q, outcomes[..i]);
      if !stopped && conn.armed {
        WriteQueue.ArmedHasFront(conn.View());
        WriteQueue.CallbackStep(conn.View(), outcomes[i]);
        var outcome := outcomes[i];
        if outcome.Wrote? {
          outcome := WriteQueue.Wrote(Min(outcome.n, |WriteQueue.Remaining(conn.writeq[0])|));
        }
        assert outcome == WriteQueue.Clip(conn.View(), outcomes[i]);
        conn.OnWrite(outcome);
        stopped := outcome.Broken?;
      }
    }
    assert outcomes[..|outcomes|] == outcomes;
  }

  /** A reply has been queued. */
  lemma QueuedAnswer(before: WriteQueue.Queue, after: WriteQueue.Queue, reply: seq<Byte>,
                     answers: seq<Answer>, a: Answer)
    requires after == WriteQueue.Handle(before, WriteQueue.Enqueue(reply))
    requires WriteQueue.Safe(before) && Answers(before.replies, answers) && Carries(reply, a)
    ensures WriteQueue.Safe(after) && Answers(after.replies, answers + [a]) && after.running == before.running
    ensures WriteQueue.Backlog(after) == WriteQueue.Backlog(before) + |reply| + 1
  {
    hide ParseSsd, WriteQueue.Safe, WriteQueue.Backlog, Carries;
    WriteQueue.HandleEnqueue(before, reply);
    WriteQueue.EnqueueBacklog(before, reply);
  }

  lemma QueuedGrant(before: WriteQueue.Queue, after: WriteQueue.Queue, answers: seq<Answer>, v: VSsd)
    requires Replied(before, after, v) && WriteQueue.Safe(before) && Answers(before.replies, answers)
    ensures WriteQueue.Safe(after) && Answers(after.replies, answers + [Ssd(v)]) && after.running == before.running
    ensures WriteQueue.Backlog(after) == WriteQueue.Backlog(before) + LenSsd(v) + 1
  {
    hide ParseSsd, WriteQueue.Safe, WriteQueue.Backlog, WriteQueue.Handle, Answers, LenSsd;
    var reply :| && after == WriteQueue.Handle(before, WriteQueue.Enqueue(reply))
                 && ParseSsd(reply) == Parsed(v, |reply|) && |reply| == LenSsd(v);
    QueuedAnswer(before, after, reply, answers, Ssd(v));
  }

  lemma {:induction false} BoundStays(s: System, ms: seq<Message>, world: World)
    requires SystemOk(s)
    ensures NodeReplyBound(Served(s, ms, world).node.units) == NodeReplyBound(s.units)
  {
    hide Run, AllocOps, Served, UnitStateOk;
    ServedIsRun(s, ms, world);
    RequestsKeepDevices(s, AllocOps(ms));
    SameSizes(s.units, Run(s, AllocOps(ms)).0.units);
  }

  /** Message `k` has been handled: the reply, if any, is queued and the stripes, if any, are kept. */
  method ServeMessage(manager: OcssdManager, conn: WriteQueue.Connection, remote: RemoteBlocks, m: Message, k: nat,
                      world: World, ghost p: Progressed)
    requires manager.Valid() && conn !in manager.parts && remote !in manager.parts
    requires manager.View() == p.node && |remote.blks| == p.vblks && Answers(conn.View().replies, p.answers)
    requires WriteQueue.Safe(conn.View()) && conn.View().running
    requires NodeReplyBound(p.node.units) <= VSSD_BUFFER_SIZE
    requires UsesBlock(m) ==> m.io.blockIndex < p.vblks
    modifies manager, manager.parts, conn, remote
    ensures manager.Valid() && manager.parts == old(manager.parts)
    ensures var q := ServeOne(p, m, k, world);
            && manager.View() == q.node && |remote.blks| == q.vblks && Answers(conn.View().replies, q.answers)
    ensures WriteQueue.Safe(conn.View()) && conn.View().running
    ensures WriteQueue.Backlog(conn.View()) <= old(WriteQueue.Backlog(conn.View())) + Cost(m)
  {
    hide Alloc, Replied, NodeReplyBound, LenSsd, Kept, StripesFrom, Extents, ReadData, Answers;
    hide WriteQueue.Safe, WriteQueue.Backlog, WriteQueue.Handle, UnitsValid, Inside, Apart, UnitViews;
    ghost var before := conn.View();
    match m {
      case AllocMsg(fields) =>
        var outcome := ServeAlloc(manager, conn, remote, fields, world.test(k));
        ghost var v := Alloc(p.node, fields).1;
        if outcome == Queued {
          QueuedGrant(before, conn.View(), p.answers, v);
        } else {
          assert p.answers + [] == p.answers;
        }
      case ReadMsg(io) =>
        var blk := remote.blks[io.blockIndex];
        var data := ReadData(io.count, k, world);
        conn.EnqueueReply(data);
        QueuedAnswer(before, conn.View(), data, p.answers, Data(data));
      case WriteMsg(io, _) =>
        var blk := remote.blks[io.blockIndex];
      case EraseMsg(io) =>
        var blk := remote.blks[io.blockIndex];
      case _ =>
    }
  }

  /** Handles the messages in order, each followed by a round of write callbacks. The process ends
      early only at a broken socket; otherwise no more is left to write than `Lag` says. */
  method ServeMessages(manager: OcssdManager, conn: WriteQueue.Connection, remote: RemoteBlocks, ms: seq<Message>,
                       writes: nat -> seq<WriteQueue.Outcome>, world: World) returns (served: nat, stopped: bool)
    requires manager.Valid() && conn !in manager.parts && remote !in manager.parts
    requires conn.View() == WriteQueue.EMPTY && remote.blks == []
    requires NodeReplyBound(manager.View().units) <= VSSD_BUFFER_SIZE
    requires Indexed(ms, CountIn(manager.View(), world))
    modifies manager, manager.parts, conn, remote
    ensures served <= |ms| && manager.Valid()
    ensures var p := Served(old(manager.View()), ms[..served], world);
            && manager.View() == p.node && |remote.blks| == p.vblks && Answers(conn.View().replies, p.answers)
    ensures WriteQueue.Prefixed(conn.View())
    ensures stopped ==> 0 < served && !WriteQueue.NoneBroken(writes(served - 1))
    ensures !stopped ==> served == |ms| && WriteQueue.Safe(conn.View())
    ensures !stopped ==> WriteQueue.Backlog(conn.View()) <= Lag(ms, writes)
  {
    hide Served, ServeOne, Answers, NodeReplyBound, Cost, UnitsValid, Inside, Apart, UnitViews;
    hide WriteQueue.Safe, WriteQueue.Prefixed, WriteQueue.Backlog, WriteQueue.NoneBroken, WriteQueue.Callbacks;
    ghost var s := manager.View();
    ManagerIsOk(manager);
    served, stopped := 0, false;
    NothingYet(s, world);
    assert ms[..0] == [];
    while served < |ms|
      invariant 0 <= served <= |ms| && !stopped && conn.View().running
      invariant manager.Valid() && manager.parts == old(manager.parts)
      invariant manager.View() == Served(s, ms[..served], world).node
      invariant |remote.blks| == Served(s, ms[..served], world).vblks
      invariant Answers(conn.View().replies, Served(s, ms[..served], world).answers)
      invariant WriteQueue.Prefixed(conn.View()) && WriteQueue.Safe(conn.View())
      invariant WriteQueue.Backlog(conn.View()) <= Lag(ms[..served], writes)
    {
      ghost var p := Served(s, ms[..served], world);
      BoundStays(s, ms[..served], world);
      ServedSnoc(s, ms, served, world);
      ServeMessage(manager, conn, remote, ms[served], served, world, p);
      ghost var q := conn.View();
      stopped := WriteCallbacks(conn, writes(served));
      WriteQueue.CallbacksKeep(q, writes(served));
      assert ms[..served + 1][..served] == ms[..served];
      served := served + 1;
      if stopped {
        return;
      }
    }
    assert ms[..served] == ms;
  }

  lemma {:induction false} NothingYet(s: System, world: World)
    ensures Served(s, [], world) == Progressed(s, 0, []) && Answers([], [])
    ensures WriteQueue.Safe(WriteQueue.EMPTY) && WriteQueue.Prefixed(WriteQueue.EMPTY)
    ensures WriteQueue.Backlog(WriteQueue.EMPTY) == 0
  {
  }

  // ---------------------------------------------------------------- the session theorem

  lemma DrainedIsComplete(q: WriteQueue.Queue)
    requires WriteQueue.Safe(q) && q.bufs == []
    ensures q.wire == WriteQueue.Concat(q.replies)
  {
    assert q.wire + [] == q.wire;
  }

  lemma NoBacklogIsDrained(q: WriteQueue.Queue)
    requires WriteQueue.Backlog(q) == 0
    ensures q.bufs == []
  {
  }

  /** What the client has decoded, given the answers sent, the bytes out, and all answers due. */
  lemma ClientView(q: WriteQueue.Queue, sent: seq<Answer>, due: seq<Answer>)
    requires Answers(q.replies, sent) && WriteQueue.Prefixed(q) && sent <= due
    ensures DecodeStream(q.wire, Kinds(due)) <= due
    ensures q.wire == WriteQueue.Concat(q.replies) ==> DecodeStream(q.wire, Kinds(sent)) == sent
  {
    hide DecodeStream, Answers, WriteQueue.Concat;
    var all := WriteQueue.Concat(q.replies);
    var unsent := all[|q.wire|..];
    assert all == q.wire + unsent;
    var more := due[|sent|..];
    assert due == sent + more;
    RepliesDecode(q.replies, sent, more);
    PrefixDecodesPrefix(q.wire, unsent, Kinds(due));
    RepliesDecode(q.replies, sent, []);
    assert sent + [] == sent;
    NothingDue();
  }

  lemma NothingDue()
    ensures DecodeStream([], Kinds([])) == []
  {
  }

  /** A session on a node brought up by `ops`. The client sends `input`; chunk sizes, partial writes
      and failures are arbitrary. What the client decodes from the wire is always a prefix of the
      answers due to its input. With reads that succeed, a socket that does not break, and writes
      that do not lag, all of which can be told from the arguments, it is all of them. */
  method Serve(ops: seq<Op>, input: seq<Byte>, schedule: seq<int>, writes: nat -> seq<WriteQueue.Outcome>, world: World)
    returns (log: seq<Message>, left: seq<Byte>, wire: seq<Byte>, drained: bool)
    requires OpsOk(ops) && NodeReplyBound(Run(START, ops).0.units) <= 1024
    ensures var s := Run(START, ops).0;
            var ms := Parse(input, [], CountIn(s, world)).0;
            var sent, due := Served(s, log, world).answers, Served(s, ms, world).answers;
            && log <= ms && (left == [] ==> log == ms)
            && (left == [] || |left| + Lead(schedule) <= |input|)
            && DecodeStream(wire, Kinds(due)) <= due
            && (drained ==> DecodeStream(wire, Kinds(sent)) == sent)
            && (NeverBroken(writes, |log|) && Lag(log, writes) == 0 ==> drained)
            && ((forall i :: 0 <= i < |schedule| ==> schedule[i] > 0) && |input| <= |schedule|
                && NeverBroken(writes, |ms|) && Lag(ms, writes) == 0 ==>
                  DecodeStream(wire, Kinds(due)) == due)
  {
    hide Run, Parse, Served, DecodeStream, Answers, NodeReplyBound, Lead, Lag, Indexed;
    hide WriteQueue.Safe, WriteQueue.Prefixed, WriteQueue.Backlog, WriteQueue.NoneBroken, WriteQueue.Concat;
    var s := Run(START, ops).0;
    var manager, grants := Replay(ops);
    log, left := ServeInput(CountIn(s, world), input, schedule);
    LogIsIndexed(log, left, input, CountIn(s, world));
    var conn := new WriteQueue.Connection();
    var remote := new RemoteBlocks();
    var served, stopped := ServeMessages(manager, conn, remote, log, writes, world);
    wire, drained := conn.wire, !stopped && conn.writeq == [];
    ghost var ms := Parse(input, [], CountIn(s, world)).0;
    assert ms == log[..served] + ms[served..];
    AnswersGrow(s, log[..served], ms[served..], world);
    ClientView(conn.View(), Served(s, log[..served], world).answers, Served(s, ms, world).answers);
    if !stopped {
      assert log[..served] == log;
      if conn.writeq == [] { DrainedIsComplete(conn.View()); }
      if Lag(log, writes) == 0 { NoBacklogIsDrained(conn.View()); }
    }
  }

  lemma LogIsIndexed(log: seq<Message>, left: seq<Byte>, input: seq<Byte>, blocks: BlockCount)
    requires exists received :: received + left == input && log == Parse(received, [], blocks).0
    ensures Indexed(log, blocks)
  {
    hide Parse;
    var received :| received + left == input && log == Parse(received, [], blocks).0;
    ParseIsIndexed(received, [], blocks);
  }
}
