/** An allocation request end to end: from the frame through the manager and the reply buffer to
    what the client decodes and what the server stripes (ocssd_conn.h, 279-344). */
module Service {
  import opened Bytes
  import opened VirtualSsd
  import opened Requests
  import opened Allocation
  import opened Ownership
  import opened Serializer
  import opened Physical
  import opened Manager
  import opened ReplySize
  import opened NodeReply
  import opened Striping
  import WriteQueue

  /** What the server queued for the client is a reply that decodes to `v`, to its last byte. */
  ghost predicate Replied(before: WriteQueue.Queue, after: WriteQueue.Queue, v: VSsd) {
    exists reply ::
      && after == WriteQueue.Handle(before, WriteQueue.Enqueue(reply))
      && ParseSsd(reply) == Parsed(v, |reply|) && |reply| == LenSsd(v)
  }

  lemma GrantedUnitIsMarked(u: VUnit)
    requires GrantedUnit(u)
    ensures Marked(u.channels)
  {
    forall i | 0 <= i < |u.channels| ensures u.channels[i].shared <= 1 {
      assert GrantedChannel(u.channels[i], u.geo);
    }
  }

  lemma BufferDecodes(v: VSsd, was: seq<Byte>, now: seq<Byte>)
    requires SsdOk(v) && LenSsd(v) <= |was| && now == Overwrite(was, 0, EncSsd(v, was[..LenSsd(v)]))
    ensures ParseSsd(now[..LenSsd(v)]) == Parsed(v, LenSsd(v))
  {
    hide SsdOk, ParseSsd, EncSsd;
    var bytes := EncSsd(v, was[..LenSsd(v)]);
    assert now[..LenSsd(v)] == bytes == bytes + [];
    SsdRoundTrip(v, was[..LenSsd(v)], []);
  }

  /** How an allocation request ends. The reply buffer has a fixed size and serialization does not
      test it: `Overrun` stands for a reply that does not fit, after which the code is undefined. */
  datatype AllocOutcome = NoResource | Queued | Overrun

  /** Serves an allocation request: one step of the run; a reply exactly when something was granted
      and fits; stripes of the first granted unit for a remote client. */
  method ServeAlloc(manager: OcssdManager, conn: WriteQueue.Connection, remote: RemoteBlocks,
                    fields: AllocRequest, test: nat -> bool) returns (outcome: AllocOutcome)
    requires manager.Valid() && conn !in manager.parts && remote !in manager.parts
    modifies manager, manager.parts, conn, remote
    ensures manager.Valid() && manager.parts == old(manager.parts)
    ensures var r := Alloc(old(manager.View()), fields);
            && manager.View() == r.0
            && (outcome == NoResource <==> r.1.units == [])
            && (outcome == Overrun <==> r.1.units != [] && LenSsd(r.1) > 1024)
            && (outcome == Queued ==> Replied(old(conn.View()), conn.View(), r.1))
            && (outcome != Queued ==> conn.View() == old(conn.View()))
            && (if r.1.units != [] && fields.remote != 0 then
                  var u := r.1.units[0];
                  var kept := Kept(StripesFrom(Extents(u.channels, u.geo.nblocks), 0), 0, test);
                  remote.blks == old(remote.blks) + kept && remote.numBlks == |kept|
                else remote.blks == old(remote.blks) && remote.numBlks == old(remote.numBlks))
    ensures NodeReplyBound(old(manager.View()).units) <= 1024 ==> outcome != Overrun
  {
    hide Alloc, SystemOk, LenSsd, GrantedUnit, Extents, StripesFrom, Kept, Replied, ChannelCount, NodeReplyBound;
    hide UnitsValid, Inside, Apart, UnitViews;
    ghost var s := manager.View();
    ghost var grant := Alloc(s, fields).1;
    ManagerIsOk(manager);
    GrantCounts(s, fields);
    NodeReplyWithin(s, fields);
    var request := new PendingRequest(fields);
    var vssd := new VirtualOcssd();
    var given := manager.AllocOcssdResource(vssd, request);
    assert vssd.Value() == grant;
    if given == 0 || |vssd.units| < 1 {
      return NoResource;
    }
    if request.fields.remote != 0 {
      FirstUnitMarked(s, fields);
      remote.InitializeVssdBlocks(vssd.units[0].channels, vssd.units[0].geo.nblocks, test);
    }
    if LenSsd(vssd.Value()) > VSSD_BUFFER_SIZE {
      return Overrun;
    }
    SendReply(vssd, conn) by { GrantIsWellFormed(s, fields); }
    outcome := Queued;
  }

  /** The handler of an allocation frame; dispatch has made sure that it decodes. */
  method ProcessAllocRequest(manager: OcssdManager, conn: WriteQueue.Connection, remote: RemoteBlocks,
                             frame: seq<Byte>, test: nat -> bool) returns (outcome: AllocOutcome)
    requires manager.Valid() && conn !in manager.parts && remote !in manager.parts
    requires |frame| >= FRAME_SIZE && Dispatch(Get4(frame, 0)) == AllocHandler
    modifies manager, manager.parts, conn, remote
    ensures manager.Valid() && manager.parts == old(manager.parts) && DecodeAlloc(frame).Accepted?
    ensures var fields := DecodeAlloc(frame).value; var r := Alloc(old(manager.View()), fields);
            && manager.View() == r.0
            && (outcome == NoResource <==> r.1.units == [])
            && (outcome == Overrun <==> r.1.units != [] && LenSsd(r.1) > 1024)
            && (outcome == Queued ==> Replied(old(conn.View()), conn.View(), r.1))
            && (outcome != Queued ==> conn.View() == old(conn.View()))
            && (if r.1.units != [] && fields.remote != 0 then
                  var u := r.1.units[0];
                  var kept := Kept(StripesFrom(Extents(u.channels, u.geo.nblocks), 0), 0, test);
                  remote.blks == old(remote.blks) + kept && remote.numBlks == |kept|
                else remote.blks == old(remote.blks) && remote.numBlks == old(remote.numBlks))
    ensures NodeReplyBound(old(manager.View()).units) <= 1024 ==> outcome != Overrun
  {
    hide Alloc, LenSsd, Replied, NodeReplyBound, Kept, StripesFrom, Extents, DecodeAlloc, Get4;
    DispatchAccepts(frame);
    outcome := ServeAlloc(manager, conn, remote, DecodeAlloc(frame).value, test);
  }

  /** Serializes a virtual SSD into a fresh reply buffer and queues the bytes written. */
  method SendReply(vssd: VirtualOcssd, conn: WriteQueue.Connection)
    requires SsdOk(vssd.Value()) && LenSsd(vssd.Value()) <= VSSD_BUFFER_SIZE
    modifies conn
    ensures Replied(old(conn.View()), conn.View(), vssd.Value())
  {
    hide LenSsd, SsdOk, ParseSsd, EncSsd;
    var buf := new Byte[VSSD_BUFFER_SIZE];
    ghost var was := buf[..];
    var len := vssd.Serialize(buf);
    BufferDecodes(vssd.Value(), was, buf[..]);
    conn.EnqueueReply(buf[..len]);
  }

  lemma ManagerIsOk(manager: OcssdManager)
    requires manager.Valid()
    ensures SystemOk(manager.View())
  {
    ValidUnitsAreOk(manager.units, manager.parts);
  }

  lemma FirstUnitMarked(s: System, req: AllocRequest)
    requires SystemOk(s) && Alloc(s, req).1.units != []
    ensures AllAligned(Alloc(s, req).1.units[0].channels)
  {
    GrantIsWellFormed(s, req);
    GrantedUnitIsMarked(Alloc(s, req).1.units[0]);
  }

  lemma GrantCounts(s: System, req: AllocRequest)
    requires SystemOk(s)
    ensures ChannelCount(Alloc(s, req).1.units) == 0 <==> Alloc(s, req).1.units == []
  {
    UnitsAllocGrants(s.units, req.channels, req);
  }

  /** The manager object driven through any sequence of operations does what the run on values
      does, so every theorem about runs holds of the objects. */
  method Replay(ops: seq<Op>) returns (manager: OcssdManager, grants: seq<VSsd>)
    requires OpsOk(ops)
    ensures manager.Valid() && fresh(manager) && fresh(manager.parts)
    ensures (manager.View(), grants) == Run(START, ops)
  {
    hide Alloc, Step, UnitsValid, Inside, Apart, UnitViews, Run;
    manager := new OcssdManager();
    grants := [];
    ghost var goal := Run(START, ops);
    assert ops[0..] == ops && grants + goal.1 == goal.1;
    for i := 0 to |ops|
      invariant manager.Valid() && fresh(manager) && fresh(manager.parts)
      invariant goal == (Run(manager.View(), ops[i..]).0, grants + Run(manager.View(), ops[i..]).1)
    {
      ghost var s := manager.View();
      assert ops[i..][0] == ops[i] && ops[i..][1..] == ops[i + 1..];
      RunStep(s, ops[i..], grants);
      match ops[i] {
        case Add(name, geo) =>
          manager.AddOcssd(name, geo);
          assert Step(s, ops[i]) == (manager.View(), []) by { AddGrantsNothing(s, ops[i]); }
          assert grants + [] == grants;
        case Request(fields) =>
          var request := new PendingRequest(fields);
          var vssd := new VirtualOcssd();
          var channels := manager.AllocOcssdResource(vssd, request);
          assert Step(s, ops[i]) == (manager.View(), [vssd.Value()]) by { RequestIsAlloc(s, ops[i]); }
          grants := grants + [vssd.Value()];
      }
    }
    assert ops[|ops|..] == [];
    NoMoreSteps(manager.View(), grants);
  }

  lemma AddGrantsNothing(s: System, op: Op)
    requires op.Add?
    ensures Step(s, op).1 == []
  {
  }

  lemma RequestIsAlloc(s: System, op: Op)
    requires op.Request?
    ensures Step(s, op) == (Alloc(s, op.request).0, [Alloc(s, op.request).1])
  {
  }

  lemma {:induction false} RunStep(s: System, ops: seq<Op>, grants: seq<VSsd>)
    requires ops != []
    ensures var first := Step(s, ops[0]); var rest := Run(first.0, ops[1..]);
            Run(s, ops).0 == rest.0 && grants + Run(s, ops).1 == grants + first.1 + rest.1
  {
    hide Step;
    var first := Step(s, ops[0]);
    var rest := Run(first.0, ops[1..]);
    assert grants + (first.1 + rest.1) == grants + first.1 + rest.1;
  }

  lemma {:induction false} NoMoreSteps(s: System, grants: seq<VSsd>)
    ensures Run(s, []) == (s, []) && grants + Run(s, []).1 == grants
  {
  }

  // ---------------------------------------------------------------- end to end, on values

  /** For every reachable state and every request: whatever the padding and whatever follows, the
      client decodes a virtual SSD that describes exactly the blocks just taken. */
  lemma {:induction false} ClientLearnsWhatWasTaken(ops: seq<Op>, req: AllocRequest, under: seq<Byte>,
                                                    trailing: seq<Byte>, b: Block)
    requires OpsOk(ops) && |under| == LenSsd(Alloc(Run(START, ops).0, req).1)
    ensures var s := Run(START, ops).0; var r := Alloc(s, req);
            var decoded := ParseSsd(EncSsd(r.1, under) + trailing);
            && decoded.Parsed? && decoded.next == |under|
            && GoneUnits(r.0.units, b) == GoneUnits(s.units, b) + TimesUnits(decoded.value.units, b)
  {
    hide Run, UnitsAlloc, ParseSsd, EncSsd, UnitStateOk, LenSsd, SsdOk;
    RunMoves(START, ops, b);
    var s := Run(START, ops).0;
    GrantIsWellFormed(s, req);
    SsdRoundTrip(Alloc(s, req).1, under, trailing);
    UnitsAllocMoves(s.units, req.channels, req, b);
  }

  /** The stripes built for any granted unit are pairwise disjoint and none repeats a block. */
  lemma {:induction false} StripesAreDisjoint(s: System, req: AllocRequest, k: nat, a: Addr)
    requires SystemOk(s) && k < |Alloc(s, req).1.units|
    ensures var u := Alloc(s, req).1.units[k];
            CountAll(StripesFrom(Extents(u.channels, u.geo.nblocks), 0), a) <= 1
  {
    hide UnitsAlloc, UnitStateOk, GrantedUnit, Extents, StripesFrom, CountAll, TimesChannels;
    var u, b := Alloc(s, req).1.units[k], Block([], a.channel, a.lun, a.block);
    GrantIsWellFormed(s, req);
    GrantedUnitIsMarked(u);
    StripesPartitionGrant(u.channels, u.geo.nblocks, b);
    EachUnitGrantsOnce(s.units, req.channels, req, k, b);
  }

  /** For a grant from one device, the stripes built for a remote client contain every block of
      that device exactly as often as the request took it. */
  lemma {:induction false} StripesHoldWhatWasTaken(s: System, req: AllocRequest, b: Block)
    requires SystemOk(s) && |Alloc(s, req).1.units| == 1 && Alloc(s, req).1.units[0].name == b.device
    ensures var r := Alloc(s, req); var u := r.1.units[0];
            GoneUnits(r.0.units, b) == GoneUnits(s.units, b)
              + CountAll(StripesFrom(Extents(u.channels, u.geo.nblocks), 0), Addr(b.channel, b.lun, b.block))
  {
    hide UnitsAlloc, UnitStateOk, GrantedUnit, Extents, StripesFrom, CountAll, TimesChannels;
    GrantIsWellFormed(s, req);
    UnitsAllocMoves(s.units, req.channels, req, b);
    var us := Alloc(s, req).1.units;
    GrantedUnitIsMarked(us[0]);
    StripesPartitionGrant(us[0].channels, us[0].geo.nblocks, b);
    assert us[1..] == [];
  }
}
