/** That no block is granted twice rests on the devices having distinct names, and on nothing
    else: adding one device under two entries lets some request sequence grant a block twice. */
module DeviceNames {
  import opened Bytes
  import opened Requests
  import opened Allocation
  import opened Ownership
  import opened Accounting

  predicate FreshNode(us: seq<UnitState>) {
    forall i :: 0 <= i < |us| ==> UnitStateOk(us[i]) && us[i] == FreshUnit(us[i].name, us[i].geo)
  }

  /** A request that takes from one open shared channel, wherever it is. */
  const GREEDY := AllocRequest(1, 0xFFFF_FFFF, 1, 0, 0)

  function TotalFree(us: seq<UnitState>): nat {
    if us == [] then 0 else FreeUnit(us[0]) + TotalFree(us[1..])
  }

  predicate SharedFull(us: seq<UnitState>) { forall i :: 0 <= i < |us| ==> OpenChans(us[i].shared) == 0 }

  lemma {:induction false} TotalFreeConserved(us: seq<UnitState>, want: nat, req: AllocRequest)
    requires forall i :: 0 <= i < |us| ==> UnitStateOk(us[i])
    ensures var r := UnitsAlloc(us, want, req); TotalFree(r.0) + BlocksOf(r.1) == TotalFree(us)
  {
    hide UnitStateOk, UnitAlloc, FreeUnit, TotalBlocks;
    if us != [] && want > 0 {
      var first := UnitAlloc(us[0], want, req);
      var rest := UnitsAlloc(us[1..], want - |first.1|, req);
      UnitAllocConserves(us[0], want, req, []);
      TotalFreeConserved(us[1..], want - |first.1|, req);
      var g := AsUnit(us[0], first.1) + rest.1;
      if first.1 == [] {
        NoBlocks();
        assert g == rest.1;
      } else {
        assert g[1..] == rest.1;
      }
    }
  }

  lemma GrantHasBlocks(u: UnitState)
    requires UnitStateOk(u) && OpenChans(u.shared) > 0
    ensures var g := UnitAlloc(u, 1, GREEDY).1; |g| == 1 && TotalBlocks(g) > 0
  {
    hide UnitAlloc, OpenChans;
    assert GREEDY.blocks / 1 == GREEDY.blocks;
    OpenNeedsLuns(u);
    SharedRequestIsGreedy(u, 1, GREEDY);
    UnitAllocGrants(u, 1, GREEDY);
    var g := UnitAlloc(u, 1, GREEDY).1;
    assert GrantedChannel(g[0], u.geo);
    SharedHere(u);
    assert g[1..] == [];
    MulMono(g[0].numLuns, 1, g[0].luns[0].count);
  }

  lemma SharedHere(u: UnitState)
    requires UnitStateOk(u)
    ensures var g := UnitAlloc(u, 1, GREEDY).1; forall i :: 0 <= i < |g| ==> g[i].shared == 1
  {
    SharedAllocGrants(u.shared, GREEDY.blocks / 1, 1, 0, u.geo);
  }

  lemma {:induction false} OpenSomewhere(cs: seq<Chan>) returns (i: nat)
    requires OpenChans(cs) > 0
    ensures i < |cs| && FreeChan(cs[i]) > 0
  {
    i := 0;
    if FreeChan(cs[0]) == 0 {
      i := OpenSomewhere(cs[1..]);
      i := i + 1;
    }
  }

  lemma OpenNeedsLuns(u: UnitState)
    requires UnitStateOk(u) && OpenChans(u.shared) > 0
    ensures u.geo.nluns > 0
  {
    var i := OpenSomewhere(u.shared);
    OpenChan(u.shared[i]);
  }

  lemma {:induction false} OpenGives(us: seq<UnitState>, k: nat)
    requires (forall i :: 0 <= i < |us| ==> UnitStateOk(us[i])) && k < |us| && OpenChans(us[k].shared) > 0
    ensures BlocksOf(UnitsAlloc(us, 1, GREEDY).1) > 0
    decreases |us|
  {
    hide UnitStateOk, UnitAlloc, OpenChans, TotalBlocks;
    var first := UnitAlloc(us[0], 1, GREEDY);
    var rest := UnitsAlloc(us[1..], 1 - |first.1|, GREEDY).1;
    if first.1 != [] {
      if OpenChans(us[0].shared) == 0 { ClosedGivesNothing(us[0]); }
      GrantHasBlocks(us[0]);
      assert (AsUnit(us[0], first.1) + rest)[0].channels == first.1;
    } else {
      if k == 0 { GrantHasBlocks(us[0]); }
      OpenGives(us[1..], k - 1);
      assert AsUnit(us[0], first.1) + rest == rest;
    }
  }

  lemma ClosedGivesNothing(u: UnitState)
    requires UnitStateOk(u) && OpenChans(u.shared) == 0
    ensures UnitAlloc(u, 1, GREEDY).1 == []
  {
    hide UnitAlloc, OpenChans;
    assert GREEDY.blocks / 1 == GREEDY.blocks;
    SharedRequestIsGreedy(u, 1, GREEDY);
  }

  lemma {:induction false} OneRequest(s: System, req: AllocRequest, rest: seq<Op>)
    ensures Run(s, [Request(req)] + rest).0 == Run(Alloc(s, req).0, rest).0
  {
    assert ([Request(req)] + rest)[1..] == rest;
  }

  /** Repeating the greedy request exhausts the shared channels of every device. */
  lemma {:induction false} Exhaust(s: System) returns (ops: seq<Op>)
    requires SystemOk(s)
    ensures OnlyRequests(ops)
    ensures var t := Run(s, ops).0; SystemOk(t) && SharedFull(t.units) && SameDevices(s.units, t.units)
    decreases TotalFree(s.units)
  {
    hide UnitStateOk, OpenChans, UnitsAlloc, TotalFree;
    ops := [];
    if !SharedFull(s.units) {
      var k :| 0 <= k < |s.units| && OpenChans(s.units[k].shared) != 0;
      var t := Alloc(s, GREEDY).0;
      OpenGives(s.units, k);
      TotalFreeConserved(s.units, 1, GREEDY);
      AllocKeepsDevices(s, GREEDY);
      var rest := Exhaust(t);
      ops := [Request(GREEDY)] + rest;
      OneRequest(s, GREEDY, rest);
    }
  }

  predicate SameDevices(us: seq<UnitState>, vs: seq<UnitState>) {
    |us| == |vs| && forall i :: 0 <= i < |us| ==> vs[i].name == us[i].name && vs[i].geo == us[i].geo
  }

  lemma AllocKeepsDevices(s: System, req: AllocRequest)
    requires SystemOk(s)
    ensures var t := Alloc(s, req).0; SystemOk(t) && SameDevices(s.units, t.units)
  {
    hide UnitsAlloc;
    StepKeeps(s, Request(req));
    UnitsAllocKeeps(s.units, req.channels, req);
  }

  lemma FullUnitLostItsFirstBlock(u: UnitState)
    requires UnitStateOk(u) && HasBlocks(u) && OpenChans(u.shared) == 0
    ensures GoneUnit(u, Block(u.name, 0, 0, 0)) >= 1
  {
    var c := u.shared[0];
    OpenChan(c);
    assert FreeChan(c) == 0;
    assert GoneChan(c, Block(u.name, 0, 0, 0)) == 1;
  }

  lemma {:induction false} GoneTwice(us: seq<UnitState>, i: nat, j: nat, b: Block)
    requires i < j < |us| && GoneUnit(us[i], b) >= 1 && GoneUnit(us[j], b) >= 1
    ensures GoneUnits(us, b) >= 2
  {
    hide GoneUnit;
    if i > 0 {
      GoneTwice(us[1..], i - 1, j - 1, b);
    } else {
      GoneOnce(us[1..], j - 1, b);
    }
  }

  lemma {:induction false} GoneOnce(us: seq<UnitState>, j: nat, b: Block)
    requires j < |us| && GoneUnit(us[j], b) >= 1
    ensures GoneUnits(us, b) >= 1
  {
    hide GoneUnit;
    if j > 0 { GoneOnce(us[1..], j - 1, b); }
  }

  lemma {:induction false} FreshNodeHasAll(us: seq<UnitState>, b: Block)
    requires FreshNode(us)
    ensures GoneUnits(us, b) == 0
  {
    hide UnitStateOk;
    if us != [] {
      var u := us[0];
      var n := Min(MAX_SHARED, u.geo.nchannels);
      assert u == FreshUnit(u.name, u.geo);
      GoneFresh(0, n, u.geo, b);
      GoneFresh(n, u.geo.nchannels - n, u.geo, b);
      FreshNodeHasAll(us[1..], b);
    }
  }

  lemma {:induction false} RequestsKeepDevices(s: System, ops: seq<Op>)
    requires SystemOk(s) && OnlyRequests(ops)
    ensures SystemOk(Run(s, ops).0) && SameDevices(s.units, Run(s, ops).0.units)
    decreases |ops|
  {
    hide UnitStateOk, Alloc;
    if ops != [] {
      var req := ops[0].request;
      AllocKeepsDevices(s, req);
      RequestsKeepDevices(Alloc(s, req).0, ops[1..]);
    }
  }

  /** The blocks granted by the requests `ops`, counted at `b`. */
  function Granted(s: System, ops: seq<Op>, b: Block): nat { TimesAll(Run(s, ops).1, b) }

  lemma DistinctSuffices(s: System, ops: seq<Op>, b: Block)
    requires FreshNode(s.units) && DistinctDevices(s.units) && OnlyRequests(ops)
    ensures Granted(s, ops, b) <= 1
  {
    hide UnitStateOk, Run;
    RunMoves(s, ops, b);
    FreshNodeHasAll(s.units, b);
    RequestsKeepDevices(s, ops);
    GoneUnitsOnce(Run(s, ops).0.units, b);
  }

  lemma AliasingGrantsTwice(s: System, i: nat, j: nat) returns (ops: seq<Op>, b: Block)
    requires FreshNode(s.units) && i < j < |s.units| && HasBlocks(s.units[i]) && HasBlocks(s.units[j])
    requires s.units[i].name == s.units[j].name
    ensures OnlyRequests(ops) && Granted(s, ops, b) >= 2
  {
    hide UnitStateOk, Run, OpenChans;
    ops := Exhaust(s);
    b := Block(s.units[i].name, 0, 0, 0);
    var us := Run(s, ops).0.units;
    FullUnitLostItsFirstBlock(us[i]);
    FullUnitLostItsFirstBlock(us[j]);
    GoneTwice(us, i, j, b);
    RunMoves(s, ops, b);
    FreshNodeHasAll(s.units, b);
  }

  /** On a fresh node no request sequence grants a block twice if and only if the devices that
      hold blocks have distinct names. */
  lemma NeverTwiceIffDistinct(s: System)
    requires FreshNode(s.units)
    ensures (forall ops, b :: OnlyRequests(ops) ==> Granted(s, ops, b) <= 1) <==> DistinctDevices(s.units)
  {
    hide FreshNode, Granted;
    if DistinctDevices(s.units) {
      forall ops, b | OnlyRequests(ops) ensures Granted(s, ops, b) <= 1 { DistinctSuffices(s, ops, b); }
    } else {
      var i, j :| && 0 <= i < j < |s.units| && HasBlocks(s.units[i]) && HasBlocks(s.units[j])
                  && s.units[i].name == s.units[j].name;
      var ops, b := AliasingGrantsTwice(s, i, j);
    }
  }
}
