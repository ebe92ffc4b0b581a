/** Counts: free blocks, greedy completeness, and bounds on what one request can take. */
module Accounting {
  import opened Bytes
  import opened VirtualSsd
  import opened Requests
  import opened Allocation
  import opened Ownership

  // ---------------------------------------------------------------- free blocks

  function FreeChan(c: Chan): nat {
    if c.taken || c.blocks < c.level then 0 else c.luns * (c.blocks - c.level)
  }

  function FreeChans(cs: seq<Chan>): nat {
    if cs == [] then 0 else FreeChan(cs[0]) + FreeChans(cs[1..])
  }

  /** Channels that still have something to give. */
  function OpenChans(cs: seq<Chan>): nat {
    if cs == [] then 0 else (if FreeChan(cs[0]) > 0 then 1 else 0) + OpenChans(cs[1..])
  }

  function FreeUnit(u: UnitState): nat { FreeChans(u.shared) + FreeChans(u.exclusive) }

  function Capacity(g: Geometry): nat { g.nchannels * (g.nluns * g.nblocks) }

  function TotalBlocks(cs: seq<VChannel>): nat {
    if cs == [] then 0 else cs[0].total + TotalBlocks(cs[1..])
  }

  function FreeNamed(us: seq<UnitState>, device: seq<Byte>): nat {
    if us == [] then 0 else (if us[0].name == device then FreeUnit(us[0]) else 0) + FreeNamed(us[1..], device)
  }

  function CapacityNamed(us: seq<UnitState>, device: seq<Byte>): nat {
    if us == [] then 0 else (if us[0].name == device then Capacity(us[0].geo) else 0) + CapacityNamed(us[1..], device)
  }

  function GrantedNamed(us: seq<VUnit>, device: seq<Byte>): nat {
    if us == [] then 0 else
      (if us[0].name == device then TotalBlocks(us[0].channels) else 0) + GrantedNamed(us[1..], device)
  }

  function GrantedAll(gs: seq<VSsd>, device: seq<Byte>): nat {
    if gs == [] then 0 else GrantedNamed(gs[0].units, device) + GrantedAll(gs[1..], device)
  }

  lemma FreeAfterQuota(c: Chan, per: nat)
    requires !c.taken && c.level <= c.blocks
    ensures FreeChan(c.(level := c.level + Quota(c, per))) + c.luns * Quota(c, per) == FreeChan(c)
  {
    var q, d := Quota(c, per), c.blocks - c.level;
    QuotaBounds(c, per);
    assert c.luns * (d - q) + c.luns * q == c.luns * d;
  }

  lemma {:induction false} SharedAllocConserves(cs: seq<Chan>, per: nat, want: nat)
    requires SharedOnly(cs) && forall i :: 0 <= i < |cs| ==> cs[i].level <= cs[i].blocks
    ensures var r := SharedAlloc(cs, per, want); FreeChans(r.0) + TotalBlocks(r.1) == FreeChans(cs)
  {
    if cs != [] && want > 0 {
      FreeAfterQuota(cs[0], per);
      SharedAllocConserves(cs[1..], per, if Quota(cs[0], per) > 0 then want - 1 else want);
    }
  }

  lemma {:induction false} ExclusiveAllocConserves(cs: seq<Chan>, want: nat)
    requires ExclusiveOnly(cs)
    ensures var r := ExclusiveAlloc(cs, want); FreeChans(r.0) + TotalBlocks(r.1) == FreeChans(cs)
  {
    if cs != [] && want > 0 {
      ExclusiveAllocConserves(cs[1..], if cs[0].taken then want else want - 1);
    }
  }

  lemma {:induction false} UnitAllocConserves(u: UnitState, want: nat, req: AllocRequest, device: seq<Byte>)
    requires UnitStateOk(u)
    ensures var r := UnitAlloc(u, want, req);
            && FreeUnit(r.0) + TotalBlocks(r.1) == FreeUnit(u)
            && (u.name == device ==> GrantedNamed(AsUnit(u, r.1), device) == TotalBlocks(r.1))
            && (u.name != device ==> GrantedNamed(AsUnit(u, r.1), device) == 0)
  {
    if want > 0 {
      SharedAllocConserves(u.shared, req.blocks / want, want);
      ExclusiveAllocConserves(u.exclusive, want);
    }
    var g := AsUnit(u, UnitAlloc(u, want, req).1);
    assert g != [] ==> g[1..] == [];
  }

  lemma {:induction false} GrantedNamedConcat(us: seq<VUnit>, vs: seq<VUnit>, device: seq<Byte>)
    ensures GrantedNamed(us + vs, device) == GrantedNamed(us, device) + GrantedNamed(vs, device)
  {
    if us == [] {
      assert us + vs == vs;
    } else {
      assert (us + vs)[1..] == us[1..] + vs;
      GrantedNamedConcat(us[1..], vs, device);
    }
  }

  lemma {:induction false} NothingGranted(device: seq<Byte>)
    ensures GrantedNamed([], device) == 0
  {
  }

  lemma {:induction false} UnitsAllocConserves(us: seq<UnitState>, want: nat, req: AllocRequest, device: seq<Byte>)
    requires forall i :: 0 <= i < |us| ==> UnitStateOk(us[i])
    ensures var r := UnitsAlloc(us, want, req);
            && FreeNamed(r.0, device) + GrantedNamed(r.1, device) == FreeNamed(us, device)
            && CapacityNamed(r.0, device) == CapacityNamed(us, device)
  {
    hide UnitStateOk, UnitAlloc, FreeUnit, Capacity, TotalBlocks, AsUnit, GrantedNamed;
    if us == [] || want == 0 {
      NothingGranted(device);
    } else {
      var first := UnitAlloc(us[0], want, req);
      var rest := UnitsAlloc(us[1..], want - |first.1|, req);
      UnitAllocConserves(us[0], want, req, device);
      UnitsAllocConserves(us[1..], want - |first.1|, req, device);
      GrantedNamedConcat(AsUnit(us[0], first.1), rest.1, device);
    }
  }

  lemma {:induction false} FreeFresh(first: nat, n: nat, geo: Geometry)
    ensures FreeChans(FreshChans(first, n, geo)) == n * (geo.nluns * geo.nblocks)
    decreases n
  {
    if n > 0 {
      var cs := FreshChans(first, n, geo);
      assert cs[1..] == FreshChans(first + 1, n - 1, geo);
      FreeFresh(first + 1, n - 1, geo);
      var k := geo.nluns * geo.nblocks;
      assert FreeChan(cs[0]) == k;
      assert (n - 1) * k + k == n * k;
    }
  }

  lemma FreshUnitIsFree(name: seq<Byte>, geo: Geometry)
    ensures FreeUnit(FreshUnit(name, geo)) == Capacity(geo)
  {
    var n := Min(MAX_SHARED, geo.nchannels);
    FreeFresh(0, n, geo);
    FreeFresh(n, geo.nchannels - n, geo);
    var k := geo.nluns * geo.nblocks;
    assert n * k + (geo.nchannels - n) * k == geo.nchannels * k;
  }

  lemma {:induction false} FreeNamedSnoc(us: seq<UnitState>, u: UnitState, device: seq<Byte>)
    ensures FreeNamed(us + [u], device) == FreeNamed(us, device) + if u.name == device then FreeUnit(u) else 0
    ensures CapacityNamed(us + [u], device) ==
            CapacityNamed(us, device) + if u.name == device then Capacity(u.geo) else 0
  {
    hide FreeUnit, Capacity;
    if us == [] {
      assert [u][1..] == [] && us + [u] == [u];
    } else {
      assert (us + [u])[1..] == us[1..] + [u];
      FreeNamedSnoc(us[1..], u, device);
    }
  }

  lemma {:induction false} GrantedAllConcat(gs: seq<VSsd>, hs: seq<VSsd>, device: seq<Byte>)
    ensures GrantedAll(gs + hs, device) == GrantedAll(gs, device) + GrantedAll(hs, device)
  {
    if gs == [] {
      assert gs + hs == hs;
    } else {
      assert (gs + hs)[1..] == gs[1..] + hs;
      GrantedAllConcat(gs[1..], hs, device);
    }
  }

  lemma {:induction false} StepConserves(s: System, op: Op, device: seq<Byte>)
    requires SystemOk(s)
    ensures var r := Step(s, op);
            FreeNamed(r.0.units, device) + GrantedAll(r.1, device) + CapacityNamed(s.units, device)
            == FreeNamed(s.units, device) + CapacityNamed(r.0.units, device)
  {
    hide UnitStateOk, FreeUnit, Capacity;
    match op
    case Add(name, geo) =>
      FreshUnitIsFree(name, geo);
      FreeNamedSnoc(s.units, FreshUnit(name, geo), device);
    case Request(request) =>
      UnitsAllocConserves(s.units, request.channels, request, device);
      var g := Step(s, op).1;
      assert g[1..] == [];
  }

  lemma {:induction false} RunConservesFrom(s: System, ops: seq<Op>, device: seq<Byte>)
    requires SystemOk(s) && OpsOk(ops)
    ensures var r := Run(s, ops);
            FreeNamed(r.0.units, device) + GrantedAll(r.1, device) + CapacityNamed(s.units, device)
            == FreeNamed(s.units, device) + CapacityNamed(r.0.units, device)
    decreases |ops|
  {
    hide UnitStateOk, Step, FreeNamed, CapacityNamed;
    if ops != [] {
      var first := Step(s, ops[0]);
      StepKeeps(s, ops[0]);
      StepConserves(s, ops[0], device);
      RunConservesFrom(first.0, ops[1..], device);
      GrantedAllConcat(first.1, Run(first.0, ops[1..]).1, device);
    }
  }

  /** Conservation over every run: what a device still has free plus all that was ever granted
      from it is its capacity. */
  lemma {:induction false} RunConserves(ops: seq<Op>, device: seq<Byte>)
    requires OpsOk(ops)
    ensures var r := Run(START, ops);
            FreeNamed(r.0.units, device) + GrantedAll(r.1, device) == CapacityNamed(r.0.units, device)
  {
    RunConservesFrom(START, ops, device);
  }

  // ---------------------------------------------------------------- greedy completeness

  /** Exclusive channels nobody has. */
  function Unused(cs: seq<Chan>): nat {
    if cs == [] then 0 else (if cs[0].taken then 0 else 1) + Unused(cs[1..])
  }

  function UnusedAll(us: seq<UnitState>): nat {
    if us == [] then 0 else Unused(us[0].exclusive) + UnusedAll(us[1..])
  }

  lemma {:induction false} ExclusiveAllocIsGreedy(cs: seq<Chan>, want: nat)
    ensures var r := ExclusiveAlloc(cs, want);
            |r.1| == Min(want, Unused(cs)) && Unused(r.0) == Unused(cs) - |r.1|
  {
    if cs != [] && want > 0 {
      ExclusiveAllocIsGreedy(cs[1..], if cs[0].taken then want else want - 1);
    }
  }

  /** An exclusive request gets as many channels as it asked for, or all that are left. */
  lemma {:induction false} ExclusiveRequestIsGreedy(us: seq<UnitState>, want: nat, req: AllocRequest)
    requires req.shared != 1
    ensures ChannelCount(UnitsAlloc(us, want, req).1) == Min(want, UnusedAll(us))
    ensures UnusedAll(UnitsAlloc(us, want, req).0) == UnusedAll(us) - Min(want, UnusedAll(us))
  {
    hide ExclusiveAlloc, Unused;
    if us != [] && want > 0 {
      var first := UnitAlloc(us[0], want, req);
      ExclusiveAllocIsGreedy(us[0].exclusive, want);
      ExclusiveRequestIsGreedy(us[1..], want - |first.1|, req);
      var rest := UnitsAlloc(us[1..], want - |first.1|, req).1;
      assert first.1 != [] ==> (AsUnit(us[0], first.1) + rest)[1..] == rest;
      assert first.1 == [] ==> AsUnit(us[0], first.1) + rest == rest;
    }
  }

  /** Every channel of a shared walk is offered `per / nluns` blocks per LUN: if that is at
      least one block, the walk takes from as many open channels as asked for or as there are;
      otherwise it takes nothing and changes nothing. */
  lemma {:induction false} SharedAllocIsGreedy(cs: seq<Chan>, per: nat, want: nat, first: nat, geo: Geometry)
    requires ChansOk(cs, first, geo) && SharedOnly(cs)
    ensures var r := SharedAlloc(cs, per, want);
            if geo.nluns > 0 && per / geo.nluns >= 1
            then |r.1| == Min(want, OpenChans(cs))
            else r == (cs, [])
  {
    if cs != [] && want > 0 {
      var q := Quota(cs[0], per);
      SharedAllocIsGreedy(cs[1..], per, if q > 0 then want - 1 else want, first + 1, geo);
      OpenChan(cs[0]);
      assert cs == [cs[0]] + cs[1..];
    }
  }

  lemma OpenChan(c: Chan)
    requires !c.taken
    ensures FreeChan(c) > 0 <==> c.luns > 0 && c.level < c.blocks
  {
    if c.luns > 0 && c.level < c.blocks {
      MulMono(c.luns, 1, c.blocks - c.level);
    }
  }

  lemma SharedRequestIsGreedy(u: UnitState, want: nat, req: AllocRequest)
    requires UnitStateOk(u) && req.shared == 1 && want > 0
    ensures var r := UnitAlloc(u, want, req);
            if u.geo.nluns > 0 && req.blocks / want / u.geo.nluns >= 1
            then |r.1| == Min(want, OpenChans(u.shared))
            else r == (u, [])
  {
    SharedAllocIsGreedy(u.shared, req.blocks / want, want, 0, u.geo);
  }

  // ---------------------------------------------------------------- how much a shared request gets

  function BlocksOf(us: seq<VUnit>): nat {
    if us == [] then 0 else TotalBlocks(us[0].channels) + BlocksOf(us[1..])
  }

  lemma {:induction false} SharedAllocBound(cs: seq<Chan>, per: nat, want: nat)
    ensures TotalBlocks(SharedAlloc(cs, per, want).1) <= per * want
  {
    hide Quota, LunRow;
    if cs != [] && want > 0 {
      var q := Quota(cs[0], per);
      QuotaBounds(cs[0], per);
      SharedAllocBound(cs[1..], per, if q > 0 then want - 1 else want);
      MulSucc(per, want - 1);
    }
  }

  lemma DivTimes(a: nat, b: nat)
    requires b > 0
    ensures a / b * b <= a
  {
  }

  lemma NoBlocks()
    ensures TotalBlocks([]) == 0
  {
  }

  /** One unit never gives a shared request more blocks than it asked for. */
  lemma UnitWithinRequest(u: UnitState, want: nat, req: AllocRequest)
    requires req.shared == 1
    ensures TotalBlocks(UnitAlloc(u, want, req).1) <= req.blocks
  {
    hide SharedAlloc, TotalBlocks;
    if want > 0 {
      SharedAllocBound(u.shared, req.blocks / want, want);
      DivTimes(req.blocks, want);
    } else {
      NoBlocks();
    }
  }

  /** The node as a whole gives at most the request once per unit that gives anything. */
  lemma {:induction false} NodeWithinRequestPerUnit(us: seq<UnitState>, want: nat, req: AllocRequest)
    requires req.shared == 1
    ensures var g := UnitsAlloc(us, want, req).1; BlocksOf(g) <= req.blocks * |g|
  {
    hide UnitAlloc, TotalBlocks;
    if us != [] && want > 0 {
      var first := UnitAlloc(us[0], want, req);
      UnitWithinRequest(us[0], want, req);
      NodeWithinRequestPerUnit(us[1..], want - |first.1|, req);
      var rest := UnitsAlloc(us[1..], want - |first.1|, req).1;
      var g := AsUnit(us[0], first.1) + rest;
      if first.1 == [] {
        assert g == rest;
      } else {
        assert g[1..] == rest;
        MulSucc(req.blocks, |rest|);
      }
    }
  }

  lemma MulPlus(n: nat, a: nat, b: nat)
    ensures n * (a + b) == n * a + n * b
  {
  }

  lemma MulSucc(k: nat, n: nat)
    ensures k * (n + 1) == k * n + k
  {
  }

  /** The bound of the request itself holds when the first unit can serve it alone. */
  lemma {:induction false} FirstUnitSuffices(us: seq<UnitState>, req: AllocRequest)
    requires req.shared == 1 && us != [] && UnitStateOk(us[0]) && req.channels > 0
    requires us[0].geo.nluns > 0 && req.blocks / req.channels / us[0].geo.nluns >= 1
    requires OpenChans(us[0].shared) >= req.channels
    ensures var g := UnitsAlloc(us, req.channels, req).1;
            ChannelCount(g) == req.channels && BlocksOf(g) <= req.blocks
  {
    hide UnitStateOk, OpenChans, UnitAlloc;
    SharedRequestIsGreedy(us[0], req.channels, req);
    UnitWithinRequest(us[0], req.channels, req);
    var first := UnitAlloc(us[0], req.channels, req);
    assert UnitsAlloc(us[1..], 0, req).1 == [];
    var g := AsUnit(us[0], first.1);
    assert UnitsAlloc(us, req.channels, req).1 == g + [] == g;
    assert g[1..] == [];
  }

  /** A device with one channel of one LUN serves any shared request with one extent. */
  lemma LoneChannel(name: seq<Byte>, nblocks: U32, want: nat, req: AllocRequest)
    requires req.shared == 1 && want > 0 && 0 < req.blocks / want <= nblocks
    ensures var geo := Geometry(1, 1, 1, nblocks, 1, 1, 1, 1, 1);
            var g := UnitAlloc(FreshUnit(name, geo), want, req).1;
            |g| == 1 && TotalBlocks(g) == req.blocks / want
  {
    var geo := Geometry(1, 1, 1, nblocks, 1, 1, 1, 1, 1);
    var c, q := Chan(0, 1, nblocks, 0, false), req.blocks / want;
    assert FreshUnit(name, geo).shared == [c] && [c][1..] == [];
    assert Quota(c, q) == q;
    var g := [SharedGrant(c, q)];
    assert SharedAlloc([], q, want - 1) == ([], []);
    assert SharedAlloc([c], q, want).1 == g;
    assert g[1..] == [];
  }

  /** With several units the node can hand out more than asked: the channel count shrinks as
      units serve the request, its block count does not. Two one-channel devices answer a
      request for two channels and `2 * n` blocks with `3 * n` blocks. */
  lemma NodeCanExceedRequest(n: U32)
    requires 0 < n && 2 * n < TWO_32
    ensures var geo := Geometry(1, 1, 1, 2 * n, 1, 1, 1, 1, 1);
            var req := AllocRequest(2, 2 * n, 1, 0, 0);
            var us := [FreshUnit([1], geo), FreshUnit([2], geo)];
            BlocksOf(UnitsAlloc(us, 2, req).1) == 3 * n > req.blocks
  {
    hide UnitAlloc, FreshUnit, TotalBlocks;
    var geo := Geometry(1, 1, 1, 2 * n, 1, 1, 1, 1, 1);
    var req := AllocRequest(2, 2 * n, 1, 0, 0);
    var a, b := FreshUnit([1], geo), FreshUnit([2], geo);
    LoneChannel([1], 2 * n, 2, req);
    LoneChannel([2], 2 * n, 1, req);
    var ga, gb := AsUnit(a, UnitAlloc(a, 2, req).1), AsUnit(b, UnitAlloc(b, 1, req).1);
    assert [a, b][1..] == [b] && [b][1..] == [];
    assert UnitsAlloc([], 0, req).1 == [];
    assert UnitsAlloc([b], 1, req).1 == gb + [] == gb;
    assert UnitsAlloc([a, b], 2, req).1 == ga + gb;
    assert BlocksOf(gb) == 2 * n by { assert gb[1..] == []; }
    assert (ga + gb)[1..] == gb && (ga + gb)[0] == ga[0];
  }
}
