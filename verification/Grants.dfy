/** Exactly what a request is granted: which channels of which device, which blocks of every LUN,
    and what the devices look like afterwards (ocssd_server.h, 957-1064 and 1129-1158). */
module Grants {
  import opened Bytes
  import opened VirtualSsd
  import opened Requests
  import opened Allocation
  import opened Ownership
  import opened Accounting
  import opened DeviceNames

  function Ids(g: seq<VChannel>): (ids: seq<nat>)
    ensures |ids| == |g| && forall k :: 0 <= k < |g| ==> ids[k] == g[k].id
  {
    seq(|g|, k requires 0 <= k < |g| => g[k].id)
  }

  /** `ids` lists, in ascending order, the `want` smallest members of `from`, or all of them. */
  ghost predicate Smallest(ids: seq<nat>, from: iset<nat>, want: nat) {
    && |ids| <= want
    && (forall k :: 0 <= k < |ids| ==> ids[k] in from)
    && (forall j, k :: 0 <= j < k < |ids| ==> ids[j] < ids[k])
    && (forall i :: i in from && i !in ids ==> |ids| == want && forall k :: 0 <= k < |ids| ==> ids[k] < i)
  }

  lemma SmallestCons(first: nat, ids: seq<nat>, from: iset<nat>, later: iset<nat>, want: nat)
    requires Smallest(ids, later, want) && first in from
    requires (forall i :: i in later ==> i > first) && (forall i :: i in from <==> i == first || i in later)
    ensures Smallest([first] + ids, from, want + 1)
  {
    var all := [first] + ids;
    forall k | 0 < k < |all| ensures all[k] == ids[k - 1] && all[k] in later {}
    forall i | i in from && i !in all ensures i in later && i !in ids && i > first {
      assert all[0] == first && all[1..] == ids;
    }
  }

  // ---------------------------------------------------------------- a new device

  /** Adding a device leaves the others alone and puts a fresh one behind them: its channels 0 to 3
      are shared, those from 4 on exclusive, and nothing of it is handed out. */
  lemma AddedDevice(s: System, name: seq<Byte>, geo: Geometry)
    ensures var t := Step(s, Add(name, geo)).0; var n := |s.units|;
            && |t.units| == n + 1 && t.units[..n] == s.units && t.nextId == s.nextId
            && var u := t.units[n];
               && u.name == name && u.geo == geo
               && |u.shared| == Min(4, geo.nchannels) && |u.exclusive| == geo.nchannels - |u.shared|
               && (forall i :: 0 <= i < |u.shared| ==> u.shared[i] == Chan(i, geo.nluns, geo.nblocks, 0, false))
               && (forall i :: 0 <= i < |u.exclusive| ==>
                     u.exclusive[i] == Chan(4 + i, geo.nluns, geo.nblocks, 0, false))
  {
  }

  /** The devices added by a run, in order. */
  function Added(ops: seq<Op>): seq<(seq<Byte>, Geometry)> {
    if ops == [] then [] else (if ops[0].Add? then [(ops[0].name, ops[0].geo)] else []) + Added(ops[1..])
  }

  function Devices(us: seq<UnitState>): (r: seq<(seq<Byte>, Geometry)>)
    ensures |r| == |us|
  {
    seq(|us|, i requires 0 <= i < |us| => (us[i].name, us[i].geo))
  }

  lemma StepDevices(s: System, op: Op)
    requires SystemOk(s)
    ensures Devices(Step(s, op).0.units) == Devices(s.units) + if op.Add? then [(op.name, op.geo)] else []
  {
    hide UnitStateOk, UnitsAlloc, FreshUnit;
    match op
    case Add(name, geo) => AddedDevice(s, name, geo);
    case Request(req) => AllocKeepsDevices(s, req);
  }

  /** Over every run the node's devices are those added, in the order they were added. */
  lemma {:induction false} DevicesAsAdded(s: System, ops: seq<Op>)
    requires SystemOk(s) && OpsOk(ops)
    ensures Devices(Run(s, ops).0.units) == Devices(s.units) + Added(ops)
    decreases |ops|
  {
    hide UnitStateOk, Step;
    if ops != [] {
      var t := Step(s, ops[0]).0;
      StepKeeps(s, ops[0]);
      DevicesAsAdded(t, ops[1..]);
      StepDevices(s, ops[0]);
      var here := if ops[0].Add? then [(ops[0].name, ops[0].geo)] else [];
      assert Devices(s.units) + here + Added(ops[1..]) == Devices(s.units) + (here + Added(ops[1..]));
    }
  }

  // ---------------------------------------------------------------- shared channels

  /** The channels that can give a block of every LUN. */
  ghost function Open(cs: seq<Chan>, geo: Geometry, per: nat): iset<nat> {
    if geo.nluns == 0 || per / geo.nluns == 0 then iset{} else
      iset i | 0 <= i < |cs| && cs[i].level < geo.nblocks :: cs[i].id
  }

  lemma {:induction false} SharedIds(cs: seq<Chan>, per: nat, want: nat, first: nat, geo: Geometry)
    requires ChansOk(cs, first, geo)
    ensures Smallest(Ids(SharedAlloc(cs, per, want).1), Open(cs, geo, per), want)
    decreases |cs|
  {
    hide LunRow;
    var g := SharedAlloc(cs, per, want).1;
    if cs != [] && want > 0 {
      var q := Quota(cs[0], per);
      var want' := if q > 0 then want - 1 else want;
      SharedIds(cs[1..], per, want', first + 1, geo);
      var tail := SharedAlloc(cs[1..], per, want').1;
      OpenCons(cs, first, geo, per);
      if q > 0 {
        assert Ids(g) == [first] + Ids(tail);
        SmallestCons(first, Ids(tail), Open(cs, geo, per), Open(cs[1..], geo, per), want');
      }
    }
  }

  lemma OpenCons(cs: seq<Chan>, first: nat, geo: Geometry, per: nat)
    requires cs != [] && ChansOk(cs, first, geo)
    ensures var a, b := Open(cs, geo, per), Open(cs[1..], geo, per);
            && (forall i :: i in b ==> i > first)
            && (if Quota(cs[0], per) > 0 then forall i :: i in a <==> i == first || i in b else a == b)
            && (Quota(cs[0], per) > 0 ==> first in a)
  {
    var a, b := Open(cs, geo, per), Open(cs[1..], geo, per);
    forall i | i in b ensures i in a && i > first {
      var k :| 0 <= k < |cs[1..]| && cs[1..][k].level < geo.nblocks && cs[1..][k].id == i;
      assert cs[k + 1] == cs[1..][k];
    }
    forall i | i in a && i != first ensures i in b {
      var k :| 0 <= k < |cs| && cs[k].level < geo.nblocks && cs[k].id == i;
      assert cs[k] == cs[1..][k - 1];
    }
  }

  /** Which channels: the first `want` open shared ones, or all if there are fewer. */
  lemma SharedRequestPicks(u: UnitState, want: nat, req: AllocRequest)
    requires UnitStateOk(u) && req.shared == 1 && want > 0
    ensures var r := UnitAlloc(u, want, req);
            && Smallest(Ids(r.1), Open(u.shared, u.geo, req.blocks / want), want)
            && |r.0.shared| == |u.shared| && r.0.exclusive == u.exclusive
  {
    hide SharedAlloc, Ids, Open, Smallest;
    SharedIds(u.shared, req.blocks / want, want, 0, u.geo);
  }

  lemma {:induction false} SharedGrantAt(cs: seq<Chan>, per: nat, want: nat, first: nat, geo: Geometry, k: nat)
    requires ChansOk(cs, first, geo) && k < |SharedAlloc(cs, per, want).1|
    ensures var g := SharedAlloc(cs, per, want).1[k];
            && geo.nluns > 0 && first <= g.id < first + |cs|
            && var c := cs[g.id - first];
               g == SharedGrant(c, Min(per / geo.nluns, geo.nblocks - c.level))
    decreases |cs|
  {
    hide SharedGrant;
    var q := Quota(cs[0], per);
    SharedGrantId(cs[0], q);
    if q == 0 {
      SharedGrantAt(cs[1..], per, want, first + 1, geo, k);
    } else if k > 0 {
      SharedGrantAt(cs[1..], per, want - 1, first + 1, geo, k - 1);
    }
  }

  lemma SharedGrantId(c: Chan, q: nat)
    ensures SharedGrant(c, q).id == c.id
  {
  }

  /** Which blocks: of every LUN of a granted channel the next blocks / want / LUNs, or what is left. */
  lemma SharedRequestGets(u: UnitState, want: nat, req: AllocRequest, k: nat)
    requires UnitStateOk(u) && req.shared == 1 && want > 0 && k < |UnitAlloc(u, want, req).1|
    ensures var g := UnitAlloc(u, want, req).1[k];
            && u.geo.nluns > 0 && g.id < |u.shared|
            && g.shared == 1 && g.numLuns == |g.luns| == u.geo.nluns
            && var level: int := u.shared[g.id].level;
               var asked, left := req.blocks / want / u.geo.nluns, u.geo.nblocks - level;
               var share := if asked <= left then asked else left;
               && g.total == u.geo.nluns * share
               && (forall l :: 0 <= l < |g.luns| ==>
                     g.luns[l].id == l && g.luns[l].start == level && g.luns[l].count == share)
  {
    hide SharedAlloc;
    SharedGrantAt(u.shared, req.blocks / want, want, 0, u.geo, k);
  }

  /** One step of the shared walk. */
  lemma {:induction false} SharedStep(cs: seq<Chan>, per: nat, want: nat)
    requires cs != [] && want > 0
    ensures var q := Quota(cs[0], per);
            var tail := SharedAlloc(cs[1..], per, if q > 0 then want - 1 else want);
            && SharedAlloc(cs, per, want).0 == [cs[0].(level := cs[0].level + q)] + tail.0
            && Ids(SharedAlloc(cs, per, want).1) == (if q > 0 then [cs[0].id] else []) + Ids(tail.1)
  {
    hide Quota, LunRow;
  }

  lemma {:induction false} SharedLevelAt(cs: seq<Chan>, per: nat, want: nat, first: nat, geo: Geometry, i: nat)
    requires ChansOk(cs, first, geo) && i < |cs|
    ensures var r := SharedAlloc(cs, per, want);
            if first + i in Ids(r.1)
            then geo.nluns > 0
                 && r.0[i] == cs[i].(level := cs[i].level + Min(per / geo.nluns, geo.nblocks - cs[i].level))
            else r.0[i] == cs[i]
    decreases |cs|
  {
    hide SharedAlloc, Ids, Quota;
    if want == 0 {
      NoneWanted(cs, per);
    } else {
      var q := Quota(cs[0], per);
      var want' := if q > 0 then want - 1 else want;
      SharedStep(cs, per, want);
      QuotaIs(cs, per, first, geo);
      if i > 0 {
        SharedLevelAt(cs[1..], per, want', first + 1, geo, i - 1);
        assert cs[i] == cs[1..][i - 1];
      } else {
        LaterIds(cs[1..], per, want', first + 1, geo);
      }
    }
  }

  lemma {:induction false} NoneWanted(cs: seq<Chan>, per: nat)
    ensures SharedAlloc(cs, per, 0).0 == cs && Ids(SharedAlloc(cs, per, 0).1) == []
  {
  }

  lemma QuotaIs(cs: seq<Chan>, per: nat, first: nat, geo: Geometry)
    requires cs != [] && ChansOk(cs, first, geo)
    ensures Quota(cs[0], per) == if geo.nluns == 0 then 0 else Min(per / geo.nluns, geo.nblocks - cs[0].level)
  {
  }

  lemma {:induction false} LaterIds(cs: seq<Chan>, per: nat, want: nat, first: nat, geo: Geometry)
    requires ChansOk(cs, first, geo)
    ensures forall i :: i in Ids(SharedAlloc(cs, per, want).1) ==> i >= first
  {
    var ids := Ids(SharedAlloc(cs, per, want).1);
    SharedIds(cs, per, want, first, geo);
    forall i | i in ids ensures i >= first {
      var k :| 0 <= k < |ids| && ids[k] == i;
    }
  }

  /** What is left: a granted channel is that far on, every other is as it was. */
  lemma SharedRequestLeaves(u: UnitState, want: nat, req: AllocRequest, i: nat)
    requires UnitStateOk(u) && req.shared == 1 && want > 0 && i < |u.shared|
    ensures var r := UnitAlloc(u, want, req); var c := u.shared[i];
            && |r.0.shared| == |u.shared|
            && var d := r.0.shared[i];
               && d == c.(level := d.level)
               && if i in Ids(r.1)
                  then u.geo.nluns > 0
                       && var asked, left := req.blocks / want / u.geo.nluns, u.geo.nblocks - c.level;
                          d.level == c.level + if asked <= left then asked else left
                  else d.level == c.level
  {
    hide SharedAlloc, Ids;
    SharedLevelAt(u.shared, req.blocks / want, want, 0, u.geo, i);
  }

  lemma {:induction false} EqualTotals(g: seq<VChannel>, total: nat)
    requires forall k :: 0 <= k < |g| ==> g[k].total == total
    ensures TotalBlocks(g) == total * |g|
  {
    if g != [] {
      EqualTotals(g[1..], total);
      MulSucc(total, |g[1..]|);
    }
  }

  /** Met in full: while enough shared channels are open and no open one has less left than its
      share, the request gets `share` blocks of every LUN of `want` channels. */
  lemma SharedRequestMet(u: UnitState, want: nat, req: AllocRequest, share: nat)
    requires UnitStateOk(u) && req.shared == 1 && want > 0 && u.geo.nluns > 0
    requires share == req.blocks / want / u.geo.nluns && share >= 1 && OpenChans(u.shared) >= want
    requires forall i :: 0 <= i < |u.shared| && u.shared[i].level < u.geo.nblocks ==>
               u.shared[i].level + share <= u.geo.nblocks
    ensures var g := UnitAlloc(u, want, req).1; |g| == want && TotalBlocks(g) == u.geo.nluns * share * want
  {
    hide SharedAlloc, OpenChans, TotalBlocks, Open;
    SharedRequestIsGreedy(u, want, req);
    SharedRequestPicks(u, want, req);
    var g := UnitAlloc(u, want, req).1;
    forall k | 0 <= k < |g| ensures g[k].total == u.geo.nluns * share {
      SharedRequestGets(u, want, req, k);
      assert Ids(g)[k] == g[k].id;
      OpenHasBlocks(u, req.blocks / want, g[k].id);
    }
    EqualTotals(g, u.geo.nluns * share);
  }

  lemma OpenHasBlocks(u: UnitState, per: nat, id: nat)
    requires UnitStateOk(u) && id in Open(u.shared, u.geo, per)
    ensures id < |u.shared| && u.shared[id].level < u.geo.nblocks
  {
  }

  // ---------------------------------------------------------------- exclusive channels

  ghost function Free(cs: seq<Chan>): iset<nat> { iset i | 0 <= i < |cs| && !cs[i].taken :: cs[i].id }

  lemma FreeCons(cs: seq<Chan>, first: nat, geo: Geometry)
    requires cs != [] && ChansOk(cs, first, geo)
    ensures var a, b := Free(cs), Free(cs[1..]);
            && (forall i :: i in b ==> i > first)
            && (if cs[0].taken then a == b else forall i :: i in a <==> i == first || i in b)
            && (!cs[0].taken ==> first in a)
  {
    var a, b := Free(cs), Free(cs[1..]);
    forall i | i in b ensures i in a && i > first {
      var k :| 0 <= k < |cs[1..]| && !cs[1..][k].taken && cs[1..][k].id == i;
      assert cs[k + 1] == cs[1..][k];
    }
    forall i | i in a && i != first ensures i in b {
      var k :| 0 <= k < |cs| && !cs[k].taken && cs[k].id == i;
      assert cs[k] == cs[1..][k - 1];
    }
  }

  lemma {:induction false} ExclusiveIds(cs: seq<Chan>, want: nat, first: nat, geo: Geometry)
    requires ChansOk(cs, first, geo)
    ensures Smallest(Ids(ExclusiveAlloc(cs, want).1), Free(cs), want)
    decreases |cs|
  {
    var g := ExclusiveAlloc(cs, want).1;
    if cs != [] && want > 0 {
      var want' := if cs[0].taken then want else want - 1;
      ExclusiveIds(cs[1..], want', first + 1, geo);
      var tail := ExclusiveAlloc(cs[1..], want').1;
      FreeCons(cs, first, geo);
      if !cs[0].taken {
        assert Ids(g) == [first] + Ids(tail);
        SmallestCons(first, Ids(tail), Free(cs), Free(cs[1..]), want');
      }
    }
  }

  lemma {:induction false} ExclusiveGrantAt(cs: seq<Chan>, want: nat, first: nat, geo: Geometry, k: nat)
    requires ChansOk(cs, first, geo) && k < |ExclusiveAlloc(cs, want).1|
    ensures var g := ExclusiveAlloc(cs, want).1[k];
            g == VChannel(g.id, 0, geo.nblocks * geo.nluns, geo.nluns, []) && first <= g.id < first + |cs|
    decreases |cs|
  {
    if cs[0].taken {
      ExclusiveGrantAt(cs[1..], want, first + 1, geo, k);
    } else if k > 0 {
      ExclusiveGrantAt(cs[1..], want - 1, first + 1, geo, k - 1);
    }
  }

  lemma {:induction false} ExclusiveMarkAt(cs: seq<Chan>, want: nat, first: nat, geo: Geometry, i: nat)
    requires ChansOk(cs, first, geo) && i < |cs|
    ensures var r := ExclusiveAlloc(cs, want);
            r.0[i] == if first + i in Ids(r.1) then cs[i].(taken := true) else cs[i]
    decreases |cs|
  {
    hide ExclusiveAlloc, Ids;
    if want == 0 {
      NoneTaken(cs);
    } else {
      var want' := if cs[0].taken then want else want - 1;
      ExclusiveStep(cs, want);
      if i > 0 {
        ExclusiveMarkAt(cs[1..], want', first + 1, geo, i - 1);
        assert cs[i] == cs[1..][i - 1];
      } else {
        LaterExclusiveIds(cs[1..], want', first + 1, geo);
      }
    }
  }

  /** One step of the exclusive walk. */
  lemma {:induction false} ExclusiveStep(cs: seq<Chan>, want: nat)
    requires cs != [] && want > 0
    ensures var tail := ExclusiveAlloc(cs[1..], if cs[0].taken then want else want - 1);
            && ExclusiveAlloc(cs, want).0 == [cs[0].(taken := true)] + tail.0
            && Ids(ExclusiveAlloc(cs, want).1) == (if cs[0].taken then [] else [cs[0].id]) + Ids(tail.1)
  {
  }

  lemma {:induction false} LaterExclusiveIds(cs: seq<Chan>, want: nat, first: nat, geo: Geometry)
    requires ChansOk(cs, first, geo)
    ensures forall i :: i in Ids(ExclusiveAlloc(cs, want).1) ==> i >= first
  {
    hide ExclusiveAlloc;
    var g := ExclusiveAlloc(cs, want).1;
    forall k | 0 <= k < |g| ensures g[k].id >= first { ExclusiveGrantAt(cs, want, first, geo, k); }
  }

  /** Any other request gets, of this device, the first `want` exclusive channels nobody has, or all
      if there are fewer. */
  lemma ExclusiveRequestPicks(u: UnitState, want: nat, req: AllocRequest)
    requires UnitStateOk(u) && req.shared != 1
    ensures var r := UnitAlloc(u, want, req);
            && Smallest(Ids(r.1), Free(u.exclusive), want)
            && |r.0.exclusive| == |u.exclusive| && r.0.shared == u.shared
  {
    hide Smallest, Free, ExclusiveAlloc;
    ExclusiveIds(u.exclusive, want, |u.shared|, u.geo);
    NoneTaken(u.exclusive);
  }

  lemma {:induction false} NoneTaken(cs: seq<Chan>)
    ensures ExclusiveAlloc(cs, 0) == (cs, []) && Ids([]) == []
  {
  }

  /** Each of them whole. */
  lemma ExclusiveRequestGets(u: UnitState, want: nat, req: AllocRequest, k: nat)
    requires UnitStateOk(u) && req.shared != 1 && k < |UnitAlloc(u, want, req).1|
    ensures var g := UnitAlloc(u, want, req).1[k];
            g == VChannel(g.id, 0, u.geo.nblocks * u.geo.nluns, u.geo.nluns, [])
  {
    hide ExclusiveAlloc;
    ExclusiveGrantAt(u.exclusive, want, |u.shared|, u.geo, k);
  }

  /** They are taken from then on, every other is as it was. */
  lemma ExclusiveRequestLeaves(u: UnitState, want: nat, req: AllocRequest, i: nat)
    requires UnitStateOk(u) && req.shared != 1 && i < |u.exclusive|
    ensures var r := UnitAlloc(u, want, req); var c := u.exclusive[i];
            |r.0.exclusive| == |u.exclusive|
            && r.0.exclusive[i] == if c.id in Ids(r.1) then c.(taken := true) else c
  {
    hide ExclusiveAlloc, Ids;
    ExclusiveMarkAt(u.exclusive, want, |u.shared|, u.geo, i);
    NoneTaken(u.exclusive);
  }

  // ---------------------------------------------------------------- the node

  /** The node's first `k` devices alone. */
  function FirstDevices(s: System, k: nat): System
    requires k <= |s.units|
  {
    System(s.units[..k], s.nextId)
  }

  lemma {:induction false} UnitsAllocSnoc(us: seq<UnitState>, u: UnitState, want: nat, req: AllocRequest)
    ensures var a := UnitsAlloc(us, want, req); var b := UnitsAlloc(us + [u], want, req);
            && ChannelCount(a.1) <= want
            && var r := UnitAlloc(u, want - ChannelCount(a.1), req);
               b == (a.0 + [r.0], a.1 + AsUnit(u, r.1))
    decreases |us|
  {
    hide UnitAlloc, AsUnit;
    NothingWanted(u, req);
    NoneGranted(u);
    if us == [] {
      assert us + [u] == [u] && [u][1..] == [];
      var r := UnitAlloc(u, want, req);
      assert [r.0] + [] == [] + [r.0] && AsUnit(u, r.1) + [] == [] + AsUnit(u, r.1);
    } else if want == 0 {
      var none: seq<VUnit> := [];
      assert none + [] == none;
    } else {
      assert (us + [u])[0] == us[0] && (us + [u])[1..] == us[1..] + [u];
      var first := UnitAlloc(us[0], want, req);
      var left := want - |first.1|;
      UnitsAllocSnoc(us[1..], u, left, req);
      var rest := UnitsAlloc(us[1..], left, req);
      CountFirst(us[0], first.1, rest.1);
      var r := UnitAlloc(u, left - ChannelCount(rest.1), req);
      assert [first.0] + (rest.0 + [r.0]) == [first.0] + rest.0 + [r.0];
      var head, last := AsUnit(us[0], first.1), AsUnit(u, r.1);
      assert head + (rest.1 + last) == head + rest.1 + last;
    }
  }

  lemma NoneGranted(u: UnitState)
    ensures AsUnit(u, []) == [] && ChannelCount([]) == 0
  {
  }

  lemma {:induction false} CountFirst(u: UnitState, first: seq<VChannel>, rest: seq<VUnit>)
    ensures ChannelCount(AsUnit(u, first) + rest) == |first| + ChannelCount(rest)
  {
    var g := AsUnit(u, first) + rest;
    if first == [] {
      assert g == rest;
    } else {
      assert g[1..] == rest;
    }
  }

  /** Devices are served in the order they were added: without any device nothing is granted, and
      one more device changes nothing for the ones before it, is asked for the channels they left
      open, and is listed behind them, under its own name and geometry, if it gives any. */
  lemma NextDeviceGets(s: System, req: AllocRequest, k: nat)
    requires k < |s.units|
    ensures Alloc(FirstDevices(s, 0), req).1 == VSsd(s.nextId, [])
    ensures var a, b := Alloc(FirstDevices(s, k), req), Alloc(FirstDevices(s, k + 1), req);
            && ChannelCount(a.1.units) <= req.channels
            && var u := s.units[k]; var r := UnitAlloc(u, req.channels - ChannelCount(a.1.units), req);
               && b.0.units == a.0.units + [r.0]
               && b.1.units == a.1.units + (if r.1 == [] then [] else [VUnit(u.name, u.geo, r.1)])
    ensures FirstDevices(s, |s.units|) == s
  {
    hide UnitsAlloc, UnitAlloc;
    UnitsAllocSnoc(s.units[..k], s.units[k], req.channels, req);
    assert s.units[..k] + [s.units[k]] == s.units[..k + 1];
    EmptyNode(req);
    assert s.units[..|s.units|] == s.units;
  }

  lemma {:induction false} EmptyNode(req: AllocRequest)
    ensures UnitsAlloc([], req.channels, req) == ([], [])
  {
  }
}
