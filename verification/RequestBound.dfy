/** When a shared request never gets more blocks than it asked for, over all units of a node
    together. The walk over the units shrinks the channel count of the request but not its block
    count, so a later unit may give a larger share. */
module RequestBound {
  import opened Bytes
  import opened VirtualSsd
  import opened Requests
  import opened Allocation
  import opened Ownership
  import opened Accounting
  import opened DeviceNames

  function ChannelBlocks(g: Geometry): nat { g.nluns * g.nblocks }

  /** A device `b` behind a device `a` cannot push a request over its block count: one whole
      channel of `b` is no larger than the least share of a channel of `a`, or `a` has so many
      LUNs that no 32-bit block count serves two channels of it. */
  predicate Fits(a: Geometry, b: Geometry) { ChannelBlocks(b) <= a.nluns || 2 * a.nluns >= TWO_32 }

  predicate Tapering(us: seq<UnitState>) {
    forall i, j :: 0 <= i < j < |us| && HasBlocks(us[i]) && HasBlocks(us[j]) ==> Fits(us[i].geo, us[j].geo)
  }

  // ---------------------------------------------------------------- sufficient

  lemma {:induction false} ChannelsCapped(cs: seq<VChannel>, geo: Geometry, cap: nat)
    requires GrantedChannels(cs, geo) && ChannelBlocks(geo) <= cap
    ensures TotalBlocks(cs) <= cap * |cs|
  {
    hide GrantedChannel, ChannelBlocks;
    if cs != [] {
      ChannelsCapped(cs[1..], geo, cap);
      ChannelCapped(cs[0], geo);
      MulSucc(cap, |cs[1..]|);
    }
  }

  lemma ChannelCapped(c: VChannel, geo: Geometry)
    requires GrantedChannel(c, geo)
    ensures c.total <= ChannelBlocks(geo)
  {
    hide LunRow;
    if c.shared == 1 { MulMono(geo.nluns, c.luns[0].count, geo.nblocks); }
  }

  /** If no channel holds more than `cap` blocks, `want` channels hold at most `cap * want`. */
  lemma {:induction false} NodeCapped(us: seq<UnitState>, want: nat, req: AllocRequest, cap: nat)
    requires want < TWO_32 && forall i :: 0 <= i < |us| ==> UnitStateOk(us[i])
    requires forall i :: 0 <= i < |us| && HasBlocks(us[i]) ==> ChannelBlocks(us[i].geo) <= cap
    ensures BlocksOf(UnitsAlloc(us, want, req).1) <= cap * want
    decreases |us|
  {
    hide UnitStateOk, UnitAlloc, TotalBlocks, ChannelBlocks;
    if us != [] && want > 0 {
      var first := UnitAlloc(us[0], want, req).1;
      var rest := UnitsAlloc(us[1..], want - |first|, req).1;
      NodeCapped(us[1..], want - |first|, req, cap);
      UnitCapped(us[0], want, req, cap);
      GrantConcat(us[0], first, rest);
      MulPlus(cap, |first|, want - |first|);
    }
  }

  lemma {:induction false} GrantConcat(u: UnitState, first: seq<VChannel>, rest: seq<VUnit>)
    ensures BlocksOf(AsUnit(u, first) + rest) == TotalBlocks(first) + BlocksOf(rest)
  {
    var g := AsUnit(u, first) + rest;
    if first == [] {
      assert g == rest;
    } else {
      assert g[1..] == rest;
    }
  }

  lemma UnitCapped(u: UnitState, want: nat, req: AllocRequest, cap: nat)
    requires UnitStateOk(u) && want < TWO_32 && (HasBlocks(u) ==> ChannelBlocks(u.geo) <= cap)
    ensures var g := UnitAlloc(u, want, req).1; TotalBlocks(g) <= cap * |g|
  {
    hide UnitStateOk, UnitAlloc, TotalBlocks;
    var g := UnitAlloc(u, want, req).1;
    UnitAllocGrants(u, want, req);
    if g == [] {
      NoBlocks();
    } else {
      assert GrantedChannel(g[0], u.geo);
      assert ChannelBlocks(u.geo) <= cap;
      ChannelsCapped(g, u.geo, cap);
    }
  }

  lemma {:induction false} TaperingSuffices(us: seq<UnitState>, want: nat, req: AllocRequest)
    requires want < TWO_32 && req.shared == 1 && Tapering(us) && forall i :: 0 <= i < |us| ==> UnitStateOk(us[i])
    ensures BlocksOf(UnitsAlloc(us, want, req).1) <= req.blocks
    decreases |us|
  {
    hide UnitStateOk, UnitAlloc, TotalBlocks, ChannelBlocks;
    if us != [] && want > 0 {
      var first := UnitAlloc(us[0], want, req).1;
      var left := want - |first|;
      var rest := UnitsAlloc(us[1..], left, req).1;
      GrantConcat(us[0], first, rest);
      if first == [] {
        NoBlocks();
        assert Tapering(us[1..]);
        TaperingSuffices(us[1..], left, req);
      } else {
        var per := req.blocks / want;
        FirstGiver(us[0], want, req);
        if left > 0 {
          NodeCapped(us[1..], left, req, per) by { LaterCapped(us, per); }
        }
        MulPlus(per, |first|, left);
        DivTimes(req.blocks, want);
      }
    }
  }

  /** A unit that gives anything was offered at least one block per LUN, and no channel gave
      more than the share; with a huge LUN count only one channel can have been asked for. */
  lemma FirstGiver(u: UnitState, want: nat, req: AllocRequest)
    requires UnitStateOk(u) && req.shared == 1 && 0 < want && UnitAlloc(u, want, req).1 != []
    ensures var g := UnitAlloc(u, want, req).1; var per := req.blocks / want;
            && HasBlocks(u) && u.geo.nluns <= per && TotalBlocks(g) <= per * |g|
            && (2 * u.geo.nluns >= TWO_32 ==> want == 1)
  {
    hide SharedAlloc, TotalBlocks, OpenChans;
    var per := req.blocks / want;
    SharedRequestIsGreedy(u, want, req);
    assert per / u.geo.nluns >= 1;
    OpenNeedsBlocks(u);
    SharedShare(u.shared, per, want);
    if want >= 2 { HalfShare(req.blocks, want); }
  }

  lemma HalfShare(a: nat, want: nat)
    requires want >= 2
    ensures 2 * (a / want) <= a
  {
    DivTimes(a, want);
    MulMono(a / want, 2, want);
  }

  lemma OpenNeedsBlocks(u: UnitState)
    requires UnitStateOk(u) && OpenChans(u.shared) > 0
    ensures HasBlocks(u)
  {
    var i := OpenSomewhere(u.shared);
    OpenChan(u.shared[i]);
  }

  lemma {:induction false} SharedShare(cs: seq<Chan>, per: nat, want: nat)
    ensures var g := SharedAlloc(cs, per, want).1; TotalBlocks(g) <= per * |g|
  {
    hide Quota, LunRow;
    if cs != [] && want > 0 {
      var q := Quota(cs[0], per);
      QuotaBounds(cs[0], per);
      var tail := SharedAlloc(cs[1..], per, if q > 0 then want - 1 else want).1;
      SharedShare(cs[1..], per, if q > 0 then want - 1 else want);
      MulSucc(per, |tail|);
    }
  }

  lemma LaterCapped(us: seq<UnitState>, per: nat)
    requires us != [] && Tapering(us) && HasBlocks(us[0]) && us[0].geo.nluns <= per && 2 * us[0].geo.nluns < TWO_32
    ensures forall i :: 0 <= i < |us[1..]| && HasBlocks(us[1..][i]) ==> ChannelBlocks(us[1..][i].geo) <= per
  {
    hide ChannelBlocks;
    forall i | 0 <= i < |us[1..]| && HasBlocks(us[1..][i]) ensures ChannelBlocks(us[1..][i].geo) <= per {
      assert us[1..][i] == us[i + 1];
      assert Fits(us[0].geo, us[i + 1].geo);
    }
  }

  // ---------------------------------------------------------------- closing channels one by one

  function OpenAll(us: seq<UnitState>, n: nat): nat {
    if us == [] || n == 0 then 0 else OpenChans(us[0].shared) + OpenAll(us[1..], n - 1)
  }

  lemma {:induction false} GreedyClosesOne(cs: seq<Chan>, first: nat, geo: Geometry)
    requires ChansOk(cs, first, geo) && SharedOnly(cs) && GeoOk(geo) && OpenChans(cs) > 0
    ensures OpenChans(SharedAlloc(cs, GREEDY.blocks, 1).0) == OpenChans(cs) - 1
  {
    var c, q := cs[0], Quota(cs[0], GREEDY.blocks);
    OpenChan(c);
    if q > 0 {
      QuotaIsLargest(c, GREEDY.blocks, c.blocks - c.level) by {
        MulMono(c.luns, c.blocks - c.level, c.blocks);
      }
      var after := c.(level := c.level + q);
      assert after.level == c.blocks && FreeChan(after) == 0;
      assert ([after] + cs[1..])[1..] == cs[1..];
    } else {
      if FreeChan(c) > 0 { QuotaIsLargest(c, GREEDY.blocks, 1); }
      GreedyClosesOne(cs[1..], first + 1, geo);
      var tail := SharedAlloc(cs[1..], GREEDY.blocks, 1).0;
      assert ([c] + tail)[1..] == tail;
    }
  }

  lemma GreedyUnit(u: UnitState)
    requires UnitStateOk(u)
    ensures var r := UnitAlloc(u, 1, GREEDY);
            if OpenChans(u.shared) == 0 then r == (u, [])
            else |r.1| == 1 && OpenChans(r.0.shared) == OpenChans(u.shared) - 1
  {
    hide OpenChans, SharedAlloc;
    assert GREEDY.blocks / 1 == GREEDY.blocks;
    if OpenChans(u.shared) == 0 {
      ClosedUnit(u, 1, GREEDY);
    } else {
      GreedyClosesOne(u.shared, 0, u.geo);
      OpenNeedsLuns(u);
      SharedRequestIsGreedy(u, 1, GREEDY);
    }
  }

  lemma {:induction false} ClosedWalk(cs: seq<Chan>, per: nat, want: nat)
    requires SharedOnly(cs) && OpenChans(cs) == 0
    ensures SharedAlloc(cs, per, want) == (cs, [])
  {
    if cs != [] && want > 0 {
      OpenChan(cs[0]);
      ClosedWalk(cs[1..], per, want);
      assert cs == [cs[0]] + cs[1..];
    }
  }

  /** A unit without an open shared channel is passed over. */
  lemma ClosedUnit(u: UnitState, want: nat, req: AllocRequest)
    requires UnitStateOk(u) && OpenChans(u.shared) == 0 && req.shared == 1
    ensures UnitAlloc(u, want, req) == (u, [])
  {
    hide OpenChans, SharedAlloc;
    if want > 0 { ClosedWalk(u.shared, req.blocks / want, want); }
  }

  /** While more than one channel is open up to unit `i`, the greedy request closes one of them,
      leaves one open in unit `i`, and touches no later unit. */
  lemma {:induction false} GreedyNarrows(us: seq<UnitState>, i: nat)
    requires (forall k :: 0 <= k < |us| ==> UnitStateOk(us[k])) && i < |us|
    requires OpenChans(us[i].shared) > 0 && OpenAll(us, i + 1) > 1
    ensures var r := UnitsAlloc(us, 1, GREEDY).0;
            && OpenChans(r[i].shared) > 0 && OpenAll(r, i + 1) == OpenAll(us, i + 1) - 1
            && r[i + 1..] == us[i + 1..]
    decreases |us|
  {
    hide UnitStateOk, OpenChans, UnitAlloc;
    var first := UnitAlloc(us[0], 1, GREEDY);
    var rest := UnitsAlloc(us[1..], 1 - |first.1|, GREEDY).0;
    GreedyUnit(us[0]);
    var r := [first.0] + rest;
    assert r[1..] == rest;
    if OpenChans(us[0].shared) > 0 {
      assert rest == us[1..];
      assert OpenAll(us[1..], 0) == 0;
      assert r[i + 1..] == rest[i..] == us[i + 1..];
    } else {
      assert us[1..][i - 1] == us[i];
      GreedyNarrows(us[1..], i - 1);
      assert r[i + 1..] == rest[i..] && us[1..][i..] == us[i + 1..];
      assert r[i] == rest[i - 1];
    }
  }

  /** Some request sequence leaves exactly one shared channel open up to unit `i`, in unit `i`,
      and everything behind it untouched. */
  lemma {:induction false} Narrow(s: System, i: nat) returns (ops: seq<Op>)
    requires SystemOk(s) && i < |s.units| && OpenChans(s.units[i].shared) > 0
    ensures OnlyRequests(ops)
    ensures var t := Run(s, ops).0;
            && SystemOk(t) && SameDevices(s.units, t.units) && t.units[i + 1..] == s.units[i + 1..]
            && OpenChans(t.units[i].shared) == 1 && forall k :: 0 <= k < i ==> OpenChans(t.units[k].shared) == 0
    decreases OpenAll(s.units, i + 1)
  {
    hide UnitStateOk, OpenChans, UnitsAlloc, OpenAll;
    ops := [];
    OpenPart(s.units, i);
    if OpenAll(s.units, i + 1) > 1 {
      GreedyNarrows(s.units, i);
      AllocKeepsDevices(s, GREEDY);
      var rest := Narrow(Alloc(s, GREEDY).0, i);
      ops := [Request(GREEDY)] + rest;
      OneRequest(s, GREEDY, rest);
    }
  }

  lemma {:induction false} OpenPart(us: seq<UnitState>, i: nat)
    requires i < |us|
    ensures OpenChans(us[i].shared) <= OpenAll(us, i + 1)
    ensures OpenChans(us[i].shared) > 0 && OpenAll(us, i + 1) <= 1 ==>
              OpenChans(us[i].shared) == 1 && forall k :: 0 <= k < i ==> OpenChans(us[k].shared) == 0
  {
    hide OpenChans;
    if i > 0 {
      OpenPart(us[1..], i - 1);
      forall k | 0 < k < i ensures us[k] == us[1..][k - 1] {}
    }
  }

  // ---------------------------------------------------------------- necessary

  lemma {:induction false} SkipClosed(us: seq<UnitState>, n: nat, want: nat, req: AllocRequest)
    requires n <= |us| && req.shared == 1 && forall k :: 0 <= k < |us| ==> UnitStateOk(us[k])
    requires forall k :: 0 <= k < n ==> OpenChans(us[k].shared) == 0
    ensures UnitsAlloc(us, want, req).1 == UnitsAlloc(us[n..], want, req).1
    decreases n
  {
    hide UnitStateOk, OpenChans, UnitAlloc;
    if n > 0 && want > 0 {
      ClosedUnit(us[0], want, req);
      SkipClosed(us[1..], n - 1, want, req);
      assert us[1..][n - 1..] == us[n..];
      var rest := UnitsAlloc(us[1..], want, req).1;
      assert AsUnit(us[0], []) + rest == rest;
    } else if n == 0 {
      assert us[0..] == us;
    }
  }

  /** The unit with one open channel gives at least one block per LUN and nothing more. */
  lemma LastChannelGives(u: UnitState, req: AllocRequest)
    requires UnitStateOk(u) && OpenChans(u.shared) == 1 && u.geo.nluns > 0
    requires req.shared == 1 && 2 * u.geo.nluns <= req.blocks
    ensures var g := UnitAlloc(u, 2, req).1; |g| == 1 && TotalBlocks(g) >= u.geo.nluns
  {
    hide OpenChans, SharedAlloc, LunRow;
    assert req.blocks / 2 >= u.geo.nluns;
    assert req.blocks / 2 / u.geo.nluns >= 1;
    SharedRequestIsGreedy(u, 2, req);
    SharedAllocGrants(u.shared, req.blocks / 2, 2, 0, u.geo);
    var g := UnitAlloc(u, 2, req).1;
    assert GrantedChannel(g[0], u.geo);
    assert g[1..] == [];
    MulMono(u.geo.nluns, 1, g[0].luns[0].count);
  }

  /** A fresh unit asked for one channel and at least that channel's blocks gives it whole. */
  lemma FreshChannelGives(name: seq<Byte>, geo: Geometry, req: AllocRequest)
    requires GeoOk(geo) && HoldsBlocks(geo) && req.shared == 1 && ChannelBlocks(geo) <= req.blocks
    ensures var g := UnitAlloc(FreshUnit(name, geo), 1, req).1; |g| == 1 && TotalBlocks(g) == ChannelBlocks(geo)
  {
    hide LunRow;
    var cs := FreshUnit(name, geo).shared;
    var c := cs[0];
    assert req.blocks / 1 == req.blocks;
    QuotaIsLargest(c, req.blocks, geo.nblocks);
    assert Quota(c, req.blocks) == geo.nblocks;
    assert SharedAlloc(cs[1..], req.blocks, 0).1 == [];
    var g := [SharedGrant(c, geo.nblocks)];
    assert UnitAlloc(FreshUnit(name, geo), 1, req).1 == g + [] == g;
    assert g[1..] == [];
  }

  predicate Overtakes(us: seq<UnitState>, i: nat, j: nat) {
    i < j < |us| && HasBlocks(us[i]) && HasBlocks(us[j]) && !Fits(us[i].geo, us[j].geo)
  }

  /** Between two devices of which the later overtakes the earlier lie two that do so with no
      device holding blocks in between. */
  lemma {:induction false} Neighbours(us: seq<UnitState>, i: nat, j: nat) returns (a: nat, b: nat)
    requires Overtakes(us, i, j)
    ensures Overtakes(us, a, b) && forall k :: a < k < b ==> !HasBlocks(us[k])
    decreases j - i
  {
    a, b := i, j;
    if k :| i < k < j && HasBlocks(us[k]) {
      if Overtakes(us, i, k) {
        a, b := Neighbours(us, i, k);
      } else {
        MulMono(us[k].geo.nluns, 1, us[k].geo.nblocks);
        a, b := Neighbours(us, k, j);
      }
    }
  }

  lemma {:induction false} NoBlocksNoneOpen(cs: seq<Chan>, first: nat, geo: Geometry)
    requires ChansOk(cs, first, geo) && SharedOnly(cs) && (geo.nluns == 0 || geo.nblocks == 0)
    ensures OpenChans(cs) == 0
  {
    if cs != [] {
      OpenChan(cs[0]);
      NoBlocksNoneOpen(cs[1..], first + 1, geo);
    }
  }

  lemma BlocklessIsClosed(u: UnitState)
    requires UnitStateOk(u) && !HasBlocks(u)
    ensures OpenChans(u.shared) == 0
  {
    if u.shared != [] { NoBlocksNoneOpen(u.shared, 0, u.geo); }
  }

  /** The walk over `us`: closed units, one with a single open channel, closed units, a fresh
      one. Asked for two channels it gives more than a block count that either part stays within. */
  lemma {:induction false} TwoGivers(us: seq<UnitState>, i: nat, j: nat, req: AllocRequest)
    requires (forall k :: 0 <= k < |us| ==> UnitStateOk(us[k])) && i < j < |us|
    requires HasBlocks(us[i]) && HasBlocks(us[j]) && us[j] == FreshUnit(us[j].name, us[j].geo)
    requires OpenChans(us[i].shared) == 1
    requires forall k :: 0 <= k < j && k != i ==> OpenChans(us[k].shared) == 0
    requires req.shared == 1 && 2 * us[i].geo.nluns <= req.blocks && ChannelBlocks(us[j].geo) <= req.blocks
    ensures BlocksOf(UnitsAlloc(us, 2, req).1) >= us[i].geo.nluns + ChannelBlocks(us[j].geo)
  {
    hide UnitStateOk, OpenChans, UnitAlloc, UnitsAlloc, TotalBlocks, BlocksOf, ChannelBlocks, FreshUnit;
    SkipClosed(us, i, 2, req);
    assert us[i..][0] == us[i] && us[i..][1..] == us[i + 1..];
    HeadGives(us[i..], 2, req);
    LastChannelGives(us[i], req);
    var ws := us[i + 1..];
    forall k | 0 <= k < j - i - 1 ensures OpenChans(ws[k].shared) == 0 { assert ws[k] == us[i + 1 + k]; }
    assert ws[j - i - 1] == us[j];
    SecondGiver(ws, j - i - 1, req);
  }

  lemma HeadGives(us: seq<UnitState>, want: nat, req: AllocRequest)
    requires us != [] && want > 0
    ensures var first := UnitAlloc(us[0], want, req).1;
            BlocksOf(UnitsAlloc(us, want, req).1) ==
            TotalBlocks(first) + BlocksOf(UnitsAlloc(us[1..], want - |first|, req).1)
  {
    hide UnitAlloc, TotalBlocks;
    var first := UnitAlloc(us[0], want, req).1;
    GrantConcat(us[0], first, UnitsAlloc(us[1..], want - |first|, req).1);
  }

  lemma {:induction false} SecondGiver(us: seq<UnitState>, n: nat, req: AllocRequest)
    requires (forall k :: 0 <= k < |us| ==> UnitStateOk(us[k])) && n < |us|
    requires HasBlocks(us[n]) && us[n] == FreshUnit(us[n].name, us[n].geo)
    requires forall k :: 0 <= k < n ==> OpenChans(us[k].shared) == 0
    requires req.shared == 1 && ChannelBlocks(us[n].geo) <= req.blocks
    ensures BlocksOf(UnitsAlloc(us, 1, req).1) >= ChannelBlocks(us[n].geo)
  {
    hide UnitStateOk, OpenChans, UnitAlloc, UnitsAlloc, TotalBlocks, BlocksOf, ChannelBlocks, FreshUnit;
    SkipClosed(us, n, 1, req);
    assert us[n..][0] == us[n];
    HeadGives(us[n..], 1, req);
    GeoOfUnit(us[n]);
    FreshChannelGives(us[n].name, us[n].geo, req);
  }

  lemma GeoOfUnit(u: UnitState)
    requires UnitStateOk(u)
    ensures GeoOk(u.geo)
  {
  }

  lemma FreshIsOpen(u: UnitState)
    requires UnitStateOk(u) && HasBlocks(u) && u == FreshUnit(u.name, u.geo)
    ensures OpenChans(u.shared) > 0
  {
    OpenChan(u.shared[0]);
  }

  predicate StaysWithin(s: System, ops: seq<Op>, req: AllocRequest) {
    req.shared == 1 ==> BlocksOf(Alloc(Run(s, ops).0, req).1.units) <= req.blocks
  }

  lemma {:induction false} OvertakingExceeds(s: System, i: nat, j: nat) returns (ops: seq<Op>, req: AllocRequest)
    requires FreshNode(s.units) && Overtakes(s.units, i, j) && forall k :: i < k < j ==> !HasBlocks(s.units[k])
    ensures OnlyRequests(ops) && !StaysWithin(s, ops, req)
  {
    hide UnitStateOk, OpenChans, UnitsAlloc, Run, FreshUnit;
    FreshIsOpen(s.units[i]);
    ops := Narrow(s, i);
    var us := Run(s, ops).0.units;
    var luns, blocks := s.units[i].geo.nluns, ChannelBlocks(s.units[j].geo);
    GeoOfUnit(s.units[j]);
    var asked: U32 := Max(2 * luns, blocks);
    req := AllocRequest(2, asked, 1, 0, 0);
    forall k | i < k < |us| ensures us[k] == s.units[k] {
      assert us[i + 1..][k - i - 1] == s.units[i + 1..][k - i - 1];
    }
    forall k | i < k < j ensures OpenChans(us[k].shared) == 0 { BlocklessIsClosed(us[k]); }
    TwoGivers(us, i, j, req);
  }

  /** On a fresh node every shared request of every request sequence stays within the blocks it
      asked for if and only if no device that holds blocks is followed by one that overtakes it:
      nluns * nblocks of the later one at most nluns of the earlier one. */
  lemma {:induction false} NodeWithinRequestIff(s: System)
    requires FreshNode(s.units)
    ensures (forall ops, req :: OnlyRequests(ops) ==> StaysWithin(s, ops, req)) <==> Tapering(s.units)
  {
    hide UnitStateOk, Run, UnitsAlloc, FreshUnit;
    if Tapering(s.units) {
      forall ops, req | OnlyRequests(ops) ensures StaysWithin(s, ops, req) {
        RequestsKeepDevices(s, ops);
        if req.shared == 1 { TaperingSuffices(Run(s, ops).0.units, req.channels, req); }
      }
    } else {
      var i, j :| && 0 <= i < j < |s.units| && HasBlocks(s.units[i]) && HasBlocks(s.units[j])
                  && !Fits(s.units[i].geo, s.units[j].geo);
      var a, b := Neighbours(s.units, i, j);
      var ops, req := OvertakingExceeds(s, a, b);
    }
  }
}
