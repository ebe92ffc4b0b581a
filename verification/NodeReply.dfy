/** The size of an allocation reply on a node with any number of devices. */
module NodeReply {
  import opened Bytes
  import opened VirtualSsd
  import opened Requests
  import opened Allocation
  import opened Ownership
  import opened Accounting
  import opened ReplySize
  import opened DeviceNames
  import opened Grants
  import opened RequestBound

  /** Wire size of a device when all its shared channels are granted at once. */
  function SharedSize(u: UnitState): nat {
    if HasBlocks(u) then 80 + PaddedName(u.name) + Min(MAX_SHARED, u.geo.nchannels) * ChannelSize(1, u.geo) else 0
  }

  /** Wire size of a device when all its exclusive channels are granted at once. */
  function ExclusiveSize(u: UnitState): nat {
    if u.geo.nchannels <= MAX_SHARED then 0
    else 80 + PaddedName(u.name) + (u.geo.nchannels - MAX_SHARED) * ChannelSize(0, u.geo)
  }

  function SharedSizes(us: seq<UnitState>): nat {
    if us == [] then 0 else SharedSize(us[0]) + SharedSizes(us[1..])
  }

  function ExclusiveSizes(us: seq<UnitState>): nat {
    if us == [] then 0 else ExclusiveSize(us[0]) + ExclusiveSizes(us[1..])
  }

  /** The largest reply the node can produce. */
  function NodeReplyBound(us: seq<UnitState>): nat { 12 + Max(SharedSizes(us), ExclusiveSizes(us)) }

  // ---------------------------------------------------------------- upper bound

  lemma GrantLength(u: UnitState, want: nat, req: AllocRequest)
    requires UnitStateOk(u) && want < TWO_32
    ensures var g := UnitAlloc(u, want, req).1;
            LenUnits(AsUnit(u, g)) ==
              if g == [] then 0
              else 80 + PaddedName(u.name) + |g| * ChannelSize(if req.shared == 1 then 1 else 0, u.geo)
  {
    hide UnitStateOk, GrantedUnit, UnitAlloc, LenUnit;
    var g := UnitAlloc(u, want, req).1;
    var us := AsUnit(u, g);
    if g != [] {
      UnitAllocGrants(u, want, req);
      assert us[0] in us;
      GrantedUnitLength(us[0]);
      MarkOf(u, want, req);
      assert us[1..] == [];
    }
  }

  lemma MarkOf(u: UnitState, want: nat, req: AllocRequest)
    requires UnitStateOk(u)
    ensures var g := UnitAlloc(u, want, req).1;
            forall i :: 0 <= i < |g| ==> g[i].shared == if req.shared == 1 then 1 else 0
  {
    if want > 0 {
      SharedAllocGrants(u.shared, req.blocks / want, want, 0, u.geo);
      ExclusiveAllocGrants(u.exclusive, want, |u.shared|, u.geo);
    }
  }

  lemma UnitReplyWithin(u: UnitState, want: nat, req: AllocRequest)
    requires UnitStateOk(u) && want < TWO_32
    ensures LenUnits(AsUnit(u, UnitAlloc(u, want, req).1)) <=
            if req.shared == 1 then SharedSize(u) else ExclusiveSize(u)
  {
    hide SharedAlloc, ExclusiveAlloc, LenUnits, ChannelSize, OpenChans;
    GrantLength(u, want, req);
    var g := UnitAlloc(u, want, req).1;
    if want > 0 && g != [] {
      GrantsAtMostAll(u.shared, req.blocks / want, want);
      GrantsAtMostAll(u.exclusive, 0, want);
      if req.shared == 1 {
        FirstGiver(u, want, req);
        MulMono(ChannelSize(1, u.geo), |g|, |u.shared|);
      } else {
        MulMono(ChannelSize(0, u.geo), |g|, |u.exclusive|);
      }
    }
  }

  lemma {:induction false} LenConcat(us: seq<VUnit>, vs: seq<VUnit>)
    ensures LenUnits(us + vs) == LenUnits(us) + LenUnits(vs)
  {
    if us == [] {
      assert us + vs == vs;
    } else {
      assert (us + vs)[1..] == us[1..] + vs;
      LenConcat(us[1..], vs);
    }
  }

  lemma {:induction false} UnitsReplyWithin(us: seq<UnitState>, want: nat, req: AllocRequest)
    requires want < TWO_32 && forall i :: 0 <= i < |us| ==> UnitStateOk(us[i])
    ensures LenUnits(UnitsAlloc(us, want, req).1) <= if req.shared == 1 then SharedSizes(us) else ExclusiveSizes(us)
    decreases |us|
  {
    hide UnitStateOk, UnitAlloc, SharedSize, ExclusiveSize, AsUnit;
    if us != [] && want > 0 {
      var first := UnitAlloc(us[0], want, req).1;
      UnitReplyWithin(us[0], want, req);
      UnitsReplyWithin(us[1..], want - |first|, req);
      LenConcat(AsUnit(us[0], first), UnitsAlloc(us[1..], want - |first|, req).1);
    }
  }

  lemma {:induction false} SameSizes(us: seq<UnitState>, vs: seq<UnitState>)
    requires SameDevices(us, vs)
    ensures NodeReplyBound(us) == NodeReplyBound(vs)
    ensures SharedSizes(us) == SharedSizes(vs) && ExclusiveSizes(us) == ExclusiveSizes(vs)
    decreases |us|
  {
    if us != [] {
      assert SameDevices(us[1..], vs[1..]);
      SameSizes(us[1..], vs[1..]);
    }
  }

  /** No reply of a node is longer than its bound, whatever has been granted before. */
  lemma NodeReplyWithin(s: System, req: AllocRequest)
    requires SystemOk(s)
    ensures LenSsd(Alloc(s, req).1) <= NodeReplyBound(s.units)
  {
    hide UnitStateOk;
    UnitsReplyWithin(s.units, req.channels, req);
  }

  // ---------------------------------------------------------------- the bound is reached

  lemma {:induction false} SixteenEach(us: seq<VUnit>)
    requires forall i :: 0 <= i < |us| ==> GrantedUnit(us[i])
    ensures LenUnits(us) >= 16 * ChannelCount(us)
  {
    hide GrantedUnit, LenUnit;
    if us != [] {
      SixteenEach(us[1..]);
      UnitSixteen(us[0]);
    }
  }

  lemma UnitSixteen(u: VUnit)
    requires GrantedUnit(u)
    ensures LenUnit(u) >= 16 * |u.channels|
  {
    hide GrantedUnit, LenUnit;
    GrantedUnitLength(u);
    var k := ChannelSize(u.channels[0].shared, u.geo) by { NotEmpty(u); }
    MulMono(|u.channels|, 16, k);
  }

  lemma NotEmpty(u: VUnit)
    requires GrantedUnit(u)
    ensures u.channels != []
  {
  }

  lemma FreshOpen(u: UnitState)
    requires UnitStateOk(u) && u == FreshUnit(u.name, u.geo)
    ensures OpenChans(u.shared) == if HasBlocks(u) then |u.shared| else 0
    ensures Unused(u.exclusive) == |u.exclusive|
  {
    hide UnitStateOk;
    var n := Min(MAX_SHARED, u.geo.nchannels);
    if HasBlocks(u) {
      OpenFresh(0, n, u.geo);
    } else {
      BlocklessIsClosed(u);
    }
    UnusedFresh(n, u.geo.nchannels - n, u.geo);
  }

  lemma {:induction false} UnusedFresh(first: nat, n: nat, geo: Geometry)
    ensures Unused(FreshChans(first, n, geo)) == n
    decreases n
  {
    if n > 0 {
      assert FreshChans(first, n, geo)[1..] == FreshChans(first + 1, n - 1, geo);
      UnusedFresh(first + 1, n - 1, geo);
    }
  }

  /** Asked for at least all of them, a fresh node gives all its exclusive channels. */
  lemma {:induction false} ExclusiveServesAll(us: seq<UnitState>, want: nat, req: AllocRequest)
    requires FreshNode(us) && req.shared != 1 && UnusedAll(us) <= want < TWO_32
    ensures LenUnits(UnitsAlloc(us, want, req).1) == ExclusiveSizes(us)
    decreases |us|
  {
    hide UnitStateOk, UnitAlloc, FreshUnit, Unused, AsUnit, ExclusiveSize;
    if us != [] {
      var u := us[0];
      FreshOpen(u);
      ExclusiveUnitAll(u, want, req);
      var first := UnitAlloc(u, want, req).1;
      ExclusiveServesAll(us[1..], want - |first|, req);
      LenConcat(AsUnit(u, first), UnitsAlloc(us[1..], want - |first|, req).1);
      if want == 0 { NothingWanted(u, req); NoUnitsLen(u); EmptyAlloc(us[1..], req); }
    }
  }

  lemma {:induction false} EmptyAlloc(us: seq<UnitState>, req: AllocRequest)
    ensures UnitsAlloc(us, 0, req).1 == []
  {
  }

  lemma NoUnitsLen(u: UnitState)
    ensures LenUnits(AsUnit(u, [])) == 0 && LenUnits([]) == 0
  {
  }

  lemma ExclusiveUnitAll(u: UnitState, want: nat, req: AllocRequest)
    requires UnitStateOk(u) && req.shared != 1 && Unused(u.exclusive) == |u.exclusive| <= want < TWO_32
    ensures var g := UnitAlloc(u, want, req).1; |g| == |u.exclusive| && LenUnits(AsUnit(u, g)) == ExclusiveSize(u)
  {
    hide ExclusiveAlloc, LenUnits, Unused, ChannelSize;
    GrantLength(u, want, req);
    ExclusiveAllocIsGreedy(u.exclusive, want);
  }

  function OpenTotal(us: seq<UnitState>): nat {
    if us == [] then 0 else OpenChans(us[0].shared) + OpenTotal(us[1..])
  }

  predicate Affordable(us: seq<UnitState>, want: nat, blocks: nat) {
    forall i :: 0 <= i < |us| && HasBlocks(us[i]) ==> us[i].geo.nluns * want <= blocks
  }

  lemma SharedUnitServes(u: UnitState, want: nat, req: AllocRequest)
    requires UnitStateOk(u) && u == FreshUnit(u.name, u.geo) && req.shared == 1 && want < TWO_32
    requires HasBlocks(u) ==> u.geo.nluns * want <= req.blocks
    ensures var g := UnitAlloc(u, want, req).1;
            && |g| == Min(want, OpenChans(u.shared))
            && (OpenChans(u.shared) <= want ==> LenUnits(AsUnit(u, g)) == SharedSize(u))
  {
    hide FreshUnit, SharedAlloc, LenUnits, ChannelSize, OpenChans;
    FreshOpen(u);
    GrantLength(u, want, req);
    if want > 0 {
      if HasBlocks(u) {
        DivAtLeast(req.blocks, want, u.geo.nluns);
        DivAtLeast(req.blocks / want, u.geo.nluns, 1);
        SharedRequestIsGreedy(u, want, req);
      } else {
        ClosedUnit(u, want, req);
      }
    }
  }

  lemma DivAtLeast(a: nat, b: nat, q: nat)
    requires b > 0 && q * b <= a
    ensures a / b >= q
  {
    if a / b < q { MulMono(b, a / b + 1, q); }
  }

  /** A fresh node gives a shared request it can afford as many channels as asked or as there are. */
  lemma {:induction false} SharedServes(us: seq<UnitState>, want: nat, req: AllocRequest)
    requires FreshNode(us) && req.shared == 1 && Affordable(us, want, req.blocks) && want < TWO_32
    ensures var g := UnitsAlloc(us, want, req).1;
            && ChannelCount(g) == Min(want, OpenTotal(us))
            && (OpenTotal(us) <= want ==> LenUnits(g) == SharedSizes(us))
    decreases |us|
  {
    hide UnitStateOk, UnitAlloc, FreshUnit, OpenChans, AsUnit, SharedSize;
    if us != [] {
      var u := us[0];
      SharedUnitServes(u, want, req);
      var first := UnitAlloc(u, want, req).1;
      var left := want - |first|;
      var rest := UnitsAlloc(us[1..], left, req).1;
      assert Affordable(us[1..], left, req.blocks) by { LessIsAffordable(us, left, want, req.blocks); }
      SharedServes(us[1..], left, req);
      LenConcat(AsUnit(u, first), rest);
      CountFirst(u, first, rest);
      if want == 0 { NothingWanted(u, req); NoUnitsLen(u); EmptyAlloc(us[1..], req); }
    }
  }

  lemma LessIsAffordable(us: seq<UnitState>, left: nat, want: nat, blocks: nat)
    requires us != [] && left <= want && Affordable(us, want, blocks)
    ensures Affordable(us[1..], left, blocks)
  {
    forall i | 0 <= i < |us[1..]| && HasBlocks(us[1..][i]) ensures us[1..][i].geo.nluns * left <= blocks {
      assert us[1..][i] == us[i + 1];
      MulMono(us[i + 1].geo.nluns, left, want);
    }
  }

  // ---------------------------------------------------------------- exactly when every reply fits

  /** A device with 84 LUNs or more overflows the buffer with a single shared channel. */
  lemma {:induction false} ManyLunsOverflow(s: System, i: nat) returns (ops: seq<Op>)
    requires FreshNode(s.units) && i < |s.units| && HasBlocks(s.units[i]) && s.units[i].geo.nluns >= 84
    ensures OnlyRequests(ops) && LenSsd(Alloc(Run(s, ops).0, GREEDY).1) > 1024
  {
    hide UnitStateOk, OpenChans, UnitsAlloc, Run, FreshUnit, LenUnits;
    FreshIsOpen(s.units[i]);
    ops := Narrow(s, i);
    var us := Run(s, ops).0.units;
    SkipClosed(us, i, 1, GREEDY);
    assert us[i..][0] == us[i];
    OneChannelLength(us[i..]);
  }

  lemma {:induction false} OneChannelLength(us: seq<UnitState>)
    requires us != [] && UnitStateOk(us[0]) && OpenChans(us[0].shared) > 0
    ensures LenUnits(UnitsAlloc(us, 1, GREEDY).1) >= 80 + 4 + 16 + 12 * us[0].geo.nluns
  {
    hide UnitStateOk, OpenChans, UnitAlloc, LenUnits, AsUnit;
    var g := UnitAlloc(us[0], 1, GREEDY).1;
    GreedyUnit(us[0]);
    GrantLength(us[0], 1, GREEDY);
    LenConcat(AsUnit(us[0], g), UnitsAlloc(us[1..], 0, GREEDY).1);
    assert PaddedName(us[0].name) >= 4;
  }

  lemma FewLunsOverflow(s: System) returns (req: AllocRequest)
    requires FreshNode(s.units) && 12 + SharedSizes(s.units) > 1024
    requires forall i :: 0 <= i < |s.units| && HasBlocks(s.units[i]) ==> s.units[i].geo.nluns < 84
    ensures LenSsd(Alloc(s, req).1) > 1024
  {
    hide UnitStateOk, UnitsAlloc, FreshUnit, LenUnits, GrantedUnit, OpenTotal;
    var want := Min(OpenTotal(s.units), 64);
    req := AllocRequest(want, 64 * 84, 1, 0, 0);
    forall i | 0 <= i < |s.units| && HasBlocks(s.units[i]) ensures s.units[i].geo.nluns * want <= 64 * 84 {
      MulMono(want, s.units[i].geo.nluns, 84);
    }
    SharedServes(s.units, want, req);
    UnitsAllocGrants(s.units, want, req);
    SixteenEach(Alloc(s, req).1.units);
  }

  lemma ManyChannelsOverflow(s: System) returns (req: AllocRequest)
    requires FreshNode(s.units) && 12 + ExclusiveSizes(s.units) > 1024
    ensures LenSsd(Alloc(s, req).1) > 1024
  {
    hide UnitStateOk, UnitsAlloc, FreshUnit, LenUnits, GrantedUnit, UnusedAll;
    var want := Min(UnusedAll(s.units), 64);
    req := AllocRequest(want, 0, 0, 0, 0);
    if UnusedAll(s.units) <= 64 { ExclusiveServesAll(s.units, want, req); }
    ExclusiveRequestIsGreedy(s.units, want, req);
    UnitsAllocGrants(s.units, want, req);
    SixteenEach(Alloc(s, req).1.units);
  }

  lemma {:induction false} NoOps(s: System)
    ensures OnlyRequests([]) && Run(s, []).0 == s
  {
  }

  /** A fresh node, whatever its devices, answers every request of every request sequence within
      the reply buffer if and only if the bound computed from its device names and geometries fits. */
  lemma {:induction false} NodeRepliesFitIff(s: System)
    requires FreshNode(s.units)
    ensures (forall ops, req :: OnlyRequests(ops) ==> LenSsd(Alloc(Run(s, ops).0, req).1) <= 1024)
            <==> NodeReplyBound(s.units) <= 1024
  {
    hide UnitStateOk, Alloc, Run, LenSsd, FreshUnit, SharedSizes, ExclusiveSizes;
    NoOps(s);
    if NodeReplyBound(s.units) <= 1024 {
      forall ops, req | OnlyRequests(ops) ensures LenSsd(Alloc(Run(s, ops).0, req).1) <= 1024 {
        RequestsKeepDevices(s, ops);
        SameSizes(s.units, Run(s, ops).0.units);
        NodeReplyWithin(Run(s, ops).0, req);
      }
    } else if i :| 0 <= i < |s.units| && HasBlocks(s.units[i]) && s.units[i].geo.nluns >= 84 {
      var ops := ManyLunsOverflow(s, i);
    } else if 12 + SharedSizes(s.units) > 1024 {
      var req := FewLunsOverflow(s);
      assert LenSsd(Alloc(Run(s, []).0, req).1) > 1024;
    } else {
      var req := ManyChannelsOverflow(s);
      assert LenSsd(Alloc(Run(s, []).0, req).1) > 1024;
    }
  }

  // ---------------------------------------------------------------- one device

  lemma OneDeviceBound(u: UnitState)
    ensures NodeReplyBound([u]) <= ReplyBound(u.name, u.geo)
    ensures HasBlocks(u) ==> NodeReplyBound([u]) == ReplyBound(u.name, u.geo)
  {
    hide ChannelSize;
    assert [u][1..] == [];
    assert SharedSizes([u]) == SharedSize(u) && ExclusiveSizes([u]) == ExclusiveSize(u);
  }

  lemma ReplyBoundIs(name: seq<Byte>, geo: Geometry)
    ensures var n := geo.nchannels;
            ReplyBound(name, geo) == 92 + (|name| + 4) / 4 * 4
              + if n <= 4 then n * (16 + 12 * geo.nluns) else Max(4 * (16 + 12 * geo.nluns), 16 * (n - 4))
  {
  }

  /** The bound for a node with one device, in every state: at most four channels are shared. */
  lemma ReplyWithinBound(u: UnitState, id: U32, req: AllocRequest)
    requires UnitStateOk(u)
    ensures var n := u.geo.nchannels;
            LenSsd(Alloc(System([u], id), req).1) <= 92 + (|u.name| + 4) / 4 * 4
              + if n <= 4 then n * (16 + 12 * u.geo.nluns) else Max(4 * (16 + 12 * u.geo.nluns), 16 * (n - 4))
  {
    hide UnitStateOk, NodeReplyBound, ReplyBound;
    NodeReplyWithin(System([u], id), req);
    OneDeviceBound(u);
    ReplyBoundIs(u.name, u.geo);
  }

  /** A node with one device that holds blocks answers every request of every request sequence
      within the reply buffer if and only if the bound from its name and geometry fits. */
  lemma EveryReplyFitsIff(name: seq<Byte>, geo: Geometry)
    requires NameOk(name) && GeoOk(geo) && HoldsBlocks(geo)
    ensures var s := System([FreshUnit(name, geo)], 0);
            var n := geo.nchannels;
            (forall ops, req :: OnlyRequests(ops) ==> LenSsd(Alloc(Run(s, ops).0, req).1) <= 1024)
            <==> 92 + (|name| + 4) / 4 * 4
                 + (if n <= 4 then n * (16 + 12 * geo.nluns) else Max(4 * (16 + 12 * geo.nluns), 16 * (n - 4))) <= 1024
  {
    hide NodeReplyBound, OnlyRequests, Alloc, LenSsd, Run, ReplyBound;
    FreshUnitOk(name, geo);
    ReplyBoundIs(name, geo);
    OneDeviceBound(FreshUnit(name, geo));
    NodeRepliesFitIff(System([FreshUnit(name, geo)], 0));
  }
}
