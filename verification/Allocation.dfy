/** What one allocation request does to the physical resource, on values: every channel is a
    single counter, although the code keeps one counter per LUN (module Physical proves that
    the code computes this). */
module Allocation {
  import opened Bytes
  import opened VirtualSsd
  import opened Requests

  const MAX_SHARED: nat := 4

  /** A channel: every one of its `luns` LUNs has its first `level` blocks handed out. */
  datatype Chan = Chan(id: nat, luns: nat, blocks: nat, level: nat, taken: bool)

  datatype UnitState = UnitState(name: seq<Byte>, geo: Geometry, shared: seq<Chan>, exclusive: seq<Chan>)

  datatype System = System(units: seq<UnitState>, nextId: U32)

  // ---------------------------------------------------------------- one channel

  /** Blocks each LUN gives up when `request` blocks are asked of the channel. */
  function Quota(c: Chan, request: nat): nat {
    if c.luns == 0 || c.blocks <= c.level then 0 else Min(request / c.luns, c.blocks - c.level)
  }

  function LunRow(n: nat, start: nat, count: nat): (r: seq<VLun>)
    ensures |r| == n
  {
    seq(n, i requires 0 <= i => VLun(i, start, count))
  }

  function SharedGrant(c: Chan, q: nat): VChannel {
    VChannel(c.id, 1, c.luns * q, c.luns, LunRow(c.luns, c.level, q))
  }

  function ExclusiveGrant(c: Chan): VChannel { VChannel(c.id, 0, c.blocks * c.luns, c.luns, []) }

  // ---------------------------------------------------------------- one unit

  /** Walks the shared channels, asking `per` blocks of each, until `want` channels gave. */
  function SharedAlloc(cs: seq<Chan>, per: nat, want: nat): (r: (seq<Chan>, seq<VChannel>))
    ensures |r.0| == |cs| && |r.1| <= want
  {
    if cs == [] || want == 0 then (cs, []) else
      var q := Quota(cs[0], per);
      if q > 0 then
        var r := SharedAlloc(cs[1..], per, want - 1);
        ([cs[0].(level := cs[0].level + q)] + r.0, [SharedGrant(cs[0], q)] + r.1)
      else
        var r := SharedAlloc(cs[1..], per, want);
        ([cs[0]] + r.0, r.1)
  }

  /** Walks the exclusive channels, taking the unused ones whole, until `want` are taken. */
  function ExclusiveAlloc(cs: seq<Chan>, want: nat): (r: (seq<Chan>, seq<VChannel>))
    ensures |r.0| == |cs| && |r.1| <= want
  {
    if cs == [] || want == 0 then (cs, [])
    else if cs[0].taken then
      var r := ExclusiveAlloc(cs[1..], want);
      ([cs[0]] + r.0, r.1)
    else
      var r := ExclusiveAlloc(cs[1..], want - 1);
      ([cs[0].(taken := true)] + r.0, [ExclusiveGrant(cs[0])] + r.1)
  }

  function UnitAlloc(u: UnitState, want: nat, req: AllocRequest): (r: (UnitState, seq<VChannel>))
    ensures |r.1| <= want && r.0.name == u.name && r.0.geo == u.geo
  {
    if want == 0 then (u, [])
    else if req.shared == 1 then
      var r := SharedAlloc(u.shared, req.blocks / want, want);
      (u.(shared := r.0), r.1)
    else
      var r := ExclusiveAlloc(u.exclusive, want);
      (u.(exclusive := r.0), r.1)
  }

  // ---------------------------------------------------------------- the whole node

  function AsUnit(u: UnitState, channels: seq<VChannel>): seq<VUnit> {
    if channels == [] then [] else [VUnit(u.name, u.geo, channels)]
  }

  lemma NothingWanted(u: UnitState, req: AllocRequest)
    ensures UnitAlloc(u, 0, req) == (u, [])
  {
  }

  /** Walks the units; only the channel count of the request shrinks, not its block count. */
  function UnitsAlloc(us: seq<UnitState>, want: nat, req: AllocRequest): (r: (seq<UnitState>, seq<VUnit>))
    ensures |r.0| == |us|
  {
    if us == [] || want == 0 then (us, []) else
      var first := UnitAlloc(us[0], want, req);
      var rest := UnitsAlloc(us[1..], want - |first.1|, req);
      ([first.0] + rest.0, AsUnit(us[0], first.1) + rest.1)
  }

  function Alloc(s: System, req: AllocRequest): (System, VSsd) {
    var r := UnitsAlloc(s.units, req.channels, req);
    (System(r.0, (s.nextId + 1) % TWO_32), VSsd(s.nextId, r.1))
  }

  function FreshChans(first: nat, n: nat, geo: Geometry): (r: seq<Chan>)
    ensures |r| == n
  {
    seq(n, i requires 0 <= i => Chan(first + i, geo.nluns, geo.nblocks, 0, false))
  }

  /** A newly opened device: the first four channels are shared, the others exclusive. */
  function FreshUnit(name: seq<Byte>, geo: Geometry): UnitState {
    var n := Min(MAX_SHARED, geo.nchannels);
    UnitState(name, geo, FreshChans(0, n, geo), FreshChans(n, geo.nchannels - n, geo))
  }

  // ---------------------------------------------------------------- the invariant

  predicate GeoOk(g: Geometry) {
    g.nchannels < TWO_32 && g.nluns < TWO_32 && g.nblocks < TWO_32 && g.nblocks * g.nluns < TWO_32
  }

  /** Channel ids run on from `first`; every channel has the device's shape. */
  predicate ChansOk(cs: seq<Chan>, first: nat, geo: Geometry) {
    forall i :: 0 <= i < |cs| ==>
      && cs[i].id == first + i && cs[i].luns == geo.nluns && cs[i].blocks == geo.nblocks
      && cs[i].level <= cs[i].blocks
  }

  predicate SharedOnly(cs: seq<Chan>) { forall i :: 0 <= i < |cs| ==> !cs[i].taken }

  predicate ExclusiveOnly(cs: seq<Chan>) { forall i :: 0 <= i < |cs| ==> cs[i].level == 0 }

  predicate UnitStateOk(u: UnitState) {
    && NameOk(u.name) && GeoOk(u.geo)
    && |u.shared| == Min(MAX_SHARED, u.geo.nchannels) && |u.shared| + |u.exclusive| == u.geo.nchannels
    && ChansOk(u.shared, 0, u.geo) && SharedOnly(u.shared)
    && ChansOk(u.exclusive, |u.shared|, u.geo) && ExclusiveOnly(u.exclusive)
  }

  predicate SystemOk(s: System) { forall i :: 0 <= i < |s.units| ==> UnitStateOk(s.units[i]) }

  lemma QuotaBounds(c: Chan, request: nat)
    ensures c.level <= c.blocks ==> c.level + Quota(c, request) <= c.blocks
    ensures c.luns * Quota(c, request) <= request
    ensures c.luns * Quota(c, request) <= c.luns * c.blocks
  {
    if c.luns > 0 {
      assert c.luns * (request / c.luns) <= request;
      MulMono(c.luns, Quota(c, request), request / c.luns);
      MulMono(c.luns, Quota(c, request), c.blocks);
    }
  }

  /** Each LUN gives the most that an even split of the request and its own free blocks allow. */
  lemma QuotaIsLargest(c: Chan, request: nat, q: nat)
    requires c.luns > 0 && c.luns * q <= request && c.level + q <= c.blocks
    ensures q <= Quota(c, request)
  {
    assert c.luns * (request / c.luns + 1) > request;
    if q > request / c.luns { MulMono(c.luns, request / c.luns + 1, q); }
  }

  lemma MulMono(k: nat, a: nat, b: nat)
    requires k == 0 || a <= b
    ensures k * a <= k * b
  {
  }

  lemma {:induction false} SharedAllocKeeps(cs: seq<Chan>, per: nat, want: nat, first: nat, geo: Geometry)
    requires ChansOk(cs, first, geo) && SharedOnly(cs)
    ensures var r := SharedAlloc(cs, per, want); ChansOk(r.0, first, geo) && SharedOnly(r.0)
  {
    if cs != [] && want > 0 {
      var q := Quota(cs[0], per);
      QuotaBounds(cs[0], per);
      var want' := if q > 0 then want - 1 else want;
      SharedAllocKeeps(cs[1..], per, want', first + 1, geo);
      var tail := SharedAlloc(cs[1..], per, want').0;
      var r := SharedAlloc(cs, per, want).0;
      assert r[1..] == tail;
      forall i | 1 <= i < |r| ensures r[i] == tail[i - 1] {}
    }
  }

  lemma {:induction false} ExclusiveAllocKeeps(cs: seq<Chan>, want: nat, first: nat, geo: Geometry)
    requires ChansOk(cs, first, geo) && ExclusiveOnly(cs)
    ensures var r := ExclusiveAlloc(cs, want); ChansOk(r.0, first, geo) && ExclusiveOnly(r.0)
  {
    if cs != [] && want > 0 {
      var want' := if cs[0].taken then want else want - 1;
      ExclusiveAllocKeeps(cs[1..], want', first + 1, geo);
      var tail := ExclusiveAlloc(cs[1..], want').0;
      var r := ExclusiveAlloc(cs, want).0;
      assert r[1..] == tail;
      forall i | 1 <= i < |r| ensures r[i] == tail[i - 1] {}
    }
  }

  lemma UnitAllocKeeps(u: UnitState, want: nat, req: AllocRequest)
    requires UnitStateOk(u)
    ensures UnitStateOk(UnitAlloc(u, want, req).0)
  {
    if want > 0 {
      SharedAllocKeeps(u.shared, req.blocks / want, want, 0, u.geo);
      ExclusiveAllocKeeps(u.exclusive, want, |u.shared|, u.geo);
    }
  }

  lemma {:induction false} UnitsAllocKeeps(us: seq<UnitState>, want: nat, req: AllocRequest)
    requires forall i :: 0 <= i < |us| ==> UnitStateOk(us[i])
    ensures var r := UnitsAlloc(us, want, req).0;
            && (forall i :: 0 <= i < |us| ==> UnitStateOk(r[i]))
            && (forall i :: 0 <= i < |us| ==> r[i].name == us[i].name && r[i].geo == us[i].geo)
  {
    hide UnitStateOk, UnitAlloc, AsUnit;
    if us != [] && want > 0 {
      var first := UnitAlloc(us[0], want, req);
      UnitAllocKeeps(us[0], want, req);
      UnitsAllocKeeps(us[1..], want - |first.1|, req);
      var r, rest := UnitsAlloc(us, want, req).0, UnitsAlloc(us[1..], want - |first.1|, req).0;
      forall i | 0 <= i < |us| ensures UnitStateOk(r[i]) && r[i].name == us[i].name && r[i].geo == us[i].geo {
        if i > 0 { assert r[i] == rest[i - 1] && us[i] == us[1..][i - 1]; }
      }
    }
  }

  // ---------------------------------------------------------------- well-formed grants

  /** What the allocator emits: shared channels list all LUNs with equal non-empty extents
      inside the device, exclusive ones stand for the whole channel. */
  predicate GrantedChannel(c: VChannel, geo: Geometry) {
    && c.id < geo.nchannels && c.numLuns == geo.nluns
    && if c.shared == 1 then
         && |c.luns| == c.numLuns > 0 && c.total == c.numLuns * c.luns[0].count
         && 0 < c.luns[0].count && c.luns[0].start + c.luns[0].count <= geo.nblocks
         && c.luns == LunRow(c.numLuns, c.luns[0].start, c.luns[0].count)
       else
         c.shared == 0 && c.luns == [] && c.total == geo.nblocks * geo.nluns
  }

  predicate GrantedChannels(cs: seq<VChannel>, geo: Geometry) {
    forall i :: 0 <= i < |cs| ==> GrantedChannel(cs[i], geo)
  }

  predicate GrantedUnit(u: VUnit) {
    && NameOk(u.name) && GeoOk(u.geo) && u.channels != [] && |u.channels| < TWO_32
    && GrantedChannels(u.channels, u.geo)
    && forall i, j :: 0 <= i < |u.channels| && 0 <= j < |u.channels| ==> u.channels[i].shared == u.channels[j].shared
  }

  lemma {:induction false} SharedAllocGrants(cs: seq<Chan>, per: nat, want: nat, first: nat, geo: Geometry)
    requires ChansOk(cs, first, geo) && first + |cs| <= geo.nchannels
    ensures var g := SharedAlloc(cs, per, want).1;
            GrantedChannels(g, geo) && forall i :: 0 <= i < |g| ==> g[i].shared == 1
  {
    if cs != [] && want > 0 {
      var q := Quota(cs[0], per);
      QuotaBounds(cs[0], per);
      SharedAllocGrants(cs[1..], per, if q > 0 then want - 1 else want, first + 1, geo);
      assert q > 0 ==> GrantedChannel(SharedGrant(cs[0], q), geo);
    }
  }

  lemma {:induction false} ExclusiveAllocGrants(cs: seq<Chan>, want: nat, first: nat, geo: Geometry)
    requires ChansOk(cs, first, geo) && first + |cs| <= geo.nchannels
    ensures var g := ExclusiveAlloc(cs, want).1;
            GrantedChannels(g, geo) && forall i :: 0 <= i < |g| ==> g[i].shared == 0
  {
    if cs != [] && want > 0 {
      ExclusiveAllocGrants(cs[1..], if cs[0].taken then want else want - 1, first + 1, geo);
    }
  }

  lemma UnitAllocGrants(u: UnitState, want: nat, req: AllocRequest)
    requires UnitStateOk(u) && want < TWO_32
    ensures forall v :: v in AsUnit(u, UnitAlloc(u, want, req).1) ==> GrantedUnit(v)
    ensures GrantedChannels(UnitAlloc(u, want, req).1, u.geo)
  {
    if want > 0 {
      SharedAllocGrants(u.shared, req.blocks / want, want, 0, u.geo);
      ExclusiveAllocGrants(u.exclusive, want, |u.shared|, u.geo);
    }
  }

  function ChannelCount(us: seq<VUnit>): nat {
    if us == [] then 0 else |us[0].channels| + ChannelCount(us[1..])
  }

  /** Accounting: no more channels are handed out than asked, every unit listed brings at least
      one, so nothing was granted exactly when no unit is listed. */
  lemma {:induction false} UnitsAllocGrants(us: seq<UnitState>, want: nat, req: AllocRequest)
    requires want < TWO_32 && forall i :: 0 <= i < |us| ==> UnitStateOk(us[i])
    ensures var g := UnitsAlloc(us, want, req).1;
            && (forall i :: 0 <= i < |g| ==> GrantedUnit(g[i]))
            && |g| <= ChannelCount(g) <= want
            && (ChannelCount(g) == 0 <==> g == [])
  {
    hide UnitStateOk, GrantedUnit, UnitAlloc;
    if us != [] && want > 0 {
      var first := UnitAlloc(us[0], want, req);
      var rest := UnitsAlloc(us[1..], want - |first.1|, req).1;
      UnitAllocGrants(us[0], want, req);
      UnitsAllocGrants(us[1..], want - |first.1|, req);
      var g := UnitsAlloc(us, want, req).1;
      if first.1 == [] {
        assert g == rest;
      } else {
        assert g[1..] == rest && g[0].channels == first.1;
        assert g[0] in AsUnit(us[0], first.1);
      }
    }
  }

  /** What the allocator emits survives the wire. */
  lemma GrantIsWellFormed(s: System, req: AllocRequest)
    requires SystemOk(s)
    ensures SsdOk(Alloc(s, req).1)
    ensures forall i :: 0 <= i < |Alloc(s, req).1.units| ==> GrantedUnit(Alloc(s, req).1.units[i])
  {
    hide UnitStateOk;
    UnitsAllocGrants(s.units, req.channels, req);
    var us := Alloc(s, req).1.units;
    forall i | 0 <= i < |us| ensures UnitOk(us[i]) { GrantedUnitIsOk(us[i]); }
  }

  lemma GrantedUnitIsOk(u: VUnit)
    requires GrantedUnit(u)
    ensures UnitOk(u)
  {
    forall i | 0 <= i < |u.channels| ensures ChannelOk(u.channels[i]) {
      var c := u.channels[i];
      assert GrantedChannel(c, u.geo);
      if c.shared == 1 {
        assert c.total <= u.geo.nblocks * u.geo.nluns by { MulMono(c.numLuns, c.luns[0].count, u.geo.nblocks); }
      }
    }
  }
}
