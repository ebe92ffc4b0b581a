/** Which physical blocks a grant describes and which ones the physical state has given away,
    counted block by block: every block a request hands out leaves the free pool exactly once. */
module Ownership {
  import opened Bytes
  import opened VirtualSsd
  import opened Requests
  import opened Allocation

  datatype Block = Block(device: seq<Byte>, channel: nat, lun: nat, block: nat)

  // ---------------------------------------------------------------- blocks of a grant

  /** How many extents of the list hold block `b` of LUN `lun`. */
  function TimesLuns(ls: seq<VLun>, lun: nat, b: nat): nat {
    if ls == [] then 0 else
      var l := ls[|ls| - 1];
      TimesLuns(ls[..|ls| - 1], lun, b) + if l.id == lun && l.start <= b < l.start + l.count then 1 else 0
  }

  /** How often a channel of a grant describes a block: a channel that is not marked shared
      stands for all blocks of all its LUNs. */
  function TimesChannel(c: VChannel, nblocks: nat, b: Block): nat {
    if c.id != b.channel then 0
    else if c.shared == 1 then TimesLuns(c.luns, b.lun, b.block)
    else if b.lun < c.numLuns && b.block < nblocks then 1 else 0
  }

  function TimesChannels(cs: seq<VChannel>, nblocks: nat, b: Block): nat {
    if cs == [] then 0 else TimesChannel(cs[0], nblocks, b) + TimesChannels(cs[1..], nblocks, b)
  }

  function TimesUnits(us: seq<VUnit>, b: Block): nat {
    if us == [] then 0 else
      var u := us[0];
      (if u.name == b.device then TimesChannels(u.channels, u.geo.nblocks, b) else 0) + TimesUnits(us[1..], b)
  }

  // ---------------------------------------------------------------- blocks given away

  function GoneChan(c: Chan, b: Block): nat {
    if c.id == b.channel && b.lun < c.luns && b.block < (if c.taken then c.blocks else c.level) then 1 else 0
  }

  function GoneChans(cs: seq<Chan>, b: Block): nat {
    if cs == [] then 0 else GoneChan(cs[0], b) + GoneChans(cs[1..], b)
  }

  function GoneUnit(u: UnitState, b: Block): nat {
    if u.name == b.device then GoneChans(u.shared, b) + GoneChans(u.exclusive, b) else 0
  }

  function GoneUnits(us: seq<UnitState>, b: Block): nat {
    if us == [] then 0 else GoneUnit(us[0], b) + GoneUnits(us[1..], b)
  }

  // ---------------------------------------------------------------- one request

  lemma {:induction false} TimesRow(n: nat, start: nat, count: nat, lun: nat, b: nat)
    ensures TimesLuns(LunRow(n, start, count), lun, b) == if lun < n && start <= b < start + count then 1 else 0
  {
    if n > 0 {
      assert LunRow(n, start, count)[..n - 1] == LunRow(n - 1, start, count);
      TimesRow(n - 1, start, count, lun, b);
    }
  }

  lemma {:induction false} SharedAllocMoves(cs: seq<Chan>, per: nat, want: nat, nblocks: nat, b: Block)
    requires SharedOnly(cs)
    ensures var r := SharedAlloc(cs, per, want);
            GoneChans(r.0, b) == GoneChans(cs, b) + TimesChannels(r.1, nblocks, b)
  {
    if cs != [] && want > 0 {
      var q := Quota(cs[0], per);
      TimesRow(cs[0].luns, cs[0].level, q, b.lun, b.block);
      SharedAllocMoves(cs[1..], per, if q > 0 then want - 1 else want, nblocks, b);
    }
  }

  lemma {:induction false} ExclusiveAllocMoves(cs: seq<Chan>, want: nat, nblocks: nat, b: Block)
    requires ExclusiveOnly(cs) && forall i :: 0 <= i < |cs| ==> cs[i].blocks == nblocks
    ensures var r := ExclusiveAlloc(cs, want);
            GoneChans(r.0, b) == GoneChans(cs, b) + TimesChannels(r.1, nblocks, b)
  {
    if cs != [] && want > 0 {
      ExclusiveAllocMoves(cs[1..], if cs[0].taken then want else want - 1, nblocks, b);
    }
  }

  lemma {:induction false} UnitAllocMoves(u: UnitState, want: nat, req: AllocRequest, b: Block)
    requires UnitStateOk(u)
    ensures var r := UnitAlloc(u, want, req);
            GoneUnit(r.0, b) == GoneUnit(u, b) + TimesUnits(AsUnit(u, r.1), b)
  {
    if want > 0 {
      SharedAllocMoves(u.shared, req.blocks / want, want, u.geo.nblocks, b);
      ExclusiveAllocMoves(u.exclusive, want, u.geo.nblocks, b);
    }
    var g := AsUnit(u, UnitAlloc(u, want, req).1);
    assert g != [] ==> g[1..] == [];
  }

  lemma {:induction false} TimesUnitsConcat(us: seq<VUnit>, vs: seq<VUnit>, b: Block)
    ensures TimesUnits(us + vs, b) == TimesUnits(us, b) + TimesUnits(vs, b)
  {
    if us == [] {
      assert us + vs == vs;
    } else {
      assert (us + vs)[1..] == us[1..] + vs;
      TimesUnitsConcat(us[1..], vs, b);
    }
  }

  lemma {:induction false} UnitsAllocMoves(us: seq<UnitState>, want: nat, req: AllocRequest, b: Block)
    requires forall i :: 0 <= i < |us| ==> UnitStateOk(us[i])
    ensures var r := UnitsAlloc(us, want, req);
            GoneUnits(r.0, b) == GoneUnits(us, b) + TimesUnits(r.1, b)
  {
    hide UnitStateOk, UnitAlloc, GoneUnit;
    if us != [] && want > 0 {
      var first := UnitAlloc(us[0], want, req);
      var rest := UnitsAlloc(us[1..], want - |first.1|, req);
      UnitAllocMoves(us[0], want, req, b);
      UnitsAllocMoves(us[1..], want - |first.1|, req, b);
      TimesUnitsConcat(AsUnit(us[0], first.1), rest.1, b);
    }
  }

  // ---------------------------------------------------------------- at most once, inside the device

  lemma {:induction false} GoneChansOnce(cs: seq<Chan>, first: nat, geo: Geometry, b: Block)
    requires ChansOk(cs, first, geo)
    ensures GoneChans(cs, b) <= 1
    ensures GoneChans(cs, b) == 1 ==> first <= b.channel < first + |cs| && b.lun < geo.nluns && b.block < geo.nblocks
  {
    if cs != [] { GoneChansOnce(cs[1..], first + 1, geo, b); }
  }

  predicate InDevice(u: UnitState, b: Block) {
    u.name == b.device && b.channel < u.geo.nchannels && b.lun < u.geo.nluns && b.block < u.geo.nblocks
  }

  lemma GoneUnitOnce(u: UnitState, b: Block)
    requires UnitStateOk(u)
    ensures GoneUnit(u, b) <= 1
    ensures GoneUnit(u, b) == 1 ==> InDevice(u, b)
  {
    GoneChansOnce(u.shared, 0, u.geo, b);
    GoneChansOnce(u.exclusive, |u.shared|, u.geo, b);
  }

  /** What one unit grants to one request lists no block twice. */
  lemma {:induction false} UnitGrantsOnce(u: UnitState, want: nat, req: AllocRequest, b: Block)
    requires UnitStateOk(u)
    ensures TimesChannels(UnitAlloc(u, want, req).1, u.geo.nblocks, b) <= 1
  {
    hide UnitStateOk, UnitAlloc;
    var here := b.(device := u.name);
    var r := UnitAlloc(u, want, req);
    UnitAllocMoves(u, want, req, here);
    UnitAllocKeeps(u, want, req);
    GoneUnitOnce(r.0, here);
    OnlyDeviceDiffers(r.1, u.geo.nblocks, b, here);
    var g := AsUnit(u, r.1);
    assert g != [] ==> g[1..] == [];
  }

  lemma {:induction false} OnlyDeviceDiffers(cs: seq<VChannel>, nblocks: nat, a: Block, b: Block)
    requires a.channel == b.channel && a.lun == b.lun && a.block == b.block
    ensures TimesChannels(cs, nblocks, a) == TimesChannels(cs, nblocks, b)
  {
    if cs != [] { OnlyDeviceDiffers(cs[1..], nblocks, a, b); }
  }

  lemma {:induction false} EachUnitGrantsOnce(us: seq<UnitState>, want: nat, req: AllocRequest, k: nat, b: Block)
    requires (forall i :: 0 <= i < |us| ==> UnitStateOk(us[i])) && k < |UnitsAlloc(us, want, req).1|
    ensures var u := UnitsAlloc(us, want, req).1[k]; TimesChannels(u.channels, u.geo.nblocks, b) <= 1
    decreases |us|
  {
    hide UnitStateOk, UnitAlloc, TimesChannels;
    var first := UnitAlloc(us[0], want, req).1;
    UnitGrantsOnce(us[0], want, req, b);
    var n := |AsUnit(us[0], first)|;
    if k >= n { EachUnitGrantsOnce(us[1..], want - |first|, req, k - n, b); }
  }

  /** No two listed devices that hold any block go by the same name. */
  predicate DistinctDevices(us: seq<UnitState>) {
    forall i, j :: 0 <= i < j < |us| && HasBlocks(us[i]) && HasBlocks(us[j]) ==> us[i].name != us[j].name
  }

  predicate HasBlocks(u: UnitState) { HoldsBlocks(u.geo) }

  predicate HoldsBlocks(g: Geometry) { g.nchannels > 0 && g.nluns > 0 && g.nblocks > 0 }

  lemma {:induction false} GoneUnitsOnce(us: seq<UnitState>, b: Block)
    requires DistinctDevices(us) && forall i :: 0 <= i < |us| ==> UnitStateOk(us[i])
    ensures GoneUnits(us, b) <= 1
    ensures GoneUnits(us, b) == 1 ==> exists i :: 0 <= i < |us| && InDevice(us[i], b)
  {
    hide UnitStateOk, GoneUnit;
    if us != [] {
      GoneUnitOnce(us[0], b);
      assert DistinctDevices(us[1..]);
      GoneUnitsOnce(us[1..], b);
      if GoneUnits(us[1..], b) == 1 {
        var i :| 0 <= i < |us[1..]| && InDevice(us[1..][i], b);
        assert us[i + 1] == us[1..][i];
      }
    }
  }

  // ---------------------------------------------------------------- whole runs

  /** Devices may be added at any point between requests. */
  datatype Op = Add(name: seq<Byte>, geo: Geometry) | Request(request: AllocRequest)

  predicate OpOk(op: Op) { op.Add? ==> NameOk(op.name) && GeoOk(op.geo) }

  predicate OpsOk(ops: seq<Op>) { forall i :: 0 <= i < |ops| ==> OpOk(ops[i]) }

  predicate OnlyRequests(ops: seq<Op>) { forall i :: 0 <= i < |ops| ==> ops[i].Request? }

  function Step(s: System, op: Op): (System, seq<VSsd>) {
    match op
    case Add(name, geo) => (s.(units := s.units + [FreshUnit(name, geo)]), [])
    case Request(request) => var r := Alloc(s, request); (r.0, [r.1])
  }

  /** The final state and, in order, what each request was granted. */
  function Run(s: System, ops: seq<Op>): (System, seq<VSsd>)
    decreases |ops|
  {
    if ops == [] then (s, []) else
      var first := Step(s, ops[0]);
      var rest := Run(first.0, ops[1..]);
      (rest.0, first.1 + rest.1)
  }

  const START := System([], 0)

  function TimesAll(gs: seq<VSsd>, b: Block): nat {
    if gs == [] then 0 else TimesUnits(gs[0].units, b) + TimesAll(gs[1..], b)
  }

  lemma FreshUnitOk(name: seq<Byte>, geo: Geometry)
    requires NameOk(name) && GeoOk(geo)
    ensures UnitStateOk(FreshUnit(name, geo))
  {
  }

  lemma StepKeeps(s: System, op: Op)
    requires SystemOk(s) && OpOk(op)
    ensures SystemOk(Step(s, op).0)
  {
    hide UnitStateOk;
    match op
    case Add(name, geo) => FreshUnitOk(name, geo);
    case Request(request) => UnitsAllocKeeps(s.units, request.channels, request);
  }

  lemma {:induction false} GoneFresh(first: nat, n: nat, geo: Geometry, b: Block)
    ensures GoneChans(FreshChans(first, n, geo), b) == 0
    decreases n
  {
    if n > 0 {
      assert FreshChans(first, n, geo)[1..] == FreshChans(first + 1, n - 1, geo);
      GoneFresh(first + 1, n - 1, geo, b);
    }
  }

  lemma {:induction false} GoneUnitsSnoc(us: seq<UnitState>, u: UnitState, b: Block)
    ensures GoneUnits(us + [u], b) == GoneUnits(us, b) + GoneUnit(u, b)
  {
    if us == [] {
      assert [u][1..] == [] && us + [u] == [u];
    } else {
      assert (us + [u])[1..] == us[1..] + [u];
      GoneUnitsSnoc(us[1..], u, b);
    }
  }

  lemma {:induction false} StepMoves(s: System, op: Op, b: Block)
    requires SystemOk(s)
    ensures var r := Step(s, op); GoneUnits(r.0.units, b) == GoneUnits(s.units, b) + TimesAll(r.1, b)
  {
    hide UnitStateOk;
    match op
    case Add(name, geo) =>
      var n := Min(MAX_SHARED, geo.nchannels);
      GoneFresh(0, n, geo, b);
      GoneFresh(n, geo.nchannels - n, geo, b);
      GoneUnitsSnoc(s.units, FreshUnit(name, geo), b);
    case Request(request) =>
      UnitsAllocMoves(s.units, request.channels, request, b);
      var g := Step(s, op).1;
      assert g[1..] == [];
  }

  lemma {:induction false} TimesAllConcat(gs: seq<VSsd>, hs: seq<VSsd>, b: Block)
    ensures TimesAll(gs + hs, b) == TimesAll(gs, b) + TimesAll(hs, b)
  {
    if gs == [] {
      assert gs + hs == hs;
    } else {
      assert (gs + hs)[1..] == gs[1..] + hs;
      TimesAllConcat(gs[1..], hs, b);
    }
  }

  /** Over every run, what is gone at the end is what was gone before plus what was granted. */
  lemma {:induction false} RunMoves(s: System, ops: seq<Op>, b: Block)
    requires SystemOk(s) && OpsOk(ops)
    ensures SystemOk(Run(s, ops).0)
    ensures GoneUnits(Run(s, ops).0.units, b) == GoneUnits(s.units, b) + TimesAll(Run(s, ops).1, b)
    decreases |ops|
  {
    hide UnitStateOk, Step, GoneUnits;
    if ops != [] {
      var first := Step(s, ops[0]);
      StepKeeps(s, ops[0]);
      StepMoves(s, ops[0], b);
      RunMoves(first.0, ops[1..], b);
      TimesAllConcat(first.1, Run(first.0, ops[1..]).1, b);
    }
  }

  /** No two devices that hold any block are added under the same name. */
  predicate DistinctAdds(ops: seq<Op>) {
    forall i, j :: 0 <= i < j < |ops| && AddsBlocks(ops[i]) && AddsBlocks(ops[j]) ==> ops[i].name != ops[j].name
  }

  predicate AddsBlocks(op: Op) { op.Add? && HoldsBlocks(op.geo) }

  predicate NewNames(us: seq<UnitState>, ops: seq<Op>) {
    forall i, k :: 0 <= i < |us| && 0 <= k < |ops| && HasBlocks(us[i]) && AddsBlocks(ops[k]) ==>
      us[i].name != ops[k].name
  }

  lemma StepKeepsNames(s: System, ops: seq<Op>)
    requires SystemOk(s) && ops != [] && DistinctDevices(s.units) && DistinctAdds(ops) && NewNames(s.units, ops)
    ensures var t := Step(s, ops[0]).0;
            DistinctDevices(t.units) && DistinctAdds(ops[1..]) && NewNames(t.units, ops[1..])
  {
    hide UnitStateOk, UnitsAlloc;
    if ops[0].Request? { UnitsAllocKeeps(s.units, ops[0].request.channels, ops[0].request); }
  }

  lemma {:induction false} RunKeepsNames(s: System, ops: seq<Op>)
    requires SystemOk(s) && OpsOk(ops) && DistinctDevices(s.units) && DistinctAdds(ops) && NewNames(s.units, ops)
    ensures DistinctDevices(Run(s, ops).0.units)
    decreases |ops|
  {
    hide UnitStateOk, Step, DistinctDevices, DistinctAdds, NewNames;
    if ops != [] {
      StepKeeps(s, ops[0]);
      StepKeepsNames(s, ops);
      RunKeepsNames(Step(s, ops[0]).0, ops[1..]);
    }
  }

  /** Over every run from an empty node, the granted blocks are exactly the blocks gone, every
      one of them lies inside its device, and none is granted twice. */
  lemma {:induction false} NoBlockGrantedTwice(ops: seq<Op>, b: Block)
    requires OpsOk(ops) && DistinctAdds(ops)
    ensures var r := Run(START, ops);
            && TimesAll(r.1, b) == GoneUnits(r.0.units, b) <= 1
            && (TimesAll(r.1, b) == 1 ==> exists i :: 0 <= i < |r.0.units| && InDevice(r.0.units[i], b))
  {
    hide Run, UnitStateOk;
    RunKeepsNames(START, ops);
    RunMoves(START, ops, b);
    GoneUnitsOnce(Run(START, ops).0.units, b);
  }

  lemma {:induction false} TimesAllPair(gs: seq<VSsd>, i: nat, j: nat, b: Block)
    requires i < j < |gs|
    ensures TimesUnits(gs[i].units, b) + TimesUnits(gs[j].units, b) <= TimesAll(gs, b)
  {
    if i > 0 {
      TimesAllPair(gs[1..], i - 1, j - 1, b);
    } else {
      TimesAllOne(gs[1..], j - 1, b);
    }
  }

  lemma {:induction false} TimesAllOne(gs: seq<VSsd>, j: nat, b: Block)
    requires j < |gs|
    ensures TimesUnits(gs[j].units, b) <= TimesAll(gs, b)
  {
    if j > 0 { TimesAllOne(gs[1..], j - 1, b); }
  }

  /** Any two grants of a run have no block in common, and neither lists a block twice. */
  lemma {:induction false} GrantsAreDisjoint(ops: seq<Op>, i: nat, j: nat, b: Block)
    requires OpsOk(ops) && DistinctAdds(ops) && i < j < |Run(START, ops).1|
    ensures var gs := Run(START, ops).1; TimesUnits(gs[i].units, b) + TimesUnits(gs[j].units, b) <= 1
  {
    hide Run;
    NoBlockGrantedTwice(ops, b);
    TimesAllPair(Run(START, ops).1, i, j, b);
  }

  /** No grant of a run lists a block twice. */
  lemma {:induction false} GrantListsOnce(ops: seq<Op>, i: nat, b: Block)
    requires OpsOk(ops) && DistinctAdds(ops) && i < |Run(START, ops).1|
    ensures TimesUnits(Run(START, ops).1[i].units, b) <= 1
  {
    hide Run;
    NoBlockGrantedTwice(ops, b);
    TimesAllOne(Run(START, ops).1, i, b);
  }

  /** Requests are numbered in order, whether or not they were granted anything. */
  lemma {:induction false} GrantIdsCount(s: System, ops: seq<Op>, k: nat)
    requires k < |Run(s, ops).1|
    ensures Run(s, ops).1[k].id == (s.nextId + k) % TWO_32
    decreases |ops|
  {
    hide Alloc, Step;
    AllocIds(s, ops[0]);
    var first := Step(s, ops[0]);
    if k >= |first.1| {
      GrantIdsCount(first.0, ops[1..], k - |first.1|);
    }
  }

  lemma AllocIds(s: System, op: Op)
    ensures var r := Step(s, op);
            match op
            case Add(_, _) => r.1 == [] && r.0.nextId == s.nextId
            case Request(_) => |r.1| == 1 && r.1[0].id == s.nextId && r.0.nextId == (s.nextId + 1) % TWO_32
  {
  }
}
