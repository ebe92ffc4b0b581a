/** All the devices of a node (ocssd_server.h, 1101-1163), proved against the runs of module
    Ownership. The manager's mutex makes each operation one step. */
module Manager {
  import opened Bytes
  import opened VirtualSsd
  import opened Requests
  import opened Allocation
  import opened Ownership
  import opened Serializer
  import opened Physical

  ghost predicate Inside(us: seq<PhysicalUnit>, repr: set<object>) {
    forall i :: 0 <= i < |us| ==> us[i].Repr <= repr
  }

  ghost predicate Apart(us: seq<PhysicalUnit>) {
    forall i, j :: 0 <= i < j < |us| ==> us[i].Repr !! us[j].Repr
  }

  ghost predicate UnitsValid(us: seq<PhysicalUnit>, repr: set<object>)
    requires Inside(us, repr)
    reads repr
  {
    forall i :: 0 <= i < |us| ==> us[i].Valid()
  }

  ghost function UnitViews(us: seq<PhysicalUnit>, repr: set<object>): (r: seq<UnitState>)
    requires Inside(us, repr) && UnitsValid(us, repr)
    reads repr
    ensures |r| == |us|
  {
    seq(|us|, i requires 0 <= i < |us| && Inside(us, repr) && UnitsValid(us, repr) reads repr => us[i].View())
  }

  lemma UnitViewAt(us: seq<PhysicalUnit>, repr: set<object>, k: nat)
    requires Inside(us, repr) && UnitsValid(us, repr) && k < |us|
    ensures us[k].Valid() && us[k].Repr <= repr && UnitViews(us, repr)[k] == us[k].View()
  {
  }

  lemma ExtendUnits(us: seq<PhysicalUnit>, u: PhysicalUnit, repr: set<object>)
    requires Inside(us, repr) && Apart(us) && UnitsValid(us, repr) && u.Valid() && u.Repr !! repr
    ensures Inside(us + [u], repr + u.Repr) && Apart(us + [u]) && UnitsValid(us + [u], repr + u.Repr)
    ensures UnitViews(us + [u], repr + u.Repr) == UnitViews(us, repr) + [u.View()]
  {
  }

  /** The walk over the units stands at `i`: finishing it gives `goal`. */
  ghost predicate UnitWalk(goal: (seq<UnitState>, seq<VUnit>), vs: seq<UnitState>, i: nat, granted: seq<VUnit>,
                           left: nat, req: AllocRequest) {
    && i <= |vs|
    && var rest := UnitsAlloc(vs[i..], left, req);
       goal == (vs[..i] + rest.0, granted + rest.1)
  }

  lemma {:induction false} UnitWalkStarts(vs: seq<UnitState>, left: nat, req: AllocRequest)
    ensures UnitWalk(UnitsAlloc(vs, left, req), vs, 0, [], left, req)
  {
    var r := UnitsAlloc(vs, left, req);
    assert vs[0..] == vs && vs[..0] + r.0 == r.0 && [] + r.1 == r.1;
  }

  lemma UnitWalkStep(goal: (seq<UnitState>, seq<VUnit>), vs: seq<UnitState>, i: nat, granted: seq<VUnit>,
                     left: nat, req: AllocRequest)
    requires i < |vs| && UnitWalk(goal, vs, i, granted, left, req)
    ensures var r := UnitAlloc(vs[i], left, req);
            UnitWalk(goal, vs[i := r.0], i + 1, granted + AsUnit(vs[i], r.1), left - |r.1|, req)
  {
    var r := UnitAlloc(vs[i], left, req);
    hide UnitAlloc;
    var after := vs[i := r.0];
    assert vs[i..][0] == vs[i] && vs[i..][1..] == vs[i + 1..] == after[i + 1..];
    assert after[..i + 1] == vs[..i] + [r.0];
    var rest := UnitsAlloc(vs[i + 1..], left - |r.1|, req);
    assert vs[..i] + ([r.0] + rest.0) == after[..i + 1] + rest.0;
    assert granted + (AsUnit(vs[i], r.1) + rest.1) == granted + AsUnit(vs[i], r.1) + rest.1;
    if left == 0 {
      NothingWanted(vs[i], req);
      assert after == vs && vs[..i] + vs[i..] == vs[..i + 1] + vs[i + 1..];
      assert granted + [] == granted;
    }
  }

  lemma UnitWalkEnds(goal: (seq<UnitState>, seq<VUnit>), vs: seq<UnitState>, i: nat, granted: seq<VUnit>,
                     left: nat, req: AllocRequest)
    requires (i == |vs| || left == 0) && UnitWalk(goal, vs, i, granted, left, req)
    ensures goal == (vs, granted)
  {
    assert vs == vs[..i] + vs[i..];
    assert granted + [] == granted;
  }

  lemma OnlyCountDiffers(u: UnitState, want: nat, req: AllocRequest, now: AllocRequest)
    requires now.blocks == req.blocks && now.shared == req.shared
    ensures UnitAlloc(u, want, now) == UnitAlloc(u, want, req)
  {
  }

  lemma ValidUnitsAreOk(us: seq<PhysicalUnit>, repr: set<object>)
    requires Inside(us, repr) && UnitsValid(us, repr)
    ensures forall i :: 0 <= i < |us| ==> UnitStateOk(UnitViews(us, repr)[i])
  {
    hide UnitStateOk;
    forall i | 0 <= i < |us| ensures UnitStateOk(UnitViews(us, repr)[i]) {
      UnitViewAt(us, repr, i);
    }
  }

  class OcssdManager {
    var units: seq<PhysicalUnit>
    var count: nat
    var vssdId: U32
    ghost var parts: set<object>

    ghost predicate Valid()
      reads this, parts
    {
      && this !in parts && Inside(units, parts) && Apart(units) && UnitsValid(units, parts) && count == |units|
    }

    ghost function View(): System
      requires Valid()
      reads this, parts
    {
      System(UnitViews(units, parts), vssdId)
    }

    constructor ()
      ensures Valid() && fresh(parts) && View() == START
    {
      units, count, vssdId, parts := [], 0, 0, {};
    }

    method AddOcssd(name: seq<Byte>, geo: Geometry)
      requires Valid() && NameOk(name) && GeoOk(geo)
      modifies this
      ensures Valid() && fresh(parts - old(parts)) && View() == Step(old(View()), Add(name, geo)).0
    {
      hide UnitsValid, Inside, Apart, UnitViews, FreshUnit, NameOk, GeoOk;
      var unit := new PhysicalUnit(name, geo);
      ExtendUnits(units, unit, parts);
      units := units + [unit];
      parts := parts + unit.Repr;
      count := count + 1;
    }

    /** Lets one unit serve the request; the others are not affected. */
    method AskUnit(vssd: VirtualOcssd, request: PendingRequest, unit: PhysicalUnit, ghost k: nat)
      returns (channels: nat)
      requires Valid() && k < |units| && unit == units[k] && vssd !in parts && request !in parts
      modifies parts, vssd
      ensures Valid() && request.fields == old(request.fields)
      ensures var u := old(View()).units[k]; var r := UnitAlloc(u, request.fields.channels, request.fields);
              && View().units == old(View()).units[k := r.0] && channels == |r.1|
              && vssd.id == old(vssd.id) && vssd.units == old(vssd.units) + AsUnit(u, r.1)
    {
      hide UnitAlloc;
      UnitViewAt(units, parts, k);
      channels := unit.AllocChannels(vssd, request);
      forall i | 0 <= i < |units| && i != k
        ensures units[i].Valid() && units[i].View() == old(units[i].View())
      {
        assert units[i].Repr !! units[k].Repr && old(units[i].Valid());
      }
    }

    /** The loop over the units, with its early exit, computes the walk on values. */
    method WalkUnits(vssd: VirtualOcssd, request: PendingRequest) returns (channels: nat)
      requires Valid() && vssd !in parts && request !in parts && vssd.units == []
      modifies parts, vssd, request
      ensures Valid()
      ensures (View().units, vssd.units)
              == UnitsAlloc(old(View()).units, old(request.fields).channels, old(request.fields))
      ensures channels == ChannelCount(vssd.units) <= old(request.fields).channels
      ensures request.fields == old(request.fields).(channels := old(request.fields).channels - channels)
    {
      hide UnitAlloc, UnitsAlloc, UnitWalk, UnitsValid, Inside, Apart, UnitViews, Minus32, AsUnit, ChannelCount;
      NoUnitsCounted();
      channels := 0;
      ghost var req, vs := request.fields, View().units;
      ghost var goal := UnitsAlloc(vs, req.channels, req);
      UnitWalkStarts(vs, req.channels, req);
      var i := 0;
      while i < |units|
        invariant 0 <= i <= |units| && Valid() && View().units == vs
        invariant channels == ChannelCount(vssd.units) <= req.channels
        invariant request.fields == req.(channels := req.channels - channels)
        invariant UnitWalk(goal, vs, i, vssd.units, request.fields.channels, req)
      {
        ghost var before, left := vssd.units, request.fields.channels;
        OnlyCountDiffers(vs[i], left, req, request.fields);
        UnitWalkStep(goal, vs, i, before, left, req);
        var ret := AskUnit(vssd, request, units[i], i);
        CountSnoc(before, vs[i], UnitAlloc(vs[i], left, req).1);
        vs := View().units;
        i := i + 1;
        channels := channels + ret;
        request.DecChannels(ret);
        if request.fields.channels == 0 {
          break;
        }
      }
      UnitWalkEnds(goal, vs, i, vssd.units, request.fields.channels, req);
    }

    /** Walks the units, shrinking the request's channel count by what each one gave: the count
        never drops below zero, and the outcome is one request step. */
    method AllocOcssdResource(vssd: VirtualOcssd, request: PendingRequest) returns (channels: nat)
      requires Valid() && vssd !in parts && request !in parts && vssd.units == []
      modifies this, parts, vssd, request
      ensures Valid() && units == old(units) && parts == old(parts)
      ensures (View(), vssd.Value()) == Alloc(old(View()), old(request.fields))
      ensures channels == ChannelCount(vssd.units) <= old(request.fields).channels
      ensures request.fields == old(request.fields).(channels := old(request.fields).channels - channels)
    {
      hide UnitsAlloc, UnitsValid, Inside, Apart, UnitViews, ChannelCount;
      channels := WalkUnits(vssd, request);
      vssd.SetId(vssdId);
      vssdId := (vssdId + 1) % TWO_32;
    }
  }

  lemma NoUnitsCounted()
    ensures ChannelCount([]) == 0
  {
  }

  lemma {:induction false} CountSnoc(us: seq<VUnit>, u: UnitState, cs: seq<VChannel>)
    ensures ChannelCount(us + AsUnit(u, cs)) == ChannelCount(us) + |cs|
  {
    var last := AsUnit(u, cs);
    if us == [] {
      assert us + last == last;
      assert last != [] ==> last[1..] == [];
    } else {
      assert (us + last)[1..] == us[1..] + last;
      CountSnoc(us[1..], u, cs);
    }
  }
}
