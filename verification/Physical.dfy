/** The devices as the server keeps them: mutable LUN, channel and unit objects
    (ocssd_server.h, 757-1099), proved against the value-level allocator. */
module Physical {
  import opened Bytes
  import opened VirtualSsd
  import opened Requests
  import opened Allocation
  import opened Ownership
  import opened Accounting
  import opened Serializer

  class Lun {
    const lunId: nat
    const numBlocks: nat
    var numUsed: nat

    constructor (lunId: nat, numBlocks: nat)
      ensures this.lunId == lunId && this.numBlocks == numBlocks && numUsed == 0
    {
      this.lunId, this.numBlocks, this.numUsed := lunId, numBlocks, 0;
    }

    /** A bump allocator: gives the next blocks, as many as asked or as are left. */
    method AllocBlocks(request: nat) returns (given: nat, start: nat, count: nat)
      requires numUsed <= numBlocks
      modifies this
      ensures given == Min(request, numBlocks - old(numUsed))
      ensures numUsed == old(numUsed) + given
      ensures start == (if given > 0 then old(numUsed) else 0) && count == given
    {
      start, count := 0, 0;
      if numUsed == numBlocks || request == 0 {
        return 0, start, count;
      }
      given := Min(request, numBlocks - numUsed);
      start, count := numUsed, given;
      numUsed := numUsed + given;
    }
  }

  class Channel {
    const channelId: nat
    const numLuns: nat
    const numBlocks: nat
    const numTotalBlocks: nat
    const luns: seq<Lun>
    var numUsedBlocks: nat
    var shared: bool
    var used: bool
    ghost var level: nat
    ghost const Repr: set<object>

    /** Lockstep: all LUNs have handed out the same number of blocks. */
    ghost predicate Valid()
      reads this, Repr
    {
      && this in Repr
      && |luns| == numLuns && numTotalBlocks == numBlocks * numLuns
      && (forall i :: 0 <= i < |luns| ==>
            && luns[i] in Repr && luns[i].lunId == i && luns[i].numBlocks == numBlocks && luns[i].numUsed == level)
      && (forall i, j :: 0 <= i < j < |luns| ==> luns[i] != luns[j])
      && level <= numBlocks
      && numUsedBlocks == numLuns * level
    }

    ghost function View(): Chan
      reads this
    {
      Chan(channelId, numLuns, numBlocks, level, used)
    }

    constructor (channelId: nat, numLuns: nat, numBlocks: nat)
      ensures Valid() && fresh(Repr)
      ensures View() == Chan(channelId, numLuns, numBlocks, 0, false) && !shared
    {
      this.channelId, this.numLuns, this.numBlocks := channelId, numLuns, numBlocks;
      this.shared, this.used, this.numUsedBlocks, this.level := false, false, 0, 0;
      this.numTotalBlocks := numBlocks * numLuns;
      var ls: seq<Lun> := [];
      var i := 0;
      while i < numLuns
        invariant 0 <= i <= numLuns && |ls| == i
        invariant forall j :: 0 <= j < i ==> fresh(ls[j]) && ls[j].lunId == j
        invariant forall j :: 0 <= j < i ==> ls[j].numBlocks == numBlocks && ls[j].numUsed == 0
        invariant forall j, k :: 0 <= j < k < i ==> ls[j] != ls[k]
      {
        var lun := new Lun(i, numBlocks);
        ls := ls + [lun];
        i := i + 1;
      }
      this.luns := ls;
      ghost var parts: set<object> := set l | l in ls;
      this.Repr := {this} + parts;
    }

    method SetShared()
      requires Valid()
      modifies this
      ensures Valid() && shared && View() == old(View())
    {
      shared := true;
    }

    method SetUsed()
      requires Valid()
      modifies this
      ensures Valid() && View() == old(View()).(taken := true) && shared == old(shared)
    {
      used := true;
    }

    method GetFreeBlocks() returns (free: nat)
      requires Valid()
      ensures free == FreeChan(View())
    {
      assert numLuns * (numBlocks - level) == numTotalBlocks - numUsedBlocks;
      assert numLuns * (numBlocks - level) >= 0;
      if used {
        return 0;
      }
      free := numTotalBlocks - numUsedBlocks;
    }

    /** The loop over the LUNs, with its full check and its early exit, gives every LUN the same
        extent: it computes the single-counter step. */
    method AllocBlocks(request: nat) returns (given: nat, units: seq<VLun>)
      requires Valid()
      modifies Repr
      ensures Valid()
      ensures var c := old(View()); var q := Quota(c, request);
              && View() == c.(level := c.level + q)
              && given == c.luns * q
              && (q > 0 ==> units == LunRow(c.luns, c.level, q))
      ensures shared == old(shared)
    {
      given, units := 0, [];
      ghost var c := View();
      ghost var q := Quota(c, request);
      FullWhen(c);
      if numUsedBlocks == numTotalBlocks || request == 0 {
        return;
      }
      QuotaBounds(c, request);
      given, units := DistributeOverLuns(request, request / numLuns, q);
      numUsedBlocks := numUsedBlocks + given;
      level := level + q;
      MulPlus(numLuns, c.level, q);
    }

    method DistributeOverLuns(request: nat, perLun: nat, ghost q: nat) returns (given: nat, units: seq<VLun>)
      requires Valid() && level < numBlocks && q == Min(perLun, numBlocks - level)
      requires 0 < request && numLuns * q <= request
      modifies luns
      ensures forall j :: 0 <= j < |luns| ==> luns[j].numUsed == level + q
      ensures given == numLuns * q
      ensures q > 0 ==> units == LunRow(numLuns, level, q)
    {
      given, units := 0, [];
      var left := request;
      var i := 0;
      while i < |luns|
        invariant 0 <= i <= |luns| && |units| == i
        invariant forall j :: 0 <= j < |luns| ==> luns[j].numUsed == if j < i then level + q else level
        invariant forall j :: 0 <= j < i ==> units[j] == VLun(j, if q > 0 then level else 0, q)
        invariant given == i * q && left == request - i * q
      {
        var lun := luns[i];
        i := i + 1;
        if lun.numUsed < numBlocks {
          var ret, start, count := lun.AllocBlocks(perLun);
          units := units + [VLun(lun.lunId, start, count)];
          StillOwed(q, i, numLuns);
          left := left - ret;
          given := given + ret;
          if left == 0 {
            ExitsLast(q, i, numLuns, request);
            break;
          }
        }
      }
    }
  }

  lemma StillOwed(q: nat, i: nat, n: nat)
    requires 0 < i <= n
    ensures i * q == (i - 1) * q + q && i * q <= n * q
  {
    MulMono(q, i, n);
  }

  lemma FullWhen(c: Chan)
    ensures c.luns * c.level == c.blocks * c.luns <==> c.luns == 0 || c.level == c.blocks
  {
  }

  /** Once nothing is left to hand out, the LUN just served was the last one. */
  lemma ExitsLast(q: nat, i: nat, n: nat, request: nat)
    requires request > 0 && i <= n && i * q == request && n * q <= request
    ensures i == n
  {
    if i < n {
      MulMono(q, i + 1, n);
      MulSucc(q, i);
    }
  }

  // ---------------------------------------------------------------- lists of channels

  ghost function Views(cs: seq<Channel>): (r: seq<Chan>)
    reads cs
    ensures |r| == |cs|
  {
    seq(|cs|, i requires 0 <= i < |cs| reads cs => cs[i].View())
  }

  lemma ViewAt(cs: seq<Channel>, k: nat)
    requires k < |cs|
    ensures Views(cs)[k] == cs[k].View()
  {
  }

  ghost predicate Separate(cs: seq<Channel>) {
    forall i, j :: 0 <= i < j < |cs| ==> cs[i].Repr !! cs[j].Repr
  }

  ghost predicate Within(cs: seq<Channel>, repr: set<object>) {
    forall i :: 0 <= i < |cs| ==> cs[i] in repr && cs[i].Repr <= repr
  }

  ghost predicate AllValid(cs: seq<Channel>, repr: set<object>)
    requires Within(cs, repr)
    reads repr
  {
    forall i :: 0 <= i < |cs| ==> cs[i].Valid()
  }

  lemma ValidAt(cs: seq<Channel>, k: nat, repr: set<object>)
    requires Within(cs, repr) && AllValid(cs, repr) && k < |cs|
    ensures cs[k].Valid()
  {
  }

  lemma MemberOf(cs: seq<Channel>, k: nat, repr: set<object>)
    requires Within(cs, repr) && k < |cs|
    ensures cs[k] in repr
  {
  }

  lemma SubList(cs: seq<Channel>, lo: nat, hi: nat, repr: set<object>)
    requires Within(cs, repr) && AllValid(cs, repr) && lo <= hi <= |cs|
    ensures Within(cs[lo..hi], repr) && AllValid(cs[lo..hi], repr)
    ensures Views(cs[lo..hi]) == Views(cs)[lo..hi]
  {
  }

  method ListStats(cs: seq<Channel>, ghost repr: set<object>) returns (open: nat, blocks: nat)
    requires Within(cs, repr) && AllValid(cs, repr)
    ensures open == OpenChans(Views(cs)) && blocks == FreeChans(Views(cs))
  {
    open, blocks := 0, 0;
    ghost var vs := Views(cs);
    assert vs[0..] == vs;
    for i := 0 to |cs|
      invariant OpenChans(vs) == open + OpenChans(vs[i..]) && FreeChans(vs) == blocks + FreeChans(vs[i..])
    {
      var free := cs[i].GetFreeBlocks();
      assert vs[i..][0] == cs[i].View() && vs[i..][1..] == vs[i + 1..];
      if free > 0 {
        blocks := blocks + free;
        open := open + 1;
      }
    }
  }

  // ---------------------------------------------------------------- the request object

  function Minus32(a: U32, b: nat): (r: U32)
    ensures b <= a ==> r == a - b
  {
    (a - b) % TWO_32
  }

  /** A request being served: its channel count shrinks, in 32-bit arithmetic. */
  class PendingRequest {
    var fields: AllocRequest

    constructor (fields: AllocRequest)
      ensures this.fields == fields
    {
      this.fields := fields;
    }

    method DecChannels(channels: nat)
      modifies this
      ensures fields == old(fields).(channels := Minus32(old(fields).channels, channels))
    {
      fields := fields.(channels := Minus32(fields.channels, channels));
    }
  }

  // ---------------------------------------------------------------- one device

  lemma Extend(cs: seq<Channel>, channel: Channel, repr: set<object>)
    requires Within(cs, repr) && Separate(cs) && AllValid(cs, repr) && channel.Repr !! repr && channel.Valid()
    ensures Within(cs + [channel], repr + channel.Repr) && Separate(cs + [channel])
    ensures AllValid(cs + [channel], repr + channel.Repr) && Views(cs + [channel]) == Views(cs) + [channel.View()]
  {
  }

  method InitializeDev(geo: Geometry) returns (sh: seq<Channel>, ex: seq<Channel>, ghost parts: set<object>)
    ensures fresh(parts) && Within(sh + ex, parts) && Separate(sh + ex) && AllValid(sh + ex, parts)
    ensures Views(sh + ex) == FreshChans(0, geo.nchannels, geo) && |sh| == Min(4, geo.nchannels)
  {
    hide Within, Separate, AllValid, Views;
    sh, ex, parts := [], [], {};
    NoChannels();
    var id := 0;
    while id < geo.nchannels
      invariant 0 <= id <= geo.nchannels && |sh| == Min(MAX_SHARED, id) && |sh| + |ex| == id
      invariant fresh(parts) && Within(sh + ex, parts) && Separate(sh + ex) && AllValid(sh + ex, parts)
      invariant Views(sh + ex) == FreshChans(0, id, geo)
    {
      ghost var before := sh + ex;
      var channel := new Channel(id, geo.nluns, geo.nblocks);
      if |sh| < MAX_SHARED {
        channel.SetShared();
        sh := sh + [channel];
      } else {
        ex := ex + [channel];
      }
      assert sh + ex == before + [channel];
      assert AllValid(before, parts) && Views(before) == FreshChans(0, id, geo);
      Extend(before, channel, parts);
      parts := parts + channel.Repr;
      assert FreshChans(0, id, geo) + [channel.View()] == FreshChans(0, id + 1, geo);
      id := id + 1;
    }
  }

  lemma NoChannels()
    ensures var none: seq<Channel> := []; Within(none, {}) && Separate(none) && AllValid(none, {}) && Views(none) == []
    ensures var none: seq<Channel> := []; none + none == none
  {
  }

  class PhysicalUnit {
    const name: seq<Byte>
    const geo: Geometry
    const shared: seq<Channel>
    const exclusive: seq<Channel>
    ghost const all: seq<Channel>
    ghost const Repr: set<object>

    ghost predicate Valid()
      reads Repr
    {
      && all == shared + exclusive && Within(all, Repr) && Separate(all) && AllValid(all, Repr)
      && UnitStateOk(View())
    }

    ghost function View(): UnitState
      requires Within(all, Repr)
      reads Repr
    {
      UnitState(name, geo, Views(all)[..Min(|shared|, |all|)], Views(all)[Min(|shared|, |all|)..])
    }

    /** Opens a device: builds its channels in order and marks the first four shared. */
    constructor (name: seq<Byte>, geo: Geometry)
      requires NameOk(name) && GeoOk(geo)
      ensures Valid() && fresh(Repr) && View() == FreshUnit(name, geo)
    {
      this.name, this.geo := name, geo;
      var sh, ex, parts := InitializeDev(geo);
      this.shared, this.exclusive, this.all, this.Repr := sh, ex, sh + ex, parts;
      FreshUnitOk(name, geo);
      new;
      assert View().shared == FreshUnit(name, geo).shared;
      assert View().exclusive == FreshUnit(name, geo).exclusive;
    }

    /** Open channels and free blocks, as published. */
    method GetStats() returns (numShared: nat, numExclusive: nat, freeBlocks: nat)
      requires Valid()
      ensures numShared == OpenChans(View().shared) && numExclusive == OpenChans(View().exclusive)
      ensures freeBlocks == FreeUnit(View())
    {
      var blocks;
      numShared, blocks := ListStats(shared, Repr)
        by { assert shared == all[..|shared|]; SubList(all, 0, |shared|, Repr); }
      numExclusive, freeBlocks := ListStats(exclusive, Repr)
        by { assert exclusive == all[|shared|..|all|]; SubList(all, |shared|, |all|, Repr); }
      freeBlocks := blocks + freeBlocks;
      assert Views(shared) == View().shared && Views(exclusive) == View().exclusive;
    }

    /** Serves a request from this device and adds what was granted to the virtual SSD. */
    method AllocChannels(vssd: VirtualOcssd, request: PendingRequest) returns (channels: nat)
      requires Valid() && vssd !in Repr && request !in Repr
      modifies Repr, vssd
      ensures Valid()
      ensures var r := UnitAlloc(old(View()), request.fields.channels, request.fields);
              && View() == r.0 && channels == |r.1|
              && vssd.id == old(vssd.id) && vssd.units == old(vssd.units) + AsUnit(old(View()), r.1)
    {
      channels := 0;
      if request.fields.channels == 0 {
        return;
      }
      var granted: seq<VChannel>;
      if request.fields.shared == 1 {
        channels, granted := AllocSharedChannels(request.fields.channels, request.fields.blocks);
      } else {
        channels, granted := AllocExclusiveChannels(request.fields.channels);
      }
      if channels != 0 {
        vssd.Add(VUnit(name, geo, granted));
      }
    }

    /** Asks one of the unit's channels for blocks; the others are not affected. */
    method AskChannel(channel: Channel, request: nat, ghost k: nat) returns (given: nat, units: seq<VLun>)
      requires Within(all, Repr) && Separate(all) && AllValid(all, Repr) && k < |all| && channel == all[k]
      modifies Repr
      ensures AllValid(all, Repr) && Views(all) == old(Views(all))[k := channel.View()]
      ensures var c := old(channel.View()); var q := Quota(c, request);
              && channel.View() == c.(level := c.level + q)
              && given == c.luns * q
              && (q > 0 ==> units == LunRow(c.luns, c.level, q))
    {
      given, units := channel.AllocBlocks(request);
      forall i | 0 <= i < |all| && i != k
        ensures all[i].Valid() && all[i].View() == old(all[i].View())
      {
        assert old(all[i].Valid()) && all[i] in all[i].Repr;
        assert all[i].Repr !! all[k].Repr;
      }
    }

    /** Walks the shared channels until enough of them gave blocks. */
    method WalkShared(want: nat, perChannel: nat) returns (channels: nat, granted: seq<VChannel>)
      requires Valid() && want > 0
      modifies Repr
      ensures AllValid(all, Repr) && channels == |granted|
      ensures var u := old(View()); var r := SharedAlloc(u.shared, perChannel, want);
              Views(all) == r.0 + u.exclusive && granted == r.1
    {
      hide AllValid, Separate, Within, UnitStateOk, SharedAlloc, Views, SharedWalk, Quota, LunRow, SharedGrant;
      channels, granted := 0, [];
      ghost var u, vs := View(), Views(all);
      ghost var goal := SharedAlloc(u.shared, perChannel, want);
      assert vs == u.shared + u.exclusive;
      SharedWalkStarts(goal, vs, |shared|, perChannel, want);
      var i := 0;
      while i < |shared|
        invariant 0 <= i <= |shared| && channels == |granted| < want
        invariant AllValid(all, Repr) && Views(all) == vs
        invariant SharedWalk(goal, u.exclusive, vs, |shared|, i, granted, perChannel, want - channels)
      {
        var channel := shared[i];
        ViewAt(all, i);
        ghost var c := channel.View();
        var given, units := AskChannel(channel, perChannel, i);
        GivesWhen(c, perChannel);
        SharedWalkStep(goal, u.exclusive, vs, |shared|, i, granted, perChannel, want - channels);
        vs := vs[i := channel.View()];
        i := i + 1;
        if given > 0 {
          var vchannel := ChannelFromUnits(channel.channelId, 1, units);
          GrantListed(c, Quota(c, perChannel));
          granted := granted + [vchannel];
          channels := channels + 1;
          if channels == want {
            break;
          }
        }
      }
      SharedWalkEnds(goal, u.exclusive, vs, |shared|, i, granted, perChannel, want - channels);
    }

    method AllocSharedChannels(want: nat, blocks: nat) returns (channels: nat, granted: seq<VChannel>)
      requires Valid() && want > 0
      modifies Repr
      ensures Valid() && channels == |granted|
      ensures var r := SharedAlloc(old(View()).shared, blocks / want, want);
              View() == old(View()).(shared := r.0) && granted == r.1
    {
      hide AllValid, Separate, Within, UnitStateOk, SharedAlloc, Views;
      ghost var u := View();
      var perChannel := blocks / want;
      channels, granted := WalkShared(want, perChannel);
      SharedAllocKeepsUnit(u, perChannel, want);
      ghost var after := SharedAlloc(u.shared, perChannel, want).0;
      assert (after + u.exclusive)[..|shared|] == after && (after + u.exclusive)[|shared|..] == u.exclusive;
    }

    /** Marks one exclusive channel as taken; the others are not affected. */
    method TakeChannel(channel: Channel, ghost k: nat)
      requires Within(all, Repr) && Separate(all) && AllValid(all, Repr) && k < |all| && channel == all[k]
      modifies channel
      ensures AllValid(all, Repr) && Views(all) == old(Views(all))[k := channel.View()]
      ensures channel.View() == old(channel.View()).(taken := true)
    {
      channel.SetUsed();
      forall i | 0 <= i < |all| && i != k
        ensures all[i].Valid() && all[i].View() == old(all[i].View())
      {
        assert old(all[i].Valid()) && all[i] in all[i].Repr;
        assert all[i].Repr !! all[k].Repr;
      }
    }

    /** Walks the exclusive channels until enough unused ones are found. */
    method AllocExclusiveChannels(want: nat) returns (channels: nat, granted: seq<VChannel>)
      requires Valid() && want > 0
      modifies Repr
      ensures Valid() && channels == |granted|
      ensures var r := ExclusiveAlloc(old(View()).exclusive, want);
              View() == old(View()).(exclusive := r.0) && granted == r.1
    {
      hide AllValid, Separate, Within, UnitStateOk, ExclusiveAlloc, Views, ExclusiveWalk;
      channels, granted := 0, [];
      ghost var u, vs := View(), Views(all);
      ghost var goal := ExclusiveAlloc(u.exclusive, want);
      assert vs == u.shared + u.exclusive;
      ExclusiveWalkStarts(goal, u.shared, vs, want);
      var i := 0;
      while i < |exclusive|
        invariant 0 <= i <= |exclusive| && channels == |granted| < want
        invariant AllValid(all, Repr) && Views(all) == vs
        invariant ExclusiveWalk(goal, u.shared, vs, |shared| + i, granted, want - channels)
      {
        var channel := exclusive[i];
        ghost var k := |shared| + i;
        ViewAt(all, k);
        ExclusiveWalkStep(goal, u.shared, vs, k, granted, want - channels);
        i := i + 1;
        if channel.used {
          continue;
        }
        assert channel.Valid() by { ValidAt(all, k, Repr); }
        TakeChannel(channel, k) by { MemberOf(all, k, Repr); }
        vs := vs[k := channel.View()];
        granted := granted + [VChannel(channel.channelId, 0, channel.numTotalBlocks, channel.numLuns, [])];
        channels := channels + 1;
        if channels == want {
          break;
        }
      }
      ExclusiveWalkEnds(goal, u.shared, vs, |shared| + i, granted, want - channels);
      ExclusiveAllocKeepsUnit(u, want);
      assert (u.shared + goal.0)[..|shared|] == u.shared && (u.shared + goal.0)[|shared|..] == goal.0;
    }
  }

  // ---------------------------------------------------------------- walks, on values

  /** A walk over the first `n` of the channels `vs` stands at `i`: finishing it gives `goal`. */
  ghost predicate SharedWalk(goal: (seq<Chan>, seq<VChannel>), others: seq<Chan>, vs: seq<Chan>, n: nat, i: nat,
                             granted: seq<VChannel>, per: nat, left: nat) {
    && i <= n <= |vs| && vs[n..] == others
    && var rest := SharedAlloc(vs[i..n], per, left);
       goal == (vs[..i] + rest.0, granted + rest.1)
  }

  lemma {:induction false} SharedWalkStarts(goal: (seq<Chan>, seq<VChannel>), vs: seq<Chan>, n: nat,
                                            per: nat, left: nat)
    requires n <= |vs| && goal == SharedAlloc(vs[..n], per, left)
    ensures SharedWalk(goal, vs[n..], vs, n, 0, [], per, left)
  {
    assert vs[0..n] == vs[..n];
    assert vs[..0] + goal.0 == goal.0 && [] + goal.1 == goal.1;
  }

  lemma SharedWalkStep(goal: (seq<Chan>, seq<VChannel>), others: seq<Chan>, vs: seq<Chan>, n: nat, i: nat,
                       granted: seq<VChannel>, per: nat, left: nat)
    requires i < n && left > 0 && SharedWalk(goal, others, vs, n, i, granted, per, left)
    ensures var c := vs[i]; var q := Quota(c, per); var after := vs[i := c.(level := c.level + q)];
            if q > 0 then SharedWalk(goal, others, after, n, i + 1, granted + [SharedGrant(c, q)], per, left - 1)
            else SharedWalk(goal, others, after, n, i + 1, granted, per, left)
  {
    hide Quota, SharedGrant;
    var c := vs[i];
    var q := Quota(c, per);
    var d, g := c.(level := c.level + q), SharedGrant(c, q);
    var after := vs[i := d];
    assert vs[i..n][0] == c && vs[i..n][1..] == vs[i + 1..n] == after[i + 1..n];
    assert after[n..] == vs[n..] && after[..i + 1] == vs[..i] + [d];
    var rest := SharedAlloc(vs[i + 1..n], per, if q > 0 then left - 1 else left);
    assert vs[..i] + ([d] + rest.0) == after[..i + 1] + rest.0;
    assert granted + ([g] + rest.1) == granted + [g] + rest.1;
  }

  lemma SharedWalkEnds(goal: (seq<Chan>, seq<VChannel>), others: seq<Chan>, vs: seq<Chan>, n: nat, i: nat,
                       granted: seq<VChannel>, per: nat, left: nat)
    requires (i == n || left == 0) && SharedWalk(goal, others, vs, n, i, granted, per, left)
    ensures vs == goal.0 + others && granted == goal.1
  {
    assert vs == vs[..i] + vs[i..n] + vs[n..];
    assert granted + [] == granted;
  }

  ghost predicate ExclusiveWalk(goal: (seq<Chan>, seq<VChannel>), others: seq<Chan>, vs: seq<Chan>, i: nat,
                                granted: seq<VChannel>, left: nat) {
    && i <= |vs|
    && var rest := ExclusiveAlloc(vs[i..], left);
       others + goal.0 == vs[..i] + rest.0 && goal.1 == granted + rest.1
  }

  lemma {:induction false} ExclusiveWalkStarts(goal: (seq<Chan>, seq<VChannel>), others: seq<Chan>,
                                               vs: seq<Chan>, left: nat)
    requires |others| <= |vs| && others == vs[..|others|] && goal == ExclusiveAlloc(vs[|others|..], left)
    ensures ExclusiveWalk(goal, others, vs, |others|, [], left)
  {
    assert [] + goal.1 == goal.1;
  }

  lemma ExclusiveWalkStep(goal: (seq<Chan>, seq<VChannel>), others: seq<Chan>, vs: seq<Chan>, i: nat,
                          granted: seq<VChannel>, left: nat)
    requires i < |vs| && left > 0 && ExclusiveWalk(goal, others, vs, i, granted, left)
    ensures var c := vs[i]; var after := vs[i := c.(taken := true)];
            if c.taken then ExclusiveWalk(goal, others, vs, i + 1, granted, left)
            else ExclusiveWalk(goal, others, after, i + 1, granted + [ExclusiveGrant(c)], left - 1)
  {
    hide ExclusiveGrant;
    var c := vs[i];
    var g, after := ExclusiveGrant(c), vs[i := c.(taken := true)];
    assert vs[i..][0] == c && vs[i..][1..] == vs[i + 1..] == after[i + 1..];
    assert vs[..i + 1] == vs[..i] + [c] && after[..i + 1] == vs[..i] + [after[i]];
    var rest := ExclusiveAlloc(vs[i + 1..], if c.taken then left else left - 1);
    assert vs[..i] + ([c] + rest.0) == vs[..i + 1] + rest.0;
    assert vs[..i] + ([after[i]] + rest.0) == after[..i + 1] + rest.0;
    assert granted + ([g] + rest.1) == granted + [g] + rest.1;
  }

  lemma ExclusiveWalkEnds(goal: (seq<Chan>, seq<VChannel>), others: seq<Chan>, vs: seq<Chan>, i: nat,
                          granted: seq<VChannel>, left: nat)
    requires (i == |vs| || left == 0) && ExclusiveWalk(goal, others, vs, i, granted, left)
    ensures vs == others + goal.0 && granted == goal.1
  {
    assert vs == vs[..i] + vs[i..];
    assert granted + [] == granted;
  }

  lemma {:induction false} ExclusiveAllocKeepsUnit(u: UnitState, want: nat)
    requires UnitStateOk(u)
    ensures UnitStateOk(u.(exclusive := ExclusiveAlloc(u.exclusive, want).0))
  {
    ExclusiveAllocKeeps(u.exclusive, want, |u.shared|, u.geo);
  }

  lemma {:induction false} SharedAllocKeepsUnit(u: UnitState, per: nat, want: nat)
    requires UnitStateOk(u)
    ensures UnitStateOk(u.(shared := SharedAlloc(u.shared, per, want).0))
  {
    SharedAllocKeeps(u.shared, per, want, 0, u.geo);
  }

  lemma GivesWhen(c: Chan, request: nat)
    ensures c.luns * Quota(c, request) > 0 <==> Quota(c, request) > 0
  {
    if Quota(c, request) > 0 { MulMono(c.luns, 1, Quota(c, request)); }
  }

  lemma GrantListed(c: Chan, q: nat)
    ensures var row := LunRow(c.luns, c.level, q); SharedGrant(c, q) == VChannel(c.id, 1, SumCounts(row), |row|, row)
  {
    RowTotal(c.luns, c.level, q);
  }

  function SumCounts(ls: seq<VLun>): nat {
    if ls == [] then 0 else SumCounts(ls[..|ls| - 1]) + ls[|ls| - 1].count
  }

  lemma {:induction false} RowTotal(n: nat, start: nat, count: nat)
    ensures SumCounts(LunRow(n, start, count)) == n * count
  {
    if n > 0 {
      assert LunRow(n, start, count)[..n - 1] == LunRow(n - 1, start, count);
      RowTotal(n - 1, start, count);
      MulSucc(count, n - 1);
    }
  }

  /** The constructor that lists the LUNs of a shared channel and totals their blocks. */
  method ChannelFromUnits(id: nat, shared: nat, units: seq<VLun>) returns (c: VChannel)
    ensures c == VChannel(id, shared, SumCounts(units), |units|, units)
  {
    var luns: seq<VLun>, total, numLuns := [], 0, 0;
    for i := 0 to |units|
      invariant luns == units[..i] && total == SumCounts(units[..i]) && numLuns == i
    {
      assert units[..i + 1][..i] == units[..i];
      luns := luns + [units[i]];
      total := total + units[i].count;
      numLuns := numLuns + 1;
    }
    assert units[..|units|] == units;
    c := VChannel(id, shared, total, numLuns, luns);
  }
}
