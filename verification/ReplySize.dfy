/** The size of an allocation reply against the fixed reply buffer (ocssd_conn.h, 16 and 316-331). */
module ReplySize {
  import opened Bytes
  import opened VirtualSsd
  import opened Allocation
  import opened Accounting

  const VSSD_BUFFER_SIZE: nat := 1024

  /** Wire size of a granted channel of a device. */
  function ChannelSize(shared: nat, geo: Geometry): nat { if shared == 1 then 16 + 12 * geo.nluns else 16 }

  lemma {:induction false} GrantedChannelsLength(cs: seq<VChannel>, shared: nat, geo: Geometry)
    requires GrantedChannels(cs, geo) && forall i :: 0 <= i < |cs| ==> cs[i].shared == shared
    ensures LenChannels(cs) == |cs| * ChannelSize(shared, geo)
  {
    if cs != [] {
      GrantedChannelsLength(cs[1..], shared, geo);
      var k := ChannelSize(shared, geo);
      assert GrantedChannel(cs[0], geo);
      assert |cs| * k == |cs[1..]| * k + k by { MulSucc(k, |cs[1..]|); }
    }
  }

  /** A granted unit takes 80 bytes, its padded name, and per channel 16 bytes plus 12 per LUN
      when shared. */
  lemma GrantedUnitLength(u: VUnit)
    requires GrantedUnit(u)
    ensures LenUnit(u) == 80 + PaddedName(u.name) + |u.channels| * ChannelSize(u.channels[0].shared, u.geo)
  {
    GrantedChannelsLength(u.channels, u.channels[0].shared, u.geo);
  }

  /** The largest reply a node with this one device can produce. */
  function ReplyBound(name: seq<Byte>, geo: Geometry): nat {
    var n := Min(MAX_SHARED, geo.nchannels);
    92 + PaddedName(name) + Max(n * ChannelSize(1, geo), (geo.nchannels - n) * ChannelSize(0, geo))
  }

  lemma {:induction false} GrantsAtMostAll(cs: seq<Chan>, per: nat, want: nat)
    ensures |SharedAlloc(cs, per, want).1| <= |cs| && |ExclusiveAlloc(cs, want).1| <= |cs|
  {
    if cs != [] && want > 0 {
      GrantsAtMostAll(cs[1..], per, want - 1);
      GrantsAtMostAll(cs[1..], per, want);
    }
  }

  lemma OpenFresh(first: nat, n: nat, geo: Geometry)
    requires geo.nluns > 0 && geo.nblocks > 0
    ensures OpenChans(FreshChans(first, n, geo)) == n
    decreases n
  {
    if n > 0 {
      assert FreshChans(first, n, geo)[1..] == FreshChans(first + 1, n - 1, geo);
      OpenFresh(first + 1, n - 1, geo);
      OpenChan(FreshChans(first, n, geo)[0]);
    }
  }
}
