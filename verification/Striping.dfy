/** Laying the granted blocks of one unit out as vblks, one block of every LUN at a time
    (ocssd_conn.h, 206-277; ocssd_server.h, 86-100, 495-505, 590-594). */
module Striping {
  import opened Bytes
  import opened VirtualSsd
  import opened Allocation
  import opened Ownership

  datatype Addr = Addr(channel: nat, lun: nat, block: nat)

  /** A run of granted blocks of one LUN, `start` up to but not including `end`. */
  datatype Extent = Extent(channel: nat, lun: nat, start: nat, end: nat)

  function ExtentLen(e: Extent): nat { if e.start <= e.end then e.end - e.start else 0 }

  // ---------------------------------------------------------------- extents of a unit

  function LunExtent(channel: nat, l: VLun): Extent { Extent(channel, l.id, l.start, l.start + l.count) }

  function LunExtents(channel: nat, ls: seq<VLun>): (r: seq<Extent>)
    ensures |r| == |ls|
  {
    seq(|ls|, i requires 0 <= i < |ls| => LunExtent(channel, ls[i]))
  }

  /** Extents walked from block zero to their end. */
  function ZeroExtents(channel: nat, ls: seq<VLun>): (r: seq<Extent>)
    ensures |r| == |ls|
  {
    seq(|ls|, i requires 0 <= i < |ls| => LunExtent(channel, ls[i]).(start := 0))
  }

  function WholeExtents(channel: nat, n: nat, nblocks: nat): (r: seq<Extent>)
    ensures |r| == n
  {
    seq(n, i requires 0 <= i => Extent(channel, i, 0, nblocks))
  }

  /** The extents of a channel in traversal order; an exclusive channel has all blocks of all LUNs. */
  function ChannelExtents(c: VChannel, nblocks: nat): (r: seq<Extent>) {
    if c.shared == 1 then LunExtents(c.id, c.luns)
    else if c.shared > 1 then ZeroExtents(c.id, c.luns)
    else WholeExtents(c.id, c.numLuns, nblocks)
  }

  function Extents(cs: seq<VChannel>, nblocks: nat): seq<Extent> {
    if cs == [] then [] else Extents(cs[..|cs| - 1], nblocks) + ChannelExtents(cs[|cs| - 1], nblocks)
  }

  predicate Marked(cs: seq<VChannel>) { forall i :: 0 <= i < |cs| ==> cs[i].shared <= 1 }

  function Starts(es: seq<Extent>): (r: seq<nat>)
    ensures |r| == |es|
  {
    seq(|es|, i requires 0 <= i < |es| => es[i].start)
  }

  // ---------------------------------------------------------------- one stripe

  /** The block extent `e` contributes to stripe `r`. */
  function Pick(e: Extent, r: nat): Addr { Addr(e.channel, e.lun, e.start + r) }

  /** Stripe `r`: one block of every extent longer than `r`, in order. */
  function Stripe(es: seq<Extent>, r: nat): (s: seq<Addr>)
    ensures |s| <= |es|
  {
    if es == [] then [] else
      var e := es[|es| - 1];
      Stripe(es[..|es| - 1], r) + if r < ExtentLen(e) then [Pick(e, r)] else []
  }

  /** The longest extent. */
  function Longest(es: seq<Extent>): nat {
    if es == [] then 0 else Max(Longest(es[..|es| - 1]), ExtentLen(es[|es| - 1]))
  }

  /** All stripes from `r` up to the longest extent. */
  function StripesFrom(es: seq<Extent>, r: nat): seq<seq<Addr>>
    decreases Longest(es) - r
  {
    if r >= Longest(es) then [] else [Stripe(es, r)] + StripesFrom(es, r + 1)
  }

  /** The cursor vector before stripe `r`. */
  function Cursors(es: seq<Extent>, r: nat): (c: seq<nat>)
    ensures |c| == |es|
  {
    seq(|es|, i requires 0 <= i < |es| => es[i].start + Min(r, ExtentLen(es[i])))
  }

  lemma {:induction false} StripeEmptyWhen(es: seq<Extent>, r: nat)
    ensures Stripe(es, r) == [] <==> Longest(es) <= r
  {
    if es != [] { StripeEmptyWhen(es[..|es| - 1], r); }
  }

  lemma {:induction false} StripeSnoc(es: seq<Extent>, e: Extent, r: nat)
    ensures Stripe(es + [e], r) == Stripe(es, r) + if r < ExtentLen(e) then [Pick(e, r)] else []
  {
    assert (es + [e])[..|es|] == es;
  }

  // ---------------------------------------------------------------- the code

  /** The cursors a channel starts with: the starts of its LUN extents if it is marked 1, else a
      zero for each of its LUNs. */
  function FirstCursorsOf(c: VChannel): seq<nat> {
    if c.shared == 1 then seq(|c.luns|, i requires 0 <= i < |c.luns| => c.luns[i].start)
    else seq(c.numLuns, i => 0)
  }

  function FirstCursors(cs: seq<VChannel>): seq<nat> {
    if cs == [] then [] else FirstCursors(cs[..|cs| - 1]) + FirstCursorsOf(cs[|cs| - 1])
  }

  /** The two walks of the code test the mark differently (equal to 1, greater than 0): a channel
      with a larger mark starts its LUNs at block zero, and is visited in step with its cursors
      only if it lists as many LUNs as it counts. */
  predicate Aligned(c: VChannel) { c.shared <= 1 || |c.luns| == c.numLuns }

  predicate AllAligned(cs: seq<VChannel>) { forall i :: 0 <= i < |cs| ==> Aligned(cs[i]) }

  lemma {:induction false} AlignedIff(c: VChannel, nblocks: nat)
    ensures FirstCursorsOf(c) == Starts(ChannelExtents(c, nblocks)) <==> Aligned(c)
    ensures |FirstCursorsOf(c)| == |ChannelExtents(c, nblocks)| <==> Aligned(c)
  {
  }

  lemma {:induction false} CursorsAreStarts(cs: seq<VChannel>, nblocks: nat)
    requires AllAligned(cs)
    ensures FirstCursors(cs) == Starts(Extents(cs, nblocks))
  {
    hide FirstCursorsOf, ChannelExtents, Aligned;
    if cs != [] {
      var n := |cs| - 1;
      CursorsAreStarts(cs[..n], nblocks);
      AlignedIff(cs[n], nblocks);
    }
  }

  method GenerateChannelUnits(c: VChannel, units: seq<nat>) returns (r: seq<nat>)
    ensures r == units + FirstCursorsOf(c)
  {
    r := units;
    if c.shared == 1 {
      for i := 0 to |c.luns|
        invariant r == units + seq(i, j requires 0 <= j < i => c.luns[j].start)
      {
        r := r + [c.luns[i].start];
      }
    } else {
      for lun := 0 to c.numLuns
        invariant r == units + seq(lun, j => 0)
      {
        r := r + [0];
      }
    }
  }

  method GenerateUnits(cs: seq<VChannel>) returns (units: seq<nat>)
    ensures units == FirstCursors(cs)
    ensures AllAligned(cs) ==> forall nblocks :: units == Starts(Extents(cs, nblocks))
  {
    units := [];
    for k := 0 to |cs|
      invariant units == FirstCursors(cs[..k])
    {
      units := GenerateChannelUnits(cs[k], units);
      assert cs[..k + 1][..k] == cs[..k];
    }
    assert cs[..|cs|] == cs;
    if AllAligned(cs) {
      forall nblocks ensures units == Starts(Extents(cs, nblocks)) { CursorsAreStarts(cs, nblocks); }
    }
  }

  /** A pass that builds stripe `r` stands at flat index `i` of the extents `es`. */
  ghost predicate MidPass(es: seq<Extent>, curr: seq<nat>, i: nat, addrs: seq<Addr>, r: nat) {
    && i <= |es| == |curr| && addrs == Stripe(es[..i], r)
    && forall k :: 0 <= k < |es| ==> curr[k] == es[k].start + Min(if k < i then r + 1 else r, ExtentLen(es[k]))
  }

  /** Takes the next block of the LUN at flat index `i`, if it has one left. */
  method Visit(channel: nat, lun: nat, blockEnd: nat, curr: seq<nat>, i: nat, addrs: seq<Addr>,
               ghost es: seq<Extent>, ghost r: nat)
    returns (curr': seq<nat>, i': nat, addrs': seq<Addr>)
    requires MidPass(es, curr, i, addrs, r) && i < |es|
    requires es[i] == Extent(channel, lun, es[i].start, blockEnd) && es[i].start <= blockEnd
    ensures i' == i + 1 && MidPass(es, curr', i', addrs', r)
  {
    curr', addrs' := curr, addrs;
    StripeSnoc(es[..i], es[i], r);
    assert es[..i + 1] == es[..i] + [es[i]];
    if curr[i] < blockEnd {
      addrs' := addrs + [Addr(channel, lun, curr[i])];
      curr' := curr[i := curr[i] + 1];
    }
    i' := i + 1;
  }

  /** The inner loops over the LUNs of one channel. */
  method PassChannel(c: VChannel, nblocks: nat, curr: seq<nat>, i: nat, addrs: seq<Addr>,
                     ghost es: seq<Extent>, ghost r: nat)
    returns (curr': seq<nat>, i': nat, addrs': seq<Addr>)
    requires MidPass(es, curr, i, addrs, r)
    requires i + |ChannelExtents(c, nblocks)| <= |es|
    requires es[i..i + |ChannelExtents(c, nblocks)|] == ChannelExtents(c, nblocks)
    ensures i' == i + |ChannelExtents(c, nblocks)| && MidPass(es, curr', i', addrs', r)
  {
    hide MidPass;
    ghost var ce := ChannelExtents(c, nblocks);
    curr', i', addrs' := curr, i, addrs;
    if c.shared > 0 {
      for k := 0 to |c.luns|
        invariant i' == i + k && MidPass(es, curr', i', addrs', r)
      {
        var lun := c.luns[k];
        assert es[i..i + |ce|][k] == ce[k];
        curr', i', addrs' := Visit(c.id, lun.id, lun.start + lun.count, curr', i', addrs', es, r);
      }
    } else {
      for lun := 0 to c.numLuns
        invariant i' == i + lun && MidPass(es, curr', i', addrs', r)
      {
        assert es[i..i + |ce|][lun] == ce[lun];
        curr', i', addrs' := Visit(c.id, lun, nblocks, curr', i', addrs', es, r);
      }
    }
  }

  lemma {:induction false} ExtentsPrefix(cs: seq<VChannel>, k: nat, nblocks: nat)
    requires k < |cs|
    ensures var done := Extents(cs[..k], nblocks); var here := ChannelExtents(cs[k], nblocks);
            && Extents(cs[..k + 1], nblocks) == done + here
            && |done| + |here| <= |Extents(cs, nblocks)|
            && Extents(cs, nblocks)[|done|..|done| + |here|] == here
    decreases |cs|
  {
    hide ChannelExtents;
    assert cs[..k + 1][..k] == cs[..k] && cs[..k + 1][k] == cs[k];
    var n := |cs| - 1;
    if k == n {
      assert cs[..k + 1] == cs;
    } else {
      var most := Extents(cs[..n], nblocks);
      ExtentsPrefix(cs[..n], k, nblocks);
      assert cs[..n][..k] == cs[..k] && cs[..n][..k + 1] == cs[..k + 1];
      assert Extents(cs, nblocks)[..|most|] == most;
    }
  }

  /** One pass over all channels builds one stripe and advances the cursors past it. */
  method Pass(cs: seq<VChannel>, nblocks: nat, curr: seq<nat>, ghost r: nat) returns (curr': seq<nat>, addrs: seq<Addr>)
    requires curr == Cursors(Extents(cs, nblocks), r)
    ensures addrs == Stripe(Extents(cs, nblocks), r) && curr' == Cursors(Extents(cs, nblocks), r + 1)
  {
    hide ChannelExtents, Stripe;
    ghost var es := Extents(cs, nblocks);
    var i := 0;
    curr', addrs := curr, [];
    NoStripe(r);
    assert es[..0] == [];
    for k := 0 to |cs|
      invariant i == |Extents(cs[..k], nblocks)| && MidPass(es, curr', i, addrs, r)
    {
      ExtentsPrefix(cs, k, nblocks);
      curr', i, addrs := PassChannel(cs[k], nblocks, curr', i, addrs, es, r);
    }
    assert cs[..|cs|] == cs && es[..i] == es;
  }

  lemma {:induction false} NoStripe(r: nat)
    ensures Stripe([], r) == []
  {
  }

  /** The stripes whose test succeeds. */
  function Kept(ss: seq<seq<Addr>>, r: nat, test: nat -> bool): seq<seq<Addr>> {
    if ss == [] then [] else (if test(r) then [ss[0]] else []) + Kept(ss[1..], r + 1, test)
  }

  /** A connection's vblks; `test` says which of the attempts pass their write and read test. */
  class RemoteBlocks {
    var blks: seq<seq<Addr>>
    var numBlks: nat

    constructor ()
      ensures blks == [] && numBlks == 0
    {
      blks, numBlks := [], 0;
    }

    /** Builds every stripe once and stops, whatever the tests say; the ones that pass are kept. */
    method InitializeVssdBlocks(cs: seq<VChannel>, nblocks: nat, test: nat -> bool)
      requires AllAligned(cs)
      modifies this
      ensures var kept := Kept(StripesFrom(Extents(cs, nblocks), 0), 0, test);
              blks == old(blks) + kept && numBlks == |kept|
    {
      hide Extents, Stripe, Cursors, AllAligned, Starts, Longest, FirstCursors;
      ghost var es := Extents(cs, nblocks);
      var curr := GenerateUnits(cs);
      CursorsAtFirst(es);
      var count, r := 0, 0;  // r numbers the attempts for the test outcome only
      ghost var kept: seq<seq<Addr>> := [];
      ghost var all := Kept(StripesFrom(es, 0), 0, test);
      assert [] + all == all && blks + [] == blks;
      while true
        invariant curr == Cursors(es, r) && count == |kept| && blks == old(blks) + kept
        invariant all == kept + Kept(StripesFrom(es, r), r, test)
        decreases Longest(es) - r
      {
        var addrs;
        curr, addrs := Pass(cs, nblocks, curr, r);
        StripeEmptyWhen(es, r);
        if |addrs| == 0 {
          break;
        }
        ghost var more := StripesFrom(es, r);
        assert more[0] == addrs && more[1..] == StripesFrom(es, r + 1);
        ghost var later := Kept(more[1..], r + 1, test);
        r := r + 1;
        if !test(r - 1) {
          assert [] + later == later;
          continue;
        }
        assert kept + ([addrs] + later) == kept + [addrs] + later;
        blks, kept := blks + [addrs], kept + [addrs];
        count := count + 1;
      }
      assert kept + [] == kept;
      numBlks := count;
    }
  }

  lemma CursorsAtFirst(es: seq<Extent>)
    ensures Cursors(es, 0) == Starts(es)
  {
  }

  // ---------------------------------------------------------------- every granted block exactly once

  function CountAddr(s: seq<Addr>, a: Addr): nat {
    if s == [] then 0 else CountAddr(s[..|s| - 1], a) + if s[|s| - 1] == a then 1 else 0
  }

  function CountAll(ss: seq<seq<Addr>>, a: Addr): nat {
    if ss == [] then 0 else CountAddr(ss[0], a) + CountAll(ss[1..], a)
  }

  /** Extents that still hold `a` once their first `r` blocks are gone. */
  function Holding(es: seq<Extent>, r: nat, a: Addr): nat {
    if es == [] then 0 else
      var e := es[|es| - 1];
      Holding(es[..|es| - 1], r, a)
      + if e.channel == a.channel && e.lun == a.lun && e.start + r <= a.block < e.end then 1 else 0
  }

  lemma {:induction false} CountSnoc(s: seq<Addr>, x: Addr, a: Addr)
    ensures CountAddr(s + [x], a) == CountAddr(s, a) + if x == a then 1 else 0
  {
    assert (s + [x])[..|s|] == s;
  }

  lemma {:induction false} StripeTakes(es: seq<Extent>, r: nat, a: Addr)
    ensures Holding(es, r, a) == CountAddr(Stripe(es, r), a) + Holding(es, r + 1, a)
  {
    if es != [] {
      var e, s := es[|es| - 1], Stripe(es[..|es| - 1], r);
      StripeTakes(es[..|es| - 1], r, a);
      if r < ExtentLen(e) {
        CountSnoc(s, Pick(e, r), a);
      } else {
        assert s + [] == s;
      }
    }
  }

  lemma {:induction false} NothingHeld(es: seq<Extent>, r: nat, a: Addr)
    requires Longest(es) <= r
    ensures Holding(es, r, a) == 0
  {
    if es != [] { NothingHeld(es[..|es| - 1], r, a); }
  }

  lemma {:induction false} StripesTakeAll(es: seq<Extent>, r: nat, a: Addr)
    ensures CountAll(StripesFrom(es, r), a) == Holding(es, r, a)
    decreases Longest(es) - r
  {
    hide Stripe, Longest, Holding;
    if r >= Longest(es) {
      NothingHeld(es, r, a);
    } else {
      StripeTakes(es, r, a);
      StripesTakeAll(es, r + 1, a);
    }
  }

  lemma {:induction false} HoldingConcat(es: seq<Extent>, fs: seq<Extent>, r: nat, a: Addr)
    ensures Holding(es + fs, r, a) == Holding(es, r, a) + Holding(fs, r, a)
    decreases |fs|
  {
    if fs == [] {
      assert es + fs == es;
    } else {
      assert (es + fs)[..|es + fs| - 1] == es + fs[..|fs| - 1];
      HoldingConcat(es, fs[..|fs| - 1], r, a);
    }
  }

  lemma {:induction false} HoldingLuns(channel: nat, ls: seq<VLun>, a: Addr)
    ensures Holding(LunExtents(channel, ls), 0, a) == if channel == a.channel then TimesLuns(ls, a.lun, a.block) else 0
    decreases |ls|
  {
    if ls != [] {
      var n := |ls| - 1;
      assert LunExtents(channel, ls)[..n] == LunExtents(channel, ls[..n]);
      HoldingLuns(channel, ls[..n], a);
    }
  }

  lemma {:induction false} HoldingWhole(channel: nat, n: nat, nblocks: nat, a: Addr)
    ensures Holding(WholeExtents(channel, n, nblocks), 0, a)
            == if channel == a.channel && a.lun < n && a.block < nblocks then 1 else 0
    decreases n
  {
    if n > 0 {
      assert WholeExtents(channel, n, nblocks)[..n - 1] == WholeExtents(channel, n - 1, nblocks);
      HoldingWhole(channel, n - 1, nblocks, a);
    }
  }

  lemma HoldingChannel(c: VChannel, nblocks: nat, b: Block)
    requires c.shared <= 1
    ensures Holding(ChannelExtents(c, nblocks), 0, Addr(b.channel, b.lun, b.block)) == TimesChannel(c, nblocks, b)
  {
    var a := Addr(b.channel, b.lun, b.block);
    if c.shared > 0 {
      HoldingLuns(c.id, c.luns, a);
    } else {
      HoldingWhole(c.id, c.numLuns, nblocks, a);
    }
  }

  lemma {:induction false} TimesSnoc(cs: seq<VChannel>, c: VChannel, nblocks: nat, b: Block)
    ensures TimesChannels(cs + [c], nblocks, b) == TimesChannels(cs, nblocks, b) + TimesChannel(c, nblocks, b)
  {
    if cs == [] {
      assert [c][1..] == [] && cs + [c] == [c];
    } else {
      assert (cs + [c])[1..] == cs[1..] + [c];
      TimesSnoc(cs[1..], c, nblocks, b);
    }
  }

  lemma {:induction false} HoldingAll(cs: seq<VChannel>, nblocks: nat, b: Block)
    requires Marked(cs)
    ensures Holding(Extents(cs, nblocks), 0, Addr(b.channel, b.lun, b.block)) == TimesChannels(cs, nblocks, b)
  {
    hide ChannelExtents, TimesChannel;
    if cs != [] {
      var n, a := |cs| - 1, Addr(b.channel, b.lun, b.block);
      HoldingAll(cs[..n], nblocks, b);
      HoldingChannel(cs[n], nblocks, b);
      HoldingConcat(Extents(cs[..n], nblocks), ChannelExtents(cs[n], nblocks), 0, a);
      assert cs == cs[..n] + [cs[n]];
      TimesSnoc(cs[..n], cs[n], nblocks, b);
    }
  }

  /** Exact partition: the stripes together contain every block as often as the grant describes it. */
  lemma {:induction false} StripesPartitionGrant(cs: seq<VChannel>, nblocks: nat, b: Block)
    requires Marked(cs)
    ensures CountAll(StripesFrom(Extents(cs, nblocks), 0), Addr(b.channel, b.lun, b.block))
            == TimesChannels(cs, nblocks, b)
  {
    StripesTakeAll(Extents(cs, nblocks), 0, Addr(b.channel, b.lun, b.block));
    HoldingAll(cs, nblocks, b);
  }

  // ---------------------------------------------------------------- which stripes are kept

  /** If all attempts pass, every stripe is kept; if none does, none is. */
  lemma {:induction false} AllOrNoneKept(ss: seq<seq<Addr>>, r: nat, test: nat -> bool)
    ensures (forall i :: r <= i < r + |ss| ==> test(i)) ==> Kept(ss, r, test) == ss
    ensures (forall i :: r <= i < r + |ss| ==> !test(i)) ==> Kept(ss, r, test) == []
    decreases |ss|
  {
    if ss != [] {
      AllOrNoneKept(ss[1..], r + 1, test);
      assert [ss[0]] + ss[1..] == ss;
    }
  }

  lemma {:induction false} KeptConcat(a: seq<seq<Addr>>, b: seq<seq<Addr>>, r: nat, test: nat -> bool)
    ensures Kept(a + b, r, test) == Kept(a, r, test) + Kept(b, r + |a|, test)
    decreases |a|
  {
    if a == [] {
      assert a + b == b;
    } else {
      assert (a + b)[1..] == a[1..] + b;
      KeptConcat(a[1..], b, r + 1, test);
    }
  }

  /** The attempts from `r` to `r + n` that pass. */
  function Passing(r: nat, n: nat, test: nat -> bool): nat
    decreases n
  {
    if n == 0 then 0 else Passing(r, n - 1, test) + if test(r + n - 1) then 1 else 0
  }

  /** Exactly the stripes whose attempt passes its test are kept, in order. */
  lemma {:induction false} KeptAreThosePassing(ss: seq<seq<Addr>>, r: nat, test: nat -> bool)
    ensures |Kept(ss, r, test)| == Passing(r, |ss|, test)
    ensures forall i :: 0 <= i < |ss| && test(r + i) ==>
              Passing(r, i, test) < |Kept(ss, r, test)| && Kept(ss, r, test)[Passing(r, i, test)] == ss[i]
    decreases |ss|
  {
    if ss != [] {
      var n := |ss| - 1;
      KeptAreThosePassing(ss[..n], r, test);
      KeptConcat(ss[..n], [ss[n]], r, test);
      assert ss == ss[..n] + [ss[n]];
      assert Kept([ss[n]], r + n, test) == if test(r + n) then [ss[n]] else [];
    }
  }

  /** A failed test loses the blocks of its own stripe and no others. */
  lemma {:induction false} FailedTestsLoseTheirStripes(ss: seq<seq<Addr>>, r: nat, test: nat -> bool,
                                                       fails: nat -> bool, a: Addr)
    requires forall k :: fails(k) == !test(k)
    ensures CountAll(Kept(ss, r, test), a) + CountAll(Kept(ss, r, fails), a) == CountAll(ss, a)
    decreases |ss|
  {
    if ss != [] {
      FailedTestsLoseTheirStripes(ss[1..], r + 1, test, fails, a);
      var k1, k2 := Kept(ss[1..], r + 1, test), Kept(ss[1..], r + 1, fails);
      assert ([ss[0]] + k1)[1..] == k1 && ([ss[0]] + k2)[1..] == k2;
      assert [] + k1 == k1 && [] + k2 == k2;
    }
  }

  // ---------------------------------------------------------------- shape of the stripes

  lemma {:induction false} StripesInOrder(es: seq<Extent>, r: nat)
    requires r <= Longest(es)
    ensures |StripesFrom(es, r)| == Longest(es) - r
    ensures forall k :: r <= k < Longest(es) ==> StripesFrom(es, r)[k - r] == Stripe(es, k)
    decreases Longest(es) - r
  {
    hide Stripe, Longest;
    if r < Longest(es) {
      StripesInOrder(es, r + 1);
      assert StripesFrom(es, r) == [Stripe(es, r)] + StripesFrom(es, r + 1);
    }
  }

  /** Stripe `r` has exactly the blocks number `start + r` of the extents longer than `r`. */
  lemma {:induction false} StripeHasLongExtents(es: seq<Extent>, r: nat, i: nat)
    requires i < |es| && r < ExtentLen(es[i])
    ensures Addr(es[i].channel, es[i].lun, es[i].start + r) in Stripe(es, r)
  {
    if i < |es| - 1 { StripeHasLongExtents(es[..|es| - 1], r, i); }
  }

  lemma {:induction false} StripeHasOnlyLongExtents(es: seq<Extent>, r: nat, a: Addr) returns (i: nat)
    requires a in Stripe(es, r)
    ensures i < |es| && r < ExtentLen(es[i]) && a == Addr(es[i].channel, es[i].lun, es[i].start + r)
  {
    i := |es| - 1;
    if a in Stripe(es[..i], r) {
      i := StripeHasOnlyLongExtents(es[..i], r, a);
    }
  }

  /** How many of the first `i` extents are longer than `r`. */
  function LongBefore(es: seq<Extent>, i: nat, r: nat): nat
    requires i <= |es|
  {
    if i == 0 then 0 else LongBefore(es, i - 1, r) + if r < ExtentLen(es[i - 1]) then 1 else 0
  }

  /** Within a stripe the blocks stand in the order of their extents. */
  lemma {:induction false} StripeKeepsOrder(es: seq<Extent>, r: nat, i: nat)
    requires i < |es| && r < ExtentLen(es[i])
    ensures LongBefore(es, i, r) < |Stripe(es, r)|
    ensures Stripe(es, r)[LongBefore(es, i, r)] == Addr(es[i].channel, es[i].lun, es[i].start + r)
    decreases |es|
  {
    var n := |es| - 1;
    if i < n {
      SameBefore(es, n, i, r);
      StripeKeepsOrder(es[..n], r, i);
    } else {
      WidthCounts(es, n, r);
    }
  }

  lemma {:induction false} SameBefore(es: seq<Extent>, n: nat, i: nat, r: nat)
    requires i <= n <= |es|
    ensures LongBefore(es[..n], i, r) == LongBefore(es, i, r)
  {
    if i > 0 { SameBefore(es, n, i - 1, r); }
  }

  lemma {:induction false} WidthCounts(es: seq<Extent>, n: nat, r: nat)
    requires n <= |es|
    ensures |Stripe(es[..n], r)| == LongBefore(es, n, r)
  {
    if n > 0 {
      WidthCounts(es, n - 1, r);
      assert es[..n][..n - 1] == es[..n - 1];
    }
  }

  /** The extents stand in the order of the channels and, within a channel, of its LUNs: those
      listed, or, for a channel marked 0, all of them with all their blocks. */
  lemma {:induction false} ExtentsInOrder(cs: seq<VChannel>, nblocks: nat, k: nat, l: nat)
    requires k < |cs| && l < if cs[k].shared == 0 then cs[k].numLuns else |cs[k].luns|
    ensures var c := cs[k]; var p := |Extents(cs[..k], nblocks)| + l;
            && p < |Extents(cs, nblocks)|
            && Extents(cs, nblocks)[p] ==
               if c.shared == 0 then Extent(c.id, l, 0, nblocks)
               else Extent(c.id, c.luns[l].id, if c.shared == 1 then c.luns[l].start else 0,
                           c.luns[l].start + c.luns[l].count)
    ensures |Extents(cs[..k + 1], nblocks)| ==
            |Extents(cs[..k], nblocks)| + if cs[k].shared == 0 then cs[k].numLuns else |cs[k].luns|
  {
    hide Extents;
    ExtentsPrefix(cs, k, nblocks);
    var done, here := |Extents(cs[..k], nblocks)|, ChannelExtents(cs[k], nblocks);
    assert Extents(cs, nblocks)[done..done + |here|][l] == here[l];
  }

  lemma {:induction false} WidthsNeverGrow(es: seq<Extent>, q: nat, r: nat)
    requires q <= r
    ensures |Stripe(es, r)| <= |Stripe(es, q)|
    ensures |Stripe(es, r)| == |Stripe(es, q)| <==> forall i :: 0 <= i < |es| ==> !(q < ExtentLen(es[i]) <= r)
  {
    if es != [] {
      var n := |es| - 1;
      WidthsNeverGrow(es[..n], q, r);
      assert forall i :: 0 <= i < n ==> es[..n][i] == es[i];
    }
  }

  lemma {:induction false} LongestIsLongest(es: seq<Extent>, i: nat)
    requires i < |es|
    ensures ExtentLen(es[i]) <= Longest(es)
  {
    var n := |es| - 1;
    if i < n {
      assert es[..n][i] == es[i];
      LongestIsLongest(es[..n], i);
    }
  }

  /** The stripes all have the width of the first one if and only if all non-empty extents are
      equally long: exactly then the code may take one vblk size for all. */
  lemma {:induction false} EqualWidthsIff(es: seq<Extent>)
    ensures (forall r :: 0 <= r < Longest(es) ==> |Stripe(es, r)| == |Stripe(es, 0)|)
            <==> (forall i :: 0 <= i < |es| ==> ExtentLen(es[i]) == 0 || ExtentLen(es[i]) == Longest(es))
  {
    forall i | 0 <= i < |es| ensures ExtentLen(es[i]) <= Longest(es) { LongestIsLongest(es, i); }
    if forall i :: 0 <= i < |es| ==> ExtentLen(es[i]) == 0 || ExtentLen(es[i]) == Longest(es) {
      forall r | 0 <= r < Longest(es) ensures |Stripe(es, r)| == |Stripe(es, 0)| {
        WidthsNeverGrow(es, 0, r);
      }
    } else {
      var i :| 0 <= i < |es| && ExtentLen(es[i]) != 0 && ExtentLen(es[i]) != Longest(es);
      WidthsNeverGrow(es, 0, ExtentLen(es[i]));
    }
  }

  lemma {:induction false} FullWidth(es: seq<Extent>, r: nat)
    requires forall i :: 0 <= i < |es| ==> r < ExtentLen(es[i])
    ensures |Stripe(es, r)| == |es|
  {
    if es != [] { FullWidth(es[..|es| - 1], r); }
  }

  lemma {:induction false} WholeChannels(cs: seq<VChannel>, nluns: nat, nblocks: nat)
    requires forall i :: 0 <= i < |cs| ==> cs[i].shared == 0 && cs[i].numLuns == nluns
    ensures |Extents(cs, nblocks)| == |cs| * nluns
    ensures forall i :: 0 <= i < |Extents(cs, nblocks)| ==> ExtentLen(Extents(cs, nblocks)[i]) == nblocks
  {
    if cs != [] {
      WholeChannels(cs[..|cs| - 1], nluns, nblocks);
      assert (|cs| - 1) * nluns + nluns == |cs| * nluns;
    }
  }

  /** For an exclusive grant every stripe spans all granted channels times LUNs. */
  lemma {:induction false} ExclusiveStripesSpanAll(u: VUnit, r: nat)
    requires GrantedUnit(u) && u.channels[0].shared == 0 && r < u.geo.nblocks
    ensures |Stripe(Extents(u.channels, u.geo.nblocks), r)| == |u.channels| * u.geo.nluns
  {
    forall i | 0 <= i < |u.channels| ensures u.channels[i].shared == 0 && u.channels[i].numLuns == u.geo.nluns {
      assert GrantedChannel(u.channels[i], u.geo);
      assert u.channels[i].shared == u.channels[0].shared;
    }
    WholeChannels(u.channels, u.geo.nluns, u.geo.nblocks);
    FullWidth(Extents(u.channels, u.geo.nblocks), r);
  }
}
