/** The virtual SSD handed to a client, and its nested wire format (ocssd_server.h, 356-747). */
module VirtualSsd {
  import opened Bytes

  const SERIALIZE_MAGIC: nat := 0x6502

  datatype VLun = VLun(id: nat, start: nat, count: nat)

  datatype VChannel = VChannel(id: nat, shared: nat, total: nat, numLuns: nat, luns: seq<VLun>)

  datatype Geometry = Geometry(nchannels: U64, nluns: U64, nplanes: U64, nblocks: U64, npages: U64,
                               nsectors: U64, pageBytes: U64, sectorBytes: U64, metaBytes: U64)

  datatype VUnit = VUnit(name: seq<Byte>, geo: Geometry, channels: seq<VChannel>)

  datatype VSsd = VSsd(id: nat, units: seq<VUnit>)

  // ---------------------------------------------------------------- well-formed values

  predicate LunOk(l: VLun) { l.id < TWO_32 && l.start < TWO_32 && l.count < TWO_32 }

  /** What a channel must satisfy to survive the wire: LUN records travel only when the
      channel is marked 1, and then `numLuns` of them are read back. */
  predicate ChannelOk(c: VChannel) {
    && c.id < TWO_32 && c.shared < TWO_32 && c.total < TWO_32 && c.numLuns < TWO_32
    && (c.shared == 1 ==> |c.luns| == c.numLuns)
    && (c.shared != 1 ==> c.luns == [])
    && forall i :: 0 <= i < |c.luns| ==> LunOk(c.luns[i])
  }

  predicate NameOk(name: seq<Byte>) { 0 !in name && |name| + 4 < TWO_32 }

  predicate UnitOk(u: VUnit) {
    NameOk(u.name) && |u.channels| < TWO_32 && forall i :: 0 <= i < |u.channels| ==> ChannelOk(u.channels[i])
  }

  predicate SsdOk(v: VSsd) {
    v.id < TWO_32 && |v.units| < TWO_32 && forall i :: 0 <= i < |v.units| ==> UnitOk(v.units[i])
  }

  // ---------------------------------------------------------------- encoded length

  /** Length of the NUL-terminated name rounded up to a multiple of four. */
  function PaddedName(name: seq<Byte>): nat { (|name| + 1 + 3) / 4 * 4 }

  function LenChannel(c: VChannel): nat { 16 + if c.shared == 1 then 12 * |c.luns| else 0 }

  function LenChannels(cs: seq<VChannel>): nat {
    if cs == [] then 0 else LenChannel(cs[0]) + LenChannels(cs[1..])
  }

  function LenUnit(u: VUnit): nat { 80 + PaddedName(u.name) + LenChannels(u.channels) }

  function LenUnits(us: seq<VUnit>): nat {
    if us == [] then 0 else LenUnit(us[0]) + LenUnits(us[1..])
  }

  function LenSsd(v: VSsd): nat { 12 + LenUnits(v.units) }

  // ---------------------------------------------------------------- encoding

  function EncLuns(ls: seq<VLun>): (r: seq<Byte>)
    ensures |r| == 12 * |ls|
  {
    if ls == [] then [] else EncWords(LunWords(ls[0])) + EncLuns(ls[1..])
  }

  function LunWords(l: VLun): (r: seq<nat>) ensures |r| == 3 { [l.id, l.start, l.count] }

  function ChannelWords(c: VChannel): (r: seq<nat>) ensures |r| == 4 { [c.id, c.shared, c.total, c.numLuns] }

  function GeoWords(g: Geometry): (r: seq<nat>) ensures |r| == 18 {
    [Lo(g.nchannels), Hi(g.nchannels), Lo(g.nluns), Hi(g.nluns), Lo(g.nplanes), Hi(g.nplanes),
     Lo(g.nblocks), Hi(g.nblocks), Lo(g.npages), Hi(g.npages), Lo(g.nsectors), Hi(g.nsectors),
     Lo(g.pageBytes), Hi(g.pageBytes), Lo(g.sectorBytes), Hi(g.sectorBytes), Lo(g.metaBytes), Hi(g.metaBytes)]
  }

  function HeaderWords(v: VSsd): (r: seq<nat>) ensures |r| == 3 { [SERIALIZE_MAGIC, v.id, |v.units|] }

  function EncChannel(c: VChannel): (r: seq<Byte>)
    ensures |r| == LenChannel(c)
  {
    EncWords(ChannelWords(c)) + if c.shared == 1 then EncLuns(c.luns) else []
  }

  function EncChannels(cs: seq<VChannel>): (r: seq<Byte>)
    ensures |r| == LenChannels(cs)
  {
    if cs == [] then [] else EncChannel(cs[0]) + EncChannels(cs[1..])
  }

  /** The length word, the name and its terminator, then the bytes of `under` that the
      alignment skips over without writing. */
  function EncName(name: seq<Byte>, under: seq<Byte>): (r: seq<Byte>)
    requires |under| == 4 + PaddedName(name)
    ensures |r| == |under|
  {
    EncWords([|name| + 1]) + (name + [0] + under[4 + |name| + 1..])
  }

  function EncBody(u: VUnit): (r: seq<Byte>)
    ensures |r| == 76 + LenChannels(u.channels)
  {
    EncWords(GeoWords(u.geo)) + (EncWords([|u.channels|]) + EncChannels(u.channels))
  }

  /** A unit stored over the bytes `under`. */
  function EncUnit(u: VUnit, under: seq<Byte>): (r: seq<Byte>)
    requires |under| == LenUnit(u)
    ensures |r| == |under|
  {
    EncName(u.name, under[..4 + PaddedName(u.name)]) + EncBody(u)
  }

  function EncUnits(us: seq<VUnit>, under: seq<Byte>): (r: seq<Byte>)
    requires |under| == LenUnits(us)
    ensures |r| == |under|
  {
    if us == [] then [] else EncUnit(us[0], under[..LenUnit(us[0])]) + EncUnits(us[1..], under[LenUnit(us[0])..])
  }

  /** A virtual SSD stored over the bytes `under`. */
  function EncSsd(v: VSsd, under: seq<Byte>): (r: seq<Byte>)
    requires |under| == LenSsd(v)
    ensures |r| == |under|
  {
    EncWords(HeaderWords(v)) + EncUnits(v.units, under[12..])
  }

  // ---------------------------------------------------------------- decoding

  /** Result of reading at a cursor: `Truncated` when the bytes needed lie outside the buffer. */
  datatype Parsed<T> = Truncated | Parsed(value: T, next: nat)

  function ParseLun(s: seq<Byte>, p: nat): Parsed<VLun> {
    if p + 12 <= |s| then Parsed(VLun(Get4(s, p), Get4(s, p + 4), Get4(s, p + 8)), p + 12) else Truncated
  }

  function ParseLuns(s: seq<Byte>, p: nat, n: nat): Parsed<seq<VLun>>
    decreases n
  {
    if n == 0 then Parsed([], p) else
      match ParseLun(s, p)
      case Truncated => Truncated
      case Parsed(l, q) =>
        match ParseLuns(s, q, n - 1)
        case Truncated => Truncated
        case Parsed(ls, r) => Parsed([l] + ls, r)
  }

  function ParseChannel(s: seq<Byte>, p: nat): Parsed<VChannel> {
    if p + 16 > |s| then Truncated else
      var id, shared, total, n := Get4(s, p), Get4(s, p + 4), Get4(s, p + 8), Get4(s, p + 12);
      match if shared == 1 then ParseLuns(s, p + 16, n) else Parsed([], p + 16)
      case Truncated => Truncated
      case Parsed(ls, q) => Parsed(VChannel(id, shared, total, n, ls), q)
  }

  function ParseChannels(s: seq<Byte>, p: nat, n: nat): Parsed<seq<VChannel>>
    decreases n
  {
    if n == 0 then Parsed([], p) else
      match ParseChannel(s, p)
      case Truncated => Truncated
      case Parsed(c, q) =>
        match ParseChannels(s, q, n - 1)
        case Truncated => Truncated
        case Parsed(cs, r) => Parsed([c] + cs, r)
  }

  /** The bytes from `p` up to the first NUL. */
  function CString(s: seq<Byte>, p: nat): Parsed<seq<Byte>>
    decreases |s| - p
  {
    if p >= |s| then Truncated
    else if s[p] == 0 then Parsed([], p)
    else
      match CString(s, p + 1)
      case Truncated => Truncated
      case Parsed(t, q) => Parsed([s[p]] + t, q)
  }

  /** The reader rounds the length up in 32-bit arithmetic. */
  function RoundUp32(n: U32): nat { (n + 3) % TWO_32 / 4 * 4 }

  function ParseGeo(s: seq<Byte>, p: nat): Geometry
    requires p + 72 <= |s|
  {
    Geometry(Get8(s, p), Get8(s, p + 8), Get8(s, p + 16), Get8(s, p + 24), Get8(s, p + 32),
             Get8(s, p + 40), Get8(s, p + 48), Get8(s, p + 56), Get8(s, p + 64))
  }

  function ParseUnit(s: seq<Byte>, p: nat): Parsed<VUnit> {
    if p + 4 > |s| || CString(s, p + 4).Truncated? then Truncated else
      var name, g := CString(s, p + 4).value, p + 4 + RoundUp32(Get4(s, p));
      if g + 76 > |s| then Truncated else
        match ParseChannels(s, g + 76, Get4(s, g + 72))
        case Truncated => Truncated
        case Parsed(cs, q) => Parsed(VUnit(name, ParseGeo(s, g), cs), q)
  }

  function ParseUnits(s: seq<Byte>, p: nat, n: nat): Parsed<seq<VUnit>>
    decreases n
  {
    if n == 0 then Parsed([], p) else
      match ParseUnit(s, p)
      case Truncated => Truncated
      case Parsed(u, q) =>
        match ParseUnits(s, q, n - 1)
        case Truncated => Truncated
        case Parsed(us, r) => Parsed([u] + us, r)
  }

  /** What decoding a buffer from its start yields, given that the magic matches. */
  function ParseSsd(s: seq<Byte>): Parsed<VSsd> {
    if |s| < 12 || Get4(s, 0) != SERIALIZE_MAGIC then Truncated else
      match ParseUnits(s, 12, Get4(s, 8))
      case Truncated => Truncated
      case Parsed(us, q) => Parsed(VSsd(Get4(s, 4), us), q)
  }

  // ---------------------------------------------------------------- round trip

  lemma {:induction false} LunsRoundTrip(s: seq<Byte>, p: nat, ls: seq<VLun>)
    requires At(s, p, EncLuns(ls)) && forall i :: 0 <= i < |ls| ==> LunOk(ls[i])
    ensures ParseLuns(s, p, |ls|) == Parsed(ls, p + 12 * |ls|)
    decreases |ls|
  {
    hide Get4, EncWords;
    if ls != [] {
      var ws := LunWords(ls[0]);
      AtSplit(s, p, EncWords(ws), EncLuns(ls[1..]));
      WordAt(s, p, ws, 0);
      WordAt(s, p, ws, 1);
      WordAt(s, p, ws, 2);
      LunsRoundTrip(s, p + 12, ls[1..]);
      assert ls == [ls[0]] + ls[1..];
    }
  }

  lemma ChannelRoundTrip(s: seq<Byte>, p: nat, c: VChannel)
    requires At(s, p, EncChannel(c)) && ChannelOk(c)
    ensures ParseChannel(s, p) == Parsed(c, p + LenChannel(c))
  {
    hide Get4, EncWords, EncLuns, ParseLuns, LunOk;
    var ws := ChannelWords(c);
    AtSplit(s, p, EncWords(ws), if c.shared == 1 then EncLuns(c.luns) else []);
    WordAt(s, p, ws, 0);
    WordAt(s, p, ws, 1);
    WordAt(s, p, ws, 2);
    WordAt(s, p, ws, 3);
    if c.shared == 1 { LunsRoundTrip(s, p + 16, c.luns); }
  }

  lemma {:induction false} ChannelsRoundTrip(s: seq<Byte>, p: nat, cs: seq<VChannel>)
    requires At(s, p, EncChannels(cs)) && forall i :: 0 <= i < |cs| ==> ChannelOk(cs[i])
    ensures ParseChannels(s, p, |cs|) == Parsed(cs, p + LenChannels(cs))
    decreases |cs|
  {
    hide ChannelOk, EncChannel, ParseChannel, LenChannel;
    if cs != [] {
      AtSplit(s, p, EncChannel(cs[0]), EncChannels(cs[1..]));
      ChannelRoundTrip(s, p, cs[0]);
      ChannelsRoundTrip(s, p + LenChannel(cs[0]), cs[1..]);
      assert cs == [cs[0]] + cs[1..];
    }
  }

  lemma {:induction false} CStringAt(s: seq<Byte>, p: nat, t: seq<Byte>)
    requires At(s, p, t + [0]) && 0 !in t
    ensures CString(s, p) == Parsed(t, p + |t|)
    decreases |t|
  {
    assert s[p] == (t + [0])[0];
    if t != [] {
      assert t + [0] == [t[0]] + (t[1..] + [0]);
      AtSplit(s, p, [t[0]], t[1..] + [0]);
      CStringAt(s, p + 1, t[1..]);
      assert s[p] in t && t == [t[0]] + t[1..];
    }
  }

  lemma {:induction false} NameRoundTrip(s: seq<Byte>, p: nat, name: seq<Byte>, under: seq<Byte>)
    requires NameOk(name) && |under| == 4 + PaddedName(name) && At(s, p, EncName(name, under))
    ensures p + 4 <= |s| && CString(s, p + 4) == Parsed(name, p + 4 + |name|)
    ensures RoundUp32(Get4(s, p)) == PaddedName(name)
  {
    hide Get4, EncWords;
    AtSplit(s, p, EncWords([|name| + 1]), name + [0] + under[4 + |name| + 1..]);
    WordAt(s, p, [|name| + 1], 0);
    AtSplit(s, p + 4, name + [0], under[4 + |name| + 1..]);
    CStringAt(s, p + 4, name);
  }

  lemma GeoRoundTrip(s: seq<Byte>, p: nat, g: Geometry)
    requires At(s, p, EncWords(GeoWords(g)))
    ensures p + 72 <= |s| && ParseGeo(s, p) == g
  {
    hide Get4, Get8, EncWords, Lo, Hi;
    var ws := GeoWords(g);
    LongAt(s, p, ws, 0, g.nchannels);
    LongAt(s, p, ws, 1, g.nluns);
    LongAt(s, p, ws, 2, g.nplanes);
    LongAt(s, p, ws, 3, g.nblocks);
    LongAt(s, p, ws, 4, g.npages);
    LongAt(s, p, ws, 5, g.nsectors);
    LongAt(s, p, ws, 6, g.pageBytes);
    LongAt(s, p, ws, 7, g.sectorBytes);
    LongAt(s, p, ws, 8, g.metaBytes);
  }

  lemma UnitRoundTrip(s: seq<Byte>, p: nat, u: VUnit, under: seq<Byte>)
    requires UnitOk(u) && |under| == LenUnit(u) && At(s, p, EncUnit(u, under))
    ensures ParseUnit(s, p) == Parsed(u, p + LenUnit(u))
  {
    hide Get4, EncWords, EncName, ParseGeo, GeoWords, CString, ParseChannels, EncChannels, ChannelOk, LenChannels;
    var g := p + 4 + PaddedName(u.name);
    var tail := EncWords([|u.channels|]) + EncChannels(u.channels);
    AtSplit(s, p, EncName(u.name, under[..4 + PaddedName(u.name)]), EncBody(u));
    NameRoundTrip(s, p, u.name, under[..4 + PaddedName(u.name)]);
    AtSplit(s, g, EncWords(GeoWords(u.geo)), tail);
    GeoRoundTrip(s, g, u.geo);
    AtSplit(s, g + 72, EncWords([|u.channels|]), EncChannels(u.channels));
    WordAt(s, g + 72, [|u.channels|], 0);
    ChannelsRoundTrip(s, g + 76, u.channels);
  }

  lemma {:induction false} UnitsRoundTrip(s: seq<Byte>, p: nat, us: seq<VUnit>, under: seq<Byte>)
    requires |under| == LenUnits(us) && At(s, p, EncUnits(us, under))
    requires forall i :: 0 <= i < |us| ==> UnitOk(us[i])
    ensures ParseUnits(s, p, |us|) == Parsed(us, p + LenUnits(us))
    decreases |us|
  {
    hide UnitOk, EncUnit, ParseUnit, LenUnit;
    if us != [] {
      var n := LenUnit(us[0]);
      AtSplit(s, p, EncUnit(us[0], under[..n]), EncUnits(us[1..], under[n..]));
      UnitRoundTrip(s, p, us[0], under[..n]);
      UnitsRoundTrip(s, p + n, us[1..], under[n..]);
      assert us == [us[0]] + us[1..];
    }
  }

  /** Decoding undoes encoding, whatever the unwritten padding holds and whatever follows,
      and consumes exactly the bytes that were produced. */
  lemma SsdRoundTrip(v: VSsd, under: seq<Byte>, trailing: seq<Byte>)
    requires SsdOk(v) && |under| == LenSsd(v)
    ensures ParseSsd(EncSsd(v, under) + trailing) == Parsed(v, LenSsd(v))
  {
    hide Get4, EncWords, UnitOk, EncUnits, LenUnits, ParseUnits;
    var s := EncSsd(v, under) + trailing;
    var ws := HeaderWords(v);
    assert At(s, 0, EncWords(ws) + EncUnits(v.units, under[12..]));
    AtSplit(s, 0, EncWords(ws), EncUnits(v.units, under[12..]));
    WordAt(s, 0, ws, 0);
    WordAt(s, 0, ws, 1);
    WordAt(s, 0, ws, 2);
    UnitsRoundTrip(s, 12, v.units, under[12..]);
  }
}
