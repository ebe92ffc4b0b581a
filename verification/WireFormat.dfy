/** The wire format of a virtual SSD, field by field and at fixed places, as the comment before its
    classes documents it (ocssd_server.h, 356-380). */
module WireFormat {
  import opened Bytes
  import opened VirtualSsd

  lemma AtWithin(s: seq<Byte>, p: nat, a: seq<Byte>, q: nat, b: seq<Byte>)
    requires At(s, p, a) && At(a, q, b)
    ensures At(s, p + q, b)
  {
    forall i | 0 <= i < |b| ensures s[p + q + i] == b[i] {
      assert s[p..p + |a|][q + i] == a[q + i];
      assert a[q..q + |b|][i] == b[i];
    }
  }

  lemma AtSelf(s: seq<Byte>)
    ensures At(s, 0, s)
  {
  }

  // ---------------------------------------------------------------- channels

  lemma {:induction false} LunAt(ls: seq<VLun>, l: nat)
    requires l < |ls|
    ensures At(EncLuns(ls), 12 * l, EncWords(LunWords(ls[l])))
    decreases l
  {
    hide EncWords;
    var s, rest := EncLuns(ls), EncLuns(ls[1..]);
    AtSelf(s);
    AtSplit(s, 0, EncWords(LunWords(ls[0])), rest);
    if l > 0 {
      LunAt(ls[1..], l - 1);
      AtWithin(s, 12, rest, 12 * (l - 1), EncWords(LunWords(ls[l])));
    }
  }

  /** A channel is four words, followed, only if it is marked 1, by three words for each LUN. */
  lemma ChannelLayout(c: VChannel)
    requires ChannelOk(c)
    ensures var s := EncChannel(c);
            && |s| == (if c.shared == 1 then 16 + 12 * |c.luns| else 16)
            && Get4(s, 0) == c.id && Get4(s, 4) == c.shared && Get4(s, 8) == c.total && Get4(s, 12) == c.numLuns
  {
    hide EncWords, Get4, EncLuns;
    var s, ws := EncChannel(c), ChannelWords(c);
    AtSelf(s);
    AtSplit(s, 0, EncWords(ws), if c.shared == 1 then EncLuns(c.luns) else []);
    WordAt(s, 0, ws, 0);
    WordAt(s, 0, ws, 1);
    WordAt(s, 0, ws, 2);
    WordAt(s, 0, ws, 3);
  }

  lemma LunLayout(c: VChannel, l: nat)
    requires ChannelOk(c) && c.shared == 1 && l < |c.luns|
    ensures var s, p := EncChannel(c), 16 + 12 * l;
            && p + 12 <= |s|
            && Get4(s, p) == c.luns[l].id && Get4(s, p + 4) == c.luns[l].start && Get4(s, p + 8) == c.luns[l].count
  {
    hide EncWords, Get4, EncLuns;
    var s, ws := EncChannel(c), LunWords(c.luns[l]);
    AtSelf(s);
    AtSplit(s, 0, EncWords(ChannelWords(c)), EncLuns(c.luns));
    LunAt(c.luns, l);
    AtWithin(s, 16, EncLuns(c.luns), 12 * l, EncWords(ws));
    assert LunOk(c.luns[l]);
    WordAt(s, 16 + 12 * l, ws, 0);
    WordAt(s, 16 + 12 * l, ws, 1);
    WordAt(s, 16 + 12 * l, ws, 2);
  }

  // ---------------------------------------------------------------- units

  lemma {:induction false} ChannelAt(cs: seq<VChannel>, j: nat)
    requires j < |cs|
    ensures At(EncChannels(cs), LenChannels(cs[..j]), EncChannel(cs[j]))
    decreases j
  {
    hide EncChannel, LenChannel;
    var s, rest := EncChannels(cs), EncChannels(cs[1..]);
    AtSelf(s);
    AtSplit(s, 0, EncChannel(cs[0]), rest);
    if j > 0 {
      ChannelAt(cs[1..], j - 1);
      assert cs[..j][1..] == cs[1..][..j - 1];
      AtWithin(s, LenChannel(cs[0]), rest, LenChannels(cs[1..][..j - 1]), EncChannel(cs[j]));
    }
  }

  /** A unit is its name's length with the NUL, the name, the NUL, bytes up to a multiple of four
      that are left as they were, nine 64-bit geometry fields, and the number of channels. */
  lemma UnitLayout(u: VUnit, under: seq<Byte>)
    requires UnitOk(u) && |under| == LenUnit(u)
    ensures var s, n, g := EncUnit(u, under), |u.name|, 4 + (|u.name| + 4) / 4 * 4;
            && |s| == g + 76 + LenChannels(u.channels) && n + 5 <= g
            && Get4(s, 0) == n + 1 && s[4..4 + n] == u.name && s[4 + n] == 0 && s[5 + n..g] == under[5 + n..g]
            && Get8(s, g) == u.geo.nchannels && Get8(s, g + 8) == u.geo.nluns && Get8(s, g + 16) == u.geo.nplanes
            && Get8(s, g + 24) == u.geo.nblocks && Get8(s, g + 32) == u.geo.npages
            && Get8(s, g + 40) == u.geo.nsectors && Get8(s, g + 48) == u.geo.pageBytes
            && Get8(s, g + 56) == u.geo.sectorBytes && Get8(s, g + 64) == u.geo.metaBytes
            && Get4(s, g + 72) == |u.channels|
  {
    hide EncWords, Get4, Get8, GeoWords, EncChannels, Lo, Hi;
    var s, g := EncUnit(u, under), 4 + PaddedName(u.name);
    NamePlaces(u.name, under[..g]);
    var head := EncName(u.name, under[..g]);
    assert s[..g] == head;
    AtSelf(s);
    AtSplit(s, 0, head, EncBody(u));
    WordStaysAt(s, head);
    GeoPlaces(s, g, u);
  }

  lemma WordStaysAt(s: seq<Byte>, head: seq<Byte>)
    requires 4 <= |head| <= |s| && s[..|head|] == head
    ensures Get4(s, 0) == Get4(head, 0)
  {
    assert forall i :: 0 <= i < 4 ==> s[i] == s[..|head|][i];
  }

  lemma NamePlaces(name: seq<Byte>, under: seq<Byte>)
    requires NameOk(name) && |under| == 4 + PaddedName(name)
    ensures var s, n := EncName(name, under), |name|;
            && Get4(s, 0) == n + 1 && s[4..4 + n] == name && s[4 + n] == 0 && s[5 + n..] == under[5 + n..]
  {
    hide EncWords, Get4;
    var s := EncName(name, under);
    AtSelf(s);
    AtSplit(s, 0, EncWords([|name| + 1]), name + [0] + under[4 + |name| + 1..]);
    WordAt(s, 0, [|name| + 1], 0);
  }

  lemma GeoPlaces(s: seq<Byte>, p: nat, u: VUnit)
    requires UnitOk(u) && At(s, p, EncBody(u))
    ensures p + 76 <= |s| && Get4(s, p + 72) == |u.channels|
    ensures Get8(s, p) == u.geo.nchannels && Get8(s, p + 8) == u.geo.nluns && Get8(s, p + 16) == u.geo.nplanes
    ensures Get8(s, p + 24) == u.geo.nblocks && Get8(s, p + 32) == u.geo.npages && Get8(s, p + 40) == u.geo.nsectors
    ensures Get8(s, p + 48) == u.geo.pageBytes && Get8(s, p + 56) == u.geo.sectorBytes
    ensures Get8(s, p + 64) == u.geo.metaBytes
  {
    hide EncWords, Get4, Get8, EncChannels, GeoWords;
    AtSplit(s, p, EncWords(GeoWords(u.geo)), EncWords([|u.channels|]) + EncChannels(u.channels));
    GeoRoundTrip(s, p, u.geo);
    AtSplit(s, p + 72, EncWords([|u.channels|]), EncChannels(u.channels));
    WordAt(s, p + 72, [|u.channels|], 0);
  }

  /** The channels follow in order, without gaps. */
  lemma ChannelsInOrder(u: VUnit, under: seq<Byte>, j: nat)
    requires |under| == LenUnit(u) && j < |u.channels|
    ensures At(EncUnit(u, under), 80 + (|u.name| + 4) / 4 * 4 + LenChannels(u.channels[..j]), EncChannel(u.channels[j]))
  {
    hide EncWords, GeoWords, EncName, EncChannels, EncChannel, LenChannels;
    var s, g, cs := EncUnit(u, under), 4 + PaddedName(u.name), EncChannels(u.channels);
    AtSelf(s);
    AtSplit(s, 0, EncName(u.name, under[..g]), EncBody(u));
    AtSplit(s, g, EncWords(GeoWords(u.geo)), EncWords([|u.channels|]) + cs);
    AtSplit(s, g + 72, EncWords([|u.channels|]), cs);
    ChannelAt(u.channels, j);
    AtWithin(s, g + 76, cs, LenChannels(u.channels[..j]), EncChannel(u.channels[j]));
  }

  // ---------------------------------------------------------------- the virtual SSD

  lemma {:induction false} UnitAt(us: seq<VUnit>, under: seq<Byte>, k: nat)
    requires |under| == LenUnits(us) && k < |us|
    ensures var p := LenUnits(us[..k]); var q := p + LenUnit(us[k]);
            q <= |under| && At(EncUnits(us, under), p, EncUnit(us[k], under[p..q]))
    decreases k
  {
    hide EncUnit, LenUnit, EncUnits, LenUnits;
    var n := LenUnit(us[0]);
    UnitsFront(us, under);
    var s, rest := EncUnits(us, under), EncUnits(us[1..], under[n..]);
    AtSelf(s);
    AtSplit(s, 0, EncUnit(us[0], under[..n]), rest);
    if k == 0 {
      NoUnits(us);
    } else {
      UnitAt(us[1..], under[n..], k - 1);
      UnitsBefore(us, k);
      var p := LenUnits(us[1..][..k - 1]);
      var q := p + LenUnit(us[k]);
      assert under[n..][p..q] == under[n + p..n + q];
      AtWithin(s, n, rest, p, EncUnit(us[k], under[n + p..n + q]));
    }
  }

  lemma {:induction false} UnitsFront(us: seq<VUnit>, under: seq<Byte>)
    requires us != [] && |under| == LenUnits(us)
    ensures var n := LenUnit(us[0]);
            && n <= |under| && |under[n..]| == LenUnits(us[1..])
            && EncUnits(us, under) == EncUnit(us[0], under[..n]) + EncUnits(us[1..], under[n..])
  {
    hide EncUnit, LenUnit;
  }

  lemma {:induction false} UnitsBefore(us: seq<VUnit>, k: nat)
    requires 0 < k <= |us|
    ensures LenUnits(us[..k]) == LenUnit(us[0]) + LenUnits(us[1..][..k - 1])
  {
    hide LenUnit;
    assert us[..k][1..] == us[1..][..k - 1];
  }

  lemma {:induction false} NoUnits(us: seq<VUnit>)
    ensures us[..0] == [] && LenUnits(us[..0]) == 0
  {
  }

  /** A virtual SSD is a magic word, its id, the number of units, and the units. */
  lemma SsdLayout(v: VSsd, under: seq<Byte>)
    requires SsdOk(v) && |under| == LenSsd(v)
    ensures var s := EncSsd(v, under);
            |s| == 12 + LenUnits(v.units) && Get4(s, 0) == 0x6502 && Get4(s, 4) == v.id && Get4(s, 8) == |v.units|
  {
    hide EncWords, Get4, EncUnits, LenUnits, UnitOk;
    var s, ws := EncSsd(v, under), HeaderWords(v);
    AtSelf(s);
    AtSplit(s, 0, EncWords(ws), EncUnits(v.units, under[12..]));
    WordAt(s, 0, ws, 0);
    WordAt(s, 0, ws, 1);
    WordAt(s, 0, ws, 2);
  }

  /** The units follow in order, without gaps, each over the bytes that were there. */
  lemma UnitsInOrder(v: VSsd, under: seq<Byte>, k: nat)
    requires |under| == LenSsd(v) && k < |v.units|
    ensures var p := 12 + LenUnits(v.units[..k]); var q := p + LenUnit(v.units[k]);
            q <= |under| && At(EncSsd(v, under), p, EncUnit(v.units[k], under[p..q]))
  {
    hide EncWords, EncUnits, LenUnits, EncUnit, LenUnit;
    var s, units := EncSsd(v, under), EncUnits(v.units, under[12..]);
    AtSelf(s);
    AtSplit(s, 0, EncWords(HeaderWords(v)), units);
    UnitAt(v.units, under[12..], k);
    var p := LenUnits(v.units[..k]);
    var q := p + LenUnit(v.units[k]);
    assert under[12..][p..q] == under[12 + p..12 + q];
    AtWithin(s, 12, units, p, EncUnit(v.units[k], under[12 + p..12 + q]));
  }

  // ---------------------------------------------------------------- what a reader takes from any bytes

  lemma {:induction false} ParsedLunAt(s: seq<Byte>, p: nat, n: nat, l: nat)
    requires ParseLuns(s, p, n).Parsed? && l < n
    ensures var r, q := ParseLuns(s, p, n), p + 12 * l;
            && |r.value| == n && r.next == p + 12 * n <= |s|
            && r.value[l] == VLun(Get4(s, q), Get4(s, q + 4), Get4(s, q + 8))
    decreases n
  {
    hide Get4;
    if n > 1 { ParsedLunAt(s, p + 12, n - 1, if l > 0 then l - 1 else 0); }
  }

  /** Whatever the bytes: a channel is read from its four words, and LUNs, as many as the fourth word
      says, only if the second word is 1. */
  lemma ParsedChannelLayout(s: seq<Byte>, p: nat)
    requires ParseChannel(s, p).Parsed?
    ensures var c, next := ParseChannel(s, p).value, ParseChannel(s, p).next;
            && p + 16 <= |s| && c.id == Get4(s, p) && c.shared == Get4(s, p + 4)
            && c.total == Get4(s, p + 8) && c.numLuns == Get4(s, p + 12)
            && |c.luns| == (if c.shared == 1 then c.numLuns else 0) && next == p + 16 + 12 * |c.luns| <= |s|
            && forall l :: 0 <= l < |c.luns| ==>
                 var q := p + 16 + 12 * l; c.luns[l] == VLun(Get4(s, q), Get4(s, q + 4), Get4(s, q + 8))
  {
    hide Get4, ParseLuns;
    var c := ParseChannel(s, p).value;
    if c.shared == 1 {
      var n := c.numLuns;
      if n == 0 { NoLuns(s, p + 16); } else { ParsedLunAt(s, p + 16, n, 0); }
      forall l | 0 <= l < |c.luns|
        ensures var q := p + 16 + 12 * l; q + 12 <= |s| && c.luns[l] == VLun(Get4(s, q), Get4(s, q + 4), Get4(s, q + 8))
      {
        ParsedLunAt(s, p + 16, n, l);
      }
    }
  }

  lemma {:induction false} NoLuns(s: seq<Byte>, p: nat)
    ensures ParseLuns(s, p, 0) == Parsed([], p)
  {
  }

  lemma {:induction false} CStringIs(s: seq<Byte>, p: nat)
    requires CString(s, p).Parsed?
    ensures var t, q := CString(s, p).value, CString(s, p).next;
            0 !in t && q == p + |t| < |s| && s[p..q] == t && s[q] == 0
    decreases |s| - p
  {
    if s[p] != 0 {
      CStringIs(s, p + 1);
      var q := CString(s, p).next;
      assert s[p..q] == [s[p]] + s[p + 1..q];
    }
  }

  lemma {:induction false} ParsedChannelsSpan(s: seq<Byte>, p: nat, n: nat)
    requires ParseChannels(s, p, n).Parsed?
    ensures var r := ParseChannels(s, p, n); |r.value| == n && r.next == p + LenChannels(r.value)
    decreases n
  {
    hide ParseChannel, LenChannel;
    if n > 0 {
      var first := ParseChannel(s, p);
      ChannelSpan(s, p);
      ParsedChannelsSpan(s, first.next, n - 1);
      var rest := ParseChannels(s, first.next, n - 1).value;
      assert ([first.value] + rest)[1..] == rest;
    }
  }

  lemma {:induction false} ParsedChannelAt(s: seq<Byte>, p: nat, n: nat, j: nat)
    requires ParseChannels(s, p, n).Parsed? && j < n
    ensures var cs := ParseChannels(s, p, n).value;
            && |cs| == n
            && var c := ParseChannel(s, p + LenChannels(cs[..j])); c.Parsed? && cs[j] == c.value
    decreases n
  {
    hide ParseChannel, LenChannel;
    ParsedChannelsSpan(s, p, n);
    if j > 0 {
      var first := ParseChannel(s, p);
      ChannelSpan(s, p);
      ParsedChannelAt(s, first.next, n - 1, j - 1);
      var cs, rest := ParseChannels(s, p, n).value, ParseChannels(s, first.next, n - 1).value;
      assert cs[..j][1..] == rest[..j - 1];
    }
  }

  lemma ChannelSpan(s: seq<Byte>, p: nat)
    requires ParseChannel(s, p).Parsed?
    ensures ParseChannel(s, p).next == p + LenChannel(ParseChannel(s, p).value)
  {
    hide ParseChannel, Get4;
    ParsedChannelLayout(s, p);
  }

  /** Whatever the bytes: a unit's name ends at the first NUL, the geometry stands where the length
      word, rounded up in 32 bits, points, and as many channels follow as the word behind it says. */
  lemma ParsedUnitLayout(s: seq<Byte>, p: nat)
    requires ParseUnit(s, p).Parsed?
    ensures var u, next := ParseUnit(s, p).value, ParseUnit(s, p).next;
            var n := |u.name|;
            && 0 !in u.name && p + 4 + n < |s| && s[p + 4..p + 4 + n] == u.name && s[p + 4 + n] == 0
            && var g := p + 4 + (Get4(s, p) + 3) % 0x1_0000_0000 / 4 * 4;
               && g + 76 <= |s| && u.geo == ParseGeo(s, g) && |u.channels| == Get4(s, g + 72)
               && next == g + 76 + LenChannels(u.channels)
               && forall j :: 0 <= j < |u.channels| ==>
                    var c := ParseChannel(s, g + 76 + LenChannels(u.channels[..j]));
                    c.Parsed? && u.channels[j] == c.value
  {
    hide Get4, CString, ParseGeo, ParseChannels, ParseChannel, LenChannels;
    CStringIs(s, p + 4);
    var g := p + 4 + RoundUp32(Get4(s, p));
    var n, cs := Get4(s, g + 72), ParseUnit(s, p).value.channels;
    ParsedChannelsSpan(s, g + 76, n);
    forall j | 0 <= j < n
      ensures var c := ParseChannel(s, g + 76 + LenChannels(cs[..j])); c.Parsed? && cs[j] == c.value
    {
      ParsedChannelAt(s, g + 76, n, j);
    }
  }
}
