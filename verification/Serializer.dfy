/** The in-place serializers and readers: a cursor advancing over a byte buffer
    (ocssd_server.h, 408-747). Each loop keeps that storing the whole list over the original
    bytes comes to the same as storing the rest of it, at the cursor, over the current bytes. */
module Serializer {
  import opened Bytes
  import opened VirtualSsd

  // ---------------------------------------------------------------- writing

  method SerializeLun(buf: array<Byte>, pos: nat, l: VLun) returns (next: nat)
    requires pos + 12 <= buf.Length
    modifies buf
    ensures next == pos + 12
    ensures buf[..] == Overwrite(old(buf[..]), pos, EncWords(LunWords(l)))
  {
    hide EncWords;
    ghost var was, ws := buf[..], [];
    NoWords(was, pos);
    next, ws := PutWord(buf, pos, l.id, was, pos, []);
    next, ws := PutWord(buf, next, l.start, was, pos, ws);
    next, ws := PutWord(buf, next, l.count, was, pos, ws);
    assert ws == LunWords(l);
  }

  method SerializeChannel(buf: array<Byte>, pos: nat, c: VChannel) returns (next: nat)
    requires pos + LenChannel(c) <= buf.Length
    modifies buf
    ensures next == pos + LenChannel(c)
    ensures buf[..] == Overwrite(old(buf[..]), pos, EncChannel(c))
  {
    hide EncWords;
    ghost var was, ws := buf[..], [];
    NoWords(was, pos);
    next, ws := PutWord(buf, pos, c.id, was, pos, []);
    next, ws := PutWord(buf, next, c.shared, was, pos, ws);
    next, ws := PutWord(buf, next, c.total, was, pos, ws);
    next, ws := PutWord(buf, next, c.numLuns, was, pos, ws);
    assert ws == ChannelWords(c);
    if c.shared == 1 {
      OverwriteSplit(was, pos, EncWords(ws), EncLuns(c.luns));
      next := SerializeLuns(buf, next, c.luns);
    } else {
      assert EncWords(ws) + [] == EncWords(ws);
    }
  }

  method SerializeLuns(buf: array<Byte>, pos: nat, ls: seq<VLun>) returns (next: nat)
    requires pos + 12 * |ls| <= buf.Length
    modifies buf
    ensures next == pos + 12 * |ls|
    ensures buf[..] == Overwrite(old(buf[..]), pos, EncLuns(ls))
  {
    hide EncWords;
    next := pos;
    var i := 0;
    assert ls[0..] == ls;
    while i < |ls|
      invariant 0 <= i <= |ls| && next == pos + 12 * i
      invariant Overwrite(old(buf[..]), pos, EncLuns(ls)) == Overwrite(buf[..], next, EncLuns(ls[i..]))
    {
      var rest := ls[i..];
      OverwriteSplit(buf[..], next, EncWords(LunWords(rest[0])), EncLuns(rest[1..]));
      next := SerializeLun(buf, next, ls[i]);
      assert rest[1..] == ls[i + 1..];
      i := i + 1;
    }
    assert EncLuns(ls[i..]) == [];
  }

  method SerializeGeo(buf: array<Byte>, pos: nat, g: Geometry) returns (next: nat)
    requires pos + 72 <= buf.Length
    modifies buf
    ensures next == pos + 72
    ensures buf[..] == Overwrite(old(buf[..]), pos, EncWords(GeoWords(g)))
  {
    hide EncWords, Lo, Hi;
    ghost var was, ws := buf[..], [];
    NoWords(was, pos);
    next, ws := PutLong(buf, pos, g.nchannels, was, pos, []);
    next, ws := PutLong(buf, next, g.nluns, was, pos, ws);
    next, ws := PutLong(buf, next, g.nplanes, was, pos, ws);
    next, ws := PutLong(buf, next, g.nblocks, was, pos, ws);
    next, ws := PutLong(buf, next, g.npages, was, pos, ws);
    next, ws := PutLong(buf, next, g.nsectors, was, pos, ws);
    next, ws := PutLong(buf, next, g.pageBytes, was, pos, ws);
    next, ws := PutLong(buf, next, g.sectorBytes, was, pos, ws);
    next, ws := PutLong(buf, next, g.metaBytes, was, pos, ws);
    assert ws == GeoWords(g);
  }

  /** Writes the length and the terminated name, then skips to the next multiple of four. */
  method SerializeName(buf: array<Byte>, pos: nat, name: seq<Byte>) returns (next: nat)
    requires pos + 4 + PaddedName(name) <= buf.Length
    modifies buf
    ensures next == pos + 4 + PaddedName(name)
    ensures buf[..] == Overwrite(old(buf[..]), pos, EncName(name, old(buf[pos..pos + 4 + PaddedName(name)])))
  {
    next := SerializeCount(buf, pos, |name| + 1);
    PutBytes(buf, next, name + [0]);
    next := next + (|name| + 1 + 3) / 4 * 4;
    NameLayout(old(buf[..]), pos, name, EncWords([|name| + 1]));
  }

  lemma NameLayout(s: seq<Byte>, p: nat, name: seq<Byte>, word: seq<Byte>)
    requires p + 4 + PaddedName(name) <= |s| && word == EncWords([|name| + 1])
    ensures Overwrite(Overwrite(s, p, word), p + 4, name + [0])
            == Overwrite(s, p, EncName(name, s[p..p + 4 + PaddedName(name)]))
  {
    hide EncWords, Overwrite;
    var n := 4 + PaddedName(name);
    var skipped := s[p + 4 + |name| + 1..p + n];
    assert s[p..p + n][4 + |name| + 1..] == skipped;
    OverwriteSplit(s, p, word, name + [0] + skipped);
    OverwriteSplit(Overwrite(s, p, word), p + 4, name + [0], skipped);
    var t := Overwrite(Overwrite(s, p, word), p + 4, name + [0]);
    var q := p + 4 + |name| + 1;
    assert t[q..] == Overwrite(s, p, word)[p + 4..][|name| + 1..] == s[q..];
    OverwriteSame(t, q, skipped);
  }

  lemma OverwriteSame(s: seq<Byte>, p: nat, bytes: seq<Byte>)
    requires p + |bytes| <= |s| && s[p..][..|bytes|] == bytes
    ensures Overwrite(s, p, bytes) == s
  {
  }

  method SerializeCount(buf: array<Byte>, pos: nat, n: nat) returns (next: nat)
    requires pos + 4 <= buf.Length
    modifies buf
    ensures next == pos + 4
    ensures buf[..] == Overwrite(old(buf[..]), pos, EncWords([n]))
  {
    NoWords(buf[..], pos);
    ghost var ws;
    next, ws := PutWord(buf, pos, n, buf[..], pos, []);
  }

  method SerializeBody(buf: array<Byte>, pos: nat, u: VUnit) returns (next: nat)
    requires pos + |EncBody(u)| <= buf.Length
    modifies buf
    ensures next == pos + |EncBody(u)|
    ensures buf[..] == Overwrite(old(buf[..]), pos, EncBody(u))
  {
    hide EncWords, GeoWords, LenChannels, EncChannels;
    ghost var counted := EncWords([|u.channels|]) + EncChannels(u.channels);
    OverwriteSplit(buf[..], pos, EncWords(GeoWords(u.geo)), counted);
    next := SerializeGeo(buf, pos, u.geo);
    OverwriteSplit(buf[..], next, EncWords([|u.channels|]), EncChannels(u.channels));
    next := SerializeCount(buf, next, |u.channels|);
    next := SerializeChannels(buf, next, u.channels);
  }

  method SerializeUnit(buf: array<Byte>, pos: nat, u: VUnit) returns (next: nat)
    requires pos + LenUnit(u) <= buf.Length
    modifies buf
    ensures next == pos + LenUnit(u)
    ensures buf[..] == Overwrite(old(buf[..]), pos, EncUnit(u, old(buf[pos..pos + LenUnit(u)])))
  {
    hide EncName, EncBody;
    ghost var was, n := buf[..], 4 + PaddedName(u.name);
    assert was[pos..pos + LenUnit(u)][..n] == was[pos..pos + n];
    OverwriteSplit(was, pos, EncName(u.name, was[pos..pos + n]), EncBody(u));
    next := SerializeName(buf, pos, u.name);
    next := SerializeBody(buf, next, u);
  }

  lemma {:induction false} UnitsStep(s: seq<Byte>, p: nat, us: seq<VUnit>, n: nat, m: nat)
    requires us != [] && n == LenUnit(us[0]) && m == LenUnits(us[1..]) && p + n + m <= |s|
    ensures LenUnits(us) == n + m
    ensures var t := Overwrite(s, p, EncUnit(us[0], s[p..p + n]));
            && t[p + n..p + n + m] == s[p + n..p + n + m]
            && Overwrite(s, p, EncUnits(us, s[p..p + (n + m)]))
               == Overwrite(t, p + n, EncUnits(us[1..], t[p + n..p + n + m]))
  {
    hide EncUnit, LenUnit;
    var first := EncUnit(us[0], s[p..p + n]);
    assert s[p..p + (n + m)][..n] == s[p..p + n];
    assert s[p..p + (n + m)][n..] == s[p + n..p + n + m];
    OverwriteSplit(s, p, first, EncUnits(us[1..], s[p + n..p + n + m]));
    assert Overwrite(s, p, first)[p + n..p + n + m] == s[p + n..p + n + m];
  }

  lemma NoUnits(s: seq<Byte>, p: nat)
    requires p <= |s|
    ensures Overwrite(s, p, EncUnits([], s[p..p])) == s
  {
  }

  method SerializeUnits(buf: array<Byte>, pos: nat, us: seq<VUnit>) returns (next: nat)
    requires pos + LenUnits(us) <= buf.Length
    modifies buf
    ensures next == pos + LenUnits(us)
    ensures buf[..] == Overwrite(old(buf[..]), pos, EncUnits(us, old(buf[pos..pos + LenUnits(us)])))
  {
    hide EncUnit, EncUnits, LenUnit, Overwrite;
    next := pos;
    var i := 0;
    assert us[0..] == us;
    ghost var target := Overwrite(buf[..], pos, EncUnits(us, buf[pos..pos + LenUnits(us)]));
    while i < |us|
      invariant 0 <= i <= |us| && next + LenUnits(us[i..]) == pos + LenUnits(us)
      invariant target == Overwrite(buf[..], next, EncUnits(us[i..], buf[next..next + LenUnits(us[i..])]))
    {
      UnitsStep(buf[..], next, us[i..], LenUnit(us[i]), LenUnits(us[i..][1..]));
      assert us[i..][1..] == us[i + 1..];
      next := SerializeUnit(buf, next, us[i]);
      i := i + 1;
    }
    assert us[i..] == [];
    NoUnits(buf[..], next);
  }

  method SerializeChannels(buf: array<Byte>, pos: nat, cs: seq<VChannel>) returns (next: nat)
    requires pos + LenChannels(cs) <= buf.Length
    modifies buf
    ensures next == pos + LenChannels(cs)
    ensures buf[..] == Overwrite(old(buf[..]), pos, EncChannels(cs))
  {
    hide EncChannel, LenChannel;
    next := pos;
    var i := 0;
    assert cs[0..] == cs;
    while i < |cs|
      invariant 0 <= i <= |cs| && next + LenChannels(cs[i..]) == pos + LenChannels(cs)
      invariant Overwrite(old(buf[..]), pos, EncChannels(cs)) == Overwrite(buf[..], next, EncChannels(cs[i..]))
    {
      var rest := cs[i..];
      OverwriteSplit(buf[..], next, EncChannel(rest[0]), EncChannels(rest[1..]));
      next := SerializeChannel(buf, next, cs[i]);
      assert rest[1..] == cs[i + 1..];
      i := i + 1;
    }
    assert cs[i..] == [];
  }

  // ---------------------------------------------------------------- reading

  /** A reader demands of its caller that the buffer holds the whole record. */
  method DeserializeChannel(buf: array<Byte>, pos: nat) returns (c: VChannel, next: nat)
    requires ParseChannel(buf[..], pos).Parsed?
    ensures ParseChannel(buf[..], pos) == Parsed(c, next)
  {
    hide Get4;
    ghost var s := buf[..];
    var id, shared := Get4(buf[..], pos), Get4(buf[..], pos + 4);
    var total, n := Get4(buf[..], pos + 8), Get4(buf[..], pos + 12);
    var luns: seq<VLun> := [];
    next := pos + 16;
    if shared == 1 {
      var i := 0;
      assert luns + ParseLuns(s, next, n).value == ParseLuns(s, next, n).value;
      while i < n
        invariant 0 <= i <= n && ParseLuns(s, next, n - i).Parsed?
        invariant var rest := ParseLuns(s, next, n - i);
                  ParseLuns(s, pos + 16, n) == Parsed(luns + rest.value, rest.next)
      {
        var l := VLun(Get4(buf[..], next), Get4(buf[..], next + 4), Get4(buf[..], next + 8));
        ghost var rest := ParseLuns(s, next, n - i).value;
        assert luns + rest == luns + [l] + rest[1..];
        luns, next, i := luns + [l], next + 12, i + 1;
      }
      assert luns + [] == luns;
    }
    c := VChannel(id, shared, total, n, luns);
  }

  method DeserializeChannels(buf: array<Byte>, pos: nat, n: nat) returns (channels: seq<VChannel>, next: nat)
    requires ParseChannels(buf[..], pos, n).Parsed?
    ensures ParseChannels(buf[..], pos, n) == Parsed(channels, next)
  {
    hide ParseChannel;
    ghost var s := buf[..];
    channels, next := [], pos;
    var i := 0;
    assert channels + ParseChannels(s, next, n).value == ParseChannels(s, next, n).value;
    while i < n
      invariant 0 <= i <= n && ParseChannels(s, next, n - i).Parsed?
      invariant var rest := ParseChannels(s, next, n - i);
                ParseChannels(s, pos, n) == Parsed(channels + rest.value, rest.next)
    {
      ghost var rest := ParseChannels(s, next, n - i).value;
      var c;
      c, next := DeserializeChannel(buf, next);
      assert channels + rest == channels + [c] + rest[1..];
      channels, i := channels + [c], i + 1;
    }
    assert channels + [] == channels;
  }

  method DeserializeUnit(buf: array<Byte>, pos: nat) returns (u: VUnit, next: nat)
    requires ParseUnit(buf[..], pos).Parsed?
    ensures ParseUnit(buf[..], pos) == Parsed(u, next)
  {
    hide Get4, CString, ParseGeo, ParseChannels;
    var nameLen := Get4(buf[..], pos);
    var name := CString(buf[..], pos + 4).value;
    next := pos + 4 + RoundUp32(nameLen);
    var geo := ParseGeo(buf[..], next);
    var n := Get4(buf[..], next + 72);
    var channels;
    channels, next := DeserializeChannels(buf, next + 76, n);
    u := VUnit(name, geo, channels);
  }

  // ---------------------------------------------------------------- the virtual SSD object

  class VirtualOcssd {
    var id: nat
    var units: seq<VUnit>

    constructor ()
      ensures id == 0 && units == []
    {
      id, units := 0, [];
    }

    function Value(): VSsd reads this { VSsd(id, units) }

    method Add(unit: VUnit)
      modifies this
      ensures id == old(id) && units == old(units) + [unit]
    {
      units := units + [unit];
    }

    method SetId(newId: nat)
      modifies this
      ensures id == newId && units == old(units)
    {
      id := newId;
    }

    method SerializeHeader(buf: array<Byte>) returns (next: nat)
      requires 12 <= buf.Length
      modifies buf
      ensures next == 12 && buf[..] == Overwrite(old(buf[..]), 0, EncWords(HeaderWords(Value())))
    {
      hide EncWords, Overwrite;
      ghost var was, ws := buf[..], [];
      NoWords(was, 0);
      next, ws := PutWord(buf, 0, SERIALIZE_MAGIC, was, 0, []);
      next, ws := PutWord(buf, next, id, was, 0, ws);
      next, ws := PutWord(buf, next, |units|, was, 0, ws);
      assert ws == HeaderWords(Value());
    }

    method Serialize(buf: array<Byte>) returns (len: nat)
      requires LenSsd(Value()) <= buf.Length
      modifies buf
      ensures len == LenSsd(Value())
      ensures buf[..] == Overwrite(old(buf[..]), 0, EncSsd(Value(), old(buf[..LenSsd(Value())])))
    {
      hide EncWords, EncUnits, LenUnits;
      ghost var was, ws := buf[..], HeaderWords(Value());
      ghost var under := was[..LenSsd(Value())];
      var p := SerializeHeader(buf);
      OverwriteSplit(was, 0, EncWords(ws), EncUnits(units, under[12..]));
      assert under[12..] == buf[p..p + LenUnits(units)];
      len := SerializeUnits(buf, p, units);
    }

    /** The reader's loop: each unit decoded at the cursor is pushed behind the ones already present. */
    method ReadUnits(buf: array<Byte>, pos: nat, n: nat) returns (next: nat)
      requires ParseUnits(buf[..], pos, n).Parsed?
      modifies this
      ensures id == old(id) && old(units) <= units
      ensures ParseUnits(buf[..], pos, n) == Parsed(units[|old(units)|..], next)
    {
      hide ParseUnit;
      ghost var s, before, read := buf[..], units, [];
      next := pos;
      var i := 0;
      assert read + ParseUnits(s, next, n).value == ParseUnits(s, next, n).value;
      while i < n
        invariant 0 <= i <= n && ParseUnits(s, next, n - i).Parsed?
        invariant id == old(id) && units == before + read && buf[..] == s
        invariant var rest := ParseUnits(s, next, n - i);
                  ParseUnits(s, pos, n) == Parsed(read + rest.value, rest.next)
      {
        ghost var rest := ParseUnits(s, next, n - i).value;
        var u;
        u, next := DeserializeUnit(buf, next);
        Add(u);
        assert read + rest == read + [u] + rest[1..];
        read, i := read + [u], i + 1;
      }
      assert read + [] == read && units[|before|..] == read;
    }

    /** Appends the decoded units to the ones already present; a wrong magic changes nothing. */
    method Deserialize(buf: array<Byte>) returns (len: nat)
      requires buf.Length >= 4
      requires Get4(buf[..], 0) == SERIALIZE_MAGIC ==> ParseSsd(buf[..]).Parsed?
      modifies this
      ensures Get4(buf[..], 0) != SERIALIZE_MAGIC ==> len == 0 && Value() == old(Value())
      ensures Get4(buf[..], 0) == SERIALIZE_MAGIC ==>
                old(units) <= units && ParseSsd(buf[..]) == Parsed(VSsd(id, units[|old(units)|..]), len)
    {
      hide Get4, ParseUnits;
      if Get4(buf[..], 0) != SERIALIZE_MAGIC {
        return 0;
      }
      id := Get4(buf[..], 4);
      var n := Get4(buf[..], 8);
      len := ReadUnits(buf, 12, n);
    }
  }
}
