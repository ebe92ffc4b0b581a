/** A client reading replies one after another off the connection: what it has decoded never
    changes when more bytes arrive (ocssd_server.h, 524-544, 653-677, 725-747). */
module ClientStream {
  import opened Bytes
  import opened VirtualSsd
  import WriteQueue

  // ---------------------------------------------------------------- a record read stays read

  lemma WordStays(s: seq<Byte>, t: seq<Byte>, p: nat)
    requires p + 4 <= |s|
    ensures Get4(s + t, p) == Get4(s, p)
  {
  }

  lemma {:induction false} LunsStay(s: seq<Byte>, t: seq<Byte>, p: nat, n: nat)
    requires ParseLuns(s, p, n).Parsed?
    ensures ParseLuns(s + t, p, n) == ParseLuns(s, p, n)
    decreases n
  {
    hide Get4;
    if n > 0 {
      WordStays(s, t, p);
      WordStays(s, t, p + 4);
      WordStays(s, t, p + 8);
      LunsStay(s, t, p + 12, n - 1);
    }
  }

  lemma ChannelStays(s: seq<Byte>, t: seq<Byte>, p: nat)
    requires ParseChannel(s, p).Parsed?
    ensures ParseChannel(s + t, p) == ParseChannel(s, p)
  {
    hide Get4, ParseLuns;
    WordStays(s, t, p);
    WordStays(s, t, p + 4);
    WordStays(s, t, p + 8);
    WordStays(s, t, p + 12);
    if Get4(s, p + 4) == 1 { LunsStay(s, t, p + 16, Get4(s, p + 12)); }
  }

  lemma {:induction false} ChannelsStay(s: seq<Byte>, t: seq<Byte>, p: nat, n: nat)
    requires ParseChannels(s, p, n).Parsed?
    ensures ParseChannels(s + t, p, n) == ParseChannels(s, p, n)
    decreases n
  {
    hide ParseChannel;
    if n > 0 {
      ChannelStays(s, t, p);
      ChannelsStay(s, t, ParseChannel(s, p).next, n - 1);
    }
  }

  lemma {:induction false} CStringStays(s: seq<Byte>, t: seq<Byte>, p: nat)
    requires CString(s, p).Parsed?
    ensures CString(s + t, p) == CString(s, p)
    decreases |s| - p
  {
    assert (s + t)[p] == s[p];
    if s[p] != 0 { CStringStays(s, t, p + 1); }
  }

  lemma GeoStays(s: seq<Byte>, t: seq<Byte>, p: nat)
    requires p + 72 <= |s|
    ensures ParseGeo(s + t, p) == ParseGeo(s, p)
  {
    hide Get4;
    WordStays(s, t, p);
    WordStays(s, t, p + 4);
    WordStays(s, t, p + 8);
    WordStays(s, t, p + 12);
    WordStays(s, t, p + 16);
    WordStays(s, t, p + 20);
    WordStays(s, t, p + 24);
    WordStays(s, t, p + 28);
    WordStays(s, t, p + 32);
    WordStays(s, t, p + 36);
    WordStays(s, t, p + 40);
    WordStays(s, t, p + 44);
    WordStays(s, t, p + 48);
    WordStays(s, t, p + 52);
    WordStays(s, t, p + 56);
    WordStays(s, t, p + 60);
    WordStays(s, t, p + 64);
    WordStays(s, t, p + 68);
  }

  lemma UnitStays(s: seq<Byte>, t: seq<Byte>, p: nat)
    requires ParseUnit(s, p).Parsed?
    ensures ParseUnit(s + t, p) == ParseUnit(s, p)
  {
    hide Get4, CString, ParseGeo, ParseChannels;
    WordStays(s, t, p);
    CStringStays(s, t, p + 4);
    var g := p + 4 + RoundUp32(Get4(s, p));
    GeoStays(s, t, g);
    WordStays(s, t, g + 72);
    ChannelsStay(s, t, g + 76, Get4(s, g + 72));
  }

  lemma {:induction false} UnitsStay(s: seq<Byte>, t: seq<Byte>, p: nat, n: nat)
    requires ParseUnits(s, p, n).Parsed?
    ensures ParseUnits(s + t, p, n) == ParseUnits(s, p, n)
    decreases n
  {
    hide ParseUnit;
    if n > 0 {
      UnitStays(s, t, p);
      UnitsStay(s, t, ParseUnit(s, p).next, n - 1);
    }
  }

  /** A reply that decodes, decodes to the same whatever follows it. */
  lemma SsdStays(s: seq<Byte>, t: seq<Byte>)
    requires ParseSsd(s).Parsed?
    ensures ParseSsd(s + t) == ParseSsd(s)
  {
    hide Get4, ParseUnits;
    WordStays(s, t, 0);
    WordStays(s, t, 4);
    WordStays(s, t, 8);
    UnitsStay(s, t, 12, Get4(s, 8));
  }

  // ---------------------------------------------------------------- replies in a row

  /** What a request is answered with: a virtual SSD, or as many bytes as a read asked for. */
  datatype Answer = Ssd(value: VSsd) | Data(bytes: seq<Byte>)

  datatype Kind = WantsSsd | WantsBytes(n: nat)

  function KindOf(a: Answer): Kind { if a.Ssd? then WantsSsd else WantsBytes(|a.bytes|) }

  function Kinds(answers: seq<Answer>): (r: seq<Kind>)
    ensures |r| == |answers|
  {
    seq(|answers|, i requires 0 <= i < |answers| => KindOf(answers[i]))
  }

  /** What a client decodes from the bytes it has, one answer after another, by the kinds of the
      requests that are answered. */
  function DecodeStream(s: seq<Byte>, kinds: seq<Kind>): seq<Answer>
    decreases |kinds|
  {
    if kinds == [] then [] else
      match kinds[0]
      case WantsSsd =>
        var p := ParseSsd(s);
        if p.Parsed? && p.next <= |s| then [Ssd(p.value)] + DecodeStream(s[p.next..], kinds[1..]) else []
      case WantsBytes(n) =>
        if n <= |s| then [Data(s[..n])] + DecodeStream(s[n..], kinds[1..]) else []
  }

  /** The reply carries the answer, to its last byte. */
  ghost predicate Carries(reply: seq<Byte>, answer: Answer) {
    match answer
    case Ssd(v) => ParseSsd(reply) == Parsed(v, |reply|)
    case Data(bytes) => reply == bytes
  }

  ghost predicate Answers(replies: seq<seq<Byte>>, answers: seq<Answer>) {
    |replies| == |answers| && forall k :: 0 <= k < |replies| ==> Carries(replies[k], answers[k])
  }

  lemma {:induction false} ConcatFront(replies: seq<seq<Byte>>)
    requires replies != []
    ensures WriteQueue.Concat(replies) == replies[0] + WriteQueue.Concat(replies[1..])
    decreases |replies|
  {
    var n := |replies| - 1;
    if n == 0 {
      assert replies[..0] == [] && replies[1..] == [];
    } else {
      ConcatFront(replies[..n]);
      assert replies[..n][1..] == replies[1..][..n - 1];
      var mid, last := WriteQueue.Concat(replies[1..][..n - 1]), replies[n];
      assert replies[0] + mid + last == replies[0] + (mid + last);
    }
  }

  lemma {:induction false} OneAnswer(reply: seq<Byte>, answer: Answer, rest: seq<Byte>, kinds: seq<Kind>)
    requires Carries(reply, answer)
    ensures DecodeStream(reply + rest, [KindOf(answer)] + kinds) == [answer] + DecodeStream(rest, kinds)
  {
    hide ParseSsd;
    assert ([KindOf(answer)] + kinds)[1..] == kinds;
    assert (reply + rest)[|reply|..] == rest && (reply + rest)[..|reply|] == reply;
    if answer.Ssd? { SsdStays(reply, rest); }
  }

  /** From the replies sent so far the client decodes the answers they carry, in order; of those
      still to come only answers of no bytes at all. */
  lemma {:induction false} RepliesDecode(replies: seq<seq<Byte>>, answers: seq<Answer>, more: seq<Answer>)
    requires Answers(replies, answers)
    ensures DecodeStream(WriteQueue.Concat(replies), Kinds(answers + more)) == answers + DecodeStream([], Kinds(more))
    ensures DecodeStream(WriteQueue.Concat(replies), Kinds(answers + more)) <= answers + more
    decreases |replies|
  {
    hide ParseSsd, WriteQueue.Concat, Carries, KindOf, DecodeStream;
    if replies == [] {
      NothingSent();
      assert answers + more == more && answers + DecodeStream([], Kinds(more)) == DecodeStream([], Kinds(more));
    } else {
      ConcatFront(replies);
      RepliesDecode(replies[1..], answers[1..], more);
      OneAnswer(replies[0], answers[0], WriteQueue.Concat(replies[1..]), Kinds(answers[1..] + more));
      assert Kinds(answers + more) == [KindOf(answers[0])] + Kinds(answers[1..] + more);
      var later := DecodeStream([], Kinds(more));
      assert answers + later == [answers[0]] + (answers[1..] + later);
    }
    NothingDecodes(more);
  }

  lemma NothingSent()
    ensures WriteQueue.Concat([]) == []
  {
  }

  lemma {:induction false} NothingDecodes(more: seq<Answer>)
    ensures DecodeStream([], Kinds(more)) <= more
    decreases |more|
  {
    if more != [] {
      NothingDecodes(more[1..]);
      assert Kinds(more)[1..] == Kinds(more[1..]);
      var none: seq<Byte> := [];
      assert none[0..] == none;
    }
  }

  /** From a prefix of the bytes the client decodes a prefix of the answers. */
  lemma {:induction false} PrefixDecodesPrefix(a: seq<Byte>, b: seq<Byte>, kinds: seq<Kind>)
    ensures DecodeStream(a, kinds) <= DecodeStream(a + b, kinds)
    decreases |kinds|
  {
    hide ParseSsd;
    if kinds != [] {
      match kinds[0]
      case WantsSsd =>
        var p := ParseSsd(a);
        if p.Parsed? && p.next <= |a| {
          SsdStays(a, b);
          assert (a + b)[p.next..] == a[p.next..] + b;
          PrefixDecodesPrefix(a[p.next..], b, kinds[1..]);
        }
      case WantsBytes(n) =>
        if n <= |a| {
          assert (a + b)[n..] == a[n..] + b && (a + b)[..n] == a[..n];
          PrefixDecodesPrefix(a[n..], b, kinds[1..]);
        }
    }
  }
}
