/** Reassembling commands and write payloads from arbitrary reads
    (ocssd_conn.h, 123-184, 346-358, 384-458). */
module Framing {
  import opened Bytes
  import opened Requests

  /** What a connection hands to its handlers. `NoBlock` and `Unknown` frames are dropped, and
      the connection goes on with the next 24 bytes. */
  datatype Message =
    | AllocMsg(alloc: AllocRequest)
    | ReadMsg(io: IoRequest)
    | WriteMsg(io: IoRequest, payload: seq<Byte>)
    | EraseMsg(io: IoRequest)
    | NoBlock(io: IoRequest)
    | Unknown(frame: seq<Byte>)

  /** How many vblks the connection has after handling these messages. */
  type BlockCount = seq<Message> -> nat

  // ---------------------------------------------------------------- reference parser

  predicate CarriesPayload(frame: seq<Byte>, done: seq<Message>, blocks: BlockCount)
    requires |frame| >= FRAME_SIZE
  {
    && DecodeIo(frame).Accepted? && DecodeIo(frame).value.command.WriteBlock?
    && DecodeIo(frame).value.blockIndex < blocks(done)
  }

  /** Length of the message that starts with this frame. */
  function MessageLen(frame: seq<Byte>, done: seq<Message>, blocks: BlockCount): (n: nat)
    requires |frame| >= FRAME_SIZE
    ensures n >= FRAME_SIZE
  {
    FRAME_SIZE + if CarriesPayload(frame, done, blocks) then DecodeIo(frame).value.count else 0
  }

  function MessageOf(bytes: seq<Byte>, done: seq<Message>, blocks: BlockCount): Message
    requires |bytes| >= FRAME_SIZE
  {
    match DecodeIo(bytes)
    case Accepted(io) =>
      if io.blockIndex >= blocks(done) then NoBlock(io)
      else if io.command.ReadBlock? then ReadMsg(io)
      else if io.command.WriteBlock? then WriteMsg(io, bytes[FRAME_SIZE..])
      else EraseMsg(io)
    case Rejected(_) =>
      match DecodeAlloc(bytes)
      case Accepted(alloc) => AllocMsg(alloc)
      case Rejected(_) => Unknown(bytes[..FRAME_SIZE])
  }

  /** All complete messages at the start of a stream, appended to `done`, and the bytes left over. */
  function Parse(s: seq<Byte>, done: seq<Message>, blocks: BlockCount): (seq<Message>, seq<Byte>)
    decreases |s|
  {
    if |s| < FRAME_SIZE then (done, s) else
      var n := MessageLen(s[..FRAME_SIZE], done, blocks);
      if |s| < n then (done, s) else Parse(s[n..], done + [MessageOf(s[..n], done, blocks)], blocks)
  }

  /** Parsing may stop anywhere and go on with more bytes. */
  lemma {:induction false} ParseResumes(a: seq<Byte>, b: seq<Byte>, done: seq<Message>, blocks: BlockCount)
    ensures var p := Parse(a, done, blocks); Parse(a + b, done, blocks) == Parse(p.1 + b, p.0, blocks)
    decreases |a|
  {
    hide MessageLen, MessageOf;
    if |a| >= FRAME_SIZE {
      assert (a + b)[..FRAME_SIZE] == a[..FRAME_SIZE];
      var n := MessageLen(a[..FRAME_SIZE], done, blocks);
      if |a| >= n {
        assert (a + b)[..n] == a[..n] && (a + b)[n..] == a[n..] + b;
        ParseResumes(a[n..], b, done + [MessageOf(a[..n], done, blocks)], blocks);
      }
    }
  }

  lemma {:induction false} ParseExtends(s: seq<Byte>, done: seq<Message>, blocks: BlockCount)
    ensures done <= Parse(s, done, blocks).0
    decreases |s|
  {
    hide MessageLen, MessageOf;
    if |s| >= FRAME_SIZE {
      var n := MessageLen(s[..FRAME_SIZE], done, blocks);
      if |s| >= n { ParseExtends(s[n..], done + [MessageOf(s[..n], done, blocks)], blocks); }
    }
  }

  /** What a prefix of a stream dispatches is a prefix of what the whole stream dispatches. */
  lemma {:induction false} PrefixDispatchesPrefix(a: seq<Byte>, b: seq<Byte>, blocks: BlockCount)
    ensures Parse(a, [], blocks).0 <= Parse(a + b, [], blocks).0
  {
    ParseResumes(a, b, [], blocks);
    var p := Parse(a, [], blocks);
    ParseExtends(p.1 + b, p.0, blocks);
  }

  predicate UsesBlock(m: Message) { m.ReadMsg? || m.WriteMsg? || m.EraseMsg? }

  /** Every message that goes on to use a vblk names one that exists when it is handled. */
  predicate Indexed(ms: seq<Message>, blocks: BlockCount) {
    forall k :: 0 <= k < |ms| && UsesBlock(ms[k]) ==> ms[k].io.blockIndex < blocks(ms[..k])
  }

  lemma {:induction false} ParseIsIndexed(s: seq<Byte>, done: seq<Message>, blocks: BlockCount)
    requires Indexed(done, blocks)
    ensures Indexed(Parse(s, done, blocks).0, blocks)
    decreases |s|
  {
    hide MessageLen;
    if |s| >= FRAME_SIZE {
      var n := MessageLen(s[..FRAME_SIZE], done, blocks);
      if |s| >= n {
        var next := done + [MessageOf(s[..n], done, blocks)];
        assert next[..|done|] == done;
        forall k | 0 <= k < |done| ensures next[..k] == done[..k] {}
        ParseIsIndexed(s[n..], next, blocks);
      }
    }
  }

  // ---------------------------------------------------------------- what a client sends

  /** Messages a client can send, given the vblks the connection has when each one arrives. A frame
      with any other header is a message too. */
  predicate Sendable(m: Message, done: seq<Message>, blocks: BlockCount) {
    match m
    case AllocMsg(_) => true
    case ReadMsg(io) => io.command.ReadBlock? && io.blockIndex < blocks(done)
    case WriteMsg(io, payload) => io.command.WriteBlock? && io.blockIndex < blocks(done) && |payload| == io.count
    case EraseMsg(io) => io.command.EraseBlock? && io.blockIndex < blocks(done)
    case NoBlock(io) => IsIo(io.command) && io.blockIndex >= blocks(done)
    case Unknown(frame) => |frame| == FRAME_SIZE && Dispatch(Get4(frame, 0)) == NoHandler
  }

  function WireForm(m: Message): seq<Byte>
    requires m.Unknown? || m.AllocMsg? || IsIo(m.io.command)
  {
    match m
    case AllocMsg(alloc) => EncWords(AllocWords(alloc))
    case WriteMsg(io, payload) => EncWords(IoWords(io)) + payload
    case Unknown(frame) => frame
    case _ => EncWords(IoWords(m.io))
  }

  predicate AllSendable(ms: seq<Message>, done: seq<Message>, blocks: BlockCount)
    decreases |ms|
  {
    ms == [] || (Sendable(ms[0], done, blocks) && AllSendable(ms[1..], done + [ms[0]], blocks))
  }

  function Stream(ms: seq<Message>, done: seq<Message>, blocks: BlockCount): seq<Byte>
    requires AllSendable(ms, done, blocks)
    decreases |ms|
  {
    if ms == [] then [] else WireForm(ms[0]) + Stream(ms[1..], done + [ms[0]], blocks)
  }

  lemma MessageRoundTrip(m: Message, done: seq<Message>, blocks: BlockCount)
    requires Sendable(m, done, blocks)
    ensures |WireForm(m)| >= FRAME_SIZE
    ensures MessageLen(WireForm(m)[..FRAME_SIZE], done, blocks) == |WireForm(m)|
    ensures MessageOf(WireForm(m), done, blocks) == m
  {
    hide EncWords, DecodeIo, DecodeAlloc, Get4;
    if m.Unknown? {
      assert m.frame[..FRAME_SIZE] == m.frame;
      DispatchAccepts(m.frame);
    } else if m.AllocMsg? {
      AllocRoundTrip(m.alloc, []);
      assert WireForm(m) + [] == WireForm(m) == WireForm(m)[..FRAME_SIZE];
      DispatchAccepts(WireForm(m));
      NotBoth(WireForm(m));
    } else {
      var payload := if m.WriteMsg? then m.payload else [];
      IoRoundTrip(m.io, []);
      IoRoundTrip(m.io, payload);
      assert EncWords(IoWords(m.io)) + [] == EncWords(IoWords(m.io));
      assert WireForm(m) == EncWords(IoWords(m.io)) + payload;
      assert WireForm(m)[..FRAME_SIZE] == EncWords(IoWords(m.io));
      assert WireForm(m)[FRAME_SIZE..] == payload;
    }
  }

  lemma NotBoth(s: seq<Byte>)
    requires |s| >= FRAME_SIZE
    ensures !(DecodeIo(s).Accepted? && DecodeAlloc(s).Accepted?)
  {
  }

  /** The reference parser recovers every message a client sends, in order, and nothing else. */
  lemma {:induction false} StreamRoundTrip(ms: seq<Message>, done: seq<Message>, blocks: BlockCount)
    requires AllSendable(ms, done, blocks)
    ensures Parse(Stream(ms, done, blocks), done, blocks) == (done + ms, [])
    decreases |ms|
  {
    hide MessageLen, MessageOf, WireForm;
    if ms == [] {
      assert done + ms == done;
    } else {
      var f, rest := WireForm(ms[0]), Stream(ms[1..], done + [ms[0]], blocks);
      MessageRoundTrip(ms[0], done, blocks);
      var s := f + rest;
      assert s[..FRAME_SIZE] == f[..FRAME_SIZE] && s[..|f|] == f && s[|f|..] == rest;
      StreamRoundTrip(ms[1..], done + [ms[0]], blocks);
      assert done + [ms[0]] + ms[1..] == done + ms;
    }
  }

  /** What a complete message is, told from its header and its fields at their places. */
  lemma MessageByHeader(bytes: seq<Byte>, done: seq<Message>, blocks: BlockCount)
    requires |bytes| >= 24
    ensures var m, len := MessageOf(bytes, done, blocks), MessageLen(bytes[..24], done, blocks);
            var header, index := Get4(bytes, 0), Get4(bytes, 4);
            if header == 0x6501 then
              && len == 24
              && m == AllocMsg(AllocRequest(index, Get4(bytes, 8), Get4(bytes, 12), Get4(bytes, 16), Get4(bytes, 20)))
            else if header == 0x6401 || header == 0x6402 || header == 0x6403 then
              var count, offset := Get8(bytes, 8), Get8(bytes, 16);
              if index >= blocks(done) then
                var command := if header == 0x6401 then ReadBlock
                               else if header == 0x6402 then WriteBlock
                               else EraseBlock;
                len == 24 && m == NoBlock(IoRequest(command, index, count, offset))
              else if header == 0x6401 then len == 24 && m == ReadMsg(IoRequest(ReadBlock, index, count, offset))
              else if header == 0x6402 then
                len == 24 + count && m == WriteMsg(IoRequest(WriteBlock, index, count, offset), bytes[24..])
              else len == 24 && m == EraseMsg(IoRequest(EraseBlock, index, count, offset))
            else len == 24 && m == Unknown(bytes[..24])
  {
    hide Get4, Get8;
    SameFrame(bytes[..24], bytes[24..]);
    assert bytes[..24] + bytes[24..] == bytes;
  }

  /** Every complete message is one a client can send, in the form it is sent. */
  lemma MessageIsWireForm(bytes: seq<Byte>, done: seq<Message>, blocks: BlockCount)
    requires |bytes| >= FRAME_SIZE && |bytes| == MessageLen(bytes[..FRAME_SIZE], done, blocks)
    ensures Sendable(MessageOf(bytes, done, blocks), done, blocks)
    ensures WireForm(MessageOf(bytes, done, blocks)) == bytes
  {
    hide EncWords, Get4, Get8;
    var frame := bytes[..FRAME_SIZE];
    assert frame + bytes[FRAME_SIZE..] == bytes;
    SameFrame(frame, bytes[FRAME_SIZE..]);
    if DecodeIo(bytes).Accepted? {
      IoFrameOf(bytes);
    } else if DecodeAlloc(bytes).Accepted? {
      AllocFrameOf(bytes);
    } else {
      assert frame == bytes;
    }
  }

  predicate Incomplete(rest: seq<Byte>, done: seq<Message>, blocks: BlockCount) {
    |rest| < FRAME_SIZE || |rest| < MessageLen(rest[..FRAME_SIZE], done, blocks)
  }

  lemma {:induction false} ParseIsStream(s: seq<Byte>, done: seq<Message>, blocks: BlockCount)
    ensures var p := Parse(s, done, blocks);
            && done <= p.0 && Incomplete(p.1, p.0, blocks)
            && AllSendable(p.0[|done|..], done, blocks)
            && s == Stream(p.0[|done|..], done, blocks) + p.1
    decreases |s|
  {
    hide MessageLen, MessageOf, WireForm, Sendable, Parse, Stream, AllSendable;
    if Incomplete(s, done, blocks) {
      NothingFound(s, done, blocks);
    } else {
      var n := MessageLen(s[..FRAME_SIZE], done, blocks);
      var m := MessageOf(s[..n], done, blocks);
      assert s[..n][..FRAME_SIZE] == s[..FRAME_SIZE];
      MessageIsWireForm(s[..n], done, blocks);
      ParseIsStream(s[n..], done + [m], blocks);
      OneFound(s, done, blocks);
      var all := Parse(s, done, blocks).0;
      assert all[|done|..] == [m] + all[|done| + 1..];
      StreamCons(m, all[|done| + 1..], done, blocks);
      assert s == s[..n] + s[n..];
    }
  }

  lemma {:induction false} NothingFound(s: seq<Byte>, done: seq<Message>, blocks: BlockCount)
    requires Incomplete(s, done, blocks)
    ensures Parse(s, done, blocks) == (done, s) && done[|done|..] == []
    ensures AllSendable([], done, blocks) && Stream([], done, blocks) + s == s
  {
    hide MessageLen, MessageOf;
  }

  lemma {:induction false} OneFound(s: seq<Byte>, done: seq<Message>, blocks: BlockCount)
    requires !Incomplete(s, done, blocks)
    ensures var n := MessageLen(s[..FRAME_SIZE], done, blocks);
            Parse(s, done, blocks) == Parse(s[n..], done + [MessageOf(s[..n], done, blocks)], blocks)
  {
    hide MessageLen, MessageOf;
  }

  lemma {:induction false} StreamCons(m: Message, ms: seq<Message>, done: seq<Message>, blocks: BlockCount)
    requires Sendable(m, done, blocks) && AllSendable(ms, done + [m], blocks)
    ensures AllSendable([m] + ms, done, blocks)
    ensures Stream([m] + ms, done, blocks) == WireForm(m) + Stream(ms, done + [m], blocks)
  {
    hide WireForm, Sendable;
    assert ([m] + ms)[1..] == ms;
  }

  /** The reference parser is exactly the inverse of sending: its result is the one sequence of
      messages whose bytes, with an incomplete rest behind them, make up the input. */
  lemma {:induction false} ParsedIff(s: seq<Byte>, ms: seq<Message>, rest: seq<Byte>, blocks: BlockCount)
    ensures Parse(s, [], blocks) == (ms, rest)
            <==> AllSendable(ms, [], blocks) && s == Stream(ms, [], blocks) + rest && Incomplete(rest, ms, blocks)
  {
    hide MessageLen, MessageOf, WireForm, Sendable;
    ParseIsStream(s, [], blocks);
    var p := Parse(s, [], blocks);
    assert p.0[0..] == p.0;
    if AllSendable(ms, [], blocks) && s == Stream(ms, [], blocks) + rest && Incomplete(rest, ms, blocks) {
      StreamRoundTrip(ms, [], blocks);
      ParseResumes(Stream(ms, [], blocks), rest, [], blocks);
      assert [] + ms == ms && [] + rest == rest;
    }
  }

  // ---------------------------------------------------------------- the code

  /** How many reads succeed before the first close or failure. */
  function Lead(schedule: seq<int>): (n: nat)
    ensures n <= |schedule| && (n < |schedule| ==> schedule[n] <= 0)
    ensures forall i :: 0 <= i < n ==> schedule[i] > 0
  {
    if schedule == [] || schedule[0] <= 0 then 0 else 1 + Lead(schedule[1..])
  }

  lemma {:induction false} AllLead(schedule: seq<int>)
    requires forall i :: 0 <= i < |schedule| ==> schedule[i] > 0
    ensures Lead(schedule) == |schedule|
  {
    if schedule != [] { AllLead(schedule[1..]); }
  }

  /** Every successful read delivers something, and only a close or failure ends the connection:
      from `inbox0` and `schedule0` on, each read used up has taken at least one byte, and a closed
      connection has met the end of the input or the first read that did not succeed. */
  predicate Earnest(inbox0: seq<Byte>, schedule0: seq<int>, inbox: seq<Byte>, schedule: seq<int>, closed: bool) {
    if closed then inbox == [] || |inbox| + Lead(schedule0) <= |inbox0|
    else |inbox| + Lead(schedule0) <= |inbox0| + Lead(schedule)
  }

  /** One connection's receiving side. The socket is the bytes the peer sends (`inbox`) and an
      arbitrary sequence of read outcomes (`schedule`): a positive number is a chunk of at most
      that size, zero a close, a negative number (or no entry) a failure. */
  class Receiver {
    const blocks: BlockCount
    const messageBuf: array<Byte>
    var messageEnd: nat
    var closed: bool
    var log: seq<Message>
    var inbox: seq<Byte>
    var schedule: seq<int>
    ghost var received: seq<Byte>
    ghost var parsed: seq<Byte>
    ghost var tail: seq<Byte>

    /** The bytes received are complete messages, all dispatched, and one incomplete rest. */
    ghost predicate Valid()
      reads this, messageBuf
    {
      && messageBuf.Length == FRAME_SIZE
      && received == parsed + tail
      && Parse(parsed, [], blocks) == (log, []) && Parse(tail, log, blocks) == (log, tail)
      && (!closed ==> messageEnd < FRAME_SIZE && tail == messageBuf[..messageEnd])
    }

    constructor (blocks: BlockCount, input: seq<Byte>, schedule: seq<int>)
      ensures Valid() && fresh(messageBuf) && !closed && log == [] && received == [] && inbox == input
      ensures this.blocks == blocks && this.schedule == schedule
    {
      this.blocks, this.inbox, this.schedule := blocks, input, schedule;
      messageBuf := new Byte[FRAME_SIZE];
      messageEnd, closed, log, received, parsed, tail := 0, false, [], [], [], [];
    }

    /** read(2): at least one and at most `want` of the bytes sent, or 0 at a close, or -1. */
    method Read(want: nat) returns (len: int, data: seq<Byte>)
      requires want > 0
      modifies this`inbox, this`schedule, this`received
      ensures len <= want && |data| == (if len > 0 then len else 0)
      ensures old(inbox) == data + inbox && received == old(received) + data
      ensures len > 0 ==> |schedule| < |old(schedule)|
      ensures |schedule| <= |old(schedule)|
      ensures Earnest(old(inbox), old(schedule), inbox, schedule, len <= 0)
    {
      data := [];
      if schedule == [] {
        return -1, data;
      }
      var next := schedule[0];
      schedule := schedule[1..];
      if next <= 0 {
        return next, data;
      }
      len := Min(next, Min(want, |inbox|));
      data := inbox[..len];
      inbox := inbox[len..];
      received := received + data;
    }

    method Store(data: seq<Byte>)
      requires messageEnd + |data| <= messageBuf.Length
      modifies this`messageEnd, messageBuf
      ensures messageEnd == old(messageEnd) + |data| && messageBuf[..messageEnd] == old(messageBuf[..messageEnd]) + data
    {
      forall i | 0 <= i < |data| { messageBuf[messageEnd + i] := data[i]; }
      messageEnd := messageEnd + |data|;
    }

    /** Reads until the frame buffer is full or the connection closes. */
    method FillFrame()
      requires Valid() && !closed
      modifies this, messageBuf
      ensures closed ==> Valid()
      ensures !closed ==>
                && messageEnd == FRAME_SIZE == messageBuf.Length && |schedule| < |old(schedule)|
                && received == parsed + messageBuf[..] && Parse(parsed, [], blocks) == (log, [])
      ensures received + inbox == old(received + inbox)
      ensures Earnest(old(inbox), old(schedule), inbox, schedule, closed)
    {
      hide Parse, Lead;
      while messageEnd < FRAME_SIZE
        invariant messageEnd < FRAME_SIZE ==> Valid()
        invariant messageEnd <= FRAME_SIZE == messageBuf.Length && !closed
        invariant received == parsed + messageBuf[..messageEnd] && Parse(parsed, [], blocks) == (log, [])
        invariant received + inbox == old(received + inbox)
        invariant Earnest(old(inbox), old(schedule), inbox, schedule, false)
        invariant |schedule| <= |old(schedule)| && (messageEnd == old(messageEnd) || |schedule| < |old(schedule)|)
        decreases FRAME_SIZE - messageEnd
      {
        var len, data := Read(FRAME_SIZE - messageEnd);
        if len <= 0 {
          closed := true;
          return;
        }
        assert parsed + messageBuf[..messageEnd] + data == parsed + (messageBuf[..messageEnd] + data);
        Store(data);
        tail := messageBuf[..messageEnd];
        ShortRest(tail, log, blocks);
      }
      assert messageBuf[..messageEnd] == messageBuf[..];
    }

    /** Receives one frame and dispatches it on its header. */
    method ProcessCommand()
      requires Valid() && !closed
      modifies this, messageBuf
      ensures Valid() && received + inbox == old(received + inbox)
      ensures !closed ==> |schedule| < |old(schedule)|
      ensures Earnest(old(inbox), old(schedule), inbox, schedule, closed)
    {
      hide Parse, Get4, Lead;
      FillFrame();
      if closed {
        return;
      }
      messageEnd := 0;
      var frame := messageBuf[..];
      assert frame[..FRAME_SIZE] == frame;
      DispatchAccepts(frame);
      match Dispatch(Get4(frame, 0)) {
        case WriteHandler => ProcessWriteRequest(frame);
        case NoHandler => Finish(frame, Unknown(frame));
        case AllocHandler => Finish(frame, AllocMsg(DecodeAlloc(frame).value));
        case _ =>
          var io := DecodeIo(frame).value;
          if io.blockIndex >= blocks(log) {
            Finish(frame, NoBlock(io));
          } else {
            Finish(frame, if io.command.ReadBlock? then ReadMsg(io) else EraseMsg(io));
          }
      }
    }

    /** A complete message has been handled. */
    method Finish(bytes: seq<Byte>, m: Message)
      requires Parse(parsed, [], blocks) == (log, []) && received == parsed + bytes && messageBuf.Length == FRAME_SIZE
      requires |bytes| >= FRAME_SIZE && |bytes| == MessageLen(bytes[..FRAME_SIZE], log, blocks)
      requires m == MessageOf(bytes, log, blocks) && messageEnd == 0 && !closed
      modifies this`parsed, this`tail, this`log
      ensures Valid() && log == old(log) + [m]
    {
      hide MessageLen, MessageOf;
      ParseResumes(parsed, bytes, [], blocks);
      assert [] + bytes == bytes && bytes[..|bytes|] == bytes && bytes[|bytes|..] == [];
      parsed, tail, log := parsed + bytes, [], log + [m];
    }

    /** Receives the payload of a write, if its block exists. */
    method ProcessWriteRequest(frame: seq<Byte>)
      requires |frame| == FRAME_SIZE == messageBuf.Length && Dispatch(Get4(frame, 0)) == WriteHandler
      requires Parse(parsed, [], blocks) == (log, []) && received == parsed + frame && messageEnd == 0 && !closed
      modifies this
      ensures Valid() && received + inbox == old(received + inbox) && |schedule| <= |old(schedule)|
      ensures Earnest(old(inbox), old(schedule), inbox, schedule, closed)
    {
      hide Parse, Lead;
      DispatchAccepts(frame);
      assert frame[..FRAME_SIZE] == frame;
      var io := DecodeIo(frame).value;
      if io.blockIndex >= blocks(log) {
        Finish(frame, NoBlock(io));
        return;
      }
      var payload: seq<Byte> := [];
      assert frame + payload == frame;
      while |payload| < io.count
        invariant |payload| <= io.count && received == parsed + (frame + payload)
        invariant received + inbox == old(received + inbox) && |schedule| <= |old(schedule)|
        invariant Earnest(old(inbox), old(schedule), inbox, schedule, false)
        invariant !closed && messageEnd == 0 && log == old(log) && parsed == old(parsed)
      {
        var len, data := Read(io.count - |payload|);
        if len <= 0 {
          closed := true;
          tail := frame + payload;
          ShortPayload(frame, payload, log, blocks);
          return;
        }
        assert parsed + (frame + payload) + data == parsed + (frame + (payload + data));
        payload := payload + data;
      }
      var bytes := frame + payload;
      assert bytes[..FRAME_SIZE] == frame && bytes[FRAME_SIZE..] == payload;
      SameFrame(frame, payload);
      Finish(bytes, WriteMsg(io, payload));
    }

    /** The event loop: one callback after another until the connection closes. */
    method Serve()
      requires Valid() && !closed
      modifies this, messageBuf
      ensures Valid() && closed && received + inbox == old(received + inbox)
      ensures Earnest(old(inbox), old(schedule), inbox, schedule, true)
    {
      hide Parse, Lead;
      while !closed
        invariant Valid() && received + inbox == old(received + inbox)
        invariant Earnest(old(inbox), old(schedule), inbox, schedule, closed)
        decreases !closed, |schedule|
      {
        ProcessCommand();
      }
    }
  }

  lemma {:induction false} ShortRest(rest: seq<Byte>, done: seq<Message>, blocks: BlockCount)
    ensures |rest| < FRAME_SIZE ==> Parse(rest, done, blocks) == (done, rest)
  {
  }

  lemma SameFrame(frame: seq<Byte>, payload: seq<Byte>)
    requires |frame| == FRAME_SIZE
    ensures DecodeIo(frame + payload) == DecodeIo(frame)
  {
    forall i | 0 <= i < FRAME_SIZE ensures (frame + payload)[i] == frame[i] {}
  }

  lemma {:induction false} ShortPayload(frame: seq<Byte>, payload: seq<Byte>, done: seq<Message>, blocks: BlockCount)
    requires |frame| == FRAME_SIZE && |payload| < MessageLen(frame, done, blocks) - FRAME_SIZE
    ensures Parse(frame + payload, done, blocks) == (done, frame + payload)
  {
    hide MessageLen, MessageOf;
    assert (frame + payload)[..FRAME_SIZE] == frame;
  }

  /** Chunking independence: whatever the reads and wherever they stop, what was dispatched is
      what the reference parser finds in the bytes received, and hence a prefix of what it finds
      in the whole input. The reads stop only at the end of the input or at the first read that
      does not succeed, so any splitting into enough positive reads dispatches the whole input.
      A schedule may be longer than the reads it takes to deliver the input: entries met once
      the input is used up report a close, so a splitting into few large reads is covered by
      padding it with further entries, which changes nothing it dispatches. */
  method ServeInput(blocks: BlockCount, input: seq<Byte>, schedule: seq<int>)
    returns (log: seq<Message>, left: seq<Byte>)
    ensures exists received :: received + left == input && log == Parse(received, [], blocks).0
    ensures log <= Parse(input, [], blocks).0
    ensures left == [] ==> log == Parse(input, [], blocks).0
    ensures left == [] || |left| + Lead(schedule) <= |input|
    ensures (forall i :: 0 <= i < |schedule| ==> schedule[i] > 0) && |input| <= |schedule| ==>
              left == [] && log == Parse(input, [], blocks).0
  {
    hide Parse, Lead;
    var c := new Receiver(blocks, input, schedule);
    c.Serve();
    log, left := c.log, c.inbox;
    ParseResumes(c.parsed, c.tail, [], blocks);
    assert [] + c.tail == c.tail && [] + input == input;
    assert Parse(c.received, [], blocks).0 == log;
    PrefixDispatchesPrefix(c.received, left, blocks);
    assert left == [] ==> c.received + left == c.received;
    if forall i :: 0 <= i < |schedule| ==> schedule[i] > 0 { AllLead(schedule); }
  }
}
