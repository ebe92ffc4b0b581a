/** The 24-byte request frames and the choice of handler (ocssd_server.h, 187-354;
    ocssd_conn.h, 164-181). */
module Requests {
  import opened Bytes

  const READ_BLOCK_MAGIC: nat := 0x6401
  const WRITE_BLOCK_MAGIC: nat := 0x6402
  const ERASE_BLOCK_MAGIC: nat := 0x6403
  const REQUEST_MAGIC: nat := 0x6501
  const FRAME_SIZE: nat := 24

  datatype Command = NoRequest | AllocVssd | ReadBlock | WriteBlock | EraseBlock

  datatype IoRequest = IoRequest(command: Command, blockIndex: U32, count: U64, offset: U64)

  datatype AllocRequest = AllocRequest(channels: U32, blocks: U32, shared: U32, numaId: U32, remote: U32)

  /** `Rejected` stands for the exception a decoding constructor throws on a foreign magic. */
  datatype Decoded<T> = Rejected(magic: nat) | Accepted(value: T)

  predicate IsIo(c: Command) { c.ReadBlock? || c.WriteBlock? || c.EraseBlock? }

  function MagicOf(c: Command): nat
    requires IsIo(c)
  {
    match c
    case ReadBlock => READ_BLOCK_MAGIC
    case WriteBlock => WRITE_BLOCK_MAGIC
    case _ => ERASE_BLOCK_MAGIC
  }

  function IoWords(r: IoRequest): (ws: seq<nat>)
    requires IsIo(r.command)
    ensures |ws| == 6
  {
    [MagicOf(r.command), r.blockIndex, Lo(r.count), Hi(r.count), Lo(r.offset), Hi(r.offset)]
  }

  function AllocWords(r: AllocRequest): (ws: seq<nat>)
    ensures |ws| == 6
  {
    [REQUEST_MAGIC, r.channels, r.blocks, r.shared, r.numaId, r.remote]
  }

  function DecodeIo(s: seq<Byte>): Decoded<IoRequest>
    requires |s| >= FRAME_SIZE
  {
    var magic := Get4(s, 0);
    if magic != READ_BLOCK_MAGIC && magic != WRITE_BLOCK_MAGIC && magic != ERASE_BLOCK_MAGIC then Rejected(magic)
    else
      var command := if magic == READ_BLOCK_MAGIC then ReadBlock
                     else if magic == WRITE_BLOCK_MAGIC then WriteBlock
                     else EraseBlock;
      Accepted(IoRequest(command, Get4(s, 4), Get8(s, 8), Get8(s, 16)))
  }

  function DecodeAlloc(s: seq<Byte>): Decoded<AllocRequest>
    requires |s| >= FRAME_SIZE
  {
    var magic := Get4(s, 0);
    if magic != REQUEST_MAGIC then Rejected(magic)
    else Accepted(AllocRequest(Get4(s, 4), Get4(s, 8), Get4(s, 12), Get4(s, 16), Get4(s, 20)))
  }

  /** Writes a frame and returns its length; for any other command nothing is written. */
  method SerializeIo(r: IoRequest, buf: array<Byte>) returns (len: nat)
    requires buf.Length >= FRAME_SIZE
    modifies buf
    ensures IsIo(r.command) ==> len == FRAME_SIZE && buf[..] == Overwrite(old(buf[..]), 0, EncWords(IoWords(r)))
    ensures !IsIo(r.command) ==> len == 0 && buf[..] == old(buf[..])
  {
    hide EncWords, Overwrite, Lo, Hi;
    ghost var was, ws := buf[..], [];
    NoWords(was, 0);
    match r.command {
      case ReadBlock => len, ws := PutWord(buf, 0, READ_BLOCK_MAGIC, was, 0, []);
      case WriteBlock => len, ws := PutWord(buf, 0, WRITE_BLOCK_MAGIC, was, 0, []);
      case EraseBlock => len, ws := PutWord(buf, 0, ERASE_BLOCK_MAGIC, was, 0, []);
      case _ => return 0;
    }
    len, ws := PutWord(buf, len, r.blockIndex, was, 0, ws);
    len, ws := PutLong(buf, len, r.count, was, 0, ws);
    len, ws := PutLong(buf, len, r.offset, was, 0, ws);
    assert ws == IoWords(r);
  }

  method SerializeAlloc(r: AllocRequest, buf: array<Byte>) returns (len: nat)
    requires buf.Length >= FRAME_SIZE
    modifies buf
    ensures len == FRAME_SIZE && buf[..] == Overwrite(old(buf[..]), 0, EncWords(AllocWords(r)))
  {
    hide EncWords, Overwrite;
    ghost var was, ws := buf[..], [];
    NoWords(was, 0);
    len, ws := PutWord(buf, 0, REQUEST_MAGIC, was, 0, []);
    len, ws := PutWord(buf, len, r.channels, was, 0, ws);
    len, ws := PutWord(buf, len, r.blocks, was, 0, ws);
    len, ws := PutWord(buf, len, r.shared, was, 0, ws);
    len, ws := PutWord(buf, len, r.numaId, was, 0, ws);
    len, ws := PutWord(buf, len, r.remote, was, 0, ws);
    assert ws == AllocWords(r);
  }

  /** Every read, write or erase request decodes from its frame to the same fields. */
  lemma IoRoundTrip(r: IoRequest, trailing: seq<Byte>)
    requires IsIo(r.command)
    ensures |EncWords(IoWords(r))| == FRAME_SIZE
    ensures DecodeIo(EncWords(IoWords(r)) + trailing) == Accepted(r)
  {
    hide EncWords, Get4, Lo, Hi;
    var s, ws := EncWords(IoWords(r)) + trailing, IoWords(r);
    assert At(s, 0, EncWords(ws));
    WordAt(s, 0, ws, 0);
    WordAt(s, 0, ws, 1);
    LongAt(s, 0, ws, 1, r.count);
    LongAt(s, 0, ws, 2, r.offset);
  }

  lemma AllocRoundTrip(r: AllocRequest, trailing: seq<Byte>)
    ensures |EncWords(AllocWords(r))| == FRAME_SIZE
    ensures DecodeAlloc(EncWords(AllocWords(r)) + trailing) == Accepted(r)
  {
    hide EncWords, Get4;
    var s, ws := EncWords(AllocWords(r)) + trailing, AllocWords(r);
    assert At(s, 0, EncWords(ws));
    WordAt(s, 0, ws, 0);
    WordAt(s, 0, ws, 1);
    WordAt(s, 0, ws, 2);
    WordAt(s, 0, ws, 3);
    WordAt(s, 0, ws, 4);
    WordAt(s, 0, ws, 5);
  }

  /** An accepted frame is the encoding of what it decodes to. */
  lemma IoFrameOf(s: seq<Byte>)
    requires |s| >= FRAME_SIZE && DecodeIo(s).Accepted?
    ensures IsIo(DecodeIo(s).value.command) && EncWords(IoWords(DecodeIo(s).value)) == s[..FRAME_SIZE]
  {
    hide EncWords, Get4, Get8, Lo, Hi;
    WordsBack(s, 6);
    LongHalves(s, 8);
    LongHalves(s, 16);
    assert Words(s, 6) == IoWords(DecodeIo(s).value);
  }

  lemma AllocFrameOf(s: seq<Byte>)
    requires |s| >= FRAME_SIZE && DecodeAlloc(s).Accepted?
    ensures EncWords(AllocWords(DecodeAlloc(s).value)) == s[..FRAME_SIZE]
  {
    hide EncWords, Get4;
    WordsBack(s, 6);
    assert Words(s, 6) == AllocWords(DecodeAlloc(s).value);
  }

  /** The frame of a read, write or erase request, field by field. */
  lemma IoFrameLayout(r: IoRequest)
    requires IsIo(r.command)
    ensures var s := EncWords(IoWords(r));
            && |s| == 24
            && Get4(s, 0) == (match r.command case ReadBlock => 0x6401 case WriteBlock => 0x6402 case _ => 0x6403)
            && Get4(s, 4) == r.blockIndex && Get8(s, 8) == r.count && Get8(s, 16) == r.offset
  {
    hide EncWords, Get4, Lo, Hi;
    var s, ws := EncWords(IoWords(r)), IoWords(r);
    assert At(s, 0, s);
    WordAt(s, 0, ws, 0);
    WordAt(s, 0, ws, 1);
    LongAt(s, 0, ws, 1, r.count);
    LongAt(s, 0, ws, 2, r.offset);
  }

  /** The frame of an allocation request, field by field. */
  lemma AllocFrameLayout(r: AllocRequest)
    ensures var s := EncWords(AllocWords(r));
            && |s| == 24 && Get4(s, 0) == 0x6501 && Get4(s, 4) == r.channels && Get4(s, 8) == r.blocks
            && Get4(s, 12) == r.shared && Get4(s, 16) == r.numaId && Get4(s, 20) == r.remote
  {
    hide EncWords, Get4;
    var s, ws := EncWords(AllocWords(r)), AllocWords(r);
    assert At(s, 0, s);
    WordAt(s, 0, ws, 0);
    WordAt(s, 0, ws, 1);
    WordAt(s, 0, ws, 2);
    WordAt(s, 0, ws, 3);
    WordAt(s, 0, ws, 4);
    WordAt(s, 0, ws, 5);
  }

  // ---------------------------------------------------------------- dispatch

  datatype Handler = AllocHandler | ReadHandler | WriteHandler | EraseHandler | NoHandler

  /** The handler the header word selects. */
  function Dispatch(header: nat): Handler {
    if header == REQUEST_MAGIC then AllocHandler
    else if header == READ_BLOCK_MAGIC then ReadHandler
    else if header == WRITE_BLOCK_MAGIC then WriteHandler
    else if header == ERASE_BLOCK_MAGIC then EraseHandler
    else NoHandler
  }

  function HandlerOf(c: Command): Handler {
    match c
    case NoRequest => NoHandler
    case AllocVssd => AllocHandler
    case ReadBlock => ReadHandler
    case WriteBlock => WriteHandler
    case EraseBlock => EraseHandler
  }

  /** The handler selected for any frame decodes it without rejecting, and no other decoder
      would accept it. */
  lemma DispatchAccepts(s: seq<Byte>)
    requires |s| >= FRAME_SIZE
    ensures DecodeAlloc(s).Accepted? <==> Dispatch(Get4(s, 0)) == AllocHandler
    ensures DecodeIo(s).Accepted? <==> Dispatch(Get4(s, 0)) in {ReadHandler, WriteHandler, EraseHandler}
    ensures DecodeIo(s).Accepted? ==> HandlerOf(DecodeIo(s).value.command) == Dispatch(Get4(s, 0))
  {
  }

  /** A request reaches the handler of its own command with its own fields. */
  lemma RequestReachesHandler(r: IoRequest, a: AllocRequest, trailing: seq<Byte>)
    requires IsIo(r.command)
    ensures Dispatch(Get4(EncWords(IoWords(r)) + trailing, 0)) == HandlerOf(r.command)
    ensures Dispatch(Get4(EncWords(AllocWords(a)) + trailing, 0)) == AllocHandler
  {
    IoRoundTrip(r, trailing);
    AllocRoundTrip(a, trailing);
    DispatchAccepts(EncWords(IoWords(r)) + trailing);
    DispatchAccepts(EncWords(AllocWords(a)) + trailing);
  }
}
