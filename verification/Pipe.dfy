/**
 The validation pipe as a byte stream shared by several writers and several readers. A write of at most PIPE_BUF bytes
 is atomic (IEEE Std 1003.1, `write()`); a longer one may be split anywhere and interleaved with other writers' bytes.
 */
module Pipe {
  import opened CStrings
  import opened Records
  import opened Pow

  const PIPE_BUF := 4096

  // ---------------------------------------------------------------- the miner's side

  lemma HeaderParts(b: Block, prefix: seq<Byte>, txs: seq<Byte>)
    ensures prefix + (b.id + b.prev + LE(b.timestamp, 8) + LE(b.nonce, 4)) + txs
            == prefix + b.id + b.prev + LE(b.timestamp, 8) + LE(b.nonce, 4) + txs
  {
  }

  method CopyParts(prefix: seq<Byte>, header: seq<Byte>, txs: seq<Byte>) returns (buffer: array<Byte>)
    ensures fresh(buffer) && buffer[..] == prefix + header + txs
  {
    buffer := new Byte[|prefix| + |header| + |txs|];
    MemCpy(buffer, 0, prefix);
    MemCpy(buffer, |prefix|, header);
    MemCpy(buffer, |prefix| + |header|, txs);
    assert buffer[..] == buffer[..buffer.Length];
  }

  /**
   The frame built in place: size prefix, the packed header (nothing follows the transactions pointer), transactions.
   */
  method BuildFrame(block: TransactionBlock) returns (buffer: array<Byte>)
    requires Shaped(block.View())
    ensures fresh(buffer) && buffer[..] == Frame(block.View()) && buffer.Length == FrameSize(|block.transactions|)
  {
    var totalPayloadSize := SerializedSize(|block.transactions|);
    var header := block.id + block.prev + LE(block.timestamp, 8) + LE(block.nonce, 4);
    buffer := CopyParts(LE(totalPayloadSize, 8), header, EncodeTxs(block.transactions));
    HeaderParts(block.View(), LE(totalPayloadSize, 8), EncodeTxs(block.transactions));
    FrameFields(block.View());
    assert |buffer[..]| == buffer.Length;
  }

  // ---------------------------------------------------------------- the kernel's side

  datatype Event =
    | Write(writer: nat, block: Block)  // a thread calls `write` with a whole frame
    | Transfer(writer: nat, n: nat)     // the kernel moves `n` more bytes of a split write
    | Read(reader: nat)                 // a validator calls `read` with a buffer of one frame's size

  /** Bytes in the pipe, the rest of split writes in progress, and what each read returned, in order. */
  datatype Stream = Stream(bytes: seq<Byte>, pending: map<nat, seq<Byte>>, results: seq<seq<Byte>>)

  const EMPTY := Stream([], map[], [])

  function Min(a: nat, b: nat): (m: nat)
  {
    if a <= b then a else b
  }

  predicate Allowed(txsPerBlock: nat, s: Stream, e: Event)
  {
    match e
    case Write(w, b) => w !in s.pending && InRange(b) && |b.txs| == txsPerBlock
    case Transfer(w, n) => w in s.pending && 0 < n <= |s.pending[w]|
    case Read(_) => s.bytes != []
  }

  function Next(txsPerBlock: nat, s: Stream, e: Event): (r: Stream)
    requires Allowed(txsPerBlock, s, e)
  {
    match e
    case Write(w, b) =>
      if |Frame(b)| <= PIPE_BUF then s.(bytes := s.bytes + Frame(b)) else s.(pending := s.pending[w := Frame(b)])
    case Transfer(w, n) =>
      Stream(s.bytes + s.pending[w][..n],
             if n == |s.pending[w]| then s.pending - {w} else s.pending[w := s.pending[w][n..]],
             s.results)
    case Read(_) =>
      var n := Min(FrameSize(txsPerBlock), |s.bytes|);
      s.(bytes := s.bytes[n..], results := s.results + [s.bytes[..n]])
  }

  /** The pipe after a sequence of events, if they can happen in this order. */
  function Exec(txsPerBlock: nat, events: seq<Event>): (s: Option<Stream>)
  {
    if events == [] then Some(EMPTY)
    else
      match Exec(txsPerBlock, events[..|events| - 1])
      case Some(s) =>
        var e := events[|events| - 1];
        if Allowed(txsPerBlock, s, e) then Some(Next(txsPerBlock, s, e)) else None
      case None => None
  }

  lemma ExecSnoc(txsPerBlock: nat, events: seq<Event>, e: Event)
    requires Exec(txsPerBlock, events).Some? && Allowed(txsPerBlock, Exec(txsPerBlock, events).value, e)
    ensures Exec(txsPerBlock, events + [e]) == Some(Next(txsPerBlock, Exec(txsPerBlock, events).value, e))
  {
    assert (events + [e])[..|events|] == events;
  }

  // ---------------------------------------------------------------- the queue of blocks it stands for

  /** Blocks written and not yet read, and blocks read, in order. */
  datatype Fifo = Fifo(queue: seq<Block>, taken: seq<Block>)

  function FifoNext(q: Fifo, e: Event): (r: Fifo)
  {
    match e
    case Write(_, b) => q.(queue := q.queue + [b])
    case Transfer(_, _) => q
    case Read(_) => if q.queue == [] then q else Fifo(q.queue[1..], q.taken + [q.queue[0]])
  }

  function FifoAfter(events: seq<Event>): (q: Fifo)
  {
    if events == [] then Fifo([], []) else FifoNext(FifoAfter(events[..|events| - 1]), events[|events| - 1])
  }

  function Frames(blocks: seq<Block>): (s: seq<Byte>)
  {
    if blocks == [] then [] else Frame(blocks[0]) + Frames(blocks[1..])
  }

  predicate Sized(txsPerBlock: nat, blocks: seq<Block>)
  {
    forall i :: 0 <= i < |blocks| ==> InRange(blocks[i]) && |blocks[i].txs| == txsPerBlock
  }

  lemma SizedSnoc(txsPerBlock: nat, blocks: seq<Block>, b: Block)
    requires Sized(txsPerBlock, blocks) && InRange(b) && |b.txs| == txsPerBlock
    ensures Sized(txsPerBlock, blocks + [b])
  {
  }

  /** What the reads returned parses as the blocks taken. */
  predicate AllWhole(txsPerBlock: nat, results: seq<seq<Byte>>, taken: seq<Block>)
  {
    |results| == |taken| && forall i :: 0 <= i < |results| ==> ParseFrame(results[i], txsPerBlock) == Parsed(taken[i])
  }

  lemma AllWholeSnoc(txsPerBlock: nat, results: seq<seq<Byte>>, taken: seq<Block>, r: seq<Byte>, b: Block)
    requires AllWhole(txsPerBlock, results, taken) && ParseFrame(r, txsPerBlock) == Parsed(b)
    ensures AllWhole(txsPerBlock, results + [r], taken + [b])
  {
  }

  /** The stream holds whole frames of the queue, and every read so far was one frame of what the queue gave out. */
  predicate Refines(txsPerBlock: nat, s: Stream, q: Fifo)
  {
    && s.pending == map[] && Sized(txsPerBlock, q.queue) && s.bytes == Frames(q.queue)
    && AllWhole(txsPerBlock, s.results, q.taken)
  }

  lemma {:induction false} FramesSnoc(blocks: seq<Block>, b: Block)
    ensures Frames(blocks + [b]) == Frames(blocks) + Frame(b)
  {
    if blocks == [] {
      assert [b][1..] == [] && Frames([b]) == Frame(b) + Frames([]);
    } else {
      assert (blocks + [b])[1..] == blocks[1..] + [b];
      FramesSnoc(blocks[1..], b);
    }
  }

  lemma HeadFrame(txsPerBlock: nat, blocks: seq<Block>)
    requires Sized(txsPerBlock, blocks) && txsPerBlock <= INT_MAX
    ensures blocks == [] <==> Frames(blocks) == []
    ensures blocks != [] ==>
      && |Frames(blocks)| >= FrameSize(txsPerBlock)
      && ParseFrame(Frames(blocks)[..FrameSize(txsPerBlock)], txsPerBlock) == Parsed(blocks[0])
      && Frames(blocks)[FrameSize(txsPerBlock)..] == Frames(blocks[1..])
  {
    if blocks != [] {
      FrameRoundTrip(blocks[0]);
      assert Frames(blocks)[..FrameSize(txsPerBlock)] == Frame(blocks[0]);
    }
  }

  lemma WriteIsWhole(txsPerBlock: nat, s: Stream, w: nat, b: Block)
    requires FrameSize(txsPerBlock) <= PIPE_BUF && Allowed(txsPerBlock, s, Write(w, b))
    ensures Next(txsPerBlock, s, Write(w, b)) == s.(bytes := s.bytes + Frame(b))
  {
    FrameRoundTrip(b);
  }

  lemma WriteRefines(txsPerBlock: nat, s: Stream, q: Fifo, w: nat, b: Block)
    requires FrameSize(txsPerBlock) <= PIPE_BUF && Refines(txsPerBlock, s, q) && Allowed(txsPerBlock, s, Write(w, b))
    ensures Refines(txsPerBlock, Next(txsPerBlock, s, Write(w, b)), FifoNext(q, Write(w, b)))
  {
    WriteIsWhole(txsPerBlock, s, w, b);
    FramesSnoc(q.queue, b);
    SizedSnoc(txsPerBlock, q.queue, b);
  }

  lemma ReadRefines(txsPerBlock: nat, s: Stream, q: Fifo, r: nat)
    requires FrameSize(txsPerBlock) <= PIPE_BUF && Refines(txsPerBlock, s, q) && Allowed(txsPerBlock, s, Read(r))
    ensures Refines(txsPerBlock, Next(txsPerBlock, s, Read(r)), FifoNext(q, Read(r)))
  {
    HeadFrame(txsPerBlock, q.queue);
    AllWholeSnoc(txsPerBlock, s.results, q.taken, s.bytes[..FrameSize(txsPerBlock)], q.queue[0]);
  }

  /** Under any interleaving of writers and readers the byte stream is a first-in first-out queue of blocks. */
  lemma {:induction false} StreamIsFifo(txsPerBlock: nat, events: seq<Event>)
    requires FrameSize(txsPerBlock) <= PIPE_BUF && Exec(txsPerBlock, events).Some?
    ensures Refines(txsPerBlock, Exec(txsPerBlock, events).value, FifoAfter(events))
  {
    if events != [] {
      var before, e := events[..|events| - 1], events[|events| - 1];
      StreamIsFifo(txsPerBlock, before);
      var s, q := Exec(txsPerBlock, before).value, FifoAfter(before);
      match e
      case Write(w, b) => WriteRefines(txsPerBlock, s, q, w, b);
      case Transfer(_, _) => assert false;
      case Read(r) => ReadRefines(txsPerBlock, s, q, r);
    }
  }

  // ---------------------------------------------------------------- exactly when

  /** Every read of every possible run is one whole frame of the block whose turn it is. */
  ghost predicate FramesStayWhole(txsPerBlock: nat)
  {
    forall events :: Exec(txsPerBlock, events).Some? ==>
      AllWhole(txsPerBlock, Exec(txsPerBlock, events).value.results, FifoAfter(events).taken)
  }

  lemma {:induction false} LEPrefix(n: int, k: nat, j: nat)
    requires j <= k
    ensures LE(n, k)[..j] == LE(n, j)
    decreases k
  {
    if j > 0 {
      LEPrefix(n / 256, k - 1, j - 1);
      assert LE(n, k)[..j] == [n % 256] + LE(n / 256, k - 1)[..j - 1];
    }
  }

  lemma ShiftedPrefix(f: seq<Byte>, p: nat)
    requires |f| > 8 && f[..8] == LE(p, 8) && p < 0x100_0000_0000_0000
    ensures FromLE((f[..1] + f[..|f| - 1])[..8]) == f[0] + 256 * p
  {
    LEPrefix(p, 8, 7);
    assert f[..7] == f[..8][..7];
    assert (f[..1] + f[..|f| - 1])[..8] == [f[0]] + LE(p, 7);
    WidthValues();
    assert Pow256(7) == 0x100_0000 * Pow256(4);
    FromLEOfLE(p, 7);
    assert ([f[0]] + LE(p, 7))[1..] == LE(p, 7);
  }

  /** One stray byte in front of a frame: the eight bytes taken for its size no longer give its size. */
  lemma ShiftedSize(b: Block)
    requires InRange(b) && |b.txs| <= INT_MAX
    ensures var f := Frame(b); |f| == FrameSize(|b.txs|) && ParseFrame(f[..1] + f[..|f| - 1], |b.txs|) == SizeMismatch
  {
    var f, p := Frame(b), SerializedSize(|b.txs|);
    FrameFields(b);
    ShiftedPrefix(f, p);
  }

  /** Two threads write long frames; one byte of the first gets in ahead of all of the second. */
  function SplitEvents(b: Block): (events: seq<Event>)
  {
    [Write(0, b)] + [Write(1, b)] + [Transfer(0, 1)] + [Transfer(1, |Frame(b)|)]
  }

  lemma StepTo(txsPerBlock: nat, events: seq<Event>, s: Stream, e: Event, r: Stream)
    requires Exec(txsPerBlock, events) == Some(s) && Allowed(txsPerBlock, s, e) && Next(txsPerBlock, s, e) == r
    ensures Exec(txsPerBlock, events + [e]) == Some(r)
  {
    ExecSnoc(txsPerBlock, events, e);
  }

  lemma LongWrite(txsPerBlock: nat, events: seq<Event>, s: Stream, w: nat, b: Block)
    requires Exec(txsPerBlock, events) == Some(s) && Allowed(txsPerBlock, s, Write(w, b)) && |Frame(b)| > PIPE_BUF
    ensures Exec(txsPerBlock, events + [Write(w, b)]) == Some(s.(pending := s.pending[w := Frame(b)]))
  {
    ExecSnoc(txsPerBlock, events, Write(w, b));
  }

  lemma FirstStarted(txsPerBlock: nat, b: Block)
    requires Allowed(txsPerBlock, EMPTY, Write(0, b)) && |Frame(b)| > PIPE_BUF
    ensures Exec(txsPerBlock, [Write(0, b)]) == Some(Stream([], map[][0 := Frame(b)], []))
  {
    LongWrite(txsPerBlock, [], EMPTY, 0, b);
    assert [] + [Write(0, b)] == [Write(0, b)];
  }

  lemma BothStarted(txsPerBlock: nat, b: Block)
    requires InRange(b) && |b.txs| == txsPerBlock && |Frame(b)| > PIPE_BUF
    ensures Exec(txsPerBlock, [Write(0, b)] + [Write(1, b)])
        == Some(Stream([], map[][0 := Frame(b)][1 := Frame(b)], []))
  {
    FirstStarted(txsPerBlock, b);
    LongWrite(txsPerBlock, [Write(0, b)], Stream([], map[][0 := Frame(b)], []), 1, b);
  }

  lemma SplitRun(txsPerBlock: nat, b: Block)
    requires InRange(b) && |b.txs| == txsPerBlock && |Frame(b)| > PIPE_BUF
    ensures Exec(txsPerBlock, SplitEvents(b)) == Some(Stream(Frame(b)[..1] + Frame(b), map[0 := Frame(b)[1..]], []))
  {
    var f, started := Frame(b), [Write(0, b)] + [Write(1, b)];
    var s2, s3 := Stream([], map[0 := f, 1 := f], []), Stream(f[..1], map[0 := f[1..], 1 := f], []);
    BothStarted(txsPerBlock, b);
    assert map[][0 := f][1 := f] == s2.pending;
    assert [] + f[..1] == f[..1] && s2.pending[0 := f[1..]] == s3.pending;
    StepTo(txsPerBlock, started, s2, Transfer(0, 1), s3);
    assert f[..|f|] == f && s3.pending - {1} == map[0 := f[1..]];
    StepTo(txsPerBlock, started + [Transfer(0, 1)], s3, Transfer(1, |f|), Stream(f[..1] + f, map[0 := f[1..]], []));
  }

  lemma SplitWriteBreaksFrames(txsPerBlock: nat)
    requires PIPE_BUF < FrameSize(txsPerBlock) && txsPerBlock <= INT_MAX
    ensures !FramesStayWhole(txsPerBlock)
  {
    var b := ZeroBlock(txsPerBlock);
    var f, events := Frame(b), SplitEvents(b);
    ShiftedSize(b);
    SplitRun(txsPerBlock, b);
    var bytes := Exec(txsPerBlock, events).value.bytes;
    ExecSnoc(txsPerBlock, events, Read(0));
    var results := Exec(txsPerBlock, events + [Read(0)]).value.results;
    assert results == [bytes[..|f|]] && bytes[..|f|] == f[..1] + f[..|f| - 1];
    assert ParseFrame(results[0], txsPerBlock) == SizeMismatch;
    assert !AllWhole(txsPerBlock, results, FifoAfter(events + [Read(0)]).taken);
  }

  /** Frames stay whole in every interleaving exactly up to 49 transactions per block. */
  lemma FramesStayWholeExactly(txsPerBlock: nat)
    requires txsPerBlock <= INT_MAX
    ensures FramesStayWhole(txsPerBlock) <==> txsPerBlock <= 49
  {
    if txsPerBlock <= 49 {
      forall events | Exec(txsPerBlock, events).Some?
        ensures AllWhole(txsPerBlock, Exec(txsPerBlock, events).value.results, FifoAfter(events).taken)
      {
        StreamIsFifo(txsPerBlock, events);
      }
    } else {
      SplitWriteBreaksFrames(txsPerBlock);
    }
  }
}
