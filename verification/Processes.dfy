/**
 The bodies of the processes as they run between other processes' steps, proved against the step functions of the
 protocol: a miner thread's mining loop, a validator's pass over one block, the statistics receive loop.
 */
module Processes {
  import opened CStrings
  import opened Records
  import opened Pow
  import opened Pool
  import opened Ledger
  import opened Protocol
  import opened Pipe
  import opened Sums

  // ---------------------------------------------------------------- miner threads

  /** What mining finds for `b`, by clock reading. */
  function AttemptAt(sha: Sha, b: Block): (attempt: int -> Option<nat>)
  {
    timestamp => FirstNonce(sha, b.(timestamp := timestamp))
  }

  /** One attempt, on what earlier attempts have made of the block `start`. */
  method TryOnce(sha: Sha, block: TransactionBlock, timestamp: int, ghost start: Block) returns (error: bool)
    requires IsSha(sha) && Shaped(start) && block.View() == start.(timestamp := block.timestamp, nonce := block.nonce)
    modifies block`timestamp, block`nonce
    ensures error <==> AttemptAt(sha, start)(timestamp).None?
    ensures block.View() == start.(timestamp := timestamp, nonce := block.nonce)
    ensures !error ==> block.nonce == AttemptAt(sha, start)(timestamp).value
  {
    ghost var left := block.nonce;
    block.timestamp := timestamp;
    assert block.View() == start.(timestamp := timestamp, nonce := left);
    var r := ProofOfWork(sha, block);
    AttemptIgnoresNonce(sha, start, timestamp, left);
    error := r.error;
  }

  lemma AttemptIgnoresNonce(sha: Sha, b: Block, timestamp: int, nonce: int)
    ensures FirstNonce(sha, b.(timestamp := timestamp, nonce := nonce)) == AttemptAt(sha, b)(timestamp)
  {
    NonceDoesNotMatter(sha, b.(timestamp := timestamp), nonce);
  }

  /** The attempts at the first `k` readings fail and the next, at `timestamp`, finds `nonce`. */
  ghost predicate FirstAt(attempt: int -> Option<nat>, clock: seq<int>, k: nat, timestamp: int, nonce: nat)
  {
    && k < |clock| && clock[k] == timestamp && attempt(timestamp) == Some(nonce)
    && forall i :: 0 <= i < k ==> attempt(clock[i]).None?
  }

  /** The first clock reading at which an attempt succeeds, with the nonce it finds. */
  function FirstSuccess(attempt: int -> Option<nat>, clock: seq<int>): (r: Option<(int, nat)>)
    ensures r.None? ==> forall t :: t in clock ==> attempt(t).None?
    ensures r.Some? ==> exists k: nat :: FirstAt(attempt, clock, k, r.value.0, r.value.1)
  {
    if clock == [] then None
    else if attempt(clock[0]).Some? then
      assert FirstAt(attempt, clock, 0, clock[0], attempt(clock[0]).value);
      Some((clock[0], attempt(clock[0]).value))
    else
      assert forall k: nat, t, n :: FirstAt(attempt, clock[1..], k, t, n) ==> FirstAt(attempt, clock, k + 1, t, n);
      FirstSuccess(attempt, clock[1..])
  }

  /**
   The retry loop of a miner thread, on successive clock readings: `stop_threads` is never set, so the loop only ends
   with a block that verifies. False when the readings run out.
   */
  method MineBlock(sha: Sha, block: TransactionBlock, clock: seq<int>) returns (mined: bool)
    requires IsSha(sha) && Shaped(block.View())
    modifies block`timestamp, block`nonce
    ensures FirstSuccess(AttemptAt(sha, old(block.View())), clock)
            == if mined then Some((block.timestamp, block.nonce)) else None
    ensures block.View() == old(block.View()).(timestamp := block.timestamp, nonce := block.nonce)
    ensures mined ==> VerifyNonce(sha, block.View())
  {
    ghost var start, attempt := block.View(), AttemptAt(sha, block.View());
    var i := 0;
    mined := false;
    while i < |clock| && !mined
      invariant 0 <= i <= |clock|
      invariant block.View() == start.(timestamp := block.timestamp, nonce := block.nonce)
      invariant mined ==> attempt(block.timestamp) == Some(block.nonce)
      invariant FirstSuccess(attempt, clock)
                == if mined then Some((block.timestamp, block.nonce)) else FirstSuccess(attempt, clock[i..])
      decreases |clock| - i
    {
      assert clock[i..][1..] == clock[i + 1..];
      var error := TryOnce(sha, block, clock[i], start);
      mined := !error;
      i := i + 1;
    }
    if mined {
      FoundNonceVerifies(sha, start, block.timestamp, block.nonce);
    }
  }

  lemma FoundNonceVerifies(sha: Sha, b: Block, timestamp: int, nonce: nat)
    requires IsSha(sha) && Shaped(b) && AttemptAt(sha, b)(timestamp) == Some(nonce)
    ensures VerifyNonce(sha, b.(timestamp := timestamp, nonce := nonce))
  {
    assert NonceOk(sha, b.(timestamp := timestamp))(nonce);
  }

  /**
   The first half of a miner's round: the early look, the selection, the tip and capacity, the block to mine. Nothing is
   made when there is too little in the pool or no room in the ledger, or when the draws run out.
   */
  method Prepare(pool: TransactionPool, ledger: LedgerSegment, thread: nat, number: nat, txsPerBlock: nat,
                 draws: seq<nat>, ghost p: PowInterface)
    returns (start: Option<Block>)
    requires pool.slots.Length > 0
    ensures start.Some? ==> PreparedFrom(pool.View(), ledger.View(), thread, number, txsPerBlock, start.value)
    ensures start.None? <==>
            || pool.count < txsPerBlock || ledger.count >= ledger.blocks.Length
            || |Usable(pool.slots[..], draws)| < txsPerBlock
    ensures start.Some? ==> start.value.txs == Usable(pool.slots[..], draws)[..txsPerBlock]
  {
    if pool.count < txsPerBlock || ledger.count >= ledger.blocks.Length {
      return None;
    }
    var picked := pool.Select(txsPerBlock, draws);
    if picked.None? {
      return None;
    }
    var tip := ledger.ReadTip(p, txsPerBlock);
    if tip.None? {
      return None;
    }
    SelectionShaped(pool.View(), txsPerBlock, picked.value);
    StrNCpyTwice(ledger.lastBlockHash, HASH_SIZE);
    return Some(Block(BlockIdField(thread, number), StrNCpy(tip.value, HASH_SIZE), 0, 0, picked.value));
  }

  /** The second half: mining, and the frame for the pipe. */
  method MineFrame(sha: Sha, start: Block, clock: seq<int>) returns (made: Option<(Block, seq<Byte>)>)
    requires IsSha(sha) && Shaped(start)
    ensures made.None? <==> forall t :: t in clock ==> AttemptAt(sha, start)(t).None?
    ensures made.Some? ==>
      && FirstSuccess(AttemptAt(sha, start), clock) == Some((made.value.0.timestamp, made.value.0.nonce))
      && made.value.0 == start.(timestamp := made.value.0.timestamp, nonce := made.value.0.nonce)
      && VerifyNonce(sha, made.value.0) && made.value.1 == Frame(made.value.0)
  {
    var block := new TransactionBlock(start);
    var mined := MineBlock(sha, block, clock);
    if !mined {
      return None;
    }
    var buffer := BuildFrame(block);
    return Some((block.View(), buffer[..]));
  }

  /** What a miner thread makes of a pool and a ledger. */
  ghost predicate PreparedFrom(p: PoolState, l: LedgerState, thread: nat, number: nat, txsPerBlock: nat, b: Block)
  {
    && Selection(p, txsPerBlock, b.txs) && TipFor(l) == Some(b.prev) && b.id == BlockIdField(thread, number)
    && Shaped(b)
  }

  lemma SelectionShaped(p: PoolState, txsPerBlock: nat, txs: seq<Tx>)
    requires Selection(p, txsPerBlock, txs)
    ensures forall i :: 0 <= i < |txs| ==> |txs[i].id| == TX_ID_LEN
  {
    forall i | 0 <= i < |txs| ensures |txs[i].id| == TX_ID_LEN {
      assert Selectable(p.slots, txs[i]);
    }
  }

  /** Mining starts over from nonce 0 whatever the last attempt left behind. */
  lemma NonceDoesNotMatter(sha: Sha, b: Block, nonce: int)
    ensures FirstNonce(sha, b.(nonce := nonce)) == FirstNonce(sha, b)
  {
    LeastFromAgrees(NonceOk(sha, b.(nonce := nonce)), NonceOk(sha, b), 0, POW_MAX_OPS);
  }

  lemma {:induction false} LeastFromAgrees(p: nat -> bool, q: nat -> bool, from: nat, max: nat)
    requires forall n :: p(n) == q(n)
    ensures LeastFrom(p, from, max) == LeastFrom(q, from, max)
    decreases max + 1 - from
  {
    if from <= max {
      assert p(from) == q(from);
      LeastFromAgrees(p, q, from + 1, max);
    }
  }

  // ---------------------------------------------------------------- validators

  method EarnedAmount(txs: seq<Tx>) returns (earned: int)
    ensures earned == Sum(Rewards(txs))
  {
    earned := 0;
    for i := 0 to |txs|
      invariant earned == SumRewards(txs[..i])
    {
      assert txs[..i + 1][..i] == txs[..i];
      earned := earned + txs[i].reward;
    }
    assert txs[..|txs|] == txs;
    SumRewardsIsSum(txs);
  }

  /** Nonce, tip and transactions of the block are all good. */
  ghost predicate Approves(sha: Sha, pool: PoolState, tip: seq<Byte>, b: Block)
  {
    VerifyNonce(sha, b) && TipMatches(b.prev, tip) && Accepts(pool.slots, b.txs)
  }

  /** The first two sections: the block is taken into the pool's books exactly when nothing speaks against it. */
  method Check(sha: Sha, pool: TransactionPool, lastBlockHash: seq<Byte>, b: Block) returns (skip: bool)
    requires IsSha(sha) && Shaped(b) && pool.Valid()
    modifies pool, pool.slots
    ensures pool.Valid()
    ensures skip <==> !Approves(sha, old(pool.View()), lastBlockHash, b)
    ensures pool.View() == if skip then old(pool.View()) else Commit(old(pool.View()), b.txs)
  {
    skip := false;
    var nonceOk := Verify(sha, b);
    if !nonceOk {
      skip := true;
    }
    if CStr(b.prev) != CStr(lastBlockHash) {
      skip := true;
    }
    if !skip {
      var accepted := pool.CheckAndCommit(b.txs);
      skip := !accepted;
    }
  }

  /** The third section and the report, for a tip that has not moved. */
  method AppendAndReport(sha: Sha, ledger: LedgerSegment, b: Block, now: int) returns (msg: Message)
    requires IsSha(sha) && Shaped(b) && TipMatches(b.prev, ledger.lastBlockHash)
    requires ledger.lastBlockIndex + 1 < ledger.blocks.Length && Fits(ledger.blocks[ledger.lastBlockIndex + 1], b)
    requires |ledger.lastBlockHash| == HASH_SIZE
    modifies ledger, ledger.blocks
    ensures |CStr(HashBuf(sha, b))| < |old(ledger.lastBlockHash)|
    ensures ledger.View() == Append(old(ledger.View()), b, HashBuf(sha, b))
    ensures msg == ValidMessage(b, old(ledger.lastBlockIndex) + 1, now)
  {
    var index := ledger.CheckAndAppend(sha, b);
    var earned := EarnedAmount(b.txs);
    SumRewardsIsSum(b.txs);
    return Message(MinerField(b.id), index.value, earned, now);
  }

  /**
   One pass of the validator's loop with no other process in between: the block is committed and appended exactly when
   its nonce is valid, its tip current and all its transactions listed; otherwise neither segment changes.
   */
  method Validate(sha: Sha, pool: TransactionPool, ledger: LedgerSegment, b: Block, now: int) returns (msg: Message)
    requires IsSha(sha) && Shaped(b) && pool.Valid()
    requires pool as object != ledger && pool.slots as object != ledger.blocks
    requires TipMatches(b.prev, ledger.lastBlockHash) ==>
      && ledger.lastBlockIndex + 1 < ledger.blocks.Length && Fits(ledger.blocks[ledger.lastBlockIndex + 1], b)
      && |ledger.lastBlockHash| == HASH_SIZE
    modifies pool, pool.slots, ledger, ledger.blocks
    ensures pool.Valid()
    ensures if Approves(sha, old(pool.View()), old(ledger.lastBlockHash), b) then
        && pool.View() == Commit(old(pool.View()), b.txs)
        && |CStr(HashBuf(sha, b))| < |old(ledger.lastBlockHash)|
        && ledger.View() == Append(old(ledger.View()), b, HashBuf(sha, b))
        && msg == ValidMessage(b, old(ledger.lastBlockIndex) + 1, now)
      else
        pool.View() == old(pool.View()) && ledger.View() == old(ledger.View()) && msg == InvalidMessage(b)
  {
    ghost var before := ledger.View();
    var skip := Check(sha, pool, ledger.lastBlockHash, b);
    assert ledger.View() == before;
    if skip {
      return InvalidMessage(b);
    }
    ghost var booked := pool.View();
    msg := AppendAndReport(sha, ledger, b, now);
    assert pool.View() == booked;
  }

  /**
   End to end, when nothing interferes: what a miner makes of a pool and a ledger comes out of the pipe as it was, is
   approved by a validator that looks at the same pool and ledger, and is appended in bounds and whole.
   */
  lemma MinedIsApproved(sha: Sha, p: PoolState, l: LedgerState, thread: nat, number: nat, txsPerBlock: nat, b: Block)
    requires IsSha(sha) && ChainOk(PowOf(sha), txsPerBlock, l) && l.count > 0
    requires forall j :: 0 <= j < |p.slots| && p.slots[j].filled ==> |NameOf(p.slots[j].tx)| < TX_ID_LEN
    requires PreparedFrom(p, l, thread, number, txsPerBlock, b) && VerifyNonce(sha, b)
    requires InRange(b) && thread <= INT_MAX && txsPerBlock <= INT_MAX
    ensures ParseFrame(Frame(b), txsPerBlock) == Parsed(b) && Approves(sha, p, l.lastHash, b)
    ensures Fits(l.blocks[l.lastIndex + 1], b) && |CStr(HashBuf(sha, b))| < |l.lastHash|
    ensures Append(l, b, HashBuf(sha, b)) == Extended(PowOf(sha), l, b)
    ensures ChainOk(PowOf(sha), txsPerBlock, Append(l, b, HashBuf(sha, b)))
  {
    FrameRoundTrip(b);
    forall i | 0 <= i < |b.txs|
      ensures Listed(p.slots, b.txs[i]) && |b.txs[i].id| == TX_ID_LEN && Canonical(b.txs[i].id)
    {
      SelectionIsListed(p.slots, b.txs[i]);
    }
    BlockIdFieldPrefix(thread, number);
    TipIsHash(sha, txsPerBlock, l);
    AppendKeepsChain(PowOf(sha), txsPerBlock, l, b);
  }

  lemma TipIsHash(sha: Sha, txsPerBlock: nat, l: LedgerState)
    requires IsSha(sha) && ChainOk(PowOf(sha), txsPerBlock, l) && 0 < l.count < |l.blocks|
    ensures PowOk(PowOf(sha)) && TipFor(l) == Some(l.lastHash) && |l.lastHash| == HASH_SIZE && Canonical(l.lastHash)
  {
    PowOfIsOk(sha);
    assert HashShape(PowOf(sha).hash(l.blocks[l.count - 1]));
  }

  // ---------------------------------------------------------------- statistics

  class StatisticsProcess {
    const minerValidBlocks: array<int>
    const minerInvalidBlocks: array<int>
    const minerCredits: array<int>
    var totalTxTime: int
    var totalBlocksProcessed: int
    var blocksInChain: int
    var deferred: Option<Message>

    constructor (numMiners: nat)
      ensures fresh(minerValidBlocks) && fresh(minerInvalidBlocks) && fresh(minerCredits) && Separate()
      ensures var zeros := seq(numMiners, _ => 0); View() == Stats(zeros, zeros, zeros, 0, 0, 0, None)
    {
      minerValidBlocks := new int[numMiners](_ => 0);
      minerInvalidBlocks := new int[numMiners](_ => 0);
      minerCredits := new int[numMiners](_ => 0);
      totalTxTime, totalBlocksProcessed, blocksInChain, deferred := 0, 0, 0, None;
      new;
      assert minerValidBlocks[..] == minerInvalidBlocks[..] == minerCredits[..] == seq(numMiners, _ => 0);
    }

    predicate Separate()
    {
      minerValidBlocks != minerInvalidBlocks && minerValidBlocks != minerCredits && minerInvalidBlocks != minerCredits
    }

    ghost function View(): Stats
      reads this, minerValidBlocks, minerInvalidBlocks, minerCredits
    {
      Stats(minerValidBlocks[..], minerInvalidBlocks[..], minerCredits[..],
            totalTxTime, totalBlocksProcessed, blocksInChain, deferred)
    }

    /** Receiving one message: the counters move as the protocol's step does. */
    method Receive(m: Message)
      requires Separate() && 0 <= MinerIndex(m.minerId) < minerValidBlocks.Length
      requires MinerIndex(m.minerId) < minerInvalidBlocks.Length && MinerIndex(m.minerId) < minerCredits.Length
      modifies this, minerValidBlocks, minerInvalidBlocks, minerCredits
      ensures View() == Bump(old(View()), m, MinerIndex(m.minerId))
    {
      var minerId := MinerIndex(m.minerId);
      if m.blockIndex == -1 {
        minerInvalidBlocks[minerId] := minerInvalidBlocks[minerId] + 1;
        totalBlocksProcessed := totalBlocksProcessed + 1;
      } else {
        minerValidBlocks[minerId] := minerValidBlocks[minerId] + 1;
        minerCredits[minerId] := minerCredits[minerId] + m.earned;
        totalBlocksProcessed := totalBlocksProcessed + 1;
        blocksInChain := blocksInChain + 1;
        deferred := Some(m);
      }
    }

    /** The read of the ledger under its lock, for the message received last. */
    method ReadLedger(ledger: LedgerSegment)
      requires deferred.Some? && 0 <= deferred.value.blockIndex < ledger.blocks.Length
      modifies this
      ensures var m := old(deferred).value;
              totalTxTime == old(totalTxTime) + Sum(Delays(ledger.blocks[m.blockIndex].txs, m.timestamp))
      ensures View() == old(View()).(totalTime := totalTxTime, deferred := None)
    {
      var m := deferred.value;
      var txs := ledger.blocks[m.blockIndex].txs;
      for i := 0 to |txs|
        invariant totalTxTime == old(totalTxTime) + Waits(txs[..i], m.timestamp)
        invariant View() == old(View()).(totalTime := totalTxTime)
      {
        assert txs[..i + 1][..i] == txs[..i];
        totalTxTime := totalTxTime + (m.timestamp - txs[i].timestamp);
      }
      assert txs[..|txs|] == txs;
      WaitsIsSum(txs, m.timestamp);
      deferred := None;
    }
  }
}
