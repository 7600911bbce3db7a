/**
 The ledger in shared memory: genesis, the tip a miner reads, the validator's tip comparison and the append,
 each under `sem_ledger`. Stored blocks are written field by field with `strcpy` over zeroed memory.
 */
module Ledger {
  import opened CStrings
  import opened Records
  import opened Pow

  datatype LedgerState = LedgerState(lastIndex: nat, lastHash: seq<Byte>, count: nat, blocks: seq<Block>)

  /** The segment after `memset`. */
  function EmptyLedger(numBlocks: nat, txsPerBlock: nat): (l: LedgerState)
  {
    LedgerState(0, Zeros(HASH_SIZE), 0, seq(numBlocks, _ => ZeroBlock(txsPerBlock)))
  }

  /**
   What every block that reaches a validator looks like: canonical buffers and the configured number of transactions.
   */
  predicate WellFormed(b: Block, txsPerBlock: nat)
  {
    && |b.id| == TXB_ID_LEN && Canonical(b.id) && |b.prev| == HASH_SIZE && Canonical(b.prev) && |b.txs| == txsPerBlock
    && forall i :: 0 <= i < |b.txs| ==> |b.txs[i].id| == TX_ID_LEN && Canonical(b.txs[i].id)
  }

  lemma ZeroBlockWellFormed(txsPerBlock: nat)
    ensures WellFormed(ZeroBlock(txsPerBlock), txsPerBlock)
  {
    CStrOfZeros(TXB_ID_LEN);
    CStrOfZeros(HASH_SIZE);
  }

  // ---------------------------------------------------------------- operations

  /** `strncmp(previous_block_hash, last_block_hash, HASH_SIZE) == 0` */
  predicate TipMatches(prev: seq<Byte>, lastHash: seq<Byte>)
  {
    CStr(prev) == CStr(lastHash)
  }

  /** The miner's section: the tip, or nothing when the ledger is full. */
  function TipFor(l: LedgerState): (tip: Option<seq<Byte>>)
  {
    if l.count < |l.blocks| then Some(StrNCpy(l.lastHash, HASH_SIZE)) else None
  }

  /** The genesis block: all zero but for its nonce. */
  function GenesisBlock(txsPerBlock: nat, nonce: nat): (b: Block)
  {
    ZeroBlock(txsPerBlock).(nonce := nonce)
  }

  function WithGenesis(l: LedgerState, g: Block, hash: seq<Byte>): (r: LedgerState)
    requires |l.blocks| > 0 && |CStr(g.id)| < |l.blocks[0].id| && |CStr(hash)| < |l.lastHash|
  {
    var slot := l.blocks[0];
    LedgerState(l.lastIndex, StrCpy(l.lastHash, hash), 1,
                l.blocks[0 := slot.(id := StrCpy(slot.id, g.id), timestamp := g.timestamp, nonce := g.nonce)])
  }

  /** Every string of `b` is terminated before the end of the field of `slot` it goes to. */
  predicate Fits(slot: Block, b: Block)
  {
    && |CStr(b.id)| < |slot.id| && |CStr(b.prev)| < |slot.prev| && |b.txs| == |slot.txs|
    && forall i :: 0 <= i < |b.txs| ==> |CStr(b.txs[i].id)| < |slot.txs[i].id|
  }

  function StoreTx(slot: Tx, t: Tx): (r: Tx)
    requires |CStr(t.id)| < |slot.id|
  {
    Tx(StrCpy(slot.id, t.id), t.reward, t.value, t.timestamp)
  }

  function StoreBlock(slot: Block, b: Block): (r: Block)
    requires Fits(slot, b)
  {
    Block(StrCpy(slot.id, b.id), StrCpy(slot.prev, b.prev), b.timestamp, b.nonce,
          seq(|b.txs|, i requires 0 <= i < |b.txs| => StoreTx(slot.txs[i], b.txs[i])))
  }

  function Append(l: LedgerState, b: Block, hash: seq<Byte>): (r: LedgerState)
    requires l.lastIndex + 1 < |l.blocks| && Fits(l.blocks[l.lastIndex + 1], b) && |CStr(hash)| < |l.lastHash|
  {
    var next := l.lastIndex + 1;
    LedgerState(next, StrCpy(l.lastHash, hash), l.count + 1, l.blocks[next := StoreBlock(l.blocks[next], b)])
  }

  // ---------------------------------------------------------------- the chain

  /** What holds of the ledger whenever its lock is free. */
  ghost predicate ChainOk(p: PowInterface, txsPerBlock: nat, l: LedgerState)
  {
    if l.count == 0 then l == EmptyLedger(|l.blocks|, txsPerBlock)
    else
      && l.count == l.lastIndex + 1 && l.count <= |l.blocks|
      && l.blocks[0].prev == Zeros(HASH_SIZE)
      && p.mine(ZeroBlock(txsPerBlock)).Some?
          && l.blocks[0] == GenesisBlock(txsPerBlock, p.mine(ZeroBlock(txsPerBlock)).value)
      && (forall i :: 1 <= i < l.count ==> l.blocks[i].prev == p.hash(l.blocks[i - 1]))
      && l.lastHash == p.hash(l.blocks[l.count - 1])
      && forall i :: l.count <= i < |l.blocks| ==> l.blocks[i] == ZeroBlock(txsPerBlock)
  }

  /** Blocks of this ledger with equal hashes agree on the previous hash they were built on. */
  ghost predicate NoCollision(p: PowInterface, l: LedgerState)
  {
    forall i, j :: 0 <= i < j < l.count <= |l.blocks| && p.hash(l.blocks[i]) == p.hash(l.blocks[j]) ==>
      l.blocks[i].prev == l.blocks[j].prev
  }

  /** SHA-256 has not collided on the serialised blocks of this ledger. */
  ghost predicate ShaCollisionFree(sha: Sha, l: LedgerState)
  {
    forall i, j :: 0 <= i < j < l.count <= |l.blocks| && sha(Serialize(l.blocks[i])) == sha(Serialize(l.blocks[j])) ==>
      Serialize(l.blocks[i]) == Serialize(l.blocks[j])
  }

  lemma CollisionFreeSuffices(sha: Sha, l: LedgerState)
    requires ShaCollisionFree(sha, l)
    requires forall i :: 0 <= i < l.count <= |l.blocks| ==> Shaped(l.blocks[i])
    ensures NoCollision(PowOf(sha), l)
  {
    var p := PowOf(sha);
    forall i, j | 0 <= i < j < l.count <= |l.blocks| && p.hash(l.blocks[i]) == p.hash(l.blocks[j])
      ensures l.blocks[i].prev == l.blocks[j].prev
    {
      HashEqualIsShaEqual(sha, l.blocks[i], l.blocks[j]);
      SerializeFields(l.blocks[i]);
      SerializeFields(l.blocks[j]);
    }
  }

  lemma CanonicalSame(a: seq<Byte>, b: seq<Byte>)
    requires |a| == |b| && Canonical(a) && Canonical(b) && CStr(a) == CStr(b)
    ensures a == b
  {
  }

  /**
   Copying a well-formed block into zeroed memory stores exactly that block, so hashing what is stored gives the same
   digest.
   */
  lemma StoreIntoZeros(b: Block, txsPerBlock: nat)
    requires WellFormed(b, txsPerBlock)
    ensures Fits(ZeroBlock(txsPerBlock), b) && StoreBlock(ZeroBlock(txsPerBlock), b) == b
  {
    StrCpyIntoZeros(b.id);
    StrCpyIntoZeros(b.prev);
    forall i | 0 <= i < |b.txs| ensures StoreTx(ZERO_TX, b.txs[i]) == b.txs[i] {
      StrCpyIntoZeros(b.txs[i].id);
    }
    assert StoreBlock(ZeroBlock(txsPerBlock), b).txs == b.txs;
  }

  /** The tip buffer is always clean, and empty exactly before genesis; so comparing strings compares buffers. */
  lemma TipMatchesExactly(p: PowInterface, txsPerBlock: nat, l: LedgerState, prev: seq<Byte>)
    requires PowOk(p) && ChainOk(p, txsPerBlock, l) && |prev| == HASH_SIZE && Canonical(prev)
    ensures TipMatches(prev, l.lastHash) <==> prev == l.lastHash
    ensures |l.lastHash| == HASH_SIZE && Canonical(l.lastHash)
    ensures l.lastHash == Zeros(HASH_SIZE) <==> l.count == 0
  {
    CStrOfZeros(HASH_SIZE);
    assert l.count > 0 ==> HashShape(p.hash(l.blocks[l.count - 1]));
    if TipMatches(prev, l.lastHash) {
      CanonicalSame(prev, l.lastHash);
    }
  }

  /** The tip a miner copies as a string is the hash of the last stored block, to the last byte. */
  lemma TipIsLastHash(p: PowInterface, txsPerBlock: nat, l: LedgerState)
    requires PowOk(p) && ChainOk(p, txsPerBlock, l)
    ensures TipFor(l).None? <==> l.count == |l.blocks|
    ensures TipFor(l).Some? ==>
        TipFor(l).value == if l.count == 0 then Zeros(HASH_SIZE) else p.hash(l.blocks[l.count - 1])
  {
    CStrOfZeros(HASH_SIZE);
    assert l.count > 0 ==> HashShape(p.hash(l.blocks[l.count - 1]));
    assert Pad(CStr(l.lastHash), HASH_SIZE) == l.lastHash;
  }

  lemma HashOverwrites(lastHash: seq<Byte>, hash: seq<Byte>)
    requires |lastHash| == HASH_SIZE && HashShape(hash)
    ensures |CStr(hash)| < |lastHash| && StrCpy(lastHash, hash) == hash
  {
  }

  lemma GenesisStored(txsPerBlock: nat, l: LedgerState, g: Block, nonce: nat, hash: seq<Byte>)
    requires l == EmptyLedger(|l.blocks|, txsPerBlock) && |l.blocks| > 0 && g == GenesisBlock(txsPerBlock, nonce)
    requires HashShape(hash)
    ensures |CStr(g.id)| < |l.blocks[0].id| && |CStr(hash)| < |l.lastHash|
    ensures WithGenesis(l, g, hash) == LedgerState(0, hash, 1, l.blocks[0 := g])
  {
    ZeroBlockWellFormed(txsPerBlock);
    StrCpyIntoZeros(g.id);
    HashOverwrites(l.lastHash, hash);
  }

  /** The genesis section stores the mined genesis block whole, the fields it skips being zero already. */
  lemma GenesisKeepsChain(p: PowInterface, txsPerBlock: nat, l: LedgerState, nonce: nat)
    requires PowOk(p) && ChainOk(p, txsPerBlock, l) && l.count == 0 && |l.blocks| > 0
    requires p.mine(ZeroBlock(txsPerBlock)) == Some(nonce)
    ensures var g := GenesisBlock(txsPerBlock, nonce);
            && |CStr(g.id)| < |l.blocks[0].id| && |CStr(p.hash(g))| < |l.lastHash|
            && WithGenesis(l, g, p.hash(g)) == LedgerState(0, p.hash(g), 1, l.blocks[0 := g])
            && ChainOk(p, txsPerBlock, WithGenesis(l, g, p.hash(g)))
  {
    var g := GenesisBlock(txsPerBlock, nonce);
    assert HashShape(p.hash(g));
    GenesisStored(txsPerBlock, l, g, nonce, p.hash(g));
  }

  /** The ledger with one more block, written as a whole. */
  function Extended(p: PowInterface, l: LedgerState, b: Block): (r: LedgerState)
    requires l.count < |l.blocks|
  {
    LedgerState(l.count, p.hash(b), l.count + 1, l.blocks[l.count := b])
  }

  lemma ExtendedKeepsChain(p: PowInterface, txsPerBlock: nat, l: LedgerState, b: Block)
    requires ChainOk(p, txsPerBlock, l) && 0 < l.count < |l.blocks| && b.prev == l.lastHash
    ensures ChainOk(p, txsPerBlock, Extended(p, l, b))
  {
    var r := Extended(p, l, b);
    assert forall i :: 0 <= i < |r.blocks| && i != l.count ==> r.blocks[i] == l.blocks[i];
  }

  /** The field-by-field append stores exactly the streamed block and keeps the chain. */
  lemma AppendKeepsChain(p: PowInterface, txsPerBlock: nat, l: LedgerState, b: Block)
    requires PowOk(p) && ChainOk(p, txsPerBlock, l) && 0 < l.count < |l.blocks|
    requires WellFormed(b, txsPerBlock) && b.prev == l.lastHash
    ensures Fits(l.blocks[l.lastIndex + 1], b) && |CStr(p.hash(b))| < |l.lastHash|
    ensures Append(l, b, p.hash(b)) == Extended(p, l, b)
    ensures ChainOk(p, txsPerBlock, Append(l, b, p.hash(b)))
  {
    StoreIntoZeros(b, txsPerBlock);
    assert HashShape(p.hash(b)) && HashShape(p.hash(l.blocks[l.count - 1]));
    HashOverwrites(l.lastHash, p.hash(b));
    ExtendedKeepsChain(p, txsPerBlock, l, b);
  }

  lemma HashIsNotZeros(p: PowInterface, b: Block)
    requires PowOk(p)
    ensures p.hash(b) != Zeros(HASH_SIZE)
  {
    assert HashShape(p.hash(b));
    CStrOfZeros(HASH_SIZE);
  }

  /**
   No tip hash ever comes back: without collisions the hashes along the chain are pairwise distinct, by descent to
   genesis, whose previous hash is empty.
   */
  lemma {:induction false} TipsDistinct(p: PowInterface, txsPerBlock: nat, l: LedgerState, i: nat, j: nat)
    requires PowOk(p) && ChainOk(p, txsPerBlock, l) && NoCollision(p, l)
    requires i < j < l.count
    ensures p.hash(l.blocks[i]) != p.hash(l.blocks[j])
  {
    if i == 0 {
      HashIsNotZeros(p, l.blocks[j - 1]);
    } else {
      TipsDistinct(p, txsPerBlock, l, i - 1, j - 1);
    }
  }

  /** At most one block is ever appended on a given tip. */
  lemma OneBlockPerTip(p: PowInterface, txsPerBlock: nat, l: LedgerState, i: nat, j: nat)
    requires PowOk(p) && ChainOk(p, txsPerBlock, l) && NoCollision(p, l)
    requires i < j < l.count
    ensures l.blocks[i].prev != l.blocks[j].prev
  {
    if i == 0 {
      HashIsNotZeros(p, l.blocks[j - 1]);
    } else {
      TipsDistinct(p, txsPerBlock, l, i - 1, j - 1);
    }
  }

  // ---------------------------------------------------------------- the shared segment

  class LedgerSegment {
    var lastBlockIndex: nat
    var lastBlockHash: seq<Byte>
    var count: nat
    const blocks: array<Block>

    constructor (numBlocks: nat, txsPerBlock: nat)
      ensures View() == EmptyLedger(numBlocks, txsPerBlock) && fresh(blocks)
    {
      lastBlockIndex, lastBlockHash, count := 0, Zeros(HASH_SIZE), 0;
      blocks := new Block[numBlocks](_ => ZeroBlock(txsPerBlock));
      new;
      assert blocks[..] == EmptyLedger(numBlocks, txsPerBlock).blocks;
    }

    ghost function View(): LedgerState
      reads this, blocks
    {
      LedgerState(lastBlockIndex, lastBlockHash, count, blocks[..])
    }

    /** Validator start-up: the first one in mines and stores the genesis block; false when no nonce is found. */
    method EnsureGenesis(sha: Sha, txsPerBlock: nat) returns (ok: bool)
      requires IsSha(sha) && ChainOk(PowOf(sha), txsPerBlock, View()) && blocks.Length > 0
      modifies this, blocks
      ensures ok ==> ChainOk(PowOf(sha), txsPerBlock, View()) && count > 0
      ensures old(count) > 0 ==> ok && View() == old(View())
      ensures old(count) == 0 ==>
        match FirstNonce(sha, ZeroBlock(txsPerBlock))
        case Some(nonce) =>
          var g := GenesisBlock(txsPerBlock, nonce);
          ok && View() == LedgerState(0, HashBuf(sha, g), 1, old(View()).blocks[0 := g])
        case None => !ok && View() == old(View())
    {
      ghost var before := View();
      if count == 0 {
        ZeroBlockWellFormed(txsPerBlock);
        var nemesis := new TransactionBlock(ZeroBlock(txsPerBlock));
        var r := ProofOfWork(sha, nemesis);
        if r.error {
          return false;
        }
        PowOfIsOk(sha);
        GenesisKeepsChain(PowOf(sha), txsPerBlock, before, nemesis.nonce);
        StoreGenesis(nemesis.View(), r.hash);
      }
      return true;
    }

    method StoreGenesis(g: Block, hash: seq<Byte>)
      requires blocks.Length > 0 && |CStr(g.id)| < |blocks[0].id| && |CStr(hash)| < |lastBlockHash|
      modifies this, blocks
      ensures View() == WithGenesis(old(View()), g, hash)
    {
      ghost var before := View();
      count := 1;
      ghost var id := blocks[0].id;
      blocks[0] := blocks[0].(id := blocks[0].id[0 := 'z' as int]);
      blocks[0] := blocks[0].(id := StrCpy(blocks[0].id, g.id));
      assert blocks[0].id == StrCpy(id, g.id);
      blocks[0] := blocks[0].(timestamp := g.timestamp);
      blocks[0] := blocks[0].(nonce := g.nonce);
      lastBlockHash := StrCpy(lastBlockHash, hash);
      assert blocks[..] == before.blocks[0 := blocks[0]];
    }

    /**
     The miner's critical section: on a sound ledger the buffer of the hash of the last stored block, or of zeros before
     genesis, byte for byte although it is copied as a string; nothing exactly when all blocks are taken.
     */
    method ReadTip(ghost p: PowInterface, ghost txsPerBlock: nat) returns (tip: Option<seq<Byte>>)
      ensures tip == TipFor(View())
      ensures PowOk(p) && ChainOk(p, txsPerBlock, View()) ==>
        && (tip.None? <==> count == blocks.Length)
        && (tip.Some? ==> tip.value == if count == 0 then Zeros(HASH_SIZE) else p.hash(blocks[count - 1]))
    {
      if PowOk(p) && ChainOk(p, txsPerBlock, View()) {
        TipIsLastHash(p, txsPerBlock, View());
      }
      if count < blocks.Length {
        tip := Some(StrNCpy(lastBlockHash, HASH_SIZE));
      } else {
        tip := None;
      }
    }

    /** The validator's second section: compare the tip again and append; `None` when the tip has moved. */
    method CheckAndAppend(sha: Sha, b: Block) returns (index: Option<nat>)
      requires IsSha(sha) && Shaped(b)
      requires TipMatches(b.prev, lastBlockHash) ==>
        lastBlockIndex + 1 < blocks.Length && Fits(blocks[lastBlockIndex + 1], b) && |lastBlockHash| == HASH_SIZE
      modifies this, blocks
      ensures !old(TipMatches(b.prev, lastBlockHash)) ==> index == None && View() == old(View())
      ensures old(TipMatches(b.prev, lastBlockHash)) ==>
        && index == Some(old(lastBlockIndex) + 1) && |CStr(HashBuf(sha, b))| < |old(lastBlockHash)|
        && View() == Append(old(View()), b, HashBuf(sha, b))
    {
      var hash := ComputeSha256(sha, b);
      ghost var before := View();
      if CStr(b.prev) != CStr(lastBlockHash) {
        return None;
      }
      HashBufShape(sha, b);
      HashOverwrites(lastBlockHash, HashBuf(sha, b));
      var nextIndex := lastBlockIndex + 1;
      StoreFields(nextIndex, b);
      lastBlockHash := StrCpy(lastBlockHash, hash[..]);
      count := count + 1;
      lastBlockIndex := lastBlockIndex + 1;
      return Some(nextIndex);
    }

    method StoreFields(next: nat, b: Block)
      requires next < blocks.Length && Fits(blocks[next], b)
      modifies blocks
      ensures blocks[..] == old(blocks[..])[next := StoreBlock(old(blocks[next]), b)]
    {
      ghost var slot, before := blocks[next], blocks[..];
      blocks[next] := blocks[next].(id := StrCpy(blocks[next].id, b.id));
      blocks[next] := blocks[next].(prev := StrCpy(blocks[next].prev, b.prev));
      blocks[next] := blocks[next].(timestamp := b.timestamp);
      blocks[next] := blocks[next].(nonce := b.nonce);
      ghost var header := blocks[next];
      for i := 0 to |b.txs|
        invariant blocks[next] == header.(txs := blocks[next].txs) && |blocks[next].txs| == |b.txs|
        invariant forall k :: 0 <= k < i ==> blocks[next].txs[k] == StoreTx(slot.txs[k], b.txs[k])
        invariant forall k :: i <= k < |b.txs| ==> blocks[next].txs[k] == slot.txs[k]
        invariant blocks[..] == before[next := blocks[next]]
      {
        var t := blocks[next].txs[i];
        t := t.(id := StrCpy(t.id, b.txs[i].id));
        t := t.(reward := b.txs[i].reward);
        t := t.(value := b.txs[i].value);
        t := t.(timestamp := b.txs[i].timestamp);
        blocks[next] := blocks[next].(txs := blocks[next].txs[i := t]);
      }
      assert blocks[next].txs == StoreBlock(slot, b).txs;
    }
  }
}
