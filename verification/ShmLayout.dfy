/**
 The byte layout of the shared segments on the 64-bit ABI: record sizes from their fields, the tiling of the ledger
 segment by block regions, and the loop of `interfaceLedger` that walks it.
 */
module ShmLayout {
  import opened CStrings
  import opened Records

  // ---------------------------------------------------------------- records

  /** A field of a C struct; arrays of `char` have alignment 1. */
  datatype Field = Field(size: nat, align: nat)

  predicate IsAlignment(align: nat) { align == 1 || align == 4 || align == 8 }

  /** The next multiple. */
  function AlignUp(n: nat, align: nat): (r: nat)
    requires IsAlignment(align)
    ensures r >= n && r % align == 0 && r < n + align
  {
    if n % align == 0 then n else n + (align - n % align)
  }

  predicate Sane(fields: seq<Field>) { forall i :: 0 <= i < |fields| ==> IsAlignment(fields[i].align) }

  /** Where the fields end, each placed at the next multiple of its alignment. */
  function EndOf(fields: seq<Field>): (n: nat)
    requires Sane(fields)
  {
    if fields == [] then 0
    else
      var f := fields[|fields| - 1];
      AlignUp(EndOf(fields[..|fields| - 1]), f.align) + f.size
  }

  const CHAR64 := Field(64, 1)
  const CHAR65 := Field(65, 1)
  const WORD := Field(4, 4)
  const LONG := Field(8, 8)

  const LEDGER_HEADER := 88
  const BLOCK_HEADER := 160
  const OFFSET_FIELD := 152
  const NUM_BLOCKS_FIELD := 72
  const BLOCKS_OFFSET_FIELD := 80

  lemma EndOfSnoc(fields: seq<Field>, f: Field)
    requires Sane(fields) && IsAlignment(f.align)
    ensures Sane(fields + [f]) && EndOf(fields + [f]) == AlignUp(EndOf(fields), f.align) + f.size
  {
    assert (fields + [f])[..|fields|] == fields;
  }

  // The sizes and offsets used below, from the declarations of include/Controller.h.

  lemma TransactionSize()
    ensures var fields := [] + [CHAR64] + [WORD] + [WORD] + [LONG]; Sane(fields) && AlignUp(EndOf(fields), 8) == TX_SIZE
  {
    EndOfSnoc([], CHAR64);
    EndOfSnoc([] + [CHAR64], WORD);
    EndOfSnoc([] + [CHAR64] + [WORD], WORD);
    EndOfSnoc([] + [CHAR64] + [WORD] + [WORD], LONG);
  }

  lemma BlockHeaderSize()
    ensures var fields := [] + [CHAR64] + [CHAR65] + [LONG] + [WORD] + [LONG];
            Sane(fields) && EndOf(fields) == OFFSET_FIELD + 8 && AlignUp(EndOf(fields), 8) == BLOCK_HEADER
  {
    EndOfSnoc([], CHAR64);
    EndOfSnoc([] + [CHAR64], CHAR65);
    EndOfSnoc([] + [CHAR64] + [CHAR65], LONG);
    EndOfSnoc([] + [CHAR64] + [CHAR65] + [LONG], WORD);
    EndOfSnoc([] + [CHAR64] + [CHAR65] + [LONG] + [WORD], LONG);
  }

  lemma LedgerHeaderSize()
    ensures var upTo := [] + [WORD] + [CHAR65] + [WORD];
            var fields := upTo + [WORD] + [LONG];
            && Sane(upTo) && EndOf(upTo) == NUM_BLOCKS_FIELD + 4
            && Sane(fields) && EndOf(fields) == BLOCKS_OFFSET_FIELD + 8 && AlignUp(EndOf(fields), 8) == LEDGER_HEADER
  {
    EndOfSnoc([], WORD);
    EndOfSnoc([] + [WORD], CHAR65);
    assert EndOf([] + [WORD] + [CHAR65]) == 69;
    EndOfSnoc([] + [WORD] + [CHAR65], WORD);
    var upTo := [] + [WORD] + [CHAR65] + [WORD];
    assert EndOf(upTo) == 76;
    EndOfSnoc(upTo, WORD);
    EndOfSnoc(upTo + [WORD], LONG);
  }

  // ---------------------------------------------------------------- tiling

  function BlockBytes(txsPerBlock: nat): (n: nat) { BLOCK_HEADER + txsPerBlock * TX_SIZE }

  /** `shm_ledger_size` as `main` computes it. */
  function LedgerBytes(numBlocks: nat, txsPerBlock: nat): (n: nat)
  {
    LEDGER_HEADER + numBlocks * BLOCK_HEADER + numBlocks * txsPerBlock * TX_SIZE
  }

  function BlockOffset(i: nat, txsPerBlock: nat): (at: nat) { LEDGER_HEADER + i * BlockBytes(txsPerBlock) }

  function TxOffset(i: nat, j: nat, txsPerBlock: nat): (at: nat)
  {
    BlockOffset(i, txsPerBlock) + BLOCK_HEADER + j * TX_SIZE
  }

  lemma OffsetStep(i: nat, txsPerBlock: nat)
    ensures BlockOffset(i + 1, txsPerBlock) == BlockOffset(i, txsPerBlock) + BlockBytes(txsPerBlock)
  {
    assert (i + 1) * BlockBytes(txsPerBlock) == i * BlockBytes(txsPerBlock) + BlockBytes(txsPerBlock);
  }

  lemma {:induction false} OffsetsIncrease(i: nat, j: nat, txsPerBlock: nat)
    requires i < j
    ensures BlockOffset(i, txsPerBlock) + BlockBytes(txsPerBlock) <= BlockOffset(j, txsPerBlock)
    decreases j
  {
    OffsetStep(j - 1, txsPerBlock);
    if i < j - 1 {
      OffsetsIncrease(i, j - 1, txsPerBlock);
    }
  }

  lemma OffsetsAligned(i: nat, txsPerBlock: nat)
    ensures BlockOffset(i, txsPerBlock) % 8 == 0
  {
    TimesEight(i, 20 + txsPerBlock * 10);
    assert BlockOffset(i, txsPerBlock) == 8 * (11 + i * (20 + txsPerBlock * 10));
  }

  lemma TimesEight(i: nat, n: nat)
    ensures i * (8 * n) == 8 * (i * n)
  {
  }

  /** The last region ends exactly where the segment does. */
  lemma TilesEndAtSize(numBlocks: nat, txsPerBlock: nat)
    ensures BlockOffset(numBlocks, txsPerBlock) == LedgerBytes(numBlocks, txsPerBlock)
  {
    assert numBlocks * (BLOCK_HEADER + txsPerBlock * TX_SIZE)
        == numBlocks * BLOCK_HEADER + numBlocks * (txsPerBlock * TX_SIZE);
    assert numBlocks * (txsPerBlock * TX_SIZE) == numBlocks * txsPerBlock * TX_SIZE;
  }

  /** The block regions are disjoint and 8-aligned, lie inside the segment, and leave no gap between header and end. */
  lemma LedgerTiling(numBlocks: nat, txsPerBlock: nat, at: nat)
    requires at < LedgerBytes(numBlocks, txsPerBlock)
    ensures at >= LEDGER_HEADER ==>
      exists i :: 0 <= i < numBlocks
          && BlockOffset(i, txsPerBlock) <= at < BlockOffset(i, txsPerBlock) + BlockBytes(txsPerBlock)
    ensures forall i, j :: 0 <= i < j < numBlocks ==>
      BlockOffset(i, txsPerBlock) + BlockBytes(txsPerBlock) <= BlockOffset(j, txsPerBlock)
    ensures forall i :: 0 <= i < numBlocks ==>
      && BlockOffset(i, txsPerBlock) % 8 == 0 && BlockOffset(i, txsPerBlock) >= LEDGER_HEADER
      && BlockOffset(i, txsPerBlock) + BlockBytes(txsPerBlock) <= LedgerBytes(numBlocks, txsPerBlock)
  {
    TilesEndAtSize(numBlocks, txsPerBlock);
    forall i, j | 0 <= i < j < numBlocks
      ensures BlockOffset(i, txsPerBlock) + BlockBytes(txsPerBlock) <= BlockOffset(j, txsPerBlock)
    {
      OffsetsIncrease(i, j, txsPerBlock);
    }
    forall i | 0 <= i < numBlocks
      ensures BlockOffset(i, txsPerBlock) % 8 == 0 && BlockOffset(i, txsPerBlock) >= LEDGER_HEADER
              && BlockOffset(i, txsPerBlock) + BlockBytes(txsPerBlock) <= LedgerBytes(numBlocks, txsPerBlock)
    {
      OffsetsAligned(i, txsPerBlock);
      OffsetsIncrease(i, numBlocks, txsPerBlock);
    }
    if at >= LEDGER_HEADER {
      var i := RegionOf(at, numBlocks, txsPerBlock);
    }
  }

  lemma {:induction false} RegionOf(at: nat, numBlocks: nat, txsPerBlock: nat) returns (i: nat)
    requires LEDGER_HEADER <= at < BlockOffset(numBlocks, txsPerBlock)
    ensures i < numBlocks && BlockOffset(i, txsPerBlock) <= at < BlockOffset(i, txsPerBlock) + BlockBytes(txsPerBlock)
  {
    assert numBlocks > 0 by { assert BlockOffset(0, txsPerBlock) == LEDGER_HEADER; }
    OffsetStep(numBlocks - 1, txsPerBlock);
    if BlockOffset(numBlocks - 1, txsPerBlock) <= at {
      i := numBlocks - 1;
    } else {
      i := RegionOf(at, numBlocks - 1, txsPerBlock);
    }
  }

  /** Every transaction slot lies in its own block's region, 8-aligned. */
  lemma TransactionsInsideBlock(i: nat, j: nat, txsPerBlock: nat)
    requires j < txsPerBlock
    ensures BlockOffset(i, txsPerBlock) + BLOCK_HEADER <= TxOffset(i, j, txsPerBlock)
    ensures TxOffset(i, j, txsPerBlock) + TX_SIZE <= BlockOffset(i, txsPerBlock) + BlockBytes(txsPerBlock)
    ensures TxOffset(i, j, txsPerBlock) % 8 == 0
  {
    OffsetsAligned(i, txsPerBlock);
    SlotInside(BlockOffset(i, txsPerBlock), j, txsPerBlock);
  }

  lemma SlotInside(at: nat, j: nat, txsPerBlock: nat)
    requires j < txsPerBlock && at % 8 == 0
    ensures var slot := at + BLOCK_HEADER + j * TX_SIZE; slot + TX_SIZE <= at + BlockBytes(txsPerBlock) && slot % 8 == 0
  {
    assert BLOCK_HEADER + j * TX_SIZE == 8 * (20 + j * 10);
  }

  // ---------------------------------------------------------------- the interface

  predicate InFieldOf(at: nat, i: nat, txsPerBlock: nat)
  {
    BlockOffset(i, txsPerBlock) + OFFSET_FIELD <= at < BlockOffset(i, txsPerBlock) + BLOCK_HEADER
  }

  ghost predicate InOffsetField(at: nat, numBlocks: nat, txsPerBlock: nat)
  {
    exists i: nat :: i < numBlocks && InFieldOf(at, i, txsPerBlock)
  }

  /** Block `i` has been given its offset. */
  predicate Stamp(mem: seq<Byte>, i: nat, txsPerBlock: nat)
  {
    var at := BlockOffset(i, txsPerBlock) + OFFSET_FIELD;
    at + 8 <= |mem| && mem[at..at + 8] == LE(BLOCK_HEADER, 8)
  }

  ghost predicate Stamped(mem: seq<Byte>, numBlocks: nat, txsPerBlock: nat)
  {
    forall i :: 0 <= i < numBlocks ==> Stamp(mem, i, txsPerBlock)
  }

  /** The segment as `main` leaves it for the other processes, or any later state of it. */
  predicate HeaderSet(mem: seq<Byte>, numBlocks: nat, txsPerBlock: nat)
  {
    && |mem| == LedgerBytes(numBlocks, txsPerBlock) && numBlocks < 0x1_0000_0000
    && mem[NUM_BLOCKS_FIELD..NUM_BLOCKS_FIELD + 4] == LE(numBlocks, 4)
    && mem[BLOCKS_OFFSET_FIELD..BLOCKS_OFFSET_FIELD + 8] == LE(LEDGER_HEADER, 8)
  }

  method InterfaceTxBlock(mem: array<Byte>, blockOffset: nat) returns (transactions: nat)
    requires blockOffset + BLOCK_HEADER <= mem.Length
    modifies mem
    ensures mem[blockOffset + OFFSET_FIELD..blockOffset + BLOCK_HEADER] == LE(BLOCK_HEADER, 8)
    ensures forall at :: 0 <= at < mem.Length && !(blockOffset + OFFSET_FIELD <= at < blockOffset + BLOCK_HEADER) ==>
        mem[at] == old(mem[at])
    ensures transactions == blockOffset + BLOCK_HEADER
  {
    ghost var before := mem[..];
    var stamp := LE(BLOCK_HEADER, 8);
    forall i | 0 <= i < 8 {
      mem[blockOffset + OFFSET_FIELD + i] := stamp[i];
    }
    transactions := blockOffset + BLOCK_HEADER;
  }

  /** Nothing but offset fields differs. */
  ghost predicate Untouched(before: seq<Byte>, after: seq<Byte>, numBlocks: nat, txsPerBlock: nat)
  {
    && |before| == |after|
    && forall at :: 0 <= at < |before| && !InOffsetField(at, numBlocks, txsPerBlock) ==> after[at] == before[at]
  }

  lemma RegionFits(i: nat, numBlocks: nat, txsPerBlock: nat)
    requires i < numBlocks
    ensures BlockOffset(i, txsPerBlock) + BLOCK_HEADER <= LedgerBytes(numBlocks, txsPerBlock)
    ensures BlockOffset(i + 1, txsPerBlock) == BlockOffset(i, txsPerBlock) + BLOCK_HEADER + txsPerBlock * TX_SIZE
  {
    OffsetsIncrease(i, numBlocks, txsPerBlock);
    OffsetStep(i, txsPerBlock);
    TilesEndAtSize(numBlocks, txsPerBlock);
  }

  lemma HeaderValues(mem: seq<Byte>, numBlocks: nat, txsPerBlock: nat)
    requires HeaderSet(mem, numBlocks, txsPerBlock)
    ensures FromLE(mem[NUM_BLOCKS_FIELD..NUM_BLOCKS_FIELD + 4]) == numBlocks
    ensures FromLE(mem[BLOCKS_OFFSET_FIELD..BLOCKS_OFFSET_FIELD + 8]) == LEDGER_HEADER == BlockOffset(0, txsPerBlock)
  {
    WidthValues();
    FromLEOfLE(numBlocks, 4);
    FromLEOfLE(LEDGER_HEADER, 8);
  }

  lemma StampFrame(before: seq<Byte>, after: seq<Byte>, i: nat, k: nat, txsPerBlock: nat)
    requires |before| == |after| && k < i && Stamp(before, k, txsPerBlock)
    requires forall at :: 0 <= at < |before| && at < BlockOffset(i, txsPerBlock) ==> after[at] == before[at]
    ensures Stamp(after, k, txsPerBlock)
  {
    OffsetsIncrease(k, i, txsPerBlock);
    var at := BlockOffset(k, txsPerBlock) + OFFSET_FIELD;
    assert after[at..at + 8] == before[at..at + 8];
  }

  /** One more offset field written, in block `i`. */
  lemma StampOneMore(start: seq<Byte>, before: seq<Byte>, after: seq<Byte>, i: nat, numBlocks: nat, txsPerBlock: nat)
    requires Untouched(start, before, numBlocks, txsPerBlock) && Stamped(before, i, txsPerBlock) && i < numBlocks
    requires |before| == |after| && Stamp(after, i, txsPerBlock)
    requires forall at :: 0 <= at < |before| && !InFieldOf(at, i, txsPerBlock) ==> after[at] == before[at]
    ensures Untouched(start, after, numBlocks, txsPerBlock) && Stamped(after, i + 1, txsPerBlock)
  {
    forall k | 0 <= k < i ensures Stamp(after, k, txsPerBlock) {
      StampFrame(before, after, i, k, txsPerBlock);
    }
  }

  /** `interfaceTxBlock` for block `i`, after all blocks before it. */
  method InterfaceNext(mem: array<Byte>, blockOffset: nat, ghost start: seq<Byte>, ghost i: nat, ghost numBlocks: nat,
                       ghost txsPerBlock: nat)
    returns (transactions: nat)
    requires i < numBlocks && blockOffset == BlockOffset(i, txsPerBlock)
    requires mem.Length == LedgerBytes(numBlocks, txsPerBlock)
    requires Stamped(mem[..], i, txsPerBlock) && Untouched(start, mem[..], numBlocks, txsPerBlock)
    modifies mem
    ensures Stamped(mem[..], i + 1, txsPerBlock) && Untouched(start, mem[..], numBlocks, txsPerBlock)
    ensures transactions == TxOffset(i, 0, txsPerBlock)
  {
    ghost var before := mem[..];
    RegionFits(i, numBlocks, txsPerBlock);
    transactions := InterfaceTxBlock(mem, blockOffset);
    StampOneMore(start, before, mem[..], i, numBlocks, txsPerBlock);
  }

  /**
   `interfaceLedger`: the accumulated offset is the closed form, every block gets the same offset value, nothing else
   is touched; so running it again over a live ledger changes nothing.
   */
  method InterfaceLedger(mem: array<Byte>, ghost numBlocks: nat, txsPerBlock: nat) returns (blocks: array<nat>)
    requires HeaderSet(mem[..], numBlocks, txsPerBlock)
    modifies mem
    ensures fresh(blocks) && blocks.Length == numBlocks
    ensures forall i :: 0 <= i < numBlocks ==> blocks[i] == BlockOffset(i, txsPerBlock)
    ensures Stamped(mem[..], numBlocks, txsPerBlock)
    ensures Untouched(old(mem[..]), mem[..], numBlocks, txsPerBlock)
    ensures old(Stamped(mem[..], numBlocks, txsPerBlock)) ==> mem[..] == old(mem[..])
  {
    ghost var before := mem[..];
    HeaderValues(before, numBlocks, txsPerBlock);
    assert mem[NUM_BLOCKS_FIELD..NUM_BLOCKS_FIELD + 4] == before[NUM_BLOCKS_FIELD..NUM_BLOCKS_FIELD + 4];
    assert mem[BLOCKS_OFFSET_FIELD..BLOCKS_OFFSET_FIELD + 8] == before[BLOCKS_OFFSET_FIELD..BLOCKS_OFFSET_FIELD + 8];
    var n := FromLE(mem[NUM_BLOCKS_FIELD..NUM_BLOCKS_FIELD + 4]);
    var blocksOffset := FromLE(mem[BLOCKS_OFFSET_FIELD..BLOCKS_OFFSET_FIELD + 8]);
    blocks := new nat[n];
    for i := 0 to n
      invariant blocksOffset == BlockOffset(i, txsPerBlock)
      invariant forall k :: 0 <= k < i ==> blocks[k] == BlockOffset(k, txsPerBlock)
      invariant Stamped(mem[..], i, txsPerBlock) && Untouched(before, mem[..], numBlocks, txsPerBlock)
    {
      RegionFits(i, numBlocks, txsPerBlock);
      var transactions := InterfaceNext(mem, blocksOffset, before, i, numBlocks, txsPerBlock);
      blocks[i] := blocksOffset;
      blocksOffset := blocksOffset + BLOCK_HEADER + txsPerBlock * TX_SIZE;
    }
    if Stamped(before, numBlocks, txsPerBlock) {
      StampedMemoryIsFixed(before, mem[..], numBlocks, txsPerBlock);
    }
  }

  lemma SameField(a: seq<Byte>, b: seq<Byte>, lo: nat, at: nat)
    requires |a| == |b| && lo + 8 <= |a| && a[lo..lo + 8] == b[lo..lo + 8] && lo <= at < lo + 8
    ensures a[at] == b[at]
  {
    assert a[at] == a[lo..lo + 8][at - lo];
  }

  /** Two memories that agree outside the offset fields and are both stamped are the same. */
  lemma StampedMemoryIsFixed(a: seq<Byte>, b: seq<Byte>, numBlocks: nat, txsPerBlock: nat)
    requires Stamped(a, numBlocks, txsPerBlock) && Stamped(b, numBlocks, txsPerBlock)
    requires Untouched(a, b, numBlocks, txsPerBlock)
    ensures a == b
  {
    forall at | 0 <= at < |a| ensures a[at] == b[at] {
      if InOffsetField(at, numBlocks, txsPerBlock) {
        var i: nat :| i < numBlocks && InFieldOf(at, i, txsPerBlock);
        assert Stamp(a, i, txsPerBlock) && Stamp(b, i, txsPerBlock);
        SameField(a, b, BlockOffset(i, txsPerBlock) + OFFSET_FIELD, at);
      }
    }
  }
}
