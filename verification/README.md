# DEIChain: a verified model of the block lifecycle

DEIChain simulates a blockchain with ordinary processes. Generators put transactions into a pool in shared memory; miner
threads copy transactions out of it, mine a block on the current tip of the ledger and write it to a pipe; one to three
validators read the pipe, check the block, take its transactions off the pool and append it to the ledger in shared
memory; a statistics process learns of every block through a message queue. The pool and the ledger have a semaphore
each, nothing else is locked, and a validator looks at the tip twice with its pool section in between. This project
models that lifecycle in Dafny and proves what it keeps.

`dafny verify dfyconfig.toml` checks everything. The largest results are in `Theorems.dfy` and `Fates.dfy`: in
every run of the step system, under every interleaving, with validators joining and being killed anywhere, the ledger
never overflows although no validator ever looks at its capacity, the chain stays linked by the hashes of what is stored
and every block in it carries its proof of work, no transaction is spent twice, every inserted transaction is in exactly
one place or was lost by a step of a known kind, and the statistics add up to the chain. The step system hands whole
blocks from miners to validators; `PipeLink.dfy` connects that to the bytes of the pipe for up to 49 transactions in a
block, and beyond that `Pipe.dfy` shows that frames can be torn.

## Files

| file | contents |
|---|---|
| `Sums.dfy` | sums over sequences |
| `CStrings.dfy` | C buffers: `strcpy`, `strncpy`, `snprintf`, `sscanf`, `atoi`; transaction and block ids; the miner identity round trip |
| `Records.dfy` | the records and their bytes: the hashed serialisation, the pipe frame |
| `Pow.dfy` | `pow.c`: difficulty, serialisation into a buffer, the nonce search; SHA-256 is a parameter |
| `Pool.dfy` | the pool: insertion, selection, check, removal, aging; the class `TransactionPool` over an array of slots |
| `Ledger.dfy` | the ledger: genesis, tip, append; the class `LedgerSegment` over an array of blocks |
| `Protocol.dfy` | the step system: states, steps, runs |
| `ChainInvariant.dfy`, `TxInvariant.dfy`, `AccountInvariant.dfy` | the three inductive invariants, step by step |
| `Theorems.dfy` | what holds of every run |
| `Fates.dfy` | what becomes of transactions over a run: exactly which were inserted, removed and lost by which steps, and how they age |
| `Witnesses.dfy` | two concrete runs over pow.c with a digest function written out: the ledger overflows when digests collide, and two validators lose a transaction without any kill |
| `Pipe.dfy` | the pipe as a byte stream with atomic and split writes |
| `PipeLink.dfy` | the protocol's queue of blocks carried by that byte stream |
| `Origins.dfy` | where blocks come from: which selection, tip and mining step made each of them; block and transaction numbers |
| `Messages.dfy` | which steps say what to the statistics process, whose rejections are counted, in what order messages arrive |
| `Progress.dfy` | with the locks free every process that has work can move |
| `WakeUp.dfy` | the generator's round and `sem_minerwork` |
| `ShmLayout.dfy` | offsets in the ledger segment and `interfaceLedger` over raw bytes |
| `Processes.dfy` | a miner's round, a validator's pass over one block, the statistics loop, against the step functions; the way of one block from selection to append |

## How the code is modelled

Each critical section is one step, and each process has a local position between sections (`MinerPc`, `ValidatorPc`).
`Protocol.Do` composes functions on values that follow the source section by section; the classes `TransactionPool`,
`LedgerSegment`, `TransactionBlock`, `Generator`, `Semaphore` and `StatisticsProcess` do the same work in place, with
the source's loops, and are proved equal to those functions.

| step function | section of the source |
|---|---|
| `Protocol.Generate`, `Pool.Insert` | src/txGen.c:242-258 |
| `Pool.Selection`, `Protocol.CanPick` | src/Miner.c:382-419 |
| `Ledger.TipFor`, `Protocol.ReadTip` | src/Miner.c:428-448 |
| `Protocol.Candidate`, `Protocol.Mine` | src/Miner.c:451-505 |
| `Protocol.Start`, `Ledger.WithGenesis` | src/Validator.c:359-393 |
| `Protocol.Check` | src/Validator.c:459-475 |
| `Protocol.CommitBlock`, `Pool.Accepts`, `Pool.Commit` | src/Validator.c:491-572 |
| `Protocol.AppendBlock`, `Ledger.Append` | src/Validator.c:615-653 |
| `Protocol.Report`, `Protocol.InvalidMessage`, `Protocol.ValidMessage` | src/Validator.c:575-609, 657-690 |
| `Protocol.Die`, `ValidatorDiesInPool`, `ValidatorDiesInLedger` | src/Validator.c:229-238, src/Controller.c:689-713 |
| `Protocol.Receive`, `Protocol.ReadBlock` | src/Statistics.c:301-339 |
| `Protocol.Init`, `Protocol.ConfigOk` | src/Controller.c:760-780, 876-912 |

Points where the model follows the code rather than what one might expect of it:

- `selected_bitmap` is allocated and read but never set, so a selection may take one slot twice and a block may hold a
  transaction twice. Nothing here assumes distinctness inside a block.
- The bytes after the terminator of a generated id are whatever was on the stack; only the string matters.
- `stop_threads` in src/Miner.c is never set, so the mining loop ends only with a nonce that verifies.
- A block that fails the second tip check has already lost its transactions from the pool, and no message is sent.
  That no committed transaction is ever lost is therefore false of the code. `Fates.DroppedExactly` says exactly when
  one is: when a validator that holds it finds the tip moved at its second look, or is killed between its pool section
  and the end of its append. It takes a second validator or a kill: one validator that is not killed loses nothing
  (`Fates.SoleValidatorDropsNothing`), two may without any kill (`Witnesses.TwoValidatorsDrop`).
- The reward of a pool entry is raised in the first round of aging after its insertion, so a selection made before
  that round fails the field comparison after it (`Pool.SurvivesCommit`, and over whole runs `Fates.SelectionLives`).
- A miner uses up a block number even when the frame cannot be allocated or written afterwards.
- A miner may read the tip before genesis is there; its block is never accepted (`Theorems.EmptyTipAlwaysRejected`).
- A validator killed inside a critical section leaves the semaphore taken. The region it guarded is then unspecified
  and the lock never free again; theorems about a region say "whenever its lock is free". The same goes for a generator
  killed inside its section.
- `mq_send` does not block, so a message may be lost.
- An out-of-bounds write, in the ledger or in a counter array, sets `fault`; it is proved never set.

What is assumed, and where:

- No two blocks of one ledger collide under the hash (`CollisionFree`, for SHA-256 `ShaCollisionFree`). It is asked of
  the ledgers of the run at hand only, since no function into 64 hexadecimal characters is injective.
  `Witnesses.CollisionsOverflow` is a run that writes past the ledger when it fails.
- Process ids are not reused between generators (`GeneratorJoins`), and fit an `int`, as do transaction numbers.
- Writes of at most 4096 bytes to a pipe are atomic (IEEE Std 1003.1, `write()`). In the protocol the pipe is a queue
  of blocks. `PipeLink.QueueIsTheStream` carries that queue over the bytes through every run with at most 49 transactions
  per block, and `Pipe.FramesStayWholeExactly` says that this is the limit: the results about runs speak of the program
  up to it.
- Rewards, ages and counters are unbounded integers; widths matter only for the bytes of a block (`InRange`).
- `value` is the bit pattern of the float. It is only copied and compared, and generated values are never NaN.
- Clock readings, process ids, random draws and scheduling are inputs.

## Model

| member | source | states |
|---|---|---|
| `Theorems.StepKeepsInv` | src/Validator.c:359-690 | every one of the 19 steps, from any state of the combined invariant, leads to a state of it, without a fault |
| `Theorems.RunKeepsInv` | src/Validator.c:359-690 | the combined invariant holds in every state of every collision-free run |
| `Theorems.ShaRunIsCollisionFree` | src/PoW/pow.c:76-92 | for the hash that pow.c computes it is enough that SHA-256 does not collide on the serialised blocks of a ledger of the run |
| `Theorems.LedgerNeverOverflows` | src/Validator.c:615-653 | an append finds `last_block_index + 1 == count` below the number of blocks, though the code does not check, and changes that slot, the count and the index and no other block; what it stores is the streamed block |
| `Theorems.NeverOutOfBounds` | src/Statistics.c:317-337 | no reachable state has written out of bounds, in the ledger or in the counters, or read a block that does not exist |
| `Theorems.ChainIntegrity` | src/Validator.c:615-650 | whenever the ledger lock is free and genesis exists: count and last index agree, every block names the hash of its stored predecessor, genesis names the empty hash, the tip is the hash of the stored last block, every stored block, genesis included, passes the nonce check, and slots above are still zero |
| `Theorems.StuckStays` | src/Validator.c:229-238 | a ledger lock lost with a killed validator is never free again |
| `Theorems.AppendOnly` | src/Validator.c:625-649 | between any two states of a run the blocks that were there are unchanged and the count has not dropped; so genesis is made once |
| `Theorems.TipsNeverReturn` | src/Validator.c:471-475 | the hashes along the chain are pairwise distinct and no two blocks are built on one tip |
| `Theorems.EmptyTipAlwaysRejected` | src/Miner.c:431-435 | a block mined on the tip from before genesis matches at neither comparison, whenever it is compared |
| `Theorems.NoDoubleSpend` | src/Validator.c:491-572 | no transaction id is in two different ledger blocks, nor in the pool once it is in the ledger |
| `Origins.EveryBlockIsMined` | src/Miner.c:396-505 | every block in the pipe, with a validator or in the ledger behind genesis was made by one thread in three steps with nothing else of that thread in between: it picked exactly the block's transactions from the pool, read the tip the block names while there was room, and mined it at the block's time under its own id and number with the nonce that mining finds |
| `Origins.MiningMakes` | src/Miner.c:451-505 | every mining step of a run puts one block behind the others in the pipe, made as above |
| `Origins.BlockIdsAreUnique` | src/Miner.c:453-453 | two mining steps of a run never give their blocks the same id, as long as block numbers fit an `int` |
| `Origins.GeneratorsCount` | src/txGen.c:90-91 | the next number of a generator is the number of its insertions so far |
| `Origins.InsertionIsNumbered` | src/txGen.c:90-91 | a transaction is named after its generator and the number of that generator's earlier insertions |
| `Origins.EveryFilledSlotIsSelectable` | src/Miner.c:406-406 | the test for the id "0" excludes no filled slot in any run |
| `Fates.Conservation` | src/Validator.c:533-629 | an id is in exactly one of pool, ledger, a validator's hands and the losses of earlier steps if an earlier step inserted it, and in none of them otherwise |
| `Fates.DroppedExactly` | src/Validator.c:618-629 | a transaction is lost if and only if some step found the tip moved at the second look, or killed the validator, with the transaction in that validator's hands |
| `Fates.BirthExactly` | src/txGen.c:242-258 | the record of births holds exactly the ids that steps so far have inserted |
| `Fates.InsertedOnce` | src/txGen.c:90-91 | no id is inserted by two steps of a run |
| `Fates.RemovalExactly` | src/Validator.c:533-553 | the record of removals holds exactly the ids that commits so far have taken off the pool |
| `Fates.SelectionLives` | src/Validator.c:494-531 | a copy made at one moment of a run is found in the pool with identical fields at a later one exactly when its id is still there and the commits in between, counted from its age, have begun no further fifty |
| `Theorems.PoolAgreement` | src/txGen.c:244-271 | whenever the pool lock is free the count is the number of filled slots, filled ids are unique, and a free slot is found exactly when the count is below the size, so the report of a full pool with a low count is unreachable |
| `Fates.SoleValidatorDropsNothing` | src/Validator.c:618-629 | with only the first validator, not killed, every second check succeeds and no step ever loses anything |
| `Theorems.ChecksPass` | src/Validator.c:465-531 | whatever the others do in between, a block passes its first check exactly when its tip is the tip then, its nonce never being the reason, and its second exactly when all its transactions are in the pool with identical fields then |
| `Theorems.AcceptanceComplete` | src/Validator.c:615-653 | a block that went through both checks is appended exactly when its tip is still the tip at the third section, and otherwise leaves the ledger alone; that it is the block its miner selected and mined is `Origins.EveryBlockIsMined` |
| `Fates.CommitsCounted` | src/Validator.c:533-571 | the history variable for commits counts the successful pool sections of the run |
| `Fates.BirthIsInsertion` | src/txGen.c:85-99 | a recorded birth is a step that inserted the transaction, with the number of commits before it |
| `Fates.RemovalIsCommit` | src/Validator.c:533-553 | a recorded removal is a commit that holds the id, with the number of commits before it |
| `Fates.AgingClosedForm` | src/Validator.c:556-566 | the age of a pool entry is the number of commits completed since its insertion, and it is the inserted transaction with one added to the reward for every fifty of them begun |
| `Fates.LedgerRewardIsAged` | src/Validator.c:639-645 | every ledger transaction carries the aged reward of the commit that removed it, and its generated value and timestamp |
| `Theorems.StatisticsAgree` | src/Statistics.c:317-331 | blocks processed are the valid and invalid ones together; for every miner, what is counted, queued, lost and unsent adds up to its blocks in the chain, and to the sum of the rewards of all their transactions |
| `Messages.MessagesConserved` | src/Validator.c:575-690 | each message is received, queued, lost or about to be sent exactly as often as steps have made it, an append saying miner, index of the new block, sum of its rewards and its time, a refusal saying the miner |
| `Messages.MessagesBalance` | src/Validator.c:575-690 | any sum over messages is the same over where they are and over the steps that made them |
| `Messages.RejectionsAgree` | src/Statistics.c:317-322 | for every miner, the rejections counted, queued, lost and unsent are the steps so far that refused a block with its id, for its nonce or tip at the first check or for a transaction not in the pool |
| `Messages.RefusalIsCharged` | src/Validator.c:582-597 | a refused block was mined by a thread of the run, and is charged to that thread exactly for thread ids up to 999999 |
| `Messages.ReceivedInOrder` | src/Statistics.c:303-303 | what is received, followed by what is queued, is what was sent, in the order of sending |
| `Theorems.MessagesNameDistinctBlocks` | src/Validator.c:672-690 | over all messages wherever they are, every appended index is named once and no other index at all |
| `Theorems.DeferredReadsSeeTheirBlocks` | src/Statistics.c:332-338 | the accumulated time is the sum, over every valid message received and every transaction of the block it names in the ledger of now, of the message's time less the transaction's, however late the reads came |
| `Theorems.CreditsGoToTheMiner` | src/Statistics.c:325-327 | every ledger block was printed by a miner thread, its message counts inside the arrays, and it counts for that thread exactly up to thread 999999 |
| `Witnesses.CollisionsOverflow` | src/Validator.c:631-634 | without collision-freeness the bound fails: a run with pow.c's own search and check over a constant digest function, nothing killed in it, whose last append has no slot left |
| `Witnesses.TwoValidatorsDrop` | src/Validator.c:618-629 | with two validators a transaction can be lost although nothing is killed and nothing collides: a run with pow.c's own search and check over a digest function of two values, whose last step takes the losing branch |
| `ChainInvariant.MatchingTipHasRoom` | src/Miner.c:428-441 | a block mined on a tip below which there was room, and whose tip matches now, still has room: an equal tip is an unchanged ledger |
| `ChainInvariant.AppendIsExtension` | src/Validator.c:615-649 | in an invariant state the field-by-field append is in bounds and equals the ledger with the streamed block in the next slot |
| `ChainInvariant.StepKeepsChain` | src/Validator.c:359-653 | every step keeps the chain invariant: the chain, and for every block under way the tip it was mined on |
| `ChainInvariant.StepGrowsLedger` | src/Validator.c:615-649 | a step leaves every stored block as it is |
| `TxInvariant.StepKeepsTx` | src/Validator.c:491-629 | every step keeps the bookkeeping of places, births, removals, ages and rewards |
| `TxInvariant.FreshName` | src/txGen.c:90-91 | the id a generator prints next is on no transaction so far |
| `TxInvariant.AcceptKeeps` | src/Validator.c:533-571 | one accepted block moves exactly its distinct ids from the pool to the validator and ages the rest |
| `AccountInvariant.StepKeepsAccount` | src/Statistics.c:301-339 | every step keeps the balance between messages and chain, the counters and the accumulated time |
| `AccountInvariant.StepNoFault` | src/Statistics.c:319-327 | no step from an invariant state writes out of bounds |
| `Pow.ScanDecidesThreshold` | src/PoW/pow.c:95-133 | counting leading zeros and looking at the next character decides whether the number written is below 12·16^59 (easy), 16^59 (normal), 12·16^58 (hard) |
| `Pow.MeetsByReward` | src/PoW/pow.c:185-198 | a digest of 64 digits is good for rewards up to 1 below 12·16^59, for reward 2 below 16^59, for higher rewards below 12·16^58, as the number it writes |
| `Pow.CheckDifficulty` | src/PoW/pow.c:95-133 | the loop over the digest buffer returns whether the number it writes is below 12·16^59 for rewards up to 1, 16^59 for reward 2, and 12·16^58 above |
| `Pow.MeetsAntitone` | src/PoW/pow.c:185-198 | a digest good for a reward is good for every lower one |
| `Pow.ValidForEveryReward` | src/PoW/pow.c:13-30 | a block valid for its maximum reward is valid for the reward of each of its transactions |
| `Pow.GetMaxTransactionReward` | src/PoW/pow.c:13-30 | returns the largest reward, or 0 if none is positive |
| `Pow.MaxReward` | src/PoW/pow.c:19-29 | no reward is above it, and it is 0 or attained |
| `Pow.SerializeBlock` | src/PoW/pow.c:32-73 | fills its buffer exactly, with id, previous hash, timestamp, transactions, nonce |
| `Pow.HexWritesBytes` | src/PoW/pow.c:86-89 | the hexadecimal characters printed for a string of bytes write the number that the bytes are, most significant first |
| `Pow.ComputeSha256` | src/PoW/pow.c:76-92 | leaves 64 lower-case hexadecimal characters that write the number the digest is, and a terminator |
| `Pow.HexInjective` | src/PoW/pow.c:86-90 | the printed digest determines the digest |
| `Pow.VerifyMeans` | src/PoW/pow.c:136-143 | a nonce is valid exactly when the digest of the serialised block, as a number, is below the bound of the largest reward in it |
| `Pow.Verify` | src/PoW/pow.c:136-143 | decides whether the digest of the block, as a number, is below the bound of its largest reward |
| `Pow.LeastFrom` | src/PoW/pow.c:161-182 | the search returns the first number in range that passes, or nothing when none does |
| `Pow.ProofOfWork` | src/PoW/pow.c:146-183 | terminates with the least nonce in 0..10,000,000 that verifies, operations and hash belonging to it, or with an error after all have failed; the rest of the block is untouched |
| `Pow.PowOfIsOk` | src/PoW/pow.c:146-183 | a mined nonce verifies, and every hash is 64 characters and a terminator |
| `Records.SerializeInjective` | src/PoW/pow.c:32-73 | blocks with equally many transactions and the same serialisation are the same block |
| `Records.FrameRoundTrip` | src/Validator.c:417-452 | parsing a frame gives the framed block back, its nonce included, though the frame's field order differs from the serialisation's |
| `Records.FrameRoundTripExactly` | src/Validator.c:416-452 | a block of well-sized buffers comes out of the frame as it went in if and only if its numbers fit their C fields |
| `Records.ParsedIsFrame` | src/Validator.c:416-452 | a read parses exactly when it has a frame's length and its prefix says so, and then its bytes are the frame of the block it parses as |
| `Records.TxFields` | include/Controller.h:47-53 | id, reward, value and timestamp lie at 0, 64, 68 and 72 of a transaction's 80 bytes |
| `Records.LEByte` | src/PoW/pow.c:50-59 | numbers are laid out least significant byte first |
| `Records.TxsRoundTrip` | src/Validator.c:452-452 | the array of transactions survives the copy to bytes and back |
| `Pipe.BuildFrame` | src/Miner.c:471-502 | the three copies into the buffer make the frame: size prefix, packed header, transactions |
| `Pipe.StreamIsFifo` | src/Validator.c:401-429 | with frames of at most 4096 bytes, in any interleaving of writers and readers, the byte stream is a queue of blocks: every read so far is one whole frame of the block whose turn it was |
| `Pipe.SplitWriteBreaksFrames` | src/Miner.c:500-505 | for longer frames there is an interleaving whose read is no frame: two writers, one byte of the first ahead of the second |
| `Pipe.FramesStayWholeExactly` | src/Validator.c:409-429 | every read of every interleaving parses as the block whose turn it is if and only if blocks hold at most 49 transactions |
| `PipeLink.QueueIsTheStream` | src/Validator.c:401-452 | in every run with at most 49 transactions per block and numbers that fit their fields, the writes and reads made so far can be carried out on the byte stream, and its bytes are the frames of the protocol's queue |
| `PipeLink.ReadsGiveTheBlock` | src/Validator.c:409-452 | in such a run the bytes that a validator's read returns parse as the block the protocol hands it |
| `Pool.FreeSlotExists` | src/txGen.c:244-265 | with the count in agreement a count below the size means a free slot, and conversely |
| `Pool.InsertKeepsPool` | src/txGen.c:247-258 | inserting a new id keeps the agreement and adds that id, exactly when there is room |
| `Pool.CommitKeepsPool` | src/Validator.c:533-566 | an accepted block takes exactly its ids off the pool, lowers the count by the number of distinct ones and keeps the agreement |
| `Pool.SelectionIsListed` | src/Miner.c:396-416 | what was just copied from a slot is found in the pool with identical fields |
| `Pool.SurvivesCommit` | src/Validator.c:509-566 | after another block's commit a copy is still found with identical fields exactly when that block did not take the transaction and its age was not a multiple of 50 |
| `Pool.DrawsHitSelectable` | src/Miner.c:398-416 | a transaction can be hit by some draw exactly when it is the copy of a filled slot whose id is not "0" |
| `Pool.TransactionPool.Generate` | src/txGen.c:242-258 | the scan puts the transaction into the first free slot; with the count in agreement it adds one exactly when the count was below the size |
| `Pool.TransactionPool.Select` | src/Miner.c:382-419 | returns copies of the first usable slots that the draws hit, in order and with repetitions, as many as configured, and nothing exactly when the count is too low or the draws hit too few; what it returns is a selection of filled slots |
| `Pool.TransactionPool.CheckAll` | src/Validator.c:494-531 | the nested scans accept exactly when every transaction is in the pool with identical fields |
| `Pool.TransactionPool.RemoveAll` | src/Validator.c:533-553 | the slots of the block's ids are emptied, no other, and the count drops by the number of distinct ids, repeated ids counting once |
| `Pool.TransactionPool.AgeAll` | src/Validator.c:556-566 | every filled slot is one round older, its reward raised every fiftieth round starting with the first |
| `Pool.TransactionPool.CheckAndCommit` | src/Validator.c:491-572 | all or nothing: an accepted block is committed whole, a rejected one leaves the pool as it was |
| `Ledger.StoreIntoZeros` | src/Validator.c:634-645 | writing a block's strings and numbers field by field over zeroed memory stores exactly that block, so the hash of what is stored is the hash of what was streamed |
| `Ledger.TipMatchesExactly` | src/Validator.c:471-475 | comparing the two hash strings compares the buffers, and the tip is empty exactly before genesis |
| `Ledger.GenesisKeepsChain` | src/Validator.c:377-387 | the genesis section, which skips the previous hash and the transactions, stores the mined genesis block whole |
| `Ledger.AppendKeepsChain` | src/Validator.c:631-649 | an append on a matching tip is in bounds of every string field and keeps the chain |
| `Ledger.TipsDistinct` | src/Validator.c:647-649 | hashes along a chain are pairwise distinct, by descent to genesis |
| `Ledger.OneBlockPerTip` | src/Validator.c:621-649 | no two blocks of a chain name the same previous hash |
| `Ledger.CollisionFreeSuffices` | src/PoW/pow.c:76-92 | if SHA-256 does not collide on a ledger's serialised blocks, blocks with equal hash buffers name the same previous hash |
| `Ledger.LedgerSegment.EnsureGenesis` | src/Validator.c:359-391 | the first validator in stores the genesis block with its least nonce, or fails and writes nothing; a later one changes nothing |
| `Ledger.TipIsLastHash` | src/Miner.c:431-435 | on a sound ledger the string copy of the tip is the whole hash buffer of the last stored block, or zeros before genesis, and is refused exactly when every slot is taken |
| `Ledger.LedgerSegment.ReadTip` | src/Miner.c:431-440 | on a sound ledger returns the hash of the block at `count - 1` in the segment, or zeros before genesis, and nothing exactly when every slot is taken |
| `Ledger.LedgerSegment.CheckAndAppend` | src/Validator.c:615-651 | on an unchanged tip the next slot, the tip, the count and the index are written and nothing else; otherwise nothing is |
| `Ledger.LedgerSegment.StoreFields` | src/Validator.c:634-645 | the loop writes all fields of one slot and leaves the others |
| `Processes.MineBlock` | src/Miner.c:458-464 | the retry loop ends with a block that verifies, at the first clock reading for which some nonce passes, with the least such nonce |
| `Processes.Prepare` | src/Miner.c:360-455 | a prepared block holds the first transactions the draws hit and the tip of a ledger with room, under the thread's id and number; nothing is prepared exactly when the pool holds too little, the ledger is full or the draws hit too few |
| `Processes.MineFrame` | src/Miner.c:458-505 | a frame is made exactly when some clock reading has a nonce; it is that of the prepared block with the first such reading and its least nonce, which verifies |
| `Processes.MinedIsApproved` | src/Miner.c:471-505 | undisturbed, what a miner made of a pool and a ledger comes out of the frame as it was, passes all checks against them, and is appended in bounds, whole, keeping the chain |
| `Processes.FirstSuccess` | src/Miner.c:459-464 | the chosen reading is the first that succeeds; none means that all fail |
| `Processes.NonceDoesNotMatter` | src/PoW/pow.c:154-154 | mining starts over from nonce 0 whatever an earlier attempt left in the block |
| `Processes.Validate` | src/Validator.c:455-690 | a validator's pass without interference: the block is committed and appended, and reported with its index and the sum of its rewards, exactly when nonce, tip and transactions are all good; otherwise both regions are untouched and a rejection is reported |
| `Processes.Check` | src/Validator.c:465-572 | a block is skipped exactly when nonce, tip or transactions speak against it, and only a block that is not skipped changes the pool, by its whole commit |
| `Processes.AppendAndReport` | src/Validator.c:615-690 | on an unmoved tip the block is appended in the next slot and the message names that slot and the sum of its rewards |
| `Processes.EarnedAmount` | src/Validator.c:672-679 | the loop returns the sum of the rewards of all transactions of the block |
| `Processes.StatisticsProcess.Receive` | src/Statistics.c:317-330 | one message moves the counters as the step of the protocol does |
| `Processes.StatisticsProcess.ReadLedger` | src/Statistics.c:332-338 | the loop adds the waiting time of every transaction of the named block |
| `WakeUp.SignalMiners` | src/txGen.c:300-319 | undisturbed, posting fills the semaphore up to the number of miners and never lowers it |
| `WakeUp.Generator.Round` | src/txGen.c:235-298 | one round inserts as specified and decides to signal exactly when the pool holds enough transactions for a block: the three-way rule has no further effect |
| `WakeUp.WakeUpsAreBounded` | src/txGen.c:300-318 | however generators overlap, the semaphore and all pending posts together stay within generators times miners |
| `WakeUp.OneGeneratorFillsUp` | src/txGen.c:300-318 | one generator never takes the semaphore above the number of miners |
| `WakeUp.UndisturbedRound` | src/txGen.c:300-319 | among overlapping generators one that decides and posts undisturbed leaves the semaphore at the number of miners, or where it was if that is more, as the posting loop does |
| `WakeUp.BoundIsReached` | src/txGen.c:300-318 | for any number of generators and miners some interleaving takes the semaphore to their product, so the bound is exact |
| `Progress.ValidatorsCanMove` | src/Validator.c:359-690 | with both locks free a live validator has a step of its own unless the pipe is empty or genesis has no nonce |
| `Progress.MinersCanMove` | src/Miner.c:333-505 | with both locks free, in every state of a run, a thread that has not stopped has a step of its own unless the pool holds too little or mining finds no nonce |
| `Progress.GeneratorsCanMove` | src/txGen.c:230-271 | with the pool lock free a generator can make its next transaction, with any value and each of the rewards 1 to 3 |
| `Progress.ReportsCanBeSent` | src/Controller.c:928-932 | a report can be queued exactly while fewer than ten messages are queued |
| `Progress.ValidatorsCanDie` | src/Validator.c:229-238 | a kill can come between any two sections and inside every section a validator is about to enter |
| `Progress.StatisticsCanMove` | src/Statistics.c:301-338 | with the ledger lock free the statistics process waits only for a message |
| `CStrings.BlockIdsDiffer` | src/Miner.c:453-453 | block ids of different threads or numbers differ in their fields |
| `CStrings.TxNameInjective` | src/txGen.c:90-91 | ids of different generators or numbers differ |
| `CStrings.MinerFieldOfBlockId` | src/Validator.c:585-594 | what is parsed out of a block id and printed again is the thread id that was printed into it, cut to six characters |
| `CStrings.MinerIdentityRoundTrip` | src/Statistics.c:319-327 | printing, parsing, printing into seven bytes and parsing again gives the index of the thread exactly for thread ids up to 999999, and an index inside the array in any case |
| `ShmLayout.TransactionSize` | include/Controller.h:47-53 | fields and alignment make 80 bytes |
| `ShmLayout.BlockHeaderSize` | include/Controller.h:82-89 | fields and alignment make 160 bytes, the offset field being the last 8 |
| `ShmLayout.LedgerHeaderSize` | include/Controller.h:115-122 | fields and alignment make 88 bytes, and where the two fields read by the loop lie |
| `ShmLayout.TilesEndAtSize` | src/Controller.c:893-893 | the last block region ends exactly at the size of the segment |
| `ShmLayout.LedgerTiling` | src/SHMManagement.c:71-79 | the block regions are disjoint and 8-aligned, lie in the segment behind the header, and every byte behind the header is in one of them |
| `ShmLayout.TransactionsInsideBlock` | src/SHMManagement.c:43-44 | every transaction slot is 8-aligned and inside its own block's region |
| `ShmLayout.InterfaceTxBlock` | src/SHMManagement.c:29-47 | writes the offset field of one block and nothing else |
| `ShmLayout.InterfaceLedger` | src/SHMManagement.c:50-82 | the accumulated offset is the closed form for every block, only offset fields are written, and on a segment that has been through it before nothing changes |
| `ShmLayout.StampedMemoryIsFixed` | src/SHMManagement.c:34-35 | two segments that have been through it and agree outside the offset fields are equal |

## Left out

- That the loop of random draws ends, which is a matter of probability: the draws are an input, and may run out.
- Theorems.AcceptanceComplete: says what happens to a block once its validator takes the three steps, not that it takes them; there is no fairness in the model.
- Theorems.ChainIntegrity: says nothing once a validator was killed inside the ledger's section, because the section leaves the semaphore taken and the region half written.
- Theorems.StatisticsAgree: rewards and credits are unbounded, the `int` counters of the source may wrap around.
- Processes.Validate: covers one pass without other processes in between; with them, the sections are the steps of the protocol.
- Processes.MinedIsApproved: asks that the numbers of the block fit their C fields, as pool rewards are unbounded here.
- Pipe.FramesStayWholeExactly: a split write is put in the pipe in arbitrary pieces; kernel buffers and their capacity are not modelled, and neither is the warning about it in src/Miner.c.
- SHA-256 itself, and how likely a nonce or a collision is.
- The number of validators is not limited to three.
- Runs with more than 49 transactions per block: the step system has them, but there whole blocks in the pipe are no longer what the program does.
- The thresholds by which the controller starts and stops validators; joining and stopping are free steps.
- A genesis block for which no nonce is found has no step of its own: the source exits holding the ledger lock, which is the step of a validator dying in the ledger's section with the ledger unchanged.
- Process ids wrapping around or being reused.
- The block id inside a statistics message, which is only logged, and messages shorter than the record.
- Elapsed times, the averages that the statistics process prints, logging, ledger dumps and colours.
- Command line, configuration parsing, creation and removal of semaphores, pipes, queues and mappings.
- Shutdown: signals to the controller, thread cancellation and clean-up handlers, apart from validators and generators that stop anywhere.
- Memory allocation failures, except that a miner may give up an iteration at any point.
- `interfaceTxPool`, whose single offset adds nothing to the tiling of the ledger.
