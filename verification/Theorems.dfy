/**
 What holds in every run of the protocol, under every interleaving, with validators joining and dying anywhere.
 The only hypothesis is that the blocks making up the ledger have not collided.
 */
module Theorems {
  import opened CStrings
  import opened Records
  import opened Pow
  import opened Pool
  import opened Ledger
  import opened Protocol
  import opened ChainInvariant
  import opened TxInvariant
  import opened AccountInvariant
  import opened Sums

  ghost predicate Inv(c: Config, s: State)
  {
    ChainInv(c, s) && TxInv(c, s) && AccountInv(c, s) && !s.fault
  }

  lemma StepKeepsInv(c: Config, s: State, a: Step)
    requires ConfigOk(c) && Inv(c, s) && CollisionFree(c, s) && Enabled(c, s, a)
    ensures Inv(c, Do(c, s, a))
  {
    TxInvGivesIds(c, s);
    StepKeepsChain(c, s, a);
    StepKeepsTx(c, s, a);
    StepKeepsAccount(c, s, a);
    StepNoFault(c, s, a);
  }

  lemma InitInv(c: Config)
    requires ConfigOk(c)
    ensures Inv(c, Init(c))
  {
    InitChain(c);
    InitTx(c);
    InitAccount(c);
  }

  lemma NextKeepsInv(c: Config, states: seq<State>, steps: seq<Step>, k: nat)
    requires ConfigOk(c) && Run(c, states, steps) && k < |steps| && Inv(c, states[k]) && CollisionFree(c, states[k])
    ensures k + 1 < |states| && Inv(c, states[k + 1])
  {
    RunStep(c, states, steps, k);
    StepKeepsInv(c, states[k], steps[k]);
  }

  /** It is enough that states of the invariant do not collide. */
  lemma {:induction false} InductiveInv(c: Config, states: seq<State>, steps: seq<Step>, k: nat)
    requires ConfigOk(c) && Run(c, states, steps) && k < |states|
    requires forall s :: s in states && Inv(c, s) ==> CollisionFree(c, s)
    ensures Inv(c, states[k]) && CollisionFree(c, states[k])
  {
    if k == 0 {
      InitInv(c);
    } else {
      InductiveInv(c, states, steps, k - 1);
      NextKeepsInv(c, states, steps, k - 1);
    }
    assert states[k] in states;
  }

  lemma RunKeepsInv(c: Config, states: seq<State>, steps: seq<Step>, k: nat)
    requires ConfigOk(c) && Run(c, states, steps) && CollisionFreeRun(c, states) && k < |states|
    ensures Inv(c, states[k])
  {
    InductiveInv(c, states, steps, k);
  }

  lemma RunStep(c: Config, states: seq<State>, steps: seq<Step>, k: nat)
    requires Run(c, states, steps) && k < |steps|
    ensures k + 1 < |states| && Enabled(c, states[k], steps[k]) && states[k + 1] == Do(c, states[k], steps[k])
  {
    assert Taken(c, states, steps, k);
  }

  // ---------------------------------------------------------------- the hypothesis, for SHA-256

  ghost predicate ShaFreeRun(sha: Sha, states: seq<State>)
  {
    forall k :: 0 <= k < |states| && !states[k].ledgerStuck ==> ShaCollisionFree(sha, states[k].ledger)
  }

  lemma LedgerShaped(c: Config, s: State)
    requires ChainInv(c, s) && !s.ledgerStuck
    ensures forall i :: 0 <= i < s.ledger.count <= |s.ledger.blocks| ==> Shaped(s.ledger.blocks[i])
  {
    ZeroBlockWellFormed(c.txsPerBlock);
  }

  lemma ShaStateIsCollisionFree(c: Config, sha: Sha, s: State)
    requires c.pow == PowOf(sha) && ChainInv(c, s) && (!s.ledgerStuck ==> ShaCollisionFree(sha, s.ledger))
    ensures CollisionFree(c, s)
  {
    if !s.ledgerStuck {
      LedgerShaped(c, s);
      CollisionFreeSuffices(sha, s.ledger);
    }
  }

  /** With pow.c's own hash, it is enough that SHA-256 never collides on the serialised blocks of one ledger. */
  lemma ShaRunIsCollisionFree(c: Config, sha: Sha, states: seq<State>, steps: seq<Step>)
    requires IsSha(sha) && c.pow == PowOf(sha) && c.numBlocks >= 2 && 1 <= c.numMiners <= INT_MAX
    requires c.poolSize >= 1 && c.txsPerBlock >= 1
    requires Run(c, states, steps) && ShaFreeRun(sha, states)
    ensures ConfigOk(c) && CollisionFreeRun(c, states)
  {
    PowOfIsOk(sha);
    forall s | s in states && Inv(c, s) ensures CollisionFree(c, s) {
      ShaStateIsCollisionFree(c, sha, s);
    }
    forall k | 0 <= k < |states| ensures CollisionFree(c, states[k]) {
      InductiveInv(c, states, steps, k);
    }
  }

  // ---------------------------------------------------------------- the ledger

  /** Step `k` is validator `v` finding its block's tip current at the second look. */
  ghost predicate AppendsAt(states: seq<State>, steps: seq<Step>, k: nat, v: nat)
  {
    && k < |steps| && k < |states| && steps[k].ValidatorAppends? && steps[k].v == v
    && v < |states[k].validators| && states[k].validators[v].Holding?
    && TipMatches(states[k].validators[v].block.prev, states[k].ledger.lastHash)
  }

  lemma AppendEffect(c: Config, s: State, v: nat, timestamp: int)
    requires ConfigOk(c) && Inv(c, s) && CollisionFree(c, s) && Enabled(c, s, ValidatorAppends(v, timestamp))
    requires TipMatches(s.validators[v].block.prev, s.ledger.lastHash)
    ensures s.ledger.lastIndex + 1 == s.ledger.count < c.numBlocks == |s.ledger.blocks|
    ensures Do(c, s, ValidatorAppends(v, timestamp)) == Appended(c, s, v, timestamp)
  {
    MatchingAppend(c, s, v, timestamp);
  }

  /** The ledger never overflows, although no validator looks; and what is stored is the streamed block itself. */
  lemma LedgerNeverOverflows(c: Config, states: seq<State>, steps: seq<Step>, k: nat, v: nat)
    requires ConfigOk(c) && Run(c, states, steps) && CollisionFreeRun(c, states) && AppendsAt(states, steps, k, v)
    ensures var l, l', b := states[k].ledger, states[k + 1].ledger, states[k].validators[v].block;
            && l.lastIndex + 1 == l.count < c.numBlocks == |l.blocks|
            && l'.count == l.count + 1 && l'.lastIndex == l.count && l'.blocks == l.blocks[l.count := b]
            && !states[k + 1].fault
  {
    RunKeepsInv(c, states, steps, k);
    RunStep(c, states, steps, k);
    AppendEffect(c, states[k], v, steps[k].timestamp);
  }

  /** Nothing is ever written out of bounds, in the ledger or in the counters. */
  lemma NeverOutOfBounds(c: Config, states: seq<State>, steps: seq<Step>, k: nat)
    requires ConfigOk(c) && Run(c, states, steps) && CollisionFreeRun(c, states) && k < |states|
    ensures !states[k].fault
  {
    RunKeepsInv(c, states, steps, k);
  }

  /**
   Whenever the ledger lock is free and genesis exists, the chain is linked by the hashes of what is stored and every
   stored block, genesis included, carries its proof of work.
   */
  lemma ChainIntegrity(c: Config, states: seq<State>, steps: seq<Step>, k: nat)
    requires ConfigOk(c) && Run(c, states, steps) && CollisionFreeRun(c, states) && k < |states|
    requires !states[k].ledgerStuck && states[k].ledger.count > 0
    ensures var l := states[k].ledger;
            && |l.blocks| == c.numBlocks && l.count == l.lastIndex + 1 <= c.numBlocks
            && l.blocks[0].prev == Zeros(HASH_SIZE)
            && (forall i :: 1 <= i < l.count ==> l.blocks[i].prev == c.pow.hash(l.blocks[i - 1]))
            && l.lastHash == c.pow.hash(l.blocks[l.count - 1])
            && (forall i :: 0 <= i < l.count ==> c.pow.verify(l.blocks[i]))
            && forall i :: l.count <= i < c.numBlocks ==> l.blocks[i] == ZeroBlock(c.txsPerBlock)
  {
    RunKeepsInv(c, states, steps, k);
    var zero := ZeroBlock(c.txsPerBlock);
    assert c.pow.verify(zero.(nonce := c.pow.mine(zero).value));
  }

  /** Once lost, the ledger lock stays lost. */
  lemma {:induction false} StuckStays(c: Config, states: seq<State>, steps: seq<Step>, j: nat, k: nat)
    requires Run(c, states, steps) && j <= k < |states| && states[j].ledgerStuck
    ensures states[k].ledgerStuck
    decreases k
  {
    if j < k {
      StuckStays(c, states, steps, j, k - 1);
      RunStep(c, states, steps, k - 1);
      StuckStep(c, states[k - 1], steps[k - 1]);
    }
  }

  lemma StuckStep(c: Config, s: State, a: Step)
    requires Enabled(c, s, a) && s.ledgerStuck
    ensures Do(c, s, a).ledgerStuck
  {
    if Elsewhere(a) {
      ElsewhereFrame(c, s, a);
    } else if OfMiner(a) {
      MinerFrame(c, s, a);
    } else if !WritesLedger(a) {
      ValidatorFrame(c, s, a);
    }
  }

  lemma GrowsFromItself(c: Config, states: seq<State>, steps: seq<Step>, k: nat)
    requires ConfigOk(c) && Run(c, states, steps) && CollisionFreeRun(c, states) && k < |states|
    requires !states[k].ledgerStuck
    ensures Grows(states[k].ledger, states[k].ledger)
  {
    RunKeepsInv(c, states, steps, k);
    GrowsItself(c, states[k]);
  }

  lemma NextGrows(c: Config, states: seq<State>, steps: seq<Step>, k: nat)
    requires ConfigOk(c) && Run(c, states, steps) && CollisionFreeRun(c, states) && k + 1 < |states|
    requires !states[k].ledgerStuck && !states[k + 1].ledgerStuck
    ensures Grows(states[k].ledger, states[k + 1].ledger)
  {
    RunKeepsInv(c, states, steps, k);
    RunStep(c, states, steps, k);
    StepGrowsLedger(c, states[k], steps[k]);
  }

  /** Blocks once there never change; in particular genesis is created once. */
  lemma {:induction false} AppendOnly(c: Config, states: seq<State>, steps: seq<Step>, j: nat, k: nat)
    requires ConfigOk(c) && Run(c, states, steps) && CollisionFreeRun(c, states) && j <= k < |states|
    requires !states[k].ledgerStuck
    ensures !states[j].ledgerStuck && Grows(states[j].ledger, states[k].ledger)
    decreases k
  {
    if j == k {
      GrowsFromItself(c, states, steps, k);
    } else {
      if states[k - 1].ledgerStuck {
        StuckStays(c, states, steps, k - 1, k);
      }
      NextGrows(c, states, steps, k - 1);
      AppendOnly(c, states, steps, j, k - 1);
      GrowsTransitive(states[j].ledger, states[k - 1].ledger, states[k].ledger);
    }
  }

  lemma GrowsTransitive(a: LedgerState, b: LedgerState, d: LedgerState)
    requires Grows(a, b) && Grows(b, d)
    ensures Grows(a, d)
  {
  }

  /** No tip ever comes back and at most one block is built on any tip. */
  lemma TipsNeverReturn(c: Config, states: seq<State>, steps: seq<Step>, k: nat, i: nat, j: nat)
    requires ConfigOk(c) && Run(c, states, steps) && CollisionFreeRun(c, states) && k < |states|
    requires !states[k].ledgerStuck && i < j < states[k].ledger.count
    ensures j < |states[k].ledger.blocks|
    ensures c.pow.hash(states[k].ledger.blocks[i]) != c.pow.hash(states[k].ledger.blocks[j])
    ensures states[k].ledger.blocks[i].prev != states[k].ledger.blocks[j].prev
  {
    RunKeepsInv(c, states, steps, k);
    TipsDistinct(c.pow, c.txsPerBlock, states[k].ledger, i, j);
    OneBlockPerTip(c.pow, c.txsPerBlock, states[k].ledger, i, j);
  }

  /** A block mined on the empty tip, before genesis, passes neither check. */
  lemma EmptyTipAlwaysRejected(c: Config, states: seq<State>, steps: seq<Step>, k: nat, v: nat)
    requires ConfigOk(c) && Run(c, states, steps) && CollisionFreeRun(c, states) && k < |states|
    requires !states[k].ledgerStuck
    requires v < |states[k].validators| && CarriesBlock(states[k].validators[v])
    requires states[k].validators[v].block.prev == Zeros(HASH_SIZE)
    ensures !TipMatches(states[k].validators[v].block.prev, states[k].ledger.lastHash)
  {
    RunKeepsInv(c, states, steps, k);
    var s := states[k];
    assert ValidatorOk(c, s.ledger, false, s.validators[v]);
    TipMatchesExactly(c.pow, c.txsPerBlock, s.ledger, s.validators[v].block.prev);
  }

  // ---------------------------------------------------------------- transactions

  /** No transaction id occurs in two different ledger blocks, nor in the pool again. */
  lemma NoDoubleSpend(c: Config, states: seq<State>, steps: seq<Step>, k: nat, i: nat, j: nat)
    requires ConfigOk(c) && Run(c, states, steps) && CollisionFreeRun(c, states) && k < |states|
    requires !states[k].ledgerStuck && i < j < states[k].ledger.count
    ensures j < |states[k].ledger.blocks|
        && TxNames(states[k].ledger.blocks[i].txs) !! TxNames(states[k].ledger.blocks[j].txs)
    ensures !states[k].poolStuck ==> FilledNames(states[k].pool.slots) !! TxNames(states[k].ledger.blocks[j].txs)
  {
    RunKeepsInv(c, states, steps, k);
    var s := states[k];
    assert LedgerNames(s.ledger, j) == PlacedAt(s.h.place, InLedger(j));
    if i > 0 {
      assert LedgerNames(s.ledger, i) == PlacedAt(s.h.place, InLedger(i));
    } else {
      GenesisNames(c, s, j);
    }
  }

  /** Genesis holds zeroed transactions, whose empty id no generator prints. */
  lemma GenesisNames(c: Config, s: State, j: nat)
    requires ChainInv(c, s) && TxInv(c, s) && !s.ledgerStuck && 0 < j < s.ledger.count
    ensures j < |s.ledger.blocks| && TxNames(s.ledger.blocks[0].txs) !! TxNames(s.ledger.blocks[j].txs)
  {
    CStrOfZeros(TX_ID_LEN);
    assert LedgerNames(s.ledger, j) == PlacedAt(s.h.place, InLedger(j));
    forall n | n in TxNames(s.ledger.blocks[j].txs) ensures n != [] {
      assert n in PlacedAt(s.h.place, InLedger(j));
      assert PrintedBy(s.generators, n);
    }
  }

  ghost predicate IsHeld(s: State, n: Name)
  {
    exists v: nat :: n in HeldNames(s.validators, v)
  }

  ghost predicate IsInLedger(s: State, n: Name)
  {
    exists i: nat :: n in LedgerNames(s.ledger, i)
  }

  ghost function One(b: bool): (n: nat)
  {
    if b then 1 else 0
  }

  /** At every moment a recorded id has one place, and what is in no record is nowhere. */
  lemma OnePlace(c: Config, states: seq<State>, steps: seq<Step>, k: nat, n: Name)
    requires ConfigOk(c) && Run(c, states, steps) && CollisionFreeRun(c, states) && k < |states|
    requires !states[k].poolStuck && !states[k].ledgerStuck
    ensures var s := states[k];
            One(n in FilledNames(s.pool.slots)) + One(IsInLedger(s, n)) + One(IsHeld(s, n))
                + One(n in PlacedAt(s.h.place, Dropped))
            == One(n in s.h.birth)
  {
    RunKeepsInv(c, states, steps, k);
    var s := states[k];
    if n in s.h.place {
      var p := s.h.place[n];
      if p.Held? {
        assert HeldNames(s.validators, p.validator) == PlacedAt(s.h.place, p);
        assert n in HeldNames(s.validators, p.validator);
      } else if p.InLedger? {
        assert LedgerNames(s.ledger, p.index) == PlacedAt(s.h.place, p);
        assert n in LedgerNames(s.ledger, p.index);
      }
    }
    if IsHeld(s, n) {
      var v: nat :| n in HeldNames(s.validators, v);
      assert n in PlacedAt(s.h.place, Held(v));
    }
    if IsInLedger(s, n) {
      var i: nat :| n in LedgerNames(s.ledger, i);
      assert n in PlacedAt(s.h.place, InLedger(i));
    }
  }

  /**
   Whenever the pool lock is free the count is the number of filled slots, so a free slot is found exactly when the
   count is below the size.
   */
  lemma PoolAgreement(c: Config, states: seq<State>, steps: seq<Step>, k: nat)
    requires ConfigOk(c) && Run(c, states, steps) && CollisionFreeRun(c, states) && k < |states| && !states[k].poolStuck
    ensures var p := states[k].pool;
            && UniqueNames(p.slots) && p.count == NumFilled(p.slots) && 0 <= p.count <= c.poolSize == |p.slots|
            && (p.count < c.poolSize <==> FirstFree(p.slots) < c.poolSize)
  {
    RunKeepsInv(c, states, steps, k);
    FreeSlotExists(states[k].pool);
  }

  // ---------------------------------------------------------------- acceptance

  /** Steps in which validator `v` moves. */
  predicate Moves(a: Step, v: nat)
  {
    match a
    case ValidatorStarts(u) => u == v
    case ValidatorReads(u) => u == v
    case ValidatorChecks(u) => u == v
    case ValidatorCommits(u) => u == v
    case ValidatorAppends(u, _) => u == v
    case ValidatorReports(u, _) => u == v
    case ValidatorDies(u) => u == v
    case ValidatorDiesInPool(u, _) => u == v
    case ValidatorDiesInLedger(u, _) => u == v
    case _ => false
  }

  lemma OthersLeaveAlone(c: Config, s: State, a: Step, v: nat)
    requires Enabled(c, s, a) && !Moves(a, v) && v < |s.validators|
    ensures v < |Do(c, s, a).validators| && Do(c, s, a).validators[v] == s.validators[v]
  {
    if Elsewhere(a) {
      ElsewhereFrame(c, s, a);
    } else if OfMiner(a) {
      MinerFrame(c, s, a);
    } else if a.ValidatorDies? || a.ValidatorDiesInPool? || a.ValidatorDiesInLedger? {
      OthersDie(c, s, a, v);
    } else if a.ValidatorStarts? || a.ValidatorAppends? {
      OthersWrite(c, s, a, v);
    }
  }

  lemma OthersDie(c: Config, s: State, a: Step, v: nat)
    requires Enabled(c, s, a) && !Moves(a, v) && v < |s.validators|
    requires a.ValidatorDies? || a.ValidatorDiesInPool? || a.ValidatorDiesInLedger?
    ensures v < |Do(c, s, a).validators| && Do(c, s, a).validators[v] == s.validators[v]
  {
    DieFrame(s, a.v);
  }

  lemma OthersWrite(c: Config, s: State, a: Step, v: nat)
    requires Enabled(c, s, a) && !Moves(a, v) && v < |s.validators| && (a.ValidatorStarts? || a.ValidatorAppends?)
    ensures v < |Do(c, s, a).validators| && Do(c, s, a).validators[v] == s.validators[v]
  {
    if a.ValidatorAppends? {
      DoAppends(c, s, a.v, a.timestamp);
    }
  }

  lemma {:induction false} PcStays(c: Config, states: seq<State>, steps: seq<Step>, i: nat, j: nat, v: nat)
    requires Run(c, states, steps) && i <= j < |states| && v < |states[i].validators|
    requires forall m :: i <= m < j ==> !Moves(steps[m], v)
    ensures v < |states[j].validators| && states[j].validators[v] == states[i].validators[v]
    decreases j
  {
    if i < j {
      PcStays(c, states, steps, i, j - 1, v);
      RunStep(c, states, steps, j - 1);
      OthersLeaveAlone(c, states[j - 1], steps[j - 1], v);
    }
  }

  /** The first check: a miner's block always has a valid nonce, so only the tip decides. */
  lemma CheckDecides(c: Config, s: State, v: nat)
    requires ConfigOk(c) && Inv(c, s) && Enabled(c, s, ValidatorChecks(v))
    ensures var b := s.validators[v].block;
            Do(c, s, ValidatorChecks(v)).validators[v]
            == if b.prev == s.ledger.lastHash then Passed(b) else Reporting(InvalidMessage(b))
  {
    HeldTip(c, s, v);
  }

  lemma AppendDecides(c: Config, s: State, v: nat, timestamp: int)
    requires ConfigOk(c) && Inv(c, s) && CollisionFree(c, s) && Enabled(c, s, ValidatorAppends(v, timestamp))
    ensures if s.validators[v].block.prev == s.ledger.lastHash then
              s.ledger.count < |s.ledger.blocks|
                  && Do(c, s, ValidatorAppends(v, timestamp)) == Appended(c, s, v, timestamp)
            else
              Do(c, s, ValidatorAppends(v, timestamp)) == SetValidator(s, v, Waiting).(h := HeldDropped(s, v))
  {
    HeldTip(c, s, v);
    if s.validators[v].block.prev == s.ledger.lastHash {
      AppendEffect(c, s, v, timestamp);
    } else {
      DoAppends(c, s, v, timestamp);
    }
  }

  ghost function HeldDropped(s: State, v: nat): (h: History)
    requires v < |s.validators| && s.validators[v].Holding?
  {
    Moved(s.h, TxNames(s.validators[v].block.txs), Dropped)
  }

  lemma HeldTip(c: Config, s: State, v: nat)
    requires ConfigOk(c) && ChainInv(c, s) && !s.ledgerStuck && v < |s.validators| && CarriesBlock(s.validators[v])
    ensures TipMatches(s.validators[v].block.prev, s.ledger.lastHash)
        <==> s.validators[v].block.prev == s.ledger.lastHash
    ensures c.pow.verify(s.validators[v].block)
  {
    assert ValidatorOk(c, s.ledger, false, s.validators[v]);
    TipMatchesExactly(c.pow, c.txsPerBlock, s.ledger, s.validators[v].block.prev);
  }

  /**
   Validator `v` takes block `b` through its three sections at steps `x < y < z` of the run, whatever happens in
   between.
   */
  ghost predicate Handles(states: seq<State>, steps: seq<Step>, v: nat, b: Block, x: nat, y: nat, z: nat)
  {
    && x < y < z < |steps| < |states|
    && steps[x] == ValidatorChecks(v) && steps[y] == ValidatorCommits(v) && steps[z].ValidatorAppends?
        && steps[z].v == v
    && v < |states[x].validators| && states[x].validators[v] == Received(b)
    && forall m :: x < m < z && m != y ==> !Moves(steps[m], v)
  }

  lemma CommitDecides(c: Config, s: State, v: nat)
    requires Enabled(c, s, ValidatorCommits(v))
    ensures var b, r := s.validators[v].block, Do(c, s, ValidatorCommits(v));
            && v < |r.validators|
            && r.validators[v] == if Accepts(s.pool.slots, b.txs) then Holding(b) else Reporting(InvalidMessage(b))
  {
  }

  /** The first two sections: the block passes exactly when its tip is current and its transactions are in the pool. */
  lemma ChecksPass(c: Config, states: seq<State>, steps: seq<Step>, v: nat, b: Block, x: nat, y: nat)
    requires ConfigOk(c) && Run(c, states, steps) && CollisionFreeRun(c, states) && x < y < |steps|
    requires steps[x] == ValidatorChecks(v) && v < |states[x].validators| && states[x].validators[v] == Received(b)
    requires forall m :: x < m < y ==> !Moves(steps[m], v)
    ensures v < |states[y].validators|
    ensures states[y].validators[v]
            == if b.prev == states[x].ledger.lastHash then Passed(b) else Reporting(InvalidMessage(b))
    ensures steps[y] == ValidatorCommits(v) ==>
              && b.prev == states[x].ledger.lastHash && v < |states[y + 1].validators|
              && states[y + 1].validators[v]
                 == if Accepts(states[y].pool.slots, b.txs) then Holding(b) else Reporting(InvalidMessage(b))
  {
    RunKeepsInv(c, states, steps, x);
    RunStep(c, states, steps, x);
    CheckDecides(c, states[x], v);
    PcStays(c, states, steps, x + 1, y, v);
    if steps[y] == ValidatorCommits(v) {
      RunStep(c, states, steps, y);
      CommitDecides(c, states[y], v);
    }
  }

  /**
   Acceptance is complete and exact for miners' blocks: under any interleaving the block gets through its first check
   exactly when its tip is current then, through the second exactly when every one of its transactions is in the pool
   with identical fields then, and is appended exactly when its tip is still current at the end.
   */
  lemma AcceptanceComplete(c: Config, states: seq<State>, steps: seq<Step>, v: nat, b: Block, x: nat, y: nat, z: nat)
    requires ConfigOk(c) && Run(c, states, steps) && CollisionFreeRun(c, states) && x < y < z < |steps|
    requires Handles(states, steps, v, b, x, y, z)
    ensures b.prev == states[x].ledger.lastHash && Accepts(states[y].pool.slots, b.txs)
    ensures v < |states[z].validators| && v < |states[z + 1].validators| && states[z].validators[v] == Holding(b)
    ensures if b.prev == states[z].ledger.lastHash then
              && states[z].ledger.count < |states[z].ledger.blocks|
              && states[z + 1].ledger == Extended(c.pow, states[z].ledger, b)
              && states[z + 1].validators[v] == Reporting(ValidMessage(b, states[z].ledger.count, steps[z].timestamp))
            else
              states[z + 1].ledger == states[z].ledger && states[z + 1].validators[v] == Waiting
  {
    ChecksPass(c, states, steps, v, b, x, y);
    PcStays(c, states, steps, y + 1, z, v);
    AppenderHolds(c, states, steps, z);
    LastLook(c, states, steps, v, b, z);
  }

  lemma AppenderHolds(c: Config, states: seq<State>, steps: seq<Step>, z: nat)
    requires Run(c, states, steps) && z < |steps| && steps[z].ValidatorAppends?
    ensures steps[z].v < |states[z].validators| && states[z].validators[steps[z].v].Holding?
  {
    RunStep(c, states, steps, z);
  }

  lemma LastLook(c: Config, states: seq<State>, steps: seq<Step>, v: nat, b: Block, z: nat)
    requires ConfigOk(c) && Run(c, states, steps) && CollisionFreeRun(c, states) && z < |steps|
    requires steps[z].ValidatorAppends? && steps[z].v == v && v < |states[z].validators|
    requires states[z].validators[v] == Holding(b)
    ensures v < |states[z + 1].validators|
    ensures if b.prev == states[z].ledger.lastHash then
              && states[z].ledger.count < |states[z].ledger.blocks|
              && states[z + 1].ledger == Extended(c.pow, states[z].ledger, b)
              && states[z + 1].validators[v] == Reporting(ValidMessage(b, states[z].ledger.count, steps[z].timestamp))
            else
              states[z + 1].ledger == states[z].ledger && states[z + 1].validators[v] == Waiting
  {
    RunStep(c, states, steps, z);
    RunKeepsInv(c, states, steps, z);
    AppendDecides(c, states[z], v, steps[z].timestamp);
  }

  // ---------------------------------------------------------------- statistics

  /**
   The counters agree with the ledger: what is received, queued, lost and not yet sent adds up to the chain, for every
   miner.
   */
  lemma StatisticsAgree(c: Config, states: seq<State>, steps: seq<Step>, k: nat, i: nat)
    requires ConfigOk(c) && Run(c, states, steps) && CollisionFreeRun(c, states) && k < |states|
    requires !states[k].ledgerStuck
    requires i < c.numMiners
    ensures var s := states[k];
            && |s.stats.valid| == |s.stats.invalid| == |s.stats.credits| == c.numMiners
            && s.stats.processed == Sum(s.stats.valid) + Sum(s.stats.invalid) == |s.log.received|
                && s.stats.inChain == Sum(s.stats.valid)
            && s.ledger.count <= |s.ledger.blocks|
            && s.stats.valid[i] + Total(Blocks(i), s.queue) + Total(Blocks(i), s.log.lost)
                + Unsent(Blocks(i), s.validators)
               == ChainTotal(Blocks(i), s.ledger.blocks, s.ledger.count)
            && s.stats.credits[i] + Total(Credits(i), s.queue) + Total(Credits(i), s.log.lost)
                + Unsent(Credits(i), s.validators)
               == ChainTotal(Credits(i), s.ledger.blocks, s.ledger.count)
  {
    RunKeepsInv(c, states, steps, k);
    var s := states[k];
    assert CounterOk(s.stats, s.log.received, i);
    assert Total(Blocks(i), s.log.received) + Total(Blocks(i), s.queue) + Total(Blocks(i), s.log.lost)
           + Unsent(Blocks(i), s.validators) == ChainTotal(Blocks(i), s.ledger.blocks, s.ledger.count);
    assert Total(Credits(i), s.log.received) + Total(Credits(i), s.queue) + Total(Credits(i), s.log.lost)
           + Unsent(Credits(i), s.validators) == ChainTotal(Credits(i), s.ledger.blocks, s.ledger.count);
  }

  /** Valid messages, wherever they are, name each appended index exactly once and no other. */
  lemma MessagesNameDistinctBlocks(c: Config, states: seq<State>, steps: seq<Step>, k: nat, index: int)
    requires ConfigOk(c) && Run(c, states, steps) && CollisionFreeRun(c, states) && k < |states|
    requires !states[k].ledgerStuck
    ensures var s, q := states[k], AtIndex(index);
            Total(q, s.log.received) + Total(q, s.queue) + Total(q, s.log.lost) + Unsent(q, s.validators)
            == if 1 <= index < s.ledger.count then 1 else 0
  {
    RunKeepsInv(c, states, steps, k);
    ChainTotalAtIndex(index, states[k].ledger.blocks, states[k].ledger.count);
  }

  /** The accumulated time is what the present ledger says of every message read so far, however late the reads came. */
  lemma DeferredReadsSeeTheirBlocks(c: Config, states: seq<State>, steps: seq<Step>, k: nat)
    requires ConfigOk(c) && Run(c, states, steps) && CollisionFreeRun(c, states) && k < |states|
    requires !states[k].ledgerStuck
    requires states[k].stats.deferred.None?
    ensures states[k].stats.totalTime == WaitTotal(states[k].ledger.blocks, states[k].log.received)
    ensures MessagesOk(c, states[k].ledger, false, states[k].log.received)
  {
    RunKeepsInv(c, states, steps, k);
  }

  /** The counter a ledger block is credited to is that of the thread that mined it exactly up to thread 999999. */
  lemma CreditsGoToTheMiner(c: Config, states: seq<State>, steps: seq<Step>, k: nat, index: nat)
    returns (thread: nat, number: nat)
    requires ConfigOk(c) && Run(c, states, steps) && CollisionFreeRun(c, states) && k < |states|
    requires !states[k].ledgerStuck
    requires 1 <= index < states[k].ledger.count <= |states[k].ledger.blocks|
    ensures var b := states[k].ledger.blocks[index];
            && 1 <= thread <= c.numMiners && b.id == BlockIdField(thread, number)
            && 0 <= MinerIndex(MinerField(b.id)) < c.numMiners
            && (MinerIndex(MinerField(b.id)) == thread - 1 <==> thread <= 999_999)
  {
    RunKeepsInv(c, states, steps, k);
    var b := states[k].ledger.blocks[index];
    assert MinedId(c, b.id);
    thread, number :| 1 <= thread <= c.numMiners && b.id == BlockIdField(thread, number);
    MinerIdentityRoundTrip(thread, number);
  }
}
