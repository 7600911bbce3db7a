/**
 The inductive invariant of the ledger side of the protocol: the chain, and for every block on its way from a miner
 to the ledger the tip it was mined on.
 */
module ChainInvariant {
  import opened CStrings
  import opened Records
  import opened Pow
  import opened Pool
  import opened Ledger
  import opened Protocol

  /** Mined before genesis on the empty tip, or on the hash of a block below which the ledger still had room. */
  ghost predicate OnTip(p: PowInterface, l: LedgerState, prev: seq<Byte>)
  {
    prev == Zeros(HASH_SIZE) || exists k :: 0 <= k < l.count && k + 1 < |l.blocks| && prev == p.hash(l.blocks[k])
  }

  /** An id that some miner thread of this run printed. */
  ghost predicate MinedId(c: Config, id: seq<Byte>)
  {
    exists thread: nat, number: nat :: 1 <= thread <= c.numMiners && id == BlockIdField(thread, number)
  }

  /** A block between its miner and the ledger. */
  ghost predicate FlyOk(c: Config, l: LedgerState, stuck: bool, b: Block)
  {
    && WellFormed(b, c.txsPerBlock) && c.pow.verify(b) && MinedId(c, b.id)
    && (!stuck ==> OnTip(c.pow, l, b.prev))
  }

  predicate TxsCanonical(c: Config, txs: seq<Tx>)
  {
    |txs| == c.txsPerBlock && forall i :: 0 <= i < |txs| ==> |txs[i].id| == TX_ID_LEN && Canonical(txs[i].id)
  }

  ghost predicate MinerOk(c: Config, l: LedgerState, stuck: bool, m: Miner)
  {
    match m.pc
    case Picked(txs) => TxsCanonical(c, txs)
    case Ready(txs, prev) =>
      TxsCanonical(c, txs) && |prev| == HASH_SIZE && Canonical(prev) && (!stuck ==> OnTip(c.pow, l, prev))
    case _ => true
  }

  predicate CarriesBlock(pc: ValidatorPc) { pc.Received? || pc.Passed? || pc.Holding? }

  ghost predicate ValidatorOk(c: Config, l: LedgerState, stuck: bool, pc: ValidatorPc)
  {
    && (!pc.Starting? && !pc.Dead? && !stuck ==> l.count > 0)
    && (CarriesBlock(pc) ==> FlyOk(c, l, stuck, pc.block))
  }

  ghost predicate LedgerInv(c: Config, l: LedgerState, stuck: bool)
  {
    !stuck ==>
      && ChainOk(c.pow, c.txsPerBlock, l) && |l.blocks| == c.numBlocks
      && forall i :: 1 <= i < l.count ==>
           WellFormed(l.blocks[i], c.txsPerBlock) && MinedId(c, l.blocks[i].id) && c.pow.verify(l.blocks[i])
  }

  ghost predicate MinersInv(c: Config, l: LedgerState, stuck: bool, miners: seq<Miner>)
  {
    |miners| == c.numMiners && forall i :: 0 <= i < |miners| ==> MinerOk(c, l, stuck, miners[i])
  }

  ghost predicate PipeInv(c: Config, l: LedgerState, stuck: bool, pipe: seq<Block>)
  {
    forall i :: 0 <= i < |pipe| ==> FlyOk(c, l, stuck, pipe[i])
  }

  ghost predicate ValidatorsInv(c: Config, l: LedgerState, stuck: bool, vs: seq<ValidatorPc>)
  {
    forall v :: 0 <= v < |vs| ==> ValidatorOk(c, l, stuck, vs[v])
  }

  ghost predicate FlightInv(c: Config, l: LedgerState, stuck: bool, miners: seq<Miner>, pipe: seq<Block>,
                            vs: seq<ValidatorPc>)
  {
    MinersInv(c, l, stuck, miners) && PipeInv(c, l, stuck, pipe) && ValidatorsInv(c, l, stuck, vs)
  }

  ghost predicate ChainInv(c: Config, s: State)
  {
    LedgerInv(c, s.ledger, s.ledgerStuck) && FlightInv(c, s.ledger, s.ledgerStuck, s.miners, s.pipe, s.validators)
  }

  /** The ids of filled slots are terminated inside their fields. */
  ghost predicate SlotIdsOk(s: State)
  {
    !s.poolStuck ==>
      forall j :: 0 <= j < |s.pool.slots| && s.pool.slots[j].filled ==> |NameOf(s.pool.slots[j].tx)| < TX_ID_LEN
  }

  // ---------------------------------------------------------------- growth

  /** Appending: what was there stays there. */
  ghost predicate Grows(l: LedgerState, l': LedgerState)
  {
    && l.count <= l'.count && |l.blocks| == |l'.blocks| && l.count <= |l.blocks|
    && forall i :: 0 <= i < l.count ==> l'.blocks[i] == l.blocks[i]
  }

  lemma OnTipGrows(p: PowInterface, l: LedgerState, l': LedgerState, prev: seq<Byte>)
    requires Grows(l, l') && OnTip(p, l, prev)
    ensures OnTip(p, l', prev)
  {
    if prev != Zeros(HASH_SIZE) {
      var k :| 0 <= k < l.count && k + 1 < |l.blocks| && prev == p.hash(l.blocks[k]);
      assert l'.blocks[k] == l.blocks[k];
    }
  }

  lemma FlightGrows(c: Config, l: LedgerState, l': LedgerState, miners: seq<Miner>, pipe: seq<Block>,
                    vs: seq<ValidatorPc>)
    requires Grows(l, l') && FlightInv(c, l, false, miners, pipe, vs)
    ensures FlightInv(c, l', false, miners, pipe, vs)
  {
    forall i | 0 <= i < |miners| ensures MinerOk(c, l', false, miners[i]) {
      if miners[i].pc.Ready? {
        OnTipGrows(c.pow, l, l', miners[i].pc.prev);
      }
    }
    forall i | 0 <= i < |pipe| ensures FlyOk(c, l', false, pipe[i]) {
      OnTipGrows(c.pow, l, l', pipe[i].prev);
    }
    forall v | 0 <= v < |vs| ensures ValidatorOk(c, l', false, vs[v]) {
      if CarriesBlock(vs[v]) {
        OnTipGrows(c.pow, l, l', vs[v].block.prev);
      }
    }
  }

  lemma FlightStuck(c: Config, l: LedgerState, l': LedgerState, miners: seq<Miner>, pipe: seq<Block>,
                    vs: seq<ValidatorPc>)
    requires FlightInv(c, l, false, miners, pipe, vs)
    ensures FlightInv(c, l', true, miners, pipe, vs)
  {
    assert forall i :: 0 <= i < |miners| ==> MinerOk(c, l, false, miners[i]);
    assert forall v :: 0 <= v < |vs| ==> ValidatorOk(c, l, false, vs[v]);
  }

  lemma SetMinerKeeps(c: Config, l: LedgerState, stuck: bool, miners: seq<Miner>, i: nat, m: Miner)
    requires MinersInv(c, l, stuck, miners) && i < |miners| && MinerOk(c, l, stuck, m)
    ensures MinersInv(c, l, stuck, miners[i := m])
  {
  }

  lemma SetValidatorKeeps(c: Config, l: LedgerState, stuck: bool, vs: seq<ValidatorPc>, v: nat, pc: ValidatorPc)
    requires ValidatorsInv(c, l, stuck, vs) && v < |vs| && ValidatorOk(c, l, stuck, pc)
    ensures ValidatorsInv(c, l, stuck, vs[v := pc])
  {
  }

  // ---------------------------------------------------------------- steps of miners

  lemma ReadTipIsOnTip(c: Config, l: LedgerState)
    requires ConfigOk(c) && LedgerInv(c, l, false) && TipFor(l).Some?
    ensures var prev := TipFor(l).value; |prev| == HASH_SIZE && Canonical(prev) && OnTip(c.pow, l, prev)
  {
    if l.count == 0 {
      CStrOfZeros(HASH_SIZE);
      assert Pad([], HASH_SIZE) == Zeros(HASH_SIZE);
    } else {
      assert HashShape(c.pow.hash(l.blocks[l.count - 1]));
      StrNCpyCanonical(l.lastHash, HASH_SIZE);
      CanonicalSame(TipFor(l).value, l.lastHash);
    }
  }

  lemma ReadTipKeeps(c: Config, s: State, i: nat)
    requires ConfigOk(c) && ChainInv(c, s) && Enabled(c, s, MinerReadsTip(i))
    ensures ChainInv(c, Do(c, s, MinerReadsTip(i))) && Do(c, s, MinerReadsTip(i)).fault == s.fault
  {
    var m := s.miners[i];
    assert MinerOk(c, s.ledger, false, m);
    match TipFor(s.ledger)
    case Some(prev) =>
      ReadTipIsOnTip(c, s.ledger);
      SetMinerKeeps(c, s.ledger, false, s.miners, i, m.(pc := Ready(m.pc.txs, prev)));
    case None =>
      SetMinerKeeps(c, s.ledger, false, s.miners, i, m.(pc := Stopped));
  }

  lemma CandidateWellFormed(c: Config, s: State, i: nat, timestamp: int)
    requires ConfigOk(c) && MinersInv(c, s.ledger, s.ledgerStuck, s.miners) && i < |s.miners| && s.miners[i].pc.Ready?
    ensures var b := Candidate(s, i, timestamp);
            WellFormed(b, c.txsPerBlock) && b.prev == s.miners[i].pc.prev && MinedId(c, b.id)
  {
    var m, b := s.miners[i], Candidate(s, i, timestamp);
    assert MinerOk(c, s.ledger, s.ledgerStuck, m);
    BlockIdFieldPrefix(i + 1, m.blockNumber);
    StrNCpyCanonical(m.pc.prev, HASH_SIZE);
    CanonicalSame(b.prev, m.pc.prev);
  }

  lemma MineKeeps(c: Config, s: State, i: nat, timestamp: int)
    requires ConfigOk(c) && ChainInv(c, s) && Enabled(c, s, MinerMines(i, timestamp))
    ensures ChainInv(c, Do(c, s, MinerMines(i, timestamp))) && Do(c, s, MinerMines(i, timestamp)).fault == s.fault
  {
    var m, b := s.miners[i], Candidate(s, i, timestamp);
    CandidateWellFormed(c, s, i, timestamp);
    assert MinerOk(c, s.ledger, s.ledgerStuck, m);
    assert FlyOk(c, s.ledger, s.ledgerStuck, b.(nonce := c.pow.mine(b).value));
    SetMinerKeeps(c, s.ledger, s.ledgerStuck, s.miners, i, Miner(Idle, m.blockNumber + 1));
  }

  lemma PickKeeps(c: Config, s: State, i: nat, txs: seq<Tx>)
    requires ConfigOk(c) && ChainInv(c, s) && SlotIdsOk(s) && Enabled(c, s, MinerPicks(i, txs))
    ensures ChainInv(c, Do(c, s, MinerPicks(i, txs)))
  {
    forall k | 0 <= k < |txs| ensures |txs[k].id| == TX_ID_LEN && Canonical(txs[k].id) {
      assert Selectable(s.pool.slots, txs[k]);
      SelectionIsListed(s.pool.slots, txs[k]);
    }
    SetMinerKeeps(c, s.ledger, s.ledgerStuck, s.miners, i, s.miners[i].(pc := Picked(txs)));
  }

  // ---------------------------------------------------------------- steps of validators

  /** Genesis is created where the ledger was empty, and everything in flight is still on a tip. */
  lemma StartKeeps(c: Config, s: State, v: nat)
    requires ConfigOk(c) && ChainInv(c, s) && Enabled(c, s, ValidatorStarts(v))
    ensures ChainInv(c, Do(c, s, ValidatorStarts(v))) && Do(c, s, ValidatorStarts(v)).fault == s.fault
    ensures Grows(s.ledger, Do(c, s, ValidatorStarts(v)).ledger)
  {
    var l := s.ledger;
    if l.count == 0 {
      GenesisKeepsChain(c.pow, c.txsPerBlock, l, c.pow.mine(ZeroBlock(c.txsPerBlock)).value);
    }
    var l' := Start(c, s, v).ledger;
    FlightGrows(c, l, l', s.miners, s.pipe, s.validators);
    SetValidatorKeeps(c, l', false, s.validators, v, Waiting);
  }

  /**
   The optimistic append: an equal tip means the ledger is the one the miner saw, so there is room, although the
   validator never looks; and a block mined on the empty tip cannot match.
   */
  lemma MatchingTipHasRoom(c: Config, l: LedgerState, prev: seq<Byte>)
    requires PowOk(c.pow) && ChainOk(c.pow, c.txsPerBlock, l) && NoCollision(c.pow, l)
    requires |prev| == HASH_SIZE && Canonical(prev) && OnTip(c.pow, l, prev)
    requires l.count > 0 && TipMatches(prev, l.lastHash)
    ensures prev == l.lastHash && l.count < |l.blocks|
  {
    TipMatchesExactly(c.pow, c.txsPerBlock, l, prev);
    var k :| 0 <= k < l.count && k + 1 < |l.blocks| && prev == c.pow.hash(l.blocks[k]);
    if k < l.count - 1 {
      TipsDistinct(c.pow, c.txsPerBlock, l, k, l.count - 1);
    }
  }

  lemma ExtendedLedgerInv(c: Config, l: LedgerState, b: Block)
    requires PowOk(c.pow) && LedgerInv(c, l, false) && 0 < l.count < |l.blocks| && b.prev == l.lastHash
    requires WellFormed(b, c.txsPerBlock) && MinedId(c, b.id) && c.pow.verify(b)
    ensures LedgerInv(c, Extended(c.pow, l, b), false) && Grows(l, Extended(c.pow, l, b))
  {
    ExtendedKeepsChain(c.pow, c.txsPerBlock, l, b);
  }

  /** An append that happens is in bounds and extends the ledger by exactly the block at hand. */
  lemma AppendIsExtension(c: Config, s: State, v: nat)
    requires ConfigOk(c) && ChainInv(c, s) && CollisionFree(c, s) && !s.ledgerStuck
    requires v < |s.validators| && s.validators[v].Holding?
    requires TipMatches(s.validators[v].block.prev, s.ledger.lastHash)
    ensures var b, l := s.validators[v].block, s.ledger;
            && 0 < l.count < |l.blocks| && l.lastIndex + 1 == l.count && AppendInBounds(c, l, b)
            && Append(l, b, c.pow.hash(b)) == Extended(c.pow, l, b)
            && LedgerInv(c, Extended(c.pow, l, b), false) && Grows(l, Extended(c.pow, l, b))
  {
    var b, l := s.validators[v].block, s.ledger;
    assert ValidatorOk(c, l, false, s.validators[v]);
    MatchingTipHasRoom(c, l, b.prev);
    AppendKeepsChain(c.pow, c.txsPerBlock, l, b);
    ExtendedLedgerInv(c, l, b);
  }

  lemma FlightMovesOn(c: Config, l: LedgerState, l': LedgerState, miners: seq<Miner>, pipe: seq<Block>,
                      vs: seq<ValidatorPc>, v: nat, pc: ValidatorPc)
    requires Grows(l, l') && FlightInv(c, l, false, miners, pipe, vs) && v < |vs| && ValidatorOk(c, l', false, pc)
    ensures FlightInv(c, l', false, miners, pipe, vs[v := pc])
  {
    FlightGrows(c, l, l', miners, pipe, vs);
    SetValidatorKeeps(c, l', false, vs, v, pc);
  }

  lemma DoAppends(c: Config, s: State, v: nat, timestamp: int)
    requires Enabled(c, s, ValidatorAppends(v, timestamp))
    ensures Do(c, s, ValidatorAppends(v, timestamp)) == AppendBlock(c, s, v, timestamp)
  {
  }

  /** The state after validator `v` has appended its block in the next slot. */
  ghost function Appended(c: Config, s: State, v: nat, timestamp: int): (r: State)
    requires v < |s.validators| && s.validators[v].Holding? && s.ledger.count < |s.ledger.blocks|
  {
    var b, l := s.validators[v].block, s.ledger;
    SetValidator(s, v, Reporting(ValidMessage(b, l.count, timestamp))).(
      ledger := Extended(c.pow, l, b), h := Moved(s.h, TxNames(b.txs), InLedger(l.count)))
  }

  lemma AppendInPlace(c: Config, s: State, v: nat, timestamp: int)
    requires v < |s.validators| && s.validators[v].Holding? && TipMatches(s.validators[v].block.prev, s.ledger.lastHash)
    requires var b, l := s.validators[v].block, s.ledger;
             && l.count < |l.blocks| && l.lastIndex + 1 == l.count && AppendInBounds(c, l, b)
             && Append(l, b, c.pow.hash(b)) == Extended(c.pow, l, b)
    ensures AppendBlock(c, s, v, timestamp) == Appended(c, s, v, timestamp)
  {
  }

  /** An append on a matching tip: the whole new state. */
  lemma MatchingAppend(c: Config, s: State, v: nat, timestamp: int)
    requires ConfigOk(c) && ChainInv(c, s) && CollisionFree(c, s) && Enabled(c, s, ValidatorAppends(v, timestamp))
    requires TipMatches(s.validators[v].block.prev, s.ledger.lastHash)
    ensures 0 < s.ledger.count < |s.ledger.blocks| && s.ledger.lastIndex + 1 == s.ledger.count
    ensures Do(c, s, ValidatorAppends(v, timestamp)) == Appended(c, s, v, timestamp)
  {
    AppendIsExtension(c, s, v);
    AppendInPlace(c, s, v, timestamp);
    DoAppends(c, s, v, timestamp);
  }

  lemma AppendKeeps(c: Config, s: State, v: nat, timestamp: int)
    requires ConfigOk(c) && ChainInv(c, s) && CollisionFree(c, s) && Enabled(c, s, ValidatorAppends(v, timestamp))
    ensures ChainInv(c, Do(c, s, ValidatorAppends(v, timestamp)))
    ensures Do(c, s, ValidatorAppends(v, timestamp)).fault == s.fault
    ensures Grows(s.ledger, Do(c, s, ValidatorAppends(v, timestamp)).ledger)
  {
    if TipMatches(s.validators[v].block.prev, s.ledger.lastHash) {
      MatchingAppend(c, s, v, timestamp);
      AppendIsExtension(c, s, v);
      AppendedKeeps(c, s, v, timestamp);
    } else {
      DoAppends(c, s, v, timestamp);
      RefusalKeeps(c, s, v, timestamp);
    }
  }

  lemma AppendedKeeps(c: Config, s: State, v: nat, timestamp: int)
    requires v < |s.validators| && s.validators[v].Holding? && s.ledger.count < |s.ledger.blocks| && !s.ledgerStuck
    requires FlightInv(c, s.ledger, false, s.miners, s.pipe, s.validators)
    requires var l' := Extended(c.pow, s.ledger, s.validators[v].block); LedgerInv(c, l', false) && Grows(s.ledger, l')
    ensures ChainInv(c, Appended(c, s, v, timestamp))
  {
    var b, l := s.validators[v].block, s.ledger;
    FlightMovesOn(c, l, Extended(c.pow, l, b), s.miners, s.pipe, s.validators, v,
        Reporting(ValidMessage(b, l.count, timestamp)));
  }

  lemma RefusalKeeps(c: Config, s: State, v: nat, timestamp: int)
    requires ChainInv(c, s) && !s.ledgerStuck && v < |s.validators| && s.validators[v].Holding?
    requires !TipMatches(s.validators[v].block.prev, s.ledger.lastHash)
    ensures var r := AppendBlock(c, s, v, timestamp); ChainInv(c, r) && r.fault == s.fault && Grows(s.ledger, r.ledger)
  {
    assert ValidatorOk(c, s.ledger, false, s.validators[v]);
    SetValidatorKeeps(c, s.ledger, false, s.validators, v, Waiting);
  }

  /** Moving one validator's program counter, and nothing else that the invariant looks at. */
  lemma PcKeeps(c: Config, s: State, r: State, v: nat, pc: ValidatorPc)
    requires ChainInv(c, s) && v < |s.validators| && ValidatorOk(c, s.ledger, s.ledgerStuck, pc)
    requires r.ledger == s.ledger && r.ledgerStuck == s.ledgerStuck && r.miners == s.miners && r.pipe == s.pipe
    requires r.validators == s.validators[v := pc]
    ensures ChainInv(c, r)
  {
    SetValidatorKeeps(c, s.ledger, s.ledgerStuck, s.validators, v, pc);
  }

  lemma CarriedOk(c: Config, s: State, v: nat)
    requires ChainInv(c, s) && v < |s.validators|
    ensures ValidatorOk(c, s.ledger, s.ledgerStuck, s.validators[v])
  {
  }

  lemma ReadKeeps(c: Config, s: State, v: nat)
    requires ChainInv(c, s) && Enabled(c, s, ValidatorReads(v))
    ensures ChainInv(c, Do(c, s, ValidatorReads(v)))
  {
    assert ValidatorOk(c, s.ledger, s.ledgerStuck, s.validators[v]);
    assert FlyOk(c, s.ledger, s.ledgerStuck, s.pipe[0]);
    SetValidatorKeeps(c, s.ledger, s.ledgerStuck, s.validators, v, Received(s.pipe[0]));
  }

  lemma CheckKeeps(c: Config, s: State, v: nat)
    requires ChainInv(c, s) && Enabled(c, s, ValidatorChecks(v))
    ensures ChainInv(c, Do(c, s, ValidatorChecks(v)))
  {
    var b := s.validators[v].block;
    CarriedOk(c, s, v);
    var pc := if FirstCheck(c, s.ledger, b) then Passed(b) else Reporting(InvalidMessage(b));
    PcKeeps(c, s, Do(c, s, ValidatorChecks(v)), v, pc);
  }

  lemma CommitFrame(s: State, v: nat)
    requires v < |s.validators| && s.validators[v].Passed?
    ensures var b, r := s.validators[v].block, CommitBlock(s, v);
            r == SetValidator(s, v, if Accepts(s.pool.slots, b.txs) then Holding(b) else Reporting(InvalidMessage(b))).(
                   pool := r.pool, h := r.h)
  {
  }

  lemma CommitKeeps(c: Config, s: State, v: nat)
    requires ChainInv(c, s) && Enabled(c, s, ValidatorCommits(v))
    ensures ChainInv(c, Do(c, s, ValidatorCommits(v)))
  {
    var b := s.validators[v].block;
    CarriedOk(c, s, v);
    CommitFrame(s, v);
    var pc := if Accepts(s.pool.slots, b.txs) then Holding(b) else Reporting(InvalidMessage(b));
    PcKeeps(c, s, CommitBlock(s, v), v, pc);
  }

  lemma ReportKeeps(c: Config, s: State, v: nat, sent: bool)
    requires ChainInv(c, s) && Enabled(c, s, ValidatorReports(v, sent))
    ensures ChainInv(c, Do(c, s, ValidatorReports(v, sent)))
  {
    CarriedOk(c, s, v);
    PcKeeps(c, s, Do(c, s, ValidatorReports(v, sent)), v, Waiting);
  }

  lemma DieFrame(s: State, v: nat)
    requires v < |s.validators|
    ensures Die(s, v) == SetValidator(s, v, Dead).(h := Die(s, v).h, log := Die(s, v).log)
  {
  }

  lemma DieKeeps(c: Config, s: State, v: nat)
    requires ChainInv(c, s) && Enabled(c, s, ValidatorDies(v))
    ensures ChainInv(c, Do(c, s, ValidatorDies(v)))
  {
    DieFrame(s, v);
    PcKeeps(c, s, Die(s, v), v, Dead);
  }

  lemma DieInPoolKeeps(c: Config, s: State, v: nat, pool: PoolState)
    requires ChainInv(c, s) && Enabled(c, s, ValidatorDiesInPool(v, pool))
    ensures ChainInv(c, Do(c, s, ValidatorDiesInPool(v, pool)))
  {
    SetValidatorKeeps(c, s.ledger, s.ledgerStuck, s.validators, v, Dead);
  }

  lemma DieInLedgerKeeps(c: Config, s: State, v: nat, ledger: LedgerState)
    requires ChainInv(c, s) && Enabled(c, s, ValidatorDiesInLedger(v, ledger))
    ensures ChainInv(c, Do(c, s, ValidatorDiesInLedger(v, ledger)))
    ensures !Do(c, s, ValidatorDiesInLedger(v, ledger)).fault
  {
    var vs := s.validators[v := Dead];
    SetValidatorKeeps(c, s.ledger, false, s.validators, v, Dead);
    FlightStuck(c, s.ledger, ledger, s.miners, s.pipe, vs);
    assert Die(s, v).validators == vs;
  }

  lemma JoinKeeps(c: Config, s: State)
    requires ChainInv(c, s) && Enabled(c, s, ValidatorJoins)
    ensures ChainInv(c, Do(c, s, ValidatorJoins))
  {
    var vs := s.validators + [Starting];
    forall v | 0 <= v < |vs| ensures ValidatorOk(c, s.ledger, s.ledgerStuck, vs[v]) {
      if v < |s.validators| {
        assert vs[v] == s.validators[v];
      }
    }
  }

  lemma AbandonKeeps(c: Config, s: State, i: nat, numbered: bool)
    requires ChainInv(c, s) && Enabled(c, s, MinerAbandons(i, numbered))
    ensures ChainInv(c, Do(c, s, MinerAbandons(i, numbered)))
  {
    SetMinerKeeps(c, s.ledger, s.ledgerStuck, s.miners, i, Abandoned(s.miners[i], numbered));
  }

  // ---------------------------------------------------------------- all steps

  lemma InitChain(c: Config)
    ensures ChainInv(c, Init(c)) && SlotIdsOk(Init(c))
  {
  }

  /** Steps that touch neither the ledger nor any block on its way to it. */
  predicate Elsewhere(a: Step)
  {
    a.GeneratorJoins? || a.Generates? || a.GeneratorDiesInPool? || a.StatsReceives? || a.StatsReads?
  }

  predicate OfMiner(a: Step) { a.MinerPicks? || a.MinerReadsTip? || a.MinerMines? || a.MinerAbandons? }

  predicate WritesLedger(a: Step) { a.ValidatorStarts? || a.ValidatorAppends? || a.ValidatorDiesInLedger? }

  lemma ElsewhereFrame(c: Config, s: State, a: Step)
    requires Enabled(c, s, a) && Elsewhere(a)
    ensures var r := Do(c, s, a);
            && r.ledger == s.ledger && r.ledgerStuck == s.ledgerStuck && r.miners == s.miners
            && r.pipe == s.pipe && r.validators == s.validators
            && (r.fault ==> a.StatsReceives? || a.StatsReads?)
  {
  }

  lemma MinerStepKeeps(c: Config, s: State, a: Step)
    requires ConfigOk(c) && ChainInv(c, s) && SlotIdsOk(s) && Enabled(c, s, a) && OfMiner(a)
    ensures ChainInv(c, Do(c, s, a))
  {
    match a
    case MinerPicks(i, txs) => PickKeeps(c, s, i, txs);
    case MinerReadsTip(i) => ReadTipKeeps(c, s, i);
    case MinerMines(i, timestamp) => MineKeeps(c, s, i, timestamp);
    case MinerAbandons(i, numbered) => AbandonKeeps(c, s, i, numbered);
  }

  lemma ValidatorStepKeeps(c: Config, s: State, a: Step)
    requires ConfigOk(c) && ChainInv(c, s) && CollisionFree(c, s) && Enabled(c, s, a)
    requires a.ValidatorJoins? || a.ValidatorReads? || a.ValidatorChecks? || a.ValidatorCommits? || a.ValidatorReports?
    ensures ChainInv(c, Do(c, s, a))
  {
    match a
    case ValidatorJoins => JoinKeeps(c, s);
    case ValidatorReads(v) => ReadKeeps(c, s, v);
    case ValidatorChecks(v) => CheckKeeps(c, s, v);
    case ValidatorCommits(v) => CommitKeeps(c, s, v);
    case ValidatorReports(v, sent) => ReportKeeps(c, s, v, sent);
  }

  /** Every step of every process keeps the chain, as long as the ledger's blocks have not collided. */
  lemma StepKeepsChain(c: Config, s: State, a: Step)
    requires ConfigOk(c) && ChainInv(c, s) && SlotIdsOk(s) && CollisionFree(c, s) && Enabled(c, s, a)
    ensures ChainInv(c, Do(c, s, a))
  {
    if Elsewhere(a) {
      ElsewhereFrame(c, s, a);
    } else if OfMiner(a) {
      MinerStepKeeps(c, s, a);
    } else if a.ValidatorStarts? {
      StartKeeps(c, s, a.v);
    } else if a.ValidatorAppends? {
      AppendKeeps(c, s, a.v, a.timestamp);
    } else if a.ValidatorDies? {
      DieKeeps(c, s, a.v);
    } else if a.ValidatorDiesInPool? {
      DieInPoolKeeps(c, s, a.v, a.pool);
    } else if a.ValidatorDiesInLedger? {
      DieInLedgerKeeps(c, s, a.v, a.ledger);
    } else {
      ValidatorStepKeeps(c, s, a);
    }
  }

  lemma MinerFrame(c: Config, s: State, a: Step)
    requires Enabled(c, s, a) && OfMiner(a)
    ensures var r := Do(c, s, a); r == s.(miners := r.miners, pipe := r.pipe)
  {
  }

  lemma ValidatorFrame(c: Config, s: State, a: Step)
    requires Enabled(c, s, a) && !OfMiner(a) && !Elsewhere(a) && !WritesLedger(a)
    ensures Do(c, s, a).ledger == s.ledger && Do(c, s, a).ledgerStuck == s.ledgerStuck && !Do(c, s, a).fault
  {
  }

  lemma GrowsItself(c: Config, s: State)
    requires ChainInv(c, s) && !s.ledgerStuck
    ensures Grows(s.ledger, s.ledger)
  {
  }

  /** No write to the ledger is out of bounds, and blocks already there never change. */
  lemma StepGrowsLedger(c: Config, s: State, a: Step)
    requires ConfigOk(c) && ChainInv(c, s) && CollisionFree(c, s) && Enabled(c, s, a)
    ensures Do(c, s, a).fault ==> a.StatsReceives? || a.StatsReads?
    ensures !s.ledgerStuck && !Do(c, s, a).ledgerStuck ==> Grows(s.ledger, Do(c, s, a).ledger)
  {
    if a.ValidatorStarts? {
      StartKeeps(c, s, a.v);
    } else if a.ValidatorAppends? {
      AppendKeeps(c, s, a.v, a.timestamp);
    } else if a.ValidatorDiesInLedger? {
      DieInLedgerKeeps(c, s, a.v, a.ledger);
    } else {
      if !s.ledgerStuck {
        GrowsItself(c, s);
      }
      if Elsewhere(a) {
        ElsewhereFrame(c, s, a);
      } else if OfMiner(a) {
        MinerFrame(c, s, a);
      } else {
        ValidatorFrame(c, s, a);
      }
    }
  }
}
