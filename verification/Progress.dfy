/**
 Nothing waits for ever on anything but a lost lock: while the locks are free, every process that has work can take a
 step of its own, in every state of a run.
 */
module Progress {
  import opened CStrings
  import opened Records
  import opened Pow
  import opened Pool
  import opened Ledger
  import opened Protocol
  import opened ChainInvariant
  import opened Theorems
  import opened Origins

  ghost predicate LocksFree(s: State)
  {
    !s.poolStuck && !s.ledgerStuck
  }

  /** A step of validator `v` that is not its end. */
  ghost predicate ValidatorStep(c: Config, s: State, a: Step, v: nat)
  {
    && Enabled(c, s, a) && Moves(a, v)
    && !a.ValidatorDies? && !a.ValidatorDiesInPool? && !a.ValidatorDiesInLedger?
  }

  /** A validator waits only for a block in the pipe, or for a genesis nonce that does not exist. */
  lemma ValidatorsCanMove(c: Config, s: State, v: nat) returns (a: Step)
    requires !s.fault && LocksFree(s) && v < |s.validators| && !s.validators[v].Dead?
    requires s.validators[v].Waiting? ==> s.pipe != []
    requires s.validators[v].Starting? && s.ledger.count == 0 ==> c.pow.mine(ZeroBlock(c.txsPerBlock)).Some?
    ensures ValidatorStep(c, s, a, v)
  {
    match s.validators[v]
    case Starting => a := ValidatorStarts(v);
    case Waiting => a := ValidatorReads(v);
    case Received(_) => a := ValidatorChecks(v);
    case Passed(_) => a := ValidatorCommits(v);
    case Holding(_) => a := ValidatorAppends(v, 0);
    case Reporting(_) => a := ValidatorReports(v, false);
  }

  /** A report goes into the queue whenever fewer than ten messages are in it. */
  lemma ReportsCanBeSent(c: Config, s: State, v: nat)
    requires !s.fault && v < |s.validators| && s.validators[v].Reporting?
    ensures Enabled(c, s, ValidatorReports(v, true)) <==> |s.queue| < 10
  {
  }

  /** A kill can come at any moment: between sections, and inside the section a validator is about to enter. */
  lemma ValidatorsCanDie(c: Config, s: State, v: nat, pool: PoolState, ledger: LedgerState)
    requires !s.fault && v < |s.validators| && !s.validators[v].Dead?
    ensures Enabled(c, s, ValidatorDies(v))
    ensures s.validators[v].Passed? && !s.poolStuck ==> Enabled(c, s, ValidatorDiesInPool(v, pool))
    ensures !s.ledgerStuck && (s.validators[v].Starting? || s.validators[v].Received? || s.validators[v].Holding?) ==>
              Enabled(c, s, ValidatorDiesInLedger(v, ledger))
  {
  }

  lemma {:induction false} FilledSlot(slots: seq<Slot>) returns (j: nat)
    requires NumFilled(slots) > 0
    ensures j < |slots| && slots[j].filled
  {
    var n := |slots| - 1;
    if slots[n].filled {
      j := n;
    } else {
      j := FilledSlot(slots[..n]);
    }
  }

  lemma SelectionExists(c: Config, states: seq<State>, steps: seq<Step>, k: nat) returns (txs: seq<Tx>)
    requires ConfigOk(c) && Run(c, states, steps) && CollisionFreeRun(c, states) && k < |states| && !states[k].poolStuck
    requires states[k].pool.count >= c.txsPerBlock
    ensures Selection(states[k].pool, c.txsPerBlock, txs)
  {
    PoolAgreement(c, states, steps, k);
    var j := FilledSlot(states[k].pool.slots);
    var t := CopyOf(states[k].pool.slots[j].tx);
    EveryFilledSlotIsSelectable(c, states, steps, k, t);
    txs := seq(c.txsPerBlock, _ => t);
  }

  /** A miner waits only for enough transactions; with a full ledger it stops, and mining ends when a nonce exists. */
  lemma MinersCanMove(c: Config, states: seq<State>, steps: seq<Step>, k: nat, i: nat, timestamp: int)
    returns (a: Step)
    requires ConfigOk(c) && Run(c, states, steps) && CollisionFreeRun(c, states) && k < |states| && LocksFree(states[k])
    requires i < |states[k].miners| && !states[k].miners[i].pc.Stopped?
    requires states[k].miners[i].pc.Idle? ==> states[k].pool.count >= c.txsPerBlock
    requires states[k].miners[i].pc.Ready? ==> c.pow.mine(Candidate(states[k], i, timestamp)).Some?
    ensures Enabled(c, states[k], a) && MovesMiner(a, i) && !a.MinerAbandons?
  {
    NeverOutOfBounds(c, states, steps, k);
    match states[k].miners[i].pc
    case Idle =>
      var txs := SelectionExists(c, states, steps, k);
      a := MinerPicks(i, txs);
    case Picked(_) => a := MinerReadsTip(i);
    case Ready(_, _) => a := MinerMines(i, timestamp);
  }

  /** A generator can always make its next transaction, of any value and reward, as long as its numbers fit an `int`. */
  lemma GeneratorsCanMove(c: Config, s: State, pid: nat, reward: int, value: int, timestamp: int) returns (tx: Tx)
    requires !s.fault && !s.poolStuck && pid in s.generators && pid <= INT_MAX && s.generators[pid] <= INT_MAX
    requires 1 <= reward <= 3
    ensures Enabled(c, s, Generates(pid, tx)) && tx.reward == reward && tx.value == value && tx.timestamp == timestamp
  {
    var name := TxName(pid, s.generators[pid]);
    PrintedIntLength(pid);
    PrintedIntLength(s.generators[pid]);
    CStrOfPad(name, TX_ID_LEN);
    tx := Tx(SnPrint(name, TX_ID_LEN), reward, value, timestamp);
  }

  /** The statistics process waits only for a message, or for the ledger. */
  lemma StatisticsCanMove(c: Config, s: State)
    requires !s.fault && !s.ledgerStuck && (s.queue != [] || s.stats.deferred.Some?)
    ensures Enabled(c, s, StatsReceives) || Enabled(c, s, StatsReads)
  {
  }
}
