/**
 Where things come from in a run: every block in the pipe, in a validator's hands or in the ledger was selected, put on
 a tip and mined by one miner thread in three steps; its id is its own; and generators number what they insert.
 */
module Origins {
  import opened CStrings
  import opened Records
  import opened Pow
  import opened Pool
  import opened Ledger
  import opened Protocol
  import opened PipeLink
  import opened ChainInvariant
  import opened TxInvariant
  import opened Theorems
  import opened Fates

  // ---------------------------------------------------------------- one miner's moves

  predicate MovesMiner(a: Step, i: nat)
  {
    match a
    case MinerPicks(j, _) => j == i
    case MinerReadsTip(j) => j == i
    case MinerMines(j, _) => j == i
    case MinerAbandons(j, _) => j == i
    case _ => false
  }

  lemma ValidatorsLeaveMiners(c: Config, s: State, a: Step)
    requires Enabled(c, s, a) && !OfMiner(a) && !Elsewhere(a)
    ensures Do(c, s, a).miners == s.miners
  {
    if a.ValidatorAppends? {
      DoAppends(c, s, a.v, a.timestamp);
    }
  }

  lemma OtherMiners(c: Config, s: State, a: Step, i: nat)
    requires Enabled(c, s, a) && !MovesMiner(a, i) && i < |s.miners|
    ensures i < |Do(c, s, a).miners| && Do(c, s, a).miners[i] == s.miners[i]
  {
    if Elsewhere(a) {
      ElsewhereFrame(c, s, a);
    } else if !OfMiner(a) {
      ValidatorsLeaveMiners(c, s, a);
    }
  }

  /** From where to where a thread's own steps lead. */
  ghost predicate ThreadMoves(s: State, a: Step, m: Miner, m': Miner)
  {
    match a
    case MinerPicks(_, txs) => m' == Miner(Picked(txs), m.blockNumber)
    case MinerReadsTip(_) =>
      && m.pc.Picked? && m'.blockNumber == m.blockNumber
      && (m'.pc.Ready? ==> m'.pc.txs == m.pc.txs && TipFor(s.ledger) == Some(m'.pc.prev))
      && (m'.pc.Ready? || m'.pc.Stopped?)
    case MinerMines(_, _) => m.pc.Ready? && m' == Miner(Idle, m.blockNumber + 1)
    case MinerAbandons(_, _) => m'.pc == Idle && m.blockNumber <= m'.blockNumber
    case _ => false
  }

  lemma OwnMove(c: Config, s: State, a: Step, i: nat)
    requires Enabled(c, s, a) && MovesMiner(a, i)
    ensures i < |s.miners| == |Do(c, s, a).miners| && ThreadMoves(s, a, s.miners[i], Do(c, s, a).miners[i])
  {
  }

  // ---------------------------------------------------------------- selection, tip, mining

  ghost predicate Quiet(steps: seq<Step>, from: nat, to: nat, i: nat)
  {
    forall m: nat :: from < m < to && m < |steps| ==> !MovesMiner(steps[m], i)
  }

  ghost predicate PickedAt(steps: seq<Step>, x: nat, k: nat, i: nat, txs: seq<Tx>)
  {
    x < k <= |steps| && steps[x] == MinerPicks(i, txs) && Quiet(steps, x, k, i)
  }

  lemma {:induction false} WherePicked(c: Config, states: seq<State>, steps: seq<Step>, k: nat, i: nat) returns (x: nat)
    requires Run(c, states, steps) && k < |states| && i < |states[k].miners| && states[k].miners[i].pc.Picked?
    ensures PickedAt(steps, x, k, i, states[k].miners[i].pc.txs)
  {
    ThreadsStay(c, states, steps, k);
    NextThread(c, states, steps, k - 1, i);
    if MovesMiner(steps[k - 1], i) {
      x := k - 1;
    } else {
      x := WherePicked(c, states, steps, k - 1, i);
    }
  }

  lemma NextThread(c: Config, states: seq<State>, steps: seq<Step>, k: nat, i: nat)
    requires Run(c, states, steps) && k + 1 < |states| && i < |states[k + 1].miners|
    ensures i < |states[k].miners|
    ensures var m, m' := states[k].miners[i], states[k + 1].miners[i];
            if MovesMiner(steps[k], i) then ThreadMoves(states[k], steps[k], m, m') else m' == m
  {
    ThreadsStay(c, states, steps, k);
    ThreadsStay(c, states, steps, k + 1);
    RunStep(c, states, steps, k);
    if MovesMiner(steps[k], i) {
      OwnMove(c, states[k], steps[k], i);
    } else {
      OtherMiners(c, states[k], steps[k], i);
    }
  }

  lemma {:induction false} ThreadsStay(c: Config, states: seq<State>, steps: seq<Step>, k: nat)
    requires Run(c, states, steps) && k < |states|
    ensures |states[k].miners| == c.numMiners
    ensures k == 0 ==> forall i :: 0 <= i < c.numMiners ==> states[k].miners[i] == Miner(Idle, 0)
  {
    if k > 0 {
      ThreadsStay(c, states, steps, k - 1);
      RunStep(c, states, steps, k - 1);
      NumberOfThreads(c, states[k - 1], steps[k - 1]);
    }
  }

  lemma NumberOfThreads(c: Config, s: State, a: Step)
    requires Enabled(c, s, a)
    ensures |Do(c, s, a).miners| == |s.miners|
  {
    if Elsewhere(a) {
      ElsewhereFrame(c, s, a);
    } else if !OfMiner(a) {
      ValidatorsLeaveMiners(c, s, a);
    }
  }

  ghost predicate ReadyAt(states: seq<State>, steps: seq<Step>, x: nat, y: nat, k: nat, i: nat, txs: seq<Tx>,
                          prev: seq<Byte>)
  {
    && PickedAt(steps, x, y, i, txs) && y < k <= |steps| < |states| && steps[y] == MinerReadsTip(i)
    && TipFor(states[y].ledger) == Some(prev) && Quiet(steps, y, k, i)
  }

  lemma {:induction false} WhereReady(c: Config, states: seq<State>, steps: seq<Step>, k: nat, i: nat)
    returns (x: nat, y: nat)
    requires Run(c, states, steps) && k < |states| && i < |states[k].miners| && states[k].miners[i].pc.Ready?
    ensures ReadyAt(states, steps, x, y, k, i, states[k].miners[i].pc.txs, states[k].miners[i].pc.prev)
  {
    ThreadsStay(c, states, steps, k);
    NextThread(c, states, steps, k - 1, i);
    if MovesMiner(steps[k - 1], i) {
      y := k - 1;
      x := WherePicked(c, states, steps, y, i);
    } else {
      x, y := WhereReady(c, states, steps, k - 1, i);
    }
  }

  /**
   Thread `i + 1` made block `b` before state `k`: it picked exactly its transactions from the pool, then read the tip
   it names, and then mined it, doing nothing else in between; the block has the thread's id and number and the nonce
   that mining finds.
   */
  ghost predicate MadeBy(c: Config, states: seq<State>, steps: seq<Step>, k: nat, b: Block,
                         i: nat, x: nat, y: nat, z: nat)
  {
    && x < y < z < k <= |steps| < |states|
    && steps[x] == MinerPicks(i, b.txs) && Selection(states[x].pool, c.txsPerBlock, b.txs)
    && steps[y] == MinerReadsTip(i) && TipFor(states[y].ledger) == Some(b.prev)
    && steps[z] == MinerMines(i, b.timestamp) && Quiet(steps, x, y, i) && Quiet(steps, y, z, i)
    && i < |states[z].miners| && b.id == BlockIdField(i + 1, states[z].miners[i].blockNumber)
    && c.pow.mine(b.(nonce := 0)) == Some(b.nonce)
  }

  /** What a mining step puts into the pipe. */
  lemma MiningEffect(c: Config, s: State, i: nat, timestamp: int) returns (b: Block)
    requires Enabled(c, s, MinerMines(i, timestamp))
    ensures Do(c, s, MinerMines(i, timestamp)).pipe == s.pipe + [b]
    ensures i < |s.miners| && s.miners[i].pc.Ready? && b.txs == s.miners[i].pc.txs
    ensures b.prev == StrNCpy(s.miners[i].pc.prev, HASH_SIZE) && b.timestamp == timestamp
    ensures b.id == BlockIdField(i + 1, s.miners[i].blockNumber) && c.pow.mine(b.(nonce := 0)) == Some(b.nonce)
  {
    b := MinedBlock(c, s, i, timestamp);
    assert b.(nonce := 0) == Candidate(s, i, timestamp);
  }

  lemma PickWasSelection(c: Config, states: seq<State>, steps: seq<Step>, x: nat)
    requires Run(c, states, steps) && x < |steps| && steps[x].MinerPicks?
    ensures Selection(states[x].pool, c.txsPerBlock, steps[x].txs)
  {
    RunStep(c, states, steps, x);
  }

  lemma MiningMakes(c: Config, states: seq<State>, steps: seq<Step>, z: nat) returns (b: Block, i: nat, x: nat, y: nat)
    requires Run(c, states, steps) && z < |steps| && steps[z].MinerMines?
    ensures states[z + 1].pipe == states[z].pipe + [b] && MadeBy(c, states, steps, z + 1, b, i, x, y, z)
  {
    i := steps[z].i;
    RunStep(c, states, steps, z);
    b := MiningEffect(c, states[z], i, steps[z].timestamp);
    x, y := WhereReady(c, states, steps, z, i);
    PickWasSelection(c, states, steps, x);
    StrNCpyTwice(states[y].ledger.lastHash, HASH_SIZE);
  }

  // ---------------------------------------------------------------- blocks on their way

  ghost predicate Carried(s: State, b: Block)
  {
    exists v :: 0 <= v < |s.validators| && CarriesBlock(s.validators[v]) && s.validators[v].block == b
  }

  ghost predicate Stored(s: State, b: Block)
  {
    !s.ledgerStuck && exists j :: 1 <= j < s.ledger.count <= |s.ledger.blocks| && s.ledger.blocks[j] == b
  }

  /** In the pipe, with a validator, or in the ledger behind genesis. */
  ghost predicate Around(s: State, b: Block)
  {
    b in s.pipe || Carried(s, b) || Stored(s, b)
  }

  lemma PipeGains(c: Config, s: State, a: Step, b: Block)
    requires Enabled(c, s, a) && b in Do(c, s, a).pipe
    ensures b in s.pipe || (a.MinerMines? && Do(c, s, a).pipe == s.pipe + [b])
  {
    StepMovesPipe(c, s, a);
  }

  /** Taking a block from the pipe is the only way a validator comes by one. */
  lemma ValidatorsGain(c: Config, s: State, a: Step, b: Block)
    requires Enabled(c, s, a) && Carried(Do(c, s, a), b)
    ensures Carried(s, b) || b in s.pipe
  {
    var r := Do(c, s, a);
    var v :| 0 <= v < |r.validators| && CarriesBlock(r.validators[v]) && r.validators[v].block == b;
    if !Moves(a, v) && v < |s.validators| {
      OthersLeaveAlone(c, s, a, v);
      assert CarriesBlock(s.validators[v]) && s.validators[v].block == b;
    } else {
      OwnBlock(c, s, a, v);
    }
  }

  /** A validator that has made a step has its block from the pipe or has had it before. */
  lemma OwnBlock(c: Config, s: State, a: Step, v: nat)
    requires Enabled(c, s, a) && (Moves(a, v) || v >= |s.validators|)
    requires v < |Do(c, s, a).validators| && CarriesBlock(Do(c, s, a).validators[v])
    ensures Carried(s, Do(c, s, a).validators[v].block) || Do(c, s, a).validators[v].block in s.pipe
  {
    if Elsewhere(a) {
      ElsewhereFrame(c, s, a);
    } else if OfMiner(a) {
      MinerFrame(c, s, a);
    } else if a.ValidatorChecks? || a.ValidatorCommits? {
      SameBlock(c, s, a);
      assert CarriesBlock(s.validators[v]);
    } else if !a.ValidatorReads? {
      NoBlock(c, s, a, v);
    }
  }

  lemma SameBlock(c: Config, s: State, a: Step)
    requires Enabled(c, s, a) && (a.ValidatorChecks? || a.ValidatorCommits?)
    ensures a.v < |s.validators| == |Do(c, s, a).validators| && CarriesBlock(s.validators[a.v])
    ensures var pc := Do(c, s, a).validators[a.v]; CarriesBlock(pc) ==> pc.block == s.validators[a.v].block
  {
  }

  lemma NoBlock(c: Config, s: State, a: Step, v: nat)
    requires Enabled(c, s, a) && (Moves(a, v) || v >= |s.validators|) && v < |Do(c, s, a).validators|
    requires !Elsewhere(a) && !OfMiner(a) && !a.ValidatorReads? && !a.ValidatorChecks? && !a.ValidatorCommits?
    ensures CarriesBlock(Do(c, s, a).validators[v]) ==>
              v < |s.validators| && Do(c, s, a).validators[v] == s.validators[v]
  {
    if a.ValidatorAppends? {
      DoAppends(c, s, a.v, a.timestamp);
    } else if a.ValidatorDies? || a.ValidatorDiesInPool? || a.ValidatorDiesInLedger? {
      DeadHasNoBlock(c, s, a);
    } else if a.ValidatorStarts? {
      StartHasNoBlock(c, s, a.v);
    }
  }

  lemma DeadHasNoBlock(c: Config, s: State, a: Step)
    requires Enabled(c, s, a) && (a.ValidatorDies? || a.ValidatorDiesInPool? || a.ValidatorDiesInLedger?)
    ensures a.v < |Do(c, s, a).validators| == |s.validators| && Do(c, s, a).validators[a.v] == Dead
  {
    DieFrame(s, a.v);
  }

  lemma StartHasNoBlock(c: Config, s: State, v: nat)
    requires Enabled(c, s, ValidatorStarts(v))
    ensures v < |Do(c, s, ValidatorStarts(v)).validators| == |s.validators|
    ensures !CarriesBlock(Do(c, s, ValidatorStarts(v)).validators[v])
  {
  }

  /** Appending what a validator holds is the only way the ledger comes by a block behind genesis. */
  lemma LedgerGains(c: Config, s: State, a: Step, b: Block)
    requires ConfigOk(c) && ChainInv(c, s) && CollisionFree(c, s) && Enabled(c, s, a) && Stored(Do(c, s, a), b)
    ensures Stored(s, b) || Carried(s, b)
  {
    var r := Do(c, s, a);
    if a.ValidatorAppends? {
      AppendGains(c, s, a.v, a.timestamp, b);
    } else if a.ValidatorStarts? {
      StartGains(c, s, a.v, b);
    } else if Elsewhere(a) {
      ElsewhereFrame(c, s, a);
    } else if OfMiner(a) {
      MinerFrame(c, s, a);
    } else if !WritesLedger(a) {
      ValidatorFrame(c, s, a);
    }
  }

  lemma AppendGains(c: Config, s: State, v: nat, timestamp: int, b: Block)
    requires ConfigOk(c) && ChainInv(c, s) && CollisionFree(c, s) && Enabled(c, s, ValidatorAppends(v, timestamp))
    requires Stored(Do(c, s, ValidatorAppends(v, timestamp)), b)
    ensures Stored(s, b) || Carried(s, b)
  {
    assert CarriesBlock(s.validators[v]);
    if TipMatches(s.validators[v].block.prev, s.ledger.lastHash) {
      MatchingAppend(c, s, v, timestamp);
    } else {
      DoAppends(c, s, v, timestamp);
    }
  }

  lemma StartGains(c: Config, s: State, v: nat, b: Block)
    requires Enabled(c, s, ValidatorStarts(v)) && Stored(Do(c, s, ValidatorStarts(v)), b)
    ensures Stored(s, b)
  {
  }

  lemma AroundGains(c: Config, s: State, a: Step, b: Block)
    requires ConfigOk(c) && ChainInv(c, s) && CollisionFree(c, s) && Enabled(c, s, a) && Around(Do(c, s, a), b)
    ensures Around(s, b) || (a.MinerMines? && Do(c, s, a).pipe == s.pipe + [b])
  {
    if b in Do(c, s, a).pipe {
      PipeGains(c, s, a, b);
    } else if Carried(Do(c, s, a), b) {
      ValidatorsGain(c, s, a, b);
    } else {
      LedgerGains(c, s, a, b);
    }
  }

  lemma NextGains(c: Config, states: seq<State>, steps: seq<Step>, k: nat, b: Block)
    requires ConfigOk(c) && Run(c, states, steps) && CollisionFreeRun(c, states) && k + 1 < |states|
    requires Around(states[k + 1], b)
    ensures Around(states[k], b) || (steps[k].MinerMines? && states[k + 1].pipe == states[k].pipe + [b])
  {
    RunKeepsInv(c, states, steps, k);
    RunStep(c, states, steps, k);
    AroundGains(c, states[k], steps[k], b);
  }

  lemma NothingAroundAtFirst(c: Config, states: seq<State>, steps: seq<Step>, b: Block)
    requires Run(c, states, steps)
    ensures !Around(states[0], b)
  {
  }

  /**
   A miner mines what it selected, and nothing else is ever validated: every block in the pipe, in a validator's hands
   or in the ledger behind genesis was made by one thread in three steps.
   */
  lemma {:induction false} EveryBlockIsMined(c: Config, states: seq<State>, steps: seq<Step>, k: nat, b: Block)
    returns (i: nat, x: nat, y: nat, z: nat)
    requires ConfigOk(c) && Run(c, states, steps) && CollisionFreeRun(c, states) && k < |states| && Around(states[k], b)
    ensures MadeBy(c, states, steps, k, b, i, x, y, z)
  {
    if k == 0 {
      NothingAroundAtFirst(c, states, steps, b);
    } else {
      NextGains(c, states, steps, k - 1, b);
      if Around(states[k - 1], b) {
        i, x, y, z := EveryBlockIsMined(c, states, steps, k - 1, b);
      } else {
        var made;
        made, i, x, y := MiningMakes(c, states, steps, k - 1);
        z := k - 1;
        assert made == states[k].pipe[|states[k - 1].pipe|] == b;
      }
    }
  }

  // ---------------------------------------------------------------- block numbers

  lemma NumberGrows(c: Config, s: State, a: Step, i: nat)
    requires Enabled(c, s, a) && i < |s.miners|
    ensures i < |Do(c, s, a).miners|
    ensures s.miners[i].blockNumber + (if a.MinerMines? && a.i == i then 1 else 0) <= Do(c, s, a).miners[i].blockNumber
  {
    if MovesMiner(a, i) {
      OwnMove(c, s, a, i);
    } else {
      OtherMiners(c, s, a, i);
    }
  }

  lemma {:induction false} NumbersGrow(c: Config, states: seq<State>, steps: seq<Step>, x: nat, y: nat, i: nat)
    requires Run(c, states, steps) && x < y < |states| && i < c.numMiners
    ensures i < |states[x].miners| == |states[y].miners|
    ensures states[x].miners[i].blockNumber + (if steps[x].MinerMines? && steps[x].i == i then 1 else 0)
            <= states[y].miners[i].blockNumber
    decreases y
  {
    ThreadsStay(c, states, steps, x);
    ThreadsStay(c, states, steps, y);
    ThreadsStay(c, states, steps, y - 1);
    RunStep(c, states, steps, y - 1);
    NumberGrows(c, states[y - 1], steps[y - 1], i);
    if x < y - 1 {
      NumbersGrow(c, states, steps, x, y - 1, i);
    }
  }

  /** No two mining steps of a run give their blocks the same id, as long as block numbers fit an `int`. */
  lemma BlockIdsAreUnique(c: Config, states: seq<State>, steps: seq<Step>, x: nat, y: nat, b: Block, d: Block)
    requires ConfigOk(c) && Run(c, states, steps) && x < y < |steps| && steps[x].MinerMines? && steps[y].MinerMines?
    requires states[x + 1].pipe == states[x].pipe + [b] && states[y + 1].pipe == states[y].pipe + [d]
    requires forall i :: 0 <= i < |states[x].miners| ==> states[x].miners[i].blockNumber <= INT_MAX
    requires forall i :: 0 <= i < |states[y].miners| ==> states[y].miners[i].blockNumber <= INT_MAX
    ensures b.id != d.id
  {
    var i, j := steps[x].i, steps[y].i;
    IdOfMined(c, states, steps, x, b);
    IdOfMined(c, states, steps, y, d);
    if b.id == d.id {
      BlockIdsDiffer(i + 1, states[x].miners[i].blockNumber, j + 1, states[y].miners[j].blockNumber);
      NumbersGrow(c, states, steps, x, y, i);
      assert false;
    }
  }

  lemma IdOfMined(c: Config, states: seq<State>, steps: seq<Step>, x: nat, b: Block)
    requires Run(c, states, steps) && x < |steps| && steps[x].MinerMines?
    requires states[x + 1].pipe == states[x].pipe + [b]
    ensures steps[x].i < |states[x].miners| == c.numMiners
    ensures b.id == BlockIdField(steps[x].i + 1, states[x].miners[steps[x].i].blockNumber)
  {
    RunStep(c, states, steps, x);
    ThreadsStay(c, states, steps, x);
    var made := MiningEffect(c, states[x], steps[x].i, steps[x].timestamp);
    assert made == states[x + 1].pipe[|states[x].pipe|] == b;
  }

  // ---------------------------------------------------------------- generators

  /** Insertions by generator `pid` before state `k`. */
  ghost function Insertions(states: seq<State>, steps: seq<Step>, k: nat, pid: nat): (n: nat)
  {
    if k == 0 then 0
    else
      Insertions(states, steps, k - 1, pid)
      + One(k <= |steps| && InsertsAt(states, steps, k - 1, NameOfStep(steps[k - 1])) && steps[k - 1].pid == pid)
  }

  ghost function NameOfStep(a: Step): (n: Name)
  {
    if a.Generates? then NameOf(a.tx) else []
  }

  lemma GeneratorStep(c: Config, s: State, a: Step, pid: nat)
    requires Enabled(c, s, a)
    ensures var g, g' := s.generators, Do(c, s, a).generators;
            var inserts := a.Generates? && a.pid == pid && Insert(s.pool, a.tx) != s.pool;
            && (pid in g ==> pid in g' && g'[pid] == g[pid] + One(inserts))
            && (pid !in g ==> !inserts && (pid in g' ==> g'[pid] == 0))
  {
    if OfMiner(a) {
      MinerFrame(c, s, a);
    } else if a.ValidatorAppends? {
      DoAppends(c, s, a.v, a.timestamp);
    } else if a.StatsReceives? || a.StatsReads? {
      StatsFrame(c, s, a);
    }
  }

  /** Generators number their transactions from 0 on without gaps: the next number is that of insertions so far. */
  lemma {:induction false} GeneratorsCount(c: Config, states: seq<State>, steps: seq<Step>, k: nat, pid: nat)
    requires Run(c, states, steps) && k < |states|
    ensures pid in states[k].generators ==> states[k].generators[pid] == Insertions(states, steps, k, pid)
    ensures pid !in states[k].generators ==> Insertions(states, steps, k, pid) == 0
  {
    if k > 0 {
      GeneratorsCount(c, states, steps, k - 1, pid);
      RunStep(c, states, steps, k - 1);
      GeneratorStep(c, states[k - 1], steps[k - 1], pid);
    }
  }

  /** A transaction that a step of `pid` inserts is named after the number of its earlier insertions. */
  lemma InsertionIsNumbered(c: Config, states: seq<State>, steps: seq<Step>, i: nat, n: Name)
    requires Run(c, states, steps) && InsertsAt(states, steps, i, n)
    ensures n == TxName(steps[i].pid, Insertions(states, steps, i, steps[i].pid))
  {
    RunStep(c, states, steps, i);
    GeneratorsCount(c, states, steps, i, steps[i].pid);
  }

  /** The test for the id "0" excludes nothing: in a run every filled slot can be selected. */
  lemma EveryFilledSlotIsSelectable(c: Config, states: seq<State>, steps: seq<Step>, k: nat, t: Tx)
    requires ConfigOk(c) && Run(c, states, steps) && CollisionFreeRun(c, states) && k < |states| && !states[k].poolStuck
    ensures var slots := states[k].pool.slots;
            Selectable(slots, t) <==> exists j :: 0 <= j < |slots| && slots[j].filled && t == CopyOf(slots[j].tx)
  {
    RunKeepsInv(c, states, steps, k);
    var s := states[k];
    forall j | 0 <= j < |s.pool.slots| && s.pool.slots[j].filled ensures NameOf(s.pool.slots[j].tx) != ZERO_ID {
      assert NameOf(s.pool.slots[j].tx) in FilledNames(s.pool.slots);
      assert PrintedBy(s.generators, NameOf(s.pool.slots[j].tx));
    }
  }
}
