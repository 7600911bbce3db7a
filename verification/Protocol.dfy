/**
 The block lifecycle as a step system: generators, miner threads, validators and the statistics process interleave
 over the pool, the ledger, the pipe and the message queue. Every critical section is one step. A process killed
 inside a critical section leaves its semaphore taken for good and the region it guards in any state whatever.
 */
module Protocol {
  import opened CStrings
  import opened Records
  import opened Pow
  import opened Pool
  import opened Ledger
  import opened Sums

  const STATISTICS_MQ_SIZE := 10

  datatype Config = Config(pow: PowInterface, numBlocks: nat, txsPerBlock: nat, poolSize: nat, numMiners: nat)

  /** The controller's checks of its configuration file; the thread count is a C `int`. */
  ghost predicate ConfigOk(c: Config)
  {
    PowOk(c.pow) && c.numBlocks >= 2 && 1 <= c.numMiners <= INT_MAX && c.poolSize >= 1 && c.txsPerBlock >= 1
  }

  // ---------------------------------------------------------------- states

  /** Where a miner thread is between its critical sections. */
  datatype MinerPc = Idle | Picked(txs: seq<Tx>) | Ready(txs: seq<Tx>, prev: seq<Byte>) | Stopped

  datatype Miner = Miner(pc: MinerPc, blockNumber: nat)

  /** A `StatisticsMessage`; its block id is only logged and is left out. */
  datatype Message = Message(minerId: seq<Byte>, blockIndex: int, earned: int, timestamp: int)

  /** Where a validator process is: `Holding` is between its two sections, its transactions already off the pool. */
  datatype ValidatorPc =
    | Starting
    | Waiting
    | Received(block: Block)
    | Passed(block: Block)
    | Holding(block: Block)
    | Reporting(msg: Message)
    | Dead

  /** The counters of src/Statistics.c; `deferred` is a message whose ledger read is still to come. */
  datatype Stats = Stats(valid: seq<int>, invalid: seq<int>, credits: seq<int>,
                         totalTime: int, processed: int, inChain: int,
                         deferred: Option<Message>)

  datatype Place = InPool | Held(validator: nat) | InLedger(index: nat) | Dropped

  /** A transaction as generated and the number of pool commits completed by then. */
  datatype Birth = Birth(tx: Tx, at: nat)

  /** History variables, which no step reads: where each generated id is, when it was born and removed, ... */
  datatype History = History(place: map<Name, Place>, birth: map<Name, Birth>, removedAt: map<Name, nat>, commits: nat)

  /** ... and the messages that the statistics process received, or that never reached it. */
  datatype Log = Log(received: seq<Message>, lost: seq<Message>)

  datatype State = State(
    pool: PoolState, poolStuck: bool,
    ledger: LedgerState, ledgerStuck: bool,
    generators: map<nat, nat>, miners: seq<Miner>, pipe: seq<Block>, validators: seq<ValidatorPc>,
    queue: seq<Message>, stats: Stats,
    fault: bool,
    h: History, log: Log)

  /** What `main` in src/Controller.c sets up; validator 1 is about to start. */
  ghost function Init(c: Config): (s: State)
  {
    State(
      PoolState(seq(c.poolSize, _ => Slot(false, 0, ZERO_TX)), 0), false,
      EmptyLedger(c.numBlocks, c.txsPerBlock), false,
      map[], seq(c.numMiners, _ => Miner(Idle, 0)), [], [Starting],
      [], Stats(seq(c.numMiners, _ => 0), seq(c.numMiners, _ => 0), seq(c.numMiners, _ => 0), 0, 0, 0, None),
      false,
      History(map[], map[], map[], 0), Log([], []))
  }

  datatype Step =
    | GeneratorJoins(pid: nat)
    | Generates(pid: nat, tx: Tx)
    | GeneratorDiesInPool(pid: nat, pool: PoolState)
    | MinerPicks(i: nat, txs: seq<Tx>)
    | MinerReadsTip(i: nat)
    | MinerMines(i: nat, timestamp: int)
    | MinerAbandons(i: nat, numbered: bool)
    | ValidatorJoins
    | ValidatorStarts(v: nat)
    | ValidatorReads(v: nat)
    | ValidatorChecks(v: nat)
    | ValidatorCommits(v: nat)
    | ValidatorAppends(v: nat, timestamp: int)
    | ValidatorReports(v: nat, sent: bool)
    | ValidatorDies(v: nat)
    | ValidatorDiesInPool(v: nat, pool: PoolState)
    | ValidatorDiesInLedger(v: nat, ledger: LedgerState)
    | StatsReceives
    | StatsReads

  // ---------------------------------------------------------------- generators

  /** No process id is reused: a generator joins under a pid no generator had before. */
  ghost predicate CanGenerate(s: State, pid: nat, tx: Tx)
  {
    && !s.poolStuck && pid in s.generators && pid <= INT_MAX && s.generators[pid] <= INT_MAX
    && |tx.id| == TX_ID_LEN && NameOf(tx) == TxName(pid, s.generators[pid]) && 1 <= tx.reward <= 3
  }

  ghost function Born(h: History, n: Name, t: Tx): (r: History)
  {
    h.(place := h.place[n := InPool], birth := h.birth[n := Birth(t, h.commits)])
  }

  ghost function Generate(s: State, pid: nat, tx: Tx): (r: State)
    requires pid in s.generators
  {
    var pool := Insert(s.pool, tx);
    if pool == s.pool then s
    else
      s.(pool := pool, generators := s.generators[pid := s.generators[pid] + 1],
         h := Born(s.h, NameOf(tx), tx))
  }

  // ---------------------------------------------------------------- miners

  ghost predicate CanPick(c: Config, s: State, i: nat, txs: seq<Tx>)
  {
    !s.poolStuck && i < |s.miners| && s.miners[i].pc.Idle? && Selection(s.pool, c.txsPerBlock, txs)
  }

  function SetMiner(s: State, i: nat, m: Miner): (r: State)
    requires i < |s.miners|
  {
    s.(miners := s.miners[i := m])
  }

  function ReadTip(s: State, i: nat): (r: State)
    requires i < |s.miners| && s.miners[i].pc.Picked?
  {
    var m := s.miners[i];
    match TipFor(s.ledger)
    case Some(prev) => SetMiner(s, i, m.(pc := Ready(m.pc.txs, prev)))
    case None => SetMiner(s, i, m.(pc := Stopped))
  }

  /** The block a miner starts from: thread ids count from 1. */
  function Candidate(s: State, i: nat, timestamp: int): (b: Block)
    requires i < |s.miners| && s.miners[i].pc.Ready?
  {
    var m := s.miners[i];
    Block(BlockIdField(i + 1, m.blockNumber), StrNCpy(m.pc.prev, HASH_SIZE), timestamp, 0, m.pc.txs)
  }

  /** Mining retries with new timestamps until a nonce is found; the frame then goes into the pipe. */
  function Mine(c: Config, s: State, i: nat, timestamp: int): (r: State)
    requires i < |s.miners| && s.miners[i].pc.Ready? && c.pow.mine(Candidate(s, i, timestamp)).Some?
  {
    var b := Candidate(s, i, timestamp);
    SetMiner(s, i, Miner(Idle, s.miners[i].blockNumber + 1)).(pipe := s.pipe + [b.(nonce := c.pow.mine(b).value)])
  }

  /** A round given up: a block number already printed, as when the frame cannot be allocated or written, is used up. */
  function Abandoned(m: Miner, numbered: bool): (r: Miner)
  {
    Miner(Idle, m.blockNumber + if numbered then 1 else 0)
  }

  // ---------------------------------------------------------------- validators

  function SetValidator(s: State, v: nat, pc: ValidatorPc): (r: State)
    requires v < |s.validators|
  {
    s.(validators := s.validators[v := pc])
  }

  /** The genesis section at start-up. */
  function Start(c: Config, s: State, v: nat): (r: State)
    requires v < |s.validators|
    requires s.ledger.count == 0 ==> c.pow.mine(ZeroBlock(c.txsPerBlock)).Some?
  {
    if s.ledger.count > 0 then SetValidator(s, v, Waiting)
    else
      var g := GenesisBlock(c.txsPerBlock, c.pow.mine(ZeroBlock(c.txsPerBlock)).value);
      var hash := c.pow.hash(g);
      if |s.ledger.blocks| > 0 && |CStr(g.id)| < |s.ledger.blocks[0].id| && |CStr(hash)| < |s.ledger.lastHash| then
        SetValidator(s.(ledger := WithGenesis(s.ledger, g, hash)), v, Waiting)
      else
        s.(fault := true)
  }

  function InvalidMessage(b: Block): (m: Message)
  {
    Message(MinerField(b.id), -1, -1, 0)
  }

  function SumRewards(txs: seq<Tx>): (n: int)
  {
    if txs == [] then 0 else SumRewards(txs[..|txs| - 1]) + txs[|txs| - 1].reward
  }

  /** The rewards of a block, one for each of its transactions. */
  function Rewards(txs: seq<Tx>): (r: seq<int>)
    ensures |r| == |txs| && forall i :: 0 <= i < |txs| ==> r[i] == txs[i].reward
  {
    seq(|txs|, i requires 0 <= i < |txs| => txs[i].reward)
  }

  lemma {:induction false} SumRewardsIsSum(txs: seq<Tx>)
    ensures SumRewards(txs) == Sum(Rewards(txs))
  {
    if txs != [] {
      SumRewardsIsSum(txs[..|txs| - 1]);
      assert Rewards(txs)[..|txs| - 1] == Rewards(txs[..|txs| - 1]);
    }
  }

  function ValidMessage(b: Block, index: nat, timestamp: int): (m: Message)
  {
    Message(MinerField(b.id), index, SumRewards(b.txs), timestamp)
  }

  /** Nonce and first tip comparison. */
  predicate FirstCheck(c: Config, l: LedgerState, b: Block)
  {
    c.pow.verify(b) && TipMatches(b.prev, l.lastHash)
  }

  function Check(c: Config, s: State, v: nat): (r: State)
    requires v < |s.validators| && s.validators[v].Received?
  {
    var b := s.validators[v].block;
    SetValidator(s, v, if FirstCheck(c, s.ledger, b) then Passed(b) else Reporting(InvalidMessage(b)))
  }

  ghost function Move(place: map<Name, Place>, names: set<Name>, to: Place): (r: map<Name, Place>)
  {
    place + map n | n in names :: to
  }

  ghost function Moved(h: History, names: set<Name>, to: Place): (r: History)
  {
    h.(place := Move(h.place, names, to))
  }

  /** One completed pool commit: the ids of the block go from the pool into the hands of validator `v`. */
  ghost function Committed(h: History, names: set<Name>, v: nat): (r: History)
  {
    var removed := map n | n in names :: h.commits;
    h.(place := Move(h.place, names, Held(v)), removedAt := h.removedAt + removed, commits := h.commits + 1)
  }

  ghost function CommitBlock(s: State, v: nat): (r: State)
    requires v < |s.validators| && s.validators[v].Passed?
  {
    var b := s.validators[v].block;
    if Accepts(s.pool.slots, b.txs) then
      SetValidator(s, v, Holding(b)).(pool := Commit(s.pool, b.txs), h := Committed(s.h, TxNames(b.txs), v))
    else
      SetValidator(s, v, Reporting(InvalidMessage(b)))
  }

  /** The append writes out of bounds unless there is a zeroed slot left: the code does not look. */
  predicate AppendInBounds(c: Config, l: LedgerState, b: Block)
  {
    l.lastIndex + 1 < |l.blocks| && Fits(l.blocks[l.lastIndex + 1], b) && |CStr(c.pow.hash(b))| < |l.lastHash|
  }

  ghost function AppendBlock(c: Config, s: State, v: nat, timestamp: int): (r: State)
    requires v < |s.validators| && s.validators[v].Holding?
  {
    var b, l := s.validators[v].block, s.ledger;
    if !TipMatches(b.prev, l.lastHash) then
      SetValidator(s, v, Waiting).(h := Moved(s.h, TxNames(b.txs), Dropped))
    else if AppendInBounds(c, l, b) then
      var next := l.lastIndex + 1;
      SetValidator(s, v, Reporting(ValidMessage(b, next, timestamp))).(
        ledger := Append(l, b, c.pow.hash(b)),
        h := Moved(s.h, TxNames(b.txs), InLedger(next)))
    else
      s.(fault := true)
  }

  /** A non-blocking send: the message is queued, or lost. */
  function Report(s: State, v: nat, sent: bool): (r: State)
    requires v < |s.validators| && s.validators[v].Reporting?
  {
    var m := s.validators[v].msg;
    if sent then SetValidator(s, v, Waiting).(queue := s.queue + [m])
    else SetValidator(s, v, Waiting).(log := s.log.(lost := s.log.lost + [m]))
  }

  /** A killed validator takes with it what it held between sections, or the message it had not sent. */
  ghost function Die(s: State, v: nat): (r: State)
    requires v < |s.validators|
  {
    match s.validators[v]
    case Holding(b) => SetValidator(s, v, Dead).(h := Moved(s.h, TxNames(b.txs), Dropped))
    case Reporting(m) => SetValidator(s, v, Dead).(log := s.log.(lost := s.log.lost + [m]))
    case _ => SetValidator(s, v, Dead)
  }

  predicate UsesLedger(pc: ValidatorPc) { pc.Starting? || pc.Received? || pc.Holding? }

  // ---------------------------------------------------------------- statistics

  /** Counters are bumped on receipt; for a valid block the ledger is read later, under its lock. */
  function Bump(st: Stats, m: Message, i: int): (r: Stats)
    requires 0 <= i < |st.valid| && i < |st.invalid| && i < |st.credits|
  {
    if m.blockIndex == -1 then st.(invalid := st.invalid[i := st.invalid[i] + 1], processed := st.processed + 1)
    else
      st.(valid := st.valid[i := st.valid[i] + 1], credits := st.credits[i := st.credits[i] + m.earned],
          processed := st.processed + 1, inChain := st.inChain + 1, deferred := Some(m))
  }

  function Receive(s: State): (r: State)
    requires s.queue != []
  {
    var m, st := s.queue[0], s.stats;
    var i := MinerIndex(m.minerId);
    var t := s.(queue := s.queue[1..], log := s.log.(received := s.log.received + [m]));
    if 0 <= i < |st.valid| && i < |st.invalid| && i < |st.credits| then t.(stats := Bump(st, m, i))
    else t.(fault := true)
  }

  /** The sum of `msg->timestamp - transactions[i].timestamp`. */
  function Waits(txs: seq<Tx>, timestamp: int): (n: int)
  {
    if txs == [] then 0 else Waits(txs[..|txs| - 1], timestamp) + (timestamp - txs[|txs| - 1].timestamp)
  }

  /** How long each transaction of a block has waited by `timestamp`. */
  function Delays(txs: seq<Tx>, timestamp: int): (r: seq<int>)
    ensures |r| == |txs| && forall i :: 0 <= i < |txs| ==> r[i] == timestamp - txs[i].timestamp
  {
    seq(|txs|, i requires 0 <= i < |txs| => timestamp - txs[i].timestamp)
  }

  lemma {:induction false} WaitsIsSum(txs: seq<Tx>, timestamp: int)
    ensures Waits(txs, timestamp) == Sum(Delays(txs, timestamp))
  {
    if txs != [] {
      WaitsIsSum(txs[..|txs| - 1], timestamp);
      assert Delays(txs, timestamp)[..|txs| - 1] == Delays(txs[..|txs| - 1], timestamp);
    }
  }

  function ReadBlock(s: State): (r: State)
    requires s.stats.deferred.Some?
  {
    var m := s.stats.deferred.value;
    if 0 <= m.blockIndex < |s.ledger.blocks| then
      var waits := Waits(s.ledger.blocks[m.blockIndex].txs, m.timestamp);
      s.(stats := s.stats.(totalTime := s.stats.totalTime + waits, deferred := None))
    else s.(fault := true)
  }

  // ---------------------------------------------------------------- steps and runs

  ghost predicate Enabled(c: Config, s: State, a: Step)
  {
    !s.fault &&
    match a
    case GeneratorJoins(pid) => pid !in s.generators
    case Generates(pid, tx) => CanGenerate(s, pid, tx)
    case GeneratorDiesInPool(pid, _) => pid in s.generators && !s.poolStuck
    case MinerPicks(i, txs) => CanPick(c, s, i, txs)
    case MinerReadsTip(i) => !s.ledgerStuck && i < |s.miners| && s.miners[i].pc.Picked?
    case MinerMines(i, timestamp) =>
      i < |s.miners| && s.miners[i].pc.Ready? && c.pow.mine(Candidate(s, i, timestamp)).Some?
    case MinerAbandons(i, numbered) =>
      i < |s.miners| && !s.miners[i].pc.Stopped? && (numbered ==> s.miners[i].pc.Ready?)
    case ValidatorJoins => true
    case ValidatorStarts(v) =>
      && !s.ledgerStuck && v < |s.validators| && s.validators[v].Starting?
      && (s.ledger.count == 0 ==> c.pow.mine(ZeroBlock(c.txsPerBlock)).Some?)
    case ValidatorReads(v) => v < |s.validators| && s.validators[v].Waiting? && s.pipe != []
    case ValidatorChecks(v) => !s.ledgerStuck && v < |s.validators| && s.validators[v].Received?
    case ValidatorCommits(v) => !s.poolStuck && v < |s.validators| && s.validators[v].Passed?
    case ValidatorAppends(v, _) => !s.ledgerStuck && v < |s.validators| && s.validators[v].Holding?
    case ValidatorReports(v, sent) =>
      v < |s.validators| && s.validators[v].Reporting? && (sent ==> |s.queue| < STATISTICS_MQ_SIZE)
    case ValidatorDies(v) => v < |s.validators| && !s.validators[v].Dead?
    case ValidatorDiesInPool(v, _) => !s.poolStuck && v < |s.validators| && s.validators[v].Passed?
    case ValidatorDiesInLedger(v, _) => !s.ledgerStuck && v < |s.validators| && UsesLedger(s.validators[v])
    case StatsReceives => s.queue != [] && s.stats.deferred.None?
    case StatsReads => !s.ledgerStuck && s.stats.deferred.Some?
  }

  ghost function Do(c: Config, s: State, a: Step): (r: State)
    requires Enabled(c, s, a)
  {
    match a
    case GeneratorJoins(pid) => s.(generators := s.generators[pid := 0])
    case Generates(pid, tx) => Generate(s, pid, tx)
    case GeneratorDiesInPool(_, pool) => s.(pool := pool, poolStuck := true)
    case MinerPicks(i, txs) => SetMiner(s, i, s.miners[i].(pc := Picked(txs)))
    case MinerReadsTip(i) => ReadTip(s, i)
    case MinerMines(i, timestamp) => Mine(c, s, i, timestamp)
    case MinerAbandons(i, numbered) => SetMiner(s, i, Abandoned(s.miners[i], numbered))
    case ValidatorJoins => s.(validators := s.validators + [Starting])
    case ValidatorStarts(v) => Start(c, s, v)
    case ValidatorReads(v) => SetValidator(s, v, Received(s.pipe[0])).(pipe := s.pipe[1..])
    case ValidatorChecks(v) => Check(c, s, v)
    case ValidatorCommits(v) => CommitBlock(s, v)
    case ValidatorAppends(v, timestamp) => AppendBlock(c, s, v, timestamp)
    case ValidatorReports(v, sent) => Report(s, v, sent)
    case ValidatorDies(v) => Die(s, v)
    case ValidatorDiesInPool(v, pool) => Die(s, v).(pool := pool, poolStuck := true)
    case ValidatorDiesInLedger(v, ledger) => Die(s, v).(ledger := ledger, ledgerStuck := true)
    case StatsReceives => Receive(s)
    case StatsReads => ReadBlock(s)
  }

  /** `states[k + 1]` results from step `k`. */
  ghost predicate Taken(c: Config, states: seq<State>, steps: seq<Step>, k: nat)
  {
    k < |steps| && k + 1 < |states| && Enabled(c, states[k], steps[k]) && states[k + 1] == Do(c, states[k], steps[k])
  }

  /** A finite run: `states[k + 1]` results from `steps[k]`. */
  ghost predicate Run(c: Config, states: seq<State>, steps: seq<Step>)
  {
    && |states| == |steps| + 1 && states[0] == Init(c)
    && forall k: nat :: k < |steps| ==> Taken(c, states, steps, k)
  }

  /** The hypothesis on SHA-256: the blocks that make up the ledger of a state do not collide. */
  ghost predicate CollisionFree(c: Config, s: State)
  {
    !s.ledgerStuck ==> NoCollision(c.pow, s.ledger)
  }

  ghost predicate CollisionFreeRun(c: Config, states: seq<State>)
  {
    forall k :: 0 <= k < |states| ==> CollisionFree(c, states[k])
  }
}
