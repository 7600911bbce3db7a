/**
 The messages to the statistics process over a whole run: which steps make one and what it says, that none appears or
 disappears, in what order they arrive, and so whose rejections are counted.
 */
module Messages {
  import opened CStrings
  import opened Records
  import opened Pow
  import opened Pool
  import opened Ledger
  import opened Protocol
  import opened ChainInvariant
  import opened TxInvariant
  import opened AccountInvariant
  import opened Theorems
  import opened Fates
  import opened Origins
  import opened Sums

  // ---------------------------------------------------------------- what steps say

  /** A block is refused at the first check for its nonce or its tip, or at the pool for one of its transactions. */
  ghost predicate Refuses(c: Config, s: State, a: Step)
  {
    match a
    case ValidatorChecks(v) =>
      && v < |s.validators| && s.validators[v].Received?
      && (!c.pow.verify(s.validators[v].block) || !TipMatches(s.validators[v].block.prev, s.ledger.lastHash))
    case ValidatorCommits(v) =>
      v < |s.validators| && s.validators[v].Passed? && !Accepts(s.pool.slots, s.validators[v].block.txs)
    case _ => false
  }

  ghost predicate Appending(s: State, a: Step)
  {
    && a.ValidatorAppends? && a.v < |s.validators| && s.validators[a.v].Holding?
    && TipMatches(s.validators[a.v].block.prev, s.ledger.lastHash)
  }

  /**
   The message a step makes, field by field: an append names the miner, the index of the new block, the sum of its
   rewards and the time; a refusal names the miner.
   */
  ghost function Says(c: Config, s: State, a: Step): (m: Option<Message>)
  {
    if Appending(s, a) then
      var b := s.validators[a.v].block;
      Some(Message(MinerField(b.id), s.ledger.count, Sum(Rewards(b.txs)), a.timestamp))
    else if Refuses(c, s, a) then Some(Message(MinerField(s.validators[a.v].block.id), -1, -1, 0))
    else None
  }

  // ---------------------------------------------------------------- counting messages

  function MessageSum(f: Message -> int, msgs: seq<Message>): (n: int)
  {
    if msgs == [] then 0 else MessageSum(f, msgs[..|msgs| - 1]) + f(msgs[|msgs| - 1])
  }

  function PcSum(f: Message -> int, pc: ValidatorPc): (n: int)
  {
    if pc.Reporting? then f(pc.msg) else 0
  }

  /** Over messages that validators have made and not sent yet. */
  function PendingSum(f: Message -> int, vs: seq<ValidatorPc>): (n: int)
  {
    if vs == [] then 0 else PendingSum(f, vs[..|vs| - 1]) + PcSum(f, vs[|vs| - 1])
  }

  /** Over all messages, wherever they are. */
  function Everywhere(f: Message -> int, s: State): (n: int)
  {
    MessageSum(f, s.log.received) + MessageSum(f, s.queue) + MessageSum(f, s.log.lost) + PendingSum(f, s.validators)
  }

  lemma SumSnoc(f: Message -> int, msgs: seq<Message>, m: Message)
    ensures MessageSum(f, msgs + [m]) == MessageSum(f, msgs) + f(m)
  {
    assert (msgs + [m])[..|msgs|] == msgs;
  }

  lemma {:induction false} SumHead(f: Message -> int, msgs: seq<Message>)
    requires msgs != []
    ensures MessageSum(f, msgs) == f(msgs[0]) + MessageSum(f, msgs[1..])
  {
    var n := |msgs| - 1;
    if n > 0 {
      SumHead(f, msgs[..n]);
      assert msgs[..n][1..] == msgs[1..][..n - 1];
    } else {
      assert MessageSum(f, msgs[..0]) == 0;
    }
  }

  lemma {:induction false} PendingUpdate(f: Message -> int, vs: seq<ValidatorPc>, v: nat, pc: ValidatorPc)
    requires v < |vs|
    ensures PendingSum(f, vs[v := pc]) == PendingSum(f, vs) - PcSum(f, vs[v]) + PcSum(f, pc)
  {
    var n := |vs| - 1;
    if v == n {
      assert vs[v := pc][..n] == vs[..n];
    } else {
      PendingUpdate(f, vs[..n], v, pc);
      assert vs[v := pc][..n] == vs[..n][v := pc];
    }
  }

  lemma PendingSnoc(f: Message -> int, vs: seq<ValidatorPc>, pc: ValidatorPc)
    ensures PendingSum(f, vs + [pc]) == PendingSum(f, vs) + PcSum(f, pc)
  {
    assert (vs + [pc])[..|vs|] == vs;
  }

  // ---------------------------------------------------------------- one step

  /** Validators that check or commit make a message exactly when they refuse. */
  lemma CheckSays(c: Config, s: State, v: nat, f: Message -> int)
    requires Enabled(c, s, ValidatorChecks(v))
    ensures Everywhere(f, Do(c, s, ValidatorChecks(v))) == Everywhere(f, s) + Worth(f, Says(c, s, ValidatorChecks(v)))
  {
    var b := s.validators[v].block;
    PendingUpdate(f, s.validators, v, if FirstCheck(c, s.ledger, b) then Passed(b) else Reporting(InvalidMessage(b)));
  }

  lemma CommitSays(c: Config, s: State, v: nat, f: Message -> int)
    requires Enabled(c, s, ValidatorCommits(v))
    ensures Everywhere(f, Do(c, s, ValidatorCommits(v))) == Everywhere(f, s) + Worth(f, Says(c, s, ValidatorCommits(v)))
  {
    var b := s.validators[v].block;
    CommitFrame(s, v);
    var pc := if Accepts(s.pool.slots, b.txs) then Holding(b) else Reporting(InvalidMessage(b));
    PendingUpdate(f, s.validators, v, pc);
  }

  function Worth(f: Message -> int, m: Option<Message>): (n: int)
  {
    match m case Some(x) => f(x) case None => 0
  }

  lemma AppendSays(c: Config, s: State, v: nat, timestamp: int, f: Message -> int)
    requires ConfigOk(c) && ChainInv(c, s) && CollisionFree(c, s) && Enabled(c, s, ValidatorAppends(v, timestamp))
    ensures Everywhere(f, Do(c, s, ValidatorAppends(v, timestamp)))
            == Everywhere(f, s) + Worth(f, Says(c, s, ValidatorAppends(v, timestamp)))
  {
    if TipMatches(s.validators[v].block.prev, s.ledger.lastHash) {
      MatchingAppend(c, s, v, timestamp);
      AppendedSays(c, s, v, timestamp, f);
    } else {
      DoAppends(c, s, v, timestamp);
      PendingUpdate(f, s.validators, v, Waiting);
    }
  }

  lemma AppendedSays(c: Config, s: State, v: nat, timestamp: int, f: Message -> int)
    requires v < |s.validators| && s.validators[v].Holding? && s.ledger.count < |s.ledger.blocks|
    requires TipMatches(s.validators[v].block.prev, s.ledger.lastHash)
    ensures Everywhere(f, Appended(c, s, v, timestamp))
            == Everywhere(f, s) + Worth(f, Says(c, s, ValidatorAppends(v, timestamp)))
  {
    var b := s.validators[v].block;
    SumRewardsIsSum(b.txs);
    PendingUpdate(f, s.validators, v, Reporting(ValidMessage(b, s.ledger.count, timestamp)));
  }

  lemma ReportMoves(c: Config, s: State, v: nat, sent: bool, f: Message -> int)
    requires Enabled(c, s, ValidatorReports(v, sent))
    ensures Everywhere(f, Do(c, s, ValidatorReports(v, sent))) == Everywhere(f, s)
  {
    var m := s.validators[v].msg;
    PendingUpdate(f, s.validators, v, Waiting);
    SumSnoc(f, s.queue, m);
    SumSnoc(f, s.log.lost, m);
  }

  lemma DieMoves(s: State, v: nat, f: Message -> int)
    requires v < |s.validators|
    ensures Everywhere(f, Die(s, v)) == Everywhere(f, s)
  {
    PendingUpdate(f, s.validators, v, Dead);
    match s.validators[v]
    case Reporting(m) => SumSnoc(f, s.log.lost, m);
    case Holding(_) =>
    case _ =>
  }

  lemma DeathMoves(c: Config, s: State, a: Step, f: Message -> int)
    requires Enabled(c, s, a) && (a.ValidatorDies? || a.ValidatorDiesInPool? || a.ValidatorDiesInLedger?)
    ensures Everywhere(f, Do(c, s, a)) == Everywhere(f, s)
  {
    DieMoves(s, a.v, f);
  }

  lemma ReceiveMoves(c: Config, s: State, f: Message -> int)
    requires Enabled(c, s, StatsReceives)
    ensures Everywhere(f, Do(c, s, StatsReceives)) == Everywhere(f, s)
  {
    SumHead(f, s.queue);
    SumSnoc(f, s.log.received, s.queue[0]);
  }

  /** Starting, joining and taking a block from the pipe. */
  lemma QuietMoves(c: Config, s: State, a: Step, f: Message -> int)
    requires Enabled(c, s, a) && (a.ValidatorStarts? || a.ValidatorJoins? || a.ValidatorReads?)
    ensures Everywhere(f, Do(c, s, a)) == Everywhere(f, s)
  {
    match a
    case ValidatorStarts(v) => PendingUpdate(f, s.validators, v, Waiting);
    case ValidatorJoins => PendingSnoc(f, s.validators, Starting);
    case ValidatorReads(v) => PendingUpdate(f, s.validators, v, Received(s.pipe[0]));
  }

  lemma OtherwiseQuiet(c: Config, s: State, a: Step, f: Message -> int)
    requires Enabled(c, s, a) && (OfMiner(a) || (Elsewhere(a) && !a.StatsReceives?))
    ensures Everywhere(f, Do(c, s, a)) == Everywhere(f, s)
  {
    if OfMiner(a) {
      MinerFrame(c, s, a);
    }
  }

  lemma OthersMove(c: Config, s: State, a: Step, f: Message -> int)
    requires Enabled(c, s, a) && !a.ValidatorChecks? && !a.ValidatorCommits? && !a.ValidatorAppends?
    ensures Everywhere(f, Do(c, s, a)) == Everywhere(f, s)
  {
    if a.ValidatorReports? {
      ReportMoves(c, s, a.v, a.sent, f);
    } else if a.ValidatorDies? || a.ValidatorDiesInPool? || a.ValidatorDiesInLedger? {
      DeathMoves(c, s, a, f);
    } else if a.StatsReceives? {
      ReceiveMoves(c, s, f);
    } else if OfMiner(a) || Elsewhere(a) {
      OtherwiseQuiet(c, s, a, f);
    } else {
      QuietMoves(c, s, a, f);
    }
  }

  lemma StepSays(c: Config, s: State, a: Step, f: Message -> int)
    requires ConfigOk(c) && ChainInv(c, s) && CollisionFree(c, s) && Enabled(c, s, a)
    ensures Everywhere(f, Do(c, s, a)) == Everywhere(f, s) + Worth(f, Says(c, s, a))
  {
    if a.ValidatorChecks? {
      CheckSays(c, s, a.v, f);
    } else if a.ValidatorCommits? {
      CommitSays(c, s, a.v, f);
    } else if a.ValidatorAppends? {
      AppendSays(c, s, a.v, a.timestamp, f);
    } else {
      OthersMove(c, s, a, f);
    }
  }

  // ---------------------------------------------------------------- runs

  /** Over the messages that the steps before state `k` made. */
  ghost function SaidSum(f: Message -> int, c: Config, states: seq<State>, steps: seq<Step>, k: nat): (n: int)
    requires k <= |steps| && k <= |states|
  {
    if k == 0 then 0 else SaidSum(f, c, states, steps, k - 1) + Worth(f, Says(c, states[k - 1], steps[k - 1]))
  }

  lemma NextSays(f: Message -> int, c: Config, states: seq<State>, steps: seq<Step>, k: nat)
    requires ConfigOk(c) && Run(c, states, steps) && CollisionFreeRun(c, states) && k + 1 < |states|
    ensures Everywhere(f, states[k + 1]) == Everywhere(f, states[k]) + Worth(f, Says(c, states[k], steps[k]))
  {
    RunKeepsInv(c, states, steps, k);
    RunStep(c, states, steps, k);
    StepSays(c, states[k], steps[k], f);
  }

  /** Whatever is counted about messages: what is received, queued, lost and unsent is what steps so far have made. */
  lemma {:induction false} MessagesBalance(f: Message -> int, c: Config, states: seq<State>, steps: seq<Step>, k: nat)
    requires ConfigOk(c) && Run(c, states, steps) && CollisionFreeRun(c, states) && k < |states|
    ensures Everywhere(f, states[k]) == SaidSum(f, c, states, steps, k)
  {
    if k > 0 {
      MessagesBalance(f, c, states, steps, k - 1);
      NextSays(f, c, states, steps, k - 1);
    }
  }

  // ---------------------------------------------------------------- single messages

  function IsMessage(m: Message): (f: Message -> int)
  {
    x => if x == m then 1 else 0
  }

  lemma {:induction false} Multiplicity(m: Message, msgs: seq<Message>)
    ensures MessageSum(IsMessage(m), msgs) == multiset(msgs)[m]
  {
    if msgs != [] {
      Multiplicity(m, msgs[..|msgs| - 1]);
      assert msgs == msgs[..|msgs| - 1] + [msgs[|msgs| - 1]];
    }
  }

  /** Validators about to send `m`. */
  function Senders(m: Message, vs: seq<ValidatorPc>): (n: int)
  {
    PendingSum(IsMessage(m), vs)
  }

  /** Steps before state `k` that made `m`. */
  ghost function Makers(m: Message, c: Config, states: seq<State>, steps: seq<Step>, k: nat): (n: nat)
    requires k <= |steps| && k <= |states|
  {
    if k == 0 then 0
    else Makers(m, c, states, steps, k - 1) + One(Says(c, states[k - 1], steps[k - 1]) == Some(m))
  }

  lemma {:induction false} MakersCounted(m: Message, c: Config, states: seq<State>, steps: seq<Step>, k: nat)
    requires k <= |steps| && k <= |states|
    ensures SaidSum(IsMessage(m), c, states, steps, k) == Makers(m, c, states, steps, k)
  {
    if k > 0 {
      MakersCounted(m, c, states, steps, k - 1);
    }
  }

  /**
   No message is invented, altered, doubled or forgotten: each is received, queued, lost or about to be sent as often as
   steps have made it, and what a step makes is said by the step alone.
   */
  lemma MessagesConserved(m: Message, c: Config, states: seq<State>, steps: seq<Step>, k: nat)
    requires ConfigOk(c) && Run(c, states, steps) && CollisionFreeRun(c, states) && k < |states|
    ensures multiset(states[k].log.received)[m] + multiset(states[k].queue)[m] + multiset(states[k].log.lost)[m]
            + Senders(m, states[k].validators)
            == Makers(m, c, states, steps, k)
  {
    MessagesBalance(IsMessage(m), c, states, steps, k);
    Multiplicity(m, states[k].log.received);
    Multiplicity(m, states[k].queue);
    Multiplicity(m, states[k].log.lost);
    MakersCounted(m, c, states, steps, k);
  }

  // ---------------------------------------------------------------- rejections

  /** Rejections that will be charged to counter `i`. */
  function ChargedTo(i: int): (f: Message -> int)
  {
    (m: Message) => if m.blockIndex == -1 && MinerIndex(m.minerId) == i then 1 else 0
  }

  lemma {:induction false} RejectedIsSum(i: int, msgs: seq<Message>)
    ensures MessageSum(ChargedTo(i), msgs) == Rejected(i, msgs)
  {
    if msgs != [] {
      RejectedIsSum(i, msgs[..|msgs| - 1]);
    }
  }

  /** Step `a` refuses a block whose id names the thread of counter `i`. */
  ghost predicate RefusesOf(c: Config, s: State, a: Step, i: int)
  {
    Refuses(c, s, a) && MinerIndex(MinerField(s.validators[a.v].block.id)) == i
  }

  ghost function Refusals(i: int, c: Config, states: seq<State>, steps: seq<Step>, k: nat): (n: nat)
    requires k <= |steps| && k <= |states|
  {
    if k == 0 then 0 else Refusals(i, c, states, steps, k - 1) + One(RefusesOf(c, states[k - 1], steps[k - 1], i))
  }

  lemma ChargeOfStep(i: int, c: Config, s: State, a: Step)
    ensures Worth(ChargedTo(i), Says(c, s, a)) == One(RefusesOf(c, s, a, i))
  {
  }

  lemma {:induction false} RefusalsAreCharges(i: int, c: Config, states: seq<State>, steps: seq<Step>, k: nat)
    requires k <= |steps| && k <= |states|
    ensures SaidSum(ChargedTo(i), c, states, steps, k) == Refusals(i, c, states, steps, k)
  {
    if k > 0 {
      RefusalsAreCharges(i, c, states, steps, k - 1);
      ChargeOfStep(i, c, states[k - 1], steps[k - 1]);
    }
  }

  lemma InvalidCounter(c: Config, states: seq<State>, steps: seq<Step>, k: nat, i: nat)
    requires ConfigOk(c) && Run(c, states, steps) && CollisionFreeRun(c, states) && k < |states| && i < c.numMiners
    ensures i < |states[k].stats.invalid| && states[k].stats.invalid[i] == Rejected(i, states[k].log.received)
  {
    RunKeepsInv(c, states, steps, k);
    assert CounterOk(states[k].stats, states[k].log.received, i);
  }

  /**
   Whose rejections are counted: the counter of a thread, and the rejections of it that are queued, lost and unsent, are
   the steps so far that refused a block with its id for its nonce, its tip or its transactions.
   */
  lemma RejectionsAgree(c: Config, states: seq<State>, steps: seq<Step>, k: nat, i: nat)
    requires ConfigOk(c) && Run(c, states, steps) && CollisionFreeRun(c, states) && k < |states| && i < c.numMiners
    ensures var s := states[k];
            && i < |s.stats.invalid|
            && s.stats.invalid[i] + Rejected(i, s.queue) + Rejected(i, s.log.lost)
               + PendingSum(ChargedTo(i), s.validators)
               == Refusals(i, c, states, steps, k)
  {
    InvalidCounter(c, states, steps, k, i);
    MessagesBalance(ChargedTo(i), c, states, steps, k);
    RejectedIsSum(i, states[k].log.received);
    RejectedIsSum(i, states[k].queue);
    RejectedIsSum(i, states[k].log.lost);
    RefusalsAreCharges(i, c, states, steps, k);
  }

  /** A refused block was mined by a thread of this run, and is charged to that thread exactly up to thread 999999. */
  lemma RefusalIsCharged(c: Config, states: seq<State>, steps: seq<Step>, k: nat)
    returns (i: nat, x: nat, y: nat, z: nat)
    requires ConfigOk(c) && Run(c, states, steps) && CollisionFreeRun(c, states) && k < |steps|
    requires Refuses(c, states[k], steps[k])
    ensures var b := states[k].validators[steps[k].v].block;
            && MadeBy(c, states, steps, k, b, i, x, y, z)
            && 0 <= MinerIndex(MinerField(b.id)) < c.numMiners
            && (MinerIndex(MinerField(b.id)) == i <==> i + 1 <= 999_999)
  {
    var b := states[k].validators[steps[k].v].block;
    assert CarriesBlock(states[k].validators[steps[k].v]);
    i, x, y, z := EveryBlockIsMined(c, states, steps, k, b);
    ThreadsStay(c, states, steps, z);
    MinerIdentityRoundTrip(i + 1, states[z].miners[i].blockNumber);
  }

  // ---------------------------------------------------------------- order

  /** Messages put into the queue before state `k`, in order. */
  ghost function Sent(states: seq<State>, steps: seq<Step>, k: nat): (msgs: seq<Message>)
    requires k <= |steps| && k <= |states|
  {
    if k == 0 then [] else Sent(states, steps, k - 1) + SentBy(states[k - 1], steps[k - 1])
  }

  function SentBy(s: State, a: Step): (msgs: seq<Message>)
  {
    if a.ValidatorReports? && a.sent && a.v < |s.validators| && s.validators[a.v].Reporting? then
      [s.validators[a.v].msg]
    else []
  }

  lemma StepSends(c: Config, s: State, a: Step)
    requires Enabled(c, s, a)
    ensures var r := Do(c, s, a); r.log.received + r.queue == s.log.received + s.queue + SentBy(s, a)
  {
    if OfMiner(a) {
      MinerFrame(c, s, a);
    } else if a.ValidatorDies? || a.ValidatorDiesInPool? || a.ValidatorDiesInLedger? {
      DeathSends(c, s, a);
    } else if a.StatsReceives? {
      ReceiveSends(c, s);
    } else if !a.ValidatorReports? {
      OthersSend(c, s, a);
    }
  }

  lemma ReceiveSends(c: Config, s: State)
    requires Enabled(c, s, StatsReceives)
    ensures var r := Do(c, s, StatsReceives); r.log.received + r.queue == s.log.received + s.queue
  {
  }

  lemma OthersSend(c: Config, s: State, a: Step)
    requires Enabled(c, s, a) && !OfMiner(a) && !a.StatsReceives? && !a.ValidatorReports?
    requires !a.ValidatorDies? && !a.ValidatorDiesInPool? && !a.ValidatorDiesInLedger?
    ensures Do(c, s, a).log.received == s.log.received && Do(c, s, a).queue == s.queue
  {
    if a.ValidatorAppends? {
      DoAppends(c, s, a.v, a.timestamp);
    }
  }

  lemma DeathSends(c: Config, s: State, a: Step)
    requires Enabled(c, s, a) && (a.ValidatorDies? || a.ValidatorDiesInPool? || a.ValidatorDiesInLedger?)
    ensures Do(c, s, a).log.received == s.log.received && Do(c, s, a).queue == s.queue
  {
    DieFrame(s, a.v);
  }

  /** The statistics process receives what was sent, in the order in which it was sent. */
  lemma {:induction false} ReceivedInOrder(c: Config, states: seq<State>, steps: seq<Step>, k: nat)
    requires Run(c, states, steps) && k < |states|
    ensures states[k].log.received + states[k].queue == Sent(states, steps, k)
  {
    if k > 0 {
      ReceivedInOrder(c, states, steps, k - 1);
      RunStep(c, states, steps, k - 1);
      StepSends(c, states[k - 1], steps[k - 1]);
    }
  }
}
