/**
 The inductive invariant of the statistics: every appended block is reported by exactly one message, wherever that
 message is, and the counters are the sums over what was received.
 */
module AccountInvariant {
  import opened CStrings
  import opened Records
  import opened Pow
  import opened Ledger
  import opened Protocol
  import opened ChainInvariant
  import opened Sums

  // ---------------------------------------------------------------- measures

  /** What is counted: valid blocks of a counter, credits of a counter, messages that name a ledger index. */
  datatype Measure = Blocks(m: int) | Credits(m: int) | AtIndex(i: int)

  function MessageValue(q: Measure, m: Message): (n: int)
  {
    if m.blockIndex == -1 then 0
    else
      match q
      case Blocks(i) => if MinerIndex(m.minerId) == i then 1 else 0
      case Credits(i) => if MinerIndex(m.minerId) == i then m.earned else 0
      case AtIndex(i) => if m.blockIndex == i then 1 else 0
  }

  function BlockValue(q: Measure, b: Block, index: nat): (n: int)
  {
    match q
    case Blocks(i) => if MinerIndex(MinerField(b.id)) == i then 1 else 0
    case Credits(i) => if MinerIndex(MinerField(b.id)) == i then Sum(Rewards(b.txs)) else 0
    case AtIndex(i) => if index == i then 1 else 0
  }

  function Total(q: Measure, msgs: seq<Message>): (n: int)
  {
    if msgs == [] then 0 else Total(q, msgs[..|msgs| - 1]) + MessageValue(q, msgs[|msgs| - 1])
  }

  function PcValue(q: Measure, pc: ValidatorPc): (n: int)
  {
    if pc.Reporting? then MessageValue(q, pc.msg) else 0
  }

  /** Messages made but not sent yet. */
  function Unsent(q: Measure, vs: seq<ValidatorPc>): (n: int)
  {
    if vs == [] then 0 else Unsent(q, vs[..|vs| - 1]) + PcValue(q, vs[|vs| - 1])
  }

  /** Over the blocks from index 1 on; genesis has no miner. */
  function ChainTotal(q: Measure, blocks: seq<Block>, count: nat): (n: int)
    requires count <= |blocks|
  {
    if count <= 1 then 0 else ChainTotal(q, blocks, count - 1) + BlockValue(q, blocks[count - 1], count - 1)
  }

  function Rejected(i: int, msgs: seq<Message>): (n: nat)
  {
    if msgs == [] then 0
    else
      var m := msgs[|msgs| - 1];
      Rejected(i, msgs[..|msgs| - 1]) + if m.blockIndex == -1 && MinerIndex(m.minerId) == i then 1 else 0
  }

  /** The waiting times of the transactions of every valid message, as the ledger has them. */
  function WaitTotal(blocks: seq<Block>, msgs: seq<Message>): (n: int)
  {
    if msgs == [] then 0 else WaitTotal(blocks, msgs[..|msgs| - 1]) + WaitOf(blocks, msgs[|msgs| - 1])
  }

  function WaitOf(blocks: seq<Block>, m: Message): (n: int)
  {
    if 0 <= m.blockIndex < |blocks| then Sum(Delays(blocks[m.blockIndex].txs, m.timestamp)) else 0
  }

  lemma TotalSnoc(q: Measure, msgs: seq<Message>, m: Message)
    ensures Total(q, msgs + [m]) == Total(q, msgs) + MessageValue(q, m)
  {
    assert (msgs + [m])[..|msgs|] == msgs;
  }

  lemma {:induction false} TotalHead(q: Measure, msgs: seq<Message>)
    requires msgs != []
    ensures Total(q, msgs) == MessageValue(q, msgs[0]) + Total(q, msgs[1..])
  {
    var n := |msgs| - 1;
    if n > 0 {
      TotalHead(q, msgs[..n]);
      assert msgs[..n][1..] == msgs[1..][..n - 1];
    } else {
      assert Total(q, msgs[..0]) == 0;
    }
  }

  lemma {:induction false} UnsentUpdate(q: Measure, vs: seq<ValidatorPc>, v: nat, pc: ValidatorPc)
    requires v < |vs|
    ensures Unsent(q, vs[v := pc]) == Unsent(q, vs) - PcValue(q, vs[v]) + PcValue(q, pc)
  {
    var n := |vs| - 1;
    if v == n {
      assert vs[v := pc][..n] == vs[..n];
    } else {
      UnsentUpdate(q, vs[..n], v, pc);
      assert vs[v := pc][..n] == vs[..n][v := pc];
    }
  }

  lemma {:induction false} ChainTotalFrame(q: Measure, blocks: seq<Block>, blocks': seq<Block>, count: nat)
    requires count <= |blocks| && count <= |blocks'|
    requires forall i :: 0 <= i < count ==> blocks[i] == blocks'[i]
    ensures ChainTotal(q, blocks, count) == ChainTotal(q, blocks', count)
  {
    if count > 1 {
      ChainTotalFrame(q, blocks, blocks', count - 1);
    }
  }

  /** Exactly the appended indices are counted, once each. */
  lemma {:induction false} ChainTotalAtIndex(i: int, blocks: seq<Block>, count: nat)
    requires count <= |blocks|
    ensures ChainTotal(AtIndex(i), blocks, count) == if 1 <= i < count then 1 else 0
  {
    if count > 1 {
      ChainTotalAtIndex(i, blocks, count - 1);
    }
  }

  // ---------------------------------------------------------------- the invariant

  ghost predicate FieldOk(c: Config, field: seq<Byte>)
  {
    exists thread: nat :: 1 <= thread <= c.numMiners && field == SnPrint(Dec(thread), MINER_ID_LEN)
  }

  /** A message names a thread of this run, and either rejects or points at an appended block. */
  ghost predicate MessageOk(c: Config, l: LedgerState, stuck: bool, m: Message)
  {
    FieldOk(c, m.minerId) && (m.blockIndex != -1 && !stuck ==> 1 <= m.blockIndex < l.count <= |l.blocks|)
  }

  ghost predicate MessagesOk(c: Config, l: LedgerState, stuck: bool, msgs: seq<Message>)
  {
    forall i :: 0 <= i < |msgs| ==> MessageOk(c, l, stuck, msgs[i])
  }

  ghost predicate UnsentOk(c: Config, l: LedgerState, stuck: bool, vs: seq<ValidatorPc>)
  {
    forall v :: 0 <= v < |vs| && vs[v].Reporting? ==> MessageOk(c, l, stuck, vs[v].msg)
  }

  /** Received, queued, lost and unsent messages together account for the whole chain. */
  ghost predicate BalanceInv(l: LedgerState, stuck: bool, vs: seq<ValidatorPc>, queue: seq<Message>, log: Log)
  {
    !stuck ==>
      && l.count <= |l.blocks|
      && forall q :: Total(q, log.received) + Total(q, queue) + Total(q, log.lost) + Unsent(q, vs)
          == ChainTotal(q, l.blocks, l.count)
  }

  ghost predicate CounterOk(st: Stats, received: seq<Message>, i: nat)
    requires i < |st.valid| == |st.invalid| == |st.credits|
  {
    && st.valid[i] == Total(Blocks(i), received) && st.credits[i] == Total(Credits(i), received)
    && st.invalid[i] == Rejected(i, received)
  }

  ghost predicate CountersInv(c: Config, st: Stats, received: seq<Message>)
  {
    && |st.valid| == |st.invalid| == |st.credits| == c.numMiners
    && (forall i :: 0 <= i < c.numMiners ==> CounterOk(st, received, i))
    && st.processed == |received| == Sum(st.valid) + Sum(st.invalid) && st.inChain == Sum(st.valid)
  }

  ghost predicate TimeInv(c: Config, l: LedgerState, stuck: bool, st: Stats, received: seq<Message>)
  {
    && (st.deferred.Some? ==> st.deferred.value.blockIndex != -1 && MessageOk(c, l, stuck, st.deferred.value))
    && (!stuck ==>
         st.totalTime + (if st.deferred.Some? then WaitOf(l.blocks, st.deferred.value) else 0)
         == WaitTotal(l.blocks, received))
  }

  ghost predicate AccountInv(c: Config, s: State)
  {
    && MessagesOk(c, s.ledger, s.ledgerStuck, s.queue) && MessagesOk(c, s.ledger, s.ledgerStuck, s.log.received)
    && UnsentOk(c, s.ledger, s.ledgerStuck, s.validators)
    && BalanceInv(s.ledger, s.ledgerStuck, s.validators, s.queue, s.log)
    && CountersInv(c, s.stats, s.log.received)
    && TimeInv(c, s.ledger, s.ledgerStuck, s.stats, s.log.received)
    && |s.queue| <= STATISTICS_MQ_SIZE
  }

  lemma {:induction false} SumOfZeros(n: nat)
    ensures Sum(seq(n, _ => 0)) == 0
  {
    if n > 0 {
      SumOfZeros(n - 1);
      assert seq(n, _ => 0)[..n - 1] == seq(n - 1, _ => 0);
    }
  }

  lemma InitAccount(c: Config)
    ensures AccountInv(c, Init(c))
  {
    SumOfZeros(c.numMiners);
    var s := Init(c);
    forall q ensures Unsent(q, s.validators) == 0 {
      assert s.validators == [Starting];
      assert Unsent(q, s.validators[..0]) == 0;
    }
  }

  // ---------------------------------------------------------------- the parts

  lemma MinedField(c: Config, b: Block)
    requires c.numMiners <= INT_MAX && MinedId(c, b.id)
    ensures FieldOk(c, MinerField(b.id))
  {
    var thread: nat, number: nat :| 1 <= thread <= c.numMiners && b.id == BlockIdField(thread, number);
    MinerFieldOfBlockId(thread, number);
  }

  /** Every counter index that a message leads to is inside the arrays. */
  lemma FieldIndex(c: Config, field: seq<Byte>)
    requires c.numMiners <= INT_MAX && FieldOk(c, field)
    ensures 0 <= MinerIndex(field) < c.numMiners
  {
    var thread: nat :| 1 <= thread <= c.numMiners && field == SnPrint(Dec(thread), MINER_ID_LEN);
    MinerFieldOfBlockId(thread, 0);
    MinerIdentityRoundTrip(thread, 0);
  }

  lemma {:induction false} WaitTotalGrows(c: Config, l: LedgerState, l': LedgerState, msgs: seq<Message>)
    requires Grows(l, l') && MessagesOk(c, l, false, msgs)
    ensures WaitTotal(l'.blocks, msgs) == WaitTotal(l.blocks, msgs)
  {
    if msgs != [] {
      var m := msgs[|msgs| - 1];
      WaitTotalGrows(c, l, l', msgs[..|msgs| - 1]);
      assert MessageOk(c, l, false, m);
      assert m.blockIndex != -1 ==> l'.blocks[m.blockIndex] == l.blocks[m.blockIndex];
    }
  }

  /** A deferred read of a block sees what was appended: its waiting time does not change as the ledger grows. */
  lemma TimeGrows(c: Config, l: LedgerState, l': LedgerState, st: Stats, received: seq<Message>)
    requires Grows(l, l') && l'.count <= |l'.blocks| && TimeInv(c, l, false, st, received)
    requires MessagesOk(c, l, false, received)
    ensures TimeInv(c, l', false, st, received) && MessagesOk(c, l', false, received)
  {
    WaitTotalGrows(c, l, l', received);
    forall i | 0 <= i < |received| ensures MessageOk(c, l', false, received[i]) {
      assert MessageOk(c, l, false, received[i]);
    }
  }

  lemma MessagesGrow(c: Config, l: LedgerState, l': LedgerState, msgs: seq<Message>, vs: seq<ValidatorPc>)
    requires Grows(l, l') && l'.count <= |l'.blocks| && MessagesOk(c, l, false, msgs) && UnsentOk(c, l, false, vs)
    ensures MessagesOk(c, l', false, msgs) && UnsentOk(c, l', false, vs)
  {
    forall i | 0 <= i < |msgs| ensures MessageOk(c, l', false, msgs[i]) {
      assert MessageOk(c, l, false, msgs[i]);
    }
    forall v | 0 <= v < |vs| && vs[v].Reporting? ensures MessageOk(c, l', false, vs[v].msg) {
      assert MessageOk(c, l, false, vs[v].msg);
    }
  }

  /** A validator changes its program counter without making or losing a valid message. */
  lemma QuietBalance(l: LedgerState, stuck: bool, vs: seq<ValidatorPc>, queue: seq<Message>, log: Log, v: nat,
                     pc: ValidatorPc)
    requires BalanceInv(l, stuck, vs, queue, log) && v < |vs|
    requires forall q :: PcValue(q, vs[v]) == PcValue(q, pc)
    ensures BalanceInv(l, stuck, vs[v := pc], queue, log)
  {
    if !stuck {
      forall q ensures Unsent(q, vs[v := pc]) == Unsent(q, vs) {
        UnsentUpdate(q, vs, v, pc);
      }
    }
  }

  lemma AppendBalance(p: PowInterface, l: LedgerState, vs: seq<ValidatorPc>, queue: seq<Message>, log: Log, v: nat,
                      b: Block, timestamp: int)
    requires BalanceInv(l, false, vs, queue, log) && v < |vs| && !vs[v].Reporting? && 0 < l.count < |l.blocks|
    ensures BalanceInv(Extended(p, l, b), false, vs[v := Reporting(ValidMessage(b, l.count, timestamp))], queue, log)
  {
    var l', pc := Extended(p, l, b), Reporting(ValidMessage(b, l.count, timestamp));
    forall q ensures Total(q, log.received) + Total(q, queue) + Total(q, log.lost) + Unsent(q, vs[v := pc])
                     == ChainTotal(q, l'.blocks, l'.count)
    {
      AppendTotals(q, p, l, vs, v, b, timestamp);
      assert Total(q, log.received) + Total(q, queue) + Total(q, log.lost) + Unsent(q, vs)
          == ChainTotal(q, l.blocks, l.count);
    }
  }

  /** The message of an appended block is worth what the block adds to the chain. */
  lemma AppendTotals(q: Measure, p: PowInterface, l: LedgerState, vs: seq<ValidatorPc>, v: nat, b: Block,
                     timestamp: int)
    requires v < |vs| && !vs[v].Reporting? && 0 < l.count < |l.blocks|
    ensures var l', pc := Extended(p, l, b), Reporting(ValidMessage(b, l.count, timestamp));
            Unsent(q, vs[v := pc]) - Unsent(q, vs)
                == ChainTotal(q, l'.blocks, l'.count) - ChainTotal(q, l.blocks, l.count)
  {
    SumRewardsIsSum(b.txs);
    UnsentUpdate(q, vs, v, Reporting(ValidMessage(b, l.count, timestamp)));
    ChainTotalFrame(q, l.blocks, Extended(p, l, b).blocks, l.count);
  }

  /** The message leaves the validator for the queue (`sent`) or is lost. */
  lemma ReportBalance(l: LedgerState, stuck: bool, vs: seq<ValidatorPc>, queue: seq<Message>, log: Log, v: nat,
                      pc: ValidatorPc, sent: bool)
    requires BalanceInv(l, stuck, vs, queue, log) && v < |vs| && vs[v].Reporting? && !pc.Reporting?
    ensures BalanceInv(l, stuck, vs[v := pc], if sent then queue + [vs[v].msg] else queue,
                       if sent then log else log.(lost := log.lost + [vs[v].msg]))
  {
    if !stuck {
      var m := vs[v].msg;
      forall q ensures Unsent(q, vs[v := pc]) == Unsent(q, vs) - MessageValue(q, m) {
        UnsentUpdate(q, vs, v, pc);
      }
      forall q ensures Total(q, queue + [m]) == Total(q, queue) + MessageValue(q, m)
                       && Total(q, log.lost + [m]) == Total(q, log.lost) + MessageValue(q, m)
      {
        TotalSnoc(q, queue, m);
        TotalSnoc(q, log.lost, m);
      }
    }
  }

  lemma ReceiveBalance(l: LedgerState, stuck: bool, vs: seq<ValidatorPc>, queue: seq<Message>, log: Log)
    requires BalanceInv(l, stuck, vs, queue, log) && queue != []
    ensures BalanceInv(l, stuck, vs, queue[1..], log.(received := log.received + [queue[0]]))
  {
    if !stuck {
      forall q ensures Total(q, queue[1..]) == Total(q, queue) - MessageValue(q, queue[0])
                       && Total(q, log.received + [queue[0]]) == Total(q, log.received) + MessageValue(q, queue[0])
      {
        TotalHead(q, queue);
        TotalSnoc(q, log.received, queue[0]);
      }
    }
  }

  lemma SnocCounts(received: seq<Message>, m: Message, i: int)
    ensures Total(Blocks(i), received + [m]) == Total(Blocks(i), received) + MessageValue(Blocks(i), m)
    ensures Total(Credits(i), received + [m]) == Total(Credits(i), received) + MessageValue(Credits(i), m)
    ensures Rejected(i, received + [m])
            == Rejected(i, received) + if m.blockIndex == -1 && MinerIndex(m.minerId) == i then 1 else 0
  {
    TotalSnoc(Blocks(i), received, m);
    TotalSnoc(Credits(i), received, m);
    assert (received + [m])[..|received|] == received;
  }

  lemma BumpSums(st: Stats, m: Message, k: nat)
    requires k < |st.valid| == |st.invalid| == |st.credits|
    ensures var r := Bump(st, m, k);
            && Sum(r.valid) + Sum(r.invalid) == Sum(st.valid) + Sum(st.invalid) + 1
            && Sum(r.valid) - r.inChain == Sum(st.valid) - st.inChain && r.processed == st.processed + 1
            && |r.valid| == |r.invalid| == |r.credits| == |st.valid|
  {
    if m.blockIndex == -1 {
      SumUpdate(st.invalid, k, st.invalid[k] + 1);
    } else {
      SumUpdate(st.valid, k, st.valid[k] + 1);
    }
  }

  lemma BumpAt(st: Stats, received: seq<Message>, m: Message, k: nat, i: nat)
    requires k < |st.valid| == |st.invalid| == |st.credits| && i < |st.valid| && k == MinerIndex(m.minerId)
    requires CounterOk(st, received, i)
    ensures |Bump(st, m, k).valid| == |Bump(st, m, k).invalid| == |Bump(st, m, k).credits| == |st.valid|
    ensures CounterOk(Bump(st, m, k), received + [m], i)
  {
    SnocCounts(received, m, i);
  }

  /** One received message moves exactly one counter, or one counter and its credits. */
  lemma ReceiveCounters(c: Config, st: Stats, received: seq<Message>, m: Message, k: nat)
    requires CountersInv(c, st, received) && k == MinerIndex(m.minerId) && k < c.numMiners
    ensures CountersInv(c, Bump(st, m, k), received + [m])
  {
    BumpSums(st, m, k);
    forall i | 0 <= i < c.numMiners ensures CounterOk(Bump(st, m, k), received + [m], i) {
      BumpAt(st, received, m, k, i);
    }
  }

  // ---------------------------------------------------------------- steps

  lemma ReceiveTime(c: Config, l: LedgerState, stuck: bool, st: Stats, received: seq<Message>, m: Message, r: Stats)
    requires TimeInv(c, l, stuck, st, received) && st.deferred.None? && MessageOk(c, l, stuck, m)
    requires r.totalTime == st.totalTime && r.deferred == if m.blockIndex == -1 then None else Some(m)
    ensures TimeInv(c, l, stuck, r, received + [m])
  {
    assert (received + [m])[..|received|] == received;
  }

  lemma ReceiveParts(c: Config, s: State, r: Stats)
    requires c.numMiners <= INT_MAX && AccountInv(c, s) && s.queue != [] && s.stats.deferred.None?
    requires CountersInv(c, r, s.log.received + [s.queue[0]])
    requires r.totalTime == s.stats.totalTime
    requires r.deferred == if s.queue[0].blockIndex == -1 then None else Some(s.queue[0])
    ensures var log := s.log.(received := s.log.received + [s.queue[0]]);
            AccountInv(c, s.(queue := s.queue[1..], stats := r, log := log))
  {
    assert MessageOk(c, s.ledger, s.ledgerStuck, s.queue[0]);
    ReceiveBalance(s.ledger, s.ledgerStuck, s.validators, s.queue, s.log);
    ReceiveTime(c, s.ledger, s.ledgerStuck, s.stats, s.log.received, s.queue[0], r);
  }

  lemma HeadIndex(c: Config, s: State)
    requires c.numMiners <= INT_MAX && MessagesOk(c, s.ledger, s.ledgerStuck, s.queue) && s.queue != []
    ensures 0 <= MinerIndex(s.queue[0].minerId) < c.numMiners
  {
    assert MessageOk(c, s.ledger, s.ledgerStuck, s.queue[0]);
    FieldIndex(c, s.queue[0].minerId);
  }

  lemma ReceiveKeeps(c: Config, s: State)
    requires c.numMiners <= INT_MAX && AccountInv(c, s) && Enabled(c, s, StatsReceives)
    ensures AccountInv(c, Do(c, s, StatsReceives)) && !Do(c, s, StatsReceives).fault
  {
    HeadIndex(c, s);
    var k := MinerIndex(s.queue[0].minerId);
    ReceiveCounters(c, s.stats, s.log.received, s.queue[0], k);
    ReceiveParts(c, s, Bump(s.stats, s.queue[0], k));
  }

  lemma CountersFrame(c: Config, st: Stats, r: Stats, received: seq<Message>)
    requires CountersInv(c, st, received) && r == st.(totalTime := r.totalTime, deferred := r.deferred)
    ensures CountersInv(c, r, received)
  {
    forall i | 0 <= i < c.numMiners ensures CounterOk(r, received, i) {
      assert CounterOk(st, received, i);
    }
  }

  lemma ReadBlockKeeps(c: Config, s: State)
    requires AccountInv(c, s) && Enabled(c, s, StatsReads)
    ensures AccountInv(c, Do(c, s, StatsReads)) && !Do(c, s, StatsReads).fault
  {
    var m := s.stats.deferred.value;
    WaitsIsSum(s.ledger.blocks[m.blockIndex].txs, m.timestamp);
    CountersFrame(c, s.stats, ReadBlock(s).stats, s.log.received);
  }

  lemma ReportKeeps(c: Config, s: State, v: nat, sent: bool)
    requires AccountInv(c, s) && Enabled(c, s, ValidatorReports(v, sent))
    ensures AccountInv(c, Do(c, s, ValidatorReports(v, sent)))
  {
    assert MessageOk(c, s.ledger, s.ledgerStuck, s.validators[v].msg);
    ReportBalance(s.ledger, s.ledgerStuck, s.validators, s.queue, s.log, v, Waiting, sent);
  }

  lemma LoseKeeps(c: Config, s: State, v: nat)
    requires AccountInv(c, s) && v < |s.validators| && s.validators[v].Reporting?
    ensures AccountInv(c, Die(s, v))
  {
    ReportBalance(s.ledger, s.ledgerStuck, s.validators, s.queue, s.log, v, Dead, false);
  }

  lemma DieKeepsAccount(c: Config, s: State, v: nat)
    requires c.numMiners <= INT_MAX && ChainInv(c, s) && AccountInv(c, s) && v < |s.validators|
    ensures AccountInv(c, Die(s, v))
  {
    if s.validators[v].Reporting? {
      LoseKeeps(c, s, v);
    } else {
      PcKeepsAccount(c, s, v, Dead);
      SameAccount(c, SetValidator(s, v, Dead), Die(s, v));
    }
  }

  lemma StuckKeepsAccount(c: Config, s: State, ledger: LedgerState)
    requires AccountInv(c, s)
    ensures AccountInv(c, s.(ledger := ledger, ledgerStuck := true))
  {
    var r := s.(ledger := ledger, ledgerStuck := true);
    assert forall i :: 0 <= i < |s.queue| ==> MessageOk(c, s.ledger, s.ledgerStuck, s.queue[i]);
    assert forall i :: 0 <= i < |s.log.received| ==> MessageOk(c, s.ledger, s.ledgerStuck, s.log.received[i]);
    assert forall v :: 0 <= v < |s.validators| && s.validators[v].Reporting? ==>
      MessageOk(c, s.ledger, s.ledgerStuck, s.validators[v].msg);
  }

  lemma ExtendedAccount(c: Config, s: State, v: nat, b: Block, timestamp: int)
    requires AccountInv(c, s) && v < |s.validators| && !s.validators[v].Reporting? && !s.ledgerStuck
    requires 0 < s.ledger.count < |s.ledger.blocks| && FieldOk(c, MinerField(b.id))
    ensures var pc := Reporting(ValidMessage(b, s.ledger.count, timestamp));
            AccountInv(c, SetValidator(s, v, pc).(ledger := Extended(c.pow, s.ledger, b)))
  {
    var l := s.ledger;
    var l', m := Extended(c.pow, l, b), ValidMessage(b, l.count, timestamp);
    assert MessageOk(c, l', false, m);
    AppendBalance(c.pow, l, s.validators, s.queue, s.log, v, b, timestamp);
    MessagesGrow(c, l, l', s.queue, s.validators);
    TimeGrows(c, l, l', s.stats, s.log.received);
  }

  lemma AppendKeepsAccount(c: Config, s: State, v: nat, timestamp: int)
    requires ConfigOk(c) && ChainInv(c, s) && CollisionFree(c, s) && AccountInv(c, s)
    requires Enabled(c, s, ValidatorAppends(v, timestamp))
    ensures AccountInv(c, Do(c, s, ValidatorAppends(v, timestamp)))
  {
    var b, l, r := s.validators[v].block, s.ledger, Do(c, s, ValidatorAppends(v, timestamp));
    if TipMatches(b.prev, l.lastHash) {
      MatchingAppend(c, s, v, timestamp);
      HeldBlockField(c, s, v);
      var pc := Reporting(ValidMessage(b, l.count, timestamp));
      ExtendedAccount(c, s, v, b, timestamp);
      SameAccount(c, SetValidator(s, v, pc).(ledger := Extended(c.pow, l, b)), r);
    } else {
      PcKeepsAccount(c, s, v, Waiting);
      SameAccount(c, SetValidator(s, v, Waiting), r);
    }
  }

  lemma HeldBlockField(c: Config, s: State, v: nat)
    requires c.numMiners <= INT_MAX && ChainInv(c, s) && v < |s.validators| && CarriesBlock(s.validators[v])
    ensures FieldOk(c, MinerField(s.validators[v].block.id))
  {
    assert ValidatorOk(c, s.ledger, s.ledgerStuck, s.validators[v]);
    MinedField(c, s.validators[v].block);
  }

  lemma StartEffect(c: Config, s: State, v: nat)
    requires Enabled(c, s, ValidatorStarts(v)) && !Do(c, s, ValidatorStarts(v)).fault
    ensures var r := Do(c, s, ValidatorStarts(v));
            && r == SetValidator(s, v, Waiting).(ledger := r.ledger)
            && if s.ledger.count == 0 then r.ledger.count == 1 else r.ledger == s.ledger
  {
  }

  lemma GenesisKeepsAccount(c: Config, s: State, l': LedgerState, v: nat)
    requires AccountInv(c, s) && !s.ledgerStuck && v < |s.validators| && s.validators[v].Starting?
    requires s.ledger.count == 0 && l'.count == 1 <= |l'.blocks| && Grows(s.ledger, l')
    ensures AccountInv(c, SetValidator(s, v, Waiting).(ledger := l'))
  {
    var l := s.ledger;
    QuietBalance(l, false, s.validators, s.queue, s.log, v, Waiting);
    assert forall q :: ChainTotal(q, l.blocks, 0) == 0 && ChainTotal(q, l'.blocks, 1) == 0;
    MessagesGrow(c, l, l', s.queue, s.validators);
    TimeGrows(c, l, l', s.stats, s.log.received);
  }

  lemma StartKeepsAccount(c: Config, s: State, v: nat)
    requires ConfigOk(c) && ChainInv(c, s) && AccountInv(c, s) && Enabled(c, s, ValidatorStarts(v))
    ensures AccountInv(c, Do(c, s, ValidatorStarts(v)))
  {
    StartKeeps(c, s, v);
    StartEffect(c, s, v);
    if s.ledger.count == 0 {
      GenesisKeepsAccount(c, s, Do(c, s, ValidatorStarts(v)).ledger, v);
    } else {
      PcKeepsAccount(c, s, v, Waiting);
    }
  }

  lemma JoinKeepsAccount(c: Config, s: State)
    requires AccountInv(c, s) && Enabled(c, s, ValidatorJoins)
    ensures AccountInv(c, Do(c, s, ValidatorJoins))
  {
    var vs := s.validators + [Starting];
    forall q ensures Unsent(q, vs) == Unsent(q, s.validators) {
      assert vs[..|s.validators|] == s.validators;
    }
    forall v | 0 <= v < |vs| && vs[v].Reporting? ensures MessageOk(c, s.ledger, s.ledgerStuck, vs[v].msg) {
      assert vs[v] == s.validators[v];
    }
  }

  /** Reading the pipe, and checks that pass or reject. */
  lemma PcKeepsAccount(c: Config, s: State, v: nat, pc: ValidatorPc)
    requires c.numMiners <= INT_MAX && ChainInv(c, s) && AccountInv(c, s) && v < |s.validators|
    requires !s.validators[v].Reporting?
    requires pc.Reporting? ==> CarriesBlock(s.validators[v]) && pc.msg == InvalidMessage(s.validators[v].block)
    ensures AccountInv(c, SetValidator(s, v, pc))
  {
    if pc.Reporting? {
      HeldBlockField(c, s, v);
    }
    QuietBalance(s.ledger, s.ledgerStuck, s.validators, s.queue, s.log, v, pc);
  }

  lemma SameAccount(c: Config, s: State, r: State)
    requires AccountInv(c, s)
    requires r.ledger == s.ledger && r.ledgerStuck == s.ledgerStuck && r.validators == s.validators
    requires r.queue == s.queue && r.stats == s.stats && r.log == s.log
    ensures AccountInv(c, r)
  {
  }

  lemma ReadKeepsAccount(c: Config, s: State, v: nat)
    requires ConfigOk(c) && ChainInv(c, s) && AccountInv(c, s) && Enabled(c, s, ValidatorReads(v))
    ensures AccountInv(c, Do(c, s, ValidatorReads(v)))
  {
    var r := Do(c, s, ValidatorReads(v));
    PcKeepsAccount(c, s, v, r.validators[v]);
    SameAccount(c, SetValidator(s, v, r.validators[v]), r);
  }

  lemma CheckKeepsAccount(c: Config, s: State, v: nat)
    requires ConfigOk(c) && ChainInv(c, s) && AccountInv(c, s) && Enabled(c, s, ValidatorChecks(v))
    ensures AccountInv(c, Do(c, s, ValidatorChecks(v)))
  {
    PcKeepsAccount(c, s, v, Do(c, s, ValidatorChecks(v)).validators[v]);
  }

  lemma CommitKeepsAccount(c: Config, s: State, v: nat)
    requires ConfigOk(c) && ChainInv(c, s) && AccountInv(c, s) && Enabled(c, s, ValidatorCommits(v))
    ensures AccountInv(c, Do(c, s, ValidatorCommits(v)))
  {
    var r := Do(c, s, ValidatorCommits(v));
    PcKeepsAccount(c, s, v, r.validators[v]);
    SameAccount(c, SetValidator(s, v, r.validators[v]), r);
  }

  lemma DieStepKeepsAccount(c: Config, s: State, a: Step)
    requires ConfigOk(c) && ChainInv(c, s) && AccountInv(c, s) && Enabled(c, s, a)
    requires a.ValidatorDies? || a.ValidatorDiesInPool?
    ensures AccountInv(c, Do(c, s, a))
  {
    DieKeepsAccount(c, s, a.v);
    SameAccount(c, Die(s, a.v), Do(c, s, a));
  }

  lemma DieInLedgerKeepsAccount(c: Config, s: State, v: nat, ledger: LedgerState)
    requires ConfigOk(c) && ChainInv(c, s) && AccountInv(c, s) && Enabled(c, s, ValidatorDiesInLedger(v, ledger))
    ensures AccountInv(c, Do(c, s, ValidatorDiesInLedger(v, ledger)))
  {
    DieKeepsAccount(c, s, v);
    StuckKeepsAccount(c, Die(s, v), ledger);
  }

  lemma GeneratorFrame(c: Config, s: State, a: Step)
    requires Enabled(c, s, a) && (a.GeneratorJoins? || a.Generates? || a.GeneratorDiesInPool?)
    ensures var r := Do(c, s, a);
            r == s.(pool := r.pool, poolStuck := r.poolStuck, generators := r.generators, h := r.h)
  {
  }

  lemma ValidatorStepKeepsAccount(c: Config, s: State, a: Step)
    requires ConfigOk(c) && ChainInv(c, s) && CollisionFree(c, s) && AccountInv(c, s) && Enabled(c, s, a)
    requires !OfMiner(a) && !Elsewhere(a)
    ensures AccountInv(c, Do(c, s, a))
  {
    if a.ValidatorJoins? {
      JoinKeepsAccount(c, s);
    } else if a.ValidatorStarts? {
      StartKeepsAccount(c, s, a.v);
    } else if a.ValidatorAppends? {
      AppendKeepsAccount(c, s, a.v, a.timestamp);
    } else if a.ValidatorReports? {
      ReportKeeps(c, s, a.v, a.sent);
    } else if a.ValidatorReads? {
      ReadKeepsAccount(c, s, a.v);
    } else if a.ValidatorChecks? {
      CheckKeepsAccount(c, s, a.v);
    } else if a.ValidatorCommits? {
      CommitKeepsAccount(c, s, a.v);
    } else if a.ValidatorDiesInLedger? {
      DieInLedgerKeepsAccount(c, s, a.v, a.ledger);
    } else {
      DieStepKeepsAccount(c, s, a);
    }
  }

  /** Every step of every process keeps the books. */
  lemma StepKeepsAccount(c: Config, s: State, a: Step)
    requires ConfigOk(c) && ChainInv(c, s) && CollisionFree(c, s) && AccountInv(c, s) && Enabled(c, s, a)
    ensures AccountInv(c, Do(c, s, a))
  {
    if OfMiner(a) {
      MinerFrame(c, s, a);
      SameAccount(c, s, Do(c, s, a));
    } else if a.StatsReceives? {
      ReceiveKeeps(c, s);
    } else if a.StatsReads? {
      ReadBlockKeeps(c, s);
    } else if Elsewhere(a) {
      GeneratorFrame(c, s, a);
      SameAccount(c, s, Do(c, s, a));
    } else {
      ValidatorStepKeepsAccount(c, s, a);
    }
  }

  /** No step writes out of bounds, neither in the ledger nor in the counters. */
  lemma StepNoFault(c: Config, s: State, a: Step)
    requires ConfigOk(c) && ChainInv(c, s) && CollisionFree(c, s) && AccountInv(c, s) && Enabled(c, s, a)
    ensures !Do(c, s, a).fault
  {
    if a.StatsReceives? {
      ReceiveKeeps(c, s);
    } else if a.StatsReads? {
      ReadBlockKeeps(c, s);
    } else {
      StepGrowsLedger(c, s, a);
    }
  }
}
