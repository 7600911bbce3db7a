/**
 Two runs of the protocol on a small configuration, with pow.c's own search and check over a digest function that is
 written out, and with nothing killed. With a digest function of one value the ledger overflows, so the hypothesis on
 collisions is needed. With two validators a block that has passed both checks is refused at the end and its
 transaction is lost, although nothing collides. In both, two miners build on the same tip.
 */
module Witnesses {
  import opened CStrings
  import opened Records
  import opened Pow
  import opened Pool
  import opened Ledger
  import opened Protocol
  import opened ChainInvariant
  import opened TxInvariant
  import opened Theorems
  import opened Fates

  // ---------------------------------------------------------------- digests

  /** A 32-byte digest that writes the number `x`. */
  function Small(x: Byte): (d: seq<Byte>)
  {
    seq(31, _ => 0) + [x]
  }

  const TIP: seq<Byte> := Hex(Small(1)) + [NUL]

  const OTHER: seq<Byte> := Hex(Small(2)) + [NUL]

  /** One digest for everything. */
  const ONE_DIGEST: Sha := (m: seq<Byte>) => Small(1)

  /** One digest for what names `TIP` as its previous hash, another for the rest. */
  const TWO_DIGESTS: Sha := (m: seq<Byte>) => if |m| >= 129 && m[64..129] == TIP then Small(2) else Small(1)

  ghost predicate IsSmall(sha: Sha)
  {
    forall m :: sha(m) == Small(1) || sha(m) == Small(2)
  }

  lemma PrintedShape(d: seq<Byte>)
    requires |d| == 32
    ensures var h := Hex(d) + [NUL]; HashShape(h) && CStr(h) == Hex(d) && StrNCpy(h, HASH_SIZE) == h
  {
    assert NUL !in Hex(d);
    CStrOfPad(Hex(d), HASH_SIZE);
    assert Pad(Hex(d), HASH_SIZE) == Hex(d) + [NUL];
  }

  lemma TipsDiffer()
    ensures !TipMatches(TIP, OTHER) && TIP != Zeros(HASH_SIZE)
  {
    PrintedShape(Small(1));
    PrintedShape(Small(2));
    CStrOfZeros(HASH_SIZE);
    HexPair(Small(1), 31);
    HexPair(Small(2), 31);
  }

  /** Sixty-three zeros meet every difficulty. */
  lemma SmallMeets(x: Byte, reward: int)
    requires 1 <= x < 10
    ensures Meets(Hex(Small(x)), reward)
  {
    var s := Hex(Small(x));
    forall i | 0 <= i < 63 ensures s[i] == ZERO {
      HexPair(Small(x), i / 2);
    }
    HexPair(Small(x), 31);
    ScanDecidesThreshold(s, 63, s[63], reward);
  }

  /** What the protocol sees of pow.c over such a digest function: nonce 0 is always found, and verifies. */
  ghost predicate Easy(p: PowInterface)
  {
    forall b :: HashShape(p.hash(b)) && p.mine(b) == Some(0) && p.verify(b)
  }

  lemma SmallIsEasy(sha: Sha)
    requires IsSmall(sha)
    ensures IsSha(sha) && Easy(PowOf(sha))
  {
    forall b ensures VerifyNonce(sha, b) {
      SmallMeets(1, MaxReward(b.txs));
      SmallMeets(2, MaxReward(b.txs));
    }
    forall b ensures HashShape(HashBuf(sha, b)) && FirstNonce(sha, b) == Some(0) {
      PrintedShape(sha(Serialize(b)));
      assert NonceOk(sha, b)(0);
    }
  }

  // ---------------------------------------------------------------- the configuration

  /** Room for genesis and one block, one transaction in a block, two miner threads, a pool of one slot. */
  function Tiny(sha: Sha): (c: Config)
  {
    Config(PowOf(sha), 2, 1, 1, 2)
  }

  ghost predicate Suits(c: Config)
  {
    c == Config(c.pow, 2, 1, 1, 2) && Easy(c.pow) && c.pow.hash(GenesisBlock(1, 0)) == TIP
  }

  function Generated(n: nat): (t: Tx)
  {
    Tx(SnPrint(TxName(1, n), TX_ID_LEN), 1, 0, 0)
  }

  lemma GeneratedName(n: nat)
    requires n <= INT_MAX
    ensures |Generated(n).id| == TX_ID_LEN && Canonical(Generated(n).id)
    ensures NameOf(Generated(n)) == TxName(1, n) != ZERO_ID && CopyOf(Generated(n)) == Generated(n)
  {
    PrintedIntLength(1);
    PrintedIntLength(n);
    CStrOfPad(TxName(1, n), TX_ID_LEN);
  }

  function Mined(i: nat, n: nat): (b: Block)
  {
    Block(BlockIdField(i + 1, 0), TIP, 0, 0, [Generated(n)])
  }

  lemma MinedWellFormed(i: nat, n: nat)
    requires i < 2 && n <= 1
    ensures WellFormed(Mined(i, n), 1)
  {
    BlockIdFieldPrefix(i + 1, 0);
    PrintedShape(Small(1));
    GeneratedName(n);
  }

  ghost predicate Free(s: State)
  {
    !s.fault && !s.poolStuck && !s.ledgerStuck && |s.miners| == 2 && |s.validators| == 2
  }

  predicate EmptySlot(p: PoolState)
  {
    |p.slots| == 1 && !p.slots[0].filled && p.count == 0
  }

  function Filled(n: nat): (p: PoolState)
  {
    PoolState([Slot(true, 0, Generated(n))], 1)
  }

  // ---------------------------------------------------------------- single steps

  lemma GenerateStep(c: Config, s: State, n: nat)
    requires Free(s) && EmptySlot(s.pool) && s.generators == map[1 := n] && n <= 1
    ensures Enabled(c, s, Generates(1, Generated(n)))
    ensures var r := Do(c, s, Generates(1, Generated(n)));
            r == s.(pool := Filled(n), generators := map[1 := n + 1], h := r.h)
  {
    GeneratedName(n);
    assert FirstFree(s.pool.slots) == 0;
    assert s.pool.slots[0 := Slot(true, 0, Generated(n))] == [Slot(true, 0, Generated(n))];
  }

  lemma PickStep(c: Config, s: State, i: nat, n: nat)
    requires Free(s) && c.txsPerBlock == 1 && s.pool == Filled(n) && n <= 1 && i < 2 && s.miners[i] == Miner(Idle, 0)
    ensures Enabled(c, s, MinerPicks(i, [Generated(n)]))
    ensures Do(c, s, MinerPicks(i, [Generated(n)])) == SetMiner(s, i, Miner(Picked([Generated(n)]), 0))
  {
    GeneratedName(n);
    assert s.pool.slots[0].filled;
    assert Selectable(s.pool.slots, Generated(n));
  }

  lemma TipStep(c: Config, s: State, i: nat, txs: seq<Tx>)
    requires Free(s) && i < 2 && s.miners[i] == Miner(Picked(txs), 0) && TipFor(s.ledger) == Some(TIP)
    ensures Enabled(c, s, MinerReadsTip(i))
    ensures Do(c, s, MinerReadsTip(i)) == SetMiner(s, i, Miner(Ready(txs, TIP), 0))
  {
  }

  lemma MineStep(c: Config, s: State, i: nat, n: nat)
    requires Easy(c.pow) && Free(s) && i < 2 && s.miners[i] == Miner(Ready([Generated(n)], TIP), 0) && s.pipe == []
    ensures Enabled(c, s, MinerMines(i, 0))
    ensures Do(c, s, MinerMines(i, 0)) == SetMiner(s, i, Miner(Idle, 1)).(pipe := [Mined(i, n)])
  {
    PrintedShape(Small(1));
  }

  lemma ReadStep(c: Config, s: State, v: nat, b: Block)
    requires Free(s) && v < 2 && s.validators[v] == Waiting && s.pipe == [b]
    ensures Enabled(c, s, ValidatorReads(v))
    ensures Do(c, s, ValidatorReads(v)) == SetValidator(s, v, Received(b)).(pipe := [])
  {
  }

  lemma CheckStep(c: Config, s: State, v: nat, b: Block)
    requires Easy(c.pow) && Free(s) && v < 2 && s.validators[v] == Received(b) && b.prev == s.ledger.lastHash
    ensures Enabled(c, s, ValidatorChecks(v))
    ensures Do(c, s, ValidatorChecks(v)) == SetValidator(s, v, Passed(b))
  {
  }

  lemma CommitStep(c: Config, s: State, v: nat, b: Block, n: nat)
    requires Free(s) && v < 2 && s.validators[v] == Passed(b) && s.pool == Filled(n) && b.txs == [Generated(n)]
    ensures Enabled(c, s, ValidatorCommits(v))
    ensures var r := Do(c, s, ValidatorCommits(v));
            EmptySlot(r.pool) && r == SetValidator(s, v, Holding(b)).(pool := r.pool, h := r.h)
  {
    assert s.pool.slots[0].filled && Listed(s.pool.slots, Generated(n));
    assert TxNames([Generated(n)]) == {NameOf(Generated(n))} by { assert [Generated(n)][0] == Generated(n); }
  }

  lemma ReportStep(c: Config, s: State, v: nat, m: Message)
    requires Free(s) && v < 2 && s.validators[v] == Reporting(m)
    ensures Enabled(c, s, ValidatorReports(v, false))
    ensures var r := Do(c, s, ValidatorReports(v, false)); r == SetValidator(s, v, Waiting).(log := r.log)
  {
  }

  lemma AppendFits(c: Config, l: LedgerState, b: Block)
    requires PowOk(c.pow) && ChainOk(c.pow, 1, l) && l.count == 1 < |l.blocks| && WellFormed(b, 1)
    requires b.prev == l.lastHash
    ensures AppendInBounds(c, l, b) && Append(l, b, c.pow.hash(b)) == Extended(c.pow, l, b) && l.lastIndex == 0
  {
    AppendKeepsChain(c.pow, 1, l, b);
  }

  lemma AppendEffect(c: Config, s: State, v: nat, b: Block, l: LedgerState)
    requires Free(s) && v < 2 && s.validators[v] == Holding(b) && b.prev == s.ledger.lastHash && s.ledger.lastIndex == 0
    requires AppendInBounds(c, s.ledger, b) && Append(s.ledger, b, c.pow.hash(b)) == l
    ensures var r := AppendBlock(c, s, v, 0);
            r == SetValidator(s, v, Reporting(ValidMessage(b, 1, 0))).(ledger := l, h := r.h)
  {
  }

  lemma OverflowStep(c: Config, s: State, v: nat, b: Block)
    requires Free(s) && v < 2 && s.validators[v] == Holding(b) && b.prev == s.ledger.lastHash
    requires s.ledger.lastIndex + 1 == |s.ledger.blocks|
    ensures Enabled(c, s, ValidatorAppends(v, 0)) && Do(c, s, ValidatorAppends(v, 0)) == s.(fault := true)
  {
  }

  lemma DropStep(c: Config, s: State, v: nat, i: nat, n: nat)
    requires Free(s) && v < 2 && s.validators[v] == Holding(Mined(i, n)) && !TipMatches(TIP, s.ledger.lastHash)
    requires n <= 1
    ensures Enabled(c, s, ValidatorAppends(v, 0)) && Loses(s, ValidatorAppends(v, 0), TxName(1, n))
    ensures !Do(c, s, ValidatorAppends(v, 0)).fault
  {
    GeneratedName(n);
    assert Mined(i, n).txs[0] == Generated(n);
  }

  // ---------------------------------------------------------------- runs

  datatype Trace = Trace(states: seq<State>, steps: seq<Step>)

  predicate Kills(a: Step)
  {
    a.ValidatorDies? || a.ValidatorDiesInPool? || a.ValidatorDiesInLedger? || a.GeneratorDiesInPool?
  }

  /** A run that ends in `s` and in which nothing is killed. */
  ghost predicate Reaches(c: Config, tr: Trace, s: State)
  {
    && Run(c, tr.states, tr.steps) && tr.states[|tr.steps|] == s
    && forall k :: 0 <= k < |tr.steps| ==> !Kills(tr.steps[k])
  }

  lemma Go(c: Config, tr: Trace, s: State, a: Step) returns (more: Trace)
    requires Reaches(c, tr, s) && Enabled(c, s, a) && !Kills(a)
    ensures more == Trace(tr.states + [Do(c, s, a)], tr.steps + [a])
    ensures Reaches(c, more, Do(c, s, a))
  {
    more := Trace(tr.states + [Do(c, s, a)], tr.steps + [a]);
    forall k: nat | k < |more.steps| ensures Taken(c, more.states, more.steps, k) {
      assert k < |tr.steps| ==> Taken(c, tr.states, tr.steps, k);
    }
  }

  /** A generator fills the slot, miner `i` copies it and then reads the tip. */
  lemma Selects(c: Config, tr: Trace, s: State, i: nat, n: nat) returns (more: Trace, r: State)
    requires c.txsPerBlock == 1 && Reaches(c, tr, s) && Free(s) && EmptySlot(s.pool) && s.generators == map[1 := n]
    requires n <= 1
    requires i < 2 && s.miners[i] == Miner(Idle, 0) && TipFor(s.ledger) == Some(TIP)
    ensures Reaches(c, more, r)
    ensures r == s.(pool := Filled(n), generators := map[1 := n + 1],
                    miners := s.miners[i := Miner(Ready([Generated(n)], TIP), 0)], h := r.h)
  {
    var txs := [Generated(n)];
    GenerateStep(c, s, n);
    more := Go(c, tr, s, Generates(1, Generated(n)));
    var s1 := Do(c, s, Generates(1, Generated(n)));
    PickStep(c, s1, i, n);
    more := Go(c, more, s1, MinerPicks(i, txs));
    var s2 := SetMiner(s1, i, Miner(Picked(txs), 0));
    TipStep(c, s2, i, txs);
    more := Go(c, more, s2, MinerReadsTip(i));
    r := SetMiner(s2, i, Miner(Ready(txs, TIP), 0));
  }

  /** Miner `i` mines, and validator `v` takes the block through its first two sections. */
  lemma Accepted(c: Config, tr: Trace, s: State, i: nat, n: nat, v: nat) returns (more: Trace, r: State)
    requires Easy(c.pow)
    requires Reaches(c, tr, s) && Free(s) && s.pool == Filled(n) && s.pipe == [] && v < 2 && s.validators[v] == Waiting
    requires i < 2 && s.miners[i] == Miner(Ready([Generated(n)], TIP), 0) && s.ledger.lastHash == TIP
    ensures Reaches(c, more, r) && EmptySlot(r.pool)
    ensures r == SetValidator(s, v, Holding(Mined(i, n))).(
                   pool := r.pool, miners := s.miners[i := Miner(Idle, 1)], h := r.h)
  {
    var b, s2 := Mined(i, n), s;
    more, s2 := Reads(c, tr, s, i, n, v);
    CheckStep(c, s2, v, b);
    more := Go(c, more, s2, ValidatorChecks(v));
    var s3 := SetValidator(s2, v, Passed(b));
    CommitStep(c, s3, v, b, n);
    more := Go(c, more, s3, ValidatorCommits(v));
    r := Do(c, s3, ValidatorCommits(v));
  }

  lemma Reads(c: Config, tr: Trace, s: State, i: nat, n: nat, v: nat) returns (more: Trace, r: State)
    requires Easy(c.pow) && Reaches(c, tr, s) && Free(s) && s.pipe == [] && v < 2 && s.validators[v] == Waiting
    requires i < 2 && s.miners[i] == Miner(Ready([Generated(n)], TIP), 0)
    ensures Reaches(c, more, r)
    ensures r == SetValidator(s, v, Received(Mined(i, n))).(miners := s.miners[i := Miner(Idle, 1)])
  {
    MineStep(c, s, i, n);
    more := Go(c, tr, s, MinerMines(i, 0));
    var s1 := SetMiner(s, i, Miner(Idle, 1)).(pipe := [Mined(i, n)]);
    ReadStep(c, s1, v, Mined(i, n));
    more := Go(c, more, s1, ValidatorReads(v));
    r := Do(c, s1, ValidatorReads(v));
  }

  /** Validator `v` appends what it holds and loses its message. */
  lemma Appends(c: Config, tr: Trace, s: State, v: nat, b: Block) returns (more: Trace, r: State)
    requires PowOk(c.pow) && Reaches(c, tr, s) && Free(s) && v < 2 && s.validators[v] == Holding(b)
    requires b.prev == s.ledger.lastHash
    requires ChainOk(c.pow, 1, s.ledger) && s.ledger.count == 1 && |s.ledger.blocks| == 2 && WellFormed(b, 1)
    ensures Reaches(c, more, r)
    ensures r == SetValidator(s, v, Waiting).(ledger := Extended(c.pow, s.ledger, b), h := r.h, log := r.log)
  {
    AppendFits(c, s.ledger, b);
    DoAppends(c, s, v, 0);
    AppendEffect(c, s, v, b, Extended(c.pow, s.ledger, b));
    more := Go(c, tr, s, ValidatorAppends(v, 0));
    var s1 := AppendBlock(c, s, v, 0);
    ReportStep(c, s1, v, ValidMessage(b, 1, 0));
    more := Go(c, more, s1, ValidatorReports(v, false));
    r := Do(c, s1, ValidatorReports(v, false));
  }

  lemma SuitsIsOk(c: Config)
    requires Suits(c)
    ensures ConfigOk(c)
  {
  }

  /** Genesis stored on the way. */
  lemma GenesisStep(c: Config, s: State)
    requires Suits(c) && Free(s) && s.validators[0] == Starting && s.ledger == EmptyLedger(2, 1)
    ensures Enabled(c, s, ValidatorStarts(0))
    ensures var r := Do(c, s, ValidatorStarts(0));
            && r == SetValidator(s, 0, Waiting).(ledger := r.ledger) && r.ledger.count == 1 && |r.ledger.blocks| == 2
            && r.ledger.lastHash == TIP && TipFor(r.ledger) == Some(TIP) && ChainOk(c.pow, 1, r.ledger)
  {
    SuitsIsOk(c);
    PrintedShape(Small(1));
    GenesisKeepsChain(c.pow, 1, s.ledger, 0);
  }

  /** Both validators wait for blocks and one generator is at work. */
  lemma Started(c: Config) returns (tr: Trace, s: State)
    requires Suits(c)
    ensures Reaches(c, tr, s) && Free(s) && EmptySlot(s.pool) && s.generators == map[1 := 0] && s.pipe == []
    ensures s.miners == [Miner(Idle, 0), Miner(Idle, 0)] && s.validators == [Waiting, Waiting]
    ensures s.ledger.count == 1 && |s.ledger.blocks| == 2 && s.ledger.lastHash == TIP && TipFor(s.ledger) == Some(TIP)
    ensures ChainOk(c.pow, 1, s.ledger)
  {
    var s0 := Init(c);
    tr := Go(c, Trace([s0], []), s0, GeneratorJoins(1));
    var s1 := s0.(generators := map[1 := 0]);
    assert Do(c, s0, GeneratorJoins(1)) == s1;
    tr := Go(c, tr, s1, ValidatorJoins);
    var s2 := s1.(validators := [Starting, Starting]);
    assert Do(c, s1, ValidatorJoins) == s2;
    GenesisStep(c, s2);
    tr := Go(c, tr, s2, ValidatorStarts(0));
    var s3 := Do(c, s2, ValidatorStarts(0));
    tr := Go(c, tr, s3, ValidatorStarts(1));
    s := SetValidator(s3, 1, Waiting);
  }

  /** The first block is with validator 0 and the second miner has read the tip it was mined on. */
  lemma BothOnOneTip(c: Config) returns (tr: Trace, s: State)
    requires Suits(c)
    ensures Reaches(c, tr, s) && Free(s) && s.pool == Filled(1) && s.pipe == []
    ensures s.validators == [Holding(Mined(0, 0)), Waiting] && s.miners[1] == Miner(Ready([Generated(1)], TIP), 0)
    ensures s.ledger.count == 1 && |s.ledger.blocks| == 2 && s.ledger.lastHash == TIP && ChainOk(c.pow, 1, s.ledger)
  {
    tr, s := FirstHeld(c);
    tr, s := Selects(c, tr, s, 1, 1);
  }

  lemma FirstHeld(c: Config) returns (tr: Trace, s: State)
    requires Suits(c)
    ensures Reaches(c, tr, s) && Free(s) && EmptySlot(s.pool) && s.generators == map[1 := 1] && s.pipe == []
    ensures s.validators == [Holding(Mined(0, 0)), Waiting] && s.miners[1] == Miner(Idle, 0)
    ensures s.ledger.count == 1 && |s.ledger.blocks| == 2 && s.ledger.lastHash == TIP && TipFor(s.ledger) == Some(TIP)
    ensures ChainOk(c.pow, 1, s.ledger)
  {
    tr, s := Started(c);
    tr, s := Selects(c, tr, s, 0, 0);
    tr, s := Accepted(c, tr, s, 0, 0, 0);
  }

  // ---------------------------------------------------------------- what can happen

  /**
   Without the hypothesis on collisions the ledger does overflow: the tip never changes, and the append of the second
   block finds no slot left.
   */
  lemma CollisionsOverflow() returns (tr: Trace, s: State)
    ensures IsSha(ONE_DIGEST) && ConfigOk(Tiny(ONE_DIGEST)) && Reaches(Tiny(ONE_DIGEST), tr, s) && s.fault
    ensures s.ledger.count == s.ledger.lastIndex + 1 == |s.ledger.blocks| == Tiny(ONE_DIGEST).numBlocks
  {
    SmallIsEasy(ONE_DIGEST);
    tr, s := OneTipOverflows(Tiny(ONE_DIGEST));
  }

  lemma OneTipOverflows(c: Config) returns (tr: Trace, s: State)
    requires Suits(c) && forall b :: c.pow.hash(b) == TIP
    ensures ConfigOk(c) && Reaches(c, tr, s) && s.fault
    ensures s.ledger.count == s.ledger.lastIndex + 1 == |s.ledger.blocks| == c.numBlocks
  {
    SuitsIsOk(c);
    tr, s := SecondHeld(c);
    OverflowStep(c, s, 0, Mined(1, 1));
    tr := Go(c, tr, s, ValidatorAppends(0, 0));
    s := s.(fault := true);
  }

  /** The first block is appended, and the second has passed both checks with validator 0 all the same. */
  lemma SecondHeld(c: Config) returns (tr: Trace, s: State)
    requires Suits(c) && forall b :: c.pow.hash(b) == TIP
    ensures Reaches(c, tr, s) && Free(s) && s.validators[0] == Holding(Mined(1, 1))
    ensures s.ledger.lastHash == TIP && s.ledger.count == s.ledger.lastIndex + 1 == |s.ledger.blocks| == c.numBlocks
  {
    SuitsIsOk(c);
    tr, s := BothOnOneTip(c);
    MinedWellFormed(0, 0);
    tr, s := Appends(c, tr, s, 0, Mined(0, 0));
    tr, s := Accepted(c, tr, s, 1, 1, 0);
  }

  /**
   With two validators a transaction can be lost although nothing is killed and nothing collides: both blocks pass both
   checks, the first one is appended, and the second one is refused with its transaction already off the pool.
   */
  lemma TwoValidatorsDrop() returns (tr: Trace, s: State)
    ensures IsSha(TWO_DIGESTS) && ConfigOk(Tiny(TWO_DIGESTS)) && Reaches(Tiny(TWO_DIGESTS), tr, s)
    ensures CollisionFreeRun(Tiny(TWO_DIGESTS), tr.states) && !s.fault
    ensures Lost(tr.states, tr.steps, |tr.steps|, TxName(1, 1))
  {
    TwoDigestsSuit();
    MinedWellFormed(0, 0);
    TwoHashes(Mined(0, 0));
    TipsDiffer();
    tr, s := SecondIsDropped(Tiny(TWO_DIGESTS));
    NothingCollides(tr.states, tr.steps);
  }

  lemma SecondIsDropped(c: Config) returns (tr: Trace, s: State)
    requires Suits(c) && !TipMatches(TIP, c.pow.hash(Mined(0, 0)))
    ensures Reaches(c, tr, s) && !s.fault && Lost(tr.states, tr.steps, |tr.steps|, TxName(1, 1))
  {
    var before, earlier;
    earlier, before := FirstAppended(c);
    DropStep(c, before, 1, 1, 1);
    tr := Go(c, earlier, before, ValidatorAppends(1, 0));
    s := Do(c, before, ValidatorAppends(1, 0));
    LossIsLast(c, earlier, tr, before, ValidatorAppends(1, 0), TxName(1, 1));
  }

  /** Both blocks have passed both checks, and the first one is appended. */
  lemma FirstAppended(c: Config) returns (tr: Trace, s: State)
    requires Suits(c)
    ensures Reaches(c, tr, s) && Free(s) && s.validators[1] == Holding(Mined(1, 1))
    ensures s.ledger.lastHash == c.pow.hash(Mined(0, 0))
  {
    SuitsIsOk(c);
    tr, s := BothOnOneTip(c);
    tr, s := Accepted(c, tr, s, 1, 1, 1);
    MinedWellFormed(0, 0);
    tr, s := Appends(c, tr, s, 0, Mined(0, 0));
  }

  lemma LossIsLast(c: Config, tr: Trace, more: Trace, s: State, a: Step, n: Name)
    requires Reaches(c, tr, s) && Enabled(c, s, a) && Loses(s, a, n)
    requires more == Trace(tr.states + [Do(c, s, a)], tr.steps + [a])
    ensures Lost(more.states, more.steps, |more.steps|, n)
  {
    assert LosesAt(more.states, more.steps, |tr.steps|, n);
  }

  /** The hash of a block under `TWO_DIGESTS`. */
  lemma TwoHashes(b: Block)
    requires Shaped(b)
    ensures Tiny(TWO_DIGESTS).pow.hash(b) == if b.prev == TIP then OTHER else TIP
  {
    SerializeFields(b);
  }

  lemma TwoDigestsSuit()
    ensures IsSha(TWO_DIGESTS) && Suits(Tiny(TWO_DIGESTS)) && ConfigOk(Tiny(TWO_DIGESTS))
  {
    SmallIsEasy(TWO_DIGESTS);
    TwoHashes(GenesisBlock(1, 0));
    TipsDiffer();
    SuitsIsOk(Tiny(TWO_DIGESTS));
  }

  /** No run of this configuration has a collision: genesis hashes to one value, what is built on it to the other. */
  lemma NothingCollides(states: seq<State>, steps: seq<Step>)
    requires Run(Tiny(TWO_DIGESTS), states, steps)
    ensures CollisionFreeRun(Tiny(TWO_DIGESTS), states)
  {
    TwoDigestsSuit();
    forall s | s in states && Inv(Tiny(TWO_DIGESTS), s) ensures CollisionFree(Tiny(TWO_DIGESTS), s) {
      StateNeverCollides(s);
    }
    forall k | 0 <= k < |states| ensures CollisionFree(Tiny(TWO_DIGESTS), states[k]) {
      InductiveInv(Tiny(TWO_DIGESTS), states, steps, k);
    }
  }

  lemma StateNeverCollides(s: State)
    requires Inv(Tiny(TWO_DIGESTS), s)
    ensures CollisionFree(Tiny(TWO_DIGESTS), s)
  {
    if !s.ledgerStuck {
      LedgerShaped(Tiny(TWO_DIGESTS), s);
      LedgerNeverCollides(s.ledger);
    }
  }

  lemma LedgerNeverCollides(l: LedgerState)
    requires ChainOk(Tiny(TWO_DIGESTS).pow, 1, l) && |l.blocks| == 2
    requires forall i :: 0 <= i < l.count ==> Shaped(l.blocks[i])
    ensures NoCollision(Tiny(TWO_DIGESTS).pow, l)
  {
    if l.count == 2 {
      TwoHashes(l.blocks[0]);
      TwoHashes(l.blocks[1]);
      TipsDiffer();
    }
  }
}
