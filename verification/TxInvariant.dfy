/**
 The inductive invariant of the transactions: where each generated id is, and how its reward has aged.
 */
module TxInvariant {
  import opened CStrings
  import opened Records
  import opened Pow
  import opened Pool
  import opened Ledger
  import opened Protocol
  import opened ChainInvariant

  // ---------------------------------------------------------------- places

  ghost function PlacedAt(place: map<Name, Place>, p: Place): (names: set<Name>)
  {
    set n | n in place && place[n] == p
  }

  ghost function HeldNames(vs: seq<ValidatorPc>, v: nat): (names: set<Name>)
  {
    if v < |vs| && vs[v].Holding? then TxNames(vs[v].block.txs) else {}
  }

  /** Genesis carries no generated transaction. */
  ghost function LedgerNames(l: LedgerState, i: nat): (names: set<Name>)
  {
    if 1 <= i < l.count <= |l.blocks| then TxNames(l.blocks[i].txs) else {}
  }

  lemma MoveShifts(place: map<Name, Place>, names: set<Name>, from: Place, to: Place)
    requires names <= PlacedAt(place, from) && from != to
    ensures Move(place, names, to).Keys == place.Keys
    ensures PlacedAt(Move(place, names, to), from) == PlacedAt(place, from) - names
    ensures PlacedAt(Move(place, names, to), to) == PlacedAt(place, to) + names
    ensures forall q :: q != from && q != to ==> PlacedAt(Move(place, names, to), q) == PlacedAt(place, q)
  {
    forall q | q != from && q != to ensures PlacedAt(Move(place, names, to), q) == PlacedAt(place, q) {
    }
  }

  // ---------------------------------------------------------------- aging

  /** What aging has added to a reward after `age` rounds: one for every fifty begun. */
  function Gain(age: nat): (g: nat)
  {
    (age + 49) / 50
  }

  lemma AgingStep(s: Slot)
    requires s.filled
    ensures AgeSlot(s) == Slot(true, s.age + 1, s.tx.(reward := s.tx.reward - Gain(s.age) + Gain(s.age + 1)))
  {
  }

  /** A pool entry against its birth: age in completed commits, reward in closed form, all else as generated. */
  ghost predicate SlotOk(h: History, s: Slot)
  {
    var n := NameOf(s.tx);
    && |s.tx.id| == TX_ID_LEN && |n| < TX_ID_LEN && n in h.birth
    && h.birth[n].at + s.age == h.commits
    && s.tx == h.birth[n].tx.(reward := h.birth[n].tx.reward + Gain(s.age))
  }

  /** A transaction taken off the pool carries the aged reward of the moment it was removed. */
  ghost predicate TxOk(h: History, t: Tx)
  {
    var n := NameOf(t);
    && n in h.birth && n in h.removedAt && h.birth[n].at <= h.removedAt[n]
    && t.reward == h.birth[n].tx.reward + Gain(h.removedAt[n] - h.birth[n].at)
    && t.value == h.birth[n].tx.value && t.timestamp == h.birth[n].tx.timestamp
  }

  ghost predicate TxsOk(h: History, txs: seq<Tx>)
  {
    forall i :: 0 <= i < |txs| ==> TxOk(h, txs[i])
  }

  // ---------------------------------------------------------------- the invariant

  ghost predicate PoolInv(c: Config, pool: PoolState, stuck: bool, h: History)
  {
    !stuck ==>
      && PoolOk(pool) && |pool.slots| == c.poolSize
      && FilledNames(pool.slots) == PlacedAt(h.place, InPool)
      && forall j :: 0 <= j < |pool.slots| && pool.slots[j].filled ==> SlotOk(h, pool.slots[j])
  }

  ghost predicate HeldInv(vs: seq<ValidatorPc>, h: History)
  {
    && (forall v: nat :: HeldNames(vs, v) == PlacedAt(h.place, Held(v)))
    && forall v :: 0 <= v < |vs| && vs[v].Holding? ==> TxsOk(h, vs[v].block.txs)
  }

  ghost predicate LedgerTxInv(l: LedgerState, stuck: bool, h: History)
  {
    !stuck ==>
      && (forall i: nat :: LedgerNames(l, i) == PlacedAt(h.place, InLedger(i)))
      && forall i :: 1 <= i < l.count <= |l.blocks| ==> TxsOk(h, l.blocks[i].txs)
  }

  ghost predicate PrintedBy(generators: map<nat, nat>, n: Name)
  {
    exists pid, k: nat :: pid in generators && k < generators[pid] && n == TxName(pid, k)
  }

  ghost predicate HistoryInv(generators: map<nat, nat>, h: History)
  {
    && h.birth.Keys == h.place.Keys
    && h.removedAt.Keys == h.place.Keys - PlacedAt(h.place, InPool)
    && forall n :: n in h.place ==> PrintedBy(generators, n)
  }

  ghost predicate TxInv(c: Config, s: State)
  {
    && PoolInv(c, s.pool, s.poolStuck, s.h) && HeldInv(s.validators, s.h)
    && LedgerTxInv(s.ledger, s.ledgerStuck, s.h) && HistoryInv(s.generators, s.h)
  }

  lemma TxInvGivesIds(c: Config, s: State)
    requires TxInv(c, s)
    ensures SlotIdsOk(s)
  {
    if !s.poolStuck {
      assert forall j :: 0 <= j < |s.pool.slots| && s.pool.slots[j].filled ==> SlotOk(s.h, s.pool.slots[j]);
    }
  }

  lemma InitTx(c: Config)
    ensures TxInv(c, Init(c))
  {
    var s := Init(c);
    NumFilledIsNames(s.pool.slots);
    assert FilledNames(s.pool.slots) == {};
    assert forall p :: PlacedAt(s.h.place, p) == {};
  }

  // ---------------------------------------------------------------- generators

  lemma FreshName(generators: map<nat, nat>, h: History, pid: nat, n: Name)
    requires HistoryInv(generators, h) && pid in generators && n == TxName(pid, generators[pid])
    ensures n !in h.place
  {
    if n in h.place {
      var pid', k: nat :| pid' in generators && k < generators[pid'] && n == TxName(pid', k);
      TxNameInjective(pid, generators[pid], pid', k);
    }
  }

  lemma NameLength(pid: nat, k: nat)
    requires pid <= INT_MAX && k <= INT_MAX
    ensures |TxName(pid, k)| < TX_ID_LEN
  {
    PrintedIntLength(pid);
    PrintedIntLength(k);
  }

  lemma BornPlaces(h: History, n: Name, t: Tx)
    requires n !in h.place
    ensures PlacedAt(Born(h, n, t).place, InPool) == PlacedAt(h.place, InPool) + {n}
    ensures forall p :: p != InPool ==> PlacedAt(Born(h, n, t).place, p) == PlacedAt(h.place, p)
  {
    forall p | p != InPool ensures PlacedAt(Born(h, n, t).place, p) == PlacedAt(h.place, p) {
    }
  }

  lemma BornKeepsTxs(h: History, n: Name, t: Tx, txs: seq<Tx>)
    requires n !in h.birth && TxsOk(h, txs)
    ensures TxsOk(Born(h, n, t), txs)
  {
    forall i | 0 <= i < |txs| ensures TxOk(Born(h, n, t), txs[i]) {
      assert TxOk(h, txs[i]);
    }
  }

  lemma BornPool(c: Config, pool: PoolState, h: History, t: Tx)
    requires PoolInv(c, pool, false, h) && NameOf(t) !in h.place && h.birth.Keys == h.place.Keys
    requires |t.id| == TX_ID_LEN && |NameOf(t)| < TX_ID_LEN && Insert(pool, t) != pool
    ensures PoolInv(c, Insert(pool, t), false, Born(h, NameOf(t), t))
  {
    var n, r := NameOf(t), Insert(pool, t);
    assert n !in PlacedAt(h.place, InPool);
    InsertKeepsPool(pool, t);
    BornPlaces(h, n, t);
    forall j | 0 <= j < |r.slots| && r.slots[j].filled ensures SlotOk(Born(h, n, t), r.slots[j]) {
      if j != FirstFree(pool.slots) {
        assert SlotOk(h, pool.slots[j]);
      }
    }
  }

  lemma BornElsewhere(vs: seq<ValidatorPc>, l: LedgerState, stuck: bool, h: History, t: Tx)
    requires HeldInv(vs, h) && LedgerTxInv(l, stuck, h) && NameOf(t) !in h.place && h.birth.Keys == h.place.Keys
    ensures HeldInv(vs, Born(h, NameOf(t), t)) && LedgerTxInv(l, stuck, Born(h, NameOf(t), t))
  {
    var n := NameOf(t);
    BornPlaces(h, n, t);
    forall v | 0 <= v < |vs| && vs[v].Holding? ensures TxsOk(Born(h, n, t), vs[v].block.txs) {
      BornKeepsTxs(h, n, t, vs[v].block.txs);
    }
    forall i | 1 <= i < l.count <= |l.blocks| && !stuck ensures TxsOk(Born(h, n, t), l.blocks[i].txs) {
      BornKeepsTxs(h, n, t, l.blocks[i].txs);
    }
  }

  lemma GenerateKeeps(c: Config, s: State, pid: nat, t: Tx)
    requires TxInv(c, s) && CanGenerate(s, pid, t)
    ensures TxInv(c, Generate(s, pid, t))
  {
    var n := NameOf(t);
    if Insert(s.pool, t) != s.pool {
      FreshName(s.generators, s.h, pid, n);
      NameLength(pid, s.generators[pid]);
      BornPool(c, s.pool, s.h, t);
      BornElsewhere(s.validators, s.ledger, s.ledgerStuck, s.h, t);
      GenerateKeepsHistory(s.generators, s.h, pid, t);
    }
  }

  lemma GenerateKeepsHistory(generators: map<nat, nat>, h: History, pid: nat, t: Tx)
    requires HistoryInv(generators, h) && pid in generators && NameOf(t) == TxName(pid, generators[pid])
    ensures HistoryInv(generators[pid := generators[pid] + 1], Born(h, NameOf(t), t))
  {
    var g, r := generators[pid := generators[pid] + 1], Born(h, NameOf(t), t);
    FreshName(generators, h, pid, NameOf(t));
    BornPlaces(h, NameOf(t), t);
    forall n | n in r.place ensures PrintedBy(g, n) {
      if n == NameOf(t) {
        assert g[pid] > generators[pid];
      } else {
        var pid', k: nat :| pid' in generators && k < generators[pid'] && n == TxName(pid', k);
        assert pid' in g && k < g[pid'];
      }
    }
  }

  lemma JoinKeepsHistory(generators: map<nat, nat>, h: History, pid: nat)
    requires HistoryInv(generators, h) && pid !in generators
    ensures HistoryInv(generators[pid := 0], h)
  {
    forall n | n in h.place ensures PrintedBy(generators[pid := 0], n) {
      var pid', k: nat :| pid' in generators && k < generators[pid'] && n == TxName(pid', k);
      assert pid' in generators[pid := 0];
    }
  }

  // ---------------------------------------------------------------- validators

  lemma CommitKeepsTxs(h: History, names: set<Name>, v: nat, txs: seq<Tx>)
    requires TxsOk(h, txs) && TxNames(txs) !! names
    ensures TxsOk(Committed(h, names, v), txs)
  {
    forall i | 0 <= i < |txs| ensures TxOk(Committed(h, names, v), txs[i]) {
      assert TxOk(h, txs[i]) && NameOf(txs[i]) in TxNames(txs);
    }
  }

  /** The transactions of an accepted block leave the pool with exactly the rewards they have there. */
  lemma RemovedTxs(c: Config, pool: PoolState, h: History, v: nat, txs: seq<Tx>)
    requires PoolInv(c, pool, false, h) && Accepts(pool.slots, txs)
    ensures TxsOk(Committed(h, TxNames(txs), v), txs)
  {
    forall i | 0 <= i < |txs| ensures TxOk(Committed(h, TxNames(txs), v), txs[i]) {
      assert Listed(pool.slots, txs[i]) && NameOf(txs[i]) in TxNames(txs);
      var j :| 0 <= j < |pool.slots| && pool.slots[j].filled && TxCompare(txs[i], pool.slots[j].tx);
      assert SlotOk(h, pool.slots[j]);
    }
  }

  lemma CommitPool(c: Config, pool: PoolState, h: History, v: nat, txs: seq<Tx>)
    requires PoolInv(c, pool, false, h) && Accepts(pool.slots, txs)
    ensures PoolInv(c, Commit(pool, txs), false, Committed(h, TxNames(txs), v))
  {
    var names, r := TxNames(txs), Commit(pool, txs);
    AcceptedNames(pool.slots, txs);
    CommitKeepsPool(pool, txs);
    MoveShifts(h.place, names, InPool, Held(v));
    forall j | 0 <= j < |r.slots| && r.slots[j].filled ensures SlotOk(Committed(h, names, v), r.slots[j]) {
      assert Cleared(pool.slots, names)[j] == pool.slots[j] && r.slots[j] == AgeSlot(pool.slots[j]);
      assert SlotOk(h, pool.slots[j]);
      AgingStep(pool.slots[j]);
    }
  }

  lemma AcceptKeeps(c: Config, s: State, v: nat, b: Block)
    requires TxInv(c, s) && !s.poolStuck && v < |s.validators| && s.validators[v] == Passed(b)
    requires Accepts(s.pool.slots, b.txs)
    ensures var r := SetValidator(s, v, Holding(b));
            TxInv(c, r.(pool := Commit(s.pool, b.txs), h := Committed(s.h, TxNames(b.txs), v)))
  {
    AcceptedNames(s.pool.slots, b.txs);
    CommitPool(c, s.pool, s.h, v, b.txs);
    RemovedTxs(c, s.pool, s.h, v, b.txs);
    CommitHeld(s.validators, s.h, v, b);
    CommitLedger(s.ledger, s.ledgerStuck, s.h, TxNames(b.txs), v);
    CommitHistory(s.generators, s.h, TxNames(b.txs), v);
  }

  lemma CommitKeeps(c: Config, s: State, v: nat)
    requires TxInv(c, s) && Enabled(c, s, ValidatorCommits(v))
    ensures TxInv(c, Do(c, s, ValidatorCommits(v)))
  {
    var b := s.validators[v].block;
    if Accepts(s.pool.slots, b.txs) {
      AcceptKeeps(c, s, v, b);
    } else {
      QuietKeeps(c, s, v, Reporting(InvalidMessage(b)));
    }
  }

  lemma CommitHistory(generators: map<nat, nat>, h: History, names: set<Name>, v: nat)
    requires HistoryInv(generators, h) && names <= PlacedAt(h.place, InPool)
    ensures HistoryInv(generators, Committed(h, names, v))
  {
    MoveShifts(h.place, names, InPool, Held(v));
  }

  lemma CommitHeld(vs: seq<ValidatorPc>, h: History, v: nat, b: Block)
    requires HeldInv(vs, h) && v < |vs| && !vs[v].Holding? && TxNames(b.txs) <= PlacedAt(h.place, InPool)
    requires TxsOk(Committed(h, TxNames(b.txs), v), b.txs)
    ensures HeldInv(vs[v := Holding(b)], Committed(h, TxNames(b.txs), v))
  {
    var names, vs' := TxNames(b.txs), vs[v := Holding(b)];
    var h' := Committed(h, names, v);
    MoveShifts(h.place, names, InPool, Held(v));
    forall u: nat ensures HeldNames(vs', u) == PlacedAt(h'.place, Held(u)) {
      assert HeldNames(vs, u) == PlacedAt(h.place, Held(u));
    }
    forall u | 0 <= u < |vs'| && vs'[u].Holding? ensures TxsOk(h', vs'[u].block.txs) {
      if u != v {
        assert HeldNames(vs, u) == PlacedAt(h.place, Held(u));
        CommitKeepsTxs(h, names, v, vs[u].block.txs);
      }
    }
  }

  lemma CommitLedger(l: LedgerState, stuck: bool, h: History, names: set<Name>, v: nat)
    requires LedgerTxInv(l, stuck, h) && names <= PlacedAt(h.place, InPool)
    ensures LedgerTxInv(l, stuck, Committed(h, names, v))
  {
    if !stuck {
      MoveShifts(h.place, names, InPool, Held(v));
      forall i | 1 <= i < l.count <= |l.blocks| ensures TxsOk(Committed(h, names, v), l.blocks[i].txs) {
        assert LedgerNames(l, i) == PlacedAt(h.place, InLedger(i));
        CommitKeepsTxs(h, names, v, l.blocks[i].txs);
      }
    }
  }

  /** A validator that neither takes nor gives up transactions. */
  lemma QuietValidator(vs: seq<ValidatorPc>, h: History, v: nat, pc: ValidatorPc)
    requires HeldInv(vs, h) && v < |vs| && !vs[v].Holding? && !pc.Holding?
    ensures HeldInv(vs[v := pc], h)
  {
    forall u: nat ensures HeldNames(vs[v := pc], u) == PlacedAt(h.place, Held(u)) {
      assert HeldNames(vs, u) == PlacedAt(h.place, Held(u));
    }
  }

  lemma QuietKeeps(c: Config, s: State, v: nat, pc: ValidatorPc)
    requires TxInv(c, s) && v < |s.validators| && !s.validators[v].Holding? && !pc.Holding?
    ensures TxInv(c, SetValidator(s, v, pc))
  {
    QuietValidator(s.validators, s.h, v, pc);
  }

  /** The four parts depend on these fields only. */
  lemma SameFields(c: Config, s: State, r: State)
    requires TxInv(c, s)
    requires r.pool == s.pool && r.poolStuck == s.poolStuck && r.ledger == s.ledger && r.ledgerStuck == s.ledgerStuck
    requires r.generators == s.generators && r.validators == s.validators && r.h == s.h
    ensures TxInv(c, r)
  {
  }

  lemma HandOnHeld(vs: seq<ValidatorPc>, h: History, v: nat, pc: ValidatorPc, to: Place)
    requires HeldInv(vs, h) && v < |vs| && vs[v].Holding? && !pc.Holding? && !to.Held?
    ensures HeldInv(vs[v := pc], Moved(h, TxNames(vs[v].block.txs), to))
  {
    var names, vs' := TxNames(vs[v].block.txs), vs[v := pc];
    var h' := Moved(h, names, to);
    assert HeldNames(vs, v) == PlacedAt(h.place, Held(v));
    MoveShifts(h.place, names, Held(v), to);
    forall u: nat ensures HeldNames(vs', u) == PlacedAt(h'.place, Held(u)) {
      assert HeldNames(vs, u) == PlacedAt(h.place, Held(u));
    }
    forall u | 0 <= u < |vs'| && vs'[u].Holding? ensures TxsOk(h', vs'[u].block.txs) {
      assert forall i :: 0 <= i < |vs'[u].block.txs| ==> TxOk(h, vs[u].block.txs[i]);
    }
  }

  /** Handing on everything a validator holds leaves every other place, and every reward, as it was. */
  lemma HandOn(c: Config, s: State, v: nat, pc: ValidatorPc, to: Place)
    requires TxInv(c, s) && v < |s.validators| && s.validators[v].Holding? && !pc.Holding?
    requires to != InPool && !to.Held?
    ensures var names := TxNames(s.validators[v].block.txs);
            var h := Moved(s.h, names, to);
            && PoolInv(c, s.pool, s.poolStuck, h) && HeldInv(s.validators[v := pc], h) && HistoryInv(s.generators, h)
            && names == PlacedAt(s.h.place, Held(v))
            && PlacedAt(h.place, to) == PlacedAt(s.h.place, to) + names
            && forall p :: p != to && p != Held(v) ==> PlacedAt(h.place, p) == PlacedAt(s.h.place, p)
  {
    var names := TxNames(s.validators[v].block.txs);
    var h := Moved(s.h, names, to);
    assert HeldNames(s.validators, v) == PlacedAt(s.h.place, Held(v));
    MoveShifts(s.h.place, names, Held(v), to);
    HandOnHeld(s.validators, s.h, v, pc, to);
    if !s.poolStuck {
      forall j | 0 <= j < |s.pool.slots| && s.pool.slots[j].filled ensures SlotOk(h, s.pool.slots[j]) {
        assert SlotOk(s.h, s.pool.slots[j]);
      }
    }
  }

  lemma MovedKeepsLedgerTxs(l: LedgerState, h: History, names: set<Name>, to: Place)
    requires forall i :: 1 <= i < l.count <= |l.blocks| ==> TxsOk(h, l.blocks[i].txs)
    ensures forall i :: 1 <= i < l.count <= |l.blocks| ==> TxsOk(Moved(h, names, to), l.blocks[i].txs)
  {
    forall i | 1 <= i < l.count <= |l.blocks| ensures TxsOk(Moved(h, names, to), l.blocks[i].txs) {
      assert TxsOk(h, l.blocks[i].txs);
      assert forall k :: 0 <= k < |l.blocks[i].txs| ==> TxOk(h, l.blocks[i].txs[k]);
    }
  }

  lemma DropKeeps(c: Config, s: State, v: nat, pc: ValidatorPc)
    requires TxInv(c, s) && v < |s.validators| && s.validators[v].Holding? && !pc.Holding?
    ensures TxInv(c, SetValidator(s, v, pc).(h := Moved(s.h, TxNames(s.validators[v].block.txs), Dropped)))
  {
    HandOn(c, s, v, pc, Dropped);
    if !s.ledgerStuck {
      MovedKeepsLedgerTxs(s.ledger, s.h, TxNames(s.validators[v].block.txs), Dropped);
    }
  }

  lemma ExtendedLedgerTxs(p: PowInterface, l: LedgerState, h: History, b: Block)
    requires LedgerTxInv(l, false, h) && 0 < l.count < |l.blocks| && TxsOk(h, b.txs)
    requires var names, to := TxNames(b.txs), InLedger(l.count);
             && PlacedAt(Moved(h, names, to).place, to) == PlacedAt(h.place, to) + names
             && forall i: nat :: i != l.count ==>
                 PlacedAt(Moved(h, names, to).place, InLedger(i)) == PlacedAt(h.place, InLedger(i))
    ensures LedgerTxInv(Extended(p, l, b), false, Moved(h, TxNames(b.txs), InLedger(l.count)))
  {
    var l', h' := Extended(p, l, b), Moved(h, TxNames(b.txs), InLedger(l.count));
    MovedKeepsLedgerTxs(l, h, TxNames(b.txs), InLedger(l.count));
    forall i: nat ensures LedgerNames(l', i) == PlacedAt(h'.place, InLedger(i)) {
      assert LedgerNames(l, i) == PlacedAt(h.place, InLedger(i));
    }
    forall i | 1 <= i < l'.count ensures TxsOk(h', l'.blocks[i].txs) {
      if i < l.count {
        assert l'.blocks[i] == l.blocks[i];
      } else {
        assert forall k :: 0 <= k < |b.txs| ==> TxOk(h, b.txs[k]);
      }
    }
  }

  lemma ExtendedTxInv(c: Config, s: State, v: nat, pc: ValidatorPc)
    requires TxInv(c, s) && v < |s.validators| && s.validators[v].Holding? && !pc.Holding?
    requires !s.ledgerStuck && 0 < s.ledger.count < |s.ledger.blocks|
    ensures var b, l := s.validators[v].block, s.ledger;
            var h := Moved(s.h, TxNames(b.txs), InLedger(l.count));
            TxInv(c, SetValidator(s, v, pc).(ledger := Extended(c.pow, l, b), h := h))
  {
    var b, l := s.validators[v].block, s.ledger;
    HandOn(c, s, v, pc, InLedger(l.count));
    ExtendedLedgerTxs(c.pow, l, s.h, b);
  }

  lemma AppendKeepsTx(c: Config, s: State, v: nat, timestamp: int)
    requires ConfigOk(c) && ChainInv(c, s) && TxInv(c, s) && CollisionFree(c, s)
    requires Enabled(c, s, ValidatorAppends(v, timestamp))
    ensures TxInv(c, Do(c, s, ValidatorAppends(v, timestamp)))
  {
    var b, l := s.validators[v].block, s.ledger;
    if TipMatches(b.prev, l.lastHash) {
      MatchingAppend(c, s, v, timestamp);
      ExtendedTxInv(c, s, v, Reporting(ValidMessage(b, l.count, timestamp)));
    } else {
      DropKeeps(c, s, v, Waiting);
    }
  }

  lemma DieKeepsTx(c: Config, s: State, v: nat)
    requires TxInv(c, s) && v < |s.validators|
    ensures TxInv(c, Die(s, v))
  {
    if s.validators[v].Holding? {
      DropKeeps(c, s, v, Dead);
    } else {
      QuietKeeps(c, s, v, Dead);
      SameFields(c, SetValidator(s, v, Dead), Die(s, v));
    }
  }

  /** A lost lock takes its region out of the invariant. */
  lemma StuckKeeps(c: Config, s: State, pool: PoolState, ledger: LedgerState)
    requires TxInv(c, s)
    ensures TxInv(c, s.(pool := pool, poolStuck := true)) && TxInv(c, s.(ledger := ledger, ledgerStuck := true))
  {
  }

  // ---------------------------------------------------------------- all steps

  lemma StartKeepsTx(c: Config, s: State, v: nat)
    requires TxInv(c, s) && Enabled(c, s, ValidatorStarts(v)) && !Do(c, s, ValidatorStarts(v)).fault
    ensures TxInv(c, Do(c, s, ValidatorStarts(v)))
  {
    QuietKeeps(c, s, v, Waiting);
    if s.ledger.count == 0 {
      var l' := Start(c, s, v).ledger;
      assert forall i: nat :: LedgerNames(l', i) == LedgerNames(s.ledger, i);
    }
  }

  lemma JoinKeepsTx(c: Config, s: State)
    requires TxInv(c, s) && Enabled(c, s, ValidatorJoins)
    ensures TxInv(c, Do(c, s, ValidatorJoins))
  {
    var vs := s.validators + [Starting];
    forall u: nat ensures HeldNames(vs, u) == PlacedAt(s.h.place, Held(u)) {
      assert HeldNames(s.validators, u) == PlacedAt(s.h.place, Held(u));
    }
  }

  lemma StatsFrame(c: Config, s: State, a: Step)
    requires Enabled(c, s, a) && (a.StatsReceives? || a.StatsReads?)
    ensures var r := Do(c, s, a); r == s.(queue := r.queue, stats := r.stats, fault := r.fault, log := r.log)
  {
  }

  /** Steps of a validator that only move its program counter, to `pc`. */
  lemma PcKeepsTx(c: Config, s: State, a: Step, v: nat, pc: ValidatorPc)
    requires TxInv(c, s) && Enabled(c, s, a)
    requires a == ValidatorReads(v) || a == ValidatorChecks(v) || (a.ValidatorReports? && a.v == v)
    requires pc == Do(c, s, a).validators[v]
    ensures TxInv(c, Do(c, s, a))
  {
    QuietKeeps(c, s, v, pc);
    SameFields(c, SetValidator(s, v, pc), Do(c, s, a));
  }

  lemma GeneratorStepKeeps(c: Config, s: State, a: Step)
    requires TxInv(c, s) && Enabled(c, s, a) && (a.GeneratorJoins? || a.Generates? || a.GeneratorDiesInPool?)
    ensures TxInv(c, Do(c, s, a))
  {
    match a
    case GeneratorJoins(pid) => JoinKeepsHistory(s.generators, s.h, pid);
    case Generates(pid, t) => GenerateKeeps(c, s, pid, t);
    case GeneratorDiesInPool(_, pool) => StuckKeeps(c, s, pool, s.ledger);
  }

  lemma DieStepKeeps(c: Config, s: State, a: Step)
    requires TxInv(c, s) && Enabled(c, s, a) && (a.ValidatorDies? || a.ValidatorDiesInPool? || a.ValidatorDiesInLedger?)
    ensures TxInv(c, Do(c, s, a))
  {
    DieKeepsTx(c, s, a.v);
    match a
    case ValidatorDies(v) =>
    case ValidatorDiesInPool(v, pool) => StuckKeeps(c, Die(s, v), pool, s.ledger);
    case ValidatorDiesInLedger(v, ledger) => StuckKeeps(c, Die(s, v), s.pool, ledger);
  }

  lemma StartStepKeepsTx(c: Config, s: State, a: Step)
    requires ConfigOk(c) && ChainInv(c, s) && TxInv(c, s) && Enabled(c, s, a) && a.ValidatorStarts?
    ensures TxInv(c, Do(c, s, a))
  {
    StartKeeps(c, s, a.v);
    StartKeepsTx(c, s, a.v);
  }

  lemma PcStepKeepsTx(c: Config, s: State, a: Step)
    requires TxInv(c, s) && Enabled(c, s, a) && (a.ValidatorReads? || a.ValidatorChecks? || a.ValidatorReports?)
    ensures TxInv(c, Do(c, s, a))
  {
    PcKeepsTx(c, s, a, a.v, Do(c, s, a).validators[a.v]);
  }

  lemma ValidatorStepKeepsTx(c: Config, s: State, a: Step)
    requires ConfigOk(c) && ChainInv(c, s) && TxInv(c, s) && CollisionFree(c, s) && Enabled(c, s, a)
    requires a.ValidatorJoins? || a.ValidatorStarts? || a.ValidatorReads? || a.ValidatorChecks? || a.ValidatorCommits?
             || a.ValidatorAppends? || a.ValidatorReports?
    ensures TxInv(c, Do(c, s, a))
  {
    if a.ValidatorJoins? {
      JoinKeepsTx(c, s);
    } else if a.ValidatorStarts? {
      StartStepKeepsTx(c, s, a);
    } else if a.ValidatorCommits? {
      CommitKeeps(c, s, a.v);
    } else if a.ValidatorAppends? {
      AppendKeepsTx(c, s, a.v, a.timestamp);
    } else {
      PcStepKeepsTx(c, s, a);
    }
  }

  /** Every step of every process keeps track of every generated transaction. */
  lemma StepKeepsTx(c: Config, s: State, a: Step)
    requires ConfigOk(c) && ChainInv(c, s) && TxInv(c, s) && CollisionFree(c, s) && Enabled(c, s, a)
    ensures TxInv(c, Do(c, s, a))
  {
    if OfMiner(a) {
      MinerFrame(c, s, a);
      SameFields(c, s, Do(c, s, a));
    } else if a.StatsReceives? || a.StatsReads? {
      StatsFrame(c, s, a);
      SameFields(c, s, Do(c, s, a));
    } else if a.GeneratorJoins? || a.Generates? || a.GeneratorDiesInPool? {
      GeneratorStepKeeps(c, s, a);
    } else if a.ValidatorDies? || a.ValidatorDiesInPool? || a.ValidatorDiesInLedger? {
      DieStepKeeps(c, s, a);
    } else {
      ValidatorStepKeepsTx(c, s, a);
    }
  }
}
