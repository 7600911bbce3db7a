/**
 What becomes of transactions over a whole run, in terms of its steps: which step inserted them, which commit removed
 them, how their rewards grew in between, and exactly which steps lose them.
 */
module Fates {
  import opened CStrings
  import opened Records
  import opened Pow
  import opened Pool
  import opened Ledger
  import opened Protocol
  import opened ChainInvariant
  import opened TxInvariant
  import opened Theorems

  // ---------------------------------------------------------------- what one step does to the history

  ghost function HeldBy(s: State, v: nat, to: Place): (h: History)
    requires v < |s.validators|
  {
    if s.validators[v].Holding? then Moved(s.h, TxNames(s.validators[v].block.txs), to) else s.h
  }

  /** The history variables after a step: all but four kinds of steps leave them alone. */
  ghost function HistoryAfter(c: Config, s: State, a: Step): (h: History)
    requires Enabled(c, s, a)
  {
    match a
    case Generates(_, tx) => if Insert(s.pool, tx) == s.pool then s.h else Born(s.h, NameOf(tx), tx)
    case ValidatorCommits(v) =>
      var names := TxNames(s.validators[v].block.txs);
      if Accepts(s.pool.slots, s.validators[v].block.txs) then Committed(s.h, names, v) else s.h
    case ValidatorAppends(v, _) =>
      var b, l := s.validators[v].block, s.ledger;
      if !TipMatches(b.prev, l.lastHash) then HeldBy(s, v, Dropped)
      else if AppendInBounds(c, l, b) then HeldBy(s, v, InLedger(l.lastIndex + 1))
      else s.h
    case ValidatorDies(v) => HeldBy(s, v, Dropped)
    case ValidatorDiesInLedger(v, _) => HeldBy(s, v, Dropped)
    case _ => s.h
  }

  lemma StepHistory(c: Config, s: State, a: Step)
    requires Enabled(c, s, a)
    ensures Do(c, s, a).h == HistoryAfter(c, s, a)
  {
    if OfMiner(a) {
      MinerFrame(c, s, a);
    } else if a.StatsReceives? || a.StatsReads? {
      StatsFrame(c, s, a);
    } else if a.ValidatorAppends? {
      DoAppends(c, s, a.v, a.timestamp);
    }
  }

  // ---------------------------------------------------------------- commits, insertions, removals

  /** Step `i` completes a pool commit. */
  ghost predicate IsCommit(states: seq<State>, steps: seq<Step>, i: nat)
  {
    && i < |steps| && i < |states| && steps[i].ValidatorCommits? && steps[i].v < |states[i].validators|
    && states[i].validators[steps[i].v].Passed?
        && Accepts(states[i].pool.slots, states[i].validators[steps[i].v].block.txs)
  }

  /** Pool commits completed before state `k`. */
  ghost function Commits(states: seq<State>, steps: seq<Step>, k: nat): (n: nat)
  {
    if k == 0 then 0 else Commits(states, steps, k - 1) + One(IsCommit(states, steps, k - 1))
  }

  lemma CommitCounted(c: Config, s: State, a: Step)
    requires Enabled(c, s, a)
    ensures Do(c, s, a).h.commits == s.h.commits
              + One(a.ValidatorCommits? && Accepts(s.pool.slots, s.validators[a.v].block.txs))
  {
    StepHistory(c, s, a);
  }

  lemma {:induction false} CommitsCounted(c: Config, states: seq<State>, steps: seq<Step>, k: nat)
    requires Run(c, states, steps) && k < |states|
    ensures states[k].h.commits == Commits(states, steps, k)
  {
    if k > 0 {
      CommitsCounted(c, states, steps, k - 1);
      RunStep(c, states, steps, k - 1);
      CommitCounted(c, states[k - 1], steps[k - 1]);
    }
  }

  /** Step `i` puts a transaction of name `n` into the pool. */
  ghost predicate InsertsAt(states: seq<State>, steps: seq<Step>, i: nat, n: Name)
  {
    && i < |steps| && i < |states| && steps[i].Generates? && NameOf(steps[i].tx) == n
    && Insert(states[i].pool, steps[i].tx) != states[i].pool
  }

  lemma BirthStep(c: Config, s: State, a: Step)
    requires Enabled(c, s, a)
    ensures var r := Do(c, s, a);
            r.h.birth == if a.Generates? && Insert(s.pool, a.tx) != s.pool
                         then s.h.birth[NameOf(a.tx) := Birth(a.tx, s.h.commits)] else s.h.birth
  {
    StepHistory(c, s, a);
  }

  /** The recorded births are the insertions of the run. */
  lemma {:induction false} BirthIsInsertion(c: Config, states: seq<State>, steps: seq<Step>, k: nat, n: Name)
    returns (i: nat)
    requires Run(c, states, steps) && k < |states| && n in states[k].h.birth
    ensures i < k && InsertsAt(states, steps, i, n)
    ensures states[k].h.birth[n] == Birth(steps[i].tx, Commits(states, steps, i))
  {
    RunStep(c, states, steps, k - 1);
    BirthStep(c, states[k - 1], steps[k - 1]);
    if InsertsAt(states, steps, k - 1, n) {
      i := k - 1;
      CommitsCounted(c, states, steps, i);
    } else {
      i := BirthIsInsertion(c, states, steps, k - 1, n);
    }
  }

  lemma BirthKept(c: Config, s: State, a: Step, n: Name)
    requires Inv(c, s) && Enabled(c, s, a) && n in s.h.birth
    ensures var r := Do(c, s, a); n in r.h.birth && r.h.birth[n] == s.h.birth[n]
  {
    BirthStep(c, s, a);
    if a.Generates? {
      FreshName(s.generators, s.h, a.pid, NameOf(a.tx));
    }
  }

  lemma BirthKeptAt(c: Config, states: seq<State>, steps: seq<Step>, k: nat, n: Name)
    requires ConfigOk(c) && Run(c, states, steps) && CollisionFreeRun(c, states) && k + 1 < |states|
    requires n in states[k].h.birth
    ensures n in states[k + 1].h.birth && states[k + 1].h.birth[n] == states[k].h.birth[n]
  {
    RunKeepsInv(c, states, steps, k);
    RunStep(c, states, steps, k);
    BirthKept(c, states[k], steps[k], n);
  }

  lemma {:induction false} BirthStays(c: Config, states: seq<State>, steps: seq<Step>, j: nat, k: nat, n: Name)
    requires ConfigOk(c) && Run(c, states, steps) && CollisionFreeRun(c, states) && j <= k < |states|
    requires n in states[j].h.birth
    ensures n in states[k].h.birth && states[k].h.birth[n] == states[j].h.birth[n]
    decreases k
  {
    if j < k {
      BirthStays(c, states, steps, j, k - 1, n);
      BirthKeptAt(c, states, steps, k - 1, n);
    }
  }

  /** Some step before state `k` inserted a transaction of name `n`. */
  ghost predicate Inserted(states: seq<State>, steps: seq<Step>, k: nat, n: Name)
  {
    exists i: nat :: i < k && InsertsAt(states, steps, i, n)
  }

  lemma InsertionIsBirth(c: Config, states: seq<State>, steps: seq<Step>, i: nat, n: Name)
    requires Run(c, states, steps) && InsertsAt(states, steps, i, n)
    ensures n in states[i + 1].h.birth
  {
    RunStep(c, states, steps, i);
    BirthStep(c, states[i], steps[i]);
  }

  /** The record of births is exact: it names what the steps so far inserted, and nothing else. */
  lemma BirthExactly(c: Config, states: seq<State>, steps: seq<Step>, k: nat, n: Name)
    requires ConfigOk(c) && Run(c, states, steps) && CollisionFreeRun(c, states) && k < |states|
    ensures n in states[k].h.birth <==> Inserted(states, steps, k, n)
  {
    if n in states[k].h.birth {
      var i := BirthIsInsertion(c, states, steps, k, n);
    }
    if Inserted(states, steps, k, n) {
      var i: nat :| i < k && InsertsAt(states, steps, i, n);
      InsertionIsBirth(c, states, steps, i, n);
      BirthStays(c, states, steps, i + 1, k, n);
    }
  }

  /** No id is inserted twice. */
  lemma InsertedOnce(c: Config, states: seq<State>, steps: seq<Step>, i: nat, j: nat, n: Name)
    requires ConfigOk(c) && Run(c, states, steps) && CollisionFreeRun(c, states) && i < j < |steps|
    ensures !InsertsAt(states, steps, i, n) || !InsertsAt(states, steps, j, n)
  {
    if InsertsAt(states, steps, i, n) && InsertsAt(states, steps, j, n) {
      InsertionIsBirth(c, states, steps, i, n);
      BirthStays(c, states, steps, i + 1, j, n);
      RunKeepsInv(c, states, steps, j);
      RunStep(c, states, steps, j);
      FreshName(states[j].generators, states[j].h, steps[j].pid, n);
      assert false;
    }
  }

  lemma RemovalStep(c: Config, s: State, a: Step, n: Name)
    requires Enabled(c, s, a) && n in Do(c, s, a).h.removedAt
    ensures var r := Do(c, s, a);
            || (n in s.h.removedAt && r.h.removedAt[n] == s.h.removedAt[n])
            || (a.ValidatorCommits? && Accepts(s.pool.slots, s.validators[a.v].block.txs)
                && n in TxNames(s.validators[a.v].block.txs) && r.h.removedAt[n] == s.h.commits)
  {
    StepHistory(c, s, a);
  }

  /** Step `i` is the pool commit that removes name `n`. */
  ghost predicate RemovesAt(states: seq<State>, steps: seq<Step>, i: nat, n: Name)
  {
    IsCommit(states, steps, i) && n in TxNames(states[i].validators[steps[i].v].block.txs)
  }

  lemma RemovalAt(c: Config, states: seq<State>, steps: seq<Step>, k: nat, n: Name)
    requires Run(c, states, steps) && k < |states| && n in states[k].h.removedAt
    ensures k > 0
    ensures || (n in states[k - 1].h.removedAt && states[k].h.removedAt[n] == states[k - 1].h.removedAt[n])
            || (RemovesAt(states, steps, k - 1, n) && states[k].h.removedAt[n] == states[k - 1].h.commits)
  {
    if k > 0 {
      RunStep(c, states, steps, k - 1);
      RemovalStep(c, states[k - 1], steps[k - 1], n);
    }
  }

  /** The recorded removals are the pool commits of the run. */
  lemma {:induction false} RemovalIsCommit(c: Config, states: seq<State>, steps: seq<Step>, k: nat, n: Name)
    returns (i: nat)
    requires Run(c, states, steps) && k < |states| && n in states[k].h.removedAt
    ensures i < k && RemovesAt(states, steps, i, n) && states[k].h.removedAt[n] == Commits(states, steps, i)
  {
    RemovalAt(c, states, steps, k, n);
    if n in states[k - 1].h.removedAt && states[k].h.removedAt[n] == states[k - 1].h.removedAt[n] {
      i := RemovalIsCommit(c, states, steps, k - 1, n);
    } else {
      CommitsCounted(c, states, steps, k - 1);
      i := k - 1;
    }
  }

  /** Some step before state `k` was a commit that removed name `n`. */
  ghost predicate Removed(states: seq<State>, steps: seq<Step>, k: nat, n: Name)
  {
    exists i: nat :: i < k && RemovesAt(states, steps, i, n)
  }

  lemma RemovalKept(c: Config, s: State, a: Step, n: Name)
    requires Enabled(c, s, a) && n in s.h.removedAt
    ensures n in Do(c, s, a).h.removedAt
  {
    StepHistory(c, s, a);
  }

  lemma {:induction false} RemovalStays(c: Config, states: seq<State>, steps: seq<Step>, j: nat, k: nat, n: Name)
    requires Run(c, states, steps) && j <= k < |states| && n in states[j].h.removedAt
    ensures n in states[k].h.removedAt
    decreases k
  {
    if j < k {
      RemovalStays(c, states, steps, j, k - 1, n);
      RunStep(c, states, steps, k - 1);
      RemovalKept(c, states[k - 1], steps[k - 1], n);
    }
  }

  lemma CommitIsRemoval(c: Config, states: seq<State>, steps: seq<Step>, i: nat, n: Name)
    requires Run(c, states, steps) && RemovesAt(states, steps, i, n)
    ensures i + 1 < |states| && n in states[i + 1].h.removedAt
  {
    RunStep(c, states, steps, i);
    StepHistory(c, states[i], steps[i]);
  }

  /** The record of removals is exact, too. */
  lemma RemovalExactly(c: Config, states: seq<State>, steps: seq<Step>, k: nat, n: Name)
    requires Run(c, states, steps) && k < |states|
    ensures n in states[k].h.removedAt <==> Removed(states, steps, k, n)
  {
    if n in states[k].h.removedAt {
      var i := RemovalIsCommit(c, states, steps, k, n);
    }
    if Removed(states, steps, k, n) {
      var i: nat :| i < k && RemovesAt(states, steps, i, n);
      CommitIsRemoval(c, states, steps, i, n);
      RemovalStays(c, states, steps, i + 1, k, n);
    }
  }

  // ---------------------------------------------------------------- losses

  /**
   The guard under which a step loses what a validator holds: the tip has moved when it looks for the second time, or
   it is killed between its two sections or inside the second.
   */
  ghost predicate Loses(s: State, a: Step, n: Name)
  {
    && (a.ValidatorAppends? || a.ValidatorDies? || a.ValidatorDiesInLedger?)
    && a.v < |s.validators| && s.validators[a.v].Holding? && n in TxNames(s.validators[a.v].block.txs)
    && (a.ValidatorAppends? ==> !TipMatches(s.validators[a.v].block.prev, s.ledger.lastHash))
  }

  ghost predicate LosesAt(states: seq<State>, steps: seq<Step>, i: nat, n: Name)
  {
    i < |steps| && i < |states| && Loses(states[i], steps[i], n)
  }

  /** Some step before state `k` lost a transaction of name `n`. */
  ghost predicate Lost(states: seq<State>, steps: seq<Step>, k: nat, n: Name)
  {
    exists i: nat :: i < k && LosesAt(states, steps, i, n)
  }

  /** Everything a validator holds is recorded as held, so that handing it on takes nothing from elsewhere. */
  lemma HandedOn(s: State, v: nat, to: Place)
    requires HeldInv(s.validators, s.h) && v < |s.validators| && !to.Held?
    ensures var names := if s.validators[v].Holding? then TxNames(s.validators[v].block.txs) else {};
            PlacedAt(HeldBy(s, v, to).place, Dropped)
            == PlacedAt(s.h.place, Dropped) + if to == Dropped then names else {}
  {
    if s.validators[v].Holding? {
      assert HeldNames(s.validators, v) == PlacedAt(s.h.place, Held(v));
      MoveShifts(s.h.place, TxNames(s.validators[v].block.txs), Held(v), to);
    }
  }

  lemma InsertionDropsNothing(c: Config, s: State, a: Step)
    requires TxInv(c, s) && Enabled(c, s, a) && a.Generates?
    ensures PlacedAt(HistoryAfter(c, s, a).place, Dropped) == PlacedAt(s.h.place, Dropped)
  {
    FreshName(s.generators, s.h, a.pid, NameOf(a.tx));
    BornPlaces(s.h, NameOf(a.tx), a.tx);
  }

  lemma CommitDropsNothing(c: Config, s: State, a: Step)
    requires TxInv(c, s) && Enabled(c, s, a) && a.ValidatorCommits?
    ensures PlacedAt(HistoryAfter(c, s, a).place, Dropped) == PlacedAt(s.h.place, Dropped)
  {
    var txs := s.validators[a.v].block.txs;
    if Accepts(s.pool.slots, txs) {
      AcceptedNames(s.pool.slots, txs);
      MoveShifts(s.h.place, TxNames(txs), InPool, Held(a.v));
    }
  }

  lemma AppendDrops(c: Config, s: State, a: Step, n: Name)
    requires HeldInv(s.validators, s.h) && Enabled(c, s, a) && a.ValidatorAppends?
    ensures n in PlacedAt(HistoryAfter(c, s, a).place, Dropped) <==> n in PlacedAt(s.h.place, Dropped) || Loses(s, a, n)
  {
    HandedOn(s, a.v, Dropped);
    HandedOn(s, a.v, InLedger(s.ledger.lastIndex + 1));
  }

  lemma DeathDrops(c: Config, s: State, a: Step, n: Name)
    requires HeldInv(s.validators, s.h) && Enabled(c, s, a) && (a.ValidatorDies? || a.ValidatorDiesInLedger?)
    ensures n in PlacedAt(HistoryAfter(c, s, a).place, Dropped) <==> n in PlacedAt(s.h.place, Dropped) || Loses(s, a, n)
  {
    HandedOn(s, a.v, Dropped);
  }

  lemma DroppedStep(c: Config, s: State, a: Step, n: Name)
    requires TxInv(c, s) && Enabled(c, s, a)
    ensures n in PlacedAt(HistoryAfter(c, s, a).place, Dropped) <==> n in PlacedAt(s.h.place, Dropped) || Loses(s, a, n)
  {
    if a.Generates? {
      InsertionDropsNothing(c, s, a);
    } else if a.ValidatorCommits? {
      CommitDropsNothing(c, s, a);
    } else if a.ValidatorAppends? {
      AppendDrops(c, s, a, n);
    } else if a.ValidatorDies? || a.ValidatorDiesInLedger? {
      DeathDrops(c, s, a, n);
    }
  }

  lemma DroppedAt(c: Config, states: seq<State>, steps: seq<Step>, k: nat, n: Name)
    requires ConfigOk(c) && Run(c, states, steps) && CollisionFreeRun(c, states) && k + 1 < |states|
    ensures n in PlacedAt(states[k + 1].h.place, Dropped)
            <==> n in PlacedAt(states[k].h.place, Dropped) || LosesAt(states, steps, k, n)
  {
    RunKeepsInv(c, states, steps, k);
    RunStep(c, states, steps, k);
    StepHistory(c, states[k], steps[k]);
    DroppedStep(c, states[k], steps[k], n);
  }

  lemma LostSnoc(states: seq<State>, steps: seq<Step>, k: nat, n: Name)
    ensures Lost(states, steps, k + 1, n) <==> Lost(states, steps, k, n) || LosesAt(states, steps, k, n)
  {
  }

  /**
   Exactly when a transaction is lost: its place is `Dropped` if and only if some step took the branch of a failed
   second check, or a kill, with the transaction in the hands of its validator.
   */
  lemma {:induction false} DroppedExactly(c: Config, states: seq<State>, steps: seq<Step>, k: nat, n: Name)
    requires ConfigOk(c) && Run(c, states, steps) && CollisionFreeRun(c, states) && k < |states|
    ensures n in PlacedAt(states[k].h.place, Dropped) <==> Lost(states, steps, k, n)
  {
    if k > 0 {
      DroppedExactly(c, states, steps, k - 1, n);
      DroppedAt(c, states, steps, k - 1, n);
      LostSnoc(states, steps, k - 1, n);
    }
  }

  /**
   Conservation: an id is in exactly one of the pool, the ledger, a validator's hands and the losses of earlier steps if
   an earlier step inserted it, and in none of them otherwise.
   */
  lemma Conservation(c: Config, states: seq<State>, steps: seq<Step>, k: nat, n: Name)
    requires ConfigOk(c) && Run(c, states, steps) && CollisionFreeRun(c, states) && k < |states|
    requires !states[k].poolStuck && !states[k].ledgerStuck
    ensures var s := states[k];
            One(n in FilledNames(s.pool.slots)) + One(IsInLedger(s, n)) + One(IsHeld(s, n))
                + One(Lost(states, steps, k, n))
            == One(Inserted(states, steps, k, n))
  {
    OnePlace(c, states, steps, k, n);
    BirthExactly(c, states, steps, k, n);
    DroppedExactly(c, states, steps, k, n);
  }

  // ---------------------------------------------------------------- one validator

  /** Only the initial validator runs, and it is not killed. */
  predicate SoleStep(a: Step)
  {
    !a.ValidatorJoins? && !a.ValidatorDies? && !a.ValidatorDiesInPool? && !a.ValidatorDiesInLedger?
  }

  /** Nobody else moves the tip while the validator is busy with a block. */
  predicate SoleInv(s: State)
  {
    && |s.validators| == 1 && !s.ledgerStuck
    && (s.validators[0].Passed? || s.validators[0].Holding? ==>
        TipMatches(s.validators[0].block.prev, s.ledger.lastHash))
  }

  lemma SoleStepKeeps(c: Config, s: State, a: Step)
    requires SoleInv(s) && Enabled(c, s, a) && SoleStep(a)
    ensures SoleInv(Do(c, s, a))
  {
    if Elsewhere(a) {
      ElsewhereFrame(c, s, a);
    } else if OfMiner(a) {
      MinerFrame(c, s, a);
    } else if a.ValidatorAppends? {
      DoAppends(c, s, a.v, a.timestamp);
    } else {
      SolePcKeeps(c, s, a);
    }
  }

  lemma SolePcKeeps(c: Config, s: State, a: Step)
    requires SoleInv(s) && Enabled(c, s, a)
    requires a.ValidatorStarts? || a.ValidatorReads? || a.ValidatorChecks? || a.ValidatorCommits? || a.ValidatorReports?
    ensures SoleInv(Do(c, s, a))
  {
  }

  lemma {:induction false} SoleRun(c: Config, states: seq<State>, steps: seq<Step>, k: nat)
    requires Run(c, states, steps) && k < |states|
    requires forall i :: 0 <= i < |steps| ==> SoleStep(steps[i])
    ensures SoleInv(states[k])
  {
    if k > 0 {
      SoleRun(c, states, steps, k - 1);
      RunStep(c, states, steps, k - 1);
      SoleStepKeeps(c, states[k - 1], steps[k - 1]);
    }
  }

  lemma SoleStepLosesNothing(c: Config, s: State, a: Step, n: Name)
    requires SoleInv(s) && Enabled(c, s, a) && SoleStep(a)
    ensures !Loses(s, a, n)
  {
  }

  /** With a single validator that is not killed, the second check never fails and nothing is ever lost. */
  lemma SoleValidatorDropsNothing(c: Config, states: seq<State>, steps: seq<Step>, k: nat, n: Name)
    requires Run(c, states, steps) && k < |states|
    requires forall i :: 0 <= i < |steps| ==> SoleStep(steps[i])
    ensures !Lost(states, steps, k, n)
    ensures k < |steps| && steps[k].ValidatorAppends? ==> AppendsAt(states, steps, k, 0)
  {
    forall i: nat | i < k ensures !LosesAt(states, steps, i, n) {
      SoleRun(c, states, steps, i);
      RunStep(c, states, steps, i);
      SoleStepLosesNothing(c, states[i], steps[i], n);
    }
    SoleRun(c, states, steps, k);
    if k < |steps| {
      RunStep(c, states, steps, k);
    }
  }

  // ---------------------------------------------------------------- aging

  /**
   Aging in closed form: the age of a pool entry is the number of pool commits completed since the step that inserted
   it, and its reward is the generated reward plus one for every fifty of them begun.
   */
  lemma AgingClosedForm(c: Config, states: seq<State>, steps: seq<Step>, k: nat, j: nat) returns (i: nat)
    requires ConfigOk(c) && Run(c, states, steps) && CollisionFreeRun(c, states) && k < |states| && !states[k].poolStuck
    requires j < |states[k].pool.slots| && states[k].pool.slots[j].filled
    ensures var slot := states[k].pool.slots[j];
            && i < k && InsertsAt(states, steps, i, NameOf(slot.tx))
            && slot.age == Commits(states, steps, k) - Commits(states, steps, i)
            && slot.tx == steps[i].tx.(reward := steps[i].tx.reward + Gain(slot.age))
  {
    RunKeepsInv(c, states, steps, k);
    assert SlotOk(states[k].h, states[k].pool.slots[j]);
    i := BirthIsInsertion(c, states, steps, k, NameOf(states[k].pool.slots[j].tx));
    CommitsCounted(c, states, steps, k);
  }

  lemma SlotsAt(c: Config, states: seq<State>, steps: seq<Step>, k: nat)
    requires ConfigOk(c) && Run(c, states, steps) && CollisionFreeRun(c, states) && k < |states| && !states[k].poolStuck
    ensures forall j :: 0 <= j < |states[k].pool.slots| && states[k].pool.slots[j].filled ==>
              SlotOk(states[k].h, states[k].pool.slots[j])
  {
    RunKeepsInv(c, states, steps, k);
  }

  lemma CommitsBetween(c: Config, states: seq<State>, steps: seq<Step>, x: nat, y: nat)
    requires Run(c, states, steps) && x <= y < |states|
    ensures 0 <= Commits(states, steps, y) - Commits(states, steps, x) == states[y].h.commits - states[x].h.commits
  {
    CommitsCounted(c, states, steps, x);
    CommitsCounted(c, states, steps, y);
    CommitsGrow(states, steps, x, y);
  }

  /** Entries of one birth have the same fields exactly when their ages have earned them the same. */
  lemma SameBirth(h: History, h': History, slot: Slot, slot': Slot, t: Tx)
    requires SlotOk(h, slot) && SlotOk(h', slot') && TxCompare(t, slot.tx) && NameOf(slot.tx) == NameOf(slot'.tx)
    requires NameOf(slot.tx) in h'.birth && h'.birth[NameOf(slot.tx)] == h.birth[NameOf(slot.tx)]
    ensures slot'.age - slot.age == h'.commits - h.commits
    ensures TxCompare(t, slot'.tx) <==> Gain(slot'.age) == Gain(slot.age)
  {
  }

  lemma ListedExactly(h: History, h': History, slot: Slot, slots: seq<Slot>, t: Tx)
    requires SlotOk(h, slot) && TxCompare(t, slot.tx) && h.commits <= h'.commits
    requires forall i :: 0 <= i < |slots| && slots[i].filled ==> SlotOk(h', slots[i])
    requires NameOf(t) in h'.birth && h'.birth[NameOf(t)] == h.birth[NameOf(t)]
    ensures Listed(slots, t) <==>
            NameOf(t) in FilledNames(slots) && Gain(slot.age + h'.commits - h.commits) == Gain(slot.age)
  {
    forall i | 0 <= i < |slots| && slots[i].filled && NameOf(slots[i].tx) == NameOf(t)
      ensures slots[i].age - slot.age == h'.commits - h.commits
      ensures TxCompare(t, slots[i].tx) <==> Gain(slots[i].age) == Gain(slot.age)
    {
      SameBirth(h, h', slot, slots[i], t);
    }
  }

  /**
   How long a selection lives: what was copied from slot `j` at state `x` is found with identical fields at a later
   state `y` exactly when it is still in the pool and the commits in between have not raised its reward, whatever else
   they did.
   */
  lemma SelectionLives(c: Config, states: seq<State>, steps: seq<Step>, x: nat, y: nat, j: nat, t: Tx)
    requires ConfigOk(c) && Run(c, states, steps) && CollisionFreeRun(c, states) && x <= y < |states|
    requires !states[x].poolStuck && !states[y].poolStuck && j < |states[x].pool.slots|
    requires states[x].pool.slots[j].filled && TxCompare(t, states[x].pool.slots[j].tx)
    ensures var age, passed := states[x].pool.slots[j].age, Commits(states, steps, y) - Commits(states, steps, x);
            && passed >= 0
            && (Listed(states[y].pool.slots, t) <==>
                NameOf(t) in FilledNames(states[y].pool.slots) && Gain(age + passed) == Gain(age))
  {
    SlotsAt(c, states, steps, x);
    SlotsAt(c, states, steps, y);
    BirthStays(c, states, steps, x, y, NameOf(t));
    CommitsBetween(c, states, steps, x, y);
    ListedExactly(states[x].h, states[y].h, states[x].pool.slots[j], states[y].pool.slots, t);
  }

  lemma {:induction false} CommitsGrow(states: seq<State>, steps: seq<Step>, x: nat, y: nat)
    requires x <= y
    ensures Commits(states, steps, x) <= Commits(states, steps, y)
    decreases y
  {
    if x < y {
      CommitsGrow(states, steps, x, y - 1);
    }
  }

  lemma LedgerTxIsOk(s: State, index: nat, j: nat)
    requires LedgerTxInv(s.ledger, false, s.h) && 1 <= index < s.ledger.count <= |s.ledger.blocks|
    requires j < |s.ledger.blocks[index].txs|
    ensures TxOk(s.h, s.ledger.blocks[index].txs[j])
  {
    assert TxsOk(s.h, s.ledger.blocks[index].txs);
  }

  /** The aged reward of `t`, from the step `i` that inserted it to the step `m` that removed it. */
  ghost predicate AgedBetween(states: seq<State>, steps: seq<Step>, t: Tx, i: nat, m: nat)
  {
    && InsertsAt(states, steps, i, NameOf(t)) && RemovesAt(states, steps, m, NameOf(t))
    && Commits(states, steps, i) <= Commits(states, steps, m)
    && t.reward == steps[i].tx.reward + Gain(Commits(states, steps, m) - Commits(states, steps, i))
    && t.value == steps[i].tx.value && t.timestamp == steps[i].tx.timestamp
  }

  lemma HistoryGivesReward(c: Config, states: seq<State>, steps: seq<Step>, k: nat, t: Tx) returns (i: nat, m: nat)
    requires Run(c, states, steps) && k < |states| && TxOk(states[k].h, t)
    ensures i < k && m < k && AgedBetween(states, steps, t, i, m)
  {
    i := BirthIsInsertion(c, states, steps, k, NameOf(t));
    m := RemovalIsCommit(c, states, steps, k, NameOf(t));
  }

  /** Every ledger transaction carries the aged reward of the commit that took it off the pool. */
  lemma LedgerRewardIsAged(c: Config, states: seq<State>, steps: seq<Step>, k: nat, index: nat, j: nat)
    returns (i: nat, m: nat)
    requires ConfigOk(c) && Run(c, states, steps) && CollisionFreeRun(c, states) && k < |states|
    requires !states[k].ledgerStuck
    requires 1 <= index < states[k].ledger.count <= |states[k].ledger.blocks|
    requires j < |states[k].ledger.blocks[index].txs|
    ensures i < k && m < k && AgedBetween(states, steps, states[k].ledger.blocks[index].txs[j], i, m)
  {
    RunKeepsInv(c, states, steps, k);
    LedgerTxIsOk(states[k], index, j);
    i, m := HistoryGivesReward(c, states, steps, k, states[k].ledger.blocks[index].txs[j]);
  }
}
