/**
 The transactions pool: slots in shared memory that generators fill, miners copy from, and validators check,
 clear and age, each under `sem_transactions_pool`.
 */
module Pool {
  import opened CStrings
  import opened Records

  type Name = seq<Byte>

  datatype Slot = Slot(filled: bool, age: nat, tx: Tx)

  datatype PoolState = PoolState(slots: seq<Slot>, count: int)

  /** The "0" that a miner never selects. */
  const ZERO_ID: Name := [ZERO]

  /** What `strcmp` looks at in an id field. */
  function NameOf(t: Tx): (n: Name)
  {
    CStr(t.id)
  }

  /** `txCompare` */
  predicate TxCompare(a: Tx, b: Tx)
  {
    NameOf(a) == NameOf(b) && a.reward == b.reward && a.value == b.value && a.timestamp == b.timestamp
  }

  ghost function FilledNames(slots: seq<Slot>): (names: set<Name>)
  {
    set j | 0 <= j < |slots| && slots[j].filled :: NameOf(slots[j].tx)
  }

  ghost function TxNames(txs: seq<Tx>): (names: set<Name>)
  {
    set i | 0 <= i < |txs| :: NameOf(txs[i])
  }

  ghost predicate UniqueNames(slots: seq<Slot>)
  {
    forall j, k :: 0 <= j < k < |slots| && slots[j].filled && slots[k].filled ==>
        NameOf(slots[j].tx) != NameOf(slots[k].tx)
  }

  function NumFilled(slots: seq<Slot>): (n: nat)
    ensures n <= |slots|
    ensures n == |slots| <==> forall j :: 0 <= j < |slots| ==> slots[j].filled
  {
    if slots == [] then 0
    else NumFilled(slots[..|slots| - 1]) + if slots[|slots| - 1].filled then 1 else 0
  }

  /** What holds of the pool whenever its lock is free. */
  ghost predicate PoolOk(p: PoolState)
  {
    UniqueNames(p.slots) && p.count == NumFilled(p.slots)
  }

  lemma FilledNamesSnoc(front: seq<Slot>, s: Slot)
    ensures FilledNames(front + [s]) == FilledNames(front) + if s.filled then {NameOf(s.tx)} else {}
  {
    var slots := front + [s];
    forall n | n in FilledNames(front) ensures n in FilledNames(slots) {
      var j :| 0 <= j < |front| && front[j].filled && NameOf(front[j].tx) == n;
      assert slots[j].filled;
    }
    assert slots[|front|] == s;
  }

  lemma {:induction false} NumFilledIsNames(slots: seq<Slot>)
    requires UniqueNames(slots)
    ensures NumFilled(slots) == |FilledNames(slots)|
  {
    if slots != [] {
      var front, s := slots[..|slots| - 1], slots[|slots| - 1];
      assert slots == front + [s];
      NumFilledIsNames(front);
      FilledNamesSnoc(front, s);
      if s.filled {
        assert NameOf(s.tx) !in FilledNames(front);
      }
    }
  }

  lemma PutNames(slots: seq<Slot>, j: nat, s: Slot)
    requires UniqueNames(slots) && j < |slots| && !slots[j].filled
    requires s.filled && NameOf(s.tx) !in FilledNames(slots)
    ensures UniqueNames(slots[j := s]) && FilledNames(slots[j := s]) == FilledNames(slots) + {NameOf(s.tx)}
  {
    var r := slots[j := s];
    assert forall k :: 0 <= k < |r| && k != j ==> r[k] == slots[k];
    forall k | 0 <= k < |r| && k != j && r[k].filled ensures NameOf(r[k].tx) != NameOf(s.tx) {
      assert NameOf(slots[k].tx) in FilledNames(slots);
    }
    forall n | n in FilledNames(slots) ensures n in FilledNames(r) {
      var k :| 0 <= k < |slots| && slots[k].filled && NameOf(slots[k].tx) == n;
      assert r[k].filled;
    }
    assert r[j] == s;
  }

  // ---------------------------------------------------------------- generators

  /** The first free slot, or the number of slots. */
  function FirstFree(slots: seq<Slot>): (j: nat)
    ensures j <= |slots|
    ensures j < |slots| ==> !slots[j].filled
    ensures forall k :: 0 <= k < j ==> slots[k].filled
  {
    if slots == [] || !slots[0].filled then 0 else 1 + FirstFree(slots[1..])
  }

  /** One pass of a generator through its critical section. */
  function Insert(p: PoolState, t: Tx): (r: PoolState)
  {
    var j := FirstFree(p.slots);
    if p.count < |p.slots| && j < |p.slots| then PoolState(p.slots[j := Slot(true, 0, t)], p.count + 1) else p
  }

  /**
   With the pool in agreement, a count below the size means there is a free slot: the "all slots occupied" report
   never fires.
   */
  lemma FreeSlotExists(p: PoolState)
    requires PoolOk(p)
    ensures p.count < |p.slots| <==> FirstFree(p.slots) < |p.slots|
    ensures 0 <= p.count <= |p.slots|
  {
    if FirstFree(p.slots) == |p.slots| {
      assert forall j :: 0 <= j < |p.slots| ==> p.slots[j].filled;
    } else {
      assert !p.slots[FirstFree(p.slots)].filled;
    }
  }

  lemma InsertKeepsPool(p: PoolState, t: Tx)
    requires PoolOk(p) && NameOf(t) !in FilledNames(p.slots)
    ensures PoolOk(Insert(p, t)) && |Insert(p, t).slots| == |p.slots|
    ensures FilledNames(Insert(p, t).slots) == FilledNames(p.slots) + if p.count < |p.slots| then {NameOf(t)} else {}
  {
    FreeSlotExists(p);
    if p.count < |p.slots| {
      var j, q := FirstFree(p.slots), Insert(p, t).slots;
      PutNames(p.slots, j, Slot(true, 0, t));
      NumFilledIsNames(q);
      NumFilledIsNames(p.slots);
    }
  }

  // ---------------------------------------------------------------- miners

  /** The copy a miner takes: every field, the id through `strncpy` into zeroed memory. */
  function CopyOf(t: Tx): (c: Tx)
  {
    Tx(StrNCpy(t.id, TX_ID_LEN), t.reward, t.value, t.timestamp)
  }

  /** A transaction a miner may pick at some slot. */
  ghost predicate Selectable(slots: seq<Slot>, t: Tx)
  {
    exists j :: 0 <= j < |slots| && slots[j].filled && NameOf(slots[j].tx) != ZERO_ID && t == CopyOf(slots[j].tx)
  }

  predicate IsUsable(s: Slot) { s.filled && NameOf(s.tx) != ZERO_ID }

  /** What a sequence of random draws hits, in order: a copy for every draw of a usable slot. */
  function Usable(slots: seq<Slot>, draws: seq<nat>): (txs: seq<Tx>)
    requires |slots| > 0
  {
    if draws == [] then []
    else
      var slot := slots[draws[|draws| - 1] % |slots|];
      Usable(slots, draws[..|draws| - 1]) + if IsUsable(slot) then [CopyOf(slot.tx)] else []
  }

  lemma {:induction false} UsableAreSelectable(slots: seq<Slot>, draws: seq<nat>)
    requires |slots| > 0
    ensures forall i :: 0 <= i < |Usable(slots, draws)| ==> Selectable(slots, Usable(slots, draws)[i])
  {
    if draws != [] {
      UsableAreSelectable(slots, draws[..|draws| - 1]);
      var slot := slots[draws[|draws| - 1] % |slots|];
      assert IsUsable(slot) ==> Selectable(slots, CopyOf(slot.tx));
    }
  }

  lemma OneDraw(slots: seq<Slot>, d: nat)
    requires |slots| > 0
    ensures var slot := slots[d % |slots|]; Usable(slots, [d]) == if IsUsable(slot) then [CopyOf(slot.tx)] else []
  {
    assert [d][..0] == [];
  }

  /** A draw that hits `t`. */
  ghost predicate Hits(slots: seq<Slot>, d: nat, t: Tx)
    requires |slots| > 0
  {
    Usable(slots, [d]) == [t]
  }

  /** What a draw can hit is exactly what may be selected. */
  lemma DrawsHitSelectable(slots: seq<Slot>, t: Tx)
    requires |slots| > 0
    ensures Selectable(slots, t) <==> exists d: nat :: Hits(slots, d, t)
  {
    if Selectable(slots, t) {
      SelectableIsHit(slots, t);
    }
    if d: nat :| Hits(slots, d, t) {
      HitIsSelectable(slots, d, t);
    }
  }

  lemma SelectableIsHit(slots: seq<Slot>, t: Tx)
    requires |slots| > 0 && Selectable(slots, t)
    ensures exists d: nat :: Hits(slots, d, t)
  {
    var j: nat :| j < |slots| && slots[j].filled && NameOf(slots[j].tx) != ZERO_ID && t == CopyOf(slots[j].tx);
    SmallModulo(j, |slots|);
    OneDraw(slots, j);
    assert Hits(slots, j, t);
  }

  lemma SmallModulo(j: nat, n: nat)
    requires j < n
    ensures j % n == j
  {
  }

  lemma HitIsSelectable(slots: seq<Slot>, d: nat, t: Tx)
    requires |slots| > 0 && Hits(slots, d, t)
    ensures Selectable(slots, t)
  {
    OneDraw(slots, d);
    assert [t][0] == t;
  }

  lemma UsableSnoc(slots: seq<Slot>, draws: seq<nat>, d: nat)
    requires |slots| > 0 && d < |draws|
    ensures var slot := slots[draws[d] % |slots|];
            Usable(slots, draws[..d + 1])
            == Usable(slots, draws[..d]) + if IsUsable(slot) then [CopyOf(slot.tx)] else []
  {
    assert draws[..d + 1][..d] == draws[..d];
  }

  lemma {:induction false} UsablePrefix(slots: seq<Slot>, draws: seq<nat>, d: nat)
    requires |slots| > 0 && d <= |draws|
    ensures Usable(slots, draws[..d]) <= Usable(slots, draws)
    ensures d == |draws| ==> Usable(slots, draws[..d]) == Usable(slots, draws)
    decreases |draws|
  {
    if d < |draws| {
      UsablePrefix(slots, draws[..|draws| - 1], d);
      assert draws[..|draws| - 1][..d] == draws[..d];
    } else {
      assert draws[..d] == draws;
    }
  }

  /** What one selection section yields; nothing keeps it from picking one slot twice, as the bitmap is never set. */
  ghost predicate Selection(p: PoolState, txsPerBlock: nat, txs: seq<Tx>)
  {
    && p.count >= txsPerBlock && |txs| == txsPerBlock
    && forall i :: 0 <= i < |txs| ==> Selectable(p.slots, txs[i])
  }

  // ---------------------------------------------------------------- validators

  /** The transaction is in the pool with identical fields. */
  ghost predicate Listed(slots: seq<Slot>, t: Tx)
  {
    exists j :: 0 <= j < |slots| && slots[j].filled && TxCompare(t, slots[j].tx)
  }

  ghost predicate Accepts(slots: seq<Slot>, txs: seq<Tx>)
  {
    forall i :: 0 <= i < |txs| ==> Listed(slots, txs[i])
  }

  ghost function ClearSlot(s: Slot, names: set<Name>): (r: Slot)
  {
    if s.filled && NameOf(s.tx) in names then s.(filled := false) else s
  }

  ghost function Cleared(slots: seq<Slot>, names: set<Name>): (r: seq<Slot>)
    ensures |r| == |slots|
    ensures forall j :: 0 <= j < |slots| ==> r[j] == ClearSlot(slots[j], names)
  {
    seq(|slots|, j requires 0 <= j < |slots| => ClearSlot(slots[j], names))
  }

  /** One round of aging: every fiftieth round, starting with the first, raises the reward. */
  function AgeSlot(s: Slot): (r: Slot)
  {
    if s.filled then Slot(true, s.age + 1, if s.age % 50 == 0 then s.tx.(reward := s.tx.reward + 1) else s.tx) else s
  }

  function Aged(slots: seq<Slot>): (r: seq<Slot>)
    ensures |r| == |slots|
    ensures forall j :: 0 <= j < |slots| ==> r[j] == AgeSlot(slots[j])
  {
    seq(|slots|, j requires 0 <= j < |slots| => AgeSlot(slots[j]))
  }

  /** An accepted block: its distinct ids leave the pool, what stays grows older. */
  ghost function Commit(p: PoolState, txs: seq<Tx>): (r: PoolState)
  {
    PoolState(Aged(Cleared(p.slots, TxNames(txs))), p.count - |TxNames(txs)|)
  }

  lemma AcceptedNames(slots: seq<Slot>, txs: seq<Tx>)
    requires Accepts(slots, txs)
    ensures TxNames(txs) <= FilledNames(slots)
  {
    forall n | n in TxNames(txs) ensures n in FilledNames(slots) {
      var i :| 0 <= i < |txs| && NameOf(txs[i]) == n;
      assert Listed(slots, txs[i]);
    }
  }

  lemma TxNamesSnoc(txs: seq<Tx>, i: nat)
    requires i < |txs|
    ensures TxNames(txs[..i + 1]) == TxNames(txs[..i]) + {NameOf(txs[i])}
    ensures NameOf(txs[i]) in TxNames(txs)
  {
    assert forall k :: 0 <= k < i ==> txs[..i][k] == txs[..i + 1][k];
    assert txs[..i + 1][i] == txs[i];
  }

  lemma ClearedTwice(slots: seq<Slot>, names: set<Name>, more: set<Name>)
    ensures Cleared(Cleared(slots, names), more) == Cleared(slots, names + more)
  {
  }

  lemma ClearedNames(slots: seq<Slot>, names: set<Name>)
    requires UniqueNames(slots)
    ensures FilledNames(Cleared(slots, names)) == FilledNames(slots) - names && UniqueNames(Cleared(slots, names))
  {
    var r := Cleared(slots, names);
    forall n | n in FilledNames(slots) - names ensures n in FilledNames(r) {
      var j :| 0 <= j < |slots| && slots[j].filled && NameOf(slots[j].tx) == n;
      assert r[j].filled;
    }
  }

  /** Removing one more id: it is still there exactly when it is the first of its name in the block. */
  lemma RemovalStep(slots: seq<Slot>, txs: seq<Tx>, i: nat)
    requires UniqueNames(slots) && TxNames(txs) <= FilledNames(slots) && i < |txs|
    ensures var sofar, n := Cleared(slots, TxNames(txs[..i])), NameOf(txs[i]);
            && UniqueNames(sofar)
            && Cleared(sofar, {n}) == Cleared(slots, TxNames(txs[..i + 1]))
            && |TxNames(txs[..i + 1])| == |TxNames(txs[..i])| + if n in FilledNames(sofar) then 1 else 0
  {
    var names, n := TxNames(txs[..i]), NameOf(txs[i]);
    ClearedNames(slots, names);
    TxNamesSnoc(txs, i);
    ClearedTwice(slots, names, {n});
    if n in names {
      assert names + {n} == names;
    }
  }

  lemma AgedNames(slots: seq<Slot>)
    requires UniqueNames(slots)
    ensures FilledNames(Aged(slots)) == FilledNames(slots) && UniqueNames(Aged(slots))
  {
    var r := Aged(slots);
    assert forall j :: 0 <= j < |r| ==> r[j].filled == slots[j].filled && r[j].tx.id == slots[j].tx.id;
  }

  /**
   Removing an accepted block lowers the count by exactly its number of distinct ids and keeps the pool in agreement.
   */
  lemma CommitKeepsPool(p: PoolState, txs: seq<Tx>)
    requires PoolOk(p) && Accepts(p.slots, txs)
    ensures PoolOk(Commit(p, txs)) && |Commit(p, txs).slots| == |p.slots|
    ensures FilledNames(Commit(p, txs).slots) == FilledNames(p.slots) - TxNames(txs)
  {
    var names := TxNames(txs);
    AcceptedNames(p.slots, txs);
    ClearedNames(p.slots, names);
    AgedNames(Cleared(p.slots, names));
    NumFilledIsNames(p.slots);
    NumFilledIsNames(Commit(p, txs).slots);
    assert |FilledNames(p.slots) - names| == |FilledNames(p.slots)| - |names|;
  }

  /** An untouched selection passes the check: what was copied is still listed. */
  lemma SelectionIsListed(slots: seq<Slot>, t: Tx)
    requires Selectable(slots, t)
    requires forall j :: 0 <= j < |slots| && slots[j].filled ==> |NameOf(slots[j].tx)| < TX_ID_LEN
    ensures Listed(slots, t) && |t.id| == TX_ID_LEN && Canonical(t.id)
  {
    var j :| 0 <= j < |slots| && slots[j].filled && NameOf(slots[j].tx) != ZERO_ID && t == CopyOf(slots[j].tx);
    StrNCpyCanonical(slots[j].tx.id, TX_ID_LEN);
    assert TxCompare(t, slots[j].tx);
  }

  /**
   When another block commits in between: what was copied from slot `j` stays listed exactly when that block does not
   take it away and the round of aging that follows does not raise its reward.
   */
  lemma SurvivesCommit(p: PoolState, txs: seq<Tx>, j: nat, t: Tx)
    requires UniqueNames(p.slots) && j < |p.slots| && p.slots[j].filled && TxCompare(t, p.slots[j].tx)
    ensures Listed(Commit(p, txs).slots, t) <==> NameOf(t) !in TxNames(txs) && p.slots[j].age % 50 != 0
  {
    var r := Commit(p, txs).slots;
    assert r[j] == AgeSlot(ClearSlot(p.slots[j], TxNames(txs)));
    if Listed(r, t) {
      var k :| 0 <= k < |r| && r[k].filled && TxCompare(t, r[k].tx);
      assert r[k] == AgeSlot(ClearSlot(p.slots[k], TxNames(txs)));
      assert k == j;
    } else {
      assert !(r[j].filled && TxCompare(t, r[j].tx));
    }
  }

  // ---------------------------------------------------------------- the shared segment

  class TransactionPool {
    const slots: array<Slot>
    var count: int

    constructor (size: nat)
      ensures Valid() && fresh(slots)
      ensures View() == PoolState(seq(size, _ => Slot(false, 0, ZERO_TX)), 0)
    {
      slots := new Slot[size](_ => Slot(false, 0, ZERO_TX));
      count := 0;
      new;
      assert slots[..] == seq(size, _ => Slot(false, 0, ZERO_TX));
      NumFilledIsNames(slots[..]);
      assert FilledNames(slots[..]) == {};
    }

    ghost function View(): PoolState
      reads this, slots
    {
      PoolState(slots[..], count)
    }

    ghost predicate Valid()
      reads this, slots
    {
      PoolOk(View())
    }

    /** The generator's critical section: first-free insertion. */
    method Generate(t: Tx) returns (added: bool)
      modifies this, slots
      ensures View() == Insert(old(View()), t)
      ensures added <==> View() != old(View())
      ensures old(Valid()) ==> (added <==> old(count) < slots.Length)
    {
      added := false;
      ghost var before := View();
      if count < slots.Length {
        var i := 0;
        while i < slots.Length
          invariant 0 <= i <= slots.Length && View() == before && !added
          invariant forall k :: 0 <= k < i ==> slots[k].filled
        {
          if !slots[i].filled {
            assert FirstFree(before.slots) == i;
            slots[i] := Slot(true, 0, t);
            count := count + 1;
            added := true;
            assert slots[..] == before.slots[i := Slot(true, 0, t)];
            break;
          }
          i := i + 1;
        }
      }
      if PoolOk(before) {
        FreeSlotExists(before);
      }
    }

    /**
     The miner's critical section, driven by what `rand()` returns; `None` when the draws run out before enough are
     picked.
     */
    method Select(txsPerBlock: nat, draws: seq<nat>) returns (picked: Option<seq<Tx>>)
      requires slots.Length > 0
      ensures picked.Some? ==> Selection(View(), txsPerBlock, picked.value)
      ensures picked == if count >= txsPerBlock && |Usable(slots[..], draws)| >= txsPerBlock
                        then Some(Usable(slots[..], draws)[..txsPerBlock]) else None
    {
      if count < txsPerBlock {
        return None;
      }
      var selected: seq<Tx> := [];
      ghost var all := slots[..];
      var d := 0;
      while |selected| < txsPerBlock && d < |draws|
        invariant |selected| <= txsPerBlock && 0 <= d <= |draws|
        invariant slots[..] == all && selected == Usable(all, draws[..d])
      {
        UsableSnoc(all, draws, d);
        var randomIndex := draws[d] % slots.Length;
        var current := slots[randomIndex];
        if NameOf(current.tx) != ZERO_ID && current.filled {
          selected := selected + [CopyOf(current.tx)];
        }
        d := d + 1;
      }
      UsablePrefix(all, draws, d);
      if |selected| < txsPerBlock {
        return None;
      }
      UsableAreSelectable(all, draws[..d]);
      assert Selection(View(), txsPerBlock, selected);
      assert selected == Usable(all, draws)[..txsPerBlock];
      return Some(selected);
    }

    /** The validator's critical section: check every transaction, and only then remove them all and age the rest. */
    method CheckAndCommit(txs: seq<Tx>) returns (accepted: bool)
      requires Valid()
      modifies this, slots
      ensures Valid()
      ensures accepted <==> Accepts(old(View()).slots, txs)
      ensures View() == if accepted then Commit(old(View()), txs) else old(View())
    {
      accepted := CheckAll(txs);
      if accepted {
        CommitKeepsPool(View(), txs);
        RemoveAll(txs);
        AgeAll();
      }
    }

    method CheckAll(txs: seq<Tx>) returns (accepted: bool)
      requires Valid()
      ensures accepted <==> Accepts(slots[..], txs)
    {
      var skip := false;
      var i := 0;
      while i < |txs| && !skip
        invariant 0 <= i <= |txs|
        invariant !skip ==> forall k :: 0 <= k < i ==> Listed(slots[..], txs[k])
        invariant skip ==> exists k :: 0 <= k < |txs| && !Listed(slots[..], txs[k])
        decreases |txs| - i, !skip
      {
        var found := false;
        var j := 0;
        while j < slots.Length
          invariant 0 <= j <= slots.Length && !found && !skip
          invariant forall k :: 0 <= k < j && slots[k].filled ==> NameOf(slots[k].tx) != NameOf(txs[i])
        {
          if slots[j].filled && NameOf(txs[i]) == NameOf(slots[j].tx) {
            if !TxCompare(txs[i], slots[j].tx) {
              skip := true;
              break;
            }
            found := true;
            assert slots[..][j] == slots[j];
            break;
          }
          j := j + 1;
        }
        assert found <==> Listed(slots[..], txs[i]) by {
          if Listed(slots[..], txs[i]) {
            var k :| 0 <= k < slots.Length && slots[..][k].filled && TxCompare(txs[i], slots[..][k].tx);
            assert k == j;
          }
        }
        if !found {
          skip := true;
          break;
        }
        i := i + 1;
      }
      accepted := !skip;
    }

    method RemoveAll(txs: seq<Tx>)
      requires UniqueNames(slots[..]) && Accepts(slots[..], txs)
      modifies this, slots
      ensures slots[..] == Cleared(old(slots[..]), TxNames(txs))
      ensures count == old(count) - |TxNames(txs)|
    {
      ghost var before := slots[..];
      AcceptedNames(before, txs);
      assert TxNames(txs[..0]) == {};
      for i := 0 to |txs|
        invariant slots[..] == Cleared(before, TxNames(txs[..i]))
        invariant count == old(count) - |TxNames(txs[..i])|
      {
        RemovalStep(before, txs, i);
        RemoveOne(txs[i]);
      }
      assert txs[..|txs|] == txs;
    }

    /** Clears the slot that holds the id of `t`, if any. */
    method RemoveOne(t: Tx)
      requires UniqueNames(slots[..])
      modifies this, slots
      ensures slots[..] == Cleared(old(slots[..]), {NameOf(t)})
      ensures count == old(count) - if NameOf(t) in old(FilledNames(slots[..])) then 1 else 0
    {
      ghost var before := slots[..];
      var j := 0;
      while j < slots.Length
        invariant 0 <= j <= slots.Length && slots[..] == before && count == old(count)
        invariant forall k :: 0 <= k < j && before[k].filled ==> NameOf(before[k].tx) != NameOf(t)
      {
        if slots[j].filled && NameOf(t) == NameOf(slots[j].tx) {
          assert before[j] == slots[j] && NameOf(t) in FilledNames(before);
          slots[j] := slots[j].(filled := false);
          count := count - 1;
          break;
        }
        j := j + 1;
      }
    }

    method AgeAll()
      modifies slots
      ensures slots[..] == Aged(old(slots[..]))
    {
      ghost var before := slots[..];
      for i := 0 to slots.Length
        invariant forall k :: 0 <= k < i ==> slots[k] == AgeSlot(before[k])
        invariant forall k :: i <= k < slots.Length ==> slots[k] == before[k]
      {
        if slots[i].filled {
          if slots[i].age % 50 == 0 {
            slots[i] := slots[i].(tx := slots[i].tx.(reward := slots[i].tx.reward + 1));
          }
          slots[i] := slots[i].(age := slots[i].age + 1);
        }
      }
    }
  }
}
