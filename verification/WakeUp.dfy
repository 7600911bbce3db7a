/**
 `sem_minerwork`: generators read its value and then post outside any lock, one post at a time; miner threads take it
 with a timed wait. How far can overlapping generators drive it up?
 */
module WakeUp {
  import opened CStrings
  import opened Records
  import opened Pool
  import opened Sums

  // ---------------------------------------------------------------- one generator alone

  class Semaphore {
    var value: nat

    constructor (initial: nat)
      ensures value == initial
    {
      value := initial;
    }

    method Post()
      modifies this
      ensures value == old(value) + 1
    {
      value := value + 1;
    }
  }

  /** The posting loop when nobody interferes: the semaphore is filled up to the number of miners. */
  method SignalMiners(sem: Semaphore, numMiners: nat)
    modifies sem
    ensures sem.value == if old(sem.value) < numMiners then numMiners else old(sem.value)
  {
    var toPost: int := numMiners - sem.value;
    if toPost > 0 {
      for i := 0 to toPost
        invariant sem.value == old(sem.value) + i
      {
        sem.Post();
      }
    }
  }

  /** What a generator keeps between rounds. */
  class Generator {
    var txNumber: nat
    var lastSignalCount: int

    constructor ()
      ensures txNumber == 0 && lastSignalCount == 0
    {
      txNumber, lastSignalCount := 0, 0;
    }

    /**
     One round under the pool lock. The rule looks at whether something was added, whether the count has changed since
     the last signal and whether the pool is full; with the pool in agreement these cover every case, so miners are
     signalled exactly when the pool holds enough transactions for a block.
     */
    method Round(pool: TransactionPool, t: Tx, txsPerBlock: nat) returns (shouldSignal: bool)
      requires pool.Valid()
      modifies this, pool, pool.slots
      ensures pool.View() == Insert(old(pool.View()), t)
      ensures shouldSignal <==> pool.count >= txsPerBlock
      ensures lastSignalCount == if shouldSignal then pool.count else old(lastSignalCount)
      ensures txNumber == old(txNumber) + if old(pool.count) < pool.slots.Length then 1 else 0
    {
      FreeSlotExists(pool.View());
      var added := pool.Generate(t);
      if added {
        txNumber := txNumber + 1;
      }
      shouldSignal := false;
      var currentCount := pool.count;
      if currentCount >= txsPerBlock
          && (added || currentCount != lastSignalCount || currentCount == pool.slots.Length) {
        shouldSignal := true;
        lastSignalCount := currentCount;
      }
    }
  }

  // ---------------------------------------------------------------- generators overlapping

  /** The semaphore, and for every generator started so far the posts it has decided on and not made yet. */
  datatype Wake = Wake(sem: nat, pending: seq<nat>)

  datatype Act =
    | Start           // another generator is started
    | Decide(g: nat)  // generator `g` reads the semaphore and fixes the number of its posts
    | Post(g: nat)
    | Take            // a miner's timed wait succeeds
    | Quit(g: nat)    // generator `g` is interrupted

  predicate Possible(w: Wake, a: Act)
  {
    match a
    case Start => true
    case Decide(g) => g < |w.pending| && w.pending[g] == 0
    case Post(g) => g < |w.pending| && w.pending[g] > 0
    case Take => w.sem > 0
    case Quit(g) => g < |w.pending|
  }

  function Apply(numMiners: nat, w: Wake, a: Act): (r: Wake)
    requires Possible(w, a)
  {
    match a
    case Start => w.(pending := w.pending + [0])
    case Decide(g) => w.(pending := w.pending[g := if w.sem < numMiners then numMiners - w.sem else 0])
    case Post(g) => Wake(w.sem + 1, w.pending[g := w.pending[g] - 1])
    case Take => w.(sem := w.sem - 1)
    case Quit(g) => w.(pending := w.pending[g := 0])
  }

  function Execute(numMiners: nat, acts: seq<Act>): (w: Option<Wake>)
  {
    if acts == [] then Some(Wake(0, []))
    else
      match Execute(numMiners, acts[..|acts| - 1])
      case Some(w) => if Possible(w, acts[|acts| - 1]) then Some(Apply(numMiners, w, acts[|acts| - 1])) else None
      case None => None
  }

  lemma {:induction false} SumBound(s: seq<nat>, m: nat)
    requires forall i :: 0 <= i < |s| ==> s[i] <= m
    ensures Sum(s) <= |s| * m
  {
    if s != [] {
      SumBound(s[..|s| - 1], m);
    }
  }

  /** Leaving one generator out of the sum leaves at most the others' full shares. */
  lemma SumOfOthers(s: seq<nat>, g: nat, m: nat)
    requires g < |s| && s[g] == 0 && forall i :: 0 <= i < |s| ==> s[i] <= m
    ensures Sum(s) + m <= |s| * m
  {
    SumBound(s[g := m], m);
    SumUpdate(s, g, m);
  }

  predicate Bounded(numMiners: nat, w: Wake)
  {
    && (forall g :: 0 <= g < |w.pending| ==> w.pending[g] <= numMiners)
    && w.sem + Sum(w.pending) <= |w.pending| * numMiners
  }

  lemma OneMoreShare(n: nat, share: nat)
    ensures (n + 1) * share == n * share + share
  {
  }

  lemma ApplyKeepsBound(numMiners: nat, w: Wake, a: Act)
    requires Bounded(numMiners, w) && Possible(w, a)
    ensures Bounded(numMiners, Apply(numMiners, w, a))
  {
    match a
    case Start =>
      assert (w.pending + [0])[..|w.pending|] == w.pending;
      OneMoreShare(|w.pending|, numMiners);
    case Decide(g) =>
      SumOfOthers(w.pending, g, numMiners);
      SumUpdate(w.pending, g, if w.sem < numMiners then numMiners - w.sem else 0);
    case Post(g) =>
      SumUpdate(w.pending, g, w.pending[g] - 1);
    case Take =>
    case Quit(g) =>
      SumUpdate(w.pending, g, 0);
  }

  /** With G generators and M miners the semaphore together with all pending posts never exceeds G * M. */
  lemma {:induction false} WakeUpsAreBounded(numMiners: nat, acts: seq<Act>)
    requires Execute(numMiners, acts).Some?
    ensures Bounded(numMiners, Execute(numMiners, acts).value)
  {
    if acts != [] {
      WakeUpsAreBounded(numMiners, acts[..|acts| - 1]);
      ApplyKeepsBound(numMiners, Execute(numMiners, acts[..|acts| - 1]).value, acts[|acts| - 1]);
    }
  }

  /** One generator alone never drives the semaphore above the number of miners. */
  lemma OneGeneratorFillsUp(numMiners: nat, acts: seq<Act>)
    requires Execute(numMiners, acts).Some? && |Execute(numMiners, acts).value.pending| == 1
    ensures Execute(numMiners, acts).value.sem <= numMiners
  {
    WakeUpsAreBounded(numMiners, acts);
  }

  // ---------------------------------------------------------------- a round undisturbed

  function Posts(g: nat, n: nat): (acts: seq<Act>)
  {
    seq(n, _ => Post(g))
  }

  lemma {:induction false} PostsMade(numMiners: nat, acts: seq<Act>, w: Wake, g: nat, n: nat)
    requires Execute(numMiners, acts) == Some(w) && g < |w.pending| && w.pending[g] == n
    ensures Execute(numMiners, acts + Posts(g, n)) == Some(Wake(w.sem + n, w.pending[g := 0]))
    decreases n
  {
    if n == 0 {
      assert acts + Posts(g, 0) == acts && w.pending[g := 0] == w.pending;
    } else {
      ExecuteSnoc(numMiners, acts, Post(g));
      var next := Wake(w.sem + 1, w.pending[g := n - 1]);
      PostsMade(numMiners, acts + [Post(g)], next, g, n - 1);
      assert acts + Posts(g, n) == acts + [Post(g)] + Posts(g, n - 1);
      assert next.pending[g := 0] == w.pending[g := 0];
    }
  }

  /**
   A generator that decides and posts with nobody in between leaves the semaphore at the number of miners, or where it
   was if that is more: the steps of overlapping generators are those of the posting loop.
   */
  lemma UndisturbedRound(numMiners: nat, acts: seq<Act>, g: nat) returns (n: nat)
    requires Execute(numMiners, acts).Some? && Possible(Execute(numMiners, acts).value, Decide(g))
    ensures var w := Execute(numMiners, acts).value;
            && w.sem + n == (if w.sem < numMiners then numMiners else w.sem)
            && Execute(numMiners, acts + [Decide(g)] + Posts(g, n)) == Some(w.(sem := w.sem + n))
  {
    var w := Execute(numMiners, acts).value;
    ExecuteSnoc(numMiners, acts, Decide(g));
    var decided := Execute(numMiners, acts + [Decide(g)]).value;
    n := decided.pending[g];
    PostsMade(numMiners, acts + [Decide(g)], decided, g, n);
    assert decided.pending[g := 0] == w.pending;
  }

  // ---------------------------------------------------------------- the bound is reached

  lemma ExecuteSnoc(numMiners: nat, acts: seq<Act>, a: Act)
    requires Execute(numMiners, acts).Some? && Possible(Execute(numMiners, acts).value, a)
    ensures Execute(numMiners, acts + [a]) == Some(Apply(numMiners, Execute(numMiners, acts).value, a))
  {
    assert (acts + [a])[..|acts|] == acts;
  }

  function Full(g: nat, numMiners: nat, idle: nat): (pending: seq<nat>)
  {
    seq(g, _ => numMiners) + seq(idle, _ => 0)
  }

  /** `g` generators are started and all of them read the semaphore before any of them posts. */
  lemma {:induction false} AllDecide(numMiners: nat, g: nat, decided: nat) returns (acts: seq<Act>)
    requires decided <= g
    ensures Execute(numMiners, acts) == Some(Wake(0, Full(decided, numMiners, g - decided)))
    decreases g, decided
  {
    if decided > 0 {
      acts := AllDecide(numMiners, g, decided - 1);
      ExecuteSnoc(numMiners, acts, Decide(decided - 1));
      acts := acts + [Decide(decided - 1)];
      assert Full(decided - 1, numMiners, g - decided + 1)[decided - 1 := numMiners]
          == Full(decided, numMiners, g - decided);
    } else if g > 0 {
      acts := AllDecide(numMiners, g - 1, 0);
      ExecuteSnoc(numMiners, acts, Start);
      acts := acts + [Start];
      assert Full(0, numMiners, g - 1) + [0] == Full(0, numMiners, g);
    } else {
      acts := [];
      assert Full(0, numMiners, 0) == [];
    }
  }

  lemma {:induction false} AllPost(numMiners: nat, acts: seq<Act>, n: nat) returns (more: seq<Act>)
    requires Execute(numMiners, acts).Some? && Sum(Execute(numMiners, acts).value.pending) == n
    ensures var w := Execute(numMiners, acts).value;
            && Execute(numMiners, more).Some? && Execute(numMiners, more).value.sem == w.sem + n
            && |Execute(numMiners, more).value.pending| == |w.pending|
    decreases n
  {
    var w := Execute(numMiners, acts).value;
    if n == 0 {
      more := acts;
    } else {
      var g := PositiveTerm(w.pending);
      ExecuteSnoc(numMiners, acts, Post(g));
      SumUpdate(w.pending, g, w.pending[g] - 1);
      more := AllPost(numMiners, acts + [Post(g)], n - 1);
    }
  }

  lemma {:induction false} PositiveTerm(s: seq<nat>) returns (i: nat)
    requires Sum(s) > 0
    ensures i < |s| && s[i] > 0
  {
    if s[|s| - 1] > 0 {
      i := |s| - 1;
    } else {
      i := PositiveTerm(s[..|s| - 1]);
    }
  }

  lemma {:induction false} SumOfFull(g: nat, numMiners: nat)
    ensures Sum(Full(g, numMiners, 0)) == g * numMiners
  {
    if g > 0 {
      SumOfFull(g - 1, numMiners);
      assert Full(g, numMiners, 0)[..g - 1] == Full(g - 1, numMiners, 0);
      assert g * numMiners == (g - 1) * numMiners + numMiners;
    } else {
      assert Full(0, numMiners, 0) == [];
    }
  }

  /** The bound is exact: for every G and M some interleaving takes the semaphore itself to G * M. */
  lemma BoundIsReached(numMiners: nat, g: nat) returns (acts: seq<Act>)
    ensures Execute(numMiners, acts).Some? && |Execute(numMiners, acts).value.pending| == g
    ensures Execute(numMiners, acts).value.sem == g * numMiners
  {
    acts := AllDecide(numMiners, g, g);
    SumOfFull(g, numMiners);
    acts := AllPost(numMiners, acts, g * numMiners);
  }
}
