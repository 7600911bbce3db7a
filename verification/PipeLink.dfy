/**
 The queue of blocks in the protocol and the bytes of the pipe: a run's writes and reads, in their order, can be carried
 out on the byte stream, the bytes in the pipe are always the frames of the queue, and what a validator parses is the
 block that the protocol hands it.
 */
module PipeLink {
  import opened CStrings
  import opened Records
  import opened Pow
  import opened Ledger
  import opened Protocol
  import opened Pipe
  import opened ChainInvariant
  import opened Theorems

  /** What a step does to the pipe: a miner writes a frame, a validator reads one. */
  function EventsOf(c: Config, s: State, a: Step): (events: seq<Event>)
  {
    match a
    case MinerMines(i, timestamp) =>
      if i < |s.miners| && s.miners[i].pc.Ready? && c.pow.mine(Candidate(s, i, timestamp)).Some? then
        [Write(i, MinedBlock(c, s, i, timestamp))]
      else []
    case ValidatorReads(v) => [Read(v)]
    case _ => []
  }

  /** The block a mining step puts into the pipe. */
  function MinedBlock(c: Config, s: State, i: nat, timestamp: int): (b: Block)
    requires i < |s.miners| && s.miners[i].pc.Ready? && c.pow.mine(Candidate(s, i, timestamp)).Some?
  {
    var b := Candidate(s, i, timestamp);
    b.(nonce := c.pow.mine(b).value)
  }

  /** The events of the first `k` steps. */
  function PipeEvents(c: Config, states: seq<State>, steps: seq<Step>, k: nat): (events: seq<Event>)
    requires k <= |steps| && k <= |states|
  {
    if k == 0 then [] else PipeEvents(c, states, steps, k - 1) + EventsOf(c, states[k - 1], steps[k - 1])
  }

  /** The queue after a step. */
  function PipeAfter(c: Config, s: State, a: Step): (pipe: seq<Block>)
  {
    var events := EventsOf(c, s, a);
    if events == [] then s.pipe
    else if events[0].Write? then s.pipe + [events[0].block]
    else if s.pipe == [] then []
    else s.pipe[1..]
  }

  lemma StepMovesPipe(c: Config, s: State, a: Step)
    requires Enabled(c, s, a)
    ensures Do(c, s, a).pipe == PipeAfter(c, s, a)
  {
    if Elsewhere(a) {
      ElsewhereFrame(c, s, a);
    } else if a.ValidatorAppends? {
      DoAppends(c, s, a.v, a.timestamp);
    }
  }

  lemma FifoSnoc(events: seq<Event>, e: Event)
    ensures FifoAfter(events + [e]) == FifoNext(FifoAfter(events), e)
  {
    assert (events + [e])[..|events|] == events;
  }

  /** Numbers of the blocks under way fit their C fields. */
  ghost predicate InFields(s: State)
  {
    forall j :: 0 <= j < |s.pipe| ==> InRange(s.pipe[j])
  }

  ghost predicate InFieldsRun(states: seq<State>)
  {
    forall j :: 0 <= j < |states| ==> InFields(states[j])
  }

  /** The runs the link speaks of: no collision of digests, frames of one `write`, numbers that fit their C fields. */
  ghost predicate PipeRun(c: Config, states: seq<State>, steps: seq<Step>)
  {
    && ConfigOk(c) && Run(c, states, steps) && CollisionFreeRun(c, states)
    && c.txsPerBlock <= 49 && InFieldsRun(states)
  }

  /** The stream that the events lead to holds the frames of `queue`. */
  ghost predicate Carries(txsPerBlock: nat, events: seq<Event>, queue: seq<Block>)
  {
    && Exec(txsPerBlock, events).Some? && Refines(txsPerBlock, Exec(txsPerBlock, events).value, FifoAfter(events))
    && FifoAfter(events).queue == queue
  }

  lemma CarriesWrite(txsPerBlock: nat, events: seq<Event>, queue: seq<Block>, w: nat, b: Block)
    requires FrameSize(txsPerBlock) <= PIPE_BUF && Carries(txsPerBlock, events, queue) && InRange(b)
    requires |b.txs| == txsPerBlock
    ensures Carries(txsPerBlock, events + [Write(w, b)], queue + [b])
  {
    ExecSnoc(txsPerBlock, events, Write(w, b));
    FifoSnoc(events, Write(w, b));
    StreamIsFifo(txsPerBlock, events + [Write(w, b)]);
  }

  /** The last read of the events returned the frame of `b`. */
  ghost predicate LastReadIs(txsPerBlock: nat, events: seq<Event>, b: Block)
  {
    && Exec(txsPerBlock, events).Some? && Exec(txsPerBlock, events).value.results != []
    && var results := Exec(txsPerBlock, events).value.results;
       ParseFrame(results[|results| - 1], txsPerBlock) == Parsed(b)
  }

  lemma CarriesRead(txsPerBlock: nat, events: seq<Event>, queue: seq<Block>, v: nat)
    requires FrameSize(txsPerBlock) <= PIPE_BUF && Carries(txsPerBlock, events, queue) && queue != []
    ensures Carries(txsPerBlock, events + [Read(v)], queue[1..])
    ensures LastReadIs(txsPerBlock, events + [Read(v)], queue[0])
  {
    HeadFrame(txsPerBlock, queue);
    ExecSnoc(txsPerBlock, events, Read(v));
    FifoSnoc(events, Read(v));
    StreamIsFifo(txsPerBlock, events + [Read(v)]);
  }

  lemma MinedFits(c: Config, r: State, pipe: seq<Block>, b: Block)
    requires PipeInv(c, r.ledger, r.ledgerStuck, r.pipe) && InFields(r) && r.pipe == pipe + [b]
    ensures InRange(b) && |b.txs| == c.txsPerBlock
  {
    assert r.pipe[|pipe|] == b;
  }

  lemma CarriesStep(c: Config, s: State, a: Step, events: seq<Event>)
    requires FrameSize(c.txsPerBlock) <= PIPE_BUF && Carries(c.txsPerBlock, events, s.pipe)
    requires a.ValidatorReads? ==> s.pipe != []
    requires var more := EventsOf(c, s, a);
             more != [] && more[0].Write? ==> InRange(more[0].block) && |more[0].block.txs| == c.txsPerBlock
    ensures Carries(c.txsPerBlock, events + EventsOf(c, s, a), PipeAfter(c, s, a))
  {
    var more := EventsOf(c, s, a);
    if more == [] {
      assert events + [] == events;
    } else if more[0].Write? {
      CarriesWrite(c.txsPerBlock, events, s.pipe, more[0].writer, more[0].block);
    } else {
      CarriesRead(c.txsPerBlock, events, s.pipe, more[0].reader);
    }
  }

  /** The stream of the events so far holds the frames of the protocol's queue. */
  ghost predicate CarriedAt(c: Config, states: seq<State>, steps: seq<Step>, k: nat)
  {
    k <= |steps| && k < |states| && Carries(c.txsPerBlock, PipeEvents(c, states, steps, k), states[k].pipe)
  }

  lemma CarriesNext(c: Config, states: seq<State>, steps: seq<Step>, k: nat)
    requires PipeRun(c, states, steps) && k + 1 < |states| && CarriedAt(c, states, steps, k)
    ensures CarriedAt(c, states, steps, k + 1)
  {
    RunKeepsInv(c, states, steps, k + 1);
    RunStep(c, states, steps, k);
    StepMovesPipe(c, states[k], steps[k]);
    var more := EventsOf(c, states[k], steps[k]);
    if more != [] && more[0].Write? {
      MinedFits(c, states[k + 1], states[k].pipe, more[0].block);
    }
    CarriesStep(c, states[k], steps[k], PipeEvents(c, states, steps, k));
  }

  lemma CarriesNothing(c: Config, states: seq<State>, steps: seq<Step>)
    requires Run(c, states, steps)
    ensures CarriedAt(c, states, steps, 0)
  {
  }

  /** Up to 49 transactions per block the pipe carries the queue of the protocol through every run. */
  lemma {:induction false} QueueIsTheStream(c: Config, states: seq<State>, steps: seq<Step>, k: nat)
    requires PipeRun(c, states, steps) && k < |states|
    ensures CarriedAt(c, states, steps, k)
  {
    if k == 0 {
      CarriesNothing(c, states, steps);
    } else {
      QueueIsTheStream(c, states, steps, k - 1);
      CarriesNext(c, states, steps, k - 1);
    }
  }

  /** What the bytes of its `read` parse as is the block that the protocol says a validator received. */
  lemma ReadsGiveTheBlock(c: Config, states: seq<State>, steps: seq<Step>, k: nat, v: nat)
    requires PipeRun(c, states, steps) && k < |steps| && steps[k] == ValidatorReads(v)
    ensures k + 1 < |states| && v < |states[k + 1].validators| && states[k + 1].validators[v].Received?
    ensures LastReadIs(c.txsPerBlock, PipeEvents(c, states, steps, k + 1), states[k + 1].validators[v].block)
  {
    RunStep(c, states, steps, k);
    ReadEffect(c, states[k], v);
    QueueIsTheStream(c, states, steps, k);
    CarriesRead(c.txsPerBlock, PipeEvents(c, states, steps, k), states[k].pipe, v);
  }

  lemma ReadEffect(c: Config, s: State, v: nat)
    requires Enabled(c, s, ValidatorReads(v))
    ensures var r := Do(c, s, ValidatorReads(v));
            v < |r.validators| && s.pipe != [] && r.validators[v] == Received(s.pipe[0])
  {
  }
}
