/** Scheduler and pool together: requests, background runs on the pool and operations in between, in
    every order. */
module PoolNodes {
  import opened BlockTrees
  import opened Collections
  import opened Options
  import opened PoolLists
  import opened Reinjection
  import opened Transactions
  import opened TxPools
  import Scheduling = ReorgScheduler

  /** What the pool looks like between two operations. */
  datatype Snapshot = Snapshot(pending: ListMap, queue: ListMap, next: Address -> nat, state: State, maxGas: nat,
                               locals: set<Address>)
  {
    ghost predicate GapFree() {
      forall a :: Exact(ListOf(pending, a), ListOf(queue, a), state.nonce(a), next(a))
    }

    ghost predicate AllReady() {
      forall a :: Ready(ListOf(pending, a), state.nonce(a), state.balance(a), maxGas)
    }

    ghost predicate Within(config: Config) {
      && (Count(pending) <= config.globalSlots || forall a :: a !in locals ==> |ListOf(pending, a)| <= config.accountSlots)
      && (Count(queue) <= config.globalQueue || forall a :: a !in locals ==> ListOf(queue, a) == map[])
    }
  }

  /** A run that has been executed: with which request, if it has a reset, and the pool before and after. */
  datatype Effect = Effect(run: Scheduling.Run, req: Option<ResetRequest>, before: Snapshot, after: Snapshot)
  {
    /** The run resets to a head on top of the one the pool had, if it resets at all. */
    ghost predicate Extends() {
      req.Some? ==> req.value.Extends(before.state)
    }

    /** What a run guarantees. All pending transactions are executable and the limits are met. Without a
        reset, no account of the run has its next nonce left in the queue; with one that extends the
        chain, only where pending transactions have outlasted it. */
    ghost predicate TookPlace(config: Config) {
      && after.Within(config) && after.AllReady() && (req.Some? <==> run.reset.Some?)
      && (before.GapFree() && Extends() ==> after.GapFree())
      && match req
         case None =>
           before.GapFree() ==> forall a :: a in run.dirty ==> after.next(a) !in ListOf(after.queue, a)
         case Some(req) =>
           && after.state == (if req.ok then req.state else before.state)
           && (before.GapFree() && req.ok && Extends() ==> forall a :: after.next(a) in ListOf(after.queue, a) ==>
                 Continues(ListOf(before.pending, a), ListOf(before.queue, a), req.state.nonce(a), before.next(a),
                           req.state.balance(a), req.maxGas))
    }
  }

  /** The runs that have been executed are the first ones, in order, and each took place. */
  ghost predicate Executed(log: seq<Effect>, runs: seq<Scheduling.Run>, config: Config) {
    |log| <= |runs| && forall i :: 0 <= i < |log| ==> log[i].run == runs[i] && log[i].TookPlace(config)
  }

  ghost predicate AllExtend(log: seq<Effect>) {
    forall i :: 0 <= i < |log| ==> log[i].Extends()
  }

  /** While all resets extend the chain, the pool is gap-free before every run, and now. */
  ghost predicate GapFreeSoFar(log: seq<Effect>, now: Snapshot) {
    AllExtend(log) ==> now.GapFree() && forall i :: 0 <= i < |log| ==> log[i].before.GapFree()
  }

  lemma ExecutedNext(log: seq<Effect>, runs: seq<Scheduling.Run>, config: Config, e: Effect)
    requires Executed(log, runs, config) && |log| < |runs| && e.run == runs[|log|] && e.TookPlace(config)
    ensures Executed(log + [e], runs, config)
  {
    hide Effect.TookPlace;
  }

  lemma ExecutedMore(log: seq<Effect>, runs: seq<Scheduling.Run>, runs': seq<Scheduling.Run>, config: Config)
    requires Executed(log, runs, config) && runs <= runs'
    ensures Executed(log, runs', config)
  {
    hide Effect.TookPlace;
  }

  lemma GapFreeNext(log: seq<Effect>, e: Effect, config: Config)
    requires GapFreeSoFar(log, e.before) && e.TookPlace(config)
    ensures GapFreeSoFar(log + [e], e.after)
  {
    hide Snapshot.GapFree, Snapshot.Within, Snapshot.AllReady, Effect.Extends, Continues;
    var longer := log + [e];
    if AllExtend(longer) {
      assert longer[|log|].Extends();
      forall i | 0 <= i < |log|
        ensures log[i].Extends()
      {
        assert longer[i] == log[i];
      }
    }
  }

  lemma StaysGapFree(e: Effect, config: Config)
    requires e.TookPlace(config) && e.before.GapFree() && e.Extends()
    ensures e.after.GapFree()
  {
    hide Snapshot.GapFree, Snapshot.Within, Snapshot.AllReady, Effect.Extends, Continues;
  }

  /** Each head is on top of the one before it. */
  ghost predicate HeadsGrow(s: Headers, genesis: Hash, heads: seq<Hash>)
    requires Closed(s, genesis)
  {
    && (forall i :: 0 <= i < |heads| ==> heads[i] in s)
    && forall i :: 0 < i < |heads| ==> Grows(s, genesis, Some(heads[i - 1]), heads[i])
  }

  /** Then every later head is on top of every earlier one. */
  lemma {:induction false} GrowsFurther(s: Headers, genesis: Hash, heads: seq<Hash>, i: nat, j: nat)
    requires Closed(s, genesis) && HeadsGrow(s, genesis, heads) && i < j < |heads|
    ensures Grows(s, genesis, Some(heads[i]), heads[j])
    decreases j
  {
    hide Closed, Ancestor;
    if i < j - 1 {
      GrowsFurther(s, genesis, heads, i, j - 1);
      AncestorTransitive(s, genesis, heads[j], s[heads[j - 1]].number, s[heads[i]].number);
    }
  }

  /** The merged reset of a run leads upwards while the heads grow. */
  lemma MergedGrows(s: Headers, genesis: Hash, heads: seq<Hash>, run: Scheduling.Run)
    requires Closed(s, genesis) && HeadsGrow(s, genesis, heads) && Scheduling.Spans(run, heads) && run.reset.Some?
    ensures run.reset.value.newHead in s && Grows(s, genesis, Some(run.reset.value.oldHead), run.reset.value.newHead)
  {
    hide Closed, Grows;
    GrowsFurther(s, genesis, heads, run.from, run.to);
  }

  /** What a launched run has been given: its reset and the accounts to promote. */
  datatype Job = Job(reset: Option<Scheduling.Reset>, dirty: set<Address>)

  datatype Step =
    | Launch
    | AskHead(block: Hash)
    | AskPromote(accounts: set<Address>)
    | Operate(op: PoolOp)
    | Execute(view: ChainView, beats: Address -> int)
    | Finish
    | Receive
    | Shutdown

  /** Only runs promote and reset, and the chain that a run sees is complete. */
  ghost predicate StepOk(step: Step, genesis: Hash) {
    match step
    case Operate(op) => !op.Promote? && !op.NewHead?
    case Execute(view, _) => Closed(view.s, genesis) && view.bodies.Keys == view.s.Keys
    case _ => true
  }

  class Node {
    const scheduler: Scheduling.Scheduler
    const pool: TxPool
    var job: Option<Job>
    ghost var log: seq<Effect>
    ghost var askedAt: seq<nat>

    ghost function Seen(): Snapshot
      reads pool, pool.pendingNonces
    {
      Snapshot(pool.pending, pool.queue, pool.pendingNonces.View(), pool.currentState, pool.currentMaxGas, pool.locals)
    }

    /** The job that is waiting is that of the last launched run, which is then active. */
    ghost predicate JobOk()
      reads this, scheduler
    {
      && (job.Some? ==>
            && |log| + 1 == |scheduler.runs| && scheduler.Active(|log|)
            && scheduler.runs[|log|].reset == job.value.reset && scheduler.runs[|log|].dirty == job.value.dirty)
      && (job.None? ==> |log| == |scheduler.runs|)
    }

    /** Every request was made before the run that it was promised was executed. */
    ghost predicate InTime()
      reads `askedAt, scheduler`asked
    {
      |askedAt| == |scheduler.asked| && forall i :: 0 <= i < |askedAt| ==> askedAt[i] <= scheduler.asked[i].done
    }

    ghost predicate Valid()
      reads this, scheduler, pool, pool.all, pool.priced, pool.pendingNonces
    {
      && scheduler.Valid() && pool.Valid() && JobOk() && InTime()
      && Executed(log, scheduler.runs, pool.config) && GapFreeSoFar(log, Seen())
    }

    constructor (config: Config, locals: set<Address>, gasPrice: nat, state: State, maxGas: nat, istanbul: bool, head: Hash)
      requires config.Sane()
      ensures Valid() && !scheduler.stopped && log == [] && scheduler.asked == []
      ensures fresh(scheduler) && fresh(pool) && fresh(pool.all) && fresh(pool.priced) && fresh(pool.pendingNonces)
    {
      scheduler := new Scheduling.Scheduler(head);
      pool := new TxPool(config, locals, gasPrice, state, maxGas, istanbul);
      job, log, askedAt := None, [], [];
      new;
      hide Scheduling.Scheduler.Valid, TxPool.Rest;
    }

    /** Once the channel that a request was answered with is closed, and not by a shutdown, a run that covers
        the request has been executed since, with all that it guarantees. */
    lemma ClosedMeansDone(i: nat)
      requires Valid() && i < |scheduler.asked| && scheduler.asked[i].done in scheduler.closed
      requires !(scheduler.stopped && scheduler.asked[i].done == scheduler.nextDone)
      ensures var done, request := scheduler.asked[i].done, scheduler.asked[i].request;
              && askedAt[i] <= done < |log| && log[done].run == scheduler.runs[done]
              && Scheduling.Covers(log[done].run, request) && log[done].TookPlace(pool.config)
              && (AllExtend(log) ==> log[done].before.GapFree() && log[done].after.GapFree())
    {
      hide Effect.TookPlace, Scheduling.Covers, Scheduling.Chained, Snapshot.GapFree, Effect.Extends;
      scheduler.ClosedMeansCovered(i);
      if AllExtend(log) {
        StaysGapFree(log[scheduler.asked[i].done], pool.config);
      }
    }

    lemma SeenGapFree()
      ensures Seen().GapFree() <==> pool.GapFreeAll()
    {
      hide Exact, ListOf;
    }

    /** The top of the scheduler's loop, which may launch a run. */
    method LaunchNext()
      requires Valid() && !scheduler.stopped
      modifies `job, scheduler
      ensures Valid() && !scheduler.stopped && scheduler.asked == old(scheduler.asked) && scheduler.closed == old(scheduler.closed)
    {
      hide Executed, GapFreeSoFar, TxPool.Rest, TxPool.AllReady, Scheduling.Chained, Scheduling.Promised, Scheduling.Spans,
           Scheduling.Reached;
      var starts := scheduler.curDone.None? && scheduler.launchNextRun;
      var next := Job(scheduler.reset, if scheduler.dirtyAccounts.Some? then scheduler.dirtyAccounts.value else {});
      scheduler.Launch();
      ExecutedMore(log, old(scheduler.runs), scheduler.runs, pool.config);
      if starts {
        job := Some(next);
      }
    }

    /** A request for a reset to a new head. */
    method RequestReset(block: Hash)
      requires Valid() && !scheduler.stopped
      modifies `askedAt, scheduler
      ensures Valid() && !scheduler.stopped && old(scheduler.asked) <= scheduler.asked && scheduler.closed == old(scheduler.closed)
    {
      hide Executed, GapFreeSoFar, TxPool.Rest, TxPool.AllReady, Scheduling.Chained, Scheduling.Promised, Scheduling.Spans,
           Scheduling.Reached, Scheduling.OneActive, Scheduling.ClosedRuns;
      var done := scheduler.OnHead(block);
      askedAt := askedAt + [|log|];
    }

    method RequestPromote(accounts: set<Address>)
      requires Valid() && !scheduler.stopped
      modifies `askedAt, scheduler
      ensures Valid() && !scheduler.stopped && old(scheduler.asked) <= scheduler.asked && scheduler.closed == old(scheduler.closed)
    {
      hide Executed, GapFreeSoFar, TxPool.Rest, TxPool.AllReady, Scheduling.Chained, Scheduling.Promised, Scheduling.Spans,
           Scheduling.Reached, Scheduling.OneActive, Scheduling.ClosedRuns;
      var done := scheduler.OnPromote(accounts);
      askedAt := askedAt + [|log|];
    }

    /** An operation on the pool by someone else, between two runs or before one gets the lock. */
    method OperatePool(op: PoolOp)
      requires Valid() && !op.Promote? && !op.NewHead?
      modifies pool, pool.all, pool.priced, pool.pendingNonces
      ensures Valid()
    {
      hide Executed, TxPool.Rest, TxPool.AllReady, TxPool.GapFreeAll, Scheduling.Scheduler.Valid, AllExtend, Snapshot.GapFree;
      SeenGapFree();
      pool.Step(op);
      SeenGapFree();
    }

    /** The background run gets the lock and does its work. */
    method RunJob(view: ChainView, ghost genesis: Hash, beats: Address -> int)
      requires Valid() && job.Some?
      requires job.value.reset.Some? ==> view.Reads(genesis, Some(job.value.reset.value.oldHead), job.value.reset.value.newHead)
      modifies `job, `log, pool, pool.all, pool.priced, pool.pendingNonces
      ensures Valid() && job.None? && |log| == |old(log)| + 1 && old(log) <= log
      ensures Closed(view.s, genesis) && HeadsGrow(view.s, genesis, scheduler.heads) &&
              (view.state.Some? ==> forall a :: old(pool.currentState).nonce(a) <= view.state.value.nonce(a)) ==>
              log[|old(log)|].Extends()
    {
      hide Executed, GapFreeSoFar, TxPool.Rest, TxPool.AllReady, Scheduling.Scheduler.Valid, Effect.TookPlace, InTime, Closed, Grows,
           HeadsGrow, Scheduling.Spans;
      ghost var before, run := Seen(), scheduler.runs[|log|];
      RunSpans(|log|);
      if run.reset.Some? && Closed(view.s, genesis) && HeadsGrow(view.s, genesis, scheduler.heads) {
        MergedGrows(view.s, genesis, scheduler.heads, run);
      }
      ghost var req := None;
      if job.value.reset.Some? {
        var request := WorkOnReset(job.value.reset.value, view, genesis, beats, run);
        req := Some(request);
      } else {
        WorkOnPromotion(job.value.dirty, beats, run);
      }
      ghost var e := Effect(run, req, before, Seen());
      ExecutedNext(log, scheduler.runs, pool.config, e);
      GapFreeNext(log, e, pool.config);
      job := None;
      log := log + [e];
    }

    lemma RunSpans(i: nat)
      requires scheduler.Valid() && i < |scheduler.runs|
      ensures Scheduling.Spans(scheduler.runs[i], scheduler.heads)
    {
    }

    /** A run without a reset, with the lock held. */
    method WorkOnPromotion(dirty: set<Address>, beats: Address -> int, ghost run: Scheduling.Run)
      requires pool.Valid() && run.reset == None && run.dirty == dirty
      modifies pool, pool.all, pool.priced, pool.pendingNonces
      ensures pool.Valid() && Effect(run, None, old(Seen()), Seen()).TookPlace(pool.config)
    {
      hide TxPool.Rest, Exact, Ready, ListOf, Count;
      SeenGapFree();
      var accounts := Enumerate(dirty);
      pool.RunPromotion(accounts, beats);
      SeenGapFree();
    }

    /** A run with a reset, with the lock held. */
    method WorkOnReset(reset: Scheduling.Reset, view: ChainView, ghost genesis: Hash, beats: Address -> int, ghost run: Scheduling.Run)
      returns (ghost req: ResetRequest)
      requires pool.Valid() && run.reset == Some(reset) && view.Reads(genesis, Some(reset.oldHead), reset.newHead)
      modifies pool, pool.all, pool.priced, pool.pendingNonces
      ensures pool.Valid() && Effect(run, Some(req), old(Seen()), Seen()).TookPlace(pool.config)
      ensures Grows(view.s, genesis, Some(reset.oldHead), reset.newHead) &&
              (view.state.Some? ==> forall a :: old(pool.currentState).nonce(a) <= view.state.value.nonce(a)) ==>
              Effect(run, Some(req), old(Seen()), Seen()).Extends()
    {
      hide TxPool.Rest, Exact, Ready, ListOf, Count, Continues, Closed, Looks, IsFork, IsDifference, Grows;
      SeenGapFree();
      var request, r, fork := MakeRequest(view, genesis, Some(reset.oldHead), reset.newHead, pool.currentState);
      pool.RunReset(request, beats);
      req := request;
      SeenGapFree();
    }

    /** The run closes its channel. */
    method FinishRun()
      requires Valid() && scheduler.curDone.Some? && job.None? && scheduler.Active(scheduler.curDone.value)
      modifies scheduler
      ensures Valid() && scheduler.stopped == old(scheduler.stopped) && scheduler.asked == old(scheduler.asked)
      ensures old(scheduler.closed) <= scheduler.closed
    {
      hide Executed, GapFreeSoFar, TxPool.Rest, TxPool.AllReady, Scheduling.Chained, Scheduling.Promised, Scheduling.Spans;
      scheduler.RunEnds(scheduler.curDone.value);
    }

    /** One step, where it is possible. */
    method Take(step: Step, ghost genesis: Hash)
      requires Valid() && StepOk(step, genesis)
      modifies this, scheduler, pool, pool.all, pool.priced, pool.pendingNonces
      ensures Valid() && old(log) <= log && old(scheduler.asked) <= scheduler.asked && old(scheduler.closed) <= scheduler.closed
    {
      hide Executed, GapFreeSoFar, TxPool.Rest, TxPool.AllReady, Scheduling.Chained, Scheduling.Promised, Scheduling.Spans, Closed,
           Scheduling.Reached, InTime;
      match step
      case Launch =>
        if !scheduler.stopped { LaunchNext(); }
      case AskHead(block) =>
        if !scheduler.stopped { RequestReset(block); }
      case AskPromote(accounts) =>
        if !scheduler.stopped { RequestPromote(accounts); }
      case Operate(op) =>
        OperatePool(op);
      case Execute(view, beats) =>
        if job.Some? && (job.value.reset.Some? ==>
             job.value.reset.value.oldHead in view.s && job.value.reset.value.newHead in view.s &&
             job.value.reset.value.newHead !in view.lost) {
          RunJob(view, genesis, beats);
        }
      case Finish =>
        if scheduler.curDone.Some? && job.None? && scheduler.curDone.value !in scheduler.closed { FinishRun(); }
      case Receive =>
        if !scheduler.stopped && scheduler.curDone.Some? && scheduler.curDone.value in scheduler.closed { scheduler.OnDone(); }
      case Shutdown =>
        if !scheduler.stopped && (scheduler.curDone.Some? ==> scheduler.curDone.value in scheduler.closed) {
          scheduler.OnShutdown();
        }
    }

    /** Any interleaving of requests, runs and operations. */
    method RunSteps(steps: seq<Step>, ghost genesis: Hash)
      requires Valid() && forall i :: 0 <= i < |steps| ==> StepOk(steps[i], genesis)
      modifies this, scheduler, pool, pool.all, pool.priced, pool.pendingNonces
      ensures Valid() && old(log) <= log && old(scheduler.asked) <= scheduler.asked && old(scheduler.closed) <= scheduler.closed
      ensures AllExtend(log) ==> pool.GapFreeAll()
    {
      hide Valid, StepOk;
      for i := 0 to |steps|
        invariant Valid() && old(log) <= log && old(scheduler.asked) <= scheduler.asked && old(scheduler.closed) <= scheduler.closed
      {
        Take(steps[i], genesis);
      }
      GapFreeNow();
    }

    lemma GapFreeNow()
      requires Valid()
      ensures AllExtend(log) ==> pool.GapFreeAll()
    {
      hide Snapshot.GapFree, TxPool.GapFreeAll;
      SeenGapFree();
    }
  }
}
