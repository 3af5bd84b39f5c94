/** The scheduler of the pool's background runs: it merges reset and promotion requests while a run
    is active, and launches the next run when that one is done. */
module ReorgScheduler {
  import opened Options
  import opened Transactions

  type Head = nat

  /** Channels are numbered in the order they are made. */
  type Done = nat

  datatype Reset = Reset(oldHead: Head, newHead: Head)

  /** A launched run: its merged reset, the accounts to promote, and which of the heads the pool has
      seen the reset goes from and to. Its done channel is its position among the runs. */
  datatype Run = Run(reset: Option<Reset>, dirty: set<Address>, from: nat, to: nat)

  datatype Request =
    | ResetTo(index: nat)                    // from the head before it to the head with this index
    | Promote(accounts: set<Address>)

  /** A request and the done channel it was answered with. */
  datatype Asked = Asked(request: Request, done: Done)

  ghost predicate Covers(run: Run, request: Request) {
    match request
    case ResetTo(k) => run.from < k <= run.to
    case Promote(accounts) => accounts <= run.dirty
  }

  /** The reset of a run leads from one seen head to another; there is none when they are the same. */
  ghost predicate Spans(run: Run, heads: seq<Head>) {
    && run.from <= run.to < |heads|
    && run.reset == if run.from == run.to then None else Some(Reset(heads[run.from], heads[run.to]))
  }

  /** Where the run after the given ones starts. */
  ghost function Reached(runs: seq<Run>): nat {
    if |runs| == 0 then 0 else runs[|runs| - 1].to
  }

  /** Each run resets on from the head that the runs before it reached. */
  ghost predicate Chained(runs: seq<Run>, heads: seq<Head>) {
    forall i :: 0 <= i < |runs| ==> Spans(runs[i], heads) && runs[i].from == Reached(runs[..i])
  }

  /** Every answered request is covered by the run it was promised, launched or still prepared. */
  ghost predicate Promised(asked: seq<Asked>, runs: seq<Run>, next: Run, launch: bool) {
    forall i :: 0 <= i < |asked| ==>
      && asked[i].done <= |runs|
      && (asked[i].done < |runs| ==> Covers(runs[asked[i].done], asked[i].request))
      && (asked[i].done == |runs| ==> launch && Covers(next, asked[i].request))
  }

  /** Every run but the current one is done. */
  ghost predicate OneActive(runs: seq<Run>, closed: set<Done>, curDone: Option<Done>) {
    && (curDone.Some? ==> curDone.value + 1 == |runs|)
    && forall c: Done :: c < |runs| && c !in closed ==> curDone == Some(c)
  }

  /** Only launched runs have closed their channels, unless a shutdown closed the next one. */
  ghost predicate ClosedRuns(runs: seq<Run>, closed: set<Done>, stopped: bool) {
    forall c: Done :: c in closed ==> c < |runs| || (stopped && c == |runs|)
  }

  lemma LaunchActive(runs: seq<Run>, closed: set<Done>, next: Run)
    requires OneActive(runs, closed, None) && ClosedRuns(runs, closed, false)
    ensures OneActive(runs + [next], closed, Some(|runs|)) && ClosedRuns(runs + [next], closed, false)
    ensures |runs| !in closed && forall c: Done :: c < |runs| ==> c in closed
  {
  }

  /** After a launch, the next run starts where the launched one ends. */
  lemma LaunchSpans(runs: seq<Run>, next: Run, heads: seq<Head>)
    requires Spans(next, heads)
    ensures Reached(runs + [next]) == next.to && Spans(Run(None, {}, next.to, next.to), heads)
  {
  }

  lemma ChainedGrows(runs: seq<Run>, heads: seq<Head>, head: Head)
    requires Chained(runs, heads)
    ensures Chained(runs, heads + [head])
  {
    forall i | 0 <= i < |runs|
      ensures Spans(runs[i], heads + [head])
    {
      assert Spans(runs[i], heads);
    }
  }

  lemma ChainedStep(runs: seq<Run>, heads: seq<Head>, run: Run)
    requires Chained(runs, heads) && Spans(run, heads) && run.from == Reached(runs)
    ensures Chained(runs + [run], heads)
  {
    var longer := runs + [run];
    forall i | 0 <= i < |longer|
      ensures Spans(longer[i], heads) && longer[i].from == Reached(longer[..i])
    {
      if i < |runs| {
        assert longer[i] == runs[i] && longer[..i] == runs[..i];
      } else {
        assert longer[..i] == runs;
      }
    }
  }

  lemma PromisedLaunch(asked: seq<Asked>, runs: seq<Run>, next: Run, after: Run)
    requires Promised(asked, runs, next, true)
    ensures Promised(asked, runs + [next], after, false)
  {
    forall i | 0 <= i < |asked|
      ensures asked[i].done <= |runs| && Covers((runs + [next])[asked[i].done], asked[i].request)
    {
    }
  }

  lemma PromisedMore(asked: seq<Asked>, runs: seq<Run>, next: Run, launch: bool, next': Run, request: Request)
    requires Promised(asked, runs, next, launch) && Covers(next', request)
    requires next.dirty <= next'.dirty && next'.from <= next.from && next.to <= next'.to
    ensures Promised(asked + [Asked(request, |runs|)], runs, next', true)
  {
  }

  /** Two runs with resets and none between them: the later one starts on the head where the earlier
      one ended, so the executed resets form one walk over the heads. */
  lemma {:induction false} ResetsChain(runs: seq<Run>, heads: seq<Head>, i: nat, j: nat)
    requires Chained(runs, heads) && i < j < |runs|
    requires runs[i].reset.Some? && runs[j].reset.Some?
    requires forall k :: i < k < j ==> runs[k].reset.None?
    ensures runs[j].reset.value.oldHead == runs[i].reset.value.newHead
  {
    ReachedBetween(runs, heads, i, j);
    assert Spans(runs[i], heads) && Spans(runs[j], heads);
    assert runs[j].from == Reached(runs[..j]);
  }

  lemma {:induction false} ReachedBetween(runs: seq<Run>, heads: seq<Head>, i: nat, j: nat)
    requires Chained(runs, heads) && i < j < |runs|
    requires forall k :: i < k < j ==> runs[k].reset.None?
    ensures Reached(runs[..j]) == runs[i].to
    decreases j
  {
    assert runs[..j][j - 1] == runs[j - 1];
    if i < j - 1 {
      ReachedBetween(runs, heads, i, j - 1);
      assert Spans(runs[j - 1], heads) && runs[j - 1].from == Reached(runs[..j - 1]);
    }
  }

  /** The first executed reset starts on the head the pool was created with. */
  lemma {:induction false} FirstReset(runs: seq<Run>, heads: seq<Head>, j: nat)
    requires Chained(runs, heads) && j < |runs| && runs[j].reset.Some?
    requires forall k :: 0 <= k < j ==> runs[k].reset.None?
    ensures runs[j].reset.value.oldHead == heads[0]
  {
    assert Spans(runs[j], heads) && runs[j].from == Reached(runs[..j]);
    if j > 0 {
      assert Spans(runs[0], heads) && runs[0].from == Reached(runs[..0]);
      ReachedBetween(runs, heads, 0, j);
    }
  }

  class Scheduler {
    var curDone: Option<Done>
    var nextDone: Done
    var launchNextRun: bool
    var reset: Option<Reset>
    var dirtyAccounts: Option<set<Address>>
    var head: Head
    var stopped: bool
    var closed: set<Done>
    ghost var heads: seq<Head>
    ghost var runs: seq<Run>
    ghost var asked: seq<Asked>

    /** The run being prepared. */
    ghost function Next(): Run
      requires |heads| >= 1
      reads this
    {
      Run(reset, if dirtyAccounts.Some? then dirtyAccounts.value else {}, Reached(runs), |heads| - 1)
    }

    ghost predicate Valid()
      reads this
    {
      && nextDone == |runs| && |heads| >= 1 && head == heads[|heads| - 1]
      && Chained(runs, heads) && Spans(Next(), heads)
      && Promised(asked, runs, Next(), launchNextRun)
      && (!launchNextRun ==> reset.None? && dirtyAccounts.None?)
      && OneActive(runs, closed, curDone)
      && ClosedRuns(runs, closed, stopped)
    }

    /** Runs launched and not yet done. */
    ghost predicate Active(c: Done)
      reads this
    {
      c < |runs| && c !in closed
    }

    constructor (head: Head)
      ensures Valid() && !stopped && heads == [head] && runs == [] && asked == [] && closed == {}
    {
      curDone, nextDone, launchNextRun := None, 0, false;
      reset, dirtyAccounts, stopped := None, None, false;
      this.head, heads, runs, asked, closed := head, [head], [], [], {};
    }

    /** The top of the loop. */
    method Launch()
      requires Valid() && !stopped
      modifies this
      ensures Valid() && !stopped
      ensures heads == old(heads) && asked == old(asked) && closed == old(closed)
      ensures if old(curDone.None? && launchNextRun)
              then (forall c: Done :: c < |old(runs)| ==> c in closed) && runs == old(runs + [Next()]) && Active(|runs| - 1)
              else runs == old(runs)
    {
      hide Chained, Promised, OneActive, ClosedRuns, Spans, Reached;
      if curDone.None? && launchNextRun {
        LaunchActive(runs, closed, Next());
        LaunchSpans(runs, Next(), heads);
        ghost var next := Next();
        ChainedStep(runs, heads, next);
        PromisedLaunch(asked, runs, next, Run(None, {}, next.to, next.to));
        runs := runs + [next];
        curDone, nextDone := Some(nextDone), nextDone + 1;
        launchNextRun := false;
        reset, dirtyAccounts := None, None;
      }
    }

    /** A new block arrives: the pool asks to be reset from its last head to the new one. */
    method OnHead(block: Head) returns (done: Done)
      requires Valid() && !stopped
      modifies this
      ensures Valid() && !stopped && done == nextDone
      ensures heads == old(heads) + [block] && asked == old(asked) + [Asked(ResetTo(|old(heads)|), done)]
      ensures runs == old(runs) && closed == old(closed) && curDone == old(curDone)
    {
      hide Chained, Promised, OneActive, ClosedRuns;
      ghost var next := Next();
      ChainedGrows(runs, heads, block);
      if reset.None? {
        reset := Some(Reset(head, block));
      } else {
        reset := Some(reset.value.(newHead := block));
      }
      launchNextRun := true;
      done := nextDone;
      heads := heads + [block];
      head := block;
      PromisedMore(asked, runs, next, old(launchNextRun), Next(), ResetTo(|old(heads)|));
      asked := asked + [Asked(ResetTo(|old(heads)|), done)];
    }

    method OnPromote(accounts: set<Address>) returns (done: Done)
      requires Valid() && !stopped
      modifies this
      ensures Valid() && !stopped && done == nextDone
      ensures heads == old(heads) && asked == old(asked) + [Asked(Promote(accounts), done)]
      ensures runs == old(runs) && closed == old(closed) && curDone == old(curDone)
    {
      hide Chained, Promised, OneActive, ClosedRuns;
      ghost var next := Next();
      if dirtyAccounts.None? {
        dirtyAccounts := Some(accounts);
      } else {
        dirtyAccounts := Some(dirtyAccounts.value + accounts);
      }
      launchNextRun := true;
      done := nextDone;
      PromisedMore(asked, runs, next, old(launchNextRun), Next(), Promote(accounts));
      asked := asked + [Asked(Promote(accounts), done)];
    }

    /** The active run ends and closes its channel; the loop has not noticed yet. */
    method RunEnds(c: Done)
      requires Valid() && Active(c)
      modifies `closed
      ensures Valid() && closed == old(closed) + {c}
    {
      closed := closed + {c};
    }

    /** The loop receives from the closed channel. */
    method OnDone()
      requires Valid() && !stopped && curDone.Some? && curDone.value in closed
      modifies `curDone
      ensures Valid() && curDone.None? && forall c :: !Active(c)
    {
      curDone := None;
    }

    /** Waits for the current run and closes the channel of a run that will never be launched. */
    method OnShutdown()
      requires Valid() && !stopped && (curDone.Some? ==> curDone.value in closed)
      modifies `stopped, `closed
      ensures Valid() && stopped && closed == old(closed) + {nextDone}
    {
      stopped := true;
      closed := closed + {nextDone};
    }

    /** At most one run is active. */
    lemma AtMostOne(c: Done, d: Done)
      requires Valid() && Active(c) && Active(d)
      ensures c == d && curDone == Some(c)
    {
    }

    /** A closed channel was closed by a run that covers every request answered with it, exactly unless
        it is the one that a shutdown closes. */
    lemma ClosedMeansCovered(i: nat)
      requires Valid() && i < |asked| && asked[i].done in closed
      ensures asked[i].done < |runs| && Covers(runs[asked[i].done], asked[i].request) <==> !(stopped && asked[i].done == nextDone)
    {
    }

    /** Any run of the scheduler, as long as nothing shuts it down. An end of a run and its receipt
        happen when there is an active run and a closed channel to receive from. */
    method Schedule(events: seq<Event>)
      requires Valid() && !stopped
      modifies this
      ensures Valid() && !stopped
      ensures old(heads) <= heads && old(runs) <= runs && old(asked) <= asked && old(closed) <= closed
    {
      hide Valid;
      for i := 0 to |events|
        invariant Valid() && !stopped
        invariant old(heads) <= heads && old(runs) <= runs && old(asked) <= asked && old(closed) <= closed
      {
        Launch();
        Handle(events[i]);
      }
    }

    /** One pass of the loop's select, or the end of the background run. */
    method Handle(event: Event)
      requires Valid() && !stopped
      modifies this
      ensures Valid() && !stopped
      ensures old(heads) <= heads && runs == old(runs) && old(asked) <= asked && old(closed) <= closed
    {
      hide Chained, Promised, Spans;
      match event
      case NewHead(block) =>
        var _ := OnHead(block);
      case PromoteAccounts(accounts) =>
        var _ := OnPromote(accounts);
      case RunFinished =>
        if curDone.Some? && curDone.value !in closed {
          RunEnds(curDone.value);
        }
      case DoneReceived =>
        if curDone.Some? && curDone.value in closed {
          OnDone();
        }
    }
  }

  datatype Event =
    | NewHead(block: Head)
    | PromoteAccounts(accounts: set<Address>)
    | RunFinished
    | DoneReceived

  /** A shutdown right after a request closes the requester's channel, and no run ever looks at the
      requested account. */
  method ShutdownExample() returns (scheduler: Scheduler, done: Done)
    ensures scheduler.Valid() && scheduler.asked == [Asked(Promote({1}), done)]
    ensures done in scheduler.closed && scheduler.runs == []
  {
    scheduler := new Scheduler(0);
    done := scheduler.OnPromote({1});
    scheduler.OnShutdown();
  }
}
