/**
 The loop that runs the pool's background work. Requests that arrive while a run is active are coalesced into
 the next one; each requester is handed the channel that the run serving it will close.

 A channel is the number of the run it belongs to. The loop's variables stand beside a history of what was
 asked and what was launched; runs end at any time between the loop's own steps.
 */
module ReorgSchedulers {
  import opened Basics
  import BlockTree
  import opened TxSortedMaps
  import opened PoolViews

  datatype Reset = Reset(oldHead: BlockTree.Hash, newHead: BlockTree.Hash)

  datatype Request =
    | ResetTo(reset: Reset)
    | PromoteFor(accounts: set<Address>)
    | Announce(tx: Tx)

  /** What one run is given. */
  datatype Work = Work(reset: Option<Reset>, dirty: Option<set<Address>>, events: Accounts)

  const NOTHING := Work(None, None, map[])

  /** A request and the channel its requester was handed. */
  datatype Entry = Entry(request: Request, ticket: nat)

  datatype State = State(
    curDone: Option<nat>,
    nextDone: nat,
    launchNextRun: bool,
    next: Work,
    stopped: bool,
    log: seq<Entry>,
    runs: seq<Work>,
    closed: set<nat>)

  function Absorb(w: Work, r: Request): Work {
    match r
    case ResetTo(reset) =>
      w.(reset := Some(if w.reset.None? then reset else w.reset.value.(newHead := reset.newHead)))
    case PromoteFor(accounts) =>
      w.(dirty := Some(if w.dirty.None? then accounts else w.dirty.value + accounts))
    case Announce(tx) =>
      w.(events := w.events[tx.sender := ListOf(w.events, tx.sender)[tx.nonce := tx]])
  }

  ghost function Collect(rs: seq<Request>): Work {
    if rs == [] then NOTHING else Absorb(Collect(rs[..|rs| - 1]), rs[|rs| - 1])
  }

  ghost function Requests(log: seq<Entry>): seq<Request> {
    if log == [] then [] else Requests(log[..|log| - 1]) + [log[|log| - 1].request]
  }

  /** The requests that were handed channel `c`. */
  ghost function Batch(log: seq<Entry>, c: nat): seq<Request> {
    if log == [] then []
    else
      var last := log[|log| - 1];
      Batch(log[..|log| - 1], c) + if last.ticket == c then [last.request] else []
  }

  ghost predicate Calls(r: Request) {
    !r.Announce?
  }

  ghost predicate CallsForRun(rs: seq<Request>) {
    exists r :: r in rs && Calls(r)
  }

  /** Channels were handed out in order. */
  ghost predicate InOrder(log: seq<Entry>) {
    forall i, j | 0 <= i < j < |log| :: log[i].ticket <= log[j].ticket
  }

  ghost predicate Active(s: State, i: nat) {
    i < |s.runs| && i !in s.closed
  }

  ghost predicate RunOk(s: State, i: nat)
    requires i < |s.runs|
  {
    && s.runs[i] == Collect(Batch(s.log, i)) && CallsForRun(Batch(s.log, i))
    && (s.curDone == Some(i) || i in s.closed)
  }

  /**
   A run was given exactly what its batch asked for, the work collected so far is exactly the next batch, all
   but the current run have ended, and only ended runs and a shutdown have closed channels.
   */
  ghost predicate Sound(s: State) {
    && s.nextDone == |s.runs| && (s.curDone.Some? ==> s.curDone.value + 1 == |s.runs|)
    && InOrder(s.log) && (forall e | e in s.log :: e.ticket <= s.nextDone)
    && (forall i: nat {:trigger RunOk(s, i)} | i < |s.runs| :: RunOk(s, i))
    && s.next == Collect(Batch(s.log, s.nextDone))
    && (s.launchNextRun <==> CallsForRun(Batch(s.log, s.nextDone)))
    && (forall c | c in s.closed :: c < |s.runs| || (s.stopped && c == s.nextDone))
  }

  /** Whenever the loop waits, a cause for a run is waiting only because another run is active. */
  ghost predicate Inv(s: State) {
    Sound(s) && (s.launchNextRun ==> s.curDone.Some?)
  }

  ghost const START := State(None, 0, false, NOTHING, false, [], [], {})

  // Steps, on values.

  /** The top of the loop: launch the next run if there is cause and none is active. */
  ghost function Launched(s: State): State {
    if s.curDone.None? && s.launchNextRun then
      s.(curDone := Some(s.nextDone), nextDone := s.nextDone + 1, launchNextRun := false, next := NOTHING,
         runs := s.runs + [s.next])
    else s
  }

  ghost function Noted(s: State, r: Request): State {
    s.(next := Absorb(s.next, r), launchNextRun := s.launchNextRun || !r.Announce?,
       log := s.log + [Entry(r, s.nextDone)])
  }

  datatype Step = StepRequest(request: Request) | StepRunEnds(run: nat) | StepSeeDone | StepShutdown

  ghost predicate Enabled(s: State, step: Step) {
    match step
    case StepRequest(_) => !s.stopped
    case StepRunEnds(run) => Active(s, run)
    case StepSeeDone => !s.stopped && s.curDone.Some? && s.curDone.value in s.closed
    case StepShutdown => !s.stopped && (s.curDone.Some? ==> s.curDone.value in s.closed)
  }

  ghost function After(s: State, step: Step): State {
    match step
    case StepRequest(r) => Launched(Noted(s, r))
    case StepRunEnds(run) => s.(closed := s.closed + {run})
    case StepSeeDone => Launched(s.(curDone := None))
    case StepShutdown => s.(closed := s.closed + {s.nextDone}, stopped := true)
  }

  ghost function AfterAll(s: State, steps: seq<Step>): State
    decreases |steps|
  {
    if steps == [] then s else AfterAll(After(s, steps[0]), steps[1..])
  }

  ghost predicate AllEnabled(s: State, steps: seq<Step>)
    decreases |steps|
  {
    steps != [] ==> Enabled(s, steps[0]) && AllEnabled(After(s, steps[0]), steps[1..])
  }

  // What every step keeps.

  lemma BatchGrows(log: seq<Entry>, e: Entry, c: nat)
    ensures Batch(log + [e], c) == if e.ticket == c then Batch(log, c) + [e.request] else Batch(log, c)
  {
    assert (log + [e])[..|log|] == log;
  }

  /** No request, no batch. */
  lemma {:induction false} BatchEmpty(log: seq<Entry>, c: nat)
    requires forall e | e in log :: e.ticket < c
    ensures Batch(log, c) == []
  {
    if log != [] {
      assert log[|log| - 1] in log;
      BatchEmpty(log[..|log| - 1], c);
    }
  }

  /** The next batch gains the request. */
  lemma NotedNext(s: State, r: Request)
    requires Sound(s)
    ensures var s' := Noted(s, r);
            && s'.next == Collect(Batch(s'.log, s.nextDone))
            && (s'.launchNextRun <==> CallsForRun(Batch(s'.log, s.nextDone)))
  {
    var was, now := Batch(s.log, s.nextDone), Batch(Noted(s, r).log, s.nextDone);
    BatchGrows(s.log, Entry(r, s.nextDone), s.nextDone);
    assert now == was + [r];
    CollectGrows(was, r);
    if CallsForRun(was) {
      var x :| x in was && Calls(x);
      assert x in now && Calls(x);
    }
    if !r.Announce? {
      assert r in now && Calls(r);
    }
  }

  lemma CollectGrows(rs: seq<Request>, r: Request)
    ensures Collect(rs + [r]) == Absorb(Collect(rs), r)
  {
    assert (rs + [r])[..|rs|] == rs;
  }

  lemma NotedSound(s: State, r: Request)
    requires Sound(s) && !s.stopped
    ensures Sound(Noted(s, r))
  {
    var s' := Noted(s, r);
    NotedNext(s, r);
    forall i: nat | i < |s.runs| ensures RunOk(s', i) {
      assert RunOk(s, i);
      BatchGrows(s.log, Entry(r, s.nextDone), i);
    }
  }

  lemma LaunchedInv(s: State)
    requires Sound(s)
    ensures Inv(Launched(s))
  {
    if s.curDone.None? && s.launchNextRun {
      var s' := Launched(s);
      assert Batch(s.log, s'.nextDone) == [] by {
        BatchEmpty(s.log, s'.nextDone);
      }
      assert RunOk(s', s.nextDone);
      forall i: nat | i < |s.runs| ensures RunOk(s', i) {
        assert RunOk(s, i);
        assert s'.runs[i] == s.runs[i];
      }
    }
  }

  lemma SeenSound(s: State)
    requires Sound(s) && s.curDone.Some? && s.curDone.value in s.closed
    ensures Sound(s.(curDone := None))
  {
    forall i: nat | i < |s.runs| ensures RunOk(s.(curDone := None), i) {
      assert RunOk(s, i);
    }
  }

  lemma StepKeepsInv(s: State, step: Step)
    requires Inv(s) && Enabled(s, step)
    ensures Inv(After(s, step))
  {
    var s' := After(s, step);
    match step {
      case StepRequest(r) =>
        NotedSound(s, r);
        LaunchedInv(Noted(s, r));
      case StepSeeDone =>
        SeenSound(s);
        LaunchedInv(s.(curDone := None));
      case _ =>
        forall i: nat | i < |s.runs| ensures RunOk(s', i) {
          assert RunOk(s, i);
        }
    }
  }

  /** Every interleaving of requests, ending runs and a shutdown. */
  lemma {:induction false} EveryRun(s: State, steps: seq<Step>)
    requires Inv(s) && AllEnabled(s, steps)
    ensures Inv(AfterAll(s, steps))
    decreases |steps|
  {
    if steps != [] {
      StepKeepsInv(s, steps[0]);
      EveryRun(After(s, steps[0]), steps[1..]);
    }
  }

  lemma StartInv()
    ensures Inv(START)
  {
  }

  // What the invariant means.

  /** Before a shutdown at most one run is active. */
  lemma OneActive(s: State, i: nat, j: nat)
    requires Inv(s) && Active(s, i) && Active(s, j)
    ensures i == j && s.curDone == Some(i)
  {
    assert RunOk(s, i) && RunOk(s, j);
  }

  lemma {:induction false} InItsBatch(log: seq<Entry>, k: nat)
    requires k < |log|
    ensures log[k].request in Batch(log, log[k].ticket)
  {
    if k < |log| - 1 {
      InItsBatch(log[..|log| - 1], k);
    }
  }

  /** A requester's channel is closed only after a run whose batch contains the request, or by the shutdown. */
  lemma ClosedMeansServed(s: State, k: nat)
    requires Inv(s) && k < |s.log| && s.log[k].ticket in s.closed
    ensures var c := s.log[k].ticket;
            if c < |s.runs|
            then s.log[k].request in Batch(s.log, c) && s.runs[c] == Collect(Batch(s.log, c)) && !Active(s, c)
            else s.stopped && c == s.nextDone
  {
    var c := s.log[k].ticket;
    InItsBatch(s.log, k);
    if c < |s.runs| {
      assert RunOk(s, c);
    }
  }

  /** The end of a run releases whoever was waiting for it, and a shutdown everybody. */
  lemma EveryoneReleased(s: State, k: nat)
    requires Inv(s) && k < |s.log|
    ensures s.log[k].ticket < |s.runs| && Enabled(s, StepRunEnds(s.log[k].ticket)) ==>
              s.log[k].ticket in After(s, StepRunEnds(s.log[k].ticket)).closed
    ensures Enabled(s, StepShutdown) ==> s.log[k].ticket in After(s, StepShutdown).closed
  {
    assert s.log[k] in s.log;
    if s.log[k].ticket < |s.runs| {
      assert RunOk(s, s.log[k].ticket);
    }
  }

  /** The state once the current run has ended. */
  ghost function CurrentEnded(s: State): State
    requires s.curDone.Some?
  {
    if s.curDone.value in s.closed then s else After(s, StepRunEnds(s.curDone.value))
  }

  lemma LaunchesOnDone(s: State)
    requires s.curDone.Some? && s.launchNextRun && !s.stopped
    ensures Enabled(CurrentEnded(s), StepSeeDone)
    ensures After(CurrentEnded(s), StepSeeDone).runs == s.runs + [s.next]
  {
  }

  /** Once the active run has ended and the loop has seen it, a waiting request is in a launched run. */
  lemma NextRunServes(s: State, k: nat)
    requires Inv(s) && !s.stopped && k < |s.log| && Calls(s.log[k].request) && s.log[k].ticket == s.nextDone
    ensures s.curDone.Some?
    ensures Enabled(CurrentEnded(s), StepSeeDone)
    ensures s.log[k].ticket < |After(CurrentEnded(s), StepSeeDone).runs|
  {
    InItsBatch(s.log, k);
    LaunchesOnDone(s);
  }

  /** While no run is active, asking for a reset or a promotion starts one that does it; an announcement does not. */
  lemma IdleRequestStarts(s: State, r: Request)
    requires Inv(s) && !s.stopped && s.curDone.None?
    ensures var s' := After(s, StepRequest(r));
            match r
            case ResetTo(reset) =>
              && |s'.runs| == |s.runs| + 1 && s'.runs[|s.runs|].reset.Some?
              && s'.runs[|s.runs|].reset.value.newHead == reset.newHead
            case PromoteFor(accounts) =>
              && |s'.runs| == |s.runs| + 1 && s'.runs[|s.runs|].dirty.Some?
              && accounts <= s'.runs[|s.runs|].dirty.value
            case Announce(tx) =>
              && s'.runs == s.runs
              && tx.nonce in ListOf(s'.next.events, tx.sender) && ListOf(s'.next.events, tx.sender)[tx.nonce] == tx
  {
  }

  /** The batches before `n`, one after the other. */
  ghost function Served(log: seq<Entry>, n: nat): seq<Request> {
    if n == 0 then [] else Served(log, n - 1) + Batch(log, n - 1)
  }

  lemma {:induction false} ServedEarlier(log: seq<Entry>, e: Entry, n: nat)
    requires n <= e.ticket
    ensures Served(log + [e], n) == Served(log, n)
  {
    if n > 0 {
      ServedEarlier(log, e, n - 1);
      BatchGrows(log, e, n - 1);
    }
  }

  lemma {:induction false} ServedNoMore(log: seq<Entry>, t: nat, n: nat)
    requires t < n && forall e | e in log :: e.ticket <= t
    ensures Served(log, n) == Served(log, t + 1)
  {
    if t + 1 < n {
      ServedNoMore(log, t, n - 1);
      BatchEmpty(log, n - 1);
    }
  }

  /** Runs serve the requests in the order they came, each exactly once. */
  lemma {:induction false} ServedInOrder(log: seq<Entry>, n: nat)
    requires InOrder(log) && forall e | e in log :: e.ticket < n
    ensures Served(log, n) == Requests(log)
    decreases |log|
  {
    if log == [] {
      ServedNothing(n);
    } else {
      var front, e := log[..|log| - 1], log[|log| - 1];
      LastIsLatest(log);
      ServedInOrder(front, e.ticket + 1);
      ServedLast(front, e, n);
    }
  }

  lemma LastIsLatest(log: seq<Entry>)
    requires log != [] && InOrder(log)
    ensures var front, e := log[..|log| - 1], log[|log| - 1];
            log == front + [e] && e in log && InOrder(front) && forall x | x in front :: x.ticket <= e.ticket
  {
  }

  lemma ServedLast(front: seq<Entry>, e: Entry, n: nat)
    requires (forall x | x in front :: x.ticket <= e.ticket) && e.ticket < n
    ensures Served(front + [e], n) == Served(front, e.ticket + 1) + [e.request]
  {
    var log, t := front + [e], e.ticket;
    ServedNoMore(log, t, n);
    ServedEarlier(front, e, t);
    BatchGrows(front, e, t);
    ConcatAssociates(Served(front, t), Batch(front, t), [e.request]);
  }

  lemma ConcatAssociates<T>(a: seq<T>, b: seq<T>, c: seq<T>)
    ensures a + (b + c) == a + b + c
  {
  }

  lemma {:induction false} ServedNothing(n: nat)
    ensures Served([], n) == []
  {
    if n > 0 {
      ServedNothing(n - 1);
    }
  }

  // What a run is given, request by request.

  ghost function Resets(rs: seq<Request>): seq<Reset> {
    if rs == [] then []
    else Resets(rs[..|rs| - 1]) + if rs[|rs| - 1].ResetTo? then [rs[|rs| - 1].reset] else []
  }

  /** The reset goes from the first old head to the last new head. */
  lemma {:induction false} CollectReset(rs: seq<Request>)
    ensures var resets := Resets(rs);
            Collect(rs).reset == if resets == [] then None
                                 else Some(Reset(resets[0].oldHead, resets[|resets| - 1].newHead))
  {
    if rs != [] {
      CollectReset(rs[..|rs| - 1]);
    }
  }

  /** The accounts are all that were asked for. */
  lemma {:induction false} CollectDirty(rs: seq<Request>, a: Address)
    ensures Collect(rs).dirty.Some? <==> exists r :: r in rs && r.PromoteFor?
    ensures Collect(rs).dirty.Some? ==>
              (a in Collect(rs).dirty.value <==> exists r :: r in rs && r.PromoteFor? && a in r.accounts)
  {
    if rs != [] {
      var front, last := rs[..|rs| - 1], rs[|rs| - 1];
      assert forall r :: r in rs <==> r in front || r == last;
      CollectDirty(front, a);
    }
  }

  /** The announcements are, for each account and nonce, the latest one. */
  lemma {:induction false} CollectEvents(rs: seq<Request>, a: Address, n: nat)
    ensures n in ListOf(Collect(rs).events, a) <==> exists i :: LatestFor(rs, a, n, i)
    ensures forall i | LatestFor(rs, a, n, i) ::
              n in ListOf(Collect(rs).events, a) && ListOf(Collect(rs).events, a)[n] == rs[i].tx
  {
    if rs != [] {
      var front, last := rs[..|rs| - 1], rs[|rs| - 1];
      CollectEvents(front, a, n);
      if Names(last, a, n) {
        assert LatestFor(rs, a, n, |rs| - 1);
      } else {
        forall i ensures LatestFor(rs, a, n, i) <==> LatestFor(front, a, n, i) {
        }
      }
    }
  }

  ghost predicate Names(r: Request, a: Address, n: nat) {
    r.Announce? && r.tx.sender == a && r.tx.nonce == n
  }

  ghost predicate LatestFor(rs: seq<Request>, a: Address, n: nat, i: int) {
    0 <= i < |rs| && Names(rs[i], a, n) && forall j | i < j < |rs| :: !Names(rs[j], a, n)
  }

  // Coalesced resets.

  /** Each reset starts where the one before ended. */
  ghost predicate Chained(resets: seq<Reset>) {
    forall i {:trigger Follows(resets, i)} | 0 < i < |resets| :: Follows(resets, i)
  }

  ghost predicate Follows(resets: seq<Reset>, i: int)
    requires 0 < i < |resets|
  {
    resets[i].oldHead == resets[i - 1].newHead
  }

  /** The resets of the first `n` batches, coalesced. */
  ghost function Coalesced(log: seq<Entry>, n: nat): seq<Reset> {
    if n == 0 then []
    else
      var reset := Collect(Batch(log, n - 1)).reset;
      Coalesced(log, n - 1) + if reset.Some? then [reset.value] else []
  }

  ghost predicate SameEnds(a: seq<Reset>, b: seq<Reset>) {
    && (a == [] <==> b == [])
    && (a != [] && b != [] ==> a[0].oldHead == b[0].oldHead && a[|a| - 1].newHead == b[|b| - 1].newHead)
  }

  lemma {:induction false} ResetsConcat(a: seq<Request>, b: seq<Request>)
    ensures Resets(a + b) == Resets(a) + Resets(b)
  {
    if b == [] {
      assert a + b == a;
    } else {
      assert (a + b)[..|a + b| - 1] == a + b[..|b| - 1];
      ResetsConcat(a, b[..|b| - 1]);
    }
  }

  /** The resets asked for in the first `n` batches. */
  ghost function Asked(log: seq<Entry>, n: nat): seq<Reset> {
    if n == 0 then [] else Asked(log, n - 1) + Resets(Batch(log, n - 1))
  }

  lemma {:induction false} AskedInOrder(log: seq<Entry>, n: nat)
    ensures Asked(log, n) == Resets(Served(log, n))
  {
    if n > 0 {
      AskedInOrder(log, n - 1);
      ResetsConcat(Served(log, n - 1), Batch(log, n - 1));
    }
  }

  /** Resets joined into one, from the first old head to the last new head, and added to earlier ones. */
  ghost function Join(spans: seq<Reset>, back: seq<Reset>): seq<Reset> {
    if back == [] then spans else spans + [Reset(back[0].oldHead, back[|back| - 1].newHead)]
  }

  lemma CoalescedStep(log: seq<Entry>, n: nat)
    requires n > 0
    ensures Coalesced(log, n) == Join(Coalesced(log, n - 1), Resets(Batch(log, n - 1)))
  {
    CollectReset(Batch(log, n - 1));
  }

  /** An unbroken chain of requests is coalesced into an unbroken chain of resets with the same ends. */
  lemma {:induction false} CoalescedChain(log: seq<Entry>, n: nat)
    requires Chained(Asked(log, n))
    ensures Chained(Coalesced(log, n)) && SameEnds(Coalesced(log, n), Asked(log, n))
  {
    if n > 0 {
      AskedSplits(log, n);
      CoalescedChain(log, n - 1);
      CoalescedStep(log, n);
      ChainJoins(Coalesced(log, n - 1), Asked(log, n - 1), Resets(Batch(log, n - 1)));
    }
  }

  lemma AskedSplits(log: seq<Entry>, n: nat)
    requires n > 0 && Chained(Asked(log, n))
    ensures Chained(Asked(log, n - 1)) && Continues(Asked(log, n - 1), Resets(Batch(log, n - 1)))
  {
    ChainSplits(Asked(log, n - 1), Resets(Batch(log, n - 1)));
  }

  /** Two lists of resets that fit together. */
  ghost predicate Continues(front: seq<Reset>, back: seq<Reset>) {
    front != [] && back != [] ==> back[0].oldHead == front[|front| - 1].newHead
  }

  lemma ChainSplits(front: seq<Reset>, back: seq<Reset>)
    requires Chained(front + back)
    ensures Chained(front) && Continues(front, back)
  {
    var all := front + back;
    forall i | 0 < i < |front| ensures Follows(front, i) {
      assert Follows(all, i);
    }
    if front != [] && back != [] {
      assert Follows(all, |front|);
    }
  }

  lemma ChainJoins(spans: seq<Reset>, front: seq<Reset>, back: seq<Reset>)
    requires Chained(spans) && SameEnds(spans, front) && Continues(front, back)
    ensures Chained(Join(spans, back)) && SameEnds(Join(spans, back), front + back)
  {
    if back == [] {
      assert front + back == front;
    } else {
      forall i | 0 < i < |Join(spans, back)| ensures Follows(Join(spans, back), i) {
        assert i < |spans| ==> Follows(spans, i);
      }
    }
  }

  /** Whatever was coalesced, the pool is taken from the first old head to the last new head without a gap. */
  lemma ResetsUnbroken(s: State)
    requires Inv(s) && Chained(Resets(Requests(s.log)))
    ensures Chained(Coalesced(s.log, s.nextDone + 1))
    ensures SameEnds(Coalesced(s.log, s.nextDone + 1), Resets(Requests(s.log)))
  {
    ServedInOrder(s.log, s.nextDone + 1);
    AskedInOrder(s.log, s.nextDone + 1);
    CoalescedChain(s.log, s.nextDone + 1);
  }

  // The pool's event loop, which asks for the resets.

  /** The scheduler and the head that the event loop remembers. */
  datatype Node = Node(sched: State, head: BlockTree.Hash)

  /** A new chain head, or a step of the scheduler that is not a reset request. */
  datatype Event = HeadChanged(block: BlockTree.Hash) | Other(step: Step)

  ghost predicate Possible(n: Node, e: Event) {
    e.Other? ==> Enabled(n.sched, e.step) && !(e.step.StepRequest? && e.step.request.ResetTo?)
  }

  /** After a shutdown the request goes nowhere. */
  ghost function AfterEvent(n: Node, e: Event): Node {
    match e
    case HeadChanged(block) =>
      Node(if n.sched.stopped then n.sched else After(n.sched, StepRequest(ResetTo(Reset(n.head, block)))), block)
    case Other(step) => n.(sched := After(n.sched, step))
  }

  ghost function AfterEvents(n: Node, events: seq<Event>): Node
    decreases |events|
  {
    if events == [] then n else AfterEvents(AfterEvent(n, events[0]), events[1..])
  }

  ghost predicate AllPossible(n: Node, events: seq<Event>)
    decreases |events|
  {
    events != [] ==> Possible(n, events[0]) && AllPossible(AfterEvent(n, events[0]), events[1..])
  }

  /** The resets lead from the first head to the one remembered. */
  ghost predicate LeadsTo(resets: seq<Reset>, first: BlockTree.Hash, head: BlockTree.Hash) {
    if resets == [] then head == first else resets[0].oldHead == first && resets[|resets| - 1].newHead == head
  }

  ghost predicate NodeInv(n: Node, first: BlockTree.Hash) {
    var resets := Resets(Requests(n.sched.log));
    && Inv(n.sched) && Chained(resets)
    && (resets != [] ==> resets[0].oldHead == first)
    && (!n.sched.stopped ==> LeadsTo(resets, first, n.head))
  }

  lemma LogGrows(s: State, step: Step)
    ensures Requests(After(s, step).log) ==
            if step.StepRequest? then Requests(s.log) + [step.request] else Requests(s.log)
  {
    if step.StepRequest? {
      assert After(s, step).log[..|s.log|] == s.log;
    }
  }

  lemma EventKeepsInv(n: Node, e: Event, first: BlockTree.Hash)
    requires NodeInv(n, first) && Possible(n, e)
    ensures NodeInv(AfterEvent(n, e), first)
  {
    if e.Other? {
      StepKeepsInv(n.sched, e.step);
      LogGrows(n.sched, e.step);
      if e.step.StepRequest? {
        ResetsGrow(Requests(n.sched.log), e.step.request);
      }
    } else if !n.sched.stopped {
      var r := Reset(n.head, e.block);
      var step := StepRequest(ResetTo(r));
      StepKeepsInv(n.sched, step);
      LogGrows(n.sched, step);
      ResetsGrow(Requests(n.sched.log), ResetTo(r));
      ChainGrows(Resets(Requests(n.sched.log)), r);
    }
  }

  lemma ResetsGrow(rs: seq<Request>, r: Request)
    ensures Resets(rs + [r]) == if r.ResetTo? then Resets(rs) + [r.reset] else Resets(rs)
  {
    assert (rs + [r])[..|rs|] == rs;
  }

  lemma ChainGrows(resets: seq<Reset>, r: Reset)
    requires Chained(resets) && (resets != [] ==> r.oldHead == resets[|resets| - 1].newHead)
    ensures Chained(resets + [r])
  {
    forall i | 0 < i < |resets + [r]| ensures Follows(resets + [r], i) {
      assert i < |resets| ==> Follows(resets, i);
    }
  }

  lemma {:induction false} EveryEventRun(n: Node, events: seq<Event>, first: BlockTree.Hash)
    requires NodeInv(n, first) && AllPossible(n, events)
    ensures NodeInv(AfterEvents(n, events), first)
    decreases |events|
  {
    if events != [] {
      EventKeepsInv(n, events[0], first);
      EveryEventRun(AfterEvent(n, events[0]), events[1..], first);
    }
  }

  ghost function ResetOf(work: Work): seq<Reset> {
    if work.reset.Some? then [work.reset.value] else []
  }

  /** The resets that runs were given, in the order of the runs. */
  ghost function ResetsOf(runs: seq<Work>): seq<Reset> {
    if runs == [] then [] else ResetsOf(runs[..|runs| - 1]) + ResetOf(runs[|runs| - 1])
  }

  /** A run was given what its batch asked for. */
  ghost predicate GivenAt(log: seq<Entry>, runs: seq<Work>, i: nat)
    requires i < |runs|
  {
    runs[i] == Collect(Batch(log, i))
  }

  lemma {:induction false} RunsAreCoalesced(log: seq<Entry>, runs: seq<Work>)
    requires forall i: nat | i < |runs| :: GivenAt(log, runs, i)
    ensures ResetsOf(runs) == Coalesced(log, |runs|)
    decreases |runs|
  {
    if runs != [] {
      var front := runs[..|runs| - 1];
      forall i: nat | i < |front| ensures GivenAt(log, front, i) {
        assert GivenAt(log, runs, i);
      }
      RunsAreCoalesced(log, front);
      assert GivenAt(log, runs, |front|);
    }
  }

  /** The resets given to runs, and the one that waits for the next run. */
  ghost function AllResets(s: State): seq<Reset> {
    ResetsOf(s.runs) + ResetOf(s.next)
  }

  lemma AllAreCoalesced(s: State)
    requires Inv(s)
    ensures AllResets(s) == Coalesced(s.log, s.nextDone + 1)
  {
    forall i: nat | i < |s.runs| ensures GivenAt(s.log, s.runs, i) {
      assert RunOk(s, i);
    }
    RunsAreCoalesced(s.log, s.runs);
  }

  /**
   The scheduler is in order, and the resets given to runs and the one that waits form an unbroken chain from the
   first head, which before a shutdown ends at the current one.
   */
  ghost predicate ResetsLead(n: Node, first: BlockTree.Hash) {
    var resets := AllResets(n.sched);
    && Inv(n.sched)
    && Chained(resets) && (resets != [] ==> resets[0].oldHead == first)
    && (!n.sched.stopped ==> LeadsTo(resets, first, n.head))
  }

  lemma NodeResetsLead(n: Node, first: BlockTree.Hash)
    requires NodeInv(n, first)
    ensures ResetsLead(n, first)
  {
    ResetsUnbroken(n.sched);
    AllAreCoalesced(n.sched);
  }

  /** This is so in every run of head changes, other requests, ending runs and a shutdown. */
  lemma EveryReset(events: seq<Event>, first: BlockTree.Hash)
    requires AllPossible(Node(START, first), events)
    ensures ResetsLead(AfterEvents(Node(START, first), events), first)
  {
    FirstNode(first);
    EveryEventRun(Node(START, first), events, first);
    NodeResetsLead(AfterEvents(Node(START, first), events), first);
  }

  lemma FirstNode(first: BlockTree.Hash)
    ensures NodeInv(Node(START, first), first)
  {
    StartInv();
  }

  /** Every channel handed out so far is below `c`. */
  ghost predicate AllHandedOut(log: seq<Entry>, c: nat) {
    forall e | e in log :: e.ticket < c
  }

  /** What waits is the whole next batch, and nothing is beyond it. */
  lemma LaunchServes(s: State)
    requires Sound(s)
    ensures s.next == Collect(Batch(s.log, s.nextDone)) && (s.launchNextRun <==> CallsForRun(Batch(s.log, s.nextDone)))
    ensures AllHandedOut(s.log, s.nextDone + 1) && Batch(s.log, s.nextDone + 1) == []
  {
    BatchEmpty(s.log, s.nextDone + 1);
  }

  /** The loop's variables; the history is kept beside them for the proof. */
  class ReorgLoop {
    var curDone: Option<nat>
    var nextDone: nat
    var launchNextRun: bool
    var reset: Option<Reset>
    var dirtyAccounts: Option<set<Address>>
    var queuedEvents: Accounts
    var stopped: bool
    ghost var log: seq<Entry>
    ghost var runs: seq<Work>
    var closed: set<nat>

    ghost function View(): State
      reads this
    {
      State(curDone, nextDone, launchNextRun, Work(reset, dirtyAccounts, queuedEvents), stopped, log, runs, closed)
    }

    constructor ()
      ensures View() == START && Inv(View())
    {
      curDone, nextDone, launchNextRun := None, 0, false;
      reset, dirtyAccounts, queuedEvents := None, None, map[];
      stopped, log, runs, closed := false, [], [], {};
    }

    /**
     Launches a run exactly when requests wait and none is active. The run is given what the waiting batch asked for
     and its requesters' channel; whoever asks from now on gets another one.
     */
    method Launch() returns (run: Option<Work>)
      requires Sound(View())
      modifies this
      ensures View() == Launched(old(View())) && Inv(View())
      ensures run.None? <==> old(curDone).Some? || !CallsForRun(Batch(old(log), old(nextDone)))
      ensures run.None? ==> View() == old(View())
      ensures run.Some? ==>
                && run.value == Collect(Batch(log, old(nextDone))) && curDone == Some(old(nextDone))
                && AllHandedOut(log, nextDone) && Batch(log, nextDone) == []
    {
      LaunchedInv(View());
      LaunchServes(View());
      run := Dispatch();
    }

    /** Hands the collected work over and starts collecting afresh. */
    method Dispatch() returns (run: Option<Work>)
      modifies this
      ensures View() == Launched(old(View()))
      ensures run == if old(curDone).None? && old(launchNextRun) then Some(old(View()).next) else None
    {
      run := None;
      if curDone.None? && launchNextRun {
        run := Some(Work(reset, dirtyAccounts, queuedEvents));
        runs := runs + [run.value];
        curDone, nextDone := Some(nextDone), nextDone + 1;
        launchNextRun := false;
        reset, dirtyAccounts := None, None;
        queuedEvents := map[];
      }
    }

    method OnReset(req: Reset) returns (done: nat)
      requires !stopped
      modifies this
      ensures View() == Noted(old(View()), ResetTo(req)) && done == nextDone
    {
      log := log + [Entry(ResetTo(req), nextDone)];
      if reset.None? {
        reset := Some(req);
      } else {
        reset := Some(reset.value.(newHead := req.newHead));
      }
      launchNextRun := true;
      done := nextDone;
    }

    method OnPromote(req: set<Address>) returns (done: nat)
      requires !stopped
      modifies this
      ensures View() == Noted(old(View()), PromoteFor(req)) && done == nextDone
    {
      log := log + [Entry(PromoteFor(req), nextDone)];
      if dirtyAccounts.None? {
        dirtyAccounts := Some(req);
      } else {
        dirtyAccounts := Some(dirtyAccounts.value + req);
      }
      launchNextRun := true;
      done := nextDone;
    }

    method OnEvent(tx: Tx)
      requires !stopped
      modifies this
      ensures View() == Noted(old(View()), Announce(tx))
    {
      log := log + [Entry(Announce(tx), nextDone)];
      var list: Items := map[];
      if tx.sender in queuedEvents {
        list := queuedEvents[tx.sender];
      }
      queuedEvents := queuedEvents[tx.sender := list[tx.nonce := tx]];
    }

    /** The shutdown closes the channel of the run that will not come. */
    method OnShutdown()
      requires Enabled(View(), StepShutdown)
      modifies this
      ensures View() == After(old(View()), StepShutdown)
    {
      closed := closed + {nextDone};
      stopped := true;
    }

    /** One turn of the loop: an event it waited for, then the launch. */
    method Turn(step: Step) returns (run: Option<Work>)
      requires Inv(View()) && Enabled(View(), step)
      modifies this
      ensures View() == After(old(View()), step) && Inv(View())
      ensures run.Some? <==> |runs| > |old(runs)|
    {
      StepKeepsInv(View(), step);
      run := None;
      match step {
        case StepRequest(ResetTo(req)) =>
          NotedSound(View(), ResetTo(req));
          var done := OnReset(req);
          run := Launch();
        case StepRequest(PromoteFor(req)) =>
          NotedSound(View(), PromoteFor(req));
          var done := OnPromote(req);
          run := Launch();
        case StepRequest(Announce(tx)) =>
          NotedSound(View(), Announce(tx));
          OnEvent(tx);
          run := Launch();
        case StepRunEnds(i) =>
          closed := closed + {i};
        case StepSeeDone =>
          SeenSound(View());
          curDone := None;
          run := Launch();
        case StepShutdown =>
          OnShutdown();
      }
    }
  }

  /** The part of the pool's event loop that follows the chain head. */
  class EventLoop {
    const sched: ReorgLoop
    var head: BlockTree.Hash

    ghost function View(): Node
      reads this, sched
    {
      Node(sched.View(), head)
    }

    constructor (sched: ReorgLoop, head: BlockTree.Hash)
      requires sched.View() == START
      ensures View() == Node(START, head) && NodeInv(View(), head) && this.sched == sched
    {
      this.sched, this.head := sched, head;
      FirstNode(head);
    }

    /** Asks for a reset from the remembered head to the new one, and remembers the new one. */
    method OnChainHead(block: Option<BlockTree.Hash>, ghost first: BlockTree.Hash)
      requires NodeInv(View(), first)
      modifies this, sched
      ensures NodeInv(View(), first)
      ensures View() == if block.None? then old(View()) else AfterEvent(old(View()), HeadChanged(block.value))
    {
      if block.Some? {
        EventKeepsInv(View(), HeadChanged(block.value), first);
        if !sched.stopped {
          var run := sched.Turn(StepRequest(ResetTo(Reset(head, block.value))));
        }
        head := block.value;
      }
    }
  }
}
