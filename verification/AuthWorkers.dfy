/** The scheduler of auth-worker connections: one request per worker, a FIFO queue for the rest,
    requests failed when they waited too long, and throttling while workers report errors.

    The order in which requests were started (sent, or failed as stale) and the terminal callbacks
    made are part of the state, so that the invariant can speak about whole runs.
 */
module AuthWorkers {
  import opened Options

  const ABORT_SECS := 60
  const UINT_RANGE := 0x1_0000_0000

  /** `job` is the submission number, `id` the number under which a worker knows the request. */
  datatype Request = Request(job: nat, created: int, id: nat)

  datatype Timer = NoTimer | IdleTimer | LookupTimer | ResumeTimer | PendingResume

  datatype Worker = Worker(
    request: Option<Request>, idCounter: nat, timer: Timer,
    receivedError: bool, restart: bool, shutdown: bool, resuming: bool)

  datatype Pool = Pool(
    workers: seq<Worker>, idle: int, withErrors: int, queue: seq<Request>, throttle: int, limit: nat,
    submitted: nat, started: seq<nat>, completed: seq<nat>)

  function NewPool(): Pool {
    Pool([], 0, 0, [], 0, 0, 0, [], [])
  }

  // ----- tallies over the workers

  ghost function Idles(ws: seq<Worker>): nat {
    if ws == [] then 0 else (if ws[0].request.None? then 1 else 0) + Idles(ws[1..])
  }

  ghost function Errors(ws: seq<Worker>): nat {
    if ws == [] then 0 else (if ws[0].receivedError then 1 else 0) + Errors(ws[1..])
  }

  /** The requests that workers are working on. */
  ghost function Jobs(ws: seq<Worker>): multiset<nat> {
    if ws == [] then multiset{} else JobOf(ws[0]) + Jobs(ws[1..])
  }

  ghost function JobOf(w: Worker): multiset<nat> {
    if w.request.Some? then multiset{w.request.value.job} else multiset{}
  }

  lemma {:induction false} TallyAppend(a: seq<Worker>, b: seq<Worker>)
    ensures Idles(a + b) == Idles(a) + Idles(b)
    ensures Errors(a + b) == Errors(a) + Errors(b)
    ensures Jobs(a + b) == Jobs(a) + Jobs(b)
  {
    if a == [] {
      assert a + b == b;
    } else {
      assert (a + b)[1..] == a[1..] + b;
      TallyAppend(a[1..], b);
    }
  }

  lemma TallyOne(w: Worker)
    ensures Idles([w]) == if w.request.None? then 1 else 0
    ensures Errors([w]) == if w.receivedError then 1 else 0
    ensures Jobs([w]) == JobOf(w)
  {
    assert [w][1..] == [];
  }

  function Removed(ws: seq<Worker>, i: nat): seq<Worker>
    requires i < |ws|
  {
    ws[..i] + ws[i + 1..]
  }

  lemma TallyAt(ws: seq<Worker>, i: nat, w: Worker)
    requires i < |ws|
    ensures Idles(ws[i := w]) == Idles(Removed(ws, i)) + if w.request.None? then 1 else 0
    ensures Errors(ws[i := w]) == Errors(Removed(ws, i)) + if w.receivedError then 1 else 0
    ensures Jobs(ws[i := w]) == Jobs(Removed(ws, i)) + JobOf(w)
  {
    var a, b := ws[..i], ws[i + 1..];
    assert ws[i := w] == a + ([w] + b);
    TallyAppend(a, [w] + b);
    TallyAppend([w], b);
    TallyOne(w);
    TallyAppend(a, b);
  }

  /** Taking one worker away. */
  lemma TallyRemove(ws: seq<Worker>, i: nat)
    requires i < |ws|
    ensures Idles(ws) == Idles(Removed(ws, i)) + if ws[i].request.None? then 1 else 0
    ensures Errors(ws) == Errors(Removed(ws, i)) + if ws[i].receivedError then 1 else 0
    ensures Jobs(ws) == Jobs(Removed(ws, i)) + JobOf(ws[i])
  {
    TallyAt(ws, i, ws[i]);
    assert ws[i := ws[i]] == ws;
  }

  lemma CountsUpdate(ws: seq<Worker>, i: nat, w: Worker)
    requires i < |ws|
    ensures Idles(ws[i := w]) == Idles(ws) - (if ws[i].request.None? then 1 else 0) + (if w.request.None? then 1 else 0)
    ensures Errors(ws[i := w]) ==
            Errors(ws) - (if ws[i].receivedError then 1 else 0) + (if w.receivedError then 1 else 0)
  {
    TallyAt(ws, i, w);
    TallyRemove(ws, i);
  }

  lemma JobsUpdate(ws: seq<Worker>, i: nat, w: Worker)
    requires i < |ws|
    ensures JobOf(w) == JobOf(ws[i]) ==> Jobs(ws[i := w]) == Jobs(ws)
    ensures JobOf(w) == multiset{} ==> Jobs(ws[i := w]) + JobOf(ws[i]) == Jobs(ws)
    ensures JobOf(ws[i]) == multiset{} ==> Jobs(ws[i := w]) == Jobs(ws) + JobOf(w)
  {
    TallyAt(ws, i, w);
    TallyRemove(ws, i);
  }

  lemma {:induction false} TallyBounds(ws: seq<Worker>)
    ensures Errors(ws) <= |ws| && Idles(ws) <= |ws|
  {
    if ws != [] {
      TallyBounds(ws[1..]);
    }
  }

  // ----- the invariant

  /** Requests are started strictly in submission order: what was submitted is what was started,
      then what is queued. */
  ghost predicate InOrder(p: Pool) {
    && |p.started| + |p.queue| == p.submitted
    && (forall i :: 0 <= i < |p.started| ==> p.started[i] == i)
    && (forall i :: 0 <= i < |p.queue| ==> p.queue[i].job == |p.started| + i)
  }

  /** Every started request is with exactly one worker, or has had its one terminal callback. */
  ghost predicate Accounted(p: Pool) {
    forall job: nat :: Places(p.completed, p.workers, job) == multiset(p.started)[job]
  }

  ghost function Places(completed: seq<nat>, ws: seq<Worker>, job: nat): nat {
    multiset(completed)[job] + Jobs(ws)[job]
  }

  lemma AccountedIff(p: Pool)
    ensures Accounted(p) <==> multiset(p.completed) + Jobs(p.workers) == multiset(p.started)
  {
    var all := multiset(p.completed) + Jobs(p.workers);
    assert forall job: nat :: all[job] == Places(p.completed, p.workers, job);
  }

  ghost predicate Counted(p: Pool) {
    p.idle == Idles(p.workers) && p.withErrors == Errors(p.workers)
  }

  /** Idle workers wait with the idle timeout, busy ones never do. */
  ghost predicate Timed(p: Pool) {
    forall i :: 0 <= i < |p.workers| ==> (p.workers[i].request.None? <==> p.workers[i].timer.IdleTimer?)
  }

  ghost predicate Core(p: Pool) {
    InOrder(p) && Accounted(p) && Counted(p) && Timed(p)
  }

  /** At rest nobody idles while requests wait. */
  ghost predicate Inv(p: Pool) {
    Core(p) && (p.queue != [] ==> p.idle == 0)
  }

  lemma NewPoolInv()
    ensures Inv(NewPool())
  {
  }

  // ----- starting requests

  /** The request has waited too long. Ages are unsigned ints in the code. */
  predicate Stale(r: Request, now: int) {
    (now - r.created) % UINT_RANGE >= ABORT_SECS
  }

  ghost function Busy(w: Worker, r: Request): Worker {
    var id := (w.idCounter + 1) % UINT_RANGE;
    w.(idCounter := id, request := Some(r.(id := id)), timer := LookupTimer)
  }

  /** Starting the next request: failing it as stale. */
  ghost function FailedNext(p: Pool, r: Request): Pool {
    p.(started := p.started + [r.job], completed := p.completed + [r.job])
  }

  /** Starting the next request: handing it to worker i. */
  ghost function SentNext(p: Pool, i: nat, r: Request): Pool
    requires i < |p.workers|
  {
    p.(started := p.started + [r.job], workers := p.workers[i := Busy(p.workers[i], r)], idle := p.idle - 1)
  }

  /** The pool without the request that is about to be started is one short. */
  ghost predicate Starting(p: Pool, r: Request) {
    && r.job == |p.started|
    && |p.started| + 1 + |p.queue| == p.submitted
    && (forall i :: 0 <= i < |p.started| ==> p.started[i] == i)
    && (forall i :: 0 <= i < |p.queue| ==> p.queue[i].job == |p.started| + 1 + i)
    && Accounted(p) && Counted(p) && Timed(p)
  }

  lemma FailedCore(p: Pool, r: Request)
    requires Starting(p, r)
    ensures Core(FailedNext(p, r))
  {
    AccountedIff(p);
    AccountedIff(FailedNext(p, r));
    assert multiset(p.completed + [r.job]) == multiset(p.completed) + multiset{r.job};
    assert multiset(p.started + [r.job]) == multiset(p.started) + multiset{r.job};
  }

  lemma Started(started: seq<nat>, completed: seq<nat>, jobs: multiset<nat>, jobs': multiset<nat>, j: nat)
    requires multiset(completed) + jobs == multiset(started) && jobs' == jobs + multiset{j}
    ensures multiset(completed) + jobs' == multiset(started + [j])
  {
    assert multiset(started + [j]) == multiset(started) + multiset{j};
  }

  lemma SentCore(p: Pool, i: nat, r: Request)
    requires Starting(p, r) && i < |p.workers| && p.workers[i].request.None?
    ensures Core(SentNext(p, i, r)) && p.idle > 0
  {
    var p' := SentNext(p, i, r);
    assert Timed(p') && InOrder(p');
    assert Counted(p') && p.idle > 0 by {
      CountsUpdate(p.workers, i, Busy(p.workers[i], r));
    }
    assert Accounted(p') by {
      AccountedIff(p);
      AccountedIff(p');
      JobsUpdate(p.workers, i, Busy(p.workers[i], r));
      Started(p.started, p.completed, Jobs(p.workers), Jobs(p'.workers), r.job);
    }
  }

  /** What was started and completed stays so: `started` and `completed` are the whole history. */
  ghost predicate Grows(p: Pool, p': Pool) {
    p.started <= p'.started && p.completed <= p'.completed
  }

  /** Requests wait, and there is nobody who could ever take them. */
  ghost predicate Stranded(p: Pool) {
    p.workers == [] && p.queue != []
  }

  /** The limit leaves room for another worker. */
  predicate Roomy(p: Pool) {
    p.limit == 0 || |p.workers| < p.throttle
  }

  /** Requests wait although a worker could be created for them. */
  ghost predicate Wasted(p: Pool) {
    p.queue != [] && Roomy(p)
  }

  /** Something is left of a queue after one worker has been fed from it. */
  ghost predicate LeftOver(queue: seq<Request>, now: int) {
    queue != [] && if Stale(queue[0], now) then LeftOver(queue[1..], now) else |queue| > 1
  }

  /** A job that may be completed now: a worker has it, or it waits and is stale. */
  ghost predicate Completable(p: Pool, job: nat, now: int) {
    job in Jobs(p.workers) || exists i :: 0 <= i < |p.queue| && p.queue[i].job == job && Stale(p.queue[i], now)
  }

  ghost predicate CompletableAt(p: Pool, p': Pool, now: int, m: nat)
    requires m < |p'.completed|
  {
    Completable(p, p'.completed[m], now)
  }

  /** Nothing else was completed in between. */
  ghost predicate Finishes(p: Pool, p': Pool, now: int) {
    p.completed <= p'.completed && forall m: nat :: |p.completed| <= m < |p'.completed| ==> CompletableAt(p, p', now, m)
  }

  lemma FinishesNothing(p: Pool, p': Pool, now: int)
    requires p'.completed == p.completed
    ensures Finishes(p, p', now)
  {
  }

  lemma FinishesSame(p: Pool, p1: Pool, p': Pool, now: int)
    requires Finishes(p, p1, now) && p'.completed == p1.completed
    ensures Finishes(p, p', now)
  {
    forall m: nat | |p.completed| <= m < |p'.completed| ensures CompletableAt(p, p', now, m) {
      assert CompletableAt(p, p1, now, m);
    }
  }

  lemma FinishesOne(p: Pool, p': Pool, job: nat, now: int)
    requires p'.completed == p.completed + [job] && Completable(p, job, now)
    ensures Finishes(p, p', now)
  {
  }

  lemma FinishesTrans(p: Pool, p1: Pool, p': Pool, now: int)
    requires Finishes(p, p1, now) && Finishes(p1, p', now)
    requires forall job :: Completable(p1, job, now) ==> Completable(p, job, now)
    ensures Finishes(p, p', now)
  {
    forall m: nat | |p.completed| <= m < |p'.completed| ensures CompletableAt(p, p', now, m) {
      if m < |p1.completed| {
        assert CompletableAt(p, p1, now, m);
      } else {
        assert CompletableAt(p1, p', now, m);
      }
    }
  }

  lemma {:induction false} FedFinishes(p: Pool, i: nat, now: int)
    requires i < |p.workers|
    ensures Finishes(p, Fed(p, i, now), now)
    decreases |p.queue|
  {
    if p.queue == [] || !Stale(p.queue[0], now) {
      FinishesNothing(p, Fed(p, i, now), now);
    } else {
      var r, rest := p.queue[0], FailedNext(p.(queue := p.queue[1..]), p.queue[0]);
      FinishesOne(p, rest, r.job, now);
      FedFinishes(rest, i, now);
      forall job | Completable(rest, job, now) ensures Completable(p, job, now) {
        if k :| 0 <= k < |rest.queue| && rest.queue[k].job == job && Stale(rest.queue[k], now) {
          assert p.queue[k + 1] == rest.queue[k];
        }
      }
      FinishesTrans(p, rest, Fed(p, i, now), now);
    }
  }

  lemma JobIn(ws: seq<Worker>, i: nat)
    requires i < |ws| && ws[i].request.Some?
    ensures ws[i].request.value.job in Jobs(ws)
  {
    TallyRemove(ws, i);
  }

  lemma GoneFinishes(p: Pool, i: nat, restart: bool, connects: bool, now: int)
    requires i < |p.workers|
    ensures Finishes(p, Without(p, i), now) && Finishes(p, Gone(p, i, restart, connects, now), now)
  {
    var rest := Without(p, i);
    TallyRemove(p.workers, i);
    if p.workers[i].request.Some? {
      JobIn(p.workers, i);
      FinishesOne(p, rest, p.workers[i].request.value.job, now);
    } else {
      FinishesNothing(p, rest, now);
    }
    if restart && rest.idle == 0 && CanCreate(rest, connects) {
      FedFinishes(Grown(rest), 0, now);
      TallyAppend([NewWorker()], rest.workers);
      TallyOne(NewWorker());
      FinishesNothing(rest, Grown(rest), now);
      FinishesTrans(p, rest, Grown(rest), now);
      FinishesTrans(p, Grown(rest), Gone(p, i, restart, connects, now), now);
    }
  }

  /** auth_worker_request_send() */
  method RequestSend(p: Pool, i: nat, r: Request, now: int) returns (p': Pool, sent: bool)
    requires Starting(p, r) && i < |p.workers| && p.workers[i].request.None?
    ensures sent == !Stale(r, now) && Core(p') && Grows(p, p')
    ensures 0 <= now - r.created < UINT_RANGE ==> (sent <==> now - r.created < 60)
    ensures p' == if sent then SentNext(p, i, r) else FailedNext(p, r)
  {
    var w := p.workers[i];
    assert !w.timer.NoTimer?;
    if Stale(r, now) {
      FailedCore(p, r);
      p' := p.(started := p.started + [r.job], completed := p.completed + [r.job]);
      return p', false;
    }
    SentCore(p, i, r);
    var id := (w.idCounter + 1) % UINT_RANGE;
    assert p.idle > 0;
    p' := p.(started := p.started + [r.job], idle := p.idle - 1,
             workers := p.workers[i := w.(idCounter := id, request := Some(r.(id := id)), timer := LookupTimer)]);
    sent := true;
  }

  /** What a step outside the throttling code leaves alone. */
  ghost predicate SameLimits(p: Pool, p': Pool) {
    p'.throttle == p.throttle && p'.limit == p.limit && p'.submitted == p.submitted
  }

  /** Worker i takes the first request of the queue that is not stale; the stale ones before it fail. */
  ghost function Fed(p: Pool, i: nat, now: int): Pool
    requires i < |p.workers|
    decreases |p.queue|
  {
    if p.queue == [] then p
    else
      var r, rest := p.queue[0], p.(queue := p.queue[1..]);
      if Stale(r, now) then Fed(FailedNext(rest, r), i, now) else SentNext(rest, i, r)
  }

  /** auth_worker_request_send_next(): feeds an idle worker from the queue. */
  method SendNext(p: Pool, i: nat, now: int) returns (p': Pool)
    requires Core(p) && i < |p.workers| && p.workers[i].request.None?
    requires p.queue != [] ==> p.idle == 1
    ensures Inv(p') && SameLimits(p, p') && p'.withErrors == p.withErrors && p' == Fed(p, i, now)
    ensures Grows(p, p') && |p'.workers| == |p.workers| && (Wasted(p') <==> LeftOver(p.queue, now) && Roomy(p))
    ensures Finishes(p, p', now)
  {
    FedFinishes(p, i, now);
    FedWorkers(p, i, now);
    p' := p;
    while |p'.queue| > 0
      invariant Core(p') && p'.workers == p.workers && p'.idle == p.idle && Fed(p', i, now) == Fed(p, i, now)
      invariant SameLimits(p, p') && p'.withErrors == p.withErrors && Grows(p, p')
      decreases |p'.queue|
    {
      var r := p'.queue[0];
      p' := p'.(queue := p'.queue[1..]);
      assert Starting(p', r);
      var sent;
      p', sent := RequestSend(p', i, r, now);
      if sent {
        return;
      }
    }
  }

  /** The stale requests at the front of the queue, and no others, fail; the next one goes to the worker. */
  lemma {:induction false} FedMeans(p: Pool, i: nat, now: int) returns (failed: nat)
    requires i < |p.workers|
    ensures failed <= |p.queue| && forall k :: 0 <= k < failed ==> Stale(p.queue[k], now)
    ensures var p' := Fed(p, i, now);
            if failed == |p.queue| then p'.queue == [] && p'.workers == p.workers
            else !Stale(p.queue[failed], now) && p'.queue == p.queue[failed + 1..]
                 && p'.workers == p.workers[i := Busy(p.workers[i], p.queue[failed])]
    decreases |p.queue|
  {
    failed := 0;
    if p.queue != [] && Stale(p.queue[0], now) {
      var f := FedMeans(FailedNext(p.(queue := p.queue[1..]), p.queue[0]), i, now);
      failed := f + 1;
    }
  }

  // ----- creating and destroying workers

  function NewWorker(): Worker {
    Worker(None, 0, IdleTimer, false, false, false, false)
  }

  /** The first connection is always allowed: it negotiates the limit. */
  predicate CanCreate(p: Pool, connects: bool) {
    connects && Roomy(p)
  }

  /** auth_worker_create(): the new connection goes to the front of the list. */
  method Create(p: Pool, connects: bool) returns (p': Pool, made: bool)
    requires Core(p)
    ensures Core(p')
    ensures made == CanCreate(p, connects)
    ensures p' == if made then Grown(p) else p
  {
    if p.limit > 0 && |p.workers| >= p.throttle {
      return p, false;
    }
    if !connects {
      return p, false;
    }
    p' := p.(workers := [NewWorker()] + p.workers, idle := p.idle + 1);
    made := true;
    TallyAppend([NewWorker()], p.workers);
    TallyOne(NewWorker());
    AccountedIff(p);
    AccountedIff(p');
  }

  /** The pool after worker i is gone; its request, if any, has failed. */
  ghost function Without(p: Pool, i: nat): Pool
    requires i < |p.workers|
  {
    var w := p.workers[i];
    p.(workers := Removed(p.workers, i),
       withErrors := if w.receivedError then p.withErrors - 1 else p.withErrors,
       idle := if w.request.None? then p.idle - 1 else p.idle,
       completed := if w.request.Some? then p.completed + [w.request.value.job] else p.completed)
  }

  lemma WithoutCore(p: Pool, i: nat)
    requires Core(p) && i < |p.workers|
    ensures Core(Without(p, i))
    ensures p.workers[i].receivedError ==> 0 < p.withErrors <= |p.workers|
    ensures p.workers[i].request.None? ==> p.idle > 0
  {
    var w, p' := p.workers[i], Without(p, i);
    TallyRemove(p.workers, i);
    TallyBounds(p.workers);
    assert forall k :: 0 <= k < |p'.workers| ==> p'.workers[k] in p.workers;
    assert Accounted(p') by {
      AccountedIff(p);
      AccountedIff(p');
      if w.request.Some? {
        Completed(p.started, p.completed, Jobs(p.workers), Jobs(p'.workers), w.request.value.job);
      }
    }
  }

  ghost function Grown(p: Pool): Pool {
    p.(workers := [NewWorker()] + p.workers, idle := p.idle + 1)
  }

  /** The pool after worker i is gone and perhaps replaced. */
  ghost function Gone(p: Pool, i: nat, restart: bool, connects: bool, now: int): Pool
    requires i < |p.workers|
  {
    var rest := Without(p, i);
    if restart && rest.idle == 0 && CanCreate(rest, connects) then Fed(Grown(rest), 0, now) else rest
  }

  /** The only worker leaves while requests wait, and is not replaced. */
  ghost predicate LastLeaves(p: Pool, restart: bool, connects: bool) {
    && |p.workers| == 1 && p.queue != []
    && !(restart && connects && (p.limit == 0 || p.throttle > 0))
  }

  /** Whether requests wait beside room for a worker after one has left, and was perhaps replaced. */
  ghost predicate Vacates(p: Pool, restart: bool, connects: bool, now: int) {
    var room := p.limit == 0 || |p.workers| - 1 < p.throttle;
    p.queue != [] && if restart && connects && room then LeftOver(p.queue, now) && Roomy(p) else room
  }

  /** auth_worker_deinit(): fails the worker's request, removes the worker, and if nobody is idle may
      start a replacement that takes over the queue. */
  method Deinit(p: Pool, i: nat, restart: bool, connects: bool, now: int) returns (p': Pool)
    requires Core(p) && i < |p.workers|
    requires p.queue != [] ==> p.idle == if p.workers[i].request.None? then 1 else 0
    ensures Inv(p') && SameLimits(p, p') && p' == Gone(p, i, restart, connects, now) && Grows(p, p')
    ensures Stranded(p') <==> LastLeaves(p, restart, connects)
    ensures Wasted(p') <==> Vacates(p, restart, connects, now)
    ensures Finishes(p, p', now)
  {
    GoneFinishes(p, i, restart, connects, now);
    WithoutCore(p, i);
    GoneStranded(p, i, restart, connects, now);
    GoneWasted(p, i, restart, connects, now);
    p' := Remove(p, i);
    if p'.idle == 0 && restart {
      p' := Replace(p', connects, now);
    }
  }

  lemma {:induction false} FedWorkers(p: Pool, i: nat, now: int)
    requires i < |p.workers|
    ensures |Fed(p, i, now).workers| == |p.workers| && SameLimits(p, Fed(p, i, now))
    ensures Fed(p, i, now).queue != [] <==> LeftOver(p.queue, now)
    decreases |p.queue|
  {
    if p.queue != [] && Stale(p.queue[0], now) {
      FedWorkers(FailedNext(p.(queue := p.queue[1..]), p.queue[0]), i, now);
    }
  }

  lemma GoneStranded(p: Pool, i: nat, restart: bool, connects: bool, now: int)
    requires i < |p.workers| && Counted(Without(p, i))
    ensures Stranded(Gone(p, i, restart, connects, now)) <==> LastLeaves(p, restart, connects)
  {
    var rest := Without(p, i);
    if restart && rest.idle == 0 && CanCreate(rest, connects) {
      FedWorkers(Grown(rest), 0, now);
    }
  }

  lemma GoneWasted(p: Pool, i: nat, restart: bool, connects: bool, now: int)
    requires i < |p.workers| && (p.queue != [] ==> Without(p, i).idle == 0)
    ensures Wasted(Gone(p, i, restart, connects, now)) <==> Vacates(p, restart, connects, now)
  {
    var rest := Without(p, i);
    if restart && rest.idle == 0 && CanCreate(rest, connects) {
      FedWorkers(Grown(rest), 0, now);
    }
  }

  method Replace(p: Pool, connects: bool, now: int) returns (p': Pool)
    requires Core(p) && p.idle == 0
    ensures Inv(p') && SameLimits(p, p') && Grows(p, p')
    ensures p' == if CanCreate(p, connects) then Fed(Grown(p), 0, now) else p
  {
    var created;
    p', created := Create(p, connects);
    if created {
      p' := SendNext(p', 0, now);
    }
  }

  method Remove(p: Pool, i: nat) returns (p': Pool)
    requires i < |p.workers| && (p.workers[i].receivedError ==> 0 < p.withErrors <= |p.workers|)
    ensures p' == Without(p, i)
  {
    var w := p.workers[i];
    p' := p;
    if w.receivedError {
      assert 0 < p.withErrors <= |p.workers|;
      p' := p'.(withErrors := p.withErrors - 1);
    }
    if w.request.None? {
      p' := p'.(idle := p.idle - 1);
    } else {
      p' := p'.(completed := p.completed + [w.request.value.job]);
    }
    p' := p'.(workers := p.workers[..i] + p.workers[i + 1..]);
  }

  // ----- new requests

  /** auth_worker_find_free(): the count promises that the search succeeds. */
  method FindFree(p: Pool) returns (i: int)
    requires Counted(p)
    ensures p.idle == 0 ==> i == -1
    ensures p.idle != 0 ==> 0 <= i < |p.workers| && p.workers[i].request.None?
  {
    if p.idle == 0 {
      return -1;
    }
    i := 0;
    while i < |p.workers|
      invariant 0 <= i <= |p.workers| && Idles(p.workers[i..]) == Idles(p.workers)
    {
      if p.workers[i].request.None? {
        return;
      }
      assert p.workers[i..][1..] == p.workers[i + 1..];
      i := i + 1;
    }
    assert false;
  }

  /** auth_worker_call() */
  method Call(p: Pool, now: int, connects: bool) returns (p': Pool)
    requires Inv(p)
    ensures Inv(p') && p'.submitted == p.submitted + 1 && p'.throttle == p.throttle && p'.limit == p.limit
    ensures Grows(p, p')
    // it is queued exactly if others wait already, or nobody is free and nobody can be created
    ensures var r := Request(p.submitted, now, 0);
            if p.queue != [] || (p.idle == 0 && !CanCreate(p, connects))
            then p' == p.(submitted := p.submitted + 1, queue := p.queue + [r])
            else p'.queue == [] && p'.started == p.started + [r.job] && p'.completed == p.completed
                 && if p.idle == 0 then p'.workers == [Busy(NewWorker(), r)] + p.workers
                    else exists i :: 0 <= i < |p.workers| && p.workers[i].request.None? &&
                           p'.workers == p.workers[i := Busy(p.workers[i], r)]
  {
    var r := Request(p.submitted, now, 0);
    var i := -1;
    p' := p;
    if |p.queue| == 0 {
      i := FindFree(p);
      if i == -1 {
        var created;
        p', created := Create(p, connects);
        if created {
          i := 0;
        }
      }
    }
    if i != -1 {
      p' := StartOn(p', i, r, now);
    } else {
      p' := Enqueue(p', r);
    }
  }

  /** The limit is reached: the request waits. */
  method Enqueue(p: Pool, r: Request) returns (p': Pool)
    requires Inv(p) && p.idle == 0 && r.job == p.submitted
    ensures Inv(p') && p' == p.(submitted := p.submitted + 1, queue := p.queue + [r])
  {
    p' := p.(queue := p.queue + [r], submitted := p.submitted + 1);
  }

  /** A request that was just made cannot be stale. */
  method StartOn(p: Pool, i: nat, r: Request, now: int) returns (p': Pool)
    requires Core(p) && p.queue == [] && i < |p.workers| && p.workers[i].request.None?
    requires r == Request(p.submitted, now, 0)
    ensures Inv(p') && p' == SentNext(p.(submitted := p.submitted + 1), i, r)
  {
    var sent;
    p', sent := RequestSend(p.(submitted := p.submitted + 1), i, r, now);
    assert sent;
  }

  // ----- replies

  /** One line of a reply. `pauses`: the callback of a partial line asks to stop reading. A final line's
      callback never does. */
  datatype Line = Partial(pauses: bool) | Last

  /** More lines are to come: the lookup timer restarts, or stops while the reader pauses. */
  ghost function Partly(p: Pool, i: nat, pauses: bool): Pool
    requires i < |p.workers|
  {
    var w := p.workers[i];
    p.(workers := p.workers[i := w.(resuming := true,
                                    timer := if pauses then NoTimer else if w.resuming then w.timer else ResumeTimer)])
  }

  /** The request had its last line: it is completed and its worker idles. */
  ghost function Done(p: Pool, i: nat): Pool
    requires i < |p.workers| && p.workers[i].request.Some?
  {
    var w := p.workers[i];
    p.(workers := p.workers[i := w.(resuming := false, request := None, timer := IdleTimer)], idle := p.idle + 1,
       completed := p.completed + [w.request.value.job])
  }

  /** auth_worker_request_handle() */
  method RequestHandle(p: Pool, i: nat, line: Line) returns (p': Pool)
    requires Core(p) && i < |p.workers| && p.workers[i].request.Some?
    ensures Core(p') && SameLimits(p, p') && |p'.workers| == |p.workers| && p'.queue == p.queue && Grows(p, p')
    ensures p' == if line.Partial? then Partly(p, i, line.pauses) else Done(p, i)
  {
    var w := p.workers[i];
    if line.Partial? {
      var w' := if w.resuming then w else w.(resuming := true, timer := ResumeTimer);
      if line.pauses {
        w' := w'.(timer := NoTimer);
      }
      FlagsCore(p, i, w');
      p' := p.(workers := p.workers[i := w']);
    } else {
      var w' := w.(resuming := false, request := None, timer := IdleTimer);
      HandledCore(p, i);
      p' := p.(workers := p.workers[i := w'], idle := p.idle + 1,
               completed := p.completed + [w.request.value.job]);
    }
  }

  lemma HandledCore(p: Pool, i: nat)
    requires Core(p) && i < |p.workers| && p.workers[i].request.Some?
    ensures Core(Done(p, i))
  {
    var w, p' := p.workers[i], Done(p, i);
    var w' := p'.workers[i];
    assert Counted(p') by {
      CountsUpdate(p.workers, i, w');
    }
    assert Accounted(p') by {
      AccountedIff(p);
      AccountedIff(p');
      JobsUpdate(p.workers, i, w');
      Completed(p.started, p.completed, Jobs(p.workers), Jobs(p'.workers), w.request.value.job);
    }
    assert Timed(p') && InOrder(p');
  }

  /** Moving a job from a worker to the completed ones. */
  lemma Completed(started: seq<nat>, completed: seq<nat>, jobs: multiset<nat>, jobs': multiset<nat>, j: nat)
    requires multiset(completed) + jobs == multiset(started) && jobs' + multiset{j} == jobs
    ensures multiset(completed + [j]) + jobs' == multiset(started)
  {
    assert multiset(completed + [j]) == multiset(completed) + multiset{j};
  }

  /** A change of flags or timers. */
  lemma FlagsCore(p: Pool, i: nat, w': Worker)
    requires Core(p) && i < |p.workers|
    requires w'.request == p.workers[i].request && w'.receivedError == p.workers[i].receivedError
    requires w'.request.None? <==> w'.timer.IdleTimer?
    ensures Core(p.(workers := p.workers[i := w']))
  {
    var p' := p.(workers := p.workers[i := w']);
    assert Counted(p') by {
      CountsUpdate(p.workers, i, w');
    }
    assert Accounted(p') by {
      AccountedIff(p);
      AccountedIff(p');
      JobsUpdate(p.workers, i, w');
    }
    assert Timed(p') && InOrder(p');
  }

  lemma IdleWorker(p: Pool, i: nat)
    requires Counted(p) && i < |p.workers| && p.workers[i].request.None?
    ensures p.idle > 0
  {
    TallyRemove(p.workers, i);
  }

  /** Whether a reply makes the worker leave, and if so whether it may be replaced. */
  function AfterReply(p: Pool, i: nat, id: nat, line: Line): Option<bool>
    requires i < |p.workers|
  {
    var w := p.workers[i];
    if w.request.None? || w.request.value.id != id then Some(true)
    else if line.Partial? then None
    else if w.restart then Some(true)
    else if w.shutdown then Some(false)
    else None
  }

  ghost predicate StrandsByReply(p: Pool, i: nat, id: nat, line: Line, connects: bool)
    requires i < |p.workers|
  {
    AfterReply(p, i, id, line).Some? && LastLeaves(p, AfterReply(p, i, id, line).value, connects)
  }

  /** Whether requests wait beside room for a worker after a reply. */
  ghost predicate WastesByReply(p: Pool, i: nat, id: nat, line: Line, connects: bool, now: int)
    requires i < |p.workers|
  {
    match AfterReply(p, i, id, line)
    case Some(restart) => Vacates(p, restart, connects, now)
    case None => if line.Partial? then Wasted(p) else LeftOver(p.queue, now) && Roomy(p)
  }

  /** A reply line in worker_input_args(). A reply to no known request kills the worker; after the last
      line the worker restarts, stops, or takes the next request. */
  method Reply(p: Pool, i: nat, id: nat, line: Line, connects: bool, now: int) returns (p': Pool)
    requires Inv(p) && i < |p.workers|
    ensures Inv(p') && SameLimits(p, p') && Grows(p, p')
    ensures Stranded(p') <==> StrandsByReply(p, i, id, line, connects)
    ensures Wasted(p') <==> WastesByReply(p, i, id, line, connects, now)
    ensures Finishes(p, p', now)
    ensures var w := p.workers[i];
            p' == if w.request.None? || w.request.value.id != id then Gone(p, i, true, connects, now)
                  else if line.Partial? then Partly(p, i, line.pauses)
                  else if w.restart then Gone(Done(p, i), i, true, connects, now)
                  else if w.shutdown then Gone(Done(p, i), i, false, connects, now)
                  else Fed(Done(p, i), i, now)
  {
    var w := p.workers[i];
    if w.request.None? || w.request.value.id != id {
      p' := Kill(p, i, connects, now);
    } else {
      p' := KnownReply(p, i, line, connects, now);
    }
  }

  /** The same after a worker's last line. */
  ghost predicate WastesNext(p: Pool, w: Worker, connects: bool, now: int) {
    if w.restart || w.shutdown then Vacates(p, w.restart, connects, now) else LeftOver(p.queue, now) && Roomy(p)
  }

  method KnownReply(p: Pool, i: nat, line: Line, connects: bool, now: int) returns (p': Pool)
    requires Inv(p) && i < |p.workers| && p.workers[i].request.Some?
    ensures Inv(p') && SameLimits(p, p') && Grows(p, p') && Finishes(p, p', now)
    ensures var w := p.workers[i];
            (Stranded(p') <==> line.Last? && (w.restart || w.shutdown) && LastLeaves(p, w.restart, connects))
            && (Wasted(p') <==> if line.Partial? then Wasted(p) else WastesNext(p, w, connects, now))
            && p' == if line.Partial? then Partly(p, i, line.pauses)
                     else if w.restart then Gone(Done(p, i), i, true, connects, now)
                     else if w.shutdown then Gone(Done(p, i), i, false, connects, now)
                     else Fed(Done(p, i), i, now)
  {
    p' := RequestHandle(p, i, line);
    if p'.workers[i].request.None? {
      p' := AfterLast(p', i, connects, now);
      DoneFinishes(p, i, p', now);
    } else {
      FinishesNothing(p, p', now);
    }
  }

  lemma DoneFinishes(p: Pool, i: nat, p': Pool, now: int)
    requires i < |p.workers| && p.workers[i].request.Some? && Finishes(Done(p, i), p', now)
    ensures Finishes(p, p', now)
  {
    var p1 := Done(p, i);
    JobIn(p.workers, i);
    FinishesOne(p, p1, p.workers[i].request.value.job, now);
    JobsUpdate(p.workers, i, p1.workers[i]);
    FinishesTrans(p, p1, p', now);
  }

  /** A worker that has finished its request restarts, stops, or takes the next one. */
  method AfterLast(p: Pool, i: nat, connects: bool, now: int) returns (p': Pool)
    requires Core(p) && i < |p.workers| && p.workers[i].request.None? && (p.queue != [] ==> p.idle == 1)
    ensures Inv(p') && SameLimits(p, p') && Grows(p, p') && Finishes(p, p', now)
    ensures var w := p.workers[i];
            (Stranded(p') <==> (w.restart || w.shutdown) && LastLeaves(p, w.restart, connects))
            && (Wasted(p') <==> WastesNext(p, w, connects, now))
            && p' == if w.restart then Gone(p, i, true, connects, now)
                     else if w.shutdown then Gone(p, i, false, connects, now)
                     else Fed(p, i, now)
  {
    if p.workers[i].restart {
      p' := Deinit(p, i, true, connects, now);
    } else if p.workers[i].shutdown {
      p' := Deinit(p, i, false, connects, now);
    } else {
      p' := SendNext(p, i, now);
    }
  }

  // ----- throttling

  /** One less than there are workers, or than before; but not less than one. */
  function Lowered(throttle: int, workers: nat): int {
    if throttle >= workers then workers - 1
    else if throttle > 1 then throttle - 1
    else throttle
  }

  /** auth_worker_error(): the first failing worker freezes the pool at its size, any further one is
      stopped and the pool shrinks. */
  method HandleError(p: Pool, i: nat, connects: bool, now: int) returns (p': Pool)
    requires Inv(p) && i < |p.workers|
    ensures Inv(p') && p'.limit == p.limit && p'.submitted == p.submitted && Grows(p, p') && !Stranded(p')
    ensures p.throttle >= 1 ==> p'.throttle >= 1
    ensures Wasted(p') <==> if p.workers[i].receivedError then Wasted(p) else p.queue != [] && p.limit == 0
    ensures p.workers[i].receivedError ==> p' == p
    ensures !p.workers[i].receivedError && p.withErrors == 0 ==>
              p' == p.(workers := p.workers[i := p.workers[i].(receivedError := true)], withErrors := 1,
                       throttle := |p.workers|)
    ensures !p.workers[i].receivedError && p.withErrors > 0 ==>
              && p'.workers == Removed(p.workers, i) && p'.withErrors == p.withErrors
              && p'.throttle == Lowered(p.throttle, |p.workers|)
              && p'.throttle <= |p'.workers| && (p.throttle > 1 ==> p'.throttle < p.throttle)
              && p'.queue == p.queue && p'.started == p.started && p'.completed == Without(p, i).completed
    ensures Finishes(p, p', now)
  {
    GoneFinishes(p, i, false, connects, now);
    FinishesNothing(p, p, now);
    var w := p.workers[i];
    if w.receivedError {
      return p;
    }
    ErrorCore(p, i);
    p' := p.(workers := p.workers[i := w.(receivedError := true)], withErrors := p.withErrors + 1);
    TallyBounds(p'.workers);
    assert p'.withErrors <= |p'.workers|;
    if p'.withErrors == 1 {
      p' := p'.(throttle := |p'.workers|);
      FinishesNothing(p, p', now);
      return;
    }
    assert |p'.workers| > 1;
    if w.request.None? {
      IdleWorker(p, i);
    }
    p' := Shrink(p', i, connects, now);
    assert Removed(p.workers[i := w.(receivedError := true)], i) == Removed(p.workers, i);
    FinishesSame(p, Without(p, i), p', now);
  }

  method Shrink(p: Pool, i: nat, connects: bool, now: int) returns (p': Pool)
    requires Core(p) && i < |p.workers|
    requires p.queue != [] ==> p.idle == if p.workers[i].request.None? then 1 else 0
    ensures Inv(p') && p' == Without(p, i).(throttle := Lowered(p.throttle, |p.workers|))
  {
    p' := Deinit(p.(throttle := Lowered(p.throttle, |p.workers|)), i, false, connects, now);
  }

  lemma ErrorCore(p: Pool, i: nat)
    requires Core(p) && i < |p.workers| && !p.workers[i].receivedError
    ensures Core(p.(workers := p.workers[i := p.workers[i].(receivedError := true)], withErrors := p.withErrors + 1))
    ensures p.withErrors >= 0
  {
    var w := p.workers[i].(receivedError := true);
    var p' := p.(workers := p.workers[i := w], withErrors := p.withErrors + 1);
    CountsUpdate(p.workers, i, w);
    assert Accounted(p') by {
      AccountedIff(p);
      AccountedIff(p');
      JobsUpdate(p.workers, i, w);
    }
  }

  /** The throttled limit after worker i has succeeded. */
  function Recovered(p: Pool, i: nat): int
    requires i < |p.workers|
  {
    if !p.workers[i].receivedError then p.throttle
    else if p.withErrors == 1 then p.limit
    else if p.throttle < p.limit then p.throttle + 1
    else p.throttle
  }

  /** auth_worker_success(): the limit recovers. It drops to zero exactly if the last failing worker
      recovers while the process limit is zero. */
  method HandleSuccess(p: Pool, i: nat) returns (p': Pool)
    requires Inv(p) && i < |p.workers|
    ensures Inv(p') && p'.limit == p.limit && p'.submitted == p.submitted && Grows(p, p') && !Stranded(p')
    ensures Wasted(p') <==> p.queue != [] && (p.limit == 0 || |p.workers| < Recovered(p, i))
    ensures !p.workers[i].receivedError ==> p' == p
    ensures p.workers[i].receivedError ==>
              p' == p.(workers := p.workers[i := p.workers[i].(receivedError := false)], withErrors := p.withErrors - 1,
                       throttle := Recovered(p, i))
    ensures p.throttle >= 1 ==>
              (p'.throttle >= 1 <==> !(p.workers[i].receivedError && p.withErrors == 1 && p.limit == 0))
    ensures p.workers[i].receivedError && !SomeFails(p'.workers) ==> p'.throttle == p.limit
    ensures p.workers[i].receivedError && SomeFails(p'.workers) ==>
              p'.throttle == if p.throttle < p.limit then p.throttle + 1 else p.throttle
  {
    var w := p.workers[i];
    if !w.receivedError {
      return p;
    }
    SuccessCore(p, i);
    FailsIff(p.workers[i := w.(receivedError := false)]);
    assert 0 < p.withErrors <= |p.workers|;
    p' := p.(workers := p.workers[i := w.(receivedError := false)], withErrors := p.withErrors - 1);
    if p'.withErrors == 0 {
      p' := p'.(throttle := p.limit);
    } else if p.throttle < p.limit {
      p' := p'.(throttle := p.throttle + 1);
    }
  }

  ghost predicate SomeFails(ws: seq<Worker>) {
    exists k :: 0 <= k < |ws| && ws[k].receivedError
  }

  lemma {:induction false} FailsIff(ws: seq<Worker>)
    ensures Errors(ws) > 0 <==> SomeFails(ws)
  {
    if ws != [] {
      FailsIff(ws[1..]);
      if k :| 0 <= k < |ws| && ws[k].receivedError {
        assert k > 0 ==> ws[1..][k - 1].receivedError;
      }
      if k :| 0 <= k < |ws[1..]| && ws[1..][k].receivedError {
        assert ws[k + 1].receivedError;
      }
    }
  }

  lemma SuccessCore(p: Pool, i: nat)
    requires Core(p) && i < |p.workers| && p.workers[i].receivedError
    ensures Core(p.(workers := p.workers[i := p.workers[i].(receivedError := false)], withErrors := p.withErrors - 1))
    ensures 0 < p.withErrors <= |p.workers|
  {
    var w := p.workers[i].(receivedError := false);
    var p' := p.(workers := p.workers[i := w], withErrors := p.withErrors - 1);
    CountsUpdate(p.workers, i, w);
    assert Accounted(p') by {
      AccountedIff(p);
      AccountedIff(p');
      JobsUpdate(p.workers, i, w);
    }
    TallyBounds(p.workers);
  }

  /** A line of a worker's handshake: a process limit, one that is not a number, or anything else. */
  datatype Hello = ProcessLimit(limit: nat) | BadLimit | OtherHello

  /** What the handshake says about the limit; it fails as long as nothing may be created. */
  method ReadHello(p: Pool, hello: Hello) returns (p': Pool, ok: bool)
    requires Inv(p)
    ensures ok == (if hello.ProcessLimit? then hello.limit > 0 else hello.OtherHello? && p.throttle >= 1)
    ensures Inv(p') && p' == if hello.ProcessLimit? then p.(limit := hello.limit, throttle := p'.throttle) else p
    ensures hello.ProcessLimit? ==> p'.throttle == if hello.limit > 0 then hello.limit else p.throttle
  {
    p' := p;
    ok := true;
    if hello.ProcessLimit? {
      p' := p'.(limit := hello.limit);
      if hello.limit == 0 {
        ok := false;
      } else {
        p' := p'.(throttle := hello.limit);
      }
    } else if hello.BadLimit? {
      ok := false;
    }
    if ok && p'.throttle <= 0 {
      ok := false;
    }
  }

  /** A handshake fails and its worker is the last one. */
  ghost predicate StrandsByHello(p: Pool, hello: Hello, connects: bool) {
    && !(if hello.ProcessLimit? then hello.limit > 0 else hello.OtherHello? && p.throttle >= 1)
    && LastLeaves(if hello.ProcessLimit? then p.(limit := hello.limit) else p, true, connects)
  }

  ghost predicate HelloOk(p: Pool, hello: Hello) {
    if hello.ProcessLimit? then hello.limit > 0 else hello.OtherHello? && p.throttle >= 1
  }

  /** Whether requests wait beside room for a worker after a handshake. */
  ghost predicate WastesByHello(p: Pool, hello: Hello, connects: bool, now: int) {
    if !HelloOk(p, hello)
    then Vacates(if hello.ProcessLimit? then p.(limit := hello.limit) else p, true, connects, now)
    else if hello.ProcessLimit? then p.queue != [] && |p.workers| < hello.limit
    else Wasted(p)
  }

  /** auth_worker_handshake_args(); a failed handshake ends the connection. */
  method Handshake(p: Pool, i: nat, hello: Hello, connects: bool, now: int) returns (p': Pool, ok: bool)
    requires Inv(p) && i < |p.workers|
    ensures Inv(p') && p'.submitted == p.submitted && Grows(p, p')
    ensures Stranded(p') <==> StrandsByHello(p, hello, connects)
    ensures Wasted(p') <==> WastesByHello(p, hello, connects, now)
    ensures Finishes(p, p', now)
    ensures ok == (if hello.ProcessLimit? then hello.limit > 0 else hello.OtherHello? && p.throttle >= 1)
    ensures ok ==> p'.throttle >= 1
    ensures p.throttle >= 1 ==> p'.throttle >= 1
    ensures p'.limit == if hello.ProcessLimit? then hello.limit else p.limit
    ensures ok ==> p' == if hello.ProcessLimit? then p.(limit := hello.limit, throttle := hello.limit) else p
    ensures !ok ==> p' == Gone(if hello.ProcessLimit? then p.(limit := hello.limit) else p, i, true, connects, now)
  {
    p', ok := ReadHello(p, hello);
    if !ok {
      if p.workers[i].request.None? {
        IdleWorker(p, i);
      }
      ghost var read := p';
      p' := Deinit(p', i, true, connects, now);
      FinishesNothing(p, read, now);
      FinishesTrans(p, read, p', now);
    } else {
      FinishesNothing(p, p', now);
    }
  }

  // ----- timeouts and pauses

  /** auth_worker_idle_timeout(): one idle worker is kept. */
  method IdleTimeout(p: Pool, i: nat, connects: bool, now: int) returns (p': Pool)
    requires Inv(p) && i < |p.workers| && p.workers[i].timer.IdleTimer?
    ensures Inv(p') && SameLimits(p, p') && (p.idle > 0 ==> p'.idle > 0) && Grows(p, p') && !Stranded(p')
    ensures p' == if p.idle > 1 then Without(p, i) else p
    ensures Wasted(p') <==> Wasted(p)
    ensures Finishes(p, p', now)
  {
    FinishesNothing(p, p, now);
    assert p.workers[i].request.None?;
    p' := p;
    if p.idle > 1 {
      p' := Deinit(p, i, false, connects, now);
    }
  }

  /** The lookup timeout, or the death of the worker process. */
  method Kill(p: Pool, i: nat, connects: bool, now: int) returns (p': Pool)
    requires Inv(p) && i < |p.workers|
    ensures Inv(p') && SameLimits(p, p') && p' == Gone(p, i, true, connects, now) && Grows(p, p')
    ensures Stranded(p') <==> LastLeaves(p, true, connects)
    ensures Wasted(p') <==> Vacates(p, true, connects, now)
    ensures Finishes(p, p', now)
  {
    if p.workers[i].request.None? {
      IdleWorker(p, i);
    }
    p' := Deinit(p, i, true, connects, now);
  }

  /** auth_worker_connection_resume_input() and worker_input_resume() */
  method Resume(p: Pool, i: nat, timer: Timer) returns (p': Pool)
    requires Inv(p) && i < |p.workers| && (timer.PendingResume? || timer.ResumeTimer?)
    ensures Inv(p') && SameLimits(p, p')
    ensures p' == if p.workers[i].request.Some? then p.(workers := p.workers[i := p.workers[i].(timer := timer)]) else p
  {
    p' := p;
    if p.workers[i].request.Some? {
      var w := p.workers[i].(timer := timer);
      FlagsCore(p, i, w);
      p' := p.(workers := p.workers[i := w]);
    }
  }

  /** The SHUTDOWN and RESTART lines. */
  method Mark(p: Pool, i: nat, shutdown: bool) returns (p': Pool)
    requires Inv(p) && i < |p.workers|
    ensures Inv(p') && SameLimits(p, p')
    ensures var w := p.workers[i];
            p' == p.(workers := p.workers[i := if shutdown then w.(shutdown := true) else w.(restart := true)])
  {
    var w := if shutdown then p.workers[i].(shutdown := true) else p.workers[i].(restart := true);
    FlagsCore(p, i, w);
    p' := p.(workers := p.workers[i := w]);
  }

  // ----- whole runs

  datatype Event =
    | ECall
    | EReply(i: nat, id: nat, line: Line)
    | EError(i: nat)
    | ESuccess(i: nat)
    | EMark(i: nat, shutdown: bool)
    | EHandshake(i: nat, hello: Hello)
    | EIdleTimeout(i: nat)
    | EKill(i: nat)                 // lookup timeout or death
    | EResume(i: nat, pending: bool)

  predicate Possible(p: Pool, e: Event) {
    match e
    case ECall => true
    case EIdleTimeout(i) => i < |p.workers| && p.workers[i].timer.IdleTimer?
    case _ => e.i < |p.workers|
  }

  /** The events that leave requests with nobody to take them: a call when there is no worker and none can be
      created, and the last worker leaving without a replacement while requests wait. */
  ghost predicate Strands(p: Pool, e: Event, connects: bool)
    requires Possible(p, e)
  {
    match e
    case ECall => p.workers == [] && !CanCreate(p, connects)
    case EReply(i, id, line) => StrandsByReply(p, i, id, line, connects)
    case EKill(_) => LastLeaves(p, true, connects)
    case EHandshake(_, hello) => StrandsByHello(p, hello, connects)
    case _ => false
  }

  /** Whether requests wait beside room for a worker after an event. */
  ghost predicate Wastes(p: Pool, e: Event, connects: bool, now: int)
    requires Possible(p, e)
  {
    match e
    case ECall => Wasted(p) || (p.queue == [] && p.idle == 0 && Roomy(p) && !connects)
    case EReply(i, id, line) => WastesByReply(p, i, id, line, connects, now)
    case EKill(_) => Vacates(p, true, connects, now)
    case EHandshake(_, hello) => WastesByHello(p, hello, connects, now)
    case EError(i) => if p.workers[i].receivedError then Wasted(p) else p.queue != [] && p.limit == 0
    case ESuccess(i) => p.queue != [] && (p.limit == 0 || |p.workers| < Recovered(p, i))
    case _ => Wasted(p)
  }

  /** The last room is taken, and the worker that leaves it is not replaced although requests wait. */
  ghost predicate LeavesRoom(p: Pool, restart: bool, connects: bool) {
    p.queue != [] && |p.workers| == p.throttle && !(restart && connects)
  }

  /** When it begins: a connection for a new request fails; a worker leaves the last room and is not replaced; the
      limit rises; or the limit becomes zero, which is no limit. */
  ghost predicate Opens(p: Pool, e: Event, connects: bool, now: int)
    requires Possible(p, e)
  {
    match e
    case ECall => p.queue == [] && p.idle == 0 && Roomy(p) && !connects
    case EReply(i, id, line) =>
      AfterReply(p, i, id, line).Some? && LeavesRoom(p, AfterReply(p, i, id, line).value, connects)
    case EKill(_) => LeavesRoom(p, true, connects)
    case EHandshake(_, ProcessLimit(limit)) =>
      p.queue != [] && if limit > 0 then |p.workers| < limit else connects ==> LeftOver(p.queue, now)
    case EHandshake(_, hello) => !HelloOk(p, hello) && LeavesRoom(p, true, connects)
    case ESuccess(i) => p.queue != [] && |p.workers| < Recovered(p, i)
    case _ => false
  }

  /** The code takes waiting requests as a sign that no worker can be created. That is so until one of these events. */
  lemma OpensIff(p: Pool, e: Event, connects: bool, now: int)
    requires Possible(p, e) && !Wasted(p)
    ensures Wastes(p, e, connects, now) <==> Opens(p, e, connects, now)
  {
  }

  method Handle(p: Pool, e: Event, now: int, connects: bool) returns (p': Pool)
    requires Inv(p) && Possible(p, e)
    ensures Inv(p') && p'.submitted == p.submitted + (if e.ECall? then 1 else 0) && Grows(p, p')
    ensures Stranded(p') <==> Stranded(p) || Strands(p, e, connects)
    ensures Stranded(p) ==> p'.started == p.started && p'.completed == p.completed
    ensures Wasted(p') <==> Wastes(p, e, connects, now)
    ensures Finishes(p, p', now)
    // the only step that can take the throttle count to zero
    ensures p.throttle >= 1 && !(e.ESuccess? && p.limit == 0) ==> p'.throttle >= 1
    ensures p'.limit == if e.EHandshake? && e.hello.ProcessLimit? then e.hello.limit else p.limit
  {
    if e.ECall? {
      p' := HandleCall(p, now, connects);
      FinishesNothing(p, p', now);
    } else if e.EReply? {
      p' := Reply(p, e.i, e.id, e.line, connects, now);
    } else if e.EHandshake? {
      var ok;
      p', ok := Handshake(p, e.i, e.hello, connects, now);
    } else {
      p' := HandleOther(p, e, now, connects);
    }
  }

  method HandleCall(p: Pool, now: int, connects: bool) returns (p': Pool)
    requires Inv(p)
    ensures Inv(p') && p'.submitted == p.submitted + 1 && p'.throttle == p.throttle && p'.limit == p.limit
    ensures Grows(p, p')
    ensures Stranded(p') <==> Stranded(p) || (p.workers == [] && !CanCreate(p, connects))
    ensures p'.completed == p.completed
    ensures Stranded(p) ==> p'.started == p.started && p'.completed == p.completed
    ensures Wasted(p') <==> Wasted(p) || (p.queue == [] && p.idle == 0 && Roomy(p) && !connects)
  {
    p' := Call(p, now, connects);
  }

  method HandleOther(p: Pool, e: Event, now: int, connects: bool) returns (p': Pool)
    requires Inv(p) && Possible(p, e) && !e.ECall? && !e.EReply? && !e.EHandshake?
    ensures Inv(p') && p'.submitted == p.submitted && p'.limit == p.limit && Grows(p, p')
    ensures Stranded(p') <==> e.EKill? && LastLeaves(p, true, connects)
    ensures Wasted(p') <==> Wastes(p, e, connects, now)
    ensures Finishes(p, p', now)
    ensures p.throttle >= 1 && !(e.ESuccess? && p.limit == 0) ==> p'.throttle >= 1
  {
    match e {
      case EError(i) =>
        p' := HandleError(p, i, connects, now);
      case ESuccess(i) =>
        p' := HandleSuccess(p, i);
        FinishesNothing(p, p', now);
      case EMark(i, shutdown) =>
        p' := Mark(p, i, shutdown);
        FinishesNothing(p, p', now);
      case EIdleTimeout(i) =>
        p' := IdleTimeout(p, i, connects, now);
      case EKill(i) =>
        p' := Kill(p, i, connects, now);
      case EResume(i, pending) =>
        p' := Resume(p, i, if pending then PendingResume else ResumeTimer);
        FinishesNothing(p, p', now);
    }
  }

  /** The worker pool of the process. */
  class AuthWorkers {
    var p: Pool

    ghost predicate Valid()
      reads this
    {
      Inv(p)
    }

    constructor ()
      ensures Valid() && p == NewPool()
    {
      p := NewPool();
    }

    method Dispatch(e: Event, now: int, connects: bool)
      requires Valid() && Possible(p, e)
      modifies this
      ensures Valid() && p.submitted == old(p.submitted) + (if e.ECall? then 1 else 0) && Grows(old(p), p)
      ensures Stranded(p) <==> old(Stranded(p)) || Strands(old(p), e, connects)
      ensures Wasted(p) <==> Wastes(old(p), e, connects, now)
      ensures Finishes(old(p), p, now)
      ensures old(p.throttle >= 1 && p.limit >= 1) && !(e.EHandshake? && e.hello == ProcessLimit(0)) ==>
                p.throttle >= 1 && p.limit >= 1
    {
      p := Handle(p, e, now, connects);
    }
  }

  /** A run that strands a request: it waits behind the only worker, which shuts down after its last line. */
  method LeftStranded() returns (p: Pool)
    ensures Inv(p) && Stranded(p)
  {
    p := OneWorker();
    p := Call(p, 0, false);
    p := Mark(p, 0, true);
    assert AfterReply(p, 0, 1, Last) == Some(false);
    p := Reply(p, 0, 1, Last, true, 0);
  }

  /** An event with its time, and whether a new worker can be connected to. */
  datatype Input = Input(e: Event, now: int, connects: bool)

  /** One step of a run: the event is handled, or skipped if it cannot happen at its time. */
  ghost predicate StepOf(history: seq<Pool>, inputs: seq<Input>, k: nat)
    requires k < |inputs| && k + 1 < |history|
  {
    var p, p' := history[k], history[k + 1];
    && Inv(p) && Inv(p') && Grows(p, p') && p'.submitted == p.submitted + (if inputs[k].e.ECall? then 1 else 0)
    && if !Possible(p, inputs[k].e) then p' == p
       else && (Stranded(p') <==> Stranded(p) || Strands(p, inputs[k].e, inputs[k].connects))
            && (Stranded(p) ==> p'.started == p.started && p'.completed == p.completed)
            && (Wasted(p') <==> Wastes(p, inputs[k].e, inputs[k].connects, inputs[k].now))
            && Finishes(p, p', inputs[k].now)
  }

  /** Any run: the invariant holds throughout, and what was started and completed stays so. */
  method Run(inputs: seq<Input>) returns (p: Pool, ghost history: seq<Pool>)
    ensures Inv(p) && |history| == |inputs| + 1 && history[0] == NewPool() && history[|inputs|] == p
    ensures forall k: nat :: k < |inputs| ==> StepOf(history, inputs, k)
  {
    p := NewPool();
    history := [p];
    NewPoolInv();
    for n := 0 to |inputs|
      invariant Inv(p) && |history| == n + 1 && history[0] == NewPool() && history[n] == p
      invariant forall k: nat :: k < n ==> StepOf(history, inputs, k)
    {
      var input := inputs[n];
      ghost var before := history;
      if Possible(p, input.e) {
        p := Handle(p, input.e, input.now, input.connects);
      }
      history := history + [p];
      forall k: nat | k < n + 1 ensures StepOf(history, inputs, k) {
        assert k < n ==> StepOf(before, inputs, k);
      }
    }
  }

  /** Once stranded, a pool stays so to the end of the run: nothing is started and nothing completed any more. */
  lemma {:induction false} StrandedForever(history: seq<Pool>, inputs: seq<Input>, k: nat, l: nat)
    requires |history| == |inputs| + 1 && forall m: nat :: m < |inputs| ==> StepOf(history, inputs, m)
    requires k <= l < |history| && Stranded(history[k])
    ensures Stranded(history[l])
    ensures history[l].started == history[k].started && history[l].completed == history[k].completed
    decreases l - k
  {
    if k < l {
      assert StepOf(history, inputs, k);
      StrandedForever(history, inputs, k + 1, l);
    }
  }

  /** A run in which a request waits beside room for a worker: two are busy and no more are allowed, one shuts down
      after its last line, and the other goes on alone. */
  method WaitsBesideRoom() returns (p: Pool)
    ensures Inv(p) && p.queue != [] && p.workers != [] && CanCreate(p, true)
  {
    p := TwoBusy();
    p := Call(p, 0, true);
    p := Mark(p, 0, true);
    assert AfterReply(p, 0, 1, Last) == Some(false);
    p := Reply(p, 0, 1, Last, true, 0);
  }

  method TwoBusy() returns (p: Pool)
    ensures Inv(p) && |p.workers| == 2 && p.queue == [] && p.idle == 0 && p.limit == 2 && p.throttle == 2
    ensures p.workers[0] == Busy(NewWorker(), Request(1, 0, 0))
  {
    p := OneWorker();
    var ok;
    p, ok := Handshake(p, 0, ProcessLimit(2), false, 0);
    ghost var before := p.workers;
    p := Call(p, 0, true);
    TallyOne(p.workers[0]);
    TallyAppend([p.workers[0]], before);
  }

  /** In any state of any run a submitted request is queued, or with exactly one worker, or completed by
      exactly one terminal callback. */
  lemma EveryRequest(p: Pool, job: nat)
    requires Inv(p) && job < p.submitted
    ensures (multiset(p.completed) + Jobs(p.workers))[job] == if job < |p.started| then 1 else 0
    ensures (exists i :: 0 <= i < |p.queue| && p.queue[i].job == job) <==> job >= |p.started|
  {
    AccountedIff(p);
    CountRange(p.started, job);
    if job >= |p.started| {
      assert p.queue[job - |p.started|].job == job;
    }
  }

  lemma {:induction false} CountRange(s: seq<nat>, job: nat)
    requires forall i :: 0 <= i < |s| ==> s[i] == i
    ensures multiset(s)[job] == if job < |s| then 1 else 0
  {
    if s != [] {
      var n := |s| - 1;
      CountRange(s[..n], job);
      assert s == s[..n] + [s[n]];
    }
  }

  /** The promise that the throttle count stays positive after a successful handshake fails when a later
      worker announces a process limit of zero: the recovery of the last failing worker then sets the
      count to zero. A run that does it: two workers, the first fails, the second announces zero and is
      dropped, the first recovers. */
  method ThrottleDropsToZero() returns (handshaken: Pool, after: Pool)
    ensures handshaken.throttle == 5 && after.throttle == 0 && Inv(handshaken) && Inv(after)
  {
    handshaken := OneWorker();
    var p := FailingPair(handshaken);
    p := ZeroLimit(p);
    after := HandleSuccess(p, 0);
  }

  method OneWorker() returns (p: Pool)
    ensures Inv(p) && |p.workers| == 1 && p.queue == [] && p.idle == 0 && p.withErrors == 0 && p.submitted == 1
    ensures p.throttle == 5 && p.limit == 5 && p.workers[0] == Busy(NewWorker(), Request(0, 0, 0))
  {
    NewPoolInv();
    p := Call(NewPool(), 0, true);
    assert p.workers == [Busy(NewWorker(), Request(0, 0, 0))];
    TallyOne(p.workers[0]);
    var ok;
    p, ok := Handshake(p, 0, ProcessLimit(5), false, 0);
  }

  method FailingPair(p: Pool) returns (p': Pool)
    requires Inv(p) && |p.workers| == 1 && p.queue == [] && p.idle == 0 && p.withErrors == 0
    requires p.throttle == 5 && p.limit == 5
    ensures Inv(p') && |p'.workers| == 2 && p'.withErrors == 1
    ensures !p'.workers[0].receivedError && p'.workers[1].receivedError && p'.workers[0].request.Some?
  {
    p' := Call(p, 0, true);
    TallyOne(p.workers[0]);
    assert p.workers == [p.workers[0]];
    assert |p'.workers| == 2 && p'.workers[1] == p.workers[0];
    TallyAppend([p'.workers[0]], p.workers);
    TallyOne(p'.workers[0]);
    assert p'.workers == [p'.workers[0]] + p.workers;
    p' := HandleError(p', 1, true, 0);
  }

  method ZeroLimit(p: Pool) returns (p': Pool)
    requires Inv(p) && |p.workers| == 2 && p.withErrors == 1
    requires !p.workers[0].receivedError && p.workers[1].receivedError && p.workers[0].request.Some?
    ensures Inv(p') && |p'.workers| == 1 && p'.workers[0].receivedError && p'.withErrors == 1 && p'.limit == 0
  {
    var ok;
    p', ok := Handshake(p, 0, ProcessLimit(0), false, 0);
  }
}
