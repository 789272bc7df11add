/** Whole runs of kicks, together with the session registry whose sessions they are after. */
module KickRuns {
  import opened Options
  import opened SessionLog
  import opened SessionIter
  import opened KickDriver
  import C = ConnectLimit
  import R = RegistryRuns

  /** What a kick is after: some of the sessions that were live when it was started. */
  datatype Origin = Origin(log: seq<Session>, kicks: map<nat, KickType>, index: Index, guid: Guid,
                           exceptIp: Option<IpAddr>)

  ghost predicate From(rs: seq<IterResult>, o: Origin) {
    Ordered(rs) && Returns(rs, o.log, o.kicks, o.index, o.guid, o.exceptIp)
  }

  ghost predicate FromAt(all: seq<Kick>, origins: seq<Origin>, j: nat)
    requires j < |all| && j < |origins|
  {
    From(all[j].results, origins[j])
  }

  ghost predicate Traced(all: seq<Kick>, origins: seq<Origin>) {
    |all| == |origins| && forall j: nat :: j < |all| ==> FromAt(all, origins, j)
  }

  lemma TracedStart(all: seq<Kick>, origins: seq<Origin>, k: Kick, o: Origin)
    requires Traced(all, origins) && From(k.results, o)
    ensures Traced(all + [k], origins + [o])
  {
    forall j: nat | j < |all| + 1 ensures FromAt(all + [k], origins + [o], j) {
      assert j < |all| ==> FromAt(all, origins, j);
    }
  }

  lemma TracedLater(all: seq<Kick>, origins: seq<Origin>, all': seq<Kick>)
    requires Traced(all, origins) && Extends(all, all') && |all| == |all'|
    ensures Traced(all', origins)
  {
    forall j: nat | j < |all'| ensures FromAt(all', origins, j) {
      assert FromAt(all, origins, j) && GoesOnAt(all, all', j);
    }
  }

  /** What a complete kick has done: each process was signalled as often as it should be, and each wanted session to
      be kicked through a socket, and nobody else, was sent one command. */
  ghost predicate Served(k: Kick, o: Origin) {
    && (forall pid ::
          Kills(k.actions, pid) == Signals(Sent(k.actions), o.log, o.kicks, o.index, o.guid, o.exceptIp, pid))
    && NoRepeats(Sent(k.actions))
    && (forall s :: s in o.log && Has(s, o.index) && Wanted(s, o.guid, o.exceptIp) ==>
          && s.pid in o.kicks
          && (ResultFor(s, o.kicks[s.pid]) in Sent(k.actions) <==> BySocket(ResultFor(s, o.kicks[s.pid]))))
    && (forall r :: r in Sent(k.actions) ==> Sought(r, o.log, o.kicks, o.index, o.guid, o.exceptIp) && BySocket(r))
  }

  /** The j-th kick started has its one reply, number m. */
  ghost predicate RepliedAs(replied: seq<nat>, j: nat, m: nat) {
    m < |replied| && replied[m] == j && forall n :: 0 <= n < |replied| && n != m ==> replied[n] != j
  }

  /** The number replied: the signals that could be sent and what the answers say, where each signal counts once and
      each command has one answer. */
  ghost predicate RepliedNumber(k: Kick, reply: nat) {
    && reply == Successes(k.kills) + Sum(k.answers)
    && |k.kills| == Signalling(k.actions) && |k.answers| == |Sent(k.actions)|
  }

  /** A kick still waits in the list, or it is complete, has one reply with the right number, and has done what it was
      started for. */
  ghost predicate Settled(all: seq<Kick>, kicks: seq<Kick>, replies: seq<nat>, replied: seq<nat>,
                          origins: seq<Origin>, j: nat)
    requires j < |all| && |all| == |origins| && |replied| == |replies|
  {
    if Complete(all[j])
    then && Served(all[j], origins[j])
         && exists m: nat :: RepliedAs(replied, j, m) && RepliedNumber(all[j], replies[m])
    else all[j] in kicks
  }

  /** So it is for each kick that was ever started. */
  lemma EveryKick(all: seq<Kick>, kicks: seq<Kick>, listed: seq<nat>, finished: seq<Kick>, replied: seq<nat>,
                  replies: seq<nat>, origins: seq<Origin>, j: nat)
    requires Booked(all, kicks, listed, finished, replied, replies) && Traced(all, origins) && j < |all|
    ensures |replied| == |replies| && Settled(all, kicks, replies, replied, origins, j)
  {
    assert Filed(all, listed, replied, j);
    if Complete(all[j]) {
      assert FromAt(all, origins, j);
      var o := origins[j];
      CompleteMeans(all[j], o.log, o.kicks, o.index, o.guid, o.exceptIp);
      var m: nat :| m < |replied| && replied[m] == j;
      assert IsKick(all, replied, finished, m) && RepliedTo(finished, replies, m) && AccountedAt(all, j);
      forall n: nat | n < |replied| && n != m ensures replied[n] != j {
        assert if n < m then Differ(replied, n, m) else Differ(replied, m, n);
      }
      assert RepliedAs(replied, j, m) && RepliedNumber(all[j], replies[m]);
    } else {
      var i: nat :| i < |listed| && listed[i] == j;
      assert IsKick(all, listed, kicks, i);
    }
  }

  datatype Event =
    | Registry(e: R.Event)
    | KickUser(user: string, guid: Guid, killed: nat -> bool)
    | KickAltUser(field: string, value: string, exceptIp: Option<IpAddr>, killed: nat -> bool)
    | Answer(i: nat, count: nat)
    | Resume(walk: nat -> nat -> bool)

  class Anvil {
    const limit: C.ConnectLimit
    const d: Driver
    ghost var origins: seq<Origin>    // of all kicks started

    /** Registry and kicks are consistent, and the strings that the registry holds for iterators are those of the
        kicks that still iterate. */
    ghost predicate Valid()
      reads this, limit, d
    {
      limit.Valid() && d.Valid() && limit.held == HeldBy(d.kicks) && Traced(d.all, origins)
    }

    constructor (max: nat)
      ensures Valid() && fresh(limit) && fresh(d) && d.max == max && Now() == Start()
    {
      limit := new C.ConnectLimit();
      d := new Driver(max);
      origins := [];
    }

    ghost function Now(): Moment
      reads this, limit, d
    {
      Moment(limit.r, d.kicks, d.listed, d.all, origins, d.resume, d.global)
    }

    /** kick_user_iter(): the strings are given back at once if the kick comes to its end. */
    method Begin(rs: seq<IterResult>, killed: nat -> bool, ghost o: Origin)
      requires limit.Valid() && d.Valid() && limit.held == HeldBy(d.kicks) + Services(rs)
      requires Traced(d.all, origins) && From(rs, o)
      modifies this, limit, d
      ensures Valid() && limit.r == old(limit.r) && origins == old(origins) + [o]
      ensures Started(old(d.all), old(d.finished), rs, killed)
    {
      var open := StartKick(rs, killed, o);
      if !open {
        GiveBack(limit.held, HeldBy(d.kicks), rs);
        limit.IterDeinit(rs);
      }
    }

    method StartKick(rs: seq<IterResult>, killed: nat -> bool, ghost o: Origin) returns (open: bool)
      requires d.Valid() && Traced(d.all, origins) && From(rs, o)
      modifies this, d
      ensures d.Valid() && Traced(d.all, origins) && origins == old(origins) + [o]
      ensures HeldBy(d.kicks) == old(HeldBy(d.kicks)) + if open then Services(rs) else multiset{}
      ensures Started(old(d.all), old(d.finished), rs, killed)
    {
      ghost var ks, all := d.kicks, d.all;
      var k := d.Start(rs, killed);
      HeldStart(ks, k);
      TracedStart(all, origins, k, o);
      origins := origins + [o];
      open := k.open;
    }

    /** One more kick, with these results. */
    ghost predicate Started(all: seq<Kick>, finished: seq<Kick>, rs: seq<IterResult>, killed: nat -> bool)
      reads d
    {
      && NewLast(all, d.all, killed) && d.all[|all|].results == rs && finished <= d.finished
    }

    /** The kicks started before are as they were or further, and finished ones and origins stay. */
    ghost predicate Kept(all: seq<Kick>, finished: seq<Kick>, earlier: seq<Origin>)
      reads this, d
    {
      Extends(all, d.all) && finished <= d.finished && earlier <= origins
    }

    /** A connect, a disconnect or the end of a process; kicks that are under way are not affected. */
    method Registered(x: R.Event) returns (panics: bool)
      requires Valid()
      modifies limit
      ensures panics <==> R.PanicsAt(old(limit.r), x)
      ensures !panics ==> Valid() && limit.r == R.Step(old(limit.r), x)
      ensures Kept(d.all, d.finished, origins)
    {
      panics := R.Apply(limit, x);
      ExtendsStart(d.all, d.all);
    }

    /** kick_user() */
    method UserKicked(user: string, guid: Guid, killed: nat -> bool)
      requires Valid()
      modifies this, limit, d
      ensures Valid() && limit.r == old(limit.r) && Kept(old(d.all), old(d.finished), old(origins))
      ensures origins == old(origins) + [Origin(limit.r.log, limit.r.kicks, OfUser(user), guid, None)]
      ensures NewLast(old(d.all), d.all, killed)
    {
      ghost var all, o := d.all, Origin(limit.r.log, limit.r.kicks, OfUser(user), guid, None);
      var rs := limit.IterBegin(user, guid);
      Begin(rs, killed, o);
      ExtendsStart(all, d.all);
    }

    /** kick_alt_user() */
    method AltUserKicked(field: string, value: string, exceptIp: Option<IpAddr>, killed: nat -> bool)
      requires Valid()
      modifies this, limit, d
      ensures Valid() && limit.r == old(limit.r) && Kept(old(d.all), old(d.finished), old(origins))
      ensures origins == old(origins) + [Origin(limit.r.log, limit.r.kicks, OfAlt(field, value), 0, exceptIp)]
      ensures NewLast(old(d.all), d.all, killed)
    {
      ghost var all, o := d.all, Origin(limit.r.log, limit.r.kicks, OfAlt(field, value), 0, exceptIp);
      var rs := limit.IterBeginAltUsername(field, value, exceptIp);
      Begin(rs, killed, o);
      ExtendsStart(all, d.all);
    }

    /** kick_user_callback() */
    method Answered(i: nat, count: nat)
      requires Valid() && i < |d.kicks| && d.kicks[i].refcount > 0
      modifies d
      ensures Valid() && Later(old(d.all), old(d.finished), old(d.replies), d.all, d.finished, d.replies)
      ensures Kept(old(d.all), old(d.finished), origins)
      ensures Effect(Answer(i, count), old(d.kicks), old(d.listed), old(d.all), d.all)
    {
      ghost var ks, all := d.kicks, d.all;
      d.Callback(i, count);
      ReleasedMeans(ks, d.kicks, []);
      TracedLater(all, origins, d.all);
    }

    /** kick_more(); the iterators that came to their end are closed after the walk. */
    method Resumed(walk: nat -> nat -> bool) returns (crashed: bool)
      requires Valid() && d.resume
      modifies limit, d
      ensures crashed <==> old(Crashing())
      ensures !crashed ==> Valid() && limit.r == old(limit.r) && !d.resume && (d.global == d.max || !AnyOpen(d.kicks))
      ensures Later(old(d.all), old(d.finished), old(d.replies), d.all, d.finished, d.replies)
      ensures Kept(old(d.all), old(d.finished), origins)
      ensures Effect(Resume(walk), old(d.kicks), old(d.listed), old(d.all), d.all)
    {
      ghost var ks, all := d.kicks, d.all;
      var closed;
      ghost var m, n;
      crashed, closed, m, n := d.KickMore(walk);
      if !crashed {
        ReleasedMeans(ks, d.kicks, closed);
        CloseAll(limit, closed, HeldBy(d.kicks));
        TracedLater(all, origins, d.all);
      }
    }

    /** The walk over the kicks would meet one whose iterator is closed. */
    ghost predicate Crashing()
      reads d
    {
      exists j: nat :: j < |d.kicks| && Reaches(d.kicks, j, d.global, d.max)
    }

    predicate Possible(e: Event)
      reads d
    {
      match e
      case Answer(i, _) => i < |d.kicks| && d.kicks[i].refcount > 0
      case Resume(_) => d.resume
      case _ => true
    }

    /** The events at which the process stops at an assert or with an error. */
    ghost predicate Stops(e: Event)
      reads d, limit
    {
      match e
      case Registry(x) => R.PanicsAt(limit.r, x)
      case Resume(_) => Crashing()
      case _ => false
    }

    method Handle(e: Event) returns (stops: bool)
      requires Valid() && Possible(e)
      modifies this, limit, d
      ensures stops <==> old(Stops(e))
      ensures !stops ==> Valid() && Kept(old(d.all), old(d.finished), old(origins))
      ensures !stops ==> limit.r == if e.Registry? then R.Step(old(limit.r), e.e) else old(limit.r)
      ensures !stops ==> origins == old(origins) + OriginOf(old(limit.r), e)
      ensures !stops ==> Effect(e, old(d.kicks), old(d.listed), old(d.all), d.all)
    {
      stops := false;
      match e {
        case Registry(x) =>
          stops := Registered(x);
        case KickUser(user, guid, killed) =>
          UserKicked(user, guid, killed);
        case KickAltUser(field, value, exceptIp, killed) =>
          AltUserKicked(field, value, exceptIp, killed);
        case Answer(i, count) =>
          Answered(i, count);
        case Resume(walk) =>
          stops := Resumed(walk);
      }
    }
  }

  /** A kick was started, and has tried the signals up to where it is. */
  ghost predicate NewLast(all: seq<Kick>, all': seq<Kick>, killed: nat -> bool) {
    && |all'| == |all| + 1 && all'[..|all|] == all
    && Attempted(NewKick(all'[|all|].results), all'[|all|], killed)
  }

  /** What an event does to the kicks: an answer is counted for its kick, and kicks go on with signals as they could be
      sent. */
  ghost predicate Effect(e: Event, kicks: seq<Kick>, listed: seq<nat>, all: seq<Kick>, all': seq<Kick>) {
    match e
    case Registry(_) => all' == all
    case KickUser(_, _, killed) => NewLast(all, all', killed)
    case KickAltUser(_, _, _, killed) => NewLast(all, all', killed)
    case Answer(i, count) =>
      && i < |kicks| && kicks[i].refcount > 0 && i < |listed| && listed[i] < |all|
      && all' == all[listed[i] := Counted(kicks[i], count)]
    case Resume(walk) => exists m: nat :: Record(kicks, listed, all', walk, m)
  }

  datatype Moment = Moment(
    r: C.Registry, kicks: seq<Kick>, listed: seq<nat>, all: seq<Kick>, origins: seq<Origin>, resume: bool, global: nat)

  ghost function Start(): Moment {
    Moment(C.Registry([], map[]), [], [], [], [], false, 0)
  }

  ghost predicate MayHappen(m: Moment, e: Event) {
    match e
    case Answer(i, _) => i < |m.kicks| && m.kicks[i].refcount > 0
    case Resume(_) => m.resume
    case _ => true
  }

  /** The event stops the process: the registry panics, or a walk over the kicks meets a closed iterator. */
  ghost predicate Halts(m: Moment, max: nat, e: Event) {
    && MayHappen(m, e)
    && match e
       case Registry(x) => R.PanicsAt(m.r, x)
       case Resume(_) => exists j: nat :: j < |m.kicks| && Reaches(m.kicks, j, m.global, max)
       case _ => false
  }

  /** An event that is possible has its effect; any other is skipped. */
  ghost predicate Happens(m: Moment, e: Event, m': Moment) {
    if MayHappen(m, e) then
      && m'.r == (if e.Registry? then R.Step(m.r, e.e) else m.r) && m'.origins == m.origins + OriginOf(m.r, e)
      && Effect(e, m.kicks, m.listed, m.all, m'.all) && Extends(m.all, m'.all)
    else m' == m
  }

  /** What the kick that the event starts, if it starts one, is after. */
  ghost function OriginOf(r: C.Registry, e: Event): seq<Origin> {
    match e
    case KickUser(user, guid, _) => [Origin(r.log, r.kicks, OfUser(user), guid, None)]
    case KickAltUser(field, value, exceptIp, _) => [Origin(r.log, r.kicks, OfAlt(field, value), 0, exceptIp)]
    case _ => []
  }

  lemma ExtendsStart(all: seq<Kick>, all': seq<Kick>)
    requires |all| <= |all'| && all'[..|all|] == all
    ensures Extends(all, all')
  {
    forall j: nat | j < |all| ensures GoesOnAt(all, all', j) {
      assert all'[j] == all'[..|all|][j];
    }
  }

  /** The first n iterators are still to be closed. */
  ghost predicate Holds(held: multiset<string>, rest: multiset<string>, closed: seq<seq<IterResult>>, n: nat)
    requires n <= |closed|
  {
    held == rest + AllServices(closed[..n])
  }

  lemma HoldsLess(held: multiset<string>, rest: multiset<string>, closed: seq<seq<IterResult>>, n: nat)
    requires n < |closed| && Holds(held, rest, closed, n + 1)
    ensures Services(closed[n]) <= held && Holds(held - Services(closed[n]), rest, closed, n)
  {
    assert closed[..n + 1][..n] == closed[..n];
    GiveBack(held, rest + AllServices(closed[..n]), closed[n]);
  }

  method CloseAll(limit: C.ConnectLimit, closed: seq<seq<IterResult>>, ghost rest: multiset<string>)
    requires limit.Valid() && limit.held == rest + AllServices(closed)
    modifies limit
    ensures limit.Valid() && limit.held == rest && limit.r == old(limit.r)
  {
    var n := |closed|;
    assert closed[..n] == closed;
    while n > 0
      invariant n <= |closed| && limit.Valid() && limit.r == old(limit.r) && Holds(limit.held, rest, closed, n)
    {
      n := n - 1;
      HoldsLess(limit.held, rest, closed, n);
      limit.IterDeinit(closed[n]);
    }
  }

  /** What happens at the k-th event of a run. */
  ghost predicate StepOf(history: seq<Moment>, es: seq<Event>, k: nat)
    requires k + 1 < |history| && k < |es|
  {
    Happens(history[k], es[k], history[k + 1])
  }

  /** The moments before and after each of the first n events. */
  ghost predicate Recorded(history: seq<Moment>, es: seq<Event>, n: nat, now: Moment)
    requires n <= |es|
  {
    && |history| == n + 1 && history[0] == Start() && history[n] == now
    && forall k: nat :: k < n ==> StepOf(history, es, k)
  }

  lemma RecordedNext(history: seq<Moment>, es: seq<Event>, n: nat, now: Moment, next: Moment)
    requires n < |es| && Recorded(history, es, n, now) && Happens(now, es[n], next)
    ensures Recorded(history + [next], es, n + 1, next)
  {
    var longer := history + [next];
    forall k: nat | k < n + 1 ensures StepOf(longer, es, k) {
      assert k < n ==> StepOf(history, es, k);
    }
  }

  ghost function RegistryEvents(es: seq<Event>): seq<R.Event> {
    if es == [] then []
    else
      var rest, e := RegistryEvents(es[..|es| - 1]), es[|es| - 1];
      if e.Registry? then rest + [e.e] else rest
  }

  /** Kicks leave no trace in the registry. */
  lemma {:induction false} RegistryAlone(history: seq<Moment>, es: seq<Event>, n: nat, now: Moment)
    requires n <= |es| && Recorded(history, es, n, now)
    ensures now.r == R.Run(RegistryEvents(es[..n]))
  {
    if n > 0 {
      var before := history[..n];
      forall k: nat | k < n - 1 ensures StepOf(before, es, k) {
        assert StepOf(history, es, k);
      }
      RegistryAlone(before, es, n - 1, history[n - 1]);
      assert StepOf(history, es, n - 1);
      assert es[..n][..n - 1] == es[..n - 1];
      var rs := RegistryEvents(es[..n - 1]);
      if es[n - 1].Registry? {
        assert (rs + [es[n - 1].e])[..|rs|] == rs;
      }
    }
  }

  /** Any run of registry events, kicks, answers and resumes, up to the first event that stops the process; events that
      are not possible at their time are skipped. */
  method Run(max: nat, es: seq<Event>) returns (a: Anvil, done: nat, ghost history: seq<Moment>)
    ensures done <= |es| && |history| == done + 1 && Recorded(history, es, done, history[done])
    ensures done < |es| ==> Halts(history[done], max, es[done])
    ensures done == |es| ==> a.Valid() && a.Now() == history[done]
    ensures done == |es| ==> |a.d.replied| == |a.d.replies| && |a.origins| == |a.d.all|
    ensures done == |es| ==>
              forall j: nat :: j < |a.d.all| ==> Settled(a.d.all, a.d.kicks, a.d.replies, a.d.replied, a.origins, j)
  {
    a := new Anvil(max);
    done, history := 0, [Start()];
    while done < |es|
      invariant done <= |es| && fresh(a) && fresh(a.limit) && fresh(a.d) && a.Valid() && a.d.max == max
      invariant Recorded(history, es, done, a.Now())
    {
      ghost var before := a.Now();
      var stops := Next(a, es[done]);
      if stops {
        return;
      }
      RecordedNext(history, es, done, before, a.Now());
      history, done := history + [a.Now()], done + 1;
    }
    EveryKickOf(a);
  }

  lemma EveryKickOf(a: Anvil)
    requires a.Valid()
    ensures |a.d.replied| == |a.d.replies| && |a.origins| == |a.d.all|
    ensures forall j: nat :: j < |a.d.all| ==> Settled(a.d.all, a.d.kicks, a.d.replies, a.d.replied, a.origins, j)
  {
    forall j: nat | j < |a.d.all| ensures Settled(a.d.all, a.d.kicks, a.d.replies, a.d.replied, a.origins, j) {
      EveryKick(a.d.all, a.d.kicks, a.d.listed, a.d.finished, a.d.replied, a.d.replies, a.origins, j);
    }
  }

  method Next(a: Anvil, e: Event) returns (stops: bool)
    requires a.Valid()
    modifies a, a.limit, a.d
    ensures stops <==> Halts(old(a.Now()), a.d.max, e)
    ensures !stops ==> a.Valid() && Happens(old(a.Now()), e, a.Now())
  {
    stops := false;
    if a.Possible(e) {
      stops := a.Handle(e);
    }
  }

  lemma GiveBack(held: multiset<string>, rest: multiset<string>, rs: seq<IterResult>)
    requires held == rest + Services(rs)
    ensures Services(rs) <= held && held - Services(rs) == rest
  {
  }

  lemma HeldStart(ks: seq<Kick>, k: Kick)
    ensures HeldBy([k] + ks) == Holding(k) + HeldBy(ks)
  {
    assert ([k] + ks)[1..] == ks;
  }
}
