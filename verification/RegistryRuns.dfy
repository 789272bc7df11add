/** Whole runs of the session registry: any sequence of connects and disconnects, started
    from an empty registry.
 */
module RegistryRuns {
  import opened SessionLog
  import opened ConnectLimit

  datatype Event =
    | EConnect(s: Session, kickType: KickType)
    | EDisconnect(pid: nat, user: string, service: string, ip: IpAddr, guid: Guid)
    | EDisconnectPid(pid: nat)

  /** The events at which the code stops at an assert. */
  ghost predicate PanicsAt(r: Registry, e: Event) {
    e.EConnect? && Panics(r, e.s.guid, e.s.pid, e.s.alts)
  }

  ghost function Step(r: Registry, e: Event): Registry {
    match e
    case EConnect(s, k) => Connected(r, s, k)
    case EDisconnect(p, u, sv, ip, g) => Disconnected(r, p, u, sv, ip, g)
    case EDisconnectPid(p) => DisconnectedPid(r, p)
  }

  ghost function Run(es: seq<Event>): Registry {
    if es == [] then Registry([], map[]) else Step(Run(es[..|es| - 1]), es[|es| - 1])
  }

  ghost predicate PanicsIn(es: seq<Event>, i: nat)
    requires i < |es|
  {
    PanicsAt(Run(es[..i]), es[i])
  }

  /** The state after the first n events, none of which panics. */
  ghost predicate Reached(es: seq<Event>, n: nat, r: Registry)
    requires n <= |es|
  {
    r == Run(es[..n]) && forall i: nat :: i < n ==> !PanicsIn(es, i)
  }

  lemma ReachedNext(es: seq<Event>, n: nat, r: Registry)
    requires n < |es| && Reached(es, n, r)
    ensures PanicsAt(r, es[n]) <==> PanicsIn(es, n)
    ensures !PanicsIn(es, n) ==> Reached(es, n + 1, Step(r, es[n]))
  {
    assert es[..n + 1][..n] == es[..n];
  }

  method Apply(limit: ConnectLimit, e: Event) returns (panics: bool)
    requires limit.Valid()
    modifies limit
    ensures panics <==> PanicsAt(old(limit.r), e)
    ensures !panics ==> limit.Valid() && limit.r == Step(old(limit.r), e)
    ensures limit.held == old(limit.held)
  {
    panics := false;
    match e {
      case EConnect(s, k) =>
        panics := limit.Connect(s.pid, s.user, s.service, s.ip, s.guid, k, s.destIp, s.alts);
      case EDisconnect(p, u, sv, ip, g) =>
        limit.Disconnect(p, u, sv, ip, g);
      case EDisconnectPid(p) =>
        limit.DisconnectPid(p);
    }
  }

  /** The class handles the events up to the first that panics. If none does, it has computed exactly the
      reference run and is consistent after it; no other assert or panic was reached. */
  method Replay(es: seq<Event>) returns (limit: ConnectLimit, done: nat)
    ensures fresh(limit) && done <= |es|
    ensures forall i: nat :: i < done ==> !PanicsIn(es, i)
    ensures done < |es| ==> PanicsIn(es, done)
    ensures done == |es| ==> limit.Valid() && limit.r == Run(es)
  {
    limit := new ConnectLimit();
    assert es[..0] == [];
    assert es[..|es|] == es;
    done := 0;
    while done < |es|
      invariant done <= |es| && fresh(limit) && limit.Valid() && Reached(es, done, limit.r)
    {
      ReachedNext(es, done, limit.r);
      var panics := Apply(limit, es[done]);
      if panics {
        return;
      }
      done := done + 1;
    }
  }

  /** CONNECT accepts both process 0 and a repeated field name, and either ends the service. */
  method ConnectPanics() returns (zero: bool, repeated: bool)
    ensures zero && repeated
  {
    var limit := new ConnectLimit();
    zero := limit.Connect(0, "user", "imap", NoIp, 1, KickNone, NoIp, []);
    limit := new ConnectLimit();
    var alts := [("field", "a"), ("field", "b")];
    assert alts[0].0 == alts[1].0;
    repeated := limit.Connect(1, "user", "imap", NoIp, 1, KickNone, NoIp, alts);
  }

  /** The event ends the session. */
  ghost predicate Ends(e: Event, s: Session) {
    match e
    case EConnect(_, _) => false
    case EDisconnect(p, u, sv, ip, g) => Matches(s, p, u, sv, ip, g)
    case EDisconnectPid(p) => s.pid == p
  }

  /** The session was accepted by the i-th event and nothing ended it since. */
  ghost predicate OpenSince(es: seq<Event>, s: Session, i: nat) {
    && i < |es| && es[i].EConnect? && es[i].s == s
    && !Live(Run(es[..i]).log, s.guid)
    && forall j :: i < j < |es| ==> !Ends(es[j], s)
  }

  lemma {:induction false} RunUnique(es: seq<Event>)
    ensures UniqueGuids(Run(es).log)
  {
    if es != [] {
      RunUnique(es[..|es| - 1]);
      StepUnique(Run(es[..|es| - 1]), es[|es| - 1]);
    }
  }

  lemma StepUnique(r: Registry, e: Event)
    requires UniqueGuids(r.log)
    ensures UniqueGuids(Step(r, e).log)
  {
    match e
    case EConnect(s, k) =>
      assert forall i :: 0 <= i < |r.log| ==> r.log[i] in r.log;
    case EDisconnect(p, u, sv, ip, g) =>
      WithoutMember(r.log, g);
    case EDisconnectPid(p) =>
      WithoutPidUnique(r.log, p);
  }

  lemma {:induction false} WithoutPidUnique(log: seq<Session>, pid: nat)
    requires UniqueGuids(log)
    ensures UniqueGuids(WithoutPid(log, pid))
  {
    if log != [] {
      WithoutPidUnique(log[1..], pid);
      WithoutPidMember(log[1..], pid);
      var rest := WithoutPid(log[1..], pid);
      assert forall i :: 0 <= i < |rest| ==> rest[i] in rest;
    }
  }

  /** After one event the live sessions are the old ones that it did not end, and the one it accepted. */
  lemma StepMembers(r: Registry, e: Event, s: Session)
    requires UniqueGuids(r.log)
    ensures s in Step(r, e).log <==>
            (s in r.log && !Ends(e, s)) || (e.EConnect? && e.s == s && !Live(r.log, s.guid))
  {
    match e
    case EConnect(_, _) =>
    case EDisconnect(p, u, sv, ip, g) =>
      WithoutMember(r.log, g);
    case EDisconnectPid(p) =>
      WithoutPidMember(r.log, p);
  }

  /** A session is live after a run exactly if some connect of it was accepted and nothing has ended
      it since. A disconnect whose parameters differ in any way from the session's does not end it. */
  lemma {:induction false} LiveIffOpen(es: seq<Event>, s: Session)
    ensures s in Run(es).log <==> exists i: nat :: OpenSince(es, s, i)
  {
    if es != [] {
      var n := |es| - 1;
      var before := es[..n];
      LiveIffOpen(before, s);
      RunUnique(before);
      StepMembers(Run(before), es[n], s);
      if s in Run(es).log {
        if es[n].EConnect? && es[n].s == s && !Live(Run(before).log, s.guid) {
          assert OpenSince(es, s, n);
        } else {
          var i: nat :| OpenSince(before, s, i);
          assert es[..i] == before[..i];
          assert OpenSince(es, s, i);
        }
      }
      if i: nat :| OpenSince(es, s, i) {
        if i < n {
          assert es[..i] == before[..i];
          assert OpenSince(before, s, i);
          assert !Ends(es[n], s);
        }
      }
    }
  }

  /** The i-th event is a connect of this process that was accepted. */
  ghost predicate Accepted(es: seq<Event>, pid: nat, i: nat)
    requires i < |es|
  {
    es[i].EConnect? && es[i].s.pid == pid && !Live(Run(es[..i]).log, es[i].s.guid)
  }

  ghost predicate Latest(es: seq<Event>, pid: nat, i: nat) {
    i < |es| && Accepted(es, pid, i) && forall j: nat :: i < j < |es| ==> !Accepted(es, pid, j)
  }

  lemma AcceptedPrefix(es: seq<Event>, pid: nat, n: nat, i: nat)
    requires i < n <= |es|
    ensures Accepted(es[..n], pid, i) <==> Accepted(es, pid, i)
  {
    assert es[..n][..i] == es[..i];
  }

  ghost predicate HasSession(log: seq<Session>, pid: nat) {
    exists s :: s in log && s.pid == pid
  }

  /** A process is known as long as it has a live session. */
  lemma StepKnows(r: Registry, e: Event, pid: nat)
    requires UniqueGuids(r.log) && (pid in r.kicks <==> HasSession(r.log, pid))
    ensures pid in Step(r, e).kicks <==> HasSession(Step(r, e).log, pid)
    ensures pid in Step(r, e).kicks && !(e.EConnect? && e.s.pid == pid && !Live(r.log, e.s.guid)) ==>
              pid in r.kicks && Step(r, e).kicks[pid] == r.kicks[pid]
    ensures e.EConnect? && e.s.pid == pid && !Live(r.log, e.s.guid) ==>
              pid in Step(r, e).kicks && Step(r, e).kicks[pid] == e.kickType
  {
    match e
    case EConnect(s, k) =>
      assert s in [s] + r.log;
      if HasSession(r.log, pid) {
        var o :| o in r.log && o.pid == pid;
        assert o in [s] + r.log;
      }
    case EDisconnect(p, u, sv, ip, g) =>
      WithoutKnows(r.log, g, p, pid);
    case EDisconnectPid(p) =>
      WithoutPidMember(r.log, p);
      if HasSession(r.log, pid) && pid != p {
        var o :| o in r.log && o.pid == pid;
        assert o in WithoutPid(r.log, p);
      }
  }

  lemma WithoutKnows(log: seq<Session>, g: Guid, p: nat, pid: nat)
    requires UniqueGuids(log)
    ensures Pick(Without(log, g), OfPid(p)) == [] <==> !HasSession(Without(log, g), p)
    ensures (forall s :: s in log && s.guid == g ==> s.pid == p) && pid != p ==>
              (HasSession(Without(log, g), pid) <==> HasSession(log, pid))
  {
    var rest := Without(log, g);
    WithoutMember(log, g);
    if HasSession(rest, p) {
      var s :| s in rest && s.pid == p;
      PickMember(rest, OfPid(p), s.guid);
    } else {
      PickEmpty(rest, OfPid(p));
    }
    if HasSession(log, pid) && pid != p {
      var s :| s in log && s.pid == pid;
      assert s.guid != g ==> s in rest;
    }
  }

  lemma LatestStays(es: seq<Event>, pid: nat, n: nat, i: nat)
    requires |es| == n + 1 && Latest(es[..n], pid, i) && !Accepted(es, pid, n)
    ensures Latest(es, pid, i)
  {
    AcceptedPrefix(es, pid, n, i);
    forall j: nat | i < j < |es| ensures !Accepted(es, pid, j) {
      if j < n {
        AcceptedPrefix(es, pid, n, j);
      }
    }
  }

  ghost predicate KickTypeOf(es: seq<Event>, pid: nat, k: KickType) {
    exists i: nat :: Latest(es, pid, i) && es[i].kickType == k
  }

  /** The kick type of a process with a live session is that of its latest connect that was accepted. */
  lemma {:induction false} LatestKickType(es: seq<Event>, pid: nat)
    ensures pid in Run(es).kicks <==> HasSession(Run(es).log, pid)
    ensures pid in Run(es).kicks ==> KickTypeOf(es, pid, Run(es).kicks[pid])
  {
    if es != [] {
      var n := |es| - 1;
      LatestKickType(es[..n], pid);
      RunUnique(es[..n]);
      StepKnows(Run(es[..n]), es[n], pid);
      if Accepted(es, pid, n) {
        assert Latest(es, pid, n);
      } else if pid in Run(es).kicks {
        var i: nat :| Latest(es[..n], pid, i) && es[..n][i].kickType == Run(es[..n]).kicks[pid];
        LatestStays(es, pid, n, i);
      }
    }
  }

  /** Disconnecting a session right after connecting it leaves the other sessions as they were. */
  lemma ConnectDisconnect(r: Registry, s: Session, kickType: KickType)
    requires !Live(r.log, s.guid)
    ensures Disconnected(Connected(r, s, kickType), s.pid, s.user, s.service, s.ip, s.guid).log == r.log
  {
    assert s in ([s] + r.log) && Matches(s, s.pid, s.user, s.service, s.ip, s.guid);
    assert ([s] + r.log)[1..] == r.log;
  }

  /** A connect raises the count for its user, IP and protocol by one, unless the session is proxied. */
  lemma ConnectCounts(r: Registry, s: Session, kickType: KickType, k: UserIp)
    requires !Live(r.log, s.guid)
    ensures |Pick(Connected(r, s, kickType).log, OfUserIp(k))| ==
            |Pick(r.log, OfUserIp(k))| + if Tracked(s) && UserIpOf(s) == k then 1 else 0
  {
    PickCons(s, r.log, OfUserIp(k));
  }
}
