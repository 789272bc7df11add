/** Kicking users: a kick walks over the sessions that an iterator returned, signals processes and sends commands
    to them, and waits when too many commands are outstanding.
 */
module KickDriver {
  import opened Options
  import opened SessionLog
  import opened SessionIter

  datatype Action = Kill(pid: nat) | Send(session: IterResult)

  /** A kick: how far its iterator is (`open` until it is closed), what was done for it, and what came of it: whether the
      signals could be sent, and the counts that commands were answered with. */
  datatype Kick = Kick(
    results: seq<IterResult>, idx: nat, open: bool, prevPid: int, refcount: nat, count: nat, actions: seq<Action>,
    kills: seq<bool>, answers: seq<nat>)

  function NewKick(results: seq<IterResult>): Kick {
    Kick(results, 0, true, -1, 0, 0, [], [], [])
  }

  predicate BySocket(r: IterResult) {
    r.kickType == KickAdminSocket || r.kickType == KickSignalWithSocket
  }

  function PidBefore(rs: seq<IterResult>, i: nat): int
    requires i <= |rs|
  {
    if i == 0 then -1 else rs[i - 1].pid
  }

  /** What is done about the i-th result. */
  ghost function ActionsAt(rs: seq<IterResult>, i: nat): seq<Action>
    requires i < |rs|
  {
    match rs[i].kickType
    case KickNone => []
    case KickSignal => if PidBefore(rs, i) == rs[i].pid then [] else [Kill(rs[i].pid)]
    case KickAdminSocket => [Send(rs[i])]
    case KickSignalWithSocket => [Send(rs[i]), Kill(rs[i].pid)]
  }

  ghost function Actions(rs: seq<IterResult>, n: nat): seq<Action>
    requires n <= |rs|
  {
    if n == 0 then [] else Actions(rs, n - 1) + ActionsAt(rs, n - 1)
  }

  // ---- What a finished kick has done ----

  ghost function Kills(actions: seq<Action>, pid: nat): nat {
    if actions == [] then 0
    else Kills(actions[..|actions| - 1], pid) + if actions[|actions| - 1] == Kill(pid) then 1 else 0
  }

  ghost function Sent(actions: seq<Action>): seq<IterResult> {
    if actions == [] then []
    else
      var earlier, last := Sent(actions[..|actions| - 1]), actions[|actions| - 1];
      if last.Send? then earlier + [last.session] else earlier
  }

  /** The sessions among the first n that are kicked through their process's socket. */
  ghost function SocketSessions(rs: seq<IterResult>, n: nat): seq<IterResult>
    requires n <= |rs|
  {
    if n == 0 then []
    else SocketSessions(rs, n - 1) + if BySocket(rs[n - 1]) then [rs[n - 1]] else []
  }

  /** How many of the first n results are of a process and a kick type. */
  ghost function CountOf(rs: seq<IterResult>, n: nat, pid: nat, kickType: KickType): nat
    requires n <= |rs|
  {
    if n == 0 then 0
    else CountOf(rs, n - 1, pid, kickType) + if rs[n - 1].pid == pid && rs[n - 1].kickType == kickType then 1 else 0
  }

  lemma {:induction false} KillsAppend(a: seq<Action>, b: seq<Action>, pid: nat)
    ensures Kills(a + b, pid) == Kills(a, pid) + Kills(b, pid)
  {
    if b == [] {
      assert a + b == a;
    } else {
      var n := |b| - 1;
      KillsAppend(a, b[..n], pid);
      assert (a + b)[..|a| + n] == a + b[..n];
    }
  }

  lemma {:induction false} SentAppend(a: seq<Action>, b: seq<Action>)
    ensures Sent(a + b) == Sent(a) + Sent(b)
  {
    if b == [] {
      assert a + b == a;
    } else {
      var n := |b| - 1;
      SentAppend(a, b[..n]);
      assert (a + b)[..|a| + n] == a + b[..n];
    }
  }

  lemma OneAction(x: Action, pid: nat)
    ensures Kills([x], pid) == if x == Kill(pid) then 1 else 0
    ensures Sent([x]) == if x.Send? then [x.session] else []
  {
    assert [x][..0] == [];
  }

  ghost predicate SignalledAt(rs: seq<IterResult>, i: nat)
    requires i < |rs|
  {
    rs[i].kickType == KickSignalWithSocket || (rs[i].kickType == KickSignal && PidBefore(rs, i) != rs[i].pid)
  }

  lemma KillsAt(rs: seq<IterResult>, i: nat, pid: nat)
    requires i < |rs|
    ensures Kills(ActionsAt(rs, i), pid) == if rs[i].pid == pid && SignalledAt(rs, i) then 1 else 0
  {
    var r := rs[i];
    OneAction(Kill(r.pid), pid);
    OneAction(Send(r), pid);
    if r.kickType == KickSignalWithSocket {
      KillsAppend([Send(r)], [Kill(r.pid)], pid);
      assert [Send(r)] + [Kill(r.pid)] == ActionsAt(rs, i);
    }
  }

  lemma SentAt(rs: seq<IterResult>, i: nat)
    requires i < |rs|
    ensures Sent(ActionsAt(rs, i)) == if BySocket(rs[i]) then [rs[i]] else []
  {
    var r := rs[i];
    OneAction(Kill(r.pid), 0);
    OneAction(Send(r), 0);
    if r.kickType == KickSignalWithSocket {
      SentAppend([Send(r)], [Kill(r.pid)]);
      assert [Send(r)] + [Kill(r.pid)] == ActionsAt(rs, i);
    }
  }

  lemma KillsNext(rs: seq<IterResult>, n: nat, pid: nat)
    requires 0 < n <= |rs|
    ensures Kills(Actions(rs, n), pid) ==
            Kills(Actions(rs, n - 1), pid) + if rs[n - 1].pid == pid && SignalledAt(rs, n - 1) then 1 else 0
  {
    var earlier, last := Actions(rs, n - 1), ActionsAt(rs, n - 1);
    assert Actions(rs, n) == earlier + last;
    KillsAppend(earlier, last, pid);
    KillsAt(rs, n - 1, pid);
  }

  lemma SentNext(rs: seq<IterResult>, n: nat)
    requires 0 < n <= |rs|
    ensures Sent(Actions(rs, n)) == Sent(Actions(rs, n - 1)) + if BySocket(rs[n - 1]) then [rs[n - 1]] else []
  {
    SentAppend(Actions(rs, n - 1), ActionsAt(rs, n - 1));
    SentAt(rs, n - 1);
  }

  /** One command is sent for each session that is kicked through a socket, in the order of the results. */
  lemma {:induction false} OneCommandPerSession(rs: seq<IterResult>, n: nat)
    requires n <= |rs|
    ensures Sent(Actions(rs, n)) == SocketSessions(rs, n)
  {
    if n > 0 {
      OneCommandPerSession(rs, n - 1);
      SentNext(rs, n);
    }
  }

  /** The results of a process have one kick type. */
  ghost predicate OneTypeEach(rs: seq<IterResult>) {
    forall i, j :: 0 <= i < j < |rs| && rs[i].pid == rs[j].pid ==> rs[i].kickType == rs[j].kickType
  }

  /** So it is for the results of the session registry. */
  lemma RegistryResults(rs: seq<IterResult>, log: seq<Session>, kicks: map<nat, KickType>, index: Index,
                        guid: Guid, exceptIp: Option<IpAddr>)
    requires Returns(rs, log, kicks, index, guid, exceptIp)
    ensures OneTypeEach(rs)
  {
    forall i, j | 0 <= i < j < |rs| && rs[i].pid == rs[j].pid ensures rs[i].kickType == rs[j].kickType {
      OneKickType(rs, log, kicks, index, guid, exceptIp, rs[i], rs[j]);
    }
  }

  lemma {:induction false} NoneBefore(rs: seq<IterResult>, n: nat, pid: nat, kickType: KickType)
    requires n <= |rs| && forall i :: 0 <= i < n ==> rs[i].pid != pid || rs[i].kickType != kickType
    ensures CountOf(rs, n, pid, kickType) == 0
  {
    if n > 0 {
      NoneBefore(rs, n - 1, pid, kickType);
    }
  }

  /** A process seen at i - 1 was not seen before a process seen at i. */
  lemma NewPid(rs: seq<IterResult>, i: nat)
    requires Ordered(rs) && i < |rs| && (i > 0 ==> rs[i - 1].pid != rs[i].pid)
    ensures forall j :: 0 <= j < i ==> rs[j].pid != rs[i].pid
  {
    forall j | 0 <= j < i ensures rs[j].pid != rs[i].pid {
      assert j == i - 1 || Before(rs[j], rs[i - 1]);
      assert Before(rs[i - 1], rs[i]);
    }
  }

  lemma SeenPid(rs: seq<IterResult>, i: nat)
    requires OneTypeEach(rs) && 0 < i < |rs| && rs[i - 1].pid == rs[i].pid
    ensures CountOf(rs, i, rs[i].pid, rs[i].kickType) > 0
  {
    assert rs[i - 1].kickType == rs[i].kickType;
  }

  /** A process to be signalled gets one signal, and one more for each session kicked by signal and socket. */
  ghost predicate SignalledRight(rs: seq<IterResult>, n: nat, pid: nat)
    requires n <= |rs|
  {
    Kills(Actions(rs, n), pid) ==
      CountOf(rs, n, pid, KickSignalWithSocket) + if CountOf(rs, n, pid, KickSignal) > 0 then 1 else 0
  }

  ghost function Signalled(rs: seq<IterResult>, n: nat, pid: nat): nat
    requires n <= |rs|
  {
    if n == 0 then 0 else Signalled(rs, n - 1, pid) + if rs[n - 1].pid == pid && SignalledAt(rs, n - 1) then 1 else 0
  }

  lemma {:induction false} KillsSignalled(rs: seq<IterResult>, n: nat, pid: nat)
    requires n <= |rs|
    ensures Kills(Actions(rs, n), pid) == Signalled(rs, n, pid)
  {
    if n > 0 {
      KillsSignalled(rs, n - 1, pid);
      KillsNext(rs, n, pid);
    }
  }

  lemma {:induction false} SignalledOnce(rs: seq<IterResult>, n: nat, pid: nat)
    requires Ordered(rs) && OneTypeEach(rs) && n <= |rs|
    ensures Signalled(rs, n, pid) ==
            CountOf(rs, n, pid, KickSignalWithSocket) + if CountOf(rs, n, pid, KickSignal) > 0 then 1 else 0
  {
    if n > 0 {
      SignalledOnce(rs, n - 1, pid);
      var r := rs[n - 1];
      if r.pid == pid && r.kickType == KickSignal {
        if PidBefore(rs, n - 1) == pid {
          SeenPid(rs, n - 1);
        } else {
          NewPid(rs, n - 1);
          NoneBefore(rs, n - 1, pid, KickSignal);
        }
      }
    }
  }

  lemma EachSignalledOnce(rs: seq<IterResult>, n: nat, pid: nat)
    requires Ordered(rs) && OneTypeEach(rs) && n <= |rs|
    ensures SignalledRight(rs, n, pid)
  {
    KillsSignalled(rs, n, pid);
    SignalledOnce(rs, n, pid);
  }

  // ---- The same in terms of the registry ----

  lemma {:induction false} SocketMembers(rs: seq<IterResult>, n: nat)
    requires n <= |rs|
    ensures forall r :: r in SocketSessions(rs, n) <==> r in rs[..n] && BySocket(r)
  {
    if n > 0 {
      SocketMembers(rs, n - 1);
      assert rs[..n] == rs[..n - 1] + [rs[n - 1]];
    }
  }

  /** Nothing twice. */
  ghost predicate NoRepeats(rs: seq<IterResult>) {
    forall i, j :: 0 <= i < j < |rs| ==> rs[i] != rs[j]
  }

  lemma {:induction false} SocketOnce(rs: seq<IterResult>, n: nat)
    requires Ordered(rs) && n <= |rs|
    ensures NoRepeats(SocketSessions(rs, n))
  {
    if n > 0 {
      SocketOnce(rs, n - 1);
      SocketMembers(rs, n - 1);
      forall i | 0 <= i < n - 1 ensures rs[i] != rs[n - 1] {
        assert Before(rs[i], rs[n - 1]);
      }
    }
  }

  ghost function OfProcess(rs: seq<IterResult>, pid: nat): nat {
    if rs == [] then 0 else OfProcess(rs[..|rs| - 1], pid) + if rs[|rs| - 1].pid == pid then 1 else 0
  }

  lemma {:induction false} SignalPerCommand(rs: seq<IterResult>, n: nat, pid: nat)
    requires n <= |rs| && forall i :: 0 <= i < n && rs[i].pid == pid ==> rs[i].kickType == KickSignalWithSocket
    ensures CountOf(rs, n, pid, KickSignalWithSocket) == OfProcess(SocketSessions(rs, n), pid)
  {
    if n > 0 {
      SignalPerCommand(rs, n - 1, pid);
      var before := SocketSessions(rs, n - 1);
      assert (before + [rs[n - 1]])[..|before|] == before && before + [] == before;
    }
  }

  lemma {:induction false} CountedOf(rs: seq<IterResult>, n: nat, pid: nat, kickType: KickType)
    requires n <= |rs|
    ensures CountOf(rs, n, pid, kickType) > 0 <==>
            exists i :: 0 <= i < n && rs[i].pid == pid && rs[i].kickType == kickType
  {
    if n > 0 {
      CountedOf(rs, n - 1, pid, kickType);
      if rs[n - 1].pid == pid && rs[n - 1].kickType == kickType {
        assert rs[n - 1].pid == pid;
      }
    }
  }

  /** A process has a live session that the kick is after. */
  ghost predicate Targets(log: seq<Session>, index: Index, guid: Guid, exceptIp: Option<IpAddr>, pid: nat) {
    exists s :: s in log && Has(s, index) && Wanted(s, guid, exceptIp) && s.pid == pid
  }

  lemma ResultsOf(rs: seq<IterResult>, log: seq<Session>, kicks: map<nat, KickType>, index: Index,
                  guid: Guid, exceptIp: Option<IpAddr>, pid: nat)
    requires Returns(rs, log, kicks, index, guid, exceptIp)
    ensures forall i :: 0 <= i < |rs| ==> rs[i].pid in kicks && rs[i].kickType == kicks[rs[i].pid]
    ensures Targets(log, index, guid, exceptIp, pid) ==>
              pid in kicks && exists i :: 0 <= i < |rs| && rs[i].pid == pid && rs[i].kickType == kicks[pid]
    ensures (exists i :: 0 <= i < |rs| && rs[i].pid == pid) ==> Targets(log, index, guid, exceptIp, pid)
  {
    forall i | 0 <= i < |rs| ensures rs[i].pid in kicks && rs[i].kickType == kicks[rs[i].pid] {
      assert Sought(rs[i], log, kicks, index, guid, exceptIp);
    }
    if Targets(log, index, guid, exceptIp, pid) {
      var s :| s in log && Has(s, index) && Wanted(s, guid, exceptIp) && s.pid == pid;
      assert ResultFor(s, kicks[pid]) in rs;
    }
    if i :| 0 <= i < |rs| && rs[i].pid == pid {
      assert Sought(rs[i], log, kicks, index, guid, exceptIp);
    }
  }

  /** How often a kick of these live sessions signals a process: once if the process is to be signalled, once per
      command if it is to be signalled with a command, and otherwise, or if the kick is not after it, never. */
  ghost function Signals(sent: seq<IterResult>, log: seq<Session>, kicks: map<nat, KickType>, index: Index,
                         guid: Guid, exceptIp: Option<IpAddr>, pid: nat): nat
  {
    if pid !in kicks || !Targets(log, index, guid, exceptIp, pid) then 0
    else match kicks[pid]
      case KickSignal => 1
      case KickSignalWithSocket => OfProcess(sent, pid)
      case _ => 0
  }

  /** Whatever way a kick of live sessions was suspended and resumed, once it is complete every process was
      signalled as often as it should be, and every session to be kicked through a socket had exactly one command. */
  lemma CompleteMeans(k: Kick, log: seq<Session>, kicks: map<nat, KickType>, index: Index, guid: Guid,
                      exceptIp: Option<IpAddr>)
    requires Complete(k) && Ordered(k.results) && Returns(k.results, log, kicks, index, guid, exceptIp)
    ensures forall pid :: Kills(k.actions, pid) == Signals(Sent(k.actions), log, kicks, index, guid, exceptIp, pid)
    ensures NoRepeats(Sent(k.actions))
    ensures forall s :: s in log && Has(s, index) && Wanted(s, guid, exceptIp) ==>
              s.pid in kicks && (ResultFor(s, kicks[s.pid]) in Sent(k.actions) <==> BySocket(ResultFor(s, kicks[s.pid])))
    ensures forall r :: r in Sent(k.actions) ==> Sought(r, log, kicks, index, guid, exceptIp) && BySocket(r)
  {
    var rs := k.results;
    assert rs[..|rs|] == rs;
    RegistryResults(rs, log, kicks, index, guid, exceptIp);
    OneCommandPerSession(rs, |rs|);
    SocketMembers(rs, |rs|);
    SocketOnce(rs, |rs|);
    forall pid: nat ensures Kills(k.actions, pid) == Signals(Sent(k.actions), log, kicks, index, guid, exceptIp, pid) {
      SignalsRight(rs, log, kicks, index, guid, exceptIp, pid);
    }
  }

  lemma SignalsRight(rs: seq<IterResult>, log: seq<Session>, kicks: map<nat, KickType>, index: Index, guid: Guid,
                     exceptIp: Option<IpAddr>, pid: nat)
    requires Ordered(rs) && Returns(rs, log, kicks, index, guid, exceptIp)
    ensures Kills(Actions(rs, |rs|), pid) ==
            Signals(SocketSessions(rs, |rs|), log, kicks, index, guid, exceptIp, pid)
  {
    RegistryResults(rs, log, kicks, index, guid, exceptIp);
    EachSignalledOnce(rs, |rs|, pid);
    ResultsOf(rs, log, kicks, index, guid, exceptIp, pid);
    CountedOf(rs, |rs|, pid, KickSignal);
    CountedOf(rs, |rs|, pid, KickSignalWithSocket);
    if pid in kicks && kicks[pid] == KickSignalWithSocket {
      SignalPerCommand(rs, |rs|, pid);
    }
  }

  // ---- The driver ----

  /** A kick has done what the results before `idx` ask for. */
  ghost predicate Progress(k: Kick) {
    k.idx <= |k.results| && k.prevPid == PidBefore(k.results, k.idx) && k.actions == Actions(k.results, k.idx)
  }

  ghost function Successes(kills: seq<bool>): nat {
    if kills == [] then 0 else Successes(kills[..|kills| - 1]) + if kills[|kills| - 1] then 1 else 0
  }

  ghost function Sum(counts: seq<nat>): nat {
    if counts == [] then 0 else Sum(counts[..|counts| - 1]) + counts[|counts| - 1]
  }

  /** The number of signals among the actions. */
  ghost function Signalling(actions: seq<Action>): nat {
    if actions == [] then 0 else Signalling(actions[..|actions| - 1]) + if actions[|actions| - 1].Kill? then 1 else 0
  }

  /** The count is the number of signals that could be sent and what the answers add up to; each signal has an outcome,
      and each command an answer or it is outstanding. */
  ghost predicate Accounted(k: Kick) {
    && k.count == Successes(k.kills) + Sum(k.answers)
    && |k.kills| == Signalling(k.actions)
    && |k.answers| + k.refcount == |Sent(k.actions)|
  }

  /** Live kicks: still iterating, or waiting for replies. */
  ghost predicate InProgress(k: Kick) {
    Progress(k) && (!k.open ==> k.idx == |k.results| && k.refcount > 0)
  }

  /** Kicks that are done. */
  ghost predicate Complete(k: Kick) {
    Progress(k) && !k.open && k.refcount == 0 && k.idx == |k.results|
  }

  /** Outstanding commands: all of them, and those of kicks that iterate no more. */
  ghost function Refs(ks: seq<Kick>): nat {
    if ks == [] then 0 else ks[0].refcount + Refs(ks[1..])
  }

  ghost function ClosedRefs(ks: seq<Kick>): nat {
    if ks == [] then 0 else Closed(ks[0]) + ClosedRefs(ks[1..])
  }

  ghost function Closed(k: Kick): nat {
    if k.open then 0 else k.refcount
  }

  ghost predicate AnyOpen(ks: seq<Kick>) {
    exists i :: 0 <= i < |ks| && ks[i].open
  }

  lemma {:induction false} RefsReplace(ks: seq<Kick>, i: nat, k: Kick)
    requires i < |ks|
    ensures Refs(ks[i := k]) == Refs(ks) - ks[i].refcount + k.refcount
    ensures ClosedRefs(ks[i := k]) == ClosedRefs(ks) - Closed(ks[i]) + Closed(k)
  {
    if i == 0 {
      assert ks[i := k][1..] == ks[1..];
    } else {
      RefsReplace(ks[1..], i - 1, k);
      assert ks[i := k][1..] == ks[1..][i - 1 := k];
    }
  }

  lemma {:induction false} RefsRemove(ks: seq<Kick>, i: nat)
    requires i < |ks|
    ensures Refs(ks[..i] + ks[i + 1..]) == Refs(ks) - ks[i].refcount
    ensures ClosedRefs(ks[..i] + ks[i + 1..]) == ClosedRefs(ks) - Closed(ks[i])
  {
    if i == 0 {
      assert ks[..0] + ks[1..] == ks[1..];
    } else {
      RefsRemove(ks[1..], i - 1);
      assert (ks[..i] + ks[i + 1..])[1..] == ks[1..][..i - 1] + ks[1..][i..];
    }
  }

  lemma {:induction false} ClosedAtMost(ks: seq<Kick>)
    ensures ClosedRefs(ks) <= Refs(ks)
  {
    if ks != [] {
      ClosedAtMost(ks[1..]);
    }
  }

  /** If not all outstanding commands are of kicks that iterate no more, one that iterates has some. */
  lemma {:induction false} SomeOpenWaits(ks: seq<Kick>)
    requires ClosedRefs(ks) < Refs(ks)
    ensures exists i :: 0 <= i < |ks| && ks[i].open && ks[i].refcount > 0
  {
    if !(ks[0].open && ks[0].refcount > 0) {
      SomeOpenWaits(ks[1..]);
      var i :| 0 <= i < |ks[1..]| && ks[1..][i].open && ks[1..][i].refcount > 0;
      assert ks[i + 1].open && ks[i + 1].refcount > 0;
    }
  }

  /** The commands that a kick has still to send. */
  ghost function Left(rs: seq<IterResult>, i: nat): nat
    decreases |rs| - i
  {
    if i >= |rs| then 0 else Left(rs, i + 1) + if BySocket(rs[i]) then 1 else 0
  }

  // ---- Resuming all kicks ----

  /** The walk of kick_more() meets a kick that iterates no more, with commands still allowed. */
  ghost predicate Crashes(ks: seq<Kick>, global: nat, max: nat) {
    ks != [] && global < max && (ks[0].open ==> Crashes(ks[1..], global + Left(ks[0].results, ks[0].idx), max))
  }

  lemma CrashesNext(ks: seq<Kick>, global: nat, max: nat)
    requires ks != [] && ks[0].open && global < max
    ensures var global' := global + Left(ks[0].results, ks[0].idx);
            if global' >= max then !Crashes(ks, global, max)
            else Crashes(ks, global, max) == Crashes(ks[1..], global', max)
  {
  }

  /** The commands that the first j kicks have still to send. */
  ghost function LeftBefore(ks: seq<Kick>, j: nat): nat
    requires j <= |ks|
  {
    if j == 0 then 0 else Left(ks[0].results, ks[0].idx) + LeftBefore(ks[1..], j - 1)
  }

  /** Kick j iterates no more, all before it do, and what they have still to send is allowed. */
  ghost predicate Reaches(ks: seq<Kick>, j: nat, global: nat, max: nat)
    requires j < |ks|
  {
    !ks[j].open && (forall i :: 0 <= i < j ==> ks[i].open) && global + LeftBefore(ks, j) < max
  }

  lemma {:induction false} CrashesIff(ks: seq<Kick>, global: nat, max: nat)
    ensures Crashes(ks, global, max) <==> exists j: nat :: j < |ks| && Reaches(ks, j, global, max)
  {
    if ks != [] && ks[0].open {
      var rest, global' := ks[1..], global + Left(ks[0].results, ks[0].idx);
      CrashesIff(rest, global', max);
      if Crashes(ks, global, max) {
        var j: nat :| j < |rest| && Reaches(rest, j, global', max);
        assert ks[j + 1] == rest[j];
        assert forall i :: 0 < i < j + 1 ==> ks[i] == rest[i - 1];
        assert Reaches(ks, j + 1, global, max);
      }
      if j: nat :| j < |ks| && Reaches(ks, j, global, max) {
        assert j > 0;
        assert forall i :: 0 <= i < j - 1 ==> rest[i] == ks[i + 1];
        assert Reaches(rest, j - 1, global', max);
      }
    } else if ks != [] {
      assert global < max ==> Reaches(ks, 0, global, max);
    }
  }

  /** Whether the signals for the results from i up to n could be sent. */
  ghost function Outcomes(rs: seq<IterResult>, i: nat, n: nat, killed: nat -> bool): seq<bool>
    requires i <= n <= |rs|
  {
    if i == n then []
    else Outcomes(rs, i, n - 1, killed) + if SignalledAt(rs, n - 1) then [killed(n - 1)] else []
  }

  lemma {:induction false} SignallingAppend(a: seq<Action>, b: seq<Action>)
    ensures Signalling(a + b) == Signalling(a) + Signalling(b)
  {
    if b == [] {
      assert a + b == a;
    } else {
      var n := |b| - 1;
      SignallingAppend(a, b[..n]);
      assert (a + b)[..|a| + n] == a + b[..n];
    }
  }

  lemma SignallingAt(rs: seq<IterResult>, i: nat)
    requires i < |rs|
    ensures Signalling(ActionsAt(rs, i)) == if SignalledAt(rs, i) then 1 else 0
  {
    var r := rs[i];
    assert [Kill(r.pid)][..0] == [] && [Send(r)][..0] == [];
    assert Signalling([Send(r)]) == 0 && Signalling([Kill(r.pid)]) == 1;
    assert [Send(r), Kill(r.pid)][..1] == [Send(r)];
  }

  lemma SuccessesNext(kills: seq<bool>, b: bool)
    ensures Successes(kills + [b]) == Successes(kills) + if b then 1 else 0
  {
    assert (kills + [b])[..|kills|] == kills;
  }

  lemma SumNext(counts: seq<nat>, n: nat)
    ensures Sum(counts + [n]) == Sum(counts) + n
  {
    assert (counts + [n])[..|counts|] == counts;
  }

  lemma NewAccounted(results: seq<IterResult>)
    ensures Accounted(NewKick(results))
  {
  }

  /** The account after one result. */
  lemma AccountedNext(k: Kick, k': Kick, killed: bool)
    requires Progress(k) && Accounted(k) && k.idx < |k.results| && k'.actions == Actions(k.results, k.idx + 1)
    requires k'.kills == k.kills + if SignalledAt(k.results, k.idx) then [killed] else []
    requires k'.count == k.count + if SignalledAt(k.results, k.idx) && killed then 1 else 0
    requires k'.answers == k.answers && k'.refcount == k.refcount + if BySocket(k.results[k.idx]) then 1 else 0
    ensures Accounted(k')
  {
    var done, last := Actions(k.results, k.idx), ActionsAt(k.results, k.idx);
    assert k'.actions == done + last;
    SignallingAppend(done, last);
    SignallingAt(k.results, k.idx);
    SentNext(k.results, k.idx + 1);
    SuccessesNext(k.kills, killed);
    assert k.kills + [] == k.kills;
  }

  /** The account after an answer. */
  lemma AccountedAnswer(k: Kick, count: nat)
    requires Accounted(k) && k.refcount > 0
    ensures Accounted(Counted(k, count))
  {
    SumNext(k.answers, count);
  }

  ghost function Counted(k: Kick, count: nat): Kick
    requires k.refcount > 0
  {
    k.(refcount := k.refcount - 1, count := k.count + count, answers := k.answers + [count])
  }

  /** A kick after one more result, for which a signal could be sent or not. */
  ghost function Onwards(k: Kick, won: bool): Kick
    requires k.idx < |k.results|
  {
    var r, signalled := k.results[k.idx], SignalledAt(k.results, k.idx);
    k.(idx := k.idx + 1, prevPid := r.pid, actions := k.actions + ActionsAt(k.results, k.idx),
       refcount := k.refcount + (if BySocket(r) then 1 else 0),
       count := k.count + (if signalled && won then 1 else 0),
       kills := k.kills + if signalled then [won] else [])
  }

  /** One round of the loop in kick_user_iter_more(). */
  method KickNext(k: Kick, killed: nat -> bool) returns (k': Kick)
    requires Progress(k) && k.idx < |k.results|
    ensures Progress(k') && k' == Onwards(k, killed(k.idx))
  {
    var r, won := k.results[k.idx], killed(k.idx);
    var count := if won then k.count + 1 else k.count;
    k' := k;
    match r.kickType {
      case KickNone =>
      case KickSignal =>
        if k.prevPid != r.pid {
          k' := k.(actions := k.actions + [Kill(r.pid)], count := count, kills := k.kills + [won]);
        }
      case KickAdminSocket =>
        k' := k.(actions := k.actions + [Send(r)], refcount := k.refcount + 1);
      case KickSignalWithSocket =>
        k' := k.(actions := k.actions + [Send(r), Kill(r.pid)], refcount := k.refcount + 1, count := count,
                 kills := k.kills + [won]);
    }
    k' := k'.(idx := k.idx + 1, prevPid := r.pid);
  }

  /** A kick further on in the same call, where `killed` tells which signals could be sent. */
  ghost predicate Further(k: Kick, k': Kick, killed: nat -> bool) {
    && k'.results == k.results && k.idx <= k'.idx <= |k.results| && k'.open == k.open
    && k.actions <= k'.actions && k.count <= k'.count && k'.answers == k.answers
    && k'.kills == k.kills + Outcomes(k.results, k.idx, k'.idx, killed)
  }

  /** What came of the signals for the results from where the kick was to where it is. */
  ghost predicate Attempted(k: Kick, k': Kick, killed: nat -> bool) {
    && k.idx <= k'.idx <= |k.results| && k'.answers == k.answers
    && k'.kills == k.kills + Outcomes(k.results, k.idx, k'.idx, killed)
  }

  lemma FurtherNext(k: Kick, k1: Kick, killed: nat -> bool)
    requires Further(k, k1, killed) && Progress(k1) && Accounted(k1) && k1.idx < |k.results|
    ensures var k' := Onwards(k1, killed(k1.idx)); Further(k, k', killed) && Accounted(k')
  {
    var k', won := Onwards(k1, killed(k1.idx)), killed(k1.idx);
    AccountedNext(k1, k', won);
    var more := if SignalledAt(k.results, k1.idx) then [won] else [];
    var before := Outcomes(k.results, k.idx, k1.idx, killed);
    assert k.kills + before + more == k.kills + (before + more);
  }

  /** How far the loop of kick_user_iter_more() has got. */
  ghost predicate Ran(k: Kick, global: nat, k': Kick, global': nat, killed: nat -> bool) {
    && Accounted(k') && Further(k, k', killed)
    && global' - global == k'.refcount - k.refcount >= 0
    && global' + Left(k.results, k'.idx) == global + Left(k.results, k.idx)
  }

  lemma RanNext(k: Kick, global: nat, k1: Kick, global1: nat, killed: nat -> bool)
    requires Ran(k, global, k1, global1, killed) && Progress(k1) && k1.idx < |k.results|
    ensures Ran(k, global, Onwards(k1, killed(k1.idx)), global1 + (if BySocket(k1.results[k1.idx]) then 1 else 0), killed)
  {
    FurtherNext(k, k1, killed);
  }

  /** kick_user_iter_more(): goes on until the results or the allowance of outstanding commands run out. */
  method IterMore(k: Kick, global: nat, max: nat, killed: nat -> bool) returns (k': Kick, global': nat, done: bool)
    requires InProgress(k) && Accounted(k) && k.open && global <= max
    ensures Progress(k') && Accounted(k') && Further(k, k'.(open := true), killed)
    ensures global' - global == k'.refcount - k.refcount >= 0 && global' <= max
    ensures done == !k'.open && (done ==> k'.idx == |k.results|) && (!done ==> global' == max)
    ensures done <==> global + Left(k.results, k.idx) < max
    ensures done ==> global' == global + Left(k.results, k.idx)
  {
    k', global', done := k, global, true;
    assert Ran(k, global, k, global, killed);
    while global' < max && k'.idx < |k.results|
      invariant Progress(k') && Ran(k, global, k', global', killed) && global' <= max
      decreases |k.results| - k'.idx
    {
      RanNext(k, global, k', global', killed);
      global' := if BySocket(k'.results[k'.idx]) then global' + 1 else global';
      k' := KickNext(k', killed);
    }
    if global' >= max {
      done := false;
    } else {
      k' := k'.(open := false);
    }
  }

  // ---- Every kick that was started ----

  /** A kick later on: it has the same results, and what was done for it stays done. */
  ghost predicate GoesOn(k: Kick, k': Kick) {
    && k'.results == k.results && k.idx <= k'.idx && k.actions <= k'.actions && k.count <= k'.count
    && k.kills <= k'.kills && k.answers <= k'.answers
    && (k'.open ==> k.open) && (Complete(k) ==> k' == k)
  }

  ghost predicate GoesOnAt(all: seq<Kick>, all': seq<Kick>, j: nat)
    requires j < |all| && j < |all'|
  {
    GoesOn(all[j], all'[j])
  }

  /** The kicks started so far, later on. */
  ghost predicate Extends(all: seq<Kick>, all': seq<Kick>) {
    |all| <= |all'| && forall j: nat :: j < |all| ==> GoesOnAt(all, all', j)
  }

  lemma ExtendsUpdate(all: seq<Kick>, j: nat, k: Kick)
    requires j < |all| && GoesOn(all[j], k)
    ensures Extends(all, all[j := k])
  {
  }

  ghost predicate AccountedAt(all: seq<Kick>, j: nat)
    requires j < |all|
  {
    Accounted(all[j])
  }

  ghost predicate AllAccounted(all: seq<Kick>) {
    forall j: nat :: j < |all| ==> AccountedAt(all, j)
  }

  lemma AccountsPut(all: seq<Kick>, j: nat, k: Kick)
    requires AllAccounted(all) && j < |all| && Accounted(k)
    ensures AllAccounted(all[j := k])
  {
    var all' := all[j := k];
    forall l: nat | l < |all'| ensures AccountedAt(all', l) {
      assert AccountedAt(all, l);
    }
  }

  lemma AccountsNew(all: seq<Kick>, results: seq<IterResult>)
    requires AllAccounted(all)
    ensures AllAccounted(all + [NewKick(results)])
  {
    NewAccounted(results);
    AccountsStart(all, NewKick(results));
  }

  lemma AccountsStart(all: seq<Kick>, k: Kick)
    requires AllAccounted(all) && Accounted(k)
    ensures AllAccounted(all + [k])
  {
    var all' := all + [k];
    forall l: nat | l < |all'| ensures AccountedAt(all', l) {
      assert l < |all| ==> AccountedAt(all, l);
    }
  }

  /** No kick was started in between, and replies given stay so. */
  ghost predicate Later(all: seq<Kick>, finished: seq<Kick>, replies: seq<nat>,
                        all': seq<Kick>, finished': seq<Kick>, replies': seq<nat>)
  {
    |all| == |all'| && Extends(all, all') && finished <= finished' && replies <= replies'
  }

  lemma LaterTrans(a: seq<Kick>, fa: seq<Kick>, ra: seq<nat>, b: seq<Kick>, fb: seq<Kick>, rb: seq<nat>,
                   c: seq<Kick>, fc: seq<Kick>, rc: seq<nat>)
    requires Later(a, fa, ra, b, fb, rb) && Later(b, fb, rb, c, fc, rc)
    ensures Later(a, fa, ra, c, fc, rc)
  {
    forall j: nat | j < |a| ensures GoesOnAt(a, c, j) {
      assert GoesOnAt(a, b, j) && GoesOnAt(b, c, j);
    }
  }

  /** A kick has changed in the list: it leaves it when it is complete. */
  ghost predicate Placed(ks: seq<Kick>, i: nat, k: Kick, ks': seq<Kick>)
    requires i < |ks|
  {
    ks' == if Complete(k) then ks[..i] + ks[i + 1..] else ks[i := k]
  }

  ghost predicate IsKick(all: seq<Kick>, at: seq<nat>, ks: seq<Kick>, i: nat)
    requires i < |at| && i < |ks|
  {
    at[i] < |all| && ks[i] == all[at[i]]
  }

  /** The kicks ks are those started as numbers `at`. */
  ghost predicate AreKicks(all: seq<Kick>, at: seq<nat>, ks: seq<Kick>) {
    |at| == |ks| && forall i: nat :: i < |ks| ==> IsKick(all, at, ks, i)
  }

  ghost predicate Above(at: seq<nat>, i: nat, j: nat)
    requires i < |at| && j < |at|
  {
    at[i] > at[j]
  }

  ghost predicate NewestFirst(at: seq<nat>) {
    forall i: nat, j: nat :: i < j < |at| ==> Above(at, i, j)
  }

  ghost predicate Differ(at: seq<nat>, i: nat, j: nat)
    requires i < |at| && j < |at|
  {
    at[i] != at[j]
  }

  ghost predicate NoneTwice(at: seq<nat>) {
    forall i: nat, j: nat :: i < j < |at| ==> Differ(at, i, j)
  }

  ghost predicate Filed(all: seq<Kick>, listed: seq<nat>, replied: seq<nat>, j: nat)
    requires j < |all|
  {
    if Complete(all[j]) then j in replied && j !in listed else j in listed && j !in replied
  }

  /** Each kick that was started is in the list, newest first, or else complete and replied to once. `listed` and
      `replied` are the numbers of these kicks in the order in which they were started. */
  ghost predicate Ledger(all: seq<Kick>, kicks: seq<Kick>, listed: seq<nat>, finished: seq<Kick>, replied: seq<nat>) {
    && AreKicks(all, listed, kicks) && NewestFirst(listed)
    && AreKicks(all, replied, finished) && NoneTwice(replied)
    && forall j: nat :: j < |all| ==> Filed(all, listed, replied, j)
  }

  lemma LedgerStart(all: seq<Kick>, kicks: seq<Kick>, listed: seq<nat>, finished: seq<Kick>, replied: seq<nat>, k: Kick)
    requires Ledger(all, kicks, listed, finished, replied) && !Complete(k)
    ensures Ledger(all + [k], [k] + kicks, [|all|] + listed, finished, replied)
  {
    var all', kicks', listed' := all + [k], [k] + kicks, [|all|] + listed;
    forall i: nat | i < |kicks'| ensures IsKick(all', listed', kicks', i) {
      assert i > 0 ==> IsKick(all, listed, kicks, i - 1);
    }
    forall i: nat, j: nat | i < j < |listed'| ensures Above(listed', i, j) {
      assert IsKick(all, listed, kicks, j - 1) && (i > 0 ==> Above(listed, i - 1, j - 1));
    }
    forall m: nat | m < |finished| ensures IsKick(all', replied, finished, m) {
      assert IsKick(all, replied, finished, m);
    }
    assert listed'[0] == |all|;
    forall n | n in replied ensures n < |all| {
      var m :| 0 <= m < |replied| && replied[m] == n;
      assert IsKick(all, replied, finished, m);
    }
    forall j: nat | j < |all'| ensures Filed(all', listed', replied, j) {
      assert j < |all| ==> Filed(all, listed, replied, j);
    }
  }

  ghost function Unlisted(at: seq<nat>, i: nat): seq<nat>
    requires i < |at|
  {
    at[..i] + at[i + 1..]
  }

  lemma UnlistedMembers(listed: seq<nat>, i: nat)
    requires NewestFirst(listed) && i < |listed|
    ensures forall l: nat :: l < |listed| && l != i ==> listed[l] != listed[i]
    ensures forall j :: j in Unlisted(listed, i) <==> j in listed && j != listed[i]
  {
    forall l: nat | l < |listed| && l != i ensures listed[l] != listed[i] {
      assert if l < i then Above(listed, l, i) else Above(listed, i, l);
    }
    var rest := Unlisted(listed, i);
    forall j ensures j in rest <==> j in listed && j != listed[i] {
      if l :| 0 <= l < |listed| && listed[l] == j && l != i {
        assert rest[if l < i then l else l - 1] == j;
      }
    }
  }

  lemma UnlistedOrder(listed: seq<nat>, i: nat)
    requires NewestFirst(listed) && i < |listed|
    ensures NewestFirst(Unlisted(listed, i))
  {
    var rest := Unlisted(listed, i);
    forall l: nat, m: nat | l < m < |rest| ensures Above(rest, l, m) {
      assert Above(listed, if l < i then l else l + 1, if m < i then m else m + 1);
    }
  }

  lemma KicksPut(all: seq<Kick>, kicks: seq<Kick>, listed: seq<nat>, i: nat, k: Kick, leaves: bool, kicks': seq<Kick>)
    requires AreKicks(all, listed, kicks) && NewestFirst(listed) && i < |kicks|
    requires kicks' == if leaves then kicks[..i] + kicks[i + 1..] else kicks[i := k]
    ensures listed[i] < |all| && all[listed[i]] == kicks[i]
    ensures AreKicks(all[listed[i] := k], if leaves then Unlisted(listed, i) else listed, kicks')
  {
    assert IsKick(all, listed, kicks, i);
    UnlistedMembers(listed, i);
    var all', listed' := all[listed[i] := k], if leaves then Unlisted(listed, i) else listed;
    forall l: nat | l < |kicks'| ensures IsKick(all', listed', kicks', l) {
      assert IsKick(all, listed, kicks, if leaves && l >= i then l + 1 else l);
    }
  }

  /** The ledger once the i-th kick of the list has changed. */
  lemma LedgerPut(all: seq<Kick>, kicks: seq<Kick>, listed: seq<nat>, finished: seq<Kick>, replied: seq<nat>,
                  i: nat, k: Kick, kicks': seq<Kick>)
    requires Ledger(all, kicks, listed, finished, replied) && i < |kicks| && Placed(kicks, i, k, kicks')
    ensures listed[i] < |all| && all[listed[i]] == kicks[i]
    ensures if Complete(k)
            then Ledger(all[listed[i] := k], kicks', Unlisted(listed, i), finished + [k], replied + [listed[i]])
            else Ledger(all[listed[i] := k], kicks', listed, finished, replied)
  {
    KicksPut(all, kicks, listed, i, k, Complete(k), kicks');
    UnlistedMembers(listed, i);
    UnlistedOrder(listed, i);
    var n := listed[i];
    var all' := all[n := k];
    assert Filed(all, listed, replied, n);
    var finished', replied' := finished, replied;
    if Complete(k) {
      finished', replied' := finished + [k], replied + [n];
    }
    forall m: nat | m < |finished'| ensures IsKick(all', replied', finished', m) {
      assert m < |finished| ==> IsKick(all, replied, finished, m) && replied[m] in replied;
    }
    forall l: nat, m: nat | l < m < |replied'| ensures Differ(replied', l, m) {
      assert m < |replied| ==> Differ(replied, l, m);
      assert l < |replied| ==> replied[l] in replied;
    }
    var listed' := if Complete(k) then Unlisted(listed, i) else listed;
    forall j: nat | j < |all'| ensures Filed(all', listed', replied', j) {
      assert Filed(all, listed, replied, j);
    }
  }

  // ---- What open iterators hold ----

  ghost function HeldBy(ks: seq<Kick>): multiset<string> {
    if ks == [] then multiset{} else Holding(ks[0]) + HeldBy(ks[1..])
  }

  ghost function Holding(k: Kick): multiset<string> {
    if k.open then Services(k.results) else multiset{}
  }

  /** The services of the results of several iterators. */
  ghost function AllServices(rss: seq<seq<IterResult>>): multiset<string> {
    if rss == [] then multiset{} else AllServices(rss[..|rss| - 1]) + Services(rss[|rss| - 1])
  }

  ghost predicate ReleasedOne(ks: seq<Kick>, ks': seq<Kick>, rss: seq<seq<IterResult>>, x: string) {
    HeldBy(ks')[x] + AllServices(rss)[x] == HeldBy(ks)[x]
  }

  /** What the kicks held is what they hold now and what the closed iterators held. */
  ghost predicate Released(ks: seq<Kick>, ks': seq<Kick>, rss: seq<seq<IterResult>>) {
    forall x: string :: ReleasedOne(ks, ks', rss, x)
  }

  lemma ReleasedMeans(ks: seq<Kick>, ks': seq<Kick>, rss: seq<seq<IterResult>>)
    requires Released(ks, ks', rss)
    ensures HeldBy(ks) == HeldBy(ks') + AllServices(rss)
  {
    forall x ensures HeldBy(ks)[x] == (HeldBy(ks') + AllServices(rss))[x] {
      assert ReleasedOne(ks, ks', rss, x);
    }
  }

  lemma {:induction false} HeldPlaced(ks: seq<Kick>, i: nat, k: Kick, ks': seq<Kick>, x: string)
    requires i < |ks| && Placed(ks, i, k, ks')
    ensures HeldBy(ks')[x] + Holding(ks[i])[x] == HeldBy(ks)[x] + Holding(k)[x]
  {
    if i == 0 {
      assert ks' == if Complete(k) then ks[1..] else [k] + ks[1..];
      assert ([k] + ks[1..])[1..] == ks[1..];
    } else {
      var tail := ks[1..];
      var rest := if Complete(k) then tail[..i - 1] + tail[i..] else tail[i - 1 := k];
      assert ks' == [ks[0]] + rest && ks'[1..] == rest;
      HeldPlaced(tail, i - 1, k, rest, x);
    }
  }

  /** A kick that closes its iterator gives back what it held; any other holds what it held. */
  lemma ReleasedPut(ks: seq<Kick>, ks1: seq<Kick>, rss: seq<seq<IterResult>>, i: nat, k: Kick, ks': seq<Kick>)
    requires Released(ks, ks1, rss) && i < |ks1| && Placed(ks1, i, k, ks') && k.results == ks1[i].results
    requires k.open ==> ks1[i].open
    ensures Released(ks, ks', if ks1[i].open && !k.open then rss + [k.results] else rss)
  {
    var rss' := if ks1[i].open && !k.open then rss + [k.results] else rss;
    assert (rss + [k.results])[..|rss|] == rss;
    forall x ensures ReleasedOne(ks, ks', rss', x) {
      assert ReleasedOne(ks, ks1, rss, x);
      HeldPlaced(ks1, i, k, ks', x);
    }
  }

  lemma NoneReleased(ks: seq<Kick>)
    ensures Released(ks, ks, [])
  {
  }

  ghost predicate RepliedTo(finished: seq<Kick>, replies: seq<nat>, i: nat)
    requires i < |finished| && i < |replies|
  {
    Complete(finished[i]) && replies[i] == finished[i].count
  }

  ghost predicate AllReplied(finished: seq<Kick>, replies: seq<nat>) {
    |finished| == |replies| && forall i: nat :: i < |finished| ==> RepliedTo(finished, replies, i)
  }

  lemma RepliesNext(finished: seq<Kick>, replies: seq<nat>, k: Kick)
    requires AllReplied(finished, replies) && Complete(k)
    ensures AllReplied(finished + [k], replies + [k.count])
  {
    var finished', replies' := finished + [k], replies + [k.count];
    forall i: nat | i < |finished'| ensures RepliedTo(finished', replies', i) {
      assert i < |finished| ==> RepliedTo(finished, replies, i);
    }
  }

  ghost predicate LiveAt(kicks: seq<Kick>, i: nat)
    requires i < |kicks|
  {
    InProgress(kicks[i])
  }

  ghost predicate AllLive(kicks: seq<Kick>) {
    forall i: nat :: i < |kicks| ==> LiveAt(kicks, i)
  }

  lemma LivePut(kicks: seq<Kick>, i: nat, k: Kick, kicks': seq<Kick>)
    requires AllLive(kicks) && i < |kicks| && Placed(kicks, i, k, kicks') && (InProgress(k) || Complete(k))
    ensures AllLive(kicks')
  {
    forall l: nat | l < |kicks'| ensures LiveAt(kicks', l) {
      assert LiveAt(kicks, if Complete(k) && l >= i then l + 1 else l);
    }
  }

  lemma LiveStart(kicks: seq<Kick>, k: Kick)
    requires AllLive(kicks) && InProgress(k)
    ensures AllLive([k] + kicks)
  {
    var kicks' := [k] + kicks;
    forall l: nat | l < |kicks'| ensures LiveAt(kicks', l) {
      assert l > 0 ==> LiveAt(kicks, l - 1);
    }
  }

  /** All books of the driver. */
  ghost predicate Booked(all: seq<Kick>, kicks: seq<Kick>, listed: seq<nat>, finished: seq<Kick>, replied: seq<nat>,
                         replies: seq<nat>)
  {
    Ledger(all, kicks, listed, finished, replied) && AllAccounted(all) && AllReplied(finished, replies)
  }

  lemma BookedPut(all: seq<Kick>, kicks: seq<Kick>, listed: seq<nat>, finished: seq<Kick>, replied: seq<nat>,
                  replies: seq<nat>, i: nat, k: Kick, kicks': seq<Kick>)
    requires Booked(all, kicks, listed, finished, replied, replies)
    requires i < |kicks| && Placed(kicks, i, k, kicks') && Accounted(k)
    ensures i < |listed| && listed[i] < |all| && all[listed[i]] == kicks[i]
    ensures if Complete(k)
            then Booked(all[listed[i] := k], kicks', Unlisted(listed, i), finished + [k], replied + [listed[i]],
                        replies + [k.count])
            else Booked(all[listed[i] := k], kicks', listed, finished, replied, replies)
  {
    LedgerPut(all, kicks, listed, finished, replied, i, k, kicks');
    AccountsPut(all, listed[i], k);
    if Complete(k) {
      RepliesNext(finished, replies, k);
    }
  }

  class Driver {
    const max: nat                    // anvil_max_kick_connections
    var global: nat                   // anvil_global_kick_count
    var kicks: seq<Kick>
    var resume: bool                  // to_kick
    var replies: seq<nat>
    ghost var finished: seq<Kick>
    ghost var all: seq<Kick>          // all kicks started, in that order
    ghost var listed: seq<nat>        // the numbers of the kicks in the list, and of the finished ones
    ghost var replied: seq<nat>

    ghost predicate Sound()
      reads this
    {
      && global == Refs(kicks) && global <= max
      && AllLive(kicks) && (max > 0 ==> ClosedRefs(kicks) < max)
      && Booked(all, kicks, listed, finished, replied, replies)
    }

    /** A kick that still iterates will be resumed: a resume is pending, or the answer to a command of a kick that
        iterates, which will cause one, is outstanding. */
    ghost predicate Valid()
      reads this
    {
      Sound() && (AnyOpen(kicks) && max > 0 ==> resume || ClosedRefs(kicks) < global)
    }

    constructor (max: nat)
      ensures Valid() && this.max == max && kicks == [] && finished == [] && global == 0 && !resume && replies == []
      ensures all == [] && listed == [] && replied == []
    {
      this.max, global, kicks, resume, replies, finished := max, 0, [], false, [], [];
      all, listed, replied := [], [], [];
    }

    /** kick_user_iter(): a new kick, at the front of the list. */
    method Start(results: seq<IterResult>, killed: nat -> bool) returns (k: Kick)
      requires Valid()
      modifies this
      ensures Valid() && k.results == results && resume == old(resume)
      ensures k.open <==> old(global) + Left(results, 0) >= max
      ensures global == old(global) + k.refcount == if k.open then max else old(global) + Left(results, 0)
      ensures if Complete(k) then kicks == old(kicks) && finished == old(finished) + [k]
              else kicks == [k] + old(kicks) && finished == old(finished)
      ensures all == old(all) + [k] && Attempted(NewKick(results), k, killed) && Accounted(k)
    {
      ghost var before := kicks;
      Push(results);
      k := More(0, killed);
      assert kicks == if Complete(k) then before else [k] + before;
      StartedOpen(before, k, kicks);
    }

    /** The new kick, before it has done anything. */
    method Push(results: seq<IterResult>)
      requires Sound()
      modifies this`kicks, this`all, this`listed
      ensures Sound() && kicks == [NewKick(results)] + old(kicks) && ClosedRefs(kicks) == old(ClosedRefs(kicks))
      ensures all == old(all) + [NewKick(results)] && listed == [old(|all|)] + old(listed)
    {
      LiveStart(kicks, NewKick(results));
      LedgerStart(all, kicks, listed, finished, replied, NewKick(results));
      AccountsNew(all, results);
      assert ([NewKick(results)] + kicks)[1..] == kicks;
      kicks, all, listed := [NewKick(results)] + kicks, all + [NewKick(results)], [|all|] + listed;
    }

    /** A kick goes on where it was suspended. */
    method More(i: nat, killed: nat -> bool) returns (k: Kick)
      requires Sound() && i < |kicks| && kicks[i].open
      modifies this
      ensures Sound() && resume == old(resume)
      ensures k.results == old(kicks[i]).results && k.idx >= old(kicks[i]).idx && (InProgress(k) || Complete(k))
      ensures k.open <==> old(global + Left(kicks[i].results, kicks[i].idx)) >= max
      ensures global == old(global) + k.refcount - old(kicks[i]).refcount
      ensures global == if k.open then max else old(global + Left(kicks[i].results, kicks[i].idx))
      ensures ClosedRefs(kicks) == old(ClosedRefs(kicks)) + Closed(k)
      ensures Put(i, k) && GoesOn(old(kicks[i]), k) && Attempted(old(kicks[i]), k, killed) && Accounted(k)
    {
      var done;
      var global';
      assert IsKick(all, listed, kicks, i) && AccountedAt(all, listed[i]) && LiveAt(kicks, i);
      k, global', done := IterMore(kicks[i], global, max, killed);
      RefsReplace(kicks, i, k);
      ClosedAtMost(kicks[i := k]);
      Store(i, k, global');
    }

    /** The list after a kick has changed: it leaves the list, and is replied to, when it is complete. */
    twostate predicate Put(i: nat, k: Kick)
      requires i < |old(kicks)|
      reads this
    {
      && Placed(old(kicks), i, k, kicks)
      && finished == old(finished) + (if Complete(k) then [k] else [])
      && replies == old(replies) + (if Complete(k) then [k.count] else [])
      && i < |old(listed)| && old(listed)[i] < |old(all)| && all == old(all)[old(listed)[i] := k]
      && listed == if Complete(k) then Unlisted(old(listed), i) else old(listed)
    }

    /** kick_user_finished() when there is nothing left to wait for. */
    method Store(i: nat, k: Kick, global': nat)
      requires Sound() && i < |kicks| && (InProgress(k) || Complete(k)) && Accounted(k)
      requires global' == global - kicks[i].refcount + k.refcount && global' <= max
      requires max > 0 ==> ClosedRefs(kicks) - Closed(kicks[i]) + Closed(k) < max
      modifies this`global, this`kicks, this`finished, this`replies, this`all, this`listed, this`replied
      ensures Sound() && global == global' && Put(i, k)
      ensures ClosedRefs(kicks) == old(ClosedRefs(kicks) - Closed(kicks[i])) + Closed(k)
    {
      global := global';
      ghost var j := listed[i];
      LivePut(kicks, i, k, if Complete(k) then kicks[..i] + kicks[i + 1..] else kicks[i := k]);
      BookedPut(all, kicks, listed, finished, replied, replies, i, k,
                if Complete(k) then kicks[..i] + kicks[i + 1..] else kicks[i := k]);
      all := all[j := k];
      if !k.open && k.refcount == 0 {
        RefsRemove(kicks, i);
        kicks := kicks[..i] + kicks[i + 1..];
        finished, listed, replied := finished + [k], Unlisted(listed, i), replied + [j];
        replies := replies + [k.count];
      } else {
        RefsReplace(kicks, i, k);
        kicks := kicks[i := k];
      }
    }

    /** kick_user_callback(): a command was answered; `count` is what the reply says, or 0 if it failed. */
    method Callback(i: nat, count: nat)
      requires Valid() && i < |kicks| && kicks[i].refcount > 0
      modifies this
      ensures Valid() && global == old(global) - 1 && resume == (old(resume) || old(kicks[i]).open)
      ensures Put(i, Counted(old(kicks[i]), count))
      ensures Later(old(all), old(finished), old(replies), all, finished, replies) && Released(old(kicks), kicks, [])
    {
      var k := kicks[i];
      RefsReplace(kicks, i, k.(refcount := 0));
      ghost var before, all', j := kicks, all, listed[i];
      assert IsKick(all, listed, kicks, i) && AccountedAt(all, listed[i]) && LiveAt(kicks, i);
      AccountedAnswer(k, count);
      var k' := k.(refcount := k.refcount - 1, count := k.count + count, answers := k.answers + [count]);
      assert IsKick(all, listed, kicks, i);
      Store(i, k', global - 1);
      ExtendsUpdate(all', j, k');
      NoneReleased(before);
      ReleasedPut(before, before, [], i, k', kicks);
      if k.open {
        resume := true;
      } else {
        SameOpen(before, i, kicks);
      }
    }

    /** kick_more(): every kick goes on where it was, newest first, until one is suspended again. A kick that iterates
        no more and is reached is an error: its iterator is gone. `closed` are the iterators that came to their end;
        the first m kicks were visited, and are the first n now unless they are complete. */
    method KickMore(walk: nat -> nat -> bool)
      returns (crashed: bool, closed: seq<seq<IterResult>>, ghost m: nat, ghost n: nat)
      requires Valid() && resume
      modifies this
      ensures crashed <==> exists j: nat :: j < |old(kicks)| && Reaches(old(kicks), j, old(global), max)
      ensures !crashed ==> Valid() && !resume && (global == max || !AnyOpen(kicks))
      ensures Later(old(all), old(finished), old(replies), all, finished, replies)
      ensures m <= |old(kicks)| && Halted(kicks, n, old(kicks)[m..]) && Record(old(kicks), old(listed), all, walk, m)
      ensures Released(old(kicks), kicks, closed)
    {
      CrashesIff(kicks, global, max);
      resume := false;
      ghost var todo, crashes := kicks, Crashes(kicks, global, max);
      var i: nat, round: nat := 0, 0;
      crashed, closed, m, n := false, [], 0, 0;
      RecordStart(kicks, listed, all, walk);
      NoneReleased(kicks);
      while i < |kicks|
        invariant Sound() && !resume && !crashed && Walked(kicks, i, todo)
        invariant Crashes(todo, global, max) == crashes
        invariant m <= |old(kicks)| && todo == old(kicks)[m..] && n == i && round == m
        invariant Visits(listed, i, all, old(kicks), old(listed), walk, m)
        invariant Later(old(all), old(finished), old(replies), all, finished, replies)
        invariant Released(old(kicks), kicks, closed)
        decreases |kicks| - i
      {
        if global >= max {
          return;
        }
        if !kicks[i].open {
          crashed := true;
          return;
        }
        ghost var all', finished', replies' := all, finished, replies;
        var open;
        open, i, closed := Resume(i, walk(round), closed, todo, old(kicks), old(listed), walk, m);
        LaterTrans(old(all), old(finished), old(replies), all', finished', replies', all, finished, replies);
        assert todo[1..] == old(kicks)[m + 1..];
        m := m + 1;
        if open {
          n := n + 1;
          return;
        }
        n := i;
        todo, round := todo[1..], round + 1;
      }
    }

    /** The walk goes on with kick i, and then to the kick after it. */
    method Resume(i: nat, killed: nat -> bool, closed: seq<seq<IterResult>>, ghost todo: seq<Kick>,
                  ghost start: seq<Kick>, ghost numbers: seq<nat>, ghost walk: nat -> nat -> bool, ghost m: nat)
      returns (open: bool, i': nat, closed': seq<seq<IterResult>>)
      requires Sound() && i < |kicks| && kicks[i].open && global < max && Walked(kicks, i, todo)
      requires Released(start, kicks, closed)
      requires m < |start| && todo == start[m..] && killed == walk(m) && NewestFirst(numbers)
      requires Visits(listed, i, all, start, numbers, walk, m)
      modifies this
      ensures if open then Record(start, numbers, all, walk, m + 1)
              else Visits(listed, i', all, start, numbers, walk, m + 1)
      ensures Sound() && resume == old(resume)
      ensures open ==> global == max && !Crashes(todo, old(global), max)
      ensures open ==> Halted(kicks, i + 1, todo[1..])
      ensures !open ==> Walked(kicks, i', todo[1..]) && |kicks| - i' == old(|kicks|) - i - 1
      ensures !open ==> SameFate(todo, old(global), todo[1..], global, max)
      ensures Later(old(all), old(finished), old(replies), all, finished, replies)
      ensures Released(start, kicks, closed')
    {
      ghost var before, global', all', j, listed' := kicks, global, all, listed[i], listed;
      assert IsKick(all, listed, kicks, i);
      var k := More(i, killed);
      closed' := if k.open then closed else closed + [k.results];
      ExtendsUpdate(all', j, k);
      ReleasedPut(start, before, closed, i, k, kicks);
      WalkedNext(before, i, todo, k, kicks, global', global, max);
      VisitsNext(listed', i, all', start, numbers, walk, m, k, listed);
      return k.open, if k.refcount > 0 then i + 1 else i, closed';
    }
  }

  ghost predicate Unvisited(listed: seq<nat>, i: nat, start: seq<nat>, m: nat) {
    i <= |listed| && m <= |start| && listed[i..] == start[m..]
  }

  ghost predicate RecordAt(kicks: seq<Kick>, listed: seq<nat>, all: seq<Kick>, walk: nat -> nat -> bool, m: nat, p: nat)
    requires p < |kicks| && p < |listed|
  {
    && listed[p] < |all|
    && if p < m then Attempted(kicks[p], all[listed[p]], walk(p)) else all[listed[p]] == kicks[p]
  }

  /** A walk has visited the first m of these kicks; `walk` tells for each which signals could be sent. */
  ghost predicate Record(kicks: seq<Kick>, listed: seq<nat>, all: seq<Kick>, walk: nat -> nat -> bool, m: nat) {
    |kicks| == |listed| && forall p: nat :: p < |kicks| ==> RecordAt(kicks, listed, all, walk, m, p)
  }

  lemma RecordStart(kicks: seq<Kick>, listed: seq<nat>, all: seq<Kick>, walk: nat -> nat -> bool)
    requires AreKicks(all, listed, kicks)
    ensures Record(kicks, listed, all, walk, 0)
  {
    forall p: nat | p < |kicks| ensures RecordAt(kicks, listed, all, walk, 0, p) {
      assert IsKick(all, listed, kicks, p);
    }
  }

  lemma RecordNext(kicks: seq<Kick>, listed: seq<nat>, all: seq<Kick>, walk: nat -> nat -> bool, m: nat, k: Kick)
    requires Record(kicks, listed, all, walk, m) && m < |kicks| && NewestFirst(listed)
    requires listed[m] < |all| && Attempted(kicks[m], k, walk(m))
    ensures Record(kicks, listed, all[listed[m] := k], walk, m + 1)
  {
    var all', next := all[listed[m] := k], m + 1;
    forall p: nat | p < |kicks| ensures RecordAt(kicks, listed, all', walk, next, p) {
      assert RecordAt(kicks, listed, all, walk, m, p);
      assert p < m ==> Above(listed, p, m);
      assert m < p ==> Above(listed, m, p);
    }
  }

  /** The walk is at position i of the list, and has visited the first m kicks that were there. */
  ghost predicate Visits(listed: seq<nat>, i: nat, all: seq<Kick>, kicks: seq<Kick>, numbers: seq<nat>,
                         walk: nat -> nat -> bool, m: nat)
  {
    Record(kicks, numbers, all, walk, m) && Unvisited(listed, i, numbers, m)
  }

  lemma VisitsNext(listed: seq<nat>, i: nat, all: seq<Kick>, kicks: seq<Kick>, numbers: seq<nat>,
                   walk: nat -> nat -> bool, m: nat, k: Kick, listed': seq<nat>)
    requires Visits(listed, i, all, kicks, numbers, walk, m) && NewestFirst(numbers)
    requires i < |listed| && m < |kicks| && listed[i] < |all| && Attempted(kicks[m], k, walk(m))
    requires listed' == if Complete(k) then Unlisted(listed, i) else listed
    ensures Record(kicks, numbers, all[listed[i] := k], walk, m + 1)
    ensures Unvisited(listed', if Complete(k) then i else i + 1, numbers, m + 1)
  {
    assert listed[i] == listed[i..][0] == numbers[m];
    RecordNext(kicks, numbers, all, walk, m, k);
    assert listed[i..][1..] == numbers[m..][1..];
    assert Unlisted(listed, i)[i..] == listed[i + 1..];
  }

  /** The first i kicks iterate no more, and the others are still to be resumed. */
  ghost predicate Walked(ks: seq<Kick>, i: nat, todo: seq<Kick>) {
    i <= |ks| && ks[i..] == todo && forall j :: 0 <= j < i ==> !ks[j].open
  }

  /** The walk has stopped after n kicks, of which only the last may still iterate; the others are as before. */
  ghost predicate Halted(ks: seq<Kick>, n: nat, rest: seq<Kick>) {
    n <= |ks| && ks[n..] == rest && forall j :: 0 <= j < n - 1 ==> !ks[j].open
  }

  ghost predicate SameFate(ks: seq<Kick>, global: nat, ks': seq<Kick>, global': nat, max: nat) {
    Crashes(ks, global, max) == Crashes(ks', global', max)
  }

  lemma WalkedNext(before: seq<Kick>, i: nat, todo: seq<Kick>, k: Kick, ks: seq<Kick>,
                   global: nat, global': nat, max: nat)
    requires Walked(before, i, todo) && i < |before| && before[i].open && global < max
    requires Placed(before, i, k, ks) && (InProgress(k) || Complete(k))
    requires k.open <==> global + Left(before[i].results, before[i].idx) >= max
    requires k.open || global' == global + Left(before[i].results, before[i].idx)
    ensures k.open ==> !Crashes(todo, global, max) && Halted(ks, i + 1, todo[1..])
    ensures !k.open ==>
              && Walked(ks, if k.refcount > 0 then i + 1 else i, todo[1..])
              && |ks| - (if k.refcount > 0 then i + 1 else i) == |before| - i - 1
              && SameFate(todo, global, todo[1..], global', max)
  {
    assert todo[0] == before[i];
    CrashesNext(todo, global, max);
    if k.open {
      assert todo[1..] == before[i + 1..] == ks[i + 1..];
    } else {
      var next := if k.refcount > 0 then i + 1 else i;
      assert todo[1..] == before[i + 1..] == ks[next..];
    }
  }

  lemma StartedOpen(before: seq<Kick>, k: Kick, ks: seq<Kick>)
    requires if Complete(k) then ks == before else ks == [k] + before
    ensures !k.open ==> (AnyOpen(ks) <==> AnyOpen(before))
  {
    if !Complete(k) && !k.open {
      if i :| 0 <= i < |before| && before[i].open {
        assert ks[i + 1].open;
      }
      if i :| 0 <= i < |ks| && ks[i].open {
        assert before[i - 1].open;
      }
    }
  }

  lemma SameOpen(before: seq<Kick>, i: nat, ks: seq<Kick>)
    requires i < |before| && !before[i].open
    requires ks == before[..i] + before[i + 1..] || (|ks| == |before| && !ks[i].open && ks == before[i := ks[i]])
    ensures AnyOpen(ks) ==> AnyOpen(before)
  {
    if j :| 0 <= j < |ks| && ks[j].open {
      assert ks[j] == before[j] || ks[j] == before[j + 1];
    }
  }

  /** A kick that has sent all its commands is still waiting for an answer when an older one is resumed. */
  method ResumeCrashes() returns (crashed: bool)
    ensures crashed
  {
    var d := Suspended();
    var rs := [IterResult(KickAdminSocket, 1, "imap", "other", 4)];
    assert Left(rs, 1) == 0 && Left(rs, 0) == 1;
    ghost var before := d.kicks;
    var newer := d.Start(rs, _ => true);
    assert d.kicks == [newer] + before && !newer.open;
    assert Reaches(d.kicks, 0, d.global, d.max);
    var closed;
    ghost var m, n;
    crashed, closed, m, n := d.KickMore(_ => _ => true);
  }

  /** A suspended kick whose commands were all answered. */
  method Suspended() returns (d: Driver)
    ensures fresh(d) && d.Valid() && d.resume && d.max == 2 && d.global == 0
  {
    d := new Driver(2);
    var r := IterResult(KickAdminSocket, 1, "imap", "user", 1);
    var rs := [r, r.(guid := 2), r.(guid := 3)];
    assert Left(rs, 3) == 0 && Left(rs, 2) == 1 && Left(rs, 1) == 2 && Left(rs, 0) == 3;
    var k := d.Start(rs, _ => true);
    assert k.open && d.kicks[0] == k && k.refcount == 2;
    d.Callback(0, 1);
    assert d.kicks[0].open && d.kicks[0].refcount == 1;
    d.Callback(0, 1);
  }
}
