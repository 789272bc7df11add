/** The reference view of the anvil session registry: one list of live sessions,
    newest first. Every index the registry keeps is described as `Pick(log, index)`,
    the GUIDs of the live sessions that belong to the index, newest first.
 */
module SessionLog {
  /** A connection GUID: 128 bits, ordered as memcmp() orders its bytes. */
  type Guid = g: int | 0 <= g < 0x1_0000_0000_0000_0000_0000_0000_0000_0000

  /** An IP address; NoIp is family 0. */
  datatype IpAddr = NoIp | Ip4(bits4: nat) | Ip6(bits6: nat)

  datatype KickType = KickNone | KickSignal | KickAdminSocket | KickSignalWithSocket

  /** What a caller supplied when it connected. */
  datatype Session = Session(
    guid: Guid, pid: nat, user: string, service: string, ip: IpAddr, destIp: IpAddr,
    alts: seq<(string, string)>)

  datatype UserIp = UserIp(user: string, protocol: string, ip: IpAddr)

  /** The service name up to its first '-'. */
  function Protocol(service: string): string {
    if service == "" || service[0] == '-' then "" else [service[0]] + Protocol(service[1..])
  }

  lemma {:induction false} ProtocolIsPrefix(service: string)
    ensures Protocol(service) <= service && '-' !in Protocol(service)
    ensures |Protocol(service)| < |service| ==> service[|Protocol(service)|] == '-'
  {
    if service != "" && service[0] != '-' {
      ProtocolIsPrefix(service[1..]);
    }
  }

  /** Proxied sessions are not counted towards the user+IP limit. */
  predicate Tracked(s: Session) {
    s.destIp.NoIp?
  }

  function UserIpOf(s: Session): UserIp {
    UserIp(s.user, Protocol(s.service), s.ip)
  }

  /** The ways in which live sessions are grouped. */
  datatype Index =
    | OfUser(user: string)
    | OfPid(pid: nat)
    | OfUserIp(userip: UserIp)
    | OfField(name: string)
    | OfAlt(field: string, value: string)
    | OfService(service: string)
    | OfUntracked(protocol: string)

  ghost predicate Has(s: Session, index: Index) {
    match index
    case OfUser(u) => s.user == u
    case OfPid(p) => s.pid == p
    case OfUserIp(k) => Tracked(s) && UserIpOf(s) == k
    case OfField(n) => HasField(s, n)
    case OfAlt(n, v) => (n, v) in s.alts
    case OfService(x) => s.service == x
    case OfUntracked(p) => !Tracked(s) && Protocol(s.service) == p
  }

  ghost predicate HasField(s: Session, name: string) {
    exists a :: a in s.alts && a.0 == name
  }

  /** One connect may name each alternative-username field only once. */
  ghost predicate DistinctNames(alts: seq<(string, string)>) {
    forall i, j :: 0 <= i < j < |alts| ==> alts[i].0 != alts[j].0
  }

  /** The GUIDs of the sessions in `index`, in list order. */
  ghost function Pick(log: seq<Session>, index: Index): seq<Guid> {
    if log == [] then []
    else if Has(log[0], index) then [log[0].guid] + Pick(log[1..], index)
    else Pick(log[1..], index)
  }

  ghost predicate UniqueGuids(log: seq<Session>) {
    forall i, j :: 0 <= i < j < |log| ==> log[i].guid != log[j].guid
  }

  ghost predicate Live(log: seq<Session>, g: Guid) {
    exists s :: s in log && s.guid == g
  }

  /** The list without the session that has this GUID. */
  ghost function Without(log: seq<Session>, g: Guid): seq<Session> {
    if log == [] then []
    else if log[0].guid == g then log[1..]
    else [log[0]] + Without(log[1..], g)
  }

  /** The list without any session of this process. */
  ghost function WithoutPid(log: seq<Session>, pid: nat): seq<Session> {
    if log == [] then []
    else if log[0].pid == pid then WithoutPid(log[1..], pid)
    else [log[0]] + WithoutPid(log[1..], pid)
  }

  /** Unlinking one element of a doubly linked list. */
  function Unlink(list: seq<Guid>, g: Guid): (r: seq<Guid>) {
    if list == [] then []
    else if list[0] == g then list[1..]
    else [list[0]] + Unlink(list[1..], g)
  }

  // ----- lemmas

  lemma PickCons(s: Session, log: seq<Session>, index: Index)
    ensures Pick([s] + log, index) == if Has(s, index) then [s.guid] + Pick(log, index) else Pick(log, index)
  {
    assert ([s] + log)[1..] == log;
  }

  lemma {:induction false} PickMember(log: seq<Session>, index: Index, g: Guid)
    ensures g in Pick(log, index) <==> exists s :: s in log && s.guid == g && Has(s, index)
  {
    if log != [] {
      PickMember(log[1..], index, g);
      assert forall s :: s in log <==> s == log[0] || s in log[1..];
    }
  }

  /** A session appears at most once in an index. */
  lemma {:induction false} PickUnique(log: seq<Session>, index: Index)
    requires UniqueGuids(log)
    ensures forall i, j :: 0 <= i < j < |Pick(log, index)| ==> Pick(log, index)[i] != Pick(log, index)[j]
  {
    if log != [] {
      assert UniqueGuids(log[1..]);
      PickUnique(log[1..], index);
      PickMember(log[1..], index, log[0].guid);
    }
  }

  lemma PickEmpty(log: seq<Session>, index: Index)
    ensures Pick(log, index) == [] <==> forall s :: s in log ==> !Has(s, index)
  {
    if log != [] {
      PickEmpty(log[1..], index);
      assert forall s :: s in log <==> s == log[0] || s in log[1..];
    }
  }

  lemma {:induction false} WithoutMember(log: seq<Session>, g: Guid)
    requires UniqueGuids(log)
    ensures UniqueGuids(Without(log, g))
    ensures forall s :: s in Without(log, g) <==> s in log && s.guid != g
    ensures |Without(log, g)| == if Live(log, g) then |log| - 1 else |log|
  {
    if log != [] {
      assert UniqueGuids(log[1..]);
      WithoutMember(log[1..], g);
      assert forall s :: s in log <==> s == log[0] || s in log[1..];
      var rest := Without(log[1..], g);
      assert forall i :: 0 <= i < |rest| ==> rest[i] in log[1..];
      if log[0].guid != g {
        assert Without(log, g) == [log[0]] + rest;
        assert Live(log, g) <==> Live(log[1..], g);
      }
    }
  }

  /** Removing a session from the reference list unlinks it from the indexes it
      belongs to, and leaves the others alone. */
  lemma {:induction false} PickWithout(log: seq<Session>, s: Session, index: Index)
    requires UniqueGuids(log) && s in log
    ensures Pick(Without(log, s.guid), index) ==
            if Has(s, index) then Unlink(Pick(log, index), s.guid) else Pick(log, index)
    ensures Has(s, index) ==> s.guid in Pick(log, index)
  {
    PickMember(log, index, s.guid);
    if log[0].guid == s.guid {
      assert s == log[0];
    } else {
      assert s in log[1..];
      assert UniqueGuids(log[1..]);
      PickWithout(log[1..], s, index);
      assert Without(log, s.guid) == [log[0]] + Without(log[1..], s.guid);
      PickCons(log[0], Without(log[1..], s.guid), index);
      if Has(log[0], index) {
        assert Pick(log, index)[1..] == Pick(log[1..], index);
      }
    }
  }

  lemma UnlinkSize(list: seq<Guid>, g: Guid)
    requires g in list
    ensures |Unlink(list, g)| == |list| - 1
  {
  }

  lemma {:induction false} WithoutPidMember(log: seq<Session>, pid: nat)
    ensures forall s :: s in WithoutPid(log, pid) <==> s in log && s.pid != pid
  {
    if log != [] {
      WithoutPidMember(log[1..], pid);
      assert forall s :: s in log <==> s == log[0] || s in log[1..];
    }
  }

  lemma {:induction false} WithoutPidNone(log: seq<Session>, pid: nat)
    requires Pick(log, OfPid(pid)) == []
    ensures WithoutPid(log, pid) == log
  {
    if log != [] {
      WithoutPidNone(log[1..], pid);
    }
  }

  /** Sessions of a process may be removed one by one. */
  lemma {:induction false} WithoutThenPid(log: seq<Session>, s: Session)
    requires UniqueGuids(log) && s in log
    ensures WithoutPid(Without(log, s.guid), s.pid) == WithoutPid(log, s.pid)
  {
    if log[0].guid == s.guid {
      assert s == log[0];
      assert WithoutPid(log, s.pid) == WithoutPid(log[1..], s.pid);
    } else {
      assert s in log[1..];
      assert UniqueGuids(log[1..]);
      WithoutThenPid(log[1..], s);
      var w := Without(log[1..], s.guid);
      assert ([log[0]] + w)[1..] == w;
    }
  }

  // ----- counting by the fields of the sessions

  /** How many sessions are of this user, from this IP, with this protocol and not proxied. */
  ghost function Connections(log: seq<Session>, user: string, protocol: string, ip: IpAddr): nat {
    if log == [] then 0
    else
      var s := log[0];
      Connections(log[1..], user, protocol, ip) +
      if s.user == user && Protocol(s.service) == protocol && s.ip == ip && s.destIp == NoIp then 1 else 0
  }

  lemma {:induction false} ConnectionsCounted(log: seq<Session>, k: UserIp)
    ensures |Pick(log, OfUserIp(k))| == Connections(log, k.user, k.protocol, k.ip)
  {
    if log != [] {
      ConnectionsCounted(log[1..], k);
    }
  }
}
