/** Iteration over live sessions: what an iterator returns, in which order, and the string
    references it holds until it is closed.
 */
module SessionIter {
  import opened Options
  import opened SessionLog
  import opened RegistryViews

  datatype IterResult = IterResult(kickType: KickType, pid: nat, service: string, user: string, guid: Guid)

  function ResultFor(s: Session, kickType: KickType): IterResult {
    IterResult(kickType, s.pid, s.service, s.user, s.guid)
  }

  /** The order of connect_limit_iter_result_cmp(): by process, then by GUID. */
  predicate Before(a: IterResult, b: IterResult) {
    a.pid < b.pid || (a.pid == b.pid && a.guid < b.guid)
  }

  ghost predicate Ordered(rs: seq<IterResult>) {
    forall i, j :: 0 <= i < j < |rs| ==> Before(rs[i], rs[j])
  }

  ghost predicate DistinctGuids(rs: seq<IterResult>) {
    forall i, j :: 0 <= i < j < |rs| ==> rs[i].guid != rs[j].guid
  }

  /** One reference to the service string per result. */
  ghost function Services(rs: seq<IterResult>): multiset<string> {
    if rs == [] then multiset{} else multiset{rs[0].service} + Services(rs[1..])
  }

  // ----- sorting

  function Insert(r: IterResult, rs: seq<IterResult>): seq<IterResult> {
    if rs == [] || Before(r, rs[0]) then [r] + rs else [rs[0]] + Insert(r, rs[1..])
  }

  function Sort(rs: seq<IterResult>): seq<IterResult> {
    if rs == [] then [] else Insert(rs[0], Sort(rs[1..]))
  }

  lemma {:induction false} InsertMembers(r: IterResult, rs: seq<IterResult>)
    ensures forall x :: x in Insert(r, rs) <==> x == r || x in rs
    ensures Services(Insert(r, rs)) == multiset{r.service} + Services(rs)
  {
    if rs == [] || Before(r, rs[0]) {
      assert ([r] + rs)[1..] == rs;
    } else {
      InsertMembers(r, rs[1..]);
      assert ([rs[0]] + Insert(r, rs[1..]))[1..] == Insert(r, rs[1..]);
      assert forall x :: x in rs <==> x == rs[0] || x in rs[1..];
    }
  }

  lemma {:induction false} InsertOrdered(r: IterResult, rs: seq<IterResult>)
    requires Ordered(rs) && forall x :: x in rs ==> x.guid != r.guid
    ensures Ordered(Insert(r, rs))
  {
    if rs == [] {
    } else if Before(r, rs[0]) {
      assert forall i :: 0 < i < |rs| ==> Before(rs[0], rs[i]);
    } else {
      assert rs[0] in rs;
      InsertOrdered(r, rs[1..]);
      InsertMembers(r, rs[1..]);
      var tail := Insert(r, rs[1..]);
      forall i | 0 <= i < |tail| ensures Before(rs[0], tail[i]) {
        assert tail[i] in tail;
      }
    }
  }

  lemma {:induction false} SortMembers(rs: seq<IterResult>)
    ensures forall x :: x in Sort(rs) <==> x in rs
    ensures Services(Sort(rs)) == Services(rs)
  {
    if rs != [] {
      SortMembers(rs[1..]);
      InsertMembers(rs[0], Sort(rs[1..]));
      assert forall x :: x in rs <==> x == rs[0] || x in rs[1..];
    }
  }

  lemma {:induction false} SortOrdered(rs: seq<IterResult>)
    requires DistinctGuids(rs)
    ensures Ordered(Sort(rs))
  {
    if rs != [] {
      SortOrdered(rs[1..]);
      SortMembers(rs[1..]);
      assert forall x :: x in rs[1..] ==> x.guid != rs[0].guid;
      InsertOrdered(rs[0], Sort(rs[1..]));
    }
  }

  // ----- what an iterator returns

  /** Empty GUID: any session. No IP: any IP. */
  ghost predicate Wanted(s: Session, guid: Guid, exceptIp: Option<IpAddr>) {
    && (guid == 0 || s.guid == guid)
    && (exceptIp.None? || s.ip != exceptIp.value)
  }

  ghost predicate Returns(rs: seq<IterResult>, log: seq<Session>, kicks: map<nat, KickType>, index: Index,
                          guid: Guid, exceptIp: Option<IpAddr>)
  {
    && (forall r :: r in rs ==> Sought(r, log, kicks, index, guid, exceptIp))
    && (forall s :: s in log && Has(s, index) && Wanted(s, guid, exceptIp) ==>
          s.pid in kicks && ResultFor(s, kicks[s.pid]) in rs)
  }

  ghost predicate Sought(r: IterResult, log: seq<Session>, kicks: map<nat, KickType>, index: Index,
                         guid: Guid, exceptIp: Option<IpAddr>)
  {
    exists s :: s in log && Has(s, index) && Wanted(s, guid, exceptIp) &&
      s.pid in kicks && r == ResultFor(s, kicks[s.pid])
  }

  /** Sorting keeps the results; the order is then strict, because GUIDs are unique. */
  lemma SortReturns(rs: seq<IterResult>, log: seq<Session>, kicks: map<nat, KickType>, index: Index,
                    guid: Guid, exceptIp: Option<IpAddr>)
    requires Returns(rs, log, kicks, index, guid, exceptIp) && DistinctGuids(rs)
    ensures Returns(Sort(rs), log, kicks, index, guid, exceptIp) && Ordered(Sort(rs))
    ensures Services(Sort(rs)) == Services(rs)
  {
    SortMembers(rs);
    SortOrdered(rs);
  }

  /** All results of one process have the same kick type. */
  lemma OneKickType(rs: seq<IterResult>, log: seq<Session>, kicks: map<nat, KickType>, index: Index,
                    guid: Guid, exceptIp: Option<IpAddr>, a: IterResult, b: IterResult)
    requires Returns(rs, log, kicks, index, guid, exceptIp) && a in rs && b in rs && a.pid == b.pid
    ensures a.kickType == b.kickType
  {
    assert Sought(a, log, kicks, index, guid, exceptIp);
    assert Sought(b, log, kicks, index, guid, exceptIp);
  }

  // ----- collecting the results from an index list

  /** The results so far stand for exactly the sought sessions among the first n of the list. */
  ghost predicate Collected(rs: seq<IterResult>, log: seq<Session>, kicks: map<nat, KickType>, list: seq<Guid>,
                            n: nat, guid: Guid, exceptIp: Option<IpAddr>)
    requires n <= |list|
  {
    && (forall r :: r in rs ==> r.guid in list[..n] && ResultOfLive(r, log, kicks, guid, exceptIp))
    && (forall s :: s in log && s.guid in list[..n] && Wanted(s, guid, exceptIp) ==>
          s.pid in kicks && ResultFor(s, kicks[s.pid]) in rs)
  }

  ghost predicate ResultOfLive(r: IterResult, log: seq<Session>, kicks: map<nat, KickType>, guid: Guid,
                               exceptIp: Option<IpAddr>)
  {
    exists s :: s in log && s.guid == r.guid && Wanted(s, guid, exceptIp) && s.pid in kicks &&
      r == ResultFor(s, kicks[s.pid])
  }

  lemma CollectNext(rs: seq<IterResult>, log: seq<Session>, kicks: map<nat, KickType>, list: seq<Guid>,
                    n: nat, guid: Guid, exceptIp: Option<IpAddr>, s: Session)
    requires n < |list| && Collected(rs, log, kicks, list, n, guid, exceptIp) && DistinctGuids(rs)
    requires s in log && s.guid == list[n] && s.pid in kicks && list[n] !in list[..n]
    requires forall o :: o in log && o.guid == s.guid ==> o == s
    ensures !Wanted(s, guid, exceptIp) ==> Collected(rs, log, kicks, list, n + 1, guid, exceptIp)
    ensures Wanted(s, guid, exceptIp) ==>
              && Collected(rs + [ResultFor(s, kicks[s.pid])], log, kicks, list, n + 1, guid, exceptIp)
              && DistinctGuids(rs + [ResultFor(s, kicks[s.pid])])
  {
    assert list[..n + 1] == list[..n] + [list[n]];
    if Wanted(s, guid, exceptIp) {
      var r := ResultFor(s, kicks[s.pid]);
      assert ResultOfLive(r, log, kicks, guid, exceptIp);
      assert forall i :: 0 <= i < |rs| ==> rs[i] in rs && rs[i].guid != r.guid;
    }
  }

  lemma CollectAll(rs: seq<IterResult>, log: seq<Session>, kicks: map<nat, KickType>, index: Index,
                   guid: Guid, exceptIp: Option<IpAddr>)
    requires UniqueGuids(log)
    requires Collected(rs, log, kicks, Pick(log, index), |Pick(log, index)|, guid, exceptIp)
    ensures Returns(rs, log, kicks, index, guid, exceptIp)
  {
    var list := Pick(log, index);
    assert list[..|list|] == list;
    forall r | r in rs ensures Sought(r, log, kicks, index, guid, exceptIp) {
      PickMember(log, index, r.guid);
    }
    forall s | s in log && Has(s, index) && Wanted(s, guid, exceptIp)
      ensures s.pid in kicks && ResultFor(s, kicks[s.pid]) in rs
    {
      PickMember(log, index, s.guid);
    }
  }

  // ----- string references

  lemma {:induction false} ServicesAppend(rs: seq<IterResult>, r: IterResult)
    ensures Services(rs + [r]) == Services(rs) + multiset{r.service}
  {
    if rs != [] {
      ServicesAppend(rs[1..], r);
      assert (rs + [r])[1..] == rs[1..] + [r];
    } else {
      assert ([r])[1..] == [];
    }
  }

  lemma HoldString(log: seq<Session>, uih: map<UserIp, UserIpEntry>, held: multiset<string>, strings: map<string, nat>,
                   x: string)
    requires StringsView(log, uih, held, strings)
    ensures StringsView(log, uih, held + multiset{x}, StringUp(strings, x))
  {
    var strings' := StringUp(strings, x);
    forall y ensures StringRefs(strings', y) == |Pick(log, OfService(y))| + |Pick(log, OfUntracked(y))| +
                                                |ProtocolKeys(uih.Keys, y)| + (held + multiset{x})[y]
    {
      assert StringRefs(strings', y) == StringRefs(strings, y) + if x == y then 1 else 0;
    }
  }

  lemma HoldResult(log: seq<Session>, uih: map<UserIp, UserIpEntry>, held: multiset<string>, strings: map<string, nat>,
                   rs: seq<IterResult>, r: IterResult)
    requires StringsView(log, uih, held + Services(rs), strings)
    ensures StringsView(log, uih, held + Services(rs + [r]), StringUp(strings, r.service))
  {
    HoldString(log, uih, held + Services(rs), strings, r.service);
    ServicesAppend(rs, r);
    assert held + Services(rs) + multiset{r.service} == held + Services(rs + [r]);
  }

  lemma ReleaseString(log: seq<Session>, uih: map<UserIp, UserIpEntry>, held: multiset<string>, strings: map<string, nat>,
                      x: string)
    requires StringsView(log, uih, held, strings) && x in held
    ensures x in strings && StringsView(log, uih, held - multiset{x}, StringDown(strings, x))
  {
    assert StringRefs(strings, x) >= 1;
    var strings' := StringDown(strings, x);
    forall y ensures StringRefs(strings', y) == |Pick(log, OfService(y))| + |Pick(log, OfUntracked(y))| +
                                                |ProtocolKeys(uih.Keys, y)| + (held - multiset{x})[y]
    {
      assert StringRefs(strings', y) == StringRefs(strings, y) - if x == y then 1 else 0;
    }
  }

  lemma ReleaseFirst(log: seq<Session>, uih: map<UserIp, UserIpEntry>, rest: multiset<string>, strings: map<string, nat>,
                     rs: seq<IterResult>)
    requires rs != [] && StringsView(log, uih, Services(rs) + rest, strings)
    ensures rs[0].service in strings && strings[rs[0].service] > 0
    ensures StringsView(log, uih, Services(rs[1..]) + rest, StringDown(strings, rs[0].service))
  {
    var x := rs[0].service;
    ReleaseString(log, uih, Services(rs) + rest, strings, x);
    assert Services(rs) + rest - multiset{x} == Services(rs[1..]) + rest;
  }
}
