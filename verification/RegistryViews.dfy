/** What it means for each hand-maintained table of the session registry to be a view
    of the reference list of live sessions, and how each view follows the list when a
    session is added or removed.
 */
module RegistryViews {
  import opened Options
  import opened SessionLog

  type Addr = nat

  /** A user_hash entry: the strdup'ed key and the user's session list. */
  datatype UserEntry = UserEntry(name: Addr, sessions: seq<Guid>)

  /** A userip_hash entry: the shared record and its reference count. */
  datatype UserIpEntry = UserIpEntry(rec: Addr, refcount: nat)

  datatype UserIpRec = UserIpRec(username: Addr, protocol: string, ip: IpAddr)

  datatype SessionRec = SessionRec(
    pid: nat, userip: Addr, service: string, destIp: IpAddr, slots: seq<Option<string>>)

  datatype Process = Process(kickType: KickType, sessions: seq<Guid>)

  datatype AltField = AltField(name: string, refcount: nat)

  type AltHash = map<string, seq<Guid>>

  // ----- the views

  ghost predicate SessionsView(log: seq<Session>, sh: map<Guid, SessionRec>) {
    && UniqueGuids(log)
    && (forall g :: g in sh <==> Live(log, g))
    && (forall s :: s in log ==> s.guid in sh && RecordOf(s, sh[s.guid]))
  }

  ghost predicate RecordOf(s: Session, rec: SessionRec) {
    rec.pid == s.pid && rec.service == s.service && rec.destIp == s.destIp && DistinctNames(s.alts)
  }

  function UserList(uh: map<string, UserEntry>, u: string): seq<Guid> {
    if u in uh then uh[u].sessions else []
  }

  ghost predicate UserView(log: seq<Session>, uh: map<string, UserEntry>) {
    && (forall u :: UserList(uh, u) == Pick(log, OfUser(u)))
    && (forall u :: u in uh ==> uh[u].sessions != [])
  }

  function ProcessList(ph: map<nat, Process>, pid: nat): seq<Guid> {
    if pid in ph then ph[pid].sessions else []
  }

  ghost predicate ProcessView(log: seq<Session>, ph: map<nat, Process>) {
    && (forall p :: ProcessList(ph, p) == Pick(log, OfPid(p)))
    && (forall p :: p in ph ==> ph[p].sessions != [])
  }

  function UserIpRefs(uih: map<UserIp, UserIpEntry>, k: UserIp): nat {
    if k in uih then uih[k].refcount else 0
  }

  ghost predicate UserIpView(log: seq<Session>, uih: map<UserIp, UserIpEntry>) {
    && (forall k :: UserIpRefs(uih, k) == |Pick(log, OfUserIp(k))|)
    && (forall k :: k in uih ==> uih[k].refcount > 0)
  }

  function AltList(h: AltHash, v: string): seq<Guid> {
    if v in h then h[v] else []
  }

  ghost predicate UniqueFields(fields: seq<AltField>) {
    forall i, j :: 0 <= i < j < |fields| ==> fields[i].name != fields[j].name
  }

  ghost predicate HashView(log: seq<Session>, name: string, h: AltHash) {
    && (forall v :: AltList(h, v) == Pick(log, OfAlt(name, v)))
    && (forall v :: v in h ==> h[v] != [])
  }

  /** A field's reference count is the number of live sessions that supplied it, plus how often a
      connect in progress has already referenced it. */
  ghost predicate FieldView(log: seq<Session>, field: AltField, h: AltHash, extra: nat) {
    && field.refcount == |Pick(log, OfField(field.name))| + extra
    && HashView(log, field.name, h)
  }

  ghost predicate AltView(log: seq<Session>, fields: seq<AltField>, hashes: seq<AltHash>, connecting: multiset<string>) {
    && |fields| == |hashes|
    && UniqueFields(fields)
    && (forall i :: 0 <= i < |fields| ==> FieldView(log, fields[i], hashes[i], connecting[fields[i].name]))
    && (forall name :: name in connecting ==> Named(fields, |fields|, name))
  }

  /** A session's slots hold, under the names the fields have now, exactly what it supplied. */
  ghost predicate SlotsOf(alts: seq<(string, string)>, slots: seq<Option<string>>, fields: seq<AltField>) {
    && |slots| <= |fields|
    && (forall i :: 0 <= i < |slots| ==> SlotOf(alts, slots[i], fields[i].name))
    && (forall a :: a in alts ==> Named(fields, |slots|, a.0))
  }

  ghost predicate SlotOf(alts: seq<(string, string)>, slot: Option<string>, name: string) {
    match slot
    case Some(v) => (name, v) in alts
    case None => forall a :: a in alts ==> a.0 != name
  }

  ghost predicate Named(fields: seq<AltField>, n: nat, name: string)
    requires n <= |fields|
  {
    exists i :: 0 <= i < n && fields[i].name == name
  }

  ghost predicate SlotsView(log: seq<Session>, sh: map<Guid, SessionRec>, fields: seq<AltField>) {
    forall s ::
      s in log ==> s.guid in sh && SlotsOf(s.alts, sh[s.guid].slots, fields)
  }

  /** The registry's own allocations. Every pointer a live session follows is to memory that is
      still allocated, tracked sessions with equal keys share the record that userip_hash holds,
      and nothing is allocated that no live session uses. */
  ghost predicate HeapView(log: seq<Session>, sh: map<Guid, SessionRec>, uh: map<string, UserEntry>,
                           uih: map<UserIp, UserIpEntry>, names: map<Addr, string>, userips: map<Addr, UserIpRec>)
  {
    && NamesView(uh, names)
    && RecordsView(log, sh, uh, uih, userips)
    && UnsharedView(log, sh)
    && NoLeaks(log, sh, userips)
  }

  ghost predicate RecordsView(log: seq<Session>, sh: map<Guid, SessionRec>, uh: map<string, UserEntry>,
                              uih: map<UserIp, UserIpEntry>, userips: map<Addr, UserIpRec>)
  {
    forall s ::
      s in log ==> s.guid in sh && UserIpRecOf(s, sh[s.guid].userip, uh, uih, userips)
  }

  ghost predicate UnsharedView(log: seq<Session>, sh: map<Guid, SessionRec>) {
    forall s, t ::
      s in log && t in log && s != t && !Tracked(s) ==> UserIpAddr(sh, s) != UserIpAddr(sh, t)
  }

  ghost predicate NoLeaks(log: seq<Session>, sh: map<Guid, SessionRec>, userips: map<Addr, UserIpRec>) {
    forall a :: a in userips ==> exists s :: s in log && UserIpAddr(sh, s) == a
  }

  ghost function UserIpAddr(sh: map<Guid, SessionRec>, s: Session): Addr {
    if s.guid in sh then sh[s.guid].userip else 0
  }

  ghost predicate NamesView(uh: map<string, UserEntry>, names: map<Addr, string>) {
    && (forall u :: u in uh ==> uh[u].name in names && names[uh[u].name] == u)
    && (forall a :: a in names ==> names[a] in uh && uh[names[a]].name == a)
  }

  ghost predicate UserIpRecOf(s: Session, a: Addr, uh: map<string, UserEntry>,
                              uih: map<UserIp, UserIpEntry>, userips: map<Addr, UserIpRec>)
  {
    && a in userips
    && s.user in uh
    && userips[a] == UserIpRec(uh[s.user].name, Protocol(s.service), s.ip)
    && (Tracked(s) ==> UserIpOf(s) in uih && uih[UserIpOf(s)].rec == a)
  }

  ghost predicate Fresh(next: Addr, names: map<Addr, string>, userips: map<Addr, UserIpRec>) {
    && (forall a :: a in names ==> a < next)
    && (forall a :: a in userips ==> a < next)
  }

  function StringRefs(strings: map<string, nat>, x: string): nat {
    if x in strings then strings[x] else 0
  }

  /** Which shared userip records hold a reference to this protocol string. */
  ghost function ProtocolKeys(keys: set<UserIp>, x: string): set<UserIp> {
    set k | k in keys && k.protocol == x
  }

  /** String-table references: live sessions, userip records and open iterator results. */
  ghost predicate StringsView(log: seq<Session>, uih: map<UserIp, UserIpEntry>, held: multiset<string>,
                              strings: map<string, nat>)
  {
    && (forall x :: StringRefs(strings, x) ==
          |Pick(log, OfService(x))| + |Pick(log, OfUntracked(x))| + |ProtocolKeys(uih.Keys, x)| + held[x])
    && (forall x :: x in strings ==> strings[x] > 0)
  }

  /** The tables of the registry, and its allocations. */
  datatype Tables = Tables(
    strings: map<string, nat>, uh: map<string, UserEntry>, uih: map<UserIp, UserIpEntry>,
    sh: map<Guid, SessionRec>, ph: map<nat, Process>, fields: seq<AltField>, hashes: seq<AltHash>,
    names: map<Addr, string>, userips: map<Addr, UserIpRec>, next: Addr)

  /** Every table is a view of the live sessions. */
  ghost predicate Consistent(log: seq<Session>, held: multiset<string>, t: Tables) {
    && SessionsView(log, t.sh)
    && ProcessView(log, t.ph)
    && UserView(log, t.uh)
    && UserIpView(log, t.uih)
    && AltView(log, t.fields, t.hashes, multiset{})
    && StringsView(log, t.uih, held, t.strings)
    && SlotsView(log, t.sh, t.fields)
    && HeapView(log, t.sh, t.uh, t.uih, t.names, t.userips)
    && Fresh(t.next, t.names, t.userips)
  }

  /** The update that connect_limit_connect() makes for a new GUID once
      session_set_alt_usernames() has filled its slots. */
  function ConnectUpdate(t: Tables, s: Session, kickType: KickType, slots: seq<Option<string>>): Tables {
    var name := if s.user in t.uh then t.uh[s.user].name else t.next;
    var next := if s.user in t.uh then t.next else t.next + 1;
    var k := UserIpOf(s);
    var shared := Tracked(s) && k in t.uih;
    var a := if shared then t.uih[k].rec else next;
    t.(strings := if shared then StringUp(t.strings, s.service)
                  else StringUp(StringUp(t.strings, s.service), k.protocol),
       uh := t.uh[s.user := UserEntry(name, [s.guid] + UserList(t.uh, s.user))],
       uih := if Tracked(s) then t.uih[k := UserIpEntry(a, UserIpRefs(t.uih, k) + 1)] else t.uih,
       sh := t.sh[s.guid := SessionRec(s.pid, a, s.service, s.destIp, slots)],
       ph := t.ph[s.pid := Process(kickType, [s.guid] + ProcessList(t.ph, s.pid))],
       names := if s.user in t.uh then t.names else t.names[name := s.user],
       userips := if shared then t.userips else t.userips[a := UserIpRec(name, k.protocol, s.ip)],
       next := if shared then next else next + 1)
  }

  lemma ConnectConsistent(log: seq<Session>, held: multiset<string>, t: Tables, s: Session, kickType: KickType,
                          fields: seq<AltField>, hashes: seq<AltHash>, slots: seq<Option<string>>)
    requires Consistent(log, held, t) && s.guid !in t.sh && DistinctNames(s.alts)
    requires AltView([s] + log, fields, hashes, multiset{})
    requires SlotsView(log, t.sh, fields) && SlotsOf(s.alts, slots, fields)
    ensures Consistent([s] + log, held, ConnectUpdate(t.(fields := fields, hashes := hashes), s, kickType, slots))
  {
    var t' := ConnectUpdate(t.(fields := fields, hashes := hashes), s, kickType, slots);
    var rec, entry := t'.sh[s.guid], t'.uh[s.user];
    SessionsAdd(log, t.sh, s, rec);
    ProcessAdd(log, t.ph, s, kickType);
    UserAdd(log, t.uh, s, entry.name);
    UserIpAdd(log, t.uih, s, rec.userip);
    ConnectStrings(log, held, t.(fields := fields, hashes := hashes), s, kickType, slots);
    SlotsAdd(log, t.sh, s, rec, fields);
    ConnectHeap(log, t.(fields := fields, hashes := hashes), s, kickType, slots);
    ConnectFresh(t.(fields := fields, hashes := hashes), s, kickType, slots);
  }

  lemma ConnectStrings(log: seq<Session>, held: multiset<string>, t: Tables, s: Session, kickType: KickType,
                       slots: seq<Option<string>>)
    requires StringsView(log, t.uih, held, t.strings)
    ensures var t' := ConnectUpdate(t, s, kickType, slots); StringsView([s] + log, t'.uih, held, t'.strings)
  {
    var t' := ConnectUpdate(t, s, kickType, slots);
    StringsConnect(log, t.uih, held, t.strings, s, t'.uih, t'.strings);
  }

  lemma ConnectFresh(t: Tables, s: Session, kickType: KickType, slots: seq<Option<string>>)
    requires Fresh(t.next, t.names, t.userips)
    ensures var t' := ConnectUpdate(t, s, kickType, slots); Fresh(t'.next, t'.names, t'.userips)
  {
  }

  /** The two outcomes of the userip lookup in connect_limit_connect(). */
  lemma ConnectHeap(log: seq<Session>, t: Tables, s: Session, kickType: KickType, slots: seq<Option<string>>)
    requires HeapView(log, t.sh, t.uh, t.uih, t.names, t.userips) && UserIpView(log, t.uih) && s.guid !in t.sh
    requires Fresh(t.next, t.names, t.userips)
    ensures var t' := ConnectUpdate(t, s, kickType, slots);
            HeapView([s] + log, t'.sh, t'.uh, t'.uih, t'.names, t'.userips)
  {
    if Tracked(s) && UserIpOf(s) in t.uih {
      ConnectShared(log, t, s, kickType, slots);
    } else {
      ConnectNew(log, t, s, kickType, slots);
    }
  }

  lemma ConnectShared(log: seq<Session>, t: Tables, s: Session, kickType: KickType, slots: seq<Option<string>>)
    requires HeapView(log, t.sh, t.uh, t.uih, t.names, t.userips) && UserIpView(log, t.uih) && s.guid !in t.sh
    requires Tracked(s) && UserIpOf(s) in t.uih
    ensures var t' := ConnectUpdate(t, s, kickType, slots);
            HeapView([s] + log, t'.sh, t'.uh, t'.uih, t'.names, t'.userips)
  {
    var t' := ConnectUpdate(t, s, kickType, slots);
    HeapAddShared(log, t.sh, t.uh, t.uih, t.names, t.userips, s, t'.sh[s.guid], t'.uh[s.user]);
  }

  lemma ConnectNew(log: seq<Session>, t: Tables, s: Session, kickType: KickType, slots: seq<Option<string>>)
    requires HeapView(log, t.sh, t.uh, t.uih, t.names, t.userips) && s.guid !in t.sh
    requires Fresh(t.next, t.names, t.userips)
    requires Tracked(s) ==> UserIpOf(s) !in t.uih
    ensures var t' := ConnectUpdate(t, s, kickType, slots);
            HeapView([s] + log, t'.sh, t'.uh, t'.uih, t'.names, t'.userips)
  {
    var t' := ConnectUpdate(t, s, kickType, slots);
    HeapAddNew(log, t, s, t'.sh[s.guid], t'.uh[s.user], t');
  }

  // ----- a session is added

  lemma LiveCons(s: Session, log: seq<Session>)
    ensures forall t :: t in [s] + log <==> t == s || t in log
    ensures forall g :: Live([s] + log, g) <==> g == s.guid || Live(log, g)
  {
    assert forall t :: t in [s] + log <==> t == s || t in log;
    assert s in [s] + log;
  }

  lemma SessionsAdd(log: seq<Session>, sh: map<Guid, SessionRec>, s: Session, rec: SessionRec)
    requires SessionsView(log, sh) && s.guid !in sh && RecordOf(s, rec)
    ensures SessionsView([s] + log, sh[s.guid := rec])
  {
    LiveCons(s, log);
    assert forall t :: t in log ==> t.guid != s.guid by {
      assert forall t :: t in log ==> Live(log, t.guid);
    }
  }

  lemma UserAdd(log: seq<Session>, uh: map<string, UserEntry>, s: Session, name: Addr)
    requires UserView(log, uh)
    ensures UserView([s] + log, uh[s.user := UserEntry(name, [s.guid] + UserList(uh, s.user))])
  {
    var uh' := uh[s.user := UserEntry(name, [s.guid] + UserList(uh, s.user))];
    forall u ensures UserList(uh', u) == Pick([s] + log, OfUser(u)) {
      PickCons(s, log, OfUser(u));
      assert UserList(uh, u) == Pick(log, OfUser(u));
    }
  }

  lemma ProcessAdd(log: seq<Session>, ph: map<nat, Process>, s: Session, kickType: KickType)
    requires ProcessView(log, ph)
    ensures ProcessView([s] + log, ph[s.pid := Process(kickType, [s.guid] + ProcessList(ph, s.pid))])
  {
    var ph' := ph[s.pid := Process(kickType, [s.guid] + ProcessList(ph, s.pid))];
    forall p ensures ProcessList(ph', p) == Pick([s] + log, OfPid(p)) {
      PickCons(s, log, OfPid(p));
      assert ProcessList(ph, p) == Pick(log, OfPid(p));
    }
  }

  lemma UserIpAdd(log: seq<Session>, uih: map<UserIp, UserIpEntry>, s: Session, rec: Addr)
    requires UserIpView(log, uih)
    ensures Tracked(s) ==>
              UserIpView([s] + log, uih[UserIpOf(s) := UserIpEntry(rec, UserIpRefs(uih, UserIpOf(s)) + 1)])
    ensures !Tracked(s) ==> UserIpView([s] + log, uih)
  {
    forall k ensures |Pick([s] + log, OfUserIp(k))| ==
                     |Pick(log, OfUserIp(k))| + if Has(s, OfUserIp(k)) then 1 else 0
    {
      PickCons(s, log, OfUserIp(k));
    }
  }

  lemma RecordsAdd(log: seq<Session>, sh: map<Guid, SessionRec>, uh: map<string, UserEntry>,
                   uih: map<UserIp, UserIpEntry>, userips: map<Addr, UserIpRec>,
                   s: Session, rec: SessionRec, uh': map<string, UserEntry>,
                   uih': map<UserIp, UserIpEntry>, userips': map<Addr, UserIpRec>)
    requires RecordsView(log, sh, uh, uih, userips) && s.guid !in sh
    requires forall u :: u in uh ==> u in uh' && uh'[u].name == uh[u].name
    requires forall k :: k in uih ==> k in uih' && uih'[k].rec == uih[k].rec
    requires forall a :: a in userips ==> a in userips' && userips'[a] == userips[a]
    requires UserIpRecOf(s, rec.userip, uh', uih', userips')
    ensures RecordsView([s] + log, sh[s.guid := rec], uh', uih', userips')
  {
    forall t | t in [s] + log
      ensures t.guid in sh[s.guid := rec] && UserIpRecOf(t, sh[s.guid := rec][t.guid].userip, uh', uih', userips')
    {
      if t != s {
        assert t in log;
        assert UserIpRecOf(t, sh[t.guid].userip, uh, uih, userips);
      }
    }
  }

  /** A new record, or the record that the tracked session `w` already uses. */
  lemma UnsharedAdd(log: seq<Session>, sh: map<Guid, SessionRec>, s: Session, rec: SessionRec)
    requires UnsharedView(log, sh) && s.guid !in sh
    requires forall t :: t in log ==> t.guid in sh
    requires || (forall t :: t in log ==> UserIpAddr(sh, t) != rec.userip)
             || (Tracked(s) && exists w :: w in log && Tracked(w) && UserIpAddr(sh, w) == rec.userip)
    ensures UnsharedView([s] + log, sh[s.guid := rec])
  {
    var sh' := sh[s.guid := rec];
    assert forall t :: t in log ==> UserIpAddr(sh', t) == UserIpAddr(sh, t);
    assert forall t :: t in [s] + log <==> t == s || t in log;
  }

  lemma NoLeaksAdd(log: seq<Session>, sh: map<Guid, SessionRec>, userips: map<Addr, UserIpRec>,
                   s: Session, rec: SessionRec, userips': map<Addr, UserIpRec>)
    requires NoLeaks(log, sh, userips) && s.guid !in sh
    requires forall t :: t in log ==> t.guid in sh
    requires userips'.Keys == userips.Keys + {rec.userip}
    ensures NoLeaks([s] + log, sh[s.guid := rec], userips')
  {
    var sh' := sh[s.guid := rec];
    forall a | a in userips' ensures exists t :: t in [s] + log && UserIpAddr(sh', t) == a {
      if a == rec.userip {
        assert s in [s] + log && UserIpAddr(sh', s) == a;
      } else {
        var t :| t in log && UserIpAddr(sh, t) == a;
        assert t in [s] + log && UserIpAddr(sh', t) == a;
      }
    }
  }

  lemma NamesAdd(uh: map<string, UserEntry>, names: map<Addr, string>, u: string, entry: UserEntry)
    requires NamesView(uh, names)
    requires if u in uh then entry.name == uh[u].name else entry.name !in names
    ensures NamesView(uh[u := entry], if u in uh then names else names[entry.name := u])
  {
  }

  lemma RecordsAllocated(log: seq<Session>, sh: map<Guid, SessionRec>, uh: map<string, UserEntry>,
                         uih: map<UserIp, UserIpEntry>, userips: map<Addr, UserIpRec>)
    requires RecordsView(log, sh, uh, uih, userips)
    ensures forall t :: t in log ==> t.guid in sh && UserIpAddr(sh, t) in userips
  {
    forall t | t in log ensures t.guid in sh && UserIpAddr(sh, t) in userips {
      assert UserIpRecOf(t, sh[t.guid].userip, uh, uih, userips);
    }
  }

  /** Connecting a session whose record is newly allocated. */
  lemma HeapAddNew(log: seq<Session>, t: Tables, s: Session, rec: SessionRec, entry: UserEntry, t': Tables)
    requires HeapView(log, t.sh, t.uh, t.uih, t.names, t.userips) && s.guid !in t.sh
    requires Fresh(t.next, t.names, t.userips)
    requires if s.user in t.uh then entry.name == t.uh[s.user].name && t'.names == t.names
             else entry.name == t.next && t'.names == t.names[t.next := s.user]
    requires rec.userip >= t.next
    requires if Tracked(s) then UserIpOf(s) !in t.uih && t'.uih == t.uih[UserIpOf(s) := UserIpEntry(rec.userip, 1)]
             else t'.uih == t.uih
    requires t'.sh == t.sh[s.guid := rec] && t'.uh == t.uh[s.user := entry]
    requires t'.userips == t.userips[rec.userip := UserIpRec(entry.name, Protocol(s.service), s.ip)]
    ensures HeapView([s] + log, t'.sh, t'.uh, t'.uih, t'.names, t'.userips)
  {
    NamesAdd(t.uh, t.names, s.user, entry);
    RecordsAdd(log, t.sh, t.uh, t.uih, t.userips, s, rec, t'.uh, t'.uih, t'.userips);
    RecordsAllocated(log, t.sh, t.uh, t.uih, t.userips);
    UnsharedAdd(log, t.sh, s, rec);
    NoLeaksAdd(log, t.sh, t.userips, s, rec, t'.userips);
  }

  /** Connecting a session that shares the record of the sessions counted with it. */
  lemma HeapAddShared(log: seq<Session>, sh: map<Guid, SessionRec>, uh: map<string, UserEntry>,
                      uih: map<UserIp, UserIpEntry>, names: map<Addr, string>, userips: map<Addr, UserIpRec>,
                      s: Session, rec: SessionRec, entry: UserEntry)
    requires HeapView(log, sh, uh, uih, names, userips) && UserIpView(log, uih) && s.guid !in sh
    requires Tracked(s) && UserIpOf(s) in uih && rec.userip == uih[UserIpOf(s)].rec
    requires s.user in uh ==> entry.name == uh[s.user].name
    ensures s.user in uh
    ensures HeapView([s] + log, sh[s.guid := rec], uh[s.user := entry],
                     uih[UserIpOf(s) := UserIpEntry(rec.userip, uih[UserIpOf(s)].refcount + 1)],
                     names, userips)
  {
    var k := UserIpOf(s);
    SharedRecord(log, sh, uh, uih, names, userips, k);
    NamesAdd(uh, names, s.user, entry);
    var uh', uih' := uh[s.user := entry], uih[k := UserIpEntry(rec.userip, uih[k].refcount + 1)];
    RecordsAdd(log, sh, uh, uih, userips, s, rec, uh', uih', userips);
    RecordsAllocated(log, sh, uh, uih, userips);
    var w := SharingSession(log, sh, uh, uih, userips, k);
    UnsharedAdd(log, sh, s, rec);
    NoLeaksAdd(log, sh, userips, s, rec, userips);
  }

  lemma SlotsAdd(log: seq<Session>, sh: map<Guid, SessionRec>, s: Session, rec: SessionRec, fields: seq<AltField>)
    requires SlotsView(log, sh, fields) && s.guid !in sh && SlotsOf(s.alts, rec.slots, fields)
    ensures SlotsView([s] + log, sh[s.guid := rec], fields)
  {
    assert forall t :: t in [s] + log <==> t == s || t in log;
  }

  lemma SharingSession(log: seq<Session>, sh: map<Guid, SessionRec>, uh: map<string, UserEntry>,
                       uih: map<UserIp, UserIpEntry>, userips: map<Addr, UserIpRec>, k: UserIp)
    returns (w: Session)
    requires RecordsView(log, sh, uh, uih, userips) && UserIpView(log, uih) && k in uih
    ensures w in log && Tracked(w) && UserIpOf(w) == k && UserIpAddr(sh, w) == uih[k].rec
  {
    PickWitness(log, OfUserIp(k));
    assert UserIpRefs(uih, k) == |Pick(log, OfUserIp(k))|;
    w :| w in log && Has(w, OfUserIp(k));
    assert UserIpRecOf(w, sh[w.guid].userip, uh, uih, userips);
  }

  lemma PickWitness(log: seq<Session>, index: Index)
    ensures Pick(log, index) != [] ==> exists s :: s in log && Has(s, index)
  {
    PickEmpty(log, index);
  }

  /** The record in userip_hash is allocated and holds exactly its key. */
  lemma SharedRecord(log: seq<Session>, sh: map<Guid, SessionRec>, uh: map<string, UserEntry>,
                     uih: map<UserIp, UserIpEntry>, names: map<Addr, string>, userips: map<Addr, UserIpRec>,
                     k: UserIp)
    requires HeapView(log, sh, uh, uih, names, userips) && UserIpView(log, uih) && k in uih
    ensures k.user in uh && uih[k].rec in userips
    ensures userips[uih[k].rec] == UserIpRec(uh[k.user].name, k.protocol, k.ip)
  {
    PickWitness(log, OfUserIp(k));
    var s :| s in log && Has(s, OfUserIp(k));
    assert UserIpRecOf(s, sh[s.guid].userip, uh, uih, userips);
  }

  lemma StringsAdd(log: seq<Session>, uih: map<UserIp, UserIpEntry>, held: multiset<string>,
                   strings: map<string, nat>, s: Session, uih': map<UserIp, UserIpEntry>, strings': map<string, nat>)
    requires StringsView(log, uih, held, strings)
    requires uih'.Keys == uih.Keys + if Tracked(s) then {UserIpOf(s)} else {}
    requires forall x :: x in strings' ==> strings'[x] > 0
    requires forall x :: StringRefs(strings', x) == StringRefs(strings, x) +
                           (if x == s.service then 1 else 0) +
                           (if x == Protocol(s.service) && !(Tracked(s) && UserIpOf(s) in uih) then 1 else 0)
    ensures StringsView([s] + log, uih', held, strings')
  {
    forall x
      ensures StringRefs(strings', x) == |Pick([s] + log, OfService(x))| +
              |Pick([s] + log, OfUntracked(x))| + |ProtocolKeys(uih'.Keys, x)| + held[x]
    {
      PickCons(s, log, OfService(x));
      PickCons(s, log, OfUntracked(x));
      if Tracked(s) {
        ProtocolKeysAdd(uih.Keys, UserIpOf(s), x);
      }
    }
  }

  function StringUp(strings: map<string, nat>, x: string): map<string, nat> {
    strings[x := StringRefs(strings, x) + 1]
  }

  function StringDown(strings: map<string, nat>, x: string): map<string, nat>
    requires x in strings && strings[x] > 0
  {
    if strings[x] > 1 then strings[x := strings[x] - 1] else strings - {x}
  }

  /** The references that connect_limit_connect() takes. */
  lemma StringsConnect(log: seq<Session>, uih: map<UserIp, UserIpEntry>, held: multiset<string>,
                       strings: map<string, nat>, s: Session, uih': map<UserIp, UserIpEntry>, strings': map<string, nat>)
    requires StringsView(log, uih, held, strings)
    requires if Tracked(s) then UserIpOf(s) in uih' && uih' == uih[UserIpOf(s) := uih'[UserIpOf(s)]] else uih' == uih
    requires strings' == if Tracked(s) && UserIpOf(s) in uih then StringUp(strings, s.service)
                         else StringUp(StringUp(strings, s.service), Protocol(s.service))
    ensures StringsView([s] + log, uih', held, strings')
  {
    StringsUp(strings, s.service, Protocol(s.service), !(Tracked(s) && UserIpOf(s) in uih));
    StringsAdd(log, uih, held, strings, s, uih', strings');
  }

  lemma StringsUp(strings: map<string, nat>, x: string, y: string, both: bool)
    requires forall z :: z in strings ==> strings[z] > 0
    ensures var r := if both then StringUp(StringUp(strings, x), y) else StringUp(strings, x);
            (forall z :: z in r ==> r[z] > 0)
            && forall z :: StringRefs(r, z) == StringRefs(strings, z) + (if z == x then 1 else 0) +
                                               (if z == y && both then 1 else 0)
  {
  }

  lemma ProtocolKeysAdd(keys: set<UserIp>, k: UserIp, x: string)
    ensures |ProtocolKeys(keys + {k}, x)| == |ProtocolKeys(keys, x)| + if k !in keys && k.protocol == x then 1 else 0
  {
    if k !in keys && k.protocol == x {
      assert ProtocolKeys(keys + {k}, x) == ProtocolKeys(keys, x) + {k};
    } else {
      assert ProtocolKeys(keys + {k}, x) == ProtocolKeys(keys, x);
    }
  }

  lemma ProtocolKeysDrop(keys: set<UserIp>, k: UserIp, x: string)
    requires k in keys
    ensures |ProtocolKeys(keys - {k}, x)| == |ProtocolKeys(keys, x)| - if k.protocol == x then 1 else 0
  {
    assert (keys - {k}) + {k} == keys;
    ProtocolKeysAdd(keys - {k}, k, x);
  }

  // ----- a session is removed

  lemma SessionsRemove(log: seq<Session>, sh: map<Guid, SessionRec>, s: Session)
    requires SessionsView(log, sh) && s in log
    ensures SessionsView(Without(log, s.guid), sh - {s.guid})
  {
    WithoutMember(log, s.guid);
    var log' := Without(log, s.guid);
    forall g ensures g in sh - {s.guid} <==> Live(log', g) {
      if g in sh - {s.guid} {
        var t :| t in log && t.guid == g;
        assert t in log';
      }
    }
  }

  function UserUnlink(uh: map<string, UserEntry>, u: string, g: Guid): map<string, UserEntry>
    requires u in uh
  {
    var rest := Unlink(uh[u].sessions, g);
    if rest == [] then uh - {u} else uh[u := UserEntry(uh[u].name, rest)]
  }

  lemma UserRemove(log: seq<Session>, uh: map<string, UserEntry>, s: Session)
    requires UserView(log, uh) && UniqueGuids(log) && s in log
    ensures s.user in uh && UserView(Without(log, s.guid), UserUnlink(uh, s.user, s.guid))
  {
    PickWithout(log, s, OfUser(s.user));
    assert UserList(uh, s.user) == Pick(log, OfUser(s.user));
    var uh' := UserUnlink(uh, s.user, s.guid);
    forall u ensures UserList(uh', u) == Pick(Without(log, s.guid), OfUser(u)) {
      PickWithout(log, s, OfUser(u));
      assert UserList(uh, u) == Pick(log, OfUser(u));
    }
  }

  function ProcessUnlink(ph: map<nat, Process>, pid: nat, g: Guid): map<nat, Process>
    requires pid in ph
  {
    var rest := Unlink(ph[pid].sessions, g);
    if rest == [] then ph - {pid} else ph[pid := Process(ph[pid].kickType, rest)]
  }

  lemma ProcessRemove(log: seq<Session>, ph: map<nat, Process>, s: Session)
    requires ProcessView(log, ph) && UniqueGuids(log) && s in log
    ensures s.pid in ph && ProcessView(Without(log, s.guid), ProcessUnlink(ph, s.pid, s.guid))
  {
    PickWithout(log, s, OfPid(s.pid));
    assert ProcessList(ph, s.pid) == Pick(log, OfPid(s.pid));
    var ph' := ProcessUnlink(ph, s.pid, s.guid);
    forall p ensures ProcessList(ph', p) == Pick(Without(log, s.guid), OfPid(p)) {
      PickWithout(log, s, OfPid(p));
      assert ProcessList(ph, p) == Pick(log, OfPid(p));
    }
  }

  function UserIpUnref(uih: map<UserIp, UserIpEntry>, k: UserIp): map<UserIp, UserIpEntry>
    requires k in uih && uih[k].refcount > 0
  {
    if uih[k].refcount == 1 then uih - {k} else uih[k := UserIpEntry(uih[k].rec, uih[k].refcount - 1)]
  }

  lemma UserIpRemove(log: seq<Session>, uih: map<UserIp, UserIpEntry>, s: Session)
    requires UserIpView(log, uih) && UniqueGuids(log) && s in log
    ensures Tracked(s) ==>
              && UserIpOf(s) in uih && uih[UserIpOf(s)].refcount > 0
              && UserIpView(Without(log, s.guid), UserIpUnref(uih, UserIpOf(s)))
    ensures !Tracked(s) ==> UserIpView(Without(log, s.guid), uih)
  {
    forall k ensures |Pick(Without(log, s.guid), OfUserIp(k))| ==
                     |Pick(log, OfUserIp(k))| - if Has(s, OfUserIp(k)) then 1 else 0
    {
      PickWithout(log, s, OfUserIp(k));
      if Has(s, OfUserIp(k)) {
        UnlinkSize(Pick(log, OfUserIp(k)), s.guid);
      }
    }
    if Tracked(s) {
      var k := UserIpOf(s);
      PickWithout(log, s, OfUserIp(k));
      assert UserIpRefs(uih, k) == |Pick(log, OfUserIp(k))|;
    }
  }

  /** Two sessions in an index of size one are the same session. */
  lemma PickAlone(log: seq<Session>, index: Index, s: Session, t: Session)
    requires UniqueGuids(log) && |Pick(log, index)| == 1
    requires s in log && t in log && Has(s, index) && Has(t, index)
    ensures s == t
  {
    PickMember(log, index, s.guid);
    PickMember(log, index, t.guid);
  }

  /** In a larger index there is another session. */
  lemma PickOther(log: seq<Session>, index: Index, s: Session)
    requires UniqueGuids(log) && s in log && Has(s, index) && |Pick(log, index)| > 1
    ensures exists t :: t in log && t != s && Has(t, index)
  {
    PickUnique(log, index);
    var p := Pick(log, index);
    var g := if p[0] == s.guid then p[1] else p[0];
    PickMember(log, index, g);
  }

  lemma NamesRemove(uh: map<string, UserEntry>, names: map<Addr, string>, u: string, g: Guid)
    requires NamesView(uh, names) && u in uh
    ensures NamesView(UserUnlink(uh, u, g),
                      if Unlink(uh[u].sessions, g) == [] then names - {uh[u].name} else names)
  {
  }

  /** The user's key survives while another session of the user does. */
  lemma OtherKeepsName(log: seq<Session>, uh: map<string, UserEntry>, s: Session, t: Session)
    requires UserView(log, uh) && UniqueGuids(log) && s in log && t in log && t != s
    requires s.user in uh && t.user in uh
    ensures t.user in UserUnlink(uh, s.user, s.guid)
    ensures UserUnlink(uh, s.user, s.guid)[t.user].name == uh[t.user].name
  {
    if t.user == s.user {
      PickWithout(log, s, OfUser(s.user));
      PickMember(Without(log, s.guid), OfUser(s.user), t.guid);
      WithoutMember(log, s.guid);
      assert t in Without(log, s.guid);
      assert UserList(uh, s.user) == Pick(log, OfUser(s.user));
    }
  }

  /** The shared record stays in userip_hash while another session counted under its key does. */
  lemma OtherKeepsEntry(log: seq<Session>, uih: map<UserIp, UserIpEntry>, s: Session, t: Session)
    requires UserIpView(log, uih) && UniqueGuids(log) && s in log && t in log && t != s
    requires Tracked(s) && UserIpOf(s) in uih
    requires Tracked(t) && UserIpOf(t) in uih
    ensures uih[UserIpOf(s)].refcount > 0
    ensures UserIpOf(t) in UserIpUnref(uih, UserIpOf(s))
    ensures UserIpUnref(uih, UserIpOf(s))[UserIpOf(t)].rec == uih[UserIpOf(t)].rec
  {
    var k := UserIpOf(s);
    assert UserIpRefs(uih, k) == |Pick(log, OfUserIp(k))|;
    if UserIpOf(t) == k && uih[k].refcount == 1 {
      PickAlone(log, OfUserIp(k), s, t);
    }
  }

  /** session_free() frees the record only when no other session points to it. */
  lemma OtherKeepsRecord(log: seq<Session>, sh: map<Guid, SessionRec>, uh: map<string, UserEntry>,
                         uih: map<UserIp, UserIpEntry>, names: map<Addr, string>, userips: map<Addr, UserIpRec>,
                         s: Session, t: Session)
    requires HeapView(log, sh, uh, uih, names, userips) && UniqueGuids(log)
    requires UserIpView(log, uih) && s in log && t in log && t != s
    requires Tracked(s) ==> UserIpOf(s) in uih && uih[UserIpOf(s)].refcount == 1
    ensures UserIpAddr(sh, t) != UserIpAddr(sh, s)
  {
    if Tracked(s) && Tracked(t) {
      var k := UserIpOf(s);
      assert UserIpRefs(uih, k) == |Pick(log, OfUserIp(k))|;
      assert UserIpOf(t) != k by {
        if UserIpOf(t) == k {
          PickAlone(log, OfUserIp(k), s, t);
        }
      }
      assert UserIpRecOf(s, sh[s.guid].userip, uh, uih, userips);
      assert UserIpRecOf(t, sh[t.guid].userip, uh, uih, userips);
      assert uh[t.user].name == uh[s.user].name ==> t.user == s.user;
    }
  }

  lemma RecordsRemove(log: seq<Session>, sh: map<Guid, SessionRec>, uh: map<string, UserEntry>,
                      uih: map<UserIp, UserIpEntry>, names: map<Addr, string>, userips: map<Addr, UserIpRec>,
                      s: Session, uih': map<UserIp, UserIpEntry>, userips': map<Addr, UserIpRec>)
    requires HeapView(log, sh, uh, uih, names, userips) && UniqueGuids(log) && s in log
    requires UserView(log, uh) && UserIpView(log, uih) && s.user in uh
    requires Tracked(s) ==> UserIpOf(s) in uih && uih[UserIpOf(s)].refcount > 0
    requires uih' == if Tracked(s) then UserIpUnref(uih, UserIpOf(s)) else uih
    requires userips' == if Tracked(s) && uih[UserIpOf(s)].refcount > 1 then userips
                         else userips - {UserIpAddr(sh, s)}
    ensures RecordsView(Without(log, s.guid), sh - {s.guid}, UserUnlink(uh, s.user, s.guid), uih', userips')
  {
    WithoutMember(log, s.guid);
    var uh' := UserUnlink(uh, s.user, s.guid);
    forall t | t in Without(log, s.guid)
      ensures t.guid in sh - {s.guid} && UserIpRecOf(t, (sh - {s.guid})[t.guid].userip, uh', uih', userips')
    {
      assert UserIpRecOf(t, sh[t.guid].userip, uh, uih, userips);
      OtherKeepsName(log, uh, s, t);
      if Tracked(s) && Tracked(t) {
        OtherKeepsEntry(log, uih, s, t);
      }
      if !(Tracked(s) && uih[UserIpOf(s)].refcount > 1) {
        OtherKeepsRecord(log, sh, uh, uih, names, userips, s, t);
      }
    }
  }

  lemma OtherUsesRecord(log: seq<Session>, sh: map<Guid, SessionRec>, uh: map<string, UserEntry>,
                        uih: map<UserIp, UserIpEntry>, userips: map<Addr, UserIpRec>, s: Session)
    returns (r: Session)
    requires RecordsView(log, sh, uh, uih, userips) && UniqueGuids(log) && UserIpView(log, uih) && s in log
    requires Tracked(s) && UserIpOf(s) in uih && uih[UserIpOf(s)].refcount > 1
    ensures r in log && r != s && UserIpAddr(sh, r) == UserIpAddr(sh, s)
  {
    var k := UserIpOf(s);
    assert UserIpRefs(uih, k) == |Pick(log, OfUserIp(k))|;
    PickOther(log, OfUserIp(k), s);
    r :| r in log && r != s && Has(r, OfUserIp(k));
    assert UserIpRecOf(s, sh[s.guid].userip, uh, uih, userips);
    assert UserIpRecOf(r, sh[r.guid].userip, uh, uih, userips);
  }

  lemma NoLeaksRemove(log: seq<Session>, sh: map<Guid, SessionRec>, userips: map<Addr, UserIpRec>, s: Session,
                      log': seq<Session>, userips': map<Addr, UserIpRec>)
    requires NoLeaks(log, sh, userips) && userips'.Keys <= userips.Keys
    requires forall t :: t in log && t != s ==> t in log' && t.guid != s.guid
    requires UserIpAddr(sh, s) in userips' ==>
               exists r :: r in log && r != s && UserIpAddr(sh, r) == UserIpAddr(sh, s)
    ensures NoLeaks(log', sh - {s.guid}, userips')
  {
    var sh' := sh - {s.guid};
    forall b | b in userips' ensures exists t :: t in log' && UserIpAddr(sh', t) == b {
      assert b in userips;
      var t :| t in log && UserIpAddr(sh, t) == b;
      if t == s {
        t :| t in log && t != s && UserIpAddr(sh, t) == b;
      }
      assert t in log' && UserIpAddr(sh', t) == b;
    }
  }

  lemma UnsharedRemove(log: seq<Session>, sh: map<Guid, SessionRec>, s: Session, log': seq<Session>)
    requires UnsharedView(log, sh)
    requires forall t :: t in log' ==> t in log && t.guid != s.guid
    ensures UnsharedView(log', sh - {s.guid})
  {
    assert forall t :: t in log' ==> UserIpAddr(sh - {s.guid}, t) == UserIpAddr(sh, t);
  }

  lemma HeapRemove(log: seq<Session>, sh: map<Guid, SessionRec>, uh: map<string, UserEntry>,
                   uih: map<UserIp, UserIpEntry>, names: map<Addr, string>, userips: map<Addr, UserIpRec>,
                   s: Session, uih': map<UserIp, UserIpEntry>, names': map<Addr, string>,
                   userips': map<Addr, UserIpRec>)
    requires HeapView(log, sh, uh, uih, names, userips) && UniqueGuids(log) && s in log
    requires UserView(log, uh) && UserIpView(log, uih) && s.user in uh
    requires Tracked(s) ==> UserIpOf(s) in uih && uih[UserIpOf(s)].refcount > 0
    requires uih' == if Tracked(s) then UserIpUnref(uih, UserIpOf(s)) else uih
    requires userips' == if Tracked(s) && uih[UserIpOf(s)].refcount > 1 then userips
                         else userips - {UserIpAddr(sh, s)}
    requires names' == if Unlink(uh[s.user].sessions, s.guid) == [] then names - {uh[s.user].name} else names
    ensures HeapView(Without(log, s.guid), sh - {s.guid}, UserUnlink(uh, s.user, s.guid), uih', names', userips')
  {
    NamesRemove(uh, names, s.user, s.guid);
    RecordsRemove(log, sh, uh, uih, names, userips, s, uih', userips');
    WithoutMember(log, s.guid);
    UnsharedRemove(log, sh, s, Without(log, s.guid));
    if Tracked(s) && uih[UserIpOf(s)].refcount > 1 {
      var r := OtherUsesRecord(log, sh, uh, uih, userips, s);
    }
    NoLeaksRemove(log, sh, userips, s, Without(log, s.guid), userips');
  }

  lemma StringsRemove(log: seq<Session>, uih: map<UserIp, UserIpEntry>, held: multiset<string>,
                      strings: map<string, nat>, s: Session, last: bool, uih': map<UserIp, UserIpEntry>,
                      strings': map<string, nat>)
    requires StringsView(log, uih, held, strings) && UniqueGuids(log) && s in log
    requires last ==> UserIpOf(s) in uih && Tracked(s)
    requires uih'.Keys == if last then uih.Keys - {UserIpOf(s)} else uih.Keys
    requires forall x :: x in strings' ==> strings'[x] > 0
    requires forall x :: StringRefs(strings', x) == StringRefs(strings, x) -
                           (if x == s.service then 1 else 0) -
                           (if x == Protocol(s.service) && (last || !Tracked(s)) then 1 else 0)
    ensures StringsView(Without(log, s.guid), uih', held, strings')
  {
    forall x
      ensures StringRefs(strings', x) == |Pick(Without(log, s.guid), OfService(x))| +
              |Pick(Without(log, s.guid), OfUntracked(x))| + |ProtocolKeys(uih'.Keys, x)| + held[x]
    {
      PickWithoutSize(log, s, OfService(x));
      PickWithoutSize(log, s, OfUntracked(x));
      if last {
        ProtocolKeysDrop(uih.Keys, UserIpOf(s), x);
      }
    }
  }

  lemma PickWithoutSize(log: seq<Session>, s: Session, index: Index)
    requires UniqueGuids(log) && s in log
    ensures |Pick(Without(log, s.guid), index)| == |Pick(log, index)| - if Has(s, index) then 1 else 0
  {
    PickWithout(log, s, index);
    if Has(s, index) {
      UnlinkSize(Pick(log, index), s.guid);
    }
  }

  /** The protocol and service strings of a live session are referenced. */
  lemma StringsHeld(log: seq<Session>, uih: map<UserIp, UserIpEntry>, held: multiset<string>,
                    strings: map<string, nat>, s: Session)
    requires StringsView(log, uih, held, strings) && s in log
    requires Tracked(s) ==> UserIpOf(s) in uih
    ensures StringRefs(strings, s.service) >= if Protocol(s.service) == s.service then 2 else 1
    ensures StringRefs(strings, Protocol(s.service)) >= 1
  {
    PickEmpty(log, OfService(s.service));
    PickEmpty(log, OfUntracked(Protocol(s.service)));
    if Tracked(s) {
      assert UserIpOf(s) in ProtocolKeys(uih.Keys, Protocol(s.service));
    } else {
      assert Has(s, OfUntracked(Protocol(s.service)));
    }
    assert Has(s, OfService(s.service));
  }

  /** What session_free() needs to find in the tables for `s`, whose record is at `a`. */
  ghost predicate Freeable(t: Tables, s: Session, a: Addr) {
    && UserIpRecOf(s, a, t.uh, t.uih, t.userips)
    && t.uh[s.user].name in t.names && t.names[t.uh[s.user].name] == s.user
    && (Tracked(s) ==> t.uih[UserIpOf(s)].refcount > 0)
    && StringRefs(t.strings, s.service) >= (if Protocol(s.service) == s.service then 2 else 1)
    && StringRefs(t.strings, Protocol(s.service)) >= 1
  }

  /** The userip record is freed with its last session; unshared records always are. */
  ghost predicate LastUse(t: Tables, s: Session)
    requires Tracked(s) ==> UserIpOf(s) in t.uih
  {
    Tracked(s) ==> t.uih[UserIpOf(s)].refcount == 1
  }

  /** The update that session_free() makes, apart from the alternative usernames. */
  ghost function FreeUpdate(t: Tables, s: Session, a: Addr): Tables
    requires Freeable(t, s, a)
  {
    var strings := if LastUse(t, s) then StringDown(t.strings, Protocol(s.service)) else t.strings;
    t.(strings := StringDown(strings, s.service),
       uih := if Tracked(s) then UserIpUnref(t.uih, UserIpOf(s)) else t.uih,
       userips := if LastUse(t, s) then t.userips - {a} else t.userips,
       uh := UserUnlink(t.uh, s.user, s.guid),
       names := if Unlink(t.uh[s.user].sessions, s.guid) == [] then t.names - {t.uh[s.user].name} else t.names)
  }

  /** None of the "hash tables are inconsistent" panics in session_free() can be reached. */
  lemma ConsistentFreeable(log: seq<Session>, held: multiset<string>, t: Tables, s: Session)
    requires Consistent(log, held, t) && s in log
    ensures s.guid in t.sh && Freeable(t, s, t.sh[s.guid].userip)
    ensures t.sh[s.guid].pid == s.pid && t.sh[s.guid].service == s.service && t.sh[s.guid].destIp == s.destIp
    ensures s.pid in t.ph && SlotsOf(s.alts, t.sh[s.guid].slots, t.fields) && DistinctNames(s.alts)
  {
    assert RecordOf(s, t.sh[s.guid]);
    assert UserIpRecOf(s, t.sh[s.guid].userip, t.uh, t.uih, t.userips);
    StringsHeld(log, t.uih, held, t.strings, s);
    ProcessRemove(log, t.ph, s);
  }

  lemma FreeStrings(log: seq<Session>, held: multiset<string>, t: Tables, s: Session, a: Addr)
    requires StringsView(log, t.uih, held, t.strings) && UniqueGuids(log) && s in log && Freeable(t, s, a)
    ensures var t' := FreeUpdate(t, s, a); StringsView(Without(log, s.guid), t'.uih, held, t'.strings)
  {
    var t' := FreeUpdate(t, s, a);
    var last := Tracked(s) && LastUse(t, s);
    StringsDown(t.strings, Protocol(s.service), s.service, LastUse(t, s));
    StringsRemove(log, t.uih, held, t.strings, s, last, t'.uih, t'.strings);
  }

  lemma StringsDown(strings: map<string, nat>, x: string, y: string, both: bool)
    requires StringRefs(strings, y) >= (if x == y then 2 else 1) && StringRefs(strings, x) >= 1
    requires forall z :: z in strings ==> strings[z] > 0
    ensures var r := StringDown(if both then StringDown(strings, x) else strings, y);
            (forall z :: z in r ==> r[z] > 0)
            && forall z :: StringRefs(r, z) == StringRefs(strings, z) - (if z == y then 1 else 0) -
                                               (if z == x && both then 1 else 0)
  {
  }

  lemma FreeHeap(log: seq<Session>, t: Tables, s: Session)
    requires HeapView(log, t.sh, t.uh, t.uih, t.names, t.userips) && UniqueGuids(log) && s in log
    requires UserView(log, t.uh) && UserIpView(log, t.uih)
    requires s.guid in t.sh && Freeable(t, s, t.sh[s.guid].userip)
    ensures var t' := FreeUpdate(t, s, t.sh[s.guid].userip);
            HeapView(Without(log, s.guid), t.sh - {s.guid}, t'.uh, t'.uih, t'.names, t'.userips)
  {
    var t' := FreeUpdate(t, s, t.sh[s.guid].userip);
    HeapRemove(log, t.sh, t.uh, t.uih, t.names, t.userips, s, t'.uih, t'.names, t'.userips);
  }

  lemma FreeFresh(t: Tables, s: Session, a: Addr)
    requires Fresh(t.next, t.names, t.userips) && Freeable(t, s, a)
    ensures var t' := FreeUpdate(t, s, a); Fresh(t'.next, t'.names, t'.userips)
  {
  }

  lemma SlotsRemove(log: seq<Session>, sh: map<Guid, SessionRec>, fields: seq<AltField>, s: Session)
    requires SlotsView(log, sh, fields) && UniqueGuids(log) && s in log
    ensures SlotsView(Without(log, s.guid), sh - {s.guid}, fields)
  {
    WithoutMember(log, s.guid);
  }

  /** The tables after a session is removed: unlinked from session_hash and its process, its
      alternative usernames unlinked, and freed. */
  ghost function DisconnectUpdate(t: Tables, s: Session, fields: seq<AltField>, hashes: seq<AltHash>): Tables
    requires s.guid in t.sh && s.pid in t.ph && Freeable(t, s, t.sh[s.guid].userip)
  {
    FreeUpdate(t, s, t.sh[s.guid].userip).(
      sh := t.sh - {s.guid}, ph := ProcessUnlink(t.ph, s.pid, s.guid), fields := fields, hashes := hashes)
  }

  lemma DisconnectConsistent(log: seq<Session>, held: multiset<string>, t: Tables, s: Session,
                             fields: seq<AltField>, hashes: seq<AltHash>)
    requires Consistent(log, held, t) && s in log
    requires s.guid in t.sh && s.pid in t.ph && Freeable(t, s, t.sh[s.guid].userip)
    requires AltView(Without(log, s.guid), fields, hashes, multiset{}) && SlotsView(log, t.sh, fields)
    ensures Consistent(Without(log, s.guid), held, DisconnectUpdate(t, s, fields, hashes))
  {
    SessionsRemove(log, t.sh, s);
    ProcessRemove(log, t.ph, s);
    UserRemove(log, t.uh, s);
    UserIpRemove(log, t.uih, s);
    SlotsRemove(log, t.sh, fields, s);
    FreeStrings(log, held, t, s, t.sh[s.guid].userip);
    FreeHeap(log, t, s);
    FreeFresh(t, s, t.sh[s.guid].userip);
  }
}
