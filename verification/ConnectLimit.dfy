/** The anvil session registry: connect, disconnect, disconnect of a whole process,
    connection counting and iteration over sessions.

    The class keeps the five tables of the C struct and its allocations, and updates them
    in the same order. `log` is the reference list of live sessions; `Valid()` says that
    every table is a view of it.
 */
module ConnectLimit {
  import opened Options
  import opened SessionLog
  import opened RegistryViews
  import opened AltFieldViews
  import opened SessionIter

  /** What a caller of the registry can observe. */
  datatype Registry = Registry(log: seq<Session>, kicks: map<nat, KickType>)

  ghost function Connected(r: Registry, s: Session, kickType: KickType): Registry {
    if Live(r.log, s.guid) then r
    else Registry([s] + r.log, r.kicks[s.pid := kickType])
  }

  /** The asserts of connect_limit_connect() that a new session can fail. */
  ghost predicate Panics(r: Registry, guid: Guid, pid: nat, alts: seq<(string, string)>) {
    !Live(r.log, guid) && (pid == 0 || !DistinctNames(alts))
  }

  /** The session was connected with exactly these parameters. */
  ghost predicate Matches(s: Session, pid: nat, user: string, service: string, ip: IpAddr, guid: Guid) {
    s.guid == guid && s.pid == pid && s.user == user && s.service == service && s.ip == ip
  }

  ghost function Disconnected(r: Registry, pid: nat, user: string, service: string, ip: IpAddr, guid: Guid): Registry {
    if exists s :: s in r.log && Matches(s, pid, user, service, ip, guid)
    then var log := Without(r.log, guid);
         Registry(log, if Pick(log, OfPid(pid)) == [] then r.kicks - {pid} else r.kicks)
    else r
  }

  ghost function DisconnectedPid(r: Registry, pid: nat): Registry {
    Registry(WithoutPid(r.log, pid), r.kicks - {pid})
  }

  ghost function Kicks(ph: map<nat, Process>): map<nat, KickType> {
    map p | p in ph :: ph[p].kickType
  }

  /** The tables hold the live sessions and the kick types of the registry, and nothing else. There is no
      process 0, because its hash key would be NULL. */
  ghost predicate Holds(r: Registry, held: multiset<string>, t: Tables) {
    Consistent(r.log, held, t) && Kicks(t.ph) == r.kicks && 0 !in r.kicks
  }

  lemma ConnectResult(log: seq<Session>, t: Tables, s: Session, kickType: KickType, slots: seq<Option<string>>)
    requires !Live(log, s.guid)
    ensures Registry([s] + log, Kicks(ConnectUpdate(t, s, kickType, slots).ph)) ==
            Connected(Registry(log, Kicks(t.ph)), s, kickType)
  {
    assert Kicks(ConnectUpdate(t, s, kickType, slots).ph) == Kicks(t.ph)[s.pid := kickType];
  }

  lemma DisconnectKicks(log: seq<Session>, ph: map<nat, Process>, s: Session)
    requires ProcessView(log, ph) && UniqueGuids(log) && s in log && s.pid in ph
    ensures Kicks(ProcessUnlink(ph, s.pid, s.guid)) ==
            if Pick(Without(log, s.guid), OfPid(s.pid)) == [] then Kicks(ph) - {s.pid} else Kicks(ph)
  {
    PickWithout(log, s, OfPid(s.pid));
    assert ProcessList(ph, s.pid) == Pick(log, OfPid(s.pid));
  }

  /** The record in session_hash and everything it points to describe the session. */
  ghost predicate Describes(t: Tables, s: Session, g: Guid)
    requires g in t.sh
  {
    && s.guid == g && s.pid in t.ph
    && Freeable(t, s, t.sh[g].userip)
    && t.sh[g].pid == s.pid && t.sh[g].service == s.service && t.sh[g].destIp == s.destIp
    && SlotsOf(s.alts, t.sh[g].slots, t.fields) && DistinctNames(s.alts)
  }

  lemma LiveSession(log: seq<Session>, held: multiset<string>, t: Tables, g: Guid) returns (s: Session)
    requires Consistent(log, held, t) && g in t.sh
    ensures s in log && Describes(t, s, g) && UniqueGuids(log)
    ensures forall r :: r in log && r.guid == g ==> r == s
  {
    s := FindSession(log, t.sh, g);
    ConsistentFreeable(log, held, t, s);
  }

  lemma FindSession(log: seq<Session>, sh: map<Guid, SessionRec>, g: Guid) returns (s: Session)
    requires SessionsView(log, sh) && g in sh
    ensures s in log && s.guid == g && UniqueGuids(log)
    ensures forall r :: r in log && r.guid == g ==> r == s
  {
    LiveKeys(log, sh, g);
    s :| s in log && s.guid == g;
  }

  lemma LiveKeys(log: seq<Session>, sh: map<Guid, SessionRec>, g: Guid)
    requires SessionsView(log, sh)
    ensures g in sh <==> Live(log, g)
  {
  }

  // ----- alternative-username fields

  /** Finds the slot of a field name; if there is none, the first slot without references. */
  method AltFieldFind(fields: seq<AltField>, name: string) returns (found: bool, idx: int)
    ensures found <==> FieldAt(fields, name)
    ensures found ==> 0 <= idx < |fields| && fields[idx].name == name
    ensures !found && idx == -1 ==> forall i :: 0 <= i < |fields| ==> fields[i].refcount != 0
    ensures !found && idx != -1 ==>
              && 0 <= idx < |fields| && fields[idx].refcount == 0
              && forall i :: 0 <= i < idx ==> fields[i].refcount != 0
  {
    var firstEmpty := -1;
    var i := 0;
    while i < |fields|
      invariant 0 <= i <= |fields|
      invariant forall j :: 0 <= j < i ==> fields[j].name != name
      invariant firstEmpty == -1 ==> forall j :: 0 <= j < i ==> fields[j].refcount != 0
      invariant firstEmpty != -1 ==>
                  && 0 <= firstEmpty < i && fields[firstEmpty].refcount == 0
                  && forall j :: 0 <= j < firstEmpty ==> fields[j].refcount != 0
    {
      if fields[i].name == name {
        return true, i;
      }
      if fields[i].refcount == 0 && firstEmpty == -1 {
        firstEmpty := i;
      }
      i := i + 1;
    }
    return false, firstEmpty;
  }

  /** References the slot of a field name, renaming or appending a slot if needed. */
  method AltFieldRef(fields: seq<AltField>, hashes: seq<AltHash>, name: string, ghost connecting: multiset<string>,
                     ghost log: seq<Session>, ghost sh: map<Guid, SessionRec>)
    returns (fields': seq<AltField>, hashes': seq<AltHash>, idx: nat)
    requires AltView(log, fields, hashes, connecting) && SlotsView(log, sh, fields)
    ensures AltView(log, fields', hashes', connecting + multiset{name}) && SlotsView(log, sh, fields')
    ensures idx < |fields'| && fields'[idx].name == name
    ensures Renamed(fields, hashes, fields', connecting)
    ensures |fields'| != |fields| ==>
              && |fields'| == |fields| + 1 && !FieldAt(fields, name)
              && forall i :: 0 <= i < |fields| ==> fields[i].refcount != 0
  {
    fields', hashes' := fields, hashes;
    var found, slot := AltFieldFind(fields, name);
    if found {
      fields' := fields[slot := AltField(name, fields[slot].refcount + 1)];
      RefKnown(log, sh, fields, hashes, connecting, slot);
    } else if slot == -1 {
      slot := |fields|;
      fields', hashes' := fields + [AltField(name, 1)], hashes + [map[]];
      RefAppended(log, sh, fields, hashes, connecting, name);
    } else {
      RefRenamed(log, sh, fields, hashes, connecting, slot, name);
      assert hashes[slot] == map[];
      fields' := fields[slot := AltField(name, 1)];
    }
    idx := slot;
  }

  /** The first loop of session_set_alt_usernames(): reference the slot of every field. */
  method RefAltFields(fields: seq<AltField>, hashes: seq<AltHash>, alts: seq<(string, string)>,
                      ghost log: seq<Session>, ghost sh: map<Guid, SessionRec>)
    returns (fields': seq<AltField>, hashes': seq<AltHash>, idxs: seq<nat>, maxIdx: nat)
    requires alts != []
    requires AltView(log, fields, hashes, multiset{}) && SlotsView(log, sh, fields)
    ensures AltView(log, fields', hashes', NamesOf(alts)) && SlotsView(log, sh, fields')
    ensures SlotIndexes(fields', alts, idxs)
    ensures maxIdx in idxs && forall k :: 0 <= k < |idxs| ==> idxs[k] <= maxIdx
  {
    fields', hashes', idxs, maxIdx := fields, hashes, [], 0;
    for i := 0 to |alts|
      invariant Referenced(log, sh, fields', hashes', alts, i, idxs) && |idxs| == i
      invariant Largest(maxIdx, idxs)
    {
      var idx: nat;
      fields', hashes', idx := RefNext(fields', hashes', alts, i, idxs, log, sh);
      LargestNext(maxIdx, idxs, idx);
      idxs := idxs + [idx];
      maxIdx := if idx > maxIdx then idx else maxIdx;
    }
    assert alts[..|alts|] == alts;
  }

  ghost predicate Largest(max: nat, idxs: seq<nat>) {
    (if idxs == [] then max == 0 else max in idxs) && forall k :: 0 <= k < |idxs| ==> idxs[k] <= max
  }

  lemma LargestNext(max: nat, idxs: seq<nat>, idx: nat)
    requires Largest(max, idxs)
    ensures Largest(if idx > max then idx else max, idxs + [idx])
  {
    assert idx in idxs + [idx];
  }

  method RefNext(fields: seq<AltField>, hashes: seq<AltHash>, alts: seq<(string, string)>, i: nat, ghost idxs: seq<nat>,
                 ghost log: seq<Session>, ghost sh: map<Guid, SessionRec>)
    returns (fields': seq<AltField>, hashes': seq<AltHash>, idx: nat)
    requires i < |alts| && Referenced(log, sh, fields, hashes, alts, i, idxs)
    ensures Referenced(log, sh, fields', hashes', alts, i + 1, idxs + [idx])
  {
    NamesOfNext(alts, i);
    fields', hashes', idx := AltFieldRef(fields, hashes, alts[i].0, NamesOf(alts[..i]), log, sh);
    SlotIndexesNext(fields, hashes, fields', alts, i, idxs, idx);
  }

  /** The second loop of session_set_alt_usernames(): link every value into its slot's table. The assert that
      the slot is unused fails exactly if a name is supplied twice. */
  method LinkAltValues(fields: seq<AltField>, hashes: seq<AltHash>, guid: Guid, alts: seq<(string, string)>,
                       idxs: seq<nat>, maxIdx: nat, ghost s: Session, ghost log: seq<Session>)
    returns (hashes': seq<AltHash>, slots: seq<Option<string>>, panics: bool)
    requires s.guid == guid && s.alts == alts
    requires |fields| == |hashes| && UniqueFields(fields)
    requires SlotIndexes(fields, alts, idxs)
    requires maxIdx < |fields| && forall k :: 0 <= k < |idxs| ==> idxs[k] <= maxIdx
    requires forall i :: 0 <= i < |fields| ==> HashView(log, fields[i].name, hashes[i])
    ensures panics <==> !DistinctNames(alts)
    ensures !panics ==> |fields| == |hashes'|
    ensures !panics ==> forall i :: 0 <= i < |fields| ==>
              HashView([Linked(s, |alts|)] + log, fields[i].name, hashes'[i])
    ensures !panics ==> SlotsOf(alts, slots, fields)
  {
    AllNew(alts);
    hashes', slots, panics := hashes, seq(maxIdx + 1, _ => None), false;
    forall i | 0 <= i < |fields| ensures HashView([Linked(s, 0)] + log, fields[i].name, hashes[i]) {
      LinkStart(log, s, fields[i].name, hashes[i]);
    }
    for n := 0 to |alts|
      invariant |slots| == maxIdx + 1 && |fields| == |hashes'| && !panics
      invariant NewNames(alts, n)
      invariant forall i :: 0 <= i < |fields| ==> HashView([Linked(s, n)] + log, fields[i].name, hashes'[i])
      invariant SlotsFilled(slots, idxs, alts, n)
    {
      var idx, value := idxs[n], alts[n].1;
      FillSlot(fields, slots, idxs, alts, n);
      if slots[idx].Some? {
        panics := true;
        return;
      }
      NewNamesNext(alts, n);
      slots := slots[idx := Some(value)];
      LinkStep(log, s, n, fields, hashes', idx);
      var h := hashes'[idx];
      hashes' := hashes'[idx := h[value := [guid] + AltList(h, value)]];
    }
    LinkedSlots(alts, fields, idxs, slots);
  }

  method SetAltUsernames(fields: seq<AltField>, hashes: seq<AltHash>, guid: Guid, alts: seq<(string, string)>,
                         ghost s: Session, ghost log: seq<Session>, ghost sh: map<Guid, SessionRec>)
    returns (fields': seq<AltField>, hashes': seq<AltHash>, slots: seq<Option<string>>, panics: bool)
    requires s.guid == guid && s.alts == alts
    requires AltView(log, fields, hashes, multiset{}) && SlotsView(log, sh, fields)
    ensures panics <==> !DistinctNames(alts)
    ensures !panics ==> AltView([s] + log, fields', hashes', multiset{})
    ensures !panics ==> SlotsView(log, sh, fields') && SlotsOf(alts, slots, fields')
  {
    if |alts| == 0 {
      forall i | 0 <= i < |fields| ensures HashView([Linked(s, 0)] + log, fields[i].name, hashes[i]) {
        LinkStart(log, s, fields[i].name, hashes[i]);
      }
      AllLinked(log, s, fields, hashes);
      return fields, hashes, [], false;
    }
    var idxs, maxIdx;
    fields', hashes', idxs, maxIdx := RefAltFields(fields, hashes, alts, log, sh);
    assert forall i :: 0 <= i < |fields'| ==> FieldView(log, fields'[i], hashes'[i], NamesOf(alts)[fields'[i].name]);
    hashes', slots, panics := LinkAltValues(fields', hashes', guid, alts, idxs, maxIdx, s, log);
    if !panics {
      AllLinked(log, s, fields', hashes');
    }
  }

  // ----- connecting

  /** session_link_process(): entering a process into process_hash asserts that its key is not NULL. */
  method LinkProcess(ph: map<nat, Process>, pid: nat, kickType: KickType, guid: Guid)
    returns (ph': map<nat, Process>, panics: bool)
    ensures panics <==> pid == 0 && pid !in ph
    ensures !panics ==> ph' == ph[pid := Process(kickType, [guid] + ProcessList(ph, pid))]
  {
    if pid in ph {
      return ph[pid := Process(kickType, [guid] + ph[pid].sessions)], false;
    }
    if pid == 0 {
      return ph, true;
    }
    assert [guid] + ProcessList(ph, pid) == [guid];
    return ph[pid := Process(kickType, [guid])], false;
  }

  /** Tracked sessions of a user, IP and protocol share one record; any other has its own. */
  method RefUserIp(t: Tables, key: UserIp, tracked: bool, name: Addr, next: Addr, strings: map<string, nat>)
    returns (strings': map<string, nat>, counts: map<UserIp, UserIpEntry>, recs: map<Addr, UserIpRec>, next': Addr,
             at: Addr)
    ensures var shared := tracked && key in t.uih;
            at == (if shared then t.uih[key].rec else next) && next' == (if shared then next else next + 1)
            && strings' == (if shared then strings else StringUp(strings, key.protocol))
            && counts == (if tracked then t.uih[key := UserIpEntry(at, UserIpRefs(t.uih, key) + 1)] else t.uih)
            && recs == if shared then t.userips else t.userips[at := UserIpRec(name, key.protocol, key.ip)]
  {
    strings', counts, recs, next', at := strings, t.uih, t.userips, next, next;
    if !tracked || key !in counts {
      next' := next + 1;
      recs := recs[at := UserIpRec(name, key.protocol, key.ip)];
      strings' := StringUp(strings, key.protocol);
      if tracked {
        counts := counts[key := UserIpEntry(at, 1)];
      }
    } else {
      at := counts[key].rec;
      counts := counts[key := UserIpEntry(at, counts[key].refcount + 1)];
    }
  }

  /** The part of connect_limit_connect() after the alternative usernames are set. */
  method Register(t: Tables, pid: nat, user: string, service: string, ip: IpAddr, guid: Guid, kickType: KickType,
                  destIp: IpAddr, slots: seq<Option<string>>, ghost alts: seq<(string, string)>)
    returns (t': Tables, panics: bool)
    ensures panics <==> pid == 0 && pid !in t.ph
    ensures !panics ==> t' == ConnectUpdate(t, Session(guid, pid, user, service, ip, destIp, alts), kickType, slots)
  {
    var name, names, next := t.next, t.names, t.next;
    if user in t.uh {
      name := t.uh[user].name;
    } else {
      names, next := names[name := user], next + 1;
    }
    var strings, uih, userips, a;
    strings, uih, userips, next, a :=
      RefUserIp(t, UserIp(user, Protocol(service), ip), destIp.NoIp?, name, next, StringUp(t.strings, service));
    var ph;
    ph, panics := LinkProcess(t.ph, pid, kickType, guid);
    var sh := t.sh[guid := SessionRec(pid, a, service, destIp, slots)];
    var uh := t.uh[user := UserEntry(name, [guid] + UserList(t.uh, user))];
    t' := t.(strings := strings, uh := uh, uih := uih, sh := sh, ph := ph, names := names,
             userips := userips, next := next);
  }

  method ConnectTables(t: Tables, pid: nat, user: string, service: string, ip: IpAddr, guid: Guid, kickType: KickType,
                       destIp: IpAddr, alts: seq<(string, string)>, ghost r: Registry, ghost held: multiset<string>)
    returns (t': Tables, panics: bool)
    requires Holds(r, held, t)
    ensures panics <==> Panics(r, guid, pid, alts)
    ensures !panics ==> Holds(Connected(r, Session(guid, pid, user, service, ip, destIp, alts), kickType), held, t')
  {
    ghost var log := r.log;
    t', panics := t, false;
    LiveKeys(log, t.sh, guid);
    if guid in t.sh {
      return;
    }
    var fields, hashes, slots;
    fields, hashes, slots, panics := SetAltUsernames(t.fields, t.hashes, guid, alts,
                                                     Session(guid, pid, user, service, ip, destIp, alts), log, t.sh);
    if !panics {
      t', panics := RegisterNew(t, pid, user, service, ip, guid, kickType, destIp, fields, hashes, slots, alts, r, held);
    }
  }

  lemma ConnectHolds(r: Registry, held: multiset<string>, t: Tables, s: Session, kickType: KickType,
                     fields: seq<AltField>, hashes: seq<AltHash>, slots: seq<Option<string>>)
    requires Holds(r, held, t) && !Live(r.log, s.guid) && DistinctNames(s.alts)
    requires AltView([s] + r.log, fields, hashes, multiset{})
    requires SlotsView(r.log, t.sh, fields) && SlotsOf(s.alts, slots, fields)
    ensures 0 !in t.ph
    ensures s.pid != 0 ==>
              Holds(Connected(r, s, kickType), held,
                    ConnectUpdate(t.(fields := fields, hashes := hashes), s, kickType, slots))
  {
    assert t.ph.Keys == Kicks(t.ph).Keys;
    ConnectResult(r.log, t.(fields := fields, hashes := hashes), s, kickType, slots);
    assert Consistent([s] + r.log, held, ConnectUpdate(t.(fields := fields, hashes := hashes), s, kickType, slots)) by {
      LiveKeys(r.log, t.sh, s.guid);
      ConnectConsistent(r.log, held, t, s, kickType, fields, hashes, slots);
    }
  }

  method RegisterNew(t: Tables, pid: nat, user: string, service: string, ip: IpAddr, guid: Guid, kickType: KickType,
                     destIp: IpAddr, fields: seq<AltField>, hashes: seq<AltHash>, slots: seq<Option<string>>,
                     ghost alts: seq<(string, string)>, ghost r: Registry, ghost held: multiset<string>)
    returns (t': Tables, panics: bool)
    requires Holds(r, held, t) && !Live(r.log, guid) && DistinctNames(alts)
    requires AltView([Session(guid, pid, user, service, ip, destIp, alts)] + r.log, fields, hashes, multiset{})
    requires SlotsView(r.log, t.sh, fields) && SlotsOf(alts, slots, fields)
    ensures panics <==> pid == 0
    ensures !panics ==> Holds(Connected(r, Session(guid, pid, user, service, ip, destIp, alts), kickType), held, t')
  {
    ConnectHolds(r, held, t, Session(guid, pid, user, service, ip, destIp, alts), kickType, fields, hashes, slots);
    t', panics := Register(t.(fields := fields, hashes := hashes), pid, user, service, ip, guid, kickType, destIp,
                           slots, alts);
  }

  // ----- disconnecting

  method UnsetAltUsernames(fields: seq<AltField>, hashes: seq<AltHash>, guid: Guid, slots: seq<Option<string>>,
                           ghost s: Session, ghost log: seq<Session>)
    returns (fields': seq<AltField>, hashes': seq<AltHash>)
    requires UniqueGuids(log) && s in log && s.guid == guid && DistinctNames(s.alts)
    requires AltView(log, fields, hashes, multiset{}) && SlotsOf(s.alts, slots, fields)
    ensures AltView(Without(log, guid), fields', hashes', multiset{})
    ensures SameNames(fields, fields')
  {
    fields', hashes' := fields, hashes;
    for i := 0 to |slots|
      invariant |fields'| == |hashes'| && SameNames(fields, fields')
      invariant forall j :: 0 <= j < i ==> FieldView(Without(log, guid), fields'[j], hashes'[j], 0)
      invariant forall j :: i <= j < |fields'| ==> FieldView(log, fields'[j], hashes'[j], 0)
    {
      var field, h := fields'[i], hashes'[i];
      assert SlotOf(s.alts, slots[i], field.name);
      assert FieldView(log, field, h, 0);
      match slots[i] {
        case None =>
          UnlinkOther(log, s, field, h);
        case Some(value) =>
          UnlinkValue(log, s, field, h, value);
          var rest := Unlink(h[value], guid);
          hashes' := hashes'[i := if rest == [] then h - {value} else h[value := rest]];
          fields' := fields'[i := AltField(field.name, field.refcount - 1)];
      }
    }
    AllUnlinked(log, s, fields', hashes', fields, |slots|);
  }

  /** session_free(): drops the userip reference, the user list entry, the alternative usernames
      and the service string of a session that is no longer in session_hash. */
  method SessionFree(t: Tables, guid: Guid, rec: SessionRec, ghost s: Session, ghost log: seq<Session>)
    returns (t': Tables)
    requires s.guid == guid && s.service == rec.service && s.destIp == rec.destIp && DistinctNames(s.alts)
    requires Freeable(t, s, rec.userip)
    requires UniqueGuids(log) && s in log && AltView(log, t.fields, t.hashes, multiset{})
    requires SlotsOf(s.alts, rec.slots, t.fields)
    ensures AltView(Without(log, guid), t'.fields, t'.hashes, multiset{}) && SameNames(t.fields, t'.fields)
    ensures t' == FreeUpdate(t, s, rec.userip).(fields := t'.fields, hashes := t'.hashes)
  {
    var fields, hashes := UnsetAltUsernames(t.fields, t.hashes, guid, rec.slots, s, log);
    t' := FreeUserIp(t, rec.userip, rec.destIp.NoIp?, s);
    t' := FreeUser(t', t.userips[rec.userip].username, guid);
    t' := t'.(strings := StringDown(t'.strings, rec.service), fields := fields, hashes := hashes);
  }

  method FreeUserIp(t: Tables, a: Addr, tracked: bool, ghost s: Session) returns (t': Tables)
    requires Freeable(t, s, a) && tracked == Tracked(s)
    ensures t' == t.(strings := if LastUse(t, s) then StringDown(t.strings, Protocol(s.service)) else t.strings,
                     uih := if Tracked(s) then UserIpUnref(t.uih, UserIpOf(s)) else t.uih,
                     userips := if LastUse(t, s) then t.userips - {a} else t.userips)
  {
    var u := t.userips[a];
    t' := t;
    if tracked {
      var key := UserIp(t.names[u.username], u.protocol, u.ip);
      var refcount := t.uih[key].refcount - 1;
      if refcount > 0 {
        t' := t'.(uih := t.uih[key := UserIpEntry(t.uih[key].rec, refcount)]);
        return;
      }
      t' := t'.(uih := t.uih - {key});
    }
    t' := t'.(strings := StringDown(t.strings, u.protocol), userips := t.userips - {a});
  }

  method FreeUser(t: Tables, username: Addr, guid: Guid) returns (t': Tables)
    requires username in t.names && t.names[username] in t.uh && t.uh[t.names[username]].name == username
    ensures var u := t.names[username];
            t' == t.(uh := UserUnlink(t.uh, u, guid),
                     names := if Unlink(t.uh[u].sessions, guid) == [] then t.names - {username} else t.names)
  {
    var u := t.names[username];
    var rest := Unlink(t.uh[u].sessions, guid);
    if rest == [] {
      t' := t.(uh := t.uh - {u}, names := t.names - {username});
    } else {
      t' := t.(uh := t.uh[u := UserEntry(t.uh[u].name, rest)]);
    }
  }

  /** Removes a live session from session_hash, from its process and from everything else. */
  method Unregister(t: Tables, guid: Guid, ghost s: Session, ghost log: seq<Session>)
    returns (t': Tables)
    requires guid in t.sh && Describes(t, s, guid)
    requires UniqueGuids(log) && s in log && AltView(log, t.fields, t.hashes, multiset{})
    ensures AltView(Without(log, guid), t'.fields, t'.hashes, multiset{}) && SameNames(t.fields, t'.fields)
    ensures t' == DisconnectUpdate(t, s, t'.fields, t'.hashes)
  {
    var rec := t.sh[guid];
    var process := t.ph[rec.pid];
    var rest := Unlink(process.sessions, guid);
    var ph := if rest == [] then t.ph - {rec.pid} else t.ph[rec.pid := Process(process.kickType, rest)];
    t' := SessionFree(t.(sh := t.sh - {guid}, ph := ph), guid, rec, s, log);
  }

  lemma UnregisterConsistent(log: seq<Session>, held: multiset<string>, t: Tables, s: Session,
                             fields: seq<AltField>, hashes: seq<AltHash>)
    requires Consistent(log, held, t) && s in log && s.guid in t.sh && Describes(t, s, s.guid)
    requires AltView(Without(log, s.guid), fields, hashes, multiset{}) && SameNames(t.fields, fields)
    ensures Consistent(Without(log, s.guid), held, DisconnectUpdate(t, s, fields, hashes))
  {
    SlotsView'(log, t.sh, t.fields, fields);
    DisconnectConsistent(log, held, t, s, fields, hashes);
  }

  /** The parameter check of connect_limit_disconnect(), through the session's pointers. */
  method IsSession(t: Tables, pid: nat, user: string, service: string, ip: IpAddr, guid: Guid, ghost s: Session)
    returns (same: bool)
    requires guid in t.sh && Describes(t, s, guid)
    ensures same <==> Matches(s, pid, user, service, ip, guid)
  {
    var rec := t.sh[guid];
    var userip := t.userips[rec.userip];
    same := pid == rec.pid && ip == userip.ip && user == t.names[userip.username] && service == rec.service;
  }

  lemma DisconnectedLive(r: Registry, s: Session, pid: nat, user: string, service: string, ip: IpAddr)
    requires s in r.log && forall o :: o in r.log && o.guid == s.guid ==> o == s
    ensures Disconnected(r, pid, user, service, ip, s.guid) ==
            if Matches(s, pid, user, service, ip, s.guid)
            then var log := Without(r.log, s.guid);
                 Registry(log, if Pick(log, OfPid(pid)) == [] then r.kicks - {pid} else r.kicks)
            else r
  {
  }

  method DisconnectTables(t: Tables, pid: nat, user: string, service: string, ip: IpAddr, guid: Guid,
                          ghost r: Registry, ghost held: multiset<string>)
    returns (t': Tables)
    requires Holds(r, held, t)
    ensures Holds(Disconnected(r, pid, user, service, ip, guid), held, t')
  {
    ghost var log := r.log;
    t' := t;
    LiveKeys(log, t.sh, guid);
    if guid !in t.sh {
      return;
    }
    ghost var s := LiveSession(log, held, t, guid);
    DisconnectedLive(r, s, pid, user, service, ip);
    var same := IsSession(t, pid, user, service, ip, guid, s);
    if !same {
      return;
    }
    t' := Unregister(t, guid, s, log);
    UnregisterConsistent(log, held, t, s, t'.fields, t'.hashes);
    DisconnectKicks(log, t.ph, s);
  }

  /** process_hash as it will be once a process with no sessions left is removed. */
  ghost function Settled(t: Tables, pid: nat): Tables
    requires pid in t.ph
  {
    if t.ph[pid].sessions == [] then t.(ph := t.ph - {pid}) else t
  }

  lemma FirstSession(log: seq<Session>, held: multiset<string>, t: Tables, pid: nat) returns (s: Session)
    requires Consistent(log, held, t) && pid in t.ph
    ensures t.ph[pid].sessions != []
    ensures s in log && s.pid == pid && s.guid == t.ph[pid].sessions[0]
    ensures s.guid in t.sh && Describes(t, s, s.guid) && UniqueGuids(log)
  {
    var g := t.ph[pid].sessions[0];
    assert ProcessList(t.ph, pid) == Pick(log, OfPid(pid));
    PickMember(log, OfPid(pid), g);
    s :| s in log && s.guid == g && Has(s, OfPid(pid));
    ConsistentFreeable(log, held, t, s);
  }

  /** One round of the loop in connect_limit_process_free(). */
  method FreeFirstSession(t: Tables, pid: nat, ghost log: seq<Session>, ghost held: multiset<string>)
    returns (t': Tables, ghost s: Session)
    requires Consistent(log, held, t) && pid in t.ph
    ensures s in log && s.pid == pid && t.ph[pid].sessions != [] && UniqueGuids(log)
    ensures pid in t'.ph && t'.ph[pid].sessions == t.ph[pid].sessions[1..] && t'.ph - {pid} == t.ph - {pid}
    ensures Consistent(Without(log, s.guid), held, Settled(t', pid))
  {
    s := FirstSession(log, held, t, pid);
    t' := PopSession(t, pid, s, log);
    UnregisterConsistent(log, held, t, s, t'.fields, t'.hashes);
  }

  method PopSession(t: Tables, pid: nat, ghost s: Session, ghost log: seq<Session>) returns (t': Tables)
    requires pid in t.ph && t.ph[pid].sessions != [] && s.guid == t.ph[pid].sessions[0] && s.pid == pid
    requires s.guid in t.sh && Describes(t, s, s.guid)
    requires UniqueGuids(log) && s in log && AltView(log, t.fields, t.hashes, multiset{})
    ensures pid in t'.ph && t'.ph[pid].sessions == t.ph[pid].sessions[1..] && t'.ph - {pid} == t.ph - {pid}
    ensures AltView(Without(log, s.guid), t'.fields, t'.hashes, multiset{}) && SameNames(t.fields, t'.fields)
    ensures Settled(t', pid) == DisconnectUpdate(t, s, t'.fields, t'.hashes)
  {
    var process := t.ph[pid];
    var guid := process.sessions[0];
    var rec := t.sh[guid];
    var ph := t.ph[pid := Process(process.kickType, process.sessions[1..])];
    t' := SessionFree(t.(sh := t.sh - {guid}, ph := ph), guid, rec, s, log);
    assert ph - {pid} == t.ph - {pid};
  }

  /** connect_limit_process_free(): frees the sessions of a process one by one, then the process. */
  method ProcessFree(t: Tables, pid: nat, ghost r: Registry, ghost held: multiset<string>) returns (t': Tables)
    requires Holds(r, held, t) && pid in t.ph
    ensures Holds(DisconnectedPid(r, pid), held, t')
  {
    ghost var log, log' := r.log, r.log;
    t' := t;
    ProcessNonEmpty(log, t.ph, pid);
    while t'.ph[pid].sessions != []
      invariant pid in t'.ph && Consistent(log', held, Settled(t', pid))
      invariant t'.ph - {pid} == t.ph - {pid}
      invariant WithoutPid(log', pid) == WithoutPid(log, pid)
      decreases |t'.ph[pid].sessions|
    {
      ghost var s;
      t', s := FreeFirstSession(t', pid, log', held);
      WithoutThenPid(log', s);
      log' := Without(log', s.guid);
    }
    t' := t'.(ph := t'.ph - {pid});
    ProcessGone(log', t'.ph, pid);
    KicksWithout(t.ph, pid);
  }

  lemma KicksWithout(ph: map<nat, Process>, pid: nat)
    ensures Kicks(ph - {pid}) == Kicks(ph) - {pid}
  {
  }

  lemma ProcessNonEmpty(log: seq<Session>, ph: map<nat, Process>, pid: nat)
    requires ProcessView(log, ph) && pid in ph
    ensures ph[pid].sessions != []
  {
  }

  lemma ProcessGone(log: seq<Session>, ph: map<nat, Process>, pid: nat)
    requires ProcessView(log, ph) && pid !in ph
    ensures WithoutPid(log, pid) == log
  {
    assert ProcessList(ph, pid) == Pick(log, OfPid(pid));
    WithoutPidNone(log, pid);
  }

  lemma NonEmptyLog(log: seq<Session>)
    ensures log == [] || exists p :: Pick(log, OfPid(p)) != []
  {
    if log != [] {
      assert Pick(log, OfPid(log[0].pid)) != [];
    }
  }

  /** With no process left there is no session left, and every table is empty. */
  lemma NothingLeft(log: seq<Session>, held: multiset<string>, t: Tables)
    requires Consistent(log, held, t) && t.ph == map[]
    ensures log == [] && t.uh == map[] && t.uih == map[] && t.sh == map[] && t.userips == map[] && t.names == map[]
    ensures |t.fields| == |t.hashes|
    ensures forall i :: 0 <= i < |t.fields| ==> t.fields[i].refcount == 0 && t.hashes[i] == map[]
    ensures forall x :: StringRefs(t.strings, x) == held[x]
  {
    NonEmptyLog(log);
    assert forall p :: Pick(log, OfPid(p)) == ProcessList(t.ph, p) == [];
    assert t.uh == map[] by {
      forall u ensures u !in t.uh {
        assert UserList(t.uh, u) == Pick(log, OfUser(u));
      }
    }
    assert t.uih == map[] by {
      forall k ensures k !in t.uih {
        assert UserIpRefs(t.uih, k) == |Pick(log, OfUserIp(k))|;
      }
    }
    assert t.sh == map[] by {
      forall g ensures g !in t.sh {
        LiveKeys(log, t.sh, g);
      }
    }
    assert t.names == map[];
    assert t.userips == map[];
    forall i | 0 <= i < |t.fields| ensures t.fields[i].refcount == 0 && t.hashes[i] == map[] {
      assert FieldView(log, t.fields[i], t.hashes[i], 0);
      UnusedField(log, t.fields[i], t.hashes[i]);
    }
    forall x ensures StringRefs(t.strings, x) == held[x] {
      assert ProtocolKeys(t.uih.Keys, x) == {};
    }
  }

  // ----- iterating

  lemma ListedSession(log: seq<Session>, held: multiset<string>, t: Tables, index: Index, n: nat) returns (s: Session)
    requires Consistent(log, held, t) && n < |Pick(log, index)|
    ensures s in log && s.guid == Pick(log, index)[n] && s.guid in t.sh && Describes(t, s, s.guid)
    ensures forall r :: r in log && r.guid == s.guid ==> r == s
    ensures s.guid !in Pick(log, index)[..n]
  {
    PickMember(log, index, Pick(log, index)[n]);
    PickUnique(log, index);
    LiveKeys(log, t.sh, Pick(log, index)[n]);
    s := LiveSession(log, held, t, Pick(log, index)[n]);
  }

  /** One result, through the session's pointers. */
  method ResultOf(t: Tables, g: Guid, guid: Guid, exceptIp: Option<IpAddr>, ghost s: Session)
    returns (wanted: bool, r: IterResult)
    requires g in t.sh && Describes(t, s, g)
    ensures wanted == Wanted(s, guid, exceptIp) && r == ResultFor(s, t.ph[s.pid].kickType)
  {
    var rec := t.sh[g];
    var userip := t.userips[rec.userip];
    wanted := (guid == 0 || g == guid) && (exceptIp.None? || userip.ip != exceptIp.value);
    r := IterResult(t.ph[rec.pid].kickType, rec.pid, rec.service, t.names[userip.username], g);
  }

  /** Walks an index list, referencing the service string of every result, and sorts the results. */
  method Collect(t: Tables, list: seq<Guid>, guid: Guid, exceptIp: Option<IpAddr>,
                 ghost log: seq<Session>, ghost held: multiset<string>, ghost index: Index)
    returns (rs: seq<IterResult>, strings: map<string, nat>)
    requires Consistent(log, held, t) && list == Pick(log, index)
    ensures Returns(rs, log, Kicks(t.ph), index, guid, exceptIp) && Ordered(rs)
    ensures StringsView(log, t.uih, held + Services(rs), strings)
  {
    rs, strings := [], t.strings;
    assert held + Services(rs) == held;
    for n := 0 to |list|
      invariant Collected(rs, log, Kicks(t.ph), list, n, guid, exceptIp) && DistinctGuids(rs)
      invariant StringsView(log, t.uih, held + Services(rs), strings)
    {
      ghost var s := ListedSession(log, held, t, index, n);
      var wanted, r := ResultOf(t, list[n], guid, exceptIp, s);
      CollectNext(rs, log, Kicks(t.ph), list, n, guid, exceptIp, s);
      if wanted {
        HoldResult(log, t.uih, held, strings, rs, r);
        strings := StringUp(strings, r.service);
        rs := rs + [r];
      }
    }
    CollectAll(rs, log, Kicks(t.ph), index, guid, exceptIp);
    SortReturns(rs, log, Kicks(t.ph), index, guid, exceptIp);
    rs := Sort(rs);
  }

  method CollectAltUsername(t: Tables, field: string, value: string, exceptIp: Option<IpAddr>,
                            ghost log: seq<Session>, ghost held: multiset<string>)
    returns (rs: seq<IterResult>, strings: map<string, nat>)
    requires Consistent(log, held, t)
    ensures Returns(rs, log, Kicks(t.ph), OfAlt(field, value), 0, exceptIp) && Ordered(rs)
    ensures StringsView(log, t.uih, held + Services(rs), strings)
  {
    var found, idx := AltFieldFind(t.fields, field);
    if found {
      AltListView(log, t.fields, t.hashes, idx, value);
      rs, strings := Collect(t, AltList(t.hashes[idx], value), 0, exceptIp, log, held, OfAlt(field, value));
    } else {
      NoSuchField(log, t.sh, t.fields, field, value, Kicks(t.ph), exceptIp);
      rs, strings := [], t.strings;
      assert held + Services(rs) == held;
    }
  }

  lemma NoSuchField(log: seq<Session>, sh: map<Guid, SessionRec>, fields: seq<AltField>, field: string, value: string,
                    kicks: map<nat, KickType>, exceptIp: Option<IpAddr>)
    requires SlotsView(log, sh, fields) && !FieldAt(fields, field)
    ensures Returns([], log, kicks, OfAlt(field, value), 0, exceptIp)
  {
    UnknownField(log, sh, fields, field);
    assert forall s :: s in log && Has(s, OfAlt(field, value)) ==> HasField(s, field);
  }

  lemma AltListView(log: seq<Session>, fields: seq<AltField>, hashes: seq<AltHash>, idx: nat, value: string)
    requires AltView(log, fields, hashes, multiset{}) && idx < |fields|
    ensures AltList(hashes[idx], value) == Pick(log, OfAlt(fields[idx].name, value))
  {
    assert FieldView(log, fields[idx], hashes[idx], 0);
  }

  /** Drops the string references of an iterator's results. */
  method Release(strings: map<string, nat>, rs: seq<IterResult>,
                 ghost log: seq<Session>, ghost uih: map<UserIp, UserIpEntry>, ghost rest: multiset<string>)
    returns (strings': map<string, nat>)
    requires StringsView(log, uih, Services(rs) + rest, strings)
    ensures StringsView(log, uih, rest, strings')
  {
    strings' := strings;
    assert rs[0..] == rs;
    for n := 0 to |rs|
      invariant StringsView(log, uih, Services(rs[n..]) + rest, strings')
    {
      ReleaseFirst(log, uih, rest, strings', rs[n..]);
      assert rs[n..][1..] == rs[n + 1..];
      strings' := StringDown(strings', rs[n].service);
    }
    assert Services(rs[|rs|..]) + rest == rest;
  }

  class ConnectLimit {
    var t: Tables
    ghost var r: Registry             // what the tables stand for
    // services referenced by open iterators
    ghost var held: multiset<string>

    ghost predicate Valid()
      reads this
    {
      Holds(r, held, t)
    }

    constructor ()
      ensures Valid() && r == Registry([], map[]) && held == multiset{}
    {
      t := Tables(map[], map[], map[], map[], map[], [], [], map[], map[], 0);
      r, held := Registry([], map[]), multiset{};
    }

    /** The number of live, not proxied sessions of this user from this IP whose service has
        the same name up to the first '-'. */
    method Lookup(user: string, service: string, ip: IpAddr) returns (count: nat)
      requires Valid()
      ensures count == |Pick(r.log, OfUserIp(UserIp(user, Protocol(service), ip)))|
      ensures count == Connections(r.log, user, Protocol(service), ip)
    {
      ConnectionsCounted(r.log, UserIp(user, Protocol(service), ip));
      count := UserIpRefs(t.uih, UserIp(user, Protocol(service), ip));
    }

    /** Registers a session; a GUID that is already live is refused. An assert fails exactly if the GUID is new
        and the session is of process 0 or supplies a field name twice. */
    method Connect(pid: nat, user: string, service: string, ip: IpAddr, guid: Guid, kickType: KickType,
                   destIp: IpAddr, alts: seq<(string, string)>)
      returns (panics: bool)
      requires Valid()
      modifies this`t, this`r
      ensures panics <==> Panics(old(r), guid, pid, alts)
      ensures !panics ==> Valid()
      ensures !panics ==> r == Connected(old(r), Session(guid, pid, user, service, ip, destIp, alts), kickType)
    {
      t, panics := ConnectTables(t, pid, user, service, ip, guid, kickType, destIp, alts, r, held);
      r := Connected(r, Session(guid, pid, user, service, ip, destIp, alts), kickType);
    }

    /** Unregisters a session; parameters that differ from the session's own are refused. */
    method Disconnect(pid: nat, user: string, service: string, ip: IpAddr, guid: Guid)
      requires Valid()
      modifies this`t, this`r
      ensures Valid()
      ensures r == Disconnected(old(r), pid, user, service, ip, guid)
    {
      t := DisconnectTables(t, pid, user, service, ip, guid, r, held);
      r := Disconnected(r, pid, user, service, ip, guid);
    }

    /** Unregisters every session of a process. */
    method DisconnectPid(pid: nat)
      requires Valid()
      modifies this`t, this`r
      ensures Valid()
      ensures r == DisconnectedPid(old(r), pid)
    {
      if pid in t.ph {
        t := ProcessFree(t, pid, r, held);
        r := DisconnectedPid(r, pid);
      } else {
        ProcessGone(r.log, t.ph, pid);
        KicksWithout(t.ph, pid);
        assert t.ph - {pid} == t.ph;
      }
    }

    /** Frees all processes; then every assert of connect_limit_deinit() holds, nothing is leaked
        and the string table holds open iterators' references only. */
    method Deinit()
      requires Valid()
      modifies this`t, this`r
      ensures r.log == [] && t.ph == map[] && t.uh == map[] && t.uih == map[] && t.sh == map[]
      ensures t.userips == map[] && t.names == map[]
      ensures |t.fields| == |t.hashes|
      ensures forall i :: 0 <= i < |t.fields| ==> t.fields[i].refcount == 0 && t.hashes[i] == map[]
      ensures forall x :: StringRefs(t.strings, x) == held[x]
    {
      while exists pid :: pid in t.ph
        invariant Valid()
        decreases t.ph.Keys
      {
        var pid :| pid in t.ph;
        ghost var before := t.ph;
        t := ProcessFree(t, pid, r, held);
        r := DisconnectedPid(r, pid);
        assert t.ph.Keys == Kicks(t.ph).Keys == Kicks(before).Keys - {pid};
        assert Kicks(before).Keys == before.Keys;
      }
      assert t.ph == map[];
      NothingLeft(r.log, held, t);
    }

    /** Iterates over a user's sessions, all of them or the one with the given GUID. */
    method IterBegin(user: string, guid: Guid) returns (rs: seq<IterResult>)
      requires Valid()
      modifies this`t, this`held
      ensures Valid() && r == old(r) && held == old(held) + Services(rs)
      ensures Returns(rs, r.log, r.kicks, OfUser(user), guid, None) && Ordered(rs)
    {
      assert UserList(t.uh, user) == Pick(r.log, OfUser(user));
      var strings;
      rs, strings := Collect(t, UserList(t.uh, user), guid, None, r.log, held, OfUser(user));
      t, held := t.(strings := strings), held + Services(rs);
    }

    /** Iterates over the sessions that supplied this value for this alternative-username field,
        except those from the given IP. */
    method IterBeginAltUsername(field: string, value: string, exceptIp: Option<IpAddr>) returns (rs: seq<IterResult>)
      requires Valid()
      modifies this`t, this`held
      ensures Valid() && r == old(r) && held == old(held) + Services(rs)
      ensures Returns(rs, r.log, r.kicks, OfAlt(field, value), 0, exceptIp) && Ordered(rs)
    {
      var strings;
      rs, strings := CollectAltUsername(t, field, value, exceptIp, r.log, held);
      t, held := t.(strings := strings), held + Services(rs);
    }

    /** Closes an iterator, whatever was connected or disconnected since it was opened. */
    method IterDeinit(rs: seq<IterResult>)
      requires Valid() && Services(rs) <= held
      modifies this`t, this`held
      ensures Valid() && r == old(r) && held == old(held) - Services(rs)
    {
      ghost var rest := held - Services(rs);
      assert held == Services(rs) + rest;
      var strings := Release(t.strings, rs, r.log, t.uih, rest);
      t, held := t.(strings := strings), rest;
    }
  }
}
