/** How the alternative-username slots follow the reference list of live sessions.
    A slot whose reference count dropped to zero may be renamed by a later connect; the
    lemmas show that this never attaches a live session to a name it did not supply.
 */
module AltFieldViews {
  import opened Options
  import opened SessionLog
  import opened RegistryViews

  ghost predicate FieldAt(fields: seq<AltField>, name: string) {
    Named(fields, |fields|, name)
  }

  /** A name that no slot carries belongs to no live session. */
  lemma UnknownField(log: seq<Session>, sh: map<Guid, SessionRec>, fields: seq<AltField>, name: string)
    requires SlotsView(log, sh, fields) && !FieldAt(fields, name)
    ensures forall s :: s in log ==> !HasField(s, name)
  {
    forall s | s in log ensures !HasField(s, name) {
      assert SlotsOf(s.alts, sh[s.guid].slots, fields);
    }
  }

  /** A slot with no references has an empty hash table. */
  lemma UnusedField(log: seq<Session>, field: AltField, h: AltHash)
    requires FieldView(log, field, h, 0) && field.refcount == 0
    ensures h == map[]
    ensures forall s :: s in log ==> !HasField(s, field.name)
  {
    PickEmpty(log, OfField(field.name));
    assert forall s :: s in log ==> !Has(s, OfField(field.name));
    forall v ensures v !in h {
      PickEmpty(log, OfAlt(field.name, v));
      assert forall s :: s in log && Has(s, OfAlt(field.name, v)) ==> HasField(s, field.name);
      assert AltList(h, v) == [];
    }
  }

  /** A name no live session has may be given to an empty hash table. */
  lemma NewFieldView(log: seq<Session>, name: string)
    requires forall s :: s in log ==> !HasField(s, name)
    ensures FieldView(log, AltField(name, 1), map[], 1)
  {
    PickEmpty(log, OfField(name));
    forall v ensures Pick(log, OfAlt(name, v)) == [] {
      PickEmpty(log, OfAlt(name, v));
      assert forall s :: s in log && Has(s, OfAlt(name, v)) ==> HasField(s, name);
    }
  }

  lemma KeepNamed(fields: seq<AltField>, fields': seq<AltField>, connecting: multiset<string>, name: string)
    requires |fields| <= |fields'| && FieldAt(fields', name)
    requires forall n :: n in connecting ==> FieldAt(fields, n)
    requires forall i :: 0 <= i < |fields| && fields'[i].name != fields[i].name ==> fields[i].name !in connecting
    ensures forall n :: n in connecting + multiset{name} ==> FieldAt(fields', n)
  {
    forall n | n in connecting + multiset{name} ensures FieldAt(fields', n) {
      if n in connecting {
        var i :| 0 <= i < |fields| && fields[i].name == n;
        assert fields'[i].name == n;
      }
    }
  }

  lemma RefKnown(log: seq<Session>, sh: map<Guid, SessionRec>, fields: seq<AltField>, hashes: seq<AltHash>,
                 connecting: multiset<string>, idx: nat)
    requires AltView(log, fields, hashes, connecting) && SlotsView(log, sh, fields)
    requires idx < |fields|
    ensures AltView(log, fields[idx := AltField(fields[idx].name, fields[idx].refcount + 1)], hashes,
                    connecting + multiset{fields[idx].name})
    ensures SlotsView(log, sh, fields[idx := AltField(fields[idx].name, fields[idx].refcount + 1)])
  {
    SlotsView'(log, sh, fields, fields[idx := AltField(fields[idx].name, fields[idx].refcount + 1)]);
    var fields' := fields[idx := AltField(fields[idx].name, fields[idx].refcount + 1)];
    var connecting' := connecting + multiset{fields[idx].name};
    KeepNamed(fields, fields', connecting, fields[idx].name);
    forall i | 0 <= i < |fields'|
      ensures FieldView(log, fields'[i], hashes[i], connecting'[fields'[i].name])
    {
      assert FieldView(log, fields[i], hashes[i], connecting[fields[i].name]);
    }
  }

  lemma RefRenamed(log: seq<Session>, sh: map<Guid, SessionRec>, fields: seq<AltField>, hashes: seq<AltHash>,
                   connecting: multiset<string>, idx: nat, name: string)
    requires AltView(log, fields, hashes, connecting) && SlotsView(log, sh, fields)
    requires idx < |fields| && fields[idx].refcount == 0 && !FieldAt(fields, name)
    ensures hashes[idx] == map[] && fields[idx].name !in connecting
    ensures AltView(log, fields[idx := AltField(name, 1)], hashes, connecting + multiset{name})
    ensures SlotsView(log, sh, fields[idx := AltField(name, 1)])
  {
    var fields' := fields[idx := AltField(name, 1)];
    assert fields'[idx].name == name;
    assert FieldView(log, fields[idx], hashes[idx], connecting[fields[idx].name]);
    UnusedField(log, fields[idx], hashes[idx]);
    UnknownField(log, sh, fields, name);
    NewFieldView(log, name);
    KeepNamed(fields, fields', connecting, name);
    forall i | 0 <= i < |fields'|
      ensures FieldView(log, fields'[i], hashes[i], (connecting + multiset{name})[fields'[i].name])
    {
      if i != idx {
        assert FieldView(log, fields[i], hashes[i], connecting[fields[i].name]);
        assert fields[i].name != name;
      }
    }
    forall s | s in log ensures s.guid in sh && SlotsOf(s.alts, sh[s.guid].slots, fields') {
      SlotsRenamed(s, sh[s.guid].slots, fields, idx, name);
    }
  }

  lemma SlotsRenamed(s: Session, slots: seq<Option<string>>, fields: seq<AltField>, idx: nat, name: string)
    requires SlotsOf(s.alts, slots, fields) && idx < |fields|
    requires !HasField(s, fields[idx].name) && !HasField(s, name)
    ensures SlotsOf(s.alts, slots, fields[idx := AltField(name, 1)])
  {
    var fields' := fields[idx := AltField(name, 1)];
    forall i | 0 <= i < |slots| ensures SlotOf(s.alts, slots[i], fields'[i].name) {
      assert SlotOf(s.alts, slots[i], fields[i].name);
    }
    forall a | a in s.alts ensures Named(fields', |slots|, a.0) {
      var i :| 0 <= i < |slots| && fields[i].name == a.0;
      assert fields'[i].name == a.0;
    }
  }

  lemma RefAppended(log: seq<Session>, sh: map<Guid, SessionRec>, fields: seq<AltField>, hashes: seq<AltHash>,
                    connecting: multiset<string>, name: string)
    requires AltView(log, fields, hashes, connecting) && SlotsView(log, sh, fields) && !FieldAt(fields, name)
    ensures AltView(log, fields + [AltField(name, 1)], hashes + [map[]], connecting + multiset{name})
    ensures SlotsView(log, sh, fields + [AltField(name, 1)])
  {
    var fields', hashes' := fields + [AltField(name, 1)], hashes + [map[]];
    UnknownField(log, sh, fields, name);
    NewFieldView(log, name);
    assert forall n :: n in connecting + multiset{name} ==> FieldAt(fields', n) by {
      assert fields'[|fields|].name == name;
      KeepNamed(fields, fields', connecting, name);
    }
    forall i | 0 <= i < |fields'|
      ensures FieldView(log, fields'[i], hashes'[i], (connecting + multiset{name})[fields'[i].name])
    {
      if i < |fields| {
        assert FieldView(log, fields[i], hashes[i], connecting[fields[i].name]);
        assert fields[i].name != name;
      }
    }
    SlotsView'(log, sh, fields, fields');
  }

  /** Slots depend on the names of the fields only. */
  lemma SlotsView'(log: seq<Session>, sh: map<Guid, SessionRec>, fields: seq<AltField>, fields': seq<AltField>)
    requires SlotsView(log, sh, fields) && |fields| <= |fields'|
    requires forall i :: 0 <= i < |fields| ==> fields'[i].name == fields[i].name
    ensures SlotsView(log, sh, fields')
  {
    forall s | s in log ensures s.guid in sh && SlotsOf(s.alts, sh[s.guid].slots, fields') {
      SlotsSame(s.alts, sh[s.guid].slots, fields, fields');
    }
  }

  lemma SlotsSame(alts: seq<(string, string)>, slots: seq<Option<string>>, fields: seq<AltField>, fields': seq<AltField>)
    requires SlotsOf(alts, slots, fields) && |fields| <= |fields'|
    requires forall i :: 0 <= i < |fields| ==> fields'[i].name == fields[i].name
    ensures SlotsOf(alts, slots, fields')
  {
    forall a | a in alts ensures Named(fields', |slots|, a.0) {
      var i :| 0 <= i < |slots| && fields[i].name == a.0;
      assert fields'[i].name == a.0;
    }
  }

  // ----- linking the values of a new session

  /** The connecting session as far as its first n values are linked. */
  ghost function Linked(s: Session, n: nat): Session
    requires n <= |s.alts|
  {
    s.(alts := s.alts[..n])
  }

  lemma LinkStart(log: seq<Session>, s: Session, name: string, h: AltHash)
    requires HashView(log, name, h)
    ensures HashView([Linked(s, 0)] + log, name, h)
  {
    forall v ensures Pick([Linked(s, 0)] + log, OfAlt(name, v)) == Pick(log, OfAlt(name, v)) {
      PickCons(Linked(s, 0), log, OfAlt(name, v));
    }
  }

  lemma LinkOther(log: seq<Session>, s: Session, n: nat, name: string, h: AltHash)
    requires n < |s.alts| && s.alts[n].0 != name && HashView([Linked(s, n)] + log, name, h)
    ensures HashView([Linked(s, n + 1)] + log, name, h)
  {
    assert s.alts[..n + 1] == s.alts[..n] + [s.alts[n]];
    forall v ensures Pick([Linked(s, n + 1)] + log, OfAlt(name, v)) == Pick([Linked(s, n)] + log, OfAlt(name, v)) {
      PickCons(Linked(s, n + 1), log, OfAlt(name, v));
      PickCons(Linked(s, n), log, OfAlt(name, v));
    }
  }

  lemma LinkValue(log: seq<Session>, s: Session, n: nat, h: AltHash)
    requires n < |s.alts| && NewName(s.alts, n) && HashView([Linked(s, n)] + log, s.alts[n].0, h)
    ensures HashView([Linked(s, n + 1)] + log, s.alts[n].0,
                     h[s.alts[n].1 := [s.guid] + AltList(h, s.alts[n].1)])
  {
    var (name, value) := s.alts[n];
    var h' := h[value := [s.guid] + AltList(h, value)];
    assert s.alts[..n + 1] == s.alts[..n] + [s.alts[n]];
    forall v ensures AltList(h', v) == Pick([Linked(s, n + 1)] + log, OfAlt(name, v)) {
      PickCons(Linked(s, n + 1), log, OfAlt(name, v));
      PickCons(Linked(s, n), log, OfAlt(name, v));
      assert (name, v) !in s.alts[..n];
      assert AltList(h, v) == Pick(log, OfAlt(name, v));
    }
  }

  lemma LinkEnd(log: seq<Session>, s: Session, field: AltField, h: AltHash, extra: nat)
    requires HashView([Linked(s, |s.alts|)] + log, field.name, h)
    requires field.refcount == |Pick(log, OfField(field.name))| + extra
    requires extra == if HasField(s, field.name) then 1 else 0
    ensures FieldView([s] + log, field, h, 0)
  {
    assert s.alts[..|s.alts|] == s.alts;
    PickCons(s, log, OfField(field.name));
  }

  /** The names supplied, as often as they were. */
  ghost function NamesOf(alts: seq<(string, string)>): multiset<string> {
    if alts == [] then multiset{} else NamesOf(alts[..|alts| - 1]) + multiset{alts[|alts| - 1].0}
  }

  lemma NamesOfNext(alts: seq<(string, string)>, n: nat)
    requires n < |alts|
    ensures NamesOf(alts[..n + 1]) == NamesOf(alts[..n]) + multiset{alts[n].0}
    ensures alts[..n + 1] == alts[..n] + [alts[n]]
  {
    assert alts[..n + 1][..n] == alts[..n];
  }

  lemma {:induction false} NamesOfMember(alts: seq<(string, string)>, name: string)
    ensures name in NamesOf(alts) <==> exists a :: a in alts && a.0 == name
    ensures DistinctNames(alts) ==> NamesOf(alts)[name] <= 1
  {
    if alts != [] {
      var n := |alts| - 1;
      NamesOfMember(alts[..n], name);
      assert alts == alts[..n] + [alts[n]];
    }
  }

  ghost predicate NewNames(alts: seq<(string, string)>, n: nat)
    requires n <= |alts|
  {
    forall k :: 0 <= k < n ==> NewName(alts, k)
  }

  lemma NewNamesNext(alts: seq<(string, string)>, n: nat)
    requires n < |alts| && NewNames(alts, n) && NewName(alts, n)
    ensures NewNames(alts, n + 1)
  {
  }

  lemma AllNew(alts: seq<(string, string)>)
    ensures DistinctNames(alts) <==> NewNames(alts, |alts|)
  {
    if NewNames(alts, |alts|) {
      forall i, j | 0 <= i < j < |alts| ensures alts[i].0 != alts[j].0 {
        assert NewName(alts, j);
      }
    }
  }

  /** The n-th name was not supplied before. */
  ghost predicate NewName(alts: seq<(string, string)>, n: nat)
    requires n < |alts|
  {
    forall k :: 0 <= k < n ==> alts[k].0 != alts[n].0
  }

  /** idxs[k] is the slot that carries the k-th supplied name. */
  ghost predicate SlotIndexes(fields: seq<AltField>, alts: seq<(string, string)>, idxs: seq<nat>) {
    && |idxs| == |alts|
    && forall k :: 0 <= k < |alts| ==> idxs[k] < |fields| && fields[idxs[k]].name == alts[k].0
  }

  /** The first n names are referenced, and idxs are their slots. */
  ghost predicate Referenced(log: seq<Session>, sh: map<Guid, SessionRec>, fields: seq<AltField>, hashes: seq<AltHash>,
                             alts: seq<(string, string)>, n: nat, idxs: seq<nat>)
    requires n <= |alts|
  {
    && AltView(log, fields, hashes, NamesOf(alts[..n])) && SlotsView(log, sh, fields)
    && SlotIndexes(fields, alts[..n], idxs)
  }

  /** A slot is renamed only when nothing refers to it, in particular no connect in progress. */
  ghost predicate Renamed(fields: seq<AltField>, hashes: seq<AltHash>, fields': seq<AltField>,
                          connecting: multiset<string>)
  {
    && |fields| == |hashes|
    && |fields| <= |fields'|
    && forall i :: 0 <= i < |fields| && fields'[i].name != fields[i].name ==>
         fields[i].refcount == 0 && hashes[i] == map[] && fields[i].name !in connecting
  }

  lemma SlotIndexesNext(fields: seq<AltField>, hashes: seq<AltHash>, fields': seq<AltField>,
                        alts: seq<(string, string)>, n: nat, idxs: seq<nat>, idx: nat)
    requires n < |alts| && SlotIndexes(fields, alts[..n], idxs)
    requires Renamed(fields, hashes, fields', NamesOf(alts[..n]))
    requires idx < |fields'| && fields'[idx].name == alts[n].0
    ensures SlotIndexes(fields', alts[..n + 1], idxs + [idx])
  {
    forall k | 0 <= k < n ensures fields'[idxs[k]].name == alts[k].0 {
      assert alts[..n][k] == alts[k];
      assert alts[..n][k] in alts[..n];
      NamesOfMember(alts[..n], alts[k].0);
    }
  }

  /** The first n values are in their slots, and nothing else is. */
  ghost predicate SlotsFilled(slots: seq<Option<string>>, idxs: seq<nat>, alts: seq<(string, string)>, n: nat)
    requires n <= |idxs| == |alts|
  {
    && (forall k :: 0 <= k < |idxs| ==> idxs[k] < |slots|)
    && (forall k :: 0 <= k < n ==> slots[idxs[k]] == Some(alts[k].1))
    && (forall i :: 0 <= i < |slots| && slots[i].Some? ==> exists k :: 0 <= k < n && idxs[k] == i)
  }

  /** A value finds its slot unused exactly if its name is new. */
  lemma FillSlot(fields: seq<AltField>, slots: seq<Option<string>>, idxs: seq<nat>, alts: seq<(string, string)>, n: nat)
    requires SlotIndexes(fields, alts, idxs) && UniqueFields(fields) && n < |alts|
    requires SlotsFilled(slots, idxs, alts, n)
    ensures slots[idxs[n]].None? <==> NewName(alts, n)
    ensures NewName(alts, n) ==> SlotsFilled(slots[idxs[n] := Some(alts[n].1)], idxs, alts, n + 1)
  {
    if slots[idxs[n]].Some? {
      var k :| 0 <= k < n && idxs[k] == idxs[n];
      assert alts[k].0 == alts[n].0;
    } else {
      assert forall k :: 0 <= k < n ==> idxs[k] != idxs[n];
      assert NewName(alts, n);
    }
    var slots' := slots[idxs[n] := Some(alts[n].1)];
    forall i | 0 <= i < |slots'| && slots'[i].Some? ensures exists k :: 0 <= k < n + 1 && idxs[k] == i {
      if i == idxs[n] {
        assert idxs[n] == i;
      } else {
        var k :| 0 <= k < n && idxs[k] == i;
      }
    }
  }

  lemma LinkStep(log: seq<Session>, s: Session, n: nat, fields: seq<AltField>, hashes: seq<AltHash>, idx: nat)
    requires |fields| == |hashes| && UniqueFields(fields)
    requires n < |s.alts| && NewName(s.alts, n) && idx < |fields| && fields[idx].name == s.alts[n].0
    requires forall i :: 0 <= i < |fields| ==> HashView([Linked(s, n)] + log, fields[i].name, hashes[i])
    ensures forall i :: 0 <= i < |fields| ==>
              HashView([Linked(s, n + 1)] + log, fields[i].name,
                       hashes[idx := hashes[idx][s.alts[n].1 := [s.guid] + AltList(hashes[idx], s.alts[n].1)]][i])
  {
    forall i | 0 <= i < |fields|
      ensures HashView([Linked(s, n + 1)] + log, fields[i].name,
                       hashes[idx := hashes[idx][s.alts[n].1 := [s.guid] + AltList(hashes[idx], s.alts[n].1)]][i])
    {
      if i == idx {
        LinkValue(log, s, n, hashes[i]);
      } else {
        LinkOther(log, s, n, fields[i].name, hashes[i]);
      }
    }
  }

  lemma LinkedSlots(alts: seq<(string, string)>, fields: seq<AltField>, idxs: seq<nat>, slots: seq<Option<string>>)
    requires SlotIndexes(fields, alts, idxs) && UniqueFields(fields) && |slots| <= |fields|
    requires SlotsFilled(slots, idxs, alts, |alts|)
    ensures SlotsOf(alts, slots, fields)
  {
    forall i | 0 <= i < |slots| ensures SlotOf(alts, slots[i], fields[i].name) {
      if slots[i].Some? {
        var k :| 0 <= k < |idxs| && idxs[k] == i;
        assert (fields[i].name, slots[i].value) == alts[k];
      } else {
        forall a | a in alts ensures a.0 != fields[i].name {
          var k :| 0 <= k < |alts| && alts[k] == a;
          assert idxs[k] != i;
        }
      }
    }
    forall a | a in alts ensures Named(fields, |slots|, a.0) {
      var k :| 0 <= k < |alts| && alts[k] == a;
      assert fields[idxs[k]].name == a.0;
    }
  }

  lemma AllLinked(log: seq<Session>, s: Session, fields: seq<AltField>, hashes: seq<AltHash>)
    requires |fields| == |hashes| && UniqueFields(fields) && DistinctNames(s.alts)
    requires forall i :: 0 <= i < |fields| ==>
               HashView([Linked(s, |s.alts|)] + log, fields[i].name, hashes[i])
    requires forall i :: 0 <= i < |fields| ==>
               fields[i].refcount == |Pick(log, OfField(fields[i].name))| + NamesOf(s.alts)[fields[i].name]
    ensures AltView([s] + log, fields, hashes, multiset{})
  {
    forall i | 0 <= i < |fields| ensures FieldView([s] + log, fields[i], hashes[i], 0) {
      NamesOfMember(s.alts, fields[i].name);
      LinkEnd(log, s, fields[i], hashes[i], NamesOf(s.alts)[fields[i].name]);
    }
  }

  // ----- unlinking the values of a session

  function HashUnlink(h: AltHash, v: string, g: Guid): AltHash
    requires v in h
  {
    var rest := Unlink(h[v], g);
    if rest == [] then h - {v} else h[v := rest]
  }

  lemma UnlinkValue(log: seq<Session>, s: Session, field: AltField, h: AltHash, value: string)
    requires UniqueGuids(log) && s in log && DistinctNames(s.alts)
    requires FieldView(log, field, h, 0) && (field.name, value) in s.alts
    ensures value in h && field.refcount > 0
    ensures FieldView(Without(log, s.guid), AltField(field.name, field.refcount - 1),
                      HashUnlink(h, value, s.guid), 0)
  {
    PickWithout(log, s, OfAlt(field.name, value));
    assert AltList(h, value) == Pick(log, OfAlt(field.name, value));
    assert Has(s, OfField(field.name));
    PickWithoutSize(log, s, OfField(field.name));
    var h' := HashUnlink(h, value, s.guid);
    forall v ensures AltList(h', v) == Pick(Without(log, s.guid), OfAlt(field.name, v)) {
      PickWithout(log, s, OfAlt(field.name, v));
      assert AltList(h, v) == Pick(log, OfAlt(field.name, v));
      assert v != value ==> (field.name, v) !in s.alts;
    }
  }

  lemma UnlinkOther(log: seq<Session>, s: Session, field: AltField, h: AltHash)
    requires UniqueGuids(log) && s in log && FieldView(log, field, h, 0) && !HasField(s, field.name)
    ensures FieldView(Without(log, s.guid), field, h, 0)
  {
    PickWithoutSize(log, s, OfField(field.name));
    forall v ensures AltList(h, v) == Pick(Without(log, s.guid), OfAlt(field.name, v)) {
      PickWithout(log, s, OfAlt(field.name, v));
      assert Has(s, OfAlt(field.name, v)) ==> HasField(s, field.name);
    }
  }

  ghost predicate SameNames(fields: seq<AltField>, fields': seq<AltField>) {
    && |fields| == |fields'|
    && forall i :: 0 <= i < |fields| ==> fields'[i].name == fields[i].name
  }

  lemma AllUnlinked(log: seq<Session>, s: Session, fields: seq<AltField>, hashes: seq<AltHash>,
                    before: seq<AltField>, n: nat)
    requires UniqueGuids(log) && s in log && |fields| == |hashes| && n <= |fields|
    requires SameNames(before, fields) && UniqueFields(before)
    requires forall a :: a in s.alts ==> Named(before, n, a.0)
    requires forall j :: 0 <= j < n ==> FieldView(Without(log, s.guid), fields[j], hashes[j], 0)
    requires forall j :: n <= j < |fields| ==> FieldView(log, fields[j], hashes[j], 0)
    ensures AltView(Without(log, s.guid), fields, hashes, multiset{})
  {
    forall j | n <= j < |fields| ensures FieldView(Without(log, s.guid), fields[j], hashes[j], 0) {
      assert !HasField(s, fields[j].name) by {
        forall a | a in s.alts ensures a.0 != fields[j].name {
          var i :| 0 <= i < n && before[i].name == a.0;
          assert before[i].name != before[j].name;
        }
      }
      UnlinkOther(log, s, fields[j], hashes[j]);
    }
  }
}
