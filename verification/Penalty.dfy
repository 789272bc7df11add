/** The penalty tracker of anvil: records by identifier, in a list ordered by last update, with a timer that
    drops the expired ones.
 */
module Penalty {
  import opened Options
  import opened PenaltySpec

  /** Moves the slots before the i-th one up and puts a checksum in front. */
  method MoveToFront(a: array<nat>, i: nat, checksum: nat)
    requires i < a.Length
    modifies a
    ensures a[..] == [checksum] + old(a[..])[..i] + old(a[..])[i + 1..]
  {
    ghost var was := a[..];
    var j := i;
    while j > 0
      invariant 0 <= j <= i
      invariant forall k :: 0 <= k <= j || i < k < a.Length ==> a[k] == was[k]
      invariant forall k :: j < k <= i ==> a[k] == was[k - 1]
    {
      a[j] := a[j - 1];
      j := j - 1;
    }
    a[0] := checksum;
  }

  class PenaltyRec {
    var lastPenalty: nat
    var penalty: nat
    var lastUpdate: nat              // offset from lastPenalty, 15 bits
    var checksumIsPointer: bool
    var checksums: array<nat>        // two inline slots, or ten allocated ones

    ghost predicate Is(r: Record)
      reads this, checksums
    {
      && penalty == r.penalty && lastPenalty == r.lastPenalty
      && lastUpdate < OFFSET_RANGE && lastPenalty + lastUpdate == r.lastInc < TIME_RANGE
      && Slots(checksums[..], r.mru)
      && checksumIsPointer == (checksums.Length == SLOTS) == (|r.mru| > INLINE_SLOTS)
    }

    constructor ()
      ensures Is(NEW_RECORD) && fresh(checksums)
    {
      lastPenalty, penalty, lastUpdate, checksumIsPointer := 0, 0, 0, false;
      checksums := new nat[INLINE_SLOTS](_ => 0);
      new;
    }

    /** penalty_bump_checksum() */
    method Bump(checksum: nat, ghost mru: seq<nat>) returns (found: bool)
      requires Slots(checksums[..], mru) && NoDuplicates(mru) && checksum != 0
      modifies checksums
      ensures found <==> InFirstTen(mru, checksum)
      ensures if found
              then Slots(checksums[..], [checksum] + Remove(mru, checksum)) && |Remove(mru, checksum)| == |mru| - 1
              else checksums[..] == old(checksums[..])
    {
      SlotsHold(checksums[..], mru, checksum);
      var i := 0;
      while i < checksums.Length
        invariant i <= checksums.Length && checksum !in checksums[..i]
      {
        if checksums[i] == checksum {
          SlotsBump(checksums[..], mru, checksum, i);
          MoveToFront(checksums, i, checksum);
          return true;
        }
        i := i + 1;
      }
      assert checksums[..i] == checksums[..];
      return false;
    }

    /** penalty_add_checksum(): the third checksum moves the two inline ones to the heap. */
    method Add(checksum: nat, ghost mru: seq<nat>)
      requires Slots(checksums[..], mru)
      requires checksumIsPointer == (checksums.Length == SLOTS) == (|mru| > INLINE_SLOTS)
      requires NoDuplicates(mru) && checksum != 0 && checksum !in checksums[..]
      modifies `checksums, `checksumIsPointer, checksums
      ensures Slots(checksums[..], [checksum] + Remove(mru, checksum))
      ensures checksumIsPointer == (checksums.Length == SLOTS) == (|Remove(mru, checksum)| + 1 > INLINE_SLOTS)
      ensures checksums == old(checksums) || fresh(checksums)
    {
      if !checksumIsPointer && checksums[INLINE_SLOTS - 1] != 0 {
        var wide := new nat[SLOTS](_ => 0);
        wide[0], wide[1] := checksums[0], checksums[1];
        SlotsGrow(checksums[..], mru, wide[..]);
        checksums, checksumIsPointer := wide, true;
      }
      SlotsAdd(checksums[..], mru, checksum);
      MoveToFront(checksums, checksums.Length - 1, checksum);
    }

    /** Sets the time of the last update, relative to the last penalty as far as 15 bits reach. */
    method Stamp(now: nat)
      requires lastPenalty <= now < TIME_RANGE
      modifies `lastPenalty, `lastUpdate
      ensures lastUpdate < OFFSET_RANGE && lastPenalty + lastUpdate == now
      ensures lastPenalty ==
              if now - old(lastPenalty) >= OFFSET_RANGE then now - (OFFSET_RANGE - 1) else old(lastPenalty)
    {
      var diff := now - lastPenalty;
      if diff >= OFFSET_RANGE {
        lastUpdate := OFFSET_RANGE - 1;
        lastPenalty := now - lastUpdate;
      } else {
        lastUpdate := diff;
      }
    }

    /** The part of penalty_inc() that changes the record. */
    method Inc(checksum: nat, value: nat, now: nat, ghost r: Record)
      requires Is(r) && NoDuplicates(r.mru) && r.lastInc <= now < TIME_RANGE && (value > 0 || checksum == 0)
      modifies this, checksums
      ensures Is(IncrementedIf(checksum != 0 && InFirstTen(r.mru, checksum), r, checksum, value, now))
      ensures checksums == old(checksums) || fresh(checksums)
    {
      if checksum == 0 {
        penalty, lastPenalty := value % PENALTY_RANGE, now;
      } else {
        SlotsHold(checksums[..], r.mru, checksum);
        var found := Bump(checksum, r.mru);
        if found {
          penalty := (value - 1) % PENALTY_RANGE;
        } else {
          Add(checksum, r.mru);
          penalty, lastPenalty := value % PENALTY_RANGE, now;
        }
      }
      Stamp(now);
    }

    /** The search of penalty_has_checksum(). */
    method Has(checksum: nat, ghost r: Record) returns (found: bool)
      requires Is(r)
      ensures if checksum != 0 then found <==> InFirstTen(r.mru, checksum) else found <==> HasFreeSlot(r)
    {
      if checksum != 0 {
        SlotsHold(checksums[..], r.mru, checksum);
      } else {
        FreeSlot(checksums[..], r.mru);
      }
      var i := 0;
      while i < checksums.Length
        invariant i <= checksums.Length && checksum !in checksums[..i]
      {
        if checksums[i] == checksum {
          return true;
        }
        i := i + 1;
      }
      assert checksums[..i] == checksums[..];
      return false;
    }
  }

  const UINT_RANGE := 0x1_0000_0000

  lemma SetTwice(m: Records, ident: string, a: Record, b: Record)
    ensures m[ident := a][ident := b] == m[ident := b]
  {
  }

  lemma SetSame(m: Records, ident: string)
    requires ident in m
    ensures m[ident := m[ident]] == m
  {
  }

  /** The records by identifier. `view` is what they hold, `owner` which record an object is part of. */
  class Store {
    var hash: map<string, PenaltyRec>
    ghost var view: Records
    ghost var owner: map<object, string>

    /** The record of an identifier holds what `view` says, and shares nothing with the others. */
    ghost predicate Holds(ident: string)
      requires ident in view
      reads this, owner.Keys
    {
      && ident in hash
      && hash[ident] in owner && owner[hash[ident]] == ident
      && hash[ident].checksums in owner && owner[hash[ident].checksums] == ident
      && hash[ident].Is(view[ident])
    }

    ghost predicate Valid()
      reads this, owner.Keys
    {
      && this !in owner
      && (forall ident {:trigger Holds(ident)} :: ident in view ==> Holds(ident))
      && (forall ident {:trigger ident in hash} :: ident in hash ==> ident in view)
    }

    ghost function Before(ident: string): Record
      reads this
    {
      if ident in view then view[ident] else NEW_RECORD
    }

    constructor ()
      ensures Valid() && view == map[] && owner == map[]
    {
      hash, view, owner := map[], map[], map[];
    }

    method Enter(ident: string, rec: PenaltyRec)
      requires Valid() && ident !in view && rec !in owner && rec.checksums !in owner && rec.Is(NEW_RECORD)
      modifies this
      ensures Valid() && view == old(view)[ident := NEW_RECORD]
      ensures owner.Keys == old(owner.Keys) + {rec, rec.checksums}
    {
      owner := owner[rec := ident][rec.checksums := ident];
      view := view[ident := NEW_RECORD];
      hash := hash[ident := rec];
      forall id | id in view ensures Holds(id) {
        assert id != ident ==> old(Holds(id));
      }
    }

    method Ensure(ident: string)
      requires Valid()
      modifies this
      ensures Valid() && fresh(owner.Keys - old(owner.Keys))
      ensures view == old(view)[ident := old(Before(ident))]
    {
      assert ident in view ==> Holds(ident);
      if ident !in hash {
        var rec := new PenaltyRec();
        Enter(ident, rec);
      } else {
        SetSame(view, ident);
      }
    }

    /** Incrementing one record leaves the others alone. */
    method Change(ident: string, checksum: nat, value: nat, now: nat, ghost r: Record)
      requires Valid() && ident in view && r == view[ident] && NoDuplicates(r.mru) && Holds(ident)
      requires r.lastInc <= now < TIME_RANGE && (value > 0 || checksum == 0)
      modifies hash[ident], hash[ident].checksums
      ensures hash[ident].Is(IncrementedIf(checksum != 0 && InFirstTen(r.mru, checksum), r, checksum, value, now))
      ensures hash[ident].checksums == old(hash[ident].checksums) || fresh(hash[ident].checksums)
      ensures forall id {:trigger Holds(id)} :: id in view && id != ident ==> Holds(id)
    {
      var rec := hash[ident];
      label Before:
      rec.Inc(checksum, value, now, r);
      forall id | id in view && id != ident ensures Holds(id) {
        assert old@Before(Holds(id));
        assert unchanged@Before(hash[id]) && unchanged@Before(hash[id].checksums);
      }
    }

    ghost method Refresh(ident: string, r: Record)
      requires this !in owner && ident in view
      requires forall id {:trigger id in hash} :: id in hash ==> id in view
      requires ident in hash && hash[ident] in owner && owner[hash[ident]] == ident && hash[ident].Is(r)
      requires hash[ident].checksums in owner ==> owner[hash[ident].checksums] == ident
      requires forall id {:trigger Holds(id)} :: id in view && id != ident ==> Holds(id)
      modifies `view, `owner
      ensures Valid() && view == old(view)[ident := r] && owner == old(owner)[hash[ident].checksums := ident]
    {
      view := view[ident := r];
      owner := owner[hash[ident].checksums := ident];
      forall id | id in view ensures Holds(id) {
        assert id != ident ==> old(Holds(id));
      }
    }

    /** The record is created if needed, and incremented. */
    method Update(ident: string, checksum: nat, value: nat, now: nat, ghost r: Record, ghost recent: bool)
      requires Valid() && r == Before(ident) && NoDuplicates(r.mru)
      requires r.lastInc <= now < TIME_RANGE && (value > 0 || checksum == 0)
      requires recent == (checksum != 0 && InFirstTen(r.mru, checksum))
      modifies this, owner.Keys
      ensures Valid() && fresh(owner.Keys - old(owner.Keys))
      ensures view == old(view)[ident := IncrementedIf(recent, r, checksum, value, now)]
    {
      ghost var was := view;
      Ensure(ident);
      SetTwice(was, ident, r, IncrementedIf(recent, r, checksum, value, now));
      assert Holds(ident);
      Change(ident, checksum, value, now, r);
      Refresh(ident, IncrementedIf(recent, r, checksum, value, now));
    }

    /** The last update of a record, in unsigned arithmetic. */
    method Updated(ident: string) returns (time: nat)
      requires Valid() && ident in view
      ensures time == view[ident].lastInc
    {
      assert Holds(ident);
      var rec := hash[ident];
      time := (rec.lastPenalty + rec.lastUpdate) % TIME_RANGE;
    }

    method Drop(ident: string)
      requires Valid()
      modifies this
      ensures Valid() && owner == old(owner) && view == old(view) - {ident}
    {
      hash := hash - {ident};
      view := view - {ident};
      forall id | id in view ensures Holds(id) {
        assert old(Holds(id));
      }
    }

    /** penalty_get() */
    method Get(ident: string) returns (penalty: nat, lastPenalty: nat)
      requires Valid()
      ensures penalty == Before(ident).penalty && lastPenalty == Before(ident).lastPenalty
    {
      assert ident in view ==> Holds(ident);
      if ident !in hash {
        return 0, 0;
      }
      return hash[ident].penalty, hash[ident].lastPenalty;
    }

    /** The search of penalty_has_checksum(), by the order of last use. */
    method HasChecksum(ident: string, checksum: nat) returns (found: bool)
      requires Valid()
      ensures ident !in view ==> !found
      ensures ident in view ==>
                found == if checksum != 0 then InFirstTen(view[ident].mru, checksum) else HasFreeSlot(view[ident])
    {
      assert ident in view ==> Holds(ident);
      if ident !in hash {
        return false;
      }
      var rec := hash[ident];
      found := rec.Has(checksum, view[ident]);
    }
  }

  /** A timer that fires in some seconds, counted in milliseconds in unsigned arithmetic. */
  method Arm(now: nat, secs: nat) returns (timer: Option<nat>)
    ensures timer.Some? && timer.value <= 1000 * (now + secs)
    ensures secs * 1000 < UINT_RANGE ==> timer == Some(1000 * (now + secs))
  {
    timer := Some(1000 * now + secs * 1000 % UINT_RANGE);
  }

  class Tracker {
    const store: Store
    var list: seq<string>             // identifiers, from oldest to newest
    var expireSecs: nat
    var timer: Option<nat>            // when it fires, in milliseconds
    ghost var clock: nat              // the time of the last call

    ghost predicate Valid()
      reads this, store, store.owner.Keys
    {
      && this !in store.owner && store.Valid()
      && Timeline(list, store.view, clock) && AllKept(store.view)
      && (timer.Some? <==> list != [])
    }

    /** The timer fires before the oldest record has been expired for any time. */
    ghost predicate InTime()
      reads this, store
    {
      InTimeFor(timer, list, store.view, expireSecs)
    }

    constructor ()
      ensures Valid() && InTime() && fresh(store) && fresh(store.owner.Keys)
      ensures store.view == map[] && expireSecs == EXPIRE_SECS && clock == 0
    {
      store := new Store();
      list, expireSecs, timer, clock := [], EXPIRE_SECS, None, 0;
    }

    /** penalty_set_expire_secs(): the timer is left alone. After the time was lowered it fires late by at most the
        difference, and it is in time exactly if the time was not lowered when it was set to the last moment. */
    method SetExpireSecs(secs: nat)
      requires Valid() && secs < UINT_RANGE
      modifies `expireSecs
      ensures Valid() && expireSecs == secs
      ensures old(InTime()) && secs >= old(expireSecs) ==> InTime()
      ensures old(InTime()) && secs < old(expireSecs) ==> InTimeFor(timer, list, store.view, old(expireSecs))
      ensures list != [] && timer == Some(1000 * (store.view[list[0]].lastInc + old(expireSecs))) ==>
                (InTime() <==> secs >= old(expireSecs))
    {
      expireSecs := secs;
    }

    /** penalty_get() */
    method Get(ident: string) returns (penalty: nat, lastPenalty: nat)
      requires Valid()
      ensures penalty == store.Before(ident).penalty && lastPenalty == store.Before(ident).lastPenalty
    {
      penalty, lastPenalty := store.Get(ident);
    }

    /** penalty_has_checksum() */
    method HasChecksum(ident: string, checksum: nat) returns (found: bool)
      requires Valid()
      ensures checksum != 0 ==> (found <==> Recent(store.Before(ident).uses, checksum))
      ensures checksum == 0 ==> (found <==> ident in store.view && HasFreeSlot(store.view[ident]))
    {
      found := store.HasChecksum(ident, checksum);
      FirstTenAreRecent(store.Before(ident).uses, checksum);
    }

    /** penalty_inc() */
    method Inc(ident: string, checksum: nat, value: nat, now: nat)
      requires Valid() && clock <= now < TIME_RANGE && (value > 0 || checksum == 0)
      modifies this, store, store.owner.Keys
      ensures Valid() && fresh(store.owner.Keys - old(store.owner.Keys)) && (old(InTime()) ==> InTime())
      ensures store.view == old(store.view)[ident := Incremented(old(store.Before(ident)), checksum, value, now)]
      ensures list == Unlisted(old(list), ident) + [ident]
      ensures clock == now && expireSecs == old(expireSecs)
    {
      ghost var r, was := store.Before(ident), store.view;
      ghost var recent := checksum != 0 && Recent(r.uses, checksum);
      IncStep(list, was, clock, ident, r, checksum, value, now);
      IncInTime(timer, list, was, expireSecs, clock, ident, IncrementedIf(recent, r, checksum, value, now), now);
      Append(ident, now);
      store.Update(ident, checksum, value, now, r, recent);
    }

    /** Moves a record to the end of the list, and arms the timer if there is none. */
    method Append(ident: string, now: nat)
      modifies `list, `clock, `timer
      ensures list == Unlisted(old(list), ident) + [ident] && clock == now
      ensures timer.Some? && (old(timer.Some?) ==> timer == old(timer))
      ensures old(timer.None?) ==> timer.value <= 1000 * (now + expireSecs)
      ensures old(timer.None?) && expireSecs * 1000 < UINT_RANGE ==> timer.value == 1000 * (now + expireSecs)
    {
      list := Unlisted(list, ident) + [ident];
      clock := now;
      if timer.None? {
        timer := Arm(now, expireSecs);
      }
    }

    /** penalty_timeout(): drops exactly the expired records, and arms the timer for the next one. */
    method Timeout(now: nat) returns (ghost dropped: seq<string>)
      requires Valid() && clock <= now < TIME_RANGE
      modifies this, store
      ensures Valid() && InTime() && store.owner == old(store.owner)
      ensures store.view == Unexpired(old(store.view), expireSecs, now)
      ensures old(list) == dropped + list
      ensures list != [] && expireSecs * 1000 < UINT_RANGE ==>
                timer == Some(1000 * (store.view[list[0]].lastInc + expireSecs))
      ensures clock == now && expireSecs == old(expireSecs)
    {
      var next;
      clock := now;
      next, dropped := Scan(now);
      assert Unexpired(store.view, expireSecs, now) == store.view by {
        OldestDecides(list, store.view, now, expireSecs, now);
      }
      Rearm(now, next);
    }

    /** The timer for a record that was last incremented at that time, if there is one. */
    method Rearm(now: nat, next: Option<nat>)
      requires next.Some? ==> now < next.value + expireSecs && next.value <= now
      modifies `timer
      ensures timer.Some? <==> next.Some?
      ensures next.Some? ==> timer.value <= 1000 * (next.value + expireSecs)
      ensures next.Some? && expireSecs * 1000 < UINT_RANGE ==> timer.value == 1000 * (next.value + expireSecs)
    {
      timer := None;
      if next.Some? {
        timer := Arm(now, next.value - (now - expireSecs));
      }
    }

    /** Drops the records up to the first unexpired one, and returns its last update. */
    method Scan(now: nat) returns (next: Option<nat>, ghost dropped: seq<string>)
      requires store.Valid() && this !in store.owner && Timeline(list, store.view, now) && AllKept(store.view)
      modifies `list, store
      ensures store.Valid() && store.owner == old(store.owner)
      ensures Scanned(old(list), old(store.view), dropped, list, store.view, expireSecs, now)
      ensures next.None? <==> list == []
      ensures next.Some? ==> next.value == store.view[list[0]].lastInc && next.value > now - expireSecs
    {
      ghost var all, view0 := list, store.view;
      dropped := [];
      while list != []
        invariant store.Valid() && store.owner == old(store.owner)
        invariant Scanned(all, view0, dropped, list, store.view, expireSecs, now)
        decreases |list|
      {
        var updated := store.Updated(list[0]);
        if updated > now - expireSecs {
          return Some(updated), dropped;
        }
        ScanStep(all, view0, dropped, list, store.view, expireSecs, now);
        dropped := dropped + [list[0]];
        store.Drop(list[0]);
        list := list[1..];
      }
      next := None;
    }
  }

  /** What is reported after two failures of a user who had none: with the same checksum the second costs one less and
      the penalty keeps its time; with another one, or none, it costs the full value from then on. */
  method TwoFailures(ident: string, checksum1: nat, value1: nat, now1: nat, checksum2: nat, value2: nat, now2: nat)
    returns (penalty: nat, lastPenalty: nat)
    requires now1 <= now2 < TIME_RANGE && value1 > 0 && value2 > 0
    ensures checksum1 == checksum2 != 0 ==>
              && penalty == (value2 - 1) % 0x1_0000
              && lastPenalty == if now2 - now1 < 0x8000 then now1 else now2 - 0x7fff
    ensures checksum1 != checksum2 || checksum2 == 0 ==> penalty == value2 % 0x1_0000 && lastPenalty == now2
  {
    var tracker := OneFailure(ident, checksum1, value1, now1);
    tracker.Inc(ident, checksum2, value2, now2);
    penalty, lastPenalty := tracker.Get(ident);
    TwoUses(checksum1, value1, now1, checksum2, value2, now2);
  }

  method OneFailure(ident: string, checksum: nat, value: nat, now: nat) returns (tracker: Tracker)
    requires now < TIME_RANGE && value > 0
    ensures fresh(tracker) && fresh(tracker.store) && fresh(tracker.store.owner.Keys) && tracker.Valid()
    ensures tracker.clock == now && tracker.store.Before(ident) == Incremented(NEW_RECORD, checksum, value, now)
  {
    tracker := new Tracker();
    tracker.Inc(ident, checksum, value, now);
  }
}
