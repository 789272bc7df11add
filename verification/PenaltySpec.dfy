/** What a penalty record means: the checksums used with it, and the penalty and its time.
 */
module PenaltySpec {
  import opened Options

  const EXPIRE_SECS := 60 * 60
  const SLOTS := 10                    // CHECKSUM_VALUE_PTR_COUNT
  const INLINE_SLOTS := 2              // CHECKSUM_VALUE_COUNT
  const OFFSET_RANGE := 0x8000         // the 15 bits of last_update
  const PENALTY_RANGE := 0x1_0000      // the 16 bits of penalty
  const TIME_RANGE := 0x1_0000_0000    // unsigned int

  /** A record: `lastInc` is the time of the last increment, `uses` are the nonzero checksums it was
      incremented with, `mru` the same in order of last use. */
  datatype Record = Record(penalty: nat, lastPenalty: nat, lastInc: nat, uses: seq<nat>, mru: seq<nat>)

  const NEW_RECORD := Record(0, 0, 0, [], [])

  ghost function Remove(l: seq<nat>, c: nat): seq<nat> {
    if l == [] then [] else if l[0] == c then Remove(l[1..], c) else [l[0]] + Remove(l[1..], c)
  }

  /** The checksums in order of last use, newest first, without any limit. */
  ghost function Mru(uses: seq<nat>): seq<nat> {
    if uses == [] then []
    else
      var n := |uses| - 1;
      [uses[n]] + Remove(Mru(uses[..n]), uses[n])
  }

  /** The uses after the last use of a checksum, or all if there is none. */
  ghost function After(uses: seq<nat>, c: nat): seq<nat> {
    if uses == [] || uses[|uses| - 1] == c then []
    else After(uses[..|uses| - 1], c) + [uses[|uses| - 1]]
  }

  ghost function Distinct(l: seq<nat>): set<nat> {
    set c | c in l
  }

  /** Fewer than ten other checksums have been used since the last use of this one. */
  ghost predicate Recent(uses: seq<nat>, c: nat) {
    c in uses && |Distinct(After(uses, c))| < SLOTS
  }

  ghost predicate NoDuplicates(l: seq<nat>) {
    forall i, j :: 0 <= i < j < |l| ==> l[i] != l[j]
  }

  ghost predicate InFirstTen(mru: seq<nat>, c: nat) {
    exists p :: 0 <= p < |mru| && p < SLOTS && mru[p] == c
  }

  /** What the slots of a record hold: the newest checksums, then zeros. Two slots are enough as long as two
      checksums were used. */
  ghost predicate Slots(slots: seq<nat>, mru: seq<nat>) {
    && (|slots| == SLOTS || (|slots| == INLINE_SLOTS && |mru| <= INLINE_SLOTS))
    && (forall i :: 0 <= i < |mru| ==> mru[i] != 0)
    && (forall i :: 0 <= i < |slots| ==> slots[i] == if i < |mru| then mru[i] else 0)
  }

  /** The third checksum makes room for ten, so only two, or ten and more, leave no slot free. */
  ghost predicate HasFreeSlot(r: Record) {
    |r.mru| < SLOTS && |r.mru| != INLINE_SLOTS
  }

  ghost predicate WellKept(r: Record) {
    r.mru == Mru(r.uses) && forall i :: 0 <= i < |r.uses| ==> r.uses[i] != 0
  }

  /** penalty_inc(): a checksum used recently costs one less and does not renew the penalty; the time of the
      penalty is moved up when it is out of reach of the 15-bit offset. */
  ghost function Incremented(r: Record, checksum: nat, value: nat, now: nat): Record
    requires value > 0 || checksum == 0
  {
    IncrementedIf(checksum != 0 && Recent(r.uses, checksum), r, checksum, value, now)
  }

  ghost function IncrementedIf(recent: bool, r: Record, checksum: nat, value: nat, now: nat): Record
    requires recent ==> value > 0
  {
    var since := if recent then r.lastPenalty else now;
    Record((if recent then value - 1 else value) % PENALTY_RANGE,
           if now - since >= OFFSET_RANGE then now - (OFFSET_RANGE - 1) else since,
           now,
           if checksum == 0 then r.uses else r.uses + [checksum],
           if checksum == 0 then r.mru else [checksum] + Remove(r.mru, checksum))
  }

  lemma JustUsed(uses: seq<nat>, c: nat)
    ensures Recent(uses + [c], c)
  {
    var uses' := uses + [c];
    assert uses'[|uses|] == c;
    assert After(uses', c) == [];
    assert Distinct([]) == {};
  }

  /** The same checksum again: one less than the value, and the penalty stays as old as it was, as far back as 15 bits
      reach. */
  lemma RepeatedUse(r: Record, checksum: nat, value1: nat, now1: nat, value2: nat, now2: nat)
    requires checksum != 0 && value1 > 0 && value2 > 0
    ensures var r1 := Incremented(r, checksum, value1, now1);
            var r2 := Incremented(r1, checksum, value2, now2);
            r2.penalty == (value2 - 1) % 0x1_0000 && r2.lastInc == now2
            && r2.lastPenalty == if now2 - r1.lastPenalty < 0x8000 then r1.lastPenalty else now2 - 0x7fff
  {
    JustUsed(r.uses, checksum);
  }

  /** Without a checksum, or with one that was not used recently: the full value, from now on. */
  lemma FirstUse(r: Record, checksum: nat, value: nat, now: nat)
    requires (value > 0 || checksum == 0) && (checksum == 0 || !Recent(r.uses, checksum))
    ensures var r' := Incremented(r, checksum, value, now);
            r'.penalty == value % 0x1_0000 && r'.lastPenalty == now && r'.lastInc == now
  {
  }

  /** Two increments of a new record. */
  lemma TwoUses(checksum1: nat, value1: nat, now1: nat, checksum2: nat, value2: nat, now2: nat)
    requires value1 > 0 && value2 > 0
    ensures var r := Incremented(Incremented(NEW_RECORD, checksum1, value1, now1), checksum2, value2, now2);
            if checksum1 == checksum2 != 0
            then r.penalty == (value2 - 1) % 0x1_0000
                 && r.lastPenalty == if now2 - now1 < 0x8000 then now1 else now2 - 0x7fff
            else r.penalty == value2 % 0x1_0000 && r.lastPenalty == now2
  {
    FirstUse(NEW_RECORD, checksum1, value1, now1);
    if checksum1 == checksum2 && checksum2 != 0 {
      RepeatedUse(NEW_RECORD, checksum1, value1, now1, value2, now2);
    } else {
      FirstUse(Incremented(NEW_RECORD, checksum1, value1, now1), checksum2, value2, now2);
    }
  }

  lemma {:induction false} RemoveSplit(l: seq<nat>, c: nat, i: nat)
    requires NoDuplicates(l) && i < |l| && l[i] == c
    ensures Remove(l, c) == l[..i] + l[i + 1..]
  {
    if i == 0 {
      RemoveAbsent(l[1..], c);
    } else {
      RemoveSplit(l[1..], c, i - 1);
    }
  }

  lemma {:induction false} RemoveAbsent(l: seq<nat>, c: nat)
    requires c !in l
    ensures Remove(l, c) == l
  {
    if l != [] {
      RemoveAbsent(l[1..], c);
    }
  }

  lemma RemoveKeeps(l: seq<nat>, c: nat)
    requires NoDuplicates(l)
    ensures NoDuplicates(Remove(l, c)) && c !in Remove(l, c)
    ensures forall x :: x in Remove(l, c) <==> x in l && x != c
  {
    if i :| 0 <= i < |l| && l[i] == c {
      RemoveSplit(l, c, i);
      forall x | x in l && x != c ensures x in l[..i] + l[i + 1..] {
        var j :| 0 <= j < |l| && l[j] == x;
        assert j < i ==> (l[..i] + l[i + 1..])[j] == x;
        assert j > i ==> (l[..i] + l[i + 1..])[j - 1] == x;
      }
    } else {
      RemoveAbsent(l, c);
    }
  }

  lemma {:induction false} MruMembers(uses: seq<nat>)
    ensures NoDuplicates(Mru(uses))
    ensures forall c :: c in Mru(uses) <==> c in uses
  {
    if uses != [] {
      var n := |uses| - 1;
      MruMembers(uses[..n]);
      RemoveKeeps(Mru(uses[..n]), uses[n]);
      forall c ensures c in uses <==> c in uses[..n] || c == uses[n] {
        assert uses == uses[..n] + [uses[n]];
      }
    }
  }

  lemma MruUse(uses: seq<nat>, c: nat)
    ensures Mru(uses + [c]) == [c] + Remove(Mru(uses), c)
  {
    assert (uses + [c])[..|uses|] == uses;
  }

  /** Before a checksum in the list are exactly those used after it. */
  lemma {:induction false} MruPosition(uses: seq<nat>, c: nat) returns (p: nat)
    requires c in uses
    ensures p < |Mru(uses)| && Mru(uses)[p] == c && Distinct(Mru(uses)[..p]) == Distinct(After(uses, c))
  {
    var n := |uses| - 1;
    var last, before := uses[n], uses[..n];
    if last == c {
      p := 0;
    } else {
      assert uses == before + [last];
      var q := MruPosition(before, c);
      MruMembers(before);
      var m := Mru(before);
      RemoveKeeps(m, last);
      p := MovedTo(m, last, q);
      assert Distinct(After(uses, c)) == Distinct(After(before, c)) + {last};
    }
  }

  /** Moving another element to the front. */
  lemma MovedTo(m: seq<nat>, last: nat, q: nat) returns (p: nat)
    requires NoDuplicates(m) && q < |m| && m[q] != last
    ensures var m' := [last] + Remove(m, last);
            p < |m'| && m'[p] == m[q] && Distinct(m'[..p]) == Distinct(m[..q]) + {last}
  {
    if i :| 0 <= i < |m| && m[i] == last {
      RemoveSplit(m, last, i);
      var m' := [last] + (m[..i] + m[i + 1..]);
      p := if i < q then q else q + 1;
      if i < q {
        assert m'[..p] == [last] + (m[..i] + m[i + 1..q]);
        assert m[..q] == m[..i] + [last] + m[i + 1..q];
      } else {
        assert m'[..p] == [last] + m[..q];
      }
    } else {
      RemoveAbsent(m, last);
      p := q + 1;
      assert ([last] + m)[..p] == [last] + m[..q];
    }
  }

  lemma {:induction false} DistinctSize(l: seq<nat>)
    requires NoDuplicates(l)
    ensures |Distinct(l)| == |l|
  {
    if l != [] {
      var n := |l| - 1;
      DistinctSize(l[..n]);
      assert Distinct(l) == Distinct(l[..n]) + {l[n]};
    }
  }

  /** The first ten of the unlimited list are the recent checksums. */
  lemma FirstTenAreRecent(uses: seq<nat>, c: nat)
    ensures Recent(uses, c) <==> InFirstTen(Mru(uses), c)
  {
    MruMembers(uses);
    if c in uses {
      var p := MruPosition(uses, c);
      DistinctSize(Mru(uses)[..p]);
    }
  }

  /** An increment keeps the list of last uses, and judges the checksum by it. */
  lemma IncrementKeeps(r: Record, checksum: nat, value: nat, now: nat)
    requires WellKept(r) && (value > 0 || checksum == 0)
    ensures NoDuplicates(r.mru) && WellKept(Incremented(r, checksum, value, now))
    ensures checksum != 0 ==> (Recent(r.uses, checksum) <==> InFirstTen(r.mru, checksum))
  {
    MruMembers(r.uses);
    MruUse(r.uses, checksum);
    FirstTenAreRecent(r.uses, checksum);
  }

  /** A nonzero checksum is in the slots exactly if it is one of the newest ten. */
  lemma SlotsHold(slots: seq<nat>, mru: seq<nat>, c: nat)
    requires Slots(slots, mru) && c != 0
    ensures c in slots <==> InFirstTen(mru, c)
  {
    if p :| 0 <= p < |mru| && p < SLOTS && mru[p] == c {
      assert slots[p] == c;
    }
  }

  /** Zero is in the slots exactly if one is free. */
  lemma FreeSlot(slots: seq<nat>, mru: seq<nat>)
    requires Slots(slots, mru)
    ensures 0 in slots <==> |mru| < |slots|
  {
    if |mru| < |slots| {
      assert slots[|mru|] == 0;
    }
  }

  /** Moving the i-th slot to the front records the use of its checksum. */
  lemma SlotsBump(slots: seq<nat>, mru: seq<nat>, c: nat, i: nat)
    requires Slots(slots, mru) && NoDuplicates(mru) && c != 0 && i < |slots| && slots[i] == c
    ensures Slots([c] + slots[..i] + slots[i + 1..], [c] + Remove(mru, c)) && |Remove(mru, c)| == |mru| - 1
  {
    RemoveSplit(mru, c, i);
  }

  /** Pushing a new checksum in front, the last one falling out. */
  lemma SlotsAdd(slots: seq<nat>, mru: seq<nat>, c: nat)
    requires Slots(slots, mru) && NoDuplicates(mru) && c != 0 && c !in slots
    requires |slots| == SLOTS || slots[|slots| - 1] == 0
    ensures Slots([c] + slots[..|slots| - 1], [c] + Remove(mru, c))
    ensures |Remove(mru, c)| >= |mru| - 1 && (|mru| <= |slots| ==> |Remove(mru, c)| == |mru|)
  {
    assert forall k :: 0 <= k < |slots| && k < |mru| ==> slots[k] == mru[k] && slots[k] != c;
    if i :| 0 <= i < |mru| && mru[i] == c {
      RemoveSplit(mru, c, i);
    } else {
      RemoveAbsent(mru, c);
    }
  }

  /** Copying the two inline slots into ten. */
  lemma SlotsGrow(slots: seq<nat>, mru: seq<nat>, wide: seq<nat>)
    requires Slots(slots, mru) && |slots| == INLINE_SLOTS
    requires |wide| == SLOTS && wide[..INLINE_SLOTS] == slots && forall i :: INLINE_SLOTS <= i < SLOTS ==> wide[i] == 0
    ensures Slots(wide, mru)
  {
    assert forall i :: 0 <= i < INLINE_SLOTS ==> wide[i] == wide[..INLINE_SLOTS][i];
  }

  type Records = map<string, Record>

  ghost predicate InOrder(list: seq<string>, view: Records, i: nat, j: nat)
    requires i < |list| && j < |list|
  {
    list[i] in view && list[j] in view && list[i] != list[j] && view[list[i]].lastInc <= view[list[j]].lastInc
  }

  /** The list holds each record once, in order of last increment. */
  ghost predicate Timeline(list: seq<string>, view: Records, clock: nat) {
    && (forall i :: 0 <= i < |list| ==> list[i] in view && view[list[i]].lastInc <= clock)
    && (forall ident :: ident in view ==> ident in list)
    && (forall i: nat, j: nat :: i < j < |list| ==> InOrder(list, view, i, j))
  }

  function Unlisted(list: seq<string>, ident: string): seq<string> {
    if list == [] then []
    else if list[0] == ident then list[1..]
    else [list[0]] + Unlisted(list[1..], ident)
  }

  lemma {:induction false} UnlistedAt(list: seq<string>, ident: string, k: nat)
    requires k < |list| && list[k] == ident && ident !in list[..k]
    ensures Unlisted(list, ident) == list[..k] + list[k + 1..]
  {
    if k > 0 {
      UnlistedAt(list[1..], ident, k - 1);
    }
  }

  lemma {:induction false} UnlistedAbsent(list: seq<string>, ident: string)
    requires ident !in list
    ensures Unlisted(list, ident) == list
  {
    if list != [] {
      UnlistedAbsent(list[1..], ident);
    }
  }

  ghost function WithoutAt(list: seq<string>, k: nat): (rest: seq<string>)
    requires k < |list|
    ensures |rest| == |list| - 1 && forall i :: 0 <= i < |rest| ==> rest[i] == list[if i < k then i else i + 1]
  {
    list[..k] + list[k + 1..]
  }

  lemma OthersDiffer(list: seq<string>, view: Records, clock: nat, k: nat)
    requires Timeline(list, view, clock) && k < |list|
    ensures forall i :: 0 <= i < |list| && i != k ==> list[i] != list[k]
  {
    forall i: nat | i < |list| && i != k ensures list[i] != list[k] {
      assert if i < k then InOrder(list, view, i, k) else InOrder(list, view, k, i);
    }
  }

  lemma TimelineWithout(list: seq<string>, view: Records, clock: nat, k: nat)
    requires Timeline(list, view, clock) && k < |list|
    ensures Timeline(WithoutAt(list, k), view - {list[k]}, clock) && list[k] !in WithoutAt(list, k)
  {
    OthersDiffer(list, view, clock, k);
    var rest, view' := WithoutAt(list, k), view - {list[k]};
    forall i: nat, j: nat | i < j < |rest| ensures InOrder(rest, view', i, j) {
      assert InOrder(list, view, if i < k then i else i + 1, if j < k then j else j + 1);
    }
    forall ident | ident in view' ensures ident in rest {
      var j: nat :| j < |list| && list[j] == ident;
      assert ident == rest[if j < k then j else j - 1];
    }
  }

  /** Unlisting a record, if it is listed, leaves the others in order. */
  lemma TimelineUnlist(list: seq<string>, view: Records, clock: nat, ident: string)
    requires Timeline(list, view, clock)
    ensures Timeline(Unlisted(list, ident), view - {ident}, clock) && ident !in Unlisted(list, ident)
  {
    if k: nat :| k < |list| && list[k] == ident {
      OthersDiffer(list, view, clock, k);
      UnlistedAt(list, ident, k);
      TimelineWithout(list, view, clock, k);
    } else {
      UnlistedAbsent(list, ident);
      assert view - {ident} == view;
    }
  }

  /** Appending a record incremented now. */
  lemma TimelineAppend(list: seq<string>, view: Records, clock: nat, ident: string, r: Record)
    requires Timeline(list, view, clock) && ident !in list && clock <= r.lastInc
    ensures Timeline(list + [ident], view[ident := r], r.lastInc)
  {
    var list', view' := list + [ident], view[ident := r];
    forall i: nat, j: nat | i < j < |list'| ensures InOrder(list', view', i, j) {
      assert j < |list| ==> InOrder(list, view, i, j);
    }
    forall id | id in view' ensures id in list' {
      if id == ident {
        assert list'[|list|] == ident;
      }
    }
  }

  /** penalty_inc() moves its record to the end. */
  lemma TimelineInc(list: seq<string>, view: Records, clock: nat, ident: string, r: Record)
    requires Timeline(list, view, clock) && clock <= r.lastInc
    ensures Timeline(Unlisted(list, ident) + [ident], view[ident := r], r.lastInc)
  {
    TimelineUnlist(list, view, clock, ident);
    TimelineAppend(Unlisted(list, ident), view - {ident}, clock, ident, r);
    assert (view - {ident})[ident := r] == view[ident := r];
  }

  /** Dropping the oldest record. */
  lemma TimelineDrop(list: seq<string>, view: Records, clock: nat)
    requires Timeline(list, view, clock) && list != []
    ensures Timeline(list[1..], view - {list[0]}, clock)
  {
    TimelineWithout(list, view, clock, 0);
    assert WithoutAt(list, 0) == list[1..];
  }

  /** The records that have not expired. */
  ghost function Unexpired(view: Records, expireSecs: nat, now: nat): Records {
    map ident | ident in view && view[ident].lastInc + expireSecs > now :: view[ident]
  }

  /** If the oldest record has not expired, none has. */
  lemma OldestDecides(list: seq<string>, view: Records, clock: nat, expireSecs: nat, now: nat)
    requires Timeline(list, view, clock)
    requires list == [] || view[list[0]].lastInc + expireSecs > now
    ensures Unexpired(view, expireSecs, now) == view
  {
    forall ident | ident in view ensures view[ident].lastInc + expireSecs > now {
      var j: nat :| j < |list| && list[j] == ident;
      if j > 0 {
        assert InOrder(list, view, 0, j);
      }
    }
  }

  /** Dropping an expired record does not change what is unexpired. */
  lemma DropExpired(view: Records, ident: string, expireSecs: nat, now: nat)
    requires ident in view && view[ident].lastInc + expireSecs <= now
    ensures Unexpired(view - {ident}, expireSecs, now) == Unexpired(view, expireSecs, now)
  {
  }

  ghost predicate AllKept(view: Records) {
    forall ident :: ident in view ==> WellKept(view[ident])
  }

  /** The timer fires before the oldest record has been expired for any time. */
  ghost predicate InTimeFor(timer: Option<nat>, list: seq<string>, view: Records, expireSecs: nat) {
    timer.Some? && list != [] && list[0] in view ==> timer.value <= 1000 * (view[list[0]].lastInc + expireSecs)
  }

  /** What penalty_inc() may assume and keeps, apart from the slots. */
  lemma IncStep(list: seq<string>, view: Records, clock: nat,
                ident: string, r: Record, checksum: nat, value: nat, now: nat)
    requires Timeline(list, view, clock) && AllKept(view) && clock <= now && (value > 0 || checksum == 0)
    requires r == if ident in view then view[ident] else NEW_RECORD
    ensures r.lastInc <= now && NoDuplicates(r.mru)
    ensures checksum != 0 ==> (Recent(r.uses, checksum) <==> InFirstTen(r.mru, checksum))
    ensures var view' := view[ident := Incremented(r, checksum, value, now)];
            var list' := Unlisted(list, ident) + [ident];
            Timeline(list', view', now) && AllKept(view')
  {
    assert ident in view ==> ident in list;
    assert WellKept(r);
    IncrementKeeps(r, checksum, value, now);
    TimelineInc(list, view, clock, ident, Incremented(r, checksum, value, now));
  }

  /** The timer that was in time stays so: the oldest record only gets newer. */
  lemma IncInTime(timer: Option<nat>, list: seq<string>, view: Records, expireSecs: nat, clock: nat,
                  ident: string, r: Record, now: nat)
    requires Timeline(list, view, clock) && clock <= now && r.lastInc == now && (timer.Some? <==> list != [])
    ensures InTimeFor(timer, list, view, expireSecs) && timer.Some? ==>
              InTimeFor(timer, Unlisted(list, ident) + [ident], view[ident := r], expireSecs)
  {
    if list != [] {
      if list[0] == ident {
        assert |list| > 1 ==> InOrder(list, view, 0, 1);
      }
    }
  }

  /** A scan from the oldest record on that has dropped expired records only. */
  ghost predicate Scanned(all: seq<string>, view0: Records, dropped: seq<string>, list: seq<string>, view: Records,
                          expireSecs: nat, now: nat)
  {
    && Timeline(list, view, now) && AllKept(view)
    && Unexpired(view, expireSecs, now) == Unexpired(view0, expireSecs, now)
    && all == dropped + list
  }

  lemma ScanStep(all: seq<string>, view0: Records, dropped: seq<string>, list: seq<string>, view: Records,
                 expireSecs: nat, now: nat)
    requires Scanned(all, view0, dropped, list, view, expireSecs, now)
    requires list != [] && view[list[0]].lastInc + expireSecs <= now
    ensures Scanned(all, view0, dropped + [list[0]], list[1..], view - {list[0]}, expireSecs, now)
  {
    TimelineDrop(list, view, now);
    DropExpired(view, list[0], expireSecs, now);
  }
}
