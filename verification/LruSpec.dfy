/** What the auth cache is meant to be: a sequence of entries in order of last use, oldest first. */
module LruSpec {

  datatype Entry = Entry(key: string, value: string, created: int, lastSuccess: bool, alloc: nat)

  datatype Hit = Hit(value: string, expired: bool, negExpired: bool)

  ghost function Total(l: seq<Entry>): nat {
    if l == [] then 0 else l[0].alloc + Total(l[1..])
  }

  ghost predicate UniqueKeys(l: seq<Entry>) {
    forall i, j :: 0 <= i < j < |l| ==> l[i].key != l[j].key
  }

  ghost predicate HasKey(l: seq<Entry>, key: string) {
    exists i :: 0 <= i < |l| && l[i].key == key
  }

  ghost function Drop(l: seq<Entry>, k: nat): seq<Entry>
    requires k < |l|
  {
    l[..k] + l[k + 1..]
  }

  /** The list without the entry of this key. */
  ghost function DropKey(l: seq<Entry>, key: string): seq<Entry> {
    if l == [] then []
    else if l[0].key == key then l[1..]
    else [l[0]] + DropKey(l[1..], key)
  }

  /** How many of the oldest entries must go until `need` bytes are free. */
  ghost function Evictions(l: seq<Entry>, free: nat, need: nat): nat {
    if l == [] || free >= need then 0 else 1 + Evictions(l[1..], free + l[0].alloc, need)
  }

  /** Storing an entry: make room from the oldest end, replace an entry with the same key. */
  ghost function Stored(l: seq<Entry>, free: nat, need: nat, e: Entry): seq<Entry> {
    EvictionsBound(l, free, need);
    DropKey(l[Evictions(l, free, need)..], e.key) + [e]
  }

  /** A TTL counts from the creation of the entry; empty values are negative entries. */
  predicate Expired(e: Entry, now: int, ttl: nat, negTtl: nat) {
    e.created < now - (if e.value == "" then negTtl else ttl)
  }

  /** Using the entry at position k: unless it has expired it becomes the newest. */
  ghost function Touched(l: seq<Entry>, k: nat, now: int, ttl: nat, negTtl: nat): seq<Entry>
    requires k < |l|
  {
    if Expired(l[k], now, ttl, negTtl) then l else Drop(l, k) + [l[k]]
  }

  // ----- lemmas

  lemma {:induction false} EvictionsBound(l: seq<Entry>, free: nat, need: nat)
    ensures Evictions(l, free, need) <= |l|
  {
    if l != [] && free < need {
      EvictionsBound(l[1..], free + l[0].alloc, need);
    }
  }

  /** The evicted prefix is the shortest one that makes room. */
  lemma {:induction false} EvictionsMinimal(l: seq<Entry>, free: nat, need: nat)
    ensures Evictions(l, free, need) <= |l|
    ensures var k := Evictions(l, free, need);
            (k == |l| || free + Total(l[..k]) >= need)
            && (forall j :: 0 <= j < k ==> free + Total(l[..j]) < need)
  {
    EvictionsBound(l, free, need);
    var k := Evictions(l, free, need);
    if k == 0 {
      assert l[..0] == [];
    } else {
      EvictionsMinimal(l[1..], free + l[0].alloc, need);
      EvictionsBound(l[1..], free + l[0].alloc, need);
      assert l[..k][1..] == l[1..][..k - 1];
      forall j | 0 <= j < k ensures free + Total(l[..j]) < need {
        if j > 0 {
          assert l[..j][1..] == l[1..][..j - 1];
        }
      }
    }
  }

  lemma {:induction false} TotalAppend(a: seq<Entry>, b: seq<Entry>)
    ensures Total(a + b) == Total(a) + Total(b)
  {
    if a == [] {
      assert a + b == b;
    } else {
      assert (a + b)[1..] == a[1..] + b;
      TotalAppend(a[1..], b);
    }
  }

  lemma TotalOne(e: Entry)
    ensures Total([e]) == e.alloc
  {
    assert [e][1..] == [];
  }

  lemma TotalDrop(l: seq<Entry>, k: nat)
    requires k < |l|
    ensures Total(Drop(l, k)) == Total(l) - l[k].alloc
  {
    var a, e, b := l[..k], l[k], l[k + 1..];
    assert l == a + ([e] + b);
    TotalAppend(a, [e] + b);
    TotalAppend([e], b);
    TotalOne(e);
    TotalAppend(a, b);
  }

  lemma {:induction false} DropKeyAt(l: seq<Entry>, k: nat)
    requires UniqueKeys(l) && k < |l|
    ensures DropKey(l, l[k].key) == Drop(l, k)
  {
    if k > 0 {
      DropKeyAt(l[1..], k - 1);
      assert Drop(l, k) == [l[0]] + Drop(l[1..], k - 1);
    } else {
      assert Drop(l, 0) == l[1..];
    }
  }

  lemma {:induction false} DropKeyAbsent(l: seq<Entry>, key: string)
    requires forall i :: 0 <= i < |l| ==> l[i].key != key
    ensures DropKey(l, key) == l
  {
    if l != [] {
      DropKeyAbsent(l[1..], key);
    }
  }

  /** Dropping the key from the middle of the list, or from nowhere. */
  lemma {:induction false} DropKeyWhere(l: seq<Entry>, key: string) returns (k: nat)
    requires UniqueKeys(l)
    ensures k <= |l| && if k < |l| then l[k].key == key && DropKey(l, key) == Drop(l, k) else DropKey(l, key) == l
    ensures forall i :: 0 <= i < |l| && i != k ==> l[i].key != key
  {
    if i :| 0 <= i < |l| && l[i].key == key {
      k := i;
      DropKeyAt(l, k);
    } else {
      k := |l|;
      DropKeyAbsent(l, key);
    }
  }

  lemma DropUnique(l: seq<Entry>, k: nat)
    requires UniqueKeys(l) && k < |l|
    ensures UniqueKeys(Drop(l, k))
  {
    assert forall i :: 0 <= i < |l| - 1 ==> Drop(l, k)[i] == l[if i < k then i else i + 1];
  }

  lemma DropMember(l: seq<Entry>, k: nat, e: Entry)
    requires k < |l|
    ensures e in Drop(l, k) <==> exists i :: 0 <= i < |l| && i != k && l[i] == e
  {
    if i :| 0 <= i < |l| && i != k && l[i] == e {
      assert Drop(l, k)[if i < k then i else i - 1] == e;
    }
    if i :| 0 <= i < |l| - 1 && Drop(l, k)[i] == e {
      assert l[if i < k then i else i + 1] == e;
    }
  }

  lemma DropKeyMember(l: seq<Entry>, key: string, e: Entry)
    requires UniqueKeys(l)
    ensures e in DropKey(l, key) <==> e in l && e.key != key
  {
    var k := DropKeyWhere(l, key);
    if k < |l| {
      DropMember(l, k, e);
    }
  }

  lemma DropKeyMembers(l: seq<Entry>, key: string)
    requires UniqueKeys(l)
    ensures UniqueKeys(DropKey(l, key))
    ensures forall e :: e in DropKey(l, key) <==> e in l && e.key != key
    ensures Total(DropKey(l, key)) <= Total(l)
  {
    forall e ensures e in DropKey(l, key) <==> e in l && e.key != key {
      DropKeyMember(l, key, e);
    }
    assert UniqueKeys(DropKey(l, key)) && Total(DropKey(l, key)) <= Total(l) by {
      var k := DropKeyWhere(l, key);
      if k < |l| {
        DropUnique(l, k);
        TotalDrop(l, k);
      }
    }
  }

  lemma UniqueAppend(l: seq<Entry>, e: Entry)
    requires UniqueKeys(l) && forall x :: x in l ==> x.key != e.key
    ensures UniqueKeys(l + [e])
  {
    assert forall i :: 0 <= i < |l| ==> l[i] in l;
  }

  /** Evicting makes enough room for anything that fits the budget. */
  lemma RoomMade(l: seq<Entry>, budget: nat, need: nat)
    requires Total(l) <= budget && need <= budget
    ensures var k := Evictions(l, budget - Total(l), need);
            k <= |l| && Total(l[k..]) + need <= budget
  {
    EvictionsMinimal(l, budget - Total(l), need);
    var k := Evictions(l, budget - Total(l), need);
    assert l == l[..k] + l[k..];
    TotalAppend(l[..k], l[k..]);
  }

  /** Storing keeps keys unique, and an entry that fits the budget never makes the cache exceed it. */
  lemma StoredInvariant(l: seq<Entry>, budget: nat, e: Entry)
    requires UniqueKeys(l) && Total(l) <= budget && e.alloc <= budget
    ensures var l' := Stored(l, budget - Total(l), e.alloc, e);
            UniqueKeys(l') && Total(l') <= budget && l'[|l'| - 1] == e
  {
    RoomMade(l, budget, e.alloc);
    var kept := l[Evictions(l, budget - Total(l), e.alloc)..];
    DropKeyMembers(kept, e.key);
    var rest := DropKey(kept, e.key);
    UniqueAppend(rest, e);
    TotalAppend(rest, [e]);
    TotalOne(e);
  }
}
