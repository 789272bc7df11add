/** The auth cache: a hash table and a doubly linked list over the same nodes, with a byte budget.
    The list is kept through real prev/next pointers; `nodes` lists it from tail to head.
 */
module AuthCache {
  import opened Options
  import opened LruSpec

  const SIZE_RANGE := 0x1_0000_0000_0000_0000      // size_t
  const ALLOC_RANGE := 0x8000_0000                 // the 31 bits of alloc_size
  const NODE_SIZE := 32

  type Size = n: int | 0 <= n < SIZE_RANGE

  /** Bytes allocated for a node: the struct, the key, the value and their terminators. */
  function AllocSize(key: string, value: string): nat {
    NODE_SIZE + |key| + 1 + |value| + 1
  }

  class Node {
    var prev: Node?
    var next: Node?
    const key: string
    const value: string
    const created: int
    const allocSize: nat        // as stored, in 31 bits
    const lastSuccess: bool

    constructor (key: string, value: string, created: int, lastSuccess: bool)
      ensures this.key == key && this.value == value && this.created == created && this.lastSuccess == lastSuccess
      ensures allocSize == AllocSize(key, value) % ALLOC_RANGE
    {
      this.key, this.value, this.created, this.lastSuccess := key, value, created, lastSuccess;
      this.allocSize := AllocSize(key, value) % ALLOC_RANGE;
    }
  }

  function EntryOf(n: Node): Entry {
    Entry(n.key, n.value, n.created, n.lastSuccess, n.allocSize)
  }

  ghost function View(ns: seq<Node>): (l: seq<Entry>)
    ensures |l| == |ns| && forall i :: 0 <= i < |ns| ==> l[i] == EntryOf(ns[i])
  {
    seq(|ns|, i requires 0 <= i < |ns| => EntryOf(ns[i]))
  }

  ghost predicate Differ(ns: seq<Node>, i: nat, j: nat)
    requires i < |ns| && j < |ns|
  {
    ns[i] != ns[j]
  }

  ghost predicate Distinct(ns: seq<Node>) {
    forall i: nat, j: nat :: i < j < |ns| ==> Differ(ns, i, j)
  }

  ghost predicate Linked(ns: seq<Node>)
    reads ns
  {
    ns != [] ==>
      && ns[0].prev == null && ns[|ns| - 1].next == null
      && (forall i {:trigger ns[i].prev} :: 1 <= i < |ns| ==> ns[i].prev == ns[i - 1])
      && (forall i {:trigger ns[i].next} :: 0 <= i < |ns| - 1 ==> ns[i].next == ns[i + 1])
  }

  ghost predicate KeysDiffer(ns: seq<Node>, i: nat, j: nat)
    requires i < |ns| && j < |ns|
  {
    ns[i].key != ns[j].key
  }

  ghost predicate DistinctKeys(ns: seq<Node>) {
    forall i: nat, j: nat :: i < j < |ns| ==> KeysDiffer(ns, i, j)
  }

  /** Every listed node under its key. */
  ghost function Table(ns: seq<Node>): map<string, Node> {
    if ns == [] then map[] else Table(ns[..|ns| - 1])[ns[|ns| - 1].key := ns[|ns| - 1]]
  }

  /** The hash table holds exactly the listed nodes, under their keys. */
  ghost predicate Hashed(hash: map<string, Node>, ns: seq<Node>) {
    hash == Table(ns) && DistinctKeys(ns)
  }

  ghost function Without(ns: seq<Node>, k: nat): seq<Node>
    requires k < |ns|
  {
    ns[..k] + ns[k + 1..]
  }

  /** The list part of the cache. */
  class NodeList {
    var head: Node?
    var tail: Node?
    ghost var nodes: seq<Node>
    ghost var repr: set<Node>     // every node that was ever in the list

    ghost predicate Valid()
      reads this, repr
    {
      && (forall n :: n in nodes ==> n in repr)
      && Distinct(nodes) && Linked(nodes)
      && tail == (if nodes == [] then null else nodes[0])
      && head == (if nodes == [] then null else nodes[|nodes| - 1])
    }

    constructor ()
      ensures Valid() && nodes == [] && repr == {}
    {
      head, tail, nodes, repr := null, null, [], {};
    }

    /** auth_cache_node_unlink() */
    method Unlink(node: Node, ghost k: nat)
      requires Valid() && k < |nodes| && nodes[k] == node
      modifies this, repr
      ensures Valid() && nodes == Without(old(nodes), k) && repr == old(repr)
    {
      ghost var was, rest := nodes, Without(nodes, k);
      DistinctWithout(was, k);
      AllDiffer(was);
      assert k > 0 ==> node.prev == was[k - 1] && was[k - 1] in was;
      assert k < |was| - 1 ==> node.next == was[k + 1] && was[k + 1] in was;
      if node.prev != null {
        node.prev.next := node.next;
      } else {
        tail := node.next;
      }
      if node.next != null {
        node.next.prev := node.prev;
      } else {
        head := node.prev;
      }
      nodes := rest;
    }

    /** auth_cache_node_link_head() */
    method LinkHead(node: Node)
      requires Valid() && node !in nodes
      modifies this, repr, node
      ensures Valid() && nodes == old(nodes) + [node] && repr == old(repr) + {node}
    {
      assert nodes != [] ==> head in nodes;
      DistinctAppend(nodes, node);
      node.prev := head;
      node.next := null;
      head := node;
      if node.prev != null {
        node.prev.next := node;
      } else {
        tail := node;
      }
      nodes := nodes + [node];
      repr := repr + {node};
    }

    /** Nothing to do for the head itself. */
    method MoveToHead(node: Node, ghost k: nat)
      requires Valid() && k < |nodes| && nodes[k] == node
      modifies this, repr
      ensures Valid() && nodes == Without(old(nodes), k) + [node] && repr == old(repr)
    {
      WithoutOnce(nodes, k);
      if node != head {
        Unlink(node, k);
        LinkHead(node);
      }
    }
  }

  lemma DistinctWithout(ns: seq<Node>, k: nat)
    requires Distinct(ns) && k < |ns|
    ensures Distinct(Without(ns, k))
    ensures forall i :: 0 <= i < |ns| && i != k ==> ns[i] != ns[k]
  {
    var rest := Without(ns, k);
    forall i: nat, j: nat | i < j < |rest| ensures Differ(rest, i, j) {
      assert Differ(ns, if i < k then i else i + 1, if j < k then j else j + 1);
    }
    forall i | 0 <= i < |ns| && i != k ensures ns[i] != ns[k] {
      assert if i < k then Differ(ns, i, k) else Differ(ns, k, i);
    }
  }

  lemma AllDiffer(ns: seq<Node>)
    requires Distinct(ns)
    ensures forall i: nat, j: nat :: i < j < |ns| ==> ns[i] != ns[j]
  {
    forall i: nat, j: nat | i < j < |ns| ensures ns[i] != ns[j] {
      assert Differ(ns, i, j);
    }
  }

  lemma DistinctAppend(ns: seq<Node>, node: Node)
    requires Distinct(ns) && node !in ns
    ensures Distinct(ns + [node])
  {
    forall i: nat, j: nat | i < j < |ns| + 1 ensures Differ(ns + [node], i, j) {
      assert j < |ns| ==> Differ(ns, i, j);
    }
  }

  lemma WithoutOnce(ns: seq<Node>, k: nat)
    requires Distinct(ns) && k < |ns|
    ensures ns[k] !in Without(ns, k)
    ensures k == |ns| - 1 ==> Without(ns, k) + [ns[k]] == ns
  {
    DistinctWithout(ns, k);
  }

  class Cache {
    var hash: map<string, Node>
    const list: NodeList
    var sizeLeft: Size
    const maxSize: Size
    const ttlSecs: nat
    const negTtlSecs: nat
    ghost var lost: nat               // bytes taken by entries beyond what their nodes say

    ghost predicate Valid()
      reads this, list, list.repr
    {
      list.Valid() && Hashed(hash, list.nodes) && sizeLeft == Free(maxSize, Total(View(list.nodes)), lost)
    }

    /** The entries in order of last use, oldest first. */
    ghost function Entries(): seq<Entry>
      reads list
    {
      View(list.nodes)
    }

    /** The budget is split between the free and the used bytes. */
    ghost predicate Balanced()
      reads this, list
    {
      sizeLeft + Total(Entries()) == maxSize
    }

    constructor (maxSize: Size, ttlSecs: nat, negTtlSecs: nat)
      ensures Valid() && Balanced() && Entries() == [] && lost == 0 && fresh(list) && fresh(list.repr)
      ensures this.maxSize == maxSize && this.ttlSecs == ttlSecs && this.negTtlSecs == negTtlSecs
    {
      hash := map[];
      list := new NodeList();
      sizeLeft, this.maxSize, this.ttlSecs, this.negTtlSecs, lost := maxSize, maxSize, ttlSecs, negTtlSecs, 0;
    }

    /** In any state, after any insertions, the budget is balanced exactly if the entries fit it and no bytes were lost
        to the 31 bits of a node. */
    lemma BalancedIff()
      requires Valid()
      ensures Balanced() <==> Total(Entries()) <= maxSize && lost % SIZE_RANGE == 0
    {
      FreeIff(maxSize, Total(Entries()), lost);
    }

    /** auth_cache_node_destroy() */
    method Destroy(node: Node, ghost k: nat)
      requires Valid() && k < |list.nodes| && list.nodes[k] == node
      modifies this, list, list.repr
      ensures Valid() && list.repr == old(list.repr)
      ensures list.nodes == Without(old(list.nodes), k) && hash == old(hash) - {node.key}
      ensures sizeLeft == AddSize(old(sizeLeft), node.allocSize) && lost == old(lost)
      ensures old(Balanced()) ==> Balanced() && sizeLeft == old(sizeLeft) + node.allocSize
    {
      HashedWithout(hash, list.nodes, k);
      GiveBack(sizeLeft, list.nodes, k, maxSize, lost);
      sizeLeft := AddSize(sizeLeft, node.allocSize);
      hash := hash - {node.key};
      list.Unlink(node, k);
    }

    /** auth_cache_remove() */
    method Remove(key: string)
      requires Valid()
      modifies this, list, list.repr
      ensures Valid() && (old(Balanced()) ==> Balanced() && sizeLeft >= old(sizeLeft))
      ensures Entries() == DropKey(old(Entries()), key) && key !in hash
      ensures list.repr == old(list.repr) && lost == old(lost)
    {
      UniqueView(hash, list.nodes);
      if key in hash {
        ghost var k := PositionOf(hash, list.nodes, key);
        DropKeyAt(Entries(), k);
        WithoutView(list.nodes, k);
        Destroy(hash[key], k);
      } else {
        DropKeyAbsent(Entries(), key);
      }
    }

    /** auth_cache_clear() */
    method Clear() returns (count: nat)
      requires Valid()
      modifies this, list, list.repr
      ensures Valid() && list.repr == old(list.repr) && (old(Balanced()) ==> Balanced())
      ensures Entries() == [] && hash == map[] && count == |old(Entries())| && lost == old(lost)
    {
      HashSize(list.nodes);
      count := |hash|;
      while list.tail != null
        invariant Valid() && (old(Balanced()) ==> Balanced())
        invariant list.repr == old(list.repr) && lost == old(lost)
        decreases |list.nodes|
      {
        DestroyTail();
      }
      assert hash == map[];
    }

    /** auth_cache_lookup(): an unexpired hit becomes the newest entry. `k` is the position of the key. */
    method Lookup(key: string, now: int) returns (hit: Option<Hit>, ghost k: nat)
      requires Valid()
      modifies list, list.repr
      ensures Valid() && list.repr == old(list.repr) && (old(Balanced()) ==> Balanced())
      ensures hit.Some? <==> HasKey(old(Entries()), key)
      ensures hit.None? ==> Entries() == old(Entries())
      ensures hit.Some? ==>
                && k < |old(Entries())| && old(Entries())[k].key == key
                && Entries() == Touched(old(Entries()), k, now, ttlSecs, negTtlSecs)
                && var e := old(Entries())[k];
                   hit == Some(Hit(e.value, Expired(e, now, ttlSecs, negTtlSecs), e.created < now - negTtlSecs))
    {
      assert key in hash <==> HasKey(Entries(), key) by {
        UniqueView(hash, list.nodes);
      }
      k := 0;
      if key !in hash {
        return None, k;
      }
      var node := hash[key];
      k := PositionOf(hash, list.nodes, key);
      var expired := node.created < now - (if node.value == "" then negTtlSecs else ttlSecs);
      hit := Some(Hit(node.value, expired, node.created < now - negTtlSecs));
      if !expired {
        TouchView(list.nodes, k);
        HashedTouch(hash, list.nodes, k);
        list.MoveToHead(node, k);
      }
    }

    /** auth_cache_insert(). The entry replaces the oldest ones until there is room, and any entry with its key. In a
        balanced cache these are as few as possible, and it stays balanced exactly if the entry fits the whole budget
        and its size fits the 31 bits in which nodes store it. */
    method Insert(key: string, value: string, now: int, lastSuccess: bool)
      requires Valid() && AllocSize(key, value) < SIZE_RANGE
      modifies this, list, list.repr
      ensures Valid() && fresh(list.repr - old(list.repr))
      ensures value == "" && negTtlSecs == 0 ==>
                Entries() == old(Entries()) && sizeLeft == old(sizeLeft) && lost == old(lost)
      ensures !(value == "" && negTtlSecs == 0) ==>
                Inserted(old(Entries()), old(sizeLeft), old(lost), NewEntry(key, value, now, lastSuccess),
                         AllocSize(key, value))
    {
      if value == "" && negTtlSecs == 0 {
        return;
      }
      var alloc := AllocSize(key, value);
      MakeRoom(alloc);
      Remove(key);
      var node := new Node(key, value, now, lastSuccess);
      Add(node, alloc);
    }

    /** What storing an entry comes to. */
    ghost predicate Inserted(l: seq<Entry>, free: Size, lost': nat, e: Entry, alloc: nat)
      reads this, list
    {
      && Evicted(l, free, alloc) <= |l|
      && Entries() == DropKey(l[Evicted(l, free, alloc)..], e.key) + [e]
      && lost == lost' + Excess(alloc)
      && (free + Total(l) == maxSize ==>
            && Entries() == Stored(l, free, alloc, e)
            && (Balanced() <==> alloc <= maxSize && alloc < ALLOC_RANGE))
    }

    /** Evicts from the tail until the entry fits or nothing is left. */
    method MakeRoom(need: nat)
      requires Valid()
      modifies this, list, list.repr
      ensures Valid() && lost == old(lost) && list.repr == old(list.repr)
      ensures Evicted(old(Entries()), old(sizeLeft), need) <= |old(Entries())|
      ensures Entries() == old(Entries())[Evicted(old(Entries()), old(sizeLeft), need)..]
      ensures sizeLeft >= need || Entries() == []
      ensures old(Balanced()) ==>
                && Balanced()
                && Evicted(old(Entries()), old(sizeLeft), need) == Evictions(old(Entries()), old(sizeLeft), need)
    {
      EvictedSame(Entries(), sizeLeft, need);
      ghost var all, left := list.nodes, sizeLeft;
      ghost var k := 0;
      while sizeLeft < need && list.tail != null
        invariant Valid() && list.repr == old(list.repr) && lost == old(lost) && k <= |all| && list.nodes == all[k..]
        invariant old(Balanced()) ==> Balanced()
        invariant Evicted(View(all), left, need) == k + Evicted(View(list.nodes), sizeLeft, need)
        decreases |list.nodes|
      {
        ghost var ns, free := list.nodes, sizeLeft;
        DestroyTail();
        EvictStep(ns, free, need, list.nodes, sizeLeft);
        k := k + 1;
      }
      EvictEnd(all, k, list.nodes);
    }

    /** Links a new node whose key is not in the cache. */
    method Add(node: Node, alloc: nat)
      requires Valid() && node !in list.repr && node.key !in hash
      requires node.allocSize == alloc % ALLOC_RANGE && alloc < SIZE_RANGE
      modifies this, list, list.repr, node
      ensures list.repr == old(list.repr) + {node}
      ensures Valid() && Entries() == old(Entries()) + [EntryOf(node)] && lost == old(lost) + Excess(alloc)
      ensures old(Balanced() && (sizeLeft >= alloc || Entries() == [])) ==>
                (Balanced() <==> alloc <= maxSize && alloc < ALLOC_RANGE)
    {
      ghost var ns := list.nodes;
      TakeAway(sizeLeft, ns, node, alloc, maxSize, lost);
      assert Hashed(hash[node.key := node], ns + [node]) by {
        HashedAppend(hash, ns, node);
      }
      list.LinkHead(node);
      sizeLeft := SubSize(sizeLeft, alloc);
      lost := lost + Excess(alloc);
      hash := hash[node.key := node];
    }

    /** auth_cache_clear_users(): removes exactly the entries of matching users, keeping the order of the rest. */
    method ClearUsers(isUser: string -> bool) returns (count: nat)
      requires Valid()
      modifies this, list, list.repr
      ensures Valid() && list.repr == old(list.repr) && (old(Balanced()) ==> Balanced())
      ensures Entries() == Kept(old(Entries()), isUser) && count == |old(Entries())| - |Entries()|
    {
      ghost var all := list.nodes;
      KeptView(all, isUser);
      SweptStart(all, isUser);
      count := SweepFrom(list.tail, isUser, 0, all, 0);
      SweptEnd(all, isUser);
    }

    /** The loop of auth_cache_clear_users(), about to visit the i-th of all nodes. */
    method {:tailrecursion true} SweepFrom(node: Node?, isUser: string -> bool, count: nat,
                                           ghost all: seq<Node>, ghost i: nat) returns (count': nat)
      requires Valid() && i <= |all| && list.nodes == Swept(all, i, isUser) && node == NodeAt(all, i)
      requires count == |all| - |list.nodes|
      modifies this, list, list.repr
      ensures Valid() && list.repr == old(list.repr) && (old(Balanced()) ==> Balanced())
      ensures list.nodes == Swept(all, |all|, isUser) && count' == |all| - |list.nodes|
      decreases |all| - i
    {
      if node == null {
        return count;
      }
      var next, c := SweepOne(node, isUser, count, all, i);
      count' := SweepFrom(next, isUser, c, all, i + 1);
    }

    method SweepOne(node: Node, isUser: string -> bool, count: nat, ghost all: seq<Node>, ghost i: nat)
      returns (next: Node?, count': nat)
      requires Valid() && i < |all| && list.nodes == Swept(all, i, isUser) && node == all[i]
      requires count == |all| - |list.nodes|
      modifies this, list, list.repr
      ensures Valid() && list.repr == old(list.repr) && (old(Balanced()) ==> Balanced())
      ensures list.nodes == Swept(all, i + 1, isUser) && next == NodeAt(all, i + 1)
      ensures count' == |all| - |list.nodes|
    {
      ghost var k := SweptNext(all, i, isUser);
      var removed;
      next, removed := Visit(node, isUser, k);
      count' := if removed then count + 1 else count;
    }

    /** One round: the next node is remembered before this one may be destroyed. */
    method Visit(node: Node, isUser: string -> bool, ghost k: nat) returns (next: Node?, removed: bool)
      requires Valid() && k < |list.nodes| && list.nodes[k] == node
      modifies this, list, list.repr
      ensures Valid() && list.repr == old(list.repr) && (old(Balanced()) ==> Balanced())
      ensures next == NodeAt(old(list.nodes), k + 1)
      ensures removed == IsOneOfUsers(node.key, isUser)
      ensures list.nodes == if removed then Without(old(list.nodes), k) else old(list.nodes)
    {
      next := node.next;
      removed := IsOneOfUsers(node.key, isUser);
      if removed {
        Destroy(node, k);
      }
    }

    /** Evicts the oldest entry. */
    method DestroyTail()
      requires Valid() && list.tail != null
      modifies this, list, list.repr
      ensures Valid() && list.repr == old(list.repr) && old(list.nodes) != [] && list.nodes == old(list.nodes)[1..]
      ensures sizeLeft == AddSize(old(sizeLeft), old(list.nodes)[0].allocSize) && lost == old(lost)
      ensures old(Balanced()) ==> Balanced() && sizeLeft == old(sizeLeft) + old(list.nodes)[0].allocSize
    {
      assert Without(list.nodes, 0) == list.nodes[1..];
      Destroy(list.tail, 0);
    }
  }

  /** The nodes in the order that LruSpec.Touched gives their entries. */
  lemma TouchView(ns: seq<Node>, k: nat)
    requires k < |ns|
    ensures View(Without(ns, k) + [ns[k]]) == Drop(View(ns), k) + [View(ns)[k]]
    ensures Total(View(Without(ns, k) + [ns[k]])) == Total(View(ns))
  {
    WithoutView(ns, k);
    TotalDrop(View(ns), k);
    TotalAppend(Drop(View(ns), k), [View(ns)[k]]);
    assert [View(ns)[k]][1..] == [];
    assert Total([View(ns)[k]]) == View(ns)[k].alloc;
  }

  lemma HashedTouch(hash: map<string, Node>, ns: seq<Node>, k: nat)
    requires Hashed(hash, ns) && k < |ns|
    ensures Hashed(hash, Without(ns, k) + [ns[k]])
  {
    TableWithout(ns, k);
    HashedWithout(hash, ns, k);
    HashedAppend(hash - {ns[k].key}, Without(ns, k), ns[k]);
    assert (hash - {ns[k].key})[ns[k].key := ns[k]] == hash;
  }

  lemma UniqueView(hash: map<string, Node>, ns: seq<Node>)
    requires Hashed(hash, ns)
    ensures UniqueKeys(View(ns))
    ensures forall key :: key in hash <==> HasKey(View(ns), key)
  {
    forall i: nat, j: nat | i < j < |ns| ensures View(ns)[i].key != View(ns)[j].key {
      assert KeysDiffer(ns, i, j);
    }
    forall key ensures key in hash <==> HasKey(View(ns), key) {
      TableKeys(ns, key);
      if key in hash {
        var k := PositionOf(hash, ns, key);
      }
    }
  }

  lemma PositionOf(hash: map<string, Node>, ns: seq<Node>, key: string) returns (k: nat)
    requires Hashed(hash, ns) && key in hash
    ensures k < |ns| && ns[k] == hash[key] && View(ns)[k].key == key
  {
    TableKeys(ns, key);
    k :| 0 <= k < |ns| && ns[k] == hash[key];
  }

  lemma {:induction false} HashSize(ns: seq<Node>)
    requires DistinctKeys(ns)
    ensures |Table(ns)| == |ns|
  {
    if ns != [] {
      var n := |ns| - 1;
      KeysPrefix(ns);
      HashSize(ns[..n]);
    }
  }

  function SkipDigits(s: string): string {
    if s != "" && '0' <= s[0] <= '9' then SkipDigits(s[1..]) else s
  }

  /** The string from the first tab on, or nothing. */
  function FromTab(s: string): string {
    if s == "" || s[0] == '\t' then s else FromTab(s[1..])
  }

  function ToTab(s: string): string {
    if s == "" || s[0] == '\t' then "" else [s[0]] + ToTab(s[1..])
  }

  /** auth_cache_node_is_user(): the user in a key "P1+master<TAB>user<TAB>...". */
  function UserOf(key: string): Option<string> {
    if key == "" || (key[0] != 'P' && key[0] != 'U') then None
    else
      var rest := SkipDigits(key[1..]);
      var tab := if rest != "" && rest[0] == '+' then FromTab(rest) else rest;
      if tab == "" || tab[0] != '\t' then None else Some(ToTab(tab[1..]))
  }

  lemma {:induction false} SkipDigitsOver(digits: string, rest: string)
    requires (forall i :: 0 <= i < |digits| ==> '0' <= digits[i] <= '9') && (rest == "" || !('0' <= rest[0] <= '9'))
    ensures SkipDigits(digits + rest) == rest
  {
    if digits == "" {
      assert digits + rest == rest;
    } else {
      SkipDigitsOver(digits[1..], rest);
      assert (digits + rest)[1..] == digits[1..] + rest;
    }
  }

  lemma {:induction false} TabAfter(s: string, rest: string)
    requires '\t' !in s && rest != "" && rest[0] == '\t'
    ensures FromTab(s + rest) == rest && ToTab(s + rest) == s
  {
    if s == "" {
      assert s + rest == rest;
    } else {
      TabAfter(s[1..], rest);
      assert (s + rest)[1..] == s[1..] + rest;
    }
  }

  lemma {:induction false} ToTabAll(s: string)
    requires '\t' !in s
    ensures ToTab(s) == s
  {
    if s != "" {
      ToTabAll(s[1..]);
    }
  }

  /** Every key that the cache is used with names its user: "P" or "U", the number of the database, a master user after
      "+" if there is one, the user, and perhaps more. */
  lemma UserOfKey(db: char, id: string, master: Option<string>, user: string, more: string)
    requires (db == 'P' || db == 'U') && '\t' !in user && (more == "" || more[0] == '\t')
    requires forall i :: 0 <= i < |id| ==> '0' <= id[i] <= '9'
    requires master.Some? ==> '\t' !in master.value
    ensures UserOf([db] + id + (if master.Some? then "+" + master.value else "") + "\t" + user + more) == Some(user)
  {
    var m, tail := if master.Some? then "+" + master.value else "", "\t" + user + more;
    var key := [db] + id + m + "\t" + user + more;
    assert key[1..] == id + (m + tail) && key[0] == db;
    SkipDigitsOver(id, m + tail);
    if master.Some? {
      TabAfter(m, tail);
    } else {
      assert m + tail == tail;
    }
    UserInTail(user, more);
  }

  lemma UserInTail(user: string, more: string)
    requires '\t' !in user && (more == "" || more[0] == '\t')
    ensures var tail := "\t" + user + more; tail[0] == '\t' && ToTab(tail[1..]) == user
  {
    var tail := "\t" + user + more;
    assert tail[1..] == user + more;
    if more == "" {
      assert user + more == user;
      ToTabAll(user);
    } else {
      TabAfter(user, more);
    }
  }

  predicate IsOneOfUsers(key: string, isUser: string -> bool) {
    UserOf(key).Some? && isUser(UserOf(key).value)
  }

  ghost function Kept(l: seq<Entry>, isUser: string -> bool): seq<Entry> {
    if l == [] then []
    else if IsOneOfUsers(l[|l| - 1].key, isUser) then Kept(l[..|l| - 1], isUser)
    else Kept(l[..|l| - 1], isUser) + [l[|l| - 1]]
  }

  ghost function NodeAt(ns: seq<Node>, i: nat): Node? {
    if i < |ns| then ns[i] else null
  }

  ghost function KeptNodes(ns: seq<Node>, isUser: string -> bool): seq<Node> {
    if ns == [] then []
    else
      var rest, last := KeptNodes(ns[..|ns| - 1], isUser), ns[|ns| - 1];
      if IsOneOfUsers(last.key, isUser) then rest else rest + [last]
  }

  lemma {:induction false} KeptView(ns: seq<Node>, isUser: string -> bool)
    ensures View(KeptNodes(ns, isUser)) == Kept(View(ns), isUser)
  {
    if ns != [] {
      var n := |ns| - 1;
      KeptView(ns[..n], isUser);
      assert View(ns)[..n] == View(ns[..n]);
      assert View(KeptNodes(ns[..n], isUser) + [ns[n]]) == View(KeptNodes(ns[..n], isUser)) + [EntryOf(ns[n])];
    }
  }

  /** The list when the first i nodes have been visited. */
  ghost function Swept(all: seq<Node>, i: nat, isUser: string -> bool): seq<Node>
    requires i <= |all|
  {
    KeptNodes(all[..i], isUser) + all[i..]
  }

  lemma SweptStart(all: seq<Node>, isUser: string -> bool)
    ensures Swept(all, 0, isUser) == all
  {
  }

  lemma SweptNext(all: seq<Node>, i: nat, isUser: string -> bool) returns (k: nat)
    requires i < |all|
    ensures var ns := Swept(all, i, isUser);
            k < |ns| && ns[k] == all[i] && NodeAt(ns, k + 1) == NodeAt(all, i + 1)
            && Swept(all, i + 1, isUser) == if IsOneOfUsers(all[i].key, isUser) then Without(ns, k) else ns
  {
    var kept := KeptNodes(all[..i], isUser);
    k := |kept|;
    assert all[..i + 1][..i] == all[..i];
    assert all[i..] == [all[i]] + all[i + 1..];
    assert Without(Swept(all, i, isUser), k) == kept + all[i + 1..];
    assert kept + all[i..] == kept + [all[i]] + all[i + 1..];
  }

  lemma SweptEnd(all: seq<Node>, isUser: string -> bool)
    ensures Swept(all, |all|, isUser) == KeptNodes(all, isUser)
  {
    assert all[..|all|] == all && all[|all|..] == [];
  }

  /** size_t arithmetic */
  function AddSize(a: Size, b: nat): Size {
    (a + b) % SIZE_RANGE
  }

  function SubSize(a: Size, b: nat): Size {
    (a - b) % SIZE_RANGE
  }

  /** The bytes of an allocation that do not show in the 31 bits of its node. */
  function Excess(alloc: nat): nat {
    ALLOC_RANGE * (alloc / ALLOC_RANGE)
  }

  /** The bytes that size_t arithmetic makes free. */
  ghost function Free(max: Size, used: nat, lost: nat): Size {
    (max - used - lost) % SIZE_RANGE
  }

  lemma FreeIff(max: Size, used: nat, lost: nat)
    ensures Free(max, used, lost) + used == max <==> used <= max && lost % SIZE_RANGE == 0
  {
    var free := Free(max, used, lost);
    Wrapped(max - used - lost);
    if used <= max && lost % SIZE_RANGE == 0 {
      assert lost == SIZE_RANGE * (lost / SIZE_RANGE);
      Unwrapped(max - used, -(lost / SIZE_RANGE));
    }
    if free + used == max {
      assert lost == -SIZE_RANGE * ((max - used - lost) / SIZE_RANGE);
      Unwrapped(0, -((max - used - lost) / SIZE_RANGE));
    }
  }

  lemma Wrapped(x: int)
    ensures x == x % SIZE_RANGE + SIZE_RANGE * (x / SIZE_RANGE)
  {
  }

  lemma Unwrapped(x: int, q: int)
    requires 0 <= x < SIZE_RANGE
    ensures (x + SIZE_RANGE * q) % SIZE_RANGE == x
  {
  }

  /** Bytes given back to a wrapped count. */
  lemma AddWraps(x: int, a: int)
    ensures (x % SIZE_RANGE + a) % SIZE_RANGE == (x + a) % SIZE_RANGE
  {
    Wrapped(x);
  }

  lemma GiveBack(left: Size, ns: seq<Node>, k: nat, max: Size, lost: nat)
    requires k < |ns|
    ensures left == Free(max, Total(View(ns)), lost) ==>
              AddSize(left, ns[k].allocSize) == Free(max, Total(View(Without(ns, k))), lost)
    ensures left + Total(View(ns)) == max ==>
              && AddSize(left, ns[k].allocSize) == left + ns[k].allocSize
              && left + ns[k].allocSize + Total(View(Without(ns, k))) == max
  {
    WithoutView(ns, k);
    TotalDrop(View(ns), k);
    AddWraps(max - Total(View(ns)) - lost, ns[k].allocSize);
  }

  /** How many of the oldest entries go until `need` bytes are free, as size_t counts them. */
  ghost function Evicted(l: seq<Entry>, free: Size, need: nat): nat {
    if l == [] || free >= need then 0 else 1 + Evicted(l[1..], AddSize(free, l[0].alloc), need)
  }

  lemma {:induction false} EvictedSame(l: seq<Entry>, free: Size, need: nat)
    ensures Evicted(l, free, need) <= |l|
    ensures free + Total(l) < SIZE_RANGE ==> Evicted(l, free, need) == Evictions(l, free, need)
  {
    if l != [] && free < need {
      EvictedSame(l[1..], AddSize(free, l[0].alloc), need);
    }
  }

  function NewEntry(key: string, value: string, now: int, lastSuccess: bool): Entry {
    Entry(key, value, now, lastSuccess, AllocSize(key, value) % ALLOC_RANGE)
  }

  lemma EvictStep(ns: seq<Node>, left: Size, need: nat, ns': seq<Node>, left': Size)
    requires ns != [] && left < need && ns' == ns[1..] && left' == AddSize(left, ns[0].allocSize)
    ensures Evicted(View(ns), left, need) == 1 + Evicted(View(ns'), left', need)
  {
    assert View(ns)[1..] == View(ns[1..]);
  }

  lemma EvictEnd(all: seq<Node>, k: nat, ns: seq<Node>)
    requires k <= |all| && ns == all[k..]
    ensures View(ns) == View(all)[k..]
  {
  }

  lemma TakeAway(left: Size, ns: seq<Node>, node: Node, alloc: nat, max: Size, lost: nat)
    requires left == Free(max, Total(View(ns)), lost) && node.allocSize == alloc % ALLOC_RANGE && alloc < SIZE_RANGE
    ensures View(ns + [node]) == View(ns) + [EntryOf(node)]
    ensures SubSize(left, alloc) == Free(max, Total(View(ns + [node])), lost + Excess(alloc))
    ensures left + Total(View(ns)) == max && (left >= alloc || View(ns) == []) ==>
              (SubSize(left, alloc) + Total(View(ns + [node])) == max <==> alloc <= max && alloc < ALLOC_RANGE)
  {
    var l, e := View(ns), EntryOf(node);
    assert View(ns + [node]) == l + [e];
    TotalAppend(l, [e]);
    TotalOne(e);
    assert alloc % ALLOC_RANGE <= alloc;
    assert alloc % ALLOC_RANGE == alloc <==> alloc < ALLOC_RANGE;
    var taken: int := alloc;
    AddWraps(max - Total(l) - lost, -taken);
    if left < alloc {
      assert SubSize(left, alloc) == left - alloc + SIZE_RANGE;
    } else {
      assert SubSize(left, alloc) == left - alloc;
    }
  }

  lemma HashedAppend(hash: map<string, Node>, ns: seq<Node>, node: Node)
    requires Hashed(hash, ns) && node.key !in hash
    ensures Hashed(hash[node.key := node], ns + [node])
  {
    assert (ns + [node])[..|ns|] == ns;
    TableKeys(ns, node.key);
    forall i: nat, j: nat | i < j < |ns| + 1 ensures KeysDiffer(ns + [node], i, j) {
      assert j < |ns| ==> KeysDiffer(ns, i, j);
    }
  }

  lemma WithoutView(ns: seq<Node>, k: nat)
    requires k < |ns|
    ensures View(Without(ns, k)) == Drop(View(ns), k)
  {
  }

  lemma {:induction false} TableWithout(ns: seq<Node>, k: nat)
    requires DistinctKeys(ns) && k < |ns|
    ensures ns[k].key in Table(ns) && Table(ns)[ns[k].key] == ns[k]
    ensures Table(Without(ns, k)) == Table(ns) - {ns[k].key}
  {
    var n := |ns| - 1;
    KeysPrefix(ns);
    if k == n {
      assert Without(ns, k) == ns[..n];
    } else {
      assert KeysDiffer(ns, k, n);
      TableWithout(ns[..n], k);
      assert Without(ns, k) == Without(ns[..n], k) + [ns[n]];
      assert Without(ns, k)[..n - 1] == Without(ns[..n], k);
    }
  }

  /** The last key is not among the others. */
  lemma KeysPrefix(ns: seq<Node>)
    requires DistinctKeys(ns) && ns != []
    ensures DistinctKeys(ns[..|ns| - 1]) && ns[|ns| - 1].key !in Table(ns[..|ns| - 1])
  {
    var n := |ns| - 1;
    forall i: nat, j: nat | i < j < n ensures KeysDiffer(ns[..n], i, j) {
      assert KeysDiffer(ns, i, j);
    }
    TableKeys(ns[..n], ns[n].key);
    forall i: nat | i < n ensures ns[..n][i].key != ns[n].key {
      assert KeysDiffer(ns, i, n);
    }
  }

  lemma {:induction false} TableKeys(ns: seq<Node>, key: string)
    ensures key in Table(ns) <==> exists i :: 0 <= i < |ns| && ns[i].key == key
    ensures key in Table(ns) ==> Table(ns)[key] in ns && Table(ns)[key].key == key
  {
    if ns != [] {
      var n := |ns| - 1;
      TableKeys(ns[..n], key);
      if ns[n].key != key && key in Table(ns) {
        var i :| 0 <= i < n && ns[..n][i].key == key;
        assert ns[i].key == key;
      }
    }
  }

  lemma HashedWithout(hash: map<string, Node>, ns: seq<Node>, k: nat)
    requires Hashed(hash, ns) && k < |ns|
    ensures Hashed(hash - {ns[k].key}, Without(ns, k))
  {
    TableWithout(ns, k);
    var rest := Without(ns, k);
    forall i: nat, j: nat | i < j < |rest| ensures KeysDiffer(rest, i, j) {
      assert KeysDiffer(ns, if i < k then i else i + 1, if j < k then j else j + 1);
    }
  }

  /** An entry larger than the whole cache is stored all the same, and the budget no longer balances. */
  method TooLarge() returns (cache: Cache)
    ensures fresh(cache) && cache.Valid() && !cache.Balanced() && |cache.Entries()| == 1
  {
    cache := new Cache(0, 1, 1);
    cache.Insert("", "x", 0, true);
  }
}
