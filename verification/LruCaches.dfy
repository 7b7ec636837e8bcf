/** The least-recently-used cache with a delete callback that may refuse
    (cpp-lru-cache-mod/lrucache.hpp) and the order in which it keeps its keys. */
module LruCaches {
  import opened Bytes

  /** A list node; `id` stands for its address, which the index stores as an iterator. */
  datatype Node<+K, +V> = Node(id: nat, key: K, value: V)

  datatype Cache<!K, +V> = Cache(list: seq<Node<K, V>>, index: map<K, nat>, nextId: nat)

  /** `Undefined` stands for the use of an iterator that no longer points anywhere. */
  datatype Outcome<+T> = Ok(value: T) | Undefined

  function Keys<K, V>(list: seq<Node<K, V>>): seq<K>
    decreases |list|
  {
    if list == [] then [] else [list[0].key] + Keys(list[1..])
  }

  function Ids<K, V>(list: seq<Node<K, V>>): set<nat>
    decreases |list|
  {
    if list == [] then {} else {list[0].id} + Ids(list[1..])
  }

  /** The index that a list calls for. */
  function IndexOf<K, V>(list: seq<Node<K, V>>): map<K, nat>
    decreases |list|
  {
    if list == [] then map[] else IndexOf(list[1..])[list[0].key := list[0].id]
  }

  ghost predicate Distinct<K, V>(list: seq<Node<K, V>>)
    decreases |list|
  {
    list == [] ||
    (list[0].key !in IndexOf(list[1..]) && list[0].id !in Ids(list[1..]) && Distinct(list[1..]))
  }

  /** List and index agree: no key twice, every key indexed, every iterator at its own node. */
  ghost predicate Agree<K, V>(c: Cache<K, V>) {
    Distinct(c.list) && c.index == IndexOf(c.list) && forall id | id in Ids(c.list) :: id < c.nextId
  }

  /** The list without the node that an iterator points at. */
  function Erase<K, V>(list: seq<Node<K, V>>, id: nat): seq<Node<K, V>>
    decreases |list|
  {
    if list == [] then [] else if list[0].id == id then list[1..] else [list[0]] + Erase(list[1..], id)
  }

  function PushFront<K, V>(c: Cache<K, V>, key: K, value: V): Cache<K, V> {
    var list := [Node(c.nextId, key, value)] + c.list;
    if key in c.index then Cache(Erase(list, c.index[key]), (c.index - {key})[key := c.nextId], c.nextId + 1)
    else Cache(list, c.index[key := c.nextId], c.nextId + 1)
  }

  /** The eviction loop. `last` is the position of the iterator, `valid` whether its node still exists;
      `n` turns remain. Line 48 tests the iterator's node, line 50 pops the tail. */
  function Evict<K, V>(list: seq<Node<K, V>>, index: map<K, nat>, last: nat, valid: bool, n: nat,
      del: K -> bool): Outcome<(seq<Node<K, V>>, map<K, nat>)>
    requires valid ==> last <= |list|
    decreases n
  {
    if n == 0 then Ok((list, index))
    else if !valid || last == 0 then Undefined
    else
      var node := list[last - 1];
      if del(node.key) then
        Evict(list[..|list| - 1], index - {node.key}, last - 1, last < |list|, n - 1, del)
      else Evict(list, index, last - 1, true, n - 1, del)
  }

  function Excess<K, V>(c: Cache<K, V>, maxSize: nat): nat {
    if |c.index| > maxSize then |c.index| - maxSize else 0
  }

  function PutStep<K, V>(c: Cache<K, V>, maxSize: nat, key: K, value: V, del: K -> bool): Outcome<Cache<K, V>> {
    var c' := PushFront(c, key, value);
    match Evict(c'.list, c'.index, |c'.list|, true, Excess(c', maxSize), del)
    case Undefined => Undefined
    case Ok((list, index)) => Ok(Cache(list, index, c'.nextId))
  }

  /** Keys without one of them. */
  function Without<K(==)>(keys: seq<K>, k: K): seq<K>
    decreases |keys|
  {
    if keys == [] then [] else if keys[0] == k then keys[1..] else [keys[0]] + Without(keys[1..], k)
  }

  // ----- Pushing to the front -----

  lemma {:induction false} IndexedKeys<K, V>(list: seq<Node<K, V>>)
    ensures forall k :: k in IndexOf(list) <==> k in Keys(list)
    ensures forall k | k in IndexOf(list) :: IndexOf(list)[k] in Ids(list)
    ensures |Keys(list)| == |list|
    decreases |list|
  {
    if list != [] {
      IndexedKeys(list[1..]);
    }
  }

  lemma {:induction false} IndexSize<K, V>(list: seq<Node<K, V>>)
    requires Distinct(list)
    ensures |IndexOf(list)| == |list|
    decreases |list|
  {
    if list != [] {
      IndexSize(list[1..]);
    }
  }

  lemma ConsNode<K, V>(node: Node<K, V>, rest: seq<Node<K, V>>)
    ensures var list := [node] + rest;
            && Keys(list) == [node.key] + Keys(rest) && Ids(list) == {node.id} + Ids(rest)
            && IndexOf(list) == IndexOf(rest)[node.key := node.id]
            && (Distinct(list) <==> node.key !in IndexOf(rest) && node.id !in Ids(rest) && Distinct(rest))
  {
    assert ([node] + rest)[1..] == rest;
  }

  /** `rest'` is the list `rest` without the node of `key`. */
  ghost predicate Erased<K, V>(rest: seq<Node<K, V>>, rest': seq<Node<K, V>>, key: K) {
    && Distinct(rest') && Ids(rest') <= Ids(rest)
    && IndexOf(rest') == IndexOf(rest) - {key} && Keys(rest') == Without(Keys(rest), key)
  }

  lemma ConsErased<K, V>(node: Node<K, V>, rest: seq<Node<K, V>>, rest': seq<Node<K, V>>, key: K)
    requires Erased(rest, rest', key) && node.key != key && Distinct([node] + rest)
    ensures Erased([node] + rest, [node] + rest', key)
  {
    hide Keys, Ids, IndexOf, Distinct;
    ConsNode(node, rest);
    ConsNode(node, rest');
    assert ([node.key] + Keys(rest))[1..] == Keys(rest);
  }

  lemma EraseFirst<K, V>(node: Node<K, V>, rest: seq<Node<K, V>>)
    requires Distinct([node] + rest)
    ensures Erased([node] + rest, rest, node.key)
  {
    hide Keys, Ids, IndexOf, Distinct;
    ConsNode(node, rest);
    assert ([node.key] + Keys(rest))[1..] == Keys(rest);
  }

  lemma {:induction false} EraseKey<K, V>(list: seq<Node<K, V>>, key: K)
    requires Distinct(list) && key in IndexOf(list)
    ensures Erased(list, Erase(list, IndexOf(list)[key]), key)
    decreases |list|
  {
    hide Keys, Erased;
    var node, rest := list[0], list[1..];
    assert list == [node] + rest;
    if node.key == key {
      EraseFirst(node, rest);
    } else {
      IndexedKeys(rest);
      EraseKey(rest, key);
      ConsErased(node, rest, Erase(rest, IndexOf(rest)[key]), key);
    }
  }

  lemma {:induction false} WithoutAbsent<K>(keys: seq<K>, k: K)
    requires k !in keys
    ensures Without(keys, k) == keys
    decreases |keys|
  {
    if keys != [] {
      WithoutAbsent(keys[1..], k);
    }
  }

  /** A put moves its key to the front and drops its old node, whatever the cache holds. */
  lemma PushKeepsAgree<K, V>(c: Cache<K, V>, key: K, value: V)
    requires Agree(c)
    ensures Agree(PushFront(c, key, value))
    ensures Keys(PushFront(c, key, value).list) == [key] + Without(Keys(c.list), key)
  {
    var node := Node(c.nextId, key, value);
    var c' := PushFront(c, key, value);
    IndexedKeys(c.list);
    if key in c.index {
      EraseKey(c.list, key);
      var rest := Erase(c.list, c.index[key]);
      assert ([node] + c.list)[1..] == c.list;
      assert c'.list == [node] + rest;
      assert c'.list[1..] == rest;
    } else {
      WithoutAbsent(Keys(c.list), key);
      assert c'.list[1..] == c.list;
    }
  }

  // ----- Eviction -----

  /** `list'` is `list` without its tail, whose key is `key`. */
  ghost predicate Popped<K, V>(list: seq<Node<K, V>>, list': seq<Node<K, V>>, key: K) {
    && Distinct(list') && Ids(list') <= Ids(list) && key in IndexOf(list)
    && IndexOf(list') == IndexOf(list) - {key} && Keys(list) == Keys(list') + [key]
  }

  lemma ConsPopped<K, V>(node: Node<K, V>, rest: seq<Node<K, V>>, rest': seq<Node<K, V>>, key: K)
    requires Popped(rest, rest', key) && Distinct([node] + rest)
    ensures Popped([node] + rest, [node] + rest', key)
  {
    hide Keys, Ids, IndexOf, Distinct;
    ConsNode(node, rest);
    ConsNode(node, rest');
  }

  lemma {:induction false} PopTail<K, V>(list: seq<Node<K, V>>)
    requires list != [] && Distinct(list)
    ensures Popped(list, list[..|list| - 1], list[|list| - 1].key)
    decreases |list|
  {
    if |list| > 1 {
      var node, rest := list[0], list[1..];
      hide Keys, Popped;
      PopTail(rest);
      assert list == [node] + rest && list[..|list| - 1] == [node] + rest[..|rest| - 1];
      ConsPopped(node, rest, rest[..|rest| - 1], rest[|rest| - 1].key);
    }
  }

  /** None of the last `n` keys may be deleted. */
  predicate AllRefused<K, V>(list: seq<Node<K, V>>, n: nat, del: K -> bool)
    requires n <= |list|
  {
    forall i | |list| - n <= i < |list| :: !del(list[i].key)
  }

  lemma {:induction false} RefusedKeepsAll<K, V>(list: seq<Node<K, V>>, index: map<K, nat>, last: nat, n: nat,
      del: K -> bool)
    requires n <= last <= |list| && forall i | last - n <= i < last :: !del(list[i].key)
    ensures Evict(list, index, last, true, n, del) == Ok((list, index))
    decreases n
  {
    if n > 0 {
      RefusedKeepsAll(list, index, last - 1, n - 1, del);
    }
  }

  /** What the cache is after a put: one key over the limit drops the least recent one if that may
      be deleted. */
  function PutKeys<K(==)>(keys: seq<K>, maxSize: nat, key: K, del: K -> bool): seq<K> {
    var pushed := [key] + Without(keys, key);
    if |pushed| == maxSize + 1 && del(pushed[maxSize]) then pushed[..maxSize] else pushed
  }

  lemma EvictOne<K, V>(list: seq<Node<K, V>>, index: map<K, nat>, del: K -> bool)
    requires list != []
    ensures var tail := list[|list| - 1].key;
            Evict(list, index, |list|, true, 1, del)
            == if del(tail) then Ok((list[..|list| - 1], index - {tail})) else Ok((list, index))
  {
  }

  lemma PutWithinOne<K, V>(c: Cache<K, V>, maxSize: nat, key: K, value: V, del: K -> bool)
    requires Agree(c) && Excess(PushFront(c, key, value), maxSize) <= 1
    ensures PutStep(c, maxSize, key, value, del).Ok?
    ensures Agree(PutStep(c, maxSize, key, value, del).value)
    ensures Keys(PutStep(c, maxSize, key, value, del).value.list) == PutKeys(Keys(c.list), maxSize, key, del)
  {
    var c' := PushFront(c, key, value);
    PushKeepsAgree(c, key, value);
    IndexSize(c'.list);
    KeysAt(c'.list);
    hide Keys, PushFront, Distinct, IndexOf, Ids, Without;
    if Excess(c', maxSize) == 1 {
      EvictOne(c'.list, c'.index, del);
      PopTail(c'.list);
    }
  }

  /** A key that is indexed but no longer in the list stays so through the rest of the loop. */
  lemma {:induction false} LostStaysLost<K, V>(list: seq<Node<K, V>>, index: map<K, nat>, last: nat, valid: bool,
      n: nat, del: K -> bool, key: K)
    requires valid ==> last <= |list|
    requires key in index && forall i | 0 <= i < |list| :: list[i].key != key
    ensures match Evict(list, index, last, valid, n, del)
            case Undefined => true
            case Ok((list', index')) => key in index' && forall i | 0 <= i < |list'| :: list'[i].key != key
    decreases n
  {
    if n > 0 && valid && last > 0 {
      var node := list[last - 1];
      if del(node.key) {
        LostStaysLost(list[..|list| - 1], index - {node.key}, last - 1, last < |list|, n - 1, del, key);
      } else {
        LostStaysLost(list, index, last - 1, true, n - 1, del, key);
      }
    }
  }

  lemma {:induction false} SkipsRefused<K, V>(list: seq<Node<K, V>>, index: map<K, nat>, last: nat, n: nat,
      k: nat, del: K -> bool)
    requires k <= n && k <= last <= |list| && forall i | last - k <= i < last :: !del(list[i].key)
    ensures Evict(list, index, last, true, n, del) == Evict(list, index, last - k, true, n - k, del)
    decreases k
  {
    if k > 0 {
      SkipsRefused(list, index, last - 1, n - 1, k - 1, del);
    }
  }

  lemma {:induction false} KeysAt<K, V>(list: seq<Node<K, V>>)
    ensures |Keys(list)| == |list| && forall i | 0 <= i < |list| :: Keys(list)[i] == list[i].key
    decreases |list|
  {
    if list != [] {
      KeysAt(list[1..]);
    }
  }

  /** In an agreeing list the tail's key occurs nowhere else. */
  lemma TailIsLost<K, V>(list: seq<Node<K, V>>)
    requires list != [] && Distinct(list)
    ensures forall i | 0 <= i < |list| - 1 :: list[i].key != list[|list| - 1].key
  {
    PopTail(list);
    var list' := list[..|list| - 1];
    IndexedKeys(list');
    KeysAt(list');
    forall i | 0 <= i < |list| - 1
      ensures list[i].key != list[|list| - 1].key
    {
      assert Keys(list')[i] == list[i].key;
      assert list[i].key in IndexOf(list');
    }
  }

  /** Two or more over the limit, the first deletable key ruins the cache: its iterator is dead, or
      another node is popped in its place. */
  lemma EvictingManyFails<K, V>(list: seq<Node<K, V>>, n: nat, i: nat, del: K -> bool)
    requires Distinct(list) && 2 <= n <= |list| && |list| - n <= i < |list|
    requires del(list[i].key) && forall j | i < j < |list| :: !del(list[j].key)
    ensures match Evict(list, IndexOf(list), |list|, true, n, del)
            case Undefined => true
            case Ok((list', index')) => index' != IndexOf(list')
  {
    var index := IndexOf(list);
    var skip := |list| - 1 - i;
    SkipsRefused(list, index, |list|, n, skip, del);
    if i < |list| - 1 {
      var lost := list[|list| - 1].key;
      TailIsLost(list);
      PopTail(list);
      LostStaysLost(list[..|list| - 1], index - {list[i].key}, i, true, n - skip - 1, del, lost);
      match Evict(list, index, |list|, true, n, del)
      case Undefined =>
      case Ok((list', index')) =>
        KeysAt(list');
        IndexedKeys(list');
        assert lost !in Keys(list');
    }
  }

  lemma LastDeletable<K, V>(list: seq<Node<K, V>>, n: nat, del: K -> bool) returns (i: nat)
    requires n <= |list| && !AllRefused(list, n, del)
    ensures |list| - n <= i < |list| && del(list[i].key) && forall j | i < j < |list| :: !del(list[j].key)
  {
    i := |list| - 1;
    while !del(list[i].key)
      invariant |list| - n <= i < |list|
      invariant forall j | i < j < |list| :: !del(list[j].key)
      invariant exists k :: |list| - n <= k <= i && del(list[k].key)
      decreases i
    {
      i := i - 1;
    }
  }

  /** A put leaves list and index in agreement exactly when at most one key must go, or when the
      callback refuses every candidate. */
  lemma PutIsSoundIff<K, V>(c: Cache<K, V>, maxSize: nat, key: K, value: V, del: K -> bool)
    requires Agree(c)
    ensures var c' := PushFront(c, key, value);
            var n := Excess(c', maxSize);
            n <= |c'.list| &&
            (PutStep(c, maxSize, key, value, del).Ok? && Agree(PutStep(c, maxSize, key, value, del).value)
             <==> n <= 1 || AllRefused(c'.list, n, del))
  {
    var c' := PushFront(c, key, value);
    var n := Excess(c', maxSize);
    PushKeepsAgree(c, key, value);
    IndexSize(c'.list);
    if n <= 1 {
      PutWithinOne(c, maxSize, key, value, del);
    } else if AllRefused(c'.list, n, del) {
      RefusedKeepsAll(c'.list, c'.index, |c'.list|, n, del);
    } else {
      var i := LastDeletable(c'.list, n, del);
      EvictingManyFails(c'.list, n, i, del);
    }
  }

  /** A refused key is dropped by no put that had at most one key to evict. */
  lemma PinnedSurvives<K, V>(c: Cache<K, V>, maxSize: nat, key: K, value: V, del: K -> bool, pinned: K)
    requires Agree(c) && Excess(PushFront(c, key, value), maxSize) <= 1
    requires pinned in c.index && !del(pinned)
    ensures PutStep(c, maxSize, key, value, del).Ok? && pinned in PutStep(c, maxSize, key, value, del).value.index
  {
    var c' := PushFront(c, key, value);
    PushKeepsAgree(c, key, value);
    PutWithinOne(c, maxSize, key, value, del);
    assert pinned in c'.index;
    if Excess(c', maxSize) == 1 {
      IndexSize(c'.list);
      PopTail(c'.list);
    }
  }

  // ----- Reading, removing, and the order of the keys -----

  /** A hit moves its node to the front; a miss throws and changes nothing. */
  function GetStep<K, V>(c: Cache<K, V>, key: K): (r: (Cache<K, V>, Option<V>)) {
    if key !in c.index then (c, None)
    else
      match Find(c.list, c.index[key])
      case None => (c, None)
      case Some(node) => (c.(list := [node] + Erase(c.list, node.id)), Some(node.value))
  }

  function Find<K, V>(list: seq<Node<K, V>>, id: nat): Option<Node<K, V>>
    decreases |list|
  {
    if list == [] then None else if list[0].id == id then Some(list[0]) else Find(list[1..], id)
  }

  /** Removing a key that may be deleted erases through its index entry; an absent key has none. */
  function RemoveStep<K, V>(c: Cache<K, V>, key: K, del: K -> bool): Outcome<Cache<K, V>> {
    if !del(key) then Ok(c)
    else if key !in c.index then Undefined
    else Ok(c.(list := Erase(c.list, c.index[key]), index := c.index - {key}))
  }

  lemma {:induction false} FindIndexed<K, V>(list: seq<Node<K, V>>, key: K)
    requires Distinct(list) && key in IndexOf(list)
    ensures Find(list, IndexOf(list)[key]).Some?
    ensures var node := Find(list, IndexOf(list)[key]).value;
            node.key == key && node.id == IndexOf(list)[key] && node in list && node.id in Ids(list)
            && node.id !in Ids(Erase(list, node.id))
    decreases |list|
  {
    IndexedKeys(list[1..]);
    if list[0].key != key {
      FindIndexed(list[1..], key);
      var id := IndexOf(list)[key];
      assert Erase(list, id)[1..] == Erase(list[1..], id);
    }
  }

  lemma GetKeepsAgree<K, V>(c: Cache<K, V>, key: K)
    requires Agree(c)
    ensures Agree(GetStep(c, key).0) && GetStep(c, key).0.index == c.index
    ensures GetStep(c, key).1.Some? <==> key in c.index
    ensures key in c.index ==>
              Keys(GetStep(c, key).0.list) == [key] + Without(Keys(c.list), key)
              && exists node | node in c.list :: node.key == key && GetStep(c, key).1 == Some(node.value)
  {
    if key in c.index {
      FindIndexed(c.list, key);
      EraseKey(c.list, key);
      var node := Find(c.list, c.index[key]).value;
      hide Keys, Ids, IndexOf, Distinct, Find, Erase;
      ConsNode(node, Erase(c.list, node.id));
    }
  }

  lemma RemoveKeepsAgree<K, V>(c: Cache<K, V>, key: K, del: K -> bool)
    requires Agree(c)
    ensures RemoveStep(c, key, del).Ok? <==> key in c.index || !del(key)
    ensures RemoveStep(c, key, del).Ok? ==> Agree(RemoveStep(c, key, del).value)
    ensures !del(key) ==> RemoveStep(c, key, del) == Ok(c)
    ensures del(key) && key in c.index ==> Keys(RemoveStep(c, key, del).value.list) == Without(Keys(c.list), key)
  {
    if del(key) && key in c.index {
      EraseKey(c.list, key);
    }
  }

  /** The callback of the sizes cache. */
  predicate Always<K>(key: K) {
    true
  }

  datatype Op<+K, +V> = PutOp(key: K, value: V) | GetOp(key: K) | RemoveOp(key: K)

  /** The cache after a run in which every key may be deleted, and all keys put and not removed since,
      most recently used first, evicted ones included. */
  function RunOps<K, V>(c: Cache<K, V>, recent: seq<K>, maxSize: nat, ops: seq<Op<K, V>>)
    : Outcome<(Cache<K, V>, seq<K>)>
    decreases |ops|
  {
    if ops == [] then Ok((c, recent))
    else match ops[0]
      case PutOp(key, value) =>
        (match PutStep(c, maxSize, key, value, Always)
         case Undefined => Undefined
         case Ok(c') => RunOps(c', [key] + Without(recent, key), maxSize, ops[1..]))
      case GetOp(key) =>
        RunOps(GetStep(c, key).0, if key in c.index then [key] + Without(recent, key) else recent, maxSize, ops[1..])
      case RemoveOp(key) =>
        (match RemoveStep(c, key, Always)
         case Undefined => Undefined
         case Ok(c') => RunOps(c', Without(recent, key), maxSize, ops[1..]))
  }

  /** The cache holds the first keys of the recency order; all that fit if nothing was removed. */
  ghost predicate HoldsMostRecent<K, V>(c: Cache<K, V>, recent: seq<K>, maxSize: nat, full: bool) {
    && Agree(c) && |c.list| <= maxSize
    && Keys(c.list) <= recent
    && (full ==> |c.list| == Min(maxSize, |recent|))
  }

  function Count(b: bool): nat {
    if b then 1 else 0
  }

  lemma {:induction false} WithoutPrefix<K>(keys: seq<K>, all: seq<K>, k: K)
    requires keys <= all
    ensures Without(keys, k) <= Without(all, k)
    ensures |Without(keys, k)| == |keys| - Count(k in keys) && |Without(all, k)| == |all| - Count(k in all)
    decreases |all|
  {
    if keys != [] && keys[0] != k {
      assert keys == [keys[0]] + keys[1..] && all == [all[0]] + all[1..];
      WithoutPrefix(keys[1..], all[1..], k);
    } else if keys == [] && all != [] && all[0] != k {
      assert all == [all[0]] + all[1..];
      WithoutPrefix(keys, all[1..], k);
    } else if keys != [] {
      assert k in keys && k in all;
    }
  }

  lemma PutHolds<K, V>(c: Cache<K, V>, recent: seq<K>, maxSize: nat, full: bool, key: K, value: V)
    requires HoldsMostRecent(c, recent, maxSize, full)
    ensures PutStep(c, maxSize, key, value, Always).Ok?
    ensures HoldsMostRecent(PutStep(c, maxSize, key, value, Always).value, [key] + Without(recent, key), maxSize, full)
  {
    hide PutStep, PushFront, Keys, Without, Distinct, IndexOf, Ids;
    var keys, pushed := Keys(c.list), PushFront(c, key, value);
    PushKeepsAgree(c, key, value);
    WithoutPrefix(keys, recent, key);
    KeysAt(c.list);
    KeysAt(pushed.list);
    IndexSize(pushed.list);
    PutWithinOne(c, maxSize, key, value, Always);
    KeysAt(PutStep(c, maxSize, key, value, Always).value.list);
    assert keys == recent || |keys| < |recent|;
  }

  lemma GetHolds<K, V>(c: Cache<K, V>, recent: seq<K>, maxSize: nat, full: bool, key: K)
    requires HoldsMostRecent(c, recent, maxSize, full)
    ensures HoldsMostRecent(GetStep(c, key).0, if key in c.index then [key] + Without(recent, key) else recent,
                            maxSize, full)
  {
    GetKeepsAgree(c, key);
    if key in c.index {
      IndexedKeys(c.list);
      WithoutPrefix(Keys(c.list), recent, key);
      KeysAt(c.list);
      KeysAt(GetStep(c, key).0.list);
    }
  }

  lemma RemoveHolds<K, V>(c: Cache<K, V>, recent: seq<K>, maxSize: nat, full: bool, key: K)
    requires HoldsMostRecent(c, recent, maxSize, full) && RemoveStep(c, key, Always).Ok?
    ensures HoldsMostRecent(RemoveStep(c, key, Always).value, Without(recent, key), maxSize, false)
  {
    RemoveKeepsAgree(c, key, Always);
    WithoutPrefix(Keys(c.list), recent, key);
    KeysAt(c.list);
    KeysAt(RemoveStep(c, key, Always).value.list);
  }

  /** After any run: list and index agree, the keys stand in recency order, and without removals the
      cache holds exactly the most recent keys that fit. */
  lemma {:induction false} RunHoldsMostRecent<K, V>(c: Cache<K, V>, recent: seq<K>, maxSize: nat, full: bool,
      ops: seq<Op<K, V>>)
    requires HoldsMostRecent(c, recent, maxSize, full) && RunOps(c, recent, maxSize, ops).Ok?
    ensures var (c', recent') := RunOps(c, recent, maxSize, ops).value;
            HoldsMostRecent(c', recent', maxSize, full && forall op | op in ops :: !op.RemoveOp?)
    decreases |ops|
  {
    if ops != [] {
      var op, rest := ops[0], ops[1..];
      assert ops == [op] + rest;
      match op
      case PutOp(key, value) =>
        PutHolds(c, recent, maxSize, full, key, value);
        RunHoldsMostRecent(PutStep(c, maxSize, key, value, Always).value, [key] + Without(recent, key),
                           maxSize, full, rest);
      case GetOp(key) =>
        GetHolds(c, recent, maxSize, full, key);
        RunHoldsMostRecent(GetStep(c, key).0, if key in c.index then [key] + Without(recent, key) else recent,
                           maxSize, full, rest);
      case RemoveOp(key) =>
        RemoveHolds(c, recent, maxSize, full, key);
        RunHoldsMostRecent(RemoveStep(c, key, Always).value, Without(recent, key), maxSize, false, rest);
    }
  }

  // ----- The values -----

  /** A call with the callback it meets */
  datatype Call<!K, +V> =
    | PutCall(key: K, value: V, del: K -> bool)
    | GetCall(key: K)
    | RemoveCall(key: K, del: K -> bool)

  function Answer<K, V>(c: Cache<K, V>, maxSize: nat, call: Call<K, V>): Outcome<Cache<K, V>> {
    match call
    case PutCall(key, value, del) => PutStep(c, maxSize, key, value, del)
    case GetCall(key) => Ok(GetStep(c, key).0)
    case RemoveCall(key, del) => RemoveStep(c, key, del)
  }

  function RunCalls<K, V>(c: Cache<K, V>, maxSize: nat, calls: seq<Call<K, V>>): Outcome<Cache<K, V>>
    decreases |calls|
  {
    if calls == [] then Ok(c)
    else match Answer(c, maxSize, calls[0])
      case Undefined => Undefined
      case Ok(c') => RunCalls(c', maxSize, calls[1..])
  }

  /** Each put has at most one key to evict, or has all candidates refused. */
  predicate PutsAreSound<K, V>(c: Cache<K, V>, maxSize: nat, calls: seq<Call<K, V>>)
    decreases |calls|
  {
    calls == [] ||
    ((calls[0].PutCall? ==>
        var c' := PushFront(c, calls[0].key, calls[0].value);
        var n := Excess(c', maxSize);
        n <= 1 || (n <= |c'.list| && AllRefused(c'.list, n, calls[0].del))) &&
     match Answer(c, maxSize, calls[0])
     case Undefined => true
     case Ok(c') => PutsAreSound(c', maxSize, calls[1..]))
  }

  /** The value that each key was put with last. */
  function LastPut<K, V>(latest: map<K, V>, calls: seq<Call<K, V>>): map<K, V>
    decreases |calls|
  {
    if calls == [] then latest
    else LastPut(if calls[0].PutCall? then latest[calls[0].key := calls[0].value] else latest, calls[1..])
  }

  /** Every node has the value that its key was put with last. */
  ghost predicate Truthful<K, V>(list: seq<Node<K, V>>, latest: map<K, V>) {
    forall node | node in list :: node.key in latest && latest[node.key] == node.value
  }

  lemma {:induction false} EraseLeaves<K, V>(list: seq<Node<K, V>>, id: nat)
    ensures forall node | node in Erase(list, id) :: node in list
    decreases |list|
  {
    if list != [] && list[0].id != id {
      EraseLeaves(list[1..], id);
    }
  }

  lemma {:induction false} EvictLeaves<K, V>(list: seq<Node<K, V>>, index: map<K, nat>, last: nat, valid: bool, n: nat,
      del: K -> bool)
    requires valid ==> last <= |list|
    ensures match Evict(list, index, last, valid, n, del)
            case Undefined => true
            case Ok((list', _)) => forall node | node in list' :: node in list
    decreases n
  {
    if n > 0 && valid && last > 0 {
      var node := list[last - 1];
      if del(node.key) {
        var init := list[..|list| - 1];
        assert list == init + [list[|list| - 1]];
        EvictLeaves(init, index - {node.key}, last - 1, last < |list|, n - 1, del);
      } else {
        EvictLeaves(list, index, last - 1, true, n - 1, del);
      }
    }
  }

  /** The nodes behind the first have other keys. */
  lemma OthersDiffer<K, V>(list: seq<Node<K, V>>)
    requires list != [] && Distinct(list)
    ensures forall node | node in list[1..] :: node.key != list[0].key
  {
    IndexedKeys(list[1..]);
    KeysAt(list[1..]);
    forall node | node in list[1..]
      ensures node.key != list[0].key
    {
      var i :| 0 <= i < |list[1..]| && list[1..][i] == node;
      assert Keys(list[1..])[i] in Keys(list[1..]);
    }
  }

  lemma PushedNodes<K, V>(c: Cache<K, V>, key: K, value: V)
    requires Agree(c)
    ensures
      var list := PushFront(c, key, value).list;
      && list != [] && list[0] == Node(c.nextId, key, value)
      && forall node | node in list[1..] :: node in c.list
  {
    var list := [Node(c.nextId, key, value)] + c.list;
    assert list[1..] == c.list;
    if key in c.index {
      IndexedKeys(c.list);
      EraseLeaves(c.list, c.index[key]);
    }
  }

  lemma PushIsTruthful<K, V>(c: Cache<K, V>, key: K, value: V, latest: map<K, V>)
    requires Agree(c) && Truthful(c.list, latest)
    ensures Truthful(PushFront(c, key, value).list, latest[key := value])
  {
    hide PushFront, Distinct, IndexOf, Ids;
    var list := PushFront(c, key, value).list;
    PushKeepsAgree(c, key, value);
    PushedNodes(c, key, value);
    OthersDiffer(list);
    assert list == [list[0]] + list[1..];
  }

  lemma AnswerIsTruthful<K, V>(c: Cache<K, V>, maxSize: nat, call: Call<K, V>, latest: map<K, V>)
    requires Agree(c) && Truthful(c.list, latest) && PutsAreSound(c, maxSize, [call])
    ensures call.PutCall? ==> Answer(c, maxSize, call).Ok?
    ensures Answer(c, maxSize, call).Ok? ==>
      && Agree(Answer(c, maxSize, call).value)
      && Truthful(Answer(c, maxSize, call).value.list, LastPut(latest, [call]))
  {
    hide Agree, PushFront, Erase, AllRefused, Evict;
    match call
    case PutCall(key, value, del) =>
      PutIsSoundIff(c, maxSize, key, value, del);
      PushIsTruthful(c, key, value, latest);
      var c' := PushFront(c, key, value);
      EvictLeaves(c'.list, c'.index, |c'.list|, true, Excess(c', maxSize), del);
    case GetCall(key) =>
      GetKeepsAgree(c, key);
      GetLeaves(c, key);
    case RemoveCall(key, del) =>
      if RemoveStep(c, key, del).Ok? {
        RemoveKeepsAgree(c, key, del);
      }
      if key in c.index {
        EraseLeaves(c.list, c.index[key]);
      }
  }

  lemma GetLeaves<K, V>(c: Cache<K, V>, key: K)
    requires Agree(c)
    ensures forall node | node in GetStep(c, key).0.list :: node in c.list
    ensures GetStep(c, key).1.Some? ==>
      exists node :: node in c.list && node.key == key && GetStep(c, key).1 == Some(node.value)
  {
    if key in c.index {
      FindIndexed(c.list, key);
      EraseLeaves(c.list, c.index[key]);
    }
  }

  lemma {:induction false} RunIsTruthful<K, V>(c: Cache<K, V>, maxSize: nat, calls: seq<Call<K, V>>, latest: map<K, V>)
    requires Agree(c) && Truthful(c.list, latest) && PutsAreSound(c, maxSize, calls)
    requires RunCalls(c, maxSize, calls).Ok?
    ensures Agree(RunCalls(c, maxSize, calls).value)
    ensures Truthful(RunCalls(c, maxSize, calls).value.list, LastPut(latest, calls))
    decreases |calls|
  {
    hide Agree, Truthful, Answer, AllRefused, PushFront;
    if calls != [] {
      var first, rest := calls[0], calls[1..];
      assert [first][1..] == [];
      AnswerIsTruthful(c, maxSize, first, latest);
      assert LastPut(latest, [first]) == if first.PutCall? then latest[first.key := first.value] else latest;
      RunIsTruthful(Answer(c, maxSize, first).value, maxSize, rest, LastPut(latest, [first]));
    }
  }

  /** After any run from the empty cache, with any callbacks, in which each put was sound, a hit returns the
      value last put under its key. */
  lemma HitReturnsLastPut<K, V>(maxSize: nat, calls: seq<Call<K, V>>, key: K)
    requires PutsAreSound(Cache([], map[], 0), maxSize, calls)
    requires RunCalls(Cache([], map[], 0), maxSize, calls).Ok?
    ensures
      var got := GetStep(RunCalls(Cache([], map[], 0), maxSize, calls).value, key).1;
      got.Some? ==> key in LastPut(map[], calls) && got == Some(LastPut(map[], calls)[key])
  {
    hide PutsAreSound, RunCalls, LastPut, GetStep;
    RunIsTruthful(Cache([], map[], 0), maxSize, calls, map[]);
    GetLeaves(RunCalls(Cache([], map[], 0), maxSize, calls).value, key);
  }

  // ----- The cache as the program keeps it -----

  class LruCache<K(==), V> {
    const maxSize: nat
    var list: seq<Node<K, V>>
    var index: map<K, nat>
    var nextId: nat   // stands for the allocator: no address is handed out twice

    function State(): Cache<K, V>
      reads this
    {
      Cache(list, index, nextId)
    }

    constructor (maxSize: nat)
      ensures Agree(State()) && State().list == [] && this.maxSize == maxSize
    {
      this.maxSize := maxSize;
      list, index, nextId := [], map[], 0;
    }

    method Push(key: K, value: V)
      modifies this
      ensures State() == PushFront(old(State()), key, value)
    {
      list := [Node(nextId, key, value)] + list;
      if key in index {
        list := Erase(list, index[key]);
        index := index - {key};
      }
      index := index[key := nextId];
      nextId := nextId + 1;
    }

    method EvictExcess(diff: nat, del: K -> bool)
      requires Evict(list, index, |list|, true, diff, del).Ok?
      modifies this`list, this`index
      ensures Ok((list, index)) == old(Evict(list, index, |list|, true, diff, del))
    {
      var last, valid := |list|, true;
      for i := 0 to diff
        invariant 0 <= last && (valid ==> last <= |list|)
        invariant Evict(list, index, last, valid, diff - i, del) == old(Evict(list, index, |list|, true, diff, del))
      {
        assert valid && last > 0;
        last := last - 1;
        if del(list[last].key) {
          valid := last + 1 < |list|;
          index := index - {list[last].key};
          list := list[..|list| - 1];
        }
      }
    }

    method Put(key: K, value: V, del: K -> bool)
      requires PutStep(State(), maxSize, key, value, del).Ok?
      modifies this
      ensures Ok(State()) == PutStep(old(State()), maxSize, key, value, del)
    {
      Push(key, value);
      if |index| > maxSize {
        EvictExcess(|index| - maxSize, del);
      }
    }

    method Get(key: K) returns (value: Option<V>)
      requires Agree(State())
      modifies this
      ensures State() == GetStep(old(State()), key).0 && value == GetStep(old(State()), key).1
      ensures Agree(State()) && (value.Some? <==> key in index)
    {
      GetKeepsAgree(State(), key);
      if key !in index {
        return None;
      }
      var node := Find(list, index[key]).value;
      list := [node] + Erase(list, node.id);
      value := Some(node.value);
    }

    method Remove(key: K, del: K -> bool)
      requires Agree(State()) && (del(key) ==> key in index)
      modifies this
      ensures Agree(State()) && RemoveStep(old(State()), key, del) == Ok(State())
    {
      RemoveKeepsAgree(State(), key, del);
      if del(key) {
        list := Erase(list, index[key]);
        index := index - {key};
      }
    }
  }

  // ----- The files cache: open files are pinned -----

  lemma PushNew<K, V>(c: Cache<K, V>, key: K, value: V)
    requires Agree(c) && key !in c.index
    ensures var c' := PushFront(c, key, value);
            && c'.list == [Node(c.nextId, key, value)] + c.list && Distinct(c'.list)
            && c'.index == c.index[key := c.nextId] && |c'.index| == |c.list| + 1
            && forall i | 0 <= i < |c.list| :: c.list[i].key in c.index
  {
    PushKeepsAgree(c, key, value);
    IndexSize(PushFront(c, key, value).list);
    KeysAt(c.list);
    IndexedKeys(c.list);
    forall i | 0 <= i < |c.list|
      ensures c.list[i].key in c.index
    {
      assert Keys(c.list)[i] in Keys(c.list);
    }
  }

  /** One long-open file is enough to ruin the cache: once a refused eviction has left it one entry too
      long, with the open file least recent, the next put of a new key evicts the entry before the
      tail from the index but pops the tail, and the open file's iterator dangles. */
  lemma PinnedTailIsLost<K, V>(c: Cache<K, V>, maxSize: nat, key: K, value: V, del: K -> bool)
    requires Agree(c) && |c.list| == maxSize + 1 >= 2 && key !in c.index
    requires !del(c.list[maxSize].key) && del(c.list[maxSize - 1].key)
    ensures var r := PutStep(c, maxSize, key, value, del);
            var pinned := c.list[maxSize].key;
            r.Ok? && pinned in r.value.index && forall node | node in r.value.list :: node.key != pinned
  {
    var c' := PushFront(c, key, value);
    PushNew(c, key, value);
    TailIsLost(c'.list);
    hide PushFront, Distinct, IndexOf, Ids, Agree;
  }
}
