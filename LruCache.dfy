/**
 * LruCache: a hash map from keys to values plus an intrusive recency list,
 * most recently used first, with eviction by element count.
 *
 * `container` is the hash map (the ValueNode's node_ pointer is the key's own
 * list node, so only the value is stored); `next` and `prev` are the list
 * pointers and `order` is the ghost view of the list (see LruList).
 */
module LruCacheModel {
  import opened LruList

  class LruCache<K(==,!new), V> {
    const maxCount: nat    // max_count_
    const maxMemory: nat   // max_memory_, stored but never consulted by this class
    var container: map<K, V>
    var next: map<Link<K>, Link<K>>
    var prev: map<Link<K>, Link<K>>
    ghost var order: seq<K>

    /** The map and the list hold the same keys, each once. */
    ghost predicate Consistent()
      reads this
    {
      && Linked(next, prev, order)
      && (forall k :: k in container <==> k in order)
      && |container| == |order|
    }

    /** Consistent, and the count bound that every eviction re-establishes. */
    ghost predicate Valid()
      reads this
    {
      Consistent() && (|order| <= 1 || |order| < maxCount)
    }

    /**
     * How many of n entries evict leaves: all of them when they are within
     * the count limit, otherwise max_count - 1, but never fewer than one.
     */
    function Kept(n: nat): (k: nat)
      ensures k <= n && (k <= 1 || k < maxCount)
      ensures n >= 1 ==> k >= 1
    {
      if n <= 1 || n < maxCount then n else if maxCount <= 2 then 1 else maxCount - 1
    }

    constructor (maxCount: nat, maxMemory: nat)
      ensures Valid()
      ensures this.maxCount == maxCount && this.maxMemory == maxMemory
      ensures container == map[] && order == []
    {
      this.maxCount := maxCount;
      this.maxMemory := maxMemory;
      container := map[];
      next := map[Head := Tail];
      prev := map[Tail := Head];
      order := [];
    }

    /** find(key, val): on a hit, returns the value and moves only that key to the front. */
    method Find(key: K, val: V) returns (found: bool, out: V)
      requires Valid()
      modifies this
      ensures Valid()
      ensures found <==> key in old(container)
      ensures container == old(container)
      ensures found ==> out == container[key]
      ensures found ==> order == [key] + RemoveAt(old(order), IndexOf(old(order), key))
      ensures !found ==> out == val && order == old(order) && next == old(next) && prev == old(prev)
    {
      if key !in container {
        return false, val;
      }
      out := container[key];
      Delink(Node(key));
      LinkPushFront(Node(key));
      found := true;
    }

    /** find(key) const: membership only, the recency order is not touched. */
    function Contains(key: K): (b: bool)
      reads this
      requires Valid()
      ensures b <==> key in order
    {
      key in container
    }

    /** insert: refuses a key already present; otherwise the key becomes most recent and survives the eviction. */
    method Insert(key: K, value: V) returns (inserted: bool)
      requires Valid()
      modifies this
      ensures Valid()
      ensures inserted <==> key !in old(container)
      ensures !inserted ==> container == old(container) && order == old(order) && next == old(next) && prev == old(prev)
      ensures inserted ==> key in container && container[key] == value && order[0] == key
      ensures inserted ==> 1 <= |order| && order <= [key] + old(order)
      ensures inserted ==> forall k :: k in container ==> container[k] == old(container)[key := value][k]
      ensures inserted ==> |order| == Kept(|old(order)| + 1)
      ensures inserted && (old(order) == [] || |old(order)| + 1 < maxCount) ==>
        order == [key] + old(order) && container == old(container)[key := value]
    {
      if key in container {
        return false;
      }
      container := container[key := value];
      LinkPushFront(Node(key));
      ghost var pushed := order;
      Evict();
      PrefixHead(pushed, order);
      inserted := true;
    }

    /** insert_or_update: an absent key is inserted; a present key gets the new value and moves to the front. */
    method InsertOrUpdate(key: K, value: V) returns (ok: bool)
      requires Valid()
      modifies this
      ensures Valid() && ok
      ensures key in container && container[key] == value && order[0] == key
      ensures key !in old(container) ==> order <= [key] + old(order)
      ensures key !in old(container) ==> forall k :: k in container ==> container[k] == old(container)[key := value][k]
      ensures key !in old(container) ==> |order| == Kept(|old(order)| + 1)
      ensures key !in old(container) && (old(order) == [] || |old(order)| + 1 < maxCount) ==>
        order == [key] + old(order) && container == old(container)[key := value]
      ensures key in old(container) ==> container == old(container)[key := value]
      ensures key in old(container) ==> order == [key] + RemoveAt(old(order), IndexOf(old(order), key))
    {
      if key !in container {
        ok := Insert(key, value);
        return;
      }
      container := container[key := value];
      Delink(Node(key));
      LinkPushFront(Node(key));
      Evict();
      ok := true;
    }

    /** clear: deletes every node, then relinks head_ and tail_. */
    method Clear()
      requires Valid()
      modifies this
      ensures Valid() && container == map[] && order == []
    {
      container := map[];
      next, prev := DeleteNodes(next, prev, order);
      ResetLinked(next, prev);
      next := next[Head := Tail];
      prev := prev[Tail := Head];
      order := [];
    }

    /** snapshot_keys: appends every key, most recent first, after what `keys` already holds. */
    method SnapshotKeys(keys: seq<K>) returns (result: seq<K>)
      requires Valid()
      ensures result == keys + order
      ensures |result| == |keys| + ItemCount()
    {
      result := keys;
      assert next[At(order, -1)] == At(order, 0);
      var node := next[Head];
      ghost var i := 0;
      while node != Tail
        invariant 0 <= i <= |order| && node == At(order, i)
        invariant result == keys + order[..i]
        decreases |order| - i
      {
        result := result + [node.key];
        node := next[node];
        i := i + 1;
      }
    }

    /** item_count */
    function ItemCount(): (n: nat)
      reads this
      requires Valid()
      ensures n == |order|
    {
      |container|
    }

    /** delink: unhooks a node from its neighbours and clears its own pointers. */
    method Delink(node: Link<K>)
      requires Linked(next, prev, order) && node.Node? && node.key in order
      modifies this
      ensures Linked(next, prev, order)
      ensures order == RemoveAt(old(order), IndexOf(old(order), node.key))
      ensures forall x :: x in order <==> x in old(order) && x != node.key
      ensures container == old(container)
    {
      ghost var j := IndexOf(order, node.key);
      NodeAt(next, prev, order, node.key);
      DelinkKeepsLinked(next, prev, order, j);
      RemoveAtElems(order, j);
      var p := prev[node];
      var n := next[node];
      next := next[p := n];
      prev := prev[n := p];
      next := next - {node};
      prev := prev - {node};
      order := RemoveAt(order, j);
    }

    /** link_push_front: hooks a node in right after head_. */
    method LinkPushFront(node: Link<K>)
      requires Linked(next, prev, order) && node.Node? && node.key !in order
      modifies this
      ensures Linked(next, prev, order)
      ensures order == [node.key] + old(order)
      ensures container == old(container)
    {
      PushFrontKeepsLinked(next, prev, order, node.key);
      var oldHead := next[Head];
      prev := prev[node := Head];
      next := next[node := oldHead];
      prev := prev[oldHead := node];
      next := next[Head := node];
      order := [node.key] + order;
    }

    /** evict: drops least recently used entries while the count is at the limit, keeping at least one. */
    method Evict()
      requires Consistent()
      modifies this
      ensures Valid()
      ensures order <= old(order)
      ensures |old(order)| >= 1 ==> |order| >= 1
      ensures forall k :: k in container ==> k in old(container) && container[k] == old(container)[k]
      ensures |old(order)| <= 1 || |old(order)| < maxCount ==> container == old(container) && order == old(order)
      ensures |order| == Kept(|old(order)|)
    {
      ghost var orig, origMap := order, container;
      while |container| >= maxCount
        invariant Linked(next, prev, order)
        invariant TracksPrefix(container, order, orig, origMap)
        invariant |orig| >= 1 ==> |order| >= 1
        invariant |order| >= Kept(|orig|)
        invariant |orig| <= 1 || |orig| < maxCount ==> container == origMap && order == orig
        decreases |order|
      {
        KeysCount(container, order);
        if |container| <= 1 {
          return;
        }
        LastBeforeTail(next, prev, order);
        var ill := prev[Tail];
        if ill == Head {
          return;
        }
        DropLru(ill, orig, origMap);
      }
      KeysCount(container, order);
    }

    /** The body of evict's loop: unlinks the least recently used node and erases its key. */
    method DropLru(ill: Link<K>, ghost orig: seq<K>, ghost origMap: map<K, V>)
      requires Linked(next, prev, order) && TracksPrefix(container, order, orig, origMap)
      requires |order| >= 1 && ill == Node(order[|order| - 1])
      modifies this
      ensures Linked(next, prev, order) && TracksPrefix(container, order, orig, origMap)
      ensures order == old(order)[..|old(order)| - 1]
    {
      ghost var o, m := order, container;
      Delink(ill);
      container := Erase(container, ill.key);
      EraseLru(m, o, orig, origMap, container, order);
    }
  }

  /**
   * The cache's smoke test: two keys into a cache of at most ten entries, a
   * repeated insert refused, lookups with and without reordering, and an
   * update of a present key.
   */
  method SmokeTest() returns (first: bool, second: bool, repeated: bool, hit: bool, value: string,
                              count: nat, has1: bool, has3: bool, updated: bool, hit2: bool, value2: string)
    ensures first && second && !repeated
    ensures hit && value == "value2"
    ensures count == 2
    ensures has1 && !has3
    ensures updated && hit2 && value2 == "value3"
  {
    var caches := new LruCache<string, string>(10, 1000);
    first := caches.Insert("key1", "value1");
    second := caches.Insert("key2", "value2");
    repeated := caches.Insert("key1", "value3");
    hit, value := caches.Find("key2", "");
    count := caches.ItemCount();
    has1 := caches.Contains("key1");
    has3 := caches.Contains("key3");
    updated := caches.InsertOrUpdate("key1", "value3");
    hit2, value2 := caches.Find("key1", value);
  }
}
