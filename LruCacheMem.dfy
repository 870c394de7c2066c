/**
 * LruCacheMem: the LRU cache that also keeps an estimate of its memory use
 * in the size_t counter mem_used_ and evicts on a memory limit as well as on
 * the element count.
 *
 * The list and the map are modelled exactly as in LruCacheModel. The counter
 * is a machine word: every update of `memUsed` is taken modulo 2^64. Each
 * eviction subtracts calc_item_size(...) + kSizeAdditional, which is
 * kSizeAdditional more than the insertion added; the ghost counter
 * `evictions` makes that drift visible in the invariant
 *
 *   memUsed == (footprint of the live entries - kSizeAdditional * evictions) mod 2^64.
 */
module LruCacheMemModel {
  import opened LruList

  /** 2^64: size_t arithmetic is taken modulo this. */
  const Size64: int := 0x1_0000_0000_0000_0000

  /** A size_t result: the mathematical value reduced modulo 2^64. */
  function Wrap(x: int): (r: nat)
    ensures r < Size64
    ensures 0 <= x < Size64 ==> r == x
  {
    x % Size64
  }

  /** Reducing before or after a subtraction gives the same size_t. */
  lemma {:induction false} WrapSub(a: int, b: int)
    ensures Wrap(Wrap(a) - b) == Wrap(a - b)
  {
    var q := a / Size64;
    assert a == q * Size64 + Wrap(a);
    assert a - b == q * Size64 + (Wrap(a) - b);
  }

  /** A size_t that went n below zero reads as 2^64 - n. */
  lemma {:induction false} WrapNegative(n: int)
    requires 0 < n <= Size64
    ensures Wrap(-n) == Size64 - n
  {
    assert -n == -1 * Size64 + (Size64 - n);
  }

  /** Reducing before or after an addition gives the same size_t. */
  lemma {:induction false} WrapAdd(a: int, b: int)
    ensures Wrap(Wrap(a) + b) == Wrap(a + b)
  {
    WrapSub(a, -b);
  }

  /**
   * Sizes on an LP64 target: ValueNode<int32_t, int32_t> is a 4-byte value
   * padded to 8 plus an 8-byte pointer, ListNode<int32_t> a 4-byte key padded
   * to 8 plus two pointers.
   */
  const SizeOfInt32: nat := 4
  const SizeOfValueNodeInt32: nat := 16
  const SizeOfListNodeInt32: nat := 24

  /** kSizeAdditional: the bookkeeping that an entry costs beyond its key and value. */
  const SizeAdditional: nat := SizeOfValueNodeInt32 + SizeOfListNodeInt32 - SizeOfInt32 - SizeOfInt32

  /** sizeof(std::string) of libstdc++ on an LP64 target. */
  const SizeOfStdString: nat := 32

  /** SizeOf<std::string>: the object itself plus its characters (not its capacity). */
  function SizeOfString(s: string): (n: nat)
  {
    SizeOfStdString + |s|
  }

  /** SizeOf<std::string> grows with the characters only: an empty string costs the bare object. */
  lemma {:induction false} SizeOfStringAppend(a: string, b: string)
    ensures SizeOfString([]) == SizeOfStdString
    ensures SizeOfString(a + b) == SizeOfString(a) + |b|
  {
  }

  class LruCacheMem<K(==,!new), V> {
    const maxCount: nat                  // max_count_
    const maxMemory: nat                 // max_memory_, 0 disables the memory limit
    const keySize: K -> nat              // calc_key_size_
    const valueSize: V -> nat            // calc_value_size_
    var memUsed: nat                     // mem_used_
    var container: map<K, V>
    var next: map<Link<K>, Link<K>>
    var prev: map<Link<K>, Link<K>>
    ghost var order: seq<K>
    /** Entries evicted since construction or the last clear. */
    ghost var evictions: nat

    /** calc_item_size: the key is counted twice, once in the map and once in its list node. */
    function ItemSize(k: K, v: V): (n: nat)
    {
      keySize(k) * 2 + valueSize(v) + SizeAdditional
    }

    /** What the entry for k in m contributes: its calc_item_size, or nothing when k has no entry. */
    ghost function EntrySize(k: K, m: map<K, V>): (n: nat)
      ensures k in m ==> n == ItemSize(k, m[k])
    {
      if k in m then ItemSize(k, m[k]) else 0
    }

    /** The sum of calc_item_size over the keys of the list o, each with its value in m. */
    ghost function Footprint(o: seq<K>, m: map<K, V>): int
      decreases |o|
    {
      if o == [] then 0 else EntrySize(o[0], m) + Footprint(o[1..], m)
    }

    /** mem_used_ is the footprint of the live entries, less kSizeAdditional per eviction, as a size_t. */
    ghost predicate Accounted()
      reads this
    {
      memUsed == Wrap(Footprint(order, container) - SizeAdditional * evictions)
    }

    ghost predicate Consistent()
      reads this
    {
      && Linked(next, prev, order)
      && (forall k :: k in container <==> k in order)
      && |container| == |order|
      && Accounted()
    }

    /** The limits that evict re-establishes: at most one entry, or under both the count and the memory limit. */
    ghost predicate WithinLimits()
      reads this
    {
      |order| <= 1 || (|order| < maxCount && (maxMemory == 0 || memUsed < maxMemory))
    }

    ghost predicate Valid()
      reads this
    {
      Consistent() && WithinLimits()
    }

    /** Whether evict's loop drops another entry from n entries and a counter of mem: a limit is reached and more than one entry is left. */
    predicate MustDrop(n: int, mem: int)
    {
      n > 1 && (n >= maxCount || (maxMemory != 0 && mem >= maxMemory))
    }

    /** mem_used_ after evict has charged the last d keys of o, each at calc_item_size + kSizeAdditional. */
    ghost function Charged(mem: int, o: seq<K>, m: map<K, V>, d: nat): int
      requires d <= |o|
      decreases d
    {
      if d == 0 then mem else Wrap(Charged(mem, o, m, d - 1) - (EntrySize(o[|o| - d], m) + SizeAdditional))
    }

    /**
     * From the list o with values m and counter mem, evict has reached o' and
     * mem' by dropping keys from the back only, charging each one, and
     * dropping each one because a limit forced it.
     */
    ghost predicate ForcedRun(o: seq<K>, m: map<K, V>, mem: int, o': seq<K>, mem': int)
    {
      && o' <= o
      && mem' == Charged(mem, o, m, |o| - |o'|)
      && (forall j :: 0 <= j < |o| - |o'| ==> MustDrop(|o| - j, Charged(mem, o, m, j)))
    }

    /** Where evict stops: a run of forced drops that ends at the first state no limit forces. */
    ghost predicate EvictedTo(o: seq<K>, m: map<K, V>, mem: int, o': seq<K>, mem': int)
    {
      ForcedRun(o, m, mem, o', mem') && !MustDrop(|o'|, mem')
    }

    /** evict's outcome is determined: two end states it may reach from the same start are the same. */
    lemma {:induction false} EvictedToUnique(o: seq<K>, m: map<K, V>, mem: int, o1: seq<K>, mem1: int, o2: seq<K>, mem2: int)
      requires EvictedTo(o, m, mem, o1, mem1) && EvictedTo(o, m, mem, o2, mem2)
      ensures o1 == o2 && mem1 == mem2
    {
      var d1, d2 := |o| - |o1|, |o| - |o2|;
      var c1, c2 := Charged(mem, o, m, d1), Charged(mem, o, m, d2);
      assert d2 < d1 ==> MustDrop(|o| - d2, c2);
      assert d1 < d2 ==> MustDrop(|o| - d1, c1);
    }

    /** A start that no limit forces is left as it is. */
    lemma {:induction false} EvictedToWithin(o: seq<K>, m: map<K, V>, mem: int, o': seq<K>, mem': int)
      requires EvictedTo(o, m, mem, o', mem') && !MustDrop(|o|, mem)
      ensures o' == o && mem' == mem
    {
      var c0 := Charged(mem, o, m, 0);
      assert |o'| < |o| ==> MustDrop(|o|, c0);
    }

    /** One more forced drop of the last key, charged against the counter, extends the run. */
    lemma {:induction false} EvictStep(orig: seq<K>, origMap: map<K, V>, origMem: int, o: seq<K>, mem: int)
      requires ForcedRun(orig, origMap, origMem, o, mem) && MustDrop(|o|, mem)
      requires 1 <= |o| && o[|o| - 1] in origMap
      ensures ForcedRun(orig, origMap, origMem, o[..|o| - 1],
                        Wrap(mem - (ItemSize(o[|o| - 1], origMap[o[|o| - 1]]) + SizeAdditional)))
    {
      var d := |orig| - |o| + 1;
      assert orig[|orig| - d] == o[|o| - 1];
    }

    constructor (maxCount: nat, maxMemory: nat, keySize: K -> nat, valueSize: V -> nat)
      ensures Valid()
      ensures this.maxCount == maxCount && this.maxMemory == maxMemory
      ensures this.keySize == keySize && this.valueSize == valueSize
      ensures container == map[] && order == [] && memUsed == 0 && evictions == 0
    {
      this.maxCount := maxCount;
      this.maxMemory := maxMemory;
      this.keySize := keySize;
      this.valueSize := valueSize;
      memUsed := 0;
      container := map[];
      next := map[Head := Tail];
      prev := map[Tail := Head];
      order := [];
      evictions := 0;
    }

    /** find(key, val): on a hit, returns the value and moves only that key to the front; mem_used_ is untouched. */
    method Find(key: K, val: V) returns (found: bool, out: V)
      requires Valid()
      modifies this
      ensures Valid()
      ensures found <==> key in old(container)
      ensures container == old(container) && memUsed == old(memUsed) && evictions == old(evictions)
      ensures found ==> out == container[key]
      ensures found ==> order == [key] + RemoveAt(old(order), IndexOf(old(order), key))
      ensures !found ==> out == val && order == old(order) && next == old(next) && prev == old(prev)
    {
      if key !in container {
        return false, val;
      }
      out := container[key];
      AccountMove(order, container, key);
      MoveToFront(key);
      found := true;
    }

    /** find(key) const: membership only, the recency order is not touched. */
    function Contains(key: K): (b: bool)
      reads this
      requires Valid()
      ensures b <==> key in order
    {
      key in container
    }

    /**
     * insert: refuses a key already present; otherwise adds calc_item_size to
     * mem_used_, puts the key in front and evicts, and the new key survives.
     */
    method Insert(key: K, value: V) returns (inserted: bool)
      requires Valid()
      modifies this
      ensures Valid()
      ensures inserted <==> key !in old(container)
      ensures !inserted ==> container == old(container) && order == old(order) && memUsed == old(memUsed)
      ensures !inserted ==> next == old(next) && prev == old(prev) && evictions == old(evictions)
      ensures inserted ==> key in container && container[key] == value && order[0] == key
      ensures inserted ==> 1 <= |order| && order <= [key] + old(order)
      ensures inserted ==> forall k :: k in container ==> container[k] == old(container)[key := value][k]
      ensures inserted ==> evictions == old(evictions) + |old(order)| + 1 - |order|
      ensures inserted && |order| == |old(order)| + 1 ==> memUsed == Wrap(old(memUsed) + ItemSize(key, value))
      ensures inserted ==> EvictedTo([key] + old(order), old(container)[key := value],
                                     Wrap(old(memUsed) + ItemSize(key, value)), order, memUsed)
      ensures inserted && !MustDrop(|old(order)| + 1, Wrap(old(memUsed) + ItemSize(key, value))) ==>
        && order == [key] + old(order) && container == old(container)[key := value]
        && memUsed == Wrap(old(memUsed) + ItemSize(key, value))
    {
      if key in container {
        return false;
      }
      PushNew(key, value);
      ghost var pushed, pushedMap, pushedMem := order, container, memUsed;
      Evict();
      PrefixHead(pushed, order);
      if !MustDrop(|pushed|, pushedMem) {
        EvictedToWithin(pushed, pushedMap, pushedMem, order, memUsed);
      }
      inserted := true;
    }

    /** insert of an absent key, up to its evict: the key in front and its calc_item_size added. */
    method PushNew(key: K, value: V)
      requires Consistent() && key !in container
      modifies this
      ensures Consistent() && evictions == old(evictions)
      ensures container == old(container)[key := value] && order == [key] + old(order)
      ensures memUsed == Wrap(old(memUsed) + ItemSize(key, value))
    {
      ghost var o, m := order, container;
      container := container[key := value];
      LinkPushFront(Node(key));
      memUsed := Wrap(memUsed + ItemSize(key, value));
      AccountInsert(old(memUsed), o, m, evictions, key, value);
    }

    /**
     * insert_or_update: an absent key is inserted; a present key gets the new
     * value, moves to the front, and mem_used_ changes by the difference of
     * the value sizes before evict runs.
     */
    method InsertOrUpdate(key: K, value: V) returns (ok: bool)
      requires Valid()
      modifies this
      ensures Valid() && ok
      ensures key in container && container[key] == value && order[0] == key
      ensures key !in old(container) ==> order <= [key] + old(order)
      ensures key !in old(container) ==> forall k :: k in container ==> container[k] == old(container)[key := value][k]
      ensures key in old(container) && |order| == |old(order)| ==>
        && container == old(container)[key := value]
        && order == [key] + RemoveAt(old(order), IndexOf(old(order), key))
        && memUsed == Wrap(old(memUsed) + valueSize(value) - valueSize(old(container)[key]))
      ensures key in old(container) ==> order <= [key] + RemoveAt(old(order), IndexOf(old(order), key))
      ensures key in old(container) ==> forall k :: k in container ==> k in old(container) && container[k] == old(container)[key := value][k]
      ensures key !in old(container) ==> EvictedTo([key] + old(order), old(container)[key := value],
                                                   Wrap(old(memUsed) + ItemSize(key, value)), order, memUsed)
      ensures key in old(container) ==>
        EvictedTo([key] + RemoveAt(old(order), IndexOf(old(order), key)), old(container)[key := value],
                  Wrap(old(memUsed) + valueSize(value) - valueSize(old(container)[key])), order, memUsed)
      ensures key in old(container) && !MustDrop(|old(order)|, Wrap(old(memUsed) + valueSize(value) - valueSize(old(container)[key]))) ==>
        |order| == |old(order)|
    {
      if key !in container {
        ok := Insert(key, value);
        return;
      }
      Refresh(key, value);
      ghost var pushed, pushedMap, pushedMem := order, container, memUsed;
      Evict();
      PrefixHead(pushed, order);
      if !MustDrop(|pushed|, pushedMem) {
        EvictedToWithin(pushed, pushedMap, pushedMem, order, memUsed);
      }
      ok := true;
    }

    /**
     * insert_or_update on a present key, up to its evict: the new value, the
     * key moved to the front, and mem_used_ changed by the difference of the
     * value sizes.
     */
    method Refresh(key: K, value: V)
      requires Consistent() && key in container
      modifies this
      ensures Consistent() && evictions == old(evictions)
      ensures container == old(container)[key := value]
      ensures order == [key] + RemoveAt(old(order), IndexOf(old(order), key))
      ensures memUsed == Wrap(old(memUsed) + valueSize(value) - valueSize(old(container)[key]))
    {
      var oldValueSize := valueSize(container[key]);
      AccountUpdate(memUsed, order, container, evictions, key, value);
      container := container[key := value];
      MoveToFront(key);
      memUsed := Wrap(memUsed + valueSize(value) - oldValueSize);
    }

    /** clear: deletes every node, relinks head_ and tail_ and resets mem_used_ to 0. */
    method Clear()
      requires Valid()
      modifies this
      ensures Valid() && container == map[] && order == [] && memUsed == 0
    {
      container := map[];
      next, prev := DeleteNodes(next, prev, order);
      ResetLinked(next, prev);
      next := next[Head := Tail];
      prev := prev[Tail := Head];
      memUsed := 0;
      order := [];
      evictions := 0;
    }

    /** snapshot_keys: appends every key, most recent first, after what `keys` already holds. */
    method SnapshotKeys(keys: seq<K>) returns (result: seq<K>)
      requires Valid()
      ensures result == keys + order
      ensures |result| == |keys| + TotalCount()
    {
      result := keys;
      assert next[At(order, -1)] == At(order, 0);
      var node := next[Head];
      ghost var i := 0;
      while node != Tail
        invariant 0 <= i <= |order| && node == At(order, i)
        invariant result == keys + order[..i]
        decreases |order| - i
      {
        result := result + [node.key];
        node := next[node];
        i := i + 1;
      }
    }

    /** total_count */
    function TotalCount(): (n: nat)
      reads this
      requires Valid()
      ensures n == |order|
    {
      |container|
    }

    /** total_mem_used: before any eviction it is the footprint of the live entries, modulo 2^64. */
    function TotalMemUsed(): (n: nat)
      reads this
      requires Valid()
      ensures n < Size64
      ensures evictions == 0 ==> n == Wrap(Footprint(order, container))
    {
      memUsed
    }

    /** delink: unhooks a node from its neighbours and clears its own pointers. */
    method Delink(node: Link<K>)
      requires Linked(next, prev, order) && node.Node? && node.key in order
      modifies this
      ensures Linked(next, prev, order)
      ensures order == RemoveAt(old(order), IndexOf(old(order), node.key))
      ensures forall x :: x in order <==> x in old(order) && x != node.key
      ensures container == old(container) && memUsed == old(memUsed) && evictions == old(evictions)
    {
      ghost var j := IndexOf(order, node.key);
      NodeAt(next, prev, order, node.key);
      DelinkKeepsLinked(next, prev, order, j);
      RemoveAtElems(order, j);
      var p := prev[node];
      var n := next[node];
      next := next[p := n];
      prev := prev[n := p];
      next := next - {node};
      prev := prev - {node};
      order := RemoveAt(order, j);
    }

    /** delink followed by link_push_front: the key's node moves to the front, the key set stays. */
    method MoveToFront(key: K)
      requires Linked(next, prev, order) && key in order
      modifies this
      ensures Linked(next, prev, order)
      ensures order == [key] + RemoveAt(old(order), IndexOf(old(order), key))
      ensures forall x :: x in order <==> x in old(order)
      ensures container == old(container) && memUsed == old(memUsed) && evictions == old(evictions)
    {
      Delink(Node(key));
      LinkPushFront(Node(key));
    }

    /** link_push_front: hooks a node in right after head_. */
    method LinkPushFront(node: Link<K>)
      requires Linked(next, prev, order) && node.Node? && node.key !in order
      modifies this
      ensures Linked(next, prev, order)
      ensures order == [node.key] + old(order)
      ensures container == old(container) && memUsed == old(memUsed) && evictions == old(evictions)
    {
      PushFrontKeepsLinked(next, prev, order, node.key);
      var oldHead := next[Head];
      prev := prev[node := Head];
      next := next[node := oldHead];
      prev := prev[oldHead := node];
      next := next[Head := node];
      order := [node.key] + order;
    }

    /**
     * evict: drops least recently used entries while the count is at its
     * limit or, when max_memory_ is not 0, mem_used_ is at its limit; it
     * always keeps at least one entry.
     */
    method Evict()
      requires Consistent()
      modifies this
      ensures Valid()
      ensures order <= old(order)
      ensures |old(order)| >= 1 ==> |order| >= 1
      ensures forall k :: k in container ==> k in old(container) && container[k] == old(container)[k]
      ensures evictions == old(evictions) + |old(order)| - |order|
      ensures |order| == |old(order)| ==> container == old(container) && order == old(order) && memUsed == old(memUsed)
      ensures old(WithinLimits()) ==> |order| == |old(order)|
      ensures EvictedTo(old(order), old(container), old(memUsed), order, memUsed)
    {
      ghost var orig, origMap, origMem, origEvictions := order, container, memUsed, evictions;
      while |container| >= maxCount || (maxMemory != 0 && memUsed >= maxMemory)
        invariant Linked(next, prev, order) && Accounted()
        invariant TracksPrefix(container, order, orig, origMap)
        invariant ForcedRun(orig, origMap, origMem, order, memUsed)
        invariant |orig| >= 1 ==> |order| >= 1
        invariant evictions == origEvictions + |orig| - |order|
        invariant |order| == |orig| ==> container == origMap && order == orig && memUsed == origMem
        decreases |order|
      {
        KeysCount(container, order);
        if |container| <= 1 {
          break;
        }
        LastBeforeTail(next, prev, order);
        var ill := prev[Tail];
        if ill == Head {
          break;
        }
        DropForced(ill, orig, origMap, origMem);
      }
      KeysCount(container, order);
      if !MustDrop(|orig|, origMem) {
        EvictedToWithin(orig, origMap, origMem, order, memUsed);
      }
    }

    /** A drop the limits forced: the run of forced drops grows by one. */
    method DropForced(ill: Link<K>, ghost orig: seq<K>, ghost origMap: map<K, V>, ghost origMem: int)
      requires Linked(next, prev, order) && TracksPrefix(container, order, orig, origMap) && Accounted()
      requires ForcedRun(orig, origMap, origMem, order, memUsed) && MustDrop(|order|, memUsed)
      requires |order| >= 1 && ill == Node(order[|order| - 1])
      modifies this
      ensures Linked(next, prev, order) && TracksPrefix(container, order, orig, origMap) && Accounted()
      ensures ForcedRun(orig, origMap, origMem, order, memUsed)
      ensures order == old(order)[..|old(order)| - 1]
      ensures evictions == old(evictions) + 1
    {
      assert ill.key in container;
      EvictStep(orig, origMap, origMem, order, memUsed);
      DropLru(ill, orig, origMap);
    }

    /**
     * The body of evict's loop: charges calc_item_size + kSizeAdditional
     * against mem_used_, unlinks the least recently used node and erases its key.
     */
    method DropLru(ill: Link<K>, ghost orig: seq<K>, ghost origMap: map<K, V>)
      requires Linked(next, prev, order) && TracksPrefix(container, order, orig, origMap) && Accounted()
      requires |order| >= 1 && ill == Node(order[|order| - 1])
      modifies this
      ensures Linked(next, prev, order) && TracksPrefix(container, order, orig, origMap) && Accounted()
      ensures order == old(order)[..|old(order)| - 1]
      ensures evictions == old(evictions) + 1
      ensures memUsed == Wrap(old(memUsed) - (ItemSize(ill.key, old(container)[ill.key]) + SizeAdditional))
    {
      assert ill.key in container;
      ghost var o, m := order, container;
      AccountErase(memUsed, order, container, evictions);
      var size := ItemSize(ill.key, container[ill.key]);
      memUsed := Wrap(memUsed - (size + SizeAdditional));
      Delink(ill);
      container := Erase(container, ill.key);
      evictions := evictions + 1;
      EraseLru(m, o, orig, origMap, container, order);
    }

    /** The footprint of o only looks at the entries of the keys in o. */
    lemma {:induction false} FootprintAgree(o: seq<K>, m1: map<K, V>, m2: map<K, V>)
      requires forall x :: x in o ==> EntrySize(x, m1) == EntrySize(x, m2)
      ensures Footprint(o, m1) == Footprint(o, m2)
      decreases |o|
    {
      if o != [] {
        assert o[0] in o;
        assert forall x :: x in o[1..] ==> x in o;
        FootprintAgree(o[1..], m1, m2);
      }
    }

    /** Taking position j out of the list takes its entry out of the footprint. */
    lemma {:induction false} FootprintRemoveAt(o: seq<K>, m: map<K, V>, j: nat)
      requires j < |o|
      ensures Footprint(o, m) == EntrySize(o[j], m) + Footprint(RemoveAt(o, j), m)
      decreases j
    {
      if j > 0 {
        FootprintRemoveAt(o[1..], m, j - 1);
        assert RemoveAt(o, j)[1..] == RemoveAt(o[1..], j - 1);
      }
    }

    /** insert's accounting: adding calc_item_size for a fresh key pushed in front. */
    lemma {:induction false} AccountInsert(mem: int, o: seq<K>, m: map<K, V>, e: nat, k: K, v: V)
      requires k !in o && mem == Wrap(Footprint(o, m) - SizeAdditional * e)
      ensures Wrap(mem + ItemSize(k, v)) == Wrap(Footprint([k] + o, m[k := v]) - SizeAdditional * e)
    {
      assert ([k] + o)[1..] == o;
      forall x | x in o
        ensures EntrySize(x, m[k := v]) == EntrySize(x, m)
      {
      }
      FootprintAgree(o, m[k := v], m);
      WrapAdd(Footprint(o, m) - SizeAdditional * e, ItemSize(k, v));
    }

    /** find's accounting: moving a key to the front leaves the footprint as it was. */
    lemma {:induction false} AccountMove(o: seq<K>, m: map<K, V>, k: K)
      requires k in o
      ensures Footprint([k] + RemoveAt(o, IndexOf(o, k)), m) == Footprint(o, m)
    {
      var r := RemoveAt(o, IndexOf(o, k));
      assert ([k] + r)[1..] == r;
      FootprintRemoveAt(o, m, IndexOf(o, k));
    }

    /** insert_or_update's accounting: adding the new value size and subtracting the old one. */
    lemma {:induction false} AccountUpdate(mem: int, o: seq<K>, m: map<K, V>, e: nat, k: K, v: V)
      requires NoDup(o) && k in o && k in m && mem == Wrap(Footprint(o, m) - SizeAdditional * e)
      ensures Wrap(mem + valueSize(v) - valueSize(m[k])) ==
              Wrap(Footprint([k] + RemoveAt(o, IndexOf(o, k)), m[k := v]) - SizeAdditional * e)
    {
      var j := IndexOf(o, k);
      var r := RemoveAt(o, j);
      RemoveAtElems(o, j);
      assert ([k] + r)[1..] == r;
      forall x | x in r
        ensures EntrySize(x, m[k := v]) == EntrySize(x, m)
      {
      }
      FootprintAgree(r, m[k := v], m);
      FootprintRemoveAt(o, m, j);
      WrapAdd(Footprint(o, m) - SizeAdditional * e, valueSize(v) - valueSize(m[k]));
    }

    /** evict's accounting: subtracting calc_item_size + kSizeAdditional for the last key is one more eviction's drift. */
    lemma {:induction false} AccountErase(mem: int, o: seq<K>, m: map<K, V>, e: nat)
      requires NoDup(o) && |o| >= 1 && o[|o| - 1] in m
      requires mem == Wrap(Footprint(o, m) - SizeAdditional * e)
      ensures var last := o[|o| - 1];
        Wrap(mem - (ItemSize(last, m[last]) + SizeAdditional)) ==
        Wrap(Footprint(o[..|o| - 1], Erase(m, last)) - SizeAdditional * (e + 1))
    {
      var j := |o| - 1;
      var last := o[j];
      RemoveAtElems(o, j);
      RemoveAtSlices(o, j);
      assert RemoveAt(o, j) == o[..j];
      forall x | x in o[..j]
        ensures EntrySize(x, Erase(m, last)) == EntrySize(x, m)
      {
      }
      FootprintAgree(o[..j], Erase(m, last), m);
      FootprintRemoveAt(o, m, j);
      WrapSub(Footprint(o, m) - SizeAdditional * e, ItemSize(last, m[last]) + SizeAdditional);
    }
  }

  /**
   * The accounting drift made concrete: int32 keys and values (4 bytes each,
   * so an entry costs 44), at most two entries, no memory limit. After
   * inserting three keys one entry of 44 bytes is live, but mem_used_ has
   * wrapped around to 2^64 - 20.
   */
  method WrapAround() returns (used: nat, live: int)
    ensures live == 44
    ensures used == Size64 - 20
  {
    var cache := ThreeInserts();
    used := cache.TotalMemUsed();
    DriftValue(used, cache.Footprint(cache.order, cache.container), cache.evictions);
    live := cache.ItemSize(3, 30);
  }

  /** Keys 1, 2 and 3 into a fresh cache of int32 entries with room for two: the first two are evicted. */
  method ThreeInserts() returns (cache: LruCacheMem<int, int>)
    ensures cache.Valid() && cache.evictions == 2
    ensures cache.Footprint(cache.order, cache.container) == 44 && cache.ItemSize(3, 30) == 44
  {
    var four: int -> nat := _ => 4;
    cache := new LruCacheMem<int, int>(2, 0, four, four);
    var ok := cache.Insert(1, 10);
    assert cache.order == [1] && cache.evictions == 0;
    InsertPastCapacity(cache, 2, 20);
    InsertPastCapacity(cache, 3, 30);
    assert cache.ItemSize(3, 30) == 44;
  }

  /** Two evictions with 44 live bytes leave the counter 20 below zero, modulo 2^64. */
  lemma {:induction false} DriftValue(mem: int, footprint: int, evictions: nat)
    requires evictions == 2 && mem == Wrap(footprint - SizeAdditional * evictions) && footprint == 44
    ensures mem == Size64 - 20
  {
    WrapNegative(20);
  }

  /** A new key into a cache of at most two entries that holds one: the old entry is evicted. */
  method InsertPastCapacity(cache: LruCacheMem<int, int>, key: int, value: int)
    requires cache.Valid() && cache.maxCount == 2 && cache.maxMemory == 0
    requires |cache.order| == 1 && key !in cache.order
    modifies cache
    ensures cache.Valid() && cache.order == [key] && key in cache.container && cache.container[key] == value
    ensures cache.evictions == old(cache.evictions) + 1
    ensures cache.Footprint(cache.order, cache.container) == cache.ItemSize(key, value)
  {
    var ok := cache.Insert(key, value);
  }

  /**
   * The LRU smoke test run against the memory-bounded cache with string keys
   * and values measured by SizeOf<std::string>: each entry costs
   * 2 * (32 + 4) + (32 + 6) + 32 = 142, so two entries stay well below 1000
   * and nothing is evicted.
   */
  method SmokeTest() returns (first: bool, second: bool, repeated: bool, count: nat, updated: bool,
                              hit: bool, value: string, used: nat)
    ensures first && second && !repeated
    ensures count == 2
    ensures updated && hit && value == "value3"
    ensures used == 2 * 142
  {
    var caches;
    caches, first, second := TwoEntries();
    repeated := caches.Insert("key1", "value3");
    count := caches.TotalCount();
    updated := caches.InsertOrUpdate("key1", "value3");
    SmokeSizes(caches);
    hit, value := caches.Find("key1", "");
    used := caches.TotalMemUsed();
  }

  /** The first two inserts of the smoke test: both keys are kept and mem_used_ is 284. */
  method TwoEntries() returns (caches: LruCacheMem<string, string>, first: bool, second: bool)
    ensures fresh(caches) && caches.Valid() && first && second
    ensures caches.maxCount == 10 && caches.maxMemory == 1000
    ensures caches.keySize == SizeOfString && caches.valueSize == SizeOfString
    ensures caches.order == ["key2", "key1"] && caches.container == map["key1" := "value1", "key2" := "value2"]
    ensures caches.memUsed == 284
  {
    caches := new LruCacheMem<string, string>(10, 1000, SizeOfString, SizeOfString);
    SmokeSizes(caches);
    first := caches.Insert("key1", "value1");
    second := caches.Insert("key2", "value2");
  }

  /** What the smoke test's entries cost under SizeOf<std::string>. */
  lemma {:induction false} SmokeSizes(caches: LruCacheMem<string, string>)
    requires caches.keySize == SizeOfString && caches.valueSize == SizeOfString
    ensures caches.ItemSize("key1", "value1") == 142 && caches.ItemSize("key2", "value2") == 142
    ensures caches.valueSize("value3") == caches.valueSize("value1") == 38
  {
  }
}
