/**
 * The intrusive recency list shared by LruCache and LruCacheMem.
 *
 * Both caches keep a doubly-linked list of ListNode objects between two
 * sentinel nodes head_ and tail_, most recently used first. Here a node is
 * named by the key it carries (a key has exactly one node), and the prev_ /
 * next_ pointers are two maps from Link to Link. The ghost sequence `order`
 * lists the keys from head_ to tail_; `Linked` ties the maps to it.
 */
module LruList {

  /** A list position: one of the two sentinels, or the node of a key. */
  datatype Link<K> = Head | Tail | Node(key: K)

  /** The link at position i of `order`, where -1 is head_ and |order| is tail_. */
  function At<K>(order: seq<K>, i: int): (l: Link<K>)
    requires -1 <= i <= |order|
    ensures l.Head? <==> i == -1
    ensures l.Tail? <==> i == |order|
    ensures l.Node? ==> l.key == order[i]
  {
    if i == -1 then Head else if i == |order| then Tail else Node(order[i])
  }

  /** No element occurs twice, stated one element at a time. */
  ghost predicate NoDup<K>(s: seq<K>) {
    |s| == 0 || (s[0] !in s[1..] && NoDup(s[1..]))
  }

  /** No element occurs twice, stated for every pair of positions. */
  ghost predicate Distinct<K>(s: seq<K>) {
    forall i, j :: 0 <= i < j < |s| ==> s[i] != s[j]
  }

  lemma {:induction false} NoDupDistinct<K>(s: seq<K>)
    ensures NoDup(s) <==> Distinct(s)
  {
    if |s| > 0 {
      var t := s[1..];
      NoDupDistinct(t);
      if NoDup(s) {
        forall i, j | 0 <= i < j < |s|
          ensures s[i] != s[j]
        {
          assert s[j] == t[j - 1];
          if i > 0 {
            assert s[i] == t[i - 1];
          }
        }
      }
      if Distinct(s) {
        forall k | 0 <= k < |t|
          ensures t[k] != s[0]
        {
          assert t[k] == s[k + 1];
        }
        assert Distinct(t) by {
          forall i, j | 0 <= i < j < |t|
            ensures t[i] != t[j]
          {
            assert t[i] == s[i + 1] && t[j] == s[j + 1];
          }
        }
      }
    }
  }

  /** `next` and `prev` describe exactly the list head_, order..., tail_. */
  ghost predicate Linked<K>(next: map<Link<K>, Link<K>>, prev: map<Link<K>, Link<K>>, order: seq<K>) {
    && NoDup(order)
    && Head in next && Tail in prev
    && (forall i {:trigger next[At(order, i)]} {:trigger At(order, i) in next} ::
          -1 <= i < |order| ==> At(order, i) in next && next[At(order, i)] == At(order, i + 1))
    && (forall i {:trigger prev[At(order, i)]} {:trigger At(order, i) in prev} ::
          0 <= i <= |order| ==> At(order, i) in prev && prev[At(order, i)] == At(order, i - 1))
  }

  /** Pointing head_ at tail_ and back describes the empty list, whatever else the maps hold. */
  lemma {:induction false} ResetLinked<K>(next: map<Link<K>, Link<K>>, prev: map<Link<K>, Link<K>>)
    ensures Linked(next[Head := Tail], prev[Tail := Head], [])
  {
    var empty: seq<K> := [];
    assert At(empty, -1) == Head && At(empty, 0) == Tail;
  }

  /** `order` without the element at position j. */
  function RemoveAt<K>(order: seq<K>, j: nat): (r: seq<K>)
    requires j < |order|
    ensures |r| == |order| - 1
  {
    if j == 0 then order[1..] else [order[0]] + RemoveAt(order[1..], j - 1)
  }

  /** RemoveAt is the slice before j followed by the slice after it. */
  lemma {:induction false} RemoveAtSlices<K>(order: seq<K>, j: nat)
    requires j < |order|
    ensures RemoveAt(order, j) == order[..j] + order[j + 1..]
  {
    if j > 0 {
      var t := order[1..];
      RemoveAtSlices(t, j - 1);
      assert order[..j] == [order[0]] + t[..j - 1];
      assert order[j + 1..] == t[j..];
    }
  }

  /** RemoveAt keeps the elements before j and shifts the ones after it down by one. */
  lemma {:induction false} RemoveAtIndex<K>(order: seq<K>, j: nat)
    requires j < |order|
    ensures forall i :: 0 <= i < j ==> RemoveAt(order, j)[i] == order[i]
    ensures forall i :: j <= i < |order| - 1 ==> RemoveAt(order, j)[i] == order[i + 1]
  {
    RemoveAtSlices(order, j);
  }

  /** The position of x in a list without duplicates. */
  function IndexOf<K(==)>(order: seq<K>, x: K): (j: nat)
    requires x in order
    ensures j < |order| && order[j] == x
  {
    if order[0] == x then 0 else 1 + IndexOf(order[1..], x)
  }

  /** In a list without duplicates, the element at position i is found at i. */
  lemma {:induction false} IndexOfAt<K>(s: seq<K>, i: nat)
    requires NoDup(s) && i < |s|
    ensures IndexOf(s, s[i]) == i
  {
    NoDupDistinct(s);
    var j := IndexOf(s, s[i]);
    assert s[j] == s[i];
  }

  lemma {:induction false} RemoveAtElems<K>(order: seq<K>, j: nat)
    requires NoDup(order) && j < |order|
    ensures NoDup(RemoveAt(order, j))
    ensures forall x :: x in RemoveAt(order, j) <==> x in order && x != order[j]
  {
    var r := RemoveAt(order, j);
    RemoveAtIndex(order, j);
    NoDupDistinct(order);
    NoDupDistinct(r);
    forall a, b | 0 <= a < b < |r|
      ensures r[a] != r[b]
    {
      var a' := if a < j then a else a + 1;
      var b' := if b < j then b else b + 1;
      assert r[a] == order[a'] && r[b] == order[b'];
    }
    forall x | x in order && x != order[j] ensures x in r {
      var i :| 0 <= i < |order| && order[i] == x;
      if i < j { assert r[i] == x; } else { assert r[i - 1] == x; }
    }
  }

  /** Two different positions of a list without duplicates hold different elements. */
  lemma {:induction false} NoDupNeq<K>(s: seq<K>, a: int, b: int)
    requires NoDup(s) && 0 <= a < |s| && 0 <= b < |s| && a != b
    ensures s[a] != s[b]
  {
    NoDupDistinct(s);
    if a > b {
      assert s[b] != s[a];
    }
  }

  /** Unlinking the node at position j (delink) leaves the list without order[j]. */
  lemma {:induction false} DelinkKeepsLinked<K>(next: map<Link<K>, Link<K>>, prev: map<Link<K>, Link<K>>, order: seq<K>, j: nat)
    requires Linked(next, prev, order) && j < |order|
    ensures Linked(next[At(order, j - 1) := At(order, j + 1)] - {Node(order[j])},
                   prev[At(order, j + 1) := At(order, j - 1)] - {Node(order[j])},
                   RemoveAt(order, j))
  {
    var r := RemoveAt(order, j);
    var next' := next[At(order, j - 1) := At(order, j + 1)] - {Node(order[j])};
    var prev' := prev[At(order, j + 1) := At(order, j - 1)] - {Node(order[j])};
    RemoveAtElems(order, j);
    RemoveAtIndex(order, j);
    forall i | -1 <= i < |r|
      ensures At(r, i) in next' && next'[At(r, i)] == At(r, i + 1)
    {
      if i < j - 1 {
        assert At(r, i) == At(order, i) && At(r, i + 1) == At(order, i + 1);
        if i >= 0 {
          NoDupNeq(order, i, j - 1);
          NoDupNeq(order, i, j);
        }
      } else if i == j - 1 {
        assert At(r, i) == At(order, j - 1) && At(r, i + 1) == At(order, j + 1);
        if j >= 1 {
          NoDupNeq(order, j - 1, j);
        }
      } else {
        assert At(r, i) == At(order, i + 1) && At(r, i + 1) == At(order, i + 2);
        if j >= 1 {
          NoDupNeq(order, i + 1, j - 1);
        }
        NoDupNeq(order, i + 1, j);
      }
    }
    forall i | 0 <= i <= |r|
      ensures At(r, i) in prev' && prev'[At(r, i)] == At(r, i - 1)
    {
      if i < j {
        assert At(r, i) == At(order, i) && At(r, i - 1) == At(order, i - 1);
        if j + 1 < |order| {
          NoDupNeq(order, i, j + 1);
        }
        NoDupNeq(order, i, j);
      } else if i == j {
        assert At(r, i) == At(order, j + 1) && At(r, i - 1) == At(order, j - 1);
        if j + 1 < |order| {
          NoDupNeq(order, j + 1, j);
        }
      } else {
        assert At(r, i) == At(order, i + 1) && At(r, i - 1) == At(order, i);
        if i + 1 < |order| {
          NoDupNeq(order, i + 1, j + 1);
          NoDupNeq(order, i + 1, j);
        }
      }
    }
  }

  /** Linking a fresh key in front of the first node (link_push_front). */
  lemma {:induction false} PushFrontKeepsLinked<K>(next: map<Link<K>, Link<K>>, prev: map<Link<K>, Link<K>>, order: seq<K>, k: K)
    requires Linked(next, prev, order) && k !in order
    ensures Linked(next[Node(k) := next[Head]][Head := Node(k)],
                   prev[Node(k) := Head][next[Head] := Node(k)],
                   [k] + order)
  {
    var r := [k] + order;
    var oldHead := next[At(order, -1)];
    var next' := next[Node(k) := oldHead][Head := Node(k)];
    var prev' := prev[Node(k) := Head][oldHead := Node(k)];
    assert oldHead == At(order, 0);
    assert r[1..] == order;
    NoDupDistinct(order);
    forall i | -1 <= i < |r|
      ensures At(r, i) in next' && next'[At(r, i)] == At(r, i + 1)
    {
      if i >= 1 {
        assert At(r, i) == At(order, i - 1) && At(r, i + 1) == At(order, i);
      }
    }
    forall i | 0 <= i <= |r|
      ensures At(r, i) in prev' && prev'[At(r, i)] == At(r, i - 1)
    {
      if i >= 2 {
        assert At(r, i) == At(order, i - 1) && At(r, i - 1) == At(order, i - 2);
        assert At(r, i) != oldHead;
      } else if i == 1 {
        assert At(r, i) == oldHead;
      }
    }
  }

  /** The node in front of tail_ holds the least recently used key. */
  lemma {:induction false} LastBeforeTail<K>(next: map<Link<K>, Link<K>>, prev: map<Link<K>, Link<K>>, order: seq<K>)
    requires Linked(next, prev, order)
    ensures Tail in prev
    ensures |order| == 0 ==> prev[Tail] == Head
    ensures |order| > 0 ==> prev[Tail] == Node(order[|order| - 1])
  {
    assert At(order, |order|) == Tail;
    assert prev[At(order, |order|)] == At(order, |order| - 1);
  }

  /** The node that a key names sits at that key's position. */
  lemma {:induction false} NodeAt<K>(next: map<Link<K>, Link<K>>, prev: map<Link<K>, Link<K>>, order: seq<K>, k: K)
    requires Linked(next, prev, order) && k in order
    ensures var j := IndexOf(order, k);
      && At(order, j) == Node(k)
      && Node(k) in prev && prev[Node(k)] == At(order, j - 1)
      && Node(k) in next && next[Node(k)] == At(order, j + 1)
  {
    var j := IndexOf(order, k);
    assert At(order, j) == Node(k);
  }

  /** The set of elements of a list without duplicates has as many members as the list. */
  lemma {:induction false} ElemsCount<K>(s: seq<K>)
    requires NoDup(s)
    ensures |set x | x in s| == |s|
  {
    if s != [] {
      var t := s[1..];
      ElemsCount(t);
      assert (set x | x in s) == (set x | x in t) + {s[0]};
    }
  }

  /** A map whose keys are exactly the elements of a list without duplicates has the list's size. */
  lemma {:induction false} KeysCount<K, V>(m: map<K, V>, order: seq<K>)
    requires NoDup(order)
    requires forall k :: k in m <==> k in order
    ensures |m| == |order|
  {
    assert m.Keys == set x | x in order;
    ElemsCount(order);
  }

  /** The map without key x (unordered_map::erase). */
  function Erase<K(==,!new), V>(m: map<K, V>, x: K): (r: map<K, V>)
    ensures forall k :: k in r <==> k in m && k != x
    ensures forall k :: k in r ==> r[k] == m[k]
  {
    map k | k in m && k != x :: m[k]
  }

  /** A map whose keys are the elements of `order`, restricted to a prefix of `orig`. */
  ghost predicate TracksPrefix<K(!new), V>(m: map<K, V>, order: seq<K>, orig: seq<K>, origMap: map<K, V>) {
    && NoDup(order)
    && (forall k :: k in m <==> k in order)
    && order <= orig
    && (forall k :: k in m ==> k in origMap && m[k] == origMap[k])
  }

  /**
   * One eviction step: unlinking the least recently used key from the list
   * and erasing it from the map keeps the map tracking a shorter prefix.
   */
  lemma {:induction false} EraseLru<K(!new), V>(m: map<K, V>, order: seq<K>, orig: seq<K>, origMap: map<K, V>,
                             m': map<K, V>, order': seq<K>)
    requires TracksPrefix(m, order, orig, origMap) && |order| > 0
    requires order' == RemoveAt(order, IndexOf(order, order[|order| - 1]))
    requires m' == Erase(m, order[|order| - 1])
    ensures order' == order[..|order| - 1]
    ensures TracksPrefix(m', order', orig, origMap)
  {
    var last := |order| - 1;
    var r := order[..last];
    IndexOfAt(order, last);
    RemoveAtElems(order, last);
    RemoveAtSlices(order, last);
    assert order' == r;
    assert forall k :: k in m' <==> k in r;
  }

  /** A non-empty prefix of s starts with s's first element. */
  lemma {:induction false} PrefixHead<K>(s: seq<K>, p: seq<K>)
    requires 1 <= |p| && p <= s
    ensures p[0] == s[0]
  {
  }

  /** From position i on, `next` leads from each node of `order` to the one after it. */
  ghost predicate ChainFrom<K>(next: map<Link<K>, Link<K>>, order: seq<K>, i: int) {
    && 0 <= i <= |order|
    && forall j {:trigger At(order, j)} :: i <= j < |order| ==> At(order, j) in next && next[At(order, j)] == At(order, j + 1)
  }

  /** Deleting the node at position i leaves the chain from i + 1 intact. */
  lemma {:induction false} ChainStep<K>(next: map<Link<K>, Link<K>>, order: seq<K>, i: int)
    requires NoDup(order) && ChainFrom(next, order, i) && i < |order|
    ensures ChainFrom(next - {At(order, i)}, order, i + 1)
  {
    forall j | i + 1 <= j < |order|
      ensures At(order, j) != At(order, i)
    {
      NoDupNeq(order, i, j);
    }
  }

  /**
   * clear's loop: walks from head_ to tail_ deleting every node; what comes
   * back are the maps without those nodes.
   */
  method DeleteNodes<K(==)>(next: map<Link<K>, Link<K>>, prev: map<Link<K>, Link<K>>, ghost order: seq<K>)
    returns (next': map<Link<K>, Link<K>>, prev': map<Link<K>, Link<K>>)
    requires Linked(next, prev, order)
    ensures forall k :: k in order ==> Node(k) !in next' && Node(k) !in prev'
    ensures forall l :: l in next' <==> l in next && !(l.Node? && l.key in order)
    ensures forall l :: l in prev' <==> l in prev && !(l.Node? && l.key in order)
    ensures forall l :: l in next' ==> next'[l] == next[l]
    ensures forall l :: l in prev' ==> prev'[l] == prev[l]
  {
    assert next[At(order, -1)] == At(order, 0);
    assert ChainFrom(next, order, 0);
    next', prev' := next, prev;
    var node := next'[Head];
    ghost var i := 0;
    while node != Tail
      invariant ChainFrom(next', order, i) && node == At(order, i)
      invariant forall j :: 0 <= j < i ==> Node(order[j]) !in next' && Node(order[j]) !in prev'
      invariant next' == next - NodesOf(order[..i]) && prev' == prev - NodesOf(order[..i])
      decreases |order| - i
    {
      ChainStep(next', order, i);
      var nxt := next'[node];
      next' := next' - {node};
      prev' := prev' - {node};
      node := nxt;
      NodesOfStep(order, i);
      i := i + 1;
    }
    assert order[..i] == order;
  }

  /** The node links of the keys in ks. */
  ghost function NodesOf<K>(ks: seq<K>): set<Link<K>>
  {
    set k | k in ks :: Node(k)
  }

  lemma NodesOfStep<K>(ks: seq<K>, i: nat)
    requires i < |ks|
    ensures NodesOf(ks[..i + 1]) == NodesOf(ks[..i]) + {Node(ks[i])}
  {
    assert ks[..i + 1] == ks[..i] + [ks[i]];
  }
}
