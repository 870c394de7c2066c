/**
 * PairVec: a vector of key/value pairs guarded by a mutex, looked up by
 * linear search (the first entry with the key wins; duplicates are kept)
 * and serialised as a flat JSON-like object.
 *
 * The mutex is left out; what is kept is whether the object owns one,
 * since the constructor from a container leaves lock_ null and every
 * locking operation would dereference it.
 */
module PairVecModel {
  import opened Wrappers

  /** The index of the first entry whose key is k, if any. */
  function FirstMatch<K(==), V>(items: seq<(K, V)>, k: K): (r: Option<nat>)
    ensures r.Some? ==> r.value < |items| && items[r.value].0 == k
    ensures r.Some? ==> forall j :: 0 <= j < r.value ==> items[j].0 != k
    ensures r.None? ==> forall j :: 0 <= j < |items| ==> items[j].0 != k
  {
    if items == [] then None
    else if items[0].0 == k then Some(0)
    else match FirstMatch(items[1..], k)
      case None => None
      case Some(i) => Some(i + 1)
  }

  /** Appending never changes which entry a lookup finds for a key already present. */
  lemma {:induction false} FirstMatchAppend<K, V>(items: seq<(K, V)>, e: (K, V), k: K)
    ensures FirstMatch(items + [e], k) ==
      if FirstMatch(items, k).Some? then FirstMatch(items, k)
      else if e.0 == k then Some(|items|) else None
  {
    var all := items + [e];
    match FirstMatch(items, k)
    case Some(i) =>
      FirstMatchAt(all, k, i);
    case None =>
      if e.0 == k {
        FirstMatchAt(all, k, |items|);
      }
  }

  /** One serialised entry: "k":"v", with no escaping. */
  function EntryText<K, V>(e: (K, V), keyText: K -> string, valueText: V -> string): string
  {
    "\"" + keyText(e.0) + "\":\"" + valueText(e.1) + "\""
  }

  /** The serialised entries, separated by commas. */
  function EntriesText<K, V>(items: seq<(K, V)>, keyText: K -> string, valueText: V -> string): string
  {
    if items == [] then []
    else
      var init := items[..|items| - 1];
      EntriesText(init, keyText, valueText) + (if init == [] then "" else ",")
        + EntryText(items[|items| - 1], keyText, valueText)
  }

  /** What SERIALIZE produces. */
  function Serialized<K, V>(items: seq<(K, V)>, keyText: K -> string, valueText: V -> string): string
  {
    "{" + EntriesText(items, keyText, valueText) + "}"
  }

  /** An empty vector serialises as {}; pushing one entry adds it after a comma, in insertion order. */
  lemma {:induction false} SerializedPush<K, V>(items: seq<(K, V)>, e: (K, V), keyText: K -> string, valueText: V -> string)
    ensures Serialized([], keyText, valueText) == "{}"
    ensures Serialized(items + [e], keyText, valueText) ==
      "{" + EntriesText(items, keyText, valueText) + (if items == [] then "" else ",") + EntryText(e, keyText, valueText) + "}"
  {
    assert (items + [e])[..|items|] == items;
  }

  /** A one-entry vector serialises as {"k":"v"}. */
  lemma {:induction false} SerializedSingle<K, V>(e: (K, V), keyText: K -> string, valueText: V -> string)
    ensures Serialized([e], keyText, valueText) == "{\"" + keyText(e.0) + "\":\"" + valueText(e.1) + "\"}"
  {
    SerializedPush([], e, keyText, valueText);
    assert [] + [e] == [e];
  }

  class PairVec<K(==), V> {
    const hasLock: bool      // lock_ is not null
    var items: seq<(K, V)>   // items_

    /** PairVec(): owns a mutex, holds nothing. */
    constructor ()
      ensures hasLock && items == []
    {
      hasLock := true;
      items := [];
    }

    /** PairVec(Container& init): copies init in order, but leaves lock_ null. */
    constructor FromContainer(init: seq<(K, V)>)
      ensures !hasLock && items == init
    {
      hasLock := false;
      items := [];
      new;
      for i := 0 to |init|
        invariant items == init[..i]
      {
        items := items + [init[i]];
      }
    }

    /** PUSH_BACK(k, v) */
    method PushBack(k: K, v: V)
      requires hasLock
      modifies this
      ensures items == old(items) + [(k, v)]
    {
      items := items + [(k, v)];
    }

    /** PUSH_BACK(entry) */
    method PushBackEntry(entry: (K, V))
      requires hasLock
      modifies this
      ensures items == old(items) + [entry]
    {
      items := items + [entry];
    }

    /** EXIST: whether some entry has key k. */
    method Exist(k: K) returns (b: bool)
      requires hasLock
      ensures b <==> exists j :: 0 <= j < |items| && items[j].0 == k
      ensures b <==> FirstMatch(items, k).Some?
    {
      var idx := 0;
      while idx < |items|
        invariant 0 <= idx <= |items|
        invariant forall j :: 0 <= j < idx ==> items[j].0 != k
      {
        if items[idx].0 == k {
          return true;
        }
        idx := idx + 1;
      }
      return false;
    }

    /** FIND(k, v): the value of the first entry with key k; v is left as it was when there is none. */
    method Find(k: K, v: V) returns (found: bool, out: V)
      requires hasLock
      ensures found <==> FirstMatch(items, k).Some?
      ensures found ==> out == items[FirstMatch(items, k).value].1
      ensures !found ==> out == v
    {
      var idx := 0;
      while idx < |items|
        invariant 0 <= idx <= |items|
        invariant forall j :: 0 <= j < idx ==> items[j].0 != k
      {
        if items[idx].0 == k {
          FirstMatchAt(items, k, idx);
          return true, items[idx].1;
        }
        idx := idx + 1;
      }
      return false, v;
    }

    /** FIND(k, entry): the first entry with key k; entry is left as it was when there is none. */
    method FindEntry(k: K, entry: (K, V)) returns (found: bool, out: (K, V))
      requires hasLock
      ensures found <==> FirstMatch(items, k).Some?
      ensures found ==> out == items[FirstMatch(items, k).value] && out.0 == k
      ensures !found ==> out == entry
    {
      var idx := 0;
      while idx < |items|
        invariant 0 <= idx <= |items|
        invariant forall j :: 0 <= j < idx ==> items[j].0 != k
      {
        if items[idx].0 == k {
          FirstMatchAt(items, k, idx);
          return true, items[idx];
        }
        idx := idx + 1;
      }
      return false, entry;
    }

    /** VALUE(k): the value of the first entry with key k, or the default value V{} given as `empty`. */
    method Value(k: K, empty: V) returns (v: V)
      requires hasLock
      ensures FirstMatch(items, k).Some? ==> v == items[FirstMatch(items, k).value].1
      ensures FirstMatch(items, k).None? ==> v == empty
    {
      v := empty;
      for idx := 0 to |items|
        invariant forall j :: 0 <= j < idx ==> items[j].0 != k
      {
        if items[idx].0 == k {
          FirstMatchAt(items, k, idx);
          return items[idx].1;
        }
      }
    }

    /** SIZE */
    function Size(): (n: nat)
      reads this
      requires hasLock
      ensures n == |items|
    {
      |items|
    }

    /** EMPTY */
    function Empty(): (b: bool)
      reads this
      requires hasLock
      ensures b <==> Size() == 0
    {
      items == []
    }

    /** CLEAR */
    method Clear()
      requires hasLock
      modifies this
      ensures items == [] && Empty() && Size() == 0
    {
      items := [];
    }

    /** SERIALIZE: {"k1":"v1","k2":"v2",...} in insertion order, written with operator<< as keyText and valueText. */
    method Serialize(keyText: K -> string, valueText: V -> string) returns (s: string)
      requires hasLock
      ensures s == Serialized(items, keyText, valueText)
      ensures s[0] == '{' && s[|s| - 1] == '}'
    {
      s := "{";
      for idx := 0 to |items|
        invariant s == "{" + EntriesText(items[..idx], keyText, valueText)
      {
        assert items[..idx + 1][..idx] == items[..idx];
        if idx != 0 {
          s := s + ",";
        }
        s := s + EntryText(items[idx], keyText, valueText);
      }
      assert items[..|items|] == items;
      s := s + "}";
    }
  }

  /** A key at index i, absent before it, is the first match. */
  lemma {:induction false} FirstMatchAt<K, V>(items: seq<(K, V)>, k: K, i: nat)
    requires i < |items| && items[i].0 == k
    requires forall j :: 0 <= j < i ==> items[j].0 != k
    ensures FirstMatch(items, k) == Some(i)
  {
    if i > 0 {
      FirstMatchAt(items[1..], k, i - 1);
    }
  }
}
