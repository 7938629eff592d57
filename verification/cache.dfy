/**
 * The memo of get_cached_data: a least-recently-used map from resolved file
 * name to processed table, bounded at 64 entries. Failed loads are not
 * remembered (an exception leaves the memo as it was).
 */
module Cache {
  import opened Wrappers
  import opened Tables

  /** methodtools.lru_cache(maxsize=64) */
  const Capacity: nat := 64

  datatype Entry = Entry(key: string, value: Table)

  function Keys(es: seq<Entry>): (r: seq<string>)
    ensures |r| == |es|
    ensures forall k :: 0 <= k < |es| ==> r[k] == es[k].key
  {
    seq(|es|, k requires 0 <= k < |es| => es[k].key)
  }

  predicate DistinctKeys(es: seq<Entry>) {
    forall i, j :: 0 <= i < j < |es| ==> es[i].key != es[j].key
  }

  /** The remembered table for a key. */
  function Find(es: seq<Entry>, key: string): (r: Option<Table>)
    ensures r.Some? <==> key in Keys(es)
    ensures r.Some? ==> Entry(key, r.value) in es
  {
    if es == [] then None
    else if es[0].key == key then Some(es[0].value)
    else Find(es[1..], key)
  }

  /** The entries without the one for key. */
  function Remove(es: seq<Entry>, key: string): (r: seq<Entry>)
    ensures forall e :: e in r <==> e in es && e.key != key
    ensures DistinctKeys(es) ==> DistinctKeys(r)
    ensures key in Keys(es) && DistinctKeys(es) ==> |r| == |es| - 1
    ensures key !in Keys(es) ==> r == es
  {
    if es == [] then []
    else if es[0].key == key then Remove(es[1..], key)
    else [es[0]] + Remove(es[1..], key)
  }

  /** With distinct keys, removing a key cuts out exactly its one entry: the
      other entries keep their order. */
  lemma {:induction false} RemoveKeepsOrder(es: seq<Entry>, key: string)
    requires DistinctKeys(es) && key in Keys(es)
    ensures exists i :: 0 <= i < |es| && es[i].key == key && Remove(es, key) == es[..i] + es[i + 1..]
  {
    TailDistinct(es);
    if es[0].key == key {
      RemoveHead(es, key);
      assert es[..0] + es[1..] == es[1..];
    } else {
      KeyInTail(es, key);
      RemoveKeepsOrder(es[1..], key);
      var i :| 0 <= i < |es[1..]| && es[1..][i].key == key && Remove(es[1..], key) == es[1..][..i] + es[1..][i + 1..];
      RemoveStep(es, key, i);
      assert es[i + 1].key == key;
    }
  }

  lemma RemoveHead(es: seq<Entry>, key: string)
    requires DistinctKeys(es) && es != [] && es[0].key == key
    ensures Remove(es, key) == es[1..]
  {
    assert key !in Keys(es[1..]) by {
      forall k | 0 <= k < |es[1..]| ensures es[1..][k].key != key {
        assert es[1..][k] == es[k + 1];
      }
    }
  }

  lemma KeyInTail(es: seq<Entry>, key: string)
    requires key in Keys(es) && es[0].key != key
    ensures key in Keys(es[1..])
  {
    var k :| 0 <= k < |Keys(es)| && Keys(es)[k] == key;
    assert Keys(es[1..])[k - 1] == key;
  }

  lemma RemoveStep(es: seq<Entry>, key: string, i: nat)
    requires i + 1 < |es| && es[0].key != key
    requires Remove(es[1..], key) == es[1..][..i] + es[1..][i + 1..]
    ensures Remove(es, key) == es[..i + 1] + es[i + 2..]
  {
    var front, back := es[1..][..i], es[1..][i + 1..];
    assert Remove(es, key) == [es[0]] + (front + back);
    assert [es[0]] + (front + back) == ([es[0]] + front) + back;
    SplitAfterHead(es, i);
  }

  lemma TailDistinct(es: seq<Entry>)
    requires DistinctKeys(es) && es != []
    ensures DistinctKeys(es[1..])
  {
    forall i, j | 0 <= i < j < |es[1..]| ensures es[1..][i].key != es[1..][j].key {
      assert es[1..][i] == es[i + 1] && es[1..][j] == es[j + 1];
    }
  }

  lemma SplitAfterHead(es: seq<Entry>, i: nat)
    requires i + 1 < |es|
    ensures es[..i + 1] == [es[0]] + es[1..][..i]
    ensures es[i + 2..] == es[1..][i + 1..]
  {
    assert forall k :: 0 <= k < i + 1 ==> es[..i + 1][k] == ([es[0]] + es[1..][..i])[k];
  }

  /** A hit makes its entry the most recently used one. */
  function Touch(es: seq<Entry>, key: string): seq<Entry>
    requires key in Keys(es)
  {
    Remove(es, key) + [Entry(key, Find(es, key).value)]
  }

  /** Storing a fresh result: when the memo is full the least recently used
      entry (the first) is evicted; a key already present is left as it is. */
  function Admit(es: seq<Entry>, key: string, value: Table, capacity: nat): seq<Entry> {
    if key in Keys(es) then es
    else if |es| >= capacity && es != [] then es[1..] + [Entry(key, value)]
    else es + [Entry(key, value)]
  }

  lemma {:induction false} FindDistinct(es: seq<Entry>, e: Entry)
    requires DistinctKeys(es)
    requires e in es
    ensures Find(es, e.key) == Some(e.value)
  {
    if es[0] != e {
      assert e in es[1..];
      FindDistinct(es[1..], e);
    }
  }

  /** What a key finds is determined by the set of entries, for distinct keys. */
  lemma FindBySet(a: seq<Entry>, b: seq<Entry>, key: string)
    requires DistinctKeys(a) && DistinctKeys(b)
    requires forall e :: e in a <==> e in b
    ensures Find(a, key) == Find(b, key)
  {
    if Find(a, key).Some? {
      FindDistinct(b, Entry(key, Find(a, key).value));
    } else if Find(b, key).Some? {
      FindDistinct(a, Entry(key, Find(b, key).value));
    }
  }

  /** A hit changes no lookup, keeps the memo within its bound with distinct
      keys, and moves the key's entry last, where eviction reaches it last,
      leaving the other entries in their order. */
  lemma TouchKeepsContents(es: seq<Entry>, key: string, other: string)
    requires DistinctKeys(es) && key in Keys(es)
    ensures DistinctKeys(Touch(es, key))
    ensures |Touch(es, key)| == |es|
    ensures Touch(es, key)[|es| - 1].key == key
    ensures Find(Touch(es, key), other) == Find(es, other)
    ensures exists i :: 0 <= i < |es| && es[i].key == key && Touch(es, key) == es[..i] + es[i + 1..] + [es[i]]
  {
    var t := Touch(es, key);
    var e := Entry(key, Find(es, key).value);
    assert e in es;
    forall x | x in t ensures x in es {
      if x == e {} else { assert x in Remove(es, key); }
    }
    forall x | x in es ensures x in t {
      if x.key == key {
        FindDistinct(es, x);
      } else {
        assert x in Remove(es, key);
      }
    }
    assert DistinctKeys(t) by {
      forall i, j | 0 <= i < j < |t| ensures t[i].key != t[j].key {
        if j == |t| - 1 {
          assert t[i] in Remove(es, key);
        } else {
          assert t[i] == Remove(es, key)[i] && t[j] == Remove(es, key)[j];
        }
      }
    }
    FindBySet(t, es, other);
    RemoveKeepsOrder(es, key);
    var i :| 0 <= i < |es| && es[i].key == key && Remove(es, key) == es[..i] + es[i + 1..];
    FindDistinct(es, es[i]);
  }

  /** After a miss is stored, the key finds the stored table, which is the
      newest entry; the older entries keep their order, less the first (least
      recently used) one when the memo was full; the memo stays within
      capacity with distinct keys, and every other key finds what it found
      before unless it was the evicted entry. */
  lemma AdmitStores(es: seq<Entry>, key: string, value: Table, capacity: nat, other: string)
    requires DistinctKeys(es) && |es| <= capacity && capacity >= 1
    requires key !in Keys(es)
    ensures var r := Admit(es, key, value, capacity);
      && DistinctKeys(r)
      && |r| <= capacity
      && Find(r, key) == Some(value)
      && r[|r| - 1] == Entry(key, value)
      && r[..|r| - 1] == (if |es| < capacity then es else es[1..])
      && (other != key && (|es| < capacity || other != es[0].key) ==> Find(r, other) == Find(es, other))
  {
    AdmitNewest(es, key, value, capacity);
    AdmitDistinct(es, key, value, capacity);
    AdmitFinds(es, key, value, capacity, other);
  }

  lemma AdmitFinds(es: seq<Entry>, key: string, value: Table, capacity: nat, other: string)
    requires DistinctKeys(es) && |es| <= capacity && capacity >= 1
    requires key !in Keys(es)
    ensures var r := Admit(es, key, value, capacity);
      && Find(r, key) == Some(value)
      && (other != key && (|es| < capacity || other != es[0].key) ==> Find(r, other) == Find(es, other))
  {
    AdmitDistinct(es, key, value, capacity);
    var r := Admit(es, key, value, capacity);
    var e := Entry(key, value);
    assert e in r;
    FindDistinct(r, e);
    if other != key && (|es| < capacity || other != es[0].key) && Find(es, other).Some? {
      var x := Entry(other, Find(es, other).value);
      assert x in r by {
        if |es| >= capacity {
          var i :| 0 <= i < |es| && es[i] == x;
          assert i != 0;
          assert r[i - 1] == x;
        }
      }
      FindDistinct(r, x);
    }
  }

  lemma AdmitDistinct(es: seq<Entry>, key: string, value: Table, capacity: nat)
    requires DistinctKeys(es) && |es| <= capacity && capacity >= 1
    requires key !in Keys(es)
    ensures DistinctKeys(Admit(es, key, value, capacity))
  {
    var r := Admit(es, key, value, capacity);
    AdmitNewest(es, key, value, capacity);
    assert forall x :: x in es ==> x.key != key;
    forall i, j | 0 <= i < j < |r| ensures r[i].key != r[j].key {
      var kept := r[..|r| - 1];
      if j == |r| - 1 {
        assert r[i] == kept[i] && kept[i] in es;
      } else {
        assert r[i] == kept[i] && r[j] == kept[j];
      }
    }
  }

  lemma AdmitNewest(es: seq<Entry>, key: string, value: Table, capacity: nat)
    requires |es| <= capacity && capacity >= 1 && key !in Keys(es)
    ensures var r := Admit(es, key, value, capacity);
      r[|r| - 1] == Entry(key, value) && r[..|r| - 1] == (if |es| < capacity then es else es[1..])
  {
    var kept := if |es| < capacity then es else es[1..];
    assert Admit(es, key, value, capacity) == kept + [Entry(key, value)];
  }

  /** The memo object. */
  class LruCache {
    const capacity: nat
    /** Least recently used first. */
    var entries: seq<Entry>

    ghost predicate Valid()
      reads this
    {
      capacity >= 1 && |entries| <= capacity && DistinctKeys(entries)
    }

    constructor (capacity: nat)
      requires capacity >= 1
      ensures Valid() && this.capacity == capacity && entries == []
    {
      this.capacity := capacity;
      entries := [];
    }

    /** Looks the key up; a hit becomes the most recently used entry. */
    method Lookup(key: string) returns (r: Option<Table>)
      requires Valid()
      modifies this
      ensures Valid()
      ensures r == Find(old(entries), key)
      ensures entries == if r.Some? then Touch(old(entries), key) else old(entries)
    {
      r := Find(entries, key);
      if r.Some? {
        TouchKeepsContents(entries, key, key);
        entries := Touch(entries, key);
      }
    }

    /** Stores the result of a miss. */
    method Insert(key: string, value: Table)
      requires Valid()
      modifies this
      ensures Valid()
      ensures entries == Admit(old(entries), key, value, capacity)
    {
      if key !in Keys(entries) {
        AdmitStores(entries, key, value, capacity, key);
      }
      entries := Admit(entries, key, value, capacity);
    }
  }
}
