/** The least-recently-used cache behind the fetchers, most recently used entry first. */
module Lru {
  import opened Text

  datatype Entry<+V> = Entry(key: string, value: V)

  function Keys<V(!new)>(entries: seq<Entry<V>>): seq<string> {
    seq(|entries|, i requires 0 <= i < |entries| => entries[i].key)
  }

  predicate Distinct(keys: seq<string>) {
    forall i, j :: 0 <= i < j < |keys| ==> keys[i] != keys[j]
  }

  /** A key's value, if it is cached. */
  function Peek<V(!new)>(entries: seq<Entry<V>>, key: string): (r: Option<V>)
    ensures r.Some? <==> key in Keys(entries)
    ensures r.Some? ==> Entry(key, r.value) in entries
  {
    if entries == [] then None
    else
      assert Keys(entries) == [entries[0].key] + Keys(entries[1..]);
      if entries[0].key == key then Some(entries[0].value) else Peek(entries[1..], key)
  }

  function Without<V(!new)>(entries: seq<Entry<V>>, key: string): (r: seq<Entry<V>>)
    ensures forall e :: e in r <==> e in entries && e.key != key
    ensures |r| <= |entries|
  {
    if entries == [] then []
    else if entries[0].key == key then Without(entries[1..], key)
    else [entries[0]] + Without(entries[1..], key)
  }

  /** The entry in front, in place of any older one of the same key; the last entry
      goes when the size is exceeded. */
  function Put<V(!new)>(entries: seq<Entry<V>>, key: string, value: V, size: nat): seq<Entry<V>> {
    var all := [Entry(key, value)] + Without(entries, key);
    if |all| > size then all[..size] else all
  }

  /** The key just put holds the value just put; every other key that is still held
      holds what it held. */
  lemma PeekPut<V(!new)>(entries: seq<Entry<V>>, key: string, value: V, size: nat, other: string)
    requires size > 0
    ensures Peek(Put(entries, key, value, size), key) == Some(value)
    ensures other != key && Peek(Put(entries, key, value, size), other).Some? ==>
              Peek(Put(entries, key, value, size), other) == Peek(entries, other)
  {
    var rest := Without(entries, key);
    var all := [Entry(key, value)] + rest;
    if other != key {
      PeekWithout(entries, key, other);
      PeekBehind(Entry(key, value), rest, other);
      if |all| > size {
        PeekFront(all, size, other);
      }
    }
    hide Without;
  }

  lemma PeekBehind<V(!new)>(e: Entry<V>, rest: seq<Entry<V>>, key: string)
    requires e.key != key
    ensures Peek([e] + rest, key) == Peek(rest, key)
  {
    assert ([e] + rest)[1..] == rest;
  }

  lemma {:induction false} PeekWithout<V(!new)>(entries: seq<Entry<V>>, key: string, other: string)
    requires other != key
    ensures Peek(Without(entries, key), other) == Peek(entries, other)
  {
    if entries != [] {
      PeekWithout(entries[1..], key, other);
      if entries[0].key != key && entries[0].key != other {
        PeekBehind(entries[0], Without(entries[1..], key), other);
      }
    }
  }

  /** Cutting the tail off loses keys but changes none. */
  lemma {:induction false} PeekFront<V(!new)>(entries: seq<Entry<V>>, n: nat, key: string)
    requires n <= |entries|
    ensures Peek(entries[..n], key).Some? ==> Peek(entries[..n], key) == Peek(entries, key)
  {
    if n > 0 {
      assert entries[..n][1..] == entries[1..][..n - 1];
      PeekFront(entries[1..], n - 1, key);
    }
  }

  lemma PutMembers<V(!new)>(entries: seq<Entry<V>>, key: string, value: V, size: nat)
    ensures forall e :: e in Put(entries, key, value, size) ==> e == Entry(key, value) || e in entries
    ensures |Put(entries, key, value, size)| <= size
  {}

  // ----- what a least-recently-used cache holds

  function Remove(keys: seq<string>, key: string): seq<string> {
    if keys == [] then []
    else if keys[0] == key then Remove(keys[1..], key)
    else [keys[0]] + Remove(keys[1..], key)
  }

  /** The distinct keys of a history of uses, latest use first. */
  function Recency(uses: seq<string>): seq<string> {
    if uses == [] then []
    else
      var last := uses[|uses| - 1];
      [last] + Remove(Recency(uses[..|uses| - 1]), last)
  }

  function Take(keys: seq<string>, n: nat): seq<string> {
    if |keys| <= n then keys else keys[..n]
  }

  lemma {:induction false} RemoveMembers(keys: seq<string>, key: string)
    ensures forall k :: k in Remove(keys, key) <==> k in keys && k != key
    ensures Distinct(keys) ==> Distinct(Remove(keys, key))
    ensures |Remove(keys, key)| <= |keys|
    ensures key !in keys ==> Remove(keys, key) == keys
  {
    if keys != [] {
      var tail := keys[1..];
      RemoveMembers(tail, key);
      assert keys == [keys[0]] + tail;
      if Distinct(keys) {
        assert forall i, j :: 0 <= i < j < |tail| ==> tail[i] == keys[i + 1] && tail[j] == keys[j + 1];
        assert forall i :: 0 <= i < |tail| ==> tail[i] == keys[i + 1] && keys[0] != keys[i + 1];
        assert keys[0] !in Remove(tail, key);
      }
    }
  }

  lemma {:induction false} RemoveLength(keys: seq<string>, key: string)
    requires Distinct(keys) && key in keys
    ensures |Remove(keys, key)| == |keys| - 1
  {
    assert keys == [keys[0]] + keys[1..];
    if keys[0] == key {
      RemoveMembers(keys[1..], key);
    } else {
      RemoveLength(keys[1..], key);
    }
  }

  lemma {:induction false} RecencyDistinct(uses: seq<string>)
    ensures Distinct(Recency(uses))
  {
    if uses != [] {
      var last := uses[|uses| - 1];
      RecencyDistinct(uses[..|uses| - 1]);
      RemoveMembers(Recency(uses[..|uses| - 1]), last);
    }
  }

  /** Using a key and cutting to size may be done in either order. */
  lemma {:induction false} TakeThenRemove(keys: seq<string>, key: string, n: nat)
    requires Distinct(keys)
    ensures Take(Remove(Take(keys, n + 1), key), n) == Take(Remove(keys, key), n)
    decreases |keys|
  {
    if keys != [] && n > 0 {
      var head, tail := keys[0], keys[1..];
      var cut := Take(tail, n);
      assert forall i :: 0 <= i < |tail| ==> tail[i] == keys[i + 1];
      assert Take(keys, n + 1) == [head] + cut && ([head] + cut)[1..] == cut;
      if head == key {
        assert key !in tail && key !in cut;
        RemoveMembers(tail, key);
        RemoveMembers(cut, key);
      } else {
        TakeThenRemove(tail, key, n - 1);
        TakeCons(head, Remove(cut, key), n);
        TakeCons(head, Remove(tail, key), n);
      }
    }
  }

  lemma TakeCons(head: string, rest: seq<string>, n: nat)
    requires n > 0
    ensures Take([head] + rest, n) == [head] + Take(rest, n - 1)
  {}

  lemma KeysCons<V(!new)>(e: Entry<V>, rest: seq<Entry<V>>)
    ensures Keys([e] + rest) == [e.key] + Keys(rest)
  {}

  lemma {:induction false} KeysWithout<V(!new)>(entries: seq<Entry<V>>, key: string)
    ensures Keys(Without(entries, key)) == Remove(Keys(entries), key)
  {
    if entries != [] {
      var head, tail := entries[0], entries[1..];
      KeysWithout(tail, key);
      assert entries == [head] + tail;
      KeysCons(head, tail);
      KeysCons(head, Without(tail, key));
      hide Keys;
      assert Keys(entries)[0] == head.key && Keys(entries)[1..] == Keys(tail);
    }
  }

  lemma KeysPut<V(!new)>(entries: seq<Entry<V>>, key: string, value: V, size: nat)
    requires size > 0
    ensures Keys(Put(entries, key, value, size)) == [key] + Take(Remove(Keys(entries), key), size - 1)
  {
    KeysWithout(entries, key);
    var rest := Without(entries, key);
    var all := [Entry(key, value)] + rest;
    assert Keys(all) == [key] + Keys(rest);
    if |all| > size {
      assert Keys(all[..size]) == Keys(all)[..size];
    }
  }

  /** Putting a key keeps the cache equal to the `size` most recently used keys. */
  lemma PutKeepsRecency<V(!new)>(entries: seq<Entry<V>>, uses: seq<string>, key: string, value: V, size: nat)
    requires size > 0 && Keys(entries) == Take(Recency(uses), size)
    ensures Keys(Put(entries, key, value, size)) == Take(Recency(uses + [key]), size)
  {
    hide Put, Keys;
    KeysPut(entries, key, value, size);
    assert (uses + [key])[..|uses|] == uses;
    RecencyDistinct(uses);
    TakeThenRemove(Recency(uses), key, size - 1);
    var rest := Remove(Recency(uses), key);
    assert Recency(uses + [key]) == [key] + rest;
    hide Recency;
    assert Take([key] + rest, size) == [key] + Take(rest, size - 1);
  }

  // ----- how long a key stays

  /** The key is held, and only keys of `others` stand in front of it. */
  predicate Ahead(keys: seq<string>, key: string, others: set<string>) {
    keys != [] && (keys[0] == key || (keys[0] in others && Ahead(keys[1..], key, others)))
  }

  lemma {:induction false} AheadHeld(keys: seq<string>, key: string, others: set<string>)
    requires Ahead(keys, key, others)
    ensures key in keys
  {
    if keys[0] != key { AheadHeld(keys[1..], key, others); }
  }

  lemma {:induction false} AheadMore(keys: seq<string>, key: string, some: set<string>, more: set<string>)
    requires Ahead(keys, key, some) && some <= more
    ensures Ahead(keys, key, more)
  {
    if keys[0] != key { AheadMore(keys[1..], key, some, more); }
  }

  lemma AheadCons(first: string, keys: seq<string>, key: string, others: set<string>)
    requires Ahead(keys, key, others) && first in others
    ensures Ahead([first] + keys, key, others)
  {
    assert ([first] + keys)[1..] == keys;
  }

  lemma {:induction false} AheadRemove(keys: seq<string>, other: string, key: string, others: set<string>)
    requires Ahead(keys, key, others) && other != key
    ensures Ahead(Remove(keys, other), key, others)
  {
    if keys[0] != key {
      AheadRemove(keys[1..], other, key, others);
      if keys[0] != other { AheadCons(keys[0], Remove(keys[1..], other), key, others); }
    }
  }

  lemma {:induction false} AheadWithout(keys: seq<string>, key: string, others: set<string>, gone: string)
    requires Ahead(keys, key, others) && gone !in keys
    ensures Ahead(keys, key, others - {gone})
  {
    if keys[0] != key {
      assert keys[0] in keys && forall k :: k in keys[1..] ==> k in keys;
      AheadWithout(keys[1..], key, others, gone);
    }
  }

  /** Fewer than n keys in front keep a key within the first n. */
  lemma {:induction false} AheadTake(keys: seq<string>, key: string, others: set<string>, n: nat)
    requires Distinct(keys) && Ahead(keys, key, others) && |others| < n
    ensures Ahead(Take(keys, n), key, others)
    decreases |keys|
  {
    if keys[0] != key {
      var head, tail := keys[0], keys[1..];
      assert forall i :: 0 <= i < |tail| ==> tail[i] == keys[i + 1];
      AheadWithout(tail, key, others, head);
      AheadTake(tail, key, others - {head}, n - 1);
      AheadMore(Take(tail, n - 1), key, others - {head}, others);
      assert keys == [head] + tail;
      TakeCons(head, tail, n);
      AheadCons(head, Take(tail, n - 1), key, others);
    }
  }

  lemma PutDistinct<V(!new)>(entries: seq<Entry<V>>, key: string, value: V, size: nat)
    requires size > 0 && Distinct(Keys(entries))
    ensures Distinct(Keys(Put(entries, key, value, size)))
  {
    hide Put, Keys, Distinct;
    KeysPut(entries, key, value, size);
    DistinctCons(Keys(entries), key, size);
  }

  lemma DistinctCons(keys: seq<string>, key: string, size: nat)
    requires size > 0 && Distinct(keys)
    ensures Distinct([key] + Take(Remove(keys, key), size - 1))
  {
    RemoveMembers(keys, key);
    var rest := Remove(keys, key);
    assert forall i :: 0 <= i < |rest| ==> rest[i] in rest;
    hide Remove;
  }

  /** Using another key moves it in front; the key stays while fewer than `size` others
      have been used since. */
  lemma PutAhead<V(!new)>(entries: seq<Entry<V>>, used: string, value: V, size: nat, key: string, others: set<string>)
    requires size > 0 && Distinct(Keys(entries)) && Ahead(Keys(entries), key, others)
    requires used == key || (used in others && |others| < size)
    ensures Ahead(Keys(Put(entries, used, value, size)), key, others)
  {
    KeysPut(entries, used, value, size);
    hide Put, Keys;
    var keys := Keys(entries);
    if used != key {
      AheadRemove(keys, used, key, others);
      RemoveMembers(keys, used);
      AheadWithout(Remove(keys, used), key, others, used);
      AheadTake(Remove(keys, used), key, others - {used}, size - 1);
      AheadMore(Take(Remove(keys, used), size - 1), key, others - {used}, others);
      AheadCons(used, Take(Remove(keys, used), size - 1), key, others);
    }
  }
}
