/** A bucket of the embedded key-value store (store/bolt.go): entries in ascending byte order of their keys.
    Each method is one transaction. */
module Bolt {
  import opened BigEndian
  import opened Wrappers

  datatype Entry<V> = Entry(key: Bytes, value: V)

  ghost predicate Ascending<V>(es: seq<Entry<V>>) {
    forall i, j | 0 <= i < j < |es| :: Less(es[i].key, es[j].key)
  }

  lemma {:induction false} LessTransitive(a: Bytes, b: Bytes, c: Bytes)
    requires Less(a, b) && Less(b, c)
    ensures Less(a, c)
  {
    if |a| > 0 && a[0] == b[0] == c[0] {
      LessTransitive(a[1..], b[1..], c[1..]);
    }
  }

  lemma {:induction false} LessTotal(a: Bytes, b: Bytes)
    ensures Less(a, b) || a == b || Less(b, a)
    ensures !(Less(a, b) && Less(b, a))
    ensures !Less(a, a)
  {
    if |a| > 0 && |b| > 0 {
      LessTotal(a[1..], b[1..]);
      assert a == [a[0]] + a[1..] && b == [b[0]] + b[1..];
    }
    if |a| > 0 {
      LessTotal(a[1..], a[1..]);
    }
  }

  // Where a cursor seeking `key` stops: the first entry whose key is not below it.
  function Seek<V>(es: seq<Entry<V>>, key: Bytes): (i: nat)
    ensures i <= |es|
    ensures forall j | 0 <= j < i :: Less(es[j].key, key)
    ensures i < |es| ==> !Less(es[i].key, key)
  {
    if |es| == 0 || !Less(es[0].key, key) then 0 else 1 + Seek(es[1..], key)
  }

  predicate Has<V>(es: seq<Entry<V>>, key: Bytes) {
    var i := Seek(es, key); i < |es| && es[i].key == key
  }

  // The entries below and above a key.
  function Low<V>(es: seq<Entry<V>>, key: Bytes): seq<Entry<V>> { es[..Seek(es, key)] }

  function High<V>(es: seq<Entry<V>>, key: Bytes): seq<Entry<V>> {
    es[Seek(es, key) + if Has(es, key) then 1 else 0..]
  }

  // The entries after `key` is bound to `value`, or unbound.
  function Insert<V>(es: seq<Entry<V>>, key: Bytes, value: V): seq<Entry<V>> {
    Low(es, key) + [Entry(key, value)] + High(es, key)
  }

  function Remove<V>(es: seq<Entry<V>>, key: Bytes): seq<Entry<V>> {
    Low(es, key) + High(es, key)
  }

  lemma SeekSeparates<V>(es: seq<Entry<V>>, key: Bytes)
    requires Ascending(es)
    ensures forall e | e in Low(es, key) :: Less(e.key, key)
    ensures forall e | e in High(es, key) :: Less(key, e.key)
    ensures forall e | e in es && e.key != key :: e in Low(es, key) || e in High(es, key)
  {
    var i := Seek(es, key);
    var k := i + if Has(es, key) then 1 else 0;
    forall j | k <= j < |es| ensures Less(key, es[j].key) {
      LessTotal(es[i].key, key);
      if i < j && es[i].key != key { LessTransitive(key, es[i].key, es[j].key); }
    }
    forall e | e in es && e.key != key ensures e in Low(es, key) || e in High(es, key) {
      var j :| 0 <= j < |es| && es[j] == e;
      assert if j < i then Low(es, key)[j] == e else High(es, key)[j - k] == e;
    }
  }

  lemma Splice<V>(low: seq<Entry<V>>, high: seq<Entry<V>>)
    requires Ascending(low) && Ascending(high)
    requires forall x, y | x in low && y in high :: Less(x.key, y.key)
    ensures Ascending(low + high)
  {
    var both := low + high;
    forall i, j | 0 <= i < j < |both| ensures Less(both[i].key, both[j].key) {
      if i < |low| <= j { assert both[i] in low && both[j] in high; }
    }
  }

  /** A put keeps the keys in order, binds the key, and leaves every other binding as it was. */
  lemma InsertBinds<V>(es: seq<Entry<V>>, key: Bytes, value: V)
    requires Ascending(es)
    ensures Ascending(Insert(es, key, value))
    ensures forall e :: e in Insert(es, key, value) <==> e == Entry(key, value) || (e in es && e.key != key)
  {
    SeekSeparates(es, key);
    LessTotal(key, key);
    var low, high := Low(es, key), High(es, key);
    Splice(low, [Entry(key, value)]);
    forall x, y | x in low && y in high ensures Less(x.key, y.key) { LessTransitive(x.key, key, y.key); }
    Splice(low + [Entry(key, value)], high);
  }

  /** A delete unbinds the key and leaves every other binding as it was. */
  lemma RemoveUnbinds<V>(es: seq<Entry<V>>, key: Bytes)
    requires Ascending(es)
    ensures Ascending(Remove(es, key))
    ensures forall e :: e in Remove(es, key) <==> e in es && e.key != key
  {
    SeekSeparates(es, key);
    LessTotal(key, key);
    var low, high := Low(es, key), High(es, key);
    forall x, y | x in low && y in high ensures Less(x.key, y.key) { LessTransitive(x.key, key, y.key); }
    Splice(low, high);
  }

  class Bucket<V> {
    var entries: seq<Entry<V>>

    ghost predicate Valid() reads this { Ascending(entries) }

    constructor ()
      ensures Valid() && entries == []
    {
      entries := [];
    }

    method Seeked(key: Bytes) returns (i: nat)
      ensures i == Seek(entries, key)
    {
      i := 0;
      while i < |entries| && Less(entries[i].key, key)
        invariant i <= |entries|
        invariant Seek(entries, key) == i + Seek(entries[i..], key)
      {
        i := i + 1;
      }
    }

    // put: the store refuses an empty key.
    method Put(key: Bytes, value: V) returns (ok: bool)
      requires Valid()
      modifies this
      ensures Valid()
      ensures ok == (key != [])
      ensures entries == if ok then Insert(old(entries), key, value) else old(entries)
    {
      InsertBinds(entries, key, value);
      ok := key != [];
      if ok {
        var i := Seeked(key);
        var rest := if i < |entries| && entries[i].key == key then i + 1 else i;
        entries := entries[..i] + [Entry(key, value)] + entries[rest..];
      }
    }

    // delete and batchDelete: deleting an absent key is not an error.
    method Delete(key: Bytes)
      requires Valid()
      modifies this
      ensures Valid()
      ensures entries == Remove(old(entries), key)
    {
      RemoveUnbinds(entries, key);
      var i := Seeked(key);
      if i < |entries| && entries[i].key == key {
        entries := entries[..i] + entries[i + 1..];
      } else {
        assert entries == Low(entries, key) + High(entries, key);
      }
    }

    method GetAndDelete(key: Bytes) returns (r: Option<V>)
      requires Valid()
      modifies this
      ensures Valid()
      ensures r.Some? <==> exists e :: e in old(entries) && e.key == key
      ensures r.Some? ==> Entry(key, r.value) in old(entries)
      ensures entries == Remove(old(entries), key)
    {
      SeekSeparates(entries, key);
      LessTotal(key, key);
      var i := Seeked(key);
      r := None;
      if i < |entries| && entries[i].key == key {
        r := Some(entries[i].value);
        assert entries[i] in entries;
      }
      Delete(key);
    }

    method LastKeyValue() returns (r: Option<Entry<V>>)
      requires Valid()
      ensures r.None? <==> entries == []
      ensures r.Some? ==> r.value == entries[|entries| - 1]
      ensures r.Some? ==> forall e | e in entries :: e == r.value || Less(e.key, r.value.key)
    {
      r := if |entries| == 0 then None else Some(entries[|entries| - 1]);
    }

    // retrieveNKeyValuesFromFirst: one cursor walk from the first key.
    method FirstN(n: nat) returns (walked: seq<Entry<V>>)
      ensures walked == entries[..if n < |entries| then n else |entries|]
    {
      walked := [];
      var count := 0;
      while count != n && count < |entries|
        invariant count <= n && count <= |entries|
        invariant walked == entries[..count]
      {
        walked := walked + [entries[count]];
        count := count + 1;
      }
    }

    // retrieveAndDeleteNKeysFromFirst: an error, and no change, when nothing was taken.
    method TakeFirstN(n: nat) returns (r: Option<seq<Entry<V>>>)
      requires Valid()
      modifies this
      ensures Valid()
      ensures var k := if n < |old(entries)| then n else |old(entries)|;
              entries == old(entries[k..]) && r == if k == 0 then None else Some(old(entries[..k]))
    {
      var taken: seq<Entry<V>> := [];
      while |entries| > 0 && |taken| != n
        invariant |taken| <= n && |taken| <= |old(entries)|
        invariant taken == old(entries)[..|taken|] && entries == old(entries)[|taken|..]
        decreases |entries|
      {
        taken := taken + [entries[0]];
        entries := entries[1..];
      }
      r := if |taken| == 0 then None else Some(taken);
    }
  }
}
