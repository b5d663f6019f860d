/**
 * A category bucket: the array $result[$title][] that the converters fill.
 * A PHP array is an ordered map, so a bucket is the order in which title keys
 * were first used together with the records stored under each key.
 */
module Buckets {
  import opened Cells

  datatype Bucket = Bucket(order: seq<Key>, groups: map<Key, seq<Record>>)

  /** $result = [] */
  const Empty: Bucket := Bucket([], map[])

  /** Every key is listed once, and exactly the listed keys hold records. */
  predicate Valid(b: Bucket) {
    && (forall i, j :: 0 <= i < j < |b.order| ==> b.order[i] != b.order[j])
    && (forall k :: k in b.groups ==> k in b.order)
    && (forall i :: 0 <= i < |b.order| ==> b.order[i] in b.groups)
  }

  /** $result[$key], or no records when the key was never used. */
  function RecordsUnder(b: Bucket, k: Key): seq<Record> {
    if k in b.groups then b.groups[k] else []
  }

  /** The number of records stored under the listed keys. */
  function Size(b: Bucket): nat {
    SizeOf(b.order, b.groups)
  }

  function SizeOf(order: seq<Key>, groups: map<Key, seq<Record>>): nat
    decreases |order|
  {
    if order == [] then 0
    else
      var k := order[|order| - 1];
      SizeOf(order[..|order| - 1], groups) + (if k in groups then |groups[k]| else 0)
  }

  /**
   * $result[$key][] = $record: the record goes last under its key, no other
   * key's records change, and a key used for the first time goes last in the order.
   */
  function Push(b: Bucket, k: Key, r: Record): (p: Bucket)
    ensures RecordsUnder(p, k) == RecordsUnder(b, k) + [r]
    ensures forall other :: other != k ==> RecordsUnder(p, other) == RecordsUnder(b, other)
    ensures p.order == if k in b.groups then b.order else b.order + [k]
  {
    if k in b.groups then Bucket(b.order, b.groups[k := b.groups[k] + [r]])
    else Bucket(b.order + [k], b.groups[k := [r]])
  }

  /** The size only depends on the records under the listed keys. */
  lemma {:induction false} SizeOfAgree(order: seq<Key>, g1: map<Key, seq<Record>>, g2: map<Key, seq<Record>>)
    requires forall j :: 0 <= j < |order| ==> (order[j] in g1 <==> order[j] in g2)
    requires forall j :: 0 <= j < |order| && order[j] in g1 ==> g1[order[j]] == g2[order[j]]
    ensures SizeOf(order, g1) == SizeOf(order, g2)
    decreases |order|
  {
    if order != [] {
      var n := |order| - 1;
      SizeOfAgree(order[..n], g1, g2);
    }
  }

  /** Growing the records of a key listed exactly once grows the size by one. */
  lemma {:induction false} SizeOfGrow(order: seq<Key>, groups: map<Key, seq<Record>>, k: Key, r: Record)
    requires k in groups
    requires forall i, j :: 0 <= i < j < |order| ==> order[i] != order[j]
    ensures SizeOf(order, groups[k := groups[k] + [r]]) == SizeOf(order, groups) + (if k in order then 1 else 0)
    decreases |order|
  {
    if order != [] {
      var n := |order| - 1;
      var prefix := order[..n];
      SizeOfGrow(prefix, groups, k, r);
      if order[n] == k {
        assert k !in prefix;
      } else {
        assert k in order ==> k in prefix;
      }
    }
  }

  /** A valid bucket stays valid, and a push adds exactly one record. */
  lemma {:induction false} PushKeepsShape(b: Bucket, k: Key, r: Record)
    requires Valid(b)
    ensures Valid(Push(b, k, r))
    ensures Size(Push(b, k, r)) == Size(b) + 1
  {
    PushKeepsValid(b, k, r);
    PushGrowsSize(b, k, r);
  }

  lemma {:induction false} PushKeepsValid(b: Bucket, k: Key, r: Record)
    requires Valid(b)
    ensures Valid(Push(b, k, r))
  {
    if k !in b.groups {
      var p := Push(b, k, r);
      forall i, j | 0 <= i < j < |p.order| ensures p.order[i] != p.order[j] {
        if j == |b.order| {
          assert p.order[i] == b.order[i];
        } else {
          assert p.order[i] == b.order[i] && p.order[j] == b.order[j];
        }
      }
    }
  }

  lemma {:induction false} PushGrowsSize(b: Bucket, k: Key, r: Record)
    requires Valid(b)
    ensures Size(Push(b, k, r)) == Size(b) + 1
  {
    if k in b.groups {
      SizeOfGrow(b.order, b.groups, k, r);
    } else {
      var order := b.order + [k];
      var groups := b.groups[k := [r]];
      assert order[..|b.order|] == b.order;
      SizeOfAgree(b.order, groups, b.groups);
    }
  }
}
