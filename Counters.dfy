/** `collections.Counter` as the ranking engine uses it: a dictionary from user
    name to count that remembers the order in which keys were first inserted. */
module Counters {

  /** Keys in first-insertion order, and the count of each. */
  datatype Counter = Counter(order: seq<string>, counts: map<string, nat>) {

    /** A dictionary's keys are distinct, and `order` lists exactly them. */
    ghost predicate Valid()
    {
      && (forall i, j :: 0 <= i < j < |order| ==> order[i] != order[j])
      && (forall k :: k in counts <==> k in order)
    }

    /** `counter[k]`: zero for a missing key, which is not inserted. */
    function Get(k: string): nat
    {
      if k in counts then counts[k] else 0
    }

    /** `counter.items()` in dictionary order. */
    function Items(): (r: seq<(string, nat)>)
      requires Valid()
      ensures |r| == |order|
      ensures forall i :: 0 <= i < |r| ==> r[i] == (order[i], counts[order[i]])
    {
      seq(|order|, i requires 0 <= i < |order| => (order[i], counts[order[i]]))
    }
  }

  /** `collections.Counter()`. */
  function Empty(): (r: Counter)
    ensures r.Valid() && r.order == []
    ensures forall k :: r.Get(k) == 0
  {
    Counter([], map[])
  }

  /** `counter[k] += n`; a key seen for the first time goes last in the order. */
  function AddTo(c: Counter, k: string, n: nat): (r: Counter)
    requires c.Valid()
    ensures r.Valid()
    ensures forall k' :: r.Get(k') == c.Get(k') + (if k' == k then n else 0)
    ensures r.counts.Keys == c.counts.Keys + {k}
    ensures r.order == if k in c.counts then c.order else c.order + [k]
  {
    Counter(if k in c.counts then c.order else c.order + [k], c.counts[k := c.Get(k) + n])
  }

  /** The loop of `counter.update(other)`: each key of `keys` in turn gets its count added. */
  function UpdateWith(c: Counter, keys: seq<string>, counts: map<string, nat>): (r: Counter)
    requires c.Valid()
    requires forall k :: k in keys ==> k in counts
    ensures r.Valid()
  {
    if keys == [] then c
    else
      var last := keys[|keys| - 1];
      AddTo(UpdateWith(c, keys[..|keys| - 1], counts), last, counts[last])
  }

  /** A key of `keys` gets its count added, once; any other key keeps its own. */
  lemma {:induction false} UpdateWithEntry(c: Counter, keys: seq<string>, counts: map<string, nat>, k: string)
    requires c.Valid()
    requires forall k :: k in keys ==> k in counts
    requires forall i, j :: 0 <= i < j < |keys| ==> keys[i] != keys[j]
    ensures UpdateWith(c, keys, counts).Get(k) == c.Get(k) + (if k in keys then counts[k] else 0)
    ensures k in UpdateWith(c, keys, counts).counts <==> k in c.counts || k in keys
  {
    if keys != [] {
      var prefix := keys[..|keys| - 1];
      var last := keys[|keys| - 1];
      DistinctPrefix(keys);
      UpdateWithEntry(c, prefix, counts, k);
      InSplit(keys, k);
    }
  }

  /** The keys of `keys` that `seen` does not hold yet, in the order of `keys`. */
  function NewKeys(keys: seq<string>, seen: map<string, nat>): seq<string>
  {
    if keys == [] then []
    else
      var last := keys[|keys| - 1];
      NewKeys(keys[..|keys| - 1], seen) + (if last in seen then [] else [last])
  }

  /** `NewKeys` holds exactly the keys of `keys` that `seen` lacks, each once
      when `keys` lists each once. */
  lemma {:induction false} NewKeysMembers(keys: seq<string>, seen: map<string, nat>)
    requires forall i, j :: 0 <= i < j < |keys| ==> keys[i] != keys[j]
    ensures forall k :: k in NewKeys(keys, seen) <==> k in keys && k !in seen
    ensures forall i, j :: 0 <= i < j < |NewKeys(keys, seen)| ==>
      NewKeys(keys, seen)[i] != NewKeys(keys, seen)[j]
  {
    if keys != [] {
      var prefix := keys[..|keys| - 1];
      var last := keys[|keys| - 1];
      DistinctPrefix(keys);
      NewKeysMembers(prefix, seen);
      forall k ensures k in NewKeys(keys, seen) <==> k in keys && k !in seen {
        InSplit(keys, k);
      }
      var before := NewKeys(prefix, seen);
      var r := NewKeys(keys, seen);
      assert r == before + (if last in seen then [] else [last]);
      forall i, j | 0 <= i < j < |r| ensures r[i] != r[j] {
        if j >= |before| {
          assert r[j] == last && r[i] == before[i] && before[i] in before;
        } else {
          assert r[i] == before[i] && r[j] == before[j];
        }
      }
    }
  }

  /** The update loop keeps the order of the keys already present and appends
      the new ones in the order of `keys`. */
  lemma {:induction false} UpdateWithOrder(c: Counter, keys: seq<string>, counts: map<string, nat>)
    requires c.Valid()
    requires forall k :: k in keys ==> k in counts
    requires forall i, j :: 0 <= i < j < |keys| ==> keys[i] != keys[j]
    ensures UpdateWith(c, keys, counts).order == c.order + NewKeys(keys, c.counts)
  {
    if keys != [] {
      var prefix := keys[..|keys| - 1];
      var last := keys[|keys| - 1];
      DistinctPrefix(keys);
      UpdateWithOrder(c, prefix, counts);
      UpdateWithEntry(c, prefix, counts, last);
      UpdateWithOrderLast(c, keys, counts);
      var added := if last in c.counts then [] else [last];
      assert NewKeys(keys, c.counts) == NewKeys(prefix, c.counts) + added;
      ConcatAssoc(c.order, NewKeys(prefix, c.counts), added);
    }
  }

  /** Dropping the last of distinct keys leaves distinct keys without it. */
  lemma DistinctPrefix(keys: seq<string>)
    requires keys != []
    requires forall i, j :: 0 <= i < j < |keys| ==> keys[i] != keys[j]
    ensures var prefix := keys[..|keys| - 1];
      (forall i, j :: 0 <= i < j < |prefix| ==> prefix[i] != prefix[j]) && keys[|keys| - 1] !in prefix
  {
    var prefix := keys[..|keys| - 1];
    assert forall i :: 0 <= i < |prefix| ==> prefix[i] == keys[i];
  }

  /** A key is among `keys` when it is among all but the last, or is the last. */
  lemma InSplit(keys: seq<string>, k: string)
    requires keys != []
    ensures k in keys <==> k in keys[..|keys| - 1] || k == keys[|keys| - 1]
  {
    assert keys == keys[..|keys| - 1] + [keys[|keys| - 1]];
  }

  /** Concatenation of key lists is associative. */
  lemma ConcatAssoc(a: seq<string>, b: seq<string>, d: seq<string>)
    ensures (a + b) + d == a + (b + d)
  {
  }

  /** One step of the update loop appends the last key when it is new. */
  lemma UpdateWithOrderLast(c: Counter, keys: seq<string>, counts: map<string, nat>)
    requires c.Valid() && keys != []
    requires forall k :: k in keys ==> k in counts
    ensures var before := UpdateWith(c, keys[..|keys| - 1], counts);
      var last := keys[|keys| - 1];
      UpdateWith(c, keys, counts).order == before.order + (if last in before.counts then [] else [last])
  {
  }

  /** `counter.update(other)`: every count of `other` is added to this one. */
  function Update(c: Counter, other: Counter): (r: Counter)
    requires c.Valid() && other.Valid()
    ensures r.Valid()
    ensures forall k :: r.Get(k) == c.Get(k) + other.Get(k)
    ensures r.counts.Keys == c.counts.Keys + other.counts.Keys
    ensures r.order == c.order + NewKeys(other.order, c.counts)
  {
    var r := UpdateWith(c, other.order, other.counts);
    UpdateWithOrder(c, other.order, other.counts);
    assert forall k :: r.Get(k) == c.Get(k) + other.Get(k) && (k in r.counts <==> k in c.counts || k in other.counts) by {
      forall k ensures r.Get(k) == c.Get(k) + other.Get(k) && (k in r.counts <==> k in c.counts || k in other.counts) {
        UpdateWithEntry(c, other.order, other.counts, k);
      }
    }
    r
  }

  /** The sum of the counts of `keys` in `counts`. */
  function SumOver(keys: seq<string>, counts: map<string, nat>): nat
  {
    if keys == [] then 0
    else
      var last := keys[|keys| - 1];
      SumOver(keys[..|keys| - 1], counts) + (if last in counts then counts[last] else 0)
  }

  /** The sum of all counts (`counter.total()`). */
  function Total(c: Counter): nat
  {
    SumOver(c.order, c.counts)
  }

  lemma {:induction false} SumOverUnrelated(keys: seq<string>, counts: map<string, nat>, k: string, v: nat)
    requires k !in keys
    ensures SumOver(keys, counts[k := v]) == SumOver(keys, counts)
  {
    if keys != [] {
      SumOverUnrelated(keys[..|keys| - 1], counts, k, v);
    }
  }

  lemma {:induction false} SumOverBump(keys: seq<string>, counts: map<string, nat>, k: string, n: nat)
    requires k in counts
    requires k in keys
    requires forall i, j :: 0 <= i < j < |keys| ==> keys[i] != keys[j]
    ensures SumOver(keys, counts[k := counts[k] + n]) == SumOver(keys, counts) + n
  {
    var prefix := keys[..|keys| - 1];
    if keys[|keys| - 1] == k {
      SumOverUnrelated(prefix, counts, k, counts[k] + n);
    } else {
      assert k in prefix by {
        var i :| 0 <= i < |keys| && keys[i] == k;
        assert i < |keys| - 1 && prefix[i] == k;
      }
      SumOverBump(prefix, counts, k, n);
    }
  }

  /** Adding `n` to one key adds `n` to the total. */
  lemma AddToTotal(c: Counter, k: string, n: nat)
    requires c.Valid()
    ensures Total(AddTo(c, k, n)) == Total(c) + n
  {
    var r := AddTo(c, k, n);
    if k in c.counts {
      assert k in c.order && r.order == c.order;
      assert r.counts == c.counts[k := c.counts[k] + n];
      SumOverBump(c.order, c.counts, k, n);
    } else {
      assert k !in c.order && r.order == c.order + [k];
      assert r.counts == c.counts[k := n];
      assert r.order[..|r.order| - 1] == c.order;
      SumOverUnrelated(c.order, c.counts, k, n);
      assert Total(r) == SumOver(c.order, r.counts) + n;
    }
  }

  lemma {:induction false} UpdateWithTotal(c: Counter, keys: seq<string>, counts: map<string, nat>)
    requires c.Valid()
    requires forall k :: k in keys ==> k in counts
    requires forall i, j :: 0 <= i < j < |keys| ==> keys[i] != keys[j]
    ensures Total(UpdateWith(c, keys, counts)) == Total(c) + SumOver(keys, counts)
  {
    if keys != [] {
      var last := keys[|keys| - 1];
      UpdateWithTotal(c, keys[..|keys| - 1], counts);
      AddToTotal(UpdateWith(c, keys[..|keys| - 1], counts), last, counts[last]);
    }
  }

  /** The totals of two counters add up under `update`. */
  lemma UpdateTotal(c: Counter, other: Counter)
    requires c.Valid() && other.Valid()
    ensures Total(Update(c, other)) == Total(c) + Total(other)
  {
    UpdateWithTotal(c, other.order, other.counts);
  }
}
