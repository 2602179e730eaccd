/**
 * The folds over expense lists that the components repeat: sums of amounts,
 * the sub-list of expenses with a given key (a `filter`), the keys in order of
 * first appearance (`Object.keys` of an accumulator object), grouping into
 * per-key lists, and per-category totals.
 */
module Folds {
  import opened Common

  /** Σ amounts, folded left to right as `reduce((sum, e) => sum + e.amount, 0)` does. */
  function Sum(es: seq<Expense>): real
    decreases |es|
  {
    if es == [] then 0.0 else Sum(es[..|es| - 1]) + es[|es| - 1].amount
  }

  /** Summing a concatenation sums the parts. */
  lemma {:induction false} SumAppend(a: seq<Expense>, b: seq<Expense>)
    ensures Sum(a + b) == Sum(a) + Sum(b)
    decreases |b|
  {
    if b == [] {
      assert a + b == a;
    } else {
      var b' := b[..|b| - 1];
      assert (a + b)[..|a + b| - 1] == a + b';
      assert (a + b)[|a + b| - 1] == b[|b| - 1];
      SumAppend(a, b');
    }
  }

  /** A sum of non-negative amounts is non-negative. */
  lemma {:induction false} SumNonNegative(es: seq<Expense>)
    requires forall e :: e in es ==> e.amount >= 0.0
    ensures Sum(es) >= 0.0
    decreases |es|
  {
    if es != [] {
      assert forall e :: e in es[..|es| - 1] ==> e in es;
      SumNonNegative(es[..|es| - 1]);
    }
  }

  /** A sum of strictly positive amounts is zero only for the empty list. */
  lemma {:induction false} SumPositive(es: seq<Expense>)
    requires forall e :: e in es ==> e.amount > 0.0
    ensures es != [] ==> Sum(es) > 0.0
    ensures Sum(es) >= 0.0
    decreases |es|
  {
    if es != [] {
      assert forall e :: e in es[..|es| - 1] ==> e in es;
      assert es[|es| - 1] in es;
      SumPositive(es[..|es| - 1]);
    }
  }

  /**
   * The expenses whose key equals `k`, in input order: the list a grouping
   * accumulator collects under `k`, or `filter(e => key(e) === k)`.
   */
  function Bucket<K(==)>(es: seq<Expense>, key: Expense -> K, k: K): (b: seq<Expense>)
    ensures |b| <= |es|
    decreases |es|
  {
    if es == [] then []
    else
      var last := es[|es| - 1];
      Bucket(es[..|es| - 1], key, k) + (if key(last) == k then [last] else [])
  }

  /** The bucket of `k` holds only expenses of `es` whose key is `k`. */
  lemma {:induction false} BucketSound<K>(es: seq<Expense>, key: Expense -> K, k: K)
    ensures forall e :: e in Bucket(es, key, k) ==> e in es && key(e) == k
    decreases |es|
  {
    if es != [] {
      var prefix := es[..|es| - 1];
      BucketSound(prefix, key, k);
      assert es == prefix + [es[|es| - 1]];
    }
  }

  /** Every expense with key `k` is in the bucket of `k`. */
  lemma {:induction false} BucketComplete<K>(es: seq<Expense>, key: Expense -> K, k: K, e: Expense)
    requires e in es && key(e) == k
    ensures e in Bucket(es, key, k)
    decreases |es|
  {
    var last := es[|es| - 1];
    if e != last {
      assert es == es[..|es| - 1] + [last];
      assert e in es[..|es| - 1];
      BucketComplete(es[..|es| - 1], key, k, e);
    }
  }

  /** Bucketing distributes over concatenation, so the input order is kept. */
  lemma {:induction false} BucketAppend<K>(a: seq<Expense>, b: seq<Expense>, key: Expense -> K, k: K)
    ensures Bucket(a + b, key, k) == Bucket(a, key, k) + Bucket(b, key, k)
    decreases |b|
  {
    if b == [] {
      assert a + b == a;
    } else {
      var b' := b[..|b| - 1];
      assert (a + b)[..|a + b| - 1] == a + b';
      assert (a + b)[|a + b| - 1] == b[|b| - 1];
      BucketAppend(a, b', key, k);
    }
  }

  /** The prefix of length i + 1 is the prefix of length i and element i. */
  lemma TakeSnoc<T>(s: seq<T>, i: nat)
    requires i < |s|
    ensures s[..i + 1] == s[..i] + [s[i]]
  {
  }

  /** Appending one expense extends exactly the bucket of its key. */
  lemma BucketSnoc<K>(prev: seq<Expense>, e: Expense, key: Expense -> K, k: K)
    ensures Bucket(prev + [e], key, k) == Bucket(prev, key, k) + (if key(e) == k then [e] else [])
  {
    assert (prev + [e])[..|prev|] == prev;
  }

  /** A key that is not among the distinct keys owns an empty bucket. */
  lemma {:induction false} BucketEmptyWhenAbsent<K>(es: seq<Expense>, key: Expense -> K, k: K)
    requires k !in DistinctKeys(es, key)
    ensures Bucket(es, key, k) == []
    decreases |es|
  {
    if es != [] {
      BucketEmptyWhenAbsent(es[..|es| - 1], key, k);
    }
  }

  /** The distinct keys of `es` in order of first appearance (`Object.keys` of the accumulator). */
  function DistinctKeys<K(==)>(es: seq<Expense>, key: Expense -> K): (ks: seq<K>)
    ensures |ks| <= |es|
    decreases |es|
  {
    if es == [] then []
    else
      var ks' := DistinctKeys(es[..|es| - 1], key);
      var last := key(es[|es| - 1]);
      if last in ks' then ks' else ks' + [last]
  }

  /**
   * The distinct keys are pairwise different, every expense's key is among
   * them, and each of them is some expense's key.
   */
  lemma {:induction false} DistinctKeysFacts<K>(es: seq<Expense>, key: Expense -> K)
    ensures var ks := DistinctKeys(es, key);
      && (forall i, j :: 0 <= i < j < |ks| ==> ks[i] != ks[j])
      && (forall e :: e in es ==> key(e) in ks)
      && (forall i :: 0 <= i < |ks| ==> exists e :: e in es && key(e) == ks[i])
    decreases |es|
  {
    if es != [] {
      var prefix := es[..|es| - 1];
      var last := es[|es| - 1];
      DistinctKeysFacts(prefix, key);
      assert es == prefix + [last];
      var ks' := DistinctKeys(prefix, key);
      var ks := DistinctKeys(es, key);
      forall i | 0 <= i < |ks| ensures exists e :: e in es && key(e) == ks[i] {
        if i < |ks'| {
          var e :| e in prefix && key(e) == ks'[i];
          assert e in es;
        } else {
          assert key(last) == ks[i];
        }
      }
    }
  }

  /** The expenses whose key is none of `ks`, in input order. */
  function Outside<K(==)>(es: seq<Expense>, key: Expense -> K, ks: seq<K>): seq<Expense>
    decreases |es|
  {
    if es == [] then []
    else
      var last := es[|es| - 1];
      Outside(es[..|es| - 1], key, ks) + (if key(last) !in ks then [last] else [])
  }

  /** The expenses outside `ks` are exactly those of `es` whose key is not listed. */
  lemma {:induction false} OutsideExactly<K>(es: seq<Expense>, key: Expense -> K, ks: seq<K>, e: Expense)
    ensures e in Outside(es, key, ks) <==> e in es && key(e) !in ks
    decreases |es|
  {
    if es != [] {
      var prefix := es[..|es| - 1];
      OutsideExactly(prefix, key, ks, e);
      assert es == prefix + [es[|es| - 1]];
    }
  }

  /** When every key is listed, nothing is outside. */
  lemma {:induction false} OutsideEmpty<K>(es: seq<Expense>, key: Expense -> K, ks: seq<K>)
    requires forall e :: e in es ==> key(e) in ks
    ensures Outside(es, key, ks) == []
    decreases |es|
  {
    if es != [] {
      assert es[|es| - 1] in es;
      assert forall e :: e in es[..|es| - 1] ==> e in es;
      OutsideEmpty(es[..|es| - 1], key, ks);
    }
  }

  /** Σ over the listed keys of the bucket sums. */
  function SumKeys<K(==)>(es: seq<Expense>, key: Expense -> K, ks: seq<K>): real
    decreases |ks|
  {
    if ks == [] then 0.0 else Sum(Bucket(es, key, ks[0])) + SumKeys(es, key, ks[1..])
  }

  /** Removing one more key from the "outside" list moves exactly its bucket. */
  lemma {:induction false} SplitOutside<K>(es: seq<Expense>, key: Expense -> K, k: K, rest: seq<K>)
    requires k !in rest
    ensures Sum(Outside(es, key, rest)) == Sum(Bucket(es, key, k)) + Sum(Outside(es, key, [k] + rest))
    decreases |es|
  {
    if es != [] {
      var prefix := es[..|es| - 1];
      var last := es[|es| - 1];
      SplitOutside(prefix, key, k, rest);
      var tailRest := if key(last) !in rest then [last] else [];
      var tailK := if key(last) == k then [last] else [];
      var tailAll := if key(last) !in [k] + rest then [last] else [];
      SumAppend(Outside(prefix, key, rest), tailRest);
      SumAppend(Bucket(prefix, key, k), tailK);
      SumAppend(Outside(prefix, key, [k] + rest), tailAll);
    }
  }

  /**
   * The buckets of distinct keys and the expenses outside them partition the
   * list: their sums add up to the sum of all amounts.
   */
  lemma {:induction false} SumKeysPartition<K>(es: seq<Expense>, key: Expense -> K, ks: seq<K>)
    requires forall i, j :: 0 <= i < j < |ks| ==> ks[i] != ks[j]
    ensures SumKeys(es, key, ks) + Sum(Outside(es, key, ks)) == Sum(es)
    decreases |ks|
  {
    if ks == [] {
      OutsideEmptyList(es, key);
    } else {
      var rest := ks[1..];
      assert ks == [ks[0]] + rest;
      assert ks[0] !in rest;
      SumKeysPartition(es, key, rest);
      SplitOutside(es, key, ks[0], rest);
    }
  }

  /** With no keys listed, every expense is outside. */
  lemma {:induction false} OutsideEmptyList<K>(es: seq<Expense>, key: Expense -> K)
    ensures Outside(es, key, []) == es
    decreases |es|
  {
    if es != [] {
      OutsideEmptyList(es[..|es| - 1], key);
      assert es == es[..|es| - 1] + [es[|es| - 1]];
    }
  }

  /** The bucket sums over all distinct keys add up to the total. */
  lemma SumOverDistinctKeys<K>(es: seq<Expense>, key: Expense -> K)
    ensures SumKeys(es, key, DistinctKeys(es, key)) == Sum(es)
  {
    var ks := DistinctKeys(es, key);
    DistinctKeysFacts(es, key);
    OutsideEmpty(es, key, ks);
    SumKeysPartition(es, key, ks);
  }

  /**
   * Groups the expenses by key, as the source's
   * `reduce((groups, e) => { (groups[k] ||= []).push(e); return groups }, {})`:
   * `keys` is the accumulator's key order, `groups[k]` the list pushed under `k`.
   */
  method GroupBy<K(==)>(es: seq<Expense>, key: Expense -> K) returns (keys: seq<K>, groups: map<K, seq<Expense>>)
    ensures keys == DistinctKeys(es, key)
    ensures forall k :: k in groups <==> k in keys
    ensures forall k :: k in groups ==> groups[k] == Bucket(es, key, k)
  {
    keys := [];
    groups := map[];
    var i := 0;
    while i < |es|
      invariant 0 <= i <= |es|
      invariant keys == DistinctKeys(es[..i], key)
      invariant forall k :: k in groups <==> k in keys
      invariant forall k :: k in groups ==> groups[k] == Bucket(es[..i], key, k)
    {
      var e := es[i];
      var k := key(e);
      assert es[..i + 1] == es[..i] + [e];
      assert es[..i + 1][..i] == es[..i];
      if k !in groups {
        BucketEmptyWhenAbsent(es[..i], key, k);
        groups := groups[k := []];
        keys := keys + [k];
      }
      groups := groups[k := groups[k] + [e]];
      i := i + 1;
    }
    assert es[..i] == es;
  }

  /** The category of an expense: the key of the per-category folds. */
  function CategoryOf(e: Expense): string {
    e.category
  }

  /** One `(key, amount)` entry per listed key, each the sum of that key's bucket. */
  function Totals<K(==)>(es: seq<Expense>, key: Expense -> K, ks: seq<K>): (t: seq<(K, real)>)
    ensures |t| == |ks|
    ensures forall i :: 0 <= i < |ks| ==> t[i] == (ks[i], Sum(Bucket(es, key, ks[i])))
    decreases |ks|
  {
    if ks == [] then [] else [(ks[0], Sum(Bucket(es, key, ks[0])))] + Totals(es, key, ks[1..])
  }

  /** `Object.entries` of a per-key accumulator: keys in first-appearance order. */
  function TotalsSpec<K(==)>(es: seq<Expense>, key: Expense -> K): seq<(K, real)> {
    Totals(es, key, DistinctKeys(es, key))
  }

  /** Σ of the amounts of a list of entries. */
  function SumEntries<K>(t: seq<(K, real)>): real
    decreases |t|
  {
    if t == [] then 0.0 else t[0].1 + SumEntries(t[1..])
  }

  /** The sum over the first k + 1 entries is the sum over the first k plus entry k. */
  lemma {:induction false} SumEntriesSnoc<K>(t: seq<(K, real)>, k: nat)
    requires k < |t|
    ensures SumEntries(t[..k + 1]) == SumEntries(t[..k]) + t[k].1
    decreases k
  {
    if k > 0 {
      assert t[..k + 1][1..] == t[1..][..k];
      assert t[..k][1..] == t[1..][..k - 1];
      SumEntriesSnoc(t[1..], k - 1);
    }
  }

  /** The entries for the listed keys add up to the sum of their buckets. */
  lemma {:induction false} SumEntriesOfTotals<K>(es: seq<Expense>, key: Expense -> K, ks: seq<K>)
    ensures SumEntries(Totals(es, key, ks)) == SumKeys(es, key, ks)
    decreases |ks|
  {
    if ks != [] {
      assert Totals(es, key, ks)[1..] == Totals(es, key, ks[1..]);
      SumEntriesOfTotals(es, key, ks[1..]);
    }
  }

  /**
   * A per-key breakdown has one entry per distinct key; each expense's key has
   * an entry and every entry's key is some expense's.
   */
  lemma TotalsKeys<K>(es: seq<Expense>, key: Expense -> K)
    ensures var t := TotalsSpec(es, key);
      && (forall i, j :: 0 <= i < j < |t| ==> t[i].0 != t[j].0)
      && (forall e :: e in es ==> exists i :: 0 <= i < |t| && t[i].0 == key(e))
      && (forall i :: 0 <= i < |t| ==> exists e :: e in es && key(e) == t[i].0)
  {
    var ks := DistinctKeys(es, key);
    var t := TotalsSpec(es, key);
    DistinctKeysFacts(es, key);
    assert forall i :: 0 <= i < |t| ==> t[i].0 == ks[i];
    forall e | e in es ensures exists i :: 0 <= i < |t| && t[i].0 == key(e) {
      var i :| 0 <= i < |ks| && ks[i] == key(e);
      assert t[i].0 == key(e);
    }
  }

  /** The entries of a per-key breakdown add up to the total of all amounts. */
  lemma TotalsAddUp<K>(es: seq<Expense>, key: Expense -> K)
    ensures SumEntries(TotalsSpec(es, key)) == Sum(es)
  {
    SumEntriesOfTotals(es, key, DistinctKeys(es, key));
    SumOverDistinctKeys(es, key);
  }

  /** Appending one expense adds its key at the end exactly when the key is new. */
  lemma DistinctKeysSnoc<K>(prev: seq<Expense>, e: Expense, key: Expense -> K)
    ensures DistinctKeys(prev + [e], key)
         == if key(e) in DistinctKeys(prev, key) then DistinctKeys(prev, key) else DistinctKeys(prev, key) + [key(e)]
  {
    assert (prev + [e])[..|prev|] == prev;
  }

  /** Adding one expense to the accumulator keeps each key's sum equal to its bucket's. */
  lemma SumsStep<K>(prev: seq<Expense>, e: Expense, key: Expense -> K, acc: map<K, real>, before: real)
    requires forall k :: k in acc ==> acc[k] == Sum(Bucket(prev, key, k))
    requires before == Sum(Bucket(prev, key, key(e)))
    ensures forall k :: k in acc[key(e) := before + e.amount] ==>
      acc[key(e) := before + e.amount][k] == Sum(Bucket(prev + [e], key, k))
  {
    var acc' := acc[key(e) := before + e.amount];
    forall k | k in acc' ensures acc'[k] == Sum(Bucket(prev + [e], key, k)) {
      BucketSnoc(prev, e, key, k);
      SumAppend(Bucket(prev, key, k), if key(e) == k then [e] else []);
    }
  }

  /**
   * The per-key fold `acc[key(e)] = (acc[key(e)] || 0) + e.amount` over every
   * expense: `keys` is the accumulator's key order, `acc[k]` the sum under `k`.
   */
  method AccumulateBy<K(==)>(es: seq<Expense>, key: Expense -> K) returns (keys: seq<K>, acc: map<K, real>)
    ensures keys == DistinctKeys(es, key)
    ensures forall k :: k in acc <==> k in keys
    ensures forall k :: k in acc ==> acc[k] == Sum(Bucket(es, key, k))
  {
    keys := [];
    acc := map[];
    var i := 0;
    while i < |es|
      invariant 0 <= i <= |es|
      invariant keys == DistinctKeys(es[..i], key)
      invariant forall k :: k in acc <==> k in keys
      invariant forall k :: k in acc ==> acc[k] == Sum(Bucket(es[..i], key, k))
    {
      var e := es[i];
      var k := key(e);
      TakeSnoc(es, i);
      DistinctKeysSnoc(es[..i], e, key);
      var before := 0.0;
      if k in acc {
        before := acc[k];
      } else {
        BucketEmptyWhenAbsent(es[..i], key, k);
        keys := keys + [k];
      }
      SumsStep(es[..i], e, key, acc, before);
      acc := acc[k := before + e.amount];
      i := i + 1;
    }
    assert es[..i] == es;
  }

  /** `Object.entries` of the per-key accumulator. */
  method TotalsBy<K(==)>(es: seq<Expense>, key: Expense -> K) returns (entries: seq<(K, real)>)
    ensures entries == TotalsSpec(es, key)
  {
    var keys, acc := AccumulateBy(es, key);
    entries := seq(|keys|, j requires 0 <= j < |keys| => (keys[j], acc[keys[j]]));
  }
}
