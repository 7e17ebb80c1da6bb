/**
 * The chained hash table of HashMap.h: 100000 buckets, each a list of foods in
 * insertion order.  A food goes to the bucket given by the djb2 hash of its name,
 * computed on lower-cased characters in a 64-bit `unsigned long`, reduced modulo
 * the table size.  Ghost state keeps the foods inserted so far; the invariant says
 * each bucket holds exactly the inserted foods that hash to it, in order.
 */
module ChainedHash {
  import opened Text
  import opened Nutrition
  import opened Selection

  const TableSize: nat := 100000
  /** `unsigned long` arithmetic wraps modulo 2^64. */
  const Word: nat := 0x1_0000_0000_0000_0000
  const Seed: nat := 5381

  /** The djb2 hash of the lower-cased characters of `s`: `hash * 33 + tolower(c)` from 5381. */
  function Djb2(s: string): (h: nat)
    ensures h < Word
  {
    if s == [] then Seed else (Djb2(s[..|s| - 1]) * 33 + LowerChar(s[|s| - 1]) as int) % Word
  }

  /** The bucket of a name. */
  function Bucket(name: string): (b: nat)
    ensures b < TableSize
  {
    Djb2(name) % TableSize
  }

  /** The hash folds case itself, so names equal up to case share a bucket. */
  lemma {:induction false} HashFoldsCase(s: string)
    ensures Djb2(ToLower(s)) == Djb2(s)
  {
    if s != [] {
      var init := s[..|s| - 1];
      HashFoldsCase(init);
      assert ToLower(s)[..|s| - 1] == ToLower(init);
      assert LowerChar(LowerChar(s[|s| - 1])) == LowerChar(s[|s| - 1]);
    }
  }

  lemma SameBucket(a: string, b: string)
    requires ToLower(a) == ToLower(b)
    ensures Bucket(a) == Bucket(b)
  {
    HashFoldsCase(a);
    HashFoldsCase(b);
  }

  /** `hashFunction`: the loop computing `hash = (hash << 5) + hash + tolower(c)`. */
  method HashFunction(key: string) returns (index: nat)
    ensures index < TableSize
    ensures index == Djb2(key) % TableSize
  {
    var hash: nat := Seed;
    var k := 0;
    while k < |key|
      invariant 0 <= k <= |key|
      invariant hash == Djb2(key[..k])
    {
      assert key[..k + 1][..k] == key[..k];
      hash := (hash * 32 + hash + LowerChar(key[k]) as int) % Word;
      k := k + 1;
    }
    assert key[..k] == key;
    index := hash % TableSize;
  }

  /** Test: the food's name hashes to bucket `b`. */
  function InBucket(b: nat): Food -> bool
  {
    (f: Food) => Bucket(f.name) == b
  }

  /** Test: the food's name hashes below bucket `n`. */
  function BelowBucket(n: nat): Food -> bool
  {
    (f: Food) => Bucket(f.name) < n
  }

  /** The buckets of `t` one after the other. */
  function Flatten(t: seq<seq<Food>>): seq<Food>
  {
    if t == [] then [] else Flatten(t[..|t| - 1]) + t[|t| - 1]
  }

  /** Sum of the bucket lengths. */
  function TotalItems(t: seq<seq<Food>>): nat
  {
    if t == [] then 0 else TotalItems(t[..|t| - 1]) + |t[|t| - 1]|
  }

  /** Number of non-empty buckets. */
  function NonEmptyBuckets(t: seq<seq<Food>>): nat
  {
    if t == [] then 0 else NonEmptyBuckets(t[..|t| - 1]) + (if t[|t| - 1] != [] then 1 else 0)
  }

  lemma {:induction false} FlattenLength(t: seq<seq<Food>>)
    ensures |Flatten(t)| == TotalItems(t)
    ensures NonEmptyBuckets(t) <= TotalItems(t)
  {
    if t != [] {
      FlattenLength(t[..|t| - 1]);
    }
  }

  /** The table holds exactly the inserted foods when every bucket holds the inserted foods
      hashing to it: walking the buckets in order meets every inserted food once. */
  lemma {:induction false} FlattenBuckets(t: seq<seq<Food>>, inserted: seq<Food>, n: nat)
    requires n <= |t| && forall b :: 0 <= b < n ==> t[b] == Select(inserted, InBucket(b))
    ensures multiset(Flatten(t[..n])) == multiset(Select(inserted, BelowBucket(n)))
  {
    if n == 0 {
      SelectNone(inserted, BelowBucket(0));
    } else {
      FlattenBuckets(t, inserted, n - 1);
      assert t[..n][..n - 1] == t[..n - 1];
      SelectSplit(inserted, BelowBucket(n), BelowBucket(n - 1), InBucket(n - 1));
    }
  }

  lemma {:induction false} SelectNone(s: seq<Food>, keep: Food -> bool)
    requires forall f :: !keep(f)
    ensures Select(s, keep) == []
  {
    if s != [] {
      SelectNone(s[..|s| - 1], keep);
    }
  }

  /** The loop of `printStats` over the buckets of `table`. */
  method CountBuckets(table: seq<seq<Food>>) returns (nonEmpty: nat, maxChain: nat, total: nat)
    requires |table| > 0
    ensures total == TotalItems(table)
    ensures nonEmpty == NonEmptyBuckets(table) && nonEmpty <= total
    ensures forall b :: 0 <= b < |table| ==> |table[b]| <= maxChain
    ensures exists b :: 0 <= b < |table| && |table[b]| == maxChain
    ensures maxChain <= total
  {
    nonEmpty, maxChain, total := 0, 0, 0;
    ghost var longest := 0;
    var b := 0;
    while b < |table|
      invariant 0 <= b <= |table| && longest < |table|
      invariant total == TotalItems(table[..b]) && nonEmpty == NonEmptyBuckets(table[..b])
      invariant forall c :: 0 <= c < b ==> |table[c]| <= maxChain
      invariant maxChain == 0 || |table[longest]| == maxChain
      invariant maxChain <= total
    {
      assert table[..b + 1][..b] == table[..b];
      var bucket := table[b];
      if bucket != [] {
        nonEmpty := nonEmpty + 1;
        var chainLength := |bucket|;
        total := total + chainLength;
        if chainLength > maxChain {
          maxChain := chainLength;
          longest := b;
        }
      }
      b := b + 1;
    }
    assert table[..b] == table;
    FlattenLength(table);
    if maxChain == 0 {
      longest := 0;
    }
    assert |table[longest]| == maxChain;
  }

  class HashMap {
    var table: seq<seq<Food>>
    /** The foods inserted so far, in order. */
    ghost var Inserted: seq<Food>

    ghost predicate Valid()
      reads this
    {
      |table| == TableSize && forall b :: 0 <= b < TableSize ==> table[b] == Select(Inserted, InBucket(b))
    }

    /** Every inserted food is in the table exactly once. */
    lemma Contents()
      requires Valid()
      ensures multiset(Flatten(table)) == multiset(Inserted)
      ensures TotalItems(table) == |Inserted|
    {
      FlattenBuckets(table, Inserted, TableSize);
      assert table[..TableSize] == table;
      SelectAll(Inserted, BelowBucket(TableSize));
      FlattenLength(table);
    }

    /** `HashMap()`: 100000 empty buckets. */
    constructor()
      ensures Valid() && Inserted == []
    {
      table := seq(TableSize, _ => []);
      Inserted := [];
    }

    /** `insert`: append the food to the bucket of its name. */
    method Insert(food: Food)
      requires Valid()
      modifies this
      ensures Valid()
      ensures Inserted == old(Inserted) + [food]
      ensures table == old(table)[Bucket(food.name) := old(table)[Bucket(food.name)] + [food]]
    {
      var index := HashFunction(food.name);
      table := table[index := table[index] + [food]];
      Inserted := Inserted + [food];
      assert Inserted[..|Inserted| - 1] == old(Inserted);
    }

    /** `searchExact`: scan the bucket of `name` for foods whose lower-cased name equals
        the lower-cased query.  Because the hash folds case, this finds every such food
        in the whole table, in insertion order. */
    method SearchExact(name: string) returns (r: seq<Food>)
      requires Valid()
      ensures r == Select(Inserted, NameIs(name))
    {
      var index := HashFunction(name);
      var lowerName := ToLower(name);
      var bucket := table[index];
      r := [];
      var k := 0;
      while k < |bucket|
        invariant 0 <= k <= |bucket|
        invariant r == Select(bucket[..k], NameIs(name))
      {
        if ToLower(bucket[k].name) == lowerName {
          r := r + [bucket[k]];
        }
        assert bucket[..k + 1][..k] == bucket[..k];
        k := k + 1;
      }
      assert bucket[..k] == bucket;
      forall f | NameIs(name)(f) ensures InBucket(index)(f) {
        SameBucket(f.name, name);
      }
      SelectNarrow(Inserted, InBucket(index), NameIs(name));
    }

    /** `searchPrefix`: scan every bucket in order for foods whose lower-cased name starts
        with the lower-cased prefix. */
    method SearchPrefix(prefix: string) returns (r: seq<Food>)
      requires Valid()
      ensures r == Select(Flatten(table), NameStartsWith(prefix))
      ensures multiset(r) == multiset(Select(Inserted, NameStartsWith(prefix)))
    {
      r := [];
      var b := 0;
      while b < |table|
        invariant 0 <= b <= |table|
        invariant r == Select(Flatten(table[..b]), NameStartsWith(prefix))
      {
        var bucket := table[b];
        var kept := KeepStartingWith(bucket, prefix);
        SelectAppend(Flatten(table[..b]), bucket, NameStartsWith(prefix));
        r := r + kept;
        assert table[..b + 1][..b] == table[..b];
        assert Flatten(table[..b + 1]) == Flatten(table[..b]) + bucket;
        b := b + 1;
      }
      assert table[..b] == table;
      Contents();
      SelectPermutation(Flatten(table), Inserted, NameStartsWith(prefix));
    }

    /** `searchContains`: scan every bucket in order for foods whose lower-cased name
        contains the lower-cased term. */
    method SearchContains(term: string) returns (r: seq<Food>)
      requires Valid()
      ensures r == Select(Flatten(table), NameContains(term))
      ensures multiset(r) == multiset(Select(Inserted, NameContains(term)))
    {
      r := [];
      var b := 0;
      while b < |table|
        invariant 0 <= b <= |table|
        invariant r == Select(Flatten(table[..b]), NameContains(term))
      {
        var bucket := table[b];
        var kept := KeepContaining(bucket, term);
        SelectAppend(Flatten(table[..b]), bucket, NameContains(term));
        r := r + kept;
        assert table[..b + 1][..b] == table[..b];
        assert Flatten(table[..b + 1]) == Flatten(table[..b]) + bucket;
        b := b + 1;
      }
      assert table[..b] == table;
      Contents();
      SelectPermutation(Flatten(table), Inserted, NameContains(term));
    }

    /** The counting part of `printStats`: total items, non-empty buckets and the longest
        chain.  The total is the number of inserts; neither of the other two exceeds it. */
    method Stats() returns (nonEmpty: nat, maxChain: nat, total: nat)
      requires Valid()
      ensures total == |Inserted| == TotalItems(table)
      ensures nonEmpty == NonEmptyBuckets(table) && nonEmpty <= total
      ensures forall b :: 0 <= b < |table| ==> |table[b]| <= maxChain
      ensures exists b :: 0 <= b < |table| && |table[b]| == maxChain
      ensures maxChain <= total
    {
      nonEmpty, maxChain, total := CountBuckets(table);
      Contents();
    }
  }
}
