/** The self-expanding hash table (lib/hash.cc).  A bucket is the contents of its List. */
module HashTables {
  import opened LinkedLists
  import opened Options
  import opened Sequences

  const INITIAL_BUCKETS := 4
  const RESIZE_RATIO := 3
  const INCREASE_SIZE_BY := 4

  // ----- buckets -----

  function Count<T>(buckets: seq<seq<T>>): (n: nat) {
    if buckets == [] then 0 else |buckets[0]| + Count(buckets[1..])
  }

  lemma {:induction false} CountUpdate<T>(buckets: seq<seq<T>>, i: nat, b: seq<T>)
    requires i < |buckets|
    ensures Count(buckets[i := b]) == Count(buckets) - |buckets[i]| + |b|
  {
    if i == 0 {
      assert buckets[0 := b][1..] == buckets[1..];
    } else {
      CountUpdate(buckets[1..], i - 1, b);
      assert buckets[i := b][1..] == buckets[1..][i - 1 := b];
    }
  }

  lemma {:induction false} CountEmpty<T>(buckets: seq<seq<T>>)
    requires forall i :: 0 <= i < |buckets| ==> buckets[i] == []
    ensures Count(buckets) == 0
  {
    if buckets != [] {
      CountEmpty(buckets[1..]);
    }
  }

  // Every item of the buckets is in the map, in the bucket its key hashes to.
  ghost predicate Sound<Key, T>(buckets: seq<seq<T>>, contents: map<Key, T>, getKey: T -> Key, hash: Key -> nat) {
    && |buckets| > 0
    && (forall i :: 0 <= i < |buckets| ==> Distinct(buckets[i]))
    && (forall i, x :: 0 <= i < |buckets| && x in buckets[i] ==>
         getKey(x) in contents && contents[getKey(x)] == x && hash(getKey(x)) % |buckets| == i)
  }

  // Every item is in the bucket its key hashes to.
  ghost predicate InPlace<Key, T>(buckets: seq<seq<T>>, getKey: T -> Key, hash: Key -> nat)
    requires |buckets| > 0
  {
    forall i, j :: 0 <= i < |buckets| && 0 <= j < |buckets[i]| ==> hash(getKey(buckets[i][j])) % |buckets| == i
  }

  lemma SoundInPlace<Key, T>(buckets: seq<seq<T>>, contents: map<Key, T>, getKey: T -> Key, hash: Key -> nat)
    requires Sound(buckets, contents, getKey, hash)
    ensures InPlace(buckets, getKey, hash)
  {
    forall i, j | 0 <= i < |buckets| && 0 <= j < |buckets[i]|
      ensures hash(getKey(buckets[i][j])) % |buckets| == i
    {
      assert buckets[i][j] in buckets[i];
    }
  }

  // Every entry of the map is in its bucket.
  ghost predicate Complete<Key, T>(buckets: seq<seq<T>>, contents: map<Key, T>, getKey: T -> Key, hash: Key -> nat) {
    && |buckets| > 0
    && forall k :: k in contents ==> getKey(contents[k]) == k && contents[k] in buckets[hash(k) % |buckets|]
  }

  lemma AppendSound<Key, T>(buckets: seq<seq<T>>, contents: map<Key, T>, getKey: T -> Key, hash: Key -> nat, item: T)
    requires Sound(buckets, contents, getKey, hash)
    requires var k := getKey(item); (k in contents ==> contents[k] == item) && item !in buckets[hash(k) % |buckets|]
    ensures var k := getKey(item); var i := hash(k) % |buckets|;
      && Sound(buckets[i := buckets[i] + [item]], contents[k := item], getKey, hash)
      && Count(buckets[i := buckets[i] + [item]]) == Count(buckets) + 1
  {
    var k := getKey(item);
    var i := hash(k) % |buckets|;
    AppendDistinct(buckets[i], item);
    CountUpdate(buckets, i, buckets[i] + [item]);
  }

  lemma AppendComplete<Key, T>(buckets: seq<seq<T>>, contents: map<Key, T>, getKey: T -> Key, hash: Key -> nat, item: T)
    requires Complete(buckets, contents, getKey, hash)
    ensures var k := getKey(item); var i := hash(k) % |buckets|;
      Complete(buckets[i := buckets[i] + [item]], contents[k := item], getKey, hash)
  {
  }

  // Removing leaves the rest of the entries in their buckets.
  lemma RemoveSound<Key, T>(buckets: seq<seq<T>>, contents: map<Key, T>, getKey: T -> Key, hash: Key -> nat, k: Key,
                            i: nat, b: seq<T>)
    requires Sound(buckets, contents, getKey, hash) && k in contents && getKey(contents[k]) == k
    requires i == hash(k) % |buckets| && Distinct(b) && forall y :: y in b <==> y in buckets[i] && y != contents[k]
    ensures Sound(buckets[i := b], contents - {k}, getKey, hash)
  {
    var bs, v := buckets[i := b], contents[k];
    hide Distinct;
    forall j, x | 0 <= j < |bs| && x in bs[j]
      ensures getKey(x) in contents - {k} && (contents - {k})[getKey(x)] == x && hash(getKey(x)) % |bs| == j
    {
      assert x in buckets[j];
      assert getKey(x) == k ==> j == i && x == v;
    }
  }

  lemma RemoveComplete<Key, T>(buckets: seq<seq<T>>, contents: map<Key, T>, getKey: T -> Key, hash: Key -> nat, k: Key,
                               i: nat, b: seq<T>)
    requires Complete(buckets, contents, getKey, hash) && k in contents
    requires i == hash(k) % |buckets| && forall y :: y in b <==> y in buckets[i] && y != contents[k]
    ensures Complete(buckets[i := b], contents - {k}, getKey, hash)
  {
  }

  // ----- moving to a larger array, item by item -----

  /** During ReHash: every entry is either still in the old buckets or already in the
      new ones, never in both. */
  ghost predicate Moving<Key, T>(from: seq<seq<T>>, to: seq<seq<T>>, contents: map<Key, T>, getKey: T -> Key,
          hash: Key -> nat) {
    && Sound(from, contents, getKey, hash) && Sound(to, contents, getKey, hash)
    && (forall k :: k in contents ==>
         getKey(contents[k]) == k && (contents[k] in from[hash(k) % |from|] <==> contents[k] !in to[hash(k) % |to|]))
  }

  lemma MoveOne<Key, T>(from: seq<seq<T>>, to: seq<seq<T>>, contents: map<Key, T>, getKey: T -> Key,
          hash: Key -> nat, i: nat)
    requires Moving(from, to, contents, getKey, hash) && i < |from| && from[i] != []
    ensures var item := from[i][0]; var j := hash(getKey(item)) % |to|;
      && Moving(from[i := from[i][1..]], to[j := to[j] + [item]], contents, getKey, hash)
      && Count(from[i := from[i][1..]]) + Count(to[j := to[j] + [item]]) == Count(from) + Count(to)
  {
    var item := from[i][0];
    var k := getKey(item);
    assert item in from[i] && contents[k] == item;
    AppendSound(to, contents, getKey, hash, item);
    assert contents[k := item] == contents;
    CountUpdate(from, i, from[i][1..]);
    assert from[i] == [item] + from[i][1..];
    assert forall y :: y in from[i][1..] <==> y in from[i] && y != item;
    hide Count;
  }

  class HashTable<Key(==), T(==)> {
    const getKey: T -> Key
    const hash: Key -> nat
    var buckets: seq<seq<T>>
    var numBuckets: nat
    var numItems: nat
    ghost var contents: map<Key, T>

    /** contents is the map the table stands for. */
    ghost predicate Valid()
      reads this
    {
      && numBuckets == |buckets| > 0 && numItems == Count(buckets)
      && Sound(buckets, contents, getKey, hash) && Complete(buckets, contents, getKey, hash)
      && numItems <= RESIZE_RATIO * numBuckets
    }

    constructor (get: T -> Key, hFunc: Key -> nat)
      ensures Valid() && contents == map[] && getKey == get && hash == hFunc
    {
      getKey := get;
      hash := hFunc;
      numItems := 0;
      numBuckets := INITIAL_BUCKETS;
      buckets := seq(INITIAL_BUCKETS, _ => []);
      contents := map[];
      new;
      CountEmpty(buckets);
    }

    function HashValue(key: Key): (i: nat)
      requires numBuckets > 0
      reads this
      ensures i < numBuckets
    {
      hash(key) % numBuckets
    }

    method Find(key: Key) returns (r: Option<T>)
      requires Valid()
      ensures r == if key in contents then Some(contents[key]) else None
    {
      hide Count;
      var b := buckets[HashValue(key)];
      for i := 0 to |b|
        invariant forall j :: 0 <= j < i ==> getKey(b[j]) != key
      {
        if key == getKey(b[i]) {
          assert b[i] in b;
          return Some(b[i]);
        }
      }
      return None;
    }

    /** The ASSERTs pass exactly when every item is in the bucket its key hashes to and
        the count is right; on a legal table they do. */
    method SanityCheck() returns (ok: bool)
      requires numBuckets == |buckets| > 0
      ensures ok <==> InPlace(buckets, getKey, hash) && numItems == Count(buckets)
      ensures Sound(buckets, contents, getKey, hash) && numItems == Count(buckets) ==> ok
    {
      if Sound(buckets, contents, getKey, hash) { SoundInPlace(buckets, contents, getKey, hash); }
      var numFound, i := 0, 0;
      assert buckets[0..] == buckets;
      while i < numBuckets
        invariant 0 <= i <= numBuckets
        invariant numFound + Count(buckets[i..]) == Count(buckets)
        invariant forall k, l :: 0 <= k < i && 0 <= l < |buckets[k]| ==> hash(getKey(buckets[k][l])) % numBuckets == k
      {
        numFound := numFound + |buckets[i]|;
        for j := 0 to |buckets[i]|
          invariant forall l :: 0 <= l < j ==> hash(getKey(buckets[i][l])) % numBuckets == i
        {
          if i != HashValue(getKey(buckets[i][j])) {
            return false;
          }
        }
        i := i + 1;
      }
      return numItems == numFound;
    }

    /** The same map in four times as many buckets. */
    method ReHash()
      requires Valid()
      modifies `buckets, `numBuckets
      ensures 0 < numBuckets == |buckets| == INCREASE_SIZE_BY * old(numBuckets) && numItems == Count(buckets)
      ensures Sound(buckets, contents, getKey, hash) && Complete(buckets, contents, getKey, hash)
    {
      hide Sound, Count;
      var oldTable, oldSize := buckets, numBuckets;
      var ok := SanityCheck();
      assert ok;
      numBuckets := numBuckets * INCREASE_SIZE_BY;
      buckets := seq(numBuckets, _ => []);
      MoveStart(oldTable, buckets, contents, getKey, hash);
      var i := 0;
      while i < oldSize
        invariant 0 <= i <= oldSize == |oldTable| && |buckets| == numBuckets == INCREASE_SIZE_BY * oldSize
        invariant Moving(oldTable, buckets, contents, getKey, hash)
        invariant Count(oldTable) + Count(buckets) == numItems
        invariant forall j :: 0 <= j < i ==> oldTable[j] == []
      {
        while oldTable[i] != []
          invariant |oldTable| == oldSize && |buckets| == numBuckets == INCREASE_SIZE_BY * oldSize
          invariant Moving(oldTable, buckets, contents, getKey, hash)
          invariant Count(oldTable) + Count(buckets) == numItems
          invariant forall j :: 0 <= j < i ==> oldTable[j] == []
          decreases |oldTable[i]|
        {
          MoveOne(oldTable, buckets, contents, getKey, hash, i);
          var item := oldTable[i][0];
          oldTable := oldTable[i := oldTable[i][1..]];
          var j := HashValue(getKey(item));
          buckets := buckets[j := buckets[j] + [item]];
        }
        i := i + 1;
      }
      CountEmpty(oldTable);
      MoveEnd(oldTable, buckets, contents, getKey, hash);
      ok := SanityCheck();
      assert ok;
    }

    method Insert(item: T)
      requires Valid() && getKey(item) !in contents
      modifies this
      ensures Valid() && contents == old(contents)[getKey(item) := item]
    {
      hide Count, Sound, Complete;
      var key := getKey(item);
      if numItems / numBuckets >= RESIZE_RATIO {
        ReHash();
      }
      NotThere(buckets, contents, getKey, hash, item);
      AppendSound(buckets, contents, getKey, hash, item);
      AppendComplete(buckets, contents, getKey, hash, item);
      var i := HashValue(key);
      buckets := buckets[i := buckets[i] + [item]];
      numItems := numItems + 1;
      contents := contents[key := item];
    }

    method Remove(key: Key) returns (item: T)
      requires Valid() && key in contents
      modifies this
      ensures Valid() && item == old(contents)[key] && contents == old(contents) - {key}
    {
      hide Count, Sound, Complete, Distinct, Without;
      var found := Find(key);
      item := found.value;
      var i := HashValue(key);
      InItsBucket(buckets, contents, getKey, hash, key);
      ghost var b := Without(buckets[i], item);
      WithoutItems(buckets[i], item);
      CountUpdate(buckets, i, b);
      RemoveSound(buckets, contents, getKey, hash, key, i, b);
      RemoveComplete(buckets, contents, getKey, hash, key, i, b);
      buckets := buckets[i := Without(buckets[i], item)];
      numItems := numItems - 1;
      contents := contents - {key};
    }
  }

  lemma NotThere<Key, T>(buckets: seq<seq<T>>, contents: map<Key, T>, getKey: T -> Key, hash: Key -> nat, item: T)
    requires Sound(buckets, contents, getKey, hash) && getKey(item) !in contents
    ensures |buckets| > 0 && item !in buckets[hash(getKey(item)) % |buckets|]
  {
  }

  lemma InItsBucket<Key, T>(buckets: seq<seq<T>>, contents: map<Key, T>, getKey: T -> Key, hash: Key -> nat, k: Key)
    requires Sound(buckets, contents, getKey, hash) && Complete(buckets, contents, getKey, hash) && k in contents
    ensures getKey(contents[k]) == k
    ensures var b := buckets[hash(k) % |buckets|]; contents[k] in b && Distinct(b)
  {
  }

  // ----- HashIterator -----

  // The items in the order the iterator meets them.
  function Flat<T>(buckets: seq<seq<T>>): seq<T> {
    if buckets == [] then [] else buckets[0] + Flat(buckets[1..])
  }

  lemma {:induction false} FlatItems<T>(buckets: seq<seq<T>>, x: T)
    ensures x in Flat(buckets) <==> exists i :: 0 <= i < |buckets| && x in buckets[i]
  {
    if buckets != [] {
      var rest := buckets[1..];
      FlatItems(rest, x);
      assert x in Flat(buckets) <==> x in buckets[0] || x in Flat(rest);
      hide Flat;
      if x in Flat(rest) {
        var i :| 0 <= i < |rest| && x in rest[i];
        assert buckets[i + 1] == rest[i];
      }
      if i :| 0 < i < |buckets| && x in buckets[i] {
        assert rest[i - 1] == buckets[i];
      }
    }
  }

  lemma {:induction false} FlatLength<T>(buckets: seq<seq<T>>)
    ensures |Flat(buckets)| == Count(buckets)
  {
    if buckets != [] { FlatLength(buckets[1..]); }
  }

  // The items of different buckets hash differently.
  ghost predicate Disjoint<T>(buckets: seq<seq<T>>) {
    && (forall i :: 0 <= i < |buckets| ==> Distinct(buckets[i]))
    && (forall i, j, x :: 0 <= i < j < |buckets| && x in buckets[i] ==> x !in buckets[j])
  }

  lemma {:induction false} FlatDistinct<T>(buckets: seq<seq<T>>)
    requires Disjoint(buckets)
    ensures Distinct(Flat(buckets))
  {
    if buckets != [] {
      var rest := buckets[1..];
      assert forall i :: 0 <= i < |rest| ==> rest[i] == buckets[i + 1];
      FlatDistinct(rest);
      forall x | x in buckets[0]
        ensures x !in Flat(rest)
      {
        FlatItems(rest, x);
      }
      ConcatDistinct(buckets[0], Flat(rest));
    }
  }

  lemma ConcatDistinct<T>(s: seq<T>, t: seq<T>)
    requires Distinct(s) && Distinct(t) && forall x :: x in s ==> x !in t
    ensures Distinct(s + t)
  {
    var r := s + t;
    forall i, j | 0 <= i < j < |r|
      ensures r[i] != r[j]
    {
      if i < |s| <= j {
        assert r[i] in s && r[j] in t;
      }
    }
  }

  /** What the iterator runs through: each item of the map exactly once. */
  lemma FlatIsContents<Key, T>(buckets: seq<seq<T>>, contents: map<Key, T>, getKey: T -> Key, hash: Key -> nat, x: T)
    requires Sound(buckets, contents, getKey, hash) && Complete(buckets, contents, getKey, hash)
    ensures Distinct(Flat(buckets)) && |Flat(buckets)| == Count(buckets)
    ensures x in Flat(buckets) <==> getKey(x) in contents && contents[getKey(x)] == x
  {
    FlatItems(buckets, x);
    FlatLength(buckets);
    forall i, j, y | 0 <= i < j < |buckets| && y in buckets[i]
      ensures y !in buckets[j]
    {
      assert hash(getKey(y)) % |buckets| == i;
    }
    FlatDistinct(buckets);
    if getKey(x) in contents && contents[getKey(x)] == x {
      assert x in buckets[hash(getKey(x)) % |buckets|];
    }
  }

  lemma FlatNone<T>(buckets: seq<seq<T>>)
    requires buckets == []
    ensures Flat(buckets) == []
  {
  }

  lemma FlatStep<T>(buckets: seq<seq<T>>, i: nat)
    requires i < |buckets|
    ensures Flat(buckets[i..]) == buckets[i] + Flat(buckets[i + 1..])
  {
    assert buckets[i..][1..] == buckets[i + 1..];
  }

  class HashIterator<Key(==), T(==)> {
    const table: HashTable<Key, T>
    var bucket: nat
    var bucketIter: nat  // the position in that bucket

    ghost predicate Valid()
      reads this, table
    {
      && table.numBuckets == |table.buckets| && bucket <= table.numBuckets
      && (bucket < table.numBuckets ==> bucketIter < |table.buckets[bucket]|)
    }

    // The items still to come, the current one first.
    ghost function Remaining(): seq<T>
      requires Valid()
      reads this, table
    {
      if bucket == table.numBuckets then []
      else table.buckets[bucket][bucketIter..] + Flat(table.buckets[bucket + 1..])
    }

    method FindNextFullBucket(start: nat) returns (b: nat)
      requires table.numBuckets == |table.buckets| && start <= table.numBuckets
      ensures start <= b <= table.numBuckets
      ensures b < table.numBuckets ==> table.buckets[b] != []
      ensures Flat(table.buckets[start..]) == Flat(table.buckets[b..])
    {
      b := start;
      while b < table.numBuckets && table.buckets[b] == []
        invariant start <= b <= table.numBuckets
        invariant Flat(table.buckets[start..]) == Flat(table.buckets[b..])
      {
        FlatStep(table.buckets, b);
        b := b + 1;
      }
    }

    constructor (tbl: HashTable<Key, T>)
      requires tbl.Valid()
      ensures table == tbl && Valid() && Remaining() == Flat(tbl.buckets)
    {
      table := tbl;
      bucketIter := 0;
      bucket := 0;
      new;
      assert tbl.buckets[0..] == tbl.buckets;
      EnterBucket(0);
    }

    method IsDone() returns (done: bool)
      requires Valid()
      ensures done <==> Remaining() == []
    {
      done := bucket == table.numBuckets;
    }

    method Item() returns (item: T)
      requires Valid() && Remaining() != []
      ensures item == Remaining()[0]
    {
      item := table.buckets[bucket][bucketIter];
    }

    method Next()
      requires Valid() && Remaining() != []
      modifies this
      ensures Valid() && Remaining() == old(Remaining())[1..]
    {
      hide Flat;
      TailConcat(table.buckets[bucket], bucketIter, Flat(table.buckets[bucket + 1..]));
      bucketIter := bucketIter + 1;
      if bucketIter == |table.buckets[bucket]| {
        EnterBucket(bucket + 1);
      }
    }

    // Goes to the first item of the next full bucket from start on.
    method EnterBucket(start: nat)
      requires table.numBuckets == |table.buckets| && start <= table.numBuckets
      modifies this
      ensures Valid() && Remaining() == Flat(table.buckets[start..])
    {
      hide Flat;
      bucketIter := 0;
      bucket := FindNextFullBucket(start);
      if bucket < table.numBuckets {
        FlatStep(table.buckets, bucket);
      } else {
        FlatNone(table.buckets[bucket..]);
      }
    }
  }

  lemma TailConcat<T>(b: seq<T>, i: nat, rest: seq<T>)
    requires i < |b|
    ensures (b[i..] + rest)[1..] == b[i + 1..] + rest
    ensures i + 1 == |b| ==> (b[i..] + rest)[1..] == rest
  {
  }

  lemma MoveStart<Key, T>(from: seq<seq<T>>, to: seq<seq<T>>, contents: map<Key, T>, getKey: T -> Key, hash: Key -> nat)
    requires Sound(from, contents, getKey, hash) && Complete(from, contents, getKey, hash)
    requires |to| > 0 && forall i :: 0 <= i < |to| ==> to[i] == []
    ensures Moving(from, to, contents, getKey, hash) && Count(to) == 0
  {
    CountEmpty(to);
  }

  lemma MoveEnd<Key, T>(from: seq<seq<T>>, to: seq<seq<T>>, contents: map<Key, T>, getKey: T -> Key, hash: Key -> nat)
    requires Moving(from, to, contents, getKey, hash)
    requires forall i :: 0 <= i < |from| ==> from[i] == []
    ensures Sound(to, contents, getKey, hash) && Complete(to, contents, getKey, hash)
  {
  }
}
