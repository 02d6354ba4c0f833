/**
 * Frequency mappings (record value -> occurrence count): counting records one
 * by one as both read loops do, the merge the parallel strategy applies through
 * AddOrUpdate, and the (distinct, singleton) summary both strategies report.
 */
module Frequency {
  import opened RecordFormat

  /** A frequency mapping. Counts are unbounded here; the source uses `int`. */
  type FreqMap = map<U32, nat>

  /** The pair returned by both strategies. */
  datatype Counts = Counts(unique: nat, onlyOnce: nat)

  /** The count of v in m, 0 when v is absent (TryGetValue failing). */
  function Get(m: FreqMap, v: U32): nat
  {
    if v in m then m[v] else 0
  }

  /** `map[v] = map.TryGetValue(v, out c) ? c + 1 : 1`: one record counted. */
  function Increment(m: FreqMap, v: U32): (r: FreqMap)
    ensures v in r && r[v] == Get(m, v) + 1
  {
    m[v := if v in m then m[v] + 1 else 1]
  }

  /** Counting one record changes only that record's key, by one. */
  lemma IncrementChangesOneKey(m: FreqMap, v: U32)
    ensures Increment(m, v).Keys == m.Keys + {v}
    ensures Increment(m, v)[v] == Get(m, v) + 1
    ensures forall u :: u in m && u != v ==> Increment(m, v)[u] == m[u]
  {
  }

  /**
   * The mapping built by counting the n records that start at byte offset lo,
   * one after another, starting from an empty mapping.
   */
  function CountRecords(file: seq<Byte>, lo: nat, n: nat): FreqMap
    requires lo + 4 * n <= |file|
  {
    if n == 0 then map[] else Increment(CountRecords(file, lo, n - 1), DecodeAt(file, lo + 4 * (n - 1)))
  }

  /**
   * The for-loop both read loops run over a buffer just read: each four bytes
   * are decoded and counted, so a mapping that counted the records of
   * file[lo..pos) goes on to count those of the buffer too.
   */
  method CountBlock(file: seq<Byte>, lo: nat, pos: nat, buffer: seq<Byte>, freq0: FreqMap, ghost done: nat)
    returns (freq: FreqMap, ghost counted: nat)
    requires pos == lo + 4 * done && |buffer| % 4 == 0 && pos + |buffer| <= |file|
    requires buffer == file[pos..pos + |buffer|]
    requires freq0 == CountRecords(file, lo, done)
    ensures pos + |buffer| == lo + 4 * counted
    ensures freq == CountRecords(file, lo, counted)
  {
    ghost var m := |buffer| / 4;
    assert |buffer| == 4 * m;
    freq := freq0;
    var i: nat := 0;
    ghost var j: nat := 0;
    while i < |buffer|
      invariant i == 4 * j && j <= m
      invariant freq == CountRecords(file, lo, done + j)
    {
      var number := DecodeAt(buffer, i);
      assert number == DecodeAt(file, lo + 4 * (done + j));
      freq := Increment(freq, number);
      assert freq == CountRecords(file, lo, done + j + 1);
      i := i + 4;
      j := j + 1;
    }
    assert j == m;
    counted := done + j;
  }

  /** The frequency mapping that describes a multiset of records. */
  ghost function Freq(bag: multiset<U32>): FreqMap
  {
    map v | v in bag :: bag[v]
  }

  lemma IncrementFreq(bag: multiset<U32>, v: U32)
    ensures Increment(Freq(bag), v) == Freq(bag + multiset{v})
  {
    var l, r := Increment(Freq(bag), v), Freq(bag + multiset{v});
    assert l.Keys == r.Keys;
  }

  /** Counting records is the frequency mapping of the multiset of those records. */
  lemma {:induction false} CountRecordsIsFreq(file: seq<Byte>, lo: nat, n: nat)
    requires lo + 4 * n <= |file|
    ensures CountRecords(file, lo, n) == Freq(multiset(RecordsIn(file, lo, n)))
  {
    if n != 0 {
      var v := DecodeAt(file, lo + 4 * (n - 1));
      var bag := multiset(RecordsIn(file, lo, n - 1));
      assert multiset(RecordsIn(file, lo, n)) == bag + multiset{v};
      CountRecordsIsFreq(file, lo, n - 1);
      IncrementFreq(bag, v);
    }
  }

  /** Counting a whole file of records is the frequency mapping of its records. */
  lemma CountWholeFile(file: seq<Byte>)
    requires |file| % 4 == 0
    ensures CountRecords(file, 0, |file| / 4) == Freq(multiset(Records(file)))
  {
    CountRecordsIsFreq(file, 0, |file| / 4);
    RecordsInWhole(file);
  }

  /**
   * After counting, the keys are exactly the values that occur among the
   * records and each key maps to the number of records equal to it.
   */
  lemma CountRecordsCounts(file: seq<Byte>, lo: nat, n: nat)
    requires lo + 4 * n <= |file|
    ensures forall v :: v in CountRecords(file, lo, n) <==> v in RecordsIn(file, lo, n)
    ensures forall v :: v in CountRecords(file, lo, n) ==> CountRecords(file, lo, n)[v] == multiset(RecordsIn(file, lo, n))[v]
  {
    CountRecordsIsFreq(file, lo, n);
  }

  /**
   * AddOrUpdate of every (key, count) of `local` into `shared`: absent keys are
   * inserted with the local count, present keys grow by it.
   */
  function Merge(shared: FreqMap, local: FreqMap): (r: FreqMap)
    ensures r.Keys == shared.Keys + local.Keys
    ensures forall v :: v in local ==> r[v] == Get(shared, v) + local[v]
    ensures forall v :: v in shared && v !in local ==> r[v] == shared[v]
  {
    map v | v in shared.Keys + local.Keys :: Get(shared, v) + Get(local, v)
  }

  /** ConcurrentDictionary.AddOrUpdate(key, value, (k, old) => old + value). */
  function AddOrUpdate(m: FreqMap, key: U32, value: nat): (r: FreqMap)
    ensures r.Keys == m.Keys + {key}
    ensures r[key] == Get(m, key) + value
    ensures forall v :: v in m && v != key ==> r[v] == m[v]
  {
    m[key := if key in m then m[key] + value else value]
  }

  /** The part of m whose keys are not in `pending`. */
  function Without(m: FreqMap, pending: set<U32>): (r: FreqMap)
    ensures r.Keys == m.Keys - pending
    ensures forall v :: v in r ==> r[v] == m[v]
  {
    map v | v in m && v !in pending :: m[v]
  }

  /** Merging one more key of `local` is one AddOrUpdate. */
  lemma MergeOneMore(shared: FreqMap, local: FreqMap, pending: set<U32>, key: U32)
    requires key in local && key in pending
    ensures Merge(shared, Without(local, pending - {key}))
         == AddOrUpdate(Merge(shared, Without(local, pending)), key, local[key])
  {
    var l := Merge(shared, Without(local, pending - {key}));
    var r := AddOrUpdate(Merge(shared, Without(local, pending)), key, local[key]);
    assert l.Keys == r.Keys;
  }

  /** Nothing left out is the whole mapping; everything left out is the empty one. */
  lemma WithoutEnds(m: FreqMap)
    ensures Without(m, {}) == m && Without(m, m.Keys) == map[]
  {
  }

  lemma MergeCommutes(a: FreqMap, b: FreqMap)
    ensures Merge(a, b) == Merge(b, a)
  {
  }

  lemma MergeAssociates(a: FreqMap, b: FreqMap, c: FreqMap)
    ensures Merge(Merge(a, b), c) == Merge(a, Merge(b, c))
  {
  }

  lemma MergeEmpty(a: FreqMap)
    ensures Merge(map[], a) == a && Merge(a, map[]) == a
  {
  }

  /** Merging the mappings of two bags gives the mapping of their union. */
  lemma MergeFreq(a: multiset<U32>, b: multiset<U32>)
    ensures Merge(Freq(a), Freq(b)) == Freq(a + b)
  {
    var l, r := Merge(Freq(a), Freq(b)), Freq(a + b);
    assert l.Keys == r.Keys;
  }

  lemma {:induction false} SubsetCardinality(a: set<U32>, b: set<U32>)
    requires a <= b
    ensures |a| <= |b|
  {
    if a != {} {
      var x :| x in a;
      SubsetCardinality(a - {x}, b - {x});
    }
  }

  /** The values of m that occur exactly once. */
  function Singletons(m: FreqMap): set<U32>
  {
    set v | v in m && m[v] == 1
  }

  /**
   * uniqueNumbersCount = frequencyCountMap.Count and
   * onlyOnceNumbersCount = frequencyCountMap.Values.Count(v => v == 1).
   */
  function Summary(m: FreqMap): (c: Counts)
    ensures c.onlyOnce <= c.unique
    ensures c.unique == 0 <==> m == map[]
  {
    var once := Singletons(m);
    SubsetCardinality(once, m.Keys);
    assert m != map[] ==> exists v :: v in m.Keys;
    Counts(|m|, |once|)
  }

  /** Counting a value not seen before adds one distinct value and one singleton. */
  lemma SummaryIncrementAbsent(m: FreqMap, v: U32)
    requires v !in m
    ensures Summary(Increment(m, v)).unique == Summary(m).unique + 1
    ensures Summary(Increment(m, v)).onlyOnce == Summary(m).onlyOnce + 1
  {
    var m' := Increment(m, v);
    assert |m'| == |m| + 1;
    var once, once' := Singletons(m), Singletons(m');
    assert once' == once + {v} by {
      forall u ensures u in once' <==> u in once + {v} {
        if u != v {
          assert u in m' <==> u in m;
        }
      }
    }
    assert |once'| == |once| + 1 by {
      assert v !in once;
    }
  }

  /** A sequence of pairwise different values. */
  predicate Distinct(vs: seq<U32>)
  {
    forall i, j :: 0 <= i < j < |vs| ==> vs[i] != vs[j]
  }

  /** n pairwise different values: n distinct values, each seen exactly once. */
  lemma {:induction false} DistinctCounts(vs: seq<U32>)
    requires Distinct(vs)
    ensures Summary(Freq(multiset(vs))) == Counts(|vs|, |vs|)
  {
    if vs != [] {
      var init, v := vs[..|vs| - 1], vs[|vs| - 1];
      assert vs == init + [v];
      assert Distinct(init);
      DistinctCounts(init);
      assert v !in multiset(init);
      IncrementFreq(multiset(init), v);
      SummaryIncrementAbsent(Freq(multiset(init)), v);
    }
  }
}
