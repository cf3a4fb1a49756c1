/**
 * Counting occurrences in the way `LogAnalyzer.analyze_logs` does with a
 * `defaultdict(int)`: a dictionary whose keys iterate in the order they were
 * first inserted. `Tally` is that dictionary; `Count`, `Distinct` and
 * `FirstPos` say independently what it should hold after a sequence of
 * increments.
 */
module Counting {

  // ---------------------------------------------------------------- reference definitions

  /** How often `x` occurs in `xs`. */
  function Count<K(==,!new)>(xs: seq<K>, x: K): nat
  {
    if xs == [] then 0
    else Count(xs[..|xs| - 1], x) + (if xs[|xs| - 1] == x then 1 else 0)
  }

  /** The elements of `xs` without repetition, in the order of their first occurrence. */
  function Distinct<K(==,!new)>(xs: seq<K>): (d: seq<K>)
    ensures forall y :: y in d <==> y in xs
    ensures forall i, j :: 0 <= i < j < |d| ==> d[i] != d[j]
  {
    if xs == [] then []
    else
      var init, last := xs[..|xs| - 1], xs[|xs| - 1];
      assert xs == init + [last];
      var d := Distinct(init);
      if last in d then d else d + [last]
  }

  /** The position of the first occurrence of `x` in `xs`. */
  function FirstPos<K(==,!new)>(xs: seq<K>, x: K): (p: nat)
    requires x in xs
    ensures p < |xs| && xs[p] == x
    ensures forall i :: 0 <= i < p ==> xs[i] != x
  {
    var init := xs[..|xs| - 1];
    if x in init then FirstPos(init, x) else |xs| - 1
  }

  /** Each element of `xs` mapped to its number of occurrences. */
  function CountMap<K(==,!new)>(xs: seq<K>): (m: map<K, int>)
    ensures forall x :: x in m <==> x in xs
  {
    map x | x in xs :: Count(xs, x)
  }

  // ---------------------------------------------------------------- the dictionary

  /** A `defaultdict(int)`: keys in insertion order and the value of each. */
  datatype Tally<K(==,!new)> = Tally(order: seq<K>, count: map<K, int>)
  {
    /** The keys listed once each, exactly the keys of the map, each with a positive value. */
    predicate Valid() {
      (forall k :: k in order ==> k in count) && (forall k :: k in count ==> k in order)
      && (forall i, j :: 0 <= i < j < |order| ==> order[i] != order[j])
      && (forall k :: k in count ==> count[k] >= 1)
    }

    /** `d[k] += 1`: a missing key is inserted at the end with value 1. */
    function Add(k: K): (t: Tally<K>)
      ensures k in t.count && t.count[k] == (if k in count then count[k] else 0) + 1
      ensures forall j :: j != k ==> (j in t.count <==> j in count) && (j in count ==> t.count[j] == count[j])
      ensures t.order == if k in count then order else order + [k]
      ensures Valid() ==> t.Valid()
    {
      if k in count then Tally(order, count[k := count[k] + 1])
      else Tally(order + [k], count[k := 1])
    }

    /**
     * `k` is what Python's `max(d, key=d.get)` returns: the first key, in
     * iteration order, whose value is not exceeded by any other.
     */
    ghost predicate IsFirstMax(k: K)
      requires Valid()
    {
      exists i :: 0 <= i < |order| && order[i] == k
        && (forall j :: 0 <= j < |order| ==> count[order[j]] <= count[k])
        && (forall j :: 0 <= j < i ==> count[order[j]] < count[k])
    }

    /** The sum of the values, `sum(d.values())`. */
    function Total(): int
      requires Valid()
    {
      SumOver(order, count)
    }
  }

  function SumOver<K(==,!new)>(keys: seq<K>, m: map<K, int>): int
    requires forall k :: k in keys ==> k in m
  {
    if keys == [] then 0 else SumOver(keys[..|keys| - 1], m) + m[keys[|keys| - 1]]
  }

  /** What a dictionary holds after counting `xs` from an empty one, by the reference definitions. */
  function TallyOf<K(==,!new)>(xs: seq<K>): Tally<K>
  {
    Tally(Distinct(xs), CountMap(xs))
  }

  // ---------------------------------------------------------------- lemmas

  lemma {:induction false} CountAbsent<K(!new)>(xs: seq<K>, x: K)
    requires x !in xs
    ensures Count(xs, x) == 0
  {
    if xs != [] {
      assert xs == xs[..|xs| - 1] + [xs[|xs| - 1]];
      CountAbsent(xs[..|xs| - 1], x);
    }
  }

  lemma {:induction false} CountPresent<K(!new)>(xs: seq<K>, x: K)
    requires x in xs
    ensures Count(xs, x) >= 1
  {
    var init := xs[..|xs| - 1];
    assert xs == init + [xs[|xs| - 1]];
    if x in init {
      CountPresent(init, x);
    }
  }

  /** The reference dictionary is a valid one. */
  lemma TallyOfValid<K(!new)>(xs: seq<K>)
    ensures TallyOf(xs).Valid()
  {
    forall x | x in xs ensures Count(xs, x) >= 1 {
      CountPresent(xs, x);
    }
  }

  /** Counting one more element is one `Add` on the dictionary. */
  lemma TallyOfSnoc<K(!new)>(xs: seq<K>, x: K)
    ensures TallyOf(xs + [x]) == TallyOf(xs).Add(x)
  {
    var ys := xs + [x];
    assert ys[..|ys| - 1] == xs;
    var before, after := CountMap(xs), CountMap(ys);
    var added := TallyOf(xs).Add(x).count;
    forall y | y in after ensures y in added && after[y] == added[y] {
      assert Count(ys, y) == Count(xs, y) + (if x == y then 1 else 0);
      if y == x && x !in xs {
        CountAbsent(xs, x);
      }
    }
    forall y | y in added ensures y in after {
      assert y in xs || y == x;
    }
    assert after == added;
  }

  lemma TallyOfEmpty<K(!new)>()
    ensures TallyOf<K>([]) == Tally([], map[])
  {
  }

  lemma {:induction false} SumOverAgree<K(!new)>(keys: seq<K>, m1: map<K, int>, m2: map<K, int>)
    requires forall k :: k in keys ==> k in m1 && k in m2 && m1[k] == m2[k]
    ensures SumOver(keys, m1) == SumOver(keys, m2)
  {
    if keys != [] {
      SumOverAgree(keys[..|keys| - 1], m1, m2);
    }
  }

  /** Adding one to the value of a key listed once adds one to the sum. */
  lemma {:induction false} SumOverBump<K(!new)>(keys: seq<K>, m: map<K, int>, x: K)
    requires forall k :: k in keys ==> k in m
    requires forall i, j :: 0 <= i < j < |keys| ==> keys[i] != keys[j]
    requires x in keys
    ensures SumOver(keys, m[x := m[x] + 1]) == SumOver(keys, m) + 1
  {
    var init, last := keys[..|keys| - 1], keys[|keys| - 1];
    assert keys == init + [last];
    if last == x {
      assert x !in init;
      SumOverAgree(init, m[x := m[x] + 1], m);
    } else {
      SumOverBump(init, m, x);
    }
  }

  /** Incrementing a key already present adds one to the sum of the values. */
  lemma AddPresentTotal<K(!new)>(t: Tally<K>, x: K)
    requires t.Valid() && x in t.count
    ensures t.Add(x).Total() == t.Total() + 1
  {
    SumOverBump(t.order, t.count, x);
  }

  /** Inserting a new key with value 1 adds one to the sum of the values. */
  lemma AddAbsentTotal<K(!new)>(t: Tally<K>, x: K)
    requires t.Valid() && x !in t.count
    ensures t.Add(x).Total() == t.Total() + 1
  {
    var d, m := t.order + [x], t.count[x := 1];
    assert d[..|d| - 1] == t.order;
    SumOverAgree(t.order, m, t.count);
  }

  /** `d[k] += 1` keeps the dictionary valid and adds one to the sum of the values. */
  lemma AddTotal<K(!new)>(t: Tally<K>, x: K)
    requires t.Valid()
    ensures t.Add(x).Valid() && t.Add(x).Total() == t.Total() + 1
  {
    if x in t.count {
      AddPresentTotal(t, x);
    } else {
      AddAbsentTotal(t, x);
    }
  }

  /** The values of a dictionary counting `xs` add up to the length of `xs`. */
  lemma {:induction false} TotalIsLength<K(!new)>(xs: seq<K>)
    ensures TallyOf(xs).Valid() && TallyOf(xs).Total() == |xs|
  {
    if xs == [] {
      TallyOfEmpty<K>();
    } else {
      var init, x := xs[..|xs| - 1], xs[|xs| - 1];
      assert xs == init + [x];
      TotalIsLength(init);
      TallyOfSnoc(init, x);
      AddTotal(TallyOf(init), x);
    }
  }

  // ---------------------------------------------------------------- the most frequent element

  /**
   * `x` occurs in `xs` at least as often as any other element, and among the
   * elements that occur equally often it is the one that occurs first.
   */
  ghost predicate IsMostFrequent<K(!new)>(xs: seq<K>, x: K) {
    x in xs
    && forall y :: y in xs ==>
         Count(xs, y) < Count(xs, x) || (Count(xs, y) == Count(xs, x) && FirstPos(xs, x) <= FirstPos(xs, y))
  }

  lemma FirstPosOfPrefix<K(!new)>(xs: seq<K>, x: K, y: K)
    requires y in xs
    ensures FirstPos(xs + [x], y) == FirstPos(xs, y)
  {
    var ys := xs + [x];
    assert ys[..|ys| - 1] == xs;
  }

  /** The keys of a counting dictionary iterate in the order of their first occurrence. */
  lemma {:induction false} DistinctInFirstOccurrenceOrder<K(!new)>(xs: seq<K>, i: nat, j: nat)
    requires i < j < |Distinct(xs)|
    ensures FirstPos(xs, Distinct(xs)[i]) < FirstPos(xs, Distinct(xs)[j])
  {
    var init, x := xs[..|xs| - 1], xs[|xs| - 1];
    assert xs == init + [x];
    var d0, d := Distinct(init), Distinct(xs);
    assert d[i] in init && d[i] == d0[i];
    FirstPosOfPrefix(init, x, d[i]);
    if j < |d0| {
      assert d[j] == d0[j];
      FirstPosOfPrefix(init, x, d[j]);
      DistinctInFirstOccurrenceOrder(init, i, j);
    } else {
      assert d[j] == x && x !in init;
    }
  }

  /** At most one element is the most frequent one. */
  lemma MostFrequentUnique<K(!new)>(xs: seq<K>, x: K, y: K)
    requires IsMostFrequent(xs, x) && IsMostFrequent(xs, y)
    ensures x == y
  {
    assert FirstPos(xs, x) == FirstPos(xs, y);
  }

  /** What `max` picks from the counting dictionary of `xs` is the most frequent element of `xs`. */
  lemma FirstMaxIsMostFrequent<K(!new)>(xs: seq<K>, k: K)
    requires TallyOf(xs).Valid() && TallyOf(xs).IsFirstMax(k)
    ensures IsMostFrequent(xs, k)
  {
    var d, m := Distinct(xs), CountMap(xs);
    var i :| 0 <= i < |d| && d[i] == k
        && (forall j :: 0 <= j < |d| ==> m[d[j]] <= m[k])
        && (forall j :: 0 <= j < i ==> m[d[j]] < m[k]);
    forall y | y in xs
      ensures Count(xs, y) < Count(xs, k) || (Count(xs, y) == Count(xs, k) && FirstPos(xs, k) <= FirstPos(xs, y))
    {
      var jy :| 0 <= jy < |d| && d[jy] == y;
      assert m[y] == Count(xs, y) && m[k] == Count(xs, k);
      if jy < i {
        assert m[d[jy]] < m[k];
      } else if i < jy {
        DistinctInFirstOccurrenceOrder(xs, i, jy);
      }
    }
  }
}
