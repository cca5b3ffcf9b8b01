/**
 * Counting helpers shared by the programs: a tally of how often each value
 * occurs (Rust's `HashMap` of counters, Python's `Counter`), listings of such
 * a tally as (key, count) pairs, and the stable sort by descending count that
 * `sort_by_key(Reverse(count))` and `Counter.most_common()` perform.
 */
module Counting {

  /** The tally a loop of `*counts.entry(x).or_insert(0) += 1` builds over `s`. */
  function CountMap<T(==)>(s: seq<T>): map<T, nat> {
    if s == [] then map[]
    else
      var m := CountMap(s[..|s| - 1]);
      var x := s[|s| - 1];
      m[x := (if x in m then m[x] else 0) + 1]
  }

  /** The tally has exactly the values of `s` as keys, each with its number of occurrences. */
  lemma {:induction false} CountMapCounts<T(!new)>(s: seq<T>)
    ensures forall x :: x in CountMap(s) <==> x in s
    ensures forall x :: x in CountMap(s) ==> CountMap(s)[x] == multiset(s)[x] && CountMap(s)[x] >= 1
  {
    if s != [] {
      var init := s[..|s| - 1];
      CountMapCounts(init);
      assert s == init + [s[|s| - 1]];
    }
  }

  /** One more occurrence of `x` adds one to its count and leaves every other count alone. */
  lemma CountMapSnoc<T(!new)>(s: seq<T>, x: T)
    ensures var m := CountMap(s);
      CountMap(s + [x]) == m[x := (if x in m then m[x] else 0) + 1]
  {
    assert (s + [x])[..|s|] == s;
  }

  /** `items` lists every key of `m` exactly once, each with its count. */
  ghost predicate Listing<K(!new)>(items: seq<(K, nat)>, m: map<K, nat>) {
    && (forall i :: 0 <= i < |items| ==> items[i].0 in m && items[i].1 == m[items[i].0])
    && (forall i, j :: 0 <= i < j < |items| ==> items[i].0 != items[j].0)
    && (forall k :: k in m ==> exists i :: 0 <= i < |items| && items[i].0 == k)
  }

  function SumCounts<K(==)>(items: seq<(K, nat)>): nat {
    if items == [] then 0 else SumCounts(items[..|items| - 1]) + items[|items| - 1].1
  }

  function Keys<K(==)>(items: seq<(K, nat)>): (ks: seq<K>)
    ensures |ks| == |items| && forall i :: 0 <= i < |items| ==> ks[i] == items[i].0
  {
    seq(|items|, i requires 0 <= i < |items| => items[i].0)
  }

  /** How many positions of `ks` hold `x`. */
  function Count<K(==)>(ks: seq<K>, x: K): nat {
    if ks == [] then 0 else Count(ks[..|ks| - 1], x) + (if ks[|ks| - 1] == x then 1 else 0)
  }

  /** The counts of `s` summed over the keys `ks`. */
  function SumOver<K(==)>(s: seq<K>, ks: seq<K>): nat {
    if ks == [] then 0 else SumOver(s, ks[..|ks| - 1]) + multiset(s)[ks[|ks| - 1]]
  }

  /**
   * However the tally of `s` is listed, its counts add up to `|s|`: every
   * counted value is counted exactly once.
   */
  lemma ListingSum<K(!new)>(s: seq<K>, items: seq<(K, nat)>)
    requires Listing(items, CountMap(s))
    ensures SumCounts(items) == |s|
  {
    var ks := Keys(items);
    CountMapCounts(s);
    SumCountsIsSumOver(s, items);
    forall x | x in s ensures x in ks {
      var i :| 0 <= i < |items| && items[i].0 == x;
      assert ks[i] == x;
    }
    SumOverAll(s, ks);
  }

  lemma {:induction false} SumCountsIsSumOver<K>(s: seq<K>, items: seq<(K, nat)>)
    requires forall i :: 0 <= i < |items| ==> items[i].1 == multiset(s)[items[i].0]
    ensures SumCounts(items) == SumOver(s, Keys(items))
  {
    if items != [] {
      var init := items[..|items| - 1];
      SumCountsIsSumOver(s, init);
      assert Keys(items)[..|items| - 1] == Keys(init);
    }
  }

  lemma {:induction false} SumOverAll<K(!new)>(s: seq<K>, ks: seq<K>)
    requires forall i, j :: 0 <= i < j < |ks| ==> ks[i] != ks[j]
    requires forall x :: x in s ==> x in ks
    ensures SumOver(s, ks) == |s|
  {
    if s == [] {
      SumOverEmpty(s, ks);
    } else {
      var init := s[..|s| - 1];
      var x := s[|s| - 1];
      assert s == init + [x];
      SumOverAll(init, ks);
      SumOverSnoc(init, x, ks);
      CountDistinct(ks, x);
    }
  }

  lemma {:induction false} SumOverEmpty<K>(s: seq<K>, ks: seq<K>)
    requires s == []
    ensures SumOver(s, ks) == 0
  {
    if ks != [] {
      SumOverEmpty(s, ks[..|ks| - 1]);
    }
  }

  lemma {:induction false} SumOverSnoc<K>(s: seq<K>, x: K, ks: seq<K>)
    ensures SumOver(s + [x], ks) == SumOver(s, ks) + Count(ks, x)
  {
    if ks != [] {
      SumOverSnoc(s, x, ks[..|ks| - 1]);
      assert multiset(s + [x]) == multiset(s) + multiset{x};
    }
  }

  lemma {:induction false} CountDistinct<K>(ks: seq<K>, x: K)
    requires forall i, j :: 0 <= i < j < |ks| ==> ks[i] != ks[j]
    requires x in ks
    ensures Count(ks, x) == 1
  {
    var init := ks[..|ks| - 1];
    if ks[|ks| - 1] == x {
      CountAbsent(init, x);
    } else {
      assert x in init;
      CountDistinct(init, x);
    }
  }

  lemma {:induction false} CountAbsent<K>(ks: seq<K>, x: K)
    requires x !in ks
    ensures Count(ks, x) == 0
  {
    if ks != [] {
      CountAbsent(ks[..|ks| - 1], x);
    }
  }

  /** A listing has one pair per key. */
  lemma ListingLength<K(!new)>(items: seq<(K, nat)>, m: map<K, nat>)
    requires Listing(items, m)
    ensures |items| == |m|
  {
    var ks := Keys(items);
    DistinctCard(ks);
    forall x | x in m ensures x in ks {
      var i :| 0 <= i < |items| && items[i].0 == x;
      assert ks[i] == x;
    }
    assert (set x | x in ks) == m.Keys;
  }

  /** A sequence without repetitions has as many distinct elements as positions. */
  lemma {:induction false} DistinctCard<K>(ks: seq<K>)
    requires forall i, j :: 0 <= i < j < |ks| ==> ks[i] != ks[j]
    ensures |set x | x in ks| == |ks|
  {
    if ks != [] {
      var init := ks[..|ks| - 1];
      DistinctCard(init);
      assert (set x | x in ks) == (set x | x in init) + {ks[|ks| - 1]};
    }
  }

  /** In a listing, a pair occurs at most once. */
  lemma {:induction false} ListingSingle<K>(items: seq<(K, nat)>, x: (K, nat))
    requires forall i, j :: 0 <= i < j < |items| ==> items[i].0 != items[j].0
    ensures multiset(items)[x] <= 1
  {
    if items != [] {
      var init := items[..|items| - 1];
      assert items == init + [items[|items| - 1]];
      ListingSingle(init, x);
    }
  }

  /** A pair found at two positions occurs at least twice. */
  lemma TwoPositions<K>(items: seq<(K, nat)>, i: nat, j: nat)
    requires i < j < |items| && items[i] == items[j]
    ensures multiset(items)[items[i]] >= 2
  {
    assert items == items[..j] + [items[j]] + items[j + 1..];
    assert items[i] in items[..j];
  }

  /** Any reordering of a listing is a listing. */
  lemma ListingPermutation<K(!new)>(a: seq<(K, nat)>, b: seq<(K, nat)>, m: map<K, nat>)
    requires Listing(a, m) && multiset(a) == multiset(b)
    ensures Listing(b, m)
  {
    forall i | 0 <= i < |b| ensures b[i].0 in m && b[i].1 == m[b[i].0] {
      assert b[i] in multiset(a);
    }
    forall i, j | 0 <= i < j < |b| ensures b[i].0 != b[j].0 {
      if b[i].0 == b[j].0 {
        TwoPositions(b, i, j);
        ListingSingle(a, b[i]);
      }
    }
    forall k | k in m ensures exists i :: 0 <= i < |b| && b[i].0 == k {
      var i :| 0 <= i < |a| && a[i].0 == k;
      assert a[i] in multiset(b);
      var j :| 0 <= j < |b| && b[j] == a[i];
    }
  }

  /** No later pair has a larger count than an earlier one. */
  ghost predicate SortedDesc<K>(s: seq<(K, nat)>) {
    forall i, j :: 0 <= i < j < |s| ==> s[i].1 >= s[j].1
  }

  /** Puts `x` in front of the first pair whose count is not larger than its own. */
  function InsertDesc<K(==)>(x: (K, nat), s: seq<(K, nat)>): (r: seq<(K, nat)>)
    requires SortedDesc(s)
    ensures SortedDesc(r)
    ensures multiset(r) == multiset(s) + multiset{x}
    ensures |r| == |s| + 1
  {
    if s == [] || x.1 >= s[0].1 then
      PrependDesc(x, s);
      [x] + s
    else
      var rest := InsertDesc(x, s[1..]);
      assert s == [s[0]] + s[1..];
      BelowHead(s, x, rest);
      PrependDesc(s[0], rest);
      [s[0]] + rest
  }

  /** A pair whose count bounds every count of a descending list can go in front of it. */
  lemma PrependDesc<K>(y: (K, nat), rest: seq<(K, nat)>)
    requires SortedDesc(rest)
    requires rest != [] ==> rest[0].1 <= y.1
    ensures SortedDesc([y] + rest)
  {
    var r := [y] + rest;
    forall i, j | 0 <= i < j < |r| ensures r[i].1 >= r[j].1 {
      if i == 0 {
        assert r[j] == rest[j - 1];
        assert rest[0].1 >= rest[j - 1].1;
      }
    }
  }

  /**
   * Whatever the rest of a descending list is rearranged into, together with
   * a pair of smaller count, the list's head still bounds it.
   */
  lemma BelowHead<K>(s: seq<(K, nat)>, x: (K, nat), rest: seq<(K, nat)>)
    requires s != [] && SortedDesc(s) && x.1 < s[0].1
    requires multiset(rest) == multiset(s[1..]) + multiset{x}
    ensures rest != [] ==> rest[0].1 <= s[0].1
  {
    if rest != [] && rest[0] != x {
      assert rest[0] in multiset(rest);
      assert rest[0] in s[1..];
    }
  }

  /**
   * Sorts pairs by descending count; pairs with equal counts keep their
   * order, as Rust's stable `sort_by_key` and Python's `sorted` do.
   */
  function SortDesc<K(==)>(s: seq<(K, nat)>): (r: seq<(K, nat)>)
    ensures SortedDesc(r)
    ensures multiset(r) == multiset(s)
    ensures |r| == |s|
  {
    if s == [] then []
    else
      assert s == [s[0]] + s[1..];
      InsertDesc(s[0], SortDesc(s[1..]))
  }
}
