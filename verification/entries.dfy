/**
 * Demand lists: the (remaining demand, chunk id) pairs that every stage of the
 * placement algorithm passes around, their std::pair ordering, the sorts the
 * algorithm applies to them, and the sums the conservation properties speak of.
 */
module Entries {

  /** One element of a demand list, `pair<int, int>` with `first` the demand. */
  datatype Entry = Entry(demand: int, id: int)

  /** The lexicographic order std::sort uses on pairs: demand first, then id. */
  predicate Le(a: Entry, b: Entry) {
    a.demand < b.demand || (a.demand == b.demand && a.id <= b.id)
  }

  predicate SortedAsc(s: seq<Entry>) {
    forall p, q :: 0 <= p < q < |s| ==> Le(s[p], s[q])
  }

  predicate SortedDesc(s: seq<Entry>) {
    forall p, q :: 0 <= p < q < |s| ==> Le(s[q], s[p])
  }

  /** An int sequence in strictly ascending order: the in-order traversal of a std::set<int>. */
  predicate StrictlyIncreasing(s: seq<int>) {
    forall p, q :: 0 <= p < q < |s| ==> s[p] < s[q]
  }

  predicate NonNegative(s: seq<Entry>) {
    forall k :: 0 <= k < |s| ==> s[k].demand >= 0
  }

  /** Total demand of a list. */
  function Sum(s: seq<Entry>): int {
    if s == [] then 0 else s[0].demand + Sum(s[1..])
  }

  lemma {:induction false} SumConcat(a: seq<Entry>, b: seq<Entry>)
    ensures Sum(a + b) == Sum(a) + Sum(b)
  {
    if a == [] {
      assert a + b == b;
    } else {
      assert (a + b)[1..] == a[1..] + b;
      SumConcat(a[1..], b);
    }
  }

  /** Le is a total order: transitive, and one of any two entries is below the other. */
  lemma LeTrans(a: Entry, b: Entry, c: Entry)
    requires Le(a, b) && Le(b, c)
    ensures Le(a, c)
  {
  }

  /** Putting `h` in front of a sorted list that has no element below it. */
  lemma ConsSorted(h: Entry, s: seq<Entry>)
    requires SortedAsc(s)
    requires s == [] || Le(h, s[0])
    ensures SortedAsc([h] + s)
    ensures multiset([h] + s) == multiset(s) + multiset{h}
    ensures Sum([h] + s) == Sum(s) + h.demand
  {
    var r := [h] + s;
    assert r[1..] == s;
    forall p, q | 0 <= p < q < |r| ensures Le(r[p], r[q]) {
      if p == 0 && q > 1 {
        LeTrans(h, s[0], s[q - 1]);
      }
    }
  }

  /** The step of Insert that keeps the head and inserts into the tail. */
  lemma InsertBehind(x: Entry, s: seq<Entry>, tail: seq<Entry>)
    requires s != [] && SortedAsc(s) && !Le(x, s[0])
    requires SortedAsc(tail) && multiset(tail) == multiset(s[1..]) + multiset{x}
    requires Sum(tail) == Sum(s[1..]) + x.demand
    ensures SortedAsc([s[0]] + tail)
    ensures multiset([s[0]] + tail) == multiset(s) + multiset{x}
    ensures Sum([s[0]] + tail) == Sum(s) + x.demand
  {
    assert s == [s[0]] + s[1..];
    var r := [s[0]] + tail;
    assert r[1..] == tail;
    forall q | 0 <= q < |tail| ensures Le(s[0], tail[q]) {
      assert tail[q] in multiset(tail);
      if tail[q] != x {
        assert tail[q] in s[1..];
      }
    }
    forall p, q | 0 <= p < q < |r| ensures Le(r[p], r[q]) {
      if p == 0 {
        assert r[q] == tail[q - 1];
      } else {
        assert r[p] == tail[p - 1] && r[q] == tail[q - 1];
      }
    }
  }

  /** Places `x` in front of the first element it does not exceed. */
  function Insert(x: Entry, s: seq<Entry>): (r: seq<Entry>)
    requires SortedAsc(s)
    ensures SortedAsc(r)
    ensures multiset(r) == multiset(s) + multiset{x}
    ensures Sum(r) == Sum(s) + x.demand
  {
    if s == [] || Le(x, s[0]) then
      ConsSorted(x, s);
      [x] + s
    else
      var tail := Insert(x, s[1..]);
      InsertBehind(x, s, tail);
      [s[0]] + tail
  }

  /** Ascending sort in the pair order (`sort(c.begin(), c.end())`). */
  function SortAsc(s: seq<Entry>): (r: seq<Entry>)
    ensures SortedAsc(r)
    ensures multiset(r) == multiset(s)
    ensures Sum(r) == Sum(s)
  {
    if s == [] then []
    else
      assert s == [s[0]] + s[1..];
      Insert(s[0], SortAsc(s[1..]))
  }

  /**
   * A sorted permutation is unique, so std::sort's result is determined by its
   * input and SortAsc is a faithful stand-in for it.
   */
  lemma {:induction false} SortedUnique(t: seq<Entry>, u: seq<Entry>)
    requires SortedAsc(t) && SortedAsc(u)
    requires multiset(t) == multiset(u)
    ensures t == u
  {
    if t == [] {
      assert |u| == |multiset(u)| == 0;
    } else {
      assert |u| == |multiset(u)| == |t|;
      SortedHeads(t, u);
      assert t == [t[0]] + t[1..];
      assert u == [u[0]] + u[1..];
      assert multiset(t[1..]) == multiset(t) - multiset{t[0]};
      assert multiset(u[1..]) == multiset(u) - multiset{u[0]};
      SortedUnique(t[1..], u[1..]);
    }
  }

  /** The least element of a sorted list is its head, so two sorted permutations start alike. */
  lemma SortedHeads(t: seq<Entry>, u: seq<Entry>)
    requires t != [] && u != []
    requires SortedAsc(t) && SortedAsc(u)
    requires multiset(t) == multiset(u)
    ensures t[0] == u[0]
  {
    assert t[0] in multiset(u);
    assert u[0] in multiset(t);
    var k :| 0 <= k < |u| && u[k] == t[0];
    var m :| 0 <= m < |t| && t[m] == u[0];
    assert Le(u[0], t[0]) && Le(t[0], u[0]);
  }

  /** Total demand does not depend on the order of a list. */
  lemma SumPermutation(a: seq<Entry>, b: seq<Entry>)
    requires multiset(a) == multiset(b)
    ensures Sum(a) == Sum(b)
  {
    SortedUnique(SortAsc(a), SortAsc(b));
  }

  function Reverse(s: seq<Entry>): (r: seq<Entry>)
    ensures |r| == |s|
  {
    if s == [] then [] else Reverse(s[1..]) + [s[0]]
  }

  lemma {:induction false} ReversePermutes(s: seq<Entry>)
    ensures multiset(Reverse(s)) == multiset(s)
  {
    if s != [] {
      assert s == [s[0]] + s[1..];
      ReversePermutes(s[1..]);
    }
  }

  lemma {:induction false} ReverseAt(s: seq<Entry>, k: nat)
    requires k < |s|
    ensures Reverse(s)[k] == s[|s| - 1 - k]
  {
    if k < |s| - 1 {
      ReverseAt(s[1..], k);
    }
  }

  /** Descending sort in the pair order (`sort(..., greater<pair<int, int>>())`). */
  function SortDesc(s: seq<Entry>): (r: seq<Entry>)
    ensures SortedDesc(r)
    ensures multiset(r) == multiset(s)
  {
    var a := SortAsc(s);
    forall p, q | 0 <= p < q < |a| ensures Le(Reverse(a)[q], Reverse(a)[p]) {
      ReverseAt(a, p);
      ReverseAt(a, q);
    }
    ReversePermutes(a);
    Reverse(a)
  }

  /** The entries whose demand is not zero, in their original order. */
  function NonZero(s: seq<Entry>): (r: seq<Entry>)
    ensures |r| <= |s|
    ensures forall e :: e in r <==> e in s && e.demand != 0
    ensures Sum(r) == Sum(s)
  {
    if s == [] then []
    else
      assert s == [s[0]] + s[1..];
      if s[0].demand != 0 then [s[0]] + NonZero(s[1..]) else NonZero(s[1..])
  }

  lemma {:induction false} NonZeroSnoc(s: seq<Entry>, x: Entry)
    ensures NonZero(s + [x]) == NonZero(s) + (if x.demand != 0 then [x] else [])
  {
    if s == [] {
      assert s + [x] == [x];
    } else {
      assert (s + [x])[1..] == s[1..] + [x];
      NonZeroSnoc(s[1..], x);
    }
  }
}
