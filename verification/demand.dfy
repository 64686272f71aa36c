/**
 * Jobs and the per-deadline demand derived from them: for one deadline, how
 * many times each chunk id occurs among the chunk lists of the jobs with that
 * deadline, and the distinct deadlines in ascending order.
 */
module Demand {
  import opened Entries

  /** A job: the ids of the chunks it needs (C_j, repeats allowed) and its deadline. */
  datatype Job = Job(chunks: seq<int>, deadline: int)

  /** How often chunk x occurs in ids. */
  function Occurrences(ids: seq<int>, x: int): nat {
    if ids == [] then 0
    else Occurrences(ids[..|ids| - 1], x) + (if ids[|ids| - 1] == x then 1 else 0)
  }

  /** The demand for chunk x at deadline d: its occurrences over all jobs with that deadline. */
  function DemandFor(jobs: seq<Job>, d: int, x: int): nat {
    if jobs == [] then 0
    else
      var last := jobs[|jobs| - 1];
      DemandFor(jobs[..|jobs| - 1], d, x) + (if last.deadline == d then Occurrences(last.chunks, x) else 0)
  }

  /** The deadlines that occur among the jobs. */
  function Deadlines(jobs: seq<Job>): set<int> {
    set k | 0 <= k < |jobs| :: jobs[k].deadline
  }

  lemma ConsIncreasing(h: int, s: seq<int>)
    requires StrictlyIncreasing(s) && forall y :: y in s ==> h < y
    ensures StrictlyIncreasing([h] + s)
  {
    var r := [h] + s;
    forall p, q | 0 <= p < q < |r| ensures r[p] < r[q] {
      assert r[q] == s[q - 1];
      if p > 0 {
        assert r[p] == s[p - 1];
      } else {
        assert s[q - 1] in s;
      }
    }
  }

  /**
   * Inserting into an ordered set of ints (std::set<int>::insert, or a new key
   * of a std::map<int, int>): the traversal order stays ascending.
   */
  function AddOrdered(s: seq<int>, x: int): (r: seq<int>)
    requires StrictlyIncreasing(s)
    ensures StrictlyIncreasing(r)
    ensures forall y :: y in r <==> y in s || y == x
  {
    if s == [] then [x]
    else if x < s[0] then [x] + s
    else if x == s[0] then s
    else
      var tail := AddOrdered(s[1..], x);
      assert forall y :: y in s[1..] ==> s[0] < y;
      ConsIncreasing(s[0], tail);
      [s[0]] + tail
  }

  /** The distinct deadlines of the jobs in ascending order: the traversal of cred_m's `set<int> deadlines`. */
  function SortedDeadlines(jobs: seq<Job>): (ds: seq<int>)
    ensures StrictlyIncreasing(ds)
    ensures forall d :: d in ds <==> d in Deadlines(jobs)
  {
    if jobs == [] then []
    else
      var init := jobs[..|jobs| - 1];
      assert forall k :: 0 <= k < |init| ==> init[k] == jobs[k];
      AddOrdered(SortedDeadlines(init), jobs[|jobs| - 1].deadline)
  }

  /** The loop filling `deadlines` (one insertion per job). */
  method DistinctDeadlines(jobs: seq<Job>) returns (ds: seq<int>)
    ensures ds == SortedDeadlines(jobs)
  {
    ds := [];
    var a := 0;
    while a < |jobs|
      invariant 0 <= a <= |jobs|
      invariant ds == SortedDeadlines(jobs[..a])
    {
      assert jobs[..a + 1][..a] == jobs[..a];
      ds := AddOrdered(ds, jobs[a].deadline);
      a := a + 1;
    }
    assert jobs[..a] == jobs;
  }

  /** The ids of cs added to an ordered set of ids. */
  function AddIds(s: seq<int>, cs: seq<int>): (r: seq<int>)
    requires StrictlyIncreasing(s)
    ensures StrictlyIncreasing(r)
    ensures forall x :: x in r <==> x in s || Occurrences(cs, x) > 0
  {
    if cs == [] then s else AddOrdered(AddIds(s, cs[..|cs| - 1]), cs[|cs| - 1])
  }

  /** The chunk ids with nonzero demand at deadline d, ascending: the keys of `temp_chunk_map`. */
  function ChunkIds(jobs: seq<Job>, d: int): (r: seq<int>)
    ensures StrictlyIncreasing(r)
    ensures forall x :: x in r <==> DemandFor(jobs, d, x) > 0
  {
    if jobs == [] then []
    else
      var prev := ChunkIds(jobs[..|jobs| - 1], d);
      var last := jobs[|jobs| - 1];
      if last.deadline == d then AddIds(prev, last.chunks) else prev
  }

  /** The demand list cred_s receives for deadline d: one (demand, id) pair per key of `temp_chunk_map`. */
  function DeadlineDemand(jobs: seq<Job>, d: int): seq<Entry> {
    Pairs(jobs, d, ChunkIds(jobs, d))
  }

  /** One (demand at d, id) pair per id, in the order of ids. */
  function Pairs(jobs: seq<Job>, d: int, ids: seq<int>): (r: seq<Entry>)
    ensures |r| == |ids|
  {
    if ids == [] then []
    else
      var x := ids[|ids| - 1];
      Pairs(jobs, d, ids[..|ids| - 1]) + [Entry(DemandFor(jobs, d, x), x)]
  }

  lemma {:induction false} PairsAt(jobs: seq<Job>, d: int, ids: seq<int>, k: nat)
    requires k < |ids|
    ensures Pairs(jobs, d, ids)[k] == Entry(DemandFor(jobs, d, ids[k]), ids[k])
  {
    if k < |ids| - 1 {
      PairsAt(jobs, d, ids[..|ids| - 1], k);
    }
  }

  lemma PairsPrefix(jobs: seq<Job>, d: int, ids: seq<int>, k: nat)
    requires k < |ids|
    ensures Pairs(jobs, d, ids[..k + 1]) == Pairs(jobs, d, ids[..k]) + [Entry(DemandFor(jobs, d, ids[k]), ids[k])]
  {
    assert ids[..k + 1][..k] == ids[..k];
  }

  /**
   * The list for deadline d has one pair per chunk that jobs with that
   * deadline need, ids ascending, each demand the chunk's total number of
   * occurrences.
   */
  lemma DeadlineDemandShape(jobs: seq<Job>, d: int)
    ensures var r := DeadlineDemand(jobs, d);
      && (forall p, q :: 0 <= p < q < |r| ==> r[p].id < r[q].id)
      && (forall k :: 0 <= k < |r| ==> r[k].demand == DemandFor(jobs, d, r[k].id) > 0)
      && (forall x :: DemandFor(jobs, d, x) > 0 <==> exists k :: 0 <= k < |r| && r[k].id == x)
  {
    var ids := ChunkIds(jobs, d);
    var r := DeadlineDemand(jobs, d);
    forall k | 0 <= k < |r| ensures r[k] == Entry(DemandFor(jobs, d, ids[k]), ids[k]) {
      PairsAt(jobs, d, ids, k);
    }
    forall k | 0 <= k < |r| ensures DemandFor(jobs, d, r[k].id) > 0 {
      assert ids[k] in ids;
    }
    forall x | DemandFor(jobs, d, x) > 0 ensures exists k :: 0 <= k < |r| && r[k].id == x {
      var k :| 0 <= k < |ids| && ids[k] == x;
      assert r[k].id == x;
    }
  }

  /** `temp_chunk_map[x]`: the count of x, zero for a missing key. */
  function Count(m: map<int, int>, x: int): int {
    if x in m then m[x] else 0
  }

  /** Every count in m is positive, so a chunk is a key exactly when its count is nonzero. */
  ghost predicate Positive(m: map<int, int>) {
    forall x :: x in m ==> m[x] > 0
  }

  /** `for (auto kt : C_j) temp_chunk_map[kt.id]++`: one count per occurrence. */
  method CountIds(m0: map<int, int>, keys0: seq<int>, cs: seq<int>) returns (m: map<int, int>, keys: seq<int>)
    requires Positive(m0) && StrictlyIncreasing(keys0)
    ensures Positive(m)
    ensures forall x :: Count(m, x) == Count(m0, x) + Occurrences(cs, x)
    ensures keys == AddIds(keys0, cs)
  {
    m, keys := m0, keys0;
    var b := 0;
    while b < |cs|
      invariant 0 <= b <= |cs|
      invariant Positive(m)
      invariant forall x :: Count(m, x) == Count(m0, x) + Occurrences(cs[..b], x)
      invariant keys == AddIds(keys0, cs[..b])
    {
      assert cs[..b + 1][..b] == cs[..b];
      var x := cs[b];
      m := m[x := Count(m, x) + 1];
      keys := AddOrdered(keys, x);
      b := b + 1;
    }
    assert cs[..b] == cs;
  }

  /**
   * The `temp_chunk_map` of cred_m for deadline d: every job with that
   * deadline adds one count per chunk occurrence, so a chunk's count is its
   * demand and the keys, in their ascending order, are ChunkIds.
   */
  method CountChunks(jobs: seq<Job>, d: int) returns (m: map<int, int>, keys: seq<int>)
    ensures forall x :: Count(m, x) == DemandFor(jobs, d, x)
    ensures forall x :: x in m <==> DemandFor(jobs, d, x) > 0
    ensures keys == ChunkIds(jobs, d)
  {
    m, keys := map[], [];
    var a := 0;
    while a < |jobs|
      invariant 0 <= a <= |jobs|
      invariant Positive(m)
      invariant forall x :: Count(m, x) == DemandFor(jobs[..a], d, x)
      invariant keys == ChunkIds(jobs[..a], d)
    {
      assert jobs[..a + 1][..a] == jobs[..a];
      if jobs[a].deadline == d {
        m, keys := CountIds(m, keys, jobs[a].chunks);
      }
      a := a + 1;
    }
    assert jobs[..a] == jobs;
  }

  /**
   * Aggregation for one deadline: count the chunk occurrences, then emit one
   * (count, id) pair per key in the map's ascending key order.
   */
  method Aggregate(jobs: seq<Job>, d: int) returns (chunks: seq<Entry>)
    ensures chunks == DeadlineDemand(jobs, d)
  {
    var m, keys := CountChunks(jobs, d);
    chunks := [];
    var k := 0;
    while k < |keys|
      invariant 0 <= k <= |keys|
      invariant chunks == Pairs(jobs, d, keys[..k])
    {
      assert keys[k] in keys && Count(m, keys[k]) == m[keys[k]];
      PairsPrefix(jobs, d, keys, k);
      chunks := chunks + [Entry(m[keys[k]], keys[k])];
      k := k + 1;
    }
    assert keys[..k] == keys;
  }
}
