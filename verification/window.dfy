/**
 * Window selection for the single-deadline allocator: when more than B chunks
 * still carry demand, a run of exactly B consecutive entries of the (demand
 * descending) list is chosen, starting at the tail and sliding one step towards
 * the front while its total demand stays below the virtual deadline; the run is
 * then split off from the rest of the list.
 */
module Window {
  import opened Entries

  /** Total demand of the entries at indices lo .. hi-1. */
  function Demands(s: seq<Entry>, lo: nat, hi: nat): int
    requires lo <= hi <= |s|
    decreases hi - lo
  {
    if lo == hi then 0 else s[lo].demand + Demands(s, lo + 1, hi)
  }

  lemma {:induction false} DemandsDropLast(s: seq<Entry>, lo: nat, hi: nat)
    requires lo < hi <= |s|
    ensures Demands(s, lo, hi) == Demands(s, lo, hi - 1) + s[hi - 1].demand
    decreases hi - lo
  {
    if lo + 1 < hi {
      DemandsDropLast(s, lo + 1, hi);
    }
  }

  /** Total demand of the window of B entries starting at k. */
  function WindowDemand(s: seq<Entry>, B: nat, k: nat): int
    requires k + B <= |s|
  {
    Demands(s, k, k + B)
  }

  /**
   * The slide as intended: from the window starting at j, move towards the
   * front while the window's demand is below vd, but never past index 0.
   */
  function SlideFrom(s: seq<Entry>, B: nat, vd: int, j: nat): (w: nat)
    requires 1 <= B && j + B <= |s|
    ensures w <= j
    ensures WindowDemand(s, B, w) >= vd || w == 0
    ensures forall k :: w < k <= j ==> WindowDemand(s, B, k) < vd
    decreases j
  {
    if WindowDemand(s, B, j) >= vd || j == 0 then j else SlideFrom(s, B, vd, j - 1)
  }

  /**
   * The start of the window of B entries packed together: the window nearest
   * the tail whose demand reaches vd, or the front window if none does.
   */
  function SelectWindow(s: seq<Entry>, B: nat, vd: int): (w: nat)
    requires 1 <= B < |s|
    ensures w + B <= |s|
    ensures WindowDemand(s, B, w) >= vd || w == 0
    ensures forall k :: w < k <= |s| - B ==> WindowDemand(s, B, k) < vd
  {
    SlideFrom(s, B, vd, |s| - B)
  }

  /** The window bounds the source's loop leaves in j and i, and whether it read chunks[-1]. */
  datatype RawWindow = RawWindow(lo: int, hi: int, readsBeforeFront: bool)

  /**
   * The slide as written: the loop also runs when j == 0, so it decrements j to
   * -1 and reads the element before the front of the list.
   */
  function SlideAsWritten(s: seq<Entry>, B: nat, vd: int, j: nat): (w: RawWindow)
    requires 1 <= B && j + B <= |s|
    ensures w.hi == w.lo + B - 1
    ensures w.readsBeforeFront <==> forall k :: 0 <= k <= j ==> WindowDemand(s, B, k) < vd
    decreases j
  {
    if WindowDemand(s, B, j) >= vd then RawWindow(j, j + B - 1, false)
    else if j == 0 then RawWindow(-1, B - 2, true)
    else SlideAsWritten(s, B, vd, j - 1)
  }

  /**
   * With B = 1 and two unit demands below a virtual deadline of 2, the loop as
   * written reads chunks[-1] and leaves an empty window (j = i = -1), so the
   * machine it was meant for is offered nothing; the intended selection packs
   * the front entry instead.
   */
  lemma AsWrittenReadsBeforeFront()
    ensures var s := [Entry(1, 0), Entry(1, 1)];
      && SlideAsWritten(s, 1, 2, 1) == RawWindow(-1, -1, true)
      && SelectWindow(s, 1, 2) == 0
  {
    var s := [Entry(1, 0), Entry(1, 1)];
    assert Demands(s, 1, 2) == 1 by { assert Demands(s, 2, 2) == 0; }
    assert Demands(s, 0, 1) == 1 by { assert Demands(s, 1, 1) == 0; }
    assert SlideAsWritten(s, 1, 2, 0) == RawWindow(-1, -1, true);
    assert SlideFrom(s, 1, 2, 0) == 0;
  }

  /** Where the two slides agree: whenever some window reaches the target. */
  lemma {:induction false} SlideAgreesWhenReached(s: seq<Entry>, B: nat, vd: int, j: nat)
    requires 1 <= B && j + B <= |s|
    requires exists k :: 0 <= k <= j && WindowDemand(s, B, k) >= vd
    ensures var w := SlideAsWritten(s, B, vd, j);
      !w.readsBeforeFront && w.lo == SlideFrom(s, B, vd, j)
    decreases j
  {
    if WindowDemand(s, B, j) < vd && j > 0 {
      var k :| 0 <= k <= j && WindowDemand(s, B, k) >= vd;
      assert k < j;
      SlideAgreesWhenReached(s, B, vd, j - 1);
    }
  }

  /**
   * The sum-and-slide loop (the window search in cred_s): sums the last B
   * demands, then slides the window towards the front while its sum is below
   * vd, stopping at the front window.
   */
  method FindWindow(chunks: seq<Entry>, B: nat, vd: int) returns (j: nat, i: nat)
    requires 1 <= B < |chunks|
    ensures j == SelectWindow(chunks, B, vd)
    ensures i == j + B - 1 && i < |chunks|
  {
    var n := |chunks|;
    var sum := 0;
    var k := n - 1;
    while k >= n - B
      invariant n - B - 1 <= k <= n - 1
      invariant sum == Demands(chunks, k + 1, n)
    {
      sum := sum + chunks[k].demand;
      k := k - 1;
    }
    assert sum == WindowDemand(chunks, B, n - B);
    i, j := n - 1, n - B;
    while sum < vd && j > 0
      invariant i == j + B - 1 && i < n
      decreases j
      invariant sum == WindowDemand(chunks, B, j)
      invariant SlideFrom(chunks, B, vd, j) == SlideFrom(chunks, B, vd, n - B)
    {
      SlideStep(chunks, B, vd, j);
      sum := sum - chunks[i].demand;
      i, j := i - 1, j - 1;
      sum := sum + chunks[j].demand;
    }
    assert SlideFrom(chunks, B, vd, j) == j;
  }

  /** One slide towards the front: the result is unchanged and the new sum follows from the old. */
  lemma SlideStep(s: seq<Entry>, B: nat, vd: int, j: nat)
    requires 1 <= B && 0 < j && j + B <= |s|
    requires WindowDemand(s, B, j) < vd
    ensures SlideFrom(s, B, vd, j) == SlideFrom(s, B, vd, j - 1)
    ensures WindowDemand(s, B, j - 1) == WindowDemand(s, B, j) - s[j + B - 1].demand + s[j - 1].demand
  {
    DemandsDropLast(s, j, j + B);
  }

  lemma ReverseExtend(s: seq<Entry>, a: nat, b: nat)
    requires 0 < a <= b <= |s|
    ensures Reverse(s[a - 1..b]) == Reverse(s[a..b]) + [s[a - 1]]
  {
    assert s[a - 1..b] == [s[a - 1]] + s[a..b];
    assert s[a - 1..b][1..] == s[a..b];
  }

  lemma SplitIntoWindow(chunks: seq<Entry>, j: nat, i: nat, k: nat, c: seq<Entry>)
    requires j <= k <= i < |chunks|
    requires i < k + 1 ==> c == []
    requires k + 1 <= i ==> c == Reverse(chunks[k + 1..i + 1])
    ensures c + [chunks[k]] == Reverse(chunks[k..i + 1])
  {
    ReverseExtend(chunks, k + 1, i + 1);
    if k == i {
      assert chunks[k + 1..i + 1] == [];
    }
  }

  lemma SplitBeforeWindow(chunks: seq<Entry>, k: nat, rest: seq<Entry>)
    requires k < |chunks|
    requires rest == Reverse(chunks[k + 1..])
    ensures rest + [chunks[k]] == Reverse(chunks[k..])
  {
    ReverseExtend(chunks, k + 1, |chunks|);
    assert chunks[k + 1..|chunks|] == chunks[k + 1..];
    assert chunks[k..|chunks|] == chunks[k..];
  }

  lemma SplitAfterWindow(chunks: seq<Entry>, j: nat, i: nat, k: nat, rest: seq<Entry>)
    requires k < j <= i < |chunks|
    requires k + 1 == j ==> rest == Reverse(chunks[i + 1..])
    requires k + 1 < j ==> rest == Reverse(chunks[i + 1..]) + Reverse(chunks[k + 1..j])
    ensures rest + [chunks[k]] == Reverse(chunks[i + 1..]) + Reverse(chunks[k..j])
  {
    ReverseExtend(chunks, k + 1, j);
    if k + 1 == j {
      assert chunks[k + 1..j] == [];
    }
  }

  /** The split after its last step, k = 0, and the parts it leaves form a permutation. */
  lemma SplitDone(chunks: seq<Entry>, j: nat, i: nat, c: seq<Entry>, rest: seq<Entry>)
    requires j <= i < |chunks|
    requires j == 0 ==> c == Reverse(chunks[0..i + 1]) && rest == Reverse(chunks[i + 1..])
    requires 0 < j ==> c == Reverse(chunks[j..i + 1]) && rest == Reverse(chunks[i + 1..]) + Reverse(chunks[0..j])
    ensures c == Reverse(chunks[j..i + 1])
    ensures rest == Reverse(chunks[i + 1..]) + Reverse(chunks[..j])
    ensures |c| == i - j + 1 && |rest| == |chunks| - |c|
    ensures multiset(c) + multiset(rest) == multiset(chunks)
  {
    assert chunks[0..j] == chunks[..j];
    if j == 0 {
      assert Reverse(chunks[..j]) == [];
      assert rest + [] == rest;
    }
    assert chunks == chunks[..j] + chunks[j..i + 1] + chunks[i + 1..];
    ReversePermutes(chunks[j..i + 1]);
    ReversePermutes(chunks[i + 1..]);
    ReversePermutes(chunks[..j]);
  }

  /**
   * The split after the search: walking the list from the back, indices j..i
   * go to the window `c`, all others to `rest`; both come out back to front.
   */
  method SplitWindow(chunks: seq<Entry>, j: nat, i: nat) returns (c: seq<Entry>, rest: seq<Entry>)
    requires j <= i < |chunks|
    ensures c == Reverse(chunks[j..i + 1])
    ensures rest == Reverse(chunks[i + 1..]) + Reverse(chunks[..j])
    ensures |c| == i - j + 1 && |rest| == |chunks| - |c|
    ensures multiset(c) + multiset(rest) == multiset(chunks)
  {
    var n := |chunks|;
    c, rest := [], [];
    var k := n;
    while k > 0
      invariant 0 <= k <= n
      invariant i < k ==> c == [] && rest == Reverse(chunks[k..])
      invariant j <= k <= i ==> c == Reverse(chunks[k..i + 1]) && rest == Reverse(chunks[i + 1..])
      invariant k < j ==> c == Reverse(chunks[j..i + 1]) && rest == Reverse(chunks[i + 1..]) + Reverse(chunks[k..j])
    {
      k := k - 1;
      if j <= k <= i {
        SplitIntoWindow(chunks, j, i, k, c);
        c := c + [chunks[k]];
      } else if k > i {
        SplitBeforeWindow(chunks, k, rest);
        rest := rest + [chunks[k]];
      } else {
        SplitAfterWindow(chunks, j, i, k, rest);
        rest := rest + [chunks[k]];
      }
    }
    SplitDone(chunks, j, i, c, rest);
  }
}
