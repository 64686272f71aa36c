/**
 * The multi-deadline orchestrator `cred_m` as pure functions: the distinct
 * deadlines are served in ascending order, each by one cred_s call on that
 * deadline's aggregated demand, followed by the pre-staging pass that offers
 * the machines the chunks of later deadlines they already host. The Cluster
 * class runs the same steps in place and is proved to agree with CredM.
 */
module MultiDeadline {
  import opened Entries
  import opened Placement
  import opened Demand
  import opened Rounds

  /**
   * The pairs of s for chunks machine n hosts whose count is not zero, in
   * their order in s: the filter of the pre-staging pass.
   */
  function Hosted(s: seq<Entry>, n: int, t: Tables): (r: seq<Entry>)
    ensures |r| <= |s|
  {
    if s == [] then []
    else
      var last := s[|s| - 1];
      assert s == s[..|s| - 1] + [last];
      Hosted(s[..|s| - 1], n, t) + (if n in HostsOf(t, last.id) && last.demand != 0 then [last] else [])
  }

  /** Hosted keeps exactly the pairs of s whose chunk n hosts and whose count is not zero. */
  lemma {:induction false} HostedMembers(s: seq<Entry>, n: int, t: Tables)
    ensures forall e :: e in Hosted(s, n, t) <==> e in s && n in HostsOf(t, e.id) && e.demand != 0
  {
    if s != [] {
      assert s == s[..|s| - 1] + [s[|s| - 1]];
      HostedMembers(s[..|s| - 1], n, t);
    }
  }

  /** Hosted over one more element of s. */
  lemma HostedPrefix(s: seq<Entry>, q: nat, n: int, t: Tables)
    requires q < |s|
    ensures Hosted(s[..q + 1], n, t)
      == Hosted(s[..q], n, t) + (if n in HostsOf(t, s[q].id) && s[q].demand != 0 then [s[q]] else [])
  {
    assert s[..q + 1][..q] == s[..q];
  }

  /** The pre-staging pass's own state: the `chunks` list it keeps appending to, and the tables. */
  datatype Staged = Staged(chunks: seq<Entry>, t: Tables)

  /**
   * The inner pre-staging loop for machine n, from deadline ds[k] on: every
   * deadline jt after `it` gets one call, after which tempPrev becomes jt.
   */
  function StageDeadlines(jobs: seq<Job>, ds: seq<int>, k: nat, it: int, n: int, S: int, tempPrev: int, p: Staged): Staged
    requires k <= |ds|
    decreases |ds| - k
  {
    if k == |ds| then p
    else if ds[k] <= it then StageDeadlines(jobs, ds, k + 1, it, n, S, tempPrev, p)
    else
      var jt := ds[k];
      StageDeadlines(jobs, ds, k + 1, it, n, S, jt, StageCall(jobs, jt, n, Budget(S, jt, Slots(p.t, n)), jt - tempPrev, p))
  }

  /**
   * One pre-staging call for machine n and deadline jt: append the pairs of
   * jt's list that n hosts and call schedule on n with budget nts (S * jt
   * minus n's slots) and deadline key d (jt - tempPrev), dropping its result.
   */
  function StageCall(jobs: seq<Job>, jt: int, n: int, nts: int, d: int, p: Staged): Staged {
    var chunks := p.chunks + Hosted(DeadlineDemand(jobs, jt), n, p.t);
    Staged(chunks, Schedule(chunks, nts, n, d, p.t).tables)
  }

  /** The budget of a pre-staging call: the slots machine n would have at deadline jt, less what it has. */
  function Budget(S: int, jt: int, slots: int): int {
    S * jt - slots
  }

  /** The outer pre-staging loop: machines n .. temp in turn, each starting with tempPrev = it. */
  function StageMachines(jobs: seq<Job>, ds: seq<int>, it: int, S: int, n: int, temp: int, p: Staged): Staged
    decreases temp - n
  {
    if n > temp then p
    else StageMachines(jobs, ds, it, S, n + 1, temp, StageDeadlines(jobs, ds, 0, it, n, S, it, p))
  }

  /** Where cred_m stands: the allocator's state, `N_a`, and whether every cred_s call finished. */
  datatype Allocation = Allocation(st: State, na: int, finished: bool)

  /**
   * The deadline loop from ds[k] on: cred_s on the deadline's demand with
   * virtual deadline S * it and true deadline it (`prev` stays 0), then the
   * pre-staging pass over machines 1 .. the count cred_s returned, then
   * `N_a` is the number of machines. A cred_s call that runs out of fuel
   * ends the loop.
   */
  function Serve(jobs: seq<Job>, ds: seq<int>, k: nat, S: int, B: nat, st: State, na: int, fuel: nat): Allocation
    requires k <= |ds| && st.ids != [] && B >= 1
    decreases |ds| - k
  {
    if k == |ds| then Allocation(st, na, true)
    else
      var it := ds[k];
      var s := CredS(st, DeadlineDemand(jobs, it), S, B, S * it, it, fuel);
      if !s.finished then Allocation(s.st, na, false)
      else
        var p := StageMachines(jobs, ds, it, S, 1, s.count, Staged([], s.st.t));
        Serve(jobs, ds, k + 1, S, B, State(p.t, s.st.ids), |s.st.ids|, fuel)
  }

  /** One step of Serve, given the outcome s of its cred_s call. */
  lemma ServeStep(jobs: seq<Job>, ds: seq<int>, k: nat, S: int, B: nat, st: State, na: int, fuel: nat, s: Solved)
    requires k < |ds| && st.ids != [] && B >= 1
    requires s == CredS(st, DeadlineDemand(jobs, ds[k]), S, B, S * ds[k], ds[k], fuel)
    ensures !s.finished ==> Serve(jobs, ds, k, S, B, st, na, fuel) == Allocation(s.st, na, false)
    ensures s.finished ==>
      Serve(jobs, ds, k, S, B, st, na, fuel) == Serve(jobs, ds, k + 1, S, B, State(StageMachines(jobs, ds, ds[k], S, 1, s.count, Staged([], s.st.t)).t, s.st.ids), |s.st.ids|, fuel)
  {
  }

  /** `cred_m(jobs)`: the deadline loop over the distinct deadlines in ascending order. */
  function CredM(jobs: seq<Job>, S: int, B: nat, st: State, na: int, fuel: nat): Allocation
    requires st.ids != [] && B >= 1
  {
    Serve(jobs, SortedDeadlines(jobs), 0, S, B, st, na, fuel)
  }

  /** Every job's deadline is nonnegative (the simulation draws them from 1 .. 10). */
  predicate DeadlinesNonNegative(jobs: seq<Job>) {
    forall k :: 0 <= k < |jobs| ==> jobs[k].deadline >= 0
  }

  /** The pairs pre-staging takes from a deadline's list all have positive counts. */
  lemma HostedNonNegative(jobs: seq<Job>, jt: int, n: int, t: Tables)
    ensures NonNegative(Hosted(DeadlineDemand(jobs, jt), n, t))
  {
    var s := DeadlineDemand(jobs, jt);
    DeadlineDemandShape(jobs, jt);
    var r := Hosted(s, n, t);
    HostedMembers(s, n, t);
    forall i | 0 <= i < |r| ensures r[i].demand >= 0 {
      assert r[i] in s;
    }
  }

  /** From tables a to b only machine n's slots changed, and n is the only machine a host index gained. */
  ghost predicate OnlyTouches(a: Tables, b: Tables, n: int) {
    && (forall m :: m != n ==> Slots(b, m) == Slots(a, m))
    && (forall x :: HostsOf(a, x) <= HostsOf(b, x) <= HostsOf(a, x) + {n})
  }

  lemma OnlyTouchesTrans(a: Tables, b: Tables, c: Tables, n: int)
    requires OnlyTouches(a, b, n) && OnlyTouches(b, c, n)
    ensures OnlyTouches(a, c, n)
  {
  }

  /**
   * One pre-staging call with a positive deadline key keeps the invariants
   * and the demands nonnegative, and touches only machine n.
   */
  lemma StageCallKeeps(jobs: seq<Job>, jt: int, n: int, nts: int, d: int, p: Staged)
    requires SlotsNonNegative(p.t) && Consistent(p.t) && NonNegative(p.chunks) && d > 0
    ensures var q := StageCall(jobs, jt, n, nts, d, p);
      NonNegative(q.chunks) && SlotsNonNegative(q.t) && Consistent(q.t) && OnlyTouches(p.t, q.t, n)
  {
    HostedNonNegative(jobs, jt, n, p.t);
    StageStep(p.chunks, Hosted(DeadlineDemand(jobs, jt), n, p.t), nts, n, d, p.t);
  }

  /** The schedule call of one pre-staging step, on the list grown by `add`. */
  lemma StageStep(chunks: seq<Entry>, add: seq<Entry>, nts: int, n: int, d: int, t: Tables)
    requires SlotsNonNegative(t) && Consistent(t) && NonNegative(chunks) && NonNegative(add) && d > 0
    ensures var r := Schedule(chunks + add, nts, n, d, t);
      NonNegative(chunks + add) && SlotsNonNegative(r.tables) && Consistent(r.tables) && OnlyTouches(t, r.tables, n)
  {
    var c := chunks + add;
    assert NonNegative(c) by {
      forall i | 0 <= i < |c| ensures c[i].demand >= 0 {
        if i >= |chunks| {
          assert c[i] == add[i - |chunks|];
        }
      }
    }
    ScheduleKeepsInvariants(c, nts, n, d, t);
    ScheduleConserves(c, nts, n, d, t);
    forall x ensures HostsOf(t, x) <= HostsOf(Schedule(c, nts, n, d, t).tables, x) <= HostsOf(t, x) + {n} {
      ScheduleRecordsHosts(c, nts, n, d, t, x);
    }
  }

  /**
   * The inner pre-staging loop keeps the tables' invariants: every call gets
   * a positive deadline key, since the deadlines after `it` come in ascending
   * order.
   */
  lemma {:induction false} StageDeadlinesKeeps(jobs: seq<Job>, ds: seq<int>, k: nat, it: int, n: int, S: int, tempPrev: int, p: Staged)
    requires k <= |ds| && StrictlyIncreasing(ds)
    requires forall j :: k <= j < |ds| && ds[j] > it ==> ds[j] > tempPrev
    requires SlotsNonNegative(p.t) && Consistent(p.t) && NonNegative(p.chunks)
    ensures var r := StageDeadlines(jobs, ds, k, it, n, S, tempPrev, p);
      && SlotsNonNegative(r.t) && Consistent(r.t) && NonNegative(r.chunks) && OnlyTouches(p.t, r.t, n)
    decreases |ds| - k, 1
  {
    if k == |ds| {
      assert OnlyTouches(p.t, p.t, n);
    } else if ds[k] <= it {
      SkipKeeps(jobs, ds, k, it, n, S, tempPrev, p);
    } else {
      CallKeeps(jobs, ds, k, it, n, S, tempPrev, p);
    }
  }

  /** StageDeadlines at a deadline after `it`: the call, then the rest of the loop. */
  lemma StageDeadlinesCall(jobs: seq<Job>, ds: seq<int>, k: nat, it: int, n: int, S: int, tempPrev: int, p: Staged)
    requires k < |ds| && ds[k] > it
    ensures StageDeadlines(jobs, ds, k, it, n, S, tempPrev, p)
      == StageDeadlines(jobs, ds, k + 1, it, n, S, ds[k], StageCall(jobs, ds[k], n, Budget(S, ds[k], Slots(p.t, n)), ds[k] - tempPrev, p))
  {
  }

  /** StageDeadlines at a deadline no later than `it`: the deadline is passed over. */
  lemma StageDeadlinesSkip(jobs: seq<Job>, ds: seq<int>, k: nat, it: int, n: int, S: int, tempPrev: int, p: Staged)
    requires k < |ds| && ds[k] <= it
    ensures StageDeadlines(jobs, ds, k, it, n, S, tempPrev, p) == StageDeadlines(jobs, ds, k + 1, it, n, S, tempPrev, p)
  {
  }

  /** StageDeadlinesKeeps at a deadline no later than `it`, which is passed over. */
  lemma {:induction false} SkipKeeps(jobs: seq<Job>, ds: seq<int>, k: nat, it: int, n: int, S: int, tempPrev: int, p: Staged)
    requires k < |ds| && ds[k] <= it && StrictlyIncreasing(ds)
    requires forall j :: k <= j < |ds| && ds[j] > it ==> ds[j] > tempPrev
    requires SlotsNonNegative(p.t) && Consistent(p.t) && NonNegative(p.chunks)
    ensures var r := StageDeadlines(jobs, ds, k, it, n, S, tempPrev, p);
      && SlotsNonNegative(r.t) && Consistent(r.t) && NonNegative(r.chunks) && OnlyTouches(p.t, r.t, n)
    decreases |ds| - k, 0
  {
    StageDeadlinesSkip(jobs, ds, k, it, n, S, tempPrev, p);
    StageDeadlinesKeeps(jobs, ds, k + 1, it, n, S, tempPrev, p);
  }

  /** StageDeadlinesKeeps at a deadline after `it`, which makes its call. */
  lemma {:induction false} CallKeeps(jobs: seq<Job>, ds: seq<int>, k: nat, it: int, n: int, S: int, tempPrev: int, p: Staged)
    requires k < |ds| && ds[k] > it && StrictlyIncreasing(ds)
    requires forall j :: k <= j < |ds| && ds[j] > it ==> ds[j] > tempPrev
    requires SlotsNonNegative(p.t) && Consistent(p.t) && NonNegative(p.chunks)
    ensures var r := StageDeadlines(jobs, ds, k, it, n, S, tempPrev, p);
      && SlotsNonNegative(r.t) && Consistent(r.t) && NonNegative(r.chunks) && OnlyTouches(p.t, r.t, n)
    decreases |ds| - k, 0
  {
    var jt := ds[k];
    var q := StageCall(jobs, jt, n, Budget(S, jt, Slots(p.t, n)), jt - tempPrev, p);
    var r := StageDeadlines(jobs, ds, k + 1, it, n, S, jt, q);
    StageDeadlinesCall(jobs, ds, k, it, n, S, tempPrev, p);
    StageCallKeeps(jobs, jt, n, Budget(S, jt, Slots(p.t, n)), jt - tempPrev, p);
    StageDeadlinesKeeps(jobs, ds, k + 1, it, n, S, jt, q);
    OnlyTouchesTrans(p.t, q.t, r.t, n);
  }

  /**
   * The whole pre-staging pass over machines lo .. temp keeps the tables'
   * invariants, changes the slots of no machine outside lo .. temp, and adds
   * only machines of lo .. temp to host indexes.
   */
  lemma {:induction false} StageMachinesKeeps(jobs: seq<Job>, ds: seq<int>, it: int, S: int, lo: int, temp: int, p: Staged)
    requires StrictlyIncreasing(ds)
    requires SlotsNonNegative(p.t) && Consistent(p.t) && NonNegative(p.chunks)
    ensures var r := StageMachines(jobs, ds, it, S, lo, temp, p);
      && SlotsNonNegative(r.t) && Consistent(r.t)
      && (forall m :: (m < lo || m > temp) ==> Slots(r.t, m) == Slots(p.t, m))
      && (forall x, m :: m in HostsOf(r.t, x) ==> m in HostsOf(p.t, x) || lo <= m <= temp)
    decreases temp - lo
  {
    if lo <= temp {
      var q := StageDeadlines(jobs, ds, 0, it, lo, S, it, p);
      StageDeadlinesKeeps(jobs, ds, 0, it, lo, S, it, p);
      StageMachinesKeeps(jobs, ds, it, S, lo + 1, temp, q);
    }
  }

  /**
   * cred_m keeps the allocator's invariants. Machines are only added, with
   * consecutive ids. Whenever at least one deadline was served and every
   * cred_s call finished, `N_a` is the final number of machines.
   */
  lemma {:induction false} ServeKeepsGood(jobs: seq<Job>, ds: seq<int>, k: nat, S: int, B: nat, st: State, na: int, fuel: nat)
    requires k <= |ds| && B >= 1 && Good(st) && S >= 0
    requires StrictlyIncreasing(ds) && forall j :: k <= j < |ds| ==> ds[j] >= 0
    ensures var a := Serve(jobs, ds, k, S, B, st, na, fuel);
      && Good(a.st) && ExtendsIds(st.ids, a.st.ids)
      && (k < |ds| && a.finished ==> a.na == |a.st.ids|)
      && (k == |ds| ==> a == Allocation(st, na, true))
    decreases |ds| - k
  {
    if k < |ds| {
      var it := ds[k];
      var chunks := DeadlineDemand(jobs, it);
      DeadlineDemandShape(jobs, it);
      var s := CredS(st, chunks, S, B, S * it, it, fuel);
      CredSKeepsGood(st, chunks, S, B, S * it, it, fuel);
      if s.finished {
        var p := StageMachines(jobs, ds, it, S, 1, s.count, Staged([], s.st.t));
        StageMachinesKeeps(jobs, ds, it, S, 1, s.count, Staged([], s.st.t));
        var next := State(p.t, s.st.ids);
        ServeKeepsGood(jobs, ds, k + 1, S, B, next, |s.st.ids|, fuel);
        ExtendIdsTrans(st.ids, s.st.ids, Serve(jobs, ds, k + 1, S, B, next, |s.st.ids|, fuel).st.ids);
      }
    } else {
      assert st.ids[..|st.ids|] == st.ids;
    }
  }

  lemma ExtendIdsTrans(a: seq<int>, b: seq<int>, c: seq<int>)
    requires a != [] && ExtendsIds(a, b) && ExtendsIds(b, c)
    ensures ExtendsIds(a, c)
  {
    assert c[..|a|] == c[..|b|][..|a|];
    forall k | |b| <= k < |c| ensures c[k] == NextId(a) + (k - |a|) {
      if |b| > |a| {
        assert b[|b| - 1] == NextId(a) + (|b| - 1 - |a|);
      }
    }
  }

  /**
   * cred_m serves the distinct deadlines in strictly increasing order, keeps
   * the allocator's invariants, only adds machines, and when there is at
   * least one job and every cred_s call finishes, leaves `N_a` equal to the
   * number of machines.
   */
  lemma CredMKeepsGood(jobs: seq<Job>, S: int, B: nat, st: State, na: int, fuel: nat)
    requires B >= 1 && Good(st) && S >= 0 && DeadlinesNonNegative(jobs)
    ensures StrictlyIncreasing(SortedDeadlines(jobs))
    ensures var a := CredM(jobs, S, B, st, na, fuel);
      && Good(a.st) && ExtendsIds(st.ids, a.st.ids)
      && (jobs != [] && a.finished ==> a.na == |a.st.ids|)
  {
    var ds := SortedDeadlines(jobs);
    forall j | 0 <= j < |ds| ensures ds[j] >= 0 {
      assert ds[j] in Deadlines(jobs);
    }
    if jobs != [] {
      assert jobs[0].deadline in Deadlines(jobs);
    }
    ServeKeepsGood(jobs, ds, 0, S, B, st, na, fuel);
  }
}
