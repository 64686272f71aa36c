/**
 * The allocator as the program runs it: one object holding the global
 * placement maps, the ordered machine ids and `N_a`, whose methods update
 * them in place. Every method is proved to leave exactly the state the pure
 * definitions of the other modules describe, so the properties proved there
 * hold of these methods.
 */
module Allocator {
  import opened Entries
  import opened Window
  import opened Placement
  import opened Demand
  import opened Rounds
  import opened MultiDeadline

  class Cluster {
    /** VM slots per machine per time unit. */
    const S: int
    /** The most distinct chunks one machine is offered in a packing turn. */
    const B: nat

    var chunkNodes: map<(int, int), set<int>>
    var chunkNodeMap: map<int, set<int>>
    var chunkMachineSlots: map<(int, int), map<int, int>>
    var nodeTimeSlots: map<int, int>
    /** machine_ids in ascending order. */
    var machineIds: seq<int>
    /** N_a, the number of active machines cred_m last recorded. */
    var Na: int

    /** The four placement maps as a value. */
    function Current(): Tables
      reads this
    {
      Tables(chunkNodes, chunkNodeMap, chunkMachineSlots, nodeTimeSlots)
    }

    /** The maps and the machine ids as a value. */
    function Snapshot(): State
      reads this
    {
      State(Current(), machineIds)
    }

    /** What every method needs: a machine to take the largest id from, ids ascending, B at least 1. */
    ghost predicate Valid()
      reads this
    {
      machineIds != [] && StrictlyIncreasing(machineIds) && B >= 1
    }

    /** The simulation's initial state: machine 0 seeded with S * 4 slots, everything else empty. */
    constructor (S: int, B: nat)
      requires B >= 1
      ensures this.S == S && this.B == B && Na == 0
      ensures Snapshot() == State(Tables(map[], map[], map[], map[0 := S * 4]), [0])
      ensures Valid()
      ensures S >= 0 ==> Good(Snapshot())
    {
      this.S := S;
      this.B := B;
      chunkNodes := map[];
      chunkNodeMap := map[];
      chunkMachineSlots := map[];
      nodeTimeSlots := map[0 := S * 4];
      machineIds := [0];
      Na := 0;
      new;
      assert S >= 0 ==> S * 4 >= 0;
    }

    /** Writes one grant of `give` slots of chunk x on `node` under key d. */
    method Record(x: int, d: int, node: int, give: int)
      modifies this
      ensures Current() == Place(old(Current()), x, d, node, give)
      ensures machineIds == old(machineIds) && Na == old(Na)
    {
      chunkNodes := chunkNodes[(x, d) := NodesAt(Current(), x, d) + {node}];
      chunkNodeMap := chunkNodeMap[x := HostsOf(Current(), x) + {node}];
      chunkMachineSlots := chunkMachineSlots[(x, d) := GrantsAt(Current(), x, d)[node := give]];
      nodeTimeSlots := nodeTimeSlots[node := Slots(Current(), node) - give];
    }

    /**
     * `schedule(c, nts, node, deadline)`: a zero budget returns the list as
     * given; otherwise sort it ascending, run the granting loop, and return
     * the entries with demand left.
     */
    method Schedule(c0: seq<Entry>, nts0: int, node: int, d: int) returns (res: seq<Entry>)
      modifies this
      ensures var r := Placement.Schedule(c0, nts0, node, d, old(Current()));
        res == r.rest && Current() == r.tables
      ensures machineIds == old(machineIds) && Na == old(Na)
    {
      if nts0 == 0 {
        return c0;
      }
      var c := GrantLoop(SortAsc(c0), nts0, node, d);
      res := Unsettled(c);
    }

    /**
     * The granting loop of schedule: every chunk `node` does not yet host
     * for d gets its grant, in list order, until the budget is exactly used
     * up; returns the list with the demands lowered.
     */
    method GrantLoop(c0: seq<Entry>, nts0: int, node: int, d: int) returns (c: seq<Entry>)
      modifies this
      ensures Placed(c, Current()) == ScheduleLoop(c0, 0, nts0, node, d, old(Current()))
      ensures machineIds == old(machineIds) && Na == old(Na)
    {
      c := c0;
      var nts := nts0;
      ghost var target := ScheduleLoop(c, 0, nts, node, d, Current());
      var i := 0;
      while i < |c|
        invariant 0 <= i <= |c|
        invariant ScheduleLoop(c, i, nts, node, d, Current()) == target
        invariant machineIds == old(machineIds) && Na == old(Na)
      {
        if node in NodesAt(Current(), c[i].id, d) {
          i := i + 1;
          continue;
        }
        c, nts := GrantAt(c, i, nts, node, d);
        if nts == 0 {
          assert target == Placed(c, Current());
          break;
        }
        i := i + 1;
      }
    }

    /**
     * The body of the granting loop for a chunk `node` does not yet host for
     * d: all of its demand if that fits within the machine's slots and d,
     * else the smaller of those two; the grant is recorded and taken off the
     * budget and the entry's demand.
     */
    method GrantAt(c0: seq<Entry>, i: nat, nts0: int, node: int, d: int) returns (c: seq<Entry>, nts: int)
      requires i < |c0| && node !in NodesAt(Current(), c0[i].id, d)
      modifies this
      ensures Visit(c0, i, nts0, node, d, old(Current())) == Visited(c, nts, Current(), nts == 0)
      ensures machineIds == old(machineIds) && Na == old(Na)
    {
      var x := c0[i].id;
      var slots := Slots(Current(), node);
      if c0[i].demand > Min(slots, d) {
        var give := Min(slots, d);
        Record(x, d, node, give);
        nts := nts0 - give;
        c := c0[i := Entry(c0[i].demand - give, x)];
      } else {
        var give := c0[i].demand;
        Record(x, d, node, give);
        nts := nts0 - give;
        c := c0[i := Entry(0, x)];
      }
    }

    /** The final loop of schedule: the entries whose demand is not zero, in order. */
    method Unsettled(c: seq<Entry>) returns (res: seq<Entry>)
      ensures res == NonZero(c)
    {
      res := [];
      var k := 0;
      while k < |c|
        invariant 0 <= k <= |c|
        invariant res == NonZero(c[..k])
      {
        NonZeroSnoc(c[..k], c[k]);
        assert c[..k + 1] == c[..k] + [c[k]];
        if c[k].demand != 0 {
          res := res + [c[k]];
        }
        k := k + 1;
      }
      assert c[..k] == c;
    }

    /** Creates machine `max + 1` with S * td slots. */
    method OpenMachine(td: int)
      requires Valid()
      modifies this
      ensures Valid() && Na == old(Na)
      ensures Snapshot() == Open(old(Snapshot()), S, td)
    {
      OpenFresh(Snapshot(), S, td);
      var n := machineIds[|machineIds| - 1] + 1;
      machineIds := machineIds + [n];
      nodeTimeSlots := nodeTimeSlots[n := S * td];
    }

    /**
     * The round for at most B entries: offer the list to every machine in
     * ascending id order, then open one machine for any leftovers.
     */
    method SmallRound(chunks: seq<Entry>, td: int) returns (rest: seq<Entry>)
      requires Valid()
      modifies this
      ensures Valid() && Na == old(Na)
      ensures var o := Rounds.SmallRound(old(Snapshot()), chunks, S, td);
        Snapshot() == o.st && rest == o.rest
    {
      var res := chunks;
      ghost var t0 := Current();
      var k := 0;
      while k < |machineIds|
        invariant 0 <= k <= |machineIds|
        invariant machineIds == old(machineIds) && Na == old(Na)
        invariant OfferAll(machineIds[k..], res, td, Current()) == OfferAll(machineIds, chunks, td, t0)
      {
        var jt := machineIds[k];
        assert machineIds[k..][1..] == machineIds[k + 1..];
        res := Schedule(res, Slots(Current(), jt), jt, td);
        k := k + 1;
      }
      assert machineIds[k..] == [];
      if |res| > 0 {
        OpenMachine(td);
        var n := machineIds[|machineIds| - 1];
        res := Schedule(res, Slots(Current(), n), n, td);
      }
      rest := res;
    }

    /**
     * One machine's turn in the round for more than B entries. `newChunks`
     * is the list the previous turn built, never cleared, which is the
     * current list once a turn has run. With at most B entries the whole list
     * is offered and the leftovers are appended to `newChunks`; otherwise the
     * window is selected and split off, the rest becomes the new list and the
     * window's leftovers are appended to it.
     */
    method PackStep(chunks: seq<Entry>, newChunks: seq<Entry>, node: int, vd: int, td: int) returns (next: seq<Entry>)
      requires Valid()
      requires |chunks| <= B ==> newChunks == chunks
      modifies this
      ensures var p := Rounds.PackStep(chunks, node, B, vd, td, old(Current()));
        next == p.rest && Current() == p.tables
      ensures machineIds == old(machineIds) && Na == old(Na)
    {
      if |chunks| <= B {
        var res := Schedule(chunks, Slots(Current(), node), node, td);
        next := newChunks + res;
      } else {
        next := PackWindow(chunks, node, vd, td);
      }
    }

    /**
     * The turn with more than B entries: select the window, split it off,
     * offer it to `node`, and return the rest followed by the window's
     * leftovers.
     */
    method PackWindow(chunks: seq<Entry>, node: int, vd: int, td: int) returns (next: seq<Entry>)
      requires B >= 1 && |chunks| > B
      modifies this
      ensures var r := Placement.Schedule(Offered(chunks, B, vd), Slots(old(Current()), node), node, td, old(Current()));
        next == Unoffered(chunks, B, vd) + r.rest && Current() == r.tables
      ensures machineIds == old(machineIds) && Na == old(Na)
    {
      var j, i := FindWindow(chunks, B, vd);
      var c, rest := SplitWindow(chunks, j, i);
      SplitIsOffered(chunks, B, vd, j, i, c, rest);
      var res := Schedule(c, Slots(Current(), node), node, td);
      next := rest + res;
    }

    /**
     * The round for more than B entries: a packing turn on every machine in
     * ascending id order, then, if entries remain, one new machine and a
     * packing turn on it.
     */
    method LargeRound(chunks0: seq<Entry>, vd: int, td: int) returns (rest: seq<Entry>)
      requires Valid() && |chunks0| > B
      modifies this
      ensures Valid() && Na == old(Na)
      ensures var o := Rounds.LargeRound(old(Snapshot()), chunks0, S, B, vd, td);
        Snapshot() == o.st && rest == o.rest
    {
      var chunks := chunks0;
      var newChunks: seq<Entry> := [];
      ghost var t0 := Current();
      var k := 0;
      while k < |machineIds|
        invariant 0 <= k <= |machineIds|
        invariant machineIds == old(machineIds) && Na == old(Na)
        invariant k == 0 ==> chunks == chunks0
        invariant k > 0 ==> newChunks == chunks
        invariant PackAll(machineIds[k..], chunks, B, vd, td, Current()) == PackAll(machineIds, chunks0, B, vd, td, t0)
      {
        var jt := machineIds[k];
        assert machineIds[k..][1..] == machineIds[k + 1..];
        newChunks := PackStep(chunks, newChunks, jt, vd, td);
        chunks := newChunks;
        k := k + 1;
      }
      assert machineIds[k..] == [];
      if |chunks| > 0 {
        OpenMachine(td);
        var n := machineIds[|machineIds| - 1];
        newChunks := PackStep(chunks, newChunks, n, vd, td);
        chunks := newChunks;
      }
      rest := chunks;
    }

    /**
     * `cred_s(chunks, vd, td)`: 0 for an empty list; otherwise sort by
     * decreasing demand and run rounds until no demand is left, at most
     * `fuel` of them, then report the number of machines.
     */
    method CredS(chunks0: seq<Entry>, vd: int, td: int, fuel: nat) returns (count: int, finished: bool)
      requires Valid()
      modifies this
      ensures Valid() && Na == old(Na)
      ensures var s := Rounds.CredS(old(Snapshot()), chunks0, S, B, vd, td, fuel);
        count == s.count && finished == s.finished && Snapshot() == s.st
    {
      if |chunks0| == 0 {
        return 0, true;
      }
      var chunks := SortDesc(chunks0);
      var left := fuel;
      ghost var target := Rounds.Rounds(Snapshot(), chunks, S, B, vd, td, fuel);
      while |chunks| > 0 && left > 0
        invariant Valid() && Na == old(Na)
        invariant Rounds.Rounds(Snapshot(), chunks, S, B, vd, td, left) == target
        decreases left
      {
        if |chunks| <= B {
          chunks := SmallRound(chunks, td);
        } else {
          chunks := LargeRound(chunks, vd, td);
        }
        left := left - 1;
      }
      count := |machineIds|;
      finished := |chunks| == 0;
    }

    /** The pre-staging filter: the pairs of jt's list whose chunk machine n hosts and whose count is not zero. */
    method HostedPairs(jobs: seq<Job>, jt: int, n: int) returns (sel: seq<Entry>)
      ensures sel == Hosted(DeadlineDemand(jobs, jt), n, Current())
    {
      var m, keys := CountChunks(jobs, jt);
      ghost var s := DeadlineDemand(jobs, jt);
      sel := [];
      var q := 0;
      while q < |keys|
        invariant 0 <= q <= |keys|
        invariant sel == Hosted(s[..q], n, Current())
      {
        var e := Entry(Count(m, keys[q]), keys[q]);
        PairsAt(jobs, jt, keys, q);
        HostedPrefix(s, q, n, Current());
        if n in HostsOf(Current(), e.id) && e.demand != 0 {
          sel := sel + [e];
        }
        q := q + 1;
      }
      assert s[..q] == s;
    }

    /**
     * The pre-staging pass after the cred_s call for deadline `it`: for each
     * machine 1 .. temp and each later deadline jt, append the pairs of jt's
     * list the machine hosts to a list that is never cleared, and call
     * schedule on the machine with budget S * jt minus its slots and deadline
     * key jt - tempPrev, dropping the result.
     */
    method PreStage(jobs: seq<Job>, ds: seq<int>, it: int, temp: int)
      modifies this
      ensures Current() == StageMachines(jobs, ds, it, S, 1, temp, Staged([], old(Current()))).t
      ensures machineIds == old(machineIds) && Na == old(Na)
    {
      var chunks: seq<Entry> := [];
      ghost var target := StageMachines(jobs, ds, it, S, 1, temp, Staged([], Current()));
      var n := 1;
      while n <= temp
        invariant StageMachines(jobs, ds, it, S, n, temp, Staged(chunks, Current())) == target
        invariant machineIds == old(machineIds) && Na == old(Na)
        decreases temp - n
      {
        chunks := StageMachine(jobs, ds, it, n, chunks);
        n := n + 1;
      }
    }

    /** The pre-staging calls for one machine n, over the deadlines after `it`. */
    method StageMachine(jobs: seq<Job>, ds: seq<int>, it: int, n: int, chunks0: seq<Entry>) returns (chunks: seq<Entry>)
      modifies this
      ensures Staged(chunks, Current()) == StageDeadlines(jobs, ds, 0, it, n, S, it, Staged(chunks0, old(Current())))
      ensures machineIds == old(machineIds) && Na == old(Na)
    {
      chunks := chunks0;
      var tempPrev := it;
      ghost var target := StageDeadlines(jobs, ds, 0, it, n, S, it, Staged(chunks, Current()));
      var k := 0;
      while k < |ds|
        invariant 0 <= k <= |ds|
        invariant StageDeadlines(jobs, ds, k, it, n, S, tempPrev, Staged(chunks, Current())) == target
        invariant machineIds == old(machineIds) && Na == old(Na)
      {
        chunks, tempPrev := StageAt(jobs, ds, k, it, n, tempPrev, chunks);
        k := k + 1;
      }
    }

    /** The body of the loop over deadlines: a deadline after `it` gets its pre-staging call. */
    method StageAt(jobs: seq<Job>, ds: seq<int>, k: nat, it: int, n: int, tempPrev0: int, chunks0: seq<Entry>)
      returns (chunks: seq<Entry>, tempPrev: int)
      requires k < |ds|
      modifies this
      ensures StageDeadlines(jobs, ds, k, it, n, S, tempPrev0, Staged(chunks0, old(Current())))
        == StageDeadlines(jobs, ds, k + 1, it, n, S, tempPrev, Staged(chunks, Current()))
      ensures machineIds == old(machineIds) && Na == old(Na)
    {
      ghost var p := Staged(chunks0, Current());
      chunks, tempPrev := chunks0, tempPrev0;
      var jt := ds[k];
      if jt > it {
        StageDeadlinesCall(jobs, ds, k, it, n, S, tempPrev, p);
        chunks := StageOne(jobs, jt, n, tempPrev, chunks);
        tempPrev := jt;
      } else {
        StageDeadlinesSkip(jobs, ds, k, it, n, S, tempPrev, p);
      }
    }

    /**
     * One pre-staging call: append the pairs of jt's list that n hosts, then
     * call schedule on n with budget S * jt minus n's slots and deadline key
     * jt - tempPrev, dropping its result.
     */
    method StageOne(jobs: seq<Job>, jt: int, n: int, tempPrev: int, chunks0: seq<Entry>) returns (chunks: seq<Entry>)
      modifies this
      ensures Staged(chunks, Current())
        == StageCall(jobs, jt, n, Budget(S, jt, Slots(old(Current()), n)), jt - tempPrev, Staged(chunks0, old(Current())))
      ensures machineIds == old(machineIds) && Na == old(Na)
    {
      var add := HostedPairs(jobs, jt, n);
      chunks := chunks0 + add;
      var budget := Budget(S, jt, Slots(Current(), n));
      var dropped := Schedule(chunks, budget, n, jt - tempPrev);
    }

    /**
     * `cred_m(jobs)`: for each distinct deadline in ascending order,
     * aggregate its demand, run cred_s on it, run the pre-staging pass, and
     * record the number of machines in `N_a`. A cred_s call that runs out of
     * fuel ends the loop and is reported.
     */
    method CredM(jobs: seq<Job>, fuel: nat) returns (finished: bool)
      requires Valid()
      modifies this
      ensures Valid()
      ensures var a := MultiDeadline.CredM(jobs, S, B, old(Snapshot()), old(Na), fuel);
        Snapshot() == a.st && Na == a.na && finished == a.finished
    {
      var ds := DistinctDeadlines(jobs);
      var prev := 0;
      ghost var target := Serve(jobs, ds, 0, S, B, Snapshot(), Na, fuel);
      var k := 0;
      while k < |ds|
        invariant 0 <= k <= |ds| && Valid()
        invariant Serve(jobs, ds, k, S, B, Snapshot(), Na, fuel) == target
      {
        var done := ServeDeadline(jobs, ds, k, S * (ds[k] - prev), ds[k] - prev, fuel);
        if !done {
          return false;
        }
        k := k + 1;
      }
      return true;
    }

    /**
     * The body of the deadline loop for ds[k] (vd = S * td and td = ds[k],
     * as prev stays 0): aggregate its demand, run cred_s, and, if that
     * finishes, pre-stage and record the machine count in `N_a`.
     */
    method ServeDeadline(jobs: seq<Job>, ds: seq<int>, k: nat, vd: int, td: int, fuel: nat) returns (done: bool)
      requires k < |ds| && Valid() && td == ds[k] && vd == S * ds[k]
      modifies this
      ensures Valid()
      ensures var a := Serve(jobs, ds, k, S, B, old(Snapshot()), old(Na), fuel);
        if done then Serve(jobs, ds, k + 1, S, B, Snapshot(), Na, fuel) == a
        else Snapshot() == a.st && Na == a.na && !a.finished
    {
      ghost var st0, na0 := Snapshot(), Na;
      var chunks := Aggregate(jobs, td);
      var temp;
      temp, done := CredS(chunks, vd, td, fuel);
      ServeStep(jobs, ds, k, S, B, st0, na0, fuel, Solved(temp, Snapshot(), done));
      if done {
        PreStage(jobs, ds, td, temp);
        Na := |machineIds|;
      }
    }
  }
}
