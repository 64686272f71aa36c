/**
 * The placement tables and the packing primitive `schedule`, stated as pure
 * functions over a value of the tables. The Cluster class keeps the same
 * tables as fields and its Schedule method is proved to agree with Schedule
 * below; the properties of the primitive are proved here, once.
 */
module Placement {
  import opened Entries

  /**
   * The global maps the core reads and writes: who hosts a chunk for a
   * deadline, which machines ever hosted a chunk, the slots granted per
   * (chunk, deadline, machine), and each machine's remaining slots.
   */
  datatype Tables = Tables(
    chunkNodes: map<(int, int), set<int>>,
    chunkNodeMap: map<int, set<int>>,
    chunkMachineSlots: map<(int, int), map<int, int>>,
    nodeTimeSlots: map<int, int>)

  /** Result of one packing call: the entries still carrying demand, and the new tables. */
  datatype Placed = Placed(rest: seq<Entry>, tables: Tables)

  // Lookups with the default a std::map's operator[] gives to a missing key.

  function NodesAt(t: Tables, x: int, d: int): set<int> {
    if (x, d) in t.chunkNodes then t.chunkNodes[(x, d)] else {}
  }

  function HostsOf(t: Tables, x: int): set<int> {
    if x in t.chunkNodeMap then t.chunkNodeMap[x] else {}
  }

  function GrantsAt(t: Tables, x: int, d: int): map<int, int> {
    if (x, d) in t.chunkMachineSlots then t.chunkMachineSlots[(x, d)] else map[]
  }

  function Slots(t: Tables, n: int): int {
    if n in t.nodeTimeSlots then t.nodeTimeSlots[n] else 0
  }

  /** No machine has a negative number of remaining slots. */
  ghost predicate SlotsNonNegative(t: Tables) {
    forall n :: Slots(t, n) >= 0
  }

  /**
   * The host sets and the grant records describe the same placements, and a
   * machine that hosts a chunk for some deadline is in the chunk's host index.
   */
  ghost predicate Consistent(t: Tables) {
    && (forall x, d, n :: n in NodesAt(t, x, d) <==> n in GrantsAt(t, x, d))
    && (forall x, d, n :: n in NodesAt(t, x, d) ==> n in HostsOf(t, x))
  }

  function Min(a: int, b: int): int {
    if a <= b then a else b
  }

  /**
   * The slots one chunk gets on a machine: all of its demand if that fits
   * within both the machine's remaining slots and the deadline, else the
   * smaller of those two.
   */
  function Grant(demand: int, slots: int, deadline: int): (give: int)
    ensures give <= demand && give <= slots && give <= deadline
    ensures give == demand || give == slots || give == deadline
    ensures give < demand <==> demand > Min(slots, deadline)
  {
    if demand > Min(slots, deadline) then Min(slots, deadline) else demand
  }

  /** Records a grant of `give` slots of chunk x on `node` under deadline d. */
  function Place(t: Tables, x: int, d: int, node: int, give: int): Tables {
    Tables(
      t.chunkNodes[(x, d) := NodesAt(t, x, d) + {node}],
      t.chunkNodeMap[x := HostsOf(t, x) + {node}],
      t.chunkMachineSlots[(x, d) := GrantsAt(t, x, d)[node := give]],
      t.nodeTimeSlots[node := Slots(t, node) - give])
  }

  /**
   * A grant adds `node` to x's host set for d and to x's host index, records
   * `give` for `node` in x's grant record for d, takes `give` off `node`'s
   * slots, and changes nothing else.
   */
  lemma PlaceEffect(t: Tables, x: int, d: int, node: int, give: int)
    ensures var u := Place(t, x, d, node, give);
      && (forall y, e :: NodesAt(u, y, e) == if y == x && e == d then NodesAt(t, y, e) + {node} else NodesAt(t, y, e))
      && (forall y :: HostsOf(u, y) == if y == x then HostsOf(t, y) + {node} else HostsOf(t, y))
      && (forall y, e :: GrantsAt(u, y, e) == if y == x && e == d then GrantsAt(t, y, e)[node := give] else GrantsAt(t, y, e))
      && (forall n :: Slots(u, n) == if n == node then Slots(t, n) - give else Slots(t, n))
  {
  }

  /** The list, budget and tables after visiting one position, and whether the loop stops there. */
  datatype Visited = Visited(c: seq<Entry>, nts: int, t: Tables, stop: bool)

  /**
   * One iteration of the packing loop at position i: a chunk `node` already
   * hosts for d is skipped; any other gets its grant, and the loop stops as
   * soon as the budget is then exactly zero.
   */
  function Visit(c: seq<Entry>, i: nat, nts: int, node: int, d: int, t: Tables): (v: Visited)
    requires i < |c|
    ensures |v.c| == |c|
  {
    if node in NodesAt(t, c[i].id, d) then Visited(c, nts, t, false)
    else
      var give := Grant(c[i].demand, Slots(t, node), d);
      Visited(c[i := Entry(c[i].demand - give, c[i].id)], nts - give, Place(t, c[i].id, d, node, give), nts - give == 0)
  }

  /** The packing loop from position i on, with budget nts left. */
  function ScheduleLoop(c: seq<Entry>, i: nat, nts: int, node: int, d: int, t: Tables): Placed
    requires i <= |c|
    decreases |c| - i
  {
    if i == |c| then Placed(c, t)
    else
      var v := Visit(c, i, nts, node, d, t);
      if v.stop then Placed(v.c, v.t) else ScheduleLoop(v.c, i + 1, v.nts, node, d, v.t)
  }

  /**
   * `schedule(c, nts, node, deadline)`: a zero budget returns the list as
   * given; otherwise the list is sorted ascending, packed, and the entries
   * whose demand is still nonzero are returned.
   */
  function Schedule(c: seq<Entry>, nts: int, node: int, d: int, t: Tables): (r: Placed)
    ensures nts == 0 ==> r == Placed(c, t)
    ensures nts != 0 ==> forall e :: e in r.rest ==> e.demand != 0
  {
    if nts == 0 then Placed(c, t)
    else
      var r := ScheduleLoop(SortAsc(c), 0, nts, node, d, t);
      Placed(NonZero(r.rest), r.tables)
  }

  /** `a` is `b` with each entry's demand lowered, never below zero, ids in place. */
  ghost predicate Reduced(a: seq<Entry>, b: seq<Entry>) {
    |a| == |b| && forall k :: 0 <= k < |a| ==> a[k].id == b[k].id && 0 <= a[k].demand <= b[k].demand
  }

  lemma ReducedTrans(a: seq<Entry>, b: seq<Entry>, c: seq<Entry>)
    requires Reduced(a, b) && Reduced(b, c)
    ensures Reduced(a, c)
  {
  }

  /** A grant record for (x, d) either is untouched or gained one entry for `node` in [0, cap]. */
  ghost predicate GrantWithin(t: Tables, u: Tables, x: int, d: int, node: int, cap: int) {
    || GrantsAt(u, x, d) == GrantsAt(t, x, d)
    || (&& node in GrantsAt(u, x, d)
        && GrantsAt(u, x, d) == GrantsAt(t, x, d)[node := GrantsAt(u, x, d)[node]]
        && 0 <= GrantsAt(u, x, d)[node] <= cap)
  }

  lemma GrantWithinTrans(t: Tables, t': Tables, u: Tables, x: int, d: int, node: int, cap: int, cap': int)
    requires GrantWithin(t, t', x, d, node, cap)
    requires GrantWithin(t', u, x, d, node, cap')
    requires cap' <= cap
    ensures GrantWithin(t, u, x, d, node, cap)
  {
    if GrantsAt(u, x, d) != GrantsAt(t', x, d) && GrantsAt(t', x, d) != GrantsAt(t, x, d) {
      var g' := GrantsAt(t', x, d)[node];
      var g := GrantsAt(u, x, d)[node];
      assert GrantsAt(u, x, d) == GrantsAt(t, x, d)[node := g'][node := g];
      assert GrantsAt(u, x, d) == GrantsAt(t, x, d)[node := g];
    }
  }

  lemma {:induction false} SumUpdate(c: seq<Entry>, i: nat, e: Entry)
    requires i < |c|
    ensures Sum(c[i := e]) == Sum(c) - c[i].demand + e.demand
  {
    assert c == c[..i] + [c[i]] + c[i + 1..];
    assert c[i := e] == c[..i] + [e] + c[i + 1..];
    SumConcat(c[..i] + [c[i]], c[i + 1..]);
    SumConcat(c[..i], [c[i]]);
    SumConcat(c[..i] + [e], c[i + 1..]);
    SumConcat(c[..i], [e]);
  }

  lemma PlaceKeepsConsistent(t: Tables, x: int, d: int, node: int, give: int)
    requires Consistent(t)
    ensures Consistent(Place(t, x, d, node, give))
  {
    var u := Place(t, x, d, node, give);
    PlaceEffect(t, x, d, node, give);
    forall y, e, n ensures n in NodesAt(u, y, e) <==> n in GrantsAt(u, y, e) {
      if y == x && e == d {
        assert NodesAt(u, y, e) == NodesAt(t, y, e) + {node};
        assert GrantsAt(u, y, e) == GrantsAt(t, y, e)[node := give];
      }
    }
    forall y, e, n | n in NodesAt(u, y, e) ensures n in HostsOf(u, y) {
      if y == x && e == d {
        assert NodesAt(u, y, e) == NodesAt(t, y, e) + {node};
      }
    }
  }

  // What one visit does, property by property.

  lemma VisitKeepsIds(c: seq<Entry>, i: nat, nts: int, node: int, d: int, t: Tables)
    requires i < |c|
    ensures var v := Visit(c, i, nts, node, d, t);
      && (forall k :: 0 <= k < |c| ==> v.c[k].id == c[k].id)
      && (forall k :: 0 <= k < |c| && k != i ==> v.c[k] == c[k])
  {
  }

  lemma VisitSlots(c: seq<Entry>, i: nat, nts: int, node: int, d: int, t: Tables)
    requires i < |c|
    ensures var v := Visit(c, i, nts, node, d, t);
      && Slots(t, node) - Slots(v.t, node) == Sum(c) - Sum(v.c)
      && (forall n :: n != node ==> Slots(v.t, n) == Slots(t, n))
  {
    if node !in NodesAt(t, c[i].id, d) {
      var give := Grant(c[i].demand, Slots(t, node), d);
      PlaceEffect(t, c[i].id, d, node, give);
      SumUpdate(c, i, Entry(c[i].demand - give, c[i].id));
    }
  }

  lemma VisitBounds(c: seq<Entry>, i: nat, nts: int, node: int, d: int, t: Tables)
    requires i < |c|
    requires Slots(t, node) >= 0 && d >= 0 && NonNegative(c)
    ensures var v := Visit(c, i, nts, node, d, t);
      && 0 <= Slots(v.t, node) <= Slots(t, node)
      && Reduced(v.c, c) && NonNegative(v.c)
  {
    if node !in NodesAt(t, c[i].id, d) {
      var give := Grant(c[i].demand, Slots(t, node), d);
      PlaceEffect(t, c[i].id, d, node, give);
    }
  }

  lemma VisitGrantsWithin(c: seq<Entry>, i: nat, nts: int, node: int, d: int, t: Tables, x: int)
    requires i < |c|
    requires Slots(t, node) >= 0 && d >= 0 && NonNegative(c)
    ensures var v := Visit(c, i, nts, node, d, t);
      && GrantWithin(t, v.t, x, d, node, Min(d, Slots(t, node)))
      && (forall e :: e != d ==> GrantsAt(v.t, x, e) == GrantsAt(t, x, e))
      && Min(d, Slots(v.t, node)) <= Min(d, Slots(t, node))
  {
    if node !in NodesAt(t, c[i].id, d) {
      var give := Grant(c[i].demand, Slots(t, node), d);
      var u := Place(t, c[i].id, d, node, give);
      PlaceEffect(t, c[i].id, d, node, give);
      if x == c[i].id {
        assert GrantsAt(u, x, d) == GrantsAt(t, x, d)[node := give];
        assert GrantsAt(u, x, d)[node] == give;
      }
    }
  }

  lemma VisitSkipsPlaced(c: seq<Entry>, i: nat, nts: int, node: int, d: int, t: Tables, x: int)
    requires i < |c|
    requires node in NodesAt(t, x, d)
    ensures var v := Visit(c, i, nts, node, d, t);
      && GrantsAt(v.t, x, d) == GrantsAt(t, x, d)
      && node in NodesAt(v.t, x, d)
      && (forall k :: 0 <= k < |c| && c[k].id == x ==> v.c[k] == c[k])
  {
    if node !in NodesAt(t, c[i].id, d) {
      var give := Grant(c[i].demand, Slots(t, node), d);
      PlaceEffect(t, c[i].id, d, node, give);
    }
  }

  lemma VisitLeavesUnlisted(c: seq<Entry>, i: nat, nts: int, node: int, d: int, t: Tables, x: int)
    requires i < |c| && c[i].id != x
    ensures var v := Visit(c, i, nts, node, d, t);
      && (forall e :: NodesAt(v.t, x, e) == NodesAt(t, x, e))
      && HostsOf(v.t, x) == HostsOf(t, x)
      && (forall e :: GrantsAt(v.t, x, e) == GrantsAt(t, x, e))
  {
    if node !in NodesAt(t, c[i].id, d) {
      PlaceEffect(t, c[i].id, d, node, Grant(c[i].demand, Slots(t, node), d));
    }
  }

  lemma VisitKeepsConsistent(c: seq<Entry>, i: nat, nts: int, node: int, d: int, t: Tables)
    requires i < |c| && Consistent(t)
    ensures Consistent(Visit(c, i, nts, node, d, t).t)
  {
    if node !in NodesAt(t, c[i].id, d) {
      PlaceKeepsConsistent(t, c[i].id, d, node, Grant(c[i].demand, Slots(t, node), d));
    }
  }

  lemma VisitOnlyAddsNode(c: seq<Entry>, i: nat, nts: int, node: int, d: int, t: Tables, x: int)
    requires i < |c|
    ensures var v := Visit(c, i, nts, node, d, t);
      && NodesAt(t, x, d) <= NodesAt(v.t, x, d) <= NodesAt(t, x, d) + {node}
      && (forall e :: e != d ==> NodesAt(v.t, x, e) == NodesAt(t, x, e))
      && HostsOf(t, x) <= HostsOf(v.t, x) <= HostsOf(t, x) + {node}
      && (GrantsAt(v.t, x, d) != GrantsAt(t, x, d) ==> node in NodesAt(v.t, x, d))
  {
    if node !in NodesAt(t, c[i].id, d) {
      PlaceEffect(t, c[i].id, d, node, Grant(c[i].demand, Slots(t, node), d));
    }
  }

  // The same properties over the rest of the loop.

  /** The loop keeps the list's length and ids, and leaves the entries before i alone. */
  lemma {:induction false} LoopKeepsIds(c: seq<Entry>, i: nat, nts: int, node: int, d: int, t: Tables)
    requires i <= |c|
    ensures var r := ScheduleLoop(c, i, nts, node, d, t);
      && |r.rest| == |c|
      && (forall k :: 0 <= k < |c| ==> r.rest[k].id == c[k].id)
      && (forall k :: 0 <= k < i ==> r.rest[k] == c[k])
    decreases |c| - i
  {
    if i < |c| {
      var v := Visit(c, i, nts, node, d, t);
      VisitKeepsIds(c, i, nts, node, d, t);
      if !v.stop {
        LoopKeepsIds(v.c, i + 1, v.nts, node, d, v.t);
      }
    }
  }

  /** The slots `node` loses equal the demand the list loses; no other machine's slots change. */
  lemma {:induction false} LoopSlots(c: seq<Entry>, i: nat, nts: int, node: int, d: int, t: Tables)
    requires i <= |c|
    ensures var r := ScheduleLoop(c, i, nts, node, d, t);
      && Slots(t, node) - Slots(r.tables, node) == Sum(c) - Sum(r.rest)
      && (forall n :: n != node ==> Slots(r.tables, n) == Slots(t, n))
    decreases |c| - i
  {
    if i < |c| {
      var v := Visit(c, i, nts, node, d, t);
      VisitSlots(c, i, nts, node, d, t);
      if !v.stop {
        LoopSlots(v.c, i + 1, v.nts, node, d, v.t);
      }
    }
  }

  /**
   * The loop keeps the ids in place and leaves the entries before i alone; the
   * slots `node` loses equal the demand the list loses, and no other machine's
   * slots change.
   */
  lemma LoopConserves(c: seq<Entry>, i: nat, nts: int, node: int, d: int, t: Tables)
    requires i <= |c|
    ensures var r := ScheduleLoop(c, i, nts, node, d, t);
      && |r.rest| == |c|
      && (forall k :: 0 <= k < |c| ==> r.rest[k].id == c[k].id)
      && (forall k :: 0 <= k < i ==> r.rest[k] == c[k])
      && Slots(t, node) - Slots(r.tables, node) == Sum(c) - Sum(r.rest)
      && (forall n :: n != node ==> Slots(r.tables, n) == Slots(t, n))
  {
    LoopKeepsIds(c, i, nts, node, d, t);
    LoopSlots(c, i, nts, node, d, t);
  }

  /**
   * With nonnegative demands and deadline: remaining slots stay nonnegative and
   * never grow, and demands only shrink and stay nonnegative.
   */
  lemma {:induction false} LoopBounds(c: seq<Entry>, i: nat, nts: int, node: int, d: int, t: Tables)
    requires i <= |c|
    requires Slots(t, node) >= 0 && d >= 0 && NonNegative(c)
    ensures var r := ScheduleLoop(c, i, nts, node, d, t);
      0 <= Slots(r.tables, node) <= Slots(t, node) && Reduced(r.rest, c)
    decreases |c| - i
  {
    if i < |c| {
      var v := Visit(c, i, nts, node, d, t);
      VisitBounds(c, i, nts, node, d, t);
      if !v.stop {
        LoopBounds(v.c, i + 1, v.nts, node, d, v.t);
        ReducedTrans(ScheduleLoop(v.c, i + 1, v.nts, node, d, v.t).rest, v.c, c);
      }
    }
  }

  /**
   * Every grant the loop writes lies between 0 and the smaller of d and the
   * slots the machine had when the call began; records under other deadlines
   * are untouched.
   */
  lemma {:induction false} LoopGrantsWithin(c: seq<Entry>, i: nat, nts: int, node: int, d: int, t: Tables, x: int)
    requires i <= |c|
    requires Slots(t, node) >= 0 && d >= 0 && NonNegative(c)
    ensures var r := ScheduleLoop(c, i, nts, node, d, t);
      && GrantWithin(t, r.tables, x, d, node, Min(d, Slots(t, node)))
      && (forall e :: e != d ==> GrantsAt(r.tables, x, e) == GrantsAt(t, x, e))
    decreases |c| - i
  {
    if i < |c| {
      var v := Visit(c, i, nts, node, d, t);
      VisitGrantsWithin(c, i, nts, node, d, t, x);
      if !v.stop {
        VisitBounds(c, i, nts, node, d, t);
        LoopGrantsWithin(v.c, i + 1, v.nts, node, d, v.t, x);
        var r := ScheduleLoop(v.c, i + 1, v.nts, node, d, v.t);
        GrantWithinTrans(t, v.t, r.tables, x, d, node, Min(d, Slots(t, node)), Min(d, Slots(v.t, node)));
      }
    }
  }

  /**
   * The re-entry guard: when `node` already hosts x for d, every entry for x
   * comes back unchanged and x's grant record is untouched.
   */
  lemma {:induction false} LoopSkipsPlaced(c: seq<Entry>, i: nat, nts: int, node: int, d: int, t: Tables, x: int)
    requires i <= |c|
    requires node in NodesAt(t, x, d)
    ensures var r := ScheduleLoop(c, i, nts, node, d, t);
      && GrantsAt(r.tables, x, d) == GrantsAt(t, x, d)
      && |r.rest| == |c|
      && forall k :: 0 <= k < |c| && c[k].id == x ==> r.rest[k] == c[k]
    decreases |c| - i
  {
    LoopKeepsIds(c, i, nts, node, d, t);
    if i < |c| {
      var v := Visit(c, i, nts, node, d, t);
      VisitSkipsPlaced(c, i, nts, node, d, t, x);
      VisitKeepsIds(c, i, nts, node, d, t);
      if !v.stop {
        LoopSkipsPlaced(v.c, i + 1, v.nts, node, d, v.t, x);
      }
    }
  }

  /** A chunk with no entry from position i on keeps its host sets, host index and grant records. */
  lemma {:induction false} LoopLeavesUnlisted(c: seq<Entry>, i: nat, nts: int, node: int, d: int, t: Tables, x: int)
    requires i <= |c|
    requires forall k :: i <= k < |c| ==> c[k].id != x
    ensures var r := ScheduleLoop(c, i, nts, node, d, t);
      && (forall e :: NodesAt(r.tables, x, e) == NodesAt(t, x, e))
      && HostsOf(r.tables, x) == HostsOf(t, x)
      && (forall e :: GrantsAt(r.tables, x, e) == GrantsAt(t, x, e))
    decreases |c| - i
  {
    if i < |c| {
      var v := Visit(c, i, nts, node, d, t);
      VisitLeavesUnlisted(c, i, nts, node, d, t, x);
      VisitKeepsIds(c, i, nts, node, d, t);
      if !v.stop {
        LoopLeavesUnlisted(v.c, i + 1, v.nts, node, d, v.t, x);
      }
    }
  }

  /** The loop keeps the host sets and the grant records consistent. */
  lemma {:induction false} LoopKeepsConsistent(c: seq<Entry>, i: nat, nts: int, node: int, d: int, t: Tables)
    requires i <= |c| && Consistent(t)
    ensures Consistent(ScheduleLoop(c, i, nts, node, d, t).tables)
    decreases |c| - i
  {
    if i < |c| {
      var v := Visit(c, i, nts, node, d, t);
      VisitKeepsConsistent(c, i, nts, node, d, t);
      if !v.stop {
        LoopKeepsConsistent(v.c, i + 1, v.nts, node, d, v.t);
      }
    }
  }

  /**
   * The loop only ever adds `node`, and only to host sets under deadline d and
   * to host indexes: every other placement is left as it was. Whenever it
   * rewrites x's grant record for d, `node` is recorded as hosting x for d.
   */
  lemma {:induction false} LoopOnlyAddsNode(c: seq<Entry>, i: nat, nts: int, node: int, d: int, t: Tables, x: int)
    requires i <= |c|
    ensures var r := ScheduleLoop(c, i, nts, node, d, t);
      && NodesAt(t, x, d) <= NodesAt(r.tables, x, d) <= NodesAt(t, x, d) + {node}
      && (forall e :: e != d ==> NodesAt(r.tables, x, e) == NodesAt(t, x, e))
      && HostsOf(t, x) <= HostsOf(r.tables, x) <= HostsOf(t, x) + {node}
      && (GrantsAt(r.tables, x, d) != GrantsAt(t, x, d) ==> node in NodesAt(r.tables, x, d))
    decreases |c| - i
  {
    if i < |c| {
      var v := Visit(c, i, nts, node, d, t);
      VisitOnlyAddsNode(c, i, nts, node, d, t, x);
      if !v.stop {
        LoopOnlyAddsNode(v.c, i + 1, v.nts, node, d, v.t, x);
      }
    }
  }

  /**
   * Progress: once the loop reaches an entry for x, `node` hosts x for d;
   * the only way to miss it is that the budget ran out exactly before, in
   * which case the slots `node` lost are the whole budget.
   */
  lemma {:induction false} LoopRecordsReached(c: seq<Entry>, i: nat, nts: int, node: int, d: int, t: Tables, x: int, k: nat)
    requires i <= k < |c| && c[k].id == x && nts != 0 && Consistent(t)
    ensures var r := ScheduleLoop(c, i, nts, node, d, t);
      node in NodesAt(r.tables, x, d) || Slots(t, node) - Slots(r.tables, node) == nts
    decreases |c| - i
  {
    var v := Visit(c, i, nts, node, d, t);
    VisitKeepsIds(c, i, nts, node, d, t);
    VisitKeepsConsistent(c, i, nts, node, d, t);
    if c[i].id == x {
      VisitOnlyAddsNode(c, i, nts, node, d, t, x);
      if node !in NodesAt(t, x, d) {
        PlaceEffect(t, x, d, node, Grant(c[i].demand, Slots(t, node), d));
      }
      if !v.stop {
        LoopOnlyAddsNode(v.c, i + 1, v.nts, node, d, v.t, x);
      }
    } else {
      VisitSlots(c, i, nts, node, d, t);
      SumUpdate(c, i, v.c[i]);
      if !v.stop {
        LoopRecordsReached(v.c, i + 1, v.nts, node, d, v.t, x, k);
      }
    }
  }

  /**
   * With a budget larger than the list's total demand, the loop never stops
   * early, so the one entry for x is granted: `node` hosts x for d, and the
   * grant recorded is the demand x lost. A partial grant means the grant hit
   * the deadline or the machine has no slots left.
   */
  lemma {:induction false} LoopGrantsEntry(c: seq<Entry>, i: nat, nts: int, node: int, d: int, t: Tables, x: int, k: nat)
    requires i <= k < |c| && c[k].id == x
    requires forall j :: i <= j < |c| && j != k ==> c[j].id != x
    requires node !in NodesAt(t, x, d)
    requires Slots(t, node) >= 0 && d >= 0 && NonNegative(c) && nts > Sum(c[i..])
    ensures var r := ScheduleLoop(c, i, nts, node, d, t);
      && |r.rest| == |c|
      && node in NodesAt(r.tables, x, d) && node in HostsOf(r.tables, x) && node in GrantsAt(r.tables, x, d)
      && GrantsAt(r.tables, x, d)[node] == c[k].demand - r.rest[k].demand
      && (r.rest[k].demand > 0 ==> GrantsAt(r.tables, x, d)[node] == d || Slots(r.tables, node) == 0)
    decreases |c| - i
  {
    assert c[i..] == [c[i]] + c[i + 1..];
    assert c[i..][1..] == c[i + 1..];
    SuffixNonNegative(c, i + 1);
    var v := Visit(c, i, nts, node, d, t);
    VisitBounds(c, i, nts, node, d, t);
    VisitKeepsIds(c, i, nts, node, d, t);
    LoopKeepsIds(c, i, nts, node, d, t);
    if node in NodesAt(t, c[i].id, d) {
      LoopGrantsEntry(c, i + 1, nts, node, d, t, x, k);
    } else {
      var give := Grant(c[i].demand, Slots(t, node), d);
      PlaceEffect(t, c[i].id, d, node, give);
      assert v.c[i + 1..] == c[i + 1..];
      if i == k {
        LoopLeavesUnlisted(v.c, i + 1, v.nts, node, d, v.t, x);
        LoopKeepsIds(v.c, i + 1, v.nts, node, d, v.t);
        LoopBounds(v.c, i + 1, v.nts, node, d, v.t);
      } else {
        LoopGrantsEntry(v.c, i + 1, v.nts, node, d, v.t, x, k);
      }
    }
  }

  /** A suffix of a list with nonnegative demands has a nonnegative total. */
  lemma {:induction false} SuffixNonNegative(c: seq<Entry>, i: nat)
    requires i <= |c| && NonNegative(c)
    ensures Sum(c[i..]) >= 0
    decreases |c| - i
  {
    if i < |c| {
      assert c[i..][1..] == c[i + 1..];
      SuffixNonNegative(c, i + 1);
    }
  }

  lemma {:induction false} SameAtIdCounts(a: seq<Entry>, b: seq<Entry>, x: int, e: Entry)
    requires |a| == |b| && e.id == x
    requires forall k :: 0 <= k < |a| ==> a[k].id == b[k].id
    requires forall k :: 0 <= k < |a| && b[k].id == x ==> a[k] == b[k]
    ensures multiset(a)[e] == multiset(b)[e]
  {
    if a != [] {
      assert a == [a[0]] + a[1..];
      assert b == [b[0]] + b[1..];
      SameAtIdCounts(a[1..], b[1..], x, e);
    }
  }

  lemma {:induction false} NonZeroCounts(s: seq<Entry>, e: Entry)
    requires e.demand != 0
    ensures multiset(NonZero(s))[e] == multiset(s)[e]
  {
    if s != [] {
      assert s == [s[0]] + s[1..];
      NonZeroCounts(s[1..], e);
    }
  }

  /**
   * Conservation: the slots `node` loses in one call equal the demand the list
   * loses, and no other machine's slots change.
   */
  lemma ScheduleConserves(c: seq<Entry>, nts: int, node: int, d: int, t: Tables)
    ensures var r := Schedule(c, nts, node, d, t);
      && Slots(t, node) - Slots(r.tables, node) == Sum(c) - Sum(r.rest)
      && forall n :: n != node ==> Slots(r.tables, n) == Slots(t, n)
  {
    if nts != 0 {
      LoopConserves(SortAsc(c), 0, nts, node, d, t);
    }
  }

  /**
   * With nonnegative demands and deadline: the machine's slots stay
   * nonnegative and never grow, and the result is the ascending-sorted input
   * with demands lowered in place (never below zero) and the entries that
   * reached zero dropped.
   */
  lemma ScheduleBounds(c: seq<Entry>, nts: int, node: int, d: int, t: Tables)
    requires Slots(t, node) >= 0 && d >= 0 && NonNegative(c)
    ensures var r := Schedule(c, nts, node, d, t);
      && 0 <= Slots(r.tables, node) <= Slots(t, node)
      && NonNegative(r.rest)
      && (nts != 0 ==> exists left :: Reduced(left, SortAsc(c)) && r.rest == NonZero(left))
  {
    if nts != 0 {
      var sorted := SortAsc(c);
      assert NonNegative(sorted) by {
        forall k | 0 <= k < |sorted| ensures sorted[k].demand >= 0 {
          assert sorted[k] in multiset(c);
        }
      }
      LoopBounds(sorted, 0, nts, node, d, t);
      var left := ScheduleLoop(sorted, 0, nts, node, d, t).rest;
      var r := Schedule(c, nts, node, d, t);
      forall k | 0 <= k < |r.rest| ensures r.rest[k].demand >= 0 {
        assert r.rest[k] in left;
      }
    }
  }

  /**
   * Every grant one call writes lies between 0 and the smaller of d and the
   * slots the machine had when the call began, only `node`'s entry of a
   * record changes, and nothing under another deadline changes.
   */
  lemma ScheduleGrantsWithin(c: seq<Entry>, nts: int, node: int, d: int, t: Tables, x: int)
    requires Slots(t, node) >= 0 && d >= 0 && NonNegative(c)
    ensures var r := Schedule(c, nts, node, d, t);
      && GrantWithin(t, r.tables, x, d, node, Min(d, Slots(t, node)))
      && (forall e :: e != d ==> GrantsAt(r.tables, x, e) == GrantsAt(t, x, e))
  {
    if nts != 0 {
      var sorted := SortAsc(c);
      assert NonNegative(sorted) by {
        forall k | 0 <= k < |sorted| ensures sorted[k].demand >= 0 {
          assert sorted[k] in multiset(c);
        }
      }
      LoopGrantsWithin(sorted, 0, nts, node, d, t, x);
    }
  }

  /**
   * The re-entry guard: once `node` hosts chunk x for d, a call on `node` for
   * d leaves x's grant record alone and returns every occurrence of an x
   * entry with nonzero demand untouched.
   */
  lemma ScheduleSkipsPlaced(c: seq<Entry>, nts: int, node: int, d: int, t: Tables, x: int)
    requires node in NodesAt(t, x, d)
    ensures var r := Schedule(c, nts, node, d, t);
      && GrantsAt(r.tables, x, d) == GrantsAt(t, x, d)
      && forall e: Entry :: e.id == x && e.demand != 0 ==> multiset(r.rest)[e] == multiset(c)[e]
  {
    if nts != 0 {
      var sorted := SortAsc(c);
      LoopSkipsPlaced(sorted, 0, nts, node, d, t, x);
      LoopConserves(sorted, 0, nts, node, d, t);
      var left := ScheduleLoop(sorted, 0, nts, node, d, t).rest;
      forall e: Entry | e.id == x && e.demand != 0
        ensures multiset(Schedule(c, nts, node, d, t).rest)[e] == multiset(c)[e]
      {
        SameAtIdCounts(left, sorted, x, e);
        NonZeroCounts(left, e);
      }
    }
  }

  /**
   * A call keeps the tables consistent, only ever adds `node` (to host sets
   * under d and to host indexes), and whenever it writes x's grant record it
   * also records `node` as hosting x for d.
   */
  lemma ScheduleRecordsHosts(c: seq<Entry>, nts: int, node: int, d: int, t: Tables, x: int)
    ensures var r := Schedule(c, nts, node, d, t);
      && (Consistent(t) ==> Consistent(r.tables))
      && NodesAt(t, x, d) <= NodesAt(r.tables, x, d) <= NodesAt(t, x, d) + {node}
      && (forall e :: e != d ==> NodesAt(r.tables, x, e) == NodesAt(t, x, e))
      && HostsOf(t, x) <= HostsOf(r.tables, x) <= HostsOf(t, x) + {node}
      && (GrantsAt(r.tables, x, d) != GrantsAt(t, x, d) ==> node in NodesAt(r.tables, x, d))
  {
    if nts != 0 {
      var sorted := SortAsc(c);
      if Consistent(t) {
        LoopKeepsConsistent(sorted, 0, nts, node, d, t);
      }
      LoopOnlyAddsNode(sorted, 0, nts, node, d, t, x);
    }
  }

  /** A call leaves alone every chunk that has no entry in the list it is given. */
  lemma ScheduleLeavesUnlisted(c: seq<Entry>, nts: int, node: int, d: int, t: Tables, x: int)
    requires forall e :: e in c ==> e.id != x
    ensures var r := Schedule(c, nts, node, d, t);
      && (forall e :: NodesAt(r.tables, x, e) == NodesAt(t, x, e))
      && HostsOf(r.tables, x) == HostsOf(t, x)
      && (forall e :: GrantsAt(r.tables, x, e) == GrantsAt(t, x, e))
  {
    if nts != 0 {
      var sorted := SortAsc(c);
      forall k | 0 <= k < |sorted| ensures sorted[k].id != x {
        assert sorted[k] in multiset(c);
      }
      LoopLeavesUnlisted(sorted, 0, nts, node, d, t, x);
    }
  }

  /**
   * No double grant: once a call has written chunk x's record on `node` for
   * d, a later call on the same machine and deadline leaves it as it is.
   */
  lemma ScheduleNeverRegrants(c1: seq<Entry>, nts1: int, c2: seq<Entry>, nts2: int, node: int, d: int, t: Tables, x: int)
    ensures var r1 := Schedule(c1, nts1, node, d, t);
      var r2 := Schedule(c2, nts2, node, d, r1.tables);
      GrantsAt(r1.tables, x, d) != GrantsAt(t, x, d) ==> GrantsAt(r2.tables, x, d) == GrantsAt(r1.tables, x, d)
  {
    var r1 := Schedule(c1, nts1, node, d, t);
    ScheduleRecordsHosts(c1, nts1, node, d, t, x);
    if GrantsAt(r1.tables, x, d) != GrantsAt(t, x, d) {
      ScheduleSkipsPlaced(c2, nts2, node, d, r1.tables, x);
    }
  }

  /** Total remaining demand of chunk x in a list. */
  function DemandOf(s: seq<Entry>, x: int): int {
    if s == [] then 0 else (if s[0].id == x then s[0].demand else 0) + DemandOf(s[1..], x)
  }

  lemma {:induction false} DemandOfSingle(s: seq<Entry>, x: int, k: nat)
    requires k < |s| && s[k].id == x
    requires forall j :: 0 <= j < |s| && j != k ==> s[j].id != x
    ensures DemandOf(s, x) == s[k].demand
  {
    if k == 0 {
      DemandOfAbsent(s[1..], x);
    } else {
      DemandOfSingle(s[1..], x, k - 1);
    }
  }

  lemma {:induction false} DemandOfAbsent(s: seq<Entry>, x: int)
    requires forall j :: 0 <= j < |s| ==> s[j].id != x
    ensures DemandOf(s, x) == 0
  {
    if s != [] {
      DemandOfAbsent(s[1..], x);
    }
  }

  lemma {:induction false} DemandOfNonZero(s: seq<Entry>, x: int)
    ensures DemandOf(NonZero(s), x) == DemandOf(s, x)
  {
    if s != [] {
      DemandOfNonZero(s[1..], x);
      if s[0].demand != 0 {
        assert ([s[0]] + NonZero(s[1..]))[1..] == NonZero(s[1..]);
      }
    }
  }

  /** Two positions holding the same entry count it twice. */
  lemma TwoPositions(s: seq<Entry>, a: nat, b: nat)
    requires a < b < |s|
    ensures s[a] == s[b] ==> multiset(s)[s[a]] >= 2
  {
    assert s == s[..a] + [s[a]] + s[a + 1..b] + [s[b]] + s[b + 1..];
  }

  /**
   * Every chunk listed is recorded on `node`, unless the budget was used up
   * exactly before its turn: then the slots `node` lost are the whole budget.
   */
  lemma ScheduleRecordsListed(c: seq<Entry>, nts: int, node: int, d: int, t: Tables, e: Entry)
    requires e in c && nts != 0 && Consistent(t)
    ensures var r := Schedule(c, nts, node, d, t);
      || (&& node in NodesAt(r.tables, e.id, d)
          && node in HostsOf(r.tables, e.id)
          && node in GrantsAt(r.tables, e.id, d))
      || Slots(t, node) - Slots(r.tables, node) == nts
  {
    var sorted := SortAsc(c);
    assert e in multiset(sorted);
    var k :| 0 <= k < |sorted| && sorted[k] == e;
    LoopRecordsReached(sorted, 0, nts, node, d, t, e.id, k);
    LoopKeepsConsistent(sorted, 0, nts, node, d, t);
  }

  /**
   * When chunk x has one entry e in the list, `node` does not host it yet and
   * the budget exceeds the list's total demand, the call grants it: `node`
   * hosts x for d, and the grant recorded equals the demand x lost. If x is
   * left with demand, its grant was capped by the deadline or the machine
   * has no slots left.
   */
  lemma SchedulePlaces(c: seq<Entry>, nts: int, node: int, d: int, t: Tables, e: Entry)
    requires e in c && multiset(c)[e] == 1
    requires forall f :: f in c && f.id == e.id ==> f == e
    requires node !in NodesAt(t, e.id, d)
    requires Slots(t, node) >= 0 && d >= 0 && NonNegative(c) && nts > Sum(c)
    ensures var r := Schedule(c, nts, node, d, t);
      && node in NodesAt(r.tables, e.id, d) && node in HostsOf(r.tables, e.id) && node in GrantsAt(r.tables, e.id, d)
      && GrantsAt(r.tables, e.id, d)[node] == e.demand - DemandOf(r.rest, e.id)
      && (DemandOf(r.rest, e.id) > 0 ==> GrantsAt(r.tables, e.id, d)[node] == d || Slots(r.tables, node) == 0)
  {
    var x := e.id;
    var sorted := SortAsc(c);
    SuffixNonNegative(c, 0);
    assert c[0..] == c;
    assert sorted[0..] == sorted;
    SortedNonNegative(c);
    assert e in multiset(sorted);
    var k :| 0 <= k < |sorted| && sorted[k] == e;
    SortedSingle(c, e, k);
    LoopGrantsEntry(sorted, 0, nts, node, d, t, x, k);
    RestDemand(sorted, nts, node, d, t, x, k);
  }

  lemma SortedNonNegative(c: seq<Entry>)
    requires NonNegative(c)
    ensures NonNegative(SortAsc(c))
  {
    var sorted := SortAsc(c);
    forall j | 0 <= j < |sorted| ensures sorted[j].demand >= 0 {
      assert sorted[j] in multiset(c);
    }
  }

  /** An entry that occurs once in c, and is c's only entry for its chunk, is the sorted list's only entry for it. */
  lemma SortedSingle(c: seq<Entry>, e: Entry, k: nat)
    requires multiset(c)[e] == 1
    requires forall f :: f in c && f.id == e.id ==> f == e
    requires k < |SortAsc(c)| && SortAsc(c)[k] == e
    ensures forall j :: 0 <= j < |SortAsc(c)| && j != k ==> SortAsc(c)[j].id != e.id
  {
    var sorted := SortAsc(c);
    forall j | 0 <= j < |sorted| && j != k ensures sorted[j].id != e.id {
      assert sorted[j] in multiset(c);
      if j < k {
        TwoPositions(sorted, j, k);
      } else {
        TwoPositions(sorted, k, j);
      }
    }
  }

  /** What schedule returns holds, for a chunk with one entry, the demand that entry has left after the loop. */
  lemma RestDemand(sorted: seq<Entry>, nts: int, node: int, d: int, t: Tables, x: int, k: nat)
    requires k < |sorted| && sorted[k].id == x
    requires forall j :: 0 <= j < |sorted| && j != k ==> sorted[j].id != x
    ensures var left := ScheduleLoop(sorted, 0, nts, node, d, t).rest;
      k < |left| && DemandOf(NonZero(left), x) == left[k].demand
  {
    var left := ScheduleLoop(sorted, 0, nts, node, d, t).rest;
    LoopKeepsIds(sorted, 0, nts, node, d, t);
    DemandOfSingle(left, x, k);
    DemandOfNonZero(left, x);
  }

  /** The invariants the allocator keeps are kept by one call. */
  lemma ScheduleKeepsInvariants(c: seq<Entry>, nts: int, node: int, d: int, t: Tables)
    requires SlotsNonNegative(t) && Consistent(t) && d >= 0 && NonNegative(c)
    ensures var r := Schedule(c, nts, node, d, t);
      SlotsNonNegative(r.tables) && Consistent(r.tables) && NonNegative(r.rest)
  {
    ScheduleConserves(c, nts, node, d, t);
    ScheduleBounds(c, nts, node, d, t);
    ScheduleRecordsHosts(c, nts, node, d, t, 0);
  }

  /**
   * Offering a list to machines in the given order, each for exactly its
   * remaining slots, each call getting what the previous one left.
   */
  function OfferAll(ids: seq<int>, c: seq<Entry>, td: int, t: Tables): Placed
    decreases |ids|
  {
    if ids == [] then Placed(c, t)
    else
      var r := Schedule(c, Slots(t, ids[0]), ids[0], td, t);
      OfferAll(ids[1..], r.rest, td, r.tables)
  }

  /** The remaining slots of the given machines, summed. */
  function TotalSlots(t: Tables, ids: seq<int>): int {
    if ids == [] then 0 else Slots(t, ids[0]) + TotalSlots(t, ids[1..])
  }

  lemma {:induction false} TotalSlotsFrame(t: Tables, u: Tables, ids: seq<int>)
    requires forall k :: 0 <= k < |ids| ==> Slots(u, ids[k]) == Slots(t, ids[k])
    ensures TotalSlots(u, ids) == TotalSlots(t, ids)
  {
    if ids != [] {
      TotalSlotsFrame(t, u, ids[1..]);
    }
  }

  /**
   * Conservation over a whole pass: the slots the offered machines lose
   * together equal the demand the list loses, and machines not offered keep
   * their slots.
   */
  lemma {:induction false} OfferAllConserves(ids: seq<int>, c: seq<Entry>, td: int, t: Tables)
    requires StrictlyIncreasing(ids)
    ensures var r := OfferAll(ids, c, td, t);
      && TotalSlots(t, ids) - TotalSlots(r.tables, ids) == Sum(c) - Sum(r.rest)
      && forall n :: n !in ids ==> Slots(r.tables, n) == Slots(t, n)
    decreases |ids|
  {
    if ids != [] {
      var r1 := Schedule(c, Slots(t, ids[0]), ids[0], td, t);
      var r := OfferAll(ids[1..], r1.rest, td, r1.tables);
      ScheduleConserves(c, Slots(t, ids[0]), ids[0], td, t);
      OfferAllConserves(ids[1..], r1.rest, td, r1.tables);
      assert ids[0] !in ids[1..];
      TotalSlotsFrame(t, r1.tables, ids[1..]);
      assert Slots(r.tables, ids[0]) == Slots(r1.tables, ids[0]);
      forall n | n !in ids ensures Slots(r.tables, n) == Slots(t, n) {
        assert n !in ids[1..] && n != ids[0];
      }
    }
  }

  /** A pass keeps the allocator's invariants and never raises a machine's slots. */
  lemma {:induction false} OfferAllKeepsInvariants(ids: seq<int>, c: seq<Entry>, td: int, t: Tables)
    requires SlotsNonNegative(t) && Consistent(t) && td >= 0 && NonNegative(c)
    ensures var r := OfferAll(ids, c, td, t);
      && SlotsNonNegative(r.tables) && Consistent(r.tables) && NonNegative(r.rest)
      && forall n :: Slots(r.tables, n) <= Slots(t, n)
    decreases |ids|
  {
    if ids != [] {
      var r1 := Schedule(c, Slots(t, ids[0]), ids[0], td, t);
      ScheduleKeepsInvariants(c, Slots(t, ids[0]), ids[0], td, t);
      ScheduleConserves(c, Slots(t, ids[0]), ids[0], td, t);
      ScheduleBounds(c, Slots(t, ids[0]), ids[0], td, t);
      OfferAllKeepsInvariants(ids[1..], r1.rest, td, r1.tables);
    }
  }
}
