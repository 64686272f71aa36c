/**
 * The single-deadline allocator `cred_s` as pure functions over the tables
 * and the ascending list of machine ids. Each loop round either offers the
 * whole list to every machine (at most B entries left) or packs, machine by
 * machine, a window of at most B entries; leftovers open one new machine with
 * S * td slots. The Cluster class runs the same rounds in place and is
 * proved to agree with these functions; their properties are proved here.
 */
module Rounds {
  import opened Entries
  import opened Window
  import opened Placement

  /** The allocator's state: the tables and machine_ids in ascending order. */
  datatype State = State(t: Tables, ids: seq<int>)

  /** A round's result: the new state and the entries still carrying demand. */
  datatype Outcome = Outcome(st: State, rest: seq<Entry>)

  /** A run of rounds: where it stopped and whether the demand ran out before the fuel did. */
  datatype Run = Run(st: State, rest: seq<Entry>, finished: bool)

  /** What cred_s returns (the machine count) next to the state it leaves. */
  datatype Solved = Solved(count: int, st: State, finished: bool)

  /** The invariants the allocator keeps between calls. */
  ghost predicate Good(st: State) {
    && st.ids != []
    && StrictlyIncreasing(st.ids)
    && SlotsNonNegative(st.t)
    && Consistent(st.t)
  }

  /** The id a new machine gets: one above the largest id (`*machine_ids.rbegin() + 1`). */
  function NextId(ids: seq<int>): int
    requires ids != []
  {
    ids[|ids| - 1] + 1
  }

  /** Creates a machine with S * td slots. */
  function Open(st: State, S: int, td: int): State
    requires st.ids != []
  {
    var n := NextId(st.ids);
    State(st.t.(nodeTimeSlots := st.t.nodeTimeSlots[n := S * td]), st.ids + [n])
  }

  /**
   * The round for at most B entries: offer the whole list to every machine in
   * ascending id order; if demand remains, open one machine and offer the
   * leftovers to it.
   */
  function SmallRound(st: State, c: seq<Entry>, S: int, td: int): (o: Outcome)
    requires st.ids != []
    ensures o.st.ids == st.ids || o.st.ids == st.ids + [NextId(st.ids)]
  {
    var r := OfferAll(st.ids, c, td, st.t);
    if r.rest == [] then Outcome(State(r.tables, st.ids), [])
    else
      var o := Open(State(r.tables, st.ids), S, td);
      var n := NextId(st.ids);
      var p := Schedule(r.rest, Slots(o.t, n), n, td, o.t);
      Outcome(State(p.tables, o.ids), p.rest)
  }

  /** The entries one machine is offered in a packing step: all of them, or the selected window. */
  function Offered(c: seq<Entry>, B: nat, vd: int): seq<Entry>
    requires B >= 1
  {
    if |c| <= B then c
    else
      var j := SelectWindow(c, B, vd);
      Reverse(c[j..j + B])
  }

  /** The entries a packing step does not offer, in the order the split leaves them. */
  function Unoffered(c: seq<Entry>, B: nat, vd: int): seq<Entry>
    requires B >= 1
  {
    if |c| <= B then []
    else
      var j := SelectWindow(c, B, vd);
      Reverse(c[j + B..]) + Reverse(c[..j])
  }

  /** The window FindWindow selects and SplitWindow splits off is what a packing turn offers. */
  lemma SplitIsOffered(chunks: seq<Entry>, B: nat, vd: int, j: nat, i: nat, c: seq<Entry>, rest: seq<Entry>)
    requires 1 <= B < |chunks|
    requires j == SelectWindow(chunks, B, vd) && i == j + B - 1
    requires c == Reverse(chunks[j..i + 1]) && rest == Reverse(chunks[i + 1..]) + Reverse(chunks[..j])
    ensures c == Offered(chunks, B, vd) && rest == Unoffered(chunks, B, vd)
  {
  }

  /**
   * The list a packing turn keeps before appending the machine's leftovers.
   * After a window split it is what was not offered. With at most B entries
   * it is the previous turn's list, never cleared, which is the current list
   * itself: what the machine takes is not removed from it.
   */
  function Kept(c: seq<Entry>, B: nat, vd: int): seq<Entry>
    requires B >= 1
  {
    if |c| <= B then c else Unoffered(c, B, vd)
  }

  /**
   * One machine's turn in a packing round: offer it at most B entries for its
   * remaining slots; the new list is the kept list followed by what the
   * machine could not take.
   */
  function PackStep(c: seq<Entry>, node: int, B: nat, vd: int, td: int, t: Tables): Placed
    requires B >= 1
  {
    var r := Schedule(Offered(c, B, vd), Slots(t, node), node, td, t);
    Placed(Kept(c, B, vd) + r.rest, r.tables)
  }

  /** Packing steps on the given machines in order, each taking the list the previous one left. */
  function PackAll(ids: seq<int>, c: seq<Entry>, B: nat, vd: int, td: int, t: Tables): Placed
    requires B >= 1
    decreases |ids|
  {
    if ids == [] then Placed(c, t)
    else
      var r := PackStep(c, ids[0], B, vd, td, t);
      PackAll(ids[1..], r.rest, B, vd, td, r.tables)
  }

  /**
   * The round for more than B entries: a packing step on every machine, then,
   * if demand remains, one new machine and a packing step on it.
   */
  function LargeRound(st: State, c: seq<Entry>, S: int, B: nat, vd: int, td: int): (o: Outcome)
    requires st.ids != [] && B >= 1
    ensures o.st.ids == st.ids || o.st.ids == st.ids + [NextId(st.ids)]
  {
    var r := PackAll(st.ids, c, B, vd, td, st.t);
    if r.rest == [] then Outcome(State(r.tables, st.ids), [])
    else
      var o := Open(State(r.tables, st.ids), S, td);
      var n := NextId(st.ids);
      var p := PackStep(r.rest, n, B, vd, td, o.t);
      Outcome(State(p.tables, o.ids), p.rest)
  }

  /** One iteration of cred_s's `while (chunks.size())` loop. */
  function Round(st: State, c: seq<Entry>, S: int, B: nat, vd: int, td: int): (o: Outcome)
    requires st.ids != [] && B >= 1
    ensures o.st.ids == st.ids || o.st.ids == st.ids + [NextId(st.ids)]
  {
    if |c| <= B then SmallRound(st, c, S, td) else LargeRound(st, c, S, B, vd, td)
  }

  /** Rounds until no demand is left, at most `fuel` of them. */
  function Rounds(st: State, c: seq<Entry>, S: int, B: nat, vd: int, td: int, fuel: nat): (r: Run)
    requires st.ids != [] && B >= 1
    ensures r.finished <==> r.rest == []
    decreases fuel, 0
  {
    if c == [] then Run(st, [], true)
    else if fuel == 0 then Run(st, c, false)
    else Resume(st, c, S, B, vd, td, fuel - 1)
  }

  /** One round, then the rounds that follow it from its outcome. */
  function Resume(st: State, c: seq<Entry>, S: int, B: nat, vd: int, td: int, fuel: nat): (r: Run)
    requires st.ids != [] && B >= 1
    ensures r.finished <==> r.rest == []
    decreases fuel, 1
  {
    var o := Round(st, c, S, B, vd, td);
    Rounds(o.st, o.rest, S, B, vd, td, fuel)
  }

  /**
   * `cred_s(chunks, vd, td)`: nothing for an empty list; otherwise sort the
   * list by decreasing demand, run the rounds, and report the machine count.
   */
  function CredS(st: State, chunks: seq<Entry>, S: int, B: nat, vd: int, td: int, fuel: nat): (s: Solved)
    requires st.ids != [] && B >= 1
    ensures |s.st.ids| >= |st.ids|
  {
    if chunks == [] then Solved(0, st, true)
    else
      var r := Rounds(st, SortDesc(chunks), S, B, vd, td, fuel);
      RoundsExtendIds(st, SortDesc(chunks), S, B, vd, td, fuel);
      Solved(|r.st.ids|, r.st, r.finished)
  }

  /** The distinct chunk ids of a list. */
  function IdsOf(s: seq<Entry>): set<int> {
    set e | e in s :: e.id
  }

  lemma {:induction false} IdsOfSize(s: seq<Entry>)
    ensures |IdsOf(s)| <= |s|
  {
    if s != [] {
      IdsOfSize(s[1..]);
      assert IdsOf(s) == IdsOf(s[1..]) + {s[0].id} by {
        assert s == [s[0]] + s[1..];
      }
    }
  }

  /**
   * A packing turn offers min(|c|, B) entries, and what it offers and what
   * the split leaves over are together a permutation of the list.
   */
  lemma OfferedSplit(c: seq<Entry>, B: nat, vd: int)
    requires B >= 1
    ensures |Offered(c, B, vd)| == if |c| <= B then |c| else B
    ensures multiset(Offered(c, B, vd)) + multiset(Unoffered(c, B, vd)) == multiset(c)
  {
    if |c| > B {
      var j := SelectWindow(c, B, vd);
      assert c == c[..j] + c[j..j + B] + c[j + B..];
      ReversePermutes(c[..j]);
      ReversePermutes(c[j..j + B]);
      ReversePermutes(c[j + B..]);
    }
  }

  lemma OfferedNonNegative(c: seq<Entry>, B: nat, vd: int)
    requires B >= 1 && NonNegative(c)
    ensures NonNegative(Offered(c, B, vd)) && NonNegative(Kept(c, B, vd))
  {
    OfferedSplit(c, B, vd);
    var w, k := Offered(c, B, vd), Kept(c, B, vd);
    forall i | 0 <= i < |w| ensures w[i].demand >= 0 {
      assert w[i] in multiset(c);
    }
    forall i | 0 <= i < |k| ensures k[i].demand >= 0 {
      assert k[i] in multiset(c);
    }
  }

  /**
   * The distinct-chunk cap: in one turn a machine is offered at most B
   * distinct chunks, and every chunk it is not offered keeps its host sets,
   * host index and grant records.
   */
  lemma PackStepHostsAtMostB(c: seq<Entry>, node: int, B: nat, vd: int, td: int, t: Tables)
    requires B >= 1
    ensures |IdsOf(Offered(c, B, vd))| <= B
    ensures var p := PackStep(c, node, B, vd, td, t);
      forall x :: x !in IdsOf(Offered(c, B, vd)) ==>
        && (forall e :: NodesAt(p.tables, x, e) == NodesAt(t, x, e))
        && HostsOf(p.tables, x) == HostsOf(t, x)
        && (forall e :: GrantsAt(p.tables, x, e) == GrantsAt(t, x, e))
  {
    var w := Offered(c, B, vd);
    OfferedSplit(c, B, vd);
    IdsOfSize(w);
    forall x | x !in IdsOf(w)
      ensures var p := PackStep(c, node, B, vd, td, t);
        && (forall e :: NodesAt(p.tables, x, e) == NodesAt(t, x, e))
        && HostsOf(p.tables, x) == HostsOf(t, x)
        && (forall e :: GrantsAt(p.tables, x, e) == GrantsAt(t, x, e))
    {
      ScheduleLeavesUnlisted(w, Slots(t, node), node, td, t, x);
    }
  }

  /**
   * Slots taken in one turn. After a window split, the machine's slots fall
   * by exactly the demand the list loses. With at most B entries the turn's
   * list still begins with the whole list it was given, and the slots fall by
   * the demand missing from the leftovers appended after it.
   */
  lemma PackStepConserves(c: seq<Entry>, node: int, B: nat, vd: int, td: int, t: Tables)
    requires B >= 1
    ensures var p := PackStep(c, node, B, vd, td, t);
      && (|c| > B ==> Slots(t, node) - Slots(p.tables, node) == Sum(c) - Sum(p.rest))
      && (|c| <= B ==> p.rest[..|c|] == c && Slots(t, node) - Slots(p.tables, node) == Sum(c) - Sum(p.rest[|c|..]))
      && forall n :: n != node ==> Slots(p.tables, n) == Slots(t, n)
  {
    var w := Offered(c, B, vd);
    var r := Schedule(w, Slots(t, node), node, td, t);
    ScheduleConserves(w, Slots(t, node), node, td, t);
    OfferedSplit(c, B, vd);
    SumConcat(Kept(c, B, vd), r.rest);
    if |c| > B {
      SumPermutation(w + Unoffered(c, B, vd), c);
      SumConcat(w, Unoffered(c, B, vd));
    } else {
      assert (c + r.rest)[|c|..] == r.rest;
    }
  }

  /**
   * A turn keeps the tables' invariants and the demands nonnegative, never
   * raises a machine's slots and changes no machine but the one it packs.
   */
  lemma PackStepKeepsInvariants(c: seq<Entry>, node: int, B: nat, vd: int, td: int, t: Tables)
    requires B >= 1 && SlotsNonNegative(t) && Consistent(t) && td >= 0 && NonNegative(c)
    ensures var p := PackStep(c, node, B, vd, td, t);
      && SlotsNonNegative(p.tables) && Consistent(p.tables) && NonNegative(p.rest)
      && (forall n :: Slots(p.tables, n) <= Slots(t, n))
      && (forall n :: n != node ==> Slots(p.tables, n) == Slots(t, n))
  {
    var w := Offered(c, B, vd);
    var r := Schedule(w, Slots(t, node), node, td, t);
    OfferedNonNegative(c, B, vd);
    ScheduleKeepsInvariants(w, Slots(t, node), node, td, t);
    ScheduleBounds(w, Slots(t, node), node, td, t);
    ScheduleConserves(w, Slots(t, node), node, td, t);
    var k := Kept(c, B, vd);
    assert NonNegative(k + r.rest) by {
      forall i | 0 <= i < |k + r.rest| ensures (k + r.rest)[i].demand >= 0 {
        if i >= |k| {
          assert (k + r.rest)[i] == r.rest[i - |k|];
        }
      }
    }
  }

  /** A packing pass keeps the invariants, never raises slots, and leaves machines outside it alone. */
  lemma {:induction false} PackAllKeepsInvariants(ids: seq<int>, c: seq<Entry>, B: nat, vd: int, td: int, t: Tables)
    requires B >= 1 && SlotsNonNegative(t) && Consistent(t) && td >= 0 && NonNegative(c)
    ensures var r := PackAll(ids, c, B, vd, td, t);
      && SlotsNonNegative(r.tables) && Consistent(r.tables) && NonNegative(r.rest)
      && (forall n :: Slots(r.tables, n) <= Slots(t, n))
      && (forall n :: n !in ids ==> Slots(r.tables, n) == Slots(t, n))
    decreases |ids|
  {
    if ids != [] {
      var p := PackStep(c, ids[0], B, vd, td, t);
      PackStepKeepsInvariants(c, ids[0], B, vd, td, t);
      PackAllKeepsInvariants(ids[1..], p.rest, B, vd, td, p.tables);
      var r := PackAll(ids, c, B, vd, td, t);
      forall n | n !in ids ensures Slots(r.tables, n) == Slots(t, n) {
        assert n != ids[0] && n !in ids[1..];
      }
    }
  }

  /** The new id is above every existing one, so the ids stay strictly increasing. */
  lemma OpenFresh(st: State, S: int, td: int)
    requires st.ids != [] && StrictlyIncreasing(st.ids)
    ensures var o := Open(st, S, td);
      && o.ids == st.ids + [NextId(st.ids)]
      && StrictlyIncreasing(o.ids)
      && (forall n :: n in st.ids ==> n < NextId(st.ids))
      && Slots(o.t, NextId(st.ids)) == S * td
      && (forall n :: n != NextId(st.ids) ==> Slots(o.t, n) == Slots(st.t, n))
      && (Consistent(st.t) ==> Consistent(o.t))
  {
    var o := Open(st, S, td);
    forall n | n in st.ids ensures n < NextId(st.ids) {
      var k :| 0 <= k < |st.ids| && st.ids[k] == n;
    }
    assert forall x, d :: NodesAt(o.t, x, d) == NodesAt(st.t, x, d);
    assert forall x, d :: GrantsAt(o.t, x, d) == GrantsAt(st.t, x, d);
    assert forall x :: HostsOf(o.t, x) == HostsOf(st.t, x);
  }

  lemma {:induction false} TotalSlotsSnoc(t: Tables, ids: seq<int>, n: int)
    ensures TotalSlots(t, ids + [n]) == TotalSlots(t, ids) + Slots(t, n)
  {
    if ids == [] {
      assert [n][1..] == [];
    } else {
      assert (ids + [n])[1..] == ids[1..] + [n];
      TotalSlotsSnoc(t, ids[1..], n);
    }
  }

  /**
   * The round for at most B entries opens a machine exactly when offering the
   * list to every existing machine leaves demand over, and stops with an
   * empty list when it opens none.
   */
  lemma SmallRoundOpensOnlyForLeftovers(st: State, c: seq<Entry>, S: int, td: int)
    requires st.ids != []
    ensures var o := SmallRound(st, c, S, td);
      && (o.st.ids == st.ids + [NextId(st.ids)] <==> OfferAll(st.ids, c, td, st.t).rest != [])
      && (o.st.ids == st.ids ==> o.rest == [])
  {
    assert |st.ids + [NextId(st.ids)]| != |st.ids|;
  }

  /**
   * The balance of a stretch of the run from (c, a) to (rest, b): the demand
   * the list lost equals the slots the machines of `a` gave up plus `cap` for
   * each machine opened, minus what all machines of `b` still hold.
   */
  ghost predicate Conserved(c: seq<Entry>, a: State, rest: seq<Entry>, b: State, cap: int) {
    Sum(c) - Sum(rest) == TotalSlots(a.t, a.ids) + cap * (|b.ids| - |a.ids|) - TotalSlots(b.t, b.ids)
  }

  /**
   * Conservation for the round with at most B entries: the demand the list
   * loses equals the slots the machines give up, counting S * td for a
   * machine the round opens.
   */
  lemma SmallRoundConserves(st: State, c: seq<Entry>, S: int, td: int)
    requires st.ids != [] && StrictlyIncreasing(st.ids)
    ensures var o := SmallRound(st, c, S, td);
      Conserved(c, st, o.rest, o.st, S * td)
  {
    var r := OfferAll(st.ids, c, td, st.t);
    OfferAllConserves(st.ids, c, td, st.t);
    var mid := State(r.tables, st.ids);
    assert Conserved(c, st, r.rest, mid, S * td);
    if r.rest != [] {
      var o := Open(mid, S, td);
      var n := NextId(st.ids);
      var p := Schedule(r.rest, Slots(o.t, n), n, td, o.t);
      OpenAndPlaceConserves(mid, r.rest, S, td);
      ConserveStep(c, st, r.rest, mid, p.rest, State(p.tables, o.ids), S * td);
      assert SmallRound(st, c, S, td) == Outcome(State(p.tables, o.ids), p.rest);
    }
  }

  /** Opening a machine and offering it the leftovers: what they lose, it gives up out of S * td. */
  lemma OpenAndPlaceConserves(mid: State, rest: seq<Entry>, S: int, td: int)
    requires mid.ids != [] && StrictlyIncreasing(mid.ids)
    ensures var o := Open(mid, S, td);
      var n := NextId(mid.ids);
      var p := Schedule(rest, Slots(o.t, n), n, td, o.t);
      Conserved(rest, mid, p.rest, State(p.tables, o.ids), S * td)
  {
    var o := Open(mid, S, td);
    var n := NextId(mid.ids);
    OpenFresh(mid, S, td);
    var p := Schedule(rest, Slots(o.t, n), n, td, o.t);
    ScheduleConserves(rest, Slots(o.t, n), n, td, o.t);
    forall k | 0 <= k < |mid.ids| ensures Slots(p.tables, mid.ids[k]) == Slots(mid.t, mid.ids[k]) {
      assert mid.ids[k] in mid.ids;
    }
    TotalSlotsFrame(mid.t, p.tables, mid.ids);
    TotalSlotsSnoc(p.tables, mid.ids, n);
    var lost := Sum(rest) - Sum(p.rest);
    assert lost == S * td - Slots(p.tables, n);
    assert TotalSlots(p.tables, o.ids) == TotalSlots(mid.t, mid.ids) + Slots(p.tables, n);
    assert |o.ids| - |mid.ids| == 1;
    assert S * td * (|o.ids| - |mid.ids|) == S * td;
  }

  lemma OpenKeepsInvariants(st: State, S: int, td: int)
    requires Good(st) && S >= 0 && td >= 0
    ensures Good(Open(st, S, td))
  {
    OpenFresh(st, S, td);
    var o := Open(st, S, td);
    assert S * td >= 0;
    forall n ensures Slots(o.t, n) >= 0 {
      if n != NextId(st.ids) {
        assert Slots(o.t, n) == Slots(st.t, n);
      }
    }
  }

  /**
   * The round with at most B entries keeps the allocator's invariants, never
   * raises an existing machine's slots, and leaves a machine it opens with
   * between 0 and S * td slots.
   */
  lemma SmallRoundKeepsGood(st: State, c: seq<Entry>, S: int, td: int)
    requires Good(st) && S >= 0 && td >= 0 && NonNegative(c)
    ensures var o := SmallRound(st, c, S, td);
      && Good(o.st) && NonNegative(o.rest)
      && (forall n :: n in st.ids ==> Slots(o.st.t, n) <= Slots(st.t, n))
      && (o.st.ids != st.ids ==> 0 <= Slots(o.st.t, NextId(st.ids)) <= S * td)
  {
    var r := OfferAll(st.ids, c, td, st.t);
    OfferAllKeepsInvariants(st.ids, c, td, st.t);
    if r.rest != [] {
      var mid := State(r.tables, st.ids);
      var o := Open(mid, S, td);
      var n := NextId(st.ids);
      OpenFresh(mid, S, td);
      OpenKeepsInvariants(mid, S, td);
      ScheduleKeepsInvariants(r.rest, Slots(o.t, n), n, td, o.t);
      ScheduleBounds(r.rest, Slots(o.t, n), n, td, o.t);
      ScheduleConserves(r.rest, Slots(o.t, n), n, td, o.t);
    }
  }

  /** The same for the round with more than B entries. */
  lemma LargeRoundKeepsGood(st: State, c: seq<Entry>, S: int, B: nat, vd: int, td: int)
    requires B >= 1 && Good(st) && S >= 0 && td >= 0 && NonNegative(c)
    ensures var o := LargeRound(st, c, S, B, vd, td);
      && Good(o.st) && NonNegative(o.rest)
      && (forall n :: n in st.ids ==> Slots(o.st.t, n) <= Slots(st.t, n))
      && (o.st.ids != st.ids ==> 0 <= Slots(o.st.t, NextId(st.ids)) <= S * td)
  {
    var r := PackAll(st.ids, c, B, vd, td, st.t);
    PackAllKeepsInvariants(st.ids, c, B, vd, td, st.t);
    if r.rest != [] {
      var mid := State(r.tables, st.ids);
      var o := Open(mid, S, td);
      var n := NextId(st.ids);
      OpenFresh(mid, S, td);
      OpenKeepsInvariants(mid, S, td);
      PackStepKeepsInvariants(r.rest, n, B, vd, td, o.t);
    }
  }

  lemma RoundKeepsGood(st: State, c: seq<Entry>, S: int, B: nat, vd: int, td: int)
    requires B >= 1 && Good(st) && S >= 0 && td >= 0 && NonNegative(c)
    ensures var o := Round(st, c, S, B, vd, td);
      && Good(o.st) && NonNegative(o.rest)
      && (forall n :: n in st.ids ==> Slots(o.st.t, n) <= Slots(st.t, n))
      && (o.st.ids != st.ids ==> 0 <= Slots(o.st.t, NextId(st.ids)) <= S * td)
  {
    if |c| <= B {
      SmallRoundKeepsGood(st, c, S, td);
    } else {
      LargeRoundKeepsGood(st, c, S, B, vd, td);
    }
  }

  /**
   * `c` extends the ascending ids `a` with machines created one after
   * another: `a` is a prefix, and every later id is one above the previous.
   */
  ghost predicate ExtendsIds(a: seq<int>, c: seq<int>)
    requires a != []
  {
    && |a| <= |c| && c[..|a|] == a
    && forall k :: |a| <= k < |c| ==> c[k] == NextId(a) + (k - |a|)
  }

  lemma ExtendIdsStep(a: seq<int>, b: seq<int>, c: seq<int>)
    requires a != [] && (b == a || b == a + [NextId(a)])
    requires ExtendsIds(b, c)
    ensures ExtendsIds(a, c)
  {
    if b != a {
      assert c[..|a|] == c[..|b|][..|a|];
      assert c[|a|] == c[..|b|][|a|];
    }
  }

  /** Over a run of rounds machines are only added, with consecutive ids. */
  lemma {:induction false} RoundsExtendIds(st: State, c: seq<Entry>, S: int, B: nat, vd: int, td: int, fuel: nat)
    requires B >= 1 && st.ids != []
    ensures ExtendsIds(st.ids, Rounds(st, c, S, B, vd, td, fuel).st.ids)
    decreases fuel, 0
  {
    if c != [] && fuel > 0 {
      ResumeExtendsIds(st, c, S, B, vd, td, fuel - 1);
    } else {
    }
  }

  lemma {:induction false} ResumeExtendsIds(st: State, c: seq<Entry>, S: int, B: nat, vd: int, td: int, fuel: nat)
    requires B >= 1 && st.ids != []
    ensures ExtendsIds(st.ids, Resume(st, c, S, B, vd, td, fuel).st.ids)
    decreases fuel, 1
  {
    var o := Round(st, c, S, B, vd, td);
    var r := Rounds(o.st, o.rest, S, B, vd, td, fuel);
    assert Resume(st, c, S, B, vd, td, fuel) == r;
    RoundsExtendIds(o.st, o.rest, S, B, vd, td, fuel);
    ExtendIdsStep(st.ids, o.st.ids, r.st.ids);
  }

  /** What a round, and a run, promise about slots: old machines never gain, new ones hold at most S * td. */
  ghost predicate SlotsBounded(a: State, b: State, S: int, td: int) {
    && (forall n :: n in a.ids ==> Slots(b.t, n) <= Slots(a.t, n))
    && (forall n :: n in b.ids && n !in a.ids ==> 0 <= Slots(b.t, n) <= S * td)
  }

  lemma SlotsBoundedStep(a: State, b: State, c: State, S: int, td: int)
    requires a.ids != [] && (b.ids == a.ids || b.ids == a.ids + [NextId(a.ids)])
    requires SlotsNonNegative(c.t)
    requires forall n :: n in a.ids ==> Slots(b.t, n) <= Slots(a.t, n)
    requires b.ids != a.ids ==> 0 <= Slots(b.t, NextId(a.ids)) <= S * td
    requires SlotsBounded(b, c, S, td)
    ensures SlotsBounded(a, c, S, td)
  {
    forall n | n in a.ids ensures Slots(c.t, n) <= Slots(a.t, n) {
      assert n in b.ids;
    }
    forall n | n in c.ids && n !in a.ids ensures 0 <= Slots(c.t, n) <= S * td {
      if n in b.ids {
        assert n == NextId(a.ids);
      }
    }
  }

  /**
   * Over a run of rounds the invariants hold, no old machine gains slots, and
   * every machine the run opens holds between 0 and S * td slots.
   */
  lemma {:induction false} RoundsKeepGood(st: State, c: seq<Entry>, S: int, B: nat, vd: int, td: int, fuel: nat)
    requires B >= 1 && Good(st) && S >= 0 && td >= 0 && NonNegative(c)
    ensures var r := Rounds(st, c, S, B, vd, td, fuel);
      Good(r.st) && SlotsBounded(st, r.st, S, td)
    decreases fuel, 0
  {
    if c != [] && fuel > 0 {
      ResumeKeepsGood(st, c, S, B, vd, td, fuel - 1);
    } else {
    }
  }

  lemma {:induction false} ResumeKeepsGood(st: State, c: seq<Entry>, S: int, B: nat, vd: int, td: int, fuel: nat)
    requires B >= 1 && Good(st) && S >= 0 && td >= 0 && NonNegative(c)
    ensures var r := Resume(st, c, S, B, vd, td, fuel);
      Good(r.st) && SlotsBounded(st, r.st, S, td)
    decreases fuel, 1
  {
    var o := Round(st, c, S, B, vd, td);
    var r := Rounds(o.st, o.rest, S, B, vd, td, fuel);
    assert Resume(st, c, S, B, vd, td, fuel) == r;
    RoundKeepsGood(st, c, S, B, vd, td);
    RoundsKeepGood(o.st, o.rest, S, B, vd, td, fuel);
    SlotsBoundedStep(st, o.st, r.st, S, td);
  }

  lemma ScheduleShrinks(c: seq<Entry>, nts: int, node: int, d: int, t: Tables)
    ensures |Schedule(c, nts, node, d, t).rest| <= |c|
  {
    if nts != 0 {
      LoopConserves(SortAsc(c), 0, nts, node, d, t);
      assert |SortAsc(c)| == |multiset(SortAsc(c))| == |c|;
    }
  }

  lemma {:induction false} OfferAllShrinks(ids: seq<int>, c: seq<Entry>, td: int, t: Tables)
    ensures |OfferAll(ids, c, td, t).rest| <= |c|
    decreases |ids|
  {
    if ids != [] {
      var r := Schedule(c, Slots(t, ids[0]), ids[0], td, t);
      ScheduleShrinks(c, Slots(t, ids[0]), ids[0], td, t);
      OfferAllShrinks(ids[1..], r.rest, td, r.tables);
    }
  }

  /**
   * Conservation for cred_s when the list starts with at most B entries
   * (every round is then the round with at most B entries): the demand the
   * rounds remove equals the slots the machines give up, counting S * td for
   * each machine opened. When the run finishes, all the demand is placed.
   */
  lemma {:induction false} RoundsConserveSmall(st: State, c: seq<Entry>, S: int, B: nat, vd: int, td: int, fuel: nat)
    requires B >= 1 && |c| <= B && Good(st) && S >= 0 && td >= 0 && NonNegative(c)
    ensures var r := Rounds(st, c, S, B, vd, td, fuel);
      Conserved(c, st, r.rest, r.st, S * td)
    decreases fuel, 0
  {
    if c != [] && fuel > 0 {
      assert Rounds(st, c, S, B, vd, td, fuel) == Resume(st, c, S, B, vd, td, fuel - 1);
      ResumeConservesSmall(st, c, S, B, vd, td, fuel - 1);
    } else {
      IdleConserves(st, c, S, B, vd, td, fuel);
    }
  }

  /** A run that does no round changes nothing, so its balance is zero. */
  lemma IdleConserves(st: State, c: seq<Entry>, S: int, B: nat, vd: int, td: int, fuel: nat)
    requires B >= 1 && st.ids != [] && (c == [] || fuel == 0)
    ensures var r := Rounds(st, c, S, B, vd, td, fuel);
      r.st == st && Conserved(c, st, r.rest, r.st, S * td)
  {
    assert S * td * (|st.ids| - |st.ids|) == 0;
  }

  lemma {:induction false} ResumeConservesSmall(st: State, c: seq<Entry>, S: int, B: nat, vd: int, td: int, fuel: nat)
    requires B >= 1 && |c| <= B && Good(st) && S >= 0 && td >= 0 && NonNegative(c)
    ensures var r := Resume(st, c, S, B, vd, td, fuel);
      Conserved(c, st, r.rest, r.st, S * td)
    decreases fuel, 1
  {
    var o := SmallRound(st, c, S, td);
    assert o == Round(st, c, S, B, vd, td);
    var r := Rounds(o.st, o.rest, S, B, vd, td, fuel);
    assert Resume(st, c, S, B, vd, td, fuel) == r;
    SmallRoundConserves(st, c, S, td);
    SmallRoundKeepsGood(st, c, S, td);
    SmallRoundShrinks(st, c, S, td);
    RoundsConserveSmall(o.st, o.rest, S, B, vd, td, fuel);
    ConserveStep(c, st, o.rest, o.st, r.rest, r.st, S * td);
  }

  /** Balances of consecutive stretches add up. */
  lemma ConserveStep(c: seq<Entry>, a: State, o: seq<Entry>, b: State, r: seq<Entry>, d: State, cap: int)
    requires Conserved(c, a, o, b, cap) && Conserved(o, b, r, d, cap)
    ensures Conserved(c, a, r, d, cap)
  {
    assert cap * (|d.ids| - |a.ids|) == cap * (|b.ids| - |a.ids|) + cap * (|d.ids| - |b.ids|);
  }

  lemma SmallRoundShrinks(st: State, c: seq<Entry>, S: int, td: int)
    requires st.ids != []
    ensures |SmallRound(st, c, S, td).rest| <= |c|
  {
    var r := OfferAll(st.ids, c, td, st.t);
    OfferAllShrinks(st.ids, c, td, st.t);
    if r.rest != [] {
      var mid := Open(State(r.tables, st.ids), S, td);
      ScheduleShrinks(r.rest, Slots(mid.t, NextId(st.ids)), NextId(st.ids), td, mid.t);
    }
  }

  lemma SortDescNonNegative(c: seq<Entry>)
    requires NonNegative(c)
    ensures NonNegative(SortDesc(c)) && |SortDesc(c)| == |c| && Sum(SortDesc(c)) == Sum(c)
  {
    var d := SortDesc(c);
    forall k | 0 <= k < |d| ensures d[k].demand >= 0 {
      assert d[k] in multiset(c);
    }
    assert |d| == |multiset(d)| == |c|;
    SumPermutation(d, c);
  }

  /**
   * cred_s: an empty list returns 0 and changes nothing; otherwise the count
   * is the number of machines afterwards. Machines are only added, each with
   * the next id; the invariants hold; old machines never gain slots and new
   * ones hold between 0 and S * td.
   */
  lemma CredSKeepsGood(st: State, chunks: seq<Entry>, S: int, B: nat, vd: int, td: int, fuel: nat)
    requires B >= 1 && Good(st) && S >= 0 && td >= 0 && NonNegative(chunks)
    ensures var s := CredS(st, chunks, S, B, vd, td, fuel);
      && (chunks == [] ==> s == Solved(0, st, true))
      && (chunks != [] ==> s.count == |s.st.ids|)
      && Good(s.st) && ExtendsIds(st.ids, s.st.ids) && SlotsBounded(st, s.st, S, td)
  {
    if chunks != [] {
      var sorted := SortDesc(chunks);
      SortDescNonNegative(chunks);
      RoundsKeepGood(st, sorted, S, B, vd, td, fuel);
      RoundsExtendIds(st, sorted, S, B, vd, td, fuel);
    } else {
      assert st.ids[..|st.ids|] == st.ids;
    }
  }

  /**
   * With at most B chunks every round is the round for at most B entries,
   * and a call that finishes has placed all the demand: it equals the slots
   * the machines gave up, counting S * td for each machine opened.
   */
  lemma CredSConservesSmall(st: State, chunks: seq<Entry>, S: int, B: nat, vd: int, td: int, fuel: nat)
    requires B >= 1 && |chunks| <= B && Good(st) && S >= 0 && td >= 0 && NonNegative(chunks)
    ensures var s := CredS(st, chunks, S, B, vd, td, fuel);
      s.finished ==> Conserved(chunks, st, [], s.st, S * td)
  {
    if chunks != [] {
      var sorted := SortDesc(chunks);
      SortDescNonNegative(chunks);
      RoundsConserveSmall(st, sorted, S, B, vd, td, fuel);
    } else {
      assert S * td * (|st.ids| - |st.ids|) == 0;
    }
  }
}
