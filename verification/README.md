# restricted-cred placement algorithm, modelled in Dafny

This project models the placement algorithm in `cred.cpp`. The algorithm is
given jobs. Each job needs a multiset of data chunks by a deadline. The
algorithm decides how many machines are needed to serve the chunk demand.
Each machine has `S` VM slots per time unit. A machine is offered at most `B`
distinct chunks in one packing turn. The algorithm also records which machine
serves how many slots of which chunk under which deadline key.

The model has three layers:

- **Pure definitions.** The modules below describe each step of the
  algorithm as functions over an immutable snapshot of the global state:
  - `Entries`: (demand, id) pairs, the `std::pair` order, both sorts, sums.
  - `Window`: the window search and the split inside `cred_s`.
  - `Placement`: the packing primitive `schedule`, over a `Tables` value that
    holds `chunk_nodes`, `chunk_node_map`, `chunk_machine_slots` and
    `node_time_slots`.
  - `Rounds`: the rounds of `cred_s`.
  - `Demand`: jobs, per-deadline aggregation, and the ascending distinct
    deadlines.
  - `MultiDeadline`: the deadline loop and the pre-staging pass of `cred_m`.
- **Proved properties.** Conservation, grant bounds, the re-entry guard,
  machine creation, and the invariants the allocator keeps are proved about
  these definitions.
- **The class.** `Allocator.Cluster` holds the globals as fields: the four
  maps, `machine_ids` as an ascending sequence, and `N_a`. Its methods update
  the fields in place with the loops of the original code. Each method is
  proved to leave exactly the state the pure definition describes, so every
  property proved about a definition holds of its method.

Four facts about `cred.cpp` shape the model:

- The window search at cred.cpp:219-228 keeps a window of exactly `B`
  entries. It slides the window one step toward the front while its sum is
  below the virtual deadline.
- `prev` is set to 0 at cred.cpp:333 and never reassigned. So every deadline
  `d` calls `cred_s` with `(S*d, d)` (cred.cpp:349).
- A round with more than `B` entries gives every existing machine one window
  (cred.cpp:213-259). If demand is left, it creates one new machine and gives
  that machine one window (cred.cpp:260-313).
- The loop `while (chunks.size())` at cred.cpp:193 need not terminate. See
  "## Left out".

## Model

| member | source | states |
|---|---|---|
| Entries.SortAsc | cred.cpp:117 | the result is sorted ascending in pair order (demand, then id), is a permutation of the input, and has the same total demand |
| Entries.SortedUnique | cred.cpp:117 | two sorted permutations of one list are equal, so any correct `std::sort` gives exactly SortAsc's result |
| Entries.SortDesc | cred.cpp:188 | the result is sorted descending in pair order and is a permutation of the input |
| Entries.NonZero | cred.cpp:166-170 | keeps exactly the entries with nonzero demand, never grows the list, and keeps its total demand |
| Window.SlideFrom | cred.cpp:224-228 | the intended slide from window j stops at a window whose demand reaches vd, or at the front; every window it passed was below vd |
| Window.SelectWindow | cred.cpp:219-228 | the chosen window of B entries is the one nearest the tail whose demand reaches vd, or the front window when no window reaches vd |
| Window.SlideAsWritten | cred.cpp:224-228 | the loop as written yields i == j + B - 1, and it reads before the front exactly when no window up to the start reaches vd |
| Window.AsWrittenReadsBeforeFront | cred.cpp:224-227 | with B = 1, demands [1, 1] and vd = 2, the loop as written ends at j = i = -1 after reading chunks[-1]; the intended selection is index 0 |
| Window.SlideAgreesWhenReached | cred.cpp:224-228 | when some window reaches vd, the loop as written never reads before the front and stops at the same window as the intended slide |
| Window.SlideStep | cred.cpp:225-227 | one slide step keeps the slide's destination, and the new sum is the old sum minus the tail entry plus the new front entry |
| Window.FindWindow | cred.cpp:219-228 | the sum-and-slide loop returns exactly SelectWindow's start in j, with i == j + B - 1 inside the list |
| Window.SplitWindow | cred.cpp:229-238 | indices j..i go to `c` and every other index goes to `rest`, each walked back to front; `c` has i - j + 1 entries and `c` plus `rest` is a permutation of the list |
| Placement.Grant | cred.cpp:125-126 | a grant is at most the demand, the node's slots and the deadline, and equals one of them; it is partial exactly when the demand exceeds min(slots, deadline) |
| Placement.PlaceEffect | cred.cpp:130-136 | a grant adds the node to the chunk's host set for d and to its host index, records the grant, subtracts it from the node's slots, and changes nothing else |
| Placement.Visit | cred.cpp:119-164 | one iteration of the granting loop: a chunk the node already hosts for d is skipped, any other gets its grant written, and the loop stops when the budget is exactly 0; it keeps the list length, and VisitBounds, VisitSlots and VisitOnlyAddsNode state its effect |
| Placement.ScheduleLoop | cred.cpp:118-165 | the granting loop from position i; LoopConserves, LoopBounds, LoopGrantsWithin, LoopRecordsReached and LoopGrantsEntry state what it does |
| Placement.Schedule | cred.cpp:114-171 | a zero budget returns the list and tables unchanged; otherwise no returned entry has zero demand |
| Placement.ScheduleConserves | cred.cpp:136-139 | the slots the node loses equal the demand the list loses, and no other machine's slots change |
| Placement.ScheduleBounds | cred.cpp:117-170 | with nonnegative inputs, the node's slots stay between 0 and their old value; the result is the ascending-sorted input with demands lowered in place, never below 0, and zero entries dropped |
| Placement.ScheduleGrantsWithin | cred.cpp:125-158 | every grant written lies between 0 and min(deadline, the node's slots at the start); only the node's entry of a record changes; records under other deadline keys are untouched |
| Placement.ScheduleSkipsPlaced | cred.cpp:119 | a chunk the node already hosts for d keeps its grant record, and each of its entries comes back with its demand unchanged |
| Placement.ScheduleRecordsHosts | cred.cpp:130-134 | the tables stay consistent; host sets and host indexes only gain the node; a written grant record always comes with the node in the chunk's host set for d |
| Placement.ScheduleRecordsListed | cred.cpp:118-156 | every chunk in the list ends up hosted by the node for d, in its host index and with a grant record, unless the budget ran out exactly before its turn, in which case the node lost exactly the whole budget |
| Placement.SchedulePlaces | cred.cpp:125-161 | for a chunk with one entry, not yet hosted, and a budget above the list's total demand: the node hosts it for d, and the recorded grant equals the demand the chunk lost; demand is left only if the grant hit the deadline or the node ran out of slots |
| Placement.ScheduleLeavesUnlisted | cred.cpp:118-165 | a chunk with no entry in the list keeps its host sets, host index and grant records |
| Placement.ScheduleNeverRegrants | cred.cpp:119 | after one call writes a chunk's record on a node for d, a second call on that node and d leaves the record as it is |
| Placement.ScheduleKeepsInvariants | cred.cpp:114-171 | nonnegative slots, consistent tables and nonnegative demands survive one call |
| Placement.OfferAll | cred.cpp:198-200 | the pass offering the list to each existing machine for its remaining slots; OfferAllConserves and OfferAllKeepsInvariants state what it does |
| Placement.OfferAllConserves | cred.cpp:198-200 | offering the list to each machine in turn: the slots the machines lose together equal the demand removed, and machines outside the pass keep their slots |
| Placement.OfferAllKeepsInvariants | cred.cpp:198-200 | the pass keeps the invariants and never raises any machine's slots |
| Demand.SortedDeadlines | cred.cpp:328-331 | the distinct deadlines, strictly increasing, each one the deadline of some job |
| Demand.DistinctDeadlines | cred.cpp:328-331 | the loop filling the ordered set yields exactly SortedDeadlines |
| Demand.ChunkIds | cred.cpp:337-345 | the keys of the count map: strictly increasing, and exactly the chunks with nonzero demand at d |
| Demand.DeadlineDemandShape | cred.cpp:336-347 | the list for d has one pair per chunk needed at d, ids ascending, each demand the chunk's total occurrences in jobs with deadline d |
| Demand.DeadlineDemand | cred.cpp:336-347 | the (count, id) list built for one deadline; DeadlineDemandShape states its shape and Aggregate is proved to build it |
| Demand.CountIds | cred.cpp:340-342 | counting a chunk list adds each id's occurrences to the map and inserts newly seen keys in order |
| Demand.CountChunks | cred.cpp:337-344 | the map counts each chunk's occurrences at d, holds exactly the chunks that occur, and its keys are ChunkIds |
| Demand.Aggregate | cred.cpp:336-347 | the list handed to cred_s is exactly the per-deadline demand whose shape DeadlineDemandShape states |
| Rounds.SmallRound | cred.cpp:194-207 | a ≤B round keeps the machine ids or adds exactly the next id |
| Rounds.Open | cred.cpp:203-204 | creating machine max+1 with S * td slots; OpenFresh and OpenKeepsInvariants state its effect |
| Rounds.PackStep | cred.cpp:213-253 | one machine's turn in a >B round; PackStepHostsAtMostB, PackStepConserves and PackStepKeepsInvariants state what it does |
| Rounds.PackAll | cred.cpp:213-259 | the turns of all existing machines in ascending id order; PackAllKeepsInvariants states what they keep |
| Rounds.LargeRound | cred.cpp:209-313 | a >B round keeps the machine ids or adds exactly the next id |
| Rounds.Round | cred.cpp:193-315 | one iteration of the cred_s loop, either branch by the list length, keeps the ids or adds exactly the next id; RoundKeepsGood states its invariants |
| Rounds.Rounds | cred.cpp:193-315 | the run of rounds is finished exactly when no demand remains |
| Rounds.CredS | cred.cpp:185-317 | a cred_s call never removes machines |
| Rounds.SplitIsOffered | cred.cpp:219-238 | the window the search and split produce is the list the machine is offered, and the other part is the kept list |
| Rounds.OfferedSplit | cred.cpp:229-238 | a packing turn offers all entries (≤B) or exactly B, and the offered and unoffered parts form a permutation of the list |
| Rounds.OfferedNonNegative | cred.cpp:229-238 | nonnegative demands stay nonnegative in the offered and the kept parts |
| Rounds.PackStepHostsAtMostB | cred.cpp:213-253 | a packing turn offers at most B distinct chunks, and every chunk it does not offer keeps its host sets, host index and grant records |
| Rounds.PackStepConserves | cred.cpp:213-253 | for a window (>B), the machine's lost slots equal the demand removed from the list; with ≤B entries, the stale list is kept in front of the leftovers, and the lost slots equal the demand removed from those leftovers; other machines keep their slots |
| Rounds.PackStepKeepsInvariants | cred.cpp:213-253 | a packing turn keeps the invariants, raises no machine's slots, and changes only its own machine's slots |
| Rounds.PackAllKeepsInvariants | cred.cpp:213-259 | turns on all machines keep the invariants, raise no slots, and leave machines outside the pass alone |
| Rounds.OpenFresh | cred.cpp:203-204 | a new machine gets the id one above every existing id with S * td slots; ids stay ascending; no other machine changes |
| Rounds.SmallRoundOpensOnlyForLeftovers | cred.cpp:198-206 | a ≤B round opens a machine exactly when demand is left after all existing machines; without a new machine nothing is left |
| Rounds.SmallRoundConserves | cred.cpp:194-207 | in a ≤B round, the demand removed equals the slots the machines give up, counting S * td for a machine it opens |
| Rounds.OpenKeepsInvariants | cred.cpp:203-204 | opening a machine with nonnegative capacity keeps the invariants |
| Rounds.SmallRoundKeepsGood | cred.cpp:194-207 | a ≤B round keeps the invariants; old machines never gain slots; a new machine holds between 0 and S * td |
| Rounds.LargeRoundKeepsGood | cred.cpp:209-313 | a >B round keeps the invariants; old machines never gain slots; a new machine holds between 0 and S * td |
| Rounds.RoundKeepsGood | cred.cpp:193-315 | each loop iteration keeps the invariants and the slot bounds |
| Rounds.RoundsExtendIds | cred.cpp:193-315 | over the whole loop, machines are only appended, with consecutive ids after the old largest |
| Rounds.RoundsKeepGood | cred.cpp:193-315 | over the whole loop, the invariants hold, old machines never gain slots, and every new machine holds between 0 and S * td |
| Rounds.RoundsConserveSmall | cred.cpp:193-207 | starting from at most B entries, the demand removed over the loop equals the slots the machines give up, counting S * td per new machine |
| Rounds.CredSKeepsGood | cred.cpp:185-317 | an empty list returns 0 and changes nothing; otherwise the count is the machine count afterwards, machines are only appended with consecutive ids, and the invariants and slot bounds hold |
| Rounds.CredSConservesSmall | cred.cpp:185-207 | a finished cred_s on at most B chunks has placed all the demand: it equals the slots given up, counting S * td per new machine |
| MultiDeadline.HostedMembers | cred.cpp:364-367 | the pre-staging filter keeps exactly the pairs whose chunk machine n hosts and whose count is not zero |
| MultiDeadline.HostedNonNegative | cred.cpp:364-367 | the filtered per-deadline pairs have nonnegative demand |
| MultiDeadline.StageCall | cred.cpp:364-368 | one pre-staging call: append the hosted pairs and schedule them on machine n; StageCallKeeps states what it keeps |
| MultiDeadline.StageDeadlines | cred.cpp:354-370 | the inner pre-staging loop for machine n over the deadlines after it; StageDeadlinesKeeps states what it keeps |
| MultiDeadline.StageMachines | cred.cpp:352-371 | the pre-staging pass over machines 1..temp; StageMachinesKeeps states what it keeps |
| MultiDeadline.Serve | cred.cpp:334-373 | the deadline loop: cred_s with (S*d, d), then pre-staging, then N_a; ServeKeepsGood states what it keeps |
| MultiDeadline.CredM | cred.cpp:326-374 | cred_m as the deadline loop over the ascending distinct deadlines; CredMKeepsGood states what it keeps |
| MultiDeadline.StageCallKeeps | cred.cpp:364-368 | one pre-staging call with a positive deadline key keeps the invariants, changes only machine n's slots, and adds only n to host indexes |
| MultiDeadline.StageDeadlinesKeeps | cred.cpp:354-370 | the inner pre-staging loop gives every call a positive key jt - temp_prev, keeps the invariants, and touches only machine n |
| MultiDeadline.StageMachinesKeeps | cred.cpp:352-371 | the whole pass keeps the invariants, changes no slots outside machines 1..temp, and adds only those machines to host indexes |
| MultiDeadline.ServeKeepsGood | cred.cpp:334-373 | the deadline loop keeps the invariants and only appends machines; after at least one deadline with every call finished, N_a is the machine count |
| MultiDeadline.CredMKeepsGood | cred.cpp:326-374 | deadlines are served strictly increasing; the invariants hold; machines are only appended; with jobs present and every call finished, N_a is the final machine count |
| Allocator.Cluster.constructor | cred.cpp:422-423 | the initial state: machine 0 alone with S * 4 slots, empty tables, N_a = 0, and the invariants hold when S >= 0 |
| Allocator.Cluster.Record | cred.cpp:130-136 | writing one grant leaves exactly Place's tables, with machine ids and N_a unchanged |
| Allocator.Cluster.Schedule | cred.cpp:114-171 | the in-place schedule returns and leaves exactly what Placement.Schedule describes, so its lemmas apply |
| Allocator.Cluster.GrantLoop | cred.cpp:118-165 | the granting loop leaves the list and tables ScheduleLoop describes |
| Allocator.Cluster.GrantAt | cred.cpp:125-164 | one non-skipped position is granted as Visit describes, and the loop stops exactly when the budget reaches 0 |
| Allocator.Cluster.Unsettled | cred.cpp:166-170 | the result filter returns NonZero of the list |
| Allocator.Cluster.OpenMachine | cred.cpp:203-204 | creating a machine leaves exactly Open's state and keeps the class invariant |
| Allocator.Cluster.SmallRound | cred.cpp:194-207 | the in-place ≤B branch leaves exactly Rounds.SmallRound's state and leftovers |
| Allocator.Cluster.PackStep | cred.cpp:213-253 | one machine's turn leaves exactly Rounds.PackStep's list and tables, including the stale list in the ≤B case |
| Allocator.Cluster.PackWindow | cred.cpp:219-248 | a window turn offers exactly the selected window; the new list is the unoffered part followed by the leftovers |
| Allocator.Cluster.LargeRound | cred.cpp:209-313 | the in-place >B branch leaves exactly Rounds.LargeRound's state and leftovers |
| Allocator.Cluster.CredS | cred.cpp:185-317 | the in-place cred_s returns the count and leaves the state Rounds.CredS describes, so CredSKeepsGood and CredSConservesSmall hold of it |
| Allocator.Cluster.HostedPairs | cred.cpp:356-367 | the filtered pairs built for a later deadline are exactly Hosted of that deadline's demand list |
| Allocator.Cluster.StageOne | cred.cpp:364-368 | one pre-staging step appends the filtered pairs and calls schedule with budget S*jt - slots(n) and key jt - temp_prev, as StageCall describes |
| Allocator.Cluster.StageAt | cred.cpp:354-369 | one deadline of the inner pre-staging loop advances StageDeadlines by one step |
| Allocator.Cluster.StageMachine | cred.cpp:353-370 | the inner pre-staging loop for one machine leaves what StageDeadlines describes |
| Allocator.Cluster.PreStage | cred.cpp:352-371 | the pre-staging pass over machines 1..temp leaves the tables StageMachines describes and changes no ids and no N_a |
| Allocator.Cluster.ServeDeadline | cred.cpp:336-372 | one deadline: aggregate, cred_s with (S*d, d), pre-stage, and set N_a, as one step of Serve describes |
| Allocator.Cluster.CredM | cred.cpp:326-374 | the in-place cred_m leaves the state, N_a and finished flag that MultiDeadline.CredM describes, so CredMKeepsGood holds of it |

## Left out

- Rounds.CredS: a fuel bound limits the number of `while (chunks.size())` iterations, and the result says whether the list ran out first. The code can loop forever. With the stale list of the >B branch, entries are duplicated, and a machine with no slots left removes nothing. The fuel-bounded function does not model unbounded looping.
- Allocator.Cluster.CredS: runs under the same fuel bound as Rounds.CredS.
- Allocator.Cluster.CredM: stops at the first cred_s call that runs out of fuel. It reports `false` instead of looping forever.
- MultiDeadline.CredMKeepsGood: states N_a only when every cred_s call finished.
- Rounds.PackStepConserves: states no conservation for a whole >B round. After a ≤B turn inside the >B branch, leftovers are appended to the uncleared `new_chunks`, which still holds the whole list. Entries the machine served stay in the list, so total demand is not conserved across a round. The list is also not re-sorted descending between rounds.
- Rounds.CredSConservesSmall: proves end-to-end conservation only for input of at most B chunks, for the reason above.
- MultiDeadline.StageMachinesKeeps: states only per-call invariants for pre-staging. Three things prevent a global statement:
  - `chunks` is never cleared between calls;
  - machine `temp` may be one past the machines the run created;
  - schedule's result is discarded, and its key `jt - temp_prev` is a window length, not a deadline.
- Placement.ScheduleRecordsHosts: states only that host sets and host indexes gain at most the node. The gain itself is stated by Placement.ScheduleRecordsListed and Placement.SchedulePlaces.
- Placement.SchedulePlaces: states the recorded grant only for a chunk with a single entry and a budget above the list's total demand. The budget can run out exactly before a chunk's turn, and a chunk with several entries is granted once and skipped afterwards.
- Window.FindWindow: models the corrected loop that stops at the front window. The loop as written is modelled by Window.SlideAsWritten (see "## Findings").
- Allocator.Cluster.constructor: requires B >= 1. The program sets B = 128, and with B = 0 the window search is meaningless.
- `chunk_map` (written at cred.cpp:137 and cred.cpp:160, never read) is not modelled.
- `data_chunk.time`, and the globals `N`, `J` and `C`, are not modelled: no decision reads them.
- Randomness (`rng`, `between`), `simulation`, `manual`, `trace` and `main` are not modelled. Only the seeding of machine 0 is kept, as the constructor.
- All console output is left out.
- C++ `int` overflow is not modelled: integers are unbounded.
- The keys that `std::map::operator[]` inserts on lookup are not modelled. A missing key reads as the default (empty set, 0), and that default is all the algorithm ever observes.
- `std::sort` is modelled by its result: the unique sorted permutation.

## Findings

| source | as written | input that shows it | evidently intended | confidence | as-written member | corrected member |
|---|---|---|---|---|---|---|
| cred.cpp:224-228 (repeated at cred.cpp:278-282) | the slide runs while `j >= 0`, so at `j == 0` it decrements to `j = -1` and reads `chunks[-1]` | B = 1, demands [1, 1], vd = 2: j and i end at -1 and the window is empty | stop at the front window (`j > 0`) and pack it | not executed | Window.AsWrittenReadsBeforeFront | Window.SelectWindow |
