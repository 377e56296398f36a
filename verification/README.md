# Sokoban rules, dead-state pruning and exact search, verified

A Dafny model of the Sokoban engine's hard core, with proofs about every board, every state and
every run. `dafny verify dfyconfig.toml` checks the whole project.

The rules (`crates/core`) are a transition system: `Rules.Step` is one legal primitive step,
`Solvable` means that some finite run of steps ends solved, and `SolvesIn` counts its moves. Every
claim below that something is dead, optimal or reachable is a statement about those runs.

- **Rules and boards.** `Rules.dfy`, `Grid.dfy` and `Parse.dfy`: puzzle text becomes a valid board
  (symmetric neighbours, as many boxes as goals of each label) or the first rule it breaks.
  `Game.dfy`: live play equals a fresh replay of its own letters, and undo inverts a step.
- **Searching cells.** `Bfs.dfy`, `Reach.dfy`, `DeadCells.dfy`: floods, walks and reverse-push
  distances, exact and shortest. `Walk.dfy`: the page's walk routes. `Scramble.dfy`: reverse-pull
  scrambles, each with a run back to its goals.
- **Dead states.** `Freeze.dfy` and `Deadlock.dfy`: the greatest freeze fixpoint, the in-place
  release loop that computes it, its monotonicity, the pushed box's component and the lone-box
  shortcut, each proved to give the same answer. `Corral.dfy`: sealed corrals. `PocketTheory.dfy`,
  `PocketKeys.dfy` and `Pockets.dfy`: the bounded search of the world of a pocket's members. Every
  run of the whole puzzle projects to one of it, and the verdict of the search, with its table and
  its queue, is exactly a property of the keys its pushes can reach.
- **The arena.** `Probing.dfy` and `Arena.dfy`: versioned records, an open-addressed table that
  refines a map from states to latest versions, growth, the run-by-run emptying, the in-place path
  compaction, the exact limit and the memory ceiling. `Keys.dfy`: the packed key and record bits,
  re-weighting and the g + h floor.
- **The exact search.** `PushGraph.dfy` turns solutions into pushes. `Frontiers.dfy` states what a
  search has covered: each first push of each live record is still waiting, followed by a record
  at no greater cost, or excused by a bound. From that local fact alone the frontier bounds every
  solution. `Pushes.dfy` and `Exact.dfy` prove what keeps it. `Expansion.dfy` says, on values and
  exactly, what a pop, a push and a whole expansion leave, and proves that each keeps it.
  `Engine.dfy` is the search itself, over the real arena, freeze check and corral check: each
  method is proved to leave what `Expansion.dfy` says, and the search ends.
- **Weighted runs.** `Phases.dfy`: the policy table, and runs through phases, restarts, episodes
  and the polish at the end, whatever the order of events.
- **The page's client.** `Client.dfy`: one search at a time under every interleaving of calls and
  callbacks.

What a step decides is stated twice: by the function its method is proved against, and, with a lemma
both ways, in terms of `Step`, walks, cells and records alone. A box is frozen exactly when no way of
taking boxes off one at a time takes it (`Freeze.FrozenIsFast`); a corral has something left to do
exactly when no solved placement leaves it alone (`Corrals.OpenIsNotLeftAlone`); a pocket is dead
exactly when it stays shut (`PocketKeys.PocketDeadMeans`); a push of the exact search is dropped,
postponed or stored exactly as `Expansions.DroppedMeans`, `LeftOutUnbuilt` and `StaysMeans` say.

Modules the model does not build are contracts. The heuristic is `Pushes.Estimates` with
`Pushes.Sound`: less the keeper's charge an estimate is admissible, no push takes more off it than
a move and its stand's charge, and a missing estimate means no solution. The room bound and its
walk term are any pricing that `Pushes.RoomsSound` accepts, replaceable mid-search. The queue hands
back a least key. The state hash is any function; the allocator may refuse any growth.

Three things the proofs found out about the code:

- A solved end certifies its route optimal exactly when the route is below the saturation cost and
  either at most F_SAT (2^20 - 1) moves long or the queue is empty (`Engines.Engine.ProofNow`).
  Past F_SAT keys tie and the certificate is only a bound; every solution is then at least F_SAT
  moves long (`Expansions.UncertifiedIsLong`), ten times the longest route the engine rebuilds.
- After `clear_keeping` has kept `len` records the next insert finds room, and leaves some, exactly
  when `len + 2` is at most what the reserved chunks hold, or they hold more than the limit already
  (`Arenas.Arena.ClearKeeping`). The comment at crates/search/src/arena.rs:959 promises a starved
  arena that much always. `Arenas.StarvedRefill` reaches the other case: a path fills the first
  chunk but for one record while the second is refused, is kept, and one insert later the arena is
  neither starved nor full and has no slot. The engine never restarts a starved arena, so no search
  meets it.
- The bound on every solution needs admissible prices and no more. What a partial expansion defers
  an unbuilt push by needs the heuristic's promise about pushes besides, and a parent at charge 0,
  which is why the root never expands partially: `Pushes.ExcessNeedsPushSound` has a board and an
  estimate that is admissible in every state, breaks that promise alone, and puts the only push
  past what its solution costs.

## Model

| member | source | states |
|---|---|---|
| Rules.StepKeepsState | crates/core/src/board.rs:432-452 | a legal step keeps every `validate_state` invariant, puts the keeper on its neighbour and moves at most the one box it met, one cell on |
| Rules.PlayKeepsState | crates/core/src/board.rs:245-277 | every run of legal steps stays inside the `validate_state` invariants |
| Rules.SolvedFillsGoals | crates/core/src/board.rs:418-420 | with as many boxes as goals of each label, a solved state fills every goal (pigeonhole) |
| Freeze.SolvedIsHome | crates/core/src/board.rs:418-420 | a position is solved exactly when no box is off goal |
| Rules.StepSamePosition | crates/core/src/board.rs:432-452 | boxes of one label are interchangeable: the same step is legal and leads to the same position |
| Rules.SolutionSamePosition | crates/search/src/push.rs:36-47 | reordering boxes within a label changes no solution, move for move |
| Rules.PlayConcat | crates/core/src/board.rs:432-452 | runs compose |
| Parsing.Parse | crates/core/src/board.rs:296-415 | a board it returns is valid, gridded and says what the text says, boxes of a label and goals in row-major order, and no rule is broken; an error names a broken rule, and no rule checked earlier is broken |
| Parsing.ParseRows | crates/core/src/board.rs:309-402 | the same for rows already cut: labels match goal for box, the table is the geometry, both lists in row-major order, errors in checking order |
| Parsing.ReadAll | crates/core/src/board.rs:320-364 | tiles, robot, boxes, goals and the per-label counts are exactly those of the cells read |
| Parsing.ReadRow | crates/core/src/board.rs:321-364 | one row of symbols read, its padding walls; an unsupported symbol or second robot is where it says |
| Parsing.WrittenAs | crates/core/src/board.rs:326-357 | which character writes a wall, a space, the robot and each label's box and goal |
| Parsing.LettersPair | crates/core/src/board.rs:331-353 | a label has a box letter exactly when it has a goal letter, and never two of either |
| Parsing.CountedCells | crates/core/src/board.rs:319-361 | the per-label lists count exactly the cells that carry the symbol |
| Parsing.SortBoxes | crates/core/src/board.rs:374-387 | slots come sorted by label then cell, a permutation of the boxes read |
| Parsing.SplitRows | crates/core/src/board.rs:305-306 | rows free of newlines that joined with newlines are the text again |
| Parsing.StrippedOnce | crates/core/src/board.rs:297-306 | one closing newline is dropped, no more |
| Parsing.RowsJoin | crates/core/src/board.rs:305-306 | cutting and joining are inverse for every text |
| Parsing.BuildTable | crates/core/src/board.rs:388-411 | the table holds, per cell and direction, the cell beside it unless either is a wall |
| Parsing.ValidateState | crates/core/src/board.rs:245-277 | no error exactly for valid states with empty slots past the boxes; an error names a rule the state breaks, and no rule checked before it is broken |
| Grids.GriddedIsValid | crates/core/src/board.rs:388-411 | the table built from the geometry is symmetric under the opposite direction and names floor only |
| Grids.NextMeans | crates/core/src/board.rs:388-411 | the table names, per column, row and direction, the cell beside it, where there is one and neither is a wall |
| Grids.BesideBack | crates/core/src/board.rs:394-399 | stepping stays on the board and stepping back returns |
| Games.Game.StepIn | crates/core/src/game.rs:126-138 | plays exactly the fresh replay's next move, or changes nothing when it is solved, at the limit or refused |
| Games.Game.TakeBack | crates/core/src/game.rs:140-151 | the game is again the fresh replay of its letters without the last: undo inverts step |
| Games.Game.Reset | crates/core/src/game.rs:153-158 | back to the start with no letters |
| Games.Game.CheckExtension | crates/core/src/game.rs:174-180 | refuses exactly when the route would pass the limit |
| Games.Game.Replay | crates/core/src/game.rs:191-204 | succeeds exactly when the whole route replays; otherwise nothing changes and the error names the first letter that does not play and whether it is no letter or no legal move |
| Games.RefusedMeans | crates/core/src/game.rs:191-204 | the letters before a refused one play and those up to it do not |
| Games.MoveTakenBack | crates/core/src/game.rs:140-151 | taking back any legal move restores state, history and push count |
| Games.LastTakenBack | crates/core/src/game.rs:140-151 | a replayed route less its last letter is the position taken back |
| Games.RouteMeaning | crates/core/src/game.rs:68-74 | a replayed route has one entry a letter, at most MAX_ROUTE, counts its pushes, plays to its state and has no solved proper prefix |
| Games.ReplaysIffPlays | crates/core/src/game.rs:191-204 | a route replays exactly when its letters spell moves each legal where those before it lead, none solved before the last and no longer than MAX_ROUTE |
| Games.PrefixReplays | crates/core/src/game.rs:191-204 | a route whose prefix is refused is refused |
| Games.DecodeDirection | crates/core/src/game.rs:78-80 | the index of the letter, none for any other byte |
| Reach.FillFrom | crates/search/src/reach.rs:72-89 | reached cells are exactly those a walk around the boxes connects, with shortest distances |
| Bfs.BreadthFirst | crates/search/src/reach.rs:47-91 | exact reachability and shortest path lengths from one start, each cell queued once |
| Reach.WalkPlays | crates/core/src/board.rs:432-452 | a walk around the boxes is a run of steps that moves the keeper alone |
| Reach.WalkBack | crates/core/src/board.rs:388-411 | every walk can be walked back |
| DeadCells.PullDistances | crates/search/examples/greedy.rs:93-114 | distances are the least number of pushes a lone box needs to the goal, FAR when none does |
| DeadCells.LiveCells | crates/search/examples/greedy.rs:93-114 | a cell is dead for a label exactly when no sequence of lone pushes reaches a goal of it |
| DeadCells.PullIsPush | crates/search/examples/greedy.rs:93-114 | a path of reverse pushes read backward is a sequence of pushes |
| DeadCells.LiveIsPushed | crates/search/examples/greedy.rs:93-114 | a cell is live exactly when a line of single pushes leads from it to a goal tile |
| DeadCells.LonePushIsStep | crates/core/src/board.rs:432-452 | a lone push is exactly a step the rules allow with no other box on the board |
| DeadCells.LiveBeforePush | crates/search/src/deadlock.rs:203-210 | a push off a dead cell lands on a dead cell |
| DeadCells.LiveHasLivePush | crates/search/src/deadlock.rs:203-210 | a live cell that is no goal has a push onto a live cell |
| Freeze.GreatestIsSelfHeld | crates/search/src/deadlock.rs:44-53 | the frozen boxes hold each other, and every self-held set is among them |
| Freeze.GreatestMonotone | crates/search/src/deadlock.rs:89-96 | taking boxes away freezes a subset |
| Freeze.HeldTogether | crates/search/src/deadlock.rs:28-40 | boxes that each lack a neighbour on an axis, stand beside one another or could only be pushed onto cells dead for them are all frozen |
| Freeze.TakenOff | crates/search/src/deadlock.rs:44-53 | the rest can be taken off one at a time, each then with an axis of two floor cells, no box left on either and not both dead |
| Freeze.FrozenIsFast | crates/search/src/deadlock.rs:44-53 | a box is frozen exactly when no way of taking boxes off one at a time takes it |
| Freeze.FrozenOffGoalIsDead | crates/search/src/deadlock.rs:44-107 | no run from any state with those boxes in place solves it while a frozen one is off goal, wherever the keeper and the others stand |
| Freeze.StrandedIsDead | crates/search/src/deadlock.rs:44-53 | no run solves a state with a box where its label is dead |
| Deadlocks.ReleaseAll | crates/search/src/deadlock.rs:54-87 | the in-place release loop ends with exactly the greatest fixpoint, in any visiting order |
| Deadlocks.FrozenOffGoalAmong | crates/search/src/deadlock.rs:54-87 | true exactly when the greatest fixpoint over the members leaves one off its goal |
| Deadlocks.FrozenOffGoal | crates/search/src/deadlock.rs:97-107 | the same question of a plain list |
| Deadlocks.HeldNow | crates/search/src/deadlock.rs:28-42 | the flags read in place answer held exactly as the set of frozen boxes does |
| Deadlocks.DeadAfterPushIsSound | crates/search/src/deadlock.rs:191-202 | a flagged push leaves no solution in any state with the boxes that took part where it left them |
| Deadlocks.DeadAfterPushMeans | crates/search/src/deadlock.rs:191-202 | a push is flagged exactly when some box off goal, in a line of touching boxes from the pushed one, is taken by no way of taking boxes off |
| Deadlocks.DeadAfterPushMonotone | crates/search/src/deadlock.rs:89-96 | more boxes taking part never clear a flag |
| Deadlocks.IsolatedFixpoint | crates/search/src/deadlock.rs:230-266 | the fixpoint over an isolated part freezes the same boxes of it as the fixpoint over all members |
| Deadlocks.LoneAnswerIsExact | crates/search/src/deadlock.rs:203-228 | a box no participant borders is frozen off its goal exactly on a dead cell |
| Deadlocks.ComponentDone | crates/search/src/deadlock.rs:233-266 | the flooded listing is the pushed box's whole component and isolates it |
| Deadlocks.CollectComponent | crates/search/src/deadlock.rs:233-266 | every participant joined to the pushed box through side-by-side boxes, each once |
| Deadlocks.Deadlock.Refresh | crates/search/src/deadlock.rs:139-148 | occupancy names exactly the given boxes, only last refresh's cells rewritten |
| Deadlocks.Deadlock.At | crates/search/src/deadlock.rs:151-157 | the box on the cell, none for none or NONE |
| Deadlocks.Deadlock.LoneAnswer | crates/search/src/deadlock.rs:211-228 | answers exactly for a box no box that takes part borders, and then as the fixpoint over all participants |
| Deadlocks.Deadlock.FrozenComponent | crates/search/src/deadlock.rs:233-266 | the component's answer is the fixpoint's over all participants |
| Deadlocks.Deadlock.IsDeadAfterPush | crates/search/src/deadlock.rs:191-202 | exactly: a box of the pushed box's component is off goal and frozen by the fixpoint over all participants, so that no way of taking boxes off one at a time takes it |
| Corrals.CorralIsSealed | crates/search/src/corral.rs:1-19 | a corral flooded from an unreached cell is entered by neither keeper nor outside box until a member moves |
| Corrals.FirstPushIsPotential | crates/search/src/corral.rs:8-12 | the first member push of any run is one enumerated on the initial state |
| Corrals.FatalPushIsDead | crates/search/src/corral.rs:12-17 | a push fatal with the members alone leaves no solution, wherever the others went |
| Corrals.QuietIsUnsolved | crates/search/src/corral.rs:433-441 | while no member moves the state is unsolved: some member is off goal, or a sealed goal lacks its box |
| Corrals.OpenIsNotLeftAlone | crates/search/src/corral.rs:433-441 | something is left to do exactly when no solved placement of the boxes keeps the members where they stand and puts no other box in the corral |
| Corrals.PotentialIsStep | crates/search/src/corral.rs:106-134 | a potential push is exactly a push the rules allow from some reached cell |
| Corrals.DeadCorralMeans | crates/search/src/corral.rs:353-394 | a corral is flagged exactly when it has a cell to spare, no solved placement leaves it alone, and the pushes into it are few and each lands dead or freezes a member off goal |
| Corrals.DeadCorralIsDead | crates/search/src/corral.rs:353-394 | no run solves a state with a corral that has something left to do and only fatal potential pushes |
| Corrals.Pushes | crates/search/src/corral.rs:106-134 | every potential push of the members and nothing else, or none past the cap |
| Corrals.Corral.FloodCorral | crates/search/src/corral.rs:398-429 | the queue is the corral of box `i` and the members are its boxes, stamped under a fresh epoch |
| Corrals.Corral.IsGoalOpen | crates/search/src/corral.rs:433-441 | true exactly when some member is off goal or some sealed goal lacks its box: when no solved placement leaves the corral alone |
| Corrals.Corral.AllPushesFatal | crates/search/src/corral.rs:386-391 | true exactly when every listed push is fatal with the members alone |
| Corrals.Corral.CorralIsDead | crates/search/src/corral.rs:377-391 | the verdict on one corral |
| Corrals.Corral.IsDead | crates/search/src/corral.rs:353-394 | true exactly when some box's corral has a cell to spare, no solved placement that leaves it alone and few pushes into it, each ruinous; then no run solves the state |
| Corrals.SameCorral | crates/search/src/corral.rs:373-376 | boxes of one corral share it, so skipping a stamped box skips nothing |
| Corrals.FullFloorHasNoEmptyCorral | crates/search/src/corral.rs:361-363 | when reached cells and boxes cover the floor no corral has an empty cell |
| PocketTheory.Settle | crates/search/src/corral.rs:321-335 | the moved cell lands in its label's run in canonical order, the same boxes |
| PocketTheory.TrackStep | crates/search/src/corral.rs:472-504 | one step of the whole puzzle projects to the members: an entry tracks where it leads, or nothing solves it |
| PocketTheory.TrackWalk | crates/search/src/corral.rs:557-624 | a walk, or a push of an outside box, is a walk in the members-only world |
| PocketTheory.TrackPush | crates/search/src/corral.rs:557-624 | a member's push is a push of the entry's box of that label on that cell |
| PocketTheory.CanPushIsStep | crates/search/src/corral.rs:586-597 | a push is open exactly when the rules allow it with the members alone on the board, from a cell the keeper walks to |
| PocketTheory.HopelessMeans | crates/search/src/corral.rs:590-605 | a push is dropped exactly when it lands dead or leaves an off-goal member that no way of taking members off takes |
| PocketTheory.SettledIsHome | crates/search/src/corral.rs:578-585 | settled exactly when no member stands off its goal, whichever slot has which cell |
| PocketTheory.HopelessPushIsDead | crates/search/src/corral.rs:557-624 | a push the search drops leaves no solution of the whole puzzle |
| PocketTheory.ExhaustedIsDead | crates/search/src/corral.rs:467-624 | a search that ran out without settling its members leaves no solution of the whole puzzle |
| PocketTheory.CanonicalIsUnique | crates/search/src/corral.rs:321-338 | boxes have one canonical order, so equal positions have equal keys |
| PocketKeys.KeyIsUnique | crates/search/src/corral.rs:548-549 | the members and the keeper's region fix the key |
| PocketKeys.LeadsToOne | crates/search/src/corral.rs:548-549 | a key's push leads to one key, whatever cell of its region the keeper was queued at |
| PocketKeys.RanOutIsExact | crates/search/src/corral.rs:545-556 | a search that popped all it queued reached exactly the reachable keys, none of which ends it, and queued the start and each of their pushes: the pocket is dead |
| PocketKeys.EndsMeans | crates/search/src/corral.rs:578-585 | a key ends the search exactly when its keeper walks to a cell of the pocket or no member is off goal |
| PocketKeys.PocketDeadMeans | crates/search/src/corral.rs:545-624 | a pocket is dead exactly when at every reachable key no walk of the keeper enters it and some member is off goal, and the pushes among them are fewer than the room |
| PocketKeys.OverflowIsAlive | crates/search/src/corral.rs:606-609 | a push a full queue cannot take means too many are reachable: the pocket is not dead |
| PocketKeys.EndIsAlive | crates/search/src/corral.rs:582-585 | a reachable key at which the search stops, the keeper in or the members settled, means the pocket is not dead |
| Pockets.PushMember | crates/search/src/corral.rs:598-605 | the settled entry follows the push, and the freeze answer is exactly the fixpoint over the members |
| Pockets.QueuePushes | crates/search/src/corral.rs:586-617 | exactly the admitted pushes are queued, each once; full exactly on the first, in member and direction order, past POCKET_NODES entries |
| Pockets.PocketCheck.Insert | crates/search/src/corral.rs:299-315 | false exactly for a key popped before; the probe ends and the table stays probed from home |
| Pockets.PocketCheck.ResetTable | crates/search/src/corral.rs:268-272 | writing the recorded slots back empties the whole table |
| Pockets.PocketCheck.Start | crates/search/src/corral.rs:266-295 | the slots are exactly the members, ascending; queues the canonical start alone, the table empty |
| Pockets.PocketCheck.PopEntry | crates/search/src/corral.rs:557-624 | one pop keeps the search; it ends dead exactly when the pocket is, so only when no run solves the state |
| Pockets.PocketCheck.FloodPocket | crates/search/src/corral.rs:510-536 | the pocket of the cell and exactly the boxes that border it |
| Pockets.PocketCheck.CheckUnit | crates/search/src/corral.rs:472-504 | one unit keeps the check and makes progress; dead only with a dead pocket, alive only with none |
| Pockets.PocketCheck.Check | crates/search/src/corral.rs:448-504 | the check ends, dead exactly when some empty cell the keeper cannot walk to has a pocket of 1 to POCKET_BOXES members that stays shut, some member off goal, at every reachable key, with no more than POCKET_NODES queued; then no run solves the state |
| Pockets.PocketVerdictMeans | crates/search/src/corral.rs:448-545 | the pocket is the cells walked to from the cell, the members the boxes beside them, the start their cells and the keeper's region |
| Pockets.MembersInOrder | crates/search/src/corral.rs:276-286 | the members in slot order, each label's cells ascending |
| Probing.AllHomesEmptyMeansEmpty | crates/search/src/arena.rs:742-765 | once every bound record's home slot is empty, every slot is |
| Probing.RunKeepsSuffixes | crates/search/src/arena.rs:758-763 | clearing a run from a home up to an empty slot orphans no suffix, wrapping included |
| Probing.BindKeepsChains | crates/search/src/arena.rs:580-597 | binding the empty slot a probe stopped at keeps every chain |
| Probing.BoundBeforeNil | crates/search/src/arena.rs:747-750 | a bound record lies before the first empty slot from its home |
| Arenas.Rebind | crates/search/src/arena.rs:704-723 | the new table binds exactly the live records, each reachable from its home |
| Arenas.UnbindRuns | crates/search/src/arena.rs:766-780 | walking each live record's run in record order leaves every slot empty, clusters that wrap included |
| Arenas.Unbind | crates/search/src/arena.rs:727-741 | every slot empty, by fill or by runs |
| Arenas.Capacity | crates/search/src/arena.rs:434-481 | the largest positive limit that fits the budget and its bytes; none exactly when one state does not fit |
| Arenas.CapacityMeans | crates/search/src/arena.rs:434-480 | a capacity fits its budget and one state more does not, or is past the most asked for |
| Arenas.FinalTable | crates/search/src/arena.rs:60-62 | a power-of-two size from the first table up that twice the records fit |
| Arenas.FinalTableIsLeast | crates/search/src/arena.rs:60-62 | the least power of two that the records fill to half at most |
| Arenas.HeldWithinReserved | crates/search/src/arena.rs:529-534 | held and fixed bytes never pass the reservation, in every arena state |
| Arenas.FinalTableHalfEmpty | crates/search/src/arena.rs:650-690 | a final table never binds more than half its slots |
| Arenas.PathClimbs | crates/search/src/arena.rs:910-966 | the path starts at a root, follows parents and its k-th id is at least k |
| Arenas.PathLength | crates/search/src/arena.rs:911-924 | the path's length |
| Arenas.ScratchPath | crates/search/src/arena.rs:930-943 | the path's ids land in the emptied table root first, the rest untouched |
| Arenas.CompactPath | crates/search/src/arena.rs:943-957 | records move down in place without overwriting one still to move: exactly the kept path |
| Arenas.KeptPathIsPath | crates/search/src/arena.rs:893-966 | state, g, h, direction and closed flag of each path record are unchanged, parents renumbered, all detached |
| Arenas.LatestExists | crates/search/src/arena.rs:573-598 | a state with a version has a latest one |
| Arenas.AppendKeepsVersions | crates/search/src/arena.rs:605-649 | a record stays superseded exactly when kept by a clear or replaced by a later version |
| Arenas.AppendedMeans | crates/search/src/arena.rs:605-649 | an append adds an open, live record and flags the live version it replaces, nothing more |
| Arenas.GrowthMeans | crates/search/src/arena.rs:660-690 | past half its slots bound the table grows, at one record left a chunk, neither before; refusals alone starve |
| Arenas.ChargeIsTight | crates/search/src/arena.rs:434-480 | the charge is exactly what a full arena holds besides the fixed buffers |
| Arenas.BindNew | crates/search/src/arena.rs:605-649 | binding a new record keeps the table an index of the live records |
| Arenas.BindReplaced | crates/search/src/arena.rs:605-649 | rebinding a replaced version's slot keeps it too |
| Arenas.Arena.constructor | crates/search/src/arena.rs:380-430 | an empty arena of the given limit, its first table and chunk in place |
| Arenas.NewArena | crates/search/src/arena.rs:380-430 | the largest limit the budget holds; no room exactly when one state does not fit, no memory exactly when an allocation is refused |
| Arenas.Arena.Find | crates/search/src/arena.rs:573-598 | ends, and returns exactly the latest version since the last clear, or none exactly when there is none |
| Arenas.Arena.Insert | crates/search/src/arena.rs:605-649 | appends the node, supersedes the found version, keeps every invariant, a starved arena's last insert included; the buffers after it are exact |
| Arenas.Arena.Grow | crates/search/src/arena.rs:660-690 | room and index for the next insert, or starved; never past the reservation |
| Arenas.Arena.Recharge | crates/search/src/arena.rs:489-504 | the largest limit that fits the new fixed bytes; refused, with nothing changed, exactly when none does or the arena outgrew it |
| Arenas.Arena.IsSuperseded | crates/search/src/arena.rs:809-811 | exactly when a find on the state would not return the record |
| Arenas.Arena.Close | crates/search/src/arena.rs:817-822 | the closed flag alone changes; tells whether it was open |
| Arenas.Arena.Clear | crates/search/src/arena.rs:862-876 | no records, an empty table, counters and allocation kept |
| Arenas.Arena.ClearKeeping | crates/search/src/arena.rs:910-966 | the path lands at the front in order, detached; refused, with nothing changed, exactly when it leaves no room; room ahead afterwards, decided by the path's length and the chunks beforehand |
| Arenas.StarvedRefill | crates/search/src/arena.rs:958-960 | a run that starves an arena, keeps its path and inserts once ends neither starved nor full with no slot left, against the comment |
| Arenas.NoRoomAheadRunsOut | crates/search/src/arena.rs:660-690 | without room ahead an arena that is not starved is out of slots below its limit within one insert, and no growth is due before |
| Keys.Unpack | crates/search/src/arena.rs:201-216 | fields in range read back from the word |
| Keys.LowestF | crates/search/src/arena.rs:183-188 | of two words the one with less f is smaller, whatever h and id; fields in range |
| Keys.ThenLowestH | crates/search/src/arena.rs:183-188 | then the one with less h, whatever the id |
| Keys.ThenOldest | crates/search/src/arena.rs:183-188 | then the older record |
| Keys.PackedOrder | crates/search/src/arena.rs:183-216 | packed keys compare exactly as the queue orders entries, and differ exactly when the keys do |
| Keys.QueuedOrder | crates/search/src/arena.rs:201-216 | so do entries queued at any cost and weight, saturated or not |
| Keys.UnitWeight | crates/search/src/push.rs:170-173 | the exact search's keys are the weighted ones at weight 1 |
| Keys.SaturatedReadsBack | crates/search/src/arena.rs:194-216 | f and h past their fields read back as the largest each holds, anything else and the id exactly |
| Keys.LinkReadsBack | crates/search/src/arena.rs:157-181 | parent, none included, and direction read back and no flag is up |
| Keys.RaisingAFlag | crates/search/src/arena.rs:145-152 | raising one flag changes nothing else a link holds |
| Keys.Reweight | crates/search/src/arena.rs:972-984 | in place, every key becomes the one queueing its record at the new weight makes, saturated old keys included |
| Keys.MinGh | crates/search/src/arena.rs:851-855 | the least over the queue of f less the weight's share of h: a lower bound on g + h, and exact when no key is saturated |
| Keys.FloorIsSound | crates/search/src/arena.rs:851-855 | one key gives back at most its g + h, exactly that below saturation |
| PushGraph.SolutionSplits | crates/search/src/push.rs:267-280 | every solution of an unsolved state is a walk to a stand, a legal push and a solution of the child |
| PushGraph.ChildSolutionExtends | crates/search/src/push.rs:323-421 | a child's solution extends to the parent's by the walk and the push |
| PushGraph.PushPlays | crates/search/src/push.rs:267-280 | walk and push are a run of that many moves |
| Pushes.Canonicalize | crates/search/src/push.rs:36-47 | a canonical order of the same position |
| Pushes.SettleBox | crates/search/src/push.rs:55-69 | the canonical order again after one box moved, the same position |
| Pushes.CanonicalStateIsUnique | crates/search/src/push.rs:36-52 | a position has one canonical order |
| Pushes.ExcessIsAdmissible | crates/search/src/push.rs:301-311 | parent estimate plus excess never passes walk, push and any solution of the child |
| Pushes.ExcessNeedsPushSound | crates/search/src/push.rs:280-300 | without the promise about pushes it can: a board, and an estimate admissible in every state, whose only push is put past what its solution costs |
| Pushes.ChargeAlongWalk | crates/search/src/push.rs:290-300 | a charge rises by at most one a step, so a stand's walk covers its charge |
| Pushes.ChildCost | crates/search/src/push.rs:323-421 | a child's g is the length of a run from the start, saturated |
| Pushes.SolvedCost | crates/search/src/exact.rs:64-68 | an unsaturated cost of a solved record is the length of a solution |
| Frontiers.FrontierBounds | crates/search/src/engine.rs:778-790 | in any covered search, through any live record, g plus the length of any solution is at least a queued f, the incumbent or an interrupted f |
| Frontiers.InsertCovers | crates/search/src/engine.rs:1552-1560 | storing and queueing an improving child at an admissible h keeps every first push accounted for |
| Frontiers.SpareCovers | crates/search/src/engine.rs:1535-1541 | a solved child kept unqueued in the spare slot keeps it too |
| Frontiers.DropCovers | crates/search/src/engine.rs:1318-1342 | dropping a stale or covered entry keeps it |
| Frontiers.InterruptCovers | crates/search/src/engine.rs:915-918 | recording the cut expansion's f keeps it |
| Frontiers.ExpandedCovers | crates/search/src/engine.rs:1441-1450 | a finished expansion covers its record by its children and its re-queued entry |
| Frontiers.FirstPush | crates/search/src/engine.rs:1362-1370 | a solution of a covered record starts with a push accounted for |
| ExactTheory.DismissedFollowed | crates/search/src/push.rs:313-421 | a dropped child's push is accounted for at the nearest stand's cost |
| ExactTheory.ExcessDefers | crates/search/src/engine.rs:1405-1414 | a push left out unbuilt is paid for by the least f left out |
| ExactTheory.ChildDefers | crates/search/src/engine.rs:1425-1431 | a built child left out is paid for by the least f left out |
| ExactTheory.FinishRequeues | crates/search/src/engine.rs:1443-1449 | queueing the node again at the least f left out keeps every solution bounded |
| ExactTheory.TwinDismissed | crates/search/src/push.rs:341-351 | dismissing the settled child dismisses the push |
| ExactTheory.StartBounded | crates/search/src/exact.rs:32-41 | no solution of the start is shorter than the least queued f, the incumbent or the interrupted f |
| ExactTheory.ProvesGiven | crates/search/src/engine.rs:578 | a proof about the canonical start is a proof about the caller's position |
| ExactTheory.MeasureWithout | crates/search/src/engine.rs:1380-1450 | the queue's weight is the sum over its entries, in any order |
| Expansions.JudgedKeeps | crates/search/src/engine.rs:1318-1342 | a stale or dominated entry may go, a goal ends the search with no less f queued, the rest are expandable |
| Expansions.PopMeans | crates/search/src/engine.rs:1305-1343 | a least entry leaves the queue; of a live record, one home ends the search and one cheaper than the incumbent is expanded, no other |
| Expansions.PopKeeps | crates/search/src/engine.rs:1305-1343 | whatever a pop takes out, every solution stays accounted for |
| Expansions.FreezeDismisses | crates/search/src/push.rs:347-353 | a push the freeze check flags leaves no solution of the child |
| Expansions.DeadCellDismisses | crates/search/src/push.rs:339-343 | nor does one the dead cells rule out |
| Expansions.ScreenedIsFair | crates/search/src/push.rs:339-353 | dropping a push for a dead cell, its g or the freeze check loses no solution shorter than the incumbent |
| Expansions.BarredIsFair | crates/search/src/push.rs:364-421 | dropping a built child as a duplicate or for its price loses none either |
| Expansions.PriceIsFair | crates/search/src/push.rs:372-407 | a price is admissible and beats the incumbent; refusing one loses no shorter solution |
| Expansions.PricedIsNotBarred | crates/search/src/push.rs:354-364 | no child is both dropped and stored, since it settles in one way only |
| Expansions.PricedIsStorable | crates/search/src/push.rs:323-421 | a child at its exact g, h and price is sound to store and improves on any duplicate |
| Expansions.DroppedMeans | crates/search/src/push.rs:323-421 | a push is dropped exactly for a dead landing, a jam, a live record of its child no dearer, a missing bound, or an incumbent that the moves made and those needed reach |
| Expansions.PriceMeans | crates/search/src/push.rs:372-407 | a price is refused exactly when a bound is missing or the incumbent reaches the needed moves, and is otherwise the larger of the estimate and the room bound, as a key holds it |
| Expansions.ImpossiblePush | crates/search/src/push.rs:267-280 | no walk to a stand, no effect |
| Expansions.LeftOutUnbuilt | crates/search/src/engine.rs:1400-1411 | a partial expansion leaves a push out unbuilt exactly when the parent's estimate is more than the push can take off it and the child sure to be dearer than the entry popped |
| Expansions.TurnedAwayMeans | crates/search/src/engine.rs:1412-1421 | a push turned away leaves everything as it was |
| Expansions.StaysMeans | crates/search/src/engine.rs:1412-1431 | any other push's child, at the larger bound, is postponed if dearer than the entry popped, else stored as an open live record in place of its dearer versions, queued at its g + h and, solved, the incumbent |
| Expansions.BelowFillIsWhole | crates/search/src/engine.rs:1374-1409 | below the fill and at the root nothing is postponed: the finished node is not queued again |
| Expansions.PastFillIsPartial | crates/search/src/engine.rs:1376-1450 | past it no child is queued dearer than the entry popped, but for the solved |
| Expansions.PushedKeeps | crates/search/src/engine.rs:1392-1439 | one push, whatever its outcome, leaves every solution accounted for, that push included |
| Expansions.RanKeeps | crates/search/src/engine.rs:1390-1439 | so do any number of pushes in box and direction order |
| Expansions.RanToEndKeeps | crates/search/src/engine.rs:1390-1439 | and all of them, or those before a limit ended the search |
| Expansions.FinishedKeeps | crates/search/src/engine.rs:1443-1450 | dropping the node, or queueing it at the least f left out, keeps every solution accounted for, its entry lighter |
| Expansions.FinishedMeans | crates/search/src/engine.rs:1443-1450 | a finished node waits at the least f it left out, and not at all without one |
| Expansions.HasDeadCorralMeans | crates/search/src/push.rs:205-213 | a node is dropped exactly when some corral around a box has no way on |
| Expansions.ProgressIsNearer | crates/search/src/engine.rs:1370-1450 | an expansion stored a record or left the queue lighter than the popped entry made it |
| Expansions.BoundsHold | crates/search/src/exact.rs:32-41 | frontier and incumbent together bound every solution; nothing left and no route means unsolvable |
| Expansions.CappedIsLeast | crates/search/src/exact.rs:35-41 | capping the frontier by the incumbent gives exactly the least bound held |
| Expansions.UncertifiedIsLong | crates/search/src/exact.rs:53-74 | a solved end that certifies only a bound leaves no solution shorter than F_SAT moves |
| Engines.Engine.constructor | crates/search/src/engine.rs:568-649 | a fresh search keeps the whole invariant: the canonical start stored and queued at its root estimate, or exhausted |
| Engines.NewSearch | crates/search/src/engine.rs:568-649 | opens a search exactly when the state is valid, the limits in range, one state fits and nothing is refused; each error exactly for its cause, first fault first |
| Engines.Engine.Seed | crates/search/src/engine.rs:654-680 | in an empty arena, the start stored and queued, or exhausted when it has no assignment |
| Engines.Engine.Pop | crates/search/src/engine.rs:1305-1343 | takes out a least entry and follows its verdict exactly (stale, goal, dominated, expandable), losing no solution; an empty queue ends the search solved or exhausted |
| Engines.Engine.TakeGoal | crates/search/src/engine.rs:1327-1334 | a solved pop ends the search at the shorter of its cost and the incumbent's, and no queued f is lower |
| Engines.Engine.OpenNode | crates/search/src/push.rs:205-227 | the keeper's exact flood, the freeze map refreshed, and dead exactly when some corral around a box has a cell to spare and no way on, so only when nothing solves the node |
| Engines.Engine.CloseNode | crates/search/src/push.rs:206-208 | the node closed and counted the first time, the search otherwise as it was |
| Engines.Engine.Freezes | crates/search/src/push.rs:347-353 | true exactly when the push leaves a box in line with it off goal that no way of taking boxes off takes, every box taking part, so only when nothing solves the child |
| Engines.Engine.Build | crates/search/src/push.rs:354-364 | the child settled: canonical, the same position |
| Engines.Engine.Evaluate | crates/search/src/push.rs:364-421 | none exactly for a live record no dearer, a missing bound or an incumbent within the g and the moves needed; otherwise exact record and table slot, queued at the larger of the estimate and the room bound as a key holds it |
| Engines.Engine.Admit | crates/search/src/push.rs:323-421 | none exactly when the landing is dead, the push jams, a live record is no dearer, a bound is missing or the incumbent is within reach; otherwise the canonical child at its exact g and the larger of its two bounds |
| Engines.Engine.Insert | crates/search/src/engine.rs:1513-1572 | exactly the new records, queue, incumbent and cut f, which is the popped entry's own, at a full arena and below it; below it the search stops exactly when the arena starved |
| Engines.Engine.StopAtLimit | crates/search/src/engine.rs:915-918 | the cut f recorded and the limit's status, memory's exactly for a scaled or starved arena |
| Engines.Engine.TryPush | crates/search/src/engine.rs:1392-1439 | exactly which of illegal, left out unbuilt, dropped, left out built, stored or stopped happens, and what it leaves |
| Engines.Engine.Finish | crates/search/src/engine.rs:1443-1450 | the node dropped, or queued again at exactly the least f left out, its h risen, every push accounted for |
| Engines.Engine.Expand | crates/search/src/engine.rs:1370-1450 | exactly what the pushes in order leave, none with a dead corral, partial exactly past the fill, ended only with the limit's own status; keeps the whole invariant and makes progress |
| Engines.Engine.Turn | crates/search/src/engine.rs:1280-1301 | one pop and, of an entry that asks for it, the expansion, exactly; it keeps the whole invariant and, while running, stores a record or strictly lightens the queue |
| Engines.Engine.Advance | crates/search/src/engine.rs:1209-1301 | as many turns, each leading from one moment to the next, fewer only when the search ends before; the whole invariant kept |
| Engines.Engine.RunToEnd | crates/search/src/engine.rs:1280-1301 | the exact search ends from every reachable state, by turns alone |
| Engines.Engine.Stop | crates/search/src/engine.rs:836-854 | only the status of a running search changes |
| Engines.Engine.Frontier | crates/search/src/engine.rs:784-790 | the least of the queued f and the interrupted f |
| Engines.Engine.LowerBound | crates/search/src/exact.rs:35-41 | exactly the least f queued, cut short or held by the incumbent, when it is a count; never more than the length of any solution, in every reachable state |
| Engines.Engine.IncumbentIsRoute | crates/search/src/exact.rs:64-66 | an unsaturated incumbent cost is the length of a solution |
| Engines.Engine.ProofNow | crates/search/src/exact.rs:46-74 | the proof of every end exactly: unsolvable, optimal, bounds or none; each is true of the start; a solved end proves its route optimal exactly when unsaturated and at most F_SAT long or the queue is empty |
| Engines.Engine.FinishBuild | crates/search/src/engine.rs:1026-1078 | re-sized exactly when the tables' bytes fit, the start then queued at the larger price or exhausted without one; otherwise nothing changes; the whole invariant kept |
| Engines.Engine.AttachWalk | crates/search/src/engine.rs:1113-1133 | the raised pricing takes effect mid-search, what is queued unchanged and the whole invariant kept |
| Phases.TableIsClosed | crates/search/src/engine.rs:210-312 | for every policy listed, what the table's compile-time assertions and the key width promise of it |
| Phases.Search.Conserved | crates/search/src/engine.rs:722-724 | in unstaged runs generated is unique states plus duplicate improvements, and the search restarted at most once |
| Phases.Search.Record | crates/search/src/engine.rs:705-717 | the best route never gets longer |
| Phases.Search.NextPhase | crates/search/src/engine.rs:858-866 | hands over exactly when there is a next phase, every entry re-keyed for its weight, the rest unchanged |
| Phases.Search.Empty | crates/search/src/engine.rs:872-885 | refused exactly when the kept path leaves no room; else every insert still counted once, the incumbent's length kept and room for the start |
| Phases.Search.Restart | crates/search/src/engine.rs:891-896 | exactly under a policy that restarts with room for the start, at most once a search, the best route kept |
| Phases.Search.End | crates/search/src/engine.rs:927-954 | hands over to the polisher exactly under a polishing policy with a route that rebuilds; the best length kept |
| Phases.Search.InsertChild | crates/search/src/engine.rs:1513-1572 | queued, restarted or stopped, each exactly when the arena's fill, its starving, the child's goal and the policy say; queued, the queue is the old one and one entry for the new record at its h; stopped, with exactly the status of its cause |
| Phases.Search.PopOne | crates/search/src/engine.rs:1305-1343 | a least entry taken and its verdict followed exactly: a goal recorded if shorter, then handed to the next phase or ended as the policy says, the queue otherwise kept |
| Phases.Search.TryChild | crates/search/src/push.rs:323-421 | dropped exactly by the incumbent's bound or a stored version, else the last record is the child's, at its parent's cost, the walk and the push, and one entry of it is queued; a solved child bounds the best route |
| Phases.Search.DroppedMeans | crates/search/src/push.rs:323-421 | a child is dropped exactly when the incumbent is within its g + h, or a live record of its state is no dearer or closed for good |
| Phases.VerdictMeans | crates/search/src/engine.rs:1316-1342 | stale exactly when superseded, a goal exactly when home at h 0, expanded exactly when the incumbent is dearer, by g and as the policy says by g + h |
| Phases.AwaitsMeans | crates/search/src/engine.rs:1552-1553 | nothing is lost: each live record was taken out of the queue or has an entry in it |
| Phases.Search.Enqueue | crates/search/src/engine.rs:1552-1553 | the child is the last record and the queue the old one and its entry |
| Phases.Search.RunDry | crates/search/src/engine.rs:1306-1315 | a queue run dry ends the search solved exactly with a route and exhausted exactly without one, every live record popped |
| Phases.Search.PopGoal | crates/search/src/engine.rs:1324-1333 | a solved pop replaces exactly a dearer incumbent, and ends the search solved exactly when the policy stops on goals and has no next phase, which it otherwise enters with every entry re-keyed |
| Phases.Search.StopAtLimit | crates/search/src/engine.rs:915-918 | the cut f recorded and the limit's own status, memory's exactly for a scaled or starved arena |
| Phases.Search.Handle | crates/search/src/engine.rs:1209-1348 | one event keeps the whole invariant, and the best route gets no longer |
| Phases.Search.StartEpisode | crates/search/src/engine.rs:1589-1613 | an episode starts exactly when due, with an incumbent whose route rebuilds and fits; the due mark is spent |
| Phases.Search.PolishOne | crates/search/src/engine.rs:1628-1651 | a polish never lengthens the route; over, an end polish leaves its status and an episode its route and a running search |
| Phases.Search.Stop | crates/search/src/engine.rs:836-854 | an outside stop of search or polish loses no route |
| Phases.Search.Drive | crates/search/src/engine.rs:1209-1348 | over every event list the best route never gets longer, every insert is counted once, the search restarts at most once, and while it goes on every live record was popped or is queued |
| Scrambles.CanRobotReach | web/src/generator.ts:248-271 | true exactly when a walk around the boxes connects the two |
| Scrambles.EnumerateReversePulls | web/src/generator.ts:276-303 | every legal pull and nothing else, each once, box by box and in direction order |
| Scrambles.PullIsUndone | web/src/generator.ts:305-307 | one push and the reversed walk undo any pull |
| Scrambles.PullIsReversePush | web/src/generator.ts:276-300 | the pulls are exactly the pushes played backwards |
| Scrambles.PullsInOrder | web/src/generator.ts:276-300 | the list has each legal pull once, box by box and up, down, left, right |
| Scrambles.PickMeans | web/src/generator.ts:319 | the k-th of n pulls is picked exactly by draws in the k-th of n equal parts |
| Scrambles.ScrambleByReversePull | web/src/generator.ts:308-326 | the position after exactly the pulls rng picks from the listed ones, short of pullCount only where none is legal; for every template and rng a run of legal steps takes box i back to goal i |
| Scrambles.ScrambleIsSolvable | web/src/generator.ts:305-307 | so the scramble is solvable on any board whose goals fit the boxes slot by slot |
| Walks.WalkRoute | web/src/walk.ts:11-35 | a returned route replays as walks to the target and none is shorter; none exactly for the player's own cell or a cell no walk reaches |
| Walks.Retrace | web/src/walk.ts:38-44 | the letters spell the discovered path |
| Walks.StepIsBeside | web/src/walk.ts:22-29 | the offset arithmetic with its row check is the board's geometry |
| Walks.DirectionOf | web/src/walk.ts:47-50 | the letter of a step is its direction |
| Walks.UnseenIsFar | web/src/walk.ts:19-34 | a cell not yet seen is farther than the head |
| Clients.SolverClient.Begin | web/src/solver-client.ts:144-210 | no second search while one runs; otherwise the new search has the caller's kind and prefix and no route, and runs with a timer and a watchdog of its own exactly when no set-up step throws |
| Clients.SolverClient.Accept | web/src/solver-client.ts:118-141 | replies of other searches change nothing; the running search's reply is taken exactly when its route replays and fits and its claims hold of the route held, and is then shown, or ends the search |
| Clients.SolverClient.Reply | web/src/solver-client.ts:118-141 | a reply taken is shown, and completes the search exactly when final; one refused completes it with its verified route; one of another search changes nothing |
| Clients.SolverClient.On | web/src/solver-client.ts:80-232 | what each call or callback leaves, for the running search and any other |
| Clients.SolverClient.Finish | web/src/solver-client.ts:107-112 | only the running search ends, completed with its prefix and verified route |
| Clients.SolverClient.Reset | web/src/solver-client.ts:90-94 | idle, the running search released |
| Clients.SolverClient.DropRoute | web/src/solver-client.ts:97-100 | a completed route is forgotten, a running search untouched |
| Clients.SolverClient.Cancel | web/src/solver-client.ts:213-232 | a native search is dropped at once; a browser one keeps running under a new deadline, or ends with its route when asking throws |
| Clients.SolverClient.Drive | web/src/solver-client.ts:80-232 | under every interleaving at most one search is live, each other was released exactly once, and every shown route was verified |

## Left out

- Chunked storage: records are one sequence and a count of reserved chunks; chunk lists, byte-level
  layout and the released-memory behaviour of WebAssembly are not modelled.
- The step and the parse buffers are values: `Rules.Step` returns the state a step leads to, and
  `Parsing.Scan` carries the tiles, boxes and goals read so far, where the source writes in place.
- Member masks are sets, so the 32-bit mask arithmetic of the corral and freeze checks is not.
- The occupancy map holds an optional box index per cell instead of a byte with a marker value.
- The heuristic's matching, its keeper sides and charges, the room bound's tables and the walk
  term's solver: contracts only, and their builds' slicing by pops is not modelled.
- The four-ary heap of the queue: any entry with a least key may be handed back.
- Arenas.Arena.constructor: the limit is a parameter; `NewArena` chooses it, and one answer stands for every allocation.
- Engines.Engine.Seed: an exact search stores its start in an empty arena; starts stored beside a restart's kept path are in `Phases.dfy`.
- Engines.Engine.Admit: the skip counters are not kept; the child's stand-walk bound is a contract, not recomputed.
- Engines.Engine.Stop: the sealed bound that a weighted search reports is left out.
- Phases.Search.Drive: staged runs are left out, and with them the ladder's dropped records; a child's h and a polished route's length are the surroundings' to give.
- Phases.Search.End: the polisher releases the arena; here its records stay, unused.
- The in-place hand-over from Fast to Quality makes no bound sound, so none is claimed for it.
- Keys.PackedOrder: the packed key is a natural number here; its bit-vector form has lemmas of its own, on fields within their widths.
- Keys.Reweight: the heap's order after re-keying is the queue's own.
- Parsing.Parse: a character stands for one byte, and the fingerprint is not computed.
- Pockets.PocketCheck.FloodPocket: a second pass collects the bordering boxes that the source notes during the flood.
- Scrambles.CanRobotReach: the visited set is the queue itself.
- Scrambles.ScrambleByReversePull: positions are cells of a board whose table stands for the grid; building rows from a scramble, which moves the robot, is left out.
- Clients.SolverClient.Drive: callbacks do not re-enter, and messages, status texts and the elapsed clock are not modelled.
- The greedy example's walk building and score, the stage ladder, the polisher's own search, doorway
  guidance, and all page, server, storage and command-line code: they state no bound or dead verdict
  of their own.
