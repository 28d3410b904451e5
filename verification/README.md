# Blockscape in Dafny

A Dafny model of the in-memory algorithms of Blockscape, a blockchain engine for strategy games, with
proofs of what they are for. To verify: `dafny verify dfyconfig.toml`.

| Files | What they model |
|---|---|
| `Primitives`, `Event`, `Network` | identifiers and machine integers; tick-indexed event lists; the reference network state (values, validators, stakes, events) with what mutations and contra mutations do to it |
| `Effects`, `Undo`, `Store`, `Duplicates` | what a mutation leaves in the state, entry by entry; when undoing restores it; the database's own layout (zero stakes kept, events in buckets of a thousand ticks) refining the reference state; the rule that supplies what undoing needs |
| `BlockTree`, `AncestorSearch`, `Chain`, `Database` | the tree of blocks; the two-sided ancestor search; the invariant tying height index, contras, head and network state to the tree; the database that keeps it through reorganisations |
| `RecordKeeper`, `BlockSync` | whole runs compared with the naive record keeper; the blocks sent to a peer |
| `DbState`, `Overlay`, `StateWalk` | the copy-on-write state over a database and its compiled batch; what it reads as, beside a flat database; whole mutations, walks and the record keeper's step through it |
| `PowerGrid` | connected components kept under insertion and removal |
| `Merkle`, `BlockPackage`, `Shares` | Merkle roots; packing blocks with their transactions; the transfer rule |
| `Turns`, `Checkers`, `CheckersRules` | the turn protocol of recorded games; the board itself and the rules it keeps, square by square |
| `Tcp`, `Bytes`, `Base16`, `U256`, `Forging` | stream framing, byte orders, hexadecimal text, 256-bit integers, forging waits |

Code that changes state in place is a class or a method with loops, proved against a pure reference
function; the properties are lemmas about the reference. Keys are structured values, so different
entries never collide; hashes are abstract and given with the blocks.

Where code and documentation differ, the model follows the code:

- `_get_blocks_before` keeps the highest blocks when there are more than the limit
  (`core/src/record_keeper/database.rs:301-319`), where its comment speaks of the lower ones.
- Undoing a new validator deletes a generic key whose bytes are the validator's key entry and leaves
  the public key in place (`core/src/record_keeper/database.rs:692-696`).
- Setting a key that the diff marks deleted only drops the mark, and deleting a key that the diff set
  only drops the value (`core/src/record_keeper/db_state.rs:384-399`).
- Removed events in a later bucket than every added event of the same plot are compiled against an
  empty base bucket (`core/src/record_keeper/db_state.rs:86-135`): a reorganisation that only undoes
  an event there drops every other event of its bucket from the database
  (`StateWalk.ReorganisationDrops`).
- `is_part_of_current_chain` answers from the first entry of the height's list also above the head,
  where that entry need not be on the current chain (`core/src/record_keeper/database.rs:259-270`);
  the search for the latest ancestor on the current chain then ends above the head
  (`BlockSync.MarkIsFork`).
- `Turns` reads the state before the mutation, so one mutation may start a game on a plot twice, and the
  next turn on that plot stops the program (`checkers/src/rules/turns.rs:30-45,97-119,130`); a join of the
  zero id leaves its place open, so that a second join on the same tick is accepted
  (`checkers/src/rules/turns.rs:50-79`). `Turns.JudgeIff` says exactly when games stay in order.
- In `Turns` the first player plays the even ticks and the second the odd ones
  (`checkers/src/rules/turns.rs:127-138`), where its comment has them the other way round.
- The transfer rule compares the sending account with the administrator, where its comment speaks of
  the creator of the mutation (`core/src/record_keeper/rules/mutation/shares.rs:17-20`).
- A jump with an empty path is accepted, and crowns a man on the first or last row
  (`checkers/src/checkers.rs:256-296`).
- Two lists of different lengths can have the same Merkle root, whatever the hash
  (`core/src/primitives/block.rs:101-124`).

## Model

| member | source | states |
|---|---|---|
| `PowerGrid.GridNet.AddSegment` | client/src/world/power_grid.rs:219-243 | the grids stay a partition into connected, untouching parts, now of the old segments and the new one |
| `PowerGrid.GridNet.RemoveSegments` | client/src/world/power_grid.rs:245-253 | the same for the old segments without the removed ones |
| `PowerGrid.ExplorePart` | client/src/world/power_grid.rs:83-109 | the breadth-first search takes out one whole connected part, and what is left does not touch it |
| `PowerGrid.RemoveFromGrid` | client/src/world/power_grid.rs:73-120 | what remains of a grid is split exactly into connected, pairwise untouching, non-empty parts |
| `PowerGrid.IsAdjMeaning` | client/src/world/power_grid.rs:170-177 | a square counts as adjacent exactly when it is in the grid or a 4-neighbour of one of its squares |
| `PowerGrid.PartitionIsComponents` | client/src/world/power_grid.rs:219-253 | grids in that shape are, each once, the connected components of all their segments, defined by paths |
| `PowerGrid.Run` | client/src/world/power_grid.rs:215-253 | after any sequence of insertions and removals the grids are exactly the connected components of the segments present |
| `PowerGrid.AfterMeans` | client/src/world/power_grid.rs:219-253 | a segment is present after a run exactly when it was added and no later removal names it |
| `PowerGrid.SameGridIff` | client/src/world/power_grid.rs:219-253 | two segments are in one grid exactly when a walk over segments, one step left, right, up or down at a time, leads from one to the other |
| `PowerGrid.HistoryIndependent` | client/src/world/power_grid.rs:219-253 | nets with the same segments have the same grids, whatever their histories |
| `Event.AddEvent` | core/src/primitives/event.rs:24-40 | an event goes behind those of its tick unless already there, all other ticks unchanged, and the answer says which |
| `Event.RemoveEvent` | core/src/primitives/event.rs:50-61 | an event is taken off its tick, the emptied tick dropped, and the answer says whether it was there |
| `Event.ExcludingMiddle` | core/src/primitives/event.rs:50-61 | what is before and behind the event taken off keeps its order |
| `Store.NextBucket` | core/src/record_keeper/database.rs:94-106 | bucket numbers: each bucket is a thousand ticks, the next one a thousand later |
| `Store.NetworkStore.ChangeValidatorStake` | core/src/record_keeper/database.rs:572-586 | adds a signed amount to one stake, a missing stake reading as zero |
| `Store.NetworkStore.AddEvent` | core/src/record_keeper/database.rs:589-602 | the event is recorded on its plot, buckets stay gap-free down to 0, nothing else changes |
| `Store.NetworkStore.RemoveEvent` | core/src/record_keeper/database.rs:613-626 | the event is gone from its plot, buckets stay gap-free, nothing else changes |
| `Store.InitEventBuckets` | core/src/record_keeper/database.rs:94-106 | opens the missing buckets below a tick without changing any plot's events |
| `Store.NetworkStore.GetPlotEvents` | core/src/record_keeper/database.rs:534-546 | returns exactly the events of the plot at the given tick or later, tick by tick |
| `Store.PayAll` | core/src/record_keeper/database.rs:667-673 | paying the recipients one at a time, in any order and through wrapping 64-bit steps, equals paying them all at once |
| `Store.MoveStake` | core/src/record_keeper/database.rs:667-705 | the stored outcome of a transfer, or of taking one back, is the reference transfer |
| `Store.NetworkStore.Mutate` | core/src/record_keeper/database.rs:639-680 | a mutation does to the stored state what the reference says, and the contra holds the prior admin values in reverse order |
| `Store.NetworkStore.UndoMutate` | core/src/record_keeper/database.rs:684-709 | undoing does to the stored state what the reference says |
| `Store.NetworkStore.MutateAndBack` | core/src/record_keeper/database.rs:639-709 | applying a mutation without repetitions and new validators and undoing its contra gives the network state back |
| `Effects.KeyAfter` | core/src/record_keeper/database.rs:657-662 | after a mutation a validator has the whole public key it was last introduced with, else the key it had |
| `Effects.ValueAfter` | core/src/record_keeper/database.rs:560-570 | a generic key reads as it was last set or deleted, else as before |
| `Effects.RewardLeaves` | core/src/record_keeper/database.rs:649-652 | a block reward adds ten to one stake, modulo 2^64, and leaves the others |
| `Effects.SlashLeaves` | core/src/record_keeper/database.rs:663-666 | a slash takes its amount from one stake, modulo 2^64, and leaves the others |
| `Effects.TransferLeaves` | core/src/record_keeper/database.rs:667-675 | each recipient gets its amount and the sender pays all of them |
| `Effects.StakeAfter` | core/src/record_keeper/database.rs:639-680 | after any mutation every stake is the old one plus the sum of what the changes add to it, modulo 2^64 |
| `Effects.EventsAfter` | core/src/record_keeper/database.rs:605-611 | an accepted mutation puts its events behind those of each tick and plot, in order |
| `Effects.EventsGrow` | core/src/record_keeper/database.rs:589-611 | any mutation keeps the recorded events as a prefix and never records one twice |
| `Effects.FreshIff` | core/src/record_keeper/rules/mutation/duplicates.rs:50-94 | what the duplicate rule demands is exactly that every recorded event makes its list longer and every validator is introduced only once |
| `Effects.UndoneValidator` | core/src/record_keeper/database.rs:692-696 | undoing a new validator only deletes one generic key, of `n`, `VKY` and the twenty bytes of the id |
| `Effects.ReplayIsAll` | core/src/record_keeper/database.rs:458-466 | the state of a branch is the empty state after all mutations of its blocks, one after another from genesis |
| `Undoing.TransferCancels` | core/src/record_keeper/database.rs:698-705 | taking a transfer back restores every balance, also of a sender among its recipients |
| `Undoing.EventsCancel` | core/src/record_keeper/database.rs:605-634 | removing a newly recorded event from all its plots restores every list |
| `Undoing.UndoRestores` | core/src/record_keeper/database.rs:560-709 | undo inverts apply for every mutation the duplicate rule accepts and that introduces no validator |
| `Undoing.UndoRestoresIff` | core/src/record_keeper/database.rs:560-709 | for accepted mutations undo inverts apply exactly when no validator is introduced |
| `Undoing.NewValidatorStays` | core/src/record_keeper/database.rs:692-696 | the key of a validator that joined is still stored after its mutation was undone |
| `Duplicates.IsValid` | core/src/record_keeper/rules/mutation/duplicates.rs:50-94 | accepts exactly the mutations that repeat no event or validator of the state or of themselves |
| `BlockTree.ForkUnique` | core/src/record_keeper/database.rs:716-757 | the fork is the only height from which two branches share everything below and nothing above |
| `BlockTree.AncestorsAre` | core/src/record_keeper/database.rs:716-757 | the blocks met on the way back from a block are those its branch holds at their own heights |
| `BlockTree.UndoBlock` | core/src/record_keeper/database.rs:449-457 | a block's contra takes the state back from the block to its parent |
| `AncestorSearch.LatestCommonAncestor` | core/src/record_keeper/database.rs:716-757 | the two-sided search ends, with the trails down to where one runs into the other |
| `AncestorSearch.CalculateBlockPath` | core/src/record_keeper/database.rs:392-422 | the blocks to undo are exactly the ancestors of the current block that are not the target's, those to apply the other way round, each under its true height |
| `Chain.StepDown` | core/src/record_keeper/database.rs:449-457 | undoing a head that can be undone keeps index, contras, head and state in agreement with the tree |
| `Chain.LoweredStructured` | core/src/record_keeper/database.rs:449-457 | undoing any head keeps the index, the contras and the head in agreement with the tree |
| `Chain.UnwoundIff` | core/src/record_keeper/database.rs:449-457 | undoing blocks that pass the duplicate rule down to an ancestor leads back to its replay exactly when none of them introduces a validator |
| `Chain.StepUp` | core/src/record_keeper/database.rs:458-466 | applying a child of the head keeps index, contras, head and state in agreement with the tree |
| `Chain.ConsistentGrows` | core/src/record_keeper/database.rs:125-147 | so does learning of a new block below a known one |
| `Chain.GrownMeans` | core/src/record_keeper/database.rs:125-147 | a new block keeps its mutation and its parent, stands one above it, and changes nothing else |
| `Database.Database.constructor` | core/src/record_keeper/record_keeper.rs:739-750 | a database opened with its genesis block agrees with the tree of that block alone |
| `Database.Database.AddBlock` | core/src/record_keeper/database.rs:125-147 | a block below a known parent joins the tree with its whole mutation, one above its parent, behind the others of its height; repeated and orphaned blocks are turned away |
| `Database.Database.IsPartOfCurrentChain` | core/src/record_keeper/database.rs:259-278 | up to the head's height the answer is whether the block is among the head's ancestors; above it, whether it is first in its height's list |
| `Database.StaleMark` | core/src/record_keeper/database.rs:266-270 | walking any database one block down from its head leaves the undone block answering as part of the current chain |
| `Database.Database.UpdateCurrentChain` | core/src/record_keeper/database.rs:790-804 | moves a block of the height to the front of its list, which keeps its members |
| `Database.Database.FindChainHead` | core/src/record_keeper/database.rs:374-385 | finds a block of greatest height: the current head if it has that height, else the first listed there |
| `Database.Database.Walk` | core/src/record_keeper/database.rs:431-468 | moves to the target, undoing as many blocks as lie above the fork, and keeps index and head in agreement with the tree; the state stays the replay when every undone block can be undone, and down the head's own branch of accepted blocks exactly when none of them introduces a validator; an unknown target changes nothing |
| `Database.Rewound` | core/src/record_keeper/database.rs:449-457 | the state at the fork is its replay when every undone block can be undone, and for accepted blocks of the own branch exactly when none introduces a validator |
| `Database.WalkAll` | core/src/record_keeper/database.rs:431-468 | after every sequence of walks the head is the last target, index and head agree with the tree, and if each walk undid only blocks that can be undone, the network state is the replay of all mutations from genesis to that target |
| `Database.Database.WalkToHead` | core/src/record_keeper/database.rs:476-491 | ends at a block of greatest height, staying where it is when the head already has it; a replayed state stays one when the undone blocks can be undone |
| `Database.Database.Accept` | core/src/record_keeper/record_keeper.rs:311-345 | adding a block and walking to the head moves to it exactly when it is higher than the head; a replayed state stays one when the undone blocks can be undone |
| `RecordKeeper.DummyRecordKeeper.AddBlock` | core/src/record_keeper/dummy.rs:105-155 | a new block below a known one is added exactly when all its transactions are pending, taking them from the pool; blocks and best block follow the first-seen rule, and a refused block changes nothing |
| `RecordKeeper.DummyRecordKeeper.IsBlockInCurrentChain` | core/src/record_keeper/dummy.rs:282-294 | walking back from the best block finds exactly the blocks of its branch |
| `RecordKeeper.Run` | core/src/record_keeper/dummy.rs:105-155 | whatever blocks are offered, database and naive keeper end with the same blocks and the same head exactly when no new block finds one of its transactions taken from the pool; if whatever the database undid on the way can be undone, its state is the replay of the head's branch |
| `RecordKeeper.FirstSeen` | core/src/record_keeper/dummy.rs:141-146 | the best block is a highest one, and any other of its height came after it was the best already |
| `RecordKeeper.SameMembership` | core/src/record_keeper/database.rs:266-270 | for keepers with the same blocks and head, the indexed membership test and the naive walk back give the same answer for every hash |
| `BlockSync.LatestCommonAncestorWithCurrentChain` | core/src/record_keeper/database.rs:762-772 | finds the highest block of the branch that is first in its height's list, on any database; an unknown hash is not found |
| `BlockSync.MarkIsFork` | core/src/record_keeper/database.rs:762-772 | that block is the fork with the current chain exactly when no block of the branch above the head is first in its list, and else lies above the head; under a head of greatest known height it always is |
| `BlockSync.GetBlocksBefore` | core/src/record_keeper/database.rs:301-319 | the target's own branch down to the last known block or the first marked one, the highest of it when limited |
| `BlockSync.GetBlocksAfter` | core/src/record_keeper/database.rs:323-343 | the current chain above its fork with the last known block, up to the limit and the target; nothing when an old mark above the head is met first; an unknown block is not found |
| `BlockSync.GetBlocksBetween` | core/src/record_keeper/database.rs:348-367 | what the list is, entry by entry: on the current chain the blocks above the fork in order, up to the target or the limit, each with its parent supplied; off it, as much of that as leaves room for the highest blocks of the target's own branch, with the exact condition for supplied parents; with an old mark below the last known block, the own branch alone; an unknown block is not found |
| `BlockSync.SentList` | core/src/record_keeper/database.rs:301-367 | the same of the reference function, for every agreeing index |
| `BlockSync.ChainIsDeliverable` | core/src/record_keeper/database.rs:323-367 | for a target on the chain above the fork: the first blocks up to the limit, in order, each block's parent sent before it or known to the peer |
| `BlockSync.UnclesDeliverableIff` | core/src/record_keeper/database.rs:301-367 | for a target off the chain the list ends with it, and every parent comes earlier or is known exactly when the lowest block sent of its own branch sits on the last known block, the stretch sent or the known branch; a target known already and a limit of zero are included |
| `BlockSync.GapExample` | core/src/record_keeper/database.rs:301-367 | a limit of one sends a target two above the fork without its parent |
| `DbState.DbState.Get` | core/src/record_keeper/db_state.rs:180-193 | reads the value of the modified database |
| `DbState.DbState.Put` | core/src/record_keeper/db_state.rs:384-391 | what every key reads as afterwards; the key reads as set exactly when it was not marked deleted or the base holds that value |
| `DbState.DbState.Remove` | core/src/record_keeper/db_state.rs:393-399 | what every key reads as afterwards: missing, unless both diff and base held it and the base's value shows again |
| `DbState.DbState.GetPlotEvents` | core/src/record_keeper/db_state.rs:248-278 | exactly the visible events of the plot from the given tick on |
| `DbState.CompilePlot` | core/src/record_keeper/db_state.rs:84-164 | the buckets written for one plot: those touched, patched, and the missing ones up to the last added |
| `DbState.DbState.Compile` | core/src/record_keeper/db_state.rs:51-167 | what the base reads after the batch, for every value and event, with buckets sorted and gap-free |
| `DbState.CompileKeepsIff` | core/src/record_keeper/db_state.rs:86-135 | the compiled base reads like the state exactly when no event shares a bucket with removals later than every addition to its plot |
| `DbState.LateRemovalDropsNeighbour` | core/src/record_keeper/db_state.rs:120-135 | a case where such a removal takes a second event of its bucket with it |
| `Overlay.Run` | core/src/record_keeper/db_state.rs:180-299 | after every run of value puts, events added when absent and removed when present, the overlay reads like a flat database given the same operations |
| `Overlay.GetKey` | core/src/record_keeper/db_state.rs:180-193 | the overlay reads a public key as the state it stands for has it |
| `Overlay.GetEvents` | core/src/record_keeper/db_state.rs:248-278 | the overlay reads from a tick on exactly the events of the state it stands for |
| `Overlay.Commit` | core/src/record_keeper/db_state.rs:51-167 | after the compiled batch the base reads as the state does, the same values and on every tick the same set of events, exactly when no event that stays shares a bucket, other than the first, with one that goes while none comes there or later |
| `Overlay.LeftoversAre` | core/src/record_keeper/db_state.rs:86-135 | that condition on the events before and after is the one on the diff under which compiling loses nothing |
| `StateWalk.Mutate` | core/src/record_keeper/database.rs:639-680 | through the copy-on-write state too, a mutation does what the reference says and returns the reference contra |
| `StateWalk.UndoMutate` | core/src/record_keeper/database.rs:684-709 | and undoing its contra leads back to the state before |
| `StateWalk.WalkState` | core/src/record_keeper/database.rs:431-468 | walking a copy-on-write state that reads as the replay of one block makes it read as the replay of another |
| `StateWalk.UpDropsNothing` | core/src/record_keeper/record_keeper.rs:311-370 | a step that undoes no block drops no event |
| `StateWalk.Layered` | core/src/record_keeper/record_keeper.rs:325-370 | the walk through a state over the database, compiled and applied, leaves the database reading as the replay of the new head exactly when no event is dropped with a late removal |
| `StateWalk.AcceptLayered` | core/src/record_keeper/record_keeper.rs:311-370 | the record keeper's step leaves the database under the copy-on-write state reading as the same step made in place, exactly under that condition, and always when no block is undone |
| `StateWalk.ReorganisationDrops` | core/src/record_keeper/db_state.rs:86-135 | a reorganisation that undoes one event loses another, which no block removed |
| `Merkle.LevelKeepsTreeHash` | core/src/primitives/block.rs:107-120 | pairing one level, an odd last hash promoted, does not change the hash of the tree that splits at the largest power of two below its size |
| `Merkle.CalculateMerkleRoot` | core/src/primitives/block.rs:101-124 | the level-by-level root is the hash of that recursive tree |
| `Merkle.LevelMeans` | core/src/primitives/block.rs:109-116 | entry by entry, a level holds the merged pairs and an odd last hash as it is |
| `Merkle.SplitMeans` | core/src/primitives/block.rs:109-119 | the recursive tree splits a list at the greatest power of two below its length |
| `Merkle.SmallRoots` | core/src/primitives/block.rs:122-123 | no transactions have the zero root, and one is its own |
| `Merkle.RootDeterminesList` | core/src/primitives/block.rs:101-124 | with an injective merge, lists of equal length and equal root are equal |
| `Merkle.PairCollides` | core/src/primitives/block.rs:101-124 | a pair and the one hash it merges into have the same root |
| `BlockPackage.Pack` | core/src/record_keeper/block_package.rs:44-97 | packs the longest prefix of the blocks that fits the limit, each distinct transaction once in order of first use; fails only for a missing transaction |
| `BlockPackage.ReferenceInPackage` | core/src/record_keeper/block_package.rs:75-86 | every index of an included block lies in the package and names its transaction |
| `BlockPackage.RoundTrip` | core/src/record_keeper/block_package.rs:117-133 | unpacking gives back the packed blocks with their own lists and a map of exactly the transactions they reference |
| `BlockPackage.ResolveMeans` | core/src/record_keeper/block_package.rs:124-127 | each index within the package is read as its transaction, in order, and any other is left out |
| `BlockPackage.PackAndUnpack` | core/src/record_keeper/block_package.rs:44-133 | both together: the longest fitting prefix, unchanged |
| `Shares.IsValid` | core/src/record_keeper/rules/mutation/shares.rs:11-51 | accepts exactly when every transfer is from its creator's or the administrator's account and every sender's total is at most its stored stake and below 2^63; the errors say why not |
| `Shares.SharesMean` | core/src/record_keeper/rules/mutation/shares.rs:11-51 | the same written out for every transfer: who sends it, and that its sender's stored stake covers all it sends |
| `Shares.SentMeans` | core/src/record_keeper/rules/mutation/shares.rs:22-34 | what an account sends is the sum over its transfers of all their amounts |
| `Shares.TransferExactly` | core/src/record_keeper/database.rs:667-705 | for an exact transfer the loop in plain 64-bit arithmetic, nothing wrapping at any step in any order, has the outcome of the stored one |
| `Shares.TransferConserves` | core/src/record_keeper/database.rs:667-675 | an affordable transfer leaves the sum of all stakes as it was |
| `Shares.AcceptedIsExact` | core/src/record_keeper/rules/mutation/shares.rs:11-51 | in an accepted mutation with total stake below 2^63, every transfer is exact when applied and when undone, and the sum of all stakes never changes |
| `Shares.UndoRetraces` | core/src/record_keeper/database.rs:684-709 | the stakes met while undoing are those met while applying, in reverse |
| `Turns.NextIs` | checkers/src/rules/turns.rs:24-124 | on games in order, an event is let through exactly when it may follow what its plot holds; players and last tick are then those of the longer game |
| `Turns.NextSafe` | checkers/src/rules/turns.rs:24-124 | on games in order no event, whatever it is, stops the program |
| `Turns.FollowGames` | checkers/src/rules/turns.rs:17-124 | the first pass computes the boards the events lead to, the first refusal, or that the program stops |
| `Turns.CheckSigners` | checkers/src/rules/turns.rs:127-138 | the second pass computes the first refusal or stop at a tick other than 0, if there is one |
| `Turns.SignersMean` | checkers/src/rules/turns.rs:127-138 | with a board for every plot it accepts exactly when both places are taken and the signer is the player whose turn it is, at every tick but 0 |
| `Turns.SortFacts` | checkers/src/rules/mod.rs:26-31 | sorting orders by plot and tick and keeps the events |
| `Turns.IsValid` | checkers/src/rules/turns.rs:14-141 | computes the rule's answer on any record and any mutation: accepted, refused, or the program stopped |
| `Turns.JudgeIff` | checkers/src/rules/turns.rs:14-141 | on games in order the rule never stops the program; an accepted mutation leaves every game in order exactly when it starts no plot twice, with no two open places, and joins nobody as the zero id; of such mutations it accepts exactly those that keep every game in order |
| `Turns.TwoStartsAccepted` | checkers/src/rules/turns.rs:30-45 | a mutation that starts one plot twice is accepted and leaves the game out of order |
| `Turns.TwoStartsCrash` | checkers/src/rules/turns.rs:97-130 | the next turn on that plot, whoever signs it, stops the program |
| `Turns.ZeroJoinAccepted` | checkers/src/rules/turns.rs:50-79 | two joins of an open game, the first of the zero id, are accepted and leave it out of order |
| `Turns.HistoryIff` | checkers/src/rules/turns.rs:14-141 | a history of mutations, accepted ones recorded, keeps all games in order exactly as long as every mutation it accepts is of that kind |
| `Turns.GameMeans` | checkers/src/rules/turns.rs:8-11 | in a game in order the ticks from 2 on have no gap, one event each, at most tick 500; the even ones are signed by the first player and the odd ones by the second, these being those of the start with the open place taken by who joined |
| `Turns.GameIff` | checkers/src/rules/turns.rs:8-141 | when a game is in order, in full, with players and parity written out |
| `Turns.StartAlone` | checkers/src/rules/turns.rs:30-47 | a start is accepted exactly on an unused plot, signed by one of its players |
| `Turns.JoinAlone` | checkers/src/rules/turns.rs:50-84 | a join is accepted exactly on a started game nobody joined, for the open place, signed by who is second from then on |
| `Turns.TurnAlone` | checkers/src/rules/turns.rs:85-141 | a turn is accepted exactly behind the one before it, with both places taken, signed by the first player on even ticks and the second on odd ones |
| `Turns.PlainAccepted` | checkers/src/rules/turns.rs:14-141 | a plain mutation is accepted exactly when events stay on their plots, all games end in order, and a game started and brought to its first turn in it is joined in it |
| `Turns.TurnInMutation` | checkers/src/rules/turns.rs:127-138 | every turn of an accepted plain mutation is signed by the player of its parity in the game as recorded |
| `Turns.RecordAdds` | core/src/record_keeper/database.rs:589-602 | an accepted event goes behind those of its plot and tick, with its signer |
| `Turns.HistoryOk` | checkers/src/rules/turns.rs:14-141 | in such a history all games keep their turns, and keep their players once both are set |
| `Checkers.Board.MoveFrom` | checkers/src/checkers.rs:232-254 | a move happens exactly onto an empty neighbouring tile the piece may go to, and leaves the board alone otherwise |
| `Checkers.Board.JumpOnce` | checkers/src/checkers.rs:270-292 | one jump happens exactly over a piece of the other player onto an empty tile on the board, despite unsigned wrap-around of coordinates |
| `Checkers.Board.JumpFrom` | checkers/src/checkers.rs:256-299 | a path is followed to its end with the piece crowned there, or the board is put back as it was |
| `Checkers.Board.Play` | checkers/src/checkers.rs:229-307 | every event is played or refused as the reference says, with that error, and a refused play leaves the board unchanged |
| `Checkers.Board.PlayAll` | checkers/src/checkers.rs:229-307 | trying plays one after another gives the reference game |
| `Checkers.PlayKeeps` | checkers/src/checkers.rs:229-307 | a successful play keeps pieces on even squares and men off the row they are crowned on, keeps one's own pieces, and takes one of the other's for each jump |
| `Checkers.GameKeeps` | checkers/src/checkers.rs:183-200 | from the default board, whatever is tried, a player's pieces and those taken from it always make twelve |
| `Checkers.EmptyPath` | checkers/src/checkers.rs:256-296 | a jump along no path is accepted and at most crowns the piece |
| `CheckersRules.MoveMeans` | checkers/src/checkers.rs:232-254 | a move is played exactly when the piece is one's own, a red man goes up and a black one down, and the next square that way is on the board and empty; the whole board after it |
| `CheckersRules.MovesMean` | checkers/src/checkers.rs:134-254 | where a piece can be moved: red men to the row above, black men to the row below, kings to both, onto an empty square of a neighbouring column |
| `CheckersRules.JumpAllowed` | checkers/src/checkers.rs:256-292 | a jump is played exactly when each hop of its path, judged on the board before the play, goes forward for a man, lands on a free square, and passes over a piece of the other player not taken yet |
| `CheckersRules.JumpMeans` | checkers/src/checkers.rs:256-299 | every square after a jump: the piece at the end of its path, crowned on the last row, the squares left and passed over empty, the others as before |
| `CheckersRules.MenJump` | checkers/src/checkers.rs:256-292 | each jump takes a red man two rows up and a black man two rows down |
| `CheckersRules.RefusalMeans` | checkers/src/checkers.rs:229-307 | each error exactly when it applies: square off the board, no piece, the other's piece |
| `CheckersRules.DefaultMeans` | checkers/src/checkers.rs:183-200 | the squares of the default board |
| `Tcp.Encode` | core/src/network/tcp.rs:18-29 | appends the frame of the packet and nothing else |
| `Tcp.Decode` | core/src/network/tcp.rs:36-53 | takes exactly one frame off the front, or leaves an incomplete one untouched |
| `Tcp.FrontFrame` | core/src/network/tcp.rs:36-53 | a frame is ready exactly when all of it has arrived, and reads back as its packet |
| `Tcp.FrameMeans` | core/src/network/tcp.rs:18-29 | a frame byte by byte: four of the payload's length, least significant first, then the payload |
| `Tcp.SendAll` | core/src/network/tcp.rs:18-29 | packets encoded one after another make up exactly the stream of their frames |
| `Tcp.ReceiveAll` | core/src/network/tcp.rs:18-53 | however the stream is cut into chunks, exactly the packets that are complete come out, in order, and a whole stream leaves nothing over |
| `Bytes.WriteAt` | core/src/network/tcp.rs:24-25 | byte `i` of a number written out is its digit of 256 to the power `i` |
| `Base16.ToBin` | core/src/base16.rs:24-59 | reads two characters to a byte from the end, with or without a prefix, failing on an empty or invalid text |
| `Base16.WriteAndRead` | core/src/base16.rs:8-59 | every non-empty byte string is read back from its written form |
| `Base16.HexParse` | core/src/base16.rs:8-59 | every lower-case text of even length is written back from the bytes read |
| `Base16.ParseMeans` | core/src/base16.rs:40-57 | a text of digits is always read, as the bytes of the number it denotes |
| `Base16.DigitMeans` | core/src/base16.rs:3-50 | each digit's value, small or capital, and that nothing else is a digit |
| `Base16.SegmentMeans` | core/src/base16.rs:40-50 | two characters read as sixteen times the first digit plus the second, or as one digit behind a plus sign |
| `Base16.PrefixMeans` | core/src/base16.rs:28-32 | a front `0x` is taken off exactly when something follows it |
| `Base16.HexMeans` | core/src/base16.rs:8-17 | each byte is written as its high digit and its low digit |
| `Unit256.Cmp` | core/src/primitives/u256.rs:46-57 | comparing limbs from the top is comparing the integers |
| `Unit256.ValueMeans` | core/src/primitives/u256.rs:46-57 | the integer of four limbs, the least significant first |
| `Unit256.ToLittleEndian` | core/src/primitives/u256.rs:171-177 | writes the little-endian bytes and leaves the rest of the buffer |
| `Unit256.ToBigEndian` | core/src/primitives/u256.rs:182-188 | writes the big-endian bytes and leaves the rest of the buffer |
| `Unit256.FromLittleEndian` | core/src/primitives/u256.rs:145-153 | reads the limbs whose little-endian bytes these are |
| `Unit256.FromBigEndian` | core/src/primitives/u256.rs:158-166 | reads the limbs whose big-endian bytes these are |
| `Unit256.LittleMeans` | core/src/primitives/u256.rs:171-177 | the little-endian bytes spell the integer |
| `Unit256.BytesDetermine` | core/src/primitives/u256.rs:145-188 | in either byte order, bytes determine the limbs |
| `Unit256.FromStr` | core/src/primitives/u256.rs:123-133 | succeeds exactly on readable text of at most 32 bytes, with the integer it spells |
| `Unit256.ShowAndParse` | core/src/primitives/u256.rs:32-43 | parsing the displayed form of any value returns it |
| `Unit256.DisplayMeans` | core/src/primitives/u256.rs:32-43 | `0x` and the 64 digits of the bytes from the most significant down |
| `Forging.RangePositive` | core/src/forging/epos.rs:268 | the range is not zero, so that nothing is divided by zero, exactly when difficulty plus one times the rate fits 64 bits |
| `Forging.RangeIs` | core/src/forging/epos.rs:268 | the range is the greatest number that fits 64 bits when multiplied by difficulty plus one and the rate |
| `Forging.WaitIs` | core/src/forging/epos.rs:259-271 | the wait exactly, by inequalities: the whole units of stake times range in the shorter way round; without stake the greatest 64-bit number |
| `Forging.WaitExample` | core/src/forging/epos.rs:259-271 | difficulty 999, rate 1000, stake 100 at the opposite point: 5000 |
| `Forging.WaitMonotone` | core/src/forging/epos.rs:259-271 | the wait is symmetric in target and actual, and never grows with stake |
| `Forging.WaitBound` | core/src/forging/epos.rs:259-271 | wait times stake is at most difficulty plus one, times the rate |
| `Forging.TotalWait` | core/src/forging/epos.rs:578-590 | the loop adds up the waits of all signatures |
| `Forging.SumSplits` | core/src/forging/epos.rs:578-590 | waits add up over any split of the signatures, from nothing, and one signature waits its own wait |
| `Forging.SumBound` | core/src/forging/epos.rs:578-590 | staked signatures together wait at most their number times that |

## Left out

- Stakes: kept modulo 2^64, as release builds compute them; a debug build's overflow panic is not modelled except through `Shares.AcceptedIsExact`, which says when no step would overflow.
- `Database.Database.Walk`: the earliest invalidated tick is not part of the result, because the code starts it from 0 and takes minimums, so that a walk to another block always gives 0; a target whose header is stored without a height is excluded.
- `Database.Database.AddBlock`: blocks carry their changes, so the transaction list by Merkle root and the transaction indexes of the store are not modelled, nor that two blocks can share a list.
- Proofs, signatures, receive times and account indexes: nothing proved here reads them.
- Keys: structured values; a generic admin key whose bytes imitate an entry of another kind is modelled only where undoing a new validator builds one.
- `DbState.DbState.Compile`: the filters and plot bounds of a diff are left out; the diff is the unfiltered one.
- `Overlay.Run`: value deletions are not among the operations, because they do not follow the documented rule; `DbState.DbState.Put` and `DbState.DbState.Remove` say exactly when they do.
- `RecordKeeper.Run`: the pool is filled before the blocks are offered; transactions arriving between blocks and the transactions' own contents are left out, and the database takes the blocks as valid.
- `StateWalk.AcceptLayered`: only network entries go through the copy-on-write state; entries of blocks and caches are only ever put, which `Overlay.Run` covers. Mutations that delete admin values, or whose plot events list their own plot, are excluded, as are undone blocks that cannot be undone.
- `BlockSync.LatestCommonAncestorWithCurrentChain`: the zero hash as last known block, on which the program stops, is excluded.
- `PowerGrid.GridNet.AddSegment`: a grid is a value owned by the net; 32-bit overflow of coordinates and the buildings of a grid are left out, since buildings are attached without testing adjacency.
- Ticks: natural numbers; overflow of 64-bit ticks is not modelled.
- `BlockPackage.Pack`: more than 65535 distinct transactions make the program panic and are excluded; compression and the block headers' encoding are abstract sizes.
- `Turns.IsValid`: events are given decoded.
- `Base16.ToBin`: texts are sequences of single-byte characters; slicing through a wider character is not modelled.
- `Tcp.ReceiveAll`: the serializer is any pair of inverse functions; payloads of 2^32 bytes and more, whose length does not fit the header, are excluded.
- `Forging.SumBound`: the sum is unbounded; signers without stake, whose wait is the greatest 64-bit number, are excluded.
- The other mutation, transaction and block rules, the game rule and its cache, listeners, locks, sessions, sockets, RPC, command line and key handling: input and output, or nothing with an invariant of its own.
- `BoundingBox::overlaps`: tests corners only and has no specification to meet.
