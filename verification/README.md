# A model of the Freezone chain's consensus state

This project models the parts of a Freezone (Steem family, delegated proof of stake) node whose
state is kept by hand and must agree with a simple definition over every run: proxied witness
voting, the fork database and fork switching, irreversibility and the block log, the internal
market, authority checking, the witness schedule, delegation, vesting withdrawals, content payouts
and the token supply. Each component is a class whose methods follow the branches and the order of
the C++ code, and each is proved against definitions that do not mention that code: sums over a
forest, replays of a chain, least fixpoints, rankings, totals.

`dafny verify dfyconfig.toml` checks everything.

## Components

| file | content |
|---|---|
| Sums.dfy | finite sums and totals over tables |
| ProxyForest.dfy, VoteTallies.dfy, VoteAdjust.dfy, VoteRehang.dfy, Voting.dfy | proxied witness voting |
| Blocks.dfy, ForkDatabase.dfy, ChainDatabase.dfy, Irreversible.dfy, Stranding.dfy | blocks, forks, the switch, irreversibility; a switch that strands the node |
| BlockLog.dfy | the block log and its index, byte by byte |
| Prices.dfy, Market.dfy | exchange arithmetic and the order book |
| SignState.dfy | the recursive authority check and the authorities of a transaction |
| WitnessSchedule.dfy, WitnessFairness.dfy | the schedule, virtual time and the shuffle; who is reached and who is not |
| Merkle.dfy | the transaction Merkle root |
| Delegation.dfy | delegation of vesting shares |
| VestingFund.dfy, VestingWithdrawal.dfy | the vesting fund, power-downs, routes |
| Stakes.dfy | delegation and power-downs over the same shares |
| RewardedPool.dfy | the vesting fund with rewarded shares that are claimed |
| ContentPayout.dfy | votes on content and the split of its payout |
| TokenAccounts.dfy, TokenLedger.dfy | balances, savings, escrow, conversions, rewards, inflation, the supply |

## What does not hold

Eight things one would expect are not true of the code. The model keeps the code as it is, exhibits
the failure and states exactly when the expected property holds.

- A vesting withdrawal with an automatic route credits and counts the destination before the source
  is debited, so a tally can exceed the total in between and the assertion on tallies rejects the
  block. `Voting.AutoVestRejected` gives a family of legal states in which every such route is
  rejected; `Voting.Database.WithdrawVests` succeeds if and only if every tally has room for what
  the deposits add to it.
- A block of the own chain that arrives again while the fork database's head is a rejected child of
  the chain's head is applied a second time, fails, and is erased from the fork database.
  `ChainDatabase.KnownHeadDropped` is a run that does this; `ChainDatabase.Database.PushBlock` keeps
  the invariant if and only if the block is not of that kind.
- Opening a block log does not always put its index right. Rebuilding it for a log of one block
  writes nothing; and an index is taken to be right when its last eight bytes are the last block's
  position, which a torn entry can be too. `BlockLog.TornIndexUnnoticed` is a log of three blocks
  whose index, cut to 15 bytes, opens as it is. `BlockLog.BlockLog.Open` ends with the right index,
  whatever bytes it finds, if and only if the log is empty, or the index was right, or the log does
  not hold exactly one block and the index is empty or has at least eight bytes of which the last
  eight are another position. `BlockLog.TornEntry` says which logs a torn entry deceives.
- A failed fork switch does not always put the old branch back. If a block of the new branch above
  the fork point became irreversible before another one fails, its undo state is gone: the node stays
  on the new branch, at the highest block that became irreversible. `Stranding.SwitchStrands` is such
  a run under the chain's own voting rule, with two witnesses, on a chain with any past.
  `ChainDatabase.Database.SwitchFork` and `ChainDatabase.Database.PushBlock` state which outcome
  happens if and only if: the new branch when it replays; the old one when it does not and nothing
  above the fork point was committed; else, and when the fork point is below the log, the outcome
  `Broken`. The state is consistent after all of them.
- A payout can take more out of the vesting fund than is in it: with nothing in the fund and shares
  outstanding, the founding price pays shares out of nothing. Deposits, power-downs and payouts alone
  never get there (`VestingWithdrawal.Pool.Run`). Claiming rewarded shares does, when all other shares
  are gone: the tokens that follow a claim are rounded down, to none if it is small.
  `RewardedPool.FundOverdrawn` is such a run from the start of a chain, without inflation in between.
  `RewardedPool.ClaimBacks` states the exact condition: a claim leaves a backed fund backed if and only
  if it is not of this kind, and `RewardedPool.Rewards.Run` that otherwise nothing is overdrawn.
- Depositing into a vesting fund and cashing at once should gain nothing, but the first depositor of
  a fund that holds tokens and has no shares outstanding gets those tokens too.
  `VestingFund.DepositAndBack` states the exact condition.
- The number of votes on content is not upvotes minus downvotes: a first vote of so little mana
  that no shares are left counts as a downvote. `ContentPayout.Content.CastVote` states the exact
  drift, `ContentPayout.Content.Run` that of any run of votes.
- A witness that can sign may never be scheduled: virtual time may start over before it comes to a
  witness without a single vote, every time. `WitnessFairness.Starvation` gives runs of any length
  in which this happens; `WitnessFairness.WhoMayStarve` says that a witness may starve if and only if
  nobody votes for it. `WitnessFairness.ReachedBeforeReset` and `WitnessFairness.NoStarvation` bound
  the wait of every other witness, restarts included, as long as votes do not change.

Irreversibility has one special case. With a single scheduled witness every block that is decided by
vote is irreversible once it is applied (`Irreversible.OneWitness`). Module ChainDatabase is about
chains on which at least two witnesses are scheduled from the block on where voting starts; before
that, one is enough (`Irreversible.MachineSound`).

One statement of the code is read as it is meant: the walk that looks for proxy loops
(libraries/chain/steem_evaluator.cpp:1448-1454) keeps a pointer to a copy that is local to the loop
body; the model walks along the proxies.

## Model

| member | source | states |
|---|---|---|
| `ProxyForest.NoLoop` | libraries/chain/steem_evaluator.cpp:1447-1454 | in a graph whose chains all end, no account is above itself at any distance |
| `ProxyForest.UniqueDepth` | libraries/chain/steem_evaluator.cpp:1442-1454 | an account lies at one distance at most above another, so stake reaches it once |
| `ProxyForest.AttachedAcyclic` | libraries/chain/steem_evaluator.cpp:1442-1461 | giving a root a proxy whose chain is free of it leaves every chain ending |
| `ProxyForest.Detached` | libraries/chain/steem_evaluator.cpp:1467-1471 | cutting an account off leaves a forest to which its old proxy could be attached again |
| `ProxyForest.BelowStake` | libraries/chain/database.cpp:1289-1310 | a stake change of one account shows up, k hops up, exactly at its k-th proxy and nowhere else |
| `ProxyForest.BelowAttachedOn` | libraries/chain/database.cpp:1270-1278 | an account d hops above the new proxy gains, k hops down, exactly what the attached account had k - 1 - d hops down |
| `ProxyForest.BelowAttachedOff` | libraries/chain/database.cpp:1262-1279 | an account not on the chain above the new proxy gains nothing |
| `VoteAdjust.AdjustedAt` | libraries/chain/database.cpp:1258-1287 | the recursive walk changes each counter of each account by its gain, the shifted delta of where it lies on the chain, and nothing else |
| `VoteAdjust.WeightsAdjusted` | libraries/chain/database.cpp:1280-1286 | of the accounts that vote themselves only the one the walk reaches gains weight, by the part of the delta that fits the depth |
| `VoteAdjust.StakeMoved` | libraries/chain/database.cpp:1289-1310 | a stake change followed by the walk makes every counter the stake at its distance again |
| `VoteAdjust.StakeMovedTallies` | libraries/chain/database.cpp:1306-1321 | and every witness tally the weight of its voters again |
| `VoteRehang.EdgeGain` | libraries/chain/steem_evaluator.cpp:1435-1440 | walking up with an account's stake vector adds to every counter what the edge out of that account contributes, truncation included |
| `VoteRehang.CutOffInv` | libraries/chain/steem_evaluator.cpp:1435-1440 | walking up with the negated vector and dropping edge and ballots keeps the whole invariant, and no tally passes the total on the way |
| `VoteRehang.HungInv` | libraries/chain/steem_evaluator.cpp:1456-1466 | naming a proxy whose chain is free and walking up with the vector keeps the whole invariant |
| `VoteTallies.TotalVotesExact` | libraries/chain/database.cpp:5338-5342 | the sum of voting weights of voters and of deepest counters of proxying accounts is the total of vesting shares: every share is counted once, at its root or where its chain is cut off |
| `VoteTallies.VotesBounded` | libraries/chain/database.cpp:5322-5325 | no witness has more votes than there are vesting shares |
| `Voting.Database.AdjustWitnessVotes` | libraries/chain/database.cpp:1312-1321 | all tallies of a voter's ballots change; it fails exactly when one of them would exceed the total |
| `Voting.Database.BumpProxied` | libraries/chain/database.cpp:1270-1276 | the loop over counters adds the delta shifted by the depth |
| `Voting.Database.AdjustProxiedVector` | libraries/chain/database.cpp:1258-1287 | the mutating recursion computes the declarative change of counters and of the tallies of the voter it reaches |
| `Voting.Database.AdjustProxiedVotes` | libraries/chain/database.cpp:1289-1310 | the single-stake form is the vector form with only own stake |
| `Voting.Database.ClearWitnessVotes` | libraries/chain/database.cpp:1349-1365 | all ballots of the account, and only those, are gone |
| `Voting.Database.CheckProxyChain` | libraries/chain/steem_evaluator.cpp:1444-1454 | the walk terminates and accepts exactly the chains that are short enough and do not contain the account |
| `Voting.Database.RemoveVotes` | libraries/chain/steem_evaluator.cpp:1435-1440 | everything an account carries is taken out of the counters above it or of its tallies |
| `Voting.Database.HangBelow` | libraries/chain/steem_evaluator.cpp:1456-1466 | an account without proxy and ballots is hung below a free chain, invariant kept |
| `Voting.Database.SetProxy` | libraries/chain/steem_evaluator.cpp:1428-1472 | succeeds exactly when the proxy changes, voting rights exist and the chain is free; keeps the invariant; changes the one edge, drops the ballots, touches no stake |
| `Voting.Database.VoteWitness` | libraries/chain/steem_evaluator.cpp:1475-1540 | succeeds exactly for a voter without proxy, with rights and a free slot; one ballot changes; invariant kept |
| `Voting.Database.DeclineVoting` | libraries/chain/database.cpp:2504-2531 | clears proxy, ballots and rights and keeps the invariant |
| `Voting.Database.AddVests` | libraries/chain/include/steem/chain/vesting.hpp:107-126 | new shares reach the counters and tallies above the account; total grows; invariant kept |
| `Voting.Database.MoveStake` | libraries/chain/database.cpp:1612-1619 | one stake change and its walk keep the invariant for the changed total, or the walk's assertion fails |
| `Voting.Database.CreditDeposits` | libraries/chain/database.cpp:1602-1624 | the pass over automatic routes succeeds exactly when every tally has room for its inflow |
| `Voting.Database.WithdrawVests` | libraries/chain/database.cpp:1602-1701 | the stake side of a payout: succeeds exactly when there is room, then stakes and total are the expected ones; invariant kept either way |
| `Voting.UnanimousTally` | libraries/chain/database.cpp:1331-1333 | a witness everybody votes for holds the whole total |
| `Voting.UnanimousBlocksDeposit` | libraries/chain/database.cpp:1331-1333 | with such a witness no positive automatic deposit passes |
| `Voting.AutoVestRejected` | libraries/chain/database.cpp:1602-1624 | legal states in which every automatic route is rejected |
| `Voting.Database.CreateAccount` | libraries/chain/steem_evaluator.cpp:314-398 | a new account without stake keeps the invariant |
| `Voting.Database.CreateWitness` | libraries/chain/steem_evaluator.cpp:79-138 | a new witness without votes keeps the invariant |
| `Voting.Database.Run` | libraries/chain/database.cpp:5322-5342 | after any sequence of operations counters and tallies are exact, every share is counted once, no tally exceeds the total |
| `Blocks.ForkPointRecent` | libraries/chain/fork_database.cpp:198-210 | if neither chain contains the other, the fork point is their most recent common ancestor |
| `Blocks.ForkPointHighest` | libraries/chain/fork_database.cpp:198-210 | above it the chains differ at every height |
| `ForkDatabase.ForkDb.constructor` | libraries/chain/fork_database.cpp:24-29 | starts from the head of the block log |
| `ForkDatabase.ForkDb.PushBlock` | libraries/chain/fork_database.cpp:35-77 | accepts exactly blocks that link and are less than the size below the head; the head moves only to a strictly higher block |
| `ForkDatabase.ForkDb.PopBlock` | libraries/chain/fork_database.cpp:16-22 | steps to the parent, and fails exactly when the parent pointer is gone |
| `ForkDatabase.ForkDb.SetMaxSize` | libraries/chain/fork_database.cpp:94-123 | the two pruning loops keep exactly the blocks no further below the head than the size |
| `ForkDatabase.ForkDb.FetchBranchFrom` | libraries/chain/fork_database.cpp:169-211 | succeeds exactly when both chains are walkable down to the fork point, and then returns the parent-linked paths above it |
| `ForkDatabase.ForkDb.WalkMainBranchToNum` | libraries/chain/fork_database.cpp:213-222 | the block at a height on the head's chain, if the walk can be made |
| `ForkDatabase.ForkDb.FetchBlockOnMainBranchByNumber` | libraries/chain/fork_database.cpp:224-232 | the single-candidate shortcut agrees with the walk whenever the head's ancestor at that height is still linked |
| `ChainDatabase.ChainReplays` | libraries/chain/database.cpp:2924-2972 | every state of a chain is the replay of its head's ancestry from any earlier state |
| `ChainDatabase.SameState` | libraries/chain/database.cpp:955-973 | where a chain started and its head determine the state and the whole history |
| `ChainDatabase.KeptPruned` | libraries/chain/database.cpp:4004-4005 | pruning to head - irreversible + 1 keeps every block a later migration looks up |
| `ChainDatabase.Database.constructor` | libraries/chain/database.cpp:188-195 | opening at the head of the log satisfies the invariant |
| `ChainDatabase.Database.Commit` | libraries/chain/database.cpp:4007-4008 | drops exactly the undo states of irreversible blocks |
| `ChainDatabase.Database.CollectBlocks` | libraries/chain/database.cpp:3985-3993 | every block that became irreversible is found: the assertion cannot fail, and the blocks are those of the head's ancestry |
| `ChainDatabase.Database.MigrateIrreversibleState` | libraries/chain/database.cpp:3958-4011 | always succeeds; the log becomes the head's ancestry up to the irreversible height; fork database and undo stack are cut accordingly |
| `ChainDatabase.Database.ApplyBlock` | libraries/chain/database.cpp:2924-2972 | full effect or none; the log only grows |
| `ChainDatabase.Database.PopBlock` | libraries/chain/database.cpp:955-973 | restores exactly the state before the newest block; fails exactly when the fork database cannot step back; without an undo state only the fork database steps back |
| `ChainDatabase.Database.PopTo` | libraries/chain/database.cpp:829-831 | the pop loop terminates; it ends at the fork point exactly when that is not below the log, and else at the end of the log |
| `ChainDatabase.Database.ApplyBranch` | libraries/chain/database.cpp:833-846 | applies the whole branch exactly when it replays, else stops at the first block that does not |
| `ChainDatabase.LibStaysWhen` | libraries/chain/database.cpp:4007-4008 | how far the irreversible block gets while a branch is replayed is what the last state that replays says |
| `ChainDatabase.StrandedAt` | libraries/chain/database.cpp:855-858 | a chain undone as far as possible above the fork point is a replay of the new branch |
| `ChainDatabase.Database.BackOff` | libraries/chain/database.cpp:848-858 | the failed blocks are forgotten; the fork point is reached exactly when nothing above it was committed; else the chain is at the highest block that was |
| `ChainDatabase.Database.PutBack` | libraries/chain/database.cpp:860-867 | applying the old branch again gives the state and the history that were left |
| `ChainDatabase.Database.RollBack` | libraries/chain/database.cpp:846-869 | after a failed switch the old chain is back, state and history, and only the failed block, its successors and irreversible blocks are gone, if and only if nothing above the fork point was committed; else the chain is at the highest block of the new branch that was |
| `ChainDatabase.Database.TryBranch` | libraries/chain/database.cpp:833-870 | from the fork point on, exactly one of three ends, each with its condition and its state |
| `ChainDatabase.Database.SwitchFork` | libraries/chain/database.cpp:820-872 | the new branch exactly when it replays; as before exactly when it does not and nothing above the fork point was committed, or it cannot be walked; else stranded at the end of the log, on the new branch or, if the fork point is below the log, on the old one; consistent in every case |
| `ChainDatabase.Database.PushBlock` | libraries/chain/database.cpp:805-892 | every outcome with its exact condition and state, those of a switch included; the invariant survives if and only if the block is not one of the own chain re-applied |
| `ChainDatabase.KnownHeadDropped` | libraries/chain/database.cpp:878-889 | a concrete run that loses the chain's head from the fork database |
| `ChainDatabase.Database.Run` | libraries/chain/database.cpp:805-892 | over any sequence of blocks, known ones and failed switches included, up to one that erases a block of the own chain, the state is the replay of the head's ancestry and the log its prefix, only growing |
| `Irreversible.NthElement` | libraries/chain/database.cpp:3933-3941 | partial selection returns the value of that rank |
| `Irreversible.NthUnique` | libraries/chain/database.cpp:3933-3941 | the rank condition has one solution |
| `Irreversible.UpdateLastIrreversibleBlock` | libraries/chain/database.cpp:3901-3950 | the new number by either rule: the distance, or the value of that rank if it is higher |
| `Irreversible.ThreeQuarters` | libraries/chain/database.cpp:3927-3941 | the voted block is the highest that three quarters of the scheduled witnesses confirmed, and no higher one is |
| `Irreversible.BelowHead` | libraries/chain/database.cpp:3933-3949 | with two witnesses or more a head that one of them signed is not irreversible |
| `Irreversible.OneWitness` | libraries/chain/database.cpp:3933-3949 | with one scheduled witness the head itself is irreversible |
| `Irreversible.AppliedInOrder` | libraries/chain/database.cpp:3889-3956 | stepping a chain state by a block keeps it in order: the number does not decrease, by distance, by vote and at the change from one to the other, and stays below the head |
| `Irreversible.MachineSound` | libraries/chain/database.cpp:3889-3956 | chain states stepped this way, whatever is valid, whoever signs and whoever is scheduled, two witnesses or more where votes decide, are what the chain database asks for |
| `Irreversible.LibNeverMovesBack` | libraries/chain/database.cpp:3889-3956 | along every chain, from its first block and with the one witness it starts with, the number never decreases, follows the distance rule while that is in force, and stays below the head |
| `Stranding.NewBranch` | libraries/chain/database.cpp:3901-3950 | by the voting rule a block of the new branch is irreversible before its third block fails |
| `Stranding.BranchesWalk` | libraries/chain/fork_database.cpp:169-211 | both branches can be walked down to where they part |
| `Stranding.SwitchStrands` | libraries/chain/database.cpp:833-869 | a run after which the node is neither where it was nor where it was going |
| `BlockLog.BytesKeep` | libraries/chain/block_log.cpp:209-217 | bytes give a position back if and only if it fits them |
| `BlockLog.UnpackAt` | libraries/chain/block_log.cpp:252-265 | unpacking at the start of the k-th record gives the k-th block and its length |
| `BlockLog.PositionAt` | libraries/chain/block_log.cpp:214-217 | the trailer of a record and the entry of the index are the position it starts at |
| `BlockLog.BlockLog.constructor` | libraries/chain/block_log.cpp:92-97 | a new log holds nothing |
| `BlockLog.BlockLog.Append` | libraries/chain/block_log.cpp:197-225 | accepts exactly the next block and then holds one block more; otherwise writes nothing |
| `BlockLog.BlockLog.GetBlockPos` | libraries/chain/block_log.cpp:302-316 | the position of the n-th block; nothing for zero and beyond the head |
| `BlockLog.BlockLog.ReadBlockByNum` | libraries/chain/block_log.cpp:267-288 | exactly the n-th appended block; the check of its number cannot fail |
| `BlockLog.BlockLog.ReadHead` | libraries/chain/block_log.cpp:318-337 | the last appended block, found from the end of the file |
| `BlockLog.BlockLog.ReadFrom` | libraries/chain/database.cpp:292-331 | following record ends visits exactly the appended blocks in order |
| `BlockLog.BlockLog.ConstructIndex` | libraries/chain/block_log.cpp:351-379 | rebuilds exactly the index appends would have written, except for a log of one block, where it writes nothing |
| `BlockLog.BlockLog.Open` | libraries/chain/block_log.cpp:104-185 | for an index of any bytes: ends with the right index exactly under the stated condition, fails exactly for one to seven bytes beside a log that holds something; says what the index is otherwise |
| `BlockLog.WholeEntriesRecover` | libraries/chain/block_log.cpp:145-176 | an index that lost or gained whole entries is put right, except for a log of one block |
| `BlockLog.TornEntry` | libraries/chain/block_log.cpp:155-170 | an index cut one byte short of an entry is taken to be right exactly when the last block starts at 256 times that entry |
| `BlockLog.TornIndexUnnoticed` | libraries/chain/block_log.cpp:155-170 | such a log, block by block |
| `Prices.PriceOrder` | libraries/protocol/asset.cpp:318-335 | comparing prices by cross multiplication is a strict total order up to equal ratios |
| `Prices.MatchIsFair` | libraries/chain/database.cpp:4054-4080 | at a crossing price both sides pay something, one side is fully filled, and each gets at least what its own limit asks |
| `Prices.ThereAndBack` | libraries/protocol/asset.cpp:337-354 | exchanging back and forth gains nothing |
| `Market.RangeIsCrossing` | libraries/chain/database.cpp:4018-4022 | the scanned part of the price index is exactly the orders that cross the new one |
| `Market.BeforeIsCheaper` | libraries/chain/include/steem/chain/steem_objects.hpp:293-298 | among orders that cross one order the price index is ordered by base over quote amounts, greatest first, then by age |
| `Market.CheaperGivesMore` | libraries/chain/database.cpp:4020-4031 | whatever is paid, the order that comes first gives no less for it |
| `Market.FillSupply` | libraries/chain/database.cpp:4154-4197 | a fill moves amounts between book and balances and creates none |
| `Market.OrderBook.CancelOrder` | libraries/chain/database.cpp:4199-4203 | what an order still has for sale returns to its seller |
| `Market.OrderBook.FillOrder` | libraries/chain/database.cpp:4154-4197 | an order leaves the book exactly when it is filled or its rest is worth nothing, and then the rest is refunded |
| `Market.OrderBook.MatchedAmounts` | libraries/chain/database.cpp:4054-4080 | the amounts are fair and at the resting order's price |
| `Market.OrderBook.Match` | libraries/chain/database.cpp:4036-4110 | no assertion trips, one order at least is gone, each asset is conserved, every remaining order still asks for something |
| `Market.OrderBook.FirstInRange` | libraries/chain/database.cpp:4021-4028 | the scan comes to the crossing order that gives most for what it asks, the older of two that give the same, or says that none crosses |
| `Market.FirstUnique` | libraries/chain/database.cpp:4021-4028 | there is one such order at most, so matching is a function of the book |
| `Market.MatchingStep` | libraries/chain/database.cpp:4021-4033 | matching the first order and going on is matching |
| `Market.OrderBook.ApplyOrder` | libraries/chain/database.cpp:4014-4034 | the book becomes what matching cheapest first makes of it; afterwards no two orders cross; every resting order taken was cheaper than all taken later or still crossing, and for any amount none of those would have given more; orders that do not cross are untouched; assets are conserved |
| `Market.OrderBook.PlaceOrder` | libraries/chain/steem_evaluator.cpp:3090-3126 | succeeds exactly when the order is sound, funded and, for fill or kill, gone from the book that matching it leaves; that book is the result, uncrossed; the fills were the best deals for any amount; failure leaves nothing behind |
| `Market.OrderBook.RemoveOrder` | libraries/chain/steem_evaluator.cpp:3192-3195 | only the seller's or an expired order is cancelled, and it is refunded |
| `Market.OrderBook.Run` | libraries/chain/database.cpp:4014-4110 | after any sequence of operations the book is uncrossed, every fill ever made was fair, and each asset adds up |
| `SignState.SatisfiedMono` | libraries/protocol/sign_state.cpp:51-72 | more depth or more signers never hurt a derivation |
| `SignState.GoodDerivable` | libraries/protocol/sign_state.cpp:53-78 | what counts within some depth has a finite derivation |
| `SignState.Checker.constructor` | libraries/protocol/include/steem/protocol/transaction_util.hpp:69-77 | no signature is used yet and only the given accounts are approved |
| `SignState.Checker.SignedBy` | libraries/protocol/sign_state.cpp:6-17 | a key counts exactly when it signed or is available, and is marked used |
| `SignState.Checker.CheckKeys` | libraries/protocol/sign_state.cpp:33-49 | marks exactly the signers among the keys it looks at, at most as many as the membership limit, and looks at none once the threshold is reached; what it counts is signed and marked, and is all that signed when weights fit 32 bits |
| `SignState.Checker.CheckAccount` | libraries/protocol/sign_state.cpp:53-78 | approved, too deep, over budget or checked, each exactly when stated; an account member counts only with a derivation from the signatures marked as used, cache or not, marks only keys it leads to, and within the limits is refused only if it has none in the remaining depth |
| `SignState.Checker.CheckAuthorityImpl` | libraries/protocol/sign_state.cpp:31-87 | sound: a yes has a finite derivation from the signatures marked as used and the initially approved accounts, by members within the membership limit; marks only keys the authority leads to within the remaining depth; complete: with authorities no larger than the limits, a derivation that fits the remaining depth is found; terminates |
| `SignState.Checker.CheckAuthority` | libraries/protocol/sign_state.cpp:19-24 | the same for a named account, at any point of a sequence of checks: what earlier checks remembered adds nothing to what is derivable from the accounts approved at the start |
| `SignState.Checker.CheckGiven` | libraries/protocol/sign_state.cpp:26-29 | and for an authority given as such |
| `SignState.Checker.CheckActs` | libraries/protocol/include/steem/protocol/transaction_util.hpp:84-89 | an account acts with its own authority or one of the others in turn: accepted only with a derivation from used signatures, and, within the limits, whenever one of them has one; marks only keys these lead to |
| `SignState.Checker.CheckAllAct` | libraries/protocol/include/steem/protocol/transaction_util.hpp:84-89 | the same for several accounts, each check remembering what the ones before it approved |
| `SignState.Checker.CheckAllGiven` | libraries/protocol/include/steem/protocol/transaction_util.hpp:78-81 | and for several given authorities |
| `SignState.VerifyPosting` | libraries/protocol/include/steem/protocol/transaction_util.hpp:40-65 | a transaction of posting authorities: posting, active or owner authority of each account, from the signatures used, which are all listed in authorities these lead to |
| `SignState.VerifyOthers` | libraries/protocol/include/steem/protocol/transaction_util.hpp:68-104 | the same for a transaction of other, active and owner authorities |
| `SignState.VerifyAuthority` | libraries/protocol/include/steem/protocol/transaction_util.hpp:20-105 | a verified transaction has a derivation from its signers and the approved accounts for everything it needs, and every signer is listed in an authority required or led to within the recursion depth; one refused for an unused signature is authorized by the ones used; everything remembered is derivable; posting does not mix with the rest; a transaction authorized within the limits is refused only for an unused signature, and never when none can be spared |
| `WitnessSchedule.Adjusted` | libraries/chain/database.cpp:1323-1346 | with 128-bit wrap-around the new time of a witness is never in the past, and only votes, position and times change |
| `WitnessSchedule.PositionAdvances` | libraries/chain/database.cpp:1328-1331 | however often it wraps around, the position advances by the votes from before the change for all the time gone by, whatever the votes become |
| `WitnessSchedule.ChangesCompose` | libraries/chain/database.cpp:1323-1346 | changes at one time add up to one change |
| `WitnessSchedule.PositionAddsUp` | libraries/chain/database.cpp:1328-1331 | between changes a witness moves at the speed of its votes at the time; a change by nothing on the way leaves no trace in the position |
| `WitnessSchedule.LapCompletes` | libraries/chain/database.cpp:1335-1345 | the new time is when the rest of the lap is covered at one more than the new votes, or the end of time if that does not fit |
| `WitnessSchedule.AdjustedFresh` | libraries/chain/database.cpp:1335-1345 | a witness at the start of its lap is scheduled a whole lap ahead, or at the end of time if that does not fit |
| `WitnessSchedule.NullChangeDelays` | libraries/chain/database.cpp:1328-1336 | without wrap-around a change by nothing moves a witness exactly as far as it has run and never brings it forward; its time is delayed by the time gone by divided by its speed |
| `WitnessSchedule.RoundSize` | libraries/chain/witness_schedule.cpp:195-215 | a round has as many witnesses as can sign, up to 21 |
| `WitnessSchedule.NobodyOvertaken` | libraries/chain/witness_schedule.cpp:196-215 | nobody who can sign and is left out was due before somebody the clock brought in |
| `WitnessSchedule.NextOnTime` | libraries/chain/witness_schedule.cpp:219-241 | after a round nobody is scheduled in the past, and time went forward unless a lap overflowed and it started over |
| `WitnessFairness.RoundMoves` | libraries/chain/witness_schedule.cpp:196-215 | with enough signers and a free slot every round moves the clock |
| `WitnessFairness.WaitShrinks` | libraries/chain/witness_schedule.cpp:196-235 | a round that moves the clock, does not start it over and leaves a witness waiting makes its wait strictly shorter |
| `WitnessFairness.WaitIsBounded` | libraries/chain/witness_schedule.cpp:196-235 | until virtual time starts over nobody waits for more rounds than the laps the others can start before its time |
| `WitnessFairness.NoResetYet` | libraries/chain/witness_schedule.cpp:219-241 | while somebody due in the first half of time waits, no lap overflows |
| `WitnessFairness.ReachedBeforeReset` | libraries/chain/witness_schedule.cpp:17-35 | after a restart, whoever has a vote is reached before the next one, within a number of rounds that the votes determine |
| `WitnessFairness.NoStarvation` | libraries/chain/witness_schedule.cpp:196-241 | no run of consecutive rounds, restarts included, leaves a witness with a vote waiting for longer than its wait now and its wait after a restart |
| `WitnessFairness.Starvation` | libraries/chain/witness_schedule.cpp:219-241 | runs of any length that leave a witness without votes out of every round, although it can sign |
| `WitnessFairness.WhoMayStarve` | libraries/chain/witness_schedule.cpp:196-241 | a witness with a given number of votes may be left waiting for ever on some chain if and only if the number is zero |
| `WitnessSchedule.ShufflePermutes` | libraries/chain/witness_schedule.cpp:334-352 | the shuffle permutes the scheduled entries and leaves what is drawn and the blanks alone |
| `WitnessSchedule.DrawCounts` | libraries/chain/witness_schedule.cpp:334-352 | a word counted off over the remaining positions, as often round as need be, says which one is drawn |
| `WitnessSchedule.InstalledRound` | libraries/chain/witness_schedule.cpp:317-352 | the buffer holds each witness of the round once and blanks behind |
| `WitnessSchedule.Scheduler.constructor` | libraries/chain/database.cpp:2783-2848 | a chain at its start satisfies the invariant |
| `WitnessSchedule.Scheduler.AddWork` | libraries/chain/steem_evaluator.cpp:2912-2936 | work puts a witness at the end of the queue, unless it is queued already; the count of the queue stays right |
| `WitnessSchedule.Scheduler.UpdateWitness` | libraries/chain/steem_evaluator.cpp:79-128 | a key changes, or a new witness is scheduled at the end of time; nobody ends up in the past |
| `WitnessSchedule.Scheduler.AdjustWitnessVote` | libraries/chain/database.cpp:1323-1347 | the position advances by the votes from before, the votes change by the given amount, and everybody stays on time |
| `WitnessSchedule.Scheduler.ResetVirtualScheduleTime` | libraries/chain/witness_schedule.cpp:17-35 | every witness starts over at time zero |
| `WitnessSchedule.Scheduler.SelectElected` | libraries/chain/witness_schedule.cpp:141-155 | the elected are the best voted of those who can sign |
| `WitnessSchedule.Scheduler.SelectMiners` | libraries/chain/witness_schedule.cpp:159-190 | the miners are the first of the queue who can sign and are not elected; everybody looked at leaves the queue, and the count of the queue stays right |
| `WitnessSchedule.Scheduler.SelectTimeshare` | libraries/chain/witness_schedule.cpp:194-215 | the rest are the earliest scheduled; the clock stops at the last one passed |
| `WitnessSchedule.Scheduler.UpdateVirtualSchedule` | libraries/chain/witness_schedule.cpp:219-241 | the passed witnesses start a new lap, or everybody starts over, exactly when one lap overflows |
| `WitnessSchedule.Scheduler.ChooseRound` | libraries/chain/witness_schedule.cpp:135-217 | the three selections together, with the marks they leave |
| `WitnessSchedule.Scheduler.Shuffle` | libraries/chain/witness_schedule.cpp:334-352 | the in-place swaps compute the shuffle function |
| `WitnessSchedule.Scheduler.Install` | libraries/chain/witness_schedule.cpp:317-352 | buffer and number scheduled |
| `WitnessSchedule.Scheduler.UpdateWitnessSchedule` | libraries/chain/witness_schedule.cpp:135-357 | fails exactly when fewer can sign than the round needs; otherwise the schedule is a duplicate-free permutation of the chosen round and nobody is scheduled in the past |
| `WitnessSchedule.Scheduler.NextRound` | libraries/chain/witness_schedule.cpp:135-357 | the same from the table's own indexes, with ties in any order |
| `WitnessSchedule.Scheduler.Run` | libraries/chain/witness_schedule.cpp:135-357 | over any run of key changes, votes, work and rounds nobody is scheduled in the past, the queue is counted right, the buffer holds different names, and virtual time goes back only to start over |
| `Merkle.LevelKeepsTree` | libraries/protocol/block.cpp:53-65 | building a level does not change the digest of the tree split at powers of two |
| `Merkle.TopIsTree` | libraries/protocol/block.cpp:52-66 | level by level equals that tree for any number of transactions |
| `Merkle.RootCommits` | libraries/protocol/block.cpp:42-67 | with collision-free hashes equal roots of equally many transactions mean equal transactions, and conversely |
| `Merkle.LevelsShareRoot` | libraries/protocol/block.cpp:52-66 | without the number a root commits to nothing: a level has the root of the level below |
| `Merkle.ReduceLevel` | libraries/protocol/block.cpp:54-64 | the in-place pass reads every digest before it is overwritten |
| `Merkle.CalculateMerkleRoot` | libraries/protocol/block.cpp:42-67 | the reduction computes the recursive root; nothing for no transactions |
| `Delegation.CountersNonneg` | libraries/chain/steem_evaluator.cpp:3912-3917 | neither counter ever goes negative |
| `Delegation.DelegationCovered` | libraries/chain/steem_evaluator.cpp:3813-3837 | a live delegation is covered by both counters |
| `Delegation.LentIsHeld` | libraries/chain/database.cpp:700-704 | in total, what is lent is what delegatees hold plus what is returning |
| `Delegation.CountersAfterPut` | libraries/chain/steem_evaluator.cpp:3803-3886 | creating or raising a delegation keeps both counters exact |
| `Delegation.CountersAfterReturn` | libraries/chain/steem_evaluator.cpp:3889-3956 | lowering or removing one keeps them exact: the delegator's counter stays until the return expires |
| `Delegation.CountersAfterExpiry` | libraries/chain/database.cpp:4228-4250 | and so does the expiry of a return |
| `Delegation.Delegations.constructor` | libraries/chain/database.cpp:2743-2818 | at the start nothing is delegated |
| `Delegation.Delegations.CreateAccount` | libraries/chain/steem_evaluator.cpp:314-398 | a new account lends and holds nothing |
| `Delegation.Delegations.Delegate` | libraries/chain/steem_evaluator.cpp:3785-3958 | the four cases with their exact conditions; the delegation has the asked amount, the difference returns at the later of two times, no earlier than either; counters stay exact, and of the delegated counters only the delegator's rises, by what is newly lent |
| `Delegation.Delegations.ClearExpiredDelegations` | libraries/chain/database.cpp:4252-4281 | exactly the expired returns are given back |
| `Delegation.Delegations.Run` | libraries/chain/database.cpp:700-704 | over any run both counters are exactly what the delegations and returns add up to, and what is lent in total is what is held plus what is returning |
| `VestingFund.CashingBacked` | libraries/chain/database.cpp:1584-1592 | cashing shares of a backed fund never overdraws it, never lowers what a remaining share is worth, and leaves it backed |
| `VestingFund.ConvertedIsPart` | libraries/chain/include/steem/chain/global_property_object.hpp:67-73 | shares are worth their part of the fund rounded down, at the founding price while fund or shares are empty |
| `VestingFund.MintedIsPart` | libraries/chain/include/steem/chain/vesting.hpp:20-37 | a deposit buys its part of the shares rounded down, at the founding price while fund or shares are empty |
| `VestingFund.CashingUnbacked` | libraries/chain/include/steem/chain/global_property_object.hpp:67-73 | at the founding price an empty fund is overdrawn exactly by a thousand shares or more |
| `VestingFund.LaterIsNoWorse` | libraries/chain/database.cpp:1636-1640 | who is cashed after others gets no less for the same shares |
| `VestingFund.MintingBacked` | libraries/chain/include/steem/chain/vesting.hpp:20-37 | a deposit dilutes nobody who holds shares, and backs the fund |
| `VestingFund.DepositAndBack` | libraries/chain/include/steem/chain/vesting.hpp:20-37 | depositing and cashing at once gains nothing, if and only if somebody holds shares or the fund is empty |
| `VestingFund.RateIsLeast` | libraries/chain/steem_evaluator.cpp:1331-1345 | the weekly rate is the least that pays the total in 13 payouts |
| `VestingFund.LastPayout` | libraries/chain/database.cpp:1593-1597 | the last payout is what is left exactly when full rates were paid before |
| `VestingFund.DueInTurn` | libraries/chain/database.cpp:1593-1597 | while shares suffice each payout is a full rate or all that is left, and there are at most 13 |
| `VestingFund.StartsOnTrack` | libraries/chain/steem_evaluator.cpp:1314-1345 | a power-down that was accepted starts on track: the account holds its total |
| `VestingFund.PayoutOnTrack` | libraries/chain/database.cpp:1593-1690 | every payout takes something and never more than is left, and keeps a power-down on track: full rates while it runs, exactly its total in at most 13 payouts when it ends, whatever arrives in between |
| `VestingWithdrawal.PartsFit` | libraries/chain/database.cpp:1608-1668 | with routes of at most 100% the parts never exceed the payout: the check on what is left to convert cannot fail |
| `VestingWithdrawal.RerouteAdds` | libraries/chain/steem_evaluator.cpp:1413-1422 | one route more cannot overflow the 16-bit sum, and the route count stays right |
| `VestingWithdrawal.BackedNeverOverdraws` | libraries/chain/database.cpp:1636-1655 | only an empty fund with shares outstanding can be overdrawn |
| `VestingWithdrawal.FoundingPriceOverdraws` | libraries/chain/database.cpp:1670-1695 | without routes, every payout of a thousand shares or more overdraws an empty fund |
| `VestingWithdrawal.Pool.constructor` | libraries/chain/database.cpp:2743-2818 | a chain at its start satisfies the invariant |
| `VestingWithdrawal.Pool.CreateAccount` | libraries/chain/steem_evaluator.cpp:314-398 | a new account holds nothing; invariant kept |
| `VestingWithdrawal.Pool.DepositShares` | libraries/chain/database.cpp:1602-1624 | the first pass gives every automatic route its part and nothing else changes |
| `VestingWithdrawal.Pool.PayOne` | libraries/chain/database.cpp:1636-1655 | one conversion: the account gets the shares' part of the fund rounded down, and fund and shares lose what it got and gave |
| `VestingWithdrawal.Pool.PayLiquid` | libraries/chain/database.cpp:1627-1664 | the second pass, in any order of routes: every route gets no less than its part was worth before the first, rounded down; tokens are conserved, no share is diluted; it stops exactly at an overdraft |
| `VestingWithdrawal.Pool.ServeRoutes` | libraries/chain/database.cpp:1601-1668 | both passes, and what is left is never negative |
| `VestingWithdrawal.Pool.Payout` | libraries/chain/database.cpp:1584-1700 | a whole payout: shares and tokens conserved, no remaining share worth less, every account changed as its route says and paid no less than its part was worth before, without routes exactly that rounded down, every power-down still on track; overdraws exactly when stated |
| `VestingWithdrawal.Pool.TotalPercent` | libraries/chain/steem_evaluator.cpp:1413-1420 | 16-bit addition gives the true sum |
| `VestingWithdrawal.Pool.SetRoute` | libraries/chain/steem_evaluator.cpp:1359-1426 | succeeds exactly when the changed routes fit number and 100%; keeps that true of every account |
| `VestingWithdrawal.Pool.WithdrawVesting` | libraries/chain/steem_evaluator.cpp:1314-1356 | starts, changes or stops a power-down, exactly when the rate changes and the account holds that many shares it has not delegated |
| `VestingWithdrawal.Pool.Deposit` | libraries/chain/steem_evaluator.cpp:1236-1251 | tokens become shares at the fund's price, rounded down; shares and tokens conserved, no holder diluted |
| `VestingWithdrawal.Pool.Run` | libraries/chain/database.cpp:1530-1702 | over any run of deposits, route changes, power-downs and payouts from a backed fund nothing is overdrawn, no token appears or is lost, no share is diluted while somebody holds shares, and every power-down pays full rates while it runs and exactly its total in at most 13 payouts |
| `RewardedPool.ClaimBacks` | libraries/chain/steem_evaluator.cpp:3561-3588 | a claim leaves a backed fund backed if and only if the fund holds something or a token at least follows the claimed shares |
| `RewardedPool.ClaimLeaves` | libraries/chain/steem_evaluator.cpp:3561-3581 | what is left unclaimed still has tokens behind it |
| `RewardedPool.Rewards.constructor` | libraries/chain/database.cpp:2743-2818 | a chain at its start satisfies the invariant |
| `RewardedPool.Rewards.PayReward` | libraries/chain/include/steem/chain/vesting.hpp:86-124 | rewarded shares at the price with everything unclaimed; tokens conserved |
| `RewardedPool.Rewards.ClaimVests` | libraries/chain/steem_evaluator.cpp:3550-3595 | claimed shares and the tokens that follow them; tokens conserved; the fund stays backed exactly when stated |
| `RewardedPool.Rewards.Run` | libraries/chain/steem_evaluator.cpp:3550-3595 | over any run of deposits, power-downs, payouts, rewards and claims no token appears or is lost, and nothing is overdrawn before a claim brought shares without tokens into an empty fund |
| `RewardedPool.FundOverdrawn` | libraries/chain/database.cpp:1670-1695 | a run from the start of a chain whose last payout takes more than the fund holds |
| `Stakes.AvailableIsFree` | libraries/chain/steem_evaluator.cpp:3715-3770 | what the formula makes available never includes shares that are lent out or powering down, and is all the others exactly when the manabar is full for them |
| `Stakes.EffectiveNonneg` | libraries/chain/include/steem/chain/util/manabar.hpp:98-118 | nobody votes with a negative number of shares |
| `Stakes.LentExists` | libraries/chain/steem_evaluator.cpp:3715-3770 | all that is lent out is at most all shares there are |
| `Stakes.CoveredAfterPayout` | libraries/chain/database.cpp:1584-1700 | a payout leaves every account with what it has lent and what is still to be paid |
| `Stakes.Stakes.constructor` | libraries/chain/database.cpp:2743-2818 | a chain at its start satisfies the invariant |
| `Stakes.Stakes.CreateAccount` | libraries/chain/steem_evaluator.cpp:314-398 | both ledgers know the same accounts |
| `Stakes.Stakes.WithdrawVesting` | libraries/chain/steem_evaluator.cpp:1314-1356 | only shares that are not lent out may be powered down |
| `Stakes.Stakes.Delegate` | libraries/chain/steem_evaluator.cpp:3701-3958 | only shares that are neither lent out nor powering down are lent, whatever the manabars hold |
| `Stakes.Stakes.StartBlock` | libraries/chain/database.cpp:4252-4281 | returned shares are free again |
| `Stakes.Stakes.Run` | libraries/chain/steem_evaluator.cpp:3715-3770 | over any run of deposits, routes, power-downs, payouts and delegations, what an account has lent and what it still has to pay out together never exceed its shares, so no share is lent twice or lent while it leaves |
| `ContentPayout.Discounted` | libraries/chain/steem_evaluator.cpp:2157-2163 | an early vote stores exactly the part of its weight that the auction time gone by gives it |
| `ContentPayout.ClaimsFit` | libraries/chain/database.cpp:1759-1785 | curators together never claim more than there is, because the total weight covers the stored weights |
| `ContentPayout.Shares` | libraries/chain/steem_evaluator.cpp:2035-2046 | the shares of a vote are the mana it took less the dust, scaled down by the time left before the payout; none exactly when that is dust or scaled down to nothing |
| `ContentPayout.UpvoteAffordable` | libraries/chain/steem_evaluator.cpp:1997-2033 | rounding up, an upvote never takes more mana than there is |
| `ContentPayout.UsedNoLess` | libraries/chain/steem_evaluator.cpp:1997-2023 | a vote takes no less than its part of either manabar a downvote may draw on, but for rounding |
| `ContentPayout.UsedNoMore` | libraries/chain/steem_evaluator.cpp:1997-2023 | and no more than its part of one of them, but for rounding |
| `ContentPayout.DownvoteAffordable` | libraries/chain/steem_evaluator.cpp:2024-2033 | with something in both manabars a downvote can be afforded when the pool is as large as full downvotes for the regeneration time; with nothing in either it cannot |
| `ContentPayout.Content.constructor` | libraries/chain/steem_evaluator.cpp:897-931 | content nobody voted on satisfies the invariant and its count has no drift |
| `ContentPayout.ValidateBeneficiaries` | libraries/protocol/steem_operations.cpp:123-144 | accepts exactly sorted lists of at most 127 that share at most 100% |
| `ContentPayout.Content.NewVote` | libraries/chain/steem_evaluator.cpp:2047-2179 | a first vote adds the curve's gain to the total weight and stores the discounted part; the total and what changed votes gave up stay what the curve gained |
| `ContentPayout.Content.ChangeVote` | libraries/chain/steem_evaluator.cpp:2180-2257 | a changed vote gives its weight up; shares and counts stay exact |
| `ContentPayout.Content.CastVote` | libraries/chain/steem_evaluator.cpp:1930-2257 | accepted exactly with voting rights, on content that allows it, in time, not too soon after the last vote, with enough mana and changes left; net shares stay the sum of votes and the total weight covers the stored weights; the count of votes drifts exactly with first votes of no shares; votes on paid content are recorded and count for nothing |
| `ContentPayout.Content.Run` | libraries/chain/steem_evaluator.cpp:1930-2257 | over any run of votes and changed votes the count falls behind upvotes minus downvotes by exactly the number of first votes that left no shares; when no vote was changed the total weight is what the curve gained |
| `ContentPayout.Content.PayCurators` | libraries/chain/database.cpp:1723-1789 | each curator gets the proportional part rounded down; paid and unclaimed add up; unclaimed never goes negative |
| `ContentPayout.Content.PayBeneficiaries` | libraries/chain/database.cpp:1839-1872 | each beneficiary gets its part, the treasury in dollars alone, together at most the author's tokens |
| `ContentPayout.Content.SplitReward` | libraries/chain/database.cpp:1826-1888 | claims, beneficiary payments and the author's two parts add up exactly to what is claimed, which is the reward less what nobody may have |
| `ContentPayout.Content.CashOut` | libraries/chain/database.cpp:1797-1942 | pays only content with positive net shares and closes it |
| `TokenAccounts.WithInterest` | libraries/chain/database.cpp:4337-4361 | interest never lowers a balance and leaves tokens alone |
| `TokenAccounts.InterestPathFree` | libraries/chain/database.cpp:4337-4361 | touching a purse in between does not change what it earns, nor does touching it twice in a block; within the interval nothing is paid |
| `TokenAccounts.InterestBounded` | libraries/chain/database.cpp:4343-4350 | interest is the yearly rate on the accumulated dollar-seconds up to rounding, never more, and uses them up |
| `TokenAccounts.ReceivesTwice` | libraries/chain/database.cpp:4323-4361 | amounts that arrive one after the other in a block arrive as their sum, with the interest paid once |
| `TokenAccounts.PaidNext` | libraries/chain/database.cpp:4526-4556 | after any number of payments every balance holds the sum of those to it |
| `TokenAccounts.LiquidPut` | libraries/chain/database.cpp:4323-4380 | a balance change moves what is held by the amount plus the interest |
| `TokenAccounts.SavingsPut` | libraries/chain/database.cpp:4558-4610 | the same for savings |
| `VestingFund.MovedWith` | libraries/chain/steem_evaluator.cpp:3561-3566 | the tokens that follow claimed shares are their part rounded down, and all of them with the last share |
| `TokenLedger.InflationDilutesNobody` | libraries/chain/database.cpp:2162-2182 | new tokens in the fund and new shares for the producer leave every share worth no less |
| `TokenLedger.Ledger.constructor` | libraries/chain/database.cpp:2783-2818 | a chain at its start: one account holds the whole supply, and both equalities hold |
| `TokenLedger.Ledger.AdjustBalance` | libraries/chain/database.cpp:4526-4556 | fails exactly when funds are short; changes the gap between supply and holdings by the amount alone |
| `TokenLedger.Ledger.AdjustSavings` | libraries/chain/database.cpp:4558-4610 | the same for savings |
| `TokenLedger.Ledger.Transfer` | libraries/chain/steem_evaluator.cpp:1222-1234 | the amount leaves one balance and arrives at the other, or nothing happens; supply kept |
| `TokenLedger.Ledger.TransferToSavings` | libraries/chain/steem_evaluator.cpp:3434-3447 | from balance to savings, supply kept |
| `TokenLedger.Ledger.TransferFromSavings` | libraries/chain/steem_evaluator.cpp:3449-3479 | from savings into a pending withdrawal, with its exact conditions; the count of requests stays right |
| `TokenLedger.Ledger.CancelTransferFromSavings` | libraries/chain/steem_evaluator.cpp:3481-3492 | and back |
| `TokenLedger.Ledger.CompleteWithdrawal` | libraries/chain/database.cpp:2216-2225 | a completed withdrawal arrives at its receiver |
| `TokenLedger.Ledger.ProcessSavingsWithdraws` | libraries/chain/database.cpp:2209-2228 | exactly the due withdrawals are completed; every account receives the sum of those to it, with interest once if dollars arrive; supply kept |
| `TokenLedger.Ledger.EscrowTransfer` | libraries/chain/steem_evaluator.cpp:1050-1085 | takes amounts and fee from the sender, or nothing; supply kept |
| `TokenLedger.Ledger.EscrowApprove` | libraries/chain/steem_evaluator.cpp:1087-1144 | who may approve when; the second approval pays the agent and empties the fee; a rejection refunds the sender completely |
| `TokenLedger.Ledger.EscrowDispute` | libraries/chain/steem_evaluator.cpp:1146-1165 | only an approved escrow before its expiry can be disputed, once |
| `TokenLedger.Ledger.MayRelease` | libraries/chain/steem_evaluator.cpp:1174-1206 | the nested checks are the rule: the agent in a dispute, else a party, before expiry only to the other one |
| `TokenLedger.Ledger.Release` | libraries/chain/steem_evaluator.cpp:1208-1218 | removing an emptied escrow loses nothing, because an approved one has no fee left |
| `TokenLedger.Ledger.EscrowRelease` | libraries/chain/steem_evaluator.cpp:1167-1220 | exactly the allowed releases are paid, to the receiver; supply kept |
| `TokenLedger.Ledger.ReturnEscrow` | libraries/chain/database.cpp:2493-2500 | the sender gets everything back |
| `TokenLedger.Ledger.ExpireEscrowRatification` | libraries/chain/database.cpp:2486-2502 | exactly the escrows not ratified in time are returned; every sender receives amounts and fees of the own ones; supply kept |
| `TokenLedger.Ledger.RequestConversion` | libraries/chain/steem_evaluator.cpp:3069-3088 | dollars wait in a request, with its exact conditions; supply kept |
| `TokenLedger.Ledger.PayConversion` | libraries/chain/database.cpp:2413-2426 | one request: tokens issued at the median price, dollars gone |
| `TokenLedger.Ledger.PayConversions` | libraries/chain/database.cpp:2411-2427 | every account's tokens rise by the sum over its own due requests of what their dollars are worth at the price, and nothing else changes; the totals issued and destroyed are exactly the gaps left |
| `TokenLedger.Ledger.ProcessConversions` | libraries/chain/database.cpp:2400-2436 | every owner of due requests is paid their worth in tokens; the token supply rises by the total, the dollar supply falls by the requests' amounts; only due requests are paid |
| `TokenLedger.Ledger.ClaimRewardBalance` | libraries/chain/steem_evaluator.cpp:3550-3595 | rewards move to the balance, shares to the account and their tokens to the vesting fund; supplies and vesting totals kept |
| `TokenLedger.Ledger.CreditRewards` | libraries/chain/include/steem/chain/vesting.hpp:86-124 | rewards that wait to be claimed count as held |
| `TokenLedger.Ledger.PayReward` | libraries/chain/database.cpp:1179-1223 | what leaves the reward fund arrives: as dollars as far as they are printed, for which tokens are destroyed, as tokens beyond that or without a price, and as shares; fails exactly without an account or a price for shares |
| `TokenLedger.Ledger.PayTreasury` | libraries/chain/database.cpp:1845-1852 | the treasury's part is destroyed and paid in dollars |
| `TokenLedger.Ledger.ProcessFunds` | libraries/chain/database.cpp:2146-2185 | the new tokens of a block are exactly what the funds and the producer get; no share is worth less; supplies kept |
| `TokenLedger.Ledger.CreateVesting` | libraries/chain/include/steem/chain/vesting.hpp:84-132 | shares at the fund's price; vesting totals kept |
| `TokenLedger.Ledger.TransferToVesting` | libraries/chain/steem_evaluator.cpp:1236-1251 | tokens move from the balance into the vesting fund and shares are created; supplies and vesting totals kept |
| `TokenLedger.Ledger.CreateOrder` | libraries/chain/steem_evaluator.cpp:3090-3112 | an amount moves from balance to order |
| `TokenLedger.Ledger.CancelOrder` | libraries/chain/steem_evaluator.cpp:3192-3195 | and back |
| `TokenLedger.Ledger.PayFromOrder` | libraries/chain/database.cpp:4165-4181 | what leaves an order arrives at a balance, and an emptied order leaves the book |
| `TokenLedger.Ledger.Trade` | libraries/chain/database.cpp:4099-4103 | any trade between two orders keeps both supplies |
| `TokenLedger.Ledger.StartBlock` | libraries/chain/database.cpp:3159-3168 | everything that is due at a block happens, in order: conversions, withdrawals and escrows are paid to whom they are due and leave their tables; supply kept |
| `TokenLedger.Ledger.Run` | libraries/chain/database.cpp:5309-5429 | in every state any run reaches from the start both recorded supplies are what is held in balances, savings, rewards, escrows, withdrawals, conversions, orders and funds, and the vesting totals add up |

## Left out

- Networking, wallet, plugins, configuration, JSON, base58 and serialization: plumbing. Packing is a parameter of the block log of which only the round trip is used.
- Hashing and signatures: block ids and Merkle hashes are taken to be injective where a result says so; recovering keys from signatures is not modelled.
- `apply_block` itself: an abstract deterministic partial function of the state and the block, of which module ChainDatabase uses that it moves the head to the block and that the irreversible number stays below the head and never decreases (which module Irreversible shows of the update, for two scheduled witnesses or more from the block on where voting starts); what the components do inside it is modelled one by one.
- Undo sessions: exact snapshots; a failed operation or block leaves nothing behind.
- Transactions that are put back into the pending queue when a block is undone.
- Links between fork database items across removal and re-insertion of the same block: an item is its block, so a re-inserted block is the same item.
- 64-bit ranges of amounts: amounts are unbounded integers; 16-bit, 32-bit and 128-bit arithmetic is modelled where its overflow matters (route percentages, authority weights, virtual time), and file positions are 64-bit.
- SignState.Checker.CheckAuthorityImpl: beyond its limits on members and accounts only soundness is stated, because what they cut off depends on the order of members; at full depth the source does not count the members it skips, so there no bound on the members seen is stated.
- VestingWithdrawal.Pool.Payout: stops where the fund would turn negative; what later conversions do with a negative fund is not modelled.
- VestingWithdrawal.Pool.WithdrawVesting: what the account has delegated is a parameter; module Stakes passes the counter.
- VestingWithdrawal.Pool.Run: block times within a week of the end of 32-bit time do not occur; there the next payout would be due at a time that wraps around.
- Delegation.Delegations.Delegate: what is available and the minimum amounts derived from the creation fee are parameters; module Stakes computes the former.
- Stakes.Stakes.Delegate: what the two manabars hold is a parameter, and the result holds whatever it is.
- ContentPayout.Content.CastVote: what the voter's manabars hold is a parameter, and taking the used mana off them is not modelled; nor is the mark a payout puts on votes, which no vote on unpaid content meets.
- ContentPayout.Content.CashOut: the reward is a parameter; paying it into balances is TokenLedger.Ledger.PayReward.
- TokenLedger.Ledger.Trade: fills with arbitrary amounts; which amounts are matched, and dust, are in module Market.
- Market: interest on dollars is in module TokenLedger, not here.
- TokenLedger.Ledger.ProcessFunds: the parts of the inflation of a block are parameters; their percentages of the virtual supply and the witness pay weights are not modelled.
- TokenLedger.Ledger.PayReward: the amounts are parameters; how a reward is split is in module ContentPayout.
- ChainDatabase.Database.constructor: a node with an empty block log, whose fork database has no head and takes any first block, is not modelled.
- BlockLog.BlockLog.Open: the block file itself is whole; a record that a crash cut off is not modelled.
- WitnessFairness.NoStarvation: votes do not change along the run.
- `clear_null_account_balance`, liquidity rewards, the difficulty of proof of work, hardfork migrations, rules before hardfork 20, the SST token life cycle, proposals: history, or only easy members.
- Median witness properties, hardfork votes of witnesses and pay normalization in the schedule update: independent of the schedule itself.
- The virtual supply and the price feed: not part of the two supply equalities.
