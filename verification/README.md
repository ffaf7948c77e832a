# A verified model of the Rigo application

Rigo is a Tendermint (ABCI 0.34) application: a state machine that processes blocks
through BeginBlock, DeliverTx, EndBlock and Commit, and a signer for its validators.
This project models its core in Dafny and proves what holds over whole runs of it.

`dafny verify dfyconfig.toml` checks everything.

## Reading guide

| files | component |
|---|---|
| Prelude, Overlay | byte order, sums, what an unstable sort promises; the meaning of one ledger layer |
| Ledger, LedgerObjects | the two-layer ledger as a state machine, and as objects changed in place |
| Signer | the file signer with crashes and reloads |
| BlockMarker, Markers | missed-block marks |
| Delegatee, Reward, Amounts, Account, GovParams | the records the controllers keep |
| Staking, Conservation | staking, unstaking, stops, slashes, refunds, rewards, and where every coin is |
| Chain, ChainLaws, Genesis, ChainRuns, NativeBlocks | blocks, genesis, runs of blocks and the account of all coins |
| Deliveries, Votes | what transactions, votes and evidence do to each account, owner and validator, and which transactions are executed |
| StakeLives, StakeReturns | the life of a stake from its transaction to its refund |
| Collisions, Incidents | what genesis stakes lose under their common hash, and blocks that lose power |
| DelegateeKeys, ChainTracking | what runs mean for validators and the consensus engine |
| StakeCtrler, AccountCtrler | the stake controller and the account objects changed in place |
| Validators, Limiter | validator selection and updates, the stake limiter |
| Proposal, Governance, GovernanceRuns, GovernanceCtrler | proposals, their two ledgers, the parameters |
| StateDB | the snapshots of the EVM overlay |

Each component is a set of functions on values that follow the Go code branch by branch.
Where the code changes objects in place, a class with methods and loops is proved to do what
those functions say, and the lemmas are about the functions.

## Hypotheses

They appear as `requires` clauses of the results that need them.

- Transactions with the same hash have the same sender and nonce, and no transaction hashes to 32 zero
  bytes (`ChainLaws.NoCollisions`); the same transaction may be delivered again. In governance the
  hashes of the executed proposals are new (`GovernanceRuns.FreshHashes`).
- All coins, with what a block issues, stay below 2^63 * 10^18, the gas price below 2^192, and the
  slash ratio within 0..100 (`ChainLaws.BlockOk`, `ChainLaws.ParamsOk`). In governance the ratio is
  asked only of proposed parameters; that the one in force is within 0..100 is then proved.
- The powers of the genesis validators are not negative (`Genesis.PowersOk`).
- Parameters fit their widths where acceptance is stated (`Deliveries.ParamsFit`).
- The voting power of a new proposal is below 2^62 and its validators are distinct.
- For the updates to the consensus engine a validator needs at least one unit of self power, the
  keys of genesis belong to their addresses, and a signature that verifies was made with the
  key of the sender's address (`ChainTracking.AllSigned`).

## What turned out not to hold

- A key deleted and set again in one block reads as absent until the commit
  (`Overlays.GetIsPendingValue`, `Ledger.SetAgainReadsAbsent`). So a second stake on a delegatee that
  was deleted and made again in the block overwrites the first one
  (`Conservation.StakingConservesExactly`, `Incidents.SecondStakeOverwrites`).
- All genesis stakes have the same hash and so one place among the frozen stakes: one that is frozen
  while another one is there takes its place, and the power of the other one is gone
  (`Collisions.GenesisStakesCollide`, `Incidents.TwoValidatorsLoseOne`).
- The consensus engine begins with the genesis validators and the controller with none, so one of
  genesis that is never selected stays in the engine (`Validators.EngineAgreesExactly`).
- A slash drops the stakes that it would cut by less than 1 and does not report them
  (`Delegatees.SlashBalance`); with ratio 0 it drops all (`Delegatees.SlashByZeroRemovesAll`).
- `DelAllStakes` leaves the self power as it was (`Delegatees.DelegateeObject.DelAllStakes`); the delegatee is deleted at once in both places that call it.
- A rejected limiter check can leave a negative power in the list
  (`Limiters.RejectionLeavesUnchangedExactly`); the requests of the program never get there
  (`Limiters.UnstakeAsksWithin`).
- CheckTx and DeliverTx share one limiter, so a simulated transaction can make it refuse a delivered
  one (`Limiters.SimulatedCheckRefusesExactly`).
- For totals 0, 1, 2 and 4 the unstable sort can decide which option wins
  (`Proposals.SortCanDecide`).
- A contract transaction can move the sum of balances: what it pays to an address that it has not
  accessed is not written back (`StateDBs.SuccessfulTrxMovesByFlow`).
- When several parameter proposals are applied in one block, each is merged with the parameters
  in force, so only the last one counts (`GovernanceRuns.GreatestHashWins`).
- The wait between the end of the voting and the applying height of a proposal is not asked for when
  adding it leaves 64 bits (`Governance.ProposalIsStored`).
- Fees of a block without proposer are paid to nobody (`ChainLaws.PayProposerLaw`).
- The refund branch of `transfer` is unreachable: what is accepted for taking is accepted for
  giving (`AccountCtrlers.Transfer`).

## Model

| member | source | states |
|---|---|---|
| `Overlays.GetIsPendingValue` | ledger/finality_ledger.go:81-99 | A finality read gives what a commit would store if and only if the key has not been both deleted and set again since the last commit |
| `Overlays.CancelSetUndoesExactly` | ledger/finality_ledger.go:56-72 | Cancelling a set gives back the state before it if and only if nothing was pending for the key |
| `Overlays.CancelDelUndoesExactly` | ledger/finality_ledger.go:101-128 | Cancelling the deletion of a present key gives back the state before it if and only if the pending value was the committed one |
| `Ledger.ToLedgerKeyInjective` | ledger/types.go:13-21 | Two byte strings of the same length up to 32 with the same key are the same |
| `Ledger.ToLedgerKeyIdentifiesExactly` | ledger/types.go:13-21 | Byte strings of one length share a ledger key if and only if they agree on their first 32 bytes |
| `Ledger.IterationOrderIrrelevant` | ledger/finality_ledger.go:148-198 | Sorting the updated keys gives one and the same list whatever order the map iteration takes |
| `Ledger.MemSetRefines` | ledger/finality_ledger.go:56-63 | Setting through the cache is setting in the overlay; the cache invariant is kept |
| `Ledger.MemCancelSetRefines` | ledger/finality_ledger.go:65-72 | Cancelling a set through the cache is what it is in the overlay: back to the committed entry, or to absent for a deleted key |
| `Ledger.MemGetRefines` | ledger/finality_ledger.go:81-99 | A read through the cache answers as the overlay does and changes only the cache |
| `Ledger.MemDelRefines` | ledger/finality_ledger.go:101-120 | Deleting through the cache deletes in the overlay, and fails without effect exactly where the overlay reads absent |
| `Ledger.MemCancelDelRefines` | ledger/finality_ledger.go:122-128 | Cancelling a deletion through the cache is what it is in the overlay; the removed keys stay free of duplicates |
| `Ledger.CommitStoresPending` | ledger/finality_ledger.go:148-198 | The tree operations of a commit lead to (tree minus removed keys) overridden by the updated items |
| `Ledger.StepRefines` | ledger/finality_ledger.go:56-198 | Every call on both layers refines a machine of two plain overlays over one committed map |
| `Ledger.RunRefines` | ledger/finality_ledger.go:56-198 | For every history of calls the answers are those of the two overlays |
| `Ledger.HistoryRefines` | ledger/finality_ledger.go:56-198 | From the empty ledger: no key is removed twice, a commit stores the pending value, and a finality read differs from it exactly for a key removed and set again |
| `Ledger.SetAgainReadsAbsent` | ledger/finality_ledger.go:81-120 | A history of three calls after which a finality read finds nothing and the commit stores the item |
| `Ledger.ReadsAgreeAfterCommit` | ledger/simple_ledger.go:92-213 | After any history and a commit, Get, GetFinality and Read give the value that was pending, for every key |
| `Ledger.SimulationIsInvisible` | ledger/simple_ledger.go:67-139 | A run with simulation calls interleaved has the finality answers, tree operations and finality state of the run without them |
| `Ledger.NonInterference` | ledger/finality_ledger.go:101-198 | Two runs with the same finality calls read the same and give the tree the same operations in the same order, whatever simulation calls they interleave |
| `LedgerObjects.MemItems.DelRemovedKey` | ledger/mem_items.go:71-78 | The loop takes the key out of the removed list, which had it at most once |
| `LedgerObjects.MemItems.Refresh` | ledger/mem_items.go:105-111 | The loop moves the updates into the got items and empties the rest |
| `LedgerObjects.FinalityLedger.Get` | ledger/simple_ledger.go:85-111 | As the state machine does, with the same answer |
| `LedgerObjects.FinalityLedger.Del` | ledger/simple_ledger.go:113-131 | As the state machine does, with the same answer |
| `LedgerObjects.FinalityLedger.CancelDel` | ledger/simple_ledger.go:133-139 | As the state machine does |
| `LedgerObjects.FinalityLedger.ReadTree` | ledger/simple_ledger.go:184-213 | Reads the tree alone |
| `LedgerObjects.FinalityLedger.GetFinality` | ledger/finality_ledger.go:74-99 | As the state machine does, with the same answer |
| `LedgerObjects.FinalityLedger.DelFinality` | ledger/finality_ledger.go:101-120 | As the state machine does: the deletion reaches both layers |
| `LedgerObjects.FinalityLedger.CancelDelFinality` | ledger/finality_ledger.go:122-128 | As the state machine does |
| `LedgerObjects.FinalityLedger.Commit` | ledger/finality_ledger.go:148-198 | The loops over removed and sorted updated keys hand the tree exactly the operations of the state machine and leave its state |
| `LedgerObjects.FinalityLedger.SortedUpdatedKeys` | ledger/finality_ledger.go:165-180 | Collecting the keys in any order and sorting them gives the one sorted list |
| `Signer.CheckDecidesByOrder` | types/crypto/sfile_pv.go:119-151 | In a consistent state CheckHRS decides by the order of the triples alone: error before, same at, may sign after the last one; its panic is out of reach |
| `Signer.VoteOutcome` | types/crypto/sfile_pv.go:368-405 | In a consistent state: a signed vote advances the triple and is saved; a reused signature belongs to the vote as returned, after its timestamp is rewritten |
| `Signer.ProposalOutcome` | types/crypto/sfile_pv.go:410-447 | The same for proposals |
| `Signer.VotesAnswered` | types/crypto/sfile_pv.go:368-405 | Exactly which votes are signed (those past the last triple) and which get the saved signature (the saved vote up to its timestamp); all others are refused |
| `Signer.ProposalsAnswered` | types/crypto/sfile_pv.go:410-447 | The same for proposals |
| `Signer.NeverDoubleSigns` | types/crypto/sfile_pv.go:368-459 | In every run with crashes and reloads: freshly released signatures have strictly increasing (height, round, step), one sign-bytes per triple, and every released message carries a signature over it |
| `Signer.NeverEquivocates` | types/crypto/sfile_pv.go:368-459 | In every run with crashes and reloads no two different proposals, prevotes or precommits of one round are released, and what is newly signed comes by height, round, and then as proposal, prevote, precommit |
| `Signer.OnlyUnknownVoteTypePanics` | types/crypto/sfile_pv.go:119-151 | In every run from a new state the missing-signature panic is unreachable; the only panic is for a vote of unknown type |
| `Signer.SignsAgain` | types/crypto/sfile_pv.go:368-405 | In every run a vote past the saved triple is signed, and asking again with another timestamp gives the same signed message |
| `Signer.SFilePV.New` | types/crypto/sfile_pv.go:182-195 | A new signer has the zero state |
| `Signer.SFilePV.Load` | types/crypto/sfile_pv.go:217-270 | A loaded signer has the saved state |
| `Signer.SFilePV.Reset` | types/crypto/sfile_pv.go:342-350 | The state and the saved state are the zero state |
| `Signer.SFilePV.SaveSigned` | types/crypto/sfile_pv.go:450-459 | Memory and file hold the new triple, sign bytes and signature |
| `Signer.SFilePV.SignVote` | types/crypto/sfile_pv.go:368-405 | State, file, message and result are those of the outcome function |
| `Signer.SFilePV.SignProposal` | types/crypto/sfile_pv.go:410-447 | State, file, message and result are those of the outcome function |
| `BlockMarkers.BlockMarker.Mark` | ctrlers/stake/block_marker.go:14-25 | Appends a later height only; the heights stay strictly increasing |
| `BlockMarkers.BlockMarker.CountInWindow` | ctrlers/stake/block_marker.go:29-56 | The count, with the early break, is the number of marked heights in the window; what pruning leaves |
| `BlockMarkers.PruneKeepsSameFrom` | ctrlers/stake/block_marker.go:29-56 | Pruning keeps every height from the window on and at most one below it |
| `BlockMarkers.PruningIsInvisible` | ctrlers/stake/block_marker.go:14-56 | Over any marks and counts with non-decreasing window starts, the pruning marker answers as one that never prunes |
| `Markers.MissedKeepsIncreasing` | ctrlers/stake/delegatee.go:237-244 | Marking and pruning keep the heights strictly increasing |
| `Markers.BlockKeepsMarked` | ctrlers/stake/ctrler.go:113-271 | Slashes, votes, stakes and unstakes of a block keep the marked heights of all delegatees increasing |
| `Delegatees.AddStakeKeepsSound` | ctrlers/stake/delegatee.go:84-94 | A delegatee whose totals are the sums of its stakes stays so when a stake is added |
| `Delegatees.RemoveByHashRemovesOne` | ctrlers/stake/delegatee.go:124-141 | Among distinct hashes exactly the stake with the hash goes: hashes and power of the rest |
| `Delegatees.DelStakeKeepsSound` | ctrlers/stake/delegatee.go:96-108 | Deleting a stake keeps both totals equal to the sums |
| `Delegatees.DelAllLeavesNothing` | ctrlers/stake/delegatee.go:143-155 | No stake and no total power is left |
| `Delegatees.SelfWithinTotal` | ctrlers/stake/delegatee.go:290-312 | The summed stakes of one owner are at most the sum of all |
| `Delegatees.SlashLeavesSurvivors` | ctrlers/stake/delegatee.go:254-280 | The removal by hash of a slash leaves the stakes cut by at least 1, each reduced by its cut, in order; SlashTakesShares says how large the cut is |
| `Delegatees.SlashBalance` | ctrlers/stake/delegatee.go:254-280 | Old total = new total + reported slash + power of the stakes removed without being reported; the delegatee stays sound |
| `Delegatees.SlashTakesShares` | ctrlers/stake/delegatee.go:254-280 | For a sound delegatee and a ratio of 0..100: a stake stays if and only if power * ratio reaches 100, its power is then less by power * ratio / 100, nothing else stays, and the reported slash is the sum of those shares |
| `Delegatees.SlashCutsStakes` | ctrlers/stake/delegatee.go:254-280 | Each remaining stake is one of the old stakes with at most its old power |
| `Delegatees.SlashByZeroRemovesAll` | ctrlers/stake/delegatee.go:254-280 | A slash with ratio 0 reports nothing and removes every stake |
| `Delegatees.DelegateeObject.AddStake` | ctrlers/stake/delegatee.go:77-94 | The loop adds the stakes to list and totals |
| `Delegatees.DelegateeObject.FindStakeIndex` | ctrlers/stake/delegatee.go:187-194 | The loop finds the first stake with the hash, or none |
| `Delegatees.DelegateeObject.DelStake` | ctrlers/stake/delegatee.go:96-108 | Takes the stake out of list and totals and returns it |
| `Delegatees.DelegateeObject.DelAllStakes` | ctrlers/stake/delegatee.go:143-155 | Returns all stakes; list and total are emptied |
| `Delegatees.DelegateeObject.SumStakes` | ctrlers/stake/delegatee.go:304-312 | The loop sums all stakes or those of one owner |
| `Delegatees.DelegateeObject.DoSlash` | ctrlers/stake/delegatee.go:246-280 | The loops do the slash of the specification; the value returned is the sum of power * ratio / 100 over the stakes that stay |
| `Amounts.PowerRoundTrip` | ctrlers/types/gov_params.go:607-620 | Every power below 2^63 comes back from its amount |
| `Amounts.AmountRoundTrip` | ctrlers/types/gov_params.go:607-620 | An amount comes back from its power if and only if it is a multiple of 10^18 below 2^63 * 10^18 |
| `Rewards.RewardObject.Issue` | ctrlers/stake/reward.go:36-52 | Panics exactly at a height before the last; otherwise the new reward account |
| `Rewards.RewardObject.Withdraw` | ctrlers/stake/reward.go:54-69 | Panics exactly at a height before the last; otherwise the new reward account |
| `GovernanceParams.MergeLaws` | ctrlers/types/gov_params.go:635-711 | Merging nothing keeps all 19 parameters, merging a complete set replaces them, merging is idempotent, nothing set becomes unset |
| `GovernanceParams.ProposedValueIsTaken` | ctrlers/types/gov_params.go:635-711 | For each of the 19 parameters: proposing a value besides anything else gives the merged parameters with that parameter at that value |
| `GovernanceParams.SingleProposalChangesOne` | ctrlers/types/gov_params.go:635-711 | For each of the 19 parameters: a proposal of that value alone changes that parameter alone |
| `GovernanceParams.MergeIsAssociative` | ctrlers/types/gov_params.go:635-711 | Proposals merged one after the other are merged like one proposal in which the later value wins |
| `Accounts.CreditAdds` | ctrlers/types/account.go:125-135 | A credit that does not wrap adds its amount to the total of all balances |
| `Accounts.DebitSubtracts` | ctrlers/types/account.go:137-150 | A covered debit subtracts its amount from the total |
| `AccountCtrlers.AccountObject.AddBalance` | ctrlers/types/account.go:125-135 | Refuses amounts from 2^255 on; otherwise adds modulo 2^256 |
| `AccountCtrlers.AccountObject.SubBalance` | ctrlers/types/account.go:137-150 | Refuses amounts from 2^255 on and uncovered ones; otherwise subtracts |
| `AccountCtrlers.Transfer` | ctrlers/account/ctrler.go:237-246 | On one object or on two: what moves, and that a failed transfer moves nothing |
| `AccountCtrlers.AcctCtrler.InitLedger` | ctrlers/account/ctrler.go:46-66 | The loop sets the accounts of the holders |
| `AccountCtrlers.AcctCtrler.FindOrNewAccount` | ctrlers/account/ctrler.go:173-186 | One object per address; a new one is empty; no other account changes |
| `AccountCtrlers.AcctCtrler.ExecuteTransfer` | ctrlers/account/ctrler.go:84-105 | The accounts become those of the specification, sender and receiver aliased or not |
| `AccountCtrlers.AcctCtrler.ExecuteSetDoc` | ctrlers/account/ctrler.go:282-285 | Name and document of the sender change, nothing else |
| `AccountCtrlers.AcctCtrler.PostRun` | node/trx_executor.go:231-294 | Fee and nonce of the sender, or no change at all |
| `AccountCtrlers.AcctCtrler.ValidateNative` | node/trx_executor.go:105-193 | Accepts exactly the valid native transactions |
| `AccountCtrlers.AcctCtrler.ExecuteNative` | node/trx_executor.go:195-294 | Accounts, result and block fee after run and post-run |
| `AccountCtrlers.AcctCtrler.PayFees` | ctrlers/account/ctrler.go:112-134 | The accounts after the payout to the proposer, who may be a sender or new |
| `AccountCtrlers.AcctCtrler.DeliverNative` | node/app.go:325-413 | Delivery on account objects does what delivery on the chain state does: accounts, fees, result |
| `Conservation.PunishDestroys` | ctrlers/stake/ctrler.go:280-291 | A punishment lowers the supply by exactly the power that it reports and removes |
| `Conservation.FreezeLaw` | ctrlers/stake/ctrler.go:607-618 | Freezing stakes, under whatever hashes, adds their power to the frozen power less the power of the frozen stakes that it overwrites |
| `Conservation.FreezeConservesExactly` | ctrlers/stake/ctrler.go:607-618 | Freezing stakes of different hashes adds all their power if and only if none of the hashes is taken by a frozen stake with power |
| `Conservation.MissBlockLaw` | ctrlers/stake/ctrler.go:220-260 | Marking a missed block keeps the supply; stopping the validator and freezing all its stakes lowers it by what that overwrites |
| `Conservation.UnstakeLaw` | ctrlers/stake/ctrler.go:572-634 | An unstake lowers the supply by exactly the power that its freezing overwrites |
| `Conservation.UnstakeWithoutSelfPowerDeletes` | ctrlers/stake/ctrler.go:612-631 | An unstake deletes the delegatee if and only if it leaves no self power; otherwise a sound delegatee is left |
| `Conservation.RewardsIssue` | ctrlers/stake/ctrler.go:335-361 | Rewarding stakes issues the reward per power times their summed power |
| `Conservation.WithdrawConservesExactly` | ctrlers/stake/ctrler.go:636-672 | A withdrawal is carried out if and only if there is a reward and the amount is below 2^255; it then moves its amount from the reward to the balance if and only if the reward suffices |
| `Conservation.StakingLaw` | ctrlers/stake/ctrler.go:528-570 | Staking moves its amount into power, less what it overwrites |
| `Conservation.StakingConservesExactly` | ctrlers/stake/ctrler.go:528-570 | Staking keeps the supply if and only if it overwrites no delegatee deleted and made again in the block |
| `Conservation.UnfreezeRefunds` | ctrlers/stake/ctrler.go:687-703 | Unfreezing never fails; every owner gets exactly the power of their due committed stakes in coins, exactly the due hashes are removed, and the supply moves by what stands under those hashes beyond what was committed |
| `ChainLaws.ValidatedCanPay` | node/trx_executor.go:105-158 | After validation the sender covers amount plus fee, with no wrap-around |
| `ChainLaws.NextIsFresh` | node/trx_executor.go:105-158 | A transaction with the next nonce of its sender has a hash that no executed transaction and no stake has, as long as equal hashes mean equal sender and nonce |
| `ChainLaws.ValidatedRuns` | node/trx_executor.go:195-294 | A validated transaction of any kind runs, and its sender still covers the fee |
| `ChainLaws.DeliverLaw` | node/app.go:325-413 | A delivered transaction, delivered before or not, is rejected, changing at most an empty receiver account, or executed and paid in full; coins stay accounted for |
| `ChainLaws.RewardedPower` | ctrlers/stake/ctrler.go:202-219 | A signed vote issues for the whole total power of its validator |
| `ChainLaws.VotesLaw` | ctrlers/stake/ctrler.go:202-261 | The votes of a block issue the reward per power times the summed power of the rewarded validators; all other coins are accounted for, stops included |
| `ChainLaws.BeginBlockLaw` | ctrlers/stake/ctrler.go:113-271 | Evidence and votes keep the account of all coins |
| `ChainLaws.DeliverAllLaw` | node/app.go:325-413 | So do all deliveries of a block |
| `ChainLaws.PayProposerLaw` | ctrlers/account/ctrler.go:112-134 | The payout keeps the total if and only if there is a proposer or nothing to pay |
| `ChainLaws.StakingMeetsMinima` | ctrlers/stake/ctrler.go:363-446 | After a validated staking the delegatee has the minimum self power, or its own share is not below the minimum ratio |
| `Genesis.InitChainIsInv` | node/app.go:168-234 | The chain that InitChain makes, with any holders and validators, all of its validators under the one genesis hash, meets the invariant that every block keeps; nothing of it is committed |
| `Genesis.InitDelegateesHold` | ctrlers/stake/ctrler.go:87-110 | InitLedger leaves exactly the delegatees of genesis, pending, each sound and with an account for its owner |
| `Genesis.GenesisAccounts` | ctrlers/account/ctrler.go:46-66 | Every asset holder has the balance of genesis, every other genesis validator an empty account, and nobody else has one |
| `Genesis.GenesisDelegatees` | ctrlers/stake/ctrler.go:87-110 | Every genesis validator has a delegatee with its key and one stake, its own, of its power |
| `Genesis.GenesisSupply` | ctrlers/account/ctrler.go:46-66 | Genesis is worth the balances of its holders and 10^18 times the power of its validators |
| `Deliveries.EveryAccountAfter` | node/trx_executor.go:195-294 | What an executed transaction of any kind leaves of every account: balance, nonce, name and document, with the fee as price times gas; only the account of the receiver may be new |
| `Deliveries.TransferReaches` | ctrlers/account/ctrler.go:237-246 | An executed transfer brings the receiver the amount and takes amount and fee from the sender; one to oneself costs the fee; delegatees, frozen stakes and rewards stay |
| `Deliveries.OtherLedgersAfter` | ctrlers/account/ctrler.go:84-105 | Transfers, documents and governance transactions change no delegatee, frozen stake or reward |
| `Deliveries.DelegateeAfterStaking` | ctrlers/stake/ctrler.go:528-570 | An executed staking adds one stake of the sender, one power per coin and from the next block on, to the delegatee of its receiver, and changes no other |
| `Deliveries.DelegateeAfterUnstaking` | ctrlers/stake/ctrler.go:572-634 | An executed unstaking takes exactly the stake of the sender out and freezes it for the lazy reward blocks; without self power left the delegatee goes and all its stakes are frozen; no other delegatee or frozen stake changes |
| `Deliveries.RewardAfterWithdrawal` | ctrlers/stake/ctrler.go:636-672 | An executed withdrawal takes the request from the reward of the sender and changes no other |
| `Deliveries.ExecutedExactly` | node/trx_executor.go:105-193 | A transaction is executed if and only if it is signed, pays for enough gas at the price in force, has the next nonce and the coins, and meets what its kind asks for; otherwise it is rejected |
| `Deliveries.ProposerIsPaid` | ctrlers/account/ctrler.go:112-134 | The proposer has the fees of the block on top, no other account changes; without a proposer none does |
| `Votes.StakesEarnTheirOwners` | ctrlers/stake/ctrler.go:335-361 | Below wrap-around, the stakes of a rewarded delegatee add to the reward of every address the amount per power times the power of its own stakes; who has none there keeps the entry as it is |
| `Votes.VoteEarns` | ctrlers/stake/ctrler.go:202-219 | A vote rewards if and only if it is signed, the version has its validator and the powers agree; then every owner earns by own power |
| `Votes.BlockEarns` | ctrlers/stake/ctrler.go:172-261 | The start of a block adds to the reward of every address exactly what its own stakes earn by the votes |
| `Votes.EvidenceSlashes` | ctrlers/stake/ctrler.go:149-171 | Evidence slashes a delegatee by the ratio of the parameters as often as it names it, in any order, and touches nothing else |
| `Votes.VoteMarks` | ctrlers/stake/ctrler.go:202-261 | A signed vote changes rewards alone; a missing one is a missed block of its validator alone |
| `Votes.MissBlockStops` | ctrlers/stake/ctrler.go:220-260 | A validator is gone after a missed block if and only if more than window minus minimum of its missed blocks, this one included, lie in the window; otherwise it keeps stakes and powers and the block is marked |
| `Votes.MissedRunStops` | ctrlers/stake/ctrler.go:220-260 | Over any run of missed blocks from no marks, whatever is pruned: a validator is there if and only if at none of them too many of the missed blocks lay in the window, and then has all it had |
| `ChainRuns.FinishLaw` | node/app.go:499-590 | EndBlock and Commit never fail; every owner is paid their due committed stakes, the due hashes are gone, all else is committed, and coins are accounted for |
| `ChainRuns.CoinsAreAccountedFor` | ctrlers/stake/ctrler.go:113-812 | Over every run from InitChain: balances, 10^18 times active and frozen power, and rewards equal those of genesis plus issued minus slashed, overwritten, collided and unpaid; rewards equal issued minus withdrawn; no (sender, nonce) executes twice |
| `StakeLives.DeliveredAdvances` | ctrlers/stake/ctrler.go:113-672 | Whatever a block does before its end: a hash other than that of genesis stands for one stake at most, comes up only if it was never used, and what is frozen under it stays as it is |
| `StakeLives.ExecuteMoves` | ctrlers/stake/ctrler.go:512-634 | The same for one executed transaction |
| `StakeReturns.BlockRefunds` | ctrlers/stake/ctrler.go:687-703 | A block retires the hashes it refunds, never brings back a retired one, and keeps all other frozen stakes as they are |
| `StakeReturns.RefundPaysBack` | ctrlers/stake/ctrler.go:687-703 | The block that refunds a stake raises the balance of its owner by 10^18 times its power, besides their other due stakes |
| `StakeReturns.UnstakedComesBack` | ctrlers/stake/ctrler.go:572-703 | Over every run from InitChain: a stake whose unstake a block carries out was the sender's; its power comes back to them as coins LazyRewardBlocks later, at the earliest in the next block, and no other block of the run refunds it |
| `StakeReturns.StoppedComesBack` | ctrlers/stake/ctrler.go:220-260 | The same for every stake of a validator that a vote stops |
| `Collisions.FreezeTakes` | ctrlers/stake/ctrler.go:607-618 | Freezing stakes puts the powers of the genesis stakes among them one after the other in the one place they have, and loses what was there |
| `Collisions.BlockSlots` | ctrlers/stake/ctrler.go:113-703 | What a block loses by genesis stakes: if it refunds the one frozen before, all that it freezes; otherwise all that was in the place but the last |
| `Collisions.GenesisStakesCollide` | node/app.go:202-211 | Over every run from InitChain freezing never creates power, and loses some if and only if a block freezes a genesis stake while another one with power is frozen, freezes several with power, or freezes one with power in the block that refunds the one before |
| `Incidents.TwoValidatorsLoseOne` | node/app.go:202-211 | Two genesis validators that unstake in the first block: the power of the first one is lost, that of the second one is frozen |
| `Incidents.SecondStakeOverwrites` | ctrlers/stake/ctrler.go:528-570 | A validator that unstakes and stakes twice in the first block: the power of its first new stake is lost |
| `ChainTracking.BlockSettles` | ctrlers/stake/ctrler.go:786-804 | A block, the first one included, leaves nothing pending in the delegatees |
| `ChainTracking.TraceIsSettled` | ctrlers/stake/ctrler.go:87-812 | In every run from InitChain nothing is committed before the first block, and after each block the delegatees are sound, committed, have ordered marks and the keys of their addresses |
| `ChainTracking.ConsensusFollowsChain` | ctrlers/stake/ctrler.go:715-765 | Over every run from InitChain the consensus engine, which begins with the genesis validators, knows the last validators with their powers and the genesis validators never selected; it agrees with the controller if and only if each of them has been selected some time |
| `ChainTracking.RewardsLookFourBlocksBack` | ctrlers/stake/ctrler.go:187-200 | From block 5 on, block h rewards the delegatees as committed at block h - 4 |
| `ChainTracking.FirstRewardsLookAt` | ctrlers/stake/ctrler.go:187-200 | Block 1 rewards nobody, blocks 2 and 3 look at block 1, and block 4, which asks for version 0, at block 3 |
| `DelegateeKeys.BlockKeepsKeyed` | ctrlers/stake/ctrler.go:528-570 | A block keeps the public key of every delegatee the key of its address, if signatures verify only under the sender's key |
| `NativeBlocks.NativeBlockConserves` | node/trx_executor.go:105-294 | Over a block of transfers, documents, proposals and votes, self-transfers included, the sum of balances is the same after the payout |
| `StakeCtrlers.StakeCtrler.DoPunish` | ctrlers/stake/ctrler.go:280-291 | New ledgers and reported slash are those of the specification |
| `StakeCtrlers.StakeCtrler.DoRewardTo` | ctrlers/stake/ctrler.go:335-361 | The loop over stakes issues the rewards of the specification and never reaches the height panic |
| `StakeCtrlers.StakeCtrler.FreezeStakes` | ctrlers/stake/ctrler.go:253-256 | The loop freezes all stakes |
| `StakeCtrlers.StakeCtrler.CountMissed` | ctrlers/stake/delegatee.go:237-244 | Marked and pruned heights and their number in the window |
| `StakeCtrlers.StakeCtrler.MissedVote` | ctrlers/stake/ctrler.go:220-260 | New ledgers after a missed vote, with or without the stop of the validator |
| `StakeCtrlers.StakeCtrler.DoVotes` | ctrlers/stake/ctrler.go:202-261 | The loop over votes does what the specification does, and keeps the marks in order |
| `StakeCtrlers.StakeCtrler.ExeStakingTrx` | ctrlers/stake/ctrler.go:528-570 | New accounts, ledger and result |
| `StakeCtrlers.StakeCtrler.ExeUnstakingTrx` | ctrlers/stake/ctrler.go:572-634 | New ledgers and result |
| `StakeCtrlers.StakeCtrler.InitLedger` | ctrlers/stake/ctrler.go:87-110 | The loop sets the delegatees of genesis |
| `StakeCtrlers.StakeCtrler.ExeWithdrawTrx` | ctrlers/stake/ctrler.go:636-672 | New reward, account and result; where the account refuses, the reward as last committed |
| `StakeCtrlers.StakeCtrler.UnfreezingStakes` | ctrlers/stake/ctrler.go:687-703 | The loop pays and removes the due stakes in order, and stops at an owner without account |
| `StakeCtrlers.StakeCtrler.CollectDelegatees` | ctrlers/stake/ctrler.go:117-138 | The collected list is that of the committed delegatees with enough self power, sorted by power |
| `StakeCtrlers.StakeCtrler.UpdateValidators` | ctrlers/stake/ctrler.go:715-728 | The updates and the remembered validators are those of the tracking step |
| `StakeCtrlers.StakeCtrler.Commit` | ctrlers/stake/ctrler.go:786-812 | All three ledgers are committed; it fails if and only if their versions differed, and the reward hash moves on at multiples of the interval |
| `Validators.SelectionIsUnique` | ctrlers/stake/ctrler.go:126-138 | Whatever order the delegatees are collected in and however the sort is done, the selection is the same |
| `Validators.SelectionIsStrongest` | ctrlers/stake/ctrler.go:767-784 | min(N, eligible) members, none weaker than one left out, total power maximal over all choices of at most N |
| `Validators.SelectionBreaksTies` | ctrlers/stake/delegatee.go:343-354 | Of delegatees with the same power the one with more stakes is chosen, then the one with the greater address |
| `Validators.ValidatorUpdates` | ctrlers/stake/ctrler.go:730-765 | The two-index loop computes the merge of the specification |
| `Validators.UpdatesReplace` | ctrlers/stake/ctrler.go:730-765 | Applying the updates replaces the existing validators by the new ones and touches no other |
| `Validators.UpdatesAreDue` | ctrlers/stake/ctrler.go:730-765 | No duplicate, no unchanged entry, and only current members are removed |
| `Validators.EligibleIsGood` | ctrlers/stake/ctrler.go:126-138 | Sound delegatees with at least one unit of self power have distinct addresses and positive power |
| `Validators.AdvanceTracks` | ctrlers/stake/ctrler.go:715-728 | One block: the engine follows, from whatever else it knows, and the selection is remembered |
| `Validators.ConsensusFollows` | ctrlers/stake/ctrler.go:715-765 | Over every run of blocks the engine has exactly the last validators with their powers and what it began with that was never selected |
| `Validators.EngineAgreesExactly` | ctrlers/stake/ctrler.go:715-765 | It has the last validators and no other if and only if all that it began with have been selected some time |
| `Validators.ZeroPowerIsLost` | ctrlers/stake/ctrler.go:749-751 | The engine has a new validator with its power if and only if the power is not 0 |
| `Limiters.CheckKeeps` | ctrlers/stake/limiter.go:116-198 | A check keeps the list sorted with the same addresses; a rejected one changes nothing if the request leaves no negative power; an accepted one stays within the ratio |
| `Limiters.RejectionLeavesUnchangedExactly` | ctrlers/stake/limiter.go:116-198 | When a rejected check changes the limiter: if and only if all limits are met and the request takes more than the total power of a tracked delegatee |
| `Limiters.RejectionCanChange` | ctrlers/stake/limiter.go:116-198 | A concrete such request; ValidateTrx does not make one |
| `Limiters.UnstakeAsksWithin` | ctrlers/stake/ctrler.go:466-479 | An unstake asks a sound delegatee for no more than it has, so a rejected one changes nothing |
| `Limiters.SimulatedCheckRefusesExactly` | ctrlers/stake/ctrler.go:443-479 | A request that would be accepted is refused after an accepted simulated check if and only if that one moved the same tracked delegatee or both together are over the ratio |
| `Limiters.ExchangedIs` | ctrlers/stake/limiter.go:116-181 | What counts as exchanged, by membership in the top alone: what a validator gives up, or all it had when one outside is then stronger; the power of the weakest validator when one outside gets stronger than that; else nothing |
| `Limiters.AcceptsExactly` | ctrlers/stake/limiter.go:99-198 | A request is accepted if and only if the delegatee stays below the next percent of all power with it, its power is as tracked, and all exchanged power stays below the next percent of the base |
| `Limiters.ResetTracks` | ctrlers/stake/limiter.go:67-88 | A reset takes the power of the first maxVals as base and tracks every delegatee with its power |
| `Limiters.ChecksStayWithinLimit` | ctrlers/stake/limiter.go:67-198 | Over any checks after a reset: updated power within the ratio of the base, at least what was unstaked from the top, list sorted with the same addresses |
| `Limiters.ChecksTrackPower` | ctrlers/stake/limiter.go:116-181 | The tracked power of a delegatee is that of the reset plus all accepted changes |
| `Limiters.ResetStartsRun` | ctrlers/stake/limiter.go:67-88 | A reset over delegatees in power order meets the invariant |
| `Limiters.StakeLimiter.Reset` | ctrlers/stake/limiter.go:60-88 | The loop builds list and base of the specification |
| `Limiters.StakeLimiter.CheckIndividualPowerLimit` | ctrlers/stake/limiter.go:99-114 | Accepts exactly what the specification accepts |
| `Limiters.StakeLimiter.CheckUpdatablePowerLimit` | ctrlers/stake/limiter.go:116-181 | New state and result of the specification |
| `Limiters.StakeLimiter.CheckLimit` | ctrlers/stake/limiter.go:183-198 | New state and result of the specification |
| `Proposals.MajorityIsTwoThirds` | ctrlers/gov/proposal/proposal.go:31-31 | The stored majority is floor(2*total/3) if and only if doubling the total does not wrap |
| `Proposals.VoteKeepsTally` | ctrlers/gov/proposal/proposal.go:70-104 | A first, changed or withdrawn vote keeps the tally exact |
| `Proposals.PunishKeepsTallyExactly` | ctrlers/gov/proposal/proposal.go:106-138 | A punishment keeps the tally exact if and only if it takes no more than the voter has |
| `Proposals.NewIsTallied` | ctrlers/gov/proposal/proposal.go:22-38 | A proposal over distinct validators starts with an exact tally |
| `Proposals.RunsKeepTally` | ctrlers/gov/proposal/proposal.go:70-138 | Through any votes, changed votes and slashes with ratio 0..100 the tally is exact |
| `Proposals.VotersAreIndependent` | ctrlers/gov/proposal/proposal.go:70-138 | The standing of a voter depends only on that voter's own votes and slashes |
| `Proposals.TallyIsExact` | ctrlers/gov/proposal/proposal.go:22-138 | From creation through any events: the votes of an option are the summed remaining power of the voters whose latest vote it is, the total is that of all voters |
| `Proposals.MajorExists` | ctrlers/gov/proposal/proposal.go:147-153 | However the sort breaks ties, an option is picked exactly when some option reaches the majority, and it does reach it |
| `Proposals.MajorityIsMoreThanHalf` | ctrlers/gov/proposal/proposal.go:31-31 | The majority is more than half of the total if and only if the total is 3 or at least 5 |
| `Proposals.MajorityIsUnique` | ctrlers/gov/proposal/proposal.go:147-157 | For such totals an option that reaches the majority is the only one and has more than half of the power |
| `Proposals.SortCanDecide` | ctrlers/gov/proposal/proposal.go:147-157 | For every other total there is a proposal of validators with power, and a run of votes and slashes, after which two results of the sort give different major options |
| `Proposals.SortCannotDecide` | ctrlers/gov/proposal/proposal.go:147-153 | For such totals all results of the unstable sort give the same major option |
| `Proposals.GovProposal.DoVote` | ctrlers/gov/proposal/proposal.go:70-104 | New proposal, or refusal of an address that is no voter |
| `Proposals.GovProposal.DoPunish` | ctrlers/gov/proposal/proposal.go:106-138 | New proposal and returned slash, or refusal |
| `Proposals.GovProposal.UpdateMajorOption` | ctrlers/gov/proposal/proposal.go:147-153 | Options sorted by votes, the first one noted if it reaches the majority |
| `Proposals.GovProposal.SumVotingPowers` | ctrlers/gov/proposal/header.go:55-61 | The loop sums the power of all voters |
| `Governance.ProposalIsStored` | ctrlers/gov/ctrler.go:149-298 | A proposal is stored if and only if a validator sends it to the zero address with an unused hash, a permitted voting period still to come, options of its type and an applying height late enough; with its own terms, the validators as voters without choice, and no votes; nothing else changes |
| `GovernanceRuns.PunishEachRuns` | ctrlers/gov/ctrler.go:122-147 | The evidence of a block runs every open proposal through the slashes |
| `GovernanceRuns.BallotIsStep` | ctrlers/gov/ctrler.go:218-323 | A ballot changes one proposal by one vote, and only from start to end height |
| `GovernanceRuns.DeliverAllLaw` | ctrlers/gov/ctrler.go:149-323 | The transactions of a block run the open proposals through their ballots and add only well-formed proposals that start later |
| `GovernanceRuns.FreezeCloses` | ctrlers/gov/ctrler.go:372-399 | Exactly the ended proposals leave the voting ledger; those with a winner are frozen, all on their committed tallies, in any order |
| `GovernanceRuns.ApplyTakes` | ctrlers/gov/ctrler.go:401-446 | Exactly the due proposals leave the frozen ledger, and the last one that brings parameters decides |
| `GovernanceRuns.CloseIs` | ctrlers/gov/ctrler.go:325-476 | EndBlock and Commit never fail, and what they leave |
| `GovernanceRuns.BlockLaw` | ctrlers/gov/ctrler.go:86-476 | Every block keeps the invariant (one ledger per proposal, exact tallies, parameters in force = stored) and moves each proposal as the life cycle says |
| `GovernanceRuns.ParamsSwitchAtCommit` | ctrlers/gov/ctrler.go:448-476 | The parameters in force move only in Commit, and then equal the ledger's |
| `GovernanceRuns.GreatestHashWins` | ctrlers/gov/ctrler.go:401-446 | Of the parameter proposals applied in one block only the one with the greatest hash takes effect |
| `GovernanceRuns.NothingAppliedNothingChanges` | ctrlers/gov/ctrler.go:469-473 | Without an applied parameter proposal the parameters stay |
| `GovernanceRuns.InitialIsInv` | ctrlers/gov/ctrler.go:73-84 | The state that InitLedger makes, with the parameters in force and pending, meets the invariant |
| `GovernanceRuns.TraceKeepsInv` | ctrlers/gov/ctrler.go:86-476 | The invariant holds at every block boundary of every run |
| `GovernanceRuns.FrozenIsAppliedOnce` | ctrlers/gov/ctrler.go:401-446 | A frozen proposal is applied at exactly one height |
| `GovernanceRuns.ProposalLifeCycle` | ctrlers/gov/ctrler.go:372-476 | In every run an open proposal is closed at end + 1 on the tally committed at its end height, and applied exactly once, at max(applying height, end + 2), if that tally has a winner, otherwise never |
| `GovernanceCtrlers.GovCtrler.DoPunish` | ctrlers/gov/ctrler.go:122-147 | The loops over the voter's proposals do what the specification does |
| `GovernanceCtrlers.GovCtrler.ExecProposing` | ctrlers/gov/ctrler.go:268-298 | The stored proposal, with voters and total from the loop over validators |
| `GovernanceCtrlers.GovCtrler.ExecVoting` | ctrlers/gov/ctrler.go:300-323 | The stored vote, or the refusal |
| `GovernanceCtrlers.GovCtrler.FreezeProposals` | ctrlers/gov/ctrler.go:372-399 | The loop does what the specification does, and reports its error |
| `GovernanceCtrlers.GovCtrler.ApplyProposals` | ctrlers/gov/ctrler.go:401-446 | The loop does what the specification does, and reports its error |
| `GovernanceCtrlers.GovCtrler.EndAndCommit` | ctrlers/gov/ctrler.go:325-476 | EndBlock and Commit as one step of the specification |
| `StateDBs.RevertAtOnceRestoresExactly` | ctrlers/vm/evm/statedb.go:210-232 | Reverting a snapshot just taken restores the accesses if and only if none is marked beyond its id |
| `StateDBs.AccessBeforeSnapshotIsForgotten` | ctrlers/vm/evm/ctrler.go:170-173 | An access before the first snapshot is forgotten by its revert |
| `StateDBs.RevertRestores` | ctrlers/vm/evm/statedb.go:186-232 | Under any nesting a revert restores the accesses and the database to those of the snapshot |
| `StateDBs.FailedTrxChangesNothing` | ctrlers/vm/evm/ctrler.go:170-204 | A failed contract transaction writes nothing back; only empty accounts are added |
| `StateDBs.FinishGivesBack` | ctrlers/vm/evm/statedb.go:56-72 | Every accessed account gets the nonce and balance of the database and keeps name and document; no other changes |
| `StateDBs.UntouchedAccountIsKept` | ctrlers/vm/evm/ctrler.go:170-204 | A successful contract transaction changes no account that its run neither writes to nor moves coins from or to, accessed or not and whatever was reverted |
| `StateDBs.WriteBackMovesByDrift` | ctrlers/vm/evm/statedb.go:56-72 | Writing back moves the sum of balances by exactly what the copies differ from the accounts |
| `StateDBs.SuccessfulTrxMovesByFlow` | ctrlers/vm/evm/ctrler.go:170-204 | A successful one moves the sum of balances by exactly what has flowed into accessed addresses, reverted flows left out |
| `StateDBs.SuccessfulTrxConserves` | ctrlers/vm/evm/ctrler.go:170-204 | A successful one whose run moves coins only between accessed addresses keeps the sum of balances |
| `StateDBs.StateDBWrapper.AddAccessedObjAddr` | ctrlers/vm/evm/statedb.go:191-204 | New state after an access |
| `StateDBs.StateDBWrapper.DoPrepare` | ctrlers/vm/evm/statedb.go:45-54 | New state after the preparation |
| `StateDBs.StateDBWrapper.Snapshot` | ctrlers/vm/evm/statedb.go:229-232 | New id and state |
| `StateDBs.StateDBWrapper.RevertAccessedObjAddr` | ctrlers/vm/evm/statedb.go:215-227 | The two loops leave the addresses marked up to the snapshot |
| `StateDBs.StateDBWrapper.RevertToSnapshot` | ctrlers/vm/evm/statedb.go:210-213 | New state after a revert to a valid snapshot |
| `StateDBs.StateDBWrapper.DoFinish` | ctrlers/vm/evm/statedb.go:56-72 | The loop writes back exactly the accessed addresses, in any order, and forgets them |

## Left out

- Storage, codecs and cryptography: the tree is a map with a version, items are values, sign bytes are what they encode, a signature is what it signs.
- The EVM itself, its gas, code and storage; contract transactions are in the model only through the wrapper's bookkeeping. What the EVM does to the database is arbitrary.
- Transfers to accounts with code, which go to the EVM: receivers have no code in the model.
- Sharing of item objects between ledger layers: ledger items are values, so a change to an item that has been read and not set is not modelled. Account objects are shared, in AccountCtrler.
- Sharing of the backing array between `allDelegatees` and the new validators while they are sorted: lists are values; the final sort by power restores the shared part.
- The wrap-around of nonces at 2^64 and of heights and powers at 2^63, other than in `AmountToPower`, the majority, the slash of a voter and the heights of a proposal.
- The answers of governance and limiter inside `Chains.Tx` are inputs: coins are accounted for whatever they are. Governance and limiter are modelled on their own.
- Chains.Deliver: a panic of `AmountToPower`, which stops the program, is a failed run.
- Conservation.UnfreezeRefunds: the order of the tree is any order of the keys, which covers the order of the tree.
- The simulation path of the controllers (CheckTx) and queries; the ledger's simulation layer itself is modelled.
- Restart of the node: the validator tracking is for one uninterrupted run from genesis.
- StakeCtrlers.StakeCtrler.Commit: the hashes that it returns and stores are not modelled, only the version that the reward hash is from.
- Mutexes, asynchronous execution, events, logging, error texts, RPC, commands, wallets: no state that the results speak of.
- The unused `MemLedger`, `ImmuAcctCtrler`, `SimpleLedger.Commit`, `Reward.Slash`, and getters: they would only add easy members.
