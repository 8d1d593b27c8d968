# QuarkChain core, modelled in Dafny

QuarkChain runs one root chain above many shard chains. Root blocks confirm minor blocks and carry
cross-shard deposits from one shard to another. This project models the parts of the Go node that hold
that system together and proves what they promise:

* **Cross-shard delivery** (`Cursor`, `Delivery`, `RunDelivery`, `Rewards`). The resumable cursor over root block,
  minor header and deposit yields, along any chain of minor blocks, a gap-free and duplicate-free prefix of one flat
  sequence, wherever the gas limit stopped each block. Over whole runs a root reward is paid once, on the shard that
  owns its key.
* **Execution** (`Ledger`, `Transition`, `Execution`, `Effects`, `Mining`, `Replay`). What a message, a deposit and a
  block leave behind is a function of what they find and of the virtual machine, and what that means account by
  account is proved apart from how messages are made up. Execution has one outcome, and a block built by a miner
  is executed by everybody to the miner's state.
* **Money** (`Conservation`, `Cluster`, `NeighborLoss`, `Fees`, `Minting`). A
  message, a deposit and a block create and lose no tokens but for the block reward; every unit of gas bought is
  charged, refunded or carried away. Whatever blocks arrive at a cluster, in any order, the supply of every
  token changes by exactly the rewards of the blocks taken, less the deposits of shards that stop being
  neighbours before they are confirmed.
* **Fork choice** (`BlockTree`, `TxIndex`, `MinorChain`, `ShardTip`, `RootChain`, `Confirmation`). The shard's
  tip stays on the root tip's chain above the confirmed block, canonical and transaction indexes follow
  every reorganisation, the root head is the heaviest block, and what a root chain confirms of a shard is
  one linked chain from height 0.
* **Transaction pool** (`Nonces`, `TxLists`, `PoolState`, `TxPool`). The nonce map with heap and cache refines
  a plain map, the lookup is the disjoint union of pending and queued lists after every operation, and
  eviction is fair.
* **Serializer** (`BigEndian`, `Serializer`, `RoundTrip`, `Buffers`). Exactly the well-formed values come back
  from their encoding, with whatever follows it left untouched.
* **Shard keys and token names** (`ShardKeys`, `TokenCodec`).

Code that updates state in the source is a class or a loop here, proved against functions on values;
theorems over whole chains and runs are lemmas about those functions or methods that take any list of
steps. Verify everything with `dafny verify dfyconfig.toml`.

## How the model reads the source

* A cluster follows one root chain, and each shard one chain of minor blocks; forks are the subject of the fork
  choice modules. Shards may start at different root heights; their allocations count from the start.
* Hashes are injective: a hash stands for one block, transaction or header. Block stores are maps from
  hashes to blocks whose parents are stored one height below.
* The virtual machine is a function of the world state that keeps token totals and returns no more gas than
  it got (`Transition.VmOk`); an account without code is one that calls only move their value to (`Effects.Codeless`).
  Proof-of-work, signatures, PoSW stakes and header-only checks are parameters.
* One step of a chain is one critical section of its lock. `AddRootBlock` is two steps, since its first part
  runs before the lock, and any other step may come in between.
* Integers are unbounded except where the width is part of the behaviour: 64-bit intrinsic gas, 32-bit heights
  in history keys, 64-bit token numbers, the widths of encoded lengths and integers, 32-bit shard keys.
* A panic, a missing-value dereference or an exit of the process is an error result.

## Where the code does less than one would expect

Each of these has its exact condition in the project, and where it helps a concrete witness.

* A root chain that forks at the shard's genesis root height makes `AddRootBlock` start over from another
  genesis block. The tip is already at height 0 when `setHead(0)` is asked to delete what is above it, so
  canonical entries above 0 stay (`StaleAfterGenesisFork`). The index is exact after a commit if and only if this
  does not happen above height 0.
* Such an entry can cost tip safety later. When a heavier root block confirms a block above the tip that the
  entry names, `AddRootBlock` takes it for canonical and does not switch to it. `CommitRootBlock` proves that this
  is the only way: after a switch the tip descends from the confirmed block if and only if the confirmed block is
  not above the tip and named. `MisledAfterGenesisFork` is a run that ends below its confirmed block. The tip is
  on the root tip's chain in every case, so `ErrNotSameRootChain` is never returned there.
* The root chain's `reorg` deletes nothing. Entries above the head exist exactly when some earlier head was
  higher (`ExactIndex`, `StaleAboveHead`).
* `AddRootBlock` asks for neighbours at the header's previous root block, the cursor at the root block itself.
  Up to 32 shards all are neighbours, and the number of shards only grows, so neighbours can be lost with growing
  height but not gained (`NeighborsAreOnlyLost`). When the 33rd shard is initialized in between, the cursor passes
  over a list it was sent and the money in it is lost. `RootConserves` and `ConservationOverRuns` give the
  exact amount, `NothingLostBySize` says when it is zero, and `NeighborLossHappens` is a run from genesis that loses
  all it sends.
* A shard created after root height 0 may not know the root block a neighbour's header was mined on. `AddRootBlock`
  accepts the header without a list, and the cursor then dereferences the missing root block. That is the only
  way an accepted root block becomes unreadable (`AcceptedBlockReadable`, `UnknownRootFaults`).
* A transaction that fails after its gas was bought has lost the gas money, and one that pays in another token
  also what the conversion moved (`TransitionDb`, `ApplyTransaction`). The reserve of a deposit that arrives before
  activation is lost (`ReserveIsStranded`).
* A miner does not undo a pending transaction that fails after its gas was bought, so its state can differ from what
  the block leads to (`FailedAttemptIsNotUndone`). If every failure comes before the purchase, it does not
  (`MinedBlockIsAccepted`).
* A refund rate above 100 creates money (`ExcessIffOverRate`). Deposits that arrive before EVM activation strand
  their gas reserve, and a zero gas price waives the target's share before the fix height (`TransferAcross`).
* `txList.Filter` does nothing once one token is covered (`FilterAffordable`, `SecondTokenShields`).
* Not every value survives the serializer: negative fixed-size integers, lists of empty structs at the end of
  the input, widths outside 1 to 4, and others (`RoundTripExactly`, `NotRead`).
* A shard size of 0 passes the power-of-two test; keys lie in their branch exactly for sizes 1 to 2^15
  (`SizeLimitExact`).
* A root block that confirms a minor block mined off its own chain is refused, but it has been stored by then
  (`PrepareRootBlock`).

## Model

| member | source | states |
|---|---|---|
| BlockTree.IsSameChain | core/common.go:15-37 | walking parents down from the longer chain finds the shorter block exactly when it is what the path holds at its height |
| BlockTree.OnChainOf | core/minorblockchain_addon.go:378-390 | the test is true exactly for the block itself and its ancestors, and false for a higher block |
| BlockTree.BuiltOn | core/minorblockchain_addon.go:400-409 | a block not stored yet is built on a lower block exactly when that is an ancestor of its parent |
| BlockTree.BlockByHeight | core/minorblockchain.go:1680-1691 | the block found at a height is the one on the path; none above the block or for an unknown one |
| BlockTree.Descend | core/minorblockchain.go:1403-1416 | the blocks from a head down to just above a height, and the block there |
| BlockTree.CollectChains | core/minorblockchain.go:1403-1445 | for any two blocks of a tree, the two lists are both chains from the top down to their highest common block, or to both genesis blocks if those differ |
| BlockTree.AncestorAt | core/common.go:15-37 | being an ancestor is being met on the way down at one's own height |
| ShardKeys.TopBitIsShift | common/utils.go:60-62 | shifting 1 by the leftmost-bit count less one gives the highest set bit |
| ShardKeys.BranchRoundTrip | account/branch.go:23-59 | chain, shard size and shard id can be read back from the branch built from them |
| ShardKeys.OneBranchPerKey | account/branch.go:45-51 | among all branches of one size a key lies in exactly the one its full shard id names |
| ShardKeys.SizeLimitExact | common/utils.go:55-57 | of the sizes the power-of-two test accepts, exactly 1 to 2^15 put every key into the branch of its full shard id |
| ShardKeys.OversizedBranch | common/utils.go:55-57 | larger powers of two put key 0 into another chain |
| ShardKeys.WellFormedParts | account/branch.go:28-42 | a well-formed branch is the join of its own parts |
| ShardKeys.KeyInBranchLands | account/address.go:65-70 | moving an address into a branch lands in it, and changes exactly the addresses outside it |
| ShardKeys.LookupIsPartition | cluster/config/cluster_config.go:393-401 | the configuration names a shard for a key exactly when the key lies in that shard's branch |
| ShardKeys.LookupFindsShard | cluster/config/cluster_config.go:393-401 | every key of a configured chain is found in a configured shard |
| ShardKeys.NeighborSymmetric | account/neighbor.go:15-26 | sender and receiver agree on being neighbours |
| ShardKeys.NeighborsInChain | account/neighbor.go:15-26 | beyond 32 shards, shards of one chain are neighbours exactly if their ids are a power of two apart |
| ShardKeys.NeighborsAcross | account/neighbor.go:15-26 | beyond 32 shards, shards of different chains are neighbours exactly if they have the same id and the chains are a power of two apart |
| Cursor.NeighborsAreOnlyLost | cluster/config/cluster_config.go:269-277 | a neighbour at a root height is one at every lower height |
| Cursor.RestStep | core/xshard_tx_cursor.go:104-174 | what lies ahead of a position is the next deposit of its list and what lies ahead of that, or what the next header starts |
| Cursor.XShardTxCursor.constructor | core/xshard_tx_cursor.go:43-65 | rebuilt from a saved position, the cursor has exactly ahead of it what the position had |
| Cursor.XShardTxCursor.GetCurrentTx | core/xshard_tx_cursor.go:67-102 | the deposit at the position: the reward of the root block, an element of the list, the end, or an error; a reward goes to the root block's coinbase, in the genesis token, for the full amount exactly in the branch that has its key |
| Cursor.XShardTxCursor.GetNextTx | core/xshard_tx_cursor.go:104-174 | yields the first event ahead and leaves the rest ahead; an end only when nothing is ahead, an error only at a fault; at a coinbase position the deposit is the reward of the root block there; always terminates |
| Cursor.XShardTxCursor.NextDeposit | core/xshard_tx_cursor.go:104-119 | within a list the next deposit is the next index; at its end what lies ahead starts at the next header |
| Cursor.XShardTxCursor.NextHeader | core/xshard_tx_cursor.go:121-158 | the same from a header on: skips shards that are no neighbours, too early and empty lists |
| Cursor.XShardTxCursor.NextRootBlock | core/xshard_tx_cursor.go:160-173 | the same from the next root block on, starting with its coinbase |
| Delivery.StreamAppend | core/xshard_tx_cursor.go:104-174 | the flat sequence of a longer root chain is that of the shorter one followed by that of the new blocks |
| Delivery.Resume | core/xshard_tx_cursor.go:43-65 | a position saved on a root chain and resumed on an extension has just the new blocks more ahead |
| Delivery.StreamIncreasing | core/xshard_tx_cursor.go:176-186 | saved positions grow lexicographically with every deposit |
| Delivery.PositionsDistinct | core/xshard_tx_cursor.go:176-186 | no two deposits of the flat sequence have the same position |
| Delivery.RestAgrees | core/xshard_tx_cursor.go:104-174 | storing more root blocks and lists leaves a saved position valid, with the same deposits ahead of it |
| Delivery.RunSeenLater | core/minorblockchain_addon.go:1806-1845 | what one block delivered, seen on a later store and a longer root chain, is still what separates its two positions |
| Delivery.ChainDelivery | core/minorblockchain_addon.go:1806-1845 | along a chain of minor blocks, with root blocks and lists stored in between, what lay ahead at the start is what all blocks delivered and then what still lies ahead |
| Delivery.ExactlyOnceDelivery | core/minorblockchain_addon.go:1806-1845 | from a shard's genesis, the deposits delivered by any chain of minor blocks, on a store that grows from block to block, are a prefix of the flat sequence of its root chain, each position once, in strictly growing order |
| RunDelivery.RunDelivers | core/minorblockchain_addon.go:1806-1845 | over any run of a system, what lay ahead of a shard at the start is what the run delivered on it and what lies ahead at the end |
| RunDelivery.ExactlyOnceInRuns | core/minorblockchain_addon.go:1806-1845 | along every run from genesis, whatever is executed and confirmed in between, what each shard has delivered is a prefix of its flat sequence, each position once, in strictly growing order |
| Rewards.RewardsReachOwners | core/xshard_tx_cursor.go:67-94 | along every run from genesis, what a shard has delivered to an account as root rewards is exactly the coinbases for it of the root blocks its cursor has passed whose keys the shard owns |
| Rewards.EarlyGains | core/state_processor.go:271-285 | before activation an account's balance rises, while deposits arrive and summed over all blocks of a shard, by exactly the rewards and transfers delivered to it and its shares as a miner |
| Rewards.RewardsAreGained | core/xshard_tx_cursor.go:67-94 | over every run from genesis before activation, an account gains on a shard while deposits arrive exactly the coinbases for it that the shard owns, what other shards sent it and its shares as a miner |
| Delivery.RootBlockReadable | core/xshard_tx_cursor.go:120-158 | the cursor reads a root block without a fault exactly when every header is skipped or has just the list expected of it |
| Delivery.AcceptedIsReadable | core/minorblockchain_addon.go:1023-1045 | an accepted header is readable exactly if its shard is no neighbour at the root block's height or its previous root block is known |
| Delivery.AcceptedBlockReadable | core/minorblockchain_addon.go:1023-1045 | an accepted root block is read without a fault exactly if no neighbour's header in it was mined on an unknown root block |
| Delivery.UnknownRootFaults | core/xshard_tx_cursor.go:134-135 | a concrete header of another chain, mined on an unknown root block, that AddRootBlock accepts and the cursor cannot read |
| Ledger.TotalPlus | core/state_transition.go:168-181 | changing one account's balance changes the total of that token by as much and no other |
| Ledger.MulRateAtMost | common/utils.go:123-128 | a share at a proper rate, rounded down, is at most the whole |
| Ledger.WithinRateKept | core/state_transition.go:421-434 | charging one more fee keeps the miner's fees within the local rate of fees and tax |
| Ledger.StateDB.AddBalance | core/state_transition.go:264-287 | one account gains the amount; what the shard accounts for grows by it |
| Ledger.StateDB.SubBalance | core/state_transition.go:168-181 | one account loses the amount; what the shard accounts for shrinks by it |
| Ledger.StateDB.AppendXShardList | core/state_transition.go:366-366 | a deposit sent stays accounted for with everything it carries |
| Transition.IntrinsicGas | core/state_transition.go:91-125 | fails exactly when the data's gas exceeds 64 bits, else is that gas plus the target's share, modulo 2^64 |
| Transition.FitsByDivision | core/state_transition.go:103-117 | the division test refuses exactly the counts whose gas does not fit |
| Transition.ExcessIffOverRate | core/state_transition.go:264-287 | a refund pays out more than it refunds exactly when its rate exceeds 100 by a whole unit |
| Transition.StateTransition.BuyGas | core/state_transition.go:168-181 | fails exactly for too little balance or block gas; else the sender alone pays the gas, in the gas token |
| Transition.StateTransition.PreCheck | core/state_transition.go:183-194 | passes exactly with the right nonce and enough balance and block gas, and then the gas is bought |
| Transition.StateTransition.StartGas | core/state_transition.go:210-227 | an error after the purchase has lost exactly the gas money, one before it nothing; else what is left is the gas bought less the intrinsic gas |
| Transition.StateTransition.Refund | core/state_transition.go:264-287 | the sender gets the part its rate allows and the zero address the rest; the total refunded is accounted for, up to the excess of a rate above 100 |
| Transition.StateTransition.RefundGas | core/state_transition.go:289-307 | adds the refund counter, at most half of the gas used, and refunds all gas left |
| Transition.StateTransition.ChargeFee | core/state_transition.go:421-434 | the miner gets the floored local share, the rest is withheld tax, and together they are the fee |
| Transition.StateTransition.SendDeposit | core/state_transition.go:334-407 | the sender alone loses the value, and one deposit carries value, share and reserve away |
| Transition.StateTransition.SettleCrossShard | core/state_transition.go:408-418 | refund, charge and what is sent away make up the gas bought |
| Transition.StateTransition.AddCrossShardTxDeposit | core/state_transition.go:319-419 | fails exactly if the sender lacks the value, and sends nothing exactly if the sender may not transfer; else exactly one deposit that carries the message; the balances after it, the gas charged, refunded, sent and counted, and the fee; only sender, miner and zero address change; the reserve travels exactly for creations or after activation |
| Transition.StateTransition.RunVm | core/state_transition.go:232-245 | balances, nonces, world, refund counter, gas left and answer are the machine's, or a refusal for a barred sender; totals are kept, no gas is gained, and the sender's nonce goes up by one, by call or by creation |
| Transition.StateTransition.Execute | core/state_transition.go:232-261 | fails exactly if the machine cannot transfer the value; else the gas refunded is the machine's gas left and, if it succeeded, its refund counter up to half of the gas used; the rest is charged, the balances are the machine's with refund and fee settled, and nonces and world are the machine's |
| Transition.StateTransition.TransitionDb | core/state_transition.go:199-262 | succeeds exactly for accepted messages: nonce due, gas bought, intrinsic gas covered, and the value there; then balances, nonces, world, deposits sent, gas charged, refunded, counted and left in the block, fee and failure are those of the message's effect, what the shard accounts for changes just by gas money bought and spent, and the nonce goes up by one; a failed message loses the gas money exactly if the gas was bought, and else changes nothing |
| Transition.StateTransition.ExecuteCall | core/state_transition.go:232-261 | a call or creation has exactly its effect, and charge and refund make up the gas bought |
| Transition.StateTransition.Send | core/state_transition.go:228-231 | a message to another shard has exactly its effect, with the nonce used up |
| Execution.PayNativeTokenAsGas | core/state_processor.go:199-216 | succeeds exactly if the contract knows a price and has the reserve; then it gives up the converted gas money and takes what the sender will pay |
| Execution.ApplyTransaction | core/state_processor.go:192-248 | succeeds exactly if its price can be converted and its message is accepted; then balances, nonces, world, gas, deposits sent and fees are those of its effect, the shard's account of every token is unchanged and the nonce goes up by one; a failed one takes away exactly the gas money bought and what a conversion moved, and one turned away before it pays for gas changes nothing |
| Execution.ApplyMessage | core/state_processor.go:218-248 | the same for a message whose gas is bought in one token and spent in another |
| Execution.ApplyCrossShardDeposit | core/state_processor.go:250-321 | fails exactly if, after activation, the machine cannot transfer the value; a delivered deposit adds exactly what it carried, and leaves the state, gas and fee of its effect: after activation what the machine makes of a call from its sender, credited with the value, to its recipient, settled; before it the recipient gets the value, the miner the share, and the reserve is stranded |
| Execution.ApplyByEvm | core/state_processor.go:286-320 | after activation the machine is called on the sender's credited balance, the gas the deposit carried is charged or refunded, and the state is what the machine leaves, settled |
| Execution.CreditBeforeEvm | core/state_processor.go:271-285 | who is credited with what before activation, account by account |
| Execution.ApplyNext | core/minorblockchain_addon.go:1819-1843 | one turn of the loop delivers the first deposit ahead of the cursor, leaving what the deposit's effect leaves; it fails exactly at a fault or a deposit that cannot be applied |
| Execution.RunCrossShardTxWithCursor | core/minorblockchain_addon.go:1806-1845 | deposits applied and position saved form a run of the cursor, each deposit applied on what the one before left; it ends at the chain's end or with the first deposit that reaches the gas limit, applies at least one if any is ahead, overshoots the limit by less than one deposit, and all money delivered has arrived; it fails exactly at the next event, which it cannot get past |
| Execution.RestProtocol | core/xshard_tx_cursor.go:67-102 | everything ahead of a cursor was made by a shard or a root block, with its gas in the genesis token |
| Execution.AddReward | core/state_processor.go:91-96 | the miner is credited with every token of the reward |
| Execution.Process | core/state_processor.go:63-99 | all transactions are applied in order, each on what the one before left, from the state given to the state the last one leaves plus the reward, and each uses up one nonce of its sender; the deposits sent and the fees are theirs; a block fails exactly at the first transaction that is invalid or cannot be applied there |
| Execution.RunBlock | core/minorblockchain_addon.go:580-611 | the result is the end of a trail from the parent's state: the deposits the cursor yields up to the gas limit, then the transactions, then the reward, each on what came before; for every token, balances after, deposits sent and tax withheld are the balances before, deposits delivered and the reward; a refused block got exactly to the event or transaction that fails |
| Execution.ApplyAll | core/state_processor.go:76-89 | transactions are applied one on the state of the other up to the first that fails |
| Effects.PlainTransfer | core/state_transition.go:199-262 | on any machine, a transfer to an account without code gives the recipient the value, takes it and the price of the intrinsic gas from the sender, gives the miner the local share, uses one nonce, and touches nobody else |
| Effects.PlainSend | core/state_transition.go:319-419 | a cross-shard transaction of a sender that may transfer sends one deposit with its recipient, value, data and gas, and takes from the sender the value, the gas due on both shards and the gas taken along |
| Effects.BarredSend | core/state_transition.go:328-332 | a recent miner whose stake would be touched sends nothing, and loses all the gas it bought |
| Effects.EarlyDelivery | core/state_processor.go:271-285 | before activation every deposit raises its recipient's balance by its value, the miner gets the share, and nothing but balances changes |
| Effects.PlainDelivery | core/state_processor.go:286-320 | after activation, on any machine, a deposit to an account without code is delivered and raises its balance by the value; the sender gets back the gas taken along, the miner the share |
| Effects.TransferArrives | core/state_processor.go:250-321 | a cross-shard transfer over both shards: the recipient gains the value, the sender loses it and the price of the gas due, each miner gets its share, nobody else is touched |
| Effects.TxRuns | core/state_processor.go:192-248 | whatever the machine does, an in-shard transaction is one call with the transaction's fields, on the state after the gas is paid for, and leaves what the machine leaves, settled |
| Effects.DeliveryRuns | core/state_processor.go:286-306 | the same for a deposit after activation: one call with the deposit's fields, on the state with its sender credited |
| Effects.ConversionMoves | core/state_processor.go:199-216 | a conversion takes the converted gas money from the native-token contract and gives it what the sender will pay, and touches nobody else |
| Effects.RewardedAt | core/state_processor.go:91-96 | a block reward goes to the miner and to nobody else |
| Effects.EarlyArrivals | core/minorblockchain_addon.go:1806-1845 | before activation, when a block's deposits have arrived, every account has gained exactly what they brought it, and the miner its shares |
| Effects.CountersReset | core/state_transition.go:289-307 | the refund counter is zero before and after every message of a block |
| Effects.PlainVmIsOk | core/evm.go:86-96 | there is a machine as the model asks for, on which no account has code |
| Replay.OneOutcome | core/minorblockchain_addon.go:580-611 | a block that once went through is never refused from the same state, and always takes the same way |
| Replay.NonceRises | core/state_transition.go:228-240 | a transaction that applies uses up exactly one nonce of its sender |
| Replay.IncludedChain | core/minorblockchain_addon.go:810-872 | the transactions a miner included form a chain of their own from the first state to the last, if every other one it tried was turned away |
| Replay.MinedBlockIsAccepted | core/minorblockchain_addon.go:899-983 | if everything the miner tried either applied or was turned away before it paid for gas, and what it included is valid, no node refuses the block, and each ends in the miner's state with its deposits and fees |
| Execution.ReadableNotRefused | core/minorblockchain_addon.go:580-611 | before activation a block without transactions is refused only for an unreadable header |
| Mining.AddTransactionsToBlock | core/minorblockchain_addon.go:810-872 | whatever is pending, exactly the transactions that applied are included, in order, each on what came before; one that is not tried or turned away changes nothing; it stops early only when the gas is used up, and stays within the limit |
| Mining.TryTransaction | core/minorblockchain_addon.go:826-867 | included exactly if its gas fits, it is minable and it applies; what it leaves in each case |
| Mining.FailedAttemptIsNotUndone | core/minorblockchain_addon.go:838-867 | a concrete pending transaction with too little gas that is not included but takes the money for its gas out of the miner's state |
| Mining.CreateBlockToMine | core/minorblockchain_addon.go:899-983 | the block holds the cursor's deposits up to the cross-shard limit and the transactions that applied, and the miner's state is theirs plus the reward; in-shard transactions use at most the gas limit less the cross-shard limit, and deposits exceed the cross-shard limit by less than one deposit's gas |
| Mining.TransferAcross | core/state_processor.go:259-306 | a cross-shard message leaves exactly if accepted and not barred, and always arrives before activation; gas charged and refunded at both ends never exceeds the gas bought, and equals it exactly under a condition on the message and the two activation flags |
| Mining.ReserveIsStranded | core/state_processor.go:271-285 | a concrete transfer that arrives with less gas settled than was bought |
| Conservation.SharesAddUp | cluster/slave/conn_manager.go:175-207 | the lists sent to the shards together carry exactly what a block sent |
| Conservation.FollowsPath | core/minorblockchain_addon.go:420-431 | the path of a root block a shard knows is the root chain from the shard's genesis height on |
| Conservation.GenesisIsValid | core/genesis.go:85-98 | the system before its first root block is valid |
| Conservation.ExecKeepsValid | cluster/shard/api_backend.go:353-390 | executing a block keeps every shard's root chain, saved position, balances and stored lists in order |
| Conservation.ExecConserves | cluster/slave/conn_manager.go:107-133 | executing a block on any shard and broadcasting its deposits adds just its reward to the system's supply of every token |
| Conservation.BroadcastReached | cluster/slave/conn_manager.go:107-133 | a neighbour's block that the cursor reads was broadcast to the shard exactly if it was mined after the shard's genesis |
| Conservation.HeadersInflow | core/xshard_tx_cursor.go:121-158 | what a shard reads from the headers of a root block is its share of the confirmed blocks, less what it passes over |
| Conservation.RootAccepted | core/minorblockchain_addon.go:1023-1045 | every shard holds just the lists AddRootBlock asks for, so none refuses the root block |
| Conservation.RootKeepsValid | core/minorblockchain_addon.go:993-1077 | adding a root block keeps the system in order |
| Conservation.RootConserves | core/xshard_tx_cursor.go:121-131 | adding a root block moves confirmed deposits on and adds just the root reward, less the deposits that shards pass over; the supply is kept exactly if no list passed over holds money |
| Conservation.NothingLost | core/xshard_tx_cursor.go:121-131 | a root block loses nothing if every shard a confirmed block was broadcast to is still its neighbour |
| Conservation.NothingLostBySize | account/neighbor.go:15-26 | in particular if the 33rd shard is not initialized between the root blocks mined on and this one |
| Conservation.ConservationOverRuns | core/minorblockchain_addon.go:1806-1845 | over every interleaving of block executions and root blocks, balances plus deposits on their way plus withheld tax and stranded gas, less over-refunds, change exactly by the rewards of the run less what was lost, so they are conserved exactly if nothing was lost |
| Conservation.FewShardsConserve | account/neighbor.go:15-18 | with at most 32 shards no run loses anything |
| NeighborLoss.ReceiverIsLost | account/neighbor.go:15-26 | of 33 chains, a shard that is a neighbour at root height 1 and not at height 2 |
| NeighborLoss.NeighborLossHappens | core/xshard_tx_cursor.go:125-131 | for every amount, a run from genesis that delivers what is ahead, sends the amount to that shard and loses all of it |
| Cluster.ReadyToRun | core/minorblockchain_addon.go:580-611 | in a valid system a shard's tip meets everything RunBlock asks for |
| Cluster.Cluster.constructor | core/genesis.go:50-98 | a cluster starts from its genesis allocations |
| Cluster.Cluster.Execute | core/minorblockchain_addon.go:580-611 | running a block on a shard's tip takes the trail of RunBlock from the tip's balances, nonces and world, makes progress and conserves every token, or names what failed |
| Cluster.Cluster.AddMinorBlock | cluster/shard/api_backend.go:353-390 | a block is executed by RunBlock on its shard's tip, stored and broadcast as one step of the system, and the tip has the state at the end of its trail; else nothing changes, and it did not fit the tip, the next event ahead or its next transaction failed, or a deposit was for a shard it is not broadcast to |
| Cluster.Cluster.AddRootBlock | core/rootblock_validator.go:95-171 | a root block is taken exactly if its headers passed the validator, it is next on the root chain and confirms executed blocks, each once; every shard that has started learns of it |
| Cluster.Cluster.Receive | cluster/shard/api_backend.go:353-390 | a block that arrives is taken as the step it stands for, or turned down for a reason with nothing changed |
| Cluster.Cluster.Run | cluster/shard/api_backend.go:353-390 | whatever blocks arrive, in any order, each is taken as the step it stands for or turned down for a reason, the cluster goes through a run of the system, and the supply of every token changes exactly by the rewards taken less what was lost |
| Fees.CalculateRootBlockCoinBase | core/rootblockchain.go:1234-1260 | the floored share of what the confirmed blocks paid, per token, plus the base reward; fails exactly for an unknown minor block |
| Fees.AddTokens | core/rootblockchain.go:1242-1248 | token maps add up token by token |
| Fees.ScaleTokens | common/utils.go:123-128 | every entry is scaled by the rate and rounded down |
| Fees.SharesWithinRate | core/state_transition.go:421-428 | floored miner shares stay within the local rate of all fees |
| Fees.RootShareWithinTax | core/rootblockchain.go:1234-1260 | minting the root share of rewards and fees never creates more than the rewards' share and the tax withheld |
| Fees.FeeSplitNeverInflates | cluster/config/cluster_config.go:238-241 | for any tax rate below 1, the miners' floored shares and the root miner's floored share of them never exceed the fees charged |
| Fees.EarnedAddsUp | core/rootblockchain.go:1234-1250 | what confirmed blocks paid is their rewards and fees, and fees and tax together keep to the local rate |
| Fees.RootBlockCoinbase | core/rootblockchain.go:1234-1260 | the coinbase computed over executed blocks is at most the share of their rewards, the base reward and the tax they withheld |
| Minting.BookIsRecorded | core/rootblockchain.go:1234-1250 | executed blocks meet what the coinbase computation relies on |
| Minting.RootBooked | core/rootblockchain.go:1234-1260 | a computed coinbase mints at most the root share of the confirmed rewards, the base reward and the tax of the confirmed blocks, which leaves the book |
| Minting.MintedAtMost | cluster/config/cluster_config.go:238-241 | over every run with computed coinbases, what is minted is at most block rewards, root shares of rewards, base rewards and the tax withheld |
| Minting.OtherTokens | core/rootblockchain.go:1234-1260 | of other tokens exactly the block rewards are minted |
| Minting.RootCoinbase | core/rootblockchain.go:1234-1260 | the computed coinbase is the one the bound is about; fails exactly for a block not in the book |
| TxIndex.KeyRoundTrip | core/minorblockchain_addon.go:1405-1457 | a history key decodes to the height, kind and index it was made from, modulo 2^32 |
| TxIndex.Uint32RoundTrip | common/utils.go:131-148 | a 32-bit number is read back from its bytes |
| TxIndex.KeysDisjoint | core/minorblockchain_addon.go:1726-1785 | blocks at different heights index different keys |
| TxIndex.KeysOfPrefix | core/minorblockchain_addon.go:1757-1792 | removing the keys of the upper blocks of a chain leaves exactly the keys of the lower ones |
| TxIndex.LookupOfPrefix | core/minorblockchain_addon.go:1478-1494 | removing the hashes of the upper blocks leaves exactly the lookups of the lower ones |
| TxIndex.LookupFinds | core/minorblockchain_addon.go:1459-1476 | without repeated hashes, every hash of a canonical block is found at that block and position |
| TxIndex.HistoryIsExact | core/minorblockchain_addon.go:1726-1784 | the history of an address on a chain is exactly the transactions from it or to it on this shard and the deposits to it but empty rewards; that of all is all transactions, and all deposits but root rewards |
| MinorChain.KeysForBlock | core/minorblockchain_addon.go:1726-1785 | the loops over transactions and deposits gather exactly the keys of the block |
| MinorChain.PutLookups | core/minorblockchain_addon.go:1459-1476 | adds exactly the block's entries |
| MinorChain.DropLookups | core/minorblockchain_addon.go:1478-1494 | removes exactly the block's hashes |
| MinorChain.MinorIndex.DropChain | core/minorblockchain.go:1465-1473 | taking blocks off removes exactly their heights, keys and lookups |
| MinorChain.MinorIndex.Insert | core/minorblockchain.go:545-551 | the block is the head and is filed at its height |
| MinorChain.MinorIndex.PutTxIndexFromBlock | core/minorblockchain_addon.go:1459-1476 | the block's keys and entries are added, keys only with history on |
| MinorChain.MinorIndex.InsertChain | core/minorblockchain.go:1482-1490 | putting blocks on, lowest first, files exactly their heights and gives the keys and lookups of the whole chain |
| MinorChain.MinorIndex.Reorg | core/minorblockchain.go:1372-1490 | for every tree and pair of heads, also rewinds and different genesis blocks, the index holds the new chain up to its head and above it exactly what was above the old head; an exact index stays exact; history keys and lookups follow |
| MinorChain.MinorIndex.SetHead | core/minorblockchain.go:994-1019 | filing a block on its indexed parent gives the index of its chain, exact if it was exact |
| ShardTip.MinorBlockChain.constructor | core/minorblockchain_addon.go:329-367 | a shard starts valid at its genesis block |
| ShardTip.MinorBlockChain.IsMinorBlockLinkedToRootTip | core/minorblockchain_addon.go:400-409 | true exactly if nothing is confirmed or the block is built above the confirmed tip |
| ShardTip.MinorBlockChain.UpdateTip | core/minorblockchain_addon.go:158-185 | the tip moves exactly to preferred blocks; which is for the better, see InsertBlock |
| ShardTip.MinorBlockChain.PreferredIsLinked | core/minorblockchain_addon.go:158-185 | a preferred block is built on the confirmed tip, if the tip is or the block does not extend the tip |
| ShardTip.MinorBlockChain.WriteBlock | core/minorblockchain_addon.go:118-156 | storing a block moves no tip and no path |
| ShardTip.MinorBlockChain.MoveTip | core/minorblockchain.go:994-1019 | the new tip keeps all invariants and the indexes are its chain's |
| ShardTip.MinorBlockChain.InsertBlock | core/minorblockchain.go:915-1022 | storing a validated block keeps every invariant; it becomes the tip exactly if preferred, which keeps tip safety, and restores it unless the block extends the tip; the tip's height, and with equal height that of its root block, never falls and is at least that of the block, if it is mined on the root tip's chain and built on the confirmed tip; all indexes follow |
| ShardTip.BestKept | core/minorblockchain_addon.go:158-185 | one more step that commits no root block leaves the tip at least as good as every eligible block inserted so far |
| ShardTip.MinorBlockChain.PutRootBlock | core/minorblockchain_addon.go:420-431 | storing a root block with its last confirmed header keeps every invariant |
| ShardTip.MinorBlockChain.InitGenesisState | core/minorblockchain_addon.go:329-367 | a further genesis root block and its genesis block are stored, exactly at the genesis root height; no tip moves |
| ShardTip.MinorBlockChain.StoreGenesis | core/minorblockchain_addon.go:329-367 | storing a further genesis root block and its genesis block changes neither tip nor index |
| ShardTip.MinorBlockChain.CollectHeaders | core/minorblockchain_addon.go:1012-1022 | this shard's headers in order, or none exactly if the block of one is missing |
| ShardTip.MinorBlockChain.CheckRootBlock | core/minorblockchain_addon.go:993-1071 | accepts exactly admissible root blocks and finds the last header confirmed up to them; accepted ones hold no more of this shard's headers than allowed, all stored, the first on top of what the parent confirmed |
| ShardTip.MinorBlockChain.CheckLists | core/minorblockchain_addon.go:1023-1045 | accepts exactly if every other shard's header has a list where it must and none where it must not |
| ShardTip.MinorBlockChain.PrepareRootBlock | core/minorblockchain_addon.go:993-1077 | stores exactly new, admissible root blocks of version 0 for whose foreign headers just the lists that have to be are stored; ready only if what it confirms was mined on its own chain |
| ShardTip.MinorBlockChain.StartAtConfirmed | core/minorblockchain_addon.go:1101-1112 | the confirmed block becomes the tip exactly if the index does not name it; the tip then descends from it unless it was falsely named |
| ShardTip.MinorBlockChain.NamedMeansAncestor | core/minorblockchain_addon.go:1102-1103 | up to the tip's height, asking the index at a block's height is asking for an ancestor of the tip; with an exact index at any height |
| ShardTip.MinorBlockChain.ForkMeans | core/minorblockchain_addon.go:1101-1130 | with an exact index nothing is falsely named; without a false name only a shard with nothing confirmed starts over |
| ShardTip.MinorBlockChain.Rewind | core/minorblockchain_addon.go:1114-1143 | ends at the highest block mined on the root tip's chain, so never below a confirmed one; finds none exactly if there is none |
| ShardTip.MinorBlockChain.GenesisFor | core/minorblockchain_addon.go:1116-1130 | the genesis block made for the root block the chain starts with |
| ShardTip.MinorBlockChain.SwitchTip | core/minorblockchain_addon.go:1100-1154 | the tip is on the new root chain; it descends from the confirmed block exactly unless that was falsely named; starts over exactly in a genesis fork; an exact index stays exact exactly unless that happens above height 0 |
| ShardTip.MinorBlockChain.CommitRootBlock | core/minorblockchain_addon.go:1079-1155 | from any reachable state: the root tip is the heaviest accepted root block, and changes exactly to a strictly heavier one; the tip is mined on its chain, the ErrNotSameRootChain return cannot happen; after a switch the tip descends from the confirmed tip exactly unless that is above the old tip and named by a stale entry; and the exact condition for the index |
| ShardTip.MinorBlockChain.SwitchRoot | core/minorblockchain_addon.go:1091-1155 | the same for a heavier root block, counting genesis forks above height 0 and false names |
| ShardTip.MinorBlockChain.Take | core/minorblockchain_addon.go:1076-1155 | every step, also after genesis forks, keeps the tip on the heaviest root chain and the index right up to the tip; tip safety is lost only by committing on a false name, and the whole index only by a genesis fork above height 0 |
| ShardTip.MinorBlockChain.Run | core/minorblockchain_addon.go:1076-1155 | any interleaving of inserts, genesis blocks and the two parts of AddRootBlock, without stopping at genesis forks: the root tip is heaviest and changes only to a heavier one, the tip is on its chain, the index is right up to the tip; the tip stays above the confirmed tip in every run that commits on no false name, and the whole index stays right in every run without a genesis fork above height 0; in a run without a commit the tip is the old one or a block inserted, its height never falls, and no eligible block inserted is better |
| ShardTip.StaleAfterGenesisFork | core/minorblockchain_addon.go:1114-1139 | a concrete run after which a block is canonical above the head |
| ShardTip.MisledAfterGenesisFork | core/minorblockchain_addon.go:1101-1139 | a concrete run that ends with the tip below the confirmed block |
| RootChain.TotalIsWork | core/rootblock_validator.go:59-65 | a block's total difficulty is the sum of the difficulties on its path |
| RootChain.ExactIndex | core/rootblockchain.go:797-883 | the index has nothing above the head exactly when no head was ever higher |
| RootChain.RootBlockChain.Insert | core/rootblockchain.go:323-332 | the block is the head and is filed at its height |
| RootChain.RootBlockChain.InsertChain | core/rootblockchain.go:855-863 | putting blocks on, lowest first, indexes the whole chain |
| RootChain.RootBlockChain.Reorg | core/rootblockchain.go:797-883 | never fails, and the index holds the new chain at every height up to its head |
| RootChain.RootBlockChain.ChooseHead | core/rootblockchain.go:453-497 | the head changes exactly to a block with more work, or equal work and less height |
| RootChain.RootBlockChain.Adopt | core/rootblockchain.go:470-497 | the index moves over to a block and it becomes the head |
| RootChain.RootBlockChain.ValidateBlock | core/rootblock_validator.go:35-173 | accepts exactly acceptable blocks and keeps the right latest headers for them; all headers accepted are validated, no younger than the block, mined on its own chain, and not too many of a shard |
| RootChain.RootBlockChain.WriteBlockWithState | core/rootblockchain.go:445-499 | the head stays heaviest, lowest among the heaviest, and indexed |
| RootChain.RootBlockChain.AddBlock | core/rootblockchain.go:561-688 | one import: rejected exactly if not acceptable; a block stored confirms no header younger than itself or mined off its own chain; the head's total difficulty never falls |
| RootChain.RootBlockChain.AddBlocks | core/rootblockchain.go:561-688 | over any run of imports exactly the blocks that fit when they come are stored, the head's total difficulty is its chain's work, is maximal and never falls, the index equals its path, every block's latest headers are right, and no root block confirms a header younger than itself, mined off its own chain, of an uninitialized shard, or beyond a shard's limit |
| RootChain.StaleAboveHead | core/rootblockchain.go:797-883 | a concrete run that leaves an entry above the head |
| Confirmation.ConfirmedHeights | core/rootblock_validator.go:156-168 | the i-th header confirmed for a shard has height i and names the one before as parent |
| Confirmation.ShardStep | core/rootblock_validator.go:156-168 | one shard's headers of a root block extend its confirmed chain |
| Confirmation.ConfirmStep | core/rootblock_validator.go:95-171 | a validated root block keeps every shard's confirmed headers one chain from height 0, with the latest header at its end |
| Confirmation.OrderedStep | core/rootblock_validator.go:108-119 | comparing with the header just before decides whether headers are ordered by shard and linked within each |
| Confirmation.GroupHeaders | core/rootblock_validator.go:95-124 | accepts exactly known, timely, ordered and linked headers, and sorts them by shard |
| Confirmation.CheckPrevRoots | core/rootblock_validator.go:125-132 | accepts exactly if every previous root block is on the chain extended |
| Confirmation.CheckShard | core/rootblock_validator.go:141-166 | the checks on one shard's headers |
| Confirmation.CheckShards | core/rootblock_validator.go:140-169 | in whatever order shards are visited, accepts exactly if all are fine, and advances just their latest headers |
| Confirmation.ValidateHeaders | core/rootblock_validator.go:95-171 | all header checks together, and the latest headers after the block |
| Confirmation.HeadersLawful | core/rootblock_validator.go:95-154 | headers that pass all checks are validated, no younger than the root block, mined on its own chain and within the limits of their shards |
| Confirmation.LawfulAfter | core/rootblock_validator.go:95-154 | storing such a root block keeps every stored one lawful: its headers' previous root blocks are ancestors below it |
| Nonces.FlatUnique | core/tx_list.go:203-216 | the nonce-sorted view is unique |
| Nonces.FlatCap | core/tx_list.go:127-148 | cutting the sorted view after k gives the views of the k lowest and of the others |
| Nonces.TxSortedMap.Put | core/tx_list.go:73-79 | the plain map update |
| Nonces.TxSortedMap.Forward | core/tx_list.go:84-98 | keeps exactly nonces from the threshold on, returns the others sorted, and slicing the cache keeps it right |
| Nonces.TxSortedMap.Filter | core/tx_list.go:102-123 | keeps exactly what the filter lets pass and returns each of the others once |
| Nonces.TxSortedMap.Cap | core/tx_list.go:127-148 | keeps exactly the lowest nonces, returns the others highest first, and slicing the cache keeps it right |
| Nonces.TxSortedMap.Remove | core/tx_list.go:152-169 | removes exactly one nonce if it is there |
| Nonces.TxSortedMap.Ready | core/tx_list.go:178-193 | takes out exactly the lowest gap-free run, if it starts no higher than asked for |
| Nonces.TxSortedMap.Flatten | core/tx_list.go:203-216 | returns exactly the sorted contents, cached or not |
| TxLists.GapFreeParts | core/tx_list.go:341-352 | both parts of a gap-free list cut at a nonce are gap-free |
| TxLists.GapFreeCap | core/tx_list.go:334-336 | a capped gap-free list is gap-free |
| TxLists.CutPartition | core/tx_list.go:285-287 | cutting at a nonce or after k splits a list in two |
| TxLists.CapSize | core/tx_list.go:127-148 | how many are kept and dropped |
| TxLists.CapTwice | core/tx_list.go:127-148 | capping twice is capping once |
| TxLists.RunIsExecutable | core/tx_list.go:361-363 | the run popped one by one is the set of executable transactions |
| TxLists.FilterPartition | core/tx_list.go:298-330 | kept, unpayable and invalidated transactions partition the list |
| TxLists.FilterAffordable | core/tx_list.go:298-305 | what is kept is affordable exactly if the short cut was not taken or all was affordable before |
| TxLists.OneToken | core/tx_list.go:298-305 | with a single token what is kept is always affordable |
| TxLists.SecondTokenShields | core/tx_list.go:299-304 | a concrete list that keeps an unpayable transaction |
| TxLists.FilterGapFree | core/tx_list.go:316-329 | a filtered strict list stays gap-free |
| TxLists.FilterCapped | core/tx_list.go:306-307 | the caps keep bounding every cost and gas |
| TxLists.TxList.Add | core/tx_list.go:251-273 | inserted exactly into a free place or at a price that is higher and higher by the bump |
| TxLists.OutbidsIff | core/tx_list.go:251-260 | a transaction outbids another exactly if its price is higher, and short of the raised price by less than one unit |
| TxLists.TxList.Forward | core/tx_list.go:285-287 | as on the nonce map |
| TxLists.TxList.Cap | core/tx_list.go:334-336 | as on the nonce map |
| TxLists.TxList.Remove | core/tx_list.go:341-352 | a strict list keeps exactly what is below and returns exactly what is above |
| TxLists.TxList.IsCovered | core/tx_list.go:299-304 | finds the short cut exactly if one token and the gas are covered |
| TxLists.TxList.Filter | core/tx_list.go:298-330 | the list, its caps and both returned lists are those of the specification |
| TxLists.TxList.Ready | core/tx_list.go:361-363 | returns exactly the executable transactions, sorted |
| PoolState.TakePending | core/tx_pool.go:722-761 | taking transactions out of a pending list into hand keeps the books balanced |
| PoolState.ReplacePending | core/tx_pool.go:494-510 | replacing a pending transaction keeps the books balanced |
| PoolState.LevelIsFair | core/tx_pool.go:1118-1148 | cutting accounts down to one level that no other exceeds is fair |
| PoolState.TrimOne | core/tx_pool.go:1133-1133 | lists capped step by step have lost only their highest nonces |
| PoolState.CountTxs | core/tx_pool.go:1100-1103 | adds up the lengths of all lists |
| TxPool.LookupIsUnion | core/tx_pool.go:1369-1423 | the lookup is the disjoint union of pending and queued transactions, and no nonce is in both |
| TxPool.Pool.EnqueueTx | core/tx_pool.go:530-551 | queued exactly if it outbids what is there, and one taken from a pending list always is; the list and the lookup after it |
| TxPool.Pool.PromoteTx | core/tx_pool.go:557-587 | the place is always free, so it is always inserted; the list after it |
| TxPool.Pool.RemoveTx | core/tx_pool.go:722-761 | forgets exactly the transaction asked for; pending ones above it go back to the queue, and the next nonce is no higher than the one removed |
| TxPool.Pool.RemoveFromPending | core/tx_pool.go:736-752 | what is below stays pending, what is above is queued, and just one is forgotten |
| TxPool.Pool.RemoveFromQueue | core/tx_pool.go:754-760 | one queued transaction is forgotten, and a list that gets empty is deleted |
| TxPool.Pool.ReplaceTx | core/tx_pool.go:494-510 | takes the place of a pending transaction exactly if it outbids it; the list and the lookup after it |
| TxPool.Pool.MakeRoom | core/tx_pool.go:485-491 | forgets exactly the hashes given up |
| TxPool.Pool.AddTx | core/tx_pool.go:459-525 | each result exactly when: known, invalid, underpriced in a full pool, else by what is pending or queued under its nonce after room was made: replaced or queued exactly if it outbids that, the lists and the lookup after it; a pool with room gives up nothing but a cheaper one it replaces; its sender becomes local exactly if it is queued as local |
| TxPool.Pool.Place | core/tx_pool.go:493-525 | a new transaction replaces a pending one, or else a queued one, exactly if it outbids it; what it replaces has its nonce and a lower price |
| TxPool.Pool.DropUnexecutable | core/tx_pool.go:1050-1063 | gives up only old or unpayable transactions |
| TxPool.Pool.PromoteReady | core/tx_pool.go:1065-1073 | exactly the executable transactions move from the queue to the pending list, and nothing left in the queue is at or below the next nonce |
| TxPool.NoneLeft | core/tx_pool.go:1065-1073 | once what is executable is taken out, nothing is left at or below the next nonce |
| TxPool.Pool.CapQueue | core/tx_pool.go:1075-1084 | exactly the lowest nonces stay queued |
| TxPool.Pool.PromoteAccount | core/tx_pool.go:1040-1094 | the queue loses old and unpayable transactions, the executable ones become pending, the rest is capped; nothing else is given up, and nothing left could be executed next |
| TxPool.Pool.PromoteExecutables | core/tx_pool.go:1040-1094 | the same over any accounts, and the queues of all others stay as they are |
| TxPool.Pool.DemoteAccount | core/tx_pool.go:1222-1264 | old and unpayable transactions are given up, invalidated ones and all above a gap are queued, and what stays starts at the account's nonce |
| TxPool.Pool.DemoteUnexecutables | core/tx_pool.go:1222-1264 | the same for all accounts; nothing old gets into a queue |
| TxPool.Pool.CapOne | core/tx_pool.go:1131-1144 | one account loses the transaction with its highest nonce, and its next nonce is no higher |
| TxPool.Pool.Round | core/tx_pool.go:1130-1145 | every account of a level group loses its highest nonce, nobody else anything |
| TxPool.Pool.Equalize | core/tx_pool.go:1129-1146 | rounds end within the limit or at the threshold, keep the accounts level, and overshoot by less than one round |
| TxPool.Pool.NextOffender | core/tx_pool.go:1119-1147 | earlier offenders go down to the next one's level, or the pool is within its limit and the cut was fair |
| TxPool.Pool.CutToSlots | core/tx_pool.go:1150-1170 | the last phase ends within the limit or with every account at its slots |
| TxPool.Pool.TruncatePending | core/tx_pool.go:1099-1171 | ends within the limit or with all accounts that are not local at or below their slots; cuts none below its slots and no local; no account keeps more than one that was cut; only highest nonces go; overshoots by less than one round over distinct accounts |
| TxPool.Pool.DropTop | core/tx_pool.go:1210-1215 | drops the highest nonces |
| TxPool.Pool.DropAll | core/tx_pool.go:1203-1206 | empties one account's queue and no other |
| TxPool.Pool.TruncateQueue | core/tx_pool.go:1177-1217 | ends within the limit or with only locals left, never drops more than needed, leaves locals and pending lists alone |
| TxPool.Pool.RunReorg | core/tx_pool.go:866-914 | both kinds of lists are within their limits, every pending list has a last transaction, one below the next nonce; after a new head every pending list starts at its account's nonce and nothing old is queued, and what was reinjected was added one by one |
| TxPool.Pool.Run | core/tx_pool.go:459-1264 | over any run of operations the books stay balanced and all lists non-empty, and every operation does what it is for: adds, removes, promotes, demotes, truncates, or follows the new head |
| BigEndian.NatOfFixed | serialize/serializer.go:267-292 | a number that fits its width is read back from its bytes |
| BigEndian.MinimalLength | serialize/serializer.go:107-118 | how many bytes a big integer takes |
| BigEndian.PadMinimal | serialize/serializer.go:73-86 | padding the shortest form gives the fixed form |
| RoundTrip.EncSize | serialize/serializer.go:35-63 | an encoding has the size its value calls for |
| RoundTrip.BigIntSurvives | serialize/serializer.go:107-118 | big integers come back exactly if they are not negative and have at most 255 bytes |
| RoundTrip.UintSurvives | serialize/serializer.go:267-292 | unsigned integers of 1, 2, 4 or 8 bytes come back |
| RoundTrip.VarUintSurvives | serialize/serializer.go:284-287 | integers of platform size come back |
| RoundTrip.ByteSliceSurvives | serialize/serializer.go:161-170 | byte slices come back exactly if their length fits a width of 1 to 4 |
| RoundTrip.ByteArraySurvives | serialize/serializer.go:130-144 | byte arrays come back |
| RoundTrip.FixedSurvives | serialize/utils.go:23-43 | fixed-size integers come back exactly if addressable and in range |
| RoundTrip.StringSurvives | serialize/serializer.go:232-241 | strings come back exactly if shorter than 2^32 |
| RoundTrip.PtrSurvives | serialize/serializer.go:243-265 | optional pointers keep nil, others come back as zero values |
| RoundTrip.SliceSurvives | serialize/deserializer.go:179-212 | lists come back exactly if their length fits a width of 1 to 4 and is within the bytes that follow, and all elements do |
| RoundTrip.AllRoundTrip | serialize/deserializer.go:205-211 | elements come back one after the other, each from in front of the rest |
| RoundTrip.FieldsRoundTrip | serialize/deserializer.go:214-228 | fields come back one after the other, each by its own tags |
| RoundTrip.RoundTrip | serialize/deserializer.go:46-74 | for every type, tags, value and suffix: a well-formed value comes back and leaves the suffix; any other fails or comes back different |
| RoundTrip.RoundTripExactly | serialize/deserializer.go:15-40 | a value comes back, normalized, with exactly the suffix left, if and only if it is well-formed |
| RoundTrip.NonEmptyElements | serialize/bytebuffer.go:91-103 | elements of at least one byte keep a list within the bytes that follow |
| RoundTrip.NotRead | serialize/bytebuffer.go:69-106 | concrete values that are not read back |
| RoundTrip.PrefixFree | serialize/serializer.go:11-23 | no encoding of a type is the beginning of another |
| RoundTrip.Stable | serialize/serializer.go:243-265 | what comes back is encoded by the same bytes |
| Buffers.PrefillByteArray | serialize/serializer.go:73-86 | pads on the left, or fails exactly if there are too many bytes |
| Buffers.ListLenBytes | serialize/serializer.go:146-158 | filling bytes from the right gives the length, or fails exactly if it does not fit |
| Buffers.FoldUint64 | serialize/deserializer.go:94-101 | shifting bytes together gives the number modulo 2^64 |
| Buffers.Writer.WriteListLen | serialize/serializer.go:146-158 | appends the length, or fails exactly if it does not fit |
| Buffers.Writer.SerializeBigInt | serialize/serializer.go:107-118 | appends exactly the encoding, or fails exactly for negative integers |
| Buffers.Writer.SerializeFixSizeBigUint | serialize/serializer.go:88-100 | appends exactly the encoding |
| Buffers.Writer.SerializePtr | serialize/serializer.go:243-265 | appends exactly the encoding |
| Buffers.Writer.SerializeList | serialize/serializer.go:173-194 | appends exactly the encodings of the elements |
| Buffers.Writer.SerializeStruct | serialize/serializer.go:196-209 | appends exactly the encodings of the fields |
| Buffers.Writer.Serialize | serialize/serializer.go:35-63 | appends exactly the encoding of the value, or fails exactly where there is none |
| Buffers.ByteBuffer.GetBytes | serialize/bytebuffer.go:23-31 | moves past the bytes read, or stays and fails exactly if there are too few |
| Buffers.ByteBuffer.GetLen | serialize/bytebuffer.go:69-106 | reads a length within the bytes left |
| Buffers.ByteBuffer.GetVarBytes | serialize/bytebuffer.go:108-122 | reads exactly as many bytes as the length says |
| Buffers.ByteBuffer.DeserializeUint | serialize/deserializer.go:94-101 | the bytes read as a 64-bit number |
| Buffers.ByteBuffer.Deserialize | serialize/deserializer.go:46-74 | reads exactly the value decoded and moves just past it |
| Buffers.ByteBuffer.DeserializeList | serialize/deserializer.go:179-212 | reads exactly the elements decoded |
| Buffers.ByteBuffer.DeserializeStruct | serialize/deserializer.go:214-228 | reads exactly the fields decoded |
| TokenCodec.CharRoundTrip | common/token_codec.go:58-76 | letters and digits correspond one to one |
| TokenCodec.TokenCharEncode | common/token_codec.go:58-66 | fails exactly for characters outside 0-9A-Z |
| TokenCodec.TokenCharDecode | common/token_codec.go:68-76 | fails exactly for numbers from 36 on |
| TokenCodec.NameOfValue | common/token_codec.go:31-57 | decoding undoes encoding, for names of any length |
| TokenCodec.ValueOfName | common/token_codec.go:14-29 | encoding undoes decoding, for every number |
| TokenCodec.OrderPreserved | common/token_codec.go:14-29 | names are numbered by length and then letter by letter |
| TokenCodec.LengthLimit | common/token_codec.go:8-12 | names of up to twelve letters are exactly those numbered up to the maximum |
| TokenCodec.TokenIDEncode | common/token_codec.go:14-29 | gives the number of exactly the names of 1 to 12 valid letters, without overflowing 64 bits |
| TokenCodec.TokenIdDecode | common/token_codec.go:31-57 | gives the name of exactly the numbers up to the maximum |
| TokenCodec.ReverseString | common/token_codec.go:78-83 | the letters in reverse |
| TokenCodec.TokenBijection | common/token_codec.go:14-57 | encoding and decoding are inverse to each other between names of 1 to 12 letters and numbers up to the maximum |

## Left out

- The EVM interpreter, system contracts, state trie and database: the machine is a relation, state is maps; minting precompiles and self-destruction are not part of it.
- Hashing, signatures, proof-of-work, PoSW stakes, mining loops, p2p, rpc, master and slave processes, JSON, key store and configuration defaults.
- Availability of state: `StateAt` failures in updateTip, reorg and setHead, and the repair of a missing head state.
- Sidechain import, the future-block queue, receipts, logs, event feeds and statistics.
- setHead-style rewinds that delete bodies, except for the one AddRootBlock asks for, which deletes nothing.
- InitFromRootBlock, reruns of stored blocks and header lists for the master (getAllUnconfirmedHeaderList).
- Most of the minor block validator: only what the chain relies on (height, stored parent, known previous root block) is required of a block.
- Configuration files: shard sizes and genesis root heights are maps given to the model.
- Forks in the money model: a cluster has one root chain and one chain per shard, so deposits of abandoned blocks are not part of it. Batches of synchronized blocks are single blocks.
- A block whose broadcast fails: the source has stored it and sends no header to the master; in the cluster it changes nothing.
- The price heap of the pool, heartbeats and transaction validation: what they say of a transaction is an argument, whatever it is.
- Per-account lists in the pool are values: the pool's use of them in place, and of TxList objects shared between maps, is not captured; TxList itself is a class proved to follow the same functions.
- The binary heap under the nonce map is Go's library; only that its least element comes first is used.
- User-defined Serializable types other than the two fixed-size integers, unexported and ignored fields, recursive Go types, and the difference between nil and empty slices.
- Replay.MinedBlockIsAccepted: one direction only. What a failed attempt costs the miner's state is exact (`TryTransaction`), but the transactions after it meet another state, and an arbitrary machine may lead both back to the same balances.
- Rounding of the tax rate to thousandths: any rational rate below 1 is covered.
- Block and root rewards by epoch and their decay: rewards are given.
