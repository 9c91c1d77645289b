# A Dafny model of the car ledger's core

This project models the parts of `student_18_car` that decide what ends up
on the ledger, and proves properties of them:

- **ByzCoin transactions** (`transaction.dfy`, module `Tx`): instruction
  types, the instruction hash and the derived instance ID, transaction
  results and their hash, state changes, and the per-chain transaction
  buffer.
- **ByzCoin state** (`state.dfy`, module `State`): the state trie as a map
  from instance ID to (value, contract ID, darc ID), and how a state change
  is stored in it.
- **ByzCoin service** (`service.dfy`, module `Service`):
  - `createStateChanges`: runs client transactions on a copy of the trie,
    with the leader's planning mode and the per-chain result cache;
  - `verifySkipBlock`: the follower's recomputation of a proposed block;
  - `AddTransaction`;
  - view-change detection;
  - the leader-rotation window of `withinInterval`.
- **The car contract**, in both copies:
  - `car.dfy`, module `CarContract`, for `car/contracts.go`;
  - `byzcoin_car.dfy`, module `ByzcoinCar`, for `byzcoin/contracts.go`.
- **The event log**:
  - the contract and the search of `eventlog/service.go` (`eventlog.dfy`,
    module `EventLog`);
  - the client transactions of `eventlog/api.go` (`eventlog_api.dfy`,
    module `EventLogApi`).
- **The e-voting election's chain walks** (`election.dfy`, module
  `Election`): the ballot box, the mixes, the partial decryptions, the
  stage and the voter's last ballot.
- **The personhood service's storage** (`personhood.dfy`, module
  `Personhood`): questionnaires, messages, rewards and the
  balance-ordered listings.
- **The darc sign-expression rewriting** that adds or removes a reader or
  garage member:
  - `darc_expr.dfy`, module `DarcExpr`, for `car/darcstructure.go`;
  - `byzcoin_darc_expr.dfy`, module `ByzcoinDarcExpr`, for the older copy
    in `byzcoin/darcstructure.go`.

Supporting modules:

- `Wrappers`: `Option` and `Result`.
- `Bytes`: bytes, little-endian words and zero buffers.
- `GoStrings`: the Go `strings` functions the rewriting uses — `Contains`,
  `Split`, `Replace`, `Trim`, and the prefix and suffix helpers.

## How the model is set up

- **Dafny types for Go types.**
  - A Go `string` is a Dafny `string`.
  - A byte slice is `seq<byte>`.
  - A `uint64` balance is the subset type `u64`. Additions wrap modulo
    2^64, as in Go.
  - A Go panic becomes a `Panicked` contract outcome or an `Err` carrying
    Go's runtime message.
- **Collaborators are parameters.** SHA-256, protobuf encoding and
  decoding, the trie's merkle root, darc signature checking and signing
  are function-typed parameters. They are gathered in the environment
  datatypes (`Ledger`, `CarEnv`, `LogEnv`, `ApiEnv`). Properties that
  depend on them say what they assume, for example "digests are 32 bytes".
- **Go map order is an input.** Go ranges over a map in an unspecified
  order. Where the result depends on it (the personhood listings), the
  order is an explicit parameter `order` listing every key once. The
  predicate `Enumerates` states this. The properties are proved for every
  such order.
- **Time is an input.** The clock is a number of nanoseconds passed in by
  the caller. `Search` reads the clock twice, once for a missing end time
  (eventlog/service.go:46) and once as the end of the latest bucket
  (eventlog/service.go:63). The model folds both readings into one `now`.

### Behaviour worth noting

- **Cache key.** `createStateChanges` writes the result cache under the
  hash of the *output* results (`Service.CacheKeyMismatch`). A batch
  whose accepted flags change during the run is never found in the cache
  again.
- **Atomicity.** The trie is atomic (`Service.ProcessAtomic`), but the
  returned change list keeps the changes of a refused transaction's
  earlier instructions (`Service.RejectedChangesListed`). The output
  coins of those instructions also flow into the next transaction.
- **Instruction hash.** An invoke's command is not hashed
  (`Tx.InvokeHashIgnoresCommand`). Argument names and values are not
  length-prefixed (`Tx.ArgumentsAmbiguous`).
- **Event log spawn** returns no coins.
- **Event log bucket update.** When an event is appended to an existing
  bucket, the update carries an empty darc ID.
- **Removing a member with no `&`.** `removeSignerFromExpr` on an
  expression that names the member but has no `&` indexes past the end of
  the split. The model returns Go's index-out-of-range panic message as
  an error (`DarcExpr.RemoveSignerFromExpr`).

## Model

| member | source | states |
|---|---|---|
| Tx.NewNonce | byzcoin/transaction.go:36-43 | a 32-byte buffer is taken verbatim as the nonce; any other length gives the all-zero nonce |
| Tx.NewInstanceID | byzcoin/transaction.go:48-52 | byte k of the ID is byte k of the input while the input lasts and zero after it |
| Tx.NewInstanceIDRoundTrip | byzcoin/transaction.go:45-52 | converting an instance ID gives it back, and nil gives the configuration key |
| Tx.NewInstanceIDPrefix | byzcoin/transaction.go:48-52 | two inputs of at least 32 bytes give the same ID exactly when their first 32 bytes agree |
| Tx.Search | byzcoin/transaction.go:71-78 | nothing exactly when no argument has the name; otherwise the value of the first argument that has it |
| Tx.GetType | byzcoin/transaction.go:462-472 | spawn, invoke or delete exactly when that is the only action set; invalid exactly when not exactly one is set |
| Tx.ActionRoundTrip | byzcoin/transaction.go:196-207 | the action string determines the instruction type and the spawned contract or invoked command |
| Tx.HashInputBindsHeader | byzcoin/transaction.go:81-107 | equal hash inputs fix the instance ID, the nonce, index and length modulo 2^32, and (for valid instructions) the type |
| Tx.HashIgnoresSignatures | byzcoin/transaction.go:81-107 | replacing the signatures leaves the hash input unchanged |
| Tx.InvokeHashIgnoresCommand | byzcoin/transaction.go:93-95 | two invokes differing only in the command have the same hash input |
| Tx.ArgumentsAmbiguous | byzcoin/transaction.go:100-103 | moving a byte from one argument name into the previous one does not change the hashed bytes |
| Tx.DeriveInputInjective | byzcoin/transaction.go:115-141 | with 32-byte digests and lengths below 2^32, equal derive inputs come only from equal instruction hashes, signature bytes and suffixes |
| Tx.DeriveIDIgnoresSigners | byzcoin/transaction.go:127-132 | the derived ID depends on the signature bytes and not on who signed |
| Tx.InstrHashesInjective | byzcoin/transaction.go:324-330 | with 32-byte digests, the concatenated instruction hashes fix the count and each instruction's hash |
| Tx.NewTxResults | byzcoin/transaction.go:337-343 | one not-accepted result per transaction, in order |
| Tx.NewTxResultsRoundTrip | byzcoin/transaction.go:337-343 | unwrapping the new results gives back the transactions |
| Tx.TxResultsInputInjective | byzcoin/transaction.go:346-360 | with 32-byte digests, the input of the results hash fixes the count, each transaction's instructions hash and each accepted flag |
| Tx.TxResultsInputFlags | byzcoin/transaction.go:346-360 | for the same transactions, the hash inputs agree exactly when all accepted flags agree |
| Tx.ActionCodeRoundTrip | byzcoin/transaction.go:425-431 | Create, Update and Remove are 1, 2 and 3; decoding a code gives back its action, and only 1 to 3 decode |
| State.NewStateChangeStored | byzcoin/transaction.go:364-372 | a Create built by `NewStateChange` for an absent ID is stored, and its value, contract and darc read back unchanged |
| Tx.EncodedChangesAppend | byzcoin/transaction.go:400-411 | the state-changes hash input of a concatenation is the concatenation of the inputs |
| Tx.BufferAdd | byzcoin/transaction.go:498-508 | the transaction is appended to the chain's queue (created if missing); other chains are unchanged |
| Tx.BufferTake | byzcoin/transaction.go:486-496 | returns the chain's whole queue (empty if none) and removes only that chain |
| Tx.BufferAddAllAppends | byzcoin/transaction.go:498-508 | adding several transactions appends them in order and touches no other chain |
| Tx.BufferFifo | byzcoin/transaction.go:486-508 | for a chain with no queue, taking after adding returns exactly the added transactions and gives back the original buffer |
| State.GetAfterStore | car/contracts.go:25-28 | after a stored change, a lookup of its key gives the written entry (or fails after a Remove); every other key reads as before |
| State.ContractIDAfterStore | byzcoin/transaction.go:160-192 | after a stored change, an instruction on its key resolves to the change's contract; after a Remove only the configuration key still resolves; other keys resolve as before |
| State.Store | byzcoin/service.go:967-974 | Create needs an absent key, Update and Remove a present one; on success only that key changes, holding the new entry or removed |
| State.CreateThenRemove | byzcoin/service.go:967-974 | removing what was just created gives back the original trie |
| State.UpdateIdempotent | byzcoin/service.go:967-974 | storing the same update twice equals storing it once |
| State.StoreAllAppend | byzcoin/service.go:856-861 | storing a concatenation is storing the first part, then the second, stopping at the first error |
| State.LoadConfig | byzcoin/service.go:652-658 | key-not-set exactly when the configuration key is absent; found exactly when it belongs to "config" and decodes |
| Service.TxSize | byzcoin/service.go:896-911 | the summed encoded sizes, or MaxInt32 as soon as one result cannot be encoded |
| Service.LoadBlockInfo | byzcoin/service.go:647-660 | the configured interval and size when the configuration loads, otherwise the defaults; an error only when it is present but unreadable |
| Service.ExecuteInstruction | byzcoin/service.go:1019-1042 | succeeds exactly when the instance's contract ID resolves, the contract is registered and it finishes; then its changes and coins are returned |
| Service.RunInstructions | byzcoin/service.go:958-977 | the listed changes always store; on success the resulting trie is the input with them applied |
| Service.RunSplits | byzcoin/service.go:958-977 | after any prefix of instructions that all ran, the loop continues from the prefix's trie and coins, its changes listed after the prefix's |
| Service.RunAllSteps | byzcoin/service.go:958-977 | a transaction is accepted exactly when every instruction executes on the running state and all its changes store; then trie, coins and changes are those of the forward run |
| Service.RunStopsAtFirstFailure | byzcoin/service.go:958-977 | when instruction k is the first to fail (error, unknown contract, recovered panic or failed store), the transaction is refused and the changes and coins are those of instructions 0 to k-1 |
| Service.Advance | byzcoin/service.go:952-1011 | one transaction: its result is appended; changes are always listed; trie, kept changes and size move only if it was accepted |
| Service.Process | byzcoin/service.go:951-1011 | the results extend the initial ones by at most one per transaction, by exactly one each unless planning stopped, and without a timeout it never stops |
| Service.ProcessKeepsOrder | byzcoin/service.go:951-1011 | the k-th new result is about the k-th input transaction |
| Service.ProcessBudget | byzcoin/service.go:993-1010 | the block size grows by the accepted transactions' sizes and in planning mode never exceeds the maximum |
| Service.ProcessStatesGrow | byzcoin/service.go:975 | the change list only grows |
| Service.ProcessAtomic | byzcoin/service.go:949-1011 | the final trie is the input trie with exactly the accepted transactions' changes applied in order |
| Service.ReplayAgrees | byzcoin/service.go:924-1017 | re-running a run's results without timeout reproduces its decisions, trie and accepted changes |
| Service.CreateStateChanges | byzcoin/service.go:924-1017 | a cache hit returns the stored outcome; a miss runs the loop, returns its results and changes, and caches a finished run |
| Service.CreateStateChangesComplete | byzcoin/service.go:924-1017 | without a timeout, on a miss, there is one result per input transaction in order, and the root is that of the input trie with the accepted changes applied |
| Service.PlanningFits | byzcoin/service.go:989-1005 | in planning mode the results are a prefix of the input and the accepted ones fit in the maximum block size |
| Service.FollowerReproducesLeader | byzcoin/service.go:822-836 | a follower recomputing the leader's results reaches the same decisions, root and changes |
| Service.CacheServesOutput | byzcoin/service.go:928-1015 | asking again with the output of a finished run is answered from the cache |
| Service.CacheKeyMismatch | byzcoin/service.go:928-1015 | the cache is written under the output hash, so the input is found only if its hash equals the output's |
| Service.RejectedChangesListed | byzcoin/service.go:959-975 | a transaction whose second instruction fails is refused and its trie discarded, yet its first instruction's change stays in the list |
| Service.IsViewChangeTx | byzcoin/service.go:567-590 | a view exactly for one transaction of one invoke with command "view_change" whose "newview" argument decodes |
| Service.TimestampWindow | byzcoin/service.go:878-881 | four block intervals, but at least ten seconds |
| Service.TimestampOK | byzcoin/service.go:883-890 | accepted exactly when within the window either side of now; within ten seconds always passes |
| Service.RosterCheck | byzcoin/service.go:871-876 | valid exactly when the configured roster is a prefix of the block's; an index panic exactly when the block's roster is a shorter prefix |
| Service.CheckOutcome | byzcoin/service.go:826-890 | valid only if the flags, the three hashes, the new configuration, the roster and the timestamp all check |
| Service.VerifyBlock | byzcoin/service.go:776-894 | accepts only a decodable block with correctly sized hashes, a view change while one is pending, and a recomputation that passes every check |
| Service.LeaderBlockVerifies | byzcoin/service.go:776-894 | a block built from a complete leader run verifies at a follower that misses the cache |
| Service.ChainKey | byzcoin/service.go:263 | the buffer key has the chain ID's bytes, one character each |
| Service.ChainKeyInjective | byzcoin/service.go:263 | different chains get different buffer keys |
| Service.AddTransaction | byzcoin/service.go:217-292 | admitted exactly when the version matches, there are instructions, the ID is a genesis block, the configuration loads and the transaction fits; then it is queued |
| Service.AddTransactionQueues | byzcoin/service.go:248-292 | an admitted transaction is the last one the chain's next take returns, after what was already queued |
| Service.Position | byzcoin/service.go:1228-1237 | -1 exactly when absent; otherwise the first position of the key |
| Service.WithinInterval | byzcoin/service.go:1198-1251 | allowed exactly when the rotation inputs load and now lies strictly inside the slot of a position of at least 1, which is after the first window |
| Service.WithinIntervalExclusive | byzcoin/service.go:1242-1250 | two different roster members are never both allowed at the same moment |
| CarContract.AddLoopSpec | car/contracts.go:92-97 | every "report" argument appends a report decoded over the previous one; the error is that of the last decode |
| CarContract.AddSpec | car/contracts.go:89-99 | the VIN is kept and the reports grow by one per "report" argument; an error exactly when the last decode fails |
| CarContract.SpawnCar | car/contracts.go:32-54 | done exactly for a car contract with a non-empty decodable "car" argument; then one Create of that argument under the derived ID |
| CarContract.InvokeCar | car/contracts.go:56-82 | done exactly for "addReport" on a decodable car whose reports decode and re-encode; then one Update of the instance |
| CarContract.ContractCar | car/contracts.go:15-86 | fails without a valid darc signature or a stored instance; panics on delete or invalid; otherwise spawns or invokes; the coins pass through |
| CarContract.SpawnStoresArgument | car/contracts.go:37-53 | a spawned car is stored verbatim as created, under the derived ID, with the instance's darc, and decodes as a car |
| CarContract.InvokeAppendsReports | car/contracts.go:60-81 | an invoke updates the instance with the stored car plus the new reports, same VIN and darc |
| CarContract.DeleteRejected | car/contracts.go:83-85 | the delete panic is recovered by the service into an error, and the transaction is refused |
| ByzcoinCar.SpawnUnchecked | byzcoin/contracts.go:32-49 | done exactly for a car contract with a non-empty "car" argument, which is stored without decoding |
| ByzcoinCar.ContractCar | byzcoin/contracts.go:15-79 | the same dispatch as the car application's copy, with the unchecked spawn |
| ByzcoinCar.VariantsAgree | byzcoin/contracts.go:36-48 | the two copies differ only on spawns whose argument does not decode as a car, which only this copy stores |
| ByzcoinCar.UndecodableCarRefusesReports | byzcoin/contracts.go:55-61 | an invoke on a stored value that does not decode fails |
| EventLog.LatestBucket | eventlog/service.go:52-59 | no bucket exactly when the instance holds 32 zero bytes; otherwise the bucket its value names |
| EventLog.Walk | eventlog/service.go:61-97 | every collected bucket may overlap the range; nothing when the range starts after the end; a bucket starting before the end is collected first |
| EventLog.Collect | eventlog/service.go:99-124 | at most 10000 events, truncated exactly when the limit is reached, extending what was already collected |
| EventLog.CollectSelects | eventlog/service.go:104-124 | the result is the matching events of all buckets in order, cut at 10000 |
| EventLog.CollectMatches | eventlog/service.go:114-121 | every returned event is in the time range and has the topic |
| EventLog.Search | eventlog/service.go:40-127 | an empty chain ID is an error; an empty log or a start after now answers nothing; at most 10000 events, truncated exactly at the limit |
| EventLog.SearchMatches | eventlog/service.go:114-115 | every found event lies in [from, to) and has the topic when one is given |
| EventLog.SearchSelects | eventlog/service.go:40-127 | the answer is the matching events of the walked buckets, oldest bucket first, cut at 10000 |
| EventLog.DecodeAndCheckEvent | eventlog/service.go:131-154 | accepted exactly when it decodes and its time is at most 30 s in the past and 5 s in the future |
| EventLog.FindBucket | eventlog/service.go:197-214 | stops at the first bucket that is the catch-all or starts no later than the event; it is the head only if it is the first one looked at |
| EventLog.NewHeadBecomesLatest | eventlog/service.go:241-256 | once a new head bucket is stored, the latest-bucket lookup returns it, holding just the event and linking back to the old head; all other keys keep their entries |
| EventLog.IndexShapes | eventlog/service.go:216-272 | an empty log gets a catch-all then a head; an old head gets a new head; otherwise the found bucket gets the event appended |
| EventLog.InvokeLog | eventlog/service.go:157-274 | done exactly for an eventlog instance with a valid "event" argument; the event is created under the derived ID, then indexed |
| EventLog.LoggedEventIsStored | eventlog/service.go:157-274 | after a logged event's changes are stored, the event can be read back under its derived ID as the decoded argument |
| EventLog.SpawnLog | eventlog/service.go:276-292 | done exactly for a stored instance spawning "eventlog": one Create of 32 zero bytes under the derived ID, and no coins |
| EventLog.SpawnedLogIsEmpty | eventlog/service.go:287-291 | searching a freshly spawned log finds nothing |
| EventLog.SearchSingleEvent | eventlog/service.go:40-127 | a log with one head bucket over the catch-all returns its one event when it matches |
| EventLog.FirstEventIsFound | eventlog/service.go:157-274 | the first event logged into an empty log is found by a later search that covers its time |
| EventLog.ContractFunction | eventlog/service.go:296-311 | fails without a valid signature or for delete and invalid; otherwise invoke or spawn; never panics |
| EventLogApi.WithIdentities | eventlog/api.go:106-109 | one empty signature per signer, naming it, and nothing else changed |
| EventLogApi.SignAll | byzcoin/transaction.go:223-256 | succeeds exactly when every signer signs; then signature j is signer j's over the request naming all signers |
| EventLogApi.CreateLog | eventlog/api.go:38-57 | on success the instance becomes the ID derived from the signed spawn; on failure the client is unchanged |
| EventLogApi.MakeTx | eventlog/api.go:102-159 | succeeds exactly when every event encodes and every signature succeeds; instruction i logs event i with index i, the shared nonce, and key i is its derived ID |
| EventLogApi.GetEvent | eventlog/api.go:76-100 | an event exactly for a matching inclusion proof of the key with at least two values whose first decodes |
| EventLogApi.GetEventAgreesWithLedger | eventlog/api.go:76-100 | reading through a proof of the trie agrees with looking the event up in the trie |
| Election.ReverseFromEnds | evoting/lib/election.go:182-184 | the swap loop from both ends reverses the list |
| Election.ReverseFromMiddle | evoting/lib/election.go:242-246 | the swap loop from the middle reverses the list |
| Election.KeepLastIsLast | evoting/lib/election.go:153-199 | every kept ballot is the last ballot of its user |
| Election.KeepLastOrdered | evoting/lib/election.go:153-199 | kept ballots stay in the order of their position in the chain |
| Election.KeepLastCovers | evoting/lib/election.go:153-199 | every user who voted has a kept ballot |
| Election.ReverseKeepFirst | evoting/lib/election.go:181-199 | reversing, keeping each user's first ballot and reversing back keeps each user's last ballot |
| Election.CollectBallots | evoting/lib/election.go:164-179 | the chain's ballots in chain order |
| Election.FirstPerUser | evoting/lib/election.go:186-194 | each user's first ballot, in order |
| Election.Box | evoting/lib/election.go:154-201 | no genesis block is an error; otherwise each user's last ballot, in chain order |
| Election.WalkBackPicksTail | evoting/lib/election.go:214-240 | walking back from the latest block collects the picked items of the tail after the last stopping block |
| Election.Mixes | evoting/lib/election.go:204-247 | the mixes of the final run of mix and partial blocks, in chain order |
| Election.Partials | evoting/lib/election.go:250-292 | the partials of the final run of partial blocks, in chain order |
| Election.Threshold | evoting/lib/election.go:131 | the smallest count above two thirds of the roster |
| Election.SetStage | evoting/lib/election.go:127-151 | no genesis block is an error; otherwise decrypted exactly with a threshold of partials, shuffled exactly with a threshold of mixes but not of partials; nothing but the stage changes |
| Election.LastBallot | evoting/lib/election.go:104-123 | the position of the user's last ballot block, or none when the user cast none |
| Election.SetVoted | evoting/lib/election.go:97-125 | no genesis block is an error; otherwise voted becomes the hash of the user's last ballot block up to and including the first mix or partial block, and stays as it was when there is none |
| Election.IsUser | evoting/lib/election.go:295-302 | true exactly for a registered user |
| Personhood.AddU64 | personhood/service.go:124 | the sum, wrapped modulo 2^64 |
| Personhood.SortByBalance | personhood/service.go:64-66 | a permutation of the input with balances non-increasing |
| Personhood.CutAtZero | personhood/service.go:74-79 | the longest prefix of positive balances |
| Personhood.CutOfSortedIsPositives | personhood/service.go:74-79 | on a sorted list, cutting at the first zero keeps exactly the positive-balance entries |
| Personhood.PositivesPermutation | personhood/service.go:61-66 | the positive entries of two permutations are permutations of each other, so map order does not change what is listed |
| Personhood.Page | personhood/service.go:67-79 | nothing past the end; a negative start or count is Go's slice panic; otherwise the run of positive entries starting at start, at most count long |
| Personhood.PageStaysSorted | personhood/service.go:67-79 | a page of a sorted list is sorted and no longer than it |
| Personhood.ListByBalance | personhood/service.go:59-81 | a page of the entries in non-increasing balance, all positive, each one stored; for non-negative start and number it holds exactly min(number, max(0, P - start)) entries, P the number of positive entries |
| Personhood.ListByBalancePage | personhood/service.go:59-81 | the result is exactly the slice [start, start + count) of some non-increasing permutation of the positive-balance entries, so only the order among equal balances is open |
| Personhood.ListAll | personhood/service.go:59-81 | listing from 0 with a large enough count returns exactly the positive-balance entries, as a multiset, whatever the map order |
| Personhood.Summarise | personhood/service.go:164-170 | the four reply lists have entry i from message i |
| Personhood.ListMessages | personhood/service.go:142-172 | the same page of messages, as parallel lists of equal length whose row i (id, subject, balance, reward) is one stored message, balances sorted and positive; for non-negative start and number it holds exactly min(number, max(0, P - start)) messages |
| Personhood.ListMessagesPage | personhood/service.go:142-172 | the listed messages are exactly the start page of some non-increasing permutation of the positive-balance messages |
| Personhood.ListAllMessages | personhood/service.go:142-172 | from start 0 with a number of at least the message count, the listing is a permutation of all messages of positive balance |
| Personhood.AnswerQuestionnaire | personhood/service.go:84-116 | unknown questionnaire, too many replies, out-of-range reply, no reward left and a second answer are errors; otherwise the balance drops by the reward and the account is recorded |
| Personhood.AnswerOnce | personhood/service.go:100-110 | an account that answered cannot answer again |
| Personhood.AnswerKeepsFunds | personhood/service.go:111-112 | the balance plus one reward per recorded account stays the same |
| Personhood.TopupQuestionnaire | personhood/service.go:119-126 | succeeds exactly for a known questionnaire, adding the amount modulo 2^64 and changing nothing else |
| Personhood.SendMessage | personhood/service.go:129-138 | succeeds exactly for a new ID, storing the message with no readers |
| Personhood.ReadMessage | personhood/service.go:175-194 | unknown message or party is an error; without funds or for a repeat reader nothing changes; otherwise the reward is debited and the reader recorded |
| Personhood.ReadMessageSucceeds | personhood/service.go:175-194 | in valid storage, reading succeeds exactly for a known message and party |
| Personhood.ReadTwiceChangesNothing | personhood/service.go:184-192 | reading the same message again leaves the storage unchanged |
| Personhood.ReadKeepsFunds | personhood/service.go:193-194 | the balance plus one reward per recorded account stays the same |
| Personhood.TopupMessage | personhood/service.go:237-244 | succeeds exactly for a known message, adding the amount modulo 2^64 and changing nothing else |
| Personhood.OperationsKeepValid | personhood/service.go:84-244 | every operation keeps the storage valid |
| DarcExpr.RemoveSpace | car/darcstructure.go:375-383 | at most one space is cut from each end and nothing else changes |
| DarcExpr.RemoveSpaceKeeps | car/darcstructure.go:375-383 | a word without edge spaces survives |
| DarcExpr.RemoveSpacePadded | car/darcstructure.go:375-383 | a string padded with one space each side gets exactly that padding removed |
| DarcExpr.PickSides | car/darcstructure.go:348-356 | the darc side is the second piece if it mentions "darc", else the first, else neither; the other side is the remaining piece |
| DarcExpr.WidenGroup | car/darcstructure.go:358-364 | the member side ends with the new member and a closing parenthesis; a side without one becomes "(side \| id)" |
| DarcExpr.AddSignerToExpr | car/darcstructure.go:332-373 | without "&" the member is appended with "&"; otherwise invalid exactly when neither piece mentions "darc"; the result holds the new member and keeps the darc |
| DarcExpr.AddToSides | car/darcstructure.go:358-371 | invalid exactly when there is no darc side; otherwise the result holds the member and the darc |
| DarcExpr.RemoveSignerFromExpr | car/darcstructure.go:218-282 | an absent member leaves the expression; a present one without "&" is Go's index panic; otherwise invalid exactly when a side is missing; the darc is kept |
| DarcExpr.RemoveFromSides | car/darcstructure.go:244-281 | invalid exactly when a side is empty; a side without parenthesis leaves only the owner's darc |
| DarcExpr.WidenMember | car/darcstructure.go:362-364 | a single member becomes a group of two |
| DarcExpr.WidenGroupBody | car/darcstructure.go:358-361 | a group gains the member before its closing parenthesis |
| DarcExpr.AddSecondMember | car/darcstructure.go:337-371 | adding to "owner & a" gives "(a \| b) & owner" |
| DarcExpr.AddToGroup | car/darcstructure.go:358-371 | adding to "(m) & owner" gives "(m \| id) & owner" |
| DarcExpr.RemoveOnlyMember | car/darcstructure.go:248-251 | removing a from "owner & a" leaves "owner" |
| DarcExpr.DropLastMember | car/darcstructure.go:257-262 | removing " \| b" from "(a \| b)" and unwrapping leaves "a" |
| DarcExpr.RemoveLastAdded | car/darcstructure.go:218-282 | removing b from "(a \| b) & owner" gives "a & owner", undoing the second add |
| DarcExpr.RemoveFromGroup | car/darcstructure.go:253-264 | removing the last member b from "(m \| b) & owner", where m holds several members and not b, gives "(m) & owner": the inverse of AddToGroup for a group of any size |
| DarcExpr.RemoveFirstMember | car/darcstructure.go:253-276 | removing the first member a from "(a \| m) & owner", where m holds several members and does not mention a, gives "(m) & owner" |
| DarcExpr.RemoveFirstOfTwo | car/darcstructure.go:253-276 | removing the first member a from "(a \| b) & owner" gives "b & owner" |
| DarcExpr.AddSigner | car/darcstructure.go:285-303 | only reader and garage darcs may gain a member; then the rewriting applies |
| DarcExpr.RemoveSigner | car/darcstructure.go:174-192 | only reader and garage darcs may lose a member; then the rewriting applies |
| ByzcoinDarcExpr.AddSignerToExpr | byzcoin/darcstructure.go:293-337 | without "&" the member is appended; an expression with no darc side comes back unchanged; otherwise the result holds the member and keeps the darc |
| ByzcoinDarcExpr.AddAgrees | byzcoin/darcstructure.go:328-335 | the two copies build the same expression; where the car copy reports invalid this one returns its input |
| ByzcoinDarcExpr.AddToGroup | byzcoin/darcstructure.go:320-335 | adding to "(m) & owner" gives "(m \| id) & owner" |

## Left out

- Concurrency. The mutexes, goroutines, channels and wait channels of the
  service are left out: every operation is modelled as one atomic step.
- Cryptography. SHA-256, Schnorr/Ed25519 signing, darc signature
  verification and darc evolution are parameters or are left out.
- Protobuf and the trie. Protobuf encoding and decoding and the merkle
  trie's root and proofs are parameters. The trie is a map.
- `storeInColl` and `loadConfigFromColl` are not part of this model.
  - The trie library's documented behaviour is used instead: Create adds
    an absent key, Update overwrites a present key, Remove deletes a
    present key.
  - The configuration is read from the configuration key.
- The state-change cache is a map from chain ID to the last entry, one
  entry per chain as in the service.
- eventlog/struct.go is not part of this model. Bucket lookup and the
  "first bucket" test are read as described in `eventlog.dfy`.
- Walk and FindBucket: the bucket walks take a fuel bound of one more
  than the trie's size. Go loops forever on a cyclic bucket chain. The
  model answers an error when the fuel runs out.
- Personhood types. personhood/proto.go is not part of this model.
  Balances and rewards are taken to be `uint64`. Start, Number and the
  reply count are taken to be `int`.
- Service.ExecuteInstruction: contracts are taken to panic only with
  strings. Go's `recover` handler converts the value with `re.(string)`
  (byzcoin/service.go:1019-1023), which panics again on any other value
  and crashes the node. That crash is not modelled.
- EventLog.InvokeLog: an empty "event" argument counts as present. It goes
  to the event decoder and the clock check. After a protobuf round trip Go
  reads it as missing. Protobuf decodes an empty buffer as the zero event,
  whose timestamp of 0 is "too long ago" for any clock past the first
  window. So both reject it; only the error message differs.
- ReadMessage: the coin transfer to the reader (personhood/service.go
  lines 196-231) is left out, because it signs and submits a transaction
  to another chain. Only the storage update is modelled.
- Personhood.ListByBalance: `sort.Slice` is not stable, so entries of
  equal balance may come out in any order. The model fixes one order (an
  insertion sort). ListByBalancePage and ListMessagesPage state what every
  order shares: the page is the start page of a non-increasing permutation
  of the positive entries. Which of several equal-balance entries comes
  first is left open.
- Personhood.ListQuestionnaires is a thin wrapper of ListByBalance. It
  has no contract of its own.
- The election's `GetElection`, chain loading and cryptographic checks
  are left out. Blocks are given as a list of decoded transactions.
- Go `int` overflow in sizes, positions and time arithmetic is not
  modelled, because those values stay far below 2^63 in the service.
- The command-line tools, the Java and JavaScript clients, the GUI and
  the simulations are outside the modelled core.
- `removeSpace` in byzcoin/darcstructure.go is identical to the one in
  car/darcstructure.go. The model shares `DarcExpr.RemoveSpace`.
- byzcoin/darcstructure.go's `addSigner` is a test helper without a
  description guard. Only its expression rewriting is modelled.
- DarcExpr.RemoveSignerFromExpr: the lemmas about well-formed groups cover
  the only member, the first member and the last member. A member in the
  middle of a group takes the same `" | id"` branch as the last one, but
  its result is not stated in a lemma of its own.
