# Distributed bank: coordinator and account replicas

This project models the two stateful parts of a small distributed bank.

The **transaction coordinator** (`TransactionCoordinator`) keeps four tables:
- the registry of account replicas: port, last heartbeat, role, and failed-since time;
- the primary-to-backup pairing table;
- the host of each replica;
- the transaction table.

It answers the commands `heartbeat`, `list_accounts`, `simulate_failure`, `recover_node`, `check_node_status`, `transfer`, `get_balance`, `report_node_failure` and `init_accounts`. It runs transfers as a two-phase commit (prepare sender, prepare receiver, execute sender, execute receiver). It also scans the registry for replicas whose heartbeat has timed out and promotes their backups.

An **account replica** (`AccountNode`) holds a balance and an append-only history. It answers `get_balance`, `prepare_transfer`, `execute_transfer`, `heartbeat` and `init_balance`.

Both are Dafny classes whose methods update their fields the way the handlers update the dictionaries.

The network is replaced by inputs and outputs:
- What a replica answers is an input: success as a `bool` (`Replies`, `answered`, `forceSetOk`) or as the set of replicas that refuse (`refused`), and a fetched balance as an `Option<int>`.
- Every coordinator handler that talks to replicas also returns `sent`: the calls it issued, in order. The exception is the best-effort `become_primary` notifications, which are not recorded (see Left out). The order of the two-phase commit is stated on `sent`.
- The clock is a `now` parameter.
- The order in which a dictionary is iterated is an `order` parameter that lists every registered id once.

The id naming rule stands in for a pairing protocol: the backup of `a1` is `a1b`.

Modules:
- `NodeIds`: the naming rule.
- `Account`: the replica.
- `Ledger`: balance conservation over several replicas.
- `Registry`: registry values and the pure rules the coordinator applies to them (pairing, redirect, participant rewrite, promotion, the timeout scan).
- `Protocol`: calls, replies, and the outcome of the two-phase commit.
- `Coordinator`: the coordinator class.
- `MonitorAsWritten`: the timeout scan exactly as written, with its lock (see Findings).
- `Scenarios`: end-to-end runs on fresh objects.

Where the code and its design description disagree, the model follows the code:
- `report_node_failure` (src/transaction_coordinator.py:560-599) does not check how old the failed node's heartbeat is. After promoting the reporter, it deletes the failed node's registry entry and its pairing.
- `recover_node` (src/transaction_coordinator.py:272-376) only clears the failed status. It does not hand the primary role back and does not restore the pairing.
- The node a failed account is redirected to is not itself checked for failure (src/transaction_coordinator.py:433-477, 508-522).
- `recover_node` sends `force_set_balance` to the recovering replica, but src/account_node.py does not implement that command and answers it with the unknown-command error. Against that replica, recovery through a takeover node always fails. The model takes the force-set answer as an input, so both outcomes are covered.
- A pairing can name a backup that is no longer registered: `report_node_failure` deletes a node that is itself paired under another primary (`Scenarios.DanglingBackupScenario`). `simulate_failure` on that primary marks it failed. Its final diagnostic line (src/transaction_coordinator.py:260-261) then looks up the missing backup and raises, so the client gets no reply (`NoReply`).

## Model

| member | source | states |
|---|---|---|
| NodeIds.BackupId | src/transaction_coordinator.py:167 | the backup id is the primary id followed by one 'b' |
| NodeIds.PrimaryOf | src/transaction_coordinator.py:176-177 | stripping the last letter of a backup name gives a non-empty id whose backup id is that name |
| NodeIds.BackupIdRoundTrip | src/transaction_coordinator.py:167-177 | for a non-empty primary id, `id[:-1]` of its backup id gives the primary id back |
| NodeIds.BackupIdInjective | src/transaction_coordinator.py:167 | two primaries never share a backup id, and no id is its own backup id |
| Account.AccountNode.constructor | src/account_node.py:8-13 | a replica starts at balance 0 with an empty history |
| Account.AccountNode.GetBalance | src/account_node.py:73-78 | reports the current balance and changes nothing |
| Account.AccountNode.PrepareTransfer | src/account_node.py:80-95 | refuses with insufficient funds iff it is the sender and balance < amount; otherwise ready; a receiver always succeeds; nothing changes |
| Account.AccountNode.ExecuteTransfer | src/account_node.py:97-123 | a sender's balance drops by amount and a receiver's rises by it; exactly one entry with the id and the signed amount is appended and earlier entries stay; reports the new balance; balance minus history sum is kept |
| Account.AccountNode.InitBalance | src/account_node.py:131-140 | the balance becomes amount and the history is unchanged |
| Account.AccountNode.Heartbeat | src/account_node.py:125-129 | answers with the node id and changes nothing |
| Account.AccountNode.HandleRequest | src/account_node.py:62-147 | dispatches each command with the contracts above; only execute and init touch state; only init changes balance minus history sum; an unknown command gets the default error |
| Account.SumAmountsAppend | src/account_node.py:110-114 | appending one history entry adds exactly its amount to the history's sum |
| Account.ReplayedExecuteScenario | src/account_node.py:97-123 | executing the same sender side twice applies it twice: two entries with one id, and the balance goes from 100 to -100 |
| Account.InsufficientFundsScenario | src/account_node.py:80-95 | a replica holding 500 refuses to send 1000 and still holds 500 |
| Ledger.TotalUpdate | src/account_node.py:103-107 | replacing one balance changes the total by exactly the difference |
| Ledger.Settle | src/account_node.py:103-114 | a sender execute followed by a receiver execute of the same amount moves it between the two balances, keeps the total and touches no other account |
| Ledger.SettleAll | src/transaction_coordinator.py:679-700 | any sequence of completed transfers keeps the total of all balances |
| Ledger.ApplyExecutes | src/account_node.py:97-114 | the reference definition of replicas acting on a sequence of calls (prepares change nothing; an execute that took effect moves its replica's balance by its signed amount); its contract keeps only the number of balances, and its properties are proved by `Ledger.NoEffectWithout` and `Ledger.CommitBalanceEffect` |
| Ledger.NoEffectWithout | src/account_node.py:80-114 | calls whose executes all did not take effect leave every balance as it was |
| Ledger.CommitBalanceEffect | src/transaction_coordinator.py:663-702 | over the calls `Commit` issues: an aborted or failed commit leaves every balance as it was, an inconsistent one lowers the total by the amount, and a completed one keeps the total |
| Registry.PairsInjective | src/transaction_coordinator.py:164-184 | in a well-formed pairing table no two primaries share a backup and no primary is its own backup |
| Registry.PairOnHeartbeat | src/transaction_coordinator.py:163-184 | existing pairings are never overwritten; a new pairing binds a registered primary to its registered suffix-named backup and involves the heartbeating node; at most one is added; nothing changes iff neither join condition holds; well-formedness is kept |
| Registry.Takeover | src/transaction_coordinator.py:433-453 | a failed account goes to its paired backup if that is registered, else to its suffix-named node if that is registered as primary, else nowhere |
| Registry.Route | src/transaction_coordinator.py:429-477 | a live account is served by itself; the resolved node is registered |
| Registry.RouteWithinAccount | src/transaction_coordinator.py:429-491 | with a well-formed pairing table, the resolved node is the id or its backup id; it differs from the id exactly when the account is failed; only a failed account can be unavailable |
| Registry.Participant | src/transaction_coordinator.py:711-733 | an unregistered id fails; a registered backup is replaced by the primary its name gives, and fails when that primary is not registered or the name is malformed; any other role is used as is |
| Registry.Promoted | src/transaction_coordinator.py:846-862 | an unknown backup changes nothing; otherwise only its role becomes primary and only the failed primary's pairing is removed; well-formedness is kept |
| Registry.ScanOne | src/transaction_coordinator.py:801-831 | one visit: a live node whose heartbeat is strictly more than 15 seconds old is marked failed at now, and if it is a primary with a registered paired backup, that backup becomes primary and the pairing is removed; ports and heartbeats stay; the only role that can change is that backup's, and the only pairing that can go is the visited node's, and only in that case |
| Registry.Scan | src/transaction_coordinator.py:801-838 | one monitor pass over the iteration order, one `ScanOne` per id; keys are kept and pairings are only removed |
| Registry.TimedOutIdsExactly | src/transaction_coordinator.py:797-813 | `nodes_marked_failed_this_cycle` (`Registry.TimedOutIds`) contains exactly the visited ids that had timed out (the order is given by `Registry.ScanStep`) |
| Registry.ScanEffect | src/transaction_coordinator.py:794-838 | after a full pass, exactly the visited timed-out nodes are failed at now and every other status is kept (failed nodes are skipped); keys, ports and heartbeats stay; roles only become primary; only visited timed-out nodes lose pairings; well-formedness is kept |
| Registry.ScanPromotesOnlyPairedBackups | src/transaction_coordinator.py:816-857 | a pass changes a role only for the backup paired with a visited node that had timed out, and removes a pairing only together with promoting its backup |
| Registry.ScanStep | src/transaction_coordinator.py:801-813 | visiting one more id adds one `ScanOne` step to the pass, and appends the id to the end of the marked list exactly when it had timed out, so the list follows the iteration order |
| Registry.ScanLeavesUnvisited | src/transaction_coordinator.py:801-807 | a node not yet visited keeps its status and heartbeat |
| Registry.ScanWellFormed | src/transaction_coordinator.py:817-831 | a pass keeps the pairing table well-formed |
| Registry.ScanPromotes | src/transaction_coordinator.py:816-831 | a visited timed-out primary with a registered paired backup loses its pairing, and that backup ends the pass as a primary |
| Protocol.Commit | src/transaction_coordinator.py:663-702 | ends aborted iff a prepare fails, failed iff the sender execute fails, inconsistent iff only the receiver execute fails, completed otherwise; calls in the fixed sender-prepare, receiver-prepare, sender-execute, receiver-execute order, each step sent iff every earlier step succeeded, the first call being the sender's prepare and the second the receiver's; every call goes to the participant of its own side; failed sends exactly the first three calls, inconsistent and completed exactly the four, with no compensating call |
| Coordinator.PrimariesInExactly | src/transaction_coordinator.py:606-608 | `primary_nodes` (`Coordinator.PrimariesIn`) contains exactly the registered primaries of the order (the order is given by `Coordinator.PrimariesStep`) |
| Coordinator.PrimariesPrefix | src/transaction_coordinator.py:606-609 | the primaries among a prefix of the iteration order come first among all primaries |
| Coordinator.PrimariesStep | src/transaction_coordinator.py:606-609 | visiting one more id appends it to the end of the primaries exactly when it is a registered primary, so they follow the iteration order |
| Coordinator.InitStopsAtFirstFailure | src/transaction_coordinator.py:609-627 | when the loop stops at a refusing primary, the calls sent so far are those to the first primaries in order, all of them but the last succeeded, and the failure is reported |
| Coordinator.InitCompletes | src/transaction_coordinator.py:609-633 | when every primary was called and none refused, the reply is success and every primary was called once, in order |
| Coordinator.TransactionCoordinator.constructor | src/transaction_coordinator.py:9-17 | a coordinator starts with four empty tables |
| Coordinator.TransactionCoordinator.Heartbeat | src/transaction_coordinator.py:102-186 | a non-account heartbeat changes nothing and gets the default error; otherwise the host is recorded, the entry is refreshed (failed: heartbeat time only; live: port, heartbeat, role; new: a fresh live entry), no other entry changes, the pairing table becomes `PairOnHeartbeat`'s, and an assignment is returned iff a pairing was added: a primary joining its backup is told the backup's id and port, a backup joining its primary the primary's |
| Coordinator.TransactionCoordinator.RefreshEntry | src/transaction_coordinator.py:120-161 | the registry half of a heartbeat, with the frozen-failed-node rule |
| Coordinator.TransactionCoordinator.PairNode | src/transaction_coordinator.py:163-184 | the pairing half of a heartbeat: the table becomes `PairOnHeartbeat`'s, a primary joining its backup gets `backup_assigned` with the backup's id and port, and a backup joining its primary gets `primary_assigned` with the primary's |
| Coordinator.TransactionCoordinator.ListAccounts | src/transaction_coordinator.py:188-193 | lists exactly the registered ids |
| Coordinator.TransactionCoordinator.SimulateFailure | src/transaction_coordinator.py:195-270 | an unknown id is an error with no change; otherwise the node is failed at now, and a registered paired backup becomes primary with the pairing removed and `backup_promoted` true; nothing else changes; an unregistered paired backup leaves no reply |
| Coordinator.TransactionCoordinator.RecoverNode | src/transaction_coordinator.py:272-376 | unknown or live nodes are errors with no change; without a primary-role takeover node it recovers with no calls; with one, it fetches that node's balance, forces it onto the recovering node, and aborts with no change unless both succeed; recovery clears only the failed status |
| Coordinator.TransactionCoordinator.CheckNodeStatus | src/transaction_coordinator.py:378-410 | reports active iff not failed, with the entry's role, heartbeat, port and pairing |
| Coordinator.TransactionCoordinator.PrepareTransfer | src/transaction_coordinator.py:711-750 | one prepare call goes to the participant of the account, and succeeds iff that replica answers success; no participant, no call and failure |
| Coordinator.TransactionCoordinator.ExecuteTransfer | src/transaction_coordinator.py:752-792 | one execute call with the transaction id goes to the participant of the account, with the same rule |
| Coordinator.TransactionCoordinator.ExecuteTwoPhaseCommit | src/transaction_coordinator.py:649-702 | records the transaction with its accounts and amount in the terminal status `Commit` gives, with exactly `Commit`'s calls and no other transaction touched; returns true iff completed |
| Coordinator.TransactionCoordinator.RunPhases | src/transaction_coordinator.py:663-702 | the four phase calls with their early exits end in `Commit`'s status after exactly `Commit`'s calls, so the sender is prepared and executed before the receiver and nothing executes before both prepares succeed |
| Coordinator.TransactionCoordinator.Transfer | src/transaction_coordinator.py:412-492 | unknown accounts are errors; an account with no takeover node is unavailable and nothing is recorded; otherwise the commit runs on the resolved ids; `used_backup` iff a resolved id differs from the requested one; earlier transactions are untouched |
| Coordinator.TransactionCoordinator.GetBalance | src/transaction_coordinator.py:494-558 | the same redirect, then one balance query to the resolved node; `used_backup` iff the account is failed |
| Coordinator.TransactionCoordinator.PromoteBackupToPrimary | src/transaction_coordinator.py:846-900 | returns false and changes nothing iff the backup is unknown; otherwise it makes the backup primary, removes the failed primary's pairing and returns true |
| Coordinator.TransactionCoordinator.ReportNodeFailure | src/transaction_coordinator.py:560-599 | only a backup-role report naming a registered node whose pairing is the reporter is accepted; then the reporter is promoted and the failed node's entry and pairing are deleted; other reports change nothing |
| Coordinator.TransactionCoordinator.InitAccounts | src/transaction_coordinator.py:600-638 | init calls go to the primaries in iteration order and stop at the first that does not answer success; the reply is success iff every primary succeeded |
| Coordinator.TransactionCoordinator.MonitorStep | src/transaction_coordinator.py:801-831 | one loop iteration leaves the registry and pairing table `ScanOne` gives, and reports whether the node was marked failed, which happens exactly when it was live and had timed out |
| Coordinator.TransactionCoordinator.MonitorNodes | src/transaction_coordinator.py:794-838 | one pass leaves the registry and pairing table of `Scan` and returns the timed-out nodes in order (the corrected pass, see Findings) |
| MonitorAsWritten.PromoteAsWritten | src/transaction_coordinator.py:846-862 | with the lock free it is `Promoted`; with the lock held it blocks exactly when the backup is registered |
| MonitorAsWritten.ScanOneAsWritten | src/transaction_coordinator.py:801-831 | one visit with the lock held blocks exactly when the corrected visit would promote a backup, and otherwise does what `ScanOne` does |
| MonitorAsWritten.ScanAsWritten | src/transaction_coordinator.py:798-838 | the pass as written, which never resumes once blocked (its contract is `AsWrittenDeadlocksExactlyOnPromotion`) |
| MonitorAsWritten.AsWrittenDeadlocksExactlyOnPromotion | src/transaction_coordinator.py:794-862 | the pass as written blocks exactly when the corrected pass would promote a backup, and when it finishes it agrees with the corrected pass |
| MonitorAsWritten.MonitorDeadlocksOnPromotion | src/transaction_coordinator.py:798-831 | a primary and its registered backup both silent for 16 seconds: the pass as written blocks, while the corrected pass promotes the backup |
| Scenarios.TransferScenario | src/transaction_coordinator.py:412-492 | two registered primaries at 10000; a 1000 transfer completes with the four calls and leaves 9000 and 11000 |
| Scenarios.TwoPrimariesCoordinator | src/transaction_coordinator.py:102-186 | heartbeats from primaries a1 and a2 register both, with no pairing and no transaction |
| Scenarios.Deliver | src/account_node.py:80-123 | the four calls of that transfer, delivered to the two replicas, all succeed and move the money |
| Scenarios.PairedCoordinator | src/transaction_coordinator.py:163-184 | heartbeats from a1 and then a1b register both and pair them |
| Scenarios.FailedOverCoordinator | src/transaction_coordinator.py:195-261 | a simulated failure of a1 fails it at now, makes a1b primary, removes the pairing and reports the promotion |
| Scenarios.FailoverScenario | src/transaction_coordinator.py:272-376 | after the failover, balance queries for a1 go to a1b; assuming a recovering replica that accepts `force_set_balance`, recovery copies a1b's balance onto a1 |
| Scenarios.ShippedReplicaRecoveryScenario | src/transaction_coordinator.py:312-364 | against the replica of src/account_node.py, which refuses `force_set_balance`, recovery sends both calls, reports a sync failure and leaves a1 failed |
| Scenarios.UnpairedBackupCoordinator | src/transaction_coordinator.py:163-184 | a backup whose primary is itself registered as a backup is registered but not paired |
| Scenarios.ChainedCoordinator | src/transaction_coordinator.py:163-184 | once a1b reports itself a primary, heartbeats have paired a1b under a1 and a1bb under a1b at once |
| Scenarios.DanglingBackupScenario | src/transaction_coordinator.py:560-599 | a failure report deletes a1b while a1 stays paired with it; a simulated failure of a1 then fails it and sends no reply |

## Left out

- Sockets, JSON encoding and the 4096-byte `recv`: each remote exchange is an input, and each request sent is an element of `sent`. A balance answered with a missing `balance` field counts as no balance.
- Threads, the `threading.Lock` and `time.sleep`: handlers run one at a time, and one pass of the monitor loop is modelled. The lock appears only in `MonitorAsWritten`, to state the finding.
- `load_data`/`save_data`: both objects start from empty state as if no snapshot exists. A failure to write the snapshot is not modelled.
- Coordinator.TransactionCoordinator.ExecuteTwoPhaseCommit: the intermediate 'preparing' status is not recorded; the transaction is written once, with its terminal status, which no other handler can tell apart while handlers run one at a time.
- Coordinator.TransactionCoordinator.ExecuteTwoPhaseCommit: does not model the `error` status, because it is entered only when writing the snapshot raises, and persistence is not modelled.
- Coordinator.TransactionCoordinator.PromoteBackupToPrimary: does not model the `False` return after a failed snapshot write, for the same reason.
- The `become_primary` notifications in `simulate_failure` and `promote_backup_to_primary`: they are modelled only through their effect, which is none. Neither the state nor the reply depends on their outcome.
- Ledger.CommitBalanceEffect: an execute whose reply was not 'success' is taken to have changed nothing; a replica that applied the transfer but whose reply was lost is not modelled.
- Coordinator.TransactionCoordinator.Transfer: the fresh `uuid4` transaction id is a parameter that is required not to be in the transaction table yet.
- Coordinator.TransactionCoordinator.MonitorNodes and Coordinator.TransactionCoordinator.InitAccounts: dictionary iteration order is a parameter.
- The transaction `timestamp`, replica history timestamps and `failure_time` values are `now` parameters. Message texts and debugging fields of replies (`node_info` on errors, `state`, `final_node_status`) are not modelled.
- Coordinator.TransactionCoordinator.Heartbeat: the host is a parameter; the peer address used when none is reported is not modelled.
- Amounts and balances are unbounded integers. The client's `float` parsing (src/client.py) is not part of this model.
- The command dispatch by string in `handle_request` is one method per command; a missing field reads as a default (`""` for a missing id, `false` for a missing flag).
- Replica commands that src/account_node.py does not implement (`force_set_balance`, `sync_data`, `become_primary`, `become_backup`): they get the unknown-command error, as `Account.Unknown` models.
- The client, demos, start-up scripts and tests are not part of this model.

## Findings

| source | as written | input that shows it | evidently intended | confidence | as-written member | corrected member |
|---|---|---|---|---|---|---|
| src/transaction_coordinator.py:798-855 | `monitor_nodes` holds `self.lock`, a non-reentrant `threading.Lock` (line 15), and calls `promote_backup_to_primary`, which enters `with self.lock` again at line 855 | primary `a1` with registered paired backup `a1b`, both last heard from at 0, scanned at 16 | the timed-out primary is marked failed and `a1b` is promoted in the same pass | high (not executed) | MonitorAsWritten.MonitorDeadlocksOnPromotion | Coordinator.TransactionCoordinator.MonitorNodes |
