/**
 * Whole-system runs on fresh objects: a coordinator and its replicas, with
 * each call the coordinator issues delivered to the replica it names.
 */
module Scenarios {
  import opened Wrappers
  import opened NodeIds
  import opened Registry
  import opened Protocol
  import opened Account
  import opened Coordinator

  /**
   * Two primaries "a1" and "a2" initialised to 10000 each; a transfer of
   * 1000 from "a1" to "a2" issues the four two-phase-commit calls, every
   * replica answers 'success', and the balances end at 9000 and 11000.
   */
  method TransferScenario() returns (response: Response, fromBalance: int, toBalance: int)
    ensures response == TransferDone("t1", false)
    ensures fromBalance == 9000 && toBalance == 11000
  {
    var c := TwoPrimariesCoordinator();
    assert Route(c.accountNodes, c.nodePairs, "a1") == Some("a1");
    assert Route(c.accountNodes, c.nodePairs, "a2") == Some("a2");
    assert Participant(c.accountNodes, "a1") == Some("a1");
    assert Participant(c.accountNodes, "a2") == Some("a2");
    assert Commit(c.accountNodes, "t1", "a1", "a2", 1000, Replies(true, true, true, true)).status == Completed;
    var sent;
    response, sent := c.Transfer("a1", "a2", 1000, "t1", Replies(true, true, true, true));
    assert sent == [PrepareCall("a1", 1000, true), PrepareCall("a2", 1000, false),
                    ExecuteCall("a1", "t1", 1000, true), ExecuteCall("a2", "t1", 1000, false)];

    fromBalance, toBalance := Deliver(sent);
  }

  /** Heartbeats from primaries "a1" and "a2" register both, unpaired. */
  method TwoPrimariesCoordinator() returns (c: TransactionCoordinator)
    ensures fresh(c) && c.Valid()
    ensures c.accountNodes == map["a1" := NodeInfo(6001, 0, Primary, Active),
                                  "a2" := NodeInfo(6002, 0, Primary, Active)]
    ensures c.nodePairs == map[] && c.transactions == map[]
  {
    c := new TransactionCoordinator();
    var _ := c.Heartbeat("a1", "account", 6001, Primary, false, false, "localhost", 0);
    assert c.accountNodes == map["a1" := NodeInfo(6001, 0, Primary, Active)];
    assert c.nodePairs == map[];
    assert BackupId("a2") == "a2b";
    var _ := c.Heartbeat("a2", "account", 6002, Primary, false, false, "localhost", 0);
    assert c.accountNodes == map["a1" := NodeInfo(6001, 0, Primary, Active), "a2" := NodeInfo(6002, 0, Primary, Active)];
    assert !JoinsAsPrimary(c.accountNodes, map[], "a2", false);
  }

  /**
   * Replicas "a1" and "a2" initialised to 10000 receive the four calls of a
   * transfer of 1000 from "a1" to "a2"; each answers 'success'.
   */
  method Deliver(sent: seq<Call>) returns (fromBalance: int, toBalance: int)
    requires sent == [PrepareCall("a1", 1000, true), PrepareCall("a2", 1000, false),
                      ExecuteCall("a1", "t1", 1000, true), ExecuteCall("a2", "t1", 1000, false)]
    ensures fromBalance == 9000 && toBalance == 11000
  {
    var n1 := new AccountNode("a1");
    var n2 := new AccountNode("a2");
    var _ := n1.InitBalance(10000);
    var _ := n2.InitBalance(10000);
    var r1 := n1.PrepareTransfer(sent[0].amount, sent[0].isSender);
    var r2 := n2.PrepareTransfer(sent[1].amount, sent[1].isSender);
    assert r1.Succeeded() && r2.Succeeded();
    var r3 := n1.ExecuteTransfer(sent[2].transactionId, sent[2].amount, sent[2].isSender, 1);
    var r4 := n2.ExecuteTransfer(sent[3].transactionId, sent[3].amount, sent[3].isSender, 1);
    assert r3.Succeeded() && r4.Succeeded();
    fromBalance, toBalance := n1.balance, n2.balance;
  }

  /** Heartbeats from primary "a1" and then backup "a1b" register and pair them. */
  method PairedCoordinator() returns (c: TransactionCoordinator)
    ensures fresh(c) && c.Valid()
    ensures c.accountNodes == map["a1" := NodeInfo(6001, 0, Primary, Active),
                                  "a1b" := NodeInfo(6003, 0, Backup, Active)]
    ensures c.nodePairs == map["a1" := "a1b"]
  {
    c := new TransactionCoordinator();
    var _ := c.Heartbeat("a1", "account", 6001, Primary, false, false, "localhost", 0);
    assert c.accountNodes == map["a1" := NodeInfo(6001, 0, Primary, Active)];
    assert c.nodePairs == map[];
    assert BackupId("a1") == "a1b" && PrimaryOf("a1b") == "a1";
    var _ := c.Heartbeat("a1b", "account", 6003, Backup, false, false, "localhost", 0);
    assert c.accountNodes == map["a1" := NodeInfo(6001, 0, Primary, Active),
                                 "a1b" := NodeInfo(6003, 0, Backup, Active)];
    assert JoinsAsBackup(c.accountNodes, map[], "a1b", false);
  }

  /** A simulated failure of "a1" promotes its backup "a1b" and removes the pairing. */
  method FailedOverCoordinator() returns (c: TransactionCoordinator, failure: Response)
    ensures fresh(c) && c.Valid()
    ensures failure == FailureSimulated(Some("a1b"), true)
    ensures c.accountNodes == map["a1" := NodeInfo(6001, 0, Primary, FailedSince(5)),
                                  "a1b" := NodeInfo(6003, 0, Primary, Active)]
    ensures c.nodePairs == map[]
  {
    c := PairedCoordinator();
    failure := c.SimulateFailure("a1", 5);
    assert c.accountNodes == map["a1" := NodeInfo(6001, 0, Primary, FailedSince(5)),
                                 "a1b" := NodeInfo(6003, 0, Primary, Active)];
  }

  /**
   * After a simulated failure of "a1" its backup is the primary, balance
   * queries for "a1" go to "a1b", and, with a recovering replica that
   * accepts `force_set_balance`, recovery copies the balance of "a1b" onto
   * "a1".
   */
  method FailoverScenario()
    returns (failure: Response, balance: Response, balanceCalls: seq<Call>,
             recovery: Response, recoveryCalls: seq<Call>)
    ensures failure == FailureSimulated(Some("a1b"), true)
    ensures balance == BalanceReport(9000, "a1b", true) && balanceCalls == [GetBalanceCall("a1b")]
    ensures recovery.NodeRecovered? && recovery.synced && !recovery.nodeInfo.IsFailed()
    ensures recoveryCalls == [GetBalanceCall("a1b"), ForceSetBalanceCall("a1", 9000)]
  {
    var c;
    c, failure := FailedOverCoordinator();
    assert BackupId("a1") == "a1b";
    assert Route(c.accountNodes, c.nodePairs, "a1") == Some("a1b");
    balance, balanceCalls := c.GetBalance("a1", Some(9000));
    recovery, recoveryCalls := c.RecoverNode("a1", Some(9000), true);
  }

  /**
   * The same recovery against the replica of src/account_node.py, which
   * answers `force_set_balance` with the unknown-command error: recovery
   * reports a sync failure after both calls and "a1" stays failed.
   */
  method ShippedReplicaRecoveryScenario()
    returns (recovery: Response, recoveryCalls: seq<Call>, a1Failed: bool)
    ensures recovery == Err(SyncFailed) && a1Failed
    ensures recoveryCalls == [GetBalanceCall("a1b"), ForceSetBalanceCall("a1", 9000)]
  {
    var c, _ := FailedOverCoordinator();
    assert BackupId("a1") == "a1b";
    recovery, recoveryCalls := c.RecoverNode("a1", Some(9000), false);
    a1Failed := c.accountNodes["a1"].IsFailed();
  }

  /**
   * "a1bb" registers as a backup of "a1b" while "a1b" is itself a backup:
   * it is registered but not paired.
   */
  method UnpairedBackupCoordinator() returns (c: TransactionCoordinator)
    ensures fresh(c) && c.Valid()
    ensures c.accountNodes == map["a1" := NodeInfo(6001, 0, Primary, Active),
                                  "a1b" := NodeInfo(6003, 0, Backup, Active),
                                  "a1bb" := NodeInfo(6005, 0, Backup, Active)]
    ensures c.nodePairs == map["a1" := "a1b"]
  {
    c := PairedCoordinator();
    assert BackupId("a1b") == "a1bb" && PrimaryOf("a1bb") == "a1b";
    var _ := c.Heartbeat("a1bb", "account", 6005, Backup, false, false, "localhost", 0);
    assert c.accountNodes == map["a1" := NodeInfo(6001, 0, Primary, Active),
                                 "a1b" := NodeInfo(6003, 0, Backup, Active),
                                 "a1bb" := NodeInfo(6005, 0, Backup, Active)];
    assert !JoinsAsBackup(c.accountNodes, map["a1" := "a1b"], "a1bb", false);
  }

  /**
   * After "a1bb" has registered as a backup, "a1b" reports itself a
   * primary, which pairs "a1b" with "a1bb" while "a1b" stays paired under
   * "a1".
   */
  method ChainedCoordinator() returns (c: TransactionCoordinator)
    ensures fresh(c) && c.Valid()
    ensures c.accountNodes == map["a1" := NodeInfo(6001, 0, Primary, Active),
                                  "a1b" := NodeInfo(6003, 1, Primary, Active),
                                  "a1bb" := NodeInfo(6005, 0, Backup, Active)]
    ensures c.nodePairs == map["a1" := "a1b", "a1b" := "a1bb"]
  {
    c := UnpairedBackupCoordinator();
    assert BackupId("a1b") == "a1bb";
    var _ := c.Heartbeat("a1b", "account", 6003, Primary, false, false, "localhost", 1);
    assert c.accountNodes == map["a1" := NodeInfo(6001, 0, Primary, Active),
                                 "a1b" := NodeInfo(6003, 1, Primary, Active),
                                 "a1bb" := NodeInfo(6005, 0, Backup, Active)];
    assert JoinsAsPrimary(c.accountNodes, map["a1" := "a1b"], "a1b", false);
  }

  /**
   * A pairing can outlive its backup: a failure report from "a1bb" deletes
   * "a1b" but leaves the pairing of "a1". A simulated failure of "a1" then
   * marks it failed and ends without a reply.
   */
  method DanglingBackupScenario() returns (report: Response, failure: Response, a1Failed: bool)
    ensures report == FailureHandled
    ensures failure == NoReply && a1Failed
  {
    var c := ChainedCoordinator();
    report := c.ReportNodeFailure("a1bb", "a1b", "backup");
    assert c.nodePairs == map["a1" := "a1b"];
    assert "a1b" !in c.accountNodes;
    failure := c.SimulateFailure("a1", 5);
    a1Failed := c.accountNodes["a1"].IsFailed();
  }

}
