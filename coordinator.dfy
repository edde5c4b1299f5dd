/**
 * `TransactionCoordinator` (src/transaction_coordinator.py): the registry of
 * replicas, the pairing table, the host map and the transaction table, and
 * the command handlers that update them. Each remote exchange is an input
 * (whether the replica answered 'success', or the balance it reported), and
 * every handler that talks to replicas returns the calls it issued, in
 * order. Handlers run one at a time; the clock is the `now` parameter.
 */
module Coordinator {
  import opened Wrappers
  import opened NodeIds
  import opened Registry
  import opened Protocol

  /** `order` lists every registered id exactly once: the iteration order of `account_nodes`. */
  ghost predicate EnumeratesRegistry(nodes: Nodes, order: seq<string>) {
    && (forall i, j :: 0 <= i < j < |order| ==> order[i] != order[j])
    && (forall id :: id in order <==> id in nodes)
  }

  /** The registered primaries, in iteration order (`init_accounts`' `primary_nodes`). */
  function PrimariesIn(nodes: Nodes, order: seq<string>): seq<string>
    decreases |order|
  {
    if order == [] then []
    else
      var last := order[|order| - 1];
      PrimariesIn(nodes, order[..|order| - 1]) +
      (if last in nodes && nodes[last].role == Primary then [last] else [])
  }

  /** The primaries listed are exactly the registered primaries of the order. */
  lemma {:induction false} PrimariesInExactly(nodes: Nodes, order: seq<string>)
    ensures var r := PrimariesIn(nodes, order);
      && |r| <= |order|
      && (forall i :: 0 <= i < |r| ==> r[i] in order && r[i] in nodes && nodes[r[i]].role == Primary)
      && (forall k :: k in order && k in nodes && nodes[k].role == Primary ==> k in r)
    decreases |order|
  {
    if order != [] {
      var prefix := order[..|order| - 1];
      assert order == prefix + [order[|order| - 1]];
      PrimariesInExactly(nodes, prefix);
    }
  }

  /** The primaries among the first `i` ids come first among all primaries. */
  lemma {:induction false} PrimariesPrefix(nodes: Nodes, order: seq<string>, i: nat)
    requires i <= |order|
    ensures PrimariesIn(nodes, order[..i]) <= PrimariesIn(nodes, order)
    decreases |order|
  {
    if i < |order| {
      var prefix := order[..|order| - 1];
      assert prefix[..i] == order[..i];
      PrimariesPrefix(nodes, prefix, i);
    } else {
      assert order[..i] == order;
    }
  }

  /** Visiting one more id appends it to the primaries when it is one. */
  lemma PrimariesStep(nodes: Nodes, order: seq<string>, i: nat)
    requires i < |order|
    ensures PrimariesIn(nodes, order[..i + 1]) ==
              PrimariesIn(nodes, order[..i]) +
              (if order[i] in nodes && nodes[order[i]].role == Primary then [order[i]] else [])
  {
    assert order[..i + 1][..i] == order[..i];
  }

  /**
   * What `init_accounts` reports over the primaries `ps`: the calls it sent
   * go to the first primaries in order, every one of them but possibly the
   * last answered 'success', and it reports success exactly when all of
   * `ps` did, having then called each of them; otherwise the last call sent
   * is the one that failed.
   */
  ghost predicate InitReport(ps: seq<string>, amount: int, refused: set<string>,
                             response: Response, sent: seq<Call>) {
    && |sent| <= |ps|
    && (forall i :: 0 <= i < |sent| ==> sent[i] == InitBalanceCall(ps[i], amount))
    && (forall i :: 0 <= i < |sent| - 1 ==> ps[i] !in refused)
    && (response == AccountsInitialized <==> forall i :: 0 <= i < |ps| ==> ps[i] !in refused)
    && (response == AccountsInitialized ==> |sent| == |ps|)
    && (response != AccountsInitialized ==>
          response == Err(InitFailed) && |sent| > 0 && ps[|sent| - 1] in refused)
  }

  /**
   * When `init_accounts` stops at the primary that failed after visiting
   * `order[..i + 1]`, its report is the one over all primaries.
   */
  lemma InitStopsAtFirstFailure(nodes: Nodes, order: seq<string>, i: nat, sent: seq<Call>,
                                amount: int, refused: set<string>)
    requires i < |order|
    requires var done := PrimariesIn(nodes, order[..i + 1]);
      && |done| > 0 && |sent| == |done|
      && (forall k :: 0 <= k < |sent| ==> sent[k] == InitBalanceCall(done[k], amount))
      && (forall k :: 0 <= k < |done| - 1 ==> done[k] !in refused)
      && done[|done| - 1] in refused
    ensures InitReport(PrimariesIn(nodes, order), amount, refused, Err(InitFailed), sent)
  {
    var done, ps := PrimariesIn(nodes, order[..i + 1]), PrimariesIn(nodes, order);
    PrimariesPrefix(nodes, order, i + 1);
    assert |done| <= |ps| && forall k :: 0 <= k < |done| ==> done[k] == ps[k];
  }

  /** When `init_accounts` has called every primary and all succeeded, it reports success. */
  lemma InitCompletes(nodes: Nodes, order: seq<string>, sent: seq<Call>,
                      amount: int, refused: set<string>)
    requires var done := PrimariesIn(nodes, order[..|order|]);
      && |sent| == |done|
      && (forall k :: 0 <= k < |sent| ==> sent[k] == InitBalanceCall(done[k], amount))
      && (forall k :: 0 <= k < |done| ==> done[k] !in refused)
    ensures InitReport(PrimariesIn(nodes, order), amount, refused, AccountsInitialized, sent)
  {
    assert order[..|order|] == order;
  }

  /**
   * The pairing a heartbeat reply hands out: a primary that joins its
   * backup is told the backup's id and registered port, and a backup that
   * joins its primary is told the primary's.
   */
  predicate AssignmentReply(nodes: Nodes, pairs: Pairs, id: string, reportsBackup: bool,
                            reportsPrimary: bool, assignment: Option<Assignment>)
    requires id in nodes
  {
    && (JoinsAsPrimary(nodes, pairs, id, reportsBackup) ==>
          assignment == Some(BackupAssigned(BackupId(id), nodes[BackupId(id)].port)))
    && (JoinsAsBackup(nodes, pairs, id, reportsPrimary) ==>
          assignment == Some(PrimaryAssigned(PrimaryOf(id), nodes[PrimaryOf(id)].port)))
  }

  class TransactionCoordinator {
    var accountNodes: Nodes
    var nodePairs: Pairs
    var nodeHosts: map<string, string>
    var transactions: map<string, Txn>

    /**
     * Kept by every handler: pairings follow the naming rule and name
     * registered primaries, and no transaction is left `preparing` between
     * requests.
     */
    ghost predicate Valid()
      reads this
    {
      && PairsWellFormed(accountNodes, nodePairs)
      && (forall t :: t in transactions ==> transactions[t].status.IsTerminal())
    }

    /** A coordinator without a snapshot file starts empty. */
    constructor ()
      ensures Valid()
      ensures accountNodes == map[] && nodePairs == map[] && nodeHosts == map[] && transactions == map[]
    {
      accountNodes, nodePairs, nodeHosts, transactions := map[], map[], map[], map[];
    }

    /**
     * `heartbeat`: registers or refreshes the node, then tries to pair it. A
     * failed node only gets its heartbeat time refreshed; its port, role and
     * failed status stay frozen. A heartbeat that does not come from an
     * account node changes nothing and gets the default error.
     */
    method Heartbeat(nodeId: string, nodeType: string, port: int, role: Role,
                     reportsBackup: bool, reportsPrimary: bool, host: string, now: int)
      returns (response: Response)
      requires Valid()
      modifies this`accountNodes, this`nodePairs, this`nodeHosts
      ensures Valid()
      ensures nodeType != "account" ==>
                && response == Err(UnknownCommand)
                && accountNodes == old(accountNodes) && nodePairs == old(nodePairs)
                && nodeHosts == old(nodeHosts)
      ensures nodeType == "account" ==>
                && nodeHosts == old(nodeHosts)[nodeId := host]
                && accountNodes.Keys == old(accountNodes).Keys + {nodeId}
                && (forall id :: id in old(accountNodes) && id != nodeId ==>
                      accountNodes[id] == old(accountNodes)[id])
                && nodePairs == PairOnHeartbeat(accountNodes, old(nodePairs), nodeId, reportsBackup, reportsPrimary)
                && response.HeartbeatAck?
                && (response.assignment.Some? <==> nodePairs != old(nodePairs))
                && AssignmentReply(accountNodes, old(nodePairs), nodeId, reportsBackup, reportsPrimary,
                                   response.assignment)
      ensures nodeType == "account" && nodeId in old(accountNodes) && old(accountNodes)[nodeId].IsFailed() ==>
                && accountNodes[nodeId] == old(accountNodes)[nodeId].(lastHeartbeat := now)
                && response.heartbeat == FromFailedNode
      ensures nodeType == "account" && nodeId in old(accountNodes) && !old(accountNodes)[nodeId].IsFailed() ==>
                && accountNodes[nodeId] == old(accountNodes)[nodeId].(port := port, lastHeartbeat := now, role := role)
                && response.heartbeat == InfoUpdated
      ensures nodeType == "account" && nodeId !in old(accountNodes) ==>
                && accountNodes[nodeId] == NodeInfo(port, now, role, Active)
                && response.heartbeat == NewNodeRegistered
    {
      if nodeType != "account" {
        response := Err(UnknownCommand);
        return;
      }
      nodeHosts := nodeHosts[nodeId := host];
      var kind := RefreshEntry(nodeId, port, role, now);
      var assignment := PairNode(nodeId, reportsBackup, reportsPrimary);
      response := HeartbeatAck(kind, assignment);
    }

    /** The registry half of `heartbeat`: a failed node's entry only has its heartbeat time refreshed. */
    method RefreshEntry(nodeId: string, port: int, role: Role, now: int) returns (kind: HeartbeatKind)
      requires Valid()
      modifies this`accountNodes
      ensures Valid()
      ensures accountNodes.Keys == old(accountNodes).Keys + {nodeId}
      ensures forall id :: id in old(accountNodes) && id != nodeId ==> accountNodes[id] == old(accountNodes)[id]
      ensures nodeId in old(accountNodes) && old(accountNodes)[nodeId].IsFailed() ==>
                accountNodes[nodeId] == old(accountNodes)[nodeId].(lastHeartbeat := now) && kind == FromFailedNode
      ensures nodeId in old(accountNodes) && !old(accountNodes)[nodeId].IsFailed() ==>
                accountNodes[nodeId] == old(accountNodes)[nodeId].(port := port, lastHeartbeat := now, role := role) &&
                kind == InfoUpdated
      ensures nodeId !in old(accountNodes) ==>
                accountNodes[nodeId] == NodeInfo(port, now, role, Active) && kind == NewNodeRegistered
    {
      if nodeId in accountNodes {
        var existing := accountNodes[nodeId];
        if existing.IsFailed() {
          accountNodes := accountNodes[nodeId := existing.(lastHeartbeat := now)];
          kind := FromFailedNode;
        } else {
          accountNodes := accountNodes[nodeId := existing.(port := port, lastHeartbeat := now, role := role)];
          kind := InfoUpdated;
        }
      } else {
        accountNodes := accountNodes[nodeId := NodeInfo(port, now, role, Active)];
        kind := NewNodeRegistered;
      }
    }

    /**
     * The pairing half of `heartbeat`: the table becomes `PairOnHeartbeat`'s,
     * and the reply carries the new partner and its port exactly when a
     * pairing was added.
     */
    method PairNode(nodeId: string, reportsBackup: bool, reportsPrimary: bool)
      returns (assignment: Option<Assignment>)
      requires Valid() && nodeId in accountNodes
      modifies this`nodePairs
      ensures Valid()
      ensures nodePairs == PairOnHeartbeat(accountNodes, old(nodePairs), nodeId, reportsBackup, reportsPrimary)
      ensures assignment.Some? <==> nodePairs != old(nodePairs)
      ensures AssignmentReply(accountNodes, old(nodePairs), nodeId, reportsBackup, reportsPrimary, assignment)
      ensures assignment.Some? && assignment.value.BackupAssigned? ==>
                var b := assignment.value.backupId;
                b == BackupId(nodeId) && nodeId in nodePairs && nodePairs[nodeId] == b && b in accountNodes &&
                assignment.value.backupPort == accountNodes[b].port
      ensures assignment.Some? && assignment.value.PrimaryAssigned? ==>
                var p := assignment.value.primaryId;
                p in nodePairs && nodePairs[p] == nodeId && p in accountNodes &&
                assignment.value.primaryPort == accountNodes[p].port
    {
      assignment := None;
      ghost var r := PairOnHeartbeat(accountNodes, nodePairs, nodeId, reportsBackup, reportsPrimary);
      if JoinsAsPrimary(accountNodes, nodePairs, nodeId, reportsBackup) {
        var backupId := BackupId(nodeId);
        nodePairs := nodePairs[nodeId := backupId];
        assert nodePairs == r;
        assignment := Some(BackupAssigned(backupId, accountNodes[backupId].port));
      } else if JoinsAsBackup(accountNodes, nodePairs, nodeId, reportsPrimary) {
        var primaryId := PrimaryOf(nodeId);
        nodePairs := nodePairs[primaryId := nodeId];
        assert nodePairs == r;
        assignment := Some(PrimaryAssigned(primaryId, accountNodes[primaryId].port));
      }
    }

    /** `list_accounts`: every registered id, and nothing else. */
    method ListAccounts() returns (response: Response)
      ensures response == AccountList(accountNodes.Keys)
    {
      response := AccountList(accountNodes.Keys);
    }

    /**
     * `simulate_failure`: marks a registered node failed at `now` and, when
     * it has a registered paired backup, promotes that backup and removes the
     * pairing. The promotion stands whatever the notification to the backup
     * does. An unknown id is an error and changes nothing. A pairing that
     * names an unregistered backup makes the handler raise after the node is
     * marked failed, and the client gets no reply.
     */
    method SimulateFailure(nodeId: string, now: int) returns (response: Response)
      requires Valid()
      modifies this`accountNodes, this`nodePairs
      ensures Valid()
      ensures nodeId !in old(accountNodes) ==>
                && response == Err(NotFound)
                && accountNodes == old(accountNodes) && nodePairs == old(nodePairs)
      ensures nodeId in old(accountNodes) ==>
                var promoted := HasRegisteredBackup(old(accountNodes), old(nodePairs), nodeId);
                var failed := old(accountNodes)[nodeId := old(accountNodes)[nodeId].(status := FailedSince(now))];
                var backupNode := PairedBackup(old(nodePairs), nodeId);
                var dangling := backupNode.Some? && backupNode.value != "" && !promoted;
                && (!dangling ==> response == FailureSimulated(backupNode, promoted))
                && (dangling ==> response == NoReply)
                && nodeId in accountNodes && accountNodes[nodeId] == failed[nodeId]
                && (promoted ==>
                      var b := old(nodePairs)[nodeId];
                      accountNodes == failed[b := failed[b].(role := Primary)] &&
                      nodePairs == old(nodePairs) - {nodeId})
                && (!promoted ==> accountNodes == failed && nodePairs == old(nodePairs))
    {
      if nodeId !in accountNodes {
        response := Err(NotFound);
        return;
      }
      accountNodes := accountNodes[nodeId := accountNodes[nodeId].(status := FailedSince(now))];
      var backupNode := PairedBackup(nodePairs, nodeId);
      var promoted := false;
      if backupNode.Some? && backupNode.value != "" && backupNode.value in accountNodes {
        var b := backupNode.value;
        BackupIdInjective(nodeId, nodeId);
        accountNodes := accountNodes[b := accountNodes[b].(role := Primary)];
        nodePairs := nodePairs - {nodeId};
        promoted := true;
      }
      if backupNode.Some? && backupNode.value != "" && backupNode.value !in accountNodes {
        // the closing diagnostic looks up the unregistered backup's entry and raises
        response := NoReply;
      } else {
        response := FailureSimulated(backupNode, promoted);
      }
    }

    /**
     * `recover_node`: only a registered, failed node can recover. When its
     * suffix-named node is registered as a primary (the takeover), the
     * takeover's balance is fetched and forced onto the recovering node, and
     * recovery aborts unless both succeed; otherwise recovery proceeds on
     * the node's own state. Recovery removes the failed status and leaves the
     * role and the pairing table alone.
     */
    method RecoverNode(nodeId: string, fetched: Option<int>, forceSetOk: bool)
      returns (response: Response, sent: seq<Call>)
      requires Valid()
      modifies this`accountNodes
      ensures Valid()
      ensures nodeId !in old(accountNodes) ==>
                response == Err(NotFound) && accountNodes == old(accountNodes) && sent == []
      ensures nodeId in old(accountNodes) && !old(accountNodes)[nodeId].IsFailed() ==>
                response == Err(NotFailed) && accountNodes == old(accountNodes) && sent == []
      ensures nodeId in old(accountNodes) && old(accountNodes)[nodeId].IsFailed() ==>
                var takeover := BackupId(nodeId);
                var hasTakeover := takeover in old(accountNodes) && old(accountNodes)[takeover].role == Primary;
                var synced := !hasTakeover || (fetched.Some? && forceSetOk);
                && sent == (if !hasTakeover then []
                            else [GetBalanceCall(takeover)] +
                                 (if fetched.Some? then [ForceSetBalanceCall(nodeId, fetched.value)] else []))
                && (synced ==>
                      && accountNodes == old(accountNodes)[nodeId := old(accountNodes)[nodeId].(status := Active)]
                      && response == NodeRecovered(accountNodes[nodeId], hasTakeover))
                && (!synced ==> accountNodes == old(accountNodes) && response == Err(SyncFailed))
    {
      sent := [];
      if nodeId !in accountNodes {
        response := Err(NotFound);
        return;
      }
      if !accountNodes[nodeId].IsFailed() {
        response := Err(NotFailed);
        return;
      }
      var takeover := BackupId(nodeId);
      var syncSuccess := false;
      var latestBalance: Option<int> := None;
      if takeover in accountNodes && accountNodes[takeover].role == Primary {
        sent := [GetBalanceCall(takeover)];
        latestBalance := fetched;
        if latestBalance.Some? {
          sent := sent + [ForceSetBalanceCall(nodeId, latestBalance.value)];
          syncSuccess := forceSetOk;
        }
      } else {
        syncSuccess := true;
      }
      if syncSuccess {
        accountNodes := accountNodes[nodeId := accountNodes[nodeId].(status := Active)];
        response := NodeRecovered(accountNodes[nodeId], latestBalance.Some?);
      } else {
        response := Err(SyncFailed);
      }
    }

    /** `check_node_status`: reports liveness, role and pairing of a registered node. */
    method CheckNodeStatus(nodeId: string) returns (response: Response)
      ensures nodeId !in accountNodes ==> response == Err(NotFound)
      ensures nodeId in accountNodes ==>
                && response.NodeStatusReport?
                && (response.isActive <==> !accountNodes[nodeId].IsFailed())
                && response.role == accountNodes[nodeId].role
                && response.backupNode == PairedBackup(nodePairs, nodeId)
                && response.lastHeartbeat == accountNodes[nodeId].lastHeartbeat
                && response.port == accountNodes[nodeId].port
    {
      if nodeId !in accountNodes {
        response := Err(NotFound);
        return;
      }
      var info := accountNodes[nodeId];
      var isFailed := info.IsFailed();
      response := NodeStatusReport(!isFailed, info.role, PairedBackup(nodePairs, nodeId),
                                   info.lastHeartbeat, info.port);
    }

    /**
     * The coordinator side of `prepare_transfer`: the call goes to the
     * participant of `accountId` (a backup is replaced by its primary) and
     * succeeds when that replica answers 'success'; no participant, no call.
     */
    method PrepareTransfer(accountId: string, amount: int, isSender: bool, answered: bool)
      returns (ok: bool, sent: seq<Call>)
      ensures Participant(accountNodes, accountId).None? ==> !ok && sent == []
      ensures Participant(accountNodes, accountId).Some? ==>
                sent == [PrepareCall(Participant(accountNodes, accountId).value, amount, isSender)] &&
                ok == answered
    {
      if accountId !in accountNodes {
        return false, [];
      }
      var target := accountId;
      if accountNodes[accountId].role == Backup {
        if IsBackupName(accountId) && PrimaryOf(accountId) in accountNodes {
          target := PrimaryOf(accountId);
        } else {
          return false, [];
        }
      }
      sent := [PrepareCall(target, amount, isSender)];
      ok := answered;
    }

    /** The coordinator side of `execute_transfer`, with the same participant rewrite. */
    method ExecuteTransfer(transactionId: string, accountId: string, amount: int, isSender: bool, answered: bool)
      returns (ok: bool, sent: seq<Call>)
      ensures Participant(accountNodes, accountId).None? ==> !ok && sent == []
      ensures Participant(accountNodes, accountId).Some? ==>
                sent == [ExecuteCall(Participant(accountNodes, accountId).value, transactionId, amount, isSender)] &&
                ok == answered
    {
      if accountId !in accountNodes {
        return false, [];
      }
      var target := accountId;
      if accountNodes[accountId].role == Backup {
        if IsBackupName(accountId) && PrimaryOf(accountId) in accountNodes {
          target := PrimaryOf(accountId);
        } else {
          return false, [];
        }
      }
      sent := [ExecuteCall(target, transactionId, amount, isSender)];
      ok := answered;
    }

    /**
     * `execute_two_phase_commit`: records the transaction as `preparing`, runs
     * the two phases, and overwrites the status with the one they end in,
     * which is the status `Commit` gives; reports success exactly when that
     * is `completed`.
     */
    method ExecuteTwoPhaseCommit(transactionId: string, from: string, to: string, amount: int, replies: Replies)
      returns (ok: bool, sent: seq<Call>)
      requires Valid()
      modifies this`transactions
      ensures Valid()
      ensures var o := Commit(accountNodes, transactionId, from, to, amount, replies);
              && transactions == old(transactions)[transactionId := Txn(o.status, from, to, amount)]
              && sent == o.calls
              && (ok <==> o.status == Completed)
    {
      transactions := transactions[transactionId := Txn(Preparing, from, to, amount)];
      var status;
      status, sent := RunPhases(transactionId, from, to, amount, replies);
      transactions := transactions[transactionId := transactions[transactionId].(status := status)];
      ok := status == Completed;
    }

    /**
     * The two phases of `execute_two_phase_commit`: prepare the sender, then
     * the receiver, then execute the sender, then the receiver, stopping at
     * the first step that does not succeed. A failed prepare aborts, a failed
     * sender execute fails, and a failed receiver execute leaves the transfer
     * inconsistent with nothing rolled back. The status and the calls are
     * those of `Commit`.
     */
    method RunPhases(transactionId: string, from: string, to: string, amount: int, replies: Replies)
      returns (status: TxnStatus, sent: seq<Call>)
      ensures var o := Commit(accountNodes, transactionId, from, to, amount, replies);
              status == o.status && sent == o.calls
    {
      var senderReady, c1 := PrepareTransfer(from, amount, true, replies.senderPrepared);
      sent := c1;
      if !senderReady {
        return Aborted, sent;
      }
      var receiverReady, c2 := PrepareTransfer(to, amount, false, replies.receiverPrepared);
      sent := sent + c2;
      if !receiverReady {
        return Aborted, sent;
      }

      var senderDone, c3 := ExecuteTransfer(transactionId, from, amount, true, replies.senderExecuted);
      sent := sent + c3;
      if !senderDone {
        return Failed, sent;
      }
      var receiverDone, c4 := ExecuteTransfer(transactionId, to, amount, false, replies.receiverExecuted);
      sent := sent + c4;
      if !receiverDone {
        // money has left the sender and not reached the receiver; nothing rolls it back
        return Inconsistent, sent;
      }
      return Completed, sent;
    }

    /**
     * `transfer`: both accounts must be registered; a failed account is
     * redirected to its takeover node, and with none the request is refused
     * before any transaction is recorded. The two-phase commit then runs on
     * the resolved ids; `used_backup` is reported exactly when a resolved id
     * differs from the requested one. Earlier transactions are untouched.
     */
    method Transfer(from: string, to: string, amount: int, transactionId: string, replies: Replies)
      returns (response: Response, sent: seq<Call>)
      requires Valid()
      requires transactionId !in transactions
      modifies this`transactions
      ensures Valid()
      ensures forall t :: t in old(transactions) ==> t in transactions && transactions[t] == old(transactions)[t]
      ensures from !in accountNodes || to !in accountNodes ==>
                response == Err(NotFound) && transactions == old(transactions) && sent == []
      ensures from in accountNodes && to in accountNodes &&
              (Route(accountNodes, nodePairs, from).None? || Route(accountNodes, nodePairs, to).None?) ==>
                response == Err(Unavailable) && transactions == old(transactions) && sent == []
      ensures from in accountNodes && to in accountNodes &&
              Route(accountNodes, nodePairs, from).Some? && Route(accountNodes, nodePairs, to).Some? ==>
                var s, r := Route(accountNodes, nodePairs, from).value, Route(accountNodes, nodePairs, to).value;
                var o := Commit(accountNodes, transactionId, s, r, amount, replies);
                && transactions == old(transactions)[transactionId := Txn(o.status, s, r, amount)]
                && sent == o.calls
                && (o.status == Completed ==> response == TransferDone(transactionId, s != from || r != to))
                && (o.status != Completed ==> response == Err(TransferFailed))
    {
      sent := [];
      if from !in accountNodes || to !in accountNodes {
        response := Err(NotFound);
        return;
      }
      var sender, receiver := from, to;
      var redirected := false;
      if accountNodes[from].IsFailed() {
        var takeover := Takeover(accountNodes, nodePairs, from);
        if takeover.None? {
          response := Err(Unavailable);
          return;
        }
        sender, redirected := takeover.value, true;
      }
      if accountNodes[to].IsFailed() {
        var takeover := Takeover(accountNodes, nodePairs, to);
        if takeover.None? {
          response := Err(Unavailable);
          return;
        }
        receiver, redirected := takeover.value, true;
      }
      RouteWithinAccount(accountNodes, nodePairs, from);
      RouteWithinAccount(accountNodes, nodePairs, to);
      var ok;
      ok, sent := ExecuteTwoPhaseCommit(transactionId, sender, receiver, amount, replies);
      if ok {
        response := TransferDone(transactionId, redirected);
      } else {
        response := Err(TransferFailed);
      }
    }

    /**
     * `get_balance`: the same redirect as `transfer`, then one balance query
     * to the resolved node. `used_backup` is reported exactly when the
     * account is failed, that is, when the query went elsewhere.
     */
    method GetBalance(accountId: string, fetched: Option<int>) returns (response: Response, sent: seq<Call>)
      requires Valid()
      ensures accountId !in accountNodes ==> response == Err(NotFound) && sent == []
      ensures accountId in accountNodes && Route(accountNodes, nodePairs, accountId).None? ==>
                response == Err(Unavailable) && sent == []
      ensures accountId in accountNodes && Route(accountNodes, nodePairs, accountId).Some? ==>
                var target := Route(accountNodes, nodePairs, accountId).value;
                && sent == [GetBalanceCall(target)]
                && (fetched.None? ==> response == Err(BalanceUnavailable))
                && (fetched.Some? ==>
                      response == BalanceReport(fetched.value, target, accountNodes[accountId].IsFailed()))
    {
      sent := [];
      if accountId !in accountNodes {
        response := Err(NotFound);
        return;
      }
      var target := accountId;
      if accountNodes[accountId].IsFailed() {
        var takeover := Takeover(accountNodes, nodePairs, accountId);
        if takeover.None? {
          response := Err(Unavailable);
          return;
        }
        target := takeover.value;
      }
      RouteWithinAccount(accountNodes, nodePairs, accountId);
      sent := [GetBalanceCall(target)];
      if fetched.Some? {
        response := BalanceReport(fetched.value, target, target != accountId);
      } else {
        response := Err(BalanceUnavailable);
      }
    }

    /**
     * `promote_backup_to_primary`: an unknown backup changes nothing and
     * returns false; otherwise the backup becomes a primary, the failed
     * primary's pairing is removed, and it returns true whatever the
     * notification to the backup does.
     */
    method PromoteBackupToPrimary(backupId: string, failedPrimaryId: string) returns (promoted: bool)
      requires Valid()
      modifies this`accountNodes, this`nodePairs
      ensures Valid()
      ensures promoted <==> backupId in old(accountNodes)
      ensures !promoted ==> accountNodes == old(accountNodes) && nodePairs == old(nodePairs)
      ensures promoted ==>
                && accountNodes == old(accountNodes)[backupId := old(accountNodes)[backupId].(role := Primary)]
                && nodePairs == old(nodePairs) - {failedPrimaryId}
    {
      if backupId !in accountNodes {
        return false;
      }
      accountNodes := accountNodes[backupId := accountNodes[backupId].(role := Primary)];
      nodePairs := nodePairs - {failedPrimaryId};
      promoted := true;
    }

    /**
     * `report_node_failure`: accepted only from a backup-role reporter that
     * the pairing table lists as the backup of a registered failed node.
     * The reporter is then promoted and the failed node's entry and pairing
     * are deleted. Other reports change nothing.
     */
    method ReportNodeFailure(reporter: string, failedNode: string, reporterRole: string)
      returns (response: Response)
      requires Valid()
      modifies this`accountNodes, this`nodePairs
      ensures Valid()
      ensures !(reporterRole == "backup" && failedNode != "") ==>
                && response == Err(InvalidReportFormat)
                && accountNodes == old(accountNodes) && nodePairs == old(nodePairs)
      ensures reporterRole == "backup" && failedNode != "" &&
              !(failedNode in old(nodePairs) && old(nodePairs)[failedNode] == reporter && failedNode in old(accountNodes)) ==>
                && response == Err(InvalidReport)
                && accountNodes == old(accountNodes) && nodePairs == old(nodePairs)
      ensures reporterRole == "backup" && failedNode != "" &&
              failedNode in old(nodePairs) && old(nodePairs)[failedNode] == reporter && failedNode in old(accountNodes) ==>
                && response == FailureHandled
                && accountNodes.Keys == old(accountNodes).Keys - {failedNode}
                && nodePairs == old(nodePairs) - {failedNode}
                && (reporter in old(accountNodes) ==>
                      accountNodes[reporter] == old(accountNodes)[reporter].(role := Primary))
                && (forall id :: id in accountNodes && id != reporter ==> accountNodes[id] == old(accountNodes)[id])
    {
      if !(reporterRole == "backup" && failedNode != "") {
        response := Err(InvalidReportFormat);
        return;
      }
      var isValidReporter := failedNode in nodePairs && nodePairs[failedNode] == reporter;
      if !(isValidReporter && failedNode in accountNodes) {
        response := Err(InvalidReport);
        return;
      }
      BackupIdInjective(failedNode, failedNode);
      var _ := PromoteBackupToPrimary(reporter, failedNode);
      accountNodes := accountNodes - {failedNode};
      nodePairs := nodePairs - {failedNode};
      response := FailureHandled;
    }

    /**
     * `init_accounts`: sends `init_balance` to the registered primaries in
     * iteration order and stops at the first one that does not answer
     * 'success'. The registry itself is not touched.
     */
    method InitAccounts(order: seq<string>, amount: int, refused: set<string>)
      returns (response: Response, sent: seq<Call>)
      requires EnumeratesRegistry(accountNodes, order)
      ensures InitReport(PrimariesIn(accountNodes, order), amount, refused, response, sent)
    {
      sent := [];
      ghost var done: seq<string> := [];
      var i := 0;
      while i < |order|
        invariant 0 <= i <= |order|
        invariant done == PrimariesIn(accountNodes, order[..i])
        invariant |sent| == |done|
        invariant forall k :: 0 <= k < |sent| ==> sent[k] == InitBalanceCall(done[k], amount)
        invariant forall k :: 0 <= k < |done| ==> done[k] !in refused
      {
        var id := order[i];
        PrimariesStep(accountNodes, order, i);
        if accountNodes[id].role == Primary {
          sent := sent + [InitBalanceCall(id, amount)];
          done := done + [id];
          if id in refused {
            InitStopsAtFirstFailure(accountNodes, order, i, sent, amount, refused);
            return Err(InitFailed), sent;
          }
        }
        i := i + 1;
      }
      InitCompletes(accountNodes, order, sent, amount, refused);
      response := AccountsInitialized;
    }

    /**
     * One iteration of the `monitor_nodes` loop, for a registered node: a
     * failed node is skipped; a live node whose heartbeat has timed out is
     * marked failed at `now`, and if it is a primary with a registered paired
     * backup, that backup becomes the primary and the pairing is removed.
     * Returns whether the node was marked failed.
     */
    method MonitorStep(id: string, now: int) returns (marked: bool)
      requires id in accountNodes
      modifies this`accountNodes, this`nodePairs
      ensures (accountNodes, nodePairs) == ScanOne(old(accountNodes), old(nodePairs), id, now)
      ensures marked <==> TimedOut(old(accountNodes)[id], now)
    {
      var info := accountNodes[id];
      marked := false;
      if info.IsFailed() {
        // already failed: skipped
      } else if now - info.lastHeartbeat > HeartbeatTimeout {
        accountNodes := accountNodes[id := info.(status := FailedSince(now))];
        marked := true;
        if info.role == Primary && HasRegisteredBackup(accountNodes, nodePairs, id) {
          var backupId := nodePairs[id];
          accountNodes := accountNodes[backupId := accountNodes[backupId].(role := Primary)];
          nodePairs := nodePairs - {id};
        }
      }
    }

    /**
     * One pass of `monitor_nodes` over the registry in iteration order, with
     * the promotion of a timed-out primary's backup done under the lock the
     * pass already holds. The new registry and pairing table are those of
     * `Scan`; the nodes it marks failed are returned in order.
     */
    method MonitorNodes(order: seq<string>, now: int) returns (markedFailed: seq<string>)
      requires Valid()
      requires EnumeratesRegistry(accountNodes, order)
      modifies this`accountNodes, this`nodePairs
      ensures Valid()
      ensures (accountNodes, nodePairs) == Scan(old(accountNodes), old(nodePairs), order, now)
      ensures markedFailed == TimedOutIds(old(accountNodes), order, now)
    {
      markedFailed := [];
      var i := 0;
      while i < |order|
        invariant 0 <= i <= |order|
        invariant (accountNodes, nodePairs) == Scan(old(accountNodes), old(nodePairs), order[..i], now)
        invariant markedFailed == TimedOutIds(old(accountNodes), order[..i], now)
      {
        var id := order[i];
        assert id !in order[..i];
        ScanStep(old(accountNodes), old(nodePairs), order, i, now);
        ScanLeavesUnvisited(old(accountNodes), old(nodePairs), order[..i], now, id);
        var marked := MonitorStep(id, now);
        if marked {
          markedFailed := markedFailed + [id];
        }
        i := i + 1;
      }
      assert order[..|order|] == order;
      ScanWellFormed(old(accountNodes), old(nodePairs), order, now);
    }
  }

}
