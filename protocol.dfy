/**
 * What the coordinator says to replicas and clients: the remote calls it
 * issues, the transaction records, the replies of its commands, and the
 * outcome of the two-phase commit as a function of the participants'
 * answers.
 */
module Protocol {
  import opened Wrappers
  import opened Registry

  /** A request the coordinator sends to a replica and whose answer it uses. */
  datatype Call =
    | PrepareCall(node: string, amount: int, isSender: bool)
    | ExecuteCall(node: string, transactionId: string, amount: int, isSender: bool)
    | GetBalanceCall(node: string)
    | ForceSetBalanceCall(node: string, balance: int)
    | InitBalanceCall(node: string, amount: int)

  /** The transaction status machine: `preparing` and its five outcomes. */
  datatype TxnStatus = Preparing | Aborted | Failed | Inconsistent | Completed | Error {
    predicate IsTerminal() {
      !Preparing?
    }
  }

  /** One `transactions` entry (its timestamp is not modelled). */
  datatype Txn = Txn(status: TxnStatus, from: string, to: string, amount: int)

  /** Whether each participant answered 'success', if the call reaches it. */
  datatype Replies = Replies(senderPrepared: bool, receiverPrepared: bool,
                             senderExecuted: bool, receiverExecuted: bool)

  /** The status a commit ends in and the calls it issued, in order. */
  datatype Outcome = Outcome(status: TxnStatus, calls: seq<Call>)

  datatype ErrorKind =
    | UnknownCommand
    | NotFound
    | NotFailed
    | SyncFailed
    | Unavailable
    | TransferFailed
    | BalanceUnavailable
    | InvalidReport
    | InvalidReportFormat
    | InitFailed

  datatype HeartbeatKind = FromFailedNode | InfoUpdated | NewNodeRegistered

  /** The pairing a heartbeat reply hands out (`backup_info` / `primary_info`). */
  datatype Assignment =
    | BackupAssigned(backupId: string, backupPort: int)
    | PrimaryAssigned(primaryId: string, primaryPort: int)

  /** The coordinator's replies; the message texts are not modelled. */
  datatype Response =
    | Err(kind: ErrorKind)
    | HeartbeatAck(heartbeat: HeartbeatKind, assignment: Option<Assignment>)
    | AccountList(accounts: set<string>)
    | FailureSimulated(backupNode: Option<string>, backupPromoted: bool)
    | NodeRecovered(nodeInfo: NodeInfo, synced: bool)
    | NodeStatusReport(isActive: bool, role: Role, backupNode: Option<string>,
                       lastHeartbeat: int, port: int)
    | TransferDone(transactionId: string, usedBackup: bool)
    | BalanceReport(balance: int, accountId: string, usedBackup: bool)
    | FailureHandled
    | AccountsInitialized
    /** The handler raised after changing state; the client's connection is closed without a reply. */
    | NoReply

  /** Both participants resolve and both answer the prepare with success. */
  predicate PreparesOk(nodes: Nodes, from: string, to: string, replies: Replies) {
    && Participant(nodes, from).Some? && replies.senderPrepared
    && Participant(nodes, to).Some? && replies.receiverPrepared
  }

  /**
   * The position of a two-phase-commit call in the fixed order: sender
   * prepare, receiver prepare, sender execute, receiver execute.
   */
  function Phase(c: Call): nat {
    match c
    case PrepareCall(_, _, isSender) => if isSender then 0 else 1
    case ExecuteCall(_, _, _, isSender) => if isSender then 2 else 3
    case _ => 4
  }

  /** Calls issued strictly in the fixed order, each step at most once. */
  predicate InPhaseOrder(calls: seq<Call>) {
    forall i, j :: 0 <= i < j < |calls| ==> Phase(calls[i]) < Phase(calls[j])
  }

  /**
   * `execute_two_phase_commit` after the transaction is recorded: the sender
   * is prepared before the receiver and executed before the receiver, and no
   * execute is sent before both prepares succeeded. Each step is sent only
   * when every earlier step succeeded, so the commit stops at the first
   * failure. A failed prepare aborts; a failed sender execute fails; a failed
   * receiver execute leaves the transaction inconsistent, with no
   * compensating call; otherwise it completes with exactly the four calls.
   * Every call goes to the participant of its own side.
   */
  function Commit(nodes: Nodes, transactionId: string, from: string, to: string,
                  amount: int, replies: Replies): (o: Outcome)
    ensures o.status.IsTerminal() && !o.status.Error?
    ensures o.status == Aborted <==> !PreparesOk(nodes, from, to, replies)
    ensures o.status == Failed <==>
              PreparesOk(nodes, from, to, replies) && !replies.senderExecuted
    ensures o.status == Inconsistent <==>
              PreparesOk(nodes, from, to, replies) && replies.senderExecuted && !replies.receiverExecuted
    ensures o.status == Completed <==>
              PreparesOk(nodes, from, to, replies) && replies.senderExecuted && replies.receiverExecuted
    ensures InPhaseOrder(o.calls)
    ensures forall i :: 0 <= i < |o.calls| && o.calls[i].ExecuteCall? ==>
              PreparesOk(nodes, from, to, replies) && o.calls[i].transactionId == transactionId
    ensures forall i :: 0 <= i < |o.calls| ==>
              (o.calls[i].PrepareCall? || o.calls[i].ExecuteCall?) && o.calls[i].amount == amount
    ensures forall i :: 0 <= i < |o.calls| ==>
              (o.calls[i].PrepareCall? || o.calls[i].ExecuteCall?) &&
              Participant(nodes, if o.calls[i].isSender then from else to) == Some(o.calls[i].node)
    ensures |o.calls| >= 1 <==> Participant(nodes, from).Some?
    ensures |o.calls| >= 2 <==>
              Participant(nodes, from).Some? && replies.senderPrepared && Participant(nodes, to).Some?
    ensures |o.calls| >= 3 <==> PreparesOk(nodes, from, to, replies)
    ensures |o.calls| >= 4 <==> PreparesOk(nodes, from, to, replies) && replies.senderExecuted
    ensures |o.calls| <= 4
    ensures |o.calls| >= 1 ==> o.calls[0] == PrepareCall(Participant(nodes, from).value, amount, true)
    ensures |o.calls| >= 2 ==> o.calls[1] == PrepareCall(Participant(nodes, to).value, amount, false)
    ensures o.status == Failed ==>
              var s, r := Participant(nodes, from).value, Participant(nodes, to).value;
              o.calls == [PrepareCall(s, amount, true), PrepareCall(r, amount, false),
                          ExecuteCall(s, transactionId, amount, true)]
    ensures o.status.Inconsistent? || o.status.Completed? ==>
              var s, r := Participant(nodes, from).value, Participant(nodes, to).value;
              o.calls == [PrepareCall(s, amount, true), PrepareCall(r, amount, false),
                          ExecuteCall(s, transactionId, amount, true),
                          ExecuteCall(r, transactionId, amount, false)]
  {
    var sender := Participant(nodes, from);
    var receiver := Participant(nodes, to);
    if sender.None? then Outcome(Aborted, [])
    else
      var prepareSender := PrepareCall(sender.value, amount, true);
      if !replies.senderPrepared then Outcome(Aborted, [prepareSender])
      else if receiver.None? then Outcome(Aborted, [prepareSender])
      else
        var prepareReceiver := PrepareCall(receiver.value, amount, false);
        if !replies.receiverPrepared then Outcome(Aborted, [prepareSender, prepareReceiver])
        else
          var executeSender := ExecuteCall(sender.value, transactionId, amount, true);
          if !replies.senderExecuted then
            Outcome(Failed, [prepareSender, prepareReceiver, executeSender])
          else
            var executeReceiver := ExecuteCall(receiver.value, transactionId, amount, false);
            if !replies.receiverExecuted then
              Outcome(Inconsistent, [prepareSender, prepareReceiver, executeSender, executeReceiver])
            else
              Outcome(Completed, [prepareSender, prepareReceiver, executeSender, executeReceiver])
  }

}
