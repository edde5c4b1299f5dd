/**
 * One account replica (`AccountNode` in src/account_node.py): a balance and
 * an append-only transaction history, served through one request handler.
 * The socket, JSON framing, the lock and the snapshot file are not modelled;
 * the wall clock is the `now` parameter.
 */
module Account {

  /** One history record: the transaction id and the signed amount (negative for a debit). */
  datatype Entry = Entry(transactionId: string, amount: int, timestamp: int)

  /** The commands the replica understands, with the defaults of `request.get` already applied. */
  datatype Request =
    | GetBalance
    | PrepareTransfer(amount: int, isSender: bool)
    | ExecuteTransfer(transactionId: string, amount: int, isSender: bool)
    | Heartbeat
    | InitBalance(amount: int)
    | Unknown(command: string)

  /** The replies, one per response shape of the handler. */
  datatype Reply =
    | BalanceIs(balance: int)
    | ReadyToTransfer
    | InsufficientFunds
    | TransferExecuted(newBalance: int)
    | NodeAlive(nodeId: string)
    | BalanceInitialized(balance: int)
    | UnknownCommand
  {
    /** The `status` field of the reply is 'success'. */
    predicate Succeeded() {
      !(InsufficientFunds? || UnknownCommand?)
    }
  }

  /** The amount as recorded in the history: a sender records a debit. */
  function SignedAmount(amount: int, isSender: bool): int {
    if isSender then -amount else amount
  }

  /** The balance after executing one side of a transfer. */
  function Settled(balance: int, amount: int, isSender: bool): int {
    balance + SignedAmount(amount, isSender)
  }

  /** The sum of the signed amounts of a history. */
  function SumAmounts(history: seq<Entry>): int {
    if history == [] then 0 else history[0].amount + SumAmounts(history[1..])
  }

  /** Appending one entry adds exactly its amount to the history's sum. */
  lemma {:induction false} SumAmountsAppend(history: seq<Entry>, e: Entry)
    ensures SumAmounts(history + [e]) == SumAmounts(history) + e.amount
  {
    if history != [] {
      assert (history + [e])[1..] == history[1..] + [e];
      SumAmountsAppend(history[1..], e);
    }
  }

  class AccountNode {
    const nodeId: string
    var balance: int
    var history: seq<Entry>

    /**
     * The part of the balance the history does not explain: the initial
     * balance set by `init_balance`. Every execute keeps it.
     */
    ghost function Unexplained(): int
      reads this
    {
      balance - SumAmounts(history)
    }

    /** A replica without a snapshot file starts at balance 0 with no history. */
    constructor (nodeId: string)
      ensures this.nodeId == nodeId && balance == 0 && history == []
    {
      this.nodeId := nodeId;
      balance := 0;
      history := [];
    }

    /** `get_balance`: reports the balance and changes nothing. */
    method GetBalance() returns (reply: Reply)
      ensures reply == BalanceIs(balance)
    {
      reply := BalanceIs(balance);
    }

    /**
     * `prepare_transfer`, phase one of the two-phase commit: only a sender can
     * be refused, and only when its balance is below the amount. Nothing is
     * reserved or changed, whatever the answer.
     */
    method PrepareTransfer(amount: int, isSender: bool) returns (reply: Reply)
      ensures reply == InsufficientFunds <==> isSender && balance < amount
      ensures reply != InsufficientFunds ==> reply == ReadyToTransfer
      ensures !isSender ==> reply.Succeeded()
    {
      if isSender && balance < amount {
        reply := InsufficientFunds;
      } else {
        reply := ReadyToTransfer;
      }
    }

    /**
     * `execute_transfer`, phase two: debits a sender or credits a receiver and
     * appends exactly one signed history entry. Funds are not rechecked and the
     * transaction id is not deduplicated.
     */
    method ExecuteTransfer(transactionId: string, amount: int, isSender: bool, now: int)
      returns (reply: Reply)
      modifies this
      ensures isSender ==> balance == old(balance) - amount
      ensures !isSender ==> balance == old(balance) + amount
      ensures balance == Settled(old(balance), amount, isSender)
      ensures history == old(history) + [Entry(transactionId, SignedAmount(amount, isSender), now)]
      ensures reply == TransferExecuted(balance)
      ensures Unexplained() == old(Unexplained())
    {
      if isSender {
        balance := balance - amount;
      } else {
        balance := balance + amount;
      }
      SumAmountsAppend(history, Entry(transactionId, SignedAmount(amount, isSender), now));
      history := history + [Entry(transactionId, SignedAmount(amount, isSender), now)];
      reply := TransferExecuted(balance);
    }

    /** `init_balance`: overwrites the balance and leaves the history alone. */
    method InitBalance(amount: int) returns (reply: Reply)
      modifies this
      ensures balance == amount && history == old(history)
      ensures Unexplained() == amount - SumAmounts(history)
      ensures reply == BalanceInitialized(amount)
    {
      balance := amount;
      reply := BalanceInitialized(balance);
    }

    /** `heartbeat` as a health check: answers with the node id. */
    method Heartbeat() returns (reply: Reply)
      ensures reply == NodeAlive(nodeId)
    {
      reply := NodeAlive(nodeId);
    }

    /**
     * `handle_request`: dispatches on the command. Only `execute_transfer` and
     * `init_balance` touch the state, only `init_balance` changes the part of
     * the balance the history does not explain, and an unknown command gets
     * the default error.
     */
    method HandleRequest(request: Request, now: int) returns (reply: Reply)
      modifies this
      ensures !(request.ExecuteTransfer? || request.InitBalance?) ==>
                balance == old(balance) && history == old(history)
      ensures !request.InitBalance? ==> Unexplained() == old(Unexplained())
      ensures request.Unknown? ==> reply == UnknownCommand
      ensures request.GetBalance? ==> reply == BalanceIs(balance)
      ensures request.Heartbeat? ==> reply == NodeAlive(nodeId)
      ensures request.PrepareTransfer? ==>
                (reply == InsufficientFunds <==> request.isSender && balance < request.amount) &&
                (reply != InsufficientFunds ==> reply == ReadyToTransfer)
      ensures request.ExecuteTransfer? ==>
                balance == Settled(old(balance), request.amount, request.isSender) &&
                history == old(history) + [Entry(request.transactionId, SignedAmount(request.amount, request.isSender), now)] &&
                reply == TransferExecuted(balance)
      ensures request.InitBalance? ==>
                balance == request.amount && history == old(history) &&
                reply == BalanceInitialized(request.amount)
    {
      match request
      case GetBalance =>
        reply := GetBalance();
      case PrepareTransfer(amount, isSender) =>
        reply := PrepareTransfer(amount, isSender);
      case ExecuteTransfer(transactionId, amount, isSender) =>
        reply := ExecuteTransfer(transactionId, amount, isSender, now);
      case Heartbeat =>
        reply := Heartbeat();
      case InitBalance(amount) =>
        reply := InitBalance(amount);
      case Unknown(_) =>
        reply := UnknownCommand;
    }
  }

  /**
   * Executing the same sender side twice applies it twice: nothing stops a
   * replayed `execute_transfer`, and the balance goes below zero.
   */
  method ReplayedExecuteScenario() returns (balance: int, history: seq<Entry>)
    ensures balance == -100
    ensures |history| == 2 && history[0].transactionId == history[1].transactionId == "t1"
  {
    var node := new AccountNode("a1");
    var _ := node.InitBalance(100);
    var _ := node.ExecuteTransfer("t1", 100, true, 1);
    var _ := node.ExecuteTransfer("t1", 100, true, 2);
    balance, history := node.balance, node.history;
  }

  /** The insufficient-funds scenario: a 500 balance refuses to send 1000 and keeps its 500. */
  method InsufficientFundsScenario() returns (reply: Reply, balance: int)
    ensures reply == InsufficientFunds && balance == 500
  {
    var node := new AccountNode("a1");
    var _ := node.InitBalance(500);
    reply := node.HandleRequest(PrepareTransfer(1000, true), 0);
    balance := node.balance;
  }

}
