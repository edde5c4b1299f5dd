/**
 * Balance conservation across replicas. A completed transfer is one sender
 * `execute_transfer` and one receiver `execute_transfer` of the same amount;
 * the balances of several replicas are a sequence indexed by account.
 */
module Ledger {
  import opened Account
  import opened Protocol

  /** The sum of all balances. */
  function Total(balances: seq<int>): int {
    if balances == [] then 0 else balances[0] + Total(balances[1..])
  }

  /** Replacing one balance changes the total by exactly the difference. */
  lemma {:induction false} TotalUpdate(balances: seq<int>, i: nat, v: int)
    requires i < |balances|
    ensures Total(balances[i := v]) == Total(balances) - balances[i] + v
  {
    if i == 0 {
      assert balances[i := v][1..] == balances[1..];
    } else {
      assert balances[i := v][1..] == balances[1..][i - 1 := v];
      TotalUpdate(balances[1..], i - 1, v);
    }
  }

  /** One completed transfer between two accounts, by position. */
  datatype Settlement = Settlement(sender: nat, receiver: nat, amount: int)

  predicate InRange(balances: seq<int>, s: Settlement) {
    s.sender < |balances| && s.receiver < |balances|
  }

  /**
   * The sender's execute followed by the receiver's execute. The total is
   * unchanged and no other account is touched.
   */
  function Settle(balances: seq<int>, s: Settlement): (r: seq<int>)
    requires InRange(balances, s)
    ensures |r| == |balances|
    ensures Total(r) == Total(balances)
    ensures s.sender != s.receiver ==>
              r[s.sender] == balances[s.sender] - s.amount &&
              r[s.receiver] == balances[s.receiver] + s.amount
    ensures forall k :: 0 <= k < |r| && k != s.sender && k != s.receiver ==> r[k] == balances[k]
  {
    var debited := balances[s.sender := Settled(balances[s.sender], s.amount, true)];
    TotalUpdate(balances, s.sender, Settled(balances[s.sender], s.amount, true));
    TotalUpdate(debited, s.receiver, Settled(debited[s.receiver], s.amount, false));
    debited[s.receiver := Settled(debited[s.receiver], s.amount, false)]
  }

  predicate AllInRange(balances: seq<int>, settlements: seq<Settlement>) {
    forall i :: 0 <= i < |settlements| ==> InRange(balances, settlements[i])
  }

  /** Any sequence of completed transfers, applied in order, conserves the total. */
  function SettleAll(balances: seq<int>, settlements: seq<Settlement>): (r: seq<int>)
    requires AllInRange(balances, settlements)
    ensures |r| == |balances|
    ensures Total(r) == Total(balances)
    decreases |settlements|
  {
    if settlements == [] then balances
    else SettleAll(Settle(balances, settlements[0]), settlements[1..])
  }

  /** Every call names a replica that has a position among the balances. */
  predicate Addressed(balances: seq<int>, index: map<string, nat>, calls: seq<Call>) {
    forall i :: 0 <= i < |calls| ==> calls[i].node in index && index[calls[i].node] < |balances|
  }

  /**
   * The balances after the replicas act on `calls` in order: a prepare
   * changes nothing, and an execute changes its replica's balance when it
   * took effect, which for the sender's side is `senderApplied` and for the
   * receiver's side `receiverApplied`.
   */
  function ApplyExecutes(balances: seq<int>, index: map<string, nat>, calls: seq<Call>,
                         senderApplied: bool, receiverApplied: bool): (r: seq<int>)
    requires Addressed(balances, index, calls)
    ensures |r| == |balances|
    decreases |calls|
  {
    if calls == [] then balances
    else
      var c := calls[0];
      var k := index[c.node];
      var next :=
        if c.ExecuteCall? && (if c.isSender then senderApplied else receiverApplied)
        then balances[k := Settled(balances[k], c.amount, c.isSender)]
        else balances;
      ApplyExecutes(next, index, calls[1..], senderApplied, receiverApplied)
  }

  /**
   * What a two-phase commit does to the total of the balances, taking an
   * execute whose reply was not 'success' to have changed nothing: an
   * aborted or failed commit leaves every balance as it was, an
   * inconsistent one (sender executed, receiver not) loses the amount, and a
   * completed one keeps the total.
   */
  lemma CommitBalanceEffect(nodes: Registry.Nodes, transactionId: string, from: string, to: string,
                            amount: int, replies: Replies, balances: seq<int>, index: map<string, nat>)
    requires Addressed(balances, index, Commit(nodes, transactionId, from, to, amount, replies).calls)
    ensures var o := Commit(nodes, transactionId, from, to, amount, replies);
      var after := ApplyExecutes(balances, index, o.calls, replies.senderExecuted, replies.receiverExecuted);
      && (o.status == Aborted || o.status == Failed ==> after == balances)
      && (o.status == Inconsistent ==> Total(after) == Total(balances) - amount)
      && (o.status == Completed ==> Total(after) == Total(balances))
  {
    var o := Commit(nodes, transactionId, from, to, amount, replies);
    var se, re := replies.senderExecuted, replies.receiverExecuted;
    if o.status == Aborted || o.status == Failed {
      NoEffectWithout(balances, index, o.calls, se, re);
    } else {
      var calls := o.calls;
      var s, r := index[calls[2].node], index[calls[3].node];
      var debited := balances[s := Settled(balances[s], amount, true)];
      var credited := debited[r := Settled(debited[r], amount, false)];
      assert calls[1..][1..] == calls[2..];
      assert calls[2..][1..] == calls[3..] && calls[3..][1..] == [];
      assert calls[0].PrepareCall? && calls[1].PrepareCall?;
      assert calls[2] == ExecuteCall(calls[2].node, transactionId, amount, true) && se;
      assert ApplyExecutes(balances, index, calls, se, re) == ApplyExecutes(balances, index, calls[1..], se, re);
      assert ApplyExecutes(balances, index, calls[1..], se, re) == ApplyExecutes(balances, index, calls[2..], se, re);
      assert ApplyExecutes(balances, index, calls[2..], se, re) == ApplyExecutes(debited, index, calls[3..], se, re);
      TotalUpdate(balances, s, Settled(balances[s], amount, true));
      if o.status == Completed {
        assert ApplyExecutes(debited, index, calls[3..], se, re) == credited;
        TotalUpdate(debited, r, Settled(debited[r], amount, false));
      } else {
        assert ApplyExecutes(debited, index, calls[3..], se, re) == debited;
      }
    }
  }

  /** With neither side applied, or with no execute among the calls, nothing changes. */
  lemma {:induction false} NoEffectWithout(balances: seq<int>, index: map<string, nat>, calls: seq<Call>,
                                            senderApplied: bool, receiverApplied: bool)
    requires Addressed(balances, index, calls)
    requires forall i :: 0 <= i < |calls| && calls[i].ExecuteCall? ==>
               !(if calls[i].isSender then senderApplied else receiverApplied)
    ensures ApplyExecutes(balances, index, calls, senderApplied, receiverApplied) == balances
    decreases |calls|
  {
    if calls != [] {
      NoEffectWithout(balances, index, calls[1..], senderApplied, receiverApplied);
    }
  }

}
