/**
 * `monitor_nodes` as written in src/transaction_coordinator.py: the pass
 * runs inside `with self.lock`, and for a timed-out primary with a
 * registered paired backup it calls `promote_backup_to_primary`, which
 * enters `with self.lock` again. The lock is a `threading.Lock`, which is
 * not reentrant, so that second acquisition never returns. This module
 * models the pass with the lock made explicit and relates it to `Scan`,
 * the pass with the promotion done under the lock already held.
 */
module MonitorAsWritten {
  import opened Registry

  /** The coordinator's `threading.Lock`. */
  datatype Lock = Free | Held

  /** How a pass ends: with a new registry and pairing table, or blocked forever. */
  datatype Run = Finished(nodes: Nodes, pairs: Pairs) | Deadlocked

  /**
   * `promote_backup_to_primary` entered with the lock in state `lock`: an
   * unknown backup returns before the lock is taken; otherwise the lock is
   * acquired, which blocks forever when it is already held.
   */
  function PromoteAsWritten(lock: Lock, nodes: Nodes, pairs: Pairs,
                            backupId: string, failedPrimaryId: string): (r: Run)
    ensures lock == Free ==>
              r == Finished(Promoted(nodes, pairs, backupId, failedPrimaryId).0,
                            Promoted(nodes, pairs, backupId, failedPrimaryId).1)
    ensures lock == Held ==> (r == Deadlocked <==> backupId in nodes)
  {
    if backupId !in nodes then Finished(nodes, pairs)
    else if lock == Held then Deadlocked
    else
      var p := Promoted(nodes, pairs, backupId, failedPrimaryId);
      Finished(p.0, p.1)
  }

  /**
   * One step of the as-written loop, with the monitor holding the lock: it
   * blocks exactly when the corrected step would promote a backup, and
   * otherwise does what the corrected step does.
   */
  function ScanOneAsWritten(nodes: Nodes, pairs: Pairs, id: string, now: int): (r: Run)
    ensures r == Deadlocked <==>
              id in nodes && TimedOut(nodes[id], now) && nodes[id].role == Primary &&
              HasRegisteredBackup(nodes, pairs, id)
    ensures r.Finished? ==> (r.nodes, r.pairs) == ScanOne(nodes, pairs, id, now)
  {
    if id in nodes && TimedOut(nodes[id], now) then
      var marked := nodes[id := nodes[id].(status := FailedSince(now))];
      if marked[id].role == Primary && HasRegisteredBackup(marked, pairs, id) then
        PromoteAsWritten(Held, marked, pairs, pairs[id], id)
      else
        Finished(marked, pairs)
    else
      Finished(nodes, pairs)
  }

  /** The as-written pass over `order`; once blocked, it never resumes. */
  function ScanAsWritten(nodes: Nodes, pairs: Pairs, order: seq<string>, now: int): Run
    decreases |order|
  {
    if order == [] then Finished(nodes, pairs)
    else
      match ScanAsWritten(nodes, pairs, order[..|order| - 1], now)
      case Deadlocked => Deadlocked
      case Finished(n, p) => ScanOneAsWritten(n, p, order[|order| - 1], now)
  }

  /**
   * The as-written pass blocks exactly when the corrected pass would promote
   * some backup (that is, remove a pairing), and when it does finish it
   * leaves the same registry and pairing table as the corrected pass.
   */
  lemma {:induction false} AsWrittenDeadlocksExactlyOnPromotion(nodes: Nodes, pairs: Pairs,
                                                                order: seq<string>, now: int)
    ensures var fixed := Scan(nodes, pairs, order, now);
      && (ScanAsWritten(nodes, pairs, order, now) == Deadlocked <==> fixed.1 != pairs)
      && (ScanAsWritten(nodes, pairs, order, now).Finished? ==>
            ScanAsWritten(nodes, pairs, order, now) == Finished(fixed.0, fixed.1))
    decreases |order|
  {
    if order != [] {
      var prefix := order[..|order| - 1];
      var last := order[|order| - 1];
      AsWrittenDeadlocksExactlyOnPromotion(nodes, pairs, prefix, now);
      ScanEffect(nodes, pairs, prefix, now);
      var before := Scan(nodes, pairs, prefix, now);
      var after := ScanOne(before.0, before.1, last, now);
      assert after == Scan(nodes, pairs, order, now);
    }
  }

  /**
   * Primary "a1" and its registered backup "a1b", both last heard from at
   * time 0, scanned at time 16: the corrected pass makes "a1b" the primary,
   * and the as-written pass blocks on the lock instead.
   */
  lemma MonitorDeadlocksOnPromotion()
    ensures var nodes := map["a1" := NodeInfo(6001, 0, Primary, Active),
                             "a1b" := NodeInfo(6003, 0, Backup, Active)];
            var pairs := map["a1" := "a1b"];
            && ScanAsWritten(nodes, pairs, ["a1", "a1b"], 16) == Deadlocked
            && "a1b" in Scan(nodes, pairs, ["a1", "a1b"], 16).0
            && Scan(nodes, pairs, ["a1", "a1b"], 16).0["a1b"].role == Primary
  {
    var nodes := map["a1" := NodeInfo(6001, 0, Primary, Active),
                     "a1b" := NodeInfo(6003, 0, Backup, Active)];
    var pairs := map["a1" := "a1b"];
    var order := ["a1", "a1b"];
    assert order[..1] == ["a1"] && ["a1"][..0] == [];
    ScanPromotes(nodes, pairs, order, 16, "a1");
  }

}
