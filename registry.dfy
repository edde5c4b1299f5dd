/**
 * The coordinator's view of the replicas (src/transaction_coordinator.py):
 * registry entries, the primary-to-backup pairing table, and the pure rules
 * the coordinator applies to them: pairing on heartbeat, redirecting a failed
 * account, rewriting a backup participant to its primary, promotion, and the
 * heartbeat-timeout scan.
 */
module Registry {
  import opened Wrappers
  import opened NodeIds

  /** The role a node reported; roles other than these two are kept verbatim. */
  datatype Role = Primary | Backup | OtherRole(name: string)

  /** `status='failed'` and `failure_time`, which are always set and removed together. */
  datatype NodeStatus = Active | FailedSince(failureTime: int)

  /** One `account_nodes` entry. */
  datatype NodeInfo = NodeInfo(port: int, lastHeartbeat: int, role: Role, status: NodeStatus) {
    predicate IsFailed() {
      status.FailedSince?
    }
  }

  type Nodes = map<string, NodeInfo>
  type Pairs = map<string, string>

  /** Seconds without a heartbeat after which the monitor marks a node failed. */
  const HeartbeatTimeout: int := 15

  /**
   * What the coordinator's updates keep of the pairing table: every pairing
   * binds a registered primary to the backup its name gives.
   */
  ghost predicate PairsWellFormed(nodes: Nodes, pairs: Pairs) {
    forall p :: p in pairs ==> pairs[p] == BackupId(p) && p in nodes
  }

  /** A well-formed pairing table never maps two primaries to the same backup. */
  lemma PairsInjective(nodes: Nodes, pairs: Pairs, p: string, q: string)
    requires PairsWellFormed(nodes, pairs)
    requires p in pairs && q in pairs && p != q
    ensures pairs[p] != pairs[q] && pairs[p] != p
  {
    BackupIdInjective(p, q);
  }

  /** `node_pairs.get(id)`. */
  function PairedBackup(pairs: Pairs, id: string): Option<string> {
    if id in pairs then Some(pairs[id]) else None
  }

  /** `backup_id and backup_id in account_nodes` for `backup_id = node_pairs.get(id)`. */
  predicate HasRegisteredBackup(nodes: Nodes, pairs: Pairs, id: string) {
    id in pairs && pairs[id] != "" && pairs[id] in nodes
  }

  // ---------------------------------------------------------------------------
  // Pairing on heartbeat

  /** A primary without a pairing meets its suffix-named registered backup. */
  predicate JoinsAsPrimary(nodes: Nodes, pairs: Pairs, id: string, reportsBackup: bool)
    requires id in nodes
  {
    && nodes[id].role == Primary
    && !reportsBackup
    && id !in pairs
    && BackupId(id) in nodes
    && nodes[BackupId(id)].role == Backup
  }

  /** A backup whose name gives a registered, unpaired primary. */
  predicate JoinsAsBackup(nodes: Nodes, pairs: Pairs, id: string, reportsPrimary: bool)
    requires id in nodes
  {
    && nodes[id].role == Backup
    && !reportsPrimary
    && IsBackupName(id)
    && PrimaryOf(id) in nodes
    && nodes[PrimaryOf(id)].role == Primary
    && PrimaryOf(id) !in pairs
  }

  /**
   * The pairing step of a heartbeat from `id` (after its entry is updated).
   * An existing pairing is never overwritten; a new pairing binds a
   * registered primary to its registered suffix-named backup, one of which
   * is the heartbeating node; nothing is added unless one of the two join
   * conditions holds.
   */
  function PairOnHeartbeat(nodes: Nodes, pairs: Pairs, id: string,
                           reportsBackup: bool, reportsPrimary: bool): (r: Pairs)
    requires id in nodes
    ensures forall p :: p in pairs ==> p in r && r[p] == pairs[p]
    ensures forall p :: p in r && p !in pairs ==>
              && r[p] == BackupId(p)
              && p in nodes && nodes[p].role == Primary
              && r[p] in nodes && nodes[r[p]].role == Backup
              && (p == id || r[p] == id)
    ensures forall p, q :: p in r && p !in pairs && q in r && q !in pairs ==> p == q
    ensures r == pairs <==>
              !JoinsAsPrimary(nodes, pairs, id, reportsBackup) &&
              !JoinsAsBackup(nodes, pairs, id, reportsPrimary)
    ensures PairsWellFormed(nodes, pairs) ==> PairsWellFormed(nodes, r)
  {
    if JoinsAsPrimary(nodes, pairs, id, reportsBackup) then
      pairs[id := BackupId(id)]
    else if JoinsAsBackup(nodes, pairs, id, reportsPrimary) then
      pairs[PrimaryOf(id) := id]
    else
      pairs
  }

  // ---------------------------------------------------------------------------
  // Redirecting a failed account (transfer, get_balance)

  /**
   * The node that answers for failed account `id`: its paired backup if that
   * is registered, otherwise its suffix-named node if the registry lists that
   * as a primary; otherwise there is none and the request is refused.
   */
  function Takeover(nodes: Nodes, pairs: Pairs, id: string): (r: Option<string>)
    ensures r.Some? ==> r.value in nodes
    ensures r.Some? <==>
              HasRegisteredBackup(nodes, pairs, id) ||
              (BackupId(id) in nodes && nodes[BackupId(id)].role == Primary)
    ensures HasRegisteredBackup(nodes, pairs, id) ==> r == Some(pairs[id])
    ensures !HasRegisteredBackup(nodes, pairs, id) && r.Some? ==> r == Some(BackupId(id))
  {
    if HasRegisteredBackup(nodes, pairs, id) then Some(pairs[id])
    else if BackupId(id) in nodes && nodes[BackupId(id)].role == Primary then Some(BackupId(id))
    else None
  }

  /** The id a request for registered account `id` is sent to. */
  function Route(nodes: Nodes, pairs: Pairs, id: string): (r: Option<string>)
    requires id in nodes
    ensures r.Some? ==> r.value in nodes
    ensures !nodes[id].IsFailed() ==> r == Some(id)
  {
    if nodes[id].IsFailed() then Takeover(nodes, pairs, id) else Some(id)
  }

  /**
   * With a well-formed pairing table, routing stays inside the account (the
   * id itself or its suffix-named node), a redirect happens exactly when the
   * account is failed, and only a failed account can be unavailable.
   */
  lemma RouteWithinAccount(nodes: Nodes, pairs: Pairs, id: string)
    requires PairsWellFormed(nodes, pairs) && id in nodes
    ensures Route(nodes, pairs, id).Some? ==>
              var r := Route(nodes, pairs, id).value;
              (r == id || r == BackupId(id)) && (r != id <==> nodes[id].IsFailed())
    ensures Route(nodes, pairs, id).None? ==> nodes[id].IsFailed()
  {
    BackupIdInjective(id, id);
  }

  // ---------------------------------------------------------------------------
  // The participant rewrite of prepare_transfer / execute_transfer

  /**
   * The node a prepare or execute call for `id` is sent to: an unregistered id
   * fails; a node registered as backup is replaced by the primary its name
   * gives, and fails when its name does not give one or that primary is not
   * registered; any other node is used as it is.
   */
  function Participant(nodes: Nodes, id: string): (r: Option<string>)
    ensures r.Some? ==> id in nodes && r.value in nodes
    ensures r.Some? && nodes[id].role == Backup ==> IsBackupName(id) && r.value == PrimaryOf(id)
    ensures r.Some? && nodes[id].role != Backup ==> r.value == id
    ensures r.None? <==>
              id !in nodes ||
              (nodes[id].role == Backup && !(IsBackupName(id) && PrimaryOf(id) in nodes))
  {
    if id !in nodes then None
    else if nodes[id].role == Backup then
      if IsBackupName(id) && PrimaryOf(id) in nodes then Some(PrimaryOf(id)) else None
    else Some(id)
  }

  // ---------------------------------------------------------------------------
  // Promotion and the heartbeat-timeout scan

  /**
   * `promote_backup_to_primary` on the registry: nothing happens when the
   * backup is unknown; otherwise it becomes a primary and the failed
   * primary's pairing is removed.
   */
  function Promoted(nodes: Nodes, pairs: Pairs, backupId: string, failedPrimaryId: string): (r: (Nodes, Pairs))
    ensures r.0.Keys == nodes.Keys
    ensures backupId !in nodes ==> r == (nodes, pairs)
    ensures backupId in nodes ==>
              r.0 == nodes[backupId := nodes[backupId].(role := Primary)] &&
              r.1 == pairs - {failedPrimaryId}
    ensures PairsWellFormed(nodes, pairs) ==> PairsWellFormed(r.0, r.1)
  {
    if backupId !in nodes then (nodes, pairs)
    else (nodes[backupId := nodes[backupId].(role := Primary)], pairs - {failedPrimaryId})
  }

  /** A live node whose last heartbeat is strictly more than the timeout ago. */
  predicate TimedOut(info: NodeInfo, now: int) {
    !info.IsFailed() && now - info.lastHeartbeat > HeartbeatTimeout
  }

  /**
   * One step of the `monitor_nodes` loop, for node `id`: a timed-out node is
   * marked failed at `now`, and a timed-out primary with a registered paired
   * backup has that backup promoted. Keys, ports and heartbeats stay; the
   * only role that changes is that backup's, which becomes primary; the only
   * pairing removed is the visited node's, and only when it is promoted.
   */
  function ScanOne(nodes: Nodes, pairs: Pairs, id: string, now: int): (r: (Nodes, Pairs))
    ensures r.0.Keys == nodes.Keys
    ensures forall k :: k in nodes ==>
              r.0[k].port == nodes[k].port && r.0[k].lastHeartbeat == nodes[k].lastHeartbeat
    ensures forall k :: k in nodes ==>
              r.0[k].status == (if k == id && TimedOut(nodes[k], now) then FailedSince(now) else nodes[k].status)
    ensures forall k :: k in nodes ==> r.0[k].role == nodes[k].role || r.0[k].role == Primary
    ensures forall p :: p in r.1 ==> p in pairs && r.1[p] == pairs[p]
    ensures r.1.Keys == pairs.Keys || r.1.Keys == pairs.Keys - {id}
    ensures forall k :: k in nodes && r.0[k].role != nodes[k].role ==>
              id in nodes && TimedOut(nodes[id], now) && nodes[id].role == Primary &&
              HasRegisteredBackup(nodes, pairs, id) && k == pairs[id]
    ensures r.1 != pairs ==>
              id in nodes && TimedOut(nodes[id], now) && nodes[id].role == Primary &&
              HasRegisteredBackup(nodes, pairs, id)
    ensures id in nodes && TimedOut(nodes[id], now) && nodes[id].role == Primary &&
            HasRegisteredBackup(nodes, pairs, id) ==>
              id !in r.1 && r.0[pairs[id]].role == Primary
  {
    if id in nodes && TimedOut(nodes[id], now) then
      var marked := nodes[id := nodes[id].(status := FailedSince(now))];
      if marked[id].role == Primary && HasRegisteredBackup(marked, pairs, id) then
        Promoted(marked, pairs, pairs[id], id)
      else
        (marked, pairs)
    else
      (nodes, pairs)
  }

  /** One full pass of the monitor over `order`, the registry's iteration order. */
  function Scan(nodes: Nodes, pairs: Pairs, order: seq<string>, now: int): (r: (Nodes, Pairs))
    ensures r.0.Keys == nodes.Keys
    ensures forall p :: p in r.1 ==> p in pairs && r.1[p] == pairs[p]
    decreases |order|
  {
    if order == [] then (nodes, pairs)
    else
      var before := Scan(nodes, pairs, order[..|order| - 1], now);
      ScanOne(before.0, before.1, order[|order| - 1], now)
  }

  /** The nodes of `order` the pass marks failed, in order (`nodes_marked_failed_this_cycle`). */
  function TimedOutIds(nodes: Nodes, order: seq<string>, now: int): seq<string>
    decreases |order|
  {
    if order == [] then []
    else
      var last := order[|order| - 1];
      TimedOutIds(nodes, order[..|order| - 1], now) +
      (if last in nodes && TimedOut(nodes[last], now) then [last] else [])
  }

  /** The ids marked failed are exactly the visited ids that had timed out. */
  lemma {:induction false} TimedOutIdsExactly(nodes: Nodes, order: seq<string>, now: int)
    ensures var r := TimedOutIds(nodes, order, now);
      && |r| <= |order|
      && (forall i :: 0 <= i < |r| ==> r[i] in order && r[i] in nodes && TimedOut(nodes[r[i]], now))
      && (forall k :: k in order && k in nodes && TimedOut(nodes[k], now) ==> k in r)
    decreases |order|
  {
    if order != [] {
      var prefix := order[..|order| - 1];
      assert order == prefix + [order[|order| - 1]];
      TimedOutIdsExactly(nodes, prefix, now);
    }
  }

  /**
   * What one pass of the monitor does, whatever the order: the same keys,
   * ports and heartbeats; exactly the visited timed-out nodes become failed
   * at `now` and every other status is kept (failed nodes are skipped);
   * roles only change to primary; pairings are only removed, and only those
   * of visited timed-out nodes; a well-formed pairing table stays
   * well-formed.
   */
  lemma {:induction false} ScanEffect(nodes: Nodes, pairs: Pairs, order: seq<string>, now: int)
    ensures var r := Scan(nodes, pairs, order, now);
      && r.0.Keys == nodes.Keys
      && (forall k :: k in nodes ==>
            r.0[k].port == nodes[k].port && r.0[k].lastHeartbeat == nodes[k].lastHeartbeat)
      && (forall k :: k in nodes ==>
            r.0[k].status == (if k in order && TimedOut(nodes[k], now) then FailedSince(now) else nodes[k].status))
      && (forall k :: k in nodes ==> r.0[k].role == nodes[k].role || r.0[k].role == Primary)
      && (forall p :: p in r.1 ==> p in pairs && r.1[p] == pairs[p])
      && (forall p :: p in pairs && p !in r.1 ==> p in order && p in nodes && TimedOut(nodes[p], now))
      && (PairsWellFormed(nodes, pairs) ==> PairsWellFormed(r.0, r.1))
    decreases |order|
  {
    if order != [] {
      var prefix := order[..|order| - 1];
      var last := order[|order| - 1];
      ScanEffect(nodes, pairs, prefix, now);
      var before := Scan(nodes, pairs, prefix, now);
      assert order == prefix + [last];
      assert forall k :: k in order <==> k in prefix || k == last;
      forall k | k in nodes
        ensures before.0[k].lastHeartbeat == nodes[k].lastHeartbeat
        ensures TimedOut(before.0[k], now) <==> k !in prefix && TimedOut(nodes[k], now)
      {
      }
    }
  }

  /**
   * The only roles a pass changes are those of backups paired with a visited
   * node that had timed out, and a pairing is removed only together with
   * the promotion of its backup.
   */
  lemma {:induction false} ScanPromotesOnlyPairedBackups(nodes: Nodes, pairs: Pairs, order: seq<string>, now: int)
    ensures var r := Scan(nodes, pairs, order, now);
      && r.0.Keys == nodes.Keys
      && (forall k :: k in nodes && r.0[k].role != nodes[k].role ==>
            exists p :: p in order && p in pairs && pairs[p] == k && p in nodes && TimedOut(nodes[p], now))
      && (forall p :: p in pairs && p !in r.1 ==> pairs[p] in r.0 && r.0[pairs[p]].role == Primary)
    decreases |order|
  {
    if order != [] {
      var prefix := order[..|order| - 1];
      var last := order[|order| - 1];
      assert order == prefix + [last];
      ScanPromotesOnlyPairedBackups(nodes, pairs, prefix, now);
      ScanEffect(nodes, pairs, prefix, now);
      var before := Scan(nodes, pairs, prefix, now);
      var after := ScanOne(before.0, before.1, last, now);
      forall k | k in nodes && after.0[k].role != nodes[k].role
        ensures exists p :: p in order && p in pairs && pairs[p] == k && p in nodes && TimedOut(nodes[p], now)
      {
        if before.0[k].role != nodes[k].role {
          var p :| p in prefix && p in pairs && pairs[p] == k && p in nodes && TimedOut(nodes[p], now);
          assert p in order;
        } else {
          assert last in before.1 && before.1[last] == k && TimedOut(before.0[last], now);
          assert last in order && pairs[last] == k && TimedOut(nodes[last], now);
        }
      }
      forall p | p in pairs && p !in after.1
        ensures pairs[p] in after.0 && after.0[pairs[p]].role == Primary
      {
        if p in before.1 {
          assert before.1 != after.1 && p == last;
        }
      }
    }
  }

  /** Extending the visited prefix by one id adds one `ScanOne` step to the pass. */
  lemma ScanStep(nodes: Nodes, pairs: Pairs, order: seq<string>, i: nat, now: int)
    requires i < |order|
    ensures var before := Scan(nodes, pairs, order[..i], now);
      Scan(nodes, pairs, order[..i + 1], now) == ScanOne(before.0, before.1, order[i], now)
    ensures TimedOutIds(nodes, order[..i + 1], now) ==
              TimedOutIds(nodes, order[..i], now) +
              (if order[i] in nodes && TimedOut(nodes[order[i]], now) then [order[i]] else [])
  {
    assert order[..i + 1][..i] == order[..i];
  }

  /**
   * A node the pass has not visited yet is still registered and still has
   * the status and heartbeat it started with.
   */
  lemma ScanLeavesUnvisited(nodes: Nodes, pairs: Pairs, order: seq<string>, now: int, k: string)
    requires k in nodes && k !in order
    ensures var r := Scan(nodes, pairs, order, now);
      k in r.0 && r.0[k].status == nodes[k].status && r.0[k].lastHeartbeat == nodes[k].lastHeartbeat
  {
    ScanEffect(nodes, pairs, order, now);
  }

  /** A well-formed pairing table stays well-formed through a pass. */
  lemma ScanWellFormed(nodes: Nodes, pairs: Pairs, order: seq<string>, now: int)
    requires PairsWellFormed(nodes, pairs)
    ensures var r := Scan(nodes, pairs, order, now);
      PairsWellFormed(r.0, r.1)
  {
    ScanEffect(nodes, pairs, order, now);
  }

  /**
   * A visited primary that has timed out and has a registered paired backup
   * loses its pairing, and that backup ends the pass as a primary.
   */
  lemma {:induction false} ScanPromotes(nodes: Nodes, pairs: Pairs, order: seq<string>, now: int, p: string)
    requires p in order && p in nodes && TimedOut(nodes[p], now) && nodes[p].role == Primary
    requires HasRegisteredBackup(nodes, pairs, p)
    ensures var r := Scan(nodes, pairs, order, now);
      p !in r.1 && pairs[p] in r.0 && r.0[pairs[p]].role == Primary
    decreases |order|
  {
    var prefix := order[..|order| - 1];
    var last := order[|order| - 1];
    assert order == prefix + [last];
    var before := Scan(nodes, pairs, prefix, now);
    ScanEffect(nodes, pairs, prefix, now);
    if p in prefix {
      ScanPromotes(nodes, pairs, prefix, now, p);
    } else {
      assert p == last;
      assert p in before.1 && before.1[p] == pairs[p];
      assert TimedOut(before.0[p], now) && before.0[p].role == Primary;
    }
  }

}
