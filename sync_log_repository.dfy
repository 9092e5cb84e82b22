/**
 * The inventory-sync log table's one query: is there already a row with
 * this sync type and reference?
 */
module InventorySyncLogRepository {
  import opened Domain

  /** The number of rows with this sync type and reference. */
  function CountBySyncTypeAndReferenceId(logs: seq<InventorySyncLog>, syncType: string, referenceId: string): (n: nat)
    ensures n <= |logs|
    ensures n == 0 <==> forall i :: 0 <= i < |logs| ==> !(logs[i].syncType == syncType && logs[i].referenceId == referenceId)
  {
    if logs == [] then 0
    else
      var last := logs[|logs| - 1];
      CountBySyncTypeAndReferenceId(logs[..|logs| - 1], syncType, referenceId)
        + if last.syncType == syncType && last.referenceId == referenceId then 1 else 0
  }

  function ExistsBySyncTypeAndReferenceId(logs: seq<InventorySyncLog>, syncType: string, referenceId: string): (b: bool)
    ensures b <==> exists i :: 0 <= i < |logs| && logs[i].syncType == syncType && logs[i].referenceId == referenceId
  {
    CountBySyncTypeAndReferenceId(logs, syncType, referenceId) > 0
  }

  /** Appending a row adds one to the count of exactly its own (type, reference) key. */
  lemma {:induction false} CountAfterAppend(logs: seq<InventorySyncLog>, row: InventorySyncLog, syncType: string, referenceId: string)
    ensures CountBySyncTypeAndReferenceId(logs + [row], syncType, referenceId)
         == CountBySyncTypeAndReferenceId(logs, syncType, referenceId)
            + if row.syncType == syncType && row.referenceId == referenceId then 1 else 0
  {
    assert (logs + [row])[..|logs|] == logs;
  }
}
