/** The dashboard's domain entity and the vocabulary of its queries (src/types/index.ts). */
module Node {

  /** A node's health as shown on the dashboard. */
  datatype Status = Active | Inactive | Syncing

  /** The string the status carries in the source, which is what sorting compares. */
  function StatusName(s: Status): string {
    match s
    case Active => "active"
    case Inactive => "inactive"
    case Syncing => "syncing"
  }

  /**
   * One monitored node. Scores are reals; `lastHeartbeat` is a date, kept as its
   * millisecond timestamp; storage figures are in GB.
   */
  datatype PNode = PNode(
    identity: string,
    status: Status,
    uptime: real,
    performance: real,
    lastHeartbeat: int,
    storageUsed: real,
    storageCap: real,
    slotsProduced: int,
    slotsSkipped: int,
    peerId: string,
    version: string,
    reputation: real)

  /** `keyof PNode`: the column a table is sorted by. */
  datatype SortKey =
    | ByIdentity | ByStatus | ByUptime | ByPerformance | ByLastHeartbeat | ByStorageUsed
    | ByStorageCap | BySlotsProduced | BySlotsSkipped | ByPeerId | ByVersion | ByReputation

  datatype SortOrder = Asc | Desc

  /** The status tab: every node, or only nodes with one status. */
  datatype FilterStatus = All | Only(status: Status)
}
