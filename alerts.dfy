/** The alerts the anomaly engine emits: the numeric fields of each kind, its severity,
    the level it is about and its hour. The human-readable `message` and `detail`
    strings are not part of the model. */
module Alerts {
  import opened Levels
  import opened StableSort

  datatype Severity = Critical | Warning

  /** The `level` field: one of the entry levels, or `'ALL'` for a silence. */
  datatype Scope = Only(level: Level) | All

  /** The kind of an alert with its own fields. A burst keeps the sum and the number of
      its neighbours' counts rather than their (float) average and ratio. */
  datatype Kind =
    | Spike(count: nat, expected: nat)
    | Concentration(source: string, percentage: nat, count: nat, total: nat)
    | Burst(minute: string, count: nat, neighbourSum: nat, neighbourCount: nat)
    | Silence(prevTotal: nat, nextTotal: nat)

  datatype Anomaly = Anomaly(kind: Kind, severity: Severity, scope: Scope, hour: int)

  function AlertHour(a: Anomaly): int {
    a.hour
  }

  /** The key of the final sort: critical before warning, then the hour ascending. */
  function AlertRank(a: Anomaly): Rank {
    Rank(if a.severity == Critical then 0 else 1, a.hour)
  }
}
