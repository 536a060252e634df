/**
 * main: resolve the configured pair, derive the table, pick the loop's
 * starting cursor and the completion estimate's base from whether the
 * table already exists, then run the sync loop from there.
 */
module Ingest {
  import opened Wrappers
  import opened Trades
  import opened Store
  import Pairs
  import Int64
  import Sync
  import Eta

  /**
   * The table as main finds it: None when it does not exist yet (main
   * creates it empty), else the rows already stored.
   */
  type Existing = Option<seq<Trade>>

  /** querySince before the first fetch: 0 for a new table, else the resume cursor. */
  function StartCursor(existing: Existing): Int64.I64
  {
    match existing
    case None => 0
    case Some(rows) => ResumeCursor(rows)
  }

  /** The `last` passed to estCompletionTime: 0 for a new table, else the highest stored trade id. */
  function EstimateBase(existing: Existing): Int64.I64
  {
    match existing
    case None => 0
    case Some(rows) => LastTradeId(rows)
  }

  /** The rows in the table when the loop starts. */
  function StoredRows(existing: Existing): seq<Trade>
  {
    match existing
    case None => []
    case Some(rows) => rows
  }

  /** The loop's inputs: the resolved pair, the table derived from the raw input. */
  function SessionOf(config: Pairs.Config, fetch: (string, int) -> Option<Json>, ops: FloatOps): Sync.Session
  {
    Sync.Session(fetch, ops, config.resolution.pair, config.table)
  }

  /** What a run of main leaves behind. */
  datatype Report = Report(
    config: Pairs.Config,
    estimateBase: Int64.I64,
    estimate: Eta.Estimate,
    rows: seq<Trade>,
    events: seq<Sync.Event>,
    status: Sync.Status)

  /**
   * main from the catalog fetch on, given the catalog and the completion
   * estimate's request return normally (`latest` is the newest trade id
   * that request reads from the upstream): every request of the loop is for
   * the resolved pair, and a pair that is neither canonical nor an
   * alternate name is still requested, as the upper-cased input.
   */
  method Ingest(name: string, pairs: seq<string>, alts: seq<string>, existing: Existing,
                fetch: (string, int) -> Option<Json>, ops: FloatOps, latest: Int64.I64, ghost fuel: nat)
    returns (report: Report)
    requires |pairs| == |alts|
    requires Sync.Run(SessionOf(Pairs.Configure(name, pairs, alts), fetch, ops), StartCursor(existing), fuel).status.Some?
    ensures report.config == Pairs.Configure(name, pairs, alts)
    ensures report.events != []
    ensures report.estimate == Eta.EstCompletion(latest, report.estimateBase)
    ensures Sync.RequestsFor(report.config.resolution.pair, report.events)
    ensures existing.None? ==>
      && report.events[0] == Sync.Fetch(report.config.resolution.pair, 0)
      && report.estimateBase == 0
      && report.rows == Sync.TradesAlong(SessionOf(report.config, fetch, ops), Sync.Fetches(report.events))
    ensures existing.Some? ==>
      && report.events[0] == Sync.Fetch(report.config.resolution.pair, ResumeCursor(existing.value))
      && report.estimateBase == LastTradeId(existing.value)
      && report.rows == existing.value + Sync.TradesAlong(SessionOf(report.config, fetch, ops), Sync.Fetches(report.events))
    ensures var run := Sync.Run(SessionOf(report.config, fetch, ops), StartCursor(existing), fuel);
      report.rows == StoredRows(existing) + run.trades && report.events == run.events && report.status == run.status.value
  {
    var config := Pairs.Configure(name, pairs, alts);
    var s := SessionOf(config, fetch, ops);
    var start: int;
    var stored: seq<Trade>;
    var base: Int64.I64;
    if existing.None? {
      start, stored, base := 0, [], 0;
    } else {
      start, stored, base := ResumeCursor(existing.value), existing.value, LastTradeId(existing.value);
    }
    var rows, events, status := Sync.SyncLoop(s, start, stored, fuel);
    Sync.RunPacing(s, start, fuel);
    Sync.RunStore(s, start, fuel);
    Sync.RunRequests(s, start, fuel);
    var estimate := Eta.EstCompletion(latest, base);
    report := Report(config, base, estimate, rows, events, status);
  }
}
