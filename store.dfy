/**
 * The trade table as the program sees it: an append-only sequence of rows,
 * the batch of statements one page turns into, and the values read back
 * from an existing table when a run resumes.
 */
module Store {
  import opened Trades
  import Int64

  /** A statement queued on the batch sent for one page. */
  datatype Query =
    | Insert(table: string, trade: Trade)
    | CountRows(table: string)

  /** One INSERT per trade, in page order, then the row count. */
  function InsertBatch(table: string, trades: seq<Trade>): seq<Query>
  {
    seq(|trades|, i requires 0 <= i < |trades| => Insert(table, trades[i])) + [CountRows(table)]
  }

  /** The rows a batch adds to the table, in the order it inserts them. */
  function Inserted(batch: seq<Query>): seq<Trade>
    decreases |batch|
  {
    if batch == [] then []
    else (if batch[0].Insert? then [batch[0].trade] else []) + Inserted(batch[1..])
  }

  lemma {:induction false} InsertedAppend(a: seq<Query>, b: seq<Query>)
    ensures Inserted(a + b) == Inserted(a) + Inserted(b)
    decreases |a|
  {
    if a == [] {
      assert a + b == b;
    } else {
      assert (a + b)[1..] == a[1..] + b;
      InsertedAppend(a[1..], b);
    }
  }

  lemma {:induction false} InsertedInserts(table: string, trades: seq<Trade>)
    ensures Inserted(seq(|trades|, i requires 0 <= i < |trades| => Insert(table, trades[i]))) == trades
    decreases |trades|
  {
    var qs := seq(|trades|, i requires 0 <= i < |trades| => Insert(table, trades[i]));
    if trades != [] {
      assert qs[1..] == seq(|trades[1..]|, i requires 0 <= i < |trades[1..]| => Insert(table, trades[1..][i]));
      InsertedInserts(table, trades[1..]);
    }
  }

  /** Sending a page's batch adds exactly that page's trades, in order, and queues exactly one count query, last. */
  lemma BatchInsertsPage(table: string, trades: seq<Trade>)
    ensures Inserted(InsertBatch(table, trades)) == trades
    ensures |InsertBatch(table, trades)| == |trades| + 1
    ensures InsertBatch(table, trades)[|trades|] == CountRows(table)
    ensures forall i :: 0 <= i < |trades| ==> !InsertBatch(table, trades)[i].CountRows?
  {
    var qs := seq(|trades|, i requires 0 <= i < |trades| => Insert(table, trades[i]));
    InsertedAppend(qs, [CountRows(table)]);
    InsertedInserts(table, trades);
    assert Inserted([CountRows(table)]) == [];
  }

  /** The second loop of insertTradesToDb: queue one INSERT per trade, then the count query. */
  method BuildBatch(table: string, trades: seq<Trade>) returns (batch: seq<Query>)
    ensures |batch| == |trades| + 1
    ensures forall i :: 0 <= i < |trades| ==> batch[i] == Insert(table, trades[i])
    ensures batch[|trades|] == CountRows(table)
    ensures batch == InsertBatch(table, trades)
  {
    batch := [];
    for i := 0 to |trades|
      invariant |batch| == i
      invariant forall j :: 0 <= j < i ==> batch[j] == Insert(table, trades[j])
    {
      batch := batch + [Insert(table, trades[i])];
    }
    batch := batch + [CountRows(table)];
  }

  /** An index of a row whose trade id no other row exceeds. */
  function HighestIdRow(rows: seq<Trade>): (k: nat)
    requires rows != []
    ensures k < |rows|
    ensures forall j :: 0 <= j < |rows| ==> rows[j].tradeId <= rows[k].tradeId
    decreases |rows|
  {
    if |rows| == 1 then 0
    else
      var k := HighestIdRow(rows[1..]) + 1;
      if rows[0].tradeId > rows[k].tradeId then 0 else k
  }

  /**
   * The cursor an existing table resumes from: the `time` of a row with
   * the highest trade id. On an empty table the query finds no row, its
   * error is ignored, and the cursor keeps its zero value.
   */
  function ResumeCursor(rows: seq<Trade>): (c: Int64.I64)
    ensures rows == [] ==> c == 0
    ensures rows != [] ==> exists k :: 0 <= k < |rows| && rows[k].time == c &&
                                      (forall j :: 0 <= j < |rows| ==> rows[j].tradeId <= rows[k].tradeId)
  {
    if rows == [] then 0 else rows[HighestIdRow(rows)].time
  }

  /** The highest trade id stored, or 0 for an empty table (the base of the completion estimate). */
  function LastTradeId(rows: seq<Trade>): (id: Int64.I64)
    ensures rows == [] ==> id == 0
    ensures rows != [] ==> (exists k :: 0 <= k < |rows| && rows[k].tradeId == id)
    ensures forall j :: 0 <= j < |rows| ==> rows[j].tradeId <= id || rows == []
  {
    if rows == [] then 0 else rows[HighestIdRow(rows)].tradeId
  }

  /** The resume cursor is a stored time, not one past the highest trade id. */
  lemma ResumeIsNotNextId()
    ensures ResumeCursor([Trade(1690000000123456000, 1.0, 1.0, "b", "m", "", 98765)]) == 1690000000123456000
    ensures LastTradeId([Trade(1690000000123456000, 1.0, 1.0, "b", "m", "", 98765)]) + 1 == 98766
  {
  }
}
