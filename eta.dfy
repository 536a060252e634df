/**
 * estCompletionTime's arithmetic: how many seconds the remaining pages
 * will take at the rate limit, split into days, hours and minutes, all in
 * Go's int64 arithmetic (wrapping products and differences, division
 * truncating toward zero).
 */
module Eta {
  import Int64
  import Sync

  /** `latest - last` on int64: the trades still to fetch. */
  function TradesLeft(latest: int, last: int): (r: int)
    requires Int64.InRange(latest) && Int64.InRange(last)
    ensures Int64.InRange(r)
    ensures Int64.InRange(latest - last) ==> r == latest - last
  {
    Int64.Wrap(latest - last)
  }

  /**
   * `tradesLeft * tradesRateLimit / 1000000000 / 1000`: nanoseconds of
   * sleep per page, to seconds, over pages of 1000 trades.
   */
  function TotalSeconds(latest: int, last: int): (t: int)
    requires Int64.InRange(latest) && Int64.InRange(last)
    ensures Int64.InRange(t)
  {
    var nanos := Int64.Wrap(TradesLeft(latest, last) * Sync.TradesRateLimit);
    Int64.Quot(Int64.Quot(nanos, 1_000_000_000), 1000)
  }

  /** When nothing overflows, the estimate is three seconds per thousand trades, rounded down. */
  lemma TotalSecondsExact(latest: int, last: int)
    requires Int64.InRange(latest) && Int64.InRange(last)
    requires 0 <= latest - last
    requires (latest - last) * Sync.TradesRateLimit <= Int64.MaxInt64
    ensures TotalSeconds(latest, last) == (3 * (latest - last)) / 1000
  {
  }

  /** A trade count large enough makes the product wrap: the estimate can come out negative. */
  lemma TotalSecondsWraps()
    ensures TotalSeconds(4_000_000_000, 0) < 0
  {
  }

  /** The printed estimate. */
  datatype Estimate = Estimate(days: int, hours: int, minutes: int)

  /** Seconds so far accounted for by an estimate. */
  function Covered(e: Estimate): int
  {
    e.days * 86400 + e.hours * 3600 + e.minutes * 60
  }

  /** A well-formed estimate of a nonnegative duration t. */
  ghost predicate Splits(e: Estimate, t: int)
  {
    0 <= e.days && 0 <= e.hours < 24 && 0 <= e.minutes < 60 && Covered(e) <= t < Covered(e) + 60
  }

  /**
   * estDay, estHr and estMin. For t >= 0 the fields are the usual
   * days/hours/minutes split, rounded down to the minute; for a negative t
   * (a wrapped estimate) each field is zero or negative and the split is
   * rounded toward zero.
   */
  function Decompose(t: int): (e: Estimate)
    ensures t >= 0 ==> Splits(e, t)
    ensures t < 0 ==>
      && e.days <= 0 && -24 < e.hours <= 0 && -60 < e.minutes <= 0
      && Covered(e) - 60 < t <= Covered(e)
  {
    var days := Int64.Quot(t, 86400);
    var hours := Int64.Quot(t - days * 86400, 3600);
    var minutes := Int64.Quot(t - days * 86400 - hours * 3600, 60);
    Estimate(days, hours, minutes)
  }

  /** The estimate printed when the upstream's newest trade id is `latest` and the table's is `last`. */
  function EstCompletion(latest: int, last: int): Estimate
    requires Int64.InRange(latest) && Int64.InRange(last)
  {
    Decompose(TotalSeconds(latest, last))
  }

  /** The split of a nonnegative duration is the only well-formed one. */
  lemma DecomposeUnique(t: int, e: Estimate)
    requires t >= 0
    requires Splits(e, t)
    ensures e == Decompose(t)
  {
  }
}
