/**
 * The upstream's trade records and their decoding into trades: each record
 * is a positional array [price, volume, time, side, type, misc, id].
 */
module Trades {
  import opened Wrappers
  import Int64

  /** A JSON value as encoding/json decodes it into interface{}; a number is a float64, carried as the real it denotes. */
  datatype Json =
    | JNull
    | JBool(b: bool)
    | JNumber(n: real)
    | JString(s: string)
    | JArray(items: seq<Json>)
    | JObject(fields: map<string, Json>)

  /**
   * The float64 conversions of the decode step, which the model keeps
   * opaque: strconv.ParseFloat, the seconds-to-nanoseconds conversion
   * int64(t * 10^9), and the conversion int64(id).
   */
  datatype FloatOps = FloatOps(
    parseFloat: string -> Option<real>,
    secondsToNanos: real -> Int64.I64,
    toInt64: real -> Int64.I64)

  datatype Trade = Trade(
    time: Int64.I64,
    price: real,
    volume: real,
    side: string,
    orderType: string,
    misc: string,
    tradeId: Int64.I64)

  /** Where decoding a record stops the program: a failed type assertion or index (a panic) or a failed ParseFloat (log.Fatal). */
  datatype DecodeError =
    | NotAnArray
    | MissingField(index: nat)
    | WrongType(index: nat)
    | BadFloat(index: nat)

  /** A record the decode step accepts: an array of at least seven fields of the right kinds whose price and volume parse. */
  ghost predicate WellFormed(ops: FloatOps, el: Json)
  {
    && el.JArray?
    && |el.items| >= 7
    && el.items[0].JString? && ops.parseFloat(el.items[0].s).Some?
    && el.items[1].JString? && ops.parseFloat(el.items[1].s).Some?
    && el.items[2].JNumber?
    && el.items[3].JString?
    && el.items[4].JString?
    && el.items[5].JString?
    && el.items[6].JNumber?
  }

  function StringAt(f: seq<Json>, i: nat): Result<string, DecodeError>
  {
    if |f| <= i then Failure(MissingField(i))
    else if !f[i].JString? then Failure(WrongType(i))
    else Success(f[i].s)
  }

  function NumberAt(f: seq<Json>, i: nat): Result<real, DecodeError>
  {
    if |f| <= i then Failure(MissingField(i))
    else if !f[i].JNumber? then Failure(WrongType(i))
    else Success(f[i].n)
  }

  function FloatAt(ops: FloatOps, f: seq<Json>, i: nat): Result<real, DecodeError>
  {
    match StringAt(f, i)
    case Failure(e) => Failure(e)
    case Success(s) => if ops.parseFloat(s).None? then Failure(BadFloat(i)) else Success(ops.parseFloat(s).value)
  }

  /**
   * One record, checked in the order the program reads it: time (2),
   * price (0), volume (1), side (3), type (4), misc (5), id (6). Extra
   * fields after the seventh are ignored.
   */
  function DecodeRecord(ops: FloatOps, el: Json): (r: Result<Trade, DecodeError>)
    ensures r.Success? <==> WellFormed(ops, el)
    ensures !el.JArray? ==> r == Failure(NotAnArray)
    ensures r.Success? ==>
      && r.value.time == ops.secondsToNanos(el.items[2].n)
      && r.value.price == ops.parseFloat(el.items[0].s).value
      && r.value.volume == ops.parseFloat(el.items[1].s).value
      && r.value.side == el.items[3].s
      && r.value.orderType == el.items[4].s
      && r.value.misc == el.items[5].s
      && r.value.tradeId == ops.toInt64(el.items[6].n)
  {
    if !el.JArray? then Failure(NotAnArray)
    else
      var f := el.items;
      match NumberAt(f, 2)
      case Failure(e) => Failure(e)
      case Success(time) =>
      match FloatAt(ops, f, 0)
      case Failure(e) => Failure(e)
      case Success(price) =>
      match FloatAt(ops, f, 1)
      case Failure(e) => Failure(e)
      case Success(volume) =>
      match StringAt(f, 3)
      case Failure(e) => Failure(e)
      case Success(side) =>
      match StringAt(f, 4)
      case Failure(e) => Failure(e)
      case Success(orderType) =>
      match StringAt(f, 5)
      case Failure(e) => Failure(e)
      case Success(misc) =>
      match NumberAt(f, 6)
      case Failure(e) => Failure(e)
      case Success(id) =>
        Success(Trade(ops.secondsToNanos(time), price, volume, side, orderType, misc, ops.toInt64(id)))
  }

  /**
   * A whole page, record by record; the first record that does not decode
   * stops the program, so the result is all trades or that record's error.
   */
  function DecodeAll(ops: FloatOps, recs: seq<Json>): (r: Result<seq<Trade>, DecodeError>)
    ensures r.Success? <==> forall i :: 0 <= i < |recs| ==> DecodeRecord(ops, recs[i]).Success?
    ensures r.Success? ==> |r.value| == |recs|
    ensures r.Success? ==> forall i :: 0 <= i < |recs| ==> r.value[i] == DecodeRecord(ops, recs[i]).value
    decreases |recs|
  {
    if recs == [] then Success([])
    else
      match DecodeRecord(ops, recs[0])
      case Failure(e) => Failure(e)
      case Success(t) =>
        match DecodeAll(ops, recs[1..])
        case Failure(e) => Failure(e)
        case Success(ts) => Success([t] + ts)
  }

  /** A failing page fails with the error of its first record that does not decode. */
  lemma {:induction false} DecodeAllFirstError(ops: FloatOps, recs: seq<Json>, k: nat)
    requires k < |recs|
    requires forall j :: 0 <= j < k ==> DecodeRecord(ops, recs[j]).Success?
    requires DecodeRecord(ops, recs[k]).Failure?
    ensures DecodeAll(ops, recs) == Failure(DecodeRecord(ops, recs[k]).error)
    decreases k
  {
    if k > 0 {
      DecodeAllFirstError(ops, recs[1..], k - 1);
    }
  }

  /** The first loop of insertTradesToDb: decode every record in order, appending to the trade list. */
  method DecodePage(ops: FloatOps, recs: seq<Json>) returns (r: Result<seq<Trade>, DecodeError>)
    ensures r == DecodeAll(ops, recs)
  {
    var trades: seq<Trade> := [];
    var i := 0;
    while i < |recs|
      invariant 0 <= i <= |recs|
      invariant forall j :: 0 <= j < i ==> DecodeRecord(ops, recs[j]).Success?
      invariant |trades| == i
      invariant forall j :: 0 <= j < i ==> trades[j] == DecodeRecord(ops, recs[j]).value
    {
      var t := DecodeRecord(ops, recs[i]);
      if t.Failure? {
        DecodeAllFirstError(ops, recs, i);
        return Failure(t.error);
      }
      trades := trades + [t.value];
      i := i + 1;
    }
    assert DecodeAll(ops, recs).Success? && DecodeAll(ops, recs).value == trades;
    r := Success(trades);
  }

  /** A sample record decodes field by field. */
  lemma DecodeSample(ops: FloatOps)
    requires ops.parseFloat("100.50").Some? && ops.parseFloat("0.75").Some?
    ensures DecodeRecord(ops, JArray([JString("100.50"), JString("0.75"), JNumber(1690000000.123456),
      JString("b"), JString("m"), JString(""), JNumber(98765.0)])) ==
      Success(Trade(ops.secondsToNanos(1690000000.123456), ops.parseFloat("100.50").value,
        ops.parseFloat("0.75").value, "b", "m", "", ops.toInt64(98765.0)))
  {
  }
}
